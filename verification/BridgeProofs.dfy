/** What holds of the bridge in every interleaving, and what a forwarder does over a whole run. */
module BridgeProofs {
  import opened Common
  import opened Text
  import opened Bridge

  // -------- Histories --------

  function Packets(tried: seq<Attempt>): seq<Packet> {
    if tried == [] then [] else Packets(tried[..|tried| - 1]) + [tried[|tried| - 1].p]
  }

  /** The packets whose send was accepted, in order. */
  function Accepted(tried: seq<Attempt>): (ps: seq<Packet>)
    ensures |ps| <= |tried|
  {
    if tried == [] then []
    else
      var a := tried[|tried| - 1];
      Accepted(tried[..|tried| - 1]) + if a.accepted then [a.p] else []
  }

  function Refusals(tried: seq<Attempt>): (n: nat)
    ensures n + |Accepted(tried)| == |tried|
  {
    if tried == [] then 0
    else Refusals(tried[..|tried| - 1]) + if tried[|tried| - 1].accepted then 0 else 1
  }

  /** What the source prints for the packets tried: a length line each, and an error line when refused. */
  function Transcript(tried: seq<Attempt>): seq<Kind> {
    if tried == [] then []
    else
      var Attempt(p, accepted) := tried[|tried| - 1];
      Transcript(tried[..|tried| - 1]) + [Len(|p.data|)] + if accepted then [] else [SendError(|p.data|)]
  }

  function Kinds(said: seq<Message>): (ks: seq<Kind>)
    ensures |ks| == |said|
    ensures forall i | 0 <= i < |said| :: ks[i] == said[i].kind
  {
    seq(|said|, i requires 0 <= i < |said| => said[i].kind)
  }

  /** The packet read but not yet tried. */
  function InFlight(pc: Pc): seq<Packet> {
    if pc.WantLog? || pc.Logging? || pc.Sending? then [pc.p] else []
  }

  predicate Leaving(pc: Pc) { pc.WantClose? || pc.Closing? || pc.Done? }

  function ClosingKind(l: Local): Kind {
    if l.res < 0 then CaptureError else End(l.nFwd)
  }

  /** What a forwarder has said, up to the texts of the library's errors. */
  function Said(l: Local): seq<Kind> {
    match l.pc
    case Logging(p, _) => Transcript(l.tried) + [Len(|p.data|)]
    case Sending(p) => Transcript(l.tried) + [Len(|p.data|)]
    case WantError(p) => if l.tried == [] then [] else Transcript(l.tried[..|l.tried| - 1]) + [Len(|p.data|)]
    case Closing(_) => Transcript(l.tried) + [ClosingKind(l)]
    case Done => Transcript(l.tried) + [ClosingKind(l)]
    case _ => Transcript(l.tried)
  }

  predicate LocalInv(f: Forwarder, l: Local) {
    && l.read == Packets(l.tried) + InFlight(l.pc)
    && l.nFwd == |Accepted(l.tried)| % UINT_RANGE
    && (l.res < 0 ==> Leaving(l.pc))
    && (l.pc.WantError? ==> l.tried != [] && l.tried[|l.tried| - 1] == Attempt(l.pc.p, false))
    && Kinds(l.said) == Said(l)
    && forall m | m in l.said :: m.from == f
  }

  lemma {:induction false} OneMoreMessage(said: seq<Message>, m: Message)
    ensures Kinds(said + [m]) == Kinds(said) + [m.kind]
  {
  }

  /** Beginning the message due keeps the invariant, whatever its text. */
  lemma {:induction false} SpeakingKeepsInv(f: Forwarder, l: Local, m: Message, todo: string)
    requires LocalInv(f, l) && Wanting(l.pc) && m.from == f
    requires l.pc.WantLog? ==> m.kind == Len(|l.pc.p.data|)
    requires l.pc.WantError? ==> m.kind == SendError(|l.pc.p.data|)
    requires l.pc.WantClose? ==> m.kind == ClosingKind(l)
    ensures LocalInv(f, l.(pc := Spoken(l.pc, todo), said := l.said + [m]))
  {
    OneMoreMessage(l.said, m);
    var l' := l.(pc := Spoken(l.pc, todo), said := l.said + [m]);
    assert Said(l') == Said(l) + [m.kind] by {
      if l.pc.WantError? {
        assert Transcript(l.tried) ==
          Transcript(l.tried[..|l.tried| - 1]) + [Len(|l.pc.p.data|)] + [SendError(|l.pc.p.data|)];
      }
    }
  }

  lemma {:induction false} EnterKeepsInv(f: Forwarder, l: Local, err: string)
    requires LocalInv(f, l) && Wanting(l.pc)
    ensures LocalInv(f, LocalStep(f, l, Enter(err)))
  {
    var m := Utterance(f, l, err);
    SpeakingKeepsInv(f, l, m, Render(m));
  }

  lemma {:induction false} OneMoreAttempt(tried: seq<Attempt>, p: Packet, accepted: bool)
    ensures var tried' := tried + [Attempt(p, accepted)];
      && Packets(tried') == Packets(tried) + [p]
      && Accepted(tried') == Accepted(tried) + (if accepted then [p] else [])
      && Transcript(tried') == Transcript(tried) + [Len(|p.data|)] + (if accepted then [] else [SendError(|p.data|)])
  {
    assert (tried + [Attempt(p, accepted)])[..|tried|] == tried;
  }

  lemma {:induction false} CounterWraps(n: nat)
    ensures (n % UINT_RANGE + 1) % UINT_RANGE == (n + 1) % UINT_RANGE
  {
  }

  lemma {:induction false} TransmitKeepsInv(f: Forwarder, l: Local, accepted: bool)
    requires LocalInv(f, l) && l.pc.Sending?
    ensures LocalInv(f, LocalStep(f, l, Transmit(accepted)))
  {
    OneMoreAttempt(l.tried, l.pc.p, accepted);
    CounterWraps(|Accepted(l.tried)|);
    var l' := LocalStep(f, l, Transmit(accepted));
    assert l'.tried[..|l.tried|] == l.tried;
    assert InFlight(l'.pc) == [] && l'.read == Packets(l'.tried);
    if accepted {
      assert Said(l') == Transcript(l'.tried) == Said(l) + [];
    } else {
      assert Said(l') == Transcript(l.tried) + [Len(|l.pc.p.data|)];
    }
  }

  lemma {:induction false} LeaveKeepsInv(f: Forwarder, l: Local)
    requires LocalInv(f, l) && Fits(l, Leave)
    ensures LocalInv(f, LocalStep(f, l, Leave))
  {
  }

  lemma {:induction false} NextKeepsInv(f: Forwarder, l: Local, got: Received)
    requires LocalInv(f, l) && Fits(l, Next(got))
    ensures LocalInv(f, LocalStep(f, l, Next(got)))
  {
    assert l.read == Packets(l.tried) + [];
    assert Packets(l.tried) + [] == Packets(l.tried);
  }

  lemma {:induction false} LocalStepInv(f: Forwarder, l: Local, e: Event)
    requires LocalInv(f, l) && Fits(l, e)
    ensures LocalInv(f, LocalStep(f, l, e))
  {
    match e
    case SeeFlag(_) =>
    case Next(got) => NextKeepsInv(f, l, got);
    case Enter(err) => EnterKeepsInv(f, l, err);
    case Print(_) =>
    case Leave => LeaveKeepsInv(f, l);
    case Transmit(accepted) => TransmitKeepsInv(f, l, accepted);
  }

  lemma {:induction false} LocalRunInv(f: Forwarder, l: Local, es: seq<Event>)
    requires LocalInv(f, l) && LocalRun(f, l, es).Some?
    ensures LocalInv(f, LocalRun(f, l, es).value)
    decreases |es|
  {
    if es != [] {
      LocalStepInv(f, l, es[0]);
      LocalRunInv(f, LocalStep(f, l, es[0]), es[1..]);
    }
  }

  // -------- The whole bridge --------

  function Other(f: Forwarder): Forwarder { if f == Couple0 then Couple1 else Couple0 }

  /** The messages of one forwarder, in the order they were begun. */
  function From(ms: seq<Message>, f: Forwarder): seq<Message> {
    if ms == [] then []
    else From(ms[..|ms| - 1], f) + if ms[|ms| - 1].from == f then [ms[|ms| - 1]] else []
  }

  /** The text the forwarder in the console section has yet to print. */
  function Unprinted(s: System): string {
    if s.owner == None then ""
    else
      var pc := s.Thread(s.owner.value).pc;
      if InSection(pc) then pc.todo else ""
  }

  /** The console holds whole messages, then the printed part of the one in progress. */
  predicate ConsoleInv(s: System) {
    Whole(s.begun, s.console, Unprinted(s), s.owner.Some?)
  }

  predicate Whole(begun: seq<Message>, console: string, todo: string, busy: bool) {
    && RenderAll(begun) == console + todo
    && (busy ==> begun != [] && |todo| <= |Render(begun[|begun| - 1])|)
  }

  /** What ties a forwarder's locals to the shared state. */
  predicate Tied(s: System, f: Forwarder, l: Local) {
    && s.Captured(Input(f)) == l.read
    && s.Sent(Output(f)) == Accepted(l.tried)
    && From(s.begun, f) == l.said
    && (InSection(l.pc) <==> s.owner == Some(f))
  }

  predicate Inv(s: System) {
    && LocalInv(Couple0, s.thread0)
    && LocalInv(Couple1, s.thread1)
    && Tied(s, Couple0, s.thread0)
    && Tied(s, Couple1, s.thread1)
    && ConsoleInv(s)
    && (s.kill <==> s.handler != Idle)
    && (s.handler == Exited ==> s.thread0.pc == Done && s.thread1.pc == Done)
  }

  lemma {:induction false} FromMore(ms: seq<Message>, m: Message, f: Forwarder)
    ensures From(ms + [m], f) == From(ms, f) + if m.from == f then [m] else []
    ensures RenderAll(ms + [m]) == RenderAll(ms) + Render(m)
  {
    assert (ms + [m])[..|ms|] == ms;
  }

  lemma {:induction false} OtherTiedAfterEnter(s: System, f: Forwarder, m: Message, other: Local)
    requires m.from == f && s.owner == None && Tied(s, Other(f), other)
    ensures Tied(s.(owner := Some(f), begun := s.begun + [m]), Other(f), other)
  {
    FromMore(s.begun, m, Other(f));
  }

  lemma {:induction false} OtherTiedAfterPacket(s: System, f: Forwarder, p: Packet, other: Local)
    requires Tied(s, Other(f), other)
    ensures Tied(s.Capture(Input(f), p), Other(f), other) && Tied(s.Send(Output(f), p), Other(f), other)
  {
  }

  /** A thread's step leaves the other thread's ties alone. */
  lemma {:induction false} OtherStaysTied(s: System, f: Forwarder, l: Local, e: Event, other: Local)
    requires Fits(l, e) && Allowed(s, e) && (e.Leave? ==> s.owner == Some(f))
    requires Tied(s, Other(f), other)
    ensures Tied(SharedStep(s, f, l, e), Other(f), other)
  {
    match e
    case SeeFlag(_) =>
    case Next(got) =>
      if got.Got? {
        OtherTiedAfterPacket(s, f, got.p, other);
      }
    case Enter(err) => OtherTiedAfterEnter(s, f, Utterance(f, l, err), other);
    case Print(_) =>
    case Leave =>
    case Transmit(_) => OtherTiedAfterPacket(s, f, l.pc.p, other);
  }

  lemma {:induction false} EnterKeepsTie(s: System, f: Forwarder, l: Local, err: string)
    requires Tied(s, f, l) && Wanting(l.pc)
    ensures Tied(SharedStep(s, f, l, Enter(err)), f, LocalStep(f, l, Enter(err)))
  {
    FromMore(s.begun, Utterance(f, l, err), f);
  }

  lemma {:induction false} TransmitKeepsTie(s: System, f: Forwarder, l: Local, accepted: bool)
    requires Tied(s, f, l) && l.pc.Sending?
    ensures Tied(SharedStep(s, f, l, Transmit(accepted)), f, LocalStep(f, l, Transmit(accepted)))
  {
    OneMoreAttempt(l.tried, l.pc.p, accepted);
    assert !accepted ==> Accepted(l.tried) + [] == Accepted(l.tried);
  }

  lemma {:induction false} SelfStaysTied(s: System, f: Forwarder, l: Local, e: Event)
    requires Tied(s, f, l) && Fits(l, e) && Allowed(s, e)
    ensures Tied(SharedStep(s, f, l, e), f, LocalStep(f, l, e))
  {
    if e.Enter? {
      EnterKeepsTie(s, f, l, e.err);
    } else if e.Transmit? {
      TransmitKeepsTie(s, f, l, e.accepted);
    }
  }

  lemma {:induction false} PrintedPart(begun: seq<Message>, console: string, todo: string, n: nat)
    requires Whole(begun, console, todo, true) && n <= |todo|
    ensures Whole(begun, console + todo[..n], todo[n..], true)
  {
    assert console + todo == (console + todo[..n]) + todo[n..];
  }

  lemma {:induction false} MessageBegun(begun: seq<Message>, console: string, m: Message)
    requires Whole(begun, console, "", false)
    ensures Whole(begun + [m], console, Render(m), true)
  {
    FromMore(begun, m, Couple0);
    assert console + "" == console;
  }

  lemma {:induction false} PrintKeepsConsole(s: System, f: Forwarder, l: Local, n: nat, s': System)
    requires l == s.Thread(f) && s.owner == Some(f) && Fits(l, Print(n)) && ConsoleInv(s)
    requires s' == SharedStep(s, f, l, Print(n)).WithThread(f, LocalStep(f, l, Print(n)))
    ensures ConsoleInv(s')
  {
    assert Unprinted(s) == l.pc.todo;
    PrintedPart(s.begun, s.console, l.pc.todo, n);
    assert s'.owner == Some(f) && s'.begun == s.begun && s'.console == s.console + l.pc.todo[..n];
    assert Unprinted(s') == l.pc.todo[n..];
  }

  lemma {:induction false} BegunKeepsConsole(s: System, f: Forwarder, m: Message, s': System)
    requires s.owner == None && ConsoleInv(s)
    requires s'.owner == Some(f) && s'.begun == s.begun + [m] && s'.console == s.console
    requires InSection(s'.Thread(f).pc) && s'.Thread(f).pc.todo == Render(m)
    ensures ConsoleInv(s')
  {
    MessageBegun(s.begun, s.console, m);
  }

  lemma {:induction false} EnterKeepsConsole(s: System, f: Forwarder, l: Local, err: string, s': System)
    requires l == s.Thread(f) && Wanting(l.pc) && s.owner == None && ConsoleInv(s)
    requires s' == SharedStep(s, f, l, Enter(err)).WithThread(f, LocalStep(f, l, Enter(err)))
    ensures ConsoleInv(s')
  {
    BegunKeepsConsole(s, f, Utterance(f, l, err), s');
  }

  lemma {:induction false} QuietKeepsConsole(s: System, f: Forwarder, l: Local, e: Event, s': System)
    requires l == s.Thread(f) && (InSection(l.pc) <==> s.owner == Some(f))
    requires Fits(l, e) && !e.Enter? && !e.Print? && ConsoleInv(s)
    requires s' == SharedStep(s, f, l, e).WithThread(f, LocalStep(f, l, e))
    ensures ConsoleInv(s')
  {
    assert s'.console == s.console && s'.begun == s.begun;
    if e.Leave? {
      assert s'.owner == None && Unprinted(s) == "" == Unprinted(s');
    } else {
      assert s'.owner == s.owner && s.owner != Some(f);
      assert s.owner.Some? ==> s'.Thread(s.owner.value) == s.Thread(s.owner.value);
      assert Unprinted(s') == Unprinted(s);
    }
  }

  lemma {:induction false} ConsoleStaysWhole(s: System, f: Forwarder, l: Local, e: Event, s': System)
    requires l == s.Thread(f) && Tied(s, f, l) && Fits(l, e) && Allowed(s, e)
    requires Tied(s, Other(f), s.Thread(Other(f)))
    requires ConsoleInv(s)
    requires s' == SharedStep(s, f, l, e).WithThread(f, LocalStep(f, l, e))
    ensures ConsoleInv(s')
  {
    if e.Enter? {
      EnterKeepsConsole(s, f, l, e.err, s');
    } else if e.Print? {
      PrintKeepsConsole(s, f, l, e.n, s');
    } else {
      QuietKeepsConsole(s, f, l, e, s');
    }
  }

  lemma {:induction false} ForwardInv(s: System, f: Forwarder, e: Event)
    requires Inv(s) && Possible(s, Forward(f, e))
    ensures Inv(Step(s, Forward(f, e)))
  {
    var l, other := s.Thread(f), s.Thread(Other(f));
    LocalStepInv(f, l, e);
    SelfStaysTied(s, f, l, e);
    OtherStaysTied(s, f, l, e, other);
    SharedFrame(s, f, l, e);
    ConsoleStaysWhole(s, f, l, e, SharedStep(s, f, l, e).WithThread(f, LocalStep(f, l, e)));
    WholeInv(s, f, SharedStep(s, f, l, e), LocalStep(f, l, e));
  }

  lemma {:induction false} SharedFrame(s: System, f: Forwarder, l: Local, e: Event)
    requires Fits(l, e)
    ensures var s' := SharedStep(s, f, l, e);
      s'.kill == s.kill && s'.handler == s.handler && s'.thread0 == s.thread0 && s'.thread1 == s.thread1
  {
  }

  lemma {:induction false} WholeInv(s: System, f: Forwarder, shared: System, l': Local)
    requires Inv(s) && s.handler != Exited
    requires LocalInv(f, l') && Tied(shared, f, l') && Tied(shared, Other(f), s.Thread(Other(f)))
    requires shared.thread0 == s.thread0 && shared.thread1 == s.thread1
    requires shared.kill == s.kill && shared.handler == s.handler
    requires ConsoleInv(shared.WithThread(f, l'))
    ensures Inv(shared.WithThread(f, l'))
  {
    var s' := shared.WithThread(f, l');
    assert Tied(s', f, l') && Tied(s', Other(f), s.Thread(Other(f)));
  }

  lemma {:induction false} StepInv(s: System, a: Action)
    requires Inv(s) && Possible(s, a)
    ensures Inv(Step(s, a))
  {
    if a.Forward? {
      ForwardInv(s, a.f, a.e);
    }
  }

  lemma {:induction false} RunInv(s: System, acts: seq<Action>)
    requires Inv(s) && Run(s, acts).Some?
    ensures Inv(Run(s, acts).value)
    decreases |acts|
  {
    if acts != [] {
      StepInv(s, acts[0]);
      RunInv(Step(s, acts[0]), acts[1..]);
    }
  }

  lemma {:induction false} InitInv()
    ensures Inv(INIT)
  {
  }

  // -------- Main results --------

  /** The state an interleaving reaches from the start. */
  predicate Reaches(acts: seq<Action>, s: System) {
    Run(INIT, acts) == Some(s)
  }

  lemma {:induction false} ReachableInv(acts: seq<Action>, s: System)
    requires Reaches(acts, s)
    ensures Inv(s)
  {
    InitInv();
    RunInv(INIT, acts);
  }

  /**
   Packets cross the bridge: what was sent on a forwarder's output is what was captured on its
   input, a different adapter, in order, without the refused packets and at most one in flight.
   */
  lemma {:induction false} PacketsCross(acts: seq<Action>, s: System, f: Forwarder)
    requires Reaches(acts, s)
    ensures Output(f) != Input(f) && Output(f) == Input(Other(f)) && (Input(f) == Adapter1 <==> f == Couple0)
    ensures var l := s.Thread(f);
      && s.Captured(Input(f)) == Packets(l.tried) + InFlight(l.pc)
      && s.Sent(Output(f)) == Accepted(l.tried)
      && |InFlight(l.pc)| <= 1
  {
    ReachableInv(acts, s);
  }

  /** Every packet read is forwarded, refused or in flight; the counter is exact below 2^32. */
  lemma {:induction false} PacketsCounted(acts: seq<Action>, s: System, f: Forwarder)
    requires Reaches(acts, s)
    ensures var l := s.Thread(f);
      && |s.Captured(Input(f))| == |s.Sent(Output(f))| + Refusals(l.tried) + |InFlight(l.pc)|
      && l.nFwd == |s.Sent(Output(f))| % UINT_RANGE
  {
    PacketsCross(acts, s, f);
    CounterExact(acts, s, f);
    PacketsLength(s.Thread(f).tried);
  }

  lemma {:induction false} CounterExact(acts: seq<Action>, s: System, f: Forwarder)
    requires Reaches(acts, s)
    ensures s.Thread(f).nFwd == |Accepted(s.Thread(f).tried)| % UINT_RANGE
  {
    ReachableInv(acts, s);
  }

  lemma {:induction false} PacketsLength(tried: seq<Attempt>)
    ensures |Packets(tried)| == |tried|
  {
    if tried != [] {
      PacketsLength(tried[..|tried| - 1]);
    }
  }

  /** The lock excludes: it is held exactly inside the console section, never across a receive or a send. */
  lemma {:induction false} ConsoleExclusion(acts: seq<Action>, s: System, f: Forwarder)
    requires Reaches(acts, s)
    ensures s.owner == Some(f) <==> InSection(s.Thread(f).pc)
    ensures !(InSection(s.thread0.pc) && InSection(s.thread1.pc))
    ensures s.Thread(f).pc.Receive? || s.Thread(f).pc.Sending? ==> s.owner != Some(f)
  {
    ReachableInv(acts, s);
  }

  /**
   The output is whole messages: all those begun when the lock is free, otherwise all but the
   last, followed by a part of that one. Each forwarder's messages appear in its own order.
   */
  lemma {:induction false} OutputIsWholeMessages(acts: seq<Action>, s: System)
    requires Reaches(acts, s)
    ensures s.owner == None ==> s.console == RenderAll(s.begun)
    ensures s.owner.Some? ==>
      && s.begun != []
      && var last := |s.begun| - 1;
         exists part :: part <= Render(s.begun[last]) && s.console == RenderAll(s.begun[..last]) + part
    ensures From(s.begun, Couple0) == s.thread0.said && From(s.begun, Couple1) == s.thread1.said
  {
    ReachableInv(acts, s);
    if s.owner == None {
      assert s.console + "" == s.console;
    } else {
      var last := |s.begun| - 1;
      var text, rest := Render(s.begun[last]), Unprinted(s);
      var part := PartPrinted(RenderAll(s.begun[..last]), text, s.console, rest);
    }
  }

  lemma {:induction false} PartPrinted(before: string, text: string, console: string, rest: string) returns (part: string)
    requires before + text == console + rest && |rest| <= |text|
    ensures part <= text && console == before + part
  {
    part := text[..|text| - |rest|];
    assert console == (console + rest)[..|console|] == (before + text)[..|console|];
  }

  /** An event that suits a program point. */
  function Offer(s: System, pc: Pc): Event {
    match pc
    case Check => SeeFlag(s.kill)
    case Receive => Next(Timeout)
    case Sending(_) => Transmit(true)
    case Logging(_, todo) => if todo == "" then Leave else Print(1)
    case Complaining(_, todo) => if todo == "" then Leave else Print(1)
    case Closing(todo) => if todo == "" then Leave else Print(1)
    case _ => Enter("")
  }

  /** A forwarder can move unless it is done or waits for the lock the other one holds. */
  lemma {:induction false} CanMove(acts: seq<Action>, s: System, f: Forwarder)
    requires Reaches(acts, s) && s.handler != Exited
    ensures (exists e :: Possible(s, Forward(f, e))) <==>
            s.Thread(f).pc != Done && !(Wanting(s.Thread(f).pc) && s.owner == Some(Other(f)))
  {
    ReachableInv(acts, s);
    var pc := s.Thread(f).pc;
    if pc != Done && !(Wanting(pc) && s.owner == Some(Other(f))) {
      assert Possible(s, Forward(f, Offer(s, pc)));
    }
  }

  /** No deadlock: while a forwarder is not done, one that is not done can move; then the handler can. */
  lemma {:induction false} NoDeadlock(acts: seq<Action>, s: System)
    requires Reaches(acts, s) && s.handler != Exited
    ensures s.thread0.pc != Done || s.thread1.pc != Done ==>
      exists f, e :: s.Thread(f).pc != Done && Possible(s, Forward(f, e))
    ensures s.thread0.pc == Done && s.thread1.pc == Done ==> Possible(s, if s.kill then Exit else CtrlC)
  {
    ReachableInv(acts, s);
    CanMove(acts, s, Couple0);
    CanMove(acts, s, Couple1);
    assert s.Thread(Couple0) == s.thread0 && s.Thread(Couple1) == s.thread1;
  }

  // -------- The stop flag --------

  /** Sends a forwarder can still finish once the flag is set, and packets it can still read. */
  function SendsLeft(pc: Pc): nat { if pc.Receive? || |InFlight(pc)| == 1 then 1 else 0 }
  function ReadsLeft(pc: Pc): nat { if pc.Receive? then 1 else 0 }

  /** Program points between here and the end of a forwarder that sees the flag set. */
  function Phase(pc: Pc): nat {
    match pc
    case Receive => 9
    case WantLog(_) => 8
    case Logging(_, _) => 7
    case Sending(_) => 6
    case WantError(_) => 5
    case Complaining(_, _) => 4
    case Check => 3
    case WantClose => 2
    case Closing(_) => 1
    case Done => 0
  }

  /** The events of one forwarder in an interleaving. */
  function Project(acts: seq<Action>, f: Forwarder): seq<Event> {
    if acts == [] then []
    else (if acts[0].Forward? && acts[0].f == f then [acts[0].e] else []) + Project(acts[1..], f)
  }

  /** Events that move on to another program point. */
  function Moves(es: seq<Event>): nat {
    if es == [] then 0 else (if es[0].Print? then 0 else 1) + Moves(es[1..])
  }

  /** One event of a forwarder that reads the flag, if at all, as set. */
  lemma {:induction false} StoppingEvent(f: Forwarder, l: Local, e: Event)
    requires Fits(l, e) && (e.SeeFlag? ==> e.kill)
    ensures var l' := LocalStep(f, l, e);
      && |l'.tried| + SendsLeft(l'.pc) <= |l.tried| + SendsLeft(l.pc)
      && |l'.read| + ReadsLeft(l'.pc) <= |l.read| + ReadsLeft(l.pc)
      && Phase(l'.pc) + (if e.Print? then 0 else 1) <= Phase(l.pc)
  {
  }

  lemma {:induction false} StopStep(s: System, a: Action, f: Forwarder)
    requires s.kill && Possible(s, a)
    ensures var s' := Step(s, a);
      && s'.kill
      && |s'.Thread(f).tried| + SendsLeft(s'.Thread(f).pc) <= |s.Thread(f).tried| + SendsLeft(s.Thread(f).pc)
      && |s'.Thread(f).read| + ReadsLeft(s'.Thread(f).pc) <= |s.Thread(f).read| + ReadsLeft(s.Thread(f).pc)
      && Phase(s'.Thread(f).pc) + Moves(Project([a], f)) <= Phase(s.Thread(f).pc)
  {
    assert [a][1..] == [];
    if a.Forward? && a.f == f {
      assert Project([a], f) == [a.e] && [a.e][1..] == [];
      StoppingEvent(f, s.Thread(f), a.e);
      assert Step(s, a).Thread(f) == LocalStep(f, s.Thread(f), a.e);
    } else {
      assert Project([a], f) == [];
      assert Step(s, a).Thread(f) == s.Thread(f);
    }
  }

  /**
   Once set, the flag stays set; from then on each forwarder finishes at most one more send, reads
   at most one more packet, and passes at most nine program points before it is done.
   */
  lemma {:induction false} StopIsPrompt(s: System, acts: seq<Action>, s': System, f: Forwarder)
    requires s.kill && Run(s, acts) == Some(s')
    ensures s'.kill
    ensures |s'.Thread(f).tried| <= |s.Thread(f).tried| + SendsLeft(s.Thread(f).pc) <= |s.Thread(f).tried| + 1
    ensures |s'.Thread(f).read| <= |s.Thread(f).read| + ReadsLeft(s.Thread(f).pc) <= |s.Thread(f).read| + 1
    ensures Phase(s'.Thread(f).pc) + Moves(Project(acts, f)) <= Phase(s.Thread(f).pc) <= 9
  {
    StopInduction(s, acts, s', f);
  }

  lemma {:induction false} StopInduction(s: System, acts: seq<Action>, s': System, f: Forwarder)
    requires s.kill && Run(s, acts) == Some(s')
    ensures s'.kill
    ensures |s'.Thread(f).tried| + SendsLeft(s'.Thread(f).pc) <= |s.Thread(f).tried| + SendsLeft(s.Thread(f).pc)
    ensures |s'.Thread(f).read| + ReadsLeft(s'.Thread(f).pc) <= |s.Thread(f).read| + ReadsLeft(s.Thread(f).pc)
    ensures Phase(s'.Thread(f).pc) + Moves(Project(acts, f)) <= Phase(s.Thread(f).pc)
    decreases |acts|
  {
    if acts != [] {
      var a := acts[0];
      StopStep(s, a, f);
      StopInduction(Step(s, a), acts[1..], s', f);
      assert [a][1..] == [];
      assert Moves(Project(acts, f)) == Moves(Project([a], f)) + Moves(Project(acts[1..], f)) by {
        if a.Forward? && a.f == f {
          assert Project(acts, f)[1..] == Project(acts[1..], f);
        } else {
          assert Project(acts, f) == Project(acts[1..], f);
        }
      }
    }
  }

  /** Moves the whole system can still make, and messages its threads can still begin, once stopping. */
  function MovesLeft(s: System): nat {
    Phase(s.thread0.pc) + Phase(s.thread1.pc) + if s.handler == Waiting then 1 else 0
  }

  function MessagesLeft(pc: Pc): nat {
    match pc
    case Receive => 3
    case WantLog(_) => 3
    case Logging(_, _) => 2
    case Sending(_) => 2
    case WantError(_) => 2
    case Complaining(_, _) => 1
    case Check => 1
    case WantClose => 1
    case Closing(_) => 0
    case Done => 0
  }

  /** Every event of a stopping system uses up a move or puts characters on the console. */
  lemma {:induction false} StoppingProgress(s: System, a: Action)
    requires s.kill && s.handler != Idle && Possible(s, a)
    ensures var s' := Step(s, a);
      && s'.kill && s'.handler != Idle
      && 1 + MovesLeft(s') + |s.console| <= MovesLeft(s) + |s'.console|
  {
    if a.Forward? {
      var l := s.Thread(a.f);
      StoppingEvent(a.f, l, a.e);
      SharedFrame(s, a.f, l, a.e);
      assert |s.console| + (if a.e.Print? then 1 else 0) <= |SharedStep(s, a.f, l, a.e).console|;
    }
  }

  lemma {:induction false} StoppingUtterance(f: Forwarder, l: Local, e: Event)
    requires Fits(l, e) && (e.SeeFlag? ==> e.kill)
    ensures MessagesLeft(LocalStep(f, l, e).pc) + (if e.Enter? then 1 else 0) <= MessagesLeft(l.pc)
  {
  }

  lemma {:induction false} BegunGrows(s: System, f: Forwarder, l: Local, e: Event)
    requires Fits(l, e)
    ensures |SharedStep(s, f, l, e).begun| == |s.begun| + if e.Enter? then 1 else 0
  {
  }

  lemma {:induction false} StoppingSpeech(s: System, a: Action)
    requires s.kill && Possible(s, a)
    ensures var s' := Step(s, a);
      |s'.begun| + MessagesLeft(s'.thread0.pc) + MessagesLeft(s'.thread1.pc) <=
      |s.begun| + MessagesLeft(s.thread0.pc) + MessagesLeft(s.thread1.pc)
  {
    if a.Forward? {
      var l := s.Thread(a.f);
      StoppingUtterance(a.f, l, a.e);
      BegunGrows(s, a.f, l, a.e);
      SharedFrame(s, a.f, l, a.e);
    }
  }

  lemma {:induction false} StoppingRun(s: System, acts: seq<Action>, s': System)
    requires s.kill && s.handler != Idle && Run(s, acts) == Some(s')
    ensures |acts| + MovesLeft(s') + |s.console| <= MovesLeft(s) + |s'.console|
    ensures |s'.begun| + MessagesLeft(s'.thread0.pc) + MessagesLeft(s'.thread1.pc) <=
      |s.begun| + MessagesLeft(s.thread0.pc) + MessagesLeft(s.thread1.pc)
    decreases |acts|
  {
    if acts != [] {
      StoppingProgress(s, acts[0]);
      StoppingSpeech(s, acts[0]);
      StoppingRun(Step(s, acts[0]), acts[1..], s');
    }
  }

  /**
   Shutdown is finite: after the flag is set, every run has at most 19 steps besides one for each
   character still to come on the console, and at most six more messages are begun.
   */
  lemma {:induction false} ShutdownIsFinite(before: seq<Action>, s: System, acts: seq<Action>, s': System)
    requires Reaches(before, s) && s.kill && Run(s, acts) == Some(s')
    ensures |acts| <= 19 + |RenderAll(s'.begun)| - |s.console|
    ensures |s'.begun| <= |s.begun| + 6
  {
    ReachableInv(before, s);
    RunInv(s, acts);
    StoppingRun(s, acts, s');
    assert |s'.console| <= |RenderAll(s'.begun)|;
  }

  // -------- The closing message --------

  /** The code of the last read in `es`, or `res` when there is none. */
  function LastCode(res: int, es: seq<Event>): int
    decreases |es|
  {
    if es == [] then res
    else LastCode(if es[0].Next? then es[0].got.Code() else res, es[1..])
  }

  /** In any interleaving, a forwarder runs its own program on its own events. */
  lemma {:induction false} ThreadRunsItsProgram(s: System, acts: seq<Action>, s': System, f: Forwarder)
    requires Run(s, acts) == Some(s')
    ensures LocalRun(f, s.Thread(f), Project(acts, f)) == Some(s'.Thread(f))
    decreases |acts|
  {
    if acts != [] {
      var s1 := Step(s, acts[0]);
      ThreadRunsItsProgram(s1, acts[1..], s', f);
      if acts[0].Forward? && acts[0].f == f {
        assert Project(acts, f)[1..] == Project(acts[1..], f);
      } else {
        assert Project(acts, f) == Project(acts[1..], f);
        assert s1.Thread(f) == s.Thread(f);
      }
    }
  }

  lemma {:induction false} ResIsLastCode(f: Forwarder, l: Local, es: seq<Event>)
    requires LocalRun(f, l, es).Some?
    ensures LocalRun(f, l, es).value.res == LastCode(l.res, es)
    decreases |es|
  {
    if es != [] {
      ResIsLastCode(f, LocalStep(f, l, es[0]), es[1..]);
    }
  }

  lemma {:induction false} NoClosingInTranscript(tried: seq<Attempt>)
    ensures forall k | k in Transcript(tried) :: k.Len? || k.SendError?
  {
    if tried != [] {
      NoClosingInTranscript(tried[..|tried| - 1]);
    }
  }

  /**
   A forwarder that is done has closed with exactly one message, its last: the error message
   exactly when its last read failed, and otherwise the number of packets it sent, modulo 2^32.
   Before that come one length line per packet tried and one error line per refusal, in order.
   */
  lemma {:induction false} ClosesOnce(acts: seq<Action>, s: System, f: Forwarder)
    requires Reaches(acts, s) && s.Thread(f).pc == Done
    ensures var l, failed := s.Thread(f), LastCode(0, Project(acts, f)) < 0;
      && Kinds(l.said) == Transcript(l.tried) + [if failed then CaptureError else End(|s.Sent(Output(f))| % UINT_RANGE)]
      && (forall k | k in Transcript(l.tried) :: k.Len? || k.SendError?)
  {
    ReachableInv(acts, s);
    ThreadRunsItsProgram(INIT, acts, s, f);
    ResIsLastCode(f, START, Project(acts, f));
    NoClosingInTranscript(s.Thread(f).tried);
  }

  /** Until it closes, it has printed no closing message. */
  lemma {:induction false} NoEarlyClosing(acts: seq<Action>, s: System, f: Forwarder)
    requires Reaches(acts, s) && !s.Thread(f).pc.Closing? && s.Thread(f).pc != Done
    ensures forall m | m in s.Thread(f).said :: m.kind.Len? || m.kind.SendError?
  {
    ReachableInv(acts, s);
    var l := s.Thread(f);
    NoClosingInTranscript(l.tried);
    if l.tried != [] {
      NoClosingInTranscript(l.tried[..|l.tried| - 1]);
    }
    forall m | m in l.said ensures m.kind.Len? || m.kind.SendError? {
      var i :| 0 <= i < |l.said| && l.said[i] == m;
      assert Kinds(l.said)[i] == m.kind && m.kind in Said(l);
    }
  }

  // -------- What the lines say --------

  /** The number printed for an adapter pair: 0 for the one that captures on the first adapter, else 1. */
  function Interface(f: Forwarder): nat { if Input(f) == Adapter1 then 0 else 1 }

  /** A length line: the direction, and the captured length as a numeral. */
  lemma {:induction false} LengthLineReads(f: Forwarder, n: nat, err: string)
    ensures exists d ::
      Numeral(d, n) && Render(Message(f, Len(n), err)) == (if Input(f) == Adapter1 then ">> Len: " else "<< Len: ") + d + "\n"
  {
    OnlyNumeral(Decimal(n), n);
  }

  /**
   The line for a refused packet: its captured length, the interface, and the library's text. The
   line for a failed capture has the library's text only.
   */
  lemma {:induction false} ErrorLinesRead(f: Forwarder, n: nat, err: string)
    ensures exists d, i ::
      Numeral(d, n) && Numeral(i, Interface(f)) && Render(Message(f, SendError(n), err)) ==
      "Error sending a " + d + " bytes packets on interface " + i + ": " + err + "\n"
    ensures Render(Message(f, CaptureError, err)) == "Error capturing the packets: " + err + "\n"
  {
    OnlyNumeral(Decimal(n), n);
    OnlyNumeral(Decimal(State(f)), Interface(f));
  }

  /** The closing line: the interface, and the number of packets forwarded. */
  lemma {:induction false} ClosingLineReads(f: Forwarder, n: nat, err: string)
    ensures exists i, d ::
      Numeral(i, Interface(f)) && Numeral(d, n) && Render(Message(f, End(n), err)) ==
      "End of bridging on interface " + i + ". Forwarded packets:" + d + "\n"
  {
    OnlyNumeral(Decimal(n), n);
    OnlyNumeral(Decimal(State(f)), Interface(f));
  }

  // -------- A line tells its message --------

  lemma {:induction false} DigitsEnd(d: string, x: string, e: string, y: string)
    requires forall i | 0 <= i < |d| :: IsDigit(d[i])
    requires forall i | 0 <= i < |e| :: IsDigit(e[i])
    requires x != "" && !IsDigit(x[0]) && y != "" && !IsDigit(y[0])
    requires d + x == e + y
    ensures d == e && x == y
  {
    var s := d + x;
    assert s == e + y;
    assert !IsDigit(s[|d|]) && !IsDigit(s[|e|]);
    assert forall i | 0 <= i < |d| :: IsDigit(s[i]);
    assert forall i | 0 <= i < |e| :: IsDigit(s[i]);
    assert s[..|d|] == d && s[..|e|] == e;
  }

  /** The same words before a number tell the number and what follows it. */
  lemma {:induction false} NumberTold(words: string, n: nat, x: string, k: nat, y: string)
    requires words + Decimal(n) + x == words + Decimal(k) + y
    requires x != "" && !IsDigit(x[0]) && y != "" && !IsDigit(y[0])
    ensures n == k && x == y
  {
    assert (words + Decimal(n) + x)[|words|..] == Decimal(n) + x;
    assert (words + Decimal(k) + y)[|words|..] == Decimal(k) + y;
    DigitsEnd(Decimal(n), x, Decimal(k), y);
    DecimalReadsBack(n);
    DecimalReadsBack(k);
  }

  /** `err` is only filled in where the line shows it. */
  predicate Proper(m: Message) { m.kind.Len? || m.kind.End? ==> m.err == "" }

  lemma {:induction false} LineTellsKind(m: Message, w: Message)
    requires Render(m) == Render(w)
    ensures m.kind.Len? == w.kind.Len? && m.kind.SendError? == w.kind.SendError?
    ensures m.kind.CaptureError? == w.kind.CaptureError? && m.kind.End? == w.kind.End?
    ensures m.kind.Len? ==> m.from == w.from
  {
    LineStarts(m);
    LineStarts(w);
  }

  lemma {:induction false} LineStarts(m: Message)
    ensures |Render(m)| > 6
    ensures m.kind.Len? ==> Render(m)[0] == if m.from == Couple0 then '>' else '<'
    ensures !m.kind.Len? ==> Render(m)[0] == 'E' && Render(m)[1] == if m.kind.End? then 'n' else 'r'
    ensures m.kind.SendError? ==> Render(m)[6] == 's'
    ensures m.kind.CaptureError? ==> Render(m)[6] == 'c'
  {
  }

  lemma {:induction false} SendErrorTells(m: Message, w: Message)
    requires m.kind.SendError? && w.kind.SendError? && Render(m) == Render(w)
    ensures m == w
  {
    var x := SendErrorTail(m);
    var y := SendErrorTail(w);
    NumberTold("Error sending a ", m.kind.caplen, x, w.kind.caplen, y);
    NumberTold(" bytes packets on interface ", State(m.from), ": " + m.err + "\n", State(w.from), ": " + w.err + "\n");
    assert (": " + m.err + "\n")[2..|m.err| + 2] == m.err && (": " + w.err + "\n")[2..|w.err| + 2] == w.err;
  }

  /** What follows the length in the line for a refused packet. */
  lemma {:induction false} SendErrorTail(m: Message) returns (x: string)
    requires m.kind.SendError?
    ensures x == " bytes packets on interface " + Decimal(State(m.from)) + (": " + m.err + "\n")
    ensures x != "" && x[0] == ' '
    ensures Render(m) == "Error sending a " + Decimal(m.kind.caplen) + x
  {
    x := " bytes packets on interface " + Decimal(State(m.from)) + (": " + m.err + "\n");
  }

  lemma {:induction false} EndTells(m: Message, w: Message)
    requires m.kind.End? && w.kind.End? && Render(m) == Render(w)
    ensures m.kind == w.kind && m.from == w.from
  {
    var head, middle := "End of bridging on interface ", ". Forwarded packets:";
    var x, y := middle + Decimal(m.kind.forwarded) + "\n", middle + Decimal(w.kind.forwarded) + "\n";
    assert Render(m) == head + Decimal(State(m.from)) + x;
    assert Render(w) == head + Decimal(State(w.from)) + y;
    NumberTold(head, State(m.from), x, State(w.from), y);
    NumberTold(middle, m.kind.forwarded, "\n", w.kind.forwarded, "\n");
  }

  /**
   A printed line tells its whole message: what happened, its numbers, the library's text and the
   forwarder. Only the capture error does not tell the forwarder.
   */
  lemma {:induction false} LineTellsMessage(m: Message, w: Message)
    requires Proper(m) && Proper(w) && Render(m) == Render(w)
    ensures m.kind == w.kind && m.err == w.err
    ensures m.from == w.from || m.kind == CaptureError
  {
    LineTellsKind(m, w);
    match m.kind
    case Len(n) =>
      NumberTold(if m.from == Couple0 then ">> Len: " else "<< Len: ", n, "\n", w.kind.caplen, "\n");
    case SendError(_) => SendErrorTells(m, w);
    case CaptureError =>
      var words := "Error capturing the packets: ";
      assert Render(m)[|words|..|Render(m)| - 1] == m.err && Render(w)[|words|..|Render(w)| - 1] == w.err;
    case End(_) => EndTells(m, w);
  }
}
