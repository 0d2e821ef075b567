/**
 `CaptureAndForwardThread` as the loop it is, run against a script of what its environment does.
 It follows the step machine of module `Bridge`, so everything proved of that machine holds of it.
 */
module Forwarding {
  import opened Common
  import opened Bridge
  import opened BridgeProofs

  /** One turn of the loop: the flag as read, the capture's result, the send's result and error text. */
  datatype Round = Round(kill: bool, got: Received, accepted: bool, err: string)

  lemma {:induction false} RunHead(f: Forwarder, l: Local, es: seq<Event>)
    requires es != []
    ensures LocalRun(f, l, es) == if Fits(l, es[0]) then LocalRun(f, LocalStep(f, l, es[0]), es[1..]) else None
  {
  }

  lemma {:induction false} RunConcat(f: Forwarder, l: Local, a: seq<Event>, b: seq<Event>)
    requires LocalRun(f, l, a).Some?
    ensures LocalRun(f, l, a + b) == LocalRun(f, LocalRun(f, l, a).value, b)
    decreases |a|
  {
    if a == [] {
      assert a + b == b;
    } else {
      RunHead(f, l, a);
      RunHead(f, l, a + b);
      assert (a + b)[1..] == a[1..] + b;
      RunConcat(f, LocalStep(f, l, a[0]), a[1..], b);
    }
  }

  lemma {:induction false} RunOne(f: Forwarder, l: Local, e: Event)
    requires Fits(l, e)
    ensures LocalRun(f, l, [e]) == Some(LocalStep(f, l, e))
  {
    assert [e][1..] == [];
  }

  /** Printing a whole message inside the console section. */
  function Speaking(f: Forwarder, l: Local, err: string): seq<Event>
    requires Wanting(l.pc)
  {
    [Enter(err), Print(|Render(Utterance(f, l, err))|), Leave]
  }

  function Spoke(f: Forwarder, l: Local, err: string): Local
    requires Wanting(l.pc)
  {
    l.(pc := AfterSection(Spoken(l.pc, "")), said := l.said + [Utterance(f, l, err)])
  }

  lemma {:induction false} RunSpeaking(f: Forwarder, l: Local, err: string)
    requires Wanting(l.pc)
    ensures LocalRun(f, l, Speaking(f, l, err)) == Some(Spoke(f, l, err))
  {
    var text := Render(Utterance(f, l, err));
    var l1 := LocalStep(f, l, Enter(err));
    var l2 := l1.(pc := Spoken(l.pc, ""));
    assert text[|text|..] == "";
    assert LocalStep(f, l1, Print(|text|)) == l2;
    RunOne(f, l1, Print(|text|));
    RunOne(f, l2, Leave);
    RunConcat(f, l1, [Print(|text|)], [Leave]);
    assert Speaking(f, l, err)[1..] == [Print(|text|)] + [Leave];
  }

  /** `steps` leads from the start of the thread to `l`. */
  ghost predicate Leads(f: Forwarder, steps: seq<Event>, l: Local) {
    LocalRun(f, START, steps) == Some(l)
  }

  lemma {:induction false} LeadsOn(f: Forwarder, steps: seq<Event>, l: Local, e: Event)
    requires Leads(f, steps, l) && Fits(l, e)
    ensures Leads(f, steps + [e], LocalStep(f, l, e))
  {
    RunConcat(f, START, steps, [e]);
    RunOne(f, l, e);
  }

  lemma {:induction false} LeadsPastMessage(f: Forwarder, steps: seq<Event>, l: Local, err: string)
    requires Leads(f, steps, l) && Wanting(l.pc)
    ensures Leads(f, steps + Speaking(f, l, err), Spoke(f, l, err))
  {
    RunConcat(f, START, steps, Speaking(f, l, err));
    RunSpeaking(f, l, err);
  }

  /** The error line of a refused send. */
  method ReportRefusal(f: Forwarder, p: Packet, err: string, ghost steps0: seq<Event>, ghost l0: Local)
    returns (m: Message, ghost steps: seq<Event>, ghost l: Local)
    requires Leads(f, steps0, l0) && l0.pc == WantError(p)
    ensures m == Message(f, SendError(|p.data|), err)
    ensures Leads(f, steps, l) && l == l0.(pc := Check, said := l0.said + [m])
  {
    m := Message(f, SendError(|p.data|), err);
    LeadsPastMessage(f, steps0, l0, err);
    steps, l := steps0 + Speaking(f, l0, err), Spoke(f, l0, err);
  }

  /** The length line and the send of one packet; it is counted, or the error line follows. */
  method ForwardPacket(f: Forwarder, p: Packet, accepted: bool, err: string, nFwd0: nat,
                       ghost steps0: seq<Event>, ghost l0: Local)
    returns (said: seq<Message>, sent: seq<Packet>, nFwd: nat, ghost steps: seq<Event>, ghost l: Local)
    requires Leads(f, steps0, l0) && l0.pc == WantLog(p) && l0.nFwd == nFwd0
    ensures sent == (if accepted then [p] else [])
    ensures nFwd == (if accepted then (nFwd0 + 1) % UINT_RANGE else nFwd0)
    ensures said == [Message(f, Len(|p.data|), "")] +
      if accepted then [] else [Message(f, SendError(|p.data|), err)]
    ensures Leads(f, steps, l) && l.pc == Check
    ensures l.res == l0.res && l.nFwd == nFwd && l.said == l0.said + said
    ensures l.tried == l0.tried + [Attempt(p, accepted)]
  {
    said, nFwd := [Message(f, Len(|p.data|), "")], nFwd0;
    LeadsPastMessage(f, steps0, l0, "");
    steps, l := steps0 + Speaking(f, l0, ""), Spoke(f, l0, "");
    LeadsOn(f, steps, l, Transmit(accepted));
    steps, l := steps + [Transmit(accepted)], LocalStep(f, l, Transmit(accepted));
    sent := if accepted then [p] else [];
    if !accepted {
      var m;
      m, steps, l := ReportRefusal(f, p, err, steps, l);
      said := said + [m];
    } else {
      nFwd := (nFwd + 1) % UINT_RANGE;
    }
  }

  /** A round whose loop condition is false. */
  predicate Ends(r: Round) { r.kill || r.got.Failed? }

  /** The round in which the loop ends, or the length of the script. */
  function StopAt(script: seq<Round>): (n: nat)
    ensures n <= |script|
    ensures n < |script| ==> Ends(script[n])
    ensures forall i | 0 <= i < n :: !Ends(script[i])
  {
    if script == [] || Ends(script[0]) then 0 else 1 + StopAt(script[1..])
  }

  /** The packets the rounds before that deliver, with what becomes of them. */
  function Served(script: seq<Round>): seq<Attempt> {
    if script == [] || Ends(script[0]) then []
    else
      var r := script[0];
      (if r.got.Got? then [Attempt(r.got.p, r.accepted)] else []) + Served(script[1..])
  }

  /** What the thread prints over those rounds. */
  function Lines(f: Forwarder, script: seq<Round>): seq<Message> {
    if script == [] || Ends(script[0]) then [] else RoundLines(f, script[0]) + Lines(f, script[1..])
  }

  function RoundLines(f: Forwarder, r: Round): seq<Message> {
    if !r.got.Got? then []
    else
      [Message(f, Len(|r.got.p.data|), "")] +
      if r.accepted then [] else [Message(f, SendError(|r.got.p.data|), r.err)]
  }

  lemma {:induction false} LinesFront(f: Forwarder, script: seq<Round>)
    requires script != [] && !Ends(script[0])
    ensures Lines(f, script) == RoundLines(f, script[0]) + Lines(f, script[1..])
  {
  }

  lemma {:induction false} StopFront(script: seq<Round>)
    requires script != [] && !Ends(script[0])
    ensures StopAt(script) == 1 + StopAt(script[1..])
  {
  }

  lemma {:induction false} RoundInPlace(f: Forwarder, script: seq<Round>, j: nat)
    requires j < StopAt(script)
    ensures Lines(f, script) == Lines(f, script[..j]) + RoundLines(f, script[j]) + Lines(f, script[j + 1..])
    decreases j
  {
    LinesFront(f, script);
    if j > 0 {
      var rest := script[1..];
      StopFront(script);
      RoundInPlace(f, rest, j - 1);
      assert script[..j][1..] == rest[..j - 1] && rest[j..] == script[j + 1..] && rest[j - 1] == script[j];
      LinesFront(f, script[..j]);
      LinesApart(RoundLines(f, script[0]), Lines(f, rest[..j - 1]), RoundLines(f, script[j]), Lines(f, rest[j..]));
    } else {
      LinesApart([], [], RoundLines(f, script[0]), Lines(f, script[1..]));
    }
  }

  lemma {:induction false} LinesApart(a: seq<Message>, b: seq<Message>, c: seq<Message>, d: seq<Message>)
    ensures a + (b + c + d) == (a + b) + c + d
    ensures [] + c + d == c + d
  {
  }

  /** A refused packet's two lines come where its round stands, the second with that round's error text. */
  lemma {:induction false} RefusalReported(f: Forwarder, script: seq<Round>, j: nat)
    requires j < StopAt(script) && script[j].got.Got? && !script[j].accepted
    ensures Lines(f, script) ==
      Lines(f, script[..j]) +
      [Message(f, Len(|script[j].got.p.data|), ""), Message(f, SendError(|script[j].got.p.data|), script[j].err)] +
      Lines(f, script[j + 1..])
  {
    RoundInPlace(f, script, j);
  }

  /** The first `i` rounds have been handled: what was tried, printed and sent, and the rest to come. */
  ghost predicate Covers(
      f: Forwarder, script: seq<Round>, i: nat, tried: seq<Attempt>, said: seq<Message>, sent: seq<Packet>)
    requires i <= |script|
  {
    && tried + Served(script[i..]) == Served(script)
    && said + Lines(f, script[i..]) == Lines(f, script)
    && sent == Accepted(tried)
  }

  lemma {:induction false} CoversNone(f: Forwarder, script: seq<Round>)
    ensures Covers(f, script, 0, [], [], [])
  {
    assert script[0..] == script && [] + Served(script) == Served(script);
    LinesApart([], [], [], Lines(f, script));
    assert [] + Lines(f, script) == Lines(f, script);
  }

  lemma {:induction false} CoversNext(
      f: Forwarder, script: seq<Round>, i: nat, tried: seq<Attempt>, said: seq<Message>, sent: seq<Packet>)
    requires i < |script| && !Ends(script[i]) && Covers(f, script, i, tried, said, sent)
    ensures var r := script[i];
      if r.got.Got? then
        Covers(f, script, i + 1, tried + [Attempt(r.got.p, r.accepted)], said + RoundLines(f, r),
               sent + if r.accepted then [r.got.p] else [])
      else Covers(f, script, i + 1, tried, said, sent)
  {
    var r, rest := script[i], script[i + 1..];
    assert script[i..][0] == r && script[i..][1..] == rest;
    ServedOn(tried, script, i);
    LinesFront(f, script[i..]);
    assert said + (RoundLines(f, r) + Lines(f, rest)) == said + RoundLines(f, r) + Lines(f, rest);
    if r.got.Got? {
      OneMoreAttempt(tried, r.got.p, r.accepted);
    } else {
      assert said + [] == said;
    }
  }

  lemma {:induction false} CoversAll(
      f: Forwarder, script: seq<Round>, i: nat, tried: seq<Attempt>, said: seq<Message>, sent: seq<Packet>)
    requires i <= |script| && Covers(f, script, i, tried, said, sent)
    requires forall j | 0 <= j < i :: !Ends(script[j])
    requires i < |script| ==> Ends(script[i])
    ensures StopAt(script) == i && tried == Served(script) && said == Lines(f, script) && sent == Accepted(Served(script))
  {
    assert i < |script| ==> script[i..][0] == script[i];
    assert Served(script[i..]) == [] && Lines(f, script[i..]) == [];
    assert tried + [] == tried && said + [] == said;
  }

  /** Once its program is at the loop condition or over, a thread has said what its packets call for. */
  lemma {:induction false} ThreadSays(f: Forwarder, steps: seq<Event>, l: Local)
    requires Leads(f, steps, l) && (l.pc == Check || l.pc == Done)
    ensures Kinds(l.said) == Transcript(l.tried) + if l.pc == Done then [ClosingKind(l)] else []
    ensures l.nFwd == |Accepted(l.tried)| % UINT_RANGE
  {
    LocalRunInv(f, START, steps);
    assert Transcript(l.tried) + [] == Transcript(l.tried);
  }

  lemma {:induction false} ServedOn(tried: seq<Attempt>, script: seq<Round>, i: nat)
    requires i < |script| && !Ends(script[i])
    ensures var r := script[i];
      tried + Served(script[i..]) ==
      (if r.got.Got? then tried + [Attempt(r.got.p, r.accepted)] else tried) + Served(script[i + 1..])
  {
    assert script[i..][0] == script[i] && script[i..][1..] == script[i + 1..];
  }

  /** The loop condition: the flag, and unless it is set, the next capture. */
  method EvaluateGuard(f: Forwarder, r: Round, res0: int, ghost steps0: seq<Event>, ghost l0: Local)
    returns (stop: bool, res: int, ghost steps: seq<Event>, ghost l: Local)
    requires Leads(f, steps0, l0) && l0.pc == Check && l0.res == res0 && r.got.Valid()
    ensures Leads(f, steps, l) && stop == Ends(r) && res == l.res
    ensures res == (if r.kill then res0 else r.got.Code())
    ensures stop ==> l == l0.(pc := WantClose, res := res)
    ensures !stop && res == 0 ==> l == l0.(pc := Check, res := 0)
    ensures !stop && res != 0 ==> r.got.Got? && l == l0.(pc := WantLog(r.got.p), res := res, read := l0.read + [r.got.p])
  {
    LeadsOn(f, steps0, l0, SeeFlag(r.kill));
    steps, l := steps0 + [SeeFlag(r.kill)], LocalStep(f, l0, SeeFlag(r.kill));
    if r.kill {
      return true, res0, steps, l;
    }
    LeadsOn(f, steps, l, Next(r.got));
    steps, l := steps + [Next(r.got)], LocalStep(f, l, Next(r.got));
    res := r.got.Code();
    stop := res < 0;
  }

  /** After the loop: the reason it ended. */
  method CloseThread(f: Forwarder, res: int, nFwd: nat, err: string, ghost steps0: seq<Event>, ghost l0: Local)
    returns (m: Message, ghost steps: seq<Event>, ghost l: Local)
    requires Leads(f, steps0, l0) && l0.pc == WantClose && l0.res == res && l0.nFwd == nFwd
    ensures m == if res < 0 then Message(f, CaptureError, err) else Message(f, End(nFwd), "")
    ensures Leads(f, steps, l) && l == l0.(pc := Done, said := l0.said + [m])
  {
    LeadsPastMessage(f, steps0, l0, err);
    steps, l := steps0 + Speaking(f, l0, err), Spoke(f, l0, err);
    if res < 0 {
      m := Message(f, CaptureError, err);
    } else {
      m := Message(f, End(nFwd), "");
    }
  }

  /** The loop, up to the reason it ends or the end of the script. */
  method ForwardLoop(f: Forwarder, script: seq<Round>)
    returns (finished: bool, res: int, nFwd: nat, sent: seq<Packet>, said: seq<Message>,
             ghost steps: seq<Event>, ghost l: Local)
    requires forall i | 0 <= i < |script| :: script[i].got.Valid()
    ensures finished <==> StopAt(script) < |script|
    ensures res < 0 <==> finished && !script[StopAt(script)].kill
    ensures Leads(f, steps, l) && l.pc == (if finished then WantClose else Check)
    ensures l.res == res && l.nFwd == nFwd && l.said == said && Accepted(l.tried) == sent
    ensures l.tried == Served(script) && said == Lines(f, script)
  {
    finished, res, nFwd, sent, said, steps, l := false, 0, 0, [], [], [], START;
    var i := 0;
    CoversNone(f, script);
    while i < |script|
      invariant i <= |script| && !finished && res >= 0
      invariant Leads(f, steps, l) && l.pc == Check && l.res == res && l.nFwd == nFwd && l.said == said
      invariant Covers(f, script, i, l.tried, said, sent)
      invariant forall j | 0 <= j < i :: !Ends(script[j])
    {
      var r := script[i];
      finished, res, steps, l := EvaluateGuard(f, r, res, steps, l);
      if finished {
        break;
      }
      CoversNext(f, script, i, l.tried, said, sent);
      if res != 0 {
        var lines, more;
        lines, more, nFwd, steps, l := ForwardPacket(f, r.got.p, r.accepted, r.err, nFwd, steps, l);
        said, sent := said + lines, sent + more;
      }
      i := i + 1;
    }
    CoversAll(f, script, i, l.tried, said, sent);
  }

  /**
   The thread. Its results are those the script asks for, and also those of the thread program of
   the bridge after the events `steps`.
   */
  method CaptureAndForwardThread(f: Forwarder, script: seq<Round>, closingErr: string)
    returns (finished: bool, nFwd: nat, sent: seq<Packet>, said: seq<Message>, ghost steps: seq<Event>, ghost l: Local)
    requires forall i | 0 <= i < |script| :: script[i].got.Valid()
    ensures finished <==> StopAt(script) < |script|
    ensures sent == Accepted(Served(script)) && nFwd == |sent| % UINT_RANGE
    ensures Kinds(said) == Transcript(Served(script)) +
      if !finished then [] else [if script[StopAt(script)].kill then End(nFwd) else CaptureError]
    ensures said == Lines(f, script) +
      if !finished then []
      else if script[StopAt(script)].kill then [Message(f, End(nFwd), "")]
      else [Message(f, CaptureError, closingErr)]
    ensures Leads(f, steps, l) && l.pc == (if finished then Done else Check)
    ensures l.nFwd == nFwd && l.said == said && l.tried == Served(script)
  {
    var res;
    finished, res, nFwd, sent, said, steps, l := ForwardLoop(f, script);
    if finished {
      var m;
      m, steps, l := CloseThread(f, res, nFwd, closingErr, steps, l);
      said := said + [m];
    }
    ThreadSays(f, steps, l);
  }
}
