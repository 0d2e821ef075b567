/**
 The user-level bridge: two forwarder threads, the stop flag, the console lock and the Ctrl+C
 handler, as interleaved atomic steps. Capture, transmission and lock scheduling belong to the
 environment: every outcome they may have is an input of a step.
 */
module Bridge {
  import opened Common
  import opened Text

  datatype Packet = Packet(data: seq<Byte>)
  datatype Adapter = Adapter1 | Adapter2
  datatype Forwarder = Couple0 | Couple1

  function State(f: Forwarder): nat { if f == Couple0 then 0 else 1 }
  function Input(f: Forwarder): Adapter { if f == Couple0 then Adapter1 else Adapter2 }
  function Output(f: Forwarder): Adapter { if f == Couple0 then Adapter2 else Adapter1 }

  /** What a forwarder says on the console; `SendError` and `CaptureError` add the library's text. */
  datatype Kind = Len(caplen: nat) | SendError(caplen: nat) | CaptureError | End(forwarded: nat)
  datatype Message = Message(from: Forwarder, kind: Kind, err: string)

  function Render(m: Message): (s: string)
    ensures s != ""
  {
    match m.kind
    case Len(n) => (if m.from == Couple0 then ">> Len: " else "<< Len: ") + Decimal(n) + "\n"
    case SendError(n) =>
      "Error sending a " + Decimal(n) + " bytes packets on interface " + Decimal(State(m.from)) + ": " + m.err + "\n"
    case CaptureError => "Error capturing the packets: " + m.err + "\n"
    case End(n) =>
      "End of bridging on interface " + Decimal(State(m.from)) + ". Forwarded packets:" + Decimal(n) + "\n"
  }

  function RenderAll(ms: seq<Message>): string {
    if ms == [] then "" else RenderAll(ms[..|ms| - 1]) + Render(ms[|ms| - 1])
  }

  // -------- One forwarder --------

  /** The program point of `CaptureAndForwardThread`; inside the console section, the text still to print. */
  datatype Pc =
    | Check
    | Receive
    | WantLog(p: Packet)
    | Logging(p: Packet, todo: string)
    | Sending(p: Packet)
    | WantError(p: Packet)
    | Complaining(p: Packet, todo: string)
    | WantClose
    | Closing(todo: string)
    | Done

  /** `pcap_next_ex`: 0, a positive number and a packet, or a negative number. */
  datatype Received = Timeout | Got(res: int, p: Packet) | Failed(res: int) {
    predicate Valid() { (Got? ==> res > 0) && (Failed? ==> res < 0) }
    function Code(): int { if Timeout? then 0 else res }
  }

  /** One finished attempt to send a packet. */
  datatype Attempt = Attempt(p: Packet, accepted: bool)

  /**
   A thread's locals, with its history: packets read, send attempts finished, and the messages it
   has begun to print.
   */
  datatype Local = Local(pc: Pc, res: int, nFwd: nat, read: seq<Packet>, tried: seq<Attempt>, said: seq<Message>)

  const START := Local(Check, 0, 0, [], [], [])

  datatype Event =
    | SeeFlag(kill: bool)
    | Next(got: Received)
    | Enter(err: string)
    | Print(n: nat)
    | Leave
    | Transmit(accepted: bool)

  predicate InSection(pc: Pc) { pc.Logging? || pc.Complaining? || pc.Closing? }

  predicate Wanting(pc: Pc) { pc.WantLog? || pc.WantError? || pc.WantClose? }

  /** What the forwarder will say when it enters the console section. */
  function Utterance(f: Forwarder, l: Local, err: string): Message
    requires Wanting(l.pc)
  {
    match l.pc
    case WantLog(p) => Message(f, Len(|p.data|), "")
    case WantError(p) => Message(f, SendError(|p.data|), err)
    case WantClose => if l.res < 0 then Message(f, CaptureError, err) else Message(f, End(l.nFwd), "")
  }

  function Spoken(pc: Pc, todo: string): Pc
    requires Wanting(pc)
  {
    match pc
    case WantLog(p) => Logging(p, todo)
    case WantError(p) => Complaining(p, todo)
    case WantClose => Closing(todo)
  }

  /** The packet being handled leaves the console section: on to sending it, or back to the loop, or out. */
  function AfterSection(pc: Pc): Pc {
    match pc
    case Logging(p, _) => Sending(p)
    case Complaining(_, _) => Check
    case _ => Done
  }

  function NextStep(l: Local, got: Received): Local {
    var l' := l.(res := got.Code());
    match got
    case Timeout => l'.(pc := Check)
    case Failed(_) => l'.(pc := WantClose)
    case Got(_, p) => l'.(pc := WantLog(p), read := l.read + [p])
  }

  function TransmitStep(l: Local, p: Packet, accepted: bool): Local {
    var tried := l.tried + [Attempt(p, accepted)];
    if accepted then l.(pc := Check, tried := tried, nFwd := (l.nFwd + 1) % UINT_RANGE)
    else l.(pc := WantError(p), tried := tried)
  }

  /** The events possible at a program point. */
  predicate Fits(l: Local, e: Event) {
    match e
    case SeeFlag(_) => l.pc.Check?
    case Next(got) => l.pc.Receive? && got.Valid()
    case Enter(_) => Wanting(l.pc)
    case Print(n) => InSection(l.pc) && 0 < n <= |l.pc.todo|
    case Leave => InSection(l.pc) && l.pc.todo == ""
    case Transmit(_) => l.pc.Sending?
  }

  /** What a possible event does to the forwarder. */
  function LocalStep(f: Forwarder, l: Local, e: Event): Local
    requires Fits(l, e)
  {
    match e
    case SeeFlag(kill) => l.(pc := if kill then WantClose else Receive)
    case Next(got) => NextStep(l, got)
    case Enter(err) =>
      var m := Utterance(f, l, err);
      l.(pc := Spoken(l.pc, Render(m)), said := l.said + [m])
    case Print(n) => l.(pc := l.pc.(todo := l.pc.todo[n..]))
    case Leave => l.(pc := AfterSection(l.pc))
    case Transmit(accepted) => TransmitStep(l, l.pc.p, accepted)
  }

  function LocalRun(f: Forwarder, l: Local, es: seq<Event>): Option<Local>
    decreases |es|
  {
    if es == [] then Some(l)
    else if Fits(l, es[0]) then LocalRun(f, LocalStep(f, l, es[0]), es[1..])
    else None
  }

  // -------- The whole bridge --------

  datatype Handler = Idle | Waiting | Exited

  /** Shared variables, both threads, and per adapter the packets captured from and sent on it. */
  datatype System = System(
    kill: bool, owner: Option<Forwarder>, handler: Handler,
    thread0: Local, thread1: Local,
    console: string, begun: seq<Message>,
    captured1: seq<Packet>, captured2: seq<Packet>, sent1: seq<Packet>, sent2: seq<Packet>)
  {
    function Thread(f: Forwarder): Local { if f == Couple0 then thread0 else thread1 }
    function WithThread(f: Forwarder, l: Local): System {
      if f == Couple0 then this.(thread0 := l) else this.(thread1 := l)
    }
    function Captured(a: Adapter): seq<Packet> { if a == Adapter1 then captured1 else captured2 }
    function Capture(a: Adapter, p: Packet): System {
      if a == Adapter1 then this.(captured1 := captured1 + [p]) else this.(captured2 := captured2 + [p])
    }
    function Sent(a: Adapter): seq<Packet> { if a == Adapter1 then sent1 else sent2 }
    function Send(a: Adapter, p: Packet): System {
      if a == Adapter1 then this.(sent1 := sent1 + [p]) else this.(sent2 := sent2 + [p])
    }
  }

  const INIT := System(false, None, Idle, START, START, "", [], [], [], [], [])

  datatype Action = Forward(f: Forwarder, e: Event) | CtrlC | Exit

  /** What the threads share must allow the event: the flag's value, and the lock being free. */
  predicate Allowed(s: System, e: Event) {
    match e
    case SeeFlag(kill) => kill == s.kill
    case Enter(_) => s.owner == None
    case _ => true
  }

  /** The effect of a thread's event on what the threads share. */
  function SharedStep(s: System, f: Forwarder, l: Local, e: Event): System
    requires Fits(l, e)
  {
    match e
    case SeeFlag(_) => s
    case Next(got) => if got.Got? then s.Capture(Input(f), got.p) else s
    case Enter(err) => s.(owner := Some(f), begun := s.begun + [Utterance(f, l, err)])
    case Print(n) => s.(console := s.console + l.pc.todo[..n])
    case Leave => s.(owner := None)
    case Transmit(accepted) => if accepted then s.Send(Output(f), l.pc.p) else s
  }

  predicate Possible(s: System, a: Action) {
    && s.handler != Exited
    && match a
       case CtrlC => s.handler == Idle
       case Exit => s.handler == Waiting && s.thread0.pc == Done && s.thread1.pc == Done
       case Forward(f, e) => Fits(s.Thread(f), e) && Allowed(s, e)
  }

  function Step(s: System, a: Action): System
    requires Possible(s, a)
  {
    match a
    case CtrlC => s.(kill := true, handler := Waiting)
    case Exit => s.(handler := Exited)
    case Forward(f, e) => SharedStep(s, f, s.Thread(f), e).WithThread(f, LocalStep(f, s.Thread(f), e))
  }

  /** Any interleaving is a sequence of actions. */
  function Run(s: System, acts: seq<Action>): Option<System>
    decreases |acts|
  {
    if acts == [] then Some(s)
    else if Possible(s, acts[0]) then Run(Step(s, acts[0]), acts[1..])
    else None
  }
}
