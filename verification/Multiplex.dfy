/**
 * Many `execute` calls over a pool of backend connections, as a transition system: one label is one atomic step of a
 * call, a background task, the backend or the network, and a run is any sequence of labels that are enabled in turn.
 */
module Multiplex {
  import opened Bytes
  import opened Framing
  import opened Channel
  import opened Demux
  import opened RoundRobin

  // ---- State ----

  datatype Mode = StandaloneMode | RouterMode

  /** What the receiver of an attempt has seen: nothing yet, an answer, a cleanup's empty bytes, or a dropped sender. */
  datatype Outcome = Open | Completed(body: Bytes) | Expired | Discarded

  datatype Stage = Issued | Stored | Queued

  /** One turn of the loop in `execute` that got a connection; `serial` counts the ids of that connection from 1. */
  datatype Attempt = Attempt(call: nat, conn: nat, serial: nat, stage: Stage, outcome: Outcome)

  datatype Result = Replied(attempt: nat, body: Bytes) | Invalid | Unreachable | TimedOut(attempt: nat)

  datatype Phase = Choosing | Picked(conn: nat) | Awaiting(attempt: nat) | Done(result: Result)

  /** `failures` is the variable `attempts` of `execute`. */
  datatype Call = Call(segment: Bytes, isWrite: bool, payload: Bytes, failures: nat, phase: Phase)

  /**
   * `demux` maps an id to its attempt and the time it was stored; `owner[n]` is the attempt that took id number
   * `n + 1`; `log` lists the answers the backend has given on this connection, for the properties only.
   */
  datatype Conn = Conn(
    channel: Channel, closed: bool, reading: bool, demux: map<u32, (nat, int)>, owner: seq<nat>, log: seq<Reply>)

  datatype System = System(
    mode: Mode, level: Level, slots: seq<Option<nat>>, next: nat, conns: seq<Conn>, calls: seq<Call>,
    attempts: seq<Attempt>)

  function Start(mode: Mode, level: Level, poolSize: nat): System {
    System(mode, level, seq(poolSize, _ => None), 0, [], [], [])
  }

  /** `corr_id` starts at 1 and wraps around. */
  function Id(serial: nat): u32 {
    serial % U32_SIZE
  }

  function FrameOf(mode: Mode, call: Call, id: u32): Frame {
    match mode
    case StandaloneMode => Shard(id, call.payload)
    case RouterMode => Router(call.segment, call.isWrite, id, call.payload)
  }

  function RequestOf(s: System, j: nat): Frame
    requires j < |s.attempts| && s.attempts[j].call < |s.calls|
  {
    FrameOf(s.mode, s.calls[s.attempts[j].call], Id(s.attempts[j].serial))
  }

  // ---- Steps ----

  datatype Label =
    | Begin(segment: Bytes, isWrite: bool, payload: Bytes)
    | Choose(call: nat)
    | TakeId(call: nat)
    | Store(attempt: nat, now: int)
    | Send(attempt: nat)
    | Return(call: nat)
    | Transport(conn: nat, move: Move)
    | Deliver(conn: nat)
    | StopReading(conn: nat)
    | Close(conn: nat)
    | KeepAlive(conn: nat)
    | Reconnect(slot: nat)
    | Cleanup(conn: nat, threshold: int)

  function Next(s: System, l: Label): Option<System> {
    match l
    case Begin(segment, isWrite, payload) => Some(BeginStep(s, segment, isWrite, payload))
    case Choose(c) => ChooseStep(s, c)
    case TakeId(c) => TakeIdStep(s, c)
    case Store(j, now) => StoreStep(s, j, now)
    case Send(j) => SendStep(s, j)
    case Return(c) => ReturnStep(s, c)
    case Transport(k, move) => TransportStep(s, k, move)
    case Deliver(k) => DeliverStep(s, k)
    case StopReading(k) =>
      if k < |s.conns| then Some(s.(conns := s.conns[k := s.conns[k].(reading := false)])) else None
    case Close(k) =>
      if k < |s.conns| then Some(s.(conns := s.conns[k := s.conns[k].(closed := true)])) else None
    case KeepAlive(k) =>
      if k < |s.conns| then
        Some(s.(conns := s.conns[k := s.conns[k].(channel := Enqueue(s.conns[k].channel, KEEPALIVE))]))
      else None
    case Reconnect(i) => ReconnectStep(s, i)
    case Cleanup(k, threshold) => CleanupStep(s, k, threshold)
  }

  /** A call arrives; an empty payload is refused. */
  function BeginStep(s: System, segment: Bytes, isWrite: bool, payload: Bytes): System {
    s.(calls := s.calls + [Call(segment, isWrite, payload, 0, if payload == [] then Done(Invalid) else Choosing)])
  }

  /** A failed turn: the third one ends the call with `last`. */
  function Failed(call: Call, last: Result): Call {
    call.(failures := call.failures + 1, phase := if call.failures + 1 >= 3 then Done(last) else Choosing)
  }

  /** A closed flag never falls, so a scan that sees flags change is a scan at the moment it returns. */
  predicate LiveSlot(s: System, i: nat) {
    i < |s.slots| && s.slots[i].Some? && s.slots[i].value < |s.conns| && !s.conns[s.slots[i].value].closed
  }

  function Live(s: System): (live: seq<bool>)
    ensures |live| == |s.slots| && forall i :: 0 <= i < |live| ==> live[i] == LiveSlot(s, i)
  {
    seq(|s.slots|, i requires 0 <= i < |s.slots| => LiveSlot(s, i))
  }

  function ChooseStep(s: System, c: nat): Option<System> {
    if c >= |s.calls| || !s.calls[c].phase.Choosing? || (s.next >= |s.slots| && s.slots != []) then None
    else
      var (found, next) := Pick(Live(s), s.next);
      var call := match found
        case None => Failed(s.calls[c], Unreachable)
        case Some(i) => s.calls[c].(phase := Picked(s.slots[i].value));
      Some(s.(next := next, calls := s.calls[c := call]))
  }

  /** The second look at the closed flag, then the next id. */
  function TakeIdStep(s: System, c: nat): Option<System> {
    if c >= |s.calls| || !s.calls[c].phase.Picked? || s.calls[c].phase.conn >= |s.conns| then None
    else
      var k := s.calls[c].phase.conn;
      if s.conns[k].closed then Some(s.(calls := s.calls[c := Failed(s.calls[c], Unreachable)]))
      else
        var j, serial := |s.attempts|, |s.conns[k].owner| + 1;
        Some(s.(calls := s.calls[c := s.calls[c].(phase := Awaiting(j))],
                conns := s.conns[k := s.conns[k].(owner := s.conns[k].owner + [j])],
                attempts := s.attempts + [Attempt(c, k, serial, Issued, Open)]))
  }

  function Settle(attempts: seq<Attempt>, j: nat, outcome: Outcome): (r: seq<Attempt>)
    ensures |r| == |attempts|
  {
    if j < |attempts| then attempts[j := attempts[j].(outcome := outcome)] else attempts
  }

  /** An entry that is still there under the same id loses its sender. */
  function StoreStep(s: System, j: nat, now: int): Option<System> {
    if j >= |s.attempts| || !s.attempts[j].stage.Issued? || s.attempts[j].conn >= |s.conns| then None
    else
      var k, id := s.attempts[j].conn, Id(s.attempts[j].serial);
      var demux := s.conns[k].demux;
      var attempts := if id in demux then Settle(s.attempts, demux[id].0, Discarded) else s.attempts;
      Some(s.(attempts := attempts[j := attempts[j].(stage := Stored)],
              conns := s.conns[k := s.conns[k].(demux := demux[id := (j, now)])]))
  }

  function SendStep(s: System, j: nat): Option<System> {
    if j >= |s.attempts| || !s.attempts[j].stage.Stored? || s.attempts[j].conn >= |s.conns|
       || s.attempts[j].call >= |s.calls| then None
    else
      var k := s.attempts[j].conn;
      Some(s.(attempts := s.attempts[j := s.attempts[j].(stage := Queued)],
              conns := s.conns[k := s.conns[k].(channel := Enqueue(s.conns[k].channel, RequestOf(s, j)))]))
  }

  /** The receiver resolves. A call that was cancelled is one that takes no more steps. */
  function ReturnStep(s: System, c: nat): Option<System> {
    if c >= |s.calls| || !s.calls[c].phase.Awaiting? || s.calls[c].phase.attempt >= |s.attempts| then None
    else
      var j := s.calls[c].phase.attempt;
      if !s.attempts[j].stage.Queued? then None
      else match s.attempts[j].outcome
        case Open => None
        case Completed(body) => Some(s.(calls := s.calls[c := s.calls[c].(phase := Done(Replied(j, body)))]))
        case Expired => Some(s.(calls := s.calls[c := s.calls[c].(phase := Done(Replied(j, [])))]))
        case Discarded => Some(s.(calls := s.calls[c := Failed(s.calls[c], TimedOut(j))]))
  }

  function TransportStep(s: System, k: nat, move: Move): Option<System> {
    if k >= |s.conns| then None
    else match Step(s.conns[k].channel, move)
      case None => None
      case Some(channel) =>
        var conn := s.conns[k].(channel := channel);
        Some(s.(conns := s.conns[k := if move.Answer? then conn.(log := conn.log + [move.reply]) else conn]))
  }

  /** One turn of the read loop: drain a frame, take its entry out, complete it. An unknown id ends the loop. */
  function DeliverStep(s: System, k: nat): Option<System> {
    if k >= |s.conns| || !s.conns[k].reading then None
    else
      var conn := s.conns[k];
      match Take(conn.channel)
      case None => None
      case Some((Garbled, channel)) =>
        Some(s.(conns := s.conns[k := conn.(channel := channel, reading := false)]))
      case Some((Answered(id, body), channel)) =>
        if id in conn.demux then
          Some(s.(conns := s.conns[k := conn.(channel := channel, demux := conn.demux - {id})],
                  attempts := Settle(s.attempts, conn.demux[id].0, Completed(body))))
        else Some(s.(conns := s.conns[k := conn.(channel := channel, reading := false)]))
  }

  /** A slot without a connection, or with a closed one, gets a new connection with a demux map of its own. */
  function ReconnectStep(s: System, i: nat): Option<System> {
    if i >= |s.slots| || LiveSlot(s, i) then None
    else Some(s.(slots := s.slots[i := Some(|s.conns|)],
                 conns := s.conns + [Conn(Opened(s.level), false, true, map[], [], [])]))
  }

  /** The attempts whose entries a cleanup of connection `k` takes out. */
  predicate Overdue(s: System, k: nat, threshold: int, j: nat) {
    && j < |s.attempts| && k < |s.conns| && s.attempts[j].conn == k
    && var id := Id(s.attempts[j].serial);
       id in Stale(s.conns[k].demux, threshold) && s.conns[k].demux[id].0 == j
  }

  function CleanupStep(s: System, k: nat, threshold: int): Option<System> {
    if k >= |s.conns| then None
    else Some(s.(conns := s.conns[k := s.conns[k].(demux := Remaining(s.conns[k].demux, threshold))],
                 attempts := seq(|s.attempts|, j requires 0 <= j < |s.attempts| =>
                   if Overdue(s, k, threshold, j) then s.attempts[j].(outcome := Expired) else s.attempts[j])))
  }

  // ---- Runs ----

  function Run(s: System, ls: seq<Label>): Option<System>
    decreases |ls|
  {
    if ls == [] then Some(s)
    else match Next(s, ls[0])
      case None => None
      case Some(t) => Run(t, ls[1..])
  }

  /** `s` is where some run from the start ends. */
  ghost predicate Reachable(s: System) {
    exists poolSize: nat, ls: seq<Label> :: Run(Start(s.mode, s.level, poolSize), ls) == Some(s)
  }

  lemma {:induction false} RunConcat(s: System, a: seq<Label>, b: seq<Label>)
    requires Run(s, a).Some?
    ensures Run(s, a + b) == Run(Run(s, a).value, b)
    decreases |a|
  {
    hide Next;
    if a == [] {
      assert a + b == b;
    } else {
      assert (a + b)[1..] == a[1..] + b;
      RunConcat(Next(s, a[0]).value, a[1..], b);
    }
  }

  lemma RunOne(s: System, l: Label)
    requires Next(s, l).Some?
    ensures Run(s, [l]) == Next(s, l)
  {
    hide Next;
    assert [l][1..] == [];
  }

  lemma RunTwo(s: System, l: Label, m: Label)
    requires Next(s, l).Some? && Next(Next(s, l).value, m).Some?
    ensures Run(s, [l] + [m]) == Next(Next(s, l).value, m)
  {
    hide Next;
    RunOne(s, l);
    RunOne(Next(s, l).value, m);
    RunConcat(s, [l], [m]);
  }

  // ---- What every step keeps of the past ----

  /** Calls keep their request, attempts their identity; stages only advance and outcomes are final. */
  predicate CallKept(c: Call, d: Call) {
    && d.segment == c.segment && d.isWrite == c.isWrite && d.payload == c.payload && d.failures >= c.failures
    && (c.phase.Done? ==> d == c)
  }

  predicate AttemptKept(a: Attempt, b: Attempt) {
    && b.call == a.call && b.conn == a.conn && b.serial == a.serial
    && (a.stage.Stored? ==> !b.stage.Issued?) && (a.stage.Queued? ==> b.stage.Queued?)
    && (!a.outcome.Open? ==> b.outcome == a.outcome)
  }

  predicate ConnKept(c: Conn, d: Conn) {
    c.owner <= d.owner && c.log <= d.log && (c.closed ==> d.closed) && (!c.reading ==> !d.reading)
  }

  predicate Kept(s: System, t: System) {
    && t.mode == s.mode && t.level == s.level && |t.slots| == |s.slots|
    && |s.conns| <= |t.conns| && |s.calls| <= |t.calls| && |s.attempts| <= |t.attempts|
    && (forall k :: 0 <= k < |s.conns| ==> ConnKept(s.conns[k], t.conns[k]))
    && (forall c :: 0 <= c < |s.calls| ==> CallKept(s.calls[c], t.calls[c]))
    && (forall j :: 0 <= j < |s.attempts| ==> AttemptKept(s.attempts[j], t.attempts[j]))
  }

  lemma KeptTrans(s: System, t: System, u: System)
    requires Kept(s, t) && Kept(t, u)
    ensures Kept(s, u)
  {
  }
}
