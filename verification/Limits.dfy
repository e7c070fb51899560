/** Concrete runs that show where the guarantees end: the bound on issued ids, and each condition on polite runs. */
module Limits {
  import opened Bytes
  import opened Framing
  import opened Channel
  import opened Demux
  import opened RoundRobin
  import opened Multiplex
  import opened Outcomes
  import opened Polite

  const PAYLOAD: Bytes := [1]
  const ANSWER: Bytes := [0, 0, 0]

  /** A pool of one connection on which `m` calls have taken their ids and stand still. */
  function Busy(m: nat): System {
    System(StandaloneMode, MessageLevel, [Some(0)], 0,
           [Conn(Messages([], [], multiset{}, [], true), false, true, map[], seq(m, i requires 0 <= i < m => i), [])],
           seq(m, i requires 0 <= i < m => Call([], false, PAYLOAD, 0, Awaiting(i))),
           seq(m, i requires 0 <= i < m => Attempt(i, 0, i + 1, Issued, Open)))
  }

  function Arrivals(m: nat): seq<Label> {
    if m == 0 then [Reconnect(0)]
    else Arrivals(m - 1) + [Begin([], false, PAYLOAD), Choose(m - 1), TakeId(m - 1)]
  }

  lemma RunSnoc(s: System, a: seq<Label>, t: System, l: Label)
    requires Run(s, a) == Some(t) && Next(t, l).Some?
    ensures Run(s, a + [l]) == Next(t, l)
  {
    hide Next;
    RunConcat(s, a, [l]);
    assert [l][1..] == [];
  }

  lemma OneMore(m: nat)
    ensures var s := Next(Busy(m), Begin([], false, PAYLOAD)).value;
            && Next(s, Choose(m)).Some? && Next(Next(s, Choose(m)).value, TakeId(m)) == Some(Busy(m + 1))
  {
    var s := BeginStep(Busy(m), [], false, PAYLOAD);
    assert Live(s) == [true];
    assert Pick([true], 0) == (Some(0), 0);
    var t := ChooseStep(s, m).value;
    assert t == s.(calls := s.calls[m := Call([], false, PAYLOAD, 0, Picked(0))]);
    var u := TakeIdStep(t, m).value;
    assert u.calls == Busy(m + 1).calls;
    assert u.conns[0].owner == Busy(m + 1).conns[0].owner;
    assert u.conns == Busy(m + 1).conns;
    assert u.attempts == Busy(m + 1).attempts;
  }

  lemma {:induction false} BusyReached(m: nat)
    ensures Run(Start(StandaloneMode, MessageLevel, 1), Arrivals(m)) == Some(Busy(m))
  {
    var start := Start(StandaloneMode, MessageLevel, 1);
    if m == 0 {
      assert start.slots == [None];
      assert !LiveSlot(start, 0);
      var t := Next(start, Reconnect(0)).value;
      assert Busy(0).conns[0].owner == [] && Busy(0).calls == [] && Busy(0).attempts == [];
      assert t == Busy(0);
      assert Run(start, [Reconnect(0)]) == Run(t, [Reconnect(0)][1..]);
    } else {
      hide Next, Busy;
      BusyReached(m - 1);
      OneMore(m - 1);
      var s := Next(Busy(m - 1), Begin([], false, PAYLOAD)).value;
      BeginEnabled(Busy(m - 1));
      var t := Next(s, Choose(m - 1)).value;
      RunSnoc(start, Arrivals(m - 1), Busy(m - 1), Begin([], false, PAYLOAD));
      RunSnoc(start, Arrivals(m - 1) + [Begin([], false, PAYLOAD)], s, Choose(m - 1));
      RunSnoc(start, Arrivals(m - 1) + [Begin([], false, PAYLOAD)] + [Choose(m - 1)], t, TakeId(m - 1));
      assert Arrivals(m) == Arrivals(m - 1) + [Begin([], false, PAYLOAD)] + [Choose(m - 1)] + [TakeId(m - 1)];
    }
  }

  lemma BeginEnabled(s: System)
    ensures Next(s, Begin([], false, PAYLOAD)).Some?
  {
  }

  // ---- One request up to the backend ----

  function Holding(queue: seq<Frame>, wire: seq<Frame>, backlog: multiset<Frame>, inbound: seq<Reply>): Channel {
    Messages(queue, wire, backlog, inbound, true)
  }

  lemma HoldingSteps(f: Frame, b: multiset<Frame>)
    ensures Enqueue(Holding([], [], b, []), f) == Holding([f], [], b, [])
    ensures Step(Holding([f], [], b, []), Write) == Some(Holding([], [f], b, []))
    ensures Step(Holding([], [f], b, []), Receive) == Some(Holding([], [], b + multiset{f}, []))
  {
    assert [] + [f] == [f] && [f][1..] == [];
  }

  lemma HoldingAnswers(b: multiset<Frame>, r: Reply)
    requires r.req in b && |r.body| < U32_SIZE
    ensures Step(Holding([], [], b, []), Answer(r, false)) == Some(Holding([], [], b - multiset{r.req}, [r]))
  {
    assert [] + [r] == [r];
  }

  /** A connection at rest, and an attempt on it that has only its id. */
  predicate Calm(s: System, j: nat) {
    && s.mode.StandaloneMode? && |s.conns| == 1 && s.conns[0].reading
    && s.conns[0].channel == Holding([], [], multiset{}, []) && s.conns[0].demux == map[] && s.conns[0].log == []
    && j < |s.attempts| && s.attempts[j].conn == 0 && s.attempts[j].stage.Issued? && s.attempts[j].outcome.Open?
    && s.attempts[j].call < |s.calls| && s.calls[s.attempts[j].call].payload == PAYLOAD
  }

  function IdOf(s: System, j: nat): u32
    requires Calm(s, j)
  {
    Id(s.attempts[j].serial)
  }

  /** The same after the attempt has stored its sender and its frame has reached the backend. */
  function Asked(s: System, j: nat): System
    requires Calm(s, j)
  {
    s.(attempts := s.attempts[j := s.attempts[j].(stage := Queued)],
       conns := [s.conns[0].(channel := Holding([], [], multiset{Shard(IdOf(s, j), PAYLOAD)}, []),
                             demux := map[IdOf(s, j) := (j, 0)])])
  }

  function Asking(j: nat): seq<Label> {
    [Store(j, 0)] + [Send(j)] + [Transport(0, Write)] + [Transport(0, Receive)]
  }

  lemma AskedReached(s: System, j: nat)
    requires Calm(s, j)
    ensures Run(s, Asking(j)) == Some(Asked(s, j))
  {
    hide Stale, Step, Enqueue;
    var id, f := IdOf(s, j), Shard(IdOf(s, j), PAYLOAD);
    HoldingSteps(f, multiset{});
    var s1 := s.(attempts := s.attempts[j := s.attempts[j].(stage := Stored)],
                 conns := [s.conns[0].(demux := map[id := (j, 0)])]);
    var s2 := Asked(s, j).(conns := [Asked(s, j).conns[0].(channel := Holding([f], [], multiset{}, []))]);
    var s3 := s2.(conns := [s2.conns[0].(channel := Holding([], [f], multiset{}, []))]);
    assert Next(s, Store(j, 0)).value.conns == s1.conns;
    assert Next(s1, Send(j)).value.conns == s2.conns && Next(s1, Send(j)).value.attempts == s2.attempts;
    assert Next(s2, Transport(0, Write)).value.conns == s3.conns;
    assert multiset{} + multiset{f} == multiset{f};
    assert Next(s3, Transport(0, Receive)).value.conns == Asked(s, j).conns;
    hide Next;
    RunOne(s, Store(j, 0));
    RunSnoc(s, [Store(j, 0)], s1, Send(j));
    RunSnoc(s, [Store(j, 0)] + [Send(j)], s2, Transport(0, Write));
    RunSnoc(s, [Store(j, 0)] + [Send(j)] + [Transport(0, Write)], s3, Transport(0, Receive));
  }

  // ---- The bound on ids ----

  const KEEPALIVE_ANSWERED: seq<Label> :=
    [KeepAlive(0)] + [Transport(0, Write)] + [Transport(0, Receive)]
    + [Transport(0, Answer(Reply(KEEPALIVE, ANSWER), false))]

  /** A keepalive goes out after the request and is answered first. */
  function Pinged(s: System, j: nat): System
    requires Calm(s, j)
  {
    var t := Asked(s, j);
    var f, r := Shard(IdOf(s, j), PAYLOAD), Reply(KEEPALIVE, ANSWER);
    t.(conns := [t.conns[0].(channel := Holding([], [], multiset{f}, [r]), log := [r])])
  }

  lemma PingedReached(s: System, j: nat)
    requires Calm(s, j)
    ensures Run(Asked(s, j), KEEPALIVE_ANSWERED) == Some(Pinged(s, j))
  {
    var t, f := Asked(s, j), Shard(IdOf(s, j), PAYLOAD);
    hide Step, Enqueue;
    HoldingSteps(KEEPALIVE, multiset{f});
    HoldingAnswers(multiset{f, KEEPALIVE}, Reply(KEEPALIVE, ANSWER));
    assert [] + [Reply(KEEPALIVE, ANSWER)] == [Reply(KEEPALIVE, ANSWER)];
    var t1 := t.(conns := [t.conns[0].(channel := Holding([KEEPALIVE], [], multiset{f}, []))]);
    var t2 := t.(conns := [t.conns[0].(channel := Holding([], [KEEPALIVE], multiset{f}, []))]);
    var t3 := t.(conns := [t.conns[0].(channel := Holding([], [], multiset{f, KEEPALIVE}, []))]);
    assert Next(t, KeepAlive(0)).value.conns == t1.conns;
    assert Next(t1, Transport(0, Write)).value.conns == t2.conns;
    assert multiset{f} + multiset{KEEPALIVE} == multiset{f, KEEPALIVE};
    assert Next(t2, Transport(0, Receive)).value.conns == t3.conns;
    assert multiset{f, KEEPALIVE} - multiset{KEEPALIVE} == multiset{f};
    assert Next(t3, Transport(0, Answer(Reply(KEEPALIVE, ANSWER), false))).value.conns == Pinged(s, j).conns;
    hide Next;
    RunOne(t, KeepAlive(0));
    RunSnoc(t, [KeepAlive(0)], t1, Transport(0, Write));
    RunSnoc(t, [KeepAlive(0)] + [Transport(0, Write)], t2, Transport(0, Receive));
    RunSnoc(t, [KeepAlive(0)] + [Transport(0, Write)] + [Transport(0, Receive)], t3,
            Transport(0, Answer(Reply(KEEPALIVE, ANSWER), false)));
  }

  lemma BusyCalm(m: nat)
    requires m > 0
    ensures Calm(Busy(m), m - 1) && IdOf(Busy(m), m - 1) == Id(m)
  {
  }

  /**
   * One id more than correct delivery allows is one too many: with 2^32 ids issued the last one is 0, and its call is
   * given the answer to a keepalive.
   */
  lemma BoundIsTight() returns (s: System, j: nat)
    ensures Reachable(s) && |s.conns| == 1 && |s.conns[0].owner| == U32_SIZE
    ensures j < |s.attempts| && s.attempts[j].call < |s.calls| && s.attempts[j].conn == 0
    ensures s.attempts[j].outcome == Completed(ANSWER) && Reply(RequestOf(s, j), ANSWER) !in s.conns[0].log
  {
    var m := U32_SIZE;
    j := m - 1;
    BusyReached(m);
    BusyCalm(m);
    OwnersOfBusy(m);
    s := Misdelivered(Busy(m), j, Start(StandaloneMode, MessageLevel, 1), Arrivals(m));
  }

  lemma OwnersOfBusy(m: nat)
    ensures Busy(m).level.MessageLevel? && |Busy(m).conns[0].owner| == m
  {
  }

  lemma Misdelivered(s: System, j: nat, start: System, ls: seq<Label>) returns (t: System)
    requires Calm(s, j) && IdOf(s, j) == 0 && Run(start, ls) == Some(s)
    requires start == Start(StandaloneMode, MessageLevel, 1) && s.level.MessageLevel?
    ensures Reachable(t) && |t.conns| == 1 && t.conns[0].owner == s.conns[0].owner
    ensures j < |t.attempts| && t.attempts[j].call < |t.calls| && t.attempts[j].conn == 0
    ensures t.attempts[j].outcome == Completed(ANSWER) && Reply(RequestOf(t, j), ANSWER) !in t.conns[0].log
  {
    hide Run;
    t := TakesPing(s, j);
    AskedReached(s, j);
    PingedReached(s, j);
    hide Next, Asked, Pinged, Calm;
    RunConcat(start, ls, Asking(j));
    RunConcat(start, ls + Asking(j), KEEPALIVE_ANSWERED);
    RunSnoc(start, ls + Asking(j) + KEEPALIVE_ANSWERED, Pinged(s, j), Deliver(0));
    assert Run(Start(t.mode, t.level, 1), ls + Asking(j) + KEEPALIVE_ANSWERED + [Deliver(0)]) == Some(t);
  }

  /** The call whose id is 0 is given the keepalive's answer. */
  lemma TakesPing(s: System, j: nat) returns (t: System)
    requires Calm(s, j) && IdOf(s, j) == 0
    ensures Next(Pinged(s, j), Deliver(0)) == Some(t)
    ensures t.mode == s.mode && t.level == s.level && |t.conns| == 1 && t.conns[0].owner == s.conns[0].owner
    ensures j < |t.attempts| && t.attempts[j].call < |t.calls| && t.attempts[j].conn == 0
    ensures t.attempts[j].outcome == Completed(ANSWER) && Reply(RequestOf(t, j), ANSWER) !in t.conns[0].log
  {
    t := DeliverStep(Pinged(s, j), 0).value;
  }

  // ---- The conditions on polite runs ----

  /** What the read loop drains next has an id that is not in the demux map. */
  predicate ReaderMeetsUnknownId(s: System) {
    && |s.conns| == 1 && Take(s.conns[0].channel).Some? && Take(s.conns[0].channel).value.0.Answered?
    && Take(s.conns[0].channel).value.0.id !in s.conns[0].demux
  }

  /** All labels are polite, except for the one that `ls` is about. */
  predicate PoliteBut(ls: seq<Label>, l: Label) {
    l in ls && !PoliteStep(l) && forall m :: m in ls ==> m == l || PoliteStep(m)
  }

  lemma {:induction false} ArrivalsPolite(m: nat)
    ensures PoliteRun(Arrivals(m))
  {
    if m > 0 {
      ArrivalsPolite(m - 1);
    }
  }

  lemma AskingPolite(j: nat)
    ensures PoliteRun(Asking(j))
  {
  }

  const ASKED_ONCE: seq<Label> := Arrivals(1) + Asking(0)

  /** One call has taken id 1 and its frame has reached the backend, by polite labels from the start. */
  lemma AskedOnce() returns (s: System)
    ensures s == Busy(1) && Calm(s, 0) && IdOf(s, 0) == 1 && |s.conns[0].owner| == 1 && s.level.MessageLevel?
    ensures Run(Start(StandaloneMode, MessageLevel, 1), ASKED_ONCE) == Some(Asked(s, 0)) && PoliteRun(ASKED_ONCE)
  {
    s := Busy(1);
    BusyCalm(1);
    OwnersOfBusy(1);
    hide Busy, Next, Asked, Calm;
    ArrivalsPolite(1);
    AskingPolite(0);
    BusyReached(1);
    AskedReached(s, 0);
    RunConcat(Start(StandaloneMode, MessageLevel, 1), Arrivals(1), Asking(0));
  }

  /** A run that goes on from there by `tail`, in which one label is not polite. */
  lemma GoesOn(s: System, tail: seq<Label>, t: System, l: Label) returns (ls: seq<Label>)
    requires Run(Start(StandaloneMode, MessageLevel, 1), ASKED_ONCE) == Some(s) && PoliteRun(ASKED_ONCE)
    requires Run(s, tail) == Some(t) && PoliteBut(tail, l)
    requires t.mode.StandaloneMode? && t.level.MessageLevel? && |t.conns| == 1 && |t.conns[0].owner| == 1
    ensures Run(Start(StandaloneMode, MessageLevel, 1), ls) == Some(t) && PoliteBut(ls, l)
    ensures Reachable(t) && NoWrap(t)
  {
    hide Next, PoliteStep;
    ls := ASKED_ONCE + tail;
    RunConcat(Start(StandaloneMode, MessageLevel, 1), ASKED_ONCE, tail);
    assert Run(Start(t.mode, t.level, 1), ls) == Some(t);
  }

  /** One cleanup is enough: the answer that comes after it has taken the entry out meets an unknown id. */
  lemma CleanupMakesIdsUnknown() returns (ls: seq<Label>, t: System)
    ensures Run(Start(StandaloneMode, MessageLevel, 1), ls) == Some(t) && Reachable(t) && NoWrap(t)
    ensures PoliteBut(ls, Cleanup(0, 1)) && ReaderMeetsUnknownId(t)
  {
    var s := AskedOnce();
    var r := Reply(Shard(1, PAYLOAD), ANSWER);
    t := AnswerAfterCleanup(s);
    hide Run, Next, Asked;
    ls := GoesOn(Asked(s, 0), [Cleanup(0, 1)] + [Transport(0, Answer(r, false))], t, Cleanup(0, 1));
  }

  lemma AnswerAfterCleanup(s: System) returns (t: System)
    requires Calm(s, 0) && IdOf(s, 0) == 1 && |s.conns[0].owner| == 1
    ensures var r := Reply(Shard(1, PAYLOAD), ANSWER);
            Run(Asked(s, 0), [Cleanup(0, 1)] + [Transport(0, Answer(r, false))]) == Some(t)
    ensures t.mode == s.mode && t.level == s.level && ReaderMeetsUnknownId(t) && |t.conns[0].owner| == 1
  {
    var a, r := Asked(s, 0), Reply(Shard(1, PAYLOAD), ANSWER);
    var b := CleanupStep(a, 0, 1).value;
    t := AnswerUnknown(b, multiset{Shard(1, PAYLOAD)}, r);
    RunTwo(a, Cleanup(0, 1), Transport(0, Answer(r, false)));
  }

  lemma HoldingTakes(b: multiset<Frame>, r: Reply)
    requires r.body == ANSWER
    ensures Take(Holding([], [], b, [r])) == Some((Answered(r.req.id, ANSWER), Holding([], [], b, [])))
  {
    assert [r][1..] == [];
  }

  /** An answer under an id that nobody waits for. */
  lemma AnswerUnknown(s: System, b: multiset<Frame>, r: Reply) returns (t: System)
    requires |s.conns| == 1 && s.conns[0].channel == Holding([], [], b, []) && r.req in b && r.body == ANSWER
    requires r.req.id !in s.conns[0].demux
    ensures Next(s, Transport(0, Answer(r, false))) == Some(t) && ReaderMeetsUnknownId(t)
    ensures t == s.(conns := t.conns) && t.conns[0].owner == s.conns[0].owner
  {
    hide Step, Take;
    HoldingAnswers(b, r);
    HoldingTakes(b - multiset{r.req}, r);
    t := TransportStep(s, 0, Answer(r, false)).value;
  }

  lemma HoldingAnswersAgain(b: multiset<Frame>, r: Reply)
    requires r.req in b && |r.body| < U32_SIZE
    ensures Step(Holding([], [], b, []), Answer(r, true)) == Some(Holding([], [], b, [r]))
  {
    assert [] + [r] == [r];
  }

  /** An answer that reaches the attempt that waits for it, and leaves the map empty. */
  lemma AnswerKnown(s: System, b: multiset<Frame>, r: Reply, again: bool, j: nat) returns (t: System)
    requires |s.conns| == 1 && s.conns[0].channel == Holding([], [], b, []) && r.req in b && r.body == ANSWER
    requires s.conns[0].reading && s.conns[0].demux == map[r.req.id := (j, 0)]
    ensures Run(s, [Transport(0, Answer(r, again))] + [Deliver(0)]) == Some(t) && |t.conns| == 1
    ensures t.conns[0].channel == Holding([], [], if again then b else b - multiset{r.req}, [])
    ensures t.conns[0].demux == map[]
    ensures t == s.(conns := t.conns, attempts := t.attempts) && t.conns[0].owner == s.conns[0].owner
  {
    hide Step, Take;
    var left := if again then b else b - multiset{r.req};
    HoldingAnswers(b, r);
    HoldingAnswersAgain(b, r);
    HoldingTakes(left, r);
    var s1 := TransportStep(s, 0, Answer(r, again)).value;
    t := DeliverStep(s1, 0).value;
    assert t.conns[0].demux == map[];
    RunTwo(s, Transport(0, Answer(r, again)), Deliver(0));
  }

  /** One answered keepalive is enough. */
  lemma AnsweredKeepaliveIsUnknown() returns (ls: seq<Label>, t: System)
    ensures Run(Start(StandaloneMode, MessageLevel, 1), ls) == Some(t) && Reachable(t) && NoWrap(t)
    ensures PoliteBut(ls, Transport(0, Answer(Reply(KEEPALIVE, ANSWER), false))) && ReaderMeetsUnknownId(t)
  {
    var s := AskedOnce();
    t := Pinged(s, 0);
    PingedReached(s, 0);
    hide Run, Next, Asked;
    ls := GoesOn(Asked(s, 0), KEEPALIVE_ANSWERED, t, Transport(0, Answer(Reply(KEEPALIVE, ANSWER), false)));
  }

  function Twice(r: Reply): seq<Label> {
    [Transport(0, Answer(r, true))] + [Deliver(0)] + [Transport(0, Answer(r, false))]
  }

  /** One frame answered twice is enough. */
  lemma SecondAnswerIsUnknown() returns (ls: seq<Label>, t: System)
    ensures Run(Start(StandaloneMode, MessageLevel, 1), ls) == Some(t) && Reachable(t) && NoWrap(t)
    ensures PoliteBut(ls, Transport(0, Answer(Reply(Shard(1, PAYLOAD), ANSWER), true))) && ReaderMeetsUnknownId(t)
  {
    var s := AskedOnce();
    var r := Reply(Shard(1, PAYLOAD), ANSWER);
    t := AnsweredTwice(s);
    hide Run, Next, Asked;
    ls := GoesOn(Asked(s, 0), Twice(r), t, Transport(0, Answer(r, true)));
  }

  lemma AnsweredTwice(s: System) returns (t: System)
    requires Calm(s, 0) && IdOf(s, 0) == 1 && |s.conns[0].owner| == 1
    ensures Run(Asked(s, 0), Twice(Reply(Shard(1, PAYLOAD), ANSWER))) == Some(t)
    ensures t.mode == s.mode && t.level == s.level && ReaderMeetsUnknownId(t) && |t.conns[0].owner| == 1
  {
    var a, f := Asked(s, 0), Shard(1, PAYLOAD);
    var r := Reply(f, ANSWER);
    var c := AnswerKnown(a, multiset{f}, r, true, 0);
    t := AnswerUnknown(c, multiset{f}, r);
    hide Next, Asked;
    RunSnoc(a, [Transport(0, Answer(r, true))] + [Deliver(0)], c, Transport(0, Answer(r, false)));
  }

  // ---- And the bound on ids once more ----

  /** One call waits under the id of another that is about to store its sender. */
  predicate Clashing(s: System, f: Frame, i: nat, j: nat) {
    && |s.conns| == 1 && s.conns[0].reading && s.conns[0].channel == Holding([], [], multiset{f}, [])
    && s.conns[0].demux == map[f.id := (i, 0)]
    && i < |s.attempts| && j < |s.attempts| && i != j && s.attempts[j].conn == 0 && s.attempts[j].stage.Issued?
    && s.attempts[j].call < |s.calls| && RequestOf(s, j) == f && f.id == Id(s.attempts[j].serial)
  }

  /** The second frame under the same id has reached the backend too. */
  lemma ClashReachesBackend(s: System, f: Frame, i: nat, j: nat) returns (t: System)
    requires Clashing(s, f, i, j)
    ensures Run(s, Asking(j)) == Some(t) && t.mode == s.mode && t.level == s.level && |t.conns| == 1
    ensures t.conns[0] == s.conns[0].(channel := Holding([], [], multiset{f, f}, []), demux := map[f.id := (j, 0)])
    ensures |t.attempts| == |s.attempts|
  {
    hide Stale, Step, Enqueue, Id;
    HoldingSteps(f, multiset{f});
    var conn := s.conns[0].(demux := map[f.id := (j, 0)]);
    var s1 := StoreStep(s, j, 0).value;
    assert map[f.id := (i, 0)][f.id := (j, 0)] == map[f.id := (j, 0)];
    assert s1.conns[0] == conn && s1.conns == [conn];
    assert s1.attempts[j] == s.attempts[j].(stage := Stored);
    assert RequestOf(s1, j) == f;
    var s2 := SendStep(s1, j).value;
    assert s2.conns == [conn.(channel := Holding([f], [], multiset{f}, []))];
    var s3 := TransportStep(s2, 0, Write).value;
    assert s3.conns == [conn.(channel := Holding([], [f], multiset{f}, []))];
    assert multiset{f} + multiset{f} == multiset{f, f};
    t := TransportStep(s3, 0, Receive).value;
    hide Next;
    IsStep(s, s1, s2, s3, j);
    RunOne(s, Store(j, 0));
    RunSnoc(s, [Store(j, 0)], s1, Send(j));
    RunSnoc(s, [Store(j, 0)] + [Send(j)], s2, Transport(0, Write));
    RunSnoc(s, [Store(j, 0)] + [Send(j)] + [Transport(0, Write)], s3, Transport(0, Receive));
  }

  lemma IsStep(s: System, s1: System, s2: System, s3: System, j: nat)
    ensures Next(s, Store(j, 0)) == StoreStep(s, j, 0) && Next(s1, Send(j)) == SendStep(s1, j)
    ensures Next(s2, Transport(0, Write)) == TransportStep(s2, 0, Write)
    ensures Next(s3, Transport(0, Receive)) == TransportStep(s3, 0, Receive)
  {
  }

  const BOTH_ANSWERED: seq<Label> :=
    [Transport(0, Answer(Reply(Shard(1, PAYLOAD), ANSWER), false))] + [Deliver(0)]
    + [Transport(0, Answer(Reply(Shard(1, PAYLOAD), ANSWER), false))]

  lemma BothAnswered(s: System, j: nat) returns (t: System)
    requires |s.conns| == 1 && s.conns[0].reading && s.conns[0].demux == map[1 := (j, 0)]
    requires s.conns[0].channel == Holding([], [], multiset{Shard(1, PAYLOAD), Shard(1, PAYLOAD)}, [])
    ensures Run(s, BOTH_ANSWERED) == Some(t) && ReaderMeetsUnknownId(t) && t.conns[0].owner == s.conns[0].owner
  {
    var f := Shard(1, PAYLOAD);
    var r := Reply(f, ANSWER);
    assert multiset{f, f} - multiset{f} == multiset{f};
    var c := AnswerKnown(s, multiset{f, f}, r, false, j);
    t := AnswerUnknown(c, multiset{f}, r);
    hide Next;
    RunSnoc(s, [Transport(0, Answer(r, false))] + [Deliver(0)], c, Transport(0, Answer(r, false)));
  }

  /** With 2^32 + 1 ids issued two calls share id 1, and a run of polite labels alone meets an unknown id. */
  lemma ReuseMakesIdsUnknown() returns (ls: seq<Label>, t: System)
    ensures Run(Start(StandaloneMode, MessageLevel, 1), ls) == Some(t) && PoliteRun(ls)
    ensures ReaderMeetsUnknownId(t) && |t.conns[0].owner| == U32_SIZE + 1
  {
    var m, start := U32_SIZE + 1, Start(StandaloneMode, MessageLevel, 1);
    var s := Busy(m);
    BusyReached(m);
    ArrivalsPolite(m);
    FirstOfBusy(m);
    AskedReached(s, 0);
    var a := ClashReachesBackend(Asked(s, 0), Shard(1, PAYLOAD), 0, m - 1);
    t := BothAnswered(a, m - 1);
    AskingPolite(0);
    AskingPolite(m - 1);
    OwnersOfBusy(m);
    hide Next, Busy, Run, Arrivals, Asked, PoliteStep, Calm;
    BothPolite();
    RunConcat(start, Arrivals(m), Asking(0));
    RunConcat(start, Arrivals(m) + Asking(0), Asking(m - 1));
    RunConcat(start, Arrivals(m) + Asking(0) + Asking(m - 1), BOTH_ANSWERED);
    ls := Arrivals(m) + Asking(0) + Asking(m - 1) + BOTH_ANSWERED;
  }

  lemma BothPolite()
    ensures PoliteRun(BOTH_ANSWERED)
  {
  }

  lemma FirstOfBusy(m: nat)
    requires m == U32_SIZE + 1
    ensures Calm(Busy(m), 0) && IdOf(Busy(m), 0) == 1
    ensures Clashing(Asked(Busy(m), 0), Shard(1, PAYLOAD), 0, m - 1)
    ensures Asked(Busy(m), 0).conns[0].owner == Busy(m).conns[0].owner
  {
  }
}
