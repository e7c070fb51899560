/** What the steps make possible: every call can reach the backend, and every answer, in any order, its own call. */
module Progress {
  import opened Bytes
  import opened Framing
  import opened Channel
  import opened RoundRobin
  import opened Multiplex
  import opened Bookkeeping
  import opened Outcomes
  import opened Traffic
  import opened Polite

  // ---- From a call to the backend ----

  /** A call that is about to choose, and the connection the next scan will give it, with nothing in its way. */
  predicate Ready(s: System, c: nat, k: nat) {
    && s.level.MessageLevel? && c < |s.calls| && s.calls[c].phase.Choosing? && k < |s.conns| && s.next < |s.slots|
    && Pick(Live(s), s.next).0.Some? && s.slots[Pick(Live(s), s.next).0.value] == Some(k)
    && s.conns[k].channel.Messages? && s.conns[k].channel.alive
    && s.conns[k].channel.queue == [] && s.conns[k].channel.wire == []
  }

  /** Attempt `j` of call `c` on connection `k`, with its next id, that has come as far as `stage`. */
  predicate Attempting(s: System, t: System, c: nat, k: nat, stage: Stage) {
    && c < |s.calls| && k < |s.conns| && |t.calls| == |s.calls| && |t.conns| == |s.conns|
    && var j, serial := |s.attempts|, |s.conns[k].owner| + 1;
    && |t.attempts| == j + 1 && t.attempts[j] == Attempt(c, k, serial, stage, Open)
    && t.calls[c] == s.calls[c].(phase := Awaiting(j)) && t.mode == s.mode
    && (forall d :: 0 <= d < |s.calls| && d != c ==> t.calls[d] == s.calls[d])
    && t.conns[k].owner == s.conns[k].owner + [j]
  }

  lemma TakesId(s: System, c: nat, k: nat) returns (t: System)
    requires Ready(s, c, k)
    ensures Run(s, [Choose(c)] + [TakeId(c)]) == Some(t)
    ensures Attempting(s, t, c, k, Issued) && t.conns[k].channel == s.conns[k].channel
  {
    hide Pick;
    var s1 := ChooseStep(s, c).value;
    assert LiveSlot(s, Pick(Live(s), s.next).0.value);
    t := TakeIdStep(s1, c).value;
    RunTwo(s, Choose(c), TakeId(c));
  }

  lemma QueuesFrame(s: System, j: nat, now: int) returns (t: System)
    requires j < |s.attempts| && s.attempts[j].stage.Issued? && s.attempts[j].conn < |s.conns|
    requires s.attempts[j].call < |s.calls| && s.conns[s.attempts[j].conn].channel.Messages?
    requires Id(s.attempts[j].serial) !in s.conns[s.attempts[j].conn].demux && s.conns[s.attempts[j].conn].channel.alive
    ensures var k := s.attempts[j].conn;
            && Run(s, [Store(j, now)] + [Send(j)]) == Some(t)
            && t == s.(conns := t.conns, attempts := s.attempts[j := s.attempts[j].(stage := Queued)])
            && |t.conns| == |s.conns| && t.conns[k].owner == s.conns[k].owner
            && t.conns[k].demux == s.conns[k].demux[Id(s.attempts[j].serial) := (j, now)]
            && t.conns[k].channel == s.conns[k].channel.(queue := s.conns[k].channel.queue + [RequestOf(s, j)])
  {
    hide Id;
    var s1 := StoreStep(s, j, now).value;
    t := SendStep(s1, j).value;
    assert t.attempts == s.attempts[j := s.attempts[j].(stage := Queued)];
    RunTwo(s, Store(j, now), Send(j));
  }

  lemma ReachesBackend(s: System, k: nat, f: Frame) returns (t: System)
    requires k < |s.conns| && s.conns[k].channel.Messages? && s.conns[k].channel.alive
    requires s.conns[k].channel.queue == [f] && s.conns[k].channel.wire == []
    ensures Run(s, [Transport(k, Write)] + [Transport(k, Receive)]) == Some(t)
    ensures t == s.(conns := t.conns) && |t.conns| == |s.conns|
    ensures t.conns[k] == s.conns[k].(channel := s.conns[k].channel.(
                            queue := [], backlog := s.conns[k].channel.backlog + multiset{f}))
  {
    var s1 := TransportStep(s, k, Write).value;
    assert [] + [f] == [f] && [f][1..] == [];
    t := TransportStep(s1, k, Receive).value;
    RunTwo(s, Transport(k, Write), Transport(k, Receive));
  }

  function ToBackend(c: nat, k: nat, j: nat, now: int): seq<Label> {
    [Choose(c)] + [TakeId(c)] + ([Store(j, now)] + [Send(j)]) + ([Transport(k, Write)] + [Transport(k, Receive)])
  }

  /** A call that finds a connection whose next id is free gets its frame to the backend, and waits for it. */
  lemma CallReachesBackend(s: System, c: nat, k: nat, now: int) returns (t: System)
    requires Ready(s, c, k) && Id(|s.conns[k].owner| + 1) !in s.conns[k].demux
    ensures Run(s, ToBackend(c, k, |s.attempts|, now)) == Some(t) && Attempting(s, t, c, k, Queued)
    ensures var call, id := s.calls[c], (|s.conns[k].owner| + 1) % 0x1_0000_0000;
            var f := if s.mode.RouterMode? then Router(call.segment, call.isWrite, id, call.payload)
                     else Shard(id, call.payload);
            && t.conns[k].channel.Messages? && t.conns[k].channel.inbound == s.conns[k].channel.inbound
            && t.conns[k].channel.backlog == s.conns[k].channel.backlog + multiset{f}
            && t.conns[k].demux == s.conns[k].demux[f.id := (|s.attempts|, now)]
  {
    hide Id, Next, Pick;
    var j := |s.attempts|;
    var s1 := TakesId(s, c, k);
    DemuxKept(s, c, k, s1);
    var s2 := QueuesFrame(s1, j, now);
    t := ReachesBackend(s2, k, RequestOf(s1, j));
    IdIs(|s.conns[k].owner| + 1);
    RunConcat(s, [Choose(c)] + [TakeId(c)], [Store(j, now)] + [Send(j)]);
    RunConcat(s, [Choose(c)] + [TakeId(c)] + ([Store(j, now)] + [Send(j)]),
              [Transport(k, Write)] + [Transport(k, Receive)]);
  }

  lemma IdIs(n: nat)
    ensures Id(n) == n % 0x1_0000_0000
  {
  }

  lemma DemuxKept(s: System, c: nat, k: nat, t: System)
    requires Ready(s, c, k) && Run(s, [Choose(c)] + [TakeId(c)]) == Some(t)
    ensures |t.conns| == |s.conns| && t.conns[k].demux == s.conns[k].demux
  {
    hide Pick;
    var s1 := ChooseStep(s, c).value;
    RunTwo(s, Choose(c), TakeId(c));
  }

  // ---- From the backend to the call ----

  function FromBackend(s: System, j: nat, body: Bytes): seq<Label>
    requires j < |s.attempts| && s.attempts[j].call < |s.calls|
  {
    [Transport(s.attempts[j].conn, Answer(Reply(RequestOf(s, j), body), false))]
    + ([Deliver(s.attempts[j].conn)] + [Return(s.attempts[j].call)])
  }

  /** A call waits for attempt `j`, whose frame is among those the backend has not answered. */
  predicate AtBackend(s: System, j: nat) {
    && j < |s.attempts| && s.attempts[j].stage.Queued? && s.attempts[j].outcome.Open?
    && s.attempts[j].call < |s.calls| && s.calls[s.attempts[j].call].phase == Awaiting(j)
    && s.attempts[j].conn < |s.conns| && s.conns[s.attempts[j].conn].reading
    && s.conns[s.attempts[j].conn].channel.Messages? && s.conns[s.attempts[j].conn].channel.inbound == []
    && RequestOf(s, j) in s.conns[s.attempts[j].conn].channel.backlog
  }

  /**
   * With no other answer waiting on the connection, any unanswered frame may be answered next, in whatever order the
   * backend likes: its own call returns with exactly that answer, and no other call or attempt notices.
   */
  lemma AnswerReachesItsCall(s: System, j: nat, body: Bytes) returns (t: System)
    requires Consistent(s) && AtBackend(s, j) && Answerable(body)
    ensures Run(s, FromBackend(s, j, body)) == Some(t)
    ensures t.calls == s.calls[s.attempts[j].call := s.calls[s.attempts[j].call].(phase := Done(Replied(j, body)))]
    ensures t.attempts == s.attempts[j := s.attempts[j].(outcome := Completed(body))]
    ensures var k, id := s.attempts[j].conn, Id(s.attempts[j].serial);
            && |t.conns| == |s.conns| && t.conns[k].reading && t.conns[k].demux == s.conns[k].demux - {id}
            && forall i :: 0 <= i < |s.conns| && i != k ==> t.conns[i] == s.conns[i]
  {
    hide Id, Answerable;
    var k, c := s.attempts[j].conn, s.attempts[j].call;
    var r := Reply(RequestOf(s, j), body);
    assert AttemptOk(s, j);
    RequestId(s, j);
    var s1 := Answers(s, k, r);
    var s2 := DeliversTo(s1, k, r, j);
    t := ReturnStep(s2, c).value;
    RunOne(s, Transport(k, Answer(r, false)));
    RunTwo(s1, Deliver(k), Return(c));
    RunConcat(s, [Transport(k, Answer(r, false))], [Deliver(k)] + [Return(c)]);
  }

  lemma RequestId(s: System, j: nat)
    requires j < |s.attempts| && s.attempts[j].call < |s.calls|
    ensures RequestOf(s, j).id == Id(s.attempts[j].serial)
  {
  }

  lemma Answers(s: System, k: nat, r: Reply) returns (t: System)
    requires k < |s.conns| && s.conns[k].channel.Messages? && s.conns[k].channel.inbound == []
    requires r.req in s.conns[k].channel.backlog && Answerable(r.body)
    ensures Next(s, Transport(k, Answer(r, false))) == Some(t)
    ensures t == s.(conns := t.conns) && |t.conns| == |s.conns|
    ensures forall i :: 0 <= i < |s.conns| && i != k ==> t.conns[i] == s.conns[i]
    ensures t.conns[k].channel.Messages? && t.conns[k].channel.inbound == [r]
    ensures t.conns[k].reading == s.conns[k].reading && t.conns[k].demux == s.conns[k].demux
  {
    t := TransportStep(s, k, Answer(r, false)).value;
    assert [] + [r] == [r];
  }

  lemma DeliversTo(s: System, k: nat, r: Reply, j: nat) returns (t: System)
    requires k < |s.conns| && s.conns[k].channel.Messages? && s.conns[k].channel.inbound == [r] && Answerable(r.body)
    requires s.conns[k].reading && r.req.id in s.conns[k].demux && s.conns[k].demux[r.req.id].0 == j < |s.attempts|
    ensures Next(s, Deliver(k)) == Some(t)
    ensures t == s.(conns := t.conns, attempts := s.attempts[j := s.attempts[j].(outcome := Completed(r.body))])
    ensures |t.conns| == |s.conns| && t.conns[k].reading && t.conns[k].demux == s.conns[k].demux - {r.req.id}
    ensures forall i :: 0 <= i < |s.conns| && i != k ==> t.conns[i] == s.conns[i]
  {
    hide Answerable;
    t := DeliverStep(s, k).value;
  }

  // ---- With other answers waiting ahead ----

  /** The answer `r` has completed the attempt whose frame it answers, and changed nothing else about it. */
  predicate CameThrough(s: System, t: System, k: nat, r: Reply) {
    && k < |s.conns| && r.req.id in s.conns[k].demux
    && var j := s.conns[k].demux[r.req.id].0;
       j < |s.attempts| <= |t.attempts| && SentBy(s, k, r.req, j)
       && t.attempts[j] == s.attempts[j].(outcome := Completed(r.body))
  }

  /** A connection that still reads, all of whose waiting answers can be read. */
  predicate Reading(s: System, k: nat) {
    && k < |s.conns| && s.conns[k].reading && s.conns[k].channel.Messages?
    && forall r :: r in s.conns[k].channel.inbound ==> Answerable(r.body)
  }

  lemma FirstComesThrough(s: System, k: nat) returns (t: System)
    requires Consistent(s) && Orderly(s) && Reading(s, k) && s.conns[k].channel.inbound != []
    ensures Next(s, Deliver(k)) == Some(t) && Consistent(t) && Orderly(t) && Reading(t, k)
    ensures CameThrough(s, t, k, s.conns[k].channel.inbound[0])
    ensures var r := s.conns[k].channel.inbound[0];
            var j := s.conns[k].demux[r.req.id].0;
            && t.calls == s.calls && t.attempts == s.attempts[j := s.attempts[j].(outcome := Completed(r.body))]
            && |t.conns| == |s.conns| && t.conns[k].demux == s.conns[k].demux - {r.req.id}
            && t.conns[k].channel.inbound == s.conns[k].channel.inbound[1..]
            && forall i :: 0 <= i < |s.conns| && i != k ==> t.conns[i] == s.conns[i]
  {
    hide Consistent, Orderly, Answerable, SentBy;
    var r := s.conns[k].channel.inbound[0];
    assert r in s.conns[k].channel.inbound;
    ExpectsOf(s, k);
    FirstIsExpected(s, k);
    DeliverCompletesSent(s, k);
    t := DeliverStep(s, k).value;
    DeliverKeeps(s, k);
    DeliverOrderly(s, k);
    assert forall x :: x in s.conns[k].channel.inbound[1..] ==> x in s.conns[k].channel.inbound;
  }

  lemma ExpectsOf(s: System, k: nat)
    requires Orderly(s) && k < |s.conns|
    ensures ConnExpects(s, k)
  {
  }

  function Delivers(k: nat, n: nat): seq<Label> {
    if n == 0 then [] else [Deliver(k)] + Delivers(k, n - 1)
  }

  /** What came through after the first delivery came through from the start, and the first one stays. */
  lemma ThroughFrom(s: System, s1: System, t: System, k: nat, first: Reply, r: Reply)
    requires Consistent(s) && Kept(s1, t) && CameThrough(s, s1, k, first) && |s1.conns| == |s.conns|
    requires s1.calls == s.calls && s1.mode == s.mode && s1.conns[k].demux == s.conns[k].demux - {first.req.id}
    requires var j := s.conns[k].demux[first.req.id].0;
             s1.attempts == s.attempts[j := s.attempts[j].(outcome := Completed(first.body))]
    ensures CameThrough(s, t, k, first)
    ensures CameThrough(s1, t, k, r) ==> CameThrough(s, t, k, r)
  {
    var j := s.conns[k].demux[first.req.id].0;
    assert AttemptKept(s1.attempts[j], t.attempts[j]);
    if CameThrough(s1, t, k, r) {
      assert EntryOk(s, k, r.req.id) && EntryOk(s, k, first.req.id);
    }
  }

  /** Every answer that waits comes through, in order, each to the attempt whose frame it answers. */
  lemma {:induction false} AllComeThrough(s: System, k: nat) returns (t: System)
    requires Consistent(s) && Orderly(s) && Reading(s, k)
    ensures Run(s, Delivers(k, |s.conns[k].channel.inbound|)) == Some(t) && Consistent(t)
    ensures t.calls == s.calls && t.mode == s.mode && |t.conns| == |s.conns|
    ensures forall r :: r in s.conns[k].channel.inbound ==> CameThrough(s, t, k, r)
    ensures forall i :: 0 <= i < |s.conns| && i != k ==> t.conns[i] == s.conns[i]
    decreases |s.conns[k].channel.inbound|
  {
    hide Consistent, Orderly, CameThrough, Kept, Next, Answerable;
    var inbound := s.conns[k].channel.inbound;
    if inbound == [] {
      t := s;
    } else {
      var s1 := FirstComesThrough(s, k);
      t := AllComeThrough(s1, k);
      RunConsistent(s1, Delivers(k, |inbound| - 1));
      ModeStays(s, Deliver(k));
      forall r | r in inbound
        ensures CameThrough(s, t, k, r)
      {
        ThroughFrom(s, s1, t, k, inbound[0], r);
        assert inbound == [inbound[0]] + inbound[1..];
      }
      RunOne(s, Deliver(k));
      RunConcat(s, [Deliver(k)], Delivers(k, |inbound| - 1));
    }
  }

  lemma ModeStays(s: System, l: Label)
    requires Consistent(s) && Next(s, l).Some?
    ensures Next(s, l).value.mode == s.mode
  {
    StepKeeps(s, l);
  }

  /** As `AtBackend`, with readable answers waiting ahead. */
  predicate AtBackendBehind(s: System, j: nat) {
    && j < |s.attempts| && s.attempts[j].stage.Queued? && s.attempts[j].outcome.Open?
    && s.attempts[j].call < |s.calls| && s.calls[s.attempts[j].call].phase == Awaiting(j)
    && Reading(s, s.attempts[j].conn) && RequestOf(s, j) in s.conns[s.attempts[j].conn].channel.backlog
  }

  /**
   * With any number of answers waiting ahead on the connection, after a polite run: any unanswered frame may be
   * answered next, every answer ahead reaches its own attempt, and then this one reaches its call.
   */
  lemma AnswersComeThrough(s: System, j: nat, body: Bytes) returns (t: System)
    requires Consistent(s) && Orderly(s) && NoWrap(s) && AtBackendBehind(s, j) && Answerable(body)
    ensures var k := s.attempts[j].conn;
            Run(s, [Transport(k, Answer(Reply(RequestOf(s, j), body), false))]
                   + Delivers(k, |s.conns[k].channel.inbound| + 1) + [Return(s.attempts[j].call)]) == Some(t)
    ensures forall r :: r in s.conns[s.attempts[j].conn].channel.inbound ==> CameThrough(s, t, s.attempts[j].conn, r)
    ensures t.calls == s.calls[s.attempts[j].call := s.calls[s.attempts[j].call].(phase := Done(Replied(j, body)))]
    ensures |t.conns| == |s.conns|
    ensures forall i :: 0 <= i < |s.conns| && i != s.attempts[j].conn ==> t.conns[i] == s.conns[i]
  {
    hide Id, Answerable, Consistent, Orderly, NoWrap, CameThrough;
    var k, c, r := s.attempts[j].conn, s.attempts[j].call, Reply(RequestOf(s, j), body);
    var inbound := s.conns[k].channel.inbound;
    RequestId(s, j);
    IdsDistinct(s, j, j);
    var s1 := AnswersBehind(s, k, r);
    TransportKeeps(s, k, Answer(r, false));
    TransportOrderly(s, k, Answer(r, false));
    var s2 := AllComeThrough(s1, k);
    forall x | x in inbound + [r]
      ensures CameThrough(s, s2, k, x)
    {
      ThroughSame(s, s1, s2, k, x);
    }
    OwnCameThrough(s, s2, j, body);
    t := ReturnStep(s2, c).value;
    forall x | x in inbound
      ensures CameThrough(s, t, k, x)
    {
      assert x in inbound + [r];
      ThroughCalls(s, s2, t, k, x);
    }
    var answer := [Transport(k, Answer(r, false))];
    var delivers := Delivers(k, |inbound| + 1);
    hide Next, ReturnStep;
    RunOne(s, Transport(k, Answer(r, false)));
    RunConcat(s, answer, delivers);
    ReturnIs(s2, c);
    RunOne(s2, Return(c));
    RunConcat(s, answer + delivers, [Return(c)]);
  }

  lemma ReturnIs(s: System, c: nat)
    ensures Next(s, Return(c)) == ReturnStep(s, c)
  {
  }

  lemma AnswersBehind(s: System, k: nat, r: Reply) returns (t: System)
    requires Reading(s, k) && r.req in s.conns[k].channel.backlog && Answerable(r.body)
    ensures TransportStep(s, k, Answer(r, false)) == Some(t) && Next(s, Transport(k, Answer(r, false))) == Some(t)
    ensures t == s.(conns := t.conns) && |t.conns| == |s.conns| && Reading(t, k)
    ensures t.conns[k].channel.inbound == s.conns[k].channel.inbound + [r] && t.conns[k].demux == s.conns[k].demux
    ensures forall i :: 0 <= i < |s.conns| && i != k ==> t.conns[i] == s.conns[i]
  {
    t := TransportStep(s, k, Answer(r, false)).value;
  }

  lemma ThroughSame(s: System, s1: System, t: System, k: nat, r: Reply)
    requires CameThrough(s1, t, k, r) && s1 == s.(conns := s1.conns) && |s1.conns| == |s.conns|
    requires s1.conns[k].demux == s.conns[k].demux
    ensures CameThrough(s, t, k, r)
  {
  }

  lemma ThroughCalls(s: System, t: System, u: System, k: nat, r: Reply)
    requires CameThrough(s, t, k, r) && u.attempts == t.attempts
    ensures CameThrough(s, u, k, r)
  {
  }

  lemma OwnCameThrough(s: System, t: System, j: nat, body: Bytes)
    requires Consistent(s) && AtBackendBehind(s, j)
    requires CameThrough(s, t, s.attempts[j].conn, Reply(RequestOf(s, j), body))
    ensures j < |t.attempts| && t.attempts[j] == s.attempts[j].(outcome := Completed(body))
  {
    assert AttemptOk(s, j);
    RequestId(s, j);
  }

  // ---- Fairness ----

  function Chooses(cs: seq<nat>): (ls: seq<Label>)
    ensures |ls| == |cs|
  {
    seq(|cs|, i requires 0 <= i < |cs| => Choose(cs[i]))
  }

  predicate Undecided(s: System, cs: seq<nat>) {
    && Distinct(cs)
    && (forall i :: 0 <= i < |cs| ==> cs[i] < |s.calls| && s.calls[cs[i]].phase.Choosing?)
  }

  /** The live slots in cyclic order from the index on. */
  function Order(s: System): (slots: seq<nat>)
    requires s.next < |s.slots|
    ensures forall i :: i in slots ==> LiveSlot(s, i)
  {
    assert forall i :: 0 <= i < |s.slots| && Live(s)[i] ==> LiveSlot(s, i);
    Cycle(Live(s), s.next, |s.slots|)
  }

  /** The connection of the `n`-th of them. */
  function ConnAt(s: System, n: nat): nat
    requires s.next < |s.slots| && n < |Order(s)|
  {
    assert Order(s)[n] in Order(s);
    s.slots[Order(s)[n]].value
  }

  lemma ChoosesOne(s: System, c: nat)
    requires s.next < |s.slots| && c < |s.calls| && s.calls[c].phase.Choosing? && Order(s) != []
    ensures ChooseStep(s, c).Some?
    ensures var t := ChooseStep(s, c).value;
            && t == s.(next := t.next, calls := s.calls[c := s.calls[c].(phase := Picked(ConnAt(s, 0)))])
            && t.next < |t.slots| && Order(t) == Order(s)[1..] + [Order(s)[0]]
  {
    hide Cycle, Pick;
    PickRotates(Live(s), s.next);
    var t := ChooseStep(s, c).value;
    assert forall i :: 0 <= i < |s.slots| ==> Live(t)[i] == LiveSlot(t, i) == LiveSlot(s, i) == Live(s)[i];
    assert Live(t) == Live(s);
  }

  /** Calls that choose one after the other while no slot changes are spread over the live slots in cyclic order. */
  lemma {:induction false} CallsAreSpread(s: System, cs: seq<nat>, i: nat) returns (t: System)
    requires s.next < |s.slots| && Undecided(s, cs) && i < |cs| <= |Order(s)|
    ensures Run(s, Chooses(cs)) == Some(t) && |t.calls| == |s.calls|
    ensures t.calls[cs[i]].phase == Picked(ConnAt(s, i))
    ensures forall c :: 0 <= c < |s.calls| && c !in cs ==> t.calls[c] == s.calls[c]
    decreases |cs|
  {
    hide Next, Order;
    var slots := Order(s);
    var s1, rest := ChooseStep(s, cs[0]).value, cs[1..];
    ChoosesOne(s, cs[0]);
    ChooseIs(s, cs[0]);
    assert Chooses(cs)[0] == Choose(cs[0]) && Chooses(cs)[1..] == Chooses(rest);
    if rest == [] {
      t := s1;
      assert Chooses(rest) == [];
    } else {
      assert forall k :: 0 <= k < |rest| ==> rest[k] == cs[k + 1];
      StillUndecided(s, cs, s1);
      t := CallsAreSpread(s1, rest, if i == 0 then 0 else i - 1);
      if i > 0 {
        assert (slots[1..] + [slots[0]])[i - 1] == slots[i];
      }
    }
    assert cs == [cs[0]] + rest;
  }

  lemma ChooseIs(s: System, c: nat)
    ensures Next(s, Choose(c)) == ChooseStep(s, c)
  {
  }

  lemma StillUndecided(s: System, cs: seq<nat>, t: System)
    requires Undecided(s, cs) && cs != [] && |t.calls| == |s.calls|
    requires forall c :: 0 <= c < |s.calls| && c != cs[0] ==> t.calls[c] == s.calls[c]
    ensures Undecided(t, cs[1..]) && cs[0] !in cs[1..]
  {
    var rest := cs[1..];
    forall k | 0 <= k < |rest|
      ensures rest[k] == cs[k + 1] != cs[0]
    {
    }
  }
}
