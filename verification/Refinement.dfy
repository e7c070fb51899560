/** The system that handles bytes does nothing the system that handles whole messages cannot do, step by step. */
module Refinement {
  import opened Bytes
  import opened Framing
  import opened Channel
  import opened Demux
  import opened RoundRobin
  import opened Multiplex
  import opened Bookkeeping

  /** The requests of all calls fit their frames: router segments of at most 255 bytes, lengths below 2^32. */
  predicate Sized(s: System) {
    forall c :: 0 <= c < |s.calls| ==> WellSized(FrameOf(s.mode, s.calls[c], 0))
  }

  predicate ConnSpelled(c: Conn, a: Conn) {
    a == c.(channel := a.channel) && Spells(c.channel, a.channel)
  }

  /** `a` is `c` with bytes replaced by the messages they spell. */
  predicate Spelled(c: System, a: System) {
    && c.level.ByteLevel? && a.level.MessageLevel? && a == c.(level := MessageLevel, conns := a.conns)
    && |a.conns| == |c.conns|
    && forall k :: 0 <= k < |c.conns| ==> ConnSpelled(c.conns[k], a.conns[k])
  }

  lemma StartSpelled(mode: Mode, poolSize: nat)
    ensures Spelled(Start(mode, ByteLevel, poolSize), Start(mode, MessageLevel, poolSize))
  {
  }

  lemma LiveSame(c: System, a: System)
    requires Spelled(c, a)
    ensures Live(c) == Live(a)
  {
    hide Spells;
    forall i | 0 <= i < |c.slots|
      ensures Live(c)[i] == Live(a)[i]
    {
      if c.slots[i].Some? && c.slots[i].value < |c.conns| {
        assert ConnSpelled(c.conns[c.slots[i].value], a.conns[c.slots[i].value]);
      }
    }
  }

  lemma ChooseSpelled(c: System, a: System, i: nat)
    requires Spelled(c, a) && ChooseStep(c, i).Some?
    ensures ChooseStep(a, i).Some? && Spelled(ChooseStep(c, i).value, ChooseStep(a, i).value)
  {
    hide Spells, Pick, LiveSlot;
    LiveSame(c, a);
  }

  lemma SizedForAnyId(mode: Mode, call: Call, id: u32)
    ensures WellSized(FrameOf(mode, call, id)) <==> WellSized(FrameOf(mode, call, 0))
  {
  }

  lemma SendSpelled(c: System, a: System, j: nat)
    requires Spelled(c, a) && Sized(c) && SendStep(c, j).Some?
    ensures SendStep(a, j).Some? && Spelled(SendStep(c, j).value, SendStep(a, j).value)
  {
    hide Spells, Enqueue, WellSized;
    var k := c.attempts[j].conn;
    assert ConnSpelled(c.conns[k], a.conns[k]);
    SizedForAnyId(c.mode, c.calls[c.attempts[j].call], Id(c.attempts[j].serial));
    EnqueueSpells(c.conns[k].channel, a.conns[k].channel, RequestOf(c, j));
  }

  lemma KeepAliveSpelled(c: System, a: System, k: nat)
    requires Spelled(c, a) && k < |c.conns|
    ensures Spelled(Next(c, KeepAlive(k)).value, Next(a, KeepAlive(k)).value)
  {
    hide Spells, Enqueue;
    assert ConnSpelled(c.conns[k], a.conns[k]);
    EnqueueSpells(c.conns[k].channel, a.conns[k].channel, KEEPALIVE);
  }

  lemma TransportSpelled(c: System, a: System, k: nat, move: Move)
    requires Spelled(c, a) && TransportStep(c, k, move).Some?
    ensures TransportStep(a, k, move).Some? && Spelled(TransportStep(c, k, move).value, TransportStep(a, k, move).value)
  {
    hide Spells, Step;
    assert ConnSpelled(c.conns[k], a.conns[k]);
    StepSpells(c.conns[k].channel, a.conns[k].channel, move);
  }

  lemma DeliverSpelled(c: System, a: System, k: nat)
    requires Spelled(c, a) && DeliverStep(c, k).Some?
    ensures DeliverStep(a, k).Some? && Spelled(DeliverStep(c, k).value, DeliverStep(a, k).value)
  {
    hide Spells, Take;
    assert ConnSpelled(c.conns[k], a.conns[k]);
    TakeSpells(c.conns[k].channel, a.conns[k].channel);
  }

  lemma ReconnectSpelled(c: System, a: System, i: nat)
    requires Spelled(c, a) && ReconnectStep(c, i).Some?
    ensures ReconnectStep(a, i).Some? && Spelled(ReconnectStep(c, i).value, ReconnectStep(a, i).value)
  {
    LiveSame(c, a);
    assert Live(c)[i] == LiveSlot(c, i) && Live(a)[i] == LiveSlot(a, i);
    OpenedSpells();
  }

  lemma CleanupSpelled(c: System, a: System, k: nat, threshold: int)
    requires Spelled(c, a) && CleanupStep(c, k, threshold).Some?
    ensures CleanupStep(a, k, threshold).Some?
    ensures Spelled(CleanupStep(c, k, threshold).value, CleanupStep(a, k, threshold).value)
  {
    hide Spells, Stale;
    assert ConnSpelled(c.conns[k], a.conns[k]);
    assert CleanupStep(c, k, threshold).value.attempts == CleanupStep(a, k, threshold).value.attempts;
  }

  /** Steps of calls that read and write connections only outside their channels. */
  lemma CallStepSpelled(c: System, a: System, l: Label)
    requires Spelled(c, a) && Next(c, l).Some?
    requires l.Begin? || l.TakeId? || l.Store? || l.Return? || l.StopReading? || l.Close?
    ensures Next(a, l).Some? && Spelled(Next(c, l).value, Next(a, l).value)
  {
    hide Spells;
    match l
    case TakeId(i) =>
      var k := c.calls[i].phase.conn;
      assert ConnSpelled(c.conns[k], a.conns[k]);
    case Store(j, _) =>
      var k := c.attempts[j].conn;
      assert ConnSpelled(c.conns[k], a.conns[k]);
    case StopReading(k) =>
      assert ConnSpelled(c.conns[k], a.conns[k]);
    case Close(k) =>
      assert ConnSpelled(c.conns[k], a.conns[k]);
    case _ =>
  }

  lemma StepSpelled(c: System, a: System, l: Label)
    requires Spelled(c, a) && Sized(c) && Next(c, l).Some?
    ensures Next(a, l).Some? && Spelled(Next(c, l).value, Next(a, l).value)
  {
    hide Spelled, Sized, BeginStep, ChooseStep, TakeIdStep, StoreStep, SendStep, ReturnStep, TransportStep, DeliverStep,
         ReconnectStep, CleanupStep, Enqueue;
    match l
    case Choose(i) => ChooseSpelled(c, a, i);
    case Send(j) => SendSpelled(c, a, j);
    case Transport(k, move) => TransportSpelled(c, a, k, move);
    case Deliver(k) => DeliverSpelled(c, a, k);
    case KeepAlive(k) =>
      KeepAliveEnabled(c, a, k);
      KeepAliveSpelled(c, a, k);
    case Reconnect(i) => ReconnectSpelled(c, a, i);
    case Cleanup(k, threshold) => CleanupSpelled(c, a, k, threshold);
    case _ => CallStepSpelled(c, a, l);
  }

  lemma KeepAliveEnabled(c: System, a: System, k: nat)
    requires Spelled(c, a) && Next(c, KeepAlive(k)).Some?
    ensures Next(a, KeepAlive(k)).Some?
  {
  }

  lemma SizedBefore(s: System, t: System)
    requires Kept(s, t) && Sized(t)
    ensures Sized(s)
  {
    forall c | 0 <= c < |s.calls|
      ensures WellSized(FrameOf(s.mode, s.calls[c], 0))
    {
      assert CallKept(s.calls[c], t.calls[c]);
      assert WellSized(FrameOf(t.mode, t.calls[c], 0));
    }
  }

  /** Every run over bytes is a run over messages with the same steps, as long as all requests fit their frames. */
  lemma {:induction false} RunSpelled(c: System, a: System, ls: seq<Label>)
    requires Consistent(c) && Spelled(c, a) && Run(c, ls).Some? && Sized(Run(c, ls).value)
    ensures Run(a, ls).Some? && Spelled(Run(c, ls).value, Run(a, ls).value)
    decreases |ls|
  {
    hide Consistent, Spelled, Sized, Kept, Next;
    if ls != [] {
      StepKeeps(c, ls[0]);
      RunConsistent(c, ls);
      SizedBefore(c, Run(c, ls).value);
      StepSpelled(c, a, ls[0]);
      RunSpelled(Next(c, ls[0]).value, Next(a, ls[0]).value, ls[1..]);
    }
  }

  // ---- And back ----

  lemma ReconnectEnabled(c: System, a: System, i: nat)
    requires Spelled(c, a) && ReconnectStep(a, i).Some?
    ensures ReconnectStep(c, i).Some?
  {
    hide Spells;
    LiveSame(c, a);
    assert Live(c)[i] == LiveSlot(c, i) && Live(a)[i] == LiveSlot(a, i);
  }

  /** A step on messages is enabled on bytes, except that a delivery may have to wait for bytes to arrive. */
  lemma StepEnabled(c: System, a: System, l: Label)
    requires Spelled(c, a) && Next(a, l).Some? && !l.Deliver? && !(l.Transport? && l.move.Arrive?)
    ensures Next(c, l).Some?
  {
    hide Spells, Step, Pick, Enqueue;
    match l
    case TakeId(i) =>
      var k := c.calls[i].phase.conn;
      assert ConnSpelled(c.conns[k], a.conns[k]);
    case Transport(k, move) =>
      assert ConnSpelled(c.conns[k], a.conns[k]);
      StepRealized(c.conns[k].channel, a.conns[k].channel, move);
    case Reconnect(i) =>
      ReconnectEnabled(c, a, i);
    case _ =>
  }

  /** All bytes under way on connection `k` arrive. */
  lemma AllArrives(c: System, a: System, k: nat) returns (n: nat, d: System)
    requires Spelled(c, a) && DeliverStep(a, k).Some?
    ensures Next(c, Transport(k, Arrive(n))) == Some(d)
    ensures Spelled(d, a) && Sized(c) == Sized(d) && DeliverStep(d, k).Some?
  {
    hide Spells, Take, WellSized;
    assert ConnSpelled(c.conns[k], a.conns[k]);
    IsOctets(c.conns[k].channel, a.conns[k].channel);
    var channel := TakeRealized(c.conns[k].channel, a.conns[k].channel);
    n := |c.conns[k].channel.inFlight|;
    d := TransportStep(c, k, Arrive(n)).value;
    assert d.conns[k].channel == channel;
  }

  lemma IsOctets(c: Channel, a: Channel)
    requires Spells(c, a)
    ensures c.Octets?
  {
  }

  /** Every run over messages happens over bytes too, with arrivals put in before deliveries. */
  lemma {:induction false} RunRealized(c: System, a: System, ls: seq<Label>) returns (ms: seq<Label>)
    requires Consistent(c) && Consistent(a) && Spelled(c, a) && Run(a, ls).Some? && Sized(Run(a, ls).value)
    ensures Run(c, ms).Some? && Spelled(Run(c, ms).value, Run(a, ls).value)
    decreases |ls|
  {
    hide Consistent, Spelled, Sized, Kept, Next;
    if ls == [] {
      ms := [];
    } else {
      var l := ls[0];
      StepKeeps(a, l);
      RunConsistent(a, ls);
      SizedBefore(a, Run(a, ls).value);
      SizedAlike(c, a);
      var first := StepRealizedBy(c, a, l);
      RunConsistent(c, first);
      var rest := RunRealized(Run(c, first).value, Next(a, l).value, ls[1..]);
      RunConcat(c, first, rest);
      ms := first + rest;
    }
  }

  lemma SizedAlike(c: System, a: System)
    requires Spelled(c, a)
    ensures Sized(c) == Sized(a)
  {
  }

  lemma StepRealizedBy(c: System, a: System, l: Label) returns (ms: seq<Label>)
    requires Spelled(c, a) && Sized(c) && Next(a, l).Some?
    ensures Run(c, ms).Some? && Spelled(Run(c, ms).value, Next(a, l).value)
  {
    hide Spelled, Sized, Next;
    if l.Deliver? {
      DeliverIs(a, l.conn);
      var n, d := AllArrives(c, a, l.conn);
      DeliverIs(d, l.conn);
      StepSpelled(d, a, l);
      var arrive := Transport(l.conn, Arrive(n));
      ms := [arrive] + [l];
      RunOne(c, arrive);
      RunOne(d, l);
      RunConcat(c, [arrive], [l]);
    } else if l.Transport? && l.move.Arrive? {
      ms := [];
      ArrivalIsNothing(c, a, l);
    } else {
      StepEnabled(c, a, l);
      StepSpelled(c, a, l);
      RunOne(c, l);
      ms := [l];
    }
  }

  lemma DeliverIs(s: System, k: nat)
    ensures Next(s, Deliver(k)) == DeliverStep(s, k)
  {
  }

  lemma ArrivalIsNothing(c: System, a: System, l: Label)
    requires Spelled(c, a) && Next(a, l).Some? && l.Transport? && l.move.Arrive?
    ensures Next(a, l) == Some(a)
  {
    assert ConnSpelled(c.conns[l.conn], a.conns[l.conn]);
    assert Next(a, l).value.conns == a.conns;
  }
}
