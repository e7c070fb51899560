/**
 * Store before send: without cleanups, a backend that answers each frame once and never answers id 0 cannot drive the
 * read loop into its unknown-id exit.
 */
module Polite {
  import opened Bytes
  import opened Framing
  import opened Channel
  import opened RoundRobin
  import opened Multiplex
  import opened Bookkeeping
  import opened Outcomes
  import opened Traffic
  import opened Refinement

  predicate PoliteStep(l: Label) {
    !l.Cleanup? && (l.Transport? && l.move.Answer? ==> !l.move.again && l.move.reply.req.id != 0)
  }

  predicate PoliteRun(ls: seq<Label>) {
    forall l :: l in ls ==> PoliteStep(l)
  }

  // ---- The invariant ----

  /** The frame is in flight once, and its id is pending for the attempt that sent it. */
  predicate Expected(s: System, k: nat, f: Frame)
    requires k < |s.conns| && s.conns[k].channel.Messages?
  {
    && f.id in s.conns[k].demux && SentBy(s, k, f, s.conns[k].demux[f.id].0)
    && InFlight(s.conns[k].channel)[f] == 1
  }

  predicate ConnExpects(s: System, k: nat)
    requires k < |s.conns|
  {
    && s.conns[k].channel.Messages?
    && (forall f :: f in InFlight(s.conns[k].channel) ==> f == KEEPALIVE || Expected(s, k, f))
    && (forall r :: r in s.conns[k].channel.inbound ==> r.req.id != 0)
  }

  predicate Orderly(s: System) {
    && s.level.MessageLevel?
    && (forall k :: 0 <= k < |s.conns| ==> ConnExpects(s, k))
    && (forall j :: 0 <= j < |s.attempts| && !s.attempts[j].stage.Queued? ==> s.attempts[j].outcome.Open?)
  }

  lemma StartOrderly(mode: Mode, poolSize: nat)
    ensures Orderly(Start(mode, MessageLevel, poolSize))
  {
  }

  // ---- Polite steps keep it ----

  lemma SentByStays(s: System, t: System, k: nat, f: Frame, j: nat)
    requires Kept(s, t) && SentBy(s, k, f, j)
    ensures SentBy(t, k, f, j)
  {
    assert CallKept(s.calls[s.attempts[j].call], t.calls[s.attempts[j].call]);
    assert AttemptKept(s.attempts[j], t.attempts[j]);
  }

  /** A connection that gains no frame and loses no entry that a frame needs. */
  lemma ConnExpectsStays(s: System, t: System, k: nat)
    requires Kept(s, t) && k < |s.conns| && k < |t.conns| && ConnExpects(s, k) && t.conns[k].channel.Messages?
    requires InFlight(t.conns[k].channel) <= InFlight(s.conns[k].channel)
    requires forall r :: r in t.conns[k].channel.inbound ==> r.req.id != 0
    requires forall f :: f in InFlight(t.conns[k].channel) && f != KEEPALIVE ==>
               f.id in t.conns[k].demux && t.conns[k].demux[f.id].0 == s.conns[k].demux[f.id].0
    ensures ConnExpects(t, k)
  {
    hide InFlight, SentBy, Kept;
    forall f | f in InFlight(t.conns[k].channel)
      ensures f == KEEPALIVE || Expected(t, k, f)
    {
      if f != KEEPALIVE {
        assert f in InFlight(s.conns[k].channel);
        assert Expected(s, k, f);
        assert InFlight(t.conns[k].channel)[f] <= InFlight(s.conns[k].channel)[f];
        SentByStays(s, t, k, f, s.conns[k].demux[f.id].0);
      }
    }
  }

  lemma SameConnExpects(s: System, t: System, k: nat)
    requires Kept(s, t) && k < |s.conns| && k < |t.conns| && ConnExpects(s, k)
    requires t.conns[k].channel == s.conns[k].channel
    requires forall id :: id in s.conns[k].demux ==>
               id in t.conns[k].demux && t.conns[k].demux[id].0 == s.conns[k].demux[id].0
    ensures ConnExpects(t, k)
  {
    hide InFlight, SentBy, Kept;
    ConnExpectsStays(s, t, k);
  }

  /** A frame in flight has the id of the attempt that sent it. */
  lemma FrameId(s: System, k: nat, f: Frame, j: nat)
    requires SentBy(s, k, f, j)
    ensures f.id == Id(s.attempts[j].serial)
  {
  }

  /** An attempt that has not sent its frame finds no frame in flight under its id. */
  lemma NotInFlightYet(s: System, j: nat, f: Frame)
    requires Consistent(s) && NoWrap(s) && Orderly(s) && j < |s.attempts| && !s.attempts[j].stage.Queued?
    requires s.attempts[j].conn < |s.conns| && ConnExpects(s, s.attempts[j].conn)
    requires f in InFlight(s.conns[s.attempts[j].conn].channel) && f != KEEPALIVE
    ensures f.id != Id(s.attempts[j].serial)
  {
    hide InFlight, Consistent, NoWrap;
    var k := s.attempts[j].conn;
    assert Expected(s, k, f);
    var i := s.conns[k].demux[f.id].0;
    FrameId(s, k, f, i);
    if f.id == Id(s.attempts[j].serial) {
      IdsDistinct(s, i, j);
    }
  }

  lemma StoreOrderly(s: System, j: nat, now: int)
    requires Consistent(s) && Orderly(s) && StoreStep(s, j, now).Some? && NoWrap(StoreStep(s, j, now).value)
    ensures Orderly(StoreStep(s, j, now).value)
  {
    hide InFlight, SentBy, NoWrap, Consistent;
    var t := StoreStep(s, j, now).value;
    StoreKeeps(s, j, now);
    NoWrapBefore(s, t);
    var k, id := s.attempts[j].conn, Id(s.attempts[j].serial);
    NotStoredYet(s, j);
    forall i | 0 <= i < |s.conns|
      ensures ConnExpects(t, i)
    {
      assert ConnExpects(s, i);
      SameConnExpects(s, t, i);
    }
  }

  /** Without reuse of ids, no entry is overwritten. */
  lemma NotStoredYet(s: System, j: nat)
    requires Consistent(s) && NoWrap(s) && j < |s.attempts| && s.attempts[j].stage.Issued?
    ensures s.attempts[j].conn < |s.conns| && Id(s.attempts[j].serial) !in s.conns[s.attempts[j].conn].demux
  {
    Overwritten(s, j);
    var k, id := s.attempts[j].conn, Id(s.attempts[j].serial);
    if id in s.conns[k].demux {
      IdsDistinct(s, s.conns[k].demux[id].0, j);
    }
  }

  lemma SendOrderly(s: System, j: nat)
    requires Consistent(s) && Orderly(s) && SendStep(s, j).Some? && NoWrap(SendStep(s, j).value)
    ensures Orderly(SendStep(s, j).value)
  {
    hide InFlight, NoWrap, Consistent, Enqueue, SentBy, Expected;
    var t := SendStep(s, j).value;
    SendKeeps(s, j);
    NoWrapBefore(s, t);
    var k := s.attempts[j].conn;
    forall i | 0 <= i < |s.conns|
      ensures ConnExpects(t, i)
    {
      assert ConnExpects(s, i);
      if i == k {
        SendExpected(s, j);
      } else {
        SameConnExpects(s, t, i);
      }
    }
  }

  lemma SendExpected(s: System, j: nat)
    requires Consistent(s) && NoWrap(s) && Orderly(s) && SendStep(s, j).Some? && Kept(s, SendStep(s, j).value)
    requires ConnExpects(s, s.attempts[j].conn)
    ensures ConnExpects(SendStep(s, j).value, s.attempts[j].conn)
  {
    hide InFlight, NoWrap, Consistent, Enqueue, Kept;
    var t, k, sent := SendStep(s, j).value, s.attempts[j].conn, RequestOf(s, j);
    var before, after := s.conns[k].channel, t.conns[k].channel;
    EnqueueInFlight(before, sent);
    WaitingInDemux(s, j);
    FreshRequest(s, j);
    forall f | f in InFlight(after)
      ensures f == KEEPALIVE || Expected(t, k, f)
    {
      if f == sent {
        assert SentBy(t, k, f, j);
        assert InFlight(after)[f] == 1;
      } else if f != KEEPALIVE {
        assert f in InFlight(before) && Expected(s, k, f);
        assert InFlight(after)[f] == InFlight(before)[f];
        SentByStays(s, t, k, f, s.conns[k].demux[f.id].0);
      }
    }
  }

  lemma WaitingInDemux(s: System, j: nat)
    requires Consistent(s) && Orderly(s) && j < |s.attempts| && s.attempts[j].stage.Stored?
    ensures s.attempts[j].conn < |s.conns| && s.attempts[j].call < |s.calls| && InDemux(s, j)
  {
    assert AttemptOk(s, j);
  }

  /** The frame of an attempt that has not sent it is nowhere in flight, and is not the keepalive. */
  lemma FreshRequest(s: System, j: nat)
    requires Consistent(s) && NoWrap(s) && Orderly(s) && j < |s.attempts| && s.attempts[j].stage.Stored?
    requires s.attempts[j].conn < |s.conns| && s.attempts[j].call < |s.calls| && ConnExpects(s, s.attempts[j].conn)
    ensures RequestOf(s, j) != KEEPALIVE && RequestOf(s, j).id == Id(s.attempts[j].serial)
    ensures RequestOf(s, j) !in InFlight(s.conns[s.attempts[j].conn].channel)
  {
    hide InFlight, NoWrap, Consistent;
    IdsDistinct(s, j, j);
    if RequestOf(s, j) in InFlight(s.conns[s.attempts[j].conn].channel) {
      NotInFlightYet(s, j, RequestOf(s, j));
    }
  }

  lemma KeepAliveOrderly(s: System, k: nat)
    requires Consistent(s) && Orderly(s) && Next(s, KeepAlive(k)).Some?
    ensures Orderly(Next(s, KeepAlive(k)).value)
  {
    hide InFlight, Consistent, Enqueue, SentBy;
    var t := Next(s, KeepAlive(k)).value;
    StepKeeps(s, KeepAlive(k));
    forall i | 0 <= i < |s.conns|
      ensures ConnExpects(t, i)
    {
      assert ConnExpects(s, i);
      if i == k {
        KeepAliveExpected(s, k);
      } else {
        SameConnExpects(s, t, i);
      }
    }
  }

  lemma KeepAliveExpected(s: System, k: nat)
    requires k < |s.conns| && ConnExpects(s, k) && Kept(s, Next(s, KeepAlive(k)).value)
    ensures ConnExpects(Next(s, KeepAlive(k)).value, k)
  {
    hide InFlight, Enqueue, Kept, SentBy;
    var t := Next(s, KeepAlive(k)).value;
    EnqueueInFlight(s.conns[k].channel, KEEPALIVE);
    forall f | f in InFlight(t.conns[k].channel)
      ensures f == KEEPALIVE || Expected(t, k, f)
    {
      if f != KEEPALIVE {
        assert f in InFlight(s.conns[k].channel) && Expected(s, k, f);
        assert InFlight(t.conns[k].channel)[f] == InFlight(s.conns[k].channel)[f];
        SentByStays(s, t, k, f, s.conns[k].demux[f.id].0);
      }
    }
  }

  lemma TransportOrderly(s: System, k: nat, move: Move)
    requires Consistent(s) && Orderly(s) && TransportStep(s, k, move).Some? && PoliteStep(Transport(k, move))
    ensures Orderly(TransportStep(s, k, move).value)
  {
    hide InFlight, Consistent, Step, SentBy;
    var t := TransportStep(s, k, move).value;
    TransportKeeps(s, k, move);
    forall i | 0 <= i < |s.conns|
      ensures ConnExpects(t, i)
    {
      assert ConnExpects(s, i);
      if i == k {
        TransportExpected(s, k, move);
      } else {
        SameConnExpects(s, t, i);
      }
    }
  }

  lemma TransportExpected(s: System, k: nat, move: Move)
    requires TransportStep(s, k, move).Some? && PoliteStep(Transport(k, move)) && ConnExpects(s, k)
    requires Kept(s, TransportStep(s, k, move).value)
    ensures ConnExpects(TransportStep(s, k, move).value, k)
  {
    hide InFlight, Step, SentBy, Kept;
    var t := TransportStep(s, k, move).value;
    StepInFlight(s.conns[k].channel, move);
    SubsetMembers(InFlight(t.conns[k].channel), InFlight(s.conns[k].channel));
    ConnExpectsStays(s, t, k);
  }

  lemma SubsetMembers(a: multiset<Frame>, b: multiset<Frame>)
    requires a <= b
    ensures forall f :: f in a ==> f in b
  {
  }

  /** The answer first in line is for a pending id. */
  lemma FirstIsExpected(s: System, k: nat)
    requires k < |s.conns| && ConnExpects(s, k) && Take(s.conns[k].channel).Some?
    requires Take(s.conns[k].channel).value.0.Answered?
    ensures var f := s.conns[k].channel.inbound[0].req;
            s.conns[k].channel.inbound != [] && f.id == Take(s.conns[k].channel).value.0.id && Expected(s, k, f)
  {
    hide InFlight, Take, SentBy;
    TakeInFlight(s.conns[k].channel);
    assert s.conns[k].channel.inbound[0] in s.conns[k].channel.inbound;
  }

  lemma DeliverOrderly(s: System, k: nat)
    requires Consistent(s) && Orderly(s) && DeliverStep(s, k).Some?
    ensures Orderly(DeliverStep(s, k).value)
  {
    hide InFlight, Consistent, Take, SentBy, Expected;
    var t := DeliverStep(s, k).value;
    DeliverKeeps(s, k);
    assert ConnExpects(s, k);
    TakeInFlight(s.conns[k].channel);
    if Take(s.conns[k].channel).value.0.Answered? {
      FirstIsExpected(s, k);
      DeliverCompletesSent(s, k);
    }
    forall i | 0 <= i < |s.conns|
      ensures ConnExpects(t, i)
    {
      assert ConnExpects(s, i);
      if i == k && Take(s.conns[k].channel).value.0.Answered? {
        DeliverExpected(s, k);
      } else {
        SameConnExpects(s, t, i);
      }
    }
  }

  lemma DeliverCompletesSent(s: System, k: nat)
    requires k < |s.conns| && ConnExpects(s, k) && s.conns[k].channel.inbound != []
    requires Expected(s, k, s.conns[k].channel.inbound[0].req)
    ensures var j := s.conns[k].demux[s.conns[k].channel.inbound[0].req.id].0;
            j < |s.attempts| && s.attempts[j].stage.Queued?
    ensures s.conns[k].channel.inbound[0].req.id in s.conns[k].demux
  {
  }

  lemma DeliverExpected(s: System, k: nat)
    requires ConnExpectsAt(s, k) && DeliverStep(s, k).Some? && Kept(s, DeliverStep(s, k).value)
    requires Take(s.conns[k].channel).value.0.Answered?
    ensures ConnExpects(DeliverStep(s, k).value, k)
  {
    hide InFlight, Take, SentBy, Kept;
    var t := DeliverStep(s, k).value;
    TakeInFlight(s.conns[k].channel);
    FirstIsExpected(s, k);
    var f := s.conns[k].channel.inbound[0].req;
    OneFewer(InFlight(s.conns[k].channel), f);
    forall g | g in InFlight(t.conns[k].channel) && g != KEEPALIVE
      ensures g.id != f.id && g.id in s.conns[k].demux
    {
      assert Expected(s, k, g);
      if g.id == f.id {
        SameSender(s, k, f, g, s.conns[k].demux[f.id].0);
      }
    }
    ConnExpectsStays(s, t, k);
  }

  predicate ConnExpectsAt(s: System, k: nat) {
    k < |s.conns| && ConnExpects(s, k)
  }

  lemma SameSender(s: System, k: nat, f: Frame, g: Frame, j: nat)
    requires SentBy(s, k, f, j) && SentBy(s, k, g, j)
    ensures f == g
  {
  }

  lemma OneFewer(m: multiset<Frame>, f: Frame)
    requires m[f] == 1
    ensures m - multiset{f} <= m && f !in m - multiset{f}
    ensures forall g :: g in m - multiset{f} ==> g in m
  {
  }

  lemma ReconnectOrderly(s: System, i: nat)
    requires Consistent(s) && Orderly(s) && ReconnectStep(s, i).Some?
    ensures Orderly(ReconnectStep(s, i).value)
  {
    hide SentBy, Consistent;
    var t := ReconnectStep(s, i).value;
    ReconnectKeeps(s, i);
    forall k | 0 <= k < |t.conns|
      ensures ConnExpects(t, k)
    {
      if k < |s.conns| {
        assert ConnExpects(s, k);
        SameConnExpects(s, t, k);
      }
    }
  }

  /** Steps that leave channels and demux maps alone. */
  lemma QuietOrderly(s: System, t: System)
    requires Orderly(s) && Kept(s, t) && |t.conns| == |s.conns|
    requires forall k :: 0 <= k < |s.conns| ==>
               t.conns[k].channel == s.conns[k].channel && t.conns[k].demux == s.conns[k].demux
    requires forall j :: 0 <= j < |t.attempts| ==>
               (if j < |s.attempts| then t.attempts[j] == s.attempts[j] else t.attempts[j].outcome.Open?)
    ensures Orderly(t)
  {
    hide InFlight, SentBy;
    forall k | 0 <= k < |t.conns|
      ensures ConnExpects(t, k)
    {
      assert ConnExpects(s, k);
      SameConnExpects(s, t, k);
    }
  }

  lemma StepOrderly(s: System, l: Label)
    requires Consistent(s) && Orderly(s) && Next(s, l).Some? && PoliteStep(l) && NoWrap(Next(s, l).value)
    ensures Orderly(Next(s, l).value)
  {
    hide Consistent, Orderly, Kept, NoWrap, StoreStep, SendStep, TransportStep, DeliverStep, ReconnectStep, CleanupStep,
         Enqueue, Pick;
    StepKeeps(s, l);
    match l
    case Store(j, now) => StoreOrderly(s, j, now);
    case Send(j) => SendOrderly(s, j);
    case Transport(k, move) => TransportOrderly(s, k, move);
    case Deliver(k) => DeliverOrderly(s, k);
    case KeepAlive(k) => KeepAliveOrderly(s, k);
    case Reconnect(i) => ReconnectOrderly(s, i);
    case Cleanup(_, _) => assert false;
    case _ => QuietOrderly(s, Next(s, l).value);
  }

  // ---- Polite runs ----

  lemma {:induction false} RunOrderly(s: System, ls: seq<Label>)
    requires Consistent(s) && Orderly(s) && Run(s, ls).Some? && PoliteRun(ls) && NoWrap(Run(s, ls).value)
    ensures Orderly(Run(s, ls).value)
    decreases |ls|
  {
    hide Consistent, Orderly, Kept, NoWrap, Next, PoliteStep;
    if ls != [] {
      var t := Next(s, ls[0]).value;
      StepKeeps(s, ls[0]);
      RunConsistent(t, ls[1..]);
      NoWrapBefore(t, Run(t, ls[1..]).value);
      assert PoliteStep(ls[0]);
      StepOrderly(s, ls[0]);
      RunOrderly(t, ls[1..]);
    }
  }

  /**
   * Store before send, over whole polite runs at either level: the messages `a` that `s` stands for hold, apart from
   * keepalives, only frames in flight once whose ids are pending for the attempts that sent them.
   */
  lemma PoliteRunExpectsAll(mode: Mode, level: Level, poolSize: nat, ls: seq<Label>, s: System) returns (a: System)
    requires Run(Start(mode, level, poolSize), ls) == Some(s) && PoliteRun(ls) && NoWrap(s)
    requires level.ByteLevel? ==> Sized(s)
    ensures (level.MessageLevel? && a == s) || (level.ByteLevel? && Spelled(s, a))
    ensures Orderly(a)
  {
    hide Consistent, Orderly, Run, Sized, Spelled, PoliteRun, NoWrap, Start;
    var first := Start(mode, MessageLevel, poolSize);
    StartConsistent(mode, level, poolSize);
    StartConsistent(mode, MessageLevel, poolSize);
    StartOrderly(mode, poolSize);
    RunConsistent(Start(mode, level, poolSize), ls);
    LevelStays(mode, level, poolSize, s);
    if level.ByteLevel? {
      StartSpelled(mode, poolSize);
      RunSpelled(Start(mode, ByteLevel, poolSize), first, ls);
      NoWrapSpelled(s, Run(first, ls).value);
    }
    RunOrderly(first, ls);
    a := Run(first, ls).value;
  }

  lemma LevelStays(mode: Mode, level: Level, poolSize: nat, s: System)
    requires Kept(Start(mode, level, poolSize), s)
    ensures s.level == level
  {
  }

  lemma NoWrapSpelled(s: System, a: System)
    requires Spelled(s, a) && NoWrap(s)
    ensures NoWrap(a)
  {
    forall k | 0 <= k < |a.conns|
      ensures |a.conns[k].owner| < U32_SIZE
    {
      assert ConnSpelled(s.conns[k], a.conns[k]);
    }
  }

  /** The unknown-id exit is never taken: whatever the read loop drains next, its id is in the demux map. */
  lemma NoUnknownId(mode: Mode, level: Level, poolSize: nat, ls: seq<Label>, s: System, k: nat)
    requires Run(Start(mode, level, poolSize), ls) == Some(s) && PoliteRun(ls) && NoWrap(s)
    requires level.ByteLevel? ==> Sized(s)
    requires k < |s.conns| && Take(s.conns[k].channel).Some? && Take(s.conns[k].channel).value.0.Answered?
    ensures Take(s.conns[k].channel).value.0.id in s.conns[k].demux
  {
    hide Run, Sized, PoliteRun, NoWrap, Start, Take, InFlight, SentBy, Spells;
    var a := PoliteRunExpectsAll(mode, level, poolSize, ls, s);
    if level.ByteLevel? {
      assert ConnSpelled(s.conns[k], a.conns[k]);
      TakeSpells(s.conns[k].channel, a.conns[k].channel);
    }
    assert ConnExpects(a, k);
    FirstIsExpected(a, k);
  }
}
