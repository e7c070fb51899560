/** Where every frame in flight and every answer comes from, at the message level. */
module Traffic {
  import opened Bytes
  import opened Framing
  import opened Channel
  import opened Demux
  import opened RoundRobin
  import opened Multiplex
  import opened Bookkeeping

  // ---- The frames a channel holds ----

  function Requests(rs: seq<Reply>): (r: seq<Frame>)
    ensures |r| == |rs| && forall i :: 0 <= i < |rs| ==> r[i] == rs[i].req
  {
    seq(|rs|, i requires 0 <= i < |rs| => rs[i].req)
  }

  /** Every frame that has been queued and neither lost nor answered up to the read loop, with its multiplicity. */
  function InFlight(c: Channel): multiset<Frame>
    requires c.Messages?
  {
    multiset(c.queue) + multiset(c.wire) + c.backlog + multiset(Requests(c.inbound))
  }

  lemma EnqueueInFlight(c: Channel, f: Frame)
    requires c.Messages?
    ensures Enqueue(c, f).Messages? && Enqueue(c, f).inbound == c.inbound
    ensures InFlight(Enqueue(c, f)) == if c.alive then InFlight(c) + multiset{f} else InFlight(c)
  {
  }

  /** A move never brings a frame up: it carries it on, loses it, or answers it (perhaps once more than asked). */
  lemma StepInFlight(c: Channel, m: Move)
    requires c.Messages? && Step(c, m).Some?
    ensures var d := Step(c, m).value;
            && d.Messages?
            && (d.inbound == if m.Answer? then c.inbound + [m.reply] else c.inbound)
            && (m.Answer? ==> m.reply.req in InFlight(c))
            && (if m.Answer? && m.again then InFlight(d) == InFlight(c) + multiset{m.reply.req}
                else InFlight(d) <= InFlight(c))
  {
    hide FrameBytes;
    match m
    case Write => WriteInFlight(c);
    case WriteFail(n) => WriteFailInFlight(c, n);
    case Receive => ReceiveInFlight(c);
    case Answer(r, again) => AnswerInFlight(c, r, again);
    case Arrive(n) =>
  }

  lemma WriteInFlight(c: Channel)
    requires c.Messages? && WriteStep(c).Some?
    ensures InFlight(WriteStep(c).value) == InFlight(c)
  {
    assert c.queue == [c.queue[0]] + c.queue[1..];
  }

  lemma WriteFailInFlight(c: Channel, n: nat)
    requires c.Messages? && WriteFailStep(c, n).Some?
    ensures InFlight(WriteFailStep(c, n).value) <= InFlight(c)
  {
    hide FrameBytes;
    assert c.queue == [c.queue[0]] + c.queue[1..];
  }

  lemma ReceiveInFlight(c: Channel)
    requires c.Messages? && ReceiveStep(c).Some?
    ensures InFlight(ReceiveStep(c).value) == InFlight(c)
  {
    assert c.wire == [c.wire[0]] + c.wire[1..];
  }

  lemma AnswerInFlight(c: Channel, r: Reply, again: bool)
    requires c.Messages? && AnswerStep(c, r, again).Some?
    ensures r.req in InFlight(c)
    ensures InFlight(AnswerStep(c, r, again).value)
         == if again then InFlight(c) + multiset{r.req} else InFlight(c)
  {
    RequestsSnoc(c.inbound, r);
    var ahead := multiset(c.queue) + multiset(c.wire);
    MovesOver(ahead, c.backlog, multiset(Requests(c.inbound)), r.req);
  }

  lemma RequestsSnoc(rs: seq<Reply>, r: Reply)
    ensures multiset(Requests(rs + [r])) == multiset(Requests(rs)) + multiset{r.req}
  {
    assert Requests(rs + [r]) == Requests(rs) + [r.req];
  }

  lemma MovesOver(a: multiset<Frame>, b: multiset<Frame>, c: multiset<Frame>, f: Frame)
    requires f in b
    ensures a + (b - multiset{f}) + (c + multiset{f}) == a + b + c
    ensures a + b + (c + multiset{f}) == a + b + c + multiset{f}
    ensures f in a + b + c
  {
  }

  lemma TakeInFlight(c: Channel)
    requires c.Messages? && Take(c).Some?
    ensures var (arrival, d) := Take(c).value;
            && d.Messages?
            && (arrival.Garbled? ==> d == c)
            && (arrival.Answered? ==>
                  && c.inbound != [] && arrival == Answered(c.inbound[0].req.id, c.inbound[0].body)
                  && d.inbound == c.inbound[1..] && InFlight(d) == InFlight(c) - multiset{c.inbound[0].req}
                  && c.inbound[0].req in InFlight(c) && Answerable(arrival.body))
  {
    hide Answerable;
    if c.inbound != [] {
      var r := c.inbound[0];
      assert Requests(c.inbound) == [r.req] + Requests(c.inbound[1..]);
    }
  }

  // ---- The invariant ----

  /** Attempt `j` has queued the frame `f` on connection `k`. */
  predicate SentBy(s: System, k: nat, f: Frame, j: nat) {
    && j < |s.attempts| && s.attempts[j].call < |s.calls|
    && s.attempts[j].conn == k && s.attempts[j].stage.Queued? && f == RequestOf(s, j)
  }

  ghost predicate Attributed(s: System, k: nat, f: Frame) {
    f == KEEPALIVE || exists j: nat :: SentBy(s, k, f, j)
  }

  /** An answer under the attempt's id, with this body, is in the log of its connection. */
  ghost predicate Logged(s: System, j: nat, body: Bytes) {
    && j < |s.attempts| && s.attempts[j].conn < |s.conns|
    && exists r :: r in s.conns[s.attempts[j].conn].log && r.req.id == Id(s.attempts[j].serial) && r.body == body
  }

  ghost predicate ConnTraffic(s: System, k: nat)
    requires k < |s.conns|
  {
    var conn := s.conns[k];
    && conn.channel.Messages?
    && (forall f :: f in InFlight(conn.channel) ==> Attributed(s, k, f))
    && (forall r :: r in conn.log ==> Attributed(s, k, r.req))
    && (forall r :: r in conn.channel.inbound ==> r in conn.log)
  }

  ghost predicate AttemptTraffic(s: System, j: nat)
    requires j < |s.attempts|
  {
    s.attempts[j].outcome.Completed? ==>
      Answerable(s.attempts[j].outcome.body) && Logged(s, j, s.attempts[j].outcome.body)
  }

  ghost predicate Traced(s: System) {
    && s.level.MessageLevel?
    && (forall k :: 0 <= k < |s.conns| ==> ConnTraffic(s, k))
    && (forall j :: 0 <= j < |s.attempts| ==> AttemptTraffic(s, j))
  }

  lemma StartTraced(mode: Mode, poolSize: nat)
    ensures Traced(Start(mode, MessageLevel, poolSize))
  {
  }

  // ---- Every step keeps it ----

  lemma AttributedStays(s: System, t: System, k: nat, f: Frame)
    requires Consistent(s) && Kept(s, t) && Attributed(s, k, f)
    ensures Attributed(t, k, f)
  {
    if f != KEEPALIVE {
      var j: nat :| SentBy(s, k, f, j);
      assert CallKept(s.calls[s.attempts[j].call], t.calls[s.attempts[j].call]);
      assert AttemptKept(s.attempts[j], t.attempts[j]);
      assert SentBy(t, k, f, j);
    }
  }

  lemma LoggedStays(s: System, t: System, j: nat, body: Bytes)
    requires Kept(s, t) && Logged(s, j, body)
    ensures Logged(t, j, body)
  {
    var k := s.attempts[j].conn;
    var r :| r in s.conns[k].log && r.req.id == Id(s.attempts[j].serial) && r.body == body;
    assert ConnKept(s.conns[k], t.conns[k]) && AttemptKept(s.attempts[j], t.attempts[j]);
    assert r in t.conns[k].log;
  }

  /** Frames and answers of connection `k` that `s` did not have are accounted for in `t`. */
  ghost predicate ConnExplained(s: System, t: System, k: nat)
    requires k < |s.conns| && k < |t.conns|
  {
    var c, d := s.conns[k], t.conns[k];
    && c.channel.Messages? && d.channel.Messages?
    && (forall f :: f in InFlight(d.channel) ==> f in InFlight(c.channel) || Attributed(t, k, f))
    && (forall r :: r in d.log ==> r in c.log || r.req in InFlight(c.channel))
    && (forall r :: r in d.channel.inbound ==> r in c.channel.inbound || r in d.log)
  }

  lemma ConnTrafficStays(s: System, t: System, k: nat)
    requires Consistent(s) && Kept(s, t) && k < |s.conns| && ConnTraffic(s, k) && ConnExplained(s, t, k)
    ensures ConnTraffic(t, k)
  {
    hide Attributed, Consistent, InFlight;
    var c, d := s.conns[k], t.conns[k];
    assert ConnKept(c, d);
    forall f | f in InFlight(d.channel)
      ensures Attributed(t, k, f)
    {
      if f in InFlight(c.channel) {
        AttributedStays(s, t, k, f);
      }
    }
    forall r | r in d.log
      ensures Attributed(t, k, r.req)
    {
      AttributedStays(s, t, k, r.req);
    }
    assert KeptLog(c.log, d.log);
  }

  predicate KeptLog(a: seq<Reply>, b: seq<Reply>) {
    forall r :: r in a ==> r in b
  }

  /** A step that explains every connection, and every newly completed attempt, keeps the invariant. */
  lemma TracedFrom(s: System, t: System)
    requires Consistent(s) && Kept(s, t) && Traced(s)
    requires forall k :: 0 <= k < |s.conns| ==> ConnExplained(s, t, k)
    requires forall k :: |s.conns| <= k < |t.conns| ==> ConnTraffic(t, k)
    requires forall j :: 0 <= j < |t.attempts| ==>
               AttemptTraffic(t, j) || (j < |s.attempts| && t.attempts[j].outcome == s.attempts[j].outcome)
    ensures Traced(t)
  {
    hide Consistent, Kept, ConnExplained, ConnTraffic, Logged, Answerable;
    forall k | 0 <= k < |t.conns|
      ensures ConnTraffic(t, k)
    {
      if k < |s.conns| {
        ConnTrafficStays(s, t, k);
      }
    }
    forall j | 0 <= j < |t.attempts|
      ensures AttemptTraffic(t, j)
    {
      if j < |s.attempts| && t.attempts[j].outcome == s.attempts[j].outcome {
        assert AttemptTraffic(s, j);
        if t.attempts[j].outcome.Completed? {
          LoggedStays(s, t, j, s.attempts[j].outcome.body);
        }
      }
    }
    assert t.level == s.level by { LevelKept(s, t); }
  }

  lemma LevelKept(s: System, t: System)
    requires Kept(s, t)
    ensures t.level == s.level
  {
  }

  /** Connections whose channel and log do not change explain themselves. */
  lemma SameConnExplained(s: System, t: System, k: nat)
    requires Traced(s) && k < |s.conns| && k < |t.conns|
    requires t.conns[k].channel == s.conns[k].channel && t.conns[k].log == s.conns[k].log
    ensures ConnExplained(s, t, k)
  {
    assert ConnTraffic(s, k);
  }

  lemma SendTraced(s: System, j: nat)
    requires Consistent(s) && Traced(s) && SendStep(s, j).Some?
    ensures Traced(SendStep(s, j).value)
  {
    hide InFlight, Enqueue, Attributed, ConnTraffic, Logged;
    var t := SendStep(s, j).value;
    SendKeeps(s, j);
    forall k | 0 <= k < |s.conns|
      ensures ConnExplained(s, t, k)
    {
      if k == s.attempts[j].conn {
        ChannelOf(s, k);
        EnqueueInFlight(s.conns[k].channel, RequestOf(s, j));
        JustSent(s, j);
      } else {
        SameConnExplained(s, t, k);
      }
    }
    TracedFrom(s, t);
  }

  lemma ChannelOf(s: System, k: nat)
    requires Traced(s) && k < |s.conns|
    ensures s.conns[k].channel.Messages? && ConnTraffic(s, k)
  {
  }

  lemma JustSent(s: System, j: nat)
    requires Consistent(s) && SendStep(s, j).Some?
    ensures Attributed(SendStep(s, j).value, s.attempts[j].conn, RequestOf(s, j))
  {
    assert AttemptOk(s, j);
    assert SentBy(SendStep(s, j).value, s.attempts[j].conn, RequestOf(s, j), j);
  }

  lemma KeepAliveTraced(s: System, k: nat)
    requires Consistent(s) && Traced(s) && Next(s, KeepAlive(k)).Some?
    ensures Traced(Next(s, KeepAlive(k)).value)
  {
    hide InFlight, Enqueue, ConnTraffic, Logged;
    var t := Next(s, KeepAlive(k)).value;
    StepKeeps(s, KeepAlive(k));
    forall i | 0 <= i < |s.conns|
      ensures ConnExplained(s, t, i)
    {
      if i == k {
        ChannelOf(s, k);
        EnqueueInFlight(s.conns[k].channel, KEEPALIVE);
      } else {
        SameConnExplained(s, t, i);
      }
    }
    TracedFrom(s, t);
  }

  lemma TransportTraced(s: System, k: nat, move: Move)
    requires Consistent(s) && Traced(s) && TransportStep(s, k, move).Some?
    ensures Traced(TransportStep(s, k, move).value)
  {
    hide InFlight, Step, ConnTraffic, Logged, Attributed;
    var t := TransportStep(s, k, move).value;
    TransportKeeps(s, k, move);
    forall i | 0 <= i < |s.conns|
      ensures ConnExplained(s, t, i)
    {
      if i == k {
        ChannelOf(s, k);
        StepInFlight(s.conns[k].channel, move);
      } else {
        SameConnExplained(s, t, i);
      }
    }
    TracedFrom(s, t);
  }

  lemma DeliverTraced(s: System, k: nat)
    requires Consistent(s) && Traced(s) && DeliverStep(s, k).Some?
    ensures Traced(DeliverStep(s, k).value)
  {
    hide InFlight, Take, Attributed, Answerable, Consistent, Traced;
    var t := DeliverStep(s, k).value;
    DeliverKeeps(s, k);
    ChannelOf(s, k);
    TakeInFlight(s.conns[k].channel);
    forall i | 0 <= i < |s.conns|
      ensures ConnExplained(s, t, i)
    {
      if i != k {
        SameConnExplained(s, t, i);
      }
    }
    forall j | 0 <= j < |t.attempts|
      ensures AttemptTraffic(t, j) || t.attempts[j].outcome == s.attempts[j].outcome
    {
      if t.attempts[j] != s.attempts[j] {
        DeliveredLogged(s, k);
      }
    }
    TracedFrom(s, t);
  }

  /** The attempt a delivery completes got the answer that was first in line. */
  lemma DeliveredLogged(s: System, k: nat)
    requires Consistent(s) && k < |s.conns| && DeliverStep(s, k).Some? && ConnTraffic(s, k)
    requires Take(s.conns[k].channel).value.0.Answered? && Take(s.conns[k].channel).value.0.id in s.conns[k].demux
    ensures var t, id := DeliverStep(s, k).value, Take(s.conns[k].channel).value.0.id;
            && s.conns[k].demux[id].0 < |t.attempts| && AttemptTraffic(t, s.conns[k].demux[id].0)
  {
    hide InFlight, Take, Attributed, Answerable;
    TakeInFlight(s.conns[k].channel);
    var id := Take(s.conns[k].channel).value.0.id;
    assert EntryOk(s, k, id);
    var t, r := DeliverStep(s, k).value, s.conns[k].channel.inbound[0];
    assert r in s.conns[k].channel.inbound;
    assert r in t.conns[k].log;
  }

  lemma ReconnectTraced(s: System, i: nat)
    requires Consistent(s) && Traced(s) && ReconnectStep(s, i).Some?
    ensures Traced(ReconnectStep(s, i).value)
  {
    hide Attributed, Logged;
    var t := ReconnectStep(s, i).value;
    ReconnectKeeps(s, i);
    forall k | 0 <= k < |s.conns|
      ensures ConnExplained(s, t, k)
    {
      SameConnExplained(s, t, k);
    }
    TracedFrom(s, t);
  }

  /** Steps that touch neither a channel nor a log, and complete no attempt. */
  lemma QuietTraced(s: System, t: System)
    requires Consistent(s) && Kept(s, t) && Traced(s) && |t.conns| == |s.conns|
    requires forall k :: 0 <= k < |s.conns| ==>
               t.conns[k].channel == s.conns[k].channel && t.conns[k].log == s.conns[k].log
    requires forall j :: 0 <= j < |t.attempts| && t.attempts[j].outcome.Completed? ==>
               j < |s.attempts| && t.attempts[j].outcome == s.attempts[j].outcome
    ensures Traced(t)
  {
    hide Consistent, Kept, Logged, Attributed;
    forall k | 0 <= k < |s.conns|
      ensures ConnExplained(s, t, k)
    {
      SameConnExplained(s, t, k);
    }
    TracedFrom(s, t);
  }

  lemma StepTraced(s: System, l: Label)
    requires Consistent(s) && Traced(s) && Next(s, l).Some?
    ensures Traced(Next(s, l).value)
  {
    hide Consistent, Traced, Kept, SendStep, TransportStep, DeliverStep, ReconnectStep, Enqueue, Pick, Stale;
    StepKeeps(s, l);
    match l
    case Send(j) => SendTraced(s, j);
    case Transport(k, move) => TransportTraced(s, k, move);
    case Deliver(k) => DeliverTraced(s, k);
    case KeepAlive(k) => KeepAliveTraced(s, k);
    case Reconnect(i) => ReconnectTraced(s, i);
    case _ => QuietTraced(s, Next(s, l).value);
  }
}
