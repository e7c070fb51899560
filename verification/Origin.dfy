/** From the labels of a run to the frames on the wire: whose request a frame is, without looking at the state. */
module Origin {
  import opened Bytes
  import opened Framing
  import opened Channel
  import opened Demux
  import opened RoundRobin
  import opened Multiplex
  import opened Bookkeeping
  import opened Outcomes
  import opened Traffic
  import opened Refinement
  import opened Safety

  /** The calls of a run, in the order they arrive: call number `c` is the one that entry `c` describes. */
  function Begins(ls: seq<Label>): (bs: seq<Label>)
    ensures forall i :: 0 <= i < |bs| ==> bs[i].Begin?
  {
    if ls == [] then []
    else if ls[0].Begin? then [ls[0]] + Begins(ls[1..])
    else Begins(ls[1..])
  }

  lemma StepBegins(s: System, l: Label)
    requires Next(s, l).Some?
    ensures var t := Next(s, l).value;
            if l.Begin? then
              |t.calls| == |s.calls| + 1
              && l == Begin(t.calls[|s.calls|].segment, t.calls[|s.calls|].isWrite, t.calls[|s.calls|].payload)
            else |t.calls| == |s.calls|
  {
    hide Step, Take, Enqueue, Pick, Stale;
  }

  /** Every call has, to the end of the run, the segment, write flag and payload it arrived with. */
  lemma {:induction false} CallsAreBegins(s: System, ls: seq<Label>)
    requires Consistent(s) && Run(s, ls).Some?
    ensures var t := Run(s, ls).value;
            && |t.calls| == |s.calls| + |Begins(ls)|
            && forall c :: |s.calls| <= c < |t.calls| ==>
                 Begins(ls)[c - |s.calls|] == Begin(t.calls[c].segment, t.calls[c].isWrite, t.calls[c].payload)
    decreases |ls|
  {
    hide Consistent, Next;
    if ls != [] {
      var t := Next(s, ls[0]).value;
      StepKeeps(s, ls[0]);
      StepBegins(s, ls[0]);
      CallsAreBegins(t, ls[1..]);
      RunConsistent(t, ls[1..]);
      var u := Run(t, ls[1..]).value;
      if ls[0].Begin? {
        assert CallKept(t.calls[|s.calls|], u.calls[|s.calls|]);
      }
    }
  }

  /**
   * `f` is the frame of attempt `j`, which belongs to the call that arrived by `b`: in router mode the call's own
   * segment, write flag and payload, and always its payload, under the id that the attempt took on connection `k`.
   */
  ghost predicate Requested(s: System, b: Label, k: nat, j: nat, f: Frame)
    requires b.Begin? && k < |s.conns|
  {
    && j < |s.attempts| && s.attempts[j].conn == k
    && 1 <= s.attempts[j].serial <= |s.conns[k].owner| && s.conns[k].owner[s.attempts[j].serial - 1] == j
    && f == (if s.mode.RouterMode?
             then Router(b.segment, b.isWrite, s.attempts[j].serial % 0x1_0000_0000, b.payload)
             else Shard(s.attempts[j].serial % 0x1_0000_0000, b.payload))
  }

  lemma RequestIsRequested(s: System, b: Label, j: nat)
    requires Consistent(s) && j < |s.attempts| && s.attempts[j].conn < |s.conns| && s.attempts[j].call < |s.calls|
    requires var call := s.calls[s.attempts[j].call]; b == Begin(call.segment, call.isWrite, call.payload)
    ensures Requested(s, b, s.attempts[j].conn, j, RequestOf(s, j))
  {
    assert AttemptOk(s, j);
  }

  lemma RunCalls(mode: Mode, level: Level, poolSize: nat, ls: seq<Label>, s: System)
    requires Run(Start(mode, level, poolSize), ls) == Some(s)
    ensures Reachable(s) && Consistent(s) && s.mode == mode && s.level == level && |s.calls| == |Begins(ls)|
    ensures forall c :: 0 <= c < |s.calls| ==>
              Begins(ls)[c] == Begin(s.calls[c].segment, s.calls[c].isWrite, s.calls[c].payload)
  {
    hide Consistent, Run;
    var first := Start(mode, level, poolSize);
    StartConsistent(mode, level, poolSize);
    RunConsistent(first, ls);
    CallsAreBegins(first, ls);
  }

  /**
   * At either level, whatever the interleaving: a frame that the backend has taken up, answered or not, is a keepalive
   * or the frame of one call of the run, with the segment, write flag and payload of exactly that call.
   */
  lemma FramesCarryTheirRequest(mode: Mode, level: Level, poolSize: nat, ls: seq<Label>, s: System, k: nat, f: Frame)
    requires Run(Start(mode, level, poolSize), ls) == Some(s) && (level.ByteLevel? ==> Sized(s))
    requires k < |s.conns|
    requires f in s.conns[k].channel.backlog || exists r :: r in s.conns[k].log && r.req == f
    ensures f == Router(KEEPALIVE_SEGMENT, false, 0, [])
         || exists j: nat, c: nat :: c < |Begins(ls)| && j < |s.attempts| && s.attempts[j].call == c
                                     && Requested(s, Begins(ls)[c], k, j, f)
  {
    hide Run, Consistent, Traced, Sized, Requested, Begins, InFlight, Spells;
    RunCalls(mode, level, poolSize, ls, s);
    var a := ReachableMessages(s);
    SameBut(s, a);
    SameBacklog(s, a, k);
    ChannelOf(a, k);
    BacklogInFlight(a.conns[k].channel);
    assert Attributed(a, k, f);
    if f != KEEPALIVE {
      var j: nat :| SentBy(a, k, f, j);
      RequestIsRequested(s, Begins(ls)[s.attempts[j].call], j);
    }
  }

  lemma SameBacklog(s: System, a: System, k: nat)
    requires (a == s || Spelled(s, a)) && k < |s.conns|
    ensures |a.conns| == |s.conns| && a.conns[k].channel.backlog == s.conns[k].channel.backlog
  {
    if a != s {
      assert ConnSpelled(s.conns[k], a.conns[k]);
    }
  }

  lemma BacklogInFlight(c: Channel)
    requires c.Messages?
    ensures forall f :: f in c.backlog ==> f in InFlight(c)
  {
  }

  /** The step of a run by which the backend gave this answer. */
  predicate AnsweredAt(ls: seq<Label>, i: nat, k: nat, f: Frame, body: Bytes) {
    i < |ls| && ls[i].Transport? && ls[i].conn == k && ls[i].move.Answer? && ls[i].move.reply == Reply(f, body)
  }

  /**
   * Whatever a call returns that is not a cleanup's empty bytes, some step of the run is the backend's answer with
   * these bytes to the frame of an attempt of this very call, made from the segment, write flag and payload the call
   * came with.
   */
  lemma CallIsAnsweredAsAsked(mode: Mode, level: Level, poolSize: nat, ls: seq<Label>, s: System, c: nat)
      returns (k: nat, j: nat, i: nat, f: Frame)
    requires Run(Start(mode, level, poolSize), ls) == Some(s) && NoWrap(s) && (level.ByteLevel? ==> Sized(s))
    requires c < |s.calls| && s.calls[c].phase.Done? && s.calls[c].phase.result.Replied?
    requires s.calls[c].phase.result.body != []
    ensures c < |Begins(ls)| && k < |s.conns| && Requested(s, Begins(ls)[c], k, j, f)
    ensures s.attempts[j].call == c && AnsweredAt(ls, i, k, f, s.calls[c].phase.result.body)
  {
    hide Run, Consistent, NoWrap, Sized, Requested, Begins;
    RunCalls(mode, level, poolSize, ls, s);
    CallGetsItsOwnAnswer(s, c);
    j := s.calls[c].phase.result.attempt;
    k := s.attempts[j].conn;
    f := RequestOf(s, j);
    RequestIsRequested(s, Begins(ls)[c], j);
    StartConsistent(mode, level, poolSize);
    LogRecordsAnswers(Start(mode, level, poolSize), ls, k, Reply(f, s.calls[c].phase.result.body));
    i :| 0 <= i < |ls| && ls[i].Transport? && ls[i].conn == k && ls[i].move.Answer?
         && ls[i].move.reply == Reply(f, s.calls[c].phase.result.body);
  }
}
