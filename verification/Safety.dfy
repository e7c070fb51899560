/** What holds in every state that any run can reach, at either level. */
module Safety {
  import opened Bytes
  import opened Framing
  import opened Channel
  import opened Demux
  import opened RoundRobin
  import opened Multiplex
  import opened Bookkeeping
  import opened Outcomes
  import opened Traffic
  import opened Refinement

  // ---- The invariants along runs ----

  lemma {:induction false} RunEnded(s: System, ls: seq<Label>)
    requires Consistent(s) && Ended(s) && Run(s, ls).Some?
    ensures Ended(Run(s, ls).value)
    decreases |ls|
  {
    hide Consistent, Ended, Next;
    if ls != [] {
      StepKeeps(s, ls[0]);
      StepEnds(s, ls[0]);
      RunEnded(Next(s, ls[0]).value, ls[1..]);
    }
  }

  lemma {:induction false} RunTraced(s: System, ls: seq<Label>)
    requires Consistent(s) && Traced(s) && Run(s, ls).Some?
    ensures Traced(Run(s, ls).value)
    decreases |ls|
  {
    hide Consistent, Traced, Next;
    if ls != [] {
      StepKeeps(s, ls[0]);
      StepTraced(s, ls[0]);
      RunTraced(Next(s, ls[0]).value, ls[1..]);
    }
  }

  lemma ReachableInvariants(s: System)
    requires Reachable(s)
    ensures Consistent(s) && Ended(s)
  {
    hide Consistent, Ended, Run;
    var poolSize: nat, ls :| Run(Start(s.mode, s.level, poolSize), ls) == Some(s);
    StartConsistent(s.mode, s.level, poolSize);
    StartEnded(s.mode, s.level, poolSize);
    RunConsistent(Start(s.mode, s.level, poolSize), ls);
    RunEnded(Start(s.mode, s.level, poolSize), ls);
  }

  /** The message-level system that a reachable byte-level system stands for; a message-level one stands for itself. */
  lemma ReachableMessages(s: System) returns (a: System)
    requires Reachable(s) && (s.level.ByteLevel? ==> Sized(s))
    ensures Consistent(a) && Traced(a)
    ensures a == s || Spelled(s, a)
  {
    hide Consistent, Traced, Run, Sized, Spelled;
    var poolSize: nat, ls :| Run(Start(s.mode, s.level, poolSize), ls) == Some(s);
    var first := Start(s.mode, MessageLevel, poolSize);
    StartConsistent(s.mode, s.level, poolSize);
    StartConsistent(s.mode, MessageLevel, poolSize);
    StartTraced(s.mode, poolSize);
    if s.level.ByteLevel? {
      StartSpelled(s.mode, poolSize);
      RunSpelled(Start(s.mode, ByteLevel, poolSize), first, ls);
    }
    RunTraced(first, ls);
    RunConsistent(first, ls);
    a := Run(first, ls).value;
  }

  // ---- Delivery ----

  /** Under distinct ids, an answer in the log under the id of an attempt answers the frame that attempt sent. */
  lemma AnswersOwnFrame(s: System, j: nat, r: Reply)
    requires Consistent(s) && Traced(s) && NoWrap(s) && j < |s.attempts| && s.attempts[j].conn < |s.conns|
    requires r in s.conns[s.attempts[j].conn].log && r.req.id == Id(s.attempts[j].serial)
    ensures s.attempts[j].call < |s.calls| && s.attempts[j].stage.Queued? && r.req == RequestOf(s, j)
  {
    hide InFlight;
    var k := s.attempts[j].conn;
    assert ConnTraffic(s, k);
    IdsDistinct(s, j, j);
    var i: nat :| SentBy(s, k, r.req, i);
    IdsDistinct(s, i, j);
  }

  /** So a logged answer is the attempt's own, and the log holds no answer to another frame under that id. */
  lemma LoggedIsOwn(s: System, j: nat, body: Bytes)
    requires Consistent(s) && Traced(s) && NoWrap(s) && j < |s.attempts| && Logged(s, j, body)
    ensures s.attempts[j].call < |s.calls| && s.attempts[j].stage.Queued?
    ensures Reply(RequestOf(s, j), body) in s.conns[s.attempts[j].conn].log
    ensures forall r :: r in s.conns[s.attempts[j].conn].log && r.req.id == Id(s.attempts[j].serial) ==>
              r.req == RequestOf(s, j)
  {
    hide InFlight, Consistent, Traced, NoWrap, Id;
    var k := s.attempts[j].conn;
    var own :| own in s.conns[k].log && own.req.id == Id(s.attempts[j].serial) && own.body == body;
    AnswersOwnFrame(s, j, own);
    forall r | r in s.conns[k].log && r.req.id == Id(s.attempts[j].serial)
      ensures r.req == RequestOf(s, j)
    {
      AnswersOwnFrame(s, j, r);
    }
  }

  /**
   * Correct delivery: whatever the interleaving, and in whatever order the backend answers, a completed attempt holds
   * the backend's answer to the frame that this attempt sent on its own connection. It needs fewer than 2^32 ids to
   * have been issued on each connection, and at the byte level requests that fit their frames.
   */
  lemma DeliveredIsOwnAnswer(s: System, j: nat)
    requires Reachable(s) && NoWrap(s) && (s.level.ByteLevel? ==> Sized(s))
    requires j < |s.attempts| && s.attempts[j].outcome.Completed?
    ensures s.attempts[j].call < |s.calls| && s.attempts[j].conn < |s.conns|
    ensures Reply(RequestOf(s, j), s.attempts[j].outcome.body) in s.conns[s.attempts[j].conn].log
    ensures s.attempts[j].outcome.body != []
  {
    hide Consistent, ConnTraffic, Logged, Run;
    var a := ReachableMessages(s);
    SameBut(s, a);
    assert AttemptTraffic(a, j);
    LoggedIsOwn(a, j, s.attempts[j].outcome.body);
    AttemptInRange(a, j);
  }

  lemma AttemptInRange(s: System, j: nat)
    requires Consistent(s) && j < |s.attempts|
    ensures s.attempts[j].call < |s.calls| && s.attempts[j].conn < |s.conns|
  {
    assert AttemptOk(s, j);
  }

  lemma SameBut(s: System, a: System)
    requires a == s || Spelled(s, a)
    ensures a.mode == s.mode && a.calls == s.calls && a.attempts == s.attempts && |a.conns| == |s.conns|
    ensures forall k :: 0 <= k < |s.conns| ==> a.conns[k].log == s.conns[k].log && a.conns[k].owner == s.conns[k].owner
    ensures NoWrap(a) <==> NoWrap(s)
  {
    if Spelled(s, a) {
      forall k | 0 <= k < |s.conns|
        ensures a.conns[k].log == s.conns[k].log && a.conns[k].owner == s.conns[k].owner
      {
        assert ConnSpelled(s.conns[k], a.conns[k]);
      }
    }
  }

  /** A call returns the answer to its own request, or the empty bytes of a cleanup and then nothing else. */
  lemma CallGetsItsOwnAnswer(s: System, c: nat)
    requires Reachable(s) && NoWrap(s) && (s.level.ByteLevel? ==> Sized(s))
    requires c < |s.calls| && s.calls[c].phase.Done? && s.calls[c].phase.result.Replied?
    ensures var Replied(j, body) := s.calls[c].phase.result;
            && j < |s.attempts| && s.attempts[j].call == c && s.attempts[j].conn < |s.conns|
            && (body == [] <==> s.attempts[j].outcome.Expired?)
            && (body != [] ==>
                  var call, id := s.calls[c], s.attempts[j].serial % 0x1_0000_0000;
                  Reply(if s.mode.RouterMode? then Router(call.segment, call.isWrite, id, call.payload)
                        else Shard(id, call.payload), body)
                  in s.conns[s.attempts[j].conn].log)
  {
    hide Consistent, NoWrap, Sized, Reachable;
    ReachableInvariants(s);
    assert CallEnds(s, c);
    var j := s.calls[c].phase.result.attempt;
    AttemptInRange(s, j);
    if s.attempts[j].outcome.Completed? {
      DeliveredIsOwnAnswer(s, j);
    }
  }

  /** The log is no more than a record of steps: each entry was an answer of the backend in the run. */
  lemma {:induction false} LogRecordsAnswers(s: System, ls: seq<Label>, k: nat, r: Reply)
    requires Consistent(s) && Run(s, ls).Some? && k < |Run(s, ls).value.conns| && r in Run(s, ls).value.conns[k].log
    ensures (k < |s.conns| && r in s.conns[k].log)
         || exists i :: 0 <= i < |ls| && ls[i].Transport? && ls[i].conn == k && ls[i].move.Answer?
                        && ls[i].move.reply == r
    decreases |ls|
  {
    hide Consistent, Next;
    if ls != [] {
      var t := Next(s, ls[0]).value;
      StepKeeps(s, ls[0]);
      LogRecordsAnswers(t, ls[1..], k, r);
      if k < |t.conns| && r in t.conns[k].log {
        StepLogs(s, ls[0], k, r);
      } else {
        var i :| 0 <= i < |ls[1..]| && ls[1..][i].Transport? && ls[1..][i].conn == k && ls[1..][i].move.Answer?
              && ls[1..][i].move.reply == r;
        assert ls[i + 1] == ls[1..][i];
      }
    }
  }

  lemma StepLogs(s: System, l: Label, k: nat, r: Reply)
    requires Consistent(s) && Next(s, l).Some? && k < |Next(s, l).value.conns| && r in Next(s, l).value.conns[k].log
    ensures (k < |s.conns| && r in s.conns[k].log)
         || (l.Transport? && l.conn == k && l.move.Answer? && l.move.reply == r)
  {
    hide Consistent, Step, Take, Enqueue, Pick, Stale;
  }

  // ---- The unknown-id exit ----

  /** The id has been issued on the connection, and its attempt is settled. */
  ghost predicate SettledId(s: System, k: nat, id: u32) {
    exists j: nat :: j < |s.attempts| && s.attempts[j].conn == k && Id(s.attempts[j].serial) == id
                     && !s.attempts[j].outcome.Open?
  }

  /**
   * Exactly when the read loop leaves by its unknown-id exit, for any backend and any cleanups: the answer it drains
   * next is under the keepalive's id, or under an id whose attempt is settled, by an answer, a cleanup or a drop.
   */
  lemma UnknownIdIffKeepaliveOrSettled(s: System, k: nat)
    requires Reachable(s) && NoWrap(s) && (s.level.ByteLevel? ==> Sized(s))
    requires k < |s.conns| && Take(s.conns[k].channel).Some? && Take(s.conns[k].channel).value.0.Answered?
    ensures var id := Take(s.conns[k].channel).value.0.id;
            id !in s.conns[k].demux <==> id == 0 || SettledId(s, k, id)
  {
    hide Reachable, NoWrap, Sized, Consistent, Take, Spells, ConnTraffic, AttemptTraffic;
    var a := ReachableMessages(s);
    SameBut(s, a);
    if a != s {
      assert ConnSpelled(s.conns[k], a.conns[k]);
      TakeSpells(s.conns[k].channel, a.conns[k].channel);
    }
    var id := Take(s.conns[k].channel).value.0.id;
    DrainedIdIssued(a, k);
    UnknownIsSettled(a, k, id);
  }

  /** What is drained is a keepalive's answer, or is under an id that an attempt has issued and used. */
  lemma DrainedIdIssued(a: System, k: nat)
    requires Traced(a) && k < |a.conns| && Take(a.conns[k].channel).Some? && Take(a.conns[k].channel).value.0.Answered?
    ensures var id := Take(a.conns[k].channel).value.0.id;
            id == 0 || exists j: nat :: j < |a.attempts| && a.attempts[j].conn == k && Id(a.attempts[j].serial) == id
                                        && !a.attempts[j].stage.Issued?
  {
    hide Take, InFlight, Answerable;
    ChannelOf(a, k);
    TakeInFlight(a.conns[k].channel);
    var f := a.conns[k].channel.inbound[0].req;
    assert Attributed(a, k, f);
    if f != KEEPALIVE {
      var j: nat :| SentBy(a, k, f, j);
      assert Id(a.attempts[j].serial) == f.id;
    }
  }

  /** An id that has been used is out of the map exactly if its attempt is settled; 0 never was in it. */
  lemma UnknownIsSettled(a: System, k: nat, id: u32)
    requires Consistent(a) && NoWrap(a) && k < |a.conns|
    requires id == 0 || exists j: nat :: j < |a.attempts| && a.attempts[j].conn == k && Id(a.attempts[j].serial) == id
                                         && !a.attempts[j].stage.Issued?
    ensures id !in a.conns[k].demux <==> id == 0 || SettledId(a, k, id)
  {
    hide NoWrap, Id;
    if id in a.conns[k].demux {
      var i := a.conns[k].demux[id].0;
      assert EntryOk(a, k, id) && AttemptOk(a, i);
      IdsDistinct(a, i, i);
      if j: nat :| j < |a.attempts| && a.attempts[j].conn == k && Id(a.attempts[j].serial) == id
                   && !a.attempts[j].outcome.Open? {
        IdsDistinct(a, i, j);
      }
    } else if id != 0 {
      var j: nat :| j < |a.attempts| && a.attempts[j].conn == k && Id(a.attempts[j].serial) == id
                    && !a.attempts[j].stage.Issued?;
      assert AttemptOk(a, j);
    }
  }

  // ---- One frame per call ----

  /** While ids do not wrap around, a call uses one id and sends one frame, and never ends by a discarded sender. */
  lemma OneAttemptPerCall(s: System, i: nat, j: nat)
    requires Reachable(s) && NoWrap(s)
    requires i < |s.attempts| && j < |s.attempts| && s.attempts[i].call == s.attempts[j].call
    ensures i == j
  {
    hide Consistent, NoWrap, Reachable;
    ReachableInvariants(s);
    assert AttemptSpent(s, i) && AttemptSpent(s, j);
  }

  lemma NeverTimesOut(s: System, c: nat)
    requires Reachable(s) && NoWrap(s) && c < |s.calls|
    ensures s.calls[c].phase.Done? ==> !s.calls[c].phase.result.TimedOut?
  {
    hide Consistent, NoWrap, Reachable;
    ReachableInvariants(s);
    assert CallEnds(s, c);
  }

  /** A call is refused exactly for an empty payload, and gives up exactly when it has failed three times. */
  lemma HowCallsFail(s: System, c: nat)
    requires Reachable(s) && c < |s.calls|
    ensures s.calls[c].phase == Done(Invalid) <==> s.calls[c].payload == []
    ensures s.calls[c].failures >= 3
       <==> s.calls[c].phase == Done(Unreachable) || (s.calls[c].phase.Done? && s.calls[c].phase.result.TimedOut?)
  {
    hide Consistent, Reachable;
    ReachableInvariants(s);
    assert CallEnds(s, c);
  }

  // ---- Cleanup ----

  /** A cleanup expires exactly the attempts that wait on its connection since before the threshold. */
  lemma CleanupExpiresExactlyTheOld(s: System, k: nat, threshold: int, j: nat)
    requires Consistent(s) && k < |s.conns| && j < |s.attempts|
    ensures s.attempts[j].conn < |s.conns|
    ensures var t := CleanupStep(s, k, threshold).value;
            var overdue := s.attempts[j].conn == k && InDemux(s, j)
                           && s.conns[k].demux[Id(s.attempts[j].serial)].1 < threshold;
            t.attempts[j].outcome == if overdue then Expired else s.attempts[j].outcome
  {
    assert AttemptOk(s, j);
  }

  // ---- The pool ----

  /** No step takes a live slot's connection away from it. */
  lemma LiveSlotIsKept(s: System, l: Label, i: nat)
    requires Next(s, l).Some? && LiveSlot(s, i)
    ensures |Next(s, l).value.slots| == |s.slots| && Next(s, l).value.slots[i] == s.slots[i]
  {
    hide Step, Take, Enqueue, Pick, Stale;
  }

  /** Two slots never share a connection, so no two share a demux map, and the scan index is always in range. */
  lemma PoolIsSafe(s: System)
    requires Reachable(s)
    ensures s.slots != [] ==> s.next < |s.slots|
    ensures forall i :: 0 <= i < |s.slots| && s.slots[i].Some? ==> s.slots[i].value < |s.conns|
    ensures forall i, j :: 0 <= i < j < |s.slots| && s.slots[i].Some? ==> s.slots[i] != s.slots[j]
  {
    hide Reachable, Ended;
    ReachableInvariants(s);
  }
}
