/** What the flags mean over whole runs, and what one step does as a caller sees it. Both levels. */
module Effects {
  import opened Bytes
  import opened Framing
  import opened Channel
  import opened Demux
  import opened RoundRobin
  import opened Multiplex
  import opened Bookkeeping

  // ---- Reading ----

  /**
   * A delivery over bytes does what one turn of the read loop does: whatever cannot be drained, and any id without an
   * entry, ends reading; an entry is taken out and its attempt, and no other, completed with the payload.
   */
  lemma DeliverIsReadTurn(s: System, k: nat)
    requires Consistent(s) && k < |s.conns| && s.conns[k].channel.Octets?
    ensures var d := Drain(s.conns[k].channel.buf);
            Next(s, Deliver(k)).Some? <==> s.conns[k].reading && d != Bad(ShortFrame)
    ensures Next(s, Deliver(k)).Some? ==>
      var t, conn, d := Next(s, Deliver(k)).value, s.conns[k], Drain(s.conns[k].channel.buf);
      && |t.conns| == |s.conns| && t == s.(conns := s.conns[k := t.conns[k]], attempts := t.attempts)
      && if d.Bad? then !t.conns[k].reading && t.conns[k].demux == conn.demux && t.attempts == s.attempts
         else
           && t.conns[k].channel == conn.channel.(buf := d.rest)
           && t.conns[k].reading == (d.header.clrId in conn.demux)
           && t.conns[k].demux == conn.demux - {d.header.clrId}
           && if d.header.clrId !in conn.demux then t.attempts == s.attempts
              else
                var j := conn.demux[d.header.clrId].0;
                j < |s.attempts| && t.attempts == s.attempts[j := s.attempts[j].(outcome := Completed(d.payload))]
  {
    hide Drain;
    var conn, d := s.conns[k], Drain(s.conns[k].channel.buf);
    if d.Got? && d.header.clrId in conn.demux {
      assert EntryOk(s, k, d.header.clrId);
    }
  }

  /** The last turn of a read loop: told to stop, or met with bytes or an id it can do nothing with. */
  predicate EndsReading(s: System, l: Label, k: nat) {
    && k < |s.conns|
    && (l == StopReading(k)
        || (l == Deliver(k) && Take(s.conns[k].channel).Some?
            && match Take(s.conns[k].channel).value.0
               case Garbled => true
               case Answered(id, _) => id !in s.conns[k].demux))
  }

  /** Attempts on connection `k` have completed no further than they had. */
  predicate NoneCompleted(s: System, t: System, k: nat) {
    forall j :: 0 <= j < |t.attempts| && t.attempts[j].conn == k && t.attempts[j].outcome.Completed? ==>
      j < |s.attempts| && s.attempts[j].outcome == t.attempts[j].outcome
  }

  lemma StepCompletesNone(s: System, l: Label, k: nat)
    requires Consistent(s) && k < |s.conns| && Next(s, l).Some? && (!s.conns[k].reading || EndsReading(s, l, k))
    ensures k < |Next(s, l).value.conns| && !Next(s, l).value.conns[k].reading && NoneCompleted(s, Next(s, l).value, k)
    ensures !s.conns[k].reading ==> l != Deliver(k)
  {
    hide Step, Take, Enqueue, Pick, Stale, RequestOf, CallsOk, SlotsOk, OwnersOk, AttemptsOk;
    if l.Deliver? && l.conn != k {
      var arrival := Take(s.conns[l.conn].channel).value.0;
      if arrival.Answered? && arrival.id in s.conns[l.conn].demux {
        assert EntryOk(s, l.conn, arrival.id);
      }
    }
  }

  lemma {:induction false} StoppedForGood(s: System, k: nat, ls: seq<Label>)
    requires Consistent(s) && k < |s.conns| && !s.conns[k].reading && Run(s, ls).Some?
    ensures Deliver(k) !in ls && NoneCompleted(s, Run(s, ls).value, k)
    decreases |ls|
  {
    hide Consistent, Next, NoneCompleted;
    if ls == [] {
      CompletedSame(s, k);
    } else {
      var t := Next(s, ls[0]).value;
      StepKeeps(s, ls[0]);
      StepCompletesNone(s, ls[0], k);
      StoppedForGood(t, k, ls[1..]);
      RunConsistent(t, ls[1..]);
      assert ls == [ls[0]] + ls[1..];
      CompletedThrough(s, t, Run(t, ls[1..]).value, k);
    }
  }

  lemma CompletedSame(s: System, k: nat)
    ensures NoneCompleted(s, s, k)
  {
  }

  lemma CompletedThrough(s: System, t: System, u: System, k: nat)
    requires NoneCompleted(s, t, k) && NoneCompleted(t, u, k) && Kept(s, t) && Kept(t, u)
    ensures NoneCompleted(s, u, k)
  {
  }

  /**
   * An answer that cannot be read or has an unknown id is the last thing a connection's read loop does: in every
   * continuation nothing is delivered on it any more, and no attempt on it completes.
   */
  lemma NothingAfterTheLastTurn(s: System, l: Label, k: nat, ls: seq<Label>)
    requires Consistent(s) && EndsReading(s, l, k) && Run(s, [l] + ls).Some?
    ensures Deliver(k) !in ls && NoneCompleted(s, Run(s, [l] + ls).value, k)
  {
    hide Consistent, Next, NoneCompleted, EndsReading;
    assert ([l] + ls)[1..] == ls;
    var t := Next(s, l).value;
    LastTurnConn(s, l, k);
    StepKeeps(s, l);
    StepCompletesNone(s, l, k);
    StoppedForGood(t, k, ls);
    RunConsistent(t, ls);
    CompletedThrough(s, t, Run(t, ls).value, k);
  }

  lemma LastTurnConn(s: System, l: Label, k: nat)
    requires EndsReading(s, l, k)
    ensures k < |s.conns|
  {
  }

  // ---- Writing ----

  lemma StepOnDead(s: System, l: Label, k: nat)
    requires k < |s.conns| && Next(s, l).Some?
    requires !s.conns[k].channel.alive || (l.Transport? && l.conn == k && l.move.WriteFail?)
    ensures k < |Next(s, l).value.conns| && !Next(s, l).value.conns[k].channel.alive
    ensures !s.conns[k].channel.alive ==> !(l.Transport? && l.conn == k && (l.move.Write? || l.move.WriteFail?))
  {
    hide Drain, FrameBytes, Pick, Stale, ReadFrame;
  }

  lemma {:induction false} RunOnDead(s: System, k: nat, ls: seq<Label>)
    requires k < |s.conns| && !s.conns[k].channel.alive && Run(s, ls).Some?
    ensures Transport(k, Write) !in ls && forall n :: Transport(k, WriteFail(n)) !in ls
    decreases |ls|
  {
    hide Next;
    if ls != [] {
      StepOnDead(s, ls[0], k);
      RunOnDead(Next(s, ls[0]).value, k, ls[1..]);
      assert ls == [ls[0]] + ls[1..];
    }
  }

  /** A write loop that has failed to write writes nothing more. */
  lemma NoWriteAfterFailure(s: System, k: nat, n: nat, ls: seq<Label>)
    requires Run(s, [Transport(k, WriteFail(n))] + ls).Some?
    ensures Transport(k, Write) !in ls && forall m :: Transport(k, WriteFail(m)) !in ls
  {
    var l := Transport(k, WriteFail(n));
    assert ([l] + ls)[1..] == ls;
    TransportNeedsConn(s, l);
    hide Next;
    StepOnDead(s, l, k);
    RunOnDead(Next(s, l).value, k, ls);
  }

  lemma TransportNeedsConn(s: System, l: Label)
    requires l.Transport? && Next(s, l).Some?
    ensures l.conn < |s.conns|
  {
  }

  // ---- Closing and reconnecting ----

  lemma StepOnClosed(s: System, l: Label, k: nat)
    requires k < |s.conns| && (s.conns[k].closed || l == Close(k)) && Next(s, l).Some?
    ensures var t := Next(s, l).value; k < |t.conns| && t.conns[k].closed && t.conns[k].owner == s.conns[k].owner
  {
    hide Step, Take, Enqueue, Pick, Stale;
  }

  lemma {:induction false} RunOnClosed(s: System, k: nat, ls: seq<Label>)
    requires k < |s.conns| && s.conns[k].closed && Run(s, ls).Some?
    ensures var t := Run(s, ls).value; k < |t.conns| && t.conns[k].closed && t.conns[k].owner == s.conns[k].owner
    decreases |ls|
  {
    hide Next;
    if ls != [] {
      StepOnClosed(s, ls[0], k);
      RunOnClosed(Next(s, ls[0]).value, k, ls[1..]);
    }
  }

  /** A connection that has been closed stays closed and issues no further id. */
  lemma NoIdsAfterClose(s: System, k: nat, ls: seq<Label>)
    requires k < |s.conns| && Run(s, [Close(k)] + ls).Some?
    ensures var t := Run(s, [Close(k)] + ls).value;
            k < |t.conns| && t.conns[k].closed && t.conns[k].owner == s.conns[k].owner
  {
    hide Next;
    assert ([Close(k)] + ls)[1..] == ls;
    StepOnClosed(s, Close(k), k);
    RunOnClosed(Next(s, Close(k)).value, k, ls);
  }

  /** Only an empty slot or one with a closed connection can be reconnected; it gets a connection without a past. */
  lemma ReconnectIffDead(s: System, i: nat)
    requires Consistent(s)
    ensures Next(s, Reconnect(i)).Some?
       <==> i < |s.slots| && (s.slots[i].None? || s.conns[s.slots[i].value].closed)
    ensures Next(s, Reconnect(i)).Some? ==>
      var t, k := Next(s, Reconnect(i)).value, |s.conns|;
      && t == s.(slots := s.slots[i := Some(k)], conns := s.conns + [t.conns[k]]) && |t.conns| == k + 1
      && !t.conns[k].closed && t.conns[k].reading && t.conns[k].demux == map[] && t.conns[k].owner == []
      && t.conns[k].log == [] && t.conns[k].channel.alive && t.conns[k].channel.backlog == multiset{}
      && match t.conns[k].channel
         case Messages(queue, wire, _, inbound, _) => queue == [] && wire == [] && inbound == []
         case Octets(queue, outbound, _, inFlight, buf, _) => queue == [] && outbound == inFlight == buf == []
  {
    hide CallsOk, AttemptsOk, OwnersOk, EntriesOk;
  }

  // ---- Choosing ----

  /** A scan gives the call a slot's connection that is not closed; it fails exactly when every slot is dead. */
  lemma ChoosesOpenConnection(s: System, c: nat)
    requires Consistent(s) && Next(s, Choose(c)).Some?
    ensures var t := Next(s, Choose(c)).value;
            && c < |s.calls| && |t.calls| == |s.calls| && t == s.(next := t.next, calls := s.calls[c := t.calls[c]])
            && (t.calls[c].phase.Picked? ==>
                  var k := t.calls[c].phase.conn;
                  && Some(k) in s.slots && k < |s.conns| && !s.conns[k].closed
                  && t.calls[c] == s.calls[c].(phase := Picked(k)))
            && (!t.calls[c].phase.Picked? ==>
                  t.calls[c] == s.calls[c].(failures := s.calls[c].failures + 1,
                                            phase := if s.calls[c].failures >= 2 then Done(Unreachable) else Choosing))
    ensures Next(s, Choose(c)).value.calls[c].phase.Picked?
       <==> exists i :: 0 <= i < |s.slots| && s.slots[i].Some? && !s.conns[s.slots[i].value].closed
  {
    hide Pick, CallsOk, AttemptsOk, OwnersOk, EntriesOk;
    NoneIffNoneLive(Live(s), s.next);
    var found := Pick(Live(s), s.next).0;
    if found.Some? {
      assert LiveSlot(s, found.value);
    } else {
      forall i | 0 <= i < |s.slots| && s.slots[i].Some?
        ensures s.conns[s.slots[i].value].closed
      {
        assert !Live(s)[i];
      }
    }
  }

  /** A call that finds every slot dead fails at the third look, and not before. */
  lemma GivesUpAfterThree(s: System, segment: Bytes, isWrite: bool, payload: Bytes) returns (ts: seq<System>)
    requires Consistent(s) && payload != []
    requires forall i :: 0 <= i < |s.slots| ==> s.slots[i].None? || s.conns[s.slots[i].value].closed
    ensures |ts| == 4 && Next(s, Begin(segment, isWrite, payload)) == Some(ts[0])
    ensures var c := |s.calls|;
            && Next(ts[0], Choose(c)) == Some(ts[1]) && Next(ts[1], Choose(c)) == Some(ts[2])
            && Next(ts[2], Choose(c)) == Some(ts[3])
            && (forall i :: 0 <= i < 4 ==> |ts[i].calls| == c + 1)
            && ts[0].calls[c].phase == ts[1].calls[c].phase == ts[2].calls[c].phase == Choosing
            && ts[3].calls[c].phase == Done(Unreachable)
  {
    hide Consistent, Pick;
    var c := |s.calls|;
    var s0 := Next(s, Begin(segment, isWrite, payload)).value;
    StepKeeps(s, Begin(segment, isWrite, payload));
    var s1 := LooksInVain(s0, c);
    var s2 := LooksInVain(s1, c);
    var s3 := LooksInVain(s2, c);
    ts := [s0, s1, s2, s3];
  }

  lemma LooksInVain(s: System, c: nat) returns (t: System)
    requires Consistent(s) && c < |s.calls| && s.calls[c].phase.Choosing?
    requires forall i :: 0 <= i < |s.slots| ==> s.slots[i].None? || s.conns[s.slots[i].value].closed
    ensures Next(s, Choose(c)) == Some(t) && Consistent(t) && t.slots == s.slots && t.conns == s.conns
    ensures |t.calls| == |s.calls| && t.calls[c].failures == s.calls[c].failures + 1
    ensures t.calls[c].phase == if s.calls[c].failures >= 2 then Done(Unreachable) else Choosing
  {
    hide Pick;
    t := Next(s, Choose(c)).value;
    StepKeeps(s, Choose(c));
    ChoosesOpenConnection(s, c);
  }
}
