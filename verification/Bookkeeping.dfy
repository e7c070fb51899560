/** The invariant that ties slots, calls, attempts, ids and demux entries together, for every run at either level. */
module Bookkeeping {
  import opened Bytes
  import opened Channel
  import opened Multiplex

  // ---- The invariant ----

  predicate SlotsOk(s: System) {
    && (s.next < |s.slots| || (s.slots == [] && s.next == 0))
    && (forall i :: 0 <= i < |s.slots| && s.slots[i].Some? ==> s.slots[i].value < |s.conns|)
    && (forall i, j :: 0 <= i < j < |s.slots| && s.slots[i].Some? ==> s.slots[i] != s.slots[j])
  }

  predicate CallOk(s: System, c: nat)
    requires c < |s.calls|
  {
    match s.calls[c].phase
    case Picked(k) => k < |s.conns|
    case Awaiting(j) => j < |s.attempts| && s.attempts[j].call == c
    case _ => true
  }

  /** An attempt waits in the demux map, under its own id. */
  predicate InDemux(s: System, j: nat)
    requires j < |s.attempts| && s.attempts[j].conn < |s.conns|
  {
    var demux, id := s.conns[s.attempts[j].conn].demux, Id(s.attempts[j].serial);
    id in demux && demux[id].0 == j
  }

  /** Its connection's id number `serial` is its own, and it is in the demux map from `store` until it is settled. */
  predicate AttemptOk(s: System, j: nat)
    requires j < |s.attempts|
  {
    var a := s.attempts[j];
    && a.call < |s.calls| && a.conn < |s.conns|
    && 1 <= a.serial <= |s.conns[a.conn].owner| && s.conns[a.conn].owner[a.serial - 1] == j
    && (InDemux(s, j) <==> !a.stage.Issued? && a.outcome.Open?)
    && (a.stage.Issued? ==> a.outcome.Open?)
  }

  predicate OwnerOk(s: System, k: nat, n: nat)
    requires k < |s.conns| && n < |s.conns[k].owner|
  {
    var j := s.conns[k].owner[n];
    j < |s.attempts| && s.attempts[j].conn == k && s.attempts[j].serial == n + 1
  }

  predicate EntryOk(s: System, k: nat, id: u32)
    requires k < |s.conns| && id in s.conns[k].demux
  {
    var j := s.conns[k].demux[id].0;
    j < |s.attempts| && s.attempts[j].conn == k && Id(s.attempts[j].serial) == id
  }

  predicate CallsOk(s: System) {
    forall c :: 0 <= c < |s.calls| ==> CallOk(s, c)
  }

  predicate AttemptsOk(s: System) {
    forall j :: 0 <= j < |s.attempts| ==> AttemptOk(s, j)
  }

  predicate OwnersOk(s: System) {
    forall k, n :: 0 <= k < |s.conns| && 0 <= n < |s.conns[k].owner| ==> OwnerOk(s, k, n)
  }

  predicate EntriesOk(s: System) {
    forall k, id :: 0 <= k < |s.conns| && id in s.conns[k].demux ==> EntryOk(s, k, id)
  }

  predicate Consistent(s: System) {
    SlotsOk(s) && CallsOk(s) && AttemptsOk(s) && OwnersOk(s) && EntriesOk(s)
  }

  lemma StartConsistent(mode: Mode, level: Level, poolSize: nat)
    ensures Consistent(Start(mode, level, poolSize))
  {
  }

  // ---- Every step keeps it, and keeps the past ----

  /** No attempt, id or entry is touched; calls and connections may be added. */
  predicate SameBooks(s: System, t: System) {
    && t.attempts == s.attempts && |s.calls| <= |t.calls| && |s.conns| <= |t.conns|
    && (forall k :: 0 <= k < |s.conns| ==> t.conns[k].owner == s.conns[k].owner && t.conns[k].demux == s.conns[k].demux)
    && (forall k :: |s.conns| <= k < |t.conns| ==> t.conns[k].owner == [] && t.conns[k].demux == map[])
  }

  lemma SameBooksKeep(s: System, t: System)
    requires Consistent(s) && SameBooks(s, t)
    ensures AttemptsOk(t) && OwnersOk(t) && EntriesOk(t)
  {
    forall j | 0 <= j < |t.attempts|
      ensures AttemptOk(t, j)
    {
      assert AttemptOk(s, j);
    }
    forall k, n | 0 <= k < |t.conns| && 0 <= n < |t.conns[k].owner|
      ensures OwnerOk(t, k, n)
    {
      assert OwnerOk(s, k, n);
    }
    forall k, id | 0 <= k < |t.conns| && id in t.conns[k].demux
      ensures EntryOk(t, k, id)
    {
      assert EntryOk(s, k, id);
    }
  }

  /** Calls that no step changes stay in order. */
  lemma CallsKeep(s: System, t: System)
    requires Consistent(s) && |s.calls| <= |t.calls| && |s.conns| <= |t.conns| && |s.attempts| <= |t.attempts|
    requires forall j :: 0 <= j < |s.attempts| ==> t.attempts[j].call == s.attempts[j].call
    requires forall c :: 0 <= c < |t.calls| ==> (c < |s.calls| && t.calls[c] == s.calls[c]) || CallOk(t, c)
    ensures CallsOk(t)
  {
    forall c | 0 <= c < |t.calls|
      ensures CallOk(t, c)
    {
      if c < |s.calls| {
        assert CallOk(s, c);
      }
    }
  }

  lemma BeginKeeps(s: System, segment: Bytes, isWrite: bool, payload: Bytes)
    requires Consistent(s)
    ensures var t := BeginStep(s, segment, isWrite, payload); Consistent(t) && Kept(s, t)
  {
    var t := BeginStep(s, segment, isWrite, payload);
    SameBooksKeep(s, t);
    CallsKeep(s, t);
  }

  lemma ChooseKeeps(s: System, c: nat)
    requires Consistent(s) && ChooseStep(s, c).Some?
    ensures var t := ChooseStep(s, c).value; Consistent(t) && Kept(s, t)
  {
    var t := ChooseStep(s, c).value;
    SameBooksKeep(s, t);
    CallsKeep(s, t);
  }

  lemma ReturnKeeps(s: System, c: nat)
    requires Consistent(s) && ReturnStep(s, c).Some?
    ensures var t := ReturnStep(s, c).value; Consistent(t) && Kept(s, t)
  {
    var t := ReturnStep(s, c).value;
    SameBooksKeep(s, t);
    CallsKeep(s, t);
  }

  lemma TakeIdKeeps(s: System, c: nat)
    requires Consistent(s) && TakeIdStep(s, c).Some?
    ensures var t := TakeIdStep(s, c).value; Consistent(t) && Kept(s, t)
  {
    var t := TakeIdStep(s, c).value;
    var k := s.calls[c].phase.conn;
    CallsKeep(s, t);
    if s.conns[k].closed {
      SameBooksKeep(s, t);
    } else {
      forall j | 0 <= j < |t.attempts|
        ensures AttemptOk(t, j)
      {
        if j < |s.attempts| {
          assert AttemptOk(s, j);
        } else {
          assert Id(t.attempts[j].serial) in s.conns[k].demux ==> EntryOk(s, k, Id(t.attempts[j].serial));
        }
      }
      forall k, n | 0 <= k < |t.conns| && 0 <= n < |t.conns[k].owner|
        ensures OwnerOk(t, k, n)
      {
        if n < |s.conns[k].owner| {
          assert OwnerOk(s, k, n);
        }
      }
      forall k, id | 0 <= k < |t.conns| && id in t.conns[k].demux
        ensures EntryOk(t, k, id)
      {
        assert EntryOk(s, k, id);
      }
    }
  }

  /** Only the channel, the flags and the log of connection `k` change. */
  lemma ConnStepKeeps(s: System, t: System, k: nat)
    requires Consistent(s) && k < |s.conns| && t == s.(conns := t.conns)
    requires |t.conns| == |s.conns| && t.conns == s.conns[k := t.conns[k]]
    requires t.conns[k].owner == s.conns[k].owner && t.conns[k].demux == s.conns[k].demux
    requires ConnKept(s.conns[k], t.conns[k])
    ensures Consistent(t) && Kept(s, t)
  {
    SameBooksKeep(s, t);
    CallsKeep(s, t);
  }

  lemma TransportKeeps(s: System, k: nat, move: Move)
    requires Consistent(s) && TransportStep(s, k, move).Some?
    ensures var t := TransportStep(s, k, move).value; Consistent(t) && Kept(s, t)
  {
    hide Step;
    ConnStepKeeps(s, TransportStep(s, k, move).value, k);
  }

  lemma ReconnectKeeps(s: System, i: nat)
    requires Consistent(s) && ReconnectStep(s, i).Some?
    ensures var t := ReconnectStep(s, i).value; Consistent(t) && Kept(s, t)
  {
    var t := ReconnectStep(s, i).value;
    SameBooksKeep(s, t);
    CallsKeep(s, t);
  }

  /** Ids are not reassigned: stages and outcomes of attempts and the demux map of connection `k` may change. */
  predicate SameIds(s: System, t: System, k: nat) {
    && t.calls == s.calls && |t.conns| == |s.conns| && |t.attempts| == |s.attempts| && k < |s.conns|
    && (forall i :: 0 <= i < |s.conns| ==> t.conns[i].owner == s.conns[i].owner)
    && (forall i :: 0 <= i < |s.conns| && i != k ==> t.conns[i].demux == s.conns[i].demux)
    && (forall j :: 0 <= j < |s.attempts| ==>
          && t.attempts[j].call == s.attempts[j].call && t.attempts[j].conn == s.attempts[j].conn
          && t.attempts[j].serial == s.attempts[j].serial)
    && (forall j :: 0 <= j < |s.attempts| && s.attempts[j].conn != k ==> t.attempts[j] == s.attempts[j])
  }

  lemma SameIdsKeep(s: System, t: System, k: nat)
    requires Consistent(s) && SameIds(s, t, k)
    requires forall id :: id in t.conns[k].demux ==> EntryOk(t, k, id)
    requires forall j :: 0 <= j < |t.attempts| && t.attempts[j].conn == k ==> AttemptOk(t, j)
    ensures CallsOk(t) && AttemptsOk(t) && OwnersOk(t) && EntriesOk(t)
  {
    CallsKeep(s, t);
    forall j | 0 <= j < |t.attempts|
      ensures AttemptOk(t, j)
    {
      assert AttemptOk(s, j);
    }
    forall i, n | 0 <= i < |t.conns| && 0 <= n < |t.conns[i].owner|
      ensures OwnerOk(t, i, n)
    {
      assert OwnerOk(s, i, n);
    }
    forall i, id | 0 <= i < |t.conns| && id in t.conns[i].demux
      ensures EntryOk(t, i, id)
    {
      if i != k {
        assert EntryOk(s, i, id);
      }
    }
  }

  predicate OtherOpen(s: System, i: nat, j: nat) {
    i != j && i < |s.attempts| && AttemptOk(s, i) && s.attempts[i].outcome.Open?
  }

  /** The entry a `store` overwrites, if any, belongs to another attempt, which is still open. */
  lemma Overwritten(s: System, j: nat)
    requires Consistent(s) && j < |s.attempts| && s.attempts[j].stage.Issued?
    ensures AttemptOk(s, j)
    ensures var k, id := s.attempts[j].conn, Id(s.attempts[j].serial);
            id in s.conns[k].demux ==> EntryOk(s, k, id) && OtherOpen(s, s.conns[k].demux[id].0, j)
  {
    assert AttemptOk(s, j);
    var k, id := s.attempts[j].conn, Id(s.attempts[j].serial);
    if id in s.conns[k].demux {
      assert EntryOk(s, k, id);
      assert AttemptOk(s, s.conns[k].demux[id].0);
    }
  }

  lemma StoreKeepsAttempts(s: System, j: nat, now: int)
    requires Consistent(s) && StoreStep(s, j, now).Some?
    ensures var t := StoreStep(s, j, now).value;
            && (forall i :: 0 <= i < |s.attempts| ==> AttemptKept(s.attempts[i], t.attempts[i]))
            && (forall i :: 0 <= i < |t.attempts| && t.attempts[i].conn == s.attempts[j].conn ==> AttemptOk(t, i))
  {
    hide Id, CallsOk, SlotsOk, OwnersOk;
    var t := StoreStep(s, j, now).value;
    Overwritten(s, j);
    forall i | 0 <= i < |t.attempts|
      ensures AttemptKept(s.attempts[i], t.attempts[i])
      ensures t.attempts[i].conn == s.attempts[j].conn ==> AttemptOk(t, i)
    {
      assert AttemptOk(s, i);
    }
  }

  lemma StoreKeeps(s: System, j: nat, now: int)
    requires Consistent(s) && StoreStep(s, j, now).Some?
    ensures var t := StoreStep(s, j, now).value; Consistent(t) && Kept(s, t)
  {
    hide AttemptOk;
    var t := StoreStep(s, j, now).value;
    var k, id := s.attempts[j].conn, Id(s.attempts[j].serial);
    Overwritten(s, j);
    StoreKeepsAttempts(s, j, now);
    forall i | i in t.conns[k].demux
      ensures EntryOk(t, k, i)
    {
      if i != id {
        assert EntryOk(s, k, i);
      }
    }
    SameIdsKeep(s, t, k);
  }

  lemma SendKeeps(s: System, j: nat)
    requires Consistent(s) && SendStep(s, j).Some?
    ensures var t := SendStep(s, j).value; Consistent(t) && Kept(s, t)
  {
    hide Enqueue;
    var t := SendStep(s, j).value;
    var k := s.attempts[j].conn;
    forall i | i in t.conns[k].demux
      ensures EntryOk(t, k, i)
    {
      assert EntryOk(s, k, i);
    }
    forall i | 0 <= i < |t.attempts| && t.attempts[i].conn == k
      ensures AttemptOk(t, i)
    {
      assert AttemptOk(s, i);
    }
    SameIdsKeep(s, t, k);
  }

  lemma CompleteKeepsAttempts(s: System, k: nat, id: u32, body: Bytes, t: System)
    requires Consistent(s) && k < |s.conns| && id in s.conns[k].demux
    requires t == s.(conns := t.conns, attempts := Settle(s.attempts, s.conns[k].demux[id].0, Completed(body)))
    requires |t.conns| == |s.conns| && t.conns == s.conns[k := t.conns[k]]
    requires t.conns[k].owner == s.conns[k].owner && t.conns[k].demux == s.conns[k].demux - {id}
    ensures forall i :: 0 <= i < |s.attempts| ==> AttemptKept(s.attempts[i], t.attempts[i])
    ensures forall i :: 0 <= i < |t.attempts| && t.attempts[i].conn == k ==> AttemptOk(t, i)
    ensures SameIds(s, t, k)
  {
    hide Id, CallsOk, SlotsOk, OwnersOk;
    assert EntryOk(s, k, id);
    assert AttemptOk(s, s.conns[k].demux[id].0);
    forall i | 0 <= i < |t.attempts|
      ensures AttemptKept(s.attempts[i], t.attempts[i])
      ensures t.attempts[i].conn == k ==> AttemptOk(t, i)
    {
      assert AttemptOk(s, i);
    }
  }

  lemma DeliverKeeps(s: System, k: nat)
    requires Consistent(s) && DeliverStep(s, k).Some?
    ensures var t := DeliverStep(s, k).value; Consistent(t) && Kept(s, t)
  {
    hide Take, AttemptOk;
    var t := DeliverStep(s, k).value;
    var conn := s.conns[k];
    if t.conns[k].demux == conn.demux {
      ConnStepKeeps(s, t, k);
    } else {
      var arrival := Take(conn.channel).value.0;
      CompleteKeepsAttempts(s, k, arrival.id, arrival.body, t);
      forall i | i in t.conns[k].demux
        ensures EntryOk(t, k, i)
      {
        assert EntryOk(s, k, i);
      }
      SameIdsKeep(s, t, k);
    }
  }

  lemma CleanupKeeps(s: System, k: nat, threshold: int)
    requires Consistent(s) && CleanupStep(s, k, threshold).Some?
    ensures var t := CleanupStep(s, k, threshold).value; Consistent(t) && Kept(s, t)
  {
    var t := CleanupStep(s, k, threshold).value;
    forall i | i in t.conns[k].demux
      ensures EntryOk(t, k, i)
    {
      assert EntryOk(s, k, i);
    }
    forall i | 0 <= i < |t.attempts|
      ensures AttemptKept(s.attempts[i], t.attempts[i]) && (t.attempts[i].conn == k ==> AttemptOk(t, i))
    {
      assert AttemptOk(s, i);
    }
    SameIdsKeep(s, t, k);
  }

  lemma StepKeeps(s: System, l: Label)
    requires Consistent(s) && Next(s, l).Some?
    ensures Consistent(Next(s, l).value) && Kept(s, Next(s, l).value)
  {
    hide Consistent, Kept, BeginStep, ChooseStep, TakeIdStep, StoreStep, SendStep, ReturnStep, TransportStep,
         DeliverStep, ReconnectStep, CleanupStep, Enqueue;
    match l
    case Begin(segment, isWrite, payload) => BeginKeeps(s, segment, isWrite, payload);
    case Choose(c) => ChooseKeeps(s, c);
    case TakeId(c) => TakeIdKeeps(s, c);
    case Store(j, now) => StoreKeeps(s, j, now);
    case Send(j) => SendKeeps(s, j);
    case Return(c) => ReturnKeeps(s, c);
    case Transport(k, move) => TransportKeeps(s, k, move);
    case Deliver(k) => DeliverKeeps(s, k);
    case StopReading(k) => ConnStepKeeps(s, Next(s, l).value, k);
    case Close(k) => ConnStepKeeps(s, Next(s, l).value, k);
    case KeepAlive(k) => ConnStepKeeps(s, Next(s, l).value, k);
    case Reconnect(i) => ReconnectKeeps(s, i);
    case Cleanup(k, threshold) => CleanupKeeps(s, k, threshold);
  }

  // ---- Runs ----

  /** Along every run the invariant holds, and nothing of the past is undone: outcomes, for one, are final. */
  lemma {:induction false} RunConsistent(s: System, ls: seq<Label>)
    requires Consistent(s) && Run(s, ls).Some?
    ensures Consistent(Run(s, ls).value) && Kept(s, Run(s, ls).value)
    decreases |ls|
  {
    hide Consistent, Kept, Next;
    if ls == [] {
      KeptSelf(s);
    } else {
      StepKeeps(s, ls[0]);
      var t := Next(s, ls[0]).value;
      RunConsistent(t, ls[1..]);
      KeptTrans(s, t, Run(t, ls[1..]).value);
    }
  }

  lemma KeptSelf(s: System)
    ensures Kept(s, s)
  {
  }
}
