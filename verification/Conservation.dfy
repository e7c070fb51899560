/** Where the ids of a connection have gone: each issued one has exactly one fate, and the counts add up. */
module Conservation {
  import opened Bytes
  import opened Multiplex
  import opened Bookkeeping
  import opened Outcomes
  import opened Safety

  datatype Fate = NotStored | Pending | Answered | Cleaned | Overwritten

  function FateOf(a: Attempt): Fate {
    if a.stage.Issued? then NotStored
    else match a.outcome
      case Open => Pending
      case Completed(_) => Answered
      case Expired => Cleaned
      case Discarded => Overwritten
  }

  /** The fates of the ids of connection `k`, in the order in which they were issued. */
  function Fates(s: System, k: nat): (fates: seq<Fate>)
    requires Consistent(s) && k < |s.conns|
    ensures |fates| == |s.conns[k].owner|
  {
    seq(|s.conns[k].owner|, n requires 0 <= n < |s.conns[k].owner| =>
      assert OwnerOk(s, k, n);
      FateOf(s.attempts[s.conns[k].owner[n]]))
  }

  function At(fates: seq<Fate>, fate: Fate): set<nat> {
    set n: nat | n < |fates| && fates[n] == fate
  }

  function Anywhere(fates: seq<Fate>): set<nat> {
    At(fates, NotStored) + At(fates, Pending) + At(fates, Answered) + At(fates, Cleaned) + At(fates, Overwritten)
  }

  /** Every position has one fate. */
  lemma FatesPartition(fates: seq<Fate>)
    ensures forall i: nat :: i in Anywhere(fates) <==> i < |fates|
    ensures At(fates, NotStored) !! At(fates, Pending) !! At(fates, Answered)
         !! At(fates, Cleaned) !! At(fates, Overwritten)
  {
  }

  lemma CountFates(fates: seq<Fate>)
    ensures |fates| == |At(fates, NotStored)| + |At(fates, Pending)| + |At(fates, Answered)| + |At(fates, Cleaned)|
                       + |At(fates, Overwritten)|
  {
    hide At;
    var a, b := At(fates, NotStored), At(fates, Pending);
    var c, d, e := At(fates, Answered), At(fates, Cleaned), At(fates, Overwritten);
    FatesPartition(fates);
    CountBelow(Anywhere(fates), |fates|);
    CountParts(a, b, c, d, e);
  }

  lemma CountParts<T>(a: set<T>, b: set<T>, c: set<T>, d: set<T>, e: set<T>)
    requires a !! b !! c !! d !! e
    ensures |a + b + c + d + e| == |a| + |b| + |c| + |d| + |e|
  {
  }

  lemma {:induction false} CountBelow(xs: set<nat>, n: nat)
    requires forall i: nat :: i in xs <==> i < n
    ensures |xs| == n
  {
    if n == 0 {
      assert xs == {};
    } else {
      CountBelow(xs - {n - 1}, n - 1);
    }
  }

  /** A position is pending exactly when its id is in the demux map with its attempt. */
  lemma PendingIffInDemux(s: System, k: nat, n: nat)
    requires Consistent(s) && k < |s.conns| && n < |s.conns[k].owner|
    ensures Fates(s, k)[n] == Pending <==>
              Id(n + 1) in s.conns[k].demux && s.conns[k].demux[Id(n + 1)].0 == s.conns[k].owner[n]
  {
    assert OwnerOk(s, k, n) && AttemptOk(s, s.conns[k].owner[n]);
  }

  /** Which position a pending id has. */
  function Position(s: System, k: nat, id: u32): (n: nat)
    requires Consistent(s) && k < |s.conns| && id in s.conns[k].demux
    ensures n < |s.conns[k].owner| && s.conns[k].owner[n] == s.conns[k].demux[id].0 && Id(n + 1) == id
    ensures Fates(s, k)[n] == Pending
  {
    assert EntryOk(s, k, id) && AttemptOk(s, s.conns[k].demux[id].0);
    var n := s.attempts[s.conns[k].demux[id].0].serial - 1;
    PendingIffInDemux(s, k, n);
    n
  }

  /** Two sets that map into each other, back and forth, are of one size. */
  lemma {:induction false} SameSize(ids: set<u32>, ns: set<nat>, position: map<u32, nat>)
    requires position.Keys == ids
    requires forall id :: id in ids ==> position[id] in ns
    requires forall i, j :: i in ids && j in ids && position[i] == position[j] ==> i == j
    requires forall n :: n in ns ==> exists id :: id in ids && position[id] == n
    ensures |ids| == |ns|
    decreases |ids|
  {
    if ids == {} {
      assert ns == {};
    } else {
      var id :| id in ids;
      var rest := position - {id};
      assert rest.Keys == ids - {id};
      forall n | n in ns - {position[id]}
        ensures exists i :: i in ids - {id} && rest[i] == n
      {
        var i :| i in ids && position[i] == n;
        assert rest[i] == n;
      }
      SameSize(ids - {id}, ns - {position[id]}, rest);
    }
  }

  /** The demux map holds exactly the pending ids: one entry for each. */
  lemma DemuxHoldsThePending(s: System, k: nat)
    requires Consistent(s) && k < |s.conns|
    ensures |s.conns[k].demux| == |At(Fates(s, k), Pending)|
  {
    hide Consistent, FateOf, Fates, Id;
    var ids, ns := s.conns[k].demux.Keys, At(Fates(s, k), Pending);
    var position := map id | id in ids :: Position(s, k, id);
    forall n | n in ns
      ensures exists id :: id in ids && position[id] == n
    {
      PendingIffInDemux(s, k, n);
      SamePosition(s, k, n);
      assert position[Id(n + 1)] == n;
    }
    SameSize(ids, ns, position);
  }

  lemma SamePosition(s: System, k: nat, n: nat)
    requires Consistent(s) && k < |s.conns| && n < |s.conns[k].owner|
    requires Id(n + 1) in s.conns[k].demux && s.conns[k].demux[Id(n + 1)].0 == s.conns[k].owner[n]
    ensures Position(s, k, Id(n + 1)) == n
  {
    assert OwnerOk(s, k, n);
  }

  /** In every reachable state: ids issued = not stored yet + in the map + answered + cleaned up + overwritten. */
  lemma IdsAreConserved(s: System, k: nat)
    requires Reachable(s) && k < |s.conns|
    ensures Consistent(s)
    ensures var fates := Fates(s, k);
            |s.conns[k].owner| == |At(fates, NotStored)| + |s.conns[k].demux| + |At(fates, Answered)|
                                  + |At(fates, Cleaned)| + |At(fates, Overwritten)|
  {
    hide Consistent, Fates, At, Reachable;
    ReachableInvariants(s);
    DemuxHoldsThePending(s, k);
    CountFates(Fates(s, k));
  }

  /** While ids do not wrap around, none is overwritten, and four fates are left. */
  lemma IdsAreConservedWithoutWrap(s: System, k: nat)
    requires Reachable(s) && NoWrap(s) && k < |s.conns|
    ensures Consistent(s)
    ensures var fates := Fates(s, k);
            |s.conns[k].owner| == |At(fates, NotStored)| + |s.conns[k].demux| + |At(fates, Answered)|
                                  + |At(fates, Cleaned)|
  {
    hide Reachable, NoWrap;
    ReachableInvariants(s);
    forall n | 0 <= n < |Fates(s, k)|
      ensures Fates(s, k)[n] != Overwritten
    {
      assert OwnerOk(s, k, n);
    }
    hide Consistent, Fates, Ended;
    IdsAreConserved(s, k);
    assert At(Fates(s, k), Overwritten) == {};
  }
}
