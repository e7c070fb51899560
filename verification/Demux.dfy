/** The map from correlation ids to the one-shot senders of the calls that wait for them. */
module Demux {
  import opened Bytes

  // ---- Cleanup on values: the same functions describe the class below and the whole system ----

  /** The ids whose entries were stored before `threshold`. */
  function Stale<T>(m: map<u32, (T, int)>, threshold: int): (ids: set<u32>)
    ensures forall id :: id in ids <==> id in m && m[id].1 < threshold
  {
    set id | id in m && m[id].1 < threshold
  }

  function Remaining<T>(m: map<u32, (T, int)>, threshold: int): map<u32, (T, int)> {
    m - Stale(m, threshold)
  }

  // ---- The classes ----

  datatype SenderState = Waiting | Sent(body: Bytes) | Dropped

  /** A oneshot sender, as its receiver sees it: it completes at most once. */
  class Sender {
    var state: SenderState

    constructor ()
      ensures state == Waiting
    {
      state := Waiting;
    }

    method Send(body: Bytes)
      requires state == Waiting
      modifies this
      ensures state == Sent(body)
    {
      state := Sent(body);
    }

    method Drop()
      requires state == Waiting
      modifies this
      ensures state == Dropped
    {
      state := Dropped;
    }
  }

  class DemuxMap {
    var entries: map<u32, (Sender, int)>

    ghost function Senders(): set<object>
      reads this
    {
      set id | id in entries :: entries[id].0
    }

    /** Every sender in the map is still waiting and stands under one id only. */
    ghost predicate Valid()
      reads this, Senders()
    {
      && (forall id :: id in entries ==> entries[id].0.state == Waiting)
      && (forall i, j :: i in entries && j in entries && entries[i].0 == entries[j].0 ==> i == j)
    }

    constructor ()
      ensures Valid() && entries == map[]
    {
      entries := map[];
    }

    /** An entry already stored under the id is overwritten, which drops its sender. */
    method Store(corrId: u32, tx: Sender, sentAt: int)
      requires Valid() && tx.state == Waiting && tx !in Senders()
      modifies this, Senders()
      ensures Valid() && entries == old(entries)[corrId := (tx, sentAt)]
      ensures corrId in old(entries) ==> old(entries[corrId].0).state == Dropped
      ensures forall id :: id in old(entries) && id != corrId ==> old(entries[id].0).state == Waiting
    {
      if corrId in entries {
        entries[corrId].0.Drop();
      }
      entries := entries[corrId := (tx, sentAt)];
    }

    method LoadRemove(corrId: u32) returns (r: Option<(Sender, int)>)
      requires Valid()
      modifies this
      ensures Valid() && entries == old(entries) - {corrId}
      ensures r == if corrId in old(entries) then Some(old(entries)[corrId]) else None
      ensures r.Some? ==> r.value.0.state == Waiting && r.value.0 !in Senders()
    {
      if corrId !in entries {
        return None;
      }
      r := Some(entries[corrId]);
      entries := entries - {corrId};
    }

    /** The first loop of `cleanup`. */
    method CollectStale(threshold: int) returns (ids: seq<u32>)
      ensures forall id :: id in ids <==> id in Stale(entries, threshold)
    {
      ids := [];
      var unseen := entries.Keys;
      while unseen != {}
        invariant unseen <= entries.Keys
        invariant forall id :: id in ids <==> id in entries && id !in unseen && entries[id].1 < threshold
        decreases |unseen|
      {
        var id :| id in unseen;
        if entries[id].1 < threshold {
          ids := ids + [id];
        }
        unseen := unseen - {id};
      }
    }

    /** The second loop of `cleanup`: a listed id that is gone already is skipped. */
    method ExpireAll(ids: seq<u32>)
      requires Valid()
      modifies this, Senders()
      ensures Valid() && entries.Keys == old(entries).Keys - (set id | id in ids)
      ensures forall id :: id in entries ==> entries[id] == old(entries)[id]
      ensures forall id :: id in old(entries) ==> old(entries[id].0).state == if id in ids then Sent([]) else Waiting
    {
      ghost var all := entries;
      for i := 0 to |ids|
        invariant Valid() && entries.Keys == all.Keys - (set id | id in ids[..i])
        invariant forall id :: id in entries ==> entries[id] == all[id]
        invariant forall id :: id in all && id in ids[..i] ==> all[id].0.state == Sent([])
      {
        assert ids[..i + 1] == ids[..i] + [ids[i]];
        var removed := LoadRemove(ids[i]);
        if removed.Some? {
          assert forall id :: id in all && id in ids[..i] ==> all[id].0 != removed.value.0;
          removed.value.0.Send([]);
        }
      }
      assert ids[..|ids|] == ids;
    }

    /** Completes exactly the entries stored before `now - maxAge` with empty bytes, and takes exactly those out. */
    method Cleanup(now: int, maxAge: int)
      requires Valid()
      modifies this, Senders()
      ensures Valid() && entries == Remaining(old(entries), now - maxAge)
      ensures forall id :: id in old(entries) ==>
                old(entries[id].0).state == if id in Stale(old(entries), now - maxAge) then Sent([]) else Waiting
    {
      var threshold := now - maxAge;
      var timedOut := CollectStale(threshold);
      ExpireAll(timedOut);
    }
  }
}
