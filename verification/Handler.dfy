/** The pool as an object: its slots, the shared round-robin index, and the reconnect pass. */
module Handler {
  import opened Bytes
  import opened Demux
  import opened RoundRobin
  import C = Connection

  ghost function Connections(slots: seq<Option<C.Connection>>): set<object> {
    set i | 0 <= i < |slots| && slots[i].Some? :: slots[i].value
  }

  /** Which slots hold a connection that is not closed. */
  ghost function Live(slots: seq<Option<C.Connection>>): (live: seq<bool>)
    reads Connections(slots)
    ensures |live| == |slots| && forall i :: 0 <= i < |live| ==> live[i] == (slots[i].Some? && !slots[i].value.closed)
  {
    seq(|slots|, i requires 0 <= i < |slots| reads Connections(slots) => slots[i].Some? && !slots[i].value.closed)
  }

  lemma NoSlots(live: seq<bool>, idx: nat)
    requires idx < |live| || (live == [] && idx == 0)
    ensures live == [] ==> Pick(live, idx) == (None, idx)
  {
  }

  class Handler {
    var slots: seq<Option<C.Connection>>
    var nextConn: nat

    /** No two slots share a connection or a demux map. */
    ghost predicate Valid()
      reads this
    {
      && (nextConn < |slots| || (slots == [] && nextConn == 0))
      && (forall i, j :: 0 <= i < j < |slots| && slots[i].Some? && slots[j].Some? ==>
            slots[i].value != slots[j].value && slots[i].value.demux != slots[j].value.demux)
    }

    constructor (connCount: nat)
      ensures Valid() && |slots| == connCount && forall i :: 0 <= i < connCount ==> slots[i].None?
    {
      slots := seq(connCount, _ => None);
      nextConn := 0;
    }

    /** One slot is looked at per turn, and the index moves on whether or not it is live. */
    method NextConnection() returns (conn: Option<C.Connection>)
      requires Valid()
      modifies this`nextConn
      ensures Valid() && nextConn == Pick(Live(slots), old(nextConn)).1
      ensures conn == match Pick(Live(slots), old(nextConn)).0
                      case None => None
                      case Some(i) => slots[i]
    {
      hide Scan;
      ghost var live := Live(slots);
      NoSlots(live, nextConn);
      for n := 0 to |slots|
        invariant Valid() && slots == old(slots) && Live(slots) == live
        invariant slots != [] ==> Pick(live, old(nextConn)) == Scan(live, nextConn, |slots| - n)
        invariant slots == [] ==> nextConn == 0
      {
        var i := nextConn;
        ScanStep(live, i, |slots| - n);
        nextConn := (nextConn + 1) % |slots|;
        assert nextConn == After(i, |slots|);
        if slots[i].Some? {
          var closed := slots[i].value.IsClosed();
          if !closed {
            assert Live(slots) == live;
            return slots[i];
          }
        }
      }
      if slots != [] {
        ScanStep(live, nextConn, 0);
      }
      conn := None;
    }

    /** The body of the pass for one slot, `answer` telling whether a connect attempt would succeed. */
    method ReconnectSlot(i: nat, answer: bool)
      requires Valid() && i < |slots|
      modifies this`slots
      ensures Valid() && |slots| == old(|slots|) && forall j :: 0 <= j < |slots| && j != i ==> slots[j] == old(slots)[j]
      ensures var live := old(slots[i].Some? && !slots[i].value.closed);
              if live || !answer then slots[i] == old(slots)[i]
              else
                && slots[i].Some? && fresh(slots[i].value) && fresh(slots[i].value.demux)
                && slots[i].value.Valid() && !slots[i].value.closed && slots[i].value.demux.entries == map[]
    {
      var shouldConnect := slots[i].None?;
      if slots[i].Some? {
        shouldConnect := slots[i].value.IsClosed();
      }
      if shouldConnect && answer {
        var demux := new DemuxMap();
        var conn := new C.Connection(demux);
        slots := slots[i := Some(conn)];
      }
    }

    /** One pass: a live slot is left alone, any other gets a new connection and map of its own, or stays as it was. */
    method ReconnectClosed(answers: seq<bool>)
      requires Valid() && |answers| == |slots|
      modifies this`slots
      ensures Valid() && |slots| == old(|slots|)
      ensures forall i :: 0 <= i < |slots| && (old(Live(slots))[i] || !answers[i]) ==> slots[i] == old(slots)[i]
      ensures forall i :: 0 <= i < |slots| && !old(Live(slots))[i] && answers[i] ==>
                && slots[i].Some? && fresh(slots[i].value) && fresh(slots[i].value.demux)
                && slots[i].value.Valid() && !slots[i].value.closed && slots[i].value.demux.entries == map[]
    {
      ghost var live, before := Live(slots), slots;
      for i := 0 to |slots|
        invariant Valid() && |slots| == |before|
        invariant forall j :: 0 <= j < |slots| && (i <= j || live[j] || !answers[j]) ==> slots[j] == before[j]
        invariant forall j :: 0 <= j < i && !live[j] && answers[j] ==>
                    && slots[j].Some? && fresh(slots[j].value) && fresh(slots[j].value.demux)
                    && slots[j].value.Valid() && !slots[j].value.closed && slots[j].value.demux.entries == map[]
      {
        ReconnectSlot(i, answers[i]);
      }
    }
  }
}
