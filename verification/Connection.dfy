/** One backend connection as an object: its id counter, its send queue, and its write and read loops. */
module Connection {
  import opened Bytes
  import opened Framing
  import opened Channel
  import opened Demux
  import opened Multiplex

  /** A socket that takes `room` more bytes before it fails. */
  class Sink {
    var written: Bytes
    var room: nat

    /** `write_all` and `flush`. */
    method WriteAll(frame: Bytes) returns (ok: bool)
      modifies this
      ensures ok <==> |frame| <= old(room)
      ensures written == old(written) + if ok then frame else frame[..old(room)]
      ensures room == if ok then old(room) - |frame| else 0
    {
      ok := |frame| <= room;
      if ok {
        written := written + frame;
        room := room - |frame|;
      } else {
        written := written + frame[..room];
        room := 0;
      }
    }
  }

  function Joined(frames: seq<Bytes>): Bytes {
    if frames == [] then [] else frames[0] + Joined(frames[1..])
  }

  lemma JoinedStep(frames: seq<Bytes>)
    requires frames != []
    ensures Joined(frames) == frames[0] + Joined(frames[1..])
  {
  }

  lemma NothingSent(start: Bytes, all: Bytes)
    ensures start + [] == start && all == [] + all
  {
  }

  lemma SentMore(start: Bytes, sent: Bytes, frame: Bytes, rest: Bytes)
    ensures sent + (frame + rest) == sent + frame + rest && start + sent + frame == start + (sent + frame)
  {
  }

  /** A frame that is cut short ends what fits into `room`. */
  lemma SentPart(start: Bytes, sent: Bytes, frame: Bytes, rest: Bytes, room: nat)
    requires |sent| <= room < |sent| + |frame|
    ensures start + sent + frame[..room - |sent|] == start + (sent + frame + rest)[..room]
  {
  }

  lemma AllSent(sent: Bytes)
    ensures sent + Joined([]) == sent && sent[..|sent|] == sent
  {
  }

  /** What the write loop sends splits back into exactly the frames that were queued, in order. */
  lemma JoinedSplits(fs: seq<Frame>)
    ensures ReadFrames(Joined(Encoded(fs))) == (fs, []) <==> AllWellSized(fs)
  {
    hide FrameBytes, ReadFrames, AllWellSized;
    JoinedEncoded(fs);
    FramesUniquelyDecodable(Joined(Encoded(fs)), fs);
  }

  lemma {:induction false} JoinedEncoded(fs: seq<Frame>)
    ensures Joined(Encoded(fs)) == FramesBytes(fs)
  {
    hide FrameBytes;
    if fs != [] {
      JoinedEncoded(fs[1..]);
      assert Encoded(fs)[1..] == Encoded(fs[1..]);
    }
  }

  /** How many answers the read loop delivers: it stops at the first one whose id is not in the map any more. */
  function Served(frames: seq<(Header, Bytes)>, ids: set<u32>): (n: nat)
    ensures n <= |frames|
    ensures forall i :: 0 <= i < n ==> frames[i].0.clrId in ids
  {
    if frames == [] || frames[0].0.clrId !in ids then 0
    else 1 + Served(frames[1..], ids - {frames[0].0.clrId})
  }

  /** The first `n` answers have ids from the map, each its own, and the next one, if any, does not. */
  predicate LongestServed(frames: seq<(Header, Bytes)>, ids: set<u32>, n: nat) {
    && n <= |frames| && (forall i :: 0 <= i < n ==> frames[i].0.clrId in ids)
    && (forall i, j :: 0 <= i < j < n ==> frames[i].0.clrId != frames[j].0.clrId)
    && (n < |frames| && frames[n].0.clrId in ids ==> exists i :: 0 <= i < n && frames[i].0.clrId == frames[n].0.clrId)
  }

  /** The read loop serves as many answers as it can, and it is the only number that fits this description. */
  lemma {:induction false} ServedIffLongest(frames: seq<(Header, Bytes)>, ids: set<u32>, n: nat)
    ensures n == Served(frames, ids) <==> LongestServed(frames, ids, n)
  {
    if frames != [] && frames[0].0.clrId in ids && n > 0 {
      var id, rest := frames[0].0.clrId, frames[1..];
      ServedIffLongest(rest, ids - {id}, n - 1);
      assert forall i :: 0 <= i < |rest| ==> rest[i] == frames[i + 1];
      if LongestServed(rest, ids - {id}, n - 1) {
        LongestCons(frames, ids, n);
      }
      if LongestServed(frames, ids, n) {
        LongestTail(frames, ids, n);
      }
    }
  }

  lemma LongestCons(frames: seq<(Header, Bytes)>, ids: set<u32>, n: nat)
    requires frames != [] && frames[0].0.clrId in ids && n > 0
    requires LongestServed(frames[1..], ids - {frames[0].0.clrId}, n - 1)
    ensures LongestServed(frames, ids, n)
  {
    var id, rest := frames[0].0.clrId, frames[1..];
    assert forall i :: 0 < i < |frames| ==> frames[i] == rest[i - 1];
    if n < |frames| && frames[n].0.clrId in ids && frames[n].0.clrId != id {
      var i :| 0 <= i < n - 1 && rest[i].0.clrId == rest[n - 1].0.clrId;
      assert frames[i + 1].0.clrId == frames[n].0.clrId;
    }
  }

  lemma LongestTail(frames: seq<(Header, Bytes)>, ids: set<u32>, n: nat)
    requires frames != [] && n > 0 && LongestServed(frames, ids, n)
    ensures LongestServed(frames[1..], ids - {frames[0].0.clrId}, n - 1)
  {
    var id, rest := frames[0].0.clrId, frames[1..];
    assert forall i :: 0 <= i < |rest| ==> rest[i] == frames[i + 1];
    if n < |frames| && frames[n].0.clrId in ids && frames[n].0.clrId != id {
      var i :| 0 <= i < n && frames[i].0.clrId == frames[n].0.clrId;
      assert rest[i - 1].0.clrId == rest[n - 1].0.clrId;
    }
  }

  function IdsOf(frames: seq<(Header, Bytes)>): (ids: set<u32>)
    ensures forall i :: 0 <= i < |frames| ==> frames[i].0.clrId in ids
  {
    set i | 0 <= i < |frames| :: frames[i].0.clrId
  }

  class Connection {
    const demux: DemuxMap
    var sendQueue: seq<Bytes>
    var receiving: bool
    var corrId: u32
    var closed: bool
    ghost var issued: nat

    /** The counter is one ahead of the ids handed out, modulo 2^32. */
    ghost predicate Valid()
      reads this, demux, demux.Senders()
    {
      demux.Valid() && corrId == Id(issued + 1)
    }

    constructor (demux: DemuxMap)
      requires demux.Valid()
      ensures Valid() && this.demux == demux && sendQueue == [] && receiving && !closed && issued == 0
    {
      this.demux := demux;
      sendQueue := [];
      receiving := true;
      corrId := 1;
      closed := false;
      issued := 0;
    }

    /** `fetch_add`, which wraps around. */
    method NextCorrId() returns (id: u32)
      requires Valid()
      modifies this`corrId, this`issued
      ensures Valid() && issued == old(issued) + 1 && id == Id(issued)
    {
      id := corrId;
      corrId := (corrId + 1) % U32_SIZE;
      issued := issued + 1;
      NextId(issued);
    }

    /** Fails, and loses the frame, once the write loop has dropped its end of the queue. */
    method SendFrame(frame: Bytes) returns (ok: bool)
      modifies this`sendQueue
      ensures ok == receiving
      ensures sendQueue == if ok then old(sendQueue) + [frame] else old(sendQueue)
    {
      if receiving {
        sendQueue := sendQueue + [frame];
      }
      ok := receiving;
    }

    method IsClosed() returns (r: bool)
      ensures r == closed
    {
      r := closed;
    }

    method Close()
      modifies this`closed
      ensures closed
    {
      closed := true;
    }

    /** One tick of the keepalive task. */
    method KeepAliveTick() returns (goOn: bool)
      modifies this`sendQueue
      ensures goOn == (!closed && receiving)
      ensures sendQueue == if goOn then old(sendQueue) + [FrameBytes(KEEPALIVE)] else old(sendQueue)
    {
      if closed {
        return false;
      }
      var frame := BuildKeepaliveFrame();
      goOn := SendFrame(frame);
    }

    /**
     * The write loop up to the point where it waits for the next frame or ends. Whole frames go out in order, the last
     * one perhaps cut short; the loop ends, and closes the connection, exactly when the socket has no room for all.
     */
    method WriteLoop(socket: Sink)
      requires receiving
      modifies this`sendQueue, this`receiving, this`closed, socket
      ensures sendQueue == []
      ensures var all := Joined(old(sendQueue));
              && receiving == (|all| <= old(socket.room))
              && socket.written == old(socket.written) + all[..if receiving then |all| else old(socket.room)]
      ensures closed == (old(closed) || !receiving)
    {
      hide Joined;
      ghost var all, start, room := Joined(sendQueue), socket.written, socket.room;
      ghost var sent: Bytes := [];
      NothingSent(start, all);
      while sendQueue != []
        invariant receiving && closed == old(closed)
        invariant all == sent + Joined(sendQueue) && socket.written == start + sent && socket.room == room - |sent|
        decreases |sendQueue|
      {
        var frame := sendQueue[0];
        JoinedStep(sendQueue);
        sendQueue := sendQueue[1..];
        SentMore(start, sent, frame, Joined(sendQueue));
        var ok := socket.WriteAll(frame);
        if !ok {
          SentPart(start, sent, frame, Joined(sendQueue), room);
          sendQueue, receiving, closed := [], false, true;
          return;
        }
        sent := sent + frame;
      }
      AllSent(sent);
    }

    /** One turn of the read loop: drain an answer, take its entry out, complete it. */
    method ReadTurn(reader: FrameReader) returns (goOn: bool)
      requires demux.Valid() && reader.Valid()
      modifies reader, demux, demux.Senders()
      ensures demux.Valid() && reader.Valid()
      ensures var d := Drain(old(reader.Stream()));
              if d.Bad? then !goOn && demux.entries == old(demux.entries)
              else
                && reader.Stream() == d.rest && goOn == (d.header.clrId in old(demux.entries))
                && demux.entries == old(demux.entries) - {d.header.clrId}
                && (goOn ==> old(demux.entries)[d.header.clrId].0.state == Sent(d.payload))
    {
      hide Drain;
      var r := reader.DrainFrame();
      if r.Err? {
        return false;
      }
      var entry := demux.LoadRemove(r.header.clrId);
      if entry.None? {
        return false;
      }
      entry.value.0.Send(r.payload);
      goOn := true;
    }

    /**
     * The read loop: every answer goes to the sender under its id, until the stream ends, an answer cannot be read, or
     * its id is unknown. Which answers those are depends on the bytes of the stream alone.
     */
    method ReadLoop(reader: FrameReader)
      requires demux.Valid() && reader.Valid()
      modifies this`closed, reader, demux, demux.Senders()
      ensures closed && demux.Valid()
      ensures var answers := Drains(old(reader.Stream())).0;
              var n := Served(answers, old(demux.entries).Keys);
              && demux.entries == old(demux.entries) - IdsOf(answers[..n])
              && (forall i :: 0 <= i < n ==> old(demux.entries)[answers[i].0.clrId].0.state == Sent(answers[i].1))
    {
      hide Drain, Drains, Served, IdsOf;
      ghost var all, before := Drains(reader.Stream()).0, demux.entries;
      ghost var n, done := Served(all, before.Keys), 0;
      NoIds(all);
      var goOn := true;
      while goOn
        invariant reader.Valid() && demux.Valid() && done <= n <= |all|
        invariant demux.entries == before - IdsOf(all[..done])
        invariant forall i :: 0 <= i < done ==> before[all[i].0.clrId].0.state == Sent(all[i].1)
        invariant goOn ==> all[done..] == Drains(reader.Stream()).0
        invariant goOn ==> n == done + Served(all[done..], demux.entries.Keys)
        invariant !goOn ==> n == done
        decreases if goOn then |reader.Stream()| + 1 else 0
      {
        ghost var ids := demux.entries.Keys;
        TurnServes(reader.Stream(), ids);
        Shrinks(reader.Stream());
        goOn := ReadTurn(reader);
        if goOn {
          MoreIds(all, done);
          assert all[done..][1..] == all[done + 1..];
          assert demux.entries.Keys == ids - {all[done].0.clrId};
          done := done + 1;
        }
      }
      closed := true;
    }
  }

  lemma NoIds(all: seq<(Header, Bytes)>)
    ensures IdsOf(all[..0]) == {}
  {
  }

  lemma MoreIds(all: seq<(Header, Bytes)>, n: nat)
    requires n < |all|
    ensures IdsOf(all[..n + 1]) == IdsOf(all[..n]) + {all[n].0.clrId}
  {
    assert all[..n + 1] == all[..n] + [all[n]];
    assert all[..n + 1][n] == all[n];
    forall i | 0 <= i < n
      ensures all[..n][i].0.clrId in IdsOf(all[..n + 1])
    {
      assert all[..n + 1][i] == all[..n][i];
    }
  }

  /** Whether a turn of the read loop serves an answer, from what the stream and the map hold. */
  lemma TurnServes(s: Bytes, ids: set<u32>)
    ensures var d := Drain(s);
            if d.Bad? then Drains(s).0 == [] && Served(Drains(s).0, ids) == 0
            else
              && Drains(s).0 == [(d.header, d.payload)] + Drains(d.rest).0
              && Served(Drains(s).0, ids)
              == if d.header.clrId in ids then 1 + Served(Drains(d.rest).0, ids - {d.header.clrId}) else 0
  {
    hide Drain;
  }

  lemma NextId(n: nat)
    ensures (Id(n) + 1) % U32_SIZE == Id(n + 1)
  {
    ReduceOnce(n, 1);
  }
}
