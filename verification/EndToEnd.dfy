/** A read and a write command from the typed query, over the shared connections, to the bytes a decoder is given. */
module EndToEnd {
  import opened Bytes
  import opened Tlv
  import opened Requests
  import opened Commands
  import opened Framing
  import opened Channel
  import opened Multiplex
  import opened Outcomes
  import opened Refinement
  import opened Safety
  import opened Origin
  import SearchAvail

  function SearchAvailPayload(q: SearchAvailQuery): Bytes {
    EncodeRequest(SEARCHAVAIL, FieldsOf(SearchAvailRows(q)))
  }

  function SetRoomPkgPayload(q: SetRoomPkgQuery): Bytes {
    EncodeRequest(SETROOMPKG, FieldsOf(SetRoomPkgRows(q)))
  }

  /** A router frame for this segment that is marked as a write or not, or the shard frame of standalone mode. */
  predicate Addressed(f: Frame, mode: Mode, segment: Bytes, isWrite: bool) {
    match mode
    case RouterMode => f.Router? && f.segment == segment && f.isWrite == isWrite
    case StandaloneMode => f.Shard?
  }

  /** The frame is a read for the segment and carries exactly this search. */
  predicate Asks(f: Frame, mode: Mode, segment: Bytes, q: SearchAvailQuery) {
    && Addressed(f, mode, segment, false)
    && match ReadRequest(f.payload)
       case None => false
       case Some((cmd, fs)) => Chars(cmd) == "SEARCHAVAIL" && SearchAvailOf(fs) == Some(q)
  }

  /** The frame is a write for the segment and carries exactly this package. */
  predicate Updates(f: Frame, mode: Mode, segment: Bytes, q: SetRoomPkgQuery) {
    && Addressed(f, mode, segment, true)
    && match ReadRequest(f.payload)
       case None => false
       case Some((cmd, fs)) => Chars(cmd) == "SETROOMPKG" && SetRoomPkgOf(fs) == Some(q)
  }

  lemma IsAddressed(s: System, segment: Bytes, isWrite: bool, payload: Bytes, k: nat, j: nat, f: Frame)
    requires k < |s.conns| && Requested(s, Begin(segment, isWrite, payload), k, j, f)
    ensures Addressed(f, s.mode, segment, isWrite) && f.payload == payload
  {
  }

  /**
   * Whatever other calls share the connections, a search that returns was given either the backend's answer to a read
   * for its segment that carries exactly its own query, or a cleanup's empty bytes, which decode to the fixed invalid
   * response.
   */
  lemma SearchIsAnswered(mode: Mode, level: Level, poolSize: nat, ls: seq<Label>, s: System, c: nat,
                         segment: Bytes, q: SearchAvailQuery, env: SearchAvail.Env)
    requires Run(Start(mode, level, poolSize), ls) == Some(s) && NoWrap(s) && (level.ByteLevel? ==> Sized(s))
    requires c < |Begins(ls)| && Begins(ls)[c] == Begin(segment, false, SearchAvailPayload(q))
    requires Fits(FieldsOf(SearchAvailRows(q)))
    requires c < |s.calls| && s.calls[c].phase.Done? && s.calls[c].phase.result.Replied?
    ensures var body := s.calls[c].phase.result.body;
            if body == [] then SearchAvail.Decoded(body, env).Invalid?
            else exists i: nat, k: nat, f :: AnsweredAt(ls, i, k, f, body) && Asks(f, mode, segment, q)
  {
    hide Run, NoWrap, Sized, Begins, SearchAvailRows, SearchAvailOf, ReadRequest, EncodeRequest, FieldsOf, Fits,
         Requested, AnsweredAt;
    SearchAvailRoundTrip(q);
    CommandNames();
    if s.calls[c].phase.result.body != [] {
      var k, j, i, f := CallIsAnsweredAsAsked(mode, level, poolSize, ls, s, c);
      RunCalls(mode, level, poolSize, ls, s);
      IsAddressed(s, segment, false, SearchAvailPayload(q), k, j, f);
      assert Asks(f, mode, segment, q);
    }
  }

  /** The same for a write: the answer is the one to a write for its segment with exactly its own package. */
  lemma UpdateIsAnswered(mode: Mode, level: Level, poolSize: nat, ls: seq<Label>, s: System, c: nat,
                         segment: Bytes, q: SetRoomPkgQuery)
    requires Run(Start(mode, level, poolSize), ls) == Some(s) && NoWrap(s) && (level.ByteLevel? ==> Sized(s))
    requires c < |Begins(ls)| && Begins(ls)[c] == Begin(segment, true, SetRoomPkgPayload(q))
    requires Fits(FieldsOf(SetRoomPkgRows(q)))
    requires c < |s.calls| && s.calls[c].phase.Done? && s.calls[c].phase.result.Replied?
    ensures var body := s.calls[c].phase.result.body;
            body != [] ==> exists i: nat, k: nat, f :: AnsweredAt(ls, i, k, f, body) && Updates(f, mode, segment, q)
  {
    hide Run, NoWrap, Sized, Begins, SetRoomPkgRows, SetRoomPkgOf, ReadRequest, EncodeRequest, FieldsOf, Fits,
         Requested, AnsweredAt;
    SetRoomPkgRoundTrip(q);
    CommandNames();
    if s.calls[c].phase.result.body != [] {
      var k, j, i, f := CallIsAnsweredAsAsked(mode, level, poolSize, ls, s, c);
      RunCalls(mode, level, poolSize, ls, s);
      IsAddressed(s, segment, true, SetRoomPkgPayload(q), k, j, f);
      assert Updates(f, mode, segment, q);
    }
  }
}
