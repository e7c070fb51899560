/** GETSEGMENTS responses: alternating name and count fields, paired by the decoding loop. */
module GetSegments {
  import opened Bytes
  import opened Tlv
  import opened Json
  import opened Response

  datatype Segment = Segment(name: Bytes, propCount: u32)

  predicate FieldOk(f: Field, i: nat) {
    f.id == WireId(i) && if i % 2 == 0 then f.typ == 0x01 else f.typ == 0x03 && |f.data| == 4
  }

  predicate AllOk(fs: seq<Field>) {
    forall i :: 0 <= i < |fs| ==> FieldOk(fs[i], i)
  }

  predicate Accepted(fs: seq<Field>, count: u16) {
    count % 2 == 0 && |fs| % U16_SIZE == count && AllOk(fs)
  }

  /** Every name with the count that follows it, in wire order. */
  function SegmentsOf(fs: seq<Field>): (ss: seq<Segment>)
    requires AllOk(fs)
    ensures |ss| == |fs| / 2
  {
    seq(|fs| / 2, j requires 0 <= j < |fs| / 2 =>
      assert FieldOk(fs[2 * j + 1], 2 * j + 1); Segment(fs[2 * j].data, U32At(fs[2 * j + 1].data, 0)))
  }

  function Parse(w: Walk, count: u16): Option<seq<Segment>> {
    if w.Walked? && Accepted(w.fields, count) then Some(SegmentsOf(w.fields)) else None
  }

  function SegmentJson(s: Segment): Json {
    Obj([Member("segment", Str(Chars(s.name))), Member("propCount", Num(s.propCount))])
  }

  function SegmentJsons(ss: seq<Segment>): (js: seq<Json>)
    ensures |js| == |ss| && forall i :: 0 <= i < |js| ==> js[i] == SegmentJson(ss[i])
  {
    seq(|ss|, i requires 0 <= i < |ss| => SegmentJson(ss[i]))
  }

  function ResultJson(ss: seq<Segment>): Json {
    ListResult("segments", SegmentJsons(ss))
  }

  function Decoded(data: Bytes): Response {
    match ParseHead(data)
    case None => Invalid
    case Some(h) =>
      if h.status != SUCCESS then NonSuccess(h)
      else if h.count == 0 then Success(Print(ResultJson([])))
      else match Parse(WalkFrom(data, h.fields), h.count)
        case None => Invalid
        case Some(ss) => Success(Print(ResultJson(ss)))
  }

  // ---- The decoding loop ----

  /** The entries built from the fields so far: only a name that has just been read may lack its count. */
  ghost predicate Paired(entries: seq<(Bytes, Option<u32>)>, fs: seq<Field>) {
    && AllOk(fs) && |entries| == (|fs| + 1) / 2
    && (forall j :: 0 <= j < |entries| ==> entries[j].0 == fs[2 * j].data)
    && (forall j :: 0 <= j < |fs| / 2 ==>
      FieldOk(fs[2 * j + 1], 2 * j + 1) && entries[j].1 == Some(U32At(fs[2 * j + 1].data, 0)))
  }

  lemma PairName(entries: seq<(Bytes, Option<u32>)>, fs: seq<Field>, f: Field)
    requires Paired(entries, fs) && |fs| % 2 == 0 && FieldOk(f, |fs|)
    ensures Paired(entries + [(f.data, None)], fs + [f])
  {
    hide WireId, U32At;
  }

  lemma PairCount(entries: seq<(Bytes, Option<u32>)>, fs: seq<Field>, f: Field)
    requires Paired(entries, fs) && |fs| % 2 == 1 && FieldOk(f, |fs|)
    ensures entries != []
    ensures var last := |entries| - 1;
            Paired(entries[last := (entries[last].0, Some(U32At(f.data, 0)))], fs + [f])
  {
    hide WireId, U32At;
    var last, gs := |entries| - 1, fs + [f];
    assert gs[2 * last] == fs[2 * last];
  }

  /** A field that is cut short or not as it has to be spoils the whole payload. */
  lemma Spoiled(data: Bytes, start: nat, at: nat, fs: seq<Field>, count: u16)
    requires Walking(data, start, at, fs) && at + 7 <= |data|
    requires FieldAt(data, at).Some? ==> !FieldOk(FieldAt(data, at).value, |fs|)
    ensures Parse(WalkFrom(data, start), count).None?
  {
    hide Walking, WalkFrom, FieldAt, FieldOk, SegmentsOf;
    WalkMeets(data, start, at, fs);
  }

  /** The walk is over: only the number of fields is left to check. */
  lemma Finished(data: Bytes, start: nat, at: nat, fs: seq<Field>, count: u16)
    requires Walking(data, start, at, fs) && at + 7 > |data| && AllOk(fs) && count % 2 == 0
    ensures Parse(WalkFrom(data, start), count).Some? <==> (WireId(|fs|) - 1) % U16_SIZE == count
    ensures WalkFrom(data, start) == Walked(fs, at)
  {
    hide Walking, WalkFrom, WireId, SegmentsOf, AllOk;
    WalkEnds(data, start, at, fs);
    WireIdSteps(|fs|);
  }

  lemma PairedOk(entries: seq<(Bytes, Option<u32>)>, fs: seq<Field>)
    requires Paired(entries, fs)
    ensures AllOk(fs) && (fs != [] ==> entries != [])
  {
  }

  method ReadSegments(data: Bytes, start: nat, fieldCount: u16)
    returns (ok: bool, entries: seq<(Bytes, Option<u32>)>)
    requires start <= |data| && fieldCount % 2 == 0
    ensures ok <==> Parse(WalkFrom(data, start), fieldCount).Some?
    ensures ok ==> Paired(entries, WalkFrom(data, start).fields)
  {
    hide Walking, WalkFrom, WireId, FieldAt, SegmentsOf, Paired, Parse, U16At, U32At, AllOk;
    entries := [];
    var offset, expectedId := start, 1;
    ghost var fs: seq<Field> := [];
    WalkBegins(data, start);
    NonePaired();
    WireIdSteps(0);
    while offset + 7 <= |data|
      invariant offset <= |data| && Walking(data, start, offset, fs)
      invariant Paired(entries, fs) && expectedId == WireId(|fs|)
      decreases |data| - offset
    {
      FieldAtIs(data, offset);
      WireIdSteps(|fs|);
      PairedOk(entries, fs);
      ghost var at := offset;
      var fieldId := U16At(data, offset);
      if fieldId != expectedId {
        Spoiled(data, start, at, fs, fieldCount);
        return false, entries;
      }
      var fieldType := data[offset + 2];
      var fieldLen := U32At(data, offset + 3);
      offset := offset + 7;
      if offset + fieldLen > |data| {
        Spoiled(data, start, at, fs, fieldCount);
        return false, entries;
      }
      var fieldData := data[offset..offset + fieldLen];
      ghost var f := Field(fieldId, fieldType, fieldData);
      WalkMoves(data, start, at, fs);
      offset := offset + fieldLen;
      if expectedId % 2 == 1 {
        if fieldType != 0x01 {
          Spoiled(data, start, at, fs, fieldCount);
          return false, entries;
        }
        PairName(entries, fs, f);
        entries := entries + [(fieldData, None)];
      } else {
        if fieldType != 0x03 || fieldLen != 4 {
          Spoiled(data, start, at, fs, fieldCount);
          return false, entries;
        }
        PairCount(entries, fs, f);
        var last := |entries| - 1;
        entries := entries[last := (entries[last].0, Some(U32At(fieldData, 0)))];
      }
      fs := fs + [f];
      expectedId := (expectedId + 1) % U16_SIZE;
    }
    PairedOk(entries, fs);
    Finished(data, start, offset, fs, fieldCount);
    ok := (expectedId - 1) % U16_SIZE == fieldCount;
  }

  lemma NonePaired()
    ensures Paired([], [])
  {
  }

  // ---- Rendering ----

  lemma SegmentKeys()
    ensures "\"segment\":\"" == Quoted("segment") + ":" + "\""
    ensures "\",\"propCount\":" == "\"" + ("," + Quoted("propCount") + ":")
  {
  }

  lemma SegmentText(json: string, name: string, n: nat)
    ensures json + "{" + "\"segment\":\"" + name + "\",\"propCount\":" + Decimal(n) + "}"
         == json + Print(Obj([Member("segment", Str(name)), Member("propCount", Num(n))]))
  {
    hide Quoted, Decimal;
    SegmentKeys();
    var m1, m2 := Member("segment", Str(name)), Member("propCount", Num(n));
    FirstText("segment", name, "\"segment\":\"");
    var head := "{" + "\"segment\":\"" + name;
    PushAfterText([m1], m2, head, "\",\"propCount\":");
    assert [m1] + [m2] == [m1, m2];
    Rebracket6(json, "{", "\"segment\":\"", name, "\",\"propCount\":", Decimal(n), "}");
  }

  lemma Rebracket6(z: string, a: string, b: string, c: string, d: string, e: string, f: string)
    ensures z + a + b + c + d + e + f == z + (a + b + c + d + e + f)
  {
    assert z + a + b + c == z + (a + b + c);
  }

  method WriteSegments(json: string, entries: seq<(Bytes, Option<u32>)>, ghost fs: seq<Field>) returns (out: string)
    requires Paired(entries, fs) && |fs| % 2 == 0
    ensures out == json + PrintItems(SegmentJsons(SegmentsOf(fs)))
  {
    hide SegmentJson, Chars, Decimal, WireId;
    out := json;
    ghost var items := SegmentJsons(SegmentsOf(fs));
    for i := 0 to |entries|
      invariant out == json + PrintItems(items[..i])
    {
      ghost var before := out;
      if i > 0 {
        out := out + [','];
      }
      var (name, propCount) := entries[i];
      ghost var start := out;
      out := out + "{" + "\"segment\":\"" + Chars(name);
      out := out + "\",\"propCount\":" + Decimal(propCount.value);
      out := out + "}";
      SegmentText(start, Chars(name), propCount.value);
      ItemIs(fs, i, name, propCount.value);
      PushItem(json, items[..i], items[i], before, out);
      assert items[..i + 1] == items[..i] + [items[i]];
    }
    assert items[..|entries|] == items;
  }

  lemma ItemIs(fs: seq<Field>, i: nat, name: Bytes, n: u32)
    requires AllOk(fs) && 2 * i + 1 < |fs| && FieldOk(fs[2 * i + 1], 2 * i + 1)
    requires fs[2 * i].data == name && U32At(fs[2 * i + 1].data, 0) == n
    ensures SegmentJsons(SegmentsOf(fs))[i] == Obj([Member("segment", Str(Chars(name))), Member("propCount", Num(n))])
  {
  }

  const OPENING := "{\"status\":\"success\",\"segments\":["

  lemma OpeningKeys()
    ensures OPENING == ListOpening("segments")
  {
  }

  /** `decode_get_segments_response`. */
  method Decode(data: Bytes) returns (r: Response)
    ensures r == Decoded(data)
  {
    hide OPENING, SegmentJsons, SegmentsOf, PrintItems;
    OpeningKeys();
    if |data| == 0 {
      return Invalid;
    }
    var statusLen := data[0] as int;
    if |data| < 1 + statusLen + 2 {
      return Invalid;
    }
    var status := data[1..1 + statusLen];
    var fieldCount := U16At(data, 1 + statusLen);
    var offset := 1 + statusLen + 2;
    if status != SUCCESS {
      return NonSuccess(Head(status, fieldCount, offset));
    }
    if fieldCount == 0 {
      ListText("segments", SegmentJsons([]));
      return Success(OPENING + "]}");
    }
    if fieldCount % 2 != 0 {
      return Invalid;
    }
    var ok, entries := ReadSegments(data, offset, fieldCount);
    if !ok {
      return Invalid;
    }
    ghost var fs := WalkFrom(data, offset).fields;
    var json := WriteSegments(OPENING, entries, fs);
    ListText("segments", SegmentJsons(SegmentsOf(fs)));
    r := Success(json + "]}");
  }

  // ---- What is accepted, and what it holds ----

  /** Accepted: the encoding of name/count pairs with the announced count, then at most 6 stray bytes. */
  lemma SuccessIffEncoded(data: Bytes, h: Head)
    requires ParseHead(data) == Some(h) && h.status == SUCCESS && h.count != 0
    ensures Decoded(data).Success?
       <==> exists fs :: EncodesWithin(data, h.fields, fs) && Accepted(fs, h.count)
  {
    if Decoded(data).Success? {
      WalkIffEncoded(data, h.fields, WalkFrom(data, h.fields).fields);
    }
    if fs :| EncodesWithin(data, h.fields, fs) && Accepted(fs, h.count) {
      WalkIffEncoded(data, h.fields, fs);
    }
  }

  /**
   The segments of an accepted payload are its name fields in wire order, each with the count of the
   very next field; there are `count / 2` of them exactly when the 16-bit ids have not wrapped.
   */
  lemma EachNameWithItsCount(fs: seq<Field>, count: u16)
    requires Accepted(fs, count)
    ensures |SegmentsOf(fs)| == count / 2 <==> |fs| < U16_SIZE
    ensures forall j :: 0 <= j < |SegmentsOf(fs)| ==>
      && fs[2 * j].id == WireId(2 * j) && fs[2 * j + 1].id == WireId(2 * j + 1)
      && SegmentsOf(fs)[j].name == fs[2 * j].data
      && Le32(SegmentsOf(fs)[j].propCount) == fs[2 * j + 1].data
  {
    hide WireId;
    forall j | 0 <= j < |SegmentsOf(fs)|
      ensures fs[2 * j].id == WireId(2 * j) && fs[2 * j + 1].id == WireId(2 * j + 1)
      ensures SegmentsOf(fs)[j].name == fs[2 * j].data
      ensures Le32(SegmentsOf(fs)[j].propCount) == fs[2 * j + 1].data
    {
      var d := fs[2 * j + 1].data;
      assert FieldOk(fs[2 * j], 2 * j) && FieldOk(fs[2 * j + 1], 2 * j + 1);
      Le32OfU32At(d, 0);
      assert d[0..4] == d;
    }
  }

  /** The answer reads back to the same names and counts if and only if no name needs escaping. */
  lemma ResultReadsBackIffPlain(ss: seq<Segment>)
    ensures ReadText(Print(ResultJson(ss))) == Some(ResultJson(ss))
       <==> forall i :: 0 <= i < |ss| ==> AllUnescaped(Chars(ss[i].name))
  {
    hide Print, Chars;
    var items := SegmentJsons(ss);
    forall i | 0 <= i < |ss|
      ensures Plain(items[i]) <==> AllUnescaped(Chars(ss[i].name))
    {
      assert AllUnescaped("segment") && AllUnescaped("propCount");
      PlainObject2("segment", Str(Chars(ss[i].name)), "propCount", Num(ss[i].propCount));
    }
    assert AllUnescaped("segments");
    ListPlain("segments", items);
    ReadsBackIffPlain(ResultJson(ss));
  }

  // ---- What stands where ----

  /** Below 65536 fields: ids from 1 on, names of type 0x01 and four-byte counts of type 0x03 in turn. */
  lemma AcceptedWithoutWrap(fs: seq<Field>, count: u16)
    requires |fs| < U16_SIZE
    ensures Accepted(fs, count)
       <==> && |fs| == count && count % 2 == 0
            && (forall i :: 0 <= i < |fs| ==> fs[i].id == i + 1)
            && (forall i :: 0 <= i < |fs| && i % 2 == 0 ==> fs[i].typ == 0x01)
            && (forall i :: 0 <= i < |fs| && i % 2 == 1 ==> fs[i].typ == 0x03 && |fs[i].data| == 4)
  {
    if Accepted(fs, count) {
      forall i | 0 <= i < |fs|
        ensures fs[i].id == i + 1
      {
        assert FieldOk(fs[i], i);
        WireIdSteps(i);
      }
    }
  }

  /** Pair by pair, the name field's text is under "segment" and the count field's number under "propCount". */
  ghost predicate ShowsSegments(j: Json, fs: seq<Field>) {
    && Get(j, "status") == Some(Str("success"))
    && Get(j, "segments").Some? && Get(j, "segments").value.Arr? && |Get(j, "segments").value.items| == |fs| / 2
    && forall i :: 0 <= i < |fs| / 2 ==> ShowsSegment(Get(j, "segments").value.items[i], fs, i)
  }

  ghost predicate ShowsSegment(j: Json, fs: seq<Field>, i: nat)
    requires 2 * i + 1 < |fs|
  {
    && |fs[2 * i + 1].data| == 4
    && Get(j, "segment") == Some(Str(Chars(fs[2 * i].data)))
    && Get(j, "propCount") == Some(Num(U32At(fs[2 * i + 1].data, 0)))
  }

  /** The answer to an accepted payload, value by value. */
  lemma AnswerShowsSegments(data: Bytes, h: Head, fs: seq<Field>) returns (tree: Json)
    requires ParseHead(data) == Some(h) && h.status == SUCCESS && h.count != 0
    requires EncodesWithin(data, h.fields, fs) && Accepted(fs, h.count)
    ensures Decoded(data) == Success(Print(tree)) && ShowsSegments(tree, fs)
    ensures ReadText(Print(tree)) == Some(tree)
       <==> forall i :: 0 <= i < |fs| / 2 ==> AllUnescaped(Chars(fs[2 * i].data))
  {
    hide ParseHead, WalkFrom, Print, ReadText, AllUnescaped, Get, Chars, U32At, FieldOk, ShowsSegment, SegmentJson;
    var ss := SegmentsOf(fs);
    WalkIffEncoded(data, h.fields, fs);
    tree := ResultJson(ss);
    ListResultShows("segments", SegmentJsons(ss));
    forall i | 0 <= i < |fs| / 2
      ensures ShowsSegment(SegmentJson(ss[i]), fs, i) && ss[i].name == fs[2 * i].data
    {
      SegmentShows(fs, i);
    }
    ResultReadsBackIffPlain(ss);
  }

  lemma SegmentShows(fs: seq<Field>, i: nat)
    requires AllOk(fs) && 2 * i + 1 < |fs|
    ensures ShowsSegment(SegmentJson(SegmentsOf(fs)[i]), fs, i) && SegmentsOf(fs)[i].name == fs[2 * i].data
  {
    hide Get, Chars, U32At, WireId;
    assert FieldOk(fs[2 * i + 1], 2 * i + 1);
    GetTwo("segment", Str(Chars(fs[2 * i].data)), "propCount", Num(U32At(fs[2 * i + 1].data, 0)));
  }

  /** The remaining payloads: no head, another status, an odd count, no segments. */
  lemma OtherAnswers(data: Bytes) returns (tree: Json)
    ensures ParseHead(data).None? ==> Decoded(data) == Invalid
    ensures ParseHead(data).Some? && Chars(ParseHead(data).value.status) != "SUCCESS" ==>
              Decoded(data) == NonSuccess(ParseHead(data).value)
    ensures (ParseHead(data).Some? && Chars(ParseHead(data).value.status) == "SUCCESS"
             && ParseHead(data).value.count % 2 == 1) ==> Decoded(data) == Invalid
    ensures (ParseHead(data).Some? && Chars(ParseHead(data).value.status) == "SUCCESS"
             && ParseHead(data).value.count == 0) ==>
              && Decoded(data) == Success(Print(tree)) && ReadText(Print(tree)) == Some(tree)
              && ShowsSegments(tree, [])
  {
    hide ParseHead, Print, ReadText, Get;
    tree := ResultJson([]);
    SuccessText();
    if ParseHead(data).Some? {
      SameChars(ParseHead(data).value.status, SUCCESS);
    }
    ListResultShows("segments", SegmentJsons([]));
    ResultReadsBackIffPlain([]);
  }
}
