/** PROPROOMDATELIST responses: filter, sort, render. */
module PropRoomDateList {
  import opened Bytes
  import opened Tlv
  import opened Json
  import opened Response
  import opened Dates
  import opened Sorting

  predicate FieldOk(f: Field, i: nat) {
    f.id == WireId(i) && f.typ == 0x01
  }

  predicate AllOk(fs: seq<Field>) {
    forall i :: 0 <= i < |fs| ==> FieldOk(fs[i], i)
  }

  predicate Accepted(fs: seq<Field>, count: u16) {
    |fs| % U16_SIZE == count && AllOk(fs)
  }

  /** The texts of the fields that hold one, in wire order. */
  function NonEmpty(fs: seq<Field>): seq<string> {
    if fs == [] then []
    else
      var last := fs[|fs| - 1];
      if last.data == [] then NonEmpty(fs[..|fs| - 1]) else NonEmpty(fs[..|fs| - 1]) + [Chars(last.data)]
  }

  function Parse(w: Walk, count: u16): Option<seq<string>> {
    if w.Walked? && Accepted(w.fields, count) then Some(NonEmpty(w.fields)) else None
  }

  function ResultJson(dates: seq<string>): Json {
    ListResult("dates", Strs(SortTexts(dates)))
  }

  function Decoded(data: Bytes): Response {
    match ParseHead(data)
    case None => Invalid
    case Some(h) =>
      if h.status != SUCCESS then NonSuccess(h)
      else if h.count == 0 then Success(Print(ResultJson([])))
      else match Parse(WalkFrom(data, h.fields), h.count)
        case None => Invalid
        case Some(dates) => Success(Print(ResultJson(dates)))
  }

  // ---- The decoding loop ----

  lemma OneMore(fs: seq<Field>, f: Field)
    requires AllOk(fs) && FieldOk(f, |fs|)
    ensures AllOk(fs + [f])
    ensures NonEmpty(fs + [f]) == if f.data == [] then NonEmpty(fs) else NonEmpty(fs) + [Chars(f.data)]
  {
    hide FieldOk;
    assert (fs + [f])[..|fs|] == fs;
  }

  /** A field that is cut short or not as it has to be spoils the whole payload. */
  lemma Spoiled(data: Bytes, start: nat, at: nat, fs: seq<Field>, count: u16)
    requires Walking(data, start, at, fs) && at + 7 <= |data|
    requires FieldAt(data, at).Some? ==> !FieldOk(FieldAt(data, at).value, |fs|)
    ensures Parse(WalkFrom(data, start), count).None?
  {
    hide Walking, WalkFrom, FieldAt, FieldOk, NonEmpty;
    WalkMeets(data, start, at, fs);
  }

  /** The walk is over: only the number of fields is left to check. */
  lemma Finished(data: Bytes, start: nat, at: nat, fs: seq<Field>, count: u16)
    requires Walking(data, start, at, fs) && at + 7 > |data| && AllOk(fs)
    ensures Parse(WalkFrom(data, start), count)
         == if (WireId(|fs|) - 1) % U16_SIZE == count then Some(NonEmpty(fs)) else None
  {
    hide Walking, WalkFrom, WireId, AllOk, NonEmpty;
    WalkEnds(data, start, at, fs);
    WireIdSteps(|fs|);
  }

  method CollectDates(data: Bytes, start: nat, fieldCount: u16) returns (ok: bool, dates: seq<string>)
    requires start <= |data|
    ensures var parsed := Parse(WalkFrom(data, start), fieldCount);
            (ok <==> parsed.Some?) && (ok ==> dates == parsed.value)
  {
    hide Walking, WalkFrom, WireId, FieldAt, Chars, NonEmpty, Parse, AllOk, U16At, U32At;
    dates := [];
    var offset, expectedId := start, 1;
    ghost var fs: seq<Field> := [];
    WalkBegins(data, start);
    NoneYet();
    WireIdSteps(0);
    while offset + 7 <= |data|
      invariant offset <= |data| && Walking(data, start, offset, fs) && AllOk(fs)
      invariant dates == NonEmpty(fs) && expectedId == WireId(|fs|)
      decreases |data| - offset
    {
      FieldAtIs(data, offset);
      WireIdSteps(|fs|);
      ghost var at := offset;
      var fieldId := U16At(data, offset);
      if fieldId != expectedId {
        Spoiled(data, start, at, fs, fieldCount);
        return false, dates;
      }
      var fieldType := data[offset + 2];
      if fieldType != 0x01 {
        Spoiled(data, start, at, fs, fieldCount);
        return false, dates;
      }
      var fieldLen := U32At(data, offset + 3);
      offset := offset + 7;
      if offset + fieldLen > |data| {
        Spoiled(data, start, at, fs, fieldCount);
        return false, dates;
      }
      var dateBytes := data[offset..offset + fieldLen];
      ghost var f := Field(fieldId, fieldType, dateBytes);
      WalkMoves(data, start, at, fs);
      OneMore(fs, f);
      if dateBytes != [] {
        dates := dates + [Chars(dateBytes)];
      }
      fs := fs + [f];
      offset := offset + fieldLen;
      expectedId := (expectedId + 1) % U16_SIZE;
    }
    Finished(data, start, offset, fs, fieldCount);
    ok := (expectedId - 1) % U16_SIZE == fieldCount;
  }

  lemma NoneYet()
    ensures AllOk([]) && NonEmpty([]) == []
  {
  }

  const OPENING := "{\"status\":\"success\",\"dates\":["

  lemma OpeningKeys()
    ensures OPENING == ListOpening("dates")
  {
  }

  /** `decode_prop_room_date_list_response`. */
  method Decode(data: Bytes) returns (r: Response)
    ensures r == Decoded(data)
  {
    hide OPENING, PrintItems, SortTexts, NonEmpty;
    OpeningKeys();
    if |data| == 0 {
      return Invalid;
    }
    var statusLen := data[0] as int;
    if |data| < 1 + statusLen + 2 {
      return Invalid;
    }
    var status := data[1..1 + statusLen];
    var fieldCount := U16At(data, 1 + statusLen);
    var offset := 1 + statusLen + 2;
    if status != SUCCESS {
      return NonSuccess(Head(status, fieldCount, offset));
    }
    if fieldCount == 0 {
      ListText("dates", Strs(SortTexts([])));
      return Success(OPENING + "]}");
    }
    var ok, dates := CollectDates(data, offset, fieldCount);
    if !ok {
      return Invalid;
    }
    dates := SortTexts(dates);
    var json := WriteStrings(OPENING, dates);
    ListText("dates", Strs(dates));
    r := Success(json + "]}");
  }

  /** What the answer has to list for one field: its text, unless that is empty. */
  function TextBag(f: Field): multiset<string> {
    if f.data == [] then multiset{} else multiset{Chars(f.data)}
  }

  /** The non-empty fields as a multiset: what the answer has to list, each as often as it came. */
  function NonEmptyBag(fs: seq<Field>): multiset<string> {
    if fs == [] then multiset{} else TextBag(fs[0]) + NonEmptyBag(fs[1..])
  }

  lemma NonEmptyStep(fs: seq<Field>)
    requires fs != []
    ensures multiset(NonEmpty(fs)) == multiset(NonEmpty(fs[..|fs| - 1])) + TextBag(fs[|fs| - 1])
  {
    hide Chars;
  }

  lemma {:induction false} NonEmptyBagOf(fs: seq<Field>)
    ensures multiset(NonEmpty(fs)) == NonEmptyBag(fs)
    decreases |fs|
  {
    if fs == [] {
      assert NonEmpty(fs) == [];
    } else {
      hide NonEmpty, NonEmptyBag, TextBag;
      var front, last := fs[..|fs| - 1], fs[|fs| - 1];
      NonEmptyBagOf(front);
      NonEmptyStep(fs);
      BagSnoc(front, last);
      assert front + [last] == fs;
    }
  }

  lemma {:induction false} BagSnoc(fs: seq<Field>, f: Field)
    ensures NonEmptyBag(fs + [f]) == NonEmptyBag(fs) + TextBag(f)
  {
    hide TextBag;
    if fs == [] {
      assert [f][1..] == [] && [] + [f] == [f];
    } else {
      assert (fs + [f])[1..] == fs[1..] + [f];
      BagSnoc(fs[1..], f);
    }
  }

  lemma {:induction false} BagMember(fs: seq<Field>, x: string)
    requires x in NonEmptyBag(fs)
    ensures exists k :: 0 <= k < |fs| && fs[k].data != [] && Chars(fs[k].data) == x
  {
    hide Chars;
    if x in TextBag(fs[0]) {
      assert fs[0].data != [] && Chars(fs[0].data) == x;
    } else {
      BagMember(fs[1..], x);
      var k :| 0 <= k < |fs[1..]| && fs[1..][k].data != [] && Chars(fs[1..][k].data) == x;
      assert fs[k + 1] == fs[1..][k];
    }
  }

  /** Accepted: the encoding of text fields with consecutive ids and the announced count, then at most 6 stray bytes. */
  lemma SuccessIffEncoded(data: Bytes, h: Head)
    requires ParseHead(data) == Some(h) && h.status == SUCCESS && h.count != 0
    ensures Decoded(data).Success? <==> exists fs :: WellFormed(data, h, fs)
  {
    hide ParseHead, WalkFrom, ResultJson, NonEmpty, Accepted;
    if Decoded(data).Success? {
      var fs := WalkFrom(data, h.fields).fields;
      WalkIffEncoded(data, h.fields, fs);
      assert WellFormed(data, h, fs);
    }
    if fs :| WellFormed(data, h, fs) {
      WalkIffEncoded(data, h.fields, fs);
    }
  }

  predicate WellFormed(data: Bytes, h: Head, fs: seq<Field>) {
    EncodesWithin(data, h.fields, fs) && Accepted(fs, h.count)
  }

  /**
   The answer to an accepted payload lists one and only one sequence of texts: the sorted permutation of its non-empty
   fields.
   */
  lemma AnswersSortedPermutation(data: Bytes, h: Head, fs: seq<Field>, listed: seq<string>)
    requires ParseHead(data) == Some(h) && h.status == SUCCESS && h.count != 0 && WellFormed(data, h, fs)
    ensures Decoded(data) == Success(Print(ResultJson(NonEmpty(fs))))
    ensures ListResult("dates", Strs(listed)) == ResultJson(NonEmpty(fs))
       <==> Sorted(listed) && multiset(listed) == NonEmptyBag(fs)
  {
    hide ParseHead, WalkFrom, ResultJson, NonEmpty, Accepted;
    WalkIffEncoded(data, h.fields, fs);
    ListsSortedPermutation(fs, listed);
  }

  ghost predicate HoldsDate(f: Field) {
    f.data == [] || exists d :: ValidDate(d) && Chars(f.data) == FullDate(d)
  }

  /** When every non-empty field is a full-date, the answer lists dates in chronological order. */
  lemma AnswersChronologically(fs: seq<Field>, listed: seq<string>)
    requires ListResult("dates", Strs(listed)) == ResultJson(NonEmpty(fs))
    requires forall i :: 0 <= i < |fs| ==> HoldsDate(fs[i])
    ensures forall i :: 0 <= i < |listed| ==> ReadFullDate(listed[i]).Some?
    ensures forall i, j :: 0 <= i < j < |listed| ==>
              !Before(ReadFullDate(listed[j]).value, ReadFullDate(listed[i]).value)
  {
    hide ResultJson, NonEmpty, NonEmptyBag, FullDate, ReadFullDate, ListResult, Before, ValidDate, LexLess;
    ListsSortedPermutation(fs, listed);
    forall i | 0 <= i < |listed|
      ensures ReadFullDate(listed[i]).Some?
      ensures ValidDate(ReadFullDate(listed[i]).value) && listed[i] == FullDate(ReadFullDate(listed[i]).value)
    {
      assert listed[i] in multiset(listed);
      ListedIsDate(fs, listed[i]);
    }
    forall i, j | 0 <= i < j < |listed|
      ensures !Before(ReadFullDate(listed[j]).value, ReadFullDate(listed[i]).value)
    {
      TextOrderIsCalendarOrder(ReadFullDate(listed[j]).value, ReadFullDate(listed[i]).value);
    }
  }

  lemma ListedIsDate(fs: seq<Field>, x: string)
    requires x in NonEmptyBag(fs) && forall i :: 0 <= i < |fs| ==> HoldsDate(fs[i])
    ensures ReadFullDate(x).Some? && ValidDate(ReadFullDate(x).value) && x == FullDate(ReadFullDate(x).value)
  {
    hide NonEmptyBag, FullDate, ReadFullDate, ValidDate, Chars;
    BagMember(fs, x);
    var k :| 0 <= k < |fs| && fs[k].data != [] && Chars(fs[k].data) == x;
    assert HoldsDate(fs[k]);
    var d :| ValidDate(d) && x == FullDate(d);
    FullDateReads(d);
  }

  lemma ListsSortedPermutation(fs: seq<Field>, listed: seq<string>)
    ensures ListResult("dates", Strs(listed)) == ResultJson(NonEmpty(fs))
       <==> Sorted(listed) && multiset(listed) == NonEmptyBag(fs)
  {
    NonEmptyBagOf(fs);
    SortTextsIffSortedPermutation(NonEmpty(fs), listed);
    var sorted := SortTexts(NonEmpty(fs));
    if Strs(listed) == Strs(sorted) {
      SameStrs(listed, sorted);
    }
  }

  lemma SameStrs(a: seq<string>, b: seq<string>)
    requires Strs(a) == Strs(b)
    ensures a == b
  {
    assert |a| == |Strs(a)| == |b|;
    forall i | 0 <= i < |a|
      ensures a[i] == b[i]
    {
      assert Strs(a)[i] == Strs(b)[i];
    }
  }

  /** The fields that hold the text `x`. */
  function Holders(fs: seq<Field>, x: string): set<nat> {
    set k | 0 <= k < |fs| && fs[k].data != [] && Chars(fs[k].data) == x
  }

  lemma HoldersSnoc(fs: seq<Field>, f: Field, x: string)
    ensures |Holders(fs + [f], x)| == |Holders(fs, x)| + (if f.data != [] && Chars(f.data) == x then 1 else 0)
  {
    hide Chars;
    var more := if f.data != [] && Chars(f.data) == x then {|fs|} else {};
    assert Holders(fs + [f], x) == Holders(fs, x) + more;
  }

  /** How often each text has to be listed: once for every field that holds it. */
  lemma {:induction false} BagCounts(fs: seq<Field>, x: string)
    ensures NonEmptyBag(fs)[x] == |set k | 0 <= k < |fs| && fs[k].data != [] && Chars(fs[k].data) == x|
    decreases |fs|
  {
    hide Chars;
    if fs == [] {
      assert Holders(fs, x) == {};
    } else {
      hide NonEmptyBag;
      var front, last := fs[..|fs| - 1], fs[|fs| - 1];
      BagCounts(front, x);
      BagSnoc(front, last);
      HoldersSnoc(front, last, x);
      assert front + [last] == fs;
    }
  }

  /** Below 65536 fields: ids from 1 on, and every field of type 0x01. */
  lemma AcceptedWithoutWrap(fs: seq<Field>, count: u16)
    requires |fs| < U16_SIZE
    ensures Accepted(fs, count)
       <==> |fs| == count && forall i :: 0 <= i < |fs| ==> fs[i].id == i + 1 && fs[i].typ == 0x01
  {
    if Accepted(fs, count) {
      forall i | 0 <= i < |fs|
        ensures fs[i].id == i + 1
      {
        assert FieldOk(fs[i], i);
        WireIdSteps(i);
      }
    }
  }

  /** The remaining payloads: no head, another status, no dates. */
  lemma OtherAnswers(data: Bytes) returns (tree: Json)
    ensures ParseHead(data).None? ==> Decoded(data) == Invalid
    ensures ParseHead(data).Some? && Chars(ParseHead(data).value.status) != "SUCCESS" ==>
              Decoded(data) == NonSuccess(ParseHead(data).value)
    ensures (ParseHead(data).Some? && Chars(ParseHead(data).value.status) == "SUCCESS"
             && ParseHead(data).value.count == 0) ==>
              && Decoded(data) == Success(Print(tree)) && ReadText(Print(tree)) == Some(tree)
              && ShowsTexts(tree, "dates", [])
  {
    hide ParseHead, Print, ReadText, Get, SortTexts;
    tree := ResultJson([]);
    SuccessText();
    if ParseHead(data).Some? {
      SameChars(ParseHead(data).value.status, SUCCESS);
    }
    assert SortTexts([]) == [];
    TextListShows("dates", []);
    DatesPlain();
    TextsReadBackIffPlain("dates", []);
  }

  lemma DatesPlain()
    ensures AllUnescaped("dates")
  {
  }
}
