/** The tag-length-value fields that requests and responses carry, and the header of a response. */
module Tlv {
  import opened Bytes

  datatype Field = Field(id: u16, typ: u8, data: Bytes)

  /** The bytes of one field, as every request builder writes them: the length is cast to 32 bits. */
  function EncodeField(f: Field): (e: Bytes)
    ensures |e| == 7 + |f.data|
  {
    Le16(f.id) + [f.typ] + Le32(|f.data|) + f.data
  }

  function EncodeFields(fs: seq<Field>): Bytes {
    if fs == [] then [] else EncodeField(fs[0]) + EncodeFields(fs[1..])
  }

  /** Every data length survives the 32-bit length word. */
  predicate Fits(fs: seq<Field>) {
    forall i :: 0 <= i < |fs| ==> |fs[i].data| < U32_SIZE
  }

  lemma {:induction false} EncodeFieldsConcat(a: seq<Field>, b: seq<Field>)
    ensures EncodeFields(a + b) == EncodeFields(a) + EncodeFields(b)
  {
    if a == [] {
      assert a + b == b;
    } else {
      assert (a + b)[1..] == a[1..] + b;
      EncodeFieldsConcat(a[1..], b);
    }
  }

  // ---- Walking a field area ----

  /** The field whose 7-byte header starts at `at`, when header and data lie inside `s`. */
  function FieldAt(s: Bytes, at: nat): (f: Option<Field>)
    ensures f.Some? ==> at + 7 + |f.value.data| <= |s|
  {
    if at + 7 > |s| || at + 7 + U32At(s, at + 3) > |s| then None
    else Some(Field(U16At(s, at), s[at + 2], s[at + 7..at + 7 + U32At(s, at + 3)]))
  }

  /** What is left of `s` from `at` on: its fields, and where the walk stops; or a field cut short. */
  datatype Walk = Truncated | Walked(fields: seq<Field>, end: nat)

  function WalkFrom(s: Bytes, at: nat): Walk
    requires at <= |s|
    decreases |s| - at
  {
    if at + 7 > |s| then Walked([], at)
    else match FieldAt(s, at)
      case None => Truncated
      case Some(f) => Prepend([f], WalkFrom(s, at + 7 + |f.data|))
  }

  function Prepend(fs: seq<Field>, w: Walk): Walk {
    match w
    case Truncated => Truncated
    case Walked(gs, end) => Walked(fs + gs, end)
  }

  lemma PrependPrepend(fs: seq<Field>, f: Field, w: Walk)
    ensures Prepend(fs, Prepend([f], w)) == Prepend(fs + [f], w)
  {
    if w.Walked? {
      assert fs + ([f] + w.fields) == (fs + [f]) + w.fields;
    }
  }

  lemma FieldAtEncodes(s: Bytes, at: nat)
    requires FieldAt(s, at).Some?
    ensures var f := FieldAt(s, at).value;
            EncodeField(f) == s[at..at + 7 + |f.data|] && |f.data| < U32_SIZE
  {
    var f := FieldAt(s, at).value;
    Le16OfU16At(s, at);
    Le32OfU32At(s, at + 3);
    assert EncodeField(f) == s[at..at + 2] + [s[at + 2]] + s[at + 3..at + 7] + f.data;
  }

  lemma Parts(id: Bytes, typ: u8, len: Bytes, data: Bytes)
    requires |id| == 2 && |len| == 4
    ensures var e := id + [typ] + len + data;
            e[..2] == id && e[2] == typ && e[3..7] == len && e[7..] == data
  {
  }

  lemma FieldAtReads(f: Field, s: Bytes, at: nat)
    requires at + 7 + |f.data| <= |s| && s[at..at + 7 + |f.data|] == EncodeField(f)
    ensures U16At(s, at) == f.id && s[at + 2] == f.typ && U32At(s, at + 3) == |f.data| % U32_SIZE
    ensures |f.data| < U32_SIZE ==> FieldAt(s, at) == Some(f)
    ensures |f.data| >= U32_SIZE ==> FieldAt(s, at).Some? && FieldAt(s, at).value != f
  {
    var e := s[at..at + 7 + |f.data|];
    Parts(Le16(f.id), f.typ, Le32(|f.data|), f.data);
    var end := at + 7 + |f.data|;
    SliceOfSlice(s, at, end, 0, 2);
    SliceOfSlice(s, at, end, 3, 7);
    SliceOfSlice(s, at, end, 7, end - at);
    assert s[at + 2] == e[2];
    U16RoundTrip(f.id, s, at);
    U32RoundTrip(|f.data|, s, at + 3);
  }

  /** Soundness of the walk: the bytes it passes are exactly the encoding of the fields it reports. */
  lemma {:induction false} WalkEncodes(s: Bytes, at: nat)
    requires at <= |s| && WalkFrom(s, at).Walked?
    ensures var w := WalkFrom(s, at);
            && Fits(w.fields) && at <= w.end <= |s| < w.end + 7
            && s[at..w.end] == EncodeFields(w.fields)
    decreases |s| - at
  {
    hide FieldAt, EncodeField;
    if at + 7 <= |s| {
      var f := FieldAt(s, at).value;
      var next := at + 7 + |f.data|;
      WalkEncodes(s, next);
      FieldAtEncodes(s, at);
      var w := WalkFrom(s, at);
      assert w.fields[1..] == WalkFrom(s, next).fields;
      assert s[at..w.end] == s[at..next] + s[next..w.end];
    }
  }

  /** Completeness of the walk: it finds the encoded fields whenever fewer than 7 bytes follow them. */
  lemma {:induction false} WalkReads(fs: seq<Field>, s: Bytes, at: nat, end: nat)
    requires Fits(fs)
    requires at <= end <= |s| < end + 7 && s[at..end] == EncodeFields(fs)
    ensures WalkFrom(s, at) == Walked(fs, end)
  {
    hide FieldAt, EncodeField;
    if fs != [] {
      var f := fs[0];
      var n := |EncodeField(f)|;
      SliceOfSlice(s, at, end, 0, n);
      SliceOfSlice(s, at, end, n, end - at);
      FieldAtReads(f, s, at);
      WalkReads(fs[1..], s, at + n, end);
      assert [f] + fs[1..] == fs;
    }
  }

  /** A field area is walked to `fs` if and only if it is the encoding of `fs` and at most 6 stray bytes. */
  lemma WalkIffEncoded(s: Bytes, at: nat, fs: seq<Field>)
    requires at <= |s|
    ensures WalksTo(s, at, fs) <==> EncodesWithin(s, at, fs)
  {
    if WalksTo(s, at, fs) {
      WalkEncodes(s, at);
    }
    if EncodesWithin(s, at, fs) {
      WalkReads(fs, s, at, at + |EncodeFields(fs)|);
    }
  }

  predicate WalksTo(s: Bytes, at: nat, fs: seq<Field>)
    requires at <= |s|
  {
    WalkFrom(s, at).Walked? && WalkFrom(s, at).fields == fs
  }

  /** From `at` on, `s` is the encoding of `fs`, no length of which overflows, and fewer than 7 bytes. */
  predicate EncodesWithin(s: Bytes, at: nat, fs: seq<Field>) {
    var end := at + |EncodeFields(fs)|;
    Fits(fs) && end <= |s| < end + 7 && s[at..end] == EncodeFields(fs)
  }

  // ---- Loops over a field area ----

  /** The id of the field at index `i` of a response: counted from 1 in 16 bits, wrapping. */
  function WireId(i: nat): u16 {
    (i + 1) % U16_SIZE
  }

  lemma WireIdIs(i: nat, low: nat, q: nat)
    requires low < U16_SIZE && i + 1 == low + U16_SIZE * q
    ensures WireId(i) == low
  {
  }

  lemma WireIdNext(i: nat)
    ensures WireId(i + 1) == if WireId(i) + 1 == U16_SIZE then 0 else WireId(i) + 1
  {
    var q, r := (i + 1) / U16_SIZE, WireId(i);
    assert i + 1 == r + U16_SIZE * q;
    hide WireId;
    if r + 1 == U16_SIZE {
      WireIdIs(i + 1, 0, q + 1);
    } else {
      WireIdIs(i + 1, r + 1, q);
    }
  }

  lemma WireIdBack(i: nat)
    ensures (WireId(i) - 1) % U16_SIZE == i % U16_SIZE
  {
    if i == 0 {
      WireIdIs(0, 1, 0);
    } else {
      assert WireId(i - 1) == i % U16_SIZE;
      WireIdNext(i - 1);
      hide WireId;
    }
  }

  lemma EvenPart(r: nat, k: nat)
    ensures (r + 2 * k) % 2 == r % 2
  {
  }

  /** Counting on, and the parity the decoders rely on. */
  lemma WireIdSteps(i: nat)
    ensures (WireId(i) + 1) % U16_SIZE == WireId(i + 1)
    ensures WireId(i) % 2 == (i + 1) % 2
    ensures WireId(i) % 2 == 0 ==> WireId(i + 1) == WireId(i) + 1
    ensures (WireId(i) - 1) % U16_SIZE == i % U16_SIZE
    ensures i < U16_SIZE - 1 ==> WireId(i) == i + 1
  {
    var q, r := (i + 1) / U16_SIZE, WireId(i);
    assert i + 1 == r + U16_SIZE * q;
    hide WireId;
    EvenPart(r, 0x8000 * q);
    WireIdNext(i);
    WireIdBack(i);
    if i < U16_SIZE - 1 {
      WireIdIs(i, i + 1, 0);
    }
  }

  /** A loop has passed the fields `fs` between `start` and `at`. */
  ghost predicate Walking(s: Bytes, start: nat, at: nat, fs: seq<Field>) {
    start <= at <= |s| && WalkFrom(s, start) == Prepend(fs, WalkFrom(s, at))
  }

  lemma WalkBegins(s: Bytes, start: nat)
    requires start <= |s|
    ensures Walking(s, start, start, [])
  {
    var w := WalkFrom(s, start);
    if w.Walked? {
      assert [] + w.fields == w.fields;
    }
  }

  lemma WalkMoves(s: Bytes, start: nat, at: nat, fs: seq<Field>)
    requires Walking(s, start, at, fs) && FieldAt(s, at).Some?
    ensures var f := FieldAt(s, at).value;
            Walking(s, start, at + 7 + |f.data|, fs + [f])
  {
    var f := FieldAt(s, at).value;
    PrependPrepend(fs, f, WalkFrom(s, at + 7 + |f.data|));
  }

  /** What the loop meets at `at` is the next field of the walk, unless the walk is cut short. */
  lemma WalkMeets(s: Bytes, start: nat, at: nat, fs: seq<Field>)
    requires Walking(s, start, at, fs) && at + 7 <= |s|
    ensures var w := WalkFrom(s, start);
            w.Walked? ==> FieldAt(s, at).Some? && |fs| < |w.fields| && w.fields[|fs|] == FieldAt(s, at).value
  {
    if WalkFrom(s, start).Walked? {
      WalkMoves(s, start, at, fs);
    }
  }

  lemma WalkEnds(s: Bytes, start: nat, at: nat, fs: seq<Field>)
    requires Walking(s, start, at, fs) && at + 7 > |s|
    ensures WalkFrom(s, start) == Walked(fs, at)
  {
    assert fs + [] == fs;
  }

  /** The field header and data as the decoders read them at an offset. */
  lemma FieldAtIs(s: Bytes, at: nat)
    requires at + 7 <= |s|
    ensures FieldAt(s, at).Some? <==> at + 7 + U32At(s, at + 3) <= |s|
    ensures FieldAt(s, at).Some? ==>
      FieldAt(s, at).value == Field(U16At(s, at), s[at + 2], s[at + 7..at + 7 + U32At(s, at + 3)])
  {
  }

  lemma TooShort(s: Bytes, at: nat)
    requires at + 7 > |s|
    ensures FieldAt(s, at).None?
  {
  }

  // ---- A given number of fields ----

  function ReadFields(s: Bytes, at: nat, n: nat): (w: Walk)
    ensures w.Walked? ==> |w.fields| == n
    decreases n
  {
    if n == 0 then Walked([], at)
    else match FieldAt(s, at)
      case None => Truncated
      case Some(f) => Prepend([f], ReadFields(s, at + 7 + |f.data|, n - 1))
  }

  /** A loop over `n` fields that started at `start` has read `fs` and stands at `at`. */
  ghost predicate Reading(s: Bytes, start: nat, at: nat, fs: seq<Field>, n: nat) {
    at <= |s| && |fs| <= n && ReadFields(s, start, n) == Prepend(fs, ReadFields(s, at, n - |fs|))
  }

  lemma ReadingBegins(s: Bytes, start: nat, n: nat)
    requires start <= |s|
    ensures Reading(s, start, start, [], n)
  {
    var w := ReadFields(s, start, n);
    if w.Walked? {
      assert [] + w.fields == w.fields;
    }
  }

  lemma ReadFieldsStep(s: Bytes, at: nat, n: nat)
    requires n > 0
    ensures ReadFields(s, at, n)
         == match FieldAt(s, at)
            case None => Truncated
            case Some(f) => Prepend([f], ReadFields(s, at + 7 + |f.data|, n - 1))
  {
  }

  lemma PrependedField(fs: seq<Field>, f: Field, w: Walk)
    ensures w.Walked? ==> Prepend(fs + [f], w).fields[|fs|] == f
  {
  }

  lemma ReadingMoves(s: Bytes, start: nat, at: nat, fs: seq<Field>, n: nat)
    requires Reading(s, start, at, fs, n) && |fs| < n
    ensures FieldAt(s, at).None? ==> ReadFields(s, start, n).Truncated?
    ensures FieldAt(s, at).Some? ==>
      var f := FieldAt(s, at).value;
      Reading(s, start, at + 7 + |f.data|, fs + [f], n)
    ensures FieldAt(s, at).Some? && ReadFields(s, start, n).Walked? ==>
      ReadFields(s, start, n).fields[|fs|] == FieldAt(s, at).value
  {
    hide FieldAt, ReadFields;
    ReadFieldsStep(s, at, n - |fs|);
    if FieldAt(s, at).Some? {
      var f := FieldAt(s, at).value;
      var rest := ReadFields(s, at + 7 + |f.data|, n - |fs| - 1);
      PrependPrepend(fs, f, rest);
      PrependedField(fs, f, rest);
    }
  }

  lemma ReadingEnds(s: Bytes, start: nat, at: nat, fs: seq<Field>, n: nat)
    requires Reading(s, start, at, fs, n) && |fs| == n
    ensures ReadFields(s, start, n) == Walked(fs, at)
  {
    assert fs + [] == fs;
  }

  lemma {:induction false} ReadFieldsEncode(s: Bytes, at: nat, n: nat)
    requires at <= |s| && ReadFields(s, at, n).Walked?
    ensures var w := ReadFields(s, at, n);
            Fits(w.fields) && at <= w.end <= |s| && s[at..w.end] == EncodeFields(w.fields)
    decreases n
  {
    hide FieldAt, EncodeField;
    if n > 0 {
      var f := FieldAt(s, at).value;
      var next := at + 7 + |f.data|;
      ReadFieldsEncode(s, next, n - 1);
      FieldAtEncodes(s, at);
      var w := ReadFields(s, at, n);
      assert w.fields[1..] == ReadFields(s, next, n - 1).fields;
      assert s[at..w.end] == s[at..next] + s[next..w.end];
    }
  }

  lemma {:induction false} ReadFieldsRead(s: Bytes, at: nat, fs: seq<Field>, end: nat)
    requires Fits(fs) && at <= end <= |s| && s[at..end] == EncodeFields(fs)
    ensures ReadFields(s, at, |fs|) == Walked(fs, end)
    decreases |fs|
  {
    hide FieldAt, EncodeField;
    if fs == [] {
      assert |s[at..end]| == 0;
    } else {
      var f := fs[0];
      var n := |EncodeField(f)|;
      SliceOfSlice(s, at, end, 0, n);
      SliceOfSlice(s, at, end, n, end - at);
      FieldAtReads(f, s, at);
      ReadFieldsRead(s, at + n, fs[1..], end);
      assert [f] + fs[1..] == fs;
    }
  }

  /** Reading `|fs|` fields gives `fs` and stops at `end` exactly where the encoding of `fs` stands. */
  lemma ReadFieldsIffEncoded(s: Bytes, at: nat, fs: seq<Field>, end: nat)
    requires at <= |s|
    ensures ReadFields(s, at, |fs|) == Walked(fs, end)
       <==> Fits(fs) && at <= end <= |s| && s[at..end] == EncodeFields(fs)
  {
    if ReadFields(s, at, |fs|) == Walked(fs, end) {
      ReadFieldsEncode(s, at, |fs|);
    }
    if Fits(fs) && at <= end <= |s| && s[at..end] == EncodeFields(fs) {
      ReadFieldsRead(s, at, fs, end);
    }
  }

  // ---- The header of a response payload ----

  const SUCCESS: Bytes := [0x53, 0x55, 0x43, 0x43, 0x45, 0x53, 0x53]

  /** | statusLen(1) | status | fieldCount(2) | fields...; `fields` is where the field area starts. */
  datatype Head = Head(status: Bytes, count: u16, fields: nat)

  function ParseHead(data: Bytes): (h: Option<Head>)
    ensures h.Some? ==> h.value.fields <= |data|
  {
    if data == [] || |data| < data[0] as int + 3 then None
    else var n := data[0] as int;
         Some(Head(data[1..1 + n], U16At(data, 1 + n), 1 + n + 2))
  }

  function EncodeHead(status: Bytes, count: u16): Bytes
    requires |status| < 0x100
  {
    [|status|] + status + Le16(count)
  }

  lemma ParseHeadOfEncoded(status: Bytes, count: u16, body: Bytes)
    requires |status| < 0x100
    ensures var data := EncodeHead(status, count) + body;
            && ParseHead(data) == Some(Head(status, count, |status| + 3))
            && data[|status| + 3..] == body
  {
    var data := EncodeHead(status, count) + body;
    assert data[1..1 + |status|] == status;
    assert data[1 + |status|..1 + |status| + 2] == Le16(count);
    U16RoundTrip(count, data, 1 + |status|);
  }

  /** A payload has a head exactly if it starts with a length byte, that many status bytes and two count bytes. */
  lemma ParseHeadIffEncoded(data: Bytes, h: Head)
    ensures ParseHead(data) == Some(h)
       <==> && |h.status| < 0x100 && h.fields == |h.status| + 3 && h.fields <= |data|
            && data[..h.fields] == [|h.status|] + h.status + Le16(h.count)
  {
    hide Le16, U16At;
    if ParseHead(data) == Some(h) {
      var n := data[0] as int;
      Le16OfU16At(data, 1 + n);
      assert data[..n + 3] == [data[0]] + data[1..1 + n] + data[1 + n..1 + n + 2];
    }
    if |h.status| < 0x100 && h.fields == |h.status| + 3 && h.fields <= |data|
       && data[..h.fields] == [|h.status|] + h.status + Le16(h.count) {
      ParseHeadOfEncoded(h.status, h.count, data[h.fields..]);
      assert data == data[..h.fields] + data[h.fields..];
    }
  }

  lemma SuccessText()
    ensures Chars(SUCCESS) == "SUCCESS"
  {
  }

  /** A field on the wire: a 16-bit id, a type byte and a 32-bit length, low bytes first, and then the data. */
  lemma FieldLayout(i0: u8, i1: u8, typ: u8, l0: u8, l1: u8, l2: u8, l3: u8, data: Bytes)
    requires |data| == l0 as int + 0x100 * l1 as int + 0x1_0000 * l2 as int + 0x100_0000 * l3 as int
    ensures EncodeField(Field(i0 as int + 0x100 * i1 as int, typ, data)) == [i0, i1, typ, l0, l1, l2, l3] + data
  {
    LittleEndian(i0, i1, 0, 0);
    LittleEndian(l0, l1, l2, l3);
  }
}
