/** Request payloads: | nameLen(1) | name | fieldCount(2) | fields... |, the count patched in at the end. */
module Requests {
  import opened Bytes
  import opened Tlv
  import opened Framing

  // ---- The format ----

  function EncodeRequest(cmd: Bytes, fs: seq<Field>): Bytes
    requires |cmd| < 0x100
  {
    EncodeHead(cmd, |fs| % U16_SIZE) + EncodeFields(fs)
  }

  /** A reader for requests that insists on the exact count and leaves no byte over. */
  function ReadRequest(s: Bytes): Option<(Bytes, seq<Field>)> {
    match ParseHead(s)
    case None => None
    case Some(h) =>
      var w := WalkFrom(s, h.fields);
      if w.Walked? && w.end == |s| && |w.fields| == h.count then Some((h.status, w.fields)) else None
  }

  lemma RequestInvertibleIffFits(cmd: Bytes, fs: seq<Field>)
    requires |cmd| < 0x100 && |fs| < U16_SIZE
    ensures ReadRequest(EncodeRequest(cmd, fs)) == Some((cmd, fs)) <==> Fits(fs)
  {
    hide EncodeHead, EncodeFields, WalkFrom;
    var area := EncodeFields(fs);
    var s := EncodeRequest(cmd, fs);
    ParseHeadOfEncoded(cmd, |fs|, area);
    var start := |cmd| + 3;
    assert s[start..] == area && s[start..start + |area|] == area;
    WalkIffEncoded(s, start, fs);
    if Fits(fs) {
      WalkReads(fs, s, start, |s|);
    }
  }

  /** Draining a framed request reports the length of its command name and the patched field count. */
  lemma FramedRequestReports(id: u32, cmd: Bytes, fs: seq<Field>, rest: Bytes)
    requires |cmd| < 0x100 && |EncodeRequest(cmd, fs)| < U32_SIZE
    ensures Drain(FrameBytes(Shard(id, EncodeRequest(cmd, fs))) + rest)
         == Got(Header(id, |cmd|, |fs| % U16_SIZE), EncodeRequest(cmd, fs), rest)
  {
    hide EncodeHead, EncodeFields, ParseHead, FrameBytes, Drain;
    var payload := EncodeRequest(cmd, fs);
    ParseHeadOfEncoded(cmd, |fs| % U16_SIZE, EncodeFields(fs));
    DrainIffEncoded(FrameBytes(Shard(id, payload)) + rest, HeaderOf(id, payload), payload, rest);
  }

  // ---- Rows: the fields a builder may add, in the order it adds them ----

  datatype Row = Row(id: u16, typ: u8, value: Option<Bytes>)

  function FieldsOf(rows: seq<Row>): seq<Field> {
    if rows == [] then []
    else (match rows[0].value
          case None => []
          case Some(data) => [Field(rows[0].id, rows[0].typ, data)]) + FieldsOf(rows[1..])
  }

  predicate Increasing(rows: seq<Row>) {
    forall i, j :: 0 <= i < j < |rows| ==> rows[i].id < rows[j].id
  }

  predicate IdsIncrease(fs: seq<Field>) {
    forall i, j :: 0 <= i < j < |fs| ==> fs[i].id < fs[j].id
  }

  /** The data of the field with this id, if it has this type. */
  function Lookup(fs: seq<Field>, id: u16, typ: u8): Option<Bytes> {
    if fs == [] then None
    else if fs[0].id == id then (if fs[0].typ == typ then Some(fs[0].data) else None)
    else Lookup(fs[1..], id, typ)
  }

  predicate IsOf(f: Field, row: Row) {
    f.id == row.id && f.typ == row.typ && row.value == Some(f.data)
  }

  lemma {:induction false} FieldsSnoc(rows: seq<Row>, row: Row)
    ensures FieldsOf(rows + [row])
         == FieldsOf(rows) + (if row.value.None? then [] else [Field(row.id, row.typ, row.value.value)])
  {
    if rows == [] {
      assert [] + [row] == [row] && [row][1..] == [];
    } else {
      hide FieldsOf;
      var rest := rows[1..];
      FieldsSnoc(rest, row);
      FieldsOfCons(rows);
      FieldsOfCons(rows + [row]);
      assert (rows + [row])[1..] == rest + [row];
    }
  }

  lemma FieldsOfCons(rows: seq<Row>)
    requires rows != []
    ensures var row := rows[0];
            FieldsOf(rows) == (if row.value.None? then [] else [Field(row.id, row.typ, row.value.value)])
                              + FieldsOf(rows[1..])
  {
  }

  /** The fields come from the rows, in the order of the rows. */
  lemma {:induction false} FieldsFromRows(rows: seq<Row>)
    requires Increasing(rows)
    ensures |FieldsOf(rows)| <= |rows| && IdsIncrease(FieldsOf(rows))
    ensures forall k :: 0 <= k < |FieldsOf(rows)| ==> exists i :: 0 <= i < |rows| && IsOf(FieldsOf(rows)[k], rows[i])
  {
    if rows != [] {
      var rest := rows[1..];
      FieldsFromRows(rest);
      assert forall i :: 0 <= i < |rest| ==> rest[i] == rows[i + 1];
      forall k | 0 <= k < |FieldsOf(rest)|
        ensures rows[0].id < FieldsOf(rest)[k].id
        ensures exists i :: 0 <= i < |rows| && IsOf(FieldsOf(rest)[k], rows[i])
      {
        var i :| 0 <= i < |rest| && IsOf(FieldsOf(rest)[k], rest[i]);
        assert IsOf(FieldsOf(rest)[k], rows[i + 1]);
      }
    }
  }

  /** Rows numbered from 1, as all builders number theirs. */
  predicate Numbered(rows: seq<Row>) {
    |rows| < U16_SIZE && forall i :: 0 <= i < |rows| ==> rows[i].id == i + 1
  }

  /** The fields of numbered rows: increasing ids, the types of their rows, and every row found under its id. */
  lemma NumberedRowsEncodeWell(rows: seq<Row>)
    requires Numbered(rows)
    ensures IdsIncrease(FieldsOf(rows)) && |FieldsOf(rows)| <= |rows|
    ensures forall f :: f in FieldsOf(rows) ==> 1 <= f.id <= |rows| && f.typ == rows[f.id - 1].typ
    ensures forall i :: 0 <= i < |rows| ==> Lookup(FieldsOf(rows), rows[i].id, rows[i].typ) == rows[i].value
  {
    hide FieldsOf;
    FieldsFromRows(rows);
    forall i | 0 <= i < |rows|
      ensures Lookup(FieldsOf(rows), rows[i].id, rows[i].typ) == rows[i].value
    {
      LookupRow(rows, i);
    }
    forall f | f in FieldsOf(rows)
      ensures 1 <= f.id <= |rows| && f.typ == rows[f.id - 1].typ
    {
      var k :| 0 <= k < |FieldsOf(rows)| && FieldsOf(rows)[k] == f;
      var i :| 0 <= i < |rows| && IsOf(FieldsOf(rows)[k], rows[i]);
    }
  }

  lemma {:induction false} LookupMissing(rows: seq<Row>, id: u16, typ: u8)
    requires forall i :: 0 <= i < |rows| ==> rows[i].id != id
    ensures Lookup(FieldsOf(rows), id, typ).None?
  {
    if rows != [] {
      LookupMissing(rows[1..], id, typ);
      if rows[0].value.Some? {
        assert FieldsOf(rows)[1..] == FieldsOf(rows[1..]);
      } else {
        assert FieldsOf(rows) == FieldsOf(rows[1..]);
      }
    }
  }

  /** Looking an id up gives back what its row held, present or absent. */
  lemma {:induction false} LookupRow(rows: seq<Row>, i: nat)
    requires Increasing(rows) && i < |rows|
    ensures Lookup(FieldsOf(rows), rows[i].id, rows[i].typ) == rows[i].value
  {
    var rest := rows[1..];
    if i == 0 {
      LookupMissing(rest, rows[0].id, rows[0].typ);
      if rows[0].value.None? {
        assert FieldsOf(rows) == FieldsOf(rest);
      }
    } else {
      LookupRow(rest, i - 1);
      if rows[0].value.Some? {
        assert FieldsOf(rows)[1..] == FieldsOf(rest);
      } else {
        assert FieldsOf(rows) == FieldsOf(rest);
      }
    }
  }

  // ---- The buffer and its add_field closure ----

  class RequestBuffer {
    var buf: Bytes
    var fieldCount: u16
    const fieldCountPos: nat

    /** The rows added so far are in the buffer; the count bytes are still zero. */
    ghost predicate Holds(cmd: Bytes, rows: seq<Row>)
      reads this
    {
      && |cmd| < 0x100 && fieldCountPos == 1 + |cmd|
      && buf == [|cmd|] + cmd + [0, 0] + EncodeFields(FieldsOf(rows))
      && fieldCount == |FieldsOf(rows)| % U16_SIZE
    }

    constructor (cmd: Bytes)
      requires |cmd| < 0x100
      ensures Holds(cmd, [])
    {
      buf := [|cmd|] + cmd + Le16(0);
      fieldCountPos := 1 + |cmd|;
      fieldCount := 0;
    }

    method AddField(id: u16, typ: u8, data: Bytes)
      modifies this
      ensures buf == old(buf) + EncodeField(Field(id, typ, data))
      ensures fieldCount == (old(fieldCount) + 1) % U16_SIZE
    {
      buf := buf + Le16(id);
      buf := buf + [typ];
      buf := buf + Le32(|data|);
      buf := buf + data;
      fieldCount := (fieldCount + 1) % U16_SIZE;
    }

    /** `if let Some(v) = value { add_field(id, typ, v) }`, for row `n` of `rows`. */
    method AddRow(id: u16, typ: u8, value: Option<Bytes>, ghost cmd: Bytes, ghost rows: seq<Row>, ghost n: nat)
      requires n < |rows| && rows[n] == Row(id, typ, value) && Holds(cmd, rows[..n])
      modifies this
      ensures Holds(cmd, rows[..n + 1])
    {
      hide EncodeField, FieldsOf;
      ghost var before := rows[..n];
      assert rows[..n + 1] == before + [rows[n]];
      FieldsSnoc(before, rows[n]);
      match value {
        case None =>
          assert FieldsOf(rows[..n + 1]) == FieldsOf(before);
        case Some(data) =>
          AddField(id, typ, data);
          EncodeFieldsConcat(FieldsOf(before), [Field(id, typ, data)]);
          assert EncodeFields([Field(id, typ, data)]) == EncodeField(Field(id, typ, data));
      }
    }

    method PatchFieldCount(ghost cmd: Bytes, ghost rows: seq<Row>)
      requires Holds(cmd, rows)
      modifies this
      ensures buf == EncodeRequest(cmd, FieldsOf(rows))
    {
      hide FieldsOf, EncodeFields;
      var bytes := Le16(fieldCount);
      buf := buf[fieldCountPos := bytes[0]];
      buf := buf[fieldCountPos + 1 := bytes[1]];
      assert buf == [|cmd|] + cmd + bytes + EncodeFields(FieldsOf(rows));
    }
  }

  // ---- Typed queries ----

  /** The bytes of an f64. */
  type Double = b: Bytes | |b| == 8 witness [0, 0, 0, 0, 0, 0, 0, 0]

  function Byte(v: Option<u8>): Option<Bytes> {
    match v
    case None => None
    case Some(b) => Some([b])
  }

  function Word(v: Option<u32>): Option<Bytes> {
    match v
    case None => None
    case Some(n) => Some(Le32(n))
  }

  function Long(v: Option<u64>): Option<Bytes> {
    match v
    case None => None
    case Some(n) => Some(Le64(n))
  }

  function Raw(v: Option<Double>): Option<Bytes> {
    match v
    case None => None
    case Some(d) => Some(d)
  }

  function ReadByte(v: Option<Bytes>): Option<u8> {
    if v.Some? && |v.value| == 1 then Some(v.value[0]) else None
  }

  function ReadWord(v: Option<Bytes>): Option<u32> {
    if v.Some? && |v.value| == 4 then Some(U32At(v.value, 0)) else None
  }

  function ReadLong(v: Option<Bytes>): Option<u64> {
    if v.Some? && |v.value| == 8 then Some(U64At(v.value, 0)) else None
  }

  function ReadDouble(v: Option<Bytes>): Option<Double> {
    if v.Some? && |v.value| == 8 then Some(v.value) else None
  }

  lemma ReadsNumbers(b: Option<u8>, w: Option<u32>, l: Option<u64>, d: Option<Double>)
    ensures ReadByte(Byte(b)) == b && ReadWord(Word(w)) == w && ReadLong(Long(l)) == l && ReadDouble(Raw(d)) == d
  {
    hide Le32, Le64, U32At, U64At;
    if w.Some? {
      assert Le32(w.value)[0..4] == Le32(w.value);
      U32RoundTrip(w.value, Le32(w.value), 0);
    }
    if l.Some? {
      assert Le64(l.value)[0..8] == Le64(l.value);
      U64RoundTrip(l.value, Le64(l.value), 0);
    }
  }
}
