/** The two wire forms of a property id: a short string split around a marker byte, and a UUID. */
module PropertyId {
  import opened Bytes
  import opened Json

  const MARKER: u8 := 0xF0

  // ---- Short form ----

  /** The bytes before the first NUL. */
  function CString(bs: Bytes): (s: Bytes)
    ensures |s| <= |bs| && s == bs[..|s|] && 0 !in s
    ensures |s| < |bs| ==> bs[|s|] == 0
  {
    if bs == [] || bs[0] == 0 then [] else [bs[0]] + CString(bs[1..])
  }

  predicate IsShort(data: Bytes) {
    |data| >= 7 && data[6] == MARKER
  }

  function ShortId(data: Bytes): Bytes
    requires IsShort(data)
  {
    CString(data[..6]) + CString(data[7..])
  }

  function Nuls(n: nat): (z: Bytes)
    ensures |z| == n && forall i :: 0 <= i < n ==> z[i] == 0
  {
    seq(n, _ => 0)
  }

  /** How an id is laid out in short form: six bytes, NUL-padded, the marker, and whatever is left. */
  function PackShort(id: Bytes): (data: Bytes)
    ensures IsShort(data) && data[6] == 0xF0
    ensures forall i :: 0 <= i < 6 ==> data[i] == if i < |id| then id[i] else 0
    ensures data[7..] == if |id| > 6 then id[6..] else []
  {
    if |id| <= 6 then id + Nuls(6 - |id|) + [MARKER] else id[..6] + [MARKER] + id[6..]
  }

  lemma {:induction false} CStringIs(bs: Bytes, n: nat)
    requires n <= |bs| && 0 !in bs[..n] && (n < |bs| ==> bs[n] == 0)
    ensures CString(bs) == bs[..n]
  {
    if n > 0 {
      assert bs[0] == bs[..n][0];
      assert bs[1..][..n - 1] == bs[..n][1..];
      CStringIs(bs[1..], n - 1);
      assert [bs[0]] + bs[1..][..n - 1] == bs[..n];
    }
  }

  /** Unpacking undoes packing for exactly the ids without a NUL byte. */
  lemma ShortRoundTripIffNulFree(id: Bytes)
    ensures ShortId(PackShort(id)) == id <==> 0 !in id
  {
    var data := PackShort(id);
    var left, right := data[..6], data[7..];
    if 0 !in id {
      if |id| <= 6 {
        assert left == id + Nuls(6 - |id|) && left[..|id|] == id && right == [];
        CStringIs(left, |id|);
      } else {
        assert left == id[..6] && left[..6] == left && right == id[6..] && right[..|right|] == right;
        CStringIs(left, 6);
        CStringIs(right, |right|);
      }
    }
  }

  // ---- UUID form (section 4 of RFC 9562) ----

  function HexDigit(d: nat): (c: char)
    requires d < 16
  {
    if d < 10 then Digit(d) else 'a' + (d - 10) as char
  }

  function HexValue(c: char): (d: Option<nat>)
    ensures d.Some? ==> d.value < 16
  {
    if IsDigit(c) then Some(DigitValue(c))
    else if 'a' <= c <= 'f' then Some((c - 'a') as nat + 10)
    else None
  }

  function Hex2(b: u8): (s: string)
    ensures |s| == 2
  {
    [HexDigit(b as int / 16), HexDigit(b as int % 16)]
  }

  function HexText(bs: Bytes): (s: string)
    ensures |s| == 2 * |bs|
  {
    if bs == [] then "" else Hex2(bs[0]) + HexText(bs[1..])
  }

  /** Hyphenated lower-case text, 8-4-4-4-12 digits. */
  function UuidText(u: Bytes): (s: string)
    requires |u| == 16
    ensures |s| == 36
  {
    HexText(u[..4]) + "-" + HexText(u[4..6]) + "-" + HexText(u[6..8]) + "-" + HexText(u[8..10]) + "-" + HexText(u[10..])
  }

  function ReadHex(s: string): Option<Bytes> {
    if s == "" then Some([])
    else if |s| == 1 then None
    else match (HexValue(s[0]), HexValue(s[1]), ReadHex(s[2..]))
      case (Some(hi), Some(lo), Some(bs)) => Some([16 * hi + lo] + bs)
      case _ => None
  }

  function ReadUuid(s: string): Option<Bytes> {
    if |s| != 36 || s[8] != '-' || s[13] != '-' || s[18] != '-' || s[23] != '-' then None
    else ReadHex(s[..8] + s[9..13] + s[14..18] + s[19..23] + s[24..])
  }

  lemma {:induction false} HexTextConcat(a: Bytes, b: Bytes)
    ensures HexText(a + b) == HexText(a) + HexText(b)
  {
    if a == [] {
      assert a + b == b;
    } else {
      assert (a + b)[1..] == a[1..] + b;
      HexTextConcat(a[1..], b);
    }
  }

  lemma {:induction false} ReadHexOfText(bs: Bytes)
    ensures ReadHex(HexText(bs)) == Some(bs)
  {
    if bs != [] {
      var s, hi, lo := HexText(bs), bs[0] as int / 16, bs[0] as int % 16;
      ReadHexOfText(bs[1..]);
      assert s[0] == HexDigit(hi) && s[1] == HexDigit(lo) && s[2..] == HexText(bs[1..]);
      assert HexValue(HexDigit(hi)) == Some(hi) && HexValue(HexDigit(lo)) == Some(lo);
      assert [16 * hi + lo] + bs[1..] == bs;
    }
  }

  lemma Groups(a: string, b: string, c: string, d: string, e: string)
    requires |a| == 8 && |b| == |c| == |d| == 4 && |e| == 12
    ensures var s := a + "-" + b + "-" + c + "-" + d + "-" + e;
            && s[..8] == a && s[9..13] == b && s[14..18] == c && s[19..23] == d && s[24..] == e
            && s[8] == s[13] == s[18] == s[23] == '-'
  {
  }

  lemma UuidRoundTrip(u: Bytes)
    requires |u| == 16
    ensures ReadUuid(UuidText(u)) == Some(u)
  {
    hide HexText, ReadHex;
    var a, b, c, d, e := u[..4], u[4..6], u[6..8], u[8..10], u[10..];
    Groups(HexText(a), HexText(b), HexText(c), HexText(d), HexText(e));
    HexTextConcat(a, b);
    HexTextConcat(a + b, c);
    HexTextConcat(a + b + c, d);
    HexTextConcat(a + b + c + d, e);
    assert a + b + c + d + e == u;
    ReadHexOfText(u);
  }

  // ---- Both forms ----

  /** Byte 6 holds a UUID version that the decoders accept. */
  predicate IsUuid(data: Bytes) {
    |data| >= 7 && !IsShort(data) && data[6] as int / 16 in {1, 2, 3, 4, 5, 7}
  }

  /** The first 16 bytes, zero-padded. */
  function Uuid16(data: Bytes): (u: Bytes)
    ensures |u| == 16
  {
    if |data| < 16 then data + Nuls(16 - |data|) else data[..16]
  }

  /** The text an id stands for, with its short form read as characters. */
  function PropertyIdText(data: Bytes): string {
    if IsShort(data) then Chars(ShortId(data))
    else if IsUuid(data) then UuidText(Uuid16(data))
    else ""
  }

  function PropertyIdString(data: Bytes, lossy: Bytes -> string): string {
    if IsShort(data) then lossy(ShortId(data)) else PropertyIdText(data)
  }

  /** The short form: the 6 bytes before the marker 0xF0 and all bytes behind it, each part up to its first NUL. */
  lemma ShortFormShows(data: Bytes, l: nat, r: nat, lossy: Bytes -> string)
    requires |data| >= 7 && data[6] == 0xF0
    requires l <= 6 && 0 !in data[..l] && (l < 6 ==> data[l] == 0)
    requires 7 + r <= |data| && 0 !in data[7..7 + r] && (7 + r < |data| ==> data[7 + r] == 0)
    ensures PropertyIdText(data) == Chars(data[..l] + data[7..7 + r])
    ensures PropertyIdString(data, lossy) == lossy(data[..l] + data[7..7 + r])
  {
    assert data[..6][..l] == data[..l] && data[7..][..r] == data[7..7 + r];
    CStringIs(data[..6], l);
    CStringIs(data[7..], r);
  }

  /** The UUID form, versions 1 to 5 and 7: the text reads back to the first 16 bytes, padded with zeros. */
  lemma UuidFormShows(data: Bytes)
    requires |data| >= 7 && data[6] as int / 16 in {1, 2, 3, 4, 5, 7}
    ensures ReadUuid(PropertyIdText(data)).Some? && |ReadUuid(PropertyIdText(data)).value| == 16
    ensures forall i :: 0 <= i < 16 ==> ReadUuid(PropertyIdText(data)).value[i] == if i < |data| then data[i] else 0
  {
    hide ReadUuid, UuidText;
    UuidRoundTrip(Uuid16(data));
  }

  /** Everything else shows nothing. */
  lemma OtherFormsShowNothing(data: Bytes, lossy: Bytes -> string)
    requires |data| < 7 || (data[6] != 0xF0 && data[6] as int / 16 !in {1, 2, 3, 4, 5, 7})
    ensures PropertyIdText(data) == "" && PropertyIdString(data, lossy) == ""
  {
  }

  /** What `String::from_utf8_lossy` does with ASCII. */
  ghost predicate KeepsAscii(lossy: Bytes -> string) {
    forall bs: Bytes :: Ascii(bs) ==> lossy(bs) == Chars(bs)
  }

  /**
   `bytes_to_property_id`; `lossy` stands for `String::from_utf8_lossy`. It gives the same text as the
   streaming writer below whenever the short form holds ASCII.
   */
  method BytesToPropertyId(data: Bytes, lossy: Bytes -> string) returns (text: string)
    ensures text == PropertyIdString(data, lossy)
    ensures KeepsAscii(lossy) && (IsShort(data) ==> Ascii(ShortId(data))) ==> text == PropertyIdText(data)
  {
    if |data| < 7 {
      return "";
    }
    if data[6] == MARKER {
      var leftLen := 0;
      while leftLen < 6 && data[leftLen] != 0
        invariant leftLen <= 6 && 0 !in data[..6][..leftLen]
      {
        assert data[..6][..leftLen + 1] == data[..6][..leftLen] + [data[leftLen]];
        leftLen := leftLen + 1;
      }
      CStringIs(data[..6], leftLen);
      var right := data[7..];
      var rightLen := 0;
      while rightLen < |right| && right[rightLen] != 0
        invariant rightLen <= |right| && 0 !in right[..rightLen]
      {
        assert right[..rightLen + 1] == right[..rightLen] + [right[rightLen]];
        rightLen := rightLen + 1;
      }
      CStringIs(right, rightLen);
      assert data[..leftLen] == data[..6][..leftLen];
      return lossy(data[..leftLen] + right[..rightLen]);
    }
    var version := data[6] as int / 16;
    if version in {1, 2, 3, 4, 5, 7} {
      return UuidText(Uuid16(data));
    }
    return "";
  }

  /** `write_quoted_property_id`: the same text, quoted, pushed piece by piece. */
  method WriteQuotedPropertyId(json: string, data: Bytes) returns (out: string)
    ensures out == json + Quoted(PropertyIdText(data))
  {
    if |data| < 7 {
      return json + "\"\"";
    }
    if data[6] == MARKER {
      out := WriteShort(json, data);
      return;
    }
    var version := data[6] as int / 16;
    if version in {1, 2, 3, 4, 5, 7} {
      out := json + ['"'];
      out := WriteUuid(out, Uuid16(data));
      out := out + ['"'];
      return;
    }
    return json + "\"\"";
  }

  method WriteShort(json: string, data: Bytes) returns (out: string)
    requires IsShort(data)
    ensures out == json + Quoted(Chars(ShortId(data)))
  {
    out := json + ['"'];
    out := WriteParts(out, data[..6], data[7..]);
    out := out + ['"'];
  }

  method WriteParts(json: string, left: Bytes, right: Bytes) returns (out: string)
    ensures out == json + Chars(CString(left) + CString(right))
  {
    hide CString, Chars;
    out := PushUntilNul(json, left);
    if |right| >= 1 {
      out := PushUntilNul(out, right);
    }
    CharsConcat(CString(left), CString(right));
    assert out == json + Chars(CString(left)) + Chars(CString(right));
  }

  /** The unrolled hexadecimal writer, group by group. */
  method WriteUuid(json: string, u: Bytes) returns (out: string)
    requires |u| == 16
    ensures out == json + UuidText(u)
  {
    hide HexText;
    out := PushGroup4(json, u);
    out := out + ['-'];
    out := PushGroup2(out, u, 4);
    out := out + ['-'];
    out := PushGroup2(out, u, 6);
    out := out + ['-'];
    out := PushGroup2(out, u, 8);
    out := out + ['-'];
    out := PushGroup6(out, u);
    Regroup(json, HexText(u[..4]), HexText(u[4..6]), HexText(u[6..8]), HexText(u[8..10]), HexText(u[10..]));
  }

  lemma Regroup(z: string, a: string, b: string, c: string, d: string, e: string)
    ensures z + a + ['-'] + b + ['-'] + c + ['-'] + d + ['-'] + e == z + (a + "-" + b + "-" + c + "-" + d + "-" + e)
  {
    var ab, abc, abcd := a + "-" + b, a + "-" + b + "-" + c, a + "-" + b + "-" + c + "-" + d;
    assert z + a + ['-'] + b == z + ab;
    assert z + ab + ['-'] + c == z + abc;
    assert z + abc + ['-'] + d == z + abcd;
    assert z + abcd + ['-'] + e == z + (abcd + "-" + e);
  }

  lemma NoHexYet(u: Bytes, i: nat, json: string)
    requires i <= |u|
    ensures json == json + HexText(u[i..i])
  {
  }

  method PushGroup4(json: string, u: Bytes) returns (out: string)
    requires |u| == 16
    ensures out == json + HexText(u[..4])
  {
    hide HexText;
    NoHexYet(u, 0, json);
    out := PushHex(json, u, 0, 0, json);
    out := PushHex(out, u, 1, 0, json);
    out := PushHex(out, u, 2, 0, json);
    out := PushHex(out, u, 3, 0, json);
    assert u[0..4] == u[..4];
  }

  method PushGroup2(json: string, u: Bytes, i: nat) returns (out: string)
    requires |u| == 16 && i <= 14
    ensures out == json + HexText(u[i..i + 2])
  {
    hide HexText;
    NoHexYet(u, i, json);
    out := PushHex(json, u, i, i, json);
    out := PushHex(out, u, i + 1, i, json);
  }

  method PushGroup6(json: string, u: Bytes) returns (out: string)
    requires |u| == 16
    ensures out == json + HexText(u[10..])
  {
    hide HexText;
    NoHexYet(u, 10, json);
    out := PushHex(json, u, 10, 10, json);
    out := PushHex(out, u, 11, 10, json);
    out := PushHex(out, u, 12, 10, json);
    out := PushHex(out, u, 13, 10, json);
    out := PushHex(out, u, 14, 10, json);
    out := PushHex(out, u, 15, 10, json);
    assert u[10..16] == u[10..];
  }

  /** Two digits for byte `i`; `base` is the buffer before the group that starts at byte `from`. */
  method PushHex(json: string, u: Bytes, i: nat, ghost from: nat, ghost base: string) returns (out: string)
    requires from <= i < |u| && json == base + HexText(u[from..i])
    ensures out == base + HexText(u[from..i + 1])
  {
    out := json + [HexDigit(u[i] as int / 16)];
    out := out + [HexDigit(u[i] as int % 16)];
    assert u[from..i + 1] == u[from..i] + [u[i]];
    HexTextConcat(u[from..i], [u[i]]);
    assert HexText([u[i]]) == Hex2(u[i]) + HexText([]);
  }

  method PushUntilNul(json: string, part: Bytes) returns (out: string)
    ensures out == json + Chars(CString(part))
  {
    out := json;
    var i := 0;
    while i < |part| && part[i] != 0
      invariant i <= |part| && 0 !in part[..i] && out == json + Chars(part[..i])
    {
      assert part[..i + 1] == part[..i] + [part[i]];
      out := out + [part[i] as char];
      i := i + 1;
    }
    CStringIs(part, i);
  }

  // ---- UUIDs digit by digit ----

  lemma HexIs(d: nat)
    requires d < 16
    ensures HexDigit(d) == "0123456789abcdef"[d]
  {
  }

  lemma {:induction false} HexTextAt(bs: Bytes, i: nat)
    requires i < |bs|
    ensures HexText(bs)[2 * i] == "0123456789abcdef"[bs[i] as int / 16]
    ensures HexText(bs)[2 * i + 1] == "0123456789abcdef"[bs[i] as int % 16]
  {
    HexIs(bs[i] as int / 16);
    HexIs(bs[i] as int % 16);
    if i > 0 {
      HexTextAt(bs[1..], i - 1);
    }
  }

  /** Two lower-case digits per byte, in order, with a hyphen before bytes 4, 6, 8 and 10. */
  lemma UuidSpelled(u: Bytes, i: nat)
    requires |u| == 16 && i < 16
    ensures var t := UuidText(u);
            var at := 2 * i + if i < 4 then 0 else if i < 6 then 1 else if i < 8 then 2 else if i < 10 then 3 else 4;
            && |t| == 36 && t[8] == t[13] == t[18] == t[23] == '-'
            && t[at] == "0123456789abcdef"[u[i] as int / 16] && t[at + 1] == "0123456789abcdef"[u[i] as int % 16]
  {
    hide HexText;
    var t := UuidText(u);
    Groups(HexText(u[..4]), HexText(u[4..6]), HexText(u[6..8]), HexText(u[8..10]), HexText(u[10..]));
    if i < 4 {
      HexTextAt(u[..4], i);
      assert t[2 * i] == t[..8][2 * i] && t[2 * i + 1] == t[..8][2 * i + 1];
    } else if i < 6 {
      HexTextAt(u[4..6], i - 4);
      assert t[2 * i + 1] == t[9..13][2 * i - 8] && t[2 * i + 2] == t[9..13][2 * i - 7];
    } else if i < 8 {
      HexTextAt(u[6..8], i - 6);
      assert t[2 * i + 2] == t[14..18][2 * i - 12] && t[2 * i + 3] == t[14..18][2 * i - 11];
    } else if i < 10 {
      HexTextAt(u[8..10], i - 8);
      assert t[2 * i + 3] == t[19..23][2 * i - 16] && t[2 * i + 4] == t[19..23][2 * i - 15];
    } else {
      HexTextAt(u[10..], i - 10);
      assert t[2 * i + 4] == t[24..][2 * i - 20] && t[2 * i + 5] == t[24..][2 * i - 19];
    }
  }
}
