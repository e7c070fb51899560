/** Machine integers, byte strings and the little-endian encodings of the wire format. */
module Bytes {

  const U16_SIZE := 0x1_0000
  const U32_SIZE := 0x1_0000_0000
  const U64_SIZE := 0x1_0000_0000_0000_0000

  type u8 = x: int | 0 <= x < 0x100
  type u16 = x: int | 0 <= x < U16_SIZE
  type u32 = x: int | 0 <= x < U32_SIZE
  type u64 = x: int | 0 <= x < U64_SIZE

  type Bytes = seq<u8>

  datatype Option<+T> = None | Some(value: T)

  /** `to_le_bytes` of an `n as u16`, `n as u32` and `n as u64`: the casts drop the high bits. */
  function Le16(n: nat): (bs: Bytes)
    ensures |bs| == 2
  {
    [n % 0x100, n / 0x100 % 0x100]
  }

  function Le32(n: nat): (bs: Bytes)
    ensures |bs| == 4
  {
    [n % 0x100, n / 0x100 % 0x100, n / 0x100 / 0x100 % 0x100, n / 0x100 / 0x100 / 0x100 % 0x100]
  }

  function Le64(n: nat): (bs: Bytes)
    ensures |bs| == 8
  {
    Le32(n) + Le32(n / U32_SIZE)
  }

  /** `from_le_bytes` of the two, four or eight bytes of `s` that start at `at`. */
  function U16At(s: Bytes, at: nat): u16
    requires at + 2 <= |s|
  {
    s[at] as int + 0x100 * s[at + 1] as int
  }

  function U32At(s: Bytes, at: nat): u32
    requires at + 4 <= |s|
  {
    s[at] as int + 0x100 * s[at + 1] as int + 0x1_0000 * s[at + 2] as int + 0x100_0000 * s[at + 3] as int
  }

  function U64At(s: Bytes, at: nat): u64
    requires at + 8 <= |s|
  {
    U32At(s, at) as int + U32_SIZE * U32At(s, at + 4) as int
  }

  /** The first byte counts ones, the next ones 256 each, and so on: writers and readers are little-endian. */
  lemma LittleEndian(b0: u8, b1: u8, b2: u8, b3: u8)
    ensures Le16(b0 as int + 0x100 * b1 as int) == [b0, b1] && U16At([b0, b1], 0) == b0 as int + 0x100 * b1 as int
    ensures var n := b0 as int + 0x100 * b1 as int + 0x1_0000 * b2 as int + 0x100_0000 * b3 as int;
            Le32(n) == [b0, b1, b2, b3] && U32At([b0, b1, b2, b3], 0) == n
  {
    var n: int := b0 as int + 0x100 * b1 as int + 0x1_0000 * b2 as int + 0x100_0000 * b3 as int;
    assert n / 0x100 == b1 as int + 0x100 * b2 as int + 0x1_0000 * b3 as int;
    assert n / 0x100 / 0x100 == b2 as int + 0x100 * b3 as int;
    assert n / 0x100 / 0x100 / 0x100 == b3 as int;
  }

  /** Eight bytes are two words, the low one first. */
  lemma LittleEndian64(low: u32, high: u32)
    ensures Le64(low as int + 0x1_0000_0000 * high as int) == Le32(low) + Le32(high)
    ensures U64At(Le32(low) + Le32(high), 0) == low as int + 0x1_0000_0000 * high as int
  {
    var n: nat := low as int + 0x1_0000_0000 * high as int;
    var s := Le32(low) + Le32(high);
    Le64OfWords(n, low, high);
    U64RoundTrip(n, s, 0);
    assert s[0..8] == s;
  }

  lemma Le64OfWords(n: nat, low: u32, high: u32)
    requires n == low as int + 0x1_0000_0000 * high as int
    ensures Le64(n) == Le32(low) + Le32(high) && n % U64_SIZE == n
  {
    assert n / U32_SIZE == high as int;
    Split64(n);
    U32RoundTrip(n, Le32(n), 0);
    U32RoundTrip(low, Le32(low), 0);
    Le32OfU32At(Le32(n), 0);
    Le32OfU32At(Le32(low), 0);
  }

  lemma U16RoundTrip(n: nat, s: Bytes, at: nat)
    requires at + 2 <= |s| && s[at..at + 2] == Le16(n)
    ensures U16At(s, at) == n % U16_SIZE
  {
    assert s[at] == s[at..at + 2][0] && s[at + 1] == s[at..at + 2][1];
  }

  /** The low four base-256 digits of `n` make up `n % 2^32`. */
  lemma Split32(n: nat)
    ensures n % U32_SIZE
         == n % 0x100 + 0x100 * (n / 0x100 % 0x100) + 0x1_0000 * (n / 0x100 / 0x100 % 0x100)
          + 0x100_0000 * (n / 0x100 / 0x100 / 0x100 % 0x100)
  {
    var q1 := n / 0x100;
    var q2 := q1 / 0x100;
    var q3 := q2 / 0x100;
    var q4 := q3 / 0x100;
    var low := n % 0x100 + 0x100 * (q1 % 0x100) + 0x1_0000 * (q2 % 0x100) + 0x100_0000 * (q3 % 0x100);
    assert n == low + U32_SIZE * q4;
    ModOfSum(low, q4);
  }

  lemma Split64(n: nat)
    ensures n % U64_SIZE == n % U32_SIZE + U32_SIZE * (n / U32_SIZE % U32_SIZE)
  {
  }

  lemma ModOfSum(low: nat, q: nat)
    requires low < U32_SIZE
    ensures (low + U32_SIZE * q) % U32_SIZE == low
  {
  }

  lemma U32RoundTrip(n: nat, s: Bytes, at: nat)
    requires at + 4 <= |s| && s[at..at + 4] == Le32(n)
    ensures U32At(s, at) == n % U32_SIZE
  {
    var w := s[at..at + 4];
    assert s[at] == w[0] && s[at + 1] == w[1] && s[at + 2] == w[2] && s[at + 3] == w[3];
    Split32(n);
  }

  lemma U64RoundTrip(n: nat, s: Bytes, at: nat)
    requires at + 8 <= |s| && s[at..at + 8] == Le64(n)
    ensures U64At(s, at) == n % U64_SIZE
  {
    SliceOfSlice(s, at, at + 8, 0, 4);
    SliceOfSlice(s, at, at + 8, 4, 8);
    U32RoundTrip(n, s, at);
    U32RoundTrip(n / U32_SIZE, s, at + 4);
    Split64(n);
  }

  lemma SliceOfSlice<T>(s: seq<T>, a: nat, b: nat, i: nat, j: nat)
    requires a <= b <= |s| && i <= j <= b - a
    ensures s[a..b][i..j] == s[a + i..a + j]
  {
    var t := s[a..b];
    forall k | 0 <= k < j - i
      ensures t[i..j][k] == s[a + i..a + j][k]
    {
      assert t[i..j][k] == t[i + k] == s[a + i + k];
    }
  }

  /** Re-encoding the decoded integer gives the bytes back. */
  lemma Le16OfU16At(s: Bytes, at: nat)
    requires at + 2 <= |s|
    ensures Le16(U16At(s, at)) == s[at..at + 2]
  {
  }

  lemma Le32OfU32At(s: Bytes, at: nat)
    requires at + 4 <= |s|
    ensures Le32(U32At(s, at)) == s[at..at + 4]
  {
    var b0: int, b1: int, b2: int, b3: int := s[at], s[at + 1], s[at + 2], s[at + 3];
    var n := U32At(s, at);
    assert n / 0x100 == b1 + 0x100 * b2 + 0x1_0000 * b3;
    assert n / 0x100 / 0x100 == b2 + 0x100 * b3;
    assert n / 0x100 / 0x100 / 0x100 == b3;
  }

  /** Bytes copied into a text buffer: byte `b` becomes the character with code `b`. */
  function Chars(bs: Bytes): (s: string)
    ensures |s| == |bs| && forall i :: 0 <= i < |bs| ==> s[i] == bs[i] as char
  {
    seq(|bs|, i requires 0 <= i < |bs| => bs[i] as char)
  }

  lemma CharsConcat(a: Bytes, b: Bytes)
    ensures Chars(a + b) == Chars(a) + Chars(b)
  {
  }

  lemma SameChars(a: Bytes, b: Bytes)
    ensures Chars(a) == Chars(b) <==> a == b
  {
    if Chars(a) == Chars(b) {
      assert |a| == |Chars(a)| == |b|;
      forall i | 0 <= i < |a|
        ensures a[i] == b[i]
      {
        assert Chars(a)[i] == Chars(b)[i];
      }
    }
  }

  predicate Ascii(bs: Bytes) {
    forall i :: 0 <= i < |bs| ==> bs[i] < 0x80
  }
}
