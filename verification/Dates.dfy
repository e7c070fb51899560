/** Bit-packed dates: | year offset (3 bits) | month - 1 (4 bits) | day - 1 (5 bits) |, low 12 bits of a u16. */
module Dates {
  import opened Bytes
  import opened Json

  /** The current year as the clock gives it; a year offset of 7 still has four digits. */
  type ClockYear = y: int | 0 <= y <= 9992

  datatype Date = Date(year: nat, month: nat, day: nat)

  // ---- Calendar (section 5.7 and appendix C of RFC 3339) ----

  predicate LeapYear(y: nat) {
    y % 4 == 0 && (y % 100 != 0 || y % 400 == 0)
  }

  function DaysIn(y: nat, m: nat): nat {
    if m == 2 then (if LeapYear(y) then 29 else 28)
    else if m in {4, 6, 9, 11} then 30
    else 31
  }

  predicate ValidDate(d: Date) {
    d.year <= 9999 && 1 <= d.month <= 12 && 1 <= d.day <= DaysIn(d.year, d.month)
  }

  /**
   Which dates exist, spelled out. Counted from March, month lengths follow the rule of 153 days in five months; only
   February is left over.
   */
  lemma CalendarIs(y: nat, m: nat, d: nat)
    ensures ValidDate(Date(y, m, d))
       <==> && y <= 9999 && 1 <= m <= 12 && 1 <= d
            && (if m == 2 then d <= 28 || (d == 29 && y % 4 == 0 && (y % 100 != 0 || y % 400 == 0))
                else d <= (153 * ((m + 9) % 12 + 1) + 2) / 5 - (153 * ((m + 9) % 12) + 2) / 5)
  {
  }

  predicate Before(a: Date, b: Date) {
    || a.year < b.year
    || (a.year == b.year && (a.month < b.month || (a.month == b.month && a.day < b.day)))
  }

  /** `NaiveDate::from_ymd_opt` for the years the clock allows. */
  function FromYmd(y: nat, m: nat, d: nat): Option<Date> {
    if ValidDate(Date(y, m, d)) then Some(Date(y, m, d)) else None
  }

  // ---- Text (section 5.6 of RFC 3339) ----

  function Pow10(w: nat): nat {
    if w == 0 then 1 else 10 * Pow10(w - 1)
  }

  /** The last `w` decimal digits of `n`, zero-padded. */
  function Padded(n: nat, w: nat): (s: string)
    ensures |s| == w && forall i :: 0 <= i < w ==> IsDigit(s[i])
  {
    if w == 0 then "" else Padded(n / 10, w - 1) + [Digit(n % 10)]
  }

  function FullDate(d: Date): (s: string)
    ensures |s| == 10
  {
    Padded(d.year, 4) + "-" + Padded(d.month, 2) + "-" + Padded(d.day, 2)
  }

  /** A reader of full-date that knows nothing about packing. */
  function ReadFullDate(s: string): Option<Date> {
    if |s| != 10 || s[4] != '-' || s[7] != '-' then None
    else if exists i | 0 <= i < 10 && i != 4 && i != 7 :: !IsDigit(s[i]) then None
    else FromYmd(ValueOf(s[..4]), ValueOf(s[5..7]), ValueOf(s[8..]))
  }

  lemma {:induction false} ValueOfPadded(n: nat, w: nat)
    requires n < Pow10(w)
    ensures ValueOf(Padded(n, w)) == n
  {
    if w > 0 {
      ValueOfPadded(n / 10, w - 1);
      assert Padded(n, w)[..w - 1] == Padded(n / 10, w - 1);
    }
  }

  lemma FullDateParts(d: Date)
    ensures var s := FullDate(d);
            && s[..4] == Padded(d.year, 4) && s[4] == '-' && s[5..7] == Padded(d.month, 2)
            && s[7] == '-' && s[8..] == Padded(d.day, 2)
  {
    var s := FullDate(d);
    var y, m, e := Padded(d.year, 4), Padded(d.month, 2), Padded(d.day, 2);
    assert s == y + (['-'] + m + ['-'] + e);
    assert s[5..7] == m;
    assert s[8..] == e;
  }

  lemma FullDateReads(d: Date)
    requires ValidDate(d)
    ensures ReadFullDate(FullDate(d)) == Some(d)
  {
    var s := FullDate(d);
    FullDateParts(d);
    assert Pow10(4) == 10 * Pow10(3) == 10000 && Pow10(2) == 10 * Pow10(1) == 100;
    ValueOfPadded(d.year, 4);
    ValueOfPadded(d.month, 2);
    ValueOfPadded(d.day, 2);
    forall i | 0 <= i < 10 && i != 4 && i != 7
      ensures IsDigit(s[i])
    {
      if i < 4 {
        assert s[i] == s[..4][i];
      } else if i < 7 {
        assert s[i] == s[5..7][i - 5];
      } else {
        assert s[i] == s[8..][i - 8];
      }
    }
  }

  // ---- The byte order of texts ----

  /** Lexicographic order, as `cmp` on byte vectors gives it. */
  predicate LexLess(a: string, b: string) {
    b != "" && (a == "" || a[0] < b[0] || (a[0] == b[0] && LexLess(a[1..], b[1..])))
  }

  lemma {:induction false} LexConcat(a: string, b: string, c: string, d: string)
    requires |a| == |c|
    ensures LexLess(a + b, c + d) <==> LexLess(a, c) || (a == c && LexLess(b, d))
  {
    if a == "" {
      assert a + b == b && c + d == d;
    } else {
      assert (a + b)[1..] == a[1..] + b && (c + d)[1..] == c[1..] + d;
      LexConcat(a[1..], b, c[1..], d);
      assert a == c <==> a[0] == c[0] && a[1..] == c[1..];
    }
  }

  lemma TensFirst(n: nat, m: nat)
    ensures n < m <==> n / 10 < m / 10 || (n / 10 == m / 10 && n % 10 < m % 10)
  {
  }

  lemma {:induction false} LexPadded(n: nat, m: nat, w: nat)
    requires n < Pow10(w) && m < Pow10(w)
    ensures LexLess(Padded(n, w), Padded(m, w)) <==> n < m
    ensures Padded(n, w) == Padded(m, w) <==> n == m
  {
    ValueOfPadded(n, w);
    ValueOfPadded(m, w);
    if w > 0 {
      LexPadded(n / 10, m / 10, w - 1);
      var x, y := [Digit(n % 10)], [Digit(m % 10)];
      TensFirst(n, m);
      LexConcat(Padded(n / 10, w - 1), x, Padded(m / 10, w - 1), y);
      assert LexLess(x, y) <==> x[0] < y[0];
    }
  }

  lemma LexDash(a: string, b: string, c: string, d: string)
    requires |a| == |c|
    ensures LexLess(a + "-" + b, c + "-" + d) <==> LexLess(a, c) || (a == c && LexLess(b, d))
  {
    assert a + "-" + b == a + ("-" + b) && c + "-" + d == c + ("-" + d);
    LexConcat(a, "-" + b, c, "-" + d);
    assert ("-" + b)[1..] == b && ("-" + d)[1..] == d;
  }

  /** Dates written as YYYY-MM-DD sort as text exactly as they sort in the calendar. */
  lemma TextOrderIsCalendarOrder(a: Date, b: Date)
    requires ValidDate(a) && ValidDate(b)
    ensures LexLess(FullDate(a), FullDate(b)) <==> Before(a, b)
    ensures FullDate(a) == FullDate(b) <==> a == b
  {
    assert Pow10(4) == 10 * Pow10(3) == 10000 && Pow10(2) == 10 * Pow10(1) == 100;
    LexPadded(a.year, b.year, 4);
    LexPadded(a.month, b.month, 2);
    LexPadded(a.day, b.day, 2);
    var aMonthDay := Padded(a.month, 2) + "-" + Padded(a.day, 2);
    var bMonthDay := Padded(b.month, 2) + "-" + Padded(b.day, 2);
    LexDash(Padded(a.month, 2), Padded(a.day, 2), Padded(b.month, 2), Padded(b.day, 2));
    LexDash(Padded(a.year, 4), aMonthDay, Padded(b.year, 4), bMonthDay);
    assert FullDate(a) == Padded(a.year, 4) + "-" + aMonthDay;
    assert FullDate(b) == Padded(b.year, 4) + "-" + bMonthDay;
    FullDateReads(a);
    FullDateReads(b);
  }

  // ---- The two decoders ----

  /** The masks and shifts of a packed date. */
  function Unpack(packed: u16, year: ClockYear): Date {
    Date(year + packed as int / 0x200 % 8, packed as int / 0x20 % 0x10 + 1, packed as int % 0x20 + 1)
  }

  predicate ValidPacked(packed: u16, year: ClockYear) {
    ValidDate(Unpack(packed, year))
  }

  function U16ToDate(packed: u16, year: ClockYear): (r: Option<string>)
    ensures r.Some? <==> ValidPacked(packed, year)
    ensures r.Some? ==> ReadFullDate(r.value) == Some(Unpack(packed, year))
  {
    var d := Unpack(packed, year);
    match FromYmd(d.year, d.month, d.day)
    case None => None
    case Some(date) =>
      FullDateReads(d);
      if date.month != d.month || date.day != d.day then None else Some(FullDate(date))
  }

  method WriteFourDigits(buf: string, year: nat) returns (out: string)
    requires year <= 9999
    ensures out == buf + Padded(year, 4)
  {
    var n := year;
    out := buf + [Digit(n / 1000)];
    n := n % 1000;
    out := out + [Digit(n / 100)];
    n := n % 100;
    out := out + [Digit(n / 10)];
    out := out + [Digit(n % 10)];
    FourDigits(year);
  }

  lemma FourDigits(n: nat)
    requires n <= 9999
    ensures Padded(n, 4)
         == [Digit(n / 1000), Digit(n % 1000 / 100), Digit(n % 1000 % 100 / 10), Digit(n % 1000 % 100 % 10)]
  {
    hide Padded;
    var a, b, c, d := n / 1000, n % 1000 / 100, n % 1000 % 100 / 10, n % 1000 % 100 % 10;
    assert n == 10 * (100 * a + 10 * b + c) + d;
    PaddedDigit(100 * a + 10 * b + c, d, 3);
    PaddedDigit(10 * a + b, c, 2);
    PaddedDigit(a, b, 1);
    PaddedDigit(0, a, 0);
  }

  lemma PaddedDigit(q: nat, d: nat, w: nat)
    requires d < 10
    ensures Padded(10 * q + d, w + 1) == Padded(q, w) + [Digit(d)]
  {
  }

  method WriteTwoDigits(buf: string, value: nat) returns (out: string)
    requires value <= 99
    ensures out == buf + Padded(value, 2)
  {
    var n := value;
    out := buf;
    if n < 10 {
      out := out + ['0'];
    } else {
      out := out + [Digit(n / 10)];
      n := n % 10;
    }
    out := out + [Digit(n)];
    assert Padded(value / 10, 1) == [Digit(value / 10)];
    assert Padded(value, 2) == [Digit(value / 10), Digit(value % 10)];
  }

  /** The fast writer accepts what `U16ToDate` accepts and appends the same text; on refusal it appends nothing. */
  method WritePackedDate(json: string, packed: u16, year: ClockYear) returns (ok: bool, out: string)
    ensures ok <==> U16ToDate(packed, year).Some?
    ensures out == if ok then json + U16ToDate(packed, year).value else json
  {
    var yearOffset := packed as int / 0x200 % 8;
    var month := packed as int / 0x20 % 0x10 + 1;
    var day := packed as int % 0x20 + 1;
    if month > 12 || day > 31 {
      return false, json;
    }
    var targetYear := year + yearOffset;
    match FromYmd(targetYear, month, day) {
      case None =>
        return false, json;
      case Some(date) =>
        if date.month != month || date.day != day {
          return false, json;
        }
    }
    out := WriteFourDigits(json, targetYear);
    out := out + ['-'];
    out := WriteTwoDigits(out, month);
    out := out + ['-'];
    out := WriteTwoDigits(out, day);
    ok := true;
  }

  /**
   What a packed date means: a value is shown as the date `d` if and only if `d` exists, lies in the eight years
   from the current one, and its year offset, month and day make up the low 12 bits.
   */
  lemma ShownIffPacked(packed: u16, year: ClockYear, d: Date)
    requires ValidDate(d)
    ensures U16ToDate(packed, year) == Some(FullDate(d))
       <==> && year <= d.year <= year + 7
            && packed as int % 0x1000 == 0x200 * (d.year - year) + 0x20 * (d.month - 1) + (d.day - 1)
  {
    hide FullDate, ValidDate, U16ToDate;
    var u := Unpack(packed, year);
    ShownIs(packed, year, d);
    DayFits(d);
    Low12(packed);
    if year <= d.year <= year + 7 {
      SameDigits(u.year - year, u.month - 1, u.day - 1, d.year - year, d.month - 1, d.day - 1);
    }
  }

  lemma ShownIs(packed: u16, year: ClockYear, d: Date)
    requires ValidDate(d)
    ensures U16ToDate(packed, year) == Some(FullDate(d)) <==> Unpack(packed, year) == d
    ensures year <= Unpack(packed, year).year <= year + 7
  {
    hide FullDate;
    if ValidPacked(packed, year) {
      TextOrderIsCalendarOrder(Unpack(packed, year), d);
    }
  }

  lemma DayFits(d: Date)
    requires ValidDate(d)
    ensures 1 <= d.month <= 12 && 1 <= d.day <= 31
  {
  }

  /** Three digits of 3, 4 and 5 bits are determined by the number they make. */
  lemma SameDigits(a: nat, b: nat, c: nat, x: nat, y: nat, z: nat)
    requires b < 0x10 && c < 0x20 && y < 0x10 && z < 0x20
    ensures 0x200 * a + 0x20 * b + c == 0x200 * x + 0x20 * y + z <==> a == x && b == y && c == z
  {
  }

  /** A value is accepted if and only if its low 12 bits are such a packing of some date; the upper 4 are ignored. */
  lemma AcceptedIffPacked(packed: u16, year: ClockYear)
    ensures U16ToDate(packed, year).Some?
       <==> exists d :: && ValidDate(d) && year <= d.year <= year + 7
                        && packed as int % 0x1000 == 0x200 * (d.year - year) + 0x20 * (d.month - 1) + (d.day - 1)
  {
    var u := Unpack(packed, year);
    if U16ToDate(packed, year).Some? {
      ShownIffPacked(packed, year, u);
    }
    if d :| && ValidDate(d) && year <= d.year <= year + 7
            && packed as int % 0x1000 == 0x200 * (d.year - year) + 0x20 * (d.month - 1) + (d.day - 1) {
      ShownIffPacked(packed, year, d);
    }
  }

  /**
   For accepted values under one current year, the order of the low 12 bits, the order of the calendar
   and the order of the texts are the same; the upper 4 bits do not matter.
   */
  lemma PackedOrder(p: u16, q: u16, year: ClockYear)
    requires ValidPacked(p, year) && ValidPacked(q, year)
    ensures p % 0x1000 < q % 0x1000 <==> Before(Unpack(p, year), Unpack(q, year))
    ensures p % 0x1000 < q % 0x1000
       <==> LexLess(U16ToDate(p, year).value, U16ToDate(q, year).value)
    ensures p % 0x1000 == q % 0x1000 <==> U16ToDate(p, year) == U16ToDate(q, year)
  {
    Low12(p);
    Low12(q);
    TextOrderIsCalendarOrder(Unpack(p, year), Unpack(q, year));
  }

  lemma Low12(p: u16)
    ensures p as int % 0x1000 == 0x200 * (p as int / 0x200 % 8) + 0x20 * (p as int / 0x20 % 0x10) + p as int % 0x20
  {
    var a: int := p;
    var q1 := a / 0x20;
    var q2 := q1 / 0x10;
    assert a / 0x200 == q2;
    var q3 := q2 / 8;
    var low := a % 0x20 + 0x20 * (q1 % 0x10) + 0x200 * (q2 % 8);
    assert a == low + 0x1000 * q3;
    assert 0 <= low < 0x1000;
  }

  /** A date is shown as four digits for the year and two each for month and day, with hyphens between them. */
  lemma FullDateSpelled(d: Date)
    requires ValidDate(d)
    ensures var c := "0123456789";
            FullDate(d) == [c[d.year / 1000], c[d.year % 1000 / 100], c[d.year % 1000 % 100 / 10], c[d.year % 10], '-',
                            c[d.month / 10], c[d.month % 10], '-', c[d.day / 10], c[d.day % 10]]
  {
    FourDigits(d.year);
    TwoDigits(d.month);
    TwoDigits(d.day);
    forall k | 0 <= k < 10
      ensures Digit(k) == "0123456789"[k]
    {
      DigitIs(k);
    }
    LastDigit(d.year);
  }

  lemma LastDigit(n: nat)
    ensures n % 1000 % 100 % 10 == n % 10
  {
    var tens, d := 100 * (n / 1000) + 10 * (n % 1000 / 100) + n % 1000 % 100 / 10, n % 1000 % 100 % 10;
    assert n == 10 * tens + d;
  }

  lemma TwoDigits(n: nat)
    requires n <= 99
    ensures Padded(n, 2) == [Digit(n / 10), Digit(n % 10)]
  {
    hide Padded;
    var tens, d := n / 10, n % 10;
    assert n == 10 * tens + d;
    PaddedDigit(tens, d, 1);
    PaddedDigit(0, tens, 0);
  }
}
