/** Rate features: the announced list of names, and the 24-bit masks that refer to it by position. */
module Features {
  import opened Bytes
  import opened Json

  // ---- The announced names ----

  /** Unicode White_Space, as `char::is_whitespace`. */
  predicate IsWhitespace(c: char) {
    var n := c as int;
    9 <= n <= 13 || n in {0x20, 0x85, 0xA0, 0x1680, 0x2028, 0x2029, 0x202F, 0x205F, 0x3000} || 0x2000 <= n <= 0x200A
  }

  function Split(s: string): (parts: seq<string>)
    ensures parts != [] && forall i :: 0 <= i < |parts| ==> ',' !in parts[i]
  {
    if s == "" then [""]
    else
      var rest := Split(s[1..]);
      if s[0] == ',' then [""] + rest else [[s[0]] + rest[0]] + rest[1..]
  }

  function TrimStart(s: string): (t: string)
    ensures t != "" ==> !IsWhitespace(t[0])
    ensures t <= s || |t| < |s|
    ensures forall c :: c in t ==> c in s
  {
    if s != "" && IsWhitespace(s[0]) then TrimStart(s[1..]) else s
  }

  function TrimEnd(s: string): (t: string)
    ensures t <= s
    ensures t != "" ==> !IsWhitespace(t[|t| - 1])
  {
    if s != "" && IsWhitespace(s[|s| - 1]) then TrimEnd(s[..|s| - 1]) else s
  }

  function Trim(s: string): (t: string)
    ensures Trimmed(t)
    ensures forall c :: c in t ==> c in s
    ensures Trimmed(s) ==> t == s
  {
    TrimEnd(TrimStart(s))
  }

  predicate Blank(s: string) {
    forall c :: c in s ==> IsWhitespace(c)
  }

  lemma {:induction false} TrimStartIs(s: string) returns (a: string)
    ensures s == a + TrimStart(s) && Blank(a)
  {
    a := "";
    if s != "" && IsWhitespace(s[0]) {
      a := TrimStartIs(s[1..]);
      assert s == [s[0]] + s[1..];
      a := [s[0]] + a;
    }
  }

  lemma {:induction false} TrimEndIs(s: string) returns (b: string)
    ensures s == TrimEnd(s) + b && Blank(b)
  {
    b := "";
    if s != "" && IsWhitespace(s[|s| - 1]) {
      b := TrimEndIs(s[..|s| - 1]);
      assert s == s[..|s| - 1] + [s[|s| - 1]];
      b := b + [s[|s| - 1]];
    }
  }

  /** Trimming takes away white space at both ends, and nothing else: the result is trimmed, what is gone is blank. */
  lemma TrimIs(s: string) returns (a: string, b: string)
    ensures s == a + Trim(s) + b && Blank(a) && Blank(b) && Trimmed(Trim(s))
  {
    hide IsWhitespace;
    a := TrimStartIs(s);
    b := TrimEndIs(TrimStart(s));
  }

  predicate Trimmed(s: string) {
    s != "" ==> !IsWhitespace(s[0]) && !IsWhitespace(s[|s| - 1])
  }

  function TrimAll(parts: seq<string>): seq<string> {
    if parts == [] then [] else [Trim(parts[0])] + TrimAll(parts[1..])
  }

  function DropEmpty(parts: seq<string>): seq<string> {
    if parts == [] then []
    else (if parts[0] == "" then [] else [parts[0]]) + DropEmpty(parts[1..])
  }

  /** `split(',').map(trim).filter(non-empty)`. */
  function NameList(raw: string): seq<string> {
    DropEmpty(TrimAll(Split(raw)))
  }

  function Join(names: seq<string>): string {
    if names == [] then ""
    else if |names| == 1 then names[0]
    else names[0] + "," + Join(names[1..])
  }

  predicate GoodName(s: string) {
    s != "" && Trimmed(s) && ',' !in s
  }

  predicate GoodNames(names: seq<string>) {
    forall i :: 0 <= i < |names| ==> GoodName(names[i])
  }

  lemma {:induction false} SplitAtComma(name: string, rest: string)
    requires ',' !in name
    ensures Split(name + "," + rest) == [name] + Split(rest)
  {
    var s := name + "," + rest;
    if name == "" {
      assert s[1..] == rest;
    } else {
      assert s[1..] == name[1..] + "," + rest;
      SplitAtComma(name[1..], rest);
      assert [name[0]] + name[1..] == name;
    }
  }

  lemma {:induction false} SplitNoComma(name: string)
    requires ',' !in name
    ensures Split(name) == [name]
  {
    if name != "" {
      SplitNoComma(name[1..]);
      assert [name[0]] + name[1..] == name;
    }
  }

  lemma {:induction false} NameListOfJoin(names: seq<string>)
    requires GoodNames(names)
    ensures NameList(Join(names)) == names
  {
    if names == [] {
      assert Split("") == [""] && TrimAll([""]) == [Trim("")] + TrimAll([]);
    } else if |names| == 1 {
      SplitNoComma(names[0]);
      assert TrimAll([names[0]]) == [names[0]] + TrimAll([]);
      assert DropEmpty([names[0]]) == [names[0]] + DropEmpty([]);
      assert names == [names[0]];
    } else {
      var name, rest := names[0], names[1..];
      assert GoodName(name) && GoodNames(rest);
      SplitAtComma(name, Join(rest));
      NameListOfJoin(rest);
      var parts := Split(Join(rest));
      assert ([name] + parts)[1..] == parts;
      assert TrimAll([name] + parts) == [name] + TrimAll(parts);
      assert ([name] + TrimAll(parts))[1..] == TrimAll(parts);
      assert names == [name] + rest;
    }
  }

  lemma {:induction false} NamesAreGood(parts: seq<string>)
    requires forall i :: 0 <= i < |parts| ==> ',' !in parts[i]
    ensures GoodNames(DropEmpty(TrimAll(parts)))
  {
    if parts != [] {
      NamesAreGood(parts[1..]);
      assert TrimAll(parts)[1..] == TrimAll(parts[1..]);
      var first, rest := Trim(parts[0]), DropEmpty(TrimAll(parts[1..]));
      if first == "" {
        assert DropEmpty(TrimAll(parts)) == rest;
      } else {
        assert ',' !in first;
        assert DropEmpty(TrimAll(parts)) == [first] + rest;
      }
    }
  }

  /** Reading a comma-joined announcement gives the names back exactly when each is a good name. */
  lemma NameListInvertsJoinIffGood(names: seq<string>)
    ensures NameList(Join(names)) == names <==> GoodNames(names)
  {
    NamesAreGood(Split(Join(names)));
    if GoodNames(names) {
      NameListOfJoin(names);
    }
  }

  /** The names a list of comma-free pieces announces: each trimmed, the empty ones left out, in order. */
  function Announce(pieces: seq<string>): seq<string> {
    if pieces == [] then []
    else if Trim(pieces[0]) == "" then Announce(pieces[1..])
    else [Trim(pieces[0])] + Announce(pieces[1..])
  }

  lemma {:induction false} SplitInvertsJoin(pieces: seq<string>)
    requires pieces != [] && forall i :: 0 <= i < |pieces| ==> ',' !in pieces[i]
    ensures Split(Join(pieces)) == pieces
  {
    if |pieces| == 1 {
      SplitNoComma(pieces[0]);
    } else {
      SplitInvertsJoin(pieces[1..]);
      SplitAtComma(pieces[0], Join(pieces[1..]));
      assert pieces == [pieces[0]] + pieces[1..];
    }
  }

  lemma {:induction false} DropTrimIsAnnounce(pieces: seq<string>)
    ensures DropEmpty(TrimAll(pieces)) == Announce(pieces)
  {
    if pieces != [] {
      DropTrimIsAnnounce(pieces[1..]);
      assert TrimAll(pieces)[1..] == TrimAll(pieces[1..]);
    }
  }

  /** Every text is a join of comma-free pieces, so this says what any text announces. */
  lemma NameListOfPieces(pieces: seq<string>)
    requires pieces != [] && forall i :: 0 <= i < |pieces| ==> ',' !in pieces[i]
    ensures NameList(Join(pieces)) == Announce(pieces)
  {
    SplitInvertsJoin(pieces);
    DropTrimIsAnnounce(pieces);
  }

  // ---- Masks ----

  function Pow2(i: nat): (p: nat)
    ensures p > 0
  {
    if i == 0 then 1 else 2 * Pow2(i - 1)
  }

  /** `mask & (1 << i) != 0`. */
  predicate Bit(mask: u32, i: nat) {
    mask as int / Pow2(i) % 2 == 1
  }

  /** The masks have 24 usable bits. */
  function Usable(features: seq<string>): nat {
    if |features| < 24 then |features| else 24
  }

  /** The names of the set bits among the first `k`. */
  function Selected(features: seq<string>, mask: u32, k: nat): seq<string>
    requires k <= |features|
  {
    if k == 0 then []
    else if Bit(mask, k - 1) then Selected(features, mask, k - 1) + [features[k - 1]]
    else Selected(features, mask, k - 1)
  }

  function FeatureNames(features: seq<string>, mask: u32): seq<string> {
    Selected(features, mask, Usable(features))
  }

  predicate Distinct(features: seq<string>) {
    forall i, j :: 0 <= i < j < |features| ==> features[i] != features[j]
  }

  lemma {:induction false} SelectedIffBit(features: seq<string>, mask: u32, k: nat, i: nat)
    requires Distinct(features) && i < |features| && k <= |features|
    ensures features[i] in Selected(features, mask, k) <==> i < k && Bit(mask, i)
  {
    if k > 0 {
      SelectedIffBit(features, mask, k - 1, i);
    }
  }

  lemma {:induction false} SameBitsSameNames(features: seq<string>, m: u32, n: u32, k: nat)
    requires k <= |features|
    requires forall i :: 0 <= i < k ==> (Bit(m, i) <==> Bit(n, i))
    ensures Selected(features, m, k) == Selected(features, n, k)
  {
    if k > 0 {
      SameBitsSameNames(features, m, n, k - 1);
    }
  }

  /** With distinct names, two masks print alike if and only if they agree on the low min(24, n) bits. */
  lemma MaskRecoverable(features: seq<string>, m: u32, n: u32)
    requires Distinct(features)
    ensures FeatureNames(features, m) == FeatureNames(features, n)
       <==> forall i :: 0 <= i < Usable(features) ==> (Bit(m, i) <==> Bit(n, i))
  {
    var k := Usable(features);
    if FeatureNames(features, m) == FeatureNames(features, n) {
      forall i | 0 <= i < k
        ensures Bit(m, i) <==> Bit(n, i)
      {
        SelectedIffBit(features, m, k, i);
        SelectedIffBit(features, n, k, i);
      }
    } else {
      if forall i :: 0 <= i < k ==> (Bit(m, i) <==> Bit(n, i)) {
        SameBitsSameNames(features, m, n, k);
      }
    }
  }

  // ---- What a mask means ----

  /** The mask that selects the set positions of `sel`. */
  function MaskOf(sel: seq<bool>): nat {
    if sel == [] then 0 else (if sel[0] then 1 else 0) + 2 * MaskOf(sel[1..])
  }

  /** The features at the set positions, in order, up to the end of the shorter list. */
  function Chosen(features: seq<string>, sel: seq<bool>): seq<string> {
    if features == [] || sel == [] then []
    else (if sel[0] then [features[0]] else []) + Chosen(features[1..], sel[1..])
  }

  lemma QuotientIs(x: nat, d: nat, q: nat, r: nat)
    requires r < d && x == d * q + r
    ensures x / d == q
  {
    var p, s := x / d, x % d;
    assert x == d * p + s;
    if p < q {
      Times(d, q - p);
    } else if q < p {
      Times(d, p - q);
    }
  }

  lemma Times(d: nat, k: nat)
    requires k >= 1
    ensures d * k >= d
  {
  }

  lemma DivTwice(x: nat, p: nat)
    requires p > 0
    ensures x / (2 * p) == x / 2 / p
  {
    var h, b := x / 2, x % 2;
    var q, r := h / p, h % p;
    assert x == 2 * h + b && h == p * q + r;
    assert 2 * (p * q) == 2 * p * q;
    QuotientIs(x, 2 * p, q, 2 * r + b);
  }

  /** A bit of the mask is set exactly if its position is, whatever stands above the selection. */
  lemma {:induction false} BitIs(sel: seq<bool>, high: nat, m: nat, i: nat)
    requires i < |sel| && m == MaskOf(sel) + Pow2(|sel|) * high
    ensures m / Pow2(i) % 2 == 1 <==> sel[i]
  {
    var rest := sel[1..];
    var above := MaskOf(rest) + Pow2(|rest|) * high;
    assert Pow2(|sel|) * high == 2 * (Pow2(|rest|) * high) by {
      assert Pow2(|sel|) == 2 * Pow2(|rest|);
    }
    assert m == (if sel[0] then 1 else 0) + 2 * above;
    if i == 0 {
      assert Pow2(0) == 1;
    } else {
      BitIs(rest, high, above, i - 1);
      DivTwice(m, Pow2(i - 1));
    }
  }

  lemma {:induction false} ChosenSnoc(features: seq<string>, sel: seq<bool>, f: string, b: bool)
    requires |features| == |sel|
    ensures Chosen(features + [f], sel + [b]) == Chosen(features, sel) + if b then [f] else []
  {
    if features == [] {
      assert [] + [f] == [f] && [] + [b] == [b] && [f][1..] == [];
    } else {
      assert (features + [f])[1..] == features[1..] + [f] && (sel + [b])[1..] == sel[1..] + [b];
      ChosenSnoc(features[1..], sel[1..], f, b);
    }
  }

  lemma {:induction false} ChosenFirst(features: seq<string>, sel: seq<bool>, k: nat)
    requires k <= |features| && k <= |sel| && (k == |features| || k == |sel|)
    ensures Chosen(features, sel) == Chosen(features[..k], sel[..k])
  {
    if k > 0 {
      assert features[..k][1..] == features[1..][..k - 1] && sel[..k][1..] == sel[1..][..k - 1];
      ChosenFirst(features[1..], sel[1..], k - 1);
    }
  }

  lemma {:induction false} SelectedIsChosen(features: seq<string>, mask: u32, sel: seq<bool>, k: nat)
    requires k <= |features| && k <= |sel| && forall i :: 0 <= i < k ==> (Bit(mask, i) <==> sel[i])
    ensures Selected(features, mask, k) == Chosen(features[..k], sel[..k])
  {
    if k > 0 {
      hide Bit;
      SelectedIsChosen(features, mask, sel, k - 1);
      ChosenSnoc(features[..k - 1], sel[..k - 1], features[k - 1], sel[k - 1]);
      assert features[..k] == features[..k - 1] + [features[k - 1]] && sel[..k] == sel[..k - 1] + [sel[k - 1]];
    }
  }

  lemma Pow2Of24()
    ensures Pow2(24) == 0x100_0000
  {
    assert Pow2(8) == 0x100 by {
      assert Pow2(4) == 0x10;
    }
    assert Pow2(16) == 0x1_0000 by {
      assert Pow2(12) == 0x1000;
    }
    assert Pow2(20) == 0x10_0000;
  }

  /**
   What a mask shows: the features at the set positions of its low 24 bits, each once and in the order announced; the
   bits above do not matter.
   */
  lemma NamesAreChosen(features: seq<string>, mask: u32, sel: seq<bool>, high: nat)
    requires |sel| == 24 && mask == MaskOf(sel) + 0x100_0000 * high
    ensures FeatureNames(features, mask) == Chosen(features, sel)
  {
    hide Pow2, MaskOf, Chosen, Selected;
    Pow2Of24();
    forall i | 0 <= i < 24
      ensures Bit(mask, i) <==> sel[i]
    {
      BitIs(sel, high, mask, i);
    }
    SelectedIsChosen(features, mask, sel, Usable(features));
    ChosenFirst(features, sel, Usable(features));
  }

  /** Every number is such a mask. */
  lemma {:induction false} EveryMask(m: nat, n: nat) returns (sel: seq<bool>, high: nat)
    ensures |sel| == n && m == MaskOf(sel) + Pow2(n) * high
  {
    if n == 0 {
      sel, high := [], m;
    } else {
      var rest;
      rest, high := EveryMask(m / 2, n - 1);
      sel := [m % 2 == 1] + rest;
      assert sel[1..] == rest;
      assert Pow2(n) * high == 2 * (Pow2(n - 1) * high) by {
        assert Pow2(n) == 2 * Pow2(n - 1);
      }
    }
  }

  /** Bit `i` of a mask shows the `i`-th name of the announcement the features were read from. */
  lemma BitShowsAnnouncedName(names: seq<string>, mask: u32, sel: seq<bool>, high: nat, i: nat)
    requires GoodNames(names) && Distinct(names) && i < |names|
    requires |sel| == 24 && mask == MaskOf(sel) + 0x100_0000 * high
    ensures names[i] in FeatureNames(NameList(Join(names)), mask) <==> i < 24 && sel[i]
  {
    hide Pow2, MaskOf;
    NameListInvertsJoinIffGood(names);
    SelectedIffBit(names, mask, Usable(names), i);
    Pow2Of24();
    if i < 24 {
      BitIs(sel, high, mask, i);
    }
  }

  // ---- The two renderings ----

  /** `bitmask_to_rate_feature_strings`: an error while no features have been announced. */
  method BitmaskToFeatureStrings(features: Option<seq<string>>, mask: u32) returns (names: Option<seq<string>>)
    ensures names == if features.None? then None else Some(FeatureNames(features.value, mask))
  {
    if features.None? {
      return None;
    }
    var list := features.value;
    var out: seq<string> := [];
    var i := 0;
    while i < 24 && i < |list|
      invariant i <= Usable(list) && out == Selected(list, mask, i)
    {
      if Bit(mask, i) {
        out := out + [list[i]];
      }
      i := i + 1;
    }
    names := Some(out);
  }

  /** `write_rate_features_array`: streams the list version, printed; an empty array before any announcement. */
  method WriteRateFeaturesArray(json: string, features: Option<seq<string>>, mask: u32) returns (out: string)
    ensures out == json + "\"rate_feature\":" + Print(FeatureArray(features, mask))
  {
    out := json + "\"rate_feature\":[";
    if features.Some? {
      out := WriteSelected(out, features.value, mask);
    }
    out := out + [']'];
  }

  method WriteSelected(json: string, features: seq<string>, mask: u32) returns (out: string)
    ensures out == json + PrintItems(Strs(FeatureNames(features, mask)))
  {
    out := json;
    var wroteAny, bit, i := false, 1, 0;
    while i < 24 && i < |features|
      invariant i <= Usable(features) && bit == Pow2(i)
      invariant wroteAny <==> Selected(features, mask, i) != []
      invariant out == json + PrintItems(Strs(Selected(features, mask, i)))
    {
      ghost var names := Selected(features, mask, i);
      if mask as int / bit % 2 == 1 {
        var next := PushQuoted(out, !wroteAny, features[i]);
        PushedElement(json, names, features[i], out, next);
        out := next;
        wroteAny := true;
      }
      bit := bit * 2;
      i := i + 1;
    }
  }

  function FeatureArray(features: Option<seq<string>>, mask: u32): Json {
    Arr(if features.None? then [] else Strs(FeatureNames(features.value, mask)))
  }

  // ---- Which renderings read back ----

  predicate PlainNames(names: seq<string>) {
    forall i :: 0 <= i < |names| ==> AllUnescaped(names[i])
  }

  lemma PlainRates(features: Option<seq<string>>, mask: u32)
    ensures Plain(FeatureArray(features, mask))
       <==> (features.Some? ==> PlainNames(FeatureNames(features.value, mask)))
  {
    if features.Some? {
      var names := FeatureNames(features.value, mask);
      assert forall i :: 0 <= i < |names| ==> Strs(names)[i] == Str(names[i]);
    }
  }
}
