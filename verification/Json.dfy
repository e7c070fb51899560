/**
 The JSON texts the processors write, and a reader for them.

 `Print` is compact output without any escaping, which is what every response decoder produces.
 `ReadValue` is an independent recursive-descent reader of the grammar of RFC 8259, sections 4 to 7,
 restricted to what has no choice of spelling: no whitespace, no escapes, no fractions or exponents.
 Every text it accepts is a JSON text with the value it returns.
 */
module Json {
  import opened Bytes

  datatype Json =
    | Num(n: nat)
    | Str(text: string)
    | Arr(items: seq<Json>)
    | Obj(members: seq<Member>)

  datatype Member = Member(name: string, value: Json)

  // ---- Writing ----

  function Digit(d: nat): (c: char)
    requires d < 10
    ensures IsDigit(c) && DigitValue(c) == d
  {
    '0' + d as char
  }

  /** Decimal digits without leading zeros: what `to_string` and itoa give for an unsigned integer. */
  function Decimal(n: nat): (s: string)
    ensures s != "" && (s[0] == '0' <==> n == 0) && (n == 0 ==> s == "0")
    ensures forall i :: 0 <= i < |s| ==> IsDigit(s[i])
  {
    if n < 10 then [Digit(n)] else Decimal(n / 10) + [Digit(n % 10)]
  }

  function Quoted(s: string): string {
    "\"" + s + "\""
  }

  function Print(j: Json): string {
    match j
    case Num(n) => Decimal(n)
    case Str(s) => Quoted(s)
    case Arr(items) => "[" + PrintItems(items) + "]"
    case Obj(members) => "{" + PrintMembers(members) + "}"
  }

  function PrintItems(items: seq<Json>): string {
    if items == [] then ""
    else if |items| == 1 then Print(items[0])
    else Print(items[0]) + "," + PrintItems(items[1..])
  }

  function PrintMember(m: Member): string {
    Quoted(m.name) + ":" + Print(m.value)
  }

  function PrintMembers(members: seq<Member>): string {
    if members == [] then ""
    else if |members| == 1 then PrintMember(members[0])
    else PrintMember(members[0]) + "," + PrintMembers(members[1..])
  }

  /** Appending an element as the loops of the decoders do: a comma unless it is the first one. */
  lemma {:induction false} PrintItemsSnoc(items: seq<Json>, x: Json)
    ensures PrintItems(items + [x]) == PrintItems(items) + Comma(items) + Print(x)
  {
    if |items| > 0 {
      assert (items + [x])[1..] == items[1..] + [x];
      PrintItemsSnoc(items[1..], x);
    }
  }

  /** What precedes the next element of an array. */
  function Comma(items: seq<Json>): string {
    if items == [] then "" else ","
  }

  lemma PushItem(json: string, items: seq<Json>, x: Json, before: string, after: string)
    requires before == json + PrintItems(items) && after == before + Comma(items) + Print(x)
    ensures after == json + PrintItems(items + [x])
  {
    PrintItemsSnoc(items, x);
    Rebracket(json, PrintItems(items), Comma(items), Print(x));
  }

  lemma Rebracket(a: string, b: string, c: string, d: string)
    ensures a + b + c + d == a + (b + c + d)
  {
  }

  lemma {:induction false} PrintMembersSnoc(members: seq<Member>, m: Member)
    ensures PrintMembers(members + [m])
         == PrintMembers(members) + (if members == [] then "" else ",") + PrintMember(m)
  {
    if |members| > 0 {
      assert (members + [m])[1..] == members[1..] + [m];
      PrintMembersSnoc(members[1..], m);
    }
  }

  /** Text of an object under construction: after the opening brace and the members so far. */
  function Open(members: seq<Member>): string {
    "{" + PrintMembers(members)
  }

  /** Pushing `key`, which is a comma (unless first), the quoted name and a colon, and then the value. */
  lemma PushMember(members: seq<Member>, m: Member, key: string)
    requires key == (if members == [] then "" else ",") + Quoted(m.name) + ":"
    ensures Open(members) + key + Print(m.value) == Open(members + [m])
  {
    hide Quoted, PrintMembers;
    PrintMembersSnoc(members, m);
    MemberText(if members == [] then "" else ",", m);
    Rebracket("{", PrintMembers(members), key, Print(m.value));
  }

  lemma MemberText(comma: string, m: Member)
    ensures comma + Quoted(m.name) + ":" + Print(m.value) == comma + PrintMember(m)
  {
    hide Quoted, Print;
  }

  /** The first member, up to but without the closing quote of its text. */
  lemma FirstText(name: string, text: string, lit: string)
    requires lit == Quoted(name) + ":" + "\""
    ensures "{" + lit + text + "\"" == Open([Member(name, Str(text))])
  {
    PushMember([], Member(name, Str(text)), Quoted(name) + ":");
    assert [] + [Member(name, Str(text))] == [Member(name, Str(text))];
    assert "{" + lit + text + "\"" == Open([]) + (Quoted(name) + ":") + Quoted(text);
  }

  /** A member pushed together with the quote that closes the member before it. */
  lemma PushAfterText(members: seq<Member>, m: Member, s: string, lit: string)
    requires members != [] && Open(members) == s + "\""
    requires lit == "\"" + ("," + Quoted(m.name) + ":")
    ensures s + lit + Print(m.value) == Open(members + [m])
  {
    PushMember(members, m, "," + Quoted(m.name) + ":");
    assert s + lit == s + "\"" + ("," + Quoted(m.name) + ":");
  }

  /** A string member pushed after a string member, again up to but without its closing quote. */
  lemma PushTextAfterText(members: seq<Member>, name: string, text: string, s: string, lit: string)
    requires members != [] && Open(members) == s + "\""
    requires lit == "\"" + ("," + Quoted(name) + ":") + "\""
    ensures Open(members + [Member(name, Str(text))]) == s + lit + text + "\""
  {
    var key := "," + Quoted(name) + ":";
    PushMember(members, Member(name, Str(text)), key);
    assert s + lit + text + "\"" == s + "\"" + key + ("\"" + text + "\"");
  }

  lemma CloseBoth(json: string, text: string, key: string, items: string)
    ensures json + text + (key + "[") + items + "]}" == json + (text + key + ("[" + items + "]") + "}")
  {
    assert "]}" == "]" + "}";
    assert json + text + (key + "[") + items == json + (text + key + ("[" + items));
  }

  // ---- Arrays of strings ----

  function Strs(names: seq<string>): (js: seq<Json>)
    ensures |js| == |names| && forall i :: 0 <= i < |js| ==> js[i] == Str(names[i])
  {
    seq(|names|, i requires 0 <= i < |names| => Str(names[i]))
  }

  /** One more string of an array: a comma unless it is the first, then the quotes. */
  function Element(first: bool, name: string): string {
    (if first then "" else ",") + Quoted(name)
  }

  method PushQuoted(json: string, first: bool, name: string) returns (out: string)
    ensures out == json + Element(first, name)
  {
    out := json;
    if !first {
      out := out + [','];
    }
    out := out + ['"'];
    out := out + name;
    out := out + ['"'];
  }

  lemma PushedElement(json: string, names: seq<string>, name: string, before: string, after: string)
    requires before == json + PrintItems(Strs(names)) && after == before + Element(names == [], name)
    ensures after == json + PrintItems(Strs(names + [name]))
  {
    assert Strs(names + [name]) == Strs(names) + [Str(name)];
    assert after == before + Comma(Strs(names)) + Print(Str(name));
    PushItem(json, Strs(names), Str(name), before, after);
  }

  /** The rendering loop of the list decoders: every string quoted, a comma before all but the first. */
  method WriteStrings(json: string, texts: seq<string>) returns (out: string)
    ensures out == json + PrintItems(Strs(texts))
  {
    out := json;
    for i := 0 to |texts|
      invariant out == json + PrintItems(Strs(texts[..i]))
    {
      var next := PushQuoted(out, i == 0, texts[i]);
      PushedElement(json, texts[..i], texts[i], out, next);
      assert texts[..i + 1] == texts[..i] + [texts[i]];
      out := next;
    }
    assert texts[..|texts|] == texts;
  }

  // ---- Reading ----

  datatype Read<+T> = Fail | Got(value: T, rest: string)

  function Cons<T>(v: T, r: Read<seq<T>>): Read<seq<T>> {
    match r
    case Fail => Fail
    case Got(vs, rest) => Got([v] + vs, rest)
  }

  predicate IsDigit(c: char) {
    '0' <= c <= '9'
  }

  function DigitValue(c: char): nat
    requires IsDigit(c)
  {
    (c - '0') as nat
  }

  /** Section 7: a character that may stand unescaped in a string. */
  predicate Unescaped(c: char) {
    c >= ' ' && c != '"' && c != '\\'
  }

  predicate AllUnescaped(s: string) {
    forall i :: 0 <= i < |s| ==> Unescaped(s[i])
  }

  function DigitRun(s: string): (n: nat)
    ensures n <= |s| && forall i :: 0 <= i < n ==> IsDigit(s[i])
    ensures n < |s| ==> !IsDigit(s[n])
  {
    if s == "" || !IsDigit(s[0]) then 0 else 1 + DigitRun(s[1..])
  }

  function ValueOf(digits: string): nat
    requires forall i :: 0 <= i < |digits| ==> IsDigit(digits[i])
  {
    if digits == "" then 0
    else ValueOf(digits[..|digits| - 1]) * 10 + DigitValue(digits[|digits| - 1])
  }

  /** Section 6, integers without sign: a lone zero, or digits that do not start with zero. */
  function ReadNumber(s: string): (r: Read<Json>)
    ensures r.Got? ==> |r.rest| < |s|
  {
    var n := DigitRun(s);
    if n == 0 then Fail
    else if s[0] == '0' then Got(Num(0), s[1..])
    else Got(Num(ValueOf(s[..n])), s[n..])
  }

  /** Section 7: the characters up to the closing quote. */
  function ReadChars(s: string): (r: Read<string>)
    ensures r.Got? ==> |r.rest| < |s|
  {
    if s == "" then Fail
    else if s[0] == '"' then Got("", s[1..])
    else if !Unescaped(s[0]) then Fail
    else match ReadChars(s[1..])
      case Fail => Fail
      case Got(text, rest) => Got([s[0]] + text, rest)
  }

  function ReadValue(s: string): (r: Read<Json>)
    ensures r.Got? ==> |r.rest| < |s|
    decreases |s|, 0
  {
    if s == "" then Fail
    else if s[0] == '"' then
      match ReadChars(s[1..])
      case Fail => Fail
      case Got(text, rest) => Got(Str(text), rest)
    else if s[0] == '[' then
      if |s| > 1 && s[1] == ']' then Got(Arr([]), s[2..])
      else match ReadItems(s[1..])
        case Fail => Fail
        case Got(items, rest) => Got(Arr(items), rest)
    else if s[0] == '{' then
      if |s| > 1 && s[1] == '}' then Got(Obj([]), s[2..])
      else match ReadMembers(s[1..])
        case Fail => Fail
        case Got(members, rest) => Got(Obj(members), rest)
    else ReadNumber(s)
  }

  /** Section 5: values separated by commas, up to the closing bracket. */
  function ReadItems(s: string): (r: Read<seq<Json>>)
    ensures r.Got? ==> |r.rest| < |s|
    decreases |s|, 1
  {
    match ReadValue(s)
    case Fail => Fail
    case Got(v, rest) =>
      if rest == "" then Fail
      else if rest[0] == ']' then Got([v], rest[1..])
      else if rest[0] != ',' then Fail
      else Cons(v, ReadItems(rest[1..]))
  }

  /** Section 4: one name, a colon, one value. */
  function ReadMember(s: string): (r: Read<Member>)
    ensures r.Got? ==> |r.rest| < |s|
    decreases |s|, 1
  {
    if s == "" || s[0] != '"' then Fail
    else match ReadChars(s[1..])
      case Fail => Fail
      case Got(name, rest) =>
        if rest == "" || rest[0] != ':' then Fail
        else match ReadValue(rest[1..])
          case Fail => Fail
          case Got(v, rest') => Got(Member(name, v), rest')
  }

  function ReadMembers(s: string): (r: Read<seq<Member>>)
    ensures r.Got? ==> |r.rest| < |s|
    decreases |s|, 2
  {
    match ReadMember(s)
    case Fail => Fail
    case Got(m, rest) =>
      if rest == "" then Fail
      else if rest[0] == '}' then Got([m], rest[1..])
      else if rest[0] != ',' then Fail
      else Cons(m, ReadMembers(rest[1..]))
  }

  // ---- Reading back what was written ----

  /** No string anywhere in the tree needs escaping. */
  predicate Plain(j: Json) {
    match j
    case Num(_) => true
    case Str(s) => AllUnescaped(s)
    case Arr(items) => forall i :: 0 <= i < |items| ==> Plain(items[i])
    case Obj(members) =>
      forall i :: 0 <= i < |members| ==> PlainMember(members[i])
  }

  predicate PlainMember(m: Member) {
    AllUnescaped(m.name) && Plain(m.value)
  }

  predicate NoDigitFirst(rest: string) {
    rest == "" || !IsDigit(rest[0])
  }

  lemma {:induction false} ValueOfDecimal(n: nat)
    ensures ValueOf(Decimal(n)) == n
  {
    if n < 10 {
      assert Decimal(n)[..0] == "";
    } else {
      ValueOfDecimal(n / 10);
      assert Decimal(n)[..|Decimal(n)| - 1] == Decimal(n / 10);
    }
  }

  lemma {:induction false} DigitRunOf(digits: string, rest: string)
    requires forall i :: 0 <= i < |digits| ==> IsDigit(digits[i])
    requires NoDigitFirst(rest)
    ensures DigitRun(digits + rest) == |digits|
  {
    if digits == "" {
      assert digits + rest == rest;
    } else {
      assert (digits + rest)[1..] == digits[1..] + rest;
      DigitRunOf(digits[1..], rest);
    }
  }

  lemma ReadDecimal(n: nat, rest: string)
    requires NoDigitFirst(rest)
    ensures ReadNumber(Decimal(n) + rest) == Got(Num(n), rest)
  {
    var d := Decimal(n);
    DigitRunOf(d, rest);
    ValueOfDecimal(n);
    assert (d + rest)[..|d|] == d && (d + rest)[|d|..] == rest;
  }

  /** A quoted string reads back, or reads as a different string, or not at all. */
  lemma {:induction false} ReadQuoted(s: string, rest: string)
    ensures AllUnescaped(s) ==> ReadChars(s + "\"" + rest) == Got(s, rest)
    ensures !AllUnescaped(s) ==> ReadChars(s + "\"" + rest).Fail? || ReadChars(s + "\"" + rest).value != s
  {
    var t := s + "\"" + rest;
    if s == "" {
      assert t[1..] == rest;
    } else {
      assert t[0] == s[0] && t[1..] == s[1..] + "\"" + rest;
      ReadQuoted(s[1..], rest);
      assert [s[0]] + s[1..] == s;
      assert AllUnescaped(s) <==> Unescaped(s[0]) && AllUnescaped(s[1..]);
    }
  }

  /** The outcome `ReadBack` proves for a value, an item list and a member list. */
  ghost predicate Recovers<T>(plain: bool, r: Read<T>, v: T, rest: string) {
    if plain then r == Got(v, rest) else r.Fail? || r.value != v
  }

  lemma {:induction false} ReadBack(j: Json, rest: string)
    requires NoDigitFirst(rest)
    ensures Recovers(Plain(j), ReadValue(Print(j) + rest), j, rest)
    decreases j, 0
  {
    match j
    case Num(n) => ReadDecimal(n, rest);
    case Str(text) => ReadBackStr(text, rest);
    case Arr(items) => ReadBackArr(items, rest);
    case Obj(members) => ReadBackObj(members, rest);
  }

  lemma ReadBackStr(text: string, rest: string)
    ensures Recovers(AllUnescaped(text), ReadValue(Quoted(text) + rest), Str(text), rest)
  {
    var s := Quoted(text) + rest;
    assert s[0] == '"' && s[1..] == text + "\"" + rest;
    ReadQuoted(text, rest);
  }

  lemma {:induction false} ReadBackArr(items: seq<Json>, rest: string)
    ensures Recovers(Plain(Arr(items)), ReadValue(Print(Arr(items)) + rest), Arr(items), rest)
    decreases items, 2
  {
    var s := Print(Arr(items)) + rest;
    if items == [] {
      assert s[0] == '[' && s[1] == ']' && s[2..] == rest;
    } else {
      ReadBackItems(items, rest);
      assert s[0] == '[' && s[1..] == PrintItems(items) + "]" + rest;
    }
  }

  lemma {:induction false} ReadBackObj(members: seq<Member>, rest: string)
    ensures Recovers(Plain(Obj(members)), ReadValue(Print(Obj(members)) + rest), Obj(members), rest)
    decreases members, 2
  {
    var s := Print(Obj(members)) + rest;
    if members == [] {
      assert s[0] == '{' && s[1] == '}' && s[2..] == rest;
    } else {
      ReadBackMembers(members, rest);
      assert s[0] == '{' && s[1..] == PrintMembers(members) + "}" + rest;
    }
  }

  lemma FirstChar(j: Json, t: string)
    ensures Print(j) != "" && (Print(j) + t)[0] != ']'
  {
  }

  lemma FirstQuote(m: Member, t: string)
    ensures (PrintMember(m) + t)[0] == '"'
  {
  }

  lemma {:induction false} ReadBackItems(items: seq<Json>, rest: string)
    requires items != []
    ensures var s := PrintItems(items) + "]" + rest;
            Recovers(Plain(Arr(items)), ReadItems(s), items, rest) && s[0] != ']'
    decreases items, 1
  {
    hide ReadValue, ReadItems, Plain, Recovers, Print;
    var s := PrintItems(items) + "]" + rest;
    var v, vs := items[0], items[1..];
    assert items == [v] + vs;
    var tail := if vs == [] then "]" + rest else "," + (PrintItems(vs) + "]" + rest);
    assert s == Print(v) + tail;
    FirstChar(v, tail);
    ReadBack(v, tail);
    if vs == [] {
      assert tail[1..] == rest;
    } else {
      ReadBackItems(vs, rest);
      assert tail[1..] == PrintItems(vs) + "]" + rest;
    }
    ReadBackItemsStep(s, v, vs, tail, rest);
  }

  lemma ReadBackItemsStep(s: string, v: Json, vs: seq<Json>, tail: string, rest: string)
    requires Recovers(Plain(v), ReadValue(s), v, tail)
    requires tail != "" && tail[0] == (if vs == [] then ']' else ',')
    requires vs == [] ==> tail[1..] == rest
    requires vs != [] ==> Recovers(Plain(Arr(vs)), ReadItems(tail[1..]), vs, rest)
    ensures Recovers(Plain(Arr([v] + vs)), ReadItems(s), [v] + vs, rest)
  {
    SplitPlain(v, vs);
    if Plain(v) && vs == [] {
      assert [v] + vs == [v];
    } else if Plain(v) {
      ConsRecovers(Plain(Arr(vs)), ReadItems(tail[1..]), v, vs, rest);
    } else if ReadItems(s).Got? {
      assert ReadItems(s).value[0] == ReadValue(s).value;
    }
  }

  lemma SplitPlain(v: Json, vs: seq<Json>)
    ensures Plain(Arr([v] + vs)) <==> Plain(v) && Plain(Arr(vs))
  {
    var items := [v] + vs;
    assert items[0] == v && forall i :: 0 <= i < |vs| ==> vs[i] == items[i + 1];
  }

  lemma ConsRecovers<T>(plain: bool, r: Read<seq<T>>, v: T, vs: seq<T>, rest: string)
    requires Recovers(plain, r, vs, rest)
    ensures Recovers(plain, Cons(v, r), [v] + vs, rest)
  {
    if !plain && r.Got? {
      assert ([v] + r.value)[1..] == r.value && ([v] + vs)[1..] == vs;
    }
  }

  lemma {:induction false} ReadBackMember(m: Member, rest: string)
    requires NoDigitFirst(rest)
    ensures Recovers(PlainMember(m), ReadMember(PrintMember(m) + rest), m, rest)
    decreases m, 1
  {
    var s := PrintMember(m) + rest;
    var after := ":" + (Print(m.value) + rest);
    assert s[1..] == m.name + "\"" + after;
    ReadQuoted(m.name, after);
    assert after[1..] == Print(m.value) + rest;
    ReadBack(m.value, rest);
  }

  lemma {:induction false} ReadBackMembers(members: seq<Member>, rest: string)
    requires members != []
    ensures var s := PrintMembers(members) + "}" + rest;
            Recovers(Plain(Obj(members)), ReadMembers(s), members, rest) && s[0] != '}'
    decreases members, 1
  {
    hide ReadMember, ReadMembers, Plain, PlainMember, Recovers, PrintMember;
    var s := PrintMembers(members) + "}" + rest;
    var m, ms := members[0], members[1..];
    assert members == [m] + ms;
    var tail := if ms == [] then "}" + rest else "," + (PrintMembers(ms) + "}" + rest);
    assert s == PrintMember(m) + tail;
    FirstQuote(m, tail);
    ReadBackMember(m, tail);
    if ms == [] {
      assert tail[1..] == rest;
    } else {
      ReadBackMembers(ms, rest);
      assert tail[1..] == PrintMembers(ms) + "}" + rest;
    }
    ReadBackMembersStep(s, m, ms, tail, rest);
  }

  lemma ReadBackMembersStep(s: string, m: Member, ms: seq<Member>, tail: string, rest: string)
    requires Recovers(PlainMember(m), ReadMember(s), m, tail)
    requires tail != "" && tail[0] == (if ms == [] then '}' else ',')
    requires ms == [] ==> tail[1..] == rest
    requires ms != [] ==> Recovers(Plain(Obj(ms)), ReadMembers(tail[1..]), ms, rest)
    ensures Recovers(Plain(Obj([m] + ms)), ReadMembers(s), [m] + ms, rest)
  {
    SplitPlainMembers(m, ms);
    if PlainMember(m) && ms == [] {
      assert [m] + ms == [m];
    } else if PlainMember(m) {
      ConsRecovers(Plain(Obj(ms)), ReadMembers(tail[1..]), m, ms, rest);
    } else if ReadMembers(s).Got? {
      assert ReadMembers(s).value[0] == ReadMember(s).value;
    }
  }

  lemma SplitPlainMembers(m: Member, ms: seq<Member>)
    ensures Plain(Obj([m] + ms)) <==> PlainMember(m) && Plain(Obj(ms))
  {
    var members := [m] + ms;
    assert members[0] == m && forall i :: 0 <= i < |ms| ==> ms[i] == members[i + 1];
  }

  lemma PlainObject2(name1: string, v1: Json, name2: string, v2: Json)
    ensures Plain(Obj([Member(name1, v1), Member(name2, v2)]))
       <==> AllUnescaped(name1) && AllUnescaped(name2) && Plain(v1) && Plain(v2)
  {
    var ms := [Member(name1, v1), Member(name2, v2)];
    assert ms[0] == Member(name1, v1) && ms[1] == Member(name2, v2);
  }

  /** A whole JSON text. */
  function ReadText(s: string): Option<Json> {
    match ReadValue(s)
    case Fail => None
    case Got(j, rest) => if rest == "" then Some(j) else None
  }

  /**
   Printing without escaping is safe exactly for trees whose strings need no escape: those texts, and
   only those, are read back to the tree they were printed from.
   */
  lemma ReadsBackIffPlain(j: Json)
    ensures ReadText(Print(j)) == Some(j) <==> Plain(j)
  {
    assert Print(j) + "" == Print(j);
    ReadBack(j, "");
  }

  // ---- Reading an object by name ----

  function Find(members: seq<Member>, name: string): Option<Json> {
    if members == [] then None
    else if members[0].name == name then Some(members[0].value)
    else Find(members[1..], name)
  }

  /** What a client finds under a name: the first member of that name. */
  function Get(j: Json, name: string): Option<Json> {
    if j.Obj? then Find(j.members, name) else None
  }

  /** A member is found under its name if no earlier one has that name. */
  lemma {:induction false} FindsAt(ms: seq<Member>, i: nat)
    requires i < |ms| && forall j :: 0 <= j < i ==> ms[j].name != ms[i].name
    ensures Find(ms, ms[i].name) == Some(ms[i].value)
  {
    if i > 0 {
      assert ms[0].name != ms[i].name && ms[1..][i - 1] == ms[i];
      assert forall j :: 0 <= j < i - 1 ==> ms[1..][j] == ms[j + 1];
      FindsAt(ms[1..], i - 1);
    }
  }

  lemma GetTwo(n1: string, v1: Json, n2: string, v2: Json)
    requires n1 != n2
    ensures Get(Obj([Member(n1, v1), Member(n2, v2)]), n1) == Some(v1)
    ensures Get(Obj([Member(n1, v1), Member(n2, v2)]), n2) == Some(v2)
  {
    var ms := [Member(n1, v1), Member(n2, v2)];
    FindsAt(ms, 0);
    FindsAt(ms, 1);
  }

  // ---- Spelled out ----

  lemma DigitIs(d: nat)
    requires d < 10
    ensures Digit(d) == "0123456789"[d]
  {
  }

  /** Numbers are written in decimal, highest digit first. */
  lemma DecimalSpelled(q: nat, d: nat)
    requires d < 10
    ensures Decimal(d) == ["0123456789"[d]]
    ensures q > 0 ==> Decimal(10 * q + d) == Decimal(q) + ["0123456789"[d]]
  {
    DigitIs(d);
    assert (10 * q + d) / 10 == q && (10 * q + d) % 10 == d;
  }

  /** The punctuation of objects, and of texts and arrays below. */
  lemma ObjectSpelled(a: string, x: Json, b: string, y: Json)
    ensures Print(Obj([Member(a, x), Member(b, y)]))
         == "{" + ("\"" + a + "\"" + ":" + Print(x) + "," + ("\"" + b + "\"" + ":" + Print(y))) + "}"
  {
    TwoMembers(Member(a, x), Member(b, y));
    MemberSpelled(a, x);
    MemberSpelled(b, y);
    hide PrintMember, PrintMembers;
  }

  lemma TwoMembers(m: Member, n: Member)
    ensures PrintMembers([m, n]) == PrintMember(m) + "," + PrintMember(n)
  {
    hide PrintMember;
    assert [m, n][1..] == [n];
    assert PrintMembers([n]) == PrintMember(n);
  }

  lemma MemberSpelled(a: string, x: Json)
    ensures PrintMember(Member(a, x)) == "\"" + a + "\"" + ":" + Print(x)
  {
    hide Print;
  }

  lemma ArraySpelled(t: string, x: Json, y: Json)
    ensures Print(Str(t)) == "\"" + t + "\"" && Print(Arr([x, y])) == "[" + (Print(x) + "," + Print(y)) + "]"
  {
    TwoItems(x, y);
    hide PrintItems;
  }

  lemma TwoItems(x: Json, y: Json)
    ensures PrintItems([x, y]) == Print(x) + "," + Print(y)
  {
    hide Print;
    assert [x, y][1..] == [y];
    assert PrintItems([y]) == Print(y);
  }
}
