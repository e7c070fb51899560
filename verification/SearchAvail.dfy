/** SEARCHAVAIL responses: the one-pass decoder against parse-then-render. */
module SearchAvail {
  import opened Bytes
  import opened Tlv
  import opened Json
  import opened Response
  import opened Dates
  import opened PropertyId
  import opened Features

  // ---- Phase one: from fields to a tree ----

  datatype Day = Day(packed: u16, availability: u8, price: u32, mask: u32)

  datatype Property = Property(id: Bytes, days: seq<Day>)

  /** | count(2) | count times 11 bytes |. */
  predicate DaysVector(d: Bytes) {
    |d| >= 2 && |d| == 2 + 11 * U16At(d, 0) as int
  }

  function DayAt(d: Bytes, k: nat): Day
    requires 2 + 11 * k + 11 <= |d|
  {
    var o := 2 + 11 * k;
    Day(U16At(d, o), d[o + 2], U32At(d, o + 3), U32At(d, o + 7))
  }

  function DaysOf(d: Bytes): (days: seq<Day>)
    requires DaysVector(d)
    ensures |days| == U16At(d, 0) && forall k :: 0 <= k < |days| ==> days[k] == DayAt(d, k)
  {
    seq(U16At(d, 0), k requires 0 <= k < U16At(d, 0) => DayAt(d, k))
  }

  predicate ValidDays(d: Bytes, year: ClockYear) {
    DaysVector(d) && forall k :: 0 <= k < |DaysOf(d)| ==> ValidPacked(DaysOf(d)[k].packed, year)
  }

  /** What the field at index `i` has to be; ids are 16-bit and wrap. */
  predicate FieldOk(f: Field, i: nat, year: ClockYear) {
    && f.id == WireId(i)
    && if i == 0 then f.typ == 0x02 && |f.data| == 2
       else if i % 2 == 1 then f.typ == 0x01
       else f.typ == 0x08 && ValidDays(f.data, year)
  }

  predicate AllOk(fs: seq<Field>, year: ClockYear) {
    forall i :: 0 <= i < |fs| ==> FieldOk(fs[i], i, year)
  }

  /** A non-empty result: the day count, then pairs of property id and days vector. */
  predicate Accepted(fs: seq<Field>, count: u16, year: ClockYear) {
    count % 2 == 1 && |fs| % U16_SIZE == count && AllOk(fs, year)
  }

  function PropertiesOf(fs: seq<Field>, year: ClockYear): seq<Property>
    requires AllOk(fs, year)
  {
    if |fs| < 3 then []
    else if |fs| % 2 == 0 then PropertiesOf(fs[..|fs| - 1], year)
    else PropertiesOf(fs[..|fs| - 2], year) + [Property(fs[|fs| - 2].data, DaysOf(fs[|fs| - 1].data))]
  }

  function Parse(w: Walk, count: u16, year: ClockYear): Option<seq<Property>> {
    if w.Walked? && Accepted(w.fields, count, year) then Some(PropertiesOf(w.fields, year)) else None
  }

  // ---- Phase two: from the tree to JSON ----

  datatype Env = Env(year: ClockYear, features: Option<seq<string>>)

  function DayObject(date: string, availability: nat, price: nat, rates: Json): Json {
    Obj([Member("date", Str(date)), Member("availability", Num(availability)),
         Member("final_price", Num(price)), Member("rate_feature", rates)])
  }

  function DayJson(d: Day, env: Env): Json {
    DayObject(FullDate(Unpack(d.packed, env.year)), d.availability, d.price, FeatureArray(env.features, d.mask))
  }

  function DayJsons(days: seq<Day>, env: Env): (js: seq<Json>)
    ensures |js| == |days| && forall i :: 0 <= i < |js| ==> js[i] == DayJson(days[i], env)
  {
    seq(|days|, i requires 0 <= i < |days| => DayJson(days[i], env))
  }

  function PropertyJson(p: Property, env: Env): Json {
    Obj([Member("property_id", Str(PropertyIdText(p.id))), Member("days", Arr(DayJsons(p.days, env)))])
  }

  function PropertyJsons(ps: seq<Property>, env: Env): (js: seq<Json>)
    ensures |js| == |ps| && forall i :: 0 <= i < |js| ==> js[i] == PropertyJson(ps[i], env)
  {
    seq(|ps|, i requires 0 <= i < |ps| => PropertyJson(ps[i], env))
  }

  function ResultJson(ps: seq<Property>, env: Env): Json {
    ListResult("properties", PropertyJsons(ps, env))
  }

  // ---- The specification ----

  function Decoded(data: Bytes, env: Env): Response {
    match ParseHead(data)
    case None => Invalid
    case Some(h) =>
      if h.status != SUCCESS then NonSuccess(h)
      else if h.count == 0 then Success(Print(ResultJson([], env)))
      else match Parse(WalkFrom(data, h.fields), h.count, env.year)
        case None => Invalid
        case Some(ps) => Success(Print(ResultJson(ps, env)))
  }

  // ---- Texts of the objects ----

  lemma DateKey()
    ensures "\"date\":\"" == Quoted("date") + ":" + "\""
  {
  }

  lemma AvailabilityKey()
    ensures "\",\"availability\":" == "\"" + ("," + Quoted("availability") + ":")
  {
  }

  lemma PriceKey()
    ensures ",\"final_price\":" == "," + Quoted("final_price") + ":"
  {
  }

  lemma RatesKey()
    ensures "," + "\"rate_feature\":" == "," + Quoted("rate_feature") + ":"
  {
  }

  /** The pieces the decoder pushes for one day, put together, are the printed day object. */
  lemma DayText(date: string, a: nat, p: nat, rates: Json)
    ensures "{" + "\"date\":\"" + date + "\",\"availability\":" + Decimal(a)
          + ",\"final_price\":" + Decimal(p) + "," + "\"rate_feature\":" + Print(rates) + "}"
         == Print(DayObject(date, a, p, rates))
  {
    var ms := [Member("date", Str(date))];
    DateKey();
    FirstText("date", date, "\"date\":\"");
    AvailabilityKey();
    PushAfterText(ms, Member("availability", Num(a)), "{" + "\"date\":\"" + date, "\",\"availability\":");
    DayTextRest(ms + [Member("availability", Num(a))], p, rates);
    assert ms + [Member("availability", Num(a))] + [Member("final_price", Num(p)), Member("rate_feature", rates)]
        == DayObject(date, a, p, rates).members;
  }

  lemma DayTextRest(ms: seq<Member>, p: nat, rates: Json)
    requires ms != []
    ensures Open(ms) + ",\"final_price\":" + Decimal(p) + "," + "\"rate_feature\":" + Print(rates) + "}"
         == Print(Obj(ms + [Member("final_price", Num(p)), Member("rate_feature", rates)]))
  {
    var price, rate := Member("final_price", Num(p)), Member("rate_feature", rates);
    PriceKey();
    PushMember(ms, price, ",\"final_price\":");
    RatesKey();
    PushMember(ms + [price], rate, "," + "\"rate_feature\":");
    var s := Open(ms + [price]);
    assert s + "," + "\"rate_feature\":" == s + ("," + "\"rate_feature\":");
    assert ms + [price] + [rate] == ms + [price, rate];
  }

  // ---- The one-pass decoder ----

  /** One day of a days vector, pushed piece by piece; refused when its date is not a date. */
  method WriteDay(json: string, d: Bytes, off: nat, env: Env) returns (ok: bool, out: string)
    requires off + 11 <= |d|
    ensures var day := Day(U16At(d, off), d[off + 2], U32At(d, off + 3), U32At(d, off + 7));
            && (ok <==> ValidPacked(day.packed, env.year))
            && (ok ==> out == json + Print(DayJson(day, env)))
  {
    out := json + ['{'];
    out := out + "\"date\":\"";
    var packed := U16At(d, off);
    ghost var date := FullDate(Unpack(packed, env.year));
    ok, out := WritePackedDate(out, packed, env.year);
    if !ok {
      return;
    }
    var availability := d[off + 2];
    out := out + "\",\"availability\":";
    out := out + Decimal(availability);
    var price := U32At(d, off + 3);
    out := out + ",\"final_price\":";
    out := out + Decimal(price);
    var mask := U32At(d, off + 7);
    out := out + [','];
    out := WriteRateFeaturesArray(out, env.features, mask);
    out := out + ['}'];
    ghost var rates := FeatureArray(env.features, mask);
    DayText(date, availability, price, rates);
    Shift(json, "{", "\"date\":\"", date, "\",\"availability\":", Decimal(availability), ",\"final_price\":",
          Decimal(price), ",", "\"rate_feature\":", Print(rates), "}");
  }

  lemma Shift(z: string, a: string, b: string, c: string, d: string, e: string, f: string,
              g: string, h: string, i: string, j: string, k: string)
    ensures z + a + b + c + d + e + f + g + h + i + j + k == z + (a + b + c + d + e + f + g + h + i + j + k)
  {
    var t3 := a + b + c;
    assert z + a + b + c == z + t3;
    var t6 := t3 + d + e + f;
    assert z + t3 + d + e + f == z + t6;
    var t9 := t6 + g + h + i;
    assert z + t6 + g + h + i == z + t9;
    assert z + t9 + j + k == z + (t9 + j + k);
  }

  /** The inner loop: all days of one vector, or a refusal if any date is invalid. */
  method WriteDays(json: string, d: Bytes, env: Env) returns (ok: bool, out: string)
    requires DaysVector(d)
    ensures ok <==> ValidDays(d, env.year)
    ensures ok ==> out == json + PrintItems(DayJsons(DaysOf(d), env))
  {
    hide DayJson, ValidPacked, Print;
    var count := U16At(d, 0);
    out := json;
    var firstDay, off := true, 2;
    ghost var items := DayJsons(DaysOf(d), env);
    for k := 0 to count
      invariant off == 2 + 11 * k && (firstDay <==> k == 0)
      invariant forall j :: 0 <= j < k ==> ValidPacked(DaysOf(d)[j].packed, env.year)
      invariant out == json + PrintItems(items[..k])
    {
      ghost var before := out;
      if !firstDay {
        out := out + [','];
      }
      firstDay := false;
      assert DaysOf(d)[k] == DayAt(d, k);
      ok, out := WriteDay(out, d, off, env);
      if !ok {
        return;
      }
      PushItem(json, items[..k], items[k], before, out);
      assert items[..k + 1] == items[..k] + [items[k]];
      off := off + 11;
    }
    assert items[..count] == items;
    ok := true;
  }

  lemma PropertyKeys()
    ensures "{" + "\"property_id\":" == "{" + (Quoted("property_id") + ":")
    ensures ",\"days\":[" == "," + Quoted("days") + ":" + "["
  {
  }

  lemma PropertyText(json: string, id: string, items: seq<Json>)
    ensures json + "{" + "\"property_id\":" + Quoted(id) + ",\"days\":[" + PrintItems(items) + "]}"
         == json + Print(Obj([Member("property_id", Str(id)), Member("days", Arr(items))]))
  {
    hide Quoted, PrintItems;
    PropertyKeys();
    var m1, m2 := Member("property_id", Str(id)), Member("days", Arr(items));
    PushMember([], m1, Quoted("property_id") + ":");
    PushMember([m1], m2, "," + Quoted("days") + ":");
    assert [] + [m1] == [m1] && [m1] + [m2] == [m1, m2];
    var key1, key2 := Quoted("property_id") + ":", "," + Quoted("days") + ":";
    var text := Open([m1]);
    assert json + "{" + "\"property_id\":" + Print(m1.value) == json + text by {
      assert json + "{" + "\"property_id\":" == json + ("{" + "\"property_id\":") == json + (Open([]) + key1);
    }
    CloseBoth(json, text, key2, PrintItems(items));
  }

  /**
   The arm for a property id: writes the property, taking the days vector from the field that has to
   follow. `i` is the index of that field.
   */
  method WriteProperty(json: string, id: Bytes, data: Bytes, at: nat, current: u16, ghost i: nat, env: Env)
    returns (ok: bool, out: string, next: nat)
    requires at <= |data| && i > 0 && current % 2 == 0 && current == WireId(i - 1)
    ensures ok <==> FieldAt(data, at).Some? && FieldOk(FieldAt(data, at).value, i, env.year)
    ensures ok ==> var days := FieldAt(data, at).value.data;
                   && next == at + 7 + |days|
                   && out == json + Print(PropertyJson(Property(id, DaysOf(days)), env))
  {
    hide Print, PropertyIdText, DayJson, PrintItems, DayJsons, ValidPacked, Quoted, WireId;
    WireIdSteps(i - 1);
    next := at;
    out := json + "{";
    out := out + "\"property_id\":";
    out := WriteQuotedPropertyId(out, id);
    out := out + ",\"days\":[";
    if at + 7 > |data| {
      return false, out, next;
    }
    var nextId := U16At(data, at);
    if nextId != current + 1 {
      return false, out, next;
    }
    var daysType := data[at + 2];
    var daysLen := U32At(data, at + 3);
    next := at + 7;
    if daysType != 0x08 || next + daysLen > |data| {
      return false, out, next;
    }
    var days := data[next..next + daysLen];
    next := next + daysLen;
    if daysLen < 2 {
      return false, out, next;
    }
    var daysCount := U16At(days, 0);
    if daysLen != 2 + 11 * daysCount as int {
      return false, out, next;
    }
    ok, out := WriteDays(out, days, env);
    if !ok {
      return;
    }
    out := out + "]}";
    PropertyText(json, PropertyIdText(id), DayJsons(DaysOf(days), env));
  }

  // ---- What one round of the outer loop learns ----

  /** `fs` are the fields between `start` and `at`, all of them as they have to be. */
  ghost predicate Passed(data: Bytes, start: nat, at: nat, fs: seq<Field>, year: ClockYear) {
    Walking(data, start, at, fs) && AllOk(fs, year)
  }

  lemma PassOne(data: Bytes, start: nat, at: nat, fs: seq<Field>, year: ClockYear)
    requires Passed(data, start, at, fs, year)
    requires FieldAt(data, at).Some? && FieldOk(FieldAt(data, at).value, |fs|, year)
    ensures var f := FieldAt(data, at).value;
            Passed(data, start, at + 7 + |f.data|, fs + [f], year)
  {
    hide FieldOk, U16At, U32At;
    WalkMoves(data, start, at, fs);
  }

  /** A field that is cut short or not as it has to be spoils the whole payload. */
  lemma Spoiled(data: Bytes, start: nat, at: nat, fs: seq<Field>, count: u16, year: ClockYear)
    requires Passed(data, start, at, fs, year) && at + 7 <= |data|
    requires FieldAt(data, at).Some? ==> !FieldOk(FieldAt(data, at).value, |fs|, year)
    ensures Parse(WalkFrom(data, start), count, year).None?
  {
    WalkMeets(data, start, at, fs);
  }

  /** After a property id the days vector has to follow: the total is odd. */
  lemma SpoiledPair(data: Bytes, start: nat, at: nat, fs: seq<Field>, count: u16, year: ClockYear)
    requires Passed(data, start, at, fs, year) && |fs| % 2 == 0 && count % 2 == 1
    requires FieldAt(data, at).Some? ==> !FieldOk(FieldAt(data, at).value, |fs|, year)
    ensures Parse(WalkFrom(data, start), count, year).None?
  {
    if at + 7 <= |data| {
      Spoiled(data, start, at, fs, count, year);
    } else {
      WalkEnds(data, start, at, fs);
    }
  }

  /** The walk is over: only the number of fields is left to check. */
  lemma Finished(data: Bytes, start: nat, at: nat, fs: seq<Field>, count: u16, year: ClockYear)
    requires Passed(data, start, at, fs, year) && at + 7 > |data| && count % 2 == 1
    ensures var tree := Parse(WalkFrom(data, start), count, year);
            && (tree.Some? <==> |fs| % U16_SIZE == count)
            && (tree.Some? ==> tree.value == PropertiesOf(fs, year))
  {
    WalkEnds(data, start, at, fs);
  }

  lemma PropertiesSnoc(fs: seq<Field>, id: Field, days: Field, year: ClockYear)
    requires AllOk(fs + [id] + [days], year) && |fs| % 2 == 1
    ensures AllOk(fs, year) && DaysVector(days.data)
    ensures PropertiesOf(fs + [id] + [days], year)
         == PropertiesOf(fs, year) + [Property(id.data, DaysOf(days.data))]
  {
    var all := fs + [id] + [days];
    assert all[..|all| - 2] == fs;
    forall i | 0 <= i < |fs|
      ensures FieldOk(fs[i], i, year)
    {
      assert all[i] == fs[i];
    }
    assert FieldOk(all[|fs| + 1], |fs| + 1, year);
  }

  lemma PushProperty(json: string, ps: seq<Property>, p: Property, env: Env, before: string, after: string)
    requires before == json + PrintItems(PropertyJsons(ps, env))
    requires after == before + (if ps == [] then "" else ",") + Print(PropertyJson(p, env))
    ensures after == json + PrintItems(PropertyJsons(ps + [p], env))
  {
    hide PropertyJson, Print;
    assert PropertyJsons(ps + [p], env) == PropertyJsons(ps, env) + [PropertyJson(p, env)];
    PushItem(json, PropertyJsons(ps, env), PropertyJson(p, env), before, after);
  }

  lemma {:induction false} CountProperties(fs: seq<Field>, year: ClockYear)
    requires AllOk(fs, year)
    ensures |PropertiesOf(fs, year)| == if fs == [] then 0 else (|fs| - 1) / 2
  {
    if |fs| >= 3 {
      CountProperties(if |fs| % 2 == 0 then fs[..|fs| - 1] else fs[..|fs| - 2], year);
    }
  }

  /** The text after the properties among `fs`. */
  ghost predicate Written(out: string, json: string, fs: seq<Field>, env: Env) {
    AllOk(fs, env.year) && out == json + PrintItems(PropertyJsons(PropertiesOf(fs, env.year), env))
  }

  lemma DaysFieldOk(f: Field, i: nat, year: ClockYear)
    requires FieldOk(f, i, year) && i > 0 && i % 2 == 0
    ensures DaysVector(f.data)
  {
  }

  lemma WrittenSnoc(json: string, fs: seq<Field>, id: Field, days: Field, env: Env, before: string, after: string)
    requires Written(before, json, fs, env) && |fs| % 2 == 1 && AllOk(fs + [id] + [days], env.year)
    requires DaysVector(days.data)
    requires after == before + (if |fs| <= 1 then "" else ",")
                    + Print(PropertyJson(Property(id.data, DaysOf(days.data)), env))
    ensures Written(after, json, fs + [id] + [days], env)
  {
    hide AllOk, Print, PropertyJson, DaysOf, DaysVector;
    PropertiesSnoc(fs, id, days, env.year);
    CountProperties(fs, env.year);
    PushProperty(json, PropertiesOf(fs, env.year), Property(id.data, DaysOf(days.data)), env, before, after);
  }

  /** The arm for an even field of type 0x01: a property id and, in the same round, its days vector. */
  method PropertyArm(before: string, first: bool, data: Bytes, start: nat, offset: nat, current: u16, total: u16,
                     env: Env, ghost json: string, ghost fs: seq<Field>)
    returns (ok: bool, out: string, next: nat, ghost after: seq<Field>)
    requires Passed(data, start, offset, fs, env.year) && Written(before, json, fs, env)
    requires |fs| % 2 == 1 && current == WireId(|fs|) && (first <==> |fs| <= 1) && total % 2 == 1
    requires FieldAt(data, offset).Some? && FieldOk(FieldAt(data, offset).value, |fs|, env.year)
    ensures !ok ==> Parse(WalkFrom(data, start), total, env.year).None?
    ensures ok ==> Passed(data, start, next, after, env.year) && Written(out, json, after, env)
    ensures ok ==> |after| == |fs| + 2 && offset < next
  {
    hide *;
    FieldAtIs(data, offset);
    WireIdSteps(|fs|);
    PassOne(data, start, offset, fs, env.year);
    ghost var id := FieldAt(data, offset).value;
    after := fs + [id];
    var at := offset + 7 + U32At(data, offset + 3);
    out := before;
    if !first {
      out := out + [','];
    }
    Separated(before, out, |fs| <= 1);
    ok, out, next := WriteProperty(out, data[offset + 7..at], data, at, current, |fs| + 1, env);
    if !ok {
      SpoiledPair(data, start, at, after, total, env.year);
      return;
    }
    DaysFieldOk(FieldAt(data, at).value, |fs| + 1, env.year);
    ArmDone(data, start, at, fs, id, json, env, before, out);
    after := after + [FieldAt(data, at).value];
  }

  /** The arm has passed both fields and written their property. */
  lemma ArmDone(data: Bytes, start: nat, at: nat, fs: seq<Field>, id: Field, json: string, env: Env,
                before: string, out: string)
    requires Passed(data, start, at, fs + [id], env.year) && Written(before, json, fs, env) && |fs| % 2 == 1
    requires FieldAt(data, at).Some? && FieldOk(FieldAt(data, at).value, |fs| + 1, env.year)
    requires var days := FieldAt(data, at).value.data;
             DaysVector(days) && out == before + (if |fs| <= 1 then "" else ",")
                                        + Print(PropertyJson(Property(id.data, DaysOf(days)), env))
    ensures var days := FieldAt(data, at).value;
            Passed(data, start, at + 7 + |days.data|, fs + [id] + [days], env.year)
            && Written(out, json, fs + [id] + [days], env)
  {
    hide *;
    var days := FieldAt(data, at).value;
    PassOne(data, start, at, fs + [id], env.year);
    PassedOk(data, start, at + 7 + |days.data|, fs + [id] + [days], env.year);
    WrittenSnoc(json, fs, id, days, env, before, out);
  }

  lemma Separated(before: string, out: string, first: bool)
    requires out == if first then before else before + [',']
    ensures out == before + (if first then "" else ",")
  {
  }

  lemma WrittenIs(out: string, json: string, fs: seq<Field>, env: Env)
    requires Written(out, json, fs, env)
    ensures AllOk(fs, env.year) && out == json + PrintItems(PropertyJsons(PropertiesOf(fs, env.year), env))
  {
  }

  lemma PassedOk(data: Bytes, start: nat, at: nat, fs: seq<Field>, year: ClockYear)
    requires Passed(data, start, at, fs, year)
    ensures AllOk(fs, year) && start <= at <= |data|
  {
  }

  /** The outer loop over the field area. */
  method WriteProperties(json: string, data: Bytes, start: nat, total: u16, env: Env)
    returns (ok: bool, out: string)
    requires start <= |data| && total % 2 == 1
    ensures var tree := Parse(WalkFrom(data, start), total, env.year);
            && (ok <==> tree.Some?)
            && (ok ==> out == json + PrintItems(PropertyJsons(tree.value, env)))
  {
    hide Passed, Written, ValidDays, Parse, WalkFrom, FieldAt, WireId, PropertyJsons, PrintItems, PropertiesOf, AllOk,
         U16At, U32At;
    out := json;
    var offset, current, firstProperty := start, 1, true;
    ghost var fs: seq<Field> := [];
    Begin(data, start, json, env);
    WireIdSteps(0);
    while offset + 7 <= |data|
      invariant start <= offset <= |data|
      invariant Passed(data, start, offset, fs, env.year) && Written(out, json, fs, env)
      invariant fs == [] || |fs| % 2 == 1
      invariant current == WireId(|fs|) && (firstProperty <==> |fs| <= 1)
      decreases |data| - offset
    {
      var fieldId := U16At(data, offset);
      var fieldType := data[offset + 2];
      var fieldLen := U32At(data, offset + 3);
      FieldAtIs(data, offset);
      WireIdSteps(|fs|);
      if fieldId != current || offset + 7 + fieldLen > |data| {
        Spoiled(data, start, offset, fs, total, env.year);
        return false, out;
      }
      if current == 1 && fieldType == 0x02 {
        if fieldLen != 2 {
          Spoiled(data, start, offset, fs, total, env.year);
          return false, out;
        }
        PassOne(data, start, offset, fs, env.year);
        FirstField(out, json, FieldAt(data, offset).value, env);
        assert fs + [FieldAt(data, offset).value] == [FieldAt(data, offset).value];
        fs := [FieldAt(data, offset).value];
        offset := offset + 7 + fieldLen;
      } else if fieldType == 0x01 && current % 2 == 0 {
        ok, out, offset, fs := PropertyArm(out, firstProperty, data, start, offset, current, total, env, json, fs);
        if !ok {
          return;
        }
        firstProperty := false;
        current := current + 1;
        WireIdSteps(|fs| - 1);
      } else {
        Spoiled(data, start, offset, fs, total, env.year);
        return false, out;
      }
      PassedOk(data, start, offset, fs, env.year);
      current := (current + 1) % U16_SIZE;
    }
    Finished(data, start, offset, fs, total, env.year);
    WrittenIs(out, json, fs, env);
    WireIdSteps(|fs|);
    ok := (current - 1) % U16_SIZE == total;
  }

  lemma Begin(data: Bytes, start: nat, json: string, env: Env)
    requires start <= |data|
    ensures Passed(data, start, start, [], env.year) && Written(json, json, [], env)
  {
    WalkBegins(data, start);
    assert PropertyJsons([], env) == [];
    assert json + "" == json;
  }

  lemma FirstField(out: string, json: string, f: Field, env: Env)
    requires FieldOk(f, 0, env.year) && Written(out, json, [], env)
    ensures Written(out, json, [f], env)
  {
    assert PropertiesOf([f], env.year) == PropertiesOf([], env.year);
  }

  /** `decode_search_avail_response`. */
  method Decode(data: Bytes, env: Env) returns (r: Response)
    ensures r == Decoded(data, env)
  {
    hide Parse, WalkFrom, ResultJson, PropertyJsons, Print, PrintItems, PROPERTIES_OPENING, U16At;
    if |data| == 0 {
      return Invalid;
    }
    var statusLen := data[0] as int;
    if |data| < 1 + statusLen + 2 {
      return Invalid;
    }
    var status := data[1..1 + statusLen];
    var totalFields := U16At(data, 1 + statusLen);
    var offset := 1 + statusLen + 2;
    if status != SUCCESS {
      return NonSuccess(Head(status, totalFields, offset));
    }
    var json := PROPERTIES_OPENING;
    if totalFields == 0 {
      ResultText([], env);
      return Success(json + "]}");
    }
    if totalFields < 1 || (totalFields - 1) % 2 != 0 {
      EvenCount(WalkFrom(data, offset), totalFields, env.year);
      return Invalid;
    }
    var ok;
    ok, json := WriteProperties(json, data, offset, totalFields, env);
    if !ok {
      return Invalid;
    }
    ResultText(Parse(WalkFrom(data, offset), totalFields, env.year).value, env);
    return Success(json + "]}");
  }

  lemma EvenCount(w: Walk, count: u16, year: ClockYear)
    requires count % 2 == 0
    ensures Parse(w, count, year).None?
  {
  }

  lemma ResultText(ps: seq<Property>, env: Env)
    ensures PROPERTIES_OPENING + PrintItems(PropertyJsons(ps, env)) + "]}" == Print(ResultJson(ps, env))
    ensures ps == [] ==> PROPERTIES_OPENING + "]}" == Print(ResultJson(ps, env))
  {
    hide PropertyJson, PROPERTIES_OPENING;
    PropertiesOpening();
    ListText("properties", PropertyJsons(ps, env));
    assert ps == [] ==> PropertyJsons(ps, env) == [];
  }

  // ---- What is accepted ----

  /**
   A SUCCESS payload with a non-zero count gets a 200 answer if and only if its field area is the
   encoding of acceptable fields, followed by at most 6 stray bytes.
   */
  lemma SuccessIffEncoded(data: Bytes, h: Head, env: Env)
    requires ParseHead(data) == Some(h) && h.status == SUCCESS && h.count != 0
    ensures Decoded(data, env).Success? <==> exists fs :: WellFormed(data, h, fs, env.year)
  {
    var w := WalkFrom(data, h.fields);
    if Decoded(data, env).Success? {
      WalkIffEncoded(data, h.fields, w.fields);
      assert WellFormed(data, h, w.fields, env.year);
    }
    if fs :| WellFormed(data, h, fs, env.year) {
      WalkIffEncoded(data, h.fields, fs);
    }
  }

  predicate WellFormed(data: Bytes, h: Head, fs: seq<Field>, year: ClockYear) {
    EncodesWithin(data, h.fields, fs) && Accepted(fs, h.count, year)
  }

  /** A days vector: a day count, and 11 bytes for each day that start with the packing of a date. */
  predicate DaysFilled(d: Bytes, year: ClockYear) {
    && |d| >= 2 && |d| == 2 + 11 * U16At(d, 0) as int
    && forall k :: 0 <= k < U16At(d, 0) ==> U16ToDate(U16At(d, 2 + 11 * k), year).Some?
  }

  lemma ValidIffFilled(d: Bytes, year: ClockYear)
    ensures ValidDays(d, year) <==> DaysFilled(d, year)
  {
    hide U16At, U32At;
    if ValidDays(d, year) {
      forall k | 0 <= k < U16At(d, 0)
        ensures U16ToDate(U16At(d, 2 + 11 * k), year).Some?
      {
        DayPacked(d, k);
        assert ValidPacked(DaysOf(d)[k].packed, year);
      }
    }
    if DaysFilled(d, year) {
      forall k | 0 <= k < |DaysOf(d)|
        ensures ValidPacked(DaysOf(d)[k].packed, year)
      {
        assert U16ToDate(U16At(d, 2 + 11 * k), year).Some?;
      }
    }
  }

  /** Below 65536 fields the wire ids are 1, 2, 3, ... and the count is the number of fields. */
  lemma AcceptedWithoutWrap(fs: seq<Field>, count: u16, year: ClockYear)
    requires |fs| < U16_SIZE
    ensures Accepted(fs, count, year)
       <==> && |fs| == count && count % 2 == 1
            && (forall i :: 0 <= i < |fs| ==> fs[i].id == i + 1)
            && fs[0].typ == 0x02 && |fs[0].data| == 2
            && (forall i :: 0 < i < |fs| && i % 2 == 1 ==> fs[i].typ == 0x01)
            && (forall i :: 0 < i < |fs| && i % 2 == 0 ==> fs[i].typ == 0x08 && DaysFilled(fs[i].data, year))
  {
    hide ValidDays, DaysFilled;
    forall i | 0 <= i < |fs|
      ensures ValidDays(fs[i].data, year) <==> DaysFilled(fs[i].data, year)
    {
      ValidIffFilled(fs[i].data, year);
    }
    if Accepted(fs, count, year) {
      assert FieldOk(fs[0], 0, year);
      forall i | 0 <= i < |fs|
        ensures fs[i].id == i + 1
      {
        assert FieldOk(fs[i], i, year);
        WireIdSteps(i);
      }
    }
  }

  /** The property list of accepted fields: one entry per pair, in wire order, each with its own days. */
  lemma {:induction false} PropertiesInOrder(fs: seq<Field>, year: ClockYear, j: nat)
    requires AllOk(fs, year) && |fs| % 2 == 1 && 2 * j + 2 < |fs|
    ensures FieldOk(fs[2 * j + 2], 2 * j + 2, year)
    ensures |PropertiesOf(fs, year)| == (|fs| - 1) / 2
    ensures PropertiesOf(fs, year)[j] == Property(fs[2 * j + 1].data, DaysOf(fs[2 * j + 2].data))
  {
    CountProperties(fs, year);
    var last := (|fs| - 1) / 2 - 1;
    assert FieldOk(fs[2 * j + 2], 2 * j + 2, year);
    if j < last {
      var front := fs[..|fs| - 2];
      PropertiesInOrder(front, year, j);
      CountProperties(front, year);
    }
  }

  /** The count is 16 bits wide and the ids wrap, so the count is the number of fields only up to 65535 of them. */
  lemma CountExactIffNoWrap(fs: seq<Field>, count: u16, year: ClockYear)
    requires Accepted(fs, count, year)
    ensures |fs| == count <==> |fs| < U16_SIZE
  {
  }

  function WrappingFields(): (fs: seq<Field>)
    ensures |fs| == U16_SIZE + 1
  {
    seq(U16_SIZE + 1, i requires 0 <= i < U16_SIZE + 1 =>
      if i == 0 then Field(1, 0x02, [0, 0])
      else Field(WireId(i), if i % 2 == 1 then 0x01 else 0x08, [0, 0]))
  }

  lemma WrappingFieldsOk(year: ClockYear)
    ensures AllOk(WrappingFields(), year) && Fits(WrappingFields())
  {
    hide ValidDays;
    EmptyDays(year);
  }

  /** A payload of 65537 fields that announces a single one is answered with 32768 properties. */
  lemma WrapAccepted(env: Env)
    ensures var data := EncodeHead(SUCCESS, 1) + EncodeFields(WrappingFields());
            && AllOk(WrappingFields(), env.year)
            && Decoded(data, env) == Success(Print(ResultJson(PropertiesOf(WrappingFields(), env.year), env)))
            && |PropertiesOf(WrappingFields(), env.year)| == 0x8000
  {
    hide AllOk, WrappingFields, EncodeFields, WalkFrom, PropertiesOf, Print, ResultJson, EncodeHead;
    var fs := WrappingFields();
    var body := EncodeFields(fs);
    var data := EncodeHead(SUCCESS, 1) + body;
    ParseHeadOfEncoded(SUCCESS, 1, body);
    WrappingFieldsOk(env.year);
    CountProperties(fs, env.year);
    assert |data| == 10 + |body| && data[10..10 + |body|] == data[10..];
    WalkIffEncoded(data, 10, fs);
  }

  lemma EmptyDays(year: ClockYear)
    ensures ValidDays([0, 0], year)
  {
  }

  // ---- What a client reads ----

  predicate PlainDay(d: Day, env: Env) {
    env.features.Some? ==> PlainNames(FeatureNames(env.features.value, d.mask))
  }

  predicate PlainProperty(p: Property, env: Env) {
    AllUnescaped(PropertyIdText(p.id)) && forall k :: 0 <= k < |p.days| ==> PlainDay(p.days[k], env)
  }

  lemma PlainFullDate(d: Date)
    ensures AllUnescaped(FullDate(d))
  {
    FullDateParts(d);
    var s := FullDate(d);
    forall i | 0 <= i < 10
      ensures Unescaped(s[i])
    {
      if i < 4 {
        assert s[i] == s[..4][i] && IsDigit(s[i]);
      } else if 4 < i < 7 {
        assert s[i] == s[5..7][i - 5] && IsDigit(s[i]);
      } else if i > 7 {
        assert s[i] == s[8..][i - 8] && IsDigit(s[i]);
      }
    }
  }

  lemma PlainDayJson(d: Day, env: Env)
    ensures Plain(DayJson(d, env)) <==> PlainDay(d, env)
  {
    var date, rates := FullDate(Unpack(d.packed, env.year)), FeatureArray(env.features, d.mask);
    PlainFullDate(Unpack(d.packed, env.year));
    PlainRates(env.features, d.mask);
    PlainDayObject(date, d.availability, d.price, rates);
  }

  lemma PlainDayObject(date: string, a: nat, p: nat, rates: Json)
    requires AllUnescaped(date)
    ensures Plain(DayObject(date, a, p, rates)) <==> Plain(rates)
  {
    var ms := DayObject(date, a, p, rates).members;
    assert ms[0] == Member("date", Str(date)) && ms[1] == Member("availability", Num(a));
    assert ms[2] == Member("final_price", Num(p)) && ms[3] == Member("rate_feature", rates);
    assert AllUnescaped("date") && AllUnescaped("availability");
    assert AllUnescaped("final_price") && AllUnescaped("rate_feature");
    assert PlainMember(ms[0]) && PlainMember(ms[1]) && PlainMember(ms[2]);
    assert PlainMember(ms[3]) <==> Plain(rates);
  }

  lemma PlainPropertyJson(p: Property, env: Env)
    ensures Plain(PropertyJson(p, env)) <==> PlainProperty(p, env)
  {
    hide DayJson, PlainDay, PropertyIdText;
    var days := DayJsons(p.days, env);
    forall k | 0 <= k < |p.days|
      ensures Plain(days[k]) <==> PlainDay(p.days[k], env)
    {
      PlainDayJson(p.days[k], env);
    }
    assert Plain(Arr(days)) <==> forall k :: 0 <= k < |p.days| ==> PlainDay(p.days[k], env);
    PlainObject2("property_id", Str(PropertyIdText(p.id)), "days", Arr(days));
  }

  /**
   The body of a 200 answer is a JSON text that reads back to the ids, dates, availabilities, prices and
   feature names of the tree, if and only if no id or feature name shown needs escaping.
   */
  lemma ResultReadsBackIffPlain(ps: seq<Property>, env: Env)
    ensures ReadText(Print(ResultJson(ps, env))) == Some(ResultJson(ps, env))
       <==> forall i :: 0 <= i < |ps| ==> PlainProperty(ps[i], env)
  {
    hide PropertyJson, PlainProperty, Print;
    var items := PropertyJsons(ps, env);
    forall i | 0 <= i < |ps|
      ensures Plain(items[i]) <==> PlainProperty(ps[i], env)
    {
      PlainPropertyJson(ps[i], env);
    }
    assert Plain(Arr(items)) <==> forall i :: 0 <= i < |ps| ==> PlainProperty(ps[i], env);
    assert AllUnescaped("properties");
    ListPlain("properties", items);
    ReadsBackIffPlain(ResultJson(ps, env));
  }

  /** A one-property answer whose short-form id is a quotation mark. */
  const QUOTING: seq<Field> :=
    [Field(1, 0x02, [0, 0]), Field(2, 0x01, [0x22, 0, 0, 0, 0, 0, MARKER]), Field(3, 0x08, [0, 0])]

  lemma QuotingOk(year: ClockYear)
    ensures AllOk(QUOTING, year) && Fits(QUOTING)
    ensures PropertiesOf(QUOTING, year) == [Property([0x22, 0, 0, 0, 0, 0, MARKER], [])]
  {
    var fs := QUOTING;
    WireIdSteps(0);
    WireIdSteps(1);
    WireIdSteps(2);
    EmptyDays(year);
    assert FieldOk(fs[0], 0, year) && FieldOk(fs[1], 1, year) && FieldOk(fs[2], 2, year);
    assert PropertiesOf(fs[..1], year) == [];
    assert DaysOf([0, 0]) == [];
  }

  lemma QuoteShown()
    ensures PropertyIdText([0x22, 0, 0, 0, 0, 0, MARKER]) == "\"" && !AllUnescaped("\"")
  {
    var data: Bytes := [0x22, 0, 0, 0, 0, 0, MARKER];
    assert data[..6][..1] == [0x22];
    CStringIs(data[..6], 1);
    assert data[7..] == [];
    assert [0x22] + [] == [0x22];
    assert Chars([0x22]) == "\"";
    assert !Unescaped("\""[0]);
  }

  /** An accepted payload whose answer is not read back: the id is copied into the JSON text without an escape. */
  lemma QuoteUnreadable(env: Env)
    ensures var data := EncodeHead(SUCCESS, 3) + EncodeFields(QUOTING);
            var tree := ResultJson([Property([0x22, 0, 0, 0, 0, 0, MARKER], [])], env);
            Decoded(data, env) == Success(Print(tree)) && ReadText(Print(tree)) != Some(tree)
  {
    hide AllOk, EncodeFields, WalkFrom, PropertiesOf, Print, ResultJson, EncodeHead, QUOTING, PropertyIdText, ReadText;
    var body := EncodeFields(QUOTING);
    var data := EncodeHead(SUCCESS, 3) + body;
    var ps := [Property([0x22, 0, 0, 0, 0, 0, MARKER], [])];
    ParseHeadOfEncoded(SUCCESS, 3, body);
    QuotingOk(env.year);
    ThreeFields();
    assert |data| == 10 + |body| && data[10..10 + |body|] == data[10..];
    WalkIffEncoded(data, 10, QUOTING);
    QuoteShown();
    assert !PlainProperty(ps[0], env);
    ResultReadsBackIffPlain(ps, env);
  }

  lemma ThreeFields()
    ensures |QUOTING| == 3
  {
  }

  // ---- What stands where ----

  /** What a client finds for day `k` of the days vector `d`: each value under its own name, from its own bytes. */
  ghost predicate ShowsDay(j: Json, d: Bytes, k: nat, env: Env)
    requires 2 + 11 * k + 11 <= |d|
  {
    && Get(j, "availability") == Some(Num(d[2 + 11 * k + 2]))
    && Get(j, "final_price") == Some(Num(U32At(d, 2 + 11 * k + 3)))
    && Get(j, "rate_feature") == Some(Arr(
         if env.features.None? then [] else Strs(FeatureNames(env.features.value, U32At(d, 2 + 11 * k + 7)))))
    && exists date :: && ValidDate(date) && env.year <= date.year <= env.year + 7
                      && U16At(d, 2 + 11 * k) as int % 0x1000
                         == 0x200 * (date.year - env.year) + 0x20 * (date.month - 1) + (date.day - 1)
                      && Get(j, "date") == Some(Str(FullDate(date)))
  }

  /** What a client finds for a property id and its days vector. */
  ghost predicate ShowsProperty(j: Json, id: Bytes, d: Bytes, env: Env) {
    && |d| >= 2 && |d| == 2 + 11 * U16At(d, 0) as int
    && Get(j, "property_id") == Some(Str(PropertyIdText(id)))
    && Get(j, "days").Some? && Get(j, "days").value.Arr? && |Get(j, "days").value.items| == U16At(d, 0)
    && forall k :: 0 <= k < U16At(d, 0) ==> ShowsDay(Get(j, "days").value.items[k], d, k, env)
  }

  /** What a client finds in the answer to the fields `fs`. */
  ghost predicate ShowsAnswer(j: Json, fs: seq<Field>, env: Env) {
    && Get(j, "status") == Some(Str("success"))
    && Get(j, "properties").Some? && Get(j, "properties").value.Arr?
    && |Get(j, "properties").value.items| == (if fs == [] then 0 else (|fs| - 1) / 2)
    && forall p :: 0 <= p < |Get(j, "properties").value.items| ==>
         ShowsProperty(Get(j, "properties").value.items[p], fs[2 * p + 1].data, fs[2 * p + 2].data, env)
  }

  lemma DayObjectShows(date: string, a: nat, p: nat, rates: Json)
    ensures var j := DayObject(date, a, p, rates);
            && Get(j, "date") == Some(Str(date)) && Get(j, "availability") == Some(Num(a))
            && Get(j, "final_price") == Some(Num(p)) && Get(j, "rate_feature") == Some(rates)
  {
    var m1, m2 := Member("date", Str(date)), Member("availability", Num(a));
    var m3, m4 := Member("final_price", Num(p)), Member("rate_feature", rates);
    var ms := [m1, m2, m3, m4];
    FindsAt(ms, 0);
    FindsAt(ms, 1);
    FindsAt(ms, 2);
    FindsAt(ms, 3);
  }

  lemma DayShows(d: Bytes, k: nat, env: Env)
    requires 2 + 11 * k + 11 <= |d| && ValidPacked(U16At(d, 2 + 11 * k), env.year)
    ensures ShowsDay(DayJson(DayAt(d, k), env), d, k, env)
  {
    hide Get, FullDate, DayObject, FeatureNames, U16At, U32At, ValidDate;
    var day := DayAt(d, k);
    var date := Unpack(day.packed, env.year);
    DayObjectShows(FullDate(date), day.availability, day.price, FeatureArray(env.features, day.mask));
    ShownIffPacked(day.packed, env.year, date);
    ShownIs(day.packed, env.year, date);
  }

  lemma PropertyShows(id: Bytes, d: Bytes, env: Env)
    requires ValidDays(d, env.year)
    ensures ShowsProperty(PropertyJson(Property(id, DaysOf(d)), env), id, d, env)
  {
    hide DayJson, PropertyIdText, ShowsDay, ValidPacked, U16At, Get;
    var days := DayJsons(DaysOf(d), env);
    GetTwo("property_id", Str(PropertyIdText(id)), "days", Arr(days));
    forall k | 0 <= k < |days|
      ensures ShowsDay(days[k], d, k, env)
    {
      assert DaysOf(d)[k] == DayAt(d, k);
      DayPacked(d, k);
      DayShows(d, k, env);
    }
  }

  lemma DayPacked(d: Bytes, k: nat)
    requires 2 + 11 * k + 11 <= |d|
    ensures DayAt(d, k).packed == U16At(d, 2 + 11 * k)
  {
  }

  /**
   The answer to an accepted payload, value by value: a client that looks values up by name finds for property `p`
   the id of field 2p + 1 and for its day `k` what stands at byte 2 + 11k of field 2p + 2. The printed answer reads
   back to that tree if and only if nothing shown needs escaping.
   */
  lemma AnswerShowsFields(data: Bytes, h: Head, fs: seq<Field>, env: Env) returns (tree: Json)
    requires ParseHead(data) == Some(h) && h.status == SUCCESS && h.count != 0 && WellFormed(data, h, fs, env.year)
    ensures Decoded(data, env) == Success(Print(tree)) && ShowsAnswer(tree, fs, env)
    ensures ReadText(Print(tree)) == Some(tree)
       <==> forall p :: 0 <= p < |PropertiesOf(fs, env.year)| ==> PlainProperty(PropertiesOf(fs, env.year)[p], env)
  {
    hide ParseHead, WalkFrom, PropertyJson, ShowsProperty, Print, ReadText, PlainProperty, FieldOk, Get;
    var ps := PropertiesOf(fs, env.year);
    WalkIffEncoded(data, h.fields, fs);
    tree := ResultJson(ps, env);
    ListResultShows("properties", PropertyJsons(ps, env));
    CountProperties(fs, env.year);
    forall p | 0 <= p < |ps|
      ensures ShowsProperty(PropertyJson(ps[p], env), fs[2 * p + 1].data, fs[2 * p + 2].data, env)
    {
      PropertiesInOrder(fs, env.year, p);
      PropertyShownAt(fs, p, env);
    }
    ResultReadsBackIffPlain(ps, env);
  }

  lemma PropertyShownAt(fs: seq<Field>, p: nat, env: Env)
    requires AllOk(fs, env.year) && 2 * p + 2 < |fs| && FieldOk(fs[2 * p + 2], 2 * p + 2, env.year)
    ensures ShowsProperty(PropertyJson(Property(fs[2 * p + 1].data, DaysOf(fs[2 * p + 2].data)), env),
                          fs[2 * p + 1].data, fs[2 * p + 2].data, env)
  {
    hide ShowsProperty, PropertyJson;
    PropertyShows(fs[2 * p + 1].data, fs[2 * p + 2].data, env);
  }

  /** The remaining payloads: no head, another status, no properties. */
  lemma OtherAnswers(data: Bytes, env: Env) returns (tree: Json)
    ensures ParseHead(data).None? ==> Decoded(data, env) == Invalid
    ensures ParseHead(data).Some? && Chars(ParseHead(data).value.status) != "SUCCESS" ==>
              Decoded(data, env) == NonSuccess(ParseHead(data).value)
    ensures (ParseHead(data).Some? && Chars(ParseHead(data).value.status) == "SUCCESS"
             && ParseHead(data).value.count == 0) ==>
              && Decoded(data, env) == Success(Print(tree)) && ReadText(Print(tree)) == Some(tree)
              && ShowsAnswer(tree, [], env)
  {
    hide ParseHead, Print, ReadText, Get;
    tree := ResultJson([], env);
    SuccessText();
    if ParseHead(data).Some? {
      SameChars(ParseHead(data).value.status, SUCCESS);
    }
    ListResultShows("properties", PropertyJsons([], env));
    ResultReadsBackIffPlain([], env);
  }
}
