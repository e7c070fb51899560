/** GETPROPROOMDAY responses: exactly five fields and nothing else. */
module GetPropRoomDay {
  import opened Bytes
  import opened Tlv
  import opened Json
  import opened Response
  import opened PropertyId
  import opened Features

  /** Property id, date, availability, price and feature mask, in this order. */
  predicate FiveFields(fs: seq<Field>) {
    && |fs| == 5 && (forall i :: 0 <= i < 5 ==> fs[i].id == i + 1)
    && fs[0].typ == 0x01 && fs[1].typ == 0x01
    && fs[2].typ == 0x02 && |fs[2].data| == 1
    && fs[3].typ == 0x03 && |fs[3].data| == 4
    && fs[4].typ == 0x03 && |fs[4].data| == 4
  }

  /** The standard library's UTF-8 conversions, and the features announced so far. */
  datatype Env = Env(utf8: Bytes -> Option<string>, lossy: Bytes -> string, features: Option<seq<string>>)

  function DateOf(date: Bytes, env: Env): string {
    match env.utf8(date)
    case None => "invalid-date"
    case Some(text) => text
  }

  function DayObject(id: string, date: string, availability: nat, price: nat, rates: Json): Json {
    Obj([Member("status", Str("success")), Member("property_id", Str(id)), Member("date", Str(date)),
         Member("availability", Num(availability)), Member("final_price", Num(price)), Member("rate_feature", rates)])
  }

  function ResultJson(fs: seq<Field>, env: Env): Json
    requires FiveFields(fs)
  {
    DayObject(PropertyIdString(fs[0].data, env.lossy), DateOf(fs[1].data, env), fs[2].data[0],
              U32At(fs[3].data, 0), FeatureArray(env.features, U32At(fs[4].data, 0)))
  }

  function Decoded(data: Bytes, env: Env): Response {
    match ParseHead(data)
    case None => Invalid
    case Some(h) =>
      if h.status != SUCCESS then NonSuccess(h)
      else
        var w := ReadFields(data, h.fields, 5);
        if h.count == 5 && w.Walked? && w.end == |data| && FiveFields(w.fields) && env.features.Some?
        then Success(Print(ResultJson(w.fields, env)))
        else Invalid
  }

  // ---- The decoder ----

  /** The `read_field!` macro. */
  method ReadField(data: Bytes, at: nat, ghost start: nat, ghost fs: seq<Field>)
    returns (ok: bool, id: u16, typ: u8, slice: Bytes, next: nat, ghost after: seq<Field>)
    requires Reading(data, start, at, fs, 5) && |fs| < 5
    ensures !ok ==> ReadFields(data, start, 5).Truncated?
    ensures ok ==> after == fs + [Field(id, typ, slice)] && Reading(data, start, next, after, 5)
    ensures ok && ReadFields(data, start, 5).Walked? ==>
      ReadFields(data, start, 5).fields[|fs|] == Field(id, typ, slice)
  {
    hide FieldAt, ReadFields;
    ok, id, typ, slice, next, after := false, 0, 0, [], at, fs;
    ReadingMoves(data, start, at, fs, 5);
    if at + 7 > |data| {
      TooShort(data, at);
      return;
    }
    FieldAtIs(data, at);
    id := U16At(data, at);
    typ := data[at + 2];
    var len := U32At(data, at + 3);
    next := at + 7;
    if next + len > |data| {
      return;
    }
    slice := data[next..next + len];
    next := next + len;
    after := fs + [Field(id, typ, slice)];
    ok := true;
  }

  method ReadFive(data: Bytes, start: nat)
    returns (ok: bool, idBytes: Bytes, dateBytes: Bytes, availability: u8, price: u32, mask: u32)
    requires start <= |data|
    ensures var w := ReadFields(data, start, 5);
            && (ok <==> w.Walked? && w.end == |data| && FiveFields(w.fields))
            && (ok ==> && idBytes == w.fields[0].data && dateBytes == w.fields[1].data
                       && availability == w.fields[2].data[0]
                       && price == U32At(w.fields[3].data, 0) && mask == U32At(w.fields[4].data, 0))
  {
    hide Reading, ReadFields, U32At;
    ok, idBytes, dateBytes, availability, price, mask := false, [], [], 0, 0, 0;
    ReadingBegins(data, start, 5);
    var read, id, typ, slice, next;
    ghost var fs;
    read, id, typ, slice, next, fs := ReadField(data, start, start, []);
    if !read || id != 1 || typ != 0x01 {
      return;
    }
    idBytes := slice;
    read, id, typ, slice, next, fs := ReadField(data, next, start, fs);
    if !read || id != 2 || typ != 0x01 {
      return;
    }
    dateBytes := slice;
    read, id, typ, slice, next, fs := ReadField(data, next, start, fs);
    if !read || id != 3 || typ != 0x02 || |slice| != 1 {
      return;
    }
    availability := slice[0];
    read, id, typ, slice, next, fs := ReadField(data, next, start, fs);
    if !read || id != 4 || typ != 0x03 || |slice| != 4 {
      return;
    }
    price := U32At(slice, 0);
    read, id, typ, slice, next, fs := ReadField(data, next, start, fs);
    if !read || id != 5 || typ != 0x03 || |slice| != 4 {
      return;
    }
    mask := U32At(slice, 0);
    ReadingEnds(data, start, next, fs, 5);
    ok := next == |data|;
  }

  const OPENING := "{\"status\":\"success\",\"property_id\":\""
  const DATE_KEY := "\",\"date\":\""
  const AVAILABILITY_KEY := "\",\"availability\":"
  const PRICE_KEY := ",\"final_price\":"
  const RATES_KEY := ",\"rate_feature\":["

  lemma OpeningIs()
    ensures OPENING == "{" + (Quoted("status") + ":" + Quoted("success")) + ("," + Quoted("property_id") + ":" + "\"")
  {
  }

  lemma KeysAre()
    ensures DATE_KEY == "\"" + ("," + Quoted("date") + ":") + "\""
    ensures AVAILABILITY_KEY == "\"" + ("," + Quoted("availability") + ":")
    ensures PRICE_KEY == "," + Quoted("final_price") + ":"
  {
  }

  lemma RatesKeyIs()
    ensures RATES_KEY == "," + Quoted("rate_feature") + ":" + "["
  {
  }

  /** The pieces the decoder pushes, put together, are the printed object. */
  lemma DayText(id: string, date: string, a: nat, p: nat, rates: seq<Json>)
    ensures OPENING + id + DATE_KEY + date + AVAILABILITY_KEY + Decimal(a) + PRICE_KEY + Decimal(p) + RATES_KEY
          + PrintItems(rates) + "]}"
         == Print(DayObject(id, date, a, p, Arr(rates)))
  {
    hide Quoted, Decimal, PrintItems, OPENING, DATE_KEY, AVAILABILITY_KEY, PRICE_KEY, RATES_KEY;
    OpeningIs();
    KeysAre();
    RatesKeyIs();
    var status := Member("status", Str("success"));
    var ms2 := [status] + [Member("property_id", Str(id))];
    FirstTwo(id);
    PushTextAfterText(ms2, "date", date, OPENING + id, DATE_KEY);
    var ms3 := ms2 + [Member("date", Str(date))];
    PushAfterText(ms3, Member("availability", Num(a)), OPENING + id + DATE_KEY + date, AVAILABILITY_KEY);
    var ms4 := ms3 + [Member("availability", Num(a))];
    PushMember(ms4, Member("final_price", Num(p)), PRICE_KEY);
    var ms5 := ms4 + [Member("final_price", Num(p))];
    var key := "," + Quoted("rate_feature") + ":";
    PushMember(ms5, Member("rate_feature", Arr(rates)), key);
    CloseBoth("", Open(ms5), key, PrintItems(rates));
    assert ms5 + [Member("rate_feature", Arr(rates))] == DayObject(id, date, a, p, Arr(rates)).members;
  }

  lemma FirstTwo(id: string)
    ensures OPENING + id + "\"" == Open([Member("status", Str("success"))] + [Member("property_id", Str(id))])
  {
    hide Quoted, OPENING;
    OpeningIs();
    var status := Member("status", Str("success"));
    PushMember([], status, Quoted("status") + ":");
    assert [] + [status] == [status];
    assert "{" + (Quoted("status") + ":" + Quoted("success")) == Open([status]);
    var key := "," + Quoted("property_id") + ":";
    PushMember([status], Member("property_id", Str(id)), key);
    assert Open([status]) + (key + "\"") + id + "\"" == Open([status]) + key + ("\"" + id + "\"");
    QuotedIs(id);
  }

  lemma QuotedIs(id: string)
    ensures Quoted(id) == "\"" + id + "\""
  {
  }

  /** `decode_get_prop_room_day_response`. */
  method Decode(data: Bytes, env: Env) returns (r: Response)
    ensures r == Decoded(data, env)
  {
    hide OPENING, DATE_KEY, AVAILABILITY_KEY, PRICE_KEY, RATES_KEY, PrintItems, Print, FeatureNames, Decimal;
    if |data| == 0 {
      return Invalid;
    }
    var statusLen := data[0] as int;
    if |data| < 1 + statusLen + 2 {
      return Invalid;
    }
    var status := data[1..1 + statusLen];
    var fieldCount := U16At(data, 1 + statusLen);
    var offset := 1 + statusLen + 2;
    if status != SUCCESS {
      return NonSuccess(Head(status, fieldCount, offset));
    }
    if fieldCount != 5 {
      return Invalid;
    }
    var ok, idBytes, dateBytes, availability, price, mask := ReadFive(data, offset);
    if !ok {
      return Invalid;
    }
    var dateStr := DateOf(dateBytes, env);
    var names := BitmaskToFeatureStrings(env.features, mask);
    if names.None? {
      return Invalid;
    }
    var id := BytesToPropertyId(idBytes, env.lossy);
    var json := OPENING + id + DATE_KEY + dateStr + AVAILABILITY_KEY + Decimal(availability);
    json := json + PRICE_KEY + Decimal(price) + RATES_KEY;
    json := WriteStrings(json, names.value);
    DayText(id, dateStr, availability, price, Strs(names.value));
    r := Success(json + "]}");
  }

  // ---- What is accepted ----

  /** Accepted: the encoding of the five fields and not a byte more, once features have been announced. */
  lemma SuccessIffEncoded(data: Bytes, h: Head, env: Env)
    requires ParseHead(data) == Some(h) && h.status == SUCCESS && env.features.Some?
    ensures Decoded(data, env).Success?
       <==> h.count == 5 && exists fs :: FiveFields(fs) && Fits(fs) && data[h.fields..] == EncodeFields(fs)
  {
    hide Print, ResultJson;
    var w := ReadFields(data, h.fields, 5);
    assert data[h.fields..|data|] == data[h.fields..];
    if w.Walked? {
      ReadFieldsIffEncoded(data, h.fields, w.fields, w.end);
    }
    if fs :| FiveFields(fs) && Fits(fs) && data[h.fields..] == EncodeFields(fs) {
      ReadFieldsIffEncoded(data, h.fields, fs, |data|);
    }
  }

  lemma PlainDayObject(id: string, date: string, a: nat, p: nat, rates: Json)
    ensures Plain(DayObject(id, date, a, p, rates)) <==> AllUnescaped(id) && AllUnescaped(date) && Plain(rates)
  {
    hide AllUnescaped;
    var ms := DayObject(id, date, a, p, rates).members;
    PlainKeys();
    assert ms[0] == Member("status", Str("success")) && ms[1] == Member("property_id", Str(id));
    assert ms[2] == Member("date", Str(date)) && ms[3] == Member("availability", Num(a));
    assert ms[4] == Member("final_price", Num(p)) && ms[5] == Member("rate_feature", rates);
    assert PlainMember(ms[0]) && PlainMember(ms[3]) && PlainMember(ms[4]);
    assert PlainMember(ms[1]) <==> AllUnescaped(id);
    assert PlainMember(ms[2]) <==> AllUnescaped(date);
    assert PlainMember(ms[5]) <==> Plain(rates);
  }

  lemma PlainKeys()
    ensures AllUnescaped("status") && AllUnescaped("success") && AllUnescaped("property_id") && AllUnescaped("date")
    ensures AllUnescaped("availability") && AllUnescaped("final_price") && AllUnescaped("rate_feature")
  {
  }

  /** The answer reads back to its tree if and only if neither the id, nor the date, nor a name shown needs escaping. */
  lemma ResultReadsBackIffPlain(fs: seq<Field>, env: Env)
    requires FiveFields(fs) && env.features.Some?
    ensures ReadText(Print(ResultJson(fs, env))) == Some(ResultJson(fs, env))
       <==> && AllUnescaped(PropertyIdString(fs[0].data, env.lossy)) && AllUnescaped(DateOf(fs[1].data, env))
            && PlainNames(FeatureNames(env.features.value, U32At(fs[4].data, 0)))
  {
    hide Print, ReadText, AllUnescaped, U32At, PropertyIdString, DateOf, FeatureNames, DayObject;
    var id, date := PropertyIdString(fs[0].data, env.lossy), DateOf(fs[1].data, env);
    var mask := U32At(fs[4].data, 0);
    PlainRates(env.features, mask);
    PlainDayObject(id, date, fs[2].data[0], U32At(fs[3].data, 0), FeatureArray(env.features, mask));
    ReadsBackIffPlain(ResultJson(fs, env));
  }

  // ---- What stands where ----

  lemma {:induction false} KeyedFive(fs: seq<Field>)
    requires FiveFields(fs)
    ensures fs == [Field(1, 0x01, fs[0].data), Field(2, 0x01, fs[1].data), Field(3, 0x02, [fs[2].data[0]]),
                   Field(4, 0x03, Le32(U32At(fs[3].data, 0))), Field(5, 0x03, Le32(U32At(fs[4].data, 0)))]
  {
    hide Le32, U32At;
    Le32OfU32At(fs[3].data, 0);
    Le32OfU32At(fs[4].data, 0);
    assert fs[3].data[0..4] == fs[3].data && fs[4].data[0..4] == fs[4].data;
    assert fs[2].data == [fs[2].data[0]];
  }

  /** From `at` on: an id, a date, an availability byte, a price word and a mask word, and nothing else. */
  ghost predicate FieldsAre(data: Bytes, at: nat, id: Bytes, date: Bytes, availability: u8, price: u32, mask: u32) {
    && |id| < 0x1_0000_0000 && |date| < 0x1_0000_0000 && at <= |data|
    && data[at..] == EncodeFields([Field(1, 0x01, id), Field(2, 0x01, date), Field(3, 0x02, [availability]),
                                   Field(4, 0x03, Le32(price)), Field(5, 0x03, Le32(mask))])
  }

  lemma FieldsGiven(data: Bytes, at: nat, id: Bytes, date: Bytes, availability: u8, price: u32, mask: u32)
    requires FieldsAre(data, at, id, date, availability, price, mask)
    ensures exists fs: seq<Field> :: FiveFields(fs) && Fits(fs) && data[at..] == EncodeFields(fs)
  {
    hide EncodeFields, Le32;
    var fs := [Field(1, 0x01, id), Field(2, 0x01, date), Field(3, 0x02, [availability]),
               Field(4, 0x03, Le32(price)), Field(5, 0x03, Le32(mask))];
    assert FiveFields(fs) && Fits(fs);
  }

  lemma FieldsFound(data: Bytes, at: nat, fs: seq<Field>, price: u32, mask: u32)
    requires FiveFields(fs) && Fits(fs) && at <= |data| && data[at..] == EncodeFields(fs)
    requires price == U32At(fs[3].data, 0) && mask == U32At(fs[4].data, 0)
    ensures FieldsAre(data, at, fs[0].data, fs[1].data, fs[2].data[0], price, mask)
  {
    hide EncodeFields, Le32, U32At;
    KeyedFive(fs);
  }

  /** Accepted, field by field. */
  lemma AcceptedIffFive(data: Bytes, h: Head, env: Env)
    requires ParseHead(data) == Some(h) && h.status == SUCCESS && env.features.Some?
    ensures Decoded(data, env).Success?
       <==> && h.count == 5
            && exists id: Bytes, date: Bytes, availability: u8, price: u32, mask: u32 ::
                 FieldsAre(data, h.fields, id, date, availability, price, mask)
  {
    hide EncodeFields, Decoded, Le32, ParseHead, U32At, FieldsAre;
    SuccessIffEncoded(data, h, env);
    if Decoded(data, env).Success? {
      var fs: seq<Field> :| FiveFields(fs) && Fits(fs) && data[h.fields..] == EncodeFields(fs);
      var price, mask := U32At(fs[3].data, 0), U32At(fs[4].data, 0);
      FieldsFound(data, h.fields, fs, price, mask);
    }
    if id: Bytes, date: Bytes, availability: u8, price: u32, mask: u32 :|
         FieldsAre(data, h.fields, id, date, availability, price, mask) {
      FieldsGiven(data, h.fields, id, date, availability, price, mask);
    }
  }

  /** The answer, value by value: each under its own name and from its own field. */
  lemma AnswerShowsFields(data: Bytes, h: Head, id: Bytes, date: Bytes, availability: u8, price: u32, mask: u32,
                          env: Env) returns (tree: Json)
    requires ParseHead(data) == Some(h) && h.status == SUCCESS && h.count == 5 && env.features.Some?
    requires FieldsAre(data, h.fields, id, date, availability, price, mask)
    ensures Decoded(data, env) == Success(Print(tree))
    ensures Get(tree, "status") == Some(Str("success"))
    ensures Get(tree, "property_id") == Some(Str(PropertyIdString(id, env.lossy)))
    ensures Get(tree, "date") == Some(Str(match env.utf8(date) case Some(text) => text case None => "invalid-date"))
    ensures Get(tree, "availability") == Some(Num(availability)) && Get(tree, "final_price") == Some(Num(price))
    ensures Get(tree, "rate_feature") == Some(Arr(Strs(FeatureNames(env.features.value, mask))))
  {
    hide EncodeFields, Le32, ParseHead, U32At, ReadFields, Get, Print, PropertyIdString, FeatureNames, DateOf;
    var fs := [Field(1, 0x01, id), Field(2, 0x01, date), Field(3, 0x02, [availability]),
               Field(4, 0x03, Le32(price)), Field(5, 0x03, Le32(mask))];
    assert FiveFields(fs) && Fits(fs);
    assert data[h.fields..|data|] == data[h.fields..];
    ReadFieldsIffEncoded(data, h.fields, fs, |data|);
    WordOf(price);
    WordOf(mask);
    tree := ResultJson(fs, env);
    DayShows(PropertyIdString(id, env.lossy), DateOf(date, env), availability, price,
             FeatureArray(env.features, mask));
    DateIs(date, env);
  }

  lemma DateIs(date: Bytes, env: Env)
    ensures DateOf(date, env) == match env.utf8(date) case Some(text) => text case None => "invalid-date"
  {
  }

  lemma WordOf(n: u32)
    ensures U32At(Le32(n), 0) == n
  {
    U32RoundTrip(n, Le32(n), 0);
  }

  lemma DayShows(id: string, date: string, a: nat, p: nat, rates: Json)
    ensures var j := DayObject(id, date, a, p, rates);
            && Get(j, "status") == Some(Str("success")) && Get(j, "property_id") == Some(Str(id))
            && Get(j, "date") == Some(Str(date)) && Get(j, "availability") == Some(Num(a))
            && Get(j, "final_price") == Some(Num(p)) && Get(j, "rate_feature") == Some(rates)
  {
    var m1, m2, m3 := Member("status", Str("success")), Member("property_id", Str(id)), Member("date", Str(date));
    var m4, m5 := Member("availability", Num(a)), Member("final_price", Num(p));
    var ms := [m1, m2, m3, m4, m5, Member("rate_feature", rates)];
    FindsAt(ms, 0);
    FindsAt(ms, 1);
    FindsAt(ms, 2);
    FindsAt(ms, 3);
    FindsAt(ms, 4);
    FindsAt(ms, 5);
  }

  /** Without a head or without features announced the answer is the fixed error; another status is passed on. */
  lemma OtherAnswers(data: Bytes, env: Env)
    ensures ParseHead(data).None? ==> Decoded(data, env) == Invalid
    ensures ParseHead(data).Some? && Chars(ParseHead(data).value.status) != "SUCCESS" ==>
              Decoded(data, env) == NonSuccess(ParseHead(data).value)
    ensures ParseHead(data).Some? && Chars(ParseHead(data).value.status) == "SUCCESS" ==>
              && !Decoded(data, env).NonSuccess? && !Decoded(data, env).BadRequest?
              && (env.features.None? ==> Decoded(data, env) == Invalid)
  {
    hide ParseHead;
    SuccessText();
    if ParseHead(data).Some? {
      SameChars(ParseHead(data).value.status, SUCCESS);
    }
  }
}
