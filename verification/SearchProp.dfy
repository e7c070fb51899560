/** SEARCHPROP responses: a counted list of property ids. */
module SearchProp {
  import opened Bytes
  import opened Tlv
  import opened Json
  import opened Response
  import opened PropertyId

  predicate FieldOk(f: Field, i: nat) {
    f.id == i + 1 && f.typ == 0x01
  }

  predicate AllOk(fs: seq<Field>) {
    forall i :: 0 <= i < |fs| ==> FieldOk(fs[i], i)
  }

  function Ids(fs: seq<Field>, lossy: Bytes -> string): seq<string> {
    if fs == [] then []
    else Ids(fs[..|fs| - 1], lossy) + [PropertyIdString(fs[|fs| - 1].data, lossy)]
  }

  function ErrorJson(message: Bytes): Json {
    Obj([Member("status", Str("error")),
         Member("message", Str(if message == [] then "UNKNOWN_ERROR" else Chars(message)))])
  }

  /** Exactly `count` fields are looked at; a single one is an error message. */
  function Decoded(data: Bytes, lossy: Bytes -> string): Response {
    match ParseHead(data)
    case None => Invalid
    case Some(h) =>
      if h.status != SUCCESS then NonSuccess(h)
      else
        var w := ReadFields(data, h.fields, h.count);
        if w.Truncated? || !AllOk(w.fields) then Invalid
        else if h.count == 1 then BadRequest(Print(ErrorJson(w.fields[0].data)))
        else Success(Print(ListResult("properties", Strs(Ids(w.fields, lossy)))))
  }

  method CollectIds(data: Bytes, start: nat, fieldCount: u16, lossy: Bytes -> string)
    returns (ok: bool, properties: seq<string>)
    requires start <= |data|
    ensures var w := ReadFields(data, start, fieldCount);
            && (ok <==> w.Walked? && AllOk(w.fields))
            && (ok ==> properties == Ids(w.fields, lossy))
  {
    hide Reading, ReadFields, FieldAt, PropertyIdString;
    properties := [];
    var offset: nat := start;
    ghost var fs: seq<Field> := [];
    ReadingBegins(data, start, fieldCount);
    for i := 0 to fieldCount
      invariant offset <= |data| && |fs| == i && Reading(data, start, offset, fs, fieldCount)
      invariant AllOk(fs) && properties == Ids(fs, lossy)
    {
      var expectedId := i + 1;
      ReadingMoves(data, start, offset, fs, fieldCount);
      if offset + 7 > |data| {
        TooShort(data, offset);
        return false, properties;
      }
      FieldAtIs(data, offset);
      var fieldId := U16At(data, offset);
      if fieldId != expectedId {
        return false, properties;
      }
      var fieldType := data[offset + 2];
      if fieldType != 0x01 {
        return false, properties;
      }
      var fieldLen := U32At(data, offset + 3);
      offset := offset + 7;
      if offset + fieldLen > |data| {
        return false, properties;
      }
      var raw := data[offset..offset + fieldLen];
      fs := fs + [Field(fieldId, fieldType, raw)];
      assert fs[..|fs| - 1] + [Field(fieldId, fieldType, raw)] == fs;
      var id := BytesToPropertyId(raw, lossy);
      properties := properties + [id];
      offset := offset + fieldLen;
    }
    ReadingEnds(data, start, offset, fs, fieldCount);
    ok := true;
  }

  const ERROR_OPENING := "{\"status\":\"error\",\"message\":\""

  lemma ErrorKeys()
    ensures ERROR_OPENING == "{" + (Quoted("status") + ":" + Quoted("error")) + ("," + Quoted("message") + ":" + "\"")
  {
  }

  lemma ErrorText(text: string)
    ensures ERROR_OPENING + text + "\"}" == Print(Obj([Member("status", Str("error")), Member("message", Str(text))]))
  {
    hide Quoted, ERROR_OPENING;
    ErrorKeys();
    var m1, m2 := Member("status", Str("error")), Member("message", Str(text));
    var key := "," + Quoted("message") + ":";
    PushMember([], m1, Quoted("status") + ":");
    PushMember([m1], m2, key);
    assert [] + [m1] == [m1] && [m1] + [m2] == [m1, m2];
    assert "{" + (Quoted("status") + ":" + Quoted("error")) == Open([m1]);
    CloseText(Open([m1]), key, text);
  }

  lemma CloseText(s: string, key: string, text: string)
    ensures s + (key + "\"") + text + "\"}" == s + key + Quoted(text) + "}"
  {
    assert "\"}" == "\"" + "}";
    assert s + (key + "\"") + text + "\"" == s + key + ("\"" + text + "\"");
  }

  /** `decode_search_prop_response`. */
  method Decode(data: Bytes, lossy: Bytes -> string) returns (r: Response)
    ensures r == Decoded(data, lossy)
  {
    hide PROPERTIES_OPENING, ERROR_OPENING, PrintItems, Print, Ids, FieldAt, Chars;
    PropertiesOpening();
    if |data| == 0 {
      return Invalid;
    }
    var statusLen := data[0] as int;
    if |data| < 1 + statusLen + 2 {
      return Invalid;
    }
    var status := data[1..1 + statusLen];
    var fieldCount := U16At(data, 1 + statusLen);
    var offset := 1 + statusLen + 2;
    if status != SUCCESS {
      return NonSuccess(Head(status, fieldCount, offset));
    }
    if fieldCount == 0 {
      NoIds(lossy);
      ListText("properties", Strs([]));
      return Success(PROPERTIES_OPENING + "]}");
    }
    if fieldCount == 1 {
      r := DecodeError(data, offset);
      return;
    }
    var ok, properties := CollectIds(data, offset, fieldCount, lossy);
    if !ok {
      return Invalid;
    }
    var json := WriteStrings(PROPERTIES_OPENING, properties);
    ListText("properties", Strs(properties));
    r := Success(json + "]}");
  }

  lemma NoIds(lossy: Bytes -> string)
    ensures Ids([], lossy) == []
  {
  }

  /** SUCCESS with exactly one field: the server reports an error that way. */
  method DecodeError(data: Bytes, at: nat) returns (r: Response)
    requires at <= |data|
    ensures var w := ReadFields(data, at, 1);
            r == if w.Truncated? || !AllOk(w.fields) then Invalid else BadRequest(Print(ErrorJson(w.fields[0].data)))
  {
    hide ERROR_OPENING, FieldAt, Chars, Print;
    OneField(data, at);
    if at + 7 > |data| {
      TooShort(data, at);
      return Invalid;
    }
    FieldAtIs(data, at);
    var fieldId := U16At(data, at);
    var fieldType := data[at + 2];
    if fieldId != 1 || fieldType != 0x01 {
      return Invalid;
    }
    var fieldLen := U32At(data, at + 3);
    var offset := at + 7;
    if offset + fieldLen > |data| {
      return Invalid;
    }
    var message := data[offset..offset + fieldLen];
    var msg := if message == [] then "UNKNOWN_ERROR" else Chars(message);
    ErrorText(msg);
    r := BadRequest(ERROR_OPENING + msg + "\"}");
  }

  lemma OneField(data: Bytes, at: nat)
    ensures FieldAt(data, at).None? ==> ReadFields(data, at, 1).Truncated?
    ensures FieldAt(data, at).Some? ==>
      ReadFields(data, at, 1).Walked? && ReadFields(data, at, 1).fields == [FieldAt(data, at).value]
  {
    if FieldAt(data, at).Some? {
      var f := FieldAt(data, at).value;
      assert ReadFields(data, at + 7 + |f.data|, 0) == Walked([], at + 7 + |f.data|);
      assert [f] + [] == [f];
    }
  }

  /**
   A list is answered if and only if the announced number of fields is there, consecutively numbered and
   of type 0x01; whatever follows them is ignored. The answer then shows one id per field, in order.
   */
  lemma SuccessIffEncoded(data: Bytes, h: Head, lossy: Bytes -> string)
    requires ParseHead(data) == Some(h) && h.status == SUCCESS && h.count != 1
    ensures Decoded(data, lossy).Success? <==> exists fs, end :: Listed(data, h, fs, end)
    ensures forall fs, end :: Listed(data, h, fs, end) ==>
      Decoded(data, lossy) == Success(Print(ListResult("properties", Strs(Ids(fs, lossy)))))
  {
    hide Print, Ids, ListResult;
    var w := ReadFields(data, h.fields, h.count);
    if w.Walked? && AllOk(w.fields) {
      ReadFieldsIffEncoded(data, h.fields, w.fields, w.end);
      assert Listed(data, h, w.fields, w.end);
    }
    forall fs, end | Listed(data, h, fs, end)
      ensures w == Walked(fs, end)
    {
      ReadFieldsIffEncoded(data, h.fields, fs, end);
    }
  }

  predicate Listed(data: Bytes, h: Head, fs: seq<Field>, end: nat) {
    && |fs| == h.count && Fits(fs) && (forall i :: 0 <= i < |fs| ==> fs[i].id == i + 1 && fs[i].typ == 0x01)
    && h.fields <= end <= |data| && data[h.fields..end] == EncodeFields(fs)
  }

  // ---- What a client reads ----

  lemma {:induction false} IdAt(fs: seq<Field>, lossy: Bytes -> string, i: nat)
    requires i < |fs|
    ensures |Ids(fs, lossy)| == |fs| && Ids(fs, lossy)[i] == PropertyIdString(fs[i].data, lossy)
    decreases |fs|
  {
    hide PropertyIdString;
    var front := fs[..|fs| - 1];
    if |fs| > 1 {
      IdAt(front, lossy, if i < |front| then i else 0);
    } else {
      NoIds(lossy);
      assert front == [];
    }
  }

  /** A list is shown with one id per field, in wire order, under "properties". */
  lemma AnswerShowsIds(data: Bytes, h: Head, fs: seq<Field>, end: nat, lossy: Bytes -> string) returns (tree: Json)
    requires ParseHead(data) == Some(h) && h.status == SUCCESS && h.count != 1 && Listed(data, h, fs, end)
    ensures Decoded(data, lossy) == Success(Print(tree))
    ensures ShowsTexts(tree, "properties",
              seq(|fs|, i requires 0 <= i < |fs| => PropertyIdString(fs[i].data, lossy)))
    ensures ReadText(Print(tree)) == Some(tree)
       <==> forall i :: 0 <= i < |fs| ==> AllUnescaped(PropertyIdString(fs[i].data, lossy))
  {
    hide Print, ReadText, ListResult, ParseHead, ReadFields, PropertyIdString, Ids, ShowsTexts, AllUnescaped;
    var ids := Ids(fs, lossy);
    SuccessIffEncoded(data, h, lossy);
    tree := ListResult("properties", Strs(ids));
    TextListShows("properties", ids);
    KeyPlain();
    TextsReadBackIffPlain("properties", ids);
    NoIds(lossy);
    assert |ids| == |fs| by {
      if fs != [] {
        IdAt(fs, lossy, 0);
      }
    }
    forall i | 0 <= i < |fs|
      ensures ids[i] == PropertyIdString(fs[i].data, lossy)
    {
      IdAt(fs, lossy, i);
    }
    assert ids == seq(|fs|, i requires 0 <= i < |fs| => PropertyIdString(fs[i].data, lossy));
  }

  lemma KeyPlain()
    ensures AllUnescaped("properties")
  {
  }

  /** SUCCESS with one field is a 400 answer if and only if that field is there. */
  lemma SingleFieldIsError(data: Bytes, h: Head, lossy: Bytes -> string)
    requires ParseHead(data) == Some(h) && h.status == SUCCESS && h.count == 1
    ensures Decoded(data, lossy).BadRequest? || Decoded(data, lossy).Invalid?
    ensures Decoded(data, lossy).BadRequest? <==> exists f, end :: Listed(data, h, [f], end)
  {
    hide Print, FieldAt;
    var w := ReadFields(data, h.fields, 1);
    if w.Walked? && AllOk(w.fields) {
      ReadFieldsIffEncoded(data, h.fields, w.fields, w.end);
      assert w.fields == [w.fields[0]];
      assert Listed(data, h, [w.fields[0]], w.end);
    }
    if f, end :| Listed(data, h, [f], end) {
      ReadFieldsIffEncoded(data, h.fields, [f], end);
      assert [f][0].id == 1 && [f][0].typ == 0x01;
    }
  }

  lemma ErrorShows(data: Bytes, h: Head, f: Field, end: nat, lossy: Bytes -> string) returns (tree: Json)
    requires ParseHead(data) == Some(h) && h.status == SUCCESS && h.count == 1 && Listed(data, h, [f], end)
    ensures Decoded(data, lossy) == BadRequest(Print(tree))
    ensures Get(tree, "status") == Some(Str("error"))
    ensures Get(tree, "message") == Some(Str(if f.data == [] then "UNKNOWN_ERROR" else Chars(f.data)))
    ensures ReadText(Print(tree)) == Some(tree) <==> AllUnescaped(Chars(f.data))
  {
    hide Print, FieldAt, Get, Chars, ReadText;
    ReadFieldsIffEncoded(data, h.fields, [f], end);
    assert [f][0].id == 1 && [f][0].typ == 0x01;
    var message := if f.data == [] then "UNKNOWN_ERROR" else Chars(f.data);
    tree := ErrorJson(f.data);
    GetTwo("status", Str("error"), "message", Str(message));
    PlainError();
    PlainObject2("status", Str("error"), "message", Str(message));
    ReadsBackIffPlain(tree);
  }

  lemma PlainError()
    ensures AllUnescaped("status") && AllUnescaped("error") && AllUnescaped("message") && AllUnescaped("UNKNOWN_ERROR")
    ensures AllUnescaped(Chars([]))
  {
  }

  /** Without a head the answer is the fixed error; another status is passed on. */
  lemma OtherAnswers(data: Bytes, lossy: Bytes -> string)
    ensures ParseHead(data).None? ==> Decoded(data, lossy) == Invalid
    ensures ParseHead(data).Some? && Chars(ParseHead(data).value.status) != "SUCCESS" ==>
              Decoded(data, lossy) == NonSuccess(ParseHead(data).value)
  {
    hide ParseHead;
    SuccessText();
  }
}
