/** GETCODECS responses: one field with the comma-separated rate feature names. */
module GetCodecs {
  import opened Bytes
  import opened Tlv
  import opened Features

  const CODECS_TYPE: u8 := 0x09

  /** The announced names, if the payload announces any; bytes after the field are not looked at. */
  function Announced(data: Bytes, utf8: Bytes -> Option<string>): Option<seq<string>> {
    match ParseHead(data)
    case None => None
    case Some(h) =>
      if h.status != SUCCESS || h.count != 1 then None
      else match FieldAt(data, h.fields)
        case None => None
        case Some(f) =>
          if f.id != 1 || f.typ != CODECS_TYPE || utf8(f.data).None? then None
          else Some(NameList(utf8(f.data).value))
  }

  /** `decode_get_codecs_response`; `utf8` stands for `str::from_utf8`, and every error is `None`. */
  method Decode(data: Bytes, utf8: Bytes -> Option<string>) returns (names: Option<seq<string>>)
    ensures names == Announced(data, utf8)
  {
    hide NameList, FieldAt, U32At;
    if |data| == 0 {
      return None;
    }
    var statusLen := data[0] as int;
    if |data| < 1 + statusLen + 2 {
      return None;
    }
    var status := data[1..1 + statusLen];
    var fieldCount := U16At(data, 1 + statusLen);
    var offset := 1 + statusLen + 2;
    if status != SUCCESS {
      return None;
    }
    if fieldCount != 1 {
      return None;
    }
    if offset + 7 > |data| {
      TooShort(data, offset);
      return None;
    }
    FieldAtIs(data, offset);
    var fieldId := U16At(data, offset);
    var fieldType := data[offset + 2];
    if fieldId != 1 {
      return None;
    }
    var fieldLen := U32At(data, offset + 3);
    offset := offset + 7;
    if offset + fieldLen > |data| {
      return None;
    }
    var fieldData := data[offset..offset + fieldLen];
    if fieldType == 0x01 {
      return None;
    }
    if fieldType != CODECS_TYPE {
      return None;
    }
    var raw := utf8(fieldData);
    if raw.None? {
      return None;
    }
    names := Some(NameList(raw.value));
  }

  /**
   What a server has to send, and all it has to send, for the names to arrive unchanged: the header, one
   field of type 0x09 whose text is their comma-joined form, and anything after it.
   */
  lemma AnnouncementArrives(names: seq<string>, text: Bytes, tail: Bytes, utf8: Bytes -> Option<string>)
    requires |text| < U32_SIZE && utf8(text) == Some(Join(names))
    ensures var data := EncodeHead(SUCCESS, 1) + (EncodeField(Field(1, 0x09, text)) + tail);
            Announced(data, utf8) == Some(names) <==> GoodNames(names)
  {
    hide NameList, Join, EncodeField, EncodeHead, FieldAt;
    var f := Field(1, CODECS_TYPE, text);
    var body := EncodeField(f) + tail;
    var data := EncodeHead(SUCCESS, 1) + body;
    ParseHeadOfEncoded(SUCCESS, 1, body);
    assert data[10..] == body;
    assert data[10..10 + 7 + |text|] == body[..7 + |text|] == EncodeField(f);
    FieldAtReads(f, data, 10);
    NameListInvertsJoinIffGood(names);
  }

  /** The field area starts with the encoding of the one announcing field; anything may follow. */
  predicate Announces(data: Bytes, h: Head, f: Field) {
    && f.id == 1 && f.typ == 0x09 && |f.data| < U32_SIZE
    && h.fields + 7 + |f.data| <= |data| && data[h.fields..h.fields + 7 + |f.data|] == EncodeField(f)
  }

  /** Exactly which payloads announce names, and which names those are. */
  lemma AnnouncedIffEncoded(data: Bytes, utf8: Bytes -> Option<string>, names: seq<string>)
    ensures Announced(data, utf8) == Some(names)
       <==> && ParseHead(data).Some? && ParseHead(data).value.status == SUCCESS && ParseHead(data).value.count == 1
            && exists f :: Announces(data, ParseHead(data).value, f) && utf8(f.data).Some?
                           && NameList(utf8(f.data).value) == names
  {
    hide ParseHead, FieldAt, EncodeField, NameList;
    if ParseHead(data).Some? {
      var h := ParseHead(data).value;
      if FieldAt(data, h.fields).Some? {
        FieldAtEncodes(data, h.fields);
        if Announced(data, utf8) == Some(names) {
          assert Announces(data, h, FieldAt(data, h.fields).value);
        }
      }
      if f :| Announces(data, h, f) && utf8(f.data).Some? && NameList(utf8(f.data).value) == names {
        FieldAtReads(f, data, h.fields);
      }
    }
  }
}
