/** The three requests with optional fields, from typed query to payload and back. */
module Commands {
  import opened Bytes
  import opened Tlv
  import opened Requests

  const SEARCHAVAIL: Bytes := [0x53, 0x45, 0x41, 0x52, 0x43, 0x48, 0x41, 0x56, 0x41, 0x49, 0x4C]
  const SEARCHPROP: Bytes := [0x53, 0x45, 0x41, 0x52, 0x43, 0x48, 0x50, 0x52, 0x4F, 0x50]
  const SETROOMPKG: Bytes := [0x53, 0x45, 0x54, 0x52, 0x4F, 0x4F, 0x4D, 0x50, 0x4B, 0x47]

  lemma CommandNames()
    ensures Chars(SEARCHAVAIL) == "SEARCHAVAIL" && Chars(SEARCHPROP) == "SEARCHPROP"
    ensures Chars(SETROOMPKG) == "SETROOMPKG"
  {
  }

  // ---- SEARCHAVAIL ----

  datatype SearchAvailQuery = SearchAvailQuery(
    segment: Bytes, roomType: Bytes, area: Option<Bytes>, propertyId: Option<Bytes>, propertyType: Option<Bytes>,
    stars: Option<u8>, category: Option<Bytes>, amenities: Option<Bytes>, longitude: Option<Double>,
    latitude: Option<Double>, date: Option<Bytes>, availability: Option<u8>, finalPrice: Option<u32>,
    rateFeature: Option<Bytes>, limit: Option<u64>)

  function SearchAvailRows(q: SearchAvailQuery): seq<Row> {
    [Row(0x01, 0x01, Some(q.segment)), Row(0x02, 0x01, Some(q.roomType)), Row(0x03, 0x01, q.area),
     Row(0x04, 0x01, q.propertyId), Row(0x05, 0x01, q.propertyType), Row(0x06, 0x02, Byte(q.stars)),
     Row(0x07, 0x01, q.category), Row(0x08, 0x01, q.amenities), Row(0x09, 0x03, Raw(q.longitude)),
     Row(0x0A, 0x03, Raw(q.latitude)), Row(0x0B, 0x01, q.date), Row(0x0C, 0x02, Byte(q.availability)),
     Row(0x0D, 0x03, Word(q.finalPrice)), Row(0x0E, 0x01, q.rateFeature), Row(0x0F, 0x03, Long(q.limit))]
  }

  /** Reading a query out of fields by id: texts have type 0x01, single bytes 0x02, and longer numbers 0x03. */
  function SearchAvailOf(fs: seq<Field>): Option<SearchAvailQuery> {
    match (Lookup(fs, 0x01, 0x01), Lookup(fs, 0x02, 0x01))
    case (Some(segment), Some(roomType)) =>
      Some(SearchAvailQuery(
        segment, roomType, Lookup(fs, 0x03, 0x01), Lookup(fs, 0x04, 0x01), Lookup(fs, 0x05, 0x01),
        ReadByte(Lookup(fs, 0x06, 0x02)), Lookup(fs, 0x07, 0x01), Lookup(fs, 0x08, 0x01),
        ReadDouble(Lookup(fs, 0x09, 0x03)), ReadDouble(Lookup(fs, 0x0A, 0x03)), Lookup(fs, 0x0B, 0x01),
        ReadByte(Lookup(fs, 0x0C, 0x02)), ReadWord(Lookup(fs, 0x0D, 0x03)), Lookup(fs, 0x0E, 0x01),
        ReadLong(Lookup(fs, 0x0F, 0x03))))
    case _ => None
  }

  method BuildSearchAvail(q: SearchAvailQuery) returns (payload: Bytes)
    ensures payload == EncodeRequest(SEARCHAVAIL, FieldsOf(SearchAvailRows(q)))
  {
    hide FieldsOf, EncodeRequest, Byte, Word, Long, Raw, RequestBuffer.Holds;
    ghost var rows := SearchAvailRows(q);
    var b := new RequestBuffer(SEARCHAVAIL);
    assert rows[..0] == [];
    b.AddRow(0x01, 0x01, Some(q.segment), SEARCHAVAIL, rows, 0);
    b.AddRow(0x02, 0x01, Some(q.roomType), SEARCHAVAIL, rows, 1);
    b.AddRow(0x03, 0x01, q.area, SEARCHAVAIL, rows, 2);
    b.AddRow(0x04, 0x01, q.propertyId, SEARCHAVAIL, rows, 3);
    b.AddRow(0x05, 0x01, q.propertyType, SEARCHAVAIL, rows, 4);
    b.AddRow(0x06, 0x02, Byte(q.stars), SEARCHAVAIL, rows, 5);
    b.AddRow(0x07, 0x01, q.category, SEARCHAVAIL, rows, 6);
    b.AddRow(0x08, 0x01, q.amenities, SEARCHAVAIL, rows, 7);
    b.AddRow(0x09, 0x03, Raw(q.longitude), SEARCHAVAIL, rows, 8);
    b.AddRow(0x0A, 0x03, Raw(q.latitude), SEARCHAVAIL, rows, 9);
    b.AddRow(0x0B, 0x01, q.date, SEARCHAVAIL, rows, 10);
    b.AddRow(0x0C, 0x02, Byte(q.availability), SEARCHAVAIL, rows, 11);
    b.AddRow(0x0D, 0x03, Word(q.finalPrice), SEARCHAVAIL, rows, 12);
    b.AddRow(0x0E, 0x01, q.rateFeature, SEARCHAVAIL, rows, 13);
    b.AddRow(0x0F, 0x03, Long(q.limit), SEARCHAVAIL, rows, 14);
    assert rows[..|rows|] == rows;
    b.PatchFieldCount(SEARCHAVAIL, rows);
    payload := b.buf;
  }

  /** The fields of the payload: ascending ids, the type of each, and what stands under it. */
  lemma SearchAvailFields(q: SearchAvailQuery)
    ensures var fs := FieldsOf(SearchAvailRows(q));
            && IdsIncrease(fs) && |fs| <= 15
            && (forall f :: f in fs ==>
                  && 1 <= f.id <= 15
                  && f.typ == (if f.id in {0x06, 0x0C} then 0x02
                               else if f.id in {0x09, 0x0A, 0x0D, 0x0F} then 0x03
                               else 0x01))
            && Lookup(fs, 0x01, 0x01) == Some(q.segment) && Lookup(fs, 0x02, 0x01) == Some(q.roomType)
            && Lookup(fs, 0x03, 0x01) == q.area && Lookup(fs, 0x04, 0x01) == q.propertyId
            && Lookup(fs, 0x05, 0x01) == q.propertyType
            && Lookup(fs, 0x06, 0x02) == (if q.stars.None? then None else Some([q.stars.value]))
            && Lookup(fs, 0x07, 0x01) == q.category && Lookup(fs, 0x08, 0x01) == q.amenities
            && Lookup(fs, 0x09, 0x03) == (if q.longitude.None? then None else Some(q.longitude.value))
            && Lookup(fs, 0x0A, 0x03) == (if q.latitude.None? then None else Some(q.latitude.value))
            && Lookup(fs, 0x0B, 0x01) == q.date
            && Lookup(fs, 0x0C, 0x02) == (if q.availability.None? then None else Some([q.availability.value]))
            && Lookup(fs, 0x0D, 0x03) == (if q.finalPrice.None? then None else Some(Le32(q.finalPrice.value)))
            && Lookup(fs, 0x0E, 0x01) == q.rateFeature
            && Lookup(fs, 0x0F, 0x03) == (if q.limit.None? then None else Some(Le64(q.limit.value)))
  {
    hide FieldsOf, Lookup, Le32, Le64;
    var rows := SearchAvailRows(q);
    NumberedRowsEncodeWell(rows);
    assert rows[0].id == 0x01 && rows[1].id == 0x02 && rows[2].id == 0x03 && rows[3].id == 0x04;
    assert rows[4].id == 0x05 && rows[5].id == 0x06 && rows[6].id == 0x07 && rows[7].id == 0x08;
    assert rows[8].id == 0x09 && rows[9].id == 0x0A && rows[10].id == 0x0B && rows[11].id == 0x0C;
    assert rows[12].id == 0x0D && rows[13].id == 0x0E && rows[14].id == 0x0F;
  }

  lemma SearchAvailRecovered(q: SearchAvailQuery)
    ensures SearchAvailOf(FieldsOf(SearchAvailRows(q))) == Some(q) && |FieldsOf(SearchAvailRows(q))| <= 15
  {
    hide FieldsOf, Lookup, Le32, Le64, ReadByte, ReadWord, ReadLong, ReadDouble;
    SearchAvailFields(q);
    ReadsNumbers(q.stars, q.finalPrice, q.limit, q.longitude);
    ReadsNumbers(q.availability, None, None, q.latitude);
  }

  /** The payload reads back to exactly the fields of the query unless a text is too long for its length word. */
  lemma SearchAvailRoundTrip(q: SearchAvailQuery)
    ensures var fs := FieldsOf(SearchAvailRows(q));
            ReadRequest(EncodeRequest(SEARCHAVAIL, fs)) == Some((SEARCHAVAIL, fs)) <==> Fits(fs)
    ensures Fits(FieldsOf(SearchAvailRows(q))) ==>
      SearchAvailOf(ReadRequest(EncodeRequest(SEARCHAVAIL, FieldsOf(SearchAvailRows(q)))).value.1) == Some(q)
  {
    SearchAvailRecovered(q);
    RequestInvertibleIffFits(SEARCHAVAIL, FieldsOf(SearchAvailRows(q)));
  }

  // ---- SEARCHPROP ----

  /** `amenities` is the comma-joined list, absent when the list is empty. */
  datatype SearchPropQuery = SearchPropQuery(
    segment: Bytes, area: Option<Bytes>, propertyType: Option<Bytes>, stars: Option<u8>, category: Option<Bytes>,
    amenities: Option<Bytes>, longitude: Option<Double>, latitude: Option<Double>, limit: Option<u64>)

  function SearchPropRows(q: SearchPropQuery): seq<Row> {
    [Row(0x01, 0x01, Some(q.segment)), Row(0x02, 0x01, q.area), Row(0x03, 0x01, q.propertyType),
     Row(0x04, 0x02, Byte(q.stars)), Row(0x05, 0x01, q.category), Row(0x06, 0x01, q.amenities),
     Row(0x07, 0x03, Raw(q.longitude)), Row(0x08, 0x03, Raw(q.latitude)), Row(0x09, 0x03, Long(q.limit))]
  }

  function SearchPropOf(fs: seq<Field>): Option<SearchPropQuery> {
    match Lookup(fs, 0x01, 0x01)
    case None => None
    case Some(segment) =>
      Some(SearchPropQuery(
        segment, Lookup(fs, 0x02, 0x01), Lookup(fs, 0x03, 0x01), ReadByte(Lookup(fs, 0x04, 0x02)),
        Lookup(fs, 0x05, 0x01), Lookup(fs, 0x06, 0x01), ReadDouble(Lookup(fs, 0x07, 0x03)),
        ReadDouble(Lookup(fs, 0x08, 0x03)), ReadLong(Lookup(fs, 0x09, 0x03))))
  }

  method BuildSearchProp(q: SearchPropQuery) returns (payload: Bytes)
    ensures payload == EncodeRequest(SEARCHPROP, FieldsOf(SearchPropRows(q)))
  {
    hide FieldsOf, EncodeRequest, Byte, Word, Long, Raw, RequestBuffer.Holds;
    ghost var rows := SearchPropRows(q);
    var b := new RequestBuffer(SEARCHPROP);
    assert rows[..0] == [];
    b.AddRow(0x01, 0x01, Some(q.segment), SEARCHPROP, rows, 0);
    b.AddRow(0x02, 0x01, q.area, SEARCHPROP, rows, 1);
    b.AddRow(0x03, 0x01, q.propertyType, SEARCHPROP, rows, 2);
    b.AddRow(0x04, 0x02, Byte(q.stars), SEARCHPROP, rows, 3);
    b.AddRow(0x05, 0x01, q.category, SEARCHPROP, rows, 4);
    b.AddRow(0x06, 0x01, q.amenities, SEARCHPROP, rows, 5);
    b.AddRow(0x07, 0x03, Raw(q.longitude), SEARCHPROP, rows, 6);
    b.AddRow(0x08, 0x03, Raw(q.latitude), SEARCHPROP, rows, 7);
    b.AddRow(0x09, 0x03, Long(q.limit), SEARCHPROP, rows, 8);
    assert rows[..|rows|] == rows;
    b.PatchFieldCount(SEARCHPROP, rows);
    payload := b.buf;
  }

  /** The fields of the payload: ascending ids, the type of each, and what stands under it. */
  lemma SearchPropFields(q: SearchPropQuery)
    ensures var fs := FieldsOf(SearchPropRows(q));
            && IdsIncrease(fs) && |fs| <= 9
            && (forall f :: f in fs ==>
                  && 1 <= f.id <= 9
                  && f.typ == (if f.id in {0x04} then 0x02 else if f.id in {0x07, 0x08, 0x09} then 0x03 else 0x01))
            && Lookup(fs, 0x01, 0x01) == Some(q.segment) && Lookup(fs, 0x02, 0x01) == q.area
            && Lookup(fs, 0x03, 0x01) == q.propertyType
            && Lookup(fs, 0x04, 0x02) == (if q.stars.None? then None else Some([q.stars.value]))
            && Lookup(fs, 0x05, 0x01) == q.category && Lookup(fs, 0x06, 0x01) == q.amenities
            && Lookup(fs, 0x07, 0x03) == (if q.longitude.None? then None else Some(q.longitude.value))
            && Lookup(fs, 0x08, 0x03) == (if q.latitude.None? then None else Some(q.latitude.value))
            && Lookup(fs, 0x09, 0x03) == (if q.limit.None? then None else Some(Le64(q.limit.value)))
  {
    hide FieldsOf, Lookup, Le32, Le64;
    var rows := SearchPropRows(q);
    NumberedRowsEncodeWell(rows);
    assert rows[0].id == 0x01 && rows[1].id == 0x02 && rows[2].id == 0x03 && rows[3].id == 0x04;
    assert rows[4].id == 0x05 && rows[5].id == 0x06 && rows[6].id == 0x07 && rows[7].id == 0x08;
    assert rows[8].id == 0x09;
  }

  lemma SearchPropRecovered(q: SearchPropQuery)
    ensures SearchPropOf(FieldsOf(SearchPropRows(q))) == Some(q) && |FieldsOf(SearchPropRows(q))| <= 9
  {
    hide FieldsOf, Lookup, Le32, Le64, ReadByte, ReadWord, ReadLong, ReadDouble;
    SearchPropFields(q);
    ReadsNumbers(q.stars, None, q.limit, q.longitude);
    ReadsNumbers(None, None, None, q.latitude);
  }

  lemma SearchPropRoundTrip(q: SearchPropQuery)
    ensures var fs := FieldsOf(SearchPropRows(q));
            ReadRequest(EncodeRequest(SEARCHPROP, fs)) == Some((SEARCHPROP, fs)) <==> Fits(fs)
    ensures Fits(FieldsOf(SearchPropRows(q))) ==>
      SearchPropOf(ReadRequest(EncodeRequest(SEARCHPROP, FieldsOf(SearchPropRows(q)))).value.1) == Some(q)
  {
    SearchPropRecovered(q);
    RequestInvertibleIffFits(SEARCHPROP, FieldsOf(SearchPropRows(q)));
  }

  // ---- SETROOMPKG ----

  datatype SetRoomPkgQuery = SetRoomPkgQuery(
    propertyId: Bytes, roomType: Bytes, date: Bytes,
    availability: Option<u8>, finalPrice: Option<u32>, rateFeature: Option<Bytes>)

  function SetRoomPkgRows(q: SetRoomPkgQuery): seq<Row> {
    [Row(0x01, 0x01, Some(q.propertyId)), Row(0x02, 0x01, Some(q.roomType)), Row(0x03, 0x01, Some(q.date)),
     Row(0x04, 0x02, Byte(q.availability)), Row(0x05, 0x03, Word(q.finalPrice)), Row(0x06, 0x01, q.rateFeature)]
  }

  function SetRoomPkgOf(fs: seq<Field>): Option<SetRoomPkgQuery> {
    match (Lookup(fs, 0x01, 0x01), Lookup(fs, 0x02, 0x01), Lookup(fs, 0x03, 0x01))
    case (Some(propertyId), Some(roomType), Some(date)) =>
      Some(SetRoomPkgQuery(
        propertyId, roomType, date, ReadByte(Lookup(fs, 0x04, 0x02)), ReadWord(Lookup(fs, 0x05, 0x03)),
        Lookup(fs, 0x06, 0x01)))
    case _ => None
  }

  method BuildSetRoomPkg(q: SetRoomPkgQuery) returns (payload: Bytes)
    ensures payload == EncodeRequest(SETROOMPKG, FieldsOf(SetRoomPkgRows(q)))
  {
    hide FieldsOf, EncodeRequest, Byte, Word, Long, Raw, RequestBuffer.Holds;
    ghost var rows := SetRoomPkgRows(q);
    var b := new RequestBuffer(SETROOMPKG);
    assert rows[..0] == [];
    b.AddRow(0x01, 0x01, Some(q.propertyId), SETROOMPKG, rows, 0);
    b.AddRow(0x02, 0x01, Some(q.roomType), SETROOMPKG, rows, 1);
    b.AddRow(0x03, 0x01, Some(q.date), SETROOMPKG, rows, 2);
    b.AddRow(0x04, 0x02, Byte(q.availability), SETROOMPKG, rows, 3);
    b.AddRow(0x05, 0x03, Word(q.finalPrice), SETROOMPKG, rows, 4);
    b.AddRow(0x06, 0x01, q.rateFeature, SETROOMPKG, rows, 5);
    assert rows[..|rows|] == rows;
    b.PatchFieldCount(SETROOMPKG, rows);
    payload := b.buf;
  }

  /** The fields of the payload: ascending ids, the type of each, and what stands under it. */
  lemma SetRoomPkgFields(q: SetRoomPkgQuery)
    ensures var fs := FieldsOf(SetRoomPkgRows(q));
            && IdsIncrease(fs) && |fs| <= 6
            && (forall f :: f in fs ==>
                  && 1 <= f.id <= 6
                  && f.typ == (if f.id in {0x04} then 0x02 else if f.id in {0x05} then 0x03 else 0x01))
            && Lookup(fs, 0x01, 0x01) == Some(q.propertyId) && Lookup(fs, 0x02, 0x01) == Some(q.roomType)
            && Lookup(fs, 0x03, 0x01) == Some(q.date)
            && Lookup(fs, 0x04, 0x02) == (if q.availability.None? then None else Some([q.availability.value]))
            && Lookup(fs, 0x05, 0x03) == (if q.finalPrice.None? then None else Some(Le32(q.finalPrice.value)))
            && Lookup(fs, 0x06, 0x01) == q.rateFeature
  {
    hide FieldsOf, Lookup, Le32, Le64;
    var rows := SetRoomPkgRows(q);
    NumberedRowsEncodeWell(rows);
    assert rows[0].id == 0x01 && rows[1].id == 0x02 && rows[2].id == 0x03 && rows[3].id == 0x04;
    assert rows[4].id == 0x05 && rows[5].id == 0x06;
  }

  lemma SetRoomPkgRecovered(q: SetRoomPkgQuery)
    ensures SetRoomPkgOf(FieldsOf(SetRoomPkgRows(q))) == Some(q) && |FieldsOf(SetRoomPkgRows(q))| <= 6
  {
    hide FieldsOf, Lookup, Le32, Le64, ReadByte, ReadWord, ReadLong, ReadDouble;
    SetRoomPkgFields(q);
    ReadsNumbers(q.availability, q.finalPrice, None, None);
  }

  lemma SetRoomPkgRoundTrip(q: SetRoomPkgQuery)
    ensures var fs := FieldsOf(SetRoomPkgRows(q));
            ReadRequest(EncodeRequest(SETROOMPKG, fs)) == Some((SETROOMPKG, fs)) <==> Fits(fs)
    ensures Fits(FieldsOf(SetRoomPkgRows(q))) ==>
      SetRoomPkgOf(ReadRequest(EncodeRequest(SETROOMPKG, FieldsOf(SetRoomPkgRows(q)))).value.1) == Some(q)
  {
    SetRoomPkgRecovered(q);
    RequestInvertibleIffFits(SETROOMPKG, FieldsOf(SetRoomPkgRows(q)));
  }
}
