/** What a response decoder hands back to the HTTP layer. */
module Response {
  import opened Bytes
  import opened Tlv
  import opened Json

  datatype Response =
    | Success(json: string)    // 200 with a JSON body
    | BadRequest(json: string) // 400 with a JSON body
    | Invalid                  // the fixed INVALID_RESPONSE_FORMAT body, 500
    | NonSuccess(head: Head)   // a status other than SUCCESS, passed on to the error mapping

  /** The successful answer of every list command: a status and one array. */
  function ListResult(key: string, items: seq<Json>): Json {
    Obj([Member("status", Str("success")), Member(key, Arr(items))])
  }

  /** What the decoders write before the elements. */
  function ListOpening(key: string): string {
    "{" + (Quoted("status") + ":" + Quoted("success")) + ("," + Quoted(key) + ":") + "["
  }

  /** The opening that both search commands write. */
  const PROPERTIES_OPENING := "{\"status\":\"success\",\"properties\":["

  lemma PropertiesOpening()
    ensures PROPERTIES_OPENING == ListOpening("properties")
  {
  }

  lemma ListText(key: string, items: seq<Json>)
    ensures ListOpening(key) + PrintItems(items) + "]}" == Print(ListResult(key, items))
    ensures items == [] ==> ListOpening(key) + "]}" == Print(ListResult(key, items))
  {
    hide Quoted;
    var m1, m2 := Member("status", Str("success")), Member(key, Arr(items));
    PushMember([], m1, Quoted("status") + ":");
    PushMember([m1], m2, "," + Quoted(key) + ":");
    assert [] + [m1] == [m1] && [m1] + [m2] == [m1, m2];
    assert "{" + (Quoted("status") + ":" + Quoted("success")) == Open([m1]);
    CloseBoth("", Open([m1]), "," + Quoted(key) + ":", PrintItems(items));
  }

  lemma ListPlain(key: string, items: seq<Json>)
    requires AllUnescaped(key)
    ensures Plain(ListResult(key, items)) <==> forall i :: 0 <= i < |items| ==> Plain(items[i])
  {
    assert AllUnescaped("status") && AllUnescaped("success");
    PlainObject2("status", Str("success"), key, Arr(items));
  }

  /** An answer that lists texts reads back to the same texts exactly if none of them needs escaping. */
  lemma TextsReadBackIffPlain(key: string, texts: seq<string>)
    requires AllUnescaped(key)
    ensures ReadText(Print(ListResult(key, Strs(texts)))) == Some(ListResult(key, Strs(texts)))
       <==> forall i :: 0 <= i < |texts| ==> AllUnescaped(texts[i])
  {
    hide Print, ListResult, AllUnescaped, ReadText;
    ListPlain(key, Strs(texts));
    ReadsBackIffPlain(ListResult(key, Strs(texts)));
    assert forall i :: 0 <= i < |texts| ==> Strs(texts)[i] == Str(texts[i]);
    assert forall i :: 0 <= i < |texts| ==> (Plain(Strs(texts)[i]) <==> AllUnescaped(texts[i]));
  }

  /** A list answer shows success under "status" and its elements under its key. */
  lemma ListResultShows(key: string, items: seq<Json>)
    requires key != "status"
    ensures Get(ListResult(key, items), "status") == Some(Str("success"))
    ensures Get(ListResult(key, items), key) == Some(Arr(items))
  {
    GetTwo("status", Str("success"), key, Arr(items));
  }

  /** A client finds success and, under `key`, these texts in this order. */
  ghost predicate ShowsTexts(j: Json, key: string, texts: seq<string>) {
    && Get(j, "status") == Some(Str("success"))
    && Get(j, key).Some? && Get(j, key).value.Arr? && |Get(j, key).value.items| == |texts|
    && forall i :: 0 <= i < |texts| ==> Get(j, key).value.items[i] == Str(texts[i])
  }

  lemma TextListShows(key: string, texts: seq<string>)
    requires key != "status"
    ensures ShowsTexts(ListResult(key, Strs(texts)), key, texts)
  {
    hide Get;
    ListResultShows(key, Strs(texts));
  }
}
