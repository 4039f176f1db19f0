/** The client's response-decoding helpers (app/services/http-utils.ts). JSON
    parsing itself is the runtime's `JSON.parse`; it enters the model as a
    function `parse` from text to an outcome. */
module HttpUtils {
  import opened Text
  import opened Wrappers

  /** A JSON value as `JSON.parse` produces it. Numbers are kept abstract. */
  datatype Json =
    | JNull
    | JBool(b: bool)
    | JNumber(n: real)
    | JString(s: string)
    | JArray(items: seq<Json>)
    | JObject(fields: map<string, Json>)

  /** `Record<string, unknown> | null`: None stands for null. */
  type JsonRecord = Option<map<string, Json>>

  /** What `JSON.parse(text)` did: threw, or returned a value. */
  datatype ParseOutcome = Throws | Parsed(value: Json)

  /** The pair `{ json, text }` that `parseJsonSafe` resolves to. */
  datatype SafeJson = SafeJson(json: JsonRecord, text: string)

  const UnexpectedReply: string := "Resposta inesperada do servidor."

  /** `parseJsonSafe` applied to the body text that `response.text()` returned.
      The record is present only when the body parses to a JSON object (not an
      array, not a primitive, not null); the text always comes back as read. */
  function ParseJsonSafe(text: string, parse: string -> ParseOutcome): (r: SafeJson)
    ensures r.text == text
    ensures text == "" ==> r.json == None
    ensures r.json.Some? <==> text != "" && parse(text).Parsed? && parse(text).value.JObject?
    ensures r.json.Some? ==> parse(text) == Parsed(JObject(r.json.value))
  {
    if text == "" then SafeJson(None, "")
    else match parse(text)
      case Throws => SafeJson(None, text)
      case Parsed(v) =>
        if v.JObject? then SafeJson(Some(v.fields), text) else SafeJson(None, text)
  }

  /** `json.message` when it is a string. */
  function MessageField(json: JsonRecord): Option<string> {
    if json.Some? && "message" in json.value && json.value["message"].JString?
    then Some(json.value["message"].s)
    else None
  }

  lemma UnexpectedReplyIsTrimmed()
    ensures UnexpectedReply != [] && Trim(UnexpectedReply) == UnexpectedReply
  {
    assert UnexpectedReply[0] == 'R' && UnexpectedReply[|UnexpectedReply| - 1] == '.';
    TrimOfTrimmed(UnexpectedReply);
  }

  /** `extractMessage`: the server's own message, trimmed, when it has one; else
      the caller's fallback, trimmed; else a fixed text. */
  function ExtractMessage(json: JsonRecord, fallback: string): (r: string)
    ensures r != ""
    ensures Trim(r) == r
    ensures MessageField(json).Some? && Trim(MessageField(json).value) != "" ==>
      r == Trim(MessageField(json).value)
    ensures (MessageField(json).None? || Trim(MessageField(json).value) == "") ==>
      r == if Trim(fallback) != "" then Trim(fallback) else UnexpectedReply
  {
    var message := MessageField(json);
    if message.Some? && Trim(message.value) != "" then
      TrimIdempotent(message.value);
      Trim(message.value)
    else if Trim(fallback) != "" then
      TrimIdempotent(fallback);
      Trim(fallback)
    else
      UnexpectedReplyIsTrimmed();
      UnexpectedReply
  }

  /** The message is taken from the server only when it is a string that is not
      blank; a number, an array or a blank string falls through to the fallback. */
  lemma NonStringMessageFallsBack(fields: map<string, Json>, fallback: string)
    requires "message" in fields && !fields["message"].JString?
    ensures ExtractMessage(Some(fields), fallback) == ExtractMessage(None, fallback)
  {
  }
}
