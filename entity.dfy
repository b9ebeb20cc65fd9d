/**
 * The domain entities: the incoming request and the structured response,
 * with the two validators the orchestrator relies on.
 */
module Entity {
  import opened Wrappers
  import Strings

  /** A decoded JSON value, as encoding/json produces it for an `interface{}` target. */
  datatype JsonValue =
    | JNull
    | JBool(b: bool)
    | JNumber(n: real)
    | JString(s: string)
    | JArray(items: seq<JsonValue>)
    | JObject(fields: map<string, JsonValue>)

  /** A Go `map[string]interface{}`, which may be nil. */
  datatype Data = Nil | Fields(fields: map<string, JsonValue>)

  /** The number of keys of the map; a nil map has none, as `len` says in Go. */
  function Len(d: Data): nat {
    match d
    case Nil => 0
    case Fields(m) => |m|
  }

  /** The incoming request with the raw unstructured text. */
  datatype StructureRequest = StructureRequest(rawText: string)

  /** The inferred JSON object returned to the caller. */
  datatype StructureResponse = StructureResponse(data: Data)

  /** The errors the validators return. */
  datatype ValidationError =
    | RawTextRequired   // "raw_text is required"
    | EmptyStructure    // "LLM returned empty or invalid JSON structure"

  /** StructureRequest.Validate: rejects exactly the empty raw text, with no trimming. */
  function ValidateRequest(req: StructureRequest): (o: Outcome<ValidationError>)
    ensures o.Fail? <==> req.rawText == []
    ensures o.Fail? ==> o.error == RawTextRequired
  {
    if req.rawText == "" then Fail(RawTextRequired) else Pass
  }

  /** StructureResponse.Validate: rejects exactly a nil map or a map with no key. */
  function ValidateResponse(resp: StructureResponse): (o: Outcome<ValidationError>)
    ensures o.Fail? <==> Len(resp.data) == 0
    ensures o.Pass? <==> exists k :: resp.data.Fields? && k in resp.data.fields
    ensures o.Fail? ==> o.error == EmptyStructure
  {
    if resp.data.Nil? || |resp.data.fields| == 0 then Fail(EmptyStructure)
    else
      assert exists k :: k in resp.data.fields by {
        var k :| k in resp.data.fields;
      }
      Pass
  }

  /** Text made only of whitespace is accepted: the request validator does not trim. */
  lemma WhitespaceOnlyAccepted(text: string)
    requires text != []
    requires forall i :: 0 <= i < |text| ==> Strings.IsSpace(text[i])
    ensures ValidateRequest(StructureRequest(text)) == Pass
    ensures Strings.TrimSpace(text) == []
  {
  }

  /** A nil map and an empty map are rejected alike, with the same error. */
  lemma NilAndEmptyAlike()
    ensures ValidateResponse(StructureResponse(Nil)) == ValidateResponse(StructureResponse(Fields(map[])))
    ensures ValidateResponse(StructureResponse(Nil)) == Fail(EmptyStructure)
  {
  }
}
