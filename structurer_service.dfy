/**
 * The application service: builds the prompt once, then calls the LLM up to
 * MaxRetries times, returning the first reply that decodes to a non-empty
 * JSON object, or an error wrapping the last attempt's error.
 */
module StructurerService {
  import opened Wrappers
  import opened Entity
  import opened LlmPort

  /** The number of attempts made before giving up. */
  const MaxRetries: nat := 3

  /** The fixed instruction text placed before the raw text. */
  const PromptPrefix: string :=
    "You are a data extraction assistant. Analyze the following unstructured text and extract all relevant structured information from it.\n"
    + "\n"
    + "Rules:\n"
    + "1. Return ONLY a valid JSON object, nothing else \U{2014} no markdown, no explanation, no code fences.\n"
    + "2. Infer the best field names in English (snake_case).\n"
    + "3. Use appropriate types: strings, numbers, arrays, nested objects.\n"
    + "4. Dates should be in \"YYYY-MM-DD\" format when possible.\n"
    + "5. If the text describes a trip, extract fields like destination, dates, flight numbers, etc.\n"
    + "6. If it's a recipe, extract dish name, ingredients, steps, servings, etc.\n"
    + "7. If it's an event, extract title, date, location, participants, etc.\n"
    + "8. Adapt the schema to whatever content makes sense.\n"
    + "\n"
    + "Text to analyze:\n"
    + "\"\"\""

  /** The closing delimiter placed after the raw text. */
  const PromptSuffix: string := "\"\"\""

  /** The errors Structure and its helpers return. */
  datatype ServiceError =
    | Rejected(reason: ValidationError)                      // a validator's error, returned as is
    | InvalidJson                                             // "invalid JSON: %w"
    | LlmCallFailed(attempt: nat, message: string)            // "attempt %d: LLM call failed: %w"
    | ValidationFailed(attempt: nat, cause: ServiceError)     // "attempt %d: validation failed: %w"
    | AllAttemptsFailed(attempts: nat, last: Option<ServiceError>)  // "all %d attempts failed, last error: %w"

  /** json.Unmarshal into a map[string]interface{}: None for a decoding error, Some(Nil) for `null`. */
  type Decoder = string -> Option<Data>

  /** buildPrompt: the fixed prefix, the raw text verbatim, then the closing delimiter. */
  function BuildPrompt(rawText: string): (p: string)
    ensures |p| == |PromptPrefix| + |rawText| + |PromptSuffix|
    ensures p[..|PromptPrefix|] == PromptPrefix
    ensures p[|PromptPrefix|..|p| - |PromptSuffix|] == rawText
    ensures p[|p| - |PromptSuffix|..] == PromptSuffix
  {
    PromptPrefix + rawText + PromptSuffix
  }

  /** Different raw texts give different prompts. */
  lemma BuildPromptInjective(a: string, b: string)
    ensures BuildPrompt(a) == BuildPrompt(b) ==> a == b
  {
  }

  /**
   * parseAndValidate: succeeds exactly when the text decodes to a map with at
   * least one key, and then returns that map unchanged.
   */
  function ParseAndValidate(decode: Decoder, rawJson: string): (r: Result<StructureResponse, ServiceError>)
    ensures r.Success? <==> decode(rawJson).Some? && Len(decode(rawJson).value) > 0
    ensures r.Success? ==> r.value == StructureResponse(decode(rawJson).value)
    ensures decode(rawJson).None? ==> r == Failure(InvalidJson)
    ensures decode(rawJson).Some? && Len(decode(rawJson).value) == 0 ==> r == Failure(Rejected(EmptyStructure))
  {
    match decode(rawJson)
    case None => Failure(InvalidJson)
    case Some(data) =>
      var response := StructureResponse(data);
      match ValidateResponse(response)
      case Fail(e) => Failure(Rejected(e))
      case Pass => Success(response)
  }

  /** A response that parseAndValidate accepted passes StructureResponse.Validate again. */
  lemma AcceptedResponseRevalidates(decode: Decoder, rawJson: string)
    requires ParseAndValidate(decode, rawJson).Success?
    ensures ValidateResponse(ParseAndValidate(decode, rawJson).value) == Pass
  {
  }

  /** True when an LLM outcome is a reply that parseAndValidate accepts. */
  predicate Accepts(decode: Decoder, o: LlmOutcome) {
    o.Reply? && ParseAndValidate(decode, o.text).Success?
  }

  /** The result of one attempt: the accepted response, or the error recorded for it. */
  function AttemptResult(decode: Decoder, o: LlmOutcome, attempt: nat): (r: Result<StructureResponse, ServiceError>)
    ensures r.Success? <==> Accepts(decode, o)
    ensures r.Success? ==> r.value.data == decode(o.text).value
    ensures o.CallError? ==> r == Failure(LlmCallFailed(attempt, o.message))
    ensures o.Reply? && r.Failure? ==> r == Failure(ValidationFailed(attempt, ParseAndValidate(decode, o.text).error))
  {
    match o
    case CallError(message) => Failure(LlmCallFailed(attempt, message))
    case Reply(text) =>
      match ParseAndValidate(decode, text)
      case Success(response) => Success(response)
      case Failure(e) => Failure(ValidationFailed(attempt, e))
  }

  /** The outcome attempt k + 1 receives when the oracle had already answered `base` calls. */
  function AttemptOutcome(script: seq<LlmOutcome>, base: nat, k: nat): LlmOutcome {
    Scripted(script, base + k)
  }

  /** What a call to Structure returns, and how many LLM calls it makes. */
  datatype Run = Run(result: Result<StructureResponse, ServiceError>, calls: nat)

  /** The retry loop from `attempt` on, with `lastErr` the error recorded so far. */
  function RetryFrom(decode: Decoder, script: seq<LlmOutcome>, base: nat, attempt: nat, lastErr: Option<ServiceError>): (run: Run)
    requires 1 <= attempt <= MaxRetries + 1
    ensures run.calls <= MaxRetries
    ensures attempt <= MaxRetries ==> attempt <= run.calls
    ensures run.result.Success? ==>
      && 1 <= run.calls
      && ValidateResponse(run.result.value) == Pass
    ensures run.result.Failure? ==>
      && run.calls == MaxRetries
      && run.result.error.AllAttemptsFailed?
      && run.result.error.attempts == MaxRetries
      && (attempt <= MaxRetries ==> run.result.error.last.Some?)
    ensures attempt <= MaxRetries && run.result.Failure? ==>
      && AttemptResult(decode, AttemptOutcome(script, base, MaxRetries - 1), MaxRetries).Failure?
      && run.result.error.last
         == Some(AttemptResult(decode, AttemptOutcome(script, base, MaxRetries - 1), MaxRetries).error)
    decreases MaxRetries + 1 - attempt
  {
    if attempt > MaxRetries then Run(Failure(AllAttemptsFailed(MaxRetries, lastErr)), MaxRetries)
    else
      var r := AttemptResult(decode, AttemptOutcome(script, base, attempt - 1), attempt);
      if r.Success? then Run(r, attempt)
      else RetryFrom(decode, script, base, attempt + 1, Some(r.error))
  }

  /** Structure as a function of the request and the oracle's script from call `base` on. */
  function StructureSpec(decode: Decoder, script: seq<LlmOutcome>, base: nat, req: StructureRequest): (run: Run)
    ensures req.rawText == "" ==> run == Run(Failure(Rejected(RawTextRequired)), 0)
    ensures req.rawText != "" ==> 1 <= run.calls <= MaxRetries
    ensures run.result.Success? ==> ValidateResponse(run.result.value) == Pass
    ensures req.rawText != "" && run.result.Failure? ==>
      && run.calls == MaxRetries
      && run.result.error.AllAttemptsFailed?
      && AttemptResult(decode, AttemptOutcome(script, base, MaxRetries - 1), MaxRetries).Failure?
      && run.result.error.last
         == Some(AttemptResult(decode, AttemptOutcome(script, base, MaxRetries - 1), MaxRetries).error)
  {
    match ValidateRequest(req)
    case Fail(e) => Run(Failure(Rejected(e)), 0)
    case Pass => RetryFrom(decode, script, base, 1, None)
  }

  /**
   * Structure: validates the request, builds the prompt once, and tries up to
   * MaxRetries LLM calls; call errors and validation errors alike move on to
   * the next attempt.
   */
  method Structure(llm: LlmOracle, decode: Decoder, req: StructureRequest)
    returns (r: Result<StructureResponse, ServiceError>)
    requires llm.Valid()
    modifies llm
    ensures llm.Valid()
    ensures var run := StructureSpec(decode, llm.script, old(llm.calls), req);
      r == run.result && llm.calls == old(llm.calls) + run.calls
    ensures |llm.prompts| >= |old(llm.prompts)|
    ensures llm.prompts[..|old(llm.prompts)|] == old(llm.prompts)
    ensures forall i :: |old(llm.prompts)| <= i < |llm.prompts| ==> llm.prompts[i] == BuildPrompt(req.rawText)
  {
    var check := ValidateRequest(req);
    if check.Fail? {
      return Failure(Rejected(check.error));
    }

    var prompt := BuildPrompt(req.rawText);
    ghost var spec := StructureSpec(decode, llm.script, llm.calls, req);
    ghost var base := llm.calls;
    var lastErr: Option<ServiceError> := None;
    var attempt := 1;
    while attempt <= MaxRetries
      invariant 1 <= attempt <= MaxRetries + 1
      invariant llm.Valid()
      invariant llm.calls == base + attempt - 1
      invariant RetryFrom(decode, llm.script, base, attempt, lastErr) == spec
      invariant |llm.prompts| >= |old(llm.prompts)|
      invariant llm.prompts[..|old(llm.prompts)|] == old(llm.prompts)
      invariant forall i :: |old(llm.prompts)| <= i < |llm.prompts| ==> llm.prompts[i] == prompt
    {
      var outcome := llm.GenerateStructuredJSON(prompt);
      match outcome {
        case CallError(message) =>
          lastErr := Some(LlmCallFailed(attempt, message));
        case Reply(rawJson) =>
          var response := ParseAndValidate(decode, rawJson);
          if response.Success? {
            return response;
          }
          lastErr := Some(ValidationFailed(attempt, response.error));
      }
      attempt := attempt + 1;
    }
    return Failure(AllAttemptsFailed(MaxRetries, lastErr));
  }

  /** The first attempt index from `from` on whose outcome is accepted, or MaxRetries if none is. */
  function FirstAccepting(decode: Decoder, script: seq<LlmOutcome>, base: nat, from: nat): (k: nat)
    requires from <= MaxRetries
    ensures from <= k <= MaxRetries
    ensures k < MaxRetries ==> Accepts(decode, AttemptOutcome(script, base, k))
    ensures forall j :: from <= j < k ==> !Accepts(decode, AttemptOutcome(script, base, j))
    decreases MaxRetries - from
  {
    if from == MaxRetries || Accepts(decode, AttemptOutcome(script, base, from)) then from
    else FirstAccepting(decode, script, base, from + 1)
  }

  /** From attempt a on, the first accepted outcome ends the loop with that response. */
  lemma {:induction false} RetryStopsAtFirstAccept(
    decode: Decoder, script: seq<LlmOutcome>, base: nat, a: nat, lastErr: Option<ServiceError>, k: nat)
    requires 1 <= a <= k + 1 <= MaxRetries
    requires Accepts(decode, AttemptOutcome(script, base, k))
    requires forall j :: a - 1 <= j < k ==> !Accepts(decode, AttemptOutcome(script, base, j))
    ensures RetryFrom(decode, script, base, a, lastErr)
      == Run(Success(StructureResponse(decode(AttemptOutcome(script, base, k).text).value)), k + 1)
    decreases MaxRetries + 1 - a
  {
    var r := AttemptResult(decode, AttemptOutcome(script, base, a - 1), a);
    if a - 1 < k {
      RetryStopsAtFirstAccept(decode, script, base, a + 1, Some(r.error), k);
    }
  }

  /** From attempt a on, when no outcome is accepted, the loop runs out with the last attempt's error. */
  lemma {:induction false} RetryRunsOut(
    decode: Decoder, script: seq<LlmOutcome>, base: nat, a: nat, lastErr: Option<ServiceError>)
    requires 1 <= a <= MaxRetries + 1
    requires forall j :: a - 1 <= j < MaxRetries ==> !Accepts(decode, AttemptOutcome(script, base, j))
    ensures var last :=
        if a <= MaxRetries
        then Some(AttemptResult(decode, AttemptOutcome(script, base, MaxRetries - 1), MaxRetries).error)
        else lastErr;
      RetryFrom(decode, script, base, a, lastErr) == Run(Failure(AllAttemptsFailed(MaxRetries, last)), MaxRetries)
    decreases MaxRetries + 1 - a
  {
    if a <= MaxRetries {
      var r := AttemptResult(decode, AttemptOutcome(script, base, a - 1), a);
      RetryRunsOut(decode, script, base, a + 1, Some(r.error));
    }
  }

  /**
   * An empty raw text is rejected before any LLM call: the first ensures of
   * StructureSpec, restated as a named property of the empty request.
   */
  lemma EmptyTextRejectedWithoutCalls(decode: Decoder, script: seq<LlmOutcome>, base: nat)
    ensures StructureSpec(decode, script, base, StructureRequest("")) == Run(Failure(Rejected(RawTextRequired)), 0)
  {
  }

  /**
   * For a valid request, the first accepted attempt k + 1 wins: exactly k + 1
   * calls are made and its decoded map is returned; when no attempt is
   * accepted, exactly MaxRetries calls are made and the error wraps the last
   * attempt's error.
   */
  lemma StructureOutcome(decode: Decoder, script: seq<LlmOutcome>, base: nat, req: StructureRequest)
    requires req.rawText != ""
    ensures var k := FirstAccepting(decode, script, base, 0);
      var run := StructureSpec(decode, script, base, req);
      if k < MaxRetries then
        run == Run(Success(StructureResponse(decode(AttemptOutcome(script, base, k).text).value)), k + 1)
      else
        run == Run(Failure(AllAttemptsFailed(MaxRetries,
          Some(AttemptResult(decode, AttemptOutcome(script, base, MaxRetries - 1), MaxRetries).error))), MaxRetries)
  {
    var k := FirstAccepting(decode, script, base, 0);
    if k < MaxRetries {
      RetryStopsAtFirstAccept(decode, script, base, 1, None, k);
    } else {
      RetryRunsOut(decode, script, base, 1, None);
    }
  }

  /** A valid request succeeds exactly when one of the MaxRetries attempts receives an accepted reply. */
  lemma SucceedsIffSomeAttemptAccepts(decode: Decoder, script: seq<LlmOutcome>, base: nat, req: StructureRequest)
    requires req.rawText != ""
    ensures StructureSpec(decode, script, base, req).result.Success?
      <==> exists k :: 0 <= k < MaxRetries && Accepts(decode, AttemptOutcome(script, base, k))
  {
    StructureOutcome(decode, script, base, req);
    var k := FirstAccepting(decode, script, base, 0);
    if k < MaxRetries {
      assert Accepts(decode, AttemptOutcome(script, base, k));
    }
  }

  /**
   * Call errors and rejected replies are handled alike: two scripts that agree
   * on which attempts are accepted, and on the accepted replies, make the same
   * number of calls and give the same success.
   */
  lemma FailuresHandledAlike(decode: Decoder, script1: seq<LlmOutcome>, base1: nat,
                             script2: seq<LlmOutcome>, base2: nat, req: StructureRequest)
    requires forall j :: 0 <= j < MaxRetries ==>
      (Accepts(decode, AttemptOutcome(script1, base1, j)) <==> Accepts(decode, AttemptOutcome(script2, base2, j)))
    requires forall j :: 0 <= j < MaxRetries && Accepts(decode, AttemptOutcome(script1, base1, j)) ==>
      AttemptOutcome(script1, base1, j) == AttemptOutcome(script2, base2, j)
    ensures StructureSpec(decode, script1, base1, req).calls == StructureSpec(decode, script2, base2, req).calls
    ensures StructureSpec(decode, script1, base1, req).result.Success?
      == StructureSpec(decode, script2, base2, req).result.Success?
    ensures StructureSpec(decode, script1, base1, req).result.Success?
      ==> StructureSpec(decode, script1, base1, req).result == StructureSpec(decode, script2, base2, req).result
  {
    if req.rawText != "" {
      FirstAcceptingAgrees(decode, script1, base1, script2, base2, 0);
      StructureOutcome(decode, script1, base1, req);
      StructureOutcome(decode, script2, base2, req);
    }
  }

  /** Scripts that agree on acceptance agree on the first accepted attempt. */
  lemma {:induction false} FirstAcceptingAgrees(decode: Decoder, script1: seq<LlmOutcome>, base1: nat,
                                                script2: seq<LlmOutcome>, base2: nat, from: nat)
    requires from <= MaxRetries
    requires forall j :: 0 <= j < MaxRetries ==>
      (Accepts(decode, AttemptOutcome(script1, base1, j)) <==> Accepts(decode, AttemptOutcome(script2, base2, j)))
    ensures FirstAccepting(decode, script1, base1, from) == FirstAccepting(decode, script2, base2, from)
    decreases MaxRetries - from
  {
    if from < MaxRetries && !Accepts(decode, AttemptOutcome(script1, base1, from)) {
      FirstAcceptingAgrees(decode, script1, base1, script2, base2, from + 1);
    }
  }

  /** Two empty objects, then a non-empty one: the third attempt's object is returned after three calls. */
  lemma EmptyObjectsThenValid(decode: Decoder, script: seq<LlmOutcome>, req: StructureRequest,
                              valid: string, fields: map<string, JsonValue>)
    requires req.rawText != ""
    requires decode("{}") == Some(Fields(map[])) && decode(valid) == Some(Fields(fields)) && |fields| > 0
    requires script == [Reply("{}"), Reply("{}"), Reply(valid)]
    ensures StructureSpec(decode, script, 0, req) == Run(Success(StructureResponse(Fields(fields))), 3)
  {
    assert !Accepts(decode, AttemptOutcome(script, 0, 0));
    assert !Accepts(decode, AttemptOutcome(script, 0, 1));
    RetryStopsAtFirstAccept(decode, script, 0, 1, None, 2);
  }

  /** Text that never decodes: the error after three calls wraps the third attempt's decoding error. */
  lemma NeverJson(decode: Decoder, script: seq<LlmOutcome>, req: StructureRequest)
    requires req.rawText != ""
    requires decode("not json") == None
    requires script == [Reply("not json"), Reply("not json"), Reply("not json")]
    ensures StructureSpec(decode, script, 0, req)
      == Run(Failure(AllAttemptsFailed(3, Some(ValidationFailed(3, InvalidJson)))), 3)
  {
    RetryRunsOut(decode, script, 0, 1, None);
  }
}
