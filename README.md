# TextToJSON core, modelled in Dafny

TextToJSON is an HTTP service that turns free text into a JSON object by
asking a large-language model (Gemini) to infer a schema. This project
models its three pieces of real logic:

- the **retry orchestrator** (`StructurerServiceImpl.Structure`): validate the
  request, build the prompt once, call the LLM up to `maxRetries` = 3 times,
  return the first reply that decodes to a non-empty JSON object, otherwise
  fail with an error that wraps the last attempt's error;
- the **entity validators** (`StructureRequest.Validate`,
  `StructureResponse.Validate`);
- the **markdown-fence stripper** that the Gemini adapter applies to the model's
  reply before returning it.

Files and modules:

| file | module | models |
|---|---|---|
| `wrappers.dfy` | `Wrappers` | `Option` (Go's nil), `Result`, `Outcome` (an `error` return) |
| `strings.dfy` | `Strings` | Go's `strings.TrimSpace`, `HasPrefix`, `Split`, `Join` over `seq<char>` |
| `entity.dfy` | `Entity` | `internal/domain/entity/structurer.go` |
| `gemini.dfy` | `Gemini` | the fence-stripping block of `GenerateStructuredJSON` |
| `llm.dfy` | `LlmPort` | the `LLMClient` port, as a scripted oracle class |
| `structurer_service.dfy` | `StructurerService` | `internal/application/structurer_service.go` |

How the outside world is represented:

- **The LLM** is the class `LlmPort.LlmOracle`: a fixed `script` of outcomes
  (`Reply(text)` or `CallError(message)`), consumed one per call, with a
  `calls` counter and a `prompts` log that each call extends. A call past the
  end of the script fails. `Structure` takes the oracle as a parameter; the
  service struct holds nothing else.
- **`json.Unmarshal` into `map[string]interface{}`** is a parameter
  `decode: string -> Option<Data>`. `None` is a decoding error (malformed JSON,
  or JSON that is not an object). `Some(Nil)` is the literal `null`, which
  Go decodes into a nil map without error. `Some(Fields(m))` is an object.
- **Errors** are the datatype `ServiceError`. Each `fmt.Errorf(... %w ...)`
  becomes a constructor that holds the wrapped error, so "wraps the last
  error" and "states the attempt count" are fields that can be compared.
- The orchestrator's behaviour is given by the function `StructureSpec`. Its
  retry part is `RetryFrom`, which mirrors the loop. The method `Structure`
  runs the loop against the oracle, and its contract ties its result and the
  oracle's new call count to `StructureSpec`. The lemmas then prove what the
  service promises about `StructureSpec`.

Behaviour of the code worth knowing:

- A request is rejected only when `raw_text` is exactly empty. There is no
  trimming, so whitespace-only text is accepted (`Entity.WhitespaceOnlyAccepted`).
- Fences are stripped in the Gemini adapter, not in `parseAndValidate`.
  `parseAndValidate` decodes the text exactly as it is given.
- The stripper drops the first and last lines of any trimmed reply that starts
  with three backticks and has at least three lines. It does not check that
  the last line is a closing fence (`Gemini.UnclosedBlockLosesLastLine`).
- A cancelled context is not treated specially: a failing call is retried like
  any other call error.

## Model

| member | source | states |
|---|---|---|
| `Strings.TrimLeft` | internal/adapters/output/gemini/gemini_client.go:50 | the result is the suffix of the input left after its longest all-whitespace prefix, and it does not start with whitespace |
| `Strings.TrimRight` | internal/adapters/output/gemini/gemini_client.go:59 | the result is the prefix of the input left before its longest all-whitespace suffix, and it does not end with whitespace |
| `Strings.TrimSpace` | internal/adapters/output/gemini/gemini_client.go:50 | the result is a slice of the input with only whitespace outside it, and it has no edge whitespace; an input with no edge whitespace is returned unchanged |
| `Strings.TrimSpaceIdempotent` | internal/adapters/output/gemini/gemini_client.go:59 | trimming an already trimmed text changes nothing |
| `Strings.HasPrefix` | internal/adapters/output/gemini/gemini_client.go:51 | holds exactly when the prefix is no longer than the text and agrees with it character by character |
| `Strings.Split` | internal/adapters/output/gemini/gemini_client.go:52 | splitting always yields at least one piece, and no piece contains the separator |
| `Strings.Join` | internal/adapters/output/gemini/gemini_client.go:56 | no lines join to the empty string and one line to itself; otherwise the result starts with the first line, followed by the separator |
| `Strings.JoinSplit` | internal/adapters/output/gemini/gemini_client.go:52-56 | joining the pieces of a split with the same separator gives back the original string |
| `Strings.SplitJoin` | internal/adapters/output/gemini/gemini_client.go:52-56 | splitting the join of separator-free lines gives back those lines |
| `Strings.SplitAround` | internal/adapters/output/gemini/gemini_client.go:52 | splitting `x + sep + y` gives the pieces of `x` followed by the pieces of `y` |
| `Entity.ValidateRequest` | internal/domain/entity/structurer.go:11-16 | fails, with "raw_text is required", exactly when the raw text is empty; as a function it leaves the request unchanged |
| `Entity.WhitespaceOnlyAccepted` | internal/domain/entity/structurer.go:12 | a whitespace-only raw text, which trims to nothing, still passes validation |
| `Entity.ValidateResponse` | internal/domain/entity/structurer.go:24-29 | fails, with the empty-structure error, exactly when the map is nil or has no key; passes exactly when some key exists |
| `Entity.NilAndEmptyAlike` | internal/domain/entity/structurer.go:25 | a nil map and an empty map get the same verdict, the empty-structure error |
| `Gemini.StripFences` | internal/adapters/output/gemini/gemini_client.go:49-59 | the output has no leading or trailing whitespace |
| `Gemini.Unfence` | internal/adapters/output/gemini/gemini_client.go:51-56 | a text that does not start with three backticks, or that has fewer than three lines, is kept as it is; otherwise the lines of the result are exactly lines 2..n-1 of the text |
| `Gemini.DropOuterLines` | internal/adapters/output/gemini/gemini_client.go:53-55 | fewer than three lines are kept; otherwise two fewer lines remain, line i of the result being line i + 1 of the input |
| `Gemini.FencedLinesKept` | internal/adapters/output/gemini/gemini_client.go:52-56 | on a fenced text of three or more lines the middle step is the join of lines 2..n-1, and splitting that join gives those lines back |
| `Gemini.UnfencedTextOnlyTrimmed` | internal/adapters/output/gemini/gemini_client.go:50-51 | when the trimmed input does not start with three backticks, the output is the trimmed input |
| `Gemini.ShortFencedTextUnchanged` | internal/adapters/output/gemini/gemini_client.go:53-56 | a fenced text of fewer than three lines loses nothing and still starts with the fence |
| `Gemini.FencedTextLosesOuterLines` | internal/adapters/output/gemini/gemini_client.go:51-56 | a fenced text of three or more lines becomes the trimmed join of lines 2..n-1, and those lines are exactly the kept lines |
| `Gemini.FencedBlockYieldsBody` | internal/adapters/output/gemini/gemini_client.go:51-59 | a text that trims to an opening fence line, a body and a last line, where neither outer line holds a line break, yields the trimmed body; that last line is never empty; inner fences and line breaks of the body are kept verbatim |
| `Gemini.FencedBlockYieldsExactBody` | internal/adapters/output/gemini/gemini_client.go:50-59 | a text that trims to a fenced block (neither outer line holding a line break) whose body has no edge whitespace yields exactly that body |
| `Gemini.TrimmedBlockYieldsBody` | internal/adapters/output/gemini/gemini_client.go:51-59 | a text that is exactly such a block, whose last line ends in a non-space character and whose body has no edge whitespace, yields exactly the body |
| `Gemini.JsonBlockExample` | internal/adapters/output/gemini/gemini_client.go:49 | a json-tagged fenced block around `{"a":1}` yields `{"a":1}` |
| `Gemini.UnclosedBlockLosesLastLine` | internal/adapters/output/gemini/gemini_client.go:54 | the last line is dropped even when it is not a closing fence |
| `LlmPort.Scripted` | internal/ports/output/llm_client.go:8 | call i yields the i-th scripted outcome, and a call past the script fails |
| `LlmPort.LlmOracle.GenerateStructuredJSON` | internal/ports/output/llm_client.go:8 | one call yields the next scripted outcome, adds one to the call count and logs the prompt |
| `StructurerService.BuildPrompt` | internal/application/structurer_service.go:61-75 | the prompt is the fixed instruction prefix, then the raw text verbatim, then the closing triple quote |
| `StructurerService.BuildPromptInjective` | internal/application/structurer_service.go:61-75 | different raw texts give different prompts |
| `StructurerService.ParseAndValidate` | internal/application/structurer_service.go:79-91 | succeeds exactly when the text decodes to a map with at least one key, and returns that map unchanged; a decoding failure is the invalid-JSON error, and a nil or empty map is the empty-structure error |
| `StructurerService.AcceptedResponseRevalidates` | internal/application/structurer_service.go:85-90 | a response that was accepted passes the response validator again |
| `StructurerService.AttemptResult` | internal/application/structurer_service.go:39-51 | an attempt succeeds exactly when the LLM replied with accepted text; a call error is recorded as "attempt k: LLM call failed" and a rejected reply as "attempt k: validation failed", each wrapping its cause |
| `StructurerService.FirstAccepting` | internal/application/structurer_service.go:46-54 | gives the first attempt whose reply is accepted, or the retry bound when there is none |
| `StructurerService.RetryFrom` | internal/application/structurer_service.go:36-57 | the loop from attempt a on makes at most `maxRetries` = 3 calls, and at least a when a <= 3; a success passes the response validator; a failure comes after all 3 calls and is the "all attempts failed" error stating 3; when at least one attempt was left, attempt 3 failed and its error is the one wrapped |
| `StructurerService.StructureSpec` | internal/application/structurer_service.go:28-58 | an empty raw text is rejected with "raw_text is required" after no call; a valid request makes between one and 3 calls; a success passes the response validator; a failure of a valid request comes after 3 calls, attempt 3 having failed, and wraps attempt 3's own error |
| `StructurerService.Structure` | internal/application/structurer_service.go:28-58 | the result and the number of LLM calls are those of the specification function, and every prompt sent is the one built from the raw text |
| `StructurerService.RetryStopsAtFirstAccept` | internal/application/structurer_service.go:36-54 | from any attempt on, the first accepted reply ends the loop with its decoded map after exactly that many calls |
| `StructurerService.RetryRunsOut` | internal/application/structurer_service.go:36-57 | when no remaining reply is accepted, the loop makes all the calls and fails with the attempt count and the last attempt's error |
| `StructurerService.EmptyTextRejectedWithoutCalls` | internal/application/structurer_service.go:29-31 | an empty raw text is rejected with "raw_text is required" after zero LLM calls |
| `StructurerService.StructureOutcome` | internal/application/structurer_service.go:28-58 | for a valid request: if some attempt k <= 3 is accepted, the first such k wins, after exactly k calls, returning that reply's decoded map; otherwise exactly 3 calls are made and the error states 3 and wraps attempt 3's error |
| `StructurerService.SucceedsIffSomeAttemptAccepts` | internal/application/structurer_service.go:46-54 | a valid request succeeds exactly when one of the three attempts receives a reply that decodes to a non-empty map |
| `StructurerService.FailuresHandledAlike` | internal/application/structurer_service.go:40-51 | a call error and a rejected reply are interchangeable: swapping one for the other changes neither the number of calls nor whether, or with what, the call succeeds |
| `StructurerService.FirstAcceptingAgrees` | internal/application/structurer_service.go:40-51 | scripts that agree on which attempts are accepted agree on the first accepted attempt |
| `StructurerService.EmptyObjectsThenValid` | internal/application/structurer_service.go:36-54 | replies `{}`, `{}`, then a non-empty object: success with the third object after three calls |
| `StructurerService.NeverJson` | internal/application/structurer_service.go:36-57 | three replies that never decode: failure after three calls, stating 3 and wrapping attempt 3's invalid-JSON error |

## Left out

- `cmd/api/main.go` (environment and `.env` loading, server start), `router.go`
  (route registration) and `handler.go` (body decoding, the 400/422/200 choice,
  response encoding): process setup and HTTP plumbing around `Structure`.
- The Gemini SDK calls in `GenerateStructuredJSON` (client construction,
  `GenerateContent`) and `NewClient`: foreign network calls. Only the
  fence-stripping block is modelled, as `Gemini.StripFences`.
- `encoding/json` itself: decoding is the `decode` parameter, not a parser.
  Its error text is not modelled, so `InvalidJson` carries no detail.
  JSON numbers are `real`; float64 rounding is not modelled.
- Error message text: each `fmt.Errorf` is a `ServiceError` constructor holding
  its parts (attempt number, count, wrapped error), not a formatted string.
- `log.Printf` calls and `context.Context`: logging is a side channel. The
  context is only passed to the LLM, and the loop does not inspect it.
- `NewStructurerService` and the `StructurerServiceImpl` struct: the struct
  only holds the LLM client, which `Structure` takes as a parameter.
- `Strings.TrimSpace` works on Unicode scalar values, not UTF-8 bytes, so
  invalid UTF-8 input is not modelled.
