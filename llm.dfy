/**
 * The LLM output port (LLMClient.GenerateStructuredJSON), modelled as an
 * oracle: a fixed script of outcomes consumed one per call, with a count of
 * the calls made and a log of the prompts sent.
 */
module LlmPort {

  /** What one call to the LLM port yields: the reply text, or an opaque error. */
  datatype LlmOutcome = Reply(text: string) | CallError(message: string)

  /** The error a scripted oracle reports once its script is used up. */
  const ScriptExhausted: string := "no scripted reply"

  /** The outcome of call number `i` (counting from 0) under `script`. */
  function Scripted(script: seq<LlmOutcome>, i: nat): (o: LlmOutcome)
    ensures i < |script| ==> o == script[i]
    ensures i >= |script| ==> o.CallError?
  {
    if i < |script| then script[i] else CallError(ScriptExhausted)
  }

  class LlmOracle {
    /** The outcomes of the successive calls. */
    const script: seq<LlmOutcome>
    /** The number of calls made so far. */
    var calls: nat
    /** The prompts sent so far, one per call, in order. */
    var prompts: seq<string>

    ghost predicate Valid()
      reads this
    {
      |prompts| == calls
    }

    constructor (script: seq<LlmOutcome>)
      ensures Valid()
      ensures this.script == script && calls == 0 && prompts == []
    {
      this.script := script;
      calls := 0;
      prompts := [];
    }

    /** One call to the LLM: records the prompt and yields the next scripted outcome. */
    method GenerateStructuredJSON(prompt: string) returns (o: LlmOutcome)
      requires Valid()
      modifies this
      ensures Valid()
      ensures o == Scripted(script, old(calls))
      ensures calls == old(calls) + 1
      ensures prompts == old(prompts) + [prompt]
    {
      o := Scripted(script, calls);
      calls := calls + 1;
      prompts := prompts + [prompt];
    }
  }
}
