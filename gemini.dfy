/**
 * The markdown-fence stripper that the Gemini adapter applies to the model's
 * reply before returning it: trim, drop the outer lines of a fenced block, trim.
 */
module Gemini {
  import opened Strings

  /** The opening marker of a markdown code block. */
  const Fence: string := "```"

  /** The line separator the reply is split on. */
  const Newline: char := '\n'

  /**
   * The fence-stripping block of GenerateStructuredJSON: when the trimmed text
   * starts with a fence and has at least three lines, the first and last lines
   * are removed; the result is trimmed again.
   */
  function StripFences(text: string): (r: string)
    ensures NoEdgeSpace(r)
  {
    TrimSpace(Unfence(TrimSpace(text)))
  }

  /**
   * The middle step on the trimmed text: split, drop the outer lines of a fenced
   * text, join. Text without a fence, or with fewer than three lines, is kept
   * as it is; otherwise the lines of the result are exactly lines 2..n-1.
   */
  function Unfence(t: string): (r: string)
    ensures !HasPrefix(t, Fence) ==> r == t
    ensures HasPrefix(t, Fence) && |Split(t, Newline)| < 3 ==> r == t
    ensures HasPrefix(t, Fence) && |Split(t, Newline)| >= 3 ==>
      Split(r, Newline) == Split(t, Newline)[1..|Split(t, Newline)| - 1]
  {
    if HasPrefix(t, Fence) then
      var lines := Split(t, Newline);
      var kept := DropOuterLines(lines);
      if |lines| >= 3 then
        InnerLinesHaveNoNewline(lines, kept);
        SplitJoin(kept, Newline);
        Join(kept, Newline)
      else
        JoinSplit(t, Newline);
        Join(kept, Newline)
    else t
  }

  /** Lines 2..n-1 when there are at least three lines; otherwise all of them. */
  function DropOuterLines(lines: seq<string>): (r: seq<string>)
    ensures |lines| < 3 ==> r == lines
    ensures |lines| >= 3 ==> |r| == |lines| - 2 && forall i :: 0 <= i < |r| ==> r[i] == lines[i + 1]
  {
    if |lines| >= 3 then lines[1..|lines| - 1] else lines
  }

  /** Text whose trimmed form does not open with a fence is only trimmed. */
  lemma UnfencedTextOnlyTrimmed(text: string)
    requires !HasPrefix(TrimSpace(text), Fence)
    ensures StripFences(text) == TrimSpace(text)
  {
  }

  /** A fenced text of fewer than three lines loses nothing and still opens with the fence. */
  lemma ShortFencedTextUnchanged(text: string)
    requires HasPrefix(TrimSpace(text), Fence)
    requires |Split(TrimSpace(text), Newline)| < 3
    ensures StripFences(text) == TrimSpace(text)
    ensures HasPrefix(StripFences(text), Fence)
  {
  }

  /**
   * A fenced text of three or more lines loses exactly its first and last lines;
   * every line between them is kept, in order, before the final trim.
   */
  lemma FencedTextLosesOuterLines(text: string, lines: seq<string>)
    requires HasPrefix(TrimSpace(text), Fence)
    requires lines == Split(TrimSpace(text), Newline) && |lines| >= 3
    ensures StripFences(text) == TrimSpace(Join(lines[1..|lines| - 1], Newline))
    ensures Split(Join(lines[1..|lines| - 1], Newline), Newline) == lines[1..|lines| - 1]
  {
    var t := TrimSpace(text);
    var mid := lines[1..|lines| - 1];
    FencedLinesKept(t, lines, mid);
  }

  /** On a fenced text of three or more lines, Unfence joins lines 2..n-1, and they split back. */
  lemma FencedLinesKept(t: string, lines: seq<string>, mid: seq<string>)
    requires HasPrefix(t, Fence)
    requires lines == Split(t, Newline) && |lines| >= 3
    requires mid == lines[1..|lines| - 1]
    ensures Unfence(t) == Join(mid, Newline)
    ensures Split(Join(mid, Newline), Newline) == mid
  {
    assert DropOuterLines(lines) == mid;
    InnerLinesHaveNoNewline(lines, mid);
    SplitJoin(mid, Newline);
  }

  /** No line strictly between the first and the last holds a line break. */
  lemma InnerLinesHaveNoNewline(lines: seq<string>, inner: seq<string>)
    requires |lines| >= 2 && inner == lines[1..|lines| - 1]
    requires forall i :: 0 <= i < |lines| ==> Newline !in lines[i]
    ensures forall i :: 0 <= i < |inner| ==> Newline !in inner[i]
  {
    forall i | 0 <= i < |inner| ensures Newline !in inner[i] {
      assert inner[i] == lines[i + 1];
    }
  }

  /**
   * A text that trims to a fenced block, written as an opening line (the fence
   * and an optional language tag), a body, and a last line, is reduced to the
   * trimmed body: the body is kept verbatim, inner fences included, and the
   * last line is dropped whatever it holds. Because the block is a trimmed
   * text, its last line is never empty.
   */
  lemma FencedBlockYieldsBody(text: string, tag: string, body: string, last: string)
    requires TrimSpace(text) == Fence + tag + [Newline] + body + [Newline] + last
    requires Newline !in tag && Newline !in last
    ensures StripFences(text) == TrimSpace(body)
    ensures last != []
  {
    UnfenceBlock(tag, body, last);
  }

  /** Unfencing a block whose first and last lines hold no line break gives back its body. */
  lemma UnfenceBlock(tag: string, body: string, last: string)
    requires Newline !in tag && Newline !in last
    ensures Unfence(Fence + tag + [Newline] + body + [Newline] + last) == body
  {
    var head := Fence + tag;
    var rest := body + [Newline] + last;
    var text := head + [Newline] + rest;
    assert text == Fence + tag + [Newline] + body + [Newline] + last;
    assert HasPrefix(text, Fence) by {
      assert text[..|Fence|] == Fence;
    }
    SplitNoSeparator(head, Newline);
    SplitNoSeparator(last, Newline);
    SplitAround(body, Newline, last);
    SplitAround(head, Newline, rest);
    var lines := Split(text, Newline);
    assert lines == [head] + Split(body, Newline) + [last];
    assert DropOuterLines(lines) == Split(body, Newline);
    JoinSplit(body, Newline);
  }

  /** The example named in the comment on GenerateStructuredJSON's fence-stripping block: a ```json block around {"a":1}. */
  lemma JsonBlockExample(text: string)
    requires text == "```json\n{\"a\":1}\n```"
    ensures StripFences(text) == "{\"a\":1}"
  {
    TrimmedBlockYieldsBody(text, "json", "{\"a\":1}", Fence);
  }

  /** The last line is dropped even when it is not a closing fence. */
  lemma UnclosedBlockLosesLastLine(text: string)
    requires text == "```json\n{\"a\":1}\n\"b\""
    ensures StripFences(text) == "{\"a\":1}"
  {
    TrimmedBlockYieldsBody(text, "json", "{\"a\":1}", "\"b\"");
  }

  /**
   * A text that trims to a fenced block whose body has no edge whitespace
   * yields exactly that body.
   */
  lemma FencedBlockYieldsExactBody(text: string, tag: string, body: string, last: string)
    requires TrimSpace(text) == Fence + tag + [Newline] + body + [Newline] + last
    requires Newline !in tag && Newline !in last
    requires NoEdgeSpace(body)
    ensures StripFences(text) == body
  {
    FencedBlockYieldsBody(text, tag, body, last);
  }

  /**
   * A text that is exactly a fenced block, whose last line ends in a non-space
   * character and whose body has no edge whitespace, yields exactly that body.
   */
  lemma TrimmedBlockYieldsBody(text: string, tag: string, body: string, last: string)
    requires text == Fence + tag + [Newline] + body + [Newline] + last
    requires Newline !in tag && Newline !in last
    requires last != [] && !IsSpace(last[|last| - 1])
    requires NoEdgeSpace(body)
    ensures StripFences(text) == body
  {
    assert text[0] == '`' && text[|text| - 1] == last[|last| - 1];
    assert TrimSpace(text) == text;
    FencedBlockYieldsBody(text, tag, body, last);
  }
}
