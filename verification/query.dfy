/** The text the query side of `main` builds around the user's prompt: the
    instruction put in front of it before it is embedded, and the augmented
    prompt handed to the language model. */
module Query {
  import opened Strings

  /** Put in front of the prompt before it is embedded for the search. */
  const SearchInstruction: String := "Represent this sentence for searching relevant passages: "

  /** The text sent to the embedding service for a prompt. */
  function SearchText(prompt: String): (q: String)
    ensures |q| == |SearchInstruction| + |prompt|
    ensures StartsWith(q, SearchInstruction)
  {
    SearchInstruction + prompt
  }

  /** The prompt is all of the search text after the instruction. */
  lemma {:induction false} SearchTextRecoversPrompt(prompt: String)
    ensures SearchText(prompt)[|SearchInstruction|..] == prompt
  {
  }

  /** The fixed pieces of the augmented prompt template, line breaks and
      indentation included. */
  const Opening: String :=
    "\n      The following are relevant passages:\n      <retrieved-data>\n      "
  const Middle: String :=
    "\n      </retrieved-data>\n\n      Here's the original user prompt, answer with help of the retrieved passages:\n      <user-prompt>\n      "
  const Closing: String := "\n      </user-prompt>\n    "

  /** The augmented prompt for the rendered passages and the user's prompt. */
  function AugmentedPrompt(passages: String, prompt: String): (a: String)
    ensures |a| == |Opening| + |passages| + |Middle| + |prompt| + |Closing|
  {
    Opening + passages + Middle + prompt + Closing
  }

  /** Where the prompt sits inside the augmented prompt. */
  function PromptOffset(passages: String): nat {
    |Opening| + |passages| + |Middle|
  }

  /** The template pieces, the passages and the prompt all appear verbatim,
      at offsets that depend only on the length of the passages, so each can
      be read back. */
  lemma {:induction false} AugmentedPromptRecovers(passages: String, prompt: String)
    ensures var a := AugmentedPrompt(passages, prompt);
            && a[|Opening|..|Opening| + |passages|] == passages
            && a[|Opening| + |passages|..PromptOffset(passages)] == Middle
            && a[PromptOffset(passages)..PromptOffset(passages) + |prompt|] == prompt
            && a[..|Opening|] == Opening
            && a[|a| - |Closing|..] == Closing
  {
    FiveParts(Opening, passages, Middle, prompt, Closing);
  }

  /** Each part of a five-part concatenation sits at the sum of the lengths
      before it. */
  lemma {:induction false} FiveParts<T>(p: seq<T>, q: seq<T>, r: seq<T>, s: seq<T>, t: seq<T>)
    ensures var a := p + q + r + s + t;
            && a[|p|..|p| + |q|] == q
            && a[|p| + |q|..|p| + |q| + |r|] == r
            && a[|p| + |q| + |r|..|p| + |q| + |r| + |s|] == s
            && a[..|p|] == p
            && a[|a| - |t|..] == t
  {
    var a := p + q + r + s + t;
    var o := |p|;
    var n := |p| + |q|;
    var m := |p| + |q| + |r|;
    assert a[o..o + |q|] == q by {
      forall k | 0 <= k < |q| ensures a[o + k] == q[k] { }
    }
    assert a[n..n + |r|] == r by {
      forall k | 0 <= k < |r| ensures a[n + k] == r[k] { }
    }
    assert a[m..m + |s|] == s by {
      forall k | 0 <= k < |s| ensures a[m + k] == s[k] { }
    }
  }
}
