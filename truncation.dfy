/** The context budget of the question-answering path: `truncate_chunks`
    keeps the longest prefix of the retrieved chunks that fits a token
    budget, and `get_answer` then decides whether to summarise the kept
    chunks before building the prompt. */
module Truncation {
  import opened Text
  import opened Tokens

  /** Default budget of `truncate_chunks`, and the threshold `get_answer`
      compares the kept chunks against. */
  const DefaultContextTokens := 3000

  /** Reference definition: walk the chunks front to back with the budget
      still left, and stop at the first chunk that does not fit. */
  function Truncated(chunks: seq<string>, count: Tokenizer, maxTokens: int): (kept: seq<string>)
    ensures |kept| <= |chunks|
    decreases |chunks|
  {
    if chunks == [] || count(chunks[0]) > maxTokens then []
    else [chunks[0]] + Truncated(chunks[1..], count, maxTokens - count(chunks[0]))
  }

  /** The result is a prefix of the input; it fits the budget (or is
      empty); and when it stops early, the next chunk is the one that would
      overflow, even if chunks after it would still fit. */
  lemma {:induction false} TruncatedPrefix(chunks: seq<string>, count: Tokenizer, maxTokens: int)
    ensures var kept := Truncated(chunks, count, maxTokens);
            && kept == chunks[..|kept|]
            && (kept == [] || SumTokens(count, kept) <= maxTokens)
            && (|kept| < |chunks| ==> SumTokens(count, kept) + count(chunks[|kept|]) > maxTokens)
    decreases |chunks|
  {
    if chunks != [] && count(chunks[0]) <= maxTokens {
      var budget := maxTokens - count(chunks[0]);
      var rest := Truncated(chunks[1..], count, budget);
      TruncatedPrefix(chunks[1..], count, budget);
      SumTokensCons(count, chunks[0], rest);
      assert chunks[1..][..|rest|] == chunks[1..|rest| + 1];
    }
  }

  /** A budget that is not negative is always met: even the empty result
      costs nothing. */
  lemma TruncatedFits(chunks: seq<string>, count: Tokenizer, maxTokens: int)
    requires maxTokens >= 0
    ensures SumTokens(count, Truncated(chunks, count, maxTokens)) <= maxTokens
  {
    TruncatedPrefix(chunks, count, maxTokens);
  }

  /** The kept prefix is the longest prefix that fits: no prefix longer
      than it stays within the budget, because every one of them contains
      the chunk that overflowed. */
  lemma TruncatedLongest(chunks: seq<string>, count: Tokenizer, maxTokens: int, k: nat)
    requires k <= |chunks| && SumTokens(count, chunks[..k]) <= maxTokens
    ensures k <= |Truncated(chunks, count, maxTokens)|
  {
    var kept := Truncated(chunks, count, maxTokens);
    var n := |kept|;
    TruncatedPrefix(chunks, count, maxTokens);
    if k > n {
      assert chunks[..n + 1] == kept + [chunks[n]];
      SumTokensSnoc(count, kept, chunks[n]);
      assert chunks[..k][..n + 1] == chunks[..n + 1];
      SumTokensPrefix(count, chunks[..k], n + 1);
    }
  }

  /** Truncating what was already truncated, with the same budget, changes
      nothing. */
  lemma {:induction false} TruncatedIdempotent(chunks: seq<string>, count: Tokenizer, maxTokens: int)
    ensures Truncated(Truncated(chunks, count, maxTokens), count, maxTokens) == Truncated(chunks, count, maxTokens)
    decreases |chunks|
  {
    var kept := Truncated(chunks, count, maxTokens);
    if kept != [] {
      var budget := maxTokens - count(chunks[0]);
      var rest := Truncated(chunks[1..], count, budget);
      assert kept == [chunks[0]] + rest;
      assert kept[1..] == rest;
      TruncatedIdempotent(chunks[1..], count, budget);
    }
  }

  /** One pass of the loop of `truncate_chunks`: after the first `i`
      chunks were kept with `total` tokens, chunk `i` either ends the result
      or joins it. */
  lemma TruncateAdvance(chunks: seq<string>, count: Tokenizer, maxTokens: int, i: nat, total: int)
    requires i < |chunks|
    requires Truncated(chunks, count, maxTokens) == chunks[..i] + Truncated(chunks[i..], count, maxTokens - total)
    ensures total + count(chunks[i]) > maxTokens ==> Truncated(chunks, count, maxTokens) == chunks[..i]
    ensures total + count(chunks[i]) <= maxTokens ==>
              Truncated(chunks, count, maxTokens)
                == chunks[..i + 1] + Truncated(chunks[i + 1..], count, maxTokens - (total + count(chunks[i])))
  {
    assert chunks[i..][1..] == chunks[i + 1..];
    assert chunks[..i + 1] == chunks[..i] + [chunks[i]];
  }

  /** `truncate_chunks(chunks, max_tokens)`. */
  method TruncateChunks(chunks: seq<string>, count: Tokenizer, maxTokens: int) returns (finalChunks: seq<string>)
    ensures finalChunks == Truncated(chunks, count, maxTokens)
  {
    var totalTokens := 0;
    finalChunks := [];
    var i := 0;
    while i < |chunks|
      invariant i <= |chunks| && finalChunks == chunks[..i]
      invariant totalTokens == SumTokens(count, finalChunks)
      invariant Truncated(chunks, count, maxTokens)
                  == finalChunks + Truncated(chunks[i..], count, maxTokens - totalTokens)
    {
      TruncateAdvance(chunks, count, maxTokens, i, totalTokens);
      var chunk := chunks[i];
      var tokens := count(chunk);
      if totalTokens + tokens > maxTokens {
        break;
      }
      SumTokensSnoc(count, finalChunks, chunk);
      finalChunks := finalChunks + [chunk];
      totalTokens := totalTokens + tokens;
      i := i + 1;
    }
    assert i == |chunks| ==> chunks[i..] == [];
  }

  /** How `get_answer` builds its prompt from the retrieved chunks: either
      the chunks are to be summarised first, or they go into the prompt as
      they are, joined by blank lines and followed by the question. */
  datatype Plan =
    | Summarise(chunks: seq<string>, question: string)
    | Ask(prompt: string)

  /** The branch of `get_answer` after retrieval. Because the chunks were
      just truncated to the very budget the branch tests against, the
      summarising branch is never taken: the prompt is always the kept
      chunks themselves. */
  function PlanPrompt(rawChunks: seq<string>, question: string, count: Tokenizer): (plan: Plan)
    ensures plan.Ask?
    ensures plan == Ask(Join(Truncated(rawChunks, count, DefaultContextTokens), "\n\n") + "\n\nQuestion: " + question)
  {
    var truncated := Truncated(rawChunks, count, DefaultContextTokens);
    TruncatedFits(rawChunks, count, DefaultContextTokens);
    if SumTokens(count, truncated) > DefaultContextTokens then Summarise(truncated, question)
    else Ask(Join(truncated, "\n\n") + "\n\nQuestion: " + question)
  }
}
