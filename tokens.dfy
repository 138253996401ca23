/** The backend's token accounting. `count_tokens` is the length of a
    string's GPT-2 encoding; the model keeps it abstract, as any function
    from strings to token counts, and every operation that needs it takes it
    as a parameter. */
module Tokens {

  type Tokenizer = string -> nat

  /** `sum(count_tokens(p) for p in xs)`, accumulated front to back. */
  function SumTokens(count: Tokenizer, xs: seq<string>): (total: nat)
  {
    if xs == [] then 0 else SumTokens(count, xs[..|xs| - 1]) + count(xs[|xs| - 1])
  }

  /** The token count of a concatenation is the sum of the parts' counts. */
  lemma {:induction false} SumTokensConcat(count: Tokenizer, xs: seq<string>, ys: seq<string>)
    ensures SumTokens(count, xs + ys) == SumTokens(count, xs) + SumTokens(count, ys)
    decreases |ys|
  {
    if ys == [] {
      assert xs + ys == xs;
    } else {
      assert (xs + ys)[..|xs + ys| - 1] == xs + ys[..|ys| - 1];
      SumTokensConcat(count, xs, ys[..|ys| - 1]);
    }
  }

  lemma SumTokensSnoc(count: Tokenizer, xs: seq<string>, x: string)
    ensures SumTokens(count, xs + [x]) == SumTokens(count, xs) + count(x)
  {
    assert (xs + [x])[..|xs|] == xs;
  }

  lemma SumTokensCons(count: Tokenizer, x: string, xs: seq<string>)
    ensures SumTokens(count, [x] + xs) == count(x) + SumTokens(count, xs)
  {
    SumTokensConcat(count, [x], xs);
    assert [x][..0] == [];
  }

  /** Token counts are never negative, so the sum is at least the count of
      each element. */
  lemma {:induction false} SumTokensBound(count: Tokenizer, xs: seq<string>)
    ensures forall k :: 0 <= k < |xs| ==> count(xs[k]) <= SumTokens(count, xs)
    decreases |xs|
  {
    if xs != [] {
      var init := xs[..|xs| - 1];
      SumTokensBound(count, init);
      assert forall k :: 0 <= k < |init| ==> init[k] == xs[k];
    }
  }

  /** Token counts are never negative, so a prefix never costs more than the
      whole list. */
  lemma SumTokensPrefix(count: Tokenizer, xs: seq<string>, k: nat)
    requires k <= |xs|
    ensures SumTokens(count, xs[..k]) <= SumTokens(count, xs)
  {
    assert xs[..k] + xs[k..] == xs;
    SumTokensConcat(count, xs[..k], xs[k..]);
  }
}
