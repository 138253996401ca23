/** `chunk_text` of the question-answering backend: a document is split into
    paragraphs at blank lines, and the paragraphs are packed greedily into
    chunks under a token budget; whenever a chunk is flushed, its trailing
    share of paragraphs (the overlap) is carried into the next one.

    The packing is specified by `Pack`, a fold over paragraph indices whose
    state is the list of flushed `Segment`s (index ranges of paragraphs) and
    the index where the chunk under construction starts. `PackParagraphs`
    is the loop of the source, proved to produce `Render` of those segments;
    `ChunkText` runs it on the paragraphs of a text. */
module Chunking {
  import opened Text
  import opened Tokens

  type Pos = n: int | n > 0 witness 1

  /** The `overlap` fraction as an exact ratio `num / den`. */
  datatype Ratio = Ratio(num: int, den: Pos)

  /** 0.2 */
  const DefaultOverlap := Ratio(1, 5)

  // ---------------------------------------------------------------------
  // Splitting into paragraphs

  /** `s.split("\n\n")`: the pieces between non-overlapping blank-line
      separators, found from left to right. */
  function SplitBlankLines(s: string): (pieces: seq<string>)
    ensures |pieces| >= 1
    decreases |s|
  {
    if |s| < 2 then [s]
    else if s[0] == '\n' && s[1] == '\n' then [""] + SplitBlankLines(s[2..])
    else
      var rest := SplitBlankLines(s[1..]);
      [[s[0]] + rest[0]] + rest[1..]
  }

  /** Joining the pieces back with the separator gives the original text. */
  lemma {:induction false} SplitBlankLinesJoin(s: string)
    ensures Join(SplitBlankLines(s), "\n\n") == s
    decreases |s|
  {
    if |s| < 2 {
    } else if s[0] == '\n' && s[1] == '\n' {
      SplitBlankLinesJoin(s[2..]);
      var rest := SplitBlankLines(s[2..]);
      var pieces := [""] + rest;
      assert pieces[0] == "" && pieces[1..] == rest;
      assert s == "\n\n" + s[2..];
    } else {
      SplitBlankLinesJoin(s[1..]);
      JoinPrepend(s[0], SplitBlankLines(s[1..]), "\n\n");
      assert s == [s[0]] + s[1..];
    }
  }

  /** `p` holds no blank-line separator `"\n\n"`. */
  predicate NoBlankLine(p: string) {
    forall i :: 0 <= i < |p| - 1 ==> !(p[i] == '\n' && p[i + 1] == '\n')
  }

  predicate EndsInNewline(p: string) {
    p != [] && p[|p| - 1] == '\n'
  }

  /** How the first piece of a split begins: with the text's first
      character, or, when it is empty and more pieces follow, the text
      begins with a separator. */
  lemma SplitFirstPiece(s: string)
    ensures var pieces := SplitBlankLines(s);
            && (pieces[0] != [] ==> s != [] && pieces[0][0] == s[0])
            && (pieces[0] == [] && |pieces| > 1 ==> |s| >= 2 && s[0] == '\n' && s[1] == '\n')
  {
  }

  /** The text really is cut at every separator, and at the leftmost one of
      a longer run of newlines: no piece holds a separator, and no piece
      but the last ends in a newline (the newline after it would have made
      a separator further left). */
  lemma {:induction false} SplitPiecesHaveNoBlankLine(s: string)
    ensures forall k :: 0 <= k < |SplitBlankLines(s)| ==> NoBlankLine(SplitBlankLines(s)[k])
    ensures forall k :: 0 <= k < |SplitBlankLines(s)| - 1 ==> !EndsInNewline(SplitBlankLines(s)[k])
    decreases |s|
  {
    var pieces := SplitBlankLines(s);
    if |s| < 2 {
      assert pieces == [s];
    } else if s[0] == '\n' && s[1] == '\n' {
      SplitPiecesHaveNoBlankLine(s[2..]);
      var rest := SplitBlankLines(s[2..]);
      assert pieces == [""] + rest;
      assert forall k :: 1 <= k < |pieces| ==> pieces[k] == rest[k - 1];
    } else {
      SplitPiecesHaveNoBlankLine(s[1..]);
      SplitFirstPiece(s[1..]);
      var rest := SplitBlankLines(s[1..]);
      var first := [s[0]] + rest[0];
      assert pieces == [first] + rest[1..];
      assert forall i :: 1 <= i < |first| ==> first[i] == rest[0][i - 1];
      assert NoBlankLine(first);
      assert |pieces| > 1 ==> !EndsInNewline(first) by {
        if |pieces| > 1 && rest[0] != [] {
          assert first[|first| - 1] == rest[0][|rest[0]| - 1];
        }
      }
      assert forall k :: 1 <= k < |pieces| ==> pieces[k] == rest[k];
    }
  }

  /** Every piece is blank to Python's `strip`. */
  predicate AllBlank(pieces: seq<string>) {
    forall k :: 0 <= k < |pieces| ==> AllSpace(pieces[k], IsPythonSpace)
  }

  lemma AllBlankCons(p: string, ps: seq<string>)
    ensures AllBlank([p] + ps) <==> AllSpace(p, IsPythonSpace) && AllBlank(ps)
  {
    var all := [p] + ps;
    assert all[0] == p;
    assert forall k :: 0 <= k < |ps| ==> all[k + 1] == ps[k];
    assert forall k :: 1 <= k < |all| ==> all[k] == ps[k - 1];
  }

  /** A text is all whitespace exactly when every piece of its split is. */
  lemma {:induction false} SplitBlankLinesAllSpace(s: string)
    ensures AllSpace(s, IsPythonSpace) <==> AllBlank(SplitBlankLines(s))
    decreases |s|
  {
    if |s| < 2 {
      assert SplitBlankLines(s) == [s];
      AllBlankCons(s, []);
    } else if s[0] == '\n' && s[1] == '\n' {
      SplitBlankLinesAllSpace(s[2..]);
      var rest := SplitBlankLines(s[2..]);
      assert s == [s[0]] + ([s[1]] + s[2..]);
      AllSpaceCons(s[1], s[2..], IsPythonSpace);
      AllSpaceCons(s[0], [s[1]] + s[2..], IsPythonSpace);
      AllBlankCons("", rest);
    } else {
      SplitBlankLinesAllSpace(s[1..]);
      var rest := SplitBlankLines(s[1..]);
      assert s == [s[0]] + s[1..];
      assert rest == [rest[0]] + rest[1..];
      AllSpaceCons(s[0], s[1..], IsPythonSpace);
      AllSpaceCons(s[0], rest[0], IsPythonSpace);
      AllBlankCons(rest[0], rest[1..]);
      AllBlankCons([s[0]] + rest[0], rest[1..]);
    }
  }

  /** A paragraph as `chunk_text` sees it: not empty, and with no
      whitespace left at either end. */
  predicate IsParagraph(p: string) {
    p != [] && !IsPythonSpace(p[0]) && !IsPythonSpace(p[|p| - 1])
  }

  lemma ParagraphsCons(t: string, rest: seq<string>)
    requires IsParagraph(t)
    requires forall k :: 0 <= k < |rest| ==> IsParagraph(rest[k])
    ensures forall k :: 0 <= k < |[t] + rest| ==> IsParagraph(([t] + rest)[k])
  {
    var paras := [t] + rest;
    assert paras[0] == t;
    assert forall k :: 1 <= k < |paras| ==> paras[k] == rest[k - 1];
  }

  /** `[p.strip() for p in pieces if p.strip()]`: the stripped pieces that
      are not blank, in order. */
  function NonBlank(pieces: seq<string>): (paras: seq<string>)
    ensures |paras| <= |pieces|
    ensures forall k :: 0 <= k < |paras| ==> IsParagraph(paras[k])
    ensures paras == [] <==> AllBlank(pieces)
  {
    if pieces == [] then []
    else
      var t := Trim(pieces[0], IsPythonSpace);
      var rest := NonBlank(pieces[1..]);
      assert pieces == [pieces[0]] + pieces[1..];
      AllBlankCons(pieces[0], pieces[1..]);
      if t == [] then rest
      else
        ParagraphsCons(t, rest);
        [t] + rest
  }

  /** One piece yields its stripped text, unless that is empty. */
  lemma NonBlankSingle(p: string)
    ensures NonBlank([p]) == if Trim(p, IsPythonSpace) == [] then [] else [Trim(p, IsPythonSpace)]
  {
    assert [p][1..] == [];
  }

  /** The comprehension works piece by piece, in order: the paragraphs of
      consecutive pieces are the paragraphs of the first ones followed by
      those of the rest. With `NonBlankSingle` this fixes `NonBlank` on
      every list. */
  lemma {:induction false} NonBlankConcat(a: seq<string>, b: seq<string>)
    ensures NonBlank(a + b) == NonBlank(a) + NonBlank(b)
    decreases |a|
  {
    if a == [] {
      assert a + b == b;
    } else {
      assert (a + b)[0] == a[0];
      assert (a + b)[1..] == a[1..] + b;
      NonBlankConcat(a[1..], b);
    }
  }

  /** The paragraphs of a document (line 79 of the backend). */
  function Paragraphs(text: string): (paras: seq<string>)
    ensures |paras| <= |SplitBlankLines(text)|
    ensures forall k :: 0 <= k < |paras| ==> IsParagraph(paras[k])
  {
    NonBlank(SplitBlankLines(text))
  }

  /** A text yields no paragraph exactly when it is empty or whitespace. */
  lemma ParagraphsEmpty(text: string)
    ensures Paragraphs(text) == [] <==> AllSpace(text, IsPythonSpace)
  {
    SplitBlankLinesAllSpace(text);
  }

  // ---------------------------------------------------------------------
  // Packing paragraphs into chunks

  /** The paragraphs `paras[lo..hi]` of one chunk. */
  datatype Segment = Segment(lo: nat, hi: nat)

  /** The packing state after some paragraphs: the chunks flushed so far and
      the index where the chunk under construction (`current`) starts. */
  datatype Packing = Packing(flushed: seq<Segment>, start: nat)

  function Min(a: int, b: int): int { if a <= b then a else b }

  /** `n * m`, by repeated addition. The packing proofs only ever need the
      overlap length as an opaque number; writing it by recursion keeps them
      free of nonlinear arithmetic, and `ProductIsMul` and `QuotientIsDiv`
      tie it back to `*` and `/`. */
  function Product(n: nat, m: nat): nat
  {
    if n == 0 then 0 else Product(n - 1, m) + m
  }

  /** `x // d`, by repeated subtraction. */
  function Quotient(x: nat, d: Pos): nat
  {
    if x < d then 0 else 1 + Quotient(x - d, d)
  }

  lemma {:induction false} ProductIsMul(n: nat, m: nat)
    ensures Product(n, m) == n * m
  {
    if n > 0 {
      ProductIsMul(n - 1, m);
    }
  }

  /** Euclidean division is determined by its quotient-remainder equation. */
  lemma DivUnique(x: int, d: Pos, q: int, r: int)
    requires x == d * q + r && 0 <= r < d
    ensures x / d == q
  {
    var k := q - x / d;
    assert d * k == x % d - r;
  }

  lemma {:induction false} QuotientIsDiv(x: nat, d: Pos)
    ensures Quotient(x, d) == x / d
    decreases x
  {
    if x >= d {
      QuotientIsDiv(x - d, d);
      var q, r := (x - d) / d, (x - d) % d;
      assert x == d * (q + 1) + r;
      DivUnique(x, d, q + 1, r);
    } else {
      DivUnique(x, d, 0, x);
    }
  }

  /** The magnitude of `n * overlap`, rounded down. */
  function Magnitude(n: nat, overlap: Ratio): nat
  {
    Quotient(Product(n, if overlap.num >= 0 then overlap.num else -overlap.num), overlap.den)
  }

  lemma {:induction false} ProductMono(n: nat, m: nat, m': nat)
    requires m <= m'
    ensures Product(n, m) <= Product(n, m')
  {
    if n > 0 {
      ProductMono(n - 1, m, m');
    }
  }

  lemma {:induction false} QuotientMono(x: nat, y: nat, d: Pos)
    requires x <= y
    ensures Quotient(x, d) <= Quotient(y, d)
    decreases y
  {
    if x >= d {
      QuotientMono(x - d, y - d, d);
    }
  }

  lemma {:induction false} QuotientOfProduct(n: nat, d: Pos)
    ensures Quotient(Product(n, d), d) == n
  {
    if n > 0 {
      QuotientOfProduct(n - 1, d);
    }
  }

  /** A fraction of at most one of `n` is at most `n`. */
  lemma MagnitudeAtMost(n: nat, overlap: Ratio)
    requires 0 <= overlap.num <= overlap.den
    ensures Magnitude(n, overlap) <= n
  {
    ProductMono(n, overlap.num, overlap.den);
    QuotientMono(Product(n, overlap.num), Product(n, overlap.den), overlap.den);
    QuotientOfProduct(n, overlap.den);
  }

  /** `int(n * overlap)`: the exact product truncated toward zero. It is
      written through `Product` and `Quotient` rather than `*` and `/` so
      that the packing proofs, which use `Kept` everywhere, stay free of
      nonlinear arithmetic; `OverlapLenIsTruncation` states it with `*` and
      `/`. */
  function OverlapLen(n: nat, overlap: Ratio): int
  {
    if overlap.num >= 0 then Magnitude(n, overlap) else -(Magnitude(n, overlap) as int)
  }

  /** A non-negative overlap never gives a negative length, and one of at
      most 1 never carries more than the whole chunk. */
  lemma OverlapLenBounds(n: nat, overlap: Ratio)
    ensures overlap.num >= 0 ==> OverlapLen(n, overlap) >= 0
    ensures 0 <= overlap.num <= overlap.den ==> OverlapLen(n, overlap) <= n
  {
    if 0 <= overlap.num <= overlap.den {
      MagnitudeAtMost(n, overlap);
    }
  }

  /** `OverlapLen` is the product `n * num / den` truncated toward zero. */
  lemma OverlapLenIsTruncation(n: nat, overlap: Ratio)
    ensures OverlapLen(n, overlap) == if overlap.num >= 0 then (n * overlap.num) / overlap.den
                                      else -((n * -overlap.num) / overlap.den)
  {
    var m := if overlap.num >= 0 then overlap.num else -overlap.num;
    ProductIsMul(n, m);
    QuotientIsDiv(Product(n, m), overlap.den);
  }

  /** With the default overlap of 0.2 the carried length is `n // 5`. */
  lemma DefaultOverlapLen(n: nat)
    ensures OverlapLen(n, DefaultOverlap) == n / 5
  {
    OverlapLenIsTruncation(n, DefaultOverlap);
  }

  /** How many paragraphs of an `n`-paragraph chunk are carried over: the
      slice `current[-len:]` keeps the last `len` of them (all `n` when `len`
      exceeds `n`), and nothing is kept when `len` is not positive. */
  function Kept(n: nat, overlap: Ratio): (k: nat)
    ensures k <= n
  {
    var len := OverlapLen(n, overlap);
    if len > 0 then Min(len, n) else 0
  }

  /** The state of the loop of `chunk_text` after the first `i` paragraphs.
      The chunk under construction is `paras[p.start..i]`, and after the
      first paragraph it is never empty. */
  function Pack(paras: seq<string>, count: Tokenizer, maxTokens: int, overlap: Ratio, i: nat): (p: Packing)
    requires i <= |paras|
    ensures p.start <= i && (i > 0 ==> p.start < i)
    ensures |p.flushed| <= i
    decreases i
  {
    if i == 0 then Packing([], 0)
    else
      var prev := Pack(paras, count, maxTokens, overlap, i - 1);
      if SumTokens(count, paras[prev.start..i - 1]) + count(paras[i - 1]) > maxTokens then
        Packing(prev.flushed + [Segment(prev.start, i - 1)],
                OverlapStart(Segment(prev.start, i - 1), overlap))
      else prev
  }

  ghost predicate InBounds(segs: seq<Segment>, n: nat) {
    forall j :: 0 <= j < |segs| ==> segs[j].lo <= segs[j].hi <= n
  }

  /** The start of the chunk that follows chunk `a`: where the paragraphs
      carried over from `a` begin. */
  function OverlapStart(a: Segment, overlap: Ratio): nat
  {
    if a.lo <= a.hi then a.hi - Kept(a.hi - a.lo, overlap) else a.lo
  }

  /** Chunk `b` comes right after chunk `a`: it ends strictly later and starts
      exactly where `a`'s overlap begins. */
  ghost predicate Follows(a: Segment, b: Segment, overlap: Ratio) {
    a.lo <= a.hi < b.hi && b.lo == OverlapStart(a, overlap)
  }

  ghost predicate Chained(segs: seq<Segment>, overlap: Ratio) {
    forall j :: 0 <= j < |segs| - 1 ==> Follows(segs[j], segs[j + 1], overlap)
  }

  /** The shape of the chunk list of an `n`-paragraph document: there is a
      chunk exactly when there is a paragraph, the first chunk starts at
      the first paragraph, the last ends at the last one, and consecutive
      chunks are chained through the overlap. */
  ghost predicate Tiles(segs: seq<Segment>, n: nat, overlap: Ratio) {
    && (segs == [] <==> n == 0)
    && InBounds(segs, n)
    && (segs != [] ==> segs[0].lo == 0 && segs[|segs| - 1].hi == n)
    && Chained(segs, overlap)
  }

  /** Every range is well formed and ends before `i`. */
  ghost predicate Below(segs: seq<Segment>, i: nat) {
    forall j :: 0 <= j < |segs| ==> segs[j].lo <= segs[j].hi < i
  }

  ghost predicate PackShape(p: Packing, i: nat, overlap: Ratio) {
    && Below(p.flushed, i)
    && Chained(p.flushed, overlap)
    && (p.flushed == [] ==> p.start == 0)
    && (p.flushed != [] ==>
          p.flushed[0].lo == 0 && p.start == OverlapStart(p.flushed[|p.flushed| - 1], overlap))
  }

  /** One step of the fold, spelled out. */
  lemma PackStep(paras: seq<string>, count: Tokenizer, maxTokens: int, overlap: Ratio, i: nat)
    requires i < |paras|
    ensures var prev := Pack(paras, count, maxTokens, overlap, i);
            var seg := Segment(prev.start, i);
            Pack(paras, count, maxTokens, overlap, i + 1)
              == if SumTokens(count, paras[prev.start..i]) + count(paras[i]) > maxTokens
                 then Packing(prev.flushed + [seg], OverlapStart(seg, overlap))
                 else prev
  {
  }

  /** Flushing the chunk `paras[p.start..i]` keeps the shape. */
  lemma PackShapeFlush(p: Packing, i: nat, overlap: Ratio)
    requires PackShape(p, i, overlap) && p.start <= i
    ensures var seg := Segment(p.start, i);
            PackShape(Packing(p.flushed + [seg], OverlapStart(seg, overlap)), i + 1, overlap)
  {
    var seg := Segment(p.start, i);
    var F := p.flushed + [seg];
    assert forall j :: 0 <= j < |p.flushed| ==> F[j] == p.flushed[j];
    assert Below(F, i + 1);
    forall j | 0 <= j < |F| - 1
      ensures Follows(F[j], F[j + 1], overlap)
    {
      if j < |F| - 2 {
        assert Follows(p.flushed[j], p.flushed[j + 1], overlap);
      }
    }
  }

  lemma BelowWeaken(segs: seq<Segment>, i: nat, n: nat)
    requires Below(segs, i) && i <= n
    ensures Below(segs, n + 1) && InBounds(segs, n)
  {
  }

  /** Taking in one more paragraph without a flush keeps the shape. */
  lemma PackShapeKeep(p: Packing, i: nat, overlap: Ratio)
    requires PackShape(p, i, overlap)
    ensures PackShape(p, i + 1, overlap)
  {
    BelowWeaken(p.flushed, i, i);
  }

  lemma {:induction false} PackShapeHolds(paras: seq<string>, count: Tokenizer, maxTokens: int, overlap: Ratio, i: nat)
    requires i <= |paras|
    ensures PackShape(Pack(paras, count, maxTokens, overlap, i), i, overlap)
    ensures InBounds(Pack(paras, count, maxTokens, overlap, i).flushed, |paras|)
    decreases i
  {
    var p := Pack(paras, count, maxTokens, overlap, i);
    if i > 0 {
      var prev := Pack(paras, count, maxTokens, overlap, i - 1);
      PackShapeHolds(paras, count, maxTokens, overlap, i - 1);
      var seg := Segment(prev.start, i - 1);
      if SumTokens(count, paras[prev.start..i - 1]) + count(paras[i - 1]) > maxTokens {
        assert p == Packing(prev.flushed + [seg], OverlapStart(seg, overlap));
        PackShapeFlush(prev, i - 1, overlap);
      } else {
        assert p == prev;
        PackShapeKeep(prev, i - 1, overlap);
      }
    }
    BelowWeaken(p.flushed, i, |paras|);
  }

  /** The chunks `chunk_text` returns, as paragraph ranges: the flushed ones
      and, when there is any paragraph, the final `current`. */
  function Segments(paras: seq<string>, count: Tokenizer, maxTokens: int, overlap: Ratio): (segs: seq<Segment>)
    ensures InBounds(segs, |paras|)
    ensures |segs| <= |paras| + 1
  {
    if paras == [] then []
    else
      var p := Pack(paras, count, maxTokens, overlap, |paras|);
      PackShapeHolds(paras, count, maxTokens, overlap, |paras|);
      p.flushed + [Segment(p.start, |paras|)]
  }

  /** Every chunk is `"\n".join` of its paragraphs. */
  function Render(paras: seq<string>, segs: seq<Segment>): (chunks: seq<string>)
    requires InBounds(segs, |paras|)
    ensures |chunks| == |segs|
  {
    if segs == [] then []
    else
      var last := segs[|segs| - 1];
      Render(paras, segs[..|segs| - 1]) + [Join(paras[last.lo..last.hi], "\n")]
  }

  /** Chunk `j` is the paragraphs of segment `j` joined by newlines. */
  lemma {:induction false} RenderIndex(paras: seq<string>, segs: seq<Segment>)
    requires InBounds(segs, |paras|)
    ensures |Render(paras, segs)| == |segs|
    ensures forall j :: 0 <= j < |segs| ==>
              Render(paras, segs)[j] == Join(paras[segs[j].lo..segs[j].hi], "\n")
  {
    if segs != [] {
      var init := segs[..|segs| - 1];
      RenderIndex(paras, init);
      assert forall j :: 0 <= j < |init| ==> init[j] == segs[j];
    }
  }

  /** The chunks tile the paragraphs: see `Tiles`. */
  lemma SegmentsTile(paras: seq<string>, count: Tokenizer, maxTokens: int, overlap: Ratio)
    ensures Tiles(Segments(paras, count, maxTokens, overlap), |paras|, overlap)
  {
    if paras != [] {
      PackShapeHolds(paras, count, maxTokens, overlap, |paras|);
    }
  }

  /** Paragraph `k` lies in one of the chunks. */
  ghost predicate Covered(segs: seq<Segment>, k: nat) {
    exists j :: 0 <= j < |segs| && segs[j].lo <= k < segs[j].hi
  }

  /** Every paragraph lies in some chunk, and chunk starts never move back:
      paragraphs appear in their original order within and across chunks. */
  lemma TilesCover(segs: seq<Segment>, n: nat, overlap: Ratio)
    requires Tiles(segs, n, overlap)
    ensures forall k :: 0 <= k < n ==> Covered(segs, k)
    ensures forall j :: 0 <= j < |segs| - 1 ==> segs[j].lo <= segs[j + 1].lo
  {
    forall k | 0 <= k < n
      ensures Covered(segs, k)
    {
      CoverFrom(segs, n, overlap, k, 0);
    }
    forall j | 0 <= j < |segs| - 1
      ensures segs[j].lo <= segs[j + 1].lo
    {
      assert Follows(segs[j], segs[j + 1], overlap);
    }
  }

  lemma {:induction false} CoverFrom(segs: seq<Segment>, n: nat, overlap: Ratio, k: nat, j: nat)
    requires Tiles(segs, n, overlap) && k < n
    requires j < |segs| && segs[j].lo <= k
    ensures exists j' :: j <= j' < |segs| && segs[j'].lo <= k < segs[j'].hi
    decreases |segs| - j
  {
    if k >= segs[j].hi {
      assert j < |segs| - 1;
      assert Follows(segs[j], segs[j + 1], overlap);
      CoverFrom(segs, n, overlap, k, j + 1);
    }
  }

  // ---------------------------------------------------------------------
  // The token budget

  function PrevHi(segs: seq<Segment>, j: nat): nat
    requires j < |segs|
  {
    if j == 0 then 0 else segs[j - 1].hi
  }

  /** A chunk either fits the budget, or it holds at most one paragraph
      beyond the end of the chunk before it (it is the carried overlap plus
      the one paragraph that did not fit). */
  ghost predicate ChunkFits(paras: seq<string>, count: Tokenizer, maxTokens: int, seg: Segment, prevHi: nat)
    requires seg.lo <= seg.hi <= |paras|
  {
    SumTokens(count, paras[seg.lo..seg.hi]) <= maxTokens || seg.hi <= prevHi + 1
  }

  ghost predicate WithinBudget(paras: seq<string>, count: Tokenizer, maxTokens: int, segs: seq<Segment>)
    requires InBounds(segs, |paras|)
  {
    forall j :: 0 <= j < |segs| ==> ChunkFits(paras, count, maxTokens, segs[j], PrevHi(segs, j))
  }

  lemma InBoundsSnoc(segs: seq<Segment>, seg: Segment, n: nat)
    requires InBounds(segs, n) && seg.lo <= seg.hi <= n
    ensures InBounds(segs + [seg], n)
  {
    assert forall j :: 0 <= j < |segs| ==> (segs + [seg])[j] == segs[j];
  }

  /** Chunk `j` of `segs + [seg]` fits when `segs` is within budget and
      `seg` fits after it. */
  lemma ChunkFitsSnoc(paras: seq<string>, count: Tokenizer, maxTokens: int, segs: seq<Segment>, seg: Segment, j: nat)
    requires InBounds(segs, |paras|) && seg.lo <= seg.hi <= |paras| && j <= |segs|
    requires WithinBudget(paras, count, maxTokens, segs)
    requires ChunkFits(paras, count, maxTokens, seg, if segs == [] then 0 else segs[|segs| - 1].hi)
    ensures var all := segs + [seg];
            all[j].lo <= all[j].hi <= |paras| && ChunkFits(paras, count, maxTokens, all[j], PrevHi(all, j))
  {
    var all := segs + [seg];
    if j < |segs| {
      assert all[j] == segs[j];
      assert PrevHi(all, j) == PrevHi(segs, j);
    } else {
      assert all[j] == seg;
      assert PrevHi(all, j) == if segs == [] then 0 else segs[|segs| - 1].hi;
    }
  }

  /** Appending a chunk that fits after `segs` keeps the whole list within budget. */
  lemma WithinBudgetSnoc(paras: seq<string>, count: Tokenizer, maxTokens: int, segs: seq<Segment>, seg: Segment)
    requires InBounds(segs, |paras|) && seg.lo <= seg.hi <= |paras|
    requires WithinBudget(paras, count, maxTokens, segs)
    requires ChunkFits(paras, count, maxTokens, seg, if segs == [] then 0 else segs[|segs| - 1].hi)
    ensures InBounds(segs + [seg], |paras|)
    ensures WithinBudget(paras, count, maxTokens, segs + [seg])
  {
    var all := segs + [seg];
    InBoundsSnoc(segs, seg, |paras|);
    forall j | 0 <= j < |all|
      ensures ChunkFits(paras, count, maxTokens, all[j], PrevHi(all, j))
    {
      ChunkFitsSnoc(paras, count, maxTokens, segs, seg, j);
    }
  }

  /** What the fold knows about the budget after `i` paragraphs: the flushed
      chunks are within budget, and the chunk under construction fits unless
      its last paragraph came in with a flush. */
  ghost predicate BudgetState(paras: seq<string>, count: Tokenizer, maxTokens: int, p: Packing, i: nat)
  {
    && i <= |paras| && p.start <= i
    && InBounds(p.flushed, |paras|)
    && WithinBudget(paras, count, maxTokens, p.flushed)
    && (i > 0 ==> SumTokens(count, paras[p.start..i]) <= maxTokens
                  || (p.flushed != [] && p.flushed[|p.flushed| - 1].hi == i - 1))
  }

  lemma BudgetStep(paras: seq<string>, count: Tokenizer, maxTokens: int, overlap: Ratio, p: Packing, i: nat)
    requires i < |paras| && BudgetState(paras, count, maxTokens, p, i)
    ensures var seg := Segment(p.start, i);
            if SumTokens(count, paras[p.start..i]) + count(paras[i]) > maxTokens
            then BudgetState(paras, count, maxTokens, Packing(p.flushed + [seg], OverlapStart(seg, overlap)), i + 1)
            else BudgetState(paras, count, maxTokens, p, i + 1)
  {
    var cur := paras[p.start..i];
    assert paras[p.start..i + 1] == cur + [paras[i]];
    SumTokensSnoc(count, cur, paras[i]);
    if SumTokens(count, cur) + count(paras[i]) > maxTokens {
      WithinBudgetSnoc(paras, count, maxTokens, p.flushed, Segment(p.start, i));
    }
  }

  lemma {:induction false} PackBudget(paras: seq<string>, count: Tokenizer, maxTokens: int, overlap: Ratio, i: nat)
    requires i <= |paras|
    ensures BudgetState(paras, count, maxTokens, Pack(paras, count, maxTokens, overlap, i), i)
    decreases i
  {
    if i > 0 {
      PackBudget(paras, count, maxTokens, overlap, i - 1);
      PackStep(paras, count, maxTokens, overlap, i - 1);
      BudgetStep(paras, count, maxTokens, overlap, Pack(paras, count, maxTokens, overlap, i - 1), i - 1);
    }
  }

  lemma SegmentsBudget(paras: seq<string>, count: Tokenizer, maxTokens: int, overlap: Ratio)
    ensures WithinBudget(paras, count, maxTokens, Segments(paras, count, maxTokens, overlap))
  {
    if paras != [] {
      var n := |paras|;
      PackBudget(paras, count, maxTokens, overlap, n);
      PackShapeHolds(paras, count, maxTokens, overlap, n);
      var p := Pack(paras, count, maxTokens, overlap, n);
      WithinBudgetSnoc(paras, count, maxTokens, p.flushed, Segment(p.start, n));
    }
  }

  // ---------------------------------------------------------------------
  // The empty chunk

  /** The first flush happens on the first paragraph exactly when that
      paragraph alone is over the budget. */
  lemma {:induction false} PackFirstFlush(paras: seq<string>, count: Tokenizer, maxTokens: int, overlap: Ratio, i: nat)
    requires 1 <= i <= |paras|
    ensures var p := Pack(paras, count, maxTokens, overlap, i);
            (p.flushed != [] && p.flushed[0].hi == 0) <==> count(paras[0]) > maxTokens
    decreases i
  {
    if i == 1 {
      assert paras[0..0] == [];
    } else {
      PackFirstFlush(paras, count, maxTokens, overlap, i - 1);
      var prev := Pack(paras, count, maxTokens, overlap, i - 1);
      var p := Pack(paras, count, maxTokens, overlap, i);
      if p != prev {
        assert p.flushed == prev.flushed + [Segment(prev.start, i - 1)];
        assert p.flushed[0] == if prev.flushed == [] then Segment(prev.start, i - 1) else prev.flushed[0];
      }
    }
  }

  /** Only the first chunk can be empty, and it is empty exactly when the
      first paragraph alone exceeds the budget. */
  lemma SegmentsEmpty(paras: seq<string>, count: Tokenizer, maxTokens: int, overlap: Ratio)
    ensures var segs := Segments(paras, count, maxTokens, overlap);
            && (forall j :: 0 < j < |segs| ==> segs[j].lo < segs[j].hi)
            && ((exists j :: 0 <= j < |segs| && segs[j].lo == segs[j].hi)
                <==> paras != [] && count(paras[0]) > maxTokens)
  {
    var segs := Segments(paras, count, maxTokens, overlap);
    SegmentsTile(paras, count, maxTokens, overlap);
    if paras != [] {
      var p := Pack(paras, count, maxTokens, overlap, |paras|);
      PackFirstFlush(paras, count, maxTokens, overlap, |paras|);
      assert segs == p.flushed + [Segment(p.start, |paras|)];
      assert segs[0].lo == 0;
      assert segs[0].hi == 0 <==> count(paras[0]) > maxTokens;
      forall j | 0 < j < |segs|
        ensures segs[j].lo < segs[j].hi
      {
        assert segs[j - 1].lo <= segs[j - 1].hi < segs[j].hi;
        assert Follows(segs[j - 1], segs[j], overlap);
      }
    }
  }

  /** With non-empty paragraphs, a chunk is `""` exactly when its range is empty. */
  lemma RenderEmpty(paras: seq<string>, segs: seq<Segment>)
    requires InBounds(segs, |paras|)
    requires forall k :: 0 <= k < |paras| ==> IsParagraph(paras[k])
    ensures |Render(paras, segs)| == |segs|
    ensures forall j :: 0 <= j < |segs| ==>
              (Render(paras, segs)[j] == [] <==> segs[j].lo == segs[j].hi)
  {
    RenderIndex(paras, segs);
    forall j | 0 <= j < |segs|
      ensures Render(paras, segs)[j] == [] <==> segs[j].lo == segs[j].hi
    {
      var part := paras[segs[j].lo..segs[j].hi];
      if part != [] {
        assert part[0] == paras[segs[j].lo];
      }
    }
  }

  // ---------------------------------------------------------------------
  // chunk_text

  lemma SliceSuffix(xs: seq<string>, a: nat, b: nat, k: nat)
    requires a <= b <= |xs| && k <= b - a
    ensures xs[a..b][b - a - k..] == xs[b - k..b]
  {
  }

  lemma SliceSnoc(xs: seq<string>, a: nat, b: nat)
    requires a <= b < |xs|
    ensures xs[a..b + 1] == xs[a..b] + [xs[b]]
  {
  }

  /** Rendering one more chunk appends its text. */
  lemma RenderSnoc(paras: seq<string>, segs: seq<Segment>, seg: Segment)
    requires InBounds(segs, |paras|) && seg.lo <= seg.hi <= |paras|
    ensures InBounds(segs + [seg], |paras|)
    ensures Render(paras, segs + [seg]) == Render(paras, segs) + [Join(paras[seg.lo..seg.hi], "\n")]
  {
    assert (segs + [seg])[..|segs|] == segs;
  }

  /** The paragraphs the loop of `chunk_text` carries over into the next
      chunk after flushing `current`: `current[-len:]` when the overlap
      length `len` is positive, nothing otherwise. */
  function Carry(current: seq<string>, overlap: Ratio): (kept: seq<string>)
    ensures |kept| == Kept(|current|, overlap)
    ensures kept == current[|current| - |kept|..]
  {
    var len := OverlapLen(|current|, overlap);
    if len > 0 then current[|current| - Min(len, |current|)..] else []
  }

  /** What `Carry` keeps of a run of paragraphs is the run's tail, so the
      next chunk is that tail followed by the paragraph that overflowed. */
  lemma CarrySlice(xs: seq<string>, a: nat, b: nat, overlap: Ratio)
    requires a <= b < |xs|
    ensures Carry(xs[a..b], overlap) + [xs[b]] == xs[b - Kept(b - a, overlap)..b + 1]
  {
    var k := Kept(b - a, overlap);
    SliceSuffix(xs, a, b, k);
    SliceSnoc(xs, b - k, b);
  }

  /** The chunk that follows `paras[start..i]` once paragraph `i` is added. */
  lemma CarryAt(paras: seq<string>, start: nat, i: nat, nextStart: nat, overlap: Ratio)
    requires start <= i < |paras| && nextStart == OverlapStart(Segment(start, i), overlap)
    ensures paras[nextStart..i + 1] == Carry(paras[start..i], overlap) + [paras[i]]
  {
    CarrySlice(paras, start, i, overlap);
  }

  /** The loop pass of `PackAdvance` when paragraph `i` does not fit. */
  lemma PackFlushCase(paras: seq<string>, count: Tokenizer, maxTokens: int, overlap: Ratio, i: nat)
    requires i < |paras|
    requires var prev := Pack(paras, count, maxTokens, overlap, i);
             SumTokens(count, paras[prev.start..i]) + count(paras[i]) > maxTokens
    ensures var prev := Pack(paras, count, maxTokens, overlap, i);
            var next := Pack(paras, count, maxTokens, overlap, i + 1);
            && next.flushed == prev.flushed + [Segment(prev.start, i)]
            && paras[next.start..i + 1] == Carry(paras[prev.start..i], overlap) + [paras[i]]
  {
    var prev := Pack(paras, count, maxTokens, overlap, i);
    var next := Pack(paras, count, maxTokens, overlap, i + 1);
    PackStep(paras, count, maxTokens, overlap, i);
    assert next == Packing(prev.flushed + [Segment(prev.start, i)], OverlapStart(Segment(prev.start, i), overlap));
    CarryAt(paras, prev.start, i, next.start, overlap);
  }

  /** The loop pass of `PackAdvance` when paragraph `i` fits. */
  lemma PackKeepCase(paras: seq<string>, count: Tokenizer, maxTokens: int, overlap: Ratio, i: nat)
    requires i < |paras|
    requires var prev := Pack(paras, count, maxTokens, overlap, i);
             SumTokens(count, paras[prev.start..i]) + count(paras[i]) <= maxTokens
    ensures var prev := Pack(paras, count, maxTokens, overlap, i);
            var next := Pack(paras, count, maxTokens, overlap, i + 1);
            && next == prev
            && paras[next.start..i + 1] == paras[prev.start..i] + [paras[i]]
  {
    var prev := Pack(paras, count, maxTokens, overlap, i);
    PackStep(paras, count, maxTokens, overlap, i);
    SliceSnoc(paras, prev.start, i);
  }

  /** One pass of the loop of `chunk_text`, stated on the reference fold:
      when paragraph `i` does not fit, the chunk `paras[start..i]` is flushed
      and the new chunk is the carried-over suffix followed by paragraph `i`;
      otherwise paragraph `i` joins the chunk. */
  lemma PackAdvance(paras: seq<string>, count: Tokenizer, maxTokens: int, overlap: Ratio, i: nat, prev: Packing)
    returns (next: Packing)
    requires i < |paras| && prev == Pack(paras, count, maxTokens, overlap, i)
    ensures next == Pack(paras, count, maxTokens, overlap, i + 1)
    ensures prev.start <= i && InBounds(next.flushed, |paras|)
    ensures SumTokens(count, paras[prev.start..i]) + count(paras[i]) > maxTokens ==>
              && next.flushed == prev.flushed + [Segment(prev.start, i)]
              && paras[next.start..i + 1] == Carry(paras[prev.start..i], overlap) + [paras[i]]
    ensures SumTokens(count, paras[prev.start..i]) + count(paras[i]) <= maxTokens ==>
              next == prev && paras[next.start..i + 1] == paras[prev.start..i] + [paras[i]]
  {
    next := Pack(paras, count, maxTokens, overlap, i + 1);
    PackShapeHolds(paras, count, maxTokens, overlap, i + 1);
    if SumTokens(count, paras[prev.start..i]) + count(paras[i]) > maxTokens {
      PackFlushCase(paras, count, maxTokens, overlap, i);
    } else {
      PackKeepCase(paras, count, maxTokens, overlap, i);
    }
  }

  /** The reference chunks are the flushed ones followed by the chunk still
      open after the last paragraph, when there is one. */
  lemma RenderSegments(paras: seq<string>, count: Tokenizer, maxTokens: int, overlap: Ratio)
    ensures var last := Pack(paras, count, maxTokens, overlap, |paras|);
            && InBounds(last.flushed, |paras|)
            && Render(paras, Segments(paras, count, maxTokens, overlap))
               == if paras == [] then Render(paras, last.flushed)
                  else Render(paras, last.flushed) + [Join(paras[last.start..|paras|], "\n")]
  {
    var last := Pack(paras, count, maxTokens, overlap, |paras|);
    PackShapeHolds(paras, count, maxTokens, overlap, |paras|);
    if paras != [] {
      RenderSnoc(paras, last.flushed, Segment(last.start, |paras|));
    }
  }

  /** The variables of the loop of `chunk_text`. */
  datatype LoopVars = LoopVars(chunks: seq<string>, current: seq<string>, currentTokens: int)

  /** One pass of the loop of `chunk_text` over paragraph `para`. */
  function Pass(v: LoopVars, para: string, count: Tokenizer, maxTokens: int, overlap: Ratio): LoopVars
  {
    var tokens := count(para);
    if v.currentTokens + tokens > maxTokens then
      var kept := Carry(v.current, overlap);
      LoopVars(v.chunks + [Join(v.current, "\n")], kept + [para], SumTokens(count, kept) + tokens)
    else LoopVars(v.chunks, v.current + [para], v.currentTokens + tokens)
  }

  /** What one pass keeps: the chunks so far stay as they are and at most
      one is appended; the new `current` is a tail of the old one followed
      by `para`; and `current_tokens` stays the token sum of `current`. */
  lemma PassKeeps(v: LoopVars, para: string, count: Tokenizer, maxTokens: int, overlap: Ratio)
    ensures var w := Pass(v, para, count, maxTokens, overlap);
            && |v.chunks| <= |w.chunks| <= |v.chunks| + 1 && w.chunks[..|v.chunks|] == v.chunks
            && w.current != [] && w.current[|w.current| - 1] == para
            && |w.current| - 1 <= |v.current|
            && w.current[..|w.current| - 1] == v.current[|v.current| - (|w.current| - 1)..]
            && (v.currentTokens == SumTokens(count, v.current) ==> w.currentTokens == SumTokens(count, w.current))
  {
    var w := Pass(v, para, count, maxTokens, overlap);
    if v.currentTokens + count(para) > maxTokens {
      var kept := Carry(v.current, overlap);
      assert w == LoopVars(v.chunks + [Join(v.current, "\n")], kept + [para], SumTokens(count, kept) + count(para));
      assert w.chunks[..|v.chunks|] == v.chunks;
      assert w.current[..|w.current| - 1] == kept;
      SumTokensSnoc(count, kept, para);
    } else {
      assert w == LoopVars(v.chunks, v.current + [para], v.currentTokens + count(para));
      assert w.current[..|w.current| - 1] == v.current;
      assert v.current[|v.current| - (|w.current| - 1)..] == v.current;
      SumTokensSnoc(count, v.current, para);
    }
  }

  /** The loop variables after the first `i` paragraphs. */
  ghost function Run(paras: seq<string>, count: Tokenizer, maxTokens: int, overlap: Ratio, i: nat): LoopVars
    requires i <= |paras|
    decreases i
  {
    if i == 0 then LoopVars([], [], 0)
    else Pass(Run(paras, count, maxTokens, overlap, i - 1), paras[i - 1], count, maxTokens, overlap)
  }

  /** The loop invariant of `chunk_text` after the first `i` paragraphs:
      the chunks emitted so far are the flushed segments of the fold,
      `current` is the open segment, and `current_tokens` is its token
      count. */
  ghost predicate LoopInv(paras: seq<string>, count: Tokenizer, maxTokens: int, overlap: Ratio, i: nat,
                         chunks: seq<string>, current: seq<string>, currentTokens: int)
  {
    && i <= |paras|
    && var p := Pack(paras, count, maxTokens, overlap, i);
       && InBounds(p.flushed, |paras|)
       && current == paras[p.start..i]
       && chunks == Render(paras, p.flushed)
       && currentTokens == SumTokens(count, current)
  }

  /** One pass of the loop keeps the invariant, whether it flushes the open
      chunk or extends it. */
  lemma LoopStep(paras: seq<string>, count: Tokenizer, maxTokens: int, overlap: Ratio, i: nat,
                 chunks: seq<string>, current: seq<string>, currentTokens: int)
    requires i < |paras| && LoopInv(paras, count, maxTokens, overlap, i, chunks, current, currentTokens)
    ensures currentTokens + count(paras[i]) > maxTokens ==>
              LoopInv(paras, count, maxTokens, overlap, i + 1,
                      chunks + [Join(current, "\n")], Carry(current, overlap) + [paras[i]],
                      SumTokens(count, Carry(current, overlap)) + count(paras[i]))
    ensures currentTokens + count(paras[i]) <= maxTokens ==>
              LoopInv(paras, count, maxTokens, overlap, i + 1,
                      chunks, current + [paras[i]], currentTokens + count(paras[i]))
  {
    var prev := Pack(paras, count, maxTokens, overlap, i);
    var next := PackAdvance(paras, count, maxTokens, overlap, i, prev);
    var flush := currentTokens + count(paras[i]) > maxTokens;
    var kept := if flush then Carry(current, overlap) else current;
    if flush {
      RenderSnoc(paras, prev.flushed, Segment(prev.start, i));
    }
    SumTokensSnoc(count, kept, paras[i]);
  }

  /** The loop variables the reference segmentation predicts after the
      first `i` paragraphs: the flushed segments rendered, the open segment,
      and its token count. */
  ghost function Expected(paras: seq<string>, count: Tokenizer, maxTokens: int, overlap: Ratio, i: nat): LoopVars
    requires i <= |paras|
  {
    var p := Pack(paras, count, maxTokens, overlap, i);
    PackShapeHolds(paras, count, maxTokens, overlap, i);
    var current := paras[p.start..i];
    LoopVars(Render(paras, p.flushed), current, SumTokens(count, current))
  }

  /** The predicted variables meet the invariant, and the invariant pins
      the variables down to the predicted ones. */
  lemma ExpectedInv(paras: seq<string>, count: Tokenizer, maxTokens: int, overlap: Ratio, i: nat, v: LoopVars)
    requires i <= |paras|
    ensures var e := Expected(paras, count, maxTokens, overlap, i);
            LoopInv(paras, count, maxTokens, overlap, i, e.chunks, e.current, e.currentTokens)
    ensures LoopInv(paras, count, maxTokens, overlap, i, v.chunks, v.current, v.currentTokens) ==>
              v == Expected(paras, count, maxTokens, overlap, i)
  {
    PackShapeHolds(paras, count, maxTokens, overlap, i);
  }

  /** One pass of the loop turns the predicted variables after `i`
      paragraphs into those after `i + 1`. */
  lemma ExpectedStep(paras: seq<string>, count: Tokenizer, maxTokens: int, overlap: Ratio, i: nat)
    requires i < |paras|
    ensures Pass(Expected(paras, count, maxTokens, overlap, i), paras[i], count, maxTokens, overlap)
              == Expected(paras, count, maxTokens, overlap, i + 1)
  {
    var e := Expected(paras, count, maxTokens, overlap, i);
    var w := Pass(e, paras[i], count, maxTokens, overlap);
    ExpectedInv(paras, count, maxTokens, overlap, i, e);
    LoopStep(paras, count, maxTokens, overlap, i, e.chunks, e.current, e.currentTokens);
    if e.currentTokens + count(paras[i]) > maxTokens {
      var kept := Carry(e.current, overlap);
      assert w == LoopVars(e.chunks + [Join(e.current, "\n")], kept + [paras[i]], SumTokens(count, kept) + count(paras[i]));
    } else {
      assert w == LoopVars(e.chunks, e.current + [paras[i]], e.currentTokens + count(paras[i]));
    }
    ExpectedInv(paras, count, maxTokens, overlap, i + 1, w);
  }

  /** The run of the loop is the predicted one, pass by pass. */
  lemma {:induction false} RunExpected(paras: seq<string>, count: Tokenizer, maxTokens: int, overlap: Ratio, i: nat)
    requires i <= |paras|
    ensures Run(paras, count, maxTokens, overlap, i) == Expected(paras, count, maxTokens, overlap, i)
    decreases i
  {
    if i == 0 {
      assert paras[0..0] == [];
    } else {
      RunExpected(paras, count, maxTokens, overlap, i - 1);
      ExpectedStep(paras, count, maxTokens, overlap, i - 1);
    }
  }

  /** What the loop keeps after the first `i` paragraphs: `current` is the
      open segment of the fold, it is not empty once a paragraph has been
      read, and `current_tokens` is the token count of `current`. */
  lemma RunInvariants(paras: seq<string>, count: Tokenizer, maxTokens: int, overlap: Ratio, i: nat)
    requires i <= |paras|
    ensures var v := Run(paras, count, maxTokens, overlap, i);
            && v.current == paras[Pack(paras, count, maxTokens, overlap, i).start..i]
            && (i > 0 ==> v.current != [])
            && v.currentTokens == SumTokens(count, v.current)
  {
    RunExpected(paras, count, maxTokens, overlap, i);
  }

  /** After the last paragraph, appending the open chunk (when there is
      one) gives the reference chunks. */
  lemma LoopDone(paras: seq<string>, count: Tokenizer, maxTokens: int, overlap: Ratio,
                 chunks: seq<string>, current: seq<string>, currentTokens: int)
    requires LoopInv(paras, count, maxTokens, overlap, |paras|, chunks, current, currentTokens)
    ensures current != [] ==> chunks + [Join(current, "\n")] == Render(paras, Segments(paras, count, maxTokens, overlap))
    ensures current == [] ==> chunks == Render(paras, Segments(paras, count, maxTokens, overlap))
  {
    RenderSegments(paras, count, maxTokens, overlap);
  }

  /** After the whole run, appending the open chunk (when there is one)
      gives the reference chunks. */
  lemma RunDone(paras: seq<string>, count: Tokenizer, maxTokens: int, overlap: Ratio)
    ensures var v := Run(paras, count, maxTokens, overlap, |paras|);
            && (v.current != [] ==> v.chunks + [Join(v.current, "\n")] == Render(paras, Segments(paras, count, maxTokens, overlap)))
            && (v.current == [] ==> v.chunks == Render(paras, Segments(paras, count, maxTokens, overlap)))
  {
    var v := Run(paras, count, maxTokens, overlap, |paras|);
    RunExpected(paras, count, maxTokens, overlap, |paras|);
    ExpectedInv(paras, count, maxTokens, overlap, |paras|, v);
    LoopDone(paras, count, maxTokens, overlap, v.chunks, v.current, v.currentTokens);
  }

  /** The packing loop of `chunk_text`, run over the paragraphs already
      split and stripped: it produces exactly the chunks `Render` reads off
      the reference segmentation. */
  method PackParagraphs(paragraphs: seq<string>, count: Tokenizer, maxTokens: int, overlap: Ratio) returns (chunks: seq<string>)
    ensures chunks == Render(paragraphs, Segments(paragraphs, count, maxTokens, overlap))
  {
    chunks := [];
    var current: seq<string> := [];
    var currentTokens := 0;
    var i := 0;
    assert LoopVars(chunks, current, currentTokens) == Run(paragraphs, count, maxTokens, overlap, 0);
    while i < |paragraphs|
      invariant i <= |paragraphs|
      invariant LoopVars(chunks, current, currentTokens) == Run(paragraphs, count, maxTokens, overlap, i)
    {
      ghost var next := Pass(LoopVars(chunks, current, currentTokens), paragraphs[i], count, maxTokens, overlap);
      var para := paragraphs[i];
      var tokens := count(para);
      if currentTokens + tokens > maxTokens {
        chunks := chunks + [Join(current, "\n")];
        current := Carry(current, overlap);
        currentTokens := SumTokens(count, current);
      }
      current := current + [para];
      currentTokens := currentTokens + tokens;
      assert LoopVars(chunks, current, currentTokens) == next == Run(paragraphs, count, maxTokens, overlap, i + 1);
      i := i + 1;
    }
    RunDone(paragraphs, count, maxTokens, overlap);
    if current != [] {
      chunks := chunks + [Join(current, "\n")];
    }
  }

  /** What the chunks of a text look like: none at all exactly when the text
      is blank, at most one more than there are paragraphs, and an empty
      chunk only when the very first paragraph alone is over the budget. */
  lemma ChunksShape(text: string, count: Tokenizer, maxTokens: int, overlap: Ratio)
    ensures var paras := Paragraphs(text);
            var chunks := Render(paras, Segments(paras, count, maxTokens, overlap));
            && (chunks == [] <==> AllSpace(text, IsPythonSpace))
            && |chunks| <= |paras| + 1
            && ([] in chunks <==> paras != [] && count(paras[0]) > maxTokens)
  {
    var paras := Paragraphs(text);
    var segs := Segments(paras, count, maxTokens, overlap);
    ParagraphsEmpty(text);
    SegmentsEmpty(paras, count, maxTokens, overlap);
    RenderEmpty(paras, segs);
  }

  /** `chunk_text(text, max_tokens, overlap)`. */
  method ChunkText(text: string, count: Tokenizer, maxTokens: int, overlap: Ratio) returns (chunks: seq<string>)
    ensures chunks == Render(Paragraphs(text), Segments(Paragraphs(text), count, maxTokens, overlap))
    ensures chunks == [] <==> AllSpace(text, IsPythonSpace)
    ensures |chunks| <= |Paragraphs(text)| + 1
    ensures [] in chunks <==> Paragraphs(text) != [] && count(Paragraphs(text)[0]) > maxTokens
  {
    var paragraphs := Paragraphs(text);
    chunks := PackParagraphs(paragraphs, count, maxTokens, overlap);
    ChunksShape(text, count, maxTokens, overlap);
  }
}
