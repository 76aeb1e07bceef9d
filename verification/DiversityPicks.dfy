/** What every pick of a diversity reranking is, told from the documents. */
module DiversityPicks {
  import opened Diversity

  // ---------------------------------------------------------------- the similarities

  /** Common words over all words; nothing for texts without words. */
  lemma SimilarityIsRatio(a: string, b: string)
    ensures Similarity(a, b) * (|WordSet(a) + WordSet(b)| as real) == |WordSet(a) * WordSet(b)| as real
    ensures WordSet(a) == {} || WordSet(b) == {} ==> Similarity(a, b) == 0.0
  {
    var x, y := WordSet(a), WordSet(b);
    assert a == "" ==> x == {};
    assert b == "" ==> y == {};
    if x == {} || y == {} {
      assert x * y == {};
    } else {
      SubsetSize(x, x + y);
      Multiplied(|x * y| as real, |x + y| as real);
    }
  }

  lemma Multiplied(p: real, q: real)
    requires q != 0.0
    ensures p / q * q == p
  {
  }

  /** How alike a text is to each of some documents. */
  function Likenesses(c: Doc, docs: seq<Doc>): (r: seq<real>)
    ensures |r| == |docs|
    ensures forall i | 0 <= i < |r| :: r[i] == Similarity(c.text, docs[i].text)
  {
    seq(|docs|, i requires 0 <= i < |docs| => Similarity(c.text, docs[i].text))
  }

  /** `m` is the greatest of the numbers, or 0 without any. */
  predicate Greatest(xs: seq<real>, m: real) {
    && (forall i | 0 <= i < |xs| :: xs[i] <= m)
    && (if xs == [] then m == 0.0 else m in xs)
  }

  /** `ms[i + 1]` is the greater of `ms[i]` and the next number. */
  predicate StepTo(xs: seq<real>, ms: seq<real>, i: nat) {
    i < |xs| && |ms| == |xs| + 1 && xs[i] >= 0.0 && ms[i + 1] == if xs[i] > ms[i] then xs[i] else ms[i]
  }

  lemma OneMoreNumber(xs: seq<real>, n: nat, known: real, m: real)
    requires n < |xs| && xs[n] >= 0.0 && Greatest(xs[..n], known)
    requires m == if xs[n] > known then xs[n] else known
    ensures Greatest(xs[..n + 1], m)
  {
    var ys := xs[..n + 1];
    assert ys[n] == xs[n] && ys[..n] == xs[..n];
    assert known in xs[..n] ==> known in ys;
  }

  lemma {:induction false} RunningGreatest(xs: seq<real>, ms: seq<real>, n: nat)
    requires n <= |xs| && |ms| == |xs| + 1 && ms[0] == 0.0
    requires forall i | 0 <= i < |xs| :: StepTo(xs, ms, i)
    ensures Greatest(xs[..n], ms[n])
  {
    if n > 0 {
      RunningGreatest(xs, ms, n - 1);
      assert StepTo(xs, ms, n - 1);
      OneMoreNumber(xs, n - 1, ms[n - 1], ms[n]);
    }
  }

  /** What the loop over the selected documents has found after each of them. */
  function Found(c: Doc, docs: seq<Doc>): (r: seq<real>)
    ensures |r| == |docs| + 1
    ensures forall i | 0 <= i < |r| :: r[i] == MaxSimilarity(c, docs, i)
  {
    seq(|docs| + 1, i requires 0 <= i <= |docs| => MaxSimilarity(c, docs, i))
  }

  lemma OneMoreFound(c: Doc, docs: seq<Doc>, i: nat, xs: seq<real>, ms: seq<real>)
    requires i < |docs| && xs == Likenesses(c, docs) && ms == Found(c, docs)
    ensures StepTo(xs, ms, i)
  {
    SimilarityIsJaccard(c.text, docs[i].text);
    var x, m, next := Similarity(c.text, docs[i].text), MaxSimilarity(c, docs, i), MaxSimilarity(c, docs, i + 1);
    assert xs[i] == x && ms[i] == m && ms[i + 1] == next;
  }

  lemma EveryFound(c: Doc, docs: seq<Doc>)
    ensures forall i | 0 <= i < |docs| :: StepTo(Likenesses(c, docs), Found(c, docs), i)
  {
    forall i | 0 <= i < |docs|
      ensures StepTo(Likenesses(c, docs), Found(c, docs), i)
    {
      OneMoreFound(c, docs, i, Likenesses(c, docs), Found(c, docs));
    }
  }

  /** The loop over the selected documents finds the greatest likeness. */
  lemma MaxSimilarityIsGreatest(c: Doc, docs: seq<Doc>)
    ensures Greatest(Likenesses(c, docs), MaxSimilarity(c, docs, |docs|))
  {
    EveryFound(c, docs);
    RunningGreatest(Likenesses(c, docs), Found(c, docs), |docs|);
    AllOf(Likenesses(c, docs));
  }

  lemma AllOf(xs: seq<real>)
    ensures xs[..|xs|] == xs
  {
  }

  // ---------------------------------------------------------------- the picks

  /** Relevance `r` and likeness `m` weigh at least as much as `s` and `n`. */
  predicate Worthier(lambda: real, r: real, m: real, s: real, n: real) {
    lambda * r - (1.0 - lambda) * m >= lambda * s - (1.0 - lambda) * n
  }

  /** Picking `a` after `docs` trades at least as much relevance, less likeness, as picking `d`. */
  ghost predicate NoWorse(lambda: real, a: Doc, d: Doc, docs: seq<Doc>) {
    exists m, n ::
      && Greatest(Likenesses(a, docs), m) && Greatest(Likenesses(d, docs), n)
      && Worthier(lambda, a.relevance, m, d.relevance, n)
  }

  lemma TradedIsWorthier(lambda: real, r: real, m: real, s: real, n: real)
    requires TradeOff(lambda, r, m) >= TradeOff(lambda, s, n)
    ensures Worthier(lambda, r, m, s, n)
  {
  }

  lemma TradedIsNoWorse(lambda: real, a: Doc, d: Doc, docs: seq<Doc>, m: real, n: real)
    requires Greatest(Likenesses(a, docs), m) && Greatest(Likenesses(d, docs), n)
    requires TradeOff(lambda, a.relevance, m) >= TradeOff(lambda, d.relevance, n)
    ensures NoWorse(lambda, a, d, docs)
  {
    TradedIsWorthier(lambda, a.relevance, m, d.relevance, n);
  }

  lemma HigherMmrIsNoWorse(lambda: real, a: Doc, d: Doc, docs: seq<Doc>)
    requires Mmr(lambda, a, docs) >= Mmr(lambda, d, docs)
    ensures NoWorse(lambda, a, d, docs)
  {
    MaxSimilarityIsGreatest(a, docs);
    MaxSimilarityIsGreatest(d, docs);
    TradedIsNoWorse(lambda, a, d, docs, MaxSimilarity(a, docs, |docs|), MaxSimilarity(d, docs, |docs|));
  }

  /** No document still left after `docs` would have been a better pick than `a`. */
  ghost predicate BestOfRest(lambda: real, all: multiset<Doc>, a: Doc, docs: seq<Doc>) {
    forall d | all[d] > multiset(docs)[d] :: NoWorse(lambda, a, d, docs)
  }

  lemma FirstPickIsBest(lambda: real, selected: seq<Doc>, remaining: seq<Doc>, best: nat)
    requires FirstBest(lambda, remaining, selected, best)
    ensures BestOfRest(lambda, multiset(selected) + multiset(remaining), remaining[best], selected)
  {
    var scores := MmrScores(lambda, remaining, selected);
    forall d | (multiset(selected) + multiset(remaining))[d] > multiset(selected)[d]
      ensures NoWorse(lambda, remaining[best], d, selected)
    {
      assert d in multiset(remaining);
      var i :| 0 <= i < |remaining| && remaining[i] == d;
      assert scores[i] <= scores[best];
      HigherMmrIsNoWorse(lambda, remaining[best], d, selected);
    }
  }

  lemma NextOf(docs: seq<Doc>, d: Doc, out: seq<Doc>)
    requires docs + [d] <= out
    ensures out[|docs|] == d && out[..|docs|] == docs
  {
    var next := docs + [d];
    assert out[|docs|] == next[|docs|];
    assert out[..|docs|] == next[..|docs|];
  }

  lemma {:induction false} GreedyPicksBest(lambda: real, selected: seq<Doc>, remaining: seq<Doc>, limit: int,
                                           out: seq<Doc>, n: nat)
    requires Greedy(lambda, selected, remaining, limit, out) && |selected| <= n < |out|
    ensures BestOfRest(lambda, multiset(selected) + multiset(remaining), out[n], out[..n])
    decreases |remaining|
  {
    var best := GreedyStep(lambda, selected, remaining, limit, out);
    var next, rest := selected + [remaining[best]], Without(remaining, best);
    GreedySelects(lambda, next, rest, limit, out);
    if n == |selected| {
      NextOf(selected, remaining[best], out);
      FirstPickIsBest(lambda, selected, remaining, best);
    } else {
      WithoutElements(remaining, best);
      GreedyPicksBest(lambda, next, rest, limit, out, n);
      assert multiset(next) + multiset(rest) == multiset(selected) + multiset(remaining);
    }
  }

  /** After the first, each result has the best trade-off between its relevance and its
      likeness to those before it, among all results not yet returned. */
  lemma EveryPickIsBest(lambda: real, results: seq<Doc>, limit: int, out: seq<Doc>)
    requires results != [] && Greedy(lambda, [results[0]], results[1..], limit, out)
    ensures forall n | 1 <= n < |out| :: BestOfRest(lambda, multiset(results), out[n], out[..n])
  {
    assert results == [results[0]] + results[1..];
    forall n | 1 <= n < |out|
      ensures BestOfRest(lambda, multiset(results), out[n], out[..n])
    {
      GreedyPicksBest(lambda, [results[0]], results[1..], limit, out, n);
    }
  }
}
