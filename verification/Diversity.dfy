/** Maximal-marginal-relevance reranking: a greedy selection trading relevance against the
    similarity to what is already selected. */
module Diversity {
  import opened Text

  datatype Doc = Doc(id: string, text: string, relevance: real)

  // ---------------------------------------------------------------- similarity

  function WordSet(s: string): set<string> {
    var ws := Words(Lower(s));
    set w | w in ws
  }

  /** Jaccard similarity of two word sets; texts without words are similar to nothing. */
  function Similarity(a: string, b: string): real {
    if a == "" || b == "" then 0.0
    else
      var x, y := WordSet(a), WordSet(b);
      if x == {} || y == {} then 0.0
      else
        assert x <= x + y;
        SubsetSize(x, x + y);
        (|x * y| as real) / (|x + y| as real)
  }

  lemma {:induction false} SubsetSize<T>(x: set<T>, y: set<T>)
    requires x <= y
    ensures |x| <= |y|
    decreases |x|
  {
    if x != {} {
      var e :| e in x;
      SubsetSize(x - {e}, y - {e});
    }
  }

  lemma {:induction false} SubsetSizeStrict<T>(x: set<T>, y: set<T>)
    requires x <= y
    ensures |x| == |y| <==> x == y
  {
    if x != y {
      var e :| e in y && e !in x;
      SubsetSize(x, y - {e});
    }
  }

  /** The similarity lies between 0 and 1, is symmetric, and is 1 exactly for texts with the
      same words, of which there is at least one. */
  lemma SimilarityIsJaccard(a: string, b: string)
    ensures 0.0 <= Similarity(a, b) <= 1.0
    ensures Similarity(a, b) == Similarity(b, a)
    ensures Similarity(a, b) == 1.0 <==> WordSet(a) == WordSet(b) != {}
  {
    var x, y := WordSet(a), WordSet(b);
    assert a == "" ==> x == {};
    assert b == "" ==> y == {};
    assert x * y == y * x && x + y == y + x;
    if a != "" && b != "" && x != {} && y != {} {
      SubsetSize(x, x + y);
      SubsetSize(x * y, x + y);
      SubsetSizeStrict(x * y, x + y);
      var p, q := |x * y| as real, |x + y| as real;
      assert q > 0.0 && p <= q;
      Ratio(p, q);
      if x * y == x + y {
        assert x == x * y == y;
      }
    }
  }

  lemma Ratio(p: real, q: real)
    requires 0.0 <= p <= q && q > 0.0
    ensures 0.0 <= p / q <= 1.0
    ensures p / q == 1.0 <==> p == q
  {
  }

  // ---------------------------------------------------------------- the score

  /** The greatest similarity to the first `n` selected, and at least 0. */
  function MaxSimilarity(c: Doc, selected: seq<Doc>, n: nat): real
    requires n <= |selected|
  {
    if n == 0 then 0.0
    else
      var best := MaxSimilarity(c, selected, n - 1);
      var sim := Similarity(c.text, selected[n - 1].text);
      if sim > best then sim else best
  }

  function TradeOff(lambda: real, relevance: real, similarity: real): real {
    lambda * relevance - (1.0 - lambda) * similarity
  }

  function Mmr(lambda: real, c: Doc, selected: seq<Doc>): real {
    TradeOff(lambda, c.relevance, MaxSimilarity(c, selected, |selected|))
  }

  function MmrScores(lambda: real, remaining: seq<Doc>, selected: seq<Doc>): (r: seq<real>)
    ensures |r| == |remaining|
    ensures forall i | 0 <= i < |r| :: r[i] == Mmr(lambda, remaining[i], selected)
  {
    seq(|remaining|, i requires 0 <= i < |remaining| => Mmr(lambda, remaining[i], selected))
  }

  /** `best` has the greatest score of the first `n`, and is the first to have it. */
  predicate FirstMax(scores: seq<real>, n: nat, best: nat)
    requires n <= |scores|
  {
    && best < n
    && (forall i | 0 <= i < n :: scores[i] <= scores[best])
    && (forall i | 0 <= i < best :: scores[i] < scores[best])
  }

  predicate FirstBest(lambda: real, remaining: seq<Doc>, selected: seq<Doc>, best: nat) {
    FirstMax(MmrScores(lambda, remaining, selected), |remaining|, best)
  }

  function Without(s: seq<Doc>, i: nat): seq<Doc>
    requires i < |s|
  {
    s[..i] + s[i + 1..]
  }

  /** What a reranking is: the first result, then picks, each the first of the best left. */
  ghost predicate Greedy(lambda: real, selected: seq<Doc>, remaining: seq<Doc>, limit: int, out: seq<Doc>)
    decreases |remaining|
  {
    if remaining == [] || |selected| >= limit then out == selected
    else exists best: nat ::
           FirstBest(lambda, remaining, selected, best)
           && Greedy(lambda, selected + [remaining[best]], Without(remaining, best), limit, out)
  }

  // ---------------------------------------------------------------- the loops

  method MaxSimilarityTo(c: Doc, selected: seq<Doc>) returns (maxSim: real)
    ensures maxSim == MaxSimilarity(c, selected, |selected|)
  {
    maxSim := 0.0;
    for i := 0 to |selected|
      invariant maxSim == MaxSimilarity(c, selected, i)
    {
      var sim := Similarity(c.text, selected[i].text);
      if sim > maxSim {
        maxSim := sim;
      }
    }
  }

  method ScoreCandidate(lambda: real, c: Doc, selected: seq<Doc>) returns (score: real)
    ensures score == Mmr(lambda, c, selected)
  {
    var maxSim := MaxSimilarityTo(c, selected);
    score := TradeOff(lambda, c.relevance, maxSim);
  }

  method PickBest(lambda: real, remaining: seq<Doc>, selected: seq<Doc>) returns (bestIdx: nat)
    requires remaining != []
    ensures FirstBest(lambda, remaining, selected, bestIdx)
  {
    ghost var scores := MmrScores(lambda, remaining, selected);
    var bestScore := 0.0;
    var found := false; // the score before the first candidate is minus infinity
    bestIdx := 0;
    for idx := 0 to |remaining|
      invariant bestIdx < |remaining| && (found <==> idx > 0)
      invariant found ==> bestScore == scores[bestIdx] && FirstMax(scores, idx, bestIdx)
    {
      var score := ScoreCandidate(lambda, remaining[idx], selected);
      if !found || score > bestScore {
        bestScore := score;
        bestIdx := idx;
        found := true;
      }
    }
  }

  /** `DiversityReranker.rerank` */
  method Rerank(lambda: real, results: seq<Doc>, limit: int) returns (selected: seq<Doc>)
    ensures results == [] ==> selected == []
    ensures results != [] ==> Greedy(lambda, [results[0]], results[1..], limit, selected)
  {
    if results == [] {
      return [];
    }
    selected := [results[0]];
    var remaining := results[1..];
    while remaining != [] && |selected| < limit
      invariant forall out :: Greedy(lambda, selected, remaining, limit, out)
                              ==> Greedy(lambda, [results[0]], results[1..], limit, out)
      decreases |remaining|
    {
      var bestIdx := PickBest(lambda, remaining, selected);
      selected, remaining := selected + [remaining[bestIdx]], Without(remaining, bestIdx);
    }
    assert Greedy(lambda, selected, remaining, limit, selected);
  }

  // ---------------------------------------------------------------- theorems

  lemma FirstMaxIsUnique(scores: seq<real>, n: nat, a: nat, b: nat)
    requires n <= |scores| && FirstMax(scores, n, a) && FirstMax(scores, n, b)
    ensures a == b
  {
    assert scores[a] <= scores[b] && scores[b] <= scores[a];
  }

  lemma FirstBestIsUnique(lambda: real, remaining: seq<Doc>, selected: seq<Doc>, a: nat, b: nat)
    requires FirstBest(lambda, remaining, selected, a) && FirstBest(lambda, remaining, selected, b)
    ensures a == b
  {
    FirstMaxIsUnique(MmrScores(lambda, remaining, selected), |remaining|, a, b);
  }

  /** The picks leave no choice: there is only one greedy reranking. */
  lemma {:induction false} GreedyIsUnique(lambda: real, selected: seq<Doc>, remaining: seq<Doc>, limit: int,
                                          x: seq<Doc>, y: seq<Doc>)
    requires Greedy(lambda, selected, remaining, limit, x) && Greedy(lambda, selected, remaining, limit, y)
    ensures x == y
    decreases |remaining|
  {
    if remaining != [] && |selected| < limit {
      var a: nat :| FirstBest(lambda, remaining, selected, a)
                    && Greedy(lambda, selected + [remaining[a]], Without(remaining, a), limit, x);
      var b: nat :| FirstBest(lambda, remaining, selected, b)
                    && Greedy(lambda, selected + [remaining[b]], Without(remaining, b), limit, y);
      FirstBestIsUnique(lambda, remaining, selected, a, b);
      GreedyIsUnique(lambda, selected + [remaining[a]], Without(remaining, a), limit, x, y);
    }
  }

  lemma WithoutElements(s: seq<Doc>, i: nat)
    requires i < |s|
    ensures multiset(s) == multiset{s[i]} + multiset(Without(s, i))
    ensures |Without(s, i)| == |s| - 1
  {
    assert s == s[..i] + ([s[i]] + s[i + 1..]);
  }

  lemma GreedyStep(lambda: real, selected: seq<Doc>, remaining: seq<Doc>, limit: int, out: seq<Doc>) returns (best: nat)
    requires Greedy(lambda, selected, remaining, limit, out) && remaining != [] && |selected| < limit
    ensures best < |remaining| && FirstBest(lambda, remaining, selected, best)
    ensures Greedy(lambda, selected + [remaining[best]], Without(remaining, best), limit, out)
  {
    best :| FirstBest(lambda, remaining, selected, best)
            && Greedy(lambda, selected + [remaining[best]], Without(remaining, best), limit, out);
  }

  /** A reranking keeps what was selected, adds only what was left, each as often as it was
      there, and stops only at the limit or when nothing is left. */
  lemma {:induction false} GreedySelects(lambda: real, selected: seq<Doc>, remaining: seq<Doc>, limit: int,
                                         out: seq<Doc>)
    requires Greedy(lambda, selected, remaining, limit, out)
    ensures selected <= out
    ensures multiset(out) <= multiset(selected) + multiset(remaining)
    ensures |out| == if |selected| >= limit then |selected|
                     else if |selected| + |remaining| <= limit then |selected| + |remaining| else limit
    decreases |remaining|
  {
    if remaining != [] && |selected| < limit {
      var best := GreedyStep(lambda, selected, remaining, limit, out);
      var selected', remaining' := selected + [remaining[best]], Without(remaining, best);
      WithoutElements(remaining, best);
      GreedySelects(lambda, selected', remaining', limit, out);
      assert multiset(selected') == multiset(selected) + multiset{remaining[best]};
      assert selected <= selected';
    }
  }

  /** What reranking returns: a part of the input that starts with its first result, of the
      length asked for, or one if less than one was asked for. */
  lemma RerankingSelects(lambda: real, results: seq<Doc>, limit: int, out: seq<Doc>)
    requires results != [] && Greedy(lambda, [results[0]], results[1..], limit, out)
    ensures out != [] && out[0] == results[0]
    ensures multiset(out) <= multiset(results)
    ensures |out| == if limit <= 1 then 1 else if |results| <= limit then |results| else limit
  {
    GreedySelects(lambda, [results[0]], results[1..], limit, out);
    assert results == [results[0]] + results[1..];
    assert [results[0]] <= out;
  }

  predicate Descending(docs: seq<Doc>) {
    forall i, j | 0 <= i < j < |docs| :: docs[i].relevance >= docs[j].relevance
  }

  lemma PureRelevancePicksFirst(remaining: seq<Doc>, selected: seq<Doc>, best: nat)
    requires FirstBest(1.0, remaining, selected, best) && Descending(remaining)
    ensures best == 0
  {
    var scores := MmrScores(1.0, remaining, selected);
    assert scores[0] == remaining[0].relevance && scores[best] == remaining[best].relevance;
  }

  lemma PureRelevanceStep(selected: seq<Doc>, remaining: seq<Doc>, limit: int, out: seq<Doc>)
    requires Greedy(1.0, selected, remaining, limit, out) && Descending(remaining)
    requires remaining != [] && |selected| < limit
    ensures Greedy(1.0, selected + [remaining[0]], remaining[1..], limit, out) && Descending(remaining[1..])
  {
    var best := GreedyStep(1.0, selected, remaining, limit, out);
    PureRelevancePicksFirst(remaining, selected, best);
    assert Without(remaining, 0) == remaining[1..];
  }

  lemma TakeOneMore(selected: seq<Doc>, remaining: seq<Doc>, n: nat)
    requires 0 < n <= |remaining|
    ensures (selected + [remaining[0]]) + remaining[1..][..n - 1] == selected + remaining[..n]
  {
  }

  /** With all weight on relevance, reranking a list sorted by relevance cuts it at the limit. */
  lemma {:induction false} PureRelevanceKeepsOrder(selected: seq<Doc>, remaining: seq<Doc>, limit: int, out: seq<Doc>)
    requires Greedy(1.0, selected, remaining, limit, out) && Descending(remaining)
    ensures out == selected + remaining[..Room(|selected|, |remaining|, limit)]
    decreases |remaining|
  {
    if remaining == [] || |selected| >= limit {
      assert remaining[..Room(|selected|, |remaining|, limit)] == [];
    } else {
      PureRelevanceStep(selected, remaining, limit, out);
      PureRelevanceKeepsOrder(selected + [remaining[0]], remaining[1..], limit, out);
      TakeOneMore(selected, remaining, Room(|selected|, |remaining|, limit));
    }
  }

  /** How many more of `n` fit under the limit. */
  function Room(selected: nat, n: nat, limit: int): (r: nat)
    ensures r <= n
  {
    if selected >= limit then 0 else if selected + n <= limit then n else limit - selected
  }
}
