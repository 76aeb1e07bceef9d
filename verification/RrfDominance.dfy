/** Dominance in reciprocal rank fusion: an id that is ranked better has the larger score and
    comes first, and for which constants that holds. */
module RrfDominance {
  import opened RankFusion
  import opened Rrf
  import opened RrfTheorems

  predicate DistinctIds(results: seq<Item>) {
    forall i, j | 0 <= i < j < |results| && results[i].id != "" :: results[i].id != results[j].id
  }

  /** Wherever `b` appears, `a` is ranked above or at the same place. */
  predicate AtOrAbove(results: seq<Item>, a: string, b: string) {
    forall j | 0 <= j < |results| && results[j].id == b :: AppearsBy(results, a, j)
  }

  predicate AppearsBy(results: seq<Item>, id: string, j: nat) {
    exists i :: 0 <= i <= j && i < |results| && results[i].id == id
  }

  /** `a` appears, and `b` not at or above it. */
  predicate StrictlyAbove(results: seq<Item>, a: string, b: string) {
    exists i | 0 <= i < |results| :: results[i].id == a && !AppearsBy(results, b, i)
  }

  lemma ReciprocalShrinks(weight: real, x: real, y: real)
    requires weight > 0.0 && 0.0 < x <= y
    ensures weight * (1.0 / x) >= weight * (1.0 / y) > 0.0
    ensures x < y ==> weight * (1.0 / x) > weight * (1.0 / y)
  {
  }

  /** Every item that counts has a rank that makes the divisor positive. */
  predicate RanksPositive(k: int, results: seq<Item>) {
    forall i | 0 <= i < |results| && results[i].id != "" :: k + i + 1 > 0
  }

  lemma ShareShrinks(k: int, weight: real, r: nat, s: nat)
    requires weight > 0.0 && 0 < k + r && r <= s
    ensures Share(k, weight, r) >= Share(k, weight, s) > 0.0
    ensures r < s ==> Share(k, weight, r) > Share(k, weight, s)
  {
    ReciprocalShrinks(weight, (k + r) as real, (k + s) as real);
  }

  lemma {:induction false} ListScoreAbsent(k: int, weight: real, results: seq<Item>, n: nat, id: string)
    requires n <= |results| && forall i | 0 <= i < n :: results[i].id != id
    ensures ListScore(k, weight, results, n, id) == 0.0
  {
    if n > 0 { ListScoreAbsent(k, weight, results, n - 1, id); }
  }

  lemma {:induction false} ListScoreAt(k: int, weight: real, results: seq<Item>, n: nat, id: string, i: nat)
    requires i < n <= |results| && DistinctIds(results) && id != "" && results[i].id == id
    ensures ListScore(k, weight, results, n, id) == Share(k, weight, i + 1)
  {
    if n == i + 1 {
      ListScoreAbsent(k, weight, results, i, id);
    } else {
      ListScoreAt(k, weight, results, n - 1, id, i);
    }
  }

  lemma ListDominance(k: int, weight: real, results: seq<Item>, a: string, b: string)
    requires RanksPositive(k, results)
    requires weight > 0.0 && DistinctIds(results) && a != "" && b != "" && AtOrAbove(results, a, b)
    ensures ListScore(k, weight, results, |results|, a) >= ListScore(k, weight, results, |results|, b)
    ensures StrictlyAbove(results, a, b) ==>
              ListScore(k, weight, results, |results|, a) > ListScore(k, weight, results, |results|, b)
  {
    var n := |results|;
    if j :| 0 <= j < n && results[j].id == b {
      assert AppearsBy(results, a, j);
      var i :| 0 <= i <= j && i < |results| && results[i].id == a;
      BothAppear(k, weight, results, a, b, i, j);
    } else {
      ListScoreAbsent(k, weight, results, n, b);
      if i :| 0 <= i < n && results[i].id == a {
        ListScoreAt(k, weight, results, n, a, i);
        ShareShrinks(k, weight, i + 1, i + 1);
      } else {
        ListScoreAbsent(k, weight, results, n, a);
      }
    }
  }

  lemma BothAppear(k: int, weight: real, results: seq<Item>, a: string, b: string, i: nat, j: nat)
    requires RanksPositive(k, results) && weight > 0.0 && DistinctIds(results) && a != "" && b != ""
    requires i <= j < |results| && results[i].id == a && results[j].id == b
    ensures ListScore(k, weight, results, |results|, a) >= ListScore(k, weight, results, |results|, b)
    ensures StrictlyAbove(results, a, b) ==>
              ListScore(k, weight, results, |results|, a) > ListScore(k, weight, results, |results|, b)
  {
    ListScoreAt(k, weight, results, |results|, a, i);
    ListScoreAt(k, weight, results, |results|, b, j);
    ShareShrinks(k, weight, i + 1, j + 1);
    if StrictlyAbove(results, a, b) { StrictlyBefore(results, a, b, i, j); }
  }

  lemma StrictlyBefore(results: seq<Item>, a: string, b: string, i: nat, j: nat)
    requires DistinctIds(results) && a != "" && StrictlyAbove(results, a, b)
    requires i <= j < |results| && results[i].id == a && results[j].id == b
    ensures i < j
  {
    var p :| 0 <= p < |results| && results[p].id == a && !AppearsBy(results, b, p);
    assert p == i;
  }

  /** Positive weights and distinct ids per list; one id ranked at or above the other wherever
      the other appears, and strictly better in one list. */
  predicate Dominates(lists: seq<seq<Item>>, weights: seq<real>, a: string, b: string, better: nat) {
    && |lists| == |weights| && a != "" && b != ""
    && (forall l | 0 <= l < |lists| :: weights[l] > 0.0 && DistinctIds(lists[l]) && AtOrAbove(lists[l], a, b))
    && better < |lists| && StrictlyAbove(lists[better], a, b)
  }

  lemma {:induction false} DominanceUpTo(k: int, lists: seq<seq<Item>>, weights: seq<real>, n: nat,
                                         a: string, b: string, better: nat)
    requires Dominates(lists, weights, a, b, better) && n <= |lists|
    requires forall l | 0 <= l < |lists| :: RanksPositive(k, lists[l])
    ensures Score(k, lists, weights, n, a) >= Score(k, lists, weights, n, b)
    ensures better < n ==> Score(k, lists, weights, n, a) > Score(k, lists, weights, n, b)
  {
    if n > 0 {
      DominanceUpTo(k, lists, weights, n - 1, a, b, better);
      ListDominance(k, weights[n - 1], lists[n - 1], a, b);
    }
  }

  /** Fusion goes through: no rank of an item that counts makes the divisor zero. */
  predicate Fusible(k: int, lists: seq<seq<Item>>) {
    !DividesByZero(k, Occurrences(lists, |lists|))
  }

  lemma FusibleRanks(k: int, lists: seq<seq<Item>>, l: nat)
    requires Fusible(k, lists) && k >= -1 && l < |lists|
    ensures RanksPositive(k, lists[l])
  {
    forall i | 0 <= i < |lists[l]| && lists[l][i].id != "" ensures k + i + 1 > 0 {
      var o := Occurrence(lists[l][i], Source(l, i + 1, lists[l][i].score));
      assert o in ListOccurrences(lists[l], i + 1, l);
      OccursInAll(lists, l, i + 1, o);
    }
  }

  /** The dominant id has the larger score. */
  lemma Dominance(k: int, lists: seq<seq<Item>>, weights: seq<real>, a: string, b: string, better: nat)
    requires Dominates(lists, weights, a, b, better) && Fusible(k, lists) && k >= -1
    ensures RrfScore(k, lists, weights, a) > RrfScore(k, lists, weights, b)
  {
    forall l | 0 <= l < |lists| ensures RanksPositive(k, lists[l]) { FusibleRanks(k, lists, l); }
    DominanceUpTo(k, lists, weights, |lists|, a, b, better);
  }

  ghost predicate DominanceHolds(k: int) {
    forall lists: seq<seq<Item>>, weights: seq<real>, a: string, b: string, better: nat ::
      Dominates(lists, weights, a, b, better) && Fusible(k, lists)
      ==> RrfScore(k, lists, weights, a) > RrfScore(k, lists, weights, b)
  }

  function Named(id: string): Item { Item(id, "", 0.0, NoSearch) }

  /** With a constant below -1, being first alone is worse than not appearing. */
  lemma LoneItemScoresNegative(k: int)
    requires k < -1
    ensures Dominates([[Named("a")]], [1.0], "a", "b", 0) && Fusible(k, [[Named("a")]])
    ensures RrfScore(k, [[Named("a")]], [1.0], "a") < 0.0 == RrfScore(k, [[Named("a")]], [1.0], "b")
  {
    var results := [Named("a")];
    var lists := [results];
    assert !AppearsBy(results, "b", 0) && results[0].id == "a";
    assert StrictlyAbove(results, "a", "b");
    OnlyOccurrences(lists);
    ListScoreAt(k, 1.0, results, 1, "a", 0);
    ListScoreAbsent(k, 1.0, results, 1, "b");
    assert Score(k, lists, [1.0], 1, "a") == Share(k, 1.0, 1);
    assert Score(k, lists, [1.0], 1, "b") == 0.0;
    NegativeShare(k, 1);
  }

  lemma NegativeShare(k: int, rank: nat)
    requires k + rank < 0
    ensures Share(k, 1.0, rank) < 0.0
  {
  }

  lemma OnlyOccurrences(lists: seq<seq<Item>>)
    requires |lists| == 1
    ensures Occurrences(lists, 1) == ListOccurrences(lists[0], |lists[0]|, 0)
  {
    assert Occurrences(lists, 0) == [];
  }

  /** Dominance holds for every fusion that goes through exactly when the constant is -1 or more. */
  lemma DominanceHoldsExactly(k: int)
    ensures DominanceHolds(k) <==> k >= -1
  {
    if k >= -1 {
      forall lists: seq<seq<Item>>, weights: seq<real>, a: string, b: string, better: nat
        | Dominates(lists, weights, a, b, better) && Fusible(k, lists)
        ensures RrfScore(k, lists, weights, a) > RrfScore(k, lists, weights, b)
      {
        Dominance(k, lists, weights, a, b, better);
      }
    } else {
      LoneItemScoresNegative(k);
    }
  }

  // ---------------------------------------------------------------- the order of results

  /** Wherever `b` is returned, `a` is returned before it. */
  predicate ComesFirst(top: seq<string>, a: string, b: string) {
    forall j | 0 <= j < |top| && top[j] == b :: a in top[..j]
  }

  /** The dominant id is never placed below the other. */
  lemma DominantComesFirst(k: int, lists: seq<seq<Item>>, weights: seq<real>, limit: int,
                           a: string, b: string, better: nat)
    requires Dominates(lists, weights, a, b, better) && Fusible(k, lists) && k >= -1
    ensures ComesFirst(Top(k, weights, Occurrences(lists, |lists|), limit), a, b)
  {
    var top := Top(k, weights, Occurrences(lists, |lists|), limit);
    forall j | 0 <= j < |top| && top[j] == b ensures a in top[..j] {
      var i := DominantPlace(k, lists, weights, limit, a, b, better, j);
      assert top[..j][i] == a;
    }
  }

  lemma DominantPlace(k: int, lists: seq<seq<Item>>, weights: seq<real>, limit: int,
                      a: string, b: string, better: nat, j: nat) returns (i: nat)
    requires Dominates(lists, weights, a, b, better) && Fusible(k, lists) && k >= -1
    requires var top := Top(k, weights, Occurrences(lists, |lists|), limit); j < |top| && top[j] == b
    ensures i < j && Top(k, weights, Occurrences(lists, |lists|), limit)[i] == a
  {
    var occs := Occurrences(lists, |lists|);
    var ids := Ids(occs);
    var scores := ScoreMap(k, weights, occs);
    var top := Top(k, weights, occs, limit);
    var place :| 0 <= place < |lists[better]| && lists[better][place].id == a && !AppearsBy(lists[better], b, place);
    ItemIsAnId(lists, better, place);
    Dominance(k, lists, weights, a, b, better);
    ScoreFromSources(k, lists, weights, |lists|, a);
    ScoreFromSources(k, lists, weights, |lists|, b);
    assert scores[a] > scores[b];
    FusedListIsTheTop(k, weights, occs, limit);
    LeftOutScoresNoHigher(ids, scores, top, a, j);
    i :| 0 <= i < |top| && top[i] == a;
    HigherScoreComesFirst(ids, scores, top, i, j);
  }

  lemma LeftOutScoresNoHigher(ids: seq<string>, scores: Scores, top: seq<string>, id: string, j: nat)
    requires Scored(ids, scores) && TopOf(ids, scores, top) && id in ids && j < |top|
    ensures id in top || scores[id] <= scores[top[j]]
  {
  }

  lemma HigherScoreComesFirst(ids: seq<string>, scores: Scores, top: seq<string>, i: nat, j: nat)
    requires Ranked(ids, scores, top) && i < |top| && j < |top|
    requires scores[top[i]] > scores[top[j]]
    ensures i < j
  {
  }

  /** An item, as many without an id as it takes, and another. */
  function Spread(n: nat): (results: seq<Item>)
    ensures |results| == n + 2 && results[0] == Named("a") && results[n + 1] == Named("b")
    ensures forall i | 1 <= i <= n :: results[i] == Named("")
  {
    [Named("a")] + seq(n, _ => Named("")) + [Named("b")]
  }

  lemma {:induction false} SpreadStart(n: nat, m: nat)
    requires 1 <= m <= n + 1
    ensures ListOccurrences(Spread(n), m, 0) == [Occurrence(Named("a"), Source(0, 1, 0.0))]
  {
    if m == 1 {
      assert ListOccurrences(Spread(n), 0, 0) == [];
    } else {
      SpreadStart(n, m - 1);
    }
  }

  lemma SpreadOccurrences(n: nat)
    ensures Occurrences([Spread(n)], 1)
         == [Occurrence(Named("a"), Source(0, 1, 0.0)), Occurrence(Named("b"), Source(0, n + 2, 0.0))]
  {
    OnlyOccurrences([Spread(n)]);
    SpreadStart(n, n + 1);
  }

  lemma SpreadDominates(n: nat)
    ensures Dominates([Spread(n)], [1.0], "a", "b", 0)
  {
    var results := Spread(n);
    assert results[0].id == "a" && !AppearsBy(results, "b", 0);
    forall j | 0 <= j < |results| && results[j].id == "b" ensures AppearsBy(results, "a", j) {
      assert results[0].id == "a";
    }
  }

  lemma TwoIds(x: Occurrence, y: Occurrence)
    requires x.item.id != y.item.id
    ensures Ids([x, y]) == [x.item.id, y.item.id]
    ensures SourcesOf([x, y], x.item.id) == [x.source] && SourcesOf([x, y], y.item.id) == [y.source]
  {
    assert [x, y][..1] == [x] && [x][..0] == [];
    assert Ids([x]) == [x.item.id];
    assert SourcesOf([x], x.item.id) == [x.source] && SourcesOf([x], y.item.id) == [];
  }

  lemma OneSource(k: int, s: Source)
    requires s.list == 0
    ensures SourceScore(k, [1.0], [s]) == Share(k, 1.0, s.rank)
  {
    assert [s][..0] == [];
  }

  lemma SortTwo(x: string, y: string, scores: Scores)
    requires x in scores && y in scores && scores[x] < scores[y]
    ensures SortDesc([x, y], scores) == [y, x]
  {
    assert [x, y][..1] == [x] && [x][..0] == [];
    assert SortDesc([x], scores) == [x];
  }

  lemma TopOfTwo(k: int, x: Occurrence, y: Occurrence)
    requires x.item.id != y.item.id && x.source.list == y.source.list == 0
    requires Share(k, 1.0, x.source.rank) < Share(k, 1.0, y.source.rank)
    ensures Top(k, [1.0], [x, y], 2) == [y.item.id, x.item.id]
  {
    TwoIds(x, y);
    OneSource(k, x.source);
    OneSource(k, y.source);
    SortTwo(x.item.id, y.item.id, ScoreMap(k, [1.0], [x, y]));
  }

  lemma SharesOfSpread(k: int)
    requires k < -1
    ensures Share(k, 1.0, 1) < 0.0 < Share(k, 1.0, -k + 1)
  {
    NegativeShare(k, 1);
  }

  lemma FusibleTwo(k: int, lists: seq<seq<Item>>, x: Occurrence, y: Occurrence)
    requires Occurrences(lists, |lists|) == [x, y] && k + x.source.rank != 0 && k + y.source.rank != 0
    ensures Fusible(k, lists)
  {
  }

  /** The occurrences of two items, the first ranked first and scoring less. */
  lemma SpreadIsFused(k: int, lists: seq<seq<Item>>) returns (x: Occurrence, y: Occurrence)
    requires k < -1 && lists == [Spread(-k - 1)]
    ensures Occurrences(lists, |lists|) == [x, y]
    ensures x == Occurrence(Named("a"), Source(0, 1, 0.0)) && y == Occurrence(Named("b"), Source(0, -k + 1, 0.0))
    ensures Fusible(k, lists)
  {
    x, y := Occurrence(Named("a"), Source(0, 1, 0.0)), Occurrence(Named("b"), Source(0, -k + 1, 0.0));
    SpreadOccurrences(-k - 1);
    FusibleTwo(k, lists, x, y);
  }

  lemma TopOfSpread(k: int, occs: seq<Occurrence>)
    requires k < -1
    requires occs == [Occurrence(Named("a"), Source(0, 1, 0.0)), Occurrence(Named("b"), Source(0, -k + 1, 0.0))]
    ensures Top(k, [1.0], occs, 2) == ["b", "a"]
  {
    SharesOfSpread(k);
    TopOfTwo(k, occs[0], occs[1]);
  }

  /** With a constant below -1, an item can be placed below one that is ranked lower. */
  lemma LowerRankedComesFirst(k: int, lists: seq<seq<Item>>, occs: seq<Occurrence>)
    requires k < -1 && lists == [Spread(-k - 1)] && occs == Occurrences(lists, |lists|)
    ensures Dominates(lists, [1.0], "a", "b", 0) && Fusible(k, lists)
    ensures Top(k, [1.0], occs, 2) == ["b", "a"]
  {
    SpreadDominates(-k - 1);
    var x, y := SpreadIsFused(k, lists);
    TopOfSpread(k, occs);
  }

  ghost predicate OrderHolds(k: int) {
    forall lists: seq<seq<Item>>, weights: seq<real>, limit: int, a: string, b: string, better: nat ::
      Dominates(lists, weights, a, b, better) && Fusible(k, lists)
      ==> ComesFirst(Top(k, weights, Occurrences(lists, |lists|), limit), a, b)
  }

  lemma OrderHoldsExactly(k: int)
    ensures OrderHolds(k) <==> k >= -1
  {
    if k >= -1 {
      forall lists: seq<seq<Item>>, weights: seq<real>, limit: int, a: string, b: string, better: nat
        | Dominates(lists, weights, a, b, better) && Fusible(k, lists)
        ensures ComesFirst(Top(k, weights, Occurrences(lists, |lists|), limit), a, b)
      {
        DominantComesFirst(k, lists, weights, limit, a, b, better);
      }
    } else {
      var lists := [Spread(-k - 1)];
      LowerRankedComesFirst(k, lists, Occurrences(lists, |lists|));
      var top := Top(k, [1.0], Occurrences(lists, |lists|), 2);
      assert top[0] == "b" && top[..0] == [];
      assert !ComesFirst(top, "a", "b");
    }
  }
}
