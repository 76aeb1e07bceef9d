/** What reciprocal rank fusion guarantees: its formula, its order and its symmetry. */
module RrfTheorems {
  import opened RankFusion
  import opened Rrf

  // ---------------------------------------------------------------- ids

  lemma {:induction false} IdsAreDistinct(occs: seq<Occurrence>)
    ensures Distinct(Ids(occs))
    decreases |occs|
  {
    if occs != [] { IdsAreDistinct(occs[..|occs| - 1]); }
  }

  lemma {:induction false} FirstItemHasId(occs: seq<Occurrence>, id: string)
    requires id in Ids(occs)
    ensures FirstItem(occs, id).id == id
    decreases |occs|
  {
    if id in Ids(occs[..|occs| - 1]) { FirstItemHasId(occs[..|occs| - 1], id); }
  }

  lemma {:induction false} IdsOfMembers(occs: seq<Occurrence>)
    ensures forall o | o in occs :: o.item.id in Ids(occs)
    ensures forall id | id in Ids(occs) :: exists o :: o in occs && o.item.id == id
    decreases |occs|
  {
    if occs != [] {
      IdsOfMembers(occs[..|occs| - 1]);
      assert occs == occs[..|occs| - 1] + [occs[|occs| - 1]];
    }
  }

  lemma {:induction false} ListOccurrencesNamed(results: seq<Item>, n: nat, list: nat, o: Occurrence)
    requires n <= |results| && o in ListOccurrences(results, n, list)
    ensures o.item.id != ""
  {
    if n > 0 && o in ListOccurrences(results, n - 1, list) { ListOccurrencesNamed(results, n - 1, list, o); }
  }

  lemma {:induction false} OccurrencesNamed(lists: seq<seq<Item>>, n: nat, o: Occurrence)
    requires n <= |lists| && o in Occurrences(lists, n)
    ensures o.item.id != ""
  {
    if o in Occurrences(lists, n - 1) {
      OccurrencesNamed(lists, n - 1, o);
    } else {
      ListOccurrencesNamed(lists[n - 1], |lists[n - 1]|, n - 1, o);
    }
  }

  lemma IdsNamed(lists: seq<seq<Item>>, id: string)
    requires id in Ids(Occurrences(lists, |lists|))
    ensures id != ""
  {
    IdsOfMembers(Occurrences(lists, |lists|));
    var o :| o in Occurrences(lists, |lists|) && o.item.id == id;
    OccurrencesNamed(lists, |lists|, o);
  }

  lemma ItemIsAnId(lists: seq<seq<Item>>, l: nat, i: nat)
    requires l < |lists| && i < |lists[l]| && lists[l][i].id != ""
    ensures lists[l][i].id in Ids(Occurrences(lists, |lists|))
  {
    var o := Occurrence(lists[l][i], Source(l, i + 1, lists[l][i].score));
    assert o in ListOccurrences(lists[l], i + 1, l);
    OccursInAll(lists, l, i + 1, o);
    IdsOfMembers(Occurrences(lists, |lists|));
  }

  // ---------------------------------------------------------------- the formula

  predicate FollowsFormula(k: int, lists: seq<seq<Item>>, weights: seq<real>, e: Fused)
    requires |lists| == |weights|
  {
    && e.item.id != ""
    && e.rrfScore == RrfScore(k, lists, weights, e.item.id)
    && e.rrfScore == SourceScore(k, weights, e.sources)
  }

  /** Every returned score is the sum of `weight / (k + rank)` over all occurrences of the
      id, and over the sources the result itself records. */
  lemma ScoresFollowTheFormula(k: int, lists: seq<seq<Item>>, weights: seq<real>, limit: int)
    requires |lists| == |weights|
    ensures var es := Fusion(k, weights, Occurrences(lists, |lists|), limit);
            forall i | 0 <= i < |es| :: FollowsFormula(k, lists, weights, es[i]) && es[i].fusionRank == i + 1
  {
    var occs := Occurrences(lists, |lists|);
    var es := Fusion(k, weights, occs, limit);
    forall i | 0 <= i < |es| ensures FollowsFormula(k, lists, weights, es[i]) {
      var id := Top(k, weights, occs, limit)[i];
      FirstItemHasId(occs, id);
      IdsNamed(lists, id);
      ScoreFromSources(k, lists, weights, |lists|, id);
    }
  }

  // ---------------------------------------------------------------- the order

  /** A ranking of some of the ids, none of the others belonging before any of them. */
  predicate TopOf(ids: seq<string>, scores: Scores, top: seq<string>)
    requires Scored(ids, scores)
  {
    && Ranked(ids, scores, top)
    && (forall id, i | id in ids && id !in top && 0 <= i < |top| :: Precedes(ids, scores, top[i], id))
  }

  lemma PrefixOfRanked(ids: seq<string>, scores: Scores, sorted: seq<string>, top: seq<string>)
    requires Scored(ids, scores) && Ranked(ids, scores, sorted) && top <= sorted
    requires forall id :: id in sorted <==> id in ids
    ensures TopOf(ids, scores, top)
  {
  }

  /** How many of `n` entries a limit leaves. */
  function Cut(n: nat, limit: int): nat {
    if limit >= n then n else if limit >= 0 then limit else if n + limit >= 0 then n + limit else 0
  }

  lemma TopOfSorted(ids: seq<string>, scores: Scores, limit: int)
    requires Distinct(ids) && Scored(ids, scores)
    ensures TopOf(ids, scores, TakeLimit(SortDesc(ids, scores), limit))
    ensures |TakeLimit(SortDesc(ids, scores), limit)| == Cut(|ids|, limit)
  {
    var sorted := SortDesc(ids, scores);
    SortRanks(ids, scores);
    SameElements(sorted, ids);
    PrefixOfRanked(ids, scores, sorted, TakeLimit(sorted, limit));
  }

  lemma SameElements<T>(a: seq<T>, b: seq<T>)
    requires multiset(a) == multiset(b)
    ensures |a| == |b|
    ensures forall x :: x in a <==> x in b
  {
    assert |multiset(a)| == |a| && |multiset(b)| == |b|;
    assert forall x :: (x in a <==> x in multiset(a)) && (x in b <==> x in multiset(b));
  }

  /** Results come by descending score, equal scores in order of first appearance, so no id
      comes twice; and every id left out belongs after all that are returned. */
  lemma FusedListIsTheTop(k: int, weights: seq<real>, occs: seq<Occurrence>, limit: int)
    ensures TopOf(Ids(occs), ScoreMap(k, weights, occs), Top(k, weights, occs, limit))
    ensures |Top(k, weights, occs, limit)| == Cut(|Ids(occs)|, limit)
  {
    IdsAreDistinct(occs);
    TopOfSorted(Ids(occs), ScoreMap(k, weights, occs), limit);
  }

  /** Of two entries, the first has the higher score, or as high a one and appeared earlier. */
  predicate Outranks(ids: seq<string>, a: Fused, b: Fused) {
    && a.item.id in ids && b.item.id in ids
    && (|| a.rrfScore > b.rrfScore
        || (a.rrfScore == b.rrfScore && Position(ids, a.item.id) < Position(ids, b.item.id)))
  }

  predicate Returned(es: seq<Fused>, id: string) {
    exists i :: 0 <= i < |es| && es[i].item.id == id
  }

  lemma EntryOutranks(k: int, weights: seq<real>, occs: seq<Occurrence>, a: string, b: string, m: nat, n: nat)
    requires a in Ids(occs) && b in Ids(occs) && Precedes(Ids(occs), ScoreMap(k, weights, occs), a, b)
    ensures Outranks(Ids(occs), Entry(k, weights, occs, a, m), Entry(k, weights, occs, b, n))
    ensures a != b
  {
    FirstItemHasId(occs, a);
    FirstItemHasId(occs, b);
  }

  lemma EntryHasId(k: int, weights: seq<real>, occs: seq<Occurrence>, top: seq<string>, i: nat)
    requires (forall j | 0 <= j < |top| :: top[j] in Ids(occs)) && i < |top|
    ensures Entries(k, weights, occs, top)[i].item.id == top[i]
  {
    FirstItemHasId(occs, top[i]);
  }

  /** Entries one after another, each outranking those behind it. */
  predicate InOrder(ids: seq<string>, es: seq<Fused>) {
    forall i, j | 0 <= i < j < |es| :: Outranks(ids, es[i], es[j]) && es[i].item.id != es[j].item.id
  }

  lemma EntriesInOrder(k: int, weights: seq<real>, occs: seq<Occurrence>, top: seq<string>)
    requires TopOf(Ids(occs), ScoreMap(k, weights, occs), top)
    ensures InOrder(Ids(occs), Entries(k, weights, occs, top))
  {
    var es := Entries(k, weights, occs, top);
    forall i, j | 0 <= i < j < |es|
      ensures Outranks(Ids(occs), es[i], es[j]) && es[i].item.id != es[j].item.id
    {
      assert Precedes(Ids(occs), ScoreMap(k, weights, occs), top[i], top[j]);
      EntryOutranks(k, weights, occs, top[i], top[j], i + 1, j + 1);
      EntryHasId(k, weights, occs, top, i);
      EntryHasId(k, weights, occs, top, j);
    }
  }

  /** Every entry outranks what an id left out would have been. */
  predicate AboveTheRest(k: int, weights: seq<real>, occs: seq<Occurrence>, es: seq<Fused>, id: string)
    requires id in Ids(occs)
  {
    var rest := Entry(k, weights, occs, id, 0);
    forall i | 0 <= i < |es| :: Outranks(Ids(occs), es[i], rest)
  }

  lemma TopIsReturned(k: int, weights: seq<real>, occs: seq<Occurrence>, top: seq<string>, id: string)
    requires (forall j | 0 <= j < |top| :: top[j] in Ids(occs)) && id in top
    ensures Returned(Entries(k, weights, occs, top), id)
  {
    var j :| 0 <= j < |top| && top[j] == id;
    EntryHasId(k, weights, occs, top, j);
  }

  lemma RestIsOutranked(k: int, weights: seq<real>, occs: seq<Occurrence>, top: seq<string>, id: string)
    requires TopOf(Ids(occs), ScoreMap(k, weights, occs), top) && id in Ids(occs) && id !in top
    ensures AboveTheRest(k, weights, occs, Entries(k, weights, occs, top), id)
  {
    forall i | 0 <= i < |top|
      ensures Outranks(Ids(occs), Entry(k, weights, occs, top[i], i + 1), Entry(k, weights, occs, id, 0))
    {
      assert Precedes(Ids(occs), ScoreMap(k, weights, occs), top[i], id);
      EntryOutranks(k, weights, occs, top[i], id, i + 1, 0);
    }
  }

  /** The list that is returned: as many entries as the limit leaves, each outranking those
      after it, so that no id comes twice, and outranking every id left out. */
  lemma FusedResultsAreRanked(k: int, weights: seq<real>, occs: seq<Occurrence>, limit: int)
    ensures var es := Fusion(k, weights, occs, limit);
            && |es| == Cut(|Ids(occs)|, limit) && InOrder(Ids(occs), es)
            && forall id | id in Ids(occs) :: Returned(es, id) || AboveTheRest(k, weights, occs, es, id)
  {
    var top := Top(k, weights, occs, limit);
    FusedListIsTheTop(k, weights, occs, limit);
    EntriesInOrder(k, weights, occs, top);
    var es := Entries(k, weights, occs, top);
    forall id | id in Ids(occs) ensures Returned(es, id) || AboveTheRest(k, weights, occs, es, id) {
      if id in top { TopIsReturned(k, weights, occs, top, id); } else { RestIsOutranked(k, weights, occs, top, id); }
    }
  }

  // ---------------------------------------------------------------- symmetry

  type Weighted = (seq<Item>, real)

  function Zip(lists: seq<seq<Item>>, weights: seq<real>): seq<Weighted>
    requires |lists| == |weights|
  {
    seq(|lists|, i requires 0 <= i < |lists| => (lists[i], weights[i]))
  }

  function PairScore(k: int, p: Weighted, id: string): real {
    ListScore(k, p.1, p.0, |p.0|, id)
  }

  function PairSum(k: int, ps: seq<Weighted>, id: string): real
    decreases |ps|
  {
    if ps == [] then 0.0 else PairSum(k, ps[..|ps| - 1], id) + PairScore(k, ps[|ps| - 1], id)
  }

  lemma {:induction false} PairSumConcat(k: int, a: seq<Weighted>, b: seq<Weighted>, id: string)
    ensures PairSum(k, a + b, id) == PairSum(k, a, id) + PairSum(k, b, id)
    decreases |b|
  {
    if b == [] {
      assert a + b == a;
    } else {
      PairSumConcat(k, a, b[..|b| - 1], id);
      assert (a + b)[..|a + b| - 1] == a + b[..|b| - 1];
    }
  }

  lemma MiddleOut<T>(left: seq<T>, x: T, right: seq<T>)
    ensures multiset(left + ([x] + right)) == multiset(left + right) + multiset{x}
  {
  }

  lemma CancelOne<T>(a: multiset<T>, b: multiset<T>, x: T)
    requires a + multiset{x} == b + multiset{x}
    ensures a == b
  {
    assert a == (a + multiset{x}) - multiset{x};
  }

  lemma PickOut<T>(ps: seq<T>, qs: seq<T>) returns (init: seq<T>, last: T, left: seq<T>, right: seq<T>)
    requires multiset(ps) == multiset(qs) && ps != []
    ensures ps == init + [last] && qs == left + ([last] + right)
    ensures multiset(init) == multiset(left + right)
  {
    init, last := ps[..|ps| - 1], ps[|ps| - 1];
    assert ps == init + [last];
    assert last in multiset(qs);
    var i :| 0 <= i < |qs| && qs[i] == last;
    left, right := qs[..i], qs[i + 1..];
    assert qs == left + ([last] + right);
    MiddleOut(left, last, right);
    CancelOne(multiset(init), multiset(left + right), last);
  }

  lemma {:induction false} PairSumIgnoresOrder(k: int, ps: seq<Weighted>, qs: seq<Weighted>, id: string)
    requires multiset(ps) == multiset(qs)
    ensures PairSum(k, ps, id) == PairSum(k, qs, id)
    decreases |ps|
  {
    if ps == [] {
      assert |multiset(qs)| == 0;
    } else {
      var init, last, left, right := PickOut(ps, qs);
      PairSumIgnoresOrder(k, init, left + right, id);
      PairSumConcat(k, left, right, id);
      PairSumConcat(k, left, [last] + right, id);
      PairSumConcat(k, [last], right, id);
      PairSumConcat(k, init, [last], id);
    }
  }

  lemma {:induction false} ScoreIsPairSum(k: int, lists: seq<seq<Item>>, weights: seq<real>, n: nat, id: string)
    requires n <= |lists| == |weights|
    ensures Score(k, lists, weights, n, id) == PairSum(k, Zip(lists, weights)[..n], id)
  {
    if n > 0 {
      ScoreIsPairSum(k, lists, weights, n - 1, id);
      assert Zip(lists, weights)[..n][..n - 1] == Zip(lists, weights)[..n - 1];
    }
  }

  /** Permuting the lists together with their weights leaves every score as it is. */
  lemma ScoresIgnoreListOrder(k: int, lists: seq<seq<Item>>, weights: seq<real>,
                              lists': seq<seq<Item>>, weights': seq<real>, id: string)
    requires |lists| == |weights| && |lists'| == |weights'|
    requires multiset(Zip(lists, weights)) == multiset(Zip(lists', weights'))
    ensures RrfScore(k, lists, weights, id) == RrfScore(k, lists', weights', id)
  {
    ScoreIsPairSum(k, lists, weights, |lists|, id);
    ScoreIsPairSum(k, lists', weights', |lists'|, id);
    assert Zip(lists, weights)[..|lists|] == Zip(lists, weights);
    assert Zip(lists', weights')[..|lists'|] == Zip(lists', weights');
    PairSumIgnoresOrder(k, Zip(lists, weights), Zip(lists', weights'), id);
  }
}
