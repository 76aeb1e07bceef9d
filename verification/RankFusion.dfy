/** Reciprocal rank fusion: the declarative score, the ranking by it, and the accumulating
    loops that compute both. Floating-point numbers are reals. */
module RankFusion {
  /** The mark a specialised fusion puts on its inputs. */
  datatype SourceType = NoSearch | VectorSearch | GraphSearch

  /** A search result; a missing or empty `id` takes it out of the fusion. */
  datatype Item = Item(id: string, text: string, score: real, sourceType: SourceType)

  datatype Source = Source(list: nat, rank: nat, originalScore: real)

  datatype Fused = Fused(item: Item, sources: seq<Source>, rrfScore: real, fusionRank: nat)

  datatype FusionError = WeightsMismatch | DivisionByZero

  // ---------------------------------------------------------------- the declarative score

  /** The share of one occurrence at a rank, ranks counting from one. */
  function Share(k: int, weight: real, rank: int): real {
    if k + rank == 0 then 0.0 else weight * (1.0 / ((k + rank) as real))
  }

  /** What the first `n` places of a list contribute to an id. */
  function ListScore(k: int, weight: real, results: seq<Item>, n: nat, id: string): real
    requires n <= |results|
  {
    if n == 0 then 0.0
    else ListScore(k, weight, results, n - 1, id) + (if results[n - 1].id == id then Share(k, weight, n) else 0.0)
  }

  /** The sum of the shares over all occurrences in the first `n` lists. */
  function Score(k: int, lists: seq<seq<Item>>, weights: seq<real>, n: nat, id: string): real
    requires n <= |lists| == |weights|
  {
    if n == 0 then 0.0
    else Score(k, lists, weights, n - 1, id) + ListScore(k, weights[n - 1], lists[n - 1], |lists[n - 1]|, id)
  }

  function RrfScore(k: int, lists: seq<seq<Item>>, weights: seq<real>, id: string): real
    requires |lists| == |weights|
  {
    Score(k, lists, weights, |lists|, id)
  }

  // ---------------------------------------------------------------- occurrences, in reading order

  datatype Occurrence = Occurrence(item: Item, source: Source)

  function ListOccurrences(results: seq<Item>, n: nat, list: nat): seq<Occurrence>
    requires n <= |results|
  {
    if n == 0 then []
    else
      var before := ListOccurrences(results, n - 1, list);
      var item := results[n - 1];
      if item.id == "" then before else before + [Occurrence(item, Source(list, n, item.score))]
  }

  function Occurrences(lists: seq<seq<Item>>, n: nat): seq<Occurrence>
    requires n <= |lists|
  {
    if n == 0 then [] else Occurrences(lists, n - 1) + ListOccurrences(lists[n - 1], |lists[n - 1]|, n - 1)
  }

  /** Ids in order of first appearance. */
  function Ids(occs: seq<Occurrence>): seq<string>
    decreases |occs|
  {
    if occs == [] then []
    else
      var before := Ids(occs[..|occs| - 1]);
      var id := occs[|occs| - 1].item.id;
      if id in before then before else before + [id]
  }

  function SourcesOf(occs: seq<Occurrence>, id: string): seq<Source>
    decreases |occs|
  {
    if occs == [] then []
    else
      var last := occs[|occs| - 1];
      var before := SourcesOf(occs[..|occs| - 1], id);
      if last.item.id == id then before + [last.source] else before
  }

  /** The item an id first appeared as. */
  function FirstItem(occs: seq<Occurrence>, id: string): Item
    requires id in Ids(occs)
    decreases |occs|
  {
    if id in Ids(occs[..|occs| - 1]) then FirstItem(occs[..|occs| - 1], id) else occs[|occs| - 1].item
  }

  /** The score read off recorded sources. */
  function SourceScore(k: int, weights: seq<real>, sources: seq<Source>): real
    decreases |sources|
  {
    if sources == [] then 0.0
    else
      var last := sources[|sources| - 1];
      SourceScore(k, weights, sources[..|sources| - 1])
      + (if last.list < |weights| then Share(k, weights[last.list], last.rank) else 0.0)
  }

  lemma SourcesSnoc(occs: seq<Occurrence>, o: Occurrence, id: string)
    ensures SourcesOf(occs + [o], id) ==
              if o.item.id == id then SourcesOf(occs, id) + [o.source] else SourcesOf(occs, id)
    ensures Ids(occs + [o]) == if o.item.id in Ids(occs) then Ids(occs) else Ids(occs) + [o.item.id]
  {
  }

  lemma {:induction false} SourcesConcat(a: seq<Occurrence>, b: seq<Occurrence>, id: string)
    ensures SourcesOf(a + b, id) == SourcesOf(a, id) + SourcesOf(b, id)
    decreases |b|
  {
    if b == [] {
      assert a + b == a;
    } else {
      SourcesConcat(a, b[..|b| - 1], id);
      assert (a + b)[..|a + b| - 1] == a + b[..|b| - 1];
    }
  }

  lemma {:induction false} SourceScoreConcat(k: int, weights: seq<real>, a: seq<Source>, b: seq<Source>)
    ensures SourceScore(k, weights, a + b) == SourceScore(k, weights, a) + SourceScore(k, weights, b)
    decreases |b|
  {
    if b == [] {
      assert a + b == a;
    } else {
      SourceScoreConcat(k, weights, a, b[..|b| - 1]);
      assert (a + b)[..|a + b| - 1] == a + b[..|b| - 1];
    }
  }

  lemma SourceScoreSnoc(k: int, weights: seq<real>, a: seq<Source>, s: Source)
    ensures SourceScore(k, weights, a + [s])
         == SourceScore(k, weights, a) + (if s.list < |weights| then Share(k, weights[s.list], s.rank) else 0.0)
  {
  }

  lemma {:induction false} ListScoreFromSources(k: int, weights: seq<real>, results: seq<Item>, n: nat, list: nat,
                                                id: string)
    requires n <= |results| && list < |weights| && id != ""
    ensures SourceScore(k, weights, SourcesOf(ListOccurrences(results, n, list), id))
         == ListScore(k, weights[list], results, n, id)
  {
    if n > 0 {
      ListScoreFromSources(k, weights, results, n - 1, list, id);
      var item := results[n - 1];
      var before := ListOccurrences(results, n - 1, list);
      if item.id != "" { OneMoreScored(k, weights, before, Occurrence(item, Source(list, n, item.score)), id); }
    }
  }

  lemma OneMoreScored(k: int, weights: seq<real>, before: seq<Occurrence>, o: Occurrence, id: string)
    requires o.source.list < |weights|
    ensures SourceScore(k, weights, SourcesOf(before + [o], id)) ==
              SourceScore(k, weights, SourcesOf(before, id))
              + (if o.item.id == id then Share(k, weights[o.source.list], o.source.rank) else 0.0)
  {
    SourcesSnoc(before, o, id);
    SourceScoreSnoc(k, weights, SourcesOf(before, id), o.source);
  }

  lemma OneMoreList(k: int, weights: seq<real>, before: seq<Occurrence>, last: seq<Occurrence>, id: string)
    ensures SourceScore(k, weights, SourcesOf(before + last, id)) ==
              SourceScore(k, weights, SourcesOf(before, id)) + SourceScore(k, weights, SourcesOf(last, id))
  {
    SourcesConcat(before, last, id);
    SourceScoreConcat(k, weights, SourcesOf(before, id), SourcesOf(last, id));
  }

  lemma LastList(k: int, lists: seq<seq<Item>>, weights: seq<real>, n: nat, id: string)
    returns (last: seq<Occurrence>, score: real)
    requires 0 < n <= |lists| == |weights| && id != ""
    ensures Occurrences(lists, n) == Occurrences(lists, n - 1) + last
    ensures Score(k, lists, weights, n, id) == Score(k, lists, weights, n - 1, id) + score
    ensures SourceScore(k, weights, SourcesOf(last, id)) == score
  {
    var results := lists[n - 1];
    last := ListOccurrences(results, |results|, n - 1);
    score := ListScore(k, weights[n - 1], results, |results|, id);
    ListScoreFromSources(k, weights, results, |results|, n - 1, id);
  }

  /** The declarative score is the score over the sources recorded for the id. */
  lemma {:induction false} ScoreFromSources(k: int, lists: seq<seq<Item>>, weights: seq<real>, n: nat, id: string)
    requires n <= |lists| == |weights| && id != ""
    ensures SourceScore(k, weights, SourcesOf(Occurrences(lists, n), id)) == Score(k, lists, weights, n, id)
  {
    if n > 0 {
      ScoreFromSources(k, lists, weights, n - 1, id);
      var last, score := LastList(k, lists, weights, n, id);
      OneMoreList(k, weights, Occurrences(lists, n - 1), last, id);
    }
  }

  // ---------------------------------------------------------------- stable descending order

  type Scores = map<string, real>

  predicate Distinct(ids: seq<string>) {
    forall i, j | 0 <= i < j < |ids| :: ids[i] != ids[j]
  }

  predicate Scored(ids: seq<string>, scores: Scores) {
    forall i | 0 <= i < |ids| :: ids[i] in scores
  }

  /** Where a new last element goes: after everything that scores at least as much. */
  function InsertDesc(sorted: seq<string>, id: string, scores: Scores): seq<string>
    requires Scored(sorted, scores) && id in scores
    decreases |sorted|
  {
    if sorted != [] && scores[sorted[|sorted| - 1]] < scores[id]
    then InsertDesc(sorted[..|sorted| - 1], id, scores) + [sorted[|sorted| - 1]]
    else sorted + [id]
  }

  /** Python's `sorted(…, reverse=True)`, which keeps the order of equal scores. */
  function SortDesc(ids: seq<string>, scores: Scores): (r: seq<string>)
    requires Scored(ids, scores)
    ensures multiset(r) == multiset(ids) && Scored(r, scores)
    decreases |ids|
  {
    if ids == [] then []
    else
      var before := SortDesc(ids[..|ids| - 1], scores);
      InsertKeepsElements(before, ids[|ids| - 1], scores);
      assert ids == ids[..|ids| - 1] + [ids[|ids| - 1]];
      InsertDesc(before, ids[|ids| - 1], scores)
  }

  lemma {:induction false} InsertKeepsElements(sorted: seq<string>, id: string, scores: Scores)
    requires Scored(sorted, scores) && id in scores
    ensures multiset(InsertDesc(sorted, id, scores)) == multiset(sorted) + multiset{id}
    ensures Scored(InsertDesc(sorted, id, scores), scores)
    decreases |sorted|
  {
    if sorted != [] && scores[sorted[|sorted| - 1]] < scores[id] {
      InsertKeepsElements(sorted[..|sorted| - 1], id, scores);
      assert sorted == sorted[..|sorted| - 1] + [sorted[|sorted| - 1]];
    }
  }

  /** The position an id has in the order of first appearance. */
  function Position(ids: seq<string>, id: string): (p: nat)
    requires id in ids
    ensures p < |ids| && ids[p] == id
    decreases |ids|
  {
    if ids[|ids| - 1] == id then |ids| - 1 else Position(ids[..|ids| - 1], id)
  }

  /** Higher score first; of equal scores, the earlier appearance first. */
  predicate Precedes(ids: seq<string>, scores: Scores, a: string, b: string)
    requires a in ids && b in ids && a in scores && b in scores
  {
    scores[a] > scores[b] || (scores[a] == scores[b] && Position(ids, a) < Position(ids, b))
  }

  predicate Ranked(ids: seq<string>, scores: Scores, r: seq<string>) {
    && Scored(r, scores)
    && (forall i | 0 <= i < |r| :: r[i] in ids)
    && forall i, j | 0 <= i < j < |r| :: Precedes(ids, scores, r[i], r[j])
  }

  lemma InsertRanks(ids: seq<string>, scores: Scores, sorted: seq<string>)
    requires ids != [] && Distinct(ids) && Scored(ids, scores)
    requires Ranked(ids[..|ids| - 1], scores, sorted)
    ensures Ranked(ids, scores, InsertDesc(sorted, ids[|ids| - 1], scores))
  {
    var id := ids[|ids| - 1];
    var before := ids[..|ids| - 1];
    assert Ranked(ids, scores, sorted) by {
      forall i, j | 0 <= i < j < |sorted| ensures Precedes(ids, scores, sorted[i], sorted[j]) {
        assert Precedes(before, scores, sorted[i], sorted[j]);
        assert sorted[i] != id && sorted[j] != id;
      }
    }
    forall i | 0 <= i < |sorted|
      ensures sorted[i] in ids && sorted[i] != id && Position(ids, sorted[i]) < Position(ids, id)
    {
      assert sorted[i] in before;
    }
    InsertLast(ids, scores, sorted, id);
  }

  lemma {:induction false} InsertLast(ids: seq<string>, scores: Scores, sorted: seq<string>, id: string)
    requires Ranked(ids, scores, sorted) && id in ids && id in scores
    requires forall i | 0 <= i < |sorted| :: sorted[i] in ids && Position(ids, sorted[i]) < Position(ids, id)
    ensures Ranked(ids, scores, InsertDesc(sorted, id, scores))
    ensures forall x | x in InsertDesc(sorted, id, scores) :: x == id || x in sorted
    decreases |sorted|
  {
    if sorted != [] {
      var init, last := sorted[..|sorted| - 1], sorted[|sorted| - 1];
      if scores[last] < scores[id] {
        InsertLast(ids, scores, init, id);
        var r := InsertDesc(init, id, scores);
        forall i | 0 <= i < |r| ensures Precedes(ids, scores, r[i], last) {
          assert r[i] == id || r[i] in init;
          if r[i] in init {
            var p :| 0 <= p < |init| && init[p] == r[i];
            assert Precedes(ids, scores, sorted[p], sorted[|sorted| - 1]);
          }
        }
      } else {
        forall i | 0 <= i < |sorted| ensures Precedes(ids, scores, sorted[i], id) {
          if i < |sorted| - 1 { assert Precedes(ids, scores, sorted[i], sorted[|sorted| - 1]); }
        }
      }
    }
  }

  lemma {:induction false} SortRanks(ids: seq<string>, scores: Scores)
    requires Distinct(ids) && Scored(ids, scores)
    ensures Ranked(ids, scores, SortDesc(ids, scores))
    decreases |ids|
  {
    if ids != [] {
      SortRanks(ids[..|ids| - 1], scores);
      InsertRanks(ids, scores, SortDesc(ids[..|ids| - 1], scores));
    }
  }
}
