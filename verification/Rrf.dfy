/** `RRFusion.fuse`: the loops, and what the fused list is. */
module Rrf {
  import opened RankFusion
  import opened Wrappers

  /** Python's `s[:limit]`. */
  function TakeLimit<T>(s: seq<T>, limit: int): (r: seq<T>)
    ensures r <= s
  {
    if limit >= |s| then s
    else if limit >= 0 then s[..limit]
    else if |s| + limit >= 0 then s[..|s| + limit]
    else []
  }

  function ScoreMap(k: int, weights: seq<real>, occs: seq<Occurrence>): (m: Scores)
    ensures forall id :: id in m <==> id in Ids(occs)
    ensures forall id | id in m :: m[id] == SourceScore(k, weights, SourcesOf(occs, id))
  {
    map id | id in Ids(occs) :: SourceScore(k, weights, SourcesOf(occs, id))
  }

  function Entry(k: int, weights: seq<real>, occs: seq<Occurrence>, id: string, rank: nat): Fused
    requires id in Ids(occs)
  {
    Fused(FirstItem(occs, id), SourcesOf(occs, id), SourceScore(k, weights, SourcesOf(occs, id)), rank)
  }

  function Top(k: int, weights: seq<real>, occs: seq<Occurrence>, limit: int): (r: seq<string>)
    ensures forall i | 0 <= i < |r| :: r[i] in Ids(occs)
  {
    var sorted := SortDesc(Ids(occs), ScoreMap(k, weights, occs));
    assert forall i | 0 <= i < |sorted| :: sorted[i] in multiset(sorted);
    TakeLimit(sorted, limit)
  }

  function Entries(k: int, weights: seq<real>, occs: seq<Occurrence>, top: seq<string>): (r: seq<Fused>)
    requires forall i | 0 <= i < |top| :: top[i] in Ids(occs)
    ensures |r| == |top|
    ensures forall i | 0 <= i < |top| :: r[i] == Entry(k, weights, occs, top[i], i + 1)
  {
    seq(|top|, i requires 0 <= i < |top| => Entry(k, weights, occs, top[i], i + 1))
  }

  function Fusion(k: int, weights: seq<real>, occs: seq<Occurrence>, limit: int): seq<Fused> {
    Entries(k, weights, occs, Top(k, weights, occs, limit))
  }

  /** Some item's rank makes `k + rank` zero. */
  predicate DividesByZero(k: int, occs: seq<Occurrence>) {
    exists o :: o in occs && k + o.source.rank == 0
  }

  function EqualWeights(n: nat): seq<real> {
    seq(n, _ => 1.0)
  }

  function WeightsFor(lists: seq<seq<Item>>, weights: Option<seq<real>>): seq<real> {
    if weights.None? then EqualWeights(|lists|) else weights.value
  }

  /** The accumulators: two dictionaries of the source, the second split into the item and
      its sources, and the order in which keys were first put in. */
  datatype Accumulators = Accumulators(
    scores: Scores,
    data: map<string, Item>,
    sources: map<string, seq<Source>>,
    order: seq<string>)

  /** What the accumulators hold for one id after the occurrences `done`. */
  predicate HoldsFor(k: int, weights: seq<real>, done: seq<Occurrence>, acc: Accumulators, id: string) {
    && id in Ids(done)
    && id in acc.scores && acc.scores[id] == SourceScore(k, weights, SourcesOf(done, id))
    && id in acc.data && acc.data[id] == FirstItem(done, id)
    && id in acc.sources && acc.sources[id] == SourcesOf(done, id)
  }

  ghost predicate Accumulated(k: int, weights: seq<real>, done: seq<Occurrence>, acc: Accumulators) {
    && acc.order == Ids(done)
    && (forall id | id in acc.order :: HoldsFor(k, weights, done, acc, id))
    && (forall id | id in acc.scores || id in acc.data || id in acc.sources :: id in acc.order)
  }

  lemma {:induction false} SourcesOfUnseen(occs: seq<Occurrence>, id: string)
    ensures id !in Ids(occs) ==> SourcesOf(occs, id) == []
    decreases |occs|
  {
    if occs != [] { SourcesOfUnseen(occs[..|occs| - 1], id); }
  }

  lemma FirstItemSnoc(done: seq<Occurrence>, o: Occurrence, id: string)
    requires id in Ids(done + [o])
    ensures FirstItem(done + [o], id) == if id in Ids(done) then FirstItem(done, id) else o.item
  {
  }

  function ShareOf(k: int, weights: seq<real>, source: Source): real {
    if source.list < |weights| then Share(k, weights[source.list], source.rank) else 0.0
  }

  function Accumulate(k: int, weights: seq<real>, acc: Accumulators, o: Occurrence): Accumulators {
    var id := o.item.id;
    var score := if id in acc.scores then acc.scores[id] else 0.0;
    var known := if id in acc.sources then acc.sources[id] else [];
    Accumulators(
      acc.scores[id := score + ShareOf(k, weights, o.source)],
      if id in acc.data then acc.data else acc.data[id := o.item],
      acc.sources[id := known + [o.source]],
      if id in acc.scores then acc.order else acc.order + [id])
  }

  /** The accumulators after a run of occurrences. */
  function Folded(k: int, weights: seq<real>, done: seq<Occurrence>): Accumulators
    decreases |done|
  {
    if done == [] then Accumulators(map[], map[], map[], [])
    else Accumulate(k, weights, Folded(k, weights, done[..|done| - 1]), done[|done| - 1])
  }

  lemma AccumulateOther(k: int, weights: seq<real>, done: seq<Occurrence>, acc: Accumulators, o: Occurrence, x: string)
    requires HoldsFor(k, weights, done, acc, x) && x != o.item.id
    ensures HoldsFor(k, weights, done + [o], Accumulate(k, weights, acc, o), x)
  {
  }

  lemma AccumulateSame(k: int, weights: seq<real>, done: seq<Occurrence>, acc: Accumulators, o: Occurrence)
    requires Accumulated(k, weights, done, acc)
    ensures HoldsFor(k, weights, done + [o], Accumulate(k, weights, acc, o), o.item.id)
  {
    var id := o.item.id;
    SourcesSnoc(done, o, id);
    SourcesOfUnseen(done, id);
    SourceScoreSnoc(k, weights, SourcesOf(done, id), o.source);
    FirstItemSnoc(done, o, id);
    if id in acc.order { assert HoldsFor(k, weights, done, acc, id); }
  }

  lemma AccumulateOne(k: int, weights: seq<real>, done: seq<Occurrence>, acc: Accumulators, o: Occurrence)
    requires Accumulated(k, weights, done, acc)
    ensures Accumulated(k, weights, done + [o], Accumulate(k, weights, acc, o))
  {
    var acc' := Accumulate(k, weights, acc, o);
    var id := o.item.id;
    SourcesSnoc(done, o, id);
    assert id in acc.order ==> HoldsFor(k, weights, done, acc, id);
    AccumulateSame(k, weights, done, acc, o);
    forall x | x in acc'.order ensures HoldsFor(k, weights, done + [o], acc', x) {
      if x != id { AccumulateOther(k, weights, done, acc, o, x); }
    }
  }

  lemma {:induction false} FoldedIsAccumulated(k: int, weights: seq<real>, done: seq<Occurrence>)
    ensures Accumulated(k, weights, done, Folded(k, weights, done))
    decreases |done|
  {
    if done != [] {
      var before, last := Unsnoc(done);
      FoldedIsAccumulated(k, weights, before);
      AccumulateOne(k, weights, before, Folded(k, weights, before), last);
      FoldedSnoc(k, weights, before, last);
    }
  }

  lemma Unsnoc<T>(s: seq<T>) returns (before: seq<T>, last: T)
    requires s != []
    ensures s == before + [last] && |before| < |s|
  {
    before, last := s[..|s| - 1], s[|s| - 1];
  }

  lemma FoldedSnoc(k: int, weights: seq<real>, done: seq<Occurrence>, o: Occurrence)
    ensures Folded(k, weights, done + [o]) == Accumulate(k, weights, Folded(k, weights, done), o)
  {
  }

  lemma FoldedScores(k: int, weights: seq<real>, done: seq<Occurrence>)
    ensures Folded(k, weights, done).order == Ids(done) && Folded(k, weights, done).scores == ScoreMap(k, weights, done)
  {
    FoldedIsAccumulated(k, weights, done);
    var acc := Folded(k, weights, done);
    assert forall id | id in acc.order :: HoldsFor(k, weights, done, acc, id);
  }

  lemma RankingIsTop(k: int, weights: seq<real>, done: seq<Occurrence>, limit: int)
    ensures var acc := Folded(k, weights, done);
            && Scored(acc.order, acc.scores)
            && TakeLimit(SortDesc(acc.order, acc.scores), limit) == Top(k, weights, done, limit)
  {
    FoldedScores(k, weights, done);
  }

  lemma FoldedEntry(k: int, weights: seq<real>, done: seq<Occurrence>, id: string, rank: nat)
    requires id in Ids(done)
    ensures var acc := Folded(k, weights, done);
            && id in acc.data && id in acc.sources && id in acc.scores
            && Fused(acc.data[id], acc.sources[id], acc.scores[id], rank) == Entry(k, weights, done, id, rank)
  {
    FoldedIsAccumulated(k, weights, done);
    assert HoldsFor(k, weights, done, Folded(k, weights, done), id);
  }

  predicate SameKeys(acc: Accumulators) {
    acc.scores.Keys == acc.data.Keys == acc.sources.Keys
  }

  lemma {:induction false} FoldedSameKeys(k: int, weights: seq<real>, done: seq<Occurrence>)
    ensures SameKeys(Folded(k, weights, done))
    decreases |done|
  {
    if done != [] {
      var before, last := Unsnoc(done);
      FoldedSameKeys(k, weights, before);
      FoldedSnoc(k, weights, before, last);
    }
  }

  lemma DividesSnoc(k: int, done: seq<Occurrence>, o: Occurrence)
    ensures DividesByZero(k, done + [o]) <==> DividesByZero(k, done) || k + o.source.rank == 0
  {
  }

  lemma {:induction false} OccursInList(results: seq<Item>, n: nat, m: nat, list: nat, o: Occurrence)
    requires n <= m <= |results| && o in ListOccurrences(results, n, list)
    ensures o in ListOccurrences(results, m, list)
    decreases m
  {
    if n < m { OccursInList(results, n, m - 1, list, o); }
  }

  lemma {:induction false} OccursInLists(lists: seq<seq<Item>>, n: nat, m: nat, o: Occurrence)
    requires n <= m <= |lists| && o in Occurrences(lists, n)
    ensures o in Occurrences(lists, m)
    decreases m
  {
    if n < m { OccursInLists(lists, n, m - 1, o); }
  }

  lemma OccursInAll(lists: seq<seq<Item>>, list: nat, rank: nat, o: Occurrence)
    requires list < |lists| && rank <= |lists[list]| && o in ListOccurrences(lists[list], rank, list)
    ensures o in Occurrences(lists, |lists|)
  {
    OccursInList(lists[list], rank, |lists[list]|, list, o);
    assert o in Occurrences(lists, list + 1);
    OccursInLists(lists, list + 1, |lists|, o);
  }

  lemma NextPlace(before: seq<Occurrence>, results: seq<Item>, place: nat, list: nat)
    requires place < |results|
    ensures before + ListOccurrences(results, place + 1, list) ==
              var so := before + ListOccurrences(results, place, list);
              var item := results[place];
              if item.id == "" then so else so + [Occurrence(item, Source(list, place + 1, item.score))]
  {
  }

  lemma TakeIn(k: int, weights: seq<real>, done: seq<Occurrence>, o: Occurrence)
    ensures SameKeys(Folded(k, weights, done))
    ensures Folded(k, weights, done + [o]) == Accumulate(k, weights, Folded(k, weights, done), o)
    ensures DividesByZero(k, done + [o]) <==> DividesByZero(k, done) || k + o.source.rank == 0
  {
    DividesSnoc(k, done, o);
    FoldedSnoc(k, weights, done, o);
    FoldedSameKeys(k, weights, done);
  }

  // ---------------------------------------------------------------- the loops

  /** One turn of the inner loop: the statements that update the two dictionaries. */
  method Add(k: int, weight: real, item: Item, source: Source, acc: Accumulators, ghost weights: seq<real>)
    returns (r: Accumulators)
    requires source.list < |weights| && weights[source.list] == weight && k + source.rank != 0
    requires SameKeys(acc)
    ensures r == Accumulate(k, weights, acc, Occurrence(item, source))
  {
    var id := item.id;
    var rrfScore := weight * (1.0 / ((k + source.rank) as real));
    var scores, data, sources, order := acc.scores, acc.data, acc.sources, acc.order;
    assert rrfScore == ShareOf(k, weights, source);
    if id !in scores {
      assert id !in data.Keys && id !in sources.Keys;
      scores := scores[id := 0.0]; // the dictionary's default
      order := order + [id];
      data := data[id := item];
      sources := sources[id := []];
    } else {
      assert id in data.Keys && id in sources.Keys;
    }
    scores := scores[id := scores[id] + rrfScore];
    sources := sources[id := sources[id] + [source]];
    r := Accumulators(scores, data, sources, order);
    ghost var goal := Accumulate(k, weights, acc, Occurrence(item, source));
    assert r.scores == goal.scores;
    assert r.sources == goal.sources;
  }

  /** The occurrences in the lists before one, and in its first places. */
  function OccurrencesUpTo(lists: seq<seq<Item>>, list: nat, place: nat): seq<Occurrence>
    requires list < |lists| && place <= |lists[list]|
  {
    Occurrences(lists, list) + ListOccurrences(lists[list], place, list)
  }

  lemma UpToEnds(lists: seq<seq<Item>>, list: nat)
    requires list < |lists|
    ensures OccurrencesUpTo(lists, list, 0) == Occurrences(lists, list)
    ensures OccurrencesUpTo(lists, list, |lists[list]|) == Occurrences(lists, list + 1)
  {
  }

  /** One turn of the inner loop, with its skip and its division. */
  method AddPlace(k: int, weights: seq<real>, lists: seq<seq<Item>>, list: nat, place: nat, acc: Accumulators)
    returns (r: Result<Accumulators, FusionError>)
    requires list < |lists| == |weights| && place < |lists[list]|
    requires acc == Folded(k, weights, OccurrencesUpTo(lists, list, place))
    requires !DividesByZero(k, OccurrencesUpTo(lists, list, place))
    ensures r.Success? ==>
              && r.value == Folded(k, weights, OccurrencesUpTo(lists, list, place + 1))
              && !DividesByZero(k, OccurrencesUpTo(lists, list, place + 1))
    ensures r.Failure? ==> r.error == DivisionByZero && DividesByZero(k, Occurrences(lists, |lists|))
  {
    ghost var done := OccurrencesUpTo(lists, list, place);
    var item := lists[list][place];
    var rank := place + 1;
    NextPlace(Occurrences(lists, list), lists[list], place, list);
    if item.id == "" {
      return Success(acc);
    }
    var source := Source(list, rank, item.score);
    ghost var o := Occurrence(item, source);
    if k + rank == 0 {
      OccursInAll(lists, list, rank, o);
      return Failure(DivisionByZero);
    }
    TakeIn(k, weights, done, o);
    var next := Add(k, weights[list], item, source, acc, weights);
    r := Success(next);
  }

  /** The inner loop, over one list. */
  method AddList(k: int, weights: seq<real>, lists: seq<seq<Item>>, list: nat, acc0: Accumulators)
    returns (r: Result<Accumulators, FusionError>)
    requires list < |lists| == |weights|
    requires acc0 == Folded(k, weights, Occurrences(lists, list)) && !DividesByZero(k, Occurrences(lists, list))
    ensures r.Success? ==>
              && r.value == Folded(k, weights, Occurrences(lists, list + 1))
              && !DividesByZero(k, Occurrences(lists, list + 1))
    ensures r.Failure? ==> r.error == DivisionByZero && DividesByZero(k, Occurrences(lists, |lists|))
  {
    var acc := acc0;
    var results := lists[list];
    UpToEnds(lists, list);
    for place := 0 to |results|
      invariant acc == Folded(k, weights, OccurrencesUpTo(lists, list, place))
      invariant !DividesByZero(k, OccurrencesUpTo(lists, list, place))
    {
      var next := AddPlace(k, weights, lists, list, place, acc);
      if next.Failure? {
        return Failure(next.error);
      }
      acc := next.value;
    }
    r := Success(acc);
  }

  /** Copying the accumulators into results, in the order of the ranking. */
  method CopyResults(k: int, weights: seq<real>, ghost done: seq<Occurrence>, acc: Accumulators, top: seq<string>)
    returns (results: seq<Fused>)
    requires acc == Folded(k, weights, done)
    requires forall i | 0 <= i < |top| :: top[i] in Ids(done)
    ensures results == Entries(k, weights, done, top)
  {
    results := [];
    for i := 0 to |top|
      invariant |results| == i
      invariant forall j | 0 <= j < i :: results[j] == Entry(k, weights, done, top[j], j + 1)
    {
      var id := top[i];
      FoldedEntry(k, weights, done, id, i + 1);
      results := results + [Fused(acc.data[id], acc.sources[id], acc.scores[id], |results| + 1)];
    }
  }

  /** `RRFusion.fuse` */
  method Fuse(k: int, lists: seq<seq<Item>>, optionalWeights: Option<seq<real>>, limit: int)
    returns (r: Result<seq<Fused>, FusionError>)
    ensures r == if lists == [] then Success([])
                 else if optionalWeights.Some? && |optionalWeights.value| != |lists| then Failure(WeightsMismatch)
                 else if DividesByZero(k, Occurrences(lists, |lists|)) then Failure(DivisionByZero)
                 else Success(Fusion(k, WeightsFor(lists, optionalWeights), Occurrences(lists, |lists|), limit))
  {
    if lists == [] {
      return Success([]);
    }
    var weights := WeightsFor(lists, optionalWeights);
    if |weights| != |lists| {
      return Failure(WeightsMismatch);
    }
    var acc := Accumulators(map[], map[], map[], []);
    for listIdx := 0 to |lists|
      invariant acc == Folded(k, weights, Occurrences(lists, listIdx))
      invariant !DividesByZero(k, Occurrences(lists, listIdx))
    {
      var next := AddList(k, weights, lists, listIdx, acc);
      if next.Failure? {
        return Failure(next.error);
      }
      acc := next.value;
    }
    ghost var done := Occurrences(lists, |lists|);
    RankingIsTop(k, weights, done, limit);
    var sortedItems := TakeLimit(SortDesc(acc.order, acc.scores), limit);
    var results := CopyResults(k, weights, done, acc, sortedItems);
    r := Success(results);
  }
}
