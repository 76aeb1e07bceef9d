/** Where a fused result comes from: its sources, its item and its score, told from the lists. */
module FusedFromLists {
  import opened HybridFusion
  import opened RankFusion
  import opened Rrf
  import opened RrfTheorems

  /** A source names a place of the lists that holds the id, and the score found there. */
  predicate Names(lists: seq<seq<Item>>, s: Source, id: string) {
    && s.list < |lists| && 1 <= s.rank <= |lists[s.list]|
    && lists[s.list][s.rank - 1].id == id && lists[s.list][s.rank - 1].score == s.originalScore
  }

  predicate HeldAt(lists: seq<seq<Item>>, s: Source, item: Item) {
    s.list < |lists| && 1 <= s.rank <= |lists[s.list]| && lists[s.list][s.rank - 1] == item
  }

  /** The first stands in an earlier list, or before the second in the same one. */
  predicate ReadBefore(s: Source, t: Source) {
    s.list < t.list || (s.list == t.list && s.rank < t.rank)
  }

  predicate InReadingOrder(sources: seq<Source>) {
    forall i, j | 0 <= i < j < |sources| :: ReadBefore(sources[i], sources[j])
  }

  /** The sum of `weight / (k + rank)` over sources. */
  function WeightOverRank(k: int, weights: seq<real>, sources: seq<Source>): real
    requires forall s | s in sources :: s.list < |weights| && k + s.rank != 0
    decreases |sources|
  {
    if sources == [] then 0.0
    else
      var last := sources[|sources| - 1];
      WeightOverRank(k, weights, sources[..|sources| - 1]) + weights[last.list] / ((k + last.rank) as real)
  }

  /** Every occurrence is one of the places read so far: all of the first `list` lists, and
      the first `place` of the next. */
  predicate Read(lists: seq<seq<Item>>, list: nat, place: nat, o: Occurrence) {
    && Names(lists, o.source, o.item.id) && o.item.id != ""
    && lists[o.source.list][o.source.rank - 1] == o.item
    && (o.source.list < list || (o.source.list == list && o.source.rank <= place))
  }

  predicate OccursInOrder(occs: seq<Occurrence>) {
    forall i, j | 0 <= i < j < |occs| :: ReadBefore(occs[i].source, occs[j].source)
  }

  lemma {:induction false} ListIsRead(lists: seq<seq<Item>>, list: nat, n: nat)
    requires list < |lists| && n <= |lists[list]|
    ensures forall o | o in ListOccurrences(lists[list], n, list) :: Read(lists, list, n, o) && o.source.list == list
    ensures OccursInOrder(ListOccurrences(lists[list], n, list))
  {
    if n > 0 {
      ListIsRead(lists, list, n - 1);
    }
  }

  lemma OrderOfConcat(a: seq<Occurrence>, b: seq<Occurrence>)
    requires OccursInOrder(a) && OccursInOrder(b)
    requires forall x, y | x in a && y in b :: ReadBefore(x.source, y.source)
    ensures OccursInOrder(a + b)
  {
  }

  lemma {:induction false} ListsAreRead(lists: seq<seq<Item>>, n: nat)
    requires n <= |lists|
    ensures forall o | o in Occurrences(lists, n) :: Read(lists, n, 0, o)
    ensures OccursInOrder(Occurrences(lists, n))
  {
    if n > 0 {
      ListsAreRead(lists, n - 1);
      ListIsRead(lists, n - 1, |lists[n - 1]|);
      var a, b := Occurrences(lists, n - 1), ListOccurrences(lists[n - 1], |lists[n - 1]|, n - 1);
      assert forall x | x in a :: Read(lists, n - 1, 0, x) && x.source.rank > 0;
      OrderOfConcat(a, b);
    }
  }

  lemma {:induction false} PlaceIsRead(lists: seq<seq<Item>>, list: nat, n: nat, i: nat)
    requires list < |lists| && i < n <= |lists[list]| && lists[list][i].id != ""
    ensures Occurrence(lists[list][i], Source(list, i + 1, lists[list][i].score))
              in ListOccurrences(lists[list], n, list)
  {
    if i < n - 1 {
      PlaceIsRead(lists, list, n - 1, i);
    }
  }

  lemma {:induction false} OccurrenceOf(occs: seq<Occurrence>, id: string, s: Source) returns (o: Occurrence)
    requires s in SourcesOf(occs, id)
    ensures o in occs && o.item.id == id && o.source == s
    decreases |occs|
  {
    var before, last := Unsnoc(occs);
    SourcesSnoc(before, last, id);
    if s in SourcesOf(before, id) {
      o := OccurrenceOf(before, id, s);
    } else {
      o := last;
    }
  }

  lemma {:induction false} OccurrenceIsASource(occs: seq<Occurrence>, o: Occurrence)
    requires o in occs
    ensures o.source in SourcesOf(occs, o.item.id)
    decreases |occs|
  {
    var before, last := Unsnoc(occs);
    SourcesSnoc(before, last, o.item.id);
    if o in before {
      OccurrenceIsASource(before, o);
    }
  }

  lemma OneMoreSource(sources: seq<Source>, s: Source)
    requires InReadingOrder(sources) && forall t | t in sources :: ReadBefore(t, s)
    ensures InReadingOrder(sources + [s])
  {
  }

  lemma OrderOfPrefix(before: seq<Occurrence>, last: Occurrence)
    requires OccursInOrder(before + [last])
    ensures OccursInOrder(before) && forall o | o in before :: ReadBefore(o.source, last.source)
  {
    var occs := before + [last];
    assert occs[|before|] == last && forall i | 0 <= i < |before| :: occs[i] == before[i];
  }

  /** The sources of an id stand in the order of its occurrences. */
  lemma {:induction false} SourcesInOrder(occs: seq<Occurrence>, id: string)
    requires OccursInOrder(occs)
    ensures InReadingOrder(SourcesOf(occs, id))
    decreases |occs|
  {
    if occs != [] {
      var before, last := Unsnoc(occs);
      OrderOfPrefix(before, last);
      SourcesInOrder(before, id);
      SourcesSnoc(before, last, id);
      forall t | t in SourcesOf(before, id)
        ensures ReadBefore(t, last.source)
      {
        var o := OccurrenceOf(before, id, t);
      }
      OneMoreSource(SourcesOf(before, id), last.source);
    }
  }

  lemma {:induction false} FirstItemIsAtTheFirstSource(occs: seq<Occurrence>, id: string) returns (o: Occurrence)
    requires id in Ids(occs)
    ensures o in occs && o.item == FirstItem(occs, id) && o.item.id == id
    ensures SourcesOf(occs, id) != [] && SourcesOf(occs, id)[0] == o.source
    decreases |occs|
  {
    var before, last := Unsnoc(occs);
    SourcesSnoc(before, last, id);
    FirstItemSnoc(before, last, id);
    if id in Ids(before) {
      o := FirstItemIsAtTheFirstSource(before, id);
    } else {
      SourcesOfUnseen(before, id);
      o := last;
    }
  }

  /** What a result says of itself is what the lists say of it. */
  predicate ComesFrom(lists: seq<seq<Item>>, e: Fused) {
    && e.item.id != ""
    && (forall s | s in e.sources :: Names(lists, s, e.item.id))
    && (forall l, i | 0 <= l < |lists| && 0 <= i < |lists[l]| && lists[l][i].id == e.item.id ::
          Source(l, i + 1, lists[l][i].score) in e.sources)
    && InReadingOrder(e.sources)
    && e.sources != [] && HeldAt(lists, e.sources[0], e.item)
  }

  predicate AllComeFrom(lists: seq<seq<Item>>, es: seq<Fused>) {
    forall i | 0 <= i < |es| :: ComesFrom(lists, es[i])
  }

  lemma SourcesAreNamed(lists: seq<seq<Item>>, occs: seq<Occurrence>, id: string)
    requires occs == Occurrences(lists, |lists|)
    ensures forall s | s in SourcesOf(occs, id) :: Names(lists, s, id)
  {
    ListsAreRead(lists, |lists|);
    forall s | s in SourcesOf(occs, id)
      ensures Names(lists, s, id)
    {
      var o := OccurrenceOf(occs, id, s);
      assert Read(lists, |lists|, 0, o);
    }
  }

  lemma PlaceIsASource(lists: seq<seq<Item>>, occs: seq<Occurrence>, l: nat, i: nat)
    requires occs == Occurrences(lists, |lists|)
    requires l < |lists| && i < |lists[l]| && lists[l][i].id != ""
    ensures Source(l, i + 1, lists[l][i].score) in SourcesOf(occs, lists[l][i].id)
  {
    var o := Occurrence(lists[l][i], Source(l, i + 1, lists[l][i].score));
    PlaceIsRead(lists, l, |lists[l]|, i);
    OccursInAll(lists, l, |lists[l]|, o);
    OccurrenceIsASource(occs, o);
  }

  lemma OccurrenceIsHeld(lists: seq<seq<Item>>, o: Occurrence)
    requires o in Occurrences(lists, |lists|)
    ensures HeldAt(lists, o.source, o.item)
  {
    ListsAreRead(lists, |lists|);
    assert Read(lists, |lists|, 0, o);
  }

  lemma FirstSourceHolds(lists: seq<seq<Item>>, occs: seq<Occurrence>, id: string) returns (o: Occurrence)
    requires occs == Occurrences(lists, |lists|) && id in Ids(occs)
    ensures SourcesOf(occs, id) != [] && SourcesOf(occs, id)[0] == o.source && FirstItem(occs, id) == o.item
    ensures HeldAt(lists, o.source, o.item)
  {
    o := FirstItemIsAtTheFirstSource(occs, id);
    OccurrenceIsHeld(lists, o);
  }

  lemma EntryComesFrom(k: int, lists: seq<seq<Item>>, weights: seq<real>, occs: seq<Occurrence>, id: string, rank: nat)
    requires occs == Occurrences(lists, |lists|) && id in Ids(occs)
    ensures ComesFrom(lists, Entry(k, weights, occs, id, rank))
  {
    IdsNamed(lists, id);
    FirstItemHasId(occs, id);
    SourcesAreNamed(lists, occs, id);
    var o := FirstSourceHolds(lists, occs, id);
    ListsAreRead(lists, |lists|);
    SourcesInOrder(occs, id);
    forall l, i | 0 <= l < |lists| && 0 <= i < |lists[l]| && lists[l][i].id == id
      ensures Source(l, i + 1, lists[l][i].score) in SourcesOf(occs, id)
    {
      PlaceIsASource(lists, occs, l, i);
    }
  }

  /** Every result records exactly the places of the lists that hold its id, each with its
      score, in reading order, and is the item at the first of them. */
  lemma ResultsComeFromTheLists(k: int, lists: seq<seq<Item>>, weights: seq<real>, limit: int)
    ensures AllComeFrom(lists, Fusion(k, weights, Occurrences(lists, |lists|), limit))
  {
    var occs := Occurrences(lists, |lists|);
    var top := Top(k, weights, occs, limit);
    forall i | 0 <= i < |top|
      ensures ComesFrom(lists, Entries(k, weights, occs, top)[i])
    {
      EntryComesFrom(k, lists, weights, occs, top[i], i + 1);
    }
  }

  lemma QuotientOf(w: real, d: real)
    requires d != 0.0
    ensures w * (1.0 / d) == w / d
  {
  }

  lemma {:induction false} SourceScoreIsWeightOverRank(k: int, weights: seq<real>, sources: seq<Source>)
    requires forall s | s in sources :: s.list < |weights| && k + s.rank != 0
    ensures SourceScore(k, weights, sources) == WeightOverRank(k, weights, sources)
    decreases |sources|
  {
    if sources != [] {
      var before, last := sources[..|sources| - 1], sources[|sources| - 1];
      SourceScoreIsWeightOverRank(k, weights, before);
      QuotientOf(weights[last.list], (k + last.rank) as real);
    }
  }

  /** The score of a result is the sum of `weight / (k + rank)` over the places it records,
      whenever fusion goes through. */
  lemma ScoresAreWeightsOverRanks(k: int, lists: seq<seq<Item>>, weights: seq<real>, limit: int, i: nat)
    requires |lists| == |weights| && !DividesByZero(k, Occurrences(lists, |lists|))
    requires i < |Fusion(k, weights, Occurrences(lists, |lists|), limit)|
    ensures var e := Fusion(k, weights, Occurrences(lists, |lists|), limit)[i];
            && (forall s | s in e.sources :: s.list < |weights| && k + s.rank != 0)
            && e.rrfScore == WeightOverRank(k, weights, e.sources)
  {
    var occs := Occurrences(lists, |lists|);
    var e := Fusion(k, weights, occs, limit)[i];
    var id := Top(k, weights, occs, limit)[i];
    ListsAreRead(lists, |lists|);
    forall s | s in e.sources
      ensures s.list < |weights| && k + s.rank != 0
    {
      var o := OccurrenceOf(occs, id, s);
      assert Read(lists, |lists|, 0, o);
    }
    SourceScoreIsWeightOverRank(k, weights, e.sources);
  }

  // ---------------------------------------------------------------- the two searches

  /** The id a search result goes by: its own, else the hash of a vector result's text, or
      the name of a graph result; never an empty one. */
  predicate GoesBy(hash: string -> string, raw: RawItem, fromVector: bool, id: string) {
    && id != ""
    && (if raw.id.Some? then id == raw.id.value
        else if fromVector then raw.text.Some? && id == hash(raw.text.value)
        else raw.name.Some? && id == raw.name.value)
  }

  /** The sources of a result are exactly the places of the two searches that go by its id,
      each with the score found there. */
  predicate FoundThere(hash: string -> string, vector: seq<RawItem>, graph: seq<RawItem>, e: Fused) {
    && (forall s | s in e.sources ::
          || (s.list == 0 && FoundAt(hash, vector, true, s, e.item.id))
          || (s.list == 1 && FoundAt(hash, graph, false, s, e.item.id)))
    && (forall i | 0 <= i < |vector| && GoesBy(hash, vector[i], true, e.item.id) ::
          Source(0, i + 1, vector[i].score) in e.sources)
    && (forall i | 0 <= i < |graph| && GoesBy(hash, graph[i], false, e.item.id) ::
          Source(1, i + 1, graph[i].score) in e.sources)
  }

  predicate FoundAt(hash: string -> string, raws: seq<RawItem>, fromVector: bool, s: Source, id: string) {
    && 1 <= s.rank <= |raws| && raws[s.rank - 1].score == s.originalScore
    && GoesBy(hash, raws[s.rank - 1], fromVector, id)
  }

  lemma EntryFoundThere(hash: string -> string, vector: seq<RawItem>, graph: seq<RawItem>, e: Fused)
    requires ComesFrom([VectorItems(hash, vector), GraphItems(graph)], e)
    ensures FoundThere(hash, vector, graph, e)
  {
    var lists := [VectorItems(hash, vector), GraphItems(graph)];
    assert forall s | s in e.sources :: Names(lists, s, e.item.id);
    forall i | 0 <= i < |vector| && GoesBy(hash, vector[i], true, e.item.id)
      ensures Source(0, i + 1, vector[i].score) in e.sources
    {
      assert lists[0][i] == VectorItem(hash, vector[i]);
    }
    forall i | 0 <= i < |graph| && GoesBy(hash, graph[i], false, e.item.id)
      ensures Source(1, i + 1, graph[i].score) in e.sources
    {
      assert lists[1][i] == GraphItem(graph[i]);
    }
  }

  predicate AllFoundThere(hash: string -> string, vector: seq<RawItem>, graph: seq<RawItem>, hs: seq<Hybrid>) {
    forall i | 0 <= i < |hs| :: FoundThere(hash, vector, graph, hs[i].result)
  }

  lemma MarkedFoundThere(hash: string -> string, vector: seq<RawItem>, graph: seq<RawItem>, es: seq<Fused>)
    requires AllComeFrom([VectorItems(hash, vector), GraphItems(graph)], es)
    ensures AllFoundThere(hash, vector, graph, MarkedAll(es))
  {
    forall i | 0 <= i < |es|
      ensures FoundThere(hash, vector, graph, es[i])
    {
      EntryFoundThere(hash, vector, graph, es[i]);
    }
  }

  /** Every result of the specialised fusion names its places in the two searches. */
  lemma HybridsComeFromTheSearches(k: int, hash: string -> string, vector: seq<RawItem>, graph: seq<RawItem>,
                                   lists: seq<seq<Item>>, weights: seq<real>, limit: int)
    requires lists == [VectorItems(hash, vector), GraphItems(graph)]
    ensures AllFoundThere(hash, vector, graph, MarkedAll(Fusion(k, weights, Occurrences(lists, |lists|), limit)))
  {
    ResultsComeFromTheLists(k, lists, weights, limit);
    MarkedFoundThere(hash, vector, graph, Fusion(k, weights, Occurrences(lists, |lists|), limit));
  }
}
