/** Fusing a vector search with a graph traversal: missing ids are filled in, and every
    result says which of the two searches found it. */
module HybridFusion {
  import opened RankFusion
  import opened Rrf
  import opened RrfTheorems
  import opened Wrappers

  /** A search result as it comes in; the key `id` may be absent. */
  datatype RawItem = RawItem(id: Option<string>, text: Option<string>, name: Option<string>, score: real)

  datatype FusionKind = HybridKind | VectorKind | GraphKind

  datatype Hybrid = Hybrid(result: Fused, fromVector: bool, fromGraph: bool, kind: FusionKind)

  function OrEmpty(s: Option<string>): string {
    if s.Some? then s.value else ""
  }

  /** A vector result without an id is named by a hash of its text. */
  function VectorItem(hash: string -> string, r: RawItem): Item {
    Item(if r.id.None? && r.text.Some? then hash(r.text.value) else OrEmpty(r.id), OrEmpty(r.text), r.score,
         VectorSearch)
  }

  /** A graph result without an id goes by its name. */
  function GraphItem(r: RawItem): Item {
    Item(if r.id.None? then OrEmpty(r.name) else r.id.value, OrEmpty(r.text), r.score, GraphSearch)
  }

  function VectorItems(hash: string -> string, rs: seq<RawItem>): (items: seq<Item>)
    ensures |items| == |rs| && forall i | 0 <= i < |rs| :: items[i] == VectorItem(hash, rs[i])
  {
    seq(|rs|, i requires 0 <= i < |rs| => VectorItem(hash, rs[i]))
  }

  function GraphItems(rs: seq<RawItem>): (items: seq<Item>)
    ensures |items| == |rs| && forall i | 0 <= i < |rs| :: items[i] == GraphItem(rs[i])
  {
    seq(|rs|, i requires 0 <= i < |rs| => GraphItem(rs[i]))
  }

  predicate HasList(sources: seq<Source>, list: nat) {
    exists i :: 0 <= i < |sources| && sources[i].list == list
  }

  function KindOf(fromVector: bool, fromGraph: bool): FusionKind {
    if fromVector && fromGraph then HybridKind else if fromVector then VectorKind else GraphKind
  }

  function Marked(e: Fused): Hybrid {
    var v, g := HasList(e.sources, 0), HasList(e.sources, 1);
    Hybrid(e, v, g, KindOf(v, g))
  }

  function MarkedAll(es: seq<Fused>): (hs: seq<Hybrid>)
    ensures |hs| == |es| && forall i | 0 <= i < |es| :: hs[i] == Marked(es[i])
  {
    seq(|es|, i requires 0 <= i < |es| => Marked(es[i]))
  }

  /** `any(s["list"] == list for s in sources)` */
  method AnyFrom(sources: seq<Source>, list: nat) returns (found: bool)
    ensures found == HasList(sources, list)
  {
    for i := 0 to |sources|
      invariant forall k | 0 <= k < i :: sources[k].list != list
    {
      if sources[i].list == list {
        return true;
      }
    }
    return false;
  }

  /** The loop that adds the fusion metadata. */
  method MarkResults(es: seq<Fused>) returns (hybrids: seq<Hybrid>)
    ensures hybrids == MarkedAll(es)
  {
    hybrids := [];
    for i := 0 to |es|
      invariant |hybrids| == i && forall j | 0 <= j < i :: hybrids[j] == Marked(es[j])
    {
      var v := AnyFrom(es[i].sources, 0);
      var g := AnyFrom(es[i].sources, 1);
      hybrids := hybrids + [Hybrid(es[i], v, g, KindOf(v, g))];
    }
  }

  /** The loops that fill in ids and mark the inputs. */
  method MarkInputs(hash: string -> string, vector: seq<RawItem>, graph: seq<RawItem>)
    returns (vectorItems: seq<Item>, graphItems: seq<Item>)
    ensures vectorItems == VectorItems(hash, vector) && graphItems == GraphItems(graph)
  {
    vectorItems, graphItems := [], [];
    for i := 0 to |vector|
      invariant |vectorItems| == i && forall j | 0 <= j < i :: vectorItems[j] == VectorItem(hash, vector[j])
    {
      var id := vector[i].id;
      if id.None? && vector[i].text.Some? {
        id := Some(hash(vector[i].text.value));
      }
      vectorItems := vectorItems + [Item(OrEmpty(id), OrEmpty(vector[i].text), vector[i].score, VectorSearch)];
    }
    for i := 0 to |graph|
      invariant |graphItems| == i && forall j | 0 <= j < i :: graphItems[j] == GraphItem(graph[j])
    {
      var id := graph[i].id;
      if id.None? && graph[i].name.Some? {
        id := graph[i].name;
      }
      graphItems := graphItems + [Item(OrEmpty(id), OrEmpty(graph[i].text), graph[i].score, GraphSearch)];
    }
  }

  /** `RRFusion.fuse_vector_graph` */
  method FuseVectorGraph(k: int, vector: seq<RawItem>, graph: seq<RawItem>, vectorWeight: real, graphWeight: real,
                         limit: int, hash: string -> string) returns (r: Result<seq<Hybrid>, FusionError>)
    ensures var lists := [VectorItems(hash, vector), GraphItems(graph)];
            var occs := Occurrences(lists, 2);
            r == if DividesByZero(k, occs) then Failure(DivisionByZero)
                 else Success(MarkedAll(Fusion(k, [vectorWeight, graphWeight], occs, limit)))
  {
    var vectorItems, graphItems := MarkInputs(hash, vector, graph);
    var lists := [vectorItems, graphItems];
    var fused := Fuse(k, lists, Some([vectorWeight, graphWeight]), limit);
    if fused.Failure? {
      return Failure(fused.error);
    }
    var hybrids := MarkResults(fused.value);
    r := Success(hybrids);
  }

  // ---------------------------------------------------------------- theorems

  predicate Listed(results: seq<Item>, n: nat, id: string)
    requires n <= |results|
  {
    exists i :: 0 <= i < n && results[i].id == id
  }

  lemma HasListConcat(a: seq<Source>, b: seq<Source>, list: nat)
    ensures HasList(a + b, list) <==> HasList(a, list) || HasList(b, list)
  {
    if i :| 0 <= i < |a| && a[i].list == list { assert (a + b)[i].list == list; }
    if i :| 0 <= i < |b| && b[i].list == list { assert (a + b)[|a| + i].list == list; }
  }

  lemma {:induction false} SourcesOfList(results: seq<Item>, n: nat, own: nat, id: string, list: nat)
    requires n <= |results| && id != ""
    ensures HasList(SourcesOf(ListOccurrences(results, n, own), id), list) <==> list == own && Listed(results, n, id)
  {
    if n > 0 {
      SourcesOfList(results, n - 1, own, id, list);
      var item := results[n - 1];
      ListedGrows(results, n, id);
      OneMoreOccurrence(ListOccurrences(results, n - 1, own), Occurrence(item, Source(own, n, item.score)), id, list);
    }
  }

  lemma ListedGrows(results: seq<Item>, n: nat, id: string)
    requires 0 < n <= |results|
    ensures Listed(results, n, id) <==> Listed(results, n - 1, id) || results[n - 1].id == id
  {
  }

  lemma OneMoreOccurrence(before: seq<Occurrence>, o: Occurrence, id: string, list: nat)
    ensures HasList(SourcesOf(before + [o], id), list)
       <==> HasList(SourcesOf(before, id), list) || (o.item.id == id && o.source.list == list)
  {
    SourcesSnoc(before, o, id);
    HasListConcat(SourcesOf(before, id), [o.source], list);
    assert HasList([o.source], list) <==> list == o.source.list by { assert [o.source][0] == o.source; }
  }

  lemma {:induction false} SourcesComeFromTheirLists(lists: seq<seq<Item>>, n: nat, id: string, list: nat)
    requires n <= |lists| && id != ""
    ensures HasList(SourcesOf(Occurrences(lists, n), id), list)
       <==> list < n && Listed(lists[list], |lists[list]|, id)
  {
    if n > 0 {
      SourcesComeFromTheirLists(lists, n - 1, id, list);
      SourcesOfList(lists[n - 1], |lists[n - 1]|, n - 1, id, list);
      OneMoreList(Occurrences(lists, n - 1), ListOccurrences(lists[n - 1], |lists[n - 1]|, n - 1), id, list);
    }
  }

  lemma OneMoreList(before: seq<Occurrence>, last: seq<Occurrence>, id: string, list: nat)
    ensures HasList(SourcesOf(before + last, id), list)
       <==> HasList(SourcesOf(before, id), list) || HasList(SourcesOf(last, id), list)
  {
    SourcesConcat(before, last, id);
    HasListConcat(SourcesOf(before, id), SourcesOf(last, id), list);
  }

  /** A result is marked as found by a search exactly when that search listed its id; it is
      marked by one at least, and hybrid exactly when by both. */
  lemma MarksAreRight(k: int, lists: seq<seq<Item>>, weights: seq<real>, limit: int)
    requires |lists| == 2
    ensures var hs := MarkedAll(Fusion(k, weights, Occurrences(lists, 2), limit));
            forall i | 0 <= i < |hs| :: RightlyMarked(lists, hs[i])
  {
    var es := Fusion(k, weights, Occurrences(lists, 2), limit);
    forall i | 0 <= i < |es| ensures RightlyMarked(lists, Marked(es[i])) {
      EntryIsRightlyMarked(k, lists, weights, Top(k, weights, Occurrences(lists, 2), limit)[i], i + 1);
    }
  }

  predicate RightlyMarked(lists: seq<seq<Item>>, h: Hybrid)
    requires |lists| == 2
  {
    && (h.fromVector <==> Listed(lists[0], |lists[0]|, h.result.item.id))
    && (h.fromGraph <==> Listed(lists[1], |lists[1]|, h.result.item.id))
    && (h.fromVector || h.fromGraph)
    && (h.kind == HybridKind <==> h.fromVector && h.fromGraph)
    && (h.kind == VectorKind <==> h.fromVector && !h.fromGraph)
  }

  lemma EntryIsRightlyMarked(k: int, lists: seq<seq<Item>>, weights: seq<real>, id: string, rank: nat)
    requires |lists| == 2 && id in Ids(Occurrences(lists, 2))
    ensures RightlyMarked(lists, Marked(Entry(k, weights, Occurrences(lists, 2), id, rank)))
  {
    var occs := Occurrences(lists, 2);
    FirstItemHasId(occs, id);
    IdsNamed(lists, id);
    SourcesComeFromTheirLists(lists, 2, id, 0);
    SourcesComeFromTheirLists(lists, 2, id, 1);
    SeenExactlyWithSource(occs, id);
    var sources := SourcesOf(occs, id);
    SourcesComeFromTheirLists(lists, 2, id, sources[0].list);
    assert HasList(sources, sources[0].list);
  }

  // ---------------------------------------------------------------- the search a result is marked with

  lemma {:induction false} IdsOfConcat(a: seq<Occurrence>, b: seq<Occurrence>, id: string)
    ensures id in Ids(a + b) <==> id in Ids(a) || id in Ids(b)
    decreases |b|
  {
    if b == [] {
      assert a + b == a;
    } else {
      var init, last := Unsnoc(b);
      IdsOfConcat(a, init, id);
      assert a + b == (a + init) + [last];
      SourcesSnoc(a + init, last, id);
      SourcesSnoc(init, last, id);
    }
  }

  lemma {:induction false} FirstItemFrom(a: seq<Occurrence>, b: seq<Occurrence>, id: string)
    requires id in Ids(a + b)
    ensures id in Ids(a) ==> FirstItem(a + b, id) == FirstItem(a, id)
    ensures id !in Ids(a) ==> id in Ids(b) && FirstItem(a + b, id) == FirstItem(b, id)
    decreases |b|
  {
    IdsOfConcat(a, b, id);
    if b == [] {
      assert a + b == a;
    } else {
      var init, last := Unsnoc(b);
      assert a + b == (a + init) + [last];
      IdsOfConcat(a, init, id);
      FirstItemSnoc(a + init, last, id);
      if id in Ids(a + init) { FirstItemFrom(a, init, id); }
      if id in Ids(b) { FirstItemSnoc(init, last, id); }
    }
  }

  predicate AllMarked(items: seq<Item>, mark: SourceType) {
    forall i | 0 <= i < |items| :: items[i].sourceType == mark
  }

  lemma {:induction false} OccurrencesMarked(results: seq<Item>, n: nat, list: nat, mark: SourceType)
    requires n <= |results| && AllMarked(results, mark)
    ensures forall i | 0 <= i < |ListOccurrences(results, n, list)| ::
              ListOccurrences(results, n, list)[i].item.sourceType == mark
  {
    if n > 0 { OccurrencesMarked(results, n - 1, list, mark); }
  }

  lemma {:induction false} FirstItemMarked(occs: seq<Occurrence>, id: string, mark: SourceType)
    requires id in Ids(occs) && forall i | 0 <= i < |occs| :: occs[i].item.sourceType == mark
    ensures FirstItem(occs, id).sourceType == mark
    decreases |occs|
  {
    if id in Ids(occs[..|occs| - 1]) { FirstItemMarked(occs[..|occs| - 1], id, mark); }
  }

  lemma {:induction false} SeenExactlyWithSource(occs: seq<Occurrence>, id: string)
    ensures id in Ids(occs) <==> SourcesOf(occs, id) != []
    decreases |occs|
  {
    if occs != [] { SeenExactlyWithSource(occs[..|occs| - 1], id); }
  }

  /** The mark of the item a result is made from: the vector search's if that listed it at
      all, so a hybrid result carries it too. */
  lemma FirstItemOfTwo(lists: seq<seq<Item>>, id: string)
    requires |lists| == 2 && AllMarked(lists[0], VectorSearch) && AllMarked(lists[1], GraphSearch)
    requires id in Ids(Occurrences(lists, 2))
    ensures FirstItem(Occurrences(lists, 2), id).sourceType ==
              if Listed(lists[0], |lists[0]|, id) then VectorSearch else GraphSearch
  {
    var a, b := ListOccurrences(lists[0], |lists[0]|, 0), ListOccurrences(lists[1], |lists[1]|, 1);
    TwoLists(lists);
    IdsNamed(lists, id);
    FirstItemFrom(a, b, id);
    OccurrencesMarked(lists[0], |lists[0]|, 0, VectorSearch);
    OccurrencesMarked(lists[1], |lists[1]|, 1, GraphSearch);
    SourcesOfList(lists[0], |lists[0]|, 0, id, 0);
    SeenByList(lists[0], id);
    if id in Ids(a) { FirstItemMarked(a, id, VectorSearch); } else { FirstItemMarked(b, id, GraphSearch); }
  }

  lemma TwoLists(lists: seq<seq<Item>>)
    requires |lists| == 2
    ensures Occurrences(lists, 2)
         == ListOccurrences(lists[0], |lists[0]|, 0) + ListOccurrences(lists[1], |lists[1]|, 1)
  {
    assert Occurrences(lists, 0) == [];
    assert Occurrences(lists, 1) == ListOccurrences(lists[0], |lists[0]|, 0);
  }

  lemma SeenByList(results: seq<Item>, id: string)
    requires id != ""
    ensures id in Ids(ListOccurrences(results, |results|, 0)) <==> Listed(results, |results|, id)
  {
    var occs := ListOccurrences(results, |results|, 0);
    var sources := SourcesOf(occs, id);
    SeenExactlyWithSource(occs, id);
    SourcesOfList(results, |results|, 0, id, 0);
    if sources != [] {
      SourcesOfList(results, |results|, 0, id, sources[0].list);
      assert HasList(sources, sources[0].list);
    }
  }

  /** Every result of the specialised fusion carries the mark of the vector search exactly
      when that search listed it. */
  lemma SourceTypesAreRight(k: int, hash: string -> string, vector: seq<RawItem>, graph: seq<RawItem>,
                            weights: seq<real>, limit: int)
    ensures var lists := [VectorItems(hash, vector), GraphItems(graph)];
            var hs := MarkedAll(Fusion(k, weights, Occurrences(lists, 2), limit));
            forall i | 0 <= i < |hs| ::
              hs[i].result.item.sourceType == if hs[i].fromVector then VectorSearch else GraphSearch
  {
    var lists := [VectorItems(hash, vector), GraphItems(graph)];
    var es := Fusion(k, weights, Occurrences(lists, 2), limit);
    forall i | 0 <= i < |es|
      ensures Marked(es[i]).result.item.sourceType == if Marked(es[i]).fromVector then VectorSearch else GraphSearch
    {
      var id := Top(k, weights, Occurrences(lists, 2), limit)[i];
      FirstItemOfTwo(lists, id);
      FirstItemHasId(Occurrences(lists, 2), id);
      EntryIsRightlyMarked(k, lists, weights, id, i + 1);
    }
  }
}
