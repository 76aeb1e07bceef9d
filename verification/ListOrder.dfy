/** What the order of the fused lists changes in the list that is returned: which of several
    ids with the same score comes first, or is cut off, and nothing else. */
module ListOrder {
  import opened RankFusion
  import opened Rrf
  import opened RrfTheorems

  // ---------------------------------------------------------------- the same ids

  lemma {:induction false} ItemOf(results: seq<Item>, n: nat, list: nat, o: Occurrence) returns (i: nat)
    requires n <= |results| && o in ListOccurrences(results, n, list)
    ensures i < n && results[i] == o.item && o.item.id != ""
  {
    var before := ListOccurrences(results, n - 1, list);
    if o in before {
      i := ItemOf(results, n - 1, list, o);
    } else {
      i := n - 1;
    }
  }

  lemma {:induction false} ListOf(lists: seq<seq<Item>>, n: nat, o: Occurrence) returns (l: nat, i: nat)
    requires n <= |lists| && o in Occurrences(lists, n)
    ensures l < n && i < |lists[l]| && lists[l][i] == o.item && o.item.id != ""
  {
    if o in Occurrences(lists, n - 1) {
      l, i := ListOf(lists, n - 1, o);
    } else {
      l := n - 1;
      i := ItemOf(lists[l], |lists[l]|, l, o);
    }
  }

  predicate Permuted(lists: seq<seq<Item>>, weights: seq<real>, lists': seq<seq<Item>>, weights': seq<real>) {
    && |lists| == |weights| && |lists'| == |weights'|
    && multiset(Zip(lists, weights)) == multiset(Zip(lists', weights'))
  }

  lemma PlaceOfList(lists: seq<seq<Item>>, weights: seq<real>, lists': seq<seq<Item>>, weights': seq<real>, l: nat)
    returns (m: nat)
    requires Permuted(lists, weights, lists', weights') && l < |lists|
    ensures m < |lists'| && lists'[m] == lists[l]
  {
    var ps, qs := Zip(lists, weights), Zip(lists', weights');
    assert ps[l] in multiset(ps);
    assert ps[l] in multiset(qs);
    m :| 0 <= m < |qs| && qs[m] == ps[l];
  }

  lemma IdStays(lists: seq<seq<Item>>, weights: seq<real>, lists': seq<seq<Item>>, weights': seq<real>, id: string)
    requires Permuted(lists, weights, lists', weights') && id in Ids(Occurrences(lists, |lists|))
    ensures id in Ids(Occurrences(lists', |lists'|))
  {
    IdsOfMembers(Occurrences(lists, |lists|));
    var o :| o in Occurrences(lists, |lists|) && o.item.id == id;
    var l, i := ListOf(lists, |lists|, o);
    var m := PlaceOfList(lists, weights, lists', weights', l);
    ItemIsAnId(lists', m, i);
  }

  lemma SameScores(k: int, lists: seq<seq<Item>>, weights: seq<real>, lists': seq<seq<Item>>, weights': seq<real>)
    requires Permuted(lists, weights, lists', weights')
    ensures ScoreMap(k, weights, Occurrences(lists, |lists|)) == ScoreMap(k, weights', Occurrences(lists', |lists'|))
    ensures forall id :: id in Ids(Occurrences(lists, |lists|)) <==> id in Ids(Occurrences(lists', |lists'|))
  {
    var occs, occs' := Occurrences(lists, |lists|), Occurrences(lists', |lists'|);
    forall id ensures id in Ids(occs) <==> id in Ids(occs') {
      if id in Ids(occs) { IdStays(lists, weights, lists', weights', id); }
      if id in Ids(occs') { IdStays(lists', weights', lists, weights, id); }
    }
    forall id | id in Ids(occs)
      ensures SourceScore(k, weights, SourcesOf(occs, id)) == SourceScore(k, weights', SourcesOf(occs', id))
    {
      IdsNamed(lists, id);
      ScoreFromSources(k, lists, weights, |lists|, id);
      ScoreFromSources(k, lists', weights', |lists'|, id);
      ScoresIgnoreListOrder(k, lists, weights, lists', weights', id);
    }
  }

  // ---------------------------------------------------------------- rankings by the same scores

  /** A ranking of all the ids, as far as scores go. */
  predicate Descending(ids: set<string>, scores: Scores, r: seq<string>) {
    && Scored(r, scores) && Distinct(r)
    && (forall id | id in ids :: id in r) && (forall i | 0 <= i < |r| :: r[i] in ids)
    && forall i, j | 0 <= i < j < |r| :: scores[r[i]] >= scores[r[j]]
  }

  function Elements(r: seq<string>): set<string> {
    set i | 0 <= i < |r| :: r[i]
  }

  lemma {:induction false} CountDistinct(r: seq<string>)
    requires Distinct(r)
    ensures |Elements(r)| == |r|
    decreases |r|
  {
    if r != [] {
      var init, last := r[..|r| - 1], r[|r| - 1];
      CountDistinct(init);
      assert Elements(r) == Elements(init) + {last};
      assert last !in Elements(init);
    }
  }

  lemma SubsetCount(a: set<string>, b: set<string>)
    requires a <= b
    ensures |a| <= |b|
  {
    assert b == a + (b - a);
  }

  lemma SameLength(ids: set<string>, scores: Scores, r: seq<string>, r': seq<string>)
    requires Descending(ids, scores, r) && Descending(ids, scores, r')
    ensures |r| == |r'|
  {
    CountDistinct(r);
    CountDistinct(r');
    assert Elements(r) == ids == Elements(r');
  }

  /** At no place does one of the rankings have a higher score than the other. */
  lemma NoHigher(ids: set<string>, scores: Scores, r: seq<string>, r': seq<string>, i: nat)
    requires Descending(ids, scores, r) && Descending(ids, scores, r') && i < |r| && i < |r'|
    ensures scores[r[i]] <= scores[r'[i]]
  {
    if scores[r[i]] > scores[r'[i]] {
      CountDistinct(r[..i + 1]);
      CountDistinct(r'[..i]);
      forall id | id in Elements(r[..i + 1]) ensures id in Elements(r'[..i]) {
        var j :| 0 <= j < i + 1 && r[j] == id;
        assert scores[id] >= scores[r[i]];
        assert id in r';
        var m :| 0 <= m < |r'| && r'[m] == id;
        assert m < i;
        assert r'[..i][m] == id;
      }
      SubsetCount(Elements(r[..i + 1]), Elements(r'[..i]));
      assert false;
    }
  }

  lemma SortedDescends(ids: seq<string>, scores: Scores)
    requires Distinct(ids) && Scored(ids, scores)
    ensures Descending(Elements(ids), scores, SortDesc(ids, scores))
  {
    var r := SortDesc(ids, scores);
    SortRanks(ids, scores);
    SameElements(r, ids);
    forall i, j | 0 <= i < j < |r| ensures scores[r[i]] >= scores[r[j]] && r[i] != r[j] {
      assert Precedes(ids, scores, r[i], r[j]);
    }
  }

  // ---------------------------------------------------------------- the lists returned

  /** The same score, and the same id or one with the same score. */
  predicate SameUnlessTied(occs: seq<Occurrence>, k: int, weights: seq<real>, a: Fused, b: Fused) {
    && a.rrfScore == b.rrfScore
    && (a.item.id == b.item.id || Tied(ScoreMap(k, weights, occs), a.item.id, b.item.id))
  }

  predicate Tied(scores: Scores, a: string, b: string) {
    a != b && a in scores && b in scores && scores[a] == scores[b]
  }

  lemma RankingsAgree(ids: set<string>, scores: Scores, r: seq<string>, r': seq<string>)
    requires Descending(ids, scores, r) && Descending(ids, scores, r')
    ensures |r| == |r'| && forall i | 0 <= i < |r| :: scores[r[i]] == scores[r'[i]]
  {
    SameLength(ids, scores, r, r');
    forall i | 0 <= i < |r| ensures scores[r[i]] == scores[r'[i]] {
      NoHigher(ids, scores, r, r', i);
      NoHigher(ids, scores, r', r, i);
    }
  }

  /** The full rankings of permuted lists have the same scores at the same places. */
  lemma SortedAgree(k: int, lists: seq<seq<Item>>, weights: seq<real>, lists': seq<seq<Item>>, weights': seq<real>)
    requires Permuted(lists, weights, lists', weights')
    ensures var occs, occs' := Occurrences(lists, |lists|), Occurrences(lists', |lists'|);
            var scores := ScoreMap(k, weights, occs);
            && Scored(Ids(occs'), scores)
            && var r, r' := SortDesc(Ids(occs), scores), SortDesc(Ids(occs'), scores);
               |r| == |r'| && forall i | 0 <= i < |r| :: scores[r[i]] == scores[r'[i]]
  {
    var occs, occs' := Occurrences(lists, |lists|), Occurrences(lists', |lists'|);
    var scores := ScoreMap(k, weights, occs);
    SameScores(k, lists, weights, lists', weights');
    IdsAreDistinct(occs);
    IdsAreDistinct(occs');
    SortedDescends(Ids(occs), scores);
    SortedDescends(Ids(occs'), scores);
    assert Elements(Ids(occs)) == Elements(Ids(occs'));
    RankingsAgree(Elements(Ids(occs)), scores, SortDesc(Ids(occs), scores), SortDesc(Ids(occs'), scores));
  }

  lemma CutsAgree(scores: Scores, r: seq<string>, r': seq<string>, limit: int)
    requires Scored(r, scores) && Scored(r', scores)
    requires |r| == |r'| && forall i | 0 <= i < |r| :: scores[r[i]] == scores[r'[i]]
    ensures var top, top' := TakeLimit(r, limit), TakeLimit(r', limit);
            && |top| == |top'| && Scored(top, scores) && Scored(top', scores)
            && forall i | 0 <= i < |top| :: scores[top[i]] == scores[top'[i]]
  {
  }

  lemma TopIs(k: int, weights: seq<real>, occs: seq<Occurrence>, limit: int, scores: Scores)
    requires scores == ScoreMap(k, weights, occs)
    ensures Scored(Ids(occs), scores) && Top(k, weights, occs, limit) == TakeLimit(SortDesc(Ids(occs), scores), limit)
  {
  }

  /** What is returned of both rankings: as many ids, with the same scores place by place. */
  lemma TopsAgree(k: int, lists: seq<seq<Item>>, weights: seq<real>, lists': seq<seq<Item>>, weights': seq<real>,
                  limit: int) returns (scores: Scores, top: seq<string>, top': seq<string>)
    requires Permuted(lists, weights, lists', weights')
    ensures scores == ScoreMap(k, weights, Occurrences(lists, |lists|))
    ensures scores == ScoreMap(k, weights', Occurrences(lists', |lists'|))
    ensures top == Top(k, weights, Occurrences(lists, |lists|), limit) && Scored(top, scores)
    ensures top' == Top(k, weights', Occurrences(lists', |lists'|), limit) && Scored(top', scores)
    ensures |top| == |top'| && forall i | 0 <= i < |top| :: scores[top[i]] == scores[top'[i]]
  {
    var occs, occs' := Occurrences(lists, |lists|), Occurrences(lists', |lists'|);
    scores := ScoreMap(k, weights, occs);
    SameScores(k, lists, weights, lists', weights');
    TopIs(k, weights, occs, limit, scores);
    TopIs(k, weights', occs', limit, scores);
    SortedAgree(k, lists, weights, lists', weights');
    CutsAgree(scores, SortDesc(Ids(occs), scores), SortDesc(Ids(occs'), scores), limit);
    top, top' := Top(k, weights, occs, limit), Top(k, weights', occs', limit);
  }

  lemma EntryIs(k: int, weights: seq<real>, occs: seq<Occurrence>, id: string, rank: nat, scores: Scores)
    requires id in Ids(occs) && scores == ScoreMap(k, weights, occs)
    ensures var e := Entry(k, weights, occs, id, rank); e.item.id == id && e.rrfScore == scores[id]
  {
    FirstItemHasId(occs, id);
  }

  lemma ResultIs(k: int, weights: seq<real>, occs: seq<Occurrence>, limit: int, scores: Scores, top: seq<string>,
                 i: nat)
    requires scores == ScoreMap(k, weights, occs) && top == Top(k, weights, occs, limit) && i < |top|
    ensures var es := Fusion(k, weights, occs, limit);
            |es| == |top| && top[i] in scores && es[i].item.id == top[i] && es[i].rrfScore == scores[top[i]]
  {
    EntryIs(k, weights, occs, top[i], i + 1, scores);
  }

  lemma PlaceAgrees(k: int, lists: seq<seq<Item>>, weights: seq<real>, lists': seq<seq<Item>>, weights': seq<real>,
                    limit: int, i: nat)
    requires Permuted(lists, weights, lists', weights')
    requires i < |Top(k, weights, Occurrences(lists, |lists|), limit)|
    ensures var occs := Occurrences(lists, |lists|);
            var es := Fusion(k, weights, occs, limit);
            var es' := Fusion(k, weights', Occurrences(lists', |lists'|), limit);
            |es| == |es'| && i < |es| && SameUnlessTied(occs, k, weights, es[i], es'[i])
  {
    var occs, occs' := Occurrences(lists, |lists|), Occurrences(lists', |lists'|);
    var scores, top, top' := TopsAgree(k, lists, weights, lists', weights', limit);
    ResultIs(k, weights, occs, limit, scores, top, i);
    ResultIs(k, weights', occs', limit, scores, top', i);
  }

  /** Permuting the lists together with their weights leaves the number of results and the
      score at each place as they are; where the ids differ, they are tied. */
  lemma ResultsIgnoreListOrder(k: int, lists: seq<seq<Item>>, weights: seq<real>,
                               lists': seq<seq<Item>>, weights': seq<real>, limit: int)
    requires Permuted(lists, weights, lists', weights')
    ensures var occs := Occurrences(lists, |lists|);
            var es := Fusion(k, weights, occs, limit);
            var es' := Fusion(k, weights', Occurrences(lists', |lists'|), limit);
            |es| == |es'| && forall i | 0 <= i < |es| :: SameUnlessTied(occs, k, weights, es[i], es'[i])
  {
    var occs := Occurrences(lists, |lists|);
    var es := Fusion(k, weights, occs, limit);
    var es' := Fusion(k, weights', Occurrences(lists', |lists'|), limit);
    var scores, top, top' := TopsAgree(k, lists, weights, lists', weights', limit);
    forall i | 0 <= i < |es| ensures SameUnlessTied(occs, k, weights, es[i], es'[i]) {
      PlaceAgrees(k, lists, weights, lists', weights', limit, i);
    }
  }

  lemma CutAtATie(scores: Scores, ids: seq<string>, top: seq<string>, top': seq<string>, i: nat)
    requires Scored(ids, scores) && Ranked(ids, scores, top) && i < |top| == |top'| && Scored(top', scores)
    requires forall j | 0 <= j < |top| :: scores[top[j]] == scores[top'[j]] >= scores[top[i]]
    ensures scores[top[i]] == scores[top[|top| - 1]]
  {
    if i < |top| - 1 { assert Precedes(ids, scores, top[i], top[|top| - 1]); }
  }

  lemma LeftOutScoresNoHigher(scores: Scores, ids: seq<string>, top: seq<string>, id: string, j: nat)
    requires Scored(ids, scores) && TopOf(ids, scores, top) && id in ids && id !in top && j < |top|
    ensures scores[top[j]] >= scores[id]
  {
    assert Precedes(ids, scores, top[j], id);
  }

  lemma LeftOutIsTied(scores: Scores, ids: seq<string>, ids': seq<string>, top: seq<string>, top': seq<string>,
                      i: nat)
    requires Scored(ids, scores) && Scored(ids', scores) && TopOf(ids, scores, top) && TopOf(ids', scores, top')
    requires |top| == |top'| && forall j | 0 <= j < |top| :: scores[top[j]] == scores[top'[j]]
    requires i < |top| && top[i] in ids' && top[i] !in top'
    ensures scores[top[i]] == scores[top[|top| - 1]]
  {
    forall j | 0 <= j < |top| ensures scores[top[j]] == scores[top'[j]] >= scores[top[i]] {
      LeftOutScoresNoHigher(scores, ids', top', top[i], j);
    }
    CutAtATie(scores, ids, top, top', i);
  }

  /** An id that is returned, and that another order of the lists leaves out, is tied with the
      last that is returned. */
  lemma OnlyTiesAreCut(k: int, lists: seq<seq<Item>>, weights: seq<real>, lists': seq<seq<Item>>, weights': seq<real>,
                       limit: int, i: nat) returns (scores: Scores, top: seq<string>, top': seq<string>)
    requires Permuted(lists, weights, lists', weights')
    requires i < |Top(k, weights, Occurrences(lists, |lists|), limit)|
    ensures scores == ScoreMap(k, weights, Occurrences(lists, |lists|))
    ensures top == Top(k, weights, Occurrences(lists, |lists|), limit) && Scored(top, scores)
    ensures top' == Top(k, weights', Occurrences(lists', |lists'|), limit)
    ensures top[i] in top' || scores[top[i]] == scores[top[|top| - 1]]
  {
    var occs, occs' := Occurrences(lists, |lists|), Occurrences(lists', |lists'|);
    scores, top, top' := TopsAgree(k, lists, weights, lists', weights', limit);
    SameScores(k, lists, weights, lists', weights');
    FusedListIsTheTop(k, weights, occs, limit);
    FusedListIsTheTop(k, weights', occs', limit);
    if top[i] !in top' { LeftOutIsTied(scores, Ids(occs), Ids(occs'), top, top', i); }
  }
}
