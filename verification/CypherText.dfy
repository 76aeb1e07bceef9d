/** The regular expressions of the Cypher validator, as scanning functions. Each expression
    has at most one way to match at a position, so matching needs no backtracking. */
module CypherText {
  import opened Ascii
  import opened Wrappers

  /** Where a keyword that starts at `i` ends, ignoring case. */
  function KeywordEnd(t: string, i: nat, kw: string): (r: Option<nat>)
    ensures r.Some? ==> r.value == i + |kw| <= |t|
  {
    if i + |kw| <= |t| && forall k | 0 <= k < |kw| :: ToUpper(t[i + k]) == kw[k] then Some(i + |kw|) else None
  }

  /** `\s*` */
  function SkipSpaces(t: string, i: nat): (j: nat)
    requires i <= |t|
    ensures i <= j <= |t|
    ensures forall k | i <= k < j :: IsSpace(t[k])
    ensures j < |t| ==> !IsSpace(t[j])
    decreases |t| - i
  {
    if i < |t| && IsSpace(t[i]) then SkipSpaces(t, i + 1) else i
  }

  /** `\w*` */
  function WordEnd(t: string, i: nat): (j: nat)
    requires i <= |t|
    ensures i <= j <= |t|
    ensures forall k | i <= k < j :: IsWordChar(t[k])
    ensures j < |t| ==> !IsWordChar(t[j])
    decreases |t| - i
  {
    if i < |t| && IsWordChar(t[i]) then WordEnd(t, i + 1) else i
  }

  /** `\b` */
  predicate WordBoundary(t: string, i: nat)
    requires i <= |t|
  {
    (i > 0 && IsWordChar(t[i - 1])) != (i < |t| && IsWordChar(t[i]))
  }

  /** The end of `(?:OPTIONAL\s+)?MATCH` at `i`. */
  function MatchKeywordEnd(t: string, i: nat): (r: Option<nat>)
    requires i <= |t|
    ensures r.Some? ==> i < r.value <= |t|
  {
    var optional := KeywordEnd(t, i, "OPTIONAL");
    if optional.Some? && SkipSpaces(t, optional.value) > optional.value
    then KeywordEnd(t, SkipSpaces(t, optional.value), "MATCH")
    else KeywordEnd(t, i, "MATCH")
  }

  /** A match of `((?:OPTIONAL\s+)?MATCH\s*\(\s*)(\w+)`: from `start` to `end`, the bracket
      at `paren` and the variable from `variable` on. */
  datatype Clause = Clause(start: nat, paren: nat, variable: nat, end: nat)

  function ClauseAt(t: string, i: nat): (r: Option<Clause>)
    requires i <= |t|
    ensures r.Some? ==>
              && i == r.value.start < r.value.paren < r.value.variable < r.value.end <= |t|
              && t[r.value.paren] == '('
              && (forall k | r.value.variable <= k < r.value.end :: IsWordChar(t[k]))
              && (r.value.end < |t| ==> !IsWordChar(t[r.value.end]))
  {
    var keyword := MatchKeywordEnd(t, i);
    if keyword.None? then None else
      var paren := SkipSpaces(t, keyword.value);
      if paren == |t| || t[paren] != '(' then None else
        var variable := SkipSpaces(t, paren + 1);
        var end := WordEnd(t, variable);
        if end == variable then None else Some(Clause(i, paren, variable, end))
  }

  /** What matches at each position. */
  function Hits(t: string): (hits: seq<Option<Clause>>)
    ensures ScanReady(hits) && |hits| == |t| + 1
    ensures forall i | 0 <= i < |hits| :: hits[i] == ClauseAt(t, i)
  {
    seq(|t| + 1, i requires 0 <= i <= |t| => ClauseAt(t, i))
  }

  predicate ScanReady(hits: seq<Option<Clause>>) {
    forall i | 0 <= i < |hits| && hits[i].Some? :: hits[i].value.start == i < hits[i].value.end < |hits|
  }

  /** `finditer`: leftmost matches, each search starting where the last match ended. */
  function Scan(hits: seq<Option<Clause>>, i: nat): seq<Clause>
    requires ScanReady(hits)
    decreases |hits| - i
  {
    if |hits| <= i then []
    else if hits[i].None? then Scan(hits, i + 1)
    else [hits[i].value] + Scan(hits, hits[i].value.end)
  }

  lemma {:induction false} ScannedAreHits(hits: seq<Option<Clause>>, i: nat, k: nat)
    requires ScanReady(hits) && k < |Scan(hits, i)|
    ensures i <= Scan(hits, i)[k].start < |hits| && hits[Scan(hits, i)[k].start] == Some(Scan(hits, i)[k])
    ensures k + 1 < |Scan(hits, i)| ==> Scan(hits, i)[k].end <= Scan(hits, i)[k + 1].start
    decreases |hits| - i
  {
    if hits[i].None? {
      ScannedAreHits(hits, i + 1, k);
    } else {
      var rest := Scan(hits, hits[i].value.end);
      if k > 0 {
        ScannedAreHits(hits, hits[i].value.end, k - 1);
      } else if rest != [] {
        ScannedAreHits(hits, hits[i].value.end, 0);
      }
    }
  }

  /** No match is missed: wherever one starts, the scan has one that covers the place. */
  lemma {:induction false} EveryHitCovered(hits: seq<Option<Clause>>, i: nat, p: nat) returns (k: nat)
    requires ScanReady(hits) && i <= p < |hits| && hits[p].Some?
    ensures k < |Scan(hits, i)| && Scan(hits, i)[k].start <= p < Scan(hits, i)[k].end
    decreases |hits| - i
  {
    if hits[i].None? {
      k := EveryHitCovered(hits, i + 1, p);
    } else if p < hits[i].value.end {
      k := 0;
    } else {
      k := EveryHitCovered(hits, hits[i].value.end, p);
      k := k + 1;
    }
  }

  function Clauses(t: string): seq<Clause> {
    Scan(Hits(t), 0)
  }

  /** `\bWORD\b` at `i`. */
  predicate WholeWordAt(t: string, i: nat, kw: string)
    requires i <= |t|
  {
    WordBoundary(t, i) && var end := KeywordEnd(t, i, kw); end.Some? && WordBoundary(t, end.value)
  }

  predicate OrderByAt(t: string, i: nat)
    requires i <= |t|
  {
    && WordBoundary(t, i)
    && var order := KeywordEnd(t, i, "ORDER");
       && order.Some?
       && var next := SkipSpaces(t, order.value);
          && order.value < next
          && var last := KeywordEnd(t, next, "BY"); last.Some? && WordBoundary(t, last.value)
  }

  /** `\b(?:RETURN|WITH|UNION|ORDER\s+BY|UNWIND)\b|(?:(?:OPTIONAL\s+)?MATCH\b)` at `i`. */
  predicate BoundaryAt(t: string, i: nat)
    requires i <= |t|
  {
    || WholeWordAt(t, i, "RETURN")
    || WholeWordAt(t, i, "WITH")
    || WholeWordAt(t, i, "UNION")
    || OrderByAt(t, i)
    || WholeWordAt(t, i, "UNWIND")
    || (var keyword := MatchKeywordEnd(t, i); keyword.Some? && WordBoundary(t, keyword.value))
  }

  /** The first boundary at or after `i`, else the end of the text. */
  function NextBoundary(t: string, i: nat): (b: nat)
    requires i <= |t|
    ensures i <= b <= |t|
    ensures b < |t| ==> BoundaryAt(t, b)
    ensures forall k | i <= k < b :: !BoundaryAt(t, k)
    decreases |t| - i
  {
    if i == |t| || BoundaryAt(t, i) then i else NextBoundary(t, i + 1)
  }

  predicate Contains(t: string, kw: string) {
    exists i | 0 <= i <= |t| :: KeywordEnd(t, i, kw).Some?
  }

  predicate HasWhere(segment: string) {
    exists i | 0 <= i <= |segment| :: WholeWordAt(segment, i, "WHERE")
  }

  // ---------------------------------------------------------------- locality

  /** Two texts agree up to and including an opening bracket at `q`. */
  predicate AgreeUpTo(t: string, u: string, q: nat) {
    q < |t| && q < |u| && t[q] == '(' && t[..q + 1] == u[..q + 1]
  }

  lemma AgreeAt(t: string, u: string, q: nat, k: nat)
    requires AgreeUpTo(t, u, q) && k <= q
    ensures t[k] == u[k]
  {
    assert t[..q + 1][k] == u[..q + 1][k];
  }

  predicate NoBracket(kw: string) {
    forall k | 0 <= k < |kw| :: kw[k] != '('
  }

  /** No keyword runs across a bracket. */
  lemma StopsAtBracket(t: string, q: nat, i: nat, kw: string)
    requires i <= q < |t| && t[q] == '(' && NoBracket(kw) && q < i + |kw|
    ensures KeywordEnd(t, i, kw) == None
  {
    var k := q - i;
    assert t[i + k] == t[q] && ToUpper(t[i + k]) == '(';
    assert kw[k] != '(';
  }

  lemma KeywordLocal(t: string, u: string, q: nat, i: nat, kw: string)
    requires AgreeUpTo(t, u, q) && i <= q && NoBracket(kw)
    ensures KeywordEnd(t, i, kw) == KeywordEnd(u, i, kw)
    ensures KeywordEnd(t, i, kw).Some? ==> KeywordEnd(t, i, kw).value <= q
  {
    if i + |kw| <= q {
      forall k | 0 <= k < |kw| ensures ToUpper(t[i + k]) == kw[k] <==> ToUpper(u[i + k]) == kw[k] {
        AgreeAt(t, u, q, i + k);
      }
    } else {
      AgreeAt(t, u, q, q);
      StopsAtBracket(t, q, i, kw);
      StopsAtBracket(u, q, i, kw);
    }
  }

  lemma {:induction false} SpacesLocal(t: string, u: string, q: nat, i: nat)
    requires AgreeUpTo(t, u, q) && i <= q
    ensures SkipSpaces(t, i) == SkipSpaces(u, i) <= q
    decreases q - i
  {
    AgreeAt(t, u, q, i);
    if i < q && IsSpace(t[i]) { SpacesLocal(t, u, q, i + 1); }
  }

  lemma WordBoundaryLocal(t: string, u: string, q: nat, i: nat)
    requires AgreeUpTo(t, u, q) && i <= q
    ensures WordBoundary(t, i) == WordBoundary(u, i)
  {
    AgreeAt(t, u, q, i);
    if i > 0 { AgreeAt(t, u, q, i - 1); }
  }

  lemma WholeWordLocal(t: string, u: string, q: nat, i: nat, kw: string)
    requires AgreeUpTo(t, u, q) && i <= q && NoBracket(kw)
    ensures WholeWordAt(t, i, kw) == WholeWordAt(u, i, kw)
  {
    KeywordLocal(t, u, q, i, kw);
    WordBoundaryLocal(t, u, q, i);
    var end := KeywordEnd(t, i, kw);
    if end.Some? { WordBoundaryLocal(t, u, q, end.value); }
  }

  lemma MatchKeywordLocal(t: string, u: string, q: nat, i: nat)
    requires AgreeUpTo(t, u, q) && i <= q
    ensures MatchKeywordEnd(t, i) == MatchKeywordEnd(u, i)
    ensures MatchKeywordEnd(t, i).Some? ==> MatchKeywordEnd(t, i).value <= q
  {
    KeywordLocal(t, u, q, i, "MATCH");
    KeywordLocal(t, u, q, i, "OPTIONAL");
    var optional := KeywordEnd(t, i, "OPTIONAL");
    if optional.Some? {
      SpacesLocal(t, u, q, optional.value);
      KeywordLocal(t, u, q, SkipSpaces(t, optional.value), "MATCH");
    }
  }

  lemma OrderByLocal(t: string, u: string, q: nat, i: nat)
    requires AgreeUpTo(t, u, q) && i <= q
    ensures OrderByAt(t, i) == OrderByAt(u, i)
  {
    WordBoundaryLocal(t, u, q, i);
    KeywordLocal(t, u, q, i, "ORDER");
    var order := KeywordEnd(t, i, "ORDER");
    if order.Some? {
      SpacesLocal(t, u, q, order.value);
      var next := SkipSpaces(t, order.value);
      KeywordLocal(t, u, q, next, "BY");
      var last := KeywordEnd(t, next, "BY");
      if last.Some? { WordBoundaryLocal(t, u, q, last.value); }
    }
  }

  /** Whether a boundary stands at a place depends only on the text up to the next bracket:
      no keyword reaches across one. */
  lemma BoundaryLocal(t: string, u: string, q: nat, i: nat)
    requires AgreeUpTo(t, u, q) && i <= q
    ensures BoundaryAt(t, i) == BoundaryAt(u, i)
  {
    WholeWordLocal(t, u, q, i, "RETURN");
    WholeWordLocal(t, u, q, i, "WITH");
    WholeWordLocal(t, u, q, i, "UNION");
    WholeWordLocal(t, u, q, i, "UNWIND");
    OrderByLocal(t, u, q, i);
    MatchKeywordLocal(t, u, q, i);
    var keyword := MatchKeywordEnd(t, i);
    if keyword.Some? { WordBoundaryLocal(t, u, q, keyword.value); }
  }

  lemma {:induction false} NextBoundaryLocal(t: string, u: string, q: nat, i: nat)
    requires AgreeUpTo(t, u, q) && i <= q
    requires NextBoundary(t, i) <= q
    ensures NextBoundary(u, i) == NextBoundary(t, i)
    decreases q - i
  {
    BoundaryLocal(t, u, q, i);
    if !BoundaryAt(t, i) { NextBoundaryLocal(t, u, q, i + 1); }
  }

  /** A clause is itself a boundary for the clause before it. */
  lemma ClauseIsBoundary(t: string, i: nat)
    requires i <= |t| && ClauseAt(t, i).Some?
    ensures BoundaryAt(t, i)
  {
    var end := MatchKeywordEnd(t, i).value;
    assert IsWordChar(t[end - 1]) by {
      assert ToUpper(t[end - 1]) == "MATCH"[4];
    }
    var paren := SkipSpaces(t, end);
    assert !IsWordChar(t[end]);
  }
}
