/** Which MATCH keywords of a query the scope injection covers: those that go on to name
    their first node. */
module ScopeCoverage {
  import opened Ascii
  import opened CypherText
  import opened Wrappers

  /** A bracket and a word character follow, blanks aside: the first node has a name. */
  predicate NamesNode(t: string, i: nat)
    requires i <= |t|
  {
    var paren := SkipSpaces(t, i);
    && paren < |t| && t[paren] == '('
    && var name := SkipSpaces(t, paren + 1); name < |t| && IsWordChar(t[name])
  }

  predicate MatchAt(t: string, p: nat) {
    p <= |t| && MatchKeywordEnd(t, p).Some?
  }

  predicate CoveredBy(c: Clause, p: nat) { c.start <= p < c.end }

  /** The place lies in a clause that gets a fragment. */
  predicate Covered(t: string, p: nat) {
    exists k :: 0 <= k < |Clauses(t)| && CoveredBy(Clauses(t)[k], p)
  }

  predicate NamedBy(c: Clause, p: nat) { c.variable <= p < c.end }

  /** The place lies in the very name of a scoped clause's node. */
  predicate InNodeName(t: string, p: nat) {
    exists k :: 0 <= k < |Clauses(t)| && NamedBy(Clauses(t)[k], p)
  }

  lemma ClauseNamesNode(t: string, p: nat)
    requires p <= |t|
    ensures ClauseAt(t, p).Some? <==> MatchAt(t, p) && NamesNode(t, MatchKeywordEnd(t, p).value)
  {
  }

  /** What a MATCH keyword starts with. */
  lemma KeywordStart(t: string, p: nat)
    requires MatchAt(t, p)
    ensures p < |t|
    ensures ToUpper(t[p]) == 'M' || (ToUpper(t[p]) == 'O' && p + 1 < |t| && ToUpper(t[p + 1]) == 'P')
  {
    var optional := KeywordEnd(t, p, "OPTIONAL");
    if optional.Some? {
      LetterOf(t, p, "OPTIONAL", 0);
      LetterOf(t, p, "OPTIONAL", 1);
    } else {
      LetterOf(t, p, "MATCH", 0);
    }
  }

  lemma LetterOf(t: string, p: nat, kw: string, k: nat)
    requires KeywordEnd(t, p, kw).Some? && k < |kw|
    ensures p + k < |t| && ToUpper(t[p + k]) == kw[k]
  {
  }

  lemma NoKeywordAtBlank(t: string, p: nat)
    requires p < |t| && (IsSpace(t[p]) || t[p] == '(')
    ensures !MatchAt(t, p)
  {
    if MatchAt(t, p) { KeywordStart(t, p); }
  }

  /** No MATCH keyword starts inside the letters of another. */
  lemma NoKeywordInMatch(t: string, m: nat, p: nat)
    requires KeywordEnd(t, m, "MATCH").Some? && m < p < m + 5
    ensures !MatchAt(t, p)
  {
    LetterOf(t, m, "MATCH", p - m);
    if MatchAt(t, p) { KeywordStart(t, p); }
  }

  lemma NoKeywordInOptional(t: string, s: nat, p: nat)
    requires KeywordEnd(t, s, "OPTIONAL").Some? && s < p < s + 8
    ensures !MatchAt(t, p)
  {
    LetterOf(t, s, "OPTIONAL", p - s);
    if MatchAt(t, p) {
      KeywordStart(t, p);
      LetterOf(t, s, "OPTIONAL", 5);
    }
  }

  /** Where the word MATCH stands in a clause, after an OPTIONAL or at its start. */
  function MatchWord(t: string, s: nat): (m: nat)
    requires MatchAt(t, s)
    ensures s <= m && KeywordEnd(t, m, "MATCH") == MatchKeywordEnd(t, s)
  {
    var optional := KeywordEnd(t, s, "OPTIONAL");
    if optional.Some? && SkipSpaces(t, optional.value) > optional.value then SkipSpaces(t, optional.value) else s
  }

  lemma MatchWordIsAKeyword(t: string, m: nat)
    requires m <= |t| && KeywordEnd(t, m, "MATCH").Some?
    ensures MatchKeywordEnd(t, m) == KeywordEnd(t, m, "MATCH")
  {
    LetterOf(t, m, "MATCH", 0);
    if KeywordEnd(t, m, "OPTIONAL").Some? { LetterOf(t, m, "OPTIONAL", 0); }
  }

  /** Before its node's name, a clause holds no MATCH keyword but its own. */
  lemma KeywordsOfAClause(t: string, c: Clause, p: nat)
    requires c.start <= |t| && ClauseAt(t, c.start) == Some(c) && c.start <= p < c.variable
    requires MatchAt(t, p)
    ensures MatchKeywordEnd(t, p) == MatchKeywordEnd(t, c.start)
  {
    var m := MatchWord(t, c.start);
    if p == m {
      MatchWordIsAKeyword(t, m);
    } else if m < p < m + 5 {
      NoKeywordInMatch(t, m, p);
    } else if m + 5 <= p {
      NoKeywordAtBlank(t, p);
    } else if c.start < p {
      if p < c.start + 8 { NoKeywordInOptional(t, c.start, p); } else { NoKeywordAtBlank(t, p); }
    }
  }

  /** A MATCH keyword lies in a scoped clause exactly when it goes on to name its first node,
      or is itself part of such a name. */
  lemma ScopedExactly(t: string, p: nat)
    requires MatchAt(t, p)
    ensures Covered(t, p) <==> NamesNode(t, MatchKeywordEnd(t, p).value) || InNodeName(t, p)
  {
    ClauseNamesNode(t, p);
    if ClauseAt(t, p).Some? {
      var k := EveryHitCovered(Hits(t), 0, p);
      assert CoveredBy(Clauses(t)[k], p);
    }
    if Covered(t, p) && !InNodeName(t, p) {
      var k :| 0 <= k < |Clauses(t)| && CoveredBy(Clauses(t)[k], p);
      var c := Clauses(t)[k];
      ScannedAreHits(Hits(t), 0, k);
      assert !NamedBy(c, p);
      KeywordsOfAClause(t, c, p);
      ClauseNamesNode(t, c.start);
    }
    if InNodeName(t, p) {
      var k :| 0 <= k < |Clauses(t)| && NamedBy(Clauses(t)[k], p);
      ScannedAreHits(Hits(t), 0, k);
      assert CoveredBy(Clauses(t)[k], p);
    }
  }

  predicate EveryMatchCovered(t: string) {
    forall p: nat | p <= |t| && MatchAt(t, p) :: Covered(t, p)
  }

  predicate EveryMatchNamed(t: string) {
    forall p: nat | p <= |t| && MatchAt(t, p) :: NamesNode(t, MatchKeywordEnd(t, p).value) || InNodeName(t, p)
  }

  /** So a query that is accepted is scoped throughout exactly when every MATCH in it names
      its first node. */
  lemma ScopedThroughoutExactly(t: string)
    ensures EveryMatchCovered(t) <==> EveryMatchNamed(t)
  {
    forall p: nat | p <= |t| && MatchAt(t, p)
      ensures Covered(t, p) <==> NamesNode(t, MatchKeywordEnd(t, p).value) || InNodeName(t, p)
    {
      ScopedExactly(t, p);
    }
  }

  // ---------------------------------------------------------------- an example

  lemma {:induction false} NothingScanned(hits: seq<Option<Clause>>, i: nat)
    requires ScanReady(hits) && forall k | i <= k < |hits| :: hits[k].None?
    ensures Scan(hits, i) == []
    decreases |hits| - i
  {
    if i < |hits| { NothingScanned(hits, i + 1); }
  }

  lemma FirstClauseOfExample(t: string)
    requires t == "MATCH(a)MATCH()"
    ensures ClauseAt(t, 0) == Some(Clause(0, 5, 6, 7))
  {
    assert KeywordEnd(t, 0, "MATCH") == Some(5);
    MatchWordIsAKeyword(t, 0);
    assert t[5] == '(' && t[6] == 'a' && t[7] == ')';
    assert WordEnd(t, 6) == WordEnd(t, 7) == 7;
  }

  lemma SecondMatchOfExample(t: string)
    requires t == "MATCH(a)MATCH()"
    ensures MatchKeywordEnd(t, 8) == Some(13) && ClauseAt(t, 8).None?
  {
    assert t[8] == 'M' && t[9] == 'A' && t[10] == 'T' && t[11] == 'C' && t[12] == 'H';
    assert KeywordEnd(t, 8, "MATCH") == Some(13);
    MatchWordIsAKeyword(t, 8);
    assert t[13] == '(' && t[14] == ')';
    ClauseNamesNode(t, 8);
  }

  lemma NoOtherMatchInExample(t: string, p: nat)
    requires t == "MATCH(a)MATCH()" && p <= |t| && p != 0 && p != 8
    ensures !MatchAt(t, p)
  {
    if MatchAt(t, p) { KeywordStart(t, p); }
  }

  lemma ExampleIsAccepted(t: string)
    requires t == "MATCH(a)MATCH()"
    ensures !Contains(t, "COMPANY_ID")
  {
    forall i | 0 <= i <= |t| ensures KeywordEnd(t, i, "COMPANY_ID").None? {
      if KeywordEnd(t, i, "COMPANY_ID").Some? {
        LetterOf(t, i, "COMPANY_ID", 0);
        LetterOf(t, i, "COMPANY_ID", 1);
      }
    }
  }

  /** A query whose second MATCH names no node is accepted, and only the first MATCH gets a
      fragment. */
  lemma AnonymousNodeIsLeftOut(t: string)
    requires t == "MATCH(a)MATCH()"
    ensures !Contains(t, "COMPANY_ID") && Clauses(t) == [Clause(0, 5, 6, 7)]
    ensures MatchAt(t, 8) && !Covered(t, 8) && !EveryMatchCovered(t)
  {
    ExampleIsAccepted(t);
    FirstClauseOfExample(t);
    SecondMatchOfExample(t);
    var hits := Hits(t);
    forall k | 7 <= k < |hits| ensures hits[k].None? {
      if k != 8 {
        NoOtherMatchInExample(t, k);
        ClauseNamesNode(t, k);
      }
    }
    NothingScanned(hits, 7);
    assert Scan(hits, 0) == [Clause(0, 5, 6, 7)];
  }
}
