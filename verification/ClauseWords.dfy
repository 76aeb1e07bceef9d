/** The words the scope injection goes by, spelled out: what a MATCH clause and a clause boundary
    are, where each filter stands between them, and what it says. */
module ClauseWords {
  import opened Ascii
  import opened CypherText
  import opened ScopeInjection
  import opened Wrappers

  // ---------------------------------------------------------------- words, ignoring case

  /** The text spells the word at a place, whatever the case of its letters. */
  predicate Spells(t: string, i: int, w: string) {
    0 <= i && i + |w| <= |t| && forall k | 0 <= k < |w| :: ToUpper(t[i + k]) == w[k]
  }

  predicate BeginsWord(t: string, i: int) {
    0 <= i <= |t| && (i == 0 || !IsWordChar(t[i - 1]))
  }

  predicate EndsWord(t: string, j: int) {
    0 <= j <= |t| && (j == |t| || !IsWordChar(t[j]))
  }

  predicate BlankBetween(t: string, i: int, j: int) {
    0 <= i <= j <= |t| && forall k | i <= k < j :: IsSpace(t[k])
  }

  predicate WordAt(t: string, i: int, w: string) {
    BeginsWord(t, i) && Spells(t, i, w) && EndsWord(t, i + |w|)
  }

  /** ORDER, blanks and BY. */
  predicate OrderBySpelledAt(t: string, i: int) {
    && BeginsWord(t, i) && Spells(t, i, "ORDER")
    && exists j :: i + 5 < j <= |t| && BlankBetween(t, i + 5, j) && Spells(t, j, "BY") && EndsWord(t, j + 2)
  }

  /** MATCH, or OPTIONAL, blanks and MATCH, from `i` to `j`. */
  predicate MatchSpelled(t: string, i: int, j: int) {
    || (Spells(t, i, "MATCH") && j == i + 5)
    || (Spells(t, i, "OPTIONAL") && i + 8 < j - 5 && BlankBetween(t, i + 8, j - 5) && Spells(t, j - 5, "MATCH"))
  }

  /** A clause of the query starts: RETURN, WITH, UNION, UNWIND or ORDER BY as whole words, or a
      MATCH that is the end of one. */
  predicate ClauseStarts(t: string, i: int) {
    || WordAt(t, i, "RETURN")
    || WordAt(t, i, "WITH")
    || WordAt(t, i, "UNION")
    || WordAt(t, i, "UNWIND")
    || OrderBySpelledAt(t, i)
    || exists j :: i <= j <= |t| && MatchSpelled(t, i, j) && EndsWord(t, j)
  }

  // ---------------------------------------------------------------- the patterns mean these words

  lemma SpellsIsKeyword(t: string, i: nat, w: string)
    ensures KeywordEnd(t, i, w) == if Spells(t, i, w) then Some(i + |w|) else None
  {
  }

  /** A spelled word begins and ends in word characters, so word boundaries are where it begins
      and ends. */
  lemma WordIsWhole(t: string, i: nat, w: string)
    requires i <= |t| && w != "" && IsUpper(w[0]) && IsUpper(w[|w| - 1])
    ensures WholeWordAt(t, i, w) <==> WordAt(t, i, w)
  {
    SpellsIsKeyword(t, i, w);
    if Spells(t, i, w) { EdgeLetters(t, i, w); }
  }

  lemma EdgeLetters(t: string, i: nat, w: string)
    requires Spells(t, i, w) && w != "" && IsUpper(w[0]) && IsUpper(w[|w| - 1])
    ensures IsWordChar(t[i]) && IsWordChar(t[i + |w| - 1])
    ensures (WordBoundary(t, i) <==> BeginsWord(t, i)) && (WordBoundary(t, i + |w|) <==> EndsWord(t, i + |w|))
  {
    assert ToUpper(t[i + 0]) == w[0] && ToUpper(t[i + (|w| - 1)]) == w[|w| - 1];
  }

  /** Blanks up to a character that is none are all there are. */
  lemma BlanksAreSkipped(t: string, i: nat, j: nat)
    requires BlankBetween(t, i, j) && j < |t| && !IsSpace(t[j])
    ensures SkipSpaces(t, i) == j
  {
  }

  lemma FirstLetter(t: string, i: nat, w: string)
    requires Spells(t, i, w) && w != "" && IsUpper(w[0])
    ensures i < |t| && ToUpper(t[i]) == w[0] && !IsSpace(t[i])
  {
    assert ToUpper(t[i + 0]) == w[0];
  }

  lemma OrderByIsSpelled(t: string, i: nat)
    requires i <= |t| && OrderByAt(t, i)
    ensures OrderBySpelledAt(t, i)
  {
    SpellsIsKeyword(t, i, "ORDER");
    EdgeLetters(t, i, "ORDER");
    var next := SkipSpaces(t, i + 5);
    SpellsIsKeyword(t, next, "BY");
    EdgeLetters(t, next, "BY");
    assert BlankBetween(t, i + 5, next);
  }

  lemma SpelledIsOrderBy(t: string, i: nat, j: nat)
    requires i <= |t| && BeginsWord(t, i) && Spells(t, i, "ORDER")
    requires i + 5 < j <= |t| && BlankBetween(t, i + 5, j) && Spells(t, j, "BY") && EndsWord(t, j + 2)
    ensures OrderByAt(t, i)
  {
    SpellsIsKeyword(t, i, "ORDER");
    EdgeLetters(t, i, "ORDER");
    FirstLetter(t, j, "BY");
    BlanksAreSkipped(t, i + 5, j);
    SpellsIsKeyword(t, j, "BY");
    EdgeLetters(t, j, "BY");
  }

  lemma OrderByMeans(t: string, i: nat)
    requires i <= |t|
    ensures OrderByAt(t, i) <==> OrderBySpelledAt(t, i)
  {
    if OrderByAt(t, i) { OrderByIsSpelled(t, i); }
    if OrderBySpelledAt(t, i) {
      var j :| i + 5 < j <= |t| && BlankBetween(t, i + 5, j) && Spells(t, j, "BY") && EndsWord(t, j + 2);
      SpelledIsOrderBy(t, i, j);
    }
  }

  lemma MatchMeans(t: string, i: nat, j: int)
    requires i <= |t|
    ensures MatchKeywordEnd(t, i) == Some(j) <==> MatchSpelled(t, i, j)
  {
    SpellsIsKeyword(t, i, "OPTIONAL");
    SpellsIsKeyword(t, i, "MATCH");
    if Spells(t, i, "OPTIONAL") {
      FirstLetter(t, i, "OPTIONAL");
      OptionalMatchMeans(t, i, j);
    }
    if Spells(t, i, "MATCH") { FirstLetter(t, i, "MATCH"); }
  }

  lemma OptionalMatchMeans(t: string, i: nat, j: int)
    requires Spells(t, i, "OPTIONAL")
    ensures !Spells(t, i, "MATCH")
    ensures MatchKeywordEnd(t, i) == Some(j) <==> MatchSpelled(t, i, j)
  {
    SpellsIsKeyword(t, i, "OPTIONAL");
    FirstLetter(t, i, "OPTIONAL");
    if Spells(t, i, "MATCH") { FirstLetter(t, i, "MATCH"); }
    SpellsIsKeyword(t, i, "MATCH");
    var m := SkipSpaces(t, i + 8);
    SpellsIsKeyword(t, m, "MATCH");
    assert BlankBetween(t, i + 8, m);
    if MatchSpelled(t, i, j) {
      FirstLetter(t, j - 5, "MATCH");
      BlanksAreSkipped(t, i + 8, j - 5);
    }
  }

  lemma MatchEnds(t: string, i: int, j: int)
    requires MatchSpelled(t, i, j)
    ensures 0 < j <= |t| && (WordBoundary(t, j) <==> EndsWord(t, j))
  {
    EdgeLetters(t, j - 5, "MATCH");
  }

  /** The boundary pattern matches exactly where a clause starts. */
  lemma BoundaryMeans(t: string, i: nat)
    requires i <= |t|
    ensures BoundaryAt(t, i) <==> ClauseStarts(t, i)
  {
    WordIsWhole(t, i, "RETURN");
    WordIsWhole(t, i, "WITH");
    WordIsWhole(t, i, "UNION");
    WordIsWhole(t, i, "UNWIND");
    OrderByMeans(t, i);
    MatchBoundaryMeans(t, i);
  }

  lemma MatchBoundaryMeans(t: string, i: nat)
    requires i <= |t|
    ensures (var keyword := MatchKeywordEnd(t, i); keyword.Some? && WordBoundary(t, keyword.value))
       <==> exists j :: i <= j <= |t| && MatchSpelled(t, i, j) && EndsWord(t, j)
  {
    var keyword := MatchKeywordEnd(t, i);
    if keyword.Some? {
      MatchMeans(t, i, keyword.value);
      MatchEnds(t, i, keyword.value);
    }
    if j :| i <= j <= |t| && MatchSpelled(t, i, j) && EndsWord(t, j) {
      MatchMeans(t, i, j);
      MatchEnds(t, i, j);
    }
  }

  // ---------------------------------------------------------------- a MATCH clause

  /** A MATCH, a bracket, and the name that is the first word in it, blanks aside. */
  predicate ClauseSpelled(t: string, c: Clause) {
    && c.end <= |t| && c.paren < c.variable < c.end
    && (exists j :: c.start < j <= c.paren && MatchSpelled(t, c.start, j) && BlankBetween(t, j, c.paren))
    && t[c.paren] == '(' && BlankBetween(t, c.paren + 1, c.variable)
    && (forall k | c.variable <= k < c.end :: IsWordChar(t[k])) && EndsWord(t, c.end)
  }

  lemma NameIsRead(t: string, i: nat, j: nat)
    requires i <= j <= |t| && (forall k | i <= k < j :: IsWordChar(t[k])) && EndsWord(t, j)
    ensures WordEnd(t, i) == j
  {
  }

  lemma ClauseIsSpelled(t: string, c: Clause)
    requires c.start <= |t| && ClauseAt(t, c.start) == Some(c)
    ensures ClauseSpelled(t, c)
  {
    var j := MatchKeywordEnd(t, c.start).value;
    MatchMeans(t, c.start, j);
    assert BlankBetween(t, j, c.paren);
    assert BlankBetween(t, c.paren + 1, c.variable);
  }

  lemma ClauseFromParts(t: string, c: Clause, j: nat)
    requires c.start <= |t| && j <= |t| && MatchKeywordEnd(t, c.start) == Some(j)
    requires SkipSpaces(t, j) == c.paren < |t| && t[c.paren] == '('
    requires SkipSpaces(t, c.paren + 1) == c.variable <= |t| && WordEnd(t, c.variable) == c.end != c.variable
    ensures ClauseAt(t, c.start) == Some(c)
  {
  }

  lemma SpelledIsClause(t: string, c: Clause, j: nat)
    requires ClauseSpelled(t, c)
    requires c.start < j <= c.paren && MatchSpelled(t, c.start, j) && BlankBetween(t, j, c.paren)
    ensures ClauseAt(t, c.start) == Some(c)
  {
    MatchMeans(t, c.start, j);
    BlanksAreSkipped(t, j, c.paren);
    BlanksAreSkipped(t, c.paren + 1, c.variable);
    NameIsRead(t, c.variable, c.end);
    ClauseFromParts(t, c, j);
  }

  /** The MATCH pattern matches exactly these clauses. */
  lemma ClauseMeans(t: string, c: Clause)
    requires c.start <= |t|
    ensures ClauseAt(t, c.start) == Some(c) <==> ClauseSpelled(t, c)
  {
    if ClauseAt(t, c.start) == Some(c) { ClauseIsSpelled(t, c); }
    if ClauseSpelled(t, c) {
      var j :| c.start < j <= c.paren && MatchSpelled(t, c.start, j) && BlankBetween(t, j, c.paren);
      SpelledIsClause(t, c, j);
    }
  }

  /** Wherever such a clause starts, one that gets a filter covers the place. */
  lemma EveryClauseIsFound(t: string, c: Clause) returns (k: nat)
    requires ClauseSpelled(t, c)
    ensures k < |Clauses(t)| && Clauses(t)[k].start <= c.start < Clauses(t)[k].end
  {
    ClauseMeans(t, c);
    k := EveryHitCovered(Hits(t), 0, c.start);
  }

  // ---------------------------------------------------------------- where a filter stands, and what it says

  /** The segment holds WHERE as a word of its own. */
  predicate SaysWhere(segment: string) {
    exists i :: 0 <= i <= |segment| && WordAt(segment, i, "WHERE")
  }

  lemma WhereMeans(segment: string)
    ensures HasWhere(segment) <==> SaysWhere(segment)
  {
    forall i: nat | i <= |segment| ensures WholeWordAt(segment, i, "WHERE") <==> WordAt(segment, i, "WHERE") {
      WordIsWhole(segment, i, "WHERE");
    }
    if HasWhere(segment) {
      var i :| 0 <= i <= |segment| && WholeWordAt(segment, i, "WHERE");
      assert WordAt(segment, i, "WHERE");
    }
    if SaysWhere(segment) {
      var i :| 0 <= i <= |segment| && WordAt(segment, i, "WHERE");
      assert WholeWordAt(segment, i, "WHERE");
    }
  }

  /** The insertion stands behind its clause and before the next clause of any kind, or at the
      end; and filters the clause's name by its company, in the clause's WHERE or one of its own. */
  predicate FilterSpelled(t: string, c: Clause, e: Insertion) {
    && c.variable <= c.end <= e.at <= |t|
    && (forall i | c.end <= i < e.at :: !ClauseStarts(t, i))
    && (e.at < |t| ==> ClauseStarts(t, e.at))
    && e.text == if SaysWhere(t[c.end..e.at])
                 then " AND " + (t[c.variable..c.end] + ".company_id = $company_id")
                 else " WHERE " + (t[c.variable..c.end] + ".company_id = $company_id") + " "
  }

  lemma InsertionIsSpelled(t: string, c: Clause)
    requires c.variable <= c.end <= |t|
    ensures FilterSpelled(t, c, InsertionFor(t, c))
  {
    var at := NextBoundary(t, c.end);
    forall i: nat | c.end <= i <= at ensures BoundaryAt(t, i) <==> ClauseStarts(t, i) { BoundaryMeans(t, i); }
    WhereMeans(t[c.end..at]);
  }

  /** Every clause's filter, of those the rewritten query is the original with. */
  lemma FiltersAreSpelled(t: string, k: nat)
    requires k < |Clauses(t)|
    ensures InText(t, Clauses(t)) && k < |Insertions(t, Clauses(t))|
    ensures ClauseSpelled(t, Clauses(t)[k])
    ensures FilterSpelled(t, Clauses(t)[k], Insertions(t, Clauses(t))[k])
  {
    ClausesInText(t);
    var c := Clauses(t)[k];
    ScannedAreHits(Hits(t), 0, k);
    ClauseMeans(t, c);
    InsertionIsSpelled(t, c);
  }

  /** A query is refused for naming `company_id` exactly if it spells it anywhere. */
  lemma NamingCompanyMeans(t: string)
    ensures Contains(t, "COMPANY_ID") <==> exists i :: 0 <= i <= |t| && Spells(t, i, "COMPANY_ID")
  {
    forall i: nat | i <= |t| ensures KeywordEnd(t, i, "COMPANY_ID").Some? <==> Spells(t, i, "COMPANY_ID") {
      SpellsIsKeyword(t, i, "COMPANY_ID");
    }
    if Contains(t, "COMPANY_ID") {
      var i :| 0 <= i <= |t| && KeywordEnd(t, i, "COMPANY_ID").Some?;
      assert Spells(t, i, "COMPANY_ID");
    }
    if i :| 0 <= i <= |t| && Spells(t, i, "COMPANY_ID") {
      assert KeywordEnd(t, i, "COMPANY_ID").Some?;
    }
  }
}
