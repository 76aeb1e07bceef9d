/** How a filter that scope injection puts in ends: whether it stands apart from the keyword
    behind it. */
module FragmentEnds {
  import opened Ascii
  import opened CypherText
  import opened ScopeCoverage
  import opened ScopeInjection
  import opened Wrappers

  /** Two word characters meet at `e`, so that what ends there and what begins there are read
      as one. */
  predicate RunsOn(u: string, e: int) {
    0 < e < |u| && IsWordChar(u[e - 1]) && IsWordChar(u[e])
  }

  /** The place behind the fragment of the `k`-th clause, in the rewritten query. */
  function FragmentEnd(t: string, k: nat): int
    requires k < |Clauses(t)|
  {
    ClausesInText(t);
    var ins := Insertions(t, Clauses(t));
    FragmentStart(ins, 0, k) + |ins[k].text|
  }

  /** The clause has a WHERE of its own, and another clause follows it. */
  predicate WhereGoesOn(t: string, c: Clause)
    requires c.end <= |t|
  {
    var next := NextBoundary(t, c.end);
    next < |t| && HasWhere(t[c.end..next])
  }

  // ---------------------------------------------------------------- the character behind a fragment

  lemma KeywordStartsWithLetter(t: string, i: nat, kw: string)
    requires KeywordEnd(t, i, kw).Some? && kw != "" && IsUpper(kw[0])
    ensures i < |t| && IsWordChar(t[i])
  {
    assert ToUpper(t[i + 0]) == kw[0];
  }

  lemma MatchStartsWithLetter(t: string, i: nat)
    requires i <= |t| && MatchKeywordEnd(t, i).Some?
    ensures i < |t| && IsWordChar(t[i])
  {
    if KeywordEnd(t, i, "OPTIONAL").Some? {
      KeywordStartsWithLetter(t, i, "OPTIONAL");
    } else {
      KeywordStartsWithLetter(t, i, "MATCH");
    }
  }

  lemma BoundaryStartsWithLetter(t: string, i: nat)
    requires i <= |t| && BoundaryAt(t, i)
    ensures i < |t| && IsWordChar(t[i])
  {
    if WholeWordAt(t, i, "RETURN") { KeywordStartsWithLetter(t, i, "RETURN"); }
    else if WholeWordAt(t, i, "WITH") { KeywordStartsWithLetter(t, i, "WITH"); }
    else if WholeWordAt(t, i, "UNION") { KeywordStartsWithLetter(t, i, "UNION"); }
    else if OrderByAt(t, i) { KeywordStartsWithLetter(t, i, "ORDER"); }
    else if WholeWordAt(t, i, "UNWIND") { KeywordStartsWithLetter(t, i, "UNWIND"); }
    else { MatchStartsWithLetter(t, i); }
  }

  /** `u` goes on at `e` as `t` does at `at`, or both end there. */
  predicate GoesOn(u: string, e: int, t: string, at: nat) {
    0 <= e <= |u| && at <= |t| && (e < |u| <==> at < |t|) && (e < |u| ==> u[e] == t[at])
  }

  lemma RestGoesOn(t: string, at: nat, more: seq<Insertion>)
    requires Ordered(more, at, |t|) && (more != [] ==> at < more[0].at)
    ensures GoesOn(Splice(t, at, more), 0, t, at)
  {
    if more != [] { assert t[at..more[0].at][0] == t[at]; }
  }

  lemma GoesOnBehind(lead: string, rest: string, e: int, t: string, at: nat)
    requires GoesOn(rest, e, t, at)
    ensures GoesOn(lead + rest, |lead| + e, t, at)
  {
  }

  lemma {:induction false} CharacterBehind(t: string, from: nat, ins: seq<Insertion>, k: nat)
    requires Ordered(ins, from, |t|) && k < |ins|
    requires k + 1 < |ins| ==> ins[k].at < ins[k + 1].at
    ensures GoesOn(Splice(t, from, ins), FragmentStart(ins, from, k) + |ins[k].text|, t, ins[k].at)
    decreases k
  {
    var at, more := ins[0].at, ins[1..];
    var lead := t[from..at] + ins[0].text;
    var rest := Splice(t, at, more);
    if k == 0 {
      RestGoesOn(t, at, more);
      GoesOnBehind(lead, rest, 0, t, at);
    } else {
      CharacterBehind(t, at, more, k - 1);
      var e := FragmentStart(more, at, k - 1) + |more[k - 1].text|;
      GoesOnBehind(lead, rest, e, t, more[k - 1].at);
      assert FragmentStart(ins, from, k) == |lead| + FragmentStart(more, at, k - 1);
    }
  }

  lemma LastCharacter(u: string, at: int, text: string)
    requires StandsAt(u, at, text) && text != ""
    ensures u[at + |text| - 1] == text[|text| - 1]
  {
    assert u[at..at + |text|][|text| - 1] == u[at + |text| - 1];
  }

  /** A fragment ends in a blank unless it goes on with AND. */
  lemma FragmentEnding(t: string, c: Clause)
    requires c.variable <= c.end <= |t|
    ensures var text := InsertionFor(t, c).text;
            text != "" && (IsWordChar(text[|text| - 1]) <==> HasWhere(t[c.end..NextBoundary(t, c.end)]))
  {
    var predicateText := Predicate(t, c);
    assert predicateText[|predicateText| - 1] == 'd';
  }

  // ---------------------------------------------------------------- theorems

  predicate Increasing(ins: seq<Insertion>, k: nat)
    requires k + 1 < |ins|
  {
    ins[k].at < ins[k + 1].at
  }

  lemma ScopedIsSpliced(t: string) returns (u: string, ins: seq<Insertion>)
    ensures InText(t, Clauses(t)) && ins == Insertions(t, Clauses(t))
    ensures Ordered(ins, 0, |t|) && u == Scoped(t) == Splice(t, 0, ins)
    ensures forall k | 0 <= k < |ins| - 1 :: Increasing(ins, k)
  {
    InsertionsPlaced(t);
    var cs := Clauses(t);
    u, ins := Scoped(t), Insertions(t, cs);
    PlacedIsOrdered(t, cs, ins, 0, 0);
    assert ins[0..] == ins;
    forall k | 0 <= k < |ins| - 1 ensures Increasing(ins, k) {
      assert PlacedAt(t, cs, ins, k) && PlacedAt(t, cs, ins, k + 1);
    }
  }

  lemma EndsMeet(t: string, u: string, e: int, at: nat, where: bool)
    requires 0 < e <= |u| && at <= |t| && (e < |u| <==> at < |t|)
    requires e < |u| ==> u[e] == t[at] && IsWordChar(t[at])
    requires IsWordChar(u[e - 1]) <==> where
    ensures RunsOn(u, e) <==> where && at < |t|
  {
  }

  /** What stands on both sides of the end of a fragment. */
  lemma EndOfFragment(t: string, ins: seq<Insertion>, k: nat) returns (u: string, e: int)
    requires Ordered(ins, 0, |t|) && k < |ins| && ins[k].text != ""
    requires k + 1 < |ins| ==> ins[k].at < ins[k + 1].at
    ensures u == Splice(t, 0, ins) && e == FragmentStart(ins, 0, k) + |ins[k].text|
    ensures 0 < e <= |u| && ins[k].at <= |t| && (e < |u| <==> ins[k].at < |t|)
    ensures u[e - 1] == ins[k].text[|ins[k].text| - 1] && (e < |u| ==> u[e] == t[ins[k].at])
  {
    u := Splice(t, 0, ins);
    var start, text := FragmentStart(ins, 0, k), ins[k].text;
    e := start + |text|;
    FragmentInPlace(t, 0, ins, k);
    LastCharacter(u, start, text);
    CharacterBehind(t, 0, ins, k);
  }

  lemma FragmentOf(t: string, c: Clause) returns (at: nat, text: string, where: bool)
    requires c.variable <= c.end <= |t|
    ensures InsertionFor(t, c) == Insertion(at, text) && at <= |t|
    ensures text != "" && (IsWordChar(text[|text| - 1]) <==> where)
    ensures at < |t| ==> IsWordChar(t[at])
    ensures WhereGoesOn(t, c) <==> where && at < |t|
  {
    at := NextBoundary(t, c.end);
    text := InsertionFor(t, c).text;
    where := HasWhere(t[c.end..at]);
    FragmentEnding(t, c);
    if at < |t| { BoundaryStartsWithLetter(t, at); }
  }

  lemma PlaceBehind(t: string, k: nat, ins: seq<Insertion>, at: nat, text: string)
    requires k < |Clauses(t)| && InText(t, Clauses(t)) && ins == Insertions(t, Clauses(t))
    requires InsertionFor(t, Clauses(t)[k]) == Insertion(at, text)
    ensures ins[k] == Insertion(at, text)
    ensures FragmentEnd(t, k) == FragmentStart(ins, 0, k) + |text|
  {
  }

  lemma EndOfScoped(t: string, k: nat, at: nat, text: string) returns (u: string, e: int)
    requires k < |Clauses(t)| && InText(t, Clauses(t)) && InsertionFor(t, Clauses(t)[k]) == Insertion(at, text)
    requires text != ""
    ensures u == Scoped(t) && e == FragmentEnd(t, k)
    ensures 0 < e <= |u| && at <= |t| && (e < |u| <==> at < |t|)
    ensures u[e - 1] == text[|text| - 1] && (e < |u| ==> u[e] == t[at])
  {
    var ins;
    u, ins := ScopedIsSpliced(t);
    if k + 1 < |ins| { assert Increasing(ins, k); }
    PlaceBehind(t, k, ins, at, text);
    u, e := EndOfFragment(t, ins, k);
  }

  /** The end of a fragment runs on into what follows exactly when its clause has a WHERE of
      its own and another clause follows. */
  lemma RunsOnExactly(t: string, k: nat)
    requires k < |Clauses(t)|
    ensures InText(t, Clauses(t))
    ensures RunsOn(Scoped(t), FragmentEnd(t, k)) <==> WhereGoesOn(t, Clauses(t)[k])
  {
    ClausesInText(t);
    var at, text, where := FragmentOf(t, Clauses(t)[k]);
    var u, e := EndOfScoped(t, k, at, text);
    EndsMeet(t, u, e, at, where);
  }

  ghost predicate EveryFilterStands(t: string) {
    forall k: nat | k < |Clauses(t)| :: !RunsOn(Scoped(t), FragmentEnd(t, k))
  }

  predicate NoWhereGoesOn(t: string)
    requires InText(t, Clauses(t))
  {
    forall k: nat | k < |Clauses(t)| :: !WhereGoesOn(t, Clauses(t)[k])
  }

  /** Every MATCH has a filter of its own that stands apart from what follows exactly when
      every MATCH names its first node, and none with a WHERE is followed by another clause. */
  lemma FilteredThroughoutExactly(t: string)
    ensures InText(t, Clauses(t))
    ensures EveryMatchCovered(t) && EveryFilterStands(t) <==> EveryMatchNamed(t) && NoWhereGoesOn(t)
  {
    ClausesInText(t);
    ScopedThroughoutExactly(t);
    forall k: nat | k < |Clauses(t)|
      ensures RunsOn(Scoped(t), FragmentEnd(t, k)) <==> WhereGoesOn(t, Clauses(t)[k])
    {
      RunsOnExactly(t, k);
    }
  }

  // ---------------------------------------------------------------- an example

  lemma FirstClauseOfExample(t: string)
    requires t == "MATCH(a)WHERE b RETURN"
    ensures ClauseAt(t, 0) == Some(Clause(0, 5, 6, 7))
  {
    assert KeywordEnd(t, 0, "MATCH") == Some(5);
    MatchWordIsAKeyword(t, 0);
    assert t[5] == '(' && t[6] == 'a' && t[7] == ')';
    assert WordEnd(t, 6) == WordEnd(t, 7) == 7;
  }

  lemma NoOtherMatchInExample(t: string, i: nat)
    requires t == "MATCH(a)WHERE b RETURN" && 7 <= i <= |t|
    ensures !MatchAt(t, i)
  {
    if MatchAt(t, i) { KeywordStart(t, i); }
  }

  lemma ClausesOfExample(t: string)
    requires t == "MATCH(a)WHERE b RETURN"
    ensures Clauses(t) == [Clause(0, 5, 6, 7)]
  {
    FirstClauseOfExample(t);
    var hits := Hits(t);
    forall i | 7 <= i < |hits| ensures hits[i].None? {
      ClauseNamesNode(t, i);
      NoOtherMatchInExample(t, i);
    }
    OnlyClause(t, hits, Clause(0, 5, 6, 7));
  }

  lemma OnlyClause(t: string, hits: seq<Option<Clause>>, c: Clause)
    requires ScanReady(hits) && 0 < c.end <= |hits| && hits[0] == Some(c)
    requires forall i | c.end <= i < |hits| :: hits[i].None?
    ensures Scan(hits, 0) == [c]
  {
    NothingScanned(hits, c.end);
  }

  /** What a boundary starts with. */
  predicate BoundaryLetters(t: string, i: nat)
    requires i + 1 < |t|
  {
    var a, b := ToUpper(t[i]), ToUpper(t[i + 1]);
    || (a == 'R' && b == 'E' && WordBoundary(t, i))
    || (a == 'W' && b == 'I') || (a == 'U' && b == 'N') || (a == 'O' && b == 'R')
    || a == 'M' || (a == 'O' && b == 'P')
  }

  lemma TwoLetters(t: string, i: nat, kw: string)
    requires KeywordEnd(t, i, kw).Some? && |kw| >= 2
    ensures i + 1 < |t| && ToUpper(t[i]) == kw[0] && ToUpper(t[i + 1]) == kw[1]
  {
    LetterOf(t, i, kw, 0);
    LetterOf(t, i, kw, 1);
  }

  lemma BoundaryHasLetters(t: string, i: nat)
    requires i + 1 < |t| && BoundaryAt(t, i)
    ensures BoundaryLetters(t, i)
  {
    if WholeWordAt(t, i, "RETURN") { TwoLetters(t, i, "RETURN"); }
    else if WholeWordAt(t, i, "WITH") { TwoLetters(t, i, "WITH"); }
    else if WholeWordAt(t, i, "UNION") { TwoLetters(t, i, "UNION"); }
    else if OrderByAt(t, i) { TwoLetters(t, i, "ORDER"); }
    else if WholeWordAt(t, i, "UNWIND") { TwoLetters(t, i, "UNWIND"); }
    else { KeywordStart(t, i); }
  }

  lemma OtherLetters(t: string, i: nat)
    requires t == "MATCH(a)WHERE b RETURN" && 7 <= i < 16
    ensures !BoundaryLetters(t, i)
  {
    assert t[10] == 'E' && t[11] == 'R';
  }

  lemma NoEarlierBoundary(t: string, i: nat)
    requires t == "MATCH(a)WHERE b RETURN" && 7 <= i < 16
    ensures !BoundaryAt(t, i)
  {
    OtherLetters(t, i);
    if BoundaryAt(t, i) { BoundaryHasLetters(t, i); }
  }

  lemma ReturnOfExample(t: string)
    requires t == "MATCH(a)WHERE b RETURN"
    ensures BoundaryAt(t, 16)
  {
    assert t[15] == ' ' && t[16] == 'R' && t[21] == 'N';
    assert KeywordEnd(t, 16, "RETURN") == Some(22);
    assert WordBoundary(t, 16) && WordBoundary(t, 22);
  }

  lemma BoundaryOfExample(t: string)
    requires t == "MATCH(a)WHERE b RETURN"
    ensures NextBoundary(t, 7) == 16
  {
    ReturnOfExample(t);
    forall i | 7 <= i < 16 ensures !BoundaryAt(t, i) { NoEarlierBoundary(t, i); }
    FirstBoundary(t, 7, 16);
  }

  lemma FirstBoundary(t: string, i: nat, b: nat)
    requires i <= b <= |t| && BoundaryAt(t, b) && forall k | i <= k < b :: !BoundaryAt(t, k)
    ensures NextBoundary(t, i) == b
  {
  }

  lemma WhereOfExample(segment: string)
    requires segment == ")WHERE b "
    ensures HasWhere(segment)
  {
    assert segment[0] == ')' && segment[1] == 'W' && segment[5] == 'E' && segment[6] == ' ';
    assert KeywordEnd(segment, 1, "WHERE") == Some(6);
    assert WordBoundary(segment, 1) && WordBoundary(segment, 6);
    assert WholeWordAt(segment, 1, "WHERE");
  }

  lemma ExampleNamesNoCompany(t: string)
    requires t == "MATCH(a)WHERE b RETURN"
    ensures !Contains(t, "COMPANY_ID")
  {
    forall i | 0 <= i <= |t| ensures KeywordEnd(t, i, "COMPANY_ID").None? {
      if KeywordEnd(t, i, "COMPANY_ID").Some? { TwoLetters(t, i, "COMPANY_ID"); }
    }
  }

  lemma WhereInsertion(t: string, c: Clause, at: nat, segment: string, name: string) returns (text: string)
    requires c.variable <= c.end <= |t| && t[c.variable..c.end] == name
    requires NextBoundary(t, c.end) == at < |t| && t[c.end..at] == segment && HasWhere(segment)
    ensures InsertionFor(t, c) == Insertion(at, text) && WhereGoesOn(t, c)
    ensures text == " AND " + (name + ".company_id = $company_id")
  {
    text := InsertionFor(t, c).text;
  }

  lemma FlatText(rest: string)
    ensures " AND " + ("a" + rest) == " AND a" + rest
  {
  }

  lemma SlicesOfExample(t: string) returns (segment: string, name: string)
    requires t == "MATCH(a)WHERE b RETURN"
    ensures t[7..16] == segment == ")WHERE b " && t[6..7] == name == "a"
  {
    segment, name := t[7..16], t[6..7];
  }

  lemma InsertionOfExample(t: string) returns (text: string)
    requires t == "MATCH(a)WHERE b RETURN"
    ensures text == " AND a" + ".company_id = $company_id"
    ensures InsertionFor(t, Clause(0, 5, 6, 7)) == Insertion(16, text) && WhereGoesOn(t, Clause(0, 5, 6, 7))
  {
    BoundaryOfExample(t);
    var segment, name := SlicesOfExample(t);
    WhereOfExample(segment);
    text := WhereInsertion(t, Clause(0, 5, 6, 7), 16, segment, name);
    FlatText(".company_id = $company_id");
  }

  /** The filter of an accepted query with a WHERE runs into its RETURN. */
  lemma FilterRunsIntoReturn(t: string)
    requires t == "MATCH(a)WHERE b RETURN"
    ensures !Contains(t, "COMPANY_ID") && Clauses(t) != []
    ensures Scoped(t) == "MATCH(a)WHERE b " + (" AND a" + ".company_id = $company_id") + "RETURN"
    ensures RunsOn(Scoped(t), FragmentEnd(t, 0))
  {
    ExampleNamesNoCompany(t);
    ClausesOfExample(t);
    var text := InsertionOfExample(t);
    var u, ins := ScopedIsSpliced(t);
    assert ins == [Insertion(16, text)];
    SpliceOne(t, ins, 16, text);
    HalvesOfExample(t);
    RunsOnExactly(t, 0);
  }

  lemma HalvesOfExample(t: string)
    requires t == "MATCH(a)WHERE b RETURN"
    ensures t[..16] == "MATCH(a)WHERE b " && t[16..] == "RETURN"
  {
  }

  lemma SpliceOne(t: string, ins: seq<Insertion>, at: nat, text: string)
    requires at <= |t| && ins == [Insertion(at, text)]
    ensures Splice(t, 0, ins) == t[..at] + text + t[at..]
  {
    assert ins[1..] == [];
  }
}
