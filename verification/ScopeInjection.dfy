/** Injecting the tenant filter into a Cypher query: the loop that rewrites the text from
    right to left, and the simultaneous splice it amounts to. */
module ScopeInjection {
  import opened CypherText
  import opened Wrappers

  datatype InjectionError = ReferencesCompanyId | NoMatchClause

  datatype Insertion = Insertion(at: nat, text: string)

  // ---------------------------------------------------------------- the splice

  /** Insertions lie between `from` and `to`, in order. */
  predicate Ordered(ins: seq<Insertion>, from: nat, to: nat)
    decreases |ins|
  {
    if ins == [] then from <= to
    else from <= ins[0].at <= to && Ordered(ins[1..], ins[0].at, to)
  }

  /** The text from `from` on with every insertion put in at its own place in the original. */
  function Splice(t: string, from: nat, ins: seq<Insertion>): string
    requires Ordered(ins, from, |t|)
    decreases |ins|
  {
    if ins == [] then t[from..]
    else t[from..ins[0].at] + ins[0].text + Splice(t, ins[0].at, ins[1..])
  }

  /** Cuts the insertions out of a spliced text again. */
  function Unsplice(u: string, from: nat, ins: seq<Insertion>): string
    decreases |ins|
  {
    if ins == [] then u
    else
      var kept := if from <= ins[0].at then ins[0].at - from else 0;
      if |u| < kept + |ins[0].text| then u
      else u[..kept] + Unsplice(u[kept + |ins[0].text|..], ins[0].at, ins[1..])
  }

  /** Deleting the fragments gives back the original text. */
  lemma {:induction false} UnspliceUndoesSplice(t: string, from: nat, ins: seq<Insertion>)
    requires Ordered(ins, from, |t|)
    ensures Unsplice(Splice(t, from, ins), from, ins) == t[from..]
    decreases |ins|
  {
    if ins != [] {
      var u := Splice(t, from, ins);
      var kept := ins[0].at - from;
      var rest := Splice(t, ins[0].at, ins[1..]);
      UnspliceUndoesSplice(t, ins[0].at, ins[1..]);
      assert u[..kept] == t[from..ins[0].at];
      assert u[kept + |ins[0].text|..] == rest;
      assert t[from..ins[0].at] + t[ins[0].at..] == t[from..];
    }
  }

  /** The number of characters inserted before the `k`-th fragment. */
  function Shift(ins: seq<Insertion>, k: nat): nat
    requires k <= |ins|
    decreases k
  {
    if k == 0 then 0 else |ins[0].text| + Shift(ins[1..], k - 1)
  }

  /** Where the `k`-th fragment stands in the result. */
  function FragmentStart(ins: seq<Insertion>, from: nat, k: nat): int
    requires k < |ins|
  {
    ins[k].at - from + Shift(ins, k)
  }

  predicate StandsAt(u: string, at: int, text: string) {
    0 <= at && at + |text| <= |u| && u[at..at + |text|] == text
  }

  lemma StandsAfter(lead: string, rest: string, at: int, text: string)
    requires StandsAt(rest, at, text)
    ensures StandsAt(lead + rest, |lead| + at, text)
  {
  }

  /** Each fragment stands in the result at its place, moved by the fragments before it. */
  lemma {:induction false} FragmentInPlace(t: string, from: nat, ins: seq<Insertion>, k: nat)
    requires Ordered(ins, from, |t|) && k < |ins|
    ensures StandsAt(Splice(t, from, ins), FragmentStart(ins, from, k), ins[k].text)
    decreases k
  {
    var at, more := ins[0].at, ins[1..];
    var lead := t[from..at] + ins[0].text;
    var rest := Splice(t, at, more);
    assert Splice(t, from, ins) == lead + rest;
    if k == 0 {
      StandsBefore(t[from..at], ins[0].text, rest);
    } else {
      FragmentInPlace(t, at, more, k - 1);
      StandsAfter(lead, rest, FragmentStart(more, at, k - 1), more[k - 1].text);
      assert |lead| + FragmentStart(more, at, k - 1) == FragmentStart(ins, from, k);
    }
  }

  lemma StandsBefore(lead: string, text: string, rest: string)
    ensures StandsAt(lead + text + rest, |lead|, text)
  {
  }

  /** One more insertion, left of the others, leaves their places valid. */
  lemma InsertLeft(t: string, e: Insertion, ins: seq<Insertion>)
    requires Ordered([e] + ins, 0, |t|) && Ordered(ins, 0, |t|)
    ensures var u := Splice(t, 0, ins);
            && e.at <= |u|
            && t[..e.at] == u[..e.at]
            && u[..e.at] + e.text + u[e.at..] == Splice(t, 0, [e] + ins)
  {
  }

  // ---------------------------------------------------------------- what is inserted

  function Predicate(t: string, c: Clause): string
    requires c.variable <= c.end <= |t|
  {
    t[c.variable..c.end] + ".company_id = $company_id"
  }

  /** The insertion for one clause, computed on the text `t`. */
  function InsertionFor(t: string, c: Clause): Insertion
    requires c.variable <= c.end <= |t|
  {
    var at := NextBoundary(t, c.end);
    Insertion(at, if HasWhere(t[c.end..at]) then " AND " + Predicate(t, c) else " WHERE " + Predicate(t, c) + " ")
  }

  predicate InText(t: string, cs: seq<Clause>) {
    forall k | 0 <= k < |cs| :: cs[k].variable <= cs[k].end <= |t|
  }

  function Insertions(t: string, cs: seq<Clause>): (ins: seq<Insertion>)
    requires InText(t, cs)
    ensures |ins| == |cs|
    ensures forall k | 0 <= k < |cs| :: ins[k] == InsertionFor(t, cs[k])
  {
    seq(|cs|, k requires 0 <= k < |cs| => InsertionFor(t, cs[k]))
  }

  /** An insertion lies after its own clause and no later than the next. */
  predicate PlacedAt(t: string, cs: seq<Clause>, ins: seq<Insertion>, k: nat)
    requires k < |cs| == |ins|
  {
    && cs[k].start < cs[k].paren < cs[k].variable < cs[k].end <= ins[k].at <= |t|
    && t[cs[k].paren] == '('
    && (k + 1 < |cs| ==> ins[k].at <= cs[k + 1].start)
  }

  predicate Placed(t: string, cs: seq<Clause>, ins: seq<Insertion>) {
    |ins| == |cs| && forall k | 0 <= k < |cs| :: PlacedAt(t, cs, ins, k)
  }

  lemma ClausesInText(t: string)
    ensures InText(t, Clauses(t))
  {
    forall k | 0 <= k < |Clauses(t)| ensures Clauses(t)[k].variable <= Clauses(t)[k].end <= |t| {
      ScannedAreHits(Hits(t), 0, k);
    }
  }

  lemma InsertionPlaced(t: string, k: nat)
    requires InText(t, Clauses(t)) && k < |Clauses(t)|
    ensures PlacedAt(t, Clauses(t), Insertions(t, Clauses(t)), k)
  {
    var cs := Clauses(t);
    ScannedAreHits(Hits(t), 0, k);
    assert ClauseAt(t, cs[k].start) == Some(cs[k]);
    if k + 1 < |cs| {
      ScannedAreHits(Hits(t), 0, k + 1);
      assert ClauseAt(t, cs[k + 1].start) == Some(cs[k + 1]);
      ClauseIsBoundary(t, cs[k + 1].start);
    }
  }

  lemma InsertionsPlaced(t: string)
    ensures InText(t, Clauses(t)) && Placed(t, Clauses(t), Insertions(t, Clauses(t)))
  {
    ClausesInText(t);
    forall k | 0 <= k < |Clauses(t)| ensures PlacedAt(t, Clauses(t), Insertions(t, Clauses(t)), k) {
      InsertionPlaced(t, k);
    }
  }

  lemma {:induction false} PlacedIsOrdered(t: string, cs: seq<Clause>, ins: seq<Insertion>, k: nat, from: nat)
    requires Placed(t, cs, ins) && k <= |cs| && from <= |t|
    requires k < |cs| ==> from <= cs[k].end
    ensures Ordered(ins[k..], from, |t|)
    decreases |cs| - k
  {
    if k < |cs| {
      assert PlacedAt(t, cs, ins, k);
      if k + 1 < |cs| { assert PlacedAt(t, cs, ins, k + 1); }
      PlacedIsOrdered(t, cs, ins, k + 1, ins[k].at);
      assert ins[k..][1..] == ins[k + 1..];
    }
  }

  lemma SliceAgrees(t: string, u: string, q: nat, a: nat, b: nat)
    requires AgreeUpTo(t, u, q) && a <= b <= q + 1
    ensures t[a..b] == u[a..b]
  {
  }

  lemma InsertionLocal(t: string, u: string, q: nat, c: Clause)
    requires AgreeUpTo(t, u, q) && c.variable <= c.end <= q
    requires NextBoundary(t, c.end) <= q
    ensures InsertionFor(u, c) == InsertionFor(t, c)
  {
    NextBoundaryLocal(t, u, q, c.end);
    SliceAgrees(t, u, q, c.end, NextBoundary(t, c.end));
    SliceAgrees(t, u, q, c.variable, c.end);
  }

  lemma SpliceAgrees(t: string, right: seq<Insertion>, q: nat)
    requires Ordered(right, 0, |t|) && right != [] && q < right[0].at && t[q] == '('
    ensures AgreeUpTo(t, Splice(t, 0, right), q)
  {
  }

  /** Having spliced the clauses right of the `k`-th, the loop finds for it, in the changed
      text, the very insertion the original text calls for. */
  lemma SameInsertion(t: string, u: string, cs: seq<Clause>, ins: seq<Insertion>, k: nat)
    requires Placed(t, cs, ins) && InText(t, cs) && k < |cs| && ins[k] == InsertionFor(t, cs[k])
    requires Ordered(ins[k + 1..], 0, |t|) && u == Splice(t, 0, ins[k + 1..])
    ensures cs[k].end <= |u| && InsertionFor(u, cs[k]) == ins[k]
  {
    assert PlacedAt(t, cs, ins, k);
    if k + 1 < |cs| {
      assert PlacedAt(t, cs, ins, k + 1);
      SpliceAgrees(t, ins[k + 1..], cs[k + 1].paren);
      InsertionLocal(t, u, cs[k + 1].paren, cs[k]);
    }
  }

  /** One turn of the loop. */
  lemma TurnSplicesOneMore(t: string, cs: seq<Clause>, ins: seq<Insertion>, k: nat)
    requires Placed(t, cs, ins) && k < |cs|
    requires Ordered(ins[k + 1..], 0, |t|)
    ensures Ordered(ins[k..], 0, |t|)
    ensures var u := Splice(t, 0, ins[k + 1..]);
            ins[k].at <= |u| && u[..ins[k].at] + ins[k].text + u[ins[k].at..] == Splice(t, 0, ins[k..])
  {
    assert PlacedAt(t, cs, ins, k);
    PlacedIsOrdered(t, cs, ins, k, 0);
    assert [ins[k]] + ins[k + 1..] == ins[k..];
    InsertLeft(t, ins[k], ins[k + 1..]);
  }

  // ---------------------------------------------------------------- the rewriting loop

  /** The query with every clause's insertion spliced in at once. */
  function Scoped(t: string): string {
    InsertionsPlaced(t);
    var ins := Insertions(t, Clauses(t));
    PlacedIsOrdered(t, Clauses(t), ins, 0, 0);
    assert ins[0..] == ins;
    Splice(t, 0, ins)
  }

  /** `inject_company_id_scope`. */
  method InjectCompanyIdScope(t: string) returns (r: Result<string, InjectionError>)
    ensures r == if Contains(t, "COMPANY_ID") then Failure(ReferencesCompanyId)
                 else if Clauses(t) == [] then Failure(NoMatchClause)
                 else Success(Scoped(t))
  {
    if Contains(t, "COMPANY_ID") {
      return Failure(ReferencesCompanyId);
    }
    var matches := Clauses(t);
    if matches == [] {
      return Failure(NoMatchClause);
    }
    InsertionsPlaced(t);
    ghost var ins := Insertions(t, matches);
    var cypher := t;
    var k := |matches|;
    PlacedIsOrdered(t, matches, ins, k, 0);
    while k > 0
      invariant 0 <= k <= |matches|
      invariant Ordered(ins[k..], 0, |t|) && cypher == Splice(t, 0, ins[k..])
    {
      k := k - 1;
      SameInsertion(t, cypher, matches, ins, k);
      TurnSplicesOneMore(t, matches, ins, k);
      var c := matches[k];
      var boundary := NextBoundary(cypher, c.end);
      var segment := cypher[c.end..boundary];
      var predicateText := Predicate(cypher, c);
      var fragment := if HasWhere(segment) then " AND " + predicateText else " WHERE " + predicateText + " ";
      cypher := cypher[..boundary] + fragment + cypher[boundary..];
    }
    assert ins[0..] == ins;
    return Success(cypher);
  }

  // ---------------------------------------------------------------- what the result is

  /** One fragment per MATCH clause: it names the clause's first variable, and stands after
      that clause and no later than the next. */
  lemma OneFragmentPerClause(t: string)
    ensures InText(t, Clauses(t)) && |Insertions(t, Clauses(t))| == |Clauses(t)|
    ensures var cs := Clauses(t);
            var ins := Insertions(t, cs);
            forall k | 0 <= k < |cs| ::
              && cs[k].end <= ins[k].at <= (if k + 1 < |cs| then cs[k + 1].start else |t|)
              && (ins[k].text == " AND " + Predicate(t, cs[k]) || ins[k].text == " WHERE " + Predicate(t, cs[k]) + " ")
  {
    InsertionsPlaced(t);
    var cs := Clauses(t);
    var ins := Insertions(t, cs);
    forall k | 0 <= k < |cs|
      ensures cs[k].end <= ins[k].at <= (if k + 1 < |cs| then cs[k + 1].start else |t|)
    {
      assert PlacedAt(t, cs, ins, k);
    }
  }

  /** The fragments are all the rewriting adds: without them the query is as it was. */
  lemma FragmentsComeOutAgain(t: string)
    ensures InText(t, Clauses(t))
    ensures Unsplice(Scoped(t), 0, Insertions(t, Clauses(t))) == t
  {
    InsertionsPlaced(t);
    var ins := Insertions(t, Clauses(t));
    PlacedIsOrdered(t, Clauses(t), ins, 0, 0);
    assert ins[0..] == ins;
    UnspliceUndoesSplice(t, 0, ins);
  }
}
