/** What `sanitize_limit` does to the LIMIT clauses of a query: when there is one afterwards,
    and when every one is within the maximum. */
module LimitClauses {
  import opened Ascii
  import opened CypherLimit
  import opened CypherText
  import opened Wrappers

  /** The number of the clause at a place. */
  function ValueAt(t: string, i: nat): Option<nat>
    requires i <= |t|
  {
    var hit := LimitAt(t, i);
    if hit.None? then None else Some(Parse(t[hit.value.digits..hit.value.end]))
  }

  predicate AllowedAt(t: string, i: nat)
    requires i <= |t|
  {
    ValueAt(t, i).Some? ==> ValueAt(t, i).value <= MAX_RETURN_LIMIT
  }

  predicate EveryLimitAllowed(t: string) {
    forall i | 0 <= i <= |t| :: AllowedAt(t, i)
  }

  // ---------------------------------------------------------------- moving a clause

  lemma {:induction false} SpacesMoved(u: string, v: string, n: nat, i: nat)
    requires n + i <= |u| && v == u[n..]
    ensures SkipSpaces(u, n + i) == n + SkipSpaces(v, i)
    decreases |u| - i
  {
    if n + i < |u| && IsSpace(u[n + i]) { SpacesMoved(u, v, n, i + 1); }
  }

  lemma {:induction false} DigitsMoved(u: string, v: string, n: nat, i: nat)
    requires n + i <= |u| && v == u[n..]
    ensures DigitsEnd(u, n + i) == n + DigitsEnd(v, i)
    decreases |u| - i
  {
    if n + i < |u| && IsDigit(u[n + i]) { DigitsMoved(u, v, n, i + 1); }
  }

  lemma KeywordMoved(u: string, v: string, n: nat, i: nat, kw: string)
    requires n + i <= |u| && v == u[n..]
    ensures KeywordEnd(u, n + i, kw).Some? <==> KeywordEnd(v, i, kw).Some?
  {
    if KeywordEnd(u, n + i, kw).Some? {
      forall k | 0 <= k < |kw| ensures ToUpper(v[i + k]) == kw[k] { assert ToUpper(u[n + i + k]) == kw[k]; }
    }
    if KeywordEnd(v, i, kw).Some? {
      forall k | 0 <= k < |kw| ensures ToUpper(u[n + i + k]) == kw[k] { assert ToUpper(v[i + k]) == kw[k]; }
    }
  }

  function Moved(hit: Hit, n: nat): Hit {
    Hit(n + hit.start, n + hit.digits, n + hit.end)
  }

  /** The clause made up of a keyword at `i`, and digits from one place to another. */
  function ClauseOf(i: nat, digits: nat, end: nat): Option<Hit> {
    if digits == i + 5 || end == digits then None else Some(Hit(i, digits, end))
  }

  lemma ClauseOfMoved(i: nat, digits: nat, end: nat, n: nat)
    ensures var hit := ClauseOf(i, digits, end);
            ClauseOf(n + i, n + digits, n + end) == if hit.Some? then Some(Moved(hit.value, n)) else None
  {
  }

  lemma LimitParts(t: string, i: nat, digits: nat, end: nat)
    requires KeywordEnd(t, i, "LIMIT").Some?
    requires digits == SkipSpaces(t, i + 5) && end == DigitsEnd(t, digits)
    ensures LimitAt(t, i) == ClauseOf(i, digits, end)
  {
  }

  lemma PartsMoved(u: string, v: string, n: nat, i: nat, digits: nat, end: nat)
    requires n + i <= |u| && v == u[n..] && i + 5 <= |v|
    requires digits == SkipSpaces(v, i + 5) && end == DigitsEnd(v, digits)
    ensures SkipSpaces(u, n + i + 5) == n + digits && DigitsEnd(u, n + digits) == n + end
  {
    SpacesMoved(u, v, n, i + 5);
    DigitsMoved(u, v, n, digits);
  }

  lemma ClauseMoved(u: string, v: string, n: nat, i: nat)
    requires n + i <= |u| && v == u[n..]
    requires KeywordEnd(v, i, "LIMIT").Some? && KeywordEnd(u, n + i, "LIMIT").Some?
    ensures LimitAt(u, n + i) == if LimitAt(v, i).Some? then Some(Moved(LimitAt(v, i).value, n)) else None
  {
    var digits := SkipSpaces(v, i + 5);
    var end := DigitsEnd(v, digits);
    PartsMoved(u, v, n, i, digits, end);
    LimitParts(v, i, digits, end);
    LimitParts(u, n + i, n + digits, n + end);
    ClauseOfMoved(i, digits, end, n);
  }

  /** What matches at a place depends only on the text from there on. */
  lemma LimitMoved(u: string, v: string, n: nat, i: nat)
    requires n + i <= |u| && v == u[n..]
    ensures LimitAt(u, n + i) == if LimitAt(v, i).Some? then Some(Moved(LimitAt(v, i).value, n)) else None
  {
    KeywordMoved(u, v, n, i, "LIMIT");
    if KeywordEnd(v, i, "LIMIT").Some? { ClauseMoved(u, v, n, i); }
  }

  lemma ValueMoved(u: string, v: string, n: nat, i: nat)
    requires n + i <= |u| && v == u[n..]
    ensures ValueAt(u, n + i) == ValueAt(v, i)
  {
    LimitMoved(u, v, n, i);
    if LimitAt(v, i).Some? {
      var hit := LimitAt(v, i).value;
      assert u[n + hit.digits..n + hit.end] == v[hit.digits..hit.end];
    }
  }

  // ---------------------------------------------------------------- the capped text

  lemma {:induction false} NothingCapped(t: string, hits: seq<Option<Hit>>, i: nat)
    requires |hits| == |t| + 1 && i <= |t| && forall k | i <= k < |hits| :: hits[k].None?
    ensures CapHits(t, hits, i) == t[i..]
    decreases |t| - i
  {
    if i < |t| { NothingCapped(t, hits, i + 1); }
  }

  /** A copied character does not begin a clause in the capped text. */
  lemma CopiedIsNoClause(t: string, i: nat)
    requires i < |t| && LimitAt(t, i).None?
    ensures LimitAt(CapHits(t, LimitHits(t), i), 0).None?
  {
    var hits := LimitHits(t);
    var u := CapHits(t, hits, i);
    LimitMoved(t, t[i..], i, 0);
    var first := FirstHit(hits, i);
    if first.None? {
      forall k | i <= k < |hits| ensures hits[k].None? { NoneBeforeTheFirst(hits, i, k); }
      NothingCapped(t, hits, i);
    } else {
      var q := first.value.start;
      CapKeepsPrefix(t, hits, i);
      BeforeAClause(t[i..], t[i..q], CapHits(t, hits, q));
    }
  }

  lemma BeforeAClause(s: string, copied: string, capped: string)
    requires copied != "" && copied <= s && capped != "" && capped[0] == 'L' && LimitAt(s, 0).None?
    ensures LimitAt(copied + capped, 0).None?
  {
    var u := copied + capped;
    assert u[..|copied|] == copied == s[..|copied|] && u[|copied|] == 'L';
    if LimitAt(u, 0).Some? { NoHitAcross(s, u, |copied|, 0); }
  }

  lemma NoDigitFirst(t: string, j: nat)
    requires j <= |t| && (j < |t| ==> !IsDigit(t[j]))
    ensures var r := CapHits(t, LimitHits(t), j); r != "" ==> !IsDigit(r[0])
  {
  }

  predicate CappedAt(u: string, p: nat)
    requires p <= |u|
  {
    ValueAt(u, p).Some? ==> ValueAt(u, p) == Some(1000)
  }

  predicate OnlyCapped(u: string) {
    forall p | 0 <= p <= |u| :: CappedAt(u, p)
  }

  lemma NoClauseIsCapped(u: string, p: nat)
    requires p <= |u| && LimitAt(u, p).None?
    ensures CappedAt(u, p)
  {
  }

  lemma CappedMoved(u: string, rest: string, n: nat, q: nat, p: nat)
    requires p == n + q <= |u| && rest == u[n..] && CappedAt(rest, q)
    ensures CappedAt(u, p)
  {
    ValueMoved(u, rest, n, q);
  }

  lemma CappedByParts(u: string, rest: string, n: nat)
    requires n <= |u| && rest == u[n..] && OnlyCapped(rest)
    requires forall p | 0 <= p < n :: CappedAt(u, p)
    ensures OnlyCapped(u)
  {
    forall p | 0 <= p <= |u| ensures CappedAt(u, p) {
      if n <= p {
        assert CappedAt(rest, p - n);
        CappedMoved(u, rest, n, p - n, p);
      }
    }
  }

  lemma CopyOne(c: char, rest: string)
    requires OnlyCapped(rest) && LimitAt([c] + rest, 0).None?
    ensures OnlyCapped([c] + rest)
  {
    NoClauseIsCapped([c] + rest, 0);
    CappedByParts([c] + rest, rest, 1);
  }

  /** Inside the written clause, only its start is one. */
  lemma WrittenIsOneClause(u: string, rest: string, p: nat)
    requires u == "LIMIT 1000" + rest && (rest != "" ==> !IsDigit(rest[0])) && p < 10
    ensures CappedAt(u, p)
  {
    if p == 0 {
      assert u[0..] == u;
      WrittenLimit(u, 0, rest);
    } else {
      assert u[p] == "LIMIT 1000"[p];
      if LimitAt(u, p).Some? { KeywordLetter(u, p, "LIMIT", p); }
    }
  }

  lemma WriteOne(rest: string)
    requires OnlyCapped(rest) && (rest != "" ==> !IsDigit(rest[0]))
    ensures OnlyCapped("LIMIT 1000" + rest)
  {
    var u := "LIMIT 1000" + rest;
    forall p | 0 <= p < 10 ensures CappedAt(u, p) { WrittenIsOneClause(u, rest, p); }
    CappedByParts(u, rest, 10);
  }

  /** Every clause of the capped text is the written one. */
  lemma {:induction false} OnlyCappedFrom(t: string, i: nat)
    requires i <= |t|
    ensures OnlyCapped(CapHits(t, LimitHits(t), i))
    decreases |t| - i
  {
    var hits := LimitHits(t);
    if i < |t| {
      assert hits[i] == LimitAt(t, i);
      if hits[i].None? {
        OnlyCappedFrom(t, i + 1);
        CopiedIsNoClause(t, i);
        CopyOne(t[i], CapHits(t, hits, i + 1));
      } else {
        OnlyCappedFrom(t, hits[i].value.end);
        NoDigitFirst(t, hits[i].value.end);
        WriteOne(CapHits(t, hits, hits[i].value.end));
      }
    }
  }

  lemma CappedIsWithinLimits(t: string)
    ensures EveryLimitAllowed(CapAll(t))
  {
    var u := CapAll(t);
    OnlyCappedFrom(t, 0);
    forall p | 0 <= p <= |u| ensures AllowedAt(u, p) { assert CappedAt(u, p); }
  }

  lemma AppendedIsWithinLimits(t: string, r: string, n: int)
    requires !Contains(t, "LIMIT") && r <= t && n <= MAX_RETURN_LIMIT
    ensures EveryLimitAllowed(r + " LIMIT " + Decimal(n))
  {
    var u, p := Appended(t, r, n);
    assert u[p + 6..|u|] == u[p + 6..];
    forall i | 0 <= i <= |u| ensures AllowedAt(u, i) {
      if i != p { assert LimitAt(u, i).None?; }
    }
  }

  // ---------------------------------------------------------------- theorems

  /** Every LIMIT of a sanitised query is within the maximum exactly when the query did not
      contain the word, or its first clause exceeded the maximum, or no clause did: only the
      first is looked at. */
  lemma EveryLimitCappedExactly(t: string, defaultLimit: int)
    ensures EveryLimitAllowed(SanitizeLimit(t, defaultLimit))
       <==> || !Contains(t, "LIMIT")
            || (LimitValue(t).Some? && LimitValue(t).value > MAX_RETURN_LIMIT)
            || EveryLimitAllowed(t)
  {
    if !Contains(t, "LIMIT") {
      AppendedIsWithinLimits(t, TrimRight(t),
                             if defaultLimit < MAX_RETURN_LIMIT then defaultLimit else MAX_RETURN_LIMIT);
    } else if LimitValue(t).Some? && LimitValue(t).value > MAX_RETURN_LIMIT {
      CappedIsWithinLimits(t);
    }
  }

  /** A sanitised query has a LIMIT clause exactly when it had one, or did not contain the word
      and the default is not negative. */
  lemma HasLimitExactly(t: string, defaultLimit: int)
    ensures FirstLimit(SanitizeLimit(t, defaultLimit)).Some?
       <==> FirstLimit(t).Some? || (!Contains(t, "LIMIT") && 0 <= defaultLimit)
  {
    if !Contains(t, "LIMIT") {
      NoClauseWithoutKeyword(t);
      DefaultIsAllowed(t, TrimRight(t), if defaultLimit < MAX_RETURN_LIMIT then defaultLimit else MAX_RETURN_LIMIT);
    } else if FirstLimit(t).Some? {
      CappedIsAllowed(t);
    }
  }

  lemma NoClauseWithoutKeyword(t: string)
    requires !Contains(t, "LIMIT")
    ensures FirstLimit(t).None?
  {
    var first := FirstLimit(t);
    assert first.Some? ==> LimitAt(t, first.value.start) == first;
  }

  /** A query that names a property `limit` is left without a LIMIT. */
  lemma PropertyNamedLimit(t: string, defaultLimit: int)
    requires t == "n.limit"
    ensures SanitizeLimit(t, defaultLimit) == t && FirstLimit(t).None?
  {
    assert KeywordEnd(t, 2, "LIMIT") == Some(7);
    var first := FirstLimit(t);
    if first.Some? { KeywordLetter(t, first.value.start, "LIMIT", first.value.start); }
  }

  /** Of two clauses, the second keeps its number. */
  lemma SecondLimitIsNotCapped(t: string, defaultLimit: int)
    requires t == "LIMIT 5 LIMIT 5000"
    ensures SanitizeLimit(t, defaultLimit) == t && ValueAt(t, 8) == Some(5000)
  {
    SmallFirst(t);
    LargeSecond(t);
    assert LimitHits(t)[0] == LimitAt(t, 0);
    assert LimitValue(t) == Some(5);
  }

  lemma SmallFirst(t: string)
    requires t == "LIMIT 5 LIMIT 5000"
    ensures ValueAt(t, 0) == Some(5) && LimitAt(t, 0).Some?
  {
    assert t[..5] == "LIMIT";
    KeywordHere(t, 0);
    assert t[5] == ' ' && t[6] == '5' && t[7] == ' ';
    assert SkipSpaces(t, 5) == SkipSpaces(t, 6) == 6;
    assert DigitsEnd(t, 6) == DigitsEnd(t, 7) == 7;
    assert t[6..7] == "5" && "5"[..0] == "";
    assert Parse("5") == 5;
  }

  lemma LargeSecond(t: string)
    requires t == "LIMIT 5 LIMIT 5000"
    ensures ValueAt(t, 8) == Some(5000)
  {
    assert t[8..13] == "LIMIT";
    KeywordHere(t, 8);
    assert t[13] == ' ' && t[14] == '5' && t[15] == '0' && t[16] == '0' && t[17] == '0';
    assert SkipSpaces(t, 13) == SkipSpaces(t, 14) == 14;
    DigitsToTheEnd(t, 14);
    assert t[14..18] == "5000";
    assert "5000"[..3] == "500" && "500"[..2] == "50" && "50"[..1] == "5" && "5"[..0] == "";
    assert Parse("5") == 5 && Parse("50") == 50 && Parse("500") == 500;
  }
}
