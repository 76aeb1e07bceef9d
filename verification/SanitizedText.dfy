/** What `sanitize_limit` leaves of a query: all of it but the LIMIT clauses it caps, or all of it
    and the clause it appends. */
module SanitizedText {
  import opened Ascii
  import opened ClauseWords
  import opened CypherLimit
  import opened CypherText
  import opened LimitClauses
  import opened Wrappers
  import Text

  // ---------------------------------------------------------------- LIMIT, spelled out

  predicate Mentions(t: string, w: string) {
    exists i :: 0 <= i <= |t| && Spells(t, i, w)
  }

  lemma ContainsMeans(t: string, w: string)
    ensures Contains(t, w) <==> Mentions(t, w)
  {
    forall i: nat | i <= |t| ensures KeywordEnd(t, i, w).Some? <==> Spells(t, i, w) { SpellsIsKeyword(t, i, w); }
    if Contains(t, w) {
      var i :| 0 <= i <= |t| && KeywordEnd(t, i, w).Some?;
      assert Spells(t, i, w);
    }
    if i :| 0 <= i <= |t| && Spells(t, i, w) {
      assert KeywordEnd(t, i, w).Some?;
    }
  }

  predicate DigitsBetween(t: string, i: int, j: int) {
    0 <= i <= j <= |t| && forall k | i <= k < j :: IsDigit(t[k])
  }

  /** LIMIT, at least one blank, and all the digits there are, at least one. */
  predicate LimitSpelled(t: string, hit: Hit) {
    && Spells(t, hit.start, "LIMIT")
    && hit.start + 5 < hit.digits < hit.end && BlankBetween(t, hit.start + 5, hit.digits)
    && DigitsBetween(t, hit.digits, hit.end) && (hit.end < |t| ==> !IsDigit(t[hit.end]))
  }

  lemma DigitsAreRead(t: string, i: nat, j: nat)
    requires DigitsBetween(t, i, j) && (j < |t| ==> !IsDigit(t[j]))
    ensures DigitsEnd(t, i) == j
  {
  }

  lemma LimitIsSpelled(t: string, hit: Hit)
    requires hit.start <= |t| && LimitAt(t, hit.start) == Some(hit)
    ensures LimitSpelled(t, hit)
  {
    SpellsIsKeyword(t, hit.start, "LIMIT");
    assert BlankBetween(t, hit.start + 5, hit.digits) && DigitsBetween(t, hit.digits, hit.end);
  }

  lemma SpelledIsLimit(t: string, hit: Hit)
    requires hit.start <= |t| && LimitSpelled(t, hit)
    ensures LimitAt(t, hit.start) == Some(hit)
  {
    SpellsIsKeyword(t, hit.start, "LIMIT");
    assert IsDigit(t[hit.digits]);
    BlanksAreSkipped(t, hit.start + 5, hit.digits);
    DigitsAreRead(t, hit.digits, hit.end);
  }

  /** The LIMIT pattern matches exactly these clauses. */
  lemma LimitMeans(t: string, hit: Hit)
    requires hit.start <= |t|
    ensures LimitAt(t, hit.start) == Some(hit) <==> LimitSpelled(t, hit)
  {
    if LimitAt(t, hit.start) == Some(hit) { LimitIsSpelled(t, hit); }
    if LimitSpelled(t, hit) { SpelledIsLimit(t, hit); }
  }

  // ---------------------------------------------------------------- a query without the word

  predicate AllBlank(s: string) {
    BlankBetween(s, 0, |s|)
  }

  predicate EndsInk(s: string) {
    s != "" ==> !IsSpace(s[|s| - 1])
  }

  lemma {:induction false} TrimmedIs(t: string) returns (s: string, blanks: string)
    ensures s == TrimRight(t) && t == s + blanks && AllBlank(blanks) && EndsInk(s)
    decreases |t|
  {
    if t != "" && IsSpace(t[|t| - 1]) {
      var init, last := t[..|t| - 1], t[|t| - 1];
      s, blanks := TrimmedIs(init);
      assert t == s + (blanks + [last]);
      blanks := blanks + [last];
    } else {
      s, blanks := t, "";
    }
  }

  /** Decimal notation, without leading zeros. */
  predicate ReadsAs(n: string, v: int) {
    if v < 0 then n != "" && n[0] == '-' && Plain(n[1..], -v) else Plain(n, v)
  }

  predicate Plain(n: string, v: int) {
    IsNumeral(n) && n != "" && Parse(n) == v && (n[0] == '0' ==> |n| == 1)
  }

  lemma {:induction false} NumeralIsPlain(v: nat)
    ensures Plain(Numeral(v), v)
    ensures v > 0 ==> Numeral(v)[0] != '0'
    decreases v
  {
    if v >= 10 { NumeralIsPlain(v / 10); }
  }

  lemma DecimalReads(v: int)
    ensures ReadsAs(Decimal(v), v)
  {
    if v < 0 {
      NumeralIsPlain(-v);
      assert Decimal(v)[1..] == Numeral(-v);
    } else {
      NumeralIsPlain(v);
    }
  }

  /** Without the word LIMIT the query is kept up to its last blanks, and a LIMIT is put behind it:
      the default, but a thousand at most. */
  lemma LimitIsAppended(t: string, defaultLimit: int) returns (s: string, blanks: string, n: string)
    requires !Mentions(t, "LIMIT")
    ensures t == s + blanks && AllBlank(blanks) && EndsInk(s)
    ensures SanitizeLimit(t, defaultLimit) == s + " LIMIT " + n
    ensures ReadsAs(n, if defaultLimit < 1000 then defaultLimit else 1000)
  {
    ContainsMeans(t, "LIMIT");
    s, blanks := TrimmedIs(t);
    var v := if defaultLimit < 1000 then defaultLimit else 1000;
    n := Decimal(v);
    DecimalReads(v);
  }

  // ---------------------------------------------------------------- a query with a clause above the maximum

  /** As many capped clauses. */
  function Capped(n: nat): (r: seq<string>)
    ensures |r| == n && forall i | 0 <= i < n :: r[i] == "LIMIT 1000"
  {
    if n == 0 then [] else ["LIMIT 1000"] + Capped(n - 1)
  }

  /** The text is a LIMIT clause and nothing else. */
  predicate IsLimitClause(s: string) {
    exists digits: nat :: digits < |s| && LimitSpelled(s, Hit(0, digits, |s|))
  }

  lemma CutClause(t: string, hit: Hit)
    requires LimitSpelled(t, hit)
    ensures IsLimitClause(t[hit.start..hit.end])
  {
    var s, digits := t[hit.start..hit.end], hit.digits - hit.start;
    assert forall k | 0 <= k < |s| :: s[k] == t[hit.start + k];
    assert Spells(s, 0, "LIMIT");
    assert LimitSpelled(s, Hit(0, digits, |s|));
  }

  lemma WeaveCharacter(c: char, kept: seq<string>, clauses: seq<string>)
    requires |kept| == |clauses| + 1
    ensures Text.Weave([[c] + kept[0]] + kept[1..], clauses) == [c] + Text.Weave(kept, clauses)
  {
    if clauses != [] {
      Regroup([c], kept[0], clauses[0]);
      Regroup([c], kept[0] + clauses[0], Text.Weave(kept[1..], clauses[1..]));
    }
  }

  lemma WeaveClause(clause: string, kept: seq<string>, clauses: seq<string>)
    requires |kept| == |clauses| + 1
    ensures Text.Weave([""] + kept, [clause] + clauses) == clause + Text.Weave(kept, clauses)
  {
    assert ([""] + kept)[1..] == kept && ([clause] + clauses)[1..] == clauses;
    assert "" + clause == clause;
  }

  lemma Regroup(a: string, b: string, c: string)
    ensures a + b + c == a + (b + c)
  {
  }

  predicate AreLimitClauses(clauses: seq<string>) {
    forall k | 0 <= k < |clauses| :: IsLimitClause(clauses[k])
  }

  lemma CopiedCharacter(t: string, i: nat)
    requires i < |t| && LimitAt(t, i).None?
    ensures CapHits(t, LimitHits(t), i) == [t[i]] + CapHits(t, LimitHits(t), i + 1)
    ensures t[i..] == [t[i]] + t[i + 1..]
  {
    assert LimitHits(t)[i] == LimitAt(t, i);
  }

  lemma CapStep(t: string, hits: seq<Option<Hit>>, i: nat, hit: Hit)
    requires |hits| == |t| + 1 && i < |t| && hits[i] == Some(hit) && i < hit.end
    ensures CapHits(t, hits, i) == "LIMIT 1000" + CapHits(t, hits, hit.end)
  {
  }

  lemma CappedClause(t: string, i: nat, hit: Hit)
    requires i < |t| && LimitAt(t, i) == Some(hit)
    ensures CapHits(t, LimitHits(t), i) == "LIMIT 1000" + CapHits(t, LimitHits(t), hit.end)
  {
    var hits := LimitHits(t);
    assert hits[i] == LimitAt(t, i);
    CapStep(t, hits, i, hit);
  }

  lemma ClauseCutOut(t: string, i: nat, hit: Hit) returns (clause: string)
    requires i < |t| && LimitAt(t, i) == Some(hit)
    ensures clause == t[i..hit.end] && IsLimitClause(clause) && t[i..] == clause + t[hit.end..]
  {
    LimitIsSpelled(t, hit);
    CutClause(t, hit);
    clause := t[i..hit.end];
  }

  lemma MoreClauses(clause: string, clauses: seq<string>)
    requires IsLimitClause(clause) && AreLimitClauses(clauses)
    ensures AreLimitClauses([clause] + clauses)
  {
  }

  lemma {:induction false} PiecesFrom(t: string, i: nat) returns (kept: seq<string>, clauses: seq<string>)
    requires i <= |t|
    ensures |kept| == |clauses| + 1 && t[i..] == Text.Weave(kept, clauses) && AreLimitClauses(clauses)
    ensures CapHits(t, LimitHits(t), i) == Text.Weave(kept, Capped(|clauses|))
    decreases |t| - i
  {
    if i == |t| {
      return [""], [];
    }
    if LimitAt(t, i).None? {
      var rest;
      rest, clauses := PiecesFrom(t, i + 1);
      kept := [[t[i]] + rest[0]] + rest[1..];
      CopiedCharacter(t, i);
      WeaveCharacter(t[i], rest, clauses);
      WeaveCharacter(t[i], rest, Capped(|clauses|));
    } else {
      var hit := LimitAt(t, i).value;
      var clause := ClauseCutOut(t, i, hit);
      var rest, more := PiecesFrom(t, hit.end);
      kept, clauses := [""] + rest, [clause] + more;
      CappedClause(t, i, hit);
      MoreClauses(clause, more);
      WeaveClause(clause, rest, more);
      WeaveClause("LIMIT 1000", rest, Capped(|more|));
    }
  }

  /** If the first clause exceeds the maximum, every clause the pattern finds is capped, what is
      between them is kept, and no clause of the result says anything but a thousand. */
  lemma ClausesAreCapped(t: string, defaultLimit: int) returns (kept: seq<string>, clauses: seq<string>)
    requires LimitValue(t).Some? && LimitValue(t).value > 1000
    ensures |kept| == |clauses| + 1 && t == Text.Weave(kept, clauses) && AreLimitClauses(clauses)
    ensures SanitizeLimit(t, defaultLimit) == Text.Weave(kept, Capped(|clauses|))
    ensures forall p | 0 <= p <= |SanitizeLimit(t, defaultLimit)| ::
              ValueAt(SanitizeLimit(t, defaultLimit), p) in {None, Some(1000)}
  {
    ValueMentions(t);
    kept, clauses := PiecesFrom(t, 0);
    assert t[0..] == t;
    OnlyCappedFrom(t, 0);
    forall p | 0 <= p <= |CapAll(t)| ensures ValueAt(CapAll(t), p) in {None, Some(1000)} {
      assert CappedAt(CapAll(t), p);
    }
  }

  lemma ValueMentions(t: string)
    requires LimitValue(t).Some?
    ensures Contains(t, "LIMIT")
  {
    var hit := FirstLimit(t).value;
    assert LimitAt(t, hit.start) == Some(hit);
    LimitIsSpelled(t, hit);
    ContainsMeans(t, "LIMIT");
    assert Spells(t, hit.start, "LIMIT");
  }

  /** Any other query is left as it is. */
  lemma OtherwiseUnchanged(t: string, defaultLimit: int)
    requires Mentions(t, "LIMIT") && (LimitValue(t).Some? ==> LimitValue(t).value <= 1000)
    ensures SanitizeLimit(t, defaultLimit) == t
  {
    ContainsMeans(t, "LIMIT");
  }

  /** A clause of the query before which there is none. */
  ghost predicate FirstSpelled(t: string, hit: Hit) {
    LimitSpelled(t, hit) && forall other: Hit | other.start < hit.start :: !LimitSpelled(t, other)
  }

  /** The clause whose number decides is the first in the query. */
  lemma FirstLimitMeans(t: string, hit: Hit)
    requires hit.start <= |t|
    ensures FirstLimit(t) == Some(hit) <==> FirstSpelled(t, hit)
    ensures FirstLimit(t) == Some(hit) ==> LimitValue(t) == Some(Parse(t[hit.digits..hit.end]))
  {
    if FirstLimit(t) == Some(hit) {
      LimitIsSpelled(t, hit);
      forall other: Hit | other.start < hit.start ensures !LimitSpelled(t, other) {
        BeforeTheFirst(t, other.start);
        if LimitSpelled(t, other) { SpelledIsLimit(t, other); }
      }
    }
    if FirstSpelled(t, hit) {
      SpelledIsLimit(t, hit);
      forall i | 0 <= i < hit.start ensures LimitAt(t, i).None? {
        if LimitAt(t, i).Some? { LimitIsSpelled(t, LimitAt(t, i).value); }
      }
      FirstIsAt(t, hit.start);
    }
  }
}
