/** The LIMIT clause: what `sanitize_limit` writes is what `validate` lets through. */
module CypherLimit {
  import opened Ascii
  import opened CypherText
  import opened Wrappers

  const MAX_RETURN_LIMIT: int := 1000

  // ---------------------------------------------------------------- decimal numerals

  function DigitChar(d: nat): (c: char)
    requires d < 10
    ensures IsDigit(c) && DigitValue(c) == d
  {
    (d + '0' as int) as char
  }

  function DigitValue(c: char): nat
    requires IsDigit(c)
  {
    c as int - '0' as int
  }

  predicate IsNumeral(s: string) {
    forall k | 0 <= k < |s| :: IsDigit(s[k])
  }

  /** Python's `int` of a run of digits. */
  function Parse(s: string): nat
    requires IsNumeral(s)
    decreases |s|
  {
    if s == "" then 0 else 10 * Parse(s[..|s| - 1]) + DigitValue(s[|s| - 1])
  }

  /** Python's `str` of a number that is not negative. */
  function Numeral(n: nat): (s: string)
    ensures IsNumeral(s) && s != "" && Parse(s) == n
    decreases n
  {
    if n < 10 then
      var s := [DigitChar(n)];
      assert s[..0] == "";
      s
    else
      var s := Numeral(n / 10) + [DigitChar(n % 10)];
      assert s[..|s| - 1] == Numeral(n / 10);
      s
  }

  function Decimal(n: int): string {
    if n < 0 then "-" + Numeral(-n) else Numeral(n)
  }

  // ---------------------------------------------------------------- `LIMIT\s+(\d+)`

  function DigitsEnd(t: string, i: nat): (j: nat)
    requires i <= |t|
    ensures i <= j <= |t|
    ensures forall k | i <= k < j :: IsDigit(t[k])
    ensures j < |t| ==> !IsDigit(t[j])
    decreases |t| - i
  {
    if i < |t| && IsDigit(t[i]) then DigitsEnd(t, i + 1) else i
  }

  datatype Hit = Hit(start: nat, digits: nat, end: nat)

  function LimitAt(t: string, i: nat): (r: Option<Hit>)
    requires i <= |t|
    ensures r.Some? ==> i == r.value.start < r.value.digits < r.value.end <= |t|
    ensures r.Some? ==> IsNumeral(t[r.value.digits..r.value.end])
    ensures r.Some? ==> r.value.end < |t| ==> !IsDigit(t[r.value.end])
  {
    var keyword := KeywordEnd(t, i, "LIMIT");
    if keyword.None? then None else
      var digits := SkipSpaces(t, keyword.value);
      if digits == keyword.value then None else
        var end := DigitsEnd(t, digits);
        if end == digits then None else Some(Hit(i, digits, end))
  }

  /** What matches at each position. */
  function LimitHits(t: string): (hits: seq<Option<Hit>>)
    ensures |hits| == |t| + 1
    ensures forall i | 0 <= i < |hits| :: hits[i] == LimitAt(t, i)
  {
    seq(|t| + 1, i requires 0 <= i <= |t| => LimitAt(t, i))
  }

  function FirstHit(hits: seq<Option<Hit>>, i: nat): (r: Option<Hit>)
    requires forall k | 0 <= k < |hits| && hits[k].Some? :: hits[k].value.start == k
    ensures r.Some? ==> i <= r.value.start < |hits| && hits[r.value.start] == r
    decreases |hits| - i
  {
    if |hits| <= i then None else if hits[i].Some? then hits[i] else FirstHit(hits, i + 1)
  }

  lemma {:induction false} NoneBeforeTheFirst(hits: seq<Option<Hit>>, i: nat, k: nat)
    requires forall k | 0 <= k < |hits| && hits[k].Some? :: hits[k].value.start == k
    requires i <= k < |hits|
    requires FirstHit(hits, i).Some? ==> k < FirstHit(hits, i).value.start
    ensures hits[k].None?
    decreases k - i
  {
    if i < k { NoneBeforeTheFirst(hits, i + 1, k); }
  }

  function FirstLimit(t: string): Option<Hit> {
    FirstHit(LimitHits(t), 0)
  }

  function LimitValue(t: string): (v: Option<nat>) {
    var hit := FirstLimit(t);
    if hit.None? then None else Some(Parse(t[hit.value.digits..hit.value.end]))
  }

  /** `validate`'s check of the LIMIT clause. */
  predicate LimitAllowed(t: string) {
    Contains(t, "LIMIT") ==> LimitValue(t).None? || LimitValue(t).value <= MAX_RETURN_LIMIT
  }

  // ---------------------------------------------------------------- `sanitize_limit`

  /** `re.sub` of every match by the capped clause. */
  function CapHits(t: string, hits: seq<Option<Hit>>, i: nat): string
    requires |hits| == |t| + 1
    decreases |t| - i
  {
    if |t| <= i then ""
    else if hits[i].None? || hits[i].value.end <= i then [t[i]] + CapHits(t, hits, i + 1)
    else "LIMIT 1000" + CapHits(t, hits, hits[i].value.end)
  }

  function CapAll(t: string): string {
    CapHits(t, LimitHits(t), 0)
  }

  function TrimRight(t: string): (r: string)
    ensures |r| <= |t| && r == t[..|r|]
    decreases |t|
  {
    if t != "" && IsSpace(t[|t| - 1]) then TrimRight(t[..|t| - 1]) else t
  }

  function SanitizeLimit(t: string, defaultLimit: int): string {
    if Contains(t, "LIMIT") then
      var value := LimitValue(t);
      if value.Some? && value.value > MAX_RETURN_LIMIT then CapAll(t) else t
    else
      TrimRight(t) + " LIMIT " + Decimal(if defaultLimit < MAX_RETURN_LIMIT then defaultLimit else MAX_RETURN_LIMIT)
  }

  // ---------------------------------------------------------------- agreement

  lemma KeywordLetter(u: string, i: nat, kw: string, p: nat)
    requires KeywordEnd(u, i, kw).Some? && i <= p < i + |kw|
    ensures ToUpper(u[p]) == kw[p - i]
  {
  }

  lemma KeywordHere(u: string, p: nat)
    requires p + 5 <= |u| && u[p..p + 5] == "LIMIT"
    ensures KeywordEnd(u, p, "LIMIT") == Some(p + 5)
  {
  }

  lemma KeywordSame(t: string, u: string, n: nat, i: nat)
    requires n <= |t| && n <= |u| && t[..n] == u[..n] && i + 5 <= n
    requires KeywordEnd(u, i, "LIMIT").Some?
    ensures KeywordEnd(t, i, "LIMIT").Some?
  {
  }

  lemma HitSame(t: string, u: string, i: nat)
    requires i <= |u| && LimitAt(u, i).Some?
    requires var d := LimitAt(u, i).value.digits; d < |t| && t[..d + 1] == u[..d + 1]
    ensures LimitAt(t, i).Some?
  {
  }

  /** No clause to the left of a written `LIMIT` reaches across it: the letter L is neither
      inside the keyword nor a blank. */
  lemma NoHitAcross(t: string, u: string, p: nat, i: nat)
    requires i < p < |u| && p <= |t| && t[..p] == u[..p] && u[p] == 'L'
    requires LimitAt(u, i).Some?
    ensures LimitAt(t, i).Some?
  {
    var hit := LimitAt(u, i).value;
    if hit.digits < p {
      assert t[..hit.digits + 1] == t[..p][..hit.digits + 1];
      assert u[..hit.digits + 1] == u[..p][..hit.digits + 1];
      HitSame(t, u, i);
    } else {
      if p < i + 5 { KeywordLetter(u, i, "LIMIT", p); }
      assert false;
    }
  }

  lemma {:induction false} CapKeepsPrefix(t: string, hits: seq<Option<Hit>>, i: nat)
    requires |hits| == |t| + 1
    requires forall k | 0 <= k < |hits| && hits[k].Some? :: hits[k].value.start == k < hits[k].value.end <= |t|
    requires FirstHit(hits, i).Some?
    ensures var p := FirstHit(hits, i).value.start;
            CapHits(t, hits, i) == t[i..p] + CapHits(t, hits, p)
    decreases |t| - i
  {
    var p := FirstHit(hits, i).value.start;
    if i < p {
      CapKeepsPrefix(t, hits, i + 1);
      assert t[i..p] == [t[i]] + t[i + 1..p];
    }
  }

  lemma WrittenLimit(u: string, p: nat, rest: string)
    requires p <= |u| && u[p..] == "LIMIT 1000" + rest
    requires rest != "" ==> !IsDigit(rest[0])
    ensures LimitAt(u, p).Some? && Parse(u[LimitAt(u, p).value.digits..LimitAt(u, p).value.end]) == 1000
  {
    var w := "LIMIT 1000" + rest;
    forall k | 0 <= k < |w| ensures u[p + k] == w[k] { assert u[p..][k] == w[k]; }
    assert u[p..p + 5] == "LIMIT";
    KeywordHere(u, p);
    assert u[p + 5] == ' ' && u[p + 6] == '1';
    assert SkipSpaces(u, p + 5) == p + 6;
    assert u[p + 7] == '0' && u[p + 8] == '0' && u[p + 9] == '0';
    assert p + 10 < |u| ==> u[p + 10] == rest[0];
    assert DigitsEnd(u, p + 6) == DigitsEnd(u, p + 7) == DigitsEnd(u, p + 8) == DigitsEnd(u, p + 9)
        == DigitsEnd(u, p + 10) == p + 10;
    assert u[p + 6..p + 10] == "1000";
    assert Parse("1000") == 1000 by {
      assert "1000"[..3] == "100" && "100"[..2] == "10" && "10"[..1] == "1" && "1"[..0] == "";
      assert Parse("1") == 1 && Parse("10") == 10 && Parse("100") == 100;
    }
  }

  /** The rewritten text: untouched up to the first clause, which is capped, and what follows
      it does not go on with a digit. */
  lemma CapAllShape(t: string) returns (rest: string)
    requires FirstLimit(t).Some?
    ensures CapAll(t) == t[..FirstLimit(t).value.start] + ("LIMIT 1000" + rest)
    ensures rest != "" ==> !IsDigit(rest[0])
  {
    var hits := LimitHits(t);
    var hit := FirstLimit(t).value;
    assert hits[hit.start] == LimitAt(t, hit.start);
    rest := CapHits(t, hits, hit.end);
    CapKeepsPrefix(t, hits, 0);
  }

  lemma BeforeTheFirst(t: string, i: nat)
    requires FirstLimit(t).Some? && i < FirstLimit(t).value.start
    ensures LimitAt(t, i).None?
  {
    NoneBeforeTheFirst(LimitHits(t), 0, i);
  }

  lemma FirstIsAt(u: string, p: nat)
    requires p <= |u| && LimitAt(u, p).Some?
    requires forall i | 0 <= i < p :: LimitAt(u, i).None?
    ensures FirstLimit(u) == LimitAt(u, p)
  {
    var hits := LimitHits(u);
    var first := FirstHit(hits, 0);
    if first.None? || p < first.value.start {
      NoneBeforeTheFirst(hits, 0, p);
    } else {
      assert hits[first.value.start] == LimitAt(u, first.value.start);
    }
  }

  lemma NoneAtAll(u: string)
    requires forall i | 0 <= i <= |u| :: LimitAt(u, i).None?
    ensures FirstLimit(u) == None
  {
    var hits := LimitHits(u);
    var first := FirstHit(hits, 0);
    assert first.Some? ==> hits[first.value.start] == LimitAt(u, first.value.start);
  }

  /** A clause written where the first one stood is the first one again. */
  lemma FirstStaysFirst(t: string, u: string)
    requires FirstLimit(t).Some?
    requires var p := FirstLimit(t).value.start;
             p < |u| && p <= |t| && t[..p] == u[..p] && u[p] == 'L' && LimitAt(u, p).Some?
    ensures FirstLimit(u) == LimitAt(u, FirstLimit(t).value.start)
  {
    var p := FirstLimit(t).value.start;
    forall i | 0 <= i < p ensures LimitAt(u, i).None? {
      BeforeTheFirst(t, i);
      if LimitAt(u, i).Some? { NoHitAcross(t, u, p, i); }
    }
    FirstIsAt(u, p);
  }

  lemma CappedIsAllowed(t: string)
    requires FirstLimit(t).Some?
    ensures LimitValue(CapAll(t)) == Some(1000)
  {
    var p := FirstLimit(t).value.start;
    var u := CapAll(t);
    var rest := CapAllShape(t);
    var clause := "LIMIT 1000" + rest;
    assert u[p..] == clause && u[..p] == t[..p] && u[p] == clause[0];
    WrittenLimit(u, p, rest);
    FirstStaysFirst(t, u);
  }

  lemma {:induction false} DigitsToTheEnd(u: string, i: nat)
    requires i <= |u| && forall k | i <= k < |u| :: IsDigit(u[k])
    ensures DigitsEnd(u, i) == |u|
    decreases |u| - i
  {
  }

  /** The only clause after appending one is the appended, unless the text has the keyword. */
  lemma AppendedIsOnlyHit(t: string, r: string, tail: string, k: nat)
    requires r <= t
    requires forall i | 0 <= i < |tail| :: IsDigit(tail[i]) || tail[i] == '-'
    requires k <= |r + " LIMIT " + tail| && LimitAt(r + " LIMIT " + tail, k).Some?
    ensures k == |r| + 1 || Contains(t, "LIMIT")
  {
    var u := r + " LIMIT " + tail;
    if k + 5 <= |r| {
      assert u[..|r|] == r == t[..|r|];
      KeywordSame(t, u, |r|, k);
    } else if k <= |r| {
      KeywordLetter(u, k, "LIMIT", |r|);
    } else {
      KeywordLetter(u, k, "LIMIT", k);
    }
  }

  /** What stands at an appended clause. */
  lemma AppendedHit(r: string, n: int)
    ensures var u := r + " LIMIT " + Decimal(n);
            LimitAt(u, |r| + 1) == if 0 <= n then Some(Hit(|r| + 1, |r| + 7, |u|)) else None
    ensures 0 <= n ==> (r + " LIMIT " + Decimal(n))[|r| + 7..] == Numeral(n)
  {
    var tail := Decimal(n);
    var u := r + " LIMIT " + tail;
    var p := |r| + 1;
    assert u[p..p + 5] == "LIMIT";
    KeywordHere(u, p);
    assert u[p + 5] == ' ' && u[p + 6] == tail[0];
    assert SkipSpaces(u, p + 5) == SkipSpaces(u, p + 6) == p + 6;
    if 0 <= n {
      assert u[p + 6..] == tail;
      forall k | p + 6 <= k < |u| ensures IsDigit(u[k]) { assert u[k] == tail[k - (p + 6)]; }
      DigitsToTheEnd(u, p + 6);
    }
  }

  /** The text with a clause appended, and the only place where one can stand in it. */
  lemma Appended(t: string, r: string, n: int) returns (u: string, p: nat)
    requires !Contains(t, "LIMIT") && r <= t
    ensures u == r + " LIMIT " + Decimal(n) && p + 6 <= |u|
    ensures forall i | 0 <= i <= |u| && i != p :: LimitAt(u, i).None?
    ensures LimitAt(u, p) == if 0 <= n then Some(Hit(p, p + 6, |u|)) else None
    ensures 0 <= n ==> u[p + 6..] == Numeral(n)
  {
    u, p := r + " LIMIT " + Decimal(n), |r| + 1;
    AppendedHit(r, n);
    forall i | 0 <= i <= |u| && i != p ensures LimitAt(u, i).None? {
      if LimitAt(u, i).Some? { AppendedIsOnlyHit(t, r, Decimal(n), i); }
    }
  }

  lemma FirstOfOne(u: string, p: nat)
    requires p <= |u| && forall i | 0 <= i <= |u| && i != p :: LimitAt(u, i).None?
    ensures FirstLimit(u) == LimitAt(u, p)
  {
    if LimitAt(u, p).Some? { FirstIsAt(u, p); } else { NoneAtAll(u); }
  }

  lemma DefaultIsAllowed(t: string, r: string, n: int)
    requires !Contains(t, "LIMIT") && r <= t
    ensures LimitValue(r + " LIMIT " + Decimal(n)) == if 0 <= n then Some(n) else None
  {
    var u, p := Appended(t, r, n);
    FirstOfOne(u, p);
    assert u[p + 6..|u|] == u[p + 6..];
  }

  /** Whatever the query and the default, the sanitised query passes the validator's check. */
  lemma SanitizedIsAllowed(t: string, defaultLimit: int)
    ensures LimitAllowed(SanitizeLimit(t, defaultLimit))
  {
    if Contains(t, "LIMIT") {
      if FirstLimit(t).Some? { CappedIsAllowed(t); }
    } else {
      DefaultIsAllowed(t, TrimRight(t), if defaultLimit < MAX_RETURN_LIMIT then defaultLimit else MAX_RETURN_LIMIT);
    }
  }

  /** …and the keyword is in it, if only as part of another word. */
  lemma SanitizedHasKeyword(t: string, defaultLimit: int)
    ensures Contains(SanitizeLimit(t, defaultLimit), "LIMIT")
  {
    if Contains(t, "LIMIT") {
      if FirstLimit(t).Some? {
        CappedIsAllowed(t);
        var u := CapAll(t);
        assert KeywordEnd(u, FirstLimit(u).value.start, "LIMIT").Some?;
      }
    } else {
      var n := if defaultLimit < MAX_RETURN_LIMIT then defaultLimit else MAX_RETURN_LIMIT;
      var u := TrimRight(t) + " LIMIT " + Decimal(n);
      var p := |TrimRight(t)| + 1;
      assert u[p..p + 5] == "LIMIT";
      KeywordHere(u, p);
    }
  }

  /** Sanitising a sanitised query changes nothing. */
  lemma SanitizingTwice(t: string, d: int, e: int)
    ensures SanitizeLimit(SanitizeLimit(t, d), e) == SanitizeLimit(t, d)
  {
    SanitizedIsAllowed(t, d);
    SanitizedHasKeyword(t, d);
  }
}
