/** `slugify`: lower-case hyphenated identifiers, cut at whole parts. */
module Slugs {
  import opened Ascii
  import opened Lines
  import opened Text

  predicate IsAlnum(c: char) { IsLower(c) || IsDigit(c) }

  /** The complement of the first regular expression's class, and the second's. */
  predicate IsOther(c: char) { !IsAlnum(c) }

  predicate IsHyphen(c: char) { c == '-' }

  // ---------------------------------------------------------------- the source's rewrites

  /** `re.sub("[…]+", "-", s)`, with `bad` the class. */
  function Collapse(bad: char -> bool, s: string): (r: string)
    ensures r != "" && s != "" ==> r[0] == if bad(s[0]) then '-' else s[0]
    ensures s == "" <==> r == ""
    decreases |s|
  {
    if s == "" then ""
    else if !bad(s[0]) then [s[0]] + Collapse(bad, s[1..])
    else if |s| > 1 && bad(s[1]) then Collapse(bad, s[1..])
    else "-" + Collapse(bad, s[1..])
  }

  function StripHyphensLeft(s: string): string
    decreases |s|
  {
    if s != "" && s[0] == '-' then StripHyphensLeft(s[1..]) else s
  }

  function StripHyphensRight(s: string): (r: string)
    ensures r <= s
    decreases |s|
  {
    if s != "" && s[|s| - 1] == '-' then StripHyphensRight(s[..|s| - 1]) else s
  }

  /** `s.strip("-")` */
  function StripHyphens(s: string): string {
    StripHyphensRight(StripHyphensLeft(s))
  }

  /** Python's `s[:n]`. */
  function Prefix(s: string, n: int): (r: string)
    ensures r <= s
  {
    if n >= |s| then s else if n >= 0 then s[..n] else if |s| + n >= 0 then s[..|s| + n] else ""
  }

  // ---------------------------------------------------------------- what a slug is

  /** The length of the leading run of letters and digits. */
  function AlnumRun(s: string): (n: nat)
    ensures n <= |s|
    ensures forall i | 0 <= i < n :: IsAlnum(s[i])
    ensures n < |s| ==> IsOther(s[n])
    decreases |s|
  {
    if s == "" || IsOther(s[0]) then 0 else 1 + AlnumRun(s[1..])
  }

  /** The longest runs of letters and digits, in order. */
  function Runs(s: string): seq<string>
    decreases |s|
  {
    if s == "" then []
    else if IsOther(s[0]) then Runs(s[1..])
    else [s[..AlnumRun(s)]] + Runs(s[AlnumRun(s)..])
  }

  predicate IsPart(p: string) {
    p != "" && forall i | 0 <= i < |p| :: IsAlnum(p[i])
  }

  predicate AreParts(parts: seq<string>) {
    forall i | 0 <= i < |parts| :: IsPart(parts[i])
  }

  function Hyphenated(parts: seq<string>): string {
    JoinWith(parts, '-')
  }

  predicate SlugCharacters(s: string) {
    forall i | 0 <= i < |s| :: IsAlnum(s[i]) || s[i] == '-'
  }

  predicate DoubledAt(s: string, i: int) {
    0 < i < |s| && s[i - 1] == '-' && s[i] == '-'
  }

  predicate NoDoubleHyphen(s: string) {
    forall i | 0 < i < |s| :: !DoubledAt(s, i)
  }

  /** Letters, digits and single hyphens between them. */
  predicate IsSlug(s: string) {
    && SlugCharacters(s)
    && (s != "" ==> s[0] != '-' && s[|s| - 1] != '-')
    && NoDoubleHyphen(s)
  }

  /** How many parts fit, from `n` on that do. */
  function FitCount(parts: seq<string>, maxLen: int, n: nat): (m: nat)
    requires n <= |parts|
    ensures n <= m <= |parts|
    decreases |parts| - n
  {
    if n < |parts| && |Hyphenated(parts[..n + 1])| <= maxLen then FitCount(parts, maxLen, n + 1) else n
  }

  /** The slug of a text: its runs of letters and digits joined by hyphens, or as many of them
      as fit, or the start of the first. */
  function Slugify(text: string, maxLen: int): string {
    var parts := Runs(Lower(text));
    if parts == [] || |Hyphenated(parts)| <= maxLen then Hyphenated(parts)
    else if |parts[0]| > maxLen then Prefix(parts[0], maxLen)
    else Hyphenated(parts[..FitCount(parts, maxLen, 1)])
  }

  // ---------------------------------------------------------------- the rewrites compute it

  lemma {:induction false} RunsAreParts(s: string)
    ensures AreParts(Runs(s))
    decreases |s|
  {
    if s != "" {
      RunsAreParts(if IsOther(s[0]) then s[1..] else s[AlnumRun(s)..]);
    }
  }

  lemma {:induction false} AlnumRunIs(a: string, b: string)
    requires (forall i | 0 <= i < |a| :: IsAlnum(a[i])) && (b != "" ==> IsOther(b[0]))
    ensures AlnumRun(a + b) == |a|
    decreases |a|
  {
    if a == "" {
      assert a + b == b;
    } else {
      assert (a + b)[1..] == a[1..] + b;
      AlnumRunIs(a[1..], b);
    }
  }

  lemma FirstRun(p: string, rest: string)
    requires IsPart(p) && (rest != "" ==> IsOther(rest[0]))
    ensures Runs(p + rest) == [p] + Runs(rest)
  {
    AlnumRunIs(p, rest);
    assert (p + rest)[0] == p[0] && (p + rest)[..|p|] == p && (p + rest)[|p|..] == rest;
  }

  lemma SplitRun(s: string) returns (p: string, rest: string)
    requires s != "" && IsAlnum(s[0])
    ensures IsPart(p) && s == p + rest && |rest| < |s| && (rest != "" ==> IsOther(rest[0]))
  {
    p, rest := s[..AlnumRun(s)], s[AlnumRun(s)..];
  }

  /** What a class that holds no letter or digit matches is no part of a run. */
  predicate SparesAlnum(bad: char -> bool) {
    forall c {:trigger bad(c)} :: IsAlnum(c) ==> !bad(c)
  }

  lemma {:induction false} CollapseAfterPart(bad: char -> bool, p: string, rest: string)
    requires SparesAlnum(bad) && forall i | 0 <= i < |p| :: IsAlnum(p[i])
    ensures Collapse(bad, p + rest) == p + Collapse(bad, rest)
    decreases |p|
  {
    if p == "" {
      assert p + rest == rest;
    } else {
      CollapseAfterPart(bad, p[1..], rest);
      assert (p + rest)[1..] == p[1..] + rest;
    }
  }

  lemma {:induction false} CollapseKeepsRuns(bad: char -> bool, s: string)
    requires SparesAlnum(bad)
    ensures Runs(Collapse(bad, s)) == Runs(s)
    decreases |s|
  {
    if s == "" {
    } else if IsOther(s[0]) {
      CollapseKeepsRuns(bad, s[1..]);
      var r := Collapse(bad, s[1..]);
      if bad(s[0]) { assert ("-" + r)[1..] == r; } else { assert ([s[0]] + r)[1..] == r; }
    } else {
      var p, rest := SplitRun(s);
      CollapseAfterPart(bad, p, rest);
      CollapseKeepsRuns(bad, rest);
      FirstRun(p, rest);
      FirstRun(p, Collapse(bad, rest));
    }
  }

  lemma {:induction false} DropLastKeepsRuns(s: string, c: char)
    requires IsOther(c)
    ensures Runs(s + [c]) == Runs(s)
    decreases |s|
  {
    if s == "" {
      assert (s + [c])[1..] == "";
    } else if IsOther(s[0]) {
      DropLastKeepsRuns(s[1..], c);
      assert (s + [c])[1..] == s[1..] + [c];
    } else {
      var p, rest := SplitRun(s);
      DropLastKeepsRuns(rest, c);
      FirstRun(p, rest);
      FirstRun(p, rest + [c]);
      assert s + [c] == p + (rest + [c]);
    }
  }

  lemma {:induction false} StripHyphensLeftKeepsRuns(s: string)
    ensures Runs(StripHyphensLeft(s)) == Runs(s)
    decreases |s|
  {
    if s != "" && s[0] == '-' { StripHyphensLeftKeepsRuns(s[1..]); }
  }

  lemma {:induction false} StripHyphensRightKeepsRuns(s: string)
    ensures Runs(StripHyphensRight(s)) == Runs(s)
    decreases |s|
  {
    if s != "" && s[|s| - 1] == '-' {
      StripHyphensRightKeepsRuns(s[..|s| - 1]);
      DropLastKeepsRuns(s[..|s| - 1], '-');
      assert s == s[..|s| - 1] + ['-'];
    }
  }

  lemma {:induction false} StripLeftKeepsRuns(s: string)
    ensures Runs(Lower(StripLeft(s))) == Runs(Lower(s))
    decreases |s|
  {
    if s != "" && IsSpace(s[0]) {
      StripLeftKeepsRuns(s[1..]);
      LowerTail(s);
      DropFirstKeepsRuns(Lower(s));
    }
  }

  lemma LowerTail(s: string)
    requires s != ""
    ensures Lower(s)[1..] == Lower(s[1..])
  {
  }

  lemma DropFirstKeepsRuns(s: string)
    requires s != "" && IsOther(s[0])
    ensures Runs(s) == Runs(s[1..])
  {
  }

  lemma {:induction false} StripRightKeepsRuns(s: string)
    ensures Runs(Lower(StripRight(s))) == Runs(Lower(s))
    decreases |s|
  {
    if s != "" && IsSpace(s[|s| - 1]) {
      var init, last := s[..|s| - 1], s[|s| - 1];
      StripRightKeepsRuns(init);
      DropLastKeepsRuns(Lower(init), ToLower(last));
      assert Lower(s) == Lower(init) + [ToLower(last)];
    }
  }

  // ---------------------------------------------------------------- the shape of the rewritten text

  lemma {:induction false} CollapseOtherCharacters(s: string)
    ensures SlugCharacters(Collapse(IsOther, s))
    decreases |s|
  {
    if s != "" { CollapseOtherCharacters(s[1..]); }
  }

  lemma {:induction false} CollapseHyphensShape(s: string)
    requires SlugCharacters(s)
    ensures SlugCharacters(Collapse(IsHyphen, s)) && NoDoubleHyphen(Collapse(IsHyphen, s))
    decreases |s|
  {
    if s != "" {
      CollapseHyphensShape(s[1..]);
      if s[0] != '-' || |s| == 1 || s[1] != '-' { PrependKeepsShape(s[0], Collapse(IsHyphen, s[1..])); }
    }
  }

  lemma PrependKeepsShape(c: char, s: string)
    requires SlugCharacters(s) && NoDoubleHyphen(s) && (IsAlnum(c) || (c == '-' && (s != "" ==> s[0] != '-')))
    ensures SlugCharacters([c] + s) && NoDoubleHyphen([c] + s)
  {
    forall i | 0 < i < |[c] + s| ensures !DoubledAt([c] + s, i) {
      if i > 1 { assert !DoubledAt(s, i - 1); }
    }
  }

  lemma TailKeepsShape(s: string, n: nat)
    requires SlugCharacters(s) && NoDoubleHyphen(s) && n <= |s|
    ensures SlugCharacters(s[n..]) && NoDoubleHyphen(s[n..]) && SlugCharacters(s[..n]) && NoDoubleHyphen(s[..n])
  {
    forall i | 0 < i < |s[n..]| ensures !DoubledAt(s[n..], i) { assert !DoubledAt(s, n + i); }
    forall i | 0 < i < |s[..n]| ensures !DoubledAt(s[..n], i) { assert !DoubledAt(s, i); }
  }

  lemma {:induction false} StripHyphensLeftShape(s: string)
    requires SlugCharacters(s) && NoDoubleHyphen(s)
    ensures var r := StripHyphensLeft(s); SlugCharacters(r) && NoDoubleHyphen(r) && (r != "" ==> r[0] != '-')
    decreases |s|
  {
    if s != "" && s[0] == '-' {
      TailKeepsShape(s, 1);
      StripHyphensLeftShape(s[1..]);
    }
  }

  lemma {:induction false} StripHyphensRightShape(s: string)
    requires SlugCharacters(s) && NoDoubleHyphen(s) && (s != "" ==> s[0] != '-')
    ensures IsSlug(StripHyphensRight(s))
    decreases |s|
  {
    if s != "" && s[|s| - 1] == '-' {
      TailKeepsShape(s, |s| - 1);
      StripHyphensRightShape(s[..|s| - 1]);
    }
  }

  /** A slug is its parts, joined. */
  lemma {:induction false} SlugIsItsRuns(s: string)
    requires IsSlug(s)
    ensures s == Hyphenated(Runs(s))
    decreases |s|
  {
    if s != "" {
      var p, rest := SplitRun(s);
      FirstRun(p, rest);
      if rest != "" {
        var more := rest[1..];
        SlugTail(s, p, rest);
        SlugIsItsRuns(more);
        DropFirstKeepsRuns(rest);
        OneMorePart(p, Runs(more));
      } else {
        assert s == p;
      }
    }
  }

  lemma OneMorePart(p: string, parts: seq<string>)
    requires parts != []
    ensures Hyphenated([p] + parts) == p + ['-'] + Hyphenated(parts)
  {
  }

  lemma SlugTail(s: string, p: string, rest: string)
    requires IsSlug(s) && s == p + rest && rest != "" && IsOther(rest[0])
    ensures rest[1..] != "" && IsSlug(rest[1..]) && s == p + ['-'] + rest[1..]
  {
    var n := |p| + 1;
    assert s[|p|] == rest[0];
    assert rest == ['-'] + rest[1..];
    TailKeepsShape(s, n);
    assert !DoubledAt(s, n);
    assert rest[1..] == s[n..];
  }

  /** The source's pipeline gives the runs joined. */
  lemma PipelineJoinsRuns(text: string)
    ensures StripHyphens(Collapse(IsHyphen, Collapse(IsOther, Lower(Strip(text))))) == Hyphenated(Runs(Lower(text)))
  {
    var lowered := Lower(Strip(text));
    StripLeftKeepsRuns(text);
    StripRightKeepsRuns(StripLeft(text));
    var one := Collapse(IsOther, lowered);
    CollapseKeepsRuns(IsOther, lowered);
    CollapseOtherCharacters(lowered);
    var two := Collapse(IsHyphen, one);
    CollapseKeepsRuns(IsHyphen, one);
    CollapseHyphensShape(one);
    var three := StripHyphensLeft(two);
    StripHyphensLeftKeepsRuns(two);
    StripHyphensLeftShape(two);
    StripHyphensRightKeepsRuns(three);
    StripHyphensRightShape(three);
    SlugIsItsRuns(StripHyphensRight(three));
  }
}
