/** The two name rewrites of the canonicaliser, for display and for matching, and why they
    commute. */
module NameRewrites {
  import opened Ascii
  import opened Text

  const ACRONYMS: set<string> := {
    "AI", "API", "SOAP", "PRRO", "HTTP", "HTTPS", "SQL", "URL", "UI", "SDK",
    "CLI", "REST", "JSON", "XML", "CSS", "HTML", "JS", "TS", "DB"
  }

  // ---------------------------------------------------------------- `_split_camel_case`

  /** `re.sub(r"([a-z])([A-Z])", r"\1 \2", s)` */
  function SplitLowerUpper(s: string): string
    decreases |s|
  {
    if s == "" then ""
    else if |s| >= 2 && IsLower(s[0]) && IsUpper(s[1]) then [s[0], ' ', s[1]] + SplitLowerUpper(s[2..])
    else [s[0]] + SplitLowerUpper(s[1..])
  }

  function UpperRun(s: string): (n: nat)
    ensures n <= |s|
    ensures forall i | 0 <= i < n :: IsUpper(s[i])
    ensures n < |s| ==> !IsUpper(s[n])
    decreases |s|
  {
    if s != "" && IsUpper(s[0]) then
      var n := 1 + UpperRun(s[1..]);
      assert forall i | 1 <= i < n :: s[i] == s[1..][i - 1];
      n
    else 0
  }

  function AcronymMatch(s: string, n: nat): string
    requires 1 <= n < |s|
  {
    s[..n - 1] + " " + s[n - 1..n + 1]
  }

  /** `re.sub(r"([A-Z]+)([A-Z][a-z])", r"\1 \2", s)`: a match is a whole run of capitals and
      the small letter after it. */
  function SplitAcronym(s: string): string
    decreases |s|
  {
    if s == "" then "" else
      var n := UpperRun(s);
      if 2 <= n < |s| && IsLower(s[n])
      then AcronymMatch(s, n) + SplitAcronym(s[n + 1..])
      else [s[0]] + SplitAcronym(s[1..])
  }

  function SplitCamelCase(s: string): string {
    SplitAcronym(SplitLowerUpper(s))
  }

  // ---------------------------------------------------------------- the rewrites

  function UnderscoreToSpace(c: char): char {
    if c == '_' then ' ' else c
  }

  /** Everything the matching key drops: punctuation, underscores and hyphens. */
  function SeparatorToSpace(c: char): char {
    if c in "().[]{}&+,;:!?\"'_-" then ' ' else c
  }

  function Capitalize(w: string): (r: string)
    ensures |r| == |w|
  {
    if w == "" then "" else [ToUpper(w[0])] + Lower(w[1..])
  }

  function TitleWord(w: string): string {
    if Upper(w) in ACRONYMS then Upper(w) else Capitalize(w)
  }

  function TitleWords(ws: seq<string>): (r: seq<string>)
    ensures |r| == |ws|
    ensures forall i | 0 <= i < |ws| :: r[i] == TitleWord(ws[i])
  {
    seq(|ws|, i requires 0 <= i < |ws| => TitleWord(ws[i]))
  }

  function TitleCase(s: string): string {
    Join(TitleWords(Words(s)))
  }

  /** `_canonicalise_name` */
  function CanonicalName(s: string): string {
    TitleCase(Join(Words(SplitCamelCase(Apply(UnderscoreToSpace, s)))))
  }

  /** `_whitelist_key` */
  function WhitelistKey(s: string): string {
    Lower(Join(Words(SplitCamelCase(Apply(SeparatorToSpace, s)))))
  }

  /** `_title_case_with_acronyms`, word by word. */
  method TitleCaseWithAcronyms(s: string) returns (r: string)
    ensures r == TitleCase(s)
  {
    var words := Words(s);
    var titled: seq<string> := [];
    for i := 0 to |words|
      invariant titled == TitleWords(words)[..i]
    {
      if Upper(words[i]) in ACRONYMS {
        titled := titled + [Upper(words[i])];
      } else {
        titled := titled + [Capitalize(words[i])];
      }
    }
    assert titled == TitleWords(words);
    r := Join(titled);
  }

  // ---------------------------------------------------------------- splitting sees only letters

  /** A rewrite that keeps letters, and makes no new ones. */
  predicate KeepsLetters(f: char -> char) {
    && f(' ') == ' '
    && (forall c {:trigger f(c)} :: if IsLower(c) || IsUpper(c) then f(c) == c else !IsLower(f(c)) && !IsUpper(f(c)))
  }

  lemma ApplyTail(f: char -> char, s: string, i: nat)
    requires i <= |s|
    ensures Apply(f, s)[i..] == Apply(f, s[i..])
  {
  }

  lemma ClassesKept(f: char -> char, s: string, i: nat)
    requires KeepsLetters(f) && i < |s|
    ensures IsLower(Apply(f, s)[i]) == IsLower(s[i]) && IsUpper(Apply(f, s)[i]) == IsUpper(s[i])
    ensures IsLower(s[i]) || IsUpper(s[i]) ==> Apply(f, s)[i] == s[i]
  {
  }

  lemma {:induction false} SplitLowerUpperCommutes(f: char -> char, s: string)
    requires KeepsLetters(f)
    ensures SplitLowerUpper(Apply(f, s)) == Apply(f, SplitLowerUpper(s))
    decreases |s|
  {
    if s != "" {
      ClassesKept(f, s, 0);
      if |s| >= 2 { ClassesKept(f, s, 1); }
      if |s| >= 2 && IsLower(s[0]) && IsUpper(s[1]) {
        SplitLowerUpperCommutes(f, s[2..]);
        ApplyTail(f, s, 2);
        ApplyConcat(f, [s[0], ' ', s[1]], SplitLowerUpper(s[2..]));
        assert Apply(f, [s[0], ' ', s[1]]) == [s[0], ' ', s[1]];
      } else {
        SplitLowerUpperCommutes(f, s[1..]);
        ApplyTail(f, s, 1);
        ApplyConcat(f, [s[0]], SplitLowerUpper(s[1..]));
        assert Apply(f, [s[0]]) == [Apply(f, s)[0]];
      }
    }
  }

  lemma {:induction false} UpperRunCommutes(f: char -> char, s: string)
    requires KeepsLetters(f)
    ensures UpperRun(Apply(f, s)) == UpperRun(s)
    decreases |s|
  {
  }

  lemma AcronymMatchCommutes(f: char -> char, s: string, n: nat)
    requires KeepsLetters(f) && 1 <= n < |s|
    ensures AcronymMatch(Apply(f, s), n) == Apply(f, AcronymMatch(s, n))
  {
  }

  predicate AcronymStarts(s: string) {
    var n := UpperRun(s);
    2 <= n < |s| && IsLower(s[n])
  }

  lemma SplitAtStart(s: string, n: nat, head: string, rest: string)
    requires AcronymStarts(s) && n == UpperRun(s) && head == AcronymMatch(s, n) && rest == s[n + 1..]
    ensures SplitAcronym(s) == head + SplitAcronym(rest)
  {
  }

  lemma StartCommutes(f: char -> char, s: string, n: nat)
    requires KeepsLetters(f) && AcronymStarts(s) && n == UpperRun(s)
    ensures var fs := Apply(f, s);
            && AcronymStarts(fs) && UpperRun(fs) == n
            && AcronymMatch(fs, n) == Apply(f, AcronymMatch(s, n)) && fs[n + 1..] == Apply(f, s[n + 1..])
  {
    UpperRunCommutes(f, s);
    ClassesKept(f, s, n);
    ApplyTail(f, s, n + 1);
    AcronymMatchCommutes(f, s, n);
  }

  lemma AcronymCommutes(f: char -> char, s: string, rest: string)
    requires KeepsLetters(f) && AcronymStarts(s) && rest == s[UpperRun(s) + 1..]
    requires SplitAcronym(Apply(f, rest)) == Apply(f, SplitAcronym(rest))
    ensures SplitAcronym(Apply(f, s)) == Apply(f, SplitAcronym(s))
  {
    var n := UpperRun(s);
    var head := AcronymMatch(s, n);
    StartCommutes(f, s, n);
    SplitAtStart(s, n, head, rest);
    SplitAtStart(Apply(f, s), n, Apply(f, head), Apply(f, rest));
    ApplyConcat(f, head, SplitAcronym(rest));
  }

  lemma CharacterCommutes(f: char -> char, s: string, rest: string)
    requires KeepsLetters(f) && s != "" && !AcronymStarts(s) && rest == s[1..]
    requires SplitAcronym(Apply(f, rest)) == Apply(f, SplitAcronym(rest))
    ensures SplitAcronym(Apply(f, s)) == Apply(f, SplitAcronym(s))
  {
    UpperRunCommutes(f, s);
    if UpperRun(s) < |s| { ClassesKept(f, s, UpperRun(s)); }
    ApplyTail(f, s, 1);
    ApplyFirst(f, s, SplitAcronym(rest));
  }

  lemma {:induction false} SplitAcronymCommutes(f: char -> char, s: string)
    requires KeepsLetters(f)
    ensures SplitAcronym(Apply(f, s)) == Apply(f, SplitAcronym(s))
    decreases |s|
  {
    if s != "" {
      var rest := if AcronymStarts(s) then s[UpperRun(s) + 1..] else s[1..];
      SplitAcronymCommutes(f, rest);
      if AcronymStarts(s) {
        AcronymCommutes(f, s, rest);
      } else {
        CharacterCommutes(f, s, rest);
      }
    }
  }

  lemma ApplyFirst(f: char -> char, s: string, rest: string)
    requires s != ""
    ensures Apply(f, [s[0]] + rest) == [Apply(f, s)[0]] + Apply(f, rest)
  {
  }

  lemma SplitCommutes(f: char -> char, s: string)
    requires KeepsLetters(f)
    ensures SplitCamelCase(Apply(f, s)) == Apply(f, SplitCamelCase(s))
  {
    SplitLowerUpperCommutes(f, s);
    SplitAcronymCommutes(f, SplitLowerUpper(s));
  }

  // ---------------------------------------------------------------- boundaries

  predicate BoundaryAt(s: string, i: nat) {
    || (i + 1 < |s| && IsLower(s[i]) && IsUpper(s[i + 1]))
    || (i + 2 < |s| && IsUpper(s[i]) && IsUpper(s[i + 1]) && IsLower(s[i + 2]))
  }

  predicate NoBoundary(s: string) {
    forall i: nat | i < |s| :: !BoundaryAt(s, i)
  }

  lemma TailHasNoBoundary(s: string, n: nat)
    requires NoBoundary(s) && n <= |s|
    ensures NoBoundary(s[n..])
  {
    forall i: nat | i < |s[n..]| ensures !BoundaryAt(s[n..], i) { assert !BoundaryAt(s, n + i); }
  }

  lemma {:induction false} NothingToSplit(s: string)
    requires NoBoundary(s)
    ensures SplitLowerUpper(s) == s && SplitAcronym(s) == s
    decreases |s|
  {
    if s != "" {
      assert !BoundaryAt(s, 0);
      TailHasNoBoundary(s, 1);
      NothingToSplit(s[1..]);
      var n := UpperRun(s);
      if n >= 2 { assert !BoundaryAt(s, n - 2); }
    }
  }

  lemma {:induction false} JoinHasNoBoundary(ws: seq<string>)
    requires forall i | 0 <= i < |ws| :: NoBoundary(ws[i])
    ensures NoBoundary(Join(ws))
    decreases |ws|
  {
    if |ws| > 1 {
      JoinHasNoBoundary(ws[1..]);
      var s := Join(ws);
      var a, b := ws[0], Join(ws[1..]);
      assert s == a + (" " + b);
      forall i: nat | i < |s| ensures !BoundaryAt(s, i) {
        if i < |a| {
          assert !BoundaryAt(a, i);
        } else if i > |a| {
          assert !BoundaryAt(b, i - |a| - 1);
        }
      }
    }
  }

  // ---------------------------------------------------------------- titled words

  /** All capitals, or a capital first and small letters after it. */
  predicate Cased(acronym: bool, w: string, t: string) {
    && |t| == |w|
    && forall i | 0 <= i < |w| :: t[i] == if acronym || i == 0 then ToUpper(w[i]) else ToLower(w[i])
  }

  lemma TitleIsCased(w: string)
    ensures Cased(Upper(w) in ACRONYMS, w, TitleWord(w))
  {
    if w != "" {
      var t := Capitalize(w);
      assert forall i | 1 <= i < |w| :: t[i] == Lower(w[1..])[i - 1];
    }
  }

  lemma CasingKeepsLetters(acronym: bool, w: string, t: string)
    requires Cased(acronym, w, t)
    ensures Lower(t) == Lower(w) && Upper(t) == Upper(w) && (IsWord(w) ==> IsWord(t))
  {
    forall i | 0 <= i < |w|
      ensures ToLower(t[i]) == ToLower(w[i]) && ToUpper(t[i]) == ToUpper(w[i]) && IsSpace(t[i]) == IsSpace(w[i])
    {
    }
  }

  lemma CasedHasNoBoundary(acronym: bool, w: string, t: string)
    requires Cased(acronym, w, t)
    ensures NoBoundary(t)
  {
    forall i: nat | i < |t| ensures !BoundaryAt(t, i) { }
  }

  lemma CasedTwice(acronym: bool, w: string, t: string, u: string)
    requires Cased(acronym, w, t) && Cased(acronym, t, u)
    ensures u == t
  {
  }

  lemma TitleWordShape(w: string)
    requires IsWord(w)
    ensures IsWord(TitleWord(w)) && NoBoundary(TitleWord(w))
    ensures Lower(TitleWord(w)) == Lower(w)
    ensures TitleWord(TitleWord(w)) == TitleWord(w)
  {
    TitleIsCased(w);
    var acronym, t := Upper(w) in ACRONYMS, TitleWord(w);
    CasingKeepsLetters(acronym, w, t);
    CasedHasNoBoundary(acronym, w, t);
    TitleIsCased(t);
    CasedTwice(acronym, w, t, TitleWord(t));
  }

  lemma TitleWordsShape(ws: seq<string>)
    requires AreWords(ws)
    ensures AreWords(TitleWords(ws)) && TitleWords(TitleWords(ws)) == TitleWords(ws)
    ensures NoBoundary(Join(TitleWords(ws)))
  {
    forall i | 0 <= i < |ws|
      ensures IsWord(TitleWords(ws)[i]) && NoBoundary(TitleWords(ws)[i])
      ensures TitleWords(TitleWords(ws))[i] == TitleWords(ws)[i]
    {
      assert IsWord(ws[i]);
      TitleWordShape(ws[i]);
    }
    JoinHasNoBoundary(TitleWords(ws));
  }

  lemma {:induction false} TitlingOnlyChangesCase(ws: seq<string>)
    requires AreWords(ws)
    ensures Lower(Join(TitleWords(ws))) == Lower(Join(ws))
    decreases |ws|
  {
    if |ws| >= 1 {
      assert IsWord(ws[0]);
      TitleWordShape(ws[0]);
      if |ws| > 1 {
        TitlingOnlyChangesCase(ws[1..]);
        assert TitleWords(ws)[1..] == TitleWords(ws[1..]);
        ApplyConcat(ToLower, TitleWord(ws[0]) + " ", Join(TitleWords(ws[1..])));
        ApplyConcat(ToLower, ws[0] + " ", Join(ws[1..]));
        ApplyConcat(ToLower, TitleWord(ws[0]), " ");
        ApplyConcat(ToLower, ws[0], " ");
      }
    }
  }

  // ---------------------------------------------------------------- the canonical form

  function PartsOf(s: string): seq<string> {
    Words(SplitCamelCase(Apply(UnderscoreToSpace, s)))
  }

  /** The canonical name is the titled parts of the name, joined; it has no camel-case
      boundary and no underscore left. */
  lemma CanonicalForm(s: string)
    ensures CanonicalName(s) == Join(TitleWords(PartsOf(s)))
    ensures NoBoundary(CanonicalName(s)) && Stripped(CanonicalName(s))
    ensures Words(CanonicalName(s)) == TitleWords(PartsOf(s))
    ensures Apply(UnderscoreToSpace, CanonicalName(s)) == CanonicalName(s)
  {
    WordsOfJoin(PartsOf(s));
    TitleWordsShape(PartsOf(s));
    WordsOfJoin(TitleWords(PartsOf(s)));
    JoinIsStripped(TitleWords(PartsOf(s)));
    NoUnderscoreLeft(s);
  }

  predicate NoUnderscore(s: string) {
    forall i | 0 <= i < |s| :: s[i] != '_'
  }

  lemma NoUnderscoreLeft(s: string)
    ensures Apply(UnderscoreToSpace, Join(TitleWords(PartsOf(s)))) == Join(TitleWords(PartsOf(s)))
  {
    var u := Apply(UnderscoreToSpace, s);
    SplitCommutes(UnderscoreToSpace, u);
    assert Apply(UnderscoreToSpace, u) == u;
    var x := SplitCamelCase(u);
    assert NoUnderscore(x) by {
      assert forall i | 0 <= i < |x| :: x[i] == Apply(UnderscoreToSpace, x)[i];
    }
    WordsHaveNoUnderscore(x);
    JoinTitledHasNoUnderscore(Words(x));
  }

  lemma {:induction false} WordsHaveNoUnderscore(s: string)
    requires NoUnderscore(s)
    ensures forall i | 0 <= i < |Words(s)| :: NoUnderscore(Words(s)[i])
    decreases |s|
  {
    if s != "" {
      if IsSpace(s[0]) {
        WordsHaveNoUnderscore(s[1..]);
      } else {
        WordsHaveNoUnderscore(s[RunLength(s)..]);
      }
    }
  }

  lemma {:induction false} JoinTitledHasNoUnderscore(ws: seq<string>)
    requires forall i | 0 <= i < |ws| :: NoUnderscore(ws[i])
    ensures NoUnderscore(Join(TitleWords(ws)))
    decreases |ws|
  {
    if |ws| >= 1 {
      assert NoUnderscore(TitleWord(ws[0]));
      if |ws| > 1 {
        JoinTitledHasNoUnderscore(ws[1..]);
        assert TitleWords(ws)[1..] == TitleWords(ws[1..]);
      }
    }
  }

  /** Canonicalising a canonical name changes nothing. */
  lemma CanonicalNameIsIdempotent(s: string)
    ensures CanonicalName(CanonicalName(s)) == CanonicalName(s)
  {
    var c := CanonicalName(s);
    CanonicalForm(s);
    CanonicalForm(c);
    NothingToSplit(c);
    TitleWordsShape(PartsOf(s));
  }

  // ---------------------------------------------------------------- the two rewrites commute

  /** The words a matching key is made of. */
  function KeyWords(s: string): seq<string> {
    Words(Lower(Apply(SeparatorToSpace, s)))
  }

  function LowerSeparator(c: char): char {
    ToLower(SeparatorToSpace(c))
  }

  lemma {:induction false} LowerOfJoinedWords(s: string)
    ensures Lower(Join(Words(s))) == Join(Words(Lower(s)))
    decreases |s|
  {
    WordsOfRewrittenWords(ToLower, s);
    LowerKeepsWords(Words(s));
    var lowered := LowerWords(Words(s));
    WordsOfJoin(lowered);
  }

  function LowerWords(ws: seq<string>): seq<string> {
    seq(|ws|, i requires 0 <= i < |ws| => Lower(ws[i]))
  }

  lemma {:induction false} LowerKeepsWords(ws: seq<string>)
    requires AreWords(ws)
    ensures AreWords(LowerWords(ws)) && Lower(Join(ws)) == Join(LowerWords(ws))
    decreases |ws|
  {
    forall i | 0 <= i < |ws| ensures IsWord(LowerWords(ws)[i]) { assert IsWord(ws[i]); }
    if |ws| > 1 {
      LowerKeepsWords(ws[1..]);
      assert LowerWords(ws)[1..] == LowerWords(ws[1..]);
      ApplyConcat(ToLower, ws[0] + " ", Join(ws[1..]));
      ApplyConcat(ToLower, ws[0], " ");
    }
  }

  lemma KeyFromSplit(s: string)
    ensures WhitelistKey(s) == Join(KeyWords(SplitCamelCase(Apply(UnderscoreToSpace, s))))
  {
    var u := Apply(UnderscoreToSpace, s);
    assert Apply(SeparatorToSpace, u) == Apply(SeparatorToSpace, s);
    SplitCommutes(SeparatorToSpace, u);
    LowerOfJoinedWords(SplitCamelCase(Apply(SeparatorToSpace, s)));
  }

  lemma LowerAndSeparate(s: string)
    ensures Lower(Apply(SeparatorToSpace, s)) == Apply(LowerSeparator, s)
    ensures Lower(Apply(SeparatorToSpace, s)) == Apply(SeparatorToSpace, Lower(s))
  {
  }

  /** Key words do not see case, nor whether blanks were collapsed. */
  lemma KeyWordsSeeOnlyWords(c: string, x: string)
    requires Lower(c) == Lower(Join(Words(x)))
    ensures KeyWords(c) == KeyWords(x)
  {
    LowerAndSeparate(c);
    LowerAndSeparate(Join(Words(x)));
    LowerAndSeparate(x);
    WordsOfRewrittenWords(LowerSeparator, x);
  }

  lemma CanonicalNameIsUnsplit(s: string)
    ensures SplitCamelCase(Apply(UnderscoreToSpace, CanonicalName(s))) == CanonicalName(s)
  {
    CanonicalForm(s);
    NothingToSplit(CanonicalName(s));
  }

  lemma CanonicalNameOnlyChangesCase(s: string)
    ensures Lower(CanonicalName(s)) == Lower(Join(PartsOf(s)))
  {
    CanonicalForm(s);
    TitlingOnlyChangesCase(PartsOf(s));
  }

  /** The matching key of a name is the matching key of its canonical form. */
  lemma KeyOfCanonicalName(s: string)
    ensures WhitelistKey(CanonicalName(s)) == WhitelistKey(s)
  {
    KeyFromSplit(s);
    KeyFromSplit(CanonicalName(s));
    CanonicalNameIsUnsplit(s);
    CanonicalNameOnlyChangesCase(s);
    KeyWordsSeeOnlyWords(CanonicalName(s), SplitCamelCase(Apply(UnderscoreToSpace, s)));
  }
}
