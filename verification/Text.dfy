/** Strings as Python's `str.split`, `" ".join`, `str.strip` and character-wise rewrites
    treat them. */
module Text {
  import opened Ascii

  /** A rewrite of every character by itself. */
  function Apply(f: char -> char, s: string): (r: string)
    ensures |r| == |s|
    ensures forall i | 0 <= i < |s| :: r[i] == f(s[i])
  {
    seq(|s|, i requires 0 <= i < |s| => f(s[i]))
  }

  function Lower(s: string): string { Apply(ToLower, s) }

  function Upper(s: string): string { Apply(ToUpper, s) }

  predicate NoSpace(s: string) {
    forall i | 0 <= i < |s| :: !IsSpace(s[i])
  }

  predicate IsWord(s: string) {
    s != "" && NoSpace(s)
  }

  predicate AreWords(ws: seq<string>) {
    forall i | 0 <= i < |ws| :: IsWord(ws[i])
  }

  /** The length of the leading run without blanks. */
  function RunLength(s: string): (n: nat)
    ensures n <= |s| && NoSpace(s[..n]) && (n < |s| ==> IsSpace(s[n]))
    decreases |s|
  {
    if s == "" || IsSpace(s[0]) then 0 else
      var n := 1 + RunLength(s[1..]);
      assert s[..n] == [s[0]] + s[1..][..n - 1];
      n
  }

  /** `s.split()` */
  function Words(s: string): (ws: seq<string>)
    ensures AreWords(ws)
    decreases |s|
  {
    if s == "" then []
    else if IsSpace(s[0]) then Words(s[1..])
    else [s[..RunLength(s)]] + Words(s[RunLength(s)..])
  }

  /** `" ".join(ws)` */
  function Join(ws: seq<string>): string
    decreases |ws|
  {
    if ws == [] then "" else if |ws| == 1 then ws[0] else ws[0] + " " + Join(ws[1..])
  }

  predicate StartsBlank(s: string) {
    s == "" || IsSpace(s[0])
  }

  lemma {:induction false} RunLengthIs(a: string, b: string)
    requires NoSpace(a) && StartsBlank(b)
    ensures RunLength(a + b) == |a|
    decreases |a|
  {
    if a != "" {
      assert (a + b)[1..] == a[1..] + b;
      RunLengthIs(a[1..], b);
    } else {
      assert a + b == b;
    }
  }

  lemma FirstWord(w: string, rest: string)
    requires IsWord(w) && StartsBlank(rest)
    ensures Words(w + rest) == [w] + Words(rest)
  {
    RunLengthIs(w, rest);
    assert (w + rest)[0] == w[0];
    assert (w + rest)[..|w|] == w && (w + rest)[|w|..] == rest;
  }

  lemma AfterAWord(w: string, rest: string, tail: string, more: seq<string>)
    requires IsWord(w) && StartsBlank(rest) && StartsBlank(tail)
    requires Words(tail) == Words(rest) + more
    ensures Words(w + tail) == Words(w + rest) + more
  {
    FirstWord(w, rest);
    FirstWord(w, tail);
    Associate(w, Words(rest), more);
  }

  lemma Associate<T>(x: T, s: seq<T>, t: seq<T>)
    ensures [x] + (s + t) == ([x] + s) + t
  {
  }

  lemma SplitWord(a: string, b: string) returns (w: string, rest: string)
    requires a != "" && !IsSpace(a[0])
    ensures IsWord(w) && StartsBlank(rest) && |rest| < |a|
    ensures a == w + rest && a + b == w + (rest + b)
  {
    var n := RunLength(a);
    w, rest := a[..n], a[n..];
  }

  lemma {:induction false} WordsOfConcat(a: string, b: string)
    requires StartsBlank(b)
    ensures Words(a + b) == Words(a) + Words(b)
    decreases |a|
  {
    if a == "" {
      assert a + b == b;
    } else if IsSpace(a[0]) {
      assert (a + b)[1..] == a[1..] + b;
      WordsOfConcat(a[1..], b);
    } else {
      var w, rest := SplitWord(a, b);
      WordsOfConcat(rest, b);
      AfterAWord(w, rest, rest + b, Words(b));
    }
  }

  lemma WordsOfWord(w: string)
    requires IsWord(w)
    ensures Words(w) == [w]
  {
    FirstWord(w, "");
    assert w + "" == w;
  }

  lemma WordsBehindBlank(s: string)
    ensures Words(" " + s) == Words(s)
  {
    assert (" " + s)[1..] == s;
  }

  lemma JoinInFront(w: string, ws: seq<string>)
    requires ws != []
    ensures Join([w] + ws) == w + (" " + Join(ws))
  {
    assert ([w] + ws)[1..] == ws;
  }

  lemma {:induction false} WordsOfJoin(ws: seq<string>)
    requires AreWords(ws)
    ensures Words(Join(ws)) == ws
    decreases |ws|
  {
    if |ws| == 1 {
      WordsOfWord(ws[0]);
    } else if |ws| > 1 {
      var w, rest := ws[0], ws[1..];
      WordsOfJoin(rest);
      assert ws == [w] + rest;
      JoinInFront(w, rest);
      WordsBehindBlank(Join(rest));
      FirstWord(w, " " + Join(rest));
    }
  }

  /** A rewrite that keeps blanks blank does not see whether they were collapsed first. */
  predicate KeepsBlanks(f: char -> char) {
    f(' ') == ' ' && forall c {:trigger f(c)} :: IsSpace(c) ==> IsSpace(f(c))
  }

  lemma ApplyConcat(f: char -> char, a: string, b: string)
    ensures Apply(f, a + b) == Apply(f, a) + Apply(f, b)
  {
  }

  lemma RewrittenFirstWord(f: char -> char, w: string, rest: string)
    requires KeepsBlanks(f) && IsWord(w) && StartsBlank(rest)
    requires Words(Apply(f, Join(Words(rest)))) == Words(Apply(f, rest))
    ensures Words(Apply(f, Join([w] + Words(rest)))) == Words(Apply(f, w + rest))
  {
    var ws := Words(rest);
    ApplyConcat(f, w, rest);
    WordsOfConcat(Apply(f, w), Apply(f, rest));
    if ws == [] {
      assert Words(Apply(f, rest)) == Words(Apply(f, "")) == [];
    } else {
      var tail := " " + Join(ws);
      JoinInFront(w, ws);
      ApplyConcat(f, w, tail);
      WordsOfConcat(Apply(f, w), Apply(f, tail));
      assert Apply(f, tail)[1..] == Apply(f, Join(ws));
    }
  }

  lemma {:induction false} WordsOfRewrittenWords(f: char -> char, s: string)
    requires KeepsBlanks(f)
    ensures Words(Apply(f, Join(Words(s)))) == Words(Apply(f, s))
    decreases |s|
  {
    if s == "" {
    } else if IsSpace(s[0]) {
      WordsOfRewrittenWords(f, s[1..]);
      assert Apply(f, s)[1..] == Apply(f, s[1..]);
    } else {
      var w, rest := SplitWord(s, "");
      WordsOfRewrittenWords(f, rest);
      FirstWord(w, rest);
      RewrittenFirstWord(f, w, rest);
    }
  }

  // ---------------------------------------------------------------- strip

  function StripLeft(s: string): (r: string)
    ensures |r| <= |s| && r == s[|s| - |r|..]
    ensures r != "" ==> !IsSpace(r[0])
    decreases |s|
  {
    if s != "" && IsSpace(s[0]) then StripLeft(s[1..]) else s
  }

  function StripRight(s: string): (r: string)
    ensures |r| <= |s| && r == s[..|r|]
    ensures r != "" ==> !IsSpace(r[|r| - 1])
    decreases |s|
  {
    if s != "" && IsSpace(s[|s| - 1]) then StripRight(s[..|s| - 1]) else s
  }

  function Strip(s: string): string {
    StripRight(StripLeft(s))
  }

  predicate Stripped(s: string) {
    s != "" ==> !IsSpace(s[0]) && !IsSpace(s[|s| - 1])
  }

  lemma StripIsStripped(s: string)
    ensures Stripped(Strip(s))
    ensures Stripped(s) ==> Strip(s) == s
  {
  }

  lemma {:induction false} JoinIsStripped(ws: seq<string>)
    requires AreWords(ws)
    ensures Stripped(Join(ws))
    decreases |ws|
  {
    if |ws| > 1 { JoinIsStripped(ws[1..]); }
  }

  /** Strings with others between them. */
  function Weave(outer: seq<string>, inner: seq<string>): string
    requires |outer| == |inner| + 1
    decreases |inner|
  {
    if inner == [] then outer[0] else outer[0] + inner[0] + Weave(outer[1..], inner[1..])
  }

  // ---------------------------------------------------------------- blanks at the ends

  predicate Blank(s: string) {
    forall i | 0 <= i < |s| :: IsSpace(s[i])
  }

  lemma {:induction false} LeftIsBlank(s: string)
    ensures Blank(s[..|s| - |StripLeft(s)|])
    decreases |s|
  {
    if s != "" && IsSpace(s[0]) {
      LeftIsBlank(s[1..]);
      var n := |s| - |StripLeft(s)|;
      assert forall i | 1 <= i < n :: s[..n][i] == s[1..][..n - 1][i - 1];
    }
  }

  lemma {:induction false} RightIsBlank(s: string)
    ensures Blank(s[|StripRight(s)|..])
    decreases |s|
  {
    if s != "" && IsSpace(s[|s| - 1]) {
      var before := s[..|s| - 1];
      RightIsBlank(before);
      assert forall i | |StripRight(s)| <= i < |before| :: s[i] == before[|StripRight(s)|..][i - |StripRight(s)|];
    }
  }

  lemma CutAt(s: string, n: nat) returns (front: string, back: string)
    requires n <= |s|
    ensures front == s[..n] && back == s[n..] && s == front + back
  {
    front, back := s[..n], s[n..];
  }

  lemma LeftBlanks(s: string) returns (blanks: string, rest: string)
    ensures rest == StripLeft(s) && s == blanks + rest && Blank(blanks)
  {
    blanks, rest := CutAt(s, |s| - |StripLeft(s)|);
    LeftIsBlank(s);
  }

  lemma RightBlanks(s: string) returns (rest: string, blanks: string)
    ensures rest == StripRight(s) && s == rest + blanks && Blank(blanks)
  {
    rest, blanks := CutAt(s, |StripRight(s)|);
    RightIsBlank(s);
  }

  /** Stripping takes blanks off both ends, and all of them. */
  lemma StripMeans(s: string) returns (left: string, right: string)
    ensures s == left + Strip(s) + right && Blank(left) && Blank(right) && Stripped(Strip(s))
  {
    var rest, middle;
    left, rest := LeftBlanks(s);
    middle, right := RightBlanks(rest);
    StripIsStripped(s);
    PutTogether(s, left, rest, middle, right);
  }

  lemma PutTogether(s: string, left: string, rest: string, middle: string, right: string)
    requires s == left + rest && rest == middle + right
    ensures s == left + middle + right
  {
  }
}
