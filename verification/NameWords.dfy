/** The canonicaliser's rewrites told from the name: where a name is split, which pieces it
    consists of, and what each rewrite makes of them. */
module NameWords {
  import opened Ascii
  import opened Text
  import opened NameRewrites
  import opened Canonicaliser
  import WhitelistKeys

  // ---------------------------------------------------------------- where a name is split

  /** A capital behind a small letter, or the last capital of a run that a small letter follows. */
  predicate SplitsBefore(s: string, i: nat) {
    && 0 < i < |s| && IsUpper(s[i])
    && (IsLower(s[i - 1]) || (IsUpper(s[i - 1]) && i + 1 < |s| && IsLower(s[i + 1])))
  }

  /** The text from a place on, with a blank before every such capital. */
  function Spaced(s: string, i: nat): string
    requires i <= |s|
    decreases |s| - i
  {
    if i == |s| then ""
    else (if SplitsBefore(s, i) then " " else "") + [s[i]] + Spaced(s, i + 1)
  }

  /** The first pass, for a text behind a character. */
  function Pairs(before: char, s: string): string
    decreases |s|
  {
    if s == "" then ""
    else (if IsLower(before) && IsUpper(s[0]) then " " else "") + [s[0]] + Pairs(s[0], s[1..])
  }

  predicate RunEnds(before: char, s: string) {
    IsUpper(before) && |s| >= 2 && IsUpper(s[0]) && IsLower(s[1])
  }

  /** The second pass. */
  function Runs(before: char, s: string): string
    decreases |s|
  {
    if s == "" then ""
    else (if RunEnds(before, s) then " " else "") + [s[0]] + Runs(s[0], s[1..])
  }

  /** Both at once. */
  function Both(before: char, s: string): string
    decreases |s|
  {
    if s == "" then ""
    else (if (IsLower(before) && IsUpper(s[0])) || RunEnds(before, s) then " " else "") + [s[0]] + Both(s[0], s[1..])
  }

  lemma PairsBehind(before: char, s: string)
    requires !IsLower(before) || s == "" || !IsUpper(s[0])
    ensures Pairs(before, s) == Pairs(' ', s)
  {
  }

  lemma RunsBehind(before: char, s: string)
    requires !RunEnds(before, s)
    ensures Runs(before, s) == Runs(' ', s)
  {
  }

  lemma {:induction false} FirstPassIs(s: string)
    ensures SplitLowerUpper(s) == Pairs(' ', s)
    decreases |s|
  {
    if s != "" {
      if |s| >= 2 && IsLower(s[0]) && IsUpper(s[1]) {
        FirstPassIs(s[2..]);
        PairsBehind(s[1], s[2..]);
        PairSplits(s);
      } else {
        FirstPassIs(s[1..]);
        PairsBehind(s[0], s[1..]);
        assert Pairs(' ', s) == "" + [s[0]] + Pairs(s[0], s[1..]);
      }
    }
  }

  lemma PairSplits(s: string)
    requires |s| >= 2 && IsLower(s[0]) && IsUpper(s[1])
    ensures Pairs(' ', s) == [s[0], ' ', s[1]] + Pairs(s[1], s[2..])
  {
    var rest := s[1..];
    assert rest[1..] == s[2..];
    assert Pairs(s[0], rest) == " " + [s[1]] + Pairs(s[1], s[2..]);
    assert Pairs(' ', s) == "" + [s[0]] + Pairs(s[0], rest);
  }

  lemma OneCharacter(before: char, c: char, after: string)
    ensures Runs(before, [c] + after)
         == (if RunEnds(before, [c] + after) then " " else "") + [c] + Runs(c, after)
  {
    assert ([c] + after)[1..] == after;
  }

  /** A run of capitals in front of a small letter is copied up to its last capital. */
  lemma {:induction false} RunSplits(before: char, head: string, c: char, d: char, tail: string)
    requires (forall i | 0 <= i < |head| :: IsUpper(head[i])) && IsUpper(c) && IsLower(d)
    requires IsUpper(before) || head != ""
    ensures Runs(before, head + ([c] + ([d] + tail))) == head + (" " + ([c] + ([d] + Runs(d, tail))))
    decreases |head|
  {
    var rest := [c] + ([d] + tail);
    if head == "" {
      assert head + rest == rest;
      OneCharacter(before, c, [d] + tail);
      OneCharacter(c, d, tail);
      assert "" + [d] + Runs(d, tail) == [d] + Runs(d, tail);
    } else {
      var more := head[1..];
      assert head + rest == [head[0]] + (more + rest);
      assert (more + rest)[0] == if more == "" then c else more[0];
      OneCharacter(before, head[0], more + rest);
      RunSplits(head[0], more, c, d, tail);
      MoveOut(head, more, " " + ([c] + ([d] + Runs(d, tail))));
    }
  }

  lemma MoveOut(head: string, more: string, tail: string)
    requires head != "" && more == head[1..]
    ensures "" + [head[0]] + (more + tail) == head + tail
  {
  }

  lemma CutAtRun(s: string, n: nat) returns (head: string, tail: string)
    requires AcronymStarts(s) && n == UpperRun(s)
    ensures head == s[..n - 1] && tail == s[n + 1..] && s == head + ([s[n - 1]] + ([s[n]] + tail))
    ensures AcronymMatch(s, n) == head + " " + ([s[n - 1]] + [s[n]])
  {
    head, tail := s[..n - 1], s[n + 1..];
    assert s[n - 1..n + 1] == [s[n - 1]] + [s[n]];
  }

  lemma RegroupMatch(head: string, c: char, d: char, rest: string)
    ensures head + " " + ([c] + [d]) + rest == head + (" " + ([c] + ([d] + rest)))
  {
  }

  lemma {:induction false} SecondPassIs(s: string)
    ensures SplitAcronym(s) == Runs(' ', s)
    decreases |s|
  {
    if s != "" {
      if AcronymStarts(s) {
        var n := UpperRun(s);
        var head, tail := CutAtRun(s, n);
        SecondPassIs(tail);
        RunsBehind(s[n], tail);
        RunSplits(' ', head, s[n - 1], s[n], tail);
        RegroupMatch(head, s[n - 1], s[n], SplitAcronym(tail));
        SplitAtStart(s, n, AcronymMatch(s, n), tail);
      } else {
        SecondPassIs(s[1..]);
        RunEndsAtStart(s);
        CopyFirst(s);
      }
    }
  }

  lemma RunEndsAtStart(s: string)
    requires s != ""
    ensures RunEnds(s[0], s[1..]) ==> AcronymStarts(s)
  {
    if RunEnds(s[0], s[1..]) {
      assert UpperRun(s[1..][1..]) == 0 && UpperRun(s[1..]) == 1 && UpperRun(s) == 2;
    }
  }

  lemma CopyFirst(s: string)
    requires s != "" && !AcronymStarts(s) && !RunEnds(s[0], s[1..])
    requires SplitAcronym(s[1..]) == Runs(' ', s[1..])
    ensures SplitAcronym(s) == Runs(' ', s)
  {
    WhitelistKeys.SplitNoStart(s, s[1..]);
    RunsBehind(s[0], s[1..]);
    assert "" + [s[0]] + Runs(s[0], s[1..]) == [s[0]] + Runs(s[0], s[1..]);
  }

  lemma {:induction false} PassesTogether(before: char, s: string)
    ensures Runs(before, Pairs(before, s)) == Both(before, s)
    decreases |s|
  {
    if s != "" {
      var rest := s[1..];
      var after := Pairs(s[0], rest);
      PassesTogether(s[0], rest);
      if IsLower(before) && IsUpper(s[0]) {
        BlankThenCapital(before, s[0], after);
      } else {
        if IsUpper(s[0]) {
          FirstOfPairs(s);
        }
        assert Pairs(before, s) == [s[0]] + after;
        OneCharacter(before, s[0], after);
      }
    }
  }

  lemma FirstOfPairs(s: string)
    requires s != "" && IsUpper(s[0])
    ensures var after := Pairs(s[0], s[1..]);
            (|s| >= 2 ==> |after| >= 1 && after[0] == s[1]) && (|s| == 1 ==> after == "")
  {
  }

  lemma BlankThenCapital(before: char, c: char, after: string)
    requires IsLower(before)
    ensures Runs(before, " " + [c] + after) == " " + [c] + Runs(c, after)
  {
    var t, u := " " + [c] + after, [c] + after;
    assert t[1..] == u && u[1..] == after;
    assert Runs(' ', u) == "" + [c] + Runs(c, after);
    assert Runs(before, t) == "" + [' '] + Runs(' ', u);
  }

  function CharBefore(s: string, i: nat): char
    requires i <= |s|
  {
    if i == 0 then ' ' else s[i - 1]
  }

  lemma {:induction false} BothIsSpaced(s: string, i: nat)
    requires i <= |s|
    ensures Both(CharBefore(s, i), s[i..]) == Spaced(s, i)
    decreases |s| - i
  {
    if i < |s| {
      BothIsSpaced(s, i + 1);
      var rest := s[i..];
      assert rest[1..] == s[i + 1..] && rest[0] == s[i];
      assert |rest| >= 2 ==> rest[1] == s[i + 1];
    }
  }

  /** The two passes put a blank before exactly these capitals of the name as it came. */
  lemma SplitsAtCapitals(s: string)
    ensures SplitCamelCase(s) == Spaced(s, 0)
  {
    FirstPassIs(s);
    SecondPassIs(Pairs(' ', s));
    PassesTogether(' ', s);
    BothIsSpaced(s, 0);
    assert s[0..] == s;
  }

  // ---------------------------------------------------------------- the pieces of a name

  predicate IsGap(punctuation: string, c: char) {
    IsSpace(c) || c in punctuation
  }

  predicate Gap(punctuation: string, s: string) {
    forall i | 0 <= i < |s| :: IsGap(punctuation, s[i])
  }

  predicate Piece(punctuation: string, s: string) {
    s != "" && forall i | 0 <= i < |s| :: !IsGap(punctuation, s[i])
  }

  /** Pieces without blanks and punctuation, with something of those between any two. */
  predicate Pieces(punctuation: string, gaps: seq<string>, ws: seq<string>) {
    && |gaps| == |ws| + 1
    && (forall i | 0 <= i < |ws| :: Piece(punctuation, ws[i]))
    && (forall i | 0 <= i < |gaps| :: Gap(punctuation, gaps[i]))
    && (forall i | 0 < i < |ws| :: gaps[i] != "")
  }

  /** Every text consists of such pieces. */
  lemma {:induction false} CutIntoPieces(punctuation: string, s: string) returns (gaps: seq<string>, ws: seq<string>)
    ensures Pieces(punctuation, gaps, ws) && s == Weave(gaps, ws)
    ensures ws != [] && gaps[0] == "" ==> s != "" && !IsGap(punctuation, s[0])
    decreases |s|
  {
    if s == "" {
      gaps, ws := [""], [];
    } else {
      var g, v := CutIntoPieces(punctuation, s[1..]);
      if IsGap(punctuation, s[0]) {
        gaps, ws := [[s[0]] + g[0]] + g[1..], v;
        GapInFront(s[0], g, v);
      } else if v != [] && g[0] == "" {
        gaps, ws := g, [[s[0]] + v[0]] + v[1..];
        PieceInFront(s[0], g, v);
      } else {
        gaps, ws := [""] + g, [[s[0]]] + v;
        NewPiece(s[0], g, v);
      }
    }
  }

  lemma GapInFront(c: char, gaps: seq<string>, ws: seq<string>)
    requires |gaps| == |ws| + 1
    ensures Weave([[c] + gaps[0]] + gaps[1..], ws) == [c] + Weave(gaps, ws)
  {
    var more := [[c] + gaps[0]] + gaps[1..];
    assert more[1..] == gaps[1..];
    if ws != [] {
      var rest := Weave(gaps[1..], ws[1..]);
      assert [c] + gaps[0] + ws[0] + rest == [c] + (gaps[0] + ws[0] + rest);
    }
  }

  lemma PieceInFront(c: char, gaps: seq<string>, ws: seq<string>)
    requires |gaps| == |ws| + 1 && ws != [] && gaps[0] == ""
    ensures Weave(gaps, [[c] + ws[0]] + ws[1..]) == [c] + Weave(gaps, ws)
  {
    var more := [[c] + ws[0]] + ws[1..];
    assert more[1..] == ws[1..];
    var rest := Weave(gaps[1..], ws[1..]);
    assert "" + ([c] + ws[0]) + rest == [c] + ("" + ws[0] + rest);
  }

  lemma NewPiece(c: char, gaps: seq<string>, ws: seq<string>)
    requires |gaps| == |ws| + 1
    ensures Weave([""] + gaps, [[c]] + ws) == [c] + Weave(gaps, ws)
  {
    var more, pieces := [""] + gaps, [[c]] + ws;
    assert more[1..] == gaps && pieces[1..] == ws;
    assert "" + [c] + Weave(gaps, ws) == [c] + Weave(gaps, ws);
  }

  // ---------------------------------------------------------------- what becomes of the pieces

  /** Punctuation is rewritten to blanks and no other character to one. */
  predicate Blanks(f: char -> char, punctuation: string, s: string) {
    forall i | 0 <= i < |s| :: IsSpace(f(s[i])) <==> IsGap(punctuation, s[i])
  }

  function Rewritten(f: char -> char, ws: seq<string>): (r: seq<string>)
    ensures |r| == |ws| && forall i | 0 <= i < |ws| :: r[i] == Apply(f, ws[i])
  {
    seq(|ws|, i requires 0 <= i < |ws| => Apply(f, ws[i]))
  }

  lemma {:induction false} BlankInFront(blank: string, s: string)
    requires forall i | 0 <= i < |blank| :: IsSpace(blank[i])
    ensures Words(blank + s) == Words(s)
    decreases |blank|
  {
    if blank == "" {
      assert blank + s == s;
    } else {
      BlankInFront(blank[1..], s);
      assert (blank + s)[1..] == blank[1..] + s;
    }
  }

  lemma WeaveStartsBlank(f: char -> char, punctuation: string, gaps: seq<string>, ws: seq<string>)
    requires Pieces(punctuation, gaps, ws) && (ws != [] ==> gaps[0] != "")
    requires Blanks(f, punctuation, Weave(gaps, ws))
    ensures StartsBlank(Apply(f, Weave(gaps, ws)))
  {
    var s := Weave(gaps, ws);
    if gaps[0] != "" {
      assert s[0] == gaps[0][0];
    }
  }

  /** Split into words, the rewritten text has the rewritten pieces. */
  lemma {:induction false} WordsOfPieces(f: char -> char, punctuation: string, gaps: seq<string>, ws: seq<string>)
    requires Pieces(punctuation, gaps, ws) && Blanks(f, punctuation, Weave(gaps, ws))
    ensures Words(Apply(f, Weave(gaps, ws))) == Rewritten(f, ws)
    decreases |ws|
  {
    if ws == [] {
      OnlyGap(f, punctuation, gaps[0]);
    } else {
      var gap, w, rest := gaps[0], ws[0], Weave(gaps[1..], ws[1..]);
      SplitBlanks(f, punctuation, gap, w, rest);
      WordsOfPieces(f, punctuation, gaps[1..], ws[1..]);
      if |ws| > 1 { assert gaps[1..][0] == gaps[1] != ""; }
      WeaveStartsBlank(f, punctuation, gaps[1..], ws[1..]);
      OneMorePiece(f, punctuation, gap, w, rest);
      assert Rewritten(f, ws) == [Apply(f, w)] + Rewritten(f, ws[1..]);
    }
  }

  lemma OnlyGap(f: char -> char, punctuation: string, gap: string)
    requires Gap(punctuation, gap) && Blanks(f, punctuation, gap)
    ensures Words(Apply(f, gap)) == []
  {
    var blank := Apply(f, gap);
    BlankInFront(blank, "");
    assert blank + "" == blank;
  }

  lemma SplitBlanks(f: char -> char, punctuation: string, gap: string, w: string, rest: string)
    requires Blanks(f, punctuation, gap + w + rest)
    ensures Blanks(f, punctuation, gap) && Blanks(f, punctuation, w) && Blanks(f, punctuation, rest)
  {
    var s := gap + w + rest;
    assert forall i | 0 <= i < |gap| :: s[i] == gap[i];
    assert forall i | 0 <= i < |w| :: s[|gap| + i] == w[i];
    assert forall i | 0 <= i < |rest| :: s[|gap| + |w| + i] == rest[i];
  }

  lemma OneMorePiece(f: char -> char, punctuation: string, gap: string, w: string, rest: string)
    requires Gap(punctuation, gap) && Piece(punctuation, w)
    requires Blanks(f, punctuation, gap) && Blanks(f, punctuation, w) && StartsBlank(Apply(f, rest))
    ensures Words(Apply(f, gap + w + rest)) == [Apply(f, w)] + Words(Apply(f, rest))
  {
    ApplyConcat(f, gap + w, rest);
    ApplyConcat(f, gap, w);
    var g, v, r := Apply(f, gap), Apply(f, w), Apply(f, rest);
    assert g + v + r == g + (v + r);
    BlankInFront(g, v + r);
    FirstWord(v, r);
  }

  // ---------------------------------------------------------------- the three rewrites

  /** Punctuation becomes a blank and everything else stays. */
  ghost predicate DropsOnly(f: char -> char, punctuation: string) {
    forall c {:trigger f(c)} :: f(c) == if c in punctuation then ' ' else c
  }

  lemma PieceStays(f: char -> char, punctuation: string, w: string)
    requires DropsOnly(f, punctuation) && Piece(punctuation, w)
    ensures Apply(f, w) == w && IsWord(w)
  {
  }

  lemma PiecesStay(f: char -> char, punctuation: string, gaps: seq<string>, ws: seq<string>)
    requires DropsOnly(f, punctuation) && Pieces(punctuation, gaps, ws)
    ensures Words(Apply(f, Weave(gaps, ws))) == ws && AreWords(ws)
  {
    WordsOfPieces(f, punctuation, gaps, ws);
    forall i | 0 <= i < |ws|
      ensures Rewritten(f, ws)[i] == ws[i] && IsWord(ws[i])
    {
      PieceStays(f, punctuation, ws[i]);
    }
    assert Rewritten(f, ws) == ws;
  }

  function LowerHyphen(c: char): char {
    HyphenToSpace(ToLower(c))
  }

  lemma LoweredPieces(gaps: seq<string>, ws: seq<string>)
    requires Pieces("_-", gaps, ws)
    ensures Rewritten(LowerHyphen, ws) == LowerWords(ws)
  {
    forall i | 0 <= i < |ws|
      ensures Rewritten(LowerHyphen, ws)[i] == LowerWords(ws)[i]
    {
      assert Apply(LowerHyphen, ws[i]) == Lower(ws[i]);
    }
  }

  /** The name a reject list is searched for: the name's pieces between blanks, underscores and
      hyphens, in small letters. */
  lemma RejectNameMeans(name: string, gaps: seq<string>, ws: seq<string>)
    requires Pieces("_-", gaps, ws) && name == Weave(gaps, ws)
    ensures NormaliseForReject(name) == Join(LowerWords(ws))
  {
    assert Apply(HyphenToSpace, Lower(name)) == Apply(LowerHyphen, name);
    WordsOfPieces(LowerHyphen, "_-", gaps, ws);
    LoweredPieces(gaps, ws);
  }

  /** The canonical name: the pieces between blanks and underscores of the name spaced at its
      capitals, each in title case. */
  lemma CanonicalNameMeans(name: string, gaps: seq<string>, ws: seq<string>)
    requires Pieces("_", gaps, ws) && Spaced(name, 0) == Weave(gaps, ws)
    ensures CanonicalName(name) == Join(TitleWords(ws))
  {
    SplitsAtCapitals(name);
    SplitCommutes(UnderscoreToSpace, name);
    PiecesStay(UnderscoreToSpace, "_", gaps, ws);
    CanonicalForm(name);
  }

  /** The matching key: the pieces between blanks and punctuation of the name spaced at its
      capitals, in small letters. */
  lemma WhitelistKeyMeans(name: string, gaps: seq<string>, ws: seq<string>)
    requires Pieces("().[]{}&+,;:!?\"'_-", gaps, ws) && Spaced(name, 0) == Weave(gaps, ws)
    ensures WhitelistKey(name) == Join(LowerWords(ws))
  {
    SplitsAtCapitals(name);
    SplitCommutes(SeparatorToSpace, name);
    PiecesStay(SeparatorToSpace, "().[]{}&+,;:!?\"'_-", gaps, ws);
    LowerKeepsWords(ws);
  }
}
