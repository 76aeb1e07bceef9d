/** What may be put behind a name without changing the key it is matched by. */
module WhitelistKeys {
  import opened Ascii
  import opened Text
  import opened NameRewrites

  // ---------------------------------------------------------------- no rewrite loses a character

  /** The characters that are not blank. */
  function Ink(s: string): nat
    decreases |s|
  {
    if s == "" then 0 else (if IsSpace(s[0]) then 0 else 1) + Ink(s[1..])
  }

  lemma {:induction false} InkOfConcat(a: string, b: string)
    ensures Ink(a + b) == Ink(a) + Ink(b)
    decreases |a|
  {
    if a == "" {
      assert a + b == b;
    } else {
      InkOfConcat(a[1..], b);
      assert (a + b)[1..] == a[1..] + b;
    }
  }

  lemma {:induction false} NoInk(s: string)
    ensures Ink(s) == 0 <==> Blank(s)
    decreases |s|
  {
    if s != "" {
      NoInk(s[1..]);
      assert Blank(s) ==> Blank(s[1..]);
      assert s == [s[0]] + s[1..];
    }
  }

  lemma {:induction false} InkOfLower(s: string)
    ensures Ink(Lower(s)) == Ink(s)
    decreases |s|
  {
    if s != "" {
      InkOfLower(s[1..]);
      assert Lower(s)[1..] == Lower(s[1..]);
    }
  }

  lemma {:induction false} InkOfWords(s: string)
    ensures Ink(Join(Words(s))) == Ink(s)
    decreases |s|
  {
    if s == "" {
    } else if IsSpace(s[0]) {
      InkOfWords(s[1..]);
    } else {
      var w, rest := s[..RunLength(s)], s[RunLength(s)..];
      assert s == w + rest && Words(s) == [w] + Words(rest);
      InkOfWords(rest);
      InkOfConcat(w, rest);
      InkOfJoin(w, Words(rest));
    }
  }

  lemma InkOfJoin(w: string, ws: seq<string>)
    ensures Ink(Join([w] + ws)) == Ink(w) + Ink(Join(ws))
  {
    if ws != [] {
      assert ([w] + ws)[1..] == ws;
      InkOfConcat(w + " ", Join(ws));
      InkOfConcat(w, " ");
      NoInk(" ");
    }
  }

  lemma InkOfGap(a: string, b: string, rest: string)
    ensures Ink(a + " " + b) + Ink(rest) == Ink(a + b + rest)
  {
    InkOfConcat(a + " ", b);
    InkOfConcat(a, " ");
    NoInk(" ");
    InkOfConcat(a + b, rest);
    InkOfConcat(a, b);
  }

  lemma {:induction false} InkOfSplitLowerUpper(s: string)
    ensures Ink(SplitLowerUpper(s)) == Ink(s)
    decreases |s|
  {
    if s != "" {
      if |s| >= 2 && IsLower(s[0]) && IsUpper(s[1]) {
        InkOfSplitLowerUpper(s[2..]);
        InkOfConcat([s[0], ' ', s[1]], SplitLowerUpper(s[2..]));
        InkOfGap([s[0]], [s[1]], s[2..]);
        assert [s[0]] + " " + [s[1]] == [s[0], ' ', s[1]];
        assert [s[0]] + [s[1]] + s[2..] == s;
      } else {
        InkOfSplitLowerUpper(s[1..]);
        InkOfFirst(s, SplitLowerUpper(s[1..]));
      }
    }
  }

  lemma InkOfFirst(s: string, rest: string)
    requires s != "" && Ink(rest) == Ink(s[1..])
    ensures Ink([s[0]] + rest) == Ink(s)
  {
    assert ([s[0]] + rest)[1..] == rest;
  }

  lemma {:induction false} InkOfSplitAcronym(s: string)
    ensures Ink(SplitAcronym(s)) == Ink(s)
    decreases |s|
  {
    if s != "" {
      var n := UpperRun(s);
      if AcronymStarts(s) {
        InkOfSplitAcronym(s[n + 1..]);
        InkOfStart(s, n, s[n + 1..]);
      } else {
        InkOfSplitAcronym(s[1..]);
        InkOfFirst(s, SplitAcronym(s[1..]));
      }
    }
  }

  lemma InkOfSplice(a: string, b: string, rest: string, split: string)
    requires Ink(split) == Ink(rest)
    ensures Ink(a + " " + b + split) == Ink(a + b + rest)
  {
    InkOfConcat(a + " " + b, split);
    InkOfGap(a, b, rest);
  }

  lemma InkOfStart(s: string, n: nat, rest: string)
    requires AcronymStarts(s) && n == UpperRun(s) && rest == s[n + 1..] && Ink(SplitAcronym(rest)) == Ink(rest)
    ensures Ink(SplitAcronym(s)) == Ink(s)
  {
    var a, b := s[..n - 1], s[n - 1..n + 1];
    SplitAtStart(s, n, AcronymMatch(s, n), rest);
    InkOfSplice(a, b, rest, SplitAcronym(rest));
    ThreePieces(s, n - 1, n + 1);
  }

  lemma ThreePieces(s: string, i: nat, j: nat)
    requires i <= j <= |s|
    ensures s == s[..i] + s[i..j] + s[j..]
  {
  }

  lemma InkOfKey(s: string)
    ensures Ink(WhitelistKey(s)) == Ink(Apply(SeparatorToSpace, s))
  {
    var u := Apply(SeparatorToSpace, s);
    InkOfSplitLowerUpper(u);
    InkOfSplitAcronym(SplitLowerUpper(u));
    InkOfWords(SplitCamelCase(u));
    InkOfLower(Join(Words(SplitCamelCase(u))));
  }

  // ---------------------------------------------------------------- blanks behind a name

  predicate PairStarts(s: string) {
    |s| >= 2 && IsLower(s[0]) && IsUpper(s[1])
  }

  lemma SplitPair(s: string, rest: string)
    requires PairStarts(s) && rest == s[2..]
    ensures SplitLowerUpper(s) == [s[0], ' ', s[1]] + SplitLowerUpper(rest)
  {
  }

  lemma SplitNoPair(s: string, rest: string)
    requires s != "" && !PairStarts(s) && rest == s[1..]
    ensures SplitLowerUpper(s) == [s[0]] + SplitLowerUpper(rest)
  {
  }

  lemma PairBeforeBlanks(a: string, b: string, s: string)
    requires Blank(b) && a != "" && s == a + b
    ensures s[0] == a[0] && s[1..] == a[1..] + b
    ensures PairStarts(s) <==> PairStarts(a)
    ensures PairStarts(a) ==> s[1] == a[1] && s[2..] == a[2..] + b
  {
    if |a| >= 2 {
      assert s[1] == a[1] && s[2..] == a[2..] + b;
    } else if b != "" {
      assert s[1] == b[0];
    }
  }

  lemma OnlyBlanks(a: string, b: string)
    requires a == "" && Blank(b)
    ensures a + b == b && SplitLowerUpper(b) == SplitLowerUpper(a) + b && SplitAcronym(b) == SplitAcronym(a) + b
  {
    NothingToSplit(b);
    assert SplitLowerUpper(a) == a == SplitAcronym(a);
  }

  lemma PairSplitBeforeBlanks(a: string, b: string, s: string, rest: string)
    requires PairStarts(a) && PairStarts(s) && s[0] == a[0] && s[1] == a[1]
    requires rest == a[2..] && s[2..] == rest + b && SplitLowerUpper(rest + b) == SplitLowerUpper(rest) + b
    ensures SplitLowerUpper(s) == SplitLowerUpper(a) + b
  {
    SplitPair(a, rest);
    SplitPair(s, rest + b);
    Regroup([a[0], ' ', a[1]], SplitLowerUpper(rest), b);
  }

  lemma CharSplitBeforeBlanks(a: string, b: string, s: string, rest: string)
    requires a != "" && s != "" && !PairStarts(a) && !PairStarts(s) && s[0] == a[0]
    requires rest == a[1..] && s[1..] == rest + b && SplitLowerUpper(rest + b) == SplitLowerUpper(rest) + b
    ensures SplitLowerUpper(s) == SplitLowerUpper(a) + b
  {
    SplitNoPair(a, rest);
    SplitNoPair(s, rest + b);
    Regroup([a[0]], SplitLowerUpper(rest), b);
  }

  lemma {:induction false} SplitLowerUpperBeforeBlanks(a: string, b: string)
    requires Blank(b)
    ensures SplitLowerUpper(a + b) == SplitLowerUpper(a) + b
    decreases |a|
  {
    if a == "" {
      OnlyBlanks(a, b);
    } else {
      PairBeforeBlanks(a, b, a + b);
      if PairStarts(a) {
        SplitLowerUpperBeforeBlanks(a[2..], b);
        PairSplitBeforeBlanks(a, b, a + b, a[2..]);
      } else {
        SplitLowerUpperBeforeBlanks(a[1..], b);
        CharSplitBeforeBlanks(a, b, a + b, a[1..]);
      }
    }
  }

  lemma {:induction false} UpperRunBeforeBlanks(a: string, b: string)
    requires Blank(b)
    ensures UpperRun(a + b) == UpperRun(a)
    decreases |a|
  {
    var s := a + b;
    if a == "" {
      assert s == b && (b != "" ==> !IsUpper(b[0]));
    } else {
      assert s[0] == a[0] && s[1..] == a[1..] + b;
      UpperRunBeforeBlanks(a[1..], b);
    }
  }

  lemma StartBeforeBlanks(a: string, b: string, s: string, n: nat)
    requires Blank(b) && n == UpperRun(a) && s == a + b
    ensures UpperRun(s) == n && (AcronymStarts(s) <==> AcronymStarts(a))
    ensures AcronymStarts(a) ==> AcronymMatch(s, n) == AcronymMatch(a, n) && s[n + 1..] == a[n + 1..] + b
  {
    UpperRunBeforeBlanks(a, b);
    if n < |a| {
      assert s[n] == a[n];
    } else if b != "" {
      assert s[n] == b[0];
    }
    if AcronymStarts(a) { MatchBefore(a, b, s, n); }
  }

  lemma MatchBefore(a: string, b: string, s: string, n: nat)
    requires 1 <= n < |a| && s == a + b
    ensures AcronymMatch(s, n) == AcronymMatch(a, n) && s[n + 1..] == a[n + 1..] + b
  {
    assert s[..n - 1] == a[..n - 1];
    assert s[n - 1..n + 1] == a[n - 1..n + 1];
  }

  lemma SplitNoStart(s: string, rest: string)
    requires s != "" && !AcronymStarts(s) && rest == s[1..]
    ensures SplitAcronym(s) == [s[0]] + SplitAcronym(rest)
  {
  }

  lemma Regroup(a: string, b: string, c: string)
    ensures a + (b + c) == a + b + c
  {
  }

  lemma StartSplitBeforeBlanks(a: string, b: string, s: string, n: nat, rest: string)
    requires AcronymStarts(a) && AcronymStarts(s) && n == UpperRun(a) == UpperRun(s)
    requires AcronymMatch(s, n) == AcronymMatch(a, n) && rest == a[n + 1..] && s[n + 1..] == rest + b
    requires SplitAcronym(rest + b) == SplitAcronym(rest) + b
    ensures SplitAcronym(s) == SplitAcronym(a) + b
  {
    var head := AcronymMatch(a, n);
    SplitAtStart(a, n, head, rest);
    SplitAtStart(s, n, head, rest + b);
    Regroup(head, SplitAcronym(rest), b);
  }

  lemma NoStartSplitBeforeBlanks(a: string, b: string, s: string, rest: string)
    requires a != "" && s != "" && !AcronymStarts(a) && !AcronymStarts(s) && s[0] == a[0]
    requires rest == a[1..] && s[1..] == rest + b && SplitAcronym(rest + b) == SplitAcronym(rest) + b
    ensures SplitAcronym(s) == SplitAcronym(a) + b
  {
    SplitNoStart(a, rest);
    SplitNoStart(s, rest + b);
    Regroup([a[0]], SplitAcronym(rest), b);
  }

  lemma {:induction false} SplitAcronymBeforeBlanks(a: string, b: string, s: string)
    requires Blank(b) && s == a + b
    ensures SplitAcronym(s) == SplitAcronym(a) + b
    decreases |a|
  {
    if a == "" {
      OnlyBlanks(a, b);
    } else {
      var n := UpperRun(a);
      StartBeforeBlanks(a, b, s, n);
      if AcronymStarts(a) {
        var rest := a[n + 1..];
        SplitAcronymBeforeBlanks(rest, b, rest + b);
        StartSplitBeforeBlanks(a, b, s, n, rest);
      } else {
        var rest := a[1..];
        SplitAcronymBeforeBlanks(rest, b, rest + b);
        TailBefore(a, b, s);
        NoStartSplitBeforeBlanks(a, b, s, rest);
      }
    }
  }

  lemma TailBefore(a: string, b: string, s: string)
    requires a != "" && s == a + b
    ensures s != "" && s[0] == a[0] && s[1..] == a[1..] + b
  {
  }

  lemma {:induction false} BlankHasNoWords(s: string)
    requires Blank(s)
    ensures Words(s) == []
    decreases |s|
  {
    if s != "" { BlankHasNoWords(s[1..]); }
  }

  lemma WordsBeforeBlanks(a: string, b: string)
    requires Blank(b)
    ensures Words(SplitCamelCase(a + b)) == Words(SplitCamelCase(a))
  {
    SplitLowerUpperBeforeBlanks(a, b);
    SplitAcronymBeforeBlanks(SplitLowerUpper(a), b, SplitLowerUpper(a) + b);
    WordsOfConcat(SplitCamelCase(a), b);
    BlankHasNoWords(b);
  }

  /** A name with something behind it keeps its key exactly when all of that is punctuation,
      underscores, hyphens and blanks. */
  lemma SuffixLeavesKey(s: string, x: string)
    ensures WhitelistKey(s + x) == WhitelistKey(s) <==> Blank(Apply(SeparatorToSpace, x))
  {
    var a, b := Apply(SeparatorToSpace, s), Apply(SeparatorToSpace, x);
    ApplyConcat(SeparatorToSpace, s, x);
    if Blank(b) {
      WordsBeforeBlanks(a, b);
    } else {
      InkOfKey(s);
      InkOfKey(s + x);
      InkOfConcat(a, b);
      NoInk(b);
    }
  }
}
