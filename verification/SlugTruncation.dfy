/** The loop that cuts a slug at whole parts, and what `slugify` promises of its result. */
module SlugTruncation {
  import opened Lines
  import opened Slugs
  import opened Text

  lemma HyphenatedGrows(parts: seq<string>, i: nat)
    requires i < |parts|
    ensures |Hyphenated(parts[..i + 1])| == |Hyphenated(parts[..i])| + |parts[i]| + (if i == 0 then 0 else 1)
  {
    assert parts[..i + 1] == parts[..i] + [parts[i]];
    if i > 0 { JoinConcat(parts[..i], [parts[i]], '-'); }
  }

  lemma {:induction false} HyphenatedIsSlug(parts: seq<string>)
    requires AreParts(parts)
    ensures IsSlug(Hyphenated(parts))
    ensures parts != [] ==> Hyphenated(parts) != ""
    decreases |parts|
  {
    if parts != [] {
      assert IsPart(parts[0]);
      if |parts| > 1 {
        var rest := Hyphenated(parts[1..]);
        HyphenatedIsSlug(parts[1..]);
        HyphenBetween(parts[0], rest);
      }
    }
  }

  lemma HyphenBetween(p: string, rest: string)
    requires IsPart(p) && IsSlug(rest) && rest != ""
    ensures IsSlug(p + ['-'] + rest)
  {
    var s := p + ['-'] + rest;
    forall i | 0 < i < |s| ensures !DoubledAt(s, i) {
      if i > |p| + 1 { assert !DoubledAt(rest, i - |p| - 1); }
    }
  }

  lemma PartIsSlug(p: string)
    requires forall i | 0 <= i < |p| :: IsAlnum(p[i])
    ensures IsSlug(p)
  {
  }

  lemma NothingToStrip(s: string)
    requires IsSlug(s)
    ensures StripHyphens(s) == s
  {
  }

  lemma SplitGivesParts(parts: seq<string>)
    requires AreParts(parts) && parts != []
    ensures SplitOn(Hyphenated(parts), '-') == parts
  {
    forall i | 0 <= i < |parts| ensures '-' !in parts[i] { assert IsPart(parts[i]); }
    SplitOfJoin(parts, '-');
  }

  lemma {:induction false} RunsOfHyphenated(parts: seq<string>)
    requires AreParts(parts)
    ensures Runs(Hyphenated(parts)) == parts
    decreases |parts|
  {
    if parts != [] {
      var p, more := parts[0], parts[1..];
      assert IsPart(p);
      if more == [] {
        FirstRun(p, "");
        assert p + "" == p;
      } else {
        RunsOfHyphenated(more);
        var rest := ['-'] + Hyphenated(more);
        DropFirstKeepsRuns(rest);
        FirstRun(p, rest);
        assert Hyphenated(parts) == p + rest && rest[1..] == Hyphenated(more);
      }
    }
  }

  /** `slugify` */
  method SlugifyText(text: string, maxLen: int := 80) returns (r: string)
    ensures r == Slugify(text, maxLen)
  {
    if text == "" {
      return "";
    }
    var slug := Collapse(IsOther, Lower(Strip(text)));
    slug := StripHyphens(Collapse(IsHyphen, slug));
    ghost var runs := Runs(Lower(text));
    PipelineJoinsRuns(text);
    RunsAreParts(Lower(text));
    HyphenatedIsSlug(runs);
    if slug == "" {
      return "";
    }
    if |slug| <= maxLen {
      return slug;
    }
    SplitGivesParts(runs);
    r := CutAtParts(slug, SplitOn(slug, '-'), maxLen);
  }

  /** The truncation loop. */
  method CutAtParts(slug: string, parts: seq<string>, maxLen: int) returns (r: string)
    requires AreParts(parts) && parts != []
    ensures r == if |parts[0]| > maxLen then Prefix(parts[0], maxLen)
                 else Hyphenated(parts[..FitCount(parts, maxLen, 1)])
  {
    var collected: seq<string> := [];
    var total := 0;
    for i := 0 to |parts|
      invariant collected == parts[..i] && total == |Hyphenated(collected)|
      invariant i > 0 ==> |parts[0]| <= maxLen && FitCount(parts, maxLen, i) == FitCount(parts, maxLen, 1)
    {
      var part := parts[i];
      HyphenatedGrows(parts, i);
      var nextLen := if collected == [] then |part| else |part| + 1;
      if collected != [] && total + nextLen > maxLen {
        break;
      }
      if collected == [] && |part| > maxLen {
        assert IsPart(part);
        PartIsSlug(Prefix(part, maxLen));
        NothingToStrip(Prefix(part, maxLen));
        return StripHyphens(Prefix(part, maxLen));
      }
      collected := collected + [part];
      total := total + nextLen;
    }
    HyphenatedIsSlug(collected);
    NothingToStrip(Hyphenated(collected));
    var truncated := StripHyphens(Hyphenated(collected));
    r := if truncated != "" then truncated else StripHyphens(Prefix(slug, maxLen));
  }

  // ---------------------------------------------------------------- theorems

  /** Only letters, digits and single inner hyphens. */
  lemma SlugIsWellFormed(text: string, maxLen: int)
    ensures IsSlug(Slugify(text, maxLen))
  {
    var parts := Runs(Lower(text));
    RunsAreParts(Lower(text));
    HyphenatedIsSlug(parts);
    if parts != [] {
      assert IsPart(parts[0]);
      PartIsSlug(Prefix(parts[0], maxLen));
      HyphenatedIsSlug(parts[..FitCount(parts, maxLen, 1)]);
    }
  }

  lemma {:induction false} FitCountFits(parts: seq<string>, maxLen: int, n: nat)
    requires n <= |parts| && |Hyphenated(parts[..n])| <= maxLen
    ensures var m := FitCount(parts, maxLen, n);
            |Hyphenated(parts[..m])| <= maxLen && forall k | m < k <= |parts| :: |Hyphenated(parts[..k])| > maxLen
    decreases |parts| - n
  {
    if n < |parts| {
      if |Hyphenated(parts[..n + 1])| <= maxLen {
        FitCountFits(parts, maxLen, n + 1);
      } else {
        forall k | n < k <= |parts| ensures |Hyphenated(parts[..k])| > maxLen { LongerWithMore(parts, n + 1, k); }
      }
    }
  }

  lemma {:induction false} LongerWithMore(parts: seq<string>, n: nat, k: nat)
    requires n <= k <= |parts|
    ensures |Hyphenated(parts[..n])| <= |Hyphenated(parts[..k])|
    decreases k
  {
    if n < k {
      LongerWithMore(parts, n, k - 1);
      HyphenatedGrows(parts, k - 1);
    }
  }

  /** The bound is kept for every text, unless it is negative, which no length meets. */
  lemma SlugFits(text: string, maxLen: int)
    ensures |Slugify(text, maxLen)| <= maxLen <==> maxLen >= 0
  {
    var parts := Runs(Lower(text));
    if parts != [] && |parts[0]| <= maxLen {
      assert parts[..1] == [parts[0]];
      FitCountFits(parts, maxLen, 1);
    }
  }

  /** Whenever the first part fits, the slug is the longest run of whole parts that fits. */
  lemma SlugIsTheLongestFit(text: string, maxLen: int) returns (m: nat)
    requires var parts := Runs(Lower(text)); parts != [] && |parts[0]| <= maxLen
    ensures var parts := Runs(Lower(text));
            && 1 <= m <= |parts| && Slugify(text, maxLen) == Hyphenated(parts[..m])
            && |Hyphenated(parts[..m])| <= maxLen
            && Runs(Slugify(text, maxLen)) == parts[..m]
            && forall k | m < k <= |parts| :: |Hyphenated(parts[..k])| > maxLen
  {
    var parts := Runs(Lower(text));
    RunsAreParts(Lower(text));
    assert parts[..1] == [parts[0]] && parts[..|parts|] == parts;
    m := FitCount(parts, maxLen, 1);
    FitCountFits(parts, maxLen, 1);
    if |Hyphenated(parts)| <= maxLen {
      m := |parts|;
    }
    RunsOfHyphenated(parts[..m]);
  }

  /** Otherwise it is as much of the first part as fits. */
  lemma LongFirstPartIsCut(text: string, maxLen: nat)
    requires var parts := Runs(Lower(text)); parts != [] && |parts[0]| > maxLen
    ensures Slugify(text, maxLen) == Runs(Lower(text))[0][..maxLen]
  {
    LongerWithMore(Runs(Lower(text)), 1, |Runs(Lower(text))|);
    HyphenatedGrows(Runs(Lower(text)), 0);
  }

  lemma {:induction false} LowerOfSlug(s: string)
    requires SlugCharacters(s)
    ensures Lower(s) == s
  {
  }

  /** A slug's slug is itself, unless the bound is negative and cuts less than the whole first
      part. */
  lemma SlugifyingTwice(text: string, maxLen: int)
    ensures var r := Slugify(text, maxLen);
            var parts := Runs(Lower(text));
            Slugify(r, maxLen) == r <==> maxLen >= 0 || parts == [] || |parts[0]| + maxLen <= 0
  {
    var r := Slugify(text, maxLen);
    EmptySlugExactly(text, maxLen);
    SlugIsWellFormed(text, maxLen);
    LowerOfSlug(r);
    SlugIsItsRuns(r);
    SlugFits(text, maxLen);
    if maxLen < 0 && r != "" {
      NegativeBoundCuts(r, maxLen);
    }
  }

  lemma EmptySlugExactly(text: string, maxLen: int)
    ensures var parts := Runs(Lower(text));
            maxLen < 0 ==> (Slugify(text, maxLen) == "" <==> parts == [] || |parts[0]| + maxLen <= 0)
  {
  }

  lemma NegativeBoundCuts(s: string, maxLen: int)
    requires IsSlug(s) && s != "" && maxLen < 0
    ensures |Slugify(s, maxLen)| < |s|
  {
  }

  lemma RunsOfPart(p: string)
    requires IsPart(p)
    ensures Lower(p) == p && Runs(p) == [p]
  {
    FirstRun(p, "");
    assert p + "" == p;
  }

  lemma PartWithNegativeBound(p: string, maxLen: int)
    requires IsPart(p) && maxLen < 0
    ensures Slugify(p, maxLen) == Prefix(p, maxLen)
  {
    RunsOfPart(p);
  }

  /** With a bound of -1, the slug of "abc" is "ab", and that one's is "a". */
  lemma NegativeBoundExample()
    ensures Slugify("abc", -1) == "ab" && Slugify("ab", -1) == "a"
  {
    PartWithNegativeBound("abc", -1);
    PartWithNegativeBound("ab", -1);
    assert "abc"[..2] == "ab" && "ab"[..1] == "a";
  }
}
