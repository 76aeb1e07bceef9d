/** Splitting text at a separator and joining it again, as `str.split(sep)` and `sep.join`
    do; `extract_by_lines` is a slice between the two. */
module Lines {

  function SplitOn(s: string, sep: char): (parts: seq<string>)
    ensures parts != []
    ensures forall i | 0 <= i < |parts| :: sep !in parts[i]
    decreases |s|
  {
    if s == "" then [""]
    else
      var rest := SplitOn(s[1..], sep);
      if s[0] == sep then [""] + rest else [[s[0]] + rest[0]] + rest[1..]
  }

  function JoinWith(parts: seq<string>, sep: char): string
    decreases |parts|
  {
    if parts == [] then "" else if |parts| == 1 then parts[0] else parts[0] + [sep] + JoinWith(parts[1..], sep)
  }

  lemma {:induction false} JoinOfSplit(s: string, sep: char)
    ensures JoinWith(SplitOn(s, sep), sep) == s
    decreases |s|
  {
    if s != "" {
      JoinOfSplit(s[1..], sep);
      var rest := SplitOn(s[1..], sep);
      if s[0] == sep {
        assert ([""] + rest)[1..] == rest;
      } else {
        PrependFirst(s[0], rest, sep);
      }
    }
  }

  lemma PrependFirst(c: char, parts: seq<string>, sep: char)
    requires parts != []
    ensures JoinWith([[c] + parts[0]] + parts[1..], sep) == [c] + JoinWith(parts, sep)
  {
  }

  lemma {:induction false} SplitOfWord(w: string, sep: char)
    requires sep !in w
    ensures SplitOn(w, sep) == [w]
    decreases |w|
  {
    if w != "" {
      SplitOfWord(w[1..], sep);
      assert w == [w[0]] + w[1..];
    }
  }

  lemma {:induction false} SplitAfterWord(w: string, s: string, sep: char)
    requires sep !in w
    ensures SplitOn(w + [sep] + s, sep) == [w] + SplitOn(s, sep)
    decreases |w|
  {
    var whole := w + [sep] + s;
    if w == "" {
      assert whole[1..] == s;
    } else {
      SplitAfterWord(w[1..], s, sep);
      assert whole[1..] == w[1..] + [sep] + s;
      assert w == [w[0]] + w[1..];
    }
  }

  lemma {:induction false} SplitOfJoin(parts: seq<string>, sep: char)
    requires parts != [] && forall i | 0 <= i < |parts| :: sep !in parts[i]
    ensures SplitOn(JoinWith(parts, sep), sep) == parts
    decreases |parts|
  {
    if |parts| == 1 {
      SplitOfWord(parts[0], sep);
    } else {
      SplitOfJoin(parts[1..], sep);
      SplitAfterWord(parts[0], JoinWith(parts[1..], sep), sep);
    }
  }

  lemma {:induction false} JoinConcat(a: seq<string>, b: seq<string>, sep: char)
    requires a != [] && b != []
    ensures JoinWith(a + b, sep) == JoinWith(a, sep) + [sep] + JoinWith(b, sep)
    decreases |a|
  {
    if |a| == 1 {
      assert (a + b)[1..] == b;
    } else {
      JoinConcat(a[1..], b, sep);
      assert (a + b)[1..] == a[1..] + b;
    }
  }

  // ---------------------------------------------------------------- extract_by_lines

  predicate InRange(lines: seq<string>, start: int, end: int) {
    1 <= start <= end <= |lines|
  }

  /** Lines count from one; the range includes both ends. */
  function ExtractByLines(code: string, start: int, end: int): string {
    var lines := SplitOn(code, '\n');
    if InRange(lines, start, end) then JoinWith(lines[start - 1..end], '\n') else ""
  }

  /** What stands above the range: lines, each with the break that ends it. */
  function Above(lines: seq<string>): string
    decreases |lines|
  {
    if lines == [] then "" else lines[0] + ['\n'] + Above(lines[1..])
  }

  /** What stands below the range: lines, each with the break that starts it. */
  function Below(lines: seq<string>): string
    decreases |lines|
  {
    if lines == [] then "" else ['\n'] + lines[0] + Below(lines[1..])
  }

  lemma {:induction false} JoinAbove(a: seq<string>, m: seq<string>)
    requires m != []
    ensures JoinWith(a + m, '\n') == Above(a) + JoinWith(m, '\n')
    decreases |a|
  {
    if a == [] {
      assert a + m == m;
    } else {
      JoinAbove(a[1..], m);
      assert (a + m)[1..] == a[1..] + m;
      Associate(a[0] + ['\n'], Above(a[1..]), JoinWith(m, '\n'));
    }
  }

  lemma {:induction false} JoinBelow(m: seq<string>, b: seq<string>)
    requires m != []
    ensures JoinWith(m + b, '\n') == JoinWith(m, '\n') + Below(b)
    decreases |m| + |b|
  {
    if |m| > 1 {
      JoinBelow(m[1..], b);
      assert (m + b)[1..] == m[1..] + b;
      Associate(m[0] + ['\n'], JoinWith(m[1..], '\n'), Below(b));
    } else if b == [] {
      assert m + b == m;
    } else {
      JoinBelow(b[..1], b[1..]);
      assert b == b[..1] + b[1..] == (m + b)[1..];
      Associate(m[0] + ['\n'], b[0], Below(b[1..]));
      Associate(m[0], ['\n'] + b[0], Below(b[1..]));
      Associate(m[0], ['\n'], b[0]);
    }
  }

  lemma Associate(a: string, b: string, c: string)
    ensures a + b + c == a + (b + c)
  {
  }

  lemma JoinThree(lines: seq<string>, a: seq<string>, m: seq<string>, b: seq<string>)
    requires m != [] && lines == a + m + b
    ensures JoinWith(lines, '\n') == Above(a) + JoinWith(m, '\n') + Below(b)
  {
    JoinBelow(a + m, b);
    JoinAbove(a, m);
  }

  lemma ThreeParts(lines: seq<string>, from: int, to: int)
    requires 0 <= from <= to <= |lines|
    ensures lines == lines[..from] + lines[from..to] + lines[to..]
  {
  }

  lemma JoinAround(lines: seq<string>, from: int, to: int)
    requires 0 <= from < to <= |lines|
    ensures JoinWith(lines, '\n') == Above(lines[..from]) + JoinWith(lines[from..to], '\n') + Below(lines[to..])
  {
    ThreeParts(lines, from, to);
    JoinThree(lines, lines[..from], lines[from..to], lines[to..]);
  }

  lemma SplitOfSlice(code: string, lines: seq<string>, from: int, to: int)
    requires lines == SplitOn(code, '\n') && 0 <= from < to <= |lines|
    ensures SplitOn(JoinWith(lines[from..to], '\n'), '\n') == lines[from..to]
  {
    var m := lines[from..to];
    assert forall i | 0 <= i < |m| :: m[i] == lines[from + i];
    SplitOfJoin(m, '\n');
  }

  /** A valid extraction cuts the source into what stands above, the extracted text and what
      stands below, and holds exactly the lines asked for. */
  lemma ExtractionIsASlice(code: string, start: int, end: int)
    requires InRange(SplitOn(code, '\n'), start, end)
    ensures var lines := SplitOn(code, '\n');
            && code == Above(lines[..start - 1]) + ExtractByLines(code, start, end) + Below(lines[end..])
            && SplitOn(ExtractByLines(code, start, end), '\n') == lines[start - 1..end]
  {
    var lines := SplitOn(code, '\n');
    JoinOfSplit(code, '\n');
    JoinAround(lines, start - 1, end);
    SplitOfSlice(code, lines, start - 1, end);
  }
}
