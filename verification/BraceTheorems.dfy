/** What the brace scanner's cut means: the first block of well-nested braces, in the
    fewest lines, and where its reading of comments departs from the languages it reads. */
module BraceTheorems {
  import opened BraceScanner
  import opened Lines
  import opened Wrappers

  // ---------------------------------------------------------------- the first closing brace

  function Opens(bs: seq<Brace>): (w: seq<bool>)
    ensures |w| == |bs| && forall i | 0 <= i < |w| :: w[i] == bs[i].open
  {
    seq(|bs|, i requires 0 <= i < |bs| => bs[i].open)
  }

  /** Opening braces less closing ones. */
  function Level(w: seq<bool>): int
    decreases |w|
  {
    if w == [] then 0 else (if w[0] then 1 else -1) + Level(w[1..])
  }

  /** Brace `k` closes: it brings the balance to zero, and one was opened before it. */
  predicate ClosesFrom(w: seq<bool>, depth: int, started: bool, k: nat) {
    && k < |w| && !w[k]
    && depth + Level(w[..k + 1]) == 0
    && (started || exists i :: 0 <= i < k && w[i])
  }

  predicate Closes(w: seq<bool>, k: nat) {
    ClosesFrom(w, 0, false, k)
  }

  lemma ClosesShift(w: seq<bool>, depth: int, started: bool, k: nat)
    requires w != []
    ensures ClosesFrom(w, depth, started, k + 1)
       <==> ClosesFrom(w[1..], depth + (if w[0] then 1 else -1), started || w[0], k)
  {
    var t := w[1..];
    if k < |t| {
      assert w[..k + 2][1..] == t[..k + 1];
      assert t[k] == w[k + 1];
      if i :| 0 <= i < k + 1 && w[i] {
        assert i > 0 ==> t[i - 1];
      }
      if i :| 0 <= i < k && t[i] {
        assert w[i + 1];
      }
    }
  }

  lemma {:induction false} FirstClosing(bs: seq<Brace>, depth: int, started: bool) returns (k: nat)
    ensures k <= |bs| && forall i: nat | i < k :: !ClosesFrom(Opens(bs), depth, started, i)
    ensures k < |bs| ==> ClosesFrom(Opens(bs), depth, started, k) && CloseLine(bs, depth, started) == Some(bs[k].line)
    ensures k == |bs| ==> CloseLine(bs, depth, started) == None
    decreases |bs|
  {
    var w := Opens(bs);
    if bs == [] {
      return 0;
    }
    assert w[..1] == [w[0]] && Level([w[0]]) == if w[0] then 1 else -1;
    if !bs[0].open && started && depth == 1 {
      return 0;
    }
    assert !ClosesFrom(w, depth, started, 0);
    assert Opens(bs[1..]) == w[1..];
    var d, s := depth + (if w[0] then 1 else -1), started || w[0];
    var k' := FirstClosing(bs[1..], d, s);
    k := k' + 1;
    forall i: nat | i < k ensures !ClosesFrom(w, depth, started, i) {
      if i > 0 { ClosesShift(w, depth, started, i - 1); }
    }
    ClosesShift(w, depth, started, k');
  }

  // ---------------------------------------------------------------- blocks

  /** Well-nested braces: an opening brace, blocks one after another, the closing brace. */
  datatype Block = Block(inner: seq<Block>)

  function Shape(b: Block): seq<bool> {
    [true] + Shapes(b.inner) + [false]
  }

  function Shapes(blocks: seq<Block>): seq<bool> {
    if blocks == [] then [] else Shape(blocks[0]) + Shapes(blocks[1..])
  }

  lemma {:induction false} LevelConcat(a: seq<bool>, b: seq<bool>)
    ensures Level(a + b) == Level(a) + Level(b)
    decreases |a|
  {
    if a == [] {
      assert a + b == b;
    } else {
      LevelConcat(a[1..], b);
      assert (a + b)[1..] == a[1..] + b;
    }
  }

  /** Inside a block, whole blocks are passed over. */
  lemma {:induction false} SkipShapes(bs: seq<Brace>, blocks: seq<Block>, depth: int)
    requires depth >= 1 && Shapes(blocks) <= Opens(bs)
    ensures CloseLine(bs, depth, true) == CloseLine(bs[|Shapes(blocks)|..], depth, true)
    decreases blocks
  {
    if blocks == [] {
      assert bs[0..] == bs;
    } else {
      var n := |Shape(blocks[0])|;
      SkipShape(bs, blocks[0], depth);
      assert Opens(bs[n..]) == Opens(bs)[n..];
      assert Shapes(blocks[1..]) == Shapes(blocks)[n..];
      SkipShapes(bs[n..], blocks[1..], depth);
      assert bs[n..][|Shapes(blocks[1..])|..] == bs[|Shapes(blocks)|..];
    }
  }

  /** The parts of a block at the front: its opening brace, what is in it, its closing one. */
  lemma BlockParts(bs: seq<Brace>, b: Block, n: nat)
    requires n == |Shapes(b.inner)| && Shape(b) <= Opens(bs)
    ensures |Shape(b)| == n + 2 && n + 2 <= |bs| && bs[0].open && !bs[n + 1].open
    ensures Shapes(b.inner) <= Opens(bs[1..]) && bs[1..][n..] == bs[n + 1..]
  {
    var shape, w := Shape(b), Opens(bs);
    assert w[0] == shape[0] && w[n + 1] == shape[n + 1];
    assert Opens(bs[1..]) == w[1..];
    assert Shapes(b.inner) == shape[1..n + 1] == w[1..][..n];
  }

  lemma {:induction false} SkipShape(bs: seq<Brace>, b: Block, depth: int)
    requires depth >= 1 && Shape(b) <= Opens(bs)
    ensures CloseLine(bs, depth, true) == CloseLine(bs[|Shape(b)|..], depth, true)
    decreases b
  {
    var n := |Shapes(b.inner)|;
    BlockParts(bs, b, n);
    SkipShapes(bs[1..], b.inner, depth + 1);
    CloseAfter(bs[n + 1..], bs[n + 2..], depth + 1);
  }

  lemma CloseAfter(bs: seq<Brace>, rest: seq<Brace>, depth: int)
    requires bs != [] && !bs[0].open && rest == bs[1..] && depth != 1
    ensures CloseLine(bs, depth, true) == CloseLine(rest, depth - 1, true)
  {
  }

  /** A function that opens with a block is cut at the line of that block's closing brace. */
  lemma BlockIsCutAtItsEnd(bs: seq<Brace>, b: Block)
    requires Shape(b) <= Opens(bs)
    ensures CloseLine(bs, 0, false) == Some(bs[|Shape(b)| - 1].line)
  {
    var n := |Shapes(b.inner)|;
    BlockParts(bs, b, n);
    SkipShapes(bs[1..], b.inner, 1);
  }

  /** Never below zero, and zero at the end. */
  predicate Nested(w: seq<bool>) {
    Level(w) == 0 && forall k | 0 <= k <= |w| :: Level(w[..k]) >= 0
  }

  lemma {:induction false} FirstReturn(w: seq<bool>, k: nat) returns (r: nat)
    requires k <= |w| && Level(w[..k]) >= 1 && Level(w) <= 0
    ensures k < r <= |w| && Level(w[..r]) == 0 && forall i | k <= i < r :: Level(w[..i]) >= 1
    decreases |w| - k
  {
    assert w[..|w|] == w;
    if k < |w| {
      assert w[..k + 1] == w[..k] + [w[k]];
      LevelConcat(w[..k], [w[k]]);
      if Level(w[..k + 1]) == 0 { r := k + 1; } else { r := FirstReturn(w, k + 1); }
    }
  }

  /** Braces that nest are blocks one after another. */
  lemma {:induction false} NestedIsBlocks(w: seq<bool>) returns (blocks: seq<Block>)
    requires Nested(w)
    ensures Shapes(blocks) == w
    decreases |w|
  {
    if w == [] {
      return [];
    }
    assert w[..1] == [w[0]];
    var r := FirstReturn(w, 1);
    var b := ReturnIsBlock(w, r);
    var rest := w[r..];
    assert w == w[..r] + rest;
    LevelConcat(w[..r], rest);
    forall k | 0 <= k <= |rest| ensures Level(rest[..k]) >= 0 {
      assert w[..r + k] == w[..r] + rest[..k];
      LevelConcat(w[..r], rest[..k]);
    }
    var others := NestedIsBlocks(rest);
    blocks := [b] + others;
  }

  /** From an opening brace to the first return to zero, the braces are one block. */
  lemma {:induction false} ReturnIsBlock(w: seq<bool>, r: nat) returns (b: Block)
    requires 1 < r <= |w| && w[0]
    requires Level(w[..r]) == 0 && forall i | 1 <= i < r :: Level(w[..i]) >= 1
    ensures Shape(b) == w[..r]
    decreases r, 0
  {
    var inner := w[1..r - 1];
    LastCloses(w, r);
    forall k | 0 <= k <= |inner| ensures Level(inner[..k]) == Level(w[..k + 1]) - 1 {
      assert w[..k + 1] == [true] + inner[..k];
      LevelConcat([true], inner[..k]);
    }
    assert inner[..|inner|] == inner;
    var blocks := NestedIsBlocks(inner);
    b := Block(blocks);
    assert w[..r] == [true] + inner + [false];
  }

  lemma LastCloses(w: seq<bool>, r: nat)
    requires 1 < r <= |w| && Level(w[..r]) == 0 && Level(w[..r - 1]) >= 1
    ensures !w[r - 1] && Level(w[..r - 1]) == 1
  {
    assert w[..r] == w[..r - 1] + [w[r - 1]];
    LevelConcat(w[..r - 1], [w[r - 1]]);
  }

  /** And only so: if the braces start with an opening one and the scanner stops, it stops
      at the end of a block. */
  lemma StopsAtABlock(bs: seq<Brace>) returns (b: Block)
    requires bs != [] && bs[0].open && CloseLine(bs, 0, false).Some?
    ensures Shape(b) <= Opens(bs)
    ensures CloseLine(bs, 0, false) == Some(bs[|Shape(b)| - 1].line)
  {
    var k := FirstClosing(bs, 0, false);
    var w := Opens(bs)[..k + 1];
    assert w[..1] == [true];
    var r := FirstReturn(w, 1);
    LevelOfFirst(w);
    b := ReturnIsBlock(w, r);
    BlockIsCutAtItsEnd(bs, b);
  }

  lemma LevelOfFirst(w: seq<bool>)
    requires w != [] && w[0]
    ensures Level(w[..1]) == 1
  {
  }

  // ---------------------------------------------------------------- text without strings and comments

  predicate Plain(line: string) {
    forall j | 0 <= j < |line| :: !IsQuote(line[j]) && line[j] != '/'
  }

  /** Every brace character there is. */
  function AllBraces(lines: seq<string>, i: nat, j: nat): seq<Brace>
    decreases |lines| - i, if i < |lines| then |lines[i]| - j else 0
  {
    if i >= |lines| then []
    else if j >= |lines[i]| then AllBraces(lines, i + 1, 0)
    else if lines[i][j] == '{' then [Brace(true, i)] + AllBraces(lines, i, j + 1)
    else if lines[i][j] == '}' then [Brace(false, i)] + AllBraces(lines, i, j + 1)
    else AllBraces(lines, i, j + 1)
  }

  /** On text with no quotes and no slashes, scanning is plain brace counting. */
  lemma {:induction false} PlainTextIsCounted(lines: seq<string>, i: nat, j: nat)
    requires forall l | 0 <= l < |lines| :: Plain(lines[l])
    ensures Braces(lines, i, j, Code) == AllBraces(lines, i, j)
    decreases |lines| - i, if i < |lines| then |lines[i]| - j else 0
  {
    if i < |lines| {
      assert Plain(lines[i]);
      if j < |lines[i]| {
        PlainTextIsCounted(lines, i, j + 1);
      } else {
        PlainTextIsCounted(lines, i + 1, 0);
      }
    }
  }

  // ---------------------------------------------------------------- the fewest lines

  /** The first `n` braces are those before line `m`, and all stand on lines from `i` on. */
  predicate CutAtLine(bs: seq<Brace>, n: nat, m: nat, i: nat, end: nat) {
    n <= |bs| && forall k | 0 <= k < |bs| :: i <= bs[k].line < end && (k < n <==> bs[k].line < m)
  }

  lemma CutOfMore(b: Brace, rest: seq<Brace>, n: nat, m: nat, i: nat, end: nat)
    requires CutAtLine(rest, n, m, i, end) && b.line == i < m <= end
    ensures CutAtLine([b] + rest, n + 1, m, i, end) && ([b] + rest)[..n + 1] == [b] + rest[..n]
  {
  }

  lemma {:induction false} BracesOfPrefix(lines: seq<string>, m: nat, i: nat, j: nat, mode: Mode) returns (n: nat)
    requires i <= m <= |lines|
    ensures CutAtLine(Braces(lines, i, j, mode), n, m, i, |lines|)
    ensures Braces(lines[..m], i, j, mode) == Braces(lines, i, j, mode)[..n]
    decreases |lines| - i, if i < |lines| then |lines[i]| - j else 0
  {
    if i == |lines| {
      return 0;
    }
    if i == m {
      AllFromLine(lines, i, j, mode);
      return 0;
    }
    var line := lines[i];
    assert lines[..m][i] == line;
    if j >= |line| || (!mode.Quoted? && PairAt(line, j, '/', '/')) {
      n := BracesOfPrefix(lines, m, i + 1, 0, mode);
    } else if !mode.Quoted? && PairAt(line, j, '/', '*') {
      n := BracesOfPrefix(lines, m, i, j + 2, Comment);
    } else if mode.Comment? {
      var ends := PairAt(line, j, '*', '/');
      n := BracesOfPrefix(lines, m, i, if ends then j + 2 else j + 1, if ends then Code else mode);
    } else {
      var next := AfterCharacter(line, j, mode);
      n := BracesOfPrefix(lines, m, i, j + 1, next);
      if next.Code? && (line[j] == '{' || line[j] == '}') {
        CutOfMore(Brace(line[j] == '{', i), Braces(lines, i, j + 1, next), n, m, i, |lines|);
        n := n + 1;
      }
    }
  }

  lemma {:induction false} AllFromLine(lines: seq<string>, i: nat, j: nat, mode: Mode)
    requires i <= |lines|
    ensures forall k | 0 <= k < |Braces(lines, i, j, mode)| :: i <= Braces(lines, i, j, mode)[k].line < |lines|
    decreases |lines| - i, if i < |lines| then |lines[i]| - j else 0
  {
    if i < |lines| {
      var line := lines[i];
      if j >= |line| || (!mode.Quoted? && PairAt(line, j, '/', '/')) {
        AllFromLine(lines, i + 1, 0, mode);
      } else if !mode.Quoted? && PairAt(line, j, '/', '*') {
        AllFromLine(lines, i, j + 2, Comment);
      } else if mode.Comment? {
        if PairAt(line, j, '*', '/') {
          AllFromLine(lines, i, j + 2, Code);
        } else {
          AllFromLine(lines, i, j + 1, mode);
        }
      } else {
        AllFromLine(lines, i, j + 1, AfterCharacter(line, j, mode));
      }
    }
  }

  /** The cut holds the closing brace, and no shorter run of lines does. */
  lemma FewestLines(lines: seq<string>, first: nat, m: nat)
    requires first <= m <= |lines|
    requires CloseLine(Braces(lines, first, 0, Code), 0, false).Some?
    ensures var l := CloseLine(Braces(lines, first, 0, Code), 0, false).value;
            && first <= l < |lines|
            && CloseLine(Braces(lines[..m], first, 0, Code), 0, false) == if m <= l then None else Some(l)
  {
    var bs := Braces(lines, first, 0, Code);
    var k := FirstClosing(bs, 0, false);
    var n := BracesOfPrefix(lines, m, first, 0, Code);
    assert bs[k].line < m <==> k < n;
    FirstClosingInPrefix(bs, n, k);
  }

  lemma FirstClosingInPrefix(bs: seq<Brace>, n: nat, k: nat)
    requires n <= |bs| && Closes(Opens(bs), k) && forall i: nat | i < k :: !Closes(Opens(bs), i)
    ensures CloseLine(bs[..n], 0, false) == if k < n then Some(bs[k].line) else None
  {
    var k' := FirstClosing(bs[..n], 0, false);
    if k < n { ClosesInPrefix(bs, n, k); }
    if k' < n { ClosesInPrefix(bs, n, k'); }
  }

  lemma ClosesInPrefix(bs: seq<Brace>, n: nat, i: nat)
    requires i < n <= |bs|
    ensures Closes(Opens(bs[..n]), i) <==> Closes(Opens(bs), i)
  {
    assert Opens(bs[..n])[..i + 1] == Opens(bs)[..i + 1];
    if x :| 0 <= x < i && Opens(bs)[x] {
      assert Opens(bs[..n])[x];
    }
  }

  /** What is cut out: from the start line through the closing brace's line, or to the end
      of the source if the scanner sees no closing brace. */
  lemma CutIsARangeOfLines(code: string, start: int)
    requires 1 <= start <= |SplitOn(code, '\n')|
    ensures var lines := SplitOn(code, '\n');
            var end := LastLine(lines, start);
            InRange(lines, start, end) && BraceMethod(code, start) == ExtractByLines(code, start, end)
  {
    var lines := SplitOn(code, '\n');
    LastLineIsInRange(lines, start);
    if LastLine(lines, start) == |lines| { assert lines[start - 1..] == lines[start - 1..|lines|]; }
  }

  /** The line of the closing brace, counted from one, or the last line there is. */
  function LastLine(lines: seq<string>, start: int): int
    requires 1 <= start <= |lines|
  {
    var close := CloseLine(Braces(lines, start - 1, 0, Code), 0, false);
    if close.Some? then close.value + 1 else |lines|
  }

  lemma LastLineIsInRange(lines: seq<string>, start: int)
    requires 1 <= start <= |lines|
    ensures start <= LastLine(lines, start) <= |lines|
  {
    if CloseLine(Braces(lines, start - 1, 0, Code), 0, false).Some? {
      FewestLines(lines, start - 1, |lines|);
    }
  }

  // ---------------------------------------------------------------- code

  /** Outside strings and comments, a slash pair ends the line and a slash and a star begin a
      comment; any of the three quotes begins a string, unless a backslash stands before it; and
      braces are recorded, with their line. */
  lemma CodeIsRead(lines: seq<string>, i: nat, j: nat)
    requires i < |lines| && j < |lines[i]|
    ensures var line, seen, rest := lines[i], Braces(lines, i, j, Code), Braces(lines, i, j + 1, Code);
            if "//" <= line[j..] then seen == Braces(lines, i + 1, 0, Code)
            else if "/*" <= line[j..] then seen == Braces(lines, i, j + 2, Comment)
            else if line[j] in "\"'`" && (j == 0 || line[j - 1] != '\\') then
              seen == Braces(lines, i, j + 1, Quoted(line[j]))
            else if line[j] == '{' then seen == [Brace(true, i)] + rest
            else if line[j] == '}' then seen == [Brace(false, i)] + rest
            else seen == rest
  {
    PairIsPrefix(lines[i], j, "//");
    PairIsPrefix(lines[i], j, "/*");
  }

  lemma PairIsPrefix(line: string, j: nat, pair: string)
    requires j < |line| && |pair| == 2
    ensures pair <= line[j..] <==> PairAt(line, j, pair[0], pair[1])
  {
    if PairAt(line, j, pair[0], pair[1]) {
      assert line[j..][0] == pair[0] && line[j..][1] == pair[1];
    }
  }

  // ---------------------------------------------------------------- comments

  /** Where a comment ends on its line, by the rule of the languages read: at its first end mark. */
  function LanguageExit(line: string, j: nat): Option<nat>
    decreases |line| - j
  {
    if j >= |line| then None
    else if PairAt(line, j, '*', '/') then Some(j + 2)
    else LanguageExit(line, j + 1)
  }

  /** Where the scanner leaves a comment. */
  function ScannerExit(line: string, j: nat): (r: Option<nat>)
    ensures r.Some? ==> j + 2 <= r.value
    decreases |line| - j
  {
    if j >= |line| || PairAt(line, j, '/', '/') then None
    else if PairAt(line, j, '/', '*') then ScannerExit(line, j + 2)
    else if PairAt(line, j, '*', '/') then Some(j + 2)
    else ScannerExit(line, j + 1)
  }

  lemma {:induction false} ScannerLeavesComment(lines: seq<string>, i: nat, j: nat)
    requires i < |lines|
    ensures var exit := ScannerExit(lines[i], j);
            Braces(lines, i, j, Comment) ==
              if exit.Some? then Braces(lines, i, exit.value, Code) else Braces(lines, i + 1, 0, Comment)
    decreases |lines[i]| - j
  {
    var line := lines[i];
    if j < |line| && !PairAt(line, j, '/', '/') && !PairAt(line, j, '*', '/') {
      ScannerLeavesComment(lines, i, if PairAt(line, j, '/', '*') then j + 2 else j + 1);
    }
  }

  /** No slash pair before `c`, and no slash right before it. */
  predicate CleanUpTo(line: string, j: nat, c: nat) {
    && (forall d: nat | j <= d < c :: !PairAt(line, d, '/', '/'))
    && (j < c <= |line| ==> line[c - 1] != '/')
  }

  /** The scanner ends a comment where the language does exactly when nothing in the comment
      looks like a line comment and its end mark does not follow a slash. */
  lemma {:induction false} CommentEndsWhereItShould(line: string, j: nat)
    ensures LanguageExit(line, j).None? ==> ScannerExit(line, j).None?
    ensures LanguageExit(line, j).Some? ==>
              && LanguageExit(line, j).value >= j + 2
              && (ScannerExit(line, j) == LanguageExit(line, j)
                  <==> CleanUpTo(line, j, LanguageExit(line, j).value - 2))
    decreases |line| - j
  {
    if j < |line| && !PairAt(line, j, '*', '/') {
      CommentEndsWhereItShould(line, j + 1);
      if PairAt(line, j, '/', '*') {
        CommentEndsWhereItShould(line, j + 2);
      }
    }
  }

  /** So a link in a comment hides the rest of the comment's line, and what follows it. */
  lemma LinkInCommentHidesBraces(lines: seq<string>)
    requires |lines| == 1 && lines[0] == "/*//*/{}"
    ensures LanguageExit(lines[0], 2) == Some(6)
    ensures Braces(lines, 0, 0, Code) == []
  {
    var line := lines[0];
    assert PairAt(line, 0, '/', '*') && PairAt(line, 2, '/', '/') && PairAt(line, 4, '*', '/');
    ScannerLeavesComment(lines, 0, 2);
    assert LanguageExit(line, 3) == LanguageExit(line, 4);
  }

  // ---------------------------------------------------------------- strings

  predicate BackslashAt(line: string, j: int) {
    0 <= j < |line| && line[j] == '\\'
  }

  /** Where a string ends on its line, by the rule of the languages read: a backslash takes
      the character after it with it. */
  function LanguageStringExit(line: string, j: nat, quote: char): (r: Option<nat>)
    ensures r.Some? ==> j < r.value <= |line| && line[r.value - 1] == quote
    decreases |line| - j
  {
    if j >= |line| then None
    else if line[j] == '\\' then LanguageStringExit(line, j + 2, quote)
    else if line[j] == quote then Some(j + 1)
    else LanguageStringExit(line, j + 1, quote)
  }

  /** Where the scanner leaves a string. */
  function ScannerStringExit(line: string, j: nat, quote: char): Option<nat>
    decreases |line| - j
  {
    if j >= |line| then None
    else if line[j] == quote && (j == 0 || line[j - 1] != '\\') then Some(j + 1)
    else ScannerStringExit(line, j + 1, quote)
  }

  lemma {:induction false} ScannerLeavesString(lines: seq<string>, i: nat, j: nat, quote: char)
    requires i < |lines| && IsQuote(quote)
    ensures var exit := ScannerStringExit(lines[i], j, quote);
            Braces(lines, i, j, Quoted(quote)) ==
              if exit.Some? then Braces(lines, i, exit.value, Code) else Braces(lines, i + 1, 0, Quoted(quote))
    decreases |lines[i]| - j
  {
    if j < |lines[i]| { ScannerLeavesString(lines, i, j + 1, quote); }
  }

  /** The scanner ends a string where the language does exactly when no backslash stands
      right before the closing quote, where it can only be an escaped one. */
  lemma {:induction false} StringEndsWhereItShould(line: string, j: nat, quote: char)
    requires IsQuote(quote)
    ensures LanguageStringExit(line, j, quote).None? ==> ScannerStringExit(line, j, quote).None?
    ensures LanguageStringExit(line, j, quote).Some? ==>
              var close := LanguageStringExit(line, j, quote).value - 1;
              ScannerStringExit(line, j, quote) == LanguageStringExit(line, j, quote)
              <==> !BackslashAt(line, close - 1)
    decreases |line| - j
  {
    if j < |line| {
      if line[j] == '\\' {
        StringEndsWhereItShould(line, j + 2, quote);
        SkipsEscaped(line, j, quote);
      } else if line[j] != quote {
        StringEndsWhereItShould(line, j + 1, quote);
      } else if j > 0 && line[j - 1] == '\\' {
        LaterExit(line, j + 1, quote);
      }
    }
  }

  lemma SkipsEscaped(line: string, j: nat, quote: char)
    requires BackslashAt(line, j) && IsQuote(quote)
    ensures ScannerStringExit(line, j, quote) == ScannerStringExit(line, j + 2, quote)
  {
    assert ScannerStringExit(line, j, quote) == ScannerStringExit(line, j + 1, quote);
  }

  lemma {:induction false} LaterExit(line: string, j: nat, quote: char)
    ensures ScannerStringExit(line, j, quote).Some? ==> ScannerStringExit(line, j, quote).value > j
    decreases |line| - j
  {
    if j < |line| { LaterExit(line, j + 1, quote); }
  }

  /** A string of one escaped backslash, and two braces. */
  const ENDS_IN_BACKSLASH := "\"\\\\\"{}"

  /** So a string that ends in an escaped backslash hides the braces behind it. */
  lemma EscapedBackslashHidesBraces(lines: seq<string>)
    requires lines == [ENDS_IN_BACKSLASH]
    ensures LanguageStringExit(lines[0], 1, lines[0][0]) == Some(4)
    ensures Braces(lines, 0, 0, Code) == []
  {
    var line := lines[0];
    assert line[0] == '"' && line[1] == '\\' && line[2] == '\\' && line[3] == '"' && |line| == 6;
    assert LanguageStringExit(line, 3, '"') == Some(4);
    StringEndsWhereItShould(line, 1, '"');
    assert ScannerStringExit(line, 4, '"') == None by { assert ScannerStringExit(line, 5, '"') == None; }
    assert ScannerStringExit(line, 2, '"') == ScannerStringExit(line, 4, '"') by { SkipsEscaped(line, 2, '"'); }
    ScannerLeavesString(lines, 0, 1, '"');
  }
}
