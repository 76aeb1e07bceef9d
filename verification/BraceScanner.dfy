/** `extract_brace_method`: cutting a function out of C-style source by counting the braces
    that stand outside strings and comments. */
module BraceScanner {
  import opened Lines
  import opened Wrappers

  /** Where the scanner believes it is; strings and comments run on across lines. */
  datatype Mode = Code | Comment | Quoted(quote: char)

  /** A brace outside strings and comments, and the line it stands on. */
  datatype Brace = Brace(open: bool, line: nat)

  predicate PairAt(line: string, j: nat, first: char, second: char) {
    j + 1 < |line| && line[j] == first && line[j + 1] == second
  }

  predicate IsQuote(c: char) {
    c == '"' || c == '\'' || c == '`'
  }

  /** The mode after a character that belongs to no comment mark. */
  function AfterCharacter(line: string, j: nat, mode: Mode): Mode
    requires j < |line| && !mode.Comment?
  {
    if !IsQuote(line[j]) || (j > 0 && line[j - 1] == '\\') then mode
    else if mode.Code? then Quoted(line[j])
    else if mode.quote == line[j] then Code
    else mode
  }

  /** The live braces from position `j` of line `i` on. */
  function Braces(lines: seq<string>, i: nat, j: nat, mode: Mode): seq<Brace>
    decreases |lines| - i, if i < |lines| then |lines[i]| - j else 0
  {
    if i >= |lines| then []
    else if j >= |lines[i]| then Braces(lines, i + 1, 0, mode)
    else if !mode.Quoted? && PairAt(lines[i], j, '/', '/') then Braces(lines, i + 1, 0, mode)
    else if !mode.Quoted? && PairAt(lines[i], j, '/', '*') then Braces(lines, i, j + 2, Comment)
    else if mode.Comment? && PairAt(lines[i], j, '*', '/') then Braces(lines, i, j + 2, Code)
    else if mode.Comment? then Braces(lines, i, j + 1, mode)
    else
      var next := AfterCharacter(lines[i], j, mode);
      var rest := Braces(lines, i, j + 1, next);
      if next.Code? && lines[i][j] == '{' then [Brace(true, i)] + rest
      else if next.Code? && lines[i][j] == '}' then [Brace(false, i)] + rest
      else rest
  }

  /** The line of the first closing brace that brings the balance to zero after an opening one. */
  function CloseLine(bs: seq<Brace>, depth: int, started: bool): Option<nat>
    decreases |bs|
  {
    if bs == [] then None
    else if bs[0].open then CloseLine(bs[1..], depth + 1, true)
    else if started && depth == 1 then Some(bs[0].line)
    else CloseLine(bs[1..], depth - 1, started)
  }

  function BraceMethod(code: string, start: int): string {
    var lines := SplitOn(code, '\n');
    if start < 1 || start > |lines| then ""
    else
      var close := CloseLine(Braces(lines, start - 1, 0, Code), 0, false);
      if close.Some? && start - 1 <= close.value < |lines|
      then JoinWith(lines[start - 1..close.value + 1], '\n')
      else JoinWith(lines[start - 1..], '\n')
  }

  /** The scanner's three variables, read as a mode. */
  function ModeOf(inString: bool, inComment: bool, stringChar: Option<char>): Mode {
    if inComment then Comment
    else if inString && stringChar.Some? then Quoted(stringChar.value)
    else Code
  }

  /** The scanner is never in a string and in a comment, and knows the quote exactly while
      it is in a string. */
  predicate Exclusive(inString: bool, inComment: bool, stringChar: Option<char>) {
    !(inString && inComment) && (inString <==> stringChar.Some?)
  }

  lemma PairIsSlice(line: string, j: nat, pair: string)
    requires j + 1 < |line| && |pair| == 2
    ensures line[j..j + 2] == pair <==> PairAt(line, j, pair[0], pair[1])
  {
  }

  /** No comment mark is read at `j`, and the scanner is in no comment. */
  predicate OrdinaryAt(line: string, j: nat, mode: Mode) {
    && j < |line| && !mode.Comment?
    && (mode.Code? ==> !PairAt(line, j, '/', '/') && !PairAt(line, j, '/', '*'))
  }

  lemma OrdinaryStep(lines: seq<string>, i: nat, j: nat, mode: Mode, depth: int, started: bool)
    requires i < |lines| && OrdinaryAt(lines[i], j, mode)
    ensures var next := AfterCharacter(lines[i], j, mode);
            var c := lines[i][j];
            CloseLine(Braces(lines, i, j, mode), depth, started) ==
              if next.Code? && c == '{' then CloseLine(Braces(lines, i, j + 1, next), depth + 1, true)
              else if next.Code? && c == '}' && started && depth == 1 then Some(i)
              else if next.Code? && c == '}' then CloseLine(Braces(lines, i, j + 1, next), depth - 1, started)
              else CloseLine(Braces(lines, i, j + 1, next), depth, started)
  {
  }

  /** What is left to find out from position `j` of line `i` on. */
  ghost function Pending(lines: seq<string>, i: nat, j: nat, inString: bool, inComment: bool,
                         stringChar: Option<char>, depth: int, started: bool): Option<nat> {
    CloseLine(Braces(lines, i, j, ModeOf(inString, inComment, stringChar)), depth, started)
  }

  /** The turn of the outer loop for one line; `found` when the closing brace stands on it. */
  method ScanLine(lines: seq<string>, i: nat, depth0: int, started0: bool,
                  inString0: bool, inComment0: bool, stringChar0: Option<char>)
    returns (found: bool, depth: int, started: bool, inString: bool, inComment: bool, stringChar: Option<char>)
    requires i < |lines| && Exclusive(inString0, inComment0, stringChar0)
    ensures Exclusive(inString, inComment, stringChar)
    ensures Pending(lines, i, 0, inString0, inComment0, stringChar0, depth0, started0) ==
              if found then Some(i) else Pending(lines, i + 1, 0, inString, inComment, stringChar, depth, started)
  {
    found, depth, started := false, depth0, started0;
    inString, inComment, stringChar := inString0, inComment0, stringChar0;
    var line := lines[i];
    var j := 0;
    while j < |line|
      invariant Exclusive(inString, inComment, stringChar)
      invariant Pending(lines, i, 0, inString0, inComment0, stringChar0, depth0, started0)
             == Pending(lines, i, j, inString, inComment, stringChar, depth, started)
    {
      var c := line[j];
      if !inString && j < |line| - 1 {
        PairIsSlice(line, j, "//");
        PairIsSlice(line, j, "/*");
        PairIsSlice(line, j, "*/");
        if line[j..j + 2] == "//" {
          return; // the rest of the line is skipped
        } else if line[j..j + 2] == "/*" {
          inComment := true;
          j := j + 2;
          continue;
        } else if line[j..j + 2] == "*/" && inComment {
          inComment := false;
          j := j + 2;
          continue;
        }
      }
      if inComment {
        j := j + 1;
        continue;
      }
      OrdinaryStep(lines, i, j, ModeOf(inString, inComment, stringChar), depth, started);
      if IsQuote(c) && (j == 0 || line[j - 1] != '\\') {
        if !inString {
          inString, stringChar := true, Some(c);
        } else if Some(c) == stringChar {
          inString, stringChar := false, None;
        }
      }
      if !inString && !inComment {
        if c == '{' {
          depth := depth + 1;
          started := true;
        } else if c == '}' {
          depth := depth - 1;
          if started && depth == 0 {
            found := true;
            return;
          }
        }
      }
      j := j + 1;
    }
  }

  /** `extract_brace_method` */
  method ExtractBraceMethod(code: string, startLine: int) returns (text: string)
    ensures text == BraceMethod(code, startLine)
  {
    var lines := SplitOn(code, '\n');
    if startLine < 1 || startLine > |lines| {
      return "";
    }
    var depth, started := 0, false;
    var inString, inComment, stringChar := false, false, None;
    ghost var goal := Pending(lines, startLine - 1, 0, inString, inComment, stringChar, depth, started);
    for i := startLine - 1 to |lines|
      invariant Exclusive(inString, inComment, stringChar)
      invariant goal == Pending(lines, i, 0, inString, inComment, stringChar, depth, started)
    {
      var found;
      found, depth, started, inString, inComment, stringChar :=
        ScanLine(lines, i, depth, started, inString, inComment, stringChar);
      if found {
        return JoinWith(lines[startLine - 1..i + 1], '\n');
      }
    }
    text := JoinWith(lines[startLine - 1..], '\n');
  }
}
