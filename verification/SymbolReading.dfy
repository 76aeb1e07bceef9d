/** How a nested symbol is read: what its name says it is for, and the business words its code
    contains. */
module SymbolReading {
  import opened Text

  /** `word in text` */
  predicate Contains(text: string, word: string) {
    exists i :: 0 <= i <= |text| && word <= text[i..]
  }

  const PATTERNS: seq<string> := [
    "appointment", "event", "user", "calendar", "schedule",
    "payment", "order", "customer", "product", "cart",
    "email", "notification", "message", "alert",
    "auth", "login", "session", "token", "permission",
    "database", "query", "transaction", "record",
    "api", "request", "response", "fetch", "http",
    "validation", "error", "exception", "retry"
  ]

  /** `_infer_nested_purpose` */
  function InferredPurpose(name: string): string {
    var n := Lower(name);
    if Contains(n, "validate") || Contains(n, "check") then "validation logic"
    else if Contains(n, "format") || Contains(n, "transform") then "data formatting"
    else if Contains(n, "handle") then "event/data handling"
    else if Contains(n, "fetch") || Contains(n, "get") || Contains(n, "load") then "data retrieval"
    else if Contains(n, "save") || Contains(n, "update") || Contains(n, "create") then "data persistence"
    else if Contains(n, "filter") || Contains(n, "find") || Contains(n, "search") then "data filtering/search"
    else if Contains(n, "calculate") || Contains(n, "compute") then "computation logic"
    else "helper logic"
  }

  /** A text contains a word exactly if it is something, the word and something. */
  lemma ContainsMeans(text: string, word: string)
    ensures Contains(text, word) <==> exists a, b :: text == a + (word + b)
  {
    if Contains(text, word) {
      var i :| 0 <= i <= |text| && word <= text[i..];
      var b := text[i..][|word|..];
      assert text == text[..i] + (word + b);
    }
    forall a, b | text == a + (word + b)
      ensures Contains(text, word)
    {
      assert text[|a|..] == word + b;
    }
  }

  /** What the words of a name say it is for, the first row that speaks for it first. */
  const PURPOSES: seq<(seq<string>, string)> := [
    (["validate", "check"], "validation logic"),
    (["format", "transform"], "data formatting"),
    (["handle"], "event/data handling"),
    (["fetch", "get", "load"], "data retrieval"),
    (["save", "update", "create"], "data persistence"),
    (["filter", "find", "search"], "data filtering/search"),
    (["calculate", "compute"], "computation logic")
  ]

  predicate Speaks(row: nat, name: string)
    requires row < |PURPOSES|
  {
    exists k | 0 <= k < |PURPOSES[row].0| :: Contains(Lower(name), PURPOSES[row].0[k])
  }

  predicate SpeaksFirst(row: nat, name: string)
    requires row < |PURPOSES|
  {
    Speaks(row, name) && forall r: nat | r < row :: !Speaks(r, name)
  }

  lemma SpeaksOfOne(row: nat, name: string, w: string)
    requires row < |PURPOSES| && PURPOSES[row].0 == [w]
    ensures Speaks(row, name) <==> Contains(Lower(name), w)
  {
    assert Contains(Lower(name), w) ==> Contains(Lower(name), PURPOSES[row].0[0]);
  }

  lemma SpeaksOfTwo(row: nat, name: string, v: string, w: string)
    requires row < |PURPOSES| && PURPOSES[row].0 == [v, w]
    ensures Speaks(row, name) <==> Contains(Lower(name), v) || Contains(Lower(name), w)
  {
    assert Contains(Lower(name), v) ==> Contains(Lower(name), PURPOSES[row].0[0]);
    assert Contains(Lower(name), w) ==> Contains(Lower(name), PURPOSES[row].0[1]);
  }

  lemma SpeaksOfThree(row: nat, name: string, u: string, v: string, w: string)
    requires row < |PURPOSES| && PURPOSES[row].0 == [u, v, w]
    ensures Speaks(row, name) <==> Contains(Lower(name), u) || Contains(Lower(name), v) || Contains(Lower(name), w)
  {
    assert Contains(Lower(name), u) ==> Contains(Lower(name), PURPOSES[row].0[0]);
    assert Contains(Lower(name), v) ==> Contains(Lower(name), PURPOSES[row].0[1]);
    assert Contains(Lower(name), w) ==> Contains(Lower(name), PURPOSES[row].0[2]);
  }

  /** The purpose is that of the first row with a word that the name contains, in any case. */
  lemma PurposeByTheTable(name: string, row: nat)
    requires row < |PURPOSES|
    ensures SpeaksFirst(row, name) ==> InferredPurpose(name) == PURPOSES[row].1
    ensures (forall r: nat | r < |PURPOSES| :: !Speaks(r, name)) ==> InferredPurpose(name) == "helper logic"
  {
    SpeaksOfTwo(0, name, "validate", "check");
    SpeaksOfTwo(1, name, "format", "transform");
    SpeaksOfOne(2, name, "handle");
    SpeaksOfThree(3, name, "fetch", "get", "load");
    SpeaksOfThree(4, name, "save", "update", "create");
    SpeaksOfThree(5, name, "filter", "find", "search");
    SpeaksOfTwo(6, name, "calculate", "compute");
  }

  /** The patterns a text contains, in their order. */
  function FoundIn(patterns: seq<string>, text: string): seq<string>
    decreases |patterns|
  {
    if patterns == [] then []
    else
      var before := FoundIn(patterns[..|patterns| - 1], text);
      var last := patterns[|patterns| - 1];
      if Contains(text, last) then before + [last] else before
  }

  function KeywordsIn(code: string): seq<string> {
    FoundIn(PATTERNS, Lower(code))
  }

  /** The loop of `_extract_keywords_from_code`. */
  method ExtractKeywords(patterns: seq<string>, text: string) returns (keywords: seq<string>)
    ensures keywords == FoundIn(patterns, text)
  {
    keywords := [];
    for i := 0 to |patterns|
      invariant keywords == FoundIn(patterns[..i], text)
    {
      assert patterns[..i + 1][..i] == patterns[..i];
      if Contains(text, patterns[i]) {
        keywords := keywords + [patterns[i]];
      }
    }
    assert patterns[..|patterns|] == patterns;
  }

  /** Exactly the patterns the text contains are found. */
  lemma {:induction false} FoundExactly(patterns: seq<string>, text: string, word: string)
    ensures word in FoundIn(patterns, text) <==> word in patterns && Contains(text, word)
    decreases |patterns|
  {
    if patterns != [] {
      var init, last := patterns[..|patterns| - 1], patterns[|patterns| - 1];
      FoundExactly(init, text, word);
      assert patterns == init + [last];
    }
  }
}
