/** Splitting a large method into chunks by its nested symbols, which inherit metadata. */
module Chunker {
  import opened Lines
  import opened Wrappers

  import SymbolReading

  // ---------------------------------------------------------------- data

  /** The keys of a metadata dictionary. */
  datatype Field =
    | FilePath | Language | ParentSymbol | MainEntityName | MainEntityType | NameSpace
    | GeneralPurpose | RepoName | DocumentId | QualityScore | Complexity
    | BusinessOperation | ContextualKeywords
    | ChunkType | Name | StartLine | EndLine | IdOfChunk | ParentChunkId | IsNested | NestingLevel
    | HasNestedSymbols | NestedCount | Signature | Parameters | ReturnType | Visibility
    | Other(key: string)

  /** A keyword as metadata lists them: weighed already, or a bare word. */
  datatype Keyword = Weighed(word: string, probability: real) | Bare(word: string)

  /** A chunk's identifier, which the source prints with colons between its parts. */
  datatype ChunkId =
    | MethodId(document: string, name: string, start: int)
    | NestedId(parent: ChunkId, kind: string, name: string, start: int)

  datatype Value =
    | Str(text: string) | Number(number: int) | Score(score: real) | Flag(flag: bool) | Id(id: ChunkId) | Null
    | Keywords(keywords: seq<Keyword>)

  type Metadata = map<Field, Value>

  /** A nested symbol; any of its keys may be missing, and a symbol without a span has
      neither line. */
  datatype Symbol = Symbol(
    kind: Option<string>,
    name: Option<string>,
    startLine: Option<int>,
    endLine: Option<int>)
  {
    /** A missing line counts as zero where the code is cut out. */
    function Start(): int { if startLine.Some? then startLine.value else 0 }

    function End(): int { if endLine.Some? then endLine.value else 0 }
  }

  /** What the analysis says of a method: its name, its lines and whatever else it found. */
  datatype MethodInfo = MethodInfo(name: string, start: int, end: int, found: Metadata)

  datatype Link = Link(chunkId: ChunkId, kind: string, name: string)

  datatype Relationships = Unrelated | ChildOf(parent: Link) | ContainsNested(children: seq<Link>)

  datatype Chunk = Chunk(chunkId: ChunkId, content: string, metadata: Metadata, relationships: Relationships)

  /** A symbol without a kind, a name or a line of its span cannot inherit. */
  datatype ChunkError = MissingKey

  /** What a chunk takes from its parent as it is. */
  const INHERIT_FIELDS: seq<Field> := [
    FilePath, Language, ParentSymbol, MainEntityName, MainEntityType, NameSpace,
    GeneralPurpose, RepoName, DocumentId, QualityScore, Complexity
  ]

  const METHOD_FIELDS: seq<Field> := [
    Signature, BusinessOperation, Complexity, Parameters, ReturnType, Visibility
  ]

  const MEDIUM_CHUNK := 2000
  const MIN_NESTED_LINES := 10

  // ---------------------------------------------------------------- inheriting metadata

  /** How a nested symbol's name and code are read: what it is for, and the business words
      its code contains. */
  datatype Reading = Reading(purpose: string -> string, keywords: string -> seq<string>)

  const SOURCE_READING := Reading(SymbolReading.InferredPurpose, SymbolReading.KeywordsIn)

  function TextOf(m: Metadata, f: Field): string {
    if f in m && m[f].Str? then m[f].text else ""
  }

  function LevelOf(m: Metadata): int {
    if NestingLevel in m && m[NestingLevel].Number? then m[NestingLevel].number else 0
  }

  function KeywordsOf(m: Metadata): seq<Keyword> {
    if ContextualKeywords in m && m[ContextualKeywords].Keywords? then m[ContextualKeywords].keywords else []
  }

  function Operation(reading: Reading, parent: string, kind: string, name: string): string {
    if parent == "" then reading.purpose(name)
    else if kind == "nested_function" then parent + " - " + reading.purpose(name)
    else if kind in {"try_catch", "try_except", "rescue_block"} then parent + " - error handling"
    else parent
  }

  function Take<T>(s: seq<T>, n: nat): (r: seq<T>)
    ensures r <= s && |r| == if |s| <= n then |s| else n
  {
    if |s| <= n then s else s[..n]
  }

  function Inheriting(parent: Metadata, fields: seq<Field>): Metadata {
    map f | f in parent && f in fields :: parent[f]
  }

  /** The parent's keywords, bare ones weighed, then those found, in order. */
  function WeighedKeywords(parent: seq<Keyword>, words: seq<string>): (r: seq<Keyword>)
    ensures |r| == |parent| + |words|
    ensures forall i | 0 <= i < |parent| :: r[i] == if parent[i].Bare? then Weighed(parent[i].word, 0.8) else parent[i]
    ensures forall i | 0 <= i < |words| :: r[|parent| + i] == Weighed(words[i], 0.6)
  {
    seq(|parent|, i requires 0 <= i < |parent| => if parent[i].Bare? then Weighed(parent[i].word, 0.8) else parent[i])
    + seq(|words|, i requires 0 <= i < |words| => Weighed(words[i], 0.6))
  }

  function ChildKeywords(reading: Reading, parent: seq<Keyword>, code: string): seq<Keyword> {
    Take(WeighedKeywords(parent, Take(Take(reading.keywords(code), 5), 3)), 10)
  }

  /** What a child has of its own: the derived fields and those of the symbol. */
  function OwnMetadata(operation: string, keywords: seq<Keyword>, level: int, link: Value,
                       kind: string, name: string, start: int, end: int): Metadata
  {
    map[
      BusinessOperation := Str(operation), ContextualKeywords := Keywords(keywords),
      ChunkType := Str(kind), Name := Str(name), StartLine := Number(start), EndLine := Number(end),
      ParentChunkId := link, IsNested := Flag(true), NestingLevel := Number(level)]
  }

  function OrElse(m: Metadata, f: Field, default: Value): Value {
    if f in m then m[f] else default
  }

  function LinkOf(m: Metadata): Value {
    OrElse(m, IdOfChunk, Null)
  }

  /** `inherit_from_parent` for a symbol with a kind and a name. */
  function ChildMetadata(reading: Reading, parent: Metadata, kind: string, name: string, start: int, end: int,
                         code: string): Metadata
  {
    var operation := Operation(reading, TextOf(parent, BusinessOperation), kind, name);
    var keywords := ChildKeywords(reading, KeywordsOf(parent), code);
    Inheriting(parent, INHERIT_FIELDS)
    + OwnMetadata(operation, keywords, LevelOf(parent) + 1, LinkOf(parent), kind, name, start, end)
  }

  /** The loops of `_derive_business_context` that merge the keywords. */
  method MergeKeywords(parent: seq<Keyword>, nested: seq<string>) returns (r: seq<Keyword>)
    ensures r == Take(WeighedKeywords(parent, Take(nested, 3)), 10)
  {
    var words := Take(nested, 3);
    var all: seq<Keyword> := [];
    for i := 0 to |parent|
      invariant |all| == i && forall k | 0 <= k < i :: all[k] == WeighedKeywords(parent, words)[k]
    {
      all := all + [if parent[i].Bare? then Weighed(parent[i].word, 0.8) else parent[i]];
    }
    for i := 0 to |words|
      invariant |all| == |parent| + i && forall k | 0 <= k < |all| :: all[k] == WeighedKeywords(parent, words)[k]
    {
      all := all + [Weighed(words[i], 0.6)];
    }
    assert all == WeighedKeywords(parent, words);
    r := Take(all, 10);
  }

  /** The loop of direct inheritance. */
  method InheritFields(parent: Metadata, fields: seq<Field>) returns (inherited: Metadata)
    ensures inherited == Inheriting(parent, fields)
  {
    inherited := map[];
    for i := 0 to |fields|
      invariant inherited == Inheriting(parent, fields[..i])
    {
      assert fields[..i + 1] == fields[..i] + [fields[i]];
      if fields[i] in parent {
        inherited := inherited[fields[i] := parent[fields[i]]];
      }
    }
    assert fields[..|fields|] == fields;
  }

  /** `inherit_from_parent` */
  method InheritFromParent(parent: Metadata, symbol: Symbol, code: string, reading: Reading := SOURCE_READING)
    returns (r: Result<Metadata, ChunkError>)
    ensures r == if symbol.kind.None? || symbol.name.None? || symbol.startLine.None? || symbol.endLine.None?
                 then Failure(MissingKey)
                 else Success(ChildMetadata(reading, parent, symbol.kind.value, symbol.name.value,
                                            symbol.startLine.value, symbol.endLine.value, code))
  {
    var inherited := InheritFields(parent, INHERIT_FIELDS);
    if symbol.kind.None? || symbol.name.None? {
      return Failure(MissingKey);
    }
    var kind, name := symbol.kind.value, symbol.name.value;
    var keywords := MergeKeywords(KeywordsOf(parent), Take(reading.keywords(code), 5));
    var operation := Operation(reading, TextOf(parent, BusinessOperation), kind, name);
    if symbol.startLine.None? || symbol.endLine.None? {
      return Failure(MissingKey);
    }
    var own := OwnMetadata(operation, keywords, LevelOf(parent) + 1, LinkOf(parent), kind, name,
                           symbol.startLine.value, symbol.endLine.value);
    r := Success(inherited + own);
  }

  // ---------------------------------------------------------------- the chunks

  function SingleMetadata(info: MethodInfo, parent: Metadata, nested: nat): Metadata {
    parent
    + map[ChunkType := Str("method"), Name := Str(info.name), StartLine := Number(info.start),
          EndLine := Number(info.end), HasNestedSymbols := Flag(nested > 0), NestedCount := Number(nested)]
    + Inheriting(info.found, METHOD_FIELDS)
  }

  /** `_create_single_chunk` */
  function SingleChunk(info: MethodInfo, code: string, parent: Metadata, nested: nat, document: string): Chunk {
    Chunk(MethodId(document, info.name, info.start), code, SingleMetadata(info, parent, nested), Unrelated)
  }

  /** The parent chunk's metadata, from which its children inherit. */
  function MethodMetadata(info: MethodInfo, parent: Metadata, id: ChunkId): Metadata {
    parent
    + map[ChunkType := Str("method"), Name := Str(info.name), StartLine := Number(info.start),
          EndLine := Number(info.end),
          BusinessOperation := OrElse(info.found, BusinessOperation, Str("")),
          Complexity := OrElse(info.found, Complexity, Str("unknown")),
          QualityScore := OrElse(parent, QualityScore, Score(0.0)),
          ContextualKeywords := OrElse(info.found, ContextualKeywords, Keywords([])),
          IdOfChunk := Id(id)]
  }

  /** A symbol gets a chunk of its own when its lines are in the source and there are ten. */
  predicate Eligible(original: string, s: Symbol) {
    InRange(SplitOn(original, '\n'), s.Start(), s.End()) && s.End() - s.Start() + 1 >= MIN_NESTED_LINES
  }

  function EligibleOnes(original: string, symbols: seq<Symbol>): (r: seq<Symbol>)
    ensures forall i | 0 <= i < |r| :: Eligible(original, r[i]) && r[i] in symbols
    decreases |symbols|
  {
    if symbols == [] then []
    else
      var last := symbols[|symbols| - 1];
      var before := EligibleOnes(original, symbols[..|symbols| - 1]);
      if Eligible(original, last) then before + [last] else before
  }

  predicate Named(s: Symbol) { s.kind.Some? && s.name.Some? }

  predicate AllNamed(symbols: seq<Symbol>) {
    forall i | 0 <= i < |symbols| :: Named(symbols[i])
  }

  function ChildChunk(reading: Reading, parent: Metadata, id: ChunkId, name: string, original: string, s: Symbol): Chunk
    requires Named(s)
  {
    var code := ExtractByLines(original, s.Start(), s.End());
    Chunk(
      NestedId(id, s.kind.value, s.name.value, s.Start()),
      code,
      ChildMetadata(reading, parent, s.kind.value, s.name.value, s.Start(), s.End(), code),
      ChildOf(Link(id, "method", name)))
  }

  function ChildChunks(reading: Reading, parent: Metadata, id: ChunkId, name: string, original: string,
                       symbols: seq<Symbol>): (r: seq<Chunk>)
    requires AllNamed(symbols)
    ensures |r| == |symbols|
    ensures forall i | 0 <= i < |r| :: r[i] == ChildChunk(reading, parent, id, name, original, symbols[i])
  {
    seq(|symbols|, i requires 0 <= i < |symbols| => ChildChunk(reading, parent, id, name, original, symbols[i]))
  }

  function LinkTo(c: Chunk): Link {
    Link(c.chunkId, TextOf(c.metadata, ChunkType), TextOf(c.metadata, Name))
  }

  function LinksTo(chunks: seq<Chunk>): (r: seq<Link>)
    ensures |r| == |chunks| && forall i | 0 <= i < |r| :: r[i] == LinkTo(chunks[i])
  {
    seq(|chunks|, i requires 0 <= i < |chunks| => LinkTo(chunks[i]))
  }

  /** What a split gives: the parent and a child for every eligible symbol, in order, or the
      whole method if there is none. */
  function Split(reading: Reading, info: MethodInfo, code: string, parent: Metadata, symbols: seq<Symbol>,
                 document: string, original: string): Result<seq<Chunk>, ChunkError>
  {
    var eligible := EligibleOnes(original, symbols);
    var id := MethodId(document, info.name, info.start);
    var metadata := MethodMetadata(info, parent, id);
    if !AllNamed(eligible) then Failure(MissingKey)
    else if eligible == [] then Success([SingleChunk(info, code, parent, |symbols|, document)])
    else
      var children := ChildChunks(reading, metadata, id, info.name, original, eligible);
      Success([Chunk(id, code, metadata, ContainsNested(LinksTo(children)))] + children)
  }

  lemma ManyLinesAreNotEmpty(code: string, start: int, end: int)
    requires end - start + 1 >= MIN_NESTED_LINES
    ensures ExtractByLines(code, start, end) != "" <==> InRange(SplitOn(code, '\n'), start, end)
  {
  }

  lemma EligibleGrows(original: string, symbols: seq<Symbol>, i: nat)
    requires i < |symbols|
    ensures EligibleOnes(original, symbols[..i + 1]) ==
              if Eligible(original, symbols[i]) then EligibleOnes(original, symbols[..i]) + [symbols[i]]
              else EligibleOnes(original, symbols[..i])
  {
    assert symbols[..i + 1][..i] == symbols[..i];
  }

  lemma {:induction false} UnnamedStays(original: string, symbols: seq<Symbol>, i: nat)
    requires i <= |symbols| && !AllNamed(EligibleOnes(original, symbols[..i]))
    ensures !AllNamed(EligibleOnes(original, symbols))
    decreases |symbols| - i
  {
    if i < |symbols| {
      EligibleGrows(original, symbols, i);
      var before := EligibleOnes(original, symbols[..i]);
      var k :| 0 <= k < |before| && !Named(before[k]);
      assert EligibleOnes(original, symbols[..i + 1])[k] == before[k];
      UnnamedStays(original, symbols, i + 1);
    } else {
      assert symbols[..i] == symbols;
    }
  }

  /** One turn of the loop: nothing for a symbol that stays in its parent. */
  method NestedChunk(reading: Reading, metadata: Metadata, id: ChunkId, name: string, symbol: Symbol,
                     original: string) returns (r: Result<Option<Chunk>, ChunkError>)
    ensures r == if !Eligible(original, symbol) then Success(None)
                 else if !Named(symbol) then Failure(MissingKey)
                 else Success(Some(ChildChunk(reading, metadata, id, name, original, symbol)))
  {
    var nestedCode := ExtractByLines(original, symbol.Start(), symbol.End());
    var nestedSize := symbol.End() - symbol.Start() + 1;
    if nestedSize >= MIN_NESTED_LINES {
      ManyLinesAreNotEmpty(original, symbol.Start(), symbol.End());
    }
    if nestedCode == "" {
      return Success(None);
    }
    if nestedSize < MIN_NESTED_LINES {
      return Success(None);
    }
    var inherited := InheritFromParent(metadata, symbol, nestedCode, reading);
    if inherited.Failure? {
      return Failure(inherited.error);
    }
    var chunkId := NestedId(id, symbol.kind.value, symbol.name.value, symbol.Start());
    r := Success(Some(Chunk(chunkId, nestedCode, inherited.value, ChildOf(Link(id, "method", name)))));
  }

  lemma UnnamedLast(symbols: seq<Symbol>, s: Symbol)
    requires !Named(s)
    ensures !AllNamed(symbols + [s])
  {
    assert (symbols + [s])[|symbols|] == s;
  }

  lemma ChildChunksGrow(reading: Reading, metadata: Metadata, id: ChunkId, name: string, original: string,
                        symbols: seq<Symbol>, s: Symbol)
    requires AllNamed(symbols) && Named(s)
    ensures AllNamed(symbols + [s])
    ensures ChildChunks(reading, metadata, id, name, original, symbols + [s])
         == ChildChunks(reading, metadata, id, name, original, symbols)
            + [ChildChunk(reading, metadata, id, name, original, s)]
  {
  }

  /** The loop over the nested symbols. */
  method NestedChunks(reading: Reading, metadata: Metadata, id: ChunkId, name: string, symbols: seq<Symbol>,
                      original: string) returns (r: Result<seq<Chunk>, ChunkError>)
    ensures r == if !AllNamed(EligibleOnes(original, symbols)) then Failure(MissingKey)
                 else Success(ChildChunks(reading, metadata, id, name, original, EligibleOnes(original, symbols)))
  {
    var chunks: seq<Chunk> := [];
    ghost var eligible: seq<Symbol> := [];
    for idx := 0 to |symbols|
      invariant eligible == EligibleOnes(original, symbols[..idx]) && AllNamed(eligible)
      invariant chunks == ChildChunks(reading, metadata, id, name, original, eligible)
    {
      EligibleGrows(original, symbols, idx);
      var nested := NestedChunk(reading, metadata, id, name, symbols[idx], original);
      if nested.Failure? {
        UnnamedLast(eligible, symbols[idx]);
        UnnamedStays(original, symbols, idx + 1);
        return Failure(nested.error);
      }
      if nested.value.Some? {
        ChildChunksGrow(reading, metadata, id, name, original, eligible, symbols[idx]);
        chunks := chunks + [nested.value.value];
        eligible := eligible + [symbols[idx]];
      }
    }
    assert symbols[..|symbols|] == symbols;
    r := Success(chunks);
  }

  /** `_split_by_nested_symbols` */
  method SplitByNestedSymbols(reading: Reading, info: MethodInfo, code: string, parent: Metadata,
                              symbols: seq<Symbol>, document: string, original: string)
    returns (r: Result<seq<Chunk>, ChunkError>)
    ensures r == Split(reading, info, code, parent, symbols, document, original)
  {
    var id := MethodId(document, info.name, info.start);
    var metadata := MethodMetadata(info, parent, id);
    var nested := NestedChunks(reading, metadata, id, info.name, symbols, original);
    if nested.Failure? {
      return Failure(nested.error);
    }
    var chunks := nested.value;
    if chunks != [] {
      var parentChunk := Chunk(id, code, metadata, ContainsNested(LinksTo(chunks)));
      chunks := [parentChunk] + chunks;
    } else {
      chunks := [SingleChunk(info, code, parent, |symbols|, document)];
    }
    r := Success(chunks);
  }

  /** `chunk_method`: only a large method with nested symbols is split. */
  method ChunkMethod(info: MethodInfo, code: string, parent: Metadata, symbols: seq<Symbol>,
                     document: string, original: string, reading: Reading := SOURCE_READING)
    returns (r: Result<seq<Chunk>, ChunkError>)
    ensures r == if |code| < MEDIUM_CHUNK || symbols == []
                 then Success([SingleChunk(info, code, parent, |symbols|, document)])
                 else Split(reading, info, code, parent, symbols, document, original)
  {
    if |code| < MEDIUM_CHUNK {
      return Success([SingleChunk(info, code, parent, |symbols|, document)]);
    }
    if symbols != [] {
      r := SplitByNestedSymbols(reading, info, code, parent, symbols, document, original);
    } else {
      r := Success([SingleChunk(info, code, parent, |symbols|, document)]);
    }
  }

  // ---------------------------------------------------------------- theorems

  /** Parent and children point at each other; each child is the slice of the source its
      symbol spans, one level deeper than its parent. */
  predicate Linked(parent: Chunk, child: Chunk, link: Link, s: Symbol, original: string) {
    && parent.chunkId.MethodId?
    && child.relationships == ChildOf(Link(parent.chunkId, "method", parent.chunkId.name))
    && link == Link(child.chunkId, TextOf(child.metadata, ChunkType), TextOf(child.metadata, Name))
    && s.kind == Some(link.kind) && s.name == Some(link.name)
    && OrElse(child.metadata, ParentChunkId, Flag(false)) == Id(parent.chunkId)
    && LevelOf(child.metadata) == LevelOf(parent.metadata) + 1
    && OrElse(child.metadata, StartLine, Flag(false)) == Number(s.Start())
    && OrElse(child.metadata, EndLine, Flag(false)) == Number(s.End())
    && child.content == ExtractByLines(original, s.Start(), s.End())
    && InRange(SplitOn(original, '\n'), s.Start(), s.End())
    && SplitOn(child.content, '\n') == SplitOn(original, '\n')[s.Start() - 1..s.End()]
  }

  const OWN_FIELDS: set<Field> := {
    BusinessOperation, ContextualKeywords, ChunkType, Name, StartLine, EndLine, ParentChunkId, IsNested, NestingLevel
  }

  lemma OwnFields(operation: string, keywords: seq<Keyword>, level: int, link: Value,
                  kind: string, name: string, start: int, end: int, rest: Metadata)
    ensures var own := OwnMetadata(operation, keywords, level, link, kind, name, start, end);
            var m := rest + own;
            && own.Keys == OWN_FIELDS
            && TextOf(m, ChunkType) == kind && TextOf(m, Name) == name && LevelOf(m) == level
            && KeywordsOf(m) == keywords
            && OrElse(m, StartLine, Flag(false)) == Number(start) && OrElse(m, EndLine, Flag(false)) == Number(end)
            && OrElse(m, ParentChunkId, Flag(false)) == link
  {
  }

  lemma ChildFields(reading: Reading, parent: Metadata, kind: string, name: string, start: int, end: int, code: string)
    ensures var m := ChildMetadata(reading, parent, kind, name, start, end, code);
            && TextOf(m, ChunkType) == kind && TextOf(m, Name) == name
            && LevelOf(m) == LevelOf(parent) + 1
            && KeywordsOf(m) == ChildKeywords(reading, KeywordsOf(parent), code)
            && OrElse(m, StartLine, Flag(false)) == Number(start) && OrElse(m, EndLine, Flag(false)) == Number(end)
            && OrElse(m, ParentChunkId, Flag(false)) == LinkOf(parent)
  {
    OwnFields(Operation(reading, TextOf(parent, BusinessOperation), kind, name),
              ChildKeywords(reading, KeywordsOf(parent), code),
              LevelOf(parent) + 1, LinkOf(parent), kind, name, start, end, Inheriting(parent, INHERIT_FIELDS));
  }

  lemma ChildIsLinked(reading: Reading, metadata: Metadata, id: ChunkId, original: string, s: Symbol, parent: Chunk)
    requires Named(s) && Eligible(original, s) && id.MethodId? && parent.chunkId == id && parent.metadata == metadata
    requires IdOfChunk in metadata && metadata[IdOfChunk] == Id(id)
    ensures var c := ChildChunk(reading, metadata, id, id.name, original, s);
            Linked(parent, c, LinkTo(c), s, original)
  {
    var code := ExtractByLines(original, s.Start(), s.End());
    ExtractionIsASlice(original, s.Start(), s.End());
    ChildFields(reading, metadata, s.kind.value, s.name.value, s.Start(), s.End(), code);
  }

  /** A parent chunk, its children and their symbols, all linked. */
  predicate Family(parent: Chunk, children: seq<Chunk>, symbols: seq<Symbol>, original: string) {
    && parent.relationships.ContainsNested?
    && |parent.relationships.children| == |children| == |symbols|
    && forall i | 0 <= i < |symbols| ::
         Linked(parent, children[i], parent.relationships.children[i], symbols[i], original)
  }

  lemma ChildrenAreLinked(reading: Reading, metadata: Metadata, id: ChunkId, code: string, original: string,
                          symbols: seq<Symbol>)
    requires AllNamed(symbols) && id.MethodId? && IdOfChunk in metadata && metadata[IdOfChunk] == Id(id)
    requires forall i | 0 <= i < |symbols| :: Eligible(original, symbols[i])
    ensures var children := ChildChunks(reading, metadata, id, id.name, original, symbols);
            Family(Chunk(id, code, metadata, ContainsNested(LinksTo(children))), children, symbols, original)
  {
    var children := ChildChunks(reading, metadata, id, id.name, original, symbols);
    var parent := Chunk(id, code, metadata, ContainsNested(LinksTo(children)));
    forall i | 0 <= i < |symbols| ensures Linked(parent, children[i], LinkTo(children[i]), symbols[i], original) {
      assert Named(symbols[i]);
      ChildIsLinked(reading, metadata, id, original, symbols[i], parent);
    }
  }

  /** A split gives one whole-method chunk, or the parent followed by exactly the eligible
      symbols in order, all linked; it fails exactly when an eligible symbol lacks its kind
      or its name. */
  lemma SplitShape(reading: Reading, info: MethodInfo, code: string, parent: Metadata, symbols: seq<Symbol>,
                   document: string, original: string)
    ensures var eligible := EligibleOnes(original, symbols);
            var r := Split(reading, info, code, parent, symbols, document, original);
            && (r.Failure? <==> !AllNamed(eligible))
            && (r.Success? ==> r.value != [] && r.value[0].content == code)
            && (r.Success? && eligible == [] ==> |r.value| == 1 && r.value[0].relationships == Unrelated)
            && (r.Success? && eligible != [] ==> Family(r.value[0], r.value[1..], eligible, original))
  {
    var eligible := EligibleOnes(original, symbols);
    if AllNamed(eligible) && eligible != [] {
      var id := MethodId(document, info.name, info.start);
      var metadata := MethodMetadata(info, parent, id);
      assert IdOfChunk in metadata && metadata[IdOfChunk] == Id(id);
      ChildrenAreLinked(reading, metadata, id, code, original, eligible);
      var r := Split(reading, info, code, parent, symbols, document, original);
      assert r.value[1..] == ChildChunks(reading, metadata, id, info.name, original, eligible);
    }
  }

  /** The eligible symbols are a subsequence: each eligible one is there, after those before it. */
  lemma {:induction false} EligibleInOrder(original: string, symbols: seq<Symbol>, i: nat)
    requires i < |symbols| && Eligible(original, symbols[i])
    ensures |EligibleOnes(original, symbols[..i])| < |EligibleOnes(original, symbols)|
    ensures EligibleOnes(original, symbols)[|EligibleOnes(original, symbols[..i])|] == symbols[i]
    decreases |symbols|
  {
    var init := symbols[..|symbols| - 1];
    if i < |init| {
      assert init[..i] == symbols[..i];
      EligibleInOrder(original, init, i);
    }
  }

  /** What a child's metadata is: the structural fields of the parent, the derived ones and
      its own; nothing else of the parent's passes on. */
  lemma ChildInherits(reading: Reading, parent: Metadata, kind: string, name: string, start: int, end: int,
                      code: string, f: Field)
    ensures var m := ChildMetadata(reading, parent, kind, name, start, end, code);
            && (f in INHERIT_FIELDS ==> (f in m <==> f in parent) && (f in m ==> m[f] == parent[f]))
            && (f in m ==> f in INHERIT_FIELDS || f in OWN_FIELDS)
            && (f in OWN_FIELDS ==> f in m)
  {
    OwnFields(Operation(reading, TextOf(parent, BusinessOperation), kind, name),
              ChildKeywords(reading, KeywordsOf(parent), code),
              LevelOf(parent) + 1, LinkOf(parent), kind, name, start, end, Inheriting(parent, INHERIT_FIELDS));
    OwnIsNotInherited(f);
    InheritsAround(parent, INHERIT_FIELDS,
                   OwnMetadata(Operation(reading, TextOf(parent, BusinessOperation), kind, name),
                               ChildKeywords(reading, KeywordsOf(parent), code),
                               LevelOf(parent) + 1, LinkOf(parent), kind, name, start, end), f);
  }

  lemma InheritsAround(parent: Metadata, fields: seq<Field>, own: Metadata, f: Field)
    requires f in fields ==> f !in own
    ensures var m := Inheriting(parent, fields) + own;
            && (f in fields ==> (f in m <==> f in parent) && (f in m ==> m[f] == parent[f]))
            && (f in m ==> f in fields || f in own)
            && (f in own ==> f in m)
  {
  }

  lemma OwnIsNotInherited(f: Field)
    ensures f in INHERIT_FIELDS ==> f !in OWN_FIELDS
  {
    if f in INHERIT_FIELDS {
      var i :| 0 <= i < |INHERIT_FIELDS| && INHERIT_FIELDS[i] == f;
      InheritedIsNotOwn(i);
    }
  }

  lemma InheritedIsNotOwn(i: nat)
    requires i < |INHERIT_FIELDS|
    ensures INHERIT_FIELDS[i] !in OWN_FIELDS
  {
  }

  /** A child carries ten keywords at most, its parent's before any of its own. */
  lemma ChildKeywordsAreCapped(reading: Reading, parent: seq<Keyword>, code: string)
    ensures var kws := ChildKeywords(reading, parent, code);
            && |kws| <= 10
            && |kws| <= |parent| + 3
            && Take(WeighedKeywords(parent, []), 10) <= kws
  {
  }
}
