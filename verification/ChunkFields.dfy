/** What reaches a chunk of the file's and the method's metadata, through both dictionaries. */
module ChunkFields {
  import opened Chunker
  import Lines

  /** The structural fields that the file's analysis gives. */
  predicate OfFile(f: Field) {
    || f.FilePath? || f.Language? || f.ParentSymbol? || f.MainEntityName? || f.MainEntityType? || f.NameSpace?
    || f.GeneralPurpose? || f.RepoName? || f.DocumentId?
  }

  /** The fields that the analysis of a method may give. */
  predicate OfMethod(f: Field) {
    f.Signature? || f.BusinessOperation? || f.Complexity? || f.Parameters? || f.ReturnType? || f.Visibility?
  }

  /** The fields that a nested chunk has of its own. */
  predicate OfNested(f: Field) {
    || f.BusinessOperation? || f.ContextualKeywords? || f.ChunkType? || f.Name? || f.StartLine? || f.EndLine?
    || f.ParentChunkId? || f.IsNested? || f.NestingLevel?
  }

  /** The field is one of `from` as it is, or missing from both. */
  predicate Passed(m: Metadata, from: Metadata, f: Field) {
    (f in m <==> f in from) && (f in m ==> m[f] == from[f])
  }

  predicate Holds(m: Metadata, f: Field, v: Value) {
    f in m && m[f] == v
  }

  /** A level that is not recorded, or no number, counts as zero. */
  function OneDeeper(file: Metadata): int {
    if NestingLevel !in file then 1 else if file[NestingLevel].Number? then file[NestingLevel].number + 1 else 1
  }

  /** A nested chunk's metadata, told from the file's and from what was found about the method. */
  ghost predicate Inherited(m: Metadata, file: Metadata, info: MethodInfo, id: ChunkId) {
    && (forall f | OfFile(f) :: Passed(m, file, f))
    && Holds(m, QualityScore, if QualityScore in file then file[QualityScore] else Score(0.0))
    && Holds(m, Complexity, if Complexity in info.found then info.found[Complexity] else Str("unknown"))
    && Holds(m, ParentChunkId, Id(id)) && Holds(m, IsNested, Flag(true))
    && Holds(m, NestingLevel, Number(OneDeeper(file)))
    && (forall f | f in m :: OfFile(f) || f.QualityScore? || f.Complexity? || OfNested(f))
  }

  lemma StructuralIsInherited(f: Field)
    requires OfFile(f) || f.QualityScore? || f.Complexity?
    ensures f in INHERIT_FIELDS
  {
    var s := INHERIT_FIELDS;
    match f
    case FilePath => assert s[0] == f;
    case Language => assert s[1] == f;
    case ParentSymbol => assert s[2] == f;
    case MainEntityName => assert s[3] == f;
    case MainEntityType => assert s[4] == f;
    case NameSpace => assert s[5] == f;
    case GeneralPurpose => assert s[6] == f;
    case RepoName => assert s[7] == f;
    case DocumentId => assert s[8] == f;
    case QualityScore => assert s[9] == f;
    case Complexity => assert s[10] == f;
  }

  lemma InheritedIsStructural(i: nat)
    requires i < |INHERIT_FIELDS|
    ensures var f := INHERIT_FIELDS[i]; OfFile(f) || f.QualityScore? || f.Complexity?
  {
  }

  lemma MethodKeepsFileFields(info: MethodInfo, file: Metadata, id: ChunkId, f: Field)
    requires OfFile(f)
    ensures Passed(MethodMetadata(info, file, id), file, f)
  {
  }

  lemma MethodDefaults(info: MethodInfo, file: Metadata, id: ChunkId)
    ensures var m := MethodMetadata(info, file, id);
            && Holds(m, QualityScore, if QualityScore in file then file[QualityScore] else Score(0.0))
            && Holds(m, Complexity, if Complexity in info.found then info.found[Complexity] else Str("unknown"))
            && LevelOf(m) == LevelOf(file) && LinkOf(m) == Id(id)
  {
  }

  lemma OwnFlags(reading: Reading, parent: Metadata, kind: string, name: string, start: int, end: int, code: string)
    ensures var m := ChildMetadata(reading, parent, kind, name, start, end, code);
            && Holds(m, ParentChunkId, LinkOf(parent)) && Holds(m, IsNested, Flag(true))
            && Holds(m, NestingLevel, Number(LevelOf(parent) + 1))
  {
  }

  /** A field that a child has is passed on, or one of its own. */
  predicate PassedOrOwn(m: Metadata, parent: Metadata, f: Field) {
    && (OfFile(f) || f.QualityScore? || f.Complexity? ==> Passed(m, parent, f))
    && (f in m ==> OfFile(f) || f.QualityScore? || f.Complexity? || OfNested(f))
  }

  lemma NestedField(reading: Reading, parent: Metadata, kind: string, name: string, start: int, end: int,
                    code: string, f: Field)
    ensures PassedOrOwn(ChildMetadata(reading, parent, kind, name, start, end, code), parent, f)
  {
    ChildInherits(reading, parent, kind, name, start, end, code, f);
    if f in INHERIT_FIELDS {
      var i :| 0 <= i < |INHERIT_FIELDS| && INHERIT_FIELDS[i] == f;
      InheritedIsStructural(i);
    } else if OfFile(f) || f.QualityScore? || f.Complexity? {
      StructuralIsInherited(f);
    }
    OwnFieldsAre(f);
  }

  lemma OwnFieldsAre(f: Field)
    ensures f in OWN_FIELDS <==> OfNested(f)
  {
  }

  lemma NothingElse(m: Metadata, whole: Metadata)
    requires forall f: Field :: PassedOrOwn(m, whole, f)
    ensures forall f | f in m :: OfFile(f) || f.QualityScore? || f.Complexity? || OfNested(f)
  {
    forall f | f in m
      ensures OfFile(f) || f.QualityScore? || f.Complexity? || OfNested(f)
    {
      assert PassedOrOwn(m, whole, f);
    }
  }

  lemma PassedThrough(m: Metadata, whole: Metadata, file: Metadata, info: MethodInfo, id: ChunkId)
    requires whole == MethodMetadata(info, file, id)
    requires forall f: Field :: PassedOrOwn(m, whole, f)
    requires Holds(m, ParentChunkId, LinkOf(whole)) && Holds(m, IsNested, Flag(true))
    requires Holds(m, NestingLevel, Number(LevelOf(whole) + 1))
    ensures Inherited(m, file, info, id)
  {
    MethodDefaults(info, file, id);
    assert PassedOrOwn(m, whole, QualityScore) && PassedOrOwn(m, whole, Complexity);
    forall f | OfFile(f)
      ensures Passed(m, file, f)
    {
      assert PassedOrOwn(m, whole, f);
      MethodKeepsFileFields(info, file, id, f);
    }
    NothingElse(m, whole);
  }

  /** The file's structural fields reach every nested chunk, past the method's own dictionary;
      quality and complexity come with their defaults; and no other key does. */
  lemma FileFieldsReachTheNested(reading: Reading, info: MethodInfo, file: Metadata, id: ChunkId,
                                 original: string, s: Symbol)
    requires Named(s)
    ensures Inherited(ChildChunk(reading, MethodMetadata(info, file, id), id, info.name, original, s).metadata,
                      file, info, id)
  {
    var whole := MethodMetadata(info, file, id);
    var code := Lines.ExtractByLines(original, s.Start(), s.End());
    var m := ChildMetadata(reading, whole, s.kind.value, s.name.value, s.Start(), s.End(), code);
    forall f: Field
      ensures PassedOrOwn(m, whole, f)
    {
      NestedField(reading, whole, s.kind.value, s.name.value, s.Start(), s.End(), code, f);
    }
    OwnFlags(reading, whole, s.kind.value, s.name.value, s.Start(), s.End(), code);
    PassedThrough(m, whole, file, info, id);
  }

  // ---------------------------------------------------------------- what a nested chunk derives

  /** What the method is for, with what the nested symbol is for behind it. */
  function Specialised(operation: string, kind: string, purpose: string): string {
    if operation == "" then purpose
    else operation + (if kind == "nested_function" then " - " + purpose
                      else if kind in {"try_catch", "try_except", "rescue_block"} then " - error handling" else "")
  }

  /** Keyword `i` of a nested chunk: the method's come first, bare ones with 0.8, then the words
      found in its own code with 0.6. */
  function KeywordAt(found: seq<Keyword>, words: seq<string>, i: nat): Keyword
    requires i < |found| + |words|
  {
    if i >= |found| then Weighed(words[i - |found|], 0.6)
    else if found[i].Bare? then Weighed(found[i].word, 0.8)
    else found[i]
  }

  /** A nested chunk's operation specialises what was found about the method, not about the file,
      and its keywords are the method's and at most three of its own, ten in all. */
  lemma NestedDerives(reading: Reading, info: MethodInfo, file: Metadata, id: ChunkId, original: string, s: Symbol)
    requires Named(s)
    ensures var c := ChildChunk(reading, MethodMetadata(info, file, id), id, info.name, original, s);
            var found, words := KeywordsOf(info.found), reading.keywords(c.content);
            var kws := KeywordsOf(c.metadata);
            var all := |found| + (if |words| < 3 then |words| else 3);
            && TextOf(c.metadata, BusinessOperation)
               == Specialised(TextOf(info.found, BusinessOperation), s.kind.value, reading.purpose(s.name.value))
            && |kws| == (if all < 10 then all else 10)
            && forall i | 0 <= i < |kws| :: kws[i] == KeywordAt(found, words, i)
  {
    var whole := MethodMetadata(info, file, id);
    var code := Lines.ExtractByLines(original, s.Start(), s.End());
    ChildFields(reading, whole, s.kind.value, s.name.value, s.Start(), s.End(), code);
    ChildOperation(reading, whole, s.kind.value, s.name.value, s.Start(), s.End(), code);
    MethodDerived(info, file, id);
    KeywordsAre(reading, KeywordsOf(whole), code);
  }

  lemma MethodDerived(info: MethodInfo, file: Metadata, id: ChunkId)
    ensures var m := MethodMetadata(info, file, id);
            && TextOf(m, BusinessOperation) == TextOf(info.found, BusinessOperation)
            && KeywordsOf(m) == KeywordsOf(info.found)
  {
  }

  lemma ChildOperation(reading: Reading, parent: Metadata, kind: string, name: string, start: int, end: int,
                       code: string)
    ensures TextOf(ChildMetadata(reading, parent, kind, name, start, end, code), BusinessOperation)
         == Specialised(TextOf(parent, BusinessOperation), kind, reading.purpose(name))
  {
    var operation := TextOf(parent, BusinessOperation);
    assert operation + (" - " + reading.purpose(name)) == operation + " - " + reading.purpose(name);
    assert operation + "" == operation;
  }

  lemma KeywordsAre(reading: Reading, found: seq<Keyword>, code: string)
    ensures var kws, words := ChildKeywords(reading, found, code), reading.keywords(code);
            var all := |found| + (if |words| < 3 then |words| else 3);
            && |kws| == (if all < 10 then all else 10)
            && forall i | 0 <= i < |kws| :: kws[i] == KeywordAt(found, words, i)
  {
    var words := reading.keywords(code);
    var kept := Take(Take(words, 5), 3);
    var all := WeighedKeywords(found, kept);
    assert kept <= words;
    forall i | 0 <= i < |all|
      ensures all[i] == KeywordAt(found, words, i)
    {
      if i >= |found| {
        assert all[|found| + (i - |found|)] == Weighed(kept[i - |found|], 0.6);
      }
    }
  }

  // ---------------------------------------------------------------- a method that is split

  /** What the metadata of a split method's own chunk holds in a field. */
  predicate ParentField(m: Metadata, file: Metadata, info: MethodInfo, id: ChunkId, f: Field) {
    match f
    case ChunkType => Holds(m, f, Str("method"))
    case Name => Holds(m, f, Str(info.name))
    case StartLine => Holds(m, f, Number(info.start))
    case EndLine => Holds(m, f, Number(info.end))
    case BusinessOperation => Holds(m, f, if f in info.found then info.found[f] else Str(""))
    case Complexity => Holds(m, f, if f in info.found then info.found[f] else Str("unknown"))
    case ContextualKeywords => Holds(m, f, if f in info.found then info.found[f] else Keywords([]))
    case QualityScore => Holds(m, f, if f in file then file[f] else Score(0.0))
    case IdOfChunk => Holds(m, f, Id(id))
    case _ => Passed(m, file, f)
  }

  /** The chunk of a method that is split has every field of the file but those that say what the
      method is and what was found about it. */
  lemma SplitMethodFields(info: MethodInfo, file: Metadata, id: ChunkId, f: Field)
    ensures ParentField(MethodMetadata(info, file, id), file, info, id, f)
  {
    var own := MethodMetadata(info, map[QualityScore := OrElse(file, QualityScore, Score(0.0))], id);
    OwnOfSplit(info, file, id, own, f);
    Overlaid(file, own, f);
    assert MethodMetadata(info, file, id) == file + own;
  }

  lemma OwnOfSplit(info: MethodInfo, file: Metadata, id: ChunkId, own: Metadata, f: Field)
    requires own == MethodMetadata(info, map[QualityScore := OrElse(file, QualityScore, Score(0.0))], id)
    ensures f in own ==> ParentField(own, file, info, id, f)
    ensures f !in own ==> forall m: Metadata :: Passed(m, file, f) ==> ParentField(m, file, info, id, f)
  {
  }

  lemma Overlaid(file: Metadata, own: Metadata, f: Field)
    ensures if f in own then Holds(file + own, f, own[f]) else Passed(file + own, file, f)
  {
  }

  // ---------------------------------------------------------------- a method kept whole

  /** What an unsplit method's metadata holds in a field. */
  predicate WholeField(m: Metadata, file: Metadata, info: MethodInfo, nested: nat, f: Field) {
    if OfMethod(f) && f in info.found then Holds(m, f, info.found[f])
    else
      match f
      case ChunkType => Holds(m, f, Str("method"))
      case Name => Holds(m, f, Str(info.name))
      case StartLine => Holds(m, f, Number(info.start))
      case EndLine => Holds(m, f, Number(info.end))
      case HasNestedSymbols => Holds(m, f, Flag(nested != 0))
      case NestedCount => Holds(m, f, Number(nested))
      case _ => Passed(m, file, f)
  }

  /** A method that is kept whole has every field of the file but those found about it and those
      that say where it stands and how many symbols it holds. */
  lemma WholeMethodFields(info: MethodInfo, code: string, file: Metadata, nested: nat, document: string, f: Field)
    ensures WholeField(SingleChunk(info, code, file, nested, document).metadata, file, info, nested, f)
  {
    var fixed := map[
      ChunkType := Str("method"), Name := Str(info.name), StartLine := Number(info.start),
      EndLine := Number(info.end), HasNestedSymbols := Flag(nested > 0), NestedCount := Number(nested)];
    MethodFields(f);
    FixedField(info, file, nested, fixed, f);
    Overwritten(file + fixed, info.found, METHOD_FIELDS, f);
  }

  lemma FixedField(info: MethodInfo, file: Metadata, nested: nat, fixed: Metadata, f: Field)
    requires fixed == map[
      ChunkType := Str("method"), Name := Str(info.name), StartLine := Number(info.start),
      EndLine := Number(info.end), HasNestedSymbols := Flag(nested > 0), NestedCount := Number(nested)]
    ensures WholeField(file + fixed, file, info.(found := map[]), nested, f)
  {
  }

  lemma Overwritten(m: Metadata, found: Metadata, fields: seq<Field>, f: Field)
    ensures if f in fields && f in found then Holds(m + Inheriting(found, fields), f, found[f])
            else Passed(m + Inheriting(found, fields), m, f)
  {
  }

  lemma MethodFields(f: Field)
    ensures OfMethod(f) <==> f in METHOD_FIELDS
  {
    var s := METHOD_FIELDS;
    assert s[0] == Signature && s[1] == BusinessOperation && s[2] == Complexity
        && s[3] == Parameters && s[4] == ReturnType && s[5] == Visibility;
  }
}
