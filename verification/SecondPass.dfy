/** Canonicalising what canonicalising gave: when the second pass changes nothing, and when
    it drops what the first accepted. */
module SecondPass {
  import opened Ascii
  import opened Text
  import opened NameRewrites
  import opened Wrappers
  import opened Canonicaliser

  // ---------------------------------------------------------------- canonical names to reject

  /** The parts of a name, joined: what its canonical form is spelled from, case aside. */
  function Spelling(name: string): string {
    Join(PartsOf(name))
  }

  /** The two labels without a camel-case boundary; no canonical name has one. */
  predicate SpellsLabel(t: EntityType, spelling: string) {
    || (t.Tool? && spelling == "tool")
    || (t.Organization? && spelling == "organization")
  }

  /** Nothing is left of the name, or its parts spell the type's own label or, for a
      business domain, a name of the reject list. */
  predicate BecomesRejected(t: EntityType, name: string, medical: set<string>) {
    || PartsOf(name) == []
    || SpellsLabel(t, Lower(Spelling(name)))
    || (t.BusinessDomain? && NormaliseForReject(Spelling(name)) in medical)
  }

  lemma EmptySpelling(name: string)
    ensures CanonicalName(name) == "" <==> PartsOf(name) == []
  {
    CanonicalForm(name);
    if PartsOf(name) != [] {
      assert TitleWords(PartsOf(name)) != [];
      assert Words("") == [];
    }
  }

  lemma NormalisingIgnoresCase(a: string, b: string)
    requires Lower(a) == Lower(b)
    ensures NormaliseForReject(a) == NormaliseForReject(b)
  {
  }

  lemma TitlingIgnoresCase(w: string, lowered: string)
    requires Lower(w) == lowered
    ensures TitleWord(w) == TitleWord(lowered)
  {
    UpperOfLower(w);
    if w != "" {
      assert Lower(w[1..]) == Lower(lowered[1..]);
      assert ToUpper(w[0]) == ToUpper(lowered[0]);
    }
  }

  lemma UpperOfLower(w: string)
    ensures Upper(Lower(w)) == Upper(w)
  {
  }

  lemma WordBehindCase(s: string, w: string)
    requires Lower(s) == w && IsWord(w)
    ensures IsWord(s)
  {
    assert forall i | 0 <= i < |s| :: w[i] == ToLower(s[i]);
  }

  /** A name spelled as one word has that word, titled, as its canonical form. */
  lemma OneWordName(name: string, w: string)
    requires IsWord(w) && Lower(Spelling(name)) == w
    ensures CanonicalName(name) == TitleWord(w)
  {
    var s := Spelling(name);
    WordBehindCase(s, w);
    WordsOfJoin(PartsOf(name));
    WordsOfWord(s);
    CanonicalForm(name);
    assert TitleWords([s]) == [TitleWord(s)];
    TitlingIgnoresCase(s, w);
  }

  lemma TitleOfSmallWord(w: string)
    requires w != "" && Lower(w) == w && Upper(w) !in ACRONYMS
    ensures TitleWord(w) == [ToUpper(w[0])] + w[1..] && Lower(TitleWord(w)) == w
  {
    var t := TitleWord(w);
    TitleIsCased(w);
    CasingKeepsLetters(false, w, t);
    CapitalAndRest(w, t);
  }

  lemma CapitalAndRest(w: string, t: string)
    requires w != "" && Lower(w) == w && Cased(false, w, t)
    ensures t == [ToUpper(w[0])] + w[1..]
  {
    assert forall i | 1 <= i < |w| :: t[i] == Lower(w)[i];
  }

  /** No acronym is longer than five letters. */
  lemma LongWord(w: string)
    requires |w| > 5
    ensures Upper(w) !in ACRONYMS
  {
    assert forall a | a in ACRONYMS :: |a| <= 5;
  }

  lemma ToolLabel()
    ensures IsWord("tool") && TitleWord("tool") == "Tool" && Lower("Tool") == "tool"
  {
    var w := "tool";
    assert Lower(w) == w;
    assert Upper(w) !in ACRONYMS by { assert Upper(w)[0] == 'T' && Upper(w)[1] == 'O'; }
    TitleOfSmallWord(w);
    assert TitleWord(w) == "Tool";
  }

  lemma OrganizationLabel()
    ensures IsWord("organization") && TitleWord("organization") == "Organization"
    ensures Lower("Organization") == "organization"
  {
    var w := "organization";
    SmallLetters(w);
    LongWord(w);
    TitleOfSmallWord(w);
    CapitalO(w);
  }

  lemma CapitalO(w: string)
    requires w == "organization"
    ensures [ToUpper(w[0])] + w[1..] == "Organization"
  {
  }

  lemma SmallLetters(w: string)
    requires forall i | 0 <= i < |w| :: IsLower(w[i])
    ensures NoSpace(w) && Lower(w) == w
  {
  }

  lemma CamelLabels()
    ensures !NoBoundary("BusinessDomain") && !NoBoundary("TechnicalTag")
  {
    assert BoundaryAt("BusinessDomain", 7);
    assert BoundaryAt("TechnicalTag", 8);
  }

  /** When a canonical name is the label of its type. */
  lemma CanonicalLabel(t: EntityType, name: string)
    requires !t.Technical?
    ensures CanonicalName(name) == t.Label() <==> SpellsLabel(t, Lower(Spelling(name)))
  {
    CanonicalForm(name);
    CanonicalNameOnlyChangesCase(name);
    match t
    case BusinessDomain => CamelLabels();
    case TechnicalTag => CamelLabels();
    case Tool =>
      ToolLabel();
      if Lower(Spelling(name)) == "tool" { OneWordName(name, "tool"); }
    case Organization =>
      OrganizationLabel();
      if Lower(Spelling(name)) == "organization" { OneWordName(name, "organization"); }
  }

  lemma CanonicalNameIsRejected(t: EntityType, name: string, medical: set<string>)
    requires !t.Technical?
    ensures Rejected(t, CanonicalName(name), medical) <==> BecomesRejected(t, name, medical)
  {
    EmptySpelling(name);
    CanonicalLabel(t, name);
    CanonicalNameOnlyChangesCase(name);
    NormalisingIgnoresCase(CanonicalName(name), Spelling(name));
  }

  // ---------------------------------------------------------------- the second pass

  /** The name an entity is to go by, told from the name it came with: with a whitelist a
      business domain takes the one it matches there. */
  function NameToCome(t: EntityType, name: string, wl: Option<Whitelist>): Option<string> {
    if t.BusinessDomain? && wl.Some? then Match(name, wl.value) else Some(CanonicalName(name))
  }

  lemma MatchIgnoresCanonicalising(name: string, wl: Whitelist)
    ensures Match(CanonicalName(name), wl) == Match(name, wl)
  {
    KeyOfCanonicalName(name);
  }

  lemma RenamedToCome(t: EntityType, name: string, wl: Option<Whitelist>)
    ensures Renamed(t, name, wl) == NameToCome(t, name, wl)
  {
    if wl.Some? { MatchIgnoresCanonicalising(name, wl.value); }
  }

  /** Whether that name is one to reject. */
  predicate DroppedNextTime(t: EntityType, name: string, wl: Option<Whitelist>, medical: set<string>) {
    if t.BusinessDomain? && wl.Some? then ListedToReject(Match(name, wl.value), medical)
    else BecomesRejected(t, name, medical)
  }

  predicate ListedToReject(listed: Option<string>, medical: set<string>) {
    listed.Some? && Rejected(BusinessDomain, listed.value, medical)
  }

  lemma RejectedNext(t: EntityType, name: string, wl: Option<Whitelist>, medical: set<string>, v: string)
    requires !t.Technical? && NameToCome(t, name, wl) == Some(v)
    ensures Rejected(t, v, medical) <==> DroppedNextTime(t, name, wl, medical)
  {
    if wl.None? || !t.BusinessDomain? { CanonicalNameIsRejected(t, name, medical); }
  }

  /** A name that renaming has produced is stripped and is renamed to itself. */
  lemma RenamedIsFixed(t: EntityType, name: string, wl: Option<Whitelist>)
    requires wl.Some? ==> KeyedByName(wl.value)
    requires Renamed(t, name, wl).Some?
    ensures var v := Renamed(t, name, wl).value;
            Strip(v) == v && Renamed(t, v, wl) == Some(v)
  {
    if t.BusinessDomain? && wl.Some? {
      var i := MatchHasKey(CanonicalName(name), wl.value);
      ListedNameMatchesItself(wl.value, i);
      assert Keyed(wl.value[i]);
      StripIsStripped(wl.value[i].1);
    } else {
      CanonicalForm(name);
      CanonicalNameIsIdempotent(name);
      StripIsStripped(CanonicalName(name));
    }
  }

  lemma FixedNameStays(e: Entity, name: string, wl: Option<Whitelist>, medical: set<string>)
    requires !e.entityType.Technical? && name == Strip(e.name) && Renamed(e.entityType, name, wl) == Some(name)
    ensures Canonicalise(e, wl, medical) == if Rejected(e.entityType, name, medical) then None else Some(e)
  {
  }

  lemma StrippedNewName(given: string, v: string)
    requires Strip(v) == v
    ensures Strip(NewName(given, Strip(given), v)) == v
  {
  }

  /** The result of the first pass, and the name it has. */
  lemma FirstPass(e: Entity, wl: Option<Whitelist>, medical: set<string>) returns (out: Entity, v: string)
    requires wl.Some? ==> KeyedByName(wl.value)
    requires !e.entityType.Technical? && Canonicalise(e, wl, medical).Some?
    ensures Canonicalise(e, wl, medical) == Some(out) && out.entityType == e.entityType && Strip(out.name) == v
    ensures NameToCome(e.entityType, Strip(e.name), wl) == Some(v) && Renamed(e.entityType, v, wl) == Some(v)
  {
    RenamedToCome(e.entityType, Strip(e.name), wl);
    RenamedIsFixed(e.entityType, Strip(e.name), wl);
    v := Renamed(e.entityType, Strip(e.name), wl).value;
    StrippedNewName(e.name, v);
    out := e.(name := NewName(e.name, Strip(e.name), v));
  }

  /** Canonicalising an accepted entity's canonical form gives it back unchanged, unless the
      name it now has is to be rejected; the entity as it came tells which. */
  lemma CanonicaliseTwice(e: Entity, wl: Option<Whitelist>, medical: set<string>)
    requires wl.Some? ==> KeyedByName(wl.value)
    requires Canonicalise(e, wl, medical).Some?
    ensures Canonicalise(Canonicalise(e, wl, medical).value, wl, medical) ==
              if !e.entityType.Technical? && DroppedNextTime(e.entityType, Strip(e.name), wl, medical) then None
              else Canonicalise(e, wl, medical)
  {
    if !e.entityType.Technical? {
      var out, v := FirstPass(e, wl, medical);
      FixedNameStays(out, v, wl, medical);
      RejectedNext(e.entityType, Strip(e.name), wl, medical, v);
    }
  }

  /** The reject list is consulted before the name is split and titled. So an accepted
      business domain can come out under a name on the list: when its split name is, or the
      whitelist name it matches. */
  lemma AcceptedDomainOnTheList(e: Entity, wl: Option<Whitelist>, medical: set<string>)
    requires wl.Some? ==> KeyedByName(wl.value)
    requires e.entityType.BusinessDomain? && Canonicalise(e, wl, medical).Some?
    ensures NormaliseForReject(Strip(Canonicalise(e, wl, medical).value.name)) in medical <==>
              NormaliseForReject(SplitOrListed(Strip(e.name), wl)) in medical
  {
    var out, v := FirstPass(e, wl, medical);
    NormalisedToCome(Strip(e.name), wl, v);
  }

  function SplitOrListed(name: string, wl: Option<Whitelist>): string {
    if wl.None? then Spelling(name) else
      var listed := Match(name, wl.value);
      if listed.Some? then listed.value else ""
  }

  lemma NormalisedToCome(name: string, wl: Option<Whitelist>, v: string)
    requires NameToCome(BusinessDomain, name, wl) == Some(v)
    ensures NormaliseForReject(v) == NormaliseForReject(SplitOrListed(name, wl))
  {
    if wl.None? {
      CanonicalNameOnlyChangesCase(name);
      NormalisingIgnoresCase(CanonicalName(name), Spelling(name));
    }
  }

  /** With a whitelist none of whose names is to be rejected, canonicalising is idempotent
      on business domains. */
  lemma WhitelistedIsIdempotent(e: Entity, rows: seq<string>, medical: set<string>)
    requires e.entityType.BusinessDomain?
    requires forall i | 0 <= i < |Built(rows)| :: !Rejected(BusinessDomain, Built(rows)[i].1, medical)
    ensures var r := Canonicalise(e, Some(Built(rows)), medical);
            r.Some? ==> Canonicalise(r.value, Some(Built(rows)), medical) == r
  {
    BuiltIsKeyedByName(rows);
    KeyedIsIdempotent(e, Built(rows), medical);
  }

  lemma KeyedIsIdempotent(e: Entity, wl: Whitelist, medical: set<string>)
    requires e.entityType.BusinessDomain? && KeyedByName(wl)
    requires forall i | 0 <= i < |wl| :: !Rejected(BusinessDomain, wl[i].1, medical)
    ensures var r := Canonicalise(e, Some(wl), medical);
            r.Some? ==> Canonicalise(r.value, Some(wl), medical) == r
  {
    if Canonicalise(e, Some(wl), medical).Some? {
      CanonicaliseTwice(e, Some(wl), medical);
      MatchIsNotRejected(Strip(e.name), wl, medical);
    }
  }

  lemma MatchIsNotRejected(name: string, wl: Whitelist, medical: set<string>)
    requires forall i | 0 <= i < |wl| :: !Rejected(BusinessDomain, wl[i].1, medical)
    ensures !ListedToReject(Match(name, wl), medical)
  {
    if Match(name, wl).Some? {
      var i := MatchHasKey(name, wl);
      assert !Rejected(BusinessDomain, wl[i].1, medical);
    }
  }
}
