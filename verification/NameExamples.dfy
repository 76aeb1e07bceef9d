/** Names at which the canonicaliser does not do what one would expect of it. */
module NameExamples {
  import opened Ascii
  import opened Text
  import opened NameRewrites
  import opened Wrappers
  import opened Canonicaliser
  import opened SecondPass

  // ---------------------------------------------------------------- names dropped by a second pass

  lemma AcceptedAs(e: Entity, v: string, medical: set<string>)
    requires !e.entityType.Technical? && Stripped(e.name) && !Rejected(e.entityType, e.name, medical)
    requires CanonicalName(e.name) == v
    ensures Canonicalise(e, None, medical) == Some(e.(name := v))
  {
    StripIsStripped(e.name);
    RenamedWithoutList(e.entityType, e.name, v);
    KeptOrNew(e.name, v);
    FirstPassGives(e, e.name, v, v, None, medical);
  }

  lemma RenamedWithoutList(t: EntityType, name: string, v: string)
    requires CanonicalName(name) == v
    ensures Renamed(t, name, None) == Some(v)
  {
  }

  lemma KeptOrNew(name: string, v: string)
    ensures NewName(name, name, v) == v
  {
  }

  lemma FirstPassGives(e: Entity, name: string, v: string, n: string, wl: Option<Whitelist>, medical: set<string>)
    requires !e.entityType.Technical? && name == Strip(e.name) && !Rejected(e.entityType, name, medical)
    requires Renamed(e.entityType, name, wl) == Some(v) && NewName(e.name, name, v) == n
    ensures Canonicalise(e, wl, medical) == Some(e.(name := n))
  {
  }

  lemma RejectedAs(e: Entity, medical: set<string>)
    requires !e.entityType.Technical? && Stripped(e.name) && Rejected(e.entityType, e.name, medical)
    ensures Canonicalise(e, None, medical) == None
  {
    StripIsStripped(e.name);
  }

  lemma UnderscoreBecomesEmpty()
    ensures CanonicalName("_") == ""
  {
    assert Apply(UnderscoreToSpace, "_") == " ";
    NothingToSplit(" ");
    assert Words(" ") == [] by { assert " "[1..] == ""; }
    assert PartsOf("_") == [];
    CanonicalForm("_");
  }

  /** A tool named "_" is accepted under the empty name, which a second pass rejects. */
  lemma SecondPassMayReject(e: Entity, medical: set<string>)
    requires e.entityType.Tool? && e.name == "_"
    ensures Canonicalise(e, None, medical) == Some(e.(name := ""))
    ensures Canonicalise(e.(name := ""), None, medical) == None
  {
    UnderscoreBecomesEmpty();
    assert e.name != "Tool" by { assert |e.name| == 1; }
    AcceptedAs(e, "", medical);
    RejectedAs(e.(name := ""), medical);
  }

  lemma SmallWord(w: string)
    requires w != "" && forall i | 0 <= i < |w| :: IsLower(w[i])
    ensures IsWord(w) && CanonicalName(w) == TitleWord(w)
  {
    assert Apply(UnderscoreToSpace, w) == w;
    NothingToSplit(w);
    WordsOfWord(w);
    CanonicalForm(w);
    assert TitleWords([w]) == [TitleWord(w)];
  }

  lemma LabelOf(t: EntityType, w: string) returns (own: string)
    requires (t.Tool? && w == "tool") || (t.Organization? && w == "organization")
    ensures own == t.Label() && own == CanonicalName(w) && own != w && IsWord(own) && IsWord(w)
  {
    own := t.Label();
    SmallWord(w);
    if t.Tool? { ToolLabel(); } else { OrganizationLabel(); }
    assert own[0] != w[0];
  }

  lemma AcceptedThenRejected(e: Entity, own: string, medical: set<string>)
    requires e.entityType.Tool? || e.entityType.Organization?
    requires IsWord(own) && IsWord(e.name) && own != e.name
    requires own == e.entityType.Label() && own == CanonicalName(e.name)
    ensures Canonicalise(e, None, medical) == Some(e.(name := own))
    ensures Canonicalise(e.(name := own), None, medical) == None
  {
    AcceptedAs(e, own, medical);
    RejectedAs(e.(name := own), medical);
  }

  /** A tool named "tool", or an organization named "organization", is accepted under its
      type's own label, which a second pass rejects. */
  lemma LabelInSmallLetters(e: Entity, medical: set<string>)
    requires (e.entityType.Tool? && e.name == "tool") || (e.entityType.Organization? && e.name == "organization")
    ensures Canonicalise(e, None, medical) == Some(e.(name := e.entityType.Label()))
    ensures Canonicalise(e.(name := e.entityType.Label()), None, medical) == None
  {
    var own := LabelOf(e.entityType, e.name);
    AcceptedThenRejected(e, own, medical);
  }

  // ---------------------------------------------------------------- a name on the reject list

  predicate Titled(w: string) {
    w != "" && IsUpper(w[0]) && forall i | 1 <= i < |w| :: IsLower(w[i])
  }

  lemma TitledWord(w: string)
    requires Titled(w)
    ensures IsWord(w) && NoBoundary(w) && Lower(w[1..]) == w[1..] && ToUpper(w[0]) == w[0]
    ensures Apply(UnderscoreToSpace, w) == w
  {
    assert forall i | 0 <= i < |w[1..]| :: w[1..][i] == w[i + 1];
  }

  predicate Small(a: string) {
    a != "" && forall i | 0 <= i < |a| :: IsLower(a[i])
  }

  lemma SplitBetween(s: string, tail: string)
    requires |s| >= 2 && IsLower(s[0]) && IsUpper(s[1]) && s[2..] == tail && NoBoundary(tail)
    ensures SplitLowerUpper(s) == [s[0], ' ', s[1]] + tail
  {
    NothingToSplit(tail);
  }

  lemma SplitAtTitled(c: char, o: string, s: string)
    requires IsLower(c) && Titled(o) && s == [c] + o
    ensures SplitLowerUpper(s) == [c] + (" " + o)
  {
    var tail := o[1..];
    TitledWord(o);
    TailHasNoBoundary(o, 1);
    SplitBetween(s, tail);
    Regroup(c, o);
  }

  lemma Regroup(c: char, o: string)
    requires o != ""
    ensures [c, ' ', o[0]] + o[1..] == [c] + (" " + o)
  {
  }

  lemma {:induction false} SplitSmallFromTitled(a: string, o: string)
    requires Small(a) && Titled(o)
    ensures SplitLowerUpper(a + o) == a + (" " + o)
    decreases |a|
  {
    if |a| == 1 {
      SplitAtTitled(a[0], o, a + o);
    } else {
      var s := a + o;
      assert s[1..] == a[1..] + o && !IsUpper(s[1]);
      SplitSmallFromTitled(a[1..], o);
      assert [a[0]] + (a[1..] + (" " + o)) == a + (" " + o);
    }
  }

  lemma CapitalFirst(s: string, rest: string)
    requires s != "" && IsUpper(s[0]) && s[1..] == rest
    ensures SplitLowerUpper(s) == [s[0]] + SplitLowerUpper(rest)
  {
  }

  /** A name of two titled words run together is split between them. */
  lemma SplitTitledPair(p: string, o: string)
    requires Titled(p) && Titled(o) && |p| >= 2
    ensures SplitCamelCase(p + o) == p + " " + o
  {
    var a, s := p[1..], p + o;
    SplitSmallFromTitled(a, o);
    CapitalFirst(s, a + o);
    assert [p[0]] + (a + (" " + o)) == p + " " + o;
    NothingToSplit(p + " " + o);
  }

  lemma WordsOfPair(p: string, o: string)
    requires IsWord(p) && IsWord(o)
    ensures Words(p + " " + o) == [p, o] && Join([p, o]) == p + " " + o
  {
    assert [p, o][1..] == [o];
    WordsOfJoin([p, o]);
  }

  lemma PartsOfPair(p: string, o: string)
    requires Titled(p) && Titled(o) && |p| >= 2
    ensures PartsOf(p + o) == [p, o]
  {
    TitledWord(p);
    TitledWord(o);
    assert Apply(UnderscoreToSpace, p + o) == p + o;
    SplitTitledPair(p, o);
    WordsOfPair(p, o);
  }

  lemma TitledStays(w: string)
    requires Titled(w) && Upper(w) !in ACRONYMS
    ensures IsWord(w) && TitleWord(w) == w
  {
    TitledWord(w);
    assert w == [w[0]] + w[1..];
  }

  lemma TitledPairStays(p: string, o: string)
    requires Titled(p) && Titled(o) && Upper(p) !in ACRONYMS && Upper(o) !in ACRONYMS
    ensures TitleWords([p, o]) == [p, o] && Join([p, o]) == p + " " + o
  {
    TitledStays(p);
    TitledStays(o);
    WordsOfPair(p, o);
  }

  lemma CanonicalPair(p: string, o: string)
    requires Titled(p) && Titled(o) && |p| >= 2 && Upper(p) !in ACRONYMS && Upper(o) !in ACRONYMS
    ensures CanonicalName(p + o) == p + " " + o
  {
    PartsOfPair(p, o);
    CanonicalForm(p + o);
    TitledPairStays(p, o);
  }

  lemma LowerOfPair(p: string, q: string)
    ensures Lower(p + " " + q) == Lower(p) + " " + Lower(q)
  {
    ApplyConcat(ToLower, p + " ", q);
    ApplyConcat(ToLower, p, " ");
  }

  lemma NormalisedPair(p: string, o: string)
    requires Titled(p) && Titled(o)
    ensures NormaliseForReject(p + " " + o) == Lower(p) + " " + Lower(o)
  {
    var lowered := Lower(p) + " " + Lower(o);
    LowerOfPair(p, o);
    assert Apply(HyphenToSpace, lowered) == lowered;
    WordsOfPair(Lower(p), Lower(o));
  }

  lemma NormalisedRunTogether(p: string, o: string)
    requires Titled(p) && Titled(o)
    ensures NormaliseForReject(p + o) == Lower(p) + Lower(o)
  {
    var lowered := Lower(p) + Lower(o);
    ApplyConcat(ToLower, p, o);
    assert Apply(HyphenToSpace, lowered) == lowered;
    WordsOfWord(lowered);
  }

  lemma PetAndOwner(p: string, o: string)
    requires p == "Pet" && o == "Owner"
    ensures Titled(p) && Titled(o) && Upper(p) !in ACRONYMS && Upper(o) !in ACRONYMS
    ensures p + o == "PetOwner" && p + " " + o == "Pet Owner"
  {
    assert Upper(p)[0] == 'P' && |Upper(p)| == 3;
    assert Upper(o)[0] == 'O';
  }

  lemma PetOwnerInSmallLetters(p: string, o: string)
    requires p == "Pet" && o == "Owner"
    ensures Lower(p) + " " + Lower(o) == "pet owner" && Lower(p) + Lower(o) == "petowner"
  {
  }

  lemma PetOwnerIsRejected(p: string, o: string)
    requires p == "Pet" && o == "Owner"
    ensures Rejected(BusinessDomain, p + " " + o, MEDICAL_REJECTS)
  {
    PetAndOwner(p, o);
    NormalisedPair(p, o);
    PetOwnerInSmallLetters(p, o);
  }

  lemma UnsplitIsNotRejected(p: string, o: string)
    requires p == "Pet" && o == "Owner"
    ensures !Rejected(BusinessDomain, p + o, MEDICAL_REJECTS)
  {
    PetAndOwner(p, o);
    NormalisedRunTogether(p, o);
    PetOwnerInSmallLetters(p, o);
    NotOnTheList("petowner");
  }

  lemma NotOnTheList(name: string)
    requires |name| == 8 && name[..2] == "pe" && name[2] == 't'
    ensures name !in MEDICAL_REJECTS
  {
    assert name[0] == 'p' && name[1] == 'e';
  }

  /** "PetOwner" is not on the reject list, and is accepted as "Pet Owner", which is. */
  lemma PetOwnerPasses(e: Entity)
    requires e.entityType.BusinessDomain? && e.name == "PetOwner"
    ensures Canonicalise(e, None, MEDICAL_REJECTS) == Some(e.(name := "Pet Owner"))
    ensures Canonicalise(e.(name := "Pet Owner"), None, MEDICAL_REJECTS) == None
  {
    PetAndOwner("Pet", "Owner");
    UnsplitIsNotRejected("Pet", "Owner");
    PetOwnerIsRejected("Pet", "Owner");
    CanonicalPair("Pet", "Owner");
    AcceptedAs(e, "Pet Owner", MEDICAL_REJECTS);
    RejectedAs(e.(name := "Pet Owner"), MEDICAL_REJECTS);
  }

  // ---------------------------------------------------------------- a name with blanks around it

  lemma KeyOfTitled(w: string)
    requires Titled(w)
    ensures WhitelistKey(w) == Lower(w)
  {
    TitledWord(w);
    LettersAreNoSeparators(w);
    NothingToSplit(w);
    WordsOfWord(w);
  }

  lemma LettersAreNoSeparators(w: string)
    requires forall i | 0 <= i < |w| :: IsLower(w[i]) || IsUpper(w[i])
    ensures Apply(SeparatorToSpace, w) == w
  {
  }

  lemma NormalisedTitled(w: string)
    requires Titled(w)
    ensures NormaliseForReject(w) == Lower(w)
  {
    assert Apply(HyphenToSpace, Lower(w)) == Lower(w);
    WordsOfWord(Lower(w));
  }

  lemma StripBlanks(given: string, w: string)
    requires IsWord(w) && given == " " + w + " "
    ensures Strip(given) == w
  {
    var t := w + " ";
    assert given[1..] == t && StripLeft(t) == t;
    assert t[|t| - 1] == ' ' && t[..|t| - 1] == w;
    assert StripRight(w) == w;
  }

  lemma Sales(w: string)
    requires w == "Sales"
    ensures Titled(w) && IsWord(w) && Lower(w) == "sales" && "sales" !in MEDICAL_REJECTS
  {
    assert "sales"[0] == 's';
  }

  lemma SalesIsNotRejected(w: string)
    requires w == "Sales"
    ensures !Rejected(BusinessDomain, w, MEDICAL_REJECTS)
  {
    Sales(w);
    NormalisedTitled(w);
    assert w[0] == 'S';
  }

  lemma SalesIsListed(w: string, wl: Whitelist)
    requires w == "Sales" && wl == [("sales", w)]
    ensures KeyedByName(wl) && Renamed(BusinessDomain, w, Some(wl)) == Some(w)
  {
    Sales(w);
    KeyOfTitled(w);
    assert Keyed(wl[0]);
    ListedNameMatchesItself(wl, 0);
  }

  /** " Sales " is accepted for the whitelist's "Sales" as it is, blanks and all. */
  lemma BlanksAreKept(e: Entity, wl: Whitelist)
    requires e.entityType.BusinessDomain? && e.name == " Sales " && wl == [("sales", "Sales")]
    ensures KeyedByName(wl) && Canonicalise(e, Some(wl), MEDICAL_REJECTS) == Some(e) && !IsValue(wl, e.name)
  {
    var w := "Sales";
    Sales(w);
    StripBlanks(e.name, w);
    SalesIsNotRejected(w);
    SalesIsListed(w, wl);
    FirstPassGives(e, w, w, e.name, Some(wl), MEDICAL_REJECTS);
    assert |e.name| == 7 && |wl[0].1| == 5;
  }

  // ---------------------------------------------------------------- a name with a remark behind it

  lemma BlankFirst(s: string, rest: string)
    requires s == " " + rest
    ensures Words(s) == Words(rest)
  {
    assert s[1..] == rest;
  }

  lemma BlankLast(q: string, t: string)
    requires IsWord(q) && t == q + " "
    ensures Words(t) == [q]
  {
    FirstWord(q, " ");
    BlankFirst(" ", "");
  }

  lemma BlanksBetween(p: string, q: string, s: string)
    requires s == p + "  " + q + " "
    ensures s == p + (" " + (" " + (q + " ")))
  {
  }

  lemma WordsOfRemark(p: string, q: string, s: string)
    requires IsWord(p) && IsWord(q) && s == p + "  " + q + " "
    ensures Words(s) == [p, q]
  {
    var tail := q + " ";
    var rest := " " + (" " + tail);
    BlankLast(q, tail);
    BlankFirst(" " + tail, tail);
    BlankFirst(rest, " " + tail);
    BlanksBetween(p, q, s);
    FirstWord(p, rest);
  }

  lemma SeparatedRemark(p: string, q: string)
    requires Titled(p) && Small(q)
    ensures Apply(SeparatorToSpace, p + " (" + q + ")") == p + "  " + q + " "
    ensures NoBoundary(p + "  " + q + " ")
  {
    ApplyConcat(SeparatorToSpace, p + " (" + q, ")");
    ApplyConcat(SeparatorToSpace, p + " (", q);
    ApplyConcat(SeparatorToSpace, p, " (");
    LettersAreNoSeparators(p);
    LettersAreNoSeparators(q);
    assert Apply(SeparatorToSpace, " (") == "  " && Apply(SeparatorToSpace, ")") == " ";
  }

  lemma KeyFromParts(s: string, separated: string, ws: seq<string>)
    requires Apply(SeparatorToSpace, s) == separated && NoBoundary(separated) && Words(separated) == ws
    ensures WhitelistKey(s) == Lower(Join(ws))
  {
    NothingToSplit(separated);
  }

  /** The key of a name with a remark in parentheses takes the remark in. */
  lemma KeyOfRemark(p: string, q: string)
    requires Titled(p) && Small(q)
    ensures WhitelistKey(p + " (" + q + ")") == Lower(p) + " " + q
  {
    var separated := p + "  " + q + " ";
    SeparatedRemark(p, q);
    TitledWord(p);
    SmallLetters(q);
    WordsOfRemark(p, q, separated);
    KeyFromParts(p + " (" + q + ")", separated, [p, q]);
    WordsOfPair(p, q);
    LowerOfPair(p, q);
  }

  lemma Appointments(p: string, q: string)
    requires p == "Appointments" && q == "legacy"
    ensures Titled(p) && Small(q) && Lower(p) == "appointments"
    ensures p + " (" + q + ")" == "Appointments (legacy)" && Lower(p) + " " + q == "appointments legacy"
  {
  }

  /** "Appointments (legacy)" has a key of its own; only the prefix match leads it to
      "Appointments". */
  lemma LegacyAppointments(wl: Whitelist)
    requires wl == [("appointments", "Appointments")]
    ensures WhitelistKey("Appointments") == "appointments"
    ensures WhitelistKey("Appointments (legacy)") == "appointments legacy"
    ensures IndexOf(wl, WhitelistKey("Appointments (legacy)")) == None
    ensures Match("Appointments (legacy)", wl) == Some("Appointments")
  {
    var p, q := "Appointments", "legacy";
    Appointments(p, q);
    KeyOfTitled(p);
    KeyOfRemark(p, q);
    MatchedByPrefix("Appointments (legacy)", wl, "appointments", "appointments legacy");
  }

  lemma MatchedByPrefix(name: string, wl: Whitelist, prefix: string, key: string)
    requires |wl| == 1 && wl[0].0 == prefix != "" && WhitelistKey(name) == key && prefix + " " <= key
    ensures IndexOf(wl, key) == None && Match(name, wl) == Some(wl[0].1)
  {
    assert |key| > |prefix|;
    assert wl[..0] == [];
  }
}
