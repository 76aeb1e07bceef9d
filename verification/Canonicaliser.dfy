/** Canonicalising or rejecting business-tag entities, with and without a whitelist. */
module Canonicaliser {
  import opened Text
  import opened NameRewrites
  import opened Wrappers

  const MEDICAL_REJECTS: set<string> := {
    "cardiology", "oncology", "electrocardiography", "emergency care", "internal medicine",
    "laboratory", "pharmacy", "boarding", "pet owner"
  }

  /** The four business-tag types, and all the technical ones. */
  datatype EntityType = BusinessDomain | TechnicalTag | Tool | Organization | Technical(name: string)
  {
    function Label(): string {
      match this
      case BusinessDomain => "BusinessDomain"
      case TechnicalTag => "TechnicalTag"
      case Tool => "Tool"
      case Organization => "Organization"
      case Technical(name) => name
    }
  }

  /** An entity: its type, its name, and whatever else it carries. */
  datatype Entity = Entity(entityType: EntityType, name: string, other: map<string, string>)

  /** An insertion-ordered dictionary from matching keys to names. */
  type Whitelist = seq<(string, string)>

  // ---------------------------------------------------------------- the whitelist

  function IndexOf(wl: Whitelist, key: string): (r: Option<nat>)
    ensures r.Some? ==> r.value < |wl| && wl[r.value].0 == key
    ensures r.None? ==> forall i | 0 <= i < |wl| :: wl[i].0 != key
    decreases |wl|
  {
    if wl == [] then None
    else if wl[|wl| - 1].0 == key then Some(|wl| - 1)
    else IndexOf(wl[..|wl| - 1], key)
  }

  /** `out[key] = value`: a known key keeps its place, a new one goes last. */
  function Put(wl: Whitelist, key: string, value: string): Whitelist {
    var at := IndexOf(wl, key);
    if at.Some? then wl[at.value := (key, value)] else wl + [(key, value)]
  }

  function Built(rows: seq<string>): Whitelist
    decreases |rows|
  {
    if rows == [] then [] else
      var before := Built(rows[..|rows| - 1]);
      var canonical := Strip(rows[|rows| - 1]);
      if canonical == "" then before else Put(before, WhitelistKey(canonical), canonical)
  }

  /** `build_business_domain_whitelist` */
  method BuildWhitelist(rows: seq<string>) returns (out: Whitelist)
    ensures out == Built(rows) && KeyedByName(out)
  {
    out := [];
    for i := 0 to |rows|
      invariant out == Built(rows[..i])
    {
      assert rows[..i + 1][..i] == rows[..i];
      var canonical := Strip(rows[i]);
      if canonical == "" {
        continue;
      }
      var key := WhitelistKey(canonical);
      out := Put(out, key, canonical);
    }
    assert rows[..|rows|] == rows;
    BuiltIsKeyedByName(rows);
  }

  predicate Keyed(entry: (string, string)) {
    entry.0 == WhitelistKey(entry.1) && entry.1 != "" && Stripped(entry.1)
  }

  /** Keys are distinct, and each is the key of the name it leads to. */
  predicate KeyedByName(wl: Whitelist) {
    && (forall i | 0 <= i < |wl| :: Keyed(wl[i]))
    && (forall i, j | 0 <= i < j < |wl| :: wl[i].0 != wl[j].0)
  }

  lemma PutKeepsKeyed(wl: Whitelist, key: string, value: string)
    requires KeyedByName(wl)
    requires key == WhitelistKey(value) && value != "" && Stripped(value)
    ensures KeyedByName(Put(wl, key, value))
  {
    PutPlaces(wl, key, value);
    var out := Put(wl, key, value);
    forall i | 0 <= i < |out| ensures Keyed(out[i]) {
      if out[i] != (key, value) { assert Keyed(wl[i]); }
    }
  }

  lemma PutPlaces(wl: Whitelist, key: string, value: string)
    requires forall i, j | 0 <= i < j < |wl| :: wl[i].0 != wl[j].0
    ensures var out := Put(wl, key, value);
            && (forall i | 0 <= i < |out| :: out[i] == (key, value) || (i < |wl| && out[i] == wl[i]))
            && (forall i, j | 0 <= i < j < |out| :: out[i].0 != out[j].0)
  {
  }

  lemma {:induction false} BuiltIsKeyedByName(rows: seq<string>)
    ensures KeyedByName(Built(rows))
    decreases |rows|
  {
    if rows != [] {
      BuiltIsKeyedByName(rows[..|rows| - 1]);
      var canonical := Strip(rows[|rows| - 1]);
      StripIsStripped(rows[|rows| - 1]);
      if canonical != "" { PutKeepsKeyed(Built(rows[..|rows| - 1]), WhitelistKey(canonical), canonical); }
    }
  }

  function PrefixMatch(wl: Whitelist, key: string): (r: Option<string>)
    ensures r.Some? ==> exists i :: 0 <= i < |wl| && wl[i].1 == r.value && wl[i].0 != ""
    decreases |wl|
  {
    if wl == [] then None
    else if wl[0].0 != "" && (key == wl[0].0 || wl[0].0 + " " <= key || wl[0].0 + "." <= key) then Some(wl[0].1)
    else
      var r := PrefixMatch(wl[1..], key);
      assert forall i | 0 <= i < |wl[1..]| :: wl[1..][i] == wl[i + 1];
      r
  }

  function Match(name: string, wl: Whitelist): Option<string> {
    var key := WhitelistKey(name);
    if key == "" then None
    else
      var at := IndexOf(wl, key);
      if at.Some? then Some(wl[at.value].1) else PrefixMatch(wl, key)
  }

  /** `_match_whitelist` */
  method MatchWhitelist(name: string, wl: Whitelist) returns (r: Option<string>)
    ensures r == Match(name, wl)
  {
    var key := WhitelistKey(name);
    if key == "" {
      return None;
    }
    var at := IndexOf(wl, key);
    if at.Some? {
      return Some(wl[at.value].1);
    }
    for i := 0 to |wl|
      invariant PrefixMatch(wl, key) == PrefixMatch(wl[i..], key)
    {
      assert wl[i..][0] == wl[i] && wl[i..][1..] == wl[i + 1..];
      if wl[i].0 == "" {
        continue;
      }
      if key == wl[i].0 || wl[i].0 + " " <= key || wl[i].0 + "." <= key {
        return Some(wl[i].1);
      }
    }
    return None;
  }

  // ---------------------------------------------------------------- canonicalising an entity

  function HyphenToSpace(c: char): char {
    if c == '_' || c == '-' then ' ' else c
  }

  function NormaliseForReject(name: string): string {
    Join(Words(Apply(HyphenToSpace, Lower(name))))
  }

  /** What is refused before renaming; `medical` is the reject list for business domains. */
  predicate Rejected(t: EntityType, name: string, medical: set<string>) {
    || name == ""
    || name == t.Label()
    || (t.BusinessDomain? && NormaliseForReject(name) in medical)
  }

  function Renamed(t: EntityType, name: string, wl: Option<Whitelist>): Option<string> {
    if t.BusinessDomain? && wl.Some? then Match(CanonicalName(name), wl.value) else Some(CanonicalName(name))
  }

  function Canonicalise(e: Entity, wl: Option<Whitelist>, medical: set<string>): Option<Entity> {
    if e.entityType.Technical? then Some(e)
    else if Rejected(e.entityType, Strip(e.name), medical) then None
    else Correct(e, Strip(e.name), Renamed(e.entityType, Strip(e.name), wl))
  }

  function Correct(e: Entity, name: string, renamed: Option<string>): Option<Entity> {
    if renamed.None? then None else Some(e.(name := NewName(e.name, name, renamed.value)))
  }

  /** A name that is right but for blanks around it is left as given. */
  function NewName(given: string, name: string, canonical: string): string {
    if canonical == name then given else canonical
  }

  /** `canonicalise_entity` */
  method CanonicaliseEntity(e: Entity, wl: Option<Whitelist>, medical: set<string> := MEDICAL_REJECTS)
    returns (r: Option<Entity>)
    ensures r == Canonicalise(e, wl, medical)
  {
    if e.entityType.Technical? {
      return Some(e);
    }
    var name := Strip(e.name);
    if name == "" {
      return None;
    }
    if name == e.entityType.Label() {
      return None;
    }
    if e.entityType == BusinessDomain {
      var normalised := NormaliseForReject(name);
      if normalised in medical {
        return None;
      }
    }
    var canonical := CanonicalName(name);
    if e.entityType == BusinessDomain && wl.Some? {
      var matched := MatchWhitelist(canonical, wl.value);
      if matched.None? {
        return None;
      }
      canonical := matched.value;
    }
    if canonical == name {
      return Some(e);
    }
    return Some(e.(name := canonical));
  }

  // ---------------------------------------------------------------- theorems

  predicate IsValue(wl: Whitelist, name: string) {
    exists i :: 0 <= i < |wl| && wl[i].1 == name
  }

  /** With a whitelist, the name an accepted business domain goes by, blanks around it aside,
      is one of the whitelist's; it is so to the letter exactly when the entity did not
      come with blanks around a name that was canonical already. */
  lemma AcceptedNameIsListed(e: Entity, wl: Whitelist, medical: set<string>)
    requires e.entityType.BusinessDomain? && KeyedByName(wl)
    ensures var r := Canonicalise(e, Some(wl), medical);
            r.Some? ==>
              && IsValue(wl, Strip(r.value.name))
              && (IsValue(wl, r.value.name) <==> r.value.name == Strip(r.value.name))
              && (r.value.name != Strip(r.value.name) <==>
                    && e.name != Strip(e.name)
                    && Renamed(BusinessDomain, Strip(e.name), Some(wl)) == Some(Strip(e.name)))
  {
    if Canonicalise(e, Some(wl), medical).Some? {
      var name := Strip(e.name);
      var v := AcceptedValue(e, wl, medical);
      assert name == Strip(name) by { StripIsStripped(e.name); StripIsStripped(name); }
      assert IsValue(wl, e.name) ==> e.name == name by { ValuesAreStripped(wl, e.name); }
      NewNameIsListed(e.name, name, v, wl);
    }
  }

  lemma AcceptedValue(e: Entity, wl: Whitelist, medical: set<string>) returns (v: string)
    requires e.entityType.BusinessDomain?
    requires KeyedByName(wl) && Canonicalise(e, Some(wl), medical).Some?
    ensures Renamed(BusinessDomain, Strip(e.name), Some(wl)) == Some(v)
    ensures Canonicalise(e, Some(wl), medical) == Correct(e, Strip(e.name), Some(v))
    ensures IsValue(wl, v) && Strip(v) == v
  {
    var i := MatchHasKey(CanonicalName(Strip(e.name)), wl);
    v := wl[i].1;
    ValuesAreStripped(wl, v);
  }

  lemma NewNameIsListed(given: string, name: string, v: string, wl: Whitelist)
    requires name == Strip(given) == Strip(name)
    requires IsValue(wl, v) && Strip(v) == v && (IsValue(wl, given) ==> given == name)
    ensures var out := NewName(given, name, v);
            && IsValue(wl, Strip(out))
            && (IsValue(wl, out) <==> out == Strip(out))
            && (out != Strip(out) <==> given != name && v == name)
  {
  }

  lemma ValuesAreStripped(wl: Whitelist, name: string)
    requires KeyedByName(wl)
    ensures IsValue(wl, name) ==> Strip(name) == name
  {
  }

  /** A name of the whitelist with a key of its own leads back to itself. */
  lemma ListedNameMatchesItself(wl: Whitelist, i: nat)
    requires KeyedByName(wl) && i < |wl| && wl[i].0 != ""
    ensures Match(CanonicalName(wl[i].1), wl) == Some(wl[i].1)
  {
    assert Keyed(wl[i]);
    KeyOfCanonicalName(wl[i].1);
    var at := IndexOf(wl, wl[i].0);
    assert at.Some? && at.value == i;
  }

  lemma MatchHasKey(name: string, wl: Whitelist) returns (i: nat)
    requires Match(name, wl).Some?
    ensures i < |wl| && wl[i].1 == Match(name, wl).value && wl[i].0 != ""
  {
    var key := WhitelistKey(name);
    var at := IndexOf(wl, key);
    if at.Some? {
      i := at.value;
    } else {
      i :| 0 <= i < |wl| && wl[i].1 == PrefixMatch(wl, key).value && wl[i].0 != "";
    }
  }
}
