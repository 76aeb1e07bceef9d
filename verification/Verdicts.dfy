/** What becomes of an entity, told from the entity and the whitelist. */
module Verdicts {
  import opened Text
  import opened NameRewrites
  import opened Wrappers
  import opened Canonicaliser
  import opened SecondPass

  // ---------------------------------------------------------------- the whitelist

  /** The key begins with entry `i`'s, up to a blank or a full stop. */
  predicate PrefixAt(wl: Whitelist, i: int, key: string) {
    0 <= i < |wl| && wl[i].0 != "" && (wl[i].0 + " " <= key || wl[i].0 + "." <= key)
  }

  /** Entry `i` has the key; or none has, and it is the first whose own key is a prefix. */
  predicate Chosen(wl: Whitelist, i: int, key: string) {
    && 0 <= i < |wl|
    && (|| wl[i].0 == key
        || (&& (forall j | 0 <= j < |wl| :: wl[j].0 != key)
            && PrefixAt(wl, i, key) && forall j | 0 <= j < i :: !PrefixAt(wl, j, key)))
  }

  lemma {:induction false} FirstPrefix(wl: Whitelist, key: string) returns (i: int)
    requires forall j | 0 <= j < |wl| :: wl[j].0 != key
    ensures if PrefixMatch(wl, key).None? then forall j | 0 <= j < |wl| :: !PrefixAt(wl, j, key)
            else Chosen(wl, i, key) && wl[i].1 == PrefixMatch(wl, key).value
    decreases |wl|
  {
    i := 0;
    if wl != [] {
      var rest := wl[1..];
      assert forall j: nat | j < |rest| :: rest[j] == wl[j + 1];
      var k := FirstPrefix(rest, key);
      if !PrefixAt(wl, 0, key) {
        forall j | 0 < j < |wl|
          ensures PrefixAt(wl, j, key) <==> PrefixAt(rest, j - 1, key)
        {
        }
        if PrefixMatch(rest, key).Some? {
          ChosenBehind(wl, rest, k, key);
          i := k + 1;
        }
      }
    }
  }

  lemma ChosenBehind(wl: Whitelist, rest: Whitelist, i: int, key: string)
    requires wl != [] && rest == wl[1..] && Chosen(rest, i, key) && !PrefixAt(wl, 0, key)
    requires forall j | 0 <= j < |wl| :: wl[j].0 != key
    ensures Chosen(wl, i + 1, key) && wl[i + 1] == rest[i]
  {
    assert forall j: nat | j < |rest| :: rest[j] == wl[j + 1];
    forall j | 0 <= j < i + 1
      ensures !PrefixAt(wl, j, key)
    {
      assert j > 0 ==> rest[j - 1] == wl[j] && !PrefixAt(rest, j - 1, key);
    }
    assert PrefixAt(rest, i, key);
  }

  lemma ChosenIsUnique(wl: Whitelist, i: int, j: int, key: string)
    requires KeyedByName(wl) && Chosen(wl, i, key) && Chosen(wl, j, key)
    ensures i == j
  {
  }

  /** The name of the entry chosen for a key; nothing for an empty key, or without such an entry. */
  ghost predicate NameOfChosen(wl: Whitelist, key: string, r: Option<string>) {
    && (r.Some? <==> key != "" && exists i :: Chosen(wl, i, key))
    && (r.Some? ==> forall i | Chosen(wl, i, key) :: wl[i].1 == r.value)
  }

  lemma OneIsChosen(wl: Whitelist, key: string, i: int)
    requires KeyedByName(wl) && key != "" && Chosen(wl, i, key)
    ensures NameOfChosen(wl, key, Some(wl[i].1))
  {
    forall j | Chosen(wl, j, key)
      ensures j == i
    {
      ChosenIsUnique(wl, i, j, key);
    }
  }

  lemma NoneIsChosen(wl: Whitelist, key: string)
    requires (forall j | 0 <= j < |wl| :: wl[j].0 != key) && forall j | 0 <= j < |wl| :: !PrefixAt(wl, j, key)
    ensures NameOfChosen(wl, key, None)
  {
  }

  lemma PrefixIsChosen(wl: Whitelist, key: string)
    requires KeyedByName(wl) && key != "" && forall j | 0 <= j < |wl| :: wl[j].0 != key
    ensures NameOfChosen(wl, key, PrefixMatch(wl, key))
  {
    var i := FirstPrefix(wl, key);
    if PrefixMatch(wl, key).Some? {
      OneIsChosen(wl, key, i);
    } else {
      NoneIsChosen(wl, key);
    }
  }

  /** A name matches the entry with its key, or else the first whose key is a prefix of it. */
  lemma MatchMeans(name: string, wl: Whitelist)
    requires KeyedByName(wl)
    ensures NameOfChosen(wl, WhitelistKey(name), Match(name, wl))
  {
    var key := WhitelistKey(name);
    if key != "" {
      var at := IndexOf(wl, key);
      if at.Some? {
        OneIsChosen(wl, key, at.value);
      } else {
        PrefixIsChosen(wl, key);
      }
    }
  }

  // ---------------------------------------------------------------- the verdict

  predicate IsOwnLabel(t: EntityType, name: string) {
    || (t.BusinessDomain? && name == "BusinessDomain")
    || (t.TechnicalTag? && name == "TechnicalTag")
    || (t.Tool? && name == "Tool")
    || (t.Organization? && name == "Organization")
  }

  /** Accepted is exactly a name that is not empty, not its type's own label and, for a business
      domain, not on the reject list and matched by the whitelist, if there is one. */
  predicate Acceptable(t: EntityType, name: string, wl: Option<Whitelist>, medical: set<string>) {
    && name != "" && !IsOwnLabel(t, name)
    && (t.BusinessDomain? ==>
          NormaliseForReject(name) !in medical && (wl.Some? ==> Match(name, wl.value).Some?))
  }

  lemma LabelIsOwn(t: EntityType, name: string)
    requires !t.Technical?
    ensures name == t.Label() <==> IsOwnLabel(t, name)
  {
  }

  lemma AcceptedExactly(e: Entity, name: string, wl: Option<Whitelist>, medical: set<string>)
    requires !e.entityType.Technical? && name == Strip(e.name)
    ensures Canonicalise(e, wl, medical).Some? <==> Acceptable(e.entityType, name, wl, medical)
  {
    LabelIsOwn(e.entityType, name);
    RenamedToCome(e.entityType, name, wl);
  }

  /** A technical entity passes as it is. Of any other, exactly the acceptable are accepted, and
      nothing but the name changes: to the whitelist's, or to the canonical one. */
  lemma VerdictExactly(e: Entity, wl: Option<Whitelist>, medical: set<string>)
    requires wl.Some? ==> KeyedByName(wl.value)
    ensures var r, name := Canonicalise(e, wl, medical), Strip(e.name);
            if e.entityType.Technical? then r == Some(e)
            else
              && (r.Some? <==> Acceptable(e.entityType, name, wl, medical))
              && (r.Some? ==>
                    && r.value == e.(name := r.value.name)
                    && NameToCome(e.entityType, name, wl) == Some(Strip(r.value.name)))
  {
    if !e.entityType.Technical? {
      AcceptedExactly(e, Strip(e.name), wl, medical);
      if Canonicalise(e, wl, medical).Some? {
        var out, v := FirstPass(e, wl, medical);
        OnlyTheName(e, wl, medical);
      }
    }
  }

  lemma OnlyTheName(e: Entity, wl: Option<Whitelist>, medical: set<string>)
    requires Canonicalise(e, wl, medical).Some?
    ensures Canonicalise(e, wl, medical).value == e.(name := Canonicalise(e, wl, medical).value.name)
  {
  }
}
