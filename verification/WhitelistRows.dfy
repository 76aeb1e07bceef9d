/** What the whitelist holds of the rows it is built from. */
module WhitelistRows {
  import opened Text
  import opened NameRewrites
  import opened Canonicaliser
  import opened Wrappers

  /** The name in a row, without blanks around it, behind its key; nothing for a row without a name. */
  function EntryOf(row: string): Option<(string, string)> {
    if Strip(row) == "" then None else Some((WhitelistKey(Strip(row)), Strip(row)))
  }

  function EntriesOf(rows: seq<string>): (r: seq<Option<(string, string)>>)
    ensures |r| == |rows| && forall i | 0 <= i < |rows| :: r[i] == EntryOf(rows[i])
  {
    seq(|rows|, i requires 0 <= i < |rows| => EntryOf(rows[i]))
  }

  // ---------------------------------------------------------------- a dictionary put together

  /** `out[key] = value` for each entry in turn. */
  function Dictionary(es: seq<Option<(string, string)>>): Whitelist
    decreases |es|
  {
    if es == [] then []
    else
      var before, last := Dictionary(es[..|es| - 1]), es[|es| - 1];
      if last.None? then before else Put(before, last.value.0, last.value.1)
  }

  predicate Has(es: seq<Option<(string, string)>>, i: int, key: string) {
    0 <= i < |es| && es[i].Some? && es[i].value.0 == key
  }

  predicate LastWith(es: seq<Option<(string, string)>>, i: int, key: string) {
    Has(es, i, key) && forall j | i < j < |es| :: !Has(es, j, key)
  }

  predicate FirstWith(es: seq<Option<(string, string)>>, i: int, key: string) {
    Has(es, i, key) && forall j | 0 <= j < i :: !Has(es, j, key)
  }

  predicate DistinctKeys(wl: Whitelist) {
    forall i, j | 0 <= i < j < |wl| :: wl[i].0 != wl[j].0
  }

  predicate Holds(wl: Whitelist, key: string, name: string) {
    exists p :: 0 <= p < |wl| && wl[p] == (key, name)
  }

  predicate Ahead(wl: Whitelist, a: string, b: string) {
    exists p, q :: 0 <= p < q < |wl| && wl[p].0 == a && wl[q].0 == b
  }

  lemma PutHolds(wl: Whitelist, k: string, v: string, key: string, name: string)
    requires DistinctKeys(wl)
    ensures DistinctKeys(Put(wl, k, v))
    ensures Holds(Put(wl, k, v), key, name) <==> if key == k then name == v else Holds(wl, key, name)
  {
    PutPlaces(wl, k, v);
    var at, out := IndexOf(wl, k), Put(wl, k, v);
    var place := if at.Some? then at.value else |wl|;
    assert out[place] == (k, v);
    if Holds(wl, key, name) && key != k {
      var p :| 0 <= p < |wl| && wl[p] == (key, name);
      assert out[p] == (key, name);
    }
  }

  lemma PutKeepsAhead(wl: Whitelist, k: string, v: string, a: string, b: string)
    requires Ahead(wl, a, b)
    ensures Ahead(Put(wl, k, v), a, b)
  {
    var p, q :| 0 <= p < q < |wl| && wl[p].0 == a && wl[q].0 == b;
    var out := Put(wl, k, v);
    assert out[p].0 == a && out[q].0 == b;
  }

  lemma {:induction false} KeysAreDistinct(es: seq<Option<(string, string)>>)
    ensures DistinctKeys(Dictionary(es))
    decreases |es|
  {
    if es != [] {
      KeysAreDistinct(es[..|es| - 1]);
      var last := es[|es| - 1];
      if last.Some? { PutPlaces(Dictionary(es[..|es| - 1]), last.value.0, last.value.1); }
    }
  }

  /** One more entry. */
  lemma NextEntry(es: seq<Option<(string, string)>>, before: seq<Option<(string, string)>>, i: int, key: string)
    requires es != [] && before == es[..|es| - 1]
    ensures i < |before| ==> (Has(es, i, key) <==> Has(before, i, key))
    ensures i < |before| ==> (FirstWith(es, i, key) <==> FirstWith(before, i, key))
    ensures i < |before| ==> (LastWith(es, i, key) <==> LastWith(before, i, key) && !Has(es, |before|, key))
    ensures LastWith(es, |before|, key) <==> Has(es, |before|, key)
  {
    assert forall j | 0 <= j < |before| :: Has(es, j, key) <==> Has(before, j, key);
  }

  lemma {:induction false} LastOf(es: seq<Option<(string, string)>>, i: int, key: string) returns (j: int)
    requires Has(es, i, key)
    ensures LastWith(es, j, key)
    decreases |es|
  {
    var before := es[..|es| - 1];
    NextEntry(es, before, i, key);
    if Has(es, |before|, key) {
      j := |before|;
    } else {
      j := LastOf(before, i, key);
      NextEntry(es, before, j, key);
    }
  }

  lemma {:induction false} LastIsHeld(es: seq<Option<(string, string)>>, i: int, key: string)
    requires LastWith(es, i, key)
    ensures Holds(Dictionary(es), key, es[i].value.1)
    decreases |es|
  {
    var before, last := es[..|es| - 1], es[|es| - 1];
    KeysAreDistinct(before);
    NextEntry(es, before, i, key);
    if i < |before| {
      LastIsHeld(before, i, key);
    }
    if last.Some? {
      PutHolds(Dictionary(before), last.value.0, last.value.1, key, es[i].value.1);
    }
  }

  lemma {:induction false} HeldIsLast(es: seq<Option<(string, string)>>, key: string, name: string) returns (i: int)
    requires Holds(Dictionary(es), key, name)
    ensures LastWith(es, i, key) && es[i].value.1 == name
    decreases |es|
  {
    var before, last := es[..|es| - 1], es[|es| - 1];
    KeysAreDistinct(before);
    if last.Some? {
      PutHolds(Dictionary(before), last.value.0, last.value.1, key, name);
    }
    if last.Some? && last.value.0 == key {
      i := |before|;
    } else {
      i := HeldIsLast(before, key, name);
    }
    NextEntry(es, before, i, key);
  }

  lemma NewKeyIsNotThere(es: seq<Option<(string, string)>>, before: seq<Option<(string, string)>>, j: int, b: string)
    requires es != [] && before == es[..|es| - 1] && j == |before| && FirstWith(es, j, b)
    ensures IndexOf(Dictionary(before), b).None?
  {
    var wl := Dictionary(before);
    var at := IndexOf(wl, b);
    if at.Some? {
      assert wl[at.value] == (b, wl[at.value].1);
      var i := HeldIsLast(before, b, wl[at.value].1);
      NextEntry(es, before, i, b);
      assert false;
    }
  }

  lemma KeyIsHeld(es: seq<Option<(string, string)>>, i: int, key: string) returns (p: int)
    requires Has(es, i, key)
    ensures 0 <= p < |Dictionary(es)| && Dictionary(es)[p].0 == key
  {
    var k := LastOf(es, i, key);
    LastIsHeld(es, k, key);
    p :| 0 <= p < |Dictionary(es)| && Dictionary(es)[p] == (key, es[k].value.1);
  }

  lemma BehindIt(wl: Whitelist, p: int, k: string, v: string)
    requires 0 <= p < |wl| && IndexOf(wl, k).None?
    ensures Ahead(Put(wl, k, v), wl[p].0, k)
  {
    var out := Put(wl, k, v);
    assert out[p] == wl[p] && out[|wl|] == (k, v);
  }

  lemma NewKeyGoesLast(before: seq<Option<(string, string)>>, wl: Whitelist, i: int, a: string, b: string, name: string)
    requires Has(before, i, a) && wl == Dictionary(before) && IndexOf(wl, b).None?
    ensures Ahead(Put(wl, b, name), a, b)
  {
    var p := KeyIsHeld(before, i, a);
    BehindIt(wl, p, b, name);
  }

  lemma {:induction false} FirstComesFirst(es: seq<Option<(string, string)>>, i: int, j: int, a: string, b: string)
    requires i < j && FirstWith(es, i, a) && FirstWith(es, j, b)
    ensures Ahead(Dictionary(es), a, b)
    decreases |es|
  {
    var before, last := es[..|es| - 1], es[|es| - 1];
    NextEntry(es, before, i, a);
    NextEntry(es, before, j, b);
    if j < |before| {
      FirstComesFirst(before, i, j, a, b);
      if last.Some? { PutKeepsAhead(Dictionary(before), last.value.0, last.value.1, a, b); }
    } else {
      NewKeyIsNotThere(es, before, j, b);
      NewKeyGoesLast(before, Dictionary(before), i, a, b, last.value.1);
    }
  }

  // ---------------------------------------------------------------- the whitelist

  lemma {:induction false} BuiltIsDictionary(rows: seq<string>)
    ensures Built(rows) == Dictionary(EntriesOf(rows))
    decreases |rows|
  {
    if rows != [] {
      BuiltIsDictionary(rows[..|rows| - 1]);
      assert EntriesOf(rows)[..|rows| - 1] == EntriesOf(rows[..|rows| - 1]);
    }
  }

  /** The whitelist leads the key of every row, and no other, to the name in the last row that has
      the key. */
  lemma BuiltHoldsExactly(rows: seq<string>, key: string, name: string)
    ensures var es := EntriesOf(rows);
            Holds(Built(rows), key, name) <==> exists i :: LastWith(es, i, key) && es[i].value.1 == name
  {
    var es := EntriesOf(rows);
    BuiltIsDictionary(rows);
    if Holds(Dictionary(es), key, name) {
      var i := HeldIsLast(es, key, name);
    }
    forall i | LastWith(es, i, key)
      ensures Holds(Dictionary(es), key, es[i].value.1)
    {
      LastIsHeld(es, i, key);
    }
  }

  /** Its keys stand in the order of the first rows that have them. */
  lemma BuiltInOrder(rows: seq<string>, i: int, j: int, a: string, b: string)
    requires i < j && FirstWith(EntriesOf(rows), i, a) && FirstWith(EntriesOf(rows), j, b)
    ensures Ahead(Built(rows), a, b)
  {
    BuiltIsDictionary(rows);
    FirstComesFirst(EntriesOf(rows), i, j, a, b);
  }
}
