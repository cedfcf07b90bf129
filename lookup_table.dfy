/**
  The lookup table from input identifiers to cell selectors, built once when
  the script loads: every watched character, the four arrow-key aliases of the
  movement keys, and an upper-cased copy of each of those keys.

  The keys the script registers directly are its base entries: each pairs a
  key with the watched character whose cell it selects. The table is first
  described for any list of base entries (IsTableOf), then for the entries a
  watch list gives (IsLookupTable); the script's own list is `Watched`.
*/
module LookupTable {

  import opened JsCoercion
  import opened CellIds

  /** A key registered directly, and the watched character whose cell it selects. */
  type Entry = (string, char)

  /** The arrow keys and the movement keys whose cells they share. */
  const Arrows: seq<Entry> :=
    [("ArrowUp", 'w'), ("ArrowLeft", 'a'), ("ArrowDown", 's'), ("ArrowRight", 'd')]

  /** Each watched character, as a key selecting its own cell. */
  function CharEntries(w: string): (e: seq<Entry>)
    ensures |e| == |w| && forall i :: 0 <= i < |w| ==> e[i] == ([w[i]], w[i])
  {
    seq(|w|, i requires 0 <= i < |w| => ([w[i]], w[i]))
  }

  /** The base entries of the table built from watch list `w`, in the order the script adds them. */
  function Entries(w: string): (e: seq<Entry>)
    ensures |e| == |w| + |Arrows|
  {
    CharEntries(w) + Arrows
  }

  /** The entries list each watched character under its own key, then the four arrow aliases. */
  lemma EntriesLayout(w: string)
    ensures forall i :: 0 <= i < |w| ==> Entries(w)[i] == ([w[i]], w[i])
    ensures forall a :: 0 <= a < |Arrows| ==> Entries(w)[|w| + a] == Arrows[a]
  {
  }

  /** The keys of a list of entries, in order. */
  function KeysOf(e: seq<Entry>): (keys: seq<string>)
    ensures |keys| == |e| && forall i :: 0 <= i < |e| ==> keys[i] == e[i].0
  {
    seq(|e|, i requires 0 <= i < |e| => e[i].0)
  }

  /** The upper-cased form of each key, in the same order. */
  function UpperAll(keys: seq<string>): (r: seq<string>)
    ensures |r| == |keys| && forall i :: 0 <= i < |keys| ==> r[i] == Upper(keys[i])
  {
    seq(|keys|, i requires 0 <= i < |keys| => Upper(keys[i]))
  }

  /** `m` holds exactly the entries `e`: each key selects its character's cell, and there is no other key. */
  ghost predicate HoldsExactly(m: map<string, string>, e: seq<Entry>) {
    && (forall i :: 0 <= i < |e| ==> e[i].0 in m && m[e[i].0] == Selector(e[i].1))
    && (forall k :: k in m <==> k in KeysOf(e))
  }

  /**
    The table built from base entries `e`: each entry's key selects its
    character's cell, so does the key's upper-cased form, and there is no
    other key.
  */
  ghost predicate IsTableOf(t: map<string, string>, e: seq<Entry>) {
    && (forall i :: 0 <= i < |e| ==> e[i].0 in t && t[e[i].0] == Selector(e[i].1))
    && (forall i :: 0 <= i < |e| ==> Upper(e[i].0) in t && t[Upper(e[i].0)] == Selector(e[i].1))
    && (forall k :: k in t <==> k in KeysOf(e) || k in UpperAll(KeysOf(e)))
  }

  /** The table the script builds from watch list `w`. */
  ghost predicate IsLookupTable(t: map<string, string>, w: string) {
    IsTableOf(t, Entries(w))
  }

  /**
    The watch lists the construction is correct for: no character twice, no
    upper-case letter (whose lower-case partner would share its upper-cased
    key), and the four movement keys present for the arrows to alias.
  */
  ghost predicate IsWatchList(w: string) {
    && (forall i, j :: 0 <= i < j < |w| ==> w[i] != w[j])
    && (forall i :: 0 <= i < |w| ==> !('A' <= w[i] <= 'Z'))
    && 'w' in w && 'a' in w && 's' in w && 'd' in w
  }

  lemma WatchedIsWatchList()
    ensures IsWatchList(Watched)
  {
    assert Watched == ['0', '2', 'w', 'a', 's', 'd'];
  }

  /**
    Builds the table as the script does when it loads: one entry per watched
    character, then the four arrow aliases, then an entry for the upper-cased
    form of every key added so far, carrying that key's selector.
  */
  method BuildLookup(w: string) returns (lookup: map<string, string>)
    requires IsWatchList(w)
    ensures IsLookupTable(lookup, w)
  {
    var keys;
    lookup, keys := AddWatchedChars(w);
    lookup, keys := AddArrowAliases(w, lookup, keys);
    EntriesCaseConsistent(w, lookup, keys);
    ghost var base := lookup;
    lookup := AddUpperCased(lookup, keys);
    UpperCasedIsTable(Entries(w), base, keys, lookup);
  }

  /** The first loop: each watched character selects its own cell. */
  method AddWatchedChars(w: string) returns (lookup: map<string, string>, keys: seq<string>)
    ensures keys == KeysOf(CharEntries(w))
    ensures HoldsExactly(lookup, CharEntries(w))
  {
    lookup, keys := map[], [];
    for i := 0 to |w|
      invariant keys == KeysOf(CharEntries(w[..i]))
      invariant HoldsExactly(lookup, CharEntries(w[..i]))
    {
      var c := w[i];
      lookup := lookup[[c] := "#" + CellId(c)];
      keys := keys + [[c]];
      assert CharEntries(w[..i + 1]) == CharEntries(w[..i]) + [([c], c)];
    }
    assert w[..|w|] == w;
  }

  /** The four alias assignments: each arrow key selects what its movement key selects. */
  method AddArrowAliases(w: string, chars: map<string, string>, charKeys: seq<string>)
    returns (lookup: map<string, string>, keys: seq<string>)
    requires IsWatchList(w)
    requires charKeys == KeysOf(CharEntries(w))
    requires HoldsExactly(chars, CharEntries(w))
    ensures keys == KeysOf(Entries(w))
    ensures HoldsExactly(lookup, Entries(w))
  {
    forall c | c in w ensures [c] in chars && chars[[c]] == Selector(c) {
      var i :| 0 <= i < |w| && w[i] == c;
      assert CharEntries(w)[i] == ([c], c);
    }
    lookup := chars;
    lookup := lookup["ArrowUp" := lookup["w"]];
    lookup := lookup["ArrowLeft" := lookup["a"]];
    lookup := lookup["ArrowDown" := lookup["s"]];
    lookup := lookup["ArrowRight" := lookup["d"]];
    keys := charKeys + ["ArrowUp", "ArrowLeft", "ArrowDown", "ArrowRight"];
    ghost var e := Entries(w);
    forall i | 0 <= i < |e| ensures e[i].0 in lookup && lookup[e[i].0] == Selector(e[i].1) {
      if i < |w| {
        assert e[i] == CharEntries(w)[i] && |e[i].0| == 1;
      } else {
        assert e[i] == Arrows[i - |w|];
      }
    }
  }

  /**
    The second loop: over a snapshot `keys` of the table's keys, the
    upper-cased form of each key gets that key's selector. When keys sharing
    an upper-cased form share a selector, and a key that is already some
    key's upper-cased form has that key's selector, no entry is lost and the
    order of the snapshot does not matter.
  */
  method AddUpperCased(lookup: map<string, string>, keys: seq<string>) returns (result: map<string, string>)
    requires forall k :: k in keys ==> k in lookup
    requires forall i, j :: 0 <= i < |keys| && 0 <= j < |keys| && Upper(keys[i]) == Upper(keys[j]) ==> lookup[keys[i]] == lookup[keys[j]]
    requires forall i :: 0 <= i < |keys| && Upper(keys[i]) in lookup ==> lookup[Upper(keys[i])] == lookup[keys[i]]
    ensures forall k :: k in lookup ==> k in result && result[k] == lookup[k]
    ensures forall k :: k in keys ==> Upper(k) in result && result[Upper(k)] == lookup[k]
    ensures forall k :: k in result <==> k in lookup || k in UpperAll(keys)
  {
    result := lookup;
    for i := 0 to |keys|
      invariant forall k :: k in lookup ==> k in result && result[k] == lookup[k]
      invariant forall j :: 0 <= j < i ==> Upper(keys[j]) in result && result[Upper(keys[j])] == lookup[keys[j]]
      invariant forall k :: k in result <==> k in lookup || k in UpperAll(keys)[..i]
    {
      var key := keys[i];
      result := result[Upper(key) := result[key]];
    }
  }

  // Why the second loop loses nothing for a watch list.

  lemma UpperInjectiveOnArrows(a: nat, b: nat)
    requires a < |Arrows| && b < |Arrows|
    ensures Upper(Arrows[a].0) == Upper(Arrows[b].0) ==> a == b
  {
    if Upper(Arrows[a].0) == Upper(Arrows[b].0) {
      assert |Arrows[a].0| == |Arrows[b].0|;
      assert Upper(Arrows[a].0)[5] == Upper(Arrows[b].0)[5];
      assert UpperChar(Arrows[a].0[5]) == UpperChar(Arrows[b].0[5]);
    }
  }

  /** No arrow key is the upper-cased form of an arrow key: "ArrowUp" becomes "ARROWUP". */
  lemma UpperArrowIsNoArrow(a: nat, b: nat)
    requires a < |Arrows| && b < |Arrows|
    ensures Upper(Arrows[a].0) != Arrows[b].0
  {
    assert Upper(Arrows[a].0)[1] == 'R' != Arrows[b].0[1];
  }

  /** Upper-casing keeps the base keys apart, and maps none onto another. */
  lemma EntriesCaseDistinct(w: string)
    requires IsWatchList(w)
    ensures forall i, j :: 0 <= i < |Entries(w)| && 0 <= j < |Entries(w)| && Upper(Entries(w)[i].0) == Upper(Entries(w)[j].0) ==> i == j
    ensures forall i, j :: 0 <= i < |Entries(w)| && 0 <= j < |Entries(w)| && Upper(Entries(w)[i].0) == Entries(w)[j].0 ==> i == j
  {
    var e := Entries(w);
    forall i, j | 0 <= i < |e| && 0 <= j < |e| && Upper(e[i].0) == Upper(e[j].0)
      ensures i == j
    {
      if i < |w| && j < |w| {
        assert e[i].0 == [w[i]] && e[j].0 == [w[j]];
        assert Upper(e[i].0)[0] == Upper(e[j].0)[0];
      } else if i >= |w| && j >= |w| {
        UpperInjectiveOnArrows(i - |w|, j - |w|);
      }
    }
    forall i, j | 0 <= i < |e| && 0 <= j < |e| && Upper(e[i].0) == e[j].0
      ensures i == j
    {
      if i < |w| && j < |w| {
        assert e[i].0 == [w[i]] && e[j].0 == [w[j]];
        assert Upper(e[i].0)[0] == e[j].0[0];
      } else if i >= |w| && j >= |w| {
        UpperArrowIsNoArrow(i - |w|, j - |w|);
      }
    }
  }

  /** In the table after the aliases, keys that share an upper-cased form share a selector. */
  lemma EntriesCaseConsistent(w: string, base: map<string, string>, keys: seq<string>)
    requires IsWatchList(w)
    requires keys == KeysOf(Entries(w))
    requires HoldsExactly(base, Entries(w))
    ensures forall k :: k in keys ==> k in base
    ensures forall i, j :: 0 <= i < |keys| && 0 <= j < |keys| && Upper(keys[i]) == Upper(keys[j]) ==> base[keys[i]] == base[keys[j]]
    ensures forall i :: 0 <= i < |keys| && Upper(keys[i]) in base ==> base[Upper(keys[i])] == base[keys[i]]
  {
    EntriesCaseDistinct(w);
  }

  /** Adding the upper-cased forms to a table holding exactly the entries `e` gives the table of `e`. */
  lemma UpperCasedIsTable(e: seq<Entry>, base: map<string, string>, keys: seq<string>, t: map<string, string>)
    requires keys == KeysOf(e)
    requires HoldsExactly(base, e)
    requires forall k :: k in base ==> k in t && t[k] == base[k]
    requires forall k :: k in keys ==> Upper(k) in t && t[Upper(k)] == base[k]
    requires forall k :: k in t <==> k in base || k in UpperAll(keys)
    ensures IsTableOf(t, e)
  {
    forall i | 0 <= i < |e| ensures Upper(e[i].0) in t && t[Upper(e[i].0)] == Selector(e[i].1) {
      assert keys[i] in keys;
    }
  }

  // What the table promises.

  /** Every key of the table is an entry's key or its upper-cased form, and selects that entry's cell. */
  lemma KeyOrigin(e: seq<Entry>, t: map<string, string>, k: string) returns (i: nat)
    requires IsTableOf(t, e) && k in t
    ensures i < |e| && (k == e[i].0 || k == Upper(e[i].0)) && t[k] == Selector(e[i].1)
  {
    if k in KeysOf(e) {
      i :| 0 <= i < |e| && KeysOf(e)[i] == k;
    } else {
      i :| 0 <= i < |e| && UpperAll(KeysOf(e))[i] == k;
    }
  }

  /** The built table is determined by its entries: two tables of the same entries are equal. */
  lemma TableUnique(e: seq<Entry>, t1: map<string, string>, t2: map<string, string>)
    requires IsTableOf(t1, e) && IsTableOf(t2, e)
    ensures t1 == t2
  {
    forall k | k in t1 ensures k in t2 && t2[k] == t1[k] {
      var i := KeyOrigin(e, t1, k);
    }
    assert t1.Keys == t2.Keys;
  }

  /** The table is closed under upper-casing: a key's upper-cased form selects the same cell. */
  lemma UpperClosed(e: seq<Entry>, t: map<string, string>, k: string)
    requires IsTableOf(t, e) && k in t
    ensures Upper(k) in t && t[Upper(k)] == t[k]
  {
    var i := KeyOrigin(e, t, k);
    UpperIdempotent(e[i].0);
  }

  /** Every selector in the table built from a watch list addresses a watched character's cell. */
  lemma CellOfKey(w: string, t: map<string, string>, k: string) returns (c: char)
    requires IsWatchList(w) && IsLookupTable(t, w) && k in t
    ensures c in w && t[k] == Selector(c)
  {
    var i := KeyOrigin(Entries(w), t, k);
    c := Entries(w)[i].1;
    if i < |w| {
      assert c == w[i];
    } else {
      assert c == Arrows[i - |w|].1;
    }
  }
}
