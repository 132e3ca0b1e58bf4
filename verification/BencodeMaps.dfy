/** The library keeps dictionaries in an ordered map that never overwrites an entry. */
module BencodeMaps {
  import opened Common
  import opened Numerals
  import opened Bencode

  lemma {:induction false} EmplaceLast(m: seq<Entry>, e: Entry)
    requires forall i :: 0 <= i < |m| ==> Less(m[i].key, e.key)
    ensures Emplace(m, e) == m + [e]
  {
    if m != [] {
      LessStrict(m[0].key, e.key);
      EmplaceLast(m[1..], e);
      assert m == [m[0]] + m[1..];
      assert [m[0]] + (m[1..] + [e]) == [m[0]] + m[1..] + [e];
    }
  }

  /** Entries in the order of their keys are collected as they come. */
  lemma {:induction false} CollectedAscending(m: seq<Entry>, entries: seq<Entry>)
    requires Ascending(m + entries)
    ensures Collected(m, entries) == m + entries
    decreases entries
  {
    if entries == [] {
    } else {
      forall i | 0 <= i < |m| ensures Less(m[i].key, entries[0].key) {
        assert (m + entries)[i] == m[i] && (m + entries)[|m|] == entries[0];
      }
      EmplaceLast(m, entries[0]);
      assert m + entries == m + [entries[0]] + entries[1..];
      CollectedAscending(m + [entries[0]], entries[1..]);
    }
  }

  lemma {:induction false} EmplaceKeepsAscending(m: seq<Entry>, e: Entry)
    requires Ascending(m)
    ensures Ascending(Emplace(m, e))
    ensures forall x :: x in Emplace(m, e) ==> x in m || x == e
  {
    if m == [] || m[0].key == e.key {
    } else if Less(e.key, m[0].key) {
      var r := [e] + m;
      forall i, j | 0 <= i < j < |r| ensures Less(r[i].key, r[j].key) {
        if i == 0 && j > 1 {
          LessTransitive(e.key, m[0].key, m[j - 1].key);
        }
      }
    } else {
      LessTotal(e.key, m[0].key);
      var tail := Emplace(m[1..], e);
      EmplaceKeepsAscending(m[1..], e);
      var r := [m[0]] + tail;
      forall i, j | 0 <= i < j < |r| ensures Less(r[i].key, r[j].key) {
        assert r[j] == tail[j - 1] && r[j] in tail;
        assert i > 0 ==> r[i] == tail[i - 1];
      }
    }
  }

  lemma {:induction false} EmplaceKeepsWellFormed(m: seq<Entry>, e: Entry)
    requires WellFormedEntries(m) && |e.key| <= SIZE_MAX && WellFormed(e.value)
    ensures WellFormedEntries(Emplace(m, e))
  {
    hide WellFormed, Less;
    if m != [] {
      EmplaceKeepsWellFormed(m[1..], e);
    }
  }

  lemma {:induction false} CollectedIsAscending(m: seq<Entry>, pairs: seq<Entry>)
    requires Ascending(m) && WellFormedEntries(m) && WellFormedEntries(pairs)
    ensures Ascending(Collected(m, pairs)) && WellFormedEntries(Collected(m, pairs))
    decreases pairs
  {
    hide Ascending, WellFormed, Emplace;
    if pairs != [] {
      EmplaceKeepsAscending(m, pairs[0]);
      EmplaceKeepsWellFormed(m, pairs[0]);
      CollectedIsAscending(Emplace(m, pairs[0]), pairs[1..]);
    }
  }

  function Lookup(m: seq<Entry>, key: string): Option<Node> {
    if m == [] then None else if m[0].key == key then Some(m[0].value) else Lookup(m[1..], key)
  }

  lemma {:induction false} LookupBelow(m: seq<Entry>, key: string)
    requires forall i :: 0 <= i < |m| ==> m[i].key != key
    ensures Lookup(m, key) == None
  {
    if m != [] {
      LookupBelow(m[1..], key);
    }
  }

  lemma {:induction false} LookupEmplaced(m: seq<Entry>, e: Entry, key: string)
    requires Ascending(m)
    ensures Lookup(Emplace(m, e), key) ==
      if Lookup(m, key).None? && key == e.key then Some(e.value) else Lookup(m, key)
  {
    if m == [] || m[0].key == e.key {
    } else if Less(e.key, m[0].key) {
      forall i | 0 <= i < |m| ensures m[i].key != e.key {
        if i > 0 {
          LessTransitive(e.key, m[0].key, m[i].key);
        }
        LessStrict(e.key, m[i].key);
      }
      LookupBelow(m, e.key);
      assert ([e] + m)[1..] == m;
    } else {
      LookupEmplaced(m[1..], e, key);
      assert ([m[0]] + Emplace(m[1..], e))[1..] == Emplace(m[1..], e);
    }
  }

  /** Of several entries with one key the map keeps the first. */
  lemma {:induction false} LookupCollected(m: seq<Entry>, pairs: seq<Entry>, key: string)
    requires Ascending(m)
    ensures Lookup(Collected(m, pairs), key) ==
      if Lookup(m, key).Some? then Lookup(m, key) else Lookup(pairs, key)
    decreases pairs
  {
    if pairs != [] {
      EmplaceKeepsAscending(m, pairs[0]);
      LookupEmplaced(m, pairs[0], key);
      LookupCollected(Emplace(m, pairs[0]), pairs[1..], key);
    }
  }
}
