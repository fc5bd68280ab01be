/**
  Removing duplicates by key, first entry wins (`deduplicate_fz_tz` of
  tools/merge_converter_dbs.py, `deduplicate_entries` of tools/z2m_converter_extract.py and
  `deduplicate_entries` and `deduplicate_exposes` of tools/zhaquirks_transpiler.py).
 */
module Duplicates {
  import opened Wrappers
  import opened Json

  function Get(entry: Fields, name: string, default: Json): Json {
    if name in entry then entry[name] else default
  }

  type Key = (Json, Json)

  /** A converter's function name and key; a missing one counts as the empty string. */
  function ConverterKey(entry: Fields): Key {
    (Get(entry, "fn", Str("")), Get(entry, "k", Str("")))
  }

  /** An expose's type and property. */
  function ExposeKey(entry: Fields): Key {
    (Get(entry, "t", Int(0)), Get(entry, "p", Str("")))
  }

  predicate HasKey(entries: seq<Fields>, keyOf: Fields -> Key, key: Key) {
    exists e :: e in entries && keyOf(e) == key
  }

  lemma HasKeySnoc(entries: seq<Fields>, e: Fields, keyOf: Fields -> Key)
    ensures forall key :: HasKey(entries + [e], keyOf, key) <==> HasKey(entries, keyOf, key) || key == keyOf(e)
  {
    forall key ensures HasKey(entries + [e], keyOf, key) <==> HasKey(entries, keyOf, key) || key == keyOf(e) {
      assert e in entries + [e];
    }
  }

  /** The entries whose key does not occur before them. */
  function Dedup(entries: seq<Fields>, keyOf: Fields -> Key): (r: seq<Fields>)
    ensures forall e :: e in r ==> e in entries
    ensures forall key :: HasKey(r, keyOf, key) <==> HasKey(entries, keyOf, key)
    ensures forall i, j :: 0 <= i < j < |r| ==> keyOf(r[i]) != keyOf(r[j])
  {
    if entries == [] then []
    else
      var front, e := entries[..|entries| - 1], entries[|entries| - 1];
      var r := Dedup(front, keyOf);
      assert entries == front + [e];
      HasKeySnoc(front, e, keyOf);
      HasKeySnoc(r, e, keyOf);
      if HasKey(r, keyOf, keyOf(e)) then r else r + [e]
  }

  method Deduplicate(entries: seq<Fields>, keyOf: Fields -> Key) returns (result: seq<Fields>)
    ensures result == Dedup(entries, keyOf)
  {
    var seen: set<Key> := {};
    result := [];
    for i := 0 to |entries|
      invariant result == Dedup(entries[..i], keyOf)
      invariant forall key :: key in seen <==> HasKey(result, keyOf, key)
    {
      var entry := entries[i];
      assert entries[..i + 1][..i] == entries[..i];
      var key := keyOf(entry);
      if key !in seen {
        HasKeySnoc(result, entry, keyOf);
        seen := seen + {key};
        result := result + [entry];
      }
    }
    assert entries[..|entries|] == entries;
  }

  /** The first entry with the given key. */
  function First(entries: seq<Fields>, keyOf: Fields -> Key, key: Key): (r: Option<Fields>)
    ensures r.Some? <==> HasKey(entries, keyOf, key)
  {
    if entries == [] then None
    else if keyOf(entries[0]) == key then Some(entries[0])
    else First(entries[1..], keyOf, key)
  }

  lemma {:induction false} FirstAppend(a: seq<Fields>, b: seq<Fields>, keyOf: Fields -> Key, key: Key)
    ensures First(a + b, keyOf, key) == if HasKey(a, keyOf, key) then First(a, keyOf, key) else First(b, keyOf, key)
    decreases |a|
  {
    if a == [] {
      assert a + b == b;
    } else if keyOf(a[0]) != key {
      assert (a + b)[1..] == a[1..] + b;
      FirstAppend(a[1..], b, keyOf, key);
    }
  }

  /** Under every key, the entry kept is the first one. */
  lemma {:induction false} FirstWins(entries: seq<Fields>, keyOf: Fields -> Key, key: Key)
    ensures First(Dedup(entries, keyOf), keyOf, key) == First(entries, keyOf, key)
    decreases |entries|
  {
    if entries != [] {
      var front, e := entries[..|entries| - 1], entries[|entries| - 1];
      FirstWins(front, keyOf, key);
      assert entries == front + [e];
      FirstAppend(front, [e], keyOf, key);
      FirstAppend(Dedup(front, keyOf), [e], keyOf, key);
    }
  }

  lemma AppendOne(a: seq<Fields>, e: Fields, keyOf: Fields -> Key)
    ensures Dedup(a + [e], keyOf) == if HasKey(Dedup(a, keyOf), keyOf, keyOf(e)) then Dedup(a, keyOf) else Dedup(a, keyOf) + [e]
  {
    assert (a + [e])[..|a|] == a;
  }

  lemma {:induction false} DedupOfDistinct(a: seq<Fields>, keyOf: Fields -> Key)
    requires forall i, j :: 0 <= i < j < |a| ==> keyOf(a[i]) != keyOf(a[j])
    ensures Dedup(a, keyOf) == a
    decreases |a|
  {
    if a != [] {
      var front := a[..|a| - 1];
      DedupOfDistinct(front, keyOf);
      assert a == front + [a[|a| - 1]];
    }
  }

  lemma SplitLast(a: seq<Fields>, b: seq<Fields>)
    requires b != []
    ensures a + b == a + b[..|b| - 1] + [b[|b| - 1]]
  {
  }

  /** Removing duplicates early changes nothing: what comes later is judged by keys alone. */
  lemma {:induction false} DedupEarly(a: seq<Fields>, b: seq<Fields>, keyOf: Fields -> Key)
    ensures Dedup(Dedup(a, keyOf) + b, keyOf) == Dedup(a + b, keyOf)
    decreases |b|
  {
    if b == [] {
      assert Dedup(a, keyOf) + b == Dedup(a, keyOf) && a + b == a;
      DedupOfDistinct(Dedup(a, keyOf), keyOf);
    } else {
      var front, e := b[..|b| - 1], b[|b| - 1];
      DedupEarly(a, front, keyOf);
      SplitLast(Dedup(a, keyOf), b);
      SplitLast(a, b);
      hide Dedup;
      AppendOne(Dedup(a, keyOf) + front, e, keyOf);
      AppendOne(a + front, e, keyOf);
    }
  }

  // ------------------------------------------------------------------ order

  /** Where a key first occurs, or the number of entries. */
  function Position(entries: seq<Fields>, keyOf: Fields -> Key, key: Key): (i: nat)
    ensures i <= |entries|
    ensures i < |entries| ==> keyOf(entries[i]) == key
    ensures forall k :: 0 <= k < i ==> keyOf(entries[k]) != key
  {
    if entries == [] || keyOf(entries[0]) == key then 0 else 1 + Position(entries[1..], keyOf, key)
  }

  /** Keys come in the order in which they first occur, once each. */
  ghost predicate InOrder(kept: seq<Fields>, entries: seq<Fields>, keyOf: Fields -> Key) {
    forall i, j :: 0 <= i < j < |kept| ==>
      Position(entries, keyOf, keyOf(kept[i])) < Position(entries, keyOf, keyOf(kept[j]))
  }

  lemma PositionInFront(entries: seq<Fields>, e: Fields, keyOf: Fields -> Key, key: Key)
    ensures
      Position(entries + [e], keyOf, key) ==
        if HasKey(entries, keyOf, key) then Position(entries, keyOf, key)
        else |entries| + if keyOf(e) == key then 0 else 1
    ensures HasKey(entries, keyOf, key) <==> Position(entries, keyOf, key) < |entries|
  {
    var all := entries + [e];
    assert forall k :: 0 <= k < |entries| ==> all[k] == entries[k];
    assert all[|entries|] == e;
  }

  lemma InOrderSnoc(kept: seq<Fields>, entries: seq<Fields>, e: Fields, keyOf: Fields -> Key)
    requires InOrder(kept, entries, keyOf) && forall k :: k in kept ==> HasKey(entries, keyOf, keyOf(k))
    ensures InOrder(kept, entries + [e], keyOf)
    ensures !HasKey(entries, keyOf, keyOf(e)) ==> InOrder(kept + [e], entries + [e], keyOf)
  {
    hide HasKey;
    forall i | 0 <= i < |kept|
      ensures Position(entries + [e], keyOf, keyOf(kept[i])) == Position(entries, keyOf, keyOf(kept[i])) < |entries|
    {
      assert kept[i] in kept;
      PositionInFront(entries, e, keyOf, keyOf(kept[i]));
    }
    PositionInFront(entries, e, keyOf, keyOf(e));
  }

  /** Entries stay in the order of the input. */
  lemma {:induction false} DedupInOrder(entries: seq<Fields>, keyOf: Fields -> Key)
    ensures InOrder(Dedup(entries, keyOf), entries, keyOf)
    decreases |entries|
  {
    if entries != [] {
      var front, e := entries[..|entries| - 1], entries[|entries| - 1];
      DedupInOrder(front, keyOf);
      assert entries == front + [e];
      var before := Dedup(front, keyOf);
      forall k | k in before ensures HasKey(front, keyOf, keyOf(k)) {
        assert k in front;
      }
      hide InOrder, HasKey;
      InOrderSnoc(before, front, e, keyOf);
    }
  }
}
