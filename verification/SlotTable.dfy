/**
  An array of slots with active flags that forgets the oldest entry when full. The tracked
  devices (main/bluetooth/ble_scanner.c) and the discovery results
  (main/bluetooth/ble_gatt_discovery.c) are two instances; `active` is the second one's
  `complete`, `stamp` is the former's `last_seen` and the latter's `discovery_time`.

  Such an array is a bounded map from addresses to entries.
 */
module SlotTable {
  const UINT32_MAX := 0xFFFF_FFFF

  type Mac = nat

  datatype Slot<P> = Slot(active: bool, mac: Mac, stamp: nat, data: P)

  // ------------------------------------------------------------------ finding slots

  function Macs<P>(t: seq<Slot<P>>): set<Mac> {
    set i | 0 <= i < |t| && t[i].active :: t[i].mac
  }

  /** The first active slot with the address, or the number of slots. */
  function FirstActive<P>(t: seq<Slot<P>>, mac: Mac): (i: nat)
    ensures i <= |t|
    ensures i < |t| ==> t[i].active && t[i].mac == mac
    ensures forall k :: 0 <= k < i ==> !(t[k].active && t[k].mac == mac)
  {
    if t == [] || (t[0].active && t[0].mac == mac) then 0 else 1 + FirstActive(t[1..], mac)
  }

  /** The first slot that is not active, or the number of slots. */
  function FirstFree<P>(t: seq<Slot<P>>): (i: nat)
    ensures i <= |t|
    ensures i < |t| ==> !t[i].active
    ensures forall k :: 0 <= k < i ==> t[k].active
  {
    if t == [] || !t[0].active then 0 else 1 + FirstFree(t[1..])
  }

  predicate IsOldest<P>(t: seq<Slot<P>>, i: nat) {
    && i < |t|
    && (forall k :: 0 <= k < |t| ==> t[i].stamp <= t[k].stamp)
    && (forall k :: 0 <= k < i ==> t[i].stamp < t[k].stamp)
  }

  /** The first slot with the least stamp. */
  function Oldest<P>(t: seq<Slot<P>>): (i: nat)
    requires t != []
    ensures IsOldest(t, i)
  {
    if |t| == 1 then 0
    else
      var i := Oldest(t[..|t| - 1]);
      if t[|t| - 1].stamp < t[i].stamp then |t| - 1 else i
  }

  /** Where an address goes: to its slot, else to a free slot, else to the oldest. */
  function Home<P>(t: seq<Slot<P>>, mac: Mac): (i: nat)
    requires t != []
    ensures i < |t|
  {
    if FirstActive(t, mac) < |t| then FirstActive(t, mac)
    else if FirstFree(t) < |t| then FirstFree(t)
    else Oldest(t)
  }

  function Put<P>(t: seq<Slot<P>>, slot: Slot<P>): (r: seq<Slot<P>>)
    requires t != []
    ensures |r| == |t|
  {
    t[Home(t, slot.mac) := slot]
  }

  /** Every slot that is active but not to be kept is overwritten. */
  function Keep<P>(t: seq<Slot<P>>, keep: Slot<P> -> bool, empty: Slot<P>): (r: seq<Slot<P>>)
    ensures |r| == |t|
    ensures forall i :: 0 <= i < |t| ==> r[i] == if t[i].active && !keep(t[i]) then empty else t[i]
  {
    seq(|t|, i requires 0 <= i < |t| => if t[i].active && !keep(t[i]) then empty else t[i])
  }

  // ------------------------------------------------------------------ the bounded map

  predicate Unique<P>(t: seq<Slot<P>>) {
    forall i, j :: 0 <= i < j < |t| && t[i].active && t[j].active ==> t[i].mac != t[j].mac
  }

  function Count<P>(t: seq<Slot<P>>): nat {
    if t == [] then 0 else Count(t[..|t| - 1]) + if t[|t| - 1].active then 1 else 0
  }

  lemma FoundExactly<P>(t: seq<Slot<P>>, mac: Mac)
    ensures FirstActive(t, mac) < |t| <==> mac in Macs(t)
  {
  }

  /** Every entry is held under its own address. */
  predicate IsKeyed<P>(m: map<Mac, Slot<P>>) {
    forall mac :: mac in m ==> m[mac].active && m[mac].mac == mac
  }

  /** What a table holds. */
  function Contents<P>(t: seq<Slot<P>>): (m: map<Mac, Slot<P>>)
    ensures m.Keys == Macs(t)
    ensures IsKeyed(m)
  {
    map mac | mac in Macs(t) :: (FoundExactly(t, mac); t[FirstActive(t, mac)])
  }

  /** In a table without repetitions, what is held under an address is in the slot that has it. */
  lemma HeldInSlot<P>(t: seq<Slot<P>>, i: nat)
    requires Unique(t) && i < |t| && t[i].active
    ensures t[i].mac in Contents(t) && Contents(t)[t[i].mac] == t[i]
  {
    FoundExactly(t, t[i].mac);
    assert FirstActive(t, t[i].mac) == i;
  }

  /** Two facts that pin down a table's contents. */
  lemma ContentsAre<P>(t: seq<Slot<P>>, m: map<Mac, Slot<P>>)
    requires Unique(t)
    requires forall i :: 0 <= i < |t| && t[i].active ==> t[i].mac in m && m[t[i].mac] == t[i]
    requires forall mac :: mac in m ==> mac in Macs(t)
    ensures Contents(t) == m
  {
    forall mac | mac in m ensures mac in Contents(t) && Contents(t)[mac] == m[mac] {
      var i :| 0 <= i < |t| && t[i].active && t[i].mac == mac;
      HeldInSlot(t, i);
    }
    forall mac | mac in Contents(t) ensures mac in m {
      var i :| 0 <= i < |t| && t[i].active && t[i].mac == mac;
    }
  }

  lemma MacsSnoc<P>(t: seq<Slot<P>>)
    requires t != []
    ensures
      var front, last := t[..|t| - 1], t[|t| - 1];
      Macs(t) == Macs(front) + if last.active then {last.mac} else {}
  {
    var front, last := t[..|t| - 1], t[|t| - 1];
    forall mac | mac in Macs(t) ensures mac in Macs(front) + if last.active then {last.mac} else {} {
      var i :| 0 <= i < |t| && t[i].active && t[i].mac == mac;
      assert i < |front| ==> front[i] == t[i];
    }
    forall mac | mac in Macs(front) ensures mac in Macs(t) {
      var i :| 0 <= i < |front| && front[i].active && front[i].mac == mac;
      assert t[i] == front[i];
    }
  }

  lemma {:induction false} MacsAreCounted<P>(t: seq<Slot<P>>)
    requires Unique(t)
    ensures |Macs(t)| == Count(t)
    decreases |t|
  {
    if t != [] {
      var front, last := t[..|t| - 1], t[|t| - 1];
      MacsAreCounted(front);
      MacsSnoc(t);
      assert last.active ==> last.mac !in Macs(front);
    }
  }

  lemma {:induction false} FullExactly<P>(t: seq<Slot<P>>)
    ensures Count(t) <= |t| && (Count(t) == |t| <==> forall k :: 0 <= k < |t| ==> t[k].active)
    decreases |t|
  {
    if t != [] {
      FullExactly(t[..|t| - 1]);
      assert forall k :: 0 <= k < |t| - 1 ==> t[..|t| - 1][k] == t[k];
    }
  }

  /** The number of active slots is the size of the map. */
  lemma SizeIsCount<P>(t: seq<Slot<P>>)
    requires Unique(t)
    ensures |Contents(t)| == |Macs(t)| == Count(t) <= |t|
    ensures Count(t) == |t| <==> FirstFree(t) == |t|
  {
    MacsAreCounted(t);
    FullExactly(t);
    assert |Contents(t)| == |Contents(t).Keys|;
  }

  /** Storing an entry in a map of at most `limit`: a full map forgets one of the oldest. */
  ghost predicate BoundedPut<P>(limit: nat, before: map<Mac, Slot<P>>, after: map<Mac, Slot<P>>, slot: Slot<P>) {
    if slot.mac in before || |before| < limit then after == before[slot.mac := slot]
    else exists victim :: Evicts(before, after, slot, victim)
  }

  ghost predicate Evicts<P>(before: map<Mac, Slot<P>>, after: map<Mac, Slot<P>>, slot: Slot<P>, victim: Mac) {
    && victim in before
    && (forall mac :: mac in before ==> before[victim].stamp <= before[mac].stamp)
    && after == (before - {victim})[slot.mac := slot]
  }

  lemma {:induction false} CountPut<P>(t: seq<Slot<P>>, i: nat, slot: Slot<P>)
    requires i < |t| && slot.active
    ensures Count(t[i := slot]) == Count(t) + if t[i].active then 0 else 1
    decreases |t|
  {
    var u := t[i := slot];
    if i < |t| - 1 {
      CountPut(t[..|t| - 1], i, slot);
      assert u[..|u| - 1] == t[..|t| - 1][i := slot];
    } else {
      assert u[..|u| - 1] == t[..|t| - 1];
    }
  }

  lemma UniquePut<P>(t: seq<Slot<P>>, slot: Slot<P>)
    requires t != [] && Unique(t) && slot.active
    ensures Unique(Put(t, slot))
  {
    var h := Home(t, slot.mac);
    FoundExactly(t, slot.mac);
    forall k | 0 <= k < |t| && k != h && t[k].active ensures t[k].mac != slot.mac {
      var f := FirstActive(t, slot.mac);
      assert f < |t| ==> f == h && t[f].active && t[f].mac == slot.mac;
    }
  }

  /** What is held after slot `h` is overwritten. */
  function Replaced<P>(t: seq<Slot<P>>, h: nat, slot: Slot<P>): map<Mac, Slot<P>>
    requires h < |t|
  {
    (if t[h].active && t[h].mac != slot.mac then Contents(t) - {t[h].mac} else Contents(t))[slot.mac := slot]
  }

  lemma HeldAfter<P>(t: seq<Slot<P>>, h: nat, slot: Slot<P>, i: nat)
    requires h < |t| && i < |t| && Unique(t) && slot.active && Unique(t[h := slot])
    requires t[h := slot][i].active
    ensures
      var s := t[h := slot][i];
      s.mac in Replaced(t, h, slot) && Replaced(t, h, slot)[s.mac] == s
  {
    if i != h {
      HeldInSlot(t, i);
      assert t[h := slot][h].mac != t[i].mac;
    }
  }

  lemma AfterIsHeld<P>(t: seq<Slot<P>>, h: nat, slot: Slot<P>, mac: Mac)
    requires h < |t| && slot.active && mac in Replaced(t, h, slot)
    requires FirstActive(t, slot.mac) < |t| ==> FirstActive(t, slot.mac) == h
    ensures mac in Macs(t[h := slot])
  {
    var u := t[h := slot];
    assert u[h].mac in Macs(u);
    if mac != slot.mac {
      var i :| 0 <= i < |t| && t[i].active && t[i].mac == mac;
      assert i != h ==> u[i] == t[i];
    }
  }

  lemma ContentsPut<P>(t: seq<Slot<P>>, slot: Slot<P>)
    requires t != [] && Unique(t) && slot.active
    ensures Contents(Put(t, slot)) == Replaced(t, Home(t, slot.mac), slot)
  {
    UniquePut(t, slot);
    var h, u := Home(t, slot.mac), Put(t, slot);
    hide Unique, Contents, Replaced;
    forall i | 0 <= i < |u| && u[i].active
      ensures u[i].mac in Replaced(t, h, slot) && Replaced(t, h, slot)[u[i].mac] == u[i]
    {
      HeldAfter(t, h, slot, i);
    }
    forall mac | mac in Replaced(t, h, slot) ensures mac in Macs(u) {
      AfterIsHeld(t, h, slot, mac);
    }
    ContentsAre(u, Replaced(t, h, slot));
  }

  /** Storing into the slots is storing into the bounded map. */
  lemma PutRefines<P>(t: seq<Slot<P>>, slot: Slot<P>)
    requires t != [] && Unique(t) && slot.active
    ensures Unique(Put(t, slot))
    ensures BoundedPut(|t|, Contents(t), Contents(Put(t, slot)), slot)
    ensures Contents(Put(t, slot))[slot.mac] == slot
    ensures Count(Put(t, slot)) == if slot.mac in Macs(t) || Count(t) == |t| then Count(t) else Count(t) + 1
  {
    var h := Home(t, slot.mac);
    UniquePut(t, slot);
    ContentsPut(t, slot);
    CountPut(t, h, slot);
    SizeIsCount(t);
    FoundExactly(t, slot.mac);
    if slot.mac !in Macs(t) && Count(t) == |t| {
      HeldInSlot(t, h);
      forall mac | mac in Contents(t) ensures t[h].stamp <= Contents(t)[mac].stamp {
        FoundExactly(t, mac);
      }
      assert Evicts(Contents(t), Contents(Put(t, slot)), slot, t[h].mac);
    }
  }

  /** Overwriting slots forgets exactly the entries that are not kept. */
  lemma KeepRefines<P>(t: seq<Slot<P>>, keep: Slot<P> -> bool, empty: Slot<P>)
    requires Unique(t) && !empty.active
    ensures Unique(Keep(t, keep, empty))
    ensures Contents(Keep(t, keep, empty)) == map mac | mac in Contents(t) && keep(Contents(t)[mac]) :: Contents(t)[mac]
  {
    var u := Keep(t, keep, empty);
    var m := map mac | mac in Contents(t) && keep(Contents(t)[mac]) :: Contents(t)[mac];
    forall i | 0 <= i < |u| && u[i].active ensures u[i].mac in m && m[u[i].mac] == u[i] {
      HeldInSlot(t, i);
    }
    forall mac | mac in m ensures mac in Macs(u) {
      FoundExactly(t, mac);
      var i := FirstActive(t, mac);
      assert u[i] == t[i];
    }
    ContentsAre(u, m);
  }

  lemma EmptyContents<P>(t: seq<Slot<P>>)
    requires forall i :: 0 <= i < |t| ==> !t[i].active
    ensures Unique(t) && Contents(t) == map[] && Count(t) == 0
  {
    SizeIsCount(t);
    assert Macs(t) == {};
  }

  /** What a lookup finds after storing: the entry stored, and under other addresses what it found before. */
  lemma PutAnswers<P>(limit: nat, before: map<Mac, Slot<P>>, after: map<Mac, Slot<P>>, slot: Slot<P>, other: Mac)
    requires BoundedPut(limit, before, after, slot) && other != slot.mac
    ensures slot.mac in after && after[slot.mac] == slot
    ensures other in after ==> other in before && after[other] == before[other]
    ensures
      other in before && other !in after ==>
        && slot.mac !in before && |before| >= limit
        && forall mac :: mac in after ==> mac == slot.mac || before[other].stamp <= after[mac].stamp
  {
    if !(slot.mac in before || |before| < limit) {
      var victim :| Evicts(before, after, slot, victim);
    }
  }

  /** What storing pushes out has a least stamp. */
  lemma PushedOutIsLeast<P>(
    limit: nat, before: map<Mac, Slot<P>>, after: map<Mac, Slot<P>>, slot: Slot<P>, victim: Mac, mac: Mac)
    requires BoundedPut(limit, before, after, slot) && victim in before && victim !in after && mac in before
    ensures before[victim].stamp <= before[mac].stamp
  {
    if !(slot.mac in before || |before| < limit) {
      var least :| Evicts(before, after, slot, least);
    }
  }

  lemma EvictSize<P>(before: map<Mac, Slot<P>>, after: map<Mac, Slot<P>>, slot: Slot<P>, victim: Mac)
    requires Evicts(before, after, slot, victim) && slot.mac !in before
    ensures |after| == |before|
  {
    assert after.Keys == (before.Keys - {victim}) + {slot.mac};
    assert |before| == |before.Keys| && |after| == |after.Keys|;
  }

  /** Storing adds one entry to a map that has room and nothing to a full one. */
  lemma PutSize<P>(limit: nat, before: map<Mac, Slot<P>>, after: map<Mac, Slot<P>>, slot: Slot<P>)
    requires BoundedPut(limit, before, after, slot) && |before| <= limit
    ensures |after| == if slot.mac in before || |before| == limit then |before| else |before| + 1
  {
    if slot.mac in before {
      assert after.Keys == before.Keys;
      assert |before| == |before.Keys| && |after| == |after.Keys|;
    } else if |before| < limit {
      assert after.Keys == before.Keys + {slot.mac};
      assert |before| == |before.Keys| && |after| == |after.Keys|;
    } else {
      hide Evicts;
      var victim :| Evicts(before, after, slot, victim);
      EvictSize(before, after, slot, victim);
    }
  }

  // ------------------------------------------------------------------ the array

  class Slots<P> {
    const slots: array<Slot<P>>

    constructor (limit: nat, empty: Slot<P>)
      ensures fresh(slots) && slots.Length == limit
      ensures forall i :: 0 <= i < limit ==> slots[i] == empty
    {
      slots := new Slot<P>[limit](_ => empty);
    }

    method FindActive(mac: Mac) returns (i: nat)
      ensures i == FirstActive(slots[..], mac)
    {
      i := 0;
      while i < slots.Length
        invariant i <= slots.Length
        invariant forall k :: 0 <= k < i ==> !(slots[k].active && slots[k].mac == mac)
      {
        if slots[i].active && slots[i].mac == mac {
          return;
        }
        i := i + 1;
      }
    }

    method FindFree() returns (i: nat)
      ensures i == FirstFree(slots[..])
    {
      i := 0;
      while i < slots.Length
        invariant i <= slots.Length
        invariant forall k :: 0 <= k < i ==> slots[k].active
      {
        if !slots[i].active {
          return;
        }
        i := i + 1;
      }
    }

    method FindOldest() returns (index: nat)
      requires slots.Length > 0
      requires forall i :: 0 <= i < slots.Length ==> slots[i].stamp <= UINT32_MAX
      ensures index == Oldest(slots[..])
    {
      index := 0;
      var oldest := UINT32_MAX;
      for i := 0 to slots.Length
        invariant index < slots.Length && oldest <= UINT32_MAX
        invariant forall k :: 0 <= k < i ==> oldest <= slots[k].stamp
        invariant if oldest == UINT32_MAX then index == 0
                  else index < i && slots[index].stamp == oldest && forall k :: 0 <= k < index ==> oldest < slots[k].stamp
      {
        if slots[i].stamp < oldest {
          oldest := slots[i].stamp;
          index := i;
        }
      }
      assert IsOldest(slots[..], index);
    }
  }
}
