/**
  The cache of discovery results (main/bluetooth/ble_gatt_discovery.c), the second instance of
  the slot table. A slot is active when its result is complete; its stamp is the time of the
  discovery in seconds, as an unsigned 32-bit number.
 */
module DiscoveryCache {
  import opened Wrappers
  import opened SlotTable

  const MAX_CACHED_DEVICES := 8

  /** What a discovery found on a device. */
  datatype Found = Found(connHandle: nat, services: seq<string>)

  type Entry = Slot<Found>

  const EMPTY: Entry := Slot(false, 0, 0, Found(0, []))

  /** A discovery that came to its end, successfully or not; and the two ways to forget. */
  datatype Event =
    | Discovered(ok: bool, mac: Mac, time: nat, found: Found)
    | ClearCached(mac: Mac)
    | ClearAll

  function Stored(e: Event): Entry
    requires e.Discovered?
  {
    Slot(true, e.mac, e.time % (UINT32_MAX + 1), e.found)
  }

  function Unlike(mac: Mac): Entry -> bool {
    (e: Entry) => e.mac != mac
  }

  /** `caching` says whether results are configured to be cached. */
  function Step(t: seq<Entry>, caching: bool, e: Event): (r: seq<Entry>)
    requires t != []
    ensures |r| == |t|
  {
    match e
    case Discovered(ok, mac, _, _) => if ok && caching then Put(t, Stored(e)) else t
    case ClearCached(mac) => if FirstActive(t, mac) < |t| then t[FirstActive(t, mac) := EMPTY] else t
    case ClearAll => seq(|t|, _ => EMPTY)
  }

  function Run(caching: bool, events: seq<Event>): (t: seq<Entry>)
    ensures |t| == MAX_CACHED_DEVICES
  {
    if events == [] then seq(MAX_CACHED_DEVICES, _ => EMPTY)
    else Step(Run(caching, events[..|events| - 1]), caching, events[|events| - 1])
  }

  type Results = map<Mac, Entry>

  /** What an event does to a map of at most eight results. */
  ghost predicate MapStep(before: Results, caching: bool, e: Event, after: Results) {
    match e
    case Discovered(ok, _, _, _) =>
      if ok && caching then BoundedPut(MAX_CACHED_DEVICES, before, after, Stored(e)) else after == before
    case ClearCached(mac) => after == before - {mac}
    case ClearAll => after == map[]
  }

  ghost predicate Valid(t: seq<Entry>) {
    && |t| == MAX_CACHED_DEVICES
    && Unique(t)
    && forall i :: 0 <= i < |t| ==> t[i].stamp <= UINT32_MAX
  }

  /** Clearing the slot found is forgetting the address. */
  lemma ClearIsKeep(t: seq<Entry>, mac: Mac)
    requires t != [] && Unique(t)
    ensures Step(t, true, ClearCached(mac)) == Keep(t, Unlike(mac), EMPTY)
    ensures Step(t, false, ClearCached(mac)) == Keep(t, Unlike(mac), EMPTY)
  {
    var i := FirstActive(t, mac);
    assert forall k :: 0 <= k < |t| && t[k].active && t[k].mac == mac ==> k == i;
  }

  lemma UnlikeIsMinus(before: Results, mac: Mac)
    requires IsKeyed(before)
    ensures (map m | m in before && Unlike(mac)(before[m]) :: before[m]) == before - {mac}
  {
  }

  /** Every step keeps at most one result per address and is a step of the bounded map. */
  lemma StepRefines(t: seq<Entry>, caching: bool, e: Event)
    requires Valid(t)
    ensures Valid(Step(t, caching, e))
    ensures MapStep(Contents(t), caching, e, Contents(Step(t, caching, e)))
  {
    hide Unique, Contents, BoundedPut;
    match e
    case Discovered(ok, mac, time, found) =>
      if ok && caching {
        PutRefines(t, Stored(e));
      }
    case ClearCached(mac) =>
      ClearIsKeep(t, mac);
      KeepRefines(t, Unlike(mac), EMPTY);
      UnlikeIsMinus(Contents(t), mac);
    case ClearAll => EmptyContents(Step(t, caching, e));
  }

  lemma {:induction false} RunIsValid(caching: bool, events: seq<Event>)
    ensures Valid(Run(caching, events)) && |Contents(Run(caching, events))| <= MAX_CACHED_DEVICES
    decreases |events|
  {
    if events == [] {
      EmptyContents(Run(caching, events));
    } else {
      hide Valid, Contents;
      RunIsValid(caching, events[..|events| - 1]);
      StepRefines(Run(caching, events[..|events| - 1]), caching, events[|events| - 1]);
    }
    SizeIsCount(Run(caching, events));
  }

  /** In every run, a lookup right after a cached discovery returns it, and no other address answers anew. */
  lemma LookupAfterDiscovery(events: seq<Event>, mac: Mac, time: nat, found: Found, other: Mac)
    requires other != mac
    ensures
      var e := Discovered(true, mac, time, found);
      var before, after := Contents(Run(true, events)), Contents(Run(true, events + [e]));
      && mac in after && after[mac] == Stored(e)
      && (other in after ==> other in before && after[other] == before[other])
      && (other in before && other !in after ==>
            && mac !in before && |before| == MAX_CACHED_DEVICES
            && forall m :: m in after ==> m == mac || before[other].stamp <= after[m].stamp)
  {
    var e := Discovered(true, mac, time, found);
    assert (events + [e])[..|events|] == events;
    RunIsValid(true, events);
    StepRefines(Run(true, events), true, e);
    hide Contents, Valid, BoundedPut;
    PutAnswers(MAX_CACHED_DEVICES, Contents(Run(true, events)), Contents(Run(true, events + [e])), Stored(e), other);
  }

  // ------------------------------------------------------------------ the code

  class Cache {
    const table: Slots<Found>
    var cacheResults: bool

    constructor (cacheResults: bool)
      ensures fresh(table.slots) && table.slots[..] == Run(cacheResults, []) && Valid(table.slots[..])
      ensures this.cacheResults == cacheResults
    {
      var t := new Slots(MAX_CACHED_DEVICES, EMPTY);
      table := t;
      this.cacheResults := cacheResults;
      new;
      assert table.slots[..] == Run(cacheResults, []);
      RunIsValid(cacheResults, []);
    }

    /** `find_free_cache_slot`: a slot that is not complete, else the oldest, cleared. */
    method FindFreeSlot() returns (index: nat)
      requires Valid(table.slots[..])
      modifies table.slots
      ensures var t := old(table.slots[..]); index == if FirstFree(t) < |t| then FirstFree(t) else Oldest(t)
      ensures index < table.slots.Length
      ensures var t := old(table.slots[..]); table.slots[..] == if FirstFree(t) < |t| then t else t[Oldest(t) := EMPTY]
    {
      var slots := table.slots;
      index := table.FindFree();
      if index == slots.Length {
        index := table.FindOldest();
        slots[index] := EMPTY;
      }
    }

    /** `memcpy` of a result to its place. */
    method Store(entry: Entry)
      requires Valid(table.slots[..])
      modifies table.slots
      ensures table.slots[..] == Put(old(table.slots[..]), entry)
    {
      hide Unique;
      var slots := table.slots;
      var cached := table.FindActive(entry.mac);
      if cached == slots.Length {
        cached := FindFreeSlot();
      }
      slots[cached] := entry;
    }

    /** The caching at the end of a discovery. */
    method Discovered(ok: bool, mac: Mac, time: nat, found: Found)
      requires Valid(table.slots[..])
      modifies table.slots
      ensures table.slots[..] == Step(old(table.slots[..]), cacheResults, Event.Discovered(ok, mac, time, found))
      ensures Valid(table.slots[..])
    {
      hide Valid, Put;
      StepRefines(table.slots[..], cacheResults, Event.Discovered(ok, mac, time, found));
      if ok && cacheResults {
        Store(Slot(true, mac, time % (UINT32_MAX + 1), found));
      }
    }

    method GetCached(mac: Mac) returns (result: Option<Entry>)
      requires Valid(table.slots[..])
      ensures result == if mac in Contents(table.slots[..]) then Some(Contents(table.slots[..])[mac]) else None
    {
      FoundExactly(table.slots[..], mac);
      var i := table.FindActive(mac);
      if i == table.slots.Length {
        return None;
      }
      return Some(table.slots[i]);
    }

    method ClearCached(mac: Mac)
      requires Valid(table.slots[..])
      modifies table.slots
      ensures table.slots[..] == Step(old(table.slots[..]), cacheResults, Event.ClearCached(mac))
      ensures Valid(table.slots[..])
    {
      hide Unique;
      ghost var before := table.slots[..];
      StepRefines(before, cacheResults, Event.ClearCached(mac));
      var slots := table.slots;
      var i := table.FindActive(mac);
      if i < slots.Length {
        slots[i] := EMPTY;
        assert slots[..] == before[i := EMPTY];
      }
    }

    method ClearAllCached()
      requires Valid(table.slots[..])
      modifies table.slots
      ensures table.slots[..] == Step(old(table.slots[..]), cacheResults, ClearAll)
      ensures Valid(table.slots[..])
    {
      StepRefines(table.slots[..], cacheResults, ClearAll);
      var slots := table.slots;
      for i := 0 to slots.Length
        invariant forall k :: 0 <= k < i ==> slots[k] == EMPTY
      {
        slots[i] := EMPTY;
      }
      assert slots[..] == seq(slots.Length, _ => EMPTY);
    }
  }
}
