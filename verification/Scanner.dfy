/**
  The table of tracked devices (main/bluetooth/ble_scanner.c). What the scanner does under its
  mutex is one step; advertisements come with the times at which the code reads the clock.
 */
module Scanner {
  import opened Wrappers
  import opened Clock
  import opened SlotTable
  import opened RssiAverage

  const STALE_TIMEOUT_MS := 300000

  const PHY_UNKNOWN := 0xFF

  /** What an extended advertisement adds. */
  datatype Extension = Extension(legacy: bool, primaryPhy: nat, secondaryPhy: nat, txPower: Int8)

  /** `now` is read before the mutex is taken, `created` when an entry is made. */
  datatype Advertisement = Advertisement(
    now: nat, created: nat, mac: Mac, addrType: nat, rssi: Int8, extension: Option<Extension>)

  datatype Sighting = Sighting(
    addrType: nat, rssi: Int8, average: Int8, firstSeen: nat, count: nat, ble5: bool, phy: nat, txPower: Int8)

  type Entry = Slot<Sighting>

  const EMPTY: Entry := Slot(false, 0, 0, Sighting(0, 0, 0, 0, 0, false, 0, 0))

  function NewEntry(adv: Advertisement): Entry {
    Slot(true, adv.mac, Stamp(adv.created), EMPTY.data.(addrType := adv.addrType, firstSeen := Stamp(adv.created)))
  }

  /** An entry after an advertisement. */
  function Updated(e: Entry, adv: Advertisement): Entry {
    var d := e.data.(
      average := if e.data.count == 0 then adv.rssi else Average(adv.rssi, e.data.average),
      rssi := adv.rssi,
      count := (e.data.count + 1) % CYCLE);
    e.(stamp := Stamp(adv.now), data := if adv.extension.None? then d else Extended(d, adv.extension.value))
  }

  function Extended(d: Sighting, x: Extension): Sighting {
    d.(ble5 := !x.legacy, phy := if x.secondaryPhy != PHY_UNKNOWN then x.secondaryPhy else x.primaryPhy, txPower := x.txPower)
  }

  predicate IsStale(e: Entry, now: nat) {
    Age(Stamp(now), e.stamp) > STALE_TIMEOUT_MS
  }

  function Lasting(now: nat): Entry -> bool {
    e => !IsStale(e, now)
  }

  // ------------------------------------------------------------------ steps

  datatype State = State(slots: seq<Entry>, count: int, unique: nat)

  datatype Event =
    | Advertise(adv: Advertisement)
    | Prune(now: nat)
    | Clear
    | ResetStats

  function Initial(limit: nat): State {
    State(seq(limit, _ => EMPTY), 0, 0)
  }

  /** The entry an advertisement updates: the one under its address, or a new one. */
  function Base(t: seq<Entry>, adv: Advertisement): Entry {
    var i := FirstActive(t, adv.mac);
    if i < |t| then t[i] else NewEntry(adv)
  }

  function Advertised(s: State, adv: Advertisement): State
    requires s.slots != []
  {
    var t := s.slots;
    var u := Put(t, Updated(Base(t, adv), adv));
    if FirstActive(t, adv.mac) < |t| then s.(slots := u)
    else State(u, if FirstFree(t) < |t| then s.count + 1 else s.count, (s.unique + 1) % CYCLE)
  }

  function Step(s: State, e: Event): (r: State)
    requires s.slots != []
    ensures |r.slots| == |s.slots|
  {
    match e
    case Advertise(adv) => Advertised(s, adv)
    case Prune(now) =>
      var kept := Keep(s.slots, Lasting(now), EMPTY);
      s.(slots := kept, count := s.count - (Count(s.slots) - Count(kept)))
    case Clear => State(seq(|s.slots|, _ => EMPTY), 0, 0)
    case ResetStats => s.(unique := 0)
  }

  function Run(limit: nat, events: seq<Event>): (s: State)
    requires limit > 0
    ensures |s.slots| == limit
  {
    if events == [] then Initial(limit) else Step(Run(limit, events[..|events| - 1]), events[|events| - 1])
  }

  // ------------------------------------------------------------------ invariants

  predicate Stamped(t: seq<Entry>) {
    forall i :: 0 <= i < |t| ==> t[i].stamp <= UINT32_MAX
  }

  ghost predicate Valid(s: State) {
    && s.slots != []
    && Unique(s.slots)
    && s.count == Count(s.slots)
    && Stamped(s.slots)
  }

  // ------------------------------------------------------------------ the bounded map

  type Devices = map<Mac, Entry>

  /** The entry a map of devices gets from an advertisement. */
  function EntryFor(devices: Devices, adv: Advertisement): Entry {
    Updated(if adv.mac in devices then devices[adv.mac] else NewEntry(adv), adv)
  }

  /** The devices that a prune leaves. */
  function StillHeld(devices: Devices, now: nat): Devices {
    map mac | mac in devices && !IsStale(devices[mac], now) :: devices[mac]
  }

  /** What an event does to a map of at most `limit` devices. */
  ghost predicate MapStep(limit: nat, before: Devices, e: Event, after: Devices) {
    match e
    case Advertise(adv) => BoundedPut(limit, before, after, EntryFor(before, adv))
    case Prune(now) => after == StillHeld(before, now)
    case Clear => after == map[]
    case ResetStats => after == before
  }

  lemma UpdatedIsStamped(e: Entry, adv: Advertisement)
    ensures Updated(e, adv).stamp <= UINT32_MAX
    ensures Updated(e, adv).active == e.active && Updated(e, adv).mac == e.mac
  {
  }

  lemma AdvertiseRefines(s: State, adv: Advertisement)
    requires Valid(s)
    ensures Valid(Step(s, Advertise(adv)))
    ensures MapStep(|s.slots|, Contents(s.slots), Advertise(adv), Contents(Step(s, Advertise(adv)).slots))
  {
    hide Updated, Unique, Count, Contents, BoundedPut;
    var t := s.slots;
    var base := Base(t, adv);
    UpdatedIsStamped(base, adv);
    BaseIsHeld(t, adv);
    SizeIsCount(t);
    PutRefines(t, Updated(base, adv));
    FoundExactly(t, adv.mac);
  }

  lemma BaseIsHeld(t: seq<Entry>, adv: Advertisement)
    requires Unique(t)
    ensures Updated(Base(t, adv), adv) == EntryFor(Contents(t), adv)
    ensures Base(t, adv).active && Base(t, adv).mac == adv.mac
  {
    FoundExactly(t, adv.mac);
  }

  lemma LastingIsNotStale(before: Devices, now: nat)
    ensures (map mac | mac in before && Lasting(now)(before[mac]) :: before[mac]) == StillHeld(before, now)
  {
    hide IsStale;
  }

  lemma PruneRefines(s: State, now: nat)
    requires Valid(s)
    ensures Valid(Step(s, Prune(now)))
    ensures MapStep(|s.slots|, Contents(s.slots), Prune(now), Contents(Step(s, Prune(now)).slots))
  {
    hide IsStale, Unique, Count, Contents, Lasting, StillHeld;
    KeepRefines(s.slots, Lasting(now), EMPTY);
    LastingIsNotStale(Contents(s.slots), now);
  }

  /** Every step keeps the invariants and is a step of the bounded map. */
  lemma StepRefines(s: State, e: Event)
    requires Valid(s)
    ensures Valid(Step(s, e))
    ensures MapStep(|s.slots|, Contents(s.slots), e, Contents(Step(s, e).slots))
  {
    match e
    case Advertise(adv) => AdvertiseRefines(s, adv);
    case Prune(now) => PruneRefines(s, now);
    case Clear => EmptyContents(Step(s, e).slots);
    case ResetStats =>
  }

  /** In every run addresses are unique, the counter is the number of devices, and there is room for them. */
  lemma {:induction false} RunIsValid(limit: nat, events: seq<Event>)
    requires limit > 0
    ensures Valid(Run(limit, events))
    ensures var s := Run(limit, events); s.count == |Contents(s.slots)| <= limit
    decreases |events|
  {
    if events == [] {
      EmptyContents(Run(limit, events).slots);
    } else {
      hide Valid, Contents;
      RunIsValid(limit, events[..|events| - 1]);
      StepRefines(Run(limit, events[..|events| - 1]), events[|events| - 1]);
    }
    SizeIsCount(Run(limit, events).slots);
  }

  // ------------------------------------------------------------------ conservation

  /** Devices created, evicted and pruned since the last clear, and creations since the last clear or reset. */
  datatype Tally = Tally(created: nat, evicted: nat, pruned: nat, counted: nat)

  function StaleMacs(devices: Devices, now: nat): set<Mac> {
    set mac | mac in devices && IsStale(devices[mac], now)
  }

  function Account(limit: nat, before: Devices, e: Event, n: Tally): Tally {
    match e
    case Advertise(adv) =>
      if adv.mac in before then n
      else Tally(n.created + 1, if |before| == limit then n.evicted + 1 else n.evicted, n.pruned, n.counted + 1)
    case Prune(now) => n.(pruned := n.pruned + |StaleMacs(before, now)|)
    case Clear => Tally(0, 0, 0, 0)
    case ResetStats => n.(counted := 0)
  }

  function Accounts(limit: nat, events: seq<Event>): Tally
    requires limit > 0
  {
    if events == [] then Tally(0, 0, 0, 0)
    else
      var earlier := events[..|events| - 1];
      Account(limit, Contents(Run(limit, earlier).slots), events[|events| - 1], Accounts(limit, earlier))
  }

  lemma PrunedSize(before: Devices, now: nat, after: Devices)
    requires MapStep(0, before, Prune(now), after)
    ensures |after| + |StaleMacs(before, now)| == |before|
  {
    assert before.Keys == after.Keys + StaleMacs(before, now);
    assert after.Keys !! StaleMacs(before, now);
    assert |before| == |before.Keys| && |after| == |after.Keys|;
  }

  lemma AccountBalances(limit: nat, before: Devices, e: Event, after: Devices, n: Tally)
    requires MapStep(limit, before, e, after) && |before| <= limit && IsKeyed(before)
    requires n.created == |before| + n.evicted + n.pruned
    ensures var m := Account(limit, before, e, n); m.created == |after| + m.evicted + m.pruned
  {
    match e
    case Advertise(adv) => PutSize(limit, before, after, EntryFor(before, adv));
    case Prune(now) => PrunedSize(before, now, after);
    case Clear =>
    case ResetStats =>
  }

  /** Every device created since the last clear is still held, was evicted or was pruned. */
  lemma {:induction false} DevicesAreConserved(limit: nat, events: seq<Event>)
    requires limit > 0
    ensures
      var n := Accounts(limit, events);
      && n.created == |Contents(Run(limit, events).slots)| + n.evicted + n.pruned
      && Run(limit, events).unique == n.counted % CYCLE
    decreases |events|
  {
    RunIsValid(limit, events);
    if events == [] {
      EmptyContents(Run(limit, events).slots);
    } else {
      var earlier, e := events[..|events| - 1], events[|events| - 1];
      DevicesAreConserved(limit, earlier);
      RunIsValid(limit, earlier);
      var s := Run(limit, earlier);
      StepRefines(s, e);
      hide Valid, Contents, MapStep, Keep, Put;
      AccountBalances(limit, Contents(s.slots), e, Contents(Step(s, e).slots), Accounts(limit, earlier));
      UniqueCounts(limit, s, e, Accounts(limit, earlier));
    }
  }

  lemma UniqueCounts(limit: nat, s: State, e: Event, n: Tally)
    requires s.slots != [] && s.unique == n.counted % CYCLE
    ensures Step(s, e).unique == Account(limit, Contents(s.slots), e, n).counted % CYCLE
  {
    match e
    case Advertise(adv) => FoundExactly(s.slots, adv.mac);
    case Prune(_) =>
    case Clear =>
    case ResetStats =>
  }

  // ------------------------------------------------------------------ the average over a run

  /** The strengths received from an address since its present entry was made. */
  function Heard(limit: nat, events: seq<Event>, mac: Mac): seq<Int8>
    requires limit > 0
  {
    if events == [] then []
    else
      var earlier, e := events[..|events| - 1], events[|events| - 1];
      if !e.Advertise? || e.adv.mac != mac then Heard(limit, earlier, mac)
      else if mac in Contents(Run(limit, earlier).slots) then Heard(limit, earlier, mac) + [e.adv.rssi]
      else [e.adv.rssi]
  }

  predicate Within(heard: seq<Int8>, low: int, high: int) {
    forall i :: 0 <= i < |heard| ==> low <= heard[i] <= high
  }

  /** An entry agrees with what was heard. */
  predicate Reflects(e: Entry, heard: seq<Int8>, low: int, high: int) {
    && heard != []
    && e.data.rssi == heard[|heard| - 1]
    && e.data.count == |heard| % CYCLE
    && (Within(heard, low, high) ==> low <= e.data.average <= high)
  }

  lemma WithinSnoc(heard: seq<Int8>, rssi: Int8, low: int, high: int)
    ensures Within(heard + [rssi], low, high) <==> Within(heard, low, high) && low <= rssi <= high
  {
    var now := heard + [rssi];
    assert now[|heard|] == rssi;
    assert forall i :: 0 <= i < |heard| ==> now[i] == heard[i];
  }

  lemma AverageWithin(e: Entry, adv: Advertisement, low: int, high: int)
    requires low <= adv.rssi <= high && (e.data.count != 0 ==> low <= e.data.average <= high)
    ensures low <= Updated(e, adv).data.average <= high
  {
    hide Average;
    if e.data.count != 0 {
      AverageIsBetween(adv.rssi, e.data.average, low, high);
    }
  }

  lemma UpdatedReflects(e: Entry, adv: Advertisement, heard: seq<Int8>, low: int, high: int)
    requires if heard == [] then e.data.count == 0 else Reflects(e, heard, low, high)
    ensures Reflects(Updated(e, adv), heard + [adv.rssi], low, high)
  {
    hide Average, Within;
    WithinSnoc(heard, adv.rssi, low, high);
    if Within(heard + [adv.rssi], low, high) {
      AverageWithin(e, adv, low, high);
    }
    CountNext(e.data.count, |heard|);
  }

  lemma CountNext(count: nat, n: nat)
    requires count == n % CYCLE
    ensures (count + 1) % CYCLE == (n + 1) % CYCLE
  {
  }

  lemma EntryReflects(devices: Devices, adv: Advertisement, heard: seq<Int8>, low: int, high: int)
    requires adv.mac in devices ==> Reflects(devices[adv.mac], heard, low, high)
    ensures
      Reflects(EntryFor(devices, adv), if adv.mac in devices then heard + [adv.rssi] else [adv.rssi], low, high)
  {
    hide Updated, Within;
    if adv.mac in devices {
      UpdatedReflects(devices[adv.mac], adv, heard, low, high);
    } else {
      UpdatedReflects(NewEntry(adv), adv, [], low, high);
      assert [] + [adv.rssi] == [adv.rssi];
    }
  }

  /** Which entries a step may change: only the advertised one. */
  lemma OthersAreKept(limit: nat, before: Devices, e: Event, after: Devices, mac: Mac)
    requires MapStep(limit, before, e, after) && mac in after && IsKeyed(before)
    ensures
      if e.Advertise? && e.adv.mac == mac then after[mac] == EntryFor(before, e.adv)
      else mac in before && after[mac] == before[mac]
  {
    hide IsStale, Updated;
    if e.Advertise? {
      var slot := EntryFor(before, e.adv);
      EntryMac(before, e.adv);
      if !(slot.mac in before || |before| < limit) {
        var victim :| Evicts(before, after, slot, victim);
      }
    }
  }

  lemma EntryMac(devices: Devices, adv: Advertisement)
    requires IsKeyed(devices)
    ensures EntryFor(devices, adv).mac == adv.mac
  {
  }

  /** In every run a device's average lies between the least and the greatest strength received for it. */
  lemma {:induction false} AverageStaysBetween(limit: nat, events: seq<Event>, mac: Mac, low: int, high: int)
    requires limit > 0
    ensures
      var devices := Contents(Run(limit, events).slots);
      mac in devices ==> Reflects(devices[mac], Heard(limit, events, mac), low, high)
    decreases |events|
  {
    EmptyContents(Initial(limit).slots);
    if events != [] {
      var earlier, e := events[..|events| - 1], events[|events| - 1];
      RunIsValid(limit, earlier);
      var s := Run(limit, earlier);
      StepRefines(s, e);
      var before, after := Contents(s.slots), Contents(Step(s, e).slots);
      hide Valid, Contents, MapStep, Step, Reflects;
      AverageStaysBetween(limit, earlier, mac, low, high);
      if mac in after {
        OthersAreKept(limit, before, e, after, mac);
      }
      if e.Advertise? && e.adv.mac == mac {
        EntryReflects(before, e.adv, Heard(limit, earlier, mac), low, high);
      }
    }
  }

  // ------------------------------------------------------------------ judging by the clock

  /** When an address was last heard in a run. */
  function LastSeen(events: seq<Event>, mac: Mac): nat {
    if events == [] then 0
    else
      var e := events[|events| - 1];
      if e.Advertise? && e.adv.mac == mac then e.adv.now else LastSeen(events[..|events| - 1], mac)
  }

  lemma EntryStamp(devices: Devices, adv: Advertisement)
    ensures EntryFor(devices, adv).stamp == Stamp(adv.now)
  {
  }

  /** In every run a device's stamp is the time at which it was last heard. */
  lemma {:induction false} StampIsLastSeen(limit: nat, events: seq<Event>, mac: Mac)
    requires limit > 0
    ensures
      var devices := Contents(Run(limit, events).slots);
      mac in devices ==> devices[mac].stamp == Stamp(LastSeen(events, mac))
    decreases |events|
  {
    EmptyContents(Initial(limit).slots);
    if events != [] {
      var earlier, e := events[..|events| - 1], events[|events| - 1];
      RunIsValid(limit, earlier);
      var s := Run(limit, earlier);
      StepRefines(s, e);
      var before, after := Contents(s.slots), Contents(Step(s, e).slots);
      hide Valid, Contents, MapStep, Step, EntryFor, Stamp;
      StampIsLastSeen(limit, earlier, mac);
      if mac in after {
        OthersAreKept(limit, before, e, after, mac);
      }
      if e.Advertise? {
        EntryStamp(before, e.adv);
      }
    }
  }

  lemma RunNext(limit: nat, events: seq<Event>, e: Event)
    requires limit > 0
    ensures Run(limit, events + [e]) == Step(Run(limit, events), e)
  {
    assert (events + [e])[..|events|] == events;
  }

  /**
   * After any run, a prune keeps a device just when it is not stale by its last advertisement,
   * exactly when the 32-bit age does not mislead.
   */
  lemma PruneJudgesExactly(limit: nat, events: seq<Event>, mac: Mac, now: nat)
    requires limit > 0
    ensures
      var last := LastSeen(events, mac);
      mac in Contents(Run(limit, events).slots) ==>
        ((mac in Contents(Run(limit, events + [Prune(now)]).slots) <==> now - last <= STALE_TIMEOUT_MS) <==>
           !Misleads(last, now, STALE_TIMEOUT_MS))
  {
    var s := Run(limit, events);
    RunIsValid(limit, events);
    StepRefines(s, Prune(now));
    RunNext(limit, events, Prune(now));
    StampIsLastSeen(limit, events, mac);
    JudgesExactly(LastSeen(events, mac), now, STALE_TIMEOUT_MS);
    hide Valid, Contents, Run, Step, LastSeen, Misleads, Stamp, Age;
  }

  /** With the clock read before the last advertisement came in, a device just seen is pruned. */
  lemma FreshDevicePruned(mac: Mac, rssi: Int8)
    ensures
      var adv := Advertisement(1001, 1001, mac, 0, rssi, None);
      var before, after := [Advertise(adv)], [Advertise(adv), Prune(1000)];
      mac in Contents(Run(1, before).slots) && mac !in Contents(Run(1, after).slots)
  {
    var adv := Advertisement(1001, 1001, mac, 0, rssi, None);
    var before, after := [Advertise(adv)], [Advertise(adv), Prune(1000)];
    assert before[..0] == [] && after[..1] == before;
    RunIsValid(1, []);
    RunIsValid(1, before);
    EmptyContents(Run(1, []).slots);
    StepRefines(Run(1, []), Advertise(adv));
    StepRefines(Run(1, before), Prune(1000));
  }

  /** A device that an advertisement pushes out. */
  ghost predicate IsEvicted(limit: nat, events: seq<Event>, adv: Advertisement, mac: Mac)
    requires limit > 0
  {
    mac in Contents(Run(limit, events).slots) && mac !in Contents(Run(limit, events + [Advertise(adv)]).slots)
  }

  lemma EvictedIsLeast(limit: nat, events: seq<Event>, adv: Advertisement, victim: Mac, mac: Mac)
    requires limit > 0 && IsEvicted(limit, events, adv, victim) && mac in Contents(Run(limit, events).slots)
    ensures Stamp(LastSeen(events, victim)) <= Stamp(LastSeen(events, mac))
  {
    RunIsValid(limit, events);
    StepRefines(Run(limit, events), Advertise(adv));
    RunNext(limit, events, Advertise(adv));
    StampIsLastSeen(limit, events, victim);
    StampIsLastSeen(limit, events, mac);
    var before, after := Contents(Run(limit, events).slots), Contents(Run(limit, events + [Advertise(adv)]).slots);
    hide Valid, Contents, Run, Step, LastSeen, Stamp, EntryFor, BoundedPut;
    PushedOutIsLeast(limit, before, after, EntryFor(before, adv), victim, mac);
  }

  /**
   * After any run, the device an advertisement pushes out is the longest unseen exactly when
   * none was last heard in an earlier cycle of the clock.
   */
  lemma EvictsLongestUnseenExactly(limit: nat, events: seq<Event>, adv: Advertisement, victim: Mac)
    requires limit > 0 && IsEvicted(limit, events, adv, victim)
    ensures
      var held, last := Contents(Run(limit, events).slots), LastSeen(events, victim);
      (forall mac :: mac in held ==> last <= LastSeen(events, mac)) <==>
        (forall mac :: mac in held ==> last / CYCLE <= LastSeen(events, mac) / CYCLE)
  {
    var held, last := Contents(Run(limit, events).slots), LastSeen(events, victim);
    hide Contents, Run, LastSeen, Stamp, IsEvicted;
    forall mac | mac in held
      ensures last <= LastSeen(events, mac) <==> last / CYCLE <= LastSeen(events, mac) / CYCLE
    {
      EvictedIsLeast(limit, events, adv, victim, mac);
      InOrderExactly(last, LastSeen(events, mac));
    }
  }

  // ------------------------------------------------------------------ the code

  /** What a prune makes of a slot. */
  function Judged(e: Entry, now: nat): Entry {
    if e.active && Age(Stamp(now), e.stamp) > STALE_TIMEOUT_MS then EMPTY else e
  }

  lemma ValidIsUnique(s: State)
    requires Valid(s)
    ensures Unique(s.slots)
  {
  }

  /** Cleared slots are not counted. */
  lemma {:induction false} KeptCount(t: seq<Entry>, u: seq<Entry>, i: nat)
    requires |t| == |u| && i < |t| && (u[i] == t[i] || (t[i].active && u[i] == EMPTY))
    ensures Count(t[..i + 1]) - Count(u[..i + 1]) == Count(t[..i]) - Count(u[..i]) + if u[i] == t[i] then 0 else 1
  {
    assert t[..i + 1][..i] == t[..i] && u[..i + 1][..i] == u[..i];
  }

  class Tracker {
    const table: Slots<Sighting>
    var deviceCount: int
    var uniqueDevices: nat

    ghost function Now(): State
      reads this, table.slots
    {
      State(table.slots[..], deviceCount, uniqueDevices)
    }

    constructor (limit: nat)
      requires limit > 0
      ensures fresh(table.slots) && Now() == Run(limit, [])
      ensures Valid(Now())
    {
      var t := new Slots(limit, EMPTY);
      table := t;
      deviceCount := 0;
      uniqueDevices := 0;
      new;
      assert table.slots[..] == Initial(limit).slots;
      RunIsValid(limit, []);
    }

    method FindOrCreate(adv: Advertisement) returns (index: nat)
      requires Valid(Now())
      modifies this, table.slots
      ensures var t := old(table.slots[..]); index == Home(t, adv.mac) && table.slots[..] == t[index := Base(t, adv)]
      ensures deviceCount == Advertised(old(Now()), adv).count && uniqueDevices == Advertised(old(Now()), adv).unique
    {
      hide Unique, Count;
      var slots := table.slots;
      var i := table.FindActive(adv.mac);
      if i < slots.Length {
        return i;
      }
      i := table.FindFree();
      if i < slots.Length {
        slots[i] := NewEntry(adv);
        deviceCount := deviceCount + 1;
        uniqueDevices := (uniqueDevices + 1) % CYCLE;
        return i;
      }
      index := table.FindOldest();
      slots[index] := NewEntry(adv);
      uniqueDevices := (uniqueDevices + 1) % CYCLE;
    }

    method UpdateEntry(i: nat, adv: Advertisement)
      requires i < table.slots.Length
      modifies table.slots
      ensures table.slots[..] == old(table.slots[..])[i := Updated(old(table.slots[i]), adv)]
    {
      hide Average;
      var slots := table.slots;
      var d := slots[i].data;
      if d.count == 0 {
        d := d.(average := adv.rssi);
      } else {
        d := d.(average := Average(adv.rssi, d.average));
      }
      d := d.(rssi := adv.rssi);
      d := d.(count := (d.count + 1) % CYCLE);
      if adv.extension.Some? {
        d := Extended(d, adv.extension.value);
      }
      slots[i] := slots[i].(stamp := Stamp(adv.now), data := d);
    }

    method ProcessAdvertisement(adv: Advertisement)
      requires Valid(Now())
      modifies this, table.slots
      ensures Now() == Step(old(Now()), Advertise(adv)) && Valid(Now())
    {
      hide Updated, Unique, Count, NewEntry, Valid;
      ghost var before := Now();
      StepRefines(before, Advertise(adv));
      BaseIsHeld(before.slots, adv) by { ValidIsUnique(before); }
      UpdatedIsStamped(Base(before.slots, adv), adv);
      var i := FindOrCreate(adv);
      UpdateEntry(i, adv);
    }

    method GetDeviceByMac(mac: Mac) returns (device: Option<Entry>)
      requires Valid(Now())
      ensures device == if mac in Contents(table.slots[..]) then Some(Contents(table.slots[..])[mac]) else None
    {
      FoundExactly(table.slots[..], mac);
      var i := table.FindActive(mac);
      if i < table.slots.Length {
        return Some(table.slots[i]);
      }
      return None;
    }

    method ClearDevices()
      requires Valid(Now())
      modifies this, table.slots
      ensures Now() == Step(old(Now()), Clear) && Valid(Now())
    {
      StepRefines(Now(), Clear);
      var slots := table.slots;
      for i := 0 to slots.Length
        invariant forall k :: 0 <= k < i ==> slots[k] == EMPTY
      {
        slots[i] := EMPTY;
      }
      deviceCount := 0;
      uniqueDevices := 0;
      assert slots[..] == seq(slots.Length, _ => EMPTY);
    }

    method PruneStaleDevices(now: nat) returns (removed: nat)
      requires Valid(Now())
      modifies this, table.slots
      ensures Now() == Step(old(Now()), Prune(now)) && Valid(Now())
      ensures removed == |StaleMacs(old(Contents(table.slots[..])), now)|
    {
      hide Unique, Count, Contents, StaleMacs, MapStep, Valid, Keep, Judged;
      ghost var before := Now();
      StepRefines(before, Prune(now));
      ghost var kept := Step(before, Prune(now)).slots;
      RemovedExactly(before, now);
      KeptIsJudged(before.slots, now);
      removed := Sweep(now, kept);
    }

    /** The loop: every active slot is judged by its age. */
    method Sweep(now: nat, ghost kept: seq<Entry>) returns (removed: nat)
      requires |kept| == table.slots.Length
      requires forall k :: 0 <= k < |kept| ==> kept[k] == Judged(table.slots[k], now)
      modifies this`deviceCount, table.slots
      ensures table.slots[..] == kept
      ensures removed == Count(old(table.slots[..])) - Count(kept)
      ensures deviceCount == old(deviceCount) - removed
    {
      hide Count, Age, Stamp;
      ghost var before := table.slots[..];
      var slots := table.slots;
      removed := 0;
      for i := 0 to slots.Length
        invariant forall k :: 0 <= k < i ==> slots[k] == kept[k]
        invariant forall k :: i <= k < slots.Length ==> slots[k] == before[k]
        invariant removed == Count(before[..i]) - Count(kept[..i])
        invariant deviceCount == old(deviceCount) - removed
      {
        KeptCount(before, kept, i);
        if slots[i].active {
          var age := Age(Stamp(now), slots[i].stamp);
          if age > STALE_TIMEOUT_MS {
            slots[i] := EMPTY;
            deviceCount := deviceCount - 1;
            removed := removed + 1;
          }
        }
      }
      assert before[..slots.Length] == before && kept[..slots.Length] == kept;
      assert slots[..] == kept;
    }
  }

  lemma KeptIsJudged(t: seq<Entry>, now: nat)
    ensures forall k :: 0 <= k < |t| ==> Keep(t, Lasting(now), EMPTY)[k] == Judged(t[k], now)
  {
  }

  lemma RemovedExactly(s: State, now: nat)
    requires Valid(s)
    ensures Count(s.slots) - Count(Step(s, Prune(now)).slots) == |StaleMacs(Contents(s.slots), now)|
  {
    StepRefines(s, Prune(now));
    hide StaleMacs, Keep, Contents, StillHeld, Unique, Count;
    SizeIsCount(s.slots);
    SizeIsCount(Step(s, Prune(now)).slots);
    PrunedSize(Contents(s.slots), now, Contents(Step(s, Prune(now)).slots));
  }
}
