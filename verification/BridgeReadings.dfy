/**
  What the entities of a device show in a run of the bridge (main/bluetooth/ble_esphome_bridge.c),
  told from the events alone: the readings that updates carried, and nothing else.
 */
module BridgeReadings {
  import opened Wrappers
  import opened Clock
  import opened SlotTable
  import opened Bridge
  import opened BridgeRuns

  // ------------------------------------------------------------------ told from the events

  /** The slot is that of the device the event is about. */
  predicate Finds(config: Config, earlier: seq<Event>, mac: Mac, slot: nat) {
    FirstActive(Run(config, earlier).devices, mac) == slot
  }

  /** An update comes when its device's interval has passed. */
  predicate IsDue(config: Config, earlier: seq<Event>, slot: nat, now: nat) {
    Age(Stamp(now), Stamp(LastUpdate(config, earlier, slot))) >= config.interval
  }

  /** The first readings that make a device a sensor: the first due that have a temperature. */
  function FirstReadings(config: Config, events: seq<Event>, slot: nat): Option<Measured> {
    if events == [] then None
    else
      var earlier, e := events[..|events| - 1], events[|events| - 1];
      if FirstReadings(config, earlier, slot).Some? then FirstReadings(config, earlier, slot)
      else if e.SensorStart? && Finds(config, earlier, e.mac, slot) && IsDue(config, earlier, slot, e.now)
              && e.measured.temperature.Some? then Some(e.measured)
      else None
  }

  predicate HasTemperature(config: Config, events: seq<Event>, slot: nat) {
    FirstReadings(config, events, slot).Some?
  }

  /** Whether there is a humidity is decided by the first readings. */
  predicate HasHumidity(config: Config, events: seq<Event>, slot: nat) {
    FirstReadings(config, events, slot).Some? && FirstReadings(config, events, slot).value.humidity.Some?
  }

  /** The temperature of the last update that carried one to a device that has temperature. */
  function LastTemperature(config: Config, events: seq<Event>, slot: nat): Option<real> {
    if events == [] then None
    else
      var earlier, e := events[..|events| - 1], events[|events| - 1];
      if e.SensorFinish? && e.slot == slot && e.measured.temperature.Some? && HasTemperature(config, earlier, slot)
      then e.measured.temperature
      else LastTemperature(config, earlier, slot)
  }

  function LastHumidity(config: Config, events: seq<Event>, slot: nat): Option<real> {
    if events == [] then None
    else
      var earlier, e := events[..|events| - 1], events[|events| - 1];
      if e.SensorFinish? && e.slot == slot && e.measured.humidity.Some? && HasHumidity(config, earlier, slot)
      then e.measured.humidity
      else LastHumidity(config, earlier, slot)
  }

  /** The last level not negative, if battery entities are wanted. */
  function LastBattery(config: Config, events: seq<Event>, slot: nat): Option<int> {
    if events == [] then None
    else
      var earlier, e := events[..|events| - 1], events[|events| - 1];
      if e.SensorFinish? && e.slot == slot && e.measured.battery >= 0 && config.registerBattery
      then Some(e.measured.battery)
      else LastBattery(config, earlier, slot)
  }

  /** Some beacon update has found the device, and beacon entities are wanted. */
  predicate IsBeacon(config: Config, events: seq<Event>, slot: nat) {
    events != [] &&
    (var earlier, e := events[..|events| - 1], events[|events| - 1];
     IsBeacon(config, earlier, slot)
     || (e.BeaconStart? && config.registerBeacons && Finds(config, earlier, e.mac, slot)))
  }

  /** The presence of the last beacon update, or absence if a timeout has found that too old since. */
  function LastPresence(config: Config, events: seq<Event>, slot: nat): Option<bool> {
    if events == [] then None
    else
      var earlier, e := events[..|events| - 1], events[|events| - 1];
      var before := LastPresence(config, earlier, slot);
      if e.BeaconFinish? && e.slot == slot && IsBeacon(config, earlier, slot) then Some(e.present)
      else if e.PresenceTimeout? && before == Some(true)
              && Age(Stamp(e.now), Stamp(LastUpdate(config, earlier, slot))) > config.timeout then Some(false)
      else before
  }

  /** A sensor's update makes a device active, a beacon's by presence, and a timeout makes it stale. */
  function LastStatus(config: Config, events: seq<Event>, slot: nat): Option<Status> {
    if events == [] then None
    else
      var earlier, e := events[..|events| - 1], events[|events| - 1];
      if e.SensorFinish? && e.slot == slot then Some(Active)
      else if e.BeaconFinish? && e.slot == slot then Some(if e.present then Active else Stale)
      else if e.PresenceTimeout? && LastPresence(config, earlier, slot) == Some(true)
              && Age(Stamp(e.now), Stamp(LastUpdate(config, earlier, slot))) > config.timeout then Some(Stale)
      else LastStatus(config, earlier, slot)
  }

  /** The last signal strength: a sensor's if wanted and known, a beacon's always. */
  function LastRssi(config: Config, events: seq<Event>, slot: nat): Option<int> {
    if events == [] then None
    else
      var earlier, e := events[..|events| - 1], events[|events| - 1];
      if e.SensorFinish? && e.slot == slot && e.measured.rssi > -127 && config.registerRssi then Some(e.measured.rssi)
      else if e.BeaconFinish? && e.slot == slot && IsBeacon(config, earlier, slot) then Some(e.rssi)
      else LastRssi(config, earlier, slot)
  }

  // ------------------------------------------------------------------ what is shown

  function KeyBase(slot: nat): nat {
    KEY_BASE + KEYS_PER_DEVICE * slot
  }

  /** A key shows just this, or nothing. */
  predicate Showing(shown: map<nat, Reading>, key: nat, reading: Option<Reading>) {
    (key in shown <==> reading.Some?) && (key in shown ==> Some(shown[key]) == reading)
  }

  function AsValue(value: Option<real>): Option<Reading> {
    if value.Some? then Some(Value(value.value)) else None
  }

  function AsLevel(level: Option<int>): Option<Reading> {
    if level.Some? then Some(Value(level.value as real)) else None
  }

  function AsPresence(present: Option<bool>): Option<Reading> {
    if present.Some? then Some(Presence(present.value)) else None
  }

  /** All that the events tell of a slot. */
  datatype Told = Told(
    first: Option<Measured>, temperature: Option<real>, humidity: Option<real>, battery: Option<int>,
    beacon: bool, presence: Option<bool>, status: Option<Status>, rssi: Option<int>)

  function ToldOf(config: Config, events: seq<Event>, slot: nat): Told {
    Told(FirstReadings(config, events, slot), LastTemperature(config, events, slot), LastHumidity(config, events, slot),
         LastBattery(config, events, slot), IsBeacon(config, events, slot), LastPresence(config, events, slot),
         LastStatus(config, events, slot), LastRssi(config, events, slot))
  }

  /** The entry has what it was told it has. */
  predicate Knows(config: Config, e: Entry, told: Told) {
    && (!e.active ==> e == EMPTY && told.status.None? && told.rssi.None?)
    && (e.active ==> e.data.status == if told.status.Some? then told.status.value else Registered)
    && (e.active ==> e.data.rssi == if told.rssi.Some? then told.rssi.value else -127)
    && e.data.hasTemperature == told.first.Some?
    && e.data.hasHumidity == (told.first.Some? && told.first.value.humidity.Some?)
    && e.data.isBeacon == told.beacon
    && e.data.present == (told.presence == Some(true))
    && e.data.hasBattery == told.battery.Some?
    && (told.battery.Some? ==> config.registerBattery)
    && (told.temperature.Some? ==> e.data.hasTemperature)
    && (told.humidity.Some? ==> e.data.hasHumidity)
    && (told.presence.Some? ==> e.data.isBeacon)
  }

  /** The slot's keys show what was told, and nothing else. */
  predicate ShowsTold(shown: map<nat, Reading>, slot: nat, told: Told) {
    && Showing(shown, KeyBase(slot) + OFFSET_TEMPERATURE, AsValue(told.temperature))
    && Showing(shown, KeyBase(slot) + OFFSET_HUMIDITY, AsValue(told.humidity))
    && Showing(shown, KeyBase(slot) + OFFSET_BATTERY, AsLevel(told.battery))
    && Showing(shown, KeyBase(slot) + OFFSET_PRESENCE, AsPresence(told.presence))
    && forall key :: KeyBase(slot) <= key < KeyBase(slot) + KEYS_PER_DEVICE && key in shown ==>
         key - KeyBase(slot) in {OFFSET_TEMPERATURE, OFFSET_HUMIDITY, OFFSET_BATTERY, OFFSET_PRESENCE}
  }

  /** What one more event tells, in the state it comes in. */
  function NextTold(s: State, config: Config, e: Event, slot: nat, told: Told): Told
    requires slot < |s.devices|
  {
    match e
    case SensorStart(mac, m, now) =>
      if told.first.None? && FirstActive(s.devices, mac) == slot && m.temperature.Some?
         && Age(Stamp(now), s.devices[slot].stamp) >= config.interval then told.(first := Some(m)) else told
    case SensorFinish(i, m, _) =>
      if i != slot then told
      else
        told.(temperature := if m.temperature.Some? && told.first.Some? then m.temperature else told.temperature,
              humidity := if m.humidity.Some? && told.first.Some? && told.first.value.humidity.Some? then m.humidity else told.humidity,
              battery := if m.battery >= 0 && config.registerBattery then Some(m.battery) else told.battery,
              status := Some(Active),
              rssi := if m.rssi > -127 && config.registerRssi then Some(m.rssi) else told.rssi)
    case BeaconStart(mac) => told.(beacon := told.beacon || (config.registerBeacons && FirstActive(s.devices, mac) == slot))
    case BeaconFinish(i, present, rssi, _) =>
      if i != slot then told
      else
        told.(presence := if told.beacon then Some(present) else told.presence,
              status := Some(if present then Active else Stale),
              rssi := if told.beacon then Some(rssi) else told.rssi)
    case PresenceTimeout(now) =>
      if told.presence == Some(true) && Age(Stamp(now), s.devices[slot].stamp) > config.timeout
      then told.(presence := Some(false), status := Some(Stale)) else told
    case _ => told
  }

  // ------------------------------------------------------------------ steps

  /** Only keys of one slot are published under. */
  lemma OtherSlotsShow(shown: map<nat, Reading>, more: map<nat, Reading>, i: nat, slot: nat, told: Told)
    requires ShowsTold(shown, slot, told) && i != slot
    requires forall key :: key in more ==> KeyBase(i) <= key < KeyBase(i) + KEYS_PER_DEVICE
    ensures ShowsTold(shown + more, slot, told)
  {
    assert forall key :: KeyBase(slot) <= key < KeyBase(slot) + KEYS_PER_DEVICE ==> key !in more;
  }

  lemma ReadingsTell(shown: map<nat, Reading>, config: Config, d: Bridged, m: Measured, slot: nat, told: Told, next: Told)
    requires ShowsTold(shown, slot, told) && d.keyBase == KeyBase(slot)
    requires d.hasTemperature == told.first.Some? && d.hasHumidity == (told.first.Some? && told.first.value.humidity.Some?)
    requires d.hasBattery ==> config.registerBattery
    requires
      next == told.(
        temperature := if m.temperature.Some? && told.first.Some? then m.temperature else told.temperature,
        humidity := if m.humidity.Some? && told.first.Some? && told.first.value.humidity.Some? then m.humidity else told.humidity,
        battery := if m.battery >= 0 && config.registerBattery then Some(m.battery) else told.battery,
        status := next.status, rssi := next.rssi)
    ensures ShowsTold(shown + Readings(Measure(config, d, m), m), slot, next)
    ensures forall key :: key in Readings(Measure(config, d, m), m) ==> KeyBase(slot) <= key < KeyBase(slot) + KEYS_PER_DEVICE
  {
  }

  /** One slot and what its keys show are as told. */
  ghost predicate Agrees(s: State, config: Config, slot: nat, told: Told) {
    slot < |s.devices| && Knows(config, s.devices[slot], told) && ShowsTold(s.shown, slot, told)
  }

  lemma ActiveBase(s: State, i: nat)
    requires Good(s) && i < |s.devices| && s.devices[i].active
    ensures s.devices[i].data.keyBase == KeyBase(i)
  {
  }

  lemma RegisterAgrees(s: State, config: Config, e: Event, slot: nat, told: Told)
    requires Agrees(s, config, slot, told) && e.Register?
    ensures Agrees(Step(s, config, e), config, slot, told)
  {
    hide ShowsTold;
  }

  lemma StartAgrees(s: State, config: Config, e: Event, slot: nat, told: Told)
    requires Good(s) && Agrees(s, config, slot, told) && (e.SensorStart? || e.BeaconStart?)
    ensures Agrees(Step(s, config, e), config, slot, NextTold(s, config, e, slot, told))
  {
    hide Good;
    GoodHasSlots(s);
  }

  lemma SensorAgrees(s: State, config: Config, i: nat, m: Measured, now: nat, slot: nat, told: Told)
    requires Good(s) && Agrees(s, config, slot, told) && i < |s.devices| && s.devices[i].active
    ensures
      Agrees(SensorFinished(s, config, i, m, now), config, slot, NextTold(s, config, SensorFinish(i, m, now), slot, told))
  {
    ActiveBase(s, i);
    var d := s.devices[i].data;
    var more := Readings(Measure(config, d, m), m);
    if i == slot {
      ReadingsTell(s.shown, config, d, m, slot, told, NextTold(s, config, SensorFinish(i, m, now), slot, told));
      hide Good, Readings, ShowsTold;
    } else {
      assert forall key :: key in more ==> KeyBase(i) <= key < KeyBase(i) + KEYS_PER_DEVICE;
      hide Good, Readings, ShowsTold;
      OtherSlotsShow(s.shown, more, i, slot, told);
    }
  }

  /** Presence is published under its own key. */
  lemma PresenceTells(shown: map<nat, Reading>, more: map<nat, Reading>, slot: nat, told: Told, present: bool)
    requires ShowsTold(shown, slot, told)
    requires forall key :: KeyBase(slot) <= key < KeyBase(slot) + KEYS_PER_DEVICE && key in more ==>
      key == KeyBase(slot) + OFFSET_PRESENCE
    requires KeyBase(slot) + OFFSET_PRESENCE in more && more[KeyBase(slot) + OFFSET_PRESENCE] == Presence(present)
    ensures forall status, rssi :: ShowsTold(shown + more, slot, told.(presence := Some(present), status := status, rssi := rssi))
  {
  }

  lemma BeaconAgrees(s: State, config: Config, i: nat, present: bool, rssi: int, now: nat, slot: nat, told: Told)
    requires Good(s) && Agrees(s, config, slot, told) && i < |s.devices| && s.devices[i].active
    ensures
      Agrees(BeaconFinished(s, i, present, rssi, now), config, slot,
             NextTold(s, config, BeaconFinish(i, present, rssi, now), slot, told))
  {
    ActiveBase(s, i);
    hide Good, ShowsTold;
    if s.devices[i].data.isBeacon {
      var more := map[KeyBase(i) + OFFSET_PRESENCE := Presence(present)];
      assert BeaconFinished(s, i, present, rssi, now).shown == s.shown + more;
      if i == slot {
        PresenceTells(s.shown, more, slot, told, present);
      } else {
        OtherSlotsShow(s.shown, more, i, slot, told);
      }
    }
  }

  lemma {:induction false} InTimedOut(config: Config, t: seq<Entry>, now: nat, key: nat)
    ensures
      key in TimedOutKeys(config, t, now) <==>
        exists i :: 0 <= i < |t| && TimedOut(config, t[i], now) && key == t[i].data.keyBase + OFFSET_PRESENCE
    decreases |t|
  {
    if t != [] {
      var front := t[..|t| - 1];
      hide TimedOut;
      InTimedOut(config, front, now, key);
      assert t == front + [t[|t| - 1]];
    }
  }

  /** Of one slot's keys, a timeout publishes under that of its presence, if it times out. */
  lemma TimedOutHere(s: State, config: Config, now: nat, slot: nat, key: nat)
    requires Good(s) && slot < |s.devices| && KeyBase(slot) <= key < KeyBase(slot) + KEYS_PER_DEVICE
    ensures
      key in TimedOutKeys(config, s.devices, now) <==>
        key == KeyBase(slot) + OFFSET_PRESENCE && TimedOut(config, s.devices[slot], now)
  {
    InTimedOut(config, s.devices, now, key);
    forall i | 0 <= i < |s.devices| && s.devices[i].active ensures s.devices[i].data.keyBase == KeyBase(i) {
      ActiveBase(s, i);
    }
    hide Good, TimedOutKeys;
  }

  lemma NotHereShows(shown: map<nat, Reading>, more: map<nat, Reading>, slot: nat, told: Told)
    requires ShowsTold(shown, slot, told)
    requires forall key :: KeyBase(slot) <= key < KeyBase(slot) + KEYS_PER_DEVICE ==> key !in more
    ensures ShowsTold(shown + more, slot, told)
  {
  }

  lemma TimeoutAgrees(s: State, config: Config, now: nat, slot: nat, told: Told)
    requires Good(s) && Agrees(s, config, slot, told)
    ensures
      Agrees(ExpiredUpTo(s, config, |s.devices|, now), config, slot, NextTold(s, config, PresenceTimeout(now), slot, told))
  {
    var more := AllAbsent(TimedOutKeys(config, s.devices, now));
    TimeoutExactly(s, config, |s.devices|, now);
    assert s.devices[..|s.devices|] == s.devices;
    forall key | KeyBase(slot) <= key < KeyBase(slot) + KEYS_PER_DEVICE
      ensures key in more <==> key == KeyBase(slot) + OFFSET_PRESENCE && TimedOut(config, s.devices[slot], now)
    {
      TimedOutHere(s, config, now, slot, key);
    }
    assert Quiet(s.devices[slot]);
    hide Good, TimedOutKeys, ExpiredUpTo, ShowsTold;
    if TimedOut(config, s.devices[slot], now) {
      PresenceTells(s.shown, more, slot, told, false);
    } else {
      NotHereShows(s.shown, more, slot, told);
    }
  }

  lemma StepAgrees(s: State, config: Config, e: Event, slot: nat, told: Told)
    requires Good(s) && Calm(s, e) && Agrees(s, config, slot, told)
    ensures Agrees(Step(s, config, e), config, slot, NextTold(s, config, e, slot, told))
  {
    hide Good, Agrees;
    match e {
      case Register(_, _, _) => RegisterAgrees(s, config, e, slot, told);
      case SensorFinish(i, m, now) => SensorAgrees(s, config, i, m, now, slot, told);
      case BeaconFinish(i, present, rssi, now) => BeaconAgrees(s, config, i, present, rssi, now, slot, told);
      case PresenceTimeout(now) => TimeoutAgrees(s, config, now, slot, told);
      case _ => StartAgrees(s, config, e, slot, told);
    }
  }

  // ------------------------------------------------------------------ in every run

  /** Nothing is told of a device that there is not, so stamps are times wherever they matter. */
  lemma ToldIsActive(config: Config, earlier: seq<Event>, slot: nat)
    requires slot < MAX_DEVICES && Agrees(Run(config, earlier), config, slot, ToldOf(config, earlier, slot))
    ensures
      var entry := Run(config, earlier).devices[slot];
      && (entry.active ==> entry.stamp == Stamp(LastUpdate(config, earlier, slot)))
      && (LastPresence(config, earlier, slot).Some? ==> entry.active)
      && (FirstReadings(config, earlier, slot).Some? ==> entry.active)
  {
    hide Run, LastUpdate, LastPresence, FirstReadings, ShowsTold;
    StampIsLastUpdate(config, earlier, slot);
  }

  lemma FirstNext(config: Config, earlier: seq<Event>, e: Event, slot: nat)
    requires slot < MAX_DEVICES && Agrees(Run(config, earlier), config, slot, ToldOf(config, earlier, slot))
    ensures
      var next := NextTold(Run(config, earlier), config, e, slot, ToldOf(config, earlier, slot));
      && FirstReadings(config, earlier + [e], slot) == next.first
      && IsBeacon(config, earlier + [e], slot) == next.beacon
      && LastPresence(config, earlier + [e], slot) == next.presence
  {
    assert (earlier + [e])[..|earlier|] == earlier;
    ToldIsActive(config, earlier, slot);
    hide Run, LastUpdate, Age, Stamp, Agrees, LastTemperature, LastHumidity, LastBattery, LastStatus, LastRssi;
  }

  lemma ReadingsNext(config: Config, earlier: seq<Event>, e: Event, slot: nat)
    requires slot < MAX_DEVICES
    ensures
      var next := NextTold(Run(config, earlier), config, e, slot, ToldOf(config, earlier, slot));
      && LastTemperature(config, earlier + [e], slot) == next.temperature
      && LastHumidity(config, earlier + [e], slot) == next.humidity
      && LastBattery(config, earlier + [e], slot) == next.battery
  {
    assert (earlier + [e])[..|earlier|] == earlier;
    hide Run, LastUpdate, Age, Stamp, FirstReadings, LastPresence, IsBeacon, LastStatus, LastRssi;
  }

  lemma StatusNext(config: Config, earlier: seq<Event>, e: Event, slot: nat)
    requires slot < MAX_DEVICES && Agrees(Run(config, earlier), config, slot, ToldOf(config, earlier, slot))
    ensures
      var next := NextTold(Run(config, earlier), config, e, slot, ToldOf(config, earlier, slot));
      && LastStatus(config, earlier + [e], slot) == next.status
      && LastRssi(config, earlier + [e], slot) == next.rssi
  {
    assert (earlier + [e])[..|earlier|] == earlier;
    ToldIsActive(config, earlier, slot);
    hide Run, LastUpdate, Age, Stamp, Agrees, LastTemperature, LastHumidity, LastBattery, FirstReadings, LastPresence, IsBeacon;
  }

  lemma ToldNext(config: Config, earlier: seq<Event>, e: Event, slot: nat)
    requires slot < MAX_DEVICES && Agrees(Run(config, earlier), config, slot, ToldOf(config, earlier, slot))
    ensures
      ToldOf(config, earlier + [e], slot) == NextTold(Run(config, earlier), config, e, slot, ToldOf(config, earlier, slot))
  {
    FirstNext(config, earlier, e, slot);
    ReadingsNext(config, earlier, e, slot);
    StatusNext(config, earlier, e, slot);
    hide Run, Agrees, NextTold, LastTemperature, LastHumidity, LastBattery, FirstReadings, LastPresence, IsBeacon,
      LastStatus, LastRssi;
  }

  lemma NothingTold(config: Config, slot: nat)
    requires slot < MAX_DEVICES
    ensures Agrees(Run(config, []), config, slot, ToldOf(config, [], slot))
  {
  }

  lemma {:induction false} RunAgrees(config: Config, events: seq<Event>, slot: nat)
    requires slot < MAX_DEVICES && CalmRun(config, events)
    ensures Agrees(Run(config, events), config, slot, ToldOf(config, events, slot))
    decreases |events|
  {
    if events == [] {
      NothingTold(config, slot);
    } else {
      var earlier, e := events[..|events| - 1], events[|events| - 1];
      RunAgrees(config, earlier, slot);
      CalmRunIsGood(config, earlier);
      assert events == earlier + [e];
      hide Good, Agrees, Step, NextTold, ToldOf;
      StepAgrees(Run(config, earlier), config, e, slot, ToldOf(config, earlier, slot));
      ToldNext(config, earlier, e, slot);
    }
  }

  /**
    In every run without unregistering and reset, each device's entities show exactly the last
    temperature, humidity, battery level and presence that its own updates carried.
   */
  lemma EntitiesShowLastReadings(config: Config, events: seq<Event>, slot: nat)
    requires slot < MAX_DEVICES && Paired(config, events)
    ensures
      var s, base := Run(config, events), KeyBase(slot);
      && (s.devices[slot].active ==> s.devices[slot].data.keyBase == base)
      && Showing(s.shown, base + OFFSET_TEMPERATURE, AsValue(LastTemperature(config, events, slot)))
      && Showing(s.shown, base + OFFSET_HUMIDITY, AsValue(LastHumidity(config, events, slot)))
      && Showing(s.shown, base + OFFSET_BATTERY, AsLevel(LastBattery(config, events, slot)))
      && Showing(s.shown, base + OFFSET_PRESENCE, AsPresence(LastPresence(config, events, slot)))
      && forall key :: base <= key < base + KEYS_PER_DEVICE && key in s.shown ==>
           key - base in {OFFSET_TEMPERATURE, OFFSET_HUMIDITY, OFFSET_BATTERY, OFFSET_PRESENCE}
    ensures
      var e := Run(config, events).devices[slot];
      e.active ==>
        && e.data.status == (var last := LastStatus(config, events, slot); if last.Some? then last.value else Registered)
        && e.data.rssi == (var last := LastRssi(config, events, slot); if last.Some? then last.value else -127)
  {
    PairedIsCalm(config, events);
    CalmRunIsGood(config, events);
    RunAgrees(config, events, slot);
    hide Paired, CalmRun, Run, LastTemperature, LastHumidity, LastBattery, LastPresence, FirstReadings, IsBeacon,
      LastStatus, LastRssi;
    var s := Run(config, events);
    if s.devices[slot].active {
      ActiveBase(s, slot);
    }
  }

  /** Unregistering a device after such a run hides exactly what its entities show. */
  lemma UnregisterHidesExactly(config: Config, events: seq<Event>, mac: Mac, slot: nat)
    requires slot < MAX_DEVICES && Paired(config, events) && Finds(config, events, mac, slot)
    ensures
      var before, after := Run(config, events).shown, Run(config, events + [Unregister(mac)]).shown;
      && after == map key | key in before && !(KeyBase(slot) <= key < KeyBase(slot) + KEYS_PER_DEVICE) :: before[key]
  {
    PairedIsCalm(config, events);
    CalmRunIsGood(config, events);
    RunAgrees(config, events, slot);
    assert (events + [Unregister(mac)])[..|events|] == events;
    hide Paired, CalmRun, Run, LastTemperature, LastHumidity, LastBattery, LastPresence, FirstReadings, IsBeacon;
    ActiveBase(Run(config, events), slot);
    HidesAll(Run(config, events), config, slot, ToldOf(config, events, slot));
  }

  lemma HidesAll(s: State, config: Config, slot: nat, told: Told)
    requires Agrees(s, config, slot, told) && s.devices[slot].data.keyBase == KeyBase(slot)
    ensures
      s.shown - Missing(s.devices[slot]) ==
        map key | key in s.shown && !(KeyBase(slot) <= key < KeyBase(slot) + KEYS_PER_DEVICE) :: s.shown[key]
  {
    var base := KeyBase(slot);
    forall key | key in s.shown
      ensures key in Missing(s.devices[slot]) <==> base <= key < base + KEYS_PER_DEVICE
    {
    }
  }
}
