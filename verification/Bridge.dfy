/**
  The bridge from Bluetooth devices to ESPHome entities (main/bluetooth/ble_esphome_bridge.c).

  What the code does without letting go of its mutex is one step. Updates let go of it while
  they create entities, so they are two steps, the second holding on to the slot the first
  found; anything may happen in between. What is shown for an entity is what was last published
  under its key.
 */
module Bridge {
  import opened Wrappers
  import opened Clock
  import opened SlotTable

  const MAX_DEVICES := 30
  const KEY_BASE := 0x1000
  const KEYS_PER_DEVICE := 10
  const OFFSET_TEMPERATURE := 0
  const OFFSET_HUMIDITY := 1
  const OFFSET_BATTERY := 2
  const OFFSET_PRESENCE := 4

  datatype Status = Unregistered | Registered | Active | Stale

  /** `None` is a value that is not a number. */
  datatype Bridged = Bridged(
    name: string, status: Status, keyBase: nat,
    hasTemperature: bool, hasHumidity: bool, hasBattery: bool, isBeacon: bool,
    temperature: Option<real>, humidity: Option<real>, battery: int, rssi: int, present: bool)

  /** A slot's stamp is the time of the last update, as the 32-bit clock shows it. */
  type Entry = Slot<Bridged>

  const EMPTY: Entry :=
    Slot(false, 0, 0, Bridged("", Unregistered, 0, false, false, false, false, Some(0.0), Some(0.0), 0, 0, false))

  datatype Reading = Value(value: real) | Presence(present: bool)

  datatype Config = Config(registerBeacons: bool, registerBattery: bool, registerRssi: bool, interval: nat, timeout: nat)

  datatype State = State(devices: seq<Entry>, count: int, registered: nat, changes: nat, shown: map<nat, Reading>)

  datatype Measured = Measured(temperature: Option<real>, humidity: Option<real>, battery: int, rssi: int)

  /** `now` is a time in milliseconds since boot, which the code sees through the 32-bit clock. */
  datatype Event =
    | Register(mac: Mac, name: string, now: nat)
    | Unregister(mac: Mac)
    | SensorStart(mac: Mac, measured: Measured, now: nat)
    | SensorFinish(slot: nat, measured: Measured, now: nat)
    | BeaconStart(mac: Mac)
    | BeaconFinish(slot: nat, present: bool, rssi: int, now: nat)
    | PresenceTimeout(now: nat)
    | ResetStats

  // ------------------------------------------------------------------ steps

  function Short(name: string): string {
    if |name| > 31 then name[..31] else name
  }

  function NewEntry(mac: Mac, name: string, now: nat, count: int): Entry {
    Slot(true, mac, Stamp(now),
         Bridged(Short(name), Registered, (KEY_BASE + count * KEYS_PER_DEVICE) % CYCLE,
                 false, false, false, false, None, None, -1, -127, false))
  }

  function Missing(e: Entry): set<nat> {
    (if e.data.hasTemperature then {e.data.keyBase + OFFSET_TEMPERATURE} else {})
    + (if e.data.hasHumidity then {e.data.keyBase + OFFSET_HUMIDITY} else {})
    + (if e.data.hasBattery then {e.data.keyBase + OFFSET_BATTERY} else {})
    + (if e.data.isBeacon then {e.data.keyBase + OFFSET_PRESENCE} else {})
  }

  function WithData(s: State, i: nat, data: Bridged): (r: State)
    requires i < |s.devices|
  {
    s.(devices := s.devices[i := s.devices[i].(data := data)])
  }

  /** A sensor's first readings decide what it has. */
  function SensorStarted(s: State, config: Config, i: nat, m: Measured, now: nat): State
    requires i < |s.devices|
  {
    var d := s.devices[i].data;
    if Age(Stamp(now), s.devices[i].stamp) < config.interval then s
    else if !d.hasTemperature && !d.hasHumidity && m.temperature.Some? then
      WithData(s, i, d.(hasTemperature := true, hasHumidity := m.humidity.Some?))
    else s
  }

  function Measure(config: Config, d: Bridged, m: Measured): Bridged {
    var hasBattery := d.hasBattery || (m.battery >= 0 && config.registerBattery);
    d.(hasBattery := hasBattery,
       temperature := if m.temperature.Some? && d.hasTemperature then m.temperature else d.temperature,
       humidity := if m.humidity.Some? && d.hasHumidity then m.humidity else d.humidity,
       battery := if m.battery >= 0 && hasBattery then m.battery else d.battery,
       rssi := if m.rssi > -127 && config.registerRssi then m.rssi else d.rssi,
       status := Active)
  }

  /** What a sensor update publishes. */
  function Readings(d: Bridged, m: Measured): map<nat, Reading> {
    (if m.temperature.Some? && d.hasTemperature then map[d.keyBase + OFFSET_TEMPERATURE := Value(m.temperature.value)] else map[])
    + (if m.humidity.Some? && d.hasHumidity then map[d.keyBase + OFFSET_HUMIDITY := Value(m.humidity.value)] else map[])
    + (if m.battery >= 0 && d.hasBattery then map[d.keyBase + OFFSET_BATTERY := Value(m.battery as real)] else map[])
  }

  function SensorFinished(s: State, config: Config, i: nat, m: Measured, now: nat): State
    requires i < |s.devices|
  {
    var d := Measure(config, s.devices[i].data, m);
    s.(devices := s.devices[i := s.devices[i].(stamp := Stamp(now), data := d)], shown := s.shown + Readings(d, m))
  }

  /** A beacon's presence is noted and published, and counted if it changed. */
  function WithPresence(s: State, i: nat, present: bool): State
    requires i < |s.devices|
  {
    var d := s.devices[i].data;
    State(s.devices[i := s.devices[i].(data := d.(present := present))], s.count, s.registered,
          if d.present != present then (s.changes + 1) % CYCLE else s.changes,
          s.shown[d.keyBase + OFFSET_PRESENCE := Presence(present)])
  }

  function BeaconFinished(s: State, i: nat, present: bool, rssi: int, now: nat): State
    requires i < |s.devices|
  {
    var status := if present then Active else Stale;
    if s.devices[i].data.isBeacon then
      var u := WithPresence(s, i, present);
      u.(devices := u.devices[i := u.devices[i].(stamp := Stamp(now), data := u.devices[i].data.(rssi := rssi, status := status))])
    else WithData(s, i, s.devices[i].data.(status := status))
  }

  predicate TimedOut(config: Config, e: Entry, now: nat) {
    e.active && e.data.isBeacon && e.data.present && Age(Stamp(now), e.stamp) > config.timeout
  }

  function Expired(s: State, config: Config, i: nat, now: nat): State
    requires i < |s.devices|
  {
    if TimedOut(config, s.devices[i], now) then
      var u := WithPresence(s, i, false);
      WithData(u, i, u.devices[i].data.(status := Stale))
    else s
  }

  /** The timeout applied to the first `n` slots. */
  function ExpiredUpTo(s: State, config: Config, n: nat, now: nat): (r: State)
    requires n <= |s.devices|
    ensures |r.devices| == |s.devices|
  {
    if n == 0 then s else Expired(ExpiredUpTo(s, config, n - 1, now), config, n - 1, now)
  }

  function Step(s: State, config: Config, e: Event): (r: State)
    ensures |r.devices| == |s.devices|
  {
    match e
    case Register(mac, name, now) =>
      var i := FirstFree(s.devices);
      if FirstActive(s.devices, mac) < |s.devices| || i == |s.devices| then s
      else s.(devices := s.devices[i := NewEntry(mac, name, now, s.count)], count := s.count + 1, registered := s.registered + 1)
    case Unregister(mac) =>
      var i := FirstActive(s.devices, mac);
      if i == |s.devices| then s
      else s.(devices := s.devices[i := EMPTY], count := s.count - 1, shown := s.shown - Missing(s.devices[i]))
    case SensorStart(mac, m, now) =>
      var i := FirstActive(s.devices, mac);
      if i == |s.devices| then s else SensorStarted(s, config, i, m, now)
    case SensorFinish(i, m, now) => if i < |s.devices| then SensorFinished(s, config, i, m, now) else s
    case BeaconStart(mac) =>
      var i := FirstActive(s.devices, mac);
      if i == |s.devices| || !config.registerBeacons then s
      else WithData(s, i, s.devices[i].data.(isBeacon := true))
    case BeaconFinish(i, present, rssi, now) => if i < |s.devices| then BeaconFinished(s, i, present, rssi, now) else s
    case PresenceTimeout(now) => ExpiredUpTo(s, config, |s.devices|, now)
    case ResetStats => s.(changes := 0)
  }

  function Initial(): State {
    State(seq(MAX_DEVICES, _ => EMPTY), 0, 0, 0, map[])
  }

  function Run(config: Config, events: seq<Event>): (s: State)
    ensures |s.devices| == MAX_DEVICES
  {
    if events == [] then Initial()
    else Step(Run(config, events[..|events| - 1]), config, events[|events| - 1])
  }

  // ------------------------------------------------------------------ in every run

  /** A slot not in use holds no beacon, and only a beacon is present. */
  predicate Quiet(e: Entry) {
    (e.data.isBeacon ==> e.active) && (e.data.present ==> e.data.isBeacon)
  }

  predicate Tidy(s: State) {
    && |s.devices| == MAX_DEVICES
    && Unique(s.devices)
    && s.count == Count(s.devices)
    && forall i :: 0 <= i < |s.devices| ==> Quiet(s.devices[i])
  }

  /** An entry rewritten in place. */
  predicate SameOwner(a: Entry, b: Entry) {
    a.active == b.active && a.mac == b.mac && a.data.keyBase == b.data.keyBase
  }

  lemma {:induction false} CountSame(t: seq<Entry>, i: nat, e: Entry)
    requires i < |t| && e.active == t[i].active
    ensures Count(t[i := e]) == Count(t)
    decreases |t|
  {
    var u := t[i := e];
    if i < |t| - 1 {
      CountSame(t[..|t| - 1], i, e);
      assert u[..|u| - 1] == t[..|t| - 1][i := e];
    } else {
      assert u[..|u| - 1] == t[..|t| - 1];
    }
  }

  lemma {:induction false} CountFreed(t: seq<Entry>, i: nat)
    requires i < |t| && t[i].active
    ensures Count(t[i := EMPTY]) == Count(t) - 1
    decreases |t|
  {
    var u := t[i := EMPTY];
    if i < |t| - 1 {
      CountFreed(t[..|t| - 1], i);
      assert u[..|u| - 1] == t[..|t| - 1][i := EMPTY];
    } else {
      assert u[..|u| - 1] == t[..|t| - 1];
    }
  }

  lemma RewriteKeepsTidy(s: State, i: nat, e: Entry, u: State)
    requires Tidy(s) && i < |s.devices| && SameOwner(s.devices[i], e) && Quiet(e)
    requires u.devices == s.devices[i := e] && u.count == s.count
    ensures Tidy(u)
  {
    CountSame(s.devices, i, e);
  }

  lemma RegisterKeepsTidy(s: State, config: Config, e: Event)
    requires Tidy(s) && e.Register?
    ensures Tidy(Step(s, config, e))
  {
    var i := FirstFree(s.devices);
    if FirstActive(s.devices, e.mac) == |s.devices| && i < |s.devices| {
      CountPut(s.devices, i, NewEntry(e.mac, e.name, e.now, s.count));
      FoundExactly(s.devices, e.mac);
    }
  }

  lemma UnregisterKeepsTidy(s: State, config: Config, e: Event)
    requires Tidy(s) && e.Unregister?
    ensures Tidy(Step(s, config, e))
  {
    hide Count;
    var i := FirstActive(s.devices, e.mac);
    if i < |s.devices| {
      CountFreed(s.devices, i);
    }
  }

  lemma ExpiredKeepsTidy(s: State, config: Config, i: nat, now: nat)
    requires Tidy(s) && i < |s.devices|
    ensures Tidy(Expired(s, config, i, now))
  {
    var u := Expired(s, config, i, now);
    assert u.devices == s.devices[i := u.devices[i]];
    RewriteKeepsTidy(s, i, u.devices[i], u);
  }

  lemma {:induction false} TimeoutKeepsTidy(s: State, config: Config, n: nat, now: nat)
    requires Tidy(s) && n <= |s.devices|
    ensures Tidy(ExpiredUpTo(s, config, n, now))
    decreases n
  {
    if n > 0 {
      hide Tidy, Expired;
      TimeoutKeepsTidy(s, config, n - 1, now);
      ExpiredKeepsTidy(ExpiredUpTo(s, config, n - 1, now), config, n - 1, now);
    }
  }

  lemma UpdateKeepsTidy(s: State, config: Config, e: Event)
    requires Tidy(s) && (e.SensorStart? || e.SensorFinish? || e.BeaconStart? || e.BeaconFinish?)
    ensures Tidy(Step(s, config, e))
  {
    hide Readings;
    var u := Step(s, config, e);
    var i := if e.SensorStart? || e.BeaconStart? then FirstActive(s.devices, e.mac) else e.slot;
    if i < |s.devices| {
      assert u.devices == s.devices[i := u.devices[i]];
      RewriteKeepsTidy(s, i, u.devices[i], u);
    }
  }

  lemma StepKeepsTidy(s: State, config: Config, e: Event)
    requires Tidy(s)
    ensures Tidy(Step(s, config, e))
  {
    match e {
      case Register(_, _, _) => RegisterKeepsTidy(s, config, e);
      case Unregister(_) => UnregisterKeepsTidy(s, config, e);
      case PresenceTimeout(now) => TimeoutKeepsTidy(s, config, |s.devices|, now);
      case ResetStats =>
      case _ => UpdateKeepsTidy(s, config, e);
    }
  }

  /** In every run addresses are unique and the counter is the number of devices, at most thirty. */
  lemma {:induction false} RunIsTidy(config: Config, events: seq<Event>)
    ensures Tidy(Run(config, events))
    ensures var s := Run(config, events); s.count == |Contents(s.devices)| <= MAX_DEVICES
    decreases |events|
  {
    if events == [] {
      EmptyContents(Initial().devices);
    } else {
      hide Tidy, Step, Contents;
      RunIsTidy(config, events[..|events| - 1]);
      StepKeepsTidy(Run(config, events[..|events| - 1]), config, events[|events| - 1]);
    }
    SizeIsCount(Run(config, events).devices);
  }

  // ------------------------------------------------------------------ the presence timeout

  function TimedOutCount(config: Config, t: seq<Entry>, now: nat): nat {
    if t == [] then 0
    else TimedOutCount(config, t[..|t| - 1], now) + if TimedOut(config, t[|t| - 1], now) then 1 else 0
  }

  function Absent(e: Entry): Entry {
    e.(data := e.data.(present := false, status := Stale))
  }

  /** The keys of the presence entities of the beacons that time out. */
  function TimedOutKeys(config: Config, t: seq<Entry>, now: nat): set<nat> {
    if t == [] then {}
    else
      var last := t[|t| - 1];
      TimedOutKeys(config, t[..|t| - 1], now)
      + if TimedOut(config, last, now) then {last.data.keyBase + OFFSET_PRESENCE} else {}
  }

  function AllAbsent(keys: set<nat>): map<nat, Reading> {
    map key | key in keys :: Presence(false)
  }

  lemma ExpiredIsAbsent(s: State, config: Config, i: nat, now: nat)
    requires i < |s.devices|
    ensures
      var u, out := Expired(s, config, i, now), TimedOut(config, s.devices[i], now);
      && u.devices == s.devices[i := if out then Absent(s.devices[i]) else s.devices[i]]
      && u.count == s.count && u.registered == s.registered
      && u.shown == s.shown + AllAbsent(if out then {s.devices[i].data.keyBase + OFFSET_PRESENCE} else {})
      && (s.changes < CYCLE ==> u.changes == (s.changes + if out then 1 else 0) % CYCLE)
  {
    assert s.shown + AllAbsent({}) == s.shown;
  }

  lemma AbsentUnion(shown: map<nat, Reading>, a: set<nat>, b: set<nat>)
    ensures shown + AllAbsent(a) + AllAbsent(b) == shown + AllAbsent(a + b)
  {
  }

  /**
    The timeout marks absent exactly the beacons whose age is past it: their presence entities
    show absence, each counts as a change, and nothing else changes.
   */
  lemma {:induction false} TimeoutExactly(s: State, config: Config, n: nat, now: nat)
    requires n <= |s.devices|
    ensures
      var u := ExpiredUpTo(s, config, n, now);
      && (forall i :: 0 <= i < |s.devices| ==>
            u.devices[i] == if i < n && TimedOut(config, s.devices[i], now) then Absent(s.devices[i]) else s.devices[i])
      && u.count == s.count && u.registered == s.registered
      && u.shown == s.shown + AllAbsent(TimedOutKeys(config, s.devices[..n], now))
      && (s.changes < CYCLE ==> u.changes == (s.changes + TimedOutCount(config, s.devices[..n], now)) % CYCLE)
    decreases n
  {
    if n == 0 {
      assert s.shown + AllAbsent({}) == s.shown;
    } else {
      hide TimedOut, Absent, Expired, AllAbsent;
      TimeoutExactly(s, config, n - 1, now);
      var w := ExpiredUpTo(s, config, n - 1, now);
      ExpiredIsAbsent(w, config, n - 1, now);
      assert s.devices[..n][..n - 1] == s.devices[..n - 1];
      var out := TimedOut(config, s.devices[n - 1], now);
      CountedNext(s.changes, TimedOutCount(config, s.devices[..n - 1], now), if out then 1 else 0);
      AbsentUnion(s.shown, TimedOutKeys(config, s.devices[..n - 1], now),
                  if out then {s.devices[n - 1].data.keyBase + OFFSET_PRESENCE} else {});
    }
  }

  lemma CountedNext(changes: nat, k: nat, more: nat)
    ensures ((changes + k) % CYCLE + more) % CYCLE == (changes + (k + more)) % CYCLE
  {
  }

  // ------------------------------------------------------------------ the timeout in a run

  /** Whether an event sets the time of a slot's last update. */
  predicate SetsTime(s: State, e: Event, slot: nat) {
    match e
    case Register(mac, _, _) => FirstActive(s.devices, mac) == |s.devices| && FirstFree(s.devices) == slot
    case SensorFinish(i, _, _) => i == slot
    case BeaconFinish(i, _, _, _) => i == slot < |s.devices| && s.devices[slot].data.isBeacon
    case _ => false
  }

  /** When a slot was last updated in a run. */
  function LastUpdate(config: Config, events: seq<Event>, slot: nat): nat {
    if events == [] then 0
    else
      var earlier, e := events[..|events| - 1], events[|events| - 1];
      if SetsTime(Run(config, earlier), e, slot) then e.now else LastUpdate(config, earlier, slot)
  }

  lemma StepStamps(s: State, config: Config, e: Event, slot: nat)
    requires slot < |s.devices| && Step(s, config, e).devices[slot].active
    ensures
      if SetsTime(s, e, slot) then Step(s, config, e).devices[slot].stamp == Stamp(e.now)
      else s.devices[slot].active && Step(s, config, e).devices[slot].stamp == s.devices[slot].stamp
  {
    hide Stamp, Readings, Measure;
    if e.PresenceTimeout? {
      TimeoutExactly(s, config, |s.devices|, e.now);
    }
  }

  /** In every run a device's stamp is the time of its last update. */
  lemma {:induction false} StampIsLastUpdate(config: Config, events: seq<Event>, slot: nat)
    requires slot < MAX_DEVICES
    ensures
      var e := Run(config, events).devices[slot];
      e.active ==> e.stamp == Stamp(LastUpdate(config, events, slot))
    decreases |events|
  {
    if events != [] {
      var earlier, e := events[..|events| - 1], events[|events| - 1];
      StampIsLastUpdate(config, earlier, slot);
      hide Stamp, SetsTime, Step;
      if Step(Run(config, earlier), config, e).devices[slot].active {
        StepStamps(Run(config, earlier), config, e, slot);
      }
    }
  }

  /** In every run the timeout is right about a beacon that is present exactly when its 32-bit age does not mislead. */
  lemma TimeoutJudgesExactly(config: Config, events: seq<Event>, slot: nat, now: nat)
    requires config.timeout < CYCLE && slot < MAX_DEVICES
    ensures
      var e, last := Run(config, events).devices[slot], LastUpdate(config, events, slot);
      var after := Run(config, events + [PresenceTimeout(now)]).devices[slot];
      e.active && e.data.isBeacon && e.data.present ==>
        ((!after.data.present <==> now - last > config.timeout) <==> !Misleads(last, now, config.timeout))
  {
    assert (events + [PresenceTimeout(now)])[..|events|] == events;
    StampIsLastUpdate(config, events, slot);
    hide Stamp, Misleads, LastUpdate, Age;
    var s := Run(config, events);
    TimeoutExactly(s, config, |s.devices|, now);
    JudgesExactly(LastUpdate(config, events, slot), now, config.timeout);
  }

  /** A beacon registered and heard of once the clock has been read at `t`. */
  function HeardAfter(mac: Mac, name: string, t: nat): seq<Event> {
    [Register(mac, name, t), BeaconStart(mac), BeaconFinish(0, true, -60, t + 1)]
  }

  lemma HeardIsPresent(config: Config, mac: Mac, name: string, t: nat)
    requires config.registerBeacons
    ensures
      var e := Run(config, HeardAfter(mac, name, t)).devices[0];
      e.active && e.mac == mac && e.data.isBeacon && e.data.present
    ensures LastUpdate(config, HeardAfter(mac, name, t), 0) == t + 1
  {
    hide Stamp;
    var events := HeardAfter(mac, name, t);
    assert events[..1] == [events[0]] && events[..0] == [] && events[..2][..1] == events[..1];
    assert Run(config, []) == Initial();
    assert Run(config, events[..1]) == Step(Initial(), config, events[0]);
    assert Run(config, events[..2]) == Step(Run(config, events[..1]), config, events[1]);
  }

  /** With the clock read before the last update came in, a beacon just heard of becomes absent. */
  lemma FreshBeaconExpires(config: Config, mac: Mac, name: string, t: nat)
    requires config.registerBeacons && config.timeout < CYCLE - 1
    ensures
      var before, after := HeardAfter(mac, name, t), HeardAfter(mac, name, t) + [PresenceTimeout(t)];
      && LastUpdate(config, before, 0) == t + 1
      && Run(config, before).devices[0].mac == mac && Run(config, before).devices[0].data.present
      && !Run(config, after).devices[0].data.present
  {
    hide Run, LastUpdate, HeardAfter;
    HeardIsPresent(config, mac, name, t);
    TimeoutJudgesExactly(config, HeardAfter(mac, name, t), 0, t);
  }

  // ------------------------------------------------------------------ the code

  lemma WithPresenceKeepsLength(s: State, i: nat, present: bool)
    requires i < |s.devices|
    ensures |WithPresence(s, i, present).devices| == |s.devices|
  {
  }

  datatype Outcome = Done | NoMemory | NotFound

  class EsphomeBridge {
    const config: Config
    const table: Slots<Bridged>
    var deviceCount: int
    var registered: nat
    var presenceChanges: nat
    var shown: map<nat, Reading>

    ghost function Now(): State
      reads this, table.slots
    {
      State(table.slots[..], deviceCount, registered, presenceChanges, shown)
    }

    constructor (config: Config)
      ensures this.config == config && fresh(table.slots) && Now() == Run(config, [])
    {
      this.config := config;
      var t := new Slots(MAX_DEVICES, EMPTY);
      table := t;
      deviceCount := 0;
      registered := 0;
      presenceChanges := 0;
      shown := map[];
      new;
      assert table.slots[..] == Initial().devices;
    }

    method RegisterDevice(mac: Mac, name: string, now: nat) returns (outcome: Outcome)
      modifies this, table.slots
      ensures Now() == Step(old(Now()), config, Register(mac, name, now))
      ensures outcome.NoMemory? <==> mac !in Macs(old(table.slots[..])) && FirstFree(old(table.slots[..])) == table.slots.Length
      ensures !outcome.NoMemory? ==> outcome.Done?
    {
      FoundExactly(table.slots[..], mac);
      var slots := table.slots;
      var i := table.FindActive(mac);
      if i < slots.Length {
        return Done;
      }
      i := table.FindFree();
      if i == slots.Length {
        return NoMemory;
      }
      slots[i] := EMPTY;
      slots[i] := NewEntry(mac, name, now, deviceCount);
      deviceCount := deviceCount + 1;
      registered := registered + 1;
      return Done;
    }

    method UnregisterDevice(mac: Mac) returns (outcome: Outcome)
      modifies this, table.slots
      ensures Now() == Step(old(Now()), config, Unregister(mac))
      ensures outcome == if mac in Macs(old(table.slots[..])) then Done else NotFound
    {
      FoundExactly(table.slots[..], mac);
      var slots := table.slots;
      var i := table.FindActive(mac);
      if i == slots.Length {
        return NotFound;
      }
      var d := slots[i].data;
      var missing: set<nat> := {};
      if d.hasTemperature {
        missing := missing + {d.keyBase + OFFSET_TEMPERATURE};
      }
      if d.hasHumidity {
        missing := missing + {d.keyBase + OFFSET_HUMIDITY};
      }
      if d.hasBattery {
        missing := missing + {d.keyBase + OFFSET_BATTERY};
      }
      if d.isBeacon {
        missing := missing + {d.keyBase + OFFSET_PRESENCE};
      }
      assert missing == Missing(slots[i]);
      shown := shown - missing;
      slots[i] := EMPTY;
      deviceCount := deviceCount - 1;
      return Done;
    }

    /** A sensor update up to where the mutex may be given up; `None` when it ends there. */
    method StartSensor(mac: Mac, m: Measured, now: nat) returns (slot: Option<nat>)
      modifies table.slots
      ensures Now() == Step(old(Now()), config, SensorStart(mac, m, now))
      ensures
        var t := old(table.slots[..]);
        var i := FirstActive(t, mac);
        slot == if i == |t| || Age(Stamp(now), t[i].stamp) < config.interval then None else Some(i)
    {
      var slots := table.slots;
      var i := table.FindActive(mac);
      if i == slots.Length || Age(Stamp(now), slots[i].stamp) < config.interval {
        return None;
      }
      var d := slots[i].data;
      if !d.hasTemperature && !d.hasHumidity && m.temperature.Some? {
        d := d.(hasTemperature := true);
        d := d.(hasHumidity := m.humidity.Some?);
        slots[i] := slots[i].(data := d);
      }
      return Some(i);
    }

    /** What is published of a sensor's readings. */
    method Publish(d: Bridged, m: Measured) returns (readings: map<nat, Reading>)
      ensures readings == Readings(d, m)
    {
      var temperature: map<nat, Reading> := map[];
      if m.temperature.Some? && d.hasTemperature {
        temperature := map[d.keyBase + OFFSET_TEMPERATURE := Value(m.temperature.value)];
      }
      var humidity: map<nat, Reading> := map[];
      if m.humidity.Some? && d.hasHumidity {
        humidity := map[d.keyBase + OFFSET_HUMIDITY := Value(m.humidity.value)];
      }
      var battery: map<nat, Reading> := map[];
      if m.battery >= 0 && d.hasBattery {
        battery := map[d.keyBase + OFFSET_BATTERY := Value(m.battery as real)];
      }
      readings := temperature + humidity + battery;
    }

    /** An entry after a sensor's readings are noted. */
    method Note(before: Bridged, m: Measured) returns (d: Bridged)
      ensures d == Measure(config, before, m)
    {
      var hasBattery := before.hasBattery;
      if !hasBattery && m.battery >= 0 && config.registerBattery {
        hasBattery := true;
      }
      var temperature, humidity, battery, rssi := before.temperature, before.humidity, before.battery, before.rssi;
      if m.temperature.Some? && before.hasTemperature {
        temperature := m.temperature;
      }
      if m.humidity.Some? && before.hasHumidity {
        humidity := m.humidity;
      }
      if m.battery >= 0 && hasBattery {
        battery := m.battery;
      }
      if m.rssi > -127 && config.registerRssi {
        rssi := m.rssi;
      }
      d := before.(hasBattery := hasBattery, temperature := temperature, humidity := humidity, battery := battery,
                   rssi := rssi, status := Active);
    }

    method FinishSensor(i: nat, m: Measured, now: nat)
      requires i < table.slots.Length
      modifies this, table.slots
      ensures Now() == Step(old(Now()), config, SensorFinish(i, m, now))
    {
      hide Measure, Readings;
      var slots := table.slots;
      var d := Note(slots[i].data, m);
      var readings := Publish(d, m);
      shown := shown + readings;
      slots[i] := slots[i].(stamp := Stamp(now), data := d);
    }

    /** A beacon update up to where the mutex may be given up. */
    method StartBeacon(mac: Mac) returns (slot: Option<nat>)
      modifies table.slots
      ensures Now() == Step(old(Now()), config, BeaconStart(mac))
      ensures slot.Some? <==> mac in Macs(old(table.slots[..]))
      ensures slot.Some? ==> slot.value < table.slots.Length && table.slots[slot.value].active && table.slots[slot.value].mac == mac
    {
      FoundExactly(table.slots[..], mac);
      var slots := table.slots;
      var i := table.FindActive(mac);
      if i == slots.Length {
        return None;
      }
      if !slots[i].data.isBeacon && config.registerBeacons {
        slots[i] := slots[i].(data := slots[i].data.(isBeacon := true));
      }
      return Some(i);
    }

    /** Notes and publishes a beacon's presence, and counts a change. */
    method SetPresence(i: nat, present: bool)
      requires i < table.slots.Length
      modifies this, table.slots
      ensures Now() == WithPresence(old(Now()), i, present)
    {
      var slots := table.slots;
      var d := slots[i].data;
      slots[i] := slots[i].(data := d.(present := present));
      shown := shown[d.keyBase + OFFSET_PRESENCE := Presence(present)];
      if d.present != present {
        presenceChanges := (presenceChanges + 1) % CYCLE;
      }
    }

    method FinishBeacon(i: nat, present: bool, rssi: int, now: nat)
      requires i < table.slots.Length
      modifies this, table.slots
      ensures Now() == Step(old(Now()), config, BeaconFinish(i, present, rssi, now))
    {
      hide WithPresence;
      var slots := table.slots;
      if slots[i].data.isBeacon {
        WithPresenceKeepsLength(Now(), i, present);
        SetPresence(i, present);
        slots[i] := slots[i].(stamp := Stamp(now), data := slots[i].data.(rssi := rssi));
      }
      slots[i] := slots[i].(data := slots[i].data.(status := if present then Active else Stale));
    }

    method ProcessPresenceTimeout(now: nat) returns (absent: nat)
      modifies this, table.slots
      ensures Now() == Step(old(Now()), config, PresenceTimeout(now))
      ensures absent == TimedOutCount(config, old(table.slots[..]), now)
    {
      hide TimedOut;
      ghost var before := Now();
      var slots := table.slots;
      absent := 0;
      for i := 0 to slots.Length
        invariant Now() == ExpiredUpTo(before, config, i, now)
        invariant absent == TimedOutCount(config, before.devices[..i], now)
      {
        assert before.devices[..i + 1][..i] == before.devices[..i];
        TimeoutExactly(before, config, i, now);
        var marked := Expire(i, now);
        if marked {
          absent := absent + 1;
        }
      }
      assert before.devices[..slots.Length] == before.devices;
    }

    method Expire(i: nat, now: nat) returns (marked: bool)
      requires i < table.slots.Length
      modifies this, table.slots
      ensures Now() == Expired(old(Now()), config, i, now)
      ensures marked == TimedOut(config, old(table.slots[i]), now)
    {
      var slots := table.slots;
      marked := slots[i].active && slots[i].data.isBeacon && slots[i].data.present && Age(Stamp(now), slots[i].stamp) > config.timeout;
      if marked {
        SetPresence(i, false);
        slots[i] := slots[i].(data := slots[i].data.(status := Stale));
      }
    }

    method ResetStatistics()
      modifies this
      ensures Now() == Step(old(Now()), config, ResetStats)
    {
      presenceChanges := 0;
    }
  }
}
