/**
  What holds in runs of the bridge (main/bluetooth/ble_esphome_bridge.c) in which no device is
  unregistered and the statistics are not reset, and what unregistering breaks.
 */
module BridgeRuns {
  import opened Wrappers
  import opened Clock
  import opened SlotTable
  import opened Bridge

  // ------------------------------------------------------------------ entity keys

  /** The slots are taken in order, and each has its own ten keys. */
  predicate Packed(s: State) {
    && 0 <= s.count <= |s.devices|
    && (forall i :: 0 <= i < |s.devices| ==> (s.devices[i].active <==> i < s.count))
    && (forall i :: 0 <= i < s.count ==> s.devices[i].data.keyBase == KEY_BASE + KEYS_PER_DEVICE * i)
  }

  /** The ranges of ten keys that active devices have do not meet. */
  predicate KeysDisjoint(t: seq<Entry>) {
    forall i, j :: 0 <= i < j < |t| && t[i].active && t[j].active ==> Apart(t[i].data.keyBase, t[j].data.keyBase)
  }

  predicate Apart(a: nat, b: nat) {
    a + KEYS_PER_DEVICE <= b || b + KEYS_PER_DEVICE <= a
  }

  lemma PackedIsDisjoint(s: State)
    requires Packed(s)
    ensures KeysDisjoint(s.devices)
  {
    forall i, j | 0 <= i < j < |s.devices| && s.devices[i].active && s.devices[j].active
      ensures Apart(s.devices[i].data.keyBase, s.devices[j].data.keyBase)
    {
      assert s.devices[j].data.keyBase == KEY_BASE + KEYS_PER_DEVICE * j;
    }
  }

  // ------------------------------------------------------------------ presence

  function One(b: bool): nat {
    if b then 1 else 0
  }

  function PresentCount(t: seq<Entry>): nat {
    if t == [] then 0 else PresentCount(t[..|t| - 1]) + One(t[|t| - 1].data.present)
  }

  lemma {:induction false} PresentUpdated(t: seq<Entry>, i: nat, e: Entry)
    requires i < |t|
    ensures PresentCount(t[i := e]) == PresentCount(t) - One(t[i].data.present) + One(e.data.present)
    decreases |t|
  {
    var u := t[i := e];
    if i < |t| - 1 {
      PresentUpdated(t[..|t| - 1], i, e);
      assert u[..|u| - 1] == t[..|t| - 1][i := e];
    } else {
      assert u[..|u| - 1] == t[..|t| - 1];
    }
  }

  /** Presence changes have the parity of the number of beacons present. */
  predicate Even(s: State) {
    s.changes % 2 == PresentCount(s.devices) % 2
  }

  // ------------------------------------------------------------------ what is shown

  predicate ShowsNumber(shown: map<nat, Reading>, key: nat, value: real) {
    key in shown && shown[key] == Value(value)
  }

  /** A device's entities show the readings and the presence that its entry holds. */
  predicate Shows(shown: map<nat, Reading>, d: Bridged) {
    && (d.temperature.Some? ==> ShowsNumber(shown, d.keyBase + OFFSET_TEMPERATURE, d.temperature.value))
    && (d.humidity.Some? ==> ShowsNumber(shown, d.keyBase + OFFSET_HUMIDITY, d.humidity.value))
    && (d.battery >= 0 ==> ShowsNumber(shown, d.keyBase + OFFSET_BATTERY, d.battery as real))
    && (d.present ==> d.keyBase + OFFSET_PRESENCE in shown)
    && (d.keyBase + OFFSET_PRESENCE in shown ==> shown[d.keyBase + OFFSET_PRESENCE] == Presence(d.present))
  }

  predicate AllShown(s: State) {
    && (forall i :: 0 <= i < |s.devices| && s.devices[i].active ==> Shows(s.shown, s.devices[i].data))
    && (forall key :: key in s.shown ==> key < KEY_BASE + KEYS_PER_DEVICE * s.count)
  }

  // ------------------------------------------------------------------ steps

  /** No device is unregistered, no statistics reset, and an update's second step holds a slot that its first step found. */
  predicate Calm(s: State, e: Event) {
    && !e.Unregister? && !e.ResetStats?
    && (e.SensorFinish? || e.BeaconFinish? ==> e.slot < |s.devices| && s.devices[e.slot].active)
  }

  ghost predicate Good(s: State) {
    Tidy(s) && Packed(s) && Even(s) && AllShown(s)
  }

  /** Publishing under keys of its own, a device does not touch what others show. */
  lemma OthersStillShown(shown: map<nat, Reading>, more: map<nat, Reading>, base: nat, d: Bridged)
    requires Shows(shown, d) && Apart(base, d.keyBase)
    requires forall key :: key in more ==> base <= key < base + KEYS_PER_DEVICE
    ensures Shows(shown + more, d)
  {
    assert d.keyBase + OFFSET_TEMPERATURE !in more && d.keyBase + OFFSET_HUMIDITY !in more;
    assert d.keyBase + OFFSET_BATTERY !in more && d.keyBase + OFFSET_PRESENCE !in more;
  }

  /** One active slot is rewritten and publishes under its own keys. */
  lemma RewriteKeepsShown(s: State, i: nat, e: Entry, more: map<nat, Reading>, u: State)
    requires Packed(s) && AllShown(s) && i < s.count
    requires e.active && e.data.keyBase == s.devices[i].data.keyBase && Shows(s.shown + more, e.data)
    requires forall key :: key in more ==> e.data.keyBase <= key < e.data.keyBase + KEYS_PER_DEVICE
    requires u.devices == s.devices[i := e] && u.count == s.count && u.shown == s.shown + more
    ensures Packed(u) && AllShown(u)
  {
    var base := e.data.keyBase;
    hide Shows;
    forall k | 0 <= k < |u.devices| && u.devices[k].active ensures Shows(u.shown, u.devices[k].data) {
      if k != i {
        assert s.devices[k].data.keyBase == KEY_BASE + KEYS_PER_DEVICE * k;
        assert base == KEY_BASE + KEYS_PER_DEVICE * i;
        OthersStillShown(s.shown, more, base, s.devices[k].data);
      }
    }
  }

  lemma RewriteKeepsEven(s: State, i: nat, e: Entry, u: State)
    requires Even(s) && i < |s.devices|
    requires u.devices == s.devices[i := e]
    requires u.changes % 2 == (s.changes + One(e.data.present != s.devices[i].data.present)) % 2
    ensures Even(u)
  {
    PresentUpdated(s.devices, i, e);
  }

  /** Rewriting what no entity shows. */
  lemma UnseenKeepsGood(s: State, i: nat, e: Entry, u: State)
    requires Good(s) && i < s.count && u == s.(devices := s.devices[i := e])
    requires SameOwner(s.devices[i], e) && Quiet(e)
    requires
      var d := s.devices[i].data;
      && e.data.temperature == d.temperature && e.data.humidity == d.humidity
      && e.data.battery == d.battery && e.data.present == d.present
    ensures Good(u)
  {
    hide Unique, Count, PresentCount;
    assert s.shown + map[] == s.shown;
    RewriteKeepsTidy(s, i, e, u);
    RewriteKeepsShown(s, i, e, map[], u);
    RewriteKeepsEven(s, i, e, u);
  }

  lemma PresenceKeepsGood(s: State, i: nat, present: bool)
    requires Good(s) && i < s.count && s.devices[i].data.isBeacon
    ensures Good(WithPresence(s, i, present))
  {
    hide Unique, Count, PresentCount;
    var u := WithPresence(s, i, present);
    var e := u.devices[i];
    var more := map[e.data.keyBase + OFFSET_PRESENCE := Presence(present)];
    assert u.shown == s.shown + more;
    RewriteKeepsTidy(s, i, e, u);
    RewriteKeepsShown(s, i, e, more, u);
    Halves(s.changes + 1);
    RewriteKeepsEven(s, i, e, u);
  }

  lemma Halves(n: nat)
    ensures n % CYCLE % 2 == n % 2
  {
  }

  lemma ReadingsAreShown(shown: map<nat, Reading>, config: Config, before: Bridged, m: Measured)
    requires Shows(shown, before)
    ensures
      var d := Measure(config, before, m);
      && Shows(shown + Readings(d, m), d)
      && forall key :: key in Readings(d, m) ==> d.keyBase <= key < d.keyBase + KEYS_PER_DEVICE
  {
  }

  lemma SensorKeepsGood(s: State, config: Config, i: nat, m: Measured, now: nat)
    requires Good(s) && i < s.count
    ensures Good(SensorFinished(s, config, i, m, now))
  {
    hide Unique, Count, PresentCount;
    ReadingsAreShown(s.shown, config, s.devices[i].data, m);
    hide Readings, Shows;
    var u := SensorFinished(s, config, i, m, now);
    var e := u.devices[i];
    RewriteKeepsTidy(s, i, e, u);
    RewriteKeepsShown(s, i, e, Readings(e.data, m), u);
    RewriteKeepsEven(s, i, e, u);
  }

  lemma BeaconKeepsGood(s: State, i: nat, present: bool, rssi: int, now: nat)
    requires Good(s) && i < s.count
    ensures Good(BeaconFinished(s, i, present, rssi, now))
  {
    hide Good;
    assert |s.devices| > i by { GoodHasSlots(s); }
    var u := BeaconFinished(s, i, present, rssi, now);
    var w := s;
    if s.devices[i].data.isBeacon {
      PresenceKeepsGood(s, i, present);
      w := WithPresence(s, i, present);
    }
    assert u == w.(devices := w.devices[i := u.devices[i]]);
    GoodIsQuiet(w, i);
    UnseenKeepsGood(w, i, u.devices[i], u);
  }

  lemma GoodHasSlots(s: State)
    requires Good(s)
    ensures s.count <= |s.devices| == MAX_DEVICES
    ensures forall i :: 0 <= i < |s.devices| && s.devices[i].active ==> i < s.count
  {
  }

  lemma GoodIsQuiet(s: State, i: nat)
    requires Good(s) && i < s.count
    ensures i < |s.devices| && Quiet(s.devices[i]) && s.devices[i].active
  {
  }

  lemma ExpiredKeepsGood(s: State, config: Config, i: nat, now: nat)
    requires Good(s) && i < |s.devices|
    ensures Good(Expired(s, config, i, now))
  {
    hide Good;
    if TimedOut(config, s.devices[i], now) {
      GoodHasSlots(s);
      PresenceKeepsGood(s, i, false);
      var w, u := WithPresence(s, i, false), Expired(s, config, i, now);
      assert u == w.(devices := w.devices[i := u.devices[i]]);
      GoodIsQuiet(w, i);
      UnseenKeepsGood(w, i, u.devices[i], u);
    }
  }

  lemma {:induction false} TimeoutKeepsGood(s: State, config: Config, n: nat, now: nat)
    requires Good(s) && n <= |s.devices|
    ensures Good(ExpiredUpTo(s, config, n, now))
    decreases n
  {
    if n > 0 {
      hide Good, Expired;
      TimeoutKeepsGood(s, config, n - 1, now);
      ExpiredKeepsGood(ExpiredUpTo(s, config, n - 1, now), config, n - 1, now);
    }
  }

  /** Up to thirty devices the key base does not wrap. */
  lemma NewBase(mac: Mac, name: string, now: nat, count: int)
    requires 0 <= count <= MAX_DEVICES
    ensures NewEntry(mac, name, now, count).data.keyBase == KEY_BASE + KEYS_PER_DEVICE * count
    ensures IsAligned(NewEntry(mac, name, now, count).data.keyBase)
  {
  }

  lemma RegisterKeepsShown(s: State, e: Entry, u: State)
    requires Packed(s) && AllShown(s) && s.count < |s.devices|
    requires e.active && e.data.keyBase == KEY_BASE + KEYS_PER_DEVICE * s.count
    requires e.data.temperature.None? && e.data.humidity.None? && e.data.battery < 0 && !e.data.present
    requires u.devices == s.devices[s.count := e] && u.count == s.count + 1 && u.shown == s.shown
    ensures Packed(u) && AllShown(u)
  {
    assert Shows(u.shown, e.data) by {
      assert e.data.keyBase + OFFSET_PRESENCE !in s.shown;
    }
    hide Shows;
  }

  /** A new device takes the next slot and keys that nothing was shown under. */
  lemma RegisterKeepsGood(s: State, config: Config, e: Event)
    requires Good(s) && e.Register?
    ensures Good(Step(s, config, e))
  {
    RegisterKeepsTidy(s, config, e);
    var u := Step(s, config, e);
    var i := FirstFree(s.devices);
    if FirstActive(s.devices, e.mac) == |s.devices| && i < |s.devices| {
      FreeIsNext(s);
      assert !s.devices[i].data.present by { QuietSlot(s, i); }
      NewBase(e.mac, e.name, e.now, s.count);
      assert u.devices[i].data.present == false && u.devices[i].data.battery < 0;
      hide Tidy, Packed, AllShown, Even, NewEntry;
      RegisterKeepsShown(s, u.devices[i], u);
      RewriteKeepsEven(s, i, u.devices[i], u);
    }
  }

  lemma FreeIsNext(s: State)
    requires Packed(s) && FirstFree(s.devices) < |s.devices|
    ensures FirstFree(s.devices) == s.count
  {
    var i := FirstFree(s.devices);
    assert s.count < |s.devices| ==> !s.devices[s.count].active;
  }

  lemma QuietSlot(s: State, i: nat)
    requires Tidy(s) && i < |s.devices| && !s.devices[i].active
    ensures !s.devices[i].data.present
  {
  }

  lemma StartKeepsGood(s: State, config: Config, e: Event)
    requires Good(s) && (e.SensorStart? || e.BeaconStart?)
    ensures Good(Step(s, config, e))
  {
    hide Good;
    GoodHasSlots(s);
    var i := FirstActive(s.devices, e.mac);
    var u := Step(s, config, e);
    if i < |s.devices| {
      GoodIsQuiet(s, i);
      assert u == s.(devices := s.devices[i := u.devices[i]]);
      UnseenKeepsGood(s, i, u.devices[i], u);
    }
  }

  lemma StepKeepsGood(s: State, config: Config, e: Event)
    requires Good(s) && Calm(s, e)
    ensures Good(Step(s, config, e))
  {
    hide Good;
    GoodHasSlots(s);
    match e {
      case Register(_, _, _) => RegisterKeepsGood(s, config, e);
      case SensorFinish(i, m, now) => SensorKeepsGood(s, config, i, m, now);
      case BeaconFinish(i, present, rssi, now) => BeaconKeepsGood(s, i, present, rssi, now);
      case PresenceTimeout(now) => TimeoutKeepsGood(s, config, |s.devices|, now);
      case _ => StartKeepsGood(s, config, e);
    }
  }

  predicate CalmRun(config: Config, events: seq<Event>) {
    events == [] ||
    (CalmRun(config, events[..|events| - 1]) && Calm(Run(config, events[..|events| - 1]), events[|events| - 1]))
  }

  /**
    In every calm run keys are disjoint, presence changes have the parity of the beacons present,
    and every device's entities show what its own entry holds.
   */
  lemma {:induction false} CalmRunIsGood(config: Config, events: seq<Event>)
    requires CalmRun(config, events)
    ensures Good(Run(config, events)) && KeysDisjoint(Run(config, events).devices)
    decreases |events|
  {
    if events == [] {
      EmptyContents(Initial().devices);
      NonePresent(Initial().devices);
    } else {
      var earlier := events[..|events| - 1];
      CalmRunIsGood(config, earlier);
      hide Good, Step, Calm;
      StepKeepsGood(Run(config, earlier), config, events[|events| - 1]);
    }
    assert Packed(Run(config, events)) by { GoodIsPacked(Run(config, events)); }
    PackedIsDisjoint(Run(config, events));
  }

  lemma GoodIsPacked(s: State)
    requires Good(s)
    ensures Packed(s)
  {
  }

  lemma {:induction false} NonePresent(t: seq<Entry>)
    requires forall i :: 0 <= i < |t| ==> !t[i].data.present
    ensures PresentCount(t) == 0
    decreases |t|
  {
    if t != [] {
      NonePresent(t[..|t| - 1]);
    }
  }

  // ------------------------------------------------------------------ updates come in halves

  /** A first half of an update found the slot at event `j`. */
  predicate FoundAt(config: Config, events: seq<Event>, j: nat, sensor: bool, slot: nat) {
    && j < |events| && slot < MAX_DEVICES
    && (if sensor then events[j].SensorStart? else events[j].BeaconStart?)
    && FirstActive(Run(config, events[..j]).devices, events[j].mac) == slot
  }

  /** The second half of an update holds a slot that a first half before it found. */
  ghost predicate Follows(config: Config, earlier: seq<Event>, e: Event) {
    && (e.SensorFinish? ==> exists j: nat :: FoundAt(config, earlier, j, true, e.slot))
    && (e.BeaconFinish? ==> exists j: nat :: FoundAt(config, earlier, j, false, e.slot))
  }

  /** What the code can do while no device is unregistered and no statistics reset. */
  ghost predicate Paired(config: Config, events: seq<Event>) {
    events == [] ||
    (var earlier, e := events[..|events| - 1], events[|events| - 1];
     Paired(config, earlier) && !e.Unregister? && !e.ResetStats? && Follows(config, earlier, e))
  }

  lemma StaysActiveOnce(s: State, config: Config, e: Event, slot: nat)
    requires slot < |s.devices| && s.devices[slot].active && !e.Unregister?
    ensures Step(s, config, e).devices[slot].active
  {
    hide Readings;
    match e {
      case Register(_, _, _) =>
      case PresenceTimeout(now) => ExpiredBases(s, config, |s.devices|, now);
      case ResetStats =>
      case _ => UpdateKeepsBases(s, config, e);
    }
  }

  /** Without unregistering, a slot once active stays active. */
  lemma {:induction false} StaysActive(config: Config, events: seq<Event>, j: nat, slot: nat)
    requires Paired(config, events) && j <= |events| && slot < MAX_DEVICES
    requires Run(config, events[..j]).devices[slot].active
    ensures Run(config, events).devices[slot].active
    decreases |events|
  {
    if j == |events| {
      assert events[..j] == events;
    } else {
      var earlier := events[..|events| - 1];
      assert events[..j] == earlier[..j];
      StaysActive(config, earlier, j, slot);
      hide Step;
      StaysActiveOnce(Run(config, earlier), config, events[|events| - 1], slot);
    }
  }

  lemma FoundIsActive(config: Config, events: seq<Event>, j: nat, sensor: bool, slot: nat)
    requires Paired(config, events) && FoundAt(config, events, j, sensor, slot)
    ensures Run(config, events).devices[slot].active
  {
    hide Run, Paired;
    assert Run(config, events[..j]).devices[slot].active;
    StaysActive(config, events, j, slot);
  }

  /** So every second half finds its slot active. */
  lemma {:induction false} PairedIsCalm(config: Config, events: seq<Event>)
    requires Paired(config, events)
    ensures CalmRun(config, events)
    decreases |events|
  {
    if events != [] {
      var earlier, e := events[..|events| - 1], events[|events| - 1];
      PairedIsCalm(config, earlier);
      if e.SensorFinish? {
        var j: nat :| FoundAt(config, earlier, j, true, e.slot);
        FoundIsActive(config, earlier, j, true, e.slot);
      } else if e.BeaconFinish? {
        var j: nat :| FoundAt(config, earlier, j, false, e.slot);
        FoundIsActive(config, earlier, j, false, e.slot);
      }
    }
  }

  /**
    In every run without unregistering and reset keys are disjoint, presence changes have the
    parity of the beacons present, and every device's entities show what its own entry holds.
   */
  lemma PairedRunIsGood(config: Config, events: seq<Event>)
    requires Paired(config, events)
    ensures Good(Run(config, events)) && KeysDisjoint(Run(config, events).devices)
  {
    PairedIsCalm(config, events);
    CalmRunIsGood(config, events);
  }

  // ------------------------------------------------------------------ what breaks parity

  /** Forgetting a beacon that is present, or the number of changes when it is odd. */
  predicate BreaksParity(s: State, e: Event) {
    || (e.Unregister? && FirstActive(s.devices, e.mac) < |s.devices| && s.devices[FirstActive(s.devices, e.mac)].data.present)
    || (e.ResetStats? && PresentCount(s.devices) % 2 == 1)
  }

  lemma PresenceKeepsEven(s: State, i: nat, present: bool, e: Entry, u: State)
    requires Even(s) && i < |s.devices| && e.data.present == present
    requires u == WithPresence(s, i, present).(devices := s.devices[i := e])
    ensures Even(u)
  {
    Halves(s.changes + 1);
    RewriteKeepsEven(s, i, e, u);
  }

  lemma ExpiredKeepsEven(s: State, config: Config, i: nat, now: nat)
    requires Even(s) && i < |s.devices|
    ensures Even(Expired(s, config, i, now))
  {
    hide Even;
    if TimedOut(config, s.devices[i], now) {
      var u := Expired(s, config, i, now);
      assert u.devices == s.devices[i := u.devices[i]];
      PresenceKeepsEven(s, i, false, u.devices[i], u);
    }
  }

  lemma {:induction false} TimeoutKeepsEven(s: State, config: Config, n: nat, now: nat)
    requires Even(s) && n <= |s.devices|
    ensures Even(ExpiredUpTo(s, config, n, now))
    decreases n
  {
    if n > 0 {
      hide Even, Expired;
      TimeoutKeepsEven(s, config, n - 1, now);
      ExpiredKeepsEven(ExpiredUpTo(s, config, n - 1, now), config, n - 1, now);
    }
  }

  lemma RewriteIsEven(s: State, config: Config, e: Event)
    requires Tidy(s) && Even(s)
    requires e.Register? || e.SensorStart? || e.BeaconStart? || e.SensorFinish? || e.BeaconFinish?
    ensures Even(Step(s, config, e))
  {
    hide Unique, Count, PresentCount, Readings;
    var u := Step(s, config, e);
    var i := if e.Register? then FirstFree(s.devices)
             else if e.SensorStart? || e.BeaconStart? then FirstActive(s.devices, e.mac) else e.slot;
    if i < |s.devices| {
      assert u.devices == s.devices[i := u.devices[i]];
      Halves(s.changes + 1);
      RewriteKeepsEven(s, i, u.devices[i], u);
    }
  }

  /** A step keeps the parity exactly unless it forgets a beacon that is present or an odd number of changes. */
  lemma ParityExactly(s: State, config: Config, e: Event)
    requires Tidy(s) && Even(s)
    ensures Even(Step(s, config, e)) <==> !BreaksParity(s, e)
  {
    match e {
      case Unregister(mac) =>
        var i := FirstActive(s.devices, mac);
        if i < |s.devices| {
          PresentUpdated(s.devices, i, EMPTY);
        }
      case ResetStats =>
      case PresenceTimeout(now) => TimeoutKeepsEven(s, config, |s.devices|, now);
      case _ => RewriteIsEven(s, config, e);
    }
  }

  // ------------------------------------------------------------------ what breaks the keys

  /** A whole multiple of ten above the base. */
  predicate IsAligned(keyBase: nat) {
    keyBase >= KEY_BASE && (keyBase - KEY_BASE) % KEYS_PER_DEVICE == 0
  }

  predicate Aligned(t: seq<Entry>) {
    forall i :: 0 <= i < |t| && t[i].active ==> IsAligned(t[i].data.keyBase)
  }

  lemma TensApart(a: nat, b: nat)
    requires IsAligned(a) && IsAligned(b)
    ensures (Apart(a, b) <==> a != b) && (Apart(b, a) <==> a != b)
  {
  }

  /** A slot filled keeps keys disjoint exactly when no other has its key base. */
  lemma FilledDisjointExactly(t: seq<Entry>, i: nat, e: Entry)
    requires i < |t| && !t[i].active && e.active && Aligned(t) && IsAligned(e.data.keyBase) && KeysDisjoint(t)
    ensures KeysDisjoint(t[i := e]) <==> forall k :: 0 <= k < |t| && t[k].active ==> t[k].data.keyBase != e.data.keyBase
  {
    hide IsAligned, Apart;
    var u := t[i := e];
    forall k | 0 <= k < |t| && t[k].active
      ensures Apart(u[k].data.keyBase, e.data.keyBase) <==> t[k].data.keyBase != e.data.keyBase
      ensures Apart(e.data.keyBase, u[k].data.keyBase) <==> t[k].data.keyBase != e.data.keyBase
    {
      TensApart(t[k].data.keyBase, e.data.keyBase);
    }
    if KeysDisjoint(u) {
      forall k | 0 <= k < |t| && t[k].active ensures t[k].data.keyBase != e.data.keyBase {
        assert u[k] == t[k] && u[i] == e && (k < i || i < k);
      }
    }
  }

  /** A registration keeps keys disjoint exactly when no device already holds the ten that the counter points to. */
  lemma RegisterCollidesExactly(s: State, config: Config, mac: Mac, name: string, now: nat)
    requires Tidy(s) && Aligned(s.devices) && KeysDisjoint(s.devices)
    requires FirstActive(s.devices, mac) == |s.devices| && FirstFree(s.devices) < |s.devices|
    ensures
      KeysDisjoint(Step(s, config, Register(mac, name, now)).devices) <==>
        forall i :: 0 <= i < |s.devices| && s.devices[i].active ==> s.devices[i].data.keyBase != KEY_BASE + KEYS_PER_DEVICE * s.count
  {
    SizeIsCount(s.devices);
    hide Aligned, KeysDisjoint, Count;
    var i := FirstFree(s.devices);
    NewBase(mac, name, now, s.count);
    FilledDisjointExactly(s.devices, i, NewEntry(mac, name, now, s.count));
  }

  lemma RewriteKeepsAligned(t: seq<Entry>, i: nat, e: Entry)
    requires i < |t| && Aligned(t) && (e.active ==> IsAligned(e.data.keyBase))
    ensures Aligned(t[i := e])
  {
  }

  lemma RegisterKeepsAligned(s: State, config: Config, e: Event)
    requires Tidy(s) && Aligned(s.devices) && e.Register?
    ensures Aligned(Step(s, config, e).devices)
  {
    SizeIsCount(s.devices);
    hide Unique, Count, IsAligned, NewEntry;
    NewBase(e.mac, e.name, e.now, s.count);
    if FirstFree(s.devices) < |s.devices| {
      RewriteKeepsAligned(s.devices, FirstFree(s.devices), NewEntry(e.mac, e.name, e.now, s.count));
    }
  }

  lemma SameBases(t: seq<Entry>, u: seq<Entry>)
    requires |t| == |u| && Aligned(t) && forall i :: 0 <= i < |t| ==> SameOwner(t[i], u[i])
    ensures Aligned(u)
  {
  }

  lemma StepKeepsAligned(s: State, config: Config, e: Event)
    requires Tidy(s) && Aligned(s.devices)
    ensures Aligned(Step(s, config, e).devices)
  {
    hide Tidy, SameOwner, IsAligned, SensorStarted, SensorFinished, BeaconFinished, ExpiredUpTo;
    match e {
      case Register(mac, name, now) => RegisterKeepsAligned(s, config, e);
      case PresenceTimeout(now) =>
        ExpiredBases(s, config, |s.devices|, now);
        SameBases(s.devices, Step(s, config, e).devices);
      case Unregister(_) =>
      case ResetStats =>
      case _ =>
        UpdateKeepsBases(s, config, e);
        SameBases(s.devices, Step(s, config, e).devices);
    }
  }

  lemma UpdateKeepsBases(s: State, config: Config, e: Event)
    requires e.SensorStart? || e.SensorFinish? || e.BeaconStart? || e.BeaconFinish?
    ensures forall i :: 0 <= i < |s.devices| ==> SameOwner(s.devices[i], Step(s, config, e).devices[i])
  {
    hide Readings;
  }

  lemma {:induction false} ExpiredBases(s: State, config: Config, n: nat, now: nat)
    requires n <= |s.devices|
    ensures
      var u := ExpiredUpTo(s, config, n, now).devices;
      forall i :: 0 <= i < |u| ==> SameOwner(s.devices[i], u[i])
    decreases n
  {
    if n > 0 {
      ExpiredBases(s, config, n - 1, now);
    }
  }

  /** In every run, unregistering and resetting included, key bases are aligned. */
  lemma {:induction false} RunIsAligned(config: Config, events: seq<Event>)
    ensures Aligned(Run(config, events).devices)
    decreases |events|
  {
    if events != [] {
      var earlier := events[..|events| - 1];
      hide Aligned, Step;
      RunIsAligned(config, earlier);
      RunIsTidy(config, earlier);
      StepKeepsAligned(Run(config, earlier), config, events[|events| - 1]);
    }
  }

  const A: Mac := 10
  const B: Mac := 11
  const C: Mac := 12

  lemma RegisterAt(s: State, config: Config, mac: Mac, name: string, i: nat)
    requires i < |s.devices| && !s.devices[i].active && forall k :: 0 <= k < i ==> s.devices[k].active
    requires forall k :: 0 <= k < |s.devices| && s.devices[k].active ==> s.devices[k].mac != mac
    ensures
      var u := Step(s, config, Register(mac, name, 0));
      u.devices == s.devices[i := NewEntry(mac, name, 0, s.count)] && u.count == s.count + 1
  {
    assert FirstFree(s.devices) == i;
    assert FirstActive(s.devices, mac) == |s.devices|;
  }

  lemma UnregisterFirst(s: State, config: Config, mac: Mac)
    requires s.devices != [] && s.devices[0].active && s.devices[0].mac == mac
    ensures
      var u := Step(s, config, Unregister(mac));
      u.devices == s.devices[0 := EMPTY] && u.count == s.count - 1
  {
    assert FirstActive(s.devices, mac) == 0;
  }

  lemma FirstRegistered(config: Config, events: seq<Event>)
    requires |events| > 0 && events[0] == Register(A, "a", 0)
    ensures var s := Run(config, events[..1]); s.count == 1 && s.devices == Initial().devices[0 := NewEntry(A, "a", 0, 0)]
  {
    hide Step, Run, NewEntry;
    assert Run(config, events[..0]) == Initial() by { RunStart(config, events); }
    RunNext(config, events, 0);
    RegisterAt(Initial(), config, A, "a", 0);
  }

  lemma BothRegistered(config: Config, events: seq<Event>)
    requires |events| > 1 && events[0] == Register(A, "a", 0) && events[1] == Register(B, "b", 0)
    ensures
      var s := Run(config, events[..2]);
      s.count == 2 && s.devices == Initial().devices[0 := NewEntry(A, "a", 0, 0)][1 := NewEntry(B, "b", 0, 1)]
  {
    hide Step, Run;
    FirstRegistered(config, events);
    RunNext(config, events, 1);
    RegisterAt(Run(config, events[..1]), config, B, "b", 1);
  }

  lemma SecondAlone(config: Config, events: seq<Event>)
    requires |events| > 2 && events[0] == Register(A, "a", 0) && events[1] == Register(B, "b", 0) && events[2] == Unregister(A)
    ensures
      var s := Run(config, events[..3]);
      s.count == 1 && s.devices == Initial().devices[1 := NewEntry(B, "b", 0, 1)]
  {
    hide Step, Run;
    BothRegistered(config, events);
    RunNext(config, events, 2);
    UnregisterFirst(Run(config, events[..2]), config, A);
  }

  /** Two devices registered, the first unregistered, a third registered: it gets the keys of the second. */
  lemma UnregisterCollides(config: Config)
    ensures
      var events := [Register(A, "a", 0), Register(B, "b", 0), Unregister(A), Register(C, "c", 0)];
      var t := Run(config, events).devices;
      t[0].mac == C && t[1].mac == B && t[0].data.keyBase == t[1].data.keyBase && !KeysDisjoint(t)
  {
    var events := [Register(A, "a", 0), Register(B, "b", 0), Unregister(A), Register(C, "c", 0)];
    hide Step, KeysDisjoint, Run;
    SecondAlone(config, events);
    RunNext(config, events, 3);
    RegisterAt(Run(config, events[..3]), config, C, "c", 0);
    assert events[..4] == events;
    SameKeysMeet(Run(config, events).devices);
  }

  lemma RunStart(config: Config, events: seq<Event>)
    ensures Run(config, events[..0]) == Initial()
  {
  }

  lemma SameKeysMeet(t: seq<Entry>)
    requires |t| > 1 && t[0].active && t[1].active && t[0].data.keyBase == t[1].data.keyBase
    ensures !KeysDisjoint(t)
  {
    assert !Apart(t[0].data.keyBase, t[1].data.keyBase);
  }

  lemma RunNext(config: Config, events: seq<Event>, n: nat)
    requires n < |events|
    ensures Run(config, events[..n + 1]) == Step(Run(config, events[..n]), config, events[n])
  {
    assert events[..n + 1][..n] == events[..n];
  }
}
