/**
  Devices from clusters (`build_device_from_clusters` and `_chain_data_to_devices` of
  tools/zhaquirks_transpiler.py). The tables that give each cluster its converters and exposes
  are parameters.
 */
module QuirkDevices {
  import opened Wrappers
  import opened Json
  import opened Duplicates
  import opened QuirkChains

  type Table = map<nat, seq<Fields>>

  datatype Tables = Tables(fz: Table, tz: Table, expose: Table)

  /** `q` holds the bits that are set in the device's quirk flags. */
  datatype Device = Device(
    model: string, manufacturer: string, vendor: string,
    fz: seq<Fields>, tz: seq<Fields>, e: seq<Fields>,
    q: set<nat>, bind: seq<nat>, tuyaDp: map<string, Fields>, coverage: string)

  const ON_OFF := 6
  const LEVEL := 8
  const COLOR := 768
  const AQARA := 0xFCC0

  const QUIRK_TUYA := 16
  const QUIRK_XIAOMI := 32
  const QUIRK_SKIP_CONFIG := 512

  // ------------------------------------------------------------------ ascending order

  predicate IsLeast(clusters: set<nat>, least: nat) {
    least in clusters && forall c :: c in clusters ==> least <= c
  }

  lemma {:induction false} LeastExists(clusters: set<nat>)
    requires clusters != {}
    ensures exists least :: IsLeast(clusters, least)
    decreases |clusters|
  {
    var x :| x in clusters;
    if forall c :: c in clusters ==> x <= c {
      assert IsLeast(clusters, x);
    } else {
      var z :| z in clusters && z < x;
      assert z in clusters - {x};
      LeastExists(clusters - {x});
      var y :| IsLeast(clusters - {x}, y);
      assert forall c :: c in clusters <==> c in clusters - {x} || c == x;
      assert IsLeast(clusters, y);
    }
  }

  predicate IsAscending(xs: seq<nat>) {
    forall i, j :: 0 <= i < j < |xs| ==> xs[i] < xs[j]
  }

  function Ascending(clusters: set<nat>): (r: seq<nat>)
    ensures IsAscending(r)
    ensures forall c :: c in r <==> c in clusters
  {
    if clusters == {} then []
    else
      LeastExists(clusters);
      var least :| IsLeast(clusters, least);
      [least] + Ascending(clusters - {least})
  }

  /** There is only one way to list a set in ascending order. */
  lemma {:induction false} AscendingIsUnique(xs: seq<nat>, ys: seq<nat>)
    requires IsAscending(xs) && IsAscending(ys)
    requires forall c :: c in xs <==> c in ys
    ensures xs == ys
    decreases |xs|
  {
    if xs != [] {
      assert xs[0] in ys;
    }
    if ys != [] {
      assert ys[0] in xs;
    }
    if xs != [] && ys != [] {
      assert xs[0] == ys[0];
      forall c ensures c in xs[1..] <==> c in ys[1..] {
        assert c in xs[1..] <==> c in xs && c != xs[0];
        assert c in ys[1..] <==> c in ys && c != ys[0];
      }
      AscendingIsUnique(xs[1..], ys[1..]);
    }
  }

  // ------------------------------------------------------------------ one device

  function Row(table: Table, cluster: nat): seq<Fields> {
    if cluster in table then table[cluster] else []
  }

  /** The rows of the clusters that are not skipped. */
  function Collect(table: Table, clusters: seq<nat>, skip: set<nat>): seq<Fields> {
    if clusters == [] then []
    else
      var c := clusters[|clusters| - 1];
      Collect(table, clusters[..|clusters| - 1], skip) + if c in skip then [] else Row(table, c)
  }

  /** Clusters whose expose a light's expose stands for. */
  function Covered(clusters: set<nat>): set<nat> {
    (if LEVEL in clusters || COLOR in clusters then {ON_OFF} else {})
    + (if COLOR in clusters then {LEVEL} else {})
  }

  function Silent(clusters: set<nat>): set<nat> {
    UTILITY_CLUSTERS + Covered(clusters)
  }

  function Flags(clusters: set<nat>): set<nat> {
    (if TUYA_CLUSTER in clusters then {QUIRK_TUYA} else {}) + (if AQARA in clusters then {QUIRK_XIAOMI} else {})
  }

  /** The clusters to bind: those with a from-device converter that are not skipped. */
  function Bound(tables: Tables, clusters: set<nat>): set<nat> {
    set c | c in clusters && c !in Silent(clusters) && c in tables.fz
  }

  function Built(tables: Tables, model: (string, string), vendor: string, clusters: set<nat>, allowEmpty: bool): Option<Device> {
    var order := Ascending(clusters);
    var fz := Dedup(Collect(tables.fz, order, UTILITY_CLUSTERS), ConverterKey);
    var tz := Dedup(Collect(tables.tz, order, UTILITY_CLUSTERS), ConverterKey);
    var e := Dedup(Collect(tables.expose, order, Silent(clusters)), ExposeKey);
    if fz == [] && e == [] && !allowEmpty then None
    else Some(Device(model.1, model.0, vendor, fz, tz, e, Flags(clusters), Ascending(Bound(tables, clusters)), map[], "FULL_MATCH"))
  }

  function SetOf(clusters: seq<nat>): set<nat> {
    set c | c in clusters
  }

  lemma CollectNext(table: Table, clusters: seq<nat>, skip: set<nat>, i: nat)
    requires i < |clusters|
    ensures
      Collect(table, clusters[..i + 1], skip) ==
        Collect(table, clusters[..i], skip) + if clusters[i] in skip then [] else Row(table, clusters[i])
  {
    assert clusters[..i + 1][..i] == clusters[..i];
  }

  ghost predicate Gathered(tables: Tables, clusters: set<nat>, done: seq<nat>, fz: seq<Fields>, tz: seq<Fields>, e: seq<Fields>) {
    && fz == Collect(tables.fz, done, UTILITY_CLUSTERS)
    && tz == Collect(tables.tz, done, UTILITY_CLUSTERS)
    && e == Collect(tables.expose, done, Silent(clusters))
  }

  method BuildDevice(tables: Tables, model: (string, string), vendor: string, clusters: set<nat>, allowEmpty: bool)
    returns (device: Option<Device>)
    ensures device == Built(tables, model, vendor, clusters, allowEmpty)
  {
    hide Dedup, Ascending, Collect, Silent, Bound, SetOf;
    var hasLevel, hasColor := LEVEL in clusters, COLOR in clusters;
    var fz, tz, e, bind := GatherEntries(tables, clusters, hasLevel, hasColor);
    var flags: set<nat> := {};
    if TUYA_CLUSTER in clusters {
      flags := flags + {QUIRK_TUYA};
    }
    if AQARA in clusters {
      flags := flags + {QUIRK_XIAOMI};
    }
    assert flags == Flags(clusters);
    fz := Deduplicate(fz, ConverterKey);
    tz := Deduplicate(tz, ConverterKey);
    e := Deduplicate(e, ExposeKey);
    if fz == [] && e == [] && !allowEmpty {
      return None;
    }
    device := Some(Device(model.1, model.0, vendor, fz, tz, e, flags, Ascending(SetOf(bind)), map[], "FULL_MATCH"));
  }

  method GatherEntries(tables: Tables, clusters: set<nat>, hasLevel: bool, hasColor: bool)
    returns (fz: seq<Fields>, tz: seq<Fields>, e: seq<Fields>, bind: seq<nat>)
    requires hasLevel == (LEVEL in clusters) && hasColor == (COLOR in clusters)
    ensures Gathered(tables, clusters, Ascending(clusters), fz, tz, e)
    ensures SetOf(bind) == Bound(tables, clusters)
  {
    hide Ascending, Collect;
    fz, tz, e, bind := [], [], [], [];
    var order := Ascending(clusters);
    assert Collect(tables.fz, [], UTILITY_CLUSTERS) == [] by { Nothing(tables.fz, UTILITY_CLUSTERS); }
    assert Collect(tables.tz, [], UTILITY_CLUSTERS) == [] by { Nothing(tables.tz, UTILITY_CLUSTERS); }
    assert Collect(tables.expose, [], Silent(clusters)) == [] by { Nothing(tables.expose, Silent(clusters)); }
    for i := 0 to |order|
      invariant Gathered(tables, clusters, order[..i], fz, tz, e)
      invariant forall c :: c in bind <==> c in Bound(tables, clusters) && c in order[..i]
    {
      var cid := order[i];
      CollectNext(tables.fz, order, UTILITY_CLUSTERS, i);
      CollectNext(tables.tz, order, UTILITY_CLUSTERS, i);
      CollectNext(tables.expose, order, Silent(clusters), i);
      assert forall c :: c in order[..i + 1] <==> c in order[..i] || c == cid;
      if cid in UTILITY_CLUSTERS {
        continue;
      }
      fz := fz + Row(tables.fz, cid);
      tz := tz + Row(tables.tz, cid);
      if (cid == ON_OFF && (hasLevel || hasColor)) || (cid == LEVEL && hasColor) {
        continue;
      }
      e := e + Row(tables.expose, cid);
      if cid in tables.fz {
        bind := bind + [cid];
      }
    }
    assert order[..|order|] == order;
  }

  lemma Nothing(table: Table, skip: set<nat>)
    ensures Collect(table, [], skip) == []
  {
  }

  // ------------------------------------------------------------------ what a device offers

  /** A key is collected exactly when some cluster that is not skipped offers it. */
  lemma {:induction false} CollectedExactly(table: Table, clusters: seq<nat>, skip: set<nat>, keyOf: Fields -> Key, key: Key)
    ensures
      HasKey(Collect(table, clusters, skip), keyOf, key) <==>
        exists c :: c in clusters && c !in skip && HasKey(Row(table, c), keyOf, key)
    decreases |clusters|
  {
    if clusters != [] {
      var front, last := clusters[..|clusters| - 1], clusters[|clusters| - 1];
      CollectedExactly(table, front, skip, keyOf, key);
      var more := if last in skip then [] else Row(table, last);
      HasKeyAppend(Collect(table, front, skip), more, keyOf, key);
      assert forall c :: c in clusters <==> c in front || c == last;
    }
  }

  lemma HasKeyAppend(a: seq<Fields>, b: seq<Fields>, keyOf: Fields -> Key, key: Key)
    ensures HasKey(a + b, keyOf, key) <==> HasKey(a, keyOf, key) || HasKey(b, keyOf, key)
  {
    assert forall e :: e in a + b <==> e in a || e in b;
  }

  /** Which converters a device has, which exposes, and which clusters it binds. */
  lemma DeviceOffers(tables: Tables, model: (string, string), vendor: string, clusters: set<nat>, allowEmpty: bool, key: Key)
    requires Built(tables, model, vendor, clusters, allowEmpty).Some?
    ensures
      var d := Built(tables, model, vendor, clusters, allowEmpty).value;
      && (HasKey(d.fz, ConverterKey, key) <==>
            exists c :: c in clusters && c !in UTILITY_CLUSTERS && HasKey(Row(tables.fz, c), ConverterKey, key))
      && (HasKey(d.tz, ConverterKey, key) <==>
            exists c :: c in clusters && c !in UTILITY_CLUSTERS && HasKey(Row(tables.tz, c), ConverterKey, key))
      && (HasKey(d.e, ExposeKey, key) <==>
            exists c :: c in clusters && c !in Silent(clusters) && HasKey(Row(tables.expose, c), ExposeKey, key))
      && (forall c :: c in d.bind <==> c in clusters && c !in Silent(clusters) && c in tables.fz)
      && IsAscending(d.bind)
  {
    hide Dedup, ConverterKey, ExposeKey, Collect, HasKey, Row;
    var order := Ascending(clusters);
    CollectedExactly(tables.fz, order, UTILITY_CLUSTERS, ConverterKey, key);
    CollectedExactly(tables.tz, order, UTILITY_CLUSTERS, ConverterKey, key);
    CollectedExactly(tables.expose, order, Silent(clusters), ExposeKey, key);
  }

  /** Skipped clusters leave no trace in what is collected. */
  lemma {:induction false} CollectIgnores(table: Table, xs: seq<nat>, ys: seq<nat>, skip: set<nat>)
    requires IsAscending(xs) && IsAscending(ys)
    requires forall c :: c !in skip ==> (c in xs <==> c in ys)
    ensures Collect(table, xs, skip) == Collect(table, ys, skip)
    decreases |xs| + |ys|
  {
    if xs != [] && xs[|xs| - 1] in skip {
      DropLast(xs);
      CollectIgnores(table, xs[..|xs| - 1], ys, skip);
    } else if ys != [] && ys[|ys| - 1] in skip {
      DropLast(ys);
      CollectIgnores(table, xs, ys[..|ys| - 1], skip);
    } else if xs != [] || ys != [] {
      SameLast(xs, ys, skip);
      DropLast(xs);
      DropLast(ys);
      CollectIgnores(table, xs[..|xs| - 1], ys[..|ys| - 1], skip);
    }
  }

  lemma SameLast(xs: seq<nat>, ys: seq<nat>, skip: set<nat>)
    requires IsAscending(xs) && IsAscending(ys) && (xs != [] || ys != [])
    requires (xs != [] ==> xs[|xs| - 1] !in skip) && (ys != [] ==> ys[|ys| - 1] !in skip)
    requires forall c :: c !in skip ==> (c in xs <==> c in ys)
    ensures xs != [] && ys != [] && xs[|xs| - 1] == ys[|ys| - 1]
  {
    if xs != [] {
      assert xs[|xs| - 1] in ys;
    }
    if ys != [] {
      assert ys[|ys| - 1] in xs;
    }
  }

  lemma DropLast(xs: seq<nat>)
    requires xs != [] && IsAscending(xs)
    ensures IsAscending(xs[..|xs| - 1])
    ensures forall c :: c in xs[..|xs| - 1] <==> c in xs && c != xs[|xs| - 1]
  {
    assert xs == xs[..|xs| - 1] + [xs[|xs| - 1]];
  }

  /** Utility clusters do not matter: two cluster sets that differ only in them build the same device. */
  lemma UtilityIgnored(tables: Tables, model: (string, string), vendor: string, a: set<nat>, b: set<nat>, allowEmpty: bool)
    requires a - UTILITY_CLUSTERS == b - UTILITY_CLUSTERS
    ensures Built(tables, model, vendor, a, allowEmpty) == Built(tables, model, vendor, b, allowEmpty)
  {
    SameOutside(a, b);
    hide Dedup, Ascending, Collect;
    forall c | c !in UTILITY_CLUSTERS ensures c in a <==> c in b {
      assert c in a - UTILITY_CLUSTERS <==> c in b - UTILITY_CLUSTERS;
    }
    CollectIgnores(tables.fz, Ascending(a), Ascending(b), UTILITY_CLUSTERS);
    CollectIgnores(tables.tz, Ascending(a), Ascending(b), UTILITY_CLUSTERS);
    CollectIgnores(tables.expose, Ascending(a), Ascending(b), Silent(a));
    assert Bound(tables, a) == Bound(tables, b);
  }

  lemma SameOutside(a: set<nat>, b: set<nat>)
    requires a - UTILITY_CLUSTERS == b - UTILITY_CLUSTERS
    ensures Silent(a) == Silent(b) && Flags(a) == Flags(b)
  {
    forall c | c in {ON_OFF, LEVEL, COLOR, TUYA_CLUSTER, AQARA} ensures c in a <==> c in b {
      assert c in a - UTILITY_CLUSTERS <==> c in b - UTILITY_CLUSTERS;
    }
    assert ON_OFF in a <==> ON_OFF in b;
    assert LEVEL in a <==> LEVEL in b;
    assert COLOR in a <==> COLOR in b;
    assert TUYA_CLUSTER in a <==> TUYA_CLUSTER in b;
    assert AQARA in a <==> AQARA in b;
  }

  // ------------------------------------------------------------------ the devices of a chain

  /** The clusters a chain stands for; with none, they are guessed from what it removes. */
  function InputClusters(data: ChainData): set<nat> {
    var given := data.replaced + data.tuya + data.deviceType + data.entity
                 + (if data.isTuyaBuilder then {TUYA_CLUSTER} else {});
    if data.hasRemoves && given == {} then
      var gone := data.removed - UTILITY_CLUSTERS;
      (if COLOR in gone then {ON_OFF, LEVEL} else {}) + (if LEVEL in gone then {ON_OFF} else {})
    else given
  }

  predicate TriggersOnly(data: ChainData) {
    InputClusters(data) - UTILITY_CLUSTERS == {} && !data.hasEntityMethods
  }

  function SkipFlag(data: ChainData): set<nat> {
    if data.hasSkipConfig then {QUIRK_SKIP_CONFIG} else {}
  }

  function DeviceOf(tables: Tables, data: ChainData, vendor: string, model: (string, string)): seq<Device> {
    if TriggersOnly(data) then
      [Device(model.1, model.0, vendor, [], [], [], SkipFlag(data), [], map[], "V2_TRIGGERS_ONLY")]
    else
      var built := Built(tables, model, vendor, InputClusters(data), data.hasEntityMethods);
      if built.None? then []
      else [built.value.(q := built.value.q + SkipFlag(data), tuyaDp := data.tuyaDp, coverage := "V2_MATCH")]
  }

  /** A model's device is its own, with exactly the flags and datapoints that the chain calls for. */
  lemma DeviceFlags(tables: Tables, data: ChainData, vendor: string, model: (string, string), d: Device)
    requires d in DeviceOf(tables, data, vendor, model)
    ensures d.manufacturer == model.0 && d.model == model.1 && d.vendor == vendor
    ensures QUIRK_SKIP_CONFIG in d.q <==> data.hasSkipConfig
    ensures QUIRK_TUYA in d.q <==> TUYA_CLUSTER in InputClusters(data)
    ensures QUIRK_XIAOMI in d.q <==> AQARA in InputClusters(data)
    ensures d.tuyaDp == if TriggersOnly(data) then map[] else data.tuyaDp
  {
    hide Ascending, Collect, Dedup, Bound;
    var inputs := InputClusters(data);
    assert TUYA_CLUSTER in inputs - UTILITY_CLUSTERS <==> TUYA_CLUSTER in inputs;
    assert AQARA in inputs - UTILITY_CLUSTERS <==> AQARA in inputs;
  }

  /** The devices of a chain: those of its models, in order. */
  function DevicesOf(tables: Tables, data: ChainData, vendor: string, models: seq<(string, string)>): seq<Device> {
    if models == [] then []
    else DevicesOf(tables, data, vendor, models[..|models| - 1]) + DeviceOf(tables, data, vendor, models[|models| - 1])
  }

  lemma {:induction false} DevicesAppend(
    tables: Tables, data: ChainData, vendor: string, a: seq<(string, string)>, b: seq<(string, string)>)
    ensures DevicesOf(tables, data, vendor, a + b) == DevicesOf(tables, data, vendor, a) + DevicesOf(tables, data, vendor, b)
    decreases |b|
  {
    if b == [] {
      assert a + b == a;
    } else {
      assert (a + b)[..|a + b| - 1] == a + b[..|b| - 1];
      hide DeviceOf;
      DevicesAppend(tables, data, vendor, a, b[..|b| - 1]);
    }
  }

  lemma SameInputs(a: ChainData, b: ChainData)
    requires a.(models := [], isRegistered := false) == b.(models := [], isRegistered := false)
    ensures InputClusters(a) == InputClusters(b) && a.hasEntityMethods == b.hasEntityMethods
    ensures a.hasSkipConfig == b.hasSkipConfig && a.tuyaDp == b.tuyaDp
  {
    var plain := a.(models := [], isRegistered := false);
    assert InputClusters(a) == InputClusters(plain) == InputClusters(b);
  }

  /** A device depends on neither the models its chain names nor whether the chain registers. */
  lemma {:induction false} OnlyBehaviourMatters(
    tables: Tables, a: ChainData, b: ChainData, vendor: string, models: seq<(string, string)>)
    requires a.(models := [], isRegistered := false) == b.(models := [], isRegistered := false)
    ensures DevicesOf(tables, a, vendor, models) == DevicesOf(tables, b, vendor, models)
    decreases |models|
  {
    if models != [] {
      hide Built, InputClusters;
      OnlyBehaviourMatters(tables, a, b, vendor, models[..|models| - 1]);
      SameInputs(a, b);
    }
  }

  method ChainDataToDevices(tables: Tables, data: ChainData, vendor: string) returns (devices: seq<Device>)
    ensures devices == DevicesOf(tables, data, vendor, data.models)
  {
    hide Built;
    devices := [];
    var models := data.models;
    var inputs := GatherInputs(data);
    var functional := inputs - UTILITY_CLUSTERS;
    var triggersOnly := functional == {} && !data.hasEntityMethods;
    var flags: set<nat> := {};
    if data.hasSkipConfig {
      flags := flags + {QUIRK_SKIP_CONFIG};
    }
    assert flags == SkipFlag(data);
    for i := 0 to |models|
      invariant devices == DevicesOf(tables, data, vendor, models[..i])
    {
      assert models[..i + 1][..i] == models[..i];
      var model := models[i];
      if triggersOnly {
        devices := devices + [Device(model.1, model.0, vendor, [], [], [], flags, [], map[], "V2_TRIGGERS_ONLY")];
        continue;
      }
      var dev := BuildDevice(tables, model, vendor, inputs, data.hasEntityMethods);
      if dev.Some? {
        var d := dev.value.(q := dev.value.q + flags, coverage := "V2_MATCH");
        if data.tuyaDp != map[] {
          d := d.(tuyaDp := data.tuyaDp);
        }
        BuiltHasNoDatapoints(tables, model, vendor, inputs, data.hasEntityMethods);
        devices := devices + [d];
      }
    }
    assert models[..|models|] == models;
  }

  lemma BuiltHasNoDatapoints(tables: Tables, model: (string, string), vendor: string, clusters: set<nat>, allowEmpty: bool)
    ensures
      var built := Built(tables, model, vendor, clusters, allowEmpty);
      built.Some? ==> built.value.tuyaDp == map[]
  {
  }

  /** The chain replaces, adds or implies the cluster, or it is a Tuya builder's. */
  predicate Names(data: ChainData, c: nat) {
    || c in data.replaced || c in data.tuya || c in data.deviceType || c in data.entity
    || (data.isTuyaBuilder && c == TUYA_CLUSTER)
  }

  /** Removing colour control means a dimmable light, and removing level control a switch. */
  predicate Implied(data: ChainData, c: nat) {
    || (c == ON_OFF && (COLOR in data.removed || LEVEL in data.removed))
    || (c == LEVEL && COLOR in data.removed)
  }

  lemma InputsExactly(data: ChainData, c: nat)
    ensures
      c in InputClusters(data) <==>
        Names(data, c) || ((forall k: nat :: !Names(data, k)) && data.hasRemoves && Implied(data, c))
  {
    var given := data.replaced + data.tuya + data.deviceType + data.entity
                 + (if data.isTuyaBuilder then {TUYA_CLUSTER} else {});
    assert forall k: nat :: k in given <==> Names(data, k);
    assert COLOR !in UTILITY_CLUSTERS && LEVEL !in UTILITY_CLUSTERS;
    if given == {} {
      assert forall k: nat :: k !in given;
    } else {
      var k :| k in given;
    }
  }

  /**
   * A cluster is given exactly when the chain names it, or names none at all, removes
   * something and what it removes implies the cluster.
   */
  method GatherInputs(data: ChainData) returns (inputs: set<nat>)
    ensures
      forall c: nat :: c in inputs <==>
        Names(data, c) || ((forall k: nat :: !Names(data, k)) && data.hasRemoves && Implied(data, c))
    ensures inputs == InputClusters(data)
  {
    inputs := data.replaced + data.tuya + data.deviceType + data.entity;
    if data.isTuyaBuilder && TUYA_CLUSTER !in inputs {
      inputs := inputs + {TUYA_CLUSTER};
    }
    if data.hasRemoves && inputs == {} {
      var gone := data.removed - UTILITY_CLUSTERS;
      if COLOR in gone {
        inputs := inputs + {ON_OFF};
        inputs := inputs + {LEVEL};
      }
      if LEVEL in gone {
        inputs := inputs + {ON_OFF};
      }
    }
    forall c: nat ensures c in InputClusters(data) <==>
      Names(data, c) || ((forall k: nat :: !Names(data, k)) && data.hasRemoves && Implied(data, c))
    {
      InputsExactly(data, c);
    }
  }
}
