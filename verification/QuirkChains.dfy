/**
  Quirk builder chains (`_extract_chain_data` and `_merge_chain_data` of
  tools/zhaquirks_transpiler.py).

  A call's arguments are given by what the transpiler resolves them to. Reading a chain is a
  fold, the fold is a homomorphism, and so compiling a clone by merging two partial results is
  compiling the two chains laid end to end.
 */
module QuirkChains {
  import opened Wrappers
  import opened Json

  /** What the transpiler makes of a call's arguments. */
  datatype Arguments = Arguments(
    positional: nat,                      // number of positional arguments
    manufacturer: Option<string>,         // first argument as a string
    model: Option<string>,                // second argument as a string
    manufacturerKeyword: Option<string>,  // keyword manufacturer as a string
    modelKeyword: Option<string>,         // keyword model as a string
    clusterClass: Option<nat>,            // id of the cluster class named by the first argument
    clusterValue: Option<nat>,            // id the first argument evaluates to
    clusterKeyword: Option<nat>,          // id given by the keyword cluster_id
    deviceType: Option<set<nat>>,         // clusters implied by a known device type
    datapoint: Option<(string, Fields)>)  // datapoint number and entry

  datatype Call = Call(name: string, args: Arguments)

  datatype ChainData = ChainData(
    models: seq<(string, string)>,
    replaced: set<nat>,
    removed: set<nat>,
    deviceType: set<nat>,
    entity: set<nat>,
    tuya: set<nat>,
    tuyaDp: map<string, Fields>,
    isRegistered: bool,
    hasSkipConfig: bool,
    hasEntityMethods: bool,
    hasRemoves: bool,
    isTuyaBuilder: bool)

  const EMPTY := ChainData([], {}, {}, {}, {}, {}, map[], false, false, false, false, false)

  const UTILITY_CLUSTERS: set<nat> := {0, 3, 4, 5, 7, 9, 10, 25, 32, 33, 2821, 4096, 0xFC57}

  const TUYA_CLUSTER := 0xEF00

  // ------------------------------------------------------------------ method names

  datatype Method =
    | AppliesTo
    | Replaces
    | Removes
    | Endpoint
    | Entity(default: Option<nat>)
    | Metadata
    | SkipConfiguration
    | AddToRegistry
    | Tuya(cluster: Option<nat>)
    | Ignored

  /** The standard cluster a `tuya_` method stands for. */
  function TuyaCluster(name: string): Option<nat> {
    if name in {"temperature", "soil_moisture"} then Some(1026)
    else if name == "humidity" then Some(1029)
    else if name == "illuminance" then Some(1024)
    else if name in {"battery", "battery_pct"} then Some(1)
    else if name in {"contact", "door"} then Some(1280)
    else if name in {"occupancy", "motion"} then Some(1030)
    else if name in {"smoke", "gas", "ias"} then Some(1280)
    else if name in {"switch", "on_off", "onoff"} then Some(6)
    else if name in {"dimmer", "brightness"} then Some(8)
    else if name == "cover" then Some(258)
    else if name in {"thermostat", "trv"} then Some(513)
    else if name == "co2" then Some(1037)
    else if name == "pm25" then Some(1066)
    else if name in {"voc", "formaldehyde"} then Some(1070)
    else if name in {"metering", "energy", "power"} then Some(1794)
    else if name == "electrical_conductivity" then Some(2820)
    else None
  }

  function MethodOf(name: string): Method {
    if name in {"applies_to", "also_applies_to"} then AppliesTo
    else if name in {"replaces", "adds", "replace_cluster_occurrences"} then Replaces
    else if name == "removes" then Removes
    else if name in {"replaces_endpoint", "adds_endpoint"} then Endpoint
    else if name == "switch" then Entity(Some(6))
    else if name in {"sensor", "binary_sensor", "number", "enum", "write_attr_button", "command_button"} then Entity(None)
    else if name in {"change_entity_metadata", "prevent_default_entity_creation"} then Metadata
    else if name == "skip_configuration" then SkipConfiguration
    else if name == "add_to_registry" then AddToRegistry
    else if "tuya_" <= name then Tuya(TuyaCluster(name[5..]))
    else Ignored
  }

  // ------------------------------------------------------------------ what a call contributes

  function One(cluster: Option<nat>): set<nat> {
    if cluster.Some? then {cluster.value} else {}
  }

  /** Two non-empty strings make a model. */
  function ModelOf(manufacturer: Option<string>, model: Option<string>): seq<(string, string)> {
    if manufacturer.Some? && model.Some? && manufacturer.value != "" && model.value != ""
    then [(manufacturer.value, model.value)] else []
  }

  function Effect(c: Call): ChainData {
    var a := c.args;
    match MethodOf(c.name)
    case AppliesTo => EMPTY.(models := if a.positional >= 2 then ModelOf(a.manufacturer, a.model) else [])
    case Replaces => EMPTY.(replaced := if a.positional >= 1 then One(a.clusterClass) else {})
    case Removes =>
      EMPTY.(hasRemoves := true,
             removed := One(Cluster(a)))
    case Endpoint => EMPTY.(deviceType := if a.deviceType.Some? then a.deviceType.value else {})
    case Entity(default) =>
      EMPTY.(hasEntityMethods := true, entity := One(if a.clusterKeyword.Some? then a.clusterKeyword else default))
    case Metadata => EMPTY.(entity := One(a.clusterKeyword) - UTILITY_CLUSTERS)
    case SkipConfiguration => EMPTY.(hasSkipConfig := true)
    case AddToRegistry => EMPTY.(isRegistered := true)
    case Tuya(cluster) =>
      EMPTY.(tuya := {TUYA_CLUSTER}, replaced := One(cluster),
             tuyaDp := if a.datapoint.Some? && a.datapoint.value.0 != "" && a.datapoint.value.1 != map[]
                       then map[a.datapoint.value.0 := a.datapoint.value.1] else map[])
    case Ignored => EMPTY
  }

  /** What two chains give when one follows the other; later datapoints override. */
  function Plus(a: ChainData, b: ChainData): ChainData {
    ChainData(
      a.models + b.models,
      a.replaced + b.replaced, a.removed + b.removed, a.deviceType + b.deviceType,
      a.entity + b.entity, a.tuya + b.tuya,
      a.tuyaDp + b.tuyaDp,
      a.isRegistered || b.isRegistered, a.hasSkipConfig || b.hasSkipConfig,
      a.hasEntityMethods || b.hasEntityMethods, a.hasRemoves || b.hasRemoves,
      a.isTuyaBuilder || b.isTuyaBuilder)
  }

  /** The data of a chain: every call's contribution, in order. */
  function Extract(chain: seq<Call>): ChainData {
    if chain == [] then EMPTY else Plus(Extract(chain[..|chain| - 1]), Effect(chain[|chain| - 1]))
  }

  function Cluster(a: Arguments): Option<nat> {
    if a.positional >= 1 && a.clusterValue.Some? then a.clusterValue else a.clusterKeyword
  }

  /** Empty parts add nothing. */
  lemma Neutral(d: ChainData)
    ensures d.models + [] == d.models && [] + d.models == d.models
    ensures d.replaced + {} == d.replaced && d.removed + {} == d.removed && d.deviceType + {} == d.deviceType
    ensures d.entity + {} == d.entity && d.tuya + {} == d.tuya
    ensures {} + d.replaced == d.replaced && {} + d.removed == d.removed && {} + d.deviceType == d.deviceType
    ensures {} + d.entity == d.entity && {} + d.tuya == d.tuya
    ensures d.tuyaDp + map[] == d.tuyaDp && map[] + d.tuyaDp == d.tuyaDp
  {
  }

  // ------------------------------------------------------------------ the loop

  method ExtractChainData(chain: seq<Call>) returns (data: ChainData)
    ensures data == Extract(chain)
  {
    hide Effect, Plus;
    data := EMPTY;
    for i := 0 to |chain|
      invariant data == Extract(chain[..i])
    {
      assert chain[..i + 1][..i] == chain[..i];
      data := ApplyCall(data, chain[i]);
    }
    assert chain[..|chain|] == chain;
  }

  /** The loop's body: one branch per method name, each updating the data in place. */
  method ApplyCall(before: ChainData, call: Call) returns (data: ChainData)
    ensures data == Plus(before, Effect(call))
  {
    hide MethodOf, TuyaCluster;
    Neutral(before);
    data := before;
    var a := call.args;
    match MethodOf(call.name)
    case AppliesTo =>
      if a.positional >= 2 && a.manufacturer.Some? && a.model.Some?
         && a.manufacturer.value != "" && a.model.value != "" {
        data := data.(models := data.models + [(a.manufacturer.value, a.model.value)]);
      }
    case Replaces => data := ApplyCluster(data, call);
    case Removes => data := ApplyCluster(data, call);
    case Endpoint => data := ApplyCluster(data, call);
    case Entity(_) => data := ApplyEntity(data, call);
    case Metadata => data := ApplyEntity(data, call);
    case SkipConfiguration => data := data.(hasSkipConfig := true);
    case AddToRegistry => data := data.(isRegistered := true);
    case Tuya(_) => data := ApplyTuya(data, call);
    case Ignored =>
  }

  lemma AddParts(d: ChainData, e: ChainData)
    requires e.models == [] && !e.isRegistered && !e.hasSkipConfig && !e.isTuyaBuilder
    requires e.tuya == {} && e.tuyaDp == map[]
    ensures
      Plus(d, e) ==
        d.(replaced := d.replaced + e.replaced, removed := d.removed + e.removed,
           deviceType := d.deviceType + e.deviceType, entity := d.entity + e.entity,
           hasEntityMethods := d.hasEntityMethods || e.hasEntityMethods, hasRemoves := d.hasRemoves || e.hasRemoves)
  {
    assert d.models + [] == d.models && d.tuya + {} == d.tuya && d.tuyaDp + map[] == d.tuyaDp;
  }

  method ApplyCluster(before: ChainData, call: Call) returns (data: ChainData)
    requires MethodOf(call.name) in {Replaces, Removes, Endpoint}
    ensures data == Plus(before, Effect(call))
  {
    hide MethodOf, TuyaCluster, Plus, AddCluster, One;
    AddParts(before, Effect(call));
    NoCluster(before);
    data := before;
    var a := call.args;
    match MethodOf(call.name)
    case Replaces =>
      if a.positional >= 1 {
        data := data.(replaced := AddCluster(data.replaced, a.clusterClass));
      }
    case Removes =>
      data := data.(hasRemoves := true);
      var cid: Option<nat> := None;
      if a.positional >= 1 {
        cid := a.clusterValue;
      }
      if cid.None? {
        cid := a.clusterKeyword;
      }
      data := data.(removed := AddCluster(data.removed, cid));
    case Endpoint =>
      if a.deviceType.Some? {
        data := data.(deviceType := data.deviceType + a.deviceType.value);
      }
  }

  lemma NoCluster(d: ChainData)
    ensures d.replaced + {} == d.replaced && d.removed + {} == d.removed
    ensures d.deviceType + {} == d.deviceType && d.entity + {} == d.entity
  {
  }

  /** `add`, if there is a cluster to add. */
  function AddCluster(clusters: set<nat>, cluster: Option<nat>): (r: set<nat>)
    ensures r == clusters + One(cluster)
  {
    if cluster.Some? then clusters + {cluster.value} else clusters
  }

  method ApplyEntity(before: ChainData, call: Call) returns (data: ChainData)
    requires MethodOf(call.name).Entity? || MethodOf(call.name).Metadata?
    ensures data == Plus(before, Effect(call))
  {
    hide MethodOf, TuyaCluster, Plus, AddCluster, One;
    AddParts(before, Effect(call));
    NoCluster(before);
    data := before;
    var a := call.args;
    match MethodOf(call.name)
    case Entity(default) =>
      data := data.(hasEntityMethods := true);
      if a.clusterKeyword.Some? {
        data := data.(entity := AddCluster(data.entity, a.clusterKeyword));
      } else {
        data := data.(entity := AddCluster(data.entity, default));
      }
    case Metadata =>
      UsefulCluster(a.clusterKeyword);
      if a.clusterKeyword.Some? && a.clusterKeyword.value !in UTILITY_CLUSTERS {
        data := data.(entity := AddCluster(data.entity, a.clusterKeyword));
      }
  }

  lemma UsefulCluster(cluster: Option<nat>)
    ensures
      One(cluster) - UTILITY_CLUSTERS ==
        if cluster.Some? && cluster.value !in UTILITY_CLUSTERS then One(cluster) else {}
  {
  }

  lemma AddTuya(d: ChainData, cluster: Option<nat>, points: map<string, Fields>)
    ensures
      Plus(d, EMPTY.(tuya := {TUYA_CLUSTER}, replaced := One(cluster), tuyaDp := points)) ==
        d.(tuya := d.tuya + {TUYA_CLUSTER}, replaced := d.replaced + One(cluster), tuyaDp := d.tuyaDp + points)
  {
    hide One;
    NoCluster(d);
    assert d.models + [] == d.models;
  }

  lemma PutIsPlus(m: map<string, Fields>, k: string, v: Fields)
    ensures m[k := v] == m + map[k := v]
    ensures m + map[] == m
  {
  }

  method ApplyTuya(before: ChainData, call: Call) returns (data: ChainData)
    requires MethodOf(call.name).Tuya?
    ensures data == Plus(before, Effect(call))
  {
    hide MethodOf, TuyaCluster, AddCluster, One, Plus;
    data := before.(tuya := before.tuya + {TUYA_CLUSTER});
    var a := call.args;
    var cluster := MethodOf(call.name).cluster;
    var point := if a.datapoint.Some? then a.datapoint.value else ("", map[]);
    PutIsPlus(before.tuyaDp, point.0, point.1);
    if point.0 != "" && point.1 != map[] {
      data := data.(tuyaDp := data.tuyaDp[point.0 := point.1]);
      AddTuya(before, cluster, map[point.0 := point.1]);
    } else {
      AddTuya(before, cluster, map[]);
    }
    data := data.(replaced := AddCluster(data.replaced, cluster));
  }

  // ------------------------------------------------------------------ merging is concatenation

  lemma SetsAssociative(a: ChainData, b: ChainData, c: ChainData)
    ensures a.replaced + b.replaced + c.replaced == a.replaced + (b.replaced + c.replaced)
    ensures a.removed + b.removed + c.removed == a.removed + (b.removed + c.removed)
    ensures a.deviceType + b.deviceType + c.deviceType == a.deviceType + (b.deviceType + c.deviceType)
    ensures a.entity + b.entity + c.entity == a.entity + (b.entity + c.entity)
    ensures a.tuya + b.tuya + c.tuya == a.tuya + (b.tuya + c.tuya)
  {
  }

  lemma PlusAssociative(a: ChainData, b: ChainData, c: ChainData)
    ensures Plus(Plus(a, b), c) == Plus(a, Plus(b, c))
    ensures Plus(a, EMPTY) == a && Plus(EMPTY, a) == a
  {
    Neutral(a);
    SetsAssociative(a, b, c);
    assert a.models + b.models + c.models == a.models + (b.models + c.models);
    assert a.tuyaDp + b.tuyaDp + c.tuyaDp == a.tuyaDp + (b.tuyaDp + c.tuyaDp);
  }

  /** Reading two chains end to end is adding up what each gives. */
  lemma {:induction false} ExtractAppend(base: seq<Call>, clone: seq<Call>)
    ensures Extract(base + clone) == Plus(Extract(base), Extract(clone))
    decreases |clone|
  {
    if clone == [] {
      assert base + clone == base;
      PlusAssociative(Extract(base), EMPTY, EMPTY);
    } else {
      var front, last := clone[..|clone| - 1], clone[|clone| - 1];
      assert (base + clone)[..|base + clone| - 1] == base + front;
      ExtractAppend(base, front);
      PlusAssociative(Extract(base), Extract(front), Effect(last));
    }
  }

  function MergeChainData(base: ChainData, clone: ChainData): ChainData {
    ChainData(
      clone.models,
      base.replaced + clone.replaced, base.removed + clone.removed, base.deviceType + clone.deviceType,
      base.entity + clone.entity, base.tuya + clone.tuya,
      base.tuyaDp + clone.tuyaDp,
      clone.isRegistered,
      base.hasSkipConfig || clone.hasSkipConfig, base.hasEntityMethods || clone.hasEntityMethods,
      base.hasRemoves || clone.hasRemoves, base.isTuyaBuilder || clone.isTuyaBuilder)
  }

  /** Merging a base with a clone differs from reading the two chains as one only in models and registration. */
  lemma MergeIsConcatenation(base: seq<Call>, clone: seq<Call>)
    ensures
      MergeChainData(Extract(base), Extract(clone)) ==
        Extract(base + clone).(models := Extract(clone).models, isRegistered := Extract(clone).isRegistered)
  {
    ExtractAppend(base, clone);
  }

  /** They agree altogether exactly when the base names no model and registers only if the clone does. */
  lemma MergeAgreesExactly(base: seq<Call>, clone: seq<Call>)
    ensures
      MergeChainData(Extract(base), Extract(clone)) == Extract(base + clone) <==>
        Extract(base).models == [] && (Extract(base).isRegistered ==> Extract(clone).isRegistered)
  {
    ExtractAppend(base, clone);
    var b, c := Extract(base).models, Extract(clone).models;
    if b + c == c {
      assert |b| == 0;
    }
  }
}
