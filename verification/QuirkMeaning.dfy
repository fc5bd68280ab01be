/**
  What the calls of a quirk builder chain mean (`_extract_chain_data` of
  tools/zhaquirks_transpiler.py), told from their names and arguments.
 */
module QuirkMeaning {
  import opened Wrappers
  import opened Json
  import opened QuirkChains

  // ------------------------------------------------------------------ one call

  /** The call puts the cluster in: it names its class, or a Tuya method stands for it. */
  predicate PutsIn(c: Call, cluster: nat) {
    || (c.name in {"replaces", "adds", "replace_cluster_occurrences"}
        && c.args.positional >= 1 && c.args.clusterClass == Some(cluster))
    || ("tuya_" <= c.name && StandsFor(c.name[5..], cluster))
  }

  /** What follows `tuya_` in a method's name tells the standard cluster that it stands for. */
  predicate StandsFor(quantity: string, cluster: nat) {
    || (quantity in {"temperature", "soil_moisture"} && cluster == 1026)
    || (quantity == "humidity" && cluster == 1029)
    || (quantity == "illuminance" && cluster == 1024)
    || (quantity in {"battery", "battery_pct"} && cluster == 1)
    || (quantity in {"contact", "door", "smoke", "gas", "ias"} && cluster == 1280)
    || (quantity in {"occupancy", "motion"} && cluster == 1030)
    || (quantity in {"switch", "on_off", "onoff"} && cluster == 6)
    || (quantity in {"dimmer", "brightness"} && cluster == 8)
    || (quantity == "cover" && cluster == 258)
    || (quantity in {"thermostat", "trv"} && cluster == 513)
    || (quantity == "co2" && cluster == 1037)
    || (quantity == "pm25" && cluster == 1066)
    || (quantity in {"voc", "formaldehyde"} && cluster == 1070)
    || (quantity in {"metering", "energy", "power"} && cluster == 1794)
    || (quantity == "electrical_conductivity" && cluster == 2820)
  }

  /** The call takes the cluster out, by its first argument or else by keyword. */
  predicate TakesOut(c: Call, cluster: nat) {
    c.name == "removes" &&
    if c.args.positional >= 1 && c.args.clusterValue.Some? then c.args.clusterValue == Some(cluster)
    else c.args.clusterKeyword == Some(cluster)
  }

  predicate ImpliesByType(c: Call, cluster: nat) {
    c.name in {"replaces_endpoint", "adds_endpoint"} && c.args.deviceType.Some? && cluster in c.args.deviceType.value
  }

  predicate MakesEntity(c: Call) {
    c.name in {"sensor", "binary_sensor", "switch", "number", "enum", "write_attr_button", "command_button"}
  }

  /** The call is about an entity of the cluster; a switch without one is about On/Off. */
  predicate IsAbout(c: Call, cluster: nat) {
    || (MakesEntity(c) && c.args.clusterKeyword == Some(cluster))
    || (c.name == "switch" && c.args.clusterKeyword == None && cluster == 6)
    || (c.name in {"change_entity_metadata", "prevent_default_entity_creation"} && c.args.clusterKeyword == Some(cluster)
        && cluster !in {0, 3, 4, 5, 7, 9, 10, 25, 32, 33, 2821, 4096, 0xFC57})
  }

  predicate IsTuya(c: Call) {
    "tuya_" <= c.name
  }

  /** The call maps a datapoint to an entry. */
  predicate MapsPoint(c: Call, point: string) {
    IsTuya(c) && c.args.datapoint.Some? && c.args.datapoint.value.0 == point && point != "" && c.args.datapoint.value.1 != map[]
  }

  predicate Maps(c: Call, point: string, entry: Fields) {
    MapsPoint(c, point) && c.args.datapoint.value.1 == entry
  }

  predicate IsCalled(c: Call, name: string) {
    c.name == name
  }

  predicate NamesModel(c: Call, model: (string, string)) {
    && c.name in {"applies_to", "also_applies_to"} && c.args.positional >= 2
    && c.args.manufacturer == Some(model.0) && c.args.model == Some(model.1) && model.0 != "" && model.1 != ""
  }

  // ------------------------------------------------------------------ a chain

  /** The models that the calls name, in order. */
  predicate ListsModels(models: seq<(string, string)>, chain: seq<Call>)
    decreases |chain|
  {
    if chain == [] then models == []
    else if models != [] && NamesModel(chain[|chain| - 1], models[|models| - 1])
    then ListsModels(models[..|models| - 1], chain[..|chain| - 1])
    else NoModel(chain[|chain| - 1]) && ListsModels(models, chain[..|chain| - 1])
  }

  predicate NoModel(c: Call) {
    !(c.name in {"applies_to", "also_applies_to"} && c.args.positional >= 2
      && c.args.manufacturer.Some? && c.args.manufacturer.value != "" && c.args.model.Some? && c.args.model.value != "")
  }

  /** The last call that maps the datapoint gives this entry. */
  ghost predicate LastMaps(chain: seq<Call>, point: string, entry: Fields) {
    exists i :: 0 <= i < |chain| && Maps(chain[i], point, entry)
      && forall j :: i < j < |chain| ==> !MapsPoint(chain[j], point)
  }

  /** Clusters, flags, models and datapoints are just those that the calls give. */
  ghost predicate Means(data: ChainData, chain: seq<Call>) {
    && (forall x :: x in data.replaced <==> exists c :: c in chain && PutsIn(c, x))
    && (forall x :: x in data.removed <==> exists c :: c in chain && TakesOut(c, x))
    && (forall x :: x in data.deviceType <==> exists c :: c in chain && ImpliesByType(c, x))
    && (forall x :: x in data.entity <==> exists c :: c in chain && IsAbout(c, x))
    && data.tuya == (if exists c :: c in chain && IsTuya(c) then {0xEF00} else {})
    && (data.hasEntityMethods <==> exists c :: c in chain && MakesEntity(c))
    && (data.hasRemoves <==> exists c :: c in chain && IsCalled(c, "removes"))
    && (data.hasSkipConfig <==> exists c :: c in chain && IsCalled(c, "skip_configuration"))
    && (data.isRegistered <==> exists c :: c in chain && IsCalled(c, "add_to_registry"))
    && ListsModels(data.models, chain)
    && (forall k :: k in data.tuyaDp <==> exists c :: c in chain && MapsPoint(c, k))
    && (forall k :: k in data.tuyaDp ==> LastMaps(chain, k, data.tuyaDp[k]))
  }

  // ------------------------------------------------------------------ method names

  /** No other method has a name that starts like those of the Tuya ones. */
  lemma StartsLikeTuya(name: string)
    requires "tuya_" <= name
    ensures MethodOf(name) == Tuya(TuyaCluster(name[5..]))
  {
    hide TuyaCluster;
    assert name[0] == 't';
  }

  lemma TuyaNamesExactly(name: string)
    ensures MethodOf(name).Tuya? <==> "tuya_" <= name
    ensures MethodOf(name).Tuya? ==> MethodOf(name).cluster == TuyaCluster(name[5..])
  {
    hide TuyaCluster;
    if "tuya_" <= name {
      StartsLikeTuya(name);
    }
  }

  /** Every other method is called by just these names. */
  lemma NamesExactly(name: string)
    ensures MethodOf(name) == AppliesTo <==> name in {"applies_to", "also_applies_to"}
    ensures MethodOf(name) == Replaces <==> name in {"replaces", "adds", "replace_cluster_occurrences"}
    ensures MethodOf(name) == Removes <==> name == "removes"
    ensures MethodOf(name) == Endpoint <==> name in {"replaces_endpoint", "adds_endpoint"}
    ensures MethodOf(name) == Entity(Some(6)) <==> name == "switch"
    ensures MethodOf(name).Entity? <==>
      name in {"sensor", "binary_sensor", "switch", "number", "enum", "write_attr_button", "command_button"}
    ensures MethodOf(name).Entity? ==> MethodOf(name).default in {None, Some(6)}
    ensures MethodOf(name) == Metadata <==> name in {"change_entity_metadata", "prevent_default_entity_creation"}
    ensures MethodOf(name) == SkipConfiguration <==> name == "skip_configuration"
    ensures MethodOf(name) == AddToRegistry <==> name == "add_to_registry"
  {
    hide TuyaCluster;
  }

  lemma StandsForExactly(quantity: string, cluster: nat)
    ensures StandsFor(quantity, cluster) <==> TuyaCluster(quantity) == Some(cluster)
  {
  }

  // ------------------------------------------------------------------ what a call adds

  lemma EffectMeans(c: Call, x: nat)
    ensures x in Effect(c).replaced <==> PutsIn(c, x)
    ensures x in Effect(c).removed <==> TakesOut(c, x)
    ensures x in Effect(c).deviceType <==> ImpliesByType(c, x)
    ensures x in Effect(c).entity <==> IsAbout(c, x)
  {
    NamesExactly(c.name);
    TuyaNamesExactly(c.name);
    if "tuya_" <= c.name {
      StandsForExactly(c.name[5..], x);
    }
    hide MethodOf, TuyaCluster, StandsFor;
  }

  lemma EffectFlags(c: Call)
    ensures Effect(c).tuya == if IsTuya(c) then {0xEF00} else {}
    ensures Effect(c).hasEntityMethods <==> MakesEntity(c)
    ensures Effect(c).hasRemoves <==> IsCalled(c, "removes")
    ensures Effect(c).hasSkipConfig <==> IsCalled(c, "skip_configuration")
    ensures Effect(c).isRegistered <==> IsCalled(c, "add_to_registry")
  {
    NamesExactly(c.name);
    TuyaNamesExactly(c.name);
    hide MethodOf, TuyaCluster;
  }

  lemma EffectModels(c: Call)
    ensures |Effect(c).models| <= 1 && (Effect(c).models == [] <==> NoModel(c))
    ensures Effect(c).models != [] ==> NamesModel(c, Effect(c).models[0])
  {
    NamesExactly(c.name);
    TuyaNamesExactly(c.name);
    hide MethodOf, TuyaCluster;
  }

  // ------------------------------------------------------------------ what a chain means

  lemma InChain(chain: seq<Call>, c: Call)
    requires chain != []
    ensures c in chain <==> c in chain[..|chain| - 1] || c == chain[|chain| - 1]
  {
    assert chain == chain[..|chain| - 1] + [chain[|chain| - 1]];
  }

  lemma {:induction false} ClustersMean(chain: seq<Call>, x: nat)
    ensures x in Extract(chain).replaced <==> exists c :: c in chain && PutsIn(c, x)
    ensures x in Extract(chain).removed <==> exists c :: c in chain && TakesOut(c, x)
    ensures x in Extract(chain).deviceType <==> exists c :: c in chain && ImpliesByType(c, x)
    ensures x in Extract(chain).entity <==> exists c :: c in chain && IsAbout(c, x)
    decreases |chain|
  {
    if chain != [] {
      ClustersMean(chain[..|chain| - 1], x);
      EffectMeans(chain[|chain| - 1], x);
      hide PutsIn, TakesOut, ImpliesByType, IsAbout, Effect;
      forall c { InChain(chain, c); }
    }
  }

  lemma {:induction false} TuyaMeans(chain: seq<Call>)
    ensures Extract(chain).tuya == if exists c :: c in chain && IsTuya(c) then {0xEF00} else {}
    decreases |chain|
  {
    if chain != [] {
      TuyaMeans(chain[..|chain| - 1]);
      EffectFlags(chain[|chain| - 1]);
      hide IsTuya, MakesEntity, IsCalled, Effect;
      forall c { InChain(chain, c); }
    }
  }

  lemma {:induction false} FlagsMean(chain: seq<Call>)
    ensures Extract(chain).hasEntityMethods <==> exists c :: c in chain && MakesEntity(c)
    ensures Extract(chain).hasRemoves <==> exists c :: c in chain && IsCalled(c, "removes")
    ensures Extract(chain).hasSkipConfig <==> exists c :: c in chain && IsCalled(c, "skip_configuration")
    ensures Extract(chain).isRegistered <==> exists c :: c in chain && IsCalled(c, "add_to_registry")
    decreases |chain|
  {
    if chain != [] {
      FlagsMean(chain[..|chain| - 1]);
      EffectFlags(chain[|chain| - 1]);
      hide IsTuya, MakesEntity, IsCalled, Effect;
      forall c { InChain(chain, c); }
    }
  }

  lemma {:induction false} ModelsMean(chain: seq<Call>)
    ensures ListsModels(Extract(chain).models, chain)
    decreases |chain|
  {
    if chain != [] {
      var front, last := chain[..|chain| - 1], chain[|chain| - 1];
      ModelsMean(front);
      EffectModels(last);
      hide NamesModel, NoModel, Effect;
      var before, models := Extract(front).models, Extract(chain).models;
      if Effect(last).models != [] {
        assert models == before + [Effect(last).models[0]];
        assert models[..|models| - 1] == before;
      } else {
        assert models == before;
        if models != [] {
          NoneNamed(last, models[|models| - 1]);
        }
      }
    }
  }

  lemma NoneNamed(c: Call, model: (string, string))
    ensures NamesModel(c, model) ==> !NoModel(c)
  {
  }

  lemma EffectPoint(c: Call, k: string)
    ensures k in Effect(c).tuyaDp <==> MapsPoint(c, k)
    ensures k in Effect(c).tuyaDp ==> Maps(c, k, Effect(c).tuyaDp[k])
  {
    TuyaNamesExactly(c.name);
    hide MethodOf, TuyaCluster;
  }

  lemma {:induction false} PointsMean(chain: seq<Call>, k: string)
    ensures k in Extract(chain).tuyaDp <==> exists c :: c in chain && MapsPoint(c, k)
    ensures k in Extract(chain).tuyaDp ==> LastMaps(chain, k, Extract(chain).tuyaDp[k])
    decreases |chain|
  {
    if chain != [] {
      var n := |chain| - 1;
      var front, last := chain[..n], chain[n];
      PointsMean(front, k);
      EffectPoint(last, k);
      hide Maps, MapsPoint, Effect;
      forall c { InChain(chain, c); }
      var points := Extract(chain).tuyaDp;
      if k in Effect(last).tuyaDp {
        assert Maps(chain[n], k, points[k]);
      } else if k in Extract(front).tuyaDp {
        LastStillMaps(front, last, k, Extract(front).tuyaDp[k]);
        assert chain == front + [last];
      }
    }
  }

  lemma LastStillMaps(front: seq<Call>, last: Call, k: string, entry: Fields)
    requires LastMaps(front, k, entry) && !MapsPoint(last, k)
    ensures LastMaps(front + [last], k, entry)
  {
    hide Maps, MapsPoint;
    var all := front + [last];
    var i :| 0 <= i < |front| && Maps(front[i], k, entry) && forall j :: i < j < |front| ==> !MapsPoint(front[j], k);
    assert Maps(all[i], k, entry);
  }

  /** Reading a chain gives what its calls mean. */
  lemma ExtractMeans(chain: seq<Call>)
    ensures Means(Extract(chain), chain)
  {
    hide Extract, PutsIn, TakesOut, ImpliesByType, IsAbout, IsTuya, MakesEntity, ListsModels, MapsPoint, LastMaps, IsCalled;
    TuyaMeans(chain);
    FlagsMean(chain);
    ModelsMean(chain);
    forall x: nat
      ensures x in Extract(chain).replaced <==> exists c :: c in chain && PutsIn(c, x)
      ensures x in Extract(chain).removed <==> exists c :: c in chain && TakesOut(c, x)
      ensures x in Extract(chain).deviceType <==> exists c :: c in chain && ImpliesByType(c, x)
      ensures x in Extract(chain).entity <==> exists c :: c in chain && IsAbout(c, x)
    {
      ClustersMean(chain, x);
    }
    forall k
      ensures k in Extract(chain).tuyaDp <==> exists c :: c in chain && MapsPoint(c, k)
      ensures k in Extract(chain).tuyaDp ==> LastMaps(chain, k, Extract(chain).tuyaDp[k])
    {
      PointsMean(chain, k);
    }
  }
}
