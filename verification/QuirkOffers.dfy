/**
  What the devices of a quirk are made of (tools/zhaquirks_transpiler.py), from the calls of its
  chain to the rows of the cluster tables.
 */
module QuirkOffers {
  import opened Wrappers
  import opened Json
  import opened Duplicates
  import opened QuirkChains
  import opened QuirkMeaning
  import opened QuirkDevices
  import P = QuirkProgram

  // ------------------------------------------------------------------ the entries of a device

  predicate Offers(table: Table, c: nat, keyOf: Fields -> Key, key: Key) {
    c in table && HasKey(table[c], keyOf, key)
  }

  /** The least of some clusters with an entry under the key. */
  ghost predicate OffersFirst(table: Table, from: set<nat>, c: nat, keyOf: Fields -> Key, key: Key) {
    c in from && Offers(table, c, keyOf, key) && forall b :: b in from && b < c ==> !Offers(table, b, keyOf, key)
  }

  /** Under every key there is the first entry of the least cluster that has one, and just one. */
  ghost predicate ComeFrom(entries: seq<Fields>, table: Table, from: set<nat>, keyOf: Fields -> Key) {
    && (forall key :: HasKey(entries, keyOf, key) <==> exists c :: c in from && Offers(table, c, keyOf, key))
    && (forall key, c :: OffersFirst(table, from, c, keyOf, key) ==> First(entries, keyOf, key) == First(table[c], keyOf, key))
    && (forall i, j :: 0 <= i < j < |entries| ==> keyOf(entries[i]) != keyOf(entries[j]))
  }

  /** A cluster that says more than that the device is there. */
  predicate IsFunctional(c: nat) {
    c !in {0, 3, 4, 5, 7, 9, 10, 25, 32, 33, 2821, 4096, 0xFC57}
  }

  /** On/Off is silent beside level or colour control, and level control beside colour control. */
  predicate Speaks(clusters: set<nat>, c: nat) {
    IsFunctional(c) && !(c == 6 && (8 in clusters || 768 in clusters)) && !(c == 8 && 768 in clusters)
  }

  lemma SpeaksExactly(clusters: set<nat>, c: nat)
    ensures Speaks(clusters, c) <==> c !in Silent(clusters)
    ensures IsFunctional(c) <==> c !in UTILITY_CLUSTERS
  {
  }

  lemma RowOffers(table: Table, c: nat, keyOf: Fields -> Key, key: Key)
    ensures Offers(table, c, keyOf, key) <==> HasKey(Row(table, c), keyOf, key)
  {
  }

  lemma {:induction false} FirstCollected(table: Table, clusters: seq<nat>, skip: set<nat>, c: nat, keyOf: Fields -> Key, key: Key)
    requires IsAscending(clusters) && c in clusters && c !in skip && HasKey(Row(table, c), keyOf, key)
    requires forall b :: b in clusters && b < c && b !in skip ==> !HasKey(Row(table, b), keyOf, key)
    ensures First(Collect(table, clusters, skip), keyOf, key) == First(Row(table, c), keyOf, key)
    decreases |clusters|
  {
    var front, last := clusters[..|clusters| - 1], clusters[|clusters| - 1];
    var more := if last in skip then [] else Row(table, last);
    DropLast(clusters);
    CollectedExactly(table, front, skip, keyOf, key);
    FirstAppend(Collect(table, front, skip), more, keyOf, key);
    hide HasKey, Row, First;
    if c != last {
      FirstCollected(table, front, skip, c, keyOf, key);
    } else {
      assert forall b :: b in front ==> b < c;
    }
  }

  lemma CollectedComeFrom(table: Table, clusters: set<nat>, skip: set<nat>, from: set<nat>, keyOf: Fields -> Key)
    requires forall c :: c in from <==> c in clusters && c !in skip
    ensures ComeFrom(Dedup(Collect(table, Ascending(clusters), skip), keyOf), table, from, keyOf)
  {
    var collected := Collect(table, Ascending(clusters), skip);
    hide Dedup, Collect, Ascending, HasKey, Row, First, Offers;
    forall c, key ensures Offers(table, c, keyOf, key) <==> HasKey(Row(table, c), keyOf, key) {
      RowOffers(table, c, keyOf, key);
    }
    forall key
      ensures HasKey(Dedup(collected, keyOf), keyOf, key) <==> exists c :: c in from && Offers(table, c, keyOf, key)
    {
      CollectedExactly(table, Ascending(clusters), skip, keyOf, key);
    }
    forall key, c | OffersFirst(table, from, c, keyOf, key)
      ensures c in table && First(Dedup(collected, keyOf), keyOf, key) == First(table[c], keyOf, key)
    {
      FirstWins(collected, keyOf, key);
      FirstCollected(table, Ascending(clusters), skip, c, keyOf, key);
      RowIs(table, c, keyOf, key);
    }
  }

  lemma RowIs(table: Table, c: nat, keyOf: Fields -> Key, key: Key)
    requires Offers(table, c, keyOf, key)
    ensures c in table && Row(table, c) == table[c]
  {
  }

  // ------------------------------------------------------------------ the clusters of a chain

  /** The calls name the cluster, or it is the Tuya cluster of a Tuya builder or method. */
  ghost predicate IsGiven(calls: seq<Call>, tuyaBuilder: bool, x: nat) {
    || (exists c :: c in calls && PutsIn(c, x))
    || (exists c :: c in calls && ImpliesByType(c, x))
    || (exists c :: c in calls && IsAbout(c, x))
    || (x == 0xEF00 && (tuyaBuilder || exists c :: c in calls && IsTuya(c)))
  }

  /** Taking out colour control tells of a dimmable light, and taking out level control of a switch. */
  ghost predicate IsGuessed(calls: seq<Call>, x: nat) {
    || (x in {6, 8} && exists c :: c in calls && TakesOut(c, 768))
    || (x == 6 && exists c :: c in calls && TakesOut(c, 8))
  }

  ghost predicate IsInput(calls: seq<Call>, tuyaBuilder: bool, x: nat) {
    IsGiven(calls, tuyaBuilder, x) || ((forall y: nat :: !IsGiven(calls, tuyaBuilder, y)) && IsGuessed(calls, x))
  }

  /** What the chain reader knows of the calls of a builder. */
  function Read(calls: seq<Call>, tuyaBuilder: bool): ChainData {
    Extract(calls).(isTuyaBuilder := tuyaBuilder)
  }

  lemma NamesMeans(calls: seq<Call>, tuyaBuilder: bool, x: nat)
    ensures Names(Read(calls, tuyaBuilder), x) <==> IsGiven(calls, tuyaBuilder, x)
  {
    ClustersMean(calls, x);
    TuyaMeans(calls);
    hide Extract, PutsIn, ImpliesByType, IsAbout, TakesOut;
  }

  lemma RemovesMeans(calls: seq<Call>, x: nat)
    ensures x in Extract(calls).removed <==> exists c :: c in calls && TakesOut(c, x)
    ensures x in Extract(calls).removed ==> Extract(calls).hasRemoves
  {
    ClustersMean(calls, x);
    FlagsMean(calls);
    hide Extract, PutsIn, ImpliesByType, IsAbout;
    if c :| c in calls && TakesOut(c, x) {
      assert IsCalled(c, "removes");
    }
  }

  lemma InputsMean(calls: seq<Call>, tuyaBuilder: bool, x: nat)
    ensures x in InputClusters(Read(calls, tuyaBuilder)) <==> IsInput(calls, tuyaBuilder, x)
  {
    var data := Read(calls, tuyaBuilder);
    InputsExactly(data, x);
    RemovesMeans(calls, 768);
    RemovesMeans(calls, 8);
    forall y: nat ensures Names(data, y) <==> IsGiven(calls, tuyaBuilder, y) {
      NamesMeans(calls, tuyaBuilder, y);
    }
    hide Extract, IsGiven, Names, InputClusters, TakesOut;
  }

  // ------------------------------------------------------------------ the device of a model

  ghost predicate AreInputs(inputs: set<nat>, calls: seq<Call>, tuyaBuilder: bool) {
    forall x: nat :: x in inputs <==> IsInput(calls, tuyaBuilder, x)
  }

  function Functional(inputs: set<nat>): set<nat> {
    set c | c in inputs && IsFunctional(c)
  }

  function Speaking(inputs: set<nat>): set<nat> {
    set c | c in inputs && Speaks(inputs, c)
  }

  /** Tuya, Xiaomi, and not to be configured. */
  ghost predicate HasFlags(flags: set<nat>, calls: seq<Call>, inputs: set<nat>) {
    forall flag :: flag in flags <==>
      || (flag == 16 && 0xEF00 in inputs) || (flag == 32 && 0xFCC0 in inputs)
      || (flag == 512 && exists c :: c in calls && IsCalled(c, "skip_configuration"))
  }

  /** Every datapoint that a call maps, as the last such call does. */
  ghost predicate HasPoints(points: map<string, Fields>, calls: seq<Call>) {
    && (forall k :: k in points <==> exists c :: c in calls && MapsPoint(c, k))
    && (forall k :: k in points ==> LastMaps(calls, k, points[k]))
  }

  /** The flags, entries, bindings and datapoints of a device. */
  ghost predicate Fits(d: Device, tables: Tables, calls: seq<Call>, inputs: set<nat>, vendor: string, model: (string, string)) {
    && d.manufacturer == model.0 && d.model == model.1 && d.vendor == vendor
    && HasFlags(d.q, calls, inputs) && HasPoints(d.tuyaDp, calls)
    && ComeFrom(d.fz, tables.fz, Functional(inputs), ConverterKey)
    && ComeFrom(d.tz, tables.tz, Functional(inputs), ConverterKey)
    && ComeFrom(d.e, tables.expose, Speaking(inputs), ExposeKey)
    && (forall c :: c in d.bind <==> c in Speaking(inputs) && c in tables.fz) && IsAscending(d.bind)
  }

  /** There is nothing to say of it: no entity is asked for and no cluster has a converter or an expose. */
  ghost predicate IsSilent(tables: Tables, calls: seq<Call>, inputs: set<nat>) {
    && Functional(inputs) != {}
    && !(exists c :: c in calls && MakesEntity(c))
    && (forall c, key :: c in Functional(inputs) ==> !Offers(tables.fz, c, ConverterKey, key))
    && (forall c, key :: c in Speaking(inputs) ==> !Offers(tables.expose, c, ExposeKey, key))
  }

  lemma BuiltFits(tables: Tables, model: (string, string), vendor: string, clusters: set<nat>, allowEmpty: bool)
    ensures
      var built := Built(tables, model, vendor, clusters, allowEmpty);
      built.Some? ==>
        var d := built.value;
        && d.manufacturer == model.0 && d.model == model.1 && d.vendor == vendor && d.q == Flags(clusters)
        && ComeFrom(d.fz, tables.fz, Functional(clusters), ConverterKey)
        && ComeFrom(d.tz, tables.tz, Functional(clusters), ConverterKey)
        && ComeFrom(d.e, tables.expose, Speaking(clusters), ExposeKey)
        && (forall c :: c in d.bind <==> c in Speaking(clusters) && c in tables.fz) && IsAscending(d.bind)
  {
    forall c: nat
      ensures Speaks(clusters, c) <==> c !in Silent(clusters)
      ensures IsFunctional(c) <==> c !in UTILITY_CLUSTERS
    {
      SpeaksExactly(clusters, c);
    }
    hide Dedup, Collect, Ascending, Silent, ComeFrom, Speaks, IsFunctional, Flags;
    CollectedComeFrom(tables.fz, clusters, UTILITY_CLUSTERS, Functional(clusters), ConverterKey);
    CollectedComeFrom(tables.tz, clusters, UTILITY_CLUSTERS, Functional(clusters), ConverterKey);
    CollectedComeFrom(tables.expose, clusters, Silent(clusters), Speaking(clusters), ExposeKey);
  }

  lemma NoEntries(entries: seq<Fields>, table: Table, from: set<nat>, keyOf: Fields -> Key)
    requires ComeFrom(entries, table, from, keyOf)
    ensures entries == [] <==> forall c, key :: c in from ==> !Offers(table, c, keyOf, key)
  {
    if entries != [] {
      assert entries[0] in entries;
      assert HasKey(entries, keyOf, keyOf(entries[0]));
    } else {
      forall c, key | c in from ensures !Offers(table, c, keyOf, key) {
        assert !HasKey(entries, keyOf, key);
      }
    }
  }

  lemma BuiltExactly(tables: Tables, model: (string, string), vendor: string, clusters: set<nat>, allowEmpty: bool)
    ensures
      Built(tables, model, vendor, clusters, allowEmpty).None? <==>
        && !allowEmpty
        && (forall c, key :: c in Functional(clusters) ==> !Offers(tables.fz, c, ConverterKey, key))
        && (forall c, key :: c in Speaking(clusters) ==> !Offers(tables.expose, c, ExposeKey, key))
  {
    BuiltFits(tables, model, vendor, clusters, true);
    var d := Built(tables, model, vendor, clusters, true).value;
    NoEntries(d.fz, tables.fz, Functional(clusters), ConverterKey);
    NoEntries(d.e, tables.expose, Speaking(clusters), ExposeKey);
    hide Dedup, Collect, Ascending, Silent, ComeFrom, Speaks, IsFunctional, Flags, Offers, ConverterKey, ExposeKey;
  }

  lemma FlagsExactly(clusters: set<nat>, flag: nat)
    ensures flag in Flags(clusters) <==> (flag == 16 && 0xEF00 in clusters) || (flag == 32 && 0xFCC0 in clusters)
    ensures IsFunctional(0xEF00) && IsFunctional(0xFCC0)
  {
  }

  /** With nothing functional there is nothing to collect. */
  lemma NothingComesFrom(table: Table, keyOf: Fields -> Key)
    ensures ComeFrom([], table, {}, keyOf)
  {
  }

  lemma NothingSpeaks(clusters: set<nat>)
    requires Functional(clusters) == {}
    ensures Speaking(clusters) == {} && 0xEF00 !in clusters && 0xFCC0 !in clusters
  {
    hide IsFunctional;
    forall c | c in clusters ensures IsFunctional(c) ==> c in Functional(clusters) {
    }
    FlagsExactly(clusters, 0);
  }

  lemma PointIsGiven(calls: seq<Call>, tuyaBuilder: bool, k: string)
    ensures (exists c :: c in calls && MapsPoint(c, k)) ==> IsGiven(calls, tuyaBuilder, 0xEF00)
  {
    hide PutsIn, ImpliesByType, IsAbout;
    if c :| c in calls && MapsPoint(c, k) {
      assert IsTuya(c);
    }
  }

  /** With no functional cluster there is no Tuya call either. */
  lemma NoPoints(calls: seq<Call>, tuyaBuilder: bool)
    requires Functional(InputClusters(Read(calls, tuyaBuilder))) == {}
    ensures HasPoints(map[], calls)
  {
    NothingSpeaks(InputClusters(Read(calls, tuyaBuilder)));
    InputsMean(calls, tuyaBuilder, 0xEF00);
    hide IsGiven, Extract, InputClusters, MapsPoint;
    var none: map<string, Fields> := map[];
    forall k: string ensures k in none <==> exists c :: c in calls && MapsPoint(c, k) {
      PointIsGiven(calls, tuyaBuilder, k);
    }
  }

  lemma PointsFit(calls: seq<Call>)
    ensures HasPoints(Extract(calls).tuyaDp, calls)
  {
    hide Extract, MapsPoint, LastMaps;
    forall k: string
      ensures k in Extract(calls).tuyaDp <==> exists c :: c in calls && MapsPoint(c, k)
      ensures k in Extract(calls).tuyaDp ==> LastMaps(calls, k, Extract(calls).tuyaDp[k])
    {
      PointsMean(calls, k);
    }
  }

  lemma FlagsFit(calls: seq<Call>, tuyaBuilder: bool, inputs: set<nat>)
    ensures HasFlags(Flags(inputs) + SkipFlag(Read(calls, tuyaBuilder)), calls, inputs)
    ensures 0xEF00 !in inputs && 0xFCC0 !in inputs ==> HasFlags(SkipFlag(Read(calls, tuyaBuilder)), calls, inputs)
  {
    hide Extract, Flags, SkipFlag, IsCalled;
    forall flag: nat
      ensures
        flag in Flags(inputs) <==> (flag == 16 && 0xEF00 in inputs) || (flag == 32 && 0xFCC0 in inputs)
      ensures
        flag in SkipFlag(Read(calls, tuyaBuilder)) <==>
          flag == 512 && exists c :: c in calls && IsCalled(c, "skip_configuration")
    {
      SkipMeans(calls, tuyaBuilder, flag);
      FlagsExactly(inputs, flag);
    }
  }

  lemma SkipMeans(calls: seq<Call>, tuyaBuilder: bool, flag: nat)
    ensures
      flag in SkipFlag(Read(calls, tuyaBuilder)) <==>
        flag == 512 && exists c :: c in calls && IsCalled(c, "skip_configuration")
    ensures Read(calls, tuyaBuilder).hasEntityMethods <==> exists c :: c in calls && MakesEntity(c)
  {
    FlagsMean(calls);
    hide Extract, IsCalled, MakesEntity;
  }

  /**
    A model has one device or none: none exactly if there is nothing to say of it. Its device has
    just the flags, converters, exposes, bindings and datapoints that the calls call for.
   */
  lemma DeviceMeans(tables: Tables, calls: seq<Call>, tuyaBuilder: bool, vendor: string, model: (string, string), inputs: set<nat>)
    requires AreInputs(inputs, calls, tuyaBuilder)
    ensures
      var devices := DeviceOf(tables, Read(calls, tuyaBuilder), vendor, model);
      && |devices| == (if IsSilent(tables, calls, inputs) then 0 else 1)
      && (devices != [] ==> Fits(devices[0], tables, calls, inputs, vendor, model))
  {
    var data := Read(calls, tuyaBuilder);
    forall x: nat ensures x in InputClusters(data) <==> x in inputs {
      InputsMean(calls, tuyaBuilder, x);
    }
    assert InputClusters(data) == inputs;
    assert inputs - UTILITY_CLUSTERS == Functional(inputs) by {
      forall c: nat ensures IsFunctional(c) <==> c !in UTILITY_CLUSTERS {
        SpeaksExactly(inputs, c);
      }
      hide IsFunctional, UTILITY_CLUSTERS;
    }
    SkipMeans(calls, tuyaBuilder, 512);
    if TriggersOnly(data) {
      TriggersFit(tables, calls, tuyaBuilder, vendor, model, inputs);
    } else {
      BuiltExactly(tables, model, vendor, inputs, data.hasEntityMethods);
      if Built(tables, model, vendor, inputs, data.hasEntityMethods).Some? {
        MatchFits(tables, calls, tuyaBuilder, vendor, model, inputs);
      }
    }
    hide Extract, InputClusters, Built, Functional, Speaking, IsInput, AreInputs, Offers, ConverterKey, ExposeKey, Fits, MakesEntity;
  }

  lemma TriggersFit(tables: Tables, calls: seq<Call>, tuyaBuilder: bool, vendor: string, model: (string, string), inputs: set<nat>)
    requires InputClusters(Read(calls, tuyaBuilder)) == inputs && Functional(inputs) == {}
    ensures
      Fits(Device(model.1, model.0, vendor, [], [], [], SkipFlag(Read(calls, tuyaBuilder)), [], map[], "V2_TRIGGERS_ONLY"),
           tables, calls, inputs, vendor, model)
  {
    NothingSpeaks(inputs);
    NoPoints(calls, tuyaBuilder);
    FlagsFit(calls, tuyaBuilder, inputs);
    NothingComesFrom(tables.fz, ConverterKey);
    NothingComesFrom(tables.tz, ConverterKey);
    NothingComesFrom(tables.expose, ExposeKey);
    hide Extract, InputClusters, Functional, Speaking, ComeFrom, SkipFlag, HasFlags, HasPoints;
  }

  lemma MatchFits(tables: Tables, calls: seq<Call>, tuyaBuilder: bool, vendor: string, model: (string, string), inputs: set<nat>)
    requires InputClusters(Read(calls, tuyaBuilder)) == inputs
    requires Built(tables, model, vendor, inputs, Read(calls, tuyaBuilder).hasEntityMethods).Some?
    ensures
      var data := Read(calls, tuyaBuilder);
      var d := Built(tables, model, vendor, inputs, data.hasEntityMethods).value;
      Fits(d.(q := d.q + SkipFlag(data), tuyaDp := data.tuyaDp, coverage := "V2_MATCH"), tables, calls, inputs, vendor, model)
  {
    var data := Read(calls, tuyaBuilder);
    BuiltFits(tables, model, vendor, inputs, data.hasEntityMethods);
    PointsFit(calls);
    FlagsFit(calls, tuyaBuilder, inputs);
    hide Extract, InputClusters, Built, Functional, Speaking, ComeFrom, SkipFlag, Flags, HasFlags, HasPoints;
  }

  // ------------------------------------------------------------------ a registered builder chain

  /** A builder's own arguments name a model: by position if they are strings, or else by keyword. */
  predicate RootNames(a: Arguments, model: (string, string)) {
    && model.0 != "" && model.1 != ""
    && (if a.positional >= 2 && a.manufacturer.Some? then a.manufacturer else a.manufacturerKeyword) == Some(model.0)
    && (if a.positional >= 2 && a.model.Some? then a.model else a.modelKeyword) == Some(model.1)
  }

  /** A builder chain that registers gives the devices of the model its root names and of those its calls name, in order. */
  lemma BuilderMeans(tables: Tables, vendor: string, bases: map<string, P.Node>, node: P.Node) returns (
    own: seq<(string, string)>, named: seq<(string, string)>)
    requires P.IsBuilder(node)
    ensures |own| <= 1 && forall model :: model in own <==> RootNames(P.Chain(node)[0].args, model)
    ensures ListsModels(named, P.Following(node))
    ensures
      P.StatementDevices(tables, vendor, bases, P.Expression(node)) ==
        if exists c :: c in P.Following(node) && IsCalled(c, "add_to_registry")
        then DevicesOf(tables, Read(P.Following(node), P.CallName(P.Chain(node)[0]) == Some("TuyaQuirkBuilder")), vendor, own + named)
        else []
  {
    var calls, data := P.Following(node), P.DirectData(node);
    own, named := P.RootModel(P.Chain(node)[0]), Extract(calls).models;
    ModelsMean(calls);
    FlagsMean(calls);
    var read := Read(calls, P.IsTuya(node));
    OnlyBehaviourMatters(tables, data, read, vendor, own + named);
    hide Extract, DevicesOf, IsCalled;
  }
}
