/**
  Merging the two converter databases (`merge_device` and `merge_sources` of
  tools/merge_converter_dbs.py).

  Python dictionaries and sets are iterated here in an arbitrary order. The result is shown not
  to depend on it.
 */
module MergeSources {
  import opened Wrappers
  import opened Json
  import opened DeepMerge
  import opened Duplicates
  import opened Ordering
  import opened Text

  /** The fields the merge reads; all the others are in `other`. */
  datatype Device = Device(
    mf: Option<string>,
    m: string,
    pri: Option<int>,
    src: Option<string>,
    quirks: Option<Fields>,
    fz: Option<seq<Fields>>,
    tz: Option<seq<Fields>>,
    other: Fields)

  /** Devices by normalised manufacturer, as `load_source` files them. */
  type Source = map<string, seq<Device>>

  /** Normalised manufacturer and model. */
  type DeviceKey = (string, string)

  // ------------------------------------------------------------------ keys

  function Strip(s: string): string
    decreases |s|
  {
    if s == "" then s
    else if IsSpace(s[0]) then Strip(s[1..])
    else if IsSpace(s[|s| - 1]) then Strip(s[..|s| - 1])
    else s
  }

  function Lower(s: string): string {
    seq(|s|, i requires 0 <= i < |s| => if 'A' <= s[i] <= 'Z' then s[i] - 'A' + 'a' else s[i])
  }

  function Normalize(mf: string): string {
    Lower(Strip(mf))
  }

  predicate AllSpace(s: string) {
    forall c :: c in s ==> IsSpace(c)
  }

  /** White space around a text is stripped, and nothing else. */
  lemma {:induction false} StripsAround(before: string, core: string, after: string)
    requires AllSpace(before) && AllSpace(after)
    requires core != "" ==> !IsSpace(core[0]) && !IsSpace(core[|core| - 1])
    ensures Strip(before + core + after) == core
    decreases |before| + |after|
  {
    hide IsSpace;
    var all := before + core + after;
    if before != "" {
      assert all[0] == before[0] && all[1..] == before[1..] + core + after;
      StripsAround(before[1..], core, after);
    } else if core == "" && after != "" {
      assert all == after && all[1..] == before + core + after[1..];
      StripsAround(before, core, after[1..]);
    } else if after != "" {
      assert all[0] == core[0] && all[|all| - 1] == after[|after| - 1];
      assert all[..|all| - 1] == before + core + after[..|after| - 1];
      StripsAround(before, core, after[..|after| - 1]);
    } else {
      assert all == core;
    }
  }

  /** The same character, or one ASCII letter in both cases. */
  predicate SameLetter(a: char, b: char) {
    || a == b
    || ('A' <= a <= 'Z' && b as int == a as int + 32)
    || ('A' <= b <= 'Z' && a as int == b as int + 32)
  }

  /** Two names normalise alike exactly when they differ in case and outer white space at most. */
  lemma NormalizeExactly(a: string, b: string)
    ensures
      Normalize(a) == Normalize(b) <==>
        && |Strip(a)| == |Strip(b)|
        && forall i :: 0 <= i < |Strip(a)| ==> SameLetter(Strip(a)[i], Strip(b)[i])
  {
    hide Strip;
    LowerExactly(Strip(a), Strip(b));
  }

  lemma LowerExactly(s: string, t: string)
    ensures Lower(s) == Lower(t) <==> |s| == |t| && forall i :: 0 <= i < |s| ==> SameLetter(s[i], t[i])
  {
    hide SameLetter;
    assert |Lower(s)| == |s| && |Lower(t)| == |t|;
    if |s| == |t| {
      forall i | 0 <= i < |s| ensures Lower(s)[i] == Lower(t)[i] <==> SameLetter(s[i], t[i]) {
        LetterExactly(s[i], t[i]);
      }
    }
  }

  lemma LetterExactly(a: char, b: char)
    ensures
      (if 'A' <= a <= 'Z' then a - 'A' + 'a' else a) == (if 'A' <= b <= 'Z' then b - 'A' + 'a' else b) <==> SameLetter(a, b)
  {
  }

  function KeyOf(d: Device): DeviceKey {
    (Normalize(if d.mf.Some? then d.mf.value else ""), Strip(d.m))
  }

  /** Every device is filed under its own normalised manufacturer, and no list is empty. */
  predicate WellLoaded(source: Source) {
    forall norm :: norm in source ==>
      source[norm] != [] && forall d :: d in source[norm] ==> KeyOf(d).0 == norm
  }

  /** The devices with a model that belong to one manufacturer, in order. */
  function Filed(devices: seq<Device>, norm: string): (r: seq<Device>)
    ensures forall d :: d in r <==> d in devices && d.m != "" && KeyOf(d).0 == norm
  {
    if devices == [] then []
    else
      var front, d := Filed(devices[..|devices| - 1], norm), devices[|devices| - 1];
      assert devices == devices[..|devices| - 1] + [d];
      if d.m != "" && KeyOf(d).0 == norm then front + [d] else front
  }

  /** Every manufacturer with a device is there, with its devices in order. */
  ghost predicate Loads(source: Source, devices: seq<Device>) {
    && (forall norm :: norm in source <==> Filed(devices, norm) != [])
    && (forall norm :: norm in source ==> source[norm] == Filed(devices, norm))
  }

  lemma FiledNext(devices: seq<Device>, i: nat, norm: string)
    requires i < |devices|
    ensures
      Filed(devices[..i + 1], norm) ==
        Filed(devices[..i], norm) + if devices[i].m != "" && KeyOf(devices[i]).0 == norm then [devices[i]] else []
  {
    assert devices[..i + 1][..i] == devices[..i];
  }

  lemma LoadNext(source: Source, devices: seq<Device>, i: nat)
    requires i < |devices| && Loads(source, devices[..i])
    ensures
      var norm := KeyOf(devices[i]).0;
      Loads(if devices[i].m == "" then source else source[norm := (if norm in source then source[norm] else []) + [devices[i]]],
            devices[..i + 1])
  {
    hide Filed, KeyOf;
    forall norm
      ensures
        Filed(devices[..i + 1], norm) ==
          Filed(devices[..i], norm) + if devices[i].m != "" && KeyOf(devices[i]).0 == norm then [devices[i]] else []
    {
      FiledNext(devices, i, norm);
    }
  }

  /** The filing loop of `load_source`, over the devices of all files in the order they are read. */
  method LoadSource(devices: seq<Device>) returns (source: Source)
    ensures WellLoaded(source)
    ensures Loads(source, devices)
  {
    hide KeyOf;
    source := map[];
    for i := 0 to |devices|
      invariant Loads(source, devices[..i])
    {
      LoadNext(source, devices, i);
      var dev := devices[i];
      if dev.m == "" {
        continue;
      }
      var normMf := KeyOf(dev).0;
      source := source[normMf := (if normMf in source then source[normMf] else []) + [dev]];
    }
    assert devices[..|devices|] == devices;
  }

  // ------------------------------------------------------------------ merging two devices

  function OrElse<T>(o: Option<T>, default: T): T {
    if o.Some? then o.value else default
  }

  function MergeEntries(base: Option<seq<Fields>>, extra: Option<seq<Fields>>): Option<seq<Fields>> {
    if OrElse(extra, []) != [] then Some(Dedup(OrElse(base, []) + extra.value, ConverterKey))
    else if base.Some? then base
    else extra
  }

  function MergeDevice(z2m: Device, zhq: Device): Device {
    Device(
      if z2m.mf.Some? then z2m.mf else zhq.mf,
      z2m.m,
      Some(1),
      Some("merged"),
      if OrElse(zhq.quirks, map[]) != map[] then Some(Merge(OrElse(z2m.quirks, map[]), zhq.quirks.value))
      else if z2m.quirks.Some? then z2m.quirks
      else zhq.quirks,
      MergeEntries(z2m.fz, zhq.fz),
      MergeEntries(z2m.tz, zhq.tz),
      (map k | k in zhq.other && !("_" <= k) :: zhq.other[k]) + z2m.other)
  }

  // ------------------------------------------------------------------ where everything of a merged device comes from

  /** At a path that both trees share, zhaquirks' value wins unless both are objects; what one has alone is there. */
  predicate WinsAt(merged: Json, z2m: Json, zhq: Json, path: seq<string>) {
    match (Lookup(z2m, path), Lookup(zhq, path))
    case (Some(a), Some(b)) =>
      var m := Lookup(merged, path);
      m.Some? && if a.Obj? && b.Obj? then m.value.Obj? && m.value.fields.Keys == a.fields.Keys + b.fields.Keys else m.value == b
    case (a, None) => Lookup(merged, path) == a
    case (None, b) => Lookup(merged, path) == b
  }

  ghost predicate QuirksMerged(merged: Option<Fields>, z2m: Option<Fields>, zhq: Option<Fields>) {
    var m, a, b := Obj(OrElse(merged, map[])), Obj(OrElse(z2m, map[])), Obj(OrElse(zhq, map[]));
    && (merged.Some? <==> z2m.Some? || zhq.Some?)
    && (b.fields == map[] && z2m.Some? ==> merged == z2m)
    && forall path :: Shared(a, b, path) ==> WinsAt(m, a, b, path)
  }

  /** Under every key the entry is z2m's first, or else zhaquirks' first; keys come in the order of their first entries, once each. */
  ghost predicate EntriesMerged(merged: Option<seq<Fields>>, z2m: Option<seq<Fields>>, zhq: Option<seq<Fields>>) {
    var m, a, b := OrElse(merged, []), OrElse(z2m, []), OrElse(zhq, []);
    && (merged.Some? <==> z2m.Some? || zhq.Some?)
    && (b == [] && z2m.Some? ==> merged == z2m)
    && (forall key ::
          First(m, ConverterKey, key) ==
            if HasKey(a, ConverterKey, key) then First(a, ConverterKey, key) else First(b, ConverterKey, key))
    && (b != [] ==> InOrder(m, a + b, ConverterKey))
  }

  /** Every other field is z2m's if it has it, or else zhaquirks' unless it is private. */
  predicate FieldMerged(merged: Fields, z2m: Fields, zhq: Fields, k: string) {
    Found(merged, k) == if k in z2m then Some(z2m[k]) else if k in zhq && !("_" <= k) then Some(zhq[k]) else None
  }

  function Found(fields: Fields, k: string): Option<Json> {
    if k in fields then Some(fields[k]) else None
  }

  /** What the merge of a device of each source is. */
  ghost predicate IsMerged(merged: Device, z2m: Device, zhq: Device) {
    && merged.m == z2m.m
    && merged.mf == (if z2m.mf.Some? then z2m.mf else zhq.mf)
    && merged.pri == Some(1) && merged.src == Some("merged")
    && QuirksMerged(merged.quirks, z2m.quirks, zhq.quirks)
    && EntriesMerged(merged.fz, z2m.fz, zhq.fz)
    && EntriesMerged(merged.tz, z2m.tz, zhq.tz)
    && forall k :: FieldMerged(merged.other, z2m.other, zhq.other, k)
  }

  lemma QuirksAreMerged(z2m: Option<Fields>, zhq: Option<Fields>)
    ensures
      QuirksMerged(
        if OrElse(zhq, map[]) != map[] then Some(Merge(OrElse(z2m, map[]), zhq.value)) else if z2m.Some? then z2m else zhq,
        z2m, zhq)
  {
    var a, b := OrElse(z2m, map[]), OrElse(zhq, map[]);
    EmptyIsIdentity(a);
    assert MergeJson(Obj(a), Obj(b)) == Obj(Merge(a, b));
    forall path | Shared(Obj(a), Obj(b), path) ensures WinsAt(Obj(Merge(a, b)), Obj(a), Obj(b), path) {
      MergeAtPath(Obj(a), Obj(b), path);
    }
  }

  lemma EntriesAreMerged(z2m: Option<seq<Fields>>, zhq: Option<seq<Fields>>)
    ensures EntriesMerged(MergeEntries(z2m, zhq), z2m, zhq)
  {
    forall key
      ensures
        var a, b := OrElse(z2m, []), OrElse(zhq, []);
        First(OrElse(MergeEntries(z2m, zhq), []), ConverterKey, key) ==
          if HasKey(a, ConverterKey, key) then First(a, ConverterKey, key) else First(b, ConverterKey, key)
    {
      MergedEntries(z2m, zhq, key);
    }
    if OrElse(zhq, []) != [] {
      DedupInOrder(OrElse(z2m, []) + zhq.value, ConverterKey);
    }
  }

  /** A merged device is zhaquirks' quirks and converters laid over or behind z2m's, and z2m's device otherwise. */
  lemma MergedExactly(z2m: Device, zhq: Device)
    ensures IsMerged(MergeDevice(z2m, zhq), z2m, zhq)
  {
    hide QuirksMerged, EntriesMerged, MergeEntries, Merge;
    QuirksAreMerged(z2m.quirks, zhq.quirks);
    EntriesAreMerged(z2m.fz, zhq.fz);
    EntriesAreMerged(z2m.tz, zhq.tz);
  }

  /** `merge_device`: a copy of the z2m device, changed step by step. */
  method MergeTwo(z2m: Device, zhq: Device) returns (merged: Device)
    ensures merged == MergeDevice(z2m, zhq)
    ensures IsMerged(merged, z2m, zhq)
  {
    hide Merge, Dedup, IsMerged;
    MergedExactly(z2m, zhq);
    merged := z2m.(pri := Some(1), src := Some("merged"));
    var quirks := OrElse(zhq.quirks, map[]);
    if quirks != map[] {
      merged := merged.(quirks := Some(Merge(OrElse(merged.quirks, map[]), quirks)));
    } else if merged.quirks.None? {
      merged := merged.(quirks := zhq.quirks);
    }
    var fz := AppendEntries(merged.fz, zhq.fz);
    var tz := AppendEntries(merged.tz, zhq.tz);
    merged := merged.(fz := fz, tz := tz);
    if merged.mf.None? {
      merged := merged.(mf := zhq.mf);
    }
    FillIn(z2m.other, zhq.other);
    var missing := map k | k in zhq.other && k !in z2m.other && !("_" <= k) :: zhq.other[k];
    merged := merged.(other := missing + z2m.other);
  }

  /** Filling in what is missing is laying what is there over all there is to fill in. */
  lemma FillIn(own: Fields, extra: Fields)
    ensures
      (map k | k in extra && k !in own && !("_" <= k) :: extra[k]) + own ==
        (map k | k in extra && !("_" <= k) :: extra[k]) + own
  {
  }

  /** Further entries are appended and duplicates removed; with none of its own, a device takes the other's list as it is. */
  method AppendEntries(base: Option<seq<Fields>>, extra: Option<seq<Fields>>) returns (entries: Option<seq<Fields>>)
    ensures entries == MergeEntries(base, extra)
  {
    if OrElse(extra, []) != [] {
      var combined := Deduplicate(OrElse(base, []) + extra.value, ConverterKey);
      return Some(combined);
    }
    return if base.Some? then base else extra;
  }

  /** Under every converter key the merged list has the z2m list's first entry, or else zhaquirks' first. */
  lemma MergedEntries(base: Option<seq<Fields>>, extra: Option<seq<Fields>>, key: Key)
    ensures
      var b, e := OrElse(base, []), OrElse(extra, []);
      First(OrElse(MergeEntries(base, extra), []), ConverterKey, key) ==
        if HasKey(b, ConverterKey, key) then First(b, ConverterKey, key) else First(e, ConverterKey, key)
  {
    var b, e := OrElse(base, []), OrElse(extra, []);
    if e != [] {
      FirstWins(b + e, ConverterKey, key);
    }
    FirstAppend(b, e, ConverterKey, key);
  }

  /** Merging keeps the key of two devices that share it. */
  lemma MergedKey(z2m: Device, zhq: Device)
    requires KeyOf(z2m) == KeyOf(zhq)
    ensures KeyOf(MergeDevice(z2m, zhq)) == KeyOf(z2m)
  {
    assert Lower(Strip("")) == "";
  }

  // ------------------------------------------------------------------ what the merge must give

  /** The last of `devices` with the given model, the one a lookup table ends up with. */
  function LastWith(devices: seq<Device>, model: string): Option<Device> {
    if devices == [] then None
    else if Strip(devices[|devices| - 1].m) == model then Some(devices[|devices| - 1])
    else LastWith(devices[..|devices| - 1], model)
  }

  function Find(source: Source, key: DeviceKey): Option<Device> {
    if key.0 in source then LastWith(source[key.0], key.1) else None
  }

  function Keys(source: Source): set<DeviceKey> {
    set norm, d | norm in source && d in source[norm] :: (norm, Strip(d.m))
  }

  lemma {:induction false} LastWithFinds(devices: seq<Device>, model: string)
    ensures LastWith(devices, model).Some? <==> exists d :: d in devices && Strip(d.m) == model
    ensures LastWith(devices, model).Some? ==>
      LastWith(devices, model).value in devices && Strip(LastWith(devices, model).value.m) == model
    decreases |devices|
  {
    if devices != [] {
      var front, d := devices[..|devices| - 1], devices[|devices| - 1];
      LastWithFinds(front, model);
      assert devices == front + [d];
    }
  }

  lemma FindExactly(source: Source, key: DeviceKey)
    requires WellLoaded(source)
    ensures Find(source, key).Some? <==> key in Keys(source)
    ensures Find(source, key).Some? ==> KeyOf(Find(source, key).value) == key
  {
    if key.0 in source {
      LastWithFinds(source[key.0], key.1);
    }
  }

  /** The device the merge makes of one key. */
  function Result(z2m: Source, zhq: Source, key: DeviceKey): Device
    requires WellLoaded(z2m) && WellLoaded(zhq) && key in Keys(z2m) + Keys(zhq)
  {
    FindExactly(z2m, key);
    FindExactly(zhq, key);
    if key in Keys(z2m) && key in Keys(zhq) then MergeDevice(Find(z2m, key).value, Find(zhq, key).value)
    else if key in Keys(z2m) then Find(z2m, key).value
    else Find(zhq, key).value
  }

  predicate IsLastAt(devices: seq<Device>, model: string, i: nat) {
    && i < |devices| && Strip(devices[i].m) == model
    && forall j :: i < j < |devices| ==> Strip(devices[j].m) != model
  }

  /** The last device of a source with the key. */
  ghost predicate IsLast(source: Source, key: DeviceKey, d: Device) {
    key.0 in source && exists i: nat :: IsLastAt(source[key.0], key.1, i) && source[key.0][i] == d
  }

  lemma {:induction false} LastWithIsLast(devices: seq<Device>, model: string) returns (i: nat)
    requires LastWith(devices, model).Some?
    ensures IsLastAt(devices, model, i) && devices[i] == LastWith(devices, model).value
    decreases |devices|
  {
    hide Strip;
    var n := |devices| - 1;
    if Strip(devices[n].m) == model {
      return n;
    }
    i := LastWithIsLast(devices[..n], model);
  }

  lemma FoundIsLast(source: Source, key: DeviceKey)
    requires Find(source, key).Some?
    ensures IsLast(source, key, Find(source, key).value)
  {
    hide IsLastAt, LastWith;
    var i := LastWithIsLast(source[key.0], key.1);
  }

  /** Where the output device of a key comes from. */
  ghost predicate ComesFrom(d: Device, z2m: Source, zhq: Source, key: DeviceKey) {
    if key in Keys(z2m) && key in Keys(zhq) then exists a, b :: IsLast(z2m, key, a) && IsLast(zhq, key, b) && IsMerged(d, a, b)
    else IsLast(if key in Keys(z2m) then z2m else zhq, key, d)
  }

  lemma BothAreMerged(z2m: Source, zhq: Source, key: DeviceKey)
    requires WellLoaded(z2m) && WellLoaded(zhq) && key in Keys(z2m) && key in Keys(zhq)
    ensures ComesFrom(Result(z2m, zhq, key), z2m, zhq, key)
  {
    FindExactly(z2m, key);
    FindExactly(zhq, key);
    hide Keys, WellLoaded, IsMerged, IsLast, Find, MergeDevice, KeyOf;
    var a, b := Find(z2m, key).value, Find(zhq, key).value;
    FoundIsLast(z2m, key);
    FoundIsLast(zhq, key);
    MergedExactly(a, b);
    assert IsLast(z2m, key, a) && IsLast(zhq, key, b) && IsMerged(Result(z2m, zhq, key), a, b);
  }

  /** The output device of a key is the merge of both sources' last devices with it, or the only source's last one. */
  lemma ResultIsMerged(z2m: Source, zhq: Source, key: DeviceKey)
    requires WellLoaded(z2m) && WellLoaded(zhq) && key in Keys(z2m) + Keys(zhq)
    ensures ComesFrom(Result(z2m, zhq, key), z2m, zhq, key)
  {
    if key in Keys(z2m) && key in Keys(zhq) {
      BothAreMerged(z2m, zhq, key);
    } else {
      FindExactly(z2m, key);
      FindExactly(zhq, key);
      hide Keys, WellLoaded, IsLast, Find, KeyOf;
      FoundIsLast(if key in Keys(z2m) then z2m else zhq, key);
    }
  }

  lemma ResultKey(z2m: Source, zhq: Source, key: DeviceKey)
    requires WellLoaded(z2m) && WellLoaded(zhq) && key in Keys(z2m) + Keys(zhq)
    ensures KeyOf(Result(z2m, zhq, key)) == key
  {
    FindExactly(z2m, key);
    FindExactly(zhq, key);
    if key in Keys(z2m) && key in Keys(zhq) {
      MergedKey(Find(z2m, key).value, Find(zhq, key).value);
    }
  }

  function Last(devices: seq<Device>): (d: Device)
    requires devices != []
    ensures d in devices
  {
    devices[|devices| - 1]
  }

  /** The name of the last device filed under `norm`, or `norm` if that device has none. */
  function NameIn(source: Source, norm: string): string
    requires norm in source && source[norm] != []
  {
    OrElse(Last(source[norm]).mf, norm)
  }

  /** The manufacturer name a group is written under; z2m's name is preferred unless it is empty. */
  function GroupName(z2m: Source, zhq: Source, norm: string): string
    requires WellLoaded(z2m) && WellLoaded(zhq)
  {
    if norm in z2m && NameIn(z2m, norm) != "" then NameIn(z2m, norm)
    else if norm in zhq then NameIn(zhq, norm)
    else norm
  }

  /** A group's name normalises to its manufacturer, so two manufacturers never share a group. */
  lemma GroupNameNormalizes(z2m: Source, zhq: Source, norm: string)
    requires WellLoaded(z2m) && WellLoaded(zhq) && (norm in z2m || norm in zhq)
    ensures Normalize(GroupName(z2m, zhq, norm)) == norm
  {
    assert Lower(Strip("")) == "";
    if norm in z2m {
      assert Last(z2m[norm]) in z2m[norm];
    }
    if norm in zhq {
      assert Last(zhq[norm]) in zhq[norm];
    }
  }

  /** z2m's own spelling of the name, that of its last device, is preferred; zhaquirks' is the other choice. */
  lemma GroupNameExactly(z2m: Source, zhq: Source, norm: string, name: string)
    requires WellLoaded(z2m) && WellLoaded(zhq) && (norm in z2m || norm in zhq)
    ensures norm in z2m && name != "" && z2m[norm][|z2m[norm]| - 1].mf == Some(name) ==> GroupName(z2m, zhq, norm) == name
    ensures
      norm in zhq && zhq[norm][|zhq[norm]| - 1].mf == Some(name) && (norm in z2m ==> z2m[norm][|z2m[norm]| - 1].mf == Some("")) ==>
        GroupName(z2m, zhq, norm) == name
  {
  }

  ghost function GroupOf(z2m: Source, zhq: Source, norm: string): set<Device>
    requires WellLoaded(z2m) && WellLoaded(zhq)
  {
    set key | key in Keys(z2m) + Keys(zhq) && key.0 == norm :: Result(z2m, zhq, key)
  }

  /** The sort key: priority (99 if absent), then model. */
  predicate Before(a: Device, b: Device) {
    var p, q := OrElse(a.pri, 99), OrElse(b.pri, 99);
    p < q || (p == q && Less(a.m, b.m))
  }

  predicate Sorted(devices: seq<Device>) {
    forall i, j :: 0 <= i < j < |devices| ==> Before(devices[i], devices[j])
  }

  ghost function Elements(devices: seq<Device>): (r: set<Device>)
    ensures forall d :: d in r <==> d in devices
    ensures r == {} <==> devices == []
  {
    assert devices != [] ==> devices[0] in devices;
    set d | d in devices
  }

  /** One sorted group per manufacturer, holding the result of every key of that manufacturer. */
  ghost predicate IsMerge(z2m: Source, zhq: Source, merged: map<string, seq<Device>>)
    requires WellLoaded(z2m) && WellLoaded(zhq)
  {
    && merged.Keys == (set norm | norm in z2m.Keys + zhq.Keys :: GroupName(z2m, zhq, norm))
    && forall norm :: norm in z2m.Keys + zhq.Keys ==>
         var group := merged[GroupName(z2m, zhq, norm)];
         Sorted(group) && Elements(group) == GroupOf(z2m, zhq, norm)
  }

  // ------------------------------------------------------------------ the result is determined

  lemma BeforeStrict(a: Device, b: Device)
    ensures !(Before(a, b) && Before(b, a)) && !Before(a, a)
    ensures a.m != b.m ==> Before(a, b) || Before(b, a)
  {
    LessTotal(a.m, b.m);
    LessTotal(a.m, a.m);
  }

  lemma BeforeTransitive(a: Device, b: Device, c: Device)
    requires Before(a, b) && Before(b, c)
    ensures Before(a, c)
  {
    if OrElse(a.pri, 99) == OrElse(b.pri, 99) == OrElse(c.pri, 99) {
      LessTransitive(a.m, b.m, c.m);
    }
  }

  lemma SortedHead(a: seq<Device>, b: seq<Device>)
    requires Sorted(a) && Sorted(b) && a != [] && b != []
    requires Elements(a) == Elements(b)
    ensures a[0] == b[0]
    ensures Elements(a[1..]) == Elements(b[1..])
  {
    assert a[0] in Elements(b) && b[0] in Elements(a);
    BeforeStrict(a[0], b[0]);
    forall i | 0 < i < |a| ensures a[i] != a[0] { BeforeStrict(a[0], a[i]); }
    forall i | 0 < i < |b| ensures b[i] != b[0] { BeforeStrict(b[0], b[i]); }
    assert Elements(a[1..]) == Elements(a) - {a[0]};
    assert Elements(b[1..]) == Elements(b) - {b[0]};
  }

  lemma {:induction false} SortedUnique(a: seq<Device>, b: seq<Device>)
    requires Sorted(a) && Sorted(b) && Elements(a) == Elements(b)
    ensures a == b
    decreases |a|
  {
    if a != [] {
      SortedHead(a, b);
      SortedUnique(a[1..], b[1..]);
      assert a == [a[0]] + a[1..] && b == [b[0]] + b[1..];
    }
  }

  /** The merged database does not depend on the order in which dictionaries and sets are iterated. */
  lemma MergeIsDetermined(z2m: Source, zhq: Source, one: map<string, seq<Device>>, two: map<string, seq<Device>>)
    requires WellLoaded(z2m) && WellLoaded(zhq)
    requires IsMerge(z2m, zhq, one) && IsMerge(z2m, zhq, two)
    ensures one == two
  {
    forall name | name in one ensures one[name] == two[name] {
      var norm :| norm in z2m.Keys + zhq.Keys && GroupName(z2m, zhq, norm) == name;
      SortedUnique(one[name], two[name]);
    }
  }

  /** Every key of either source has exactly one device in the output, and the output has no other device. */
  lemma OneDevicePerKey(z2m: Source, zhq: Source, merged: map<string, seq<Device>>, key: DeviceKey)
    requires WellLoaded(z2m) && WellLoaded(zhq) && IsMerge(z2m, zhq, merged)
    ensures key in Keys(z2m) + Keys(zhq) <==>
      exists name, i :: name in merged && 0 <= i < |merged[name]| && KeyOf(merged[name][i]) == key
    ensures forall name, i, name', j ::
      && name in merged && 0 <= i < |merged[name]| && KeyOf(merged[name][i]) == key
      && name' in merged && 0 <= j < |merged[name']| && KeyOf(merged[name'][j]) == key
      ==> name == name' && i == j
  {
    if key in Keys(z2m) + Keys(zhq) {
      var name := GroupName(z2m, zhq, key.0);
      ResultKey(z2m, zhq, key);
      assert Result(z2m, zhq, key) in GroupOf(z2m, zhq, key.0);
      assert Result(z2m, zhq, key) in Elements(merged[name]);
      var i :| 0 <= i < |merged[name]| && merged[name][i] == Result(z2m, zhq, key);
    }
    forall name, i | name in merged && 0 <= i < |merged[name]| && KeyOf(merged[name][i]) == key
      ensures key in Keys(z2m) + Keys(zhq) && name == GroupName(z2m, zhq, key.0)
      ensures merged[name][i] == Result(z2m, zhq, key)
      ensures forall j :: 0 <= j < |merged[name]| && merged[name][j] == merged[name][i] ==> i == j
    {
      MemberIsResult(z2m, zhq, merged, name, i);
    }
  }

  lemma MemberIsResult(z2m: Source, zhq: Source, merged: map<string, seq<Device>>, name: string, i: nat)
    requires WellLoaded(z2m) && WellLoaded(zhq) && IsMerge(z2m, zhq, merged)
    requires name in merged && i < |merged[name]|
    ensures
      var key := KeyOf(merged[name][i]);
      && key in Keys(z2m) + Keys(zhq)
      && name == GroupName(z2m, zhq, key.0) && merged[name][i] == Result(z2m, zhq, key)
    ensures forall j :: 0 <= j < |merged[name]| && merged[name][j] == merged[name][i] ==> i == j
  {
    var norm :| norm in z2m.Keys + zhq.Keys && GroupName(z2m, zhq, norm) == name;
    assert merged[name][i] in Elements(merged[name]);
    assert merged[name][i] in GroupOf(z2m, zhq, norm);
    var k :| k in Keys(z2m) + Keys(zhq) && k.0 == norm && Result(z2m, zhq, k) == merged[name][i];
    ResultKey(z2m, zhq, k);
    BeforeStrict(merged[name][i], merged[name][i]);
  }

  // ------------------------------------------------------------------ the merge

  /** Stable insertion: what `list.sort` does with one more element. */
  function Insert(d: Device, sorted: seq<Device>): seq<Device> {
    if sorted == [] || Before(d, sorted[0]) then [d] + sorted
    else [sorted[0]] + Insert(d, sorted[1..])
  }

  function Sort(devices: seq<Device>): seq<Device> {
    if devices == [] then [] else Insert(devices[0], Sort(devices[1..]))
  }

  lemma {:induction false} InsertSorts(d: Device, sorted: seq<Device>)
    requires Sorted(sorted) && forall e :: e in sorted ==> e.m != d.m
    ensures Sorted(Insert(d, sorted))
    ensures forall e :: e in Insert(d, sorted) <==> e == d || e in sorted
    decreases |sorted|
  {
    if sorted != [] {
      var head, tail := sorted[0], sorted[1..];
      BeforeStrict(d, head);
      if Before(d, head) {
        forall k | 0 <= k < |sorted| ensures Before(d, sorted[k]) {
          if k > 0 {
            BeforeTransitive(d, head, sorted[k]);
          }
        }
      } else {
        InsertSorts(d, tail);
        var rest := Insert(d, tail);
        forall k | 0 <= k < |rest| ensures Before(head, rest[k]) {
          assert rest[k] in rest;
        }
        assert sorted == [head] + tail;
      }
    }
  }

  ghost predicate DistinctModels(devices: seq<Device>) {
    forall i, j :: 0 <= i < j < |devices| ==> devices[i].m != devices[j].m
  }

  lemma {:induction false} SortSorts(devices: seq<Device>)
    requires DistinctModels(devices)
    ensures Sorted(Sort(devices)) && Elements(Sort(devices)) == Elements(devices)
    decreases |devices|
  {
    if devices != [] {
      SortSorts(devices[1..]);
      assert devices == [devices[0]] + devices[1..];
      InsertSorts(devices[0], Sort(devices[1..]));
    }
  }

  method BuildLookup(source: Source) returns (lookup: map<DeviceKey, Device>, names: map<string, string>)
    requires WellLoaded(source)
    ensures lookup.Keys == Keys(source)
    ensures forall key :: key in lookup ==> Some(lookup[key]) == Find(source, key)
    ensures names.Keys == source.Keys
    ensures forall norm :: norm in names ==> names[norm] == NameIn(source, norm)
  {
    hide KeyOf, LastWith, Keys;
    lookup, names := map[], map[];
    var pending := source.Keys;
    while pending != {}
      invariant pending <= source.Keys
      invariant Covers(lookup, source, pending)
      invariant names.Keys == source.Keys - pending
      invariant forall norm :: norm in names ==> names[norm] == NameIn(source, norm)
    {
      var normMf :| normMf in pending;
      lookup := AddDevices(lookup, normMf, source[normMf]);
      var last := Last(source[normMf]);
      names := names[normMf := OrElse(last.mf, normMf)];
      pending := pending - {normMf};
    }
    forall key ensures key in lookup <==> key in Keys(source) {
      FindExactly(source, key);
      assert At(lookup, key) == Find(source, key) || key.0 !in source;
    }
  }

  /** The table holds the last device of every key whose manufacturer has been read. */
  ghost predicate Covers(lookup: map<DeviceKey, Device>, source: Source, pending: set<string>) {
    && (forall key :: key in lookup ==> key.0 in source && key.0 !in pending)
    && (forall key: DeviceKey :: key.0 in source && key.0 !in pending ==> At(lookup, key) == Find(source, key))
  }

  /** The inner loop: later devices replace earlier ones with the same key. */
  method AddDevices(before: map<DeviceKey, Device>, normMf: string, devices: seq<Device>)
    returns (lookup: map<DeviceKey, Device>)
    requires forall key :: key in before ==> key.0 != normMf
    requires forall d :: d in devices ==> KeyOf(d).0 == normMf
    ensures forall key: DeviceKey :: key.0 != normMf ==>
      (key in lookup <==> key in before) && (key in lookup ==> lookup[key] == before[key])
    ensures forall model :: At(lookup, (normMf, model)) == LastWith(devices, model)
  {
    lookup := before;
    for i := 0 to |devices|
      invariant forall key: DeviceKey :: key.0 != normMf ==>
        (key in lookup <==> key in before) && (key in lookup ==> lookup[key] == before[key])
      invariant forall model :: At(lookup, (normMf, model)) == LastWith(devices[..i], model)
    {
      assert devices[i] in devices;
      assert devices[..i + 1][..i] == devices[..i];
      lookup := lookup[KeyOf(devices[i]) := devices[i]];
    }
    assert devices[..|devices|] == devices;
  }

  function At(lookup: map<DeviceKey, Device>, key: DeviceKey): Option<Device> {
    if key in lookup then Some(lookup[key]) else None
  }

  datatype Stats = Stats(z2mOnly: nat, zhqOnly: nat, merged: nat, total: nat)

  /** The lookup tables of both sources hold what `Result` and `GroupName` are made of. */
  ghost predicate AreLookups(
    z2m: Source, zhq: Source, z2mLookup: map<DeviceKey, Device>, zhqLookup: map<DeviceKey, Device>)
  {
    && z2mLookup.Keys == Keys(z2m) && (forall key :: key in z2mLookup ==> Some(z2mLookup[key]) == Find(z2m, key))
    && zhqLookup.Keys == Keys(zhq) && (forall key :: key in zhqLookup ==> Some(zhqLookup[key]) == Find(zhq, key))
  }

  /** One turn of the loop: the device of one key, and the counters. */
  method MergeOne(
    ghost z2m: Source, ghost zhq: Source, z2mLookup: map<DeviceKey, Device>, zhqLookup: map<DeviceKey, Device>,
    key: DeviceKey, before: Stats) returns (dev: Device, stats: Stats)
    requires WellLoaded(z2m) && WellLoaded(zhq) && AreLookups(z2m, zhq, z2mLookup, zhqLookup)
    requires key in Keys(z2m) + Keys(zhq)
    ensures dev == Result(z2m, zhq, key)
    ensures stats.total == before.total + 1
    ensures stats.merged == before.merged + if key in Keys(z2m) * Keys(zhq) then 1 else 0
    ensures stats.z2mOnly == before.z2mOnly + if key in Keys(z2m) - Keys(zhq) then 1 else 0
    ensures stats.zhqOnly == before.zhqOnly + if key in Keys(zhq) - Keys(z2m) then 1 else 0
  {
    stats := before.(total := before.total + 1);
    if key in z2mLookup && key in zhqLookup {
      dev := MergeTwo(z2mLookup[key], zhqLookup[key]);
      stats := stats.(merged := stats.merged + 1);
    } else if key in z2mLookup {
      dev := z2mLookup[key];
      stats := stats.(z2mOnly := stats.z2mOnly + 1);
    } else {
      dev := zhqLookup[key];
      stats := stats.(zhqOnly := stats.zhqOnly + 1);
    }
  }

  /** The counters count the keys in `done` by the sources that have them. */
  ghost predicate Counts(stats: Stats, z2m: Source, zhq: Source, done: set<DeviceKey>) {
    && stats.z2mOnly == |done * (Keys(z2m) - Keys(zhq))|
    && stats.zhqOnly == |done * (Keys(zhq) - Keys(z2m))|
    && stats.merged == |done * (Keys(z2m) * Keys(zhq))|
    && stats.total == |done| == stats.z2mOnly + stats.zhqOnly + stats.merged
  }

  /** The manufacturer's name as written, from z2m if it has one. */
  method OriginalName(
    ghost z2m: Source, ghost zhq: Source, z2mNames: map<string, string>, zhqNames: map<string, string>, norm: string)
    returns (name: string)
    requires WellLoaded(z2m) && WellLoaded(zhq)
    requires z2mNames.Keys == z2m.Keys && forall n :: n in z2mNames ==> z2mNames[n] == NameIn(z2m, n)
    requires zhqNames.Keys == zhq.Keys && forall n :: n in zhqNames ==> zhqNames[n] == NameIn(zhq, n)
    ensures name == GroupName(z2m, zhq, norm)
  {
    hide NameIn;
    assert norm in z2mNames <==> norm in z2m;
    assert norm in zhqNames <==> norm in zhq;
    name := "";
    if norm in z2mNames {
      name := z2mNames[norm];
    }
    if name == "" {
      name := if norm in zhqNames then zhqNames[norm] else norm;
    }
  }

  method MergeAll(z2m: Source, zhq: Source) returns (merged: map<string, seq<Device>>, stats: Stats)
    requires WellLoaded(z2m) && WellLoaded(zhq)
    ensures IsMerge(z2m, zhq, merged)
    ensures Counts(stats, z2m, zhq, Keys(z2m) + Keys(zhq))
  {
    hide IsMerge, AreGroups, Result, Counts, Keys, NameIn, GroupName, WellLoaded, Find;
    var z2mLookup, z2mNames := BuildLookup(z2m);
    var zhqLookup, zhqNames := BuildLookup(zhq);
    var pending := z2mLookup.Keys + zhqLookup.Keys;
    var byMf: map<string, seq<Device>> := map[];
    stats := Stats(0, 0, 0, 0);
    ghost var done: set<DeviceKey> := {};
    NothingDone(z2m, zhq);
    while pending != {}
      invariant done !! pending && done + pending == Keys(z2m) + Keys(zhq)
      invariant AreGroups(byMf, z2m, zhq, done)
      invariant Counts(stats, z2m, zhq, done)
      decreases pending
    {
      var key :| key in pending;
      var normMf := key.0;
      var dev, counted := MergeOne(z2m, zhq, z2mLookup, zhqLookup, key, stats);
      CountsGrow(stats, counted, z2m, zhq, done, key);
      stats := counted;
      var origMf := OriginalName(z2m, zhq, z2mNames, zhqNames, normMf);
      GroupsGrow(byMf, z2m, zhq, done, key);
      byMf := byMf[origMf := (if origMf in byMf then byMf[origMf] else []) + [dev]];
      MoveOne(done, pending, key);
      done := done + {key};
      pending := pending - {key};
    }
    assert done == Keys(z2m) + Keys(zhq);
    merged := SortGroups(byMf, z2m, zhq);
  }

  lemma MoveOne(done: set<DeviceKey>, pending: set<DeviceKey>, key: DeviceKey)
    requires done !! pending && key in pending
    ensures (done + {key}) + (pending - {key}) == done + pending && (done + {key}) !! (pending - {key})
  {
  }

  lemma NothingDone(z2m: Source, zhq: Source)
    requires WellLoaded(z2m) && WellLoaded(zhq)
    ensures AreGroups(map[], z2m, zhq, {}) && Counts(Stats(0, 0, 0, 0), z2m, zhq, {})
  {
    assert {} * (Keys(z2m) - Keys(zhq)) == {} && {} * (Keys(zhq) - Keys(z2m)) == {};
    assert {} * (Keys(z2m) * Keys(zhq)) == {};
  }

  lemma KeyIsFiled(z2m: Source, zhq: Source, key: DeviceKey)
    requires key in Keys(z2m) + Keys(zhq)
    ensures key.0 in z2m || key.0 in zhq
  {
  }

  lemma CountsGrow(before: Stats, after: Stats, z2m: Source, zhq: Source, done: set<DeviceKey>, key: DeviceKey)
    requires Counts(before, z2m, zhq, done) && key !in done && key in Keys(z2m) + Keys(zhq)
    requires after.total == before.total + 1
    requires after.merged == before.merged + if key in Keys(z2m) * Keys(zhq) then 1 else 0
    requires after.z2mOnly == before.z2mOnly + if key in Keys(z2m) - Keys(zhq) then 1 else 0
    requires after.zhqOnly == before.zhqOnly + if key in Keys(zhq) - Keys(z2m) then 1 else 0
    ensures Counts(after, z2m, zhq, done + {key})
  {
    CountOne(done, key, Keys(z2m) - Keys(zhq));
    CountOne(done, key, Keys(zhq) - Keys(z2m));
    CountOne(done, key, Keys(z2m) * Keys(zhq));
  }

  /** For all keys the counters are the sizes of the three parts, and nothing is counted twice. */
  lemma CountsAreSizes(stats: Stats, z2m: Source, zhq: Source)
    requires Counts(stats, z2m, zhq, Keys(z2m) + Keys(zhq))
    ensures stats.z2mOnly == |Keys(z2m) - Keys(zhq)| && stats.zhqOnly == |Keys(zhq) - Keys(z2m)|
    ensures stats.merged == |Keys(z2m) * Keys(zhq)|
    ensures |Keys(z2m) + Keys(zhq)| == stats.total == stats.z2mOnly + stats.zhqOnly + stats.merged
  {
    var all := Keys(z2m) + Keys(zhq);
    assert all * (Keys(z2m) - Keys(zhq)) == Keys(z2m) - Keys(zhq);
    assert all * (Keys(zhq) - Keys(z2m)) == Keys(zhq) - Keys(z2m);
    assert all * (Keys(z2m) * Keys(zhq)) == Keys(z2m) * Keys(zhq);
  }

  lemma CountOne(done: set<DeviceKey>, key: DeviceKey, among: set<DeviceKey>)
    requires key !in done
    ensures |(done + {key}) * among| == |done * among| + if key in among then 1 else 0
  {
    if key in among {
      assert (done + {key}) * among == done * among + {key};
    } else {
      assert (done + {key}) * among == done * among;
    }
  }

  /** `groups` hold the results of the keys in `done`, unsorted and without duplicates. */
  ghost predicate AreGroups(groups: map<string, seq<Device>>, z2m: Source, zhq: Source, done: set<DeviceKey>)
    requires WellLoaded(z2m) && WellLoaded(zhq)
  {
    && done <= Keys(z2m) + Keys(zhq)
    && groups.Keys == (set key | key in done :: GroupName(z2m, zhq, key.0))
    && forall name :: name in groups ==> IsGroup(groups[name], z2m, zhq, done, name)
  }

  ghost predicate IsGroup(group: seq<Device>, z2m: Source, zhq: Source, done: set<DeviceKey>, name: string)
    requires WellLoaded(z2m) && WellLoaded(zhq) && done <= Keys(z2m) + Keys(zhq)
  {
    && DistinctModels(group)
    && Elements(group) == set key | key in done && GroupName(z2m, zhq, key.0) == name :: Result(z2m, zhq, key)
  }

  lemma GroupsGrow(groups: map<string, seq<Device>>, z2m: Source, zhq: Source, done: set<DeviceKey>, key: DeviceKey)
    requires WellLoaded(z2m) && WellLoaded(zhq) && AreGroups(groups, z2m, zhq, done)
    requires key in Keys(z2m) + Keys(zhq) && key !in done
    ensures
      var name, dev := GroupName(z2m, zhq, key.0), Result(z2m, zhq, key);
      AreGroups(groups[name := (if name in groups then groups[name] else []) + [dev]], z2m, zhq, done + {key})
  {
    hide Result, GroupName, Keys, WellLoaded, IsGroup;
    var name := GroupName(z2m, zhq, key.0);
    var group := if name in groups then groups[name] else [];
    if name !in groups {
      EmptyGroup(z2m, zhq, done, name);
    }
    GroupGrows(group, z2m, zhq, done, key);
    forall other | other in groups && other != name ensures IsGroup(groups[other], z2m, zhq, done + {key}, other) {
      OtherGroup(groups[other], z2m, zhq, done, key, other);
    }
  }

  lemma EmptyGroup(z2m: Source, zhq: Source, done: set<DeviceKey>, name: string)
    requires WellLoaded(z2m) && WellLoaded(zhq) && done <= Keys(z2m) + Keys(zhq)
    requires forall key :: key in done ==> GroupName(z2m, zhq, key.0) != name
    ensures IsGroup([], z2m, zhq, done, name)
  {
    hide Result, GroupName, Keys, WellLoaded;
  }

  lemma OtherGroup(
    group: seq<Device>, z2m: Source, zhq: Source, done: set<DeviceKey>, key: DeviceKey, other: string)
    requires WellLoaded(z2m) && WellLoaded(zhq) && done + {key} <= Keys(z2m) + Keys(zhq)
    requires IsGroup(group, z2m, zhq, done, other) && GroupName(z2m, zhq, key.0) != other
    ensures IsGroup(group, z2m, zhq, done + {key}, other)
  {
    hide Result, GroupName, Keys, WellLoaded;
  }

  lemma GroupGrows(group: seq<Device>, z2m: Source, zhq: Source, done: set<DeviceKey>, key: DeviceKey)
    requires WellLoaded(z2m) && WellLoaded(zhq) && done + {key} <= Keys(z2m) + Keys(zhq) && key !in done
    requires IsGroup(group, z2m, zhq, done, GroupName(z2m, zhq, key.0))
    ensures IsGroup(group + [Result(z2m, zhq, key)], z2m, zhq, done + {key}, GroupName(z2m, zhq, key.0))
  {
    hide Result, GroupName, Keys, WellLoaded;
    var name, dev := GroupName(z2m, zhq, key.0), Result(z2m, zhq, key);
    forall i | 0 <= i < |group| ensures group[i].m != dev.m {
      assert group[i] in Elements(group);
      var k :| k in done && GroupName(z2m, zhq, k.0) == name && group[i] == Result(z2m, zhq, k);
      DifferentModels(z2m, zhq, k, key);
    }
    assert Elements(group + [dev]) == Elements(group) + {dev};
  }

  /** Two keys of one group differ in the model, and so do their results. */
  lemma DifferentModels(z2m: Source, zhq: Source, k: DeviceKey, key: DeviceKey)
    requires WellLoaded(z2m) && WellLoaded(zhq) && {k, key} <= Keys(z2m) + Keys(zhq) && k != key
    requires GroupName(z2m, zhq, k.0) == GroupName(z2m, zhq, key.0)
    ensures Result(z2m, zhq, k).m != Result(z2m, zhq, key).m
  {
    ResultKey(z2m, zhq, k);
    ResultKey(z2m, zhq, key);
    KeyIsFiled(z2m, zhq, k);
    KeyIsFiled(z2m, zhq, key);
    GroupNameNormalizes(z2m, zhq, k.0);
    GroupNameNormalizes(z2m, zhq, key.0);
  }

  method SortGroups(groups: map<string, seq<Device>>, ghost z2m: Source, ghost zhq: Source)
    returns (merged: map<string, seq<Device>>)
    requires WellLoaded(z2m) && WellLoaded(zhq) && AreGroups(groups, z2m, zhq, Keys(z2m) + Keys(zhq))
    ensures IsMerge(z2m, zhq, merged)
  {
    hide Keys, GroupName, Result, WellLoaded, IsGroup, Sorted;
    merged := groups;
    var pending := groups.Keys;
    GroupsAreDistinct(groups, z2m, zhq);
    hide AreGroups;
    while pending != {}
      invariant pending <= groups.Keys == merged.Keys
      invariant forall mf :: mf in pending ==> merged[mf] == groups[mf]
      invariant forall mf :: mf in merged && mf !in pending ==>
        Sorted(merged[mf]) && Elements(merged[mf]) == Elements(groups[mf])
    {
      var mf :| mf in pending;
      SortSorts(merged[mf]);
      merged := merged[mf := Sort(merged[mf])];
      pending := pending - {mf};
    }
    GroupsAreMerge(groups, z2m, zhq, merged);
  }

  lemma GroupsAreDistinct(groups: map<string, seq<Device>>, z2m: Source, zhq: Source)
    requires WellLoaded(z2m) && WellLoaded(zhq) && AreGroups(groups, z2m, zhq, Keys(z2m) + Keys(zhq))
    ensures forall mf :: mf in groups ==> DistinctModels(groups[mf])
  {
    hide Keys, GroupName, Result, WellLoaded, DistinctModels;
  }

  lemma GroupsAreMerge(groups: map<string, seq<Device>>, z2m: Source, zhq: Source, merged: map<string, seq<Device>>)
    requires WellLoaded(z2m) && WellLoaded(zhq) && AreGroups(groups, z2m, zhq, Keys(z2m) + Keys(zhq))
    requires merged.Keys == groups.Keys
    requires forall mf :: mf in merged ==> Sorted(merged[mf]) && Elements(merged[mf]) == Elements(groups[mf])
    ensures IsMerge(z2m, zhq, merged)
  {
    hide Result, GroupName, Keys, WellLoaded, Sorted, GroupOf, IsGroup;
    forall norm | norm in z2m.Keys + zhq.Keys
      ensures GroupName(z2m, zhq, norm) in groups
      ensures Elements(groups[GroupName(z2m, zhq, norm)]) == GroupOf(z2m, zhq, norm)
    {
      NormHasKey(z2m, zhq, norm);
      GroupIsWhole(groups[GroupName(z2m, zhq, norm)], z2m, zhq, norm);
    }
    forall name | name in groups
      ensures name in set norm | norm in z2m.Keys + zhq.Keys :: GroupName(z2m, zhq, norm)
    {
      var key :| key in Keys(z2m) + Keys(zhq) && GroupName(z2m, zhq, key.0) == name;
      KeyIsFiled(z2m, zhq, key);
    }
  }

  /** The group under a manufacturer's name holds the results of exactly that manufacturer's keys. */
  lemma GroupIsWhole(group: seq<Device>, z2m: Source, zhq: Source, norm: string)
    requires WellLoaded(z2m) && WellLoaded(zhq) && norm in z2m.Keys + zhq.Keys
    requires IsGroup(group, z2m, zhq, Keys(z2m) + Keys(zhq), GroupName(z2m, zhq, norm))
    ensures Elements(group) == GroupOf(z2m, zhq, norm)
  {
    hide Result, GroupName, Keys, WellLoaded;
    forall key | key in Keys(z2m) + Keys(zhq)
      ensures GroupName(z2m, zhq, key.0) == GroupName(z2m, zhq, norm) <==> key.0 == norm
    {
      KeyIsFiled(z2m, zhq, key);
      GroupNameNormalizes(z2m, zhq, key.0);
      GroupNameNormalizes(z2m, zhq, norm);
    }
  }

  lemma NormHasKey(z2m: Source, zhq: Source, norm: string)
    requires WellLoaded(z2m) && WellLoaded(zhq) && norm in z2m.Keys + zhq.Keys
    ensures exists key :: key in Keys(z2m) + Keys(zhq) && key.0 == norm
  {
    var d := if norm in z2m then Last(z2m[norm]) else Last(zhq[norm]);
    assert (norm, Strip(d.m)) in Keys(z2m) + Keys(zhq);
  }
}
