/**
  The database compiler from its two sources to the files (`merge_sources` and `write_output` of
  tools/merge_converter_dbs.py): the files hold one device for every key of either source.
 */
module Build {
  import opened Wrappers
  import opened Json
  import opened Sequences
  import opened Ordering
  import opened Profiles
  import opened WriteOutput
  import opened Database
  import M = MergeSources

  function Objects(entries: seq<Fields>): Json {
    Arr(Map((e: Fields) => Obj(e), entries))
  }

  function Field(k: string, value: Option<Json>): Fields {
    if value.Some? then map[k := value.value] else map[]
  }

  function Then<A>(f: A -> Json, value: Option<A>): Option<Json> {
    if value.Some? then Some(f(value.value)) else None
  }

  /** A merged device as the dictionary that is written. */
  function Dictionary(d: M.Device): Fields {
    d.other + map["m" := Str(d.m)]
    + Field("mf", Then(s => Str(s), d.mf))
    + Field("pri", Then(n => Int(n), d.pri))
    + Field("src", Then(s => Str(s), d.src))
    + Field("quirks", Then(f => Obj(f), d.quirks))
    + Field("fz", Then(Objects, d.fz))
    + Field("tz", Then(Objects, d.tz))
  }

  /** A group as it is written; `clean` stands for whatever is rewritten device by device before that. */
  function Cleaned(clean: Fields -> Fields, group: seq<M.Device>): seq<Fields> {
    Map(Cleaner(clean), group)
  }

  function Cleaner(clean: Fields -> Fields): M.Device -> Fields {
    (d: M.Device) => clean(Dictionary(d))
  }

  // ------------------------------------------------------------------ groups in order

  ghost predicate Ascending(names: seq<string>) {
    forall i, j :: 0 <= i < j < |names| ==> Less(names[i], names[j])
  }

  lemma {:induction false} LeastExists(names: set<string>) returns (least: string)
    requires names != {}
    ensures least in names && forall n :: n in names && n != least ==> Less(least, n)
    decreases |names|
  {
    var some :| some in names;
    var rest := names - {some};
    least := some;
    if rest != {} {
      var l := LeastExists(rest);
      LessTotal(some, l);
      if Less(l, some) {
        least := l;
      }
      forall n | n in names && n != least ensures Less(least, n) {
        if n != some && n != l && least == some {
          LessTransitive(some, l, n);
        }
      }
    }
  }

  /** The groups in the order of their names, cleaned. */
  method CleanGroups(merged: map<string, seq<M.Device>>, clean: Fields -> Fields)
    returns (names: seq<string>, rows: seq<seq<Fields>>)
    ensures Ascending(names) && forall n :: n in names <==> n in merged
    ensures |rows| == |names| && forall g :: 0 <= g < |rows| ==> rows[g] == Cleaned(clean, merged[names[g]])
  {
    names, rows := [], [];
    var pending := merged.Keys;
    while pending != {}
      invariant pending <= merged.Keys
      invariant Ascending(names) && forall n :: n in names <==> n in merged && n !in pending
      invariant forall n, p :: n in names && p in pending ==> Less(n, p)
      invariant |rows| == |names| && forall g :: 0 <= g < |rows| ==> rows[g] == Cleaned(clean, merged[names[g]])
    {
      ghost var least := LeastExists(pending);
      var name :| name in pending && forall n :: n in pending && n != name ==> Less(name, n);
      names, rows := names + [name], rows + [Cleaned(clean, merged[name])];
      pending := pending - {name};
    }
  }

  // ------------------------------------------------------------------ one device for each key

  ghost predicate AllDifferent<T>(xs: seq<T>) {
    forall i, j :: 0 <= i < j < |xs| ==> xs[i] != xs[j]
  }

  lemma {:induction false} FlattenDifferent<T>(xss: seq<seq<T>>)
    requires forall g :: 0 <= g < |xss| ==> AllDifferent(xss[g])
    requires forall g, h, x :: 0 <= g < h < |xss| && x in xss[g] ==> x !in xss[h]
    ensures AllDifferent(Flatten(xss))
    decreases |xss|
  {
    if xss != [] {
      var head, rest := xss[0], Flatten(xss[1..]);
      FlattenDifferent(xss[1..]);
      forall x | x in head ensures x !in rest {
        FlattenMember(xss[1..], x);
      }
      assert AllDifferent(head);
      forall i, j | 0 <= i < j < |head + rest| ensures (head + rest)[i] != (head + rest)[j] {
        if i < |head| <= j {
          assert rest[j - |head|] in rest && head[i] in head;
        }
      }
    }
  }

  lemma {:induction false} MapFlatten<A, B>(f: A -> B, xss: seq<seq<A>>, yss: seq<seq<B>>)
    requires |yss| == |xss| && forall g :: 0 <= g < |xss| ==> yss[g] == Map(f, xss[g])
    ensures Map(f, Flatten(xss)) == Flatten(yss)
    decreases |xss|
  {
    if xss != [] {
      MapFlatten(f, xss[1..], yss[1..]);
      assert Map(f, xss[0] + Flatten(xss[1..])) == Map(f, xss[0]) + Map(f, Flatten(xss[1..]));
    }
  }

  function Groups(merged: map<string, seq<M.Device>>, names: seq<string>): seq<seq<M.Device>>
    requires forall n :: n in names ==> n in merged
  {
    seq(|names|, g requires 0 <= g < |names| => merged[names[g]])
  }

  function KeysOf(devices: seq<M.Device>): seq<M.DeviceKey> {
    Map(M.KeyOf, devices)
  }

  /** The keys of both sources, each once. */
  ghost predicate AreKeys(keys: seq<M.DeviceKey>, z2m: M.Source, zhq: M.Source) {
    && AllDifferent(keys)
    && forall key :: key in keys <==> key in M.Keys(z2m) + M.Keys(zhq)
  }

  /** What the merge makes of each key, cleaned. */
  ghost function Wanted(z2m: M.Source, zhq: M.Source, clean: Fields -> Fields, keys: seq<M.DeviceKey>): seq<Fields>
    requires M.WellLoaded(z2m) && M.WellLoaded(zhq) && AreKeys(keys, z2m, zhq)
  {
    seq(|keys|, i requires 0 <= i < |keys| => clean(Dictionary(M.Result(z2m, zhq, keys[i]))))
  }

  lemma KeysDiffer(
    z2m: M.Source, zhq: M.Source, merged: map<string, seq<M.Device>>, name: string, i: nat, other: string, j: nat)
    requires M.WellLoaded(z2m) && M.WellLoaded(zhq) && M.IsMerge(z2m, zhq, merged)
    requires name in merged && i < |merged[name]| && other in merged && j < |merged[other]|
    requires name != other || i != j
    ensures M.KeyOf(merged[name][i]) != M.KeyOf(merged[other][j])
  {
    M.OneDevicePerKey(z2m, zhq, merged, M.KeyOf(merged[name][i]));
    hide M.KeyOf, M.IsMerge, M.WellLoaded, M.Keys;
  }

  lemma NamesDiffer(names: seq<string>, g: nat, h: nat)
    requires Ascending(names) && g < h < |names|
    ensures names[g] != names[h]
  {
    LessTotal(names[g], names[h]);
  }

  lemma GroupKeysDiffer(z2m: M.Source, zhq: M.Source, merged: map<string, seq<M.Device>>, names: seq<string>)
    requires M.WellLoaded(z2m) && M.WellLoaded(zhq) && M.IsMerge(z2m, zhq, merged)
    requires Ascending(names) && forall n :: n in names ==> n in merged
    ensures AllDifferent(KeysOf(Flatten(Groups(merged, names))))
  {
    hide M.KeyOf, M.IsMerge, M.WellLoaded, Ascending, Flatten;
    var groups := Groups(merged, names);
    var keyed := seq(|groups|, g requires 0 <= g < |groups| => KeysOf(groups[g]));
    forall g | 0 <= g < |keyed| ensures AllDifferent(keyed[g]) {
      forall i, j | 0 <= i < j < |keyed[g]| ensures keyed[g][i] != keyed[g][j] {
        KeysDiffer(z2m, zhq, merged, names[g], i, names[g], j);
      }
    }
    forall g, h, x | 0 <= g < h < |keyed| && x in keyed[g] ensures x !in keyed[h] {
      var i :| 0 <= i < |keyed[g]| && keyed[g][i] == x;
      NamesDiffer(names, g, h);
      forall j | 0 <= j < |keyed[h]| ensures keyed[h][j] != x {
        KeysDiffer(z2m, zhq, merged, names[g], i, names[h], j);
      }
    }
    FlattenDifferent(keyed);
    MapFlatten(M.KeyOf, groups, keyed);
  }

  lemma InGroups(merged: map<string, seq<M.Device>>, names: seq<string>, d: M.Device)
    requires forall n :: n in names <==> n in merged
    ensures
      d in Flatten(Groups(merged, names)) <==>
        exists name, i :: name in merged && 0 <= i < |merged[name]| && merged[name][i] == d
  {
    var groups := Groups(merged, names);
    FlattenMember(groups, d);
    if d in Flatten(groups) {
      var g :| 0 <= g < |groups| && d in groups[g];
      assert names[g] in merged && groups[g] == merged[names[g]];
      var i :| 0 <= i < |groups[g]| && groups[g][i] == d;
      assert merged[names[g]][i] == d;
    }
    if name, i :| name in merged && 0 <= i < |merged[name]| && merged[name][i] == d {
      var g :| 0 <= g < |names| && names[g] == name;
      assert d in groups[g];
    }
  }

  lemma MembersAreResults(z2m: M.Source, zhq: M.Source, merged: map<string, seq<M.Device>>, names: seq<string>, d: M.Device)
    requires M.WellLoaded(z2m) && M.WellLoaded(zhq) && M.IsMerge(z2m, zhq, merged)
    requires forall n :: n in names <==> n in merged
    requires d in Flatten(Groups(merged, names))
    ensures M.KeyOf(d) in M.Keys(z2m) + M.Keys(zhq) && d == M.Result(z2m, zhq, M.KeyOf(d))
  {
    InGroups(merged, names, d);
    hide M.KeyOf, M.IsMerge, M.WellLoaded, M.Keys, M.Result;
    var name, j :| name in merged && 0 <= j < |merged[name]| && merged[name][j] == d;
    M.MemberIsResult(z2m, zhq, merged, name, j);
  }

  lemma KeyIsThere(z2m: M.Source, zhq: M.Source, merged: map<string, seq<M.Device>>, names: seq<string>, key: M.DeviceKey)
    requires M.WellLoaded(z2m) && M.WellLoaded(zhq) && M.IsMerge(z2m, zhq, merged)
    requires forall n :: n in names <==> n in merged
    requires key in M.Keys(z2m) + M.Keys(zhq)
    ensures key in KeysOf(Flatten(Groups(merged, names)))
  {
    M.OneDevicePerKey(z2m, zhq, merged, key);
    hide M.KeyOf, M.IsMerge, M.WellLoaded, M.Keys, M.Result, Flatten;
    var name, j :| name in merged && 0 <= j < |merged[name]| && M.KeyOf(merged[name][j]) == key;
    InGroups(merged, names, merged[name][j]);
    var all := Flatten(Groups(merged, names));
    var i :| 0 <= i < |all| && all[i] == merged[name][j];
    assert KeysOf(all)[i] == key;
  }

  lemma GroupsHaveKeys(z2m: M.Source, zhq: M.Source, merged: map<string, seq<M.Device>>, names: seq<string>)
    requires M.WellLoaded(z2m) && M.WellLoaded(zhq) && M.IsMerge(z2m, zhq, merged)
    requires Ascending(names) && forall n :: n in names <==> n in merged
    ensures AreKeys(KeysOf(Flatten(Groups(merged, names))), z2m, zhq)
  {
    GroupKeysDiffer(z2m, zhq, merged, names);
    hide M.KeyOf, M.IsMerge, M.WellLoaded, M.Keys, M.Result, Ascending, Flatten, AllDifferent, Groups;
    var all := Flatten(Groups(merged, names));
    var keys := KeysOf(all);
    forall key ensures key in keys <==> key in M.Keys(z2m) + M.Keys(zhq) {
      if key in M.Keys(z2m) + M.Keys(zhq) {
        KeyIsThere(z2m, zhq, merged, names, key);
      }
      if key in keys {
        var i :| 0 <= i < |keys| && keys[i] == key;
        MembersAreResults(z2m, zhq, merged, names, all[i]);
      }
    }
  }

  lemma ResultsAreWanted(z2m: M.Source, zhq: M.Source, clean: Fields -> Fields, all: seq<M.Device>)
    requires M.WellLoaded(z2m) && M.WellLoaded(zhq) && AreKeys(KeysOf(all), z2m, zhq)
    requires forall d :: d in all ==> M.KeyOf(d) in M.Keys(z2m) + M.Keys(zhq) && d == M.Result(z2m, zhq, M.KeyOf(d))
    ensures Cleaned(clean, all) == Wanted(z2m, zhq, clean, KeysOf(all))
  {
    hide M.KeyOf, M.WellLoaded, M.Keys, M.Result, Dictionary, AreKeys;
    var wanted := Wanted(z2m, zhq, clean, KeysOf(all));
    forall i | 0 <= i < |all| ensures Cleaned(clean, all)[i] == wanted[i] {
      assert all[i] in all && KeysOf(all)[i] == M.KeyOf(all[i]);
    }
  }

  /** The groups laid end to end are what the merge makes of the keys, each once. */
  lemma GroupsAreWanted(
    z2m: M.Source, zhq: M.Source, merged: map<string, seq<M.Device>>, names: seq<string>, clean: Fields -> Fields,
    rows: seq<seq<Fields>>)
    requires M.WellLoaded(z2m) && M.WellLoaded(zhq) && M.IsMerge(z2m, zhq, merged)
    requires Ascending(names) && forall n :: n in names <==> n in merged
    requires |rows| == |names| && forall g :: 0 <= g < |rows| ==> rows[g] == Cleaned(clean, merged[names[g]])
    ensures
      var keys := KeysOf(Flatten(Groups(merged, names)));
      AreKeys(keys, z2m, zhq) && Flatten(rows) == Wanted(z2m, zhq, clean, keys)
  {
    GroupsHaveKeys(z2m, zhq, merged, names);
    MapFlatten(Cleaner(clean), Groups(merged, names), rows);
    hide M.KeyOf, M.IsMerge, M.WellLoaded, M.Keys, M.Result, Ascending, Flatten, AreKeys, Groups;
    var all := Flatten(Groups(merged, names));
    forall d | d in all
      ensures M.KeyOf(d) in M.Keys(z2m) + M.Keys(zhq) && d == M.Result(z2m, zhq, M.KeyOf(d))
    {
      MembersAreResults(z2m, zhq, merged, names, d);
    }
    ResultsAreWanted(z2m, zhq, clean, all);
  }

  lemma GroupNotEmpty(z2m: M.Source, zhq: M.Source, merged: map<string, seq<M.Device>>, name: string)
    requires M.WellLoaded(z2m) && M.WellLoaded(zhq) && M.IsMerge(z2m, zhq, merged) && name in merged
    ensures merged[name] != []
  {
    hide M.WellLoaded, M.Keys, M.Result, M.GroupName, M.Sorted;
    var norm :| norm in z2m.Keys + zhq.Keys && M.GroupName(z2m, zhq, norm) == name;
    M.NormHasKey(z2m, zhq, norm);
    var key :| key in M.Keys(z2m) + M.Keys(zhq) && key.0 == norm;
    assert M.Result(z2m, zhq, key) in M.GroupOf(z2m, zhq, norm);
  }

  // ------------------------------------------------------------------ from the sources to the files

  /** The devices that reading the files gives, behaviours looked up. */
  function Read(profileFiles: seq<ProfileFile>, deviceFiles: seq<seq<Fields>>): multiset<Fields> {
    multiset(Map(Meaning(Flatten(ChunksOf(profileFiles))), Flatten(deviceFiles)))
  }

  /**
    Whatever the sources hold, the files have exactly one device for every key of either: what
    the merge makes of that key, cleaned. No file is over its limit and no reference dangles.
   */
  method BuildDatabase(
    z2m: M.Source, zhq: M.Source, clean: Fields -> Fields, size: Fields -> nat,
    reorder: seq<ProfileFile> -> seq<ProfileFile>)
    returns (
      profileFiles: seq<ProfileFile>, deviceFiles: seq<seq<Fields>>, dangling: map<int, seq<Fields>>,
      ghost keys: seq<M.DeviceKey>)
    requires M.WellLoaded(z2m) && M.WellLoaded(zhq)
    requires forall files: seq<ProfileFile>, f :: f in reorder(files) <==> f in files
    ensures AreKeys(keys, z2m, zhq)
    ensures Read(profileFiles, deviceFiles) == multiset(Map(Unnumbered, Wanted(z2m, zhq, clean, keys)))
    ensures forall f :: f in deviceFiles ==> WithinLimit(f, size)
    ensures dangling == map[]
  {
    hide M.IsMerge, M.WellLoaded, M.Counts, Ascending, AreKeys, IsDatabase, Wanted;
    var merged, stats := M.MergeAll(z2m, zhq);
    var names, rows := CleanGroups(merged, clean);
    forall g | 0 <= g < |rows| ensures rows[g] != [] {
      GroupNotEmpty(z2m, zhq, merged, names[g]);
    }
    profileFiles, deviceFiles, dangling := WriteAndValidate(rows, size, reorder);
    keys := KeysOf(Flatten(Groups(merged, names)));
    GroupsAreWanted(z2m, zhq, merged, names, clean, rows);
    DatabaseIsLossless(rows, profileFiles, deviceFiles);
  }
}
