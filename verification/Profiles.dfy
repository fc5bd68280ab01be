/**
  Shared behaviour profiles (`build_profiles` and `write_profiles` of
  tools/merge_converter_dbs.py) and the checks that read them back
  (tools/validate_converter_db.py).

  A device is an object that the profile builder changes in place, so that every list holding
  it sees the change. Serialisation with sorted keys is taken to be injective: two bodies have
  one signature exactly when they are equal.
 */
module Profiles {
  import opened Wrappers
  import opened Json
  import opened Sequences

  const PROFILE_KEYS: set<string> := {"fz", "tz", "e", "tuya_dp", "quirks", "q"}
  const PROFILES_PER_FILE := 256

  class Device {
    var fields: Fields

    constructor (fields: Fields)
      ensures this.fields == fields
    {
      this.fields := fields;
    }
  }

  // ------------------------------------------------------------------ specification

  /** What a device does. */
  function Body(f: Fields): Fields {
    map k | k in f && k in PROFILE_KEYS :: f[k]
  }

  /** A device whose behaviour is replaced by its number among `profiles`. */
  function Factored(f: Fields, profiles: seq<Fields>): Fields
    requires Body(f) in profiles
  {
    (f - PROFILE_KEYS)["p" := Int(IndexOf(profiles, Body(f)))]
  }

  function Bodies(fs: seq<Fields>): seq<Fields> {
    seq(|fs|, i requires 0 <= i < |fs| => Body(fs[i]))
  }

  /** The profile number of a factored device. */
  predicate Refers(f: Fields, profiles: seq<Fields>) {
    "p" in f && f["p"].Int? && 0 <= f["p"].n < |profiles|
  }

  /** A factored device with its behaviour put back. */
  function Rebuilt(f: Fields, profiles: seq<Fields>): Fields
    requires Refers(f, profiles)
  {
    (f - {"p"}) + profiles[f["p"].n]
  }

  // ------------------------------------------------------------------ building

  method BuildProfiles(devices: seq<Device>) returns (profiles: seq<Fields>)
    requires forall i, j :: 0 <= i < j < |devices| ==> devices[i] != devices[j]
    modifies devices
    ensures profiles == Distinct(Bodies(old(FieldsOf(devices))))
    ensures forall d :: d in devices ==> IsFactored(d.fields, old(d.fields), profiles)
  {
    hide AllFactored, Distinct, Indexes, Body;
    profiles := [];
    NoIndex();
    EmptyFactored(FieldsOf(devices));
    var bySignature: map<Fields, nat> := map[];
    ghost var before, after: seq<Fields> := FieldsOf(devices), [];
    for i := 0 to |devices|
      invariant |after| == i
      invariant forall j :: 0 <= j < |devices| ==> devices[j].fields == if j < i then after[j] else before[j]
      invariant profiles == Distinct(Bodies(before)[..i])
      invariant Indexes(bySignature, profiles)
      invariant AllFactored(after, before, profiles)
    {
      var dev := devices[i];
      var body := Body(dev.fields);
      DistinctNext(Bodies(before), i);
      IndexFinds(bySignature, profiles, body);
      if body !in bySignature {
        AllFactoredKept(after, before, profiles, body);
        IndexGrows(bySignature, profiles, body);
        LastIndex(profiles, body);
        bySignature := bySignature[body := |profiles|];
        profiles := profiles + [body];
      }
      dev.fields := dev.fields - PROFILE_KEYS;
      dev.fields := dev.fields["p" := Int(bySignature[body])];
      AllFactoredNext(after, before, profiles, dev.fields);
      after := after + [dev.fields];
    }
    assert Bodies(before)[..|devices|] == Bodies(before);
    AllFactoredMeans(after, before, profiles);
  }

  /** The dictionary gives every profile's number. */
  ghost predicate Indexes(bySignature: map<Fields, nat>, profiles: seq<Fields>) {
    && (forall body :: body in bySignature <==> body in profiles)
    && (forall body :: body in profiles ==> bySignature[body] == IndexOf(profiles, body))
  }

  lemma NoIndex()
    ensures Indexes(map[], [])
  {
  }

  lemma IndexFinds(bySignature: map<Fields, nat>, profiles: seq<Fields>, body: Fields)
    requires Indexes(bySignature, profiles)
    ensures body in bySignature <==> body in profiles
    ensures body in profiles ==> bySignature[body] == IndexOf(profiles, body)
  {
  }

  lemma IndexGrows(bySignature: map<Fields, nat>, profiles: seq<Fields>, body: Fields)
    requires Indexes(bySignature, profiles) && body !in profiles
    ensures Indexes(bySignature[body := |profiles|], profiles + [body])
  {
    LastIndex(profiles, body);
    IndexKept(profiles, body);
  }

  lemma EmptyFactored(before: seq<Fields>)
    ensures AllFactored([], before, []) && Distinct(Bodies(before)[..0]) == []
  {
  }

  lemma AllFactoredMeans(after: seq<Fields>, before: seq<Fields>, profiles: seq<Fields>)
    requires AllFactored(after, before, profiles)
    ensures |after| <= |before| && forall j :: 0 <= j < |after| ==> IsFactored(after[j], before[j], profiles)
  {
  }

  ghost predicate AllFactored(after: seq<Fields>, before: seq<Fields>, profiles: seq<Fields>) {
    |after| <= |before| && forall j :: 0 <= j < |after| ==> IsFactored(after[j], before[j], profiles)
  }

  predicate IsFactored(after: Fields, before: Fields, profiles: seq<Fields>) {
    Body(before) in profiles && after == Factored(before, profiles)
  }

  lemma AllFactoredNext(after: seq<Fields>, before: seq<Fields>, profiles: seq<Fields>, next: Fields)
    requires AllFactored(after, before, profiles)
    requires |after| < |before| && IsFactored(next, before[|after|], profiles)
    ensures AllFactored(after + [next], before, profiles)
  {
  }

  lemma AllFactoredKept(after: seq<Fields>, before: seq<Fields>, profiles: seq<Fields>, body: Fields)
    requires AllFactored(after, before, profiles)
    ensures AllFactored(after, before, profiles + [body])
  {
    IndexKept(profiles, body);
    assert forall j :: 0 <= j < |after| ==>
      IsFactored(after[j], before[j], profiles) ==> IsFactored(after[j], before[j], profiles + [body]);
  }

  function FieldsOf(devices: seq<Device>): seq<Fields>
    reads devices
  {
    seq(|devices|, i requires 0 <= i < |devices| reads devices => devices[i].fields)
  }

  lemma LastIndex(xs: seq<Fields>, x: Fields)
    requires x !in xs
    ensures IndexOf(xs + [x], x) == |xs|
  {
  }

  lemma IndexKept(xs: seq<Fields>, y: Fields)
    ensures forall x :: x in xs ==> IndexOf(xs + [y], x) == IndexOf(xs, x)
  {
    forall x | x in xs ensures IndexOf(xs + [y], x) == IndexOf(xs, x) {
      assert xs == (xs + [y])[..|xs|];
      IndexInPrefix(xs + [y], |xs|, x);
    }
  }

  // ------------------------------------------------------------------ factoring loses nothing

  /** A factored device and its profile give the original back, apart from a `p` it had before. */
  lemma FactoringIsLossless(f: Fields, profiles: seq<Fields>)
    requires Body(f) in profiles
    ensures Refers(Factored(f, profiles), profiles)
    ensures Rebuilt(Factored(f, profiles), profiles) == f - {"p"}
    ensures "p" !in f ==> Rebuilt(Factored(f, profiles), profiles) == f
    ensures forall k :: k in f && k !in PROFILE_KEYS && k != "p" ==> Factored(f, profiles)[k] == f[k]
  {
  }

  /** Two devices share a profile number exactly when they behave alike. */
  lemma SharedExactlyWhenEqual(f: Fields, g: Fields, profiles: seq<Fields>)
    requires Body(f) in profiles && Body(g) in profiles
    ensures Factored(f, profiles)["p"] == Factored(g, profiles)["p"] <==> Body(f) == Body(g)
  {
  }

  /** Profile numbers run from zero in the order in which the behaviours first occur, and each is used. */
  lemma NumbersAreDense(fs: seq<Fields>, n: nat)
    ensures
      var profiles := Distinct(Bodies(fs));
      n < |profiles| ==>
        && (exists i :: 0 <= i < |fs| && Body(fs[i]) == profiles[n])
        && forall m :: 0 <= m < n ==> IndexOf(Bodies(fs), profiles[m]) < IndexOf(Bodies(fs), profiles[n])
  {
    var profiles := Distinct(Bodies(fs));
    if n < |profiles| {
      var i := IndexOf(Bodies(fs), profiles[n]);
      assert Bodies(fs)[i] == Body(fs[i]);
      forall m: nat | m < n ensures IndexOf(Bodies(fs), profiles[m]) < IndexOf(Bodies(fs), profiles[n]) {
        DistinctOrder(Bodies(fs), m, n);
      }
    }
  }

  // ------------------------------------------------------------------ writing

  /** One `profiles_<number>.json`. */
  datatype ProfileFile = ProfileFile(number: nat, first: nat, profiles: seq<Fields>)

  /** `files` hold `profiles` in runs of 256, numbered from zero. */
  predicate LaidOut(files: seq<ProfileFile>, profiles: seq<Fields>) {
    && |files| == (|profiles| + 255) / 256
    && forall k :: 0 <= k < |files| ==> files[k] == ProfileFile(k, 256 * k, Run(profiles, 256 * k))
  }

  function Run(profiles: seq<Fields>, start: nat): seq<Fields>
    requires start <= |profiles|
  {
    profiles[start..if start + PROFILES_PER_FILE <= |profiles| then start + PROFILES_PER_FILE else |profiles|]
  }

  method WriteProfiles(profiles: seq<Fields>) returns (files: seq<ProfileFile>)
    ensures LaidOut(files, profiles)
  {
    files := [];
    var start := 0;
    while start < |profiles|
      invariant start == 256 * |files| && start < |profiles| + 256
      invariant forall k :: 0 <= k < |files| ==>
        256 * k < |profiles| && files[k] == ProfileFile(k, 256 * k, Run(profiles, 256 * k))
    {
      files := files + [ProfileFile(start / PROFILES_PER_FILE, start, Run(profiles, start))];
      start := start + PROFILES_PER_FILE;
    }
  }

  /** The loader's rule: profile `p` is in file `p / 256`, at offset `p - first`. */
  lemma ProfileIsWhereExpected(files: seq<ProfileFile>, profiles: seq<Fields>, p: nat)
    requires LaidOut(files, profiles) && p < |profiles|
    ensures
      var k := p / 256;
      && k < |files| && files[k].number == k
      && files[k].first <= p < files[k].first + |files[k].profiles|
      && files[k].profiles[p - files[k].first] == profiles[p]
  {
    var k := p / 256;
    assert 256 * k <= p < 256 * k + 256;
  }

  function ChunksOf(files: seq<ProfileFile>): seq<seq<Fields>> {
    seq(|files|, k requires 0 <= k < |files| => files[k].profiles)
  }

  lemma {:induction false} PrefixFlattens(files: seq<ProfileFile>, profiles: seq<Fields>, n: nat)
    requires LaidOut(files, profiles) && n <= |files|
    ensures Flatten(ChunksOf(files[..n])) == profiles[..if 256 * n <= |profiles| then 256 * n else |profiles|]
  {
    if n > 0 {
      PrefixFlattens(files, profiles, n - 1);
      assert ChunksOf(files[..n]) == ChunksOf(files[..n - 1]) + [files[n - 1].profiles];
      FlattenSnoc(ChunksOf(files[..n - 1]), files[n - 1].profiles);
    }
  }

  /** The files hold the profiles, in order and once each. */
  lemma FilesConcatenate(files: seq<ProfileFile>, profiles: seq<Fields>)
    requires LaidOut(files, profiles)
    ensures Flatten(ChunksOf(files)) == profiles
  {
    PrefixFlattens(files, profiles, |files|);
    assert files[..|files|] == files;
    assert profiles[..|profiles|] == profiles;
  }

  // ------------------------------------------------------------------ validating

  /** The profile branch of `validate_file`, over the profile files in whatever order they are read. */
  method CollectProfileIds(files: seq<ProfileFile>) returns (known: set<int>)
    ensures forall p :: p in known <==> exists f :: f in files && f.first <= p < f.first + |f.profiles|
  {
    known := {};
    for i := 0 to |files|
      invariant forall p :: p in known <==> exists f :: f in files[..i] && f.first <= p < f.first + |f.profiles|
    {
      var f := files[i];
      assert files[..i + 1] == files[..i] + [f];
      ghost var before := known;
      for p := f.first to f.first + |f.profiles|
        invariant forall q :: q in known <==> q in before || f.first <= q < p
      {
        known := known + {p};
      }
    }
    assert files[..|files|] == files;
  }

  /** The id a device refers to. In Python a boolean counts as an integer. */
  function IdOf(d: Fields): Option<int> {
    if "p" !in d then None
    else
      match d["p"]
      case Int(n) => Some(n)
      case Bool(b) => Some(if b then 1 else 0)
      case _ => None
  }

  /** The devices that refer to an id, in order. */
  function Users(seen: seq<Fields>, p: int): seq<Fields> {
    if seen == [] then []
    else
      var d := seen[|seen| - 1];
      Users(seen[..|seen| - 1], p) + if IdOf(d) == Some(p) then [d] else []
  }

  /** The keys are the ids referenced among `seen` and not known; each is listed with all its users in order. */
  ghost predicate IsDangling(dangling: map<int, seq<Fields>>, seen: seq<Fields>, known: set<int>) {
    && (forall p :: p in dangling <==> p !in known && Users(seen, p) != [])
    && (forall p :: p in dangling ==> dangling[p] == Users(seen, p))
  }

  lemma UsersNext(seen: seq<Fields>, d: Fields, p: int)
    ensures Users(seen + [d], p) == Users(seen, p) + if IdOf(d) == Some(p) then [d] else []
  {
    assert (seen + [d])[..|seen|] == seen;
  }

  lemma DanglingStep(dangling: map<int, seq<Fields>>, seen: seq<Fields>, dev: Fields, known: set<int>)
    requires IsDangling(dangling, seen, known)
    ensures
      IsDangling(
        if IdOf(dev).Some? && IdOf(dev).value !in known then
          var p := IdOf(dev).value;
          dangling[p := (if p in dangling then dangling[p] else []) + [dev]]
        else dangling,
        seen + [dev], known)
  {
    hide Users, IdOf;
    forall p ensures Users(seen + [dev], p) == Users(seen, p) + if IdOf(dev) == Some(p) then [dev] else [] {
      UsersNext(seen, dev, p);
    }
  }

  lemma {:induction false} UserRefers(seen: seq<Fields>, p: int)
    requires Users(seen, p) != []
    ensures exists d :: d in seen && IdOf(d) == Some(p)
    decreases |seen|
  {
    var d := seen[|seen| - 1];
    if IdOf(d) != Some(p) {
      UserRefers(seen[..|seen| - 1], p);
    }
  }

  /** The dangling-reference check: the referenced ids that no profile file covers, and who uses them. */
  method FindDangling(deviceFiles: seq<seq<Fields>>, known: set<int>) returns (dangling: map<int, seq<Fields>>)
    ensures IsDangling(dangling, Flatten(deviceFiles), known)
  {
    hide IsDangling;
    dangling := map[];
    NothingSeen(known);
    for i := 0 to |deviceFiles|
      invariant IsDangling(dangling, Flatten(deviceFiles[..i]), known)
    {
      dangling := FindInFile(deviceFiles[i], dangling, Flatten(deviceFiles[..i]), known);
      FlattenTake(deviceFiles, i);
    }
    assert deviceFiles[..|deviceFiles|] == deviceFiles;
  }

  /** The inner loop, over the devices of one file. */
  method FindInFile(file: seq<Fields>, before: map<int, seq<Fields>>, ghost earlier: seq<Fields>, known: set<int>)
    returns (dangling: map<int, seq<Fields>>)
    requires IsDangling(before, earlier, known)
    ensures IsDangling(dangling, earlier + file, known)
  {
    hide IsDangling, IdOf;
    dangling := before;
    assert earlier + file[..0] == earlier;
    for j := 0 to |file|
      invariant IsDangling(dangling, earlier + file[..j], known)
    {
      var dev := file[j];
      DanglingStep(dangling, earlier + file[..j], dev, known);
      assert earlier + file[..j + 1] == earlier + file[..j] + [dev];
      var pid := IdOf(dev);
      if pid.Some? && pid.value !in known {
        var p := pid.value;
        dangling := dangling[p := (if p in dangling then dangling[p] else []) + [dev]];
      }
    }
    assert file[..|file|] == file;
  }

  lemma NothingSeen(known: set<int>)
    ensures IsDangling(map[], [], known)
  {
  }

  /** Read in any order, the written profile files cover exactly the ids of the profiles. */
  lemma KnownIdsAreAll(files: seq<ProfileFile>, read: seq<ProfileFile>, profiles: seq<Fields>, p: int)
    requires LaidOut(files, profiles)
    requires forall f :: f in read <==> f in files
    ensures (exists f :: f in read && f.first <= p < f.first + |f.profiles|) <==> 0 <= p < |profiles|
  {
    if 0 <= p < |profiles| {
      ProfileIsWhereExpected(files, profiles, p);
      assert files[p / 256] in read;
    }
  }
}
