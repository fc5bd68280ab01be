/**
  The written database as a whole: what tools/merge_converter_dbs.py writes gives every device
  back, and tools/validate_converter_db.py finds no dangling profile reference in it.
 */
module Database {
  import opened Wrappers
  import opened Json
  import opened Sequences
  import opened Profiles
  import opened WriteOutput

  function Map<A, B>(f: A -> B, xs: seq<A>): seq<B> {
    seq(|xs|, i requires 0 <= i < |xs| => f(xs[i]))
  }

  function Without<A>(xs: seq<A>, j: nat): seq<A>
    requires j < |xs|
  {
    xs[..j] + xs[j + 1..]
  }

  lemma WithoutOne<A>(xs: seq<A>, j: nat)
    requires j < |xs|
    ensures multiset(xs) == multiset{xs[j]} + multiset(Without(xs, j))
    ensures multiset(Without(xs, j)) == multiset(xs) - multiset{xs[j]}
  {
    assert xs == xs[..j] + [xs[j]] + xs[j + 1..];
  }

  /** Mapping respects rearrangement. */
  lemma {:induction false} MapRearranged<A, B>(f: A -> B, xs: seq<A>, ys: seq<A>)
    requires multiset(xs) == multiset(ys)
    ensures multiset(Map(f, xs)) == multiset(Map(f, ys))
    decreases |xs|
  {
    if xs == [] {
      assert |multiset(ys)| == 0;
    } else {
      assert xs[0] in multiset(ys);
      var j :| 0 <= j < |ys| && ys[j] == xs[0];
      WithoutOne(xs, 0);
      WithoutOne(ys, j);
      MapRearranged(f, Without(xs, 0), Without(ys, j));
      assert Map(f, Without(xs, 0)) == Without(Map(f, xs), 0);
      assert Map(f, Without(ys, j)) == Without(Map(f, ys), j);
      WithoutOne(Map(f, xs), 0);
      WithoutOne(Map(f, ys), j);
    }
  }

  lemma {:induction false} FlattenFactored(rows: seq<seq<Fields>>, merged: seq<seq<Fields>>, profiles: seq<Fields>)
    requires RowsFactored(rows, merged, profiles)
    ensures RowFactored(Flatten(rows), Flatten(merged), profiles)
    decreases |rows|
  {
    if rows != [] {
      assert RowFactored(rows[0], merged[0], profiles);
      FlattenFactored(rows[1..], merged[1..], profiles);
      FactoredAppend(rows[0], Flatten(rows[1..]), merged[0], Flatten(merged[1..]), profiles);
    }
  }

  lemma FactoredAppend(a: seq<Fields>, b: seq<Fields>, a0: seq<Fields>, b0: seq<Fields>, profiles: seq<Fields>)
    requires RowFactored(a, a0, profiles) && RowFactored(b, b0, profiles)
    ensures RowFactored(a + b, a0 + b0, profiles)
  {
    hide IsFactored;
    forall i | 0 <= i < |a + b| ensures IsFactored((a + b)[i], (a0 + b0)[i], profiles) {
      if i >= |a| {
        assert IsFactored(b[i - |a|], b0[i - |a|], profiles);
      }
    }
  }

  /** What a written device stands for, given the profiles. */
  function Meaning(profiles: seq<Fields>): Fields -> Fields {
    (d: Fields) => if Refers(d, profiles) then Rebuilt(d, profiles) else d
  }

  function Unnumbered(d: Fields): Fields {
    d - {"p"}
  }

  /** What `WriteDatabase` promises about its output. */
  ghost predicate IsDatabase(
    merged: seq<seq<Fields>>, profileFiles: seq<ProfileFile>, deviceFiles: seq<seq<Fields>>)
  {
    var profiles := Distinct(Bodies(Flatten(merged)));
    && LaidOut(profileFiles, profiles)
    && exists rows :: RowsFactored(rows, merged, profiles) && multiset(Flatten(deviceFiles)) == multiset(Flatten(rows))
  }

  /** The files give every device back once, with the behaviour it had. */
  lemma DatabaseIsLossless(
    merged: seq<seq<Fields>>, profileFiles: seq<ProfileFile>, deviceFiles: seq<seq<Fields>>)
    requires IsDatabase(merged, profileFiles, deviceFiles)
    ensures
      var stored := Flatten(ChunksOf(profileFiles));
      multiset(Map(Meaning(stored), Flatten(deviceFiles))) == multiset(Map(Unnumbered, Flatten(merged)))
  {
    var profiles := Distinct(Bodies(Flatten(merged)));
    var rows :| RowsFactored(rows, merged, profiles) && multiset(Flatten(deviceFiles)) == multiset(Flatten(rows));
    FilesConcatenate(profileFiles, profiles);
    FlattenFactored(rows, merged, profiles);
    MeaningsAreOriginals(Flatten(rows), Flatten(merged), profiles);
    MapRearranged(Meaning(profiles), Flatten(deviceFiles), Flatten(rows));
  }

  lemma MeaningsAreOriginals(after: seq<Fields>, before: seq<Fields>, profiles: seq<Fields>)
    requires RowFactored(after, before, profiles)
    ensures Map(Meaning(profiles), after) == Map(Unnumbered, before)
  {
    forall i | 0 <= i < |after| ensures Meaning(profiles)(after[i]) == Unnumbered(before[i]) {
      assert IsFactored(after[i], before[i], profiles);
      FactoringIsLossless(before[i], profiles);
    }
  }

  lemma WrittenRefer(merged: seq<seq<Fields>>, profileFiles: seq<ProfileFile>, deviceFiles: seq<seq<Fields>>, d: Fields)
    requires IsDatabase(merged, profileFiles, deviceFiles) && d in Flatten(deviceFiles)
    ensures Refers(d, Distinct(Bodies(Flatten(merged))))
  {
    var profiles := Distinct(Bodies(Flatten(merged)));
    var rows :| RowsFactored(rows, merged, profiles) && multiset(Flatten(deviceFiles)) == multiset(Flatten(rows));
    FlattenFactored(rows, merged, profiles);
    assert d in multiset(Flatten(rows));
    var i :| 0 <= i < |Flatten(rows)| && Flatten(rows)[i] == d;
    assert IsFactored(d, Flatten(merged)[i], profiles);
  }

  /** An id that is used is covered. */
  lemma UsedIsKnown(
    merged: seq<seq<Fields>>, profileFiles: seq<ProfileFile>, deviceFiles: seq<seq<Fields>>, read: seq<ProfileFile>, p: int)
    requires IsDatabase(merged, profileFiles, deviceFiles)
    requires forall f :: f in read <==> f in profileFiles
    requires Users(Flatten(deviceFiles), p) != []
    ensures exists f :: f in read && f.first <= p < f.first + |f.profiles|
  {
    var profiles := Distinct(Bodies(Flatten(merged)));
    UserRefers(Flatten(deviceFiles), p);
    var d :| d in Flatten(deviceFiles) && IdOf(d) == Some(p);
    WrittenRefer(merged, profileFiles, deviceFiles, d);
    hide IsDatabase, Distinct;
    KnownIdsAreAll(profileFiles, read, profiles, p) by { DatabaseIsLaidOut(merged, profileFiles, deviceFiles); }
  }

  lemma DatabaseIsLaidOut(merged: seq<seq<Fields>>, profileFiles: seq<ProfileFile>, deviceFiles: seq<seq<Fields>>)
    requires IsDatabase(merged, profileFiles, deviceFiles)
    ensures LaidOut(profileFiles, Distinct(Bodies(Flatten(merged))))
  {
  }

  /** Whatever order the profile files are read in, no reference dangles. */
  lemma NothingDangles(
    merged: seq<seq<Fields>>, profileFiles: seq<ProfileFile>, deviceFiles: seq<seq<Fields>>,
    read: seq<ProfileFile>, known: set<int>, dangling: map<int, seq<Fields>>)
    requires IsDatabase(merged, profileFiles, deviceFiles)
    requires forall f :: f in read <==> f in profileFiles
    requires forall p :: p in known <==> exists f :: f in read && f.first <= p < f.first + |f.profiles|
    requires IsDangling(dangling, Flatten(deviceFiles), known)
    ensures dangling == map[]
  {
    hide IsDatabase, Users;
    forall p ensures p !in dangling {
      if Users(Flatten(deviceFiles), p) != [] {
        UsedIsKnown(merged, profileFiles, deviceFiles, read, p);
        assert p in known;
      }
    }
  }

  /** Writing, then validating with the profile files in the order given by `read`. */
  method WriteAndValidate(merged: seq<seq<Fields>>, size: Fields -> nat, reorder: seq<ProfileFile> -> seq<ProfileFile>)
    returns (profileFiles: seq<ProfileFile>, deviceFiles: seq<seq<Fields>>, dangling: map<int, seq<Fields>>)
    requires forall g :: 0 <= g < |merged| ==> merged[g] != []
    requires forall files: seq<ProfileFile>, f :: f in reorder(files) <==> f in files
    ensures IsDatabase(merged, profileFiles, deviceFiles)
    ensures forall f :: f in deviceFiles ==> WithinLimit(f, size)
    ensures dangling == map[]
  {
    var byManuf, rows;
    byManuf, rows, profileFiles, deviceFiles := WriteDatabase(merged, size);
    var read := reorder(profileFiles);
    var known := CollectProfileIds(read);
    dangling := FindDangling(deviceFiles, known);
    NothingDangles(merged, profileFiles, deviceFiles, read, known, dangling);
  }
}
