/**
  Writing the merged database (`write_output` of tools/merge_converter_dbs.py) and validating
  what was written (`main` of tools/validate_converter_db.py).

  The devices of one manufacturer are one list; a second list holds all devices of all
  manufacturers. Both hold the same objects, and the profile builder is given only the second.
 */
module WriteOutput {
  import opened Json
  import opened Sequences
  import opened Profiles
  import opened Packing

  ghost function Objects(byManuf: seq<seq<Device>>): set<object> {
    if byManuf == [] then {} else (set d: Device | d in byManuf[0]) + Objects(byManuf[1..])
  }

  function RowsOf(byManuf: seq<seq<Device>>): (rows: seq<seq<Fields>>)
    reads Objects(byManuf)
    ensures |rows| == |byManuf|
  {
    if byManuf == [] then [] else [FieldsOf(byManuf[0])] + RowsOf(byManuf[1..])
  }

  lemma {:induction false} RowAt(byManuf: seq<seq<Device>>, g: nat)
    requires g < |byManuf|
    ensures RowsOf(byManuf)[g] == FieldsOf(byManuf[g])
  {
    if g > 0 {
      RowAt(byManuf[1..], g - 1);
    }
  }

  ghost predicate NoDuplicates(devices: seq<Device>) {
    forall i, j :: 0 <= i < j < |devices| ==> devices[i] != devices[j]
  }

  lemma NoDuplicatesAppend(a: seq<Device>, b: seq<Device>)
    requires NoDuplicates(a) && NoDuplicates(b) && forall d :: d in b ==> d !in a
    ensures NoDuplicates(a + b)
  {
    forall i, j | 0 <= i < j < |a + b| ensures (a + b)[i] != (a + b)[j] {
      if i < |a| <= j {
        assert b[j - |a|] in b && a[i] in a;
      }
    }
  }

  /** One fresh object per device, filed under its manufacturer and in the list of all devices. */
  method FileDevices(merged: seq<seq<Fields>>) returns (byManuf: seq<seq<Device>>, all: seq<Device>)
    ensures all == Flatten(byManuf)
    ensures fresh(all)
    ensures NoDuplicates(all)
    ensures |byManuf| == |merged| && forall g :: 0 <= g < |merged| ==> FieldsOf(byManuf[g]) == merged[g]
    ensures FieldsOf(all) == Flatten(merged)
  {
    byManuf, all := [], [];
    for g := 0 to |merged|
      invariant all == Flatten(byManuf)
      invariant fresh(all)
      invariant NoDuplicates(all)
      invariant |byManuf| == g && forall h :: 0 <= h < g ==> FieldsOf(byManuf[h]) == merged[h]
      invariant FieldsOf(all) == Flatten(merged[..g])
    {
      var cleaned := FileOne(merged[g], all);
      NoDuplicatesAppend(all, cleaned);
      FlattenSnoc(byManuf, cleaned);
      FlattenSnoc(merged[..g], merged[g]);
      assert merged[..g + 1] == merged[..g] + [merged[g]];
      assert FieldsOf(all + cleaned) == FieldsOf(all) + FieldsOf(cleaned);
      byManuf, all := byManuf + [cleaned], all + cleaned;
    }
    assert merged[..|merged|] == merged;
  }

  method FileOne(devices: seq<Fields>, others: seq<Device>) returns (cleaned: seq<Device>)
    ensures fresh(cleaned) && forall d :: d in cleaned ==> d !in others
    ensures NoDuplicates(cleaned)
    ensures FieldsOf(cleaned) == devices
  {
    cleaned := [];
    for i := 0 to |devices|
      invariant |cleaned| == i && forall j :: 0 <= j < i ==> cleaned[j].fields == devices[j]
      invariant fresh(cleaned) && forall d :: d in cleaned ==> d !in others
      invariant NoDuplicates(cleaned)
    {
      var dev := new Device(devices[i]);
      cleaned := cleaned + [dev];
    }
  }

  /** Every row is the row of `before` with each device factored. */
  ghost predicate RowsFactored(after: seq<seq<Fields>>, before: seq<seq<Fields>>, profiles: seq<Fields>) {
    && |after| == |before|
    && forall g :: 0 <= g < |after| ==> RowFactored(after[g], before[g], profiles)
  }

  ghost predicate RowFactored(after: seq<Fields>, before: seq<Fields>, profiles: seq<Fields>) {
    |after| == |before| && forall i :: 0 <= i < |after| ==> IsFactored(after[i], before[i], profiles)
  }

  /** A file's text is within the limit, unless it holds one device that is over it alone. */
  predicate WithinLimit(file: seq<Fields>, size: Fields -> nat) {
    TextLength(file, size) <= MAX_FILE_SIZE + 13 || (|file| == 1 && size(file[0]) + 1 > MAX_FILE_SIZE)
  }

  /** A manufacturer is bundled with others if its text is shorter than this. */
  predicate IsSmall(row: seq<Fields>, size: Fields -> nat) {
    TextLength(row, size) < 4096
  }

  /** The manufacturers of one kind, in order. */
  function Those(rows: seq<seq<Fields>>, size: Fields -> nat, small: bool): seq<seq<Fields>> {
    if rows == [] then []
    else
      var last := rows[|rows| - 1];
      Those(rows[..|rows| - 1], size, small) + if IsSmall(last, size) == small then [last] else []
  }

  lemma ThoseNext(rows: seq<seq<Fields>>, size: Fields -> nat, small: bool, g: nat)
    requires g < |rows|
    ensures
      Those(rows[..g + 1], size, small) ==
        if IsSmall(rows[g], size) == small then Those(rows[..g], size, small) + [rows[g]] else Those(rows[..g], size, small)
  {
    assert rows[..g + 1][..g] == rows[..g];
  }

  /** The two kinds are all there are. */
  lemma {:induction false} ThoseAreAll(rows: seq<seq<Fields>>, size: Fields -> nat)
    ensures
      multiset(Flatten(Those(rows, size, false))) + multiset(Flatten(Those(rows, size, true))) == multiset(Flatten(rows))
    decreases |rows|
  {
    if rows != [] {
      var n := |rows| - 1;
      ThoseAreAll(rows[..n], size);
      assert rows[..n + 1] == rows;
      ThoseNext(rows, size, false, n);
      ThoseNext(rows, size, true, n);
      FlattenTake(rows, n);
      FlattenSnoc(Those(rows[..n], size, IsSmall(rows[n], size)), rows[n]);
    }
  }

  lemma {:induction false} OwnHoldAll(own: seq<seq<seq<Fields>>>, large: seq<seq<Fields>>, size: Fields -> nat)
    requires AreAllOwn(own, large, size)
    ensures Flatten(Flatten(own)) == Flatten(large)
  {
    forall g | 0 <= g < |large| ensures Flatten(own[g]) == large[g] {
      assert AreOwn(own[g], large[g], size);
      FlattenOne(large[g]);
    }
    FlattenRows(large, own);
  }

  /** Packing loses nothing. */
  lemma PackedHoldAll(
    files: seq<seq<Fields>>, own: seq<seq<seq<Fields>>>, bundles: seq<seq<Fields>>, grouped: seq<seq<seq<Fields>>>,
    rows: seq<seq<Fields>>, size: Fields -> nat)
    requires ArePacked(files, own, bundles, grouped, rows, size)
    ensures multiset(Flatten(files)) == multiset(Flatten(rows))
  {
    OwnHoldAll(own, Those(rows, size, false), size);
    BundlesFlatten(bundles, grouped, size);
    FlattenAppend(Flatten(own), bundles);
    ThoseAreAll(rows, size);
    hide AreAllOwn, AreBundles, Flatten, Those;
  }

  /** The files of a large manufacturer: one if it fits, else the greedy cut. */
  ghost predicate AreOwn(parts: seq<seq<Fields>>, row: seq<Fields>, size: Fields -> nat) {
    if TextLength(row, size) <= MAX_FILE_SIZE then parts == [row] else IsCut(parts, row, size) && IsGreedy(parts, size)
  }

  /** Every large manufacturer has files of its own, and just the small ones are bundled, whole. */
  ghost predicate ArePacked(
    files: seq<seq<Fields>>, own: seq<seq<seq<Fields>>>, bundles: seq<seq<Fields>>, grouped: seq<seq<seq<Fields>>>,
    rows: seq<seq<Fields>>, size: Fields -> nat)
  {
    && files == Flatten(own) + bundles
    && AreAllOwn(own, Those(rows, size, false), size)
    && AreBundles(bundles, grouped, size) && Flatten(grouped) == Those(rows, size, true)
  }

  ghost predicate AreAllOwn(own: seq<seq<seq<Fields>>>, large: seq<seq<Fields>>, size: Fields -> nat) {
    |own| == |large| && forall g :: 0 <= g < |large| ==> AreOwn(own[g], large[g], size)
  }

  lemma OwnNext(own: seq<seq<seq<Fields>>>, large: seq<seq<Fields>>, parts: seq<seq<Fields>>, row: seq<Fields>, size: Fields -> nat)
    requires AreAllOwn(own, large, size) && AreOwn(parts, row, size)
    ensures AreAllOwn(own + [parts], large + [row], size)
    ensures Flatten(own + [parts]) == Flatten(own) + parts
  {
    hide AreOwn;
    FlattenSnoc(own, parts);
  }

  /** Phase 1 sorts the manufacturers by size, phases 2 and 3 write them. */
  method PackFiles(rows: seq<seq<Fields>>, size: Fields -> nat) returns (
    files: seq<seq<Fields>>, ghost own: seq<seq<seq<Fields>>>, bundles: seq<seq<Fields>>,
    ghost grouped: seq<seq<seq<Fields>>>)
    requires forall g :: 0 <= g < |rows| ==> rows[g] != []
    ensures ArePacked(files, own, bundles, grouped, rows, size)
    ensures multiset(Flatten(files)) == multiset(Flatten(rows))
    ensures forall f :: f in files ==> WithinLimit(f, size)
  {
    hide WithinLimit, TextLength, AreOwn, AreAllOwn, IsSmall, AreBundles;
    files, own := [], [];
    var small: seq<seq<Fields>> := [];
    NoneOwn(size);
    for g := 0 to |rows|
      invariant files == Flatten(own) && AreAllOwn(own, Those(rows[..g], size, false), size)
      invariant small == Those(rows[..g], size, true)
      invariant forall s :: s in small ==> s != [] && TextLength(s, size) < BUNDLE_THRESHOLD
      invariant forall f :: f in files ==> WithinLimit(f, size)
    {
      var cleaned := rows[g];
      ThoseNext(rows, size, false, g);
      ThoseNext(rows, size, true, g);
      SmallExactly(cleaned, size);
      if TextLength(cleaned, size) >= BUNDLE_THRESHOLD {
        var parts := WriteManufacturer(cleaned, size);
        OwnNext(own, Those(rows[..g], size, false), parts, cleaned, size);
        files, own := files + parts, own + [parts];
      } else {
        small := small + [cleaned];
      }
    }
    assert rows[..|rows|] == rows;
    bundles, grouped := WriteBundles(small, size);
    files := files + bundles;
    PackedHoldAll(files, own, bundles, grouped, rows, size);
  }

  lemma NoneOwn(size: Fields -> nat)
    ensures AreAllOwn([], [], size)
  {
  }

  lemma SmallExactly(row: seq<Fields>, size: Fields -> nat)
    ensures IsSmall(row, size) <==> TextLength(row, size) < BUNDLE_THRESHOLD
  {
  }

  /** Phase 3, and the bound on its files: it is below the one on a manufacturer's own files. */
  method WriteBundles(small: seq<seq<Fields>>, size: Fields -> nat)
    returns (bundles: seq<seq<Fields>>, ghost grouped: seq<seq<seq<Fields>>>)
    requires forall s :: s in small ==> s != [] && TextLength(s, size) < BUNDLE_THRESHOLD
    ensures AreBundles(bundles, grouped, size) && Flatten(grouped) == small
    ensures Flatten(bundles) == Flatten(small)
    ensures forall b :: b in bundles ==> WithinLimit(b, size)
  {
    bundles, grouped := BundleSmall(small, size);
  }

  /** One large manufacturer: one file if it fits, else greedy parts. */
  method WriteManufacturer(cleaned: seq<Fields>, size: Fields -> nat) returns (parts: seq<seq<Fields>>)
    requires cleaned != []
    ensures AreOwn(parts, cleaned, size)
    ensures Flatten(parts) == cleaned
    ensures forall p :: p in parts ==> WithinLimit(p, size)
  {
    if TextLength(cleaned, size) <= MAX_FILE_SIZE {
      parts := [cleaned];
    } else {
      parts := SplitOversized(cleaned, size);
      forall p | p in parts ensures WithinLimit(p, size) {
        PartLength(p, size);
      }
    }
  }

  /**
    `merged` holds the cleaned devices of each manufacturer. Read through the manufacturers'
    lists, every device has the profile number of its behaviour, and the number gives it back.
   */
  method WriteDatabase(merged: seq<seq<Fields>>, size: Fields -> nat) returns (
    byManuf: seq<seq<Device>>, rows: seq<seq<Fields>>,
    profileFiles: seq<ProfileFile>, deviceFiles: seq<seq<Fields>>)
    requires forall g :: 0 <= g < |merged| ==> merged[g] != []
    ensures
      var profiles := Distinct(Bodies(Flatten(merged)));
      LaidOut(profileFiles, profiles) && RowsFactored(rows, merged, profiles)
    ensures |byManuf| == |rows| && forall g :: 0 <= g < |rows| ==> FieldsOf(byManuf[g]) == rows[g]
    ensures multiset(Flatten(deviceFiles)) == multiset(Flatten(rows))
    ensures exists own, bundles, grouped :: ArePacked(deviceFiles, own, bundles, grouped, rows, size)
    ensures forall f :: f in deviceFiles ==> WithinLimit(f, size)
  {
    var allCleaned;
    byManuf, allCleaned := FileDevices(merged);
    ghost var was := map d | d in allCleaned :: d.fields;
    WereMerged(byManuf, was, merged);
    var profiles := BuildProfiles(allCleaned);
    RowsAreFactored(byManuf, was, merged, profiles);
    rows := RowsOf(byManuf);
    profileFiles := WriteProfiles(profiles);
    ghost var own, grouped;
    var bundles;
    deviceFiles, own, bundles, grouped := PackFiles(rows, size);
  }

  /** The objects' fields before factoring, object by object. */
  ghost predicate Were(byManuf: seq<seq<Device>>, was: map<Device, Fields>, merged: seq<seq<Fields>>) {
    && |byManuf| == |merged|
    && forall g :: 0 <= g < |byManuf| ==> WereRow(byManuf[g], was, merged[g])
  }

  ghost predicate WereRow(row: seq<Device>, was: map<Device, Fields>, merged: seq<Fields>) {
    |row| == |merged| && forall i :: 0 <= i < |row| ==> row[i] in was && was[row[i]] == merged[i]
  }

  lemma WereMerged(byManuf: seq<seq<Device>>, was: map<Device, Fields>, merged: seq<seq<Fields>>)
    requires was == map d | d in Flatten(byManuf) :: d.fields
    requires |byManuf| == |merged| && forall g :: 0 <= g < |merged| ==> FieldsOf(byManuf[g]) == merged[g]
    ensures Were(byManuf, was, merged)
  {
    forall g | 0 <= g < |byManuf| ensures WereRow(byManuf[g], was, merged[g]) {
      assert FieldsOf(byManuf[g]) == merged[g];
      forall i | 0 <= i < |byManuf[g]| ensures byManuf[g][i] in was && was[byManuf[g][i]] == merged[g][i] {
        FlattenMember(byManuf, byManuf[g][i]);
      }
    }
  }

  lemma RowsAreFactored(
    byManuf: seq<seq<Device>>, was: map<Device, Fields>, merged: seq<seq<Fields>>, profiles: seq<Fields>)
    requires Were(byManuf, was, merged)
    requires forall d :: d in was ==> IsFactored(d.fields, was[d], profiles)
    requires forall g :: 0 <= g < |merged| ==> merged[g] != []
    ensures RowsFactored(RowsOf(byManuf), merged, profiles)
    ensures forall g :: 0 <= g < |byManuf| ==> FieldsOf(byManuf[g]) == RowsOf(byManuf)[g] != []
  {
    hide IsFactored;
    forall g | 0 <= g < |byManuf|
      ensures RowFactored(RowsOf(byManuf)[g], merged[g], profiles)
      ensures FieldsOf(byManuf[g]) == RowsOf(byManuf)[g] != []
    {
      RowAt(byManuf, g);
      RowIsFactored(byManuf[g], was, merged[g], profiles);
    }
  }

  lemma RowIsFactored(row: seq<Device>, was: map<Device, Fields>, merged: seq<Fields>, profiles: seq<Fields>)
    requires WereRow(row, was, merged)
    requires forall d :: d in was ==> IsFactored(d.fields, was[d], profiles)
    ensures RowFactored(FieldsOf(row), merged, profiles)
  {
    hide IsFactored;
  }
}
