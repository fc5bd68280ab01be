/**
  Packing devices into files of bounded size (phases 2 and 3 of `write_output` in
  tools/merge_converter_dbs.py).

  The packer is greedy. Four facts fix its output completely: nothing is lost or moved, no part
  is empty, a part fits or is a single device, and the next device would not have fitted. The
  last two results are that no other way to cut the same list does with fewer parts, and that
  the four facts leave no choice.
 */
module Packing {
  import opened Sequences

  const MAX_FILE_SIZE := 102400
  const BUNDLE_THRESHOLD := 4096
  const BUNDLE_TARGET_SIZE := 65536

  /** Length of `{"devices":[` and of `]}`. */
  const WRAPPER := 14

  /** Device texts, each with the comma after it. */
  function Cost<T>(xs: seq<T>, size: T -> nat): nat {
    if xs == [] then 0 else size(xs[0]) + 1 + Cost(xs[1..], size)
  }

  /** Length of the JSON text `{"devices":[...]}` without spaces. */
  function TextLength<T>(xs: seq<T>, size: T -> nat): nat {
    if xs == [] then WRAPPER else WRAPPER + Cost(xs, size) - 1
  }

  /** Length of the JSON text `[...]`. */
  function ListLength<T>(xs: seq<T>, size: T -> nat): nat {
    if xs == [] then 2 else 1 + Cost(xs, size)
  }

  lemma {:induction false} CostAppend<T>(xs: seq<T>, ys: seq<T>, size: T -> nat)
    ensures Cost(xs + ys, size) == Cost(xs, size) + Cost(ys, size)
    decreases |xs|
  {
    if xs == [] {
      assert xs + ys == ys;
    } else {
      assert (xs + ys)[1..] == xs[1..] + ys;
      CostAppend(xs[1..], ys, size);
    }
  }

  lemma CostSnoc<T>(xs: seq<T>, x: T, size: T -> nat)
    ensures Cost(xs + [x], size) == Cost(xs, size) + size(x) + 1
  {
    CostAppend(xs, [x], size);
    assert [x][1..] == [];
  }

  // ------------------------------------------------------------------ splitting a large manufacturer

  /** A part is not empty, and fits unless it is one device. */
  ghost predicate Fits<T>(part: seq<T>, size: T -> nat) {
    part != [] && (Cost(part, size) <= MAX_FILE_SIZE || |part| == 1)
  }

  /** A cut of `xs` into parts that fit. */
  ghost predicate IsCut<T>(parts: seq<seq<T>>, xs: seq<T>, size: T -> nat) {
    Flatten(parts) == xs && forall p :: p in parts ==> Fits(p, size)
  }

  /** No part has room for the first device of the next one. */
  ghost predicate IsGreedy<T>(parts: seq<seq<T>>, size: T -> nat) {
    forall k :: 0 <= k < |parts| - 1 ==> NoRoom(parts[k], parts[k + 1], size)
  }

  ghost predicate NoRoom<T>(part: seq<T>, next: seq<T>, size: T -> nat) {
    next != [] && Cost(part, size) + size(next[0]) + 1 > MAX_FILE_SIZE
  }

  method SplitOversized<T>(cleaned: seq<T>, size: T -> nat) returns (parts: seq<seq<T>>)
    ensures IsCut(parts, cleaned, size) && IsGreedy(parts, size)
  {
    parts := [];
    var current := [];
    var currentSize := 0;
    for i := 0 to |cleaned|
      invariant Flatten(parts) + current == cleaned[..i]
      invariant currentSize == Cost(current, size)
      invariant forall p :: p in parts ==> Fits(p, size)
      invariant IsGreedy(parts, size)
      invariant current == [] ==> i == 0
      invariant current != [] ==> Fits(current, size)
      invariant parts != [] ==> NoRoom(parts[|parts| - 1], current, size)
    {
      var dev := cleaned[i];
      var devSize := size(dev) + 1;
      if currentSize + devSize > MAX_FILE_SIZE && current != [] {
        FlattenSnoc(parts, current);
        parts := parts + [current];
        current := [];
        currentSize := 0;
      }
      CostSnoc(current, dev, size);
      TakeNext(Flatten(parts), current, cleaned, i);
      current := current + [dev];
      currentSize := currentSize + devSize;
    }
    if current != [] {
      FlattenSnoc(parts, current);
      parts := parts + [current];
    }
  }

  /** Every written part is within the limit, unless it is one device that is over it alone. */
  lemma PartLength<T>(part: seq<T>, size: T -> nat)
    requires Fits(part, size)
    ensures TextLength(part, size) <= MAX_FILE_SIZE + 13 || (|part| == 1 && size(part[0]) + 1 > MAX_FILE_SIZE)
  {
    if |part| == 1 {
      assert Cost(part[1..], size) == 0;
    }
  }

  // ------------------------------------------------------------------ the greedy cut is optimal and unique

  /** A part that reaches past another's first element and all of its rest is too big for it. */
  lemma Overreach<T>(q: seq<T>, pre: seq<T>, g: seq<T>, next: T, size: T -> nat)
    requires Fits(q, size) && g != [] && |q| > |pre| + |g|
    requires q[..|pre| + |g| + 1] == pre + g + [next]
    ensures Cost(g, size) + size(next) + 1 <= MAX_FILE_SIZE
  {
    var n := |pre| + |g| + 1;
    assert q == q[..n] + q[n..];
    CostAppend(q[..n], q[n..], size);
    CostSnoc(pre + g, next, size);
    CostAppend(pre, g, size);
  }

  lemma Reaches<T>(a: seq<T>, tail: seq<T>, q: seq<T>, rest: seq<T>)
    requires q + rest == a + tail && |q| > |a|
    ensures tail != [] && q[..|a| + 1] == a + [tail[0]]
  {
    assert q[..|a| + 1] == (q + rest)[..|a| + 1];
  }

  /** The first part of another cut ends no later than the first part of a greedy cut that starts later. */
  lemma FirstPart<T>(parts: seq<seq<T>>, other: seq<seq<T>>, pre: seq<T>, size: T -> nat)
    requires parts != [] && (forall p :: p in parts ==> Fits(p, size)) && IsGreedy(parts, size)
    requires forall q :: q in other ==> Fits(q, size)
    requires Flatten(other) == pre + Flatten(parts)
    ensures other != [] && |other[0]| <= |pre| + |parts[0]|
  {
    var g, tail := parts[0], Flatten(parts[1..]);
    assert g in parts;
    assert Flatten(other) == pre + g + tail;
    var q, rest := other[0], Flatten(other[1..]);
    assert q in other;
    var n := |pre + g|;
    if |q| > n {
      var h := parts[1];
      assert h in parts && NoRoom(g, h, size);
      assert tail == h + Flatten(parts[1..][1..]);
      Reaches(pre + g, tail, q, rest);
      Overreach(q, pre, g, h[0], size);
      assert false;
    }
  }

  lemma GreedyTail<T>(parts: seq<seq<T>>, size: T -> nat)
    requires parts != [] && IsGreedy(parts, size)
    ensures IsGreedy(parts[1..], size)
  {
    assert forall k :: 0 <= k < |parts| - 1 ==> parts[1..][k] == parts[k + 1];
  }

  /** While a greedy cut still has to cover no more than another cut, it needs no more parts. */
  lemma {:induction false} StaysAhead<T>(parts: seq<seq<T>>, other: seq<seq<T>>, pre: seq<T>, size: T -> nat)
    requires forall p :: p in parts ==> Fits(p, size)
    requires forall q :: q in other ==> Fits(q, size)
    requires IsGreedy(parts, size)
    requires Flatten(other) == pre + Flatten(parts)
    ensures |parts| <= |other|
    decreases |parts|
  {
    if parts != [] {
      FirstPart(parts, other, pre, size);
      GreedyTail(parts, size);
      var g, tail := parts[0], Flatten(parts[1..]);
      var q, rest := other[0], Flatten(other[1..]);
      var pre' := (pre + g)[|q|..];
      assert q + rest == pre + g + tail;
      assert rest == (q + rest)[|q|..] == (pre + g + tail)[|q|..] == pre' + tail;
      StaysAhead(parts[1..], other[1..], pre', size);
    }
  }

  /** No cut of the same devices into parts that fit has fewer parts. */
  lemma GreedyIsOptimal<T>(parts: seq<seq<T>>, other: seq<seq<T>>, xs: seq<T>, size: T -> nat)
    requires IsCut(parts, xs, size) && IsGreedy(parts, size) && IsCut(other, xs, size)
    ensures |parts| <= |other|
  {
    assert [] + xs == xs;
    StaysAhead(parts, other, [], size);
  }

  lemma EmptyCut<T>(parts: seq<seq<T>>, size: T -> nat)
    requires forall p :: p in parts ==> Fits(p, size)
    ensures Flatten(parts) == [] <==> parts == []
  {
    if parts != [] {
      assert parts[0] in parts;
    }
  }

  /** The four facts leave no choice. */
  lemma {:induction false} GreedyIsUnique<T>(parts: seq<seq<T>>, other: seq<seq<T>>, xs: seq<T>, size: T -> nat)
    requires IsCut(parts, xs, size) && IsGreedy(parts, size)
    requires IsCut(other, xs, size) && IsGreedy(other, size)
    ensures parts == other
    decreases |parts|
  {
    EmptyCut(parts, size);
    EmptyCut(other, size);
    if parts != [] {
      FirstPart(parts, other, [], size);
      FirstPart(other, parts, [], size);
      GreedyTail(parts, size);
      GreedyTail(other, size);
      var n := |parts[0]|;
      assert parts[0] == xs[..n] == other[0];
      assert Flatten(parts[1..]) == xs[n..] == Flatten(other[1..]);
      GreedyIsUnique(parts[1..], other[1..], xs[n..], size);
    }
  }

  // ------------------------------------------------------------------ bundling small manufacturers

  /** Length of the groups' JSON texts. */
  function Weight<T>(run: seq<seq<T>>, size: T -> nat): nat {
    if run == [] then 0 else Weight(run[..|run| - 1], size) + ListLength(run[|run| - 1], size)
  }

  /** No bundle has room for the first group of the next one. */
  ghost predicate RunsAreGreedy<T>(grouped: seq<seq<seq<T>>>, size: T -> nat) {
    forall k :: 0 <= k < |grouped| - 1 ==> NoRoomForGroup(grouped[k], grouped[k + 1], size)
  }

  ghost predicate NoRoomForGroup<T>(run: seq<seq<T>>, next: seq<seq<T>>, size: T -> nat) {
    next != [] && Weight(run, size) + ListLength(next[0], size) > BUNDLE_TARGET_SIZE
  }

  lemma WeightSnoc<T>(run: seq<seq<T>>, group: seq<T>, size: T -> nat)
    ensures Weight(run + [group], size) == Weight(run, size) + ListLength(group, size)
  {
    assert (run + [group])[..|run|] == run;
  }

  /** Closing a run keeps the runs greedy. */
  lemma RunCloses<T>(grouped: seq<seq<seq<T>>>, run: seq<seq<T>>, size: T -> nat)
    requires RunsAreGreedy(grouped, size)
    requires grouped != [] ==> NoRoomForGroup(grouped[|grouped| - 1], run, size)
    ensures RunsAreGreedy(grouped + [run], size)
  {
    hide NoRoomForGroup;
  }

  lemma RunGrows<T>(before: seq<seq<T>>, run: seq<seq<T>>, group: seq<T>, size: T -> nat)
    requires if run == [] then Weight(before, size) + ListLength(group, size) > BUNDLE_TARGET_SIZE else NoRoomForGroup(before, run, size)
    ensures NoRoomForGroup(before, run + [group], size)
  {
  }

  /** What the text of a bundle has over the texts of its groups. */
  lemma {:induction false} WeightIsCost<T>(run: seq<seq<T>>, size: T -> nat)
    requires forall g :: g in run ==> g != []
    ensures Weight(run, size) == Cost(Flatten(run), size) + |run|
    decreases |run|
  {
    if run != [] {
      var front, last := run[..|run| - 1], run[|run| - 1];
      assert run == front + [last] && last in run;
      assert forall g :: g in front ==> g in run;
      WeightIsCost(front, size);
      FlattenSnoc(front, last);
      CostAppend(Flatten(front), last, size);
    }
  }

  /** A run that weighs no more than the target makes a bundle that is within its limit. */
  lemma RunFits<T>(run: seq<seq<T>>, size: T -> nat)
    requires run != [] && (forall g :: g in run ==> g != []) && Weight(run, size) <= BUNDLE_TARGET_SIZE
    ensures Flatten(run) != [] && TextLength(Flatten(run), size) <= BUNDLE_TARGET_SIZE + 12
  {
    WeightIsCost(run, size);
    assert run[0] in run;
  }

  /** Every bundle is one run laid end to end, the runs are within the target and greedy, and the bundles within their limit. */
  ghost predicate AreBundles<T>(bundles: seq<seq<T>>, grouped: seq<seq<seq<T>>>, size: T -> nat) {
    && |bundles| == |grouped| && (forall k :: 0 <= k < |bundles| ==> bundles[k] == Flatten(grouped[k]) != [])
    && (forall k :: 0 <= k < |grouped| ==> Weight(grouped[k], size) <= BUNDLE_TARGET_SIZE)
    && RunsAreGreedy(grouped, size)
    && forall b :: b in bundles ==> TextLength(b, size) <= BUNDLE_TARGET_SIZE + 12
  }

  lemma NoBundles<T>(size: T -> nat)
    ensures AreBundles([], [], size) && Weight([], size) == 0
  {
  }

  lemma BundleCloses<T>(bundles: seq<seq<T>>, grouped: seq<seq<seq<T>>>, run: seq<seq<T>>, size: T -> nat)
    requires AreBundles(bundles, grouped, size)
    requires grouped != [] ==> NoRoomForGroup(grouped[|grouped| - 1], run, size)
    requires run != [] && (forall g :: g in run ==> g != []) && Weight(run, size) <= BUNDLE_TARGET_SIZE
    ensures AreBundles(bundles + [Flatten(run)], grouped + [run], size)
    ensures Flatten(grouped + [run]) == Flatten(grouped) + run
  {
    FlattenSnoc(grouped, run);
    RunCloses(grouped, run, size);
    RunFits(run, size);
    hide RunsAreGreedy, NoRoomForGroup, Weight, TextLength, Flatten;
  }

  /** The state of the loop: closed runs and an open one cover the first `i` groups. */
  ghost predicate IsOpen<T>(grouped: seq<seq<seq<T>>>, run: seq<seq<T>>, groups: seq<seq<T>>, i: nat, size: T -> nat) {
    && i <= |groups| && Flatten(grouped) + run == groups[..i] && (run == [] ==> i == 0)
    && (forall g :: g in run ==> g != []) && Weight(run, size) <= BUNDLE_TARGET_SIZE
    && (grouped != [] ==> NoRoomForGroup(grouped[|grouped| - 1], run, size))
  }

  /** The next group joins the open run. */
  lemma GroupJoins<T>(grouped: seq<seq<seq<T>>>, run: seq<seq<T>>, groups: seq<seq<T>>, i: nat, size: T -> nat)
    requires IsOpen(grouped, run, groups, i, size) && i < |groups| && Small(groups, size)
    requires Weight(run, size) + ListLength(groups[i], size) <= BUNDLE_TARGET_SIZE || run == []
    ensures IsOpen(grouped, run + [groups[i]], groups, i + 1, size)
    ensures Flatten(run + [groups[i]]) == Flatten(run) + groups[i]
    ensures Weight(run + [groups[i]], size) == Weight(run, size) + ListLength(groups[i], size)
  {
    if grouped != [] {
      EmptyHasRoom(grouped, run, groups, i, size);
      RunGrows(grouped[|grouped| - 1], run, groups[i], size);
    }
    NoBundles(size);
    FlattenSnoc(run, groups[i]);
    WeightSnoc(run, groups[i], size);
    TakeNext(Flatten(grouped), run, groups, i);
    hide Weight, NoRoomForGroup, ListLength, Flatten;
  }

  lemma EmptyHasRoom<T>(grouped: seq<seq<seq<T>>>, run: seq<seq<T>>, groups: seq<seq<T>>, i: nat, size: T -> nat)
    requires IsOpen(grouped, run, groups, i, size) && grouped != []
    ensures run != []
  {
  }

  /** The open run is closed and the next group starts a new one. */
  lemma GroupStarts<T>(
    bundles: seq<seq<T>>, grouped: seq<seq<seq<T>>>, run: seq<seq<T>>, groups: seq<seq<T>>, i: nat, size: T -> nat)
    requires AreBundles(bundles, grouped, size) && IsOpen(grouped, run, groups, i, size)
    requires i < |groups| && Small(groups, size) && run != []
    requires Weight(run, size) + ListLength(groups[i], size) > BUNDLE_TARGET_SIZE
    ensures AreBundles(bundles + [Flatten(run)], grouped + [run], size)
    ensures IsOpen(grouped + [run], [groups[i]], groups, i + 1, size)
    ensures Flatten([groups[i]]) == groups[i] && Weight([groups[i]], size) == ListLength(groups[i], size)
  {
    BundleCloses(bundles, grouped, run, size);
    RunGrows(run, [], groups[i], size);
    NoBundles(size);
    assert [] + [groups[i]] == [groups[i]];
    FlattenOne(groups[i]);
    WeightSnoc([], groups[i], size);
    TakeNext(Flatten(grouped + [run]), [], groups, i);
    hide Weight, NoRoomForGroup, ListLength, Flatten, AreBundles;
  }

  /** All groups are covered once the open run is closed. */
  lemma RunEnds<T>(bundles: seq<seq<T>>, grouped: seq<seq<seq<T>>>, run: seq<seq<T>>, groups: seq<seq<T>>, size: T -> nat)
    requires AreBundles(bundles, grouped, size) && IsOpen(grouped, run, groups, |groups|, size)
    ensures run != [] ==> AreBundles(bundles + [Flatten(run)], grouped + [run], size) && Flatten(grouped + [run]) == groups
    ensures run == [] ==> Flatten(grouped) == groups
  {
    assert groups[..|groups|] == groups;
    if run != [] {
      BundleCloses(bundles, grouped, run, size);
    }
    hide AreBundles, Weight, NoRoomForGroup, Flatten;
  }

  /**
    Bundles never split a manufacturer: `grouped` is the list of groups cut into consecutive
    runs, and every bundle is one run flattened. A group is never empty, because `merge_sources`
    makes a group by appending to it.
   */
  method BundleSmall<T>(groups: seq<seq<T>>, size: T -> nat)
    returns (bundles: seq<seq<T>>, ghost grouped: seq<seq<seq<T>>>)
    requires forall g :: g in groups ==> g != [] && TextLength(g, size) < BUNDLE_THRESHOLD
    ensures Flatten(grouped) == groups
    ensures AreBundles(bundles, grouped, size)
    ensures Flatten(bundles) == Flatten(groups)
  {
    bundles, grouped := [], [];
    var bundleDevs := [];
    var bundleSize := 0;
    ghost var run: seq<seq<T>> := [];
    NoBundles(size);
    AllSmall(groups, size);
    assert IsOpen(grouped, run, groups, 0, size) && Flatten(run) == [];
    hide Weight, AreBundles, TextLength, ListLength, IsOpen, Small, Flatten;
    for i := 0 to |groups|
      invariant IsOpen(grouped, run, groups, i, size) && AreBundles(bundles, grouped, size)
      invariant bundleDevs == Flatten(run) && bundleSize == Weight(run, size)
      invariant bundleDevs == [] <==> run == []
    {
      var cleaned := groups[i];
      assert cleaned in groups;
      var chunkSize := ListLength(cleaned, size);
      if bundleSize + chunkSize > BUNDLE_TARGET_SIZE && bundleDevs != [] {
        GroupStarts(bundles, grouped, run, groups, i, size);
        bundles, grouped, run := bundles + [bundleDevs], grouped + [run], [cleaned];
        bundleDevs := [];
        bundleSize := 0;
      } else {
        GroupJoins(grouped, run, groups, i, size);
        run := run + [cleaned];
      }
      bundleDevs := bundleDevs + cleaned;
      bundleSize := bundleSize + chunkSize;
    }
    RunEnds(bundles, grouped, run, groups, size);
    if bundleDevs != [] {
      bundles, grouped := bundles + [bundleDevs], grouped + [run];
    }
    BundlesFlatten(bundles, grouped, size);
  }

  /** A small group fits into a bundle of its own. */
  ghost predicate Small<T>(groups: seq<seq<T>>, size: T -> nat) {
    forall i :: 0 <= i < |groups| ==> groups[i] != [] && ListLength(groups[i], size) <= BUNDLE_TARGET_SIZE
  }

  lemma AllSmall<T>(groups: seq<seq<T>>, size: T -> nat)
    requires forall g :: g in groups ==> g != [] && TextLength(g, size) < BUNDLE_THRESHOLD
    ensures Small(groups, size)
  {
    forall i | 0 <= i < |groups| ensures groups[i] != [] && ListLength(groups[i], size) <= BUNDLE_TARGET_SIZE {
      assert groups[i] in groups;
    }
  }

  lemma BundlesFlatten<T>(bundles: seq<seq<T>>, grouped: seq<seq<seq<T>>>, size: T -> nat)
    requires AreBundles(bundles, grouped, size)
    ensures Flatten(bundles) == Flatten(Flatten(grouped))
  {
    FlattenRows(bundles, grouped);
  }
}
