/** Facts about sequences that several modules share. */
module Sequences {

  function Flatten<T>(xss: seq<seq<T>>): seq<T> {
    if xss == [] then [] else xss[0] + Flatten(xss[1..])
  }

  lemma {:induction false} FlattenAppend<T>(xss: seq<seq<T>>, yss: seq<seq<T>>)
    ensures Flatten(xss + yss) == Flatten(xss) + Flatten(yss)
    decreases |xss|
  {
    if xss == [] {
      assert xss + yss == yss;
    } else {
      assert (xss + yss)[1..] == xss[1..] + yss;
      FlattenAppend(xss[1..], yss);
    }
  }

  lemma FlattenOne<T>(xs: seq<T>)
    ensures Flatten([xs]) == xs
  {
    assert Flatten([xs]) == xs + [];
  }

  lemma FlattenSnoc<T>(xss: seq<seq<T>>, xs: seq<T>)
    ensures Flatten(xss + [xs]) == Flatten(xss) + xs
  {
    FlattenAppend(xss, [xs]);
    FlattenOne(xs);
  }

  lemma FlattenTake<T>(xss: seq<seq<T>>, i: nat)
    requires i < |xss|
    ensures Flatten(xss[..i + 1]) == Flatten(xss[..i]) + xss[i]
  {
    assert xss[..i + 1] == xss[..i] + [xss[i]];
    FlattenSnoc(xss[..i], xss[i]);
  }

  function Reverse<T>(xs: seq<T>): seq<T> {
    if xs == [] then [] else Reverse(xs[1..]) + [xs[0]]
  }

  lemma {:induction false} ReverseSnoc<T>(xs: seq<T>, x: T)
    ensures Reverse(xs + [x]) == [x] + Reverse(xs)
    decreases |xs|
  {
    if xs != [] {
      assert (xs + [x])[1..] == xs[1..] + [x];
      ReverseSnoc(xs[1..], x);
    }
  }

  /** Flattening twice is flattening the flattened rows. */
  lemma {:induction false} FlattenRows<T>(rows: seq<seq<T>>, nested: seq<seq<seq<T>>>)
    requires |rows| == |nested| && forall k :: 0 <= k < |rows| ==> rows[k] == Flatten(nested[k])
    ensures Flatten(rows) == Flatten(Flatten(nested))
    decreases |rows|
  {
    if rows != [] {
      FlattenRows(rows[1..], nested[1..]);
      FlattenAppend(nested[0], Flatten(nested[1..]));
    }
  }

  /** A list being cut: moving on by one element extends the open part. */
  lemma TakeNext<T>(done: seq<T>, part: seq<T>, xs: seq<T>, i: nat)
    requires i < |xs| && done + part == xs[..i]
    ensures done + (part + [xs[i]]) == xs[..i + 1]
  {
    assert xs[..i + 1] == xs[..i] + [xs[i]];
  }

  lemma {:induction false} FlattenMember<T>(xss: seq<seq<T>>, x: T)
    ensures x in Flatten(xss) <==> exists k :: 0 <= k < |xss| && x in xss[k]
    decreases |xss|
  {
    if xss != [] {
      FlattenMember(xss[1..], x);
      assert forall k :: 0 <= k < |xss[1..]| ==> xss[1..][k] == xss[k + 1];
      if exists k :: 0 <= k < |xss| && x in xss[k] {
        var k :| 0 <= k < |xss| && x in xss[k];
        assert k > 0 ==> x in xss[1..][k - 1];
      }
    }
  }

  /** The elements of `xs`, each where it first occurs. */
  function Distinct<T(==, !new)>(xs: seq<T>): (r: seq<T>)
    ensures forall x :: x in r <==> x in xs
    ensures forall i, j :: 0 <= i < j < |r| ==> r[i] != r[j]
  {
    if xs == [] then []
    else
      var r, x := Distinct(xs[..|xs| - 1]), xs[|xs| - 1];
      assert xs == xs[..|xs| - 1] + [x];
      if x in r then r else r + [x]
  }

  lemma DistinctNext<T(!new)>(xs: seq<T>, i: nat)
    requires i < |xs|
    ensures
      var r := Distinct(xs[..i]);
      Distinct(xs[..i + 1]) == if xs[i] in r then r else r + [xs[i]]
  {
    assert xs[..i + 1][..i] == xs[..i];
  }

  function IndexOf<T(==)>(xs: seq<T>, x: T): (i: nat)
    requires x in xs
    ensures i < |xs| && xs[i] == x && x !in xs[..i]
  {
    if xs[0] == x then 0 else 1 + IndexOf(xs[1..], x)
  }

  /** `Distinct` lists the elements in the order of their first occurrences. */
  lemma {:induction false} DistinctOrder<T(!new)>(xs: seq<T>, i: nat, j: nat)
    requires i < j < |Distinct(xs)|
    ensures IndexOf(xs, Distinct(xs)[i]) < IndexOf(xs, Distinct(xs)[j])
    decreases |xs|
  {
    var front, x := xs[..|xs| - 1], xs[|xs| - 1];
    var r := Distinct(front);
    if j < |r| {
      DistinctOrder(front, i, j);
      IndexInPrefix(xs, |front|, r[j]);
    } else {
      assert x !in front;
      assert IndexOf(xs, x) == |front|;
    }
    IndexInPrefix(xs, |front|, r[i]);
  }

  lemma {:induction false} IndexInPrefix<T>(xs: seq<T>, n: nat, x: T)
    requires n <= |xs| && x in xs[..n]
    ensures IndexOf(xs, x) == IndexOf(xs[..n], x)
    decreases n
  {
    if xs[0] != x {
      assert xs[..n][1..] == xs[1..][..n - 1];
      IndexInPrefix(xs[1..], n - 1, x);
    }
  }
}
