/**
  Combining extracts, keeping the richer entry per device identity
  (tools/merge_z2m_extracts.py).
 */
module CombineExtracts {
  import opened Wrappers
  import opened Json
  import opened Text

  /** An absent field and an empty one are the same to every use of these fields. */
  datatype Entry = Entry(
    e: seq<Fields>,
    tuyaDp: Fields,
    d: string,
    fz: seq<Fields>,
    tz: seq<Fields>)

  /** Manufacturer and model, either of which may be missing. */
  type Identity = (Option<string>, Option<string>)

  type Extract = map<Identity, Entry>

  // ------------------------------------------------------------------ richness

  /** Python's truth value. A number is false when its digits in front of an exponent are all zero. */
  predicate Truthy(j: Json) {
    match j
    case Null => false
    case Bool(b) => b
    case Int(n) => n != 0
    case Float(text) => HasDigit(text)
    case Str(s) => s != ""
    case Arr(items) => items != []
    case Obj(fields) => fields != map[]
  }

  predicate HasDigit(text: string) {
    text != "" && text[0] !in {'e', 'E'} && ('1' <= text[0] <= '9' || HasDigit(text[1..]))
  }

  predicate Annotated(expose: Fields) {
    exists k :: k in expose && k in {"cat", "sel", "num", "dc", "u"} && Truthy(expose[k])
  }

  function CountAnnotated(exposes: seq<Fields>): nat {
    if exposes == [] then 0 else (if Annotated(exposes[0]) then 1 else 0) + CountAnnotated(exposes[1..])
  }

  predicate Blank(s: string) {
    forall c :: c in s ==> IsSpace(c)
  }

  /** Datapoints, exposes, annotated exposes, converters, description. */
  function Richness(dev: Entry): seq<nat> {
    [if dev.tuyaDp != map[] then 1 else 0,
     |dev.e|,
     CountAnnotated(dev.e),
     |dev.fz| + |dev.tz|,
     if Blank(dev.d) then 0 else 1]
  }

  /** Tuple comparison. */
  predicate AtMost(a: seq<nat>, b: seq<nat>) {
    a == [] || (b != [] && (a[0] < b[0] || (a[0] == b[0] && AtMost(a[1..], b[1..]))))
  }

  lemma {:induction false} AtMostTotal(a: seq<nat>, b: seq<nat>)
    requires |a| == |b|
    ensures AtMost(a, b) || AtMost(b, a)
    ensures AtMost(a, a)
    decreases |a|
  {
    if a != [] {
      AtMostTotal(a[1..], b[1..]);
    }
  }

  lemma {:induction false} AtMostTransitive(a: seq<nat>, b: seq<nat>, c: seq<nat>)
    requires AtMost(a, b) && AtMost(b, c)
    ensures AtMost(a, c)
    decreases |a|
  {
    if a != [] && a[0] == b[0] && b[0] == c[0] {
      AtMostTransitive(a[1..], b[1..], c[1..]);
    }
  }

  lemma {:induction false} AtMostPointwise(a: seq<nat>, b: seq<nat>)
    requires |a| == |b| && forall i :: 0 <= i < |a| ==> a[i] <= b[i]
    ensures AtMost(a, b)
    decreases |a|
  {
    if a != [] {
      AtMostPointwise(a[1..], b[1..]);
    }
  }

  /** The exposes that say more than what they are. */
  ghost function Described(exposes: seq<Fields>): set<nat> {
    set i | 0 <= i < |exposes| && exists k :: k in exposes[i] && k in {"cat", "sel", "num", "dc", "u"} && Truthy(exposes[i][k])
  }

  lemma {:induction false} CountIsDescribed(exposes: seq<Fields>)
    ensures CountAnnotated(exposes) == |Described(exposes)|
    decreases |exposes|
  {
    if exposes != [] {
      CountIsDescribed(exposes[1..]);
      Shifted(Described(exposes[1..]));
      var rest := Shift(Described(exposes[1..]));
      forall i: nat ensures i in Described(exposes) <==> i in rest || (i == 0 && Annotated(exposes[0])) {
        if 0 < i < |exposes| {
          assert exposes[i] == exposes[1..][i - 1];
          assert i - 1 in Described(exposes[1..]) <==> i in Described(exposes);
        }
        assert i in rest ==> i - 1 in Described(exposes[1..]);
        assert i > 0 && i - 1 in Described(exposes[1..]) ==> i in rest;
      }
      assert Described(exposes) == rest + if Annotated(exposes[0]) then {0} else {};
    }
  }

  function Shift(xs: set<nat>): set<nat> {
    set i | i in xs :: i + 1
  }

  lemma {:induction false} Shifted(xs: set<nat>)
    ensures |Shift(xs)| == |xs|
    decreases |xs|
  {
    if xs != {} {
      var x :| x in xs;
      Shifted(xs - {x});
      var all, rest := Shift(xs), Shift(xs - {x});
      forall y: nat ensures y in all <==> y in rest || y == x + 1 {
        if y > 0 {
          assert y - 1 in xs ==> y - 1 + 1 in all;
          assert y - 1 in xs - {x} ==> y - 1 + 1 in rest;
        }
      }
      assert all == rest + {x + 1} && x + 1 !in rest;
    } else {
      assert Shift(xs) == {};
    }
  }

  /** Tuple comparison of five. */
  lemma InOrder(a: seq<nat>, b: seq<nat>)
    requires |a| == |b| == 5
    ensures
      !AtMost(a, b) <==>
        if a[0] != b[0] then a[0] > b[0]
        else if a[1] != b[1] then a[1] > b[1]
        else if a[2] != b[2] then a[2] > b[2]
        else if a[3] != b[3] then a[3] > b[3]
        else a[4] > b[4]
  {
    var c, d := a[1..], b[1..];
    var e, f := c[1..], d[1..];
    var g, h := e[1..], f[1..];
    var x, y := g[1..], h[1..];
    assert x[1..] == [] && y[1..] == [];
    assert AtMost(x, y) <==> a[4] <= b[4];
    assert AtMost(g, h) <==> a[3] < b[3] || (a[3] == b[3] && AtMost(x, y));
    assert AtMost(e, f) <==> a[2] < b[2] || (a[2] == b[2] && AtMost(g, h));
    assert AtMost(c, d) <==> a[1] < b[1] || (a[1] == b[1] && AtMost(e, f));
  }

  /** Datapoints count first, then exposes, described ones, converters, and last a description. */
  lemma RicherExactly(a: Entry, b: Entry)
    ensures
      var n, m := |a.fz| + |a.tz|, |b.fz| + |b.tz|;
      var c, d := |Described(a.e)|, |Described(b.e)|;
      !AtMost(Richness(a), Richness(b)) <==>
        if (a.tuyaDp == map[]) != (b.tuyaDp == map[]) then a.tuyaDp != map[]
        else if |a.e| != |b.e| then |a.e| > |b.e|
        else if c != d then c > d
        else if n != m then n > m
        else (exists x :: x in a.d && !IsSpace(x)) && (forall x :: x in b.d ==> IsSpace(x))
  {
    CountIsDescribed(a.e);
    CountIsDescribed(b.e);
    hide CountAnnotated, Described, IsSpace;
    InOrder([if a.tuyaDp != map[] then 1 else 0, |a.e|, CountAnnotated(a.e), |a.fz| + |a.tz|, if Blank(a.d) then 0 else 1],
            [if b.tuyaDp != map[] then 1 else 0, |b.e|, CountAnnotated(b.e), |b.fz| + |b.tz|, if Blank(b.d) then 0 else 1]);
    assert Blank(b.d) <==> forall x :: x in b.d ==> IsSpace(x);
    assert Blank(a.d) <==> !(exists x :: x in a.d && !IsSpace(x));
  }

  // ------------------------------------------------------------------ grafting

  const ANNOTATION_KEYS: set<string> := {"cat", "sel", "num", "dc", "u", "sc", "icon"}

  /** The first expose of the list for the property, if the property counts as one. */
  function ByProperty(exposes: seq<Fields>, prop: Json): Option<Fields> {
    if exposes == [] then None
    else if "p" in exposes[0] && exposes[0]["p"] == prop && Truthy(prop) then Some(exposes[0])
    else ByProperty(exposes[1..], prop)
  }

  /** The annotations of `other` that `expose` lacks are added. */
  function GraftExpose(expose: Fields, losers: seq<Fields>): Fields {
    var other := if "p" in expose then ByProperty(losers, expose["p"]) else None;
    if other.None? then expose
    else (map k | k in other.value && k in ANNOTATION_KEYS :: other.value[k]) + expose
  }

  function Graft(winner: Entry, loser: Entry): Entry {
    if winner.e == [] || loser.e == [] then winner
    else winner.(
      e := seq(|winner.e|, i requires 0 <= i < |winner.e| => GraftExpose(winner.e[i], loser.e)),
      d := if Blank(winner.d) && !Blank(loser.d) then loser.d else winner.d,
      tuyaDp := if winner.tuyaDp == map[] then loser.tuyaDp else winner.tuyaDp)
  }

  // ------------------------------------------------------------------ what a graft is

  /** The first of the loser's exposes with this property. */
  predicate IsFirstFor(losers: seq<Fields>, prop: Json, j: nat) {
    && j < |losers| && "p" in losers[j] && losers[j]["p"] == prop
    && forall i :: 0 <= i < j ==> !("p" in losers[i] && losers[i]["p"] == prop)
  }

  /** The j-th of the loser's exposes is the one that describes the winner's, and has an annotation that this lacks. */
  predicate Lends(losers: seq<Fields>, j: nat, was: Fields, k: string) {
    && k in {"cat", "sel", "num", "dc", "u", "sc", "icon"} && k !in was
    && "p" in was && Truthy(was["p"]) && IsFirstFor(losers, was["p"], j) && k in losers[j]
  }

  /** What the expose had it keeps, and it is given exactly what is lent. */
  ghost predicate IsGraftedExpose(now: Fields, was: Fields, losers: seq<Fields>) {
    && (forall k :: k in was ==> k in now && now[k] == was[k])
    && (forall k :: k in now && k !in was ==> exists j: nat :: Lends(losers, j, was, k) && now[k] == losers[j][k])
    && (forall k, j: nat :: Lends(losers, j, was, k) ==> k in now && now[k] == losers[j][k])
  }

  /** Every expose is annotated, and a missing description or datapoint map filled in, if both have exposes. */
  ghost predicate IsGrafted(now: Entry, winner: Entry, loser: Entry) {
    if winner.e == [] || loser.e == [] then now == winner
    else
      && now.fz == winner.fz && now.tz == winner.tz
      && now.d == (if Blank(winner.d) && !Blank(loser.d) then loser.d else winner.d)
      && now.tuyaDp == (if winner.tuyaDp == map[] then loser.tuyaDp else winner.tuyaDp)
      && |now.e| == |winner.e|
      && forall i :: 0 <= i < |winner.e| ==> IsGraftedExpose(now.e[i], winner.e[i], loser.e)
  }

  lemma {:induction false} ByPropertyIsFirst(exposes: seq<Fields>, prop: Json) returns (j: nat)
    requires Truthy(prop)
    ensures ByProperty(exposes, prop).Some? ==> IsFirstFor(exposes, prop, j) && exposes[j] == ByProperty(exposes, prop).value
    ensures ByProperty(exposes, prop).None? ==> forall i: nat :: !IsFirstFor(exposes, prop, i)
    decreases |exposes|
  {
    j := 0;
    if exposes != [] && !("p" in exposes[0] && exposes[0]["p"] == prop) {
      var i := ByPropertyIsFirst(exposes[1..], prop);
      j := i + 1;
      assert forall i :: 0 < i < |exposes| ==> exposes[i] == exposes[1..][i - 1];
      if k: nat :| IsFirstFor(exposes, prop, k) {
        assert IsFirstFor(exposes[1..], prop, k - 1);
      }
    }
  }

  lemma FirstForIsUnique(losers: seq<Fields>, prop: Json, i: nat, j: nat)
    requires IsFirstFor(losers, prop, i) && IsFirstFor(losers, prop, j)
    ensures i == j
  {
  }

  lemma ExposeIsGrafted(was: Fields, losers: seq<Fields>)
    ensures IsGraftedExpose(GraftExpose(was, losers), was, losers)
  {
    var now := GraftExpose(was, losers);
    if "p" in was && Truthy(was["p"]) {
      var j := ByPropertyIsFirst(losers, was["p"]);
      forall k | k in now && k !in was ensures exists j: nat :: Lends(losers, j, was, k) && now[k] == losers[j][k] {
        assert Lends(losers, j, was, k);
      }
      forall k, i: nat | Lends(losers, i, was, k) ensures k in now && now[k] == losers[i][k] {
        FirstForIsUnique(losers, was["p"], i, j);
      }
    } else if "p" in was {
      NotByProperty(losers, was["p"]);
    }
  }

  lemma {:induction false} NotByProperty(exposes: seq<Fields>, prop: Json)
    requires !Truthy(prop)
    ensures ByProperty(exposes, prop).None?
    decreases |exposes|
  {
    if exposes != [] {
      NotByProperty(exposes[1..], prop);
    }
  }

  lemma GraftExactly(winner: Entry, loser: Entry)
    ensures IsGrafted(Graft(winner, loser), winner, loser)
  {
    hide GraftExpose, IsGraftedExpose, Blank;
    forall i | 0 <= i < |winner.e|
      ensures IsGraftedExpose(GraftExpose(winner.e[i], loser.e), winner.e[i], loser.e)
    {
      ExposeIsGrafted(winner.e[i], loser.e);
    }
  }

  method GraftAnnotations(winner: Entry, loser: Entry) returns (r: Entry)
    ensures r == Graft(winner, loser)
    ensures IsGrafted(r, winner, loser)
  {
    hide IsGrafted;
    GraftExactly(winner, loser);
    if winner.e == [] || loser.e == [] {
      return winner;
    }
    var byProp: map<Json, Fields> := map[];
    for i := 0 to |loser.e|
      invariant forall prop :: ByProperty(loser.e[..i], prop) == if prop in byProp then Some(byProp[prop]) else None
    {
      var expose := loser.e[i];
      forall prop { ByPropertySnoc(loser.e[..i], expose, prop); }
      assert loser.e[..i + 1] == loser.e[..i] + [expose];
      if "p" in expose && Truthy(expose["p"]) && expose["p"] !in byProp {
        byProp := byProp[expose["p"] := expose];
      }
    }
    assert loser.e[..|loser.e|] == loser.e;
    var exposes: seq<Fields> := [];
    for i := 0 to |winner.e|
      invariant |exposes| == i && forall j :: 0 <= j < i ==> exposes[j] == GraftExpose(winner.e[j], loser.e)
    {
      var expose := winner.e[i];
      if "p" in expose && expose["p"] in byProp {
        var other := byProp[expose["p"]];
        var missing := map k | k in ANNOTATION_KEYS && k !in expose && k in other :: other[k];
        expose := missing + expose;
      }
      assert expose == GraftExpose(winner.e[i], loser.e);
      exposes := exposes + [expose];
    }
    r := winner.(e := exposes);
    if Blank(winner.d) && !Blank(loser.d) {
      r := r.(d := loser.d);
    }
    if winner.tuyaDp == map[] && loser.tuyaDp != map[] {
      r := r.(tuyaDp := loser.tuyaDp);
    }
  }

  lemma {:induction false} ByPropertySnoc(exposes: seq<Fields>, last: Fields, prop: Json)
    ensures ByProperty(exposes + [last], prop) ==
      if ByProperty(exposes, prop).Some? then ByProperty(exposes, prop)
      else if "p" in last && last["p"] == prop && Truthy(prop) then Some(last)
      else None
    decreases |exposes|
  {
    if exposes == [] {
      assert exposes + [last] == [last];
    } else {
      assert (exposes + [last])[1..] == exposes[1..] + [last];
      ByPropertySnoc(exposes[1..], last, prop);
    }
  }

  /** `now` is `was` with annotations added and perhaps a description filled in; nothing was overwritten. */
  ghost predicate Annotates(now: Entry, was: Entry) {
    && now.tuyaDp == was.tuyaDp && now.fz == was.fz && now.tz == was.tz
    && (Blank(was.d) || now.d == was.d)
    && |now.e| == |was.e|
    && forall i :: 0 <= i < |was.e| ==>
         && (forall k :: k in was.e[i] ==> k in now.e[i] && now.e[i][k] == was.e[i][k])
         && (forall k :: k in now.e[i] && k !in was.e[i] ==> k in ANNOTATION_KEYS)
  }

  /** A graft from an entry that is not richer only annotates: the datapoint graft is never reached. */
  lemma GraftAnnotates(winner: Entry, loser: Entry)
    requires AtMost(Richness(loser), Richness(winner))
    ensures Annotates(Graft(winner, loser), winner)
  {
    if loser.tuyaDp != map[] {
      assert Richness(loser)[0] == 1;
    }
  }

  lemma {:induction false} CountGrows(now: seq<Fields>, was: seq<Fields>)
    requires |now| == |was| && forall i :: 0 <= i < |was| && Annotated(was[i]) ==> Annotated(now[i])
    ensures CountAnnotated(was) <= CountAnnotated(now)
    decreases |was|
  {
    if was != [] {
      CountGrows(now[1..], was[1..]);
    }
  }

  /** Annotating never makes an entry poorer. */
  lemma AnnotatesRicher(now: Entry, was: Entry)
    requires Annotates(now, was)
    ensures AtMost(Richness(was), Richness(now))
  {
    forall i | 0 <= i < |was.e| && Annotated(was.e[i]) ensures Annotated(now.e[i]) {
      var k :| k in was.e[i] && k in {"cat", "sel", "num", "dc", "u"} && Truthy(was.e[i][k]);
      assert now.e[i][k] == was.e[i][k];
    }
    CountGrows(now.e, was.e);
    AtMostPointwise(Richness(was), Richness(now));
  }

  lemma AnnotatesTransitive(a: Entry, b: Entry, c: Entry)
    requires Annotates(a, b) && Annotates(b, c)
    ensures Annotates(a, c)
  {
  }

  lemma AnnotatesSelf(a: Entry)
    ensures Annotates(a, a)
  {
  }

  // ------------------------------------------------------------------ combining

  /** What one more entry under a key makes of the combined one. The earlier entry wins a tie. */
  function Absorb(kept: Entry, dev: Entry): Entry {
    if !AtMost(Richness(dev), Richness(kept)) then Graft(dev, kept) else Graft(kept, dev)
  }

  lemma AbsorbIsRicher(kept: Entry, dev: Entry)
    ensures AtMost(Richness(kept), Richness(Absorb(kept, dev))) && AtMost(Richness(dev), Richness(Absorb(kept, dev)))
    ensures Annotates(Absorb(kept, dev), if AtMost(Richness(dev), Richness(kept)) then kept else dev)
  {
    AtMostTotal(Richness(kept), Richness(dev));
    var winner, loser := kept, dev;
    if !AtMost(Richness(dev), Richness(kept)) {
      winner, loser := dev, kept;
    }
    GraftAnnotates(winner, loser);
    AnnotatesRicher(Graft(winner, loser), winner);
    AtMostTransitive(Richness(loser), Richness(winner), Richness(Graft(winner, loser)));
  }

  /** The richer of the two is annotated from the other; the one kept is, in a tie. */
  lemma AbsorbGrafts(kept: Entry, dev: Entry)
    ensures
      if AtMost(Richness(dev), Richness(kept)) then IsGrafted(Absorb(kept, dev), kept, dev)
      else IsGrafted(Absorb(kept, dev), dev, kept)
  {
    hide AtMost, Richness, IsGrafted;
    GraftExactly(kept, dev);
    GraftExactly(dev, kept);
  }

  /** The combined entries, given the extracts read so far. */
  ghost predicate Combines(combined: Extract, extracts: seq<Extract>) {
    && (forall key :: key in combined <==> exists i :: 0 <= i < |extracts| && key in extracts[i])
    && (forall key :: key in combined ==>
          forall i :: 0 <= i < |extracts| && key in extracts[i] ==>
            AtMost(Richness(extracts[i][key]), Richness(combined[key])))
    && (forall key :: key in combined ==>
          exists i :: 0 <= i < |extracts| && key in extracts[i] && Annotates(combined[key], extracts[i][key]))
  }

  /** The combined entries after one more extract. */
  function Combined(before: Extract, found: Extract): Extract {
    map key | key in before.Keys + found.Keys ::
      if key !in found then before[key]
      else if key !in before then found[key]
      else Absorb(before[key], found[key])
  }

  lemma NothingCombined()
    ensures Combines(map[], [])
  {
  }

  class Combiner {
    var combined: Extract
    ghost var read: seq<Extract>

    constructor ()
      ensures combined == map[] && read == [] && Combines(combined, read)
    {
      combined, read := map[], [];
      new;
      NothingCombined();
    }

    /** One turn of the loop over the inputs. */
    method AbsorbExtract(found: Extract)
      requires Combines(combined, read)
      modifies this
      ensures combined == Combined(old(combined), found)
      ensures read == old(read) + [found] && Combines(combined, read)
    {
      hide Graft, IsGrafted, AtMost, Richness, Combines;
      var pending := found.Keys;
      ghost var before, after := combined, Combined(combined, found);
      while pending != {}
        invariant pending <= found.Keys && read == old(read)
        invariant combined.Keys == before.Keys + (found.Keys - pending)
        invariant forall key :: key in combined ==> combined[key] == if key in pending then before[key] else after[key]
      {
        var key :| key in pending;
        var dev := found[key];
        if key !in combined {
          combined := combined[key := dev];
        } else if !AtMost(Richness(dev), Richness(combined[key])) {
          var grafted := GraftAnnotations(dev, combined[key]);
          combined := combined[key := grafted];
        } else {
          var grafted := GraftAnnotations(combined[key], dev);
          combined := combined[key := grafted];
        }
        pending := pending - {key};
      }
      assert combined == after;
      StillCombines(before, read, found);
      read := read + [found];
    }
  }

  lemma StillCombines(before: Extract, read: seq<Extract>, found: Extract)
    requires Combines(before, read)
    ensures Combines(Combined(before, found), read + [found])
  {
    hide Annotates, AtMost, Richness, Absorb;
    var all, after := read + [found], Combined(before, found);
    forall key | key in after
      ensures exists i :: 0 <= i < |all| && key in all[i] && Annotates(after[key], all[i][key])
      ensures forall i :: 0 <= i < |all| && key in all[i] ==> AtMost(Richness(all[i][key]), Richness(after[key]))
    {
      KeyStillRicher(before, read, found, key);
      KeyStillAnnotates(before, read, found, key);
    }
    forall key, i | 0 <= i < |all| && key in all[i] ensures key in after {
      if i < |read| {
        assert key in read[i];
      }
    }
  }

  lemma KeyStillRicher(before: Extract, read: seq<Extract>, found: Extract, key: Identity)
    requires Combines(before, read) && key in Combined(before, found)
    ensures
      var all, now := read + [found], Combined(before, found)[key];
      forall i :: 0 <= i < |all| && key in all[i] ==> AtMost(Richness(all[i][key]), Richness(now))
  {
    hide Annotates, AtMost, Richness, Absorb;
    var all, now := read + [found], Combined(before, found)[key];
    AtMostTotal(Richness(now), Richness(now));
    if key in found && key in before {
      AbsorbIsRicher(before[key], found[key]);
      forall i | 0 <= i < |read| && key in read[i] ensures AtMost(Richness(read[i][key]), Richness(now)) {
        AtMostTransitive(Richness(read[i][key]), Richness(before[key]), Richness(now));
      }
    }
  }

  lemma KeyStillAnnotates(before: Extract, read: seq<Extract>, found: Extract, key: Identity)
    requires Combines(before, read) && key in Combined(before, found)
    ensures
      var all, now := read + [found], Combined(before, found)[key];
      exists i :: 0 <= i < |all| && key in all[i] && Annotates(now, all[i][key])
  {
    hide Annotates, AtMost, Richness, Absorb;
    var all, now := read + [found], Combined(before, found)[key];
    var n := |read|;
    if key !in before {
      AnnotatesSelf(found[key]);
      assert Annotates(now, all[n][key]);
    } else {
      var i :| 0 <= i < n && key in read[i] && Annotates(before[key], read[i][key]);
      assert all[i] == read[i];
      if key !in found {
        assert Annotates(now, all[i][key]);
      } else {
        AbsorbIsRicher(before[key], found[key]);
        if AtMost(Richness(found[key]), Richness(before[key])) {
          AnnotatesTransitive(now, before[key], read[i][key]);
          assert Annotates(now, all[i][key]);
        } else {
          assert Annotates(now, all[n][key]);
        }
      }
    }
  }

  // ------------------------------------------------------------------ which input is kept

  /** The entries under a key, in the order they are read. */
  function Entries(extracts: seq<Extract>, key: Identity): seq<Entry> {
    if extracts == [] then []
    else
      var last := extracts[|extracts| - 1];
      Entries(extracts[..|extracts| - 1], key) + if key in last then [last[key]] else []
  }

  /** What the fold makes of the entries under one key. */
  function Fold(entries: seq<Entry>): Entry
    requires entries != []
  {
    if |entries| == 1 then entries[0]
    else Absorb(Fold(entries[..|entries| - 1]), entries[|entries| - 1])
  }

  /** The combined entries are the folds. */
  ghost predicate Folds(combined: Extract, extracts: seq<Extract>) {
    forall key ::
      && (key in combined <==> Entries(extracts, key) != [])
      && (key in combined ==> combined[key] == Fold(Entries(extracts, key)))
  }

  lemma EntriesNext(read: seq<Extract>, found: Extract, key: Identity)
    ensures Entries(read + [found], key) == Entries(read, key) + if key in found then [found[key]] else []
  {
    assert (read + [found])[..|read|] == read;
  }

  lemma FoldsNext(before: Extract, read: seq<Extract>, found: Extract)
    requires Folds(before, read)
    ensures Folds(Combined(before, found), read + [found])
  {
    hide Absorb, Entries;
    var after := Combined(before, found);
    forall key
      ensures key in after <==> Entries(read + [found], key) != []
      ensures key in after ==> after[key] == Fold(Entries(read + [found], key))
    {
      EntriesNext(read, found, key);
      var earlier := Entries(read, key);
      assert key in before <==> earlier != [];
      if key !in found {
        assert earlier + [] == earlier;
      } else if earlier == [] {
        assert earlier + [found[key]] == [found[key]];
      } else {
        FoldNext(earlier, found[key]);
      }
    }
  }

  lemma FoldNext(entries: seq<Entry>, dev: Entry)
    requires entries != []
    ensures Fold(entries + [dev]) == Absorb(Fold(entries), dev)
  {
    assert (entries + [dev])[..|entries|] == entries;
  }

  /** A first entry is taken as it is; one more is annotated from what was kept if it is richer, and else annotates it. */
  lemma FoldGrafts(entries: seq<Entry>, dev: Entry)
    ensures Fold([dev]) == dev
    ensures
      entries != [] ==>
        var kept, now := Fold(entries), Fold(entries + [dev]);
        if AtMost(Richness(dev), Richness(kept)) then IsGrafted(now, kept, dev) else IsGrafted(now, dev, kept)
  {
    hide AtMost, Richness, IsGrafted;
    if entries != [] {
      FoldNext(entries, dev);
      AbsorbGrafts(Fold(entries), dev);
    }
  }

  /** Which entry the fold keeps: the last that was richer than everything kept before it, annotations included. */
  function Kept(entries: seq<Entry>): (w: nat)
    requires entries != []
    ensures w < |entries|
  {
    var n := |entries| - 1;
    if n == 0 || !AtMost(Richness(entries[n]), Richness(Fold(entries[..n]))) then n
    else Kept(entries[..n])
  }

  lemma {:induction false} FoldAnnotatesKept(entries: seq<Entry>)
    requires entries != []
    ensures Annotates(Fold(entries), entries[Kept(entries)])
    decreases |entries|
  {
    hide Annotates, AtMost, Richness, Absorb;
    var n := |entries| - 1;
    if n == 0 {
      AnnotatesSelf(entries[0]);
    } else {
      var front := entries[..n];
      FoldAnnotatesKept(front);
      AbsorbIsRicher(Fold(front), entries[n]);
      if AtMost(Richness(entries[n]), Richness(Fold(front))) {
        AnnotatesTransitive(Fold(entries), Fold(front), front[Kept(front)]);
      }
    }
  }

  /** A tie goes to the earlier input: one as rich as what is kept only lends it annotations. */
  lemma TieKeepsEarlier(entries: seq<Entry>, dev: Entry)
    requires entries != [] && Richness(dev) == Richness(Fold(entries))
    ensures Kept(entries + [dev]) == Kept(entries)
    ensures Annotates(Fold(entries + [dev]), entries[Kept(entries)])
  {
    hide Annotates, AtMost, Richness;
    AtMostTotal(Richness(dev), Richness(dev)) by { SameLength(dev, dev); }
    assert (entries + [dev])[..|entries|] == entries;
    FoldAnnotatesKept(entries + [dev]);
  }

  lemma SameLength(a: Entry, b: Entry)
    ensures |Richness(a)| == |Richness(b)|
  {
  }

  /** What was read before the entry kept is less rich than it. */
  lemma {:induction false} EarlierIsPoorer(entries: seq<Entry>, i: nat)
    requires entries != [] && i < |entries|
    ensures AtMost(Richness(entries[i]), Richness(Fold(entries)))
    ensures i <= Kept(entries) ==> AtMost(Richness(entries[i]), Richness(entries[Kept(entries)]))
    decreases |entries|
  {
    hide AtMost, Richness, Absorb;
    var n := |entries| - 1;
    if n == 0 {
      AtMostTotal(Richness(entries[0]), Richness(entries[0])) by { SameLength(entries[0], entries[0]); }
    } else {
      var front := entries[..n];
      AbsorbIsRicher(Fold(front), entries[n]);
      AtMostTotal(Richness(Fold(front)), Richness(entries[n])) by { SameLength(Fold(front), entries[n]); }
      AtMostTotal(Richness(entries[n]), Richness(entries[n])) by { SameLength(entries[n], entries[n]); }
      if i < n {
        EarlierIsPoorer(front, i);
        AtMostTransitive(Richness(entries[i]), Richness(Fold(front)), Richness(Fold(entries)));
        if Kept(entries) == n {
          AtMostTransitive(Richness(entries[i]), Richness(Fold(front)), Richness(entries[n]));
        }
      }
    }
  }

  /** No entry is richer, as read. */
  ghost predicate IsRichest(entries: seq<Entry>, w: nat) {
    && w < |entries|
    && forall i :: 0 <= i < |entries| ==> AtMost(Richness(entries[i]), Richness(entries[w]))
  }

  ghost predicate IsFirstRichest(entries: seq<Entry>, first: nat) {
    IsRichest(entries, first) && forall i :: 0 <= i < first ==> !IsRichest(entries, i)
  }

  /** Among any entries there is a first richest one. */
  lemma {:induction false} FirstRichest(entries: seq<Entry>) returns (first: nat)
    requires entries != []
    ensures IsFirstRichest(entries, first)
    decreases |entries|
  {
    hide AtMost, Richness;
    var n := |entries| - 1;
    AtMostTotal(Richness(entries[n]), Richness(entries[n])) by { SameLength(entries[n], entries[n]); }
    if n == 0 {
      return 0;
    }
    var front := entries[..n];
    var w := FirstRichest(front);
    AtMostTotal(Richness(entries[w]), Richness(entries[n])) by { SameLength(entries[w], entries[n]); }
    if AtMost(Richness(entries[n]), Richness(entries[w])) {
      first := w;
      forall i | 0 <= i < w ensures !IsRichest(entries, i) {
        assert !IsRichest(front, i);
        var j :| 0 <= j < n && !AtMost(Richness(front[j]), Richness(front[i]));
        assert entries[j] == front[j] && entries[i] == front[i];
      }
    } else {
      first := n;
      forall i | 0 <= i < n ensures AtMost(Richness(entries[i]), Richness(entries[n])) && !IsRichest(entries, i) {
        assert front[i] == entries[i] && front[w] == entries[w];
        AtMostTransitive(Richness(entries[i]), Richness(entries[w]), Richness(entries[n]));
        if AtMost(Richness(entries[n]), Richness(entries[i])) {
          AtMostTransitive(Richness(entries[n]), Richness(entries[i]), Richness(entries[w]));
        }
      }
    }
  }

  lemma {:induction false} KeptStays(entries: seq<Entry>, m: nat)
    requires 0 < m <= |entries|
    requires forall k :: m <= k < |entries| ==> AtMost(Richness(entries[k]), Richness(Fold(entries[..k])))
    ensures Kept(entries) == Kept(entries[..m])
    decreases |entries|
  {
    hide AtMost, Richness, Fold;
    var n := |entries| - 1;
    if m <= n {
      var front := entries[..n];
      forall k | m <= k < n ensures AtMost(Richness(front[k]), Richness(Fold(front[..k]))) {
        assert front[..k] == entries[..k] && front[k] == entries[k];
      }
      KeptStays(front, m);
      assert front[..m] == entries[..m];
    } else {
      assert entries[..m] == entries;
    }
  }

  /**
   * The fold keeps a richest input exactly when the first of the richest finds something poorer
   * than itself on arrival: what earlier inputs lent to the entry kept so far must not
   * have made up for what that lacks.
   */
  lemma KeptIsRichestExactly(entries: seq<Entry>, first: nat)
    requires IsFirstRichest(entries, first)
    ensures IsRichest(entries, Kept(entries)) <==>
            first == 0 || !AtMost(Richness(entries[first]), Richness(Fold(entries[..first])))
  {
    hide AtMost, Richness, Fold;
    forall k | first < k < |entries| ensures AtMost(Richness(entries[k]), Richness(Fold(entries[..k]))) {
      EarlierIsPoorer(entries[..k], first);
      assert entries[..k][first] == entries[first];
      AtMostTransitive(Richness(entries[k]), Richness(entries[first]), Richness(Fold(entries[..k])));
    }
    KeptStays(entries, first + 1);
    assert entries[..first + 1][..first] == entries[..first];
  }

  const PLAIN: Fields := map["p" := Str("x")]
  const CATEGORY: Fields := map["p" := Str("x"), "cat" := Str("config")]

  /** Two exposes; one expose with a category; two exposes and a converter. */
  const BARE := Entry([PLAIN, map["p" := Str("y")]], map[], "", [], [])
  const LENDER := Entry([CATEGORY], map[], "", [], [])
  const RICHER := Entry([PLAIN, map["p" := Str("y")]], map[], "", [map[]], [])

  lemma ExampleRichness()
    ensures Richness(BARE) == [0, 2, 0, 0, 0] && Richness(LENDER) == [0, 1, 1, 0, 0] && Richness(RICHER) == [0, 2, 0, 1, 0]
  {
    assert !Annotated(PLAIN) && !Annotated(map["p" := Str("y")]);
    assert "cat" in CATEGORY && Truthy(CATEGORY["cat"]);
    assert BARE.e[1..] == [map["p" := Str("y")]] && RICHER.e == BARE.e;
    assert CountAnnotated(BARE.e[1..]) == 0;
    assert CountAnnotated(BARE.e) == 0;
    assert LENDER.e[1..] == [] && CountAnnotated(LENDER.e) == 1;
  }

  lemma ExampleGraft()
    ensures Richness(Graft(BARE, LENDER)) == [0, 2, 1, 0, 0]
  {
    var g := Graft(BARE, LENDER);
    assert ByProperty(LENDER.e, Str("x")) == Some(CATEGORY);
    assert ByProperty(LENDER.e, Str("y")) == None by { assert LENDER.e[1..] == []; }
    assert "cat" in g.e[0] && g.e[0]["cat"] == Str("config");
    assert g.e[1] == map["p" := Str("y")];
    assert Annotated(g.e[0]) && !Annotated(g.e[1]);
    assert g.e == [g.e[0], g.e[1]] && g.e[1..] == [g.e[1]];
    assert CountAnnotated(g.e[1..]) == 0;
  }

  /**
   * The fold depends on the order of the inputs and need not keep a richest one:
   * a poorer entry's annotations can save a bare one from a richer.
   */
  lemma OrderMatters()
    ensures Kept([BARE, LENDER, RICHER]) == 0 && Kept([BARE, RICHER, LENDER]) == 1
    ensures !AtMost(Richness(RICHER), Richness(BARE))
  {
    ExampleRichness();
    ExampleGraft();
    hide Graft, Richness, BARE, LENDER, RICHER;
    AtMostExamples();
    assert [BARE, LENDER, RICHER][..2] == [BARE, LENDER] && [BARE, LENDER][..1] == [BARE];
    assert [BARE, RICHER, LENDER][..2] == [BARE, RICHER] && [BARE, RICHER][..1] == [BARE];
    assert Fold([BARE]) == BARE;
    assert Fold([BARE, LENDER]) == Graft(BARE, LENDER);
    assert Kept([BARE, LENDER]) == 0 && Kept([BARE, RICHER]) == 1;
    assert Fold([BARE, RICHER]) == Absorb(BARE, RICHER);
    AbsorbIsRicher(BARE, RICHER);
    AtMostTransitive(Richness(LENDER), Richness(BARE), Richness(Absorb(BARE, RICHER)));
  }

  lemma AtMostExamples()
    ensures AtMost([0, 1, 1, 0, 0], [0, 2, 0, 0, 0])
    ensures AtMost([0, 2, 0, 1, 0], [0, 2, 1, 0, 0])
    ensures !AtMost([0, 2, 0, 1, 0], [0, 2, 0, 0, 0])
  {
    assert [0, 2, 0, 1, 0][1..] == [2, 0, 1, 0] && [0, 2, 0, 0, 0][1..] == [2, 0, 0, 0] && [0, 2, 1, 0, 0][1..] == [2, 1, 0, 0];
    assert [2, 0, 1, 0][1..] == [0, 1, 0] && [2, 0, 0, 0][1..] == [0, 0, 0] && [2, 1, 0, 0][1..] == [1, 0, 0];
    assert [0, 1, 0][1..] == [1, 0] && [0, 0, 0][1..] == [0, 0];
    assert [0, 1, 1, 0, 0][1..] == [1, 1, 0, 0];
  }

  /** The whole fold: no identity is lost, none gets poorer, and each entry is an input's with annotations added. */
  method CombineAll(extracts: seq<Extract>) returns (combined: Extract)
    ensures Combines(combined, extracts)
    ensures Folds(combined, extracts)
  {
    hide Combined, Folds, Combines;
    var combiner := new Combiner();
    NothingFolds();
    for i := 0 to |extracts|
      invariant combiner.read == extracts[..i] && Combines(combiner.combined, combiner.read)
      invariant Folds(combiner.combined, extracts[..i])
    {
      FoldsNext(combiner.combined, extracts[..i], extracts[i]);
      combiner.AbsorbExtract(extracts[i]);
      assert extracts[..i + 1] == extracts[..i] + [extracts[i]];
    }
    assert extracts[..|extracts|] == extracts;
    combined := combiner.combined;
  }

  lemma NothingFolds()
    ensures Folds(map[], [])
  {
  }

  // ------------------------------------------------------------------ writing by file

  type Manufacturer = Option<string>

  datatype FileInfo = FileInfo(file: string, count: nat)

  function CountOf(members: seq<Identity>, manuf: Manufacturer): nat {
    if members == [] then 0 else (if members[0].0 == manuf then 1 else 0) + CountOf(members[1..], manuf)
  }

  lemma {:induction false} CountSnoc(members: seq<Identity>, key: Identity, manuf: Manufacturer)
    ensures CountOf(members + [key], manuf) == CountOf(members, manuf) + if key.0 == manuf then 1 else 0
    decreases |members|
  {
    if members == [] {
      assert members + [key] == [key] && [key][1..] == [];
    } else {
      assert (members + [key])[1..] == members[1..] + [key];
      CountSnoc(members[1..], key, manuf);
    }
  }

  ghost function Members(members: seq<Identity>): (r: set<Identity>)
    ensures forall key :: key in r <==> key in members
  {
    set key | key in members
  }

  /** The identities of one manufacturer. */
  ghost function Of(keys: set<Identity>, manuf: Manufacturer): (r: set<Identity>)
    ensures forall key :: key in r <==> key in keys && key.0 == manuf
  {
    set key | key in keys && key.0 == manuf
  }

  lemma OfOneMore(keys: set<Identity>, key: Identity, manuf: Manufacturer)
    requires key !in keys
    ensures |Of(keys + {key}, manuf)| == |Of(keys, manuf)| + if key.0 == manuf then 1 else 0
  {
    assert Of(keys + {key}, manuf) == if key.0 == manuf then Of(keys, manuf) + {key} else Of(keys, manuf);
  }

  ghost predicate NoneTwice(members: seq<Identity>) {
    forall i, j :: 0 <= i < j < |members| ==> members[i] != members[j]
  }

  lemma MembersOneMore(members: seq<Identity>)
    requires NoneTwice(members) && members != []
    ensures NoneTwice(members[1..]) && members[0] !in Members(members[1..])
    ensures Members(members) == Members(members[1..]) + {members[0]}
  {
    assert members == [members[0]] + members[1..];
  }

  lemma {:induction false} CountIsSize(members: seq<Identity>, manuf: Manufacturer)
    requires NoneTwice(members)
    ensures CountOf(members, manuf) == |Of(Members(members), manuf)|
    decreases |members|
  {
    if members == [] {
      assert Of(Members(members), manuf) == {};
    } else {
      MembersOneMore(members);
      CountIsSize(members[1..], manuf);
      OfOneMore(Members(members[1..]), members[0], manuf);
    }
  }

  /** Files that hold the given identities, each once, in the file named after its manufacturer. */
  ghost predicate Grouped(byFile: map<string, seq<Identity>>, keys: set<Identity>, fileOf: Manufacturer -> string) {
    && (forall key :: key in keys ==> fileOf(key.0) in byFile && key in byFile[fileOf(key.0)])
    && (forall name :: name in byFile ==>
          && (forall key :: key in byFile[name] ==> key in keys && fileOf(key.0) == name)
          && NoneTwice(byFile[name]))
  }

  /** Grouping by file: manufacturers that share a file name share the file, and no device is written twice or left out. */
  method GroupByFile(combined: Extract, fileOf: Manufacturer -> string)
    returns (byFile: map<string, seq<Identity>>)
    ensures Grouped(byFile, combined.Keys, fileOf)
  {
    byFile := map[];
    var pending := combined.Keys;
    while pending != {}
      invariant pending <= combined.Keys
      invariant Grouped(byFile, combined.Keys - pending, fileOf)
    {
      var key :| key in pending;
      var name := fileOf(key.0);
      byFile := byFile[name := (if name in byFile then byFile[name] else []) + [key]];
      pending := pending - {key};
    }
  }

  /** The manufacturers of one file, counted. */
  method CountMembers(members: seq<Identity>) returns (counts: map<Manufacturer, nat>)
    ensures forall manuf :: manuf in counts <==> CountOf(members, manuf) > 0
    ensures forall manuf :: manuf in counts ==> counts[manuf] == CountOf(members, manuf)
  {
    counts := map[];
    for i := 0 to |members|
      invariant forall manuf :: manuf in counts <==> CountOf(members[..i], manuf) > 0
      invariant forall manuf :: manuf in counts ==> counts[manuf] == CountOf(members[..i], manuf)
    {
      var manuf := members[i].0;
      assert members[..i + 1] == members[..i] + [members[i]];
      forall m { CountSnoc(members[..i], members[i], m); }
      counts := counts[manuf := 1 + if manuf in counts then counts[manuf] else 0];
    }
    assert members[..|members|] == members;
  }

  ghost function Written(byFile: map<string, seq<Identity>>, names: set<string>): set<Identity>
    requires names <= byFile.Keys
  {
    set name, key | name in names && key in byFile[name] :: key
  }

  /** The manufacturers whose file is in `names`, each with its file and its exact number of devices. */
  ghost predicate IsIndex(
    info: map<Manufacturer, FileInfo>, keys: set<Identity>, fileOf: Manufacturer -> string, names: set<string>)
  {
    forall manuf :: manuf in info <==> Of(keys, manuf) != {} && fileOf(manuf) in names
  }

  ghost predicate IsExact(info: map<Manufacturer, FileInfo>, keys: set<Identity>, fileOf: Manufacturer -> string) {
    forall manuf :: manuf in info ==> info[manuf] == FileInfo(fileOf(manuf), |Of(keys, manuf)|)
  }

  /** The index: every manufacturer, its file and its exact number of devices, and the exact total. */
  method BuildIndex(byFile: map<string, seq<Identity>>, ghost keys: set<Identity>, fileOf: Manufacturer -> string)
    returns (info: map<Manufacturer, FileInfo>, total: nat)
    requires Grouped(byFile, keys, fileOf)
    ensures total == |keys|
    ensures forall manuf :: manuf in info <==> Of(keys, manuf) != {}
    ensures IsExact(info, keys, fileOf)
  {
    hide IsIndex, IsExact, Of, Written, Grouped, CountOf;
    info, total := map[], 0;
    var pending := byFile.Keys;
    ghost var done: set<string> := {};
    EmptyIndex(byFile, keys, fileOf);
    while pending != {}
      invariant done !! pending && done + pending == byFile.Keys
      invariant total == |Written(byFile, done)|
      invariant IsIndex(info, keys, fileOf, done) && IsExact(info, keys, fileOf)
      decreases pending
    {
      var name :| name in pending;
      var counts := CountMembers(byFile[name]);
      CountsAreExact(byFile, keys, fileOf, name, counts);
      WrittenGrows(byFile, keys, fileOf, done, name);
      IndexGrows(info, keys, fileOf, done, name, counts);
      info := info + map manuf | manuf in counts :: FileInfo(name, counts[manuf]);
      total := total + |byFile[name]|;
      done := done + {name};
      pending := pending - {name};
    }
    assert done == byFile.Keys;
    WholeIndex(byFile, keys, fileOf, info);
  }

  lemma EmptyIndex(byFile: map<string, seq<Identity>>, keys: set<Identity>, fileOf: Manufacturer -> string)
    ensures IsIndex(map[], keys, fileOf, {}) && IsExact(map[], keys, fileOf) && Written(byFile, {}) == {}
  {
  }

  lemma IndexGrows(
    info: map<Manufacturer, FileInfo>, keys: set<Identity>, fileOf: Manufacturer -> string,
    done: set<string>, name: string, counts: map<Manufacturer, nat>)
    requires IsIndex(info, keys, fileOf, done) && IsExact(info, keys, fileOf)
    requires forall manuf :: manuf in counts <==> Of(keys, manuf) != {} && fileOf(manuf) == name
    requires forall manuf :: manuf in counts ==> counts[manuf] == |Of(keys, manuf)|
    ensures
      var more := info + map manuf | manuf in counts :: FileInfo(name, counts[manuf]);
      IsIndex(more, keys, fileOf, done + {name}) && IsExact(more, keys, fileOf)
  {
    hide Of;
  }

  lemma WholeIndex(
    byFile: map<string, seq<Identity>>, keys: set<Identity>, fileOf: Manufacturer -> string,
    info: map<Manufacturer, FileInfo>)
    requires Grouped(byFile, keys, fileOf) && IsIndex(info, keys, fileOf, byFile.Keys)
    ensures Written(byFile, byFile.Keys) == keys
    ensures forall manuf :: manuf in info <==> Of(keys, manuf) != {}
  {
    forall manuf | Of(keys, manuf) != {} ensures fileOf(manuf) in byFile {
      var key :| key in Of(keys, manuf);
    }
  }

  /** One file's counts are the counts over the whole database, because a manufacturer has one file. */
  lemma CountsAreExact(
    byFile: map<string, seq<Identity>>, keys: set<Identity>, fileOf: Manufacturer -> string,
    name: string, counts: map<Manufacturer, nat>)
    requires Grouped(byFile, keys, fileOf) && name in byFile
    requires forall manuf :: manuf in counts <==> CountOf(byFile[name], manuf) > 0
    requires forall manuf :: manuf in counts ==> counts[manuf] == CountOf(byFile[name], manuf)
    ensures forall manuf :: manuf in counts <==> Of(keys, manuf) != {} && fileOf(manuf) == name
    ensures forall manuf :: manuf in counts ==> counts[manuf] == |Of(keys, manuf)|
  {
    var here := Members(byFile[name]);
    forall manuf
      ensures CountOf(byFile[name], manuf) == |Of(here, manuf)|
      ensures fileOf(manuf) == name ==> Of(here, manuf) == Of(keys, manuf)
      ensures fileOf(manuf) != name ==> Of(here, manuf) == {}
    {
      CountIsSize(byFile[name], manuf);
      if fileOf(manuf) == name {
        assert Of(here, manuf) == Of(keys, manuf);
      } else {
        assert Of(here, manuf) == {};
      }
    }
  }

  lemma WrittenGrows(
    byFile: map<string, seq<Identity>>, keys: set<Identity>, fileOf: Manufacturer -> string,
    names: set<string>, name: string)
    requires Grouped(byFile, keys, fileOf) && names + {name} <= byFile.Keys && name !in names
    ensures |Written(byFile, names + {name})| == |Written(byFile, names)| + |byFile[name]|
  {
    var here := Members(byFile[name]);
    SizeOfDistinct(byFile[name]);
    assert Written(byFile, names + {name}) == Written(byFile, names) + here;
    forall key | key in Written(byFile, names) ensures key !in here {
      var other :| other in names && key in byFile[other];
      assert fileOf(key.0) == other;
    }
    assert Written(byFile, names) !! here;
  }

  lemma {:induction false} SizeOfDistinct(members: seq<Identity>)
    requires NoneTwice(members)
    ensures |Members(members)| == |members|
    decreases |members|
  {
    if members != [] {
      MembersOneMore(members);
      SizeOfDistinct(members[1..]);
    }
  }
}
