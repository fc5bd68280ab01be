/**
  The discovery of a peer's services (`disc_svc_cb`, `disc_chr_cb` and `disc_dsc_cb` of
  main/bluetooth/ble_gatt_client.c) against any peer.

  The peer reports its services, the characteristics of each service that was stored, and, for
  each characteristic stored that notifies or indicates, every client characteristic
  configuration descriptor (CCCD) in the range that the code asks for, in ascending order.
  Reports of different services and searches interleave freely, with each other and with
  everything else that happens meanwhile.
 */
module GattDiscovery {
  import opened Wrappers
  import opened GattCache
  import opened GattClient

  /** A characteristic of the peer, with its CCCD if it has one. */
  datatype Attribute = Attribute(
    uuid: string, definition: Handle, value: Handle, cccd: Option<Handle>, properties: nat)

  type Table = seq<Attribute>

  datatype PeerService = PeerService(uuid: string, start: Handle, end: Handle, table: Table)

  /** The services of a peer, in the order in which they are found. */
  type Peer = seq<PeerService>

  predicate Ascends(a: Attribute, end: Handle) {
    a.definition < a.value <= end && (a.cccd.Some? ==> a.value < a.cccd.value <= end)
  }

  predicate Before(a: Attribute, b: Attribute) {
    a.value < b.definition && (a.cccd.Some? ==> a.cccd.value < b.definition)
  }

  /** Handles ascend and lie in the service's range; a CCCD follows its characteristic and precedes the next. */
  predicate Ordered(p: PeerService) {
    && (forall i :: 0 <= i < |p.table| ==> p.start <= p.table[i].definition && Ascends(p.table[i], p.end))
    && (forall i, j :: 0 <= i < j < |p.table| ==> Before(p.table[i], p.table[j]))
  }

  predicate Covers(p: PeerService, handle: Handle) {
    p.start <= handle <= p.end
  }

  predicate Disjoint(p: PeerService, q: PeerService) {
    p.end < q.start || q.end < p.start
  }

  predicate WellFormed(peer: Peer) {
    && (forall k :: 0 <= k < |peer| ==> Ordered(peer[k]))
    && (forall k, l :: 0 <= k < |peer| && 0 <= l < |peer| && k != l ==> Disjoint(peer[k], peer[l]))
  }

  // ------------------------------------------------------------------ the peer's answers

  /** The CCCDs of a table, in order. */
  function Cccds(table: Table): seq<Handle> {
    if table == [] then []
    else (if table[0].cccd.Some? then [table[0].cccd.value] else []) + Cccds(table[1..])
  }

  /** The CCCDs after `low` and up to `high`: what a search over that range reports. */
  function InRange(table: Table, low: Handle, high: Handle): seq<Handle> {
    if table == [] then []
    else
      (if table[0].cccd.Some? && low < table[0].cccd.value <= high then [table[0].cccd.value] else [])
      + InRange(table[1..], low, high)
  }

  lemma {:induction false} AllInRange(table: Table, low: Handle, high: Handle)
    requires forall i :: 0 <= i < |table| && table[i].cccd.Some? ==> low < table[i].cccd.value <= high
    ensures InRange(table, low, high) == Cccds(table)
    decreases |table|
  {
    if table != [] {
      AllInRange(table[1..], low, high);
    }
  }

  /** Up to the end of the service, a search from a value handle reports its own CCCD and all later ones. */
  lemma {:induction false} RangeIsRest(p: PeerService, i: nat, skip: nat)
    requires Ordered(p) && skip <= i < |p.table|
    ensures InRange(p.table[skip..], p.table[i].value, p.end) == Cccds(p.table[i..])
    decreases i - skip
  {
    var table := p.table;
    if skip == i {
      var rest := table[i..];
      forall k | 0 <= k < |rest| && rest[k].cccd.Some? ensures table[i].value < rest[k].cccd.value <= p.end {
        assert rest[k] == table[i + k];
        assert k > 0 ==> Before(table[i], table[i + k]);
      }
      AllInRange(rest, table[i].value, p.end);
    } else {
      assert Before(table[skip], table[i]);
      assert table[skip..][1..] == table[skip + 1..];
      RangeIsRest(p, i, skip + 1);
    }
  }

  /** The CCCD of the last characteristic that has one, or none. */
  function LastCccd(table: Table): Handle {
    if table == [] then INVALID_ATTR_HANDLE
    else
      var last := table[|table| - 1];
      if last.cccd.Some? then last.cccd.value else LastCccd(table[..|table| - 1])
  }

  lemma {:induction false} CccdsSnoc(table: Table, a: Attribute)
    ensures Cccds(table + [a]) == Cccds(table) + if a.cccd.Some? then [a.cccd.value] else []
    decreases |table|
  {
    var all, own := table + [a], if a.cccd.Some? then [a.cccd.value] else [];
    if table == [] {
      assert all == [a] && [a][1..] == [];
      assert Cccds([]) == [];
      assert Cccds([a]) == own + [] == own;
    } else {
      var first := if table[0].cccd.Some? then [table[0].cccd.value] else [];
      assert all[1..] == table[1..] + [a] && all[0] == table[0];
      CccdsSnoc(table[1..], a);
      assert first + (Cccds(table[1..]) + own) == first + Cccds(table[1..]) + own;
    }
  }

  function LastOf(handles: seq<Handle>): Handle {
    if handles == [] then INVALID_ATTR_HANDLE else handles[|handles| - 1]
  }

  lemma {:induction false} LastOfCccds(table: Table)
    ensures LastOf(Cccds(table)) == LastCccd(table)
    decreases |table|
  {
    if table != [] {
      var front, last := table[..|table| - 1], table[|table| - 1];
      LastOfCccds(front);
      CccdsSnoc(front, last);
      assert table == front + [last];
    }
  }

  // ------------------------------------------------------------------ a discovery

  /**
    The events so far; for each service found, unless there was no room for it, the characteristics
    reported, each with the CCCDs that its search has still to report.
   */
  datatype Discovery = Discovery(events: seq<Event>, progress: seq<Option<seq<seq<Handle>>>>)

  /**
    The peer reports its next service, the next characteristic of a service, or the next CCCD of
    a search; or something else happens.
   */
  datatype Turn = Find | Report(service: nat) | Deliver(service: nat, search: nat) | Other(event: Event)

  /** No service of the peer covers the handle. */
  predicate Outside(peer: Peer, handle: Handle) {
    forall k :: 0 <= k < |peer| ==> !Covers(peer[k], handle)
  }

  /**
    What may happen while the peer is discovered: connections come and go in other slots and have
    discoveries of their own; in this slot, characteristics and CCCDs of other services are
    reported, and descriptors that are not CCCDs.
   */
  predicate Elsewhere(peer: Peer, slot: nat, conn: Handle, e: Event) {
    match e
    case Connect(_) => conn != INVALID_CONN_HANDLE
    case Connected(i, c) => i != slot && c != conn
    case Free(i) => i != slot
    case SetLink(_, _) => true
    case Rediscover(c) => c != conn
    case ServiceFound(i, _, _, _, _) => i != slot
    case CharacteristicFound(i, _, _, definition, value, _) =>
      i == slot ==> Outside(peer, definition) && Outside(peer, value)
    case DescriptorFound(i, _, value, isCccd, _) => i == slot && isCccd ==> Outside(peer, value)
  }

  function AsFound(a: Attribute): Characteristic {
    NewCharacteristic(a.uuid, a.definition, a.value, a.properties)
  }

  function Reported(a: Attribute, slot: nat, conn: Handle): Event {
    CharacteristicFound(slot, conn, a.uuid, a.definition, a.value, a.properties)
  }

  /** What the search for a new characteristic will report. */
  function Search(p: PeerService, services: Services, a: Attribute): seq<Handle> {
    var last := SearchTo(services, AsFound(a));
    if last.Some? then InRange(p.table, a.value, last.value) else []
  }

  function Take(peer: Peer, slot: nat, conn: Handle, d: Discovery, turn: Turn): Discovery {
    match turn
    case Find =>
      if |d.progress| >= |peer| then d
      else
        var p := peer[|d.progress|];
        Discovery(d.events + [ServiceFound(slot, conn, p.uuid, p.start, p.end)],
                  d.progress + [if |At(Run(d.events), slot)| < MAX_SERVICES then Some([]) else None])
    case Report(k) =>
      if k >= |d.progress| || k >= |peer| || d.progress[k].None? || |d.progress[k].value| >= |peer[k].table| then d
      else
        var searches := d.progress[k].value;
        var a := peer[k].table[|searches|];
        Discovery(d.events + [Reported(a, slot, conn)],
                  d.progress[k := Some(searches + [Search(peer[k], At(Run(d.events), slot), a)])])
    case Deliver(k, i) =>
      if k >= |d.progress| || k >= |peer| || d.progress[k].None? then d
      else
        var searches := d.progress[k].value;
        if i >= |searches| || i >= |peer[k].table| || searches[i] == [] then d
        else
          Discovery(d.events + [DescriptorFound(slot, conn, peer[k].table[i].value, true, searches[i][0])],
                    d.progress[k := Some(searches[i := searches[i][1..]])])
    case Other(e) => if Elsewhere(peer, slot, conn, e) then d.(events := d.events + [e]) else d
  }

  function Discover(peer: Peer, slot: nat, conn: Handle, before: seq<Event>, turns: seq<Turn>): Discovery {
    if turns == [] then Discovery(before, [])
    else Take(peer, slot, conn, Discover(peer, slot, conn, before, turns[..|turns| - 1]), turns[|turns| - 1])
  }

  predicate Searched(p: PeerService, searches: seq<seq<Handle>>) {
    |searches| == |p.table| && forall i :: 0 <= i < |searches| ==> searches[i] == []
  }

  /** Every service is found, and those that were stored are discovered to the end. */
  predicate Complete(peer: Peer, d: Discovery) {
    && |d.progress| == |peer|
    && forall k :: 0 <= k < |peer| && d.progress[k].Some? ==> Searched(peer[k], d.progress[k].value)
  }

  // ------------------------------------------------------------------ what is cached of one service

  /** Everything that is ever reported for a characteristic: there is a search if it is stored and notifies. */
  function Expected(table: Table, i: nat): seq<Handle>
    requires i < |table|
  {
    if i < MAX_CHARACTERISTICS && Notifies(table[i].properties) then Cccds(table[i..]) else []
  }

  /** What is still to come is the end of what is expected. */
  predicate Pending(expected: seq<Handle>, pending: seq<Handle>) {
    |pending| <= |expected| && expected[|expected| - |pending|..] == pending
  }

  function Entry(a: Attribute, expected: seq<Handle>, pending: seq<Handle>): Characteristic
    requires Pending(expected, pending)
  {
    AsFound(a).(cccd := LastOf(expected[..|expected| - |pending|]))
  }

  function Min(a: nat, b: nat): nat {
    if a < b then a else b
  }

  /** A service with the characteristics reported so far, each with the last CCCD reported for it. */
  ghost predicate Holds(p: PeerService, s: Service, searches: seq<seq<Handle>>) {
    && s.valid && s.start == p.start && s.end == p.end
    && |searches| <= |p.table|
    && |s.characteristics| == Min(|searches|, MAX_CHARACTERISTICS)
    && forall i :: 0 <= i < |searches| ==>
         Pending(Expected(p.table, i), searches[i])
         && (i < |s.characteristics| ==> s.characteristics[i] == Entry(p.table[i], Expected(p.table, i), searches[i]))
  }

  /** A cached service that has nothing to do with one of the peer's. */
  ghost predicate Away(s: Service, p: PeerService) {
    && (s.end < p.start || p.end < s.start)
    && forall c :: c in s.characteristics ==> !Covers(p, c.value)
  }

  /** The service is stored at its place, or nowhere; whatever else is stored is away from it. */
  ghost predicate Tracks(p: PeerService, place: nat, services: Services, progress: Option<seq<seq<Handle>>>) {
    && (forall j :: 0 <= j < |services| && j != place ==> Away(services[j], p))
    && if place < |services| then progress.Some? && Holds(p, services[place], progress.value) else progress.None?
  }

  lemma ValuesDiffer(p: PeerService, i: nat, j: nat)
    requires Ordered(p) && i < |p.table| && j < |p.table| && i != j
    ensures p.table[i].value != p.table[j].value
  {
    if i < j {
      assert Before(p.table[i], p.table[j]);
    } else {
      assert Before(p.table[j], p.table[i]);
    }
  }

  lemma Covered(p: PeerService, i: nat)
    requires Ordered(p) && i < |p.table|
    ensures Covers(p, p.table[i].definition) && Covers(p, p.table[i].value)
  {
    assert Ascends(p.table[i], p.end);
  }

  lemma AwayHasNot(s: Service, p: PeerService, handle: Handle)
    requires Away(s, p) && Covers(p, handle)
    ensures !Has(s, handle) && !(s.start <= handle <= s.end)
  {
  }

  /** The service is found for its characteristics, and each value handle that is stored where it was put. */
  lemma PlaceOf(p: PeerService, place: nat, services: Services, searches: seq<seq<Handle>>, i: nat)
    requires Ordered(p) && place < |services| && Tracks(p, place, services, Some(searches)) && i < |p.table|
    ensures ServiceFor(services, p.table[i].definition) == place
    ensures
      if i < |services[place].characteristics|
      then Holder(services, p.table[i].value) == place
           && CharacteristicAt(services[place].characteristics, p.table[i].value) == i
      else !Cached(services, p.table[i].value)
  {
    Covered(p, i);
    forall j | 0 <= j < |services| && j != place
      ensures !Has(services[j], p.table[i].value)
      ensures !(services[j].start <= p.table[i].definition <= services[j].end)
    {
      AwayHasNot(services[j], p, p.table[i].value);
      AwayHasNot(services[j], p, p.table[i].definition);
    }
    var cs := services[place].characteristics;
    forall k | 0 <= k < |cs| && k != i ensures cs[k].value != p.table[i].value {
      ValuesDiffer(p, k, i);
    }
    if i < |cs| {
      assert cs[i].valid && cs[i].value == p.table[i].value;
      assert CharacteristicAt(cs, p.table[i].value) == i;
    }
  }

  /** The search for the next characteristic reports what is expected: the CCCDs in the rest of the service. */
  lemma SearchExpects(p: PeerService, place: nat, services: Services, searches: seq<seq<Handle>>)
    requires Ordered(p) && place < |services| && Tracks(p, place, services, Some(searches)) && |searches| < |p.table|
    ensures Search(p, services, p.table[|searches|]) == Expected(p.table, |searches|)
  {
    var i := |searches|;
    var a, cs := p.table[i], services[place].characteristics;
    PlaceOf(p, place, services, searches, i);
    forall k | 0 <= k < |cs| ensures cs[k].definition <= a.definition {
      assert Before(p.table[k], a) && Ascends(p.table[k], p.end);
    }
    assert Ascends(a, p.end);
    AscendingRangeIsWhole(cs, AsFound(a), p.end);
    assert p.table[0..] == p.table;
    RangeIsRest(p, i, 0);
    hide Notifies, InRange, Cccds, DescriptorEnd, ServiceFor, Ordered;
  }

  lemma NothingDelivered(expected: seq<Handle>)
    ensures Pending(expected, expected) && LastOf(expected[..|expected| - |expected|]) == INVALID_ATTR_HANDLE
  {
  }

  lemma OneDelivered(expected: seq<Handle>, pending: seq<Handle>)
    requires Pending(expected, pending) && pending != []
    ensures Pending(expected, pending[1..]) && LastOf(expected[..|expected| - |pending[1..]|]) == pending[0]
  {
    var n := |expected| - |pending|;
    assert expected[n..][0] == expected[n] && expected[n..][1..] == expected[n + 1..];
    assert expected[..n + 1][n] == expected[n];
  }

  /** One service is stored anew. */
  lemma PlaceTracks(p: PeerService, place: nat, services: Services, searches: seq<seq<Handle>>, s: Service, more: seq<seq<Handle>>)
    requires place < |services| && Tracks(p, place, services, Some(searches)) && Holds(p, s, more)
    ensures Tracks(p, place, services[place := s], Some(more))
  {
    hide Away, Holds;
  }

  lemma ReportHolds(p: PeerService, s: Service, searches: seq<seq<Handle>>)
    requires Holds(p, s, searches) && |searches| < |p.table|
    ensures
      var i := |searches|;
      Holds(p, if i < MAX_CHARACTERISTICS then s.(characteristics := s.characteristics + [AsFound(p.table[i])]) else s,
            searches + [Expected(p.table, i)])
  {
    NothingDelivered(Expected(p.table, |searches|));
    hide Pending, Expected, LastOf;
  }

  lemma ReportTracks(p: PeerService, place: nat, services: Services, searches: seq<seq<Handle>>)
    requires Ordered(p) && place < |services| && Tracks(p, place, services, Some(searches)) && |searches| < |p.table|
    ensures
      var i := |searches|;
      Tracks(p, place, WithCharacteristic(services, AsFound(p.table[i])), Some(searches + [Expected(p.table, i)]))
  {
    var i, s := |searches|, services[place];
    PlaceOf(p, place, services, searches, i);
    ReportHolds(p, s, searches);
    assert |s.characteristics| < MAX_CHARACTERISTICS <==> i < MAX_CHARACTERISTICS;
    hide Ordered, Holds, Tracks, Expected, ServiceFor;
    var more := searches + [Expected(p.table, i)];
    var reported := if i < MAX_CHARACTERISTICS then s.(characteristics := s.characteristics + [AsFound(p.table[i])]) else s;
    PlaceTracks(p, place, services, searches, reported, more);
    assert WithCharacteristic(services, AsFound(p.table[i])) == services[place := reported];
  }

  lemma DeliverHolds(p: PeerService, s: Service, searches: seq<seq<Handle>>, i: nat)
    requires Holds(p, s, searches) && i < |searches| && searches[i] != []
    ensures i < |s.characteristics|
    ensures
      var cs := s.characteristics;
      Holds(p, s.(characteristics := cs[i := cs[i].(cccd := searches[i][0])]), searches[i := searches[i][1..]])
  {
    assert Pending(Expected(p.table, i), searches[i]);
    assert i < |s.characteristics|;
    OneDelivered(Expected(p.table, i), searches[i]);
    hide Pending, Expected, LastOf;
  }

  lemma DeliverTracks(p: PeerService, place: nat, services: Services, searches: seq<seq<Handle>>, i: nat)
    requires Ordered(p) && place < |services| && Tracks(p, place, services, Some(searches))
    requires i < |searches| <= |p.table| && searches[i] != []
    ensures
      Tracks(p, place, WithCccd(services, p.table[i].value, searches[i][0]), Some(searches[i := searches[i][1..]]))
  {
    var s := services[place];
    assert Holds(p, s, searches);
    hide Holds, Tracks, Ordered, CharacteristicAt, Holder;
    DeliverHolds(p, s, searches, i);
    PlaceOf(p, place, services, searches, i);
    var cs := s.characteristics;
    PlaceTracks(p, place, services, searches, s.(characteristics := cs[i := cs[i].(cccd := searches[i][0])]),
                searches[i := searches[i][1..]]);
  }

  // ------------------------------------------------------------------ what changes nothing of it

  /** Another service is found, or this one. */
  lemma FindTracks(p: PeerService, place: nat, services: Services, progress: Option<seq<seq<Handle>>>, q: PeerService)
    requires Tracks(p, place, services, progress)
    requires if place == |services| then q == p else Disjoint(p, q)
    ensures
      Tracks(p, place, WithService(services, q.uuid, q.start, q.end),
             if place == |services| < MAX_SERVICES then Some([]) else progress)
  {
    var after := WithService(services, q.uuid, q.start, q.end);
    if |services| < MAX_SERVICES {
      assert forall j :: 0 <= j < |services| ==> after[j] == services[j];
      assert after[|services|].characteristics == [];
    }
    hide Expected;
  }

  lemma OtherCharacteristic(
    p: PeerService, place: nat, services: Services, progress: Option<seq<seq<Handle>>>, c: Characteristic)
    requires Tracks(p, place, services, progress) && !Covers(p, c.definition) && !Covers(p, c.value)
    ensures Tracks(p, place, WithCharacteristic(services, c), progress)
  {
    hide Expected;
    var after, i := WithCharacteristic(services, c), ServiceFor(services, c.definition);
    if after != services {
      assert i != place;
      assert after[i].characteristics == services[i].characteristics + [c];
      assert Away(services[i], p);
      assert Away(after[i], p);
    }
  }

  lemma OtherCccd(
    p: PeerService, place: nat, services: Services, progress: Option<seq<seq<Handle>>>, value: Handle, cccd: Handle)
    requires Ordered(p) && Tracks(p, place, services, progress) && !Covers(p, value)
    ensures Tracks(p, place, WithCccd(services, value, cccd), progress)
  {
    hide Expected;
    var after, i := WithCccd(services, value, cccd), Holder(services, value);
    if i < |services| {
      var cs, j := services[i].characteristics, CharacteristicAt(services[i].characteristics, value);
      assert cs[j].value == value;
      if i == place {
        Covered(p, j);
        assert false;
      }
      assert Away(services[i], p) && cs[j] in cs;
      assert Away(after[i], p);
    }
  }

  // ------------------------------------------------------------------ a whole discovery

  function ProgressOf(progress: seq<Option<seq<seq<Handle>>>>, k: nat): Option<seq<seq<Handle>>> {
    if k < |progress| then progress[k] else None
  }

  /** All services are tracked; the k-th is stored behind the `base` that were there before and the k found before it. */
  ghost predicate AllTracked(peer: Peer, base: nat, services: Services, progress: seq<Option<seq<seq<Handle>>>>) {
    && |progress| <= |peer|
    && |services| == Min(MAX_SERVICES, base + |progress|)
    && forall k :: 0 <= k < |peer| ==> Tracks(peer[k], base + k, services, ProgressOf(progress, k))
  }

  /** The connection is in the slot, and the slot holds what has been reported. */
  ghost predicate OnTrack(peer: Peer, slot: nat, conn: Handle, base: nat, d: Discovery) {
    && slot < MAX_CONNECTIONS && ByHandle(Run(d.events), conn) == slot
    && AllTracked(peer, base, Run(d.events)[slot].services, d.progress)
  }

  lemma FoundTracked(peer: Peer, base: nat, services: Services, progress: seq<Option<seq<seq<Handle>>>>)
    requires WellFormed(peer) && AllTracked(peer, base, services, progress) && |progress| < |peer| && base <= MAX_SERVICES
    ensures
      var p := peer[|progress|];
      AllTracked(peer, base, WithService(services, p.uuid, p.start, p.end),
                 progress + [if |services| < MAX_SERVICES then Some([]) else None])
  {
    var n := |progress|;
    var p := peer[n];
    var after := WithService(services, p.uuid, p.start, p.end);
    var next := progress + [if |services| < MAX_SERVICES then Some([]) else None];
    hide Tracks;
    forall k | 0 <= k < |peer| ensures Tracks(peer[k], base + k, after, ProgressOf(next, k)) {
      assert Tracks(peer[k], base + k, services, ProgressOf(progress, k));
      if k != n {
        assert Disjoint(peer[k], p);
      }
      if |services| >= MAX_SERVICES {
        FullTracks(peer[k], base + k, services, ProgressOf(progress, k), p);
      } else {
        FindTracks(peer[k], base + k, services, ProgressOf(progress, k), p);
      }
    }
  }

  lemma FullTracks(p: PeerService, place: nat, services: Services, progress: Option<seq<seq<Handle>>>, q: PeerService)
    requires Tracks(p, place, services, progress) && |services| >= MAX_SERVICES
    ensures Tracks(p, place, WithService(services, q.uuid, q.start, q.end), progress)
  {
  }

  /** Only one service's progress changes. */
  lemma OneChanged(
    peer: Peer, base: nat, services: Services, after: Services, progress: seq<Option<seq<seq<Handle>>>>,
    k: nat, searches: seq<seq<Handle>>)
    requires AllTracked(peer, base, services, progress) && |after| == |services| && k < |progress|
    requires Tracks(peer[k], base + k, after, Some(searches))
    requires forall l :: 0 <= l < |peer| && l != k ==> Tracks(peer[l], base + l, after, ProgressOf(progress, l))
    ensures AllTracked(peer, base, after, progress[k := Some(searches)])
  {
    hide Tracks;
  }

  lemma StoredTracks(peer: Peer, base: nat, services: Services, progress: seq<Option<seq<seq<Handle>>>>, k: nat)
    requires WellFormed(peer) && AllTracked(peer, base, services, progress) && k < |progress| && progress[k].Some?
    ensures k < |peer| && Ordered(peer[k])
    ensures base + k < |services| && Tracks(peer[k], base + k, services, Some(progress[k].value))
    ensures |progress[k].value| <= |peer[k].table|
  {
    hide Ordered;
    assert Tracks(peer[k], base + k, services, ProgressOf(progress, k));
  }

  lemma OthersReported(peer: Peer, base: nat, services: Services, progress: seq<Option<seq<seq<Handle>>>>, k: nat, i: nat, l: nat)
    requires WellFormed(peer) && AllTracked(peer, base, services, progress)
    requires k < |peer| && i < |peer[k].table| && l < |peer| && l != k
    ensures Tracks(peer[l], base + l, WithCharacteristic(services, AsFound(peer[k].table[i])), ProgressOf(progress, l))
  {
    hide Tracks, WithCharacteristic, Ordered, Covers;
    NotCovered(peer, k, i, l);
    OtherCharacteristic(peer[l], base + l, services, ProgressOf(progress, l), AsFound(peer[k].table[i]));
  }

  lemma ReportedTracked(peer: Peer, base: nat, services: Services, progress: seq<Option<seq<seq<Handle>>>>, k: nat)
    requires WellFormed(peer) && AllTracked(peer, base, services, progress)
    requires k < |progress| && progress[k].Some? && |progress[k].value| < |peer[k].table|
    ensures
      var searches := progress[k].value;
      var a := peer[k].table[|searches|];
      && Search(peer[k], services, a) == Expected(peer[k].table, |searches|)
      && AllTracked(peer, base, WithCharacteristic(services, AsFound(a)),
                    progress[k := Some(searches + [Search(peer[k], services, a)])])
  {
    var searches := progress[k].value;
    var a := peer[k].table[|searches|];
    hide Tracks, Search, Expected, WithCharacteristic, Ordered, AllTracked, WellFormed;
    StoredTracks(peer, base, services, progress, k);
    SearchExpects(peer[k], base + k, services, searches);
    ReportTracks(peer[k], base + k, services, searches);
    var after := WithCharacteristic(services, AsFound(a));
    forall l | 0 <= l < |peer| && l != k ensures Tracks(peer[l], base + l, after, ProgressOf(progress, l)) {
      OthersReported(peer, base, services, progress, k, |searches|, l);
    }
    OneChanged(peer, base, services, after, progress, k, searches + [Expected(peer[k].table, |searches|)]);
  }

  lemma NotCovered(peer: Peer, k: nat, i: nat, l: nat)
    requires WellFormed(peer) && k < |peer| && i < |peer[k].table| && l < |peer| && l != k
    ensures !Covers(peer[l], peer[k].table[i].definition) && !Covers(peer[l], peer[k].table[i].value)
  {
    Covered(peer[k], i);
    assert Disjoint(peer[l], peer[k]);
  }

  lemma OthersDelivered(
    peer: Peer, base: nat, services: Services, progress: seq<Option<seq<seq<Handle>>>>, k: nat, i: nat, l: nat, cccd: Handle)
    requires WellFormed(peer) && AllTracked(peer, base, services, progress)
    requires k < |peer| && i < |peer[k].table| && l < |peer| && l != k
    ensures Tracks(peer[l], base + l, WithCccd(services, peer[k].table[i].value, cccd), ProgressOf(progress, l))
  {
    hide Tracks, WithCccd, Ordered, Covers;
    NotCovered(peer, k, i, l);
    OtherCccd(peer[l], base + l, services, ProgressOf(progress, l), peer[k].table[i].value, cccd);
  }

  lemma DeliveredTracked(peer: Peer, base: nat, services: Services, progress: seq<Option<seq<seq<Handle>>>>, k: nat, i: nat)
    requires WellFormed(peer) && AllTracked(peer, base, services, progress)
    requires k < |progress| && progress[k].Some? && i < |progress[k].value| && i < |peer[k].table| && progress[k].value[i] != []
    ensures
      var searches := progress[k].value;
      AllTracked(peer, base, WithCccd(services, peer[k].table[i].value, searches[i][0]),
                 progress[k := Some(searches[i := searches[i][1..]])])
  {
    var searches := progress[k].value;
    var value := peer[k].table[i].value;
    hide Tracks, WithCccd, Ordered, AllTracked, WellFormed;
    StoredTracks(peer, base, services, progress, k);
    DeliverTracks(peer[k], base + k, services, searches, i);
    var after := WithCccd(services, value, searches[i][0]);
    forall l | 0 <= l < |peer| && l != k ensures Tracks(peer[l], base + l, after, ProgressOf(progress, l)) {
      OthersDelivered(peer, base, services, progress, k, i, l, searches[i][0]);
    }
    OneChanged(peer, base, services, after, progress, k, searches[i := searches[i][1..]]);
  }

  lemma ElsewhereTracked(
    peer: Peer, slot: nat, conn: Handle, base: nat, services: Services, progress: seq<Option<seq<seq<Handle>>>>, e: Event)
    requires WellFormed(peer) && AllTracked(peer, base, services, progress)
    requires Elsewhere(peer, slot, conn, e)
    ensures
      e.CharacteristicFound? && e.slot == slot ==>
        AllTracked(peer, base, WithCharacteristic(services, FoundIn(e)), progress)
    ensures
      e.DescriptorFound? && e.slot == slot && e.isCccd ==>
        AllTracked(peer, base, WithCccd(services, e.value, e.descriptor), progress)
  {
    hide Tracks, WithCharacteristic, WithCccd, Ordered;
    if e.CharacteristicFound? && e.slot == slot {
      forall k | 0 <= k < |peer|
        ensures Tracks(peer[k], base + k, WithCharacteristic(services, FoundIn(e)), ProgressOf(progress, k))
      {
        assert !Covers(peer[k], e.definition) && !Covers(peer[k], e.value);
        OtherCharacteristic(peer[k], base + k, services, ProgressOf(progress, k), FoundIn(e));
      }
    }
    if e.DescriptorFound? && e.slot == slot && e.isCccd {
      forall k | 0 <= k < |peer|
        ensures Tracks(peer[k], base + k, WithCccd(services, e.value, e.descriptor), ProgressOf(progress, k))
      {
        assert !Covers(peer[k], e.value);
        OtherCccd(peer[k], base + k, services, ProgressOf(progress, k), e.value, e.descriptor);
      }
    }
  }

  /** What happens elsewhere leaves the connection in its slot and its services alone, but for other services' attributes. */
  lemma ElsewhereStays(peer: Peer, slot: nat, conn: Handle, t: Connections, e: Event)
    requires slot < |t| && ByHandle(t, conn) == slot && Elsewhere(peer, slot, conn, e)
    ensures ByHandle(Step(t, e), conn) == slot
    ensures
      Step(t, e)[slot].services ==
        if e.CharacteristicFound? && e.slot == slot then WithCharacteristic(t[slot].services, FoundIn(e))
        else if e.DescriptorFound? && e.slot == slot && e.isCccd then WithCccd(t[slot].services, e.value, e.descriptor)
        else t[slot].services
  {
    hide WithCharacteristic, WithCccd, WithService, Outside;
    var u := Step(t, e);
    assert u[slot].inUse && u[slot].handle == conn;
    assert forall k :: 0 <= k < slot ==> !(u[k].inUse && u[k].handle == conn);
  }

  lemma ReportStays(slot: nat, conn: Handle, t: Connections, e: Event)
    requires slot < |t| && ByHandle(t, conn) == slot
    requires (e.ServiceFound? || e.CharacteristicFound? || (e.DescriptorFound? && e.isCccd)) && e.slot == slot
    ensures ByHandle(Step(t, e), conn) == slot
    ensures
      Step(t, e)[slot].services ==
        if e.ServiceFound? then WithService(t[slot].services, e.uuid, e.start, e.end)
        else if e.CharacteristicFound? then WithCharacteristic(t[slot].services, FoundIn(e))
        else WithCccd(t[slot].services, e.value, e.descriptor)
  {
    hide WithCharacteristic, WithCccd, WithService;
    SameSlots(t, slot, Step(t, e)[slot].services, conn);
  }

  lemma FindOnTrack(peer: Peer, slot: nat, conn: Handle, base: nat, d: Discovery)
    requires WellFormed(peer) && OnTrack(peer, slot, conn, base, d) && base <= MAX_SERVICES
    ensures OnTrack(peer, slot, conn, base, Take(peer, slot, conn, d, Find))
  {
    hide Run, Step, AllTracked, WellFormed, WithService;
    assert |d.progress| <= |peer| by { TrackedIsBounded(peer, base, Run(d.events)[slot].services, d.progress); }
    if |d.progress| < |peer| {
      var p := peer[|d.progress|];
      var e := ServiceFound(slot, conn, p.uuid, p.start, p.end);
      ReportStays(slot, conn, Run(d.events), e);
      FoundTracked(peer, base, Run(d.events)[slot].services, d.progress);
      RunNext(d.events, e);
    }
  }

  lemma TrackedIsBounded(peer: Peer, base: nat, services: Services, progress: seq<Option<seq<seq<Handle>>>>)
    requires AllTracked(peer, base, services, progress)
    ensures |progress| <= |peer|
  {
  }

  lemma ReportOnTrack(peer: Peer, slot: nat, conn: Handle, base: nat, d: Discovery, k: nat)
    requires WellFormed(peer) && OnTrack(peer, slot, conn, base, d)
    ensures OnTrack(peer, slot, conn, base, Take(peer, slot, conn, d, Report(k)))
  {
    hide Run, Step, AllTracked, WellFormed, WithCharacteristic, Search;
    if k < |d.progress| && k < |peer| && d.progress[k].Some? && |d.progress[k].value| < |peer[k].table| {
      var e := Reported(peer[k].table[|d.progress[k].value|], slot, conn);
      ReportStays(slot, conn, Run(d.events), e);
      ReportedTracked(peer, base, Run(d.events)[slot].services, d.progress, k);
      RunNext(d.events, e);
    }
  }

  lemma DeliverOnTrack(peer: Peer, slot: nat, conn: Handle, base: nat, d: Discovery, k: nat, i: nat)
    requires WellFormed(peer) && OnTrack(peer, slot, conn, base, d)
    ensures OnTrack(peer, slot, conn, base, Take(peer, slot, conn, d, Deliver(k, i)))
  {
    hide Run, Step, AllTracked, WellFormed, WithCccd;
    if k < |d.progress| && k < |peer| && d.progress[k].Some? {
      var searches := d.progress[k].value;
      if i < |searches| && i < |peer[k].table| && searches[i] != [] {
        var e := DescriptorFound(slot, conn, peer[k].table[i].value, true, searches[i][0]);
        ReportStays(slot, conn, Run(d.events), e);
        DeliveredTracked(peer, base, Run(d.events)[slot].services, d.progress, k, i);
        RunNext(d.events, e);
      }
    }
  }

  lemma OtherOnTrack(peer: Peer, slot: nat, conn: Handle, base: nat, d: Discovery, e: Event)
    requires WellFormed(peer) && OnTrack(peer, slot, conn, base, d)
    ensures OnTrack(peer, slot, conn, base, Take(peer, slot, conn, d, Other(e)))
  {
    hide Run, Step, AllTracked, WellFormed, WithCharacteristic, WithCccd, Elsewhere;
    if Elsewhere(peer, slot, conn, e) {
      ElsewhereStays(peer, slot, conn, Run(d.events), e);
      ElsewhereTracked(peer, slot, conn, base, Run(d.events)[slot].services, d.progress, e);
      RunNext(d.events, e);
    }
  }

  lemma {:induction false} DiscoverOnTrack(
    peer: Peer, slot: nat, conn: Handle, base: nat, before: seq<Event>, turns: seq<Turn>)
    requires WellFormed(peer) && OnTrack(peer, slot, conn, base, Discovery(before, [])) && base <= MAX_SERVICES
    ensures OnTrack(peer, slot, conn, base, Discover(peer, slot, conn, before, turns))
    decreases |turns|
  {
    if turns != [] {
      var d, turn := Discover(peer, slot, conn, before, turns[..|turns| - 1]), turns[|turns| - 1];
      DiscoverOnTrack(peer, slot, conn, base, before, turns[..|turns| - 1]);
      hide OnTrack, WellFormed, Take;
      match turn
      case Find => FindOnTrack(peer, slot, conn, base, d);
      case Report(k) => ReportOnTrack(peer, slot, conn, base, d, k);
      case Deliver(k, i) => DeliverOnTrack(peer, slot, conn, base, d, k, i);
      case Other(e) => OtherOnTrack(peer, slot, conn, base, d, e);
    }
  }

  // ------------------------------------------------------------------ the answers

  /** The connection is in the slot, and what the slot has cached has nothing to do with the peer's services. */
  ghost predicate Fresh(before: seq<Event>, slot: nat, conn: Handle, peer: Peer) {
    && slot < MAX_CONNECTIONS && ByHandle(Run(before), conn) == slot
    && forall j, k :: 0 <= j < |Run(before)[slot].services| && 0 <= k < |peer| ==> Away(Run(before)[slot].services[j], peer[k])
  }

  /** So it is for every peer when a discovery of all services starts. */
  lemma RediscoverIsFresh(events: seq<Event>, conn: Handle, peer: Peer)
    requires CanDiscover(Run(events), ByHandle(Run(events), conn))
    ensures Fresh(events + [Rediscover(conn)], ByHandle(Run(events), conn), conn, peer)
  {
    hide Run;
    RunNext(events, Rediscover(conn));
    var t, i := Run(events), ByHandle(Run(events), conn);
    var u := Step(t, Rediscover(conn));
    assert forall k :: 0 <= k < |t| ==> u[k].inUse == t[k].inUse && u[k].handle == t[k].handle;
  }

  /** There is room for a service and for a characteristic in it. */
  predicate HasRoom(before: seq<Event>, slot: nat, k: nat, i: nat) {
    |At(Run(before), slot)| + k < MAX_SERVICES && i < MAX_CHARACTERISTICS
  }

  lemma StartsOnTrack(peer: Peer, slot: nat, conn: Handle, before: seq<Event>)
    requires Fresh(before, slot, conn, peer)
    ensures |At(Run(before), slot)| <= MAX_SERVICES
    ensures OnTrack(peer, slot, conn, |At(Run(before), slot)|, Discovery(before, []))
  {
    RunIsConsistent(before);
    hide Run, Away, Holds;
    assert Consistent(Run(before)[slot].services);
  }

  /**
    For every peer and every order of callbacks, whatever happens elsewhere meanwhile, a
    characteristic that is stored and notifies is answered with the CCCD of the last
    characteristic of its service, itself or later, that has one; any other has no answer.
   */
  lemma DiscoveryAnswers(peer: Peer, slot: nat, conn: Handle, before: seq<Event>, turns: seq<Turn>, k: nat, i: nat)
    requires WellFormed(peer) && Fresh(before, slot, conn, peer) && k < |peer| && i < |peer[k].table|
    requires Complete(peer, Discover(peer, slot, conn, before, turns))
    ensures
      CccdFor(Run(Discover(peer, slot, conn, before, turns).events), conn, peer[k].table[i].value) ==
        if HasRoom(before, slot, k, i) && Notifies(peer[k].table[i].properties) then LastCccd(peer[k].table[i..])
        else INVALID_ATTR_HANDLE
  {
    var d, base := Discover(peer, slot, conn, before, turns), |At(Run(before), slot)|;
    StartsOnTrack(peer, slot, conn, before);
    DiscoverOnTrack(peer, slot, conn, base, before, turns);
    hide Run, Discover, Notifies, LastCccd, Tracks, Answer, Ordered, Searched, Away;
    var services := Run(d.events)[slot].services;
    assert Tracks(peer[k], base + k, services, ProgressOf(d.progress, k));
    if base + k < |services| {
      StoredAnswer(peer[k], base + k, services, d.progress[k], i);
    } else {
      DroppedAnswer(peer[k], base + k, services, d.progress[k], i);
    }
  }

  lemma StoredAnswer(p: PeerService, place: nat, services: Services, progress: Option<seq<seq<Handle>>>, i: nat)
    requires Ordered(p) && place < |services| && Tracks(p, place, services, progress)
    requires i < |p.table| && (progress.Some? ==> Searched(p, progress.value))
    ensures
      Answer(services, p.table[i].value) ==
        if i < MAX_CHARACTERISTICS && Notifies(p.table[i].properties) then LastCccd(p.table[i..]) else INVALID_ATTR_HANDLE
  {
    PlaceOf(p, place, services, progress.value, i);
    LastOfCccds(p.table[i..]);
    hide Ordered, Cccds, LastCccd, Holder, CharacteristicAt, Notifies;
    assert Expected(p.table, i)[..|Expected(p.table, i)|] == Expected(p.table, i);
  }

  lemma DroppedAnswer(p: PeerService, place: nat, services: Services, progress: Option<seq<seq<Handle>>>, i: nat)
    requires Ordered(p) && place >= |services| && Tracks(p, place, services, progress) && i < |p.table|
    ensures Answer(services, p.table[i].value) == INVALID_ATTR_HANDLE
  {
    Covered(p, i);
    forall j | 0 <= j < |services| ensures !Has(services[j], p.table[i].value) {
      AwayHasNot(services[j], p, p.table[i].value);
    }
  }

  lemma {:induction false} LastIsOwn(table: Table, own: Handle)
    requires table != [] && table[0].cccd == Some(own)
    requires forall j :: 0 < j < |table| ==> (table[j].cccd.Some? ==> table[j].cccd.value != own)
    ensures LastCccd(table) == own <==> forall j :: 0 < j < |table| ==> table[j].cccd.None?
    decreases |table|
  {
    var last := table[|table| - 1];
    if |table| > 1 && last.cccd.None? {
      var front := table[..|table| - 1];
      LastIsOwn(front, own);
      assert forall j :: 0 < j < |front| ==> front[j] == table[j];
    }
  }

  /**
    A characteristic that notifies and has a CCCD is answered with it exactly when there was room
    for it and no later one of its service has any.
   */
  lemma OwnCccdExactly(peer: Peer, slot: nat, conn: Handle, before: seq<Event>, turns: seq<Turn>, k: nat, i: nat)
    requires WellFormed(peer) && Fresh(before, slot, conn, peer) && k < |peer| && i < |peer[k].table|
    requires Complete(peer, Discover(peer, slot, conn, before, turns))
    requires Notifies(peer[k].table[i].properties) && peer[k].table[i].cccd.Some?
    ensures
      var table := peer[k].table;
      CccdFor(Run(Discover(peer, slot, conn, before, turns).events), conn, table[i].value) == table[i].cccd.value <==>
        HasRoom(before, slot, k, i) && forall j :: i < j < |table| ==> table[j].cccd.None?
  {
    DiscoveryAnswers(peer, slot, conn, before, turns, k, i);
    hide Run, Discover, Complete, Fresh, HasRoom, Notifies, CccdFor;
    OwnIsLast(peer[k], i);
  }

  lemma OwnIsLast(p: PeerService, i: nat)
    requires Ordered(p) && i < |p.table| && p.table[i].cccd.Some?
    ensures LastCccd(p.table[i..]) == p.table[i].cccd.value <==> forall j :: i < j < |p.table| ==> p.table[j].cccd.None?
    ensures p.table[i].cccd.value != INVALID_ATTR_HANDLE
  {
    var table := p.table;
    var rest, own := table[i..], table[i].cccd.value;
    assert Ascends(table[i], p.end);
    forall j | 0 < j < |rest| ensures rest[j] == table[i + j] && (rest[j].cccd.Some? ==> rest[j].cccd.value != own) {
      assert Before(table[i], table[i + j]) && Ascends(table[i + j], p.end);
    }
    LastIsOwn(rest, own);
    if forall j :: 0 < j < |rest| ==> rest[j].cccd.None? {
      forall j | i < j < |table| ensures table[j].cccd.None? {
        assert rest[j - i] == table[j];
      }
    }
  }

  // ------------------------------------------------------------------ an example

  /** A peer with the access service and one in which two characteristics notify, each with a CCCD. */
  const NAME := Attribute("2A00", 2, 3, None, 0x02)
  const FIRST := Attribute("2A37", 7, 8, Some(9), 0x10)
  const SECOND := Attribute("2A38", 10, 11, Some(12), 0x10)

  const ACCESS := PeerService("1800", 1, 5, [NAME])
  const HEART := PeerService("180D", 6, 12, [FIRST, SECOND])
  const PEER := [ACCESS, HEART]

  const CONNECTED: seq<Event> := [Connect(11), Connected(0, 1)]
  const START: seq<Event> := CONNECTED + [Rediscover(1)]

  const TURNS: seq<Turn> := [Find, Find, Report(0), Report(1), Report(1), Deliver(1, 0), Deliver(1, 0), Deliver(1, 1)]

  lemma DiscoverNext(peer: Peer, slot: nat, conn: Handle, before: seq<Event>, turns: seq<Turn>, n: nat)
    requires n < |turns|
    ensures
      Discover(peer, slot, conn, before, turns[..n + 1]) ==
        Take(peer, slot, conn, Discover(peer, slot, conn, before, turns[..n]), turns[n])
  {
    assert turns[..n + 1][..n] == turns[..n];
  }

  lemma ConnectedRuns()
    ensures Run(CONNECTED) == [Connection(true, 11, 1, Up, []), CLEARED, CLEARED]
  {
    assert Run([]) == [CLEARED, CLEARED, CLEARED];
    RunNext([], CONNECTED[0]);
    RunNext([CONNECTED[0]], CONNECTED[1]);
    assert [] + [CONNECTED[0]] == [CONNECTED[0]] && [CONNECTED[0]] + [CONNECTED[1]] == CONNECTED;
    hide Run;
    var one := Step([CLEARED, CLEARED, CLEARED], CONNECTED[0]);
    assert one == [Connection(true, 11, INVALID_CONN_HANDLE, Opening, []), CLEARED, CLEARED];
  }

  lemma StartIsFresh()
    ensures Fresh(START, 0, 1, PEER) && At(Run(START), 0) == []
  {
    ConnectedRuns();
    var t := Run(CONNECTED);
    assert t[0].inUse && t[0].handle == 1 && t[0].link == Up;
    assert ByHandle(t, 1) == 0;
    hide Run, Fresh, PEER, CONNECTED;
    RediscoverIsFresh(CONNECTED, 1, PEER);
    RunNext(CONNECTED, Rediscover(1));
  }

  lemma PeerIsWellFormed()
    ensures WellFormed(PEER)
    ensures Expected(ACCESS.table, 0) == [] && Expected(HEART.table, 0) == [9, 12] && Expected(HEART.table, 1) == [12]
  {
    var table := HEART.table;
    assert table[0..] == table && table[1..] == [SECOND];
    assert Cccds([SECOND]) == [12] + Cccds([]);
  }

  /** What a report adds to a discovery that is on track. */
  lemma ReportTakes(peer: Peer, slot: nat, conn: Handle, base: nat, d: Discovery, k: nat)
    requires WellFormed(peer) && OnTrack(peer, slot, conn, base, d)
    requires k < |d.progress| && k < |peer| && d.progress[k].Some? && |d.progress[k].value| < |peer[k].table|
    ensures
      var searches := d.progress[k].value;
      Take(peer, slot, conn, d, Report(k)) ==
        Discovery(d.events + [Reported(peer[k].table[|searches|], slot, conn)],
                  d.progress[k := Some(searches + [Expected(peer[k].table, |searches|)])])
    ensures OnTrack(peer, slot, conn, base, Take(peer, slot, conn, d, Report(k)))
  {
    ReportOnTrack(peer, slot, conn, base, d, k);
    ReportedTracked(peer, base, Run(d.events)[slot].services, d.progress, k);
    hide Run, AllTracked, WellFormed, Search;
  }

  /** What finding a service adds, while there is room. */
  lemma FindTakes(peer: Peer, slot: nat, conn: Handle, base: nat, d: Discovery)
    requires WellFormed(peer) && OnTrack(peer, slot, conn, base, d)
    requires |d.progress| < |peer| && base + |d.progress| < MAX_SERVICES
    ensures
      var p := peer[|d.progress|];
      Take(peer, slot, conn, d, Find) ==
        Discovery(d.events + [ServiceFound(slot, conn, p.uuid, p.start, p.end)], d.progress + [Some([])])
    ensures OnTrack(peer, slot, conn, base, Take(peer, slot, conn, d, Find))
  {
    FindOnTrack(peer, slot, conn, base, d);
    assert |At(Run(d.events), slot)| < MAX_SERVICES;
  }

  const REPORTS: seq<Event> := [
    ServiceFound(0, 1, "1800", 1, 5), ServiceFound(0, 1, "180D", 6, 12),
    Reported(NAME, 0, 1), Reported(FIRST, 0, 1), Reported(SECOND, 0, 1),
    DescriptorFound(0, 1, 8, true, 9), DescriptorFound(0, 1, 8, true, 12), DescriptorFound(0, 1, 11, true, 12)]

  /** The first `n` turns have led to the first `n` reports and this progress. */
  ghost predicate After(
    peer: Peer, before: seq<Event>, turns: seq<Turn>, reports: seq<Event>, n: nat, progress: seq<Option<seq<seq<Handle>>>>)
  {
    && n <= |turns| && n <= |reports|
    && Discover(peer, 0, 1, before, turns[..n]) == Discovery(before + reports[..n], progress)
    && OnTrack(peer, 0, 1, 0, Discovery(before + reports[..n], progress))
  }

  lemma NextFound(
    peer: Peer, before: seq<Event>, turns: seq<Turn>, reports: seq<Event>, n: nat, progress: seq<Option<seq<seq<Handle>>>>)
    requires WellFormed(peer) && After(peer, before, turns, reports, n, progress)
    requires n < |turns| && n < |reports| && turns[n] == Find && |progress| < |peer| <= MAX_SERVICES
    requires var p := peer[|progress|]; reports[n] == ServiceFound(0, 1, p.uuid, p.start, p.end)
    ensures After(peer, before, turns, reports, n + 1, progress + [Some([])])
  {
    hide Run, Take, OnTrack, WellFormed, Discover;
    DiscoverNext(peer, 0, 1, before, turns, n);
    FindTakes(peer, 0, 1, 0, Discovery(before + reports[..n], progress));
    assert before + reports[..n] + [reports[n]] == before + reports[..n + 1];
  }

  lemma NextReported(
    peer: Peer, before: seq<Event>, turns: seq<Turn>, reports: seq<Event>, n: nat, progress: seq<Option<seq<seq<Handle>>>>,
    k: nat, more: seq<seq<Handle>>)
    requires WellFormed(peer) && After(peer, before, turns, reports, n, progress)
    requires n < |turns| && n < |reports| && turns[n] == Report(k)
    requires k < |progress| && k < |peer| && progress[k].Some? && |progress[k].value| < |peer[k].table|
    requires reports[n] == Reported(peer[k].table[|progress[k].value|], 0, 1)
    requires more == progress[k].value + [Expected(peer[k].table, |progress[k].value|)]
    ensures After(peer, before, turns, reports, n + 1, progress[k := Some(more)])
  {
    hide Run, Take, OnTrack, WellFormed, Expected, Discover, Reported;
    DiscoverNext(peer, 0, 1, before, turns, n);
    ReportTakes(peer, 0, 1, 0, Discovery(before + reports[..n], progress), k);
    assert before + reports[..n] + [reports[n]] == before + reports[..n + 1];
  }

  lemma NextDelivered(
    peer: Peer, before: seq<Event>, turns: seq<Turn>, reports: seq<Event>, n: nat, progress: seq<Option<seq<seq<Handle>>>>,
    k: nat, i: nat, more: seq<seq<Handle>>)
    requires WellFormed(peer) && After(peer, before, turns, reports, n, progress)
    requires n < |turns| && n < |reports| && turns[n] == Deliver(k, i)
    requires k < |progress| && k < |peer| && progress[k].Some? && i < |progress[k].value| && i < |peer[k].table|
    requires progress[k].value[i] != []
    requires reports[n] == DescriptorFound(0, 1, peer[k].table[i].value, true, progress[k].value[i][0])
    requires more == progress[k].value[i := progress[k].value[i][1..]]
    ensures After(peer, before, turns, reports, n + 1, progress[k := Some(more)])
  {
    hide Run, OnTrack, WellFormed, Discover;
    DiscoverNext(peer, 0, 1, before, turns, n);
    DeliverOnTrack(peer, 0, 1, 0, Discovery(before + reports[..n], progress), k, i);
    assert before + reports[..n] + [reports[n]] == before + reports[..n + 1];
  }

  lemma NothingFound()
    ensures After(PEER, START, TURNS, REPORTS, 0, [])
  {
    StartIsFresh();
    StartsOnTrack(PEER, 0, 1, START);
    assert START + REPORTS[..0] == START;
    hide Run, OnTrack, WellFormed, START, At, PEER;
  }

  lemma AllReported()
    ensures After(PEER, START, TURNS, REPORTS, 5, [Some([[]]), Some([[9, 12], [12]])])
  {
    NothingFound();
    PeerIsWellFormed();
    hide Run, OnTrack, WellFormed, Expected, START, Discover, After;
    var found: seq<Option<seq<seq<Handle>>>> := [Some([]), Some([])];
    NextFound(PEER, START, TURNS, REPORTS, 0, []);
    assert [] + found[..1] == found[..1] && found[..1] == [Some([])];
    NextFound(PEER, START, TURNS, REPORTS, 1, found[..1]);
    assert found[..1] + [Some([])] == found;
    NextReported(PEER, START, TURNS, REPORTS, 2, found, 0, [[]]);
    var named := found[0 := Some([[]])];
    NextReported(PEER, START, TURNS, REPORTS, 3, named, 1, [[9, 12]]);
    var first := named[1 := Some([[9, 12]])];
    NextReported(PEER, START, TURNS, REPORTS, 4, first, 1, [[9, 12], [12]]);
    assert first[1 := Some([[9, 12], [12]])] == [Some([[]]), Some([[9, 12], [12]])];
  }

  /** Searched to the end of the service, the first reports both CCCDs and the second its own; then nothing is left. */
  lemma AllDelivered()
    ensures After(PEER, START, TURNS, REPORTS, 8, [Some([[]]), Some([[], []])])
  {
    AllReported();
    PeerIsWellFormed();
    hide Run, OnTrack, WellFormed, START, Discover, After;
    var reported: seq<Option<seq<seq<Handle>>>> := [Some([[]]), Some([[9, 12], [12]])];
    NextDelivered(PEER, START, TURNS, REPORTS, 5, reported, 1, 0, [[12], [12]]);
    var own := reported[1 := Some([[12], [12]])];
    NextDelivered(PEER, START, TURNS, REPORTS, 6, own, 1, 0, [[], [12]]);
    var both := own[1 := Some([[], [12]])];
    NextDelivered(PEER, START, TURNS, REPORTS, 7, both, 1, 1, [[], []]);
    assert both[1 := Some([[], []])] == [Some([[]]), Some([[], []])];
  }

  lemma DiscoveryEnds()
    ensures
      var d := Discover(PEER, 0, 1, START, TURNS);
      Complete(PEER, d) && d.events == START + REPORTS
  {
    AllDelivered();
    assert TURNS[..8] == TURNS && REPORTS[..8] == REPORTS;
    hide Run, OnTrack, START, Discover;
  }

  /** After these callbacks the first characteristic that notifies is answered with the second one's CCCD. */
  lemma NeighbourCccdWins()
    ensures CccdFor(Run(START + REPORTS), 1, FIRST.value) == 12 && SECOND.cccd == Some(12)
  {
    StartIsFresh();
    PeerIsWellFormed();
    DiscoveryEnds();
    assert Notifies(FIRST.properties);
    assert HEART.table[0..] == HEART.table && LastCccd(HEART.table) == 12;
    hide Run, Discover, Complete, WellFormed, Fresh, CccdFor, START, REPORTS;
    DiscoveryAnswers(PEER, 0, 1, START, TURNS, 1, 0);
  }
}
