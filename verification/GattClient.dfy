/**
  Connection slots and discovery callbacks of the GATT client (main/bluetooth/ble_gatt_client.c).

  A callback carries a pointer to the slot its discovery was started for and may come at any
  time, even after the slot was freed and given to another device. What the code does under its
  mutex is one step; every interleaving is a list of steps.
 */
module GattClient {
  import opened Wrappers
  import opened GattCache

  const MAX_CONNECTIONS := 3
  const INVALID_CONN_HANDLE := 0xFFFF

  type Mac = nat

  datatype Link = Down | Opening | Up | Discovering | Ready | Closing

  datatype Connection = Connection(inUse: bool, mac: Mac, handle: Handle, link: Link, services: Services)

  const CLEARED := Connection(false, 0, 0, Down, [])

  type Connections = seq<Connection>

  /**
    `slot` is the slot a callback points to; one past the last stands for a null pointer. `conn`
    is the handle the callback is for. `SetLink` is anything that changes only a connection's
    state.
   */
  datatype Event =
    | Connect(mac: Mac)
    | Connected(slot: nat, conn: Handle)
    | Free(slot: nat)
    | SetLink(slot: nat, link: Link)
    | Rediscover(conn: Handle)
    | ServiceFound(slot: nat, conn: Handle, uuid: string, start: Handle, end: Handle)
    | CharacteristicFound(slot: nat, conn: Handle, uuid: string, definition: Handle, value: Handle, properties: nat)
    | DescriptorFound(slot: nat, conn: Handle, value: Handle, isCccd: bool, descriptor: Handle)

  // ------------------------------------------------------------------ finding slots

  function Unused(t: Connections): (i: nat)
    ensures i <= |t|
    ensures i < |t| ==> !t[i].inUse
    ensures forall k :: 0 <= k < i ==> t[k].inUse
  {
    if t == [] || !t[0].inUse then 0 else 1 + Unused(t[1..])
  }

  function ByHandle(t: Connections, conn: Handle): (i: nat)
    ensures i <= |t|
    ensures i < |t| ==> t[i].inUse && t[i].handle == conn
    ensures forall k :: 0 <= k < i ==> !(t[k].inUse && t[k].handle == conn)
  {
    if t == [] || (t[0].inUse && t[0].handle == conn) then 0 else 1 + ByHandle(t[1..], conn)
  }

  // ------------------------------------------------------------------ steps

  function WithServices(t: Connections, slot: nat, services: Services): (r: Connections)
    ensures |r| == |t|
  {
    if slot < |t| then t[slot := t[slot].(services := services)] else t
  }

  function At(t: Connections, slot: nat): Services {
    if slot < |t| then t[slot].services else []
  }

  /** A discovery of all services is refused unless the connection is up and not already discovering. */
  predicate CanDiscover(t: Connections, slot: nat) {
    slot < |t| && (t[slot].link == Up || t[slot].link == Ready)
  }

  function Step(t: Connections, e: Event): (r: Connections)
    ensures |r| == |t|
  {
    match e
    case Connect(mac) =>
      if Unused(t) < |t| then t[Unused(t) := Connection(true, mac, INVALID_CONN_HANDLE, Opening, [])] else t
    case Connected(slot, conn) => if slot < |t| then t[slot := t[slot].(handle := conn, link := Up)] else t
    case Free(slot) => if slot < |t| then t[slot := CLEARED] else t
    case SetLink(slot, link) => if slot < |t| then t[slot := t[slot].(link := link)] else t
    case Rediscover(conn) =>
      var i := ByHandle(t, conn);
      if CanDiscover(t, i) then t[i := t[i].(link := Discovering, services := [])] else t
    case ServiceFound(slot, _, uuid, start, end) => WithServices(t, slot, WithService(At(t, slot), uuid, start, end))
    case CharacteristicFound(slot, _, uuid, definition, value, properties) =>
      WithServices(t, slot, WithCharacteristic(At(t, slot), NewCharacteristic(uuid, definition, value, properties)))
    case DescriptorFound(slot, _, value, isCccd, descriptor) =>
      if isCccd then WithServices(t, slot, WithCccd(At(t, slot), value, descriptor)) else t
  }

  function Run(events: seq<Event>): (t: Connections)
    ensures |t| == MAX_CONNECTIONS
  {
    if events == [] then seq(MAX_CONNECTIONS, _ => CLEARED) else Step(Run(events[..|events| - 1]), events[|events| - 1])
  }

  // ------------------------------------------------------------------ consistency

  predicate AllConsistent(t: Connections) {
    forall c :: c in t ==> Consistent(c.services)
  }

  lemma StepKeepsConsistent(t: Connections, e: Event)
    requires AllConsistent(t)
    ensures AllConsistent(Step(t, e))
  {
    hide Consistent, WithService, WithCharacteristic, WithCccd;
    assert Consistent([]) by { NothingIsConsistent(); }
    match e
    case Connect(_) =>
    case Connected(_, _) =>
    case Free(_) =>
    case SetLink(_, _) =>
    case Rediscover(_) =>
    case ServiceFound(slot, _, uuid, start, end) => ServiceKeepsConsistent(At(t, slot), uuid, start, end);
    case CharacteristicFound(slot, _, uuid, definition, value, properties) =>
      CharacteristicKeepsConsistent(At(t, slot), NewCharacteristic(uuid, definition, value, properties));
    case DescriptorFound(slot, _, value, _, descriptor) => CccdKeepsConsistent(At(t, slot), value, descriptor);
  }

  lemma NothingIsConsistent()
    ensures Consistent([])
  {
  }

  /** In every interleaving, late callbacks included, every slot's cache is consistent. */
  lemma {:induction false} RunIsConsistent(events: seq<Event>)
    ensures AllConsistent(Run(events))
    decreases |events|
  {
    if events != [] {
      hide AllConsistent;
      RunIsConsistent(events[..|events| - 1]);
      StepKeepsConsistent(Run(events[..|events| - 1]), events[|events| - 1]);
    }
  }

  // ------------------------------------------------------------------ answers

  function CccdFor(t: Connections, conn: Handle, value: Handle): Handle {
    var i := ByHandle(t, conn);
    if i < |t| then Answer(t[i].services, value) else INVALID_ATTR_HANDLE
  }

  lemma SameSlots(t: Connections, slot: nat, services: Services, conn: Handle)
    ensures ByHandle(WithServices(t, slot, services), conn) == ByHandle(t, conn)
  {
    var after := WithServices(t, slot, services);
    assert forall k :: 0 <= k < |t| ==> after[k].inUse == t[k].inUse && after[k].handle == t[k].handle;
  }

  /** A CCCD callback gives its characteristic that answer on its connection, and changes no other answer on any. */
  lemma DescriptorAnswers(t: Connections, slot: nat, from: Handle, value: Handle, cccd: Handle, conn: Handle, other: Handle)
    ensures
      CccdFor(Step(t, DescriptorFound(slot, from, value, true, cccd)), conn, other) ==
        if slot < |t| && ByHandle(t, conn) == slot && other == value && Cached(t[slot].services, value) then cccd
        else CccdFor(t, conn, other)
  {
    hide Answer, WithCccd, Cached;
    var services := WithCccd(At(t, slot), value, cccd);
    SameSlots(t, slot, services, conn);
    if slot < |t| {
      CccdAnswers(t[slot].services, value, cccd, other);
    }
  }

  // ------------------------------------------------------------------ where answers come from

  /** Connection, value handle and CCCD of a descriptor callback. */
  type Report = (Handle, Handle, Handle)

  /** Whether an event empties the slot's cache. */
  predicate Empties(t: Connections, e: Event, slot: nat) {
    match e
    case Connect(_) => Unused(t) == slot
    case Free(freed) => freed == slot
    case Rediscover(conn) => ByHandle(t, conn) == slot && CanDiscover(t, slot)
    case _ => false
  }

  /** What is reported after one more event. */
  function ReportedNext(t: Connections, reports: set<Report>, e: Event, slot: nat): set<Report> {
    if Empties(t, e, slot) then {}
    else if e.DescriptorFound? && e.slot == slot && e.isCccd then reports + {(e.conn, e.value, e.descriptor)}
    else reports
  }

  /** The descriptor callbacks a slot has had since its cache was last emptied. */
  function Reported(events: seq<Event>, slot: nat): set<Report> {
    if events == [] then {}
    else
      var earlier, e := events[..|events| - 1], events[|events| - 1];
      ReportedNext(Run(earlier), Reported(earlier, slot), e, slot)
  }

  predicate IsReported(reports: set<Report>, value: Handle, cccd: Handle) {
    exists r :: r in reports && r.1 == value && r.2 == cccd
  }

  predicate Explained(c: Characteristic, reports: set<Report>) {
    c.cccd == INVALID_ATTR_HANDLE || IsReported(reports, c.value, c.cccd)
  }

  /** Every descriptor known was reported. */
  predicate AllExplained(services: Services, reports: set<Report>) {
    forall s, c :: s in services && c in s.characteristics ==> Explained(c, reports)
  }

  lemma MoreReports(services: Services, reports: set<Report>, r: Report)
    requires AllExplained(services, reports)
    ensures AllExplained(services, reports + {r})
  {
    forall s, c | s in services && c in s.characteristics ensures Explained(c, reports + {r}) {
      assert Explained(c, reports);
    }
  }

  lemma CccdExplained(services: Services, reports: set<Report>, r: Report)
    requires AllExplained(services, reports) && r in reports
    ensures AllExplained(WithCccd(services, r.1, r.2), reports)
  {
    var after := WithCccd(services, r.1, r.2);
    forall s, c | s in after && c in s.characteristics ensures Explained(c, reports) {
      var i := Holder(services, r.1);
      if i < |services| && c !in services[i].characteristics && s !in services {
        assert c.value == r.1 && c.cccd == r.2;
      }
    }
  }

  lemma ServicesExplained(services: Services, e: Event, reports: set<Report>)
    requires AllExplained(services, reports)
    ensures e.ServiceFound? ==> AllExplained(WithService(services, e.uuid, e.start, e.end), reports)
    ensures
      e.CharacteristicFound? ==>
        AllExplained(WithCharacteristic(services, NewCharacteristic(e.uuid, e.definition, e.value, e.properties)), reports)
  {
    if e.CharacteristicFound? {
      var added := NewCharacteristic(e.uuid, e.definition, e.value, e.properties);
      var after := WithCharacteristic(services, added);
      forall s, c | s in after && c in s.characteristics ensures Explained(c, reports) {
        var i := ServiceFor(services, e.definition);
        assert s in services || (i < |services| && s.characteristics == services[i].characteristics + [added]);
      }
    }
  }

  /** In every interleaving, what a slot knows was reported to it since it was last emptied. */
  lemma {:induction false} RunIsExplained(events: seq<Event>, slot: nat)
    requires slot < MAX_CONNECTIONS
    ensures AllExplained(Run(events)[slot].services, Reported(events, slot))
    decreases |events|
  {
    if events != [] {
      var earlier, e := events[..|events| - 1], events[|events| - 1];
      RunIsExplained(earlier, slot);
      var t := Run(earlier);
      hide AllExplained, WithCccd, WithService, WithCharacteristic;
      var services, reports := t[slot].services, Reported(earlier, slot);
      assert AllExplained([], {}) by { NothingIsExplained(); }
      ServicesExplained(services, e, reports);
      if e.DescriptorFound? && e.slot == slot && e.isCccd {
        var r := (e.conn, e.value, e.descriptor);
        MoreReports(services, reports, r);
        CccdExplained(services, reports + {r}, r);
      }
    }
  }

  lemma NothingIsExplained()
    ensures AllExplained([], {})
  {
  }

  /** An answer was reported to the slot that answers. */
  lemma AnswersWereReported(events: seq<Event>, conn: Handle, value: Handle)
    ensures
      var t := Run(events);
      CccdFor(t, conn, value) != INVALID_ATTR_HANDLE ==>
        ByHandle(t, conn) < |t| && IsReported(Reported(events, ByHandle(t, conn)), value, CccdFor(t, conn, value))
  {
    var t := Run(events);
    var i := ByHandle(t, conn);
    if i < |t| {
      RunIsExplained(events, i);
      AnswerIsExplained(t[i].services, Reported(events, i), value);
    }
  }

  lemma AnswerIsExplained(services: Services, reports: set<Report>, value: Handle)
    requires AllExplained(services, reports)
    ensures Answer(services, value) != INVALID_ATTR_HANDLE ==> IsReported(reports, value, Answer(services, value))
  {
    var i := Holder(services, value);
    if i < |services| {
      var s := services[i];
      var c := s.characteristics[CharacteristicAt(s.characteristics, value)];
      assert s in services && c in s.characteristics;
      assert Explained(c, reports);
    }
  }

  // ------------------------------------------------------------------ the last callback accepted

  /** A CCCD callback that finds its characteristic. */
  predicate Accepts(t: Connections, e: Event, slot: nat, value: Handle) {
    e.DescriptorFound? && e.slot == slot && e.isCccd && e.value == value && Cached(At(t, slot), value)
  }

  /** The slot is emptied, or another characteristic comes to be found first under the value handle. */
  predicate Clears(t: Connections, e: Event, slot: nat, value: Handle) {
    || Empties(t, e, slot)
    || (e.CharacteristicFound? && e.slot == slot && Shadows(At(t, slot), FoundIn(e), value))
  }

  function FoundIn(e: Event): Characteristic
    requires e.CharacteristicFound?
  {
    NewCharacteristic(e.uuid, e.definition, e.value, e.properties)
  }

  /** Which event was the last callback accepted for a characteristic that nothing has cleared since. */
  function LastAccepted(events: seq<Event>, slot: nat, value: Handle): (r: Option<nat>)
    ensures r.Some? ==> r.value < |events| && events[r.value].DescriptorFound?
  {
    if events == [] then None
    else
      var earlier, e := events[..|events| - 1], events[|events| - 1];
      if Accepts(Run(earlier), e, slot, value) then Some(|earlier|)
      else if Clears(Run(earlier), e, slot, value) then None
      else LastAccepted(earlier, slot, value)
  }

  ghost predicate IsLastAccepted(events: seq<Event>, k: nat, slot: nat, value: Handle) {
    && k < |events| && Accepts(Run(events[..k]), events[k], slot, value)
    && forall j {:trigger events[j]} :: k < j < |events| ==>
         !Accepts(Run(events[..j]), events[j], slot, value) && !Clears(Run(events[..j]), events[j], slot, value)
  }

  lemma {:induction false} LastAcceptedExactly(events: seq<Event>, k: nat, slot: nat, value: Handle)
    ensures LastAccepted(events, slot, value) == Some(k) <==> IsLastAccepted(events, k, slot, value)
    decreases |events|
  {
    hide Accepts, Clears, Run;
    if events != [] {
      var earlier, n := events[..|events| - 1], |events| - 1;
      LastAcceptedExactly(earlier, k, slot, value);
      assert events[..n] == earlier;
      assert forall j :: 0 <= j < n ==> earlier[j] == events[j] && earlier[..j] == events[..j];
    }
  }

  /** What an event makes of the answer for a value handle in a slot. */
  lemma StepAnswers(t: Connections, e: Event, slot: nat, value: Handle)
    requires slot < |t|
    ensures
      Answer(Step(t, e)[slot].services, value) ==
        if Accepts(t, e, slot, value) then e.descriptor
        else if Clears(t, e, slot, value) then INVALID_ATTR_HANDLE
        else Answer(t[slot].services, value)
  {
    hide Answer, WithService, WithCharacteristic, WithCccd, Cached, Shadows;
    assert Answer([], value) == INVALID_ATTR_HANDLE by { NothingAnswers(value); }
    match e
    case ServiceFound(_, _, uuid, start, end) => ServiceAnswers(t[slot].services, uuid, start, end, value);
    case CharacteristicFound(_, _, _, _, _, _) => CharacteristicAnswers(t[slot].services, FoundIn(e), value);
    case DescriptorFound(_, _, v, _, descriptor) => CccdAnswers(t[slot].services, v, descriptor, value);
    case _ =>
  }

  lemma NothingAnswers(value: Handle)
    ensures Answer([], value) == INVALID_ATTR_HANDLE
  {
  }

  /** In every interleaving, a slot's answer is that of the last callback accepted, or none. */
  lemma {:induction false} LastAnswers(events: seq<Event>, slot: nat, value: Handle)
    requires slot < MAX_CONNECTIONS
    ensures
      var last := LastAccepted(events, slot, value);
      Answer(Run(events)[slot].services, value) ==
        if last.Some? then events[last.value].descriptor else INVALID_ATTR_HANDLE
    decreases |events|
  {
    if events == [] {
      NothingAnswers(value);
    } else {
      var earlier, e := events[..|events| - 1], events[|events| - 1];
      LastAnswers(earlier, slot, value);
      StepAnswers(Run(earlier), e, slot, value);
      hide Answer, Step, Accepts, Clears;
    }
  }

  /** In every interleaving, what a connection is answered is the last callback accepted in its slot, or nothing. */
  lemma AnswersExactly(events: seq<Event>, conn: Handle, value: Handle)
    ensures
      var i := ByHandle(Run(events), conn);
      var last := LastAccepted(events, i, value);
      CccdFor(Run(events), conn, value) ==
        if i < MAX_CONNECTIONS && last.Some? then events[last.value].descriptor else INVALID_ATTR_HANDLE
  {
    hide Answer, LastAccepted;
    var i := ByHandle(Run(events), conn);
    if i < MAX_CONNECTIONS {
      LastAnswers(events, i, value);
    }
  }

  /** The answer came from the connection that asks. */
  ghost predicate IsOwn(events: seq<Event>, conn: Handle, value: Handle) {
    exists k: nat :: IsLastAccepted(events, k, ByHandle(Run(events), conn), value) && events[k].conn == conn
  }

  /** An answer comes from exactly one callback, and is the connection's own exactly when that callback was for it. */
  lemma OwnAnswerExactly(events: seq<Event>, conn: Handle, value: Handle)
    requires CccdFor(Run(events), conn, value) != INVALID_ATTR_HANDLE
    ensures
      var i := ByHandle(Run(events), conn);
      var last := LastAccepted(events, i, value);
      && last.Some? && IsLastAccepted(events, last.value, i, value)
      && events[last.value].descriptor == CccdFor(Run(events), conn, value)
      && (IsOwn(events, conn, value) <==> events[last.value].conn == conn)
  {
    hide Run, IsLastAccepted, LastAccepted;
    var i := ByHandle(Run(events), conn);
    var last := LastAccepted(events, i, value);
    AnswersExactly(events, conn, value);
    forall k: nat ensures last == Some(k) <==> IsLastAccepted(events, k, i, value) {
      LastAcceptedExactly(events, k, i, value);
    }
  }

  // ------------------------------------------------------------------ late callbacks

  /** A descriptor callback reaches the slot of its connection, and a slot gets its handle once. */
  predicate InTime(t: Connections, e: Event) {
    && (e.DescriptorFound? && e.slot < |t| ==> t[e.slot].handle == e.conn && e.conn != INVALID_CONN_HANDLE)
    && (e.Connected? && e.slot < |t| ==> t[e.slot].handle == INVALID_CONN_HANDLE)
  }

  predicate Timely(events: seq<Event>) {
    events == [] || (Timely(events[..|events| - 1]) && InTime(Run(events[..|events| - 1]), events[|events| - 1]))
  }

  predicate AllFrom(reports: set<Report>, conn: Handle) {
    forall r :: r in reports ==> r.0 == conn && conn != INVALID_CONN_HANDLE
  }

  lemma TimelyStep(t: Connections, reports: set<Report>, e: Event, slot: nat)
    requires slot < |t| && InTime(t, e) && AllFrom(reports, t[slot].handle)
    ensures AllFrom(ReportedNext(t, reports, e, slot), Step(t, e)[slot].handle)
  {
    hide WithCccd, WithService, WithCharacteristic;
  }

  /** Without late callbacks, what is reported to a slot comes from the connection in it. */
  lemma {:induction false} TimelyReports(events: seq<Event>, slot: nat)
    requires Timely(events) && slot < MAX_CONNECTIONS
    ensures AllFrom(Reported(events, slot), Run(events)[slot].handle)
    decreases |events|
  {
    if events != [] {
      var earlier, e := events[..|events| - 1], events[|events| - 1];
      TimelyReports(earlier, slot);
      hide AllFrom, InTime, Step;
      TimelyStep(Run(earlier), Reported(earlier, slot), e, slot);
    }
  }

  /** Without late callbacks, an answer for a connection was reported by that connection. */
  lemma TimelyAnswers(events: seq<Event>, conn: Handle, value: Handle)
    requires Timely(events)
    ensures
      var answer := CccdFor(Run(events), conn, value);
      answer != INVALID_ATTR_HANDLE ==> (conn, value, answer) in Reported(events, ByHandle(Run(events), conn))
  {
    var t := Run(events);
    AnswersWereReported(events, conn, value);
    if CccdFor(t, conn, value) != INVALID_ATTR_HANDLE {
      var i := ByHandle(t, conn);
      TimelyReports(events, i);
      var r :| r in Reported(events, i) && r.1 == value && r.2 == CccdFor(t, conn, value);
    }
  }

  lemma RunNext(events: seq<Event>, e: Event)
    ensures Run(events + [e]) == Step(Run(events), e)
  {
    assert (events + [e])[..|events|] == events;
  }

  const DISCOVERY: seq<Event> := [
    ServiceFound(0, 1, "180F", 1, 9), CharacteristicFound(0, 1, "2A19", 2, 3, 16), DescriptorFound(0, 1, 3, true, 4)]

  /**
    With late callbacks it fails: what a first connection's discovery reports after its slot was
    given away answers for the second.
   */
  lemma LateCallbacksAnswer()
    ensures
      var events := [Connect(11), Connected(0, 1), Free(0), Connect(22), Connected(0, 2)] + DISCOVERY;
      && CccdFor(Run(events), 2, 3) == 4 && !IsOwn(events, 2, 3)
      && Run(events)[0].mac == 22
      && forall e :: e in DISCOVERY ==> e.conn == 1
  {
    var changed := [Connect(11), Connected(0, 1), Free(0), Connect(22), Connected(0, 2)];
    SecondConnection();
    DiscoveryRuns(changed);
    var t := [Connection(true, 22, 2, Up, []), CLEARED, CLEARED];
    DiscoveryCaches(t);
    hide Run, Cached, Answer, WithCccd, WithCharacteristic, WithService;
    DescriptorAnswers(Step(Step(t, DISCOVERY[0]), DISCOVERY[1]), 0, 1, 3, 4, 2, 3);
  }

  lemma DiscoveryCaches(t: Connections)
    requires t == [Connection(true, 22, 2, Up, []), CLEARED, CLEARED]
    ensures
      var cached := Step(Step(t, DISCOVERY[0]), DISCOVERY[1]);
      && cached[0].inUse && cached[0].handle == 2 && cached[0].mac == 22
      && Cached(cached[0].services, 3)
      && DISCOVERY[2] == DescriptorFound(0, 1, 3, true, 4)
  {
    var one := Step(t, DISCOVERY[0]);
    assert one[0] == Connection(true, 22, 2, Up, [Service("180F", 1, 9, true, true, [])]);
    var c := NewCharacteristic("2A19", 2, 3, 16);
    assert WithCharacteristic(one[0].services, c)[0].characteristics == [c];
    assert Has(WithCharacteristic(one[0].services, c)[0], 3);
  }

  lemma DiscoveryRuns(events: seq<Event>)
    ensures Run(events + DISCOVERY) == Step(Step(Step(Run(events), DISCOVERY[0]), DISCOVERY[1]), DISCOVERY[2])
  {
    hide Run, Step;
    RunNext(events, DISCOVERY[0]);
    RunNext(events + [DISCOVERY[0]], DISCOVERY[1]);
    RunNext(events + [DISCOVERY[0]] + [DISCOVERY[1]], DISCOVERY[2]);
    assert events + DISCOVERY == events + [DISCOVERY[0]] + [DISCOVERY[1]] + [DISCOVERY[2]];
  }

  lemma SecondConnection()
    ensures
      Run([Connect(11), Connected(0, 1), Free(0), Connect(22), Connected(0, 2)]) ==
        [Connection(true, 22, 2, Up, []), CLEARED, CLEARED]
  {
    var events := [Connect(11), Connected(0, 1), Free(0), Connect(22), Connected(0, 2)];
    assert Run([]) == [CLEARED, CLEARED, CLEARED];
    RunNext([], events[0]);
    RunNext(events[..1], events[1]);
    RunNext(events[..2], events[2]);
    RunNext(events[..3], events[3]);
    RunNext(events[..4], events[4]);
    assert [] + [events[0]] == events[..1] && events[..1] + [events[1]] == events[..2] && events[..2] + [events[2]] == events[..3];
    assert events[..3] + [events[3]] == events[..4] && events[..4] + [events[4]] == events;
  }

  // ------------------------------------------------------------------ the code

  datatype Refusal = NotFound | InvalidState

  class Client {
    const connections: array<Connection>

    constructor ()
      ensures fresh(connections) && connections[..] == Run([])
    {
      connections := new Connection[MAX_CONNECTIONS](_ => CLEARED);
    }

    method FindByHandle(conn: Handle) returns (i: nat)
      ensures i == ByHandle(connections[..], conn)
    {
      i := 0;
      while i < connections.Length
        invariant i <= connections.Length
        invariant forall k :: 0 <= k < i ==> !(connections[k].inUse && connections[k].handle == conn)
      {
        if connections[i].inUse && connections[i].handle == conn {
          return;
        }
        i := i + 1;
      }
    }

    /** Connecting takes the first slot not in use, or none. */
    method AllocateConnection(mac: Mac) returns (slot: Option<nat>)
      modifies connections
      ensures connections[..] == Step(old(connections[..]), Connect(mac))
      ensures slot == var i := Unused(old(connections[..])); if i < connections.Length then Some(i) else None
    {
      var i := 0;
      while i < connections.Length
        invariant i <= connections.Length
        invariant forall k :: 0 <= k < i ==> connections[k].inUse
        invariant connections[..] == old(connections[..])
      {
        if !connections[i].inUse {
          connections[i] := Connection(true, 0, INVALID_CONN_HANDLE, Down, []);
          connections[i] := connections[i].(mac := mac, link := Opening);
          return Some(i);
        }
        i := i + 1;
      }
      return None;
    }

    method FreeConnection(slot: nat)
      modifies connections
      ensures connections[..] == Step(old(connections[..]), Free(slot))
    {
      if slot < connections.Length {
        connections[slot] := CLEARED;
      }
    }

    /** The start of a discovery of all services: the cache is emptied unless the state forbids it. */
    method ResetServices(conn: Handle) returns (refused: Option<Refusal>)
      modifies connections
      ensures connections[..] == Step(old(connections[..]), Rediscover(conn))
      ensures
        var t := old(connections[..]);
        refused ==
          if ByHandle(t, conn) == |t| then Some(NotFound)
          else if !CanDiscover(t, ByHandle(t, conn)) then Some(InvalidState)
          else None
    {
      var i := FindByHandle(conn);
      if i == connections.Length {
        return Some(NotFound);
      }
      if connections[i].link != Up && connections[i].link != Ready {
        return Some(InvalidState);
      }
      connections[i] := connections[i].(link := Discovering);
      connections[i] := connections[i].(services := []);
      return None;
    }

    method ServiceCallback(slot: nat, conn: Handle, uuid: string, start: Handle, end: Handle)
      modifies connections
      ensures connections[..] == Step(old(connections[..]), ServiceFound(slot, conn, uuid, start, end))
    {
      if slot < connections.Length {
        var services := connections[slot].services;
        if |services| < MAX_SERVICES {
          services := services + [Service(uuid, start, end, true, true, [])];
          connections[slot] := connections[slot].(services := services);
        }
      }
    }

    method FindServiceForChar(slot: nat, handle: Handle) returns (i: nat)
      requires slot < connections.Length
      ensures i == ServiceFor(connections[slot].services, handle)
    {
      var services := connections[slot].services;
      i := 0;
      while i < |services|
        invariant i <= |services|
        invariant forall k :: 0 <= k < i ==> !(services[k].valid && services[k].start <= handle <= services[k].end)
      {
        if services[i].valid && handle >= services[i].start && handle <= services[i].end {
          return;
        }
        i := i + 1;
      }
    }

    /** Also gives the last handle to search for descriptors, if a search is started. */
    method CharacteristicCallback(slot: nat, conn: Handle, uuid: string, definition: Handle, value: Handle, properties: nat)
      returns (search: Option<Handle>)
      modifies connections
      ensures connections[..] == Step(old(connections[..]), CharacteristicFound(slot, conn, uuid, definition, value, properties))
      ensures search == SearchTo(At(old(connections[..]), slot), NewCharacteristic(uuid, definition, value, properties))
    {
      search := None;
      if slot < connections.Length {
        var services := connections[slot].services;
        var i := FindServiceForChar(slot, definition);
        if i < |services| && |services[i].characteristics| < MAX_CHARACTERISTICS {
          var cached := Characteristic(uuid, definition, value, 0, properties, true);
          var cs := services[i].characteristics + [cached];
          services := services[i := services[i].(characteristics := cs)];
          connections[slot] := connections[slot].(services := services);
          if Notifies(properties) {
            var last := DescriptorRange(cs, value, services[i].end);
            search := Some(last);
          }
        }
      }
    }

    /** The loops that find a characteristic by its value handle. */
    method FindCharacteristic(slot: nat, value: Handle) returns (i: nat, j: nat)
      requires slot < connections.Length
      ensures var services := connections[slot].services;
        && i == Holder(services, value)
        && (i < |services| ==> j == CharacteristicAt(services[i].characteristics, value) < |services[i].characteristics|)
    {
      var services := connections[slot].services;
      i, j := 0, 0;
      while i < |services|
        invariant i <= |services|
        invariant forall k :: 0 <= k < i ==> !Has(services[k], value)
      {
        if services[i].valid {
          var cs := services[i].characteristics;
          j := 0;
          while j < |cs|
            invariant j <= |cs|
            invariant forall k :: 0 <= k < j ==> !(cs[k].valid && cs[k].value == value)
          {
            if cs[j].valid && cs[j].value == value {
              return;
            }
            j := j + 1;
          }
        }
        i := i + 1;
      }
    }

    method DescriptorCallback(slot: nat, conn: Handle, value: Handle, isCccd: bool, descriptor: Handle)
      modifies connections
      ensures connections[..] == Step(old(connections[..]), DescriptorFound(slot, conn, value, isCccd, descriptor))
    {
      if slot < connections.Length && isCccd {
        var services := connections[slot].services;
        var i, j := FindCharacteristic(slot, value);
        if i < |services| {
          var cs := services[i].characteristics;
          cs := cs[j := cs[j].(cccd := descriptor)];
          connections[slot] := connections[slot].(services := services[i := services[i].(characteristics := cs)]);
        }
      }
    }

    method GetCccdHandle(conn: Handle, value: Handle) returns (cccd: Handle)
      ensures cccd == CccdFor(connections[..], conn, value)
    {
      var slot := FindByHandle(conn);
      if slot == connections.Length {
        return INVALID_ATTR_HANDLE;
      }
      var i, j := FindCharacteristic(slot, value);
      if i < |connections[slot].services| {
        return connections[slot].services[i].characteristics[j].cccd;
      }
      return INVALID_ATTR_HANDLE;
    }
  }
}
