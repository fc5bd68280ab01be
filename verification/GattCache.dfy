/**
  The attributes cached for a connection (main/bluetooth/ble_gatt_client.c): services, their
  characteristics, and for each characteristic the handle of its client characteristic
  configuration descriptor (CCCD). The arrays are given by their used parts, so a count is a
  length.
 */
module GattCache {
  import opened Wrappers

  const MAX_SERVICES := 16
  const MAX_CHARACTERISTICS := 32
  const INVALID_ATTR_HANDLE := 0

  type Handle = nat

  datatype Characteristic = Characteristic(
    uuid: string, definition: Handle, value: Handle, cccd: Handle, properties: nat, valid: bool)

  datatype Service = Service(
    uuid: string, start: Handle, end: Handle, primary: bool, valid: bool, characteristics: seq<Characteristic>)

  type Services = seq<Service>

  predicate Sound(s: Service) {
    && s.valid
    && |s.characteristics| <= MAX_CHARACTERISTICS
    && forall c :: c in s.characteristics ==> c.valid && s.start <= c.definition <= s.end
  }

  /** Counts are bounded, entries are valid and characteristics lie in the range of their service. */
  predicate Consistent(services: Services) {
    && |services| <= MAX_SERVICES
    && forall s :: s in services ==> Sound(s)
  }

  // ------------------------------------------------------------------ services and characteristics

  function WithService(services: Services, uuid: string, start: Handle, end: Handle): Services {
    if |services| < MAX_SERVICES then services + [Service(uuid, start, end, true, true, [])] else services
  }

  /** The first valid service whose range holds the handle, or their number. */
  function ServiceFor(services: Services, handle: Handle): (i: nat)
    ensures i <= |services|
    ensures i < |services| ==> services[i].valid && services[i].start <= handle <= services[i].end
    ensures forall k :: 0 <= k < i ==> !(services[k].valid && services[k].start <= handle <= services[k].end)
  {
    if services == [] || (services[0].valid && services[0].start <= handle <= services[0].end) then 0
    else 1 + ServiceFor(services[1..], handle)
  }

  function NewCharacteristic(uuid: string, definition: Handle, value: Handle, properties: nat): Characteristic {
    Characteristic(uuid, definition, value, INVALID_ATTR_HANDLE, properties, true)
  }

  function WithCharacteristic(services: Services, c: Characteristic): (r: Services)
    ensures |r| == |services|
  {
    var i := ServiceFor(services, c.definition);
    if i < |services| && |services[i].characteristics| < MAX_CHARACTERISTICS
    then services[i := services[i].(characteristics := services[i].characteristics + [c])]
    else services
  }

  // ------------------------------------------------------------------ descriptors

  /** The first valid characteristic with the value handle, or their number. */
  function CharacteristicAt(cs: seq<Characteristic>, value: Handle): (j: nat)
    ensures j <= |cs|
    ensures j < |cs| ==> cs[j].valid && cs[j].value == value
    ensures forall k :: 0 <= k < j ==> !(cs[k].valid && cs[k].value == value)
  {
    if cs == [] || (cs[0].valid && cs[0].value == value) then 0 else 1 + CharacteristicAt(cs[1..], value)
  }

  predicate Has(s: Service, value: Handle) {
    s.valid && CharacteristicAt(s.characteristics, value) < |s.characteristics|
  }

  /** The first service that has the value handle, or their number. */
  function Holder(services: Services, value: Handle): (i: nat)
    ensures i <= |services|
    ensures i < |services| ==> Has(services[i], value)
    ensures forall k :: 0 <= k < i ==> !Has(services[k], value)
  {
    if services == [] || Has(services[0], value) then 0 else 1 + Holder(services[1..], value)
  }

  predicate Cached(services: Services, value: Handle) {
    Holder(services, value) < |services|
  }

  function Answer(services: Services, value: Handle): Handle {
    var i := Holder(services, value);
    if i < |services| then services[i].characteristics[CharacteristicAt(services[i].characteristics, value)].cccd
    else INVALID_ATTR_HANDLE
  }

  function WithCccd(services: Services, value: Handle, cccd: Handle): (r: Services)
    ensures |r| == |services|
  {
    var i := Holder(services, value);
    if i == |services| then services
    else
      var cs := services[i].characteristics;
      var j := CharacteristicAt(cs, value);
      services[i := services[i].(characteristics := cs[j := cs[j].(cccd := cccd)])]
  }

  // ------------------------------------------------------------------ consistency

  lemma ServiceKeepsConsistent(services: Services, uuid: string, start: Handle, end: Handle)
    requires Consistent(services)
    ensures Consistent(WithService(services, uuid, start, end))
  {
  }

  lemma CharacteristicKeepsConsistent(services: Services, c: Characteristic)
    requires Consistent(services) && c.valid
    ensures Consistent(WithCharacteristic(services, c))
  {
    var i := ServiceFor(services, c.definition);
    if i < |services| && |services[i].characteristics| < MAX_CHARACTERISTICS {
      assert Sound(services[i]);
      assert Sound(WithCharacteristic(services, c)[i]);
    }
  }

  lemma CccdKeepsConsistent(services: Services, value: Handle, cccd: Handle)
    requires Consistent(services)
    ensures Consistent(WithCccd(services, value, cccd))
  {
    var i := Holder(services, value);
    if i < |services| {
      assert Sound(services[i]);
      assert Sound(WithCccd(services, value, cccd)[i]);
    }
  }

  // ------------------------------------------------------------------ answers

  /** Two services that differ at most in the descriptors they know. */
  predicate SameShape(s: Service, t: Service) {
    && s.valid == t.valid
    && |s.characteristics| == |t.characteristics|
    && forall j :: 0 <= j < |s.characteristics| ==>
         s.characteristics[j].valid == t.characteristics[j].valid && s.characteristics[j].value == t.characteristics[j].value
  }

  lemma SamePlace(s: Service, t: Service, value: Handle)
    requires SameShape(s, t)
    ensures CharacteristicAt(s.characteristics, value) == CharacteristicAt(t.characteristics, value)
    ensures Has(s, value) == Has(t, value)
  {
  }

  lemma SameHolder(services: Services, others: Services, value: Handle)
    requires |services| == |others|
    requires forall i :: 0 <= i < |services| ==> SameShape(services[i], others[i])
    ensures Holder(services, value) == Holder(others, value)
  {
    forall i | 0 <= i < |services| ensures Has(services[i], value) == Has(others[i], value) {
      SamePlace(services[i], others[i], value);
    }
  }

  /** A descriptor's handle becomes the answer for its characteristic, and no other answer changes. */
  lemma CccdAnswers(services: Services, value: Handle, cccd: Handle, other: Handle)
    ensures
      Answer(WithCccd(services, value, cccd), other) ==
        if other == value && Cached(services, value) then cccd else Answer(services, other)
  {
    var i, after := Holder(services, value), WithCccd(services, value, cccd);
    if i < |services| {
      SameHolder(services, after, other);
      SamePlace(services[i], after[i], other);
    }
  }

  /** A new service changes no answer. */
  lemma ServiceAnswers(services: Services, uuid: string, start: Handle, end: Handle, value: Handle)
    ensures Answer(WithService(services, uuid, start, end), value) == Answer(services, value)
  {
    var after := WithService(services, uuid, start, end);
    if |services| < MAX_SERVICES {
      assert !Has(after[|services|], value);
      assert forall i :: 0 <= i < |services| ==> after[i] == services[i];
    }
  }

  /** Whether a characteristic is stored: a service holds its definition and has room. */
  predicate Fits(services: Services, c: Characteristic) {
    var i := ServiceFor(services, c.definition);
    i < |services| && |services[i].characteristics| < MAX_CHARACTERISTICS
  }

  /** A new characteristic with the value handle is found before any other that has it. */
  predicate Shadows(services: Services, c: Characteristic, value: Handle) {
    c.value == value && Fits(services, c) && ServiceFor(services, c.definition) < Holder(services, value)
  }

  /** A new characteristic changes an answer exactly when it comes to be found first under its value handle; then there is none. */
  lemma CharacteristicAnswers(services: Services, c: Characteristic, value: Handle)
    requires c.valid && c.cccd == INVALID_ATTR_HANDLE
    ensures
      Answer(WithCharacteristic(services, c), value) ==
        if Shadows(services, c, value) then INVALID_ATTR_HANDLE else Answer(services, value)
  {
    var after := WithCharacteristic(services, c);
    var i := ServiceFor(services, c.definition);
    if after != services {
      AppendedPlace(services[i].characteristics, c, value);
      var h, k := Holder(services, value), Holder(after, value);
      assert forall n :: 0 <= n < |services| && n != i ==> Has(after[n], value) == Has(services[n], value);
      assert Has(after[i], value) <==> Has(services[i], value) || c.value == value;
    }
  }

  lemma AppendedPlace(cs: seq<Characteristic>, c: Characteristic, value: Handle)
    requires c.valid
    ensures
      CharacteristicAt(cs + [c], value) ==
        if CharacteristicAt(cs, value) < |cs| then CharacteristicAt(cs, value)
        else if c.value == value then |cs| else |cs| + 1
  {
    var all := cs + [c];
    assert all[|cs|] == c;
    assert forall k :: 0 <= k < |cs| ==> all[k] == cs[k];
  }

  // ------------------------------------------------------------------ the range searched for descriptors

  /** One turn of the loop that cuts the range before the next characteristic. */
  function Cut(end: Handle, definition: Handle, value: Handle): (r: Handle)
    ensures r <= end
  {
    if value < definition < end then definition - 1 else end
  }

  function DescriptorEnd(cs: seq<Characteristic>, value: Handle, end: Handle): (r: Handle)
    ensures r <= end
  {
    if cs == [] then end else Cut(DescriptorEnd(cs[..|cs| - 1], value, end), cs[|cs| - 1].definition, value)
  }

  method DescriptorRange(cs: seq<Characteristic>, value: Handle, end: Handle) returns (last: Handle)
    ensures last == DescriptorEnd(cs, value, end)
  {
    last := end;
    for i := 0 to |cs|
      invariant last == DescriptorEnd(cs[..i], value, end)
    {
      assert cs[..i + 1][..i] == cs[..i];
      if cs[i].definition > value && cs[i].definition < last {
        last := cs[i].definition - 1;
      }
    }
    assert cs[..|cs|] == cs;
  }

  /** The range is cut exactly when some cached characteristic is defined inside it, short of its end. */
  lemma {:induction false} RangeIsWholeExactly(cs: seq<Characteristic>, value: Handle, end: Handle)
    ensures
      DescriptorEnd(cs, value, end) == end <==>
        forall i :: 0 <= i < |cs| ==> !(value < cs[i].definition < end)
    decreases |cs|
  {
    if cs != [] {
      var front := cs[..|cs| - 1];
      RangeIsWholeExactly(front, value, end);
      assert forall i :: 0 <= i < |front| ==> front[i] == cs[i];
    }
  }

  const PROP_NOTIFY := 0x10
  const PROP_INDICATE := 0x20

  /** Bit 4 or bit 5 is set. */
  predicate Notifies(properties: nat) {
    properties / PROP_NOTIFY % 2 == 1 || properties / PROP_INDICATE % 2 == 1
  }

  /** The last handle searched for descriptors of a new characteristic, if a search is started. */
  function SearchTo(services: Services, c: Characteristic): Option<Handle> {
    if !Fits(services, c) || !Notifies(c.properties) then None
    else
      var s := services[ServiceFor(services, c.definition)];
      Some(DescriptorEnd(s.characteristics + [c], c.value, s.end))
  }

  /** Reported in ascending order, a characteristic is searched for descriptors to the end of its service. */
  lemma AscendingRangeIsWhole(cs: seq<Characteristic>, c: Characteristic, end: Handle)
    requires c.definition < c.value && forall i :: 0 <= i < |cs| ==> cs[i].definition <= c.definition
    ensures DescriptorEnd(cs + [c], c.value, end) == end
  {
    RangeIsWholeExactly(cs + [c], c.value, end);
  }
}
