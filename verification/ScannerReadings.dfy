/**
  What an entry of the table of tracked devices (main/bluetooth/ble_scanner.c) says in a run, told
  from the advertisements received since it was made.
 */
module ScannerReadings {
  import opened Wrappers
  import opened Clock
  import opened SlotTable
  import opened RssiAverage
  import opened Scanner

  // ------------------------------------------------------------------ the average

  /** `b` is 77 parts of 256 the strength received and 179 parts the average before, rounded down. */
  predicate IsMix(b: int, a: int, rssi: int) {
    256 * b <= 77 * rssi + 179 * a < 256 * (b + 1)
  }

  function Mixed(a: int, rssi: int): int {
    (77 * rssi + 179 * a) / 256
  }

  lemma MixedIsMix(a: int, rssi: int)
    ensures IsMix(Mixed(a, rssi), a, rssi)
  {
  }

  /** The 32-bit count of what was heard before is zero. */
  predicate Restarts(n: nat) {
    n % 0x1_0000_0000 == 0
  }

  /** Mixed from the average before, but for the first one and when the 32-bit count has come round to zero. */
  predicate IsNext(averages: seq<int>, heard: seq<Int8>, i: nat)
    requires i < |heard| == |averages|
  {
    if Restarts(i) then averages[i] == heard[i] else IsMix(averages[i], averages[i - 1], heard[i])
  }

  /** The averages after each strength heard. */
  ghost predicate Averages(averages: seq<int>, heard: seq<Int8>) {
    && |averages| == |heard|
    && forall i :: 0 <= i < |heard| ==> IsNext(averages, heard, i)
  }

  /** They are determined by what was heard. */
  function Smoothed(heard: seq<Int8>): (r: seq<int>)
    ensures |r| == |heard|
  {
    if heard == [] then []
    else
      var n := |heard| - 1;
      var before := Smoothed(heard[..n]);
      before + [if Restarts(n) then heard[n] else Mixed(before[n - 1], heard[n])]
  }

  lemma {:induction false} SmoothedAverages(heard: seq<Int8>)
    ensures Averages(Smoothed(heard), heard)
    decreases |heard|
  {
    if heard != [] {
      var n := |heard| - 1;
      var front, all := heard[..n], Smoothed(heard);
      SmoothedAverages(front);
      assert all[..n] == Smoothed(front);
      forall i | 0 <= i < |heard| ensures IsNext(all, heard, i) {
        if i < n {
          assert IsNext(Smoothed(front), front, i);
        } else if !Restarts(n) {
          MixedIsMix(Smoothed(front)[n - 1], heard[n]);
        }
      }
    }
  }

  lemma {:induction false} AveragesAreUnique(a: seq<int>, b: seq<int>, heard: seq<Int8>)
    requires Averages(a, heard) && Averages(b, heard)
    ensures a == b
    decreases |heard|
  {
    if heard != [] {
      var n := |heard| - 1;
      FrontAverages(a, heard);
      FrontAverages(b, heard);
      AveragesAreUnique(a[..n], b[..n], heard[..n]);
      assert IsNext(a, heard, n) && IsNext(b, heard, n);
      assert n > 0 ==> a[n - 1] == a[..n][n - 1] && b[n - 1] == b[..n][n - 1];
      assert a == a[..n] + [a[n]] && b == b[..n] + [b[n]];
    }
  }

  lemma FrontAverages(a: seq<int>, heard: seq<Int8>)
    requires Averages(a, heard) && heard != []
    ensures Averages(a[..|heard| - 1], heard[..|heard| - 1])
  {
    var n := |heard| - 1;
    forall i | 0 <= i < n ensures IsNext(a[..n], heard[..n], i) {
      assert IsNext(a, heard, i);
    }
  }

  predicate IsLastOf(average: int, averages: seq<int>) {
    averages != [] && average == averages[|averages| - 1]
  }

  lemma MixIsAverage(rssi: Int8, average: Int8)
    ensures Mixed(average, rssi) == Average(rssi, average)
  {
    FitsWithNoRoom(rssi, average);
  }

  lemma SmoothedSnoc(heard: seq<Int8>, rssi: Int8)
    ensures
      Smoothed(heard + [rssi]) ==
        Smoothed(heard) + [if Restarts(|heard|) then rssi else Mixed(Smoothed(heard)[|heard| - 1], rssi)]
  {
    hide Mixed, Restarts;
    var all := heard + [rssi];
    assert all[..|heard|] == heard && all[|heard|] == rssi;
    assert heard == [] ==> Restarts(0) by { NoneRestarts(); }
  }

  lemma NoneRestarts()
    ensures Restarts(0)
  {
  }

  lemma SmoothedNext(heard: seq<Int8>, rssi: Int8, average: Int8)
    requires heard != [] ==> IsLastOf(average, Smoothed(heard))
    ensures IsLastOf(if Restarts(|heard|) then rssi else Average(rssi, average), Smoothed(heard + [rssi]))
  {
    hide Average, Mixed, Smoothed, Restarts;
    MixIsAverage(rssi, average);
    NoneRestarts();
    SmoothedSnoc(heard, rssi);
  }

  lemma UpdatedAverage(e: Entry, adv: Advertisement, heard: seq<Int8>)
    requires e.data.count == |heard| % CYCLE && (heard != [] ==> IsLastOf(e.data.average, Smoothed(heard)))
    ensures IsLastOf(Updated(e, adv).data.average, Smoothed(heard + [adv.rssi]))
  {
    SmoothedNext(heard, adv.rssi, e.data.average);
    hide Average, Smoothed, IsLastOf;
  }

  /** In every run a held device's average is the last of the averages of what was heard of it. */
  lemma {:induction false} AverageIsSmoothed(limit: nat, events: seq<Event>, mac: Mac)
    requires limit > 0
    ensures
      var devices := Contents(Run(limit, events).slots);
      mac in devices ==> IsLastOf(devices[mac].data.average, Smoothed(Heard(limit, events, mac)))
    decreases |events|
  {
    EmptyContents(Initial(limit).slots);
    if events != [] {
      var earlier, e := events[..|events| - 1], events[|events| - 1];
      RunIsValid(limit, earlier);
      var s := Run(limit, earlier);
      StepRefines(s, e);
      var before, after := Contents(s.slots), Contents(Step(s, e).slots);
      hide Valid, Contents, MapStep, Step, Updated, IsLastOf, Smoothed;
      AverageIsSmoothed(limit, earlier, mac);
      AverageStaysBetween(limit, earlier, mac, 0, 0);
      if mac in after {
        OthersAreKept(limit, before, e, after, mac);
        if e.Advertise? && e.adv.mac == mac {
          if mac in before {
            UpdatedAverage(before[mac], e.adv, Heard(limit, earlier, mac));
          } else {
            UpdatedAverage(NewEntry(e.adv), e.adv, []);
            assert [] + [e.adv.rssi] == [e.adv.rssi];
          }
        }
      }
    }
  }

  /** So it is, however the averages are given. */
  lemma AverageIsMixed(limit: nat, events: seq<Event>, mac: Mac, averages: seq<int>)
    requires limit > 0 && mac in Contents(Run(limit, events).slots)
    requires Averages(averages, Heard(limit, events, mac))
    ensures IsLastOf(Contents(Run(limit, events).slots)[mac].data.average, averages)
  {
    var heard := Heard(limit, events, mac);
    SmoothedAverages(heard);
    AveragesAreUnique(averages, Smoothed(heard), heard);
    AverageIsSmoothed(limit, events, mac);
  }

  /** A first strength is the average; one more is mixed into the average there was. */
  lemma AverageAfterOneMore(limit: nat, events: seq<Event>, adv: Advertisement)
    requires limit > 0
    ensures
      var before, after := Contents(Run(limit, events).slots), Contents(Run(limit, events + [Advertise(adv)]).slots);
      && adv.mac in after
      && (adv.mac !in before ==> after[adv.mac].data.average == adv.rssi)
      && (adv.mac in before && before[adv.mac].data.count != 0 ==>
            IsMix(after[adv.mac].data.average, before[adv.mac].data.average, adv.rssi))
  {
    var mac := adv.mac;
    var s := Run(limit, events);
    RunIsValid(limit, events);
    StepRefines(s, Advertise(adv));
    RunNext(limit, events, Advertise(adv));
    var before, after := Contents(s.slots), Contents(Step(s, Advertise(adv)).slots);
    EntryMac(before, adv) by { assert IsKeyed(before); }
    hide Valid, Contents, Run, Step, Average;
    OthersAreKept(limit, before, Advertise(adv), after, mac);
    FitsWithNoRoom(adv.rssi, if mac in before then before[mac].data.average else 0);
  }

  // ------------------------------------------------------------------ a constant signal

  function Repeated(rssi: Int8, n: nat): seq<Int8> {
    seq(n, _ => rssi)
  }

  lemma {:induction false} SettleLast(rssi: Int8, average: Int8, n: nat)
    requires n > 0
    ensures Settle(rssi, average, n) == Average(rssi, Settle(rssi, average, n - 1))
    decreases n
  {
    hide Average;
    if n > 1 {
      SettleLast(rssi, Average(rssi, average), n - 1);
    }
  }

  lemma OneMoreRepeated(heard: seq<Int8>, rssi: Int8, n: nat)
    ensures heard + Repeated(rssi, n + 1) == heard + Repeated(rssi, n) + [rssi]
    ensures heard + Repeated(rssi, 0) == heard
    ensures |Repeated(rssi, n)| == n
  {
  }

  lemma NoRestart(n: nat)
    requires 0 < n < CYCLE
    ensures !Restarts(n)
  {
  }

  lemma SettlesOnce(heard: seq<Int8>, average: Int8, rssi: Int8, n: nat)
    requires heard != [] && |heard| + n < CYCLE
    requires IsLastOf(Settle(rssi, average, n), Smoothed(heard + Repeated(rssi, n)))
    ensures IsLastOf(Settle(rssi, average, n + 1), Smoothed(heard + Repeated(rssi, n + 1)))
  {
    hide Settle, Average, Smoothed, IsLastOf, Restarts, Repeated;
    SettleLast(rssi, average, n + 1);
    OneMoreRepeated(heard, rssi, n);
    var front := heard + Repeated(rssi, n);
    NoRestart(|front|);
    SmoothedNext(front, rssi, Settle(rssi, average, n));
  }

  /** Averages of a constant signal settle. */
  lemma {:induction false} SmoothedSettles(heard: seq<Int8>, average: Int8, rssi: Int8, n: nat)
    requires heard != [] && IsLastOf(average, Smoothed(heard)) && |heard| + n <= CYCLE
    ensures IsLastOf(Settle(rssi, average, n), Smoothed(heard + Repeated(rssi, n)))
    decreases n
  {
    hide IsLastOf, Smoothed, Average, Repeated;
    if n == 0 {
      OneMoreRepeated(heard, rssi, 0);
    } else {
      SmoothedSettles(heard, average, rssi, n - 1);
      SettlesOnce(heard, average, rssi, n - 1);
    }
  }

  /**
    In every run, when n times in a row the same strength is heard of a held device, its average
    reaches that strength from above and 3 less from further below, and else stays.
   */
  lemma AverageConverges(limit: nat, events: seq<Event>, more: seq<Event>, mac: Mac, rssi: Int8, n: nat)
    requires limit > 0 && mac in Contents(Run(limit, events).slots) && mac in Contents(Run(limit, events + more).slots)
    requires Heard(limit, events + more, mac) == Heard(limit, events, mac) + Repeated(rssi, n)
    requires |Heard(limit, events, mac)| + n <= CYCLE
    ensures
      var a := Contents(Run(limit, events).slots)[mac].data.average;
      var b := Contents(Run(limit, events + more).slots)[mac].data.average;
      && (a > rssi && n >= a - rssi ==> b == rssi)
      && (a < rssi - 3 && n >= rssi - 3 - a ==> b == rssi - 3)
      && (rssi - 3 <= a <= rssi ==> b == a)
  {
    var heard := Heard(limit, events, mac);
    var a := Contents(Run(limit, events).slots)[mac].data.average;
    AverageIsSmoothed(limit, events, mac);
    AverageIsSmoothed(limit, events + more, mac);
    hide Run, Contents, Heard, Smoothed;
    SmoothedSettles(heard, a, rssi, n);
    if n >= Distance(rssi, a) {
      Converges(rssi, a, n);
    }
  }

  // ------------------------------------------------------------------ the other fields

  /** The advertisement that the device's present entry was made for. */
  function FirstMet(limit: nat, events: seq<Event>, mac: Mac): Option<Advertisement>
    requires limit > 0
  {
    if events == [] then None
    else
      var earlier, e := events[..|events| - 1], events[|events| - 1];
      if e.Advertise? && e.adv.mac == mac && mac !in Contents(Run(limit, earlier).slots) then Some(e.adv)
      else FirstMet(limit, earlier, mac)
  }

  /** What the last extended advertisement since then said. */
  function LastExtension(limit: nat, events: seq<Event>, mac: Mac): Option<Extension>
    requires limit > 0
  {
    if events == [] then None
    else
      var earlier, e := events[..|events| - 1], events[|events| - 1];
      if !e.Advertise? || e.adv.mac != mac then LastExtension(limit, earlier, mac)
      else if e.adv.extension.Some? then e.adv.extension
      else if mac in Contents(Run(limit, earlier).slots) then LastExtension(limit, earlier, mac)
      else None
  }

  /** Extended advertisements say whether a device is a Bluetooth 5 one, on which channel it answers and how strongly it sends. */
  predicate Says(d: Sighting, x: Option<Extension>) {
    && (d.ble5 <==> x.Some? && !x.value.legacy)
    && d.phy == (if x.None? then 0 else if x.value.secondaryPhy == 0xFF then x.value.primaryPhy else x.value.secondaryPhy)
    && d.txPower == (if x.None? then 0 else x.value.txPower)
  }

  predicate Tells(e: Entry, first: Option<Advertisement>, last: Option<Extension>) {
    && first.Some?
    && e.data.addrType == first.value.addrType
    && e.data.firstSeen == first.value.created % 0x1_0000_0000
    && Says(e.data, last)
  }

  lemma UpdatedTells(e: Entry, adv: Advertisement, first: Option<Advertisement>, last: Option<Extension>)
    requires Tells(e, first, last)
    ensures Tells(Updated(e, adv), first, if adv.extension.Some? then adv.extension else last)
  {
  }

  lemma NewTells(adv: Advertisement)
    ensures Tells(NewEntry(adv), Some(adv), None)
  {
  }

  /** In every run an entry says when and how its device was first met and what its last extended advertisement said. */
  lemma {:induction false} EntryTells(limit: nat, events: seq<Event>, mac: Mac)
    requires limit > 0
    ensures
      var devices := Contents(Run(limit, events).slots);
      mac in devices ==> Tells(devices[mac], FirstMet(limit, events, mac), LastExtension(limit, events, mac))
    decreases |events|
  {
    EmptyContents(Initial(limit).slots);
    if events != [] {
      var earlier, e := events[..|events| - 1], events[|events| - 1];
      RunIsValid(limit, earlier);
      var s := Run(limit, earlier);
      StepRefines(s, e);
      var before, after := Contents(s.slots), Contents(Step(s, e).slots);
      hide Valid, Contents, MapStep, Step, Updated, Tells, NewEntry;
      EntryTells(limit, earlier, mac);
      if mac in after {
        OthersAreKept(limit, before, e, after, mac);
        if e.Advertise? && e.adv.mac == mac {
          if mac in before {
            UpdatedTells(before[mac], e.adv, FirstMet(limit, earlier, mac), LastExtension(limit, earlier, mac));
          } else {
            NewTells(e.adv);
            UpdatedTells(NewEntry(e.adv), e.adv, Some(e.adv), None);
          }
        }
      }
    }
  }
}
