/**
  The fixed-point moving average of the signal strength (main/bluetooth/ble_scanner.c). The
  conversions to `int16_t` and `int8_t` are written out; shifting right by 8 is dividing by 256,
  rounding down.
 */
module RssiAverage {
  type Int8 = x: int | -0x80 <= x < 0x80

  const ALPHA := 77
  const SCALE := 256

  function ToInt16(x: int): int {
    (x + 0x8000) % 0x1_0000 - 0x8000
  }

  function ToInt8(x: int): Int8 {
    (x + 0x80) % 0x100 - 0x80
  }

  function Mix(rssi: Int8, average: Int8): int {
    ALPHA * rssi + (SCALE - ALPHA) * average
  }

  function Average(rssi: Int8, average: Int8): Int8 {
    ToInt8(ToInt16(Mix(rssi, average)) / SCALE)
  }

  /** Neither conversion loses anything, and the bounds of the intermediate are reached. */
  lemma FitsWithNoRoom(rssi: Int8, average: Int8)
    ensures -32768 <= Mix(rssi, average) <= 32512
    ensures Average(rssi, average) == Mix(rssi, average) / SCALE
    ensures Mix(-128, -128) == -32768 && Mix(127, 127) == 32512
  {
    var mix := Mix(rssi, average);
    assert ToInt16(mix) == mix;
    assert -128 <= mix / SCALE <= 127;
  }

  /** The new average lies between the old one and what was received. */
  lemma AverageIsBetween(rssi: Int8, average: Int8, low: int, high: int)
    requires low <= rssi <= high && low <= average <= high
    ensures low <= Average(rssi, average) <= high
  {
    FitsWithNoRoom(rssi, average);
    var mix := Mix(rssi, average);
    assert SCALE * low <= mix <= SCALE * high;
  }

  /** Under a constant signal the average stays put exactly at the signal and up to 3 below it. */
  lemma FixedPoints(rssi: Int8, average: Int8)
    ensures Average(rssi, average) == average <==> rssi - 3 <= average <= rssi
  {
    FitsWithNoRoom(rssi, average);
  }

  /** The average after `n` receptions of the same strength. */
  function Settle(rssi: Int8, average: Int8, n: nat): Int8
    decreases n
  {
    if n == 0 then average else Settle(rssi, Average(rssi, average), n - 1)
  }

  /** Where a constant signal leads: to itself from above, to 3 short of it from below. */
  function Limit(rssi: Int8, average: Int8): int {
    if average > rssi then rssi else if average < rssi - 3 then rssi - 3 else average
  }

  function Distance(rssi: Int8, average: Int8): nat {
    if average >= Limit(rssi, average) then average - Limit(rssi, average) else Limit(rssi, average) - average
  }

  /** One reception keeps the limit and comes nearer to it. */
  lemma StepsCloser(rssi: Int8, average: Int8)
    ensures Limit(rssi, Average(rssi, average)) == Limit(rssi, average)
    ensures Distance(rssi, average) > 0 ==> Distance(rssi, Average(rssi, average)) < Distance(rssi, average)
    ensures Distance(rssi, average) == 0 ==> Average(rssi, average) == average
  {
    FitsWithNoRoom(rssi, average);
    FixedPoints(rssi, average);
  }

  /** The limit is reached after no more receptions than the distance to it. */
  lemma {:induction false} Converges(rssi: Int8, average: Int8, n: nat)
    requires n >= Distance(rssi, average)
    ensures Settle(rssi, average, n) == Limit(rssi, average)
    decreases n
  {
    if n > 0 {
      StepsCloser(rssi, average);
      Converges(rssi, Average(rssi, average), n - 1);
    }
  }
}
