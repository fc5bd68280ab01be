/** Milliseconds since boot as an unsigned 32-bit number, and what ages computed from it are worth. */
module Clock {
  const CYCLE := 0x1_0000_0000

  /** A time as the 32-bit clock shows it. */
  function Stamp(time: nat): nat {
    time % CYCLE
  }

  /** Unsigned 32-bit subtraction. */
  function Age(now: nat, seen: nat): nat {
    (now - seen) % CYCLE
  }

  /**
    The 32-bit age puts a time on the wrong side of the timeout: `now` was read before it, and
    less than a cycle minus the timeout; or the true age is past the timeout by whole cycles.
   */
  predicate Misleads(seen: nat, now: nat, timeout: nat) {
    if now < seen then 0 < (seen - now) % CYCLE < CYCLE - timeout
    else now - seen > timeout && (now - seen) % CYCLE <= timeout
  }

  lemma AgeIsDifference(seen: nat, now: nat)
    ensures Age(Stamp(now), Stamp(seen)) == (now - seen) % CYCLE
  {
    var a, b := now / CYCLE, seen / CYCLE;
    assert now - seen == (Stamp(now) - Stamp(seen)) + (a - b) * CYCLE;
    ModShift(Stamp(now) - Stamp(seen), a - b);
  }

  lemma ModShift(x: int, k: int)
    ensures (x + k * CYCLE) % CYCLE == x % CYCLE
  {
    var q, r := x / CYCLE, x % CYCLE;
    assert x + k * CYCLE == (q + k) * CYCLE + r;
  }

  /** The 32-bit age tells whether a timeout has passed exactly when it does not mislead. */
  lemma JudgesExactly(seen: nat, now: nat, timeout: nat)
    requires timeout < CYCLE
    ensures (Age(Stamp(now), Stamp(seen)) > timeout <==> now - seen > timeout) <==> !Misleads(seen, now, timeout)
  {
    AgeIsDifference(seen, now);
  }

  lemma InOrderExactly(a: nat, b: nat)
    requires Stamp(a) <= Stamp(b)
    ensures a <= b <==> a / CYCLE <= b / CYCLE
  {
  }
}
