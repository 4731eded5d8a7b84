/**
  The deadline arithmetic that readBuffer and writeBuffer share: a timespec is
  advanced by a timeout in milliseconds, and the milliseconds that are left are
  computed from two timespecs by an int32 expression with C's truncating
  division.
 */
module Deadline {

  /** struct timespec. The end time may hold tv_nsec == 1_000_000_000, see EndTime. */
  datatype Timespec = Timespec(sec: int, nsec: int)

  const INT32_MAX: int := 0x7FFF_FFFF
  const INT32_MIN: int := -0x8000_0000

  /** What clock_gettime returns. */
  predicate Normal(t: Timespec) {
    0 <= t.sec && 0 <= t.nsec < 1_000_000_000
  }

  lemma ClockAt(nanos: nat) returns (t: Timespec)
    ensures Normal(t) && Nanos(t) == nanos
  {
    t := Timespec(nanos / 1_000_000_000, nanos % 1_000_000_000);
  }

  function Millis(ms: int): int {
    ms * 1_000_000
  }

  function Nanos(t: Timespec): int {
    t.sec * 1_000_000_000 + t.nsec
  }

  /** The end time of a wait of `millis` that starts at `start`. The carry test is a strict
      `>`, so tv_nsec may be left at exactly 1_000_000_000. */
  function EndTime(start: Timespec, millis: nat): Timespec {
    var sec := start.sec + millis / 1000;
    var nsec := start.nsec + millis % 1000 * 1_000_000;
    if nsec > 1_000_000_000 then Timespec(sec + 1, nsec - 1_000_000_000) else Timespec(sec, nsec)
  }

  /** C's integer division by a positive divisor: it truncates towards zero. */
  function TruncDiv(a: int, b: int): int
    requires b > 0
  {
    if a >= 0 then a / b else -((-a) / b)
  }

  /** remainingTimeOut, in unbounded integers; FitsInt32 says when C computes the same. */
  function Remaining(end: Timespec, now: Timespec): int {
    (end.sec - now.sec) * 1000 + TruncDiv(end.nsec - now.nsec, 1_000_000)
  }

  predicate Int32(x: int) {
    INT32_MIN <= x <= INT32_MAX
  }

  /** No intermediate value of the remainingTimeOut expression leaves int32. */
  predicate FitsInt32(end: Timespec, now: Timespec) {
    && Int32(end.sec - now.sec)
    && Int32((end.sec - now.sec) * 1000)
    && Int32(TruncDiv(end.nsec - now.nsec, 1_000_000))
    && Int32(Remaining(end, now))
  }

  /** Rounding towards minus and plus infinity of a nanosecond count to milliseconds. */
  function FloorMillis(nanos: int): int { nanos / 1_000_000 }

  function CeilMillis(nanos: int): int { -((-nanos) / 1_000_000) }

  /** The end time is exact, whether or not its nanoseconds are normalized. */
  lemma EndTimeIsExact(start: Timespec, millis: nat)
    requires Normal(start)
    ensures Nanos(EndTime(start, millis)) == Nanos(start) + Millis(millis)
    ensures 0 <= EndTime(start, millis).nsec <= 1_000_000_000
    ensures Normal(EndTime(start, millis)) <==> start.nsec + millis % 1000 * 1_000_000 != 1_000_000_000
  {
    assert millis == millis / 1000 * 1000 + millis % 1000;
  }

  /** The computed remaining time is the true one rounded down or rounded up. */
  lemma RemainingIsRounded(end: Timespec, now: Timespec)
    ensures FloorMillis(Nanos(end) - Nanos(now)) <= Remaining(end, now) <= CeilMillis(Nanos(end) - Nanos(now))
  {
    var s, n := end.sec - now.sec, end.nsec - now.nsec;
    assert Nanos(end) - Nanos(now) == s * 1_000_000_000 + n;
    assert (s * 1_000_000_000 + n) / 1_000_000 == s * 1000 + n / 1_000_000;
    assert (-s * 1_000_000_000 - n) / 1_000_000 == -s * 1000 + (-n) / 1_000_000;
  }

  /** Right at the start the whole timeout is left. */
  lemma FreshDeadline(start: Timespec, millis: nat)
    requires Normal(start)
    ensures Remaining(EndTime(start, millis), start) == millis
  {
    EndTimeIsExact(start, millis);
    RemainingIsRounded(EndTime(start, millis), start);
  }

  /** The error is less than a millisecond; a negative result means that the deadline has
      passed, and a check at least a millisecond late yields a negative result. */
  lemma RemainingIsSound(end: Timespec, now: Timespec)
    ensures Nanos(end) - Nanos(now) - 1_000_000
         < Millis(Remaining(end, now))
         < Nanos(end) - Nanos(now) + 1_000_000
    ensures Remaining(end, now) < 0 ==> Nanos(now) > Nanos(end)
    ensures Nanos(now) >= Nanos(end) + 1_000_000 ==> Remaining(end, now) < 0
  {
    RemainingIsRounded(end, now);
  }

  /** The check is made at or after the start and at most about 24 days after the end. */
  predicate CheckedInTime(start: Timespec, millis: nat, now: Timespec) {
    && Normal(start) && Normal(now)
    && Nanos(start) <= Nanos(now) <= Nanos(EndTime(start, millis)) + 2_147_481 * 1_000_000_000
  }

  /** The largest timeout for which no start and no check can overflow. */
  const MAX_SAFE_MILLIS: nat := 2_147_483_000

  lemma SafeTimeoutFits(start: Timespec, millis: nat, now: Timespec)
    requires CheckedInTime(start, millis, now) && millis <= MAX_SAFE_MILLIS
    ensures FitsInt32(EndTime(start, millis), now)
  {
    EndTimeIsExact(start, millis);
    var end := EndTime(start, millis);
    assert end.sec - now.sec <= 2_147_483;
    assert now.sec - end.sec <= 2_147_482;
    assert -1001 <= TruncDiv(end.nsec - now.nsec, 1_000_000) <= 1000;
  }

  /** Every longer int32 timeout overflows for a start late enough in its second. */
  lemma LongTimeoutOverflows(millis: nat) returns (start: Timespec)
    requires MAX_SAFE_MILLIS < millis <= INT32_MAX
    ensures CheckedInTime(start, millis, start)
    ensures !FitsInt32(EndTime(start, millis), start)
  {
    start := Timespec(0, 1_000_000_000 - 1);
    assert millis / 1000 == 2_147_483 && millis % 1000 >= 1;
  }

  /** The exact bound: the int32 expression is safe for every start and every check iff the
      timeout is at most MAX_SAFE_MILLIS. */
  lemma OverflowFreeIff(millis: nat)
    requires millis <= INT32_MAX
    ensures (forall start, now :: CheckedInTime(start, millis, now) ==> FitsInt32(EndTime(start, millis), now))
       <==> millis <= MAX_SAFE_MILLIS
  {
    if millis <= MAX_SAFE_MILLIS {
      forall start, now | CheckedInTime(start, millis, now) ensures FitsInt32(EndTime(start, millis), now) {
        SafeTimeoutFits(start, millis, now);
      }
    } else {
      var start := LongTimeoutOverflows(millis);
    }
  }
}
