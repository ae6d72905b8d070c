/** Checked time arithmetic of the due-work scheduler. Times are nanoseconds from the Unix epoch. */
module ScheduleTimes {
  import opened Prelude
  import opened FlowStates

  /** Whole milliseconds and the nanoseconds above them, also before the epoch. */
  function MillisAndNanos(time: int): (int, int) {
    if time >= 0 then (time / 1_000_000, time % 1_000_000)
    else
      var ms, rest := (-time) / 1_000_000, (-time) % 1_000_000;
      if rest == 0 then (-ms, 0) else (-(ms + 1), 1_000_000 - rest)
  }

  function TimeOf(ms: int, ns: int): int {
    ms * 1_000_000 + ns
  }

  /** The stored pair restores the exact time, its remainder is in range, and pairs order as times do. */
  lemma ScheduledTimeIsExact(time: int, other: int)
    ensures var (ms, ns) := MillisAndNanos(time);
      && 0 <= ns < 1_000_000 && TimeOf(ms, ns) == time
      && (time <= other <==> NotAfter(MillisAndNanos(time), MillisAndNanos(other)))
  {
    SplitIsFloor(time);
    SplitIsFloor(other);
  }

  lemma SplitIsFloor(time: int)
    ensures MillisAndNanos(time) == (time / 1_000_000, time % 1_000_000)
  {
  }

  predicate NotAfter(a: (int, int), b: (int, int)) {
    a.0 < b.0 || (a.0 == b.0 && a.1 <= b.1)
  }

  /** A claim's clock: milliseconds rounded toward the epoch, nanoseconds above the floor. */
  function ClaimClock(now: int): (int, int) {
    (UnixMillis(now), MillisAndNanos(now).1)
  }

  /** The due test of a claim: the stored pair against the claim's clock. */
  predicate DueTest(due: int, now: int) {
    NotAfter(MillisAndNanos(due), ClaimClock(now))
  }

  /**
    The claim's two clock parts are rounded differently before the epoch. The due test compares
    times exactly, for every due time, if and only if the clock is not before the epoch or falls
    on a whole millisecond.
   */
  lemma {:induction false} DueTestIsExactWhen(now: int)
    ensures (forall due: int :: DueTest(due, now) <==> due <= now) <==> now >= 0 || now % 1_000_000 == 0
  {
    SplitIsFloor(now);
    if now >= 0 || now % 1_000_000 == 0 {
      assert ClaimClock(now) == MillisAndNanos(now);
      forall due: int ensures DueTest(due, now) <==> due <= now {
        ScheduledTimeIsExact(due, now);
      }
    } else {
      var early := UnixMillis(now) * 1_000_000;
      SplitIsFloor(early);
      assert DueTest(early, now) && !(early <= now);
    }
  }

  /** `Err` when the lease length is zero; otherwise the claim's millisecond clock and lease deadline. */
  function ClaimTimes(now: int, leaseFor: nat): Result<(int, int), ()> {
    if leaseFor == 0 then Err(()) else Ok((UnixMillis(now), UnixMillis(now + leaseFor)))
  }

  /**
    A lease outlives the instant that grants it exactly when it reaches the next stored millisecond;
    a shorter one is already expired when it is stored. Stored milliseconds are rounded toward the
    epoch, so a whole negative millisecond and the instants before it count as one.
   */
  lemma LeaseOutlivesClaimWhen(now: int, leaseFor: nat)
    ensures ClaimTimes(now, leaseFor).Err? <==> leaseFor == 0
    ensures leaseFor > 0 ==>
      var Ok(times) := ClaimTimes(now, leaseFor);
      && times.0 <= times.1
      && (times.1 > times.0 <==>
            if now > -1_000_000 then now + leaseFor >= 1_000_000 * (UnixMillis(now) + 1)
            else now + leaseFor > 1_000_000 * UnixMillis(now))
  {
  }
}
