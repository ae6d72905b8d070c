/** The bounded retry loop with its per-attempt timeout, exponential delays and jitter. */
module Retries {
  import opened Prelude
  import opened Resilience
  import opened RetryJitters

  /** How one attempt ends: with the operation's answer, by the attempt's timeout, or by cancellation. */
  datatype Ending = Answered(result: CallResult) | TimedOut | Interrupted

  /** A timeout can be retried, a cancellation cannot. */
  function ResultOf(e: Ending): CallResult {
    match e
    case Answered(result) => result
    case TimedOut => Recoverable
    case Interrupted => Permanent
  }

  /** An unsigned 64-bit jitter sample. */
  type Sample = n: nat | n <= U64_MAX

  /** What one round meets: cancellation before the attempt, its ending, a jitter sample, cancellation while waiting. */
  datatype Round = Round(cancelledBefore: bool, ending: Ending, sample: Sample, cancelledWaiting: bool)

  datatype Jitter = NoJitter | Fixed(delay: Duration) | Full

  function DelayForSample(jitter: Jitter, base: Duration, sample: Sample): Duration {
    match jitter
    case NoJitter => base
    case Fixed(delay) => delay
    case Full => ScaleDuration(base, sample)
  }

  /** The backoff before retry number `retry`, before jitter. */
  function Backoff(initial: Duration, retry: nat): Duration {
    DurationFromNanos(RetryDelay(initial.AsNanos(), retry))
  }

  /** The backoff is exactly the delay of that retry, and full jitter is its exact share, never more. */
  lemma {:induction false} BackoffIsExact(initial: Duration, retry: nat, sample: Sample)
    ensures Backoff(initial, retry).Valid() && Backoff(initial, retry).AsNanos() == RetryDelay(initial.AsNanos(), retry)
    ensures var wait := DelayForSample(Full, Backoff(initial, retry), sample).AsNanos();
      wait == (RetryDelay(initial.AsNanos(), retry) * sample) / U64_MAX <= RetryDelay(initial.AsNanos(), retry)
  {
    DurationRoundTrip(RetryDelay(initial.AsNanos(), retry));
    FullJitterIsExact(Backoff(initial, retry), sample);
  }

  /** A wait in nanoseconds: the backoff of this retry, the fixed delay, or the sampled share of the backoff. */
  ghost predicate IsWait(wait: Duration, initial: Duration, jitter: Jitter, retry: nat, sample: Sample) {
    var full := RetryDelay(initial.AsNanos(), retry);
    match jitter
    case NoJitter => wait.AsNanos() == full
    case Fixed(delay) => wait == delay
    case Full => wait.AsNanos() == (full * sample) / U64_MAX
  }

  lemma {:induction false} DelayIsWait(initial: Duration, jitter: Jitter, retry: nat, sample: Sample)
    ensures IsWait(DelayForSample(jitter, Backoff(initial, retry), sample), initial, jitter, retry, sample)
  {
    BackoffIsExact(initial, retry, sample);
  }

  /** The attempt ended so that another may follow. */
  predicate MayRetry(e: Ending) {
    e == TimedOut || e == Answered(Recoverable)
  }

  datatype Finished = Gave(result: CallResult) | WasCancelled | NoResult

  /**
    The retry loop: every attempt but the last failed recoverably, there are at most
    `maxRetries + 1` of them, the wait after the k-th is the jittered k-th backoff, a recoverable
    failure is returned only when retries are used up, and the loop never ends without a result.
   */
  method Attempts(maxRetries: nat, initial: Duration, jitter: Jitter, script: seq<Round>)
      returns (r: Finished, calls: nat, waits: seq<Duration>)
    requires |script| == maxRetries + 1
    ensures calls <= maxRetries + 1 && r != NoResult
    ensures forall k :: 0 <= k < calls ==> !script[k].cancelledBefore
    ensures forall k :: 0 <= k < calls - 1 ==> MayRetry(script[k].ending)
    ensures r.Gave? ==> calls >= 1 && |waits| == calls - 1
    ensures r.Gave? ==> r.result == match script[calls - 1].ending
                                    case Answered(result) => result
                                    case TimedOut => Recoverable
                                    case Interrupted => Permanent
    ensures r.Gave? && r.result.Recoverable? ==> calls == maxRetries + 1
    ensures r.WasCancelled? ==>
      || (calls < |script| && script[calls].cancelledBefore && |waits| == calls)
      || (1 <= calls <= maxRetries && script[calls - 1].cancelledWaiting && MayRetry(script[calls - 1].ending)
          && |waits| == calls - 1 && !IsWait(Duration(0, 0), initial, jitter, calls - 1, script[calls - 1].sample))
    ensures |waits| <= calls && |waits| <= maxRetries
    ensures forall k :: 0 <= k < |waits| ==> IsWait(waits[k], initial, jitter, k, script[k].sample)
    ensures forall k :: 0 <= k < |waits| ==> waits[k].AsNanos() == 0 || !script[k].cancelledWaiting
  {
    calls, waits := 0, [];
    for retry := 0 to maxRetries + 1
      invariant calls == retry <= maxRetries + 1
      invariant forall k :: 0 <= k < retry ==> !script[k].cancelledBefore && MayRetry(script[k].ending)
      invariant retry == maxRetries + 1 ==> false
      invariant |waits| == retry
      invariant forall k :: 0 <= k < retry ==>
        && IsWait(waits[k], initial, jitter, k, script[k].sample)
        && (waits[k].AsNanos() == 0 || !script[k].cancelledWaiting)
    {
      if script[retry].cancelledBefore { return WasCancelled, calls, waits; }
      calls := calls + 1;
      var result := ResultOf(script[retry].ending);
      if retry < maxRetries && result.Recoverable? {
        var delay := DelayForSample(jitter, Backoff(initial, retry), script[retry].sample);
        DelayIsWait(initial, jitter, retry, script[retry].sample);
        if delay.AsNanos() != 0 && script[retry].cancelledWaiting { return WasCancelled, calls, waits; }
        waits := waits + [delay];
      } else {
        return Gave(result), calls, waits;
      }
    }
    return NoResult, calls, waits;
  }
}
