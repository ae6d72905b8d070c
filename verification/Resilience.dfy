/**
  The circuit breaker: a sliding window of outcomes with a cached failure count, and a three-state
  circuit that admits one recovery probe per half-open period.
 */
module Resilience {
  import opened Prelude

  // ---------------------------------------------------------------------------------------------
  // The outcome window.

  /** The last outcomes (true for a success) and a cached count of the failures among them. */
  datatype Window = Window(outcomes: seq<bool>, failures: nat, limit: nat)

  function Push(w: Window, success: bool): Window {
    var full := |w.outcomes| == w.limit;
    var kept := if full && w.outcomes != [] then w.outcomes[1..] else w.outcomes;
    var evicted := full && w.outcomes != [] && !w.outcomes[0];
    var failures := if evicted && w.failures > 0 then w.failures - 1 else w.failures;
    w.(outcomes := kept + [success], failures := if success then failures else failures + 1)
  }

  function Clear(w: Window): Window {
    w.(outcomes := [], failures := 0)
  }

  function Failures(outcomes: seq<bool>): nat {
    if outcomes == [] then 0
    else Failures(outcomes[1..]) + (if outcomes[0] then 0 else 1)
  }

  /** The last `limit` entries of a history, or all of it. */
  function Recent(history: seq<bool>, limit: nat): seq<bool> {
    if |history| <= limit then history else history[|history| - limit..]
  }

  ghost predicate WindowOk(w: Window, history: seq<bool>) {
    w.limit >= 1 && w.outcomes == Recent(history, w.limit) && w.failures == Failures(w.outcomes)
  }

  lemma {:induction false} FailuresSnoc(outcomes: seq<bool>, success: bool)
    ensures Failures(outcomes + [success]) == Failures(outcomes) + (if success then 0 else 1)
  {
    if outcomes == [] {
      assert [success][1..] == [];
    } else {
      assert (outcomes + [success])[1..] == outcomes[1..] + [success];
      FailuresSnoc(outcomes[1..], success);
    }
  }

  /** A push keeps the window equal to the recent history and its cached count exact. */
  lemma {:induction false} PushKeepsWindow(w: Window, history: seq<bool>, success: bool)
    requires WindowOk(w, history)
    ensures WindowOk(Push(w, success), history + [success])
  {
    var kept := if |w.outcomes| == w.limit then w.outcomes[1..] else w.outcomes;
    FailuresSnoc(kept, success);
    assert Push(w, success).outcomes == Recent(history + [success], w.limit);
  }

  class OutcomeWindow {
    var outcomes: seq<bool>
    var failures: nat
    const limit: nat
    ghost var history: seq<bool>

    ghost function View(): Window
      reads this
    {
      Window(outcomes, failures, limit)
    }

    ghost predicate Valid()
      reads this
    {
      WindowOk(View(), history)
    }

    constructor (limit: nat)
      requires limit >= 1
      ensures Valid() && history == [] && this.limit == limit
    {
      this.limit, outcomes, failures, history := limit, [], 0, [];
    }

    /** Forgets everything. */
    method ClearAll()
      requires Valid()
      modifies this
      ensures Valid() && history == [] && View() == Clear(old(View()))
    {
      outcomes, failures, history := [], 0, [];
    }

    /** Adds an outcome, evicting the oldest when full. */
    method PushOutcome(success: bool)
      requires Valid()
      modifies this
      ensures Valid() && history == old(history) + [success] && View() == Push(old(View()), success)
    {
      PushKeepsWindow(View(), history, success);
      if |outcomes| == limit && outcomes != [] {
        if !outcomes[0] && failures > 0 { failures := failures - 1; }
        outcomes := outcomes[1..];
      }
      if !success { failures := failures + 1; }
      outcomes := outcomes + [success];
      history := history + [success];
    }
  }

  // ---------------------------------------------------------------------------------------------
  // The circuit.

  datatype Status = Closed | Open | HalfOpen

  datatype Policy = Policy(
    sampling: nat, minimumThroughput: nat, numerator: nat, denominator: nat, resetTimeout: nat)
  {
    predicate Valid() {
      1 <= minimumThroughput <= sampling <= 10_000 && 1 <= numerator <= denominator && resetTimeout > 0
    }
  }

  datatype Circuit = Circuit(window: Window, status: Status, openedAt: nat, probing: bool)

  datatype Verdict = Admitted(probe: bool) | Refused

  /** How a call ended: well, with an error that retrying cannot help, or with one it can. */
  datatype CallResult = Success | Permanent | Recoverable

  function Elapsed(c: Circuit, now: nat): nat {
    if now >= c.openedAt then now - c.openedAt else 0
  }

  function Permit(p: Policy, c: Circuit, now: nat): (Verdict, Circuit) {
    match c.status
    case Closed => (Admitted(false), c)
    case Open =>
      if Elapsed(c, now) < p.resetTimeout then (Refused, c)
      else (Admitted(true), c.(status := HalfOpen, probing := true))
    case HalfOpen =>
      if c.probing then (Refused, c) else (Admitted(true), c.(probing := true))
  }

  function OpenCircuit(c: Circuit, now: nat): Circuit {
    if c.status.Open? then c else c.(status := Open, openedAt := now, probing := false)
  }

  function RecordSuccess(c: Circuit, probe: bool): Circuit {
    if probe then c.(window := Clear(c.window), probing := false, status := Closed)
    else c.(window := Push(c.window, true))
  }

  /** The failure ratio of the window has been reached. */
  predicate TooManyFailures(p: Policy, w: Window) {
    |w.outcomes| >= p.minimumThroughput && w.failures * p.denominator >= |w.outcomes| * p.numerator
  }

  function RecordFailure(p: Policy, c: Circuit, now: nat): Circuit {
    var c' := c.(window := Push(c.window, false));
    if TooManyFailures(p, c'.window) then OpenCircuit(c', now) else c'
  }

  function Complete(p: Policy, c: Circuit, probe: bool, result: CallResult, now: nat): Circuit {
    match result
    case Success => RecordSuccess(c, probe)
    case Permanent => if probe then RecordSuccess(c, true) else c
    case Recoverable => if probe then OpenCircuit(c, now) else RecordFailure(p, c, now)
  }

  /** The circuit with its past: outcomes since the last clear, and probes granted in this half-open period. */
  datatype Tracked = Tracked(circuit: Circuit, history: seq<bool>, granted: nat)

  datatype Step = Ask(now: nat) | Finish(probe: bool, result: CallResult, now: nat)

  function Next(p: Policy, t: Tracked, step: Step): Tracked {
    match step
    case Ask(now) =>
      var (verdict, c) := Permit(p, t.circuit, now);
      var entering := t.circuit.status.Open? && c.status.HalfOpen?;
      var before := if entering then 0 else t.granted;
      t.(circuit := c, granted := if verdict == Admitted(true) then before + 1 else before)
    case Finish(probe, result, now) =>
      var clears := probe && !result.Recoverable?;
      var pushes := !probe && !result.Permanent?;
      t.(circuit := Complete(p, t.circuit, probe, result, now),
         history := if clears then [] else if pushes then t.history + [result.Success?] else t.history)
  }

  function Run(p: Policy, t: Tracked, steps: seq<Step>): Tracked
    decreases |steps|
  {
    if steps == [] then t else Run(p, Next(p, t, steps[0]), steps[1..])
  }

  function Fresh(p: Policy): Tracked {
    Tracked(Circuit(Window([], 0, p.sampling), Closed, 0, false), [], 0)
  }

  /** The window is the recent history, and a half-open circuit has granted at most its one probe. */
  ghost predicate TrackedOk(t: Tracked) {
    && WindowOk(t.circuit.window, t.history)
    && (t.circuit.status.HalfOpen? ==> t.granted == if t.circuit.probing then 1 else 0)
    && t.granted <= 1
  }

  lemma {:induction false} NextKeepsTracked(p: Policy, t: Tracked, step: Step)
    requires TrackedOk(t)
    ensures TrackedOk(Next(p, t, step))
  {
    if step.Finish? && !step.probe && !step.result.Permanent? {
      PushKeepsWindow(t.circuit.window, t.history, step.result.Success?);
    }
  }

  /**
    With `permit` and `complete` atomic, over every run: the window is the last outcomes since the
    last clear, its cached failure count is exact, and no half-open period grants a second probe.
   */
  lemma {:induction false} CircuitInvariant(p: Policy, t: Tracked, steps: seq<Step>)
    requires TrackedOk(t)
    ensures TrackedOk(Run(p, t, steps))
    decreases |steps|
  {
    if steps != [] {
      NextKeepsTracked(p, t, steps[0]);
      CircuitInvariant(p, Next(p, t, steps[0]), steps[1..]);
    }
  }

  /** A new circuit is closed, remembers nothing, and meets the invariant. */
  lemma FreshIsClosed(p: Policy)
    requires p.Valid()
    ensures TrackedOk(Fresh(p)) && Fresh(p).history == [] && Fresh(p).granted == 0
    ensures Fresh(p).circuit == Circuit(Window([], 0, p.sampling), Closed, 0, false)
  {
  }

  /**
    What asking does. A circuit whose cooldown is over becomes half-open and grants its probe; a
    half-open one grants its probe if it is free; otherwise nothing changes.
   */
  lemma AskDecides(p: Policy, t: Tracked, now: nat)
    requires p.Valid() && TrackedOk(t)
    ensures var c, t' := t.circuit, Next(p, t, Ask(now));
      && t'.history == t.history
      && if (c.status.Open? && now >= c.openedAt + p.resetTimeout) || (c.status.HalfOpen? && !c.probing)
         then t'.circuit == c.(status := HalfOpen, probing := true) && t'.granted == 1
         else t'.circuit == c
  {
  }

  /** The recent outcomes reach the configured failure ratio. */
  ghost predicate RatioReached(p: Policy, recent: seq<bool>) {
    |recent| >= p.minimumThroughput && Failures(recent) * p.denominator >= |recent| * p.numerator
  }

  /**
    Where a finished call leaves the circuit. A probe decides: open again after a recoverable
    failure, closed otherwise. Any other call can only open it, and does so exactly when it is a
    recoverable failure with which the recent outcomes reach the configured ratio. Only a circuit
    that opens anew takes over the clock, and only it or a deciding probe gives the probe slot back.
   */
  lemma {:induction false} FinishDecides(p: Policy, t: Tracked, probe: bool, result: CallResult, now: nat)
    requires TrackedOk(t)
    ensures var c, c' := t.circuit, Next(p, t, Finish(probe, result, now)).circuit;
      var opens := result.Recoverable? && (probe || RatioReached(p, Recent(t.history + [false], c.window.limit)));
      var closes := probe && !result.Recoverable?;
      && c'.status == (if opens then Open else if closes then Closed else c.status)
      && c'.openedAt == (if opens && !c.status.Open? then now else c.openedAt)
      && c'.probing == (c.probing && !closes && !(opens && !c.status.Open?))
  {
    if !probe && result.Recoverable? { PushKeepsWindow(t.circuit.window, t.history, false); }
  }

  /** The step asks before the cooldown is over, or finishes a call without closing the circuit. */
  predicate WithinCooldown(p: Policy, openedAt: nat, step: Step) {
    match step
    case Ask(now) => now < openedAt + p.resetTimeout
    case Finish(probe, result, _) => !probe || result.Recoverable?
  }

  /**
    While a circuit is open, until its cooldown is over or a late probe closes it, it stays open
    with the same cooldown, and every call is refused.
   */
  lemma {:induction false} OpenCircuitRefuses(p: Policy, t: Tracked, steps: seq<Step>, now: nat)
    requires p.Valid() && t.circuit.status.Open? && now < t.circuit.openedAt + p.resetTimeout
    requires forall k :: 0 <= k < |steps| ==> WithinCooldown(p, t.circuit.openedAt, steps[k])
    ensures Run(p, t, steps).circuit.status.Open? && Run(p, t, steps).circuit.openedAt == t.circuit.openedAt
    ensures Permit(p, Run(p, t, steps).circuit, now).0 == Refused
    decreases |steps|
  {
    if steps != [] {
      assert WithinCooldown(p, t.circuit.openedAt, steps[0]);
      OpenCircuitRefuses(p, Next(p, t, steps[0]), steps[1..], now);
    }
  }

  /**
    However a circuit comes to open, by a failed probe or by too many failures, it refuses every
    call for exactly the reset timeout from that moment on.
   */
  lemma {:induction false} OpeningStartsCooldown(
    p: Policy, c: Circuit, probe: bool, result: CallResult, now: nat, t: nat)
    requires p.Valid() && !c.status.Open? && Complete(p, c, probe, result, now).status.Open? && t >= now
    ensures Permit(p, Complete(p, c, probe, result, now), t).0.Refused? <==> t < now + p.resetTimeout
  {
  }

  /**
    Recovery: once the cooldown is over an open circuit admits one probe and then nobody else; the
    probe's success (or permanent error) closes it with an empty window, and its recoverable failure
    starts a new cooldown.
   */
  lemma {:induction false} ProbeDecides(p: Policy, c: Circuit, now: nat, result: CallResult, later: nat)
    requires p.Valid() && c.status.Open? && now >= c.openedAt + p.resetTimeout && later >= now
    ensures var (verdict, c') := Permit(p, c, now);
      && verdict == Admitted(true) && Permit(p, c', later) == (Refused, c')
      && var done := Complete(p, c', true, result, later);
         if result.Recoverable? then
           && done.status.Open? && done.window == c.window
           && forall t :: later <= t ==> (Permit(p, done, t).0.Refused? <==> t < later + p.resetTimeout)
         else
           && done.status.Closed? && done.window.outcomes == [] && done.window.failures == 0
           && forall t :: Permit(p, done, t) == (Admitted(false), done)
  {
  }

  // ---------------------------------------------------------------------------------------------
  // The circuit object.

  class CircuitBreaker {
    const p: Policy
    var window: Window
    var status: Status
    var openedAt: nat
    var probing: bool

    function View(): Circuit
      reads this
    {
      Circuit(window, status, openedAt, probing)
    }

    constructor (p: Policy)
      requires p.Valid()
      ensures this.p == p && View() == Circuit(Window([], 0, p.sampling), Closed, 0, false)
    {
      this.p, window, status, openedAt, probing := p, Window([], 0, p.sampling), Closed, 0, false;
    }

    /** `permit` as one atomic step: opening the half-open period and taking its probe in one go. */
    method PermitCall(now: nat) returns (verdict: Verdict)
      modifies this
      ensures (verdict, View()) == Permit(p, old(View()), now)
      ensures p.Valid() ==>
        (verdict.Refused? <==>
           || (old(status).Open? && now < old(openedAt) + p.resetTimeout)
           || (old(status).HalfOpen? && old(probing)))
      ensures verdict == Admitted(false) <==> old(status).Closed?
      ensures verdict == Admitted(true) ==> status.HalfOpen? && probing
      ensures verdict != Admitted(true) ==> View() == old(View())
      ensures window == old(window) && openedAt == old(openedAt)
    {
      if status.Closed? { return Admitted(false); }
      if status.Open? {
        if Elapsed(View(), now) < p.resetTimeout { return Refused; }
        status, probing := HalfOpen, false;
      }
      if probing { return Refused; }
      probing := true;
      return Admitted(true);
    }

    /** Records how an admitted call ended. */
    method CompleteCall(probe: bool, result: CallResult, now: nat)
      modifies this
      ensures View() == Complete(p, old(View()), probe, result, now)
      ensures probe ==> status == if result.Recoverable? then Open else Closed
      ensures probe && !result.Recoverable? ==> !probing && window.outcomes == [] && window.failures == 0
      ensures probe && result.Recoverable? ==> window == old(window)
      ensures !probe && result.Permanent? ==> View() == old(View())
      ensures !probe && result.Success? ==> View() == old(View()).(window := Push(old(window), true))
      ensures !probe && result.Recoverable? ==> window == Push(old(window), false)
      ensures p.Valid() && !old(status).Open? && status.Open? ==>
        forall t :: t >= now ==> (Permit(p, View(), t).0.Refused? <==> t < now + p.resetTimeout)
    {
      if result.Success? || (result.Permanent? && probe) {
        if probe {
          window, probing, status := Clear(window), false, Closed;
        } else {
          window := Push(window, true);
        }
      } else if result.Recoverable? {
        var opens := probe;
        if !probe {
          window := Push(window, false);
          opens := TooManyFailures(p, window);
        }
        if opens && !status.Open? { status, openedAt, probing := Open, now, false; }
      }
    }
  }
}
