/**
  The circuit at the grain of single atomic accesses: any number of threads running `permit`, `open`
  and the closing of a probe. `open` makes the circuit open before it stores the opening time, a
  caller of `permit` tests the time before it swaps the state, and it loads the state before it
  swaps the flag, so each can be overtaken in between.
 */
module CircuitRaces {
  import opened Prelude
  import opened ProbeFlags
  import Resilience

  /**
    The next access of a thread, or how its last operation ended. Besides what the thread knows, a
    point remembers how often the circuit had been opened when the clock was read (`readIn`), when
    the stored time was compared (`testedIn`), and when a half-open state was loaded (`loadedIn`).
   */
  datatype Point =
    | Resting
    | Admitted(probe: bool)
    | TurnedDown
    // permit
    | LoadState
    | ReadClock
    | CompareTime(now: nat, readIn: nat)
    | SwapState(test: Test)
    | ResetFlag
    | SwapFlag(loadedIn: nat, reading: nat)
    // open
    | SwapOpen
    | ReadOpening
    | StoreOpening(value: nat)
    | ClearFlag
    // a probe's success
    | DropFlag
    | StoreClosed

  /** A passed time test: the clock reading and the stored opening time it was compared with. */
  datatype Test = Test(now: nat, seen: nat, readIn: nat, testedIn: nat)

  datatype Operation = Asking | Opening | Closing

  datatype Step = Begin(thread: nat, operation: Operation) | Access(thread: nat, clock: nat)

  /**
    The shared words, the threads, and the history that says what is early: the latest clock
    reading, how often the circuit was opened, when it was opened last, and by which test in which
    opening the last half-open period was entered.
   */
  datatype Race = Race(
    status: Resilience.Status, flag: bool, openedAt: nat, points: seq<Point>,
    time: nat, openings: nat, openSince: nat, entry: Test, enteredIn: nat)

  function First(operation: Operation): Point {
    match operation
    case Asking => LoadState
    case Opening => SwapOpen
    case Closing => DropFlag
  }

  predicate AtRest(p: Point) {
    p.Resting? || p.Admitted? || p.TurnedDown?
  }

  function At(r: Race, t: nat, p: Point): Race
    requires t < |r.points|
  {
    r.(points := r.points[t := p])
  }

  /** One step of one thread. The clock never goes back. */
  function Next(cooldown: nat, r: Race, step: Step): Race {
    if step.thread >= |r.points| then r
    else
      match step
      case Begin(t, operation) => if AtRest(r.points[t]) then At(r, t, First(operation)) else r
      case Access(t, clock) => Perform(cooldown, r.(time := Max(clock, r.time)), t)
  }

  /** The access of thread `t` at time `r.time`. */
  function Perform(cooldown: nat, r: Race, t: nat): Race
    requires t < |r.points|
  {
    match r.points[t]
    case LoadState =>
      At(r, t, match r.status
               case Closed => Admitted(false)
               case Open => ReadClock
               case HalfOpen => SwapFlag(r.openings, r.entry.now))
    case ReadClock => At(r, t, CompareTime(r.time, r.openings))
    case CompareTime(now, readIn) =>
      At(r, t, if now < r.openedAt + cooldown then TurnedDown else SwapState(Test(now, r.openedAt, readIn, r.openings)))
    case SwapState(test) =>
      if r.status.Open?
      then At(r.(status := Resilience.HalfOpen, entry := test, enteredIn := r.openings), t, ResetFlag)
      else At(r, t, LoadState)
    case ResetFlag => At(r.(flag := false), t, LoadState)
    case SwapFlag(_, _) => if r.flag then At(r, t, TurnedDown) else At(r.(flag := true), t, Admitted(true))
    case SwapOpen =>
      if r.status.Open? then At(r, t, Resting)
      else At(r.(status := Resilience.Status.Open, openings := r.openings + 1, openSince := r.time), t, ReadOpening)
    case ReadOpening => At(r, t, StoreOpening(r.time))
    case StoreOpening(value) => At(r.(openedAt := value), t, ClearFlag)
    case ClearFlag => At(r.(flag := false), t, Resting)
    case DropFlag => At(r.(flag := false), t, StoreClosed)
    case StoreClosed => At(r.(status := Resilience.Closed), t, Resting)
    case _ => r
  }

  function Run(cooldown: nat, r: Race, steps: seq<Step>): Race
    decreases |steps|
  {
    if steps == [] then r else Run(cooldown, Next(cooldown, r, steps[0]), steps[1..])
  }

  /** A new circuit with this many threads. */
  function Start(threads: nat): Race {
    Race(Resilience.Closed, false, 0, seq(threads, _ => Resting), 0, 0, 0, Test(0, 0, 0, 0), 0)
  }

  // ---------------------------------------------------------------------------------------------
  // What every access keeps.

  /** A reading taken in an earlier opening is not after the current one. */
  ghost predicate ReadingOk(r: Race, now: nat, readIn: nat) {
    now <= r.time && readIn <= r.openings && (readIn < r.openings ==> now <= r.openSince)
  }

  /** And one taken in the current opening is not before it. */
  ghost predicate ReadingAfter(r: Race, now: nat, readIn: nat) {
    readIn == r.openings ==> now >= r.openSince
  }

  ghost predicate TestOk(cooldown: nat, r: Race, test: Test) {
    && ReadingAfter(r, test.now, test.readIn)
    && ReadingOk(r, test.now, test.readIn) && test.seen + cooldown <= test.now
    && test.readIn <= test.testedIn <= r.openings
  }

  ghost predicate PointOk(cooldown: nat, r: Race, p: Point) {
    match p
    case CompareTime(now, readIn) => ReadingOk(r, now, readIn) && ReadingAfter(r, now, readIn)
    case SwapState(test) => TestOk(cooldown, r, test)
    case SwapFlag(loadedIn, reading) =>
      && 0 < loadedIn && ReadingOk(r, reading, loadedIn)
      && (loadedIn == r.openings ==> r.enteredIn == r.openings && reading == r.entry.now)
    case StoreOpening(value) => value <= r.time
    case _ => true
  }

  /** The circuit is half-open only in the opening that was entered last. */
  ghost predicate WordsOk(cooldown: nat, r: Race) {
    && r.openedAt <= r.time && r.openSince <= r.time
    && r.enteredIn <= r.openings && (r.openings == 0 ==> r.status.Closed?)
    && (r.status.HalfOpen? ==> r.enteredIn == r.openings) && (r.status.Open? ==> r.enteredIn < r.openings)
    && (r.enteredIn > 0 ==> TestOk(cooldown, r, r.entry))
  }

  ghost predicate RaceOk(cooldown: nat, r: Race) {
    && WordsOk(cooldown, r)
    && forall t :: 0 <= t < |r.points| ==> PointOk(cooldown, r, r.points[t])
  }

  /** What a step may do to the history. */
  ghost predicate Advances(r: Race, r': Race) {
    && |r'.points| == |r.points| && r.time <= r'.time && r.openings <= r'.openings
    && (r'.openings == r.openings ==> r'.openSince == r.openSince)
    && (r'.openings > r.openings ==> r'.openSince >= r.time)
    && (r'.openings == r.openings && r.enteredIn == r.openings ==> r'.entry == r.entry && r'.enteredIn == r.enteredIn)
  }

  lemma PointStaysOk(cooldown: nat, r: Race, r': Race, p: Point)
    requires PointOk(cooldown, r, p) && Advances(r, r')
    ensures PointOk(cooldown, r', p)
  {
  }

  /** An access moves only its own thread, to a point that is well formed. */
  ghost predicate MovesOn(cooldown: nat, r: Race, r': Race, t: nat)
    requires t < |r.points|
  {
    && Advances(r, r') && WordsOk(cooldown, r')
    && (forall i :: 0 <= i < |r.points| && i != t ==> r'.points[i] == r.points[i])
    && PointOk(cooldown, r', r'.points[t])
  }

  predicate InsidePermit(p: Point) {
    p.LoadState? || p.ReadClock? || p.CompareTime? || p.SwapState? || p.ResetFlag? || p.SwapFlag?
  }

  lemma PermitMovesOn(cooldown: nat, r: Race, t: nat)
    requires t < |r.points| && WordsOk(cooldown, r) && PointOk(cooldown, r, r.points[t]) && InsidePermit(r.points[t])
    ensures MovesOn(cooldown, r, Perform(cooldown, r, t), t)
  {
  }

  lemma OtherMovesOn(cooldown: nat, r: Race, t: nat)
    requires t < |r.points| && WordsOk(cooldown, r) && PointOk(cooldown, r, r.points[t]) && !InsidePermit(r.points[t])
    ensures MovesOn(cooldown, r, Perform(cooldown, r, t), t)
  {
  }

  lemma MoveKeepsRace(cooldown: nat, r: Race, r': Race, t: nat)
    requires RaceOk(cooldown, r) && t < |r.points| && MovesOn(cooldown, r, r', t)
    ensures RaceOk(cooldown, r')
  {
    forall i | 0 <= i < |r'.points| ensures PointOk(cooldown, r', r'.points[i]) {
      assert PointOk(cooldown, r, r.points[i]);
      if i != t { PointStaysOk(cooldown, r, r', r.points[i]); }
    }
  }

  lemma TimePasses(cooldown: nat, r: Race, now: nat)
    requires RaceOk(cooldown, r) && now >= r.time
    ensures RaceOk(cooldown, r.(time := now))
  {
    forall i | 0 <= i < |r.points| ensures PointOk(cooldown, r.(time := now), r.points[i]) {
      PointStaysOk(cooldown, r, r.(time := now), r.points[i]);
    }
  }

  lemma {:induction false} NextKeepsRace(cooldown: nat, r: Race, step: Step)
    requires RaceOk(cooldown, r)
    ensures RaceOk(cooldown, Next(cooldown, r, step))
  {
    var t := step.thread;
    if t < |r.points| && step.Access? {
      var later := r.(time := Max(step.clock, r.time));
      TimePasses(cooldown, r, later.time);
      assert PointOk(cooldown, later, later.points[t]);
      if InsidePermit(r.points[t]) { PermitMovesOn(cooldown, later, t); } else { OtherMovesOn(cooldown, later, t); }
      MoveKeepsRace(cooldown, later, Next(cooldown, r, step), t);
    }
  }

  lemma {:induction false} RunKeepsRace(cooldown: nat, r: Race, steps: seq<Step>)
    requires RaceOk(cooldown, r)
    ensures RaceOk(cooldown, Run(cooldown, r, steps))
    decreases |steps|
  {
    if steps != [] {
      NextKeepsRace(cooldown, r, steps[0]);
      RunKeepsRace(cooldown, Next(cooldown, r, steps[0]), steps[1..]);
    }
  }

  // ---------------------------------------------------------------------------------------------
  // Probes before the end of the cooldown.

  /** The step admits a probe. */
  predicate AdmitsProbe(r: Race, step: Step) {
    step.Access? && step.thread < |r.points| && r.points[step.thread].SwapFlag? && !r.flag
  }

  /** The caller loaded a half-open state before the current opening and has not swapped the flag since. */
  predicate Parked(r: Race, t: nat)
    requires t < |r.points|
  {
    r.points[t].SwapFlag? && r.points[t].loadedIn < r.openings
  }

  /** The half-open period of the current opening was entered on a clock reading from before the opening. */
  predicate OldReading(r: Race, t: nat)
    requires t < |r.points|
  {
    r.points[t].SwapFlag? && r.points[t].loadedIn == r.openings && r.entry.readIn < r.openings
  }

  /** It was entered on a reading of this opening, compared with the stored time of an earlier one. */
  predicate OldTime(r: Race, t: nat)
    requires t < |r.points|
  {
    && r.points[t].SwapFlag? && r.points[t].loadedIn == r.openings
    && r.entry.readIn == r.openings && r.entry.seen < r.openSince
  }

  /**
    In every run, a probe admitted before the cooldown of the current opening is over has one of
    three causes: its caller was overtaken by the opening at the flag, the period was entered on a
    reading from before the opening, or on a comparison made before the opening time was stored.
    Unless it is the last, the reading behind the admission is too early if and only if one of the
    other two is the case. In the last the reading is from this opening, and the test was passed
    because the older time's cooldown was over, however little time this opening has had.
   */
  lemma {:induction false} EarlyProbeExactlyWhen(cooldown: nat, threads: nat, steps: seq<Step>, step: Step)
    requires cooldown > 0 && AdmitsProbe(Run(cooldown, Start(threads), steps), step)
    ensures var r, t := Run(cooldown, Start(threads), steps), step.thread;
      var reading, end := r.points[t].reading, r.openSince + cooldown;
      && reading <= Next(cooldown, r, step).time
      && (Next(cooldown, r, step).time < end ==> Parked(r, t) || OldReading(r, t) || OldTime(r, t))
      && (!OldTime(r, t) ==> (reading < end <==> Parked(r, t) || OldReading(r, t)))
      && (OldTime(r, t) ==> reading == r.entry.now >= Max(r.entry.seen + cooldown, r.openSince))
  {
    var r := Run(cooldown, Start(threads), steps);
    RunKeepsRace(cooldown, Start(threads), steps);
    assert PointOk(cooldown, r, r.points[step.thread]);
  }

  // ---------------------------------------------------------------------------------------------
  // Probes of one half-open period.

  function FlagAccessOf(p: Point): seq<FlagAccess> {
    if p.SwapFlag? then [TrySwap] else if p.ResetFlag? || p.ClearFlag? || p.DropFlag? then [Reset] else []
  }

  /** The access to the flag that a step makes, if any. */
  function StepAccess(r: Race, step: Step): seq<FlagAccess> {
    if step.Access? && step.thread < |r.points| then FlagAccessOf(r.points[step.thread]) else []
  }

  /** The accesses to the flag that a run makes, in order. */
  function FlagAccesses(cooldown: nat, r: Race, steps: seq<Step>): seq<FlagAccess>
    decreases |steps|
  {
    if steps == [] then []
    else StepAccess(r, steps[0]) + FlagAccesses(cooldown, Next(cooldown, r, steps[0]), steps[1..])
  }

  /** How many probes a run admits. */
  function ProbesAdmitted(cooldown: nat, r: Race, steps: seq<Step>): nat
    decreases |steps|
  {
    if steps == [] then 0
    else
      (if AdmitsProbe(r, steps[0]) then 1 else 0) + ProbesAdmitted(cooldown, Next(cooldown, r, steps[0]), steps[1..])
  }

  /** What a step does to the flag, and whether it admits a probe, depends on its access to the flag alone. */
  lemma FlagAfter(cooldown: nat, r: Race, step: Step, here: seq<FlagAccess>)
    requires here == StepAccess(r, step)
    ensures AdmitsProbe(r, step) <==> here == [TrySwap] && !r.flag
    ensures Next(cooldown, r, step).flag == if here == [] then r.flag else here == [TrySwap]
  {
  }

  lemma {:induction false} ProbesAreGrants(cooldown: nat, r: Race, steps: seq<Step>)
    ensures ProbesAdmitted(cooldown, r, steps) == Grants(r.flag, FlagAccesses(cooldown, r, steps))
    decreases |steps|
  {
    if steps != [] {
      var here := StepAccess(r, steps[0]);
      ProbesAreGrants(cooldown, Next(cooldown, r, steps[0]), steps[1..]);
      FlagAfter(cooldown, r, steps[0], here);
      GrantsByHead(r.flag, here, FlagAccesses(cooldown, Next(cooldown, r, steps[0]), steps[1..]));
    }
  }

  /** The step takes an open circuit into its half-open period. */
  predicate Enters(r: Race, step: Step) {
    step.Access? && step.thread < |r.points| && r.points[step.thread].SwapState? && r.status.Open?
  }

  /** The circuit is half-open throughout the run. */
  ghost predicate Period(cooldown: nat, r: Race, steps: seq<Step>)
    decreases |steps|
  {
    r.status.HalfOpen? && (steps == [] || Period(cooldown, Next(cooldown, r, steps[0]), steps[1..]))
  }

  /**
    For any number of threads asking, opening and closing, in any interleaving of their accesses:
    a half-open period admits a second probe exactly when, once its flag has been free, a reset of
    the flag falls between two swaps of it.
   */
  lemma {:induction false} SecondProbeExactlyWhen(
    cooldown: nat, threads: nat, before: seq<Step>, enter: Step, steps: seq<Step>)
    requires Enters(Run(cooldown, Start(threads), before), enter)
    requires Period(cooldown, Next(cooldown, Run(cooldown, Start(threads), before), enter), steps)
    ensures var r := Next(cooldown, Run(cooldown, Start(threads), before), enter);
      ProbesAdmitted(cooldown, r, steps) > 1 <==> Contended(r.flag, FlagAccesses(cooldown, r, steps))
  {
    var r := Next(cooldown, Run(cooldown, Start(threads), before), enter);
    ProbesAreGrants(cooldown, r, steps);
    SecondGrantWhenContended(r.flag, FlagAccesses(cooldown, r, steps));
  }

  /** Inside `open`, past its swap of the state. */
  predicate InsideOpen(p: Point) {
    p.ReadOpening? || p.StoreOpening? || p.ClearFlag?
  }

  lemma LaggardsNext(cooldown: nat, r: Race, step: Step, t: nat)
    requires t < |r.points| && r.status.HalfOpen? && Next(cooldown, r, step).status.HalfOpen?
    ensures var r' := Next(cooldown, r, step);
      && |r'.points| == |r.points|
      && (r'.points[t].ResetFlag? ==> r.points[t].ResetFlag?)
      && (InsideOpen(r'.points[t]) ==> InsideOpen(r.points[t]))
  {
  }

  lemma {:induction false} LaggardsOnly(cooldown: nat, r: Race, steps: seq<Step>, t: nat)
    requires t < |r.points| && Period(cooldown, r, steps)
    ensures var r' := Run(cooldown, r, steps);
      && |r'.points| == |r.points|
      && (r'.points[t].ResetFlag? ==> r.points[t].ResetFlag?)
      && (InsideOpen(r'.points[t]) ==> InsideOpen(r.points[t]))
    decreases |steps|
  {
    if steps != [] {
      LaggardsNext(cooldown, r, steps[0], t);
      LaggardsOnly(cooldown, Next(cooldown, r, steps[0]), steps[1..], t);
    }
  }

  /**
    The resets that can fall inside a period: the store of a caller that was about to make it when
    the period began (the one that entered it, or one left over from an earlier period), the store
    of an opener that was inside `open` then, and the store of a probe that reports success.
   */
  lemma {:induction false} ResetsOfPeriod(cooldown: nat, r: Race, steps: seq<Step>, step: Step)
    requires Period(cooldown, r, steps) && StepAccess(Run(cooldown, r, steps), step) == [Reset]
    ensures step.thread < |r.points|
    ensures var p := Run(cooldown, r, steps).points[step.thread];
      || (p.ResetFlag? && r.points[step.thread].ResetFlag?)
      || (p.ClearFlag? && InsideOpen(r.points[step.thread]))
      || p.DropFlag?
  {
    SameThreads(cooldown, r, steps);
    LaggardsOnly(cooldown, r, steps, step.thread);
  }

  lemma {:induction false} SameThreads(cooldown: nat, r: Race, steps: seq<Step>)
    ensures |Run(cooldown, r, steps).points| == |r.points|
    decreases |steps|
  {
    if steps != [] { SameThreads(cooldown, Next(cooldown, r, steps[0]), steps[1..]); }
  }
}
