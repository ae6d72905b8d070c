/** Concrete races of the circuit: each cause of an early probe, and periods with one probe and with two. */
module CircuitRaceRuns {
  import opened Prelude
  import opened CircuitRaces
  import Resilience

  // ---------------------------------------------------------------------------------------------
  // Runs made of whole operations.

  lemma {:induction false} RunAppend(cooldown: nat, r: Race, a: seq<Step>, b: seq<Step>)
    ensures Run(cooldown, r, a + b) == Run(cooldown, Run(cooldown, r, a), b)
    ensures ProbesAdmitted(cooldown, r, a + b)
         == ProbesAdmitted(cooldown, r, a) + ProbesAdmitted(cooldown, Run(cooldown, r, a), b)
    decreases |a|
  {
    if a == [] {
      assert a + b == b;
    } else {
      assert (a + b)[1..] == a[1..] + b;
      RunAppend(cooldown, Next(cooldown, r, a[0]), a[1..], b);
    }
  }

  lemma {:induction false} PeriodAppend(cooldown: nat, r: Race, a: seq<Step>, b: seq<Step>)
    requires Period(cooldown, r, a) && Period(cooldown, Run(cooldown, r, a), b)
    ensures Period(cooldown, r, a + b)
    decreases |a|
  {
    if a == [] {
      assert a + b == b;
    } else {
      assert (a + b)[1..] == a[1..] + b;
      PeriodAppend(cooldown, Next(cooldown, r, a[0]), a[1..], b);
    }
  }

  lemma OneStep(cooldown: nat, r: Race, step: Step)
    ensures Run(cooldown, r, [step]) == Next(cooldown, r, step)
    ensures ProbesAdmitted(cooldown, r, [step]) == if AdmitsProbe(r, step) then 1 else 0
    ensures Period(cooldown, r, [step]) <==> r.status.HalfOpen? && Next(cooldown, r, step).status.HalfOpen?
  {
    assert [step][1..] == [];
  }

  /** Two steps, written out. */
  lemma TwoSteps(cooldown: nat, r: Race, a: Step, b: Step)
    ensures Run(cooldown, r, [a, b]) == Next(cooldown, Next(cooldown, r, a), b)
    ensures ProbesAdmitted(cooldown, r, [a, b])
         == (if AdmitsProbe(r, a) then 1 else 0) + (if AdmitsProbe(Next(cooldown, r, a), b) then 1 else 0)
    ensures Period(cooldown, r, [a]) && Period(cooldown, Next(cooldown, r, a), [b]) ==> Period(cooldown, r, [a, b])
  {
    assert [a, b] == [a] + [b];
    OneStep(cooldown, r, a);
    OneStep(cooldown, Next(cooldown, r, a), b);
    RunAppend(cooldown, r, [a], [b]);
    if Period(cooldown, r, [a]) && Period(cooldown, Run(cooldown, r, [a]), [b]) {
      PeriodAppend(cooldown, r, [a], [b]);
    }
  }

  /** `n` accesses of one thread at one time. */
  function Accesses(t: nat, clock: nat, n: nat): seq<Step> {
    if n == 0 then [] else [Access(t, clock)] + Accesses(t, clock, n - 1)
  }

  lemma {:induction false} MoreAccesses(cooldown: nat, r: Race, t: nat, clock: nat, n: nat)
    requires n > 0
    ensures Run(cooldown, r, Accesses(t, clock, n))
         == Run(cooldown, Next(cooldown, r, Access(t, clock)), Accesses(t, clock, n - 1))
    ensures ProbesAdmitted(cooldown, r, Accesses(t, clock, n))
         == (if AdmitsProbe(r, Access(t, clock)) then 1 else 0)
            + ProbesAdmitted(cooldown, Next(cooldown, r, Access(t, clock)), Accesses(t, clock, n - 1))
  {
    assert Accesses(t, clock, n)[1..] == Accesses(t, clock, n - 1);
  }

  lemma ThreeAccesses(cooldown: nat, r: Race, t: nat, clock: nat)
    ensures var a := Access(t, clock);
      var r1 := Next(cooldown, r, a);
      var r2 := Next(cooldown, r1, a);
      && Run(cooldown, r, Accesses(t, clock, 3)) == Next(cooldown, r2, a)
      && ProbesAdmitted(cooldown, r, Accesses(t, clock, 3))
         == (if AdmitsProbe(r, a) then 1 else 0) + (if AdmitsProbe(r1, a) then 1 else 0)
            + (if AdmitsProbe(r2, a) then 1 else 0)
  {
    var r1 := Next(cooldown, r, Access(t, clock));
    MoreAccesses(cooldown, r, t, clock, 3);
    MoreAccesses(cooldown, r1, t, clock, 2);
    MoreAccesses(cooldown, Next(cooldown, r1, Access(t, clock)), t, clock, 1);
  }

  lemma FourAccesses(cooldown: nat, r: Race, t: nat, clock: nat)
    ensures Run(cooldown, r, Accesses(t, clock, 4))
         == Run(cooldown, Next(cooldown, r, Access(t, clock)), Accesses(t, clock, 3))
  {
    MoreAccesses(cooldown, r, t, clock, 4);
  }

  /** A whole opening. */
  function OpenSteps(t: nat, clock: nat): seq<Step> {
    [Begin(t, Opening)] + Accesses(t, clock, 4)
  }

  lemma OpenFully(cooldown: nat, r: Race, t: nat, clock: nat)
    requires t < |r.points| && AtRest(r.points[t]) && !r.status.Open? && clock >= r.time
    ensures Run(cooldown, r, OpenSteps(t, clock))
         == r.(status := Resilience.Status.Open, flag := false, openedAt := clock, time := clock,
               openings := r.openings + 1, openSince := clock, points := r.points[t := Resting])
  {
    var begun := Next(cooldown, r, Begin(t, Opening));
    RunAppend(cooldown, r, [Begin(t, Opening)], Accesses(t, clock, 4));
    OneStep(cooldown, r, Begin(t, Opening));
    FourAccesses(cooldown, begun, t, clock);
    StoreAndClear(cooldown, Next(cooldown, begun, Access(t, clock)), t, clock);
  }

  /** The rest of an opening: read the clock, store the time, clear the flag. */
  lemma StoreAndClear(cooldown: nat, r: Race, t: nat, clock: nat)
    requires t < |r.points| && r.points[t].ReadOpening? && clock >= r.time
    ensures Run(cooldown, r, Accesses(t, clock, 3))
         == r.(flag := false, openedAt := clock, time := clock, points := r.points[t := Resting])
  {
    ThreeAccesses(cooldown, r, t, clock);
  }

  /** A caller of `permit` up to its swap of the state. */
  function AskSteps(t: nat, clock: nat): seq<Step> {
    [Begin(t, Asking)] + Accesses(t, clock, 3)
  }

  /** With an open circuit, it gets there exactly if the stored time is old enough. */
  lemma AskOpen(cooldown: nat, r: Race, t: nat, clock: nat)
    requires t < |r.points| && AtRest(r.points[t]) && r.status.Open? && clock >= r.time
    ensures var p := if clock < r.openedAt + cooldown then TurnedDown
                     else SwapState(Test(clock, r.openedAt, r.openings, r.openings));
      Run(cooldown, r, AskSteps(t, clock)) == r.(time := clock, points := r.points[t := p])
  {
    RunAppend(cooldown, r, [Begin(t, Asking)], Accesses(t, clock, 3));
    OneStep(cooldown, r, Begin(t, Asking));
    ThreeAccesses(cooldown, Next(cooldown, r, Begin(t, Asking)), t, clock);
  }

  /** From the store of the flag on: reset, load, swap. */
  lemma TakeFlag(cooldown: nat, r: Race, t: nat, clock: nat)
    requires t < |r.points| && r.points[t].ResetFlag? && r.status.HalfOpen? && clock >= r.time
    ensures Run(cooldown, r, Accesses(t, clock, 3))
         == r.(flag := true, time := clock, points := r.points[t := Admitted(true)])
    ensures ProbesAdmitted(cooldown, r, Accesses(t, clock, 3)) == 1
  {
    ThreeAccesses(cooldown, r, t, clock);
  }

  /** The swap of the state, and from there to the probe. */
  lemma EnterAndTake(cooldown: nat, r: Race, t: nat, clock: nat)
    requires t < |r.points| && r.points[t].SwapState? && r.status.Open? && clock >= r.time
    ensures Run(cooldown, r, Accesses(t, clock, 4))
         == r.(status := Resilience.HalfOpen, flag := true, time := clock, entry := r.points[t].test,
               enteredIn := r.openings, points := r.points[t := Admitted(true)])
  {
    FourAccesses(cooldown, r, t, clock);
    TakeFlag(cooldown, Next(cooldown, r, Access(t, clock)), t, clock);
  }

  lemma Then(cooldown: nat, r: Race, a: seq<Step>, r1: Race, b: seq<Step>, r2: Race)
    requires Run(cooldown, r, a) == r1 && Run(cooldown, r1, b) == r2
    ensures Run(cooldown, r, a + b) == r2
  {
    RunAppend(cooldown, r, a, b);
  }

  // ---------------------------------------------------------------------------------------------
  // Operations that nobody interrupts are the atomic ones.

  /** The shared words as the atomic circuit, beside some window. */
  function Atomic(r: Race, w: Resilience.Window): Resilience.Circuit {
    Resilience.Circuit(w, r.status, r.openedAt, r.flag)
  }

  lemma {:induction false} RestStays(cooldown: nat, r: Race, t: nat, clock: nat, n: nat)
    requires t < |r.points| && AtRest(r.points[t]) && clock <= r.time
    ensures Run(cooldown, r, Accesses(t, clock, n)) == r
    decreases n
  {
    if n > 0 {
      MoreAccesses(cooldown, r, t, clock, n);
      RestStays(cooldown, r, t, clock, n - 1);
    }
  }

  lemma {:induction false} AccessesAppend(t: nat, clock: nat, a: nat, b: nat)
    ensures Accesses(t, clock, a + b) == Accesses(t, clock, a) + Accesses(t, clock, b)
    decreases a
  {
    if a > 0 { AccessesAppend(t, clock, a - 1, b); }
  }

  /** After `a` accesses the thread is at rest, and more change nothing. */
  lemma {:induction false} AtRestAfter(cooldown: nat, r: Race, t: nat, clock: nat, a: nat, n: nat, r': Race)
    requires a <= n && Run(cooldown, r, Accesses(t, clock, a)) == r'
    requires t < |r'.points| && AtRest(r'.points[t]) && clock <= r'.time
    ensures Run(cooldown, r, Accesses(t, clock, n)) == r'
  {
    AccessesAppend(t, clock, a, n - a);
    RunAppend(cooldown, r, Accesses(t, clock, a), Accesses(t, clock, n - a));
    RestStays(cooldown, r', t, clock, n - a);
  }

  lemma OneAccess(cooldown: nat, r: Race, t: nat, clock: nat)
    ensures Run(cooldown, r, Accesses(t, clock, 1)) == Next(cooldown, r, Access(t, clock))
  {
    MoreAccesses(cooldown, r, t, clock, 1);
  }

  lemma TwoAccesses(cooldown: nat, r: Race, t: nat, clock: nat)
    ensures Run(cooldown, r, Accesses(t, clock, 2))
         == Next(cooldown, Next(cooldown, r, Access(t, clock)), Access(t, clock))
  {
    MoreAccesses(cooldown, r, t, clock, 2);
    OneAccess(cooldown, Next(cooldown, r, Access(t, clock)), t, clock);
  }

  /** A caller that has begun and runs alone on an open circuit. */
  lemma {:induction false} AskOpenAlone(cooldown: nat, r: Race, t: nat, clock: nat)
    requires t < |r.points| && r.points[t].LoadState? && r.status.Open? && clock >= r.time
    ensures var r' := Run(cooldown, r, Accesses(t, clock, 7));
      && t < |r'.points| && r'.openedAt == r.openedAt
      && if clock < r.openedAt + cooldown
         then r'.points[t].TurnedDown? && r'.status.Open? && r'.flag == r.flag
         else r'.points[t] == Admitted(true) && r'.status.HalfOpen? && r'.flag
  {
    ThreeAccesses(cooldown, r, t, clock);
    var r3 := Run(cooldown, r, Accesses(t, clock, 3));
    if clock < r.openedAt + cooldown {
      AtRestAfter(cooldown, r, t, clock, 3, 7, r3);
    } else {
      EnterAndTake(cooldown, r3, t, clock);
      AccessesAppend(t, clock, 3, 4);
      RunAppend(cooldown, r, Accesses(t, clock, 3), Accesses(t, clock, 4));
    }
  }

  /** And on a circuit that is not open. */
  lemma {:induction false} AskElseAlone(cooldown: nat, r: Race, t: nat, clock: nat)
    requires t < |r.points| && r.points[t].LoadState? && !r.status.Open? && clock >= r.time
    ensures var r' := Run(cooldown, r, Accesses(t, clock, 7));
      && t < |r'.points| && r'.openedAt == r.openedAt && r'.status == r.status
      && if r.status.Closed? then r'.points[t] == Admitted(false) && r'.flag == r.flag
         else r'.points[t] == (if r.flag then TurnedDown else Admitted(true)) && r'.flag
  {
    if r.status.Closed? {
      OneAccess(cooldown, r, t, clock);
      AtRestAfter(cooldown, r, t, clock, 1, 7, Next(cooldown, r, Access(t, clock)));
    } else {
      TwoAccesses(cooldown, r, t, clock);
      AtRestAfter(cooldown, r, t, clock, 2, 7, Run(cooldown, r, Accesses(t, clock, 2)));
    }
  }

  /** A `permit` that nobody interrupts is the atomic one: same verdict, same state, flag and opening time. */
  lemma {:induction false} PermitAloneIsAtomic(
    p: Resilience.Policy, r: Race, w: Resilience.Window, t: nat, clock: nat)
    requires p.Valid() && t < |r.points| && AtRest(r.points[t]) && clock >= r.time
    ensures var r' := Run(p.resetTimeout, r, [Begin(t, Asking)] + Accesses(t, clock, 7));
      var (verdict, c) := Resilience.Permit(p, Atomic(r, w), clock);
      && t < |r'.points| && Atomic(r', w) == c
      && r'.points[t] == match verdict case Refused => TurnedDown case Admitted(probe) => Admitted(probe)
  {
    RunAppend(p.resetTimeout, r, [Begin(t, Asking)], Accesses(t, clock, 7));
    OneStep(p.resetTimeout, r, Begin(t, Asking));
    var begun := Next(p.resetTimeout, r, Begin(t, Asking));
    if r.status.Open? {
      AskOpenAlone(p.resetTimeout, begun, t, clock);
    } else {
      AskElseAlone(p.resetTimeout, begun, t, clock);
    }
  }

  /** So is an opening that nobody interrupts. */
  lemma {:induction false} OpenAloneIsAtomic(cooldown: nat, r: Race, w: Resilience.Window, t: nat, clock: nat)
    requires t < |r.points| && AtRest(r.points[t]) && clock >= r.time
    ensures Atomic(Run(cooldown, r, OpenSteps(t, clock)), w) == Resilience.OpenCircuit(Atomic(r, w), clock)
  {
    if r.status.Open? {
      RunAppend(cooldown, r, [Begin(t, Opening)], Accesses(t, clock, 4));
      OneStep(cooldown, r, Begin(t, Opening));
      var begun := Next(cooldown, r, Begin(t, Opening));
      OneAccess(cooldown, begun, t, clock);
      AtRestAfter(cooldown, begun, t, clock, 1, 4, Next(cooldown, begun, Access(t, clock)));
    } else {
      OpenFully(cooldown, r, t, clock);
    }
  }

  /** And the closing after a probe's success. */
  lemma {:induction false} CloseAloneIsAtomic(cooldown: nat, r: Race, w: Resilience.Window, t: nat, clock: nat)
    requires t < |r.points| && AtRest(r.points[t]) && clock >= r.time
    ensures Atomic(Run(cooldown, r, [Begin(t, Closing)] + Accesses(t, clock, 2)), Resilience.Clear(w))
         == Resilience.RecordSuccess(Atomic(r, w), true)
  {
    RunAppend(cooldown, r, [Begin(t, Closing)], Accesses(t, clock, 2));
    OneStep(cooldown, r, Begin(t, Closing));
    TwoAccesses(cooldown, Next(cooldown, r, Begin(t, Closing)), t, clock);
  }

  /** A circuit of two threads that was opened at time 0 and whose opening is complete. */
  function OpenedAtZero(): Race {
    Race(Resilience.Status.Open, false, 0, [Resting, Resting], 0, 1, 0, Test(0, 0, 0, 0), 0)
  }

  lemma OpensAtZero(cooldown: nat)
    ensures Run(cooldown, Start(2), OpenSteps(0, 0)) == OpenedAtZero()
  {
    OpenFully(cooldown, Start(2), 0, 0);
    assert Start(2).points[0 := Resting] == [Resting, Resting];
  }

  // ---------------------------------------------------------------------------------------------
  // One run for each cause of an early probe.

  /** Thread 0 opens, half-opens and takes the probe; thread 1 loads the half-open state; thread 0 opens again. */
  function ParkedAtFlag(first: nat, second: nat): seq<Step> {
    OpenSteps(0, 0) + (AskSteps(0, first) + (Accesses(0, first, 4)
      + ([Begin(1, Asking), Access(1, first)] + OpenSteps(0, second))))
  }

  /**
    A caller parked at the flag swap becomes a probe of the circuit that was opened again meanwhile,
    at the very time of that opening, although the opening time has been stored.
   */
  lemma {:induction false} ParkedCallerIsAdmitted(cooldown: nat, first: nat, second: nat)
    requires 0 < cooldown <= first <= second
    ensures var r := Run(cooldown, Start(2), ParkedAtFlag(first, second));
      && AdmitsProbe(r, Access(1, second)) && Parked(r, 1) && r.status.Open?
      && Next(cooldown, r, Access(1, second)).time == r.openSince == r.openedAt == second
  {
    var test := Test(first, 0, 1, 1);
    var r1 := OpenedAtZero();
    var r2 := r1.(time := first, points := [SwapState(test), Resting]);
    var r3 := r2.(status := Resilience.HalfOpen, flag := true, entry := test, enteredIn := 1,
                  points := [Admitted(true), Resting]);
    var r4 := r3.(points := [Admitted(true), SwapFlag(1, first)]);
    var r5 := r4.(status := Resilience.Status.Open, flag := false, openedAt := second, time := second,
                  openings := 2, openSince := second, points := [Resting, SwapFlag(1, first)]);
    var load := [Begin(1, Asking), Access(1, first)];
    OpensAtZero(cooldown);
    AskOpen(cooldown, r1, 0, first);
    assert r1.points[0 := SwapState(test)] == r2.points;
    EnterAndTake(cooldown, r2, 0, first);
    assert r2.points[0 := Admitted(true)] == r3.points;
    TwoSteps(cooldown, r3, Begin(1, Asking), Access(1, first));
    assert r3.points[1 := LoadState][1 := SwapFlag(1, first)] == r4.points;
    OpenFully(cooldown, r4, 0, second);
    assert r4.points[0 := Resting] == r5.points;
    Then(cooldown, r3, load, r4, OpenSteps(0, second), r5);
    Then(cooldown, r2, Accesses(0, first, 4), r3, load + OpenSteps(0, second), r5);
    Then(cooldown, r1, AskSteps(0, first), r2, Accesses(0, first, 4) + (load + OpenSteps(0, second)), r5);
    Then(cooldown, Start(2), OpenSteps(0, 0), r1,
         AskSteps(0, first) + (Accesses(0, first, 4) + (load + OpenSteps(0, second))), r5);
  }

  /** Thread 1 passes its test; thread 0 half-opens, takes the probe and opens again; thread 1 goes on to the flag. */
  function ParkedAtState(first: nat, second: nat): seq<Step> {
    OpenSteps(0, 0) + (AskSteps(1, first) + (AskSteps(0, first) + (Accesses(0, first, 4)
      + (OpenSteps(0, second) + Accesses(1, second, 3)))))
  }

  /** A test passed in an earlier opening takes the circuit into the half-open period of the next one at once. */
  lemma {:induction false} OldTestIsAccepted(cooldown: nat, first: nat, second: nat)
    requires 0 < cooldown <= first <= second
    ensures var r := Run(cooldown, Start(2), ParkedAtState(first, second));
      && AdmitsProbe(r, Access(1, second)) && OldReading(r, 1) && r.status.HalfOpen?
      && Next(cooldown, r, Access(1, second)).time == r.openSince == r.openedAt == second
  {
    var test := Test(first, 0, 1, 1);
    var r1 := OpenedAtZero();
    var r2 := r1.(time := first, points := [Resting, SwapState(test)]);
    var r3 := r2.(points := [SwapState(test), SwapState(test)]);
    var r4 := r3.(status := Resilience.HalfOpen, flag := true, entry := test, enteredIn := 1,
                  points := [Admitted(true), SwapState(test)]);
    var r5 := r4.(status := Resilience.Status.Open, flag := false, openedAt := second, time := second,
                  openings := 2, openSince := second, points := [Resting, SwapState(test)]);
    var r6 := r5.(status := Resilience.HalfOpen, enteredIn := 2, points := [Resting, SwapFlag(2, first)]);
    OpensAtZero(cooldown);
    AskOpen(cooldown, r1, 1, first);
    assert r1.points[1 := SwapState(test)] == r2.points;
    AskOpen(cooldown, r2, 0, first);
    assert r2.points[0 := SwapState(test)] == r3.points;
    EnterAndTake(cooldown, r3, 0, first);
    assert r3.points[0 := Admitted(true)] == r4.points;
    OpenFully(cooldown, r4, 0, second);
    assert r4.points[0 := Resting] == r5.points;
    ThreeAccesses(cooldown, r5, 1, second);
    assert r5.points[1 := ResetFlag][1 := LoadState][1 := SwapFlag(2, first)] == r6.points;
    Then(cooldown, r4, OpenSteps(0, second), r5, Accesses(1, second, 3), r6);
    Then(cooldown, r3, Accesses(0, first, 4), r4, OpenSteps(0, second) + Accesses(1, second, 3), r6);
    Then(cooldown, r2, AskSteps(0, first), r3,
         Accesses(0, first, 4) + (OpenSteps(0, second) + Accesses(1, second, 3)), r6);
    Then(cooldown, r1, AskSteps(1, first), r2,
         AskSteps(0, first) + (Accesses(0, first, 4) + (OpenSteps(0, second) + Accesses(1, second, 3))), r6);
    Then(cooldown, Start(2), OpenSteps(0, 0), r1,
         AskSteps(1, first) + (AskSteps(0, first) + (Accesses(0, first, 4)
           + (OpenSteps(0, second) + Accesses(1, second, 3)))), r6);
  }

  /** Thread 0 makes the circuit open; thread 1 asks before the opening time is stored, and goes on to the flag. */
  function AskedBeforeStore(opening: nat, asking: nat): seq<Step> {
    [Begin(0, Opening), Access(0, opening)] + (AskSteps(1, asking) + Accesses(1, asking, 3))
  }

  /**
    A caller that asks while the first opening time of a circuit is not stored yet is let through
    exactly if the circuit is older than the cooldown, and so, for an opening after time 0, early
    for every clock from that age on until the end of the cooldown of the opening.
   */
  lemma {:induction false} UnstoredTimeLetsThrough(cooldown: nat, opening: nat, asking: nat)
    requires cooldown > 0 && opening <= asking
    ensures var r := Run(cooldown, Start(2), AskedBeforeStore(opening, asking));
      && (AdmitsProbe(r, Access(1, asking)) <==> asking >= cooldown)
      && |r.points| == 2 && r.points[0].ReadOpening? && r.openSince == opening
      && (asking >= cooldown && opening > 0 ==> OldTime(r, 1))
      && Next(cooldown, r, Access(1, asking)).time == asking
  {
    var r1 := Race(Resilience.Status.Open, false, 0, [ReadOpening, Resting], opening, 1, opening, Test(0, 0, 0, 0), 0);
    var test := Test(asking, 0, 1, 1);
    var p := if asking < cooldown then TurnedDown else SwapState(test);
    var r2 := r1.(time := asking, points := [ReadOpening, p]);
    var r3 := if asking < cooldown then r2
              else r2.(status := Resilience.HalfOpen, entry := test, enteredIn := 1,
                       points := [ReadOpening, SwapFlag(1, asking)]);
    TwoSteps(cooldown, Start(2), Begin(0, Opening), Access(0, opening));
    assert Start(2).points[0 := SwapOpen][0 := ReadOpening] == [ReadOpening, Resting];
    AskOpen(cooldown, r1, 1, asking);
    assert r1.points[1 := p] == r2.points;
    ThreeAccesses(cooldown, r2, 1, asking);
    assert r2.points[1 := ResetFlag][1 := LoadState][1 := SwapFlag(1, asking)] == [ReadOpening, SwapFlag(1, asking)];
    Then(cooldown, r1, AskSteps(1, asking), r2, Accesses(1, asking, 3), r3);
    Then(cooldown, Start(2), [Begin(0, Opening), Access(0, opening)], r1,
         AskSteps(1, asking) + Accesses(1, asking, 3), r3);
  }

  // ---------------------------------------------------------------------------------------------
  // Periods with one probe and with two.

  /** A circuit opens, and after its cooldown a caller is about to take it into its half-open period. */
  function BeforePeriod(clock: nat): seq<Step> {
    OpenSteps(0, 0) + AskSteps(0, clock)
  }

  lemma PeriodBegins(cooldown: nat, clock: nat)
    requires cooldown <= clock
    ensures var r := Run(cooldown, Start(2), BeforePeriod(clock));
      && Enters(r, Access(0, clock))
      && Next(cooldown, r, Access(0, clock))
         == Race(Resilience.HalfOpen, false, 0, [ResetFlag, Resting], clock, 1, 0, Test(clock, 0, 1, 1), 1)
  {
    var r1 := OpenedAtZero();
    var r2 := r1.(time := clock, points := [SwapState(Test(clock, 0, 1, 1)), Resting]);
    OpensAtZero(cooldown);
    AskOpen(cooldown, r1, 0, clock);
    assert r1.points[0 := SwapState(Test(clock, 0, 1, 1))] == r2.points;
    Then(cooldown, Start(2), OpenSteps(0, 0), r1, AskSteps(0, clock), r2);
    assert r2.points[0 := ResetFlag] == [ResetFlag, Resting];
  }

  lemma TakeIsPeriod(cooldown: nat, r: Race, t: nat, clock: nat)
    requires t < |r.points| && r.points[t].ResetFlag? && r.status.HalfOpen? && clock >= r.time
    ensures Period(cooldown, r, Accesses(t, clock, 3))
  {
    var a := Access(t, clock);
    var r1 := Next(cooldown, r, a);
    var r2 := Next(cooldown, r1, a);
    assert Accesses(t, clock, 3)[1..] == Accesses(t, clock, 2) && Accesses(t, clock, 2)[1..] == Accesses(t, clock, 1);
    assert Accesses(t, clock, 1)[1..] == [];
    assert Period(cooldown, Next(cooldown, r2, a), []);
    assert Period(cooldown, r2, Accesses(t, clock, 1));
    assert Period(cooldown, r1, Accesses(t, clock, 2));
  }

  /** The entering caller alone: one probe, whoever asks afterwards. */
  lemma {:induction false} OneProbeAlone(cooldown: nat, clock: nat)
    requires cooldown <= clock
    ensures var r := Next(cooldown, Run(cooldown, Start(2), BeforePeriod(clock)), Access(0, clock));
      var steps := (Accesses(0, clock, 3) + [Begin(1, Asking), Access(1, clock)]) + [Access(1, clock)];
      Period(cooldown, r, steps) && ProbesAdmitted(cooldown, r, steps) == 1
  {
    PeriodBegins(cooldown, clock);
    var r := Next(cooldown, Run(cooldown, Start(2), BeforePeriod(clock)), Access(0, clock));
    var take, ask := Accesses(0, clock, 3), [Begin(1, Asking), Access(1, clock)];
    TakeFlag(cooldown, r, 0, clock);
    TakeIsPeriod(cooldown, r, 0, clock);
    var taken := Run(cooldown, r, take);
    TwoSteps(cooldown, taken, Begin(1, Asking), Access(1, clock));
    OneStep(cooldown, taken, Begin(1, Asking));
    OneStep(cooldown, Next(cooldown, taken, Begin(1, Asking)), Access(1, clock));
    PeriodAppend(cooldown, r, take, ask);
    RunAppend(cooldown, r, take, ask);
    RunAppend(cooldown, r, take + ask, [Access(1, clock)]);
    OneStep(cooldown, Run(cooldown, r, take + ask), Access(1, clock));
    PeriodAppend(cooldown, r, take + ask, [Access(1, clock)]);
  }

  /** Another caller swaps the flag before the entering caller resets it: two probes of one period. */
  lemma {:induction false} TwoProbesArePossible(cooldown: nat, clock: nat)
    requires cooldown <= clock
    ensures var r := Next(cooldown, Run(cooldown, Start(2), BeforePeriod(clock)), Access(0, clock));
      var steps := ([Begin(1, Asking), Access(1, clock)] + [Access(1, clock)]) + Accesses(0, clock, 3);
      Period(cooldown, r, steps) && ProbesAdmitted(cooldown, r, steps) == 2
  {
    PeriodBegins(cooldown, clock);
    var r := Next(cooldown, Run(cooldown, Start(2), BeforePeriod(clock)), Access(0, clock));
    var ask, take := [Begin(1, Asking), Access(1, clock)], Accesses(0, clock, 3);
    TwoSteps(cooldown, r, Begin(1, Asking), Access(1, clock));
    OneStep(cooldown, r, Begin(1, Asking));
    OneStep(cooldown, Next(cooldown, r, Begin(1, Asking)), Access(1, clock));
    var loaded := Run(cooldown, r, ask);
    OneStep(cooldown, loaded, Access(1, clock));
    RunAppend(cooldown, r, ask, [Access(1, clock)]);
    PeriodAppend(cooldown, r, ask, [Access(1, clock)]);
    var swapped := Next(cooldown, loaded, Access(1, clock));
    TakeFlag(cooldown, swapped, 0, clock);
    TakeIsPeriod(cooldown, swapped, 0, clock);
    RunAppend(cooldown, r, ask + [Access(1, clock)], take);
    PeriodAppend(cooldown, r, ask + [Access(1, clock)], take);
  }
}
