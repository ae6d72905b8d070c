/**
  The lock-free Snowflake generator. One 64-bit word holds an initialised flag, the last reserved
  timestamp and the last reserved sequence value. Threads load the word, plan a reservation from
  what they saw, and try to swap the planned word in.
 */
module SnowflakeGenerators {
  import opened Prelude
  import opened Bits
  import opened SnowflakeLayouts

  const INITIALIZED: nat := 0x8000_0000_0000_0000

  datatype IdReservation = IdReservation(timestamp: nat, start: nat, count: nat)

  /** What one pass of the reservation loop decides from the word it loaded. */
  datatype Plan =
    | MovedBackwards
    | SequenceExhausted
    | Reserve(next: nat, reservation: IdReservation)

  function PackWord(l: SnowflakeLayout, timestamp: nat, sequence: nat): nat {
    Or(Or(INITIALIZED, Shl(timestamp, l.sequenceBits)), sequence)
  }

  function PlanReservation(l: SnowflakeLayout, current: nat, timestamp: nat, requested: nat): Plan
    requires requested > 0
  {
    if And(current, INITIALIZED) == 0 then
      ReserveFrom(l, timestamp, 0, requested)
    else
      var packed := And(current, INITIALIZED - 1);
      var lastTimestamp := Shr(packed, l.sequenceBits);
      var lastSequence := And(packed, l.MaxSequence());
      if timestamp < lastTimestamp then MovedBackwards
      else if timestamp > lastTimestamp then ReserveFrom(l, timestamp, 0, requested)
      else if lastSequence < l.MaxSequence() then ReserveFrom(l, lastTimestamp, lastSequence + 1, requested)
      else SequenceExhausted
  }

  function ReserveFrom(l: SnowflakeLayout, timestamp: nat, start: nat, requested: nat): (p: Plan)
    requires requested > 0 && start <= l.MaxSequence()
  {
    var available := l.MaxSequence() - start + 1;
    var count := Min(requested, available);
    Reserve(PackWord(l, timestamp, start + count - 1), IdReservation(timestamp, start, count))
  }

  // ---------------------------------------------------------------------------------------------
  // Positions: a (timestamp, sequence) pair as one number on the generator's time line.

  function Position(l: SnowflakeLayout, timestamp: nat, sequence: nat): nat {
    Scale(timestamp, l.sequenceBits) + sequence
  }

  function FirstPosition(l: SnowflakeLayout, r: IdReservation): nat {
    Position(l, r.timestamp, r.start)
  }

  function LastPosition(l: SnowflakeLayout, r: IdReservation): int {
    Position(l, r.timestamp, r.start) + r.count - 1
  }

  /** The last reserved position recorded in a word, or -1 before the first reservation. */
  function Top(word: nat): int {
    if word < INITIALIZED then -1 else word - INITIALIZED
  }

  /** A word the generator can hold. */
  predicate WordOk(l: SnowflakeLayout, word: nat) {
    word == 0 || INITIALIZED <= word < INITIALIZED + Pow2(l.timestampBits + l.sequenceBits)
  }

  predicate ReservationOk(l: SnowflakeLayout, r: IdReservation) {
    r.timestamp < Pow2(l.timestampBits) && r.count >= 1 && r.start + r.count <= Pow2(l.sequenceBits)
  }

  lemma PositionFits(l: SnowflakeLayout, timestamp: nat, sequence: nat)
    requires l.Valid() && timestamp < Pow2(l.timestampBits) && sequence < Pow2(l.sequenceBits)
    ensures Position(l, timestamp, sequence) < Pow2(l.timestampBits + l.sequenceBits) <= INITIALIZED
  {
    FieldsBelow(timestamp, Pow2(l.timestampBits), sequence, l.sequenceBits);
    Pow2Sum(l.timestampBits, l.sequenceBits);
    Pow2Monotone(l.timestampBits + l.sequenceBits, 63);
    Pow2Constants();
  }

  lemma {:induction false} PackWordValue(l: SnowflakeLayout, timestamp: nat, sequence: nat)
    requires l.Valid() && timestamp < Pow2(l.timestampBits) && sequence < Pow2(l.sequenceBits)
    ensures PackWord(l, timestamp, sequence) == INITIALIZED + Position(l, timestamp, sequence)
  {
    var s := l.sequenceBits;
    Pow2Constants();
    Pow2IsScale(63);
    ShlExact(timestamp, l.timestampBits, s);
    PositionFits(l, timestamp, 0);
    OrIsAdd(1, Scale(timestamp, s), 63);
    ScaleTwice(1, 63 - s, s);
    ScaleAdds(Scale(1, 63 - s), timestamp, s);
    OrIsAdd(Scale(1, 63 - s) + timestamp, sequence, s);
  }

  /** The timestamp and sequence last reserved, as the loop takes them out of a word. */
  function LastTimestamp(l: SnowflakeLayout, word: nat): nat {
    Shr(And(word, INITIALIZED - 1), l.sequenceBits)
  }

  function LastSequence(l: SnowflakeLayout, word: nat): nat {
    And(And(word, INITIALIZED - 1), l.MaxSequence())
  }

  lemma {:induction false} WordDecodes(l: SnowflakeLayout, word: nat)
    requires l.Valid() && WordOk(l, word)
    ensures And(word, INITIALIZED) == 0 <==> word == 0
    ensures word != 0 ==>
      && Top(word) == Position(l, LastTimestamp(l, word), LastSequence(l, word))
      && LastSequence(l, word) <= l.MaxSequence()
  {
    Pow2Constants();
    if word != 0 {
      Pow2Monotone(l.timestampBits + l.sequenceBits, 63);
      Pow2IsScale(63);
      SplitWord(1, word - INITIALIZED, 63);
      AndBit(word, 63);
      JoinWord(word - INITIALIZED, l.sequenceBits);
    }
  }

  lemma {:induction false} ReserveFromValue(l: SnowflakeLayout, timestamp: nat, start: nat, requested: nat)
    requires l.Valid() && timestamp < Pow2(l.timestampBits) && requested > 0 && start <= l.MaxSequence()
    ensures var Reserve(next, r) := ReserveFrom(l, timestamp, start, requested);
      && ReservationOk(l, r) && r.timestamp == timestamp && r.start == start && r.count <= requested
      && WordOk(l, next) && INITIALIZED <= next
      && FirstPosition(l, r) <= LastPosition(l, r) == Top(next)
  {
    var r := ReserveFrom(l, timestamp, start, requested).reservation;
    PackWordValue(l, timestamp, start + r.count - 1);
    PositionFits(l, timestamp, start + r.count - 1);
  }

  /** The sequence value a plan starts from. */
  function StartSequence(l: SnowflakeLayout, current: nat, timestamp: nat): nat {
    if current != 0 && timestamp == LastTimestamp(l, current) then LastSequence(l, current) + 1 else 0
  }

  lemma {:induction false} PlanIsReserveFrom(l: SnowflakeLayout, current: nat, timestamp: nat, requested: nat)
    requires l.Valid() && WordOk(l, current) && requested > 0
    requires PlanReservation(l, current, timestamp, requested).Reserve?
    ensures StartSequence(l, current, timestamp) <= l.MaxSequence()
    ensures PlanReservation(l, current, timestamp, requested)
         == ReserveFrom(l, timestamp, StartSequence(l, current, timestamp), requested)
    ensures Top(current) < Position(l, timestamp, StartSequence(l, current, timestamp))
  {
    WordDecodes(l, current);
    if current != 0 && timestamp > LastTimestamp(l, current) {
      FieldsBelow(LastTimestamp(l, current), timestamp, LastSequence(l, current), l.sequenceBits);
    }
  }

  /**
    A planned reservation starts past everything the loaded word had reserved (right after it, or at
    the start of a new millisecond), stays inside one millisecond of the layout, takes all that was
    asked or all that is left, and its word records its last position.
   */
  lemma {:induction false} PlanAdvances(l: SnowflakeLayout, current: nat, timestamp: nat, requested: nat)
    requires l.Valid() && WordOk(l, current) && timestamp < Pow2(l.timestampBits) && requested > 0
    requires PlanReservation(l, current, timestamp, requested).Reserve?
    ensures var Reserve(next, r) := PlanReservation(l, current, timestamp, requested);
      && ReservationOk(l, r) && r.timestamp == timestamp && r.count <= requested
      && (r.count == requested || r.start + r.count == Pow2(l.sequenceBits))
      && (r.start == 0 || FirstPosition(l, r) == Top(current) + 1)
      && WordOk(l, next) && next > current
      && Top(current) < FirstPosition(l, r) <= LastPosition(l, r) == Top(next)
  {
    WordDecodes(l, current);
    PlanIsReserveFrom(l, current, timestamp, requested);
    ReserveFromValue(l, timestamp, StartSequence(l, current, timestamp), requested);
  }

  /** A plan is refused exactly when the clock is behind the word or its millisecond is used up. */
  lemma {:induction false} PlanRefusals(l: SnowflakeLayout, current: nat, timestamp: nat, requested: nat)
    requires l.Valid() && WordOk(l, current) && requested > 0
    ensures PlanReservation(l, current, timestamp, requested).MovedBackwards?
      <==> current != 0 && timestamp < LastTimestamp(l, current)
    ensures PlanReservation(l, current, timestamp, requested).SequenceExhausted?
      <==> current != 0 && timestamp == LastTimestamp(l, current) && LastSequence(l, current) == l.MaxSequence()
  {
    WordDecodes(l, current);
  }

  // ---------------------------------------------------------------------------------------------
  // Any number of threads.

  /** A thread between its load and its compare-and-swap. */
  datatype Thread = Loaded(seen: nat, timestamp: nat, requested: nat)

  datatype Machine = Machine(word: nat, threads: map<nat, Thread>, issued: seq<IdReservation>)

  datatype Step =
    | Load(thread: nat, timestamp: nat, requested: nat)
    | CompareAndSwap(thread: nat)

  const START := Machine(0, map[], [])

  /**
    One atomic step. A load with no request or a timestamp past the layout's lifetime returns
    before the loop; a swap that finds another word makes its thread load again.
   */
  function Next(l: SnowflakeLayout, m: Machine, step: Step): Machine {
    match step
    case Load(t, timestamp, requested) =>
      if requested == 0 || timestamp >= Pow2(l.timestampBits) then m
      else m.(threads := m.threads[t := Loaded(m.word, timestamp, requested)])
    case CompareAndSwap(t) =>
      if t !in m.threads || m.threads[t].requested == 0 then m
      else
        var thread := m.threads[t];
        var idle := m.(threads := m.threads - {t});
        match PlanReservation(l, thread.seen, thread.timestamp, thread.requested)
        case Reserve(next, r) =>
          if m.word == thread.seen then idle.(word := next, issued := m.issued + [r]) else idle
        case _ => idle
  }

  function Run(l: SnowflakeLayout, m: Machine, steps: seq<Step>): Machine
    decreases |steps|
  {
    if steps == [] then m else Run(l, Next(l, m, steps[0]), steps[1..])
  }

  predicate ThreadOk(l: SnowflakeLayout, t: Thread) {
    t.timestamp < Pow2(l.timestampBits)
  }

  /** Reservations lie on the time line one after another, and the word marks the last of them. */
  ghost predicate MachineOk(l: SnowflakeLayout, m: Machine) {
    && WordOk(l, m.word)
    && (forall t :: t in m.threads ==> ThreadOk(l, m.threads[t]))
    && (forall i :: 0 <= i < |m.issued| ==> ReservationOk(l, m.issued[i]))
    && (forall i, j :: 0 <= i < j < |m.issued| ==>
          LastPosition(l, m.issued[i]) < FirstPosition(l, m.issued[j]))
    && (forall i :: 0 <= i < |m.issued| ==> LastPosition(l, m.issued[i]) <= Top(m.word))
  }

  /** Every step keeps the invariant; the word never falls and a new reservation raises it. */
  lemma {:induction false} NextKeepsOrder(l: SnowflakeLayout, m: Machine, step: Step)
    requires l.Valid() && MachineOk(l, m)
    ensures var m' := Next(l, m, step);
      && MachineOk(l, m') && m.word <= m'.word && m.issued <= m'.issued
      && (m'.issued != m.issued ==> m.word < m'.word)
  {
    if step.CompareAndSwap? && step.thread in m.threads && m.threads[step.thread].requested > 0 {
      var thread := m.threads[step.thread];
      if PlanReservation(l, thread.seen, thread.timestamp, thread.requested).Reserve? && m.word == thread.seen {
        PlanAdvances(l, m.word, thread.timestamp, thread.requested);
      }
    }
  }

  lemma {:induction false} RunKeepsOrder(l: SnowflakeLayout, m: Machine, steps: seq<Step>)
    requires l.Valid() && MachineOk(l, m)
    ensures MachineOk(l, Run(l, m, steps))
    ensures m.word <= Run(l, m, steps).word && m.issued <= Run(l, m, steps).issued
    decreases |steps|
  {
    if steps != [] {
      NextKeepsOrder(l, m, steps[0]);
      RunKeepsOrder(l, Next(l, m, steps[0]), steps[1..]);
    }
  }

  /** The reservation takes what was asked, or all that is left of its millisecond, starting at `start`. */
  predicate Takes(l: SnowflakeLayout, r: IdReservation, timestamp: nat, start: nat, requested: nat) {
    r.timestamp == timestamp && r.start == start && r.count == Min(requested, Pow2(l.sequenceBits) - start)
  }

  /**
    A load and swap that nobody interrupts reserves, and right after what its millisecond has
    reserved already, unless the clock is behind or the millisecond is used up; then it does nothing.
   */
  lemma {:induction false} ReserveAlone(l: SnowflakeLayout, m: Machine, t: nat, timestamp: nat, requested: nat)
    requires l.Valid() && MachineOk(l, m) && timestamp < Pow2(l.timestampBits) && requested > 0
    ensures var m' := Next(l, Next(l, m, Load(t, timestamp, requested)), CompareAndSwap(t));
      var last := LastTimestamp(l, m.word);
      if m.word != 0 && (timestamp < last || (timestamp == last && LastSequence(l, m.word) == l.MaxSequence()))
      then m'.issued == m.issued && m'.word == m.word
      else
        && |m'.issued| == |m.issued| + 1 && m.issued <= m'.issued
        && Top(m'.word) == LastPosition(l, m'.issued[|m.issued|])
        && Takes(l, m'.issued[|m.issued|], timestamp,
                 if m.word != 0 && timestamp == last then LastSequence(l, m.word) + 1 else 0, requested)
  {
    var loaded := Next(l, m, Load(t, timestamp, requested));
    assert loaded.threads[t] == Loaded(m.word, timestamp, requested);
    PlanRefusals(l, m.word, timestamp, requested);
    if PlanReservation(l, m.word, timestamp, requested).Reserve? {
      PlanIsReserveFrom(l, m.word, timestamp, requested);
      PlanAdvances(l, m.word, timestamp, requested);
    }
  }

  /** The ids `fill` writes for one reservation. */
  function IdsOf(l: SnowflakeLayout, worker: nat, r: IdReservation): seq<nat> {
    seq<nat>(r.count, i requires 0 <= i < r.count => IdAt(l, worker, r.timestamp, r.start + i))
  }

  /** Every id a run has reserved, in commit order. */
  function AllIds(l: SnowflakeLayout, worker: nat, issued: seq<IdReservation>): seq<nat> {
    if issued == [] then []
    else AllIds(l, worker, issued[..|issued| - 1]) + IdsOf(l, worker, issued[|issued| - 1])
  }

  ghost predicate StrictlyIncreasing(ids: seq<nat>) {
    forall i, j :: 0 <= i < j < |ids| ==> ids[i] < ids[j]
  }

  /** Ids grow with their position on the time line. */
  lemma IdsFollowPositions(l: SnowflakeLayout, worker: nat, t1: nat, s1: nat, t2: nat, s2: nat)
    requires l.Valid() && l.Fits(t1, worker, s1) && l.Fits(t2, worker, s2)
    requires Position(l, t1, s1) < Position(l, t2, s2)
    ensures IdAt(l, worker, t1, s1) < IdAt(l, worker, t2, s2)
  {
    if t2 < t1 {
      FieldsBelow(t2, t1, s2, l.sequenceBits);
      assert false;
    }
    IdsOrderByTime(l, worker, t1, s1, t2, s2);
  }

  /** `id` belongs to a position of the half-open stretch (low, high]. */
  ghost predicate IssuedBetween(l: SnowflakeLayout, worker: nat, id: nat, low: int, high: int) {
    exists t: nat, s: nat ::
      l.Fits(t, worker, s) && low < Position(l, t, s) <= high && id == IdAt(l, worker, t, s)
  }

  lemma BetweenOrders(l: SnowflakeLayout, worker: nat, a: nat, b: nat, low: int, mid: int, high: int)
    requires l.Valid() && IssuedBetween(l, worker, a, low, mid) && IssuedBetween(l, worker, b, mid, high)
    ensures a < b
  {
    var t1: nat, s1: nat :| l.Fits(t1, worker, s1) && low < Position(l, t1, s1) <= mid && a == IdAt(l, worker, t1, s1);
    var t2: nat, s2: nat :| l.Fits(t2, worker, s2) && mid < Position(l, t2, s2) <= high && b == IdAt(l, worker, t2, s2);
    IdsFollowPositions(l, worker, t1, s1, t2, s2);
  }

  lemma BetweenWidens(l: SnowflakeLayout, worker: nat, id: nat, low: int, high: int, low': int, high': int)
    requires IssuedBetween(l, worker, id, low, high) && low' <= low && high <= high'
    ensures IssuedBetween(l, worker, id, low', high')
  {
  }

  lemma {:induction false} IdsOfReservation(l: SnowflakeLayout, worker: nat, r: IdReservation)
    requires l.Valid() && worker <= l.MaxWorkerId() && ReservationOk(l, r)
    ensures StrictlyIncreasing(IdsOf(l, worker, r))
    ensures forall k :: 0 <= k < r.count ==>
      IssuedBetween(l, worker, IdsOf(l, worker, r)[k], FirstPosition(l, r) - 1, LastPosition(l, r))
  {
    forall k | 0 <= k < r.count
      ensures IssuedBetween(l, worker, IdsOf(l, worker, r)[k], FirstPosition(l, r) - 1, LastPosition(l, r))
    {
      assert l.Fits(r.timestamp, worker, r.start + k);
      assert Position(l, r.timestamp, r.start + k) == FirstPosition(l, r) + k;
    }
    forall i, j | 0 <= i < j < r.count
      ensures IdsOf(l, worker, r)[i] < IdsOf(l, worker, r)[j]
    {
      IdsFollowPositions(l, worker, r.timestamp, r.start + i, r.timestamp, r.start + j);
    }
  }

  lemma {:induction false} ChainedIdsIncrease(l: SnowflakeLayout, worker: nat, issued: seq<IdReservation>, top: int)
    requires l.Valid() && worker <= l.MaxWorkerId()
    requires forall i :: 0 <= i < |issued| ==> ReservationOk(l, issued[i]) && LastPosition(l, issued[i]) <= top
    requires forall i, j :: 0 <= i < j < |issued| ==>
      LastPosition(l, issued[i]) < FirstPosition(l, issued[j])
    ensures StrictlyIncreasing(AllIds(l, worker, issued))
    ensures forall k :: 0 <= k < |AllIds(l, worker, issued)| ==>
      IssuedBetween(l, worker, AllIds(l, worker, issued)[k], -1, top)
    decreases |issued|
  {
    if issued != [] {
      var r := issued[|issued| - 1];
      var before := issued[..|issued| - 1];
      var mid := FirstPosition(l, r) - 1;
      ChainedIdsIncrease(l, worker, before, mid);
      IdsOfReservation(l, worker, r);
      var head, tail := AllIds(l, worker, before), IdsOf(l, worker, r);
      forall i, j | 0 <= i < |head| && 0 <= j < |tail|
        ensures head[i] < tail[j]
      {
        BetweenOrders(l, worker, head[i], tail[j], -1, mid, LastPosition(l, r));
      }
      forall i | 0 <= i < |head|
        ensures IssuedBetween(l, worker, head[i], -1, top)
      {
        BetweenWidens(l, worker, head[i], -1, mid, -1, top);
      }
      forall j | 0 <= j < |tail|
        ensures IssuedBetween(l, worker, tail[j], -1, top)
      {
        BetweenWidens(l, worker, tail[j], mid, LastPosition(l, r), -1, top);
      }
    }
  }

  /**
    In every interleaving of loads and swaps by any number of threads, with any clock readings, the
    ids of one generator are strictly increasing in commit order, so no two of them are equal.
   */
  lemma {:induction false} IdsAreUnique(l: SnowflakeLayout, worker: nat, steps: seq<Step>)
    requires l.Valid() && worker <= l.MaxWorkerId()
    ensures StrictlyIncreasing(AllIds(l, worker, Run(l, START, steps).issued))
    ensures forall k :: 0 <= k < |AllIds(l, worker, Run(l, START, steps).issued)| ==>
      AllIds(l, worker, Run(l, START, steps).issued)[k] < Pow2(63)
  {
    var m := Run(l, START, steps);
    RunKeepsOrder(l, START, steps);
    ChainedIdsIncrease(l, worker, m.issued, Top(m.word));
    var ids := AllIds(l, worker, m.issued);
    forall k | 0 <= k < |ids| ensures ids[k] < Pow2(63) {
      var t: nat, s: nat :| l.Fits(t, worker, s) && ids[k] == IdAt(l, worker, t, s);
      IdBelow63Bits(l, worker, t, s);
    }
  }

  /** Id 0 is issued: by worker 0 of any valid layout, in one load and swap at the epoch millisecond. */
  lemma {:induction false} IdZeroIsIssued(l: SnowflakeLayout)
    requires l.Valid()
    ensures AllIds(l, 0, Run(l, START, [Load(0, 0, 1), CompareAndSwap(0)]).issued) == [0]
  {
    var r := IdReservation(0, 0, 1);
    var loaded := Next(l, START, Load(0, 0, 1));
    assert PlanReservation(l, 0, 0, 1).reservation == r;
    var swapped := Next(l, loaded, CompareAndSwap(0));
    assert swapped.issued == [r];
    assert [Load(0, 0, 1), CompareAndSwap(0)][1..] == [CompareAndSwap(0)] && [CompareAndSwap(0)][1..] == [];
    assert Run(l, loaded, [CompareAndSwap(0)]) == swapped;
    IdIsZeroExactlyAtEpoch(l, 0, 0, 0);
    assert [r][..0] == [];
    assert IdsOf(l, 0, r) == [0];
  }

  /** Two generators that share a layout but not a worker never issue a common id, whatever their runs. */
  lemma {:induction false} GeneratorsAreDisjoint(
    l: SnowflakeLayout, w1: nat, steps1: seq<Step>, w2: nat, steps2: seq<Step>, i: nat, j: nat)
    requires l.Valid() && w1 <= l.MaxWorkerId() && w2 <= l.MaxWorkerId() && w1 != w2
    requires i < |AllIds(l, w1, Run(l, START, steps1).issued)|
    requires j < |AllIds(l, w2, Run(l, START, steps2).issued)|
    ensures AllIds(l, w1, Run(l, START, steps1).issued)[i] != AllIds(l, w2, Run(l, START, steps2).issued)[j]
  {
    var m1, m2 := Run(l, START, steps1), Run(l, START, steps2);
    RunKeepsOrder(l, START, steps1);
    RunKeepsOrder(l, START, steps2);
    ChainedIdsIncrease(l, w1, m1.issued, Top(m1.word));
    ChainedIdsIncrease(l, w2, m2.issued, Top(m2.word));
    var a, b := AllIds(l, w1, m1.issued)[i], AllIds(l, w2, m2.issued)[j];
    var t1: nat, s1: nat :| l.Fits(t1, w1, s1) && a == IdAt(l, w1, t1, s1);
    var t2: nat, s2: nat :| l.Fits(t2, w2, s2) && b == IdAt(l, w2, t2, s2);
    WorkersDoNotCollide(l, w1, t1, s1, w2, t2, s2);
  }
}
