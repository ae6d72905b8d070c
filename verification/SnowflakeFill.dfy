/**
  The generator object: `reserve_at`, `fill` and `next_id`, each running while other threads keep
  swapping the shared word between any two of its own accesses.
 */
module SnowflakeFill {
  import opened Prelude
  import opened Bits
  import opened SnowflakeLayouts
  import opened SnowflakeGenerators

  datatype ReserveOutcome =
    | Reserved(reservation: IdReservation)
    | NothingLeft
    | LifetimeExceeded
    | ClockMovedBackwards
    | StillSpinning

  datatype FillOutcome = Filled | Failed(cause: FillError) | StillRunning

  datatype FillError = ClockUnreadable | ClockBehind | LifetimeOver

  /** The last clock reading explains the failure: unreadable, behind the word, or past the layout's lifetime. */
  predicate FailedAt(l: SnowflakeLayout, reading: Option<nat>, cause: FillError, word: nat) {
    match cause
    case ClockUnreadable => reading.None?
    case ClockBehind => reading.Some? && word != 0 && reading.value < LastTimestamp(l, word)
    case LifetimeOver => reading.Some? && reading.value >= Pow2(l.timestampBits)
  }

  class SnowflakeIdGenerator {
    const workerId: nat
    const layout: SnowflakeLayout
    var state: nat

    ghost predicate Valid()
      reads this
    {
      layout.Valid() && workerId <= layout.MaxWorkerId() && WordOk(layout, state)
    }

    constructor (worker: nat, l: SnowflakeLayout)
      requires l.Valid() && worker <= l.MaxWorkerId()
      ensures Valid() && workerId == worker && layout == l && Top(state) == -1
    {
      workerId, layout, state := worker, l, 0;
    }

    /** Any number of swaps by other threads: the word only grows (`NextKeepsOrder`). */
    method OthersRun()
      requires Valid()
      modifies this`state
      ensures Valid() && state >= old(state)
    {
      var w: nat :| WordOk(layout, w) && w >= state;
      state := w;
    }

    /**
      The reservation loop, cut off after `spins` rounds. A reservation lies after everything that
      was reserved when the call began, and no later than what is reserved when it returns.
     */
    method ReserveAt(timestamp: nat, requested: nat, spins: nat) returns (r: ReserveOutcome)
      requires Valid()
      modifies this`state
      ensures Valid() && state >= old(state)
      ensures r.Reserved? ==>
        && ReservationOk(layout, r.reservation)
        && r.reservation.timestamp == timestamp && r.reservation.count <= requested
        && (r.reservation.count == requested
            || r.reservation.start + r.reservation.count == Pow2(layout.sequenceBits))
        && Top(old(state)) < FirstPosition(layout, r.reservation)
        && LastPosition(layout, r.reservation) <= Top(state)
      ensures requested == 0 ==> r.NothingLeft? && state == old(state)
      ensures r.NothingLeft? && requested > 0 ==>
        state != 0 && LastTimestamp(layout, state) >= timestamp
      ensures r.ClockMovedBackwards? ==>
        state != 0 && LastTimestamp(layout, state) > timestamp
      ensures r.LifetimeExceeded? <==> requested > 0 && timestamp >= Pow2(layout.timestampBits)
      ensures r.StillSpinning? && spins > 0 ==> state > old(state)  // a lost swap means another one won
    {
      if requested == 0 { return NothingLeft; }
      if timestamp >= Pow2(layout.timestampBits) { return LifetimeExceeded; }
      for spin := 0 to spins
        invariant Valid() && state >= old(state) && (spin > 0 ==> state > old(state))
      {
        var current := state;
        OthersRun();
        PlanRefusals(layout, current, timestamp, requested);
        match PlanReservation(layout, current, timestamp, requested) {
          case MovedBackwards =>
            TimestampGrows(layout, current, state);
            return ClockMovedBackwards;
          case SequenceExhausted =>
            TimestampGrows(layout, current, state);
            return NothingLeft;
          case Reserve(next, reservation) =>
            if state == current {
              PlanAdvances(layout, current, timestamp, requested);
              state := next;
              OthersRun();
              return Reserved(reservation);
            }
        }
        OthersRun();
      }
      return StillSpinning;
    }

    /** Writes the ids of one reservation into its stretch of the buffer and nothing else. */
    method WriteReservation(destination: array<nat>, written: nat, r: IdReservation)
      requires written + r.count <= destination.Length
      modifies destination
      ensures destination[..]
           == old(destination[..written]) + IdsOf(layout, workerId, r) + old(destination[written + r.count..])
    {
      var base := Or(Shl(r.timestamp, layout.TimestampShift()), Shl(workerId, layout.sequenceBits));
      for offset := 0 to r.count
        invariant destination[..written] == old(destination[..written])
        invariant destination[written..written + offset] == IdsOf(layout, workerId, r)[..offset]
        invariant destination[written + offset..] == old(destination[written + offset..])
      {
        destination[written + offset] := Or(base, r.start + offset);
        assert IdsOf(layout, workerId, r)[offset] == destination[written + offset];
      }
      assert destination[..]
          == destination[..written] + destination[written..written + r.count] + destination[written + r.count..];
    }

    /**
      Fills a whole buffer from successive clock readings (`None`: the clock could not be read).
      When it succeeds the buffer is strictly increasing, and every id in it belongs to this
      worker and to a position reserved during the call.
     */
    method Fill(destination: array<nat>, clock: seq<Option<nat>>, spins: nat)
        returns (r: FillOutcome, used: nat)
      requires Valid()
      modifies this`state, destination
      ensures Valid() && state >= old(state)
      ensures r.Filled? ==> StrictlyIncreasing(destination[..])
      ensures r.Filled? ==> forall k :: 0 <= k < destination.Length ==>
        IssuedBetween(layout, workerId, destination[..][k], Top(old(state)), Top(state))
      ensures used <= |clock| && (r.Failed? ==> used > 0)
      ensures r.Failed? ==> FailedAt(layout, clock[used - 1], r.cause, state)
      ensures r.StillRunning? ==> used == |clock| || spins == 0 || state > old(state)
    {
      used := 0;
      ghost var low := Top(state);
      if |clock| == 0 { return StillRunning, used; }
      used := 1;
      if clock[0].None? { return Failed(ClockUnreadable), used; }
      var timestamp, written := clock[0].value, 0;
      while written < destination.Length
        invariant Valid() && state >= old(state)
        invariant 0 <= written <= destination.Length && 1 <= used <= |clock|
        invariant clock[used - 1] == Some(timestamp)
        invariant StrictlyIncreasing(destination[..written])
        invariant forall k :: 0 <= k < written ==>
          IssuedBetween(layout, workerId, destination[..][k], low, Top(state))
        decreases |clock| - used
      {
        ghost var mid := Top(state);
        var outcome := ReserveAt(timestamp, destination.Length - written, spins);
        match outcome {
          case StillSpinning => return StillRunning, used;
          case LifetimeExceeded => return Failed(LifetimeOver), used;
          case ClockMovedBackwards => return Failed(ClockBehind), used;
          case NothingLeft =>
            var later;
            later, used := WaitForNextMillis(clock, used, timestamp);
            WidenAll(layout, workerId, destination[..written], low, mid, Top(state));
            if later.StillWaiting? { return StillRunning, used; }
            if later.Unreadable? { return Failed(ClockUnreadable), used; }
            timestamp := later.offset;
          case Reserved(reservation) =>
            ghost var before := destination[..];
            WriteReservation(destination, written, reservation);
            Extend(layout, workerId, before[..written], reservation, low, mid, Top(state));
            assert destination[..written + reservation.count]
                == before[..written] + IdsOf(layout, workerId, reservation);
            written := written + reservation.count;
            if used == |clock| { return StillRunning, used; }
            used := used + 1;
            if clock[used - 1].None? { return Failed(ClockUnreadable), used; }
            timestamp := clock[used - 1].value;
        }
      }
      assert destination[..] == destination[..written];
      return Filled, used;
    }

    /** One id, as a one-element fill. */
    method NextId(clock: seq<Option<nat>>, spins: nat) returns (r: FillOutcome, id: nat, used: nat)
      requires Valid()
      modifies this`state
      ensures Valid() && state >= old(state)
      ensures r.Filled? ==> IssuedBetween(layout, workerId, id, Top(old(state)), Top(state))
      ensures used <= |clock| && (r.Failed? ==> used > 0)
      ensures r.Failed? ==> FailedAt(layout, clock[used - 1], r.cause, state)
      ensures r.StillRunning? ==> used == |clock| || spins == 0 || state > old(state)
    {
      var one := new nat[1];
      one[0] := 0;
      r, used := Fill(one, clock, spins);
      id := one[..][0];
    }
  }

  /** Creates a generator; refused exactly for an unusable layout or a worker beyond it. */
  method NewGenerator(worker: nat, l: SnowflakeLayout) returns (r: Option<SnowflakeIdGenerator>)
    ensures r.Some? <==>
      && l.timestampBits + l.workerIdBits + l.sequenceBits == 63
      && 30 <= l.timestampBits <= 50 && l.workerIdBits <= 20 && l.sequenceBits <= 20
      && worker < Pow2(l.workerIdBits)
    ensures r.Some? ==>
      fresh(r.value) && r.value.Valid() && r.value.workerId == worker && r.value.layout == l && Top(r.value.state) == -1
  {
    if !l.Valid() || worker > l.MaxWorkerId() { return None; }
    var generator := new SnowflakeIdGenerator(worker, l);
    return Some(generator);
  }

  datatype Wait = StillWaiting | Unreadable | Later(offset: nat)

  /** Reads the clock until it passes `last`. */
  method WaitForNextMillis(clock: seq<Option<nat>>, start: nat, last: nat) returns (w: Wait, used: nat)
    requires start <= |clock|
    ensures start <= used <= |clock| && (!w.StillWaiting? ==> start < used)
    ensures w.Later? ==> clock[used - 1] == Some(w.offset) && w.offset > last
    ensures w.Unreadable? ==> clock[used - 1].None?
    ensures forall k :: start <= k < used - 1 ==> clock[k].Some? && clock[k].value <= last
    ensures w.StillWaiting? ==> used == |clock|
  {
    used := start;
    while used < |clock|
      invariant start <= used <= |clock|
      invariant forall k :: start <= k < used ==> clock[k].Some? && clock[k].value <= last
    {
      used := used + 1;
      if clock[used - 1].None? { return Unreadable, used; }
      if clock[used - 1].value > last { return Later(clock[used - 1].value), used; }
    }
    return StillWaiting, used;
  }

  lemma TimestampGrows(l: SnowflakeLayout, a: nat, b: nat)
    requires l.Valid() && WordOk(l, a) && WordOk(l, b) && a != 0 && a <= b
    ensures LastTimestamp(l, a) <= LastTimestamp(l, b)
  {
    WordDecodes(l, a);
    WordDecodes(l, b);
    if LastTimestamp(l, b) < LastTimestamp(l, a) {
      FieldsBelow(LastTimestamp(l, b), LastTimestamp(l, a), LastSequence(l, b), l.sequenceBits);
      assert false;
    }
  }

  lemma WidenAll(l: SnowflakeLayout, worker: nat, ids: seq<nat>, low: int, mid: int, high: int)
    requires mid <= high
    requires forall k :: 0 <= k < |ids| ==> IssuedBetween(l, worker, ids[k], low, mid)
    ensures forall k :: 0 <= k < |ids| ==> IssuedBetween(l, worker, ids[k], low, high)
  {
    forall k | 0 <= k < |ids| ensures IssuedBetween(l, worker, ids[k], low, high) {
      BetweenWidens(l, worker, ids[k], low, mid, low, high);
    }
  }

  lemma Extend(l: SnowflakeLayout, worker: nat, ids: seq<nat>, r: IdReservation, low: int, mid: int, high: int)
    requires l.Valid() && worker <= l.MaxWorkerId() && ReservationOk(l, r) && low <= mid
    requires mid < FirstPosition(l, r) && LastPosition(l, r) <= high
    requires StrictlyIncreasing(ids)
    requires forall k :: 0 <= k < |ids| ==> IssuedBetween(l, worker, ids[k], low, mid)
    ensures var all := ids + IdsOf(l, worker, r);
      StrictlyIncreasing(all) && forall k :: 0 <= k < |all| ==> IssuedBetween(l, worker, all[k], low, high)
  {
    IdsOfReservation(l, worker, r);
    var more := IdsOf(l, worker, r);
    forall k | 0 <= k < |more|
      ensures IssuedBetween(l, worker, more[k], mid, high)
      ensures IssuedBetween(l, worker, more[k], low, high)
    {
      BetweenWidens(l, worker, more[k], FirstPosition(l, r) - 1, LastPosition(l, r), mid, high);
      BetweenWidens(l, worker, more[k], mid, high, low, high);
    }
    WidenAll(l, worker, ids, low, mid, high);
    forall i, j | 0 <= i < |ids| && 0 <= j < |more| ensures ids[i] < more[j] {
      BetweenOrders(l, worker, ids[i], more[j], low, mid, high);
    }
  }
}
