/**
  Durable due-work leases. A schedule row belongs to one (flow, state) target; a claim stamps an
  owner and a lease deadline on due rows, and the owner acknowledges, releases or renews it.
 */
module Schedules {
  import opened Prelude
  import opened FlowStates
  import opened ScheduleTimes

  /** Row identities, ordered as the database orders them. */
  type ScheduleId = int

  datatype Row = Row(
    flowId: string, stateId: string, dueMs: int, dueNs: int, leaseOwner: Option<string>, leaseUntil: Option<int>)

  type Table = map<ScheduleId, Row>

  /** No owner, no deadline, or a deadline that has passed. */
  predicate Free(r: Row, nowMs: int) {
    r.leaseOwner.None? || r.leaseUntil.None? || r.leaseUntil.value <= nowMs
  }

  predicate SameTarget(r: Row, flowId: string, stateId: string) {
    r.flowId == flowId && r.stateId == stateId
  }

  // ---------------------------------------------------------------------------------------------
  // The atomic statements.

  function InsertRow(t: Table, id: ScheduleId, flowId: string, stateId: string, due: int): Table {
    if exists other :: other in t && SameTarget(t[other], flowId, stateId) then t
    else t[id := Row(flowId, stateId, MillisAndNanos(due).0, MillisAndNanos(due).1, None, None)]
  }

  function Lease(r: Row, owner: string, until: int): Row {
    r.(leaseOwner := Some(owner), leaseUntil := Some(until))
  }

  /** Leases every chosen row that is free. */
  function LeaseRows(t: Table, ids: set<ScheduleId>, owner: string, nowMs: int, until: int): Table {
    map id | id in t :: if id in ids && Free(t[id], nowMs) then Lease(t[id], owner, until) else t[id]
  }

  function DeleteFree(t: Table, id: ScheduleId, nowMs: int): (bool, Table) {
    if id in t && Free(t[id], nowMs) then (true, t - {id}) else (false, t)
  }

  function DeleteOwned(t: Table, id: ScheduleId, owner: string): (bool, Table) {
    if id in t && t[id].leaseOwner == Some(owner) then (true, t - {id}) else (false, t)
  }

  function ReleaseOwned(t: Table, id: ScheduleId, owner: string): (bool, Table) {
    if id in t && t[id].leaseOwner == Some(owner)
    then (true, t[id := t[id].(leaseOwner := None, leaseUntil := None)])
    else (false, t)
  }

  function RenewOwned(t: Table, id: ScheduleId, owner: string, nowMs: int, until: int): (bool, Table) {
    if id in t && t[id].leaseOwner == Some(owner) && t[id].leaseUntil.Some? && t[id].leaseUntil.value > nowMs
    then (true, t[id := t[id].(leaseUntil := Some(until))])
    else (false, t)
  }

  // ---------------------------------------------------------------------------------------------
  // Any number of workers.

  /** `created`, `acked` and `cancelled` record the fate of every identity ever inserted. */
  datatype Store = Store(
    rows: Table, created: set<ScheduleId>, acked: seq<ScheduleId>, cancelled: seq<ScheduleId>)

  datatype Step =
    | Insert(id: ScheduleId, flowId: string, stateId: string, due: int)
    | Cancel(id: ScheduleId, nowMs: int)
    | ClaimDue(ids: set<ScheduleId>, owner: string, nowMs: int, until: int)
    | Ack(owner: string, id: ScheduleId)
    | Release(owner: string, id: ScheduleId)
    | Renew(owner: string, id: ScheduleId, nowMs: int, until: int)

  /** One atomic step and the answer its caller sees. Inserted identities are fresh. */
  function Next(s: Store, step: Step): (bool, Store) {
    match step
    case Insert(id, flowId, stateId, due) =>
      if id in s.created || id in s.rows then (false, s)
      else
        var rows := InsertRow(s.rows, id, flowId, stateId, due);
        (id in rows, s.(rows := rows, created := if id in rows then s.created + {id} else s.created))
    case Cancel(id, nowMs) =>
      var (ok, rows) := DeleteFree(s.rows, id, nowMs);
      (ok, s.(rows := rows, cancelled := if ok then s.cancelled + [id] else s.cancelled))
    case ClaimDue(ids, owner, nowMs, until) =>
      (true, s.(rows := LeaseRows(s.rows, ids, owner, nowMs, until)))
    case Ack(owner, id) =>
      var (ok, rows) := DeleteOwned(s.rows, id, owner);
      (ok, s.(rows := rows, acked := if ok then s.acked + [id] else s.acked))
    case Release(owner, id) =>
      var (ok, rows) := ReleaseOwned(s.rows, id, owner); (ok, s.(rows := rows))
    case Renew(owner, id, nowMs, until) =>
      var (ok, rows) := RenewOwned(s.rows, id, owner, nowMs, until); (ok, s.(rows := rows))
  }

  function Run(s: Store, steps: seq<Step>): Store
    decreases |steps|
  {
    if steps == [] then s else Run(Next(s, steps[0]).1, steps[1..])
  }

  const EMPTY := Store(map[], {}, [], [])

  ghost predicate NoDuplicates(ids: seq<ScheduleId>) {
    forall i, j :: 0 <= i < j < |ids| ==> ids[i] != ids[j]
  }

  predicate OneRowPerTarget(t: Table) {
    forall a, b :: a in t && b in t && SameTarget(t[a], t[b].flowId, t[b].stateId) ==> a == b
  }

  /** Every created identity is present, acknowledged once, or cancelled once, and only one of these. */
  ghost predicate Conserved(s: Store) {
    && NoDuplicates(s.acked) && NoDuplicates(s.cancelled)
    && s.rows.Keys <= s.created
    && (forall id :: id in s.acked ==> id in s.created && id !in s.rows && id !in s.cancelled)
    && (forall id :: id in s.cancelled ==> id in s.created && id !in s.rows && id !in s.acked)
    && (forall id :: id in s.created ==> id in s.rows || id in s.acked || id in s.cancelled)
  }

  lemma {:induction false} NextConserves(s: Store, step: Step)
    requires Conserved(s) && OneRowPerTarget(s.rows)
    ensures Conserved(Next(s, step).1) && OneRowPerTarget(Next(s, step).1.rows)
    ensures s.created <= Next(s, step).1.created
  {
  }

  /** Over every run, scheduled work is conserved and each target has at most one live row. */
  lemma {:induction false} WorkIsConserved(s: Store, steps: seq<Step>)
    requires Conserved(s) && OneRowPerTarget(s.rows)
    ensures Conserved(Run(s, steps)) && OneRowPerTarget(Run(s, steps).rows)
    ensures s.created <= Run(s, steps).created
    decreases |steps|
  {
    if steps != [] {
      NextConserves(s, steps[0]);
      WorkIsConserved(Next(s, steps[0]).1, steps[1..]);
    }
  }

  /**
    Scheduling a target that already has a row changes nothing: the first row keeps its due time
    and its lease. (The type's documentation says the due time is replaced.)
   */
  lemma ReschedulingKeepsFirstRow(t: Table, first: ScheduleId, id: ScheduleId, due: int)
    requires first in t
    ensures InsertRow(t, id, t[first].flowId, t[first].stateId, due) == t
  {
    assert SameTarget(t[first], t[first].flowId, t[first].stateId);
  }

  /** A row of the target carries this due time. */
  ghost predicate TargetIsDueAt(t: Table, flowId: string, stateId: string, due: int) {
    exists id :: id in t && SameTarget(t[id], flowId, stateId) && DueAt(t[id], due)
  }

  predicate DueAt(r: Row, due: int) {
    (r.dueMs, r.dueNs) == MillisAndNanos(due)
  }

  /**
    Scheduling gives the target the requested due time, as documented, if and only if the target
    had no row, or one that was due at that time already.
   */
  lemma {:induction false} DueTimeTakenExactlyWhen(
    t: Table, id: ScheduleId, flowId: string, stateId: string, due: int)
    requires OneRowPerTarget(t) && id !in t
    ensures TargetIsDueAt(InsertRow(t, id, flowId, stateId, due), flowId, stateId, due)
      <==> forall x :: x in t && SameTarget(t[x], flowId, stateId) ==> DueAt(t[x], due)
  {
    var t' := InsertRow(t, id, flowId, stateId, due);
    if x :| x in t && SameTarget(t[x], flowId, stateId) {
      assert t' == t;
      forall y | y in t && SameTarget(t[y], flowId, stateId) ensures y == x {
        assert SameTarget(t[y], t[x].flowId, t[x].stateId);
      }
    } else {
      assert id in t' && SameTarget(t'[id], flowId, stateId) && DueAt(t'[id], due);
    }
  }

  /** For instance a row due at the epoch stays due then when its target is rescheduled five milliseconds later. */
  lemma ReschedulingCanBeIgnored(flowId: string, stateId: string)
    ensures var t := map[0 := Row(flowId, stateId, 0, 0, None, None)];
      && InsertRow(t, 1, flowId, stateId, 5_000_000) == t
      && !TargetIsDueAt(InsertRow(t, 1, flowId, stateId, 5_000_000), flowId, stateId, 5_000_000)
  {
    var t := map[0 := Row(flowId, stateId, 0, 0, None, None)];
    ReschedulingKeepsFirstRow(t, 0, 1, 5_000_000);
    assert !DueAt(t[0], 5_000_000);
  }

  // ---------------------------------------------------------------------------------------------
  // Lease safety.

  ghost predicate Holds(t: Table, id: ScheduleId, owner: string, until: int) {
    id in t && t[id].leaseOwner == Some(owner) && t[id].leaseUntil == Some(until)
  }

  /** The step is not the owner's own, and if it claims or cancels this row it reads a clock before `until`. */
  predicate Respects(step: Step, id: ScheduleId, owner: string, until: int) {
    match step
    case Cancel(i, nowMs) => i != id || nowMs < until
    case ClaimDue(ids, _, nowMs, _) => id !in ids || nowMs < until
    case Ack(o, i) => o != owner || i != id
    case Release(o, i) => o != owner || i != id
    case Renew(o, i, _, _) => o != owner || i != id
    case Insert(_, _, _, _) => true
  }

  /**
    Once an owner holds a row until `until`, no claim or cancel of it that reads an earlier clock
    takes it, in any run, until that owner itself acknowledges, releases or renews it. Other rows may
    be claimed and cancelled at any clock.
   */
  lemma {:induction false} LeaseIsExclusive(s: Store, steps: seq<Step>, id: ScheduleId, owner: string, until: int)
    requires Holds(s.rows, id, owner, until)
    requires forall k :: 0 <= k < |steps| ==> Respects(steps[k], id, owner, until)
    ensures id in Run(s, steps).rows && Run(s, steps).rows[id] == s.rows[id]
    decreases |steps|
  {
    if steps != [] {
      assert Respects(steps[0], id, owner, until);
      LeaseIsExclusive(Next(s, steps[0]).1, steps[1..], id, owner, until);
    }
  }

  /** `owner` holds no lease on this identity, present or gone. */
  ghost predicate NotHolder(s: Store, id: ScheduleId, owner: string) {
    id in s.created && (id in s.rows ==> s.rows[id].leaseOwner != Some(owner))
  }

  predicate OwnersStep(step: Step, id: ScheduleId, owner: string) {
    match step
    case Ack(o, i) => o == owner && i == id
    case Release(o, i) => o == owner && i == id
    case Renew(o, i, _, _) => o == owner && i == id
    case _ => false
  }

  /**
    After another owner has taken a row (or it was released, acknowledged or cancelled), every
    acknowledgement, release and renewal by the former owner answers false and changes nothing,
    in every later state, unless the former owner claims this row again.
   */
  lemma {:induction false} FormerOwnerIsFenced(s: Store, steps: seq<Step>, step: Step, id: ScheduleId, owner: string)
    requires NotHolder(s, id, owner)
    requires forall k :: 0 <= k < |steps| && steps[k].ClaimDue? ==> steps[k].owner != owner || id !in steps[k].ids
    requires OwnersStep(step, id, owner)
    ensures NotHolder(Run(s, steps), id, owner)
    ensures Next(Run(s, steps), step) == (false, Run(s, steps))
    decreases |steps|
  {
    if steps != [] {
      var s' := Next(s, steps[0]).1;
      assert NotHolder(s', id, owner);
      FormerOwnerIsFenced(s', steps[1..], step, id, owner);
    }
  }

  /** A claim by somebody else makes the previous holder a former owner. */
  lemma ClaimDisplaces(s: Store, ids: set<ScheduleId>, claimer: string, nowMs: int, until: int,
                       id: ScheduleId, owner: string)
    requires Conserved(s) && id in s.rows && id in ids && Free(s.rows[id], nowMs) && claimer != owner
    ensures NotHolder(Next(s, ClaimDue(ids, claimer, nowMs, until)).1, id, owner)
    ensures Holds(Next(s, ClaimDue(ids, claimer, nowMs, until)).1.rows, id, claimer, until)
  {
  }

  /** A renewal moves only the deadline of its own row; a release frees it at once; neither touches another. */
  lemma OwnersStepEffects(s: Store, step: Step, id: ScheduleId, owner: string)
    requires OwnersStep(step, id, owner) && Next(s, step).0
    ensures var t, t' := s.rows, Next(s, step).1.rows;
      && id in t && t[id].leaseOwner == Some(owner) && t' - {id} == t - {id}
      && (step.Ack? ==> id !in t')
      && (step.Release? ==> t'[id] == t[id].(leaseOwner := None, leaseUntil := None) && forall now :: Free(t'[id], now))
      && (step.Renew? ==> Holds(t', id, owner, step.until) && t'[id] == t[id].(leaseUntil := Some(step.until)))
  {
  }

  /** Where the due test is exact, a newly scheduled row is free, and due exactly from its due time on. */
  lemma ScheduledBecomesDue(t: Table, id: ScheduleId, flowId: string, stateId: string, due: int, now: int)
    requires (now >= 0 || now % 1_000_000 == 0) && id !in t
    requires forall other :: other in t ==> t[other].flowId != flowId || t[other].stateId != stateId
    ensures var t' := InsertRow(t, id, flowId, stateId, due);
      && id in t' && t'[id].flowId == flowId && t'[id].stateId == stateId && Free(t'[id], UnixMillis(now))
      && TimeOf(t'[id].dueMs, t'[id].dueNs) == due
      && (IsDue(t'[id], ClaimClock(now).0, ClaimClock(now).1) <==> due <= now)
  {
    DueTestIsExactWhen(now);
    ScheduledTimeIsExact(due, now);
    var inserted := InsertRow(t, id, flowId, stateId, due)[id];
    assert IsDue(inserted, ClaimClock(now).0, ClaimClock(now).1) <==> DueTest(due, now);
  }

  /**
    Scheduling under a new identity adds exactly one row, unheld and with the exact due time, if no
    row has the same flow and state; otherwise it adds nothing.
   */
  lemma SchedulesExactlyWhen(s: Store, id: ScheduleId, flowId: string, stateId: string, due: int)
    ensures var (ok, s') := Next(s, Insert(id, flowId, stateId, due));
      && (ok <==> && id !in s.created && id !in s.rows
                  && forall other :: other in s.rows ==>
                       s.rows[other].flowId != flowId || s.rows[other].stateId != stateId)
      && (ok ==> && s'.created == s.created + {id}
                 && s'.rows == s.rows[id := Row(flowId, stateId, due / 1_000_000, due % 1_000_000, None, None)])
      && (!ok ==> s' == s)
  {
    SplitIsFloor(due);
  }

  // ---------------------------------------------------------------------------------------------
  // Which rows a claim takes.

  /** Earlier due time first, identity breaking ties. */
  predicate Before(t: Table, a: ScheduleId, b: ScheduleId)
    requires a in t && b in t
  {
    || t[a].dueMs < t[b].dueMs
    || (t[a].dueMs == t[b].dueMs && t[a].dueNs < t[b].dueNs)
    || (t[a].dueMs == t[b].dueMs && t[a].dueNs == t[b].dueNs && a < b)
  }

  predicate IsDue(r: Row, nowMs: int, nowNs: int) {
    NotAfter((r.dueMs, r.dueNs), (nowMs, nowNs))
  }

  function Candidates(t: Table, locked: set<ScheduleId>, nowMs: int, nowNs: int): set<ScheduleId> {
    set id | id in t && id !in locked && IsDue(t[id], nowMs, nowNs) && Free(t[id], nowMs)
  }

  lemma {:induction false} EarliestExists(t: Table, ids: set<ScheduleId>) returns (first: ScheduleId)
    requires ids != {} && ids <= t.Keys
    ensures first in ids && forall x :: x in ids && x != first ==> Before(t, first, x)
    decreases |ids|
  {
    if exists a :: a in ids && ids == {a} {
      first :| first in ids && ids == {first};
    } else {
      assert (forall a :: a !in ids) ==> ids == {};
      var a :| a in ids;
      assert ids - {a} != {};
      var rest := EarliestExists(t, ids - {a});
      first := if Before(t, a, rest) then a else rest;
      forall x | x in ids && x != first ensures Before(t, first, x) {
        assert x == a || x in ids - {a};
      }
    }
  }

  /** The first `limit` of a set of rows in claim order. */
  ghost function Earliest(t: Table, ids: set<ScheduleId>, limit: nat): (r: seq<ScheduleId>)
    requires ids <= t.Keys
  {
    if limit == 0 || ids == {} then []
    else
      EarliestUsable(t, ids);
      var first :| first in ids && forall x :: x in ids && x != first ==> Before(t, first, x);
      [first] + Earliest(t, ids - {first}, limit - 1)
  }

  lemma EarliestUsable(t: Table, ids: set<ScheduleId>)
    requires ids != {} && ids <= t.Keys
    ensures exists first :: first in ids && forall x :: x in ids && x != first ==> Before(t, first, x)
  {
    var first := EarliestExists(t, ids);
  }

  /**
    What the ordered, limited selection means: it picks distinct rows of the set in claim order, as
    many as the limit and the set allow, and every row it leaves out comes after all it picked.
   */
  lemma {:induction false} EarliestMeaning(t: Table, ids: set<ScheduleId>, limit: nat)
    requires ids <= t.Keys
    ensures |Earliest(t, ids, limit)| == Min(limit, |ids|)
    ensures forall x :: x in Earliest(t, ids, limit) ==> x in ids
    ensures forall i, j :: 0 <= i < j < |Earliest(t, ids, limit)| ==>
      Before(t, Earliest(t, ids, limit)[i], Earliest(t, ids, limit)[j])
    ensures forall x, k :: x in ids && x !in Earliest(t, ids, limit) && 0 <= k < |Earliest(t, ids, limit)| ==>
      Before(t, Earliest(t, ids, limit)[k], x)
    decreases limit
  {
    if limit > 0 && ids != {} {
      var picked := Earliest(t, ids, limit);
      var first := picked[0];
      assert picked[1..] == Earliest(t, ids - {first}, limit - 1);
      EarliestMeaning(t, ids - {first}, limit - 1);
    }
  }

  function Elements(ids: seq<ScheduleId>): set<ScheduleId> {
    set i | 0 <= i < |ids| :: ids[i]
  }

  /** Leasing one more free row extends the leased set by it. */
  lemma LeaseOneMore(t: Table, ids: set<ScheduleId>, id: ScheduleId, owner: string, nowMs: int, until: int)
    requires id in t && id !in ids && Free(t[id], nowMs)
    ensures var leased := LeaseRows(t, ids, owner, nowMs, until);
      && leased[id] == t[id]
      && leased[id := Lease(t[id], owner, until)] == LeaseRows(t, ids + {id}, owner, nowMs, until)
  {
  }

  /** The rows are present, free and distinct. */
  ghost predicate AllFree(t: Table, selected: seq<ScheduleId>, nowMs: int) {
    forall i :: 0 <= i < |selected| ==>
      selected[i] in t && Free(t[selected[i]], nowMs) && selected[i] !in Elements(selected[..i])
  }

  lemma LeaseNone(t: Table, selected: seq<ScheduleId>, owner: string, nowMs: int, until: int)
    ensures LeaseRows(t, Elements(selected[..0]), owner, nowMs, until) == t
  {
  }

  /** The i-th selected row is still free when its turn comes, and leasing it extends the leased prefix. */
  lemma LeaseNext(t: Table, selected: seq<ScheduleId>, i: nat, owner: string, nowMs: int, until: int)
    requires i < |selected| && AllFree(t, selected, nowMs)
    ensures var leased := LeaseRows(t, Elements(selected[..i]), owner, nowMs, until);
      && selected[i] in leased && Free(leased[selected[i]], nowMs)
      && leased[selected[i] := Lease(leased[selected[i]], owner, until)]
         == LeaseRows(t, Elements(selected[..i + 1]), owner, nowMs, until)
  {
    assert Elements(selected[..i + 1]) == Elements(selected[..i]) + {selected[i]};
    LeaseOneMore(t, Elements(selected[..i]), selected[i], owner, nowMs, until);
  }

  /** The selected rows are distinct, present and free. */
  lemma SelectionIsFree(
    t: Table, locked: set<ScheduleId>, nowMs: int, nowNs: int, limit: nat, selected: seq<ScheduleId>)
    requires selected == Earliest(t, Candidates(t, locked, nowMs, nowNs), limit)
    ensures AllFree(t, selected, nowMs)
  {
    EarliestMeaning(t, Candidates(t, locked, nowMs, nowNs), limit);
    forall i | 0 <= i < |selected|
      ensures selected[i] in t && Free(t[selected[i]], nowMs) && selected[i] !in Elements(selected[..i])
    {
      assert selected[i] in Candidates(t, locked, nowMs, nowNs);
    }
  }

  /** The statement answers and does what the step of the machine answers and does. */
  ghost predicate IsStep(before: Table, step: Step, ok: bool, after: Table) {
    forall s: Store :: s.rows == before ==> Next(s, step).0 == ok && Next(s, step).1.rows == after
  }

  /** `owner` holds the row, whether or not its lease has run out. */
  ghost predicate HeldBy(t: Table, id: ScheduleId, owner: string) {
    id in t && t[id].leaseOwner == Some(owner)
  }

  ghost predicate SameWork(a: Row, b: Row) {
    a.flowId == b.flowId && a.stateId == b.stateId && a.dueMs == b.dueMs && a.dueNs == b.dueNs
  }

  ghost predicate UntouchedBut(before: Table, after: Table, id: ScheduleId) {
    before - {id} == after - {id}
  }

  function DueTime(r: Row): int {
    TimeOf(r.dueMs, r.dueNs)
  }

  /** Stored remainders are less than a millisecond, so pairs order as the times they stand for. */
  predicate TimesOk(t: Table) {
    forall id :: id in t ==> 0 <= t[id].dueNs < 1_000_000
  }

  lemma {:induction false} TimesStayOk(s: Store, steps: seq<Step>)
    requires TimesOk(s.rows)
    ensures TimesOk(Run(s, steps).rows)
    decreases |steps|
  {
    if steps != [] {
      if steps[0].Insert? { SplitIsFloor(steps[0].due); }
      TimesStayOk(Next(s, steps[0]).1, steps[1..]);
    }
  }

  /** Clocks at which the due test compares times exactly. */
  predicate ExactClock(now: int) {
    now >= 0 || now % 1_000_000 == 0
  }

  /** The row is there to be claimed: not locked, due, and not held past the clock. */
  ghost predicate Takeable(t: Table, locked: set<ScheduleId>, id: ScheduleId, now: int) {
    && id in t && id !in locked && DueTime(t[id]) <= now
    && forall owner, until :: Holds(t, id, owner, until) ==> until <= UnixMillis(now)
  }

  /** Distinct takeable rows, earliest first, and as many of the earliest as the limit allows. */
  ghost predicate FirstDue(t: Table, locked: set<ScheduleId>, now: int, limit: nat, ids: seq<ScheduleId>) {
    && |ids| <= limit
    && (forall i :: 0 <= i < |ids| ==> Takeable(t, locked, ids[i], now))
    && (forall i, j :: 0 <= i < j < |ids| ==> ids[i] != ids[j] && DueTime(t[ids[i]]) <= DueTime(t[ids[j]]))
    && (forall id :: Takeable(t, locked, id, now) && id !in ids ==>
          |ids| == limit && forall k :: 0 <= k < |ids| ==> DueTime(t[ids[k]]) <= DueTime(t[id]))
  }

  /** Claim order is by due time, identity breaking ties. */
  lemma BeforeIsByTime(t: Table, a: ScheduleId, b: ScheduleId)
    requires TimesOk(t) && a in t && b in t
    ensures Before(t, a, b) <==> DueTime(t[a]) < DueTime(t[b]) || (DueTime(t[a]) == DueTime(t[b]) && a < b)
  {
  }

  lemma {:induction false} CandidateIsTakeable(t: Table, locked: set<ScheduleId>, id: ScheduleId, now: int)
    requires TimesOk(t) && ExactClock(now) && id in t
    ensures id in Candidates(t, locked, ClaimClock(now).0, ClaimClock(now).1) <==> Takeable(t, locked, id, now)
  {
    SplitIsFloor(now);
    SplitIsFloor(DueTime(t[id]));
    ScheduledTimeIsExact(DueTime(t[id]), now);
    assert ClaimClock(now) == MillisAndNanos(now);
    if t[id].leaseOwner.Some? && t[id].leaseUntil.Some? {
      assert Holds(t, id, t[id].leaseOwner.value, t[id].leaseUntil.value);
    }
  }

  /** At a clock where the due test is exact, a claim selects the first due rows. */
  lemma {:induction false} SelectionIsFirstDue(
    t: Table, locked: set<ScheduleId>, now: int, limit: nat, selected: seq<ScheduleId>)
    requires TimesOk(t) && ExactClock(now)
    requires selected == Earliest(t, Candidates(t, locked, ClaimClock(now).0, ClaimClock(now).1), limit)
    ensures FirstDue(t, locked, now, limit, selected)
  {
    var candidates := Candidates(t, locked, ClaimClock(now).0, ClaimClock(now).1);
    EarliestMeaning(t, candidates, limit);
    forall id | id in t ensures id in candidates <==> Takeable(t, locked, id, now) {
      CandidateIsTakeable(t, locked, id, now);
    }
    forall i | 0 <= i < |selected| ensures Takeable(t, locked, selected[i], now) {
      assert selected[i] in candidates;
    }
    forall i, j | 0 <= i < j < |selected|
      ensures selected[i] != selected[j] && DueTime(t[selected[i]]) <= DueTime(t[selected[j]])
    {
      BeforeIsByTime(t, selected[i], selected[j]);
    }
    forall id | Takeable(t, locked, id, now) && id !in selected
      ensures |selected| == limit && forall k :: 0 <= k < |selected| ==> DueTime(t[selected[k]]) <= DueTime(t[id])
    {
      MissedMeansFull(t, candidates, limit, selected, id);
    }
  }

  lemma SelectionIsFirstDueAt(
    t: Table, locked: set<ScheduleId>, nowMs: int, nowNs: int, limit: nat, selected: seq<ScheduleId>)
    requires TimesOk(t) && selected == Earliest(t, Candidates(t, locked, nowMs, nowNs), limit)
    ensures forall now :: ClaimClock(now) == (nowMs, nowNs) && ExactClock(now) ==>
      FirstDue(t, locked, now, limit, selected)
  {
    forall now | ClaimClock(now) == (nowMs, nowNs) && ExactClock(now)
      ensures FirstDue(t, locked, now, limit, selected)
    {
      SelectionIsFirstDue(t, locked, now, limit, selected);
    }
  }

  lemma {:induction false} MissedMeansFull(
    t: Table, ids: set<ScheduleId>, limit: nat, selected: seq<ScheduleId>, id: ScheduleId)
    requires TimesOk(t) && ids <= t.Keys && selected == Earliest(t, ids, limit) && id in ids && id !in selected
    ensures forall k :: 0 <= k < |selected| ==> selected[k] in ids
    ensures |selected| == limit && forall k :: 0 <= k < |selected| ==> DueTime(t[selected[k]]) <= DueTime(t[id])
    decreases limit
  {
    EarliestMeaning(t, ids, limit);
    forall k | 0 <= k < |selected| ensures DueTime(t[selected[k]]) <= DueTime(t[id]) {
      BeforeIsByTime(t, selected[k], id);
    }
    if limit > 0 {
      assert selected[1..] == Earliest(t, ids - {selected[0]}, limit - 1);
      MissedMeansFull(t, ids - {selected[0]}, limit - 1, selected[1..], id);
    }
  }

  /** These rows are leased to `owner` until `until` with their work unchanged, and no other row changed. */
  ghost predicate LeasedTo(before: Table, after: Table, ids: set<ScheduleId>, owner: string, until: int) {
    && after.Keys == before.Keys
    && forall id :: id in before ==>
         if id in ids then SameWork(before[id], after[id]) && Holds(after, id, owner, until)
         else after[id] == before[id]
  }

  lemma LeaseRowsLease(t: Table, selected: seq<ScheduleId>, owner: string, nowMs: int, until: int)
    requires AllFree(t, selected, nowMs)
    ensures LeasedTo(t, LeaseRows(t, Elements(selected), owner, nowMs, until), Elements(selected), owner, until)
  {
    forall id | id in Elements(selected) ensures id in t && Free(t[id], nowMs) {
      var i :| 0 <= i < |selected| && selected[i] == id;
    }
  }

  datatype ClaimOutcome = Leased(ids: seq<ScheduleId>) | LostEligibility

  class ScheduleTable {
    var rows: Table

    constructor ()
      ensures rows == map[]
    {
      rows := map[];
    }

    /** Other workers may do anything that keeps one row per target. */
    method OthersRun()
      requires OneRowPerTarget(rows)
      modifies this
      ensures OneRowPerTarget(rows)
    {
      var t :| OneRowPerTarget(t);
      rows := t;
    }

    /**
      Inserts unless the target has a row, then reads the target's row. Between the two statements
      others may run; the identity answered belongs to the target at the moment of the read, and
      it is the first row's identity if nobody touched the table in between.
     */
    method ScheduleResume(newId: ScheduleId, flowId: string, stateId: string, due: int)
        returns (r: Option<ScheduleId>, ghost inserted: Table)
      requires OneRowPerTarget(rows) && newId !in rows
      modifies this
      ensures OneRowPerTarget(rows) && inserted == InsertRow(old(rows), newId, flowId, stateId, due)
      ensures r.Some? ==> r.value in rows && SameTarget(rows[r.value], flowId, stateId)
      ensures r.None? ==> forall id :: id in rows ==> !SameTarget(rows[id], flowId, stateId)
      ensures rows == inserted ==> r.Some?
      ensures rows == inserted && (exists id :: id in old(rows) && SameTarget(old(rows)[id], flowId, stateId)) ==>
        r.Some? && r.value in old(rows) && rows == old(rows)
    {
      rows := InsertRow(rows, newId, flowId, stateId, due);
      inserted := rows;
      assert exists id :: id in inserted && SameTarget(inserted[id], flowId, stateId) by {
        if newId in inserted { assert SameTarget(inserted[newId], flowId, stateId); }
      }
      OthersRun();
      if exists id :: id in rows && SameTarget(rows[id], flowId, stateId) {
        var id :| id in rows && SameTarget(rows[id], flowId, stateId);
        return Some(id), inserted;
      }
      return None, inserted;
    }

    /** Cancels a row that nobody holds; a refusal means the row is gone or held past this clock. */
    method CancelResume(id: ScheduleId, nowMs: int) returns (ok: bool)
      modifies this
      ensures IsStep(old(rows), Cancel(id, nowMs), ok, rows)
      ensures ok ==> id in old(rows) && id !in rows && UntouchedBut(old(rows), rows, id)
      ensures !ok ==> rows == old(rows)
      ensures !ok && id in rows ==> exists owner, until :: Holds(rows, id, owner, until) && nowMs < until
    {
      ok := id in rows && Free(rows[id], nowMs);
      assert !ok && id in rows ==> Holds(rows, id, rows[id].leaseOwner.value, rows[id].leaseUntil.value);
      if ok { rows := rows - {id}; }
    }

    /**
      The server claim: one selection, then one guarded update per selected row. With the
      selection locked, no update can miss, so the eligibility error cannot happen, and the
      selected rows are leased exactly as one statement would lease them: the first due rows.
     */
    method ClaimDueByLoop(selected: seq<ScheduleId>, ghost locked: set<ScheduleId>, owner: string,
                          nowMs: int, nowNs: int, until: int, limit: nat) returns (r: ClaimOutcome)
      requires selected == Earliest(rows, Candidates(rows, locked, nowMs, nowNs), limit)
      modifies this
      ensures r == Leased(selected)
      ensures TimesOk(old(rows)) ==> forall now ::
        ClaimClock(now) == (nowMs, nowNs) && ExactClock(now) ==> FirstDue(old(rows), locked, now, limit, selected)
      ensures LeasedTo(old(rows), rows, Elements(selected), owner, until)
      ensures rows == LeaseRows(old(rows), Elements(selected), owner, nowMs, until)
    {
      if TimesOk(rows) { SelectionIsFirstDueAt(rows, locked, nowMs, nowNs, limit, selected); }
      SelectionIsFree(rows, locked, nowMs, nowNs, limit, selected);
      LeaseRowsLease(rows, selected, owner, nowMs, until);
      r := LeaseEach(selected, owner, nowMs, until);
    }

    /** The update loop: rows that are distinct and free are all leased; a missed update would end it. */
    method LeaseEach(selected: seq<ScheduleId>, owner: string, nowMs: int, until: int) returns (r: ClaimOutcome)
      requires AllFree(rows, selected, nowMs)
      modifies this
      ensures r == Leased(selected)
      ensures rows == LeaseRows(old(rows), Elements(selected), owner, nowMs, until)
    {
      var claimed := [];
      LeaseNone(rows, selected, owner, nowMs, until);
      for i := 0 to |selected|
        invariant claimed == selected[..i]
        invariant rows == LeaseRows(old(rows), Elements(selected[..i]), owner, nowMs, until)
      {
        LeaseNext(old(rows), selected, i, owner, nowMs, until);
        var changed := LeaseOne(selected[i], owner, nowMs, until);
        if !changed { return LostEligibility; }
        claimed := claimed + [selected[i]];
      }
      assert selected[..|selected|] == selected;
      return Leased(claimed);
    }

    /** One guarded lease update. */
    method LeaseOne(id: ScheduleId, owner: string, nowMs: int, until: int) returns (changed: bool)
      modifies this
      ensures changed <==> id in old(rows) && Free(old(rows)[id], nowMs)
      ensures changed ==> rows == old(rows)[id := Lease(old(rows)[id], owner, until)]
      ensures !changed ==> rows == old(rows)
    {
      changed := id in rows && Free(rows[id], nowMs);
      if changed { rows := rows[id := Lease(rows[id], owner, until)]; }
    }

    /** The single-statement claim: the same selection as a subquery, re-checked and returned as a set. */
    method ClaimDueByStatement(selected: seq<ScheduleId>, owner: string,
                               nowMs: int, nowNs: int, until: int, limit: nat) returns (r: set<ScheduleId>)
      requires selected == Earliest(rows, Candidates(rows, {}, nowMs, nowNs), limit)
      modifies this
      ensures r == Elements(selected)
      ensures TimesOk(old(rows)) ==> forall now ::
        ClaimClock(now) == (nowMs, nowNs) && ExactClock(now) ==> FirstDue(old(rows), {}, now, limit, selected)
      ensures LeasedTo(old(rows), rows, r, owner, until)
      ensures rows == LeaseRows(old(rows), Elements(selected), owner, nowMs, until)
    {
      if TimesOk(rows) { SelectionIsFirstDueAt(rows, {}, nowMs, nowNs, limit, selected); }
      SelectionIsFree(rows, {}, nowMs, nowNs, limit, selected);
      LeaseRowsLease(rows, selected, owner, nowMs, until);
      r := set id | id in rows && id in Elements(selected) && Free(rows[id], nowMs);
      assert r == Elements(selected);
      rows := map id | id in rows :: if id in r then Lease(rows[id], owner, until) else rows[id];
    }

    /** Finishes work; it succeeds exactly for the current holder, also one whose lease has run out. */
    method AckDue(owner: string, id: ScheduleId) returns (ok: bool)
      modifies this
      ensures IsStep(old(rows), Ack(owner, id), ok, rows)
      ensures ok <==> HeldBy(old(rows), id, owner)
      ensures ok ==> id !in rows && UntouchedBut(old(rows), rows, id)
      ensures !ok ==> rows == old(rows)
      ensures !HeldBy(rows, id, owner)
    {
      ok := id in rows && rows[id].leaseOwner == Some(owner);
      if ok { rows := rows - {id}; }
    }

    /** Gives work back: anybody can claim the row at any clock, and it keeps its target and due time. */
    method ReleaseDue(owner: string, id: ScheduleId) returns (ok: bool)
      modifies this
      ensures IsStep(old(rows), Release(owner, id), ok, rows)
      ensures ok <==> HeldBy(old(rows), id, owner)
      ensures ok ==> id in rows && SameWork(old(rows)[id], rows[id]) && UntouchedBut(old(rows), rows, id)
      ensures ok ==> forall nowMs :: Free(rows[id], nowMs)
      ensures !ok ==> rows == old(rows)
      ensures !HeldBy(rows, id, owner)
    {
      ok := id in rows && rows[id].leaseOwner == Some(owner);
      if ok { rows := rows[id := rows[id].(leaseOwner := None, leaseUntil := None)]; }
    }

    /** Extends a lease that has not run out; a refusal means the row is gone, another's, or free to be taken. */
    method RenewDue(owner: string, id: ScheduleId, nowMs: int, until: int) returns (ok: bool)
      modifies this
      ensures IsStep(old(rows), Renew(owner, id, nowMs, until), ok, rows)
      ensures ok <==> exists u :: Holds(old(rows), id, owner, u) && nowMs < u
      ensures ok ==> Holds(rows, id, owner, until) && SameWork(old(rows)[id], rows[id])
      ensures ok ==> UntouchedBut(old(rows), rows, id)
      ensures !ok ==> rows == old(rows)
      ensures !ok && HeldBy(rows, id, owner) ==> Free(rows[id], nowMs)
    {
      ok := id in rows && rows[id].leaseOwner == Some(owner)
        && rows[id].leaseUntil.Some? && rows[id].leaseUntil.value > nowMs;
      assert ok ==> Holds(rows, id, owner, rows[id].leaseUntil.value);
      if ok { rows := rows[id := rows[id].(leaseUntil := Some(until))]; }
    }
  }
}
