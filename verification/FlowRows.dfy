/**
  The plain flow table. A row carries a business version, which `update` and `try_claim` advance,
  and a physical revision, which every write advances. Each SQL statement is one atomic step;
  `heartbeat` reads and writes in two, and other workers may run in between.
 */
module FlowRows {
  import opened Prelude
  import opened FlowStates

  const MAX_CAS_RETRIES: nat := 8

  /** The indexed columns are copies of payload fields. */
  datatype Row = Row(
    flowType: string, status: FlowStatus, version: int, heartbeatMs: int, revision: nat, payload: FlowState)

  type Table = map<string, Row>

  function RowOf(s: FlowState, revision: nat): Row {
    Row(s.flowType, s.status, s.version, UnixMillis(s.heartbeat), revision, s)
  }

  /** Every row sits under its own identity and its columns agree with its payload. */
  predicate TableOk(t: Table) {
    forall id :: id in t ==> t[id].payload.id == id && t[id] == RowOf(t[id].payload, t[id].revision)
  }

  // ---------------------------------------------------------------------------------------------
  // The atomic statements.

  function Insert(t: Table, s: FlowState): (bool, Table) {
    if s.id in t then (false, t) else (true, t[s.id := RowOf(s, 0)])
  }

  function ReplaceAtRevision(t: Table, revision: nat, next: FlowState): (bool, Table) {
    if next.id in t && t[next.id].revision == revision
    then (true, t[next.id := RowOf(next, revision + 1)])
    else (false, t)
  }

  function ReplaceAtVersion(t: Table, expected: int, next: FlowState): (bool, Table) {
    if next.id in t && t[next.id].version == expected
    then (true, t[next.id := RowOf(next, t[next.id].revision + 1)])
    else (false, t)
  }

  function UpdateRow(t: Table, expected: int, next: FlowState): (bool, Table) {
    if IsNextVersion(expected, next.version) then ReplaceAtVersion(t, expected, next) else (false, t)
  }

  predicate IsStale(s: FlowState, now: int, staleAfter: nat) {
    now - s.heartbeat >= staleAfter
  }

  predicate Claimable(s: FlowState, flowType: string, now: int, staleAfter: nat) {
    s.flowType == flowType && s.status == Running && IsStale(s, now, staleAfter)
  }

  predicate ClaimableIn(t: Table, id: string, flowType: string, now: int, staleAfter: nat) {
    id in t && Claimable(t[id].payload, flowType, now, staleAfter)
  }

  datatype ClaimResult = Claimed(state: FlowState) | NothingStale | VersionExhausted

  /** The first selected row that is claimable now. */
  function FirstClaimable(t: Table, candidates: seq<string>, flowType: string, now: int, staleAfter: nat)
      : (r: Option<string>)
    ensures r.Some? ==> exists i ::
      && 0 <= i < |candidates| && candidates[i] == r.value
      && ClaimableIn(t, candidates[i], flowType, now, staleAfter)
      && forall j :: 0 <= j < i ==> !ClaimableIn(t, candidates[j], flowType, now, staleAfter)
    ensures r.None? ==> forall i :: 0 <= i < |candidates| ==> !ClaimableIn(t, candidates[i], flowType, now, staleAfter)
  {
    if candidates == [] then None
    else if ClaimableIn(t, candidates[0], flowType, now, staleAfter) then Some(candidates[0])
    else
      var r := FirstClaimable(t, candidates[1..], flowType, now, staleAfter);
      assert forall i :: 0 <= i < |candidates| - 1 ==> candidates[1..][i] == candidates[i + 1];
      r
  }

  /** The claim transaction over its selected candidates. */
  function ClaimFirst(t: Table, candidates: seq<string>, flowType: string, owner: string,
                      now: int, staleAfter: nat, claimTime: int): (ClaimResult, Table)
  {
    match FirstClaimable(t, candidates, flowType, now, staleAfter)
    case None => (NothingStale, t)
    case Some(id) =>
      match t[id].payload.ClaimedBy(owner, claimTime).NextVersion()
      case None => (VersionExhausted, t)
      case Some(claimed) => (Claimed(claimed), t[id := RowOf(claimed, t[id].revision + 1)])
  }

  // ---------------------------------------------------------------------------------------------
  // Any number of workers.

  /** A heartbeat between its load and its replace. */
  datatype Held = Held(id: string, owner: string, version: int, row: Row)

  datatype Store = Store(rows: Table, held: map<nat, Held>)

  datatype Step =
    | Create(state: FlowState)
    | Update(expected: int, next: FlowState)
    | Claim(candidates: seq<string>, flowType: string, owner: string, now: int, staleAfter: nat, claimTime: int)
    | HeartbeatLoad(worker: nat, id: string, owner: string, version: int)
    | HeartbeatReplace(worker: nat, now: int)

  /** One atomic step, with the answer its caller sees (a load answers whether it went on). */
  function Next(s: Store, step: Step): (bool, Store) {
    match step
    case Create(state) =>
      var (ok, rows) := Insert(s.rows, state); (ok, s.(rows := rows))
    case Update(expected, next) =>
      var (ok, rows) := UpdateRow(s.rows, expected, next); (ok, s.(rows := rows))
    case Claim(candidates, flowType, owner, now, staleAfter, claimTime) =>
      var (r, rows) := ClaimFirst(s.rows, candidates, flowType, owner, now, staleAfter, claimTime);
      (r.Claimed?, s.(rows := rows))
    case HeartbeatLoad(w, id, owner, version) =>
      if id in s.rows && s.rows[id].payload.owner == Some(owner) && s.rows[id].payload.version == version
      then (true, s.(held := s.held[w := Held(id, owner, version, s.rows[id])]))
      else (false, s.(held := s.held - {w}))
    case HeartbeatReplace(w, now) =>
      if w !in s.held then (false, s)
      else
        var h := s.held[w];
        var (ok, rows) := ReplaceAtRevision(s.rows, h.row.revision, h.row.payload.HeartbeatedAt(now));
        (ok, Store(rows, s.held - {w}))
  }

  function Run(s: Store, steps: seq<Step>): Store
    decreases |steps|
  {
    if steps == [] then s else Run(Next(s, steps[0]).1, steps[1..])
  }

  /** A revision names one state of its row: whoever holds that revision holds the row's content. */
  ghost predicate StoreOk(s: Store) {
    && TableOk(s.rows)
    && forall w :: w in s.held ==> HeldOk(s.rows, s.held[w])
  }

  ghost predicate HeldOk(t: Table, h: Held) {
    && h.row == RowOf(h.row.payload, h.row.revision)
    && h.row.payload.id == h.id && h.row.payload.owner == Some(h.owner) && h.row.version == h.version
    && h.id in t && h.row.revision <= t[h.id].revision
    && (h.row.revision == t[h.id].revision ==> t[h.id] == h.row)
  }

  /** The identity whose business version this step advanced, if any. */
  function Winner(s: Store, step: Step): Option<string> {
    if !Next(s, step).0 then None
    else match step
      case Update(_, next) => Some(next.id)
      case Claim(candidates, flowType, owner, now, staleAfter, claimTime) =>
        var (r, _) := ClaimFirst(s.rows, candidates, flowType, owner, now, staleAfter, claimTime);
        if r.Claimed? then Some(r.state.id) else None
      case _ => None
  }

  /** What a step may do to one row that is already there. */
  ghost predicate RowStep(before: Row, after: Row, won: bool) {
    if won then after.version == before.version + 1 && after.revision == before.revision + 1
    else
      || after == before
      || (after.revision == before.revision + 1
          && after == RowOf(before.payload.(heartbeat := after.payload.heartbeat), after.revision))
  }

  /** The row of this state holds exactly it, with its indexed columns, at this revision. */
  ghost predicate Stores(t: Table, s: FlowState, revision: nat) {
    s.id in t && t[s.id] == Row(s.flowType, s.status, s.version, UnixMillis(s.heartbeat), revision, s)
  }

  ghost predicate OthersKept(before: Table, after: Table, id: string) {
    before - {id} == after - {id}
  }

  /**
    A create succeeds exactly on an absent identity, an update exactly on a row at the expected
    version and with the next one. Success stores the given state and touches no other row; failure
    changes nothing.
   */
  lemma WriteStoresState(s: Store, step: Step)
    requires step.Create? || step.Update?
    ensures var t, (ok, s') := s.rows, Next(s, step);
      if step.Create? then
        && (ok <==> step.state.id !in t)
        && (ok ==> Stores(s'.rows, step.state, 0) && OthersKept(t, s'.rows, step.state.id))
      else
        && (ok <==> step.next.id in t && t[step.next.id].version == step.expected
                    && step.next.version == step.expected + 1 <= I64_MAX)
        && (ok ==> Stores(s'.rows, step.next, t[step.next.id].revision + 1) && OthersKept(t, s'.rows, step.next.id))
    ensures Next(s, step).1.held == s.held && (!Next(s, step).0 ==> Next(s, step).1 == s)
  {
  }

  /**
    A heartbeat that nobody interrupts succeeds exactly when the row is owned by its owner at its
    version, and then it changes that row's heartbeat and nothing else.
   */
  lemma HeartbeatAlone(s: Store, w: nat, id: string, owner: string, version: int, now: int)
    requires TableOk(s.rows)
    ensures var (loaded, s1) := Next(s, HeartbeatLoad(w, id, owner, version));
      var (ok, s2) := Next(s1, HeartbeatReplace(w, now));
      && s1.rows == s.rows && loaded == ok
      && (ok <==> id in s.rows && s.rows[id].payload.owner == Some(owner) && s.rows[id].payload.version == version)
      && (if ok then
            && Stores(s2.rows, s.rows[id].payload.(heartbeat := now), s.rows[id].revision + 1)
            && OthersKept(s.rows, s2.rows, id)
          else s2.rows == s.rows)
  {
  }

  /** Writing a row at its next revision leaves every pending load honest. */
  lemma WriteKeepsHeld(t: Table, id: string, next: FlowState, h: Held)
    requires id in t && next.id == id && HeldOk(t, h)
    ensures HeldOk(t[id := RowOf(next, t[id].revision + 1)], h)
  {
  }

  lemma WriteKeepsStore(s: Store, id: string, next: FlowState, held: map<nat, Held>)
    requires StoreOk(s) && id in s.rows && next.id == id && held.Keys <= s.held.Keys
    requires forall w :: w in held ==> held[w] == s.held[w]
    ensures StoreOk(Store(s.rows[id := RowOf(next, s.rows[id].revision + 1)], held))
  {
    forall w | w in held
      ensures HeldOk(s.rows[id := RowOf(next, s.rows[id].revision + 1)], held[w])
    {
      WriteKeepsHeld(s.rows, id, next, s.held[w]);
    }
  }

  /**
    Every step keeps the store's invariant and every row. A row's version rises by exactly one when
    the step won that row; otherwise the row is untouched or only its heartbeat is refreshed.
   */
  lemma {:induction false} NextKeepsStore(s: Store, step: Step)
    requires StoreOk(s)
    ensures var s' := Next(s, step).1;
      && StoreOk(s')
      && s.rows.Keys <= s'.rows.Keys
      && forall id :: id in s.rows ==> RowStep(s.rows[id], s'.rows[id], Winner(s, step) == Some(id))
  {
    if Next(s, step).0 {
      match step {
        case Create(_) => CreateKeepsStore(s, step);
        case Update(_, _) => UpdateKeepsStore(s, step);
        case Claim(_, _, _, _, _, _) => ClaimKeepsStore(s, step);
        case HeartbeatLoad(_, _, _, _) =>
        case HeartbeatReplace(_, _) => HeartbeatKeepsStore(s, step);
      }
    }
  }

  lemma CreateKeepsStore(s: Store, step: Step)
    requires StoreOk(s) && step.Create?
    ensures StoreOk(Next(s, step).1) && s.rows.Keys <= Next(s, step).1.rows.Keys
    ensures forall id :: id in s.rows ==> RowStep(s.rows[id], Next(s, step).1.rows[id], Winner(s, step) == Some(id))
  {
  }

  lemma UpdateKeepsStore(s: Store, step: Step)
    requires StoreOk(s) && step.Update? && Next(s, step).0
    ensures StoreOk(Next(s, step).1) && s.rows.Keys <= Next(s, step).1.rows.Keys
    ensures forall id :: id in s.rows ==> RowStep(s.rows[id], Next(s, step).1.rows[id], Winner(s, step) == Some(id))
  {
    WriteKeepsStore(s, step.next.id, step.next, s.held);
  }

  lemma ClaimKeepsStore(s: Store, step: Step)
    requires StoreOk(s) && step.Claim? && Next(s, step).0
    ensures StoreOk(Next(s, step).1) && s.rows.Keys <= Next(s, step).1.rows.Keys
    ensures forall id :: id in s.rows ==> RowStep(s.rows[id], Next(s, step).1.rows[id], Winner(s, step) == Some(id))
  {
    var id := FirstClaimable(s.rows, step.candidates, step.flowType, step.now, step.staleAfter).value;
    WriteKeepsStore(s, id, s.rows[id].payload.ClaimedBy(step.owner, step.claimTime).NextVersion().value, s.held);
  }

  lemma HeartbeatKeepsStore(s: Store, step: Step)
    requires StoreOk(s) && step.HeartbeatReplace? && Next(s, step).0
    ensures StoreOk(Next(s, step).1) && s.rows.Keys <= Next(s, step).1.rows.Keys
    ensures forall id :: id in s.rows ==> RowStep(s.rows[id], Next(s, step).1.rows[id], Winner(s, step) == Some(id))
  {
    var h := s.held[step.worker];
    assert HeldOk(s.rows, h);
    WriteKeepsStore(s, h.id, h.row.payload.HeartbeatedAt(step.now), s.held - {step.worker});
  }

  lemma {:induction false} RunKeepsStore(s: Store, steps: seq<Step>)
    requires StoreOk(s)
    ensures StoreOk(Run(s, steps)) && s.rows.Keys <= Run(s, steps).rows.Keys
    ensures forall id :: id in s.rows ==> s.rows[id].version <= Run(s, steps).rows[id].version
    decreases |steps|
  {
    if steps != [] {
      NextKeepsStore(s, steps[0]);
      RunKeepsStore(Next(s, steps[0]).1, steps[1..]);
    }
  }

  /**
    A claim hands one claimable row over: new owner and heartbeat, next version, everything else as
    it was; no other row changes; and no claim can take it again before it has been silent for long
    enough once more.
   */
  lemma {:induction false} ClaimTakesOver(t: Table, candidates: seq<string>, flowType: string, owner: string,
                                          now: int, staleAfter: nat, claimTime: int, later: int)
    requires TableOk(t) && ClaimFirst(t, candidates, flowType, owner, now, staleAfter, claimTime).0.Claimed?
    ensures var (r, t') := ClaimFirst(t, candidates, flowType, owner, now, staleAfter, claimTime);
      var id := r.state.id;
      && id in candidates && id in t && t[id].status == Running && t[id].flowType == flowType
      && now - t[id].payload.heartbeat >= staleAfter
      && r.state == t[id].payload.(owner := Some(owner), heartbeat := claimTime, version := t[id].version + 1)
      && t' == t[id := RowOf(r.state, t[id].revision + 1)]
      && (Claimable(t'[id].payload, flowType, later, staleAfter) <==> later >= claimTime + staleAfter)
  {
  }

  /**
    A claim finds nothing exactly when no candidate is a running row of the type silent for long
    enough; it gives up only on such a row at the largest version; it never installs a larger one.
   */
  lemma {:induction false} ClaimsExactlyWhen(t: Table, candidates: seq<string>, flowType: string, owner: string,
                                             now: int, staleAfter: nat, claimTime: int)
    ensures var (r, t') := ClaimFirst(t, candidates, flowType, owner, now, staleAfter, claimTime);
      && (r.NothingStale? <==> forall id :: id in candidates ==> !IsSilent(t, id, flowType, now, staleAfter))
      && (r.Claimed? ==> r.state.version <= I64_MAX)
      && (r.VersionExhausted? ==> exists id ::
            id in candidates && IsSilent(t, id, flowType, now, staleAfter) && t[id].payload.version >= I64_MAX)
      && (!r.Claimed? ==> t' == t)
  {
    var found := FirstClaimable(t, candidates, flowType, now, staleAfter);
    forall i | 0 <= i < |candidates|
      ensures ClaimableIn(t, candidates[i], flowType, now, staleAfter)
              <==> IsSilent(t, candidates[i], flowType, now, staleAfter)
    {
    }
  }

  /** One row went to `owner` with the next version and is otherwise unchanged, and no other row changed. */
  ghost predicate TakenOver(before: Table, after: Table, claimed: FlowState, owner: string, claimTime: int) {
    && claimed.id in before && claimed.version <= I64_MAX
    && claimed == before[claimed.id].payload.(
         owner := Some(owner), heartbeat := claimTime, version := before[claimed.id].version + 1)
    && Stores(after, claimed, before[claimed.id].revision + 1) && OthersKept(before, after, claimed.id)
  }

  lemma ClaimStores(t: Table, candidates: seq<string>, flowType: string, owner: string,
                    now: int, staleAfter: nat, claimTime: int)
    requires TableOk(t) && ClaimFirst(t, candidates, flowType, owner, now, staleAfter, claimTime).0.Claimed?
    ensures var (r, t') := ClaimFirst(t, candidates, flowType, owner, now, staleAfter, claimTime);
      && r.state.id in candidates && IsSilent(t, r.state.id, flowType, now, staleAfter)
      && TableOk(t') && TakenOver(t, t', r.state, owner, claimTime)
  {
    ClaimTakesOver(t, candidates, flowType, owner, now, staleAfter, claimTime, now);
    ClaimsExactlyWhen(t, candidates, flowType, owner, now, staleAfter, claimTime);
  }

  ghost predicate IsSilent(t: Table, id: string, flowType: string, now: int, staleAfter: nat) {
    && id in t && t[id].payload.flowType == flowType && t[id].payload.status == Running
    && t[id].payload.heartbeat + staleAfter <= now
  }

  /** The versions that a run installs on one identity, in commit order. */
  function Wins(s: Store, steps: seq<Step>, id: string): seq<int>
    decreases |steps|
  {
    if steps == [] then []
    else
      var s' := Next(s, steps[0]).1;
      (if Winner(s, steps[0]) == Some(id) && id in s'.rows then [s'.rows[id].version] else [])
      + Wins(s', steps[1..], id)
  }

  /**
    Over every interleaving, the updates and claims that succeed on a row install consecutive
    versions: each version has one winner, none is skipped, and the row ends at the last of them.
   */
  lemma {:induction false} OneWinnerPerVersion(s: Store, steps: seq<Step>, id: string)
    requires StoreOk(s) && id in s.rows
    ensures id in Run(s, steps).rows
    ensures Run(s, steps).rows[id].version == s.rows[id].version + |Wins(s, steps, id)|
    ensures forall k :: 0 <= k < |Wins(s, steps, id)| ==>
      Wins(s, steps, id)[k] == s.rows[id].version + 1 + k
    decreases |steps|
  {
    if steps != [] {
      NextKeepsStore(s, steps[0]);
      OneWinnerPerVersion(Next(s, steps[0]).1, steps[1..], id);
    }
  }

  /** The step is an update, or the second half of a heartbeat, made for `id` at version `v` or older. */
  ghost predicate FromDisplaced(s: Store, step: Step, id: string, v: int) {
    match step
    case Update(expected, next) => next.id == id && expected <= v
    case HeartbeatLoad(_, hid, _, version) => hid == id && version <= v
    case HeartbeatReplace(w, _) => w in s.held && s.held[w].id == id && s.held[w].version <= v
    case _ => false
  }

  /**
    Fencing: once a row is past version `v`, in every later state an owner still working at `v`
    is refused, update and heartbeat alike, even a heartbeat whose load came before the claim.
   */
  lemma {:induction false} DisplacedOwnerIsFenced(s: Store, steps: seq<Step>, step: Step, id: string, v: int)
    requires StoreOk(s) && id in s.rows && s.rows[id].version > v
    requires FromDisplaced(Run(s, steps), step, id, v)
    ensures !Next(Run(s, steps), step).0
    ensures Next(Run(s, steps), step).1.rows == Run(s, steps).rows
  {
    RunKeepsStore(s, steps);
    var m := Run(s, steps);
    if step.HeartbeatReplace? {
      assert HeldOk(m.rows, m.held[step.worker]);
    }
  }

  // ---------------------------------------------------------------------------------------------
  // The store object.

  /** Anything other workers may have done: no row is lost, and equal revisions mean equal rows. */
  predicate Evolves(before: Table, after: Table) {
    && TableOk(after)
    && forall id :: id in before ==>
         && id in after && before[id].revision <= after[id].revision && before[id].version <= after[id].version
         && (before[id].revision == after[id].revision ==> before[id] == after[id])
  }

  lemma EvolvesTransitively(a: Table, b: Table, c: Table)
    requires Evolves(a, b) && Evolves(b, c)
    ensures Evolves(a, c)
  {
  }

  lemma EvolvesReflexively(t: Table)
    requires TableOk(t)
    ensures Evolves(t, t)
  {
  }

  lemma WriteEvolves(t: Table, id: string, next: FlowState)
    requires TableOk(t) && id in t && next.id == id && next.version >= t[id].version
    ensures Evolves(t, t[id := RowOf(next, t[id].revision + 1)])
  {
  }

  /** `OthersRun` is justified: every run of the step machine evolves the table. */
  lemma {:induction false} RunEvolves(s: Store, steps: seq<Step>)
    requires StoreOk(s)
    ensures Evolves(s.rows, Run(s, steps).rows)
    decreases |steps|
  {
    if steps != [] {
      NextKeepsStore(s, steps[0]);
      RunEvolves(Next(s, steps[0]).1, steps[1..]);
    }
  }

  /** Older heartbeat millisecond first, the hashed identity breaking ties. */
  predicate Older(t: Table, key: string -> int, a: string, b: string)
    requires a in t && b in t
  {
    t[a].heartbeatMs < t[b].heartbeatMs || (t[a].heartbeatMs == t[b].heartbeatMs && key(a) < key(b))
  }

  /**
    The rows a claim transaction locks: unlocked running rows of the type whose heartbeat column is
    old enough, oldest first, at most the retry bound, and none left out while there is room.
   */
  ghost predicate IsSelection(
    t: Table, key: string -> int, locked: set<string>, flowType: string, staleBefore: int, ids: seq<string>)
  {
    && |ids| <= MAX_CAS_RETRIES
    && (forall i :: 0 <= i < |ids| ==> ids[i] in t && Selectable(t, locked, flowType, staleBefore, ids[i]))
    && (forall i, j :: 0 <= i < j < |ids| ==> ids[i] != ids[j] && Older(t, key, ids[i], ids[j]))
    && (forall id :: id in t && id !in ids && Selectable(t, locked, flowType, staleBefore, id) ==>
          |ids| == MAX_CAS_RETRIES && forall i :: 0 <= i < |ids| ==> Older(t, key, ids[i], id))
  }

  ghost predicate Selectable(t: Table, locked: set<string>, flowType: string, staleBefore: int, id: string)
    requires id in t
  {
    id !in locked && t[id].flowType == flowType && t[id].status == Running && t[id].heartbeatMs <= staleBefore
  }

  /**
    If no selected row is claimable, an unlocked stale row of the type can have been missed only by a
    selection cut off at the bound, and only if its heartbeat lies in the threshold millisecond.
   */
  lemma {:induction false} MissedOnlyAtThreshold(
    t: Table, key: string -> int, locked: set<string>, flowType: string, now: int, staleAfter: nat,
    ids: seq<string>, id: string)
    requires TableOk(t) && IsSelection(t, key, locked, flowType, UnixMillis(now - staleAfter), ids)
    requires forall k :: 0 <= k < |ids| ==> !ClaimableIn(t, ids[k], flowType, now, staleAfter)
    requires id !in locked && ClaimableIn(t, id, flowType, now, staleAfter)
    ensures |ids| == MAX_CAS_RETRIES && t[id].heartbeatMs == UnixMillis(now - staleAfter)
  {
    UnixMillisMonotone(t[id].payload.heartbeat, now - staleAfter);
    assert Selectable(t, locked, flowType, UnixMillis(now - staleAfter), id);
    assert id !in ids;
    assert ids[0] in t && Selectable(t, locked, flowType, UnixMillis(now - staleAfter), ids[0]);
    assert !ClaimableIn(t, ids[0], flowType, now, staleAfter);
    UnixMillisMonotone(now - staleAfter, t[ids[0]].payload.heartbeat);
  }

  lemma NoneMissed(
    t: Table, key: string -> int, locked: set<string>, flowType: string, now: int, staleAfter: nat, ids: seq<string>)
    requires TableOk(t) && IsSelection(t, key, locked, flowType, UnixMillis(now - staleAfter), ids)
    requires forall k :: 0 <= k < |ids| ==> !ClaimableIn(t, ids[k], flowType, now, staleAfter)
    ensures forall id :: id !in locked && ClaimableIn(t, id, flowType, now, staleAfter) ==>
      |ids| == MAX_CAS_RETRIES && t[id].heartbeatMs == UnixMillis(now - staleAfter)
  {
    forall id | id !in locked && ClaimableIn(t, id, flowType, now, staleAfter)
      ensures |ids| == MAX_CAS_RETRIES && t[id].heartbeatMs == UnixMillis(now - staleAfter)
    {
      MissedOnlyAtThreshold(t, key, locked, flowType, now, staleAfter, ids, id);
    }
  }

  datatype Answer = Yes | No | RetriesExhausted

  /** Walks the selected rows in order and stops at the first that is claimable. */
  method FindStale(rows: Table, ids: seq<string>, flowType: string, now: int, staleAfter: nat)
      returns (r: Option<string>)
    ensures r == FirstClaimable(rows, ids, flowType, now, staleAfter)
  {
    for i := 0 to |ids|
      invariant FirstClaimable(rows, ids, flowType, now, staleAfter)
             == FirstClaimable(rows, ids[i..], flowType, now, staleAfter)
    {
      if ClaimableIn(rows, ids[i], flowType, now, staleAfter) { return Some(ids[i]); }
    }
    return None;
  }

  class FlowTable {
    var rows: Table

    constructor ()
      ensures rows == map[]
    {
      rows := map[];
    }

    method OthersRun()
      requires TableOk(rows)
      modifies this
      ensures Evolves(old(rows), rows)
    {
      EvolvesReflexively(rows);
      var t :| Evolves(rows, t);
      rows := t;
    }

    method CreateState(state: FlowState) returns (created: bool)
      requires TableOk(rows)
      modifies this
      ensures TableOk(rows) && (created, rows) == Insert(old(rows), state)
      ensures created <==> state.id !in old(rows)
      ensures created ==> Stores(rows, state, 0) && OthersKept(old(rows), rows, state.id)
      ensures !created ==> rows == old(rows)
    {
      if state.id in rows { return false; }
      rows := rows[state.id := RowOf(state, 0)];
      return true;
    }

    method UpdateState(expected: int, next: FlowState) returns (updated: bool)
      requires TableOk(rows)
      modifies this
      ensures TableOk(rows) && (updated, rows) == UpdateRow(old(rows), expected, next)
      ensures updated <==>
        next.version == expected + 1 <= I64_MAX && next.id in old(rows) && old(rows)[next.id].version == expected
      ensures updated ==>
        Stores(rows, next, old(rows)[next.id].revision + 1) && OthersKept(old(rows), rows, next.id)
      ensures !updated ==> rows == old(rows)
    {
      if !IsNextVersion(expected, next.version) { return false; }
      if next.id !in rows || rows[next.id].version != expected { return false; }
      rows := rows[next.id := RowOf(next, rows[next.id].revision + 1)];
      return true;
    }

    /**
      Takes one stale flow. It claims the first selected row that the exact staleness test confirms.
      When it reports nothing, every unlocked stale flow of the type has a heartbeat in the threshold
      millisecond, and there is none at all unless the selection was cut off at the bound.
     */
    method TryClaim(ids: seq<string>, ghost key: string -> int, ghost locked: set<string>,
                    flowType: string, owner: string,
                    now: int, staleAfter: nat, claimTime: int) returns (r: ClaimResult)
      requires TableOk(rows)
      requires IsSelection(rows, key, locked, flowType, UnixMillis(now - staleAfter), ids)
      modifies this
      ensures TableOk(rows) && (r, rows) == ClaimFirst(old(rows), ids, flowType, owner, now, staleAfter, claimTime)
      ensures r.NothingStale? <==> forall id :: id in ids ==> !IsSilent(old(rows), id, flowType, now, staleAfter)
      ensures !r.Claimed? ==> rows == old(rows)
      ensures r.Claimed? ==>
        && IsSilent(old(rows), r.state.id, flowType, now, staleAfter) && r.state.id in ids
        && TakenOver(old(rows), rows, r.state, owner, claimTime)
      ensures r.NothingStale? ==> forall id ::
        id !in locked && ClaimableIn(rows, id, flowType, now, staleAfter) ==>
        |ids| == MAX_CAS_RETRIES && rows[id].heartbeatMs == UnixMillis(now - staleAfter)
    {
      ClaimsExactlyWhen(rows, ids, flowType, owner, now, staleAfter, claimTime);
      var found := FindStale(rows, ids, flowType, now, staleAfter);
      if found.Some? {
        var id := found.value;
        var claimed := rows[id].payload.ClaimedBy(owner, claimTime).NextVersion();
        if claimed.None? { return VersionExhausted; }
        ClaimStores(rows, ids, flowType, owner, now, staleAfter, claimTime);
        rows := rows[id := RowOf(claimed.value, rows[id].revision + 1)];
        return Claimed(claimed.value);
      }
      NoneMissed(rows, key, locked, flowType, now, staleAfter, ids);
      return NothingStale;
    }

    /**
      Refreshes an owner's heartbeat, reading the clock anew in each attempt. It answers yes only if,
      at the moment of its write, the row was owned by `owner` at `version`, and the write changed
      nothing but the heartbeat; it answers no only if at some moment the row was not; it gives up
      only after other workers wrote the row at least as often as it tried.
     */
    method Heartbeat(id: string, owner: string, version: int, clock: seq<int>)
        returns (r: Answer, ghost at: Table, ghost used: nat)
      requires TableOk(rows) && |clock| == MAX_CAS_RETRIES
      modifies this
      ensures TableOk(rows) && Evolves(old(rows), at) && Evolves(at, rows) && used < |clock|
      ensures r.No? ==>
        id !in at || at[id].payload.owner != Some(owner) || at[id].payload.version != version
      ensures r.Yes? ==>
        && id in at && at[id].payload.owner == Some(owner) && at[id].payload.version == version
        && Evolves(at[id := RowOf(at[id].payload.(heartbeat := clock[used]), at[id].revision + 1)], rows)
      ensures r.RetriesExhausted? && id in old(rows) ==>
        rows[id].revision >= old(rows)[id].revision + MAX_CAS_RETRIES
    {
      at, used := rows, 0;
      for attempt := 0 to MAX_CAS_RETRIES
        invariant TableOk(rows) && Evolves(old(rows), rows) && used < |clock|
        invariant id in old(rows) ==> rows[id].revision >= old(rows)[id].revision + attempt
      {
        ghost var before := rows;
        var once;
        once, at := HeartbeatOnce(id, owner, version, clock[attempt]);
        used := attempt;
        EvolvesTransitively(old(rows), before, at);
        EvolvesTransitively(old(rows), before, rows);
        if once.No? || once.Yes? { return once, at, used; }
      }
      at := rows;
      return RetriesExhausted, at, used;
    }

    /** One load and one replace; losing the replace means somebody else wrote the row. */
    method HeartbeatOnce(id: string, owner: string, version: int, now: int) returns (r: Answer, ghost at: Table)
      requires TableOk(rows)
      modifies this
      ensures TableOk(rows) && Evolves(old(rows), at) && Evolves(at, rows) && Evolves(old(rows), rows)
      ensures r.No? ==>
        id !in at || at[id].payload.owner != Some(owner) || at[id].payload.version != version
      ensures r.Yes? ==>
        && id in at && at[id].payload.owner == Some(owner) && at[id].payload.version == version
        && Evolves(at[id := RowOf(at[id].payload.(heartbeat := now), at[id].revision + 1)], rows)
      ensures r.RetriesExhausted? ==> id in old(rows) && rows[id].revision > old(rows)[id].revision
    {
      at := rows;
      EvolvesReflexively(rows);
      if id !in rows { return No, at; }
      var current := rows[id];
      if current.payload.owner != Some(owner) || current.payload.version != version { return No, at; }
      OthersRun();
      ghost var loaded, base := at, rows;
      var replaced := Replace(id, current.revision, current.payload.HeartbeatedAt(now));
      EvolvesTransitively(loaded, base, rows);
      if replaced {
        at := base;
        return Yes, at;
      }
      return RetriesExhausted, at;
    }

    /** One guarded UPDATE: writes the row only at the given revision. */
    method Replace(id: string, revision: nat, next: FlowState) returns (replaced: bool)
      requires TableOk(rows) && next.id == id
      requires id in rows && rows[id].revision == revision ==> next.version >= rows[id].version
      modifies this
      ensures TableOk(rows) && Evolves(old(rows), rows)
      ensures replaced <==> id in old(rows) && old(rows)[id].revision == revision
      ensures replaced ==> Evolves(old(rows)[id := RowOf(next, revision + 1)], rows)
    {
      replaced := id in rows && rows[id].revision == revision;
      if replaced {
        ghost var base := rows;
        WriteEvolves(rows, id, next);
        rows := rows[id := RowOf(next, revision + 1)];
        ghost var written := rows;
        OthersRun();
        EvolvesTransitively(base, written, rows);
      } else {
        EvolvesReflexively(rows);
      }
    }
  }
}
