/**
  The continuation table. A row carries a payload, a physical revision, and a timeout lease (token
  and expiry). The six mutating operations load the row, decide, and replace or delete it under the
  loaded revision; timeout receipts are issued and settled by single statements on the same rows. A
  deleted identity may be created again, and then its revisions start over.
 */
module ContinuationRows {
  import opened Prelude
  import opened FlowStates
  import opened FlowContinuations

  const MAX_CAS_RETRIES: nat := 8
  const RECEIPT_LEASE: int := 30_000

  type Token = seq<int>

  datatype Row = Row(
    continuation: FlowContinuation,
    revision: nat,
    deadlineMs: Option<int>,
    dueToken: Option<Token>,
    leaseUntilMs: Option<int>)

  type Table = map<string, Row>

  // ---------------------------------------------------------------------------------------------
  // The operations, as decisions on one continuation.

  datatype Op =
    | Update(expected: int, next: FlowContinuation)
    | Claim(whole: FlowContinuation, next: FlowContinuation)
    | Record(version: int, child: string, outcome: Outcome, now: int)
    | Heartbeat(owner: string, version: int, now: int)
    | Delete(expected: int)

  datatype Decision = Refused | NothingToDo | Invalid | Write(next: FlowContinuation) | Remove

  /** What an operation decides from the continuation it loaded. */
  function Decide(c: FlowContinuation, op: Op): Decision {
    match op
    case Update(expected, next) =>
      if !IsNextVersion(expected, next.state.version) then Refused
      else if !next.Valid() then Invalid
      else if c.state.version != expected || next.state.id != c.state.id then Refused
      else Writable(next)
    case Claim(whole, next) =>
      if next.state.id != whole.state.id || !IsNextVersion(whole.state.version, next.state.version) then Refused
      else if !next.Valid() then Invalid
      else if c != whole then Refused
      else Writable(next)
    case Record(version, child, outcome, now) =>
      if c.state.version != version || c.wait.None? then Refused
      else
        var recorded := c.wait.value.Record(child, outcome);
        if |recorded.results| == |c.wait.value.results| then NothingToDo
        else Writable(c.WithWait(recorded, now))
    case Heartbeat(owner, version, now) =>
      if c.state.owner != Some(owner) || c.state.version != version then Refused
      else Writable(c.WithState(c.state.HeartbeatedAt(now), now))
    case Delete(expected) => if c.state.version != expected then Refused else Remove
  }

  /** The decision touches the row: a write or a removal. */
  predicate Acts(d: Decision) {
    d.Write? || d.Remove?
  }

  /** A row is written only if its deadline column can be computed. */
  function Writable(next: FlowContinuation): Decision {
    if DeadlineMillis(next).Ok? then Write(next) else Invalid
  }

  function RowOf(c: FlowContinuation, revision: nat): Row
    requires DeadlineMillis(c).Ok?
  {
    Row(c, revision, DeadlineMillis(c).value, None, None)
  }

  // ---------------------------------------------------------------------------------------------
  // Any number of workers.

  /** An operation between its load and its replace. */
  datatype Held = Held(id: string, revision: nat, seen: FlowContinuation, op: Op)

  /**
    History beside the rows: `committed` lists the operations whose replace or delete succeeded,
    `spent` the tokens ever issued, `gone` the identities ever deleted, and `reborn` those that were
    created again afterwards.
   */
  datatype Store = Store(
    rows: Table,
    held: map<nat, Held>,
    committed: seq<(string, Op)>,
    spent: set<Token>,
    gone: set<string>,
    reborn: set<string>)

  datatype Step =
    | Create(continuation: FlowContinuation)
    | Load(worker: nat, id: string, op: Op)
    | Replace(worker: nat)
    | Poll(now: int, tokens: map<string, Token>)
    | Settle(id: string, token: Token, acknowledge: bool)

  /** The row is due and free: no lease, or a lease that has run out. */
  predicate Due(r: Row, now: int) {
    && r.deadlineMs.Some? && r.deadlineMs.value <= now
    && (r.dueToken.None? || r.leaseUntilMs.None? || r.leaseUntilMs.value <= now)
  }

  /** A poll may lease any due rows, each with a token never used before. */
  predicate PollAllowed(s: Store, now: int, tokens: map<string, Token>) {
    forall id :: id in tokens ==> id in s.rows && Due(s.rows[id], now) && tokens[id] !in s.spent
  }

  function LeaseRow(r: Row, token: Token, now: int): Row {
    r.(dueToken := Some(token), leaseUntilMs := Some(now + RECEIPT_LEASE), revision := r.revision + 1)
  }

  function LeaseRows(rows: Table, now: int, tokens: map<string, Token>): Table {
    map id | id in rows :: if id in tokens then LeaseRow(rows[id], tokens[id], now) else rows[id]
  }

  function SettleRow(r: Row, acknowledge: bool): Row {
    r.(deadlineMs := if acknowledge then None else r.deadlineMs,
       dueToken := None, leaseUntilMs := None, revision := r.revision + 1)
  }

  function SettleIn(rows: Table, id: string, token: Token, acknowledge: bool): Table {
    if |token| == 16 && id in rows && rows[id].dueToken == Some(token)
    then rows[id := SettleRow(rows[id], acknowledge)]
    else rows
  }

  function Next(s: Store, step: Step): Store {
    match step
    case Create(c) =>
      if c.state.id in s.rows || !c.Valid() || DeadlineMillis(c).Err? then s
      else s.(rows := s.rows[c.state.id := RowOf(c, 0)],
              reborn := if c.state.id in s.gone then s.reborn + {c.state.id} else s.reborn)
    case Load(w, id, op) =>
      if id in s.rows && Acts(Decide(s.rows[id].continuation, op))
      then s.(held := s.held[w := Held(id, s.rows[id].revision, s.rows[id].continuation, op)])
      else s.(held := s.held - {w})
    case Replace(w) => if w !in s.held then s else Commit(s.(held := s.held - {w}), s.held[w])
    case Poll(now, tokens) =>
      if !PollAllowed(s, now, tokens) then s
      else s.(rows := LeaseRows(s.rows, now, tokens), spent := s.spent + tokens.Values)
    case Settle(id, token, acknowledge) =>
      s.(rows := SettleIn(s.rows, id, token, acknowledge))
  }

  /** The guarded UPDATE or DELETE that ends an operation: nothing unless the row is at the loaded revision. */
  function Commit(s: Store, h: Held): Store {
    if h.id !in s.rows || s.rows[h.id].revision != h.revision then s
    else
      var logged := s.(committed := s.committed + [(h.id, h.op)]);
      match Decide(h.seen, h.op)
      case Write(next) =>
        if DeadlineMillis(next).Ok? then logged.(rows := s.rows[h.id := RowOf(next, h.revision + 1)]) else s
      case Remove => logged.(rows := s.rows - {h.id}, gone := s.gone + {h.id})
      case _ => s
  }

  function Run(s: Store, steps: seq<Step>): Store
    decreases |steps|
  {
    if steps == [] then s else Run(Next(s, steps[0]), steps[1..])
  }

  ghost predicate RowOk(id: string, r: Row) {
    && r.continuation.state.id == id
    && DeadlineMillis(r.continuation).Ok?
    && (r.deadlineMs == None || r.deadlineMs == DeadlineMillis(r.continuation).value)
  }

  ghost predicate HeldShape(h: Held) {
    Acts(Decide(h.seen, h.op)) && h.seen.state.id == h.id
  }

  /** A revision names one state of its row, as long as the identity has not been created again. */
  ghost predicate HeldOk(s: Store, h: Held) {
    && HeldShape(h)
    && (h.id !in s.reborn ==>
          && (h.id in s.rows || h.id in s.gone)
          && (h.id in s.rows ==>
                && h.revision <= s.rows[h.id].revision
                && (h.revision == s.rows[h.id].revision ==> s.rows[h.id].continuation == h.seen)))
  }

  ghost predicate StoreOk(s: Store) {
    && (forall id :: id in s.rows ==> RowOk(id, s.rows[id]))
    && (forall id :: id in s.rows && s.rows[id].dueToken.Some? ==> s.rows[id].dueToken.value in s.spent)
    && (forall w :: w in s.held ==> HeldOk(s, s.held[w]))
    && (forall id :: id in s.rows && id in s.gone ==> id in s.reborn)
  }

  lemma DecideKeepsIdentity(c: FlowContinuation, op: Op)
    requires Decide(c, op).Write?
    ensures Decide(c, op).next.state.id == c.state.id && DeadlineMillis(Decide(c, op).next).Ok?
  {
  }

  /**
    What a write changes. An update or a claim installs its continuation at the next version; a
    record adds one result and ends any delay; a heartbeat touches nothing but the heartbeat. Only
    the first two move the version, and a record or heartbeat never changes the owner.
   */
  lemma {:induction false} OperationEffects(c: FlowContinuation, op: Op)
    requires Decide(c, op).Write?
    ensures !op.Delete?
    ensures var next := Decide(c, op).next;
      match op
      case Delete(_) => false
      case Update(expected, given) => next == given && c.state.version == expected == next.state.version - 1
      case Claim(whole, given) => next == given && c == whole && next.state.version == c.state.version + 1
      case Record(version, child, outcome, now) =>
        && next.state == c.state && c.state.version == version && c.wait.Some? && next.wait.Some?
        && !c.wait.value.HasReported(child)
        && next.wait.value == c.wait.value.(results := c.wait.value.results + [WaitResult(child, outcome)])
        && next == c.(wait := next.wait, resumeAt := None, scheduleId := None, updatedAt := now)
      case Heartbeat(owner, version, now) =>
        && c.state.owner == Some(owner) && c.state.version == version
        && next == c.(state := c.state.(heartbeat := now), updatedAt := now)
  {
  }

  /** What each operation asks of the continuation it finds. */
  ghost predicate Enabled(c: FlowContinuation, op: Op) {
    match op
    case Update(expected, next) =>
      && c.state.version == expected && next.state.version == expected + 1 <= I64_MAX
      && next.state.id == c.state.id && next.Valid()
    case Claim(whole, next) =>
      && c == whole && next.state.version == c.state.version + 1 <= I64_MAX
      && next.state.id == c.state.id && next.Valid()
    case Record(version, child, outcome, _) =>
      c.state.version == version && c.wait.Some? && c.wait.value.Accepts(child, outcome)
    case Heartbeat(owner, version, _) => c.state.owner == Some(owner) && c.state.version == version
    case Delete(expected) => c.state.version == expected
  }

  /** What each operation that writes leaves. */
  ghost function Target(c: FlowContinuation, op: Op): FlowContinuation
    requires Enabled(c, op) && !op.Delete?
  {
    match op
    case Update(_, next) => next
    case Claim(_, next) => next
    case Record(_, child, outcome, now) =>
      c.(wait := Some(c.wait.value.(results := c.wait.value.results + [WaitResult(child, outcome)])),
         resumeAt := None, scheduleId := None, updatedAt := now)
    case Heartbeat(_, _, now) => c.(state := c.state.(heartbeat := now), updatedAt := now)
  }

  /** The record is for this wait, which has no room for the outcome or has it already. */
  ghost predicate NothingToAdd(c: FlowContinuation, op: Op) {
    op.Record? && c.state.version == op.version && c.wait.Some? && !c.wait.value.Accepts(op.child, op.outcome)
  }

  /** Which decision each operation takes: it acts exactly when it is enabled and its result can be stored. */
  lemma {:induction false} DecidesExactly(c: FlowContinuation, op: Op)
    ensures Decide(c, op).Remove? <==> op.Delete? && Enabled(c, op)
    ensures Decide(c, op).Write? <==> !op.Delete? && Enabled(c, op) && DeadlineMillis(Target(c, op)).Ok?
    ensures Decide(c, op).Write? ==> Decide(c, op).next == Target(c, op)
    ensures Decide(c, op).NothingToDo? <==> NothingToAdd(c, op)
    ensures Decide(c, op).Refused? ==> !Enabled(c, op)
    ensures Decide(c, op).Invalid? ==>
      || ((op.Update? || op.Claim?) && !op.next.Valid())
      || (Enabled(c, op) && !op.Delete? && DeadlineMillis(Target(c, op)).Err?)
  {
  }

  /**
    An operation that no other interrupts touches its row exactly when the row meets what the
    operation asks and the resulting deadline can be stored. It then leaves that result, with its
    deadline and without a lease, at the next revision, or no row at all; otherwise all rows stay.
   */
  lemma {:induction false} AloneActsExactlyWhen(s: Store, w: nat, id: string, op: Op)
    requires id in s.rows
    ensures var r, rows' := s.rows[id], Next(Next(s, Load(w, id, op)), Replace(w)).rows;
      if !Enabled(r.continuation, op) then rows' == s.rows
      else if op.Delete? then rows' == s.rows - {id}
      else
        var next := Target(r.continuation, op);
        if DeadlineMillis(next).Err? then rows' == s.rows
        else rows' == s.rows[id := Row(next, r.revision + 1, DeadlineMillis(next).value, None, None)]
  {
    var c := s.rows[id].continuation;
    if Acts(Decide(c, op)) {
      assert Next(s, Load(w, id, op)).held[w] == Held(id, s.rows[id].revision, c, op);
    } else {
      assert w !in Next(s, Load(w, id, op)).held;
    }
  }

  /** What any step may do to one row: nothing, or one write at the next revision. */
  ghost predicate RowStep(before: Row, after: Row) {
    before.revision <= after.revision && (before.revision == after.revision ==> before == after)
  }

  /**
    What a step may do to the rows: each is untouched, written once or deleted, a deleted identity
    comes back only as reborn, and all rows stay well formed.
   */
  ghost predicate RowsStep(s: Store, s': Store) {
    && (forall id :: id in s.rows ==> if id in s'.rows then RowStep(s.rows[id], s'.rows[id]) else id in s'.gone)
    && (forall id :: id in s'.rows ==> RowOk(id, s'.rows[id]))
    && (forall id :: id in s'.rows && s'.rows[id].dueToken.Some? ==> s'.rows[id].dueToken.value in s'.spent)
    && (forall id :: id in s'.rows && id in s'.gone ==> id in s'.reborn)
    && s.spent <= s'.spent && s.gone <= s'.gone && s.reborn <= s'.reborn
  }

  lemma ReplaceRows(s: Store, step: Step)
    requires StoreOk(s) && step.Replace?
    ensures RowsStep(s, Next(s, step))
  {
    if step.worker in s.held {
      var h := s.held[step.worker];
      assert HeldOk(s, h);
      if Decide(h.seen, h.op).Write? { DecideKeepsIdentity(h.seen, h.op); }
    }
  }

  lemma PollRows(s: Store, step: Step)
    requires StoreOk(s) && step.Poll?
    ensures RowsStep(s, Next(s, step))
  {
    var s' := Next(s, step);
    if s' != s {
      forall id | id in s.rows
        ensures RowOk(id, s'.rows[id]) && RowStep(s.rows[id], s'.rows[id])
        ensures s'.rows[id].dueToken.Some? ==> s'.rows[id].dueToken.value in s'.spent
      {
        LeasedRowOk(s, step.now, step.tokens, id);
      }
    }
  }

  lemma LeasedRowOk(s: Store, now: int, tokens: map<string, Token>, id: string)
    requires StoreOk(s) && id in s.rows
    ensures var r := LeaseRows(s.rows, now, tokens)[id];
      && RowOk(id, r) && RowStep(s.rows[id], r)
      && (r.dueToken.Some? ==> r.dueToken.value in s.spent + tokens.Values)
  {
    assert RowOk(id, s.rows[id]);
    if id in tokens { assert tokens[id] in tokens.Values; }
  }

  lemma CreateRows(s: Store, step: Step)
    requires StoreOk(s) && step.Create?
    ensures RowsStep(s, Next(s, step))
  {
  }

  lemma SettleRows(s: Store, step: Step)
    requires StoreOk(s) && step.Settle?
    ensures RowsStep(s, Next(s, step))
  {
  }

  lemma {:induction false} NextRows(s: Store, step: Step)
    requires StoreOk(s)
    ensures RowsStep(s, Next(s, step))
  {
    match step {
      case Create(_) => CreateRows(s, step);
      case Load(_, _, _) =>
      case Replace(_) => ReplaceRows(s, step);
      case Poll(_, _) => PollRows(s, step);
      case Settle(_, _, _) => SettleRows(s, step);
    }
  }

  lemma HeldAfter(s: Store, s': Store, h: Held)
    requires RowsStep(s, s') && HeldOk(s, h)
    ensures HeldOk(s', h)
  {
  }

  /** What a worker holds it held before, or has just loaded. */
  lemma HeldOrigin(s: Store, step: Step, w: nat)
    requires StoreOk(s) && w in Next(s, step).held
    ensures var s' := Next(s, step);
      (w in s.held && s'.held[w] == s.held[w]) || HeldOk(s', s'.held[w])
  {
  }

  /** Every step keeps the store's invariant. */
  lemma {:induction false} NextKeepsStore(s: Store, step: Step)
    requires StoreOk(s)
    ensures StoreOk(Next(s, step))
  {
    NextRows(s, step);
    var s' := Next(s, step);
    forall w | w in s'.held ensures HeldOk(s', s'.held[w]) {
      HeldOrigin(s, step, w);
      if w in s.held && s'.held[w] == s.held[w] { HeldAfter(s, s', s.held[w]); }
    }
  }

  /** So does every run; a row disappears only by deletion, and what was deleted stays recorded. */
  lemma {:induction false} RunKeepsStore(s: Store, steps: seq<Step>)
    requires StoreOk(s)
    ensures var s' := Run(s, steps);
      && StoreOk(s')
      && s.spent <= s'.spent && s.gone <= s'.gone && s.reborn <= s'.reborn
      && forall id :: id in s.rows ==> id in s'.rows || id in s'.gone
    decreases |steps|
  {
    if steps != [] {
      NextKeepsStore(s, steps[0]);
      NextRows(s, steps[0]);
      RunKeepsStore(Next(s, steps[0]), steps[1..]);
    }
  }

  // ---------------------------------------------------------------------------------------------
  // Serializability.

  /** What operations applied one at a time leave: a continuation, nothing after a delete, or no such run. */
  datatype Fate = Present(continuation: FlowContinuation) | Removed | Impossible

  function Replay(c: FlowContinuation, ops: seq<Op>): Fate
    decreases |ops|
  {
    if ops == [] then Present(c)
    else
      match Decide(c, ops[0])
      case Write(next) => Replay(next, ops[1..])
      case Remove => if |ops| == 1 then Removed else Impossible
      case _ => Impossible
  }

  /** The operation that a step commits on one identity, if any. */
  function CommittedBy(s: Store, s': Store, id: string): seq<Op> {
    if |s'.committed| > |s.committed| && s'.committed[|s.committed|].0 == id
    then [s'.committed[|s.committed|].1] else []
  }

  /** The operations a run commits on one identity, in commit order. */
  function Committed(s: Store, steps: seq<Step>, id: string): seq<Op>
    decreases |steps|
  {
    if steps == [] then []
    else
      var s' := Next(s, steps[0]);
      CommittedBy(s, s', id) + Committed(s', steps[1..], id)
  }

  /** A step changes or removes a continuation only by committing one operation decided on its current value. */
  lemma {:induction false} StepCommitsOnCurrent(s: Store, step: Step, id: string)
    requires StoreOk(s) && id in s.rows && id !in s.reborn
    ensures var c, s' := s.rows[id].continuation, Next(s, step);
      var ops := CommittedBy(s, s', id);
      if ops == [] then id in s'.rows && s'.rows[id].continuation == c
      else if id in s'.rows then
        && Decide(c, ops[0]) == Write(s'.rows[id].continuation)
        && DeadlineMillis(s'.rows[id].continuation) == Ok(s'.rows[id].deadlineMs)
        && s'.rows[id].dueToken.None? && s'.rows[id].leaseUntilMs.None?
      else Decide(c, ops[0]) == Remove && id in s'.gone
  {
    if step.Replace? && step.worker in s.held {
      assert HeldOk(s, s.held[step.worker]);
    }
  }

  /** A new row holds the given continuation, its deadline, no lease, at revision 0; an existing identity is kept. */
  lemma CreateStores(s: Store, c: FlowContinuation)
    ensures var s', id := Next(s, Create(c)), c.state.id;
      if id !in s.rows && c.Valid() && DeadlineMillis(c).Ok?
      then s'.rows == s.rows[id := Row(c, 0, DeadlineMillis(c).value, None, None)]
      else s' == s
  {
  }

  /** Nothing is committed on a deleted identity that is not created again. */
  lemma {:induction false} DeletedStaysDeleted(s: Store, steps: seq<Step>, id: string)
    requires StoreOk(s) && id in s.gone && id !in s.rows && id !in Run(s, steps).reborn
    ensures id !in Run(s, steps).rows && Committed(s, steps, id) == []
    decreases |steps|
  {
    if steps != [] {
      var s' := Next(s, steps[0]);
      NextKeepsStore(s, steps[0]);
      RunKeepsStore(s', steps[1..]);
      DeletedNext(s, steps[0], id);
      DeletedStaysDeleted(s', steps[1..], id);
    }
  }

  lemma DeletedNext(s: Store, step: Step, id: string)
    requires id in s.gone && id !in s.rows && id !in Next(s, step).reborn
    ensures var s' := Next(s, step); id in s'.gone && id !in s'.rows && CommittedBy(s, s', id) == []
  {
  }

  /**
    For every interleaving of loads, replaces, deletes, creations, polls and settlements in which
    this identity is not deleted and then created again, the stored continuation is what its
    committed operations give when they are applied one at a time, in commit order, each to the
    result of the one before; and the row is missing exactly when the last of them was a delete.
   */
  lemma {:induction false} StoredIsSerialReplay(s: Store, steps: seq<Step>, id: string)
    requires StoreOk(s) && id in s.rows && id !in Run(s, steps).reborn
    ensures Replay(s.rows[id].continuation, Committed(s, steps, id))
      == if id in Run(s, steps).rows then Present(Run(s, steps).rows[id].continuation) else Removed
    decreases |steps|
  {
    if steps != [] {
      var s' := Next(s, steps[0]);
      NextKeepsStore(s, steps[0]);
      NextRows(s, steps[0]);
      RunKeepsStore(s', steps[1..]);
      StepCommitsOnCurrent(s, steps[0], id);
      var now, rest := CommittedBy(s, s', id), Committed(s', steps[1..], id);
      if id in s'.rows {
        StoredIsSerialReplay(s', steps[1..], id);
        if now == [] {
          assert Committed(s, steps, id) == rest;
        } else {
          assert Committed(s, steps, id)[1..] == rest;
        }
      } else {
        DeletedStaysDeleted(s', steps[1..], id);
        assert Committed(s, steps, id) == now;
      }
    }
  }

  /** Versions only rise, and while they stay, recorded results are only added to. */
  lemma {:induction false} ReplayKeepsResults(c: FlowContinuation, ops: seq<Op>)
    requires Replay(c, ops).Present?
    ensures var c' := Replay(c, ops).continuation;
      && c.state.version <= c'.state.version
      && (c.state.version == c'.state.version && c.wait.Some? ==>
            c'.wait.Some? && c.wait.value.results <= c'.wait.value.results)
    decreases |ops|
  {
    if ops != [] {
      ReplayKeepsResults(Decide(c, ops[0]).next, ops[1..]);
    }
  }

  /**
    Once a child's result has been recorded in a row, no concurrent heartbeat, record, poll or
    settlement loses it: as long as the row is there and its version has not moved on, the result
    is still at its place.
   */
  lemma {:induction false} RecordedResultSurvives(s: Store, steps: seq<Step>, id: string, k: nat)
    requires StoreOk(s) && id in s.rows && id !in Run(s, steps).reborn && s.rows[id].continuation.wait.Some?
    requires k < |s.rows[id].continuation.wait.value.results|
    ensures id in Run(s, steps).rows ==>
      var c, c' := s.rows[id].continuation, Run(s, steps).rows[id].continuation;
      && c.state.version <= c'.state.version
      && (c'.state.version == c.state.version ==>
            && c'.wait.Some? && k < |c'.wait.value.results|
            && c'.wait.value.results[k] == c.wait.value.results[k])
    ensures id !in Run(s, steps).rows ==> Replay(s.rows[id].continuation, Committed(s, steps, id)) == Removed
  {
    StoredIsSerialReplay(s, steps, id);
    if id in Run(s, steps).rows {
      ReplayKeepsResults(s.rows[id].continuation, Committed(s, steps, id));
    }
  }

  /**
    The condition is needed. Creating a deleted identity again starts its revisions over, so a
    heartbeat that loaded the old row overwrites the new one, and commit order does not explain the result.
   */
  lemma {:induction false} RecreationBreaksReplay(c: FlowContinuation, c2: FlowContinuation, owner: string, now: int)
    requires c.state.id == c2.state.id && c.state.owner == Some(owner)
    requires DeadlineMillis(c).Ok? && c2.Valid() && DeadlineMillis(c2).Ok?
    ensures var id := c.state.id;
      var beat, delete := Heartbeat(owner, c.state.version, now), Delete(c.state.version);
      var s := Store(map[id := RowOf(c, 0)], map[], [], {}, {}, {});
      var steps := [Load(1, id, beat), Load(2, id, delete), Replace(2), Create(c2), Replace(1)];
      && StoreOk(s) && id in Run(s, steps).rows && id in Run(s, steps).reborn
      && Run(s, steps).rows[id].continuation == c.(state := c.state.(heartbeat := now), updatedAt := now)
      && Replay(c, Committed(s, steps, id)) == Impossible
  {
    var id := c.state.id;
    var beat, delete := Heartbeat(owner, c.state.version, now), Delete(c.state.version);
    var s := Store(map[id := RowOf(c, 0)], map[], [], {}, {}, {});
    var steps := [Load(1, id, beat), Load(2, id, delete), Replace(2), Create(c2), Replace(1)];
    DeletedUnderHeartbeat(c, id, beat, delete);
    var s3 := Next(Next(Next(s, steps[0]), steps[1]), steps[2]);
    RecreatedUnderHeartbeat(s3, c, c2, id, beat);
    RunOfFive(s, steps, id);
    assert Committed(s, steps, id) == [delete, beat];
  }

  lemma DeletedUnderHeartbeat(c: FlowContinuation, id: string, beat: Op, delete: Op)
    requires DeadlineMillis(c).Ok? && Decide(c, beat).Write? && Decide(c, delete).Remove?
    ensures var s := Store(map[id := RowOf(c, 0)], map[], [], {}, {}, {});
      var s1 := Next(s, Load(1, id, beat));
      var s2 := Next(s1, Load(2, id, delete));
      && s1.committed == [] && s2.committed == []
      && Next(s2, Replace(2)) == Store(map[], map[1 := Held(id, 0, c, beat)], [(id, delete)], {}, {id}, {})
  {
    var s := Store(map[id := RowOf(c, 0)], map[], [], {}, {}, {});
    var s1 := Next(s, Load(1, id, beat));
    assert s1.held == map[1 := Held(id, 0, c, beat)];
    var s2 := Next(s1, Load(2, id, delete));
    assert s2.held == map[1 := Held(id, 0, c, beat), 2 := Held(id, 0, c, delete)];
    assert s2.held - {2} == map[1 := Held(id, 0, c, beat)];
    assert s2.rows - {id} == map[];
  }

  lemma RecreatedUnderHeartbeat(s: Store, c: FlowContinuation, c2: FlowContinuation, id: string, beat: Op)
    requires s.rows == map[] && s.held == map[1 := Held(id, 0, c, beat)] && s.gone == {id}
    requires Decide(c, beat).Write? && DeadlineMillis(Decide(c, beat).next).Ok?
    requires c2.state.id == id && c2.Valid() && DeadlineMillis(c2).Ok?
    ensures var s1 := Next(s, Create(c2));
      var s2 := Next(s1, Replace(1));
      && s1.committed == s.committed && s2.committed == s.committed + [(id, beat)]
      && id in s2.rows && id in s2.reborn && s2.rows[id].continuation == Decide(c, beat).next
  {
  }

  /** A run of five steps, written out. */
  lemma RunOfFive(s: Store, steps: seq<Step>, id: string)
    requires |steps| == 5
    ensures var s1 := Next(s, steps[0]);
      var s2 := Next(s1, steps[1]);
      var s3 := Next(s2, steps[2]);
      var s4 := Next(s3, steps[3]);
      var s5 := Next(s4, steps[4]);
      && Run(s, steps) == s5
      && Committed(s, steps, id) == CommittedBy(s, s1, id) + (CommittedBy(s1, s2, id) + (CommittedBy(s2, s3, id)
           + (CommittedBy(s3, s4, id) + CommittedBy(s4, s5, id))))
  {
    RunFirst(s, steps, id);
    var s1 := Next(s, steps[0]);
    RunFirst(s1, steps[1..], id);
    var s2 := Next(s1, steps[1]);
    RunFirst(s2, steps[2..], id);
    var s3 := Next(s2, steps[2]);
    RunFirst(s3, steps[3..], id);
    var s4 := Next(s3, steps[3]);
    RunFirst(s4, steps[4..], id);
    assert steps[1..][1..] == steps[2..] && steps[2..][1..] == steps[3..] && steps[3..][1..] == steps[4..];
    assert steps[4..][1..] == [];
  }

  lemma RunFirst(s: Store, steps: seq<Step>, id: string)
    requires steps != []
    ensures Run(s, steps) == Run(Next(s, steps[0]), steps[1..])
    ensures Committed(s, steps, id)
         == CommittedBy(s, Next(s, steps[0]), id) + Committed(Next(s, steps[0]), steps[1..], id)
  {
  }

  /** The operation answers true: it touched the row, or found nothing to add. */
  predicate AnswersTrue(d: Decision) {
    Acts(d) || d.NothingToDo?
  }

  function After(c: FlowContinuation, op: Op): FlowContinuation {
    if Decide(c, op).Write? then Decide(c, op).next else c
  }

  /**
    Recording answers true also for results it throws away. A true answer means the child is among
    the stored results exactly when the child had reported before or the wait accepts this outcome.
   */
  lemma {:induction false} RecordedExactlyWhen(
    c: FlowContinuation, version: int, child: string, outcome: Outcome, now: int)
    requires AnswersTrue(Decide(c, Record(version, child, outcome, now)))
    ensures var c' := After(c, Record(version, child, outcome, now));
      && c'.wait.Some?
      && (c'.wait.value.HasReported(child)
          <==> c.wait.value.HasReported(child) || c.wait.value.Accepts(child, outcome))
  {
    var w := c.wait.value;
    if w.Accepts(child, outcome) {
      assert w.Record(child, outcome).results[|w.results|].childId == child;
    }
  }

  /** For instance a full wait answers true to a late child and stores nothing of it. */
  lemma RecordCanLoseAResult(c: FlowContinuation, now: int)
    requires c.wait == Some(WaitCondition("w", 1, [WaitResult("a", Success([]))], 0, 0, []))
    ensures AnswersTrue(Decide(c, Record(c.state.version, "b", Success([7]), now)))
    ensures !After(c, Record(c.state.version, "b", Success([7]), now)).wait.value.HasReported("b")
  {
    assert "a"[0] != "b"[0];
  }

  // ---------------------------------------------------------------------------------------------
  // Timeout receipts.

  /** The step writes or deletes this row. */
  ghost predicate Touches(s: Store, step: Step, id: string)
    requires id in s.rows
  {
    id !in Next(s, step).rows || Next(s, step).rows[id] != s.rows[id]
  }

  /** No row of this identity carries this token. */
  ghost predicate Dead(s: Store, id: string, token: Token) {
    id in s.rows ==> s.rows[id].dueToken != Some(token)
  }

  /** Any write to a leased row takes its token away, for good. */
  lemma {:induction false} WriteEndsReceipt(s: Store, step: Step, id: string, token: Token)
    requires StoreOk(s) && id in s.rows && s.rows[id].dueToken == Some(token)
    requires Touches(s, step, id)
    ensures Dead(Next(s, step), id, token)
  {
  }

  lemma {:induction false} SpentTokenDeadNext(s: Store, step: Step, id: string, token: Token)
    requires StoreOk(s) && token in s.spent && Dead(s, id, token)
    ensures Dead(Next(s, step), id, token)
  {
  }

  /** A token that has left a row never comes back to it, not even if the row is deleted and created again. */
  lemma {:induction false} SpentTokenStaysDead(s: Store, steps: seq<Step>, id: string, token: Token)
    requires StoreOk(s) && token in s.spent && Dead(s, id, token)
    ensures Dead(Run(s, steps), id, token)
    decreases |steps|
  {
    if steps != [] {
      NextKeepsStore(s, steps[0]);
      NextRows(s, steps[0]);
      SpentTokenDeadNext(s, steps[0], id, token);
      SpentTokenStaysDead(Next(s, steps[0]), steps[1..], id, token);
    }
  }

  /**
    A receipt settles only the lease that issued it. After any write to the row (a replace, a
    release, an acknowledgement, a new poll, a deletion) and whatever happens next, settling the old
    token changes nothing.
   */
  lemma {:induction false} OldReceiptSettlesNothing(
    s: Store, step: Step, steps: seq<Step>, id: string, token: Token, acknowledge: bool)
    requires StoreOk(s) && id in s.rows && s.rows[id].dueToken == Some(token)
    requires Touches(s, step, id)
    ensures SettleIn(Run(Next(s, step), steps).rows, id, token, acknowledge) == Run(Next(s, step), steps).rows
  {
    WriteEndsReceipt(s, step, id, token);
    NextKeepsStore(s, step);
    NextRows(s, step);
    SpentTokenStaysDead(Next(s, step), steps, id, token);
  }

  /** A polled row is not due again before its lease has run out, and then it is. */
  lemma LeasedUntilExpiry(r: Row, token: Token, now: int, later: int)
    requires Due(r, now) && now <= later
    ensures LeaseRow(r, token, now).continuation == r.continuation && LeaseRow(r, token, now).dueToken == Some(token)
    ensures Due(LeaseRow(r, token, now), later) <==> later >= now + 30_000
  {
  }

  /** An acknowledged row is never due; a released one is due again as soon as its deadline has passed. */
  lemma SettledRowDue(r: Row, acknowledge: bool, now: int)
    ensures var r' := SettleRow(r, acknowledge);
      && r'.continuation == r.continuation && r'.dueToken.None?
      && (Due(r', now) <==> !acknowledge && r.deadlineMs.Some? && r.deadlineMs.value <= now)
  {
  }

  /** A poll leases exactly its rows, for thirty seconds, and touches nothing else of any row. */
  lemma PollLeases(s: Store, now: int, tokens: map<string, Token>, id: string)
    requires PollAllowed(s, now, tokens) && id in s.rows
    ensures var r, s' := s.rows[id], Next(s, Poll(now, tokens));
      && s'.rows.Keys == s.rows.Keys && s'.spent == s.spent + tokens.Values && s'.held == s.held
      && s'.rows[id] == if id in tokens
                        then Row(r.continuation, r.revision + 1, r.deadlineMs, Some(tokens[id]), Some(now + 30_000))
                        else r
  {
  }

  /** Settling with the row's own token ends the lease and, when acknowledging, the deadline; else it does nothing. */
  lemma SettleEndsLease(s: Store, id: string, token: Token, acknowledge: bool)
    ensures var s' := Next(s, Settle(id, token, acknowledge));
      if |token| == 16 && id in s.rows && s.rows[id].dueToken == Some(token) then
        var r := s.rows[id];
        var deadline := if acknowledge then None else r.deadlineMs;
        s' == s.(rows := s.rows[id := Row(r.continuation, r.revision + 1, deadline, None, None)])
      else s' == s
  {
  }

  /** The step leaves this lease alone: no poll of the row past its expiry, no settlement, replace or delete. */
  ghost predicate LeavesLease(s: Store, step: Step, id: string, token: Token, until: int) {
    match step
    case Poll(now, tokens) => id !in tokens || now < until
    case Settle(sid, t, _) => sid != id || t != token
    case Replace(w) => w in s.held ==> s.held[w].id != id || Next(s, step).rows == s.rows
    case _ => true
  }

  ghost predicate AllLeaveLease(s: Store, steps: seq<Step>, id: string, token: Token, until: int)
    decreases |steps|
  {
    steps == [] ||
    (LeavesLease(s, steps[0], id, token, until) && AllLeaveLease(Next(s, steps[0]), steps[1..], id, token, until))
  }

  lemma LeaseKept(s: Store, step: Step, id: string, token: Token, until: int)
    requires StoreOk(s) && id in s.rows
    requires s.rows[id].dueToken == Some(token) && s.rows[id].leaseUntilMs == Some(until)
    requires LeavesLease(s, step, id, token, until)
    ensures id in Next(s, step).rows && Next(s, step).rows[id] == s.rows[id]
  {
  }

  /** While a lease is unexpired and untouched its row stays as it is, so no second receipt is issued. */
  lemma {:induction false} LeaseIsExclusive(s: Store, steps: seq<Step>, id: string, token: Token, until: int, now: int)
    requires StoreOk(s) && id in s.rows
    requires s.rows[id].dueToken == Some(token) && s.rows[id].leaseUntilMs == Some(until)
    requires AllLeaveLease(s, steps, id, token, until)
    ensures id in Run(s, steps).rows && Run(s, steps).rows[id] == s.rows[id]
    ensures now < until ==> !Due(Run(s, steps).rows[id], now)
    decreases |steps|
  {
    if steps != [] {
      NextKeepsStore(s, steps[0]);
      LeaseKept(s, steps[0], id, token, until);
      LeaseIsExclusive(Next(s, steps[0]), steps[1..], id, token, until, now);
    }
  }

  /** With a clock past the epoch, a receipt is never issued before the wait's own deadline. */
  lemma ReceiptNeverEarly(s: Store, id: string, now: int)
    requires now >= 0 && StoreOk(s) && id in s.rows && Due(s.rows[id], UnixMillis(now))
    ensures s.rows[id].continuation.wait.Some?
    ensures s.rows[id].continuation.wait.value.createdAt + s.rows[id].continuation.wait.value.timeout <= now
  {
    DeadlineNeverEarly(s.rows[id].continuation, now);
  }
}
