/** The continuation store object: the retry loops and the receipt statements over one table. */
module ContinuationTables {
  import opened Prelude
  import opened FlowStates
  import opened FlowContinuations
  import opened ContinuationRows

  datatype Answer = Yes | No | Rejected | RetriesExhausted

  /** A table with the identities ever deleted from it, and those created again afterwards. */
  datatype View = View(rows: Table, gone: set<string>, reborn: set<string>)

  predicate ViewOk(v: View) {
    && (forall id :: id in v.rows ==> DeadlineMillis(v.rows[id].continuation).Ok?)
    && (forall id :: id in v.rows && id in v.gone ==> id in v.reborn)
  }

  /**
    Anything other workers may have done. A row that was not deleted and created again keeps rising
    revisions, where equal revisions mean equal rows, or is deleted for good.
   */
  predicate Evolves(a: View, b: View) {
    && ViewOk(b) && a.gone <= b.gone && a.reborn <= b.reborn
    && forall id :: id in a.rows && id !in b.reborn ==>
         if id in b.rows then
           && a.rows[id].revision <= b.rows[id].revision
           && (a.rows[id].revision == b.rows[id].revision ==> a.rows[id] == b.rows[id])
         else id in b.gone
  }

  lemma EvolvesTransitively(a: View, b: View, c: View)
    requires Evolves(a, b) && Evolves(b, c)
    ensures Evolves(a, c)
  {
  }

  function ViewOf(s: Store): View {
    View(s.rows, s.gone, s.reborn)
  }

  /** `OthersRun` is justified: every run of the step machine evolves the table. */
  lemma {:induction false} RunEvolves(s: Store, steps: seq<Step>)
    requires StoreOk(s)
    ensures Evolves(ViewOf(s), ViewOf(Run(s, steps)))
    decreases |steps|
  {
    if steps != [] {
      NextKeepsStore(s, steps[0]);
      NextRows(s, steps[0]);
      RunEvolves(Next(s, steps[0]), steps[1..]);
      EvolvesTransitively(ViewOf(s), ViewOf(Next(s, steps[0])), ViewOf(Run(s, steps)));
    }
  }

  /** The operation took effect on the row as it was at `at`, or had nothing to add to it, and nothing was undone. */
  ghost predicate TookEffect(at: View, now: View, id: string, op: Op)
    requires id in at.rows
  {
    var r := at.rows[id];
    if !Enabled(r.continuation, op) then NothingToAdd(r.continuation, op)
    else if op.Delete? then Evolves(at.(rows := at.rows - {id}, gone := at.gone + {id}), now)
    else
      var next := Target(r.continuation, op);
      && DeadlineMillis(next).Ok?
      && Evolves(at.(rows := at.rows[id := Row(next, r.revision + 1, DeadlineMillis(next).value, None, None)]), now)
  }

  /** An operation with the clock reading of one attempt. */
  function AtTime(op: Op, now: int): Op {
    match op
    case Record(version, child, outcome, _) => Record(version, child, outcome, now)
    case Heartbeat(owner, version, _) => Heartbeat(owner, version, now)
    case _ => op
  }

  /** An attempt asks for the same as the call, and what it writes carries the attempt's own clock reading. */
  lemma AttemptUsesItsClock(c: FlowContinuation, op: Op, now: int)
    ensures Enabled(c, AtTime(op, now)) <==> Enabled(c, op)
    ensures Enabled(c, op) && (op.Update? || op.Claim?) ==> Target(c, AtTime(op, now)) == Target(c, op)
    ensures Enabled(c, op) && op.Record? ==>
      && Target(c, AtTime(op, now)).updatedAt == now
      && Target(c, AtTime(op, now)).wait == Target(c, op).wait
    ensures Enabled(c, op) && op.Heartbeat? ==>
      Target(c, AtTime(op, now)).updatedAt == now && Target(c, AtTime(op, now)).state.heartbeat == now
  {
  }

  /** The checks an update or a claim makes before it looks at the table. */
  function Precheck(op: Op): Answer {
    match op
    case Update(expected, next) =>
      if !IsNextVersion(expected, next.state.version) then No else if !next.Valid() then Rejected else Yes
    case Claim(whole, next) =>
      if next.state.id != whole.state.id || !IsNextVersion(whole.state.version, next.state.version) then No
      else if !next.Valid() then Rejected else Yes
    case _ => Yes
  }

  /** The early checks only anticipate: what they turn down, every row would turn down in the same way. */
  lemma PrecheckAnticipates(op: Op, c: FlowContinuation)
    ensures Precheck(op).No? ==> Decide(c, op).Refused? && !Enabled(c, op)
    ensures Precheck(op).Rejected? ==> Decide(c, op).Invalid? && !Enabled(c, op)
    ensures Precheck(op).Yes? <==>
      && (op.Update? ==> op.next.state.version == op.expected + 1 <= I64_MAX && op.next.Valid())
      && (op.Claim? ==> op.next.state.version == op.whole.state.version + 1 <= I64_MAX && op.next.Valid()
                        && op.next.state.id == op.whole.state.id)
  {
  }

  function Attempts(op: Op): nat {
    if op.Claim? then 1 else MAX_CAS_RETRIES
  }

  /** Others deleted the row, or wrote it at least `times` times, unless they also created it again. */
  ghost predicate Overtaken(a: View, b: View, id: string, times: nat)
    requires id in a.rows
  {
    id !in b.reborn && id in b.rows ==> b.rows[id].revision >= a.rows[id].revision + times
  }

  /** Pairs each leased row with its token. */
  function Zip(ids: seq<string>, tokens: seq<Token>): map<string, Token>
    requires |ids| == |tokens|
  {
    if ids == [] then map[]
    else Zip(ids[..|ids| - 1], tokens[..|ids| - 1])[ids[|ids| - 1] := tokens[|ids| - 1]]
  }

  lemma {:induction false} ZipKeys(ids: seq<string>, tokens: seq<Token>)
    requires |ids| == |tokens|
    ensures Zip(ids, tokens).Keys == set i | 0 <= i < |ids| :: ids[i]
  {
    if ids != [] {
      ZipKeys(ids[..|ids| - 1], tokens[..|ids| - 1]);
      assert forall i :: 0 <= i < |ids| - 1 ==> ids[..|ids| - 1][i] == ids[i];
    }
  }

  /** Earlier deadline first, the hashed identity breaking ties. */
  predicate Earlier(t: Table, key: string -> int, a: string, b: string)
    requires a in t && b in t && t[a].deadlineMs.Some? && t[b].deadlineMs.Some?
  {
    || t[a].deadlineMs.value < t[b].deadlineMs.value
    || (t[a].deadlineMs.value == t[b].deadlineMs.value && key(a) < key(b))
  }

  /** The page a poll leases: due unlocked rows in deadline order, none left out while there is room. */
  ghost predicate IsDuePage(t: Table, key: string -> int, locked: set<string>, now: int, limit: nat, ids: seq<string>) {
    && |ids| <= limit
    && (forall i :: 0 <= i < |ids| ==> ids[i] in t && ids[i] !in locked && Due(t[ids[i]], now))
    && (forall i, j :: 0 <= i < j < |ids| ==> ids[i] != ids[j] && Earlier(t, key, ids[i], ids[j]))
    && (forall id :: id in t && id !in locked && id !in ids && Due(t[id], now) ==>
          |ids| == limit && forall i :: 0 <= i < |ids| ==> Earlier(t, key, ids[i], id))
  }

  ghost predicate IsOverdue(r: Row, now: int) {
    && r.deadlineMs.Some? && r.deadlineMs.value <= now
    && (r.dueToken.Some? && r.leaseUntilMs.Some? ==> r.leaseUntilMs.value <= now)
  }

  /** Unlocked rows past their deadline and without a running lease, by deadline, as many of the first as fit. */
  ghost predicate FirstOverdue(t: Table, locked: set<string>, now: int, limit: nat, ids: seq<string>) {
    && |ids| <= limit
    && (forall i :: 0 <= i < |ids| ==> ids[i] in t && ids[i] !in locked && IsOverdue(t[ids[i]], now))
    && (forall i, j :: 0 <= i < j < |ids| ==>
          ids[i] != ids[j] && t[ids[i]].deadlineMs.value <= t[ids[j]].deadlineMs.value)
    && (forall id :: id in t && id !in locked && id !in ids && IsOverdue(t[id], now) ==>
          |ids| == limit && forall i :: 0 <= i < |ids| ==> t[ids[i]].deadlineMs.value <= t[id].deadlineMs.value)
  }

  lemma DuePageIsFirst(
    t: Table, key: string -> int, locked: set<string>, now: int, limit: nat, ids: seq<string>)
    requires IsDuePage(t, key, locked, now, limit, ids)
    ensures FirstOverdue(t, locked, now, limit, ids)
  {
    assert forall id :: id in t ==> (IsOverdue(t[id], now) <==> Due(t[id], now));
  }

  ghost predicate DistinctRows(t: Table, ids: seq<string>) {
    && (forall i :: 0 <= i < |ids| ==> ids[i] in t)
    && (forall i, j :: 0 <= i < j < |ids| ==> ids[i] != ids[j])
  }

  /** Each row of the page holds its token for thirty seconds, is otherwise as it was, and no other row changed. */
  ghost predicate Receipted(before: Table, after: Table, ids: seq<string>, tokens: seq<Token>, now: int)
    requires |ids| == |tokens|
  {
    && after.Keys == before.Keys
    && (forall i :: 0 <= i < |ids| ==> ids[i] in before)
    && (forall i :: 0 <= i < |ids| ==>
          after[ids[i]] == Row(before[ids[i]].continuation, before[ids[i]].revision + 1, before[ids[i]].deadlineMs,
                               Some(tokens[i]), Some(now + 30_000)))
    && (forall id :: id in before && id !in ids ==> after[id] == before[id])
  }

  lemma {:induction false} LeasedPage(t: Table, ids: seq<string>, tokens: seq<Token>, now: int)
    requires |ids| == |tokens| && DistinctRows(t, ids)
    ensures Receipted(t, LeaseRows(t, now, Zip(ids, tokens)), ids, tokens, now)
  {
    ZipKeys(ids, tokens);
    forall i | 0 <= i < |ids| ensures ids[i] in Zip(ids, tokens) && Zip(ids, tokens)[ids[i]] == tokens[i] {
      ZipPairs(ids, tokens, ids[i]);
    }
  }

  lemma LeaseNoRow(t: Table, ids: seq<string>, tokens: seq<Token>, now: int)
    ensures LeaseRows(t, now, Zip(ids[..0], tokens[..0])) == t
  {
  }

  /** Leasing the next row of a page extends the leased prefix by it. */
  lemma LeaseNextRow(t: Table, ids: seq<string>, tokens: seq<Token>, i: nat, now: int)
    requires |ids| == |tokens| && i < |ids| && DistinctRows(t, ids)
    ensures var leased := LeaseRows(t, now, Zip(ids[..i], tokens[..i]));
      && ids[i] in leased
      && leased[ids[i] := LeaseRow(leased[ids[i]], tokens[i], now)]
         == LeaseRows(t, now, Zip(ids[..i + 1], tokens[..i + 1]))
  {
    ZipKeys(ids[..i], tokens[..i]);
    assert ids[i] !in Zip(ids[..i], tokens[..i]);
    assert ids[..i + 1][..i] == ids[..i] && tokens[..i + 1][..i] == tokens[..i];
    assert Zip(ids[..i + 1], tokens[..i + 1]) == Zip(ids[..i], tokens[..i])[ids[i] := tokens[i]];
    LeaseOneMore(t, Zip(ids[..i], tokens[..i]), ids[i], tokens[i], now);
  }

  lemma LeaseOneMore(t: Table, leased: map<string, Token>, id: string, token: Token, now: int)
    requires id in t && id !in leased
    ensures LeaseRows(t, now, leased[id := token])
         == LeaseRows(t, now, leased)[id := LeaseRow(t[id], token, now)]
    ensures LeaseRows(t, now, leased)[id] == t[id]
  {
  }

  lemma {:induction false} ZipPairs(ids: seq<string>, tokens: seq<Token>, id: string)
    requires |ids| == |tokens| && id in Zip(ids, tokens)
    ensures exists i :: 0 <= i < |ids| && ids[i] == id && Zip(ids, tokens)[id] == tokens[i]
  {
    var n := |ids| - 1;
    if ids[n] != id {
      ZipPairs(ids[..n], tokens[..n], id);
      var i :| 0 <= i < n && ids[..n][i] == id && Zip(ids[..n], tokens[..n])[id] == tokens[..n][i];
      assert ids[i] == id && Zip(ids, tokens)[id] == tokens[i];
    }
  }

  /** A due page with fresh tokens is a poll step of the machine, so its receipts are fenced as proved there. */
  lemma {:induction false} DuePageIsPollStep(
    s: Store, key: string -> int, locked: set<string>, now: int, limit: nat, ids: seq<string>, tokens: seq<Token>)
    requires |ids| == |tokens| && IsDuePage(s.rows, key, locked, now, limit, ids)
    requires forall i :: 0 <= i < |tokens| ==> tokens[i] !in s.spent
    ensures PollAllowed(s, now, Zip(ids, tokens))
    ensures Next(s, Poll(now, Zip(ids, tokens))).rows == LeaseRows(s.rows, now, Zip(ids, tokens))
  {
    var z := Zip(ids, tokens);
    forall id | id in z ensures id in s.rows && Due(s.rows[id], now) && z[id] !in s.spent {
      ZipPairs(ids, tokens, id);
    }
  }

  class ContinuationTable {
    var rows: Table
    var gone: set<string>
    var reborn: set<string>

    function Now(): View
      reads this
    {
      View(rows, gone, reborn)
    }

    constructor ()
      ensures Now() == View(map[], {}, {})
    {
      rows, gone, reborn := map[], {}, {};
    }

    method OthersRun()
      requires ViewOk(Now())
      modifies this
      ensures Evolves(old(Now()), Now()) && ViewOk(Now())
    {
      assert Evolves(Now(), Now());
      var v :| Evolves(Now(), v);
      rows, gone, reborn := v.rows, v.gone, v.reborn;
    }

    /**
      `update`, `claim`, `record_wait_success`, `record_wait_failure`, `heartbeat` and `delete`: load,
      decide, replace or delete under the loaded revision, and try again when that is lost (a claim
      does not); each attempt reads the clock anew. Unless the identity was deleted and created again
      meanwhile: a true answer means the operation took effect at one moment `at`, on the row as it
      was then, and nothing between; giving up means other workers deleted the row or wrote it as
      often as this call tried.
     */
    method Mutate(id: string, op: Op, clock: seq<int>) returns (r: Answer, ghost at: View, ghost used: nat)
      requires ViewOk(Now()) && |clock| == MAX_CAS_RETRIES
      modifies this
      ensures ViewOk(Now()) && Evolves(old(Now()), at) && Evolves(at, Now()) && used < |clock|
      ensures Precheck(op) != Yes ==> r == Precheck(op) && Now() == old(Now())
      ensures op.Claim? ==> used == 0
      ensures r.Yes? && id !in reborn ==> id in at.rows && TookEffect(at, Now(), id, AtTime(op, clock[used]))
      ensures r.No? && id in at.rows ==>
        || !Enabled(at.rows[id].continuation, op)
        || (op.Claim? && id in old(rows) && Overtaken(old(Now()), Now(), id, 1))
      ensures r.No? && Precheck(op).Yes? ==>
        || id !in at.rows || Decide(at.rows[id].continuation, AtTime(op, clock[used])).Refused?
        || (op.Claim? && id in old(rows) && Overtaken(old(Now()), Now(), id, 1))
      ensures r.Rejected? && Precheck(op).Yes? ==>
        id in at.rows && Decide(at.rows[id].continuation, AtTime(op, clock[used])).Invalid?
      ensures r.RetriesExhausted? && id in old(rows) ==> Overtaken(old(Now()), Now(), id, MAX_CAS_RETRIES)
    {
      at, used := Now(), 0;
      assert Evolves(Now(), Now());
      if Precheck(op) != Yes {
        if id in rows { PrecheckAnticipates(op, rows[id].continuation); }
        return Precheck(op), at, used;
      }
      for attempt := 0 to Attempts(op)
        invariant ViewOk(Now()) && Evolves(old(Now()), Now()) && used < |clock|
        invariant id in old(rows) ==> Overtaken(old(Now()), Now(), id, attempt)
        invariant op.Claim? && attempt > 0 ==> id in old(rows)
        invariant attempt == 0 ==> Now() == old(Now())
        invariant attempt <= 1 ==> used == 0
      {
        ghost var before := Now();
        var once;
        once, at := MutateOnce(id, AtTime(op, clock[attempt]));
        used := attempt;
        EvolvesTransitively(old(Now()), before, at);
        EvolvesTransitively(old(Now()), before, Now());
        if id in at.rows { AttemptUsesItsClock(at.rows[id].continuation, op, clock[attempt]); }
        if !once.RetriesExhausted? { return once, at, used; }
      }
      at := Now();
      assert Evolves(Now(), Now());
      return if op.Claim? then No else RetriesExhausted, at, used;
    }

    method MutateOnce(id: string, op: Op) returns (r: Answer, ghost at: View)
      requires ViewOk(Now())
      modifies this
      ensures ViewOk(Now()) && Evolves(old(Now()), at) && Evolves(at, Now()) && Evolves(old(Now()), Now())
      ensures r.Yes? && id !in reborn ==> id in at.rows && TookEffect(at, Now(), id, op)
      ensures r.No? ==> id !in at.rows || Decide(at.rows[id].continuation, op).Refused?
      ensures r.No? ==> id !in at.rows || !Enabled(at.rows[id].continuation, op)
      ensures r.Rejected? ==> id in at.rows && Decide(at.rows[id].continuation, op).Invalid?
      ensures r.RetriesExhausted? ==> id in old(rows) && Overtaken(old(Now()), Now(), id, 1)
    {
      at := Now();
      assert Evolves(Now(), Now());
      if id !in rows { return No, at; }
      var current := rows[id];
      DecidesExactly(current.continuation, op);
      var decision := Decide(current.continuation, op);
      if decision.Refused? { return No, at; }
      if decision.NothingToDo? { return Yes, at; }
      if decision.Invalid? { return Rejected, at; }
      if decision.Write? { DecideKeepsIdentity(current.continuation, op); }
      OthersRun();
      ghost var loaded, base := at, Now();
      var done := Commit(id, current.revision, decision);
      EvolvesTransitively(loaded, base, Now());
      if done {
        at := base;
        return Yes, at;
      }
      return RetriesExhausted, at;
    }

    /** One guarded UPDATE or DELETE: touches the row only at the given revision, and drops any timeout lease. */
    method Commit(id: string, revision: nat, decision: Decision) returns (done: bool)
      requires ViewOk(Now()) && Acts(decision) && (decision.Write? ==> DeadlineMillis(decision.next).Ok?)
      modifies this
      ensures ViewOk(Now()) && Evolves(old(Now()), Now())
      ensures done <==> id in old(rows) && old(rows)[id].revision == revision
      ensures done && decision.Write? ==>
        var written := Row(decision.next, revision + 1, DeadlineMillis(decision.next).value, None, None);
        Evolves(old(Now()).(rows := old(rows)[id := written]), Now())
      ensures done && decision.Remove? ==>
        Evolves(old(Now()).(rows := old(rows) - {id}, gone := old(gone) + {id}), Now())
    {
      done := id in rows && rows[id].revision == revision;
      if done {
        ghost var base := Now();
        if decision.Write? {
          rows := rows[id := RowOf(decision.next, revision + 1)];
        } else {
          rows, gone := rows - {id}, gone + {id};
        }
        ghost var written := Now();
        assert Evolves(base, written);
        OthersRun();
        EvolvesTransitively(base, written, Now());
      } else {
        assert Evolves(Now(), Now());
      }
    }

    /** Leases one page of due rows, one fresh token each; answers the receipts in page order. */
    method PollPage(ids: seq<string>, tokens: seq<Token>, ghost key: string -> int, ghost locked: set<string>,
                    now: int, limit: nat) returns (r: Result<seq<(string, Token)>, ()>)
      requires |ids| == |tokens| && IsDuePage(rows, key, locked, now, limit, ids)
      modifies this`rows
      ensures r.Err? <==> now + 30_000 > I64_MAX
      ensures r.Err? ==> rows == old(rows)
      ensures FirstOverdue(old(rows), locked, now, limit, ids)
      ensures r.Ok? ==>
        && rows == LeaseRows(old(rows), now, Zip(ids, tokens))
        && Receipted(old(rows), rows, ids, tokens, now)
        && |r.value| == |ids| && forall i :: 0 <= i < |ids| ==> r.value[i] == (ids[i], tokens[i])
    {
      DuePageIsFirst(rows, key, locked, now, limit, ids);
      if now + RECEIPT_LEASE > I64_MAX { return Err(()); }
      var receipts := LeasePage(ids, tokens, now);
      LeasedPage(old(rows), ids, tokens, now);
      return Ok(receipts);
    }

    method LeasePage(ids: seq<string>, tokens: seq<Token>, now: int) returns (receipts: seq<(string, Token)>)
      requires |ids| == |tokens| && DistinctRows(rows, ids)
      modifies this`rows
      ensures rows == LeaseRows(old(rows), now, Zip(ids, tokens))
      ensures |receipts| == |ids| && forall i :: 0 <= i < |ids| ==> receipts[i] == (ids[i], tokens[i])
    {
      receipts := [];
      LeaseNoRow(rows, ids, tokens, now);
      for i := 0 to |ids|
        invariant |receipts| == i && forall k :: 0 <= k < i ==> receipts[k] == (ids[k], tokens[k])
        invariant rows == LeaseRows(old(rows), now, Zip(ids[..i], tokens[..i]))
      {
        LeaseNextRow(old(rows), ids, tokens, i, now);
        rows := rows[ids[i] := LeaseRow(rows[ids[i]], tokens[i], now)];
        receipts := receipts + [(ids[i], tokens[i])];
      }
      assert ids[..|ids|] == ids && tokens[..|ids|] == tokens;
    }

    /** Acknowledges or releases a receipt; a malformed token is an error, a stale one does nothing. */
    method SettleReceipt(id: string, token: Token, acknowledge: bool) returns (r: Result<(), ()>)
      modifies this`rows
      ensures r.Err? <==> |token| != 16
      ensures rows == SettleIn(old(rows), id, token, acknowledge)
      ensures |token| == 16 && id in old(rows) && old(rows)[id].dueToken == Some(token) ==>
        && id in rows && rows - {id} == old(rows) - {id}
        && rows[id].continuation == old(rows)[id].continuation && rows[id].revision == old(rows)[id].revision + 1
        && rows[id].dueToken.None? && rows[id].leaseUntilMs.None?
        && rows[id].deadlineMs == (if acknowledge then None else old(rows)[id].deadlineMs)
        && (forall now :: Due(rows[id], now) <==>
              !acknowledge && old(rows)[id].deadlineMs.Some? && old(rows)[id].deadlineMs.value <= now)
      ensures |token| != 16 || id !in old(rows) || old(rows)[id].dueToken != Some(token) ==> rows == old(rows)
    {
      if |token| != 16 { return Err(()); }
      if id in rows && rows[id].dueToken == Some(token) {
        rows := rows[id := SettleRow(rows[id], acknowledge)];
      }
      return Ok(());
    }
  }
}
