/**
  Event-sourced aggregates: replay, snapshots, and saves by competing writers. An aggregate type is
  given by its empty value, its version and its apply function; nothing about apply is assumed.
 */
module Aggregates {
  import opened Prelude
  import opened EventLog

  datatype ReplayError = ApplyFailed | VersionMismatch | SnapshotMismatch

  datatype Behaviour<!A> = Behaviour(
    empty: A,
    version: A -> int,
    apply: (A, Envelope) -> Option<A>)

  datatype Snapshot<+A> = Snapshot(version: int, state: A)

  /** Applies one stored event and checks that the aggregate arrived at the event's version. */
  function ApplyEvent<A>(b: Behaviour<A>, a: A, e: StoredEvent): Result<A, ReplayError> {
    match b.apply(a, e.envelope)
    case None => Err(ApplyFailed)
    case Some(next) => if b.version(next) != e.version then Err(VersionMismatch) else Ok(next)
  }

  function Fold<A>(b: Behaviour<A>, a: A, events: seq<StoredEvent>): Result<A, ReplayError>
    decreases |events|
  {
    if events == [] then Ok(a)
    else
      match ApplyEvent(b, a, events[0])
      case Err(e) => Err(e)
      case Ok(next) => Fold(b, next, events[1..])
  }

  /** The snapshot-free meaning of a stream: nothing for an empty stream, else the fold of all events. */
  function FullReplay<A>(b: Behaviour<A>, s: Stream): Result<Option<A>, ReplayError> {
    if s == [] then Ok(None)
    else match Fold(b, b.empty, s) case Err(e) => Err(e) case Ok(a) => Ok(Some(a))
  }

  lemma {:induction false} FoldAppend<A>(b: Behaviour<A>, a: A, xs: seq<StoredEvent>, ys: seq<StoredEvent>)
    ensures Fold(b, a, xs + ys)
         == (match Fold(b, a, xs) case Err(e) => Err(e) case Ok(m) => Fold(b, m, ys))
    decreases |xs|
  {
    if xs == [] {
      assert xs + ys == ys;
    } else {
      assert (xs + ys)[1..] == xs[1..] + ys;
      match ApplyEvent(b, a, xs[0])
      case Err(_) =>
      case Ok(next) => FoldAppend(b, next, xs[1..], ys);
    }
  }

  /** Timestamps play no part in a fold. */
  lemma {:induction false} FoldIgnoresTime<A>(b: Behaviour<A>, a: A, xs: seq<StoredEvent>, ys: seq<StoredEvent>)
    requires |xs| == |ys|
    requires forall i :: 0 <= i < |xs| ==> xs[i].envelope == ys[i].envelope && xs[i].version == ys[i].version
    ensures Fold(b, a, xs) == Fold(b, a, ys)
    decreases |xs|
  {
    if xs != [] {
      match ApplyEvent(b, a, xs[0])
      case Err(_) =>
      case Ok(next) => FoldIgnoresTime(b, next, xs[1..], ys[1..]);
    }
  }

  lemma {:induction false} FoldVersion<A>(b: Behaviour<A>, a: A, xs: seq<StoredEvent>)
    requires xs != [] && Fold(b, a, xs).Ok?
    ensures b.version(Fold(b, a, xs).value) == xs[|xs| - 1].version
    decreases |xs|
  {
    if |xs| > 1 {
      FoldVersion(b, ApplyEvent(b, a, xs[0]).value, xs[1..]);
    } else {
      assert xs[1..] == [];
    }
  }

  /** The stored snapshot is the replay of its prefix of the stream. */
  predicate SnapshotOk<A(==)>(b: Behaviour<A>, s: Stream, snapshot: Option<Snapshot<A>>) {
    snapshot.Some? ==>
      && 0 <= snapshot.value.version < |s|
      && Fold(b, b.empty, s[..snapshot.value.version + 1]) == Ok(snapshot.value.state)
  }

  lemma SnapshotStaysOk<A>(b: Behaviour<A>, s: Stream, s': Stream, snapshot: Option<Snapshot<A>>)
    requires SnapshotOk(b, s, snapshot) && s <= s'
    ensures SnapshotOk(b, s', snapshot)
  {
    if snapshot.Some? {
      assert s'[..snapshot.value.version + 1] == s[..snapshot.value.version + 1];
    }
  }

  function LatestVersion<A>(snapshot: Option<Snapshot<A>>): int {
    if snapshot.Some? then snapshot.value.version else -1
  }

  /** The cursor after a version; the largest version has none. */
  function NextEventVersion(version: int): Option<nat> {
    if version == I64_MAX then None else Some(Max(version + 1, 0))
  }

  /** Asking from the cursor after a stored version asks for exactly the later events. */
  lemma CursorSkipsSeen(s: Stream, version: int)
    requires StreamOk(s) && -1 <= version <= I64_MAX
    ensures var cursor := NextEventVersion(version);
      forall i :: 0 <= i < |s| ==> (s[i].version > version <==> cursor.Some? && i >= cursor.value)
  {
  }

  /** Snapshot when at least `interval` events have gone by, in saturating 64-bit arithmetic. */
  predicate ShouldSnapshot(interval: nat, current: int, last: int) {
    Max(I64_MIN, Min(current - last, I64_MAX)) >= Min(interval, I64_MAX)
  }

  /** Saturation never changes the answer for versions that can occur. */
  lemma ShouldSnapshotIsExact(interval: nat, current: int, last: int)
    requires interval >= 1 && -1 <= current <= I64_MAX && -1 <= last <= I64_MAX
    ensures ShouldSnapshot(interval, current, last) <==> current - last >= Min(interval, I64_MAX)
    ensures interval <= I64_MAX ==> (ShouldSnapshot(interval, current, last) <==> current - last >= interval)
  {
  }

  // ---------------------------------------------------------------------------------------------
  // Competing writers.

  /** Where a writer's save stands. `Working` holds local events not yet appended. */
  datatype Writer<+A> =
    | Working(state: A, pending: seq<Envelope>)
    | Appended(state: A)
    | Snapshotting(state: A)

  datatype Repository<+A> = Repository(stream: Stream, snapshot: Option<Snapshot<A>>, writers: map<nat, Writer<A>>)

  datatype Step =
    | Begin(writer: nat, length: nat)
    | Raise(writer: nat, envelope: Envelope)
    | AppendPending(writer: nat, timestamp: int)
    | LoadSnapshot(writer: nat)
    | SaveSnapshot(writer: nat)

  /** How a step ends a writer's save, if it does. */
  datatype Ending = Continues | SavedOk(version: int) | Rejected

  /** A local event, on an aggregate that keeps its promise to advance by one version. */
  function ApplyLocally<A>(b: Behaviour<A>, state: A, envelope: Envelope): Option<A> {
    var next := b.apply(state, envelope);
    if next.Some? && b.version(next.value) == b.version(state) + 1 then next else None
  }

  /**
    One atomic step. A writer begins with a load of some prefix of the stream, applies events
    locally, then saves: append under the expected version, look at the latest snapshot, and
    perhaps store a new one.
   */
  function Next<A>(b: Behaviour<A>, interval: nat, r: Repository<A>, step: Step): (Ending, Repository<A>) {
    match step
    case Begin(w, n) =>
      if n > |r.stream| || Fold(b, b.empty, r.stream[..n]).Err? || (n == 0 && b.version(b.empty) != -1)
      then (Continues, r)
      else (Continues, r.(writers := r.writers[w := Working(Fold(b, b.empty, r.stream[..n]).value, [])]))
    case Raise(w, envelope) =>
      if w !in r.writers || !r.writers[w].Working? then (Continues, r)
      else
        var Working(state, pending) := r.writers[w];
        var next := ApplyLocally(b, state, envelope);
        if next.None? then (Continues, r)
        else (Continues, r.(writers := r.writers[w := Working(next.value, pending + [envelope])]))
    case AppendPending(w, timestamp) =>
      if w !in r.writers || !r.writers[w].Working? || r.writers[w].pending == [] then (Continues, r)
      else
        var Working(state, pending) := r.writers[w];
        if b.version(state) - |pending| != |r.stream| - 1 || |r.stream| + |pending| > I64_MAX + 1 then (Rejected, r)
        else (Continues, r.(stream := Append(r.stream, pending, timestamp), writers := r.writers[w := Appended(state)]))
    case LoadSnapshot(w) =>
      if w !in r.writers || !r.writers[w].Appended? then (Continues, r)
      else
        var state := r.writers[w].state;
        if ShouldSnapshot(interval, b.version(state), LatestVersion(r.snapshot))
        then (Continues, r.(writers := r.writers[w := Snapshotting(state)]))
        else (SavedOk(b.version(state)), r.(writers := r.writers - {w}))
    case SaveSnapshot(w) =>
      if w !in r.writers || !r.writers[w].Snapshotting? then (Continues, r)
      else
        var state := r.writers[w].state;
        var idle := r.(writers := r.writers - {w});
        if LatestVersion(r.snapshot) > b.version(state) then (Rejected, idle)
        else (SavedOk(b.version(state)), idle.(snapshot := Some(Snapshot(b.version(state), state))))
  }

  function Run<A>(b: Behaviour<A>, interval: nat, r: Repository<A>, steps: seq<Step>): Repository<A>
    decreases |steps|
  {
    if steps == [] then r else Run(b, interval, Next(b, interval, r, steps[0]).1, steps[1..])
  }

  /** A writer's value is the replay of the prefix it started from, followed by its local events. */
  ghost predicate WriterOk<A>(b: Behaviour<A>, s: Stream, w: Writer<A>) {
    match w
    case Working(state, pending) =>
      var n := b.version(state) + 1 - |pending|;
      0 <= n <= |s| && Fold(b, b.empty, Append(s[..n], pending, 0)) == Ok(state)
    case Appended(state) => PrefixReplay(b, s, state)
    case Snapshotting(state) => PrefixReplay(b, s, state)
  }

  ghost predicate PrefixReplay<A>(b: Behaviour<A>, s: Stream, state: A) {
    0 <= b.version(state) < |s| && Fold(b, b.empty, s[..b.version(state) + 1]) == Ok(state)
  }

  ghost predicate RepositoryOk<A>(b: Behaviour<A>, r: Repository<A>) {
    && StreamOk(r.stream)
    && SnapshotOk(b, r.stream, r.snapshot)
    && forall w :: w in r.writers ==> WriterOk(b, r.stream, r.writers[w])
  }

  lemma WriterStaysOk<A>(b: Behaviour<A>, s: Stream, s': Stream, w: Writer<A>)
    requires WriterOk(b, s, w) && s <= s'
    ensures WriterOk(b, s', w)
  {
    match w
    case Working(state, pending) =>
      var n := b.version(state) + 1 - |pending|;
      assert s'[..n] == s[..n];
    case Appended(state) => assert s'[..b.version(state) + 1] == s[..b.version(state) + 1];
    case Snapshotting(state) => assert s'[..b.version(state) + 1] == s[..b.version(state) + 1];
  }

  lemma BeginIsOk<A>(b: Behaviour<A>, s: Stream, n: nat)
    requires StreamOk(s) && n <= |s| && Fold(b, b.empty, s[..n]).Ok? && (n == 0 ==> b.version(b.empty) == -1)
    ensures WriterOk(b, s, Working(Fold(b, b.empty, s[..n]).value, []))
  {
    if n > 0 { FoldVersion(b, b.empty, s[..n]); }
    assert Append(s[..n], [], 0) == s[..n];
  }

  lemma RaiseIsOk<A>(b: Behaviour<A>, s: Stream, state: A, pending: seq<Envelope>, envelope: Envelope, next: A)
    requires WriterOk(b, s, Working(state, pending))
    requires b.apply(state, envelope) == Some(next) && b.version(next) == b.version(state) + 1
    ensures WriterOk(b, s, Working(next, pending + [envelope]))
  {
    var n := b.version(state) + 1 - |pending|;
    var before, last := Append(s[..n], pending, 0), StoredEvent(n + |pending|, envelope, 0);
    assert Append(s[..n], pending + [envelope], 0) == before + [last];
    FoldAppend(b, b.empty, before, [last]);
    assert Fold(b, state, [last]) == Fold(b, next, []);
  }

  lemma AppendIsOk<A>(b: Behaviour<A>, s: Stream, state: A, pending: seq<Envelope>, timestamp: int)
    requires StreamOk(s) && WriterOk(b, s, Working(state, pending)) && pending != []
    requires b.version(state) - |pending| == |s| - 1
    ensures WriterOk(b, Append(s, pending, timestamp), Appended(state))
  {
    var s' := Append(s, pending, timestamp);
    assert s[..|s|] == s;
    assert s'[..b.version(state) + 1] == s';
    FoldIgnoresTime(b, b.empty, s', Append(s, pending, 0));
  }

  /** Every step keeps the repository's invariant; streams grow and the latest snapshot never goes back. */
  lemma {:induction false} NextKeepsRepository<A>(b: Behaviour<A>, interval: nat, r: Repository<A>, step: Step)
    requires RepositoryOk(b, r)
    ensures var r' := Next(b, interval, r, step).1;
      && RepositoryOk(b, r')
      && r.stream <= r'.stream && LatestVersion(r.snapshot) <= LatestVersion(r'.snapshot)
  {
    var r' := Next(b, interval, r, step).1;
    NextGrows(b, interval, r, step);
    SnapshotAfter(b, interval, r, step);
    forall w | w in r'.writers ensures WriterOk(b, r'.stream, r'.writers[w]) {
      if w in r.writers && r'.writers[w] == r.writers[w] {
        WriterStaysOk(b, r.stream, r'.stream, r.writers[w]);
      } else {
        MovedWriterOk(b, interval, r, step);
      }
    }
  }

  lemma NextGrows<A>(b: Behaviour<A>, interval: nat, r: Repository<A>, step: Step)
    requires StreamOk(r.stream)
    ensures var r' := Next(b, interval, r, step).1;
      StreamOk(r'.stream) && r.stream <= r'.stream && LatestVersion(r.snapshot) <= LatestVersion(r'.snapshot)
  {
  }

  lemma SnapshotAfter<A>(b: Behaviour<A>, interval: nat, r: Repository<A>, step: Step)
    requires RepositoryOk(b, r)
    ensures SnapshotOk(b, Next(b, interval, r, step).1.stream, Next(b, interval, r, step).1.snapshot)
  {
    var r' := Next(b, interval, r, step).1;
    NextGrows(b, interval, r, step);
    SnapshotStaysOk(b, r.stream, r'.stream, r.snapshot);
    if step.SaveSnapshot? && step.writer in r.writers { assert WriterOk(b, r.stream, r.writers[step.writer]); }
  }

  /** The writer that a step moves on is well formed afterwards. */
  lemma MovedWriterOk<A>(b: Behaviour<A>, interval: nat, r: Repository<A>, step: Step)
    requires RepositoryOk(b, r)
    ensures var r' := Next(b, interval, r, step).1;
      step.writer in r'.writers && (step.writer !in r.writers || r'.writers[step.writer] != r.writers[step.writer]) ==>
      WriterOk(b, r'.stream, r'.writers[step.writer])
  {
    var r', w := Next(b, interval, r, step).1, step.writer;
    if w in r.writers { assert WriterOk(b, r.stream, r.writers[w]); }
    match step {
      case Begin(_, n) =>
        if r' != r { BeginIsOk(b, r.stream, n); }
      case Raise(_, envelope) =>
        if r' != r {
          var Working(state, pending) := r.writers[w];
          RaiseIsOk(b, r.stream, state, pending, envelope, b.apply(state, envelope).value);
        }
      case AppendPending(_, timestamp) =>
        if r'.stream != r.stream {
          AppendIsOk(b, r.stream, r.writers[w].state, r.writers[w].pending, timestamp);
        }
      case LoadSnapshot(_) =>
      case SaveSnapshot(_) =>
    }
  }

  /** Across every run of competing saves, the stored snapshot is the fold of the events up to its version. */
  lemma {:induction false} SnapshotsAreReplays<A>(b: Behaviour<A>, interval: nat, r: Repository<A>, steps: seq<Step>)
    requires RepositoryOk(b, r)
    ensures var r' := Run(b, interval, r, steps);
      && RepositoryOk(b, r') && SnapshotOk(b, r'.stream, r'.snapshot)
      && r.stream <= r'.stream && LatestVersion(r.snapshot) <= LatestVersion(r'.snapshot)
    decreases |steps|
  {
    if steps != [] {
      NextKeepsRepository(b, interval, r, steps[0]);
      SnapshotsAreReplays(b, interval, Next(b, interval, r, steps[0]).1, steps[1..]);
    }
  }

  /** A successful save leaves its version less than `interval` ahead of the latest snapshot, and it stays so. */
  lemma {:induction false} SavedVersionNearSnapshot<A>(
    b: Behaviour<A>, interval: nat, r: Repository<A>, step: Step, later: seq<Step>)
    requires interval >= 1 && RepositoryOk(b, r) && Next(b, interval, r, step).0.SavedOk?
    ensures var r' := Run(b, interval, Next(b, interval, r, step).1, later);
      Next(b, interval, r, step).0.version - LatestVersion(r'.snapshot) < interval
  {
    NextKeepsRepository(b, interval, r, step);
    SnapshotsAreReplays(b, interval, Next(b, interval, r, step).1, later);
    if step.LoadSnapshot? {
      var state := r.writers[step.writer].state;
      ShouldSnapshotIsExact(interval, b.version(state), LatestVersion(r.snapshot));
    }
  }

  /**
    A save that nobody interrupts is refused exactly when the stream does not end right before its
    events, or versions run out. Otherwise it appends them, and stores a snapshot of the new version
    exactly when that is `interval` ahead of the latest.
   */
  lemma {:induction false} SaveAlone<A>(
    b: Behaviour<A>, interval: nat, r: Repository<A>, w: nat, state: A, pending: seq<Envelope>, timestamp: int)
    requires interval >= 1 && RepositoryOk(b, r) && w in r.writers && pending != []
    requires r.writers[w] == Working(state, pending)
    ensures var (appended, r1) := Next(b, interval, r, AppendPending(w, timestamp));
      var (looked, r2) := Next(b, interval, r1, LoadSnapshot(w));
      var (saved, r3) := Next(b, interval, r2, SaveSnapshot(w));
      var version := b.version(state);
      if version + 1 - |pending| != |r.stream| || |r.stream| + |pending| > I64_MAX + 1
      then appended == Rejected && r1 == r
      else
        && r1.stream == r.stream + Numbered(|r.stream|, pending, timestamp) == r3.stream
        && w !in r3.writers
        && if version - LatestVersion(r.snapshot) >= Min(interval, I64_MAX)
           then looked == Continues && saved == SavedOk(version) && r3.snapshot == Some(Snapshot(version, state))
           else looked == SavedOk(version) && r3.snapshot == r.snapshot
  {
    assert WriterOk(b, r.stream, r.writers[w]);
    var version := b.version(state);
    if version + 1 - |pending| == |r.stream| && |r.stream| + |pending| <= I64_MAX + 1 {
      ShouldSnapshotIsExact(interval, version, LatestVersion(r.snapshot));
    }
  }

  /** A snapshot is turned down exactly when a later one is stored. */
  lemma SnapshotRejectedExactlyWhen<A>(b: Behaviour<A>, interval: nat, r: Repository<A>, w: nat)
    requires RepositoryOk(b, r) && w in r.writers && r.writers[w].Snapshotting?
    ensures var (ending, r') := Next(b, interval, r, SaveSnapshot(w));
      var version := b.version(r.writers[w].state);
      && (ending.Rejected? <==> r.snapshot.Some? && r.snapshot.value.version > version)
      && (ending.Rejected? ==> r'.snapshot == r.snapshot && r'.stream == r.stream)
  {
    assert WriterOk(b, r.stream, r.writers[w]);
  }

  /** A writer that loads the whole stream and raises an event holds the stream's replay advanced by it. */
  lemma {:induction false} BeginAndRaise<A>(
    b: Behaviour<A>, interval: nat, r: Repository<A>, w: nat, state: A, envelope: Envelope, next: A)
    requires RepositoryOk(b, r) && Fold(b, b.empty, r.stream) == Ok(state) && b.version(state) == |r.stream| - 1
    requires b.apply(state, envelope) == Some(next) && b.version(next) == |r.stream|
    ensures var r1 := Next(b, interval, r, Begin(w, |r.stream|)).1;
      Next(b, interval, r1, Raise(w, envelope)).1 == r.(writers := r.writers[w := Working(next, [envelope])])
  {
    assert r.stream[..|r.stream|] == r.stream;
    var r1 := Next(b, interval, r, Begin(w, |r.stream|)).1;
    assert r1 == r.(writers := r.writers[w := Working(state, [])]);
    assert [] + [envelope] == [envelope];
    assert r1.writers[w := Working(next, [envelope])] == r.writers[w := Working(next, [envelope])];
  }

  /** Snapshot plus tail is the full replay, wherever the snapshot lies. */
  lemma {:induction false} SnapshotPlusTail<A>(b: Behaviour<A>, s: Stream, snapshot: Snapshot<A>)
    requires StreamOk(s) && SnapshotOk(b, s, Some(snapshot))
    ensures FullReplay(b, s)
      == (match Fold(b, snapshot.state, s[snapshot.version + 1..]) case Err(e) => Err(e) case Ok(a) => Ok(Some(a)))
    ensures b.version(snapshot.state) == snapshot.version
  {
    var v := snapshot.version + 1;
    assert s == s[..v] + s[v..];
    FoldAppend(b, b.empty, s[..v], s[v..]);
    FoldVersion(b, b.empty, s[..v]);
  }
}
