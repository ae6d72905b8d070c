/** The repository object: paged loading and saving while other writers append and snapshot. */
module AggregateRepositories {
  import opened Prelude
  import opened EventLog
  import opened Aggregates

  datatype SaveOutcome = Saved | InvalidVersion | AppendRejected | SnapshotRejected

  class AggregateRepository<A(==)> {
    const b: Behaviour<A>
    const interval: nat
    var stream: Stream
    var snapshot: Option<Snapshot<A>>

    ghost predicate Valid()
      reads this
    {
      interval >= 1 && StreamOk(stream) && SnapshotOk(b, stream, snapshot)
    }

    constructor (b: Behaviour<A>, interval: nat)
      requires interval >= 1
      ensures Valid() && stream == [] && snapshot == None
    {
      this.b, this.interval, stream, snapshot := b, interval, [], None;
    }

    /** Other writers' steps (`NextKeepsRepository`). */
    method OthersRun()
      requires Valid()
      modifies this
      ensures Valid() && old(stream) <= stream && LatestVersion(old(snapshot)) <= LatestVersion(snapshot)
    {
      var s :| StreamOk(s) && stream <= s;
      SnapshotStaysOk(b, stream, s, snapshot);
      stream := s;
      var other :| SnapshotOk(b, stream, other) && LatestVersion(snapshot) <= LatestVersion(other);
      snapshot := other;
    }

    /**
      Loads from the latest snapshot and the pages after it. Whatever the page boundaries, and
      however the stream grows meanwhile, the answer is the full replay of the stream as it stood
      at one moment of the call.
     */
    method Load() returns (r: Result<Option<A>, ReplayError>, ghost length: nat)
      requires Valid()
      modifies this
      ensures Valid() && old(stream) <= stream
      ensures |old(stream)| <= length <= |stream| && r == FullReplay(b, stream[..length])
    {
      var loaded := snapshot;
      length := |stream|;
      assert stream[..length] == stream;
      var aggregate, cursor: nat := b.empty, 0;
      if loaded.Some? {
        SnapshotPlusTail(b, stream, loaded.value);
        aggregate := loaded.value.state;
        if b.version(aggregate) != loaded.value.version { return Err(SnapshotMismatch), length; }
        var next := NextEventVersion(loaded.value.version);
        if next.None? { return Ok(Some(aggregate)), length; }
        cursor := next.value;
      }
      var tail, end := LoadTail(aggregate, cursor);
      length := end;
      if tail.Err? { return Err(tail.error), length; }
      return if loaded.None? && end == 0 then Ok(None) else Ok(Some(tail.value)), length;
    }

    /** Follows the pages after `cursor` until the store reports no further one. */
    method LoadTail(start: A, from: nat) returns (r: Result<A, ReplayError>, end: nat)
      requires Valid() && from <= |stream| && Fold(b, b.empty, stream[..from]) == Ok(start)
      modifies this
      ensures Valid() && old(stream) <= stream
      ensures |old(stream)| <= end <= |stream| && from <= end
      ensures r == Fold(b, b.empty, stream[..end])
      ensures r.Err? ==> end > 0
    {
      var aggregate, cursor, done := start, from, false;
      while !done
        invariant Valid() && old(stream) <= stream
        invariant from <= cursor <= |stream| && Fold(b, b.empty, stream[..cursor]) == Ok(aggregate)
        invariant done ==> |old(stream)| <= cursor
        decreases !done, I64_MAX + 1 - cursor
      {
        ghost var seen := stream;
        OthersRun();
        assert stream[..cursor] == seen[..cursor];
        var page := ReadPage(stream, cursor);
        PageExtends(b, stream, cursor, page, aggregate);
        var next := ApplyEvents(b, aggregate, page.events);
        if next.Err? {
          FoldStuck(b, stream, cursor + |page.events|, next.error);
          end := |stream|;
          assert stream[..end] == stream;
          return next, end;
        }
        aggregate, cursor, done := next.value, cursor + |page.events|, page.next.None?;
      }
      return Ok(aggregate), cursor;
    }

    /**
      Saves an aggregate with its local events. The append is refused exactly when the stream does
      not end right before them (or versions run out); otherwise they stand in the stream there, and
      on success the version is less than `interval` ahead of the latest snapshot. If the aggregate
      was a replayed prefix advanced by these events, stored snapshots stay replays.
     */
    method Save(state: A, pending: seq<Envelope>, timestamp: int) returns (r: SaveOutcome, ghost base: int)
      requires Valid()
      modifies this
      ensures StreamOk(stream) && old(stream) <= stream && LatestVersion(old(snapshot)) <= LatestVersion(snapshot)
      ensures WriterOk(b, old(stream), Working(state, pending)) ==> Valid()
      ensures base == b.version(state) + 1 - |pending|
      ensures pending == [] ==> r.Saved? && stream == old(stream) && snapshot == old(snapshot)
      ensures r.InvalidVersion? <==> pending != [] && (|pending| > I64_MAX || b.version(state) - |pending| < I64_MIN)
      ensures r.AppendRejected? <==>
        && pending != [] && !r.InvalidVersion?
        && (|old(stream)| != base || |old(stream)| + |pending| > I64_MAX + 1)
      ensures pending != [] && (r.Saved? || r.SnapshotRejected?) ==>
        && 0 <= base <= base + |pending| <= |stream|
        && stream[base..base + |pending|] == Numbered(base, pending, timestamp)
        && (WriterOk(b, old(stream), Working(state, pending)) ==> PrefixReplay(b, stream, state))
      ensures pending != [] && r.Saved? ==> b.version(state) - LatestVersion(snapshot) < interval
      ensures r.SnapshotRejected? ==> LatestVersion(snapshot) > b.version(state)
    {
      base := b.version(state) + 1 - |pending|;
      if pending == [] { return Saved, base; }
      if |pending| > I64_MAX || b.version(state) - |pending| < I64_MIN { return InvalidVersion, base; }
      var expected := b.version(state) - |pending|;
      if expected != |stream| - 1 || |stream| + |pending| > I64_MAX + 1 { return AppendRejected, base; }
      ghost var built := WriterOk(b, stream, Working(state, pending));
      if built { AppendIsOk(b, stream, state, pending, timestamp); }
      SnapshotStaysOk(b, stream, Append(stream, pending, timestamp), snapshot);
      stream := Append(stream, pending, timestamp);
      ghost var appended := stream;
      OthersRun();
      if built { WriterStaysOk(b, appended, stream, Appended(state)); }
      var kept := SaveSnapshot(state);
      assert stream[base..base + |pending|] == appended[base..];
      return if kept then Saved else SnapshotRejected, base;
    }

    /** The snapshot half of a save: the strategy is asked, and a newer stored snapshot wins. */
    method SaveSnapshot(state: A) returns (kept: bool)
      requires Valid() && 0 <= b.version(state) < |stream|
      modifies this
      ensures StreamOk(stream) && old(stream) <= stream && LatestVersion(old(snapshot)) <= LatestVersion(snapshot)
      ensures Valid() || snapshot == Some(Snapshot(b.version(state), state))
      ensures PrefixReplay(b, old(stream), state) ==> Valid() && PrefixReplay(b, stream, state)
      ensures kept ==> b.version(state) - LatestVersion(snapshot) < interval
      ensures !kept ==> LatestVersion(snapshot) > b.version(state)
    {
      var last := LatestVersion(snapshot);
      ShouldSnapshotIsExact(interval, b.version(state), last);
      if !ShouldSnapshot(interval, b.version(state), last) { return true; }
      ghost var before := stream;
      OthersRun();
      if PrefixReplay(b, before, state) { WriterStaysOk(b, before, stream, Appended(state)); }
      if LatestVersion(snapshot) > b.version(state) { return false; }
      snapshot := Some(Snapshot(b.version(state), state));
      return true;
    }
  }

  /** Applies the events of one page in order, stopping at the first error. */
  method ApplyEvents<A>(b: Behaviour<A>, start: A, events: seq<StoredEvent>) returns (r: Result<A, ReplayError>)
    ensures r == Fold(b, start, events)
  {
    var aggregate := start;
    for i := 0 to |events|
      invariant Fold(b, start, events) == Fold(b, aggregate, events[i..])
    {
      var next := ApplyEvent(b, aggregate, events[i]);
      assert events[i..][1..] == events[i + 1..];
      if next.Err? { return next; }
      aggregate := next.value;
    }
    return Ok(aggregate);
  }

  /** A page continues the replay of the prefix before it. */
  lemma PageExtends<A>(b: Behaviour<A>, s: Stream, cursor: nat, p: Page, a: A)
    requires cursor <= |s| && IsPage(s, cursor, p) && Fold(b, b.empty, s[..cursor]) == Ok(a)
    ensures cursor + |p.events| <= |s| && Fold(b, b.empty, s[..cursor + |p.events|]) == Fold(b, a, p.events)
  {
    assert s[..cursor + |p.events|] == s[..cursor] + p.events;
    FoldAppend(b, b.empty, s[..cursor], p.events);
  }

  /** An error met on a prefix is the error of the whole. */
  lemma FoldStuck<A>(b: Behaviour<A>, s: Stream, n: nat, error: ReplayError)
    requires n <= |s| && Fold(b, b.empty, s[..n]) == Err(error)
    ensures Fold(b, b.empty, s) == Err(error)
  {
    assert s == s[..n] + s[n..];
    FoldAppend(b, b.empty, s[..n], s[n..]);
  }
}
