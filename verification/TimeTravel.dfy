/**
  Aggregate state at a historical version or time, rebuilt from scratch or from the newest earlier
  snapshot. The rebuild from scratch is the reference; the snapshot form is the fast one.
 */
module TimeTravel {
  import opened Prelude
  import opened EventLog
  import opened Aggregates
  import opened AggregateRepositories

  /** Stored snapshots by version. */
  type History<A> = map<int, A>

  /** Every stored snapshot is the replay of its prefix. */
  ghost predicate HistoryOk<A>(b: Behaviour<A>, s: Stream, h: History<A>) {
    forall v :: v in h ==> 0 <= v < |s| && Fold(b, b.empty, s[..v + 1]) == Ok(h[v])
  }

  /** The newest snapshot whose version does not exceed `version`. */
  ghost predicate IsNewest<A>(h: History<A>, version: int, r: Option<Snapshot<A>>) {
    match r
    case None => forall v :: v in h ==> v > version
    case Some(snapshot) =>
      && snapshot.version in h && h[snapshot.version] == snapshot.state && snapshot.version <= version
      && forall v :: v in h && v <= version ==> v <= snapshot.version
  }

  method LoadAtVersion<A>(h: History<A>, version: int) returns (r: Option<Snapshot<A>>)
    ensures IsNewest(h, version, r)
  {
    var keys := set v | v in h && v <= version;
    r := None;
    while keys != {}
      invariant keys <= h.Keys && forall v :: v in keys ==> v <= version
      invariant match r
        case None => forall v :: v in h && v <= version ==> v in keys
        case Some(snapshot) =>
          && snapshot.version in h && h[snapshot.version] == snapshot.state && snapshot.version <= version
          && forall v :: v in h && v <= version ==> v in keys || v <= snapshot.version
      decreases |keys|
    {
      var v :| v in keys;
      keys := keys - {v};
      if r.None? || v > r.value.version { r := Some(Snapshot(v, h[v])); }
    }
  }

  // ---------------------------------------------------------------------------------------------
  // From scratch.

  /** A replay up to a version replays the events not past it, and arrives at it or at the end of the stream. */
  lemma VersionOfReplay<A>(b: Behaviour<A>, s: Stream, version: int)
    requires StreamOk(s)
    ensures var n := |UpTo(s, version)|; CutsAt(s, version, n) && UpTo(s, version) == s[..n]
    ensures var r := FullReplay(b, UpTo(s, version));
      r.Ok? && r.value.Some? ==> b.version(r.value.value) == Min(version, |s| - 1)
  {
    UpToCuts(s, version);
    var prefix := UpTo(s, version);
    if prefix != [] && Fold(b, b.empty, prefix).Ok? { FoldVersion(b, b.empty, prefix); }
  }

  /** Rebuilds at an inclusive version by following bounded pages: the full replay of that prefix. */
  method RebuildVersion<A>(b: Behaviour<A>, s: Stream, version: int) returns (r: Result<Option<A>, ReplayError>)
    requires StreamOk(s)
    ensures r == FullReplay(b, UpTo(s, version))
    ensures exists n: nat :: CutsAt(s, version, n) && r == FullReplay(b, s[..n])
    ensures r.Ok? && r.value.Some? ==> b.version(r.value.value) == Min(version, |s| - 1)
  {
    VersionOfReplay(b, s, version);
    if version < 0 { return Ok(None); }
    var prefix := UpTo(s, version);
    assert prefix[..0] == [];
    var last := ReplayPages(b, prefix, b.empty, 0);
    if last.Err? { return Err(last.error); }
    return if prefix == [] then Ok(None) else Ok(Some(last.value));
  }

  /** The page loop shared by both forms: the fold of everything from the cursor on. */
  method ReplayPages<A>(b: Behaviour<A>, s: Stream, start: A, from: nat) returns (r: Result<A, ReplayError>)
    requires from <= |s| && Fold(b, b.empty, s[..from]) == Ok(start)
    ensures r == Fold(b, b.empty, s)
  {
    var aggregate, cursor, done := start, from, false;
    while !done
      invariant from <= cursor <= |s| && Fold(b, b.empty, s[..cursor]) == Ok(aggregate)
      invariant done ==> cursor == |s|
      decreases !done, |s| - cursor
    {
      var page := ReadPage(s, cursor);
      PageExtends(b, s, cursor, page, aggregate);
      var next := ApplyEvents(b, aggregate, page.events);
      if next.Err? {
        FoldStuck(b, s, cursor + |page.events|, next.error);
        return next;
      }
      aggregate, cursor, done := next.value, cursor + |page.events|, page.next.None?;
    }
    assert s[..cursor] == s;
    return Ok(aggregate);
  }

  /** Follows time pages from a cursor, applying what matches; pages without a match are passed over. */
  method ReplayTimePages<A>(b: Behaviour<A>, s: Stream, start: A, from: nat, bound: int)
      returns (r: Result<A, ReplayError>, found: bool)
    requires from <= |s|
    ensures r == Fold(b, start, Matching(s[from..], bound))
    ensures r.Ok? ==> (found <==> Matching(s[from..], bound) != [])
  {
    var aggregate, cursor, done := start, from, from == |s|;
    found := false;
    assert s[|s|..] == [];
    while !done
      invariant from <= cursor <= |s| && (done <==> cursor == |s|)
      invariant Fold(b, start, Matching(s[from..cursor], bound)) == Ok(aggregate)
      invariant found <==> Matching(s[from..cursor], bound) != []
      decreases |s| - cursor
    {
      var page, end := ReadTimePage(s, cursor, bound);
      TimePageExtends(b, s, start, from, cursor, end, bound, aggregate);
      var next := ApplyEvents(b, aggregate, page.events);
      if next.Err? {
        TimeFoldStuck(b, s, start, from, end, bound, next.error);
        return next, true;
      }
      found := found || page.events != [];
      aggregate, done := next.value, page.next.None?;
      cursor := if done then |s| else page.next.value;
    }
    assert s[from..cursor] == s[from..];
    return Ok(aggregate), found;
  }

  /** A time page continues the fold of the matching events before it. */
  lemma TimePageExtends<A>(
    b: Behaviour<A>, s: Stream, start: A, from: nat, cursor: nat, end: nat, bound: int, a: A)
    requires from <= cursor <= end <= |s| && Fold(b, start, Matching(s[from..cursor], bound)) == Ok(a)
    ensures Matching(s[from..end], bound) == Matching(s[from..cursor], bound) + Matching(s[cursor..end], bound)
    ensures Fold(b, start, Matching(s[from..end], bound)) == Fold(b, a, Matching(s[cursor..end], bound))
  {
    assert s[from..end] == s[from..cursor] + s[cursor..end];
    MatchingSplits(s[from..cursor], s[cursor..end], bound);
    FoldAppend(b, start, Matching(s[from..cursor], bound), Matching(s[cursor..end], bound));
  }

  lemma TimeFoldStuck<A>(
    b: Behaviour<A>, s: Stream, start: A, from: nat, end: nat, bound: int, error: ReplayError)
    requires from <= end <= |s| && Fold(b, start, Matching(s[from..end], bound)) == Err(error)
    ensures Fold(b, start, Matching(s[from..], bound)) == Err(error)
  {
    assert s[from..] == s[from..end] + s[end..];
    MatchingSplits(s[from..end], s[end..], bound);
    FoldAppend(b, start, Matching(s[from..end], bound), Matching(s[end..], bound));
  }

  /** Rebuilds at a time: the fold of every event stored no later. */
  method RebuildTime<A>(b: Behaviour<A>, s: Stream, bound: int) returns (r: Result<Option<A>, ReplayError>)
    ensures r == FullReplay(b, Matching(s, bound))
  {
    assert s[0..] == s;
    var last, found := ReplayTimePages(b, s, b.empty, 0, bound);
    if last.Err? { return Err(last.error); }
    return if found then Ok(Some(last.value)) else Ok(None);
  }

  // ---------------------------------------------------------------------------------------------
  // From the newest earlier snapshot.

  /** The snapshot form at a version returns exactly what the rebuild from scratch returns. */
  method StateAtVersion<A>(b: Behaviour<A>, s: Stream, h: History<A>, version: int)
      returns (r: Result<Option<A>, ReplayError>)
    requires StreamOk(s) && HistoryOk(b, s, h)
    ensures r == FullReplay(b, UpTo(s, version))
    ensures exists n: nat :: CutsAt(s, version, n) && r == FullReplay(b, s[..n])
    ensures r.Ok? && r.value.Some? ==> b.version(r.value.value) == Min(version, |s| - 1)
  {
    VersionOfReplay(b, s, version);
    if version < 0 { return Ok(None); }
    var prefix := UpTo(s, version);
    var snapshot := LoadAtVersion(h, version);
    var aggregate, cursor := b.empty, 0;
    assert prefix[..0] == [];
    if snapshot.Some? {
      var v := snapshot.value.version;
      assert prefix[..v + 1] == s[..v + 1];
      FoldVersion(b, b.empty, s[..v + 1]);
      aggregate := snapshot.value.state;
      if b.version(aggregate) != v { return Err(SnapshotMismatch); }
      var next := NextEventVersion(v);
      if next.None? {
        assert prefix == prefix[..v + 1];
        return Ok(Some(aggregate));
      }
      cursor := next.value;
    }
    var last := ReplayPages(b, prefix, aggregate, cursor);
    if last.Err? { return Err(last.error); }
    return if snapshot.None? && prefix == [] then Ok(None) else Ok(Some(last.value));
  }

  /** What the snapshot form computes at a time: the snapshot, then the matching events after it. */
  function FromSnapshot<A>(b: Behaviour<A>, s: Stream, snapshot: Option<Snapshot<A>>, bound: int)
      : Result<Option<A>, ReplayError>
    requires snapshot.Some? ==> 0 <= snapshot.value.version < |s|
  {
    if Matching(s, bound) == [] then Ok(None)
    else
      var start := if snapshot.Some? then snapshot.value.state else b.empty;
      var cursor := if snapshot.Some? then snapshot.value.version + 1 else 0;
      match Fold(b, start, Matching(s[cursor..], bound))
      case Err(e) => Err(e)
      case Ok(a) => Ok(Some(a))
  }

  /** The version of the last event at or before the bound, by following the time pages. */
  method LastMatchingVersion(s: Stream, bound: int) returns (target: Option<int>)
    ensures target.None? <==> Matching(s, bound) == []
    ensures target.Some? ==> target.value == Matching(s, bound)[|Matching(s, bound)| - 1].version
  {
    target := None;
    var cursor, done := 0, s == [];
    while !done
      invariant cursor <= |s| && (done <==> cursor == |s|)
      invariant target.None? <==> Matching(s[..cursor], bound) == []
      invariant target.Some? ==>
        target.value == Matching(s[..cursor], bound)[|Matching(s[..cursor], bound)| - 1].version
      decreases |s| - cursor
    {
      var page, end := ReadTimePage(s, cursor, bound);
      assert s[..end] == s[..cursor] + s[cursor..end];
      MatchingSplits(s[..cursor], s[cursor..end], bound);
      if page.events != [] { target := Some(page.events[|page.events| - 1].version); }
      done := page.next.None?;
      cursor := if done then |s| else page.next.value;
    }
    assert s[..cursor] == s;
  }

  /**
    The snapshot form at a time. With the events no later than the bound forming a prefix of the
    stream, as non-decreasing timestamps make them, it equals the rebuild from scratch.
   */
  method StateAtTime<A>(b: Behaviour<A>, s: Stream, h: History<A>, bound: int)
      returns (r: Result<Option<A>, ReplayError>, ghost snapshot: Option<Snapshot<A>>)
    requires StreamOk(s) && HistoryOk(b, s, h)
    ensures snapshot.Some? ==> 0 <= snapshot.value.version < |s|
    ensures Matching(s, bound) != [] ==>
      IsNewest(h, Matching(s, bound)[|Matching(s, bound)| - 1].version, snapshot)
    ensures r == FromSnapshot(b, s, snapshot, bound)
    ensures MatchingIsPrefix(s, bound) ==> r == FullReplay(b, Matching(s, bound))
    ensures NonDecreasing(s) ==> r == FullReplay(b, Matching(s, bound))
  {
    if NonDecreasing(s) { NonDecreasingGivesPrefix(s, bound); }
    snapshot := None;
    var target := LastMatchingVersion(s, bound);
    if target.None? { return Ok(None), snapshot; }
    var loaded := LoadAtVersion(h, target.value);
    snapshot := loaded;
    if MatchingIsPrefix(s, bound) { SnapshotFormIsExact(b, s, h, loaded, bound); }
    var aggregate, cursor := b.empty, 0;
    if loaded.Some? {
      var v := loaded.value.version;
      aggregate := loaded.value.state;
      FoldVersion(b, b.empty, s[..v + 1]);
      if b.version(aggregate) != v { return Err(SnapshotMismatch), snapshot; }
      var next := NextEventVersion(v);
      if next.None? {
        assert s[v + 1..] == [];
        return Ok(Some(aggregate)), snapshot;
      }
      cursor := next.value;
    }
    var last, _ := ReplayTimePages(b, s, aggregate, cursor, bound);
    if last.Err? { return Err(last.error), snapshot; }
    return Ok(Some(last.value)), snapshot;
  }

  // ---------------------------------------------------------------------------------------------
  // When the two forms agree.

  predicate MatchingIsPrefix(s: Stream, bound: int) {
    |Matching(s, bound)| <= |s| && Matching(s, bound) == s[..|Matching(s, bound)|]
  }

  predicate NonDecreasing(s: Stream) {
    forall i, j :: 0 <= i < j < |s| ==> s[i].timestamp <= s[j].timestamp
  }

  lemma {:induction false} NonDecreasingGivesPrefix(s: Stream, bound: int)
    requires NonDecreasing(s)
    ensures MatchingIsPrefix(s, bound)
  {
    if s != [] {
      var front := s[..|s| - 1];
      NonDecreasingGivesPrefix(front, bound);
      if s[|s| - 1].timestamp <= bound {
        AllMatch(front, bound);
        assert front + [s[|s| - 1]] == s;
      } else {
        assert Matching(s, bound) == front[..|Matching(s, bound)|] == s[..|Matching(s, bound)|];
      }
    }
  }

  lemma {:induction false} AllMatch(s: Stream, bound: int)
    requires forall i :: 0 <= i < |s| ==> s[i].timestamp <= bound
    ensures Matching(s, bound) == s
  {
    if s != [] {
      AllMatch(s[..|s| - 1], bound);
      assert s == s[..|s| - 1] + [s[|s| - 1]];
    }
  }

  /** Splitting at any point inside a matching prefix leaves the rest of the prefix after it. */
  lemma {:induction false} PrefixTail(s: Stream, bound: int, n: nat)
    requires MatchingIsPrefix(s, bound) && n <= |Matching(s, bound)|
    ensures s[..n] + Matching(s[n..], bound) == Matching(s, bound)
  {
    var k := |Matching(s, bound)|;
    forall i | 0 <= i < n ensures s[i].timestamp <= bound {
      MatchingIsSubsequence(s, bound);
      assert s[i] == Matching(s, bound)[i];
      assert s[i] in Matching(s, bound);
    }
    AllMatch(s[..n], bound);
    MatchingSplits(s[..n], s[n..], bound);
    assert s == s[..n] + s[n..];
  }

  lemma {:induction false} SnapshotFormIsExact<A>(
    b: Behaviour<A>, s: Stream, h: History<A>, snapshot: Option<Snapshot<A>>, bound: int)
    requires StreamOk(s) && HistoryOk(b, s, h) && Matching(s, bound) != [] && MatchingIsPrefix(s, bound)
    requires IsNewest(h, Matching(s, bound)[|Matching(s, bound)| - 1].version, snapshot)
    ensures snapshot.Some? ==> 0 <= snapshot.value.version < |s|
    ensures FromSnapshot(b, s, snapshot, bound) == FullReplay(b, Matching(s, bound))
  {
    var m := Matching(s, bound);
    if snapshot.Some? {
      var n := snapshot.value.version + 1;
      assert m[|m| - 1] == s[|m| - 1];
      PrefixTail(s, bound, n);
      FoldAppend(b, b.empty, s[..n], Matching(s[n..], bound));
    } else {
      assert s[0..] == s;
    }
  }

  /** An aggregate type that keeps the trait's promise: apply succeeds and advances by one version. */
  ghost predicate Conforming<A(!new)>(b: Behaviour<A>) {
    && b.version(b.empty) == -1
    && forall a: A, e: Envelope :: b.apply(a, e).Some? && b.version(b.apply(a, e).value) == b.version(a) + 1
  }

  ghost predicate Consecutive(events: seq<StoredEvent>, from: int) {
    forall i :: 0 <= i < |events| ==> events[i].version == from + i
  }

  lemma {:induction false} ConformingFold<A(!new)>(b: Behaviour<A>, a: A, events: seq<StoredEvent>)
    requires Conforming(b)
    ensures Fold(b, a, events).Ok? <==> Consecutive(events, b.version(a) + 1)
    ensures Fold(b, a, events).Err? ==> Fold(b, a, events).error == VersionMismatch
    decreases |events|
  {
    if events != [] {
      var next := b.apply(a, events[0].envelope).value;
      assert b.version(next) == b.version(a) + 1;
      if events[0].version == b.version(next) {
        ConformingFold(b, next, events[1..]);
        if Consecutive(events[1..], b.version(next) + 1) {
          assert forall i :: 1 <= i < |events| ==> events[i] == events[1..][i - 1];
        } else {
          assert forall i :: 0 <= i < |events| - 1 ==> events[1..][i] == events[i + 1];
        }
      }
    }
  }

  /**
    Without ordered timestamps the two forms can differ. For conforming aggregates they agree
    exactly when the matching events are consecutive from version 0, or those after the snapshot
    are not consecutive either (then both report a version mismatch).
   */
  lemma {:induction false} FormsAgreeExactlyWhen<A(!new)>(b: Behaviour<A>, s: Stream, snapshot: Snapshot<A>, bound: int)
    requires Conforming(b) && StreamOk(s) && SnapshotOk(b, s, Some(snapshot)) && Matching(s, bound) != []
    requires snapshot.version <= Matching(s, bound)[|Matching(s, bound)| - 1].version
    ensures FromSnapshot(b, s, Some(snapshot), bound) == FullReplay(b, Matching(s, bound))
      <==> || Consecutive(Matching(s, bound), 0)
           || !Consecutive(Matching(s[snapshot.version + 1..], bound), snapshot.version + 1)
  {
    var m, n := Matching(s, bound), snapshot.version + 1;
    SnapshotPlusTail(b, s, snapshot);
    ConformingFold(b, b.empty, m);
    ConformingFold(b, snapshot.state, Matching(s[n..], bound));
    if Consecutive(m, 0) {
      ConsecutiveIsPrefix(s, bound);
      assert m[|m| - 1] == s[|m| - 1];
      PrefixTail(s, bound, n);
      FoldAppend(b, b.empty, s[..n], Matching(s[n..], bound));
    }
  }

  /** For instance two events stored out of time order, with a snapshot of the first. */
  lemma FormsCanDiffer<A(!new)>(b: Behaviour<A>, e: Envelope)
    requires Conforming(b)
    ensures var s := [StoredEvent(0, e, 5), StoredEvent(1, e, 3)];
      var snapshot := Snapshot(0, b.apply(b.empty, e).value);
      && SnapshotOk(b, s, Some(snapshot))
      && FromSnapshot(b, s, Some(snapshot), 4) != FullReplay(b, Matching(s, 4))
  {
    var first, second := StoredEvent(0, e, 5), StoredEvent(1, e, 3);
    var s, snapshot := [first, second], Snapshot(0, b.apply(b.empty, e).value);
    MatchSecond(first, second, 4);
    SnapshotOfFirst(b, first, second);
    FormsAgreeExactlyWhen(b, s, snapshot, 4);
  }

  lemma SnapshotOfFirst<A(!new)>(b: Behaviour<A>, first: StoredEvent, second: StoredEvent)
    requires Conforming(b) && first.version == 0 && second.version == 1
    ensures SnapshotOk(b, [first, second], Some(Snapshot(0, b.apply(b.empty, first.envelope).value)))
  {
    assert [first, second][..1] == [first] && [first][1..] == [];
    ConformingFold(b, b.empty, [first]);
  }

  lemma MatchSecond(first: StoredEvent, second: StoredEvent, bound: int)
    requires second.timestamp <= bound < first.timestamp
    ensures Matching([first, second], bound) == [second]
  {
    assert [first, second] == [first] + [second];
    MatchingSplits([first], [second], bound);
    MatchOne(first, bound);
    MatchOne(second, bound);
  }

  lemma MatchOne(e: StoredEvent, bound: int)
    ensures Matching([e], bound) == if e.timestamp <= bound then [e] else []
  {
    assert [e][..0] == [];
  }

  lemma ConsecutiveIsPrefix(s: Stream, bound: int)
    requires StreamOk(s) && Consecutive(Matching(s, bound), 0)
    ensures MatchingIsPrefix(s, bound)
  {
    var m := Matching(s, bound);
    MatchingIsSubsequence(s, bound);
    forall i | 0 <= i < |m| ensures m[i] == s[i] {
      assert m[i] in m;
      var j :| 0 <= j < |s| && s[j] == m[i];
    }
  }
}
