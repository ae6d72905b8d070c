/**
  Catch-up projections: apply every event after the checkpoint, saving the checkpoint after each.
  Any apply or save may fail, with or without having taken effect, and the next run starts over
  from whatever checkpoint is stored.
 */
module Projections {
  import opened Prelude
  import opened EventLog

  /** How one call ends: well, failing before it took effect, or failing after. */
  datatype Outcome = Fine | FailsBefore | FailsAfter

  /** The outcomes of the apply and of the save for one event. */
  datatype Attempt = Attempt(apply: Outcome, save: Outcome)

  /** One stream's progress: the versions applied so far, in order, and the stored checkpoint. */
  datatype Progress = Progress(applied: seq<int>, checkpoint: Option<int>)

  /** The cursor after a checkpoint; a negative cursor or one past the largest version is an error. */
  function NextVersionAfter(version: int): Option<nat> {
    if version >= I64_MAX || version + 1 < 0 then None else Some(version + 1)
  }

  function StartVersion(checkpoint: Option<int>): Option<nat> {
    if checkpoint.None? then Some(0) else NextVersionAfter(checkpoint.value)
  }

  /** One event: apply, then save the checkpoint, then step the cursor. True if the run goes on. */
  function Process(p: Progress, version: int, a: Attempt): (bool, Progress) {
    var applied := if a.apply.FailsBefore? then p.applied else p.applied + [version];
    if !a.apply.Fine? then (false, p.(applied := applied))
    else
      var saved := if a.save.FailsBefore? then p.checkpoint else Some(version);
      (a.save.Fine? && NextVersionAfter(version).Some?, Progress(applied, saved))
  }

  /** The rest of a run from a cursor; a script that ends is a run that stops there. */
  function CatchUpFrom(p: Progress, length: nat, next: nat, script: seq<Attempt>): (bool, Progress)
    decreases |script|
  {
    if next >= length then (true, p)
    else if script == [] then (false, p)
    else
      var (goesOn, p') := Process(p, next, script[0]);
      if goesOn then CatchUpFrom(p', length, next + 1, script[1..]) else (false, p')
  }

  /** A whole run over one stream: whether it reported success, and the progress it left. */
  function CatchUp(p: Progress, length: nat, script: seq<Attempt>): (bool, Progress) {
    var start := StartVersion(p.checkpoint);
    if start.None? then (false, p) else CatchUpFrom(p, length, start.value, script)
  }

  // ---------------------------------------------------------------------------------------------
  // What every run keeps.

  function LastApplied(p: Progress): int {
    if p.applied == [] then -1 else p.applied[|p.applied| - 1]
  }

  function Position(p: Progress): int {
    if p.checkpoint.None? then -1 else p.checkpoint.value
  }

  /** Applications start at version 0; each is the one before again or its successor. */
  ghost predicate NoGap(applied: seq<int>) {
    && (applied != [] ==> applied[0] == 0)
    && forall i :: 0 <= i < |applied| - 1 ==> applied[i + 1] == applied[i] || applied[i + 1] == applied[i] + 1
  }

  /** No gap, and the last applied version is the checkpoint or the one after it. */
  ghost predicate Sound(p: Progress, length: nat) {
    && NoGap(p.applied)
    && (p.checkpoint.Some? ==> p.checkpoint.value >= 0)
    && (LastApplied(p) == Position(p) || LastApplied(p) == Position(p) + 1)
    && LastApplied(p) < length
  }

  lemma {:induction false} ProcessKeepsSound(p: Progress, length: nat, a: Attempt)
    requires Sound(p, length) && Position(p) + 1 < length
    ensures var (goesOn, p') := Process(p, Position(p) + 1, a);
      && Sound(p', length) && p.applied <= p'.applied
      && (goesOn ==> Position(p') == Position(p) + 1)
  {
  }

  lemma {:induction false} CatchUpFromKeepsSound(p: Progress, length: nat, script: seq<Attempt>)
    requires Sound(p, length)
    ensures var (ok, p') := CatchUpFrom(p, length, Position(p) + 1, script);
      && Sound(p', length) && p.applied <= p'.applied
      && (ok ==> Position(p') == length - 1 && LastApplied(p') == length - 1)
    decreases |script|
  {
    if Position(p) + 1 < length && script != [] {
      ProcessKeepsSound(p, length, script[0]);
      var (goesOn, p') := Process(p, Position(p) + 1, script[0]);
      if goesOn { CatchUpFromKeepsSound(p', length, script[1..]); }
    }
  }

  /** Any run keeps progress sound, and a run that reports success has applied the whole stream. */
  lemma {:induction false} CatchUpKeepsSound(p: Progress, length: nat, script: seq<Attempt>)
    requires Sound(p, length)
    ensures var (ok, p') := CatchUp(p, length, script);
      && Sound(p', length) && p.applied <= p'.applied
      && (ok ==> Position(p') == length - 1 && LastApplied(p') == length - 1)
  {
    CatchUpFromKeepsSound(p, length, script);
  }

  /** The versions from one on, in order. */
  function Versions(from: int, count: nat): (r: seq<int>)
    ensures |r| == count && forall i :: 0 <= i < count ==> r[i] == from + i
  {
    if count == 0 then [] else Versions(from, count - 1) + [from + count - 1]
  }

  lemma MoreVersions(before: seq<int>, from: int, count: nat)
    ensures before + Versions(from, 0) == before
    ensures (before + Versions(from, count)) + [from + count] == before + Versions(from, count + 1)
  {
  }

  /** A run starts right after its checkpoint; a checkpoint that has no valid successor fails at once. */
  lemma RunStartsAfterCheckpoint(p: Progress, length: nat, script: seq<Attempt>)
    ensures CatchUp(p, length, script) ==
      if Position(p) < -1 || Position(p) >= I64_MAX then (false, p)
      else CatchUpFrom(p, length, Position(p) + 1, script)
  {
  }

  /** The largest version has no successor, so a stream that holds it is never caught up. */
  lemma {:induction false} FullStreamNeverSucceeds(p: Progress, next: nat, script: seq<Attempt>)
    requires next <= I64_MAX
    ensures !CatchUpFrom(p, I64_MAX + 1, next, script).0
    decreases |script|
  {
    if script != [] {
      var (goesOn, p') := Process(p, next, script[0]);
      if goesOn { FullStreamNeverSucceeds(p', next + 1, script[1..]); }
    }
  }

  const CLEAN := Attempt(Fine, Fine)

  /** The run's first `n` applies and saves all end well. */
  ghost predicate CleanFor(script: seq<Attempt>, n: nat) {
    n <= |script| && forall i :: 0 <= i < n ==> script[i] == CLEAN
  }

  lemma OneClean(p: Progress, length: nat, next: nat, script: seq<Attempt>, rest: seq<Attempt>, p': Progress)
    requires script == [CLEAN] + rest && next < length <= I64_MAX && p' == Progress(p.applied + [next], Some(next))
    ensures CatchUpFrom(p, length, next, script) == CatchUpFrom(p', length, next + 1, rest)
  {
    assert script[1..] == rest;
  }

  /** The progress after `n` clean attempts. */
  function Advanced(p: Progress, next: nat, n: nat): Progress
    decreases n
  {
    if n == 0 then p else Advanced(Progress(p.applied + [next], Some(next)), next + 1, n - 1)
  }

  lemma {:induction false} AdvancedMeaning(p: Progress, next: nat, n: nat)
    ensures Advanced(p, next, n).applied == p.applied + Versions(next, n)
    ensures Advanced(p, next, n).checkpoint == if n == 0 then p.checkpoint else Some(next + n - 1)
    decreases n
  {
    if n > 0 {
      AdvancedMeaning(Progress(p.applied + [next], Some(next)), next + 1, n - 1);
      assert (p.applied + [next]) + Versions(next + 1, n - 1) == p.applied + Versions(next, n);
    } else {
      assert p.applied + Versions(next, 0) == p.applied;
    }
  }

  /** Clean attempts advance a run by one event each. */
  lemma {:induction false} CleanPrefix(
    p: Progress, length: nat, next: nat, script: seq<Attempt>, n: nat, rest: seq<Attempt>)
    requires CleanFor(script, n) && next + n <= length <= I64_MAX && rest == script[n..]
    ensures CatchUpFrom(p, length, next, script) == CatchUpFrom(Advanced(p, next, n), length, next + n, rest)
    decreases n
  {
    if n == 0 {
      assert rest == script;
    } else {
      var p', tail := Progress(p.applied + [next], Some(next)), script[1..];
      assert script == [CLEAN] + tail && tail[n - 1..] == rest;
      OneClean(p, length, next, script, tail, p');
      CleanPrefix(p', length, next + 1, tail, n - 1, rest);
    }
  }

  /** Where a run ends whose next attempt fails, or that has none. */
  lemma FailsHere(p: Progress, length: nat, next: nat, script: seq<Attempt>)
    requires next < length <= I64_MAX && (script != [] ==> script[0] != CLEAN)
    ensures var (ok, p') := CatchUpFrom(p, length, next, script);
      && !ok
      && p'.applied == (if script != [] && !script[0].apply.FailsBefore? then p.applied + [next] else p.applied)
      && p'.checkpoint == if script != [] && script[0].apply.Fine? && script[0].save.FailsAfter?
                          then Some(next) else p.checkpoint
  {
  }

  /**
    A run reports success exactly when the stream does not hold the largest version and every
    remaining event is applied and saved without a failure; and then it has applied exactly the
    remaining versions, once each and in order.
   */
  lemma {:induction false} SucceedsExactlyWhen(p: Progress, length: nat, script: seq<Attempt>)
    requires Sound(p, length) && length <= I64_MAX + 1
    ensures var (ok, p') := CatchUp(p, length, script);
      var rest := Max(0, length - Position(p) - 1);
      && (ok <==> length <= I64_MAX && CleanFor(script, rest))
      && (ok ==> p' == if rest == 0 then p else Progress(p.applied + Versions(Position(p) + 1, rest), Some(length - 1)))
  {
    var rest := Max(0, length - Position(p) - 1);
    if length == I64_MAX + 1 {
      if Position(p) < I64_MAX { FullStreamNeverSucceeds(p, Position(p) + 1, script); }
    } else if rest > 0 {
      if CleanFor(script, rest) {
        CleanPrefix(p, length, Position(p) + 1, script, rest, script[rest..]);
        AdvancedMeaning(p, Position(p) + 1, rest);
      } else {
        var n := FirstUnclean(script, rest);
        StopsAtFirstFailure(p, length, script, n);
      }
    }
  }

  lemma {:induction false} FirstUnclean(script: seq<Attempt>, rest: nat) returns (n: nat)
    requires !CleanFor(script, rest)
    ensures n < rest && CleanFor(script, n) && (n < |script| ==> script[n] != CLEAN)
    decreases |script|
  {
    if script == [] || script[0] != CLEAN {
      n := 0;
    } else {
      assert rest > 0;
      if CleanFor(script[1..], rest - 1) {
        forall i | 0 <= i < rest ensures script[i] == CLEAN {
          if i > 0 { assert script[1..][i - 1] == CLEAN; }
        }
      }
      n := FirstUnclean(script[1..], rest - 1);
      forall i | 0 <= i < n + 1 ensures script[i] == CLEAN {
        if i > 0 { assert script[1..][i - 1] == CLEAN; }
      }
      n := n + 1;
    }
  }

  /**
    A run stops at its first failure, or where its script ends. It then leaves applied what a clean
    run applies before that point, plus the failing event unless it failed before it was applied,
    and the checkpoint of the last event saved.
   */
  lemma {:induction false} StopsAtFirstFailure(p: Progress, length: nat, script: seq<Attempt>, n: nat)
    requires Sound(p, length) && length <= I64_MAX
    requires Position(p) + 1 + n < length && CleanFor(script, n) && (n < |script| ==> script[n] != CLEAN)
    ensures var (ok, p') := CatchUp(p, length, script);
      var fails := n < |script|;
      var applied := if fails && !script[n].apply.FailsBefore? then n + 1 else n;
      var saved := if fails && script[n].apply.Fine? && script[n].save.FailsAfter? then n + 1 else n;
      && !ok && p'.applied == p.applied + Versions(Position(p) + 1, applied)
      && Position(p') == Position(p) + saved
  {
    var next := Position(p) + 1;
    CleanPrefix(p, length, next, script, n, script[n..]);
    AdvancedMeaning(p, next, n);
    FailsHere(Advanced(p, next, n), length, next + n, script[n..]);
    MoreVersions(p.applied, next, n);
  }

  /** Many runs in turn, over a stream that may have grown before each. */
  function RunMany(p: Progress, runs: seq<(nat, seq<Attempt>)>): Progress
    decreases |runs|
  {
    if runs == [] then p else RunMany(CatchUp(p, runs[0].0, runs[0].1).1, runs[1..])
  }

  ghost predicate Growing(length: nat, runs: seq<(nat, seq<Attempt>)>) {
    && (runs != [] ==> length <= runs[0].0)
    && forall i, j :: 0 <= i < j < |runs| ==> runs[i].0 <= runs[j].0
  }

  /**
    Over any number of runs, each stopping anywhere, the events a projection has applied have no
    gap, each application is the last one again or its successor, and the last applied version is
    the checkpoint or the one after it.
   */
  lemma {:induction false} RunsLeaveNoGap(p: Progress, length: nat, runs: seq<(nat, seq<Attempt>)>)
    requires Sound(p, length) && Growing(length, runs)
    ensures Sound(RunMany(p, runs), if runs == [] then length else runs[|runs| - 1].0)
    decreases |runs|
  {
    if runs != [] {
      CatchUpKeepsSound(p, runs[0].0, runs[0].1);
      RunsLeaveNoGap(CatchUp(p, runs[0].0, runs[0].1).1, runs[0].0, runs[1..]);
    }
  }

  // ---------------------------------------------------------------------------------------------
  // The read model.

  /** The read model after these applications. */
  function ReadModel<M>(update: (M, StoredEvent) -> M, start: M, s: Stream, applied: seq<int>): M
    requires forall i :: 0 <= i < |applied| ==> 0 <= applied[i] < |s|
  {
    if applied == [] then start
    else update(ReadModel(update, start, s, applied[..|applied| - 1]), s[applied[|applied| - 1]])
  }

  /** The read model of one clean pass over a prefix. */
  function PrefixModel<M>(update: (M, StoredEvent) -> M, start: M, s: Stream, n: nat): M
    requires n <= |s|
  {
    if n == 0 then start else update(PrefixModel(update, start, s, n - 1), s[n - 1])
  }

  lemma {:induction false} NoGapBounds(applied: seq<int>)
    requires NoGap(applied)
    ensures forall i :: 0 <= i < |applied| ==> 0 <= applied[i] <= applied[|applied| - 1]
  {
    if |applied| > 1 {
      var front := applied[..|applied| - 1];
      NoGapBounds(front);
      assert applied[|front| - 1] == front[|front| - 1];
      forall i | 0 <= i < |applied| ensures 0 <= applied[i] <= applied[|applied| - 1] {
        if i < |front| { assert applied[i] == front[i]; }
      }
    }
  }

  /**
    If applying the same event twice in a row equals applying it once, restarts are invisible: the
    read model is that of one clean pass over the events up to the last one applied.
   */
  lemma {:induction false} RestartsAreInvisible<M(!new)>(
    update: (M, StoredEvent) -> M, start: M, s: Stream, applied: seq<int>)
    requires forall m: M, e: StoredEvent :: update(update(m, e), e) == update(m, e)
    requires NoGap(applied) && applied != [] && applied[|applied| - 1] < |s|
    ensures forall i :: 0 <= i < |applied| ==> 0 <= applied[i] < |s|
    ensures ReadModel(update, start, s, applied) == PrefixModel(update, start, s, applied[|applied| - 1] + 1)
    decreases |applied|
  {
    NoGapBounds(applied);
    var front := applied[..|applied| - 1];
    if front != [] {
      assert applied[|front| - 1] == front[|front| - 1];
      RestartsAreInvisible(update, start, s, front);
    }
  }

  // ---------------------------------------------------------------------------------------------
  // The runner.

  class CatchUpProjectionRunner {
    var progress: seq<Progress>

    constructor (streams: nat)
      ensures |progress| == streams && forall k :: 0 <= k < streams ==> progress[k] == Progress([], None)
    {
      progress := seq(streams, _ => Progress([], None));
    }

    /**
      A run over all streams in order, stopping at the first that fails: every stream it reached
      was caught up from its own checkpoint, and the others were not touched.
     */
    method Run(streams: seq<Stream>, scripts: seq<seq<Attempt>>) returns (ok: bool, reached: nat)
      requires |streams| == |scripts| == |progress| && forall k :: 0 <= k < |streams| ==> StreamOk(streams[k])
      modifies this
      ensures |progress| == |old(progress)| && reached <= |streams|
      ensures ok ==> reached == |streams|
      ensures forall k :: 0 <= k < |streams| ==>
        progress[k] == if k < reached then CatchUp(old(progress)[k], |streams[k]|, scripts[k]).1 else old(progress)[k]
      ensures forall k :: 0 <= k < reached ==>
        (CatchUp(old(progress)[k], |streams[k]|, scripts[k]).0 <==> ok || k < reached - 1)
    {
      var k, more := 0, true;
      while more
        invariant k <= |streams| && (!more ==> k == |streams|) && CaughtUp(old(progress), streams, scripts, k)
        decreases more, |streams| - k
      {
        var end;
        end, more := ReadIdsPage(|streams|, k);
        for i := k to end
          invariant CaughtUp(old(progress), streams, scripts, i)
        {
          var went := RunStream(i, streams[i], scripts[i]);
          if !went { return false, i + 1; }
        }
        k := end;
      }
      return true, |streams|;
    }

    /** The first `n` streams have been caught up from `was`, each with success, and no other was touched. */
    ghost predicate CaughtUp(was: seq<Progress>, streams: seq<Stream>, scripts: seq<seq<Attempt>>, n: nat)
      requires |was| == |streams| == |scripts|
      reads this
    {
      && n <= |streams| && |progress| == |was|
      && (forall k :: 0 <= k < |streams| ==>
            progress[k] == if k < n then CatchUp(was[k], |streams[k]|, scripts[k]).1 else was[k])
      && (forall k :: 0 <= k < n ==> CatchUp(was[k], |streams[k]|, scripts[k]).0)
    }

    /** One stream, page by page; `script` says how each apply and save ends. */
    method RunStream(k: nat, s: Stream, script: seq<Attempt>) returns (ok: bool)
      requires k < |progress| && StreamOk(s)
      modifies this
      ensures ok == CatchUp(old(progress)[k], |s|, script).0
      ensures progress == old(progress)[k := CatchUp(old(progress)[k], |s|, script).1]
    {
      var start := StartVersion(progress[k].checkpoint);
      if start.None? { return false; }
      var cursor: nat, used := start.value, 0;
      assert script[0..] == script;
      while cursor < |s|
        invariant 0 <= used <= |script| && k < |progress| == |old(progress)|
        invariant forall i :: 0 <= i < |progress| && i != k ==> progress[i] == old(progress)[i]
        invariant CatchUpFrom(progress[k], |s|, cursor, script[used..]) == CatchUp(old(progress)[k], |s|, script)
        decreases |script| - used
      {
        var page := ReadPage(s, cursor);
        var end := cursor + |page.events|;
        var goesOn;
        goesOn, used := RunPage(k, s, cursor, end, script, used);
        if !goesOn { return false; }
        cursor := end;
      }
      return true;
    }

    /** The events of one page. */
    method RunPage(k: nat, s: Stream, from: nat, end: nat, script: seq<Attempt>, start: nat)
        returns (goesOn: bool, used: nat)
      requires k < |progress| && StreamOk(s) && from < end <= |s| && start <= |script|
      modifies this
      ensures |progress| == |old(progress)|
      ensures forall i :: 0 <= i < |progress| && i != k ==> progress[i] == old(progress)[i]
      ensures goesOn ==> used == start + (end - from) <= |script|
      ensures goesOn ==>
        CatchUpFrom(progress[k], |s|, end, script[used..]) == CatchUpFrom(old(progress)[k], |s|, from, script[start..])
      ensures !goesOn ==> CatchUpFrom(old(progress)[k], |s|, from, script[start..]) == (false, progress[k])
    {
      used := start;
      for i := from to end
        invariant used == start + (i - from) <= |script| && k < |progress| == |old(progress)|
        invariant forall j :: 0 <= j < |progress| && j != k ==> progress[j] == old(progress)[j]
        invariant CatchUpFrom(progress[k], |s|, i, script[used..])
               == CatchUpFrom(old(progress)[k], |s|, from, script[start..])
      {
        if used == |script| { return false, used; }
        assert script[used..][0] == script[used] && script[used..][1..] == script[used + 1..];
        var (next, p) := Process(progress[k], s[i].version, script[used]);
        progress := progress[k := p];
        used := used + 1;
        if !next { return false, used; }
      }
      return true, used;
    }
  }
}
