/**
  Subscription delivery when handlers and checkpoint saves may fail. Each may fail before or after
  taking effect; a failure ends the call, and the next call starts over from the stored checkpoint.
  A single-event call is one that stops after the event it handled.
 */
module SubscriptionDelivery {
  import opened Prelude
  import opened EventLog
  import opened SubscriptionFilters
  import opened Subscriptions
  import Projections

  /** One stream: the versions handled so far, in order, and the stored checkpoint. */
  datatype Delivery = Delivery(handled: seq<int>, checkpoint: Option<int>)

  /** One call: the stream as the call finds it, and how its handler and checkpoint saves end. */
  datatype Visits = Visits(stream: Stream, script: seq<Projections.Attempt>)

  /** One event: handle it if it is selected, then save its checkpoint. True if the call goes on. */
  function Visit(pick: Selection, d: Delivery, e: StoredEvent, a: Projections.Attempt): (bool, Delivery) {
    var selected := pick.TakesEvent(e);
    var handled := if selected && !a.apply.FailsBefore? then d.handled + [e.version] else d.handled;
    if selected && !a.apply.Fine? then (false, d.(handled := handled))
    else
      var saved := if a.save.FailsBefore? then d.checkpoint else Some(e.version);
      (a.save.Fine? && e.version != I64_MAX, Delivery(handled, saved))
  }

  /** The rest of a call from a version on; a script that ends is a call that stops there. */
  function CallFrom(pick: Selection, s: Stream, d: Delivery, next: nat, script: seq<Projections.Attempt>): Delivery
    decreases |script|
  {
    if next >= |s| || script == [] then d
    else
      var (goesOn, d') := Visit(pick, d, s[next], script[0]);
      if goesOn then CallFrom(pick, s, d', next + 1, script[1..]) else d'
  }

  /** A call over one stream. */
  function Call(pick: Selection, s: Stream, d: Delivery, script: seq<Projections.Attempt>): Delivery {
    var start := StartVersion(d.checkpoint);
    if start.None? then d else CallFrom(pick, s, d, start.value, script)
  }

  /** Many calls in turn, over a stream that may have grown before each. */
  function Calls(pick: Selection, d: Delivery, calls: seq<Visits>): Delivery
    decreases |calls|
  {
    if calls == [] then d else Calls(pick, Call(pick, calls[0].stream, d, calls[0].script), calls[1..])
  }

  // ---------------------------------------------------------------------------------------------
  // What every call keeps.

  /** The selected versions among the first `n`. */
  function SelectedVersions(pick: Selection, s: Stream, n: nat): seq<int>
    requires n <= |s|
  {
    if n == 0 then []
    else SelectedVersions(pick, s, n - 1) + (if pick.TakesEvent(s[n - 1]) then [n - 1] else [])
  }

  /** A sequence without its immediate repetitions. */
  function WithoutRepeats(h: seq<int>): seq<int> {
    if |h| <= 1 then h
    else if h[|h| - 1] == h[|h| - 2] then WithoutRepeats(h[..|h| - 1])
    else WithoutRepeats(h[..|h| - 1]) + [h[|h| - 1]]
  }

  function Position(d: Delivery): int {
    if d.checkpoint.None? then -1 else d.checkpoint.value
  }

  /**
    Apart from immediate repetitions, the handled events are exactly the selected ones up to the
    checkpoint, or up to the event after it (handled, but its checkpoint not saved).
   */
  ghost predicate Sound(pick: Selection, s: Stream, d: Delivery) {
    var n := Position(d) + 1;
    && 0 <= n <= |s| && (d.checkpoint.Some? ==> n > 0)
    && (|| WithoutRepeats(d.handled) == SelectedVersions(pick, s, n)
        || (n < |s| && pick.TakesEvent(s[n]) && WithoutRepeats(d.handled) == SelectedVersions(pick, s, n + 1)))
  }

  lemma {:induction false} SelectedBelow(pick: Selection, s: Stream, n: nat)
    requires n <= |s|
    ensures forall i :: 0 <= i < |SelectedVersions(pick, s, n)| ==> SelectedVersions(pick, s, n)[i] < n
  {
    if n > 0 { SelectedBelow(pick, s, n - 1); }
  }

  lemma {:induction false} SelectedOfPrefix(pick: Selection, s: Stream, s': Stream, n: nat)
    requires n <= |s| && s <= s'
    ensures SelectedVersions(pick, s, n) == SelectedVersions(pick, s', n)
  {
    if n > 0 { SelectedOfPrefix(pick, s, s', n - 1); }
  }

  lemma {:induction false} SameLast(h: seq<int>)
    requires h != []
    ensures WithoutRepeats(h) != [] && WithoutRepeats(h)[|WithoutRepeats(h)| - 1] == h[|h| - 1]
  {
    if |h| > 1 { SameLast(h[..|h| - 1]); }
  }

  lemma RepeatsSnoc(h: seq<int>, v: int)
    ensures WithoutRepeats(h + [v])
      == if h != [] && h[|h| - 1] == v then WithoutRepeats(h) else WithoutRepeats(h) + [v]
  {
    assert (h + [v])[..|h|] == h;
  }

  /** Handling the selected event after the checkpoint, for the first time or again. */
  lemma {:induction false} HandleNext(pick: Selection, s: Stream, d: Delivery)
    requires Sound(pick, s, d) && Position(d) + 1 < |s| && pick.TakesEvent(s[Position(d) + 1])
    ensures WithoutRepeats(d.handled + [Position(d) + 1]) == SelectedVersions(pick, s, Position(d) + 2)
  {
    var n := Position(d) + 1;
    RepeatsSnoc(d.handled, n);
    SelectedBelow(pick, s, n);
    if d.handled != [] { SameLast(d.handled); }
  }

  lemma PassedOver(pick: Selection, s: Stream, n: nat)
    requires n < |s| && !pick.TakesEvent(s[n])
    ensures SelectedVersions(pick, s, n + 1) == SelectedVersions(pick, s, n)
  {
  }

  lemma {:induction false} VisitKeepsSound(pick: Selection, s: Stream, d: Delivery, a: Projections.Attempt)
    requires StreamOk(s) && Sound(pick, s, d) && Position(d) + 1 < |s|
    ensures var (goesOn, d') := Visit(pick, d, s[Position(d) + 1], a);
      && Sound(pick, s, d')
      && (goesOn ==> Position(d') == Position(d) + 1)
  {
    if pick.TakesEvent(s[Position(d) + 1]) {
      HandleNext(pick, s, d);
    } else {
      PassedOver(pick, s, Position(d) + 1);
    }
  }

  lemma {:induction false} CallFromKeepsSound(pick: Selection, s: Stream, d: Delivery, script: seq<Projections.Attempt>)
    requires StreamOk(s) && Sound(pick, s, d)
    ensures Sound(pick, s, CallFrom(pick, s, d, Position(d) + 1, script))
    decreases |script|
  {
    if Position(d) + 1 < |s| && script != [] {
      VisitKeepsSound(pick, s, d, script[0]);
      var (goesOn, d') := Visit(pick, d, s[Position(d) + 1], script[0]);
      if goesOn { CallFromKeepsSound(pick, s, d', script[1..]); }
    }
  }

  lemma {:induction false} CallKeepsSound(pick: Selection, s: Stream, d: Delivery, script: seq<Projections.Attempt>)
    requires StreamOk(s) && Sound(pick, s, d)
    ensures Sound(pick, s, Call(pick, s, d, script))
  {
    StartsAfterCheckpoint(pick, s, d);
    CallFromKeepsSound(pick, s, d, script);
  }

  lemma StartsAfterCheckpoint(pick: Selection, s: Stream, d: Delivery)
    requires StreamOk(s) && Sound(pick, s, d)
    ensures StartVersion(d.checkpoint) == None || StartVersion(d.checkpoint) == Some(Position(d) + 1)
  {
  }

  ghost predicate Growing(s: Stream, calls: seq<Visits>)
    decreases |calls|
  {
    calls == [] || (s <= calls[0].stream && StreamOk(calls[0].stream) && Growing(calls[0].stream, calls[1..]))
  }

  function LastStream(s: Stream, calls: seq<Visits>): Stream
    decreases |calls|
  {
    if calls == [] then s else LastStream(calls[0].stream, calls[1..])
  }

  /**
    At least once, in order: over any number of calls, each stopping at any handler or checkpoint
    failure, no selected event is skipped, none is handled out of order, and only the one after the
    checkpoint is ever handled again.
   */
  lemma {:induction false} CallsDeliverInOrder(
    pick: Selection, s: Stream, d: Delivery, calls: seq<Visits>)
    requires StreamOk(s) && Sound(pick, s, d) && Growing(s, calls)
    ensures Sound(pick, LastStream(s, calls), Calls(pick, d, calls))
    decreases |calls|
  {
    if calls != [] {
      var s' := calls[0].stream;
      SoundInLonger(pick, s, s', d);
      CallKeepsSound(pick, s', d, calls[0].script);
      CallsDeliverInOrder(pick, s', Call(pick, s', d, calls[0].script), calls[1..]);
    }
  }

  lemma SoundInLonger(pick: Selection, s: Stream, s': Stream, d: Delivery)
    requires Sound(pick, s, d) && s <= s'
    ensures Sound(pick, s', d)
  {
    var n := Position(d) + 1;
    SelectedOfPrefix(pick, s, s', n);
    if n < |s| { SelectedOfPrefix(pick, s, s', n + 1); }
  }

  /** Once the checkpoint has reached the end, every selected event has been handled. */
  lemma {:induction false} FinishedMeansAllHandled(pick: Selection, s: Stream, d: Delivery)
    requires StreamOk(s) && Sound(pick, s, d) && Position(d) == |s| - 1
    ensures WithoutRepeats(d.handled) == SelectedVersions(pick, s, |s|)
  {
  }

  lemma OneCleanVisit(pick: Selection, s: Stream, d: Delivery, next: nat, script: seq<Projections.Attempt>)
    requires StreamOk(s) && next < |s| && script != [] && script[0] == Projections.CLEAN
    ensures var d' := Delivery(if pick.TakesEvent(s[next]) then d.handled + [next] else d.handled, Some(next));
      CallFrom(pick, s, d, next, script)
      == if next + 1 == |s| then d' else CallFrom(pick, s, d', next + 1, script[1..])
  {
  }

  /** The selected versions from one on. */
  function SelectedFrom(pick: Selection, s: Stream, next: nat): seq<int>
    requires next <= |s|
    decreases |s| - next
  {
    if next == |s| then []
    else if pick.TakesEvent(s[next]) then [next] + SelectedFrom(pick, s, next + 1)
    else SelectedFrom(pick, s, next + 1)
  }

  lemma Regroup(a: seq<int>, v: int, b: seq<int>)
    ensures (a + [v]) + b == a + ([v] + b)
  {
  }

  lemma {:induction false} SelectedInTwo(pick: Selection, s: Stream, n: nat)
    requires n <= |s|
    ensures SelectedVersions(pick, s, n) + SelectedFrom(pick, s, n) == SelectedVersions(pick, s, |s|)
    decreases |s| - n
  {
    if n < |s| {
      SelectedInTwo(pick, s, n + 1);
      Regroup(SelectedVersions(pick, s, n), n, SelectedFrom(pick, s, n + 1));
    }
  }

  /** From a version on without a failure: every selected event is handled once, and the checkpoint ends at the last. */
  lemma {:induction false} CleanCallFrom(
    pick: Selection, s: Stream, d: Delivery, next: nat, script: seq<Projections.Attempt>)
    requires StreamOk(s) && next < |s| && Projections.CleanFor(script, |s| - next)
    ensures CallFrom(pick, s, d, next, script) == Delivery(d.handled + SelectedFrom(pick, s, next), Some(|s| - 1))
    decreases |s| - next
  {
    OneCleanVisit(pick, s, d, next, script);
    var handled := if pick.TakesEvent(s[next]) then d.handled + [next] else d.handled;
    if pick.TakesEvent(s[next]) { Regroup(d.handled, next, SelectedFrom(pick, s, next + 1)); }
    if next + 1 < |s| {
      CleanCallFrom(pick, s, Delivery(handled, Some(next)), next + 1, script[1..]);
    } else {
      assert handled + [] == handled;
    }
  }

  /** A call without a failure handles exactly the selected events after the checkpoint, once each and in order. */
  lemma {:induction false} CleanCallDeliversAll(
    pick: Selection, s: Stream, d: Delivery, script: seq<Projections.Attempt>)
    requires StreamOk(s) && Sound(pick, s, d) && Projections.CleanFor(script, |s| - Position(d) - 1)
    ensures var d', rest := Call(pick, s, d, script), SelectedFrom(pick, s, Position(d) + 1);
      && Position(d') == |s| - 1 && d'.handled == d.handled + rest
      && SelectedVersions(pick, s, Position(d) + 1) + rest == SelectedVersions(pick, s, |s|)
  {
    var next := Position(d) + 1;
    SelectedInTwo(pick, s, next);
    StartsAfterCheckpoint(pick, s, d);
    if next < |s| {
      CleanCallFrom(pick, s, d, next, script);
    } else {
      assert d.handled + [] == d.handled;
    }
  }

  /**
    A failure ends the call at its event. A failing handler leaves the checkpoint where it was, and
    the event handled only if it failed after taking effect; a failing save leaves the event
    handled, and the checkpoint moved only if it failed after taking effect.
   */
  lemma {:induction false} FailureEndsCall(
    pick: Selection, s: Stream, d: Delivery, a: Projections.Attempt, rest: seq<Projections.Attempt>)
    requires StreamOk(s) && Sound(pick, s, d) && Position(d) + 1 < |s|
    requires !a.save.Fine? || (pick.TakesEvent(s[Position(d) + 1]) && !a.apply.Fine?)
    ensures var next, d' := Position(d) + 1, Call(pick, s, d, [a] + rest);
      var selected := pick.TakesEvent(s[next]);
      && d'.handled == (if selected && !a.apply.FailsBefore? then d.handled + [next] else d.handled)
      && Position(d') == (if (selected ==> a.apply.Fine?) && a.save.FailsAfter? then next else next - 1)
  {
    assert ([a] + rest)[0] == a;
  }

  // ---------------------------------------------------------------------------------------------
  // The loops of the runner, with outcomes.

  /** The first attempts have been used up without stopping, and the call goes on from a version. */
  ghost predicate Midway(
    pick: Selection, s: Stream, was: Delivery, done: seq<Projections.Attempt>, d: Delivery, next: nat)
  {
    forall rest :: Call(pick, s, was, done + rest) == CallFrom(pick, s, d, next, rest)
  }

  lemma BeginsMidway(pick: Selection, s: Stream, d: Delivery, next: nat)
    requires StartVersion(d.checkpoint) == Some(next)
    ensures Midway(pick, s, d, [], d, next)
  {
    forall rest ensures Call(pick, s, d, [] + rest) == CallFrom(pick, s, d, next, rest) {
      assert [] + rest == rest;
    }
  }

  /** One more event: the call stops here, or goes on after it. */
  lemma {:induction false} OneMoreEvent(
    pick: Selection, s: Stream, was: Delivery, done: seq<Projections.Attempt>, d: Delivery, next: nat,
    a: Projections.Attempt)
    requires Midway(pick, s, was, done, d, next) && next < |s|
    ensures var (goesOn, d') := Visit(pick, d, s[next], a);
      && Call(pick, s, was, done + [a]) == d'
      && (goesOn ==> Midway(pick, s, was, done + [a], d', next + 1))
      && (!goesOn ==> forall rest :: Call(pick, s, was, (done + [a]) + rest) == d')
  {
    var (goesOn, d') := Visit(pick, d, s[next], a);
    assert [a][1..] == [];
    assert CallFrom(pick, s, d, next, [a]) == d';
    forall rest ensures Call(pick, s, was, (done + [a]) + rest) == CallFrom(pick, s, d, next, [a] + rest) {
      assert (done + [a]) + rest == done + ([a] + rest);
    }
    forall rest ensures CallFrom(pick, s, d, next, [a] + rest)
                     == if goesOn then CallFrom(pick, s, d', next + 1, rest) else d'
    {
      assert ([a] + rest)[0] == a && ([a] + rest)[1..] == rest;
    }
  }

  class DeliveryRunner {
    const pick: Selection
    var deliveries: seq<Delivery>

    constructor (pick: Selection, streams: nat)
      ensures this.pick == pick && |deliveries| == streams
      ensures forall k :: 0 <= k < streams ==> deliveries[k] == Delivery([], None)
    {
      this.pick, deliveries := pick, seq(streams, _ => Delivery([], None));
    }

    /** One stream, page by page; `script` says how each handler call and checkpoint save ends. */
    method RunStream(k: nat, s: Stream, script: seq<Projections.Attempt>)
      requires k < |deliveries| && StreamOk(s)
      modifies this
      ensures deliveries == old(deliveries)[k := Call(pick, s, old(deliveries)[k], script)]
    {
      var _ := Walk(k, s, script, false);
    }

    /** At most one selected event of a stream: a call whose script ends with the event it handled. */
    method RunNextInStream(k: nat, s: Stream, script: seq<Projections.Attempt>) returns (used: nat)
      requires k < |deliveries| && StreamOk(s)
      modifies this
      ensures used <= |script|
      ensures deliveries == old(deliveries)[k := Call(pick, s, old(deliveries)[k], script[..used])]
      ensures |deliveries[k].handled| <= |old(deliveries)[k].handled| + 1
    {
      used := Walk(k, s, script, true);
    }

    /** The loop of both: over the pages and their events, until a failure or, for a single event, its success. */
    method Walk(k: nat, s: Stream, script: seq<Projections.Attempt>, single: bool) returns (used: nat)
      requires k < |deliveries| && StreamOk(s)
      modifies this
      ensures used <= |script|
      ensures deliveries == old(deliveries)[k := Call(pick, s, old(deliveries)[k], script[..used])]
      ensures !single ==> deliveries[k] == Call(pick, s, old(deliveries)[k], script)
      ensures single ==> |deliveries[k].handled| <= |old(deliveries)[k].handled| + 1
    {
      ghost var before := deliveries[k];
      used := 0;
      var start := StartVersion(deliveries[k].checkpoint);
      if start.None? { return; }
      var cursor: nat, more := start.value, true;
      assert script[..0] == [];
      BeginsMidway(pick, s, before, cursor);
      while more
        invariant used <= |script| && k < |deliveries| == |old(deliveries)|
        invariant forall i :: 0 <= i < |deliveries| && i != k ==> deliveries[i] == old(deliveries)[i]
        invariant deliveries[k] == Call(pick, s, before, script[..used])
        invariant more ==> Midway(pick, s, before, script[..used], deliveries[k], cursor)
        invariant !more && !single ==> deliveries[k] == Call(pick, s, before, script)
        invariant single ==> |deliveries[k].handled| <= |before.handled| + if more then 0 else 1
        decreases more, |script| - used
      {
        if cursor >= |s| || used == |script| {
          Finished(pick, s, before, script, used, deliveries[k], cursor);
          return;
        }
        more, cursor, used := WalkPage(k, s, cursor, script, used, single, before);
      }
    }

    /** The events of one page. */
    method WalkPage(k: nat, s: Stream, from: nat, script: seq<Projections.Attempt>, start: nat, single: bool,
                    ghost before: Delivery) returns (more: bool, cursor: nat, used: nat)
      requires k < |deliveries| && StreamOk(s) && from < |s| && start < |script|
      requires deliveries[k] == Call(pick, s, before, script[..start])
      requires Midway(pick, s, before, script[..start], deliveries[k], from)
      requires single ==> |deliveries[k].handled| <= |before.handled|
      modifies this
      ensures start < used <= |script| && |deliveries| == |old(deliveries)|
      ensures forall i :: 0 <= i < |deliveries| && i != k ==> deliveries[i] == old(deliveries)[i]
      ensures deliveries[k] == Call(pick, s, before, script[..used])
      ensures more ==> Midway(pick, s, before, script[..used], deliveries[k], cursor)
      ensures !more && !single ==> deliveries[k] == Call(pick, s, before, script)
      ensures single ==> |deliveries[k].handled| <= |before.handled| + if more then 0 else 1
    {
      var page := ReadPage(s, from);
      var end := from + |page.events|;
      cursor, used, more := from, start, true;
      while cursor < end && used < |script|
        invariant from <= cursor <= end && start <= used <= |script| && (cursor > from ==> used > start)
        invariant k < |deliveries| == |old(deliveries)|
        invariant forall i :: 0 <= i < |deliveries| && i != k ==> deliveries[i] == old(deliveries)[i]
        invariant deliveries[k] == Call(pick, s, before, script[..used])
        invariant Midway(pick, s, before, script[..used], deliveries[k], cursor)
        invariant single ==> |deliveries[k].handled| <= |before.handled|
      {
        var a := script[used];
        OneMoreEvent(pick, s, before, script[..used], deliveries[k], cursor, a);
        assert script[..used] + [a] == script[..used + 1] && script[..used + 1] + script[used + 1..] == script;
        var (goesOn, d) := Visit(pick, deliveries[k], s[cursor], a);
        var selected := pick.TakesEvent(s[cursor]);
        deliveries := deliveries[k := d];
        used, cursor := used + 1, cursor + 1;
        if !goesOn || (single && selected) { return false, cursor, used; }
      }
    }
  }

  lemma Finished(
    pick: Selection, s: Stream, was: Delivery, script: seq<Projections.Attempt>, used: nat, d: Delivery, next: nat)
    requires used <= |script| && Midway(pick, s, was, script[..used], d, next) && (next >= |s| || used == |script|)
    ensures Call(pick, s, was, script) == d
  {
    assert script[..used] + script[used..] == script;
    assert next < |s| ==> script[used..] == [];
  }
}
