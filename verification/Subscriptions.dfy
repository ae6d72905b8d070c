/** What a subscription selects: streams by exact name or prefix, events by serialized type. */
module SubscriptionFilters {
  import opened EventLog

  datatype Subscription = Subscription(streamPattern: string, eventTypes: seq<string>) {

    /** An exact name, or a prefix when the pattern ends in a star. */
    predicate MatchesStream(id: string)
      ensures MatchesStream(id) <==>
        if |streamPattern| > 0 && streamPattern[|streamPattern| - 1] == '*'
        then streamPattern[..|streamPattern| - 1] <= id
        else streamPattern == id
    {
      if streamPattern == "*" then true
      else if |streamPattern| > 0 && streamPattern[|streamPattern| - 1] == '*' then
        streamPattern[..|streamPattern| - 1] <= id
      else streamPattern == id
    }

    predicate MatchesEventType(eventType: string) {
      eventTypes == [] || eventType in eventTypes
    }
  }

  /** A subscription's choices over an ordered list of streams, which are named by position; no types means all. */
  datatype Selection = Selection(streams: set<nat>, types: set<string>) {
    predicate TakesStream(k: nat) { k in streams }

    predicate TakesEvent(e: StoredEvent) { types == {} || e.envelope.messageType in types }
  }

  function SelectionOf(sub: Subscription, names: seq<string>): (r: Selection)
    ensures forall k: nat :: r.TakesStream(k) <==> k < |names| && sub.MatchesStream(names[k])
    ensures forall e: StoredEvent :: r.TakesEvent(e) <==> sub.MatchesEventType(e.envelope.messageType)
  {
    var types := set t | t in sub.eventTypes;
    assert sub.eventTypes != [] ==> sub.eventTypes[0] in types;
    var taken := set k: nat | k < |names| && sub.MatchesStream(names[k]);
    Selection(taken, types)
  }
}

/**
  Persistent subscriptions over many streams. One pass (`run_once`) and repeated single-event calls
  (`run_next`) both walk the streams in order from their checkpoints.
 */
module Subscriptions {
  import opened Prelude
  import opened EventLog
  import opened SubscriptionFilters

  /** The last inspected version of each stream, by the stream's position. */
  type Checkpoints = seq<Option<int>>

  predicate StreamsOk(streams: seq<Stream>) {
    forall k :: 0 <= k < |streams| ==> StreamOk(streams[k])
  }

  /** The first version to read; none after the largest version. */
  function StartVersion(checkpoint: Option<int>): Option<nat> {
    match checkpoint
    case None => Some(0)
    case Some(v) => if v == I64_MAX then None else Some(Max(v + 1, 0))
  }

  /** The events of a stream that its checkpoint has not passed. */
  function Remaining(s: Stream, checkpoint: Option<int>): Stream {
    match StartVersion(checkpoint)
    case None => []
    case Some(n) => if n <= |s| then s[n..] else []
  }

  function Selected(pick: Selection, s: Stream): Stream {
    if s == [] then []
    else
      var rest := Selected(pick, s[..|s| - 1]);
      if pick.TakesEvent(s[|s| - 1]) then rest + [s[|s| - 1]] else rest
  }

  /** Events with the position of their stream. */
  function Tagged(k: nat, events: Stream): (r: seq<(nat, StoredEvent)>)
    ensures |r| == |events| && forall i :: 0 <= i < |r| ==> r[i] == (k, events[i])
  {
    if events == [] then [] else Tagged(k, events[..|events| - 1]) + [(k, events[|events| - 1])]
  }

  function PendingIn(pick: Selection, s: Stream, checkpoint: Option<int>, k: nat): seq<(nat, StoredEvent)> {
    if pick.TakesStream(k) then Tagged(k, Selected(pick, Remaining(s, checkpoint))) else []
  }

  /** What each stream has to deliver. */
  function Parts(pick: Selection, streams: seq<Stream>, cps: Checkpoints): (r: seq<seq<(nat, StoredEvent)>>)
    requires |cps| == |streams|
    ensures |r| == |streams| && forall k :: 0 <= k < |r| ==> r[k] == PendingIn(pick, streams[k], cps[k], k)
  {
    PartsUpTo(pick, streams, cps, |streams|)
  }

  function PartsUpTo(pick: Selection, streams: seq<Stream>, cps: Checkpoints, n: nat): (r: seq<seq<(nat, StoredEvent)>>)
    requires |cps| == |streams| && n <= |streams|
    ensures |r| == n && forall k :: 0 <= k < n ==> r[k] == PendingIn(pick, streams[k], cps[k], k)
  {
    if n == 0 then []
    else PartsUpTo(pick, streams, cps, n - 1) + [PendingIn(pick, streams[n - 1], cps[n - 1], n - 1)]
  }

  /** Everything a walk over all streams delivers, in order. */
  function Pending(pick: Selection, streams: seq<Stream>, cps: Checkpoints): seq<(nat, StoredEvent)>
    requires |cps| == |streams|
  {
    Concat(Parts(pick, streams, cps))
  }

  /** The checkpoint of a stream once a walk is past it: filtered events count as passed. */
  function FinalIn(pick: Selection, s: Stream, checkpoint: Option<int>, k: nat): Option<int> {
    if pick.TakesStream(k) && Remaining(s, checkpoint) != [] then Some(|s| - 1) else checkpoint
  }

  /** Where the checkpoints stand after a walk over the first `hi` streams. */
  function Final(pick: Selection, streams: seq<Stream>, cps: Checkpoints, hi: nat): (r: Checkpoints)
    requires |cps| == |streams| && hi <= |streams|
    ensures |r| == |cps|
    ensures forall k :: 0 <= k < |cps| ==> r[k] == if k < hi then FinalIn(pick, streams[k], cps[k], k) else cps[k]
  {
    if hi == 0 then cps
    else Final(pick, streams, cps, hi - 1)[hi - 1 := FinalIn(pick, streams[hi - 1], cps[hi - 1], hi - 1)]
  }

  // ---------------------------------------------------------------------------------------------
  // Facts about the specification.

  /** What remains of a stream is every event past its checkpoint, in order, and nothing else. */
  lemma {:induction false} RemainingIsPastCheckpoint(s: Stream, checkpoint: Option<int>)
    requires StreamOk(s)
    ensures exists n :: 0 <= n <= |s| && Remaining(s, checkpoint) == s[n..]
    ensures forall i :: 0 <= i < |s| ==>
      (s[i] in Remaining(s, checkpoint) <==> checkpoint.None? || s[i].version > checkpoint.value)
  {
    var n := |s| - |Remaining(s, checkpoint)|;
    assert Remaining(s, checkpoint) == s[n..];
    forall i | 0 <= i < |s|
      ensures s[i] in Remaining(s, checkpoint) <==> checkpoint.None? || s[i].version > checkpoint.value
    {
      if i >= n { assert s[n..][i - n] == s[i]; }
    }
  }

  lemma {:induction false} SelectedSplits(pick: Selection, a: Stream, b: Stream)
    ensures Selected(pick, a + b) == Selected(pick, a) + Selected(pick, b)
    decreases |b|
  {
    if b == [] {
      assert a + b == a;
    } else {
      assert (a + b)[..|a + b| - 1] == a + b[..|b| - 1];
      SelectedSplits(pick, a, b[..|b| - 1]);
    }
  }

  /** One more event of a stretch. */
  lemma SelectedSnoc(pick: Selection, s: Stream, from: nat, i: nat)
    requires from <= i < |s|
    ensures Selected(pick, s[from..i + 1])
         == Selected(pick, s[from..i]) + (if pick.TakesEvent(s[i]) then [s[i]] else [])
  {
    assert s[from..i + 1][..i - from] == s[from..i];
  }

  /** The first selected event of a stretch, or one more event passed over. */
  lemma SelectedNext(pick: Selection, s: Stream, from: nat, i: nat)
    requires from <= i < |s| && Selected(pick, s[from..i]) == []
    ensures Selected(pick, s[from..i + 1]) == if pick.TakesEvent(s[i]) then [s[i]] else []
  {
    SelectedSnoc(pick, s, from, i);
  }

  /** A stretch in two parts. */
  lemma SelectedCut(pick: Selection, s: Stream, from: nat, mid: nat, end: nat)
    requires from <= mid <= end <= |s|
    ensures Selected(pick, s[from..end]) == Selected(pick, s[from..mid]) + Selected(pick, s[mid..end])
  {
    assert s[from..end] == s[from..mid] + s[mid..end];
    SelectedSplits(pick, s[from..mid], s[mid..end]);
  }

  lemma FirstSelected(pick: Selection, s: Stream, from: nat, pos: nat)
    requires from < pos <= |s| && Selected(pick, s[from..pos]) == [s[pos - 1]]
    ensures Selected(pick, s[from..]) == [s[pos - 1]] + Selected(pick, s[pos..])
  {
    SelectedCut(pick, s, from, pos, |s|);
    assert s[from..|s|] == s[from..] && s[pos..|s|] == s[pos..];
  }

  lemma DeliverNone(pick: Selection, k: nat, s: Stream, from: nat, before: seq<(nat, StoredEvent)>)
    requires from <= |s|
    ensures before + Tagged(k, Selected(pick, s[from..from])) == before
  {
  }

  /** One more event of a stretch, delivered or not. */
  lemma DeliverOne(pick: Selection, k: nat, s: Stream, from: nat, i: nat, before: seq<(nat, StoredEvent)>)
    requires from <= i < |s|
    ensures before + Tagged(k, Selected(pick, s[from..i + 1]))
         == if pick.TakesEvent(s[i]) then (before + Tagged(k, Selected(pick, s[from..i]))) + [(k, s[i])]
            else before + Tagged(k, Selected(pick, s[from..i]))
  {
    SelectedSnoc(pick, s, from, i);
  }

  lemma TaggedCut(pick: Selection, k: nat, s: Stream, from: nat, mid: nat, end: nat)
    requires from <= mid <= end <= |s|
    ensures Tagged(k, Selected(pick, s[from..end]))
         == Tagged(k, Selected(pick, s[from..mid])) + Tagged(k, Selected(pick, s[mid..end]))
  {
    SelectedCut(pick, s, from, mid, end);
  }

  /** What walking over one more stream adds, and where it leaves that stream. */
  lemma WalkOne(pick: Selection, streams: seq<Stream>, cps: Checkpoints, k: nat)
    requires |cps| == |streams| && k < |streams|
    ensures Final(pick, streams, cps, k)[k] == cps[k]
    ensures Final(pick, streams, cps, k + 1)
         == Final(pick, streams, cps, k)[k := FinalIn(pick, streams[k], cps[k], k)]
    ensures Parts(pick, streams, cps)[k] == PendingIn(pick, streams[k], cps[k], k)
    ensures !pick.TakesStream(k) ==>
      Parts(pick, streams, cps)[k] == [] && Final(pick, streams, cps, k + 1) == Final(pick, streams, cps, k)
  {
  }

  /** Running one more stream, or passing it over, extends the walk by it. */
  lemma WalkNext(pick: Selection, streams: seq<Stream>, cps: Checkpoints, was: seq<(nat, StoredEvent)>, k: nat)
    requires |cps| == |streams| && k < |streams|
    ensures var now, at := Extended(was, Parts(pick, streams, cps), k), Final(pick, streams, cps, k);
      var now', at' := Extended(was, Parts(pick, streams, cps), k + 1), Final(pick, streams, cps, k + 1);
      && now' == now + PendingIn(pick, streams[k], at[k], k) && at' == at[k := FinalIn(pick, streams[k], at[k], k)]
      && (!pick.TakesStream(k) ==> now' == now && at' == at)
  {
    WalkOne(pick, streams, cps, k);
  }

  /** Where a walk over all streams begins and ends. */
  lemma WalkEnds(pick: Selection, streams: seq<Stream>, cps: Checkpoints, was: seq<(nat, StoredEvent)>)
    requires |cps| == |streams|
    ensures Final(pick, streams, cps, 0) == cps
    ensures Extended(was, Parts(pick, streams, cps), |streams|) == was + Pending(pick, streams, cps)
  {
    ExtendedIsConcat(was, Parts(pick, streams, cps), |streams|);
    assert Parts(pick, streams, cps)[..|streams|] == Parts(pick, streams, cps);
  }

  /** A finished stream has nothing left and stays where it is. */
  lemma FinishedStream(pick: Selection, s: Stream, checkpoint: Option<int>, k: nat)
    requires StreamOk(s)
    ensures pick.TakesStream(k) ==> Remaining(s, FinalIn(pick, s, checkpoint, k)) == []
    ensures PendingIn(pick, s, FinalIn(pick, s, checkpoint, k), k) == []
    ensures FinalIn(pick, s, FinalIn(pick, s, checkpoint, k), k) == FinalIn(pick, s, checkpoint, k)
  {
  }

  /** A pass moves a stream's checkpoint exactly if the stream is taken and has a later event, and then to its last. */
  lemma {:induction false} PassMovesCheckpoint(pick: Selection, streams: seq<Stream>, cps: Checkpoints, k: nat)
    requires |cps| == |streams| && StreamsOk(streams) && k < |streams|
    ensures var s, moved := streams[k], Final(pick, streams, cps, |streams|)[k];
      if pick.TakesStream(k) && s != [] && (cps[k].None? || s[|s| - 1].version > cps[k].value)
      then moved == Some(s[|s| - 1].version) else moved == cps[k]
  {
    RemainingIsPastCheckpoint(streams[k], cps[k]);
    var s := streams[k];
    if s != [] { assert s[|s| - 1] in Remaining(s, cps[k]) <==> cps[k].None? || s[|s| - 1].version > cps[k].value; }
    if Remaining(s, cps[k]) != [] { assert Remaining(s, cps[k])[|Remaining(s, cps[k])| - 1] == s[|s| - 1]; }
  }

  /** A pass leaves nothing behind: a second pass would deliver nothing and move no checkpoint. */
  lemma {:induction false} PassIsComplete(pick: Selection, streams: seq<Stream>, cps: Checkpoints)
    requires |cps| == |streams| && StreamsOk(streams)
    ensures Pending(pick, streams, Final(pick, streams, cps, |streams|)) == []
    ensures Final(pick, streams, Final(pick, streams, cps, |streams|), |streams|)
         == Final(pick, streams, cps, |streams|)
  {
    var done := Final(pick, streams, cps, |streams|);
    forall k | 0 <= k < |streams|
      ensures Parts(pick, streams, done)[k] == [] && FinalIn(pick, streams[k], done[k], k) == done[k]
    {
      FinishedStream(pick, streams[k], cps[k], k);
    }
    ConcatEmpty(Parts(pick, streams, done));
  }

  /** The checkpoints after a walk that stopped inside stream `k`, having passed `pos` of its events. */
  function Stopped(pick: Selection, streams: seq<Stream>, cps: Checkpoints, k: nat, pos: nat): Checkpoints
    requires |cps| == |streams| && k < |streams|
  {
    Final(pick, streams, cps, k)[k := Some(pos - 1)]
  }

  /** The walk stopped in a stream at its first selected event. */
  ghost predicate StoppedAtFirst(pick: Selection, s: Stream, checkpoint: Option<int>, pos: nat) {
    var left := Remaining(s, checkpoint);
    && 0 < pos <= |s| && left != []
    && Selected(pick, left) != [] && Selected(pick, s[pos..]) == Selected(pick, left)[1..]
    && Remaining(s, Some(pos - 1)) == s[pos..] && |s| - pos < |left|
  }

  lemma StoppedHere(pick: Selection, s: Stream, checkpoint: Option<int>, from: nat, pos: nat)
    requires StreamOk(s) && StartVersion(checkpoint) == Some(from) && from < pos <= |s|
    requires Selected(pick, s[from..]) == [s[pos - 1]] + Selected(pick, s[pos..])
    ensures StoppedAtFirst(pick, s, checkpoint, pos) && Selected(pick, Remaining(s, checkpoint))[0] == s[pos - 1]
  {
  }

  /** Stopping after the first selected event leaves exactly the other deliveries for later. */
  lemma {:induction false} StoppedLeavesRest(pick: Selection, streams: seq<Stream>, cps: Checkpoints, k: nat, pos: nat)
    requires |cps| == |streams| && StreamsOk(streams) && k < |streams| && pick.TakesStream(k)
    requires forall i :: 0 <= i < k ==> Parts(pick, streams, cps)[i] == []
    requires StoppedAtFirst(pick, streams[k], cps[k], pos)
    ensures var all := Pending(pick, streams, cps);
      && |all| > 0 && all[0] == (k, Selected(pick, Remaining(streams[k], cps[k]))[0])
      && Pending(pick, streams, Stopped(pick, streams, cps, k, pos)) == all[1..]
  {
    var cps' := Stopped(pick, streams, cps, k, pos);
    var parts, parts' := Parts(pick, streams, cps), Parts(pick, streams, cps');
    TaggedTail(k, Selected(pick, Remaining(streams[k], cps[k])));
    forall i | 0 <= i < |streams| ensures parts'[i] == parts[k := parts[k][1..]][i] {
      if i < k { FinishedStream(pick, streams[i], cps[i], i); }
    }
    assert parts' == parts[k := parts[k][1..]];
    ConcatTakeFirst(parts, k);
  }

  lemma TaggedTail(k: nat, events: Stream)
    requires events != []
    ensures Tagged(k, events)[0] == (k, events[0]) && Tagged(k, events)[1..] == Tagged(k, events[1..])
  {
  }

  /** Stopping early does not change where a full walk ends. */
  lemma {:induction false} StoppedSameFinal(pick: Selection, streams: seq<Stream>, cps: Checkpoints, k: nat, pos: nat)
    requires |cps| == |streams| && StreamsOk(streams) && k < |streams| && pick.TakesStream(k)
    requires StoppedAtFirst(pick, streams[k], cps[k], pos)
    ensures Final(pick, streams, Stopped(pick, streams, cps, k, pos), |streams|) == Final(pick, streams, cps, |streams|)
  {
    var cps' := Stopped(pick, streams, cps, k, pos);
    forall i | 0 <= i < |streams|
      ensures FinalIn(pick, streams[i], cps'[i], i) == FinalIn(pick, streams[i], cps[i], i)
    {
      if i < k { FinishedStream(pick, streams[i], cps[i], i); }
    }
  }

  // ---------------------------------------------------------------------------------------------
  // The runner.

  class SubscriptionRunner {
    const pick: Selection
    const streams: seq<Stream>
    var checkpoints: Checkpoints
    var handled: seq<(nat, StoredEvent)>

    ghost predicate Valid()
      reads this
    {
      |checkpoints| == |streams| && StreamsOk(streams)
    }

    constructor (sub: Subscription, names: seq<string>, streams: seq<Stream>, checkpoints: Checkpoints)
      requires |names| == |streams| == |checkpoints| && StreamsOk(streams)
      ensures Valid() && this.streams == streams && this.checkpoints == checkpoints && handled == []
      ensures pick == SelectionOf(sub, names)
    {
      this.pick, this.streams, this.checkpoints, handled := SelectionOf(sub, names), streams, checkpoints, [];
    }

    /** Handles an event if it is selected, and checkpoints it either way. */
    method Visit(k: nat, event: StoredEvent) returns (selected: bool)
      requires k < |checkpoints|
      modifies this
      ensures selected == pick.TakesEvent(event)
      ensures handled == if selected then old(handled) + [(k, event)] else old(handled)
      ensures checkpoints == old(checkpoints)[k := Some(event.version)]
    {
      selected := pick.TakesEvent(event);
      if selected { handled := handled + [(k, event)]; }
      checkpoints := checkpoints[k := Some(event.version)];
    }

    /** Handles and checkpoints the events of one page, selected or not. */
    method DeliverPage(k: nat, s: Stream, from: nat, end: nat)
      requires StreamOk(s) && from < end <= |s| && k < |checkpoints|
      modifies this
      ensures handled == old(handled) + Tagged(k, Selected(pick, s[from..end]))
      ensures checkpoints == old(checkpoints)[k := Some(end - 1)]
    {
      ghost var was, cps := handled, checkpoints;
      DeliverNone(pick, k, s, from, was);
      for i := from to end
        invariant handled == was + Tagged(k, Selected(pick, s[from..i]))
        invariant checkpoints == if i == from then cps else cps[k := Some(i - 1)]
      {
        var last := DeliverEvent(k, s, from, i, was, cps);
        if last {
          assert i + 1 == end;
          return;
        }
      }
    }

    /** One event of a page; answers whether its version is the largest there is. */
    method DeliverEvent(k: nat, s: Stream, ghost from: nat, i: nat,
                        ghost was: seq<(nat, StoredEvent)>, ghost cps: Checkpoints) returns (last: bool)
      requires StreamOk(s) && from <= i < |s| && k < |cps|
      requires handled == was + Tagged(k, Selected(pick, s[from..i]))
      requires checkpoints == if i == from then cps else cps[k := Some(i - 1)]
      modifies this
      ensures handled == was + Tagged(k, Selected(pick, s[from..i + 1]))
      ensures checkpoints == cps[k := Some(i)]
      ensures last ==> i + 1 == |s|
    {
      DeliverOne(pick, k, s, from, i, was);
      var _ := Visit(k, s[i]);
      last := s[i].version == I64_MAX;
    }

    /** Delivers the selected events of a stream from a version on, page by page. */
    method DeliverFrom(k: nat, s: Stream, from: nat)
      requires StreamOk(s) && from < |s| && k < |checkpoints|
      modifies this
      ensures handled == old(handled) + Tagged(k, Selected(pick, s[from..]))
      ensures checkpoints == old(checkpoints)[k := Some(|s| - 1)]
    {
      var cursor := from;
      while cursor < |s|
        invariant from <= cursor <= |s| && |checkpoints| == |old(checkpoints)|
        invariant handled == old(handled) + Tagged(k, Selected(pick, s[from..cursor]))
        invariant checkpoints == old(checkpoints)[k := if cursor == from then old(checkpoints)[k] else Some(cursor - 1)]
      {
        var page := ReadPage(s, cursor);
        var end := cursor + |page.events|;
        TaggedCut(pick, k, s, from, cursor, end);
        DeliverPage(k, s, cursor, end);
        cursor := end;
      }
      assert s[from..cursor] == s[from..];
    }

    /** Delivers every selected event of one stream, checkpointing after each event. */
    method RunStream(k: nat)
      requires Valid() && k < |streams| && pick.TakesStream(k)
      modifies this
      ensures Valid()
      ensures handled == old(handled) + PendingIn(pick, streams[k], old(checkpoints)[k], k)
      ensures checkpoints == old(checkpoints)[k := FinalIn(pick, streams[k], old(checkpoints)[k], k)]
    {
      var start := StartVersion(checkpoints[k]);
      if start.None? || start.value >= |streams[k]| { return; }
      DeliverFrom(k, streams[k], start.value);
    }

    /** One pass over every matching stream. */
    method RunOnce()
      requires Valid()
      modifies this
      ensures Valid()
      ensures handled == old(handled) + Pending(pick, streams, old(checkpoints))
      ensures checkpoints == Final(pick, streams, old(checkpoints), |streams|)
    {
      ghost var was, cps := handled, checkpoints;
      WalkEnds(pick, streams, cps, was);
      var k, more := 0, true;
      while more
        invariant k <= |streams| && Walked(was, cps, k) && (!more ==> k == |streams|)
        decreases more, |streams| - k
      {
        var end;
        end, more := ReadIdsPage(|streams|, k);
        WalkIds(k, end, was, cps);
        k := end;
      }
    }

    /** The streams of one page of names. */
    method WalkIds(from: nat, end: nat, ghost was: seq<(nat, StoredEvent)>, ghost cps: Checkpoints)
      requires from <= end <= |streams| && Walked(was, cps, from)
      modifies this
      ensures Walked(was, cps, end)
    {
      var k := from;
      while k < end
        invariant k <= end && Walked(was, cps, k)
      {
        k := WalkStream(k, was, cps);
      }
    }

    /** A pass that began with `was` handled and checkpoints `cps` is past the first `k` streams. */
    ghost predicate Walked(was: seq<(nat, StoredEvent)>, cps: Checkpoints, k: nat)
      reads this
    {
      && Valid() && |cps| == |streams| && k <= |streams|
      && handled == Extended(was, Parts(pick, streams, cps), k)
      && checkpoints == Final(pick, streams, cps, k)
    }

    /** One stream of the pass, if the subscription takes it; answers the next. */
    method WalkStream(k: nat, ghost was: seq<(nat, StoredEvent)>, ghost cps: Checkpoints) returns (next: nat)
      requires k < |streams| && Walked(was, cps, k)
      modifies this
      ensures next == k + 1 && Walked(was, cps, next)
    {
      WalkNext(pick, streams, cps, was, k);
      if pick.TakesStream(k) {
        RunStream(k);
      }
      next := k + 1;
    }

    /** Walks one page until it has handled one selected event; `pos` is how far it got. */
    method ScanPage(k: nat, s: Stream, from: nat, end: nat) returns (found: bool, pos: nat)
      requires StreamOk(s) && from < end <= |s| && k < |checkpoints|
      modifies this
      ensures from < pos <= end && checkpoints == old(checkpoints)[k := Some(pos - 1)]
      ensures !found ==> pos == end && handled == old(handled) && Selected(pick, s[from..end]) == []
      ensures found ==> handled == old(handled) + [(k, s[pos - 1])] && Selected(pick, s[from..pos]) == [s[pos - 1]]
    {
      for i := from to end
        invariant handled == old(handled) && Selected(pick, s[from..i]) == []
        invariant checkpoints == old(checkpoints)[k := if i == from then old(checkpoints)[k] else Some(i - 1)]
      {
        var event := s[i];
        SelectedNext(pick, s, from, i);
        var selected := Visit(k, event);
        assert checkpoints == old(checkpoints)[k := Some(i)];
        if selected { return true, i + 1; }
        if event.version == I64_MAX { return false, i + 1; }
      }
      return false, end;
    }

    /** Handles the first selected event of a stream from a version on, if there is one. */
    method NextFrom(k: nat, s: Stream, from: nat) returns (found: bool, pos: nat)
      requires StreamOk(s) && from < |s| && k < |checkpoints|
      modifies this
      ensures from < pos <= |s| && checkpoints == old(checkpoints)[k := Some(pos - 1)]
      ensures found ==>
        && handled == old(handled) + [(k, s[pos - 1])]
        && Selected(pick, s[from..]) == [s[pos - 1]] + Selected(pick, s[pos..])
      ensures !found ==> pos == |s| && handled == old(handled) && Selected(pick, s[from..]) == []
    {
      var cursor := from;
      while cursor < |s|
        invariant from <= cursor <= |s| && |checkpoints| == |old(checkpoints)|
        invariant handled == old(handled) && Selected(pick, s[from..cursor]) == []
        invariant checkpoints == old(checkpoints)[k := if cursor == from then old(checkpoints)[k] else Some(cursor - 1)]
      {
        var page := ReadPage(s, cursor);
        found, pos := ScanPage(k, s, cursor, cursor + |page.events|);
        SelectedCut(pick, s, from, cursor, pos);
        if found {
          FirstSelected(pick, s, from, pos);
          return true, pos;
        }
        cursor := pos;
      }
      assert s[from..cursor] == s[from..];
      return false, |s|;
    }

    /** Handles the next selected event of one stream, if it has one; filtered events are passed over. */
    method RunNextInStream(k: nat) returns (found: bool, pos: nat)
      requires Valid() && k < |streams| && pick.TakesStream(k)
      modifies this
      ensures Valid()
      ensures found ==>
        && StoppedAtFirst(pick, streams[k], old(checkpoints)[k], pos)
        && checkpoints == old(checkpoints)[k := Some(pos - 1)]
        && handled == old(handled) + [(k, Selected(pick, Remaining(streams[k], old(checkpoints)[k]))[0])]
      ensures !found ==>
        && PendingIn(pick, streams[k], old(checkpoints)[k], k) == [] && handled == old(handled)
        && checkpoints == old(checkpoints)[k := FinalIn(pick, streams[k], old(checkpoints)[k], k)]
    {
      var start := StartVersion(checkpoints[k]);
      if start.None? || start.value >= |streams[k]| { return false, 0; }
      var s, from, checkpoint := streams[k], start.value, checkpoints[k];
      found, pos := NextFrom(k, s, from);
      if found { StoppedHere(pick, s, checkpoint, from, pos); }
    }

    /** Handles at most one selected event, looking through the streams in order. */
    method RunNext() returns (found: bool)
      requires Valid()
      modifies this
      ensures Valid()
      ensures var all := Pending(pick, streams, old(checkpoints));
        if found then
          && all != [] && handled == old(handled) + [all[0]]
          && Pending(pick, streams, checkpoints) == all[1..]
          && Final(pick, streams, checkpoints, |streams|) == Final(pick, streams, old(checkpoints), |streams|)
        else
          && all == [] && handled == old(handled)
          && checkpoints == Final(pick, streams, old(checkpoints), |streams|)
    {
      ghost var was, cps := handled, checkpoints;
      var k, more := 0, true;
      while more
        invariant k <= |streams| && Idle(was, cps, k) && (!more ==> k == |streams|)
        decreases more, |streams| - k
      {
        var end;
        end, more := ReadIdsPage(|streams|, k);
        for i := k to end
          invariant Idle(was, cps, i)
        {
          var hit := NextInStream(i, was, cps);
          if hit { return true; }
        }
        k := end;
      }
      ConcatEmpty(Parts(pick, streams, cps));
      return false;
    }

    /** The first `k` streams had nothing to deliver; their filtered events are passed. */
    ghost predicate Idle(was: seq<(nat, StoredEvent)>, cps: Checkpoints, k: nat)
      reads this
    {
      && Valid() && |cps| == |streams| && k <= |streams| && handled == was
      && (forall i :: 0 <= i < k ==> Parts(pick, streams, cps)[i] == [])
      && checkpoints == Final(pick, streams, cps, k)
    }

    method NextInStream(k: nat, ghost was: seq<(nat, StoredEvent)>, ghost cps: Checkpoints) returns (hit: bool)
      requires k < |streams| && Idle(was, cps, k)
      modifies this
      ensures !hit ==> Idle(was, cps, k + 1)
      ensures hit ==>
        && Valid() && Pending(pick, streams, cps) != [] && handled == was + [Pending(pick, streams, cps)[0]]
        && Pending(pick, streams, checkpoints) == Pending(pick, streams, cps)[1..]
        && Final(pick, streams, checkpoints, |streams|) == Final(pick, streams, cps, |streams|)
    {
      WalkOne(pick, streams, cps, k);
      if !pick.TakesStream(k) { return false; }
      var pos;
      hit, pos := RunNextInStream(k);
      if hit {
        StoppedLeavesRest(pick, streams, cps, k, pos);
        StoppedSameFinal(pick, streams, cps, k, pos);
      }
    }

    /**
      Repeating `RunNext` until it finds nothing ends, and delivers the same events in the same
      order, and leaves the same checkpoints, as one `RunOnce` from the same state.
     */
    method RunNextUntilIdle()
      requires Valid()
      modifies this
      ensures Valid()
      ensures handled == old(handled) + Pending(pick, streams, old(checkpoints))
      ensures checkpoints == Final(pick, streams, old(checkpoints), |streams|)
    {
      ghost var left := Pending(pick, streams, checkpoints);
      ghost var all, target := handled + left, Final(pick, streams, checkpoints, |streams|);
      var more := true;
      while more
        invariant Valid() && left == Pending(pick, streams, checkpoints)
        invariant handled + left == all && Final(pick, streams, checkpoints, |streams|) == target
        invariant !more ==> left == [] && checkpoints == target
        decreases more, |left|
      {
        ghost var before, done := checkpoints, handled;
        more := RunNext();
        if more {
          MoveFirst(done, left);
        } else {
          PassIsComplete(pick, streams, before);
        }
        left := Pending(pick, streams, checkpoints);
      }
    }
  }

  lemma MoveFirst<T>(done: seq<T>, left: seq<T>)
    requires left != []
    ensures (done + [left[0]]) + left[1..] == done + left
  {
  }
}
