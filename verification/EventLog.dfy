/**
  Event streams and the page contract of an event store: streams only grow, versions are dense from
  zero, a page is a non-empty stretch while events remain, and its cursor moves strictly forward.
 */
module EventLog {
  import opened Prelude

  datatype Envelope = Envelope(messageType: string, schemaVersion: nat, payload: seq<int>)

  datatype StoredEvent = StoredEvent(version: int, envelope: Envelope, timestamp: int)

  type Stream = seq<StoredEvent>

  /** One page and the version from which to ask for the next one. */
  datatype Page = Page(events: seq<StoredEvent>, next: Option<nat>)

  /** Versions count from zero without a gap, inside the signed 64-bit range. */
  predicate StreamOk(s: Stream) {
    |s| <= I64_MAX + 1 && forall i :: 0 <= i < |s| ==> s[i].version == i
  }

  /** A page of `s` from a cursor: any store may cut it anywhere after the cursor. */
  predicate IsPage(s: Stream, from: nat, p: Page) {
    if from >= |s| then p == Page([], None)
    else
      var end := from + |p.events|;
      && from < end <= |s| && p.events == s[from..end]
      && p.next == (if end < |s| then Some(end) else None)
  }

  /** The part of a stream up to an inclusive version. */
  function UpTo(s: Stream, version: int): Stream {
    if version < 0 then [] else s[..Min(version + 1, |s|)]
  }

  /** The first `n` events are exactly those up to an inclusive version. */
  ghost predicate CutsAt(s: Stream, version: int, n: nat) {
    n <= |s| && forall i :: 0 <= i < |s| ==> (i < n <==> s[i].version <= version)
  }

  lemma UpToCuts(s: Stream, version: int)
    requires StreamOk(s)
    ensures CutsAt(s, version, |UpTo(s, version)|) && UpTo(s, version) == s[..|UpTo(s, version)|]
  {
  }

  function Matching(s: Stream, bound: int): Stream {
    if s == [] then []
    else
      var rest := Matching(s[..|s| - 1], bound);
      if s[|s| - 1].timestamp <= bound then rest + [s[|s| - 1]] else rest
  }

  /** A page of events at or before a time: the cursor follows physical versions, even past no match. */
  ghost predicate IsTimePageTo(s: Stream, from: nat, end: nat, bound: int, p: Page)
    requires from < end <= |s|
  {
    p.events == Matching(s[from..end], bound) && p.next == (if end < |s| then Some(end) else None)
  }

  /** Reads one page; the store decides where it ends. */
  method ReadPage(s: Stream, from: nat) returns (p: Page)
    ensures IsPage(s, from, p)
  {
    if from >= |s| { return Page([], None); }
    var end: nat :| from < end <= |s|;
    return Page(s[from..end], if end < |s| then Some(end) else None);
  }

  /** Reads one lexical page of stream names, each standing for a position; the store decides where it ends. */
  method ReadIdsPage(count: nat, after: nat) returns (end: nat, more: bool)
    requires after <= count
    ensures after <= end <= count && (after < count ==> after < end) && (more <==> end < count)
  {
    end := after;
    if after < count { end :| after < end <= count; }
    more := end < count;
  }

  /** Reads one page of the events at or before a time. */
  method ReadTimePage(s: Stream, from: nat, bound: int) returns (p: Page, ghost end: nat)
    ensures from >= |s| ==> p == Page([], None)
    ensures from < |s| ==> from < end <= |s| && IsTimePageTo(s, from, end, bound, p)
  {
    if from >= |s| { return Page([], None), from; }
    var cut: nat :| from < cut <= |s|;
    return Page(Matching(s[from..cut], bound), if cut < |s| then Some(cut) else None), cut;
  }

  /** Gives the next versions to a batch of envelopes. */
  function Numbered(from: nat, envelopes: seq<Envelope>, timestamp: int): (r: seq<StoredEvent>)
    ensures |r| == |envelopes|
    ensures forall i :: 0 <= i < |r| ==> r[i] == StoredEvent(from + i, envelopes[i], timestamp)
  {
    seq(|envelopes|, i requires 0 <= i < |envelopes| => StoredEvent(from + i, envelopes[i], timestamp))
  }

  function Append(s: Stream, envelopes: seq<Envelope>, timestamp: int): Stream {
    s + Numbered(|s|, envelopes, timestamp)
  }

  lemma {:induction false} MatchingSplits(a: Stream, b: Stream, bound: int)
    ensures Matching(a + b, bound) == Matching(a, bound) + Matching(b, bound)
    decreases |b|
  {
    if b == [] {
      assert a + b == a;
    } else {
      var front := b[..|b| - 1];
      assert (a + b)[..|a + b| - 1] == a + front;
      MatchingSplits(a, front, bound);
    }
  }

  lemma {:induction false} MatchingIsSubsequence(s: Stream, bound: int)
    ensures |Matching(s, bound)| <= |s|
    ensures forall e :: e in Matching(s, bound) <==> e in s && e.timestamp <= bound
  {
    if s != [] {
      MatchingIsSubsequence(s[..|s| - 1], bound);
      assert s == s[..|s| - 1] + [s[|s| - 1]];
    }
  }
}
