/** A suspended flow: its state, the step to resume, and the child results it waits for. */
module FlowContinuations {
  import opened Prelude
  import opened FlowStates

  const MAX_WAIT_CHILDREN: nat := 1_024
  const MAX_WAIT_RESULT_BYTES: nat := 64 * 1_024
  const MAX_FLOW_DATA_BYTES: nat := 1_024 * 1_024

  datatype Outcome = Success(payload: seq<int>) | Failure(error: string)

  datatype WaitResult = WaitResult(childId: string, outcome: Outcome)

  /** `children` lists the accepted child identities; an empty list accepts anyone. */
  datatype WaitCondition = WaitCondition(
    correlationId: string,
    expectedCount: nat,
    results: seq<WaitResult>,
    createdAt: int,
    timeout: nat,
    children: seq<string>)
  {
    predicate HasReported(child: string) {
      exists i :: 0 <= i < |results| && results[i].childId == child
    }

    predicate AcceptsChild(child: string) {
      children == [] || child in children
    }

    /** The wait still has room for this child's outcome. */
    predicate Accepts(child: string, outcome: Outcome) {
      && (outcome.Success? ==> |outcome.payload| <= MAX_WAIT_RESULT_BYTES)
      && |results| < MAX_WAIT_CHILDREN
      && |results| < expectedCount
      && AcceptsChild(child)
      && !HasReported(child)
    }

    function Record(child: string, outcome: Outcome): WaitCondition {
      if Accepts(child, outcome) then this.(results := results + [WaitResult(child, outcome)]) else this
    }

    predicate Valid() {
      && correlationId != ""
      && 1 <= expectedCount <= MAX_WAIT_CHILDREN
      && |results| <= MAX_WAIT_CHILDREN && |results| <= expectedCount
      && (forall i :: 0 <= i < |results| && results[i].outcome.Success? ==>
            |results[i].outcome.payload| <= MAX_WAIT_RESULT_BYTES)
      && (children != [] ==>
            && |children| == expectedCount
            && (forall i :: 0 <= i < |children| ==> children[i] != "")
            && (forall i, j :: 0 <= i < j < |children| ==> children[i] != children[j]))
    }
  }

  datatype FlowContinuation = FlowContinuation(
    state: FlowState,
    stepName: string,
    wait: Option<WaitCondition>,
    resumeAt: Option<int>,
    scheduleId: Option<string>,
    compensations: seq<string>,
    createdAt: int,
    updatedAt: int)
  {
    function WithWait(w: WaitCondition, now: int): FlowContinuation {
      this.(wait := Some(w), resumeAt := None, scheduleId := None, updatedAt := now)
    }

    function WithState(s: FlowState, now: int): FlowContinuation {
      this.(state := s, updatedAt := now)
    }

    predicate Valid() {
      |state.data| <= MAX_FLOW_DATA_BYTES && (wait.Some? ==> wait.value.Valid())
    }
  }

  // ---------------------------------------------------------------------------------------------
  // Child results.

  /** The results come from different children, each of which may report. */
  ghost predicate ResultsOk(w: WaitCondition) {
    && (forall i, j :: 0 <= i < j < |w.results| ==> w.results[i].childId != w.results[j].childId)
    && (forall i :: 0 <= i < |w.results| ==> w.children == [] || w.results[i].childId in w.children)
  }

  /** Recording adds a result exactly if one is missing, the child may report and has not, and it is small enough. */
  lemma RecordAddsExactlyWhen(w: WaitCondition, child: string, outcome: Outcome)
    ensures var adds :=
        && |w.results| < w.expectedCount && |w.results| < 1_024
        && (w.children == [] || child in w.children)
        && (forall i :: 0 <= i < |w.results| ==> w.results[i].childId != child)
        && (outcome.Success? ==> |outcome.payload| <= 65_536);
      w.Record(child, outcome) == if adds then w.(results := w.results + [WaitResult(child, outcome)]) else w
  {
  }

  /** So a valid wait stays valid, and no child is counted twice. */
  lemma RecordKeepsWait(w: WaitCondition, child: string, outcome: Outcome)
    requires w.Valid() && ResultsOk(w)
    ensures w.Record(child, outcome).Valid() && ResultsOk(w.Record(child, outcome))
  {
  }

  lemma {:induction false} DistinctCount<T>(s: seq<T>)
    requires forall i, j :: 0 <= i < j < |s| ==> s[i] != s[j]
    ensures |set i | 0 <= i < |s| :: s[i]| == |s|
    decreases |s|
  {
    if s != [] {
      var front, last := s[..|s| - 1], s[|s| - 1];
      DistinctCount(front);
      assert (set i | 0 <= i < |s| :: s[i]) == (set i | 0 <= i < |front| :: front[i]) + {last};
    }
  }

  lemma SameSizeSubset<T>(a: set<T>, b: set<T>)
    requires a <= b && |a| >= |b|
    ensures a == b
  {
    assert |b - a| == |b| - |a|;
  }

  function Reporters(w: WaitCondition): (r: seq<string>)
    ensures |r| == |w.results| && forall i :: 0 <= i < |r| ==> r[i] == w.results[i].childId
  {
    seq(|w.results|, i requires 0 <= i < |w.results| => w.results[i].childId)
  }

  /** A valid wait for named children has all its results exactly when every one of them has reported. */
  lemma {:induction false} CompleteExactlyWhenAllReported(w: WaitCondition)
    requires w.Valid() && ResultsOk(w) && w.children != []
    ensures |w.results| == w.expectedCount <==> forall c :: c in w.children ==> w.HasReported(c)
  {
    var reporters := Reporters(w);
    var reported, named := set i | 0 <= i < |reporters| :: reporters[i], set i | 0 <= i < |w.children| :: w.children[i];
    DistinctCount(reporters);
    DistinctCount(w.children);
    forall c ensures c in reported <==> w.HasReported(c) {
      if c in reported {
        var i :| 0 <= i < |reporters| && reporters[i] == c;
        assert w.results[i].childId == c;
      }
      if w.HasReported(c) {
        var i :| 0 <= i < |w.results| && w.results[i].childId == c;
        assert reporters[i] == c;
      }
    }
    forall c | c in reported ensures c in named {
      var i :| 0 <= i < |reporters| && reporters[i] == c;
      assert w.results[i].childId in w.children;
    }
    assert named <= reported <==> forall c :: c in w.children ==> w.HasReported(c) by {
      assert forall c :: c in w.children <==> c in named;
    }
    assert named <= reported ==> named == reported;
    if |w.results| == w.expectedCount { SameSizeSubset(reported, named); }
  }

  // ---------------------------------------------------------------------------------------------
  // Deadlines.

  /**
    The indexed wait deadline in whole milliseconds, rounded up; `Err` when the deadline lies
    before the epoch or past the largest signed millisecond, and so cannot be stored.
   */
  function DeadlineMillis(c: FlowContinuation): Result<Option<int>, ()> {
    if c.state.status != Suspended || c.wait.None? then Ok(None)
    else
      var deadline := c.wait.value.createdAt + c.wait.value.timeout;
      var millis := deadline / 1_000_000 + (if deadline % 1_000_000 != 0 then 1 else 0);
      if deadline < 0 || millis > I64_MAX then Err(()) else Ok(Some(millis))
  }

  /** Only a suspended wait has a deadline; it cannot be stored exactly if it is before the epoch or too late. */
  lemma DeadlineStorableExactlyWhen(c: FlowContinuation)
    ensures DeadlineMillis(c) == Ok(None) <==> c.state.status != Suspended || c.wait.None?
    ensures c.state.status == Suspended && c.wait.Some? ==>
      var deadline := c.wait.value.createdAt + c.wait.value.timeout;
      (DeadlineMillis(c).Err? <==> deadline < 0 || deadline > I64_MAX * 1_000_000)
  {
  }

  /** The stored deadline is the real one rounded up, by less than a millisecond. */
  lemma DeadlineRoundsUp(c: FlowContinuation)
    requires DeadlineMillis(c).Ok? && DeadlineMillis(c).value.Some?
    ensures c.state.status == Suspended && c.wait.Some?
    ensures var deadline := c.wait.value.createdAt + c.wait.value.timeout;
      0 <= 1_000_000 * DeadlineMillis(c).value.value - deadline < 1_000_000
  {
  }

  /**
    Deadlines are rounded up so that a poll which sees the stored deadline passed is not ahead of
    the real one. Clock readings within a millisecond before the epoch are rounded up too, so that
    holds exactly unless the clock reads such an instant and the deadline is the epoch itself.
   */
  lemma DeadlineNeverEarly(c: FlowContinuation, now: int)
    requires DeadlineMillis(c).Ok? && DeadlineMillis(c).value.Some?
    ensures var deadline := c.wait.value.createdAt + c.wait.value.timeout;
      (DeadlineMillis(c).value.value <= UnixMillis(now) ==> deadline <= now)
      <==> now >= 0 || now <= -1_000_000 || deadline > 0
  {
    DeadlineRoundsUp(c);
    assert now >= 0 ==> 1_000_000 * UnixMillis(now) <= now;
  }

  /** For instance a wait that ends at the epoch is seen as over one nanosecond before it. */
  lemma DeadlineCanBeEarly(c: FlowContinuation)
    requires c.state.status == Suspended && c.wait.Some? && c.wait.value.createdAt == 0 && c.wait.value.timeout == 0
    ensures DeadlineMillis(c) == Ok(Some(0)) && 0 <= UnixMillis(-1)
  {
  }
}
