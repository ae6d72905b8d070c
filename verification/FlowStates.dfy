/** Durable flow state: the value that every flow store persists and versions. */
module FlowStates {
  import opened Prelude

  datatype FlowStatus = Running | Compensating | Suspended | Done | Failed | Cancelled

  /** Times are nanoseconds relative to the Unix epoch; versions are signed 64-bit numbers. */
  datatype FlowState = FlowState(
    id: string,
    flowType: string,
    status: FlowStatus,
    step: nat,
    version: int,
    owner: Option<string>,
    heartbeat: int,
    data: seq<int>,
    error: Option<string>)
  {
    function ClaimedBy(newOwner: string, now: int): FlowState {
      this.(owner := Some(newOwner), heartbeat := now)
    }

    function HeartbeatedAt(now: int): FlowState {
      this.(heartbeat := now)
    }

    /** The next version, unless the version is the largest signed 64-bit number. */
    function NextVersion(): Option<FlowState> {
      if version >= I64_MAX then None else Some(this.(version := version + 1))
    }
  }

  predicate IsNextVersion(expected: int, next: int) {
    expected < I64_MAX && expected + 1 == next
  }

  /** Whole milliseconds, rounded toward the epoch as the store rounds them. */
  function UnixMillis(time: int): int {
    if time >= 0 then time / 1_000_000 else -((-time) / 1_000_000)
  }

  /** The stored millisecond is less than a millisecond away, on the epoch's side. */
  lemma UnixMillisRounds(time: int)
    ensures time >= 0 ==> 0 <= time - 1_000_000 * UnixMillis(time) < 1_000_000
    ensures time <= 0 ==> 0 <= 1_000_000 * UnixMillis(time) - time < 1_000_000
  {
  }

  lemma UnixMillisMonotone(a: int, b: int)
    requires a <= b
    ensures UnixMillis(a) <= UnixMillis(b)
  {
  }
}
