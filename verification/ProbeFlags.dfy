/** The recovery probe's flag: which accesses to one shared flag let a caller through. */
module ProbeFlags {

  /** An access to the flag: a caller's swap from false to true, or a store of false. */
  datatype FlagAccess = TrySwap | Reset

  function Grants(flag: bool, accesses: seq<FlagAccess>): nat
    decreases |accesses|
  {
    if accesses == [] then 0
    else
      match accesses[0]
      case TrySwap => (if flag then 0 else 1) + Grants(true, accesses[1..])
      case Reset => Grants(false, accesses[1..])
  }

  ghost predicate ResetThenSwap(accesses: seq<FlagAccess>, r: int, j: int) {
    0 <= r < j < |accesses| && accesses[r] == Reset && accesses[j] == TrySwap
  }

  ghost predicate SwapResetSwap(accesses: seq<FlagAccess>, i: int, r: int, j: int) {
    0 <= i < r && ResetThenSwap(accesses, r, j) && accesses[i] == TrySwap
  }

  ghost predicate HasReset(accesses: seq<FlagAccess>) {
    exists r, j :: ResetThenSwap(accesses, r, j)
  }

  ghost predicate ResetBetweenSwaps(accesses: seq<FlagAccess>) {
    exists i, r, j :: SwapResetSwap(accesses, i, r, j)
  }

  lemma ShiftReset(accesses: seq<FlagAccess>, r: int, j: int)
    requires accesses != []
    ensures ResetThenSwap(accesses[1..], r - 1, j - 1) <==> r > 0 && ResetThenSwap(accesses, r, j)
  {
  }

  lemma {:induction false} HasResetByHead(accesses: seq<FlagAccess>)
    requires accesses != []
    ensures HasReset(accesses) <==> HasReset(accesses[1..]) || (accesses[0] == Reset && TrySwap in accesses[1..])
  {
    var rest := accesses[1..];
    if HasReset(accesses) {
      var r, j :| ResetThenSwap(accesses, r, j);
      ShiftReset(accesses, r, j);
      assert rest[j - 1] == TrySwap;
    }
    if HasReset(rest) {
      var r, j :| ResetThenSwap(rest, r, j);
      ShiftReset(accesses, r + 1, j + 1);
    }
    if accesses[0] == Reset && TrySwap in rest {
      var j :| 0 <= j < |rest| && rest[j] == TrySwap;
      assert ResetThenSwap(accesses, 0, j + 1);
    }
  }

  lemma {:induction false} GrantsWhenTaken(accesses: seq<FlagAccess>)
    ensures Grants(true, accesses) > 0 <==> HasReset(accesses)
    decreases |accesses|
  {
    if accesses != [] {
      HasResetByHead(accesses);
      GrantsWhenTaken(accesses[1..]);
      GrantsWhenFree(accesses[1..]);
      if HasReset(accesses[1..]) { ResetImpliesSwap(accesses[1..]); }
    }
  }

  lemma ResetImpliesSwap(accesses: seq<FlagAccess>)
    requires HasReset(accesses)
    ensures TrySwap in accesses
  {
    var r, j :| ResetThenSwap(accesses, r, j);
    assert accesses[j] == TrySwap;
  }

  lemma {:induction false} GrantsWhenFree(accesses: seq<FlagAccess>)
    ensures Grants(false, accesses) > 0 <==> TrySwap in accesses
    decreases |accesses|
  {
    if accesses != [] { GrantsWhenFree(accesses[1..]); }
  }

  lemma BetweenSwapsDown(accesses: seq<FlagAccess>)
    requires accesses != [] && ResetBetweenSwaps(accesses)
    ensures (accesses[0] == TrySwap && HasReset(accesses[1..])) || ResetBetweenSwaps(accesses[1..])
  {
    var i, r, j :| SwapResetSwap(accesses, i, r, j);
    ShiftReset(accesses, r, j);
    if i > 0 { assert SwapResetSwap(accesses[1..], i - 1, r - 1, j - 1); }
  }

  lemma BetweenSwapsUp(accesses: seq<FlagAccess>)
    requires accesses != [] && ResetBetweenSwaps(accesses[1..])
    ensures HasReset(accesses[1..]) && ResetBetweenSwaps(accesses)
  {
    var i, r, j :| SwapResetSwap(accesses[1..], i, r, j);
    ShiftReset(accesses, r + 1, j + 1);
    assert SwapResetSwap(accesses, i + 1, r + 1, j + 1);
  }

  lemma SwapThenReset(accesses: seq<FlagAccess>)
    requires accesses != [] && accesses[0] == TrySwap && HasReset(accesses[1..])
    ensures ResetBetweenSwaps(accesses)
  {
    var r, j :| ResetThenSwap(accesses[1..], r, j);
    ShiftReset(accesses, r + 1, j + 1);
    assert SwapResetSwap(accesses, 0, r + 1, j + 1);
  }

  lemma {:induction false} SecondGrantExactlyWhen(accesses: seq<FlagAccess>)
    ensures Grants(false, accesses) > 1 <==> ResetBetweenSwaps(accesses)
    decreases |accesses|
  {
    if accesses != [] {
      if ResetBetweenSwaps(accesses) { BetweenSwapsDown(accesses); }
      if ResetBetweenSwaps(accesses[1..]) { BetweenSwapsUp(accesses); }
      if accesses[0] == TrySwap && HasReset(accesses[1..]) { SwapThenReset(accesses); }
      if accesses[0] == TrySwap { GrantsWhenTaken(accesses[1..]); }
      else { SecondGrantExactlyWhen(accesses[1..]); }
    }
  }

  /** What follows the first reset. */
  function AfterFirstReset(accesses: seq<FlagAccess>): seq<FlagAccess>
    decreases |accesses|
  {
    if accesses == [] then []
    else if accesses[0] == Reset then accesses[1..]
    else AfterFirstReset(accesses[1..])
  }

  /** A taken flag lets nobody through before its first reset, and is a free flag from there on. */
  lemma {:induction false} TakenUntilReset(accesses: seq<FlagAccess>)
    ensures Grants(true, accesses) == Grants(false, AfterFirstReset(accesses))
    decreases |accesses|
  {
    if accesses != [] && accesses[0] == TrySwap { TakenUntilReset(accesses[1..]); }
  }

  /** A reset falls between two swaps, once the flag has been free. */
  ghost predicate Contended(flag: bool, accesses: seq<FlagAccess>) {
    ResetBetweenSwaps(if flag then AfterFirstReset(accesses) else accesses)
  }

  /** Two callers get through exactly when a reset falls between two swaps. */
  lemma {:induction false} SecondGrantWhenContended(flag: bool, accesses: seq<FlagAccess>)
    ensures Grants(flag, accesses) > 1 <==> Contended(flag, accesses)
  {
    TakenUntilReset(accesses);
    SecondGrantExactlyWhen(if flag then AfterFirstReset(accesses) else accesses);
  }

  lemma GrantsByHead(flag: bool, here: seq<FlagAccess>, later: seq<FlagAccess>)
    requires |here| <= 1
    ensures Grants(flag, here + later)
      == if here == [] then Grants(flag, later)
         else if here[0] == Reset then Grants(false, later)
         else (if flag then 0 else 1) + Grants(true, later)
  {
    if here == [] {
      assert here + later == later;
    } else {
      assert (here + later)[1..] == later;
    }
  }
}
