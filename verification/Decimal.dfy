/** Allocation-free decimal rendering of an id into a caller's byte buffer. */
module Decimal {
  import opened Prelude

  type Byte = b: int | 0 <= b < 256

  const ZERO: int := 48

  function DigitCount(value: nat): nat {
    if value < 10 then 1 else 1 + DigitCount(value / 10)
  }

  /** The digits of a number, most significant first. */
  function Digits(value: nat): (d: seq<Byte>)
    ensures |d| == DigitCount(value)
  {
    if value < 10 then [ZERO + value] else Digits(value / 10) + [ZERO + value % 10]
  }

  ghost predicate IsDigit(b: Byte) {
    ZERO <= b < ZERO + 10
  }

  ghost predicate AllDigits(s: seq<Byte>) {
    forall i :: 0 <= i < |s| ==> IsDigit(s[i])
  }

  /** The number a digit string denotes. */
  ghost function Value(s: seq<Byte>): nat
    requires AllDigits(s)
  {
    if s == [] then 0 else Value(s[..|s| - 1]) * 10 + (s[|s| - 1] - ZERO)
  }

  /** The digits evaluate back to the number, with no leading zero except for 0 itself. */
  lemma {:induction false} DigitsDenoteValue(value: nat)
    ensures AllDigits(Digits(value)) && Value(Digits(value)) == value
    ensures Digits(value)[0] == ZERO ==> value == 0
  {
    if value < 10 {
      assert Digits(value)[..0] == [];
    } else {
      DigitsDenoteValue(value / 10);
      assert Digits(value)[..|Digits(value)| - 1] == Digits(value / 10);
    }
  }

  /** No digit string for the same number is shorter. */
  lemma {:induction false} DigitsAreShortest(s: seq<Byte>)
    requires AllDigits(s) && |s| > 0
    ensures DigitCount(Value(s)) <= |s|
    decreases |s|
  {
    var front := s[..|s| - 1];
    if |s| == 1 {
      assert front == [];
    } else {
      DigitsAreShortest(front);
      assert Value(s) / 10 == Value(front);
    }
  }

  /** Moving the last digit of a number over to what is already written changes nothing. */
  lemma LastDigit(rest: nat, done: seq<Byte>)
    ensures Digits(rest) + done == (if rest >= 10 then Digits(rest / 10) else []) + ([ZERO + rest % 10] + done)
    ensures DigitCount(rest) == if rest >= 10 then 1 + DigitCount(rest / 10) else 1
  {
  }

  /**
    Renders `value` at the start of the buffer. It answers `None`, touching nothing, exactly when
    the digits do not fit; otherwise it writes them and leaves the rest of the buffer alone.
   */
  method WriteDecimal(value: nat, destination: array<Byte>) returns (r: Option<nat>)
    modifies destination
    ensures r.None? <==> destination.Length < DigitCount(value)
    ensures r.None? ==> destination[..] == old(destination[..])
    ensures r.Some? ==>
      && r.value == DigitCount(value)
      && destination[..] == Digits(value) + old(destination[DigitCount(value)..])
  {
    var digits, remaining := 1, value;
    while remaining >= 10
      invariant digits - 1 + DigitCount(remaining) == DigitCount(value)
    {
      remaining := remaining / 10;
      digits := digits + 1;
    }
    if destination.Length < digits { return None; }
    var rest, index := value, digits;
    ghost var tail := destination[digits..];
    assert Digits(rest) + destination[index..digits] == Digits(value);
    while index > 0
      invariant 0 <= index <= digits <= destination.Length
      invariant destination[digits..] == tail
      invariant index > 0 ==> DigitCount(rest) == index
      invariant (if index > 0 then Digits(rest) else []) + destination[index..digits] == Digits(value)
    {
      ghost var done := destination[index..digits];
      index := index - 1;
      destination[index] := ZERO + rest % 10;
      assert destination[index..digits] == [destination[index]] + done;
      LastDigit(rest, done);
      rest := rest / 10;
    }
    assert destination[..] == destination[0..digits] + destination[digits..];
    return Some(digits);
  }
}
