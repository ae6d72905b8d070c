/** Shared value types of the model. */
module Prelude {

  datatype Option<+T> = None | Some(value: T)

  datatype Result<+T, +E> = Ok(value: T) | Err(error: E)

  const I64_MIN: int := -0x8000_0000_0000_0000
  const I64_MAX: int := 0x7fff_ffff_ffff_ffff
  const U32_MAX: int := 0xffff_ffff
  const U64_MAX: int := 0xffff_ffff_ffff_ffff

  function Min(a: int, b: int): int {
    if a <= b then a else b
  }

  function Max(a: int, b: int): int {
    if a >= b then a else b
  }

  /** Joins a sequence of sequences. */
  function Concat<T>(parts: seq<seq<T>>): seq<T> {
    if parts == [] then [] else Concat(parts[..|parts| - 1]) + parts[|parts| - 1]
  }

  lemma ConcatSnoc<T>(parts: seq<seq<T>>, last: seq<T>)
    ensures Concat(parts + [last]) == Concat(parts) + last
  {
    assert (parts + [last])[..|parts|] == parts;
  }

  /** One more part after a prefix of the parts. */
  lemma ConcatNext<T>(parts: seq<seq<T>>, k: nat, before: seq<T>)
    requires k < |parts|
    ensures before + Concat(parts[..k + 1]) == (before + Concat(parts[..k])) + parts[k]
  {
    assert parts[..k + 1][..k] == parts[..k];
  }

  /** A sequence followed by the first `k` parts. */
  function Extended<T>(before: seq<T>, parts: seq<seq<T>>, k: nat): seq<T>
    requires k <= |parts|
  {
    if k == 0 then before else Extended(before, parts, k - 1) + parts[k - 1]
  }

  lemma {:induction false} ExtendedIsConcat<T>(before: seq<T>, parts: seq<seq<T>>, k: nat)
    requires k <= |parts|
    ensures Extended(before, parts, k) == before + Concat(parts[..k])
    decreases k
  {
    if k > 0 {
      ExtendedIsConcat(before, parts, k - 1);
      ConcatNext(parts, k - 1, before);
    }
  }

  lemma {:induction false} ConcatSplits<T>(a: seq<seq<T>>, b: seq<seq<T>>)
    ensures Concat(a + b) == Concat(a) + Concat(b)
    decreases |b|
  {
    if b == [] {
      assert a + b == a;
    } else {
      var front, last := b[..|b| - 1], b[|b| - 1];
      ConcatSplits(a, front);
      assert a + b == (a + front) + [last] && b == front + [last];
      ConcatSnoc(a + front, last);
    }
  }

  lemma {:induction false} ConcatEmpty<T>(parts: seq<seq<T>>)
    ensures Concat(parts) == [] <==> forall k :: 0 <= k < |parts| ==> parts[k] == []
  {
    if parts != [] {
      ConcatEmpty(parts[..|parts| - 1]);
      assert forall k :: 0 <= k < |parts| - 1 ==> parts[..|parts| - 1][k] == parts[k];
    }
  }

  /** Taking the first element of the first non-empty part takes the first element of the whole. */
  lemma {:induction false} ConcatTakeFirst<T>(parts: seq<seq<T>>, k: nat)
    requires k < |parts| && parts[k] != [] && forall i :: 0 <= i < k ==> parts[i] == []
    ensures Concat(parts) != [] && Concat(parts)[0] == parts[k][0]
    ensures Concat(parts[k := parts[k][1..]]) == Concat(parts)[1..]
  {
    var before, after := parts[..k], parts[k + 1..];
    var less := parts[k := parts[k][1..]];
    assert parts == before + [parts[k]] + after && less == before + [parts[k][1..]] + after;
    ConcatSplits(before + [parts[k]], after);
    ConcatSplits(before + [parts[k][1..]], after);
    ConcatSnoc(before, parts[k]);
    ConcatSnoc(before, parts[k][1..]);
    ConcatEmpty(before);
  }
}
