/**
  Bit operations on unsigned words, defined digit by digit on natural numbers, and the facts that
  turn them into arithmetic.
 */
module Bits {

  function Pow2(n: nat): (p: nat)
    ensures p > 0
  {
    if n == 0 then 1 else 2 * Pow2(n - 1)
  }

  /** Shift left in a 64-bit word: bits above the word are lost. */
  function Shl(a: nat, n: nat): nat {
    Scale(a, n) % 0x1_0000_0000_0000_0000
  }

  function Shr(a: nat, n: nat): nat {
    if n == 0 then a else Shr(a / 2, n - 1)
  }

  function And(a: nat, b: nat): nat {
    if a == 0 || b == 0 then 0
    else 2 * And(a / 2, b / 2) + (if a % 2 == 1 && b % 2 == 1 then 1 else 0)
  }

  function Or(a: nat, b: nat): nat
    decreases a + b
  {
    if a == 0 then b else if b == 0 then a
    else 2 * Or(a / 2, b / 2) + (if a % 2 == 1 || b % 2 == 1 then 1 else 0)
  }

  function Xor(a: nat, b: nat): nat
    decreases a + b
  {
    if a == 0 then b else if b == 0 then a
    else 2 * Xor(a / 2, b / 2) + (if a % 2 != b % 2 then 1 else 0)
  }

  /** A number followed by `k` zero bits. */
  function Scale(a: nat, k: nat): (r: nat)
    ensures a == 0 ==> r == 0
    ensures a > 0 ==> r >= Pow2(k)
  {
    if k == 0 then a else 2 * Scale(a, k - 1)
  }

  lemma {:induction false} Pow2IsScale(k: nat)
    ensures Pow2(k) == Scale(1, k)
  {
    if k > 0 { Pow2IsScale(k - 1); }
  }

  lemma {:induction false} ScaleAdds(a: nat, b: nat, k: nat)
    ensures Scale(a + b, k) == Scale(a, k) + Scale(b, k)
  {
    if k > 0 { ScaleAdds(a, b, k - 1); }
  }

  lemma {:induction false} ScaleTwice(a: nat, m: nat, n: nat)
    ensures Scale(Scale(a, m), n) == Scale(a, m + n)
    decreases n
  {
    if n > 0 { ScaleTwice(a, m, n - 1); }
  }

  lemma {:induction false} Pow2Monotone(m: nat, n: nat)
    requires m <= n
    ensures Pow2(m) <= Pow2(n)
  {
    if m < n { Pow2Monotone(m, n - 1); }
  }

  lemma Pow2Sum(m: nat, n: nat)
    ensures Pow2(m + n) == Scale(Pow2(m), n)
  {
    Pow2IsScale(m);
    Pow2IsScale(m + n);
    ScaleTwice(1, m, n);
  }

  lemma Pow2Constants()
    ensures Pow2(31) == 0x8000_0000 && Pow2(32) == 0x1_0000_0000
    ensures Pow2(63) == 0x8000_0000_0000_0000 && Pow2(64) == 0x1_0000_0000_0000_0000
  {
    Pow2Fifteen(0);
    Pow2Fifteen(15);
    Pow2Fifteen(30);
    Pow2Fifteen(45);
    assert Pow2(63) == 8 * Pow2(60) && Pow2(64) == 2 * Pow2(63);
    assert Pow2(31) == 2 * Pow2(30) && Pow2(32) == 2 * Pow2(31);
  }

  lemma Pow2Fifteen(n: nat)
    ensures Pow2(n + 15) == 0x8000 * Pow2(n)
  {
    Pow2Five(n);
    Pow2Five(n + 5);
    Pow2Five(n + 10);
  }

  lemma Pow2Five(n: nat)
    ensures Pow2(n + 5) == 32 * Pow2(n)
  {
    assert Pow2(n + 1) == 2 * Pow2(n) && Pow2(n + 2) == 2 * Pow2(n + 1) && Pow2(n + 3) == 2 * Pow2(n + 2);
    assert Pow2(n + 4) == 2 * Pow2(n + 3) && Pow2(n + 5) == 2 * Pow2(n + 4);
  }

  /** A high field below `n` over a low field of `k` bits stays below `n` scaled. */
  lemma {:induction false} FieldsBelow(high: nat, n: nat, low: nat, k: nat)
    requires high < n && low < Pow2(k)
    ensures Scale(high, k) + low < Scale(n, k)
  {
    ScaleAdds(high, n - high, k);
  }

  /** A field below bit `k` and a field above it do not overlap, so joining them adds them. */
  lemma {:induction false} OrIsAdd(high: nat, low: nat, k: nat)
    requires low < Pow2(k)
    ensures Or(Scale(high, k), low) == Scale(high, k) + low
  {
    if k > 0 {
      OrIsAdd(high, low / 2, k - 1);
    }
  }

  lemma AndOdd(a: nat, half: nat)
    ensures And(a, 2 * half + 1) == 2 * And(a / 2, half) + a % 2
  {
    if a > 0 {
      assert (2 * half + 1) / 2 == half;
    }
  }

  /** A word made of two fields splits into them: shift for the high one, mask for the low one. */
  lemma {:induction false} SplitWord(high: nat, low: nat, k: nat)
    requires low < Pow2(k)
    ensures Shr(Scale(high, k) + low, k) == high
    ensures And(Scale(high, k) + low, Pow2(k) - 1) == low
    decreases k
  {
    var word := Scale(high, k) + low;
    if k > 0 {
      assert word / 2 == Scale(high, k - 1) + low / 2 && word % 2 == low % 2;
      SplitWord(high, low / 2, k - 1);
      AndOdd(word, Pow2(k - 1) - 1);
    } else {
      assert And(word, 0) == 0;
    }
  }

  /** Every word is the two fields that shifting and masking take out of it. */
  lemma {:induction false} JoinWord(word: nat, k: nat)
    ensures And(word, Pow2(k) - 1) < Pow2(k)
    ensures word == Scale(Shr(word, k), k) + And(word, Pow2(k) - 1)
    decreases k
  {
    if k > 0 {
      JoinWord(word / 2, k - 1);
      AndOdd(word, Pow2(k - 1) - 1);
    } else {
      assert And(word, 0) == 0;
    }
  }

  lemma AndEven(a: nat, half: nat)
    ensures And(a, 2 * half) == 2 * And(a / 2, half)
  {
    if a > 0 && half > 0 {
      assert (2 * half) / 2 == half && (2 * half) % 2 == 0;
    }
  }

  /** Masking with the single bit `k` asks whether that bit is set. */
  lemma {:induction false} AndBit(a: nat, k: nat)
    ensures And(a, Pow2(k)) == (if Shr(a, k) % 2 == 1 then Pow2(k) else 0)
    decreases k
  {
    if k > 0 {
      AndBit(a / 2, k - 1);
      AndEven(a, Pow2(k - 1));
    } else {
      AndOdd(a, 0);
      assert And(a / 2, 0) == 0;
    }
  }

  /** A shifted word that is still inside 64 bits loses nothing. */
  lemma ShlExact(a: nat, bits: nat, n: nat)
    requires a < Pow2(bits) && bits + n <= 64
    ensures Shl(a, n) == Scale(a, n) < Pow2(bits + n)
  {
    FieldsBelow(a, Pow2(bits), 0, n);
    Pow2Sum(bits, n);
    Pow2Monotone(bits + n, 64);
    Pow2Constants();
  }

  lemma {:induction false} XorParts(a: nat, b: nat)
    ensures Xor(a, b) / 2 == Xor(a / 2, b / 2)
    ensures Xor(a, b) % 2 == (if a % 2 != b % 2 then 1 else 0)
  {
    if a > 0 && b > 0 {
      var half := Xor(a / 2, b / 2);
      assert Xor(a, b) == 2 * half + (if a % 2 != b % 2 then 1 else 0);
    }
  }

  lemma {:induction false} XorAssociates(a: nat, b: nat, c: nat)
    ensures Xor(Xor(a, b), c) == Xor(a, Xor(b, c))
    decreases a + b + c
  {
    if a > 0 && b > 0 && c > 0 {
      XorAssociates(a / 2, b / 2, c / 2);
      XorParts(a, b);
      XorParts(b, c);
      XorParts(Xor(a, b), c);
      XorParts(a, Xor(b, c));
    }
  }

  lemma {:induction false} XorSelf(a: nat)
    ensures Xor(a, a) == 0
  {
    if a > 0 { XorSelf(a / 2); }
  }

  lemma {:induction false} XorBelow(a: nat, b: nat, k: nat)
    requires a < Pow2(k) && b < Pow2(k)
    ensures Xor(a, b) < Pow2(k)
  {
    if k > 0 && a > 0 && b > 0 { XorBelow(a / 2, b / 2, k - 1); }
  }

  lemma {:induction false} ShrBelow(a: nat, n: nat)
    ensures Shr(a, n) <= a
  {
    if n > 0 { ShrBelow(a / 2, n - 1); }
  }

  lemma {:induction false} ShrXor(a: nat, b: nat, n: nat)
    ensures Shr(Xor(a, b), n) == Xor(Shr(a, n), Shr(b, n))
  {
    if n > 0 {
      XorParts(a, b);
      ShrXor(a / 2, b / 2, n - 1);
    }
  }

  lemma {:induction false} ShrShr(a: nat, m: nat, n: nat)
    ensures Shr(Shr(a, m), n) == Shr(a, m + n)
    decreases m
  {
    if m > 0 { ShrShr(a / 2, m - 1, n); }
  }

  /** Shifting out the low bits of a word leaves the rest of its bits. */
  lemma {:induction false} ShrFits(a: nat, bits: nat, n: nat)
    requires a < Pow2(bits + n)
    ensures Shr(a, n) < Pow2(bits)
    decreases n
  {
    if n > 0 { ShrFits(a / 2, bits, n - 1); }
  }

  lemma {:induction false} ShrOut(a: nat, k: nat, n: nat)
    requires a < Pow2(k) && k <= n
    ensures Shr(a, n) == 0
    decreases n
  {
    if n > 0 { ShrOut(a / 2, if k > 0 then k - 1 else 0, n - 1); }
  }
}
