/**
  Retry delays: exponential backoff, exact full-jitter scaling, and the pseudo-random samples that
  concurrent callers draw from one atomic word.
 */
module RetryJitters {
  import opened Prelude
  import opened Bits

  const NANOS_PER_SECOND: nat := 1_000_000_000
  const U128_MAX: nat := 0xffff_ffff_ffff_ffff_ffff_ffff_ffff_ffff
  const WORD: nat := 0x1_0000_0000_0000_0000

  datatype Duration = Duration(seconds: nat, nanos: nat) {
    predicate Valid() {
      seconds <= U64_MAX && nanos < NANOS_PER_SECOND
    }

    function AsNanos(): nat {
      seconds * NANOS_PER_SECOND + nanos
    }
  }

  const DURATION_MAX := Duration(U64_MAX, NANOS_PER_SECOND - 1)

  function Saturate(n: nat): nat {
    Min(n, U128_MAX)
  }

  function DurationFromNanos(nanos: nat): Duration {
    var seconds := nanos / NANOS_PER_SECOND;
    if seconds > U64_MAX then DURATION_MAX else Duration(seconds, nanos % NANOS_PER_SECOND)
  }

  /** Full-jitter scaling, split so that no 128-bit product can be too large. */
  function ScaleDuration(base: Duration, sample: nat): Duration {
    var whole, remainder := base.AsNanos() / U64_MAX, base.AsNanos() % U64_MAX;
    DurationFromNanos(
      Saturate(Saturate(whole * sample) + Saturate(remainder * sample) / U64_MAX))
  }

  lemma SmallMultiple(x: int, d: int)
    requires -d < x * d < d
    ensures x == 0
  {
    assert x >= 1 ==> x * d >= d;
    assert x <= -1 ==> x * d <= -d;
  }

  /** Division with remainder has one answer. */
  lemma DivModUnique(a: nat, q: nat, r: nat, d: nat)
    requires d > 0 && r < d && a == q * d + r
    ensures a / d == q && a % d == r
  {
    var x := a / d - q;
    assert x * d == r - a % d;
    SmallMultiple(x, d);
  }

  lemma SplitProduct(n: nat, sample: nat, d: nat)
    requires d > 0
    ensures (n * sample) / d == (n / d) * sample + ((n % d) * sample) / d
  {
    var r := n % d;
    SplitExactly(n, sample, d, n / d, r, (r * sample) / d, (r * sample) % d);
  }

  lemma SplitExactly(n: nat, s: nat, d: nat, q: nat, r: nat, low: nat, rest: nat)
    requires d > 0 && n == q * d + r && r * s == low * d + rest && rest < d
    ensures (n * s) / d == q * s + low
  {
    Regroup(q, d, r, s);
    Gather(q * s, low, d);
    DivModUnique(n * s, q * s + low, rest, d);
  }

  lemma Regroup(q: nat, d: nat, r: nat, s: nat)
    ensures (q * d + r) * s == (q * s) * d + r * s
  {
  }

  lemma Gather(a: nat, b: nat, d: nat)
    ensures a * d + b * d == (a + b) * d
  {
  }

  lemma ProductMonotone(a: nat, b: nat, c: nat, d: nat)
    requires a <= c && b <= d
    ensures a * b <= c * d
  {
    assert c * d - a * b == (c - a) * d + a * (d - b);
  }

  lemma DivideBound(n: nat, d: nat, k: nat)
    requires d > 0 && n <= k * d
    ensures n / d <= k
  {
    if n / d >= k + 1 { ProductMonotone(k + 1, d, n / d, d); }
  }

  /** A length of time survives the trip through nanoseconds. */
  lemma DurationRoundTrip(nanos: nat)
    requires nanos <= DURATION_MAX.AsNanos()
    ensures DurationFromNanos(nanos).Valid() && DurationFromNanos(nanos).AsNanos() == nanos
  {
  }

  /**
    Full jitter is the exact floor of base * sample / (2^64 - 1): nothing saturates, for any
    duration and any sample. It never exceeds the base, and the two extreme samples give its ends.
   */
  lemma {:induction false} FullJitterIsExact(base: Duration, sample: nat)
    requires base.Valid() && sample <= U64_MAX
    ensures ScaleDuration(base, sample).Valid()
    ensures ScaleDuration(base, sample).AsNanos() == (base.AsNanos() * sample) / U64_MAX
    ensures ScaleDuration(base, sample).AsNanos() <= base.AsNanos()
    ensures sample == 0 ==> ScaleDuration(base, sample).AsNanos() == 0
    ensures sample == U64_MAX ==> ScaleDuration(base, sample).AsNanos() == base.AsNanos()
  {
    var n := base.AsNanos();
    var whole, remainder := n / U64_MAX, n % U64_MAX;
    SplitProduct(n, sample, U64_MAX);
    assert n < 2 * NANOS_PER_SECOND * U64_MAX;
    DivideBound(n, U64_MAX, 2 * NANOS_PER_SECOND);
    ProductMonotone(whole, sample, 2 * NANOS_PER_SECOND, U64_MAX);
    ProductMonotone(remainder, sample, U64_MAX, U64_MAX);
    ProductMonotone(n, sample, n, U64_MAX);
    DivideBound(n * sample, U64_MAX, n);
    DurationRoundTrip((n * sample) / U64_MAX);
    if sample == U64_MAX { DivModUnique(n * sample, n, 0, U64_MAX); }
  }

  // ---------------------------------------------------------------------------------------------
  // Exponential backoff.

  function Multiplier(retry: nat): nat {
    if retry <= U32_MAX && retry < 32 then Pow2(retry) else U32_MAX
  }

  /** Nanoseconds before retry number `retry`. */
  function RetryDelay(initial: nat, retry: nat): nat {
    Min(initial * Multiplier(retry), DURATION_MAX.AsNanos())
  }

  lemma MultiplierMonotone(a: nat, b: nat)
    requires a <= b
    ensures Multiplier(a) <= Multiplier(b)
  {
    Pow2Constants();
    if a < 32 {
      Pow2Monotone(a, if b < 32 then b else 31);
    }
  }

  /** A later retry never waits less. */
  lemma RetryDelayNeverDecreases(initial: nat, a: nat, b: nat)
    requires a <= b
    ensures RetryDelay(initial, a) <= RetryDelay(initial, b)
  {
    MultiplierMonotone(a, b);
    ProductMonotone(initial, Multiplier(a), initial, Multiplier(b));
  }

  /** The first delay is the initial one, and from retry 32 on delays stay equal. */
  lemma RetryDelayEnds(initial: nat, retry: nat)
    ensures RetryDelay(initial, 0) == Min(initial, DURATION_MAX.AsNanos())
    ensures retry >= 32 ==> RetryDelay(initial, retry) == RetryDelay(initial, 32)
  {
    assert Multiplier(0) == 1;
  }

  /**
    The documentation says each retry doubles the delay up to the longest duration. The code's
    multiplier stops at 2^32 - 1, so doubling holds exactly for the first 31 retries, for a zero
    delay, and for delays that saturate anyway.
   */
  lemma {:induction false} DelayDoublesExactlyWhen(initial: nat, retry: nat)
    ensures RetryDelay(initial, retry + 1) == Min(2 * RetryDelay(initial, retry), DURATION_MAX.AsNanos())
      <==> retry < 31 || initial == 0 || initial * Multiplier(retry + 1) >= DURATION_MAX.AsNanos()
  {
    Pow2Constants();
    var longest := DURATION_MAX.AsNanos();
    var now, later := initial * Multiplier(retry), initial * Multiplier(retry + 1);
    if retry < 31 {
      assert Multiplier(retry + 1) == 2 * Multiplier(retry);
      DoubleProduct(initial, Multiplier(retry));
    } else {
      var gap := 2 * Multiplier(retry) - Multiplier(retry + 1);
      assert gap >= 1;
      GapProduct(initial, Multiplier(retry), Multiplier(retry + 1));
    }
  }

  lemma DoubleProduct(a: nat, m: nat)
    ensures a * (2 * m) == 2 * (a * m)
  {
  }

  lemma GapProduct(a: nat, m: nat, m': nat)
    requires m' < 2 * m
    ensures a * m' + a <= 2 * (a * m)
  {
    ProductMonotone(a, m' + 1, a, 2 * m);
    assert a * (m' + 1) == a * m' + a;
    DoubleProduct(a, m);
  }

  /** Doubling does fail: a one-nanosecond delay is one nanosecond short at retry 32. */
  lemma DelayDoesNotAlwaysDouble()
    ensures RetryDelay(1, 32) == 2 * RetryDelay(1, 31) - 1
  {
    Pow2Constants();
  }

  // ---------------------------------------------------------------------------------------------
  // The sample sequence.

  const GAMMA: nat := 0x9e37_79b9_7f4a_7c15
  const GAMMA_INVERSE: nat := 0xf1de_83e1_9937_733d
  const MIX_A: nat := 0xbf58_476d_1ce4_e5b9
  const MIX_A_INVERSE: nat := 0x96de_1b17_3f11_9089
  const MIX_B: nat := 0x94d0_49bb_1331_11eb
  const MIX_B_INVERSE: nat := 0x3196_42b2_d24d_8ec3

  function WrappingMul(a: nat, m: nat): nat {
    (a * m) % WORD
  }

  function XorShift(v: nat, k: nat): nat {
    Xor(v, Shr(v, k))
  }

  function Mix64(v: nat): nat {
    XorShift(MixRound(MixRound(v, 30, MIX_A), 27, MIX_B), 31)
  }

  function MixRound(v: nat, shift: nat, factor: nat): nat {
    WrappingMul(XorShift(v, shift), factor)
  }

  /** Undoes a shift of at least 22 bits in a 64-bit word. */
  function XorUnshift(v: nat, k: nat): nat {
    Xor(v, Xor(Shr(v, k), Shr(v, 2 * k)))
  }

  function Unmix64(v: nat): nat {
    UnmixRound(UnmixRound(XorUnshift(v, 31), 27, MIX_B_INVERSE), 30, MIX_A_INVERSE)
  }

  function UnmixRound(v: nat, shift: nat, inverse: nat): nat {
    XorUnshift(WrappingMul(v, inverse), shift)
  }

  lemma XorShiftBelow(v: nat, k: nat)
    requires v < WORD
    ensures XorShift(v, k) < WORD && XorUnshift(v, k) < WORD
  {
    Pow2Constants();
    ShrBelow(v, k);
    ShrBelow(v, 2 * k);
    XorBelow(v, Shr(v, k), 64);
    XorBelow(Shr(v, k), Shr(v, 2 * k), 64);
    XorBelow(v, Xor(Shr(v, k), Shr(v, 2 * k)), 64);
  }

  /** a ^ b ^ (b ^ c) ^ (c ^ 0) is a. */
  lemma XorTelescopes(a: nat, b: nat, c: nat)
    ensures Xor(Xor(a, b), Xor(Xor(b, c), c)) == a
  {
    XorAssociates(b, c, c);
    XorSelf(c);
    XorAssociates(a, b, b);
    XorSelf(b);
  }

  lemma {:induction false} UnshiftAfterShift(v: nat, k: nat)
    requires v < WORD && 22 <= k
    ensures XorUnshift(XorShift(v, k), k) == v
  {
    Pow2Constants();
    var b, c := Shr(v, k), Shr(v, 2 * k);
    var y := Xor(v, b);
    ShrXor(v, b, k);
    ShrShr(v, k, k);
    ShrXor(v, b, 2 * k);
    ShrShr(v, k, 2 * k);
    ShrOut(v, 64, 3 * k);
    assert Shr(y, k) == Xor(b, c) && Shr(y, 2 * k) == Xor(c, 0) == c;
    XorTelescopes(v, b, c);
  }

  lemma {:induction false} ShiftAfterUnshift(v: nat, k: nat)
    requires v < WORD && 22 <= k
    ensures XorShift(XorUnshift(v, k), k) == v
  {
    Pow2Constants();
    var b, c := Shr(v, k), Shr(v, 2 * k);
    var x := Xor(v, Xor(b, c));
    ShrXor(v, Xor(b, c), k);
    ShrXor(b, c, k);
    ShrShr(v, k, k);
    ShrShr(v, 2 * k, k);
    ShrOut(v, 64, 3 * k);
    assert Shr(x, k) == Xor(b, Xor(c, 0)) == Xor(b, c);
    XorAssociates(v, Xor(b, c), Xor(b, c));
    XorSelf(Xor(b, c));
  }

  /** Wrapping multiplication by a unit is undone by its inverse. */
  lemma MulUndone(a: nat, m: nat, inverse: nat, carry: nat)
    requires a < WORD && m * inverse == carry * WORD + 1
    ensures WrappingMul(WrappingMul(a, m), inverse) == a
  {
    var q, r := (a * m) / WORD, (a * m) % WORD;
    var k := a * carry - q * inverse;
    calc {
      r * inverse;
      (a * m - q * WORD) * inverse;
      { Expand(a, m, q, WORD, inverse); }
      a * (m * inverse) - (q * inverse) * WORD;
      a * (carry * WORD + 1) - (q * inverse) * WORD;
      { Collect(a, carry, WORD, q * inverse); }
      k * WORD + a;
    }
    assert k >= 0;
    DivModUnique(r * inverse, k, a, WORD);
  }

  lemma Expand(a: int, m: int, q: int, w: int, i: int)
    ensures (a * m - q * w) * i == a * (m * i) - (q * i) * w
  {
  }

  lemma Collect(a: int, c: int, w: int, p: int)
    ensures a * (c * w + 1) - p * w == (a * c - p) * w + a
  {
  }

  lemma RoundUndone(v: nat, shift: nat, factor: nat, inverse: nat, carry: nat)
    requires v < WORD && 22 <= shift && factor * inverse == carry * WORD + 1
    ensures MixRound(v, shift, factor) < WORD && UnmixRound(MixRound(v, shift, factor), shift, inverse) == v
    ensures UnmixRound(v, shift, inverse) < WORD && MixRound(UnmixRound(v, shift, inverse), shift, factor) == v
  {
    XorShiftBelow(v, shift);
    MulUndone(XorShift(v, shift), factor, inverse, carry);
    UnshiftAfterShift(v, shift);
    var w := WrappingMul(v, inverse);
    XorShiftBelow(w, shift);
    ShiftAfterUnshift(w, shift);
    MulUndone(v, inverse, factor, carry);
  }

  /** `mix64` has a two-sided inverse on 64-bit words, so it is a bijection. */
  lemma {:induction false} Mix64IsBijective(v: nat)
    requires v < WORD
    ensures Mix64(v) < WORD && Unmix64(Mix64(v)) == v
    ensures Unmix64(v) < WORD && Mix64(Unmix64(v)) == v
  {
    MixThenUnmix(v, 30, 27, 31);
    UnmixThenMix(v, 30, 27, 31);
  }

  lemma RoundA(v: nat, shift: nat)
    requires v < WORD && 22 <= shift
    ensures MixRound(v, shift, MIX_A) < WORD && UnmixRound(MixRound(v, shift, MIX_A), shift, MIX_A_INVERSE) == v
    ensures UnmixRound(v, shift, MIX_A_INVERSE) < WORD
    ensures MixRound(UnmixRound(v, shift, MIX_A_INVERSE), shift, MIX_A) == v
  {
    Units();
    RoundUndone(v, shift, MIX_A, MIX_A_INVERSE, CARRY_A);
  }

  lemma RoundB(v: nat, shift: nat)
    requires v < WORD && 22 <= shift
    ensures MixRound(v, shift, MIX_B) < WORD && UnmixRound(MixRound(v, shift, MIX_B), shift, MIX_B_INVERSE) == v
    ensures UnmixRound(v, shift, MIX_B_INVERSE) < WORD
    ensures MixRound(UnmixRound(v, shift, MIX_B_INVERSE), shift, MIX_B) == v
  {
    Units();
    RoundUndone(v, shift, MIX_B, MIX_B_INVERSE, CARRY_B);
  }

  lemma {:induction false} MixThenUnmix(v: nat, a: nat, b: nat, c: nat)
    requires v < WORD && 22 <= a && 22 <= b && 22 <= c
    ensures var m := XorShift(MixRound(MixRound(v, a, MIX_A), b, MIX_B), c);
      m < WORD && UnmixRound(UnmixRound(XorUnshift(m, c), b, MIX_B_INVERSE), a, MIX_A_INVERSE) == v
  {
    RoundA(v, a);
    var r1 := MixRound(v, a, MIX_A);
    RoundB(r1, b);
    var r2 := MixRound(r1, b, MIX_B);
    XorShiftBelow(r2, c);
    UnshiftAfterShift(r2, c);
  }

  lemma {:induction false} UnmixThenMix(v: nat, a: nat, b: nat, c: nat)
    requires v < WORD && 22 <= a && 22 <= b && 22 <= c
    ensures var u := UnmixRound(UnmixRound(XorUnshift(v, c), b, MIX_B_INVERSE), a, MIX_A_INVERSE);
      u < WORD && XorShift(MixRound(MixRound(u, a, MIX_A), b, MIX_B), c) == v
  {
    XorShiftBelow(v, c);
    ShiftAfterUnshift(v, c);
    var r1 := XorUnshift(v, c);
    RoundB(r1, b);
    RoundA(UnmixRound(r1, b, MIX_B_INVERSE), a);
  }

  /** The multipliers are odd, so each has an inverse modulo 2^64. */
  lemma Units()
    ensures MIX_A * MIX_A_INVERSE == CARRY_A * WORD + 1
    ensures MIX_B * MIX_B_INVERSE == CARRY_B * WORD + 1
    ensures GAMMA * GAMMA_INVERSE == CARRY_GAMMA * WORD + 1
  {
  }

  const CARRY_A: nat := (MIX_A * MIX_A_INVERSE) / WORD
  const CARRY_B: nat := (MIX_B * MIX_B_INVERSE) / WORD
  const CARRY_GAMMA: nat := (GAMMA * GAMMA_INVERSE) / WORD

  /** The word after `draws` successful swaps. */
  function WordAfter(seed: nat, draws: nat): nat {
    (seed + draws * GAMMA) % WORD
  }

  function Sample(seed: nat, draw: nat): nat {
    Mix64(WordAfter(seed, draw))
  }

  lemma WordAfterMore(seed: nat, draws: nat, more: nat)
    ensures (WordAfter(seed, draws) + more * GAMMA) % WORD == WordAfter(seed, draws + more)
  {
    Gather(draws, more, GAMMA);
    AddToRemainder(seed + draws * GAMMA, more * GAMMA, WORD);
  }

  lemma AddToRemainder(total: nat, extra: nat, d: nat)
    requires d > 0
    ensures (total % d + extra) % d == (total + extra) % d
  {
    var q, r := total / d, total % d;
    var q', r' := (r + extra) / d, (r + extra) % d;
    Gather(q, q', d);
    DivModUnique(total + extra, q + q', r', d);
  }

  /** The increment is odd, so the word comes back only after 2^64 draws. */
  lemma {:induction false} WordsRepeatOnlyAfterFullCycle(seed: nat, i: nat, j: nat)
    requires i < j < i + WORD
    ensures WordAfter(seed, i) != WordAfter(seed, j)
  {
    WordAfterMore(seed, i, j - i);
    StepIsNotZero(j - i);
    NonzeroMoves(WordAfter(seed, i), (j - i) * GAMMA, WORD);
  }

  lemma StepIsNotZero(n: nat)
    requires 0 < n < WORD
    ensures (n * GAMMA) % WORD != 0
  {
    Units();
    MulUndone(n, GAMMA, GAMMA_INVERSE, CARRY_GAMMA);
  }

  lemma NonzeroMoves(a: nat, extra: nat, d: nat)
    requires a < d && extra % d != 0
    ensures (a + extra) % d != a
  {
    if (a + extra) % d == a {
      var q := (a + extra) / d;
      assert extra == q * d + 0;
      DivModUnique(extra, q, 0, d);
      assert false;
    }
  }

  /** No sample repeats within 2^64 draws. */
  lemma {:induction false} SamplesAreDistinct(seed: nat, i: nat, j: nat)
    requires i < j < i + WORD
    ensures Sample(seed, i) != Sample(seed, j)
  {
    WordsRepeatOnlyAfterFullCycle(seed, i, j);
    Mix64IsBijective(WordAfter(seed, i));
    Mix64IsBijective(WordAfter(seed, j));
  }

  // ---------------------------------------------------------------------------------------------
  // Concurrent callers.

  datatype Sampler = Sampler(word: nat, seen: map<nat, nat>, samples: seq<nat>)

  datatype DrawStep = LoadWord(caller: nat) | WeakSwap(caller: nat, spurious: bool)

  /** One atomic step: the load, or a weak swap that may also fail for no reason. */
  function NextDraw(s: Sampler, step: DrawStep): Sampler {
    match step
    case LoadWord(c) => s.(seen := s.seen[c := s.word])
    case WeakSwap(c, spurious) =>
      if c !in s.seen then s
      else if s.word == s.seen[c] && !spurious then
        var next := (s.seen[c] + GAMMA) % WORD;
        Sampler(next, s.seen - {c}, s.samples + [Mix64(next)])
      else s.(seen := s.seen[c := s.word])
  }

  function RunDraws(s: Sampler, steps: seq<DrawStep>): Sampler
    decreases |steps|
  {
    if steps == [] then s else RunDraws(NextDraw(s, steps[0]), steps[1..])
  }

  ghost predicate SamplerOk(seed: nat, s: Sampler) {
    && s.word == WordAfter(seed, |s.samples|)
    && forall i :: 0 <= i < |s.samples| ==> s.samples[i] == Sample(seed, i + 1)
  }

  lemma {:induction false} DrawsFollowSequence(seed: nat, s: Sampler, steps: seq<DrawStep>)
    requires SamplerOk(seed, s)
    ensures SamplerOk(seed, RunDraws(s, steps))
    decreases |steps|
  {
    if steps != [] {
      WordAfterMore(seed, |s.samples|, 1);
      DrawsFollowSequence(seed, NextDraw(s, steps[0]), steps[1..]);
    }
  }

  /** A load and a swap that nobody interrupts draw the next sample, also after a lost or a spuriously failed swap. */
  lemma {:induction false} DrawAlone(seed: nat, s: Sampler, c: nat)
    requires SamplerOk(seed, s)
    ensures var loaded := NextDraw(s, LoadWord(c));
      var failed := NextDraw(loaded, WeakSwap(c, true));
      var sample := Sample(seed, |s.samples| + 1);
      && failed.samples == s.samples && failed.word == s.word
      && NextDraw(loaded, WeakSwap(c, false)).samples == s.samples + [sample]
      && NextDraw(failed, WeakSwap(c, false)).samples == s.samples + [sample]
      && (c in s.seen && s.seen[c] != s.word ==>
            NextDraw(NextDraw(s, WeakSwap(c, false)), WeakSwap(c, false)).samples == s.samples + [sample])
  {
    WordAfterMore(seed, |s.samples|, 1);
  }

  /**
    However many callers race, the k-th successful swap yields the k-th sample of the seed's
    sequence, and the first 2^64 samples are pairwise different.
   */
  lemma {:induction false} ConcurrentSamplesNeverRepeat(seed: nat, steps: seq<DrawStep>, i: nat, j: nat)
    requires seed < WORD
    requires i < j < |RunDraws(Sampler(seed, map[], []), steps).samples| && j < i + WORD
    ensures RunDraws(Sampler(seed, map[], []), steps).samples[i] == Sample(seed, i + 1)
    ensures RunDraws(Sampler(seed, map[], []), steps).samples[i]
         != RunDraws(Sampler(seed, map[], []), steps).samples[j]
  {
    assert WordAfter(seed, 0) == seed;
    DrawsFollowSequence(seed, Sampler(seed, map[], []), steps);
    SamplesAreDistinct(seed, i + 1, j + 1);
  }

  /**
    The sampler object: `next_sample` while other callers draw between its two accesses. `takers`
    records who made each successful swap.
   */
  class RetryJitterState {
    var state: nat
    const seed: nat
    ghost var takers: seq<nat>

    ghost predicate Valid()
      reads this
    {
      state == WordAfter(seed, |takers|)
    }

    constructor (seed: nat)
      requires seed < WORD
      ensures Valid() && this.seed == seed && takers == []
    {
      this.seed, state, takers := seed, seed, [];
      new;
      assert WordAfter(seed, 0) == seed;
    }

    /** Any number of draws by callers other than `me`. */
    method OthersDraw(ghost me: nat)
      requires Valid()
      modifies this
      ensures Valid() && old(takers) <= takers
      ensures forall k :: |old(takers)| <= k < |takers| ==> takers[k] != me
    {
      var more: nat :| 0 <= more;
      WordAfterMore(seed, |takers|, more);
      assert |seq(more, _ => me + 1)| == more;
      ghost var others: seq<nat> :| |others| == more && forall k :: 0 <= k < more ==> others[k] != me;
      state, takers := (state + more * GAMMA) % WORD, takers + others;
    }

    /** Draws one sample, at an index of the sequence that nobody else draws; the call draws no other. */
    method NextSample(ghost me: nat, tries: nat) returns (r: Option<nat>, ghost draw: nat)
      requires Valid()
      modifies this
      ensures Valid() && old(takers) <= takers
      ensures r.Some? ==> |old(takers)| < draw <= |takers| && r.value == Sample(seed, draw)
      ensures forall k :: |old(takers)| <= k < |takers| ==> (takers[k] == me <==> r.Some? && k + 1 == draw)
    {
      var current := state;
      draw := 0;
      ghost var seenAt := |takers|;
      for attempt := 0 to tries
        invariant Valid() && old(takers) <= takers
        invariant |old(takers)| <= seenAt <= |takers| && current == WordAfter(seed, seenAt)
        invariant forall k :: |old(takers)| <= k < |takers| ==> takers[k] != me
      {
        OthersDraw(me);
        var next := (current + GAMMA) % WORD;
        var spurious: bool := *;
        if state == current && !spurious {
          WordAfterMore(seed, |takers|, 1);
          state, takers := next, takers + [me];
          draw := |takers|;
          OthersDraw(me);
          return Some(Mix64(next)), draw;
        }
        current, seenAt := state, |takers|;
      }
      return None, draw;
    }
  }
}
