/**
 * Random: the low-discrepancy sequences and the stratified and
 * quasi-random samplers. Words the C++ code keeps in uint32_t and combines
 * bitwise are bv32 here; indices and counters that never wrap are nat.
 * Floats are reals, so every sample is exact. The hidden global generator
 * is replaced by the values it would return: uniform draws are
 * parameters, and a shuffle is the list of swaps it performs.
 */
module Random {
  import opened Series
  /** A two-component sample, as glm::vec2. */
  datatype Vec2 = Vec2(x: real, y: real)

  /** The sample lies in the unit square [0, 1)^2. */
  predicate InUnitSquare(p: Vec2)
  {
    0.0 <= p.x < 1.0 && 0.0 <= p.y < 1.0
  }

  // ---------------------------------------------------------------------------
  // Halton: the radical inverse

  /** The number of base-`base` digits of i (none for 0). */
  function Digits(i: nat, base: nat): nat
    requires base >= 2
  {
    if i == 0 then 0 else 1 + Digits(i / base, base)
  }

  /**
   * The radical inverse of i in base `base`: the digits of i mirrored
   * behind the radix point, 0.d0 d1 d2 ... for i = ... d2 d1 d0. It lies in
   * [0, 1).
   */
  function RadicalInverse(i: nat, base: nat): (r: real)
    requires base >= 2
    ensures 0.0 <= r < 1.0
  {
    if i == 0 then 0.0
    else
      var d, rest := i % base, RadicalInverse(i / base, base);
      DigitShare(d, rest, base);
      (d as real + rest) / base as real
  }

  lemma DigitShare(d: nat, rest: real, base: nat)
    requires base >= 2 && d < base && 0.0 <= rest < 1.0
    ensures 0.0 <= (d as real + rest) / base as real < 1.0
  {
    assert d as real + rest < base as real;
  }

  /** The radical inverse of what is left of a signed index: nothing once it is not positive. */
  function Rest(j: int, base: nat): (r: real)
    requires base >= 2
    ensures 0.0 <= r < 1.0
    ensures j <= 0 ==> r == 0.0
  {
    if j > 0 then RadicalInverse(j, base) else 0.0
  }

  lemma Distribute(f: real, b: real, d: real, rest: real)
    requires b > 0.0
    ensures f * (d + rest) == f * d + (f / b) * (b * rest)
  {
    assert (f / b) * (b * rest) == ((f / b) * b) * rest;
    Cancel(f, b);
  }

  lemma ZeroTail(result: real, f: real, b: real, total: real)
    requires result + f * (b * 0.0) == total
    ensures result == total
  {
  }

  lemma Shrinks(j: nat, base: nat)
    requires base >= 2 && j > 0
    ensures j / base < j
  {
  }

  /**
   * One round of the halton loop keeps `result + f * base * Rest(j)` at the
   * radical inverse of the starting index: the digit taken off j moves into
   * the result with weight f.
   */
  lemma HaltonStep(result: real, f: real, j: nat, base: nat, total: real, result': real, f': real, j': int)
    requires base >= 2 && j > 0
    requires result + f * (base as real * Rest(j, base)) == total
    requires result' == result + f * (j % base) as real && f' == f / base as real && j' == j / base
    ensures result' + f' * (base as real * Rest(j', base)) == total
  {
    var b, d, rest := base as real, (j % base) as real, Rest(j / base, base);
    calc {
      total;
      result + f * (b * Rest(j, base));
      { assert Rest(j, base) == (d + rest) / b; }
      result + f * (b * ((d + rest) / b));
      { Cancel(d + rest, b); }
      result + f * (d + rest);
      { Distribute(f, b, d, rest); }
      result' + f' * (b * rest);
    }
  }

  /**
   * halton(i, base): the radical inverse of i, 0 for i <= 0; the loop runs
   * once per digit of i. A base below 2 would divide by zero or never end.
   */
  method Halton(i: int, base: nat) returns (result: real, ghost rounds: nat)
    requires 2 <= base < 0x1_0000_0000
    ensures result == Rest(i, base)
    ensures rounds == if i <= 0 then 0 else Digits(i, base)
  {
    result := 0.0;
    var f := 1.0 / base as real;
    var j := i;
    rounds := 0;
    ghost var count := if i <= 0 then 0 else Digits(i, base);
    Cancel(1.0, base as real);
    while j > 0
      invariant result + f * (base as real * Rest(j, base)) == Rest(i, base)
      invariant rounds + (if j <= 0 then 0 else Digits(j, base)) == count
      decreases j
    {
      Shrinks(j, base);
      ghost var result0, f0, j0 := result, f, j;
      result := result + f * (j % base) as real;
      j := j / base;
      f := f / base as real;
      rounds := rounds + 1;
      HaltonStep(result0, f0, j0, base, Rest(i, base), result, f, j);
    }
    ZeroTail(result, f, base as real, Rest(i, base));
  }

  // ---------------------------------------------------------------------------
  // Van der Corput and Sobol: 24-bit fractions of a scrambled word

  /** Bit k of a word. */
  predicate Bit(w: bv32, k: bv32)
    requires k < 32
  {
    (w >> k) & 1 == 1
  }

  /** The five swap steps of vandercorput: bit k of the result is bit 31 - k of w. */
  function ReverseBits(w: bv32): (r: bv32)
    ensures forall k: bv32 :: k < 32 ==> Bit(r, k) == Bit(w, 31 - k)
  {
    var a := (w << 16) | (w >> 16);
    var b := ((a & 0x00ff00ff) << 8) | ((a & 0xff00ff00) >> 8);
    var c := ((b & 0x0f0f0f0f) << 4) | ((b & 0xf0f0f0f0) >> 4);
    var d := ((c & 0x33333333) << 2) | ((c & 0xcccccccc) >> 2);
    ((d & 0x55555555) << 1) | ((d & 0xaaaaaaaa) >> 1)
  }

  /** Reversing twice gives the word back. */
  lemma ReverseTwice(w: bv32)
    ensures ReverseBits(ReverseBits(w)) == w
  {
  }

  /**
   * ((w >> 8) & 0xffffff) / 2^24: the top 24 bits of w as a fraction k / 2^24
   * with 0 <= k < 2^24, which lies in [0, 1).
   */
  function Unit24(w: bv32): (r: real)
    ensures 0.0 <= r < 1.0
    ensures r * 16777216.0 == ((w as int / 256) % 0x100_0000) as real
  {
    ((w as int / 256) % 0x100_0000) as real / 16777216.0
  }

  /** vandercorput(i, scramble): the bit-reversed index, scrambled by xor. */
  function VanDerCorput(i: bv32, scramble: bv32): (r: real)
    ensures 0.0 <= r < 1.0
    ensures r == Unit24(ReverseBits(i) ^ scramble)
  {
    Unit24(ReverseBits(i) ^ scramble)
  }

  /** The direction word v contributes when the low bit of i is set. */
  function Flip(i: nat, v: bv32): bv32
  {
    if i % 2 == 1 then v else 0
  }

  /**
   * The xor of the Sobol direction words selected by the bits of i: bit k
   * selects the direction word reached from v after k steps of
   * `v ^= v >> 1`.
   */
  function Mix(i: nat, v: bv32): bv32
  {
    if i == 0 then 0 else Flip(i, v) ^ Mix(i / 2, v ^ (v >> 1))
  }

  lemma Regroup(s: bv32, t: bv32, m: bv32)
    ensures (s ^ t) ^ m == s ^ (t ^ m)
  {
  }

  lemma XorZero(s: bv32, z: bv32)
    requires z == 0
    ensures s ^ z == s
  {
  }

  lemma FlipCases(i: nat, v: bv32, t: bv32, s: bv32)
    requires if i % 2 == 1 then s == t ^ v else s == t
    ensures s == t ^ Flip(i, v)
  {
    if i % 2 == 1 {
      assert Flip(i, v) == v;
    } else {
      XorZero(t, Flip(i, v));
    }
  }

  lemma MixStep(i: nat, v: bv32, s: bv32, t: bv32)
    requires i != 0 && t == s ^ Flip(i, v)
    ensures t ^ Mix(i / 2, v ^ (v >> 1)) == s ^ Mix(i, v)
  {
    Regroup(s, Flip(i, v), Mix(i / 2, v ^ (v >> 1)));
  }

  /** One round of the sobol2 loop: xor in v when the low bit of i is set. */
  method SobolRound(i: nat, v: bv32, s: bv32) returns (s': bv32)
    requires i != 0
    ensures s' ^ Mix(i / 2, v ^ (v >> 1)) == s ^ Mix(i, v)
  {
    s' := s;
    if i % 2 == 1 {
      s' := s ^ v;
    }
    FlipCases(i, v, s, s');
    MixStep(i, v, s, s');
  }

  function Pow2(k: nat): nat
  {
    if k == 0 then 1 else 2 * Pow2(k - 1)
  }

  lemma {:induction false} Pow2Add(a: nat, b: nat)
    ensures Pow2(a + b) == Pow2(a) * Pow2(b)
  {
    if a > 0 {
      Pow2Add(a - 1, b);
    }
  }

  lemma Pow2Word()
    ensures Pow2(32) == 0x1_0000_0000
  {
    assert Pow2(8) == 256;
    Pow2Add(8, 8);
    Pow2Add(16, 16);
  }

  /** An index below 2^k has at most k binary digits. */
  lemma {:induction false} DigitsBelow(i: nat, k: nat)
    requires i < Pow2(k)
    ensures Digits(i, 2) <= k
  {
    if i != 0 {
      assert k > 0 && i / 2 < Pow2(k - 1);
      DigitsBelow(i / 2, k - 1);
    }
  }

  /** The value sobol2 returns: the scramble xor the selected direction words, as a 24-bit fraction. */
  function SobolValue(i: bv32, scramble: bv32): (r: real)
    ensures 0.0 <= r < 1.0
  {
    Unit24(scramble ^ Mix(i as int, 0x8000_0000))
  }

  /**
   * sobol2(i, scramble). The index is shifted right once per round, so the
   * loop runs once per binary digit of i, at most 32 times.
   */
  method Sobol2(i: bv32, scramble: bv32) returns (r: real, ghost rounds: nat)
    ensures r == SobolValue(i, scramble)
    ensures rounds == Digits(i as int, 2) && rounds <= 32
  {
    var s;
    s, rounds := SobolScramble(i as int, scramble);
    r := Unit24(s);
    Pow2Word();
    DigitsBelow(i as int, 32);
  }

  /** The loop of sobol2: xor in the direction word of every set bit of i. */
  method SobolScramble(i: nat, scramble: bv32) returns (s: bv32, ghost rounds: nat)
    ensures s == scramble ^ Mix(i, 0x8000_0000)
    ensures rounds == Digits(i, 2)
  {
    var j: nat, v: bv32 := i, 0x8000_0000;
    s := scramble;
    rounds := 0;
    while j != 0
      invariant s ^ Mix(j, v) == scramble ^ Mix(i, 0x8000_0000)
      invariant rounds + Digits(j, 2) == Digits(i, 2)
      decreases j
    {
      s := SobolRound(j, v, s);
      j, v, rounds := j / 2, v ^ (v >> 1), rounds + 1;
    }
    XorZero(s, Mix(j, v));
  }

  /** hammersley(i, n, scramble): i / n beside the scrambled Van der Corput value. */
  function Hammersley(i: bv32, n: nat, scramble: bv32): (p: Vec2)
    requires n > 0
    ensures p.x == Ratio(i as int, n) && p.y == VanDerCorput(i, scramble)
    ensures (i as int) < n ==> InUnitSquare(p)
  {
    Vec2(Ratio(i as int, n), VanDerCorput(i, scramble))
  }

  /** k / n: multiplied by n it gives k back, and it lies in [0, 1) when k < n. */
  function Ratio(k: nat, n: nat): (r: real)
    requires n > 0
    ensures r * n as real == k as real
    ensures k < n ==> 0.0 <= r < 1.0
  {
    Fraction(k, n);
    k as real / n as real
  }

  lemma Fraction(k: nat, n: nat)
    requires n > 0
    ensures (k as real / n as real) * n as real == k as real
    ensures k < n ==> 0.0 <= k as real / n as real < 1.0
  {
    Cancel(k as real, n as real);
    DivLe(0.0, k as real, n as real);
    if k < n {
      DivLt(k as real, n as real, n as real);
    }
  }

  /** sample02(i, scramble): Van der Corput and Sobol with one scramble word each. */
  function Sample02(i: bv32, scramble0: bv32, scramble1: bv32): (p: Vec2)
    ensures InUnitSquare(p)
    ensures p == Vec2(VanDerCorput(i, scramble0), SobolValue(i, scramble1))
  {
    Vec2(VanDerCorput(i, scramble0), SobolValue(i, scramble1))
  }

  // ---------------------------------------------------------------------------
  // Shuffling and the stratified samplers

  /** The indices 0 .. n-1 in order, as the strata are filled. */
  function Identity(n: nat): (s: seq<nat>)
    ensures |s| == n && forall k :: 0 <= k < n ==> s[k] == k
  {
    seq(n, k => k)
  }

  /** The swaps of a shuffle all address elements of `s`. */
  predicate SwapsIn<T>(s: seq<T>, swaps: seq<(nat, nat)>)
  {
    forall k :: 0 <= k < |swaps| ==> swaps[k].0 < |s| && swaps[k].1 < |s|
  }

  /**
   * RNG::shuffle as the swaps it performs, first to last. The result is a
   * permutation of `s`.
   */
  function Shuffled<T>(s: seq<T>, swaps: seq<(nat, nat)>): (r: seq<T>)
    requires SwapsIn(s, swaps)
    ensures |r| == |s| && multiset(r) == multiset(s)
    decreases |swaps|
  {
    if |swaps| == 0 then s
    else
      var (a, b) := swaps[0];
      var t := s[a := s[b]][b := s[a]];
      assert SwapsIn(t, swaps[1..]);
      Shuffled(t, swaps[1..])
  }

  /** Every element of a permutation of 0 .. n-1 is a valid index below n. */
  lemma PermutationBounded(s: seq<nat>, n: nat, k: nat)
    requires multiset(s) == multiset(Identity(n)) && k < |s|
    ensures s[k] < n
  {
    assert s[k] in multiset(s);
    assert s[k] in Identity(n);
  }

  /** StratifiedSampler1D: N shuffled strata, each drawn once before the cycle starts over. */
  class StratifiedSampler1D {
    var n: nat
    var i: nat
    var strata: seq<nat>

    /** The strata are a permutation of 0 .. n-1 and the cursor is at most n. */
    ghost predicate Valid()
      reads this
    {
      i <= n && |strata| == n && multiset(strata) == multiset(Identity(n))
    }

    constructor ()
      ensures Valid() && n == 0
    {
      n, i, strata := 0, 0, [];
    }

    /** init(N): fill the strata 0 .. N-1, then shuffle them with `swaps`. */
    method Init(count: nat, swaps: seq<(nat, nat)>)
      requires SwapsIn(Identity(count), swaps)
      modifies this
      ensures Valid() && n == count && i == 0
      ensures strata == Shuffled(Identity(count), swaps)
    {
      n, i := count, 0;
      var fill: seq<nat> := seq(count, _ => 0);
      for k := 0 to count
        invariant |fill| == count && forall m :: 0 <= m < k ==> fill[m] == m
      {
        fill := fill[k := k];
      }
      assert fill == Identity(count);
      strata := Shuffled(fill, swaps);
    }

    /**
     * next() with `u` the uniform draw: wrap to the first stratum once all
     * n are used, take the stratum under the cursor and jitter within it.
     */
    method Next(u: real) returns (sample: real)
      requires Valid() && n > 0
      modifies this
      ensures Valid() && n == old(n) && strata == old(strata)
      ensures old(i) < n ==> i == old(i) + 1 && sample == (strata[old(i)] as real + u) / n as real
      ensures old(i) >= n ==> i == 1 && sample == (strata[0] as real + u) / n as real
      ensures 0.0 <= u < 1.0 ==> 0.0 <= sample < 1.0
      ensures 0.0 <= u < 1.0 ==> (strata[i - 1] as real) / n as real <= sample < (strata[i - 1] + 1) as real / n as real
    {
      if i >= n {
        i := 0;
      }
      var stratum := strata[i];
      PermutationBounded(strata, n, i);
      i := i + 1;
      sample := (stratum as real + u) / n as real;
      if 0.0 <= u < 1.0 {
        Jitter(stratum, n, u);
      }
    }
  }

  /** A jittered stratum s of n lies in [s/n, (s+1)/n), within [0, 1). */
  lemma Jitter(s: nat, n: nat, u: real)
    requires s < n && 0.0 <= u < 1.0
    ensures s as real / n as real <= (s as real + u) / n as real < (s + 1) as real / n as real
    ensures 0.0 <= (s as real + u) / n as real < 1.0
  {
    var m := n as real;
    DivLe(s as real, s as real + u, m);
    DivLt(s as real + u, (s + 1) as real, m);
    DivLe((s + 1) as real, m, m);
    DivLe(0.0, s as real, m);
  }

  /** floor(sqrt(N)) as uint32(std::sqrt(N)) computes it: the largest r with r * r <= N. */
  function FloorSqrt(count: nat): (r: nat)
    ensures r * r <= count < (r + 1) * (r + 1)
  {
    if count == 0 then 0
    else
      var q := FloorSqrt(count - 1);
      if (q + 1) * (q + 1) <= count then q + 1 else q
  }

  /** A stratum below n * n lies in column s mod n and row s div n of the n x n grid. */
  lemma Cell(s: nat, n: nat)
    requires 0 < n && s < n * n
    ensures s % n < n && s / n < n
  {
  }

  lemma JitterCell(x: nat, y: nat, n: nat, u: Vec2)
    requires x < n && y < n
    ensures InUnitSquare(u) ==> InUnitSquare(Vec2((x as real + u.x) / n as real, (y as real + u.y) / n as real))
    ensures InUnitSquare(u) ==> x as real / n as real <= (x as real + u.x) / n as real < (x + 1) as real / n as real
    ensures InUnitSquare(u) ==> y as real / n as real <= (y as real + u.y) / n as real < (y + 1) as real / n as real
  {
    if InUnitSquare(u) {
      Jitter(x, n, u.x);
      Jitter(y, n, u.y);
    }
  }

  /** The jittered sample in cell (s mod n, s div n) of the n x n grid. */
  function GridSample(s: nat, n: nat, u: Vec2): (p: Vec2)
    requires 0 < n && s < n * n
    ensures InUnitSquare(u) ==> InUnitSquare(p)
    ensures InUnitSquare(u) ==> (s % n) as real / n as real <= p.x < (s % n + 1) as real / n as real
    ensures InUnitSquare(u) ==> (s / n) as real / n as real <= p.y < (s / n + 1) as real / n as real
  {
    Cell(s, n);
    var x, y := s % n, s / n;
    JitterCell(x, y, n, u);
    Vec2((x as real + u.x) / n as real, (y as real + u.y) / n as real)
  }

  /** StratifiedSampler2D: an n x n grid with n = floor(sqrt(N)), its cells drawn in order. */
  class StratifiedSampler2D {
    var n: nat
    var total: nat
    var i: nat
    var strata: seq<nat>

    /** total is n * n, within the N strata, which are 0 .. N-1 in order; the cursor is at most total. */
    ghost predicate Valid()
      reads this
    {
      total == n * n && n == FloorSqrt(|strata|) && i <= total && strata == Identity(|strata|)
    }

    constructor ()
      ensures Valid() && n == 0 && total == 0 && i == 0
    {
      n, total, i, strata := 0, 0, 0, [];
    }

    /** init(N): n = floor(sqrt(N)), total = n * n, strata 0 .. N-1 (not shuffled), cursor 0. */
    method Init(count: nat)
      modifies this
      ensures Valid() && n == FloorSqrt(count) && total == n * n && i == 0 && |strata| == count
    {
      n := FloorSqrt(count);
      total := n * n;
      i := 0;
      var fill: seq<nat> := seq(count, _ => 0);
      for k := 0 to count
        invariant |fill| == count && forall m :: 0 <= m < k ==> fill[m] == m
      {
        fill := fill[k := k];
      }
      strata := fill;
    }

    /**
     * next() with `u` the uniform draw: wrap once all n * n cells are used,
     * take the cell under the cursor, (s mod n, s div n), and jitter in it.
     */
    method Next(u: Vec2) returns (sample: Vec2)
      requires Valid() && n > 0
      modifies this
      ensures Valid() && n == old(n) && total == old(total) && strata == old(strata)
      ensures i == (if old(i) < total then old(i) else 0) + 1
      ensures sample == GridSample(i - 1, n, u)
    {
      if i >= total {
        i := 0;
      }
      var stratum := strata[i];
      i := i + 1;
      sample := GridSample(stratum, n, u);
    }
  }

  // ---------------------------------------------------------------------------
  // Quasi-random samplers: a uint32 cursor that wraps

  /**
   * The int the uint32 cursor becomes when passed to halton(int, ...): two's
   * complement, the one 32-bit int congruent to the cursor modulo 2^32.
   */
  function SignedIndex(i: bv32): (r: int)
    ensures -0x8000_0000 <= r < 0x8000_0000
    ensures r % 0x1_0000_0000 == i as int
    ensures i as int < 0x8000_0000 ==> r == i as int
    ensures i as int >= 0x8000_0000 ==> r < 0
  {
    TwosComplement(i as int)
  }

  /** The 32-bit two's complement reading of an unsigned 32-bit value k. */
  function TwosComplement(k: int): (r: int)
    requires 0 <= k < 0x1_0000_0000
    ensures -0x8000_0000 <= r < 0x8000_0000 && r % 0x1_0000_0000 == k
    ensures k < 0x8000_0000 ==> r == k
    ensures k >= 0x8000_0000 ==> r < 0
  {
    if k < 0x8000_0000 then k else k - 0x1_0000_0000
  }

  /** The Halton point of index i: bases 2 and 3. */
  function HaltonPoint(i: bv32): (p: Vec2)
    ensures InUnitSquare(p)
  {
    Vec2(Rest(SignedIndex(i), 2), Rest(SignedIndex(i), 3))
  }

  /** HaltonSampler2D: the Halton points 0, 1, 2, ... */
  class HaltonSampler2D {
    var i: bv32

    constructor ()
      ensures i == 0
    {
      i := 0;
    }

    /** init(N): start over at index 0. */
    method Init(count: nat)
      modifies this
      ensures i == 0
    {
      i := 0;
    }

    /** next(): the Halton point of the cursor, which then advances by one (mod 2^32). */
    method Next() returns (sample: Vec2)
      modifies this
      ensures sample == HaltonPoint(old(i)) && i == old(i) + 1
      ensures InUnitSquare(sample)
    {
      var x, y;
      ghost var rounds;
      x, rounds := Halton(SignedIndex(i), 2);
      y, rounds := Halton(SignedIndex(i), 3);
      sample := Vec2(x, y);
      i := i + 1;
    }
  }

  /** HammersleySampler2D: the Hammersley set of n points under one scramble word. */
  class HammersleySampler2D {
    var n: nat
    var i: bv32
    var scramble: bv32

    constructor ()
      ensures n == 0 && i == 0 && scramble == 0
    {
      n, i, scramble := 0, 0, 0;
    }

    /** init(N) with `seed` = RNG::uniform<uint32_t>(). */
    method Init(count: nat, seed: bv32)
      modifies this
      ensures n == count && i == 0 && scramble == seed
    {
      n, i, scramble := count, 0, seed;
    }

    /** next(): the Hammersley point of the cursor, which then advances by one (mod 2^32). */
    method Next() returns (sample: Vec2)
      requires n > 0
      modifies this
      ensures n == old(n) && scramble == old(scramble) && i == old(i) + 1
      ensures sample == Hammersley(old(i), n, scramble)
      ensures (old(i) as int) < n ==> InUnitSquare(sample)
    {
      sample := Hammersley(i, n, scramble);
      i := i + 1;
    }
  }

  /** LDSampler2D: the (0,2) sequence under two scramble words. */
  class LDSampler2D {
    var i: bv32
    var scramble0: bv32
    var scramble1: bv32

    constructor ()
      ensures i == 0 && scramble0 == 0 && scramble1 == 0
    {
      i, scramble0, scramble1 := 0, 0, 0;
    }

    /** init(N) with the two RNG::uniform<uint32_t>() seeds. */
    method Init(count: nat, seed0: bv32, seed1: bv32)
      modifies this
      ensures i == 0 && scramble0 == seed0 && scramble1 == seed1
    {
      i, scramble0, scramble1 := 0, seed0, seed1;
    }

    /** next(): sample02 of the cursor, which then advances by one (mod 2^32). */
    method Next() returns (sample: Vec2)
      modifies this
      ensures scramble0 == old(scramble0) && scramble1 == old(scramble1) && i == old(i) + 1
      ensures sample == Sample02(old(i), scramble0, scramble1)
      ensures InUnitSquare(sample)
    {
      sample := Sample02(i, scramble0, scramble1);
      i := i + 1;
    }
  }

  /**
   * ShuffleSampler: N samples drawn up front and shuffled. `draw(k)` is the
   * k-th next() of a freshly initialised sampler, and `swaps` the shuffle.
   */
  class ShuffleSampler<T(==)> {
    var samples: seq<T>
    ghost var drawn: seq<T>

    /** The samples are a permutation of those drawn. */
    ghost predicate Valid()
      reads this
    {
      multiset(samples) == multiset(drawn)
    }

    constructor (count: nat, draw: nat -> T, swaps: seq<(nat, nat)>)
      requires forall k :: 0 <= k < |swaps| ==> swaps[k].0 < count && swaps[k].1 < count
      ensures Valid() && |samples| == count
      ensures |drawn| == count && forall k :: 0 <= k < count ==> drawn[k] == draw(k)
    {
      var fill: seq<T> := [];
      for k := 0 to count
        invariant |fill| == k && forall m :: 0 <= m < k ==> fill[m] == draw(m)
      {
        fill := fill + [draw(k)];
      }
      samples := Shuffled(fill, swaps);
      drawn := fill;
    }

    /** operator[](i): one of the drawn samples. */
    function At(i: nat): (r: T)
      reads this
      requires Valid() && i < |samples|
      ensures r in drawn
    {
      assert samples[i] in multiset(drawn);
      samples[i]
    }
  }
}
