/**
 * Finite sums over sequences of reals, for prefix sums and integrals; the
 * quotient of two floats; rows of a row-major grid.
 */
module Series {
  import opened Opt

  /** The sum of `s`, accumulated from the front as the source's loops do. */
  function Sum(s: seq<real>): real
  {
    if |s| == 0 then 0.0 else Sum(s[..|s| - 1]) + s[|s| - 1]
  }

  predicate NonNegative(s: seq<real>)
  {
    forall k :: 0 <= k < |s| ==> s[k] >= 0.0
  }

  /** Each prefix sum is the previous one plus the next element. */
  lemma SumStep(s: seq<real>, i: nat)
    requires i < |s|
    ensures Sum(s[..i + 1]) == Sum(s[..i]) + s[i]
  {
    assert s[..i + 1][..i] == s[..i];
  }

  lemma {:induction false} SumAppend(a: seq<real>, b: seq<real>)
    ensures Sum(a + b) == Sum(a) + Sum(b)
  {
    if |b| == 0 {
      assert a + b == a;
    } else {
      assert (a + b)[..|a + b| - 1] == a + b[..|b| - 1];
      SumAppend(a, b[..|b| - 1]);
    }
  }

  lemma {:induction false} SumNonNegative(s: seq<real>)
    requires NonNegative(s)
    ensures Sum(s) >= 0.0
  {
    if |s| > 0 {
      SumNonNegative(s[..|s| - 1]);
    }
  }

  /** With non-negative terms, prefix sums grow with the prefix length. */
  lemma {:induction false} PrefixSumMonotone(s: seq<real>, i: nat, j: nat)
    requires NonNegative(s)
    requires i <= j <= |s|
    ensures Sum(s[..i]) <= Sum(s[..j])
    decreases j - i
  {
    if i < j {
      SumStep(s, j - 1);
      PrefixSumMonotone(s, i, j - 1);
    }
  }

  /** A sequence of `n` zeros. */
  function Zeros(n: nat): (r: seq<real>)
    ensures |r| == n && forall k :: 0 <= k < n ==> r[k] == 0.0
  {
    seq(n, _ => 0.0)
  }

  /** `s` with every element divided by `d`. */
  function DivideAll(s: seq<real>, d: real): (r: seq<real>)
    requires d != 0.0
    ensures |r| == |s| && forall k :: 0 <= k < |s| ==> r[k] == s[k] / d
  {
    seq(|s|, k requires 0 <= k < |s| => s[k] / d)
  }

  lemma {:induction false} SumDivide(s: seq<real>, d: real)
    requires d != 0.0
    ensures Sum(DivideAll(s, d)) == Sum(s) / d
  {
    if |s| > 0 {
      assert DivideAll(s, d)[..|s| - 1] == DivideAll(s[..|s| - 1], d);
      SumDivide(s[..|s| - 1], d);
    }
  }

  // ---------------------------------------------------------------------------
  // Quotients

  /** All of a sequence over its non-zero sum is 1. */
  lemma WholeShare(s: seq<real>)
    requires Sum(s) != 0.0
    ensures Sum(s[..|s|]) / Sum(s) == 1.0
  {
    assert s[..|s|] == s;
  }

  /**
   * The float quotient x / y. A zero divisor gives an infinity or NaN,
   * which the reals do not have: None stands for it.
   */
  function Quotient(x: real, y: real): (q: Option<real>)
    ensures q.Some? <==> y != 0.0
    ensures q.Some? ==> q.value * y == x
  {
    if y == 0.0 then None else Some(x / y)
  }

  lemma Cancel(x: real, b: real)
    requires b > 0.0
    ensures b * (x / b) == x && (x / b) * b == x
  {
  }

  lemma DivLe(x: real, y: real, m: real)
    requires m > 0.0 && x <= y
    ensures x / m <= y / m
  {
    assert y / m - x / m == (y - x) / m;
  }

  lemma DivLt(x: real, y: real, m: real)
    requires m > 0.0 && x < y
    ensures x / m < y / m
  {
    assert y / m - x / m == (y - x) / m;
  }

  lemma AddQuotient(a: real, b: real, c: real)
    requires c != 0.0
    ensures a / c + b / c == (a + b) / c
  {
  }

  /** For 0 <= a <= b <= m: a / m <= b / m, within [0, 1]. */
  lemma FractionMonotone(a: real, b: real, m: real)
    requires 0.0 <= a <= b <= m && m > 0.0
    ensures a / m <= b / m && 0.0 <= a / m <= 1.0
  {
    DivLe(a, b, m);
    DivLe(0.0, a, m);
    DivLe(a, m, m);
    assert m / m == 1.0;
  }

  /** q * (integral / n) == v: a density over the unit interval is n times the share v / integral. */
  lemma DensityScale(v: real, integral: real, n: real, q: real)
    requires n > 0.0 && integral != 0.0 && q * (integral / n) == v
    ensures q == n * (v / integral)
  {
    Cancel(integral, n);
    assert q * integral == q * (n * (integral / n));
    assert q * (n * (integral / n)) == n * (q * (integral / n));
    assert q == (q * integral) / integral;
  }

  /** A fraction x < 1 of n, truncated, is a valid index below n. */
  lemma FloorBelow(x: real, n: nat)
    requires 0.0 <= x < 1.0 && n > 0
    ensures 0 <= (x * n as real).Floor < n
  {
    assert x * n as real < n as real;
  }

  // ---------------------------------------------------------------------------
  // Row-major grids

  /** Row y + 1 ends where row y + 2 begins, within the w * h cells. */
  lemma RowFits(y: nat, w: nat, h: nat)
    requires y < h
    ensures 0 <= y * w && y * w + w == (y + 1) * w <= w * h
  {
    assert (y + 1) * w <= h * w;
  }

  /** Row y of the row-major w x h grid `f`: f[y * w + x] for x < w. */
  function Row(f: seq<real>, w: nat, h: nat, y: nat): (r: seq<real>)
    requires |f| == w * h && y < h
    ensures |r| == w && forall x :: 0 <= x < w ==> 0 <= y * w + x < |f| && r[x] == f[y * w + x]
  {
    RowFits(y, w, h);
    f[y * w..(y + 1) * w]
  }

  /** The first k rows add up to the first k * w cells. */
  lemma {:induction false} RowsSum(f: seq<real>, w: nat, h: nat, sums: seq<real>, k: nat)
    requires |f| == w * h && k <= h && k <= |sums|
    requires forall y :: 0 <= y < k ==> sums[y] == Sum(Row(f, w, h, y))
    ensures k * w <= |f| && Sum(sums[..k]) == Sum(f[..k * w])
  {
    if k > 0 {
      var y := k - 1;
      RowFits(y, w, h);
      assert f[..k * w] == f[..y * w] + Row(f, w, h, y);
      SumAppend(f[..y * w], Row(f, w, h, y));
      RowsSum(f, w, h, sums, y);
      SumStep(sums, y);
    }
  }
}
