/**
 * LowerBoundDistribution: the piecewise-constant distributions of
 * a04/src/gi/distribution.cpp. The constructor normalises a prefix-sum cdf
 * over N buckets; sampling finds the bucket with std::lower_bound. They are
 * built once and then copied by value, so they are datatypes here. Floats
 * are reals.
 */
module LowerBoundDistribution {
  import opened Opt
  import opened Series

  /** func holds the N bucket values, cdf the N + 1 cumulative fractions, integral their total. */
  datatype Distribution1D = Distribution1D(func: seq<real>, cdf: seq<real>, integral: real)

  /**
   * Entry i of the cdf the constructor leaves: the prefix sum of the first i
   * values over the integral, or i / N for a zero integral. Entry 0 is 0.
   */
  function CdfAt(func: seq<real>, integral: real, i: nat): real
    requires i <= |func|
  {
    if i == 0 then 0.0
    else if integral != 0.0 then Sum(func[..i]) / integral
    else i as real / |func| as real
  }

  /** d is what the constructor builds from d.func. */
  ghost predicate Valid(d: Distribution1D)
  {
    |d.cdf| == |d.func| + 1 && d.integral == Sum(d.func)
    && forall i {:trigger CdfAt(d.func, d.integral, i)} :: 0 <= i <= |d.func| ==> d.cdf[i] == CdfAt(d.func, d.integral, i)
  }

  /** Entry i of a built cdf, by its definition. */
  lemma Entry(d: Distribution1D, i: nat)
    requires Valid(d) && i <= |d.func|
    ensures d.cdf[i] == CdfAt(d.func, d.integral, i)
  {
  }

  /**
   * Distribution1D(f, N): accumulate the prefix sums into cdf[1..N], take
   * the last as the integral, then normalise cdf[1..N].
   */
  method Build(f: seq<real>) returns (d: Distribution1D)
    ensures d.func == f && Valid(d)
  {
    var n := |f|;
    var cdf := Zeros(n + 1);
    for i := 1 to n + 1
      invariant |cdf| == n + 1 && cdf[0] == 0.0
      invariant forall k :: 0 <= k < i ==> cdf[k] == Sum(f[..k])
    {
      SumStep(f, i - 1);
      cdf := cdf[i := cdf[i - 1] + f[i - 1]];
    }
    var integral := cdf[n];
    assert f[..n] == f;
    ghost var sums := cdf;
    for i := 1 to n + 1
      invariant |cdf| == n + 1 && cdf[0] == 0.0
      invariant forall k :: 1 <= k < i ==> cdf[k] == CdfAt(f, integral, k)
      invariant forall k :: i <= k <= n ==> cdf[k] == sums[k]
    {
      cdf := cdf[i := if integral != 0.0 then cdf[i] / integral else i as real / n as real];
    }
    d := Distribution1D(f, cdf, integral);
  }

  /** integral(): the total of the bucket values. */
  function Integral(d: Distribution1D): (r: real)
    requires Valid(d)
    ensures r == Sum(d.func)
    ensures NonNegative(d.func) ==> r >= 0.0
  {
    IntegralSign(d);
    d.integral
  }

  lemma IntegralSign(d: Distribution1D)
    requires Valid(d)
    ensures NonNegative(d.func) ==> d.integral >= 0.0
  {
    if NonNegative(d.func) {
      SumNonNegative(d.func);
    }
  }

  /** unit_integral(): the integral over [0, 1), integral / N; N = 0 divides by zero. */
  function UnitIntegral(d: Distribution1D): (r: Option<real>)
    requires Valid(d)
    ensures r.Some? <==> |d.func| > 0
    ensures r.Some? ==> r.value * |d.func| as real == Sum(d.func)
  {
    Quotient(d.integral, |d.func| as real)
  }

  /** pdf(index): the probability of bucket `index`, func[index] / integral. */
  function PdfIndex(d: Distribution1D, index: nat): (r: Option<real>)
    requires Valid(d) && index < |d.func|
    ensures r.Some? <==> d.integral != 0.0
    ensures r.Some? ==> r.value == d.cdf[index + 1] - d.cdf[index]
  {
    if d.integral != 0.0 then
      BucketMass(d, index);
      Quotient(d.func[index], d.integral)
    else Quotient(d.func[index], d.integral)
  }

  /** pdf(sample): the density at a point of [0, 1), func[sample * N] / unit_integral(). */
  function PdfAt(d: Distribution1D, sample: real): (r: Option<real>)
    requires Valid(d) && |d.func| > 0 && 0.0 <= sample < 1.0
    ensures r.Some? <==> d.integral != 0.0
    ensures var k := (sample * |d.func| as real).Floor;
      0 <= k < |d.func| && (r.Some? ==> r.value == |d.func| as real * (d.cdf[k + 1] - d.cdf[k]))
  {
    FloorBelow(sample, |d.func|);
    var q := Quotient(d.func[(sample * |d.func| as real).Floor], d.integral / |d.func| as real);
    if q.Some? then
      BucketMass(d, (sample * |d.func| as real).Floor);
      DensityScale(d.func[(sample * |d.func| as real).Floor], d.integral, |d.func| as real, q.value);
      q
    else q
  }

  /** The cdf steps by func[i] / integral from entry i to entry i + 1. */
  lemma BucketMass(d: Distribution1D, i: nat)
    requires Valid(d) && i < |d.func| && d.integral != 0.0
    ensures d.cdf[i + 1] - d.cdf[i] == d.func[i] / d.integral
  {
    Entry(d, i);
    Entry(d, i + 1);
    assert d.func[..0] == [];
    assert d.cdf[i] == Sum(d.func[..i]) / d.integral;
    SumStep(d.func, i);
    AddQuotient(Sum(d.func[..i]), d.func[i], d.integral);
  }

  /** The cdf starts at 0 and, for N > 0, ends at 1, as asserted after the constructor. */
  lemma CdfEnds(d: Distribution1D)
    requires Valid(d)
    ensures d.cdf[0] == 0.0
    ensures |d.func| > 0 ==> d.cdf[|d.func|] == 1.0
  {
    var n := |d.func|;
    assert d.func[..n] == d.func;
    Entry(d, 0);
    if n > 0 {
      Entry(d, n);
      if d.integral != 0.0 {
        assert d.cdf[n] == Sum(d.func) / Sum(d.func);
      } else {
        assert d.cdf[n] == n as real / n as real;
      }
    }
  }

  /** With no buckets the cdf is the single entry 0, and the assertion cdf[N] == 1 fails. */
  lemma EmptyCdf(d: Distribution1D)
    requires Valid(d) && |d.func| == 0
    ensures d.cdf == [0.0] && d.cdf[|d.func|] != 1.0
  {
    Entry(d, 0);
  }

  /** With non-negative values the cdf never decreases and stays in [0, 1]: what lower_bound relies on. */
  lemma CdfMonotone(d: Distribution1D, i: nat, j: nat)
    requires Valid(d) && NonNegative(d.func) && i <= j <= |d.func|
    ensures d.cdf[i] <= d.cdf[j]
    ensures 0.0 <= d.cdf[i] <= 1.0
  {
    Entry(d, i);
    Entry(d, j);
    CdfAtMonotone(d.func, d.integral, i, j);
  }

  lemma CdfAtMonotone(func: seq<real>, integral: real, i: nat, j: nat)
    requires integral == Sum(func) && NonNegative(func) && i <= j <= |func|
    ensures CdfAt(func, integral, i) <= CdfAt(func, integral, j)
    ensures 0.0 <= CdfAt(func, integral, i) <= 1.0
  {
    var n := |func|;
    if integral != 0.0 {
      assert func[..0] == [] && func[..n] == func;
      SumNonNegative(func);
      PrefixSumMonotone(func, i, j);
      PrefixSumMonotone(func, 0, i);
      PrefixSumMonotone(func, j, n);
      FractionMonotone(Sum(func[..i]), Sum(func[..j]), integral);
      assert CdfAt(func, integral, i) == Sum(func[..i]) / integral;
      assert CdfAt(func, integral, j) == Sum(func[..j]) / integral;
    } else if i > 0 {
      FractionMonotone(i as real, j as real, n as real);
    } else if j > 0 {
      FractionMonotone(0.0, j as real, n as real);
    }
  }

  /** std::lower_bound on the cdf: the first entry not below x, or |s| if there is none. */
  function LowerBound(s: seq<real>, x: real): (k: nat)
    ensures k <= |s|
    ensures forall j :: 0 <= j < k ==> s[j] < x
    ensures k < |s| ==> s[k] >= x
  {
    if |s| == 0 then 0 else if s[0] >= x then 0 else 1 + LowerBound(s[1..], x)
  }

  /** The bucket both samplers pick: one before the lower bound, but not below 0. */
  function Offset(d: Distribution1D, sample: real): (offset: nat)
    requires Valid(d) && |d.func| > 0 && sample < 1.0
    ensures offset < |d.func|
    ensures offset > 0 ==> d.cdf[offset] < sample
    ensures LowerBound(d.cdf, sample) > 0 ==> sample <= d.cdf[offset + 1]
    ensures offset == 0 ==> LowerBound(d.cdf, sample) <= 1
  {
    CdfEnds(d);
    var lb := LowerBound(d.cdf, sample);
    if lb == 0 then 0 else lb - 1
  }

  /**
   * sample_index(sample): the bucket whose cdf interval holds the sample,
   * (cdf[offset], cdf[offset + 1]], with its probability, or 0 when the
   * integral is not positive.
   */
  function SampleIndex(d: Distribution1D, sample: real): (r: (nat, real))
    requires Valid(d) && |d.func| > 0 && 0.0 <= sample < 1.0
    ensures r.0 < |d.func|
    ensures r.0 > 0 ==> d.cdf[r.0] < sample
    ensures NonNegative(d.func) ==> sample <= d.cdf[r.0 + 1]
    ensures d.integral > 0.0 ==> r.1 == d.cdf[r.0 + 1] - d.cdf[r.0]
    ensures d.integral <= 0.0 ==> r.1 == 0.0
  {
    var offset := Offset(d, sample);
    FirstBucket(d);
    if d.integral > 0.0 then
      BucketMass(d, offset);
      (offset, d.func[offset] / d.integral)
    else (offset, 0.0)
  }

  lemma FirstBucket(d: Distribution1D)
    requires Valid(d) && |d.func| > 0
    ensures NonNegative(d.func) ==> d.cdf[0] <= d.cdf[1]
  {
    if NonNegative(d.func) {
      CdfMonotone(d, 0, 1);
    }
  }

  /**
   * sample_01(sample): the bucket of sample_index, with the position of the
   * sample inside its cdf interval added as a fraction of a bucket. The
   * density is func[offset] / unit_integral(), or 0 when the integral is not
   * positive.
   */
  function Sample01(d: Distribution1D, sample: real): (r: (real, real))
    requires Valid(d) && |d.func| > 0 && 0.0 <= sample < 1.0
    ensures NonNegative(d.func) ==> Within(r.0, Offset(d, sample), |d.func|)
    ensures BucketDensity(d, Offset(d, sample), r.1)
  {
    var offset := Offset(d, sample);
    (Position(d, sample, offset), Density(d, offset))
  }

  /** x lies in [0, 1) and in the closed k-th of n equal parts of it. */
  predicate Within(x: real, k: nat, n: nat)
    requires n > 0
  {
    0.0 <= x < 1.0 && k as real / n as real <= x <= (k + 1) as real / n as real
  }

  /**
   * How far the sample lies into its cdf interval, as a fraction of its
   * width; the width divides only when it is positive.
   */
  function Interpolate(d: Distribution1D, sample: real, offset: nat): (du: real)
    requires Valid(d) && |d.func| > 0 && 0.0 <= sample < 1.0 && offset == Offset(d, sample)
    ensures NonNegative(d.func) ==> 0.0 <= du <= 1.0 && (offset + 1 == |d.func| ==> du < 1.0)
  {
    var width := d.cdf[offset + 1] - d.cdf[offset];
    var du := if width > 0.0 then (sample - d.cdf[offset]) / width else sample - d.cdf[offset];
    FractionRange(d, sample, offset, width, du);
    du
  }

  lemma FractionRange(d: Distribution1D, sample: real, offset: nat, width: real, du: real)
    requires Valid(d) && |d.func| > 0 && 0.0 <= sample < 1.0
    requires offset == Offset(d, sample) && width == d.cdf[offset + 1] - d.cdf[offset]
    requires du == if width > 0.0 then (sample - d.cdf[offset]) / width else sample - d.cdf[offset]
    ensures NonNegative(d.func) ==> 0.0 <= du <= 1.0 && (offset + 1 == |d.func| ==> du < 1.0)
  {
    if NonNegative(d.func) {
      var n := |d.func|;
      CdfEnds(d);
      CdfMonotone(d, offset, offset + 1);
      if LowerBound(d.cdf, sample) == 0 {
        assert d.cdf[0] >= sample;
      } else {
        assert width > 0.0;
        DivLe(0.0, sample - d.cdf[offset], width);
        DivLe(sample - d.cdf[offset], width, width);
        if offset + 1 == n {
          DivLt(sample - d.cdf[offset], width, width);
        }
      }
    }
  }

  /** (offset + du) / N, the point sample_01 returns. */
  function Position(d: Distribution1D, sample: real, offset: nat): (x: real)
    requires Valid(d) && |d.func| > 0 && 0.0 <= sample < 1.0 && offset == Offset(d, sample)
    ensures NonNegative(d.func) ==> Within(x, offset, |d.func|)
  {
    var du := Interpolate(d, sample, offset);
    PositionRange(offset, du, |d.func|);
    (offset as real + du) / |d.func| as real
  }

  lemma PositionRange(k: nat, du: real, n: nat)
    requires k < n
    ensures 0.0 <= du <= 1.0 && (k + 1 == n ==> du < 1.0) ==> Within((k as real + du) / n as real, k, n)
  {
    if 0.0 <= du <= 1.0 && (k + 1 == n ==> du < 1.0) {
      DivLe(k as real, k as real + du, n as real);
      DivLe(k as real + du, (k + 1) as real, n as real);
      DivLe(0.0, k as real, n as real);
      if k + 1 < n {
        DivLt((k + 1) as real, n as real, n as real);
      } else {
        DivLt(k as real + du, n as real, n as real);
      }
    }
  }

  /**
   * p is the density of bucket `offset`: N times its probability, the cdf
   * step over it, when the integral is positive, and 0 otherwise.
   */
  predicate BucketDensity(d: Distribution1D, offset: nat, p: real)
    requires |d.cdf| == |d.func| + 1 && offset < |d.func|
  {
    (d.integral > 0.0 ==> p == |d.func| as real * (d.cdf[offset + 1] - d.cdf[offset]))
    && (d.integral <= 0.0 ==> p == 0.0)
  }

  /** The density sample_01 reports: func[offset] / unit_integral(), or 0 unless the integral is positive. */
  function Density(d: Distribution1D, offset: nat): (p: real)
    requires Valid(d) && offset < |d.func|
    ensures BucketDensity(d, offset, p)
  {
    if d.integral > 0.0 then
      var n := |d.func| as real;
      var p := d.func[offset] / (d.integral / n);
      BucketMass(d, offset);
      DensityScale(d.func[offset], d.integral, n, p);
      p
    else 0.0
  }

  // ---------------------------------------------------------------------------
  // Distribution2D

  /** One conditional distribution per row and a marginal over the row integrals. */
  datatype Distribution2D = Distribution2D(conditional: seq<Distribution1D>, marginal: Distribution1D)

  /** d is what the constructor builds from the w x h grid f. */
  ghost predicate Valid2D(d: Distribution2D, f: seq<real>, w: nat, h: nat)
  {
    |f| == w * h && |d.conditional| == h && Valid(d.marginal) && |d.marginal.func| == h
    && (forall y :: 0 <= y < h ==> Valid(d.conditional[y]) && d.conditional[y].func == Row(f, w, h, y))
    && forall y :: 0 <= y < h ==> d.marginal.func[y] == d.conditional[y].integral
  }

  /** Distribution2D(f, w, h): a Distribution1D per row, then one over the row integrals. */
  method Build2D(f: seq<real>, w: nat, h: nat) returns (d: Distribution2D)
    requires |f| == w * h
    ensures Valid2D(d, f, w, h)
  {
    var conditional := [];
    for y := 0 to h
      invariant |conditional| == y
      invariant forall k :: 0 <= k < y ==> Valid(conditional[k]) && conditional[k].func == Row(f, w, h, k)
    {
      var row := Build(Row(f, w, h, y));
      conditional := conditional + [row];
    }
    var marginalFunc := [];
    for y := 0 to h
      invariant |marginalFunc| == y && forall k :: 0 <= k < y ==> marginalFunc[k] == conditional[k].integral
    {
      marginalFunc := marginalFunc + [conditional[y].integral];
    }
    var marginal := Build(marginalFunc);
    d := Distribution2D(conditional, marginal);
  }

  /** integral(): the marginal's integral, which is the sum of all w * h values. */
  function Integral2D(d: Distribution2D, ghost f: seq<real>, ghost w: nat, ghost h: nat): (r: real)
    requires Valid2D(d, f, w, h)
    ensures r == Sum(f)
  {
    GridSum(d, f, w, h);
    d.marginal.integral
  }

  lemma GridSum(d: Distribution2D, f: seq<real>, w: nat, h: nat)
    requires Valid2D(d, f, w, h)
    ensures d.marginal.integral == Sum(f)
  {
    RowsSum(f, w, h, d.marginal.func, h);
    assert d.marginal.func[..h] == d.marginal.func;
    assert f[..h * w] == f;
  }

  /** unit_integral(): the marginal's integral over the h * w cells; an empty row width divides by zero. */
  function UnitIntegral2D(d: Distribution2D, ghost f: seq<real>, w: nat, h: nat): (r: Option<real>)
    requires Valid2D(d, f, w, h) && h > 0
    ensures r.Some? <==> w > 0
    ensures r.Some? ==> r.value * (h * w) as real == Sum(f)
  {
    GridSum(d, f, w, h);
    Quotient(d.marginal.integral, (|d.marginal.func| * |d.conditional[0].func|) as real)
  }

  /** Every row of a non-negative grid is non-negative, and so is its sum. */
  lemma RowsNonNegative(d: Distribution2D, f: seq<real>, w: nat, h: nat)
    requires Valid2D(d, f, w, h) && NonNegative(f)
    ensures forall y :: 0 <= y < h ==> NonNegative(d.conditional[y].func)
    ensures NonNegative(d.marginal.func)
  {
    forall y | 0 <= y < h
      ensures NonNegative(d.conditional[y].func) && d.marginal.func[y] >= 0.0
    {
      assert NonNegative(Row(f, w, h, y));
      SumNonNegative(Row(f, w, h, y));
    }
  }

  /** The density of a 2D sample: the marginal's density times the conditional's. */
  function Joint(pdfY: real, pdfX: real): real
  {
    pdfY * pdfX
  }

  /**
   * sample_01(sample) of the 2D distribution: y from the marginal, then x
   * from the conditional of the row that y scaled by h and truncated falls
   * in; the density is the product of the two densities.
   */
  function Sample2D(d: Distribution2D, ghost f: seq<real>, w: nat, h: nat, sx: real, sy: real): (r: (real, real, real))
    requires Valid2D(d, f, w, h) && w > 0 && h > 0 && NonNegative(f)
    // implied by NonNegative(f) (RowsNonNegative); it keeps the row index of the contract in range
    requires NonNegative(d.marginal.func)
    requires 0.0 <= sx < 1.0 && 0.0 <= sy < 1.0
    ensures Within(r.1, Offset(d.marginal, sy), h)
    ensures var row := CellIndex(r.1, h);
      Within(r.0, Offset(d.conditional[row], sx), w)
      && r.2 == Joint(Density(d.marginal, Offset(d.marginal, sy)), Density(d.conditional[row], Offset(d.conditional[row], sx)))
  {
    RowsNonNegative(d, f, w, h);
    var ys := Sample01(d.marginal, sy);
    var xs := Sample01(d.conditional[CellIndex(ys.0, h)], sx);
    (xs.0, ys.0, Joint(ys.1, xs.1))
  }

  /** glm::clamp(v, lo, hi). */
  function Clamp(v: int, lo: int, hi: int): int
  {
    if v < lo then lo else if v > hi then hi else v
  }

  /** int(s * n) clamped into [0, n - 1]: for s in [0, 1) the clamp leaves the floor as it is. */
  function CellIndex(s: real, n: nat): (k: int)
    requires 0.0 <= s < 1.0 && n > 0
    ensures k == (s * n as real).Floor && 0 <= k < n
  {
    FloorBelow(s, n);
    Clamp((s * n as real).Floor, 0, n - 1)
  }

  /**
   * pdf(sample): the value of the cell the sample falls in, over the
   * integral. The cell indices are truncated and clamped into the grid.
   */
  function Pdf2D(d: Distribution2D, sx: real, sy: real): Option<real>
    requires |d.conditional| > 0 && |d.conditional[0].func| > 0 && |d.marginal.func| == |d.conditional|
    requires forall y :: 0 <= y < |d.conditional| ==> |d.conditional[y].func| == |d.conditional[0].func|
    requires 0.0 <= sx < 1.0 && 0.0 <= sy < 1.0
  {
    var x := CellIndex(sx, |d.conditional[0].func|);
    var y := CellIndex(sy, |d.marginal.func|);
    Quotient(d.conditional[y].func[x], d.marginal.integral)
  }

  /** The pdf of the built distribution is the value of the cell under the sample over the total. */
  lemma Pdf2DCell(d: Distribution2D, f: seq<real>, w: nat, h: nat, sx: real, sy: real)
    requires Valid2D(d, f, w, h) && w > 0 && h > 0
    requires 0.0 <= sx < 1.0 && 0.0 <= sy < 1.0
    ensures var x, y := CellIndex(sx, w), CellIndex(sy, h);
      0 <= y * w + x < |f| && Pdf2D(d, sx, sy) == Quotient(f[y * w + x], Sum(f))
  {
    var x, y := CellIndex(sx, w), CellIndex(sy, h);
    assert Pdf2D(d, sx, sy) == Quotient(d.conditional[y].func[x], d.marginal.integral);
    assert d.conditional[y].func == Row(f, w, h, y);
    assert y * w + x < |f| && Row(f, w, h, y)[x] == f[y * w + x];
    GridSum(d, f, w, h);
  }
}
