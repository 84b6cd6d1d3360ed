/**
 * BinarySearchDistribution: the piecewise-constant distributions of
 * a03/src/gi/distribution.cpp. The constructor accumulates the normalised
 * values into the cdf, or leaves it all zeros for a zero integral; sampling
 * finds the bucket with a hand-written binary search. As in the later
 * revision they are values, built once and copied. Floats are reals.
 */
module BinarySearchDistribution {
  import opened Opt
  import opened Series

  /** func holds the N bucket values, cdf the N + 1 cumulative fractions, integral their total. */
  datatype Distribution1D = Distribution1D(func: seq<real>, cdf: seq<real>, integral: real)

  /**
   * Entry i of the cdf the constructor leaves: all zeros for a zero
   * integral; otherwise the sum of the first i values over the integral,
   * with the last entry set to 1.
   */
  function CdfAt(func: seq<real>, integral: real, i: nat): real
    requires i <= |func|
  {
    if integral == 0.0 then 0.0
    else if i == |func| then 1.0
    else Sum(func[..i]) / integral
  }

  /** d is what the constructor builds from d.func. */
  ghost predicate Valid(d: Distribution1D)
  {
    |d.cdf| == |d.func| + 1 && d.integral == Sum(d.func)
    && forall i {:trigger CdfAt(d.func, d.integral, i)} :: 0 <= i <= |d.func| ==> d.cdf[i] == CdfAt(d.func, d.integral, i)
  }

  /** Entry i of a built cdf, by its definition. */
  lemma Entry(d: Distribution1D, i: nat)
    requires Valid(d) && i <= |d.func|
    ensures d.cdf[i] == CdfAt(d.func, d.integral, i)
  {
  }

  /**
   * Distribution1D(f, N): the integral is the sum of f; for a zero
   * integral return with the cdf all zeros; otherwise store the running
   * total of pdf(i) = f[i] / integral before each step, then set the last
   * entry to 1.
   */
  method Build(f: seq<real>) returns (d: Distribution1D)
    ensures d.func == f && Valid(d)
  {
    var n := |f|;
    var integral := Sum(f);
    var cdf := Zeros(n + 1);
    if integral == 0.0 {
      d := Distribution1D(f, cdf, integral);
      return;
    }
    var acc := 0.0;
    assert f[..0] == [];
    for i := 0 to n
      invariant |cdf| == n + 1
      invariant acc == Sum(f[..i]) / integral
      invariant forall k :: 0 <= k < i ==> cdf[k] == Sum(f[..k]) / integral
    {
      cdf := cdf[i := acc];
      SumStep(f, i);
      AddQuotient(Sum(f[..i]), f[i], integral);
      acc := acc + f[i] / integral;
    }
    cdf := cdf[n := 1.0];
    d := Distribution1D(f, cdf, integral);
  }

  /** integral(): the total of the bucket values, over [0, N). */
  function Integral(d: Distribution1D): (r: real)
    requires Valid(d)
    ensures r == Sum(d.func)
  {
    d.integral
  }

  /** unit_integral(): the integral over [0, 1), integral / N; N = 0 divides by zero. */
  function UnitIntegral(d: Distribution1D): (r: Option<real>)
    requires Valid(d)
    ensures r.Some? <==> |d.func| > 0
    ensures r.Some? ==> r.value * |d.func| as real == Sum(d.func)
  {
    Quotient(d.integral, |d.func| as real)
  }

  /**
   * For a non-zero integral every entry is the share of the values before
   * it: the 1 written over the last entry is what the accumulation reaches.
   */
  lemma Share(func: seq<real>, integral: real, i: nat)
    requires integral == Sum(func) && integral != 0.0 && i <= |func|
    ensures CdfAt(func, integral, i) == Sum(func[..i]) / integral
  {
    if i == |func| {
      WholeShare(func);
    }
  }

  /** A built cdf starts at 0 and, for a non-zero integral, ends at 1. */
  lemma CdfEnds(d: Distribution1D)
    requires Valid(d)
    ensures d.cdf[0] == 0.0
    ensures d.integral != 0.0 ==> d.cdf[|d.func|] == 1.0
  {
    Entry(d, 0);
    Entry(d, |d.func|);
    if d.integral != 0.0 {
      Share(d.func, d.integral, 0);
      assert d.func[..0] == [];
    }
  }

  /** For a non-zero integral the cdf steps by func[i] / integral from entry i to entry i + 1. */
  lemma BucketMass(d: Distribution1D, i: nat)
    requires Valid(d) && i < |d.func| && d.integral != 0.0
    ensures d.cdf[i + 1] - d.cdf[i] == d.func[i] / d.integral
  {
    Entry(d, i);
    Entry(d, i + 1);
    Share(d.func, d.integral, i);
    Share(d.func, d.integral, i + 1);
    SumStep(d.func, i);
    AddQuotient(Sum(d.func[..i]), d.func[i], d.integral);
  }

  /** With non-negative values the cdf never decreases and stays in [0, 1]. */
  lemma CdfMonotone(d: Distribution1D, i: nat, j: nat)
    requires Valid(d) && NonNegative(d.func) && i <= j <= |d.func|
    ensures d.cdf[i] <= d.cdf[j]
    ensures 0.0 <= d.cdf[i] <= 1.0
  {
    Entry(d, i);
    Entry(d, j);
    CdfAtMonotone(d.func, d.integral, i, j);
  }

  lemma CdfAtMonotone(func: seq<real>, integral: real, i: nat, j: nat)
    requires integral == Sum(func) && NonNegative(func) && i <= j <= |func|
    ensures CdfAt(func, integral, i) <= CdfAt(func, integral, j)
    ensures 0.0 <= CdfAt(func, integral, i) <= 1.0
  {
    var n := |func|;
    if integral != 0.0 {
      assert func[..0] == [] && func[..n] == func;
      SumNonNegative(func);
      PrefixSumMonotone(func, i, j);
      PrefixSumMonotone(func, 0, i);
      PrefixSumMonotone(func, j, n);
      Share(func, integral, i);
      Share(func, integral, j);
      FractionMonotone(Sum(func[..i]), Sum(func[..j]), integral);
    }
  }

  /** pdf(index): the probability of bucket `index`, func[index] / integral. */
  function PdfIndex(d: Distribution1D, index: nat): (r: Option<real>)
    requires Valid(d) && index < |d.func|
    ensures r.Some? <==> d.integral != 0.0
    ensures r.Some? ==> r.value == d.cdf[index + 1] - d.cdf[index]
  {
    if d.integral != 0.0 then
      BucketMass(d, index);
      Quotient(d.func[index], d.integral)
    else Quotient(d.func[index], d.integral)
  }

  /** The bucket of N that a point of [0, 1) falls in: the point scaled by N and truncated. */
  function Bucket(x: real, n: nat): (k: nat)
    requires n > 0 && 0.0 <= x < 1.0
    ensures k < n && k == (x * n as real).Floor
  {
    FloorBelow(x, n);
    (x * n as real).Floor
  }

  /** The density of bucket k: N times its probability, the cdf step over it. */
  function StepDensity(d: Distribution1D, k: nat): real
    requires |d.cdf| == |d.func| + 1 && k < |d.func|
  {
    |d.func| as real * (d.cdf[k + 1] - d.cdf[k])
  }

  /** pdf(sample): the density at a point of [0, 1), func[sample * N] / unit_integral(). */
  function PdfAt(d: Distribution1D, sample: real): (r: Option<real>)
    requires Valid(d) && |d.func| > 0 && 0.0 <= sample < 1.0
    ensures r.Some? <==> d.integral != 0.0
    ensures var k := Bucket(sample, |d.func|);
      0 <= k < |d.func| && (r.Some? ==> r.value == StepDensity(d, k))
  {
    var q := Quotient(d.func[Bucket(sample, |d.func|)], d.integral / |d.func| as real);
    if q.Some? then
      ScaledDensity(d, Bucket(sample, |d.func|), q.value);
      q
    else q
  }

  /** A value q with q * (integral / N) == func[k] is the density of bucket k. */
  lemma ScaledDensity(d: Distribution1D, k: nat, q: real)
    requires Valid(d) && k < |d.func| && d.integral != 0.0
    requires q * (d.integral / |d.func| as real) == d.func[k]
    ensures q == StepDensity(d, k)
  {
    BucketMass(d, k);
    DensityScale(d.func[k], d.integral, |d.func| as real, q);
  }

  /** The first entry above x, or |s| if there is none: where a search for x ends on a sorted cdf. */
  function UpperBound(s: seq<real>, x: real): (k: nat)
    ensures k <= |s|
    ensures forall j :: 0 <= j < k ==> s[j] <= x
    ensures k < |s| ==> s[k] > x
  {
    if |s| == 0 then 0 else if s[0] > x then 0 else 1 + UpperBound(s[1..], x)
  }

  /** On a non-decreasing cdf the bucket holding x is unique: the one just before the upper bound. */
  lemma BucketIsUpperBound(d: Distribution1D, b: nat, x: real)
    requires Valid(d) && NonNegative(d.func) && b < |d.func|
    requires d.cdf[b] <= x < d.cdf[b + 1]
    ensures UpperBound(d.cdf, x) == b + 1
  {
    var u := UpperBound(d.cdf, x);
    if u <= b {
      CdfMonotone(d, u, b);
      assert false;
    }
  }

  /** x lies in [0, 1) and in the k-th of n equal parts of it. */
  predicate InPart(x: real, k: nat, n: nat)
    requires n > 0
  {
    0.0 <= x < 1.0 && k as real / n as real <= x < (k + 1) as real / n as real
  }

  /** (k + t) / n for t in [0, 1) lies in part k, and scaled back by n it truncates to k. */
  lemma PartRange(k: nat, t: real, n: nat)
    requires k < n && 0.0 <= t < 1.0
    ensures InPart((k as real + t) / n as real, k, n)
    ensures ((k as real + t) / n as real) * n as real == k as real + t
    ensures (((k as real + t) / n as real) * n as real).Floor == k
  {
    var m := n as real;
    DivLe(k as real, k as real + t, m);
    DivLt(k as real + t, (k + 1) as real, m);
    DivLe(0.0, k as real, m);
    DivLe((k + 1) as real, m, m);
    Cancel(k as real + t, m);
  }

  /** t = (x - a) / (b - a) for a <= x < b lies in [0, 1) and interpolates back to x. */
  lemma Interpolation(a: real, x: real, b: real)
    requires a <= x < b
    ensures 0.0 <= (x - a) / (b - a) < 1.0
    ensures a + ((x - a) / (b - a)) * (b - a) == x
  {
    DivLe(0.0, x - a, b - a);
    DivLt(x - a, b - a, b - a);
    Cancel(x - a, b - a);
  }

  /**
   * Read back through the cdf, linearly interpolated within bucket k, the
   * position x gives the sample.
   */
  predicate Inverts(d: Distribution1D, k: nat, x: real, sample: real)
    requires |d.cdf| == |d.func| + 1 && k < |d.func|
  {
    d.cdf[k] + (x * |d.func| as real - k as real) * (d.cdf[k + 1] - d.cdf[k]) == sample
  }

  /**
   * What sample_01 promises for a sample of [0, 1): with a zero integral the
   * sample comes back with the uniform density 1 / N; otherwise bucket holds
   * the sample in its cdf step, the result lies in the bucket's part of
   * [0, 1) and reads back to the sample, and pdf is the bucket's density.
   */
  predicate Drawn(d: Distribution1D, sample: real, result: real, pdf: real, bucket: nat)
    requires |d.cdf| == |d.func| + 1 && |d.func| > 0
  {
    (d.integral == 0.0 ==> result == sample && pdf == 1.0 / |d.func| as real)
    && (d.integral != 0.0 ==>
      bucket < |d.func| && d.cdf[bucket] <= sample < d.cdf[bucket + 1]
      && InPart(result, bucket, |d.func|) && Bucket(result, |d.func|) == bucket
      && Inverts(d, bucket, result, sample)
      && pdf == StepDensity(d, bucket))
  }

  /** Whatever the integral, a drawn point stays in [0, 1). */
  lemma DrawnRange(d: Distribution1D, sample: real, result: real, pdf: real, bucket: nat)
    requires |d.cdf| == |d.func| + 1 && |d.func| > 0 && 0.0 <= sample < 1.0
    requires Drawn(d, sample, result, pdf, bucket)
    ensures 0.0 <= result < 1.0
  {
  }

  /**
   * sample_01(sample). A zero integral returns the sample itself with the
   * uniform density 1 / N. Otherwise a binary search keeps
   * cdf[start] <= sample < cdf[end] (or end = N + 1) until end = start + 1,
   * and the position within that bucket is interpolated linearly. The
   * density is pdf(result), the float overload.
   */
  method Sample01(d: Distribution1D, sample: real) returns (result: real, pdf: real, ghost bucket: nat)
    requires Valid(d) && |d.func| > 0 && 0.0 <= sample < 1.0
    ensures 0.0 <= result < 1.0
    ensures d.integral == 0.0 ==> result == sample && pdf == 1.0 / |d.func| as real
    ensures d.integral != 0.0 ==> PdfAt(d, result) == Some(pdf)
    ensures Drawn(d, sample, result, pdf, bucket)
    ensures d.integral != 0.0 && NonNegative(d.func) ==> bucket + 1 == UpperBound(d.cdf, sample)
  {
    var n := |d.func|;
    if d.integral == 0.0 {
      return sample, 1.0 / n as real, 0;
    }
    var start, end := Search(d, sample);
    result := Position(d, start, sample);
    var p := PdfAt(d, result);
    pdf := p.value;
    bucket := start;
    if NonNegative(d.func) {
      BucketIsUpperBound(d, start, sample);
    }
    DrawnRange(d, sample, result, pdf, bucket);
  }

  /**
   * The position of a sample that bucket k holds: t is its share of the
   * bucket's cdf step (0 for a flat step) and the result is (k + t) / N.
   * It lies in the k-th part of [0, 1) and reads back to the sample.
   */
  function Position(d: Distribution1D, k: nat, sample: real): (x: real)
    requires |d.cdf| == |d.func| + 1 && k < |d.func| && d.cdf[k] <= sample < d.cdf[k + 1]
    ensures InPart(x, k, |d.func|) && Bucket(x, |d.func|) == k
    ensures Inverts(d, k, x, sample)
  {
    var t := if d.cdf[k + 1] == d.cdf[k] then 0.0 else (sample - d.cdf[k]) / (d.cdf[k + 1] - d.cdf[k]);
    Interpolation(d.cdf[k], sample, d.cdf[k + 1]);
    PartRange(k, t, |d.func|);
    (k as real + t) / |d.func| as real
  }

  /** The loop of sample_01: bisect [start, end) until one bucket is left. */
  method Search(d: Distribution1D, sample: real) returns (start: nat, end: nat)
    requires Valid(d) && |d.func| > 0 && d.integral != 0.0 && 0.0 <= sample < 1.0
    ensures end == start + 1 <= |d.func| && d.cdf[start] <= sample < d.cdf[end]
  {
    Entry(d, 0);
    Entry(d, |d.func|);
    start, end := 0, |d.cdf|;
    while start != end - 1
      invariant 0 <= start < end <= |d.cdf|
      invariant d.cdf[start] <= sample
      invariant end == |d.cdf| || d.cdf[end] > sample
      decreases end - start
    {
      var mid := (end + start) / 2;
      if d.cdf[mid] > sample {
        end := mid;
      } else {
        start := mid;
      }
    }
  }

  /**
   * sample_index(sample): sample_01 scaled by N and truncated, with
   * pdf(index), the probability of that bucket; a zero integral makes it
   * 0 / 0.
   */
  method SampleIndex(d: Distribution1D, sample: real) returns (index: nat, pdf: Option<real>)
    requires Valid(d) && |d.func| > 0 && 0.0 <= sample < 1.0
    ensures index < |d.func|
    ensures d.integral == 0.0 ==> index == Bucket(sample, |d.func|) && pdf == None
    ensures d.integral != 0.0 ==>
      d.cdf[index] <= sample < d.cdf[index + 1] && pdf == Some(d.cdf[index + 1] - d.cdf[index])
    ensures d.integral != 0.0 && NonNegative(d.func) ==> index + 1 == UpperBound(d.cdf, sample)
  {
    var n := |d.func|;
    var result, density;
    ghost var bucket;
    result, density, bucket := Sample01(d, sample);
    DrawnRange(d, sample, result, density, bucket);
    index := Bucket(result, n);
    pdf := PdfIndex(d, index);
  }

  // ---------------------------------------------------------------------------
  // Distribution2D

  /** One conditional distribution per row, a marginal over the row integrals, and the total. */
  datatype Distribution2D = Distribution2D(conditional: seq<Distribution1D>, marginal: Distribution1D, integral: real)

  /**
   * The `cond` buffer after rows 0 .. y-1: a row with a non-zero integral
   * overwrites it with its values over that integral; a zero row leaves it
   * as it was, so it is all zeros until the first non-zero row.
   */
  function Carried(f: seq<real>, w: nat, h: nat, sums: seq<real>, y: nat): (r: seq<real>)
    requires |f| == w * h && y <= h && h <= |sums|
    ensures |r| == w
  {
    if y == 0 then Zeros(w)
    else if sums[y - 1] != 0.0 then DivideAll(Row(f, w, h, y - 1), sums[y - 1])
    else Carried(f, w, h, sums, y - 1)
  }

  /**
   * d is what the constructor builds from the w x h grid f: the marginal is
   * built over the row sums, the total is their sum, and row y's conditional
   * is built from the `cond` buffer as row y leaves it.
   */
  ghost predicate Valid2D(d: Distribution2D, f: seq<real>, w: nat, h: nat)
  {
    |f| == w * h && |d.conditional| == h && Valid(d.marginal) && |d.marginal.func| == h
    && (forall y :: 0 <= y < h ==> d.marginal.func[y] == Sum(Row(f, w, h, y)))
    && d.integral == Sum(d.marginal.func)
    && forall y :: 0 <= y < h ==>
      Valid(d.conditional[y]) && d.conditional[y].func == Carried(f, w, h, d.marginal.func, y + 1)
  }

  /**
   * Distribution2D(f, w, h): build each row, add up the row integrals and
   * build the marginal over them, then build each row's conditional from
   * the `cond` buffer.
   */
  method Build2D(f: seq<real>, w: nat, h: nat) returns (d: Distribution2D)
    requires |f| == w * h
    ensures Valid2D(d, f, w, h)
  {
    var rowIntegrals, integral := RowIntegrals(f, w, h);
    var marginal := Build(rowIntegrals);
    var conditional := Conditionals(f, w, h, rowIntegrals);
    d := Distribution2D(conditional, marginal, integral);
  }

  /** The first loop of the constructor: each row's integral, and their total. */
  method RowIntegrals(f: seq<real>, w: nat, h: nat) returns (rowIntegrals: seq<real>, integral: real)
    requires |f| == w * h
    ensures |rowIntegrals| == h && forall k :: 0 <= k < h ==> rowIntegrals[k] == Sum(Row(f, w, h, k))
    ensures integral == Sum(rowIntegrals)
  {
    rowIntegrals, integral := [], 0.0;
    for i := 0 to h
      invariant |rowIntegrals| == i && forall k :: 0 <= k < i ==> rowIntegrals[k] == Sum(Row(f, w, h, k))
      invariant integral == Sum(rowIntegrals)
    {
      var row := Build(Row(f, w, h, i));
      integral := integral + row.integral;
      assert (rowIntegrals + [row.integral])[..i] == rowIntegrals;
      rowIntegrals := rowIntegrals + [row.integral];
    }
  }

  /** The second loop of the constructor: each row's conditional, built from the `cond` buffer. */
  method Conditionals(f: seq<real>, w: nat, h: nat, sums: seq<real>) returns (conditional: seq<Distribution1D>)
    requires |f| == w * h && h <= |sums|
    ensures |conditional| == h
    ensures forall k :: 0 <= k < h ==> Valid(conditional[k]) && conditional[k].func == Carried(f, w, h, sums, k + 1)
  {
    var cond := Zeros(w);
    conditional := [];
    for y := 0 to h
      invariant |conditional| == y && cond == Carried(f, w, h, sums, y)
      invariant forall k :: 0 <= k < y ==> Valid(conditional[k]) && conditional[k].func == Carried(f, w, h, sums, k + 1)
    {
      cond := NextCond(f, w, h, sums, y, cond);
      var c := Build(cond);
      conditional := conditional + [c];
    }
  }

  /** One row of the second loop: overwrite `cond` with row y over its integral unless that is zero. */
  method NextCond(f: seq<real>, w: nat, h: nat, sums: seq<real>, y: nat, cond: seq<real>) returns (next: seq<real>)
    requires |f| == w * h && y < h && h <= |sums| && cond == Carried(f, w, h, sums, y)
    ensures next == Carried(f, w, h, sums, y + 1)
  {
    next := cond;
    if sums[y] != 0.0 {
      var row := Row(f, w, h, y);
      for x := 0 to w
        invariant |next| == w && forall j :: 0 <= j < x ==> next[j] == row[j] / sums[y]
      {
        next := next[x := row[x] / sums[y]];
      }
      assert next == DivideAll(row, sums[y]);
    }
  }

  /** integral(): the stored total, which is the sum of all w * h values and the marginal's integral. */
  function Integral2D(d: Distribution2D, ghost f: seq<real>, ghost w: nat, ghost h: nat): (r: real)
    requires Valid2D(d, f, w, h)
    ensures r == Sum(f) && r == d.marginal.integral
  {
    GridSum(d, f, w, h);
    d.integral
  }

  lemma GridSum(d: Distribution2D, f: seq<real>, w: nat, h: nat)
    requires Valid2D(d, f, w, h)
    ensures d.integral == Sum(f) && d.integral == d.marginal.integral
  {
    RowsSum(f, w, h, d.marginal.func, h);
    assert d.marginal.func[..h] == d.marginal.func;
    assert f[..h * w] == f;
  }

  /**
   * The marginal has one entry per row and the first conditional one per
   * column, a grid with rows has cells exactly when it has columns, and the
   * total is the grid's sum.
   */
  lemma GridCells(d: Distribution2D, f: seq<real>, w: nat, h: nat)
    requires Valid2D(d, f, w, h) && h > 0
    ensures |d.marginal.func| * |d.conditional[0].func| == h * w
    ensures h * w == 0 <==> w == 0
    ensures d.integral == Sum(f)
  {
    GridSum(d, f, w, h);
    assert |d.conditional[0].func| == w;
    if w > 0 {
      assert h * w >= w;
    }
  }

  /** unit_integral(): the total over the h * w cells; an empty row width divides by zero. */
  function UnitIntegral2D(d: Distribution2D, ghost f: seq<real>, w: nat, h: nat): (r: Option<real>)
    requires Valid2D(d, f, w, h) && h > 0
    ensures r.Some? <==> w > 0
    ensures r == Quotient(Sum(f), (h * w) as real)
  {
    GridCells(d, f, w, h);
    Quotient(d.integral, (|d.marginal.func| * |d.conditional[0].func|) as real)
  }

  /**
   * sample_01(sample) of the 2D distribution: draw y from the marginal,
   * then x from the conditional of the row that y scaled by h and truncated
   * falls in; the density is the product of the two.
   */
  method Sample2D(d: Distribution2D, ghost f: seq<real>, w: nat, h: nat, sx: real, sy: real)
    returns (x: real, y: real, pdf: real, ghost row: nat, ghost pdfX: real, ghost pdfY: real, ghost bucketX: nat, ghost bucketY: nat)
    requires Valid2D(d, f, w, h) && w > 0 && h > 0
    requires 0.0 <= sx < 1.0 && 0.0 <= sy < 1.0
    ensures 0.0 <= x < 1.0 && 0.0 <= y < 1.0
    ensures row < h && row == Bucket(y, h)
    ensures Drawn(d.marginal, sy, y, pdfY, bucketY)
    ensures Drawn(d.conditional[row], sx, x, pdfX, bucketX)
    ensures pdf == pdfX * pdfY
  {
    var ySample, yPdf;
    ySample, yPdf, bucketY := Sample01(d.marginal, sy);
    DrawnRange(d.marginal, sy, ySample, yPdf, bucketY);
    var r := Bucket(ySample, |d.conditional|);
    var xSample, xPdf;
    xSample, xPdf, bucketX := Sample01(d.conditional[r], sx);
    DrawnRange(d.conditional[r], sx, xSample, xPdf, bucketX);
    x, y, pdf := xSample, ySample, xPdf * yPdf;
    row, pdfX, pdfY := r, xPdf, yPdf;
  }

  /**
   * The row a 2D sample lands in always has mass, so the `cond` buffer a
   * zero row inherits is never drawn from: the marginal's bucket holding the
   * sample has a positive cdf step, its row sum is not zero, and that row's
   * conditional sums to 1.
   */
  lemma SampledRowHasMass(d: Distribution2D, f: seq<real>, w: nat, h: nat, sy: real, y: real, pdfY: real, bucketY: nat)
    requires Valid2D(d, f, w, h) && h > 0 && 0.0 <= sy < 1.0 && d.marginal.integral != 0.0
    requires Drawn(d.marginal, sy, y, pdfY, bucketY)
    ensures bucketY < h && Bucket(y, h) == bucketY
    ensures d.marginal.func[bucketY] != 0.0 && Sum(d.conditional[bucketY].func) == 1.0
  {
    BucketMass(d.marginal, bucketY);
    ConditionalNormalised(f, w, h, d.marginal.func, bucketY);
  }

  /** A row with a non-zero integral gets a conditional whose values sum to 1. */
  lemma ConditionalNormalised(f: seq<real>, w: nat, h: nat, sums: seq<real>, y: nat)
    requires |f| == w * h && y < h && h <= |sums|
    requires sums[y] == Sum(Row(f, w, h, y)) && sums[y] != 0.0
    ensures Sum(Carried(f, w, h, sums, y + 1)) == 1.0
  {
    var row := Row(f, w, h, y);
    assert Carried(f, w, h, sums, y + 1) == DivideAll(row, sums[y]);
    SumDivide(row, sums[y]);
    WholeShare(row);
    assert row[..|row|] == row;
  }
}
