/** The weighted statistics of data_calibrator.py (`m`, `cov`, `corr`,
    `wls`) over exact reals. numpy's vector expressions become recursive
    sums; `np.sqrt` is a parameter `sqrt`, and the facts that need it to be
    the square root assume `IsSqrt(sqrt)`. */
module Stats {

  /** `np.sum(xs)`. */
  function Sum(xs: seq<real>): real {
    SumFrom(xs, 0)
  }

  /** The sum of `xs[i..]`. */
  function SumFrom(xs: seq<real>, i: nat): real
    requires i <= |xs|
    decreases |xs| - i, 1
  {
    if i == |xs| then 0.0 else SumAt(xs, i)
  }

  /** The sum of `xs[i..]` when it has a first element. */
  function SumAt(xs: seq<real>, i: nat): real
    requires i < |xs|
    decreases |xs| - i, 0
  {
    xs[i] + SumFrom(xs, i + 1)
  }

  /** The element-wise product `x * w`. */
  function Times(x: seq<real>, w: seq<real>): (r: seq<real>)
    requires |x| == |w|
    ensures |r| == |x| && forall k :: 0 <= k < |x| ==> r[k] == x[k] * w[k]
  {
    seq(|x|, k requires 0 <= k < |x| => x[k] * w[k])
  }

  /** `np.sum(x * w)`. */
  function Dot(x: seq<real>, w: seq<real>): real
    requires |x| == |w|
  {
    Sum(Times(x, w))
  }

  /** The element-wise `w * (x - a) * (y - b)`. */
  function CoTerms(x: seq<real>, y: seq<real>, w: seq<real>, a: real, b: real): (r: seq<real>)
    requires |x| == |y| == |w|
    ensures |r| == |x| && forall k :: 0 <= k < |x| ==> r[k] == w[k] * (x[k] - a) * (y[k] - b)
  {
    seq(|x|, k requires 0 <= k < |x| => w[k] * (x[k] - a) * (y[k] - b))
  }

  /** `np.sum(w * (x - a) * (y - b))`. */
  function CoSum(x: seq<real>, y: seq<real>, w: seq<real>, a: real, b: real): real
    requires |x| == |y| == |w|
  {
    Sum(CoTerms(x, y, w, a, b))
  }

  predicate Positive(w: seq<real>) {
    forall i :: 0 <= i < |w| ==> w[i] > 0.0
  }

  /** `m(x, w)`: the weighted mean. */
  function M(x: seq<real>, w: seq<real>): real
    requires |x| == |w| && Sum(w) != 0.0
  {
    Dot(x, w) / Sum(w)
  }

  /** `cov(x, y, w)`: the weighted covariance. */
  function Cov(x: seq<real>, y: seq<real>, w: seq<real>): real
    requires |x| == |y| == |w| && Sum(w) != 0.0
  {
    CoSum(x, y, w, M(x, w), M(y, w)) / Sum(w)
  }

  /** The square of `corr(x, y, w)` written without a square root. */
  function RSquared(x: seq<real>, y: seq<real>, w: seq<real>): real
    requires |x| == |y| == |w| && Sum(w) != 0.0
    requires Cov(x, x, w) * Cov(y, y, w) != 0.0
  {
    Cov(x, y, w) * Cov(x, y, w) / (Cov(x, x, w) * Cov(y, y, w))
  }

  /** `sqrt` is the non-negative square root on the non-negative reals. */
  ghost predicate IsSqrt(sqrt: real -> real) {
    forall t :: 0.0 <= t ==> 0.0 <= sqrt(t) && sqrt(t) * sqrt(t) == t
  }

  /** `corr(x, y, w)`: `cov(x, y, w) / np.sqrt(cov(x, x, w) * cov(y, y, w))`. */
  function Corr(x: seq<real>, y: seq<real>, w: seq<real>, sqrt: real -> real): real
    requires |x| == |y| == |w| && Sum(w) != 0.0
    requires sqrt(Cov(x, x, w) * Cov(y, y, w)) != 0.0
  {
    Cov(x, y, w) / sqrt(Cov(x, x, w) * Cov(y, y, w))
  }

  /** A vector of ones: the weights under which a weighted statistic is
      numpy's unweighted one. */
  function Ones(n: nat): (r: seq<real>)
    ensures |r| == n && Positive(r)
    ensures forall i :: 0 <= i < n ==> r[i] == 1.0
  {
    seq(n, i => 1.0)
  }

  /** `np.var(x)`: the population variance. */
  function PopVar(x: seq<real>): real
    requires |x| > 0
  {
    SumOnes(|x|);
    Cov(x, x, Ones(|x|))
  }

  /** `np.mean(x)`: the plain mean. */
  function Mean(x: seq<real>): real
    requires |x| > 0
  {
    SumOnes(|x|);
    M(x, Ones(|x|))
  }

  /** `np.std(x)`: the population standard deviation. */
  function Std(x: seq<real>, sqrt: real -> real): real
    requires |x| > 0
  {
    sqrt(PopVar(x))
  }

  /** What `wls` returns. */
  datatype Fit = Fit(slope: real, intercept: real, r2: real)

  /** `wls(x, y, w)` as written: the weighted correlation, rescaled by the
      UNWEIGHTED standard deviations, gives the slope; the intercept puts the
      line through the weighted centroid; r² is the correlation squared. */
  function Wls(x: seq<real>, y: seq<real>, w: seq<real>, sqrt: real -> real): (f: Fit)
    requires |x| == |y| == |w| > 0 && Sum(w) != 0.0
    requires sqrt(Cov(x, x, w) * Cov(y, y, w)) != 0.0
    requires Std(x, sqrt) != 0.0
    ensures f.intercept + f.slope * M(x, w) == M(y, w)
  {
    var c := Corr(x, y, w, sqrt);
    var slope := c * Std(y, sqrt) / Std(x, sqrt);
    Fit(slope, M(y, w) - M(x, w) * slope, c * c)
  }

  /** The weighted least-squares line: slope `cov(x, y, w) / cov(x, x, w)`,
      through the weighted centroid, with the same r². */
  function WlsFixed(x: seq<real>, y: seq<real>, w: seq<real>): (f: Fit)
    requires |x| == |y| == |w| > 0 && Sum(w) != 0.0
    requires Cov(x, x, w) * Cov(y, y, w) != 0.0
    ensures f.intercept + f.slope * M(x, w) == M(y, w)
  {
    var slope := Cov(x, y, w) / Cov(x, x, w);
    Fit(slope, M(y, w) - M(x, w) * slope, RSquared(x, y, w))
  }

  /** `z` is `a * x + b`, element by element. */
  predicate Collinear(z: seq<real>, x: seq<real>, a: real, b: real) {
    |z| == |x| && forall i :: 0 <= i < |x| ==> z[i] == a * x[i] + b
  }

  // ---------------------------------------------------------------------
  // Arithmetic steps, each proved on its own

  lemma DivScale(e: real, a: real, p: real, s: real)
    requires s != 0.0 && e == a * p
    ensures e / s == a * (p / s)
  {
    var q := p / s;
    assert p == q * s;
    assert e == (a * q) * s;
  }

  lemma DivCancel(p: real, c: real, n: real)
    requires c != 0.0 && n != 0.0
    ensures (c * p) / (c * n) == p / n
  {
    var q := p / n;
    assert p == q * n;
    assert c * p == q * (c * n);
  }

  lemma DivOfDivs(p: real, q: real, s: real)
    requires s != 0.0 && q != 0.0
    ensures (p / s) / (q / s) == p / q
  {
    var r := p / q;
    assert p == r * q;
    assert p / s == r * (q / s);
  }

  lemma MeanOfCombination(e: real, d: real, s: real, a: real, b: real)
    requires s != 0.0 && e == a * d + b * s
    ensures e / s == a * (d / s) + b
  {
    var q := d / s;
    assert d == q * s;
    assert e == (a * q + b) * s;
  }

  lemma MulDiv(d: real, s: real)
    requires s != 0.0
    ensures (d / s) * s == d
  {
  }

  lemma DivEq(p: real, s: real, q: real)
    requires s != 0.0 && p == q * s
    ensures p / s == q
  {
  }

  /** The square of `c / s` when `s * s == p`. */
  lemma QuotSquare(c: real, s: real, p: real)
    requires s != 0.0 && p != 0.0 && s * s == p
    ensures (c / s) * (c / s) == (c * c) / p
  {
    var q := c / s;
    assert q * s == c;
    assert c * c == (q * q) * (s * s);
    DivEq(c * c, p, q * q);
  }

  lemma MulPos(a: real, b: real)
    requires a > 0.0 && b > 0.0
    ensures a * b > 0.0
  {
  }

  lemma MulNeg(a: real, b: real)
    requires a < 0.0 && b < 0.0
    ensures a * b > 0.0
  {
    assert (-a) * (-b) > 0.0;
  }

  /** Adding a weighted square `wi * d * d` to a non-negative `r`. */
  lemma AddSquareTerm(wi: real, d: real, r: real)
    requires wi > 0.0 && r >= 0.0
    ensures wi * d * d + r >= 0.0
    ensures d != 0.0 || r > 0.0 ==> wi * d * d + r > 0.0
  {
    if d > 0.0 {
      MulPos(wi * d, d);
    } else if d < 0.0 {
      MulNeg(wi * d, d);
    }
  }

  /** `d / s` when `d` and `s` are both `c` times something. */
  lemma RatioOfScaled(d: real, s: real, c: real, sx: real, n: real)
    requires c != 0.0 && n != 0.0 && d == c * sx && s == c * n
    ensures s != 0.0 && d / s == sx / n
  {
    DivCancel(sx, c, n);
  }

  lemma MulZero(t: real, p: real)
    requires p == 0.0
    ensures t * p == 0.0
  {
  }

  // ---------------------------------------------------------------------
  // Sums: linearity and sign, the only facts proved by induction

  /** `z` is `p * u + q * v`, element by element. */
  ghost predicate Combination(z: seq<real>, u: seq<real>, v: seq<real>, p: real, q: real) {
    |u| == |v| == |z| && forall k :: 0 <= k < |z| ==> z[k] == p * u[k] + q * v[k]
  }

  /** `z` is `p * u + q * v + s * t`, element by element. */
  ghost predicate Combination3(z: seq<real>, u: seq<real>, v: seq<real>, t: seq<real>, p: real, q: real, s: real) {
    |u| == |v| == |t| == |z| && forall k :: 0 <= k < |z| ==> z[k] == p * u[k] + q * v[k] + s * t[k]
  }

  /** `z` is `p * u`, element by element. */
  ghost predicate Scaled(z: seq<real>, u: seq<real>, p: real) {
    |u| == |z| && forall k :: 0 <= k < |z| ==> z[k] == p * u[k]
  }

  /** `r` is `e + d`, element by element. */
  ghost predicate Shifted(r: seq<real>, e: seq<real>, d: real) {
    |r| == |e| && forall k :: 0 <= k < |r| ==> r[k] == e[k] + d
  }

  ghost predicate Constant(z: seq<real>, c: real) {
    forall k :: 0 <= k < |z| ==> z[k] == c
  }

  ghost predicate Nonneg(z: seq<real>) {
    forall k :: 0 <= k < |z| ==> z[k] >= 0.0
  }

  lemma LinearStep(zi: real, ui: real, vi: real, p: real, q: real, z: real, u: real, v: real)
    requires zi == p * ui + q * vi && z == p * u + q * v
    ensures zi + z == p * (ui + u) + q * (vi + v)
  {
  }

  lemma SumLinearStep(u: seq<real>, v: seq<real>, z: seq<real>, p: real, q: real, i: nat)
    requires |u| == |v| == |z| && i < |z| && z[i] == p * u[i] + q * v[i]
    requires SumFrom(z, i + 1) == p * SumFrom(u, i + 1) + q * SumFrom(v, i + 1)
    ensures SumFrom(z, i) == p * SumFrom(u, i) + q * SumFrom(v, i)
  {
    LinearStep(z[i], u[i], v[i], p, q, SumFrom(z, i + 1), SumFrom(u, i + 1), SumFrom(v, i + 1));
  }

  lemma {:induction false} SumLinearFrom(u: seq<real>, v: seq<real>, z: seq<real>, p: real, q: real, i: nat)
    requires Combination(z, u, v, p, q) && i <= |z|
    ensures SumFrom(z, i) == p * SumFrom(u, i) + q * SumFrom(v, i)
    decreases |z| - i
  {
    if i == |z| {
      MulZero(p, SumFrom(u, i));
      MulZero(q, SumFrom(v, i));
    } else {
      SumLinearFrom(u, v, z, p, q, i + 1);
      SumLinearStep(u, v, z, p, q, i);
    }
  }

  /** The sum of `p * u + q * v` is `p * Sum(u) + q * Sum(v)`. */
  lemma SumLinear(u: seq<real>, v: seq<real>, z: seq<real>, p: real, q: real)
    requires Combination(z, u, v, p, q)
    ensures Sum(z) == p * Sum(u) + q * Sum(v)
  {
    SumLinearFrom(u, v, z, p, q, 0);
  }

  /** The sum of `p * u + q * v + s * t`. */
  lemma SumLinear3(u: seq<real>, v: seq<real>, t: seq<real>, z: seq<real>, p: real, q: real, s: real)
    requires Combination3(z, u, v, t, p, q, s)
    ensures Sum(z) == p * Sum(u) + q * Sum(v) + s * Sum(t)
  {
    var h := seq(|z|, k requires 0 <= k < |z| => p * u[k] + q * v[k]);
    SumLinear(u, v, h, p, q);
    SumLinear(h, t, z, 1.0, s);
  }

  /** The sum of `p * u` is `p * Sum(u)`. */
  lemma SumScale(u: seq<real>, z: seq<real>, p: real)
    requires Scaled(z, u, p)
    ensures Sum(z) == p * Sum(u)
  {
    SumLinear(u, u, z, p, 0.0);
  }

  lemma {:induction false} SumConstFrom(z: seq<real>, c: real, i: nat)
    requires i <= |z|
    requires Constant(z, c)
    ensures SumFrom(z, i) == c * (|z| - i) as real
    decreases |z| - i
  {
    if i < |z| {
      SumConstFrom(z, c, i + 1);
      assert SumFrom(z, i) == z[i] + SumFrom(z, i + 1);
      assert z[i] == c;
      var n := (|z| - (i + 1)) as real;
      assert n + 1.0 == (|z| - i) as real;
      UniformStep(c, n);
      calc {
        SumFrom(z, i);
        c + c * n;
        c * (n + 1.0);
        c * (|z| - i) as real;
      }
    }
  }

  /** `n` copies of `c` sum to `c * n`. */
  lemma SumConst(z: seq<real>, c: real)
    requires Constant(z, c)
    ensures Sum(z) == c * |z| as real
  {
    SumConstFrom(z, c, 0);
  }

  lemma {:induction false} SumNonnegFrom(z: seq<real>, i: nat)
    requires i <= |z|
    requires Nonneg(z)
    ensures SumFrom(z, i) >= 0.0
    decreases |z| - i
  {
    if i < |z| {
      SumNonnegFrom(z, i + 1);
    }
  }

  lemma {:induction false} SumPositiveFrom(z: seq<real>, j: nat, i: nat)
    requires i <= j < |z|
    requires Nonneg(z)
    requires z[j] > 0.0
    ensures SumFrom(z, i) > 0.0
    decreases |z| - i
  {
    if i == j {
      SumNonnegFrom(z, i + 1);
    } else {
      SumPositiveFrom(z, j, i + 1);
    }
  }

  /** Non-negative summands with a positive one have a positive sum. */
  lemma SumPositiveAt(z: seq<real>, j: nat)
    requires j < |z|
    requires Nonneg(z)
    requires z[j] > 0.0
    ensures Sum(z) > 0.0
  {
    SumPositiveFrom(z, j, 0);
  }

  /** Non-negative summands have a non-negative sum. */
  lemma SumNonneg(z: seq<real>)
    requires Nonneg(z)
    ensures Sum(z) >= 0.0
  {
    SumNonnegFrom(z, 0);
  }

  /** The sum of two pieces is the sum of the pieces' sums. */
  lemma SumConcat(a: seq<real>, b: seq<real>)
    ensures Sum(a + b) == Sum(a) + Sum(b)
  {
    SumFromConcat(a, b, 0);
  }

  lemma {:induction false} SumFromConcat(a: seq<real>, b: seq<real>, i: nat)
    requires i <= |a|
    ensures SumFrom(a + b, i) == SumFrom(a, i) + Sum(b)
    decreases |a| - i
  {
    if i == |a| {
      SumFromSuffix(a, b, 0);
    } else {
      assert (a + b)[i] == a[i];
      SumFromConcat(a, b, i + 1);
    }
  }

  lemma {:induction false} SumFromSuffix(a: seq<real>, b: seq<real>, j: nat)
    requires j <= |b|
    ensures SumFrom(a + b, |a| + j) == SumFrom(b, j)
    decreases |b| - j
  {
    if j < |b| {
      assert (a + b)[|a| + j] == b[j];
      SumFromSuffix(a, b, j + 1);
    }
  }

  // ---------------------------------------------------------------------
  // Means

  lemma UniformStep(c: real, n: real)
    ensures c + c * n == c * (n + 1.0)
  {
  }

  lemma SumOnes(n: nat)
    ensures Sum(Ones(n)) == n as real
  {
    SumConst(Ones(n), 1.0);
  }

  /** Positive weights have a positive total. */
  lemma SumPositive(w: seq<real>)
    requires Positive(w) && w != []
    ensures Sum(w) > 0.0
  {
    SumPositiveAt(w, 0);
  }

  /** `m(x, w)` with all weights equal and non-zero is the arithmetic mean. */
  lemma MUniform(x: seq<real>, w: seq<real>, c: real)
    requires |x| == |w| > 0 && c != 0.0
    requires forall i :: 0 <= i < |w| ==> w[i] == c
    ensures Sum(w) != 0.0 && M(x, w) == Sum(x) / |x| as real
  {
    UniformTimes(x, w, c);
    SumScale(x, Times(x, w), c);
    SumConst(w, c);
    RatioOfScaled(Dot(x, w), Sum(w), c, Sum(x), |x| as real);
  }

  lemma UniformTimes(x: seq<real>, w: seq<real>, c: real)
    requires |x| == |w| && forall i :: 0 <= i < |w| ==> w[i] == c
    ensures Scaled(Times(x, w), x, c)
  {
  }

  lemma AffineProduct(zi: real, xi: real, wi: real, a: real, b: real)
    requires zi == a * xi + b
    ensures zi * wi == a * (xi * wi) + b * wi
  {
  }

  lemma TimesAffine(z: seq<real>, x: seq<real>, w: seq<real>, a: real, b: real)
    requires Collinear(z, x, a, b) && |x| == |w|
    ensures Combination(Times(z, w), Times(x, w), w, a, b)
  {
    forall k | 0 <= k < |x|
      ensures Times(z, w)[k] == a * Times(x, w)[k] + b * w[k]
    {
      AffineProduct(z[k], x[k], w[k], a, b);
    }
  }

  /** `np.sum((a * x + b) * w)` is `a * np.sum(x * w) + b * np.sum(w)`. */
  lemma DotAffine(z: seq<real>, x: seq<real>, w: seq<real>, a: real, b: real)
    requires Collinear(z, x, a, b) && |x| == |w|
    ensures Dot(z, w) == a * Dot(x, w) + b * Sum(w)
  {
    TimesAffine(z, x, w, a, b);
    SumLinear(Times(x, w), w, Times(z, w), a, b);
  }

  /** The weighted mean moves with an affine change of the data. */
  lemma MAffine(z: seq<real>, x: seq<real>, w: seq<real>, a: real, b: real)
    requires Collinear(z, x, a, b) && |x| == |w| && Sum(w) != 0.0
    ensures M(z, w) == a * M(x, w) + b
  {
    DotAffine(z, x, w, a, b);
    MeanOfCombination(Dot(z, w), Dot(x, w), Sum(w), a, b);
  }

  // ---------------------------------------------------------------------
  // Covariance

  /** A centred sum is symmetric in its two variables. */
  lemma CoSumSwap(x: seq<real>, y: seq<real>, w: seq<real>, a: real, b: real)
    requires |x| == |y| == |w|
    ensures CoSum(x, y, w, a, b) == CoSum(y, x, w, b, a)
  {
    CoTermsSwap(x, y, w, a, b);
  }

  lemma CoTermsSwap(x: seq<real>, y: seq<real>, w: seq<real>, a: real, b: real)
    requires |x| == |y| == |w|
    ensures CoTerms(x, y, w, a, b) == CoTerms(y, x, w, b, a)
  {
    forall k | 0 <= k < |x|
      ensures CoTerms(x, y, w, a, b)[k] == CoTerms(y, x, w, b, a)[k]
    {
      assert w[k] * (x[k] - a) * (y[k] - b) == w[k] * (y[k] - b) * (x[k] - a);
    }
  }

  /** `cov(x, y, w) == cov(y, x, w)`. */
  lemma CovSymmetric(x: seq<real>, y: seq<real>, w: seq<real>)
    requires |x| == |y| == |w| && Sum(w) != 0.0
    ensures Cov(x, y, w) == Cov(y, x, w)
  {
    CoSumSwap(x, y, w, M(x, w), M(y, w));
  }

  lemma AffineTerm(wi: real, zi: real, xi: real, yi: real, a: real, mx: real, mz: real, my: real)
    requires zi - mz == a * (xi - mx)
    ensures wi * (zi - mz) * (yi - my) == a * (wi * (xi - mx) * (yi - my))
  {
  }

  /** Replacing `x` by `a * x + b` (and its centre likewise) scales a
      centred sum by `a`. */
  lemma CoSumAffine(z: seq<real>, x: seq<real>, y: seq<real>, w: seq<real>,
                    a: real, b: real, mx: real, mz: real, my: real)
    requires Collinear(z, x, a, b) && |x| == |y| == |w| && mz == a * mx + b
    ensures CoSum(z, y, w, mz, my) == a * CoSum(x, y, w, mx, my)
  {
    AffineTerms(z, x, y, w, a, b, mx, mz, my);
    SumScale(CoTerms(x, y, w, mx, my), CoTerms(z, y, w, mz, my), a);
  }

  lemma AffineTerms(z: seq<real>, x: seq<real>, y: seq<real>, w: seq<real>,
                    a: real, b: real, mx: real, mz: real, my: real)
    requires Collinear(z, x, a, b) && |x| == |y| == |w| && mz == a * mx + b
    ensures Scaled(CoTerms(z, y, w, mz, my), CoTerms(x, y, w, mx, my), a)
  {
    forall k | 0 <= k < |x|
      ensures CoTerms(z, y, w, mz, my)[k] == a * CoTerms(x, y, w, mx, my)[k]
    {
      AffineTermAt(z, x, y, w, a, b, mx, mz, my, k);
    }
  }

  lemma AffineTermAt(z: seq<real>, x: seq<real>, y: seq<real>, w: seq<real>,
                     a: real, b: real, mx: real, mz: real, my: real, k: nat)
    requires Collinear(z, x, a, b) && |x| == |y| == |w| && mz == a * mx + b && k < |x|
    ensures CoTerms(z, y, w, mz, my)[k] == a * CoTerms(x, y, w, mx, my)[k]
  {
    AffineDiff(z[k], x[k], a, b, mx, mz);
    AffineTerm(w[k], z[k], x[k], y[k], a, mx, mz, my);
  }

  lemma AffineDiff(zi: real, xi: real, a: real, b: real, mx: real, mz: real)
    requires zi == a * xi + b && mz == a * mx + b
    ensures zi - mz == a * (xi - mx)
  {
  }

  /** Rescaling `x` to `a * x + b` scales `cov(x, y, w)` by `a`. */
  lemma CovAffine(z: seq<real>, x: seq<real>, y: seq<real>, w: seq<real>, a: real, b: real)
    requires Collinear(z, x, a, b) && |x| == |y| == |w| && Sum(w) != 0.0
    ensures Cov(z, y, w) == a * Cov(x, y, w)
  {
    MAffine(z, x, w, a, b);
    CoSumAffine(z, x, y, w, a, b, M(x, w), M(z, w), M(y, w));
    DivScale(CoSum(z, y, w, M(z, w), M(y, w)), a, CoSum(x, y, w, M(x, w), M(y, w)), Sum(w));
  }

  /** `cov` is unchanged when a constant is added to every x. */
  lemma CovShift(z: seq<real>, x: seq<real>, y: seq<real>, w: seq<real>, c: real)
    requires Collinear(z, x, 1.0, c) && |x| == |y| == |w| && Sum(w) != 0.0
    ensures Cov(z, y, w) == Cov(x, y, w)
  {
    CovAffine(z, x, y, w, 1.0, c);
  }

  /** `cov` is unchanged when a constant is added to every y. */
  lemma CovShiftRight(z: seq<real>, x: seq<real>, y: seq<real>, w: seq<real>, c: real)
    requires Collinear(z, y, 1.0, c) && |x| == |y| == |w| && Sum(w) != 0.0
    ensures Cov(x, z, w) == Cov(x, y, w)
  {
    CovSymmetric(x, z, w);
    CovShift(z, y, x, w, c);
    CovSymmetric(x, y, w);
  }

  /** Rescaling a variable by `a` scales its self-covariance by `a²`. */
  lemma CovSelfAffine(z: seq<real>, x: seq<real>, w: seq<real>, a: real, b: real)
    requires Collinear(z, x, a, b) && |x| == |w| && Sum(w) != 0.0
    ensures Cov(x, z, w) == a * Cov(x, x, w)
    ensures Cov(z, z, w) == a * a * Cov(x, x, w)
  {
    CovAffine(z, x, z, w, a, b);
    CovSymmetric(x, z, w);
    CovAffine(z, x, x, w, a, b);
  }

  /** With positive weights a centred sum of squares is non-negative. */
  lemma CoSumSelfNonneg(x: seq<real>, w: seq<real>, m: real)
    requires |x| == |w| && Positive(w)
    ensures CoSum(x, x, w, m, m) >= 0.0
  {
    SquareTermsNonneg(x, w, m);
    SumNonneg(CoTerms(x, x, w, m, m));
  }

  lemma SquareTermsNonneg(x: seq<real>, w: seq<real>, m: real)
    requires |x| == |w| && Positive(w)
    ensures Nonneg(CoTerms(x, x, w, m, m))
  {
    forall k | 0 <= k < |x|
      ensures CoTerms(x, x, w, m, m)[k] >= 0.0
    {
      AddSquareTerm(w[k], x[k] - m, 0.0);
    }
  }

  /** ... and positive when some value differs from the centre. */
  lemma CoSumSelfPositive(x: seq<real>, w: seq<real>, m: real, j: nat)
    requires |x| == |w| && Positive(w) && j < |x| && x[j] != m
    ensures CoSum(x, x, w, m, m) > 0.0
  {
    SquareTermsNonneg(x, w, m);
    AddSquareTerm(w[j], x[j] - m, 0.0);
    SumPositiveAt(CoTerms(x, x, w, m, m), j);
  }

  /** With strictly positive weights `cov(x, x, w) >= 0`. */
  lemma CovSelfNonneg(x: seq<real>, w: seq<real>)
    requires |x| == |w| > 0 && Positive(w)
    ensures Sum(w) > 0.0 && Cov(x, x, w) >= 0.0
  {
    SumPositive(w);
    CoSumSelfNonneg(x, w, M(x, w));
  }

  /** Data that is not constant has a positive self-covariance under
      positive weights. */
  lemma CovSelfPositive(x: seq<real>, w: seq<real>, i: nat, j: nat)
    requires |x| == |w| && Positive(w) && i < |x| && j < |x| && x[i] != x[j]
    ensures Sum(w) > 0.0 && Cov(x, x, w) > 0.0
  {
    SumPositive(w);
    var m := M(x, w);
    if x[i] != m {
      CoSumSelfPositive(x, w, m, i);
    } else {
      CoSumSelfPositive(x, w, m, j);
    }
  }

  // ---------------------------------------------------------------------
  // Cauchy-Schwarz and the range of r²

  /** `r` holds the residuals `(x - mx) - t * (y - my)`. */
  predicate Residual(r: seq<real>, x: seq<real>, y: seq<real>, mx: real, my: real, t: real) {
    |r| == |x| == |y| && forall k :: 0 <= k < |x| ==> r[k] == (x[k] - mx) - t * (y[k] - my)
  }

  lemma ExpandTerm(wi: real, ri: real, u: real, v: real, t: real)
    requires ri == u - t * v
    ensures wi * (ri - 0.0) * (ri - 0.0)
         == 1.0 * (wi * u * u) + (-2.0 * t) * (wi * u * v) + (t * t) * (wi * v * v)
  {
  }

  /** The weighted sum of squared residuals expands into centred sums. */
  lemma DevExpand(r: seq<real>, x: seq<real>, y: seq<real>, w: seq<real>, mx: real, my: real, t: real)
    requires Residual(r, x, y, mx, my, t) && |x| == |w|
    ensures CoSum(r, r, w, 0.0, 0.0)
         == CoSum(x, x, w, mx, mx) - 2.0 * t * CoSum(x, y, w, mx, my) + t * t * CoSum(y, y, w, my, my)
  {
    ExpandTerms(r, x, y, w, mx, my, t);
    SumLinear3(CoTerms(x, x, w, mx, mx), CoTerms(x, y, w, mx, my), CoTerms(y, y, w, my, my),
               CoTerms(r, r, w, 0.0, 0.0), 1.0, -2.0 * t, t * t);
    ExpandStep(CoSum(r, r, w, 0.0, 0.0), CoSum(x, x, w, mx, mx), CoSum(x, y, w, mx, my), CoSum(y, y, w, my, my), t);
  }

  lemma ExpandStep(q: real, a: real, b: real, c: real, t: real)
    requires q == 1.0 * a + (-2.0 * t) * b + (t * t) * c
    ensures q == a - 2.0 * t * b + t * t * c
  {
  }

  lemma ExpandTerms(r: seq<real>, x: seq<real>, y: seq<real>, w: seq<real>, mx: real, my: real, t: real)
    requires Residual(r, x, y, mx, my, t) && |x| == |w|
    ensures Combination3(CoTerms(r, r, w, 0.0, 0.0), CoTerms(x, x, w, mx, mx), CoTerms(x, y, w, mx, my),
                         CoTerms(y, y, w, my, my), 1.0, -2.0 * t, t * t)
  {
    forall k | 0 <= k < |x|
      ensures CoTerms(r, r, w, 0.0, 0.0)[k]
           == 1.0 * CoTerms(x, x, w, mx, mx)[k] + (-2.0 * t) * CoTerms(x, y, w, mx, my)[k]
              + (t * t) * CoTerms(y, y, w, my, my)[k]
    {
      ExpandTermAt(r, x, y, w, mx, my, t, k);
    }
  }

  lemma ExpandTermAt(r: seq<real>, x: seq<real>, y: seq<real>, w: seq<real>, mx: real, my: real, t: real, k: nat)
    requires Residual(r, x, y, mx, my, t) && |x| == |w| && k < |x|
    ensures CoTerms(r, r, w, 0.0, 0.0)[k]
         == 1.0 * CoTerms(x, x, w, mx, mx)[k] + (-2.0 * t) * CoTerms(x, y, w, mx, my)[k]
            + (t * t) * CoTerms(y, y, w, my, my)[k]
  {
    ExpandTerm(w[k], r[k], x[k] - mx, y[k] - my, t);
  }

  /** Under positive weights, `a - 2tb + t²c >= 0` for the centred sums. */
  lemma Quadratic(x: seq<real>, y: seq<real>, w: seq<real>, mx: real, my: real, t: real)
    requires |x| == |y| == |w| && Positive(w)
    ensures CoSum(x, x, w, mx, mx) - 2.0 * t * CoSum(x, y, w, mx, my) + t * t * CoSum(y, y, w, my, my) >= 0.0
  {
    var r := seq(|x|, k requires 0 <= k < |x| => (x[k] - mx) - t * (y[k] - my));
    DevExpand(r, x, y, w, mx, my, t);
    CoSumSelfNonneg(r, w, 0.0);
  }

  lemma QuadraticBound(a: real, b: real, c: real, t: real)
    requires c > 0.0 && t == b / c
    requires a - 2.0 * t * b + t * t * c >= 0.0
    ensures b * b <= a * c
  {
    assert b == t * c;
    assert t * t * c == t * b;
    assert a - t * b >= 0.0;
    assert t * b * c == b * b;
    assert (a - t * b) * c >= 0.0;
  }

  /** The weighted Cauchy-Schwarz inequality for centred sums. */
  lemma CauchySchwarz(x: seq<real>, y: seq<real>, w: seq<real>, mx: real, my: real)
    requires |x| == |y| == |w| && Positive(w)
    requires CoSum(y, y, w, my, my) > 0.0
    ensures CoSum(x, y, w, mx, my) * CoSum(x, y, w, mx, my)
         <= CoSum(x, x, w, mx, mx) * CoSum(y, y, w, my, my)
  {
    var a, b, c := CoSum(x, x, w, mx, mx), CoSum(x, y, w, mx, my), CoSum(y, y, w, my, my);
    Quadratic(x, y, w, mx, my, b / c);
    QuadraticBound(a, b, c, b / c);
  }

  lemma RatioAtMostOne(a: real, b: real, c: real)
    requires a > 0.0 && c > 0.0 && b * b <= a * c
    ensures a * c != 0.0
    ensures 0.0 <= b * b / (a * c) <= 1.0
  {
    var p := a * c;
    assert p > 0.0;
    var r := b * b / p;
    assert r * p == b * b;
  }

  lemma NonnegFactor(p: real, s: real)
    requires s != 0.0 && p * (s * s) >= 0.0
    ensures p >= 0.0
  {
    if s > 0.0 {
      assert p * s * s >= 0.0;
      assert p * s >= 0.0;
    } else {
      assert p * s * s >= 0.0;
      assert p * s <= 0.0;
    }
  }

  lemma FactorOut(bb: real, ac: real, cbb: real, cac: real, k: real)
    requires bb == cbb * k && ac == cac * k && bb <= ac
    ensures (cac - cbb) * k >= 0.0
  {
    assert (cac - cbb) * k == ac - bb;
  }

  lemma QuotPos(c: real, s: real, q: real)
    requires s > 0.0 && q == c / s && q > 0.0
    ensures c > 0.0
  {
    assert c == q * s;
  }

  /** Dividing all three centred sums by the same `s` keeps the
      Cauchy-Schwarz inequality. */
  lemma ScaledCauchySchwarz(a: real, b: real, c: real, s: real, ca: real, cb: real, cc: real)
    requires s != 0.0 && ca == a / s && cb == b / s && cc == c / s && b * b <= a * c
    ensures cb * cb <= ca * cc
  {
    assert a == ca * s && b == cb * s && c == cc * s;
    assert b * b == (cb * cb) * (s * s);
    assert a * c == (ca * cc) * (s * s);
    FactorOut(b * b, a * c, cb * cb, ca * cc, s * s);
    NonnegFactor(ca * cc - cb * cb, s);
  }

  /** The weighted Cauchy-Schwarz inequality for `cov`. */
  lemma CovCauchySchwarz(x: seq<real>, y: seq<real>, w: seq<real>)
    requires |x| == |y| == |w| > 0 && Positive(w) && Sum(w) != 0.0 && Cov(y, y, w) != 0.0
    ensures Sum(w) > 0.0 && Cov(y, y, w) > 0.0
    ensures Cov(x, y, w) * Cov(x, y, w) <= Cov(x, x, w) * Cov(y, y, w)
  {
    CovSelfNonneg(y, w);
    var mx, my := M(x, w), M(y, w);
    QuotPos(CoSum(y, y, w, my, my), Sum(w), Cov(y, y, w));
    CauchySchwarz(x, y, w, mx, my);
    ScaledCauchySchwarz(CoSum(x, x, w, mx, mx), CoSum(x, y, w, mx, my), CoSum(y, y, w, my, my), Sum(w),
                        Cov(x, x, w), Cov(x, y, w), Cov(y, y, w));
  }

  /** With strictly positive weights and non-zero self-covariances, the r²
      of `wls` lies in [0, 1]. */
  lemma RSquaredBounds(x: seq<real>, y: seq<real>, w: seq<real>)
    requires |x| == |y| == |w| > 0 && Positive(w) && Sum(w) != 0.0
    requires Cov(x, x, w) != 0.0 && Cov(y, y, w) != 0.0
    ensures Cov(x, x, w) * Cov(y, y, w) != 0.0
    ensures 0.0 <= RSquared(x, y, w) <= 1.0
  {
    CovSelfNonneg(x, w);
    CovCauchySchwarz(x, y, w);
    RatioAtMostOne(Cov(x, x, w), Cov(x, y, w), Cov(y, y, w));
  }

  lemma RatioSelf(p: real, q: real)
    requires p == q && q != 0.0
    ensures p / q == 1.0
  {
  }

  lemma UnitRatio(cxy: real, cxx: real, cyy: real, a: real)
    requires cxx != 0.0 && a != 0.0 && cxy == a * cxx && cyy == a * a * cxx
    ensures cxx * cyy != 0.0
    ensures cxy * cxy / (cxx * cyy) == 1.0
  {
    assert cxy != 0.0;
    assert cxy * cxy == cxx * cyy;
    assert cxy * cxy != 0.0;
    RatioSelf(cxy * cxy, cxx * cyy);
  }

  /** Collinear data `y = a * x + b` with `a != 0` has r² = 1. */
  lemma RSquaredCollinear(x: seq<real>, y: seq<real>, w: seq<real>, a: real, b: real)
    requires Collinear(y, x, a, b) && |x| == |w| && Sum(w) != 0.0 && a != 0.0 && Cov(x, x, w) != 0.0
    ensures Cov(x, x, w) * Cov(y, y, w) != 0.0
    ensures RSquared(x, y, w) == 1.0
  {
    CovSelfAffine(y, x, w, a, b);
    RSquaredUnit(x, y, w, a);
  }

  lemma RSquaredUnit(x: seq<real>, y: seq<real>, w: seq<real>, a: real)
    requires |x| == |y| == |w| && Sum(w) != 0.0 && a != 0.0 && Cov(x, x, w) != 0.0
    requires Cov(x, y, w) == a * Cov(x, x, w) && Cov(y, y, w) == a * a * Cov(x, x, w)
    ensures Cov(x, x, w) * Cov(y, y, w) != 0.0
    ensures RSquared(x, y, w) == 1.0
  {
    UnitRatio(Cov(x, y, w), Cov(x, x, w), Cov(y, y, w), a);
  }

  lemma AffineRatio(cxy: real, cxx: real, cyy: real, a: real, czy: real, czz: real)
    requires a != 0.0 && cxx * cyy != 0.0 && czy == a * cxy && czz == a * a * cxx
    ensures czz * cyy != 0.0
    ensures czy * czy / (czz * cyy) == cxy * cxy / (cxx * cyy)
  {
    var p, q := cxy * cxy, cxx * cyy;
    ScaleSquare(czz, cyy, a, cxx, q);
    SquareScaled(czy, a, cxy, p);
    NonzeroProduct(a, q);
    NonzeroProduct(a, a * q);
    DivCancel(a * p, a, a * q);
    DivCancel(p, a, q);
    DivCongruent(czy * czy, czz * cyy, a * (a * p), a * (a * q));
  }

  lemma ScaleSquare(c: real, d: real, a: real, e: real, q: real)
    requires c == a * a * e && q == e * d
    ensures c * d == a * (a * q)
  {
  }

  lemma SquareScaled(c: real, a: real, e: real, p: real)
    requires c == a * e && p == e * e
    ensures c * c == a * (a * p)
  {
  }

  lemma NonzeroProduct(a: real, b: real)
    requires a != 0.0 && b != 0.0
    ensures a * b != 0.0
  {
  }

  lemma DivCongruent(n: real, d: real, n2: real, d2: real)
    requires n == n2 && d == d2 && d != 0.0
    ensures n / d == n2 / d2
  {
  }

  /** r² does not change when `x` is replaced by `a * x + b`, `a != 0`. */
  lemma RSquaredAffine(z: seq<real>, x: seq<real>, y: seq<real>, w: seq<real>, a: real, b: real)
    requires Collinear(z, x, a, b) && |x| == |y| == |w| && Sum(w) != 0.0 && a != 0.0
    requires Cov(x, x, w) * Cov(y, y, w) != 0.0
    ensures Cov(z, z, w) * Cov(y, y, w) != 0.0
    ensures RSquared(z, y, w) == RSquared(x, y, w)
  {
    CovSelfAffine(z, x, w, a, b);
    CovAffine(z, x, y, w, a, b);
    RSquaredScaled(z, x, y, w, a);
  }

  /** r² from covariances scaled by `a` and `a²`. */
  lemma RSquaredScaled(z: seq<real>, x: seq<real>, y: seq<real>, w: seq<real>, a: real)
    requires |z| == |x| == |y| == |w| && Sum(w) != 0.0 && a != 0.0
    requires Cov(x, x, w) * Cov(y, y, w) != 0.0
    requires Cov(z, y, w) == a * Cov(x, y, w) && Cov(z, z, w) == a * a * Cov(x, x, w)
    ensures Cov(z, z, w) * Cov(y, y, w) != 0.0
    ensures RSquared(z, y, w) == RSquared(x, y, w)
  {
    AffineRatio(Cov(x, y, w), Cov(x, x, w), Cov(y, y, w), a, Cov(z, y, w), Cov(z, z, w));
  }

  // ---------------------------------------------------------------------
  // Square roots

  lemma SqrtUnique(sqrt: real -> real, t: real, u: real)
    requires IsSqrt(sqrt) && 0.0 <= u && u * u == t
    ensures sqrt(t) == u
  {
    var s := sqrt(t);
    assert 0.0 <= s && s * s == t;
    assert (s - u) * (s + u) == 0.0;
    if s + u == 0.0 {
      assert s == 0.0 && u == 0.0;
    }
  }

  lemma SqrtOfZero(sqrt: real -> real)
    requires IsSqrt(sqrt)
    ensures sqrt(0.0) == 0.0
  {
    SqrtUnique(sqrt, 0.0, 0.0);
  }

  lemma SqrtProduct(sqrt: real -> real, p: real, a: real, b: real)
    requires IsSqrt(sqrt) && 0.0 <= a && 0.0 <= b && p == a * b
    ensures sqrt(p) == sqrt(a) * sqrt(b)
  {
    var sa, sb := sqrt(a), sqrt(b);
    assert sa * sa == a && sb * sb == b;
    assert sa * sb >= 0.0;
    assert (sa * sb) * (sa * sb) == (sa * sa) * (sb * sb);
    SqrtUnique(sqrt, p, sa * sb);
  }

  /** `corr(x, y, w)**2` is the square-root-free r². */
  lemma CorrSquared(x: seq<real>, y: seq<real>, w: seq<real>, sqrt: real -> real)
    requires |x| == |y| == |w| && Sum(w) != 0.0
    requires IsSqrt(sqrt) && Cov(x, x, w) * Cov(y, y, w) >= 0.0
    requires sqrt(Cov(x, x, w) * Cov(y, y, w)) != 0.0
    ensures Cov(x, x, w) * Cov(y, y, w) != 0.0
    ensures Corr(x, y, w, sqrt) * Corr(x, y, w, sqrt) == RSquared(x, y, w)
  {
    var p := Cov(x, x, w) * Cov(y, y, w);
    var s := sqrt(p);
    assert s * s == p;
    if p == 0.0 {
      SqrtOfZero(sqrt);
      assert false;
    }
    QuotSquare(Cov(x, y, w), s, p);
  }

  /** The r² that `wls` returns is `RSquared` whenever the product of the
      self-covariances is non-negative (always so for positive weights). */
  lemma WlsRSquared(x: seq<real>, y: seq<real>, w: seq<real>, sqrt: real -> real)
    requires |x| == |y| == |w| > 0 && Sum(w) != 0.0
    requires sqrt(Cov(x, x, w) * Cov(y, y, w)) != 0.0 && Std(x, sqrt) != 0.0
    requires IsSqrt(sqrt) && Cov(x, x, w) * Cov(y, y, w) >= 0.0
    ensures Cov(x, x, w) * Cov(y, y, w) != 0.0
    ensures Wls(x, y, w, sqrt).r2 == RSquared(x, y, w)
  {
    CorrSquared(x, y, w, sqrt);
  }

  // ---------------------------------------------------------------------
  // Least squares

  /** The residuals `y - (a + b * x)` of the line with intercept `a` and
      slope `b`. */
  function Residuals(x: seq<real>, y: seq<real>, a: real, b: real): (r: seq<real>)
    requires |x| == |y|
    ensures |r| == |x|
    ensures forall k :: 0 <= k < |x| ==> r[k] == y[k] - (a + b * x[k])
  {
    seq(|x|, k requires 0 <= k < |x| => y[k] - (a + b * x[k]))
  }

  /** `np.sum(w * (y - (a + b * x))**2)`: the weighted squared error of a line. */
  function Sse(x: seq<real>, y: seq<real>, w: seq<real>, a: real, b: real): real
    requires |x| == |y| == |w|
  {
    var r := Residuals(x, y, a, b);
    CoSum(r, r, w, 0.0, 0.0)
  }

  lemma ShiftTerm(wi: real, ri: real, ei: real, d: real)
    requires ri == ei + d
    ensures wi * (ri - 0.0) * (ri - 0.0)
         == 1.0 * (wi * (ei - 0.0) * (ei - 0.0)) + (2.0 * d) * (ei * wi) + (d * d) * wi
  {
  }

  lemma BalanceTerm(ei: real, wi: real, yi: real, xi: real, my: real, mx: real, t: real)
    requires ei == (yi - my) - t * (xi - mx)
    ensures ei * wi == 1.0 * (yi * wi) + (-t) * (xi * wi) + (t * mx - my) * wi
  {
  }

  lemma BalanceSum(d: real, dy: real, dx: real, s: real, my: real, mx: real, t: real)
    requires d == 1.0 * dy + (-t) * dx + (t * mx - my) * s
    requires dy - my * s == 0.0 && dx - mx * s == 0.0
    ensures d == 0.0
  {
    assert d == (dy - my * s) - t * (dx - mx * s);
    MulZero(t, dx - mx * s);
  }

  /** The weighted deviations from the weighted mean sum to zero. */
  lemma MeanBalance(x: seq<real>, w: seq<real>)
    requires |x| == |w| && Sum(w) != 0.0
    ensures Dot(x, w) - M(x, w) * Sum(w) == 0.0
  {
    MulDiv(Dot(x, w), Sum(w));
  }

  /** How far above the line `a + b * x` the weighted centroid lies. */
  function Offset(x: seq<real>, y: seq<real>, w: seq<real>, a: real, b: real): real
    requires |x| == |y| == |w| && Sum(w) != 0.0
  {
    M(y, w) - a - b * M(x, w)
  }

  lemma ResidualSplit(yk: real, xk: real, a: real, b: real, my: real, mx: real)
    ensures yk - (a + b * xk) == ((yk - my) - b * (xk - mx)) + (my - a - b * mx)
  {
  }

  lemma BalanceTerms(e: seq<real>, y: seq<real>, x: seq<real>, w: seq<real>, my: real, mx: real, t: real)
    requires Residual(e, y, x, my, mx, t) && |x| == |w|
    ensures Combination3(Times(e, w), Times(y, w), Times(x, w), w, 1.0, -t, t * mx - my)
  {
    forall k | 0 <= k < |x|
      ensures Times(e, w)[k] == 1.0 * Times(y, w)[k] + (-t) * Times(x, w)[k] + (t * mx - my) * w[k]
    {
      BalanceTerm(e[k], w[k], y[k], x[k], my, mx, t);
    }
  }

  /** The weighted sum of the residuals `(y - my) - t * (x - mx)`. */
  lemma DotCentred(e: seq<real>, y: seq<real>, x: seq<real>, w: seq<real>, my: real, mx: real, t: real)
    requires Residual(e, y, x, my, mx, t) && |x| == |w|
    ensures Dot(e, w) == 1.0 * Dot(y, w) + (-t) * Dot(x, w) + (t * mx - my) * Sum(w)
  {
    BalanceTerms(e, y, x, w, my, mx, t);
    SumLinear3(Times(y, w), Times(x, w), w, Times(e, w), 1.0, -t, t * mx - my);
  }

  /** The residuals about the weighted centroid have weighted sum zero. */
  lemma ResidualBalance(e: seq<real>, y: seq<real>, x: seq<real>, w: seq<real>, t: real)
    requires |x| == |y| == |w| && Sum(w) != 0.0 && Residual(e, y, x, M(y, w), M(x, w), t)
    ensures Dot(e, w) == 0.0
  {
    DotCentred(e, y, x, w, M(y, w), M(x, w), t);
    MeanBalance(y, w);
    MeanBalance(x, w);
    BalanceSum(Dot(e, w), Dot(y, w), Dot(x, w), Sum(w), M(y, w), M(x, w), t);
  }

  lemma DropCross(sse: real, q: real, dot: real, d: real, s: real)
    requires sse == q + 2.0 * d * dot + d * d * s && dot == 0.0
    ensures sse == q + d * d * s
  {
    MulZero(2.0 * d, dot);
  }

  /** The residuals about the weighted centroid for slope `b`. */
  function Centred(x: seq<real>, y: seq<real>, w: seq<real>, b: real): (e: seq<real>)
    requires |x| == |y| == |w| && Sum(w) != 0.0
    ensures Residual(e, y, x, M(y, w), M(x, w), b)
  {
    seq(|x|, k requires 0 <= k < |x| => (y[k] - M(y, w)) - b * (x[k] - M(x, w)))
  }

  /** Every residual of a line is its centred residual plus the offset. */
  lemma SseShift(x: seq<real>, y: seq<real>, w: seq<real>, a: real, b: real)
    requires |x| == |y| == |w| && Sum(w) != 0.0
    ensures Sse(x, y, w, a, b)
         == CoSum(Centred(x, y, w, b), Centred(x, y, w, b), w, 0.0, 0.0)
            + Offset(x, y, w, a, b) * Offset(x, y, w, a, b) * Sum(w)
  {
    SseSplit(x, y, w, a, b);
    ResidualBalance(Centred(x, y, w, b), y, x, w, b);
    DropCross(Sse(x, y, w, a, b), CoSum(Centred(x, y, w, b), Centred(x, y, w, b), w, 0.0, 0.0),
              Dot(Centred(x, y, w, b), w), Offset(x, y, w, a, b), Sum(w));
  }

  lemma SseSplit(x: seq<real>, y: seq<real>, w: seq<real>, a: real, b: real)
    requires |x| == |y| == |w| && Sum(w) != 0.0
    ensures Sse(x, y, w, a, b)
         == CoSum(Centred(x, y, w, b), Centred(x, y, w, b), w, 0.0, 0.0)
            + 2.0 * Offset(x, y, w, a, b) * Dot(Centred(x, y, w, b), w)
            + Offset(x, y, w, a, b) * Offset(x, y, w, a, b) * Sum(w)
  {
    ResidualsSplit(x, y, w, a, b);
    CoSumShift(Residuals(x, y, a, b), Centred(x, y, w, b), w, Offset(x, y, w, a, b));
  }

  /** Every residual of a line is its centred residual plus the offset. */
  lemma ResidualsSplit(x: seq<real>, y: seq<real>, w: seq<real>, a: real, b: real)
    requires |x| == |y| == |w| && Sum(w) != 0.0
    ensures Shifted(Residuals(x, y, a, b), Centred(x, y, w, b), Offset(x, y, w, a, b))
  {
    forall k | 0 <= k < |x|
      ensures Residuals(x, y, a, b)[k] == Centred(x, y, w, b)[k] + Offset(x, y, w, a, b)
    {
      ResidualSplit(y[k], x[k], a, b, M(y, w), M(x, w));
    }
  }

  lemma ShiftTerms(r: seq<real>, e: seq<real>, w: seq<real>, d: real)
    requires Shifted(r, e, d) && |e| == |w|
    ensures Combination3(CoTerms(r, r, w, 0.0, 0.0), CoTerms(e, e, w, 0.0, 0.0), Times(e, w), w,
                         1.0, 2.0 * d, d * d)
  {
    forall k | 0 <= k < |r|
      ensures CoTerms(r, r, w, 0.0, 0.0)[k]
           == 1.0 * CoTerms(e, e, w, 0.0, 0.0)[k] + (2.0 * d) * Times(e, w)[k] + (d * d) * w[k]
    {
      ShiftTerm(w[k], r[k], e[k], d);
    }
  }

  lemma ShiftStep(q: real, c: real, dot: real, s: real, d: real)
    requires q == 1.0 * c + (2.0 * d) * dot + (d * d) * s
    ensures q == c + 2.0 * d * dot + d * d * s
  {
  }

  /** Shifting every value by `d` adds a cross term and a constant term to
      the weighted sum of squares. */
  lemma CoSumShift(r: seq<real>, e: seq<real>, w: seq<real>, d: real)
    requires Shifted(r, e, d) && |e| == |w|
    ensures CoSum(r, r, w, 0.0, 0.0) == CoSum(e, e, w, 0.0, 0.0) + 2.0 * d * Dot(e, w) + d * d * Sum(w)
  {
    ShiftTerms(r, e, w, d);
    SumLinear3(CoTerms(e, e, w, 0.0, 0.0), Times(e, w), w, CoTerms(r, r, w, 0.0, 0.0), 1.0, 2.0 * d, d * d);
    ShiftStep(CoSum(r, r, w, 0.0, 0.0), CoSum(e, e, w, 0.0, 0.0), Dot(e, w), Sum(w), d);
  }

  /** The squared error of any line splits into a quadratic in the slope
      and a square in the line's offset from the weighted centroid. */
  lemma SseDecompose(x: seq<real>, y: seq<real>, w: seq<real>, a: real, b: real)
    requires |x| == |y| == |w| && Sum(w) != 0.0
    ensures Sse(x, y, w, a, b)
         == CoSum(y, y, w, M(y, w), M(y, w)) - 2.0 * b * CoSum(y, x, w, M(y, w), M(x, w))
            + b * b * CoSum(x, x, w, M(x, w), M(x, w))
            + Offset(x, y, w, a, b) * Offset(x, y, w, a, b) * Sum(w)
  {
    SseShift(x, y, w, a, b);
    DevExpand(Centred(x, y, w, b), y, x, w, M(y, w), M(x, w), b);
  }

  lemma QuadMin(a: real, b: real, c: real, t: real, u: real)
    requires c > 0.0 && u == b / c
    ensures a - 2.0 * t * b + t * t * c >= a - 2.0 * u * b + u * u * c
  {
    assert b == u * c;
    assert (a - 2.0 * t * b + t * t * c) - (a - 2.0 * u * b + u * u * c) == c * ((t - u) * (t - u));
    MulPos2(c, t - u);
  }

  lemma MulPos2(c: real, d: real)
    requires c > 0.0
    ensures c * (d * d) >= 0.0
  {
    if d != 0.0 {
      AddSquareTerm(c, d, 0.0);
      assert c * d * d == c * (d * d);
    }
  }

  lemma ZeroSquare(d: real, s: real)
    requires d == 0.0
    ensures d * d * s == 0.0
  {
  }

  lemma LeastStep(s1: real, s2: real, q1: real, q2: real, d1: real, d2: real, s: real)
    requires s1 == q1 + d1 * d1 * s && s2 == q2 + d2 * d2 * s && d2 == 0.0 && s > 0.0 && q2 <= q1
    ensures s2 <= s1
  {
    ZeroSquare(d2, s);
    MulPos2(s, d1);
    assert d1 * d1 * s == s * (d1 * d1);
  }

  /** The slope of `WlsFixed` minimises the quadratic part of the squared
      error. */
  lemma FixedQuadMin(x: seq<real>, y: seq<real>, w: seq<real>, b: real)
    requires |x| == |y| == |w| > 0 && Positive(w) && Sum(w) != 0.0
    requires Cov(x, x, w) * Cov(y, y, w) != 0.0
    ensures Sum(w) > 0.0
    ensures CoSum(y, y, w, M(y, w), M(y, w)) - 2.0 * WlsFixed(x, y, w).slope * CoSum(y, x, w, M(y, w), M(x, w))
            + WlsFixed(x, y, w).slope * WlsFixed(x, y, w).slope * CoSum(x, x, w, M(x, w), M(x, w))
         <= CoSum(y, y, w, M(y, w), M(y, w)) - 2.0 * b * CoSum(y, x, w, M(y, w), M(x, w))
            + b * b * CoSum(x, x, w, M(x, w), M(x, w))
  {
    var mx, my := M(x, w), M(y, w);
    CovSelfNonneg(x, w);
    assert Cov(x, x, w) != 0.0;
    QuotPos(CoSum(x, x, w, mx, mx), Sum(w), Cov(x, x, w));
    DivOfDivs(CoSum(x, y, w, mx, my), CoSum(x, x, w, mx, mx), Sum(w));
    CoSumSwap(y, x, w, my, mx);
    QuadMin(CoSum(y, y, w, my, my), CoSum(y, x, w, my, mx), CoSum(x, x, w, mx, mx), b, WlsFixed(x, y, w).slope);
  }

  /** The line `WlsFixed` fits has the least weighted squared error of all
      lines: it is the weighted least-squares line. */
  lemma WlsFixedLeastSquares(x: seq<real>, y: seq<real>, w: seq<real>, a: real, b: real)
    requires |x| == |y| == |w| > 0 && Positive(w) && Sum(w) != 0.0
    requires Cov(x, x, w) * Cov(y, y, w) != 0.0
    ensures Sse(x, y, w, WlsFixed(x, y, w).intercept, WlsFixed(x, y, w).slope) <= Sse(x, y, w, a, b)
  {
    var f := WlsFixed(x, y, w);
    FixedQuadMin(x, y, w, b);
    CentredMinimal(x, y, w, a, b, f.intercept, f.slope);
  }

  /** A line through the weighted centroid whose slope minimises the
      quadratic part has no larger squared error than any other line. */
  lemma CentredMinimal(x: seq<real>, y: seq<real>, w: seq<real>, a: real, b: real, i: real, s: real)
    requires |x| == |y| == |w| && Sum(w) > 0.0
    requires i + s * M(x, w) == M(y, w)
    requires CoSum(y, y, w, M(y, w), M(y, w)) - 2.0 * s * CoSum(y, x, w, M(y, w), M(x, w))
               + s * s * CoSum(x, x, w, M(x, w), M(x, w))
          <= CoSum(y, y, w, M(y, w), M(y, w)) - 2.0 * b * CoSum(y, x, w, M(y, w), M(x, w))
               + b * b * CoSum(x, x, w, M(x, w), M(x, w))
    ensures Sse(x, y, w, i, s) <= Sse(x, y, w, a, b)
  {
    var mx, my := M(x, w), M(y, w);
    SseDecompose(x, y, w, a, b);
    SseDecompose(x, y, w, i, s);
    LeastStep(Sse(x, y, w, a, b), Sse(x, y, w, i, s),
              CoSum(y, y, w, my, my) - 2.0 * b * CoSum(y, x, w, my, mx) + b * b * CoSum(x, x, w, mx, mx),
              CoSum(y, y, w, my, my) - 2.0 * s * CoSum(y, x, w, my, mx) + s * s * CoSum(x, x, w, mx, mx),
              Offset(x, y, w, a, b), Offset(x, y, w, i, s), Sum(w));
  }

  // ---------------------------------------------------------------------
  // The two fits on collinear data, on equal weights, and where they differ

  /** On data `y = a * x + b` with `a != 0` the least-squares fit is the
      line itself. */
  lemma WlsFixedCollinear(x: seq<real>, y: seq<real>, w: seq<real>, a: real, b: real)
    requires Collinear(y, x, a, b) && |x| == |w| > 0 && Sum(w) != 0.0 && a != 0.0 && Cov(x, x, w) != 0.0
    ensures Cov(x, x, w) * Cov(y, y, w) != 0.0
    ensures WlsFixed(x, y, w).slope == a && WlsFixed(x, y, w).intercept == b
  {
    CovSelfAffine(y, x, w, a, b);
    RSquaredUnit(x, y, w, a);
    DivEq(Cov(x, y, w), Cov(x, x, w), a);
    MAffine(y, x, w, a, b);
  }

  lemma SlopeSquare(c: real, sy: real, sx: real, vy: real, vx: real, r2: real)
    requires sx != 0.0 && sy * sy == vy && sx * sx == vx && c * c == r2
    ensures (c * sy / sx) * (c * sy / sx) * vx == r2 * vy
  {
    var q := c * sy / sx;
    assert q * sx == c * sy;
    assert q * q * vx == (q * sx) * (q * sx);
  }

  /** `np.var(x) >= 0`. */
  lemma PopVarNonneg(x: seq<real>)
    requires |x| > 0
    ensures PopVar(x) >= 0.0
  {
    SumOnes(|x|);
    CovSelfNonneg(x, Ones(|x|));
  }

  /** The slope `wls` computes satisfies `slope² · var(x) = r² · var(y)`:
      its size comes from the unweighted variances. */
  lemma WlsSlopeSquared(x: seq<real>, y: seq<real>, w: seq<real>, sqrt: real -> real)
    requires |x| == |y| == |w| > 0 && Sum(w) != 0.0
    requires sqrt(Cov(x, x, w) * Cov(y, y, w)) != 0.0 && Std(x, sqrt) != 0.0
    requires IsSqrt(sqrt) && Cov(x, x, w) * Cov(y, y, w) >= 0.0
    ensures Cov(x, x, w) * Cov(y, y, w) != 0.0
    ensures Wls(x, y, w, sqrt).slope * Wls(x, y, w, sqrt).slope * PopVar(x) == RSquared(x, y, w) * PopVar(y)
  {
    CorrSquared(x, y, w, sqrt);
    PopVarNonneg(x);
    PopVarNonneg(y);
    SlopeSquare(Corr(x, y, w, sqrt), Std(y, sqrt), Std(x, sqrt), PopVar(y), PopVar(x), RSquared(x, y, w));
  }

  /** `sqrt(a² · v²) = |a| · v` for `v >= 0`. */
  lemma SqrtScaledSquare(sqrt: real -> real, p: real, a: real, v: real)
    requires IsSqrt(sqrt) && v >= 0.0 && p == a * a * (v * v)
    ensures sqrt(p) == (if a < 0.0 then -a else a) * v
  {
    var u := (if a < 0.0 then -a else a) * v;
    assert u >= 0.0;
    assert u * u == (a * a) * (v * v);
    SqrtUnique(sqrt, p, u);
  }

  /** `sqrt(a² · t) = |a| · sqrt(t)` for `t >= 0`. */
  lemma SqrtScaled(sqrt: real -> real, p: real, a: real, t: real)
    requires IsSqrt(sqrt) && t >= 0.0 && p == a * a * t
    ensures sqrt(p) == (if a < 0.0 then -a else a) * sqrt(t)
  {
    SqrtScaledSquare(sqrt, p, a, sqrt(t));
  }

  lemma SqrtPositive(sqrt: real -> real, t: real)
    requires IsSqrt(sqrt) && t > 0.0
    ensures sqrt(t) > 0.0
  {
    var s := sqrt(t);
    assert 0.0 <= s && s * s == t;
    if s == 0.0 {
      MulZero(s, s);
      assert false;
    }
  }

  lemma SignRatio(a: real, cxy: real, cxx: real, sq: real, c: real)
    requires a != 0.0 && cxx > 0.0
    requires cxy == a * cxx && sq == (if a < 0.0 then -a else a) * cxx && c == cxy / sq
    ensures c == if a < 0.0 then -1.0 else 1.0
  {
    if a < 0.0 {
      DivCancel(a, cxx, -a);
      assert c == a / -a;
    } else {
      DivCancel(a, cxx, a);
      assert c == a / a;
    }
  }

  lemma SignSlope(a: real, c: real, sx: real, sy: real)
    requires a != 0.0 && sx > 0.0 && c == (if a < 0.0 then -1.0 else 1.0)
    requires sy == (if a < 0.0 then -a else a) * sx
    ensures c * sy / sx == a
  {
    assert c * sy == a * sx;
  }

  lemma CollinearCovs(x: seq<real>, y: seq<real>, w: seq<real>, a: real, b: real, i: nat, j: nat)
    requires Collinear(y, x, a, b) && |x| == |w| && Positive(w)
    requires i < |x| && j < |x| && x[i] != x[j]
    ensures Sum(w) > 0.0 && Cov(x, x, w) > 0.0
    ensures Cov(x, y, w) == a * Cov(x, x, w) && Cov(y, y, w) == a * a * Cov(x, x, w)
  {
    CovSelfPositive(x, w, i, j);
    CovSelfAffine(y, x, w, a, b);
  }

  lemma CollinearCorr(x: seq<real>, y: seq<real>, w: seq<real>, a: real, b: real, i: nat, j: nat,
                      sqrt: real -> real)
    requires IsSqrt(sqrt) && Collinear(y, x, a, b) && |x| == |w| && Positive(w) && a != 0.0
    requires i < |x| && j < |x| && x[i] != x[j]
    ensures Sum(w) > 0.0 && Cov(x, x, w) > 0.0
    ensures sqrt(Cov(x, x, w) * Cov(y, y, w)) == (if a < 0.0 then -a else a) * Cov(x, x, w)
    ensures Corr(x, y, w, sqrt) == if a < 0.0 then -1.0 else 1.0
  {
    CollinearCovs(x, y, w, a, b, i, j);
    CorrOfLine(x, y, w, a, sqrt);
  }

  /** `corr` from the covariances of a line, without the data. */
  lemma CorrOfLine(x: seq<real>, y: seq<real>, w: seq<real>, a: real, sqrt: real -> real)
    requires IsSqrt(sqrt) && |x| == |y| == |w| && Sum(w) > 0.0 && a != 0.0 && Cov(x, x, w) > 0.0
    requires Cov(x, y, w) == a * Cov(x, x, w) && Cov(y, y, w) == a * a * Cov(x, x, w)
    ensures sqrt(Cov(x, x, w) * Cov(y, y, w)) == (if a < 0.0 then -a else a) * Cov(x, x, w)
    ensures Corr(x, y, w, sqrt) == if a < 0.0 then -1.0 else 1.0
  {
    LineSqrt(sqrt, a, Cov(x, x, w), Cov(y, y, w), Cov(x, x, w) * Cov(y, y, w));
    CorrSign(x, y, w, a, sqrt);
  }

  lemma CorrSign(x: seq<real>, y: seq<real>, w: seq<real>, a: real, sqrt: real -> real)
    requires |x| == |y| == |w| && Sum(w) != 0.0 && a != 0.0 && Cov(x, x, w) > 0.0
    requires Cov(x, y, w) == a * Cov(x, x, w)
    requires sqrt(Cov(x, x, w) * Cov(y, y, w)) == (if a < 0.0 then -a else a) * Cov(x, x, w)
    requires sqrt(Cov(x, x, w) * Cov(y, y, w)) > 0.0
    ensures Corr(x, y, w, sqrt) == if a < 0.0 then -1.0 else 1.0
  {
    SignRatio(a, Cov(x, y, w), Cov(x, x, w), sqrt(Cov(x, x, w) * Cov(y, y, w)), Corr(x, y, w, sqrt));
  }

  /** The square root in `corr` for a line's statistics, on plain reals. */
  lemma LineSqrt(sqrt: real -> real, a: real, cxx: real, cyy: real, p: real)
    requires IsSqrt(sqrt) && a != 0.0 && cxx > 0.0 && cyy == a * a * cxx && p == cxx * cyy
    ensures sqrt(p) == (if a < 0.0 then -a else a) * cxx
    ensures sqrt(p) > 0.0
  {
    assert p == a * a * (cxx * cxx);
    SqrtScaledSquare(sqrt, p, a, cxx);
    MulPos(if a < 0.0 then -a else a, cxx);
  }

  lemma CollinearStd(x: seq<real>, y: seq<real>, a: real, b: real, i: nat, j: nat, sqrt: real -> real)
    requires IsSqrt(sqrt) && Collinear(y, x, a, b)
    requires i < |x| && j < |x| && x[i] != x[j]
    ensures PopVar(x) > 0.0 && Std(x, sqrt) > 0.0
    ensures Std(y, sqrt) == (if a < 0.0 then -a else a) * Std(x, sqrt)
  {
    CollinearPopVars(x, y, a, b, i, j);
    StdScaled(x, y, a, sqrt);
  }

  lemma CollinearPopVars(x: seq<real>, y: seq<real>, a: real, b: real, i: nat, j: nat)
    requires Collinear(y, x, a, b) && i < |x| && j < |x| && x[i] != x[j]
    ensures PopVar(x) > 0.0 && PopVar(y) == a * a * PopVar(x)
  {
    SumOnes(|x|);
    CovSelfPositive(x, Ones(|x|), i, j);
    CovSelfAffine(y, x, Ones(|x|), a, b);
  }

  /** Scaling the population variance by `a²` scales `np.std` by `|a|`. */
  lemma StdScaled(x: seq<real>, y: seq<real>, a: real, sqrt: real -> real)
    requires IsSqrt(sqrt) && |x| > 0 && |y| > 0 && PopVar(x) > 0.0 && PopVar(y) == a * a * PopVar(x)
    ensures Std(x, sqrt) > 0.0
    ensures Std(y, sqrt) == (if a < 0.0 then -a else a) * Std(x, sqrt)
  {
    SqrtScaled(sqrt, PopVar(y), a, PopVar(x));
    SqrtPositive(sqrt, PopVar(x));
  }

  /** A line of slope `a` through `(mx, a * mx + b)` has intercept `b`. */
  lemma LineThrough(i: real, s: real, mx: real, my: real, a: real, b: real)
    requires i + s * mx == my && s == a && my == a * mx + b
    ensures i == b
  {
  }

  /** A fit of slope `a` whose centroid lies on `y = a * x + b` has
      intercept `b`. */
  lemma WlsIntercept(x: seq<real>, y: seq<real>, w: seq<real>, sqrt: real -> real, a: real, b: real)
    requires |x| == |y| == |w| > 0 && Sum(w) != 0.0
    requires sqrt(Cov(x, x, w) * Cov(y, y, w)) != 0.0 && Std(x, sqrt) != 0.0
    requires Wls(x, y, w, sqrt).slope == a && M(y, w) == a * M(x, w) + b
    ensures Wls(x, y, w, sqrt).intercept == b
  {
    var f := Wls(x, y, w, sqrt);
    LineThrough(f.intercept, f.slope, M(x, w), M(y, w), a, b);
  }

  /** A correlation of sign `a` and standard deviations in the ratio
      `|a|` give `wls` the slope `a`; a centroid on `y = a * x + b` then
      gives it the intercept `b`. */
  lemma WlsLine(x: seq<real>, y: seq<real>, w: seq<real>, a: real, b: real, sqrt: real -> real)
    requires |x| == |y| == |w| > 0 && Sum(w) != 0.0 && a != 0.0
    requires sqrt(Cov(x, x, w) * Cov(y, y, w)) > 0.0 && Std(x, sqrt) > 0.0
    requires Corr(x, y, w, sqrt) == (if a < 0.0 then -1.0 else 1.0)
    requires Std(y, sqrt) == (if a < 0.0 then -a else a) * Std(x, sqrt)
    requires M(y, w) == a * M(x, w) + b
    ensures Wls(x, y, w, sqrt).slope == a
    ensures Wls(x, y, w, sqrt).intercept == b
  {
    SignSlope(a, Corr(x, y, w, sqrt), Std(x, sqrt), Std(y, sqrt));
    WlsIntercept(x, y, w, sqrt, a, b);
  }

  /** On data `y = a * x + b` with `a != 0`, positive weights and `x` not
      constant, `wls` as written also returns the line itself. */
  lemma WlsCollinear(x: seq<real>, y: seq<real>, w: seq<real>, a: real, b: real, i: nat, j: nat,
                     sqrt: real -> real)
    requires IsSqrt(sqrt) && Collinear(y, x, a, b) && |x| == |w| && Positive(w) && a != 0.0
    requires i < |x| && j < |x| && x[i] != x[j]
    ensures Sum(w) != 0.0 && |x| > 0
    ensures sqrt(Cov(x, x, w) * Cov(y, y, w)) != 0.0 && Std(x, sqrt) != 0.0
    ensures Wls(x, y, w, sqrt).slope == a
    ensures Wls(x, y, w, sqrt).intercept == b
  {
    CollinearCorr(x, y, w, a, b, i, j, sqrt);
    CollinearStd(x, y, a, b, i, j, sqrt);
    MAffine(y, x, w, a, b);
    WlsLine(x, y, w, a, b, sqrt);
  }

  lemma UniformTerms(x: seq<real>, y: seq<real>, w: seq<real>, c: real, a: real, b: real)
    requires |x| == |y| == |w| && forall k :: 0 <= k < |w| ==> w[k] == c
    ensures Scaled(CoTerms(x, y, w, a, b), CoTerms(x, y, Ones(|w|), a, b), c)
  {
    forall k | 0 <= k < |x|
      ensures CoTerms(x, y, w, a, b)[k] == c * CoTerms(x, y, Ones(|w|), a, b)[k]
    {
      UniformTerm(w[k], c, x[k] - a, y[k] - b);
    }
  }

  lemma UniformTerm(wi: real, c: real, u: real, v: real)
    requires wi == c
    ensures wi * u * v == c * (1.0 * u * v)
  {
  }

  lemma UniformCoSum(x: seq<real>, y: seq<real>, w: seq<real>, c: real, a: real, b: real)
    requires |x| == |y| == |w| && forall k :: 0 <= k < |w| ==> w[k] == c
    ensures CoSum(x, y, w, a, b) == c * CoSum(x, y, Ones(|w|), a, b)
    ensures Sum(w) == c * Sum(Ones(|w|))
  {
    UniformTerms(x, y, w, c, a, b);
    SumScale(CoTerms(x, y, Ones(|w|), a, b), CoTerms(x, y, w, a, b), c);
    UniformWeights(w, c);
    SumScale(Ones(|w|), w, c);
  }

  lemma UniformWeights(w: seq<real>, c: real)
    requires forall k :: 0 <= k < |w| ==> w[k] == c
    ensures Scaled(w, Ones(|w|), c)
  {
  }

  lemma UniformMean(x: seq<real>, w: seq<real>, c: real)
    requires |x| == |w| > 0 && c != 0.0 && forall k :: 0 <= k < |w| ==> w[k] == c
    ensures Sum(w) != 0.0 && Sum(Ones(|w|)) != 0.0 && M(x, w) == M(x, Ones(|w|))
  {
    MUniform(x, w, c);
    MUniform(x, Ones(|w|), 1.0);
  }

  /** With all weights equal, `cov` is the unweighted (population)
      covariance. */
  lemma CovUniform(x: seq<real>, y: seq<real>, w: seq<real>, c: real)
    requires |x| == |y| == |w| > 0 && c != 0.0 && forall k :: 0 <= k < |w| ==> w[k] == c
    ensures Sum(w) != 0.0 && Sum(Ones(|w|)) != 0.0 && Cov(x, y, w) == Cov(x, y, Ones(|w|))
  {
    UniformMean(x, w, c);
    UniformMean(y, w, c);
    UniformCoSum(x, y, w, c, M(x, w), M(y, w));
    RatioOfScaled(CoSum(x, y, w, M(x, w), M(y, w)), Sum(w), c,
                  CoSum(x, y, Ones(|w|), M(x, w), M(y, w)), Sum(Ones(|w|)));
  }

  lemma UniformSlope(cxy: real, cxx: real, cyy: real, sx: real, sy: real, sq: real)
    requires sx > 0.0 && sy > 0.0 && sx * sx == cxx && sq == sx * sy
    ensures cxx != 0.0 && sq != 0.0
    ensures (cxy / sq) * sy / sx == cxy / cxx
  {
    MulPos(sx, sy);
    var q := cxy / sq;
    assert q * (sx * sy) == cxy;
    assert (q * sy) * (sx * sx) == cxy * sx;
    DivEq(q * sy, sx, (q * sy) / sx);
    assert ((q * sy) / sx) * cxx == cxy;
  }

  /** With all weights equal, the weighted variances are numpy's
      unweighted ones. */
  lemma UniformVariances(x: seq<real>, y: seq<real>, w: seq<real>, c: real)
    requires |x| == |y| == |w| > 0 && c != 0.0 && forall k :: 0 <= k < |w| ==> w[k] == c
    ensures Sum(w) != 0.0
    ensures Cov(x, x, w) == PopVar(x) && Cov(y, y, w) == PopVar(y)
  {
    CovUniform(x, x, w, c);
    CovUniform(y, y, w, c);
  }

  /** With all weights equal, the square root in `corr` is the product of
      numpy's standard deviations. */
  lemma UniformSqrt(x: seq<real>, y: seq<real>, w: seq<real>, c: real, sqrt: real -> real)
    requires IsSqrt(sqrt) && |x| == |y| == |w| > 0 && c > 0.0 && forall k :: 0 <= k < |w| ==> w[k] == c
    requires PopVar(x) > 0.0 && PopVar(y) > 0.0
    ensures Sum(w) != 0.0 && Cov(x, x, w) * Cov(y, y, w) > 0.0
    ensures Std(x, sqrt) > 0.0 && Std(y, sqrt) > 0.0 && Std(x, sqrt) * Std(x, sqrt) == Cov(x, x, w)
    ensures sqrt(Cov(x, x, w) * Cov(y, y, w)) == Std(x, sqrt) * Std(y, sqrt)
  {
    UniformVariances(x, y, w, c);
    MulPos(PopVar(x), PopVar(y));
    SqrtPositive(sqrt, PopVar(x));
    SqrtPositive(sqrt, PopVar(y));
    SqrtProduct(sqrt, Cov(x, x, w) * Cov(y, y, w), PopVar(x), PopVar(y));
  }

  /** With all weights equal and positive, `wls` as written and the
      least-squares fit have the same slope. */
  lemma WlsUniformSlope(x: seq<real>, y: seq<real>, w: seq<real>, c: real, sqrt: real -> real)
    requires IsSqrt(sqrt) && |x| == |y| == |w| > 0 && c > 0.0 && forall k :: 0 <= k < |w| ==> w[k] == c
    requires PopVar(x) > 0.0 && PopVar(y) > 0.0
    ensures Sum(w) != 0.0 && Cov(x, x, w) * Cov(y, y, w) > 0.0
    ensures sqrt(Cov(x, x, w) * Cov(y, y, w)) != 0.0 && Std(x, sqrt) != 0.0
    ensures Wls(x, y, w, sqrt).slope == WlsFixed(x, y, w).slope
  {
    UniformSqrt(x, y, w, c, sqrt);
    UniformSlope(Cov(x, y, w), Cov(x, x, w), Cov(y, y, w), Std(x, sqrt), Std(y, sqrt),
                 sqrt(Cov(x, x, w) * Cov(y, y, w)));
  }

  /** With all weights equal and positive, `wls` as written and the
      least-squares fit coincide. */
  lemma WlsUniform(x: seq<real>, y: seq<real>, w: seq<real>, c: real, sqrt: real -> real)
    requires IsSqrt(sqrt) && |x| == |y| == |w| > 0 && c > 0.0 && forall k :: 0 <= k < |w| ==> w[k] == c
    requires PopVar(x) > 0.0 && PopVar(y) > 0.0
    ensures Sum(w) != 0.0 && Cov(x, x, w) * Cov(y, y, w) != 0.0
    ensures sqrt(Cov(x, x, w) * Cov(y, y, w)) != 0.0 && Std(x, sqrt) != 0.0
    ensures Wls(x, y, w, sqrt) == WlsFixed(x, y, w)
  {
    WlsUniformSlope(x, y, w, c, sqrt);
    CorrSquared(x, y, w, sqrt);
  }

  /** Three points and weights on which the two fits differ. */
  const CounterX: seq<real> := [0.0, 1.0, 2.0]
  const CounterY: seq<real> := [0.0, 1.0, 3.0]
  const CounterW: seq<real> := [1.0, 1.0, 2.0]

  /** The three points above have the statistics `WlsNotLeastSquares`
      starts from. */
  lemma CounterCovs()
    ensures Sum(CounterW) == 4.0
    ensures Cov(CounterX, CounterX, CounterW) == 11.0 / 16.0
    ensures Cov(CounterY, CounterY, CounterW) == 27.0 / 16.0
    ensures Cov(CounterX, CounterY, CounterW) == 17.0 / 16.0
  {
    assert M(CounterX, CounterW) == 5.0 / 4.0;
    assert M(CounterY, CounterW) == 7.0 / 4.0;
  }

  lemma CounterPopVars()
    ensures PopVar(CounterX) == 2.0 / 3.0
    ensures PopVar(CounterY) == 14.0 / 9.0
  {
    assert Ones(3) == [1.0, 1.0, 1.0];
    assert M(CounterX, [1.0, 1.0, 1.0]) == 1.0;
    assert M(CounterY, [1.0, 1.0, 1.0]) == 4.0 / 3.0;
  }

  lemma CounterSlopeSquare(cxy: real, cxx: real, cyy: real, vx: real, vy: real, s: real)
    requires cxy == 17.0 / 16.0 && cxx == 11.0 / 16.0 && cyy == 27.0 / 16.0
    requires vx == 2.0 / 3.0 && vy == 14.0 / 9.0
    requires s * s * vx == (cxy * cxy) / (cxx * cyy) * vy
    ensures s * s == 2023.0 / 891.0
  {
    assert (cxy * cxy) / (cxx * cyy) == 289.0 / 297.0;
  }

  lemma SquareNot(s: real, f: real)
    requires s * s == 2023.0 / 891.0 && f == 17.0 / 11.0
    ensures s != f
  {
    assert f * f == 289.0 / 121.0;
    assert f * f != s * s;
  }

  /** On any data with the statistics of the three points above, `wls` as
      written returns a slope with square 2023/891, while the weighted
      least-squares slope is 17/11 (square 2023/847). */
  lemma WlsNotLeastSquares(x: seq<real>, y: seq<real>, w: seq<real>, sqrt: real -> real)
    requires IsSqrt(sqrt) && |x| == |y| == |w| > 0 && Sum(w) != 0.0
    requires Cov(x, x, w) == 11.0 / 16.0 && Cov(y, y, w) == 27.0 / 16.0 && Cov(x, y, w) == 17.0 / 16.0
    requires PopVar(x) == 2.0 / 3.0 && PopVar(y) == 14.0 / 9.0
    ensures Cov(x, x, w) * Cov(y, y, w) != 0.0
    ensures sqrt(Cov(x, x, w) * Cov(y, y, w)) != 0.0 && Std(x, sqrt) != 0.0
    ensures WlsFixed(x, y, w).slope == 17.0 / 11.0
    ensures Wls(x, y, w, sqrt).slope * Wls(x, y, w, sqrt).slope == 2023.0 / 891.0
    ensures Wls(x, y, w, sqrt).slope != WlsFixed(x, y, w).slope
  {
    SqrtPositive(sqrt, Cov(x, x, w) * Cov(y, y, w));
    SqrtPositive(sqrt, PopVar(x));
    WlsSlopeSquared(x, y, w, sqrt);
    CounterSlopeSquare(Cov(x, y, w), Cov(x, x, w), Cov(y, y, w), PopVar(x), PopVar(y), Wls(x, y, w, sqrt).slope);
    SquareNot(Wls(x, y, w, sqrt).slope, WlsFixed(x, y, w).slope);
  }
}
