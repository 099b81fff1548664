/** The arithmetic of the sweep plots (benchmarks/plot_sweep.py): time bins and the trend
    line's slope, over the reals. */
module PlotSweep {
  import opened Arithmetic
  import opened Common

  // ---------------------------------------------------------- vectors and sums

  function Sum(s: seq<real>): real {
    if s == [] then 0.0 else Sum(s[..|s| - 1]) + s[|s| - 1]
  }

  function Mean(s: seq<real>): real
    requires s != []
  {
    Sum(s) / |s| as real
  }

  function Scaled(k: real, s: seq<real>): (r: seq<real>)
    ensures |r| == |s|
  {
    seq(|s|, i requires 0 <= i < |s| => k * s[i])
  }

  function Plus(s: seq<real>, t: seq<real>): (r: seq<real>)
    requires |s| == |t|
    ensures |r| == |s|
  {
    seq(|s|, i requires 0 <= i < |s| => s[i] + t[i])
  }

  /** Each element of s as d + k·s. */
  function Affine(d: real, k: real, s: seq<real>): (r: seq<real>)
    ensures |r| == |s|
  {
    seq(|s|, i requires 0 <= i < |s| => d + k * s[i])
  }

  /** Deviations from m. */
  function Minus(s: seq<real>, m: real): (r: seq<real>)
    ensures |r| == |s|
  {
    seq(|s|, i requires 0 <= i < |s| => s[i] - m)
  }

  function Products(us: seq<real>, vs: seq<real>): (r: seq<real>)
    requires |us| == |vs|
    ensures |r| == |us|
  {
    seq(|us|, i requires 0 <= i < |us| => us[i] * vs[i])
  }

  /** sum(u * v for u, v in zip(us, vs)). */
  function Dot(us: seq<real>, vs: seq<real>): real
    requires |us| == |vs|
  {
    Sum(Products(us, vs))
  }

  lemma ScaledFront(k: real, s: seq<real>)
    requires s != []
    ensures Scaled(k, s)[..|s| - 1] == Scaled(k, s[..|s| - 1])
  {
    forall i | 0 <= i < |s| - 1 ensures Scaled(k, s)[i] == Scaled(k, s[..|s| - 1])[i] {
      assert s[i] == s[..|s| - 1][i];
    }
  }

  lemma {:induction false} SumScaled(k: real, s: seq<real>)
    ensures Sum(Scaled(k, s)) == k * Sum(s)
  {
    if s != [] {
      var n := |s| - 1;
      SumScaled(k, s[..n]);
      ScaledFront(k, s);
      Distribute(k, Sum(s[..n]), s[n]);
    }
  }

  lemma {:induction false} SumPlus(s: seq<real>, t: seq<real>)
    requires |s| == |t|
    ensures Sum(Plus(s, t)) == Sum(s) + Sum(t)
  {
    if s != [] {
      var n := |s| - 1;
      SumPlus(s[..n], t[..n]);
      assert Plus(s, t)[..n] == Plus(s[..n], t[..n]);
    }
  }

  lemma {:induction false} SumMinus(s: seq<real>, m: real)
    ensures Sum(Minus(s, m)) == Sum(s) - |s| as real * m
  {
    if s != [] {
      var n := |s| - 1;
      SumMinus(s[..n], m);
      assert Minus(s, m)[..n] == Minus(s[..n], m);
    }
  }

  /** Deviations from the mean add up to zero. */
  lemma DeviationsCancel(s: seq<real>)
    requires s != []
    ensures Sum(Minus(s, Mean(s))) == 0.0
  {
    SumMinus(s, Mean(s));
    DivTimes(Sum(s), |s| as real);
  }

  lemma {:induction false} SumZeroIff(s: seq<real>)
    requires forall i | 0 <= i < |s| :: 0.0 <= s[i]
    ensures 0.0 <= Sum(s) && (Sum(s) == 0.0 <==> forall i | 0 <= i < |s| :: s[i] == 0.0)
  {
    if s != [] {
      SumZeroIff(s[..|s| - 1]);
      assert forall i | 0 <= i < |s| - 1 :: s[..|s| - 1][i] == s[i];
    }
  }

  /** A sum of squares is zero exactly when every term is. */
  lemma SquaresZeroIff(us: seq<real>)
    ensures 0.0 <= Dot(us, us)
    ensures Dot(us, us) == 0.0 <==> forall i | 0 <= i < |us| :: us[i] == 0.0
  {
    var squares := Products(us, us);
    forall i | 0 <= i < |us| ensures if us[i] == 0.0 then squares[i] == 0.0 else 0.0 < squares[i] {
      SquarePositive(us[i], squares[i]);
    }
    SumZeroIff(squares);
  }

  // sums of products are linear

  lemma DotAffine(rs: seq<real>, d: real, k: real, xs: seq<real>)
    requires |rs| == |xs|
    ensures Dot(rs, Affine(d, k, xs)) == d * Sum(rs) + k * Dot(rs, xs)
  {
    AffineTerms(rs, d, k, xs);
    SumCombination(d, rs, k, Products(rs, xs));
  }

  lemma SumCombination(j: real, s: seq<real>, k: real, t: seq<real>)
    requires |s| == |t|
    ensures Sum(Plus(Scaled(j, s), Scaled(k, t))) == j * Sum(s) + k * Sum(t)
  {
    SumPlus(Scaled(j, s), Scaled(k, t));
    SumScaled(j, s);
    SumScaled(k, t);
  }

  lemma AffineTerms(rs: seq<real>, d: real, k: real, xs: seq<real>)
    requires |rs| == |xs|
    ensures Products(rs, Affine(d, k, xs)) == Plus(Scaled(d, rs), Scaled(k, Products(rs, xs)))
  {
    var left, right := Products(rs, Affine(d, k, xs)), Plus(Scaled(d, rs), Scaled(k, Products(rs, xs)));
    forall i | 0 <= i < |rs| ensures left[i] == right[i] {
      AffineTerm(rs[i], d, k, xs[i]);
      assert left[i] == rs[i] * (d + k * xs[i]);
      assert right[i] == d * rs[i] + k * (rs[i] * xs[i]);
    }
  }

  lemma AffineTerm(r: real, d: real, k: real, x: real)
    ensures r * (d + k * x) == d * r + k * (r * x)
  {
    Distribute(r, d, k * x);
    assert r * (k * x) == k * (r * x);
  }

  lemma DotOfSum(rs: seq<real>, ws: seq<real>)
    requires |rs| == |ws|
    ensures Dot(Plus(rs, ws), Plus(rs, ws)) == Dot(rs, rs) + 2.0 * Dot(rs, ws) + Dot(ws, ws)
  {
    SquareTerms(rs, ws);
    SumPlus(Plus(Products(rs, rs), Scaled(2.0, Products(rs, ws))), Products(ws, ws));
    SumPlus(Products(rs, rs), Scaled(2.0, Products(rs, ws)));
    SumScaled(2.0, Products(rs, ws));
  }

  lemma SquareTerms(rs: seq<real>, ws: seq<real>)
    requires |rs| == |ws|
    ensures Products(Plus(rs, ws), Plus(rs, ws))
            == Plus(Plus(Products(rs, rs), Scaled(2.0, Products(rs, ws))), Products(ws, ws))
  {
    var left := Products(Plus(rs, ws), Plus(rs, ws));
    var right := Plus(Plus(Products(rs, rs), Scaled(2.0, Products(rs, ws))), Products(ws, ws));
    forall i | 0 <= i < |rs| ensures left[i] == right[i] {
      SquareTerm(rs[i], ws[i]);
      assert left[i] == (rs[i] + ws[i]) * (rs[i] + ws[i]);
      assert right[i] == rs[i] * rs[i] + 2.0 * (rs[i] * ws[i]) + ws[i] * ws[i];
    }
  }

  lemma SquareTerm(r: real, w: real)
    ensures (r + w) * (r + w) == r * r + 2.0 * (r * w) + w * w
  {
  }

  lemma DotCommutes(us: seq<real>, vs: seq<real>)
    requires |us| == |vs|
    ensures Dot(us, vs) == Dot(vs, us)
  {
    assert Products(us, vs) == Products(vs, us);
  }

  lemma DotPlus(us: seq<real>, vs: seq<real>, ws: seq<real>)
    requires |us| == |vs| == |ws|
    ensures Dot(us, Plus(vs, ws)) == Dot(us, vs) + Dot(us, ws)
  {
    forall i | 0 <= i < |us|
      ensures Products(us, Plus(vs, ws))[i] == Plus(Products(us, vs), Products(us, ws))[i]
    {
      Distribute(us[i], vs[i], ws[i]);
    }
    assert Products(us, Plus(vs, ws)) == Plus(Products(us, vs), Products(us, ws));
    SumPlus(Products(us, vs), Products(us, ws));
  }

  lemma DotScaled(us: seq<real>, k: real, vs: seq<real>)
    requires |us| == |vs|
    ensures Dot(us, Scaled(k, vs)) == k * Dot(us, vs)
  {
    forall i | 0 <= i < |us| ensures Products(us, Scaled(k, vs))[i] == Scaled(k, Products(us, vs))[i] {
      Rearrange(us[i], k, vs[i]);
    }
    assert Products(us, Scaled(k, vs)) == Scaled(k, Products(us, vs));
    SumScaled(k, Products(us, vs));
  }

  lemma Rearrange(u: real, k: real, v: real)
    ensures u * (k * v) == k * (u * v)
  {
  }

  // ------------------------------------------------------------ the slope

  /** linear_slope. */
  function LinearSlope(xs: seq<real>, ys: seq<real>): real
    requires |xs| == |ys|
  {
    if |xs| < 2 then 0.0
    else
      var us, vs := Minus(xs, Mean(xs)), Minus(ys, Mean(ys));
      var num, den := Dot(us, vs), Dot(us, us);
      if den != 0.0 then num / den else 0.0
  }

  predicate AllEqual(xs: seq<real>) {
    forall i | 0 <= i < |xs| :: xs[i] == xs[0]
  }

  /** How far each point is above the line y = a + b·x. */
  function Residuals(xs: seq<real>, ys: seq<real>, a: real, b: real): (r: seq<real>)
    requires |xs| == |ys|
    ensures |r| == |xs|
  {
    seq(|xs|, i requires 0 <= i < |xs| => ys[i] - a - b * xs[i])
  }

  function SquaredError(xs: seq<real>, ys: seq<real>, a: real, b: real): real
    requires |xs| == |ys|
  {
    Dot(Residuals(xs, ys, a, b), Residuals(xs, ys, a, b))
  }

  /** The intercept that goes with slope b: the line through the two means. */
  function Intercept(xs: seq<real>, ys: seq<real>, b: real): real
    requires xs != [] && |xs| == |ys|
  {
    Mean(ys) - b * Mean(xs)
  }

  /** The denominator is zero exactly when all the xs are equal. */
  lemma DenominatorZeroIff(xs: seq<real>)
    requires xs != []
    ensures Dot(Minus(xs, Mean(xs)), Minus(xs, Mean(xs))) == 0.0 <==> AllEqual(xs)
  {
    var us := Minus(xs, Mean(xs));
    SquaresZeroIff(us);
    assert forall i | 0 <= i < |xs| :: us[i] == xs[i] - Mean(xs);
    if AllEqual(xs) {
      MeanOfEqual(xs);
    }
  }

  lemma {:induction false} SumOfEqual(xs: seq<real>, x: real)
    requires forall i | 0 <= i < |xs| :: xs[i] == x
    ensures Sum(xs) == |xs| as real * x
  {
    if xs != [] {
      SumOfEqual(xs[..|xs| - 1], x);
    }
  }

  lemma MeanOfEqual(xs: seq<real>)
    requires xs != [] && AllEqual(xs)
    ensures Mean(xs) == xs[0]
  {
    SumOfEqual(xs, xs[0]);
    var n := |xs| as real;
    assert n * xs[0] / n == xs[0];
  }

  /** Slope s balances the deviations, as num / den does. */
  predicate IsFit(xs: seq<real>, ys: seq<real>, s: real)
    requires |xs| == |ys| && xs != []
  {
    var us, vs := Minus(xs, Mean(xs)), Minus(ys, Mean(ys));
    s * Dot(us, us) == Dot(us, vs)
  }

  lemma SlopeIsFit(xs: seq<real>, ys: seq<real>)
    requires |xs| == |ys| && xs != [] && !AllEqual(xs)
    ensures IsFit(xs, ys, LinearSlope(xs, ys))
  {
    DenominatorZeroIff(xs);
    var us, vs := Minus(xs, Mean(xs)), Minus(ys, Mean(ys));
    DivTimes(Dot(us, vs), Dot(us, us));
  }

  /** Residuals of the line through the means are v - s·u in deviations. */
  lemma CentredResiduals(xs: seq<real>, ys: seq<real>, p: real, q: real, c: real, s: real)
    requires |xs| == |ys| && c == q - s * p
    ensures Residuals(xs, ys, c, s) == Plus(Minus(ys, q), Scaled(-s, Minus(xs, p)))
  {
    var left, right := Residuals(xs, ys, c, s), Plus(Minus(ys, q), Scaled(-s, Minus(xs, p)));
    forall i | 0 <= i < |xs| ensures left[i] == right[i] {
      Centred(xs[i], ys[i], p, q, s);
    }
  }

  lemma Centred(x: real, y: real, p: real, q: real, s: real)
    ensures y - (q - s * p) - s * x == (y - q) + (-s) * (x - p)
  {
  }

  lemma BalancedResiduals(us: seq<real>, vs: seq<real>, s: real)
    requires |us| == |vs| && Sum(us) == 0.0 && Sum(vs) == 0.0 && s * Dot(us, us) == Dot(us, vs)
    ensures var rs := Plus(vs, Scaled(-s, us)); Sum(rs) == 0.0 && Dot(rs, us) == 0.0
  {
    var rs := Plus(vs, Scaled(-s, us));
    SumPlus(vs, Scaled(-s, us));
    SumScaled(-s, us);
    DotCommutes(rs, us);
    DotPlus(us, vs, Scaled(-s, us));
    DotScaled(us, -s, us);
  }

  /** What is uncorrelated with the deviations, and adds up to zero, is uncorrelated with
      the xs themselves. */
  lemma DotShift(rs: seq<real>, xs: seq<real>, p: real)
    requires |rs| == |xs| && Sum(rs) == 0.0 && Dot(rs, Minus(xs, p)) == 0.0
    ensures Dot(rs, xs) == 0.0
  {
    assert Affine(-p, 1.0, xs) == Minus(xs, p);
    DotAffine(rs, -p, 1.0, xs);
  }

  lemma CentredEquations(xs: seq<real>, p: real, vs: seq<real>, s: real)
    requires |xs| == |vs| && Sum(Minus(xs, p)) == 0.0 && Sum(vs) == 0.0
    requires s * Dot(Minus(xs, p), Minus(xs, p)) == Dot(Minus(xs, p), vs)
    ensures var rs := Plus(vs, Scaled(-s, Minus(xs, p))); Sum(rs) == 0.0 && Dot(rs, xs) == 0.0
  {
    BalancedResiduals(Minus(xs, p), vs, s);
    DotShift(Plus(vs, Scaled(-s, Minus(xs, p))), xs, p);
  }

  /** The residuals of a fit cancel out, and do not depend on x. */
  lemma NormalEquations(xs: seq<real>, ys: seq<real>, s: real)
    requires |xs| == |ys| && xs != [] && IsFit(xs, ys, s)
    ensures var rs := Residuals(xs, ys, Intercept(xs, ys, s), s);
            Sum(rs) == 0.0 && Dot(rs, xs) == 0.0
  {
    DeviationsCancel(xs);
    DeviationsCancel(ys);
    EquationsAt(xs, ys, Mean(xs), Mean(ys), Intercept(xs, ys, s), s);
  }

  lemma EquationsAt(xs: seq<real>, ys: seq<real>, p: real, q: real, c: real, s: real)
    requires |xs| == |ys| && c == q - s * p && Sum(Minus(xs, p)) == 0.0 && Sum(Minus(ys, q)) == 0.0
    requires s * Dot(Minus(xs, p), Minus(xs, p)) == Dot(Minus(xs, p), Minus(ys, q))
    ensures Sum(Residuals(xs, ys, c, s)) == 0.0 && Dot(Residuals(xs, ys, c, s), xs) == 0.0
  {
    CentredResiduals(xs, ys, p, q, c, s);
    CentredEquations(xs, p, Minus(ys, q), s);
  }

  /** Two lines without a gap at any of the xs, which are not all equal, are one line. */
  lemma NoGapIff(d: real, k: real, xs: seq<real>)
    requires xs != [] && !AllEqual(xs)
    ensures (forall i | 0 <= i < |xs| :: Affine(d, k, xs)[i] == 0.0) <==> d == 0.0 && k == 0.0
  {
    var i :| 0 <= i < |xs| && xs[i] != xs[0];
    var ws := Affine(d, k, xs);
    assert ws[i] == d + k * xs[i] && ws[0] == d + k * xs[0];
    assert ws[i] - ws[0] == k * (xs[i] - xs[0]);
    if k != 0.0 {
      NonZeroProduct(k, xs[i] - xs[0]);
    }
  }

  lemma NonZeroProduct(k: real, x: real)
    requires k != 0.0 && x != 0.0
    ensures k * x != 0.0
  {
  }

  /** The residuals of two lines differ by the gap between the lines. */
  lemma GapBetween(xs: seq<real>, ys: seq<real>, c: real, s: real, a: real, b: real)
    requires |xs| == |ys|
    ensures Residuals(xs, ys, a, b) == Plus(Residuals(xs, ys, c, s), Affine(c - a, s - b, xs))
  {
    var left, right := Residuals(xs, ys, a, b), Plus(Residuals(xs, ys, c, s), Affine(c - a, s - b, xs));
    forall i | 0 <= i < |xs| ensures left[i] == right[i] {
      OneGap(xs[i], ys[i], a, b, c, s);
    }
  }

  lemma OneGap(x: real, y: real, a: real, b: real, c: real, s: real)
    ensures y - a - b * x == (y - c - s * x) + ((c - a) + (s - b) * x)
  {
  }

  /** Moving away from residuals r by gaps w that are uncorrelated with them only adds
      error. */
  lemma AwayIsWorse(rs: seq<real>, ws: seq<real>)
    requires |rs| == |ws| && Dot(rs, ws) == 0.0
    ensures Dot(rs, rs) <= Dot(Plus(rs, ws), Plus(rs, ws))
    ensures Dot(rs, rs) == Dot(Plus(rs, ws), Plus(rs, ws)) <==> forall i | 0 <= i < |ws| :: ws[i] == 0.0
  {
    DotOfSum(rs, ws);
    SquaresZeroIff(ws);
  }

  lemma GapsAddError(xs: seq<real>, ys: seq<real>, c: real, s: real, a: real, b: real)
    requires |xs| == |ys| && xs != [] && !AllEqual(xs)
    requires Sum(Residuals(xs, ys, c, s)) == 0.0 && Dot(Residuals(xs, ys, c, s), xs) == 0.0
    ensures SquaredError(xs, ys, c, s) <= SquaredError(xs, ys, a, b)
    ensures SquaredError(xs, ys, c, s) == SquaredError(xs, ys, a, b) <==> a == c && b == s
  {
    var rs, ws := Residuals(xs, ys, c, s), Affine(c - a, s - b, xs);
    DotAffine(rs, c - a, s - b, xs);
    GapBetween(xs, ys, c, s, a, b);
    AwayIsWorse(rs, ws);
    NoGapIff(c - a, s - b, xs);
  }

  /** linear_slope is the least-squares slope: with its intercept it fits no worse than any
      line, and strictly better than any other line. */
  lemma LeastSquares(xs: seq<real>, ys: seq<real>, a: real, b: real)
    requires |xs| == |ys| && xs != [] && !AllEqual(xs)
    ensures var s := LinearSlope(xs, ys);
            var c := Intercept(xs, ys, s);
            && SquaredError(xs, ys, c, s) <= SquaredError(xs, ys, a, b)
            && (SquaredError(xs, ys, c, s) == SquaredError(xs, ys, a, b) <==> a == c && b == s)
  {
    var s := LinearSlope(xs, ys);
    SlopeIsFit(xs, ys);
    NormalEquations(xs, ys, s);
    GapsAddError(xs, ys, Intercept(xs, ys, s), s, a, b);
  }

  /** Exactly collinear data gives back its line. */
  lemma CollinearGivesSlope(xs: seq<real>, ys: seq<real>, a: real, b: real)
    requires |xs| == |ys| && xs != [] && !AllEqual(xs)
    requires forall i | 0 <= i < |xs| :: ys[i] == a + b * xs[i]
    ensures LinearSlope(xs, ys) == b && Intercept(xs, ys, b) == a
  {
    LeastSquares(xs, ys, a, b);
    NoError(xs, ys, a, b);
    SquaresZeroIff(Residuals(xs, ys, Intercept(xs, ys, LinearSlope(xs, ys)), LinearSlope(xs, ys)));
  }

  lemma NoError(xs: seq<real>, ys: seq<real>, a: real, b: real)
    requires |xs| == |ys| && forall i | 0 <= i < |xs| :: ys[i] == a + b * xs[i]
    ensures SquaredError(xs, ys, a, b) == 0.0
  {
    SquaresZeroIff(Residuals(xs, ys, a, b));
  }

  /** Where there is no trend to see, fewer than two points or all at one x, it is flat. */
  lemma FlatOtherwise(xs: seq<real>, ys: seq<real>)
    requires |xs| == |ys| && (|xs| < 2 || AllEqual(xs))
    ensures LinearSlope(xs, ys) == 0.0
  {
    if 2 <= |xs| {
      DenominatorZeroIff(xs);
    }
  }

  // -------------------------------------------------------------- time bins

  /** One sample: seconds since the first one, and a value. */
  datatype Sample = Sample(elapsed: real, value: real)

  function BinOf(t: real, width: real): int
    requires 0.0 < width
  {
    (t / width).Floor
  }

  function InBin(i: int, width: real): Sample -> bool
    requires 0.0 < width
  {
    (s: Sample) => BinOf(s.elapsed, width) == i
  }

  function Values(samples: seq<Sample>): (values: seq<real>)
    ensures |values| == |samples| && forall i | 0 <= i < |samples| :: values[i] == samples[i].value
  {
    seq(|samples|, i requires 0 <= i < |samples| => samples[i].value)
  }

  method Latest(samples: seq<Sample>) returns (maxT: real)
    requires samples != []
    ensures exists i :: 0 <= i < |samples| && samples[i].elapsed == maxT
    ensures forall i | 0 <= i < |samples| :: samples[i].elapsed <= maxT
  {
    maxT := samples[0].elapsed;
    for i := 1 to |samples|
      invariant exists j :: 0 <= j < i && samples[j].elapsed == maxT
      invariant forall j | 0 <= j < i :: samples[j].elapsed <= maxT
    {
      if maxT < samples[i].elapsed {
        maxT := samples[i].elapsed;
      }
    }
  }

  lemma BinMonotone(t: real, u: real, width: real)
    requires 0.0 < width && t <= u
    ensures BinOf(t, width) <= BinOf(u, width)
    ensures 0.0 <= t ==> 0 <= BinOf(t, width)
  {
    DivMono(t, u, width);
    if 0.0 <= t {
      DivMono(0.0, t, width);
    }
  }

  /** A sample lies in its bin: less than half a width from the bin's centre, or at its
      left edge. */
  lemma BinHolds(t: real, width: real)
    requires 0.0 < width
    ensures var i := BinOf(t, width);
            i as real * width <= t < (i + 1) as real * width
  {
    var q, i := t / width, BinOf(t, width) as real;
    DivTimes(t, width);
    MulMono(i, q, width);
    MulLess(width, q, i + 1.0);
  }

  /** Bucket i holds, in order, the values of the samples in bin i. */
  ghost predicate Binned(buckets: seq<seq<real>>, samples: seq<Sample>, width: real)
    requires 0.0 < width
  {
    forall i | 0 <= i < |buckets| :: buckets[i] == Values(Filter(InBin(i, width), samples))
  }

  lemma OneMoreSample(buckets: seq<seq<real>>, samples: seq<Sample>, s: Sample, width: real)
    requires 0.0 < width && Binned(buckets, samples, width) && 0 <= BinOf(s.elapsed, width) < |buckets|
    ensures var at := BinOf(s.elapsed, width);
            Binned(buckets[at := buckets[at] + [s.value]], samples + [s], width)
  {
    var at := BinOf(s.elapsed, width);
    var more := buckets[at := buckets[at] + [s.value]];
    forall i | 0 <= i < |more| ensures more[i] == Values(Filter(InBin(i, width), samples + [s])) {
      FilterAppend(InBin(i, width), samples, s);
    }
  }

  /** bin_by_time: every value goes, in order, into the bin of its time; the last bin is
      the one of the latest sample, so none is missing and the last is not empty. */
  method BinByTime(samples: seq<Sample>, width: real) returns (centers: seq<real>, buckets: seq<seq<real>>)
    requires 0.0 < width && forall i | 0 <= i < |samples| :: 0.0 <= samples[i].elapsed
    ensures |centers| == |buckets| && (buckets == [] <==> samples == [])
    ensures Binned(buckets, samples, width)
    ensures forall i | 0 <= i < |centers| :: centers[i] == (i as real + 0.5) * width
    ensures forall i | 0 <= i < |samples| :: 0 <= BinOf(samples[i].elapsed, width) < |buckets|
    ensures samples != [] ==> buckets[|buckets| - 1] != []
  {
    if samples == [] {
      return [], [];
    }
    var maxT := Latest(samples);
    AllInRange(samples, maxT, width);
    var n := BinOf(maxT, width) + 1;
    buckets := seq(n, i => []);
    for k := 0 to |samples|
      invariant |buckets| == n && Binned(buckets, samples[..k], width)
    {
      var s := samples[k];
      OneMoreSample(buckets, samples[..k], s, width);
      assert samples[..k + 1] == samples[..k] + [s];
      var at := BinOf(s.elapsed, width);
      buckets := buckets[at := buckets[at] + [s.value]];
    }
    assert samples[..|samples|] == samples;
    centers := seq(n, i => (i as real + 0.5) * width);
    LastBucket(buckets, samples, maxT, width);
  }

  lemma AllInRange(samples: seq<Sample>, maxT: real, width: real)
    requires 0.0 < width && forall i | 0 <= i < |samples| :: 0.0 <= samples[i].elapsed <= maxT
    ensures forall i | 0 <= i < |samples| :: 0 <= BinOf(samples[i].elapsed, width) <= BinOf(maxT, width)
  {
    forall i | 0 <= i < |samples| ensures 0 <= BinOf(samples[i].elapsed, width) <= BinOf(maxT, width) {
      BinMonotone(samples[i].elapsed, maxT, width);
    }
  }

  lemma LastBucket(buckets: seq<seq<real>>, samples: seq<Sample>, maxT: real, width: real)
    requires 0.0 < width && Binned(buckets, samples, width) && |buckets| == BinOf(maxT, width) + 1 && buckets != []
    requires exists i :: 0 <= i < |samples| && samples[i].elapsed == maxT
    ensures buckets[|buckets| - 1] != []
  {
    var last :| 0 <= last < |samples| && samples[last].elapsed == maxT;
    FilterMembers(InBin(|buckets| - 1, width), samples, samples[last]);
  }

  // nothing is lost in the bins

  function Below(n: int, width: real): Sample -> bool
    requires 0.0 < width
  {
    (s: Sample) => 0 <= BinOf(s.elapsed, width) < n
  }

  function BucketSizes(n: nat, samples: seq<Sample>, width: real): nat
    requires 0.0 < width
  {
    if n == 0 then 0 else BucketSizes(n - 1, samples, width) + |Filter(InBin(n - 1, width), samples)|
  }

  lemma {:induction false} SizesCountSamples(n: nat, samples: seq<Sample>, width: real)
    requires 0.0 < width
    ensures BucketSizes(n, samples, width) == Count(Below(n, width), samples)
  {
    if n == 0 {
      CountZero(Below(0, width), samples);
    } else {
      SizesCountSamples(n - 1, samples, width);
      FilterCount(InBin(n - 1, width), InBin(n - 1, width), samples);
      CountSplit3(Below(n, width), Below(n - 1, width), InBin(n - 1, width), Never, samples);
      CountZero(Never, samples);
    }
  }

  /** If every sample's bin is below n, the first n buckets hold as many values as there
      are samples. */
  lemma BucketsLoseNothing(n: nat, samples: seq<Sample>, width: real)
    requires 0.0 < width && forall i | 0 <= i < |samples| :: 0 <= BinOf(samples[i].elapsed, width) < n
    ensures BucketSizes(n, samples, width) == |samples|
  {
    SizesCountSamples(n, samples, width);
    FilterCount(Below(n, width), Below(n, width), samples);
    AllBelow(n, samples, width);
  }

  lemma {:induction false} AllBelow(n: nat, samples: seq<Sample>, width: real)
    requires 0.0 < width && forall i | 0 <= i < |samples| :: 0 <= BinOf(samples[i].elapsed, width) < n
    ensures Count(Below(n, width), samples) == |samples|
  {
    if samples != [] {
      AllBelow(n, samples[..|samples| - 1], width);
    }
  }
}
