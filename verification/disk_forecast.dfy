/**
 Least-squares disk forecast (`_forecast_days_remaining`, host_health/api.py), over
 exact numbers: the rounding of the reported figures is left out.
 */
module DiskForecast {
  import opened Wrappers

  const SECONDS_PER_DAY := 86400.0

  /** `at` is in seconds, `used` and `total` in bytes. */
  datatype Sample = Sample(at: real, used: real, total: real)

  datatype Forecast =
    | InsufficientData
    | StableOrShrinking(growth: real)
    | Growing(growth: real, daysRemaining: real)

  function Sum(v: seq<real>): real {
    if v == [] then 0.0 else Sum(v[..|v| - 1]) + v[|v| - 1]
  }

  /** A product under a name of its own, so that the lemmas on sums see plain numbers. */
  function Product(u: real, v: real): real {
    u * v
  }

  /** The terms (x - a) * (y - b) of paired values. */
  function Terms(xs: seq<real>, ys: seq<real>, a: real, b: real): (t: seq<real>)
    requires |xs| == |ys|
    ensures |t| == |xs|
  {
    seq(|xs|, i requires 0 <= i < |xs| => Product(xs[i] - a, ys[i] - b))
  }

  function Dot(xs: seq<real>, ys: seq<real>, a: real, b: real): real
    requires |xs| == |ys|
  {
    Sum(Terms(xs, ys, a, b))
  }

  function Mean(v: seq<real>): real
    requires v != []
  {
    Sum(v) / |v| as real
  }

  /** Days since the first sample. */
  function Days(samples: seq<Sample>): (xs: seq<real>)
    ensures |xs| == |samples|
  {
    seq(|samples|, i requires 0 <= i < |samples| => (samples[i].at - samples[0].at) / SECONDS_PER_DAY)
  }

  function Used(samples: seq<Sample>): (ys: seq<real>)
    ensures |ys| == |samples|
  {
    seq(|samples|, i requires 0 <= i < |samples| => samples[i].used)
  }

  /** None below the minimum number of samples. */
  function ForecastOf(samples: seq<Sample>, minSamples: nat): Option<Forecast>
    requires minSamples >= 1
  {
    if |samples| < minSamples then None
    else
      var xs, ys := Days(samples), Used(samples);
      var mx, my := Mean(xs), Mean(ys);
      var denom := Dot(xs, xs, mx, mx);
      if denom == 0.0 then Some(InsufficientData)
      else
        var slope := Dot(xs, ys, mx, my) / denom;
        if slope <= 0.0 then Some(StableOrShrinking(slope))
        else
          var latest := samples[|samples| - 1];
          var remaining := latest.total - latest.used;
          Some(Growing(slope, if remaining > 0.0 then remaining / slope else 0.0))
  }

  // ---------------------------------------------------------------------------
  // Sums
  // ---------------------------------------------------------------------------

  lemma {:induction false} SumCompare(v: seq<real>, w: seq<real>)
    requires |v| == |w| && forall i :: 0 <= i < |v| ==> v[i] <= w[i]
    ensures Sum(v) <= Sum(w)
    ensures forall i :: 0 <= i < |v| && v[i] < w[i] ==> Sum(v) < Sum(w)
  {
    if v != [] {
      var n := |v| - 1;
      assert forall i :: 0 <= i < n ==> v[..n][i] == v[i] && w[..n][i] == w[i];
      SumCompare(v[..n], w[..n]);
    }
  }

  lemma {:induction false} Distribute(k: real, s: real, x: real, y: real)
    requires y == s + x
    ensures Product(k, y) == Product(k, s) + Product(k, x)
  {
  }

  lemma {:induction false} SumAdd(u: seq<real>, v: seq<real>, w: seq<real>)
    requires |u| == |v| == |w| && forall i :: 0 <= i < |u| ==> u[i] == v[i] + w[i]
    ensures Sum(u) == Sum(v) + Sum(w)
  {
    if u != [] {
      var n := |u| - 1;
      assert forall i :: 0 <= i < n ==> u[..n][i] == u[i] && v[..n][i] == v[i] && w[..n][i] == w[i];
      SumAdd(u[..n], v[..n], w[..n]);
    }
  }

  lemma {:induction false} SumScale(u: seq<real>, t: seq<real>, k: real)
    requires |u| == |t| && forall i :: 0 <= i < |t| ==> u[i] == Product(k, t[i])
    ensures Sum(u) == Product(k, Sum(t))
  {
    if t != [] {
      var n := |t| - 1;
      SumScale(u[..n], t[..n], k);
      Distribute(k, Sum(t[..n]), t[n], Sum(t));
    }
  }

  function Constant(n: nat, c: real): (v: seq<real>)
    ensures |v| == n
  {
    seq(n, i => c)
  }

  lemma {:induction false} SumConstant(n: nat, c: real)
    ensures Sum(Constant(n, c)) == c * n as real
  {
    if n > 0 {
      SumConstant(n - 1, c);
      assert Constant(n, c)[..n - 1] == Constant(n - 1, c);
      Distribute(c, (n - 1) as real, 1.0, n as real);
    }
  }

  ghost predicate Rising(v: seq<real>) {
    forall i, j :: 0 <= i <= j < |v| ==> v[i] <= v[j]
  }

  lemma {:induction false} QuotientBetween(s: real, n: real, lo: real, hi: real, m: real)
    requires n > 0.0 && lo * n < s < hi * n && m == s / n
    ensures lo < m < hi
  {
    assert s == m * n;
  }

  /** The mean of rising values that are not all equal lies strictly between the ends. */
  lemma {:induction false} MeanStrictlyBetween(v: seq<real>)
    requires v != [] && Rising(v) && v[0] < v[|v| - 1]
    ensures v[0] < Mean(v) < v[|v| - 1]
  {
    var n, lo, hi := |v|, v[0], v[|v| - 1];
    SumBetween(v, n, lo, hi);
    QuotientBetween(Sum(v), n as real, lo, hi, Mean(v));
  }

  lemma {:induction false} SumBetween(v: seq<real>, n: nat, lo: real, hi: real)
    requires n == |v| > 0 && Rising(v) && lo == v[0] < hi == v[n - 1]
    ensures lo * n as real < Sum(v) < hi * n as real
  {
    SumCompare(Constant(n, lo), v);
    SumCompare(v, Constant(n, hi));
    assert Constant(n, lo)[n - 1] < v[n - 1] && v[0] < Constant(n, hi)[0];
    SumConstant(n, lo);
    SumConstant(n, hi);
  }

  lemma {:induction false} MeanTimesCount(v: seq<real>)
    requires v != []
    ensures Mean(v) * |v| as real == Sum(v)
  {
  }

  /** Deviations from the mean sum to zero. */
  lemma {:induction false} DeviationsCancel(v: seq<real>, d: seq<real>, a: real)
    requires v != [] && |d| == |v| && forall i :: 0 <= i < |v| ==> d[i] == v[i] - a
    requires a * |v| as real == Sum(v)
    ensures Sum(d) == 0.0
  {
    SumAdd(v, d, Constant(|v|, a));
    SumConstant(|v|, a);
  }

  /** With u = x - a: u * (y - b) exceeds u * (y - c) by (c - b) * u. */
  lemma {:induction false} ShiftProduct(u: real, v: real, v': real, k: real)
    requires v == v' + k
    ensures Product(u, v) == Product(u, v') + Product(k, u)
  {
    Distribute(u, v', k, v);
  }

  lemma {:induction false} DotShift(xs: seq<real>, ys: seq<real>, a: real, b: real, c: real, d: seq<real>)
    requires |xs| == |ys| == |d| && Sum(d) == 0.0 && forall i :: 0 <= i < |xs| ==> d[i] == xs[i] - a
    ensures Dot(xs, ys, a, b) == Dot(xs, ys, a, c)
  {
    var k := c - b;
    var w := seq(|d|, i requires 0 <= i < |d| => Product(k, d[i]));
    forall i | 0 <= i < |xs|
      ensures Terms(xs, ys, a, b)[i] == Terms(xs, ys, a, c)[i] + w[i]
    {
      ShiftProduct(d[i], ys[i] - b, ys[i] - c, k);
    }
    SumAdd(Terms(xs, ys, a, b), Terms(xs, ys, a, c), w);
    SumScale(w, d, k);
    assert Product(k, 0.0) == 0.0;
  }

  /** Around its own mean the first series lets the second be centred anywhere. */
  lemma {:induction false} CentreIsFree(xs: seq<real>, ys: seq<real>, b: real, c: real)
    requires xs != [] && |xs| == |ys|
    ensures Dot(xs, ys, Mean(xs), b) == Dot(xs, ys, Mean(xs), c)
  {
    var a := Mean(xs);
    var d := seq(|xs|, i requires 0 <= i < |xs| => xs[i] - a);
    MeanTimesCount(xs);
    DeviationsCancel(xs, d, a);
    DotShift(xs, ys, a, b, c, d);
  }

  /** Non-negative terms have a non-negative sum, and a positive one makes it positive. */
  lemma {:induction false} SumOfSigns(t: seq<real>)
    requires forall i :: 0 <= i < |t| ==> t[i] >= 0.0
    ensures Sum(t) >= 0.0
    ensures forall i :: 0 <= i < |t| && t[i] > 0.0 ==> Sum(t) > 0.0
  {
    SumConstant(|t|, 0.0);
    SumCompare(Constant(|t|, 0.0), t);
    forall i | 0 <= i < |t| && t[i] > 0.0
      ensures Sum(t) > 0.0
    {
      assert Constant(|t|, 0.0)[i] < t[i];
    }
  }

  lemma {:induction false} SameSigns(u: real, v: real)
    requires (u >= 0.0 && v >= 0.0) || (u <= 0.0 && v <= 0.0)
    ensures Product(u, v) >= 0.0
    ensures u != 0.0 && v != 0.0 ==> Product(u, v) > 0.0
  {
  }

  /** The sign of one term. */
  lemma {:induction false} TermSign(xs: seq<real>, ys: seq<real>, a: real, b: real, i: nat)
    requires |xs| == |ys| && i < |xs|
    requires (xs[i] >= a && ys[i] >= b) || (xs[i] <= a && ys[i] <= b)
    ensures Terms(xs, ys, a, b)[i] >= 0.0
    ensures xs[i] != a && ys[i] != b ==> Terms(xs, ys, a, b)[i] > 0.0
  {
    SameSigns(xs[i] - a, ys[i] - b);
  }

  // ---------------------------------------------------------------------------
  // When the fit is defined, and when it grows
  // ---------------------------------------------------------------------------

  /** The spread of a series is zero exactly when it is constant. */
  lemma {:induction false} SpreadIsZeroIff(xs: seq<real>, a: real)
    ensures Dot(xs, xs, a, a) >= 0.0
    ensures Dot(xs, xs, a, a) == 0.0 <==> forall i :: 0 <= i < |xs| ==> xs[i] == a
  {
    var t := Terms(xs, xs, a, a);
    forall i | 0 <= i < |xs|
      ensures t[i] >= 0.0 && (xs[i] != a ==> t[i] > 0.0)
    {
      TermSign(xs, xs, a, a, i);
    }
    SumOfSigns(t);
    if forall i :: 0 <= i < |xs| ==> xs[i] == a {
      forall i | 0 <= i < |xs|
        ensures t[i] == 0.0
      {
        assert xs[i] - a == 0.0 && t[i] == Product(0.0, 0.0);
      }
      assert t == Constant(|xs|, 0.0);
      SumConstant(|xs|, 0.0);
    }
  }

  /** The first place where a series reaches a value it ends above. */
  lemma {:induction false} Crossing(xs: seq<real>, a: real) returns (k: nat)
    requires xs != [] && xs[|xs| - 1] >= a
    ensures k < |xs| && xs[k] >= a && forall i :: 0 <= i < k ==> xs[i] < a
  {
    k := 0;
    while xs[k] < a
      invariant 0 <= k < |xs|
      invariant forall i :: 0 <= i < k ==> xs[i] < a
      decreases |xs| - k
    {
      k := k + 1;
    }
  }

  /** Chebyshev's sum inequality, strict: two rising series that both end above where they
      began have a positive covariance.  Centring the second at its value where the first
      crosses its mean makes every single term non-negative. */
  lemma {:induction false} RisingTogether(xs: seq<real>, ys: seq<real>, b: real)
    requires |xs| == |ys| && xs != [] && Rising(xs) && Rising(ys)
    requires xs[0] < xs[|xs| - 1] && ys[0] < ys[|ys| - 1]
    ensures Dot(xs, ys, Mean(xs), b) > 0.0
  {
    var a, last := Mean(xs), |xs| - 1;
    MeanStrictlyBetween(xs);
    var k := Crossing(xs, a);
    var c := ys[k];
    var t := Terms(xs, ys, a, c);
    forall i | 0 <= i < |xs|
      ensures t[i] >= 0.0
    {
      if i < k {
        assert ys[i] <= ys[k];
      } else {
        assert xs[k] <= xs[i] && ys[k] <= ys[i];
      }
      TermSign(xs, ys, a, c, i);
    }
    var w := if ys[0] < c then 0 else last;
    assert ys[0] <= c <= ys[last];
    TermSign(xs, ys, a, c, w);
    SumOfSigns(t);
    CentreIsFree(xs, ys, b, c);
  }

  /** Samples in time order whose usage never falls. */
  ghost predicate NeverFalls(samples: seq<Sample>) {
    && (forall i, j :: 0 <= i <= j < |samples| ==> samples[i].at <= samples[j].at)
    && (forall i, j :: 0 <= i <= j < |samples| ==> samples[i].used <= samples[j].used)
  }

  lemma {:induction false} DaysRise(samples: seq<Sample>)
    requires samples != [] && NeverFalls(samples)
    ensures Rising(Days(samples)) && Rising(Used(samples))
    ensures samples[0].at < samples[|samples| - 1].at ==> Days(samples)[0] < Days(samples)[|samples| - 1]
  {
    forall i, j | 0 <= i <= j < |samples|
      ensures Days(samples)[i] <= Days(samples)[j]
    {
      assert samples[i].at - samples[0].at <= samples[j].at - samples[0].at;
    }
  }

  /** The trend is "insufficient data" exactly when all samples were taken at one instant. */
  lemma {:induction false} InsufficientIff(samples: seq<Sample>, minSamples: nat)
    requires minSamples >= 1 && |samples| >= minSamples
    ensures ForecastOf(samples, minSamples) == Some(InsufficientData) <==>
      forall i :: 0 <= i < |samples| ==> samples[i].at == samples[0].at
  {
    var xs := Days(samples);
    SpreadIsZeroIff(xs, Mean(xs));
    if forall i :: 0 <= i < |samples| ==> samples[i].at == samples[0].at {
      assert xs == Constant(|xs|, 0.0);
      SumConstant(|xs|, 0.0);
    } else {
      var i :| 0 <= i < |samples| && samples[i].at != samples[0].at;
      assert xs[i] != xs[0];
    }
  }

  /** Usage that never falls and ends higher than it began is reported as growing. */
  lemma {:induction false} GrowthIsSeen(samples: seq<Sample>, minSamples: nat)
    requires minSamples >= 1 && |samples| >= minSamples && NeverFalls(samples)
    requires samples[0].at < samples[|samples| - 1].at && samples[0].used < samples[|samples| - 1].used
    ensures
      var f := ForecastOf(samples, minSamples);
      f.Some? && f.value.Growing? && f.value.growth > 0.0 && f.value.daysRemaining >= 0.0
  {
    var xs, ys := Days(samples), Used(samples);
    DaysRise(samples);
    InsufficientIff(samples, minSamples);
    RisingTogether(xs, ys, Mean(ys));
    SpreadIsZeroIff(xs, Mean(xs));
  }

  lemma {:induction false} DaysToFill(remaining: real, growth: real)
    requires remaining > 0.0 && growth > 0.0
    ensures remaining / growth > 0.0 && growth * (remaining / growth) == remaining
  {
  }

  /** What is reported: nothing below the minimum of samples; growing exactly with a positive growth, and
      then the days in which that growth fills what is left at the latest sample, none if it is full. */
  lemma {:induction false} ForecastMeans(samples: seq<Sample>, minSamples: nat)
    requires minSamples >= 1
    ensures ForecastOf(samples, minSamples).None? <==> |samples| < minSamples
    ensures
      match ForecastOf(samples, minSamples)
      case Some(Growing(growth, days)) =>
        var latest := samples[|samples| - 1];
        && growth > 0.0
        && (if latest.used < latest.total then days > 0.0 && growth * days == latest.total - latest.used
          else days == 0.0)
      case Some(StableOrShrinking(growth)) => growth <= 0.0
      case _ => true
  {
    var f := ForecastOf(samples, minSamples);
    if f.Some? && f.value.Growing? {
      var latest := samples[|samples| - 1];
      if latest.used < latest.total {
        DaysToFill(latest.total - latest.used, f.value.growth);
      }
    }
  }

  // ---------------------------------------------------------------------------
  // The fit is the least-squares line
  // ---------------------------------------------------------------------------

  /** What the line p + q * x leaves over at each sample. */
  function Residuals(xs: seq<real>, ys: seq<real>, p: real, q: real): (r: seq<real>)
    requires |xs| == |ys|
    ensures |r| == |xs|
  {
    seq(|xs|, i requires 0 <= i < |xs| => ys[i] - (p + Product(q, xs[i])))
  }

  function Products(a: seq<real>, b: seq<real>): (t: seq<real>)
    requires |a| == |b|
    ensures |t| == |a|
  {
    seq(|a|, i requires 0 <= i < |a| => Product(a[i], b[i]))
  }

  /** The sum of squared residuals of a line. */
  function SquaredError(xs: seq<real>, ys: seq<real>, p: real, q: real): real
    requires |xs| == |ys|
  {
    Sum(Products(Residuals(xs, ys, p, q), Residuals(xs, ys, p, q)))
  }

  lemma {:induction false} SquareOfSum(s: real, r: real, g: real)
    requires s == r + g
    ensures Product(s, s) == Product(r, r) + (Product(r, g) + (Product(r, g) + Product(g, g)))
  {
  }

  lemma {:induction false} SumOfSquares(s: seq<real>, r: seq<real>, g: seq<real>)
    requires |s| == |r| == |g| && forall i :: 0 <= i < |s| ==> s[i] == r[i] + g[i]
    ensures Sum(Products(s, s)) ==
      Sum(Products(r, r)) + (Sum(Products(r, g)) + (Sum(Products(r, g)) + Sum(Products(g, g))))
  {
    var a := seq(|s|, i requires 0 <= i < |s| => Product(r[i], g[i]) + Product(g[i], g[i]));
    var b := seq(|s|, i requires 0 <= i < |s| => Product(r[i], g[i]) + a[i]);
    forall i | 0 <= i < |s|
      ensures Products(s, s)[i] == Products(r, r)[i] + b[i]
    {
      SquareOfSum(s[i], r[i], g[i]);
    }
    SumAdd(Products(s, s), Products(r, r), b);
    SumAdd(b, Products(r, g), a);
    SumAdd(a, Products(r, g), Products(g, g));
  }

  lemma {:induction false} ProductOfSum(r: real, k: real, b: real, x: real, g: real)
    requires g == k + Product(b, x)
    ensures Product(r, g) == Product(k, r) + Product(b, Product(r, x))
  {
  }

  /** What is orthogonal to 1 and to x is orthogonal to every line. */
  lemma {:induction false} OrthogonalToLines(r: seq<real>, xs: seq<real>, g: seq<real>, k: real, b: real)
    requires |r| == |xs| == |g| && forall i :: 0 <= i < |r| ==> g[i] == k + Product(b, xs[i])
    requires Sum(r) == 0.0 && Sum(Products(r, xs)) == 0.0
    ensures Sum(Products(r, g)) == 0.0
  {
    var u := seq(|r|, i requires 0 <= i < |r| => Product(k, r[i]));
    var v := seq(|r|, i requires 0 <= i < |r| => Product(b, Products(r, xs)[i]));
    forall i | 0 <= i < |r|
      ensures Products(r, g)[i] == u[i] + v[i]
    {
      ProductOfSum(r[i], k, b, xs[i], g[i]);
    }
    SumAdd(Products(r, g), u, v);
    SumScale(u, r, k);
    SumScale(v, Products(r, xs), b);
    assert Product(k, 0.0) == 0.0 && Product(b, 0.0) == 0.0;
  }

  /** The fit's residuals, as deviations from the means. */
  lemma {:induction false} CentredResidual(x: real, y: real, mx: real, my: real, m: real, c: real)
    requires c == my - Product(m, mx)
    ensures y - (c + Product(m, x)) == (y - my) - Product(m, x - mx)
  {
    Distribute(m, x - mx, mx, x);
  }

  function Deviations(v: seq<real>, a: real): (d: seq<real>)
    ensures |d| == |v|
  {
    seq(|v|, i requires 0 <= i < |v| => v[i] - a)
  }

  /** The residuals of the fit sum to zero. */
  lemma {:induction false} ResidualsCancel(xs: seq<real>, ys: seq<real>, mx: real, my: real, m: real, c: real)
    requires |xs| == |ys| && c == my - Product(m, mx)
    requires Sum(Deviations(xs, mx)) == 0.0 && Sum(Deviations(ys, my)) == 0.0
    ensures Sum(Residuals(xs, ys, c, m)) == 0.0
  {
    var (r, dx, dy) := (Residuals(xs, ys, c, m), Deviations(xs, mx), Deviations(ys, my));
    var u := seq(|xs|, i requires 0 <= i < |xs| => Product(m, dx[i]));
    forall i | 0 <= i < |xs|
      ensures dy[i] == r[i] + u[i]
    {
      CentredResidual(xs[i], ys[i], mx, my, m, c);
    }
    SumAdd(dy, r, u);
    SumScale(u, dx, m);
    assert Product(m, 0.0) == 0.0;
  }

  lemma {:induction false} ResidualTimes(x: real, dx: real, mx: real, dy: real, m: real, r: real)
    requires x == dx + mx && r == dy - Product(m, dx)
    ensures Product(r, x) + Product(m, Product(dx, dx)) == Product(dx, dy) + Product(mx, r)
  {
  }

  lemma {:induction false} ResidualTerm(
    xs: seq<real>, ys: seq<real>, mx: real, my: real, m: real, c: real, r: seq<real>, i: nat)
    requires |xs| == |ys| && i < |xs| && c == my - Product(m, mx) && r == Residuals(xs, ys, c, m)
    ensures Product(r[i], xs[i]) + Product(m, Terms(xs, xs, mx, mx)[i]) == Terms(xs, ys, mx, my)[i] + Product(mx, r[i])
  {
    CentredResidual(xs[i], ys[i], mx, my, m, c);
    ResidualTimes(xs[i], xs[i] - mx, mx, ys[i] - my, m, r[i]);
  }

  /** And they are orthogonal to the times. */
  lemma {:induction false} ResidualsOrthogonal(xs: seq<real>, ys: seq<real>, mx: real, my: real, m: real, c: real)
    requires |xs| == |ys| && c == my - Product(m, mx) && Sum(Residuals(xs, ys, c, m)) == 0.0
    requires Dot(xs, ys, mx, my) == Product(m, Dot(xs, xs, mx, mx))
    ensures Sum(Products(Residuals(xs, ys, c, m), xs)) == 0.0
  {
    var r := Residuals(xs, ys, c, m);
    var (a, b, t) := (Products(r, xs), Terms(xs, ys, mx, my), Terms(xs, xs, mx, mx));
    var u := seq(|xs|, i requires 0 <= i < |xs| => Product(m, t[i]));
    var v := seq(|xs|, i requires 0 <= i < |xs| => Product(mx, r[i]));
    var w := seq(|xs|, i requires 0 <= i < |xs| => a[i] + u[i]);
    forall i | 0 <= i < |xs|
      ensures w[i] == b[i] + v[i]
    {
      ResidualTerm(xs, ys, mx, my, m, c, r, i);
      assert a[i] == Product(r[i], xs[i]);
      assert u[i] == Product(m, t[i]);
      assert v[i] == Product(mx, r[i]);
      assert w[i] == a[i] + u[i];
    }
    SumAdd(w, a, u);
    SumAdd(w, b, v);
    SumScale(u, t, m);
    SumScale(v, r, mx);
    assert Product(mx, 0.0) == 0.0;
  }

  lemma {:induction false} ResidualDifference(x: real, y: real, m: real, c: real, p: real, q: real)
    ensures y - (p + Product(q, x)) == (y - (c + Product(m, x))) + ((c - p) + Product(m - q, x))
  {
  }

  /** Any line differs from the fit by a line, to which the residuals are orthogonal. */
  lemma {:induction false} ErrorSplits(
    xs: seq<real>, ys: seq<real>, m: real, c: real, p: real, q: real, g: seq<real>)
    requires |xs| == |ys| && Sum(Residuals(xs, ys, c, m)) == 0.0 && Sum(Products(Residuals(xs, ys, c, m), xs)) == 0.0
    requires |g| == |xs| && forall i :: 0 <= i < |xs| ==> g[i] == (c - p) + Product(m - q, xs[i])
    ensures SquaredError(xs, ys, p, q) == SquaredError(xs, ys, c, m) + Sum(Products(g, g))
  {
    var (r, s) := (Residuals(xs, ys, c, m), Residuals(xs, ys, p, q));
    forall i | 0 <= i < |xs|
      ensures s[i] == r[i] + g[i]
    {
      ResidualDifference(xs[i], ys[i], m, c, p, q);
    }
    OrthogonalToLines(r, xs, g, c - p, m - q);
    SumOfSquares(s, r, g);
  }

  lemma {:induction false} SquaresArePositive(g: seq<real>)
    ensures Sum(Products(g, g)) >= 0.0
    ensures (exists i :: 0 <= i < |g| && g[i] != 0.0) ==> Sum(Products(g, g)) > 0.0
  {
    forall i | 0 <= i < |g|
      ensures Products(g, g)[i] >= 0.0 && (g[i] != 0.0 ==> Products(g, g)[i] > 0.0)
    {
      SameSigns(g[i], g[i]);
    }
    SumOfSigns(Products(g, g));
  }

  lemma {:induction false} LineVanishesOnce(k: real, b: real, x: real, y: real)
    requires b != 0.0 && x != y && k + Product(b, x) == 0.0
    ensures k + Product(b, y) != 0.0
  {
    Distribute(b, x, y - x, y);
    if y > x {
      SameSigns(if b > 0.0 then b else -b, y - x);
    } else {
      SameSigns(if b > 0.0 then b else -b, x - y);
    }
  }

  lemma {:induction false} MeansCancel(xs: seq<real>)
    requires xs != []
    ensures Sum(Deviations(xs, Mean(xs))) == 0.0
  {
    MeanTimesCount(xs);
    DeviationsCancel(xs, Deviations(xs, Mean(xs)), Mean(xs));
  }

  /** The reported growth is the slope of the line with the least sum of squared residuals: no line has
      less, and no line of another slope has as little. */
  lemma {:induction false} GrowthIsLeastSquares(samples: seq<Sample>, minSamples: nat, growth: real, p: real, q: real)
    requires minSamples >= 1 && |samples| >= minSamples
    requires
      var f := ForecastOf(samples, minSamples);
      f.Some? && !f.value.InsufficientData? && growth == f.value.growth
    ensures
      var (xs, ys) := (Days(samples), Used(samples));
      var c := Mean(ys) - Product(growth, Mean(xs));
      && SquaredError(xs, ys, c, growth) <= SquaredError(xs, ys, p, q)
      && (q != growth ==> SquaredError(xs, ys, c, growth) < SquaredError(xs, ys, p, q))
  {
    var (xs, ys) := (Days(samples), Used(samples));
    var denom := Dot(xs, xs, Mean(xs), Mean(xs));
    InsufficientIff(samples, minSamples);
    var i :| 0 <= i < |samples| && samples[i].at != samples[0].at;
    assert xs[i] != xs[0];
    BestLine(xs, ys, growth, p, q, denom, i);
  }

  lemma {:induction false} QuotientBack(n: real, d: real, m: real)
    requires d != 0.0 && m == n / d
    ensures n == Product(m, d)
  {
  }

  lemma {:induction false} BestLine(xs: seq<real>, ys: seq<real>, m: real, p: real, q: real, denom: real, i: nat)
    requires |xs| == |ys| && i < |xs| && xs[i] != xs[0]
    requires denom == Dot(xs, xs, Mean(xs), Mean(xs)) && denom != 0.0 && m == Dot(xs, ys, Mean(xs), Mean(ys)) / denom
    ensures
      var c := Mean(ys) - Product(m, Mean(xs));
      && SquaredError(xs, ys, c, m) <= SquaredError(xs, ys, p, q)
      && (q != m ==> SquaredError(xs, ys, c, m) < SquaredError(xs, ys, p, q))
  {
    var (mx, my) := (Mean(xs), Mean(ys));
    var c := my - Product(m, mx);
    var g := seq(|xs|, j requires 0 <= j < |xs| => (c - p) + Product(m - q, xs[j]));
    QuotientBack(Dot(xs, ys, mx, my), denom, m);
    MeansCancel(xs);
    MeansCancel(ys);
    ResidualsCancel(xs, ys, mx, my, m, c);
    ResidualsOrthogonal(xs, ys, mx, my, m, c);
    ErrorSplits(xs, ys, m, c, p, q, g);
    SquaresArePositive(g);
    if q != m {
      if g[0] == 0.0 {
        LineVanishesOnce(c - p, m - q, xs[0], xs[i]);
        assert g[i] != 0.0;
      }
    }
  }

  // ---------------------------------------------------------------------------
  // Data on a line
  // ---------------------------------------------------------------------------

  /** On the line y - b is q * (x - a), so each term is q times a square. */
  lemma {:induction false} ProductOnLine(u: real, v: real, q: real)
    requires v == Product(q, u)
    ensures Product(u, v) == Product(q, Product(u, u))
  {
  }

  /** The points of the line, seen from the point (a, b) on it. */
  ghost predicate OnLine(xs: seq<real>, ys: seq<real>, a: real, b: real, q: real)
    requires |xs| == |ys|
  {
    forall i :: 0 <= i < |xs| ==> ys[i] - b == Product(q, xs[i] - a)
  }

  lemma {:induction false} DotOnLine(xs: seq<real>, ys: seq<real>, a: real, b: real, q: real)
    requires |xs| == |ys| && OnLine(xs, ys, a, b, q)
    ensures Dot(xs, ys, a, b) == Product(q, Dot(xs, xs, a, a))
  {
    forall i | 0 <= i < |xs|
      ensures Terms(xs, ys, a, b)[i] == Product(q, Terms(xs, xs, a, a)[i])
    {
      ProductOnLine(xs[i] - a, ys[i] - b, q);
    }
    SumScale(Terms(xs, ys, a, b), Terms(xs, xs, a, a), q);
  }

  /** A line through (0, p) passes through (a, p + q * a). */
  lemma {:induction false} LineAbout(xs: seq<real>, ys: seq<real>, a: real, p: real, q: real)
    requires |xs| == |ys| && OnLine(xs, ys, 0.0, p, q)
    ensures OnLine(xs, ys, a, p + Product(q, a), q)
  {
    forall i | 0 <= i < |xs|
      ensures ys[i] - (p + Product(q, a)) == Product(q, xs[i] - a)
    {
      assert ys[i] - p == Product(q, xs[i] - 0.0) == Product(q, xs[i]);
      Distribute(q, a, xs[i] - a, xs[i]);
    }
  }

  /** On exactly linear data the fitted growth is the line's own. */
  lemma {:induction false} SlopeOfALine(xs: seq<real>, ys: seq<real>, p: real, q: real)
    requires xs != [] && |xs| == |ys| && OnLine(xs, ys, 0.0, p, q)
    ensures Dot(xs, ys, Mean(xs), Mean(ys)) == Product(q, Dot(xs, xs, Mean(xs), Mean(xs)))
  {
    var a := Mean(xs);
    var b := p + Product(q, a);
    CentreIsFree(xs, ys, Mean(ys), b);
    LineAbout(xs, ys, a, p, q);
    DotOnLine(xs, ys, a, b, q);
  }

  lemma {:induction false} CancelFactor(n: real, q: real, d: real)
    requires n == Product(q, d) && d != 0.0
    ensures n / d == q
  {
  }

  lemma {:induction false} FittedSlope(xs: seq<real>, ys: seq<real>, p: real, q: real, denom: real)
    requires xs != [] && |xs| == |ys| && OnLine(xs, ys, 0.0, p, q)
    requires denom == Dot(xs, xs, Mean(xs), Mean(xs)) && denom != 0.0
    ensures Dot(xs, ys, Mean(xs), Mean(ys)) / denom == q
  {
    SlopeOfALine(xs, ys, p, q);
    CancelFactor(Dot(xs, ys, Mean(xs), Mean(ys)), q, denom);
  }

  /** From `x` on, the line needs (total - used) / q more days to reach the total. */
  lemma {:induction false} LineReachesTotal(p: real, q: real, x: real, used: real, total: real, days: real)
    requires q > 0.0 && used == p + q * x && days == (total - used) / q
    ensures p + q * (x + days) == total
  {
    assert q * days == total - used;
    Distribute(q, x, days, x + days);
  }

  lemma {:induction false} SamplesOnLine(samples: seq<Sample>, p: real, q: real)
    requires forall i :: 0 <= i < |samples| ==> samples[i].used == p + q * Days(samples)[i]
    ensures OnLine(Days(samples), Used(samples), 0.0, p, q)
  {
    var xs, ys := Days(samples), Used(samples);
    forall i | 0 <= i < |xs|
      ensures ys[i] - p == Product(q, xs[i] - 0.0)
    {
      var x := xs[i];
      assert ys[i] == p + q * x && x - 0.0 == x;
    }
  }

  /** Its growth is recovered, and the forecast is exactly when the line reaches the total. */
  lemma {:induction false} LineIsForecastExactly(samples: seq<Sample>, minSamples: nat, p: real, q: real)
    requires minSamples >= 1 && |samples| >= minSamples
    requires forall i :: 0 <= i < |samples| ==> samples[i].used == p + q * Days(samples)[i]
    requires exists i :: 0 <= i < |samples| && samples[i].at != samples[0].at
    ensures
      var latest, x := samples[|samples| - 1], Days(samples)[|samples| - 1];
      match ForecastOf(samples, minSamples)
      case Some(Growing(growth, days)) =>
        growth == q && q > 0.0 &&
        (if latest.total > latest.used then p + q * (x + days) == latest.total else days == 0.0)
      case Some(StableOrShrinking(growth)) => growth == q && q <= 0.0
      case _ => false
  {
    var xs, ys := Days(samples), Used(samples);
    InsufficientIff(samples, minSamples);
    SamplesOnLine(samples, p, q);
    FittedSlope(xs, ys, p, q, Dot(xs, xs, Mean(xs), Mean(xs)));
    var latest := samples[|samples| - 1];
    if q > 0.0 {
      LineReachesTotal(p, q, xs[|xs| - 1], latest.used, latest.total, (latest.total - latest.used) / q);
    }
  }
}
