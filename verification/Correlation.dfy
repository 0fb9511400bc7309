/**
 * The correlation of two candidates' held-out results, matched by session: exact arithmetic over the reals, with
 * the square root as a parameter.
 */
module Correlation {
  import opened Basics

  /** Results summed per session. */
  type Series = map<nat, real>

  const MIN_OVERLAP_SESSIONS: nat := 10
  const UNKNOWN_CORRELATION: real := 1.0

  /** A square root on the non-negative reals. */
  ghost predicate IsRoot(root: real -> real) {
    forall s :: s >= 0.0 ==> root(s) >= 0.0 && Times(root(s), root(s)) == s
  }

  // ---- Matching sessions

  predicate Least(x: nat, s: set<nat>) { x in s && forall y :: y in s ==> x <= y }

  lemma {:induction false} HasLeast(s: set<nat>)
    requires s != {}
    ensures exists x :: Least(x, s)
    decreases |s|
  {
    var x :| x in s;
    var rest := s - {x};
    if rest == {} {
      assert s == {x};
      assert Least(x, s);
    } else {
      HasLeast(rest);
      var y :| Least(y, rest);
      assert s == rest + {x};
      assert Least(if x <= y then x else y, s);
    }
  }

  function Sorted(s: set<nat>): (r: seq<nat>)
    ensures |r| == |s|
    ensures forall k :: k in r <==> k in s
    decreases |s|
  {
    if s == {} then []
    else
      HasLeast(s);
      var x :| Least(x, s);
      [x] + Sorted(s - {x})
  }

  function Shared(left: Series, right: Series): (keys: seq<nat>)
    ensures forall k :: k in keys <==> k in left && k in right
  {
    Sorted(left.Keys * right.Keys)
  }

  function Values(series: Series, keys: seq<nat>): (r: seq<real>)
    requires forall k :: k in keys ==> k in series
    ensures |r| == |keys| && forall i :: 0 <= i < |r| ==> r[i] == series[keys[i]]
  {
    seq(|keys|, i requires 0 <= i < |keys| => series[keys[i]])
  }

  // ---- Moments

  function Sum(xs: seq<real>): real { if xs == [] then 0.0 else Sum(xs[..|xs| - 1]) + xs[|xs| - 1] }

  function Mean(xs: seq<real>): real
    requires xs != []
  {
    Sum(xs) / |xs| as real
  }

  function Deviations(xs: seq<real>, mean: real): (r: seq<real>)
    ensures |r| == |xs| && forall i :: 0 <= i < |r| ==> r[i] == xs[i] - mean
  {
    seq(|xs|, i requires 0 <= i < |xs| => xs[i] - mean)
  }

  function Dot(xs: seq<real>, ys: seq<real>): real
    requires |xs| == |ys|
  {
    if xs == [] then 0.0 else Dot(xs[..|xs| - 1], ys[..|ys| - 1]) + Times(xs[|xs| - 1], ys[|ys| - 1])
  }

  /** Deviations of the shared sessions from their mean. */
  function Centered(series: Series, keys: seq<nat>): (r: seq<real>)
    requires keys != [] && forall k :: k in keys ==> k in series
    ensures |r| == |keys|
  {
    var xs := Values(series, keys);
    Deviations(xs, Mean(xs))
  }

  function Ratio(p: real, q: real): real { if q == 0.0 then 0.0 else p / q }

  /** The estimate from deviations, before clamping. */
  function Estimate(a: seq<real>, b: seq<real>, root: real -> real): real
    requires |a| == |b|
  {
    Ratio(Dot(a, b), root(Times(Dot(a, a), Dot(b, b))))
  }

  function Clamped(a: seq<real>, b: seq<real>, root: real -> real): real
    requires |a| == |b|
  {
    if Dot(a, a) <= 0.0 || Dot(b, b) <= 0.0 then UNKNOWN_CORRELATION
    else Max(0.0, Min(1.0, Estimate(a, b, root)))
  }

  function Correlation(left: Series, right: Series, root: real -> real): real {
    var keys := Shared(left, right);
    if |keys| < MIN_OVERLAP_SESSIONS then UNKNOWN_CORRELATION
    else Clamped(Centered(left, keys), Centered(right, keys), root)
  }

  // ---- Symmetry

  lemma {:induction false} DotCommutes(xs: seq<real>, ys: seq<real>)
    requires |xs| == |ys|
    ensures Dot(xs, ys) == Dot(ys, xs)
  {
    if xs != [] {
      DotCommutes(xs[..|xs| - 1], ys[..|ys| - 1]);
    }
  }

  lemma TimesCommutes(a: real, b: real)
    ensures Times(a, b) == Times(b, a)
  {
  }

  lemma ClampedCommutes(a: seq<real>, b: seq<real>, root: real -> real)
    requires |a| == |b|
    ensures Clamped(a, b, root) == Clamped(b, a, root)
  {
    hide Times, Ratio, Dot;
    DotCommutes(a, b);
    TimesCommutes(Dot(a, a), Dot(b, b));
  }

  lemma CorrelationIsSymmetric(left: Series, right: Series, root: real -> real)
    ensures Correlation(left, right, root) == Correlation(right, left, root)
  {
    hide Clamped, Centered;
    assert left.Keys * right.Keys == right.Keys * left.Keys;
    var keys := Shared(left, right);
    if |keys| >= MIN_OVERLAP_SESSIONS {
      ClampedCommutes(Centered(left, keys), Centered(right, keys), root);
    }
  }

  // ---- Cauchy-Schwarz

  /** The sum of squares of x - t*y. */
  function Residual(xs: seq<real>, ys: seq<real>, t: real): (r: real)
    requires |xs| == |ys|
    ensures r >= 0.0
  {
    if xs == [] then 0.0
    else Residual(xs[..|xs| - 1], ys[..|ys| - 1], t) + Square(xs[|xs| - 1] - Times(t, ys[|ys| - 1]))
  }

  function Square(x: real): (r: real)
    ensures r >= 0.0
  {
    x * x
  }

  /** u - 2tc + t^2 v */
  function Quadratic(u: real, c: real, v: real, t: real): real { u - 2.0 * Times(t, c) + Times(t, Times(t, v)) }

  lemma {:induction false} ResidualExpands(xs: seq<real>, ys: seq<real>, t: real)
    requires |xs| == |ys|
    ensures Residual(xs, ys, t) == Quadratic(Dot(xs, xs), Dot(xs, ys), Dot(ys, ys), t)
  {
    hide Times, Square, Quadratic;
    if xs == [] {
      QuadraticZero(t);
    } else {
      var n := |xs| - 1;
      ResidualExpands(xs[..n], ys[..n], t);
      SquareExpands(xs[n], ys[n], t);
      QuadraticAdds(Dot(xs[..n], xs[..n]), Dot(xs[..n], ys[..n]), Dot(ys[..n], ys[..n]),
                    Times(xs[n], xs[n]), Times(xs[n], ys[n]), Times(ys[n], ys[n]), t);
    }
  }

  lemma QuadraticZero(t: real)
    ensures Quadratic(0.0, 0.0, 0.0, t) == 0.0
  {
  }

  lemma SquareExpands(x: real, y: real, t: real)
    ensures Square(x - Times(t, y)) == Quadratic(Times(x, x), Times(x, y), Times(y, y), t)
  {
  }

  lemma QuadraticAdds(u: real, c: real, v: real, p: real, q: real, r: real, t: real)
    ensures Quadratic(u, c, v, t) + Quadratic(p, q, r, t) == Quadratic(u + p, c + q, v + r, t)
  {
  }

  lemma CauchySchwarz(xs: seq<real>, ys: seq<real>)
    requires |xs| == |ys| && Dot(ys, ys) > 0.0
    ensures Times(Dot(xs, ys), Dot(xs, ys)) <= Times(Dot(xs, xs), Dot(ys, ys))
  {
    hide Dot, Quadratic, Times, Residual;
    var t := Quotient(Dot(xs, ys), Dot(ys, ys));
    ResidualExpands(xs, ys, t);
    Discriminant(Dot(xs, xs), Dot(xs, ys), Dot(ys, ys), t);
  }

  function Quotient(c: real, v: real): (t: real)
    requires v != 0.0
    ensures Times(t, v) == c
  {
    c / v
  }

  lemma Discriminant(u: real, c: real, v: real, t: real)
    requires v > 0.0 && Times(t, v) == c && Quadratic(u, c, v, t) >= 0.0
    ensures Times(c, c) <= Times(u, v)
  {
    assert t * (t * v) == t * c;
    var d := u - t * c;
    NonNegative(d, v);
    assert d * v == u * v - (t * v) * c;
  }

  lemma NotPositive(a: real, b: real)
    requires a > 0.0 && b <= 0.0
    ensures Times(a, b) <= 0.0
  {
  }

  /** A number whose square is at most a square is at most its root. */
  lemma RootBounds(c: real, r: real)
    requires r > 0.0 && Times(c, c) <= Times(r, r)
    ensures -r <= c <= r
  {
    if c > r {
      Positive(c - r, c + r);
    }
    if c < -r {
      Positive(-c - r, r - c);
    }
  }

  lemma RootIsPositive(root: real -> real, s: real)
    requires IsRoot(root) && s > 0.0
    ensures root(s) > 0.0
  {
    assert Times(0.0, 0.0) == 0.0;
  }

  lemma RatioBounds(c: real, r: real)
    requires r > 0.0 && -r <= c <= r
    ensures -1.0 <= Ratio(c, r) <= 1.0
  {
    var q := Quotient(c, r);
    if q > 1.0 {
      Positive(q - 1.0, r);
    }
    if q < -1.0 {
      Positive(-1.0 - q, r);
    }
  }

  lemma EstimateBounds(a: seq<real>, b: seq<real>, root: real -> real)
    requires IsRoot(root) && |a| == |b| && Dot(a, a) > 0.0 && Dot(b, b) > 0.0
    ensures -1.0 <= Estimate(a, b, root) <= 1.0
  {
    hide Dot, Times, Ratio;
    var s := Times(Dot(a, a), Dot(b, b));
    Positive(Dot(a, a), Dot(b, b));
    RootIsPositive(root, s);
    CauchySchwarz(a, b);
    RootBounds(Dot(a, b), root(s));
    RatioBounds(Dot(a, b), root(s));
  }

  /** Whenever there is an estimate it already lies in [-1, 1]: only the lower clamp ever binds. */
  lemma UpperClampNeverBinds(left: Series, right: Series, root: real -> real)
    requires IsRoot(root)
    ensures 0.0 <= Correlation(left, right, root) <= 1.0
    ensures var keys := Shared(left, right);
            |keys| >= MIN_OVERLAP_SESSIONS ==>
              var a, b := Centered(left, keys), Centered(right, keys);
              Dot(a, a) > 0.0 && Dot(b, b) > 0.0 ==>
                Correlation(left, right, root) == Max(0.0, Estimate(a, b, root))
  {
    hide Dot, Estimate, Centered;
    var keys := Shared(left, right);
    if |keys| >= MIN_OVERLAP_SESSIONS {
      var a, b := Centered(left, keys), Centered(right, keys);
      if Dot(a, a) > 0.0 && Dot(b, b) > 0.0 {
        EstimateBounds(a, b, root);
      }
    }
  }

  // ---- What the estimate means

  /** It is the cosine of the two deviations. */
  lemma EstimateIsTheCosine(a: seq<real>, b: seq<real>, root: real -> real)
    requires IsRoot(root) && |a| == |b| && Dot(a, a) > 0.0 && Dot(b, b) > 0.0
    ensures Times(Estimate(a, b, root), root(Times(Dot(a, a), Dot(b, b)))) == Dot(a, b)
  {
    hide Dot;
    Positive(Dot(a, a), Dot(b, b));
    RootIsPositive(root, Times(Dot(a, a), Dot(b, b)));
  }

  /** Deviations are from the mean: they cancel. */
  lemma DeviationsCancel(series: Series, keys: seq<nat>)
    requires keys != [] && forall k :: k in keys ==> k in series
    ensures Sum(Centered(series, keys)) == 0.0
  {
    var xs := Values(series, keys);
    SumOfDeviations(xs, Mean(xs));
  }

  lemma {:induction false} SumOfDeviations(xs: seq<real>, mean: real)
    ensures Sum(Deviations(xs, mean)) == Sum(xs) - Times(|xs| as real, mean)
  {
    if xs != [] {
      var n := |xs| - 1;
      SumOfDeviations(xs[..n], mean);
      assert Deviations(xs, mean)[..n] == Deviations(xs[..n], mean);
      assert Times((n + 1) as real, mean) == Times(n as real, mean) + mean;
    }
  }

  /** Too little overlap, or a series that does not vary over it, counts as full correlation. */
  lemma NoEvidenceIsFullCorrelation(left: Series, right: Series, x: real, root: real -> real)
    requires |left.Keys * right.Keys| < 10 || forall k :: k in left && k in right ==> left[k] == x
    ensures Correlation(left, right, root) == 1.0
  {
    hide Estimate, Centered, Sum, Dot;
    var keys := Shared(left, right);
    if |keys| >= 10 {
      ConstantHasNoVariance(left, keys, x);
    }
  }

  lemma ConstantHasNoVariance(series: Series, keys: seq<nat>, x: real)
    requires keys != [] && forall k :: k in keys ==> k in series && series[k] == x
    ensures Dot(Centered(series, keys), Centered(series, keys)) == 0.0
  {
    hide Sum, Dot, Mean;
    var xs := Values(series, keys);
    ConstantSum(xs, x);
    MeanOf(xs, x);
    ZeroDot(Centered(series, keys));
  }

  lemma MeanOf(xs: seq<real>, x: real)
    requires xs != [] && Sum(xs) == Times(|xs| as real, x)
    ensures Mean(xs) == x
  {
  }

  lemma {:induction false} ConstantSum(xs: seq<real>, x: real)
    requires forall i :: 0 <= i < |xs| ==> xs[i] == x
    ensures Sum(xs) == Times(|xs| as real, x)
  {
    if xs != [] {
      var n := |xs| - 1;
      ConstantSum(xs[..n], x);
      assert Times((n + 1) as real, x) == Times(n as real, x) + x;
    }
  }

  lemma {:induction false} ZeroDot(xs: seq<real>)
    requires forall i :: 0 <= i < |xs| ==> xs[i] == 0.0
    ensures Dot(xs, xs) == 0.0
  {
    if xs != [] {
      ZeroDot(xs[..|xs| - 1]);
    }
  }

  /** A series is fully correlated with itself. */
  lemma SelfIsFullyCorrelated(series: Series, root: real -> real)
    requires IsRoot(root)
    ensures Correlation(series, series, root) == 1.0
  {
    hide Dot, Estimate, Centered, Times;
    var keys := Shared(series, series);
    if |keys| >= 10 {
      var a := Centered(series, keys);
      if Dot(a, a) > 0.0 {
        EstimateIsTheCosine(a, a, root);
        EstimateBounds(a, a, root);
        Positive(Dot(a, a), Dot(a, a));
        RootIsPositive(root, Times(Dot(a, a), Dot(a, a)));
        OnlyRoot(root(Times(Dot(a, a), Dot(a, a))), Dot(a, a), Estimate(a, a, root));
      }
    }
  }

  lemma OnlyRoot(r: real, v: real, e: real)
    requires v > 0.0 && r > 0.0 && Times(r, r) == Times(v, v) && Times(e, r) == v
    ensures e == 1.0
  {
    assert (r - v) * (r + v) == 0.0;
    assert r == v;
    assert (e - 1.0) * v == 0.0;
  }

  // ---- Rescaling

  function Affine(scale: real, x: real, shift: real): real { scale * x + shift }

  /** The same sessions with every result scaled and shifted. */
  function Rescaled(series: Series, scale: real, shift: real): (r: Series)
    ensures r.Keys == series.Keys
    ensures forall k :: k in series ==> r[k] == Affine(scale, series[k], shift)
  {
    map k | k in series :: Affine(scale, series[k], shift)
  }

  function Scaled(xs: seq<real>, scale: real, shift: real): (r: seq<real>)
    ensures |r| == |xs| && forall i :: 0 <= i < |r| ==> r[i] == Affine(scale, xs[i], shift)
  {
    seq(|xs|, i requires 0 <= i < |xs| => Affine(scale, xs[i], shift))
  }

  lemma {:induction false} SumScales(xs: seq<real>, scale: real, shift: real)
    ensures Sum(Scaled(xs, scale, shift)) == Affine(scale, Sum(xs), Times(|xs| as real, shift))
  {
    hide Affine, Times;
    if xs == [] {
      AffineZero(scale, shift);
    } else {
      var n := |xs| - 1;
      SumScales(xs[..n], scale, shift);
      assert Scaled(xs, scale, shift)[..n] == Scaled(xs[..n], scale, shift);
      AffineAdds(scale, Sum(xs[..n]), xs[n], n as real, shift);
    }
  }

  lemma AffineZero(scale: real, shift: real)
    ensures Affine(scale, 0.0, Times(0.0, shift)) == 0.0
  {
  }

  lemma AffineAdds(scale: real, x: real, y: real, n: real, shift: real)
    ensures Affine(scale, x, Times(n, shift)) + Affine(scale, y, shift) == Affine(scale, x + y, Times(n + 1.0, shift))
  {
  }

  lemma CenteredScales(series: Series, keys: seq<nat>, scale: real, shift: real)
    requires keys != [] && forall k :: k in keys ==> k in series
    ensures Centered(Rescaled(series, scale, shift), keys) == Scaled(Centered(series, keys), scale, 0.0)
  {
    hide Affine, Times, Mean;
    var xs := Values(series, keys);
    var ys := Values(Rescaled(series, scale, shift), keys);
    assert ys == Scaled(xs, scale, shift);
    SumScales(xs, scale, shift);
    MeanScales(xs, ys, scale, shift);
    forall i | 0 <= i < |xs|
      ensures ys[i] - Mean(ys) == Affine(scale, xs[i] - Mean(xs), 0.0)
    {
      AffineDifference(scale, xs[i], Mean(xs), shift);
    }
  }

  lemma MeanScales(xs: seq<real>, ys: seq<real>, scale: real, shift: real)
    requires |xs| == |ys| > 0 && Sum(ys) == Affine(scale, Sum(xs), Times(|xs| as real, shift))
    ensures Mean(ys) == Affine(scale, Mean(xs), shift)
  {
    MeanOfAffine(Sum(xs), |xs| as real, scale, shift);
  }

  lemma MeanOfAffine(s: real, n: real, scale: real, shift: real)
    requires n > 0.0
    ensures Affine(scale, s, Times(n, shift)) / n == Affine(scale, s / n, shift)
  {
    var m := Quotient(s, n);
    assert scale * s == scale * m * n;
    assert (scale * m + shift) * n == scale * s + n * shift;
  }

  lemma AffineDifference(scale: real, x: real, y: real, shift: real)
    ensures Affine(scale, x, shift) - Affine(scale, y, shift) == Affine(scale, x - y, 0.0)
  {
  }

  lemma {:induction false} DotScales(xs: seq<real>, ys: seq<real>, scale: real)
    requires |xs| == |ys|
    ensures Dot(xs, Scaled(ys, scale, 0.0)) == Times(scale, Dot(xs, ys))
  {
    hide Affine, Times;
    if xs == [] {
      TimesScales(scale, 0.0, 0.0, 0.0);
    } else {
      var n := |xs| - 1;
      DotScales(xs[..n], ys[..n], scale);
      assert Scaled(ys, scale, 0.0)[..n] == Scaled(ys[..n], scale, 0.0);
      TimesScales(scale, Dot(xs[..n], ys[..n]), xs[n], ys[n]);
    }
  }

  lemma TimesScales(scale: real, d: real, x: real, y: real)
    ensures Times(scale, 0.0) == 0.0
    ensures Times(scale, d) + Times(x, Affine(scale, y, 0.0)) == Times(scale, d + Times(x, y))
  {
  }

  lemma ClampedScales(a: seq<real>, b: seq<real>, root: real -> real, scale: real)
    requires IsRoot(root) && scale > 0.0 && |a| == |b|
    ensures Clamped(a, Scaled(b, scale, 0.0), root) == Clamped(a, b, root)
  {
    hide Affine, Times, Dot, Ratio, Scaled;
    var c := Scaled(b, scale, 0.0);
    DotScales(a, b, scale);
    DotScales(c, b, scale);
    DotCommutes(c, b);
    DotScales(b, b, scale);
    RatioScales(Dot(a, b), Dot(a, a), Dot(b, b), scale, root);
  }

  /** Scaling either series by a positive factor and shifting it changes nothing. */
  lemma RescalingChangesNothing(left: Series, right: Series, root: real -> real, scale: real, shift: real)
    requires IsRoot(root) && scale > 0.0
    ensures Correlation(left, Rescaled(right, scale, shift), root) == Correlation(left, right, root)
    ensures Correlation(Rescaled(right, scale, shift), left, root) == Correlation(right, left, root)
  {
    hide Clamped, Centered, Rescaled, IsRoot;
    var keys := Shared(left, right);
    if |keys| >= MIN_OVERLAP_SESSIONS {
      CenteredScales(right, keys, scale, shift);
      ClampedScales(Centered(left, keys), Centered(right, keys), root, scale);
    }
    CorrelationIsSymmetric(left, Rescaled(right, scale, shift), root);
    CorrelationIsSymmetric(left, right, root);
  }

  lemma RatioScales(c: real, u: real, v: real, scale: real, root: real -> real)
    requires IsRoot(root) && scale > 0.0
    ensures Times(scale, Times(scale, v)) > 0.0 <==> v > 0.0
    ensures u > 0.0 && v > 0.0 ==>
              Ratio(Times(scale, c), root(Times(u, Times(scale, Times(scale, v))))) == Ratio(c, root(Times(u, v)))
  {
    hide Times, Ratio;
    SignScales(v, scale);
    SignScales(Times(scale, v), scale);
    if u > 0.0 && v > 0.0 {
      var w := Times(scale, Times(scale, v));
      Positive(u, v);
      Positive(u, w);
      var r := root(Times(u, v));
      RootIsPositive(root, Times(u, v));
      RootIsPositive(root, Times(u, w));
      SquareScales(scale, r, u, v);
      Positive(scale, r);
      RootIsUnique(root(Times(u, w)), Times(scale, r));
      RatioCancels(c, r, scale);
    }
  }

  lemma SquareScales(scale: real, r: real, u: real, v: real)
    requires Times(r, r) == Times(u, v)
    ensures Times(Times(scale, r), Times(scale, r)) == Times(u, Times(scale, Times(scale, v)))
  {
    assert (scale * r) * (scale * r) == (scale * scale) * (r * r);
    assert (scale * scale) * (u * v) == u * (scale * (scale * v));
  }

  lemma SignScales(v: real, scale: real)
    requires scale > 0.0
    ensures Times(scale, v) > 0.0 <==> v > 0.0
  {
    if v > 0.0 {
      Positive(scale, v);
    } else {
      NotPositive(scale, v);
    }
  }

  lemma RootIsUnique(x: real, y: real)
    requires x > 0.0 && y > 0.0 && Times(x, x) == Times(y, y)
    ensures x == y
  {
    RootBounds(x, y);
    RootBounds(y, x);
  }

  lemma RatioCancels(c: real, r: real, scale: real)
    requires scale > 0.0 && r > 0.0 && Times(scale, r) > 0.0
    ensures Ratio(Times(scale, c), Times(scale, r)) == Ratio(c, r)
  {
    var q := Quotient(c, r);
    assert q * (scale * r) == scale * c;
  }
}
