/**
 * The scalar Kalman filter that predicts the error of a delay, compat/delay.c, over
 * the reals: every update contracts the covariance towards its steady state.
 */
module Kalman {
  /** q, r: process and measurement noise; x: estimate; p: its covariance; k: gain. */
  datatype Filter = Filter(q: real, r: real, x: real, p: real, k: real)

  predicate Positive(f: Filter) {
    f.q > 0.0 && f.r > 0.0 && f.p > 0.0
  }

  function Updated(f: Filter, measurement: real): Filter
    requires Positive(f)
  {
    var p := f.p + f.q;
    var k := p / (p + f.r);
    f.(x := f.x + k * (measurement - f.x), p := (1.0 - k) * p, k := k)
  }

  class KalmanState {
    var q: real
    var r: real
    var x: real
    var p: real
    var k: real

    ghost function View(): Filter
      reads this
    {
      Filter(q, r, x, p, k)
    }

    /** kalman_update(state, measurement) */
    method Update(measurement: real)
      requires Positive(View())
      modifies this
      ensures View() == Updated(old(View()), measurement)
      ensures Positive(View()) && 0.0 < k < 1.0 && p < r
    {
      UpdateBounds(View(), measurement);
      p := p + q;
      k := p / (p + r);
      x := x + (k * (measurement - x));
      p := (1.0 - k) * p;
    }
  }

  // ----- one update -----

  /** The new gain and covariance, free of the division by p + q + r. */
  lemma Gain(f: Filter, m: real)
    requires Positive(f)
    ensures var g := Updated(f, m);
            && g.k * (f.p + f.q + f.r) == f.p + f.q
            && g.p * (f.p + f.q + f.r) == f.r * (f.p + f.q)
            && g.p == f.r * g.k
  {
    var s, g := f.p + f.q, Updated(f, m);
    var d := s + f.r;
    assert g.k * d == s;
    assert (1.0 - g.k) * d == f.r;
    assert g.p * d == ((1.0 - g.k) * d) * s;
    assert (f.r * g.k) * d == f.r * s;
    Cancel(g.p, f.r * g.k, d);
  }

  lemma Nonneg(a: real, b: real)
    requires a >= 0.0 && b >= 0.0
    ensures a * b >= 0.0
  {
  }

  lemma Positive2(a: real, b: real)
    requires a > 0.0 && b > 0.0
    ensures a * b > 0.0
  {
  }

  lemma SquarePositive(r: real, rr: real)
    requires r > 0.0 && rr == r * r
    ensures rr > 0.0
  {
    ProductPositive(r, r, rr);
  }

  lemma ProductPositive(a: real, b: real, c: real)
    requires a > 0.0 && b > 0.0 && c == a * b
    ensures c > 0.0
  {
  }

  lemma Cancel(a: real, b: real, d: real)
    requires d > 0.0 && a * d == b * d
    ensures a == b
  {
    assert (a - b) * d == 0.0;
  }

  lemma Below(a: real, b: real, d: real)
    requires d > 0.0 && a * d < b * d
    ensures a < b
  {
    assert (b - a) * d > 0.0;
  }

  lemma NoiseKept(f: Filter, m: real)
    requires Positive(f)
    ensures Updated(f, m).q == f.q && Updated(f, m).r == f.r
    ensures Updated(f, m).x == f.x + Updated(f, m).k * (m - f.x)
  {
  }

  lemma UpdateBounds(f: Filter, m: real)
    requires Positive(f)
    ensures var g := Updated(f, m);
            && Positive(g) && g.q == f.q && g.r == f.r
            && 0.0 < g.k < 1.0 && g.p < g.r
  {
    Gain(f, m);
    NoiseKept(f, m);
    hide Updated;
    GainBounds(f.p + f.q, f.r, Updated(f, m).k, Updated(f, m).p);
  }

  lemma GainBounds(s: real, r: real, k: real, p: real)
    requires s > 0.0 && r > 0.0 && k * (s + r) == s && p == r * k
    ensures 0.0 < k < 1.0 && 0.0 < p < r
  {
    assert 0.0 * (s + r) == 0.0 && 1.0 * (s + r) == s + r;
    Below(0.0, k, s + r);
    Below(k, 1.0, s + r);
    Positive2(r, k);
    Scale(k, r, p);
  }

  lemma Scale(k: real, r: real, p: real)
    requires k < 1.0 && r > 0.0 && p == r * k
    ensures p < r
  {
    Positive2(r, 1.0 - k);
    assert r * (1.0 - k) == r - p;
  }

  /** Zero exactly at the steady state, negative below it and positive above. */
  function Balance(f: Filter): real {
    f.p * f.p + f.q * f.p - f.q * f.r
  }

  /** (p + q + r)^2 times the new balance is r^2 times the old one. */
  lemma BalanceContracts(f: Filter, m: real)
    requires Positive(f)
    ensures var d := f.p + f.q + f.r; d * d * Balance(Updated(f, m)) == f.r * f.r * Balance(f)
  {
    hide Updated;
    Gain(f, m);
    var g, s := Updated(f, m), f.p + f.q;
    var d := s + f.r;
    NoiseKept(f, m);
    ScaledBalance(g.p, f.q, f.r, d, f.r * s);
    Expanded(f.q, f.r, s, d);
    OldBalance(f.p, f.q, f.r, s, d);
  }

  lemma ScaledBalance(p: real, q: real, r: real, d: real, u: real)
    requires u == p * d
    ensures d * d * (p * p + q * p - q * r) == u * u + q * u * d - q * r * (d * d)
  {
  }

  lemma Expanded(q: real, r: real, s: real, d: real)
    requires d == s + r
    ensures (r * s) * (r * s) + q * (r * s) * d - q * r * (d * d) == r * r * (s * s - q * d)
  {
  }

  lemma OldBalance(p: real, q: real, r: real, s: real, d: real)
    requires s == p + q && d == s + r
    ensures s * s - q * d == p * p + q * p - q * r
  {
  }

  /** Which way the covariance moves is the sign of the balance. */
  lemma Drift(f: Filter, m: real)
    requires Positive(f)
    ensures var d := f.p + f.q + f.r; (Updated(f, m).p - f.p) * d == -Balance(f)
  {
    Gain(f, m);
    var d := f.p + f.q + f.r;
    assert f.p * d == f.p * f.p + f.q * f.p + f.r * f.p;
    assert f.r * (f.p + f.q) == f.r * f.p + f.q * f.r;
  }

  // ----- whole runs -----

  function Run(f: Filter, ms: seq<real>): (g: Filter)
    requires Positive(f)
    ensures Positive(g) && g.q == f.q && g.r == f.r
  {
    if ms == [] then f
    else
      var g := Run(f, ms[..|ms| - 1]);
      UpdateBounds(g, ms[|ms| - 1]);
      Updated(g, ms[|ms| - 1])
  }

  lemma RunEnds(f: Filter, ms: seq<real>)
    requires Positive(f)
    ensures ms == [] ==> Run(f, ms) == f
    ensures ms != [] ==> Run(f, ms) == Updated(Run(f, ms[..|ms| - 1]), ms[|ms| - 1])
    ensures Weight(f.q, f.r, 0) == f.r
  {
    hide Updated;
  }

  /** The covariance at which an update changes nothing. */
  predicate IsSteady(f: Filter, s: real) {
    s > 0.0 && s * s + f.q * s - f.q * f.r == 0.0
  }

  function Abs(x: real): real {
    if x < 0.0 then -x else x
  }

  /** p' is nearer to s than p by the factor r^2 / ((p + q + r)(s + q + r)). */
  predicate Contracted(p: real, p': real, s: real, q: real, r: real) {
    (p' - s) * ((p + q + r) * (s + q + r)) == r * r * (p - s)
  }

  /** p' is no further from s than r^2 / (q + r)^2 times as far as p. */
  predicate Nearer(p: real, p': real, s: real, q: real, r: real) {
    Abs(p' - s) * ((q + r) * (q + r)) <= r * r * Abs(p - s)
  }

  /** The distance to the steady state shrinks by exactly that factor. */
  lemma SteadyContracts(f: Filter, m: real, s: real)
    requires Positive(f) && IsSteady(f, s)
    ensures Contracted(f.p, Updated(f, m).p, s, f.q, f.r)
  {
    Gain(f, m);
    hide Updated;
    var g, d, e := Updated(f, m), f.p + f.q + f.r, s + f.q + f.r;
    assert s * e == s * s + f.q * s + f.r * s;
    assert s * e == f.r * (s + f.q);
    calc {
      (g.p - s) * (d * e);
      (g.p * d) * e - (s * e) * d;
      (f.r * (f.p + f.q)) * e - (f.r * (s + f.q)) * d;
      f.r * ((f.p + f.q) * e - (s + f.q) * d);
      { Cross(f.p + f.q, s + f.q, f.r); }
      f.r * (f.r * ((f.p + f.q) - (s + f.q)));
      f.r * f.r * (f.p - s);
    }
  }

  lemma Cross(a: real, b: real, r: real)
    ensures a * (b + r) - b * (a + r) == r * (a - b)
  {
  }

  /** One update never crosses the steady state and moves no further from it than r^2/(q+r)^2. */
  lemma StepTowardsSteady(f: Filter, m: real, s: real)
    requires Positive(f) && IsSteady(f, s)
    ensures var g := Updated(f, m);
            && (f.p < s ==> f.p < g.p < s)
            && (f.p > s ==> s < g.p < f.p)
            && (f.p == s ==> g.p == s)
            && Nearer(f.p, g.p, s, f.q, f.r)
  {
    SteadyContracts(f, m, s);
    PositiveSteady(f, s);
    hide Updated, Contracted, Nearer, IsSteady;
    Towards(f.p, Updated(f, m).p, s, f.q, f.r);
  }

  lemma PositiveSteady(f: Filter, s: real)
    requires IsSteady(f, s)
    ensures s > 0.0
  {
  }

  lemma Towards(p: real, p': real, s: real, q: real, r: real)
    requires p > 0.0 && s > 0.0 && q > 0.0 && r > 0.0
    requires Contracted(p, p', s, q, r)
    ensures (p < s ==> p < p' < s) && (p > s ==> s < p' < p) && (p == s ==> p' == s)
    ensures Nearer(p, p', s, q, r)
  {
    var d, e, w := p + q + r, s + q + r, q + r;
    Product(d, e, w);
    Product(w, w, r);
    var t, big, rr, u, ww := p' - s, d * e, r * r, p - s, w * w;
    assert t * big == rr * u;
    SquarePositive(r, rr);
    Scaled(t, big, rr, u, ww);
  }

  lemma Product(a: real, b: real, w: real)
    requires a > w > 0.0 && b >= w
    ensures a * b > w * w > 0.0
  {
    Positive2(a - w, b);
    Nonneg(w, b - w);
    Positive2(w, w);
    assert (a - w) * b == a * b - w * b;
    assert w * (b - w) == w * b - w * w;
  }

  lemma Scaled(t: real, big: real, rr: real, u: real, ww: real)
    requires t * big == rr * u && big >= ww > 0.0 && big > rr > 0.0
    ensures Abs(t) * ww <= rr * Abs(u)
    ensures (u < 0.0 ==> u < t < 0.0) && (u > 0.0 ==> 0.0 < t < u) && (u == 0.0 ==> t == 0.0)
  {
    if u == 0.0 {
      Cancel(t, 0.0, big);
    } else if u > 0.0 {
      ScaledUp(t, big, rr, u, ww);
    } else {
      assert (-t) * big == -(t * big) && rr * (-u) == -(rr * u);
      ScaledUp(-t, big, rr, -u, ww);
    }
  }

  lemma ScaledUp(t: real, big: real, rr: real, u: real, ww: real)
    requires t * big == rr * u && big >= ww > 0.0 && big > rr > 0.0 && u > 0.0
    ensures 0.0 < t < u && t * ww <= rr * u
  {
    Positive2(rr, u);
    assert 0.0 * big == 0.0;
    Below(0.0, t, big);
    Positive2(u, big - rr);
    assert u * (big - rr) == u * big - u * rr && u * rr == rr * u;
    Below(t, u, big);
    Nonneg(t, big - ww);
    assert t * (big - ww) == t * big - t * ww;
  }

  /** Over any run the covariance stays on its side of the steady state and between start and goal. */
  lemma {:induction false} NeverCrosses(f: Filter, ms: seq<real>, s: real)
    requires Positive(f) && IsSteady(f, s)
    ensures var g := Run(f, ms);
            && (f.p < s ==> f.p <= g.p < s)
            && (f.p > s ==> s < g.p <= f.p)
            && (f.p == s ==> g.p == s)
    decreases |ms|
  {
    if ms != [] {
      var front := ms[..|ms| - 1];
      NeverCrosses(f, front, s);
      StepTowardsSteady(Run(f, front), ms[|ms| - 1], s);
    }
  }

  lemma SameSteady(f: Filter, g: Filter, s: real)
    requires IsSteady(f, s) && g.q == f.q && g.r == f.r
    ensures IsSteady(g, s)
  {
  }

  lemma AbsNonneg(x: real)
    ensures Abs(x) >= 0.0
  {
  }

  function Weight(q: real, r: real, n: nat): real {
    r + 2.0 * (n as real) * q
  }

  predicate Within(f: Filter, n: nat, p: real, s: real) {
    Weight(f.q, f.r, n) * Abs(p - s) <= f.r * Abs(f.p - s)
  }

  /**
   * Convergence with a rate, whatever is measured: after n updates the distance to the
   * steady state is at most r / (r + 2 n q) of what it was.
   */
  lemma {:induction false} Converges(f: Filter, ms: seq<real>, s: real)
    requires Positive(f) && IsSteady(f, s)
    ensures Within(f, |ms|, Run(f, ms).p, s)
    decreases |ms|
  {
    RunEnds(f, ms);
    WithinAtStart(f, s);
    hide Run, Updated, Within, IsSteady;
    if ms != [] {
      var front, m := ms[..|ms| - 1], ms[|ms| - 1];
      Converges(f, front, s);
      SameSteady(f, Run(f, front), s);
      ConvergesStep(f, Run(f, front), |front|, m, s);
    }
  }

  lemma WithinAtStart(f: Filter, s: real)
    ensures Within(f, 0, f.p, s)
  {
    assert Weight(f.q, f.r, 0) == f.r;
  }

  lemma ConvergesStep(f: Filter, g: Filter, n: nat, m: real, s: real)
    requires Positive(f) && Positive(g) && g.q == f.q && g.r == f.r && IsSteady(g, s)
    requires Within(f, n, g.p, s)
    ensures Within(f, n + 1, Updated(g, m).p, s)
  {
    hide Updated, Weight, IsSteady;
    StepTowardsSteady(g, m, s);
    AbsNonneg(g.p - s);
    Rate(f.q, f.r, n, Abs(Updated(g, m).p - s), Abs(g.p - s), Abs(f.p - s));
  }

  lemma Rate(q: real, r: real, n: nat, c: real, b: real, a: real)
    requires q > 0.0 && r > 0.0 && b >= 0.0
    requires c * ((q + r) * (q + r)) <= r * r * b
    requires Weight(q, r, n) * b <= r * a
    ensures Weight(q, r, n + 1) * c <= r * a
  {
    hide Weight;
    var ww, rr := (q + r) * (q + r), r * r;
    WeightStep(q, r, n);
    ProductPositive(q + r, q + r, ww);
    RateChain(Weight(q, r, n), Weight(q, r, n + 1), ww, rr, c, b, r * a);
  }

  lemma WeightStep(q: real, r: real, n: nat)
    requires q > 0.0 && r > 0.0
    ensures Weight(q, r, n + 1) >= 0.0
    ensures Weight(q, r, n + 1) * (r * r) <= Weight(q, r, n) * ((q + r) * (q + r))
  {
    Nonneg(n as real, q);
    RatePolynomial(q, r, n as real * q);
    assert (n + 1) as real == n as real + 1.0;
    assert Weight(q, r, n) == r + 2.0 * (n as real * q);
    assert Weight(q, r, n + 1) == r + 2.0 * (n as real * q) + 2.0 * q;
  }

  lemma RateChain(u: real, v: real, w: real, rr: real, c: real, b: real, ra: real)
    requires w > 0.0 && v >= 0.0 && b >= 0.0
    requires c * w <= rr * b && u * b <= ra && v * rr <= u * w
    ensures v * c <= ra
  {
    Nonneg(v, rr * b - c * w);
    Nonneg(u * w - v * rr, b);
    Nonneg(ra - u * b, w);
    assert v * (rr * b - c * w) == (v * rr) * b - (v * c) * w;
    assert (u * w - v * rr) * b == (u * b) * w - (v * rr) * b;
    assert (ra - u * b) * w == ra * w - (u * b) * w;
    NotAbove(v * c, ra, w);
  }

  lemma NotAbove(a: real, b: real, d: real)
    requires d > 0.0 && a * d <= b * d
    ensures a <= b
  {
    if a > b {
      Positive2(a - b, d);
    }
  }

  lemma RatePolynomial(q: real, r: real, m: real)
    requires q > 0.0 && r > 0.0 && m >= 0.0
    ensures (r + 2.0 * m + 2.0 * q) * (r * r) <= (r + 2.0 * m) * ((q + r) * (q + r))
  {
    var qr, qq := q * r, q * q;
    var u := r + 2.0 * m;
    ProductPositive(q, r, qr);
    ProductPositive(q, q, qq);
    Positive2(r, qq);
    Nonneg(m, qr);
    Nonneg(m, qq);
    assert (q + r) * (q + r) == qq + 2.0 * qr + r * r;
    assert u * (qq + 2.0 * qr + r * r) == u * qq + 2.0 * (u * qr) + u * (r * r);
    assert u * qr == r * qr + 2.0 * (m * qr);
    assert u * qq == r * qq + 2.0 * (m * qq);
    assert q * (r * r) == r * qr;
    assert (u + 2.0 * q) * (r * r) == u * (r * r) + 2.0 * (q * (r * r));
  }

  // ----- the rate, geometrically -----

  function Power(a: real, n: nat): real {
    if n == 0 then 1.0 else a * Power(a, n - 1)
  }

  lemma {:induction false} PowerNonneg(a: real, n: nat)
    requires a >= 0.0
    ensures Power(a, n) >= 0.0
  {
    if n > 0 {
      PowerNonneg(a, n - 1);
      Nonneg(a, Power(a, n - 1));
    }
  }

  /** One more step of a geometric bound: c is to b what u is to w, at most. */
  lemma GeometricStep(c: real, b: real, a: real, w: real, u: real, n: nat)
    requires w >= 0.0 && u >= 0.0 && c * w <= u * b
    requires b * Power(w, n) <= Power(u, n) * a
    ensures c * Power(w, n + 1) <= Power(u, n + 1) * a
  {
    PowerNonneg(w, n);
    assert Power(w, n + 1) == w * Power(w, n) && Power(u, n + 1) == u * Power(u, n);
    hide Power;
    GeometricChain(c, b, a, w, u, Power(w, n), Power(u, n));
  }

  lemma GeometricChain(c: real, b: real, a: real, w: real, u: real, wn: real, un: real)
    requires wn >= 0.0 && u >= 0.0 && c * w <= u * b && b * wn <= un * a
    ensures c * (w * wn) <= (u * un) * a
  {
    Nonneg(u * b - c * w, wn);
    Nonneg(u, un * a - b * wn);
    assert (u * b - c * w) * wn == u * (b * wn) - c * (w * wn);
    assert u * (un * a - b * wn) == (u * un) * a - u * (b * wn);
  }

  /** After n updates the distance to the steady state is at most (r / (q + r))^2n of what it was. */
  lemma {:induction false} ConvergesGeometrically(f: Filter, ms: seq<real>, s: real)
    requires Positive(f) && IsSteady(f, s)
    ensures Abs(Run(f, ms).p - s) * Power((f.q + f.r) * (f.q + f.r), |ms|)
         <= Power(f.r * f.r, |ms|) * Abs(f.p - s)
    decreases |ms|
  {
    hide Run, Updated, IsSteady, Abs;
    RunEnds(f, ms);
    if ms != [] {
      var front, m := ms[..|ms| - 1], ms[|ms| - 1];
      var g := Run(f, front);
      ConvergesGeometrically(f, front, s);
      SameSteady(f, g, s);
      StepTowardsSteady(g, m, s);
      Squares(f.q, f.r);
      GeometricStep(Abs(Updated(g, m).p - s), Abs(g.p - s), Abs(f.p - s),
                    (f.q + f.r) * (f.q + f.r), f.r * f.r, |front|);
    }
  }

  lemma Squares(q: real, r: real)
    requires q > 0.0 && r > 0.0
    ensures (q + r) * (q + r) >= 0.0 && r * r >= 0.0
  {
    Nonneg(q + r, q + r);
    Nonneg(r, r);
  }

  // ----- without a steady state -----

  function Sign(x: real): int {
    if x > 0.0 then 1 else if x < 0.0 then -1 else 0
  }

  lemma SameSign(a: real, b: real, u: real, v: real)
    requires u > 0.0 && v > 0.0 && u * a == v * b
    ensures Sign(a) == Sign(b)
  {
    if a > 0.0 {
      Positive2(u, a);
      Below(0.0, b, v);
    } else if a < 0.0 {
      Positive2(u, -a);
      Below(b, 0.0, v);
    } else {
      Cancel(b, 0.0, v);
    }
  }

  /**
   * In every run the balance keeps its sign, whether or not a steady state is at hand:
   * so the covariance only ever falls, only ever rises, or stands still.
   */
  lemma {:induction false} SignKept(f: Filter, ms: seq<real>)
    requires Positive(f)
    ensures Sign(Balance(Run(f, ms))) == Sign(Balance(f))
    decreases |ms|
  {
    hide Run, Updated, Balance, Sign;
    RunEnds(f, ms);
    if ms != [] {
      SignKept(f, ms[..|ms| - 1]);
      StepKeepsSign(Run(f, ms[..|ms| - 1]), ms[|ms| - 1]);
    }
  }

  lemma StepKeepsSign(f: Filter, m: real)
    requires Positive(f)
    ensures Sign(Balance(Updated(f, m))) == Sign(Balance(f))
  {
    hide Updated, Balance, Sign;
    var d := f.p + f.q + f.r;
    var dd, rr := d * d, f.r * f.r;
    BalanceContracts(f, m);
    ProductPositive(d, d, dd);
    ProductPositive(f.r, f.r, rr);
    SameSign(Balance(Updated(f, m)), Balance(f), dd, rr);
  }

  /** The estimate never leaves an interval that holds its start and every measurement. */
  lemma {:induction false} EstimateInHull(f: Filter, ms: seq<real>, lo: real, hi: real)
    requires Positive(f) && lo <= f.x <= hi
    requires forall i :: 0 <= i < |ms| ==> lo <= ms[i] <= hi
    ensures lo <= Run(f, ms).x <= hi
    decreases |ms|
  {
    RunEnds(f, ms);
    hide Run, Updated;
    if ms != [] {
      var front, m := ms[..|ms| - 1], ms[|ms| - 1];
      EstimateInHull(f, front, lo, hi);
      HullStep(Run(f, front), m, lo, hi);
    }
  }

  lemma HullStep(g: Filter, m: real, lo: real, hi: real)
    requires Positive(g) && lo <= g.x <= hi && lo <= m <= hi
    ensures lo <= Updated(g, m).x <= hi
  {
    UpdateBounds(g, m);
    NoiseKept(g, m);
    hide Updated;
    Between(g.x, m, Updated(g, m).k, lo, hi);
  }

  lemma Between(x: real, m: real, k: real, lo: real, hi: real)
    requires 0.0 < k < 1.0 && lo <= x <= hi && lo <= m <= hi
    ensures lo <= x + k * (m - x) <= hi
  {
    Nonneg(1.0 - k, x - lo);
    Nonneg(k, m - lo);
    Nonneg(1.0 - k, hi - x);
    Nonneg(k, hi - m);
    assert (1.0 - k) * (x - lo) + k * (m - lo) == x + k * (m - x) - lo;
    assert (1.0 - k) * (hi - x) + k * (hi - m) == hi - (x + k * (m - x));
  }
}
