/**
 * The SIRV parameter range estimator (`param_range`): from a tau-free table of
 * (t, S, CI, FR) it keeps the rows with S > 0 and CI > 0, estimates each
 * parameter at every step by backward differences, takes two quantiles of
 * each estimate series (linear interpolation on the sorted values) and clips
 * them to [0, 1].
 */
module SirvRange {
  import SirvModel

  /** One row of the tau-free table: the time step and the dimensional variables. */
  datatype Point = Point(t: int, s: real, ci: real, fr: real)

  /** The parameters estimated, in the order of SirvModel.PARAMETERS. */
  datatype Param = Rho | Sigma | Omega

  function Name(p: Param): string {
    match p
    case Rho => SirvModel.PARAMETERS[0]
    case Sigma => SirvModel.PARAMETERS[1]
    case Omega => SirvModel.PARAMETERS[2]
  }

  /** A (low, high) search bound of one parameter. */
  datatype Bounds = Bounds(low: real, high: real)

  /** The quantiles cut by default, like a confidence interval. */
  const DEFAULT_QUANTILES: (real, real) := (0.1, 0.9)

  // ---------------------------------------------------------------- step 1: filter

  /** A row the estimator may divide by: S > 0 and CI > 0. */
  predicate Usable(p: Point) {
    p.s > 0.0 && p.ci > 0.0
  }

  /** The usable rows, in their original order. */
  function UsableRows(rows: seq<Point>): (r: seq<Point>)
    ensures |r| <= |rows|
    ensures forall k | 0 <= k < |r| :: Usable(r[k])
    ensures forall p :: p in r <==> p in rows && Usable(p)
  {
    if rows == [] then []
    else if Usable(rows[0]) then [rows[0]] + UsableRows(rows[1..])
    else UsableRows(rows[1..])
  }

  /** Filtering twice is filtering once. */
  lemma {:induction false} UsableRowsIdempotent(rows: seq<Point>)
    ensures UsableRows(UsableRows(rows)) == UsableRows(rows)
  {
    if rows != [] {
      UsableRowsIdempotent(rows[1..]);
      if Usable(rows[0]) {
        var r := UsableRows(rows);
        assert r[0] == rows[0] && r[1..] == UsableRows(rows[1..]);
      }
    }
  }

  /** One row is kept exactly when it is usable. */
  lemma UsableRowsOfOne(p: Point)
    ensures UsableRows([p]) == if Usable(p) then [p] else []
  {
    assert [p][1..] == [];
  }

  /**
   * The filter distributes over concatenation: with the one-row case, the
   * usable rows are the usable rows of the table in their order, repeats kept.
   */
  lemma {:induction false} UsableRowsAppend(a: seq<Point>, b: seq<Point>)
    ensures UsableRows(a + b) == UsableRows(a) + UsableRows(b)
  {
    if a == [] {
      assert a + b == b;
    } else {
      assert (a + b)[0] == a[0] && (a + b)[1..] == a[1..] + b;
      UsableRowsAppend(a[1..], b);
    }
  }

  /** Time steps strictly increase down the table. */
  predicate Increasing(rows: seq<Point>) {
    forall j, k | 0 <= j < k < |rows| :: rows[j].t < rows[k].t
  }

  /** A row earlier than every row of an increasing table can be put in front of it. */
  lemma IncreasingCons(p: Point, rows: seq<Point>)
    requires Increasing(rows)
    requires forall k | 0 <= k < |rows| :: p.t < rows[k].t
    ensures Increasing([p] + rows)
  {
    var r := [p] + rows;
    forall j, k | 0 <= j < k < |r| ensures r[j].t < r[k].t {
      assert r[k] == rows[k - 1];
      if j > 0 {
        assert r[j] == rows[j - 1];
      }
    }
  }

  /** Dropping rows keeps the time steps increasing. */
  lemma {:induction false} UsableRowsKeepIncreasing(rows: seq<Point>)
    requires Increasing(rows)
    ensures Increasing(UsableRows(rows))
  {
    if rows != [] {
      assert Increasing(rows[1..]);
      UsableRowsKeepIncreasing(rows[1..]);
      if Usable(rows[0]) {
        var tail := UsableRows(rows[1..]);
        forall k | 0 <= k < |tail| ensures rows[0].t < tail[k].t {
          assert tail[k] in rows[1..];
        }
        IncreasingCons(rows[0], tail);
      }
    }
  }

  // ---------------------------------------------------------------- step 2: estimates

  /** A difference over the step from `prev` to `cur`, divided by the time difference. */
  function PerStep(diff: real, prev: Point, cur: Point): real
    requires prev.t < cur.t
  {
    diff / (cur.t - prev.t) as real
  }

  /** `-n * (dS/dt) / S / CI`: the infection rate that explains a fall of S. */
  function RhoFromSlope(n: real, slopeS: real, s: real, ci: real): real
    requires s != 0.0 && ci != 0.0
  {
    0.0 - n * slopeS / s / ci
  }

  /** `(dFR/dt) / CI`: the removal rate that explains a rise of FR. */
  function SigmaFromSlope(slopeFR: real, ci: real): real
    requires ci != 0.0
  {
    slopeFR / ci
  }

  /** `n - S + CI + FR`, the quantity whose slope is the omega estimate. */
  function OmegaTotal(n: int, p: Point): real {
    n as real - p.s + p.ci + p.fr
  }

  /** Dividing by a positive number keeps the sign. */
  lemma QuotientSign(a: real, b: real)
    requires b > 0.0
    ensures a / b > 0.0 <==> a > 0.0
    ensures a / b < 0.0 <==> a < 0.0
  {
    assert a / b * b == a;
    if a / b > 0.0 {
      assert a / b * b > 0.0;
    } else if a / b < 0.0 {
      assert (0.0 - a / b) * b > 0.0;
    }
  }

  /** A rate per step has the sign of its difference. */
  lemma PerStepSign(diff: real, prev: Point, cur: Point)
    requires prev.t < cur.t
    ensures PerStep(diff, prev, cur) > 0.0 <==> diff > 0.0
    ensures PerStep(diff, prev, cur) < 0.0 <==> diff < 0.0
  {
    QuotientSign(diff, (cur.t - prev.t) as real);
  }

  /** With a positive population and positive S and CI, the rho estimate is positive exactly when S falls. */
  lemma RhoFromSlopeSign(n: real, slopeS: real, s: real, ci: real)
    requires n > 0.0 && s > 0.0 && ci > 0.0
    ensures RhoFromSlope(n, slopeS, s, ci) > 0.0 <==> slopeS < 0.0
  {
    var p := n * slopeS;
    assert p < 0.0 <==> slopeS < 0.0 by {
      if slopeS < 0.0 {
        assert n * (0.0 - slopeS) > 0.0;
      } else {
        assert n * slopeS >= 0.0;
      }
    }
    QuotientSign(p, s);
    QuotientSign(p / s, ci);
  }

  /**
   * The estimate of one parameter at the step from `prev` to `cur`, by
   * backward differences over the step, at the values of `cur`:
   * rho is -n (dS/dt) / S / CI, positive exactly when S falls;
   * sigma is (dFR/dt) / CI, positive exactly when FR rises;
   * omega is the slope of n - S + CI + FR, that is dCI/dt + dFR/dt - dS/dt.
   */
  function Estimate(param: Param, n: int, prev: Point, cur: Point): (r: real)
    requires Usable(cur) && prev.t < cur.t
    ensures param == Rho && n > 0 ==> (r > 0.0 <==> cur.s < prev.s)
    ensures param == Sigma ==> (r > 0.0 <==> cur.fr > prev.fr)
    ensures param == Omega ==>
      r == PerStep(cur.ci - prev.ci, prev, cur) + PerStep(cur.fr - prev.fr, prev, cur) - PerStep(cur.s - prev.s, prev, cur)
  {
    match param
    case Rho =>
      var slopeS := PerStep(cur.s - prev.s, prev, cur);
      PerStepSign(cur.s - prev.s, prev, cur);
      assert n > 0 ==> (RhoFromSlope(n as real, slopeS, cur.s, cur.ci) > 0.0 <==> slopeS < 0.0) by {
        if n > 0 {
          RhoFromSlopeSign(n as real, slopeS, cur.s, cur.ci);
        }
      }
      RhoFromSlope(n as real, slopeS, cur.s, cur.ci)
    case Sigma =>
      var slopeFR := PerStep(cur.fr - prev.fr, prev, cur);
      PerStepSign(cur.fr - prev.fr, prev, cur);
      QuotientSign(slopeFR, cur.ci);
      SigmaFromSlope(slopeFR, cur.ci)
    case Omega =>
      assert OmegaTotal(n, cur) - OmegaTotal(n, prev) == (cur.ci - prev.ci) + (cur.fr - prev.fr) - (cur.s - prev.s);
      PerStepOfSum(cur.s - prev.s, cur.ci - prev.ci, cur.fr - prev.fr, prev, cur);
      PerStep(OmegaTotal(n, cur) - OmegaTotal(n, prev), prev, cur)
  }

  /** The rows the estimator may use: all usable, time strictly increasing. */
  predicate Estimable(rows: seq<Point>) {
    (forall k | 0 <= k < |rows| :: Usable(rows[k])) && Increasing(rows)
  }

  /**
   * The estimate series of one parameter: one value per step, position k
   * giving the step into row k + 1 (the first row has no difference).
   */
  function Series(param: Param, n: int, rows: seq<Point>): (v: seq<real>)
    requires |rows| >= 1 && Estimable(rows)
    ensures |v| == |rows| - 1
    ensures forall k | 0 <= k < |v| :: v[k] == Estimate(param, n, rows[k], rows[k + 1])
  {
    seq(|rows| - 1, k requires 0 <= k < |rows| - 1 => Estimate(param, n, rows[k], rows[k + 1]))
  }

  /**
   * The backward difference quotients over the step into `cur` equal the
   * SIRV derivative at `cur`, the later row, as one backward-Euler step gives.
   * Samples of an exact or forward-simulated trajectory do not meet this.
   */
  predicate ExactSlopes(n: SirvModel.Population, rho: real, sigma: real, omega: real, prev: Point, cur: Point)
    requires prev.t < cur.t
  {
    var d := SirvModel.Derivative(n, rho, sigma, omega, cur.t as real, [cur.s, cur.ci, cur.fr]);
    && PerStep(cur.s - prev.s, prev, cur) == d[0]
    && PerStep(cur.ci - prev.ci, prev, cur) == d[1]
    && PerStep(cur.fr - prev.fr, prev, cur) == d[2]
  }

  /**
   * Over a step whose backward difference quotients equal the derivative at
   * its later row, the rho estimate is
   * rho + n*omega/(S*CI), the sigma estimate is sigma + omega/CI (both exact
   * without vaccination), and the omega estimate is 2*(rho*S*CI/n + omega).
   */
  lemma EstimateOfExactSlopes(n: SirvModel.Population, rho: real, sigma: real, omega: real,
                              prev: Point, cur: Point)
    requires Usable(cur) && prev.t < cur.t
    requires ExactSlopes(n, rho, sigma, omega, prev, cur)
    ensures Estimate(Rho, n, prev, cur) == rho + n as real * omega / (cur.s * cur.ci)
    ensures Estimate(Sigma, n, prev, cur) == sigma + omega / cur.ci
    ensures Estimate(Omega, n, prev, cur) == 2.0 * (rho * cur.s * cur.ci / n as real + omega)
  {
    var x := [cur.s, cur.ci, cur.fr];
    var d := SirvModel.Derivative(n, rho, sigma, omega, cur.t as real, x);
    assert x[0] == cur.s && x[1] == cur.ci;
    assert d[0] == -(rho * cur.s * cur.ci / n as real) - omega;
    assert Estimate(Rho, n, prev, cur) == RhoFromSlope(n as real, d[0], cur.s, cur.ci);
    RhoFromExactSlope(n as real, cur.s, cur.ci, rho, omega, d[0]);
    SigmaFromExactSlope(cur.ci, sigma, omega, d[2]);
    PerStepOfSum(cur.s - prev.s, cur.ci - prev.ci, cur.fr - prev.fr, prev, cur);
    assert OmegaTotal(n, cur) - OmegaTotal(n, prev) == (cur.ci - prev.ci) + (cur.fr - prev.fr) - (cur.s - prev.s);
  }

  /** Dividing by the time step distributes over the differences. */
  lemma PerStepOfSum(ds: real, dci: real, dfr: real, prev: Point, cur: Point)
    requires prev.t < cur.t
    ensures PerStep(dci + dfr - ds, prev, cur) == PerStep(dci, prev, cur) + PerStep(dfr, prev, cur) - PerStep(ds, prev, cur)
  {
  }

  lemma DivMulCancel(a: real, b: real)
    requires b != 0.0
    ensures a * b / b == a
  {
  }

  lemma MulDivCancel(a: real, b: real)
    requires b != 0.0
    ensures b * (a / b) == a
  {
  }

  lemma DivTwice(a: real, b: real, c: real)
    requires b != 0.0 && c != 0.0
    ensures a / b / c == a / (b * c)
  {
  }

  lemma NegDiv(a: real, b: real)
    requires b != 0.0
    ensures 0.0 - (-a) / b == a / b
  {
  }

  lemma DivSum(a: real, b: real, c: real)
    requires c != 0.0
    ensures (a + b) / c == a / c + b / c
  {
  }

  /** The rho estimate of a slope dS/dt = -rho*S*CI/n - omega. */
  lemma RhoFromExactSlope(nr: real, s: real, i: real, rho: real, omega: real, d0: real)
    requires nr > 0.0 && s > 0.0 && i > 0.0
    requires d0 == -(rho * s * i / nr) - omega
    ensures RhoFromSlope(nr, d0, s, i) == rho + nr * omega / (s * i)
  {
    var si := s * i;
    var a := rho * si;
    DivTwice(nr * d0, s, i);
    MulDivCancel(rho * s * i, nr);
    assert nr * d0 == -(a + nr * omega);
    NegDiv(a + nr * omega, si);
    DivSum(a, nr * omega, si);
    DivMulCancel(rho, si);
  }

  /** The sigma estimate of a slope dFR/dt = sigma*CI + omega. */
  lemma SigmaFromExactSlope(i: real, sigma: real, omega: real, d2: real)
    requires i > 0.0
    requires d2 == sigma * i + omega
    ensures SigmaFromSlope(d2, i) == sigma + omega / i
  {
    DivSum(sigma * i, omega, i);
    DivMulCancel(sigma, i);
  }

  // ---------------------------------------------------------------- step 3: quantiles

  predicate Sorted(v: seq<real>) {
    forall j, k | 0 <= j <= k < |v| :: v[j] <= v[k]
  }

  /** `x` inserted into the sorted `v` at its place. */
  function Insert(x: real, v: seq<real>): (r: seq<real>)
    requires Sorted(v)
    ensures |r| == |v| + 1 && Sorted(r)
    ensures multiset(r) == multiset(v) + multiset{x}
  {
    if v == [] || x <= v[0] then [x] + v
    else
      var rest := Insert(x, v[1..]);
      assert v == [v[0]] + v[1..];
      assert forall k | 0 <= k < |rest| :: v[0] <= rest[k] by {
        forall k | 0 <= k < |rest| ensures v[0] <= rest[k] {
          var y := rest[k];
          assert y in multiset(rest);
          if y != x {
            assert y in multiset(v[1..]);
            assert y in v[1..];
          }
        }
      }
      [v[0]] + rest
  }

  /** The values of `v` in ascending order: what the quantile looks at. */
  function SortAscending(v: seq<real>): (r: seq<real>)
    ensures |r| == |v| && Sorted(r)
    ensures multiset(r) == multiset(v)
  {
    if v == [] then []
    else
      assert v == [v[0]] + v[1..];
      Insert(v[0], SortAscending(v[1..]))
  }

  /** The point at fraction `frac` of the way from `a` to `b`. */
  function Lerp(a: real, b: real, frac: real): real {
    a + frac * (b - a)
  }

  /** Between `a <= b`, interpolation stays within them and grows with the fraction. */
  lemma LerpBetween(a: real, b: real, f1: real, f2: real)
    requires a <= b && 0.0 <= f1 <= f2 <= 1.0
    ensures a <= Lerp(a, b, f1) <= Lerp(a, b, f2) <= b
  {
    ScaleMonotone(b - a, 0.0, f1);
    ScaleMonotone(b - a, f1, f2);
    ScaleMonotone(b - a, f2, 1.0);
  }

  /** Scaling by a non-negative factor keeps the order. */
  lemma ScaleMonotone(len: real, q1: real, q2: real)
    requires len >= 0.0 && q1 <= q2
    ensures len * q1 <= len * q2
  {
    assert len * q2 - len * q1 == len * (q2 - q1);
  }

  /** A fraction of a non-negative length is at most the length. */
  lemma ScaleAtMostOne(len: real, q: real)
    requires len >= 0.0 && 0.0 <= q <= 1.0
    ensures 0.0 <= len * q <= len
  {
    assert len - len * q == len * (1.0 - q);
  }

  /** The rank `(m - 1) * q` of level `q` among `m` sorted values. */
  function Rank(m: nat, q: real): (h: real)
    requires m >= 1 && 0.0 <= q <= 1.0
    ensures 0.0 <= h <= (m - 1) as real
  {
    ScaleAtMostOne((m - 1) as real, q);
    (m - 1) as real * q
  }

  lemma RankMonotone(m: nat, q1: real, q2: real)
    requires m >= 1 && 0.0 <= q1 <= q2 <= 1.0
    ensures Rank(m, q1) <= Rank(m, q2)
  {
    ScaleMonotone((m - 1) as real, q1, q2);
  }

  /** The floor of the rank: an index of the sorted values. */
  function FloorRank(m: nat, q: real): (lo: nat)
    requires m >= 1 && 0.0 <= q <= 1.0
    ensures lo <= m - 1
    ensures lo as real <= Rank(m, q) < lo as real + 1.0
  {
    Rank(m, q).Floor
  }

  /**
   * The q-th quantile of the sorted `v` by linear interpolation: at rank
   * h = (|v| - 1) * q, the value at floor(h) plus the fraction of h times the
   * gap to the next value.
   */
  function Quantile(v: seq<real>, q: real): (r: real)
    requires |v| >= 1 && Sorted(v) && 0.0 <= q <= 1.0
    ensures v[FloorRank(|v|, q)] <= r
    ensures FloorRank(|v|, q) + 1 < |v| ==> r <= v[FloorRank(|v|, q) + 1]
    ensures FloorRank(|v|, q) + 1 == |v| ==> r == v[|v| - 1]
  {
    var lo := FloorRank(|v|, q);
    if lo + 1 < |v| then
      var frac := Rank(|v|, q) - lo as real;
      LerpBetween(v[lo], v[lo + 1], frac, frac);
      Lerp(v[lo], v[lo + 1], frac)
    else
      v[lo]
  }

  /**
   * The quantile is pandas' default linear interpolation: at rank h between
   * the indices i = floor(h) and j = i + 1, the value v[i] + (v[j] - v[i]) * (h - i).
   */
  lemma QuantileInterpolates(v: seq<real>, q: real)
    requires |v| >= 1 && Sorted(v) && 0.0 <= q <= 1.0
    ensures var lo := FloorRank(|v|, q);
      lo + 1 < |v| ==> Quantile(v, q) == v[lo] + (Rank(|v|, q) - lo as real) * (v[lo + 1] - v[lo])
  {
  }

  /** The example of the pandas documentation: [1, 2, 3, 4] at 0.25, 0.5 and 0.75. */
  lemma QuantileExample()
    ensures Quantile([1.0, 2.0, 3.0, 4.0], 0.25) == 1.75
    ensures Quantile([1.0, 2.0, 3.0, 4.0], 0.5) == 2.5
    ensures Quantile([1.0, 2.0, 3.0, 4.0], 0.75) == 3.25
  {
    var v := [1.0, 2.0, 3.0, 4.0];
    assert Rank(4, 0.25) == 0.75 && FloorRank(4, 0.25) == 0;
    assert Rank(4, 0.5) == 1.5 && FloorRank(4, 0.5) == 1;
    assert Rank(4, 0.75) == 2.25 && FloorRank(4, 0.75) == 2;
    assert v[0] == 1.0 && v[1] == 2.0 && v[2] == 3.0 && v[3] == 4.0;
  }

  /** The quantile lies between the smallest and the largest value. */
  lemma QuantileBetweenExtremes(v: seq<real>, q: real)
    requires |v| >= 1 && Sorted(v) && 0.0 <= q <= 1.0
    ensures v[0] <= Quantile(v, q) <= v[|v| - 1]
  {
    var lo := FloorRank(|v|, q);
    if lo + 1 < |v| {
      assert v[lo + 1] <= v[|v| - 1];
    }
  }

  /** A larger quantile level never gives a smaller quantile. */
  lemma QuantileMonotone(v: seq<real>, q1: real, q2: real)
    requires |v| >= 1 && Sorted(v) && 0.0 <= q1 <= q2 <= 1.0
    ensures Quantile(v, q1) <= Quantile(v, q2)
  {
    RankMonotone(|v|, q1, q2);
    var lo1, lo2 := FloorRank(|v|, q1), FloorRank(|v|, q2);
    if lo1 == lo2 {
      if lo1 + 1 < |v| {
        var f1, f2 := Rank(|v|, q1) - lo1 as real, Rank(|v|, q2) - lo1 as real;
        LerpBetween(v[lo1], v[lo1 + 1], f1, f2);
      }
    } else {
      assert lo1 + 1 < |v| && v[lo1 + 1] <= v[lo2];
    }
  }

  /** Every value of `v` lies in [a, b]. */
  predicate AllWithin(v: seq<real>, a: real, b: real) {
    forall k | 0 <= k < |v| :: a <= v[k] <= b
  }

  /** Every value of the series at or above `a` and at or below `b` keeps the quantile there too. */
  lemma QuantileWithin(v: seq<real>, q: real, a: real, b: real)
    requires |v| >= 1 && 0.0 <= q <= 1.0
    requires AllWithin(v, a, b)
    ensures a <= Quantile(SortAscending(v), q) <= b
  {
    var w := SortAscending(v);
    QuantileBetweenExtremes(w, q);
    assert w[0] in multiset(v) && w[|w| - 1] in multiset(v);
  }

  // ---------------------------------------------------------------- step 4: clip

  /** `clip(0, 1)`: the nearest point of [0, 1]. */
  function Clip(x: real): (r: real)
    ensures 0.0 <= r <= 1.0
    ensures 0.0 <= x <= 1.0 ==> r == x
    ensures x < 0.0 ==> r == 0.0
    ensures x > 1.0 ==> r == 1.0
  {
    if x < 0.0 then 0.0 else if x > 1.0 then 1.0 else x
  }

  lemma ClipMonotone(x: real, y: real)
    requires x <= y
    ensures Clip(x) <= Clip(y)
  {
  }

  // ---------------------------------------------------------------- the estimator

  /** Both bounds lie in [0, 1]. */
  predicate InUnit(b: Bounds) {
    0.0 <= b.low <= 1.0 && 0.0 <= b.high <= 1.0
  }

  /** The bounds of one parameter: the two quantiles of its series, each clipped. */
  function RangeOf(param: Param, n: int, rows: seq<Point>, quantiles: (real, real)): (b: Bounds)
    requires |rows| >= 2 && Estimable(rows)
    requires 0.0 <= quantiles.0 <= 1.0 && 0.0 <= quantiles.1 <= 1.0
    ensures InUnit(b)
    ensures quantiles.0 <= quantiles.1 ==> b.low <= b.high
  {
    var sorted := SortAscending(Series(param, n, rows));
    var low := Quantile(sorted, quantiles.0);
    var high := Quantile(sorted, quantiles.1);
    assert quantiles.0 <= quantiles.1 ==> low <= high by {
      if quantiles.0 <= quantiles.1 {
        QuantileMonotone(sorted, quantiles.0, quantiles.1);
      }
    }
    Bounds(Clip(low), Clip(high))
  }

  /** The usable rows hold at least two points and their time steps strictly increase. */
  predicate EnoughUsable(rows: seq<Point>) {
    var used := UsableRows(rows);
    |used| >= 2 && Increasing(used)
  }

  /** The dictionary of bounds keyed by the parameter names of SirvModel.PARAMETERS. */
  function BoundsByName(rho: Bounds, sigma: Bounds, omega: Bounds): (r: map<string, Bounds>)
    ensures r.Keys == set p | p in SirvModel.PARAMETERS
    ensures r[Name(Rho)] == rho && r[Name(Sigma)] == sigma && r[Name(Omega)] == omega
    ensures forall p | p in r :: r[p] == rho || r[p] == sigma || r[p] == omega
    ensures InUnit(rho) && InUnit(sigma) && InUnit(omega) ==> forall p | p in r :: InUnit(r[p])
    ensures rho.low <= rho.high && sigma.low <= sigma.high && omega.low <= omega.high ==>
      forall p | p in r :: r[p].low <= r[p].high
  {
    var r := map[Name(Rho) := rho, Name(Sigma) := sigma, Name(Omega) := omega];
    assert r.Keys == {"rho", "sigma", "omega"};
    r
  }

  /**
   * `param_range`: the (low, high) bounds of rho, sigma and omega, each in
   * [0, 1], estimated from the usable rows only.
   */
  function ParamRange(rows: seq<Point>, population: int, quantiles: (real, real)): (r: map<string, Bounds>)
    requires EnoughUsable(rows)
    requires 0.0 <= quantiles.0 <= 1.0 && 0.0 <= quantiles.1 <= 1.0
    ensures r.Keys == set p | p in SirvModel.PARAMETERS
    ensures forall p | p in r :: InUnit(r[p])
    ensures quantiles.0 <= quantiles.1 ==> forall p | p in r :: r[p].low <= r[p].high
  {
    var used := UsableRows(rows);
    assert Estimable(used);
    var rho := RangeOf(Rho, population, used, quantiles);
    var sigma := RangeOf(Sigma, population, used, quantiles);
    var omega := RangeOf(Omega, population, used, quantiles);
    BoundsByName(rho, sigma, omega)
  }

  /** `param_range` called without quantiles: the levels 0.1 and 0.9, so every range is ordered. */
  function ParamRangeByDefault(rows: seq<Point>, population: int): (r: map<string, Bounds>)
    requires EnoughUsable(rows)
    ensures r == ParamRange(rows, population, DEFAULT_QUANTILES)
    ensures r.Keys == set p | p in SirvModel.PARAMETERS
    ensures forall p | p in r :: InUnit(r[p]) && r[p].low <= r[p].high
  {
    ParamRange(rows, population, DEFAULT_QUANTILES)
  }

  /** Rows with S <= 0 or CI <= 0 play no part: the estimate from the usable rows alone is the same. */
  lemma ParamRangeIgnoresUnusableRows(rows: seq<Point>, population: int, quantiles: (real, real))
    requires EnoughUsable(rows)
    requires 0.0 <= quantiles.0 <= 1.0 && 0.0 <= quantiles.1 <= 1.0
    ensures EnoughUsable(UsableRows(rows))
    ensures ParamRange(UsableRows(rows), population, quantiles) == ParamRange(rows, population, quantiles)
  {
    UsableRowsIdempotent(rows);
  }

  /** If every value of the series lies in [a, b], both bounds lie in [clip(a), clip(b)]. */
  lemma RangeOfBrackets(param: Param, n: int, rows: seq<Point>, quantiles: (real, real), a: real, b: real)
    requires |rows| >= 2 && Estimable(rows)
    requires 0.0 <= quantiles.0 <= 1.0 && 0.0 <= quantiles.1 <= 1.0
    requires AllWithin(Series(param, n, rows), a, b)
    ensures var bounds := RangeOf(param, n, rows, quantiles);
      Clip(a) <= bounds.low <= Clip(b) && Clip(a) <= bounds.high <= Clip(b)
  {
    var v := Series(param, n, rows);
    var sorted := SortAscending(v);
    QuantileWithin(v, quantiles.0, a, b);
    QuantileWithin(v, quantiles.1, a, b);
    ClipMonotone(a, Quantile(sorted, quantiles.0));
    ClipMonotone(Quantile(sorted, quantiles.0), b);
    ClipMonotone(a, Quantile(sorted, quantiles.1));
    ClipMonotone(Quantile(sorted, quantiles.1), b);
  }

  /**
   * If every step estimate of a parameter lies in [a, b], both of its bounds
   * lie in [clip(a), clip(b)]; in particular a series that equals a true
   * rate c in [0, 1] at every step gives the bounds (c, c).
   */
  lemma ParamRangeBrackets(rows: seq<Point>, population: int, quantiles: (real, real),
                           param: Param, a: real, b: real)
    requires EnoughUsable(rows)
    requires 0.0 <= quantiles.0 <= 1.0 && 0.0 <= quantiles.1 <= 1.0
    requires AllWithin(Series(param, population, UsableRows(rows)), a, b)
    ensures var bounds := ParamRange(rows, population, quantiles)[Name(param)];
      Clip(a) <= bounds.low <= Clip(b) && Clip(a) <= bounds.high <= Clip(b)
  {
    var used := UsableRows(rows);
    RangeOfBrackets(param, population, used, quantiles, a, b);
    assert ParamRange(rows, population, quantiles)[Name(param)] == RangeOf(param, population, used, quantiles);
  }


  /**
   * Over every step between consecutive usable rows, the backward difference
   * quotients equal the SIRV derivative at the later row (backward-Euler data).
   */
  predicate FollowsModel(rows: seq<Point>, n: SirvModel.Population, rho: real, sigma: real, omega: real)
    requires EnoughUsable(rows)
  {
    var used := UsableRows(rows);
    forall k | 0 <= k < |used| - 1 :: ExactSlopes(n, rho, sigma, omega, used[k], used[k + 1])
  }

  /** Without vaccination, one such backward-Euler step estimates rho and sigma exactly. */
  lemma ExactStepWithoutVaccination(n: SirvModel.Population, rho: real, sigma: real, prev: Point, cur: Point)
    requires Usable(cur) && prev.t < cur.t
    requires ExactSlopes(n, rho, sigma, 0.0, prev, cur)
    ensures Estimate(Rho, n, prev, cur) == rho
    ensures Estimate(Sigma, n, prev, cur) == sigma
  {
    EstimateOfExactSlopes(n, rho, sigma, 0.0, prev, cur);
  }

  /** Over backward-Euler steps without vaccination, the rho and sigma series are constant. */
  lemma ExactSeriesWithoutVaccination(n: SirvModel.Population, rho: real, sigma: real, rows: seq<Point>)
    requires |rows| >= 2 && Estimable(rows)
    requires forall k | 0 <= k < |rows| - 1 :: ExactSlopes(n, rho, sigma, 0.0, rows[k], rows[k + 1])
    ensures AllWithin(Series(Rho, n, rows), rho, rho)
    ensures AllWithin(Series(Sigma, n, rows), sigma, sigma)
  {
    var vr := Series(Rho, n, rows);
    var vs := Series(Sigma, n, rows);
    forall k | 0 <= k < |rows| - 1
      ensures vr[k] == rho && vs[k] == sigma
    {
      ExactStepWithoutVaccination(n, rho, sigma, rows[k], rows[k + 1]);
    }
  }

  /**
   * Without vaccination, backward-Euler data of the model gives the
   * degenerate ranges (clip(rho), clip(rho)) and (clip(sigma), clip(sigma)):
   * the estimator recovers the true rates.
   */
  lemma ParamRangeRecoversRates(rows: seq<Point>, n: SirvModel.Population,
                                quantiles: (real, real), rho: real, sigma: real)
    requires EnoughUsable(rows)
    requires 0.0 <= quantiles.0 <= 1.0 && 0.0 <= quantiles.1 <= 1.0
    requires FollowsModel(rows, n, rho, sigma, 0.0)
    ensures ParamRange(rows, n, quantiles)[Name(Rho)] == Bounds(Clip(rho), Clip(rho))
    ensures ParamRange(rows, n, quantiles)[Name(Sigma)] == Bounds(Clip(sigma), Clip(sigma))
  {
    var used := UsableRows(rows);
    assert Estimable(used);
    ExactSeriesWithoutVaccination(n, rho, sigma, used);
    ParamRangeBrackets(rows, n, quantiles, Rho, rho, rho);
    ParamRangeBrackets(rows, n, quantiles, Sigma, sigma, sigma);
  }
}
