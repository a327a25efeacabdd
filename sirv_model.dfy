/**
 * The SIRV model definition: its published constants, the right-hand side of
 * the ODE handed to an external solver, and the derived metrics (basic
 * reproduction number and day-scale parameters).
 *
 * All arithmetic is on mathematical reals; see README.md for what that leaves out.
 */
module SirvModel {
  import opened Wrappers
  import opened PyNumbers

  const NAME := "SIRV"
  /** Names of the non-dimensional parameters, in order. */
  const PARAMETERS: seq<string> := ["rho", "sigma", "omega"]
  /** Labels of the day-scale interpretations, in order. */
  const DAY_PARAMETERS: seq<string> := ["1/beta [day]", "1/gamma [day]", "Vaccination rate [day]"]

  /** Column names of the dimensional variables. */
  const S := "Susceptible"
  const CI := "Infected"
  const FR := "Fatal or Recovered"
  /** Non-dimensional variable name to dimensional column name. */
  const VAR_DICT: map<string, string> := map["x" := S, "y" := CI, "z" := FR]
  /** The model variables, in the order of the state vector and of the derivative. */
  const VARIABLES: seq<string> := [VAR_DICT["x"], VAR_DICT["y"], VAR_DICT["z"]]

  /** A total population, validated as a natural number at construction. */
  type Population = n: int | n >= 1 witness 1

  /**
   * dX/dt of the tau-free ODE at time `t` and state `x` = (S, CI, FR, ...):
   * S loses `rho*S*CI/n` by infection and `omega` by vaccination, FR gains
   * `sigma*CI` by removal and `omega`, and CI takes whatever keeps the total fixed.
   * No bound is checked on the state: the solver may pass any reals.
   */
  function Derivative(n: Population, rho: real, sigma: real, omega: real, t: real, x: seq<real>): (d: seq<real>)
    requires |x| >= 2
    ensures |d| == |VARIABLES|
    ensures d[0] + d[1] + d[2] == 0.0
    ensures d[0] == -(rho * x[0] * x[1] / n as real) - omega
    ensures d[2] == sigma * x[1] + omega
  {
    var s, i := x[0], x[1];
    var dsdt := 0.0 - rho * s * i / n as real - omega;
    var drdt := sigma * i + omega;
    var didt := 0.0 - dsdt - drdt;
    [dsdt, didt, drdt]
  }

  /** The derivative reads only S and CI: not the time and not FR or later entries. */
  lemma DerivativeReadsOnlySAndCI(n: Population, rho: real, sigma: real, omega: real,
                                   t1: real, x1: seq<real>, t2: real, x2: seq<real>)
    requires |x1| >= 2 && |x2| >= 2
    requires x1[0] == x2[0] && x1[1] == x2[1]
    ensures Derivative(n, rho, sigma, omega, t1, x1) == Derivative(n, rho, sigma, omega, t2, x2)
  {
    var d1, d2 := Derivative(n, rho, sigma, omega, t1, x1), Derivative(n, rho, sigma, omega, t2, x2);
    assert d1[0] == d2[0] && d1[2] == d2[2];
    assert d1[1] == d2[1];
  }

  /** The flow into I is infection minus removal: vaccination passes from S to FR directly. */
  lemma DerivativeInfectedFlow(n: Population, rho: real, sigma: real, omega: real, t: real, x: seq<real>)
    requires |x| >= 2
    ensures Derivative(n, rho, sigma, omega, t, x)[1] == rho * x[0] * x[1] / n as real - sigma * x[1]
  {
  }

  /**
   * With non-negative rates and a non-negative state, S never grows and FR
   * never shrinks.
   */
  lemma DerivativeSigns(n: Population, rho: real, sigma: real, omega: real, t: real, x: seq<real>)
    requires |x| >= 2 && x[0] >= 0.0 && x[1] >= 0.0
    requires rho >= 0.0 && sigma >= 0.0 && omega >= 0.0
    ensures Derivative(n, rho, sigma, omega, t, x)[0] <= 0.0
    ensures Derivative(n, rho, sigma, omega, t, x)[2] >= 0.0
  {
    var p := rho * x[0];
    assert p >= 0.0;
    assert p * x[1] >= 0.0;
    assert sigma * x[1] >= 0.0;
  }

  /** Without infected and without vaccination the state is at rest. */
  lemma DerivativeAtRest(n: Population, rho: real, sigma: real, t: real, x: seq<real>)
    requires |x| >= 2 && x[1] == 0.0
    ensures Derivative(n, rho, sigma, 0.0, t, x) == [0.0, 0.0, 0.0]
  {
    assert rho * x[0] * x[1] == 0.0;
  }

  /**
   * `calc_r0`: `rho / sigma` rounded to two decimals, or undefined exactly
   * when the division by `sigma` fails.
   */
  function R0(rho: real, sigma: real): (r: Option<real>)
    ensures r.None? <==> sigma == 0.0
    ensures r.Some? ==> IsHundredths(r.value) && -0.005 < r.value - rho / sigma <= 0.005
  {
    if sigma == 0.0 then None else Some(RoundHundredth(rho / sigma))
  }

  /** The documented example: rho = 0.2, sigma = 0.075 gives R0 = 2.67. */
  lemma R0Example()
    ensures R0(0.2, 0.075) == Some(2.67)
  {
    var x := 0.2 / 0.075 * 100.0 + 0.5;
    assert x == 800.0 / 3.0 + 0.5;
    assert 267.0 <= x < 268.0;
    assert x.Floor == 267;
  }

  /**
   * `calc_days_dict(tau)`: the day-scale parameters keyed by DAY_PARAMETERS,
   * each `int(...)` of `tau/24/60/rho`, `tau/24/60/sigma` and `omega`.
   * When `rho` or `sigma` is zero the division fails and every entry is
   * undefined together.
   */
  function DaysDict(tau: int, rho: real, sigma: real, omega: real): (r: map<string, Option<int>>)
    ensures r.Keys == set p | p in DAY_PARAMETERS
    ensures (rho == 0.0 || sigma == 0.0) <==> (forall p | p in r :: r[p].None?)
    ensures (forall p | p in r :: r[p].None?) || (forall p | p in r :: r[p].Some?)
    ensures rho != 0.0 && sigma != 0.0 ==>
      && r[DAY_PARAMETERS[0]] == Some(Trunc(tau as real / 1440.0 / rho))
      && r[DAY_PARAMETERS[1]] == Some(Trunc(tau as real / 1440.0 / sigma))
      && r[DAY_PARAMETERS[2]] == Some(Trunc(omega))
  {
    if rho == 0.0 || sigma == 0.0 then
      map p | p in DAY_PARAMETERS :: None
    else
      var days := map[DAY_PARAMETERS[0] := Some(Trunc(tau as real / 24.0 / 60.0 / rho)),
                       DAY_PARAMETERS[1] := Some(Trunc(tau as real / 24.0 / 60.0 / sigma)),
                       DAY_PARAMETERS[2] := Some(Trunc(omega))];
      assert days[DAY_PARAMETERS[0]].Some?;
      days
  }

  /** The documented example: tau = 1440 with rho 0.2, sigma 0.075, omega 0.001 gives 5, 13, 0. */
  lemma DaysDictExample()
    ensures DaysDict(1440, 0.2, 0.075, 0.001)
         == map["1/beta [day]" := Some(5), "1/gamma [day]" := Some(13), "Vaccination rate [day]" := Some(0)]
  {
    assert Trunc(1440.0 / 1440.0 / 0.2) == 5;
    assert Trunc(1440.0 / 1440.0 / 0.075) == 13;
    assert Trunc(0.001) == 0;
  }

  /**
   * One SIRV model: the population and the three non-dimensional rates, fixed
   * at construction and read by the derivative and the metrics.
   */
  class Sirv {
    const population: Population
    const rho: real
    const sigma: real
    const omega: real
    /** The parameters by name, keyed by PARAMETERS. */
    const nonParamDict: map<string, real>

    constructor (population: int, rho: real, sigma: real, omega: real)
      requires population >= 1
      ensures this.population == population
      ensures this.rho == rho && this.sigma == sigma && this.omega == omega
      ensures nonParamDict.Keys == set p | p in PARAMETERS
      ensures nonParamDict[PARAMETERS[0]] == rho
      ensures nonParamDict[PARAMETERS[1]] == sigma
      ensures nonParamDict[PARAMETERS[2]] == omega
    {
      this.population := population;
      this.rho := rho;
      this.sigma := sigma;
      this.omega := omega;
      this.nonParamDict := map["rho" := rho, "sigma" := sigma, "omega" := omega];
    }

    /** `__call__`: the derivative with this model's population and rates; it conserves the total. */
    function Call(t: real, x: seq<real>): (d: seq<real>)
      requires |x| >= 2
      ensures d == Derivative(population, rho, sigma, omega, t, x)
      ensures |d| == 3 && d[0] + d[1] + d[2] == 0.0
    {
      Derivative(population, rho, sigma, omega, t, x)
    }

    /** `calc_r0`: the reproduction number of this model, undefined exactly when sigma is zero. */
    function CalcR0(): (r: Option<real>)
      ensures r == R0(rho, sigma)
      ensures r.None? <==> sigma == 0.0
    {
      R0(rho, sigma)
    }

    /** `calc_days_dict(tau)` of this model. */
    function CalcDaysDict(tau: int): (r: map<string, Option<int>>)
      ensures r == DaysDict(tau, rho, sigma, omega)
      ensures r.Keys == set p | p in DAY_PARAMETERS
    {
      DaysDict(tau, rho, sigma, omega)
    }
  }
}
