# SIRV model of CovsirPhy, in Dafny

This project models the SIRV ODE model of CovsirPhy (`covsirphy/ode/sirv.py`).
SIRV stands for Susceptible, Infected, Recovered and Vaccinated. Its state is
(S, CI, FR): susceptible, currently infected, and fatal-or-recovered. It has
three non-dimensional rates: rho (infection), sigma (removal) and omega
(vaccination, which moves people from S to FR directly).

The files:

- `wrappers.dfy` holds `Option`. It stands for Python's `None` next to a value.
- `py_numbers.dfy` models Python's `int(x)` (truncation toward zero) and
  `round(x, 2)` on mathematical reals.
- `sirv_model.dfy` holds the model's constants (`NAME`, `PARAMETERS`,
  `DAY_PARAMETERS`, `VAR_DICT`, `VARIABLES`). It also holds:
  - the right-hand side of the ODE (`Derivative`);
  - the two metrics, `calc_r0` (`R0`) and `calc_days_dict` (`DaysDict`);
  - the class `Sirv`, whose constructor fixes the population and the rates,
    and whose `Call`, `CalcR0` and `CalcDaysDict` delegate to those functions.
- `sirv_data.dfy` is the data adapter.
  - `specialize` adds Susceptible and Fatal or Recovered to a case-count table.
    The method `Specialize` does this in place on an array of rows.
  - `restore` rebuilds Confirmed, Infected, Fatal and Recovered in a new table
    (`Restore`).
  - Both are specified by row and table functions.
- `sirv_range.dfy` models `param_range`, which runs in four steps:
  1. Keep the rows with S > 0 and CI > 0.
  2. Estimate each rate at every step by backward differences.
  3. Take two quantiles of each estimate series, using linear interpolation on
     the sorted values, as pandas does by default.
  4. Clip each quantile to [0, 1].

The main results proved:

- The derivative conserves the total population.
- S never grows and FR never shrinks when the rates and the state are
  non-negative.
- `R0` is undefined exactly when sigma is zero. Otherwise it is the nearest
  hundredth to rho/sigma.
- In `DaysDict`, every entry is undefined together, exactly when rho or sigma
  is zero. Otherwise the entries are Python's `int` of the documented quotients.
- `specialize` followed by `restore` keeps the case counts if and only if the
  row is consistent (C = CI + F + R) and has no deaths. `restore` books every
  death as a recovery.
- The bounds from `param_range`:
  - always lie in [0, 1];
  - are ordered (low <= high) when the quantile levels are;
  - do not depend on the unusable rows;
  - lie in [clip(a), clip(b)] whenever every step estimate lies in [a, b];
    so they lie within [a, b] itself when [a, b] meets [0, 1].
- Take data whose backward difference quotient over each step equals the SIRV
  derivative at the later row, as backward-Euler data does. Without
  vaccination, the rho and sigma bounds are exactly the clipped true rates.
- On such data with vaccination:
  - the rho estimate is rho + n·omega/(S·CI);
  - the sigma estimate is sigma + omega/CI;
  - the omega estimate is 2·(rho·S·CI/n + omega).

## Model

| member | source | states |
|---|---|---|
| PyNumbers.Trunc | covsirphy/ode/sirv.py:202-204 | `int(x)`: the integer part, truncated toward zero, for both signs of `x` |
| PyNumbers.RoundHundredth | covsirphy/ode/sirv.py:188 | `round(x, 2)` is a whole number of hundredths within half a hundredth of `x` |
| PyNumbers.RoundHundredthIsNearest | covsirphy/ode/sirv.py:188 | no whole number of hundredths is closer to `x` than `round(x, 2)` |
| SirvModel.Derivative | covsirphy/ode/sirv.py:56-72 | three components, in the order of VARIABLES, summing to zero. dS/dt = -rho·S·CI/n - omega and dFR/dt = sigma·CI + omega |
| SirvModel.DerivativeReadsOnlySAndCI | covsirphy/ode/sirv.py:67-68 | the derivative depends only on S and CI, not on t, FR or any later entry of X |
| SirvModel.DerivativeInfectedFlow | covsirphy/ode/sirv.py:69-71 | dCI/dt = rho·S·CI/n - sigma·CI: vaccination bypasses CI |
| SirvModel.DerivativeSigns | covsirphy/ode/sirv.py:69-70 | with non-negative rates and state, S never grows and FR never shrinks |
| SirvModel.DerivativeAtRest | covsirphy/ode/sirv.py:69-72 | with no infected and no vaccination, the derivative is zero |
| SirvModel.R0 | covsirphy/ode/sirv.py:177-188 | undefined exactly when sigma = 0; otherwise the rounded rho/sigma, within 0.005 of it |
| SirvModel.R0Example | covsirphy/ode/sirv.py:38 | the example rates rho = 0.2, sigma = 0.075 give R0 = 2.67 |
| SirvModel.DaysDict | covsirphy/ode/sirv.py:190-207 | keys are DAY_PARAMETERS. All entries are undefined exactly when rho or sigma is zero. Otherwise the entries are int(tau/1440/rho), int(tau/1440/sigma) and int(omega) |
| SirvModel.DaysDictExample | covsirphy/ode/sirv.py:38 | tau = 1440 with the example rates gives 5, 13 and 0 days |
| SirvModel.Sirv.constructor | covsirphy/ode/sirv.py:45-54 | stores the population (a natural number) and the rates; the parameter dict maps PARAMETERS to rho, sigma and omega |
| SirvModel.Sirv.Call | covsirphy/ode/sirv.py:56-72 | `__call__` is the derivative at this model's population and rates, and conserves the total |
| SirvModel.Sirv.CalcR0 | covsirphy/ode/sirv.py:177-188 | undefined exactly when this model's sigma is zero |
| SirvModel.Sirv.CalcDaysDict | covsirphy/ode/sirv.py:190-207 | this model's day-scale parameters, keyed by DAY_PARAMETERS |
| SirvData.SpecializeRow | covsirphy/ode/sirv.py:138-139 | S + C = population and FR = F + R; every other column is unchanged |
| SirvData.RestoreRow | covsirphy/ode/sirv.py:172-174 | the restored row is consistent (C = CI + F + R), F = 0 and R = FR; every other column is unchanged |
| SirvData.SpecializeExample | covsirphy/ode/sirv.py:138-139 | population 1000 with C = 100, F = 5, R = 20 gives S = 900 and FR = 25 |
| SirvData.SpecializeConservesPopulation | covsirphy/ode/sirv.py:138-139 | on a consistent row, S + CI + FR = population |
| SirvData.RestoreAfterSpecialize | covsirphy/ode/sirv.py:138-174 | restore after specialize keeps C and CI, sets F = 0 and R = F + R, and keeps the passthrough columns |
| SirvData.RoundTripIffNoDeaths | covsirphy/ode/sirv.py:138-174 | the case counts survive specialize then restore if and only if the row is consistent and F = 0 |
| SirvData.SpecializeAfterRestore | covsirphy/ode/sirv.py:172-174 | on the specialization of a consistent row (so S + CI + FR = population), restore then specialize gives back S, CI and FR |
| SirvData.RestoreIdempotent | covsirphy/ode/sirv.py:170-175 | restoring twice is restoring once |
| SirvData.SpecializeTable | covsirphy/ode/sirv.py:135-140 | specialize, row by row, keeping the row count and order |
| SirvData.RestoreTable | covsirphy/ode/sirv.py:170-175 | restore, row by row, keeping the row count and order; every row gains the value columns |
| SirvData.RestoreAfterSpecializeTable | covsirphy/ode/sirv.py:135-175 | the lossy merge of deaths into recoveries, over a whole table |
| SirvData.Specialize | covsirphy/ode/sirv.py:110-140 | the frame's rows become their specialized rows, in place |
| SirvData.Restore | covsirphy/ode/sirv.py:143-175 | a fresh frame of the restored rows |
| SirvRange.UsableRows | covsirphy/ode/sirv.py:94 | keeps exactly the rows with S > 0 and CI > 0, and no more rows than given |
| SirvRange.UsableRowsOfOne | covsirphy/ode/sirv.py:94 | a single row is kept exactly when S > 0 and CI > 0 |
| SirvRange.UsableRowsAppend | covsirphy/ode/sirv.py:94 | the filter distributes over concatenation. With the one-row case, this makes it the order-keeping filter that keeps repeated rows |
| SirvRange.UsableRowsIdempotent | covsirphy/ode/sirv.py:94 | filtering twice is filtering once |
| SirvRange.UsableRowsKeepIncreasing | covsirphy/ode/sirv.py:94-101 | dropping rows keeps the time steps strictly increasing |
| SirvRange.Estimate | covsirphy/ode/sirv.py:96-101 | the estimate at one step, from backward differences at the later row. With a positive population, the rho estimate is positive exactly when S falls. The sigma estimate is positive exactly when FR rises. The omega estimate is dCI/dt + dFR/dt - dS/dt, because n cancels. Its values on backward-Euler data are stated by EstimateOfExactSlopes |
| SirvRange.Series | covsirphy/ode/sirv.py:95-101 | one estimate per step; position k uses the step into row k + 1 and the values of that row |
| SirvRange.EstimateOfExactSlopes | covsirphy/ode/sirv.py:96-101 | where the backward difference quotients of a step equal the SIRV derivative at its later row, the estimates are rho + n·omega/(S·CI), sigma + omega/CI and 2·(rho·S·CI/n + omega) |
| SirvRange.ExactStepWithoutVaccination | covsirphy/ode/sirv.py:96-99 | without vaccination, one such backward-Euler step estimates rho and sigma exactly |
| SirvRange.ExactSeriesWithoutVaccination | covsirphy/ode/sirv.py:96-99 | without vaccination, backward-Euler data gives constant rho and sigma series |
| SirvRange.Insert | covsirphy/ode/sirv.py:104 | inserting into a sorted series keeps it sorted and adds exactly one value |
| SirvRange.SortAscending | covsirphy/ode/sirv.py:104 | a sorted permutation of the series |
| SirvRange.Rank | covsirphy/ode/sirv.py:104 | the interpolation rank (m - 1)·q lies in [0, m - 1] |
| SirvRange.RankMonotone | covsirphy/ode/sirv.py:104 | the rank grows with the quantile level |
| SirvRange.FloorRank | covsirphy/ode/sirv.py:104 | the floor of the rank is a valid index |
| SirvRange.Quantile | covsirphy/ode/sirv.py:104 | the quantile lies between the two sorted values that bracket its rank; at the last index it is the last value |
| SirvRange.QuantileInterpolates | covsirphy/ode/sirv.py:104 | pandas' default linear interpolation: at rank h, between i = floor(h) and j = i + 1, the value is v[i] + (v[j] - v[i])·(h - i) |
| SirvRange.QuantileExample | covsirphy/ode/sirv.py:104 | [1, 2, 3, 4] at levels 0.25, 0.5 and 0.75 gives 1.75, 2.5 and 3.25 |
| SirvRange.QuantileBetweenExtremes | covsirphy/ode/sirv.py:104 | the quantile lies between the minimum and the maximum |
| SirvRange.QuantileMonotone | covsirphy/ode/sirv.py:104 | a higher level never gives a lower quantile |
| SirvRange.QuantileWithin | covsirphy/ode/sirv.py:104 | a quantile of values in [a, b] lies in [a, b] |
| SirvRange.Clip | covsirphy/ode/sirv.py:104 | `clip(0, 1)` is the nearest point of [0, 1] |
| SirvRange.ClipMonotone | covsirphy/ode/sirv.py:104 | clipping keeps the order |
| SirvRange.RangeOf | covsirphy/ode/sirv.py:103-106 | both bounds of one parameter lie in [0, 1], and low <= high when the levels are ordered |
| SirvRange.BoundsByName | covsirphy/ode/sirv.py:103-106 | a dictionary keyed by exactly PARAMETERS, holding the rho, sigma and omega bounds |
| SirvRange.ParamRange | covsirphy/ode/sirv.py:75-107 | keys are exactly PARAMETERS; every bound is in [0, 1]; low <= high when the quantile levels are ordered |
| SirvRange.ParamRangeByDefault | covsirphy/ode/sirv.py:75 | with the default levels (0.1, 0.9), keys are exactly PARAMETERS and every range lies in [0, 1] with low <= high |
| SirvRange.ParamRangeIgnoresUnusableRows | covsirphy/ode/sirv.py:94 | the ranges from the table equal those from its usable rows alone |
| SirvRange.RangeOfBrackets | covsirphy/ode/sirv.py:103-106 | if every estimate lies in [a, b], both bounds lie in [clip(a), clip(b)] |
| SirvRange.ParamRangeBrackets | covsirphy/ode/sirv.py:75-107 | if every step estimate of a parameter lies in [a, b], its bounds lie in [clip(a), clip(b)] |
| SirvRange.ParamRangeRecoversRates | covsirphy/ode/sirv.py:94-106 | without vaccination, data whose backward difference quotient over each step equals the SIRV derivative at the later row (as backward-Euler data does) gives the ranges (clip(rho), clip(rho)) and (clip(sigma), clip(sigma)) |

## Left out

- Floating point: all arithmetic is on mathematical reals.
  - IEEE rounding, overflow, infinities and NaN are not modelled.
  - The rho estimate is written 0 - n·(ΔS/Δt)/S/CI. The code computes
    0 - n·ΔS/Δt/S/CI, which is the same over the reals.
- PyNumbers.RoundHundredth: a tie (an exact half hundredth) rounds upward.
  Python's `round` works on binary floats and rounds ties to even.
- SirvModel.Sirv.constructor: `omega` has no `None` default. A model without
  omega cannot compute the derivative in the code either.
- SirvModel.Sirv.constructor: `population` is required to be at least 1.
  - The code's `_ensure_natural_int` raises on other values; the model turns
    that check into a precondition.
  - `_ensure_natural_int` and `_ensure_dataframe` live in `covsirphy/ode/mbase.py`,
    which is not part of this model.
- SirvData.Specialize: the column check of `_ensure_dataframe` is a
  precondition (every row has Confirmed, Infected, Fatal and Recovered).
  - VALUE_COLUMNS is taken to be these four columns.
  - The update is modelled in place, on the assumption that `_ensure_dataframe`
    returns the caller's own frame. That helper is not part of this model, so
    the assumption cannot be checked here. If it returned a copy, the caller's
    frame would stay unchanged.
- SirvData.RestoreRow and SirvData.Restore: every row is required to have
  Infected and Fatal or Recovered, the two columns line 172 reads. Susceptible
  is not required, in the code or here. Where a required column is missing, the
  code raises pandas' KeyError at line 172; that error path is not modelled.
- SirvData.Restore: the column order of the result is not modelled.
  - The code puts the value columns first and the other columns after them,
    in set order.
  - A row here is a record with no column order.
- Restore keeps Susceptible and Fatal or Recovered among "the other
  columns", as the code and the docstring of `restore` both say.
- SirvRange.ParamRange:
  - at least two usable rows with strictly increasing time steps are a
    precondition;
  - the code raises no error of its own here. With fewer rows, pandas returns
    NaN quantiles, and a repeated time step divides by zero;
  - the NaN of the first difference, which pandas' quantile skips, is not
    produced at all: the series starts at the second usable row;
  - only a pair of quantile levels is modelled, both in [0, 1].
- SirvRange.EstimateOfExactSlopes states what the omega estimator measures on
  backward-Euler data: 2·(rho·S·CI/n + omega), not omega.
  - The code computes the slope of n - S + CI + FR. Under the model that slope
    is -dS/dt + dCI/dt + dFR/dt.
  - The formula in the code's own comment, -(dS/dt + dCI/dt + dFR/dt), is zero
    under the model. So the intended estimator is not clear from the source,
    and this is recorded as a property rather than as a finding.
- The constants `WEIGHTS`, `VARS_INCLEASE` and `EXAMPLE` are used only by the
  parameter estimator and the simulator outside this file. Only the example
  rates (line 38) appear here, in R0Example and DaysDictExample.
- SirvRange.ParamRangeRecoversRates: on samples of an ODE solution (exact or
  from a forward or higher-order solver) the estimates are not exact, and
  nothing is proved about their error. The exactness results assume
  backward-Euler data only.
- Numerical ODE solving, parameter optimisation and plotting are not modelled.
  They are external solvers and libraries.
