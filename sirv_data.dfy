/**
 * The SIRV data adapter: `specialize` turns observed case counts into the
 * model's variables (Susceptible, Fatal or Recovered) and `restore` turns the
 * model's variables back into case counts. The two are not inverse: restore
 * books every death as a recovery.
 */
module SirvData {
  import opened Wrappers

  /**
   * One row of a case-count table. Each recognised column may be absent
   * (`None`); passthrough columns (the date, the time step, ...) are kept by
   * name and never read.
   */
  datatype Row = Row(
    confirmed: Option<int>,
    infected: Option<int>,
    fatal: Option<int>,
    recovered: Option<int>,
    susceptible: Option<int>,
    fatalOrRecovered: Option<int>,
    others: map<string, string>)

  /** The value columns Confirmed, Infected, Fatal and Recovered are all present. */
  predicate HasValueColumns(r: Row) {
    r.confirmed.Some? && r.infected.Some? && r.fatal.Some? && r.recovered.Some?
  }

  /** The columns restore reads, Infected and Fatal or Recovered, are present. */
  predicate HasModelColumns(r: Row) {
    r.infected.Some? && r.fatalOrRecovered.Some?
  }

  /** Confirmed cases split exactly into infected, fatal and recovered ones. */
  predicate Consistent(r: Row)
    requires HasValueColumns(r)
  {
    r.confirmed.value == r.infected.value + r.fatal.value + r.recovered.value
  }

  /** The value columns of a row, in the order Confirmed, Infected, Fatal, Recovered. */
  function ValueColumns(r: Row): seq<Option<int>> {
    [r.confirmed, r.infected, r.fatal, r.recovered]
  }

  /** The model variables of a row, in the order Susceptible, Infected, Fatal or Recovered. */
  function ModelColumns(r: Row): seq<Option<int>> {
    [r.susceptible, r.infected, r.fatalOrRecovered]
  }

  /**
   * `specialize` on one row: Susceptible is what the population leaves after
   * the confirmed cases, Fatal or Recovered pools the deaths and recoveries,
   * and every other column is left as it was.
   */
  function SpecializeRow(population: int, r: Row): (o: Row)
    requires HasValueColumns(r)
    ensures HasValueColumns(o) && HasModelColumns(o) && o.susceptible.Some?
    ensures o.susceptible.value + r.confirmed.value == population
    ensures o.fatalOrRecovered.value == r.fatal.value + r.recovered.value
    ensures o.(susceptible := r.susceptible, fatalOrRecovered := r.fatalOrRecovered) == r
  {
    r.(susceptible := Some(population - r.confirmed.value),
       fatalOrRecovered := Some(r.fatal.value + r.recovered.value))
  }

  /**
   * `restore` on one row: Confirmed is the infected plus the removed, nobody
   * is fatal, everyone removed is recovered; every other column (Infected,
   * Susceptible, Fatal or Recovered, passthrough) is left as it was.
   */
  function RestoreRow(r: Row): (o: Row)
    requires HasModelColumns(r)
    ensures HasValueColumns(o) && HasModelColumns(o) && Consistent(o)
    ensures o.fatal == Some(0) && o.recovered == r.fatalOrRecovered
    ensures o.(confirmed := r.confirmed, fatal := r.fatal, recovered := r.recovered) == r
  {
    r.(confirmed := Some(r.infected.value + r.fatalOrRecovered.value),
       fatal := Some(0),
       recovered := Some(r.fatalOrRecovered.value))
  }

  /** The documented example: population 1000, 100 confirmed, 5 fatal, 20 recovered. */
  lemma SpecializeExample(others: map<string, string>)
    ensures var o := SpecializeRow(1000, Row(Some(100), Some(75), Some(5), Some(20), None, None, others));
      o.susceptible == Some(900) && o.fatalOrRecovered == Some(25)
  {
  }

  /** On a consistent row the model variables conserve the population: S + CI + FR = N. */
  lemma SpecializeConservesPopulation(population: int, r: Row)
    requires HasValueColumns(r) && Consistent(r)
    ensures var o := SpecializeRow(population, r);
      o.susceptible.value + o.infected.value + o.fatalOrRecovered.value == population
  {
  }

  /**
   * restore after specialize on a consistent row keeps Confirmed and Infected,
   * zeroes Fatal and books the deaths as recoveries: a lossy merge.
   */
  lemma RestoreAfterSpecialize(population: int, r: Row)
    requires HasValueColumns(r) && Consistent(r)
    ensures var o := RestoreRow(SpecializeRow(population, r));
      && o.confirmed == r.confirmed && o.infected == r.infected
      && o.fatal == Some(0) && o.recovered == Some(r.fatal.value + r.recovered.value)
      && o.susceptible == Some(population - r.confirmed.value)
      && o.others == r.others
  {
  }

  /**
   * The case counts survive specialize then restore exactly when the row is
   * consistent and has no deaths.
   */
  lemma RoundTripIffNoDeaths(population: int, r: Row)
    requires HasValueColumns(r)
    ensures ValueColumns(RestoreRow(SpecializeRow(population, r))) == ValueColumns(r)
        <==> Consistent(r) && r.fatal.value == 0
  {
    var o := RestoreRow(SpecializeRow(population, r));
    if ValueColumns(o) == ValueColumns(r) {
      assert o.fatal == ValueColumns(o)[2] == ValueColumns(r)[2] == r.fatal;
      assert o.confirmed == ValueColumns(o)[0] == ValueColumns(r)[0] == r.confirmed;
    }
  }

  /**
   * On a consistent row, specializing the restored row gives back the model
   * variables of the first specialize: nothing the model uses is lost.
   */
  lemma SpecializeAfterRestore(population: int, r: Row)
    requires HasValueColumns(r) && Consistent(r)
    ensures var s := SpecializeRow(population, r);
      ModelColumns(SpecializeRow(population, RestoreRow(s))) == ModelColumns(s)
  {
  }

  /** Restoring twice is restoring once. */
  lemma RestoreIdempotent(r: Row)
    requires HasModelColumns(r)
    ensures RestoreRow(RestoreRow(r)) == RestoreRow(r)
  {
  }

  /** Every row of the table has the value columns (what specialize validates). */
  predicate AllHaveValueColumns(rows: seq<Row>) {
    forall k | 0 <= k < |rows| :: HasValueColumns(rows[k])
  }

  /** Every row of the table has the columns restore reads. */
  predicate AllHaveModelColumns(rows: seq<Row>) {
    forall k | 0 <= k < |rows| :: HasModelColumns(rows[k])
  }

  /** `specialize` on a whole table: row by row, same row count, same order. */
  function SpecializeTable(population: int, rows: seq<Row>): (out: seq<Row>)
    requires AllHaveValueColumns(rows)
    ensures |out| == |rows| && AllHaveModelColumns(out)
    ensures forall k | 0 <= k < |rows| :: out[k] == SpecializeRow(population, rows[k])
  {
    seq(|rows|, k requires 0 <= k < |rows| => SpecializeRow(population, rows[k]))
  }

  /** `restore` on a whole table: row by row, same row count, same order. */
  function RestoreTable(rows: seq<Row>): (out: seq<Row>)
    requires AllHaveModelColumns(rows)
    ensures |out| == |rows| && AllHaveValueColumns(out)
    ensures forall k | 0 <= k < |rows| :: out[k] == RestoreRow(rows[k])
  {
    seq(|rows|, k requires 0 <= k < |rows| => RestoreRow(rows[k]))
  }

  /** The lossy merge on a whole table of consistent rows. */
  lemma RestoreAfterSpecializeTable(population: int, rows: seq<Row>)
    requires AllHaveValueColumns(rows)
    requires forall k | 0 <= k < |rows| :: Consistent(rows[k])
    ensures var out := RestoreTable(SpecializeTable(population, rows));
      && |out| == |rows|
      && forall k | 0 <= k < |rows| ::
           && out[k].confirmed == rows[k].confirmed && out[k].infected == rows[k].infected
           && out[k].fatal == Some(0)
           && out[k].recovered == Some(rows[k].fatal.value + rows[k].recovered.value)
  {
    forall k | 0 <= k < |rows|
      ensures RestoreTable(SpecializeTable(population, rows))[k] == RestoreRow(SpecializeRow(population, rows[k]))
    {
    }
  }

  /**
   * `specialize`: adds Susceptible and Fatal or Recovered to every row of the
   * frame it was given, in place, leaving the row count and every other column.
   */
  method Specialize(df: array<Row>, population: int)
    requires AllHaveValueColumns(df[..])
    modifies df
    ensures df[..] == SpecializeTable(population, old(df[..]))
  {
    var k := 0;
    while k < df.Length
      invariant 0 <= k <= df.Length
      invariant forall j | 0 <= j < k :: df[j] == SpecializeRow(population, old(df[j]))
      invariant forall j | k <= j < df.Length :: df[j] == old(df[j])
    {
      df[k] := SpecializeRow(population, df[k]);
      k := k + 1;
    }
  }

  /**
   * `restore`: a new frame holding the restored rows; the frame it was given
   * is not changed.
   */
  method Restore(specialized: array<Row>) returns (df: array<Row>)
    requires AllHaveModelColumns(specialized[..])
    ensures fresh(df)
    ensures df[..] == RestoreTable(specialized[..])
  {
    df := new Row[specialized.Length](k reads specialized requires 0 <= k < specialized.Length => specialized[k]);
    var k := 0;
    while k < df.Length
      invariant 0 <= k <= df.Length
      invariant forall j | 0 <= j < k :: df[j] == RestoreRow(specialized[j])
      invariant forall j | k <= j < df.Length :: df[j] == specialized[j]
    {
      df[k] := RestoreRow(df[k]);
      k := k + 1;
    }
  }
}
