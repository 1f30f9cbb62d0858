/** The metric enricher (app.py lines 107-119): the left join with the
    auxiliary state table, the two ratio columns, the date string column and
    the two axis bounds. */
module Metrics {
  import opened Wrappers
  import opened Calendar
  import opened DateText
  import opened Normalise
  import opened GapFill

  /** A float64 outcome: a number (kept exact, without rounding), an
      infinity, or NaN. */
  datatype Float = Num(v: real) | PosInf | NegInf | NaN

  /** IEEE `a > b`; every comparison with NaN is false. */
  predicate Greater(a: Float, b: Float) {
    match a
    case NaN => false
    case NegInf => false
    case PosInf => b.Num? || b.NegInf?
    case Num(x) => b.NegInf? || (b.Num? && x > b.v)
  }

  /** Integer column division under numpy: dividing by zero gives an
      infinity with the numerator's sign, or NaN for 0 / 0. */
  function Quotient(n: int, d: int): (r: Float)
    ensures r.Num? <==> d != 0
    ensures r.Num? ==> r.v * (d as real) == n as real
    ensures r.PosInf? <==> d == 0 && n > 0
    ensures r.NegInf? <==> d == 0 && n < 0
  {
    if d != 0 then Num(n as real / d as real)
    else if n > 0 then PosInf
    else if n < 0 then NegInf
    else NaN
  }

  /** Multiplication by a positive constant; infinities and NaN stay. */
  function Scale(a: Float, c: real): (r: Float)
    requires c > 0.0
    ensures r.Num? <==> a.Num?
    ensures r.Num? ==> r.v == a.v * c
    ensures !r.Num? ==> r == a
  {
    match a
    case Num(x) => Num(x * c)
    case _ => a
  }

  /** Addition of a constant; infinities and NaN stay. */
  function Shift(a: Float, c: real): (r: Float)
    ensures r.Num? <==> a.Num?
    ensures r.Num? ==> r.v == a.v + c
    ensures !r.Num? ==> r == a
  {
    match a
    case Num(x) => Num(x + c)
    case _ => a
  }

  /** A row of `auxiliary.csv` without its `state` key. */
  datatype Aux = Aux(abbr: string, zone: string, population: int)

  /** Line 115: confirmed / tested * 100, NaN when the gap filler left the
      counts missing. */
  function PosRate(counts: Option<Counts>): (r: Float)
    ensures r.Num? <==> counts.Some? && counts.value.tested != 0
    ensures r.Num? ==> r.v * (counts.value.tested as real) == counts.value.confirmed as real * 100.0
    ensures r.NaN? <==> counts.None? || (counts.value.tested == 0 && counts.value.confirmed == 0)
  {
    match counts
    case None => NaN
    case Some(c) => Scale(Quotient(c.confirmed, c.tested), 100.0)
  }

  /** Line 116: tested / population * 1000000, NaN when the counts are
      missing or the state has no auxiliary row. */
  function Per1M(counts: Option<Counts>, aux: Option<Aux>): (r: Float)
    ensures r.Num? <==> counts.Some? && aux.Some? && aux.value.population != 0
    ensures r.Num? ==> r.v * (aux.value.population as real) == counts.value.tested as real * 1000000.0
  {
    if counts.None? || aux.None? then NaN
    else Scale(Quotient(counts.value.tested, aux.value.population), 1000000.0)
  }

  /** A row of the enriched table. */
  datatype Enriched = Enriched(
    state: string,
    day: int,
    counts: Option<Counts>,
    aux: Option<Aux>,
    testPosRate: Float,
    testPer1M: Float,
    dateString: string)

  /** The auxiliary row of state s, by exact name. */
  function Lookup(table: map<string, Aux>, s: string): (r: Option<Aux>)
    ensures r.Some? <==> s in table
    ensures r.Some? ==> r.value == table[s]
  {
    if s in table then Some(table[s]) else None
  }

  predicate AllTimestamps(rows: seq<DailyRow>) {
    forall p :: 0 <= p < |rows| ==> InTimestampRange(rows[p].day)
  }

  function EnrichRow(row: DailyRow, table: map<string, Aux>): (r: Enriched)
    requires InTimestampRange(row.day)
  {
    var aux := Lookup(table, row.state);
    Enriched(row.state, row.day, row.counts, aux, PosRate(row.counts), Per1M(row.counts, aux), DateString(row.day))
  }

  /** Lines 107-117: the left merge on `state` and the derived columns. */
  function Enrich(rows: seq<DailyRow>, table: map<string, Aux>): (r: seq<Enriched>)
    requires AllTimestamps(rows)
    ensures |r| == |rows|
  {
    seq(|rows|, p requires 0 <= p < |rows| => EnrichRow(rows[p], table))
  }

  /** The merge is a left join: every row is kept, in place, with its own
      fields and its state's auxiliary row, or none when the table lacks the
      state. */
  lemma EnrichLeftJoin(rows: seq<DailyRow>, table: map<string, Aux>, p: nat)
    requires AllTimestamps(rows) && p < |rows|
    ensures var e := Enrich(rows, table)[p];
      && e.state == rows[p].state && e.day == rows[p].day && e.counts == rows[p].counts
      && (e.aux.Some? <==> rows[p].state in table)
      && (e.aux.Some? ==> e.aux.value == table[rows[p].state])
      && e.testPosRate == PosRate(rows[p].counts) && e.testPer1M == Per1M(rows[p].counts, e.aux)
  {
  }

  /** The date strings sort as the days do, so ordering animation frames by
      their labels orders them by date. */
  lemma DateStringsSortByDay(rows: seq<DailyRow>, table: map<string, Aux>, p: nat, q: nat)
    requires AllTimestamps(rows) && p < |rows| && q < |rows|
    ensures LexLess(Enrich(rows, table)[p].dateString, Enrich(rows, table)[q].dateString) <==> rows[p].day < rows[q].day
    ensures Enrich(rows, table)[p].dateString == Enrich(rows, table)[q].dateString <==> rows[p].day == rows[q].day
  {
    DateStringOrder(rows[p].day, rows[q].day);
  }

  /** Python's builtin `max` over a column: the first item, replaced by each
      later item that compares greater. */
  function PyMax(xs: seq<Float>): (r: Float)
    requires |xs| > 0
    ensures r in xs
    decreases |xs|
  {
    if |xs| == 1 then xs[0]
    else
      var m := PyMax(xs[..|xs| - 1]);
      var x := xs[|xs| - 1];
      if Greater(x, m) then x else m
  }

  /** A NaN first item poisons the scan: nothing compares greater than it.
      Any other first item makes the result a non-NaN value no item exceeds. */
  lemma {:induction false} PyMaxFirst(xs: seq<Float>)
    requires |xs| > 0
    ensures PyMax(xs).NaN? <==> xs[0].NaN?
    ensures !xs[0].NaN? ==> forall j :: 0 <= j < |xs| ==> !Greater(xs[j], PyMax(xs))
    decreases |xs|
  {
    if |xs| > 1 {
      var front := xs[..|xs| - 1];
      PyMaxFirst(front);
      assert front[0] == xs[0];
      assert forall j :: 0 <= j < |front| ==> front[j] == xs[j];
    }
  }

  /** Over numbers only, PyMax is the largest number. */
  lemma PyMaxOfNumbers(xs: seq<Float>)
    requires |xs| > 0 && forall j :: 0 <= j < |xs| ==> xs[j].Num?
    ensures PyMax(xs).Num?
    ensures forall j :: 0 <= j < |xs| ==> xs[j].v <= PyMax(xs).v
  {
    PyMaxFirst(xs);
  }

  /** A +inf item after a non-NaN first item wins. */
  lemma PyMaxInfinity(xs: seq<Float>, j: nat)
    requires j < |xs| && xs[j].PosInf? && !xs[0].NaN?
    ensures PyMax(xs).PosInf?
  {
    PyMaxFirst(xs);
  }

  /** `math.ceil` of a real: the least integer at or above it. */
  function Ceil(x: real): (r: int)
    ensures r as real - 1.0 < x <= r as real
  {
    -((-x).Floor)
  }

  /** `math.ceil` of a float: ValueError on NaN, OverflowError on an infinity. */
  function PyCeil(a: Float): (r: Result<int, Failure>)
    ensures r.Ok? <==> a.Num?
    ensures r.Ok? ==> r.value as real - 1.0 < a.v <= r.value as real
    ensures a.NaN? ==> r == Err(CeilOfNaN)
    ensures (a.PosInf? || a.NegInf?) ==> r == Err(CeilOfInfinity)
  {
    match a
    case Num(x) => Ok(Ceil(x))
    case NaN => Err(CeilOfNaN)
    case _ => Err(CeilOfInfinity)
  }

  /** Line 118: `math.ceil(max(testPosRate)) + 1`; `max` of an empty
      column raises. */
  function PosRateBound(rates: seq<Float>): (r: Result<int, Failure>)
    ensures |rates| == 0 <==> r == Err(EmptyTable)
    ensures r.Ok? <==> |rates| > 0 && PyMax(rates).Num?
  {
    if |rates| == 0 then Err(EmptyTable)
    else
      match PyCeil(PyMax(rates))
      case Err(e) => Err(e)
      case Ok(c) => Ok(c + 1)
  }

  /** Line 119: `int(math.ceil((max(testPer1M) + 500) / 500.0)) * 500`. */
  function Per1MBound(per1m: seq<Float>): (r: Result<int, Failure>)
    ensures |per1m| == 0 <==> r == Err(EmptyTable)
    ensures r.Ok? <==> |per1m| > 0 && PyMax(per1m).Num?
  {
    if |per1m| == 0 then Err(EmptyTable)
    else
      match PyCeil(Scale(Shift(PyMax(per1m), 500.0), 1.0 / 500.0))
      case Err(e) => Err(e)
      case Ok(c) => Ok(c * 500)
  }

  /** The positivity axis ends 1 to 2 units above the column's maximum, so
      every rate lies at least one unit below it. */
  lemma PosRateBoundRange(rates: seq<Float>)
    requires PosRateBound(rates).Ok?
    ensures PyMax(rates).Num?
    ensures PosRateBound(rates).value as real - 2.0 < PyMax(rates).v <= PosRateBound(rates).value as real - 1.0
    ensures forall j :: 0 <= j < |rates| && rates[j].Num? ==> rates[j].v <= PosRateBound(rates).value as real - 1.0
  {
    PyMaxFirst(rates);
  }

  /** The tests axis ends on a multiple of 500 at least 500 and under 1000
      above the column's maximum. */
  lemma Per1MBoundRange(per1m: seq<Float>)
    requires Per1MBound(per1m).Ok?
    ensures PyMax(per1m).Num?
    ensures Per1MBound(per1m).value % 500 == 0
    ensures PyMax(per1m).v + 500.0 <= Per1MBound(per1m).value as real < PyMax(per1m).v + 1000.0
    ensures forall j :: 0 <= j < |per1m| && per1m[j].Num? ==> per1m[j].v + 500.0 <= Per1MBound(per1m).value as real
  {
    PyMaxFirst(per1m);
    var m := PyMax(per1m).v;
    var c := Ceil((m + 500.0) * (1.0 / 500.0));
    assert c as real - 1.0 < (m + 500.0) / 500.0 <= c as real;
  }

  /** Either bound fails exactly as the column's first item and its
      infinities decide: NaN first, an infinite maximum, or no rows. */
  lemma BoundFailures(xs: seq<Float>)
    requires |xs| > 0
    ensures PosRateBound(xs) == Err(CeilOfNaN) <==> xs[0].NaN?
    ensures Per1MBound(xs) == Err(CeilOfNaN) <==> xs[0].NaN?
    ensures (exists j :: 0 <= j < |xs| && xs[j].PosInf?) && !xs[0].NaN? ==>
      PosRateBound(xs) == Err(CeilOfInfinity) && Per1MBound(xs) == Err(CeilOfInfinity)
  {
    PyMaxFirst(xs);
    if (exists j :: 0 <= j < |xs| && xs[j].PosInf?) && !xs[0].NaN? {
      var j :| 0 <= j < |xs| && xs[j].PosInf?;
      PyMaxInfinity(xs, j);
    }
  }

  function PosRates(t: seq<Enriched>): (r: seq<Float>)
    ensures |r| == |t|
  {
    seq(|t|, p requires 0 <= p < |t| => t[p].testPosRate)
  }

  function Per1Ms(t: seq<Enriched>): (r: seq<Float>)
    ensures |r| == |t|
  {
    seq(|t|, p requires 0 <= p < |t| => t[p].testPer1M)
  }

  /** The worked figures: 50 positives in 1000 tests is a rate of 5.0; 1000
      tests for 2000000 people is 500.0 per million; a maximum of 1230 per
      million puts the axis end at 2000. */
  lemma MetricExamples()
    ensures PosRate(Some(Counts(1000, 50))) == Num(5.0)
    ensures Per1M(Some(Counts(1000, 50)), Some(Aux("XX", "Red", 2000000))) == Num(500.0)
    ensures Per1MBound([Num(1230.0)]) == Ok(2000)
  {
    assert Ceil((1230.0 + 500.0) * (1.0 / 500.0)) == 4;
  }
}
