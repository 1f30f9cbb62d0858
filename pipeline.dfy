/** The whole cleaning pipeline of app.py (lines 31-119), from the fetched
    records to the enriched table and its two axis bounds. */
module Pipeline {
  import opened Wrappers
  import opened Calendar
  import opened DateText
  import opened Frames
  import opened Normalise
  import opened StateFilter
  import opened GapFill
  import opened Metrics

  /** What the chart is drawn from: the enriched table and the axis ends. */
  datatype Output = Output(table: seq<Enriched>, maxPosRate: int, maxPer1M: int)

  /** The state filter keeps only rows of its input. */
  lemma FilterKeepsRows(rows: seq<Row>, j: nat) returns (i: nat)
    requires j < |FilterStates(rows)|
    ensures i < |rows| && rows[i] == FilterStates(rows)[j]
  {
    var kept := FilterStates(rows);
    assert kept[j] in kept;
    i :| 0 <= i < |rows| && rows[i] == kept[j];
  }

  /** Rows of Timestamp days stay rows of Timestamp days through the state
      filter. */
  lemma FilterKeepsTimestamps(rows: seq<Row>)
    requires forall i :: 0 <= i < |rows| ==> InTimestampRange(rows[i].day)
    ensures forall j :: 0 <= j < |FilterStates(rows)| ==> InTimestampRange(FilterStates(rows)[j].day)
  {
    forall j | 0 <= j < |FilterStates(rows)| ensures InTimestampRange(FilterStates(rows)[j].day) {
      var i := FilterKeepsRows(rows, j);
    }
  }

  /** Filling a table of Timestamp days yields Timestamp days. */
  lemma FillKeepsTimestamps(kept: seq<Row>, today: int)
    requires forall j :: 0 <= j < |kept| ==> InTimestampRange(kept[j].day)
    requires FillGaps(kept, today).Ok?
    ensures AllTimestamps(FillGaps(kept, today).value)
  {
    var w := WindowOf(kept, today);
    var out := Filled(kept, w);
    FilledRowsInWindow(kept, w);
    forall p | 0 <= p < |out| ensures InTimestampRange(out[p].day) {
      WindowInTimestampRange(kept, today, out[p].day);
    }
  }

  /** Every day of the filled table is a pandas Timestamp, as the date
      string column needs. */
  lemma FilledDaysAreTimestamps(raw: seq<RawRow>, today: int)
    requires Normalise.Normalise(raw).Ok?
    requires FillGaps(FilterStates(Normalise.Normalise(raw).value), today).Ok?
    ensures AllTimestamps(FillGaps(FilterStates(Normalise.Normalise(raw).value), today).value)
  {
    var rows := Normalise.Normalise(raw).value;
    assert forall i :: 0 <= i < |rows| ==> InTimestampRange(rows[i].day) by {
      NormaliseOutput(raw);
    }
    FilterKeepsTimestamps(rows);
    FillKeepsTimestamps(FilterStates(rows), today);
  }

  /** Lines 107-119 on the filled table: the join, the derived columns and
      the two axis bounds, the positivity bound computed first. */
  function Finish(filled: seq<DailyRow>, aux: map<string, Aux>): (r: Result<Output, Failure>)
    requires AllTimestamps(filled)
    ensures r.Err? ==> r.error in {EmptyTable, CeilOfNaN, CeilOfInfinity}
    ensures |filled| == 0 ==> r == Err(EmptyTable)
    ensures r.Ok? ==> r.value.table == Enrich(filled, aux)
  {
    var table := Enrich(filled, aux);
    match PosRateBound(PosRates(table))
    case Err(e) => Err(e)
    case Ok(maxPosRate) =>
      match Per1MBound(Per1Ms(table))
      case Err(e) => Err(e)
      case Ok(maxPer1M) => Ok(Output(table, maxPosRate, maxPer1M))
  }

  /** Lines 31-119 in order; the first exception raised ends the run, and a
      run that does not fail charts at least one row. The records always
      carry the four fields, so the `KeyError` of line 35 has no counterpart:
      an empty feed reaches the `max` of line 74 and fails there. */
  function Run(raw: seq<RawRow>, aux: map<string, Aux>, today: int): (r: Result<Output, Failure>)
    ensures |raw| == 0 ==> r == Err(EmptyTable)
    ensures r.Ok? ==> |r.value.table| > 0
  {
    match Normalise.Normalise(raw)
    case Err(e) => Err(e)
    case Ok(rows) =>
      match FillGaps(FilterStates(rows), today)
      case Err(e) => Err(e)
      case Ok(filled) =>
        FilledDaysAreTimestamps(raw, today);
        Finish(filled, aux)
  }

  /** Every filled row belongs to a state that passed the filter and lies no
      earlier than some cleaned row. */
  lemma FilledRowsPass(rows: seq<Row>, today: int, p: nat) returns (i: nat)
    requires FillGaps(FilterStates(rows), today).Ok? && p < |FillGaps(FilterStates(rows), today).value|
    ensures Keeps(rows, FillGaps(FilterStates(rows), today).value[p].state)
    ensures i < |rows| && rows[i].day <= FillGaps(FilterStates(rows), today).value[p].day
  {
    var kept := FilterStates(rows);
    var filled := FillGaps(kept, today).value;
    var w := WindowOf(kept, today);
    FilledRowsInWindow(kept, w);
    var s := filled[p].state;
    assert s in States(kept);
    var k :| 0 <= k < |States(kept)| && States(kept)[k] == s;
    var j: nat :| j < |kept| && kept[j].state == s;
    KeptRowKeeps(rows, j);
    var e: nat :| e < |kept| && kept[e].day == EarliestDay(kept);
    assert kept[e] in kept;
    i :| 0 <= i < |rows| && rows[i] == kept[e];
  }

  /** A row the state filter keeps belongs to a passing state. */
  lemma KeptRowKeeps(rows: seq<Row>, j: nat)
    requires j < |FilterStates(rows)|
    ensures Keeps(rows, FilterStates(rows)[j].state)
  {
    FilterStatesIff(rows);
    assert FilterStates(rows)[j] in FilterStates(rows);
  }

  /** A successful run went through every stage. */
  lemma RunStages(raw: seq<RawRow>, aux: map<string, Aux>, today: int) returns (rows: seq<Row>, filled: seq<DailyRow>)
    requires Run(raw, aux, today).Ok?
    ensures Normalise.Normalise(raw) == Ok(rows)
    ensures FillGaps(FilterStates(rows), today) == Ok(filled)
    ensures AllTimestamps(filled) && Run(raw, aux, today) == Finish(filled, aux)
  {
    rows := Normalise.Normalise(raw).value;
    filled := FillGaps(FilterStates(rows), today).value;
    FilledDaysAreTimestamps(raw, today);
  }

  /** Every row on the chart belongs to a state whose latest confirmed count
      reached the threshold, and lies after the cutoff day. */
  lemma RunRowsPassFilters(raw: seq<RawRow>, aux: map<string, Aux>, today: int, p: nat)
    requires Run(raw, aux, today).Ok? && p < |Run(raw, aux, today).value.table|
    ensures Keeps(Normalise.Normalise(raw).value, Run(raw, aux, today).value.table[p].state)
    ensures CutoffDay < Run(raw, aux, today).value.table[p].day
  {
    var rows, filled := RunStages(raw, aux, today);
    EnrichLeftJoin(filled, aux, p);
    var i := FilledRowsPass(rows, today, p);
    NormalisedAfterCutoff(raw, i);
  }

  /** The axes hold every point of the finished table. */
  lemma FinishAxesHoldPoints(filled: seq<DailyRow>, aux: map<string, Aux>, p: nat)
    requires AllTimestamps(filled) && Finish(filled, aux).Ok? && p < |Finish(filled, aux).value.table|
    ensures var o := Finish(filled, aux).value;
      && o.maxPer1M % 500 == 0
      && (o.table[p].testPosRate.Num? ==> o.table[p].testPosRate.v <= o.maxPosRate as real - 1.0)
      && (o.table[p].testPer1M.Num? ==> o.table[p].testPer1M.v + 500.0 <= o.maxPer1M as real)
  {
    var o := Finish(filled, aux).value;
    PosRateBoundRange(PosRates(o.table));
    Per1MBoundRange(Per1Ms(o.table));
    assert PosRates(o.table)[p] == o.table[p].testPosRate;
    assert Per1Ms(o.table)[p] == o.table[p].testPer1M;
  }

  /** The axes hold every point: each finite rate lies at least one unit
      below the positivity axis end, each finite tests-per-million value at
      least 500 below the other axis end, which is a multiple of 500. */
  lemma RunAxesHoldPoints(raw: seq<RawRow>, aux: map<string, Aux>, today: int, p: nat)
    requires Run(raw, aux, today).Ok? && p < |Run(raw, aux, today).value.table|
    ensures var o := Run(raw, aux, today).value;
      && o.maxPer1M % 500 == 0
      && (o.table[p].testPosRate.Num? ==> o.table[p].testPosRate.v <= o.maxPosRate as real - 1.0)
      && (o.table[p].testPer1M.Num? ==> o.table[p].testPer1M.v + 500.0 <= o.maxPer1M as real)
  {
    var rows, filled := RunStages(raw, aux, today);
    FinishAxesHoldPoints(filled, aux, p);
  }

  /** Mask selection keeps rows in order, so it keeps days unique. */
  lemma WhereKeepsUniqueDays(rows: seq<Row>, mask: seq<bool>)
    requires |mask| == |rows| && UniqueDays(rows)
    ensures UniqueDays(Where(rows, mask))
  {
    var r := Where(rows, mask);
    forall a, b | 0 <= a < b < |r| && r[a].state == r[b].state ensures r[a].day != r[b].day {
      WhereAt(rows, mask, a);
      WhereAt(rows, mask, b);
      WhereOrder(rows, mask, a, b);
    }
  }

  /** With canonical dates, the rows reaching the gap filler have one row
      per state and day. */
  lemma CanonicalKeptUnique(raw: seq<RawRow>)
    requires forall i :: 0 <= i < |raw| ==> Canonical(raw[i].date)
    requires Normalise.Normalise(raw).Ok?
    ensures UniqueDays(FilterStates(Normalise.Normalise(raw).value))
  {
    var rows := Normalise.Normalise(raw).value;
    CanonicalDatesUnique(raw);
    assert UniqueDays(rows);
    WhereKeepsUniqueDays(rows, StateMask(rows, KeptStates(rows)));
  }

  /** Past the gap filler, a run is the finishing stage on the filled table. */
  lemma RunAfterFill(raw: seq<RawRow>, aux: map<string, Aux>, today: int)
    requires Normalise.Normalise(raw).Ok?
    requires FillGaps(FilterStates(Normalise.Normalise(raw).value), today).Ok?
    ensures var filled := FillGaps(FilterStates(Normalise.Normalise(raw).value), today).value;
      AllTimestamps(filled) && Run(raw, aux, today) == Finish(filled, aux)
  {
    FilledDaysAreTimestamps(raw, today);
  }

  /** A run stops on duplicate dates exactly when the gap filler does. */
  lemma RunDuplicateDates(raw: seq<RawRow>, aux: map<string, Aux>, today: int)
    ensures Run(raw, aux, today) == Err(DuplicateDates) <==>
      Normalise.Normalise(raw).Ok? && FillGaps(FilterStates(Normalise.Normalise(raw).value), today) == Err(DuplicateDates)
  {
    var n := Normalise.Normalise(raw);
    if n.Err? {
      assert Run(raw, aux, today) == Err(n.error);
    } else {
      var f := FillGaps(FilterStates(n.value), today);
      if f.Err? {
        assert Run(raw, aux, today) == Err(f.error);
      } else {
        RunAfterFill(raw, aux, today);
        assert Run(raw, aux, today) == Finish(f.value, aux);
      }
    }
  }

  /** When the feed spells every date as `dd/mm/yyyy`, the run never stops on
      a state with two rows for one day. */
  lemma CanonicalRunHasNoDuplicateDates(raw: seq<RawRow>, aux: map<string, Aux>, today: int)
    requires forall i :: 0 <= i < |raw| ==> Canonical(raw[i].date)
    ensures Run(raw, aux, today) != Err(DuplicateDates)
  {
    RunDuplicateDates(raw, aux, today);
    if Normalise.Normalise(raw).Ok? {
      var kept := FilterStates(Normalise.Normalise(raw).value);
      CanonicalKeptUnique(raw);
      FillGapsDuplicates(kept, today);
    }
  }
}
