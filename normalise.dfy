/** Normalisation of the feed (app.py lines 31-48): drop rows with a missing
    count, drop repeated (state, date) keys keeping the first, parse dates
    and counts, and drop days on or before 2020-04-09. */
module Normalise {
  import opened Wrappers
  import opened Calendar
  import opened DateText
  import opened Frames

  /** One record of `states_tested_data`, projected to the four columns the
      pipeline keeps. A count cell is None when the record has no such key
      (json_normalize leaves NaN) and Some("") when the feed left it empty. */
  datatype RawRow = RawRow(state: string, date: string, tested: Option<string>, confirmed: Option<string>)

  datatype Counts = Counts(tested: int, confirmed: int)

  /** A cleaned record: `day` is the day number of its date. */
  datatype Row = Row(state: string, day: int, counts: Counts)

  /** A converted record before the cutoff, whose date may be NaT. */
  datatype Parsed = Parsed(state: string, date: DateValue, counts: Counts)

  /** Why the one-shot pipeline stops: an uncaught pandas or Python exception. */
  datatype Failure =
    | DateParseError     // pd.to_datetime rejects a date cell
    | CountParseError    // astype(int) rejects a count cell
    | EmptyTable         // max()/min() of an empty date column
    | DuplicateDates     // reindex of a state that has two rows on one day
    | CeilOfNaN          // math.ceil of a NaN axis maximum (ValueError)
    | CeilOfInfinity     // math.ceil of an infinite axis maximum (OverflowError)

  /** The last day dropped by the cutoff filter. */
  const CutoffDate := Date(2020, 4, 9)
  const CutoffDay := Ordinal(CutoffDate)

  predicate Present(cell: Option<string>) {
    cell.Some? && cell.value != ""
  }

  /** Neither count cell is missing (NaN after `replace('', np.nan)`). */
  predicate Complete(r: RawRow) {
    Present(r.tested) && Present(r.confirmed)
  }

  /** The de-duplication key: state and the date TEXT, since line 41 runs
      before the dates are parsed at line 44. */
  function DedupKey(r: RawRow): (string, string) {
    (r.state, r.date)
  }

  function CompleteMask(rows: seq<RawRow>): (mask: seq<bool>)
    ensures |mask| == |rows|
  {
    seq(|rows|, i requires 0 <= i < |rows| => Complete(rows[i]))
  }

  /** `dropna(subset=['tested', 'confirmed'], how='any')`. */
  function DropMissing(rows: seq<RawRow>): (r: seq<RawRow>)
    ensures forall x :: x in r <==> x in rows && Complete(x)
  {
    var mask := CompleteMask(rows);
    var r := Where(rows, mask);
    assert forall x :: x in r ==> x in rows && Complete(x) by {
      WhereSelects(rows, mask);
    }
    assert forall x :: x in rows && Complete(x) ==> x in r by {
      forall x | x in rows && Complete(x) ensures x in r {
        var i :| 0 <= i < |rows| && rows[i] == x;
        var k := WhereKeeps(rows, mask, i);
      }
    }
    r
  }

  /** A complete row sits in the table without incomplete rows at position k. */
  lemma DropMissingKeeps(rows: seq<RawRow>, i: nat) returns (k: nat)
    requires i < |rows| && Complete(rows[i])
    ensures k < |DropMissing(rows)| && DropMissing(rows)[k] == rows[i]
    ensures TrueIndices(CompleteMask(rows))[k] == i
  {
    k := WhereKeeps(rows, CompleteMask(rows), i);
  }

  /** `drop_duplicates(subset=['state', 'date'], keep='first')`. */
  function Dedup(rows: seq<RawRow>): (r: seq<RawRow>)
  {
    DropDuplicates(rows, DedupKey)
  }

  /** x is the first row of its key in `rows`. */
  predicate IsFirstOfKey(rows: seq<RawRow>, x: RawRow) {
    exists i: nat :: i < |rows| && !Duplicated(rows, DedupKey, i) && x == rows[i]
  }

  /** Some row of `table` has the key of x. */
  predicate HasKey(table: seq<RawRow>, x: RawRow) {
    exists k: nat :: k < |table| && DedupKey(table[k]) == DedupKey(x)
  }

  /** After de-duplication no key appears twice. */
  lemma DedupUnique(rows: seq<RawRow>)
    ensures forall a, b :: 0 <= a < b < |Dedup(rows)| ==> DedupKey(Dedup(rows)[a]) != DedupKey(Dedup(rows)[b])
  {
    DropDuplicatesUnique(rows, DedupKey);
  }

  /** Every kept row is the first row of its key, and every key survives. */
  lemma DedupKeepsFirst(rows: seq<RawRow>)
    ensures forall k: nat :: k < |Dedup(rows)| ==> IsFirstOfKey(rows, Dedup(rows)[k])
    ensures forall i: nat :: i < |rows| ==> HasKey(Dedup(rows), rows[i])
  {
    forall k: nat | k < |Dedup(rows)| ensures IsFirstOfKey(rows, Dedup(rows)[k]) {
      var i := DropDuplicatesAt(rows, DedupKey, k);
    }
    forall i: nat | i < |rows| ensures HasKey(Dedup(rows), rows[i]) {
      var k := DropDuplicatesHasKey(rows, DedupKey, i);
    }
  }

  /** De-duplication keeps the surviving rows in their input order: the
      a-th and b-th kept rows are the input rows at the a-th and b-th first
      occurrences of a key. */
  lemma DedupOrder(rows: seq<RawRow>, a: nat, b: nat) returns (ia: nat, ib: nat)
    requires a < b < |Dedup(rows)|
    ensures ia < ib < |rows|
    ensures Dedup(rows)[a] == rows[ia] && Dedup(rows)[b] == rows[ib]
    ensures !Duplicated(rows, DedupKey, ia) && !Duplicated(rows, DedupKey, ib)
    ensures ia == TrueIndices(FirstOccurrenceMask(rows, DedupKey))[a]
    ensures ib == TrueIndices(FirstOccurrenceMask(rows, DedupKey))[b]
  {
    ia := DropDuplicatesAt(rows, DedupKey, a);
    ib := DropDuplicatesAt(rows, DedupKey, b);
    WhereOrder(rows, FirstOccurrenceMask(rows, DedupKey), a, b);
  }

  /** Dropping incomplete rows first means a row with a missing count never
      hides a later complete row of the same key: for every complete row, the
      cleaned table holds the first complete row with its key. */
  lemma MissingNeverShadows(rows: seq<RawRow>, i: nat) returns (j: nat)
    requires i < |rows| && Complete(rows[i])
    ensures j <= i && Complete(rows[j]) && DedupKey(rows[j]) == DedupKey(rows[i])
    ensures forall m :: 0 <= m < j && Complete(rows[m]) ==> DedupKey(rows[m]) != DedupKey(rows[i])
    ensures rows[j] in Dedup(DropMissing(rows))
  {
    var c := DropMissing(rows);
    var cidx := TrueIndices(CompleteMask(rows));
    var q := DropMissingKeeps(rows, i);
    var p := FirstOfKey(c, DedupKey, q);
    var k := DropDuplicatesKeeps(c, DedupKey, p);
    WhereAt(rows, CompleteMask(rows), p);
    j := cidx[p];
    assert c[p] == rows[j];
    forall m | 0 <= m < j && Complete(rows[m]) ensures DedupKey(rows[m]) != DedupKey(rows[i]) {
      var u := DropMissingKeeps(rows, m);
      assert u < p;
      if DedupKey(rows[m]) == DedupKey(rows[i]) {
        DuplicatedBy(c, DedupKey, u, p);
      }
    }
  }

  /** `astype(int)` of one count cell; a missing cell (NaN) also raises. */
  function CountCell(cell: Option<string>): (r: Option<int>)
  {
    if cell.Some? then ParseCount(cell.value) else None
  }

  /** `pd.to_datetime` does not raise on the record's date: a day or NaT. */
  predicate DateParses(r: RawRow) {
    ToDatetime(r.date).Some?
  }

  predicate CountsParse(r: RawRow) {
    CountCell(r.tested).Some? && CountCell(r.confirmed).Some?
  }

  /** Lines 44-46: the date column is converted first, then the two count
      columns; the first conversion that fails aborts the pipeline. */
  function ParseRows(rows: seq<RawRow>): (r: Result<seq<Parsed>, Failure>)
    ensures r.Ok? <==> forall i :: 0 <= i < |rows| ==> DateParses(rows[i]) && CountsParse(rows[i])
    ensures r == Err(DateParseError) <==> exists i :: 0 <= i < |rows| && !DateParses(rows[i])
    ensures r.Ok? ==> |r.value| == |rows|
    ensures r.Ok? ==> forall i :: 0 <= i < |rows| ==>
      && r.value[i].state == rows[i].state
      && Some(r.value[i].date) == ToDatetime(rows[i].date)
      && Some(r.value[i].counts.tested) == CountCell(rows[i].tested)
      && Some(r.value[i].counts.confirmed) == CountCell(rows[i].confirmed)
  {
    if exists i :: 0 <= i < |rows| && !DateParses(rows[i]) then Err(DateParseError)
    else if exists i :: 0 <= i < |rows| && !CountsParse(rows[i]) then Err(CountParseError)
    else Ok(ParsedTable(rows))
  }

  /** One converted row. */
  function ParsedRow(r: RawRow): (row: Parsed)
    requires DateParses(r) && CountsParse(r)
    ensures ParsedFrom(row, r)
  {
    Parsed(r.state, ToDatetime(r.date).value, Counts(CountCell(r.tested).value, CountCell(r.confirmed).value))
  }

  /** The converted table, once every cell converts. */
  function ParsedTable(rows: seq<RawRow>): (r: seq<Parsed>)
    requires forall i :: 0 <= i < |rows| ==> DateParses(rows[i]) && CountsParse(rows[i])
    ensures |r| == |rows|
    ensures forall i :: 0 <= i < |rows| ==> ParsedFrom(r[i], rows[i])
  {
    seq(|rows|, i requires 0 <= i < |rows| => ParsedRow(rows[i]))
  }

  /** A cleaned row as a converted record with a day. */
  function Dated(x: Row): (r: Parsed) {
    Parsed(x.state, Day(x.day), x.counts)
  }

  function Undated(p: Parsed): (r: Row)
    requires p.date.Day?
  {
    Row(p.state, p.date.n, p.counts)
  }

  /** Line 48: keep the days strictly after 2020-04-09; a NaT date compares
      false and is dropped. */
  function CutoffMask(rows: seq<Parsed>): (mask: seq<bool>)
    ensures |mask| == |rows|
  {
    seq(|rows|, i requires 0 <= i < |rows| => rows[i].date.Day? && rows[i].date.n > CutoffDay)
  }

  /** The rows the mask selects hold days after the cutoff. */
  lemma CutoffKept(rows: seq<Parsed>)
    ensures forall k :: 0 <= k < |Where(rows, CutoffMask(rows))| ==>
      && Where(rows, CutoffMask(rows))[k] == rows[TrueIndices(CutoffMask(rows))[k]]
      && Where(rows, CutoffMask(rows))[k].date.Day?
  {
    WhereSelects(rows, CutoffMask(rows));
  }

  function UndatedAll(kept: seq<Parsed>): (r: seq<Row>)
    requires forall k :: 0 <= k < |kept| ==> kept[k].date.Day?
    ensures |r| == |kept|
    ensures forall k :: 0 <= k < |r| ==> Dated(r[k]) == kept[k]
  {
    seq(|kept|, k requires 0 <= k < |kept| => Undated(kept[k]))
  }

  /** Rows standing for the mask's selected positions are exactly the dated
      rows after the cutoff. */
  lemma CutoffMembers(rows: seq<Parsed>, r: seq<Row>)
    requires |r| == |TrueIndices(CutoffMask(rows))|
    requires forall k :: 0 <= k < |r| ==> Dated(r[k]) == rows[TrueIndices(CutoffMask(rows))[k]]
    ensures forall x :: x in r <==> Dated(x) in rows && x.day > CutoffDay
  {
    var mask := CutoffMask(rows);
    var idx := TrueIndices(mask);
    forall x | x in r ensures Dated(x) in rows && x.day > CutoffDay {
      var k :| 0 <= k < |r| && r[k] == x;
      assert idx[k] < |mask| && mask[idx[k]];
    }
    forall x | Dated(x) in rows && x.day > CutoffDay ensures x in r {
      var i :| 0 <= i < |rows| && rows[i] == Dated(x);
      assert mask[i];
      var k :| 0 <= k < |idx| && idx[k] == i;
      assert Dated(r[k]) == Dated(x);
    }
  }

  function AfterCutoff(rows: seq<Parsed>): (r: seq<Row>)
    ensures |r| == |TrueIndices(CutoffMask(rows))|
    ensures forall k :: 0 <= k < |r| ==> Dated(r[k]) == rows[TrueIndices(CutoffMask(rows))[k]]
    ensures forall x :: x in r <==> Dated(x) in rows && x.day > CutoffDay
  {
    CutoffKept(rows);
    var r := UndatedAll(Where(rows, CutoffMask(rows)));
    CutoffMembers(rows, r);
    r
  }

  /** Lines 31-48 as one stage. */
  function Normalise(raw: seq<RawRow>): (r: Result<seq<Row>, Failure>)
    ensures r.Err? ==> r.error == DateParseError || r.error == CountParseError
    ensures r.Ok? ==> |r.value| <= |raw|
  {
    match ParseRows(Dedup(DropMissing(raw)))
    case Err(e) => Err(e)
    case Ok(rows) => Ok(AfterCutoff(rows))
  }

  /** `row` is the parse of raw row i. */
  predicate ParsedFrom(row: Parsed, r: RawRow) {
    && r.state == row.state
    && ToDatetime(r.date) == Some(row.date)
    && CountCell(r.tested) == Some(row.counts.tested)
    && CountCell(r.confirmed) == Some(row.counts.confirmed)
  }

  /** Normalisation stops on a date exactly when a complete record has a
      date pandas cannot read. De-duplication keys on the date text, so the
      record kept for a key has the same date as every record it replaces;
      NaT spellings never stop it. */
  lemma DateErrorIff(raw: seq<RawRow>)
    ensures Normalise(raw) == Err(DateParseError) <==>
      exists i :: 0 <= i < |raw| && Complete(raw[i]) && ToDatetime(raw[i].date).None?
  {
    var d := Dedup(DropMissing(raw));
    if exists m :: 0 <= m < |d| && !DateParses(d[m]) {
      var m :| 0 <= m < |d| && !DateParses(d[m]);
      var i := BadDateInRecord(raw, m);
    }
    if exists i :: 0 <= i < |raw| && Complete(raw[i]) && ToDatetime(raw[i].date).None? {
      var i :| 0 <= i < |raw| && Complete(raw[i]) && ToDatetime(raw[i].date).None?;
      var m := BadDateInTable(raw, i);
    }
  }

  /** A de-duplicated record is a complete raw record. */
  lemma BadDateInRecord(raw: seq<RawRow>, m: nat) returns (i: nat)
    requires m < |Dedup(DropMissing(raw))|
    ensures i < |raw| && Complete(raw[i]) && raw[i] == Dedup(DropMissing(raw))[m]
  {
    var c := DropMissing(raw);
    var q := DropDuplicatesAt(c, DedupKey, m);
    assert c[q] in c;
    i :| 0 <= i < |raw| && raw[i] == c[q];
  }

  /** A complete record's date text survives de-duplication. */
  lemma BadDateInTable(raw: seq<RawRow>, i: nat) returns (m: nat)
    requires i < |raw| && Complete(raw[i])
    ensures m < |Dedup(DropMissing(raw))| && Dedup(DropMissing(raw))[m].date == raw[i].date
  {
    var d := Dedup(DropMissing(raw));
    var j := MissingNeverShadows(raw, i);
    m :| 0 <= m < |d| && d[m] == raw[j];
  }

  /** Row k of the normalised table: the parsed row, the de-duplicated row
      and the complete raw row it comes from. */
  lemma NormalisedRow(raw: seq<RawRow>, k: nat) returns (p: nat, i: nat)
    requires Normalise(raw).Ok? && k < |Normalise(raw).value|
    ensures p < |Dedup(DropMissing(raw))| && i < |raw|
    ensures p == TrueIndices(CutoffMask(ParseRows(Dedup(DropMissing(raw))).value))[k]
    ensures Dedup(DropMissing(raw))[p] == raw[i] && Complete(raw[i])
    ensures ParsedFrom(Dated(Normalise(raw).value[k]), raw[i])
    ensures Dated(Normalise(raw).value[k]) == ParseRows(Dedup(DropMissing(raw))).value[p]
  {
    var c := DropMissing(raw);
    var d := Dedup(c);
    var parsed := ParseRows(d).value;
    p := TrueIndices(CutoffMask(parsed))[k];
    var q := DropDuplicatesAt(c, DedupKey, p);
    WhereAt(raw, CompleteMask(raw), q);
    i := TrueIndices(CompleteMask(raw))[q];
  }

  /** What leaves normalisation: each row is a parsed complete raw row,
      dated after the cutoff and inside the range of pandas' Timestamp. */
  lemma NormaliseOutput(raw: seq<RawRow>)
    requires Normalise(raw).Ok?
    ensures forall k: nat :: k < |Normalise(raw).value| ==>
      && CutoffDay < Normalise(raw).value[k].day
      && InTimestampRange(Normalise(raw).value[k].day)
      && exists i: nat :: i < |raw| && Complete(raw[i]) && ParsedFrom(Dated(Normalise(raw).value[k]), raw[i])
  {
    var out := Normalise(raw).value;
    forall k: nat | k < |out|
      ensures CutoffDay < out[k].day && InTimestampRange(out[k].day)
      ensures exists i: nat :: i < |raw| && Complete(raw[i]) && ParsedFrom(Dated(out[k]), raw[i])
    {
      var p, i := NormalisedRow(raw, k);
      assert out[k] in out;
    }
  }

  /** Row k of the normalised table is dated after the cutoff. */
  lemma NormalisedAfterCutoff(raw: seq<RawRow>, k: nat)
    requires Normalise(raw).Ok? && k < |Normalise(raw).value|
    ensures CutoffDay < Normalise(raw).value[k].day
  {
    NormaliseOutput(raw);
  }

  /** When the feed spells every date in its fixed `dd/mm/yyyy` shape, the
      cleaned table holds at most one row per state and day. */
  lemma CanonicalDatesUnique(raw: seq<RawRow>)
    requires forall i :: 0 <= i < |raw| ==> Canonical(raw[i].date)
    requires Normalise(raw).Ok?
    ensures forall a: nat, b: nat :: a < b < |Normalise(raw).value| ==>
      Normalise(raw).value[a].state != Normalise(raw).value[b].state
      || Normalise(raw).value[a].day != Normalise(raw).value[b].day
  {
    var out := Normalise(raw).value;
    forall a: nat, b: nat | a < b < |out|
      ensures out[a].state != out[b].state || out[a].day != out[b].day
    {
      CanonicalRowsDiffer(raw, a, b);
    }
  }

  lemma CanonicalRowsDiffer(raw: seq<RawRow>, a: nat, b: nat)
    requires forall i :: 0 <= i < |raw| ==> Canonical(raw[i].date)
    requires Normalise(raw).Ok? && a < b < |Normalise(raw).value|
    ensures Normalise(raw).value[a].state != Normalise(raw).value[b].state
      || Normalise(raw).value[a].day != Normalise(raw).value[b].day
  {
    var d := Dedup(DropMissing(raw));
    var out := Normalise(raw).value;
    var parsed := ParseRows(d).value;
    var pa, ia := NormalisedRow(raw, a);
    var pb, ib := NormalisedRow(raw, b);
    WhereOrder(parsed, CutoffMask(parsed), a, b);
    DedupUnique(DropMissing(raw));
    assert DedupKey(d[pa]) != DedupKey(d[pb]);
    CanonicalInjective(raw[ia].date, raw[ib].date);
  }

  /** Some complete record of `raw` has a real (not NaT) date that parses to day `d`. */
  predicate DatedRecordOn(raw: seq<RawRow>, d: int) {
    exists i :: 0 <= i < |raw| && Complete(raw[i]) && !NaTText(raw[i].date) && ParseDate(raw[i].date) == Some(d)
  }

  /** Records whose date is one of pandas' NaT spellings never stop the
      stage, and none of them reaches the cleaned table. */
  lemma NaTNeverStops(raw: seq<RawRow>)
    requires forall i :: 0 <= i < |raw| && Complete(raw[i]) ==>
      NaTText(raw[i].date) || ParseDate(raw[i].date).Some?
    ensures Normalise(raw) != Err(DateParseError)
    ensures Normalise(raw).Ok? ==>
      forall k :: 0 <= k < |Normalise(raw).value| ==> DatedRecordOn(raw, Normalise(raw).value[k].day)
  {
    DateErrorIff(raw);
    if Normalise(raw).Ok? {
      forall k | 0 <= k < |Normalise(raw).value|
        ensures DatedRecordOn(raw, Normalise(raw).value[k].day)
      {
        var p, i := NormalisedRow(raw, k);
        assert ToDatetime(raw[i].date) == Some(Day(Normalise(raw).value[k].day));
      }
    }
  }
}
