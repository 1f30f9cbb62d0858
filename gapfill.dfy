/** The gap filler (app.py lines 70-98): one global daily window from the
    earliest date to the latest date capped at today; every state reindexed
    onto it, forward filled, then backward filled for a leading gap; the
    state frames concatenated in order of first appearance. */
module GapFill {
  import opened Wrappers
  import opened Frames
  import opened Normalise
  import opened StateFilter
  import opened Calendar

  /** A row of the filled table; `counts` is None where pandas leaves NaN
      (a state with no row inside the window). */
  datatype DailyRow = DailyRow(state: string, day: int, counts: Option<Counts>)

  /** `min(testing_df.date)`. */
  function EarliestDay(rows: seq<Row>): (d: int)
    requires |rows| > 0
    ensures exists i: nat :: i < |rows| && rows[i].day == d
    ensures forall i :: 0 <= i < |rows| ==> d <= rows[i].day
  {
    if |rows| == 1 then rows[0].day
    else
      var rest := EarliestDay(rows[1..]);
      assert forall i :: 1 <= i < |rows| ==> rows[1..][i - 1] == rows[i];
      if rows[0].day <= rest then rows[0].day else rest
  }

  /** `max(testing_df.date)`. */
  function LatestDayOfAll(rows: seq<Row>): (d: int)
    requires |rows| > 0
    ensures exists i: nat :: i < |rows| && rows[i].day == d
    ensures forall i :: 0 <= i < |rows| ==> rows[i].day <= d
  {
    if |rows| == 1 then rows[0].day
    else
      var rest := LatestDayOfAll(rows[1..]);
      assert forall i :: 1 <= i < |rows| ==> rows[1..][i - 1] == rows[i];
      if rows[0].day >= rest then rows[0].day else rest
  }

  /** `pd.date_range(start, end)`: every day from start to end inclusive. */
  datatype Window = Window(start: int, end: int)

  function Length(w: Window): (n: nat) {
    if w.end >= w.start then w.end - w.start + 1 else 0
  }

  predicate InWindow(w: Window, t: int) {
    w.start <= t <= w.end
  }

  /** Lines 74-76; `today` is `np.datetime64('today')` as a day number. */
  function WindowOf(rows: seq<Row>, today: int): (w: Window)
    requires |rows| > 0
    ensures w.start == EarliestDay(rows)
    ensures w.start <= w.end <==> EarliestDay(rows) <= today
    ensures w.end <= today && w.end <= LatestDayOfAll(rows)
    ensures w.end == today || w.end == LatestDayOfAll(rows)
  {
    var latest := LatestDayOfAll(rows);
    Window(EarliestDay(rows), if latest <= today then latest else today)
  }

  /** State s has a row on day t. */
  predicate HasRowOn(rows: seq<Row>, s: string, t: int) {
    exists j: nat :: j < |rows| && rows[j].state == s && rows[j].day == t
  }

  /** The counts state s has on day t, if any. */
  function CountsOn(rows: seq<Row>, s: string, t: int): (r: Option<Counts>) {
    if HasRowOn(rows, s, t) then Some(rows[FirstRowOn(rows, s, t)].counts) else None
  }

  /** No state has two rows on one day, as `reindex` demands of its index. */
  predicate UniqueDays(rows: seq<Row>) {
    forall i, j :: 0 <= i < j < |rows| && rows[i].state == rows[j].state ==> rows[i].day != rows[j].day
  }

  predicate StateDaysUnique(rows: seq<Row>, s: string) {
    forall i, j :: 0 <= i < j < |rows| && rows[i].state == s && rows[j].state == s ==> rows[i].day != rows[j].day
  }

  /** Lines 83-84: the state's counts laid out on the window, NaN where it
      has no row. */
  function Reindexed(rows: seq<Row>, s: string, w: Window): (r: seq<Option<Counts>>)
    ensures |r| == Length(w)
  {
    seq(Length(w), k requires 0 <= k < Length(w) => CountsOn(rows, s, w.start + k))
  }

  /** Lines 83-94: one state's frame, reindexed, named, forward then backward
      filled. */
  function StateFrame(rows: seq<Row>, s: string, w: Window): (r: seq<DailyRow>)
    ensures |r| == Length(w)
    ensures forall k :: 0 <= k < |r| ==> r[k].state == s && InWindow(w, r[k].day) && r[k].day == w.start + k
  {
    Labelled(s, w.start, BFill(FFill(Reindexed(rows, s, w))))
  }

  /** Lines 88-94: the filled column with the state and the dates attached,
      day k of the column being day start + k. */
  function Labelled(s: string, start: int, filled: seq<Option<Counts>>): (r: seq<DailyRow>)
    ensures |r| == |filled|
    ensures forall k :: 0 <= k < |r| ==> r[k] == DailyRow(s, start + k, filled[k])
  {
    seq(|filled|, k requires 0 <= k < |filled| => DailyRow(s, start + k, filled[k]))
  }

  /** The list of state frames the loop of lines 79-96 builds, one per
      state in order. */
  function StateFrames(rows: seq<Row>, states: seq<string>, w: Window): (r: seq<seq<DailyRow>>)
    ensures |r| == |states|
    decreases |states|
  {
    if |states| == 0 then []
    else
      var last := |states| - 1;
      StateFrames(rows, states[..last], w) + [StateFrame(rows, states[last], w)]
  }

  lemma {:induction false} StateFramesAt(rows: seq<Row>, states: seq<string>, w: Window, j: nat)
    requires j < |states|
    ensures StateFrames(rows, states, w)[j] == StateFrame(rows, states[j], w)
    decreases |states|
  {
    var last := |states| - 1;
    if j < last {
      StateFramesAt(rows, states[..last], w, j);
    }
  }

  lemma StateFramesLength(rows: seq<Row>, states: seq<string>, w: Window)
    ensures forall j :: 0 <= j < |states| ==> |StateFrames(rows, states, w)[j]| == Length(w)
  {
    forall j | 0 <= j < |states| ensures |StateFrames(rows, states, w)[j]| == Length(w) {
      StateFramesAt(rows, states, w, j);
    }
  }

  /** Line 98: the state frames concatenated, one block of window days per
      state. */
  function Filled(rows: seq<Row>, w: Window): (r: seq<DailyRow>)
    ensures |r| == |States(rows)| * Length(w)
  {
    var fs := StateFrames(rows, States(rows), w);
    StateFramesLength(rows, States(rows), w);
    ConcatLength(fs, Length(w));
    Concat(fs)
  }

  /** Lines 70-98 as one stage: `max` and `min` of an empty date column
      raise, and `reindex` raises on a state with two rows on one day unless
      the window is empty (pandas checks for duplicates only when the target
      index has labels). */
  function FillGaps(rows: seq<Row>, today: int): (r: Result<seq<DailyRow>, Failure>)
    ensures r == Err(EmptyTable) <==> |rows| == 0
    ensures r.Err? ==> r.error == EmptyTable || r.error == DuplicateDates
  {
    if |rows| == 0 then Err(EmptyTable)
    else
      var w := WindowOf(rows, today);
      if Length(w) > 0 && !UniqueDays(rows) then Err(DuplicateDates)
      else Ok(Filled(rows, w))
  }

  lemma UniqueDaysByState(rows: seq<Row>)
    requires forall m :: 0 <= m < |States(rows)| ==> StateDaysUnique(rows, States(rows)[m])
    ensures UniqueDays(rows)
  {
    forall i, j | 0 <= i < j < |rows| && rows[i].state == rows[j].state
      ensures rows[i].day != rows[j].day
    {
      assert rows[i].state in States(rows);
    }
  }

  /** A one-longer prefix of states adds that state's frame. */
  lemma StateFramesSnoc(rows: seq<Row>, states: seq<string>, w: Window, i: nat)
    requires i < |states|
    ensures StateFrames(rows, states[..i + 1], w) == StateFrames(rows, states[..i], w) + [StateFrame(rows, states[i], w)]
  {
    assert states[..i + 1][..i] == states[..i];
  }

  /** The stage fails on duplicate dates exactly when the window is not
      empty and some state has two rows on one day. */
  lemma FillGapsDuplicates(rows: seq<Row>, today: int)
    ensures FillGaps(rows, today) == Err(DuplicateDates) <==>
      |rows| > 0 && Length(WindowOf(rows, today)) > 0 && !UniqueDays(rows)
  {
  }

  /** One state with two rows on a day makes the whole stage fail. */
  lemma DuplicateState(rows: seq<Row>, today: int, s: string)
    requires |rows| > 0 && Length(WindowOf(rows, today)) > 0 && !StateDaysUnique(rows, s)
    ensures FillGaps(rows, today) == Err(DuplicateDates)
  {
  }

  /** When no state has two rows on a day, the stage concatenates the frames
      of all states. */
  lemma UniqueStatesFill(rows: seq<Row>, today: int)
    requires |rows| > 0
    requires forall m :: 0 <= m < |States(rows)| ==> StateDaysUnique(rows, States(rows)[m])
    ensures FillGaps(rows, today) == Ok(Concat(StateFrames(rows, States(rows), WindowOf(rows, today))))
  {
    UniqueDaysByState(rows);
  }

  /** No state of the list has two rows on one day. */
  predicate StatesUnique(rows: seq<Row>, states: seq<string>) {
    forall m :: 0 <= m < |states| ==> StateDaysUnique(rows, states[m])
  }

  lemma StatesUniqueSnoc(rows: seq<Row>, states: seq<string>, i: nat)
    requires i < |states| && StatesUnique(rows, states[..i]) && StateDaysUnique(rows, states[i])
    ensures StatesUnique(rows, states[..i + 1])
  {
    assert forall m :: 0 <= m < i ==> states[..i + 1][m] == states[..i][m];
  }

  /** The loop of lines 79-96: one frame per state appended to a list,
      stopping at the first state with two rows on a day when the window is
      not empty (where `reindex` raises). */
  method FrameStates(rows: seq<Row>, states: seq<string>, w: Window) returns (r: Result<seq<seq<DailyRow>>, Failure>)
    ensures r.Ok? <==> Length(w) == 0 || StatesUnique(rows, states)
    ensures r.Ok? ==> r.value == StateFrames(rows, states, w)
    ensures r.Err? ==> r.error == DuplicateDates
  {
    var frames: seq<seq<DailyRow>> := [];
    var checked := Length(w) > 0;
    var i := 0;
    while i < |states|
      invariant 0 <= i <= |states|
      invariant checked ==> StatesUnique(rows, states[..i])
      invariant frames == StateFrames(rows, states[..i], w)
    {
      var state := states[i];
      if checked && !StateDaysUnique(rows, state) {
        assert !StatesUnique(rows, states);
        return Err(DuplicateDates);
      }
      if checked {
        StatesUniqueSnoc(rows, states, i);
      }
      var aligned := Reindexed(rows, state, w);
      var filled := BFill(FFill(aligned));
      var frame := Labelled(state, w.start, filled);
      assert frame == StateFrame(rows, state, w);
      StateFramesSnoc(rows, states, w, i);
      frames := frames + [frame];
      i := i + 1;
    }
    assert states[..i] == states;
    return Ok(frames);
  }

  /** Lines 70-98: the window, the loop over the states, and line 98's
      concatenation of the frames. */
  method FillGapsLoop(rows: seq<Row>, today: int) returns (r: Result<seq<DailyRow>, Failure>)
    ensures r == FillGaps(rows, today)
  {
    if |rows| == 0 {
      return Err(EmptyTable);
    }
    var w := WindowOf(rows, today);
    var frames := FrameStates(rows, States(rows), w);
    if frames.Err? {
      var m :| 0 <= m < |States(rows)| && !StateDaysUnique(rows, States(rows)[m]);
      DuplicateState(rows, today, States(rows)[m]);
      return Err(frames.error);
    }
    if Length(w) > 0 {
      UniqueStatesFill(rows, today);
    }
    r := Ok(Concat(frames.value));
  }

  /** With unique days, CountsOn finds the one row of s on day t. */
  lemma CountsOnRow(rows: seq<Row>, s: string, j: nat)
    requires UniqueDays(rows) && j < |rows| && rows[j].state == s
    ensures CountsOn(rows, s, rows[j].day) == Some(rows[j].counts)
  {
    var f := FirstRowOn(rows, s, rows[j].day);
    assert f == j;
  }

  /** No row of state s falls on a day in lo .. hi. */
  predicate NoRowIn(rows: seq<Row>, s: string, lo: int, hi: int) {
    forall j :: 0 <= j < |rows| && rows[j].state == s ==> !(lo <= rows[j].day <= hi)
  }

  lemma ReindexedGap(rows: seq<Row>, s: string, w: Window, lo: int, hi: int)
    requires NoRowIn(rows, s, lo, hi)
    ensures forall m :: 0 <= m < Length(w) && lo <= w.start + m <= hi ==> Reindexed(rows, s, w)[m].None?
  {
    forall m | 0 <= m < Length(w) && lo <= w.start + m <= hi ensures Reindexed(rows, s, w)[m].None? {
      assert !HasRowOn(rows, s, w.start + m);
      assert Reindexed(rows, s, w)[m] == CountsOn(rows, s, w.start + m);
    }
  }

  /** Every filled row is day k of the filled column of state i, at
      position i * n + k. */
  lemma FilledAt(rows: seq<Row>, w: Window, p: nat) returns (i: nat, k: nat)
    requires p < |Filled(rows, w)|
    ensures i < |States(rows)| && k < Length(w) && p == i * Length(w) + k
    ensures Filled(rows, w)[p] == DailyRow(States(rows)[i], w.start + k, BFill(FFill(Reindexed(rows, States(rows)[i], w)))[k])
  {
    var fs := StateFrames(rows, States(rows), w);
    StateFramesLength(rows, States(rows), w);
    i, k := ConcatSplit(fs, Length(w), p);
    var p' := ConcatAt(fs, Length(w), i, k);
    StateFramesAt(rows, States(rows), w, i);
  }

  /** Every surviving state has a row for every window day, at position p. */
  lemma FilledCovers(rows: seq<Row>, w: Window, i: nat, t: int) returns (p: nat)
    requires i < |States(rows)| && InWindow(w, t)
    ensures p < |Filled(rows, w)| && Filled(rows, w)[p].state == States(rows)[i] && Filled(rows, w)[p].day == t
  {
    var fs := StateFrames(rows, States(rows), w);
    var n, k := Length(w), t - w.start;
    assert Filled(rows, w) == Concat(fs);
    StateFramesLength(rows, States(rows), w);
    p := ConcatAt(fs, n, i, k);
    StateFramesAt(rows, States(rows), w, i);
  }

  lemma ReindexedAt(rows: seq<Row>, s: string, w: Window, m: nat)
    requires m < Length(w)
    ensures Reindexed(rows, s, w)[m] == CountsOn(rows, s, w.start + m)
  {
  }

  /** The filled column of state s on window day k, for the four cases of
      a fill. */
  lemma ColumnRecorded(rows: seq<Row>, s: string, w: Window, k: nat, j: nat)
    requires UniqueDays(rows) && k < Length(w)
    requires j < |rows| && rows[j].state == s && rows[j].day == w.start + k
    ensures BFill(FFill(Reindexed(rows, s, w)))[k] == Some(rows[j].counts)
  {
    var xs := Reindexed(rows, s, w);
    assert xs[k] == Some(rows[j].counts) by {
      CountsOnRow(rows, s, j);
      ReindexedAt(rows, s, w, k);
    }
    FillKeeps(xs, k);
  }

  lemma ColumnFromEarlier(rows: seq<Row>, s: string, w: Window, k: nat, j: nat)
    requires UniqueDays(rows) && k < Length(w)
    requires j < |rows| && rows[j].state == s && w.start <= rows[j].day < w.start + k
    requires NoRowIn(rows, s, rows[j].day + 1, w.start + k)
    ensures BFill(FFill(Reindexed(rows, s, w)))[k] == Some(rows[j].counts)
  {
    var xs := Reindexed(rows, s, w);
    var jj := rows[j].day - w.start;
    assert xs[jj] == Some(rows[j].counts) by {
      CountsOnRow(rows, s, j);
      ReindexedAt(rows, s, w, jj);
    }
    assert forall m :: jj < m <= k ==> xs[m].None? by {
      ReindexedGap(rows, s, w, rows[j].day + 1, w.start + k);
    }
    FillFromEarlier(xs, k, jj);
  }

  lemma ColumnFromLater(rows: seq<Row>, s: string, w: Window, k: nat, j: nat)
    requires UniqueDays(rows) && k < Length(w)
    requires j < |rows| && rows[j].state == s && w.start + k < rows[j].day <= w.end
    requires NoRowIn(rows, s, w.start, rows[j].day - 1)
    ensures BFill(FFill(Reindexed(rows, s, w)))[k] == Some(rows[j].counts)
  {
    var xs := Reindexed(rows, s, w);
    var jj := rows[j].day - w.start;
    assert xs[jj] == Some(rows[j].counts) by {
      CountsOnRow(rows, s, j);
      ReindexedAt(rows, s, w, jj);
    }
    assert forall m :: 0 <= m < jj ==> xs[m].None? by {
      ReindexedGap(rows, s, w, w.start, rows[j].day - 1);
    }
    FillFromLater(xs, k, jj);
  }

  lemma ColumnNothing(rows: seq<Row>, s: string, w: Window, k: nat)
    requires k < Length(w)
    requires NoRowIn(rows, s, w.start, w.end)
    ensures BFill(FFill(Reindexed(rows, s, w)))[k].None?
  {
    var xs := Reindexed(rows, s, w);
    assert forall m :: 0 <= m < |xs| ==> xs[m].None? by {
      ReindexedGap(rows, s, w, w.start, w.end);
    }
    FillNothing(xs, k);
  }

  /** A day on which the state has a row keeps that row's counts. */
  lemma FilledRecorded(rows: seq<Row>, w: Window, p: nat, j: nat)
    requires UniqueDays(rows) && p < |Filled(rows, w)|
    requires j < |rows| && rows[j].state == Filled(rows, w)[p].state && rows[j].day == Filled(rows, w)[p].day
    ensures Filled(rows, w)[p].counts == Some(rows[j].counts)
  {
    var i, k := FilledAt(rows, w, p);
    ColumnRecorded(rows, States(rows)[i], w, k, j);
  }

  /** A gap takes the counts of the state's nearest earlier row in the window. */
  lemma FilledFromEarlier(rows: seq<Row>, w: Window, p: nat, j: nat)
    requires UniqueDays(rows) && p < |Filled(rows, w)|
    requires j < |rows| && rows[j].state == Filled(rows, w)[p].state
    requires w.start <= rows[j].day < Filled(rows, w)[p].day
    requires NoRowIn(rows, rows[j].state, rows[j].day + 1, Filled(rows, w)[p].day)
    ensures Filled(rows, w)[p].counts == Some(rows[j].counts)
  {
    var i, k := FilledAt(rows, w, p);
    ColumnFromEarlier(rows, States(rows)[i], w, k, j);
  }

  /** A gap before the state's first row in the window takes the counts of
      that first row. */
  lemma FilledFromLater(rows: seq<Row>, w: Window, p: nat, j: nat)
    requires UniqueDays(rows) && p < |Filled(rows, w)|
    requires j < |rows| && rows[j].state == Filled(rows, w)[p].state
    requires Filled(rows, w)[p].day < rows[j].day <= w.end
    requires NoRowIn(rows, rows[j].state, w.start, rows[j].day - 1)
    ensures Filled(rows, w)[p].counts == Some(rows[j].counts)
  {
    var i, k := FilledAt(rows, w, p);
    ColumnFromLater(rows, States(rows)[i], w, k, j);
  }

  /** A state with no row in the window stays missing on every day. */
  lemma FilledNothing(rows: seq<Row>, w: Window, p: nat)
    requires p < |Filled(rows, w)|
    requires NoRowIn(rows, Filled(rows, w)[p].state, w.start, w.end)
    ensures Filled(rows, w)[p].counts.None?
  {
    var i, k := FilledAt(rows, w, p);
    ColumnNothing(rows, States(rows)[i], w, k);
  }

  /** Every filled row belongs to a surviving state and a window day. */
  lemma FilledRowsInWindow(rows: seq<Row>, w: Window)
    ensures forall p :: 0 <= p < |Filled(rows, w)| ==>
      Filled(rows, w)[p].state in States(rows) && InWindow(w, Filled(rows, w)[p].day)
  {
    forall p | 0 <= p < |Filled(rows, w)|
      ensures Filled(rows, w)[p].state in States(rows) && InWindow(w, Filled(rows, w)[p].day)
    {
      var i, k := FilledAt(rows, w, p);
    }
  }

  /** Two rows of one state are distinct days, in ascending order. */
  lemma FilledDaysAscend(rows: seq<Row>, w: Window, p: nat, q: nat)
    requires p < q < |Filled(rows, w)| && Filled(rows, w)[p].state == Filled(rows, w)[q].state
    ensures Filled(rows, w)[p].day < Filled(rows, w)[q].day
  {
    var ip, kp := FilledAt(rows, w, p);
    var iq, kq := FilledAt(rows, w, q);
    assert ip == iq;
  }

  /** The window starts at the earliest recorded day and holds every
      recorded day up to today. */
  lemma WindowHoldsRows(rows: seq<Row>, today: int, j: nat)
    requires j < |rows|
    ensures WindowOf(rows, today).start <= rows[j].day
    ensures rows[j].day <= today ==> InWindow(WindowOf(rows, today), rows[j].day)
  {
  }

  /** When every recorded day is a pandas Timestamp, so is every day of the
      window. */
  lemma WindowInTimestampRange(rows: seq<Row>, today: int, t: int)
    requires |rows| > 0
    requires forall j :: 0 <= j < |rows| ==> InTimestampRange(rows[j].day)
    requires InWindow(WindowOf(rows, today), t)
    ensures InTimestampRange(t)
  {
    var i: nat :| i < |rows| && rows[i].day == EarliestDay(rows);
    var e: nat :| e < |rows| && rows[e].day == LatestDayOfAll(rows);
    assert InTimestampRange(rows[i].day) && InTimestampRange(rows[e].day);
  }
}
