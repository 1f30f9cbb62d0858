/** The state filter (app.py lines 54-63): a state stays when the confirmed
    count on its latest date is at least 500; every row of every other state
    is removed. */
module StateFilter {
  import opened Wrappers
  import opened Frames
  import opened Normalise

  const Threshold := 500

  function StateColumn(rows: seq<Row>): (col: seq<string>)
    ensures |col| == |rows|
  {
    seq(|rows|, i requires 0 <= i < |rows| => rows[i].state)
  }

  function Identity(s: string): (r: string) {
    s
  }

  predicate HasState(rows: seq<Row>, s: string) {
    exists i: nat :: i < |rows| && rows[i].state == s
  }

  /** `testing_df.state.unique()`: each state once, in order of first appearance. */
  function States(rows: seq<Row>): (r: seq<string>)
    ensures forall a, b :: 0 <= a < b < |r| ==> r[a] != r[b]
    ensures forall k :: 0 <= k < |r| ==> HasState(rows, r[k])
    ensures forall i :: 0 <= i < |rows| ==> rows[i].state in r
  {
    var col := StateColumn(rows);
    var r := DropDuplicates(col, Identity);
    DropDuplicatesUnique(col, Identity);
    assert forall k :: 0 <= k < |r| ==> HasState(rows, r[k]) by {
      forall k | 0 <= k < |r| ensures HasState(rows, r[k]) {
        var i := DropDuplicatesAt(col, Identity, k);
        assert rows[i].state == r[k];
      }
    }
    assert forall i :: 0 <= i < |rows| ==> rows[i].state in r by {
      forall i | 0 <= i < |rows| ensures rows[i].state in r {
        var k := DropDuplicatesHasKey(col, Identity, i);
      }
    }
    r
  }

  /** States are listed in order of their first rows. */
  lemma StatesOrder(rows: seq<Row>, a: nat, b: nat) returns (ia: nat, ib: nat)
    requires a < b < |States(rows)|
    ensures ia < ib < |rows|
    ensures rows[ia].state == States(rows)[a] && rows[ib].state == States(rows)[b]
    ensures forall j :: 0 <= j < ia ==> rows[j].state != States(rows)[a]
    ensures forall j :: 0 <= j < ib ==> rows[j].state != States(rows)[b]
  {
    var col := StateColumn(rows);
    ia := DropDuplicatesAt(col, Identity, a);
    ib := DropDuplicatesAt(col, Identity, b);
    WhereOrder(col, FirstOccurrenceMask(col, Identity), a, b);
    forall j | 0 <= j < ia ensures rows[j].state != States(rows)[a] {
      if rows[j].state == States(rows)[a] {
        DuplicatedBy(col, Identity, j, ia);
      }
    }
    forall j | 0 <= j < ib ensures rows[j].state != States(rows)[b] {
      if rows[j].state == States(rows)[b] {
        DuplicatedBy(col, Identity, j, ib);
      }
    }
  }

  /** `max(state_df.date)`: the latest day among the rows of state s. */
  function LatestDay(rows: seq<Row>, s: string): (d: int)
    requires HasState(rows, s)
    ensures exists i: nat :: i < |rows| && rows[i].state == s && rows[i].day == d
    ensures forall i :: 0 <= i < |rows| && rows[i].state == s ==> rows[i].day <= d
    decreases |rows|
  {
    var last := |rows| - 1;
    var front := rows[..last];
    assert forall i :: 0 <= i < last ==> front[i] == rows[i];
    if rows[last].state != s then
      var i: nat :| i < |rows| && rows[i].state == s;
      assert front[i].state == s;
      LatestDay(front, s)
    else if !HasState(front, s) then rows[last].day
    else
      var d := LatestDay(front, s);
      if rows[last].day > d then rows[last].day else d
  }

  /** The position of the first row of state s on day d. */
  function FirstRowOn(rows: seq<Row>, s: string, d: int): (i: nat)
    requires exists j: nat :: j < |rows| && rows[j].state == s && rows[j].day == d
    ensures i < |rows| && rows[i].state == s && rows[i].day == d
    ensures forall j :: 0 <= j < i ==> rows[j].state != s || rows[j].day != d
    decreases |rows|
  {
    if rows[0].state == s && rows[0].day == d then 0
    else
      var j: nat :| j < |rows| && rows[j].state == s && rows[j].day == d;
      assert rows[1..][j - 1] == rows[j];
      1 + FirstRowOn(rows[1..], s, d)
  }

  /** `state_df.loc[state_df['date'] == latest_date, 'confirmed'].values[0]`:
      the confirmed count of the first row on the state's latest day. */
  function LatestConfirmed(rows: seq<Row>, s: string): (r: int)
    requires HasState(rows, s)
  {
    rows[FirstRowOn(rows, s, LatestDay(rows, s))].counts.confirmed
  }

  /** The test of line 60. */
  predicate Keeps(rows: seq<Row>, s: string) {
    HasState(rows, s) && LatestConfirmed(rows, s) >= Threshold
  }

  /** What LatestConfirmed reads: a row of s on a day no row of s passes, the
      first such row. */
  lemma LatestConfirmedIs(rows: seq<Row>, s: string) returns (i: nat)
    requires HasState(rows, s)
    ensures i < |rows| && rows[i].state == s && rows[i].counts.confirmed == LatestConfirmed(rows, s)
    ensures forall j :: 0 <= j < |rows| && rows[j].state == s ==> rows[j].day <= rows[i].day
    ensures forall j :: 0 <= j < i && rows[j].state == s ==> rows[j].day < rows[i].day
  {
    i := FirstRowOn(rows, s, LatestDay(rows, s));
  }

  function KeepMask(rows: seq<Row>, states: seq<string>): (mask: seq<bool>)
    ensures |mask| == |states|
  {
    seq(|states|, k requires 0 <= k < |states| => Keeps(rows, states[k]))
  }

  /** `filtered_states` as the loop leaves it. */
  function KeptStates(rows: seq<Row>): (r: seq<string>) {
    Where(States(rows), KeepMask(rows, States(rows)))
  }

  /** One more state of the loop: the passing states of a one-longer prefix. */
  lemma PassingStep(rows: seq<Row>, states: seq<string>, i: nat)
    requires i < |states| && HasState(rows, states[i])
    ensures Where(states[..i + 1], KeepMask(rows, states)[..i + 1])
         == Where(states[..i], KeepMask(rows, states)[..i]) + (if LatestConfirmed(rows, states[i]) >= Threshold then [states[i]] else [])
  {
    WherePrefix(states, KeepMask(rows, states), i);
  }

  /** The loop of lines 57-61 over a list of states, appending each passing
      state. */
  method PassingStates(rows: seq<Row>, states: seq<string>) returns (filtered: seq<string>)
    requires forall k :: 0 <= k < |states| ==> HasState(rows, states[k])
    ensures filtered == Where(states, KeepMask(rows, states))
  {
    ghost var mask := KeepMask(rows, states);
    filtered := [];
    var i := 0;
    while i < |states|
      invariant 0 <= i <= |states|
      invariant filtered == Where(states[..i], mask[..i])
    {
      var state := states[i];
      var latest := LatestDay(rows, state);
      var first := FirstRowOn(rows, state, latest);
      PassingStep(rows, states, i);
      if rows[first].counts.confirmed >= Threshold {
        filtered := filtered + [state];
      }
      i := i + 1;
    }
    assert states[..i] == states && mask[..i] == mask;
  }

  /** Lines 56-61: the loop run over the states of the table. */
  method SelectStates(rows: seq<Row>) returns (filtered: seq<string>)
    ensures filtered == KeptStates(rows)
  {
    filtered := PassingStates(rows, States(rows));
  }

  /** `testing_df.state.isin(filtered)`. */
  function StateMask(rows: seq<Row>, filtered: seq<string>): (mask: seq<bool>)
    ensures |mask| == |rows|
    ensures forall i :: 0 <= i < |rows| ==> (mask[i] <==> rows[i].state in filtered)
  {
    seq(|rows|, i requires 0 <= i < |rows| => rows[i].state in filtered)
  }

  /** `testing_df[testing_df.state.isin(filtered)]`. */
  function RowsOfStates(rows: seq<Row>, filtered: seq<string>): (r: seq<Row>)
    ensures forall x :: x in r <==> x in rows && x.state in filtered
  {
    var mask := StateMask(rows, filtered);
    var r := Where(rows, mask);
    assert forall x :: x in r ==> x in rows && x.state in filtered by {
      WhereSelects(rows, mask);
    }
    assert forall x :: x in rows && x.state in filtered ==> x in r by {
      forall x | x in rows && x.state in filtered ensures x in r {
        var i :| 0 <= i < |rows| && rows[i] == x;
        var k := WhereKeeps(rows, mask, i);
      }
    }
    r
  }

  /** Lines 54-63 as one stage: it keeps rows only, in their order. */
  function FilterStates(rows: seq<Row>): (r: seq<Row>)
    ensures |r| <= |rows|
    ensures forall x :: x in r ==> x in rows
  {
    RowsOfStates(rows, KeptStates(rows))
  }

  /** A state passes exactly when its latest confirmed count reaches the threshold. */
  lemma KeptStatesIff(rows: seq<Row>, s: string)
    ensures s in KeptStates(rows) <==> Keeps(rows, s)
  {
    var states := States(rows);
    var mask := KeepMask(rows, states);
    WhereSelects(states, mask);
    if Keeps(rows, s) {
      var i: nat :| i < |rows| && rows[i].state == s;
      var k :| 0 <= k < |states| && states[k] == s;
      var p := WhereKeeps(states, mask, k);
    }
  }

  /** The filter keeps a row exactly when its state passes, so it keeps all
      rows of a passing state and none of any other. */
  lemma FilterStatesIff(rows: seq<Row>)
    ensures forall x :: x in FilterStates(rows) <==> x in rows && Keeps(rows, x.state)
  {
    forall x ensures x in FilterStates(rows) <==> x in rows && Keeps(rows, x.state) {
      KeptStatesIff(rows, x.state);
    }
  }

  /** The kept rows are input rows, unchanged and in input order: the a-th
      and b-th kept rows are the input rows at the a-th and b-th passing
      positions of the mask. */
  lemma FilterStatesOrder(rows: seq<Row>, a: nat, b: nat) returns (ia: nat, ib: nat)
    requires a < b < |FilterStates(rows)|
    ensures ia < ib < |rows|
    ensures FilterStates(rows)[a] == rows[ia] && FilterStates(rows)[b] == rows[ib]
    ensures ia == TrueIndices(StateMask(rows, KeptStates(rows)))[a]
    ensures ib == TrueIndices(StateMask(rows, KeptStates(rows)))[b]
  {
    var mask := StateMask(rows, KeptStates(rows));
    WhereAt(rows, mask, a);
    WhereAt(rows, mask, b);
    WhereOrder(rows, mask, a, b);
    ia := TrueIndices(mask)[a];
    ib := TrueIndices(mask)[b];
  }

  /** Rows of the threshold example: state A's latest count is 499 (after an
      earlier 700), state B's is 500. */
  function ExampleRows(): (r: seq<Row>) {
    [Row("A", 10, Counts(900, 700)), Row("A", 11, Counts(950, 499)), Row("B", 11, Counts(990, 500))]
  }

  lemma ExampleLatest()
    ensures !Keeps(ExampleRows(), "A") && Keeps(ExampleRows(), "B")
  {
    var rows := ExampleRows();
    assert rows[0].state == "A" && rows[2].state == "B";
    assert rows[..2] == [rows[0], rows[1]] && rows[..2][..1] == [rows[0]];
    assert LatestDay(rows[..2][..1], "A") == 10;
    assert LatestDay(rows[..2], "A") == 11;
    assert LatestDay(rows, "A") == 11;
    assert FirstRowOn(rows[1..], "A", 11) == 0;
    assert FirstRowOn(rows, "A", 11) == 1;
    assert !HasState(rows[..2], "B");
    assert LatestDay(rows, "B") == 11;
    assert rows[1..][1..] == [rows[2]];
    assert FirstRowOn(rows[1..][1..], "B", 11) == 0;
    assert FirstRowOn(rows, "B", 11) == 2;
  }

  lemma ExampleSelection(kept: seq<string>)
    requires "A" !in kept && "B" in kept
    ensures RowsOfStates(ExampleRows(), kept) == [ExampleRows()[2]]
  {
    var rows := ExampleRows();
    var mask := seq(|rows|, i requires 0 <= i < |rows| => rows[i].state in kept);
    assert mask == [false, false, true];
    assert mask[..2] == [false, false] && mask[..2][..1] == [false];
    assert TrueIndices(mask[..2][..1]) == [];
    assert TrueIndices(mask[..2]) == [];
    assert TrueIndices(mask) == [2];
  }

  /** A state whose latest count is 499 goes, one at 500 stays, even when the
      first state once had more. */
  lemma ThresholdExample()
    ensures FilterStates(ExampleRows()) == [ExampleRows()[2]]
  {
    ExampleLatest();
    KeptStatesIff(ExampleRows(), "A");
    KeptStatesIff(ExampleRows(), "B");
    ExampleSelection(KeptStates(ExampleRows()));
  }
}
