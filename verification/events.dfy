/**
  Event derivation of the WireWall monitor: the columns it adds to a fetched table
  (event height, event time) and the check that every event lies within its
  10-minute window. Times are integer ticks of 1/400 s, the sampling period, so
  a sample-count difference is directly a time offset.
 */
module Events {
  import opened Wrappers
  import opened Frames

  const WindowTime: Column := "time (UTC)"
  const EventTime: Column := "event time (UTC)"
  const WireId: Column := "wireID (Dmnless)"
  const EventHeight: Column := "event height (cm)"
  const Elevation: Column := "elPTILE_6 (cm)"
  const Baseline: Column := "MEDelPTILE_2 (cm)"
  const SampleNum: Column := "sampleNUM (Dmnless)"
  const WindowStartSampleNum: Column := "sampleNUM10 (Dmnless)"

  /** Samples (ticks) per second. */
  const SampleRate: int := 400
  /** The length of a sampling window, 10 minutes, in ticks. */
  const WindowLength: int := 10 * 60 * SampleRate

  const AfterWindowMessage: string := "Event time is after 10min window"
  const BeforeWindowMessage: string := "Event time is before 10min window"

  /** Element-wise subtraction; missing when either operand is missing. */
  function Difference(a: Cell, b: Cell): Cell {
    if a.Some? && b.Some? then Some(a.value - b.value) else None
  }

  /** Element-wise addition; missing when either operand is missing. */
  function Sum(a: Cell, b: Cell): Cell {
    if a.Some? && b.Some? then Some(a.value + b.value) else None
  }

  function Differences(xs: seq<Cell>, ys: seq<Cell>): seq<Cell>
    requires |xs| == |ys|
  {
    seq(|xs|, i requires 0 <= i < |xs| => Difference(xs[i], ys[i]))
  }

  function Sums(xs: seq<Cell>, ys: seq<Cell>): seq<Cell>
    requires |xs| == |ys|
  {
    seq(|xs|, i requires 0 <= i < |xs| => Sum(xs[i], ys[i]))
  }

  /** Per row, the ticks from window start to the event: sampleNUM - sampleNUM10. */
  function Offsets(rows: seq<Row>): seq<Cell> {
    Differences(ColumnOf(rows, SampleNum), ColumnOf(rows, WindowStartSampleNum))
  }

  /** The offset of one row. */
  function Offset(row: Row): Cell {
    Difference(Get(row, SampleNum), Get(row, WindowStartSampleNum))
  }

  /** Series.max(): the largest present cell, None (NaT) when no cell is present. */
  function MaxPresent(cells: seq<Cell>): (m: Option<int>)
    ensures m.None? <==> forall i :: 0 <= i < |cells| ==> cells[i].None?
    ensures m.Some? ==> Some(m.value) in cells
    ensures m.Some? ==> forall i :: 0 <= i < |cells| && cells[i].Some? ==> cells[i].value <= m.value
  {
    if cells == [] then None
    else
      var rest := MaxPresent(cells[1..]);
      if cells[0].None? || (rest.Some? && cells[0].value <= rest.value) then rest
      else cells[0]
  }

  /** Series.min(): the smallest present cell, None (NaT) when no cell is present. */
  function MinPresent(cells: seq<Cell>): (m: Option<int>)
    ensures m.None? <==> forall i :: 0 <= i < |cells| ==> cells[i].None?
    ensures m.Some? ==> Some(m.value) in cells
    ensures m.Some? ==> forall i :: 0 <= i < |cells| && cells[i].Some? ==> m.value <= cells[i].value
  {
    if cells == [] then None
    else
      var rest := MinPresent(cells[1..]);
      if cells[0].None? || (rest.Some? && rest.value <= cells[0].value) then rest
      else cells[0]
  }

  /**
    The two assertions on the offsets: the maximum must not exceed the window and the
    minimum must not be negative. When some row exists but no offset is present, the
    maximum is NaT and a comparison with NaT is false, so the first assertion fails.
    With no rows at all the offsets keep a numeric type, the maximum is NaN, and
    comparing it with a time delta raises a TypeError.
   */
  function WindowCheck(offsets: seq<Cell>): (r: Outcome<Error>)
    ensures r == Pass <==>
      && (exists i :: 0 <= i < |offsets| && offsets[i].Some?)
      && (forall i :: 0 <= i < |offsets| && offsets[i].Some? ==> 0 <= offsets[i].value <= WindowLength)
    ensures r.Fail? ==>
      || r.error == AssertionError(AfterWindowMessage) || r.error == AssertionError(BeforeWindowMessage)
      || (offsets == [] && r.error == TypeError)
    ensures offsets == [] ==> r == Fail(TypeError)
    ensures offsets != [] && (forall i :: 0 <= i < |offsets| ==> offsets[i].None?) ==>
      r == Fail(AssertionError(AfterWindowMessage))
  {
    if offsets == [] then Fail(TypeError)
    else
      var latest := MaxPresent(offsets);
      if latest.None? || latest.value > WindowLength then Fail(AssertionError(AfterWindowMessage))
      else
        var earliest := MinPresent(offsets);
        if earliest.None? || earliest.value < 0 then Fail(AssertionError(BeforeWindowMessage))
        else Pass
  }

  /** The table after the derivation, and whether it completed or raised. */
  datatype Derivation = Derivation(table: Table, outcome: Outcome<Error>)

  /**
    The derivation step by step, as the table stands after each step: heights first,
    then the event-time column as a copy of the window time, then the offsets and
    their check, and finally the offsets added to the event time. A step that raises
    leaves the table as the earlier steps made it.
   */
  function EventColumns(t: Table): Derivation {
    if Elevation !in t.columns then Derivation(t, Fail(KeyError(Elevation)))
    else if Baseline !in t.columns then Derivation(t, Fail(KeyError(Baseline)))
    else if WindowTime !in t.columns then Derivation(WithHeight(t), Fail(KeyError(WindowTime)))
    else if SampleNum !in t.columns then Derivation(WithStart(t), Fail(KeyError(SampleNum)))
    else if WindowStartSampleNum !in t.columns then Derivation(WithStart(t), Fail(KeyError(WindowStartSampleNum)))
    else
      var withStart := WithStart(t);
      var offsets := Offsets(withStart.rows);
      var check := WindowCheck(offsets);
      if check.Fail? then Derivation(withStart, check)
      else Derivation(Assign(withStart, EventTime, Sums(ColumnOf(withStart.rows, EventTime), offsets)), Pass)
  }

  /** The table after wirewall.py:30: the event height column added. */
  function WithHeight(t: Table): Table {
    Assign(t, EventHeight, Differences(ColumnOf(t.rows, Elevation), ColumnOf(t.rows, Baseline)))
  }

  /** The table after wirewall.py:32: the event time column added as a copy of the window time. */
  function WithStart(t: Table): Table {
    var withHeight := WithHeight(t);
    Assign(withHeight, EventTime, ColumnOf(withHeight.rows, WindowTime))
  }

  /** The two added columns do not disturb the columns the offsets are computed from. */
  lemma WithStartOffsets(t: Table)
    ensures Offsets(WithStart(t).rows) == Offsets(t.rows)
  {
  }

  /** At one present offset: a passing check bounds it, and an offset past the window fails the check. */
  lemma WindowCheckAt(offsets: seq<Cell>, i: nat)
    requires i < |offsets| && offsets[i].Some?
    ensures WindowCheck(offsets).Pass? ==> 0 <= offsets[i].value <= WindowLength
    ensures offsets[i].value > WindowLength ==> WindowCheck(offsets) == Fail(AssertionError(AfterWindowMessage))
  {
  }

  /** The check passes when some offset is present and every present offset is within the window. */
  lemma WindowCheckPasses(offsets: seq<Cell>, i: nat)
    requires i < |offsets| && offsets[i].Some?
    requires forall j :: 0 <= j < |offsets| && offsets[j].Some? ==> 0 <= offsets[j].value <= WindowLength
    ensures WindowCheck(offsets) == Pass
  {
  }

  /** A negative offset with none past the window fails the second assertion. */
  lemma WindowCheckEarly(offsets: seq<Cell>, i: nat)
    requires i < |offsets| && offsets[i].Some? && offsets[i].value < 0
    requires forall j :: 0 <= j < |offsets| && offsets[j].Some? ==> offsets[j].value <= WindowLength
    ensures WindowCheck(offsets) == Fail(AssertionError(BeforeWindowMessage))
  {
  }

  /**
    The derivation raises a KeyError exactly when an input column is missing, and then
    names a missing column; otherwise it can only fail one of the two assertions, or,
    on a table without rows, raise a TypeError comparing the maximum offset.
   */
  lemma DerivationErrors(t: Table)
    ensures var o := EventColumns(t).outcome;
      && (o.Fail? && o.error.KeyError? <==> !HasInputColumns(t))
      && (o.Fail? && o.error.KeyError? ==> o.error.column !in t.columns)
      && (o.Fail? && !o.error.KeyError? ==>
            || o.error == AssertionError(AfterWindowMessage) || o.error == AssertionError(BeforeWindowMessage)
            || (t.rows == [] && o.error == TypeError))
      && (HasInputColumns(t) && t.rows == [] ==> o == Fail(TypeError))
  {
  }

  /** With every input column present, the outcome is the window check on the input's offsets. */
  lemma DerivationOutcome(t: Table)
    requires HasInputColumns(t)
    ensures EventColumns(t).outcome == WindowCheck(Offsets(t.rows))
  {
    WithStartOffsets(t);
  }

  /** A completed derivation found every input column and added the offsets to the copied window time. */
  lemma CompletedDerivation(t: Table)
    requires EventColumns(t).outcome.Pass?
    ensures HasInputColumns(t) && WindowCheck(Offsets(t.rows)) == Pass && t.rows != []
    ensures EventColumns(t).table == Assign(WithStart(t), EventTime, Sums(ColumnOf(WithStart(t).rows, EventTime), Offsets(t.rows)))
  {
    WithStartOffsets(t);
  }

  /** Adds the event height and event time columns to `df` in place. */
  method AddEventColumns(df: Frame) returns (outcome: Outcome<Error>)
    requires df.Valid()
    modifies df, df.rows
    ensures df.Valid() && df.rows == old(df.rows)
    ensures outcome == EventColumns(old(df.Value())).outcome
    ensures df.Value() == EventColumns(old(df.Value())).table
  {
    if Elevation !in df.columns {
      return Fail(KeyError(Elevation));
    }
    if Baseline !in df.columns {
      return Fail(KeyError(Baseline));
    }
    df.SetColumn(EventHeight, Differences(ColumnOf(df.rows[..], Elevation), ColumnOf(df.rows[..], Baseline)));
    if WindowTime !in df.columns {
      return Fail(KeyError(WindowTime));
    }
    df.SetColumn(EventTime, ColumnOf(df.rows[..], WindowTime));
    if SampleNum !in df.columns {
      return Fail(KeyError(SampleNum));
    }
    if WindowStartSampleNum !in df.columns {
      return Fail(KeyError(WindowStartSampleNum));
    }
    var offsets := Offsets(df.rows[..]);
    if df.rows.Length == 0 {
      return Fail(TypeError);
    }
    var latest := MaxPresent(offsets);
    if latest.None? || latest.value > WindowLength {
      return Fail(AssertionError(AfterWindowMessage));
    }
    var earliest := MinPresent(offsets);
    if earliest.None? || earliest.value < 0 {
      return Fail(AssertionError(BeforeWindowMessage));
    }
    df.SetColumn(EventTime, Sums(ColumnOf(df.rows[..], EventTime), offsets));
    outcome := Pass;
  }

  // ---------------------------------------------------------------------------
  // What the derivation guarantees

  /** The columns the derivation reads; a successful derivation found them all. */
  predicate HasInputColumns(t: Table) {
    && Elevation in t.columns && Baseline in t.columns && WindowTime in t.columns
    && SampleNum in t.columns && WindowStartSampleNum in t.columns
  }

  /**
    Only the event height and event time columns change: the row count and every other
    cell stay as they were, whether the derivation completes or raises part-way; when
    it completes, exactly the two new columns were added.
   */
  lemma DerivationKeepsOtherColumns(t: Table, i: nat, c: Column)
    requires i < |t.rows| && c != EventHeight && c != EventTime
    ensures var r := EventColumns(t).table;
      && |r.rows| == |t.rows|
      && Get(r.rows[i], c) == Get(t.rows[i], c)
      && t.columns <= r.columns <= t.columns + {EventHeight, EventTime}
      && (EventColumns(t).outcome.Pass? ==> HasInputColumns(t) && r.columns == t.columns + {EventHeight, EventTime})
  {
  }

  /** Event height is elevation minus baseline, missing when either is missing. */
  lemma EventHeightIsDifference(t: Table, i: nat)
    requires Elevation in t.columns && Baseline in t.columns && i < |t.rows|
    ensures var r := EventColumns(t).table;
      var h, e, b := Get(r.rows[i], EventHeight), Get(t.rows[i], Elevation), Get(t.rows[i], Baseline);
      && |r.rows| == |t.rows|
      && (h.Some? <==> e.Some? && b.Some?)
      && (h.Some? ==> h.value == e.value - b.value)
  {
  }

  /**
    After a successful derivation, the event time is the window time plus the
    sample-count difference, and is missing when any of the three is missing.
   */
  lemma EventTimeIsShifted(t: Table, i: nat)
    requires EventColumns(t).outcome.Pass? && i < |t.rows|
    ensures var r := EventColumns(t).table;
      var e, w := Get(r.rows[i], EventTime), Get(t.rows[i], WindowTime);
      var s, s0 := Get(t.rows[i], SampleNum), Get(t.rows[i], WindowStartSampleNum);
      && |r.rows| == |t.rows|
      && (e.Some? <==> w.Some? && s.Some? && s0.Some?)
      && (e.Some? ==> e.value == w.value + (s.value - s0.value))
  {
    CompletedDerivation(t);
    var withStart := WithStart(t);
    ColumnOfAssign(WithHeight(t), EventTime, ColumnOf(WithHeight(t).rows, WindowTime), EventTime);
    assert Offsets(t.rows)[i] == Offset(t.rows[i]);
    assert ColumnOf(withStart.rows, EventTime)[i] == Get(t.rows[i], WindowTime);
  }

  /**
    After a successful derivation, every present offset lies in [0, 10 min], so every
    present event time lies within its window.
   */
  lemma DerivedEventsWithinWindow(t: Table, i: nat)
    requires EventColumns(t).outcome.Pass? && i < |t.rows|
    ensures Offset(t.rows[i]).Some? ==> 0 <= Offset(t.rows[i]).value <= WindowLength
    ensures var e, w := Get(EventColumns(t).table.rows[i], EventTime), Get(t.rows[i], WindowTime);
      e.Some? ==> w.Some? && w.value <= e.value <= w.value + WindowLength
  {
    CompletedDerivation(t);
    EventTimeIsShifted(t, i);
    assert Offsets(t.rows)[i] == Offset(t.rows[i]);
    if Offset(t.rows[i]).Some? {
      WindowCheckAt(Offsets(t.rows), i);
    }
  }

  /** An offset beyond 10 minutes makes the derivation raise "after window". */
  lemma LateEventFails(t: Table, i: nat)
    requires HasInputColumns(t) && i < |t.rows|
    requires Offset(t.rows[i]).Some? && Offset(t.rows[i]).value > WindowLength
    ensures EventColumns(t).outcome == Fail(AssertionError(AfterWindowMessage))
  {
    DerivationOutcome(t);
    assert Offsets(t.rows)[i] == Offset(t.rows[i]);
    WindowCheckAt(Offsets(t.rows), i);
  }

  /** A negative offset, with no offset beyond 10 minutes, makes it raise "before window". */
  lemma EarlyEventFails(t: Table, i: nat)
    requires HasInputColumns(t) && i < |t.rows|
    requires Offset(t.rows[i]).Some? && Offset(t.rows[i]).value < 0
    requires forall j :: 0 <= j < |t.rows| && Offset(t.rows[j]).Some? ==> Offset(t.rows[j]).value <= WindowLength
    ensures EventColumns(t).outcome == Fail(AssertionError(BeforeWindowMessage))
  {
    DerivationOutcome(t);
    var offsets := Offsets(t.rows);
    forall j | 0 <= j < |offsets| && offsets[j].Some?
      ensures offsets[j].value <= WindowLength
    {
      assert offsets[j] == Offset(t.rows[j]);
    }
    WindowCheckEarly(offsets, i);
  }

  /** With every column present, some offset present and all within the window, it completes. */
  lemma InWindowSucceeds(t: Table, i: nat)
    requires HasInputColumns(t) && i < |t.rows| && Offset(t.rows[i]).Some?
    requires forall j :: 0 <= j < |t.rows| && Offset(t.rows[j]).Some? ==> 0 <= Offset(t.rows[j]).value <= WindowLength
    ensures EventColumns(t).outcome.Pass?
  {
    DerivationOutcome(t);
    var offsets := Offsets(t.rows);
    forall j | 0 <= j < |offsets| && offsets[j].Some?
      ensures 0 <= offsets[j].value <= WindowLength
    {
      assert offsets[j] == Offset(t.rows[j]);
    }
    WindowCheckPasses(offsets, i);
  }

  /**
    Running the derivation again on the table it produced changes nothing and raises
    the same way: it only reads columns it never writes.
   */
  lemma DerivationIdempotent(t: Table)
    requires WellFormed(t)
    ensures EventColumns(EventColumns(t).table) == EventColumns(t)
  {
    var d := EventColumns(t);
    if !(Elevation in t.columns && Baseline in t.columns) {
      return;
    }
    var heights := Differences(ColumnOf(t.rows, Elevation), ColumnOf(t.rows, Baseline));
    var withHeight := WithHeight(t);
    var withStart := WithStart(t);
    var starts := ColumnOf(withHeight.rows, WindowTime);
    // the second run computes the same heights and writes them over themselves
    ColumnOfAssign(t, EventHeight, heights, Elevation);
    ColumnOfAssign(t, EventHeight, heights, Baseline);
    ColumnOfAssign(t, EventHeight, heights, WindowTime);
    ColumnOfAssign(withHeight, EventTime, starts, Elevation);
    ColumnOfAssign(withHeight, EventTime, starts, Baseline);
    ColumnOfAssign(withHeight, EventTime, starts, EventHeight);
    ColumnOfAssign(withHeight, EventTime, starts, WindowTime);
    if WindowTime !in t.columns {
      AssignUnchanged(withHeight, EventHeight, heights);
      return;
    }
    assert WithHeight(withStart) == withStart by {
      AssignUnchanged(withStart, EventHeight, heights);
    }
    assert WithStart(withStart) == withStart by {
      AssignUnchanged(withStart, EventTime, starts);
    }
    WithStartOffsets(t);
    WithStartOffsets(withStart);
    if !(SampleNum in t.columns && WindowStartSampleNum in t.columns) || d.outcome.Fail? {
      return;
    }
    // the completed run: its table is the start stage with the event time overwritten
    var offsets := Offsets(t.rows);
    var times := Sums(ColumnOf(withStart.rows, EventTime), offsets);
    var done := d.table;
    assert done == Assign(withStart, EventTime, times);
    ColumnOfAssign(withStart, EventTime, times, Elevation);
    ColumnOfAssign(withStart, EventTime, times, Baseline);
    ColumnOfAssign(withStart, EventTime, times, EventHeight);
    ColumnOfAssign(withStart, EventTime, times, WindowTime);
    assert WithHeight(done) == done by {
      AssignUnchanged(done, EventHeight, heights);
    }
    assert WithStart(done) == withStart by {
      AssignTwice(withStart, EventTime, times, starts);
      AssignUnchanged(withStart, EventTime, starts);
    }
  }
}
