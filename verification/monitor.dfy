/**
  The plotting side of the WireWall monitor: the window view (one row per window and
  wire), the event view (one row per detected event), their pivots into one series
  per wire, and the ordered list of figures `plot_variables` returns. A figure is
  represented by its title and its per-wire series; layout and display are not modelled.
 */
module Monitor {
  import opened Wrappers
  import opened Frames
  import opened Events

  /** A figure: the plotted column and one series per wire. */
  datatype Figure = Figure(title: Column, series: Series)

  /** Rows de-duplicated on (window time, wire), then pivoted with window time as x. */
  function WindowView(t: Table): (r: Result<Pivoted, Error>)
    ensures r.Success? ==> r.value.index == WindowTime && r.value.group == WireId
  {
    var deduplicated :- DropDuplicates(t, WindowTime, WireId);
    Pivot(deduplicated, WindowTime, WireId)
  }

  /** Rows without an event time dropped, then pivoted with event time as x. */
  function EventView(t: Table): (r: Result<Pivoted, Error>)
    ensures r.Success? ==> r.value.index == EventTime && r.value.group == WireId
    ensures r.Success? ==> forall k :: 0 <= k < |r.value.rows| ==> Get(r.value.rows[k], EventTime).Some?
  {
    var events :- DropMissing(t, EventTime);
    Pivot(events, EventTime, WireId)
  }

  /**
    The window pivot never meets a duplicate key, because de-duplication on the pivot's
    own key comes first: it fails only on a missing window time or wire column.
   */
  lemma WindowViewNeverDuplicates(t: Table)
    ensures WindowView(t).Success? <==> WindowTime in t.columns && WireId in t.columns
    ensures WindowView(t).Failure? ==> WindowView(t).error.KeyError?
    ensures WindowView(t).Success? ==> WindowView(t).value.values == t.columns - {WindowTime, WireId}
    ensures WindowView(t).Success? ==> (WindowView(t).value.rows == [] <==> t.rows == [])
  {
    if WindowTime in t.columns && WireId in t.columns {
      DropDuplicatesKeepsFirst(t, WindowTime, WireId);
      var kept := DropDuplicates(t, WindowTime, WireId).value.rows;
      if t.rows != [] {
        assert Key(t.rows[0], WindowTime, WireId) in Keys(kept, WindowTime, WireId);
      }
    }
  }

  /**
    A window-view series holds the point (x, y) for wire w exactly when the first input
    row with window time x and wire w has y in the plotted column.
   */
  lemma WindowSeriesHoldsFirstRows(t: Table, name: Column, w: Cell, x: Cell, y: Cell)
    requires WindowTime in t.columns && WireId in t.columns
    requires name in t.columns - {WindowTime, WireId}
    ensures WindowView(t).Success? && name in WindowView(t).value.values
    ensures var s := SeriesMap(WindowView(t).value, name);
      (w in s && Point(x, y) in s[w]) <==>
      exists i :: 0 <= i < |t.rows| && Key(t.rows[i], WindowTime, WireId) == (x, w)
        && Key(t.rows[i], WindowTime, WireId) !in Keys(t.rows, WindowTime, WireId)[..i]
        && Get(t.rows[i], name) == y
  {
    WindowViewNeverDuplicates(t);
    var keys := Keys(t.rows, WindowTime, WireId);
    var first := FirstOccurrences(keys);
    var p := WindowView(t).value;
    SeriesOfSelection(p, t.rows, first, Positions(first), name, w, x, y);
  }

  /** A value column of the window view can be selected exactly when the table has rows. */
  lemma WindowColumnSelectable(t: Table, name: Column)
    requires WindowTime in t.columns && WireId in t.columns
    requires name in t.columns - {WindowTime, WireId}
    ensures WindowView(t).Success? && (Select(WindowView(t).value, name).Success? <==> t.rows != [])
  {
    WindowViewNeverDuplicates(t);
  }

  /**
    An event-view series holds the point (x, y) for wire w exactly when some input row
    of wire w has the present event time x and y in the plotted column.
   */
  lemma EventSeriesHoldsEvents(t: Table, name: Column, w: Cell, x: Cell, y: Cell)
    requires EventView(t).Success? && name in EventView(t).value.values
    ensures var s := SeriesMap(EventView(t).value, name);
      (w in s && Point(x, y) in s[w]) <==>
      exists i :: 0 <= i < |t.rows| && Get(t.rows[i], WireId) == w && Get(t.rows[i], EventTime) == x
        && x.Some? && Get(t.rows[i], name) == y
  {
    var keep := Present(t.rows, EventTime);
    var idx := Positions(keep);
    SeriesOfSelection(EventView(t).value, t.rows, keep, idx, name, w, x, y);
  }

  /**
    A value column of the event view can be selected exactly when some row has an
    event time: otherwise the pivot has no rows and so no columns.
   */
  lemma EventColumnSelectable(t: Table, name: Column)
    requires EventView(t).Success? && name in EventView(t).value.values
    ensures Select(EventView(t).value, name).Success? <==>
      exists i :: 0 <= i < |t.rows| && Get(t.rows[i], EventTime).Some?
  {
    assert EventView(t).value.rows == DropMissing(t, EventTime).value.rows;
  }

  /**
    Unlike the window pivot, the event pivot is not protected by de-duplication: two
    rows of one wire with the same present event time make it raise.
   */
  lemma EventViewRejectsRepeatedEvents(t: Table, i: nat, j: nat)
    requires EventTime in t.columns && WireId in t.columns
    requires i < j < |t.rows| && Get(t.rows[i], EventTime).Some?
    requires Key(t.rows[i], EventTime, WireId) == Key(t.rows[j], EventTime, WireId)
    ensures EventView(t) == Failure(DuplicateEntries)
  {
    var keep := Present(t.rows, EventTime);
    var idx := Positions(keep);
    var kept := DropMissing(t, EventTime).value.rows;
    assert kept == Pick(t.rows, idx);
    assert keep[i] && keep[j];
    var k :| 0 <= k < |idx| && idx[k] == i;
    var l :| 0 <= l < |idx| && idx[l] == j;
    assert Key(kept[k], EventTime, WireId) == Key(kept[l], EventTime, WireId);
  }

  // ---------------------------------------------------------------------------
  // Figures

  /**
    One figure per requested name, in order; the first name that is not a value
    column of the pivot raises a KeyError.
   */
  function PlotEach(p: Pivoted, names: seq<Column>): (r: Result<seq<Figure>, Error>)
    ensures r.Success? <==> forall k :: 0 <= k < |names| ==> Selectable(p, names[k])
    ensures r.Success? ==> |r.value| == |names|
    ensures r.Success? ==> forall k :: 0 <= k < |names| ==>
      Selectable(p, names[k]) && r.value[k] == Figure(names[k], Select(p, names[k]).value)
    ensures r.Failure? ==>
      exists k :: 0 <= k < |names| && !Selectable(p, names[k]) && r.error == KeyError(names[k])
        && (forall j :: 0 <= j < k ==> Selectable(p, names[j]))
  {
    if names == [] then Success([])
    else
      match Select(p, names[0])
      case Failure(e) => Failure(e)
      case Success(series) =>
        match PlotEach(p, names[1..])
        case Failure(e) => Failure(e)
        case Success(rest) => Success([Figure(names[0], series)] + rest)
  }

  /** Fills a preallocated list of figures, one per name, in order. */
  method FillFigures(p: Pivoted, names: seq<Column>) returns (r: Result<seq<Figure>, Error>)
    ensures r == PlotEach(p, names)
  {
    var figs := new Figure[|names|];
    for i := 0 to |names|
      invariant forall k :: 0 <= k < i ==> Selectable(p, names[k]) && figs[k] == Figure(names[k], Select(p, names[k]).value)
    {
      var series := Select(p, names[i]);
      if series.Failure? {
        ghost var k :| 0 <= k < |names| && !Selectable(p, names[k]) && PlotEach(p, names).error == KeyError(names[k])
          && (forall j :: 0 <= j < k ==> Selectable(p, names[j]));
        assert k == i;
        return Failure(series.error);
      }
      figs[i] := Figure(names[i], series.value);
    }
    r := Success(figs[..]);
    assert r.value == PlotEach(p, names).value;
  }

  /** The first name without a pivot column is the one whose KeyError is raised. */
  lemma PlotEachFailsAt(p: Pivoted, names: seq<Column>, k: nat)
    requires k < |names| && !Selectable(p, names[k])
    requires forall j :: 0 <= j < k ==> Selectable(p, names[j])
    ensures PlotEach(p, names) == Failure(KeyError(names[k]))
  {
    var failed :| 0 <= failed < |names| && !Selectable(p, names[failed])
      && PlotEach(p, names).error == KeyError(names[failed])
      && (forall j :: 0 <= j < failed ==> Selectable(p, names[j]));
    assert failed == k;
  }

  function WindowFigures(t: Table, names: seq<Column>): Result<seq<Figure>, Error> {
    var p :- WindowView(t);
    PlotEach(p, names)
  }

  function EventFigures(t: Table, names: seq<Column>): Result<seq<Figure>, Error> {
    var p :- EventView(t);
    PlotEach(p, names)
  }

  /** Figures of variables constant over a window; the caller's frame is left as it was. */
  method PlotWindowVariables(df: Frame, names: seq<Column>) returns (r: Result<seq<Figure>, Error>)
    ensures r == WindowFigures(df.Value(), names)
  {
    var view := WindowView(df.Value());
    if view.Failure? {
      return Failure(view.error);
    }
    r := FillFigures(view.value, names);
  }

  /** Figures of per-event variables; the caller's frame is left as it was. */
  method PlotEventVariables(df: Frame, names: seq<Column>) returns (r: Result<seq<Figure>, Error>)
    ensures r == EventFigures(df.Value(), names)
  {
    var view := EventView(df.Value());
    if view.Failure? {
      return Failure(view.error);
    }
    r := FillFigures(view.value, names);
  }

  // ---------------------------------------------------------------------------
  // plot_variables

  /** An omitted list of variable names means no names. */
  function OrEmpty(names: Option<seq<Column>>): seq<Column> {
    if names.Some? then names.value else []
  }

  /** Derivation, then the window figures, then the event figures; the first error wins. */
  function Plots(t: Table, windowVariables: Option<seq<Column>>, eventVariables: Option<seq<Column>>): Result<seq<Figure>, Error> {
    var d := EventColumns(t);
    if d.outcome.Fail? then Failure(d.outcome.error)
    else
      var windowFigs :- WindowFigures(d.table, OrEmpty(windowVariables));
      var eventFigs :- EventFigures(d.table, OrEmpty(eventVariables));
      Success(windowFigs + eventFigs)
  }

  /**
    Derives the event columns of the fetched frame in place, then returns the window
    figures followed by the event figures.
   */
  method PlotVariables(df: Frame, windowVariables: Option<seq<Column>>, eventVariables: Option<seq<Column>>)
    returns (figs: Result<seq<Figure>, Error>)
    requires df.Valid()
    modifies df, df.rows
    ensures df.Valid() && df.Value() == EventColumns(old(df.Value())).table
    ensures figs == Plots(old(df.Value()), windowVariables, eventVariables)
  {
    var windowNames := OrEmpty(windowVariables);
    var eventNames := OrEmpty(eventVariables);
    var derived := AddEventColumns(df);
    if derived.Fail? {
      return Failure(derived.error);
    }
    var windowFigs := PlotWindowVariables(df, windowNames);
    if windowFigs.Failure? {
      return Failure(windowFigs.error);
    }
    var eventFigs := PlotEventVariables(df, eventNames);
    if eventFigs.Failure? {
      return Failure(eventFigs.error);
    }
    figs := Success(windowFigs.value + eventFigs.value);
  }

  /**
    A successful call returns one figure per window variable, in the order given, then
    one per event variable, in the order given; an omitted list counts as empty.
   */
  lemma PlotsInOrder(t: Table, windowVariables: Option<seq<Column>>, eventVariables: Option<seq<Column>>)
    requires Plots(t, windowVariables, eventVariables).Success?
    ensures var figs := Plots(t, windowVariables, eventVariables).value;
      var d := EventColumns(t).table;
      var w, e := OrEmpty(windowVariables), OrEmpty(eventVariables);
      && EventColumns(t).outcome.Pass? && WindowView(d).Success? && EventView(d).Success?
      && |figs| == |w| + |e|
      && (forall k :: 0 <= k < |w| ==>
            w[k] in WindowView(d).value.values && figs[k] == Figure(w[k], Select(WindowView(d).value, w[k]).value))
      && (forall k :: 0 <= k < |e| ==>
            e[k] in EventView(d).value.values && figs[|w| + k] == Figure(e[k], Select(EventView(d).value, e[k]).value))
  {
    var d := EventColumns(t).table;
    var w, e := OrEmpty(windowVariables), OrEmpty(eventVariables);
    assert EventColumns(t).outcome.Pass?;
    var windowFigs := WindowFigures(d, w);
    var eventFigs := EventFigures(d, e);
    assert windowFigs.Success? && eventFigs.Success?;
    assert Plots(t, windowVariables, eventVariables).value == windowFigs.value + eventFigs.value;
    JoinedFigures(WindowView(d).value, EventView(d).value, w, e);
  }

  /** Two successful figure lists, joined: the first list's figures, then the second's. */
  lemma JoinedFigures(p: Pivoted, q: Pivoted, w: seq<Column>, e: seq<Column>)
    requires PlotEach(p, w).Success? && PlotEach(q, e).Success?
    ensures var figs := PlotEach(p, w).value + PlotEach(q, e).value;
      && |figs| == |w| + |e|
      && (forall k :: 0 <= k < |w| ==> w[k] in p.values && figs[k] == Figure(w[k], Select(p, w[k]).value))
      && (forall k :: 0 <= k < |e| ==> e[k] in q.values && figs[|w| + k] == Figure(e[k], Select(q, e[k]).value))
  {
    var a, b := PlotEach(p, w).value, PlotEach(q, e).value;
    assert forall k :: 0 <= k < |e| ==> (a + b)[|w| + k] == b[k];
  }

  /** The first window variable that is not a window-view value column raises a KeyError. */
  lemma MissingWindowVariableFails(t: Table, windowVariables: Option<seq<Column>>, eventVariables: Option<seq<Column>>, k: nat)
    requires EventColumns(t).outcome.Pass? && WireId in EventColumns(t).table.columns
    requires var w, values := OrEmpty(windowVariables), EventColumns(t).table.columns - {WindowTime, WireId};
      k < |w| && w[k] !in values && forall j :: 0 <= j < k ==> w[j] in values
    ensures Plots(t, windowVariables, eventVariables) == Failure(KeyError(OrEmpty(windowVariables)[k]))
  {
    var d := EventColumns(t).table;
    var w := OrEmpty(windowVariables);
    CompletedDerivation(t);
    DerivationKeepsOtherColumns(t, 0, WindowTime);
    WindowViewNeverDuplicates(d);
    var p := WindowView(d).value;
    assert p.values == d.columns - {WindowTime, WireId} && p.rows != [];
    PlotEachFailsAt(p, w, k);
    assert WindowFigures(d, w) == Failure(KeyError(w[k]));
  }

  /**
    With the window figures drawn, the first event variable that is not an event-view
    value column raises a KeyError.
   */
  lemma MissingEventVariableFails(t: Table, windowVariables: Option<seq<Column>>, eventVariables: Option<seq<Column>>, k: nat)
    requires EventColumns(t).outcome.Pass?
    requires WindowFigures(EventColumns(t).table, OrEmpty(windowVariables)).Success?
    requires EventView(EventColumns(t).table).Success?
    requires var d := EventColumns(t).table; exists i :: 0 <= i < |d.rows| && Get(d.rows[i], EventTime).Some?
    requires var e, values := OrEmpty(eventVariables), EventColumns(t).table.columns - {EventTime, WireId};
      k < |e| && e[k] !in values && forall j :: 0 <= j < k ==> e[j] in values
    ensures Plots(t, windowVariables, eventVariables) == Failure(KeyError(OrEmpty(eventVariables)[k]))
  {
    var d := EventColumns(t).table;
    var e := OrEmpty(eventVariables);
    assert DropMissing(d, EventTime).value.rows != [];
    var p := EventView(d).value;
    assert p.values == d.columns - {EventTime, WireId} && p.rows != [];
    PlotEachFailsAt(p, e, k);
    assert EventFigures(d, e) == Failure(KeyError(e[k]));
  }

  /**
    When no row has an event time, the event view pivots no rows and has no columns, so
    the first event variable raises a KeyError whatever it names.
   */
  lemma NoEventsFailsFirstEventVariable(t: Table, windowVariables: Option<seq<Column>>, eventVariables: Option<seq<Column>>)
    requires EventColumns(t).outcome.Pass? && WireId in t.columns
    requires WindowFigures(EventColumns(t).table, OrEmpty(windowVariables)).Success?
    requires var d := EventColumns(t).table; forall i :: 0 <= i < |d.rows| ==> Get(d.rows[i], EventTime).None?
    requires OrEmpty(eventVariables) != []
    ensures Plots(t, windowVariables, eventVariables) == Failure(KeyError(OrEmpty(eventVariables)[0]))
  {
    var d := EventColumns(t).table;
    DerivationKeepsOtherColumns(t, 0, WireId);
    assert DropMissing(d, EventTime).value.rows == [];
    assert EventFigures(d, OrEmpty(eventVariables)) == Failure(KeyError(OrEmpty(eventVariables)[0]));
  }
}
