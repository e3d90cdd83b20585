# WireWall monitor: event derivation and plot views

A Dafny model of the core of the WireWall monitoring helper (`wirewall.py`). WireWall sensors
("wires") record wave-runup events inside fixed 10-minute sampling windows. The helper fetches
a table of these records and derives two columns for every row. The first is the event height:
the percentile elevation `elPTILE_6 (cm)` minus the baseline `MEDelPTILE_2 (cm)`. The second is
the event time: the window start `time (UTC)` plus the sample-count difference
`sampleNUM − sampleNUM10` at 400 samples per second. The helper asserts that every event lies
within its window. It then plots two views of the table:

- the **window view**: rows de-duplicated on (window time, wire), keeping the first, then
  pivoted into one series per wire with the window time as x;
- the **event view**: rows without an event time dropped, then pivoted into one series per
  wire with the event time as x.

`plot_variables` returns the window figures first and the event figures after them, each
list in the order requested.

Modules:

- `Wrappers` (wrappers.dfy): `Option`, `Result`, `Outcome`.
- `Frames` (frames.dfy): the DataFrame operations the helper relies on.
  - A `Table` value is a set of column labels and a sequence of rows. A row maps each label
    to a cell, which is an integer or missing (`None` stands for NaN/NaT).
  - `Frame` is the mutable DataFrame: a class whose `columns` field and `array<Row>` are
    updated in place by `SetColumn` (`df[c] = values`).
  - The pure operations are `DropDuplicates` (`drop_duplicates(keep="first")`),
    `DropMissing` (`dropna(subset=...)`), `Pivot` and `Select` (`pivoted[name]`).
- `Events` (events.dfy): `_add_event_columns` as the in-place method `AddEventColumns`. It
  is specified by `EventColumns`, which gives the table and the outcome after every step.
  A step that raises leaves the columns that earlier steps added.
- `Monitor` (monitor.dfy): the two views and their figures. `FillFigures` is the loop that
  fills the preallocated figure list. `PlotVariables` models `plot_variables`.

Times are integer ticks of 1/400 s, the sampling period. A sample-count difference is
therefore a time offset in ticks, and the 10-minute bound is 240000 ticks.

Three points of the behaviour, as the code has it:

- The bound check is a hard `assert` (wirewall.py:42-47), not a warning: an out-of-window
  event stops the call.
- There is a single event height, `elPTILE_6 − MEDelPTILE_2`. There is no preferred/fallback
  pair of depths.
- `plot_variables` takes no secondary (overlay) variable list.

## Model

| member | source | states |
|---|---|---|
| `Frames.Assign` | wirewall.py:30 | Assigning a column gives every row the new cell in that column. The row count and every cell of every other column stay the same. The column joins the table's labels, and a well-formed table stays well formed. |
| `Frames.Frame.constructor` | wirewall.py:55 | A frame built from a well-formed table is valid, holds exactly that table, and has a fresh row array. |
| `Frames.Frame.SetColumn` | wirewall.py:30-32 | In-place column assignment on the frame: its new table is `Assign` of its old table, it stays valid and keeps the same row array. |
| `Frames.DropDuplicates` | wirewall.py:66-68 | Fails with a KeyError exactly when a key column is missing. Otherwise the columns are kept, and the rows are the input rows at the ascending positions that are first occurrences of their (window time, wire) key. |
| `Frames.DropDuplicatesKeepsFirst` | wirewall.py:64-68 | Kept rows have pairwise distinct keys, and every input key is kept. Each kept row is the first input row with its key, and the kept rows follow the order of those first occurrences. |
| `Frames.DropMissing` | wirewall.py:85 | Fails with a KeyError exactly when the column is missing. Otherwise all columns are kept, and the rows are, unchanged and in input order, exactly the rows whose cell in that column is present. Every kept row has the cell, and the result is empty exactly when no row has it. |
| `Frames.Pivot` | wirewall.py:69 | Succeeds exactly when the index and series columns exist and no (index, series) key repeats. A repeated key gives `DuplicateEntries`. The value columns are all the other columns. |
| `Frames.Select` | wirewall.py:75 | `pivoted[name]` raises a KeyError exactly when `name` is not a value column (the index and series columns included) or the pivot has no rows, since an empty pivot has no columns at all. Otherwise it holds one series for each wire label present, and there is at least one. |
| `Frames.SeriesMap` | wirewall.py:69 | The series of one value column are keyed by exactly the wire labels present in the pivoted rows; `SeriesPoints` states what each series holds. |
| `Frames.SeriesPoints` | wirewall.py:69 | Wire w's series holds the point (x, y) if and only if some row of wire w has index x and value y. |
| `Frames.SeriesDistinctX` | wirewall.py:69 | When keys are unique, no two points of one wire's series share an x. |
| `Events.MaxPresent` | wirewall.py:42 | Series.max() skipping missing cells. The result is missing exactly when every cell is missing. Otherwise it is one of the cells and no present cell exceeds it. |
| `Events.MinPresent` | wirewall.py:45 | Series.min() skipping missing cells. The result is missing exactly when every cell is missing. Otherwise it is one of the cells and no present cell is below it. |
| `Events.WindowCheck` | wirewall.py:41-47 | The two assertions pass exactly when some offset is present and every present offset lies in [0, 240000] ticks. With rows but no offset present, `max()` is NaT, the comparison is false and the first assertion fails. With no rows, the offsets stay numeric, `max()` is NaN, and comparing it with a time delta raises a TypeError. Any other failure carries one of the two assertion messages. |
| `Events.WindowCheckAt` | wirewall.py:41-44 | At any present offset, a passing check means the offset lies in [0, 240000] ticks. An offset above 240000 makes the check fail "after window". |
| `Events.WindowCheckEarly` | wirewall.py:45-47 | A negative present offset, with no present offset above 240000, makes the check fail "before window". |
| `Events.WindowCheckPasses` | wirewall.py:41-47 | When some offset is present and every present offset lies in [0, 240000], the check passes. |
| `Events.EventColumns` | wirewall.py:27-49 | The derivation step by step: the table after the last step that ran, and whether it completed or raised. It has no contract of its own. `AddEventColumns` is proved to follow it, and the `Derivation…`, `Event…` and `…Fails`/`…Succeeds` lemmas state its properties. |
| `Events.DerivationErrors` | wirewall.py:27-49 | The derivation raises a KeyError exactly when one of the five input columns is missing, and the error names a missing column. Any other failure is one of the two assertion messages, or, on a table without rows, the TypeError of the first comparison; with every input column present and no rows, it is that TypeError. |
| `Events.DerivationOutcome` | wirewall.py:27-49 | With all five input columns present, the derivation raises or completes exactly as the window check on the input's offsets does. The two columns added first do not disturb the offsets. |
| `Events.AddEventColumns` | wirewall.py:27-49 | Mutates the frame in place. The outcome and the new table are those of `EventColumns` on the old table, the frame stays valid and the row array is the same. |
| `Events.DerivationKeepsOtherColumns` | wirewall.py:27-49 | Whether the derivation completes or raises, the row count and every cell outside the two event columns stay the same. Only those two columns can be added. On success exactly both are added and all five input columns existed. |
| `Events.EventHeightIsDifference` | wirewall.py:30 | Once both operand columns exist, each row's event height is present exactly when elevation and baseline are both present, and then equals elevation − baseline. This holds even if a later step raises. |
| `Events.EventTimeIsShifted` | wirewall.py:32-49 | After success, each row's event time is present exactly when window time and both sample numbers are present. It then equals window time + (sampleNUM − sampleNUM10) ticks. |
| `Events.DerivedEventsWithinWindow` | wirewall.py:41-49 | After success, every present offset lies in [0, 240000] ticks. Every present event time lies in [window start, window start + 10 min]. |
| `Events.LateEventFails` | wirewall.py:42-44 | With the input columns present, any present offset above 240000 ticks makes the derivation raise "Event time is after 10min window". |
| `Events.EarlyEventFails` | wirewall.py:45-47 | With the input columns present, a negative present offset and none above the window makes it raise "Event time is before 10min window". |
| `Events.InWindowSucceeds` | wirewall.py:41-49 | With the input columns present, at least one offset present and every present offset within [0, 240000], the derivation completes. |
| `Events.DerivationIdempotent` | wirewall.py:27-49 | Running the in-place derivation again on the table it produced gives the same table and the same outcome. This covers partial tables left by a raise. |
| `Monitor.WindowView` | wirewall.py:66-69 | De-duplication on (window time, wire), then a pivot with window time as x and wire as series. A successful result is pivoted on those two columns; `WindowViewNeverDuplicates` states when it succeeds. |
| `Monitor.EventView` | wirewall.py:85-86 | Dropping rows without an event time, then a pivot with event time as x and wire as series. Every pivoted row has an event time. |
| `Monitor.WindowViewNeverDuplicates` | wirewall.py:66-69 | The window pivot fails only with a KeyError, exactly when the window time or wire column is missing. De-duplication on the pivot key means it never fails on duplicate entries. Its value columns are all other columns, and it has rows exactly when the table has rows. |
| `Monitor.WindowColumnSelectable` | wirewall.py:66-75 | A value column of the window view can be selected exactly when the table has rows. |
| `Monitor.WindowSeriesHoldsFirstRows` | wirewall.py:66-69 | In the window view, wire w's series holds (x, y) if and only if the first input row with window time x and wire w has y in the plotted column. |
| `Monitor.EventSeriesHoldsEvents` | wirewall.py:85-86 | In the event view, wire w's series holds (x, y) if and only if some input row of wire w has the present event time x and the value y. |
| `Monitor.EventColumnSelectable` | wirewall.py:85-92 | A value column of the event view can be selected exactly when some row has an event time. |
| `Monitor.EventViewRejectsRepeatedEvents` | wirewall.py:85-86 | Two rows of one wire with the same present event time make the event pivot raise `DuplicateEntries`. Nothing de-duplicates that view. |
| `Monitor.PlotEach` | wirewall.py:71-77 | Succeeds exactly when every name can be selected: it is a value column and the pivot has rows. The result then has one figure per name, in order, each holding `pivoted[name]`. Otherwise the error is the KeyError of the first name that cannot be selected. |
| `Monitor.PlotEachFailsAt` | wirewall.py:74-75 | The first name that cannot be selected is the one whose KeyError is raised. |
| `Monitor.FillFigures` | wirewall.py:71-79 | The loop over a preallocated figure array returns exactly `PlotEach` of the names. |
| `Monitor.PlotWindowVariables` | wirewall.py:62-79 | Returns the window view's figures and does not modify the caller's frame, because the method has an empty modifies frame. |
| `Monitor.PlotEventVariables` | wirewall.py:81-94 | Returns the event view's figures from a filtered copy; the caller's frame is not modified. |
| `Monitor.OrEmpty` | wirewall.py:108-109 | An omitted variable list is the empty list. It has no contract; `PlotsInOrder` states how it enters the result. |
| `Monitor.Plots` | wirewall.py:108-115 | The derivation, then the window figures, then the event figures, joined in that order, with the first error raised returned. It has no contract of its own; `PlotsInOrder` and the `Missing…`/`NoEvents…` lemmas state its properties. |
| `Monitor.PlotVariables` | wirewall.py:96-120 | Derives the event columns of the frame in place, then returns the window figures followed by the event figures. The first error raised is the one returned. |
| `Monitor.PlotsInOrder` | wirewall.py:108-115 | On success there are \|window\| + \|event\| figures. The window figures come first in the given order, then the event figures in the given order, with an omitted list counting as empty. |
| `Monitor.MissingWindowVariableFails` | wirewall.py:75 | After a successful derivation, the first window variable that is not a window-view value column makes the call fail with its KeyError. |
| `Monitor.MissingEventVariableFails` | wirewall.py:92 | Once the window figures succeed and some row has an event time, the first event variable that is not an event-view value column makes the call fail with its KeyError. |
| `Monitor.NoEventsFailsFirstEventVariable` | wirewall.py:85-92 | Once the window figures succeed, when no row has an event time the event view pivots no rows, so the first event variable fails with its KeyError whatever it names. |

## Left out

- Data retrieval (`_get_dataframe`, wirewall.py:51-60) is not modelled. It is network I/O through the ERDDAP client, including setting and resetting its dataset id and parsing dates. The fetched table is the `Frame` argument of `PlotVariables`.
- The `WireWallMonitor` constructor is not modelled. It only builds the ERDDAP client.
- Figure construction and display are not modelled: `_plot_dataframe` and its axis layout (wirewall.py:123-143), `update_traces` (wirewall.py:76) and `fig.show()` (wirewall.py:117-118). A figure is its title and its per-wire series.
- Floating point is not modelled. Measurements, sample numbers and times are integers, with times in ticks of 1/400 s. Dividing by 400 and converting with `to_timedelta` is exact in these units.
- Column types are not modelled. Every cell is an integer or missing, so text columns and the type errors that arithmetic on them would raise are not represented.
- Pivot's sorting of its index and columns is not modelled. Neither is its filling of (x, wire) pairs that have no row with NaN. A series lists the rows of its wire in row order. This holds the same points as pandas' column for that wire, apart from the NaN filling: pandas also gives the column an (x, NaN) point for every x that only other wires have.
- A KeyError from `drop_duplicates` names only the first missing key column. pandas names all of them.
- `Events.EventTimeIsShifted`: states the event time only after a successful derivation. When the window check raises, the column holds the copied window time; `EventColumns` defines that state but no lemma states it.
- Secondary (overlay) variables and a warn-instead-of-fail bound policy are not modelled, because this code has neither.
