/**
  The part of a pandas DataFrame that the WireWall monitor relies on: named columns,
  rows whose cells may be missing, column assignment in place, keep-first
  de-duplication, dropping rows with a missing cell, and pivoting into one series
  per value of a label column.
 */
module Frames {
  import opened Wrappers

  /** A column label such as "time (UTC)"; the unit is part of the label. */
  type Column = string

  /** One cell. None is a missing value (NaN or NaT). Numbers and times are integers. */
  type Cell = Option<int>

  /** One row: the cell of every column. */
  type Row = map<Column, Cell>

  /** A table value: its column labels and its rows, in order. */
  datatype Table = Table(columns: set<Column>, rows: seq<Row>)

  /** The errors the modelled operations can raise. */
  datatype Error =
    | KeyError(column: Column)       // a label that names no column
    | DuplicateEntries               // pivot: an (index, columns) pair occurs twice
    | AssertionError(message: string)
    | TypeError                      // a comparison between values of incompatible types

  /** Every row has a cell for exactly the table's columns. */
  ghost predicate WellFormed(t: Table) {
    forall i :: 0 <= i < |t.rows| ==> t.rows[i].Keys == t.columns
  }

  /** The cell of `row` in column `c`; missing when the row has no such column. */
  function Get(row: Row, c: Column): Cell {
    if c in row then row[c] else None
  }

  /** The column `c` of `rows`, as a sequence of cells (`df[c]`). */
  function ColumnOf(rows: seq<Row>, c: Column): seq<Cell> {
    seq(|rows|, i requires 0 <= i < |rows| => Get(rows[i], c))
  }

  /** Column assignment `df[c] = values`: adds or replaces the column `c`. */
  function Assign(t: Table, c: Column, values: seq<Cell>): (r: Table)
    requires |values| == |t.rows|
    ensures r.columns == t.columns + {c} && |r.rows| == |t.rows|
    ensures forall i :: 0 <= i < |t.rows| ==> r.rows[i].Keys == t.rows[i].Keys + {c}
    ensures forall i :: 0 <= i < |t.rows| ==> Get(r.rows[i], c) == values[i]
    ensures forall i, d :: 0 <= i < |t.rows| && d != c ==> Get(r.rows[i], d) == Get(t.rows[i], d)
    ensures WellFormed(t) ==> WellFormed(r)
  {
    Table(t.columns + {c}, seq(|t.rows|, i requires 0 <= i < |t.rows| => t.rows[i][c := values[i]]))
  }

  lemma ColumnOfAssign(t: Table, c: Column, values: seq<Cell>, d: Column)
    requires |values| == |t.rows|
    ensures ColumnOf(Assign(t, c, values).rows, d) == if d == c then values else ColumnOf(t.rows, d)
  {
  }

  /** Assigning a column the values it already holds changes nothing. */
  lemma AssignUnchanged(t: Table, c: Column, values: seq<Cell>)
    requires WellFormed(t) && c in t.columns
    requires values == ColumnOf(t.rows, c)
    ensures Assign(t, c, values) == t
  {
    var r := Assign(t, c, values);
    forall i | 0 <= i < |t.rows|
      ensures r.rows[i] == t.rows[i]
    {
      assert r.rows[i] == t.rows[i][c := values[i]];
    }
  }

  /** A second assignment to the same column overrides the first. */
  lemma AssignTwice(t: Table, c: Column, first: seq<Cell>, second: seq<Cell>)
    requires |first| == |second| == |t.rows|
    ensures Assign(Assign(t, c, first), c, second) == Assign(t, c, second)
  {
    var r, s := Assign(Assign(t, c, first), c, second), Assign(t, c, second);
    forall i | 0 <= i < |t.rows|
      ensures r.rows[i] == s.rows[i]
    {
      assert r.rows[i] == t.rows[i][c := first[i]][c := second[i]];
    }
  }

  /** A DataFrame object, updated in place by column assignment. */
  class Frame {
    var columns: set<Column>
    var rows: array<Row>

    /** A frame holding the table `t`, in a fresh row array. */
    constructor (t: Table)
      requires WellFormed(t)
      ensures Valid() && Value() == t && fresh(rows)
    {
      columns := t.columns;
      rows := new Row[|t.rows|](i requires 0 <= i < |t.rows| => t.rows[i]);
    }

    ghost predicate Valid()
      reads this, rows
    {
      WellFormed(Value())
    }

    /** The table the frame currently holds. */
    function Value(): Table
      reads this, rows
    {
      Table(columns, rows[..])
    }

    /** `df[c] = values`: every row gets `values` in column `c`; nothing else changes. */
    method SetColumn(c: Column, values: seq<Cell>)
      requires Valid() && |values| == rows.Length
      modifies this, rows
      ensures Valid() && rows == old(rows)
      ensures Value() == Assign(old(Value()), c, values)
    {
      ghost var before := Value();
      var i := 0;
      while i < rows.Length
        invariant rows == old(rows) && columns == old(columns) && 0 <= i <= rows.Length
        invariant forall k :: 0 <= k < i ==> rows[k] == old(rows[k])[c := values[k]]
        invariant forall k :: i <= k < rows.Length ==> rows[k] == old(rows[k])
      {
        rows[i] := rows[i][c := values[i]];
        i := i + 1;
      }
      columns := columns + {c};
      assert rows[..] == Assign(before, c, values).rows;
    }
  }

  // ---------------------------------------------------------------------------
  // Row selection: the positions a row filter keeps

  /** `idx` lists, in ascending order, exactly the positions at which `keep` holds. */
  ghost predicate Selects(idx: seq<nat>, keep: seq<bool>) {
    && (forall k :: 0 <= k < |idx| ==> idx[k] < |keep|)
    && (forall k, l :: 0 <= k < l < |idx| ==> idx[k] < idx[l])
    && (forall i :: 0 <= i < |keep| ==> (keep[i] <==> i in idx))
  }

  /** The positions at which `keep` holds, in ascending order. */
  function Positions(keep: seq<bool>): (idx: seq<nat>)
    ensures Selects(idx, keep)
  {
    if keep == [] then []
    else
      var n := |keep| - 1;
      var front := Positions(keep[..n]);
      assert forall i :: 0 <= i < n ==> keep[..n][i] == keep[i];
      if keep[n] then front + [n] else front
  }

  /** The elements of `s` at the positions `idx`, in that order. */
  function Pick<T>(s: seq<T>, idx: seq<nat>): (r: seq<T>)
    requires forall k :: 0 <= k < |idx| ==> idx[k] < |s|
  {
    seq(|idx|, k requires 0 <= k < |idx| => s[idx[k]])
  }

  // ---------------------------------------------------------------------------
  // drop_duplicates(subset=[a, b], keep="first")

  /** The key of `row` on the columns `a` and `b`. */
  function Key(row: Row, a: Column, b: Column): (Cell, Cell) {
    (Get(row, a), Get(row, b))
  }

  function Keys(rows: seq<Row>, a: Column, b: Column): seq<(Cell, Cell)> {
    seq(|rows|, i requires 0 <= i < |rows| => Key(rows[i], a, b))
  }

  /** For each position, whether no earlier position holds the same key. */
  function FirstOccurrences<K(==)>(keys: seq<K>): seq<bool> {
    seq(|keys|, i requires 0 <= i < |keys| => keys[i] !in keys[..i])
  }

  /**
    Keep-first de-duplication on the key columns `a` and `b`: the result holds the
    first row of every key, in input order, and fails on a missing key column.
   */
  function DropDuplicates(t: Table, a: Column, b: Column): (r: Result<Table, Error>)
    ensures r.Success? <==> a in t.columns && b in t.columns
    ensures r.Failure? ==> r.error == KeyError(if a in t.columns then b else a)
    ensures r.Success? ==> r.value.columns == t.columns
    ensures r.Success? ==>
      exists idx :: Selects(idx, FirstOccurrences(Keys(t.rows, a, b))) && r.value.rows == Pick(t.rows, idx)
  {
    if a !in t.columns then Failure(KeyError(a))
    else if b !in t.columns then Failure(KeyError(b))
    else
      var idx := Positions(FirstOccurrences(Keys(t.rows, a, b)));
      Success(Table(t.columns, Pick(t.rows, idx)))
  }

  /** The position of the first occurrence of `x` in `s`. */
  function FirstIndexOf<K(==)>(s: seq<K>, x: K): (i: nat)
    requires x in s
    ensures i < |s| && s[i] == x && x !in s[..i]
  {
    if s[0] == x then 0
    else
      var j := FirstIndexOf(s[1..], x);
      assert s[..j + 1] == [s[0]] + s[1..][..j];
      j + 1
  }

  /** No two rows of `rows` share a key on the columns `a` and `b`. */
  predicate UniqueKeys(rows: seq<Row>, a: Column, b: Column) {
    forall k, l :: 0 <= k < l < |rows| ==> Key(rows[k], a, b) != Key(rows[l], a, b)
  }

  /**
    What de-duplication guarantees: the kept rows have pairwise distinct keys, every
    key of the input is kept, and each kept row is the first input row with its key,
    with the kept rows in the order of those first occurrences.
   */
  lemma DropDuplicatesKeepsFirst(t: Table, a: Column, b: Column)
    requires a in t.columns && b in t.columns
    ensures var kept := DropDuplicates(t, a, b).value.rows;
      && UniqueKeys(kept, a, b)
      && (forall i :: 0 <= i < |t.rows| ==> Key(t.rows[i], a, b) in Keys(kept, a, b))
      && (forall k :: 0 <= k < |kept| ==>
            Key(kept[k], a, b) in Keys(t.rows, a, b) &&
            kept[k] == t.rows[FirstIndexOf(Keys(t.rows, a, b), Key(kept[k], a, b))])
      && (forall k, l :: 0 <= k < l < |kept| ==>
            Key(kept[k], a, b) in Keys(t.rows, a, b) && Key(kept[l], a, b) in Keys(t.rows, a, b) &&
            FirstIndexOf(Keys(t.rows, a, b), Key(kept[k], a, b)) < FirstIndexOf(Keys(t.rows, a, b), Key(kept[l], a, b)))
  {
    var keys := Keys(t.rows, a, b);
    var first := FirstOccurrences(keys);
    var idx := Positions(first);
    var kept := DropDuplicates(t, a, b).value.rows;
    assert kept == Pick(t.rows, idx);
    // each kept position is the first occurrence of its key
    forall k | 0 <= k < |kept|
      ensures Key(kept[k], a, b) in keys && FirstIndexOf(keys, Key(kept[k], a, b)) == idx[k]
    {
      var i := idx[k];
      assert first[i];
      assert keys[i] == Key(kept[k], a, b);
    }
    forall k, l | 0 <= k < l < |kept|
      ensures Key(kept[k], a, b) != Key(kept[l], a, b)
    {
      assert idx[k] < idx[l];
    }
    forall i | 0 <= i < |t.rows|
      ensures Key(t.rows[i], a, b) in Keys(kept, a, b)
    {
      var j := FirstIndexOf(keys, keys[i]);
      assert first[j];
      var k :| 0 <= k < |idx| && idx[k] == j;
      assert Keys(kept, a, b)[k] == keys[i];
    }
  }

  // ---------------------------------------------------------------------------
  // dropna(subset=[c])

  /** For each row, whether its cell in column `c` is present. */
  function Present(rows: seq<Row>, c: Column): seq<bool> {
    seq(|rows|, i requires 0 <= i < |rows| => Get(rows[i], c).Some?)
  }

  /**
    Dropping every row whose cell in `c` is missing: the result holds exactly the other
    rows, unchanged and in input order, and fails on a missing column.
   */
  function DropMissing(t: Table, c: Column): (r: Result<Table, Error>)
    ensures r.Success? <==> c in t.columns
    ensures r.Failure? ==> r.error == KeyError(c)
    ensures r.Success? ==> r.value.columns == t.columns
    ensures r.Success? ==> exists idx :: Selects(idx, Present(t.rows, c)) && r.value.rows == Pick(t.rows, idx)
    ensures r.Success? ==> forall k :: 0 <= k < |r.value.rows| ==> Get(r.value.rows[k], c).Some?
    ensures r.Success? ==> (r.value.rows == [] <==> forall i :: 0 <= i < |t.rows| ==> Get(t.rows[i], c).None?)
  {
    if c !in t.columns then Failure(KeyError(c))
    else
      var keep := Present(t.rows, c);
      var idx := Positions(keep);
      assert forall i :: 0 <= i < |t.rows| && Get(t.rows[i], c).Some? ==> keep[i] && i in idx;
      assert forall k :: 0 <= k < |idx| ==> keep[idx[k]];
      assert idx != [] ==> Get(t.rows[idx[0]], c).Some?;
      assert |Pick(t.rows, idx)| == |idx|;
      Success(Table(t.columns, Pick(t.rows, idx)))
  }

  // ---------------------------------------------------------------------------
  // pivot(index=index, columns=group) followed by selecting one value column

  /** One plotted point: the index value and the value-column cell of one row. */
  datatype Point = Point(x: Cell, y: Cell)

  /** One series per label of the `columns` column (one per wire). */
  type Series = map<Cell, seq<Point>>

  /** A pivoted table: `rows`, keyed by (`index`, `group`), with `values` as value columns. */
  datatype Pivoted = Pivoted(index: Column, group: Column, values: set<Column>, rows: seq<Row>)

  /** pivot: fails on a missing label column and on a repeated (index, group) key. */
  function Pivot(t: Table, index: Column, group: Column): (r: Result<Pivoted, Error>)
    ensures r.Success? <==> index in t.columns && group in t.columns && UniqueKeys(t.rows, index, group)
    ensures r.Failure? && index in t.columns && group in t.columns ==> r.error == DuplicateEntries
    ensures r.Success? ==>
      r.value == Pivoted(index, group, t.columns - {index, group}, t.rows) && UniqueKeys(r.value.rows, index, group)
  {
    if index !in t.columns then Failure(KeyError(index))
    else if group !in t.columns then Failure(KeyError(group))
    else if !UniqueKeys(t.rows, index, group) then Failure(DuplicateEntries)
    else Success(Pivoted(index, group, t.columns - {index, group}, t.rows))
  }

  /** The labels of the `group` column. */
  function Labels(rows: seq<Row>, group: Column): set<Cell> {
    set i | 0 <= i < |rows| :: Get(rows[i], group)
  }

  /** For each row, whether its `group` label is `w`. */
  function LabelIs(rows: seq<Row>, group: Column, w: Cell): seq<bool> {
    seq(|rows|, i requires 0 <= i < |rows| => Get(rows[i], group) == w)
  }

  /** The points of the rows labelled `w`, in row order. */
  function SeriesOf(p: Pivoted, name: Column, w: Cell): seq<Point> {
    var idx := Positions(LabelIs(p.rows, p.group, w));
    seq(|idx|, k requires 0 <= k < |idx| => Point(Get(p.rows[idx[k]], p.index), Get(p.rows[idx[k]], name)))
  }

  /** One series per label present in the pivoted rows. */
  function SeriesMap(p: Pivoted, name: Column): (s: Series)
    ensures s.Keys == Labels(p.rows, p.group)
  {
    map w | w in Labels(p.rows, p.group) :: SeriesOf(p, name, w)
  }

  /**
    Whether `pivoted[name]` exists. The pivot's columns are (value column, label) pairs,
    one per label present in its rows, so a pivot of no rows has no columns at all.
   */
  predicate Selectable(p: Pivoted, name: Column) {
    name in p.values && p.rows != []
  }

  /** `pivoted[name]`: one series per label; a name with no pivot column is a KeyError. */
  function Select(p: Pivoted, name: Column): (r: Result<Series, Error>)
    ensures r.Success? <==> name in p.values && p.rows != []
    ensures r.Failure? ==> r.error == KeyError(name)
    ensures r.Success? ==> r.value == SeriesMap(p, name) && r.value.Keys != {}
  {
    if !Selectable(p, name) then Failure(KeyError(name))
    else
      assert Get(p.rows[0], p.group) in Labels(p.rows, p.group);
      Success(SeriesMap(p, name))
  }

  /** Row `row` contributes the point (x, y) to the series of label `w`. */
  ghost predicate RowPlots(p: Pivoted, row: Row, name: Column, w: Cell, x: Cell, y: Cell) {
    Get(row, p.group) == w && Get(row, p.index) == x && Get(row, name) == y
  }

  /** Every point of a series comes from a row with its label. */
  lemma SeriesPointFromRow(p: Pivoted, name: Column, w: Cell, x: Cell, y: Cell)
    requires var s := SeriesMap(p, name); w in s && Point(x, y) in s[w]
    ensures exists i :: 0 <= i < |p.rows| && RowPlots(p, p.rows[i], name, w, x, y)
  {
    var s: Series := SeriesMap(p, name);
    var idx := Positions(LabelIs(p.rows, p.group, w));
    var k :| 0 <= k < |s[w]| && s[w][k] == Point(x, y);
    var i := idx[k];
    assert LabelIs(p.rows, p.group, w)[i];
    assert RowPlots(p, p.rows[i], name, w, x, y);
  }

  /** Every row contributes its point to the series of its label. */
  lemma RowPointInSeries(p: Pivoted, name: Column, i: nat, w: Cell, x: Cell, y: Cell)
    requires i < |p.rows| && RowPlots(p, p.rows[i], name, w, x, y)
    ensures var s := SeriesMap(p, name); w in s && Point(x, y) in s[w]
  {
    var s: Series := SeriesMap(p, name);
    var idx := Positions(LabelIs(p.rows, p.group, w));
    assert w in Labels(p.rows, p.group);
    assert LabelIs(p.rows, p.group, w)[i];
    var k :| 0 <= k < |idx| && idx[k] == i;
    assert s[w][k] == Point(x, y);
  }

  /** A series holds a point exactly for each row with its label. */
  lemma SeriesPoints(p: Pivoted, name: Column, w: Cell, x: Cell, y: Cell)
    ensures var s := SeriesMap(p, name);
      (w in s && Point(x, y) in s[w]) <==>
      exists i :: 0 <= i < |p.rows| && Get(p.rows[i], p.group) == w && Get(p.rows[i], p.index) == x && Get(p.rows[i], name) == y
  {
    var s: Series := SeriesMap(p, name);
    if w in s && Point(x, y) in s[w] {
      SeriesPointFromRow(p, name, w, x, y);
    }
    if i :| 0 <= i < |p.rows| && RowPlots(p, p.rows[i], name, w, x, y) {
      RowPointInSeries(p, name, i, w, x, y);
    }
  }

  /** The kept rows contributing a point are exactly the picked rows contributing it. */
  lemma PickedRowPlots(p: Pivoted, rows: seq<Row>, keep: seq<bool>, idx: seq<nat>, name: Column, w: Cell, x: Cell, y: Cell)
    requires Selects(idx, keep) && |keep| == |rows| && p.rows == Pick(rows, idx)
    ensures (exists k :: 0 <= k < |p.rows| && RowPlots(p, p.rows[k], name, w, x, y)) <==>
      (exists i :: 0 <= i < |rows| && keep[i] && RowPlots(p, rows[i], name, w, x, y))
  {
    if k :| 0 <= k < |p.rows| && RowPlots(p, p.rows[k], name, w, x, y) {
      assert keep[idx[k]] && rows[idx[k]] == p.rows[k];
    }
    if i :| 0 <= i < |rows| && keep[i] && RowPlots(p, rows[i], name, w, x, y) {
      var k :| 0 <= k < |idx| && idx[k] == i;
      assert p.rows[k] == rows[i];
    }
  }

  /**
    Pivoting rows picked out of `rows`: a series holds a point exactly for each kept
    row of `rows` with its label.
   */
  lemma SeriesOfSelection(p: Pivoted, rows: seq<Row>, keep: seq<bool>, idx: seq<nat>, name: Column, w: Cell, x: Cell, y: Cell)
    requires Selects(idx, keep) && |keep| == |rows|
    requires p.rows == Pick(rows, idx)
    ensures var s := SeriesMap(p, name);
      (w in s && Point(x, y) in s[w]) <==>
      exists i :: 0 <= i < |rows| && keep[i] && Get(rows[i], p.group) == w && Get(rows[i], p.index) == x && Get(rows[i], name) == y
  {
    SeriesPoints(p, name, w, x, y);
    PickedRowPlots(p, rows, keep, idx, name, w, x, y);
  }

  /** With unique keys, a series has at most one point per index value. */
  lemma SeriesDistinctX(p: Pivoted, name: Column, w: Cell)
    requires UniqueKeys(p.rows, p.index, p.group)
    ensures var s := SeriesMap(p, name);
      w in s ==> forall k, l :: 0 <= k < l < |s[w]| ==> s[w][k].x != s[w][l].x
  {
    var s: Series := SeriesMap(p, name);
    var keep := LabelIs(p.rows, p.group, w);
    var idx := Positions(keep);
    if w in s {
      forall k, l | 0 <= k < l < |s[w]|
        ensures s[w][k].x != s[w][l].x
      {
        assert idx[k] < idx[l] && keep[idx[k]] && keep[idx[l]];
        assert Key(p.rows[idx[k]], p.index, p.group) != Key(p.rows[idx[l]], p.index, p.group);
      }
    }
  }
}
