/**
 * The cleanup half of `atualizar_ntnb` (app.py): the tables that `pd.read_html`
 * found on the page are concatenated, passed through `to_numpy().reshape`,
 * rebuilt as a DataFrame, stripped of the decoration columns and the five
 * caption rows, relabelled, and re-indexed by maturity. Cells are values of an
 * abstract type `T`: the locale-aware parsing of their text is not modelled.
 */
module Extraction {
  import opened Wrappers

  /** The ways the cleanup can fail, each an exception of the source. */
  datatype ExtractError =
    | NoTables          // no table on the page: `pd.read_html` raises ValueError before `pd.concat` runs
    | MismatchedWidths  // tables of different widths (see README)
    | ReshapeFailed     // numpy cannot reshape to (-1, width), as for width 0
    | TooFewColumns     // `ntnb.columns[[0, 1, 3, 4, 6, 7, 8, 9, 10]]` raises IndexError
    | TooFewRows        // `ntnb.drop([0, 1, 2, 3, 4])` raises KeyError
    | MissingColumn     // `set_index` of a label that is not a column raises KeyError
    | RepeatedColumn    // `set_index` of a label that names several columns

  /** A table as pandas parsed it: a column count and rows of that many cells. */
  datatype Table<T> = Table(width: nat, rows: seq<seq<T>>)

  predicate Rectangular<T>(t: Table<T>) {
    forall i :: 0 <= i < |t.rows| ==> |t.rows[i]| == t.width
  }

  predicate AllRectangular<T>(tables: seq<Table<T>>) {
    forall i :: 0 <= i < |tables| ==> Rectangular(tables[i])
  }

  predicate SameWidth<T>(tables: seq<Table<T>>, w: nat) {
    forall i :: 0 <= i < |tables| ==> tables[i].width == w
  }

  function RowCount<T>(tables: seq<Table<T>>): nat {
    if tables == [] then 0 else |tables[0].rows| + RowCount(tables[1..])
  }

  /** The rows of all tables, first table first, each table's rows in order. */
  function Stack<T>(tables: seq<Table<T>>): (rows: seq<seq<T>>)
    ensures |rows| == RowCount(tables)
  {
    if tables == [] then [] else tables[0].rows + Stack(tables[1..])
  }

  /** `pd.concat(tabela)`: one table holding the rows of all of them. */
  function Concat<T>(tables: seq<Table<T>>): (r: Result<Table<T>, ExtractError>)
    requires AllRectangular(tables)
    ensures r.Ok? <==> |tables| > 0 && SameWidth(tables, tables[0].width)
    ensures r.Err? ==> r.error == (if tables == [] then NoTables else MismatchedWidths)
    ensures r.Ok? ==> Rectangular(r.value) && r.value.width == tables[0].width
    ensures r.Ok? ==> r.value.rows == Stack(tables) && |r.value.rows| == RowCount(tables)
  {
    if tables == [] then Err(NoTables)
    else if !SameWidth(tables, tables[0].width) then Err(MismatchedWidths)
    else
      StackRectangular(tables, tables[0].width);
      Ok(Table(tables[0].width, Stack(tables)))
  }

  lemma {:induction false} StackRectangular<T>(tables: seq<Table<T>>, w: nat)
    requires AllRectangular(tables) && SameWidth(tables, w)
    ensures forall i :: 0 <= i < |Stack(tables)| ==> |Stack(tables)[i]| == w
  {
    if tables != [] {
      StackRectangular(tables[1..], w);
    }
  }

  /** Stacking two lists of tables one after the other keeps both in order. */
  lemma {:induction false} StackAppend<T>(a: seq<Table<T>>, b: seq<Table<T>>)
    ensures Stack(a + b) == Stack(a) + Stack(b)
  {
    if a != [] {
      assert (a + b)[0] == a[0] && (a + b)[1..] == a[1..] + b;
      StackAppend(a[1..], b);
      assert Stack(a + b) == a[0].rows + (Stack(a[1..]) + Stack(b));
    } else {
      assert a + b == b;
    }
  }

  /** Row `j` of table `i` is row `RowCount(tables[..i]) + j` of the stack. */
  lemma {:induction false} StackIndex<T>(tables: seq<Table<T>>, i: nat, j: nat)
    requires i < |tables| && j < |tables[i].rows|
    ensures RowCount(tables[..i]) + j < |Stack(tables)|
    ensures Stack(tables)[RowCount(tables[..i]) + j] == tables[i].rows[j]
  {
    assert tables == tables[..i] + tables[i..];
    StackAppend(tables[..i], tables[i..]);
    assert Stack(tables[..i]) == Stack(tables)[..RowCount(tables[..i])];
  }

  /** The cells of a grid in row-major order, as `to_numpy()` lays them out. */
  function Flatten<T>(rows: seq<seq<T>>): seq<T> {
    if rows == [] then [] else rows[0] + Flatten(rows[1..])
  }

  /** Cuts `m * w` cells into `m` consecutive rows of `w` cells. */
  function Chunk<T>(cells: seq<T>, m: nat, w: nat): (rows: seq<seq<T>>)
    requires |cells| == m * w
    ensures |rows| == m && forall i :: 0 <= i < m ==> |rows[i]| == w
  {
    if m == 0 then [] else [cells[..w]] + Chunk(cells[w..], m - 1, w)
  }

  /** A grid of `n` rows of `w` cells has `n * w` cells. */
  lemma {:induction false} FlattenLength<T>(rows: seq<seq<T>>, w: nat)
    requires forall i :: 0 <= i < |rows| ==> |rows[i]| == w
    ensures |Flatten(rows)| == |rows| * w
  {
    if rows != [] {
      FlattenLength(rows[1..], w);
    }
  }

  /** Cutting the cells of a rectangular grid back into rows gives the grid back. */
  lemma {:induction false} ChunkFlatten<T>(rows: seq<seq<T>>, w: nat)
    requires forall i :: 0 <= i < |rows| ==> |rows[i]| == w
    ensures |Flatten(rows)| == |rows| * w
    ensures Chunk(Flatten(rows), |rows|, w) == rows
  {
    FlattenLength(rows, w);
    if rows != [] {
      ChunkFlatten(rows[1..], w);
      var f := Flatten(rows);
      assert f[..w] == rows[0] && f[w..] == Flatten(rows[1..]);
    }
  }

  /** `to_numpy().reshape(-1, shape[-1])`: the identity on a grid of positive width. */
  function Reshape<T>(t: Table<T>): (r: Result<Table<T>, ExtractError>)
    requires Rectangular(t)
    ensures r.Ok? <==> t.width > 0
    ensures r.Ok? ==> r.value == t
    ensures r.Err? ==> r.error == ReshapeFailed
  {
    var cells := Flatten(t.rows);
    ChunkFlatten(t.rows, t.width);
    // numpy infers the `-1` as size / width, which for a grid is its row count
    if t.width == 0 then Err(ReshapeFailed)
    else Ok(Table(t.width, Chunk(cells, |t.rows|, t.width)))
  }

  /** A column label: a position, as pandas numbers columns by default, or a name. */
  datatype ColumnLabel = Position(n: nat) | Named(name: string)

  const MaturityColumn := "Data Vencimento"
  const RateColumn := "Tx. NTN-B Indicativa"
  /** The positions of the columns that are dropped (app.py line 62). */
  const DroppedPositions: seq<nat> := [0, 1, 3, 4, 6, 7, 8, 9, 10]
  /** The labels of the caption rows that are dropped (app.py line 63). */
  const CaptionRows: set<int> := {0, 1, 2, 3, 4}

  predicate Increasing(s: seq<int>) {
    forall i, j :: 0 <= i < j < |s| ==> s[i] < s[j]
  }

  /** The positions, in order, of the labels that are not in `dropped`. */
  function Kept<L>(labels: seq<L>, dropped: set<L>): (ks: seq<int>)
    ensures forall k :: 0 <= k < |ks| ==> 0 <= ks[k] < |labels|
    decreases |labels|
  {
    if labels == [] then []
    else
      var last := |labels| - 1;
      Kept(labels[..last], dropped) + (if labels[last] in dropped then [] else [last])
  }

  /** `Kept` lists, in increasing order, exactly the positions whose labels are not dropped. */
  lemma {:induction false} KeptPositions<L>(labels: seq<L>, dropped: set<L>)
    ensures Increasing(Kept(labels, dropped))
    ensures forall x :: x in Kept(labels, dropped) <==> 0 <= x < |labels| && labels[x] !in dropped
    decreases |labels|
  {
    if labels != [] {
      var last := |labels| - 1;
      KeptPositions(labels[..last], dropped);
    }
  }

  /** The elements of `s` at the positions `ks`, in that order. */
  function Select<X>(s: seq<X>, ks: seq<int>): (r: seq<X>)
    requires forall k :: 0 <= k < |ks| ==> 0 <= ks[k] < |s|
    ensures |r| == |ks| && forall k :: 0 <= k < |ks| ==> r[k] == s[ks[k]]
  {
    seq(|ks|, k requires 0 <= k < |ks| => s[ks[k]])
  }

  /** Two increasing sequences with the same elements are the same sequence. */
  lemma {:induction false} IncreasingUnique(a: seq<int>, b: seq<int>)
    requires Increasing(a) && Increasing(b)
    requires forall x :: x in a <==> x in b
    ensures a == b
  {
    assert a != [] ==> a[0] in a;
    assert b != [] ==> b[0] in b;
    if a != [] && b != [] {
      assert a[0] == b[0] by {
        var i :| 0 <= i < |a| && a[i] == b[0];
        var j :| 0 <= j < |b| && b[j] == a[0];
        assert a[0] <= a[i] && b[0] <= b[j];
      }
      forall x
        ensures x in a[1..] <==> x in b[1..]
      {
        assert x in a[1..] <==> x in a && x != a[0];
        assert x in b[1..] <==> x in b && x != b[0];
      }
      IncreasingUnique(a[1..], b[1..]);
      assert a == [a[0]] + a[1..] && b == [b[0]] + b[1..];
    }
  }

  /** `s` with every row cut down to the columns at `ks`. */
  function SelectEach<X>(rows: seq<seq<X>>, ks: seq<int>): (r: seq<seq<X>>)
    requires forall i, k :: 0 <= i < |rows| && 0 <= k < |ks| ==> 0 <= ks[k] < |rows[i]|
    ensures |r| == |rows| && forall i :: 0 <= i < |rows| ==> r[i] == Select(rows[i], ks)
  {
    seq(|rows|, i requires 0 <= i < |rows| => Select(rows[i], ks))
  }

  /** `columns[positions]`: the labels at the given positions. */
  function LabelsAt(columns: seq<ColumnLabel>, positions: seq<nat>): (labels: set<ColumnLabel>)
    requires forall k :: 0 <= k < |positions| ==> positions[k] < |columns|
    ensures forall k :: 0 <= k < |positions| ==> columns[positions[k]] in labels
    ensures forall l :: l in labels ==> exists k :: 0 <= k < |positions| && columns[positions[k]] == l
  {
    set k | 0 <= k < |positions| :: columns[positions[k]]
  }

  /** `rename(columns=mapping)`: labels in the mapping are replaced, the others kept. */
  function Relabel(columns: seq<ColumnLabel>, mapping: map<ColumnLabel, ColumnLabel>): (r: seq<ColumnLabel>)
    ensures |r| == |columns|
    ensures forall j :: 0 <= j < |columns| && columns[j] in mapping ==> r[j] == mapping[columns[j]]
    ensures forall j :: 0 <= j < |columns| && columns[j] !in mapping ==> r[j] == columns[j]
  {
    seq(|columns|, j requires 0 <= j < |columns| => if columns[j] in mapping then mapping[columns[j]] else columns[j])
  }

  /** The first position of `key` among `labels`. */
  function Find<L(==)>(labels: seq<L>, key: L): (p: nat)
    requires key in labels
    ensures p < |labels| && labels[p] == key
    ensures forall j :: 0 <= j < p ==> labels[j] != key
  {
    if labels[0] == key then 0 else 1 + Find(labels[1..], key)
  }

  function PositionLabels(w: nat): seq<ColumnLabel> {
    seq(w, j requires 0 <= j < w => Position(j))
  }

  function RowLabels(n: nat): seq<int> {
    seq(n, i => i)
  }

  /** The series the cleanup returns: the maturity index and the remaining columns. */
  datatype RateSeries<T> = RateSeries(maturities: seq<T>, columns: seq<ColumnLabel>, rows: seq<seq<T>>)

  /**
   * What `set_index(key)` makes of a frame with these columns and cells: it
   * fails unless exactly one column carries `key`; otherwise that column's
   * cells become the maturities, in row order, and the other columns stay, in
   * their order.
   */
  ghost predicate IndexedBy<T>(columns: seq<ColumnLabel>, cells: seq<seq<T>>, key: ColumnLabel,
                               r: Result<RateSeries<T>, ExtractError>)
    requires forall i :: 0 <= i < |cells| ==> |cells[i]| == |columns|
  {
    && (r.Ok? <==> key in columns && |Kept(columns, {key})| == |columns| - 1)
    && (r.Err? ==> r.error == if key in columns then RepeatedColumn else MissingColumn)
    && (r.Ok? ==>
      var others := Kept(columns, {key});
      && |r.value.maturities| == |r.value.rows| == |cells|
      && (forall i :: 0 <= i < |cells| ==> r.value.maturities[i] == cells[i][Find(columns, key)])
      && key !in r.value.columns && |r.value.columns| == |columns| - 1
      && r.value.columns == Select(columns, others) && r.value.rows == SelectEach(cells, others))
  }

  /**
   * The DataFrame `ntnb` that the cleanup edits in place: its column labels,
   * its row labels and its cells, row by row.
   */
  class Frame<T> {
    var columns: seq<ColumnLabel>
    var index: seq<int>
    var cells: seq<seq<T>>

    ghost predicate Valid()
      reads this
    {
      |cells| == |index| && forall i :: 0 <= i < |cells| ==> |cells[i]| == |columns|
    }

    /** `pd.DataFrame(grid)`: columns labelled 0 .. width-1, rows labelled 0 .. n-1. */
    constructor (grid: Table<T>)
      requires Rectangular(grid)
      ensures Valid()
      ensures columns == PositionLabels(grid.width) && index == RowLabels(|grid.rows|) && cells == grid.rows
    {
      columns := PositionLabels(grid.width);
      index := RowLabels(|grid.rows|);
      cells := grid.rows;
    }

    /**
     * `drop(columns[positions], axis=1, inplace=True)`: every column whose label
     * stands at one of the positions goes; a position past the last column
     * raises IndexError and leaves the frame as it was.
     */
    method DropColumnsAt(positions: seq<nat>) returns (ok: bool)
      requires Valid()
      modifies this
      ensures Valid() && index == old(index)
      ensures ok <==> forall k :: 0 <= k < |positions| ==> positions[k] < |old(columns)|
      ensures ok ==>
        var keep := Kept(old(columns), LabelsAt(old(columns), positions));
        columns == Select(old(columns), keep) && cells == SelectEach(old(cells), keep)
      ensures !ok ==> columns == old(columns) && cells == old(cells)
    {
      ok := forall k :: 0 <= k < |positions| ==> positions[k] < |columns|;
      if ok {
        var keep := Kept(columns, LabelsAt(columns, positions));
        columns, cells := Select(columns, keep), SelectEach(cells, keep);
      }
    }

    /**
     * `drop(labels, inplace=True)`: every row whose label is listed goes; a
     * label that is not a row label raises KeyError and leaves the frame as it was.
     */
    method DropRows(labels: set<int>) returns (ok: bool)
      requires Valid()
      modifies this
      ensures Valid() && columns == old(columns)
      ensures ok <==> forall l :: l in labels ==> l in old(index)
      ensures ok ==>
        var keep := Kept(old(index), labels);
        index == Select(old(index), keep) && cells == Select(old(cells), keep)
      ensures !ok ==> index == old(index) && cells == old(cells)
    {
      ok := forall l | l in labels :: l in index;
      if ok {
        var keep := Kept(index, labels);
        index, cells := Select(index, keep), Select(cells, keep);
      }
    }

    /** `rename(columns=mapping, inplace=True)`. */
    method Rename(mapping: map<ColumnLabel, ColumnLabel>)
      requires Valid()
      modifies this
      ensures Valid() && index == old(index) && cells == old(cells)
      ensures columns == Relabel(old(columns), mapping)
    {
      columns := Relabel(columns, mapping);
    }

    /**
     * `set_index(key, inplace=True)`: the column labelled `key` becomes the
     * index and leaves the columns; KeyError when no column has that label.
     * The re-indexed frame is returned as a value, since its index changes type.
     */
    method SetIndex(key: ColumnLabel) returns (r: Result<RateSeries<T>, ExtractError>)
      requires Valid()
      ensures IndexedBy(columns, cells, key, r)
    {
      var others := Kept(columns, {key});
      KeptPositions(columns, {key});
      if key !in columns {
        return Err(MissingColumn);
      }
      if |others| != |columns| - 1 {
        return Err(RepeatedColumn);
      }
      var p := Find(columns, key);
      var rows := cells;
      r := Ok(RateSeries(
        seq(|rows|, i requires 0 <= i < |rows| => rows[i][p]),
        Select(columns, others),
        SelectEach(rows, others)));
    }
  }

  /** The positions of the eleven-column layout that survive the column drop. */
  function DataPositions(w: nat): seq<int>
    requires w >= 11
  {
    [2, 5] + seq(w - 11, j requires 0 <= j < w - 11 => j + 11)
  }

  /** A row as it is after the column drop: maturity, rate, then any columns past the eleventh. */
  function Trim<T>(row: seq<T>): (t: seq<T>)
    requires |row| >= 11
    ensures |t| == |row| - 9 && t[0] == row[2] && t[1..] == [row[5]] + row[11..]
  {
    [row[2], row[5]] + row[11..]
  }

  /** The column labels of the series after the maturity column became the index. */
  function SeriesColumns(w: nat): (c: seq<ColumnLabel>)
    requires w >= 11
    ensures |c| == w - 10
  {
    [Named(RateColumn)] + seq(w - 11, j requires 0 <= j < w - 11 => Position(j + 11))
  }

  /**
   * What the cleanup of app.py lines 53-70 returns, stated directly on the
   * stacked rows: from the sixth row on, the maturity (column 2) becomes the
   * index and the rate (column 5) the first column.
   */
  function Cleaned<T>(tables: seq<Table<T>>): Result<RateSeries<T>, ExtractError>
    requires AllRectangular(tables)
  {
    match Concat(tables)
    case Err(e) => Err(e)
    case Ok(t) => if t.width == 0 then Err(ReshapeFailed) else CleanedGrid(t)
  }

  /** The part of `Cleaned` that works on the rebuilt frame (app.py lines 59-70). */
  function CleanedGrid<T>(t: Table<T>): Result<RateSeries<T>, ExtractError>
    requires Rectangular(t)
  {
    if t.width < 11 then Err(TooFewColumns)
    else if |t.rows| < 5 then Err(TooFewRows)
    else
      var n := |t.rows| - 5;
      Ok(RateSeries(
        seq(n, k requires 0 <= k < n => t.rows[k + 5][2]),
        SeriesColumns(t.width),
        seq(n, k requires 0 <= k < n => [t.rows[k + 5][5]] + t.rows[k + 5][11..])))
  }

  /** When the cleanup succeeds: one or more tables of one width, at least eleven columns and five rows. */
  lemma CleanedSucceeds<T>(tables: seq<Table<T>>)
    requires AllRectangular(tables)
    ensures Cleaned(tables).Ok? <==>
      |tables| > 0 && SameWidth(tables, tables[0].width) && tables[0].width >= 11 && RowCount(tables) >= 5
  {
  }

  /**
   * Row `j` of table `i` lands in the cleaned series at its place in the
   * concatenation less the five caption rows: the tables keep their order and
   * so do the rows of each.
   */
  lemma {:induction false} CleanedKeepsOrder<T>(tables: seq<Table<T>>, i: nat, j: nat)
    requires AllRectangular(tables) && Cleaned(tables).Ok?
    requires i < |tables| && j < |tables[i].rows| && RowCount(tables[..i]) + j >= 5
    ensures var k := RowCount(tables[..i]) + j - 5;
      && k < |Cleaned(tables).value.rows| == |Cleaned(tables).value.maturities|
      && Cleaned(tables).value.maturities[k] == tables[i].rows[j][2]
      && Cleaned(tables).value.rows[k] == [tables[i].rows[j][5]] + tables[i].rows[j][11..]
  {
    StackIndex(tables, i, j);
  }

  /** Dropping the labels at positions 0, 1, 3, 4, 6, 7, 8, 9, 10 of a default-labelled frame keeps 2, 5 and 11 on. */
  lemma KeptColumns(w: nat)
    requires w >= 11
    ensures forall k :: 0 <= k < |DroppedPositions| ==> DroppedPositions[k] < |PositionLabels(w)|
    ensures Kept(PositionLabels(w), LabelsAt(PositionLabels(w), DroppedPositions)) == DataPositions(w)
  {
    var labels := PositionLabels(w);
    var dropped := LabelsAt(labels, DroppedPositions);
    var ks := Kept(labels, dropped);
    var expected := DataPositions(w);
    KeptPositions(labels, dropped);
    DroppedPositionsFit(w);
    LabelsAtPositions(w, DroppedPositions);
    DataPositionsMembers(w);
    DroppedPositionsMembers();
    IncreasingUnique(ks, expected);
  }

  /** The dropped positions are 0 to 10 except 2 and 5. */
  lemma DroppedPositionsMembers()
    ensures forall x :: x in DroppedPositions <==> 0 <= x <= 10 && x != 2 && x != 5
  {
    forall x
      ensures x in DroppedPositions <==> 0 <= x <= 10 && x != 2 && x != 5
    {
      if x in DroppedPositions {
        var k :| 0 <= k < |DroppedPositions| && DroppedPositions[k] == x;
        assert k == 0 || k == 1 || k == 2 || k == 3 || k == 4 || k == 5 || k == 6 || k == 7 || k == 8;
      }
      if 0 <= x <= 10 && x != 2 && x != 5 {
        assert DroppedPositions[if x < 2 then x else if x < 5 then x - 1 else x - 2] == x;
      }
    }
  }

  /** On a default-labelled frame, the label at a listed position is that position's label. */
  lemma LabelsAtPositions(w: nat, positions: seq<nat>)
    requires forall k :: 0 <= k < |positions| ==> positions[k] < w
    ensures forall x :: 0 <= x < w ==> (Position(x) in LabelsAt(PositionLabels(w), positions) <==> x in positions)
  {
    var labels := PositionLabels(w);
    forall x | 0 <= x < w
      ensures Position(x) in LabelsAt(labels, positions) <==> x in positions
    {
      if Position(x) in LabelsAt(labels, positions) {
        var k :| 0 <= k < |positions| && labels[positions[k]] == Position(x);
        assert positions[k] == x;
      }
      if x in positions {
        var k :| 0 <= k < |positions| && positions[k] == x;
        assert labels[positions[k]] == Position(x);
      }
    }
  }

  /** The surviving positions are 2, 5 and 11 onward, in increasing order. */
  lemma DataPositionsMembers(w: nat)
    requires w >= 11
    ensures Increasing(DataPositions(w))
    ensures forall x :: x in DataPositions(w) <==> x == 2 || x == 5 || 11 <= x < w
  {
    var ps := DataPositions(w);
    forall x | 11 <= x < w
      ensures x in ps
    {
      assert ps[x - 9] == x;
    }
  }

  /** Selecting every position from `m` on is taking the suffix. */
  lemma SelectSuffix<X>(s: seq<X>, m: nat)
    requires m <= |s|
    ensures Select(s, seq(|s| - m, k requires 0 <= k < |s| - m => k + m)) == s[m..]
  {
  }

  /** Dropping the row labels 0 to 4 of a default-labelled frame keeps the rows from the sixth on. */
  lemma KeptRows(n: nat)
    requires n >= 5
    ensures Kept(RowLabels(n), CaptionRows) == seq(n - 5, k requires 0 <= k < n - 5 => k + 5)
  {
    var ks := Kept(RowLabels(n), CaptionRows);
    var expected := seq(n - 5, k requires 0 <= k < n - 5 => k + 5);
    KeptPositions(RowLabels(n), CaptionRows);
    forall x
      ensures x in ks <==> x in expected
    {
      if 5 <= x < n {
        assert expected[x - 5] == x;
      }
    }
    IncreasingUnique(ks, expected);
  }

  /** After the rename only the first column carries the maturity label. */
  lemma KeptRenamed(w: nat, columns: seq<ColumnLabel>)
    requires w >= 11 && columns == [Named(MaturityColumn)] + SeriesColumns(w)
    ensures Kept(columns, {Named(MaturityColumn)}) == seq(|columns| - 1, k requires 0 <= k < |columns| - 1 => k + 1)
  {
    SeriesColumnsAvoidMaturity(w);
    forall x | 1 <= x < |columns|
      ensures columns[x] != Named(MaturityColumn)
    {
      assert columns[x] == SeriesColumns(w)[x - 1];
    }
    KeptAllButFirst(columns, Named(MaturityColumn));
  }

  /** No series column carries the maturity label. */
  lemma SeriesColumnsAvoidMaturity(w: nat)
    requires w >= 11
    ensures forall j :: 0 <= j < |SeriesColumns(w)| ==> SeriesColumns(w)[j] != Named(MaturityColumn)
  {
    assert RateColumn[0] != MaturityColumn[0];
    forall j | 1 <= j < |SeriesColumns(w)|
      ensures SeriesColumns(w)[j] == Position(j + 10)
    {
    }
  }

  /** When only the first label is dropped, every later position is kept. */
  lemma {:induction false} KeptAllButFirst<L>(labels: seq<L>, key: L)
    requires |labels| >= 1 && labels[0] == key
    requires forall x :: 1 <= x < |labels| ==> labels[x] != key
    ensures Kept(labels, {key}) == seq(|labels| - 1, k requires 0 <= k < |labels| - 1 => k + 1)
    decreases |labels|
  {
    var last := |labels| - 1;
    if last > 0 {
      var front := labels[..last];
      KeptAllButFirst(front, key);
      assert labels[last] !in {key};
      assert Kept(labels, {key}) == Kept(front, {key}) + [last];
    }
  }

  /** Positions 0 to 10 exist exactly when the frame has at least eleven columns. */
  lemma DroppedPositionsFit(w: nat)
    ensures (forall k :: 0 <= k < |DroppedPositions| ==> DroppedPositions[k] < w) <==> w >= 11
  {
    assert DroppedPositions[8] == 10;
  }

  /** Row labels 0 to 4 exist exactly when the frame has at least five rows. */
  lemma CaptionRowsPresent(n: nat)
    ensures (forall l :: l in CaptionRows ==> l in RowLabels(n)) <==> n >= 5
  {
    if n >= 5 {
      forall l | l in CaptionRows
        ensures l in RowLabels(n)
      {
        assert RowLabels(n)[l] == l;
      }
    } else {
      assert 4 in CaptionRows;
    }
  }

  /** The labels given to the two data columns (app.py line 66). */
  const DataNames: map<ColumnLabel, ColumnLabel> :=
    map[Position(2) := Named(MaturityColumn), Position(5) := Named(RateColumn)]

  /** The frame's labels and rows after the column drop. */
  lemma DropColumnsEffect<T>(rows: seq<seq<T>>, w: nat)
    requires w >= 11 && forall i :: 0 <= i < |rows| ==> |rows[i]| == w
    ensures Select(PositionLabels(w), DataPositions(w)) == [Position(2), Position(5)] + SeriesColumns(w)[1..]
    ensures SelectEach(rows, DataPositions(w)) == seq(|rows|, i requires 0 <= i < |rows| => Trim(rows[i]))
  {
    var trimmed := seq(|rows|, i requires 0 <= i < |rows| => Trim(rows[i]));
    forall i | 0 <= i < |rows|
      ensures Select(rows[i], DataPositions(w)) == trimmed[i]
    {
      assert Select(rows[i], DataPositions(w))[2..] == rows[i][11..];
    }
  }

  /** The frame's labels after the rename. */
  lemma RenameEffect(w: nat)
    requires w >= 11
    ensures Relabel([Position(2), Position(5)] + SeriesColumns(w)[1..], DataNames) == RenamedColumns(w)
  {
  }

  /** The labels the frame carries after the rename. */
  function RenamedColumns(w: nat): (c: seq<ColumnLabel>)
    requires w >= 11
    ensures |c| == w - 9
  {
    [Named(MaturityColumn)] + SeriesColumns(w)
  }

  /** `set_index` of the maturity label keeps every column but the first, so it leaves the series columns. */
  lemma SetIndexColumns(w: nat)
    requires w >= 11
    ensures |Kept(RenamedColumns(w), {Named(MaturityColumn)})| == w - 10
    ensures Select(RenamedColumns(w), Kept(RenamedColumns(w), {Named(MaturityColumn)})) == SeriesColumns(w)
  {
    var columns := RenamedColumns(w);
    var others := Kept(columns, {Named(MaturityColumn)});
    assert others == seq(|columns| - 1, k requires 0 <= k < |columns| - 1 => k + 1) by {
      KeptRenamed(w, columns);
    }
  }

  /** ... and it cuts every row down to its cells after the first. */
  lemma SetIndexRows<T>(cells: seq<seq<T>>, w: nat)
    requires w >= 11 && forall i :: 0 <= i < |cells| ==> |cells[i]| == w - 9
    ensures forall i :: 0 <= i < |cells| ==>
      Select(cells[i], Kept(RenamedColumns(w), {Named(MaturityColumn)})) == cells[i][1..]
  {
    var columns := RenamedColumns(w);
    var others := Kept(columns, {Named(MaturityColumn)});
    assert others == seq(|columns| - 1, k requires 0 <= k < |columns| - 1 => k + 1) by {
      KeptRenamed(w, columns);
    }
    forall i | 0 <= i < |cells|
      ensures Select(cells[i], others) == cells[i][1..]
    {
    }
  }

  /** The series whose index is the first cell of each row and whose rows are the other cells. */
  function IndexedByFirst<T>(data: seq<seq<T>>, w: nat): RateSeries<T>
    requires w >= 11 && forall k :: 0 <= k < |data| ==> |data[k]| == w - 9
  {
    RateSeries(
      seq(|data|, k requires 0 <= k < |data| => data[k][0]),
      SeriesColumns(w),
      seq(|data|, k requires 0 <= k < |data| => data[k][1..]))
  }

  /** `set_index` of the maturity label on the renamed frame indexes it by the first cell of each row. */
  lemma SetIndexOfRenamed<T>(data: seq<seq<T>>, w: nat, r: Result<RateSeries<T>, ExtractError>)
    requires w >= 11 && forall k :: 0 <= k < |data| ==> |data[k]| == w - 9
    requires IndexedBy(RenamedColumns(w), data, Named(MaturityColumn), r)
    ensures r == Ok(IndexedByFirst(data, w))
  {
    var key := Named(MaturityColumn);
    var columns := RenamedColumns(w);
    assert columns[0] == key;
    assert r.Ok? by {
      SetIndexColumns(w);
    }
    var series := r.value;
    assert Find(columns, key) == 0;
    assert series.columns == SeriesColumns(w) by {
      SetIndexColumns(w);
    }
    assert forall k :: 0 <= k < |data| ==> series.rows[k] == data[k][1..] by {
      SetIndexRows(data, w);
    }
    IndexedByFirstCells(data, w, series);
  }

  /** A series indexed by the first cells, with the other cells as rows, is `IndexedByFirst`. */
  lemma IndexedByFirstCells<T>(data: seq<seq<T>>, w: nat, series: RateSeries<T>)
    requires w >= 11 && forall k :: 0 <= k < |data| ==> |data[k]| == w - 9
    requires series.columns == SeriesColumns(w)
    requires |series.maturities| == |series.rows| == |data|
    requires forall k :: 0 <= k < |data| ==> series.maturities[k] == data[k][0] && series.rows[k] == data[k][1..]
    ensures series == IndexedByFirst(data, w)
  {
    var expected := IndexedByFirst(data, w);
    assert series.maturities == expected.maturities;
    assert series.rows == expected.rows;
  }

  /** `CleanedGrid` is the trimmed rows from the sixth on, indexed by their first cell. */
  lemma CleanedGridIndexed<T>(grid: Table<T>, data: seq<seq<T>>)
    requires Rectangular(grid) && grid.width >= 11 && |grid.rows| >= 5
    requires |data| == |grid.rows| - 5
    requires forall k :: 0 <= k < |data| ==> data[k] == Trim(grid.rows[k + 5]) && |data[k]| == grid.width - 9
    ensures CleanedGrid(grid) == Ok(IndexedByFirst(data, grid.width))
  {
    var series := IndexedByFirst(data, grid.width);
    var expected := CleanedGrid(grid).value;
    assert series.maturities == expected.maturities;
    assert series.rows == expected.rows;
  }

  /** Indexing the renamed frame by maturity gives the series `CleanedGrid` describes. */
  lemma IndexedByMaturity<T>(grid: Table<T>, data: seq<seq<T>>, r: Result<RateSeries<T>, ExtractError>)
    requires Rectangular(grid) && grid.width >= 11 && |grid.rows| >= 5
    requires |data| == |grid.rows| - 5
    requires forall k :: 0 <= k < |data| ==> data[k] == Trim(grid.rows[k + 5]) && |data[k]| == grid.width - 9
    requires IndexedBy(RenamedColumns(grid.width), data, Named(MaturityColumn), r)
    ensures r == CleanedGrid(grid)
  {
    SetIndexOfRenamed(data, grid.width, r);
    CleanedGridIndexed(grid, data);
  }

  /**
   * The cleanup as app.py performs it: concatenate, reshape, rebuild the
   * frame and clean it. It returns what `Cleaned` states.
   */
  method CleanTables<T>(tables: seq<Table<T>>) returns (r: Result<RateSeries<T>, ExtractError>)
    requires AllRectangular(tables)
    ensures r == Cleaned(tables)
  {
    var combined := Concat(tables);
    if combined.Err? {
      return Err(combined.error);
    }
    var reshaped := Reshape(combined.value);
    if reshaped.Err? {
      return Err(reshaped.error);
    }
    var ntnb := new Frame(reshaped.value);
    r := CleanFrame(ntnb, reshaped.value);
  }

  /**
   * Lines 62-70 of app.py on the rebuilt frame, step by step: drop the
   * columns, drop the caption rows, rename, and index by maturity.
   */
  method CleanFrame<T>(ntnb: Frame<T>, ghost grid: Table<T>) returns (r: Result<RateSeries<T>, ExtractError>)
    requires ntnb.Valid() && Rectangular(grid)
    requires ntnb.columns == PositionLabels(grid.width) && ntnb.index == RowLabels(|grid.rows|) && ntnb.cells == grid.rows
    modifies ntnb
    ensures r == CleanedGrid(grid)
  {
    var ok := DropDecorationColumns(ntnb, grid);
    if !ok {
      return Err(TooFewColumns);
    }
    ok := DropCaptionRows(ntnb);
    if !ok {
      return Err(TooFewRows);
    }
    r := IndexByMaturity(ntnb, grid);
  }

  /** Line 62 of app.py: drop the columns at positions 0, 1, 3, 4 and 6 to 10. */
  method DropDecorationColumns<T>(ntnb: Frame<T>, ghost grid: Table<T>) returns (ok: bool)
    requires ntnb.Valid() && Rectangular(grid)
    requires ntnb.columns == PositionLabels(grid.width) && ntnb.index == RowLabels(|grid.rows|) && ntnb.cells == grid.rows
    modifies ntnb
    ensures ntnb.Valid() && ntnb.index == RowLabels(|grid.rows|)
    ensures ok <==> grid.width >= 11
    ensures ok ==>
      && ntnb.columns == [Position(2), Position(5)] + SeriesColumns(grid.width)[1..]
      && |ntnb.cells| == |grid.rows|
      && forall i :: 0 <= i < |grid.rows| ==> ntnb.cells[i] == Trim(grid.rows[i])
  {
    DroppedPositionsFit(grid.width);
    ok := ntnb.DropColumnsAt(DroppedPositions);
    if ok {
      KeptColumns(grid.width);
      DropColumnsEffect(grid.rows, grid.width);
    }
  }

  /** Line 63 of app.py: drop the rows labelled 0 to 4, the table captions. */
  method DropCaptionRows<T>(ntnb: Frame<T>) returns (ok: bool)
    requires ntnb.Valid() && ntnb.index == RowLabels(|ntnb.cells|)
    modifies ntnb
    ensures ntnb.Valid() && ntnb.columns == old(ntnb.columns)
    ensures ok <==> |old(ntnb.cells)| >= 5
    ensures ok ==> ntnb.cells == old(ntnb.cells)[5..]
    ensures ok ==> ntnb.index == seq(|old(ntnb.cells)| - 5, k requires 0 <= k < |old(ntnb.cells)| - 5 => k + 5)
  {
    CaptionRowsPresent(|ntnb.cells|);
    ok := ntnb.DropRows(CaptionRows);
    if ok {
      KeptRows(|old(ntnb.cells)|);
      SelectSuffix(old(ntnb.cells), 5);
      SelectSuffix(old(ntnb.index), 5);
      assert old(ntnb.index)[5..] == seq(|old(ntnb.cells)| - 5, k requires 0 <= k < |old(ntnb.cells)| - 5 => k + 5);
    }
  }

  /** Lines 66-70 of app.py: name the two data columns and index the frame by maturity. */
  method IndexByMaturity<T>(ntnb: Frame<T>, ghost grid: Table<T>) returns (r: Result<RateSeries<T>, ExtractError>)
    requires ntnb.Valid() && Rectangular(grid) && grid.width >= 11 && |grid.rows| >= 5
    requires ntnb.columns == [Position(2), Position(5)] + SeriesColumns(grid.width)[1..]
    requires |ntnb.cells| == |grid.rows| - 5
    requires forall k :: 0 <= k < |ntnb.cells| ==> ntnb.cells[k] == Trim(grid.rows[k + 5])
    modifies ntnb
    ensures r == CleanedGrid(grid)
  {
    ghost var data := ntnb.cells;
    RenameEffect(grid.width);
    ntnb.Rename(DataNames);
    r := ntnb.SetIndex(Named(MaturityColumn));
    IndexedByMaturity(grid, data, r);
  }
}
