/**
  The tabular dataset the analysers work on: a pandas DataFrame reduced to
  what the analysers observe.  Columns are named and ordered, each has a
  dtype, and every row maps every column name to a cell; a missing cell
  (NaN, NaT, None, <NA>) is `None`.
*/
module Frames {
  import opened Wrappers
  import opened Calendar

  datatype Value = Num(r: real) | Text(s: string) | Stamp(day: Day)

  type Cell = Option<Value>

  type Row = map<string, Cell>

  /** The dtypes the analysers distinguish.  Int64 and Int32 cannot hold a
      missing value; UInt32 is pandas' nullable unsigned type. */
  datatype DType = Int64 | Float64 | Int32 | UInt32 | Object | Category | Datetime

  predicate IsIntegral(r: real) {
    r.Floor as real == r
  }

  /** What a cell of a column with dtype d can hold. */
  predicate Fits(d: DType, c: Cell) {
    match d
    case Int64 => c.Some? && c.value.Num? && IsIntegral(c.value.r)
    case Int32 => c.Some? && c.value.Num? && IsIntegral(c.value.r)
    case UInt32 => c.None? || (c.value.Num? && IsIntegral(c.value.r) && c.value.r >= 0.0)
    case Float64 => c.None? || c.value.Num?
    case Category => c.None? || c.value.Text?
    case Datetime => c.None? || c.value.Stamp?
    case Object => true
  }

  /** Dtypes on which `<` and `>=` against a number work. */
  predicate IsNumeric(d: DType) {
    d == Int64 || d == Float64 || d == Int32 || d == UInt32
  }

  /** Dtypes that `select_dtypes(include=['int64', 'float64'])` picks. */
  predicate IsFeature(d: DType) {
    d == Int64 || d == Float64
  }

  datatype Table = Table(columns: seq<string>, dtypes: map<string, DType>, rows: seq<Row>) {

    /** Column names are distinct, every column has a dtype, every row has a
        cell for exactly the columns, and every cell fits its column's dtype. */
    ghost predicate Valid() {
      && (forall i, j :: 0 <= i < j < |columns| ==> columns[i] != columns[j])
      && (forall c :: c in dtypes <==> c in columns)
      && (forall i :: 0 <= i < |rows| ==> rows[i].Keys == dtypes.Keys)
      && (forall i, c :: 0 <= i < |rows| && c in rows[i] && c in dtypes ==> Fits(dtypes[c], rows[i][c]))
    }

    /** `c in df.columns` */
    predicate Has(c: string) {
      c in dtypes
    }

    /** `df[c]` as a sequence of cells, one per row. */
    function Column(c: string): (col: seq<Cell>)
      ensures |col| == |rows|
    {
      seq(|rows|, i requires 0 <= i < |rows| => if c in rows[i] then rows[i][c] else None)
    }

    /** `df[name] = cells`: a new column is appended at the end, an existing
        one is overwritten in place; nothing else changes. */
    function WithColumn(name: string, dtype: DType, cells: seq<Cell>): (t: Table)
      requires |cells| == |rows|
      ensures |t.rows| == |rows|
      ensures t.Has(name) && t.dtypes[name] == dtype && t.Column(name) == cells
      ensures t.columns == if name in columns then columns else columns + [name]
      ensures forall c :: c != name ==> (t.Has(c) <==> Has(c))
      ensures forall c :: c != name && Has(c) ==> t.Has(c) && t.dtypes[c] == dtypes[c]
      ensures forall c :: c != name ==> t.Column(c) == Column(c)
    {
      Table(if name in columns then columns else columns + [name],
            dtypes[name := dtype],
            seq(|rows|, i requires 0 <= i < |rows| => rows[i][name := cells[i]]))
    }

    /** The frame restricted to the rows whose flag is set, in order
        (`df[mask]`). */
    function Select(keep: seq<bool>): (t: Table)
      requires |keep| == |rows|
      ensures t.columns == columns && t.dtypes == dtypes
      ensures |t.rows| <= |rows|
    {
      Table(columns, dtypes, Filter(rows, keep))
    }
  }

  /** `select_dtypes(include=['int64', 'float64']).columns`: the int64 and
      float64 columns, in column order. */
  function FeatureColumns(columns: seq<string>, dtypes: map<string, DType>): (fs: seq<string>)
    ensures forall c :: c in fs <==> c in columns && c in dtypes && IsFeature(dtypes[c])
    ensures |fs| <= |columns|
  {
    if columns == [] then []
    else
      var rest := FeatureColumns(columns[1..], dtypes);
      if columns[0] in dtypes && IsFeature(dtypes[columns[0]]) then [columns[0]] + rest else rest
  }

  /** The positions whose flag is set, in ascending order. */
  function Kept(keep: seq<bool>): (idx: seq<nat>)
    ensures |idx| <= |keep|
    ensures forall j :: 0 <= j < |idx| ==> idx[j] < |keep| && keep[idx[j]]
    ensures forall i :: 0 <= i < |keep| && keep[i] ==> i in idx
    ensures forall j, k :: 0 <= j < k < |idx| ==> idx[j] < idx[k]
  {
    if keep == [] then []
    else
      var n := |keep| - 1;
      var front := Kept(keep[..n]);
      assert forall j :: 0 <= j < |front| ==> front[j] < n && keep[front[j]];
      assert forall i :: 0 <= i < n && keep[i] ==> keep[..n][i];
      front + (if keep[n] then [n] else [])
  }

  /** There are as many set positions as set flags. */
  lemma {:induction false} KeptCount(keep: seq<bool>)
    ensures |Kept(keep)| == multiset(keep)[true]
  {
    if keep != [] {
      var n := |keep| - 1;
      KeptCount(keep[..n]);
      assert keep == keep[..n] + [keep[n]];
    }
  }

  /** The rows whose flag is set, in their original order: the j-th row kept
      is the row at the j-th set position, so every flagged row appears once
      and no other row appears. */
  function Filter(rows: seq<Row>, keep: seq<bool>): (r: seq<Row>)
    requires |keep| == |rows|
    ensures |r| == |Kept(keep)|
    ensures forall j :: 0 <= j < |r| ==> r[j] == rows[Kept(keep)[j]]
  {
    if rows == [] then []
    else
      var n := |rows| - 1;
      assert keep == keep[..n] + [keep[n]];
      var front := Filter(rows[..n], keep[..n]);
      assert Kept(keep) == Kept(keep[..n]) + (if keep[n] then [n] else []);
      if keep[n] then front + [rows[n]] else front
  }

  /** `pd.DataFrame()`: no columns and no rows. */
  const EmptyTable := Table([], map[], [])

  lemma EmptyTableValid()
    ensures EmptyTable.Valid()
  {
  }

  /** Writing a column whose cells fit its dtype keeps a frame well formed. */
  lemma WithColumnValid(t: Table, name: string, dtype: DType, cells: seq<Cell>)
    requires t.Valid() && |cells| == |t.rows|
    requires forall i :: 0 <= i < |cells| ==> Fits(dtype, cells[i])
    ensures t.WithColumn(name, dtype, cells).Valid()
  {
    var u := t.WithColumn(name, dtype, cells);
    forall i, j | 0 <= i < j < |u.columns| ensures u.columns[i] != u.columns[j] {
      if name !in t.columns && j == |t.columns| {
        assert u.columns[i] == t.columns[i];
      }
    }
    forall i, c | 0 <= i < |u.rows| && c in u.rows[i] && c in u.dtypes
      ensures Fits(u.dtypes[c], u.rows[i][c])
    {
      if c == name {
        assert u.rows[i][c] == u.Column(name)[i];
      } else {
        assert u.rows[i][c] == t.rows[i][c];
      }
    }
  }

  /** A rows filter of a well-formed frame is well formed. */
  lemma SelectValid(t: Table, keep: seq<bool>)
    requires t.Valid() && |keep| == |t.rows|
    ensures t.Select(keep).Valid()
  {
    var u := t.Select(keep);
    forall i | 0 <= i < |u.rows| ensures u.rows[i].Keys == u.dtypes.Keys
      && (forall c :: c in u.rows[i] && c in u.dtypes ==> Fits(u.dtypes[c], u.rows[i][c]))
    {
      assert u.rows[i] in u.rows;
      var j :| 0 <= j < |t.rows| && keep[j] && t.rows[j] == u.rows[i];
    }
  }

  /** The frame object the analysers receive and update in place. */
  class Frame {
    var columns: seq<string>
    var dtypes: map<string, DType>
    var rows: seq<Row>

    function View(): Table
      reads this
    {
      Table(columns, dtypes, rows)
    }

    ghost predicate Valid()
      reads this
    {
      View().Valid()
    }

    constructor (t: Table)
      requires t.Valid()
      ensures Valid() && View() == t
    {
      columns, dtypes, rows := t.columns, t.dtypes, t.rows;
    }

    /** `df[name] = cells` */
    method SetColumn(name: string, dtype: DType, cells: seq<Cell>)
      requires Valid() && |cells| == |rows|
      requires forall i :: 0 <= i < |cells| ==> Fits(dtype, cells[i])
      modifies this
      ensures Valid()
      ensures View() == old(View()).WithColumn(name, dtype, cells)
    {
      var t := View().WithColumn(name, dtype, cells);
      WithColumnValid(View(), name, dtype, cells);
      columns, dtypes, rows := t.columns, t.dtypes, t.rows;
    }
  }

  /** The non-missing numbers of a column; any other cell counts as missing. */
  function Numbers(col: seq<Cell>): (r: seq<Option<real>>)
    ensures |r| == |col|
    ensures forall i :: 0 <= i < |col| ==> (r[i].Some? <==> col[i].Some? && col[i].value.Num?)
    ensures forall i :: 0 <= i < |col| && r[i].Some? ==> col[i] == Some(Num(r[i].value))
  {
    seq(|col|, i requires 0 <= i < |col| => if col[i].Some? && col[i].value.Num? then Some(col[i].value.r) else None)
  }

  /** The day numbers of a datetime column; NaT is missing. */
  function Days(col: seq<Cell>): (r: seq<Option<Day>>)
    ensures |r| == |col|
    ensures forall i :: 0 <= i < |col| ==> (r[i].Some? <==> col[i].Some? && col[i].value.Stamp?)
    ensures forall i :: 0 <= i < |col| && r[i].Some? ==> col[i] == Some(Stamp(r[i].value))
  {
    seq(|col|, i requires 0 <= i < |col| => if col[i].Some? && col[i].value.Stamp? then Some(col[i].value.day) else None)
  }

  /** pandas' conversion of a column that is not yet datetime, as a whole:
      one day or NaT per value, or `None` when it raises.  It is not part of
      this model; taking the whole column lets it infer one format from the
      first value and reject the others, and turn strings such as "NaT" or
      "" into NaT. */
  type DateParser = seq<Cell> -> Option<seq<Option<Day>>>

  /** Every cell is a timestamp or missing: the column is already datetime. */
  predicate AllDatetime(col: seq<Cell>) {
    forall i :: 0 <= i < |col| ==> Fits(Datetime, col[i])
  }

  /** Whether `parse` yields one result per cell of the column. */
  predicate Converts(col: seq<Cell>, parse: DateParser) {
    parse(col).Some? && |parse(col).value| == |col|
  }

  /** `pd.to_datetime(col)`.  A datetime column comes back as it is, without
      the parser.  Any other column goes through `parse` as a whole, and the
      conversion raises when the parser does; a missing cell stays NaT and a
      timestamp stays as it is, and every other value takes the parser's day
      or NaT. */
  function ToDatetime(col: seq<Cell>, parse: DateParser): (r: Option<seq<Cell>>)
    ensures AllDatetime(col) ==> r == Some(col)
    ensures r.None? <==> !AllDatetime(col) && !Converts(col, parse)
    ensures r.Some? ==> |r.value| == |col| && AllDatetime(r.value)
    ensures r.Some? ==> forall i :: 0 <= i < |col| && (col[i].None? || col[i].value.Stamp?) ==> r.value[i] == col[i]
    ensures r.Some? && !AllDatetime(col) ==> forall i :: 0 <= i < |col| && col[i].Some? && !col[i].value.Stamp? ==>
              r.value[i] == (var d := parse(col).value[i]; if d.Some? then Some(Stamp(d.value)) else None)
  {
    if AllDatetime(col) then Some(col)
    else if !Converts(col, parse) then None
    else
      var days := parse(col).value;
      Some(seq(|col|, i requires 0 <= i < |col| =>
        if col[i].None? || col[i].value.Stamp? then col[i]
        else if days[i].Some? then Some(Stamp(days[i].value)) else None))
  }
}
