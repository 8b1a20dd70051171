/** The table the application works on: what `pandas.read_csv` hands back,
    reduced to the parts the program's decisions look at. Columns carry a
    name and the dtype tag the program tests; cells are optional values,
    `None` being a missing cell (NaN). */
module Frames {
  import opened Sequences

  /** The dtypes the program distinguishes. `object` is the text dtype;
      `int64` and `float64` are the numeric ones; every other dtype (bool,
      datetime64, int32, category, ...) passes neither test. */
  datatype DType = Object | Int64 | Float64 | Other

  /** The dtypes `dtype == 'object'` accepts. */
  const Textual: set<DType> := {Object}
  /** The dtypes `dtype in ['int64', 'float64']` accepts. */
  const Numeric: set<DType> := {Int64, Float64}

  /** A cell value. The program never inspects values; only `astype(str)`
      turns them into text. */
  datatype Value = Text(text: string) | Number(x: real) | Boolean(b: bool) | Moment(ticks: int)

  datatype Option<T> = None | Some(value: T)

  /** A cell; `None` is a missing value. */
  type Cell = Option<Value>
  type Row = seq<Cell>

  datatype Column = Column(name: string, dtype: DType)

  datatype Frame = Frame(columns: seq<Column>, rows: seq<Row>)

  /** The column names in order, `list(dataset.columns)`. */
  function Names(cols: seq<Column>): (names: seq<string>)
    ensures |names| == |cols|
    ensures forall j :: 0 <= j < |cols| ==> names[j] == cols[j].name
  {
    if cols == [] then [] else [cols[0].name] + Names(cols[1..])
  }

  /** What reading a CSV file always produces: every row has one cell per
      column, and no two columns share a name (the reader renames
      duplicate headers). */
  ghost predicate WellFormed(f: Frame)
  {
    Distinct(Names(f.columns)) &&
    forall r :: r in f.rows ==> |r| == |f.columns|
  }

  /** `name` is the name of a column whose dtype is one of `tags`. */
  ghost predicate HasColumnOfType(cols: seq<Column>, name: string, tags: set<DType>)
  {
    exists d :: d in tags && Column(name, d) in cols
  }

  /** The names of the columns whose dtype is one of `tags`, in column
      order: `[col for col in dataset.columns if dataset[col].dtype in tags]`. */
  function NamesOfType(cols: seq<Column>, tags: set<DType>): (names: seq<string>)
    ensures |names| <= |cols|
    ensures forall n :: n in names <==> HasColumnOfType(cols, n, tags)
    ensures IsSubsequence(names, Names(cols))
  {
    if cols == [] then []
    else
      var rest := NamesOfType(cols[1..], tags);
      assert Names(cols) == [cols[0].name] + Names(cols[1..]);
      assert forall n :: HasColumnOfType(cols, n, tags) <==>
          (n == cols[0].name && cols[0].dtype in tags) || HasColumnOfType(cols[1..], n, tags) by {
        forall n ensures HasColumnOfType(cols, n, tags) <==>
            (n == cols[0].name && cols[0].dtype in tags) || HasColumnOfType(cols[1..], n, tags) {
          if HasColumnOfType(cols, n, tags) {
            var d :| d in tags && Column(n, d) in cols;
            if Column(n, d) != cols[0] {
              assert Column(n, d) in cols[1..];
            }
          }
          if HasColumnOfType(cols[1..], n, tags) {
            var d :| d in tags && Column(n, d) in cols[1..];
            assert Column(n, d) in cols;
          }
          if n == cols[0].name && cols[0].dtype in tags {
            assert Column(n, cols[0].dtype) in cols;
          }
        }
      }
      if cols[0].dtype in tags then [cols[0].name] + rest else rest
  }

  /** Position of the first column called `name`, or `None` when there is
      none: where `dataset[name]` finds its column, or raises `KeyError`. */
  function ColumnIndex(cols: seq<Column>, name: string): (r: Option<nat>)
    ensures r.Some? ==> r.value < |cols| && cols[r.value].name == name
    ensures r.Some? ==> forall j :: 0 <= j < r.value ==> cols[j].name != name
    ensures r.None? <==> name !in Names(cols)
  {
    if cols == [] then None
    else if cols[0].name == name then Some(0)
    else
      assert Names(cols) == [cols[0].name] + Names(cols[1..]);
      match ColumnIndex(cols[1..], name)
      case None => None
      case Some(j) => Some(j + 1)
  }

  /** With unique names, the column found by name is the only column of
      that name, so its dtype is the one the column was declared with. */
  lemma ColumnIndexFindsColumn(cols: seq<Column>, name: string, d: DType)
    requires Distinct(Names(cols)) && Column(name, d) in cols
    ensures ColumnIndex(cols, name).Some?
    ensures cols[ColumnIndex(cols, name).value] == Column(name, d)
  {
    var k :| 0 <= k < |cols| && cols[k] == Column(name, d);
    assert Names(cols)[k] == name;
    var i := ColumnIndex(cols, name).value;
    if i != k {
      assert Names(cols)[i] == Names(cols)[k];
    }
  }

  /** With unique names, a column is found by name at its own position. */
  lemma IndexOfName(cols: seq<Column>, name: string, i: nat)
    requires Distinct(Names(cols)) && i < |cols| && cols[i].name == name
    ensures ColumnIndex(cols, name) == Some(i)
  {
    ColumnIndexFindsColumn(cols, name, cols[i].dtype);
    var k := ColumnIndex(cols, name).value;
    assert Names(cols)[k] == Names(cols)[i];
  }

  /** The cells of column `j`, top to bottom: `dataset[name]`. */
  function ColumnCells(f: Frame, j: nat): (cells: seq<Cell>)
    requires WellFormed(f) && j < |f.columns|
    ensures |cells| == |f.rows|
    ensures forall i :: 0 <= i < |f.rows| ==> cells[i] == f.rows[i][j]
  {
    seq(|f.rows|, i requires 0 <= i < |f.rows| => assert f.rows[i] in f.rows; f.rows[i][j])
  }

  /** The number of missing cells in column `j`: one entry of
      `dataset.isnull().sum()`. */
  function MissingCount(rows: seq<Row>, j: nat): (n: nat)
    requires forall r :: r in rows ==> j < |r|
    ensures n <= |rows|
    ensures n == 0 <==> forall i :: 0 <= i < |rows| ==> rows[i][j].Some?
  {
    if rows == [] then 0
    else
      assert forall r :: r in rows[1..] ==> r in rows;
      var rest := MissingCount(rows[1..], j);
      assert forall i :: 1 <= i < |rows| ==> rows[i] == rows[1..][i - 1];
      (if rows[0][j].None? then 1 else 0) + rest
  }
}
