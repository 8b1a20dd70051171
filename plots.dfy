/** What pressing "Plot" does (`plot_graph`): from the plot type, the two
    selected column names, the colour and the current table, decide which
    chart is drawn and embedded, or which error is reported. Drawing itself
    is replaced by the figure value the plotting call would receive. */
module Plots {
  import opened Sequences
  import opened Frames
  import opened Axes
  import opened Cleaning

  /** The four dropdown values read when the button is pressed. */
  datatype PlotRequest = PlotRequest(kind: string, x: string, y: string, color: string)

  /** The errors the plot button reports. `MissingColumn` is the `KeyError`
      that indexing the table with an unknown name raises, caught and shown
      as "Failed to generate plot". */
  datatype PlotError = MissingColumn(name: string) | NoValidBoxData | NoNumericData

  /** The figure handed to the canvas. */
  datatype Figure =
    | Bar(labels: seq<Cell>, heights: seq<Cell>, labelsAsText: bool, color: string)
    | Line(xs: seq<Cell>, ys: seq<Cell>, color: string)
    | Scatter(xs: seq<Cell>, ys: seq<Cell>, color: string)
    | Box(rows: seq<Row>, color: string)
    | Heatmap(columns: seq<string>)
    | Empty

  /** Either a figure is embedded in the plot window, or an error is shown
      and nothing is embedded. */
  datatype PlotOutcome = Embedded(figure: Figure) | Failed(error: PlotError)

  /** `astype(str)` on one cell: a value becomes its text, a missing cell
      the text "nan". `str` stands for Python's `str()` of a value. */
  function AsText(c: Cell, str: Value -> string): Cell
  {
    match c
    case Some(v) => Some(Text(str(v)))
    case None => Some(Text("nan"))
  }

  /** `astype(str)` on a column. */
  function ColumnAsText(cells: seq<Cell>, str: Value -> string): (labels: seq<Cell>)
    ensures |labels| == |cells|
    ensures forall k :: 0 <= k < |cells| ==>
      labels[k] == if cells[k].Some? then Some(Text(str(cells[k].value))) else Some(Text("nan"))
  {
    seq(|cells|, i requires 0 <= i < |cells| => AsText(cells[i], str))
  }

  /** `dataset[[x, y]]`: the two selected columns as two-cell rows. */
  function SelectPair(f: Frame, i: nat, j: nat): (rows: seq<Row>)
    requires WellFormed(f) && i < |f.columns| && j < |f.columns|
    ensures |rows| == |f.rows|
    ensures forall k :: 0 <= k < |f.rows| ==> rows[k] == [f.rows[k][i], f.rows[k][j]]
  {
    seq(|f.rows|, k requires 0 <= k < |f.rows| => assert f.rows[k] in f.rows; [f.rows[k][i], f.rows[k][j]])
  }

  /** The bar branch: the X column is looked up, then the Y column while the
      bars are drawn; an X column that is not of the text dtype is turned
      into text labels. */
  function PlotBar(f: Frame, req: PlotRequest, str: Value -> string): (o: PlotOutcome)
    requires WellFormed(f)
  {
    match ColumnIndex(f.columns, req.x)
    case None => Failed(MissingColumn(req.x))
    case Some(i) =>
      match ColumnIndex(f.columns, req.y)
      case None => Failed(MissingColumn(req.y))
      case Some(j) =>
        var xs := ColumnCells(f, i);
        var asText := f.columns[i].dtype != Object;
        Embedded(Bar(if asText then ColumnAsText(xs, str) else xs, ColumnCells(f, j), asText, req.color))
  }

  /** The line and scatter branches: the Y name is looked up only once the
      X column has passed the numeric test (`and` short-circuits). */
  function PlotLineOrScatter(f: Frame, req: PlotRequest): (o: PlotOutcome)
    requires WellFormed(f)
  {
    match ColumnIndex(f.columns, req.x)
    case None => Failed(MissingColumn(req.x))
    case Some(i) =>
      if f.columns[i].dtype !in Numeric then Embedded(Empty)
      else
        match ColumnIndex(f.columns, req.y)
        case None => Failed(MissingColumn(req.y))
        case Some(j) =>
          if f.columns[j].dtype !in Numeric then Embedded(Empty)
          else if req.kind == "Line Plot" then Embedded(Line(ColumnCells(f, i), ColumnCells(f, j), req.color))
          else Embedded(Scatter(ColumnCells(f, i), ColumnCells(f, j), req.color))
  }

  /** The box branch: a text X and a numeric Y, then `dropna()` on the two
      selected columns; nothing left is an error. */
  function PlotBox(f: Frame, req: PlotRequest): (o: PlotOutcome)
    requires WellFormed(f)
  {
    match ColumnIndex(f.columns, req.x)
    case None => Failed(MissingColumn(req.x))
    case Some(i) =>
      if f.columns[i].dtype != Object then Embedded(Empty)
      else
        match ColumnIndex(f.columns, req.y)
        case None => Failed(MissingColumn(req.y))
        case Some(j) =>
          if f.columns[j].dtype !in Numeric then Embedded(Empty)
          else
            var data := DropIncomplete(SelectPair(f, i, j));
            if data == [] then Failed(NoValidBoxData) else Embedded(Box(data, req.color))
  }

  /** The heatmap branch: `select_dtypes(include=["int64", "float64"])`,
      which is `empty` when it has no column or no row. */
  function PlotHeatmap(f: Frame): (o: PlotOutcome)
    requires WellFormed(f)
  {
    var numeric := NamesOfType(f.columns, Numeric);
    if numeric == [] || f.rows == [] then Failed(NoNumericData) else Embedded(Heatmap(numeric))
  }

  /** The branch table of `plot_graph`. Each branch indexes the table in the
      order the source does, so an unknown name raises only where the source
      evaluates it. A plot type that is none of the five reaches the
      embedding with nothing drawn. */
  function Plot(f: Frame, req: PlotRequest, str: Value -> string): (o: PlotOutcome)
    requires WellFormed(f)
    ensures o.Failed? && o.error.MissingColumn? ==>
      (o.error.name == req.x || o.error.name == req.y) && o.error.name !in Names(f.columns)
    ensures o.Failed? && o.error.NoValidBoxData? ==> req.kind == "Box Plot"
    ensures o.Failed? && o.error.NoNumericData? ==> req.kind == "Heatmap"
  {
    if req.kind == "Bar Plot" then PlotBar(f, req, str)
    else if req.kind == "Line Plot" || req.kind == "Scatter Plot" then PlotLineOrScatter(f, req)
    else if req.kind == "Box Plot" then PlotBox(f, req)
    else if req.kind == "Heatmap" then PlotHeatmap(f)
    else Embedded(Empty)
  }

  /** The column called `name` has a dtype in `tags`. */
  ghost predicate NamedOfType(f: Frame, name: string, tags: set<DType>)
  {
    HasColumnOfType(f.columns, name, tags)
  }

  /** `cells` are the cells of the column called `name`. */
  ghost predicate CellsOf(f: Frame, name: string, cells: seq<Cell>)
    requires WellFormed(f)
  {
    exists j :: 0 <= j < |f.columns| && f.columns[j].name == name && cells == ColumnCells(f, j)
  }

  /** Bar plot: whenever both names are columns a bar chart is drawn, the Y
      column whatever its dtype; the X column is used as it is when it has
      the text dtype and otherwise turned into text labels cell by cell. */
  lemma BarPlotOutcome(f: Frame, req: PlotRequest, str: Value -> string)
    requires WellFormed(f) && req.kind == "Bar Plot"
    ensures var o := Plot(f, req, str);
      (o.Embedded? <==> req.x in Names(f.columns) && req.y in Names(f.columns)) &&
      (o.Failed? ==> o.error == MissingColumn(if req.x in Names(f.columns) then req.y else req.x)) &&
      (o.Embedded? ==>
         o.figure.Bar? && o.figure.color == req.color &&
         CellsOf(f, req.y, o.figure.heights) &&
         (o.figure.labelsAsText <==> !NamedOfType(f, req.x, Textual)) &&
         (!o.figure.labelsAsText ==> CellsOf(f, req.x, o.figure.labels)) &&
         (o.figure.labelsAsText ==>
            |o.figure.labels| == |f.rows| &&
            exists i :: 0 <= i < |f.columns| && f.columns[i].name == req.x &&
              forall k :: 0 <= k < |f.rows| ==>
                o.figure.labels[k] ==
                  if f.rows[k][i].Some? then Some(Text(str(f.rows[k][i].value))) else Some(Text("nan"))))
  {
    var o := Plot(f, req, str);
    var cols := f.columns;
    if o.Embedded? {
      var i := ColumnIndex(cols, req.x).value;
      var j := ColumnIndex(cols, req.y).value;
      assert CellsOf(f, req.y, o.figure.heights) by {
        assert cols[j].name == req.y;
      }
      assert cols[i] == Column(req.x, cols[i].dtype);
      if NamedOfType(f, req.x, Textual) {
        var d :| d in Textual && Column(req.x, d) in cols;
        ColumnIndexFindsColumn(cols, req.x, d);
      }
      assert cols[i].name == req.x;
      if !o.figure.labelsAsText {
        assert CellsOf(f, req.x, o.figure.labels);
      }
    }
  }

  /** Line and scatter plots draw exactly when both columns are numeric. An
      X column of another dtype, or a numeric X with a Y column of another
      dtype, gives an empty figure that is still embedded, with no error. */
  lemma LineScatterOutcome(f: Frame, req: PlotRequest, str: Value -> string)
    requires WellFormed(f) && (req.kind == "Line Plot" || req.kind == "Scatter Plot")
    ensures var o := Plot(f, req, str);
      ((o.Embedded? && o.figure != Empty) <==>
        NamedOfType(f, req.x, Numeric) && NamedOfType(f, req.y, Numeric)) &&
      (o.Embedded? && o.figure != Empty ==>
        (if req.kind == "Line Plot" then o.figure.Line? else o.figure.Scatter?) &&
        o.figure.color == req.color &&
        CellsOf(f, req.x, o.figure.xs) && CellsOf(f, req.y, o.figure.ys)) &&
      (o == Embedded(Empty) <==>
        (req.x in Names(f.columns) && !NamedOfType(f, req.x, Numeric)) ||
        (NamedOfType(f, req.x, Numeric) && req.y in Names(f.columns) && !NamedOfType(f, req.y, Numeric))) &&
      (o.Failed? ==> o.error.MissingColumn?) &&
      (req.x !in Names(f.columns) ==> o == Failed(MissingColumn(req.x)))
  {
    var o := Plot(f, req, str);
    var cols := f.columns;
    NamedOfTypeByIndex(f, req.x, Numeric);
    NamedOfTypeByIndex(f, req.y, Numeric);
    if o.Embedded? && o.figure != Empty {
      var i := ColumnIndex(cols, req.x).value;
      var j := ColumnIndex(cols, req.y).value;
      assert cols[i].name == req.x && cols[j].name == req.y;
    }
  }

  /** A name is a column of a type in `tags` exactly when the lookup by name
      finds a column of such a type (names being unique). */
  lemma NamedOfTypeByIndex(f: Frame, name: string, tags: set<DType>)
    requires WellFormed(f)
    ensures NamedOfType(f, name, tags) <==>
      ColumnIndex(f.columns, name).Some? && f.columns[ColumnIndex(f.columns, name).value].dtype in tags
  {
    if NamedOfType(f, name, tags) {
      var d :| d in tags && Column(name, d) in f.columns;
      ColumnIndexFindsColumn(f.columns, name, d);
    }
    var r := ColumnIndex(f.columns, name);
    if r.Some? && f.columns[r.value].dtype in tags {
      assert Column(name, f.columns[r.value].dtype) == f.columns[r.value];
    }
  }

  /** Box plot: with a text X and a numeric Y, the rows with a gap in either
      column are left out, in order; when none remain the error is shown
      and no figure is embedded. Any other pair of dtypes gives an empty
      figure. */
  lemma BoxPlotOutcome(f: Frame, req: PlotRequest, str: Value -> string)
    requires WellFormed(f) && req.kind == "Box Plot"
    ensures var o := Plot(f, req, str);
      (o.Embedded? && o.figure.Box? ==>
         o.figure.color == req.color && o.figure.rows != [] &&
         (forall r: Row :: r in o.figure.rows ==> |r| == 2 && r[0].Some? && r[1].Some?) &&
         exists i, j :: 0 <= i < |f.columns| && 0 <= j < |f.columns| &&
           f.columns[i].name == req.x && f.columns[j].name == req.y &&
           o.figure.rows == DropIncomplete(SelectPair(f, i, j)) &&
           IsSubsequence(o.figure.rows, SelectPair(f, i, j))) &&
      (o.Failed? && o.error == NoValidBoxData ==>
        NamedOfType(f, req.x, Textual) && NamedOfType(f, req.y, Numeric)) &&
      ((o.Embedded? && o.figure.Box?) || o == Failed(NoValidBoxData) <==>
        NamedOfType(f, req.x, Textual) && NamedOfType(f, req.y, Numeric)) &&
      (o == Embedded(Empty) <==>
        (req.x in Names(f.columns) && !NamedOfType(f, req.x, Textual)) ||
        (NamedOfType(f, req.x, Textual) && req.y in Names(f.columns) && !NamedOfType(f, req.y, Numeric))) &&
      (req.x !in Names(f.columns) ==> o == Failed(MissingColumn(req.x))) &&
      (o.Embedded? ==> o.figure.Box? || o.figure.Empty?)
  {
    var o := Plot(f, req, str);
    var cols := f.columns;
    NamedOfTypeByIndex(f, req.x, Textual);
    NamedOfTypeByIndex(f, req.y, Numeric);
    if o.Embedded? && o.figure.Box? {
      var i := ColumnIndex(cols, req.x).value;
      var j := ColumnIndex(cols, req.y).value;
      var pairs := SelectPair(f, i, j);
      assert cols[i].name == req.x && cols[j].name == req.y;
      forall r: Row | r in o.figure.rows ensures |r| == 2 && r[0].Some? && r[1].Some? {
        assert r in pairs;
      }
    }
  }

  /** `dropna()` on the two selected columns leaves nothing exactly when
      every row misses one of the two cells. */
  lemma BoxDataEmptyIff(f: Frame, i: nat, j: nat)
    requires WellFormed(f) && i < |f.columns| && j < |f.columns|
    ensures DropIncomplete(SelectPair(f, i, j)) == [] <==>
      forall k :: 0 <= k < |f.rows| ==> f.rows[k][i].None? || f.rows[k][j].None?
  {
    var pairs := SelectPair(f, i, j);
    DropIncompleteEmptyIff(pairs);
    forall k | 0 <= k < |f.rows| ensures Complete(pairs[k]) <==> f.rows[k][i].Some? && f.rows[k][j].Some? {
      PairComplete(f.rows[k][i], f.rows[k][j]);
    }
  }

  /** A two-cell row is complete when both of its cells are present. */
  lemma PairComplete(a: Cell, b: Cell)
    ensures Complete([a, b]) <==> a.Some? && b.Some?
  {
    assert [a, b][0] == a && [a, b][1] == b;
  }

  /** The box plot fails for lack of data exactly when every row misses a
      cell in one of the two selected columns. */
  lemma BoxPlotEmptyIff(f: Frame, req: PlotRequest, str: Value -> string)
    requires WellFormed(f) && req.kind == "Box Plot"
    requires NamedOfType(f, req.x, Textual) && NamedOfType(f, req.y, Numeric)
    ensures Plot(f, req, str) == Failed(NoValidBoxData) <==>
      forall i, j, k ::
        (0 <= i < |f.columns| && 0 <= j < |f.columns| && 0 <= k < |f.rows| &&
         f.columns[i].name == req.x && f.columns[j].name == req.y) ==>
        f.rows[k][i].None? || f.rows[k][j].None?
  {
    var cols := f.columns;
    NamedOfTypeByIndex(f, req.x, Textual);
    NamedOfTypeByIndex(f, req.y, Numeric);
    var i := ColumnIndex(cols, req.x).value;
    var j := ColumnIndex(cols, req.y).value;
    var pairs := SelectPair(f, i, j);
    assert Plot(f, req, str) == PlotBox(f, req);
    assert PlotBox(f, req) == Failed(NoValidBoxData) <==> DropIncomplete(pairs) == [];
    BoxDataEmptyIff(f, i, j);
    if forall k :: 0 <= k < |f.rows| ==> f.rows[k][i].None? || f.rows[k][j].None? {
      forall i', j', k |
        (0 <= i' < |cols| && 0 <= j' < |cols| && 0 <= k < |f.rows| &&
         cols[i'].name == req.x && cols[j'].name == req.y)
        ensures f.rows[k][i'].None? || f.rows[k][j'].None?
      {
        IndexOfName(cols, req.x, i');
        IndexOfName(cols, req.y, j');
      }
    }
  }

  /** Heatmap: the selected columns and colour play no part; the chart is
      over exactly the numeric columns, in order, and the error is shown
      when the numeric part of the table is empty (no numeric column, or no
      row at all). */
  lemma HeatmapOutcome(f: Frame, req: PlotRequest, req': PlotRequest, str: Value -> string, str': Value -> string)
    requires WellFormed(f) && req.kind == "Heatmap" && req'.kind == "Heatmap"
    ensures Plot(f, req, str) == Plot(f, req', str')
    ensures var o := Plot(f, req, str);
      (o == Failed(NoNumericData) <==>
        f.rows == [] || forall j :: 0 <= j < |f.columns| ==> f.columns[j].dtype !in Numeric) &&
      (o.Embedded? ==>
         o.figure.Heatmap? &&
         (forall n :: n in o.figure.columns <==> NamedOfType(f, n, Numeric)) &&
         IsSubsequence(o.figure.columns, Names(f.columns)))
  {
    var numeric := NamesOfType(f.columns, Numeric);
    if numeric == [] {
      forall j | 0 <= j < |f.columns| ensures f.columns[j].dtype !in Numeric {
        if f.columns[j].dtype in Numeric {
          assert HasColumnOfType(f.columns, f.columns[j].name, Numeric) by {
            assert Column(f.columns[j].name, f.columns[j].dtype) == f.columns[j];
          }
        }
      }
    } else {
      assert numeric[0] in numeric;
      var d :| d in Numeric && Column(numeric[0], d) in f.columns;
      var j :| 0 <= j < |f.columns| && f.columns[j] == Column(numeric[0], d);
    }
  }

  /** Any other plot-type text draws nothing and reports nothing: the empty
      figure is embedded. */
  lemma UnknownKindEmbedsEmptyFigure(f: Frame, req: PlotRequest, str: Value -> string)
    requires WellFormed(f) && !IsPlotKind(req.kind)
    ensures Plot(f, req, str) == Embedded(Empty)
  {
  }

  /** Choosing both axes from what the dropdowns offer finds two columns
      whose dtypes that plot type accepts. */
  lemma OfferedColumnsFound(f: Frame, kind: string, x: string, y: string, current: AxisChoices)
    requires WellFormed(f) && IsPlotKind(kind)
    requires var r := UpdateAxisDropdowns(kind, f.columns, current); x in r.x && y in r.y
    ensures ColumnIndex(f.columns, x).Some? && AcceptsOnX(kind, f.columns[ColumnIndex(f.columns, x).value].dtype)
    ensures ColumnIndex(f.columns, y).Some? && AcceptsOnY(kind, f.columns[ColumnIndex(f.columns, y).value].dtype)
  {
    var cols := f.columns;
    assert Eligible(cols, kind, true, x) && Eligible(cols, kind, false, y);
    var dx :| AcceptsOnX(kind, dx) && Column(x, dx) in cols;
    var dy :| AcceptsOnY(kind, dy) && Column(y, dy) in cols;
    ColumnIndexFindsColumn(cols, x, dx);
    ColumnIndexFindsColumn(cols, y, dy);
  }

  /** A bar chart over offered columns is always drawn, with the labels used
      as they are. */
  lemma OfferedBarSelectionDraws(f: Frame, req: PlotRequest, str: Value -> string, current: AxisChoices)
    requires WellFormed(f) && req.kind == "Bar Plot"
    requires var r := UpdateAxisDropdowns(req.kind, f.columns, current); req.x in r.x && req.y in r.y
    ensures var o := Plot(f, req, str); o.Embedded? && o.figure.Bar? && !o.figure.labelsAsText
  {
    OfferedColumnsFound(f, req.kind, req.x, req.y, current);
  }

  /** A line or scatter plot over offered columns is always drawn. */
  lemma OfferedLineScatterSelectionDraws(f: Frame, req: PlotRequest, str: Value -> string, current: AxisChoices)
    requires WellFormed(f) && (req.kind == "Line Plot" || req.kind == "Scatter Plot")
    requires var r := UpdateAxisDropdowns(req.kind, f.columns, current); req.x in r.x && req.y in r.y
    ensures var o := Plot(f, req, str);
      o.Embedded? && if req.kind == "Line Plot" then o.figure.Line? else o.figure.Scatter?
  {
    OfferedColumnsFound(f, req.kind, req.x, req.y, current);
  }

  /** A box plot over offered columns is drawn, or reports that no row has
      both cells; it is never the silent empty figure. */
  lemma OfferedBoxSelectionDraws(f: Frame, req: PlotRequest, str: Value -> string, current: AxisChoices)
    requires WellFormed(f) && req.kind == "Box Plot"
    requires var r := UpdateAxisDropdowns(req.kind, f.columns, current); req.x in r.x && req.y in r.y
    ensures var o := Plot(f, req, str); (o.Embedded? && o.figure.Box?) || o == Failed(NoValidBoxData)
  {
    OfferedColumnsFound(f, req.kind, req.x, req.y, current);
  }
}
