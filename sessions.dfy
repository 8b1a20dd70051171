/** The application's one piece of state, the global `dataset`, as a session
    object: empty until a file is loaded, replaced by each successful load,
    changed in place by cleaning. Every button but "Load Dataset" checks
    that a table is present first. */
module Sessions {
  import opened Frames
  import opened Axes
  import opened Plots
  import opened Cleaning

  /** What the file dialog and `pd.read_csv` produced. */
  datatype LoadAttempt = Cancelled | ParseFailed | Parsed(frame: Frame)

  /** The message box shown after "Load Dataset". */
  datatype LoadNotice = Loaded(rowCount: nat, columnCount: nat) | LoadFailed | NoFileSelected

  /** A button's answer: its result, or the "No dataset loaded!" error. */
  datatype Answer<T> = Ok(value: T) | NoDatasetLoaded

  /** The "Dataset Preview" table: the headings and the rows. */
  datatype Preview = Preview(headings: seq<string>, rows: seq<Row>)

  /** The "Dataset Explanation" text: shape, dtypes, missing values per
      column. */
  datatype Summary = Summary(rowCount: nat, columnCount: nat, columns: seq<Column>, missing: seq<nat>)

  /** The message box shown after "Clean Data". */
  datatype CleanNotice = RowsDropped | FilledWithMean | FilledWithMedian | InvalidFillValue | NothingDone

  /** `dataset.shape`, `dataset.dtypes` and `dataset.isnull().sum()`. */
  function Summarize(f: Frame): (s: Summary)
    requires WellFormed(f)
    ensures s.rowCount == |f.rows| && s.columnCount == |f.columns| && s.columns == f.columns
    ensures |s.missing| == |f.columns|
    ensures forall j :: 0 <= j < |f.columns| ==>
      (s.missing[j] == 0 <==> forall i :: 0 <= i < |f.rows| ==> f.rows[i][j].Some?)
  {
    Summary(|f.rows|, |f.columns|, f.columns,
      seq(|f.columns|, j requires 0 <= j < |f.columns| => MissingCount(f.rows, j)))
  }

  class Session {
    /** The global `dataset`; `None` until a load succeeds. */
    var dataset: Option<Frame>

    ghost predicate Valid()
      reads this
    {
      dataset.Some? ==> WellFormed(dataset.value)
    }

    /** At start-up no table is loaded. */
    constructor ()
      ensures Valid() && dataset == None
    {
      dataset := None;
    }

    /** "Load Dataset". Only a successful parse replaces the table; a
        cancelled dialog or a file that does not parse leaves the previous
        table in place. */
    method Load(attempt: LoadAttempt) returns (notice: LoadNotice)
      requires Valid()
      requires attempt.Parsed? ==> WellFormed(attempt.frame)
      modifies this
      ensures Valid()
      ensures dataset == if attempt.Parsed? then Some(attempt.frame) else old(dataset)
      ensures notice == match attempt
        case Cancelled => NoFileSelected
        case ParseFailed => LoadFailed
        case Parsed(f) => Loaded(|f.rows|, |f.columns|)
    {
      match attempt
      case Cancelled =>
        notice := NoFileSelected;
      case ParseFailed =>
        notice := LoadFailed;
      case Parsed(f) =>
        dataset := Some(f);
        notice := Loaded(|f.rows|, |f.columns|);
    }

    /** "View Dataset": the column headings and every row. */
    method View() returns (answer: Answer<Preview>)
      requires Valid()
      ensures answer.NoDatasetLoaded? <==> dataset.None?
      ensures answer.Ok? ==>
        |answer.value.headings| == |dataset.value.columns| &&
        (forall j :: 0 <= j < |dataset.value.columns| ==> answer.value.headings[j] == dataset.value.columns[j].name) &&
        answer.value.rows == dataset.value.rows
    {
      match dataset
      case None =>
        answer := NoDatasetLoaded;
      case Some(f) =>
        answer := Ok(Preview(Names(f.columns), f.rows));
    }

    /** "Explain Dataset": shape, dtypes and missing counts. */
    method Explain() returns (answer: Answer<Summary>)
      requires Valid()
      ensures answer.NoDatasetLoaded? <==> dataset.None?
      ensures answer.Ok? ==>
        answer.value.rowCount == |dataset.value.rows| &&
        answer.value.columnCount == |dataset.value.columns| &&
        answer.value.columns == dataset.value.columns &&
        |answer.value.missing| == |dataset.value.columns| &&
        forall j :: 0 <= j < |dataset.value.columns| ==>
          answer.value.missing[j] == MissingCount(dataset.value.rows, j)
    {
      match dataset
      case None =>
        answer := NoDatasetLoaded;
      case Some(f) =>
        answer := Ok(Summarize(f));
    }

    /** "Visualize Dataset": opens the form with both axis dropdowns listing
        every column, before any plot type is chosen. */
    method Visualize() returns (answer: Answer<AxisChoices>)
      requires Valid()
      ensures answer.NoDatasetLoaded? <==> dataset.None?
      ensures answer.Ok? ==>
        answer.value.x == answer.value.y &&
        |answer.value.x| == |dataset.value.columns| &&
        forall j :: 0 <= j < |dataset.value.columns| ==> answer.value.x[j] == dataset.value.columns[j].name
    {
      match dataset
      case None =>
        answer := NoDatasetLoaded;
      case Some(f) =>
        answer := Ok(AxisChoices(Names(f.columns), Names(f.columns)));
    }

    /** The "Plot" button of the visualization form. The form exists only
        once a table was loaded, and no load can empty the session again,
        so a table is always present here; the plot reads the table the
        session holds at the time of the press. */
    method PlotCurrent(req: PlotRequest, str: Value -> string) returns (outcome: PlotOutcome)
      requires Valid() && dataset.Some?
      ensures outcome == Plot(dataset.value, req, str)
    {
      outcome := Plot(dataset.value, req, str);
    }

    /** "Clean Data" in the cleaning form. `action` is the radio button's
        value, `entry` the fill text; `means` and `medians` are the
        per-column statistics `dataset.mean()` and `dataset.median()` would
        give. Drop keeps only the complete rows; fill reads the strategy
        case-insensitively; any other entry leaves the table as it was and
        warns. */
    method Clean(action: string, entry: string, means: map<string, Value>, medians: map<string, Value>)
      returns (answer: Answer<CleanNotice>)
      requires Valid()
      modifies this
      ensures Valid()
      ensures answer.NoDatasetLoaded? <==> old(dataset).None?
      ensures old(dataset).None? ==> dataset == None
      ensures old(dataset).Some? ==>
        (dataset.Some? &&
         var f := old(dataset).value;
         if action == "drop" then
           answer == Ok(RowsDropped) && dataset.value == Frame(f.columns, DropIncomplete(f.rows))
         else if action == "fill" then
           match ParseFillStrategy(entry)
           case Some(Mean) => answer == Ok(FilledWithMean) && dataset.value == FillMissing(f, means)
           case Some(Median) => answer == Ok(FilledWithMedian) && dataset.value == FillMissing(f, medians)
           case None => answer == Ok(InvalidFillValue) && dataset.value == f
         else
           answer == Ok(NothingDone) && dataset.value == f)
    {
      match dataset
      case None =>
        answer := NoDatasetLoaded;
      case Some(f) =>
        if action == "drop" {
          var kept := DropIncompleteRows(f.rows);
          assert forall r :: r in kept ==> r in f.rows;
          dataset := Some(Frame(f.columns, kept));
          answer := Ok(RowsDropped);
        } else if action == "fill" {
          var strategy := ParseFillStrategy(entry);
          match strategy
          case Some(Mean) =>
            dataset := Some(FillMissing(f, means));
            answer := Ok(FilledWithMean);
          case Some(Median) =>
            dataset := Some(FillMissing(f, medians));
            answer := Ok(FilledWithMedian);
          case None =>
            answer := Ok(InvalidFillValue);
        } else {
          answer := Ok(NothingDone);
        }
    }
  }

  /** A load that does not succeed never loses the table already loaded,
      and a later successful load is what every button then works on. */
  method LoadKeepsTableOnFailure(s: Session, f: Frame, attempt: LoadAttempt)
    requires s.Valid() && WellFormed(f) && !attempt.Parsed?
    modifies s
    ensures s.Valid() && s.dataset == Some(f)
  {
    var first := s.Load(Parsed(f));
    var second := s.Load(attempt);
    var view := s.View();
    assert view.Ok? && view.value.rows == f.rows;
  }

  /** The plot form keeps the names it listed when a new table is loaded
      behind it. Pressing Plot then reads the new table: a stale X name
      that is not one of its columns is reported as a missing column, for
      every plot type that indexes the table by X, and nothing is drawn
      from the old table. */
  method StaleSelectionReportsError(s: Session, g: Frame, req: PlotRequest, str: Value -> string)
    returns (outcome: PlotOutcome)
    requires s.Valid() && WellFormed(g)
    requires req.kind == "Bar Plot" || req.kind == "Line Plot" || req.kind == "Scatter Plot" || req.kind == "Box Plot"
    requires req.x !in Names(g.columns)
    modifies s
    ensures s.Valid() && s.dataset == Some(g)
    ensures outcome == Failed(MissingColumn(req.x))
  {
    var notice := s.Load(Parsed(g));
    outcome := s.PlotCurrent(req, str);
  }

  /** After "drop" every column of the session's table is free of missing
      values, and the table's summary says so. */
  method DropLeavesNoMissing(s: Session)
    requires s.Valid() && s.dataset.Some?
    modifies s
    ensures s.Valid() && s.dataset.Some?
    ensures forall j :: 0 <= j < |s.dataset.value.columns| ==> Summarize(s.dataset.value).missing[j] == 0
  {
    var f := s.dataset.value;
    var answer := s.Clean("drop", "", map[], map[]);
    forall j | 0 <= j < |f.columns| ensures Summarize(s.dataset.value).missing[j] == 0 {
      NoMissingAfterDrop(f, j);
    }
  }

  /** An invalid fill text, in any letter case, changes nothing and warns. */
  method InvalidFillKeepsTable(s: Session, entry: string, means: map<string, Value>, medians: map<string, Value>)
    requires s.Valid() && s.dataset.Some?
    requires !SpellsIgnoringCase(entry, "mean") && !SpellsIgnoringCase(entry, "median")
    modifies s
    ensures s.dataset == old(s.dataset)
  {
    var answer := s.Clean("fill", entry, means, medians);
    ParseFillStrategyIgnoresCase(entry);
    assert answer == Ok(InvalidFillValue);
  }
}
