# Graphify decision logic in Dafny

Graphify is a small desktop application. It loads a CSV file into a table,
previews it, summarises it, cleans missing values and draws bar, line,
scatter, box and heatmap charts. Almost all of it is GUI code around pandas
and seaborn. This project models the decisions the program makes, and it
treats the table, the dialogs and the drawing as abstract:

- **The table** (`Frames`). An ordered list of columns, each with a name and
  a dtype tag: `Object`, `Int64`, `Float64`, or `Other`. `Other` stands for
  bool, datetime, int32 and every other dtype, which fail both the
  `'object'` test and the `['int64', 'float64']` test. The rows are
  sequences of optional cells, and `None` is a missing value. A table read
  from CSV is rectangular and has unique column names (`WellFormed`).
- **Axis candidates** (`Axes`). `update_axis_dropdowns` filters the columns
  by dtype for each plot type. The model proves that the dropdowns offer
  exactly the eligible columns, in column order, and that `Other` columns
  are never offered. Any other plot-type text leaves the dropdowns as they
  were.
- **The plot decision** (`Plots`). Drawing is replaced by the figure value
  the plotting call would receive. This covers a bar chart (with a flag for
  X labels turned into text), a line or scatter plot, a box plot over the
  rows left after `dropna()`, a heatmap over the numeric columns, or the
  empty figure. The other outcome is an error that is shown while nothing
  is embedded. The branch order follows the source, so a `KeyError` for an
  unknown name arises only where the source indexes the table.
- **Cleaning** (`Cleaning`). Dropping incomplete rows is a loop that keeps
  the complete rows in order (`DropIncompleteRows`), proved against the
  reference function `DropIncomplete`. Filling takes the per-column
  statistic as a map. The strategy text is lower-cased and compared with
  "mean" and "median".
- **The session** (`Sessions`). The global `dataset` becomes the `Session`
  class, with an `Option<Frame>` field. A successful parse replaces the
  table. A cancelled dialog or a failed parse keeps it. Cleaning replaces
  its rows. View, explain, visualize and clean all answer
  `NoDatasetLoaded` while the session is empty.

The model follows the code in places where its behaviour is easy to
misread:

- A heatmap fails whenever the numeric part of the table is `empty`. That
  happens when there are no numeric columns, and also when there are numeric
  columns but no rows.
- A bar chart does not check the dtype of Y.
- Line and scatter plots with the wrong dtypes silently embed an empty
  figure.
- Line, scatter and box plots look up the Y name only after the X column has
  passed its dtype test. With a wrongly typed X, an unknown Y name gives the
  empty figure, not an error.

## Model

| member | source | states |
|---|---|---|
| Frames.NamesOfType | graphify_code.py:68-69 | the list comprehension holds a name exactly when some column of that name has one of the given dtypes, and it keeps column order (a subsequence of the column names) |
| Frames.ColumnIndex | graphify_code.py:136 | `dataset[name]` finds the first column with that name; it finds nothing (the `KeyError` case) exactly when the name is not among the column names |
| Frames.MissingCount | graphify_code.py:60 | a column's missing count is at most the row count, and it is zero exactly when every row has a value in that column |
| Axes.UpdateAxisDropdowns | graphify_code.py:66-78 | for each of the five plot types, a name is offered on X (or Y) exactly when a column of that name has a dtype the eligibility table accepts, in column order; any other plot-type text leaves both lists unchanged |
| Axes.CandidatesAreExact | graphify_code.py:66-78 | any order-preserving list of column names with the eligible members is the offered list itself, so the lists are exactly the matching columns in order |
| Axes.OtherColumnsNeverOffered | graphify_code.py:68-78 | a column whose dtype is neither object nor int64/float64 appears in neither list for any plot type |
| Axes.CandidatesAreDistinct | graphify_code.py:66-78 | no column is offered twice |
| Plots.Plot | graphify_code.py:124-171 | a missing-column error names the selected X or Y and that name is not a column; the box-data error comes only from box plots; the no-numeric-data error comes only from heatmaps |
| Plots.BarPlotOutcome | graphify_code.py:135-139 | a bar chart is embedded exactly when both names are columns, whatever the dtype of Y; otherwise the error names the first missing name; heights are the Y column; labels are the X column unchanged when X has the object dtype, and otherwise the X column through `astype(str)`: each present cell becomes the text of its value and each missing cell the text "nan" |
| Plots.LineScatterOutcome | graphify_code.py:141-147 | a line (or scatter) chart of the two columns is drawn exactly when both are int64/float64; a wrongly typed X, or a numeric X with a wrongly typed Y, embeds the empty figure with no error; the only error is a missing column, and an unknown X is reported before Y is looked at |
| Plots.BoxPlotOutcome | graphify_code.py:149-155 | a box chart or the no-valid-data error occurs exactly when X has the object dtype and Y is numeric; the box rows are exactly the rows of the two selected columns that have both cells present, in table order, and there is at least one; every other dtype pair embeds the empty figure, including a non-object X with an unknown Y, because `and` never looks Y up; an unknown X is reported first |
| Plots.BoxPlotEmptyIff | graphify_code.py:151-154 | with an object X and a numeric Y, the box plot reports "No valid data" exactly when every row misses one of the two cells |
| Plots.HeatmapOutcome | graphify_code.py:157-163 | the heatmap does not depend on the selected columns, colour or label formatting; it fails exactly when there is no numeric column or no row; otherwise it covers exactly the numeric columns in column order |
| Plots.UnknownKindEmbedsEmptyFigure | graphify_code.py:135-168 | a plot-type text that matches none of the five branches embeds the empty figure and reports nothing |
| Plots.OfferedBarSelectionDraws | graphify_code.py:135-137 | a bar request whose X and Y come from the bar dropdowns always draws, using the labels as they are |
| Plots.OfferedLineScatterSelectionDraws | graphify_code.py:141-147 | a line or scatter request whose X and Y come from its dropdowns always draws that chart, never the empty figure |
| Plots.OfferedBoxSelectionDraws | graphify_code.py:149-155 | a box request whose X and Y come from the box dropdowns draws a box chart or reports no valid data, never the empty figure |
| Plots.BoxDataEmptyIff | graphify_code.py:151-152 | `dropna()` on the two selected columns leaves nothing exactly when every row misses one of the two cells |
| Cleaning.DropIncomplete | graphify_code.py:208 | the kept rows are complete rows of the input, in input order (a subsequence), and there are no more of them than input rows |
| Cleaning.DropIncompleteRows | graphify_code.py:208 | the loop that compacts the rows returns exactly `DropIncomplete` of its input |
| Cleaning.DropIncompleteCounts | graphify_code.py:208 | every complete row survives as often as it occurred, and every incomplete row is gone |
| Cleaning.DropIncompleteKeepsAllIffComplete | graphify_code.py:208 | dropping changes nothing exactly when no row has a missing cell |
| Cleaning.DropIncompleteEmptyIff | graphify_code.py:208 | dropping leaves nothing exactly when every row has a missing cell |
| Cleaning.DropIncompleteIdempotent | graphify_code.py:208 | dropping a second time drops nothing more |
| Cleaning.NoMissingAfterDrop | graphify_code.py:208 | after dropping, every column's missing count is zero |
| Cleaning.ParseFillStrategyIgnoresCase | graphify_code.py:211-219 | the mean strategy is chosen exactly when the entry spells "mean" in any letter case, the median strategy exactly when it spells "median", and no strategy otherwise |
| Cleaning.FillMissing | graphify_code.py:213-216 | filling keeps the columns, the row count and every present cell; a missing cell takes its column's fill value when there is one, and otherwise stays missing |
| Cleaning.FillMissingCounts | graphify_code.py:213-216 | after filling, a column that has a fill value has no missing cells, and any other column has as many as before |
| Cleaning.FillMissingIdempotent | graphify_code.py:213-216 | filling twice with the same values changes nothing more |
| Sessions.Summarize | graphify_code.py:58-60 | the summary's shape equals the table's row and column counts, it lists the columns with their dtypes, and a column's missing count is zero exactly when that column has no gap |
| Sessions.Session.constructor | graphify_code.py:10 | the session starts with no table |
| Sessions.Session.Load | graphify_code.py:13-23 | only a successful parse replaces the table, with a notice of its shape; a cancelled dialog or a parse failure keeps the previous table and reports a warning or an error |
| Sessions.Session.View | graphify_code.py:26-46 | with no table the answer is "No dataset loaded!"; otherwise it gives the column headings in order and every row |
| Sessions.Session.Explain | graphify_code.py:49-63 | with no table the answer is "No dataset loaded!"; otherwise it gives the shape, the dtypes and each column's missing count |
| Sessions.Session.Visualize | graphify_code.py:81-106 | with no table the answer is "No dataset loaded!"; otherwise both dropdowns start out listing every column in order |
| Sessions.StaleSelectionReportsError | graphify_code.py:124-171 | after a new load, a bar, line, scatter or box request whose X is not a column of the new table shows the missing-column error for X; the new table stays loaded |
| Sessions.Session.Clean | graphify_code.py:179-227 | with no table the answer is "No dataset loaded!"; "drop" keeps only the complete rows; "fill" with an entry spelling mean or median fills with that statistic; any other fill text warns and leaves the table unchanged; any other action changes nothing |
| Sessions.LoadKeepsTableOnFailure | graphify_code.py:16-23 | after a successful load, a later failed or cancelled load leaves that table in the session |
| Sessions.DropLeavesNoMissing | graphify_code.py:207-209 | after "drop", the summary reports zero missing values in every column |
| Sessions.InvalidFillKeepsTable | graphify_code.py:210-219 | a fill text that spells neither word in any letter case leaves the table unchanged |

## Left out

- Tk windows, widget layout, the background image, button wiring and message boxes. These are GUI plumbing. Notifications are returned as values (`LoadNotice`, `CleanNotice`, `Answer`, `PlotOutcome`).
- Closing the cleaning window. The source closes it at the end of `perform_cleaning`, which it reaches on every path where `dataset.mean()` or `dataset.median()` returns. The window itself is not modelled.
- The file dialog and `pd.read_csv`. These are I/O and a foreign library. `Session.Load` takes the attempt's result as a `LoadAttempt` value.
- Seaborn and matplotlib rendering, and `FigureCanvasTkAgg` embedding. These are foreign calls. The model returns the figure value instead. Exceptions raised inside the plotting library are not modelled, for instance for an unknown colour name or a non-numeric bar height. Only the `KeyError` from indexing the table is modelled.
- Python's `str()` of a cell value, used by `astype(str)`. It is a parameter (`str`) of `Plot`. Only the text "nan" for a missing cell is fixed.
- The numeric values of mean, median and correlation, including the heatmap's diagonal of ones. These are floating point. `Session.Clean` takes the mean and median of each column as maps, and a heatmap is given by its list of columns.
- How `dataset.mean()` and `dataset.median()` behave on tables that mix dtypes. This depends on the pandas version. From pandas 2.0 on they default to `numeric_only=False` and raise `TypeError` on a table with an object column. `perform_cleaning` catches nothing, so the exception leaves the button callback: nothing is filled, no message is shown, and the window stays open. Which columns receive a fill value is decided by the map passed in.
- Sessions.Session.Clean: does not model the failing `mean()`/`median()` path. For an entry spelling mean or median it always fills from the map and answers `FilledWithMean` or `FilledWithMedian`, because the statistics are inputs rather than computed.
- Cleaning.Lower: lower-cases ASCII letters only. Python's `str.lower()` also maps other letters. No letter outside ASCII lower-cases to one of the letters of "mean" or "median", so the comparison is the same.
- The row-by-row Treeview insert in `view_dataset` and the text layout in `explain_dataset`. These are display code. `View` and `Explain` return the data they show.
- The "No dataset loaded!" check of `clean_dataset` happens when the cleaning window opens. `Session.Clean` makes the check when the button is pressed. The two are the same because no action can empty the session again.
- The plot form's dropdowns can go stale after a new load, while Plot reads the current table. `Session.PlotCurrent` reads the current table like the source does. It requires a loaded table, because the form only exists after one. The window objects themselves are not modelled; `StaleSelectionReportsError` shows what a stale name leads to.
