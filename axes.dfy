/** Which columns the X and Y dropdowns offer once a plot type is chosen
    (`update_axis_dropdowns`). */
module Axes {
  import opened Sequences
  import opened Frames

  /** The values of the two axis dropdowns. */
  datatype AxisChoices = AxisChoices(x: seq<string>, y: seq<string>)

  /** The five entries of the plot-type dropdown. */
  predicate IsPlotKind(kind: string)
  {
    kind in {"Bar Plot", "Line Plot", "Scatter Plot", "Box Plot", "Heatmap"}
  }

  /** The eligibility table: which dtypes each plot type accepts on the
      X axis. Bar and box plots take text categories, the others numbers. */
  predicate AcceptsOnX(kind: string, d: DType)
  {
    if kind == "Bar Plot" || kind == "Box Plot" then d == Object
    else IsPlotKind(kind) && (d == Int64 || d == Float64)
  }

  /** Every plot type offers numeric columns on the Y axis. */
  predicate AcceptsOnY(kind: string, d: DType)
  {
    IsPlotKind(kind) && (d == Int64 || d == Float64)
  }

  /** `name` is one of the columns that `kind` accepts on the X (`onX`) or
      the Y axis. */
  ghost predicate Eligible(cols: seq<Column>, kind: string, onX: bool, name: string)
  {
    exists d :: (if onX then AcceptsOnX(kind, d) else AcceptsOnY(kind, d)) && Column(name, d) in cols
  }

  /** The new dropdown values after the plot type `kind` is selected; a
      text that is none of the five plot types leaves them as they were. */
  function UpdateAxisDropdowns(kind: string, cols: seq<Column>, current: AxisChoices): (r: AxisChoices)
    ensures IsPlotKind(kind) ==>
      (forall n :: n in r.x <==> Eligible(cols, kind, true, n)) &&
      (forall n :: n in r.y <==> Eligible(cols, kind, false, n)) &&
      IsSubsequence(r.x, Names(cols)) && IsSubsequence(r.y, Names(cols))
    ensures !IsPlotKind(kind) ==> r == current
  {
    var text := NamesOfType(cols, Textual);
    var numbers := NamesOfType(cols, Numeric);
    assert forall n :: n in text <==> Eligible(cols, "Bar Plot", true, n) by {
      forall n ensures n in text <==> Eligible(cols, "Bar Plot", true, n) {
        if n in text {
          var d :| d in Textual && Column(n, d) in cols;
          assert AcceptsOnX("Bar Plot", d);
        }
        if Eligible(cols, "Bar Plot", true, n) {
          var d :| AcceptsOnX("Bar Plot", d) && Column(n, d) in cols;
          assert d in Textual;
        }
      }
    }
    assert IsPlotKind(kind) ==> forall n :: n in numbers <==> Eligible(cols, kind, false, n) by {
      if IsPlotKind(kind) {
        forall n ensures n in numbers <==> Eligible(cols, kind, false, n) {
          if n in numbers {
            var d :| d in Numeric && Column(n, d) in cols;
            assert AcceptsOnY(kind, d);
          }
          if Eligible(cols, kind, false, n) {
            var d :| AcceptsOnY(kind, d) && Column(n, d) in cols;
            assert d in Numeric;
          }
        }
      }
    }
    if kind == "Bar Plot" then
      AxisChoices(text, numbers)
    else if kind == "Line Plot" || kind == "Scatter Plot" then
      assert forall n :: Eligible(cols, kind, true, n) <==> Eligible(cols, kind, false, n);
      AxisChoices(numbers, numbers)
    else if kind == "Box Plot" then
      assert forall n :: Eligible(cols, kind, true, n) <==> Eligible(cols, "Bar Plot", true, n);
      AxisChoices(text, numbers)
    else if kind == "Heatmap" then
      assert forall n :: Eligible(cols, kind, true, n) <==> Eligible(cols, kind, false, n);
      AxisChoices(numbers, numbers)
    else
      current
  }

  /** The dropdowns offer exactly the eligible columns in column order:
      any order-preserving selection of column names with the same members
      is the offered list itself. */
  lemma CandidatesAreExact(kind: string, cols: seq<Column>, current: AxisChoices, onX: bool, names: seq<string>)
    requires IsPlotKind(kind) && Distinct(Names(cols))
    requires IsSubsequence(names, Names(cols))
    requires forall n :: n in names <==> Eligible(cols, kind, onX, n)
    ensures names == (var r := UpdateAxisDropdowns(kind, cols, current); if onX then r.x else r.y)
  {
    var r := UpdateAxisDropdowns(kind, cols, current);
    if onX {
      SubsequenceDeterminedByMembers(names, r.x, Names(cols));
    } else {
      SubsequenceDeterminedByMembers(names, r.y, Names(cols));
    }
  }

  /** A column of any other dtype (bool, datetime, ...) is offered on
      neither axis, whatever the plot type. */
  lemma OtherColumnsNeverOffered(kind: string, cols: seq<Column>, current: AxisChoices, name: string)
    requires IsPlotKind(kind) && Distinct(Names(cols)) && Column(name, Other) in cols
    ensures var r := UpdateAxisDropdowns(kind, cols, current); name !in r.x && name !in r.y
  {
    var r := UpdateAxisDropdowns(kind, cols, current);
    if name in r.x || name in r.y {
      var d :| (AcceptsOnX(kind, d) || AcceptsOnY(kind, d)) && Column(name, d) in cols;
      ColumnIndexFindsColumn(cols, name, d);
      ColumnIndexFindsColumn(cols, name, Other);
    }
  }

  /** The candidates are distinct, so no column is offered twice. */
  lemma CandidatesAreDistinct(kind: string, cols: seq<Column>, current: AxisChoices)
    requires IsPlotKind(kind) && Distinct(Names(cols))
    ensures var r := UpdateAxisDropdowns(kind, cols, current); Distinct(r.x) && Distinct(r.y)
  {
    var r := UpdateAxisDropdowns(kind, cols, current);
    SubsequenceDistinct(r.x, Names(cols));
    SubsequenceDistinct(r.y, Names(cols));
  }
}
