/** Missing-value cleaning (`perform_cleaning`): dropping the rows that have
    a gap, filling gaps with a per-column statistic, and reading the fill
    strategy from the text the user typed. */
module Cleaning {
  import opened Sequences
  import opened Frames

  /** A row without missing cells. */
  predicate Complete(r: Row)
  {
    forall k :: 0 <= k < |r| ==> r[k].Some?
  }

  /** The rows `dropna()` keeps: those without a missing cell, in their
      original order. */
  function DropIncomplete(rows: seq<Row>): (kept: seq<Row>)
    ensures |kept| <= |rows|
    ensures forall r :: r in kept ==> Complete(r) && r in rows
    ensures IsSubsequence(kept, rows)
  {
    if rows == [] then []
    else
      var rest := DropIncomplete(rows[1..]);
      if Complete(rows[0]) then [rows[0]] + rest else rest
  }

  /** Dropping distributes over concatenation. */
  lemma {:induction false} DropIncompleteAppend(rows: seq<Row>, more: seq<Row>)
    ensures DropIncomplete(rows + more) == DropIncomplete(rows) + DropIncomplete(more)
    decreases |rows|
  {
    if rows == [] {
      assert rows + more == more;
    } else {
      assert (rows + more)[1..] == rows[1..] + more;
      DropIncompleteAppend(rows[1..], more);
    }
  }

  /** Every complete row survives, as often as it occurred; every incomplete
      row is gone. */
  lemma {:induction false} DropIncompleteCounts(rows: seq<Row>, r: Row)
    ensures multiset(DropIncomplete(rows))[r] == if Complete(r) then multiset(rows)[r] else 0
    decreases |rows|
  {
    if rows != [] {
      DropIncompleteCounts(rows[1..], r);
      assert rows == [rows[0]] + rows[1..];
    }
  }

  /** Nothing is dropped exactly when no row has a gap. */
  lemma {:induction false} DropIncompleteKeepsAllIffComplete(rows: seq<Row>)
    ensures DropIncomplete(rows) == rows <==> forall i :: 0 <= i < |rows| ==> Complete(rows[i])
    decreases |rows|
  {
    if rows != [] {
      DropIncompleteKeepsAllIffComplete(rows[1..]);
      assert forall i :: 1 <= i < |rows| ==> rows[i] == rows[1..][i - 1];
      if !Complete(rows[0]) {
        assert |DropIncomplete(rows)| <= |rows[1..]| < |rows|;
      }
    }
  }

  /** Nothing is left exactly when every row has a gap. */
  lemma {:induction false} DropIncompleteEmptyIff(rows: seq<Row>)
    ensures DropIncomplete(rows) == [] <==> forall i :: 0 <= i < |rows| ==> !Complete(rows[i])
    decreases |rows|
  {
    if rows != [] {
      DropIncompleteEmptyIff(rows[1..]);
      assert forall i :: 1 <= i < |rows| ==> rows[i] == rows[1..][i - 1];
    }
  }

  /** Dropping twice drops nothing more. */
  lemma DropIncompleteIdempotent(rows: seq<Row>)
    ensures DropIncomplete(DropIncomplete(rows)) == DropIncomplete(rows)
  {
    var kept := DropIncomplete(rows);
    assert forall i :: 0 <= i < |kept| ==> kept[i] in kept;
    DropIncompleteKeepsAllIffComplete(kept);
  }

  /** After dropping, no column of a well-formed table has a missing cell. */
  lemma NoMissingAfterDrop(f: Frame, j: nat)
    requires WellFormed(f) && j < |f.columns|
    ensures forall r :: r in DropIncomplete(f.rows) ==> j < |r|
    ensures MissingCount(DropIncomplete(f.rows), j) == 0
  {
    var kept := DropIncomplete(f.rows);
    assert forall i :: 0 <= i < |kept| ==> kept[i] in kept;
  }

  /** `dropna(inplace=True)`: compacts the rows, keeping the complete ones. */
  method DropIncompleteRows(rows: seq<Row>) returns (kept: seq<Row>)
    ensures kept == DropIncomplete(rows)
  {
    kept := [];
    var i := 0;
    while i < |rows|
      invariant 0 <= i <= |rows|
      invariant kept == DropIncomplete(rows[..i])
    {
      assert rows[..i + 1] == rows[..i] + [rows[i]];
      DropIncompleteAppend(rows[..i], [rows[i]]);
      assert DropIncomplete([rows[i]]) == if Complete(rows[i]) then [rows[i]] else [] by {
        assert [rows[i]][1..] == [];
      }
      if Complete(rows[i]) {
        kept := kept + [rows[i]];
      }
      i := i + 1;
    }
    assert rows[..i] == rows;
  }

  /** The statistic `fillna` uses. */
  datatype FillStrategy = Mean | Median

  /** Lower-casing as needed to compare with "mean" and "median". */
  function LowerChar(c: char): char
  {
    if 'A' <= c <= 'Z' then (c as int - 'A' as int + 'a' as int) as char else c
  }

  /** `str.lower()` on the letters the comparison can match. */
  function Lower(s: string): (t: string)
    ensures |t| == |s|
    ensures forall i :: 0 <= i < |s| ==> t[i] == LowerChar(s[i])
  {
    if s == [] then [] else [LowerChar(s[0])] + Lower(s[1..])
  }

  /** `s` spells the lower-case word `word` in any mix of upper- and
      lower-case letters. */
  predicate SpellsIgnoringCase(s: string, word: string)
  {
    |s| == |word| &&
    forall i :: 0 <= i < |s| ==> s[i] == word[i] || (s[i] as int) + ('a' as int - 'A' as int) == word[i] as int
  }

  /** `fill_value_entry.get().lower()` compared with "mean", then "median". */
  function ParseFillStrategy(entry: string): (r: Option<FillStrategy>)
  {
    var w := Lower(entry);
    if w == "mean" then Some(Mean) else if w == "median" then Some(Median) else None
  }

  /** The strategy text is read without regard to letter case, and nothing
      but the two words is accepted. */
  lemma ParseFillStrategyIgnoresCase(entry: string)
    ensures ParseFillStrategy(entry) == Some(Mean) <==> SpellsIgnoringCase(entry, "mean")
    ensures ParseFillStrategy(entry) == Some(Median) <==> SpellsIgnoringCase(entry, "median")
    ensures ParseFillStrategy(entry).None? <==>
      !SpellsIgnoringCase(entry, "mean") && !SpellsIgnoringCase(entry, "median")
  {
    LowerMatches(entry, "mean");
    LowerMatches(entry, "median");
  }

  /** Lower-casing yields an all-lower-case word exactly when the text spells
      it in any letter case. */
  lemma LowerMatches(s: string, word: string)
    requires forall i :: 0 <= i < |word| ==> 'a' <= word[i] <= 'z'
    ensures Lower(s) == word <==> SpellsIgnoringCase(s, word)
  {
    if Lower(s) == word {
      forall i | 0 <= i < |s| ensures s[i] == word[i] || (s[i] as int) + ('a' as int - 'A' as int) == word[i] as int {
        assert Lower(s)[i] == LowerChar(s[i]);
      }
    }
    if SpellsIgnoringCase(s, word) {
      forall i | 0 <= i < |s| ensures Lower(s)[i] == word[i] {
        assert s[i] != word[i] ==> 'A' <= s[i] <= 'Z';
      }
    }
  }

  /** One row after `fillna(values)`: a missing cell in a column that has a
      fill value takes it; every other cell is kept. */
  function FillRow(r: Row, cols: seq<Column>, fills: map<string, Value>): (filled: Row)
    requires |r| == |cols|
    ensures |filled| == |r|
  {
    seq(|r|, k requires 0 <= k < |r| =>
      if r[k].None? && cols[k].name in fills then Some(fills[cols[k].name]) else r[k])
  }

  /** `fillna(values)` on the whole table, with the per-column statistic
      as `fills` (column name to value). */
  function FillMissing(f: Frame, fills: map<string, Value>): (g: Frame)
    requires WellFormed(f)
    ensures WellFormed(g) && g.columns == f.columns && |g.rows| == |f.rows|
    ensures forall i, k :: 0 <= i < |f.rows| && 0 <= k < |f.columns| && f.rows[i][k].Some? ==>
      g.rows[i][k] == f.rows[i][k]
    ensures forall i, k :: 0 <= i < |f.rows| && 0 <= k < |f.columns| && f.rows[i][k].None? ==>
      g.rows[i][k] == if f.columns[k].name in fills then Some(fills[f.columns[k].name]) else None
  {
    var rows := seq(|f.rows|, i requires 0 <= i < |f.rows| =>
      assert f.rows[i] in f.rows; FillRow(f.rows[i], f.columns, fills));
    assert forall r :: r in rows ==> |r| == |f.columns|;
    Frame(f.columns, rows)
  }

  /** A column with a fill value has no gap left; the gaps of any other
      column are as many as before. */
  lemma {:induction false} FillMissingCounts(f: Frame, fills: map<string, Value>, j: nat)
    requires WellFormed(f) && j < |f.columns|
    ensures var g := FillMissing(f, fills);
      forall r :: r in g.rows ==> j < |r|
    ensures MissingCount(FillMissing(f, fills).rows, j) ==
      if f.columns[j].name in fills then 0 else MissingCount(f.rows, j)
    decreases |f.rows|
  {
    var g := FillMissing(f, fills);
    if f.rows != [] {
      var f' := Frame(f.columns, f.rows[1..]);
      assert forall r :: r in f'.rows ==> r in f.rows;
      FillMissingCounts(f', fills, j);
      var g' := FillMissing(f', fills);
      assert g'.rows == g.rows[1..];
      assert g.rows[0][j].None? <==> f.rows[0][j].None? && f.columns[j].name !in fills;
    }
  }

  /** Filling twice with the same values changes nothing more. */
  lemma FillMissingIdempotent(f: Frame, fills: map<string, Value>)
    requires WellFormed(f)
    ensures FillMissing(FillMissing(f, fills), fills) == FillMissing(f, fills)
  {
    var g := FillMissing(f, fills);
    var h := FillMissing(g, fills);
    assert forall i :: 0 <= i < |g.rows| ==> h.rows[i] == g.rows[i];
  }
}
