/** The result-table cell of app.py: keep the rows whose `CER %` is at most the slider value,
    sort them by `CER %`, drop the `Path` and `Sampling Rate` columns and renumber the rows. */
module ResultView {

  import opened Sequences
  import opened Scoring

  /** A row of the displayed table. */
  datatype DisplayRow = DisplayRow(actual: string, predict: string, cer: int)

  /** `df[df['CER %'] <= threshold]`: the rows at or under the threshold, in table order. */
  function KeepAtMost(rows: seq<ScoredRow>, threshold: int): (r: seq<ScoredRow>)
    ensures forall i :: 0 <= i < |r| ==> r[i].cer <= threshold
    ensures forall x :: multiset(r)[x] == if x.cer <= threshold then multiset(rows)[x] else 0
    ensures IsSubsequence(r, rows)
  {
    if |rows| == 0 then []
    else
      var rest := KeepAtMost(rows[1..], threshold);
      assert rows == [rows[0]] + rows[1..];
      if rows[0].cer <= threshold then [rows[0]] + rest
      else rest
  }

  /** True iff the rows are in ascending `CER %` order. */
  predicate SortedByCer(rows: seq<ScoredRow>)
  {
    forall i, j :: 0 <= i < j < |rows| ==> rows[i].cer <= rows[j].cer
  }

  /** Insert a row into a table sorted by `CER %`, keeping it sorted. */
  function Insert(x: ScoredRow, sorted: seq<ScoredRow>): (r: seq<ScoredRow>)
    requires SortedByCer(sorted)
    ensures SortedByCer(r)
    ensures multiset(r) == multiset(sorted) + multiset{x}
    ensures |r| == |sorted| + 1
    ensures r[0] == x || (|sorted| > 0 && r[0] == sorted[0])
  {
    if |sorted| == 0 then [x]
    else if x.cer <= sorted[0].cer then [x] + sorted
    else
      var rest := Insert(x, sorted[1..]);
      assert sorted == [sorted[0]] + sorted[1..];
      assert sorted[0].cer <= rest[0].cer;
      [sorted[0]] + rest
  }

  /** `sort_values('CER %')`: the same rows, counted with multiplicity, in ascending `CER %`
      order. Rows with equal `CER %` may come out in any order. */
  function SortByCer(rows: seq<ScoredRow>): (r: seq<ScoredRow>)
    ensures SortedByCer(r)
    ensures multiset(r) == multiset(rows)
  {
    if |rows| == 0 then []
    else
      assert rows == [rows[0]] + rows[1..];
      Insert(rows[0], SortByCer(rows[1..]))
  }

  /** Drop the `Path` and `Sampling Rate` columns of one row. */
  function DropColumns(row: ScoredRow): DisplayRow
  {
    DisplayRow(row.actual, row.predict, row.cer)
  }

  /** Drop the two columns from every row and number the rows from zero again: the positions
      of a sequence are that numbering. */
  function Project(rows: seq<ScoredRow>): (r: seq<DisplayRow>)
    ensures |r| == |rows|
  {
    if |rows| == 0 then [] else [DropColumns(rows[0])] + Project(rows[1..])
  }

  /** Projection keeps the count and order of the rows and, in each, its `Actual`,
      `Predict` and `CER %` values. */
  lemma {:induction false} ProjectKeepsColumns(rows: seq<ScoredRow>)
    ensures forall i :: 0 <= i < |rows| ==>
      && Project(rows)[i].actual == rows[i].actual
      && Project(rows)[i].predict == rows[i].predict
      && Project(rows)[i].cer == rows[i].cer
  {
    if |rows| > 0 {
      ProjectKeepsColumns(rows[1..]);
      forall i | 1 <= i < |rows|
        ensures Project(rows)[i] == Project(rows[1..])[i - 1] && rows[i] == rows[1..][i - 1]
      {
      }
    }
  }

  /** True iff `order` holds the rows of `rows`, counted with multiplicity, in ascending
      `CER %` order: one of the orders an unstable sort may produce. */
  predicate ArrangedByCer(order: seq<ScoredRow>, rows: seq<ScoredRow>)
  {
    multiset(order) == multiset(rows) && SortedByCer(order)
  }

  /** The whole cell: filter, sort, drop the two columns, renumber. The displayed table is
      the filtered rows in some ascending `CER %` order, without the two columns. */
  function ResultTable(rows: seq<ScoredRow>, threshold: int): (view: seq<DisplayRow>)
    ensures exists order :: ArrangedByCer(order, KeepAtMost(rows, threshold)) && view == Project(order)
    ensures forall i :: 0 <= i < |view| ==> view[i].cer <= threshold
    ensures forall i, j :: 0 <= i < j < |view| ==> view[i].cer <= view[j].cer
  {
    var kept := KeepAtMost(rows, threshold);
    var sorted := SortByCer(kept);
    ProjectKeepsColumns(sorted);
    assert forall i :: 0 <= i < |sorted| ==> sorted[i] in multiset(kept);
    assert ArrangedByCer(sorted, kept);
    Project(sorted)
  }

  /** An arrangement has as many rows as what it arranges. */
  lemma ArrangedLength(order: seq<ScoredRow>, rows: seq<ScoredRow>)
    requires ArrangedByCer(order, rows)
    ensures |order| == |rows|
  {
    assert |order| == |multiset(order)| == |multiset(rows)| == |rows|;
  }

  /** A threshold at or above every `CER %` keeps the whole table, in order. */
  lemma {:induction false} KeepAtMostEverything(rows: seq<ScoredRow>, threshold: int)
    requires forall i :: 0 <= i < |rows| ==> rows[i].cer <= threshold
    ensures KeepAtMost(rows, threshold) == rows
  {
    if |rows| > 0 {
      KeepAtMostEverything(rows[1..], threshold);
      assert rows == [rows[0]] + rows[1..];
    }
  }

  /** A threshold below every `CER %` keeps nothing. */
  lemma KeepAtMostNothing(rows: seq<ScoredRow>, threshold: int)
    requires forall i :: 0 <= i < |rows| ==> threshold < rows[i].cer
    ensures KeepAtMost(rows, threshold) == []
  {
  }

  /** With the slider below every `CER %` the displayed table is empty. */
  lemma ResultTableEmpty(rows: seq<ScoredRow>, threshold: int)
    requires forall i :: 0 <= i < |rows| ==> threshold < rows[i].cer
    ensures ResultTable(rows, threshold) == []
  {
  }

  /** With the slider at or above every `CER %` the displayed table holds every row, without
      its two dropped columns, in ascending `CER %` order. */
  lemma ResultTableEverything(rows: seq<ScoredRow>, threshold: int)
    requires forall i :: 0 <= i < |rows| ==> rows[i].cer <= threshold
    ensures exists order :: ArrangedByCer(order, rows) && ResultTable(rows, threshold) == Project(order)
    ensures |ResultTable(rows, threshold)| == |rows|
  {
    var kept, view := KeepAtMost(rows, threshold), ResultTable(rows, threshold);
    var order :| ArrangedByCer(order, kept) && view == Project(order);
    KeepAtMostEverything(rows, threshold);
    ArrangedLength(order, rows);
  }

  /** Every displayed row comes from a table row at or under the threshold, with its
      `Actual`, `Predict` and `CER %` unchanged. */
  lemma ResultTableRowsFromTable(rows: seq<ScoredRow>, threshold: int)
    ensures forall d :: d in ResultTable(rows, threshold) ==>
      exists i :: 0 <= i < |rows| && rows[i].cer <= threshold && DropColumns(rows[i]) == d
  {
    var kept := KeepAtMost(rows, threshold);
    var view := ResultTable(rows, threshold);
    var order :| ArrangedByCer(order, kept) && view == Project(order);
    ProjectKeepsColumns(order);
    forall d | d in view
      ensures exists i :: 0 <= i < |rows| && rows[i].cer <= threshold && DropColumns(rows[i]) == d
    {
      var j :| 0 <= j < |view| && view[j] == d;
      assert order[j] in multiset(kept);
      assert multiset(rows)[order[j]] > 0;
      var i :| 0 <= i < |rows| && rows[i] == order[j];
      assert DropColumns(rows[i]) == d;
    }
  }

  /** The displayed table never has more rows than the scored table. */
  lemma ResultTableSize(rows: seq<ScoredRow>, threshold: int)
    ensures |ResultTable(rows, threshold)| <= |rows|
  {
    var kept, view := KeepAtMost(rows, threshold), ResultTable(rows, threshold);
    var order :| ArrangedByCer(order, kept) && view == Project(order);
    ArrangedLength(order, kept);
    SubsequenceLength(kept, rows);
  }

}
