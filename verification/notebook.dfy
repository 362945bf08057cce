/** The evaluation notebook as one pull-based computation: the loaded rows, the scorer and
    the slider value go in; the CER statistics and the displayed table come out. */
module Notebook {

  import opened Options
  import opened Normalizer
  import opened Aggregate
  import opened Scoring
  import opened ResultView

  /** What the notebook shows: the statistics of the whole `CER %` column and the table. */
  datatype Report = Report(stats: Stats, table: seq<DisplayRow>)

  /** Score the rows, summarise the whole `CER %` column, then filter and sort for display.
      There is no report when the CSV file has no rows or the scorer raises on some row. */
  function Evaluate(rows: seq<Row>, cer: Scorer, threshold: int): (r: Option<Report>)
    ensures r.Some? <==> |rows| > 0 && AllScorable(rows, cer)
    ensures r.Some? ==> Some(r.value.stats) == Summarize(CerColumn(ScoreTable(rows, cer).value))
    ensures r.Some? ==> exists order :: ArrangedByCer(order, KeepAtMost(ScoreTable(rows, cer).value, threshold))
                                        && r.value.table == Project(order)
    ensures r.Some? ==> |r.value.table| <= |rows|
    ensures r.Some? ==> forall i, j :: 0 <= i < j < |r.value.table| ==> r.value.table[i].cer <= r.value.table[j].cer
    ensures r.Some? ==> forall i :: 0 <= i < |r.value.table| ==> r.value.table[i].cer <= threshold
  {
    match ScoringCell(rows, cer)
    case None => None
    case Some(scored) =>
      var stats, table := Summarize(CerColumn(scored)), ResultTable(scored, threshold);
      assert stats.Some?;
      ResultTableSize(scored, threshold);
      Some(Report(stats.value, table))
  }

  /** Every displayed transcript is normalised text: it holds no removed symbol and
      normalising it again changes nothing. */
  lemma DisplayedTextIsNormal(rows: seq<Row>, cer: Scorer, threshold: int)
    requires |rows| > 0 && AllScorable(rows, cer)
    ensures forall d :: d in Evaluate(rows, cer, threshold).value.table ==>
      Normalize(d.actual) == d.actual && Normalize(d.predict) == d.predict
  {
    var scored := ScoreTable(rows, cer).value;
    ResultTableRowsFromTable(scored, threshold);
    ScoredTextIsNormal(rows, cer);
  }

  /** Every displayed row is a loaded row, normalised and scored, whose score is at most the
      threshold. */
  lemma DisplayedRowsAreScored(rows: seq<Row>, cer: Scorer, threshold: int)
    requires |rows| > 0 && AllScorable(rows, cer)
    ensures forall d :: d in Evaluate(rows, cer, threshold).value.table ==>
      exists i :: 0 <= i < |rows|
        && d.actual == Normalize(rows[i].actual)
        && d.predict == Normalize(rows[i].predict)
        && Some(d.cer) == cer(d.actual, d.predict)
        && d.cer <= threshold
  {
    var scored := ScoreTable(rows, cer).value;
    ResultTableRowsFromTable(scored, threshold);
    forall d | d in Evaluate(rows, cer, threshold).value.table
      ensures exists i :: 0 <= i < |rows|
                && d.actual == Normalize(rows[i].actual)
                && d.predict == Normalize(rows[i].predict)
                && Some(d.cer) == cer(d.actual, d.predict)
                && d.cer <= threshold
    {
      var i :| 0 <= i < |scored| && scored[i].cer <= threshold && DropColumns(scored[i]) == d;
      assert Some(scored[i]) == ScoreRow(rows[i], cer);
    }
  }

  /** The statistics cover every scored row, not only the displayed ones: the score of every
      row lies between the minimum and the maximum. */
  lemma StatisticsCoverWholeTable(rows: seq<Row>, cer: Scorer, threshold: int)
    requires |rows| > 0 && AllScorable(rows, cer)
    ensures var stats, scored := Evaluate(rows, cer, threshold).value.stats, ScoreTable(rows, cer).value;
      forall i :: 0 <= i < |scored| ==> stats.min <= scored[i].cer <= stats.max
  {
    var scored := ScoreTable(rows, cer).value;
    TableStatistics(scored, Evaluate(rows, cer, threshold).value.stats);
  }

  /** The reported minimum and maximum are values of the whole `CER %` column, whether or not
      their rows are displayed. */
  lemma StatisticsFromScoredRows(rows: seq<Row>, cer: Scorer, threshold: int)
    requires |rows| > 0 && AllScorable(rows, cer)
    ensures Evaluate(rows, cer, threshold).value.stats.min in CerColumn(ScoreTable(rows, cer).value)
    ensures Evaluate(rows, cer, threshold).value.stats.max in CerColumn(ScoreTable(rows, cer).value)
  {
    var scored := ScoreTable(rows, cer).value;
    var stats := Evaluate(rows, cer, threshold).value.stats;
    TableStatistics(scored, stats);
    var lo :| 0 <= lo < |scored| && scored[lo].cer == stats.min;
    var hi :| 0 <= hi < |scored| && scored[hi].cer == stats.max;
    assert CerColumn(scored)[lo] == stats.min && CerColumn(scored)[hi] == stats.max;
  }

}
