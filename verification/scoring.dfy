/** The scoring cell of app.py: both transcript columns are normalised, then every row is
    scored with the external character-error-rate function, and the `CER %` column is
    summarised. */
module Scoring {

  import opened Options
  import opened Normalizer
  import opened Aggregate

  /** A row of the loaded CSV file: the audio path and sampling rate pass through untouched. */
  datatype Row = Row(path: string, samplingRate: int, actual: string, predict: string)

  /** A row after the scoring cell: `actual` and `predict` hold the normalised transcripts and
      `cer` the character error rate in hundredths of a percent. */
  datatype ScoredRow = ScoredRow(path: string, samplingRate: int, actual: string, predict: string, cer: nat)

  /** The external character-error-rate function applied to a normalised reference and
      hypothesis, already scaled to hundredths of a percent; `None` when it raises. */
  type Scorer = (string, string) -> Option<nat>

  /** Normalise one row and score it. */
  function ScoreRow(row: Row, cer: Scorer): (r: Option<ScoredRow>)
    ensures r.Some? <==> cer(Normalize(row.actual), Normalize(row.predict)).Some?
    ensures r.Some? ==> r.value.path == row.path && r.value.samplingRate == row.samplingRate
    ensures r.Some? ==> r.value.actual == Normalize(row.actual)
    ensures r.Some? ==> r.value.predict == Normalize(row.predict)
    ensures r.Some? ==> Some(r.value.cer) == cer(r.value.actual, r.value.predict)
  {
    var actual := Normalize(row.actual);
    var predict := Normalize(row.predict);
    match cer(actual, predict)
    case None => None
    case Some(v) => Some(ScoredRow(row.path, row.samplingRate, actual, predict, v))
  }

  /** True iff the scorer accepts every row of the table once it is normalised. */
  predicate AllScorable(rows: seq<Row>, cer: Scorer)
  {
    forall i :: 0 <= i < |rows| ==> ScoreRow(rows[i], cer).Some?
  }

  /** The column assignments of app.py: normalise `Actual` and `Predict` in every row, then
      add `CER %`. If the scorer raises on any row the cell produces no table. */
  function ScoreTable(rows: seq<Row>, cer: Scorer): (r: Option<seq<ScoredRow>>)
    ensures r.Some? <==> AllScorable(rows, cer)
    ensures r.Some? ==> |r.value| == |rows|
    ensures r.Some? ==> forall i :: 0 <= i < |rows| ==> Some(r.value[i]) == ScoreRow(rows[i], cer)
  {
    if |rows| == 0 then Some([])
    else
      match ScoreRow(rows[0], cer)
      case None => None
      case Some(first) =>
        match ScoreTable(rows[1..], cer)
        case None =>
          assert !AllScorable(rows, cer) by {
            var i :| 0 <= i < |rows[1..]| && ScoreRow(rows[1..][i], cer).None?;
            assert rows[i + 1] == rows[1..][i];
          }
          None
        case Some(rest) =>
          assert forall i :: 1 <= i < |rows| ==> rows[i] == rows[1..][i - 1];
          Some([first] + rest)
  }

  /** The whole scoring cell. Row by row it is `ScoreTable`, but a CSV file without rows
      gives no table: `df.apply(..., axis=1)` on an empty frame returns an empty frame rather
      than a column, and assigning that frame to the single column `CER %` raises. */
  function ScoringCell(rows: seq<Row>, cer: Scorer): (r: Option<seq<ScoredRow>>)
    ensures r.Some? <==> |rows| > 0 && AllScorable(rows, cer)
    ensures r.Some? ==> |r.value| == |rows|
    ensures r.Some? ==> forall i :: 0 <= i < |rows| ==> Some(r.value[i]) == ScoreRow(rows[i], cer)
  {
    if |rows| == 0 then None else ScoreTable(rows, cer)
  }

  /** The `CER %` column. */
  function CerColumn(rows: seq<ScoredRow>): (column: seq<int>)
    ensures |column| == |rows|
    ensures forall i :: 0 <= i < |rows| ==> column[i] == rows[i].cer
  {
    seq(|rows|, i requires 0 <= i < |rows| => rows[i].cer)
  }

  /** Every scored row holds normalised text: normalising it again changes nothing, and no
      removed symbol is left in it. */
  lemma ScoredTextIsNormal(rows: seq<Row>, cer: Scorer)
    requires ScoreTable(rows, cer).Some?
    ensures forall i :: 0 <= i < |rows| ==>
      var row := ScoreTable(rows, cer).value[i];
      && Normalize(row.actual) == row.actual
      && Normalize(row.predict) == row.predict
  {
    forall i | 0 <= i < |rows|
      ensures Normalize(ScoreTable(rows, cer).value[i].actual) == ScoreTable(rows, cer).value[i].actual
      ensures Normalize(ScoreTable(rows, cer).value[i].predict) == ScoreTable(rows, cer).value[i].predict
    {
      NormalizeIdempotent(rows[i].actual);
      NormalizeIdempotent(rows[i].predict);
    }
  }

  /** The statistics of the scoring cell are taken over the whole `CER %` column: whenever
      it has statistics, the minimum and maximum are scores of some rows and bound every
      row's score, and the mean lies between them. */
  lemma TableStatistics(rows: seq<ScoredRow>, stats: Stats)
    requires Summarize(CerColumn(rows)) == Some(stats)
    ensures exists i :: 0 <= i < |rows| && rows[i].cer == stats.min
    ensures exists i :: 0 <= i < |rows| && rows[i].cer == stats.max
    ensures forall i :: 0 <= i < |rows| ==> stats.min <= rows[i].cer <= stats.max
    ensures stats.min as real <= stats.mean <= stats.max as real
  {
  }

}
