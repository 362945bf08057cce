# Whisper evaluation notebook: normaliser and CER table

A Dafny model of the computational core of the Whisper evaluation notebook (`app.py`, a
marimo app). The notebook loads a CSV of transcription pairs (`Actual` reference text,
`Predict` model output, plus `Path` and `Sampling Rate`), normalises both transcripts with
`process_content`, scores each row with the character error rate (`CER %`), reports the
mean, minimum and maximum of that column, and shows the rows whose `CER %` is at most a
slider value, sorted by `CER %`, without the `Path` and `Sampling Rate` columns.

Modules, one per piece of the notebook:

- `Normalizer` (`normalizer.dfy`): the symbol list, `process_content` as a loop of
  delete-every-occurrence passes (`ProcessContent`), and its meaning as a filter
  (`Normalize`, defined through `Strip`).
- `NormalizerExamples` (`normalizer_examples.dfy`): the removal set written out, and the
  "hello world" example.
- `Aggregate` (`aggregate.dfy`): `mean()`, `min()` and `max()` of the `CER %` column.
- `Scoring` (`scoring.dfy`): rows, scored rows, and the scoring cell.
- `ResultView` (`result_view.dfy`): the threshold filter, the sort, the column drop and the
  renumbering.
- `Notebook` (`notebook.dfy`): the cells composed into one function.
- `Options`, `Sequences`: the option type and the subsequence relation.

Modelling choices:

- CER values are integers in hundredths of a percent. This matches the rounding to two
  decimals in the scoring cell. The mean is an exact `real`.
- The character-error-rate function comes from an external library. Here it is a function
  parameter of type `Scorer = (string, string) -> Option<nat>`. It is applied to the
  normalised texts and already scaled to hundredths. `None` stands for the library raising,
  for example on an empty reference. If the scorer raises on any row, the whole cell fails.
- The mean, min and max of an empty column are NaN in pandas, and `Summarize` returns
  `None` for an empty column. The notebook never reaches that case: on a CSV file without
  rows, `df.apply(..., axis=1)` at app.py:73 returns an empty frame instead of a column, and
  assigning it to the single column `CER %` raises. `ScoringCell`, and with it `Evaluate`,
  therefore gives no result for zero rows.
- The last entry of the symbol list is the empty string. Python's `s.replace('', '')`
  returns `s`, so `Delete` leaves the text unchanged for it. The list therefore removes
  29 distinct characters.
- `sort_values` uses quicksort by default, which is not stable, so no contract states the
  order of rows with equal `CER %`.
- An empty reference text is left to the scorer: whatever the library does with it is the
  scorer's value, or `None` when it raises.

## Model

| member | source | states |
|---|---|---|
| `Normalizer.ProcessContent` | app.py:50-59 | running the deletion pass for each of the list's symbols in order gives exactly the input filtered to characters outside the removal set, in their original order (`Normalize`) |
| `Normalizer.DeleteSymbols` | app.py:57-58 | for any list of symbols of at most one character, the deletion passes in list order remove exactly the characters the list names and keep the rest in order |
| `Normalizer.Delete` | app.py:57-58 | one `replace(symbol, '')` step: deleting the empty symbol changes nothing; deleting a one-character symbol leaves a subsequence of the text in which that character occurs zero times and every other character exactly as often as before |
| `Normalizer.Normalize` | app.py:50-59 | the normalised text has no character from the removal set and is no longer than the input |
| `Normalizer.NormalizeIdempotent` | app.py:57-58 | normalising twice gives the same text as normalising once |
| `Normalizer.NormalizeIsSubsequence` | app.py:57-58 | normalising only deletes: the output is a subsequence of the input |
| `Normalizer.NormalizeCounts` | app.py:57-58 | each character outside the removal set occurs in the output exactly as often as in the input; a character in the set never occurs in the output |
| `Normalizer.NormalizeOnlySymbols` | app.py:57-59 | a text made only of listed symbols, the empty text included, normalises to the empty string |
| `Normalizer.NormalizeNoSymbols` | app.py:57-59 | a text without listed symbols is left unchanged |
| `Normalizer.NormalizeAppend` | app.py:57-58 | normalising a concatenation is concatenating the normalised parts |
| `NormalizerExamples.LatinBracketsRemoved` | app.py:52 | the round, square and curly brackets and the angle brackets are removed |
| `NormalizerExamples.QuotesAndCommaRemoved` | app.py:53 | the curly double and single quotation marks, the guillemets and the comma are removed |
| `NormalizerExamples.CornerBracketsMarkerAndHyphenRemoved` | app.py:54 | the four CJK corner brackets, the subword marker U+2581 and the hyphen are removed |
| `NormalizerExamples.KhmerSignsAndSpacingRemoved` | app.py:55 | the Khmer signs U+17D6, U+17D4, U+17DB and U+17D5, the exclamation mark, the zero-width space, the en dash and the space are removed |
| `NormalizerExamples.RemovedCharsWithinListed` | app.py:51-56 | no character outside those 29 is removed |
| `NormalizerExamples.RemovedCharsListed` | app.py:51-56 | the removal set is exactly the 29 written-out characters |
| `NormalizerExamples.HelloWorldStrip` | app.py:57-58 | for any removal set holding the space and none of the letters of "helloworld", filtering "hello world" gives "helloworld" |
| `NormalizerExamples.HelloWorldNormalised` | app.py:50-59 | "hello world" normalises to "helloworld" |
| `Aggregate.Min` | app.py:77 | the minimum of a non-empty column is one of its values and no value is smaller |
| `Aggregate.Max` | app.py:78 | the maximum of a non-empty column is one of its values and no value is larger |
| `Aggregate.Mean` | app.py:76 | the mean counted once per value adds up to the column's sum |
| `Aggregate.SumBetweenMinAndMax` | app.py:76-78 | `min * n <= sum <= max * n` for a column of n > 0 values |
| `Aggregate.MeanBetweenMinAndMax` | app.py:76-78 | the mean lies between the minimum and the maximum |
| `Aggregate.Summarize` | app.py:76-78 | no statistics exactly when the column is empty (pandas NaN); otherwise min and max are values of the column that bound every value, and the mean lies between them |
| `Aggregate.SummarizeExample` | app.py:76-78 | the column 10 %, 20 %, 30 % has mean 20 %, min 10 % and max 30 % |
| `Scoring.ScoreRow` | app.py:71-73 | a scored row holds the normalised `Actual` and `Predict`, keeps `Path` and `Sampling Rate`, and carries the scorer's value on the normalised pair; it fails exactly when the scorer fails on that pair |
| `Scoring.ScoreTable` | app.py:71-73 | row by row, the table is produced exactly when every row can be scored; it then has one scored row per input row, in order |
| `Scoring.ScoringCell` | app.py:71-73 | the scoring cell produces a table exactly when the file has at least one row and every row can be scored; the table then has one scored row per input row, in order |
| `Scoring.ScoredTextIsNormal` | app.py:71-72 | after the cell, every `Actual` and `Predict` value is a fixed point of the normaliser |
| `Scoring.TableStatistics` | app.py:76-78 | whenever the `CER %` column has statistics, the min and max are the `CER %` of some row, every row's `CER %` lies between them, and the mean lies between min and max |
| `ResultView.KeepAtMost` | app.py:115 | every kept row has `CER %` at most the threshold; every row at or under the threshold is kept as often as it occurs and no other row is kept; the kept rows stay in table order |
| `ResultView.SortByCer` | app.py:116 | the sorted rows are a permutation of the input rows and ascend by `CER %` |
| `ResultView.Project` | app.py:117-119 | dropping the two columns and renumbering keeps the number of rows |
| `ResultView.ProjectKeepsColumns` | app.py:117-119 | each output row keeps the `Actual`, `Predict` and `CER %` of the row at the same position |
| `ResultView.ResultTable` | app.py:115-119 | the displayed table is the filtered rows, counted with multiplicity, in some ascending `CER %` order, each without its two dropped columns; every displayed `CER %` is at most the threshold and the column ascends |
| `ResultView.KeepAtMostEverything` | app.py:115 | a threshold at or above every `CER %` keeps the whole table unchanged |
| `ResultView.KeepAtMostNothing` | app.py:115 | a threshold below every `CER %` keeps no row |
| `ResultView.ResultTableEmpty` | app.py:115-119 | a threshold below every `CER %` displays an empty table |
| `ResultView.ResultTableEverything` | app.py:115-119 | a threshold at or above every `CER %` displays every row, in some ascending `CER %` order, each without its two dropped columns |
| `ResultView.ResultTableRowsFromTable` | app.py:115-119 | every displayed row is some table row at or under the threshold, without its two dropped columns |
| `ResultView.ResultTableSize` | app.py:115-119 | the displayed table has at most as many rows as the scored table |
| `Notebook.Evaluate` | app.py:69-121 | a report exists exactly when the file has rows and every row can be scored; its statistics are those of the whole `CER %` column; the displayed table is the scored rows at or under the threshold, counted with multiplicity, in some ascending `CER %` order, each without its two dropped columns; it has no more rows than the file, all at or under the threshold, in ascending `CER %` |
| `Notebook.DisplayedTextIsNormal` | app.py:71-119 | every displayed `Actual` and `Predict` is normalised text |
| `Notebook.DisplayedRowsAreScored` | app.py:71-119 | every displayed row is some loaded row normalised and scored, with a score at most the threshold |
| `Notebook.StatisticsCoverWholeTable` | app.py:73-78 | the statistics bound the `CER %` of every scored row, not just of the displayed ones |
| `Notebook.StatisticsFromScoredRows` | app.py:73-78 | the reported min and max are values of the whole `CER %` column, whether or not their rows are displayed |

## Left out

- The marimo app and its UI cells: markdown, dropdown, slider widget, `vstack`/`hstack` and table rendering. These are presentation only.
- Loading the CSV with `pd.read_csv` and building its path from the dropdown value. This is file I/O, so the model takes the rows as input.
- The slider's range and step, which come from `slider.from_series(..., step=10)`. The threshold is any integer.
- The internals of the character-error-rate library and the unused `wer` import. The scorer is an abstract parameter.
- Float arithmetic: `* 100`, `round(..., 2)` and the `.2f` formatting of the mean. Values are integers in hundredths, and the mean is an exact real.
- Summarize: the mean is the exact quotient of the sum by the count, not pandas' floating-point mean.
- Delete: only symbols of at most one character are modelled, because the list uses no others. General substring replacement is not modelled.
- Scoring.ScoreTable: it models the per-row apply only and gives the empty table for zero rows. The failure of app.py:73 on a frame without rows is stated by `ScoringCell`, which is what `Evaluate` uses.
- ProcessContent: cells that pandas reads as NaN are not strings, and `process_content` would raise on them. The model's rows always hold strings.
- SortByCer: the model sorts by insertion, so ties come out in one particular order. Pandas' quicksort may order ties differently. No contract states the tie order.
- The pandas index column and `reset_index`: a sequence's positions stand for the renumbered index.
- The multi-model comparison notebook and its file-name parsing are not part of this model.
