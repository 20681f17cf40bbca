# Beta calculator: a verified model of its core

Three Streamlit scripts estimate the beta of stock symbols against a market index from
daily closing prices downloaded with yfinance:

- `Eg.py` takes several symbols, one per text field, and a window ending at a chosen date.
- `Veta.py` takes one comma-separated text of symbols and a window ending today.
- `Beta.py` takes one symbol and a window ending at a chosen date.

Each script adds a `Daily Change (%)` column to the stock frame and to the index frame. It
then aligns the two frames on their dates into an intersection and a non-intersection, and
divides the sample covariance of the two change columns by the sample variance of the index
change column. `Eg.py` and `Veta.py` collect a beta per symbol in a dictionary and a summary
list, and write an average beta below the summary in their Excel export.

This project models that core in Dafny:

| module | file | models |
|---|---|---|
| `Wrappers` | `wrappers.dfy` | `Option` and `Result` |
| `Numbers` | `numbers.dfy` | doubles that may be NaN or infinite, IEEE division and addition, `round(x, 2)` |
| `Sequences` | `sequences.dfy` | subsequences, strictly increasing keys, key sets and counts |
| `Series` | `series.dfy` | downloaded frames, `Close.pct_change() * 100`, the download window |
| `Align` | `align.dfy` | the inner merge, the sorted outer merge with `_merge`, and its split |
| `Stats` | `stats.dfy` | `Series.var()` and `Series.cov()` with `ddof=1` and NaN skipping |
| `Estimator` | `estimator.dfy` | the guarded beta of `Eg.py`/`Veta.py` and the unguarded beta of `Beta.py` |
| `Summary` | `summary.dfy` | the per-symbol loop shared by `Eg.py` and `Veta.py`, and the average beta |
| `Eg` | `eg.dfy` | `Eg.py`'s symbols, window and non-intersection |
| `Veta` | `veta.dfy` | `Veta.py`'s symbol parsing, window and `drop_duplicates` non-intersection |
| `BetaPage` | `beta_page.dfy` | `Beta.py`'s handler: error messages, rounded changes, the outer-merge split |
| `Example` | `example.dfy` | a four-day example carried through to its beta, 2.65 in `Eg.py`/`Veta.py` and 2.64 in `Beta.py` |

Prices and changes are exact reals. A beta is a `Float`: a finite value, an infinity or
NaN, because the scripts show NaN and infinite betas as they are. The download is a
function from symbol to frame, fixed for the window. A frame's rows have unique dates in
ascending order, as yfinance delivers them. The per-symbol loops, and `Eg.py`'s collection
of the non-empty symbol fields, are methods with loop invariants. Each is proved equal to a
recursive specification function, and the properties are lemmas about those functions.

Where the scripts' stated intent and their code differ, the model follows the code:

- With fewer than two defined index changes, the variance is NaN. NaN is not equal to 0, so
  the guard `if variance != 0` passes and the beta is NaN, not `None` (`Estimator.ShortSampleIsNaN`).
- The average beta divides by every summary row, including rows whose beta is `None`. When
  every beta is `None` it is 0.0, not missing (see Findings).
- `Veta.py` drops duplicated rows by their values and ignores their dates. Its
  non-intersection is therefore not a date difference (`Veta.SharedDateKept`,
  `Veta.UnsharedDatesDropped`).

## Model

| member | source | states |
|---|---|---|
| Series.PercentChange | Eg.py:47 | one cell of the change column is defined exactly when the previous close is non-zero |
| Series.WithDailyChange | Eg.py:47-48 | the change column keeps every row's date, close and other columns; the first row has no change; row i's change is taken against row i-1 of the same frame |
| Series.WithDailyChangeAscending | Veta.py:37-38 | adding the column keeps the frame's dates unique and ascending |
| Series.PercentChangeCompounds | Eg.py:47 | the change inverts compounding: the close is the previous close grown by the recorded percentage |
| Series.WindowStart | Eg.py:24-34 | the window start lies before its end, exactly `num_days` days back and within the number input's maximum; each script passes its own maximum as `MaxDays`: 1000 for Eg.py:24-34 and Veta.py:15-27, 720 for Beta.py:13-20 |
| Align.At | Eg.py:51-56 | a date lookup finds a row exactly when the frame has that date, and the row found carries that date |
| Align.CloseOf | Beta.py:64-65 | the price is NaN exactly when the frame lacks the row, and otherwise is that row's close |
| Align.InnerJoinDates | Eg.py:51-56 | the intersection's dates are exactly the dates both frames have |
| Align.InnerJoinAscending | Eg.py:51-56 | the intersection follows the stock frame's order, so its dates are unique and ascending |
| Align.InnerJoinRows | Eg.py:51-56 | each intersection row carries the stock close and change and the index close and change of its own date |
| Align.InnerJoinSameDates | Eg.py:51-56 | when the two frames have the same dates, the intersection pairs their rows one by one |
| Align.IntersectionChanges | Eg.py:47-56 | an intersection row's change is the change against the previous row of the same frame, not of the intersection; a frame's first date keeps no change |
| Align.OuterMergeDates | Beta.py:57 | the outer merge has exactly the dates of either frame |
| Align.OuterMergeAscending | Beta.py:57 | the outer merge lists its dates sorted, each once |
| Align.OuterMergeRows | Beta.py:57 | each outer-merge row holds each frame's row of that date, or nothing for a frame without it |
| Align.IntersectingIsInnerJoin | Beta.py:57-61 | the `'both'` rows of the outer merge are the inner merge, row for row |
| Align.InnerJoin | Eg.py:51-56 | the inner merge has at most as many rows as the stock frame |
| Align.OuterMerge | Beta.py:57 | the outer merge has at least as many rows as either frame and at most as many as both together |
| Align.Intersecting | Beta.py:60-61 | the `'both'` rows are at most the merge's rows |
| Align.OneSided | Beta.py:64-65 | the non-`'both'` rows are at most the merge's rows |
| Align.MergeSplit | Beta.py:60-65 | every outer-merge row is either `'both'` or not: the two parts' sizes add up to the merge's |
| Align.OneSidedDates | Beta.py:64-65 | the non-`'both'` rows are the merge's dates that some frame lacks |
| Align.OneSidedAscending | Beta.py:64-65 | the non-`'both'` rows keep the merge's ascending order |
| Align.OneSidedRows | Beta.py:64-65 | each non-`'both'` row has each frame's close at its date, NaN where the frame lacks it |
| Stats.SampleVariance | Eg.py:69 | the variance is defined exactly when at least two values are present, and is never negative |
| Stats.SampleCovariance | Eg.py:68 | the covariance is defined exactly when at least two rows have both values |
| Stats.Present | Eg.py:69 | the non-NaN values are never more than the column's cells |
| Stats.PresentSpec | Eg.py:69 | the values `var` uses are exactly the values of the non-NaN cells, each as many times as it occurs in the column |
| Stats.PresentCounts | Eg.py:69 | a value is used by `var` once per cell that holds it, so repeated values are not merged |
| Stats.Complete | Eg.py:68 | the pairwise-complete rows are never more than the rows |
| Stats.CompleteSpec | Eg.py:68 | the pairs `cov` uses are exactly the rows where both cells have a value, each as many times as it occurs |
| Stats.CompleteCounts | Eg.py:68 | a pair is used by `cov` once per row that holds both of its values |
| Stats.CovarianceWithItself | Eg.py:68-69 | covariance and variance use the same n-1 convention: a column's covariance with itself is its variance |
| Stats.VarianceZeroIffConstant | Eg.py:69-70 | the variance is exactly zero if and only if at least two values are present and all are equal |
| Stats.CovarianceScaled | Eg.py:68 | scaling the columns by a and b scales the covariance by a·b and leaves its definedness alone |
| Stats.VarianceScaled | Eg.py:69 | scaling a column by a scales its variance by a·a |
| Numbers.FromOption | Eg.py:68-70 | a missing statistic is exactly NaN, a present one is that finite value |
| Numbers.Div | Beta.py:84 | a finite non-zero divisor gives the exact quotient; a zero divisor gives no finite value; NaN propagates |
| Numbers.Add | Eg.py:178 | finite values add exactly; NaN absorbs |
| Numbers.HundredthsHalfEven | Eg.py:70 | the chosen hundredths count is within half a unit of x·100, and a tie picks the even count |
| Numbers.Round2 | Eg.py:70 | the rounded value is a whole number of hundredths within 0.005 of the input |
| Numbers.Round2Exact | Beta.py:84 | a value that is already a whole number of hundredths is unchanged by rounding |
| Numbers.Round2Idempotent | Beta.py:29 | rounding an already rounded value changes nothing |
| Numbers.RoundFloat | Beta.py:84 | rounding keeps a double finite exactly when it was, rounds a finite value, and leaves NaN and infinities alone |
| Numbers.RoundOption | Beta.py:29 | rounding a cell keeps a missing value missing and rounds a present one |
| Estimator.StockChanges | Eg.py:68 | the stock change column holds row i's stock change at position i |
| Estimator.IndexChanges | Eg.py:69 | the index change column holds row i's index change at position i |
| Estimator.ChangePairs | Eg.py:68 | the two change columns are paired row by row |
| Estimator.Covariance | Eg.py:68 | the covariance is defined exactly when at least two rows have both changes |
| Estimator.Variance | Eg.py:69 | the variance is defined exactly when at least two index changes are present, and is never negative |
| Estimator.RawBeta | Beta.py:84 | the unrounded quotient is cov/var when both are defined and var is non-zero, NaN when either is missing, and not finite when var is zero |
| Estimator.GuardedBeta | Eg.py:68-70 | the beta is `None` exactly when the variance is zero; otherwise it is the rounded quotient, or NaN when cov or var is missing; it is never infinite |
| Estimator.UnguardedBeta | Beta.py:82-84 | with no guard, a zero variance gives no finite beta; otherwise the rounded quotient, or NaN |
| Estimator.GuardedAgreesWithUnguarded | Veta.py:49-51 | the guarded and unguarded estimators agree wherever the guard does not fire; where it fires, the unguarded one is not finite |
| Estimator.GuardFiresIffIndexFlat | Eg.py:69-70 | the guard fires exactly when at least two index changes are present and all are equal |
| Estimator.ShortSampleIsNaN | Eg.py:68-70 | with fewer than two index changes both estimators give NaN, not `None` |
| Estimator.BetaOfIndexItself | Eg.py:68-70 | a stock whose changes equal the index's has beta 1 |
| Estimator.RawBetaScalesWithStock | Eg.py:68-70 | multiplying every stock change by k leaves the variance alone and multiplies the unrounded beta by k |
| Estimator.RawBetaScalesWithIndex | Eg.py:68-70 | multiplying every index change by a non-zero k divides the unrounded beta by k; the guard fires, and cov and var are defined, exactly as before |
| Example.ExampleChanges | Eg.py:47-48 | closes 100, 102, 101, 105 and 1000, 1010, 1005, 1015 give changes 2, -50/51, 400/101 and 1, -50/101, 200/201 |
| Example.ExampleIntersection | Eg.py:51-56 | the example's frames, with their change columns, have all four days in common, the first without changes |
| Example.ExamplePipeline | Eg.py:47-56 | the change columns and the inner merge turn the example's closes into its intersection |
| Example.ExampleBeta | Eg.py:68-70 | on the example's unrounded changes the quotient is 41365503659/15608175167; the guarded beta of `Eg.py`/`Veta.py` is 2.65, and the unguarded formula on these same changes gives 2.65 too |
| Example.ExampleVariance | Eg.py:69 | the example's index variance is 918127951/1236391803 |
| Example.ExampleCovariance | Eg.py:68 | the example's covariance is 617395577/313711353 |
| Example.EndToEnd | Eg.py:47-74 | from the example's downloaded closes, `Eg.py` and `Veta.py` store the beta 2.65 (unrounded 41365503659/15608175167) |
| Example.ExampleRoundings | Beta.py:29-37 | the example's changes round half-even to 2.0, -0.98, 3.96 and 1.0, -0.5, 1.0 |
| Example.ExampleRoundedChanges | Beta.py:26-40 | `Beta.py`'s rounded change columns of the example's downloads |
| Example.ExampleRoundedIntersection | Beta.py:57-61 | the `'both'` rows of the rounded frames pair all four days |
| Example.ExampleRoundedVariance | Beta.py:83 | the rounded index changes have variance 0.75 |
| Example.ExampleRoundedCovariance | Beta.py:82 | the rounded change pairs have covariance 1.98 |
| Example.BetaPageEndToEnd | Beta.py:16-84 | on the example's downloads `Beta.py` shows no error and beta 1.98/0.75 = 2.64, where `Eg.py` and `Veta.py` show 2.65 |
| Summary.Lookup | Eg.py:72-76 | looking a symbol up finds an entry exactly when it is a key |
| Summary.Assign | Eg.py:72-76 | `d[k] = v` keeps an existing key in its place and appends a new key |
| Summary.AssignLookup | Eg.py:72-76 | after `d[k] = v`, k maps to v and every other key to what it mapped to before |
| Summary.AssignDistinct | Eg.py:72-76 | assignment never duplicates a key |
| Summary.Analyse | Eg.py:46-76 | one symbol's intersection has at most the stock frame's rows, and its beta is `None` exactly when the index change variance is zero |
| Summary.SymbolBeta | Eg.py:68-70 | a symbol's beta is `None` exactly when its intersection's index change variance is zero |
| Summary.SummaryOf | Eg.py:42-78 | the summary has no more rows than there are input fields |
| Summary.ResultsOf | Eg.py:42-76 | the dictionary has at most one entry per input symbol |
| Summary.SummaryOrder | Eg.py:42-78 | the summary's symbols are the input symbols with data, in input order |
| Summary.SummaryCounts | Eg.py:42-78 | a symbol with data gets one summary row per time it occurs in the input, so a repeated symbol is counted again in the divisor of Eg.py:178; a symbol without data gets none |
| Summary.SummarySymbolsStep | Eg.py:42-78 | one more input symbol adds exactly its own row to the summary when it has data, and nothing otherwise |
| Summary.SummaryRows | Eg.py:42-78 | every summary row is an input symbol with data and carries that symbol's guarded beta; every input symbol with data has a row |
| Summary.FirstOccurrencesSpec | Eg.py:72 | dropping later repeats keeps every element exactly once |
| Summary.ResultsOfSpec | Eg.py:42-76 | the dictionary holds each input symbol with data exactly once, in the order of its first occurrence, mapped to its intersection, non-intersection and beta, and nothing else |
| Summary.ResultsOfLookup | Eg.py:42-76 | each input symbol with data maps to its analysis and no other symbol is a key, with no key repeated |
| Summary.ResultsOfOrder | Eg.py:72-89 | the keys `.items()` visits are the summary's symbols with later repeats dropped: a symbol typed twice keeps the place of its first row |
| Summary.FetchAll | Veta.py:29-62 | the loop leaves the dictionary and the summary equal to their specifications |
| Summary.PresentBetas | Eg.py:178 | the summed betas are never more than the summary's rows |
| Summary.PresentBetasComplete | Eg.py:178 | every beta that is not `None` is summed |
| Summary.PresentBetasCounts | Eg.py:178 | each beta value is summed once per row holding it, so equal betas of different rows are all summed |
| Summary.PresentBetasSound | Eg.py:178 | only betas that are not `None` are summed, each one some row's beta |
| Summary.NoPresentBetas | Eg.py:178 | with every beta `None`, nothing is summed |
| Summary.AllPresentBetas | Eg.py:178 | with no beta `None`, every row's beta is summed, in row order |
| Summary.SumFloats | Eg.py:178 | a sum of finite betas is finite; a NaN beta anywhere makes the sum NaN |
| Summary.SumOfFiniteBetas | Eg.py:178 | on finite betas the double sum is the exact sum of their values |
| Summary.AverageBeta | Eg.py:176-190 | an empty summary, and only an empty one, fails with the caught division-by-zero message; otherwise the value is the rounded quotient of the double sum of the present betas by the number of all rows |
| Summary.AverageOfMissingBetas | Eg.py:178-179 | a non-empty summary whose betas are all `None` averages to 0.0, neither an error nor missing |
| Summary.AverageOfPresentBetas | Eg.py:178-179 | when no beta is `None`, the average as written equals the corrected average |
| Summary.AverageScaledByPresentShare | Eg.py:178 | on finite betas, the unrounded average as written is the unrounded corrected average times the share of rows that have a beta, and differs from it whenever a beta is missing and the sum is not zero |
| Summary.AverageReachedOnlyWithRows | Eg.py:193-195 | the export runs only with a non-empty results dictionary; then the summary is non-empty too, so the average never hits the division by zero from the page |
| Summary.MeanOfPresent | Veta.py:148 | the corrected average is missing exactly when no beta is present |
| Summary.MeanIgnoresMissing | Veta.py:148 | a row without a beta leaves the corrected average unchanged |
| Summary.MeanOfEqualBetas | Veta.py:148 | when every present beta is c, the corrected average is c rounded |
| Summary.AverageCountsMissingRows | Eg.py:178 | betas 1.0 and `None` give the average 0.5 as written, and 1.0 when corrected |
| Eg.NonEmptySymbolsSpec | Eg.py:14-18 | the kept symbols are exactly the non-empty fields, in field order, each as many times as it was typed |
| Eg.NonEmptySymbolsCounts | Eg.py:14-18 | a non-empty symbol is kept once per field it is typed in; the empty text never |
| Eg.NonEmptySymbols | Eg.py:14-18 | no kept symbol is empty, and there are at most as many as fields |
| Eg.CollectSymbols | Eg.py:14-18 | the collecting loop returns the non-empty fields in order |
| Eg.Residual | Eg.py:59-60 | a row of the frame is kept exactly when its date is not an intersection date, and nothing else is kept |
| Eg.NonIntersectionIsOneSided | Eg.py:59-65 | the non-intersection equals the non-`'both'` rows of the outer merge of the two frames |
| Eg.NonIntersection | Eg.py:59-65 | the non-intersection has at most as many rows as the two frames together |
| Eg.NonIntersectionDates | Eg.py:59-65 | the non-intersection lists, ascending, exactly the dates one frame has and the other lacks; with the intersection it partitions all dates |
| Eg.NonIntersectionRows | Eg.py:61-65 | each non-intersection row has the price of the frame that has its date and NaN for the other |
| Eg.NonIntersectionSpec | Eg.py:59-65 | the non-intersection holds each date exactly one frame has, ascending, with that frame's price and NaN for the other; it shares no date with the intersection, and the two together cover every date |
| Eg.FetchData | Eg.py:36-81 | the handler's dictionary and summary are the loop's specifications over the non-empty symbol fields |
| Veta.TrimStart | Veta.py:25 | the result is a suffix, everything cut is whitespace, and it does not start with whitespace |
| Veta.TrimEnd | Veta.py:25 | the result is a prefix, everything cut is whitespace, and it does not end with whitespace |
| Veta.StripSpec | Veta.py:25 | `strip` returns a slice of the text with only whitespace cut at either end and no whitespace left at either end |
| Veta.StripIdempotent | Veta.py:25 | stripping twice is stripping once |
| Veta.Strip | Veta.py:25 | the stripped text is no longer than the text and neither starts nor ends with whitespace |
| Veta.Split | Veta.py:25 | splitting gives one piece more than there are commas, and no piece holds a comma |
| Veta.JoinSplit | Veta.py:25 | joining the pieces with commas gives the text back |
| Veta.ParseSymbols | Veta.py:25 | symbol i is piece i, stripped |
| Veta.ParseSymbolsSpec | Veta.py:25 | one symbol per piece, empty pieces kept, none with a comma or whitespace at either end |
| Veta.SingletonsSpec | Veta.py:47 | the rows kept are, in order, exactly those whose values occur once in the combined frame |
| Veta.Singletons | Veta.py:47 | the rows kept are at most the rows examined |
| Veta.NonIntersection | Veta.py:47 | the non-intersection has at most as many rows as the two frames together |
| Veta.NonIntersectionSpec | Veta.py:47 | a row is kept exactly when its values occur once among both frames' rows, whatever its date; the kept rows keep their order and their values are unique |
| Veta.SharedDateKept | Veta.py:40-47 | a date both frames have stays in the non-intersection when the two rows differ |
| Veta.UnsharedDatesDropped | Veta.py:40-47 | dates only one frame has are dropped when their rows carry equal values |
| Veta.FetchData | Veta.py:23-62 | the handler's dictionary and summary are the loop's specifications over the parsed symbols |
| BetaPage.RoundedChanges | Beta.py:26-40 | the rounded change column keeps every row's date, close and other columns; the first row has none; row i's change is the rounded change against row i-1 |
| BetaPage.RoundedChangesAscending | Beta.py:28-37 | adding the rounded column keeps the dates unique and ascending |
| BetaPage.Run | Beta.py:16-43 | each empty download shows its own error message and no other message appears (no message when both downloads are non-empty), in stock-then-index order; a report exists exactly when both downloads are non-empty, and is the analysis of the two rounded frames |
| BetaPage.Analyse | Beta.py:57-84 | the `_merge` split puts every outer-merge row in exactly one of the intersecting and non-intersecting parts |
| BetaPage.ReportSpec | Beta.py:57-65 | the intersecting rows are the inner merge; the non-intersecting rows are the dates exactly one frame has, ascending, with one price and one NaN; the two parts partition the dates |
| BetaPage.FlatIndexGivesNoNumber | Beta.py:78-84 | an index whose rounded changes are all equal gives no finite beta |

## Left out

- The Streamlit interface is not modelled: widgets, layout, session state, the success and error banners, the "Display Data" button and the `st.dataframe`/`st.table` rendering.
- The yfinance download is an input function from symbol to frame. Network failures and the window arguments it receives are not modelled.
- The Excel export is not modelled beyond the average beta: sheets, styling, the 31-character sheet names and the NaN/inf cell replacement.
- Summary.AverageBeta: Veta.py:85 opens its workbook without the `nan_inf_to_errors` option that Eg.py:112 sets, so in Veta.py a NaN beta makes the cell write at Veta.py:144 fail and the export shows its error before reaching the average at Veta.py:148. The model gives both scripts Eg.py's behaviour, a NaN average.
- The broad `except Exception` handlers of the Fetch Data buttons are not modelled. The only exception modelled is the export's division by zero on an empty summary.
- Binary floating point is not modelled: prices, changes and statistics are exact reals, so IEEE rounding in `pct_change`, `var` and `cov` is absent. Signed zeros are not modelled either.
- Series.PercentChange: a zero previous close gives a missing change here. pandas gives an infinity (or NaN for 0/0), which then flows into the statistics.
- Duplicate dates within one downloaded frame are not modelled: the alignment lemmas assume unique ascending dates.
- yfinance's MultiIndex columns are not modelled: a frame is one close column plus the other downloaded columns.
- The bounds on the number of companies (1 to 10) and on `num_days` are not enforced by the loop model. `Series.WindowStart` requires the number input's bounds.
- Dates are day numbers, so calendar arithmetic and time zones are not modelled.

## Findings

| source | as written | input that shows it | evidently intended | confidence | as-written member | corrected member |
|---|---|---|---|---|---|---|
| Eg.py:178 (also Veta.py:148) | the sum of the non-`None` betas is divided by the number of all summary rows, so a `None` beta counts as 0 | summary betas 1.0 and `None` give an average of 0.5 | the mean of the non-`None` betas (1.0), and no average when every beta is `None` | medium, not executed | Summary.AverageCountsMissingRows | Summary.MeanIgnoresMissing |
