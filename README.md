# Hydrological statistics, modelled in Dafny

This project models the statistical routines of a hydrology teaching notebook
(`HidrologiaEstatistica.py`). The notebook itself is mostly prose, spreadsheet loading and plots. The routines modelled are:

- **Frequency tables.** Absolute, relative and cumulative-relative frequencies of a discrete sample, the binned (histogram) tables of a continuous sample, and the mode of both.
- **Order statistics.** The in-place sort applied to the notebook's tables, quartiles and percentiles by linear interpolation, the box-plot summary, and the flow-duration curve of a daily discharge record.
- **Plotting positions.** Weibull plotting positions of annual maxima and minima (rank, probability, return period), and the return-period/probability grids filled by index in loops.
- **Annual series.** Per-year maximum, minimum and mean of a daily record, together with the dates of the extremes. Calendar years and the hydrological year ending in August are both supported, as is reordering the monthly means into the hydrological year.
- **Regression.** Simple linear regression by the normal equations.
- **Inference.** The t confidence interval for a mean and the test statistics: one-sample T and Z, two-sample Welch T with Welch–Satterthwaite degrees of freedom, the pooled T, the chi-square statistic K for a variance and the F ratio of two variances. Each comes with its two-sided decision rule.

Everything is stated over exact `real`s. Critical values of the t, normal, chi-square and F distributions are parameters. Statistics that contain a square root are handled in squared form: the rule |T| > c becomes T² > c² for c ≥ 0, and a lemma ties the two.

Modules, one per file:

| file | module | contents |
|---|---|---|
| `sums.dfy` | `Sums` | sum, mean, min, max, sample variance (divisor N−1), sum of squared deviations |
| `frequency.dfy` | `Frequency` | frequency tables, histogram bins, mode, the rain-days, dice and annual-rainfall examples |
| `order_stats.dfy` | `OrderStatistics` | in-place sort of a table (`array`), value-level sort, interpolated percentiles, box-plot statistics, the infiltration example |
| `flow_duration.dfy` | `FlowDuration` | class `DurationTable` (copy, sort descending, add `NrSup`, add `Percent`) |
| `plotting_positions.dfy` | `PlottingPositions` | average and floored ranks, Weibull probability and return period, class `RankedTable`, return-period grids, normal quantile fill |
| `annual.dfy` | `AnnualSeries` | date slicing, calendar/hydrological year, per-year summaries, month reordering |
| `regression.dfy` | `Regression` | least-squares line from column totals, normal equations, recovery of exact lines |
| `inference.dfy` | `Inference` | interval, test statistics, degrees of freedom, decision rules, worked examples |

## Model

| member | source | states |
|---|---|---|
| Sums.VarianceZeroIffConstant | HidrologiaEstatistica.py:1699-1701 | the sample variance (ddof=1) is never negative, and is zero exactly when all observations are equal |
| Sums.MeanBetweenMinMax | HidrologiaEstatistica.py:1218-1221 | the mean of a nonempty sample lies between its minimum and its maximum |
| Sums.SumSqDevExpand | HidrologiaEstatistica.py:2143 | Σ(x−c)² = Σx² − 2cΣx + Nc² for every centre c |
| Frequency.Keys | HidrologiaEstatistica.py:185 | the keys of the table are strictly ascending and are exactly the values that occur in the sample |
| Frequency.AbsoluteTableSound | HidrologiaEstatistica.py:184-185 | the table's keys are ascending and are exactly the sample's values; each count is the number of occurrences and is positive; the counts sum to N |
| Frequency.RelativeTableSound | HidrologiaEstatistica.py:193 | each relative frequency is count/N, in table order, and they sum to exactly 1 |
| Frequency.CumulativeTableSound | HidrologiaEstatistica.py:210 | the cumulative relative frequencies are nondecreasing and end at exactly 1 |
| Frequency.CumSumSound | HidrologiaEstatistica.py:309 | the running sum of nonnegative terms is nondecreasing and ends at the total |
| Frequency.BinIndexSound | HidrologiaEstatistica.py:271 | with increasing edges, a value gets a bin exactly when it lies between the first and last edge, and then it lies in that bin only (half-open bins, last bin closed) |
| Frequency.EdgesIncreasing | HidrologiaEstatistica.py:271 | `range(start, stop, width)` edges are strictly increasing, one width apart |
| Frequency.HistogramSound | HidrologiaEstatistica.py:271-291 | there is one count per bin, each count is the number of samples in that bin, and the counts sum to the number of samples in range |
| Frequency.BinnedRelativeSound | HidrologiaEstatistica.py:300-309 | bin counts divided by their total exist exactly when the total is positive; they are then nonnegative, sum to 1, and their running sum is nondecreasing and ends at 1 |
| Frequency.ModeSound | HidrologiaEstatistica.py:409 | `idxmax` picks a row of the table whose count is maximal, and no earlier row has that count |
| Frequency.SampleModeSound | HidrologiaEstatistica.py:184-185 | the mode of a sample occurs in it, occurs at least as often as any value, and is the smallest of the values that occur most often |
| Frequency.ModalClassEqualWidth | HidrologiaEstatistica.py:454-462 | with equal-width bins, the modal class is [start + m·width, start + m·width + width) for the first bin m with the maximal count: every earlier bin holds fewer |
| Frequency.DaysOfRainExample | HidrologiaEstatistica.py:193-197 | 26 Januaries; 14 days of rain occurs 7 times, a share between 26.92% and 26.93% |
| Frequency.UniqueMode | HidrologiaEstatistica.py:155-158 | a value that occurs strictly more often than every other value of the sample is the mode of its frequency table, with its count |
| Frequency.DaysOfRainMode | HidrologiaEstatistica.py:155-164 | the mode of the rain-day table is the row (14, 7): 14 days of rain is the most frequent value |
| Frequency.DaysOfRainRange | HidrologiaEstatistica.py:153-164 | every January had between 11 and 17 days of rain, and each count from 11 to 17 occurs |
| Frequency.KeysOfRange | HidrologiaEstatistica.py:185 | a sample that covers every integer from lo to hi, and nothing else, has the keys lo, lo+1, …, hi |
| Frequency.DiceModeExample | HidrologiaEstatistica.py:387-409 | for the counts [1,3,1,4,5,2,3,0,1] on sums 3..11, the mode is 7, with count 5 |
| Frequency.RainfallHistogramExample | HidrologiaEstatistica.py:231-271 | the edges 1100, 1200, …, 1800 are increasing, and all 26 annual totals fall in some bin |
| OrderStatistics.SortValues | HidrologiaEstatistica.py:596 | sorting in place leaves the table sorted on the key (ascending or descending) and a permutation of its old rows |
| OrderStatistics.SinkLast | HidrologiaEstatistica.py:596 | one insertion step extends the sorted prefix by one row, keeps the same multiset of rows, and leaves the rows after it untouched |
| OrderStatistics.Swap | HidrologiaEstatistica.py:596 | exchanging two rows changes only those two positions |
| OrderStatistics.SortedCopy | HidrologiaEstatistica.py:684-685 | the value-level sort is ascending and has the same multiset of values as the sample |
| OrderStatistics.SortedUnique | HidrologiaEstatistica.py:684-685 | two ascending sequences with the same multiset of values are equal, so the sorted order is unique |
| OrderStatistics.InterpolateMonotone | HidrologiaEstatistica.py:685 | on sorted data, the interpolated order statistic never decreases as the fraction grows |
| OrderStatistics.InterpolateEnds | HidrologiaEstatistica.py:685 | the fractions 0 and 1 give the first and the last order statistic |
| OrderStatistics.PercentileDefined | HidrologiaEstatistica.py:685 | a percentile exists exactly when the sample is nonempty and p is in [0, 100] |
| OrderStatistics.PercentileBounds | HidrologiaEstatistica.py:685 | every percentile lies between the sample's minimum and maximum |
| OrderStatistics.PercentileExtremes | HidrologiaEstatistica.py:685-692 | the 0th percentile is the minimum and the 100th is the maximum |
| OrderStatistics.PercentileMonotone | HidrologiaEstatistica.py:685-691 | percentiles never decrease as p grows, so Q1 ≤ median ≤ Q3 |
| OrderStatistics.BoxplotStatsOrdered | HidrologiaEstatistica.py:685-692 | box-plot statistics exist exactly for a nonempty sample; then lower whisker ≤ Q1 ≤ median ≤ Q3 ≤ upper whisker, all within [min, max], and the mean is within [min, max] |
| OrderStatistics.WhiskersAtExtremes | HidrologiaEstatistica.py:685-692 | when no value lies beyond 1.5 interquartile ranges from the box, the whiskers are the sample's minimum and maximum and the box is Q1, median, mean, Q3 |
| OrderStatistics.RearrangeKeepsMultiset | HidrologiaEstatistica.py:677 | rearranging a sample by a one-to-one index map keeps its multiset of values |
| OrderStatistics.InfiltrationPermutation | HidrologiaEstatistica.py:677-684 | the 20 infiltration results listed in ascending order are a permutation of the sample |
| OrderStatistics.InfiltrationOrderStatistics | HidrologiaEstatistica.py:677-684 | the sorted infiltration sample is that ascending list |
| OrderStatistics.InfiltrationPercentiles | HidrologiaEstatistica.py:677-692 | any arrangement of the infiltration sample has minimum 22, Q1 36.5, median 46, Q3 55.5 and maximum 69 |
| OrderStatistics.InfiltrationSample | HidrologiaEstatistica.py:684-691 | the sample as listed has Q1 36.5, median 46 and Q3 55.5 |
| OrderStatistics.InfiltrationMean | HidrologiaEstatistica.py:677-692 | the 20 infiltration results have mean 46.55 |
| OrderStatistics.InfiltrationBoxplotOf | HidrologiaEstatistica.py:677-692 | any arrangement of the infiltration sample (with its mean 46.55) has box-plot statistics whiskers 22 and 69, Q1 36.5, median 46, mean 46.55, Q3 55.5 |
| OrderStatistics.InfiltrationBoxplot | HidrologiaEstatistica.py:677-692 | the box plot of the infiltration sample as listed: whiskers 22 and 69, Q1 36.5, median 46, mean 46.55, Q3 55.5, no outliers |
| FlowDuration.DurationTable.Copy | HidrologiaEstatistica.py:595 | the copy is a fresh table holding the same rows, with no position or percent columns yet |
| FlowDuration.DurationTable.SortByFlowDescending | HidrologiaEstatistica.py:596 | after the in-place sort, discharge is nonincreasing down the table and the rows are a permutation of the old ones |
| FlowDuration.DurationTable.AddPositions | HidrologiaEstatistica.py:588-597 | the `NrSup` column is 1..N down the table; nothing else changes |
| FlowDuration.DurationTable.AddPercent | HidrologiaEstatistica.py:598 | the `Percent` column is NrSup/N·100, row by row; nothing else changes |
| FlowDuration.DurationCurve | HidrologiaEstatistica.py:588-598 | the curve holds the record's rows sorted by descending discharge, with positions 1..N and percent pos/N·100 |
| FlowDuration.PercentIncreasing | HidrologiaEstatistica.py:598 | the percent column strictly increases, from 100/N to exactly 100 |
| FlowDuration.PercentIsExceedance | HidrologiaEstatistica.py:596-598 | a row's percent never exceeds the share of days with discharge at least its own; it equals that share at the last row of a run of equal discharges |
| PlottingPositions.CountsPartition | HidrologiaEstatistica.py:1440 | every value of the series is below, equal to or above v, and only one of these |
| PlottingPositions.MaximaRankCounts | HidrologiaEstatistica.py:1440 | (N+1) − average ascending rank = #greater + (#equal+1)/2 |
| PlottingPositions.MaximaRankBounds | HidrologiaEstatistica.py:1440 | a maxima rank lies in [1, N] |
| PlottingPositions.MaximaRankOne | HidrologiaEstatistica.py:1440 | rank 1 goes exactly to a largest value that is not tied |
| PlottingPositions.MaximaRankLast | HidrologiaEstatistica.py:1440 | rank N goes exactly to a smallest value that is not tied |
| PlottingPositions.MaximaRankOrder | HidrologiaEstatistica.py:1440 | a larger discharge gets a strictly smaller maxima rank |
| PlottingPositions.MinimaRankCounts | HidrologiaEstatistica.py:1550-1551 | the floored rank is #less + ⌊(#equal+1)/2⌋ and lies within one below the average rank |
| PlottingPositions.MinimaRankBounds | HidrologiaEstatistica.py:1550-1551 | after flooring, a minima rank still lies in [1, N] |
| PlottingPositions.MinimaRankOrder | HidrologiaEstatistica.py:1550-1551 | a smaller discharge gets a strictly smaller minima rank |
| PlottingPositions.WeibullBounds | HidrologiaEstatistica.py:1442-1443 | for a rank in [1, N], Prob = Rank/(N+1) lies strictly in (0, 1) and TR = 1/Prob = (N+1)/Rank > 1, with TR·Prob = 1 |
| PlottingPositions.RankOrderIsFlowOrder | HidrologiaEstatistica.py:1440-1441 | sorting on the rank sorts maxima by descending discharge and minima by ascending discharge |
| PlottingPositions.RankInRange | HidrologiaEstatistica.py:1440 | every rank stored in a ranked row lies in [1, N] |
| PlottingPositions.RankedTable.RankMaxima | HidrologiaEstatistica.py:1440 | the new table's rows carry the maxima rank of their discharge |
| PlottingPositions.RankedTable.RankMinima | HidrologiaEstatistica.py:1550-1551 | the new table's rows carry the floored ascending rank of their discharge |
| PlottingPositions.RankedTable.SortByRank | HidrologiaEstatistica.py:1441 | the in-place sort orders rows by rank and thereby by discharge, as a permutation of the old rows |
| PlottingPositions.RankedTable.AddProbability | HidrologiaEstatistica.py:1442 | the `Prob` column is Rank/(N+1), and each value lies strictly in (0, 1) |
| PlottingPositions.RankedTable.AddReturnPeriod | HidrologiaEstatistica.py:1443 | the `TR` column is 1/Prob, which exceeds 1, and TR·Prob = 1 |
| PlottingPositions.WeibullMaxima | HidrologiaEstatistica.py:1440-1443 | the full maxima table: ranked, sorted by rank (descending discharge), with Prob in (0, 1) and TR > 1 on every row |
| PlottingPositions.WeibullMinima | HidrologiaEstatistica.py:1550-1554 | the full minima table: floored ranks, sorted by rank (ascending discharge), with Prob in (0, 1) and TR > 1 on every row |
| PlottingPositions.Arange | HidrologiaEstatistica.py:1499 | `arange(start, stop)` has stop − start elements start, start+1, … (none when stop ≤ start) |
| PlottingPositions.FillNonExceedance | HidrologiaEstatistica.py:1501-1505 | the counter loop sets every Prob[i] to 1 − 1/TR[i] |
| PlottingPositions.FillMinimumProbability | HidrologiaEstatistica.py:1565-1569 | the counter loop sets every Prob[i] to 1/TR[i] |
| PlottingPositions.MinimumProbabilityProperties | HidrologiaEstatistica.py:1567 | 1/T is in (0, 1], strictly decreasing in T, and its reciprocal gives T back |
| PlottingPositions.NonExceedanceProperties | HidrologiaEstatistica.py:1503 | 1 − 1/T is in [0, 1), strictly increasing in T, and 1/(1 − p) gives T back |
| PlottingPositions.MaximaGrid | HidrologiaEstatistica.py:1499-1505 | 999 return periods 2..1000 with non-exceedance probabilities that start at 0.5, rise strictly below 1, and convert back to TR |
| PlottingPositions.MinimaGrid | HidrologiaEstatistica.py:1563-1569 | 100 return periods 1..100 with probabilities 1/T of falling to or below the T-year minimum, which start at 1, fall strictly and stay above 0, and convert back to TR |
| PlottingPositions.StandardScoreInverse | HidrologiaEstatistica.py:1512 | `norm.ppf` with loc and scale is loc + scale·z, and standardising undoes it in both directions |
| PlottingPositions.NormalQuantileMonotone | HidrologiaEstatistica.py:1512 | with a positive scale, larger standard scores give larger discharges |
| PlottingPositions.FillQuantiles | HidrologiaEstatistica.py:1570-1573 | the counter loop fills the first len(z) entries with the quantiles and leaves the rest of the preallocated series as it was; increasing scores give increasing discharges |
| AnnualSeries.Select | HidrologiaEstatistica.py:1217-1218 | selecting by date range, year label or month keeps exactly the observations that match, and never more than the record holds |
| AnnualSeries.Positions | HidrologiaEstatistica.py:1217-1218 | the record positions of the matching observations, strictly ascending, each in range and matching, and every matching position is listed |
| AnnualSeries.SelectInRecordOrder | HidrologiaEstatistica.py:1217-1218 | the selection is the record's matching observations in record order: its k-th element is the observation at the k-th matching position |
| AnnualSeries.Slice | HidrologiaEstatistica.py:1217 | the slice keeps exactly the observations dated between its two end dates, inclusive |
| AnnualSeries.WaterYearSpan | HidrologiaEstatistica.py:1397-1398 | under the year ending in August, year y holds September–December of y−1 and January–August of y |
| AnnualSeries.Group | HidrologiaEstatistica.py:1218 | a year's group holds exactly the observations labelled with that year |
| AnnualSeries.GroupIndexInRecord | HidrologiaEstatistica.py:1218 | the k-th day of a year's group sits at some record position i, and every earlier day of that year in the record comes before it in the group |
| AnnualSeries.AnnualExtremesFirstInRecord | HidrologiaEstatistica.py:1218-1222 | for every year label, the date of the maximum (minimum) is that of a day of the year with that flow, and every earlier day of the year in the record has a strictly smaller (larger) flow |
| AnnualSeries.SummarySound | HidrologiaEstatistica.py:1218-1222 | each value of the year lies in [min, max]; `idxmax`/`idxmin` give the date of the first observation that attains the max/min; the mean lies in [min, max] |
| AnnualSeries.AnnualSummariesSound | HidrologiaEstatistica.py:1218-1222 | one summary per year label, with years strictly ascending; every observation's year has a summary, which summarises exactly that year's group |
| AnnualSeries.MonthOrderPermutation | HidrologiaEstatistica.py:1380 | the water-year month order is a rotation of 1..12: each month exactly once, starting at the first month of the water year |
| AnnualSeries.MonthOrderExamples | HidrologiaEstatistica.py:1380 | starting at October gives [10, 11, 12, 1, …, 9]; starting at March gives [3, …, 12, 1, 2] |
| AnnualSeries.MonthFlows | HidrologiaEstatistica.py:1376-1377 | the flows of a month are exactly the flows of the observations in that month |
| AnnualSeries.MonthFlowsNonEmpty | HidrologiaEstatistica.py:1376-1377 | a month has flows exactly when some observation falls in it |
| AnnualSeries.ReorderedMonthlyMeansSound | HidrologiaEstatistica.py:1377-1380 | position i of the reindexed table holds the mean of month MonthOrder[i]; it is missing exactly when that month has no observations, and otherwise lies within that month's range |
| Regression.DenominatorSign | HidrologiaEstatistica.py:865 | NΣx² − (Σx)² is never negative, and is zero exactly when the sample is empty or all x are equal |
| Regression.FitDefined | HidrologiaEstatistica.py:865-880 | a fit exists exactly when there is at least one point and not all x are equal |
| Regression.FitThroughMeans | HidrologiaEstatistica.py:872-880 | the fitted line passes through (x̄, ȳ) |
| Regression.NormalEquations | HidrologiaEstatistica.py:865-880 | the residuals of the fitted line sum to zero, and so do the residuals weighted by x: both normal equations hold |
| Regression.FitMinimisesSquaredResiduals | HidrologiaEstatistica.py:802 | no line has a smaller sum of squared residuals than the fitted line: the fit is the least-squares line |
| Regression.FitRecoversLine | HidrologiaEstatistica.py:865-880 | points that lie exactly on a line y = a + bx (not all x equal) are fitted with that very a and b |
| Regression.SumCombination | HidrologiaEstatistica.py:846-852 | a column a·s + b·t sums to a·Σs + b·Σt |
| Regression.TotalsNormal | HidrologiaEstatistica.py:846-880 | from the five totals, the fitted a and b satisfy Σy = aN + bΣx and Σxy = aΣx + bΣx² |
| Regression.TotalsRecover | HidrologiaEstatistica.py:865-880 | totals generated by a line (with a nonzero denominator) give back that line |
| Inference.ExceedsCriticalIsAbs | HidrologiaEstatistica.py:1836 | for c ≥ 0, the squared rule T² > c² holds exactly when abs(T) > c |
| Inference.ExceedsCriticalMonotone | HidrologiaEstatistica.py:1836 | a statistic that exceeds a larger critical value also exceeds a smaller one |
| Inference.ScoreSqNonnegative | HidrologiaEstatistica.py:1867 | (d/se)² is never negative, and is zero exactly when d = 0 |
| Inference.ScoreSqCompare | HidrologiaEstatistica.py:1836 | (d/se)² > c² exactly when d² > c²·se² |
| Inference.OneSampleTDefined | HidrologiaEstatistica.py:1863-1867 | T² exists exactly when N ≥ 2 and the sample is not constant; it is then ≥ 0, and zero exactly when the mean equals μ0 |
| Inference.ZWithSampleVarianceIsT | HidrologiaEstatistica.py:1935-1941 | Z computed with the sample variance as σ² equals T |
| Inference.TIntervalShape | HidrologiaEstatistica.py:1699-1703 | the interval contains the sample mean and extends t·s/√N on each side |
| Inference.TIntervalNested | HidrologiaEstatistica.py:1699-1703 | a larger critical value gives a wider interval that contains the narrower one |
| Inference.TIntervalDuality | HidrologiaEstatistica.py:1836 | μ0 lies in the t-interval exactly when the two-sided T test does not reject μ0 at the same critical value |
| Inference.WelchTSymmetric | HidrologiaEstatistica.py:2073 | swapping the two samples leaves the Welch T² unchanged |
| Inference.WelchTDefined | HidrologiaEstatistica.py:2065-2073 | Welch T² exists exactly when both samples have at least two values and they are not both constant |
| Inference.SatterthwaiteBounds | HidrologiaEstatistica.py:2074 | with a = Sx²/N, b = Sy²/M, p = N−1, q = M−1, the degrees of freedom lie between min(p, q) and p + q |
| Inference.WelchDfBounds | HidrologiaEstatistica.py:2074 | the Welch–Satterthwaite df lies between min(N, M) − 1 and N + M − 2 |
| Inference.PooledEqualsWelch | HidrologiaEstatistica.py:2013-2030 | when both sample variances are equal, the pooled T² equals the Welch T² |
| Inference.ChiSquareAsSumOfSquares | HidrologiaEstatistica.py:2176 | K·σ0² = Σ(x − x̄)², so K = (N−1)s²/σ0² is the scaled sum of squared deviations |
| Inference.ChiSquareZeroIffConstant | HidrologiaEstatistica.py:2176 | K ≥ 0, and K = 0 exactly when all observations are equal |
| Inference.VarianceRatio | HidrologiaEstatistica.py:2272 | the ratio f of two variances satisfies f·Sy² = Sx², and is positive when both are |
| Inference.FRatioSwap | HidrologiaEstatistica.py:2272 | f is positive, and swapping the samples gives 1/f |
| Inference.OutsideRangeReciprocal | HidrologiaEstatistica.py:2251 | f is outside [lower, upper] exactly when 1/f is outside [1/upper, 1/lower], so the rule is the same for either ordering of the samples |
| Inference.SmallSampleMoments | HidrologiaEstatistica.py:1686-1701 | the sample [7, 4, 2, 5, 7] has mean 5 and variance 4.5 (s ≈ 2.12) |
| Inference.SmallSampleInterval | HidrologiaEstatistica.py:1686-1703 | with t = 2.132 and se = s/√5, the 90% interval is about [2.98, 7.02] |
| Inference.ParaopebaMeanTests | HidrologiaEstatistica.py:1851-1928 | for any 62 July flows with mean 44.526 and S = 12.406, the one-sample T against μ0 = 47.65 exists and does not reject at 1.9996, while Z with σ² = 153.9183 rejects at 1.96 |
| Inference.ParaopebaWelch | HidrologiaEstatistica.py:2048-2056 | for any two 31-year halves with means 45.08 and 43.97 and S = 11.505 and 13.415, the Welch T exists and does not reject at 2.0, and the Welch df lies between 58 and 59 |
| Inference.ParaopebaVariance | HidrologiaEstatistica.py:2161-2176 | for any 62 July flows with sample variance 153.9183, the statistic K against σ0² = 150 lies between 62.593 and 62.594 and does not exceed the critical value 80.232 |
| Inference.EffluentPrecision | HidrologiaEstatistica.py:2261-2272 | for any samples of 7 and 9 values with standard deviations 1.9 and 0.8, the F ratio of the samples is 5.640625, above 3.58, so the test rejects |

## Left out

- Spreadsheet loading (`read_excel`), `dropna`, every plot and every `print`. These are input and presentation. The samples a statement needs are parameters, or constants where the notebook lists them inline.
- The scipy and statsmodels numerics: the `t`, `norm`, `chi2` and `F` quantiles and tails, `ttest_ind`, `ttest_1samp`, `ztest` and `OLS`. Critical values and standard scores are parameters instead.
- Square roots. Statistics containing a root are stated in squared form, and the standard error of the t-interval is a parameter `se` with se ≥ 0 and se²·N = s².
- The log-normal steps (`log10` and `10**` of quantiles) and the log-normal quantile loop. Exact reals have no logarithm.
- The `crosstab` table and the unseeded coin-flip simulation, which are illustrative only.
- IEEE double rounding. Arithmetic is exact.
- numpy returns `inf`/`nan` when dividing by a zero variance or a zero regression denominator, pandas gives `nan` for 0/0 when the bin counts at line 300 are all zero (`Frequency.BinnedRelative`), and the box plot of an empty sample is all `nan` (`OrderStatistics.BoxplotStats`). The model returns `None` or `NoFit` instead. In the minima grid the first return period is T = 1, so Prob[0] = 1 and `norm.ppf` at line 1572 gives +inf for VazaoNorm[0]; the standard scores passed to `PlottingPositions.FillQuantiles` are reals and cannot carry that value.
- The t-interval cells at lines 1724 and 1760 pass a hard-coded 4 and 14 as degrees of freedom. Since the critical value is a parameter, the model follows the comment at lines 1680-1688 (N − 1) and takes the critical value as given.
- The `ttest_ind` call at line 2083 uses the pooled variance. The model has both statistics, and `Inference.PooledEqualsWelch` relates them. The p-value it prints is not modelled.
- The one-sided F tail computed with `f.isf`/`f.cdf` at lines 2275-2278 is not modelled. The rule modelled is the two-sided one of line 2251, with its bounds given.
- `value_counts(sort=False)` does not fix an order. The model lists keys in ascending order, as the comment at lines 200-201 describes.
- OrderStatistics.SortValues: ties may come out in any order (pandas' default sort is not stable), so the contract states sortedness and permutation only.
- PlottingPositions.RankedTable.RankMaxima and RankMinima: the ghost fields `sample` and `maxima` record the discharge column and the direction that the ranks refer to.
- Inference.ParaopebaMeanTests, Inference.ParaopebaWelch, Inference.ParaopebaVariance: the 62 July flows are in a spreadsheet, so these lemmas hold for any samples with the summary values quoted in the text (means, standard deviations, N), not for the flows themselves.
- Inference.EffluentPrecision: the effluent samples are not listed, so the lemma takes any samples of the quoted sizes and standard deviations.
- Inference.SmallSampleInterval takes the critical value 2.132 and the root `se` as given.
- AnnualSeries.Slice: the record is assumed to be in date order already, so the slice keeps the record's order (`AnnualSeries.SelectInRecordOrder`); no sorting by date is modelled.
- The coefficient of variation and the other `describe()` summaries outside the cells above.
