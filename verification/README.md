# EstadisticaPy numeric core, in Dafny

This project models the numeric core of EstadisticaPy's `estadisticas/core.py`, a
descriptive-statistics library. The model works over exact `real` numbers, not
Python floats. It covers three parts of the library:

- the quantitative analyzer (`AnalizadorCuantitativo`, on top of `AnalizadorBase`);
- the bivariate analyzer (`AnalizadorBivariado`);
- the frequency counting (`collections.Counter`) that the mode relies on.

Every operation is a pure function over sequences. Every operation that can fail
returns a `Result` or an `Outcome`, whose error constructors name the Python exception that the
code raises at that point. The rest return plain values. Among those, the
quartiles, the IQR and the five-number summary return a value on a single
observation, where the code raises IndexError; see "## Left out" and Findings.
The one stateful piece, the memoised sorted copy, is a small class.

Modules, one file each:

- `results.dfy` (`Results`): the error kinds. `IsValueError` says which of them an
  `except ValueError` clause catches.
- `seqmath.dfy` (`SeqMath`): sums, extremes, squared and cross deviations, and
  small facts of real arithmetic. A product is written as `Scale(f, d)` where
  facts about it have to carry over to compound arguments.
- `sorting.dfy` (`Sorting`): Python's `sorted`. A sorted copy of a sequence is
  unique, and its ends are the minimum and the maximum.
- `frequencies.dfy` (`Frequencies`): `Counter`. Its keys come in first-occurrence
  order, and each count is the number of occurrences.
- `quantitative.dfy` (`Quantitative`): construction, mean, median, mode,
  variance, percentiles, quartiles, IQR, range and the five-number summary. It
  also holds the `Analyzer` class with its cached sorted copy.
- `bivariate.dfy` (`Bivariate`): paired construction, covariance, simple linear
  regression, the correlation guard and the error recovery of `resumen`.

Modelling choices:

- A raw list element is an `Observation`. It is either `Numeric(v)`, meaning
  `float()` accepts it and yields `v`, or `NonNumeric`, meaning `float()` rejects
  it.
- Tied modes are reported in the order the code produces them. That is the
  first-occurrence order of `Counter`, not ascending order.
- `percentil` is modelled twice:
  - `PercentileAsWritten` follows the code exactly;
  - `Percentile` clamps the upper neighbour to the last element.

  The two agree from two observations on. They differ on a single observation;
  see Findings. Quartiles, IQR and the five-number summary use the corrected
  `Percentile`.

## Model

| member | source | states |
|---|---|---|
| Quantitative.NewBase | estadisticas/core.py:21-25 | construction fails with EmptyData exactly when the list is empty; otherwise the data is kept unchanged and is non-empty |
| Quantitative.NewSample | estadisticas/core.py:48-60 | a non-coercible element gives NonNumericData (the TypeError) exactly when one is present, checked before emptiness; EmptyData exactly for an empty list; otherwise the sample holds the coerced values in order |
| Sorting.Sort | estadisticas/core.py:62-66 | `sorted` returns an ascending permutation (same multiset) of the data, of the same length |
| Sorting.SortedCopyUnique | estadisticas/core.py:62-66 | any two ascending permutations of the same data are equal, so a cached sorted copy equals a fresh sort of data that has not changed since |
| Quantitative.Analyzer.SortedData | estadisticas/core.py:62-66 | the first call stores the sorted copy; later calls return the stored copy unchanged; the result always equals `Sort(data)` of the data held since construction |
| Sorting.SortedCopyEnds | estadisticas/core.py:132-137 | the first sorted element is the minimum, the last is the maximum, and every element lies between them |
| SeqMath.Min | estadisticas/core.py:186-188 | `minimo` is an element of the data and no element is smaller |
| SeqMath.Max | estadisticas/core.py:189-191 | `maximo` is an element of the data and no element is larger |
| Quantitative.Range | estadisticas/core.py:192-194 | `rango` is never negative, and it is zero exactly when the data is constant |
| SeqMath.AverageBounds | estadisticas/core.py:68-70 | the sum over `n` lies between the minimum and the maximum |
| Quantitative.Mean | estadisticas/core.py:68-70 | `media` lies between the minimum and the maximum, and equals the common value of constant data |
| Quantitative.Median | estadisticas/core.py:72-80 | `mediana` lies between the minimum and the maximum |
| Quantitative.MiddleOf | estadisticas/core.py:74-80 | the middle element (odd `n`) or the mean of the two middle elements (even `n`) of sorted data lies between its first and last elements |
| Quantitative.MedianIsPercentile50 | estadisticas/core.py:72-80 | the median equals the 50th percentile, as its documentation says |
| Quantitative.Analyzer.CachedMedian | estadisticas/core.py:72-80 | `mediana` computed through the cache equals `Median` of the data |
| Frequencies.CountAllCounts | estadisticas/core.py:84 | every key of the Counter has a count, and that count is the number of occurrences of the key |
| Frequencies.CountAllOrdered | estadisticas/core.py:84 | the Counter's keys are the data's values in order of first occurrence, hence without repeats |
| Frequencies.CountAllSize | estadisticas/core.py:84-89 | the Counter has as many keys as there are observations exactly when no value repeats |
| Frequencies.CountAll | estadisticas/core.py:84 | a value is a key (and has a count) exactly when it occurs in the data, and there are at most `n` keys |
| Frequencies.MaxCount | estadisticas/core.py:85 | `max(frecuencias.values())` is attained by some key and bounds every key's count |
| Frequencies.KeysWithCount | estadisticas/core.py:87 | the comprehension keeps exactly the keys with the given count, and keeps them all when every key has that count |
| Frequencies.KeysWithCountOrdered | estadisticas/core.py:87 | the comprehension keeps the keys in first-occurrence order |
| Quantitative.ModesSpec | estadisticas/core.py:84-89 | `modas` holds exactly the values of maximal frequency, without repeats, in first-occurrence order, never empty, and has `n` entries exactly when no value repeats |
| Quantitative.ModeSpec | estadisticas/core.py:82-94 | `moda` reports no mode exactly when all values are distinct (including `n` = 1); a single value is the unique most frequent one; a list has at least two entries, no repeats, first-occurrence order, and holds exactly the most frequent values |
| Quantitative.Variance | estadisticas/core.py:96-106 | `varianza` fails with a division by zero exactly for the sample form of one observation; otherwise it is non-negative, and zero exactly for constant data |
| Quantitative.PopulationAtMostSample | estadisticas/core.py:96-106 | from two observations on, the population variance is at most the sample variance |
| Quantitative.VariationGuard | estadisticas/core.py:112-120 | `coeficiente_variacion` refuses a zero mean (ValueError); otherwise it divides by zero exactly for one observation, and succeeds for more |
| Quantitative.Rank | estadisticas/core.py:140 | the fractional rank `(p/100)*(n-1)` of a `p` in [0, 100] lies in [0, n-1] |
| Quantitative.RankMonotone | estadisticas/core.py:140 | a larger `p` gives a rank at least as large |
| Quantitative.RankBelowLast | estadisticas/core.py:140-142 | for `p` below 100 the rank is below `n-1` once there are two elements, and is 0 for one element |
| Quantitative.Lerp | estadisticas/core.py:145-146 | the interpolated value lies between the two neighbours when the fraction is in [0, 1] |
| Quantitative.LerpMonotone | estadisticas/core.py:145-146 | on an ascending pair, a larger fraction gives a value at least as large |
| Quantitative.Interpolate | estadisticas/core.py:140-146 | interpolation in sorted data lies between its first and last elements, and hits the order statistic exactly at an integer rank |
| Quantitative.InterpolateMonotone | estadisticas/core.py:140-146 | interpolation in sorted data is non-decreasing in the rank |
| Quantitative.PercentileOfSorted | estadisticas/core.py:129-146 | on sorted data, `p` outside [0, 100] fails with PercentileOutOfRange and nothing else fails; the result lies between the ends; `p` = 0 and 100 give the first and last elements |
| Quantitative.PercentileOfSortedAsWritten | estadisticas/core.py:129-146 | as written, the code also fails with IndexError exactly when there is one element and 0 < p < 100; on sorted data, whenever it succeeds its value is the corrected percentile's |
| Quantitative.SortedAgreesFromTwo | estadisticas/core.py:140-146 | from two elements on, the code as written and the corrected interpolation give the same result |
| Quantitative.Percentile | estadisticas/core.py:122-146 | `percentil` fails exactly for `p` outside [0, 100]; otherwise it lies between the minimum and the maximum, with `p` = 0 giving the minimum and `p` = 100 the maximum |
| Quantitative.PercentileAsWritten | estadisticas/core.py:122-146 | as written, `percentil` also raises IndexError exactly on a single observation with 0 < p < 100; whenever it succeeds, for any `n`, its value is the corrected percentile's |
| Quantitative.AsWrittenAgreesFromTwo | estadisticas/core.py:122-146 | from two observations on, the code as written equals the corrected percentile for every `p` |
| Quantitative.AsWrittenFailsOnOne | estadisticas/core.py:140-146 | on `[7]` at `p` = 25 the code as written raises IndexError, while the corrected percentile gives 7 |
| Quantitative.PercentileMonotone | estadisticas/core.py:122-146 | for 0 <= p <= q <= 100 both percentiles exist and the p-th is at most the q-th |
| Quantitative.Analyzer.CachedPercentile | estadisticas/core.py:129-132 | `percentil` computed through the cache equals `Percentile` of the data |
| Quantitative.QuartilesOf | estadisticas/core.py:148-150 | `min <= Q1 <= Q2 <= Q3 <= max`, and Q2 is the median |
| Quantitative.InterquartileRange | estadisticas/core.py:152-155 | the IQR is never negative and never exceeds the range |
| Quantitative.FiveNumberSummary | estadisticas/core.py:216-224 | the five numbers ascend; the ends are the 0th and 100th percentiles, the middle is the median, and the quartiles are the 25th and 75th percentiles |
| Bivariate.Zip | estadisticas/core.py:234 | zipping lists of equal length pairs the elements position by position |
| Bivariate.NewPaired | estadisticas/core.py:229-236 | construction fails with SizeMismatch exactly when the lengths differ; two empty lists fail with EmptyData; otherwise both lists are kept unchanged |
| Bivariate.Covariance | estadisticas/core.py:238-247 | `covarianza` divides by zero exactly for the sample form of one pair |
| Bivariate.CovarianceSymmetric | estadisticas/core.py:238-247 | swapping x and y leaves the covariance unchanged |
| Bivariate.CovarianceWithItself | estadisticas/core.py:238-247 | the covariance of a variable with itself equals its variance, in both sample and population forms |
| Bivariate.Regression | estadisticas/core.py:269-286 | `regresion_lineal_simple` fails with the zero-variance ValueError exactly when all x are equal; otherwise the line passes through (mean x, mean y) |
| Bivariate.RegressionRecoversLine | estadisticas/core.py:269-286 | points exactly on `y = a + b*x`, with x not constant, give back intercept `a` and slope `b` |
| Bivariate.SlopeIsCovarianceOverVariance | estadisticas/core.py:238-286 | when x varies, the slope is the population covariance over the population variance of x |
| Bivariate.CorrelationGuard | estadisticas/core.py:249-262 | the correlation's standard deviations divide by zero exactly for one pair; otherwise a constant x or y is refused with the zero-deviation ValueError |
| Bivariate.SummarizeSpec | estadisticas/core.py:294-309 | `resumen` never raises; it returns only an error entry exactly when x or y is constant, and the regression's message takes priority; otherwise it returns `n`, the sample covariance and the fitted line |
| SeqMath.NoDeviationIffAllEqual | estadisticas/core.py:280-283 | the squared deviations from `c` sum to zero exactly when every element equals `c` |
| SeqMath.SumOnLine | estadisticas/core.py:274-275 | for points on a line, the sum of y is `n*a + b*(sum of x)` |
| SeqMath.CrossOnLine | estadisticas/core.py:277-280 | for points on a line of slope `b`, the cross deviations are `b` times the squared deviations of x |
| SeqMath.CrossWithItself | estadisticas/core.py:243-244 | the cross deviations of a sequence with itself are its squared deviations |
| SeqMath.CrossSymmetric | estadisticas/core.py:243-244 | the cross deviations do not depend on which sequence comes first |

## Left out

- Square roots. Dafny's reals have none, so the following are not modelled:
  - the values of `desviacion_estandar`, `coeficiente_variacion`,
    `correlacion_pearson` and `coeficiente_determinacion`;
  - `asimetria` and `curtosis`.

  Only the failure guards of the coefficient of variation and the correlation
  are modelled. They state "deviation is 0" as "variance is 0", which is exact
  over the reals.
- Bivariate.SummarizeSpec: the summary carries `n`, the covariance and the
  fitted line, but not the correlation or R² values. Those need square roots.
  The correlation call inside `resumen` is modelled only by its failure guard;
  the second call, made for R², repeats the same guard.
- The quantitative `resumen` (estadisticas/core.py:195-215). It is an assembly of
  rounded values that includes the square-root statistics above.
- Floating point. Everything is exact. There is no rounding, no overflow, and
  no NaN or infinity; `round(...)` and the equation string of
  `regresion_lineal_simple` are presentation only.
- Coercion by `float()` is abstract. The observation itself says whether it is
  numeric.
- Quantitative.NewSample: the code stores the raw elements, not their `float()`
  values, and the model stores the coerced values. A numeric string such as `'3'`
  passes construction in the code. Afterwards, arithmetic on the stored elements
  raises TypeError. That covers the mean, the variance, the median for even `n`,
  interior percentiles, and everything built on them: quartiles, IQR and the
  five-number summary. `sorted`, `min` and `max` also raise TypeError on data
  that mixes numbers and strings, such as `[1, '2', 3]`. On data that is all
  strings, they compare alphabetically instead. In that case `moda`, `minimo`,
  `maximo`, `mediana` for odd `n` and `percentil` at 0 and 100 return different
  values without failing: on `['9', '10', '8']` the code's median is `'8'`,
  while the model's is 9. `Counter` also counts `'3'` apart from `3`. The model
  reproduces none of this.
- Bivariate.NewPaired: the bivariate constructor does not check that its
  elements are numeric. The model takes real sequences directly.
- The dispatcher `analizar` (estadisticas/core.py:312-333). It branches on
  `float()` coercion and on the qualitative analyzer, which core.py references
  but never defines. The qualitative analyzer is not part of this model.
- Quantitative.PercentileOfSortedAsWritten: the `p == 0` and `p == 100`
  comparisons are exact. Near 100, Python's float rounding of `(p/100)*(n-1)` is
  not modelled.
- Quantitative.QuartilesOf: built on the corrected `Percentile`, so one
  observation gives three equal quartiles where `cuartiles` raises IndexError;
  see Findings.
- Quantitative.InterquartileRange: built on the corrected `Percentile`, so one
  observation gives 0 where `rango_intercuartilico` raises IndexError; see
  Findings.
- Quantitative.FiveNumberSummary: built on the corrected `Percentile`, so one
  observation gives five equal numbers where `resumen_cinco_numeros` raises
  IndexError; see Findings.
- Quantitative.Analyzer.SortedData: the code does not copy its input list
  (estadisticas/core.py:24) and hands the same list out through the `datos`
  property (estadisticas/core.py:27-30). A caller who changes that list after
  construction leaves the cached sorted copy stale (estadisticas/core.py:64-66),
  and `media` then divides the new sum by the old `n` (estadisticas/core.py:25,
  70). The model holds the data as an immutable value, so it assumes nobody
  changes the list after construction. The same holds for Quantitative.Analyzer.CachedMedian
  and Quantitative.Analyzer.CachedPercentile, and for every operation on a
  `Sample`.
- Bivariate.NewPaired: the bivariate analyzer also keeps the caller's `x` and
  `y` lists without copying them (estadisticas/core.py:234-236). The model
  assumes they do not change after construction; if they do, the stored
  `n` no longer matches them.
- The `__main__` demonstration and the print-based test script. They are I/O
  only.

## Findings

| source | as written | input that shows it | evidently intended | confidence | as-written member | corrected member |
|---|---|---|---|---|---|---|
| estadisticas/core.py:140-146 | `percentil` reads `datos_ord[int(indice) + 1]` without a bound, and for one observation and any `0 < p < 100` that index is 1 | `AnalizadorCuantitativo([7]).percentil(25)`, and so `cuartiles()`, `rango_intercuartilico()` and `resumen_cinco_numeros()` on any single observation, raise IndexError | the only observation is every percentile: clamp the upper neighbour to the last element | not executed | Quantitative.PercentileAsWritten, Quantitative.AsWrittenFailsOnOne | Quantitative.Percentile |
