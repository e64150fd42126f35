/** The quantitative analyzer (`AnalizadorCuantitativo`): construction from raw
    observations, then the order statistics (median, percentiles, quartiles,
    five-number summary), the mode, the mean and the variance of a non-empty
    sample of exact reals. */
module Quantitative {
  import opened Results
  import opened SeqMath
  import opened Sorting
  import opened Frequencies

  /** A raw list element before coercion: one `float()` accepts, with the value it
      yields, or one it rejects. */
  datatype Observation = Numeric(value: real) | NonNumeric

  /** The data an analyzer holds: never empty once construction succeeded. */
  type Sample = s: seq<real> | |s| > 0 witness [0.0]

  // ---------------------------------------------------------------- construction

  /** `AnalizadorBase.__init__`: an empty list is refused; anything else is kept as is. */
  function NewBase<T>(data: seq<T>): (r: Result<seq<T>>)
    ensures r.Err? <==> |data| == 0
    ensures r.Err? ==> r.error == EmptyData
    ensures r.Ok? ==> r.value == data && |r.value| > 0
  {
    if |data| == 0 then Err(EmptyData) else Ok(data)
  }

  /** Some element is rejected by `float()`. */
  predicate HasNonNumeric(raw: seq<Observation>)
  {
    exists i :: 0 <= i < |raw| && raw[i].NonNumeric?
  }

  /** The coerced values of observations that are all numeric. */
  function Values(raw: seq<Observation>): (v: seq<real>)
    requires !HasNonNumeric(raw)
    ensures |v| == |raw|
    ensures forall i :: 0 <= i < |raw| ==> raw[i] == Numeric(v[i])
  {
    if |raw| == 0 then []
    else
      assert forall i :: 1 <= i < |raw| ==> raw[i] == raw[1..][i - 1];
      [raw[0].value] + Values(raw[1..])
  }

  /** `AnalizadorCuantitativo.__init__`: the coercion check runs first (a
      TypeError), and only then the emptiness check of the base class. */
  function NewSample(raw: seq<Observation>): (r: Result<Sample>)
    ensures r == Err(NonNumericData) <==> HasNonNumeric(raw)
    ensures r == Err(EmptyData) <==> |raw| == 0
    ensures r.Err? ==> r.error == NonNumericData || r.error == EmptyData
    ensures r.Ok? ==> |r.value| == |raw| && forall i :: 0 <= i < |raw| ==> raw[i] == Numeric(r.value[i])
  {
    if HasNonNumeric(raw) then Err(NonNumericData)
    else
      var base := NewBase(Values(raw));
      if base.Err? then Err(base.error) else Ok(base.value)
  }

  // ---------------------------------------------------------------- moments

  /** `media`: the arithmetic mean, between the extremes. */
  function Mean(s: Sample): (m: real)
    ensures Min(s) <= m <= Max(s)
    ensures Constant(s) ==> m == s[0]
  {
    AverageBounds(s);
    ConstantExtremes(s);
    Sum(s) / |s| as real
  }

  /** A sequence is constant exactly when every element equals its mean. */
  lemma ConstantIffAllMean(s: Sample)
    ensures Constant(s) <==> AllEqual(s, Mean(s))
  {
  }

  /** `varianza`: squared deviations from the mean over `n - 1` (sample) or `n`
      (population); the sample form of one observation divides by zero. */
  function Variance(s: Sample, sample: bool): (r: Result<real>)
    ensures r.Err? <==> sample && |s| == 1
    ensures r.Err? ==> r.error == DivisionByZero
    ensures r.Ok? ==> r.value >= 0.0
    ensures r.Ok? ==> (r.value == 0.0 <==> Constant(s))
  {
    var ss := SumSquaredDeviations(s, Mean(s));
    var divisor := if sample then |s| - 1 else |s|;
    if divisor == 0 then Err(DivisionByZero)
    else
      QuotientSign(ss, divisor as real);
      NoDeviationIffAllEqual(s, Mean(s));
      ConstantIffAllMean(s);
      Ok(ss / divisor as real)
  }

  /** Dividing by `n` rather than `n - 1` never gives a larger variance. */
  lemma PopulationAtMostSample(s: Sample)
    requires |s| >= 2
    ensures Variance(s, false).Ok? && Variance(s, true).Ok?
    ensures Variance(s, false).value <= Variance(s, true).value
  {
    var ss := SumSquaredDeviations(s, Mean(s));
    QuotientAntitone(ss, (|s| - 1) as real, |s| as real);
  }

  /** `coeficiente_variacion` up to its square root: a zero mean is refused, and
      then the sample standard deviation is taken, which divides by zero for a
      single observation. */
  function VariationGuard(s: Sample): (r: Outcome)
    ensures r == Fail(ZeroMean) <==> Mean(s) == 0.0
    ensures r == Fail(DivisionByZero) <==> Mean(s) != 0.0 && |s| == 1
    ensures r == Pass <==> Mean(s) != 0.0 && |s| > 1
  {
    if Mean(s) == 0.0 then Fail(ZeroMean)
    else
      var v := Variance(s, true);
      if v.Err? then Fail(v.error) else Pass
  }

  // ---------------------------------------------------------------- extremes

  /** `rango`: the spread between the extremes; zero exactly for constant data. */
  function Range(s: Sample): (r: real)
    ensures r >= 0.0
    ensures r == 0.0 <==> Constant(s)
  {
    assert Constant(s) <== Min(s) == Max(s);
    Max(s) - Min(s)
  }

  // ---------------------------------------------------------------- order statistics

  /** The middle of sorted data: the middle element for odd `n`, the mean of the
      two middle elements for even `n`. */
  function MiddleOf(d: seq<real>): (m: real)
    requires |d| > 0 && Sorted(d)
    ensures d[0] <= m <= d[|d| - 1]
  {
    var half := |d| / 2;
    if |d| % 2 == 0 then (d[half - 1] + d[half]) / 2.0 else d[half]
  }

  /** `mediana`: the middle of the sorted data, between the extremes. */
  function Median(s: Sample): (m: real)
    ensures Min(s) <= m <= Max(s)
  {
    var d := Sort(s);
    SortedCopyEnds(d, s);
    MiddleOf(d)
  }

  /** `a + f * (b - a)`: the point a fraction `f` of the way from `a` to `b`. */
  function Lerp(a: real, b: real, f: real): (r: real)
    ensures 0.0 <= f <= 1.0 && a <= b ==> a <= r <= b
  {
    var r := a + Scale(f, b - a);
    assert 0.0 <= f <= 1.0 && a <= b ==> a <= r <= b by {
      if 0.0 <= f <= 1.0 && a <= b {
        ScaleFraction(f, b - a);
      }
    }
    r
  }

  /** Moving further along a non-decreasing segment never goes back. */
  lemma LerpMonotone(a: real, b: real, f: real, g: real)
    requires a <= b && f <= g
    ensures Lerp(a, b, f) <= Lerp(a, b, g)
  {
    ScaleMonotone(f, g, b - a);
  }

  /** The fractional position in the sorted data that percentile `p` asks for:
      `(p / 100) * (n - 1)`. */
  function Rank(p: real, n: nat): (r: real)
    requires 0.0 <= p <= 100.0 && n > 0
    ensures 0.0 <= r <= (n - 1) as real
  {
    ScaleFraction(p / 100.0, (n - 1) as real);
    Scale(p / 100.0, (n - 1) as real)
  }

  /** A higher percentile asks for a later position. */
  lemma RankMonotone(p: real, q: real, n: nat)
    requires 0.0 <= p <= q <= 100.0 && n > 0
    ensures Rank(p, n) <= Rank(q, n)
  {
    ScaleMonotone(p / 100.0, q / 100.0, (n - 1) as real);
  }

  /** Short of the 100th percentile, the position falls before the last element. */
  lemma RankBelowLast(p: real, n: nat)
    requires 0.0 <= p < 100.0 && n > 0
    ensures n >= 2 ==> Rank(p, n) < (n - 1) as real
    ensures n == 1 ==> Rank(p, n) == 0.0
  {
    if n >= 2 {
      ScaleStrict(p / 100.0, (n - 1) as real);
    }
  }

  /** Interpolating at the start of a segment, or halfway along it. */
  lemma LerpAtZeroAndHalf(a: real, b: real)
    ensures Lerp(a, b, 0.0) == a
    ensures Lerp(a, b, 0.5) == (a + b) / 2.0
  {
  }

  /** Linear interpolation between the order statistics around position `rank`;
      the upper neighbour is clamped to the last element, so that a rank of
      `n - 1` (and any rank of a one-element sample) reads only in range. */
  function Interpolate(d: seq<real>, rank: real): (r: real)
    requires |d| > 0 && Sorted(d) && 0.0 <= rank <= (|d| - 1) as real
    ensures d[0] <= r <= d[|d| - 1]
    ensures rank == rank.Floor as real ==> r == d[rank.Floor]
  {
    var lo := rank.Floor;
    var hi := if lo + 1 < |d| then lo + 1 else lo;
    assert d[0] <= d[lo] <= d[hi] <= d[|d| - 1];
    Lerp(d[lo], d[hi], rank - lo as real)
  }

  /** Interpolating at a later position never gives a smaller value. */
  lemma InterpolateMonotone(d: seq<real>, r1: real, r2: real)
    requires |d| > 0 && Sorted(d) && 0.0 <= r1 <= r2 <= (|d| - 1) as real
    ensures Interpolate(d, r1) <= Interpolate(d, r2)
  {
    var lo1, lo2 := r1.Floor, r2.Floor;
    var hi1 := if lo1 + 1 < |d| then lo1 + 1 else lo1;
    var hi2 := if lo2 + 1 < |d| then lo2 + 1 else lo2;
    if lo1 == lo2 {
      LerpMonotone(d[lo1], d[hi1], r1 - lo1 as real, r2 - lo2 as real);
    } else {
      assert d[hi1] <= d[lo2];
    }
  }

  /** `percentil` as corrected, on the sorted data: out-of-range `p` is refused,
      `p` of 0 and 100 give the ends, and anything else interpolates between
      neighbours. */
  function PercentileOfSorted(d: seq<real>, p: real): (r: Result<real>)
    requires |d| > 0 && Sorted(d)
    ensures r.Err? <==> p < 0.0 || p > 100.0
    ensures r.Err? ==> r.error == PercentileOutOfRange
    ensures r.Ok? ==> d[0] <= r.value <= d[|d| - 1]
    ensures p == 0.0 ==> r == Ok(d[0])
    ensures p == 100.0 ==> r == Ok(d[|d| - 1])
  {
    if !(0.0 <= p <= 100.0) then Err(PercentileOutOfRange)
    else if p == 0.0 then Ok(d[0])
    else if p == 100.0 then Ok(d[|d| - 1])
    else Ok(Interpolate(d, Rank(p, |d|)))
  }

  /** `percentil` exactly as written, on the sorted data: the upper neighbour is
      read without clamping, which fails with an IndexError on one element for
      every `p` strictly between 0 and 100. */
  function PercentileOfSortedAsWritten(d: seq<real>, p: real): (r: Result<real>)
    requires |d| > 0
    ensures r.Err? <==> p < 0.0 || p > 100.0 || (|d| == 1 && 0.0 < p < 100.0)
    ensures r.Err? ==> r.error == (if 0.0 <= p <= 100.0 then IndexOutOfRange else PercentileOutOfRange)
    ensures Sorted(d) && r.Ok? ==> r == PercentileOfSorted(d, p)
  {
    if !(0.0 <= p <= 100.0) then Err(PercentileOutOfRange)
    else if p == 0.0 then Ok(d[0])
    else if p == 100.0 then Ok(d[|d| - 1])
    else
      var rank := Rank(p, |d|);
      RankBelowLast(p, |d|);
      var lo := rank.Floor;
      if lo + 1 >= |d| then Err(IndexOutOfRange)
      else
        assert Sorted(d) ==> Interpolate(d, rank) == Lerp(d[lo], d[lo + 1], rank - lo as real);
        Ok(Lerp(d[lo], d[lo + 1], rank - lo as real))
  }

  /** From two elements on, the code as written agrees with the corrected percentile. */
  lemma SortedAgreesFromTwo(d: seq<real>, p: real)
    requires |d| >= 2 && Sorted(d)
    ensures PercentileOfSortedAsWritten(d, p) == PercentileOfSorted(d, p)
  {
    if 0.0 < p < 100.0 {
      var rank := Rank(p, |d|);
      RankBelowLast(p, |d|);
      var lo := rank.Floor;
      assert Interpolate(d, rank) == Lerp(d[lo], d[lo + 1], rank - lo as real);
    }
  }

  /** `percentil` (corrected): refuses exactly the `p` outside [0, 100]; otherwise
      lies between the extremes, which `p` of 0 and 100 return. */
  function Percentile(s: Sample, p: real): (r: Result<real>)
    ensures r.Err? <==> p < 0.0 || p > 100.0
    ensures r.Err? ==> r.error == PercentileOutOfRange
    ensures r.Ok? ==> Min(s) <= r.value <= Max(s)
    ensures p == 0.0 ==> r == Ok(Min(s))
    ensures p == 100.0 ==> r == Ok(Max(s))
  {
    var d := Sort(s);
    SortedCopyEnds(d, s);
    PercentileOfSorted(d, p)
  }

  /** `percentil` as written: besides an out-of-range `p`, it fails on a single
      observation for every interior `p`. */
  function PercentileAsWritten(s: Sample, p: real): (r: Result<real>)
    ensures r.Err? <==> p < 0.0 || p > 100.0 || (|s| == 1 && 0.0 < p < 100.0)
    ensures r.Err? ==> r.error == (if 0.0 <= p <= 100.0 then IndexOutOfRange else PercentileOutOfRange)
    ensures r.Ok? ==> r == Percentile(s, p)
  {
    PercentileOfSortedAsWritten(Sort(s), p)
  }

  /** From two observations on, the code as written agrees with the corrected percentile. */
  lemma AsWrittenAgreesFromTwo(s: Sample, p: real)
    requires |s| >= 2
    ensures PercentileAsWritten(s, p) == Percentile(s, p)
  {
    SortedAgreesFromTwo(Sort(s), p);
  }

  /** The smallest witness of the discrepancy: one observation, the first quartile. */
  lemma AsWrittenFailsOnOne()
    ensures PercentileAsWritten([7.0], 25.0) == Err(IndexOutOfRange)
    ensures Percentile([7.0], 25.0) == Ok(7.0)
  {
    assert Min([7.0]) == 7.0;
  }

  /** On sorted data, percentiles never decrease as `p` grows. */
  lemma SortedPercentileMonotone(d: seq<real>, p: real, q: real)
    requires |d| > 0 && Sorted(d) && 0.0 <= p <= q <= 100.0
    ensures PercentileOfSorted(d, p).value <= PercentileOfSorted(d, q).value
  {
    if 0.0 < p && q < 100.0 {
      RankMonotone(p, q, |d|);
      InterpolateMonotone(d, Rank(p, |d|), Rank(q, |d|));
    }
  }

  /** Percentiles never decrease as `p` grows. */
  lemma PercentileMonotone(s: Sample, p: real, q: real)
    requires 0.0 <= p <= q <= 100.0
    ensures Percentile(s, p).Ok? && Percentile(s, q).Ok?
    ensures Percentile(s, p).value <= Percentile(s, q).value
  {
    SortedPercentileMonotone(Sort(s), p, q);
  }

  /** On sorted data, the middle is the 50th percentile. */
  lemma MiddleIsPercentile50(d: seq<real>)
    requires |d| > 0 && Sorted(d)
    ensures PercentileOfSorted(d, 50.0) == Ok(MiddleOf(d))
  {
    var n := |d|;
    var half := n / 2;
    var rank := Rank(50.0, n);
    assert rank == (n - 1) as real / 2.0;
    if n % 2 == 0 {
      assert rank == (half - 1) as real + 0.5;
      assert rank.Floor == half - 1;
      assert Interpolate(d, rank) == Lerp(d[half - 1], d[half], 0.5);
      LerpAtZeroAndHalf(d[half - 1], d[half]);
    } else {
      assert rank == half as real;
    }
  }

  /** The median is the 50th percentile, as its documentation says. */
  lemma MedianIsPercentile50(s: Sample)
    ensures Percentile(s, 50.0) == Ok(Median(s))
  {
    MiddleIsPercentile50(Sort(s));
  }

  /** Q1, Q2 and Q3 (`cuartiles`). */
  datatype Quartiles = Quartiles(q1: real, q2: real, q3: real)

  /** `cuartiles`: the 25th, 50th and 75th percentiles, in order, between the
      extremes, with the median in the middle. */
  function QuartilesOf(s: Sample): (q: Quartiles)
    ensures Min(s) <= q.q1 <= q.q2 <= q.q3 <= Max(s)
    ensures q.q2 == Median(s)
  {
    PercentileMonotone(s, 25.0, 50.0);
    PercentileMonotone(s, 50.0, 75.0);
    MedianIsPercentile50(s);
    Quartiles(Percentile(s, 25.0).value, Percentile(s, 50.0).value, Percentile(s, 75.0).value)
  }

  /** `rango_intercuartilico`: Q3 minus Q1, never negative and never wider than the range. */
  function InterquartileRange(s: Sample): (r: real)
    ensures 0.0 <= r <= Range(s)
  {
    var q := QuartilesOf(s);
    q.q3 - q.q1
  }

  /** Tukey's five numbers (`resumen_cinco_numeros`). */
  datatype FiveNumbers = FiveNumbers(minimum: real, q1: real, median: real, q3: real, maximum: real)

  /** `resumen_cinco_numeros`: the extremes and the quartiles, in ascending order. */
  function FiveNumberSummary(s: Sample): (f: FiveNumbers)
    ensures f.minimum <= f.q1 <= f.median <= f.q3 <= f.maximum
    ensures f.minimum == Percentile(s, 0.0).value && f.maximum == Percentile(s, 100.0).value
    ensures f.median == Median(s)
    ensures f.q1 == Percentile(s, 25.0).value && f.q3 == Percentile(s, 75.0).value
  {
    var q := QuartilesOf(s);
    FiveNumbers(Min(s), q.q1, q.q2, q.q3, Max(s))
  }

  // ---------------------------------------------------------------- mode

  /** `moda`'s three shapes: a message when every value is unique, one value, or a list. */
  datatype ModeResult = NoMode | Single(value: real) | Multi(values: seq<real>)

  /** `v` occurs in `s` at least as often as any other value. */
  predicate IsModal(s: seq<real>, v: real)
  {
    v in s && forall i :: 0 <= i < |s| ==> Count(s, s[i]) <= Count(s, v)
  }

  /** The values of highest frequency, in first-occurrence order (the list `modas`). */
  function Modes(s: Sample): (r: seq<real>)
  {
    var t := CountAll(s);
    CountAllCounts(s);
    KeysWithCount(t.keys, t.counts, MaxCount(t.keys, t.counts))
  }

  /** `moda`: no mode when there are as many modal values as observations,
      the value itself when there is one, and the list otherwise. */
  function Mode(s: Sample): (r: ModeResult)
  {
    var modes := Modes(s);
    if |modes| == |s| then NoMode
    else if |modes| == 1 then Single(modes[0])
    else Multi(modes)
  }

  /** A selected value is modal. */
  lemma SelectedIsModal(s: Sample, v: real)
    requires v in Modes(s)
    ensures IsModal(s, v)
  {
    var t := CountAll(s);
    CountAllCounts(s);
    var m := MaxCount(t.keys, t.counts);
    assert t.counts[v] == m;
    forall i | 0 <= i < |s|
      ensures Count(s, s[i]) <= Count(s, v)
    {
      assert s[i] in t.keys;
      var j :| 0 <= j < |t.keys| && t.keys[j] == s[i];
      assert t.counts[t.keys[j]] <= m;
    }
  }

  /** A modal value is selected. */
  lemma ModalIsSelected(s: Sample, v: real)
    requires IsModal(s, v)
    ensures v in Modes(s)
  {
    var t := CountAll(s);
    CountAllCounts(s);
    var m := MaxCount(t.keys, t.counts);
    assert v in t.keys;
    var k :| 0 <= k < |t.keys| && t.keys[k] == v;
    assert t.counts[v] <= m;
    var j :| 0 <= j < |t.keys| && t.counts[t.keys[j]] == m;
    assert t.keys[j] in s;
    var i :| 0 <= i < |s| && s[i] == t.keys[j];
    assert Count(s, s[i]) <= Count(s, v);
  }

  /** The selected values are exactly the modal ones, in first-occurrence order,
      and they are as many as the observations exactly when no value repeats. */
  lemma ModesSpec(s: Sample)
    ensures forall v :: v in Modes(s) <==> IsModal(s, v)
    ensures InFirstOccurrenceOrder(Modes(s), s) && Distinct(Modes(s))
    ensures |Modes(s)| > 0
    ensures |Modes(s)| == |s| <==> Distinct(s)
  {
    forall v
      ensures v in Modes(s) <==> IsModal(s, v)
    {
      if v in Modes(s) {
        SelectedIsModal(s, v);
      }
      if IsModal(s, v) {
        ModalIsSelected(s, v);
      }
    }
    ModesOrdered(s);
    ModesSize(s);
  }

  /** The selected values keep the Counter's first-occurrence order, and there is at least one. */
  lemma ModesOrdered(s: Sample)
    ensures InFirstOccurrenceOrder(Modes(s), s) && Distinct(Modes(s))
    ensures |Modes(s)| > 0
  {
    var t := CountAll(s);
    CountAllCounts(s);
    CountAllOrdered(s);
    var m := MaxCount(t.keys, t.counts);
    KeysWithCountOrdered(t.keys, t.counts, m, s);
    OrderedKeysDistinct(Modes(s), s);
    var j :| 0 <= j < |t.keys| && t.counts[t.keys[j]] == m;
    assert t.keys[j] in Modes(s);
  }

  /** All keys are selected exactly when no value repeats. */
  lemma ModesSize(s: Sample)
    ensures |Modes(s)| == |s| <==> Distinct(s)
  {
    var t := CountAll(s);
    CountAllCounts(s);
    CountAllSize(s);
    var m := MaxCount(t.keys, t.counts);
    if Distinct(s) {
      DistinctCountsOne(s);
      forall i | 0 <= i < |t.keys|
        ensures t.counts[t.keys[i]] == m
      {
        assert t.keys[i] in s;
        var j :| 0 <= j < |t.keys| && t.counts[t.keys[j]] == m;
        assert t.keys[j] in s;
      }
    }
  }

  /** In data without repeats every value occurs once. */
  lemma {:induction false} DistinctCountsOne(s: seq<real>)
    requires Distinct(s)
    ensures forall v :: v in s ==> Count(s, v) == 1
  {
    if |s| > 0 {
      var t := s[1..];
      assert s == [s[0]] + t;
      assert Distinct(t) by {
        assert forall i :: 0 <= i < |t| ==> t[i] == s[i + 1];
      }
      DistinctCountsOne(t);
      assert s[0] !in t by {
        assert forall i :: 0 <= i < |t| ==> t[i] == s[i + 1] != s[0];
      }
      assert multiset(s) == multiset{s[0]} + multiset(t);
    }
  }

  /** `moda` gives no mode exactly when every value is unique (so also for one
      observation); a single value exactly when one value is modal; and otherwise
      every modal value once, in first-occurrence order. */
  lemma ModeSpec(s: Sample)
    ensures Mode(s).NoMode? <==> Distinct(s)
    ensures Mode(s).Single? ==> IsModal(s, Mode(s).value) && forall v :: IsModal(s, v) ==> v == Mode(s).value
    ensures Mode(s).Multi? ==> |Mode(s).values| >= 2 && Distinct(Mode(s).values)
    ensures Mode(s).Multi? ==> InFirstOccurrenceOrder(Mode(s).values, s)
    ensures Mode(s).Multi? ==> forall v :: v in Mode(s).values <==> IsModal(s, v)
  {
    ModesSpec(s);
    var r := Modes(s);
    if |r| == 1 {
      assert r[0] in r;
    }
  }

  // ---------------------------------------------------------------- the analyzer object

  /** An analyzer object: its data, and the sorted copy it computes on first use
      (`_datos_ordenados`, initially `None`). */
  class Analyzer {
    const data: Sample
    var sortedCache: Option<seq<real>>

    /** The cache, once filled, is a sorted permutation of the data. */
    ghost predicate Valid()
      reads this
    {
      sortedCache.Some? ==> IsSortedCopy(sortedCache.value, data)
    }

    constructor (s: Sample)
      ensures data == s && sortedCache == None && Valid()
    {
      data := s;
      sortedCache := None;
    }

    /** `_ordenar_datos`: the first call sorts and stores; later calls return the
        stored copy. Either way the result is the one sorted copy of the data. */
    method SortedData() returns (r: seq<real>)
      requires Valid()
      modifies this
      ensures Valid() && sortedCache == Some(r)
      ensures old(sortedCache).Some? ==> r == old(sortedCache).value
      ensures r == Sort(data)
    {
      if sortedCache.None? {
        r := Sort(data);
        sortedCache := Some(r);
      } else {
        r := sortedCache.value;
        SortedCopyUnique(r, Sort(data));
      }
    }

    /** `mediana` through the cache: the same value as `Median`. */
    method CachedMedian() returns (m: real)
      requires Valid()
      modifies this
      ensures Valid()
      ensures m == Median(data)
    {
      var d := SortedData();
      m := MiddleOf(d);
    }

    /** `percentil` (corrected) through the cache: the same value as `Percentile`.
        An out-of-range `p` is refused before the data is sorted, as in the code. */
    method CachedPercentile(p: real) returns (r: Result<real>)
      requires Valid()
      modifies this
      ensures Valid()
      ensures r == Percentile(data, p)
    {
      if !(0.0 <= p <= 100.0) {
        r := Err(PercentileOutOfRange);
      } else {
        var d := SortedData();
        r := PercentileOfSorted(d, p);
      }
    }
  }
}
