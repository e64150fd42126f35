/** Sums, extremes and sums of deviations over finite sequences of reals: the
    building blocks of every closed-form statistic of the analyzers. Python's
    floating-point `sum`, `min` and `max` are modelled over exact reals. */
module SeqMath {

  /** Sum of all elements (Python's `sum`, from the left; exact reals make the order irrelevant). */
  function Sum(s: seq<real>): real
  {
    if |s| == 0 then 0.0 else s[0] + Sum(s[1..])
  }

  /** The smallest element (Python's `min`). */
  function Min(s: seq<real>): (m: real)
    requires |s| > 0
    ensures m in s
    ensures forall i :: 0 <= i < |s| ==> m <= s[i]
  {
    if |s| == 1 then s[0]
    else
      var rest := Min(s[1..]);
      assert forall i :: 1 <= i < |s| ==> s[i] == s[1..][i - 1];
      if rest < s[0] then rest else s[0]
  }

  /** The largest element (Python's `max`). */
  function Max(s: seq<real>): (m: real)
    requires |s| > 0
    ensures m in s
    ensures forall i :: 0 <= i < |s| ==> s[i] <= m
  {
    if |s| == 1 then s[0]
    else
      var rest := Max(s[1..]);
      assert forall i :: 1 <= i < |s| ==> s[i] == s[1..][i - 1];
      if rest > s[0] then rest else s[0]
  }

  /** Every element equals every other one. */
  predicate Constant(s: seq<real>)
  {
    forall i, j :: 0 <= i < |s| && 0 <= j < |s| ==> s[i] == s[j]
  }

  /** Every element equals `c`. */
  predicate AllEqual(s: seq<real>, c: real)
  {
    forall i :: 0 <= i < |s| ==> s[i] == c
  }

  /** `d` squared (Python's `d ** 2`). */
  function Square(d: real): real
  {
    d * d
  }

  /** `f` times `d`, kept as a named term so that facts about it carry over to
      compound arguments. */
  function Scale(f: real, d: real): real
  {
    f * d
  }

  /** The sum of squared deviations from `c`, the numerator of a variance; never negative. */
  function SumSquaredDeviations(s: seq<real>, c: real): (r: real)
    ensures r >= 0.0
  {
    if |s| == 0 then 0.0
    else
      SquareFacts(s[0] - c);
      Square(s[0] - c) + SumSquaredDeviations(s[1..], c)
  }

  /** The squared deviations from `c` vanish exactly when every element is `c`. */
  lemma {:induction false} NoDeviationIffAllEqual(s: seq<real>, c: real)
    ensures SumSquaredDeviations(s, c) == 0.0 <==> AllEqual(s, c)
  {
    if |s| > 0 {
      NoDeviationIffAllEqual(s[1..], c);
      SquareFacts(s[0] - c);
      assert AllEqual(s, c) <==> s[0] == c && AllEqual(s[1..], c) by {
        assert forall i :: 1 <= i < |s| ==> s[i] == s[1..][i - 1];
      }
    }
  }

  /** The sum of cross products of deviations, the numerator of a covariance. */
  function SumCrossDeviations(x: seq<real>, y: seq<real>, cx: real, cy: real): real
    requires |x| == |y|
  {
    if |x| == 0 then 0.0
    else (x[0] - cx) * (y[0] - cy) + SumCrossDeviations(x[1..], y[1..], cx, cy)
  }

  /** `y` lies exactly on the line with intercept `a` and slope `b` over `x`. */
  predicate OnLine(x: seq<real>, y: seq<real>, a: real, b: real)
  {
    |x| == |y| && forall i :: 0 <= i < |x| ==> y[i] == a + b * x[i]
  }

  /** A square is never negative, and it is positive away from zero. */
  lemma SquareFacts(d: real)
    ensures Square(d) >= 0.0
    ensures d != 0.0 ==> Square(d) > 0.0
  {
    if d != 0.0 {
      calc {
        Square(d);
        d * d;
      >
        0.0;
      }
    }
  }

  /** A lower bound on every element bounds the sum from below by `n` times it. */
  lemma {:induction false} SumAtLeast(s: seq<real>, lo: real)
    requires forall i :: 0 <= i < |s| ==> lo <= s[i]
    ensures Scale(|s| as real, lo) <= Sum(s)
  {
    if |s| > 0 {
      SumAtLeast(s[1..], lo);
      ScaleStep(|s| - 1, lo);
    }
  }

  /** An upper bound on every element bounds the sum from above by `n` times it. */
  lemma {:induction false} SumAtMost(s: seq<real>, hi: real)
    requires forall i :: 0 <= i < |s| ==> s[i] <= hi
    ensures Sum(s) <= Scale(|s| as real, hi)
  {
    if |s| > 0 {
      SumAtMost(s[1..], hi);
      ScaleStep(|s| - 1, hi);
    }
  }

  /** One more copy of `c`. */
  lemma ScaleStep(n: nat, c: real)
    ensures Scale((n + 1) as real, c) == Scale(n as real, c) + c
  {
  }

  /** The average lies between the extremes. */
  lemma AverageBounds(s: seq<real>)
    requires |s| > 0
    ensures Min(s) <= Sum(s) / |s| as real <= Max(s)
  {
    SumAtLeast(s, Min(s));
    SumAtMost(s, Max(s));
    QuotientBounds(Sum(s), |s|, Min(s), Max(s));
  }

  /** In constant data both extremes are the first element. */
  lemma ConstantExtremes(s: seq<real>)
    requires |s| > 0
    ensures Constant(s) ==> Min(s) == s[0] == Max(s)
  {
  }

  /** Cross deviations of a sequence with itself are its squared deviations. */
  lemma {:induction false} CrossWithItself(x: seq<real>, c: real)
    ensures SumCrossDeviations(x, x, c, c) == SumSquaredDeviations(x, c)
  {
    if |x| > 0 {
      CrossWithItself(x[1..], c);
      assert (x[0] - c) * (x[0] - c) == Square(x[0] - c);
    }
  }

  /** Cross deviations do not depend on which variable comes first. */
  lemma {:induction false} CrossSymmetric(x: seq<real>, y: seq<real>, cx: real, cy: real)
    requires |x| == |y|
    ensures SumCrossDeviations(x, y, cx, cy) == SumCrossDeviations(y, x, cy, cx)
  {
    if |x| > 0 {
      CrossSymmetric(x[1..], y[1..], cx, cy);
    }
  }

  /** A line through a non-empty sequence passes through its head and its tail. */
  lemma OnLineSplit(x: seq<real>, y: seq<real>, a: real, b: real)
    requires OnLine(x, y, a, b) && |x| > 0
    ensures y[0] == a + b * x[0]
    ensures OnLine(x[1..], y[1..], a, b)
  {
    assert forall i :: 0 <= i < |x| - 1 ==> x[1..][i] == x[i + 1] && y[1..][i] == y[i + 1];
  }

  /** Scaling distributes over a sum. */
  lemma ScaleAdd(b: real, u: real, v: real)
    ensures Scale(b, u + v) == Scale(b, u) + Scale(b, v)
  {
  }

  /** Summing points of a line: `Sum(y) == n * a + b * Sum(x)`. */
  lemma {:induction false} SumOnLine(x: seq<real>, y: seq<real>, a: real, b: real)
    requires OnLine(x, y, a, b)
    ensures Sum(y) == Scale(|x| as real, a) + Scale(b, Sum(x))
  {
    if |x| > 0 {
      OnLineSplit(x, y, a, b);
      SumOnLine(x[1..], y[1..], a, b);
      ScaleStep(|x| - 1, a);
      ScaleAdd(b, x[0], Sum(x[1..]));
    }
  }

  /** The first term of `CrossOnLine`. */
  lemma CrossOnLineHead(x: seq<real>, y: seq<real>, a: real, b: real, cx: real)
    requires |x| == |y| > 0 && y[0] == a + b * x[0]
    ensures (x[0] - cx) * (y[0] - (a + Scale(b, cx))) == Scale(b, Square(x[0] - cx))
  {
    calc {
      (x[0] - cx) * (y[0] - (a + Scale(b, cx)));
      (x[0] - cx) * (b * (x[0] - cx));
      b * ((x[0] - cx) * (x[0] - cx));
    }
  }

  /** When `y` lies on a line of slope `b`, its cross deviations with `x` (around
      a centre `cx` and the matching point `a + b * cx`) are `b` times the squared
      deviations of `x`. */
  lemma {:induction false} CrossOnLine(x: seq<real>, y: seq<real>, a: real, b: real, cx: real)
    requires OnLine(x, y, a, b)
    ensures SumCrossDeviations(x, y, cx, a + Scale(b, cx)) == Scale(b, SumSquaredDeviations(x, cx))
  {
    if |x| > 0 {
      OnLineSplit(x, y, a, b);
      CrossOnLine(x[1..], y[1..], a, b, cx);
      CrossOnLineHead(x, y, a, b, cx);
      ScaleAdd(b, Square(x[0] - cx), SumSquaredDeviations(x[1..], cx));
    }
  }

  /** Dividing by a positive `n` keeps bounds that the numerator has in multiples of `n`. */
  lemma QuotientBounds(a: real, n: nat, lo: real, hi: real)
    requires n > 0 && Scale(n as real, lo) <= a <= Scale(n as real, hi)
    ensures lo <= a / n as real <= hi
  {
  }

  /** Dividing by a positive number keeps the sign and the zeros of the numerator. */
  lemma QuotientSign(a: real, n: real)
    requires n > 0.0
    ensures a >= 0.0 ==> a / n >= 0.0
    ensures a / n == 0.0 <==> a == 0.0
  {
  }

  /** A non-negative numerator shrinks as its positive divisor grows. */
  lemma QuotientAntitone(a: real, m: real, n: real)
    requires a >= 0.0 && 0.0 < m <= n
    ensures a / n <= a / m
  {
  }

  /** Multiplying by a non-negative factor keeps order. */
  lemma ScaleMonotone(a: real, b: real, c: real)
    requires a <= b && c >= 0.0
    ensures Scale(a, c) <= Scale(b, c)
  {
  }

  lemma ProductFraction(f: real, d: real)
    requires 0.0 <= f <= 1.0 && d >= 0.0
    ensures 0.0 <= f * d <= d
  {
  }

  /** A fraction in [0, 1] of a non-negative amount lies between zero and the amount. */
  lemma ScaleFraction(f: real, d: real)
    requires 0.0 <= f <= 1.0 && d >= 0.0
    ensures 0.0 <= Scale(f, d) <= d
  {
    ProductFraction(f, d);
  }

  /** A fraction below one of a positive amount is less than the amount. */
  lemma ScaleStrict(f: real, d: real)
    requires 0.0 <= f < 1.0 && d > 0.0
    ensures Scale(f, d) < d
  {
  }

  /** The mean of the points of a line is the point of the line at the mean. */
  lemma LineMean(n: nat, a: real, b: real, t: real)
    requires n > 0
    ensures (Scale(n as real, a) + Scale(b, t)) / n as real == a + Scale(b, t / n as real)
  {
  }

  /** Dividing `b` times `d` by a non-zero `d` gives back `b`. */
  lemma ScaleQuotient(b: real, d: real)
    requires d != 0.0
    ensures Scale(b, d) / d == b
  {
  }

  /** Two shares of the same positive total compare as their numerators. */
  lemma QuotientOfShares(a: real, d: real, n: real)
    requires d != 0.0 && n > 0.0
    ensures d / n != 0.0
    ensures (a / n) / (d / n) == a / d
  {
  }
}
