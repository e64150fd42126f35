/** The ascending sort behind every order statistic (Python's `sorted`), and the
    facts that make a sorted copy unique and tie its ends to the extremes. */
module Sorting {
  import opened SeqMath

  /** Ascending order. */
  predicate Sorted(s: seq<real>)
  {
    forall i, j :: 0 <= i < j < |s| ==> s[i] <= s[j]
  }

  /** `r` holds the elements of `s`, with their multiplicities, in ascending order. */
  predicate IsSortedCopy(r: seq<real>, s: seq<real>)
  {
    Sorted(r) && multiset(r) == multiset(s)
  }

  lemma SortedTail(s: seq<real>)
    requires Sorted(s) && |s| > 0
    ensures Sorted(s[1..])
  {
    forall i, j | 0 <= i < j < |s| - 1
      ensures s[1..][i] <= s[1..][j]
    {
      assert s[1..][i] == s[i + 1] && s[1..][j] == s[j + 1];
    }
  }

  lemma SortedCons(h: real, t: seq<real>)
    requires Sorted(t) && (|t| > 0 ==> h <= t[0])
    ensures Sorted([h] + t)
  {
    var r := [h] + t;
    forall i, j | 0 <= i < j < |r|
      ensures r[i] <= r[j]
    {
      if i > 0 {
        assert r[i] == t[i - 1] && r[j] == t[j - 1];
      } else {
        assert r[j] == t[j - 1];
      }
    }
  }

  /** Inserts `x` into a sorted sequence, before the first element not smaller than it. */
  function Insert(x: real, s: seq<real>): (r: seq<real>)
    requires Sorted(s)
    ensures IsSortedCopy(r, s + [x])
    ensures |r| > 0 && (r[0] == x || (|s| > 0 && r[0] == s[0]))
  {
    if |s| == 0 then [x]
    else if x <= s[0] then
      SortedCons(x, s);
      [x] + s
    else
      SortedTail(s);
      var rest := Insert(x, s[1..]);
      assert |s| > 1 ==> s[0] <= s[1];
      SortedCons(s[0], rest);
      assert s + [x] == [s[0]] + (s[1..] + [x]);
      [s[0]] + rest
  }

  /** Python's `sorted`, as insertion sort: any algorithm yields the same
      sequence, since a sorted copy is unique (`SortedCopyUnique`). */
  function Sort(s: seq<real>): (r: seq<real>)
    ensures IsSortedCopy(r, s)
    ensures |r| == |s|
  {
    if |s| == 0 then []
    else
      var rest := Sort(s[1..]);
      assert s == [s[0]] + s[1..];
      assert multiset(s) == multiset(s[1..] + [s[0]]);
      var r := Insert(s[0], rest);
      assert |r| == |multiset(r)| == |multiset(s)| == |s|;
      r
  }

  /** A sorted sequence starts with its least element. */
  lemma SortedHeadLeast(s: seq<real>, v: real)
    requires Sorted(s) && v in s
    ensures s[0] <= v
  {
  }

  /** Two sorted copies of the same data are equal: whichever sort produced a
      sorted copy, and whenever it was produced, it is the same sequence. */
  lemma {:induction false} SortedCopyUnique(a: seq<real>, b: seq<real>)
    requires Sorted(a) && Sorted(b) && multiset(a) == multiset(b)
    ensures a == b
  {
    assert |a| == |multiset(a)| == |multiset(b)| == |b|;
    if |a| > 0 {
      CopyMembers(a, b);
      SortedHeadLeast(b, a[0]);
      SortedHeadLeast(a, b[0]);
      assert a[0] == b[0];
      assert a == [a[0]] + a[1..];
      assert b == [b[0]] + b[1..];
      assert multiset(a[1..]) == multiset(a) - multiset{a[0]};
      assert multiset(b[1..]) == multiset(b) - multiset{b[0]};
      assert multiset(a[1..]) == multiset(b[1..]);
      SortedTail(a);
      SortedTail(b);
      SortedCopyUnique(a[1..], b[1..]);
    }
  }

  /** Every element of a copy is an element of the original. */
  lemma CopyMembers(r: seq<real>, s: seq<real>)
    requires multiset(r) == multiset(s)
    ensures forall v :: v in r <==> v in s
  {
    forall v
      ensures v in r <==> v in s
    {
      assert v in r <==> v in multiset(r);
      assert v in s <==> v in multiset(s);
    }
  }

  /** The first element of a sorted copy is the minimum of the data, and the last is the maximum. */
  lemma SortedCopyEnds(r: seq<real>, s: seq<real>)
    requires IsSortedCopy(r, s) && |s| > 0
    ensures |r| == |s|
    ensures r[0] == Min(s) && r[|r| - 1] == Max(s)
    ensures forall i :: 0 <= i < |r| ==> Min(s) <= r[i] <= Max(s)
  {
    assert |r| == |multiset(r)| == |multiset(s)| == |s|;
    CopyMembers(r, s);
    assert r[0] in s && r[|r| - 1] in s;
    assert Min(s) in r && Max(s) in r;
  }
}
