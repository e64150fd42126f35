/** Frequency counting as Python's `collections.Counter` does it: a count per
    distinct value, with the distinct values kept in the order of their first
    occurrence. `moda` is built on top of this. */
module Frequencies {

  /** How many times `v` occurs in `s`. */
  function Count(s: seq<real>, v: real): nat
  {
    multiset(s)[v]
  }

  /** No value occurs twice. */
  predicate Distinct(s: seq<real>)
  {
    forall i, j :: 0 <= i < j < |s| ==> s[i] != s[j]
  }

  /** The position of the first occurrence of `v` in `s`. */
  function FirstIndex(s: seq<real>, v: real): (i: nat)
    requires v in s
    ensures i < |s| && s[i] == v && v !in s[..i]
  {
    if s[0] == v then 0
    else
      var k := FirstIndex(s[1..], v);
      assert s[..k + 1] == [s[0]] + s[1..][..k];
      k + 1
  }

  /** Every key occurs in `s`, and the keys appear in the order in which `s`
      first mentions them. */
  predicate InFirstOccurrenceOrder(keys: seq<real>, s: seq<real>)
  {
    (forall i :: 0 <= i < |keys| ==> keys[i] in s) &&
    forall i, j :: 0 <= i < j < |keys| ==> FirstIndex(s, keys[i]) < FirstIndex(s, keys[j])
  }

  /** A Counter: its keys in insertion order, and the count of each key. */
  datatype Tally = Tally(keys: seq<real>, counts: map<real, nat>)
  {
    /** Every key has a count. */
    predicate Covers()
    {
      forall i :: 0 <= i < |keys| ==> keys[i] in counts
    }
  }

  /** `Counter(s)`: walks `s` from the left, adding a key the first time a value
      is seen and incrementing its count on every later occurrence. */
  function CountAll(s: seq<real>): (t: Tally)
    ensures forall v :: v in t.keys <==> v in s
    ensures forall v :: v in t.counts <==> v in s
    ensures |t.keys| <= |s|
  {
    if |s| == 0 then Tally([], map[])
    else
      var t := CountAll(s[..|s| - 1]);
      var v := s[|s| - 1];
      assert s == s[..|s| - 1] + [v];
      if v in t.counts then Tally(t.keys, t.counts[v := t.counts[v] + 1])
      else Tally(t.keys + [v], t.counts[v := 1])
  }

  /** The first index of a value is the only index holding it with no earlier occurrence. */
  lemma FirstIndexUnique(s: seq<real>, v: real, i: nat)
    requires i < |s| && s[i] == v && v !in s[..i]
    ensures FirstIndex(s, v) == i
  {
    var k := FirstIndex(s, v);
    assert forall j :: 0 <= j < i ==> s[..i][j] == s[j];
    assert forall j :: 0 <= j < k ==> s[..k][j] == s[j];
  }

  /** Appending an element does not move the first occurrence of a value already present. */
  lemma FirstIndexOfPrefix(p: seq<real>, x: real, v: real)
    requires v in p
    ensures FirstIndex(p + [x], v) == FirstIndex(p, v)
  {
    var i := FirstIndex(p, v);
    assert (p + [x])[..i] == p[..i];
    FirstIndexUnique(p + [x], v, i);
  }

  /** Appending a new value puts its first occurrence at the end. */
  lemma FirstIndexOfNew(p: seq<real>, x: real)
    requires x !in p
    ensures FirstIndex(p + [x], x) == |p|
  {
    assert (p + [x])[..|p|] == p;
    FirstIndexUnique(p + [x], x, |p|);
  }

  /** Keys listed in first-occurrence order are necessarily distinct. */
  lemma OrderedKeysDistinct(keys: seq<real>, s: seq<real>)
    requires InFirstOccurrenceOrder(keys, s)
    ensures Distinct(keys)
  {
  }

  /** A sequence is free of repeats exactly when its prefix is and its last element is new. */
  lemma DistinctSnoc(p: seq<real>, x: real)
    ensures Distinct(p + [x]) <==> Distinct(p) && x !in p
  {
    var s := p + [x];
    if Distinct(s) {
      assert forall i, j :: 0 <= i < j < |p| ==> p[i] == s[i] && p[j] == s[j];
      assert forall i :: 0 <= i < |p| ==> p[i] == s[i] != s[|p|];
    }
    if Distinct(p) && x !in p {
      forall i, j | 0 <= i < j < |s|
        ensures s[i] != s[j]
      {
        if j < |p| {
          assert s[i] == p[i] && s[j] == p[j];
        } else {
          assert s[i] == p[i];
        }
      }
    }
  }

  /** Appending to the data keeps the first occurrences of the existing keys in order. */
  lemma OrderExtend(keys: seq<real>, p: seq<real>, x: real)
    requires InFirstOccurrenceOrder(keys, p)
    ensures InFirstOccurrenceOrder(keys, p + [x])
  {
    forall i | 0 <= i < |keys|
      ensures FirstIndex(p + [x], keys[i]) == FirstIndex(p, keys[i])
    {
      FirstIndexOfPrefix(p, x, keys[i]);
    }
  }

  /** A value seen for the first time goes after every existing key. */
  lemma OrderSnoc(keys: seq<real>, p: seq<real>, x: real)
    requires InFirstOccurrenceOrder(keys, p) && x !in p
    ensures InFirstOccurrenceOrder(keys + [x], p + [x])
  {
    OrderExtend(keys, p, x);
    FirstIndexOfNew(p, x);
    var s := p + [x];
    var r := keys + [x];
    forall i, j | 0 <= i < j < |r|
      ensures FirstIndex(s, r[i]) < FirstIndex(s, r[j])
    {
      assert r[i] == keys[i];
      if j < |keys| {
        assert r[j] == keys[j];
      }
    }
  }

  /** The keys of a Counter are in first-occurrence order, hence distinct. */
  lemma {:induction false} CountAllOrdered(s: seq<real>)
    ensures InFirstOccurrenceOrder(CountAll(s).keys, s)
    ensures Distinct(CountAll(s).keys)
  {
    if |s| > 0 {
      var p := s[..|s| - 1];
      var x := s[|s| - 1];
      assert s == p + [x];
      CountAllOrdered(p);
      if x in p {
        OrderExtend(CountAll(p).keys, p, x);
      } else {
        OrderSnoc(CountAll(p).keys, p, x);
      }
    }
    OrderedKeysDistinct(CountAll(s).keys, s);
  }

  /** A Counter has as many keys as observations exactly when no value repeats. */
  lemma {:induction false} CountAllSize(s: seq<real>)
    ensures |CountAll(s).keys| == |s| <==> Distinct(s)
  {
    if |s| > 0 {
      var p := s[..|s| - 1];
      var x := s[|s| - 1];
      assert s == p + [x];
      CountAllSize(p);
      DistinctSnoc(p, x);
    }
  }

  /** Each count of a Counter is the number of occurrences of its key. */
  lemma {:induction false} CountAllCounts(s: seq<real>)
    ensures CountAll(s).Covers()
    ensures forall v :: v in CountAll(s).counts ==> CountAll(s).counts[v] == Count(s, v)
  {
    if |s| > 0 {
      var p := s[..|s| - 1];
      var x := s[|s| - 1];
      assert s == p + [x];
      CountAllCounts(p);
      assert multiset(s) == multiset(p) + multiset{x};
    }
  }

  /** The largest count among `keys` (Python's `max(counter.values())`). */
  function MaxCount(keys: seq<real>, counts: map<real, nat>): (m: nat)
    requires |keys| > 0
    requires forall i :: 0 <= i < |keys| ==> keys[i] in counts
    ensures exists i :: 0 <= i < |keys| && counts[keys[i]] == m
    ensures forall i :: 0 <= i < |keys| ==> counts[keys[i]] <= m
  {
    if |keys| == 1 then counts[keys[0]]
    else
      var rest := MaxCount(keys[1..], counts);
      assert forall i :: 1 <= i < |keys| ==> keys[i] == keys[1..][i - 1];
      if counts[keys[0]] < rest then rest else counts[keys[0]]
  }

  /** The keys whose count is `m`, in their original order (the list comprehension of `moda`). */
  function KeysWithCount(keys: seq<real>, counts: map<real, nat>, m: nat): (r: seq<real>)
    requires forall i :: 0 <= i < |keys| ==> keys[i] in counts
    ensures |r| <= |keys|
    ensures forall v :: v in r <==> v in keys && v in counts && counts[v] == m
    ensures (forall i :: 0 <= i < |keys| ==> counts[keys[i]] == m) ==> r == keys
  {
    if |keys| == 0 then []
    else
      var rest := KeysWithCount(keys[1..], counts, m);
      assert keys == [keys[0]] + keys[1..];
      if counts[keys[0]] == m then [keys[0]] + rest else rest
  }

  /** Dropping the first key keeps the rest in order. */
  lemma OrderTail(keys: seq<real>, s: seq<real>)
    requires InFirstOccurrenceOrder(keys, s) && |keys| > 0
    ensures InFirstOccurrenceOrder(keys[1..], s)
  {
    assert forall i :: 0 <= i < |keys| - 1 ==> keys[1..][i] == keys[i + 1];
  }

  /** A key whose first occurrence precedes those of an ordered list may lead it. */
  lemma OrderCons(k: real, rest: seq<real>, s: seq<real>)
    requires InFirstOccurrenceOrder(rest, s) && k in s
    requires forall v :: v in rest ==> FirstIndex(s, k) < FirstIndex(s, v)
    ensures InFirstOccurrenceOrder([k] + rest, s)
  {
    var r := [k] + rest;
    forall i, j | 0 <= i < j < |r|
      ensures FirstIndex(s, r[i]) < FirstIndex(s, r[j])
    {
      assert r[j] == rest[j - 1];
      if i > 0 {
        assert r[i] == rest[i - 1];
      }
    }
  }

  /** Selecting keys keeps them in first-occurrence order. */
  lemma {:induction false} KeysWithCountOrdered(keys: seq<real>, counts: map<real, nat>, m: nat, s: seq<real>)
    requires forall i :: 0 <= i < |keys| ==> keys[i] in counts
    requires InFirstOccurrenceOrder(keys, s)
    ensures InFirstOccurrenceOrder(KeysWithCount(keys, counts, m), s)
  {
    if |keys| > 0 {
      var tail := keys[1..];
      OrderTail(keys, s);
      KeysWithCountOrdered(tail, counts, m, s);
      if counts[keys[0]] == m {
        var rest := KeysWithCount(tail, counts, m);
        forall v | v in rest
          ensures FirstIndex(s, keys[0]) < FirstIndex(s, v)
        {
          var k :| 0 <= k < |tail| && tail[k] == v;
          assert keys[k + 1] == v;
        }
        OrderCons(keys[0], rest, s);
      }
    }
  }
}
