/** `np.percentile` with its default linear interpolation between order statistics. */
module Percentile {
  import opened Wrappers
  import opened Scores

  predicate Sorted(s: seq<real>)
  {
    forall i, j :: 0 <= i < j < |s| ==> s[i] <= s[j]
  }

  /** Inserts `x` before the first element that is not smaller. */
  function Insert(x: real, s: seq<real>): seq<real>
  {
    if |s| == 0 then [x]
    else if x <= s[0] then [x] + s
    else [s[0]] + Insert(x, s[1..])
  }

  /** The order statistics of a sample, by insertion sort. */
  function Sort(s: seq<real>): seq<real>
  {
    if |s| == 0 then [] else Insert(s[0], Sort(s[1..]))
  }

  /** Inserting into a sorted sequence keeps it sorted and adds exactly `x`. */
  lemma {:induction false} InsertSorted(x: real, s: seq<real>)
    requires Sorted(s)
    ensures Sorted(Insert(x, s)) && multiset(Insert(x, s)) == multiset(s) + multiset{x}
  {
    if |s| == 0 {
    } else if x <= s[0] {
      assert Insert(x, s) == [x] + s;
      ConsSorted(x, s);
    } else {
      InsertSorted(x, s[1..]);
      var rest := Insert(x, s[1..]);
      assert Insert(x, s) == [s[0]] + rest;
      assert s == [s[0]] + s[1..];
      LowerBound(s[0], x, s[1..], rest);
      ConsSorted(s[0], rest);
    }
  }

  /** A value no larger than any element of a sorted sequence can go in front of it. */
  lemma ConsSorted(a: real, r: seq<real>)
    requires Sorted(r) && forall k :: 0 <= k < |r| ==> a <= r[k]
    ensures Sorted([a] + r)
  {
  }

  /** A lower bound of `t` and of `x` is a lower bound of any rearrangement of `t` plus `x`. */
  lemma LowerBound(lo: real, x: real, t: seq<real>, r: seq<real>)
    requires lo <= x && (forall k :: 0 <= k < |t| ==> lo <= t[k])
    requires multiset(r) == multiset(t) + multiset{x}
    ensures forall k :: 0 <= k < |r| ==> lo <= r[k]
  {
    forall k | 0 <= k < |r|
      ensures lo <= r[k]
    {
      assert r[k] in multiset(r);
      if r[k] != x {
        assert r[k] in multiset(t);
        var j :| 0 <= j < |t| && t[j] == r[k];
      }
    }
  }

  /** `Sort` orders the sample and neither loses nor adds an element. */
  lemma {:induction false} SortSorted(s: seq<real>)
    ensures Sorted(Sort(s)) && multiset(Sort(s)) == multiset(s)
  {
    if |s| > 0 {
      assert Sort(s) == Insert(s[0], Sort(s[1..]));
      SortSorted(s[1..]);
      InsertSorted(s[0], Sort(s[1..]));
      assert s == [s[0]] + s[1..];
      assert multiset(s) == multiset(s[1..]) + multiset{s[0]};
    }
  }

  /** A sorted rearrangement of a sample has the same length and elements, and its ends
      are the sample's minimum and maximum. */
  lemma SortedRearrangement(s: seq<real>, x: seq<real>)
    requires Sorted(x) && multiset(x) == multiset(s)
    ensures |x| == |s|
    ensures forall k :: 0 <= k < |x| ==> x[k] in s
    ensures |s| > 0 ==> forall k :: 0 <= k < |s| ==> x[0] <= s[k] <= x[|s| - 1]
  {
    assert |x| == |multiset(x)| == |multiset(s)| == |s|;
    forall k | 0 <= k < |x|
      ensures x[k] in s
    {
      assert x[k] in multiset(x);
    }
    forall k | 0 <= k < |s|
      ensures x[0] <= s[k] <= x[|s| - 1]
    {
      assert s[k] in multiset(x);
      var j :| 0 <= j < |x| && x[j] == s[k];
    }
  }

  /** `np.percentile(s, q)`: the value at fractional rank `(|s| - 1) * q / 100` of the sorted
      sample; `None` where numpy raises because `q` lies outside `[0, 100]`. */
  function Percentile(s: seq<real>, q: real): (r: Option<real>)
    requires |s| > 0
    ensures r.Some? <==> 0.0 <= q <= 100.0
    ensures r.Some? ==> exists i :: 0 <= i < |s| && s[i] <= r.value
    ensures r.Some? ==> exists j :: 0 <= j < |s| && r.value <= s[j]
  {
    if q < 0.0 || q > 100.0 then None
    else
      var x := Sort(s);
      SortSorted(s);
      SortedRearrangement(s, x);
      InterpolatedWithinSample(s, x, q);
      Some(Interpolated(x, q))
  }

  /** numpy's "linear" method on order statistics `x`: interpolate between the two order
      statistics around the virtual index `(|x| - 1) * q / 100`. */
  function Interpolated(x: seq<real>, q: real): real
    requires |x| > 0 && 0.0 <= q <= 100.0
  {
    var h := Rank(|x|, q);
    var lo := h.Floor;
    var hi := if lo + 1 < |x| then lo + 1 else |x| - 1;
    x[lo] + (h - lo as real) * (x[hi] - x[lo])
  }

  /** On sorted order statistics the interpolated value lies between the two it interpolates,
      which are elements of the sample. */
  lemma InterpolatedWithinSample(s: seq<real>, x: seq<real>, q: real)
    requires Sorted(x) && multiset(x) == multiset(s) && |x| > 0 && 0.0 <= q <= 100.0
    ensures exists i :: 0 <= i < |s| && s[i] <= Interpolated(x, q)
    ensures exists j :: 0 <= j < |s| && Interpolated(x, q) <= s[j]
  {
    var h := Rank(|x|, q);
    var lo := h.Floor;
    var hi := if lo + 1 < |x| then lo + 1 else |x| - 1;
    var t := h - lo as real;
    assert Interpolated(x, q) == x[lo] + t * (x[hi] - x[lo]);
    assert x[lo] <= x[hi] && 0.0 <= t < 1.0;
    Interpolation(x[lo], x[hi], t);
    assert x[lo] in multiset(s) && x[hi] in multiset(s);
    var i :| 0 <= i < |s| && s[i] == x[lo];
    var j :| 0 <= j < |s| && s[j] == x[hi];
    assert s[i] <= Interpolated(x, q) <= s[j];
  }

  /** The 0th percentile is the sample minimum and the 100th its maximum. */
  lemma PercentileExtremes(s: seq<real>)
    requires |s| > 0
    ensures Percentile(s, 0.0).Some? && forall k :: 0 <= k < |s| ==> Percentile(s, 0.0).value <= s[k]
    ensures Percentile(s, 100.0).Some? && forall k :: 0 <= k < |s| ==> s[k] <= Percentile(s, 100.0).value
  {
    var x := Sort(s);
    SortSorted(s);
    SortedRearrangement(s, x);
    InterpolatedEnds(x);
    assert Percentile(s, 0.0) == Some(Interpolated(x, 0.0));
    assert Percentile(s, 100.0) == Some(Interpolated(x, 100.0));
  }

  /** At `q = 0` and `q = 100` no interpolation happens: the first and last order statistics. */
  lemma InterpolatedEnds(x: seq<real>)
    requires |x| > 0
    ensures Interpolated(x, 0.0) == x[0] && Interpolated(x, 100.0) == x[|x| - 1]
  {
    var m := (|x| - 1) as real;
    assert Rank(|x|, 0.0) == m * 0.0 == 0.0;
    assert Rank(|x|, 100.0) == m * 1.0 == m;
    assert m.Floor == |x| - 1;
  }

  /** A higher percentile is never smaller. */
  lemma PercentileMonotone(s: seq<real>, q1: real, q2: real)
    requires |s| > 0 && 0.0 <= q1 <= q2 <= 100.0
    ensures Percentile(s, q1).value <= Percentile(s, q2).value
  {
    var x := Sort(s);
    SortSorted(s);
    InterpolatedMonotone(x, q1, q2);
  }

  /** On sorted order statistics the interpolated value grows with `q`. */
  lemma InterpolatedMonotone(x: seq<real>, q1: real, q2: real)
    requires Sorted(x) && |x| > 0 && 0.0 <= q1 <= q2 <= 100.0
    ensures Interpolated(x, q1) <= Interpolated(x, q2)
  {
    var n := |x|;
    var h1, h2 := Rank(n, q1), Rank(n, q2);
    RankMonotone(n, q1, q2);
    var lo1, lo2 := h1.Floor, h2.Floor;
    var hi1 := if lo1 + 1 < n then lo1 + 1 else n - 1;
    var hi2 := if lo2 + 1 < n then lo2 + 1 else n - 1;
    var t1, t2 := h1 - lo1 as real, h2 - lo2 as real;
    var v1 := x[lo1] + t1 * (x[hi1] - x[lo1]);
    var v2 := x[lo2] + t2 * (x[hi2] - x[lo2]);
    assert Interpolated(x, q1) == v1 && Interpolated(x, q2) == v2;
    Interpolation(x[lo1], x[hi1], t1);
    Interpolation(x[lo2], x[hi2], t2);
    if lo1 == lo2 {
      var d := x[hi1] - x[lo1];
      assert v2 - v1 == t2 * d - t1 * d == (t2 - t1) * d;
      MulNonNegative(t2 - t1, d);
    } else {
      assert lo1 < lo2 && hi1 <= lo2;
      assert v1 <= x[hi1] <= x[lo2] <= v2;
    }
  }

  /** The virtual index grows with the percentile. */
  lemma RankMonotone(n: nat, q1: real, q2: real)
    requires n > 0 && 0.0 <= q1 <= q2 <= 100.0
    ensures Rank(n, q1) <= Rank(n, q2)
  {
    var m := (n - 1) as real;
    MulNonNegative(m, q2 / 100.0 - q1 / 100.0);
    assert m * (q2 / 100.0) - m * (q1 / 100.0) == m * (q2 / 100.0 - q1 / 100.0);
  }

  /** numpy's "linear" virtual index of percentile `q` in a sample of `n` elements. */
  function Rank(n: nat, q: real): (h: real)
    requires n > 0 && 0.0 <= q <= 100.0
    ensures 0.0 <= h <= (n - 1) as real
    ensures 0 <= h.Floor < n
  {
    var f := q / 100.0;
    var m := (n - 1) as real;
    assert m * f <= m * 1.0 by { MulNonNegative(m, 1.0 - f); }
    m * f
  }

  /** Linear interpolation between two ordered values stays between them. */
  lemma Interpolation(a: real, b: real, t: real)
    requires a <= b && 0.0 <= t < 1.0
    ensures a <= a + t * (b - a) <= b
  {
    var d := b - a;
    MulNonNegative(t, d);
    MulNonNegative(1.0 - t, d);
    assert d - t * d == (1.0 - t) * d;
  }
}
