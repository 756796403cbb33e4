/** Score functions: the test statistics the power analysis compares groups with. */
module Scores {

  /** `_make_test_two_tailed`: the absolute value of the score in two-tailed mode,
      the score itself otherwise. */
  function TwoTailed(score: real, twoTail: bool): (r: real)
    ensures twoTail ==> r >= 0.0 && (r == score || r == -score)
    ensures !twoTail ==> r == score
  {
    if twoTail then (if score < 0.0 then -score else score) else score
  }

  /** Sum of a sample, folded from the front. */
  function Sum(s: seq<real>): real
  {
    if |s| == 0 then 0.0 else s[0] + Sum(s[1..])
  }

  /** Arithmetic mean (`ndarray.mean()`); the source never takes the mean of an empty group. */
  function Mean(s: seq<real>): real
    requires |s| > 0
  {
    Sum(s) / (|s| as real)
  }

  /** `difference_in_means`: mean of treatment minus mean of control, optionally two-tailed. */
  function DifferenceInMeans(treatment: seq<real>, control: seq<real>, twoTail: bool): (r: real)
    requires |treatment| > 0 && |control| > 0
    ensures twoTail ==> r >= 0.0
    ensures r == Mean(treatment) - Mean(control) || (twoTail && r == Mean(control) - Mean(treatment))
  {
    TwoTailed(Mean(treatment) - Mean(control), twoTail)
  }

  /** The default statistic of `run`: the one-tailed difference in means, defined on non-empty groups. */
  function DefaultStatistic(): (f: (seq<real>, seq<real>) --> real)
    ensures forall a, b :: |a| > 0 && |b| > 0 ==> f.requires(a, b) && f(a, b) == Mean(a) - Mean(b)
  {
    (a: seq<real>, b: seq<real>) requires |a| > 0 && |b| > 0 => DifferenceInMeans(a, b, false)
  }

  /** Every element at least `lo` puts the sum at least `|s| * lo`. */
  lemma {:induction false} SumAtLeast(s: seq<real>, lo: real)
    requires forall k :: 0 <= k < |s| ==> lo <= s[k]
    ensures (|s| as real) * lo <= Sum(s)
  {
    if |s| > 0 {
      SumAtLeast(s[1..], lo);
    }
  }

  /** Every element at most `hi` puts the sum at most `|s| * hi`. */
  lemma {:induction false} SumAtMost(s: seq<real>, hi: real)
    requires forall k :: 0 <= k < |s| ==> s[k] <= hi
    ensures Sum(s) <= (|s| as real) * hi
  {
    if |s| > 0 {
      SumAtMost(s[1..], hi);
    }
  }

  /** The mean of a sample is at least any lower bound of its elements. */
  lemma MeanAtLeast(s: seq<real>, lo: real)
    requires |s| > 0
    requires forall k :: 0 <= k < |s| ==> lo <= s[k]
    ensures lo <= Mean(s)
  {
    SumAtLeast(s, lo);
    var n := |s| as real;
    assert lo == (n * lo) / n;
  }

  /** The mean of a sample is at most any upper bound of its elements. */
  lemma MeanAtMost(s: seq<real>, hi: real)
    requires |s| > 0
    requires forall k :: 0 <= k < |s| ==> s[k] <= hi
    ensures Mean(s) <= hi
  {
    SumAtMost(s, hi);
    var n := |s| as real;
    assert hi == (n * hi) / n;
  }

  /** Every element multiplied by the same factor (numpy's `array * factor`). */
  function Scaled(s: seq<real>, factor: real): (r: seq<real>)
    ensures |r| == |s| && forall k :: 0 <= k < |s| ==> r[k] == factor * s[k]
  {
    seq(|s|, k requires 0 <= k < |s| => factor * s[k])
  }

  /** Scaling every element by a factor scales the sum by it. */
  lemma {:induction false} SumScale(s: seq<real>, factor: real)
    ensures Sum(Scaled(s, factor)) == factor * Sum(s)
  {
    if |s| > 0 {
      var whole, tail := Scaled(s, factor), Scaled(s[1..], factor);
      assert forall k :: 0 <= k < |tail| ==> whole[1..][k] == whole[k + 1] == tail[k];
      assert whole[1..] == tail;
      SumScale(s[1..], factor);
    }
  }

  /** Scaling every element by a factor scales the mean by it. */
  lemma MeanScale(s: seq<real>, factor: real)
    requires |s| > 0
    ensures Mean(Scaled(s, factor)) == factor * Mean(s)
  {
    SumScale(s, factor);
  }

  /** Real-arithmetic facts the percentile and power proofs share. */
  lemma MulNonNegative(x: real, y: real)
    requires x >= 0.0 && y >= 0.0
    ensures x * y >= 0.0
  {
  }

  /** Fractions of the same positive whole add up. */
  lemma DivAdd(a: real, b: real, n: real)
    requires n > 0.0
    ensures a / n + b / n == (a + b) / n
    ensures n / n == 1.0
  {
  }

  /** Dividing by a positive number keeps the order. */
  lemma DivMonotone(x: real, y: real, n: real)
    requires x <= y && n > 0.0
    ensures x / n <= y / n
  {
    assert y / n - x / n == (y - x) / n;
  }
}
