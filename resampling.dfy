/** One sweep point of `PowerAnalysis.run`: the permutation ("null") and bootstrap
    ("alternative") trials, the critical value and the power, as functions of the random
    draws, which are taken as inputs. */
module Resampling {
  import opened Wrappers
  import opened Scores
  import opened Indices
  import Percentile

  /** A pluggable statistic `func(group_treatment, group_control)`, defined on non-empty groups. */
  type Statistic = (seq<real>, seq<real>) --> real

  ghost predicate DefinedOnNonEmpty(stat: Statistic)
  {
    forall a, b :: |a| > 0 && |b| > 0 ==> stat.requires(a, b)
  }

  /** The random draws of one trial: the shuffled pooled indices (`replace=False`) and the two
      bootstrap index sequences (`replace=True`). */
  datatype Draw = Draw(shuffled: seq<nat>, resampledTreatment: seq<nat>, resampledControl: seq<nat>)

  /** What `np.random.choice` can return for samples of sizes `nt` and `nc`. */
  predicate ValidDraw(d: Draw, nt: nat, nc: nat)
  {
    && IsPermutation(d.shuffled, nt + nc)
    && |d.resampledTreatment| == nt && InRange(d.resampledTreatment, nt)
    && |d.resampledControl| == nc && InRange(d.resampledControl, nc)
  }

  predicate ValidDraws(draws: seq<Draw>, nt: nat, nc: nat)
  {
    forall j :: 0 <= j < |draws| ==> ValidDraw(draws[j], nt, nc)
  }

  /** `np.hstack([group_treatment, group_control])`: the unscaled treatment, then the control. */
  function Pooled(treatment: seq<real>, control: seq<real>): (r: seq<real>)
    ensures |r| == |treatment| + |control|
    ensures multiset(r) == multiset(treatment) + multiset(control)
  {
    treatment + control
  }

  /** The null groups of one trial: the pooled elements at shuffled positions `[0, |t|)` and at
      shuffled positions `[|c|, |t| + |c|)`, so both hold `|t|` elements. */
  function NullGroups(treatment: seq<real>, control: seq<real>, shuffled: seq<nat>): (g: (seq<real>, seq<real>))
    requires IsPermutation(shuffled, |treatment| + |control|)
    ensures |g.0| == |treatment| && |g.1| == |treatment|
  {
    var pooled := Pooled(treatment, control);
    PermutationFacts(shuffled, |pooled|);
    (Gather(pooled, shuffled[..|treatment|]), Gather(pooled, shuffled[|control|..]))
  }

  /** Each null group is drawn without replacement from the pooled sample; the two groups split
      it exactly when the group sizes agree, and for `|t| > |c|` the shuffled positions
      `[|c|, |t|)` land in both groups. */
  lemma NullGroupsFromPool(treatment: seq<real>, control: seq<real>, shuffled: seq<nat>)
    requires IsPermutation(shuffled, |treatment| + |control|)
    ensures multiset(NullGroups(treatment, control, shuffled).0) <= multiset(Pooled(treatment, control))
    ensures multiset(NullGroups(treatment, control, shuffled).1) <= multiset(Pooled(treatment, control))
    ensures |treatment| == |control| ==>
              multiset(NullGroups(treatment, control, shuffled).0) + multiset(NullGroups(treatment, control, shuffled).1)
              == multiset(Pooled(treatment, control))
    ensures |treatment| > |control| ==>
              forall k :: |control| <= k < |treatment| ==>
                NullGroups(treatment, control, shuffled).0[k] == NullGroups(treatment, control, shuffled).1[k - |control|]
  {
    var pooled, nt, nc := Pooled(treatment, control), |treatment|, |control|;
    PermutationFacts(shuffled, nt + nc);
    GatherPermutation(pooled, shuffled);
    SliceDrawnFromPool(pooled, shuffled, nt);
    SliceDrawnFromPool(pooled, shuffled, nc);
    if nt == nc {
      SplitGather(pooled, shuffled, nt);
    }
  }

  /** Both slices of a permutation pick out a sub-multiset of the sample. */
  lemma SliceDrawnFromPool(s: seq<real>, p: seq<nat>, m: nat)
    requires InRange(p, |s|) && m <= |p| && multiset(Gather(s, p)) == multiset(s)
    ensures InRange(p[..m], |s|) && InRange(p[m..], |s|)
    ensures multiset(Gather(s, p[..m])) <= multiset(s) && multiset(Gather(s, p[m..])) <= multiset(s)
  {
    SplitGather(s, p, m);
    SubMultiset(multiset(Gather(s, p[..m])), multiset(Gather(s, p[m..])));
  }

  /** Cutting the index sequence in two cuts the gathered sample in two. */
  lemma SplitGather(s: seq<real>, p: seq<nat>, m: nat)
    requires InRange(p, |s|) && m <= |p|
    ensures InRange(p[..m], |s|) && InRange(p[m..], |s|)
    ensures multiset(Gather(s, p[..m])) + multiset(Gather(s, p[m..])) == multiset(Gather(s, p))
  {
    assert p == p[..m] + p[m..];
    GatherConcat(s, p[..m], p[m..]);
  }

  /** The two index slices that form the null groups cover every pooled index exactly once if and
      only if the groups have equal sizes. With a larger treatment the shuffled positions
      `[|c|, |t|)` are in both slices; with a larger control the positions `[|t|, |c|)` are in
      neither. */
  lemma NullSlices(p: seq<nat>, nt: nat, nc: nat)
    requires IsPermutation(p, nt + nc)
    ensures |p| == nt + nc
    ensures multiset(p[..nt]) + multiset(p[nc..]) == multiset(Range(nt + nc)) <==> nt == nc
    ensures nt > nc ==> forall k :: nc <= k < nt ==> p[k] in p[..nt] && p[k] in p[nc..]
    ensures nt < nc ==> forall k :: nt <= k < nc ==> p[k] !in p[..nt] && p[k] !in p[nc..]
  {
    PermutationFacts(p, nt + nc);
    if nt == nc {
      assert p == p[..nt] + p[nc..];
    } else if nt > nc {
      OverlappingSlices(p, nt, nc);
    } else {
      SkippingSlices(p, nt, nc);
    }
  }

  /** With `nt > nc` the positions `[nc, nt)` are in both slices, so their index is counted twice. */
  lemma OverlappingSlices(p: seq<nat>, nt: nat, nc: nat)
    requires IsPermutation(p, nt + nc) && |p| == nt + nc && nt > nc
    ensures forall k :: nc <= k < nt ==> p[k] in p[..nt] && p[k] in p[nc..]
    ensures multiset(p[..nt]) + multiset(p[nc..]) != multiset(Range(nt + nc))
  {
    forall k | nc <= k < nt
      ensures p[k] in p[..nt] && p[k] in p[nc..]
    {
      assert p[..nt][k] == p[k] && p[nc..][k - nc] == p[k];
    }
    var x := p[nc];
    assert x in multiset(p[..nt]) && x in multiset(p[nc..]);
    RangeCount(nt + nc, x);
    assert (multiset(p[..nt]) + multiset(p[nc..]))[x] >= 2;
  }

  /** With `nt < nc` the positions `[nt, nc)` are in neither slice, so their index is missed. */
  lemma SkippingSlices(p: seq<nat>, nt: nat, nc: nat)
    requires IsPermutation(p, nt + nc) && |p| == nt + nc && nt < nc
    requires forall i, j :: 0 <= i < j < |p| ==> p[i] != p[j]
    ensures forall k :: nt <= k < nc ==> p[k] !in p[..nt] && p[k] !in p[nc..]
    ensures multiset(p[..nt]) + multiset(p[nc..]) != multiset(Range(nt + nc))
  {
    forall k | nt <= k < nc
      ensures p[k] !in p[..nt] && p[k] !in p[nc..]
    {
      assert forall i :: 0 <= i < nt ==> p[..nt][i] != p[k];
      assert forall i :: 0 <= i < |p[nc..]| ==> p[nc..][i] == p[nc + i] != p[k];
    }
    var x := p[nt];
    assert x !in multiset(p[..nt]) && x !in multiset(p[nc..]);
    RangeCount(nt + nc, x);
    assert (multiset(p[..nt]) + multiset(p[nc..]))[x] == 0;
  }

  /** The alternative groups of one trial: a bootstrap resample of the lifted treatment
      (`group_treatment * (1 + lift)`) and one of the control. */
  function AltGroups(treatment: seq<real>, control: seq<real>, lift: real, d: Draw): (g: (seq<real>, seq<real>))
    requires ValidDraw(d, |treatment|, |control|)
    ensures |g.0| == |treatment| && |g.1| == |control|
    ensures forall k :: 0 <= k < |g.0| ==> g.0[k] in Scaled(treatment, 1.0 + lift)
    ensures forall k :: 0 <= k < |g.1| ==> g.1[k] in control
  {
    (Gather(Scaled(treatment, 1.0 + lift), d.resampledTreatment), Gather(control, d.resampledControl))
  }

  /** One permutation trial: the statistic of the null groups. It does not depend on the lift. */
  function NullTrial(treatment: seq<real>, control: seq<real>, d: Draw, stat: Statistic): real
    requires |treatment| > 0 && ValidDraw(d, |treatment|, |control|) && DefinedOnNonEmpty(stat)
  {
    var g := NullGroups(treatment, control, d.shuffled);
    stat(g.0, g.1)
  }

  /** One bootstrap trial: the statistic of the alternative groups. */
  function AltTrial(treatment: seq<real>, control: seq<real>, lift: real, d: Draw, stat: Statistic): real
    requires |treatment| > 0 && |control| > 0 && ValidDraw(d, |treatment|, |control|)
    requires DefinedOnNonEmpty(stat)
  {
    var g := AltGroups(treatment, control, lift, d);
    stat(g.0, g.1)
  }

  /** With the default statistic, a permutation outcome is bounded by the spread of the unscaled
      samples: both null groups are drawn from the pool, whatever the lift. */
  lemma NullTrialBounded(treatment: seq<real>, control: seq<real>, d: Draw, lo: real, hi: real)
    requires |treatment| > 0 && ValidDraw(d, |treatment|, |control|)
    requires forall k :: 0 <= k < |treatment| ==> lo <= treatment[k] <= hi
    requires forall k :: 0 <= k < |control| ==> lo <= control[k] <= hi
    ensures lo - hi <= NullTrial(treatment, control, d, DefaultStatistic()) <= hi - lo
  {
    var pooled := Pooled(treatment, control);
    var g := NullGroups(treatment, control, d.shuffled);
    NullGroupsFromPool(treatment, control, d.shuffled);
    forall k | 0 <= k < |pooled|
      ensures lo <= pooled[k] <= hi
    {
      if k < |treatment| {
        assert pooled[k] == treatment[k];
      } else {
        assert pooled[k] == control[k - |treatment|];
      }
    }
    DrawnWithin(g.0, pooled, lo, hi);
    DrawnWithin(g.1, pooled, lo, hi);
    MeanAtLeast(g.0, lo);
    MeanAtMost(g.0, hi);
    MeanAtLeast(g.1, lo);
    MeanAtMost(g.1, hi);
    assert NullTrial(treatment, control, d, DefaultStatistic()) == Mean(g.0) - Mean(g.1);
  }

  /** Values drawn from a pool bounded by `lo` and `hi` keep those bounds. */
  lemma DrawnWithin(g: seq<real>, pool: seq<real>, lo: real, hi: real)
    requires multiset(g) <= multiset(pool)
    requires forall k :: 0 <= k < |pool| ==> lo <= pool[k] <= hi
    ensures forall k :: 0 <= k < |g| ==> lo <= g[k] <= hi
  {
    forall k | 0 <= k < |g|
      ensures lo <= g[k] <= hi
    {
      assert g[k] in multiset(g);
      assert g[k] in multiset(pool);
      var i :| 0 <= i < |pool| && pool[i] == g[k];
    }
  }

  /** `null_dist`: the outcome of each draw's permutation trial appended in draw order. */
  function NullDist(treatment: seq<real>, control: seq<real>, draws: seq<Draw>, stat: Statistic): (r: seq<real>)
    requires |treatment| > 0 && ValidDraws(draws, |treatment|, |control|) && DefinedOnNonEmpty(stat)
    ensures |r| == |draws|
  {
    if |draws| == 0 then []
    else
      var n := |draws| - 1;
      NullDist(treatment, control, draws[..n], stat) + [NullTrial(treatment, control, draws[n], stat)]
  }

  /** `alt_dist`: the outcome of each draw's bootstrap trial appended in draw order. */
  function AltDist(treatment: seq<real>, control: seq<real>, lift: real, draws: seq<Draw>, stat: Statistic): (r: seq<real>)
    requires |treatment| > 0 && |control| > 0 && ValidDraws(draws, |treatment|, |control|)
    requires DefinedOnNonEmpty(stat)
    ensures |r| == |draws|
  {
    if |draws| == 0 then []
    else
      var n := |draws| - 1;
      AltDist(treatment, control, lift, draws[..n], stat) + [AltTrial(treatment, control, lift, draws[n], stat)]
  }

  /** Outcome `j` of the null distribution is the permutation trial of draw `j`. */
  lemma {:induction false} NullDistAt(treatment: seq<real>, control: seq<real>, draws: seq<Draw>, stat: Statistic)
    requires |treatment| > 0 && ValidDraws(draws, |treatment|, |control|) && DefinedOnNonEmpty(stat)
    ensures forall j :: 0 <= j < |draws| ==>
              NullDist(treatment, control, draws, stat)[j] == NullTrial(treatment, control, draws[j], stat)
  {
    if |draws| > 0 {
      var n := |draws| - 1;
      NullDistAt(treatment, control, draws[..n], stat);
    }
  }

  /** Outcome `j` of the alternative distribution is the bootstrap trial of draw `j`. */
  lemma {:induction false} AltDistAt(treatment: seq<real>, control: seq<real>, lift: real, draws: seq<Draw>,
                                     stat: Statistic)
    requires |treatment| > 0 && |control| > 0 && ValidDraws(draws, |treatment|, |control|)
    requires DefinedOnNonEmpty(stat)
    ensures forall j :: 0 <= j < |draws| ==>
              AltDist(treatment, control, lift, draws, stat)[j] == AltTrial(treatment, control, lift, draws[j], stat)
  {
    if |draws| > 0 {
      var n := |draws| - 1;
      AltDistAt(treatment, control, lift, draws[..n], stat);
    }
  }

  /** Number of trial outcomes at most `v`. */
  function CountAtMost(s: seq<real>, v: real): (n: nat)
    ensures n <= |s|
  {
    if |s| == 0 then 0 else (if s[0] <= v then 1 else 0) + CountAtMost(s[1..], v)
  }

  /** Number of trial outcomes strictly above `v`. */
  function CountAbove(s: seq<real>, v: real): (n: nat)
    ensures n <= |s|
  {
    if |s| == 0 then 0 else (if s[0] > v then 1 else 0) + CountAbove(s[1..], v)
  }

  /** Every outcome is either at most `v` or above it. */
  lemma {:induction false} CountSplit(s: seq<real>, v: real)
    ensures CountAtMost(s, v) + CountAbove(s, v) == |s|
  {
    if |s| > 0 {
      CountSplit(s[1..], v);
    }
  }

  /** `1 - (alt_dist <= critical_value).mean()`: the fraction of the alternative distribution
      strictly above the critical value, so a probability. */
  function Power(alt: seq<real>, critical: real): (p: real)
    requires |alt| > 0
    ensures p == (CountAbove(alt, critical) as real) / (|alt| as real)
    ensures 0.0 <= p <= 1.0
  {
    CountSplit(alt, critical);
    Complement(CountAtMost(alt, critical), CountAbove(alt, critical), |alt|);
    1.0 - (CountAtMost(alt, critical) as real) / (|alt| as real)
  }

  /** One minus the fraction of a whole is the fraction of the rest, and lies in `[0, 1]`. */
  lemma Complement(part: nat, rest: nat, whole: nat)
    requires whole > 0 && part + rest == whole
    ensures 1.0 - (part as real) / (whole as real) == (rest as real) / (whole as real)
    ensures 0.0 <= (rest as real) / (whole as real) <= 1.0
  {
    var n := whole as real;
    assert (part as real) + (rest as real) == n;
    DivAdd(part as real, rest as real, n);
    DivMonotone(0.0, rest as real, n);
    DivMonotone(rest as real, n, n);
  }

  /** `np.percentile(null_dist, 100 - alpha * 100)`; `None` where numpy raises (`alpha` outside
      `[0, 1]`). */
  function CriticalValue(nullDist: seq<real>, alpha: real): (r: Option<real>)
    requires |nullDist| > 0
    ensures r.Some? <==> 0.0 <= alpha <= 1.0
    ensures r.Some? ==> exists i :: 0 <= i < |nullDist| && nullDist[i] <= r.value
    ensures r.Some? ==> exists j :: 0 <= j < |nullDist| && r.value <= nullDist[j]
  {
    Percentile.Percentile(nullDist, 100.0 - alpha * 100.0)
  }

  /** The estimator of one sweep point: the critical value of the null distribution and the
      power of the alternative distribution against it; `None` where the percentile raises. */
  function EstimatePower(nullDist: seq<real>, altDist: seq<real>, alpha: real): (r: Option<real>)
    requires |nullDist| > 0 && |altDist| > 0
    ensures r.Some? <==> 0.0 <= alpha <= 1.0
    ensures r.Some? ==> 0.0 <= r.value <= 1.0
  {
    match CriticalValue(nullDist, alpha)
    case None => None
    case Some(critical) => Some(Power(altDist, critical))
  }

  /** The power estimated at one sweep point from its draws. */
  function PowerAt(treatment: seq<real>, control: seq<real>, lift: real, draws: seq<Draw>,
                   stat: Statistic, alpha: real): (r: Option<real>)
    requires |treatment| > 0 && |control| > 0 && |draws| > 0
    requires ValidDraws(draws, |treatment|, |control|) && DefinedOnNonEmpty(stat)
    ensures r.Some? <==> 0.0 <= alpha <= 1.0
    ensures r.Some? ==> 0.0 <= r.value <= 1.0
  {
    EstimatePower(NullDist(treatment, control, draws, stat), AltDist(treatment, control, lift, draws, stat), alpha)
  }

  /** At a valid significance level the estimate is the power of the alternative distribution
      against the critical value of the null distribution. */
  lemma PowerAtValue(treatment: seq<real>, control: seq<real>, lift: real, draws: seq<Draw>,
                     stat: Statistic, alpha: real)
    requires |treatment| > 0 && |control| > 0 && |draws| > 0
    requires ValidDraws(draws, |treatment|, |control|) && DefinedOnNonEmpty(stat)
    requires 0.0 <= alpha <= 1.0
    ensures PowerAt(treatment, control, lift, draws, stat, alpha)
         == Some(Power(AltDist(treatment, control, lift, draws, stat),
                       CriticalValue(NullDist(treatment, control, draws, stat), alpha).value))
  {
  }

  /** A larger count at or below a larger threshold. */
  lemma {:induction false} CountAtMostMonotone(s: seq<real>, v1: real, v2: real)
    requires v1 <= v2
    ensures CountAtMost(s, v1) <= CountAtMost(s, v2)
  {
    if |s| > 0 {
      CountAtMostMonotone(s[1..], v1, v2);
    }
  }

  /** Raising outcomes one by one never raises the count at or below a threshold. */
  lemma {:induction false} CountAtMostPointwise(a: seq<real>, b: seq<real>, v: real)
    requires |a| == |b| && forall k :: 0 <= k < |a| ==> a[k] <= b[k]
    ensures CountAtMost(b, v) <= CountAtMost(a, v)
  {
    if |a| > 0 {
      CountAtMostPointwise(a[1..], b[1..], v);
    }
  }

  /** A higher critical value never gives more power. */
  lemma PowerMonotoneInCritical(alt: seq<real>, c1: real, c2: real)
    requires |alt| > 0 && c1 <= c2
    ensures Power(alt, c2) <= Power(alt, c1)
  {
    CountAtMostMonotone(alt, c1, c2);
    DivMonotone(CountAtMost(alt, c1) as real, CountAtMost(alt, c2) as real, |alt| as real);
  }

  /** An alternative distribution that is larger outcome by outcome never has less power. */
  lemma PowerMonotoneInAlternative(a: seq<real>, b: seq<real>, critical: real)
    requires |a| == |b| > 0 && forall k :: 0 <= k < |a| ==> a[k] <= b[k]
    ensures Power(a, critical) <= Power(b, critical)
  {
    CountAtMostPointwise(a, b, critical);
    DivMonotone(CountAtMost(b, critical) as real, CountAtMost(a, critical) as real, |a| as real);
  }

  /** A stricter significance level (smaller `alpha`) takes a higher percentile of the null
      distribution as critical value and so never gives more power. */
  lemma PowerMonotoneInAlpha(nullDist: seq<real>, alt: seq<real>, alpha1: real, alpha2: real)
    requires |nullDist| > 0 && |alt| > 0 && 0.0 <= alpha1 <= alpha2 <= 1.0
    ensures Power(alt, CriticalValue(nullDist, alpha1).value) <= Power(alt, CriticalValue(nullDist, alpha2).value)
  {
    var c1, c2 := CriticalValue(nullDist, alpha1).value, CriticalValue(nullDist, alpha2).value;
    Percentile.PercentileMonotone(nullDist, 100.0 - alpha2 * 100.0, 100.0 - alpha1 * 100.0);
    PowerMonotoneInCritical(alt, c2, c1);
  }

  /** For the same draws, a smaller `alpha` never gives a larger power estimate. */
  lemma PowerAtMonotoneInAlpha(treatment: seq<real>, control: seq<real>, lift: real, draws: seq<Draw>,
                               stat: Statistic, alpha1: real, alpha2: real)
    requires |treatment| > 0 && |control| > 0 && |draws| > 0
    requires ValidDraws(draws, |treatment|, |control|) && DefinedOnNonEmpty(stat)
    requires 0.0 <= alpha1 <= alpha2 <= 1.0
    ensures PowerAt(treatment, control, lift, draws, stat, alpha1).value
         <= PowerAt(treatment, control, lift, draws, stat, alpha2).value
  {
    PowerMonotoneInAlpha(NullDist(treatment, control, draws, stat),
                         AltDist(treatment, control, lift, draws, stat), alpha1, alpha2);
    PowerAtValue(treatment, control, lift, draws, stat, alpha1);
    PowerAtValue(treatment, control, lift, draws, stat, alpha2);
  }

  /** Gathering from a scaled sample is scaling the gathered sample. */
  lemma GatherScaled(s: seq<real>, idx: seq<nat>, factor: real)
    requires InRange(idx, |s|)
    ensures Gather(Scaled(s, factor), idx) == Scaled(Gather(s, idx), factor)
  {
    var lhs, rhs := Gather(Scaled(s, factor), idx), Scaled(Gather(s, idx), factor);
    assert forall k :: 0 <= k < |idx| ==> lhs[k] == factor * s[idx[k]] == rhs[k];
  }

  /** With the default statistic, each bootstrap outcome is `(1 + lift)` times the mean of the
      resampled treatment minus the mean of the resampled control. */
  lemma AltTrialOfMeans(treatment: seq<real>, control: seq<real>, lift: real, d: Draw)
    requires |treatment| > 0 && |control| > 0 && ValidDraw(d, |treatment|, |control|)
    ensures AltTrial(treatment, control, lift, d, DefaultStatistic())
         == (1.0 + lift) * Mean(Gather(treatment, d.resampledTreatment))
            - Mean(Gather(control, d.resampledControl))
  {
    GatherScaled(treatment, d.resampledTreatment, 1.0 + lift);
    MeanScale(Gather(treatment, d.resampledTreatment), 1.0 + lift);
  }

  /** With the default statistic and a non-negative treatment sample, a bootstrap outcome
      never falls as the lift grows. */
  lemma AltTrialMonotoneInLift(treatment: seq<real>, control: seq<real>, lift1: real, lift2: real, d: Draw)
    requires |treatment| > 0 && |control| > 0 && ValidDraw(d, |treatment|, |control|)
    requires forall k :: 0 <= k < |treatment| ==> treatment[k] >= 0.0
    requires lift1 <= lift2
    ensures AltTrial(treatment, control, lift1, d, DefaultStatistic())
         <= AltTrial(treatment, control, lift2, d, DefaultStatistic())
  {
    var rt := Gather(treatment, d.resampledTreatment);
    AltTrialOfMeans(treatment, control, lift1, d);
    AltTrialOfMeans(treatment, control, lift2, d);
    MeanAtLeast(rt, 0.0);
    MulNonNegative(lift2 - lift1, Mean(rt));
    assert (1.0 + lift2) * Mean(rt) - (1.0 + lift1) * Mean(rt) == (lift2 - lift1) * Mean(rt);
  }

  /** For the same draws and the default difference in means, a larger lift on a non-negative
      treatment sample never lowers the estimated power: the null distribution, and so the
      critical value, does not depend on the lift, and every bootstrap outcome grows with it. */
  lemma PowerAtMonotoneInLift(treatment: seq<real>, control: seq<real>, lift1: real, lift2: real,
                              draws: seq<Draw>, alpha: real)
    requires |treatment| > 0 && |control| > 0 && |draws| > 0
    requires ValidDraws(draws, |treatment|, |control|)
    requires forall k :: 0 <= k < |treatment| ==> treatment[k] >= 0.0
    requires lift1 <= lift2 && 0.0 <= alpha <= 1.0
    ensures PowerAt(treatment, control, lift1, draws, DefaultStatistic(), alpha).value
         <= PowerAt(treatment, control, lift2, draws, DefaultStatistic(), alpha).value
  {
    var stat := DefaultStatistic();
    var a1 := AltDist(treatment, control, lift1, draws, stat);
    var a2 := AltDist(treatment, control, lift2, draws, stat);
    AltDistAt(treatment, control, lift1, draws, stat);
    AltDistAt(treatment, control, lift2, draws, stat);
    forall j | 0 <= j < |draws|
      ensures a1[j] <= a2[j]
    {
      AltTrialMonotoneInLift(treatment, control, lift1, lift2, draws[j]);
    }
    var critical := CriticalValue(NullDist(treatment, control, draws, stat), alpha).value;
    PowerMonotoneInAlternative(a1, a2, critical);
    PowerAtValue(treatment, control, lift1, draws, stat, alpha);
    PowerAtValue(treatment, control, lift2, draws, stat, alpha);
  }
}
