# rosey-power: resampling power analysis, modelled in Dafny

`rosey_power` estimates the statistical power of a two-sample comparison (a treatment
sample against a control sample) by resampling. The model covers one run of the analysis.
Every lift in a sweep is processed the same way:

1. `n_iter` permutation trials build a *null distribution* of the test statistic.
   - Pool the unscaled treatment and the control.
   - Shuffle the pooled indices.
   - Evaluate the statistic on two slices of the shuffled pool.
2. `n_iter` bootstrap trials build an *alternative distribution*.
   - Resample the lifted treatment `treatment * (1 + lift)` with replacement.
   - Resample the control with replacement.
   - Evaluate the statistic on the two resamples.
3. The critical value is the `100 - 100 * alpha` percentile of the null distribution. This
   is numpy's `np.percentile` with its default linear interpolation.
4. The power is the fraction of the alternative distribution strictly above the critical
   value.

The object keeps both distributions of every lift. Its results table holds one
`(power, lift)` row per lift, in sweep order.

Modules:

- `Scores` (`scores.dfy`): the score functions `_make_test_two_tailed` and
  `difference_in_means`, and the facts about means the other proofs need.
- `Indices` (`indices.dfy`): numpy fancy indexing `s[idx]` (`Gather`), and what
  `np.random.choice(np.arange(n), n, replace=False)` returns (a permutation of `0..n-1`).
- `Percentile` (`percentile.dfy`): `np.percentile` with linear interpolation. It sorts the
  sample, then interpolates between the order statistics around the virtual index
  `(n - 1) * q / 100`. Outside `0 <= q <= 100` the result is `None`, where numpy raises
  `ValueError`.
- `Resampling` (`resampling.dfy`): one sweep point as functions of the random draws:
  - the null and alternative groups, trials and distributions;
  - the critical value, the power and the estimator;
  - the monotonicity properties of the estimate.
- `RoseyPower` (`power_analysis.dfy`): the `PowerAnalysis` class. Its `Run` method is
  imperative, with the same loops as `run`, and is proved against the functions above.
  This module also holds `np.linspace` and the power curve.

The random draws are inputs. A `Draw` holds the three index sequences one inner iteration
takes from `np.random.choice`:

- the shuffled pooled indices;
- the bootstrap indices for the treatment;
- the bootstrap indices for the control.

`ValidDraw` states what `np.random.choice` can return for these. `Run` takes one sequence
of `n_iter` draws per lift.

What the code does at points where a reader might expect otherwise:

- **Null groups.** The null treatment is the pooled elements at shuffled positions
  `[0, |t|)`. The null control starts at position `|c|`, not `|t|`
  (`rosey_power/__init__.py:75-76`).
  - `NullSlices` proves that the two slices partition the pooled indices exactly when the
    group sizes are equal.
  - With `|t| > |c|`, positions `[|c|, |t|)` land in both groups.
  - With `|t| < |c|`, positions `[|t|, |c|)` land in neither group.
  - The model keeps the code's boundary.
- **Pooled sample.** The pool is built from the unscaled treatment
  (`rosey_power/__init__.py:64`). Only the bootstrap treatment is lifted
  (`rosey_power/__init__.py:67`). So the permutation trials do not depend on the lift. The
  same draws give the same null distribution and critical value at any lift: `NullTrial` and
  `NullDist` take no lift. `run` still draws them again for each lift
  (`rosey_power/__init__.py:62-74`), so each lift has its own null distribution.
- **Sweep modes and tails.** `PowerAnalysis` has only the multiplicative lift sweep, and no
  two-tailed option. Two-tailed tests come only from the statistic passed to `run`. The
  repository's test (`tests/test_power_analysis.py:4,15`) imports an `ExactPowerAnalysis`
  class with an `is_two_tail` argument. `rosey_power/__init__.py` does not define that class,
  so it is not modelled.
- **Percentile errors.** `alpha` enters only through `np.percentile`, which raises when
  `100 - 100 * alpha` lies outside `[0, 100]`. `Run` then returns `false`. The raise
  happens at the first lift, after its `n_iter` permutation and bootstrap trials
  (`rosey_power/__init__.py:66-92`) and before anything is appended to the retained lists,
  which were emptied at `rosey_power/__init__.py:57-58`. `results` is not yet assigned.
  So `Run` ensures that the lists are empty and `results` is unchanged in that case.
- **Retained distributions.** `Run` collects the distributions in local sequences and stores
  them when the sweep ends. In the model nothing can stop the loop after the first lift,
  because the statistic is total on non-empty groups (see the statistic line under
  "## Left out"). So the stored state is the same as appending lift by lift. In the source, a
  `func` that raises at a later lift leaves the earlier lifts' entries, appended at
  `rosey_power/__init__.py:102-103`, in `_null_dists` and `_alt_dists`.

## Model

| member | source | states |
|---|---|---|
| Scores.TwoTailed | rosey_power/__init__.py:12-13 | In two-tailed mode the result is the score or its negation and never negative (the absolute value); otherwise it is the score. |
| Scores.DifferenceInMeans | rosey_power/__init__.py:16-20 | On non-empty groups the result is mean(treatment) − mean(control), or, only in two-tailed mode, mean(control) − mean(treatment); two-tailed results are never negative. |
| Scores.DefaultStatistic | rosey_power/__init__.py:46 | The default `func` of `run` is defined on every pair of non-empty groups and there equals mean(a) − mean(b) (one-tailed). |
| Scores.Mean | rosey_power/__init__.py:18 | `ndarray.mean()` of a non-empty group; it has no contract of its own, and its properties are carried by `MeanAtLeast`, `MeanAtMost` and `MeanScale`. |
| Scores.MeanAtLeast | rosey_power/__init__.py:18 | The mean of a non-empty sample is at least any lower bound of its elements. |
| Scores.MeanAtMost | rosey_power/__init__.py:18 | The mean of a non-empty sample is at most any upper bound of its elements. |
| Scores.Scaled | rosey_power/__init__.py:67 | `array * factor` keeps the length and multiplies every element by the factor. |
| Scores.MeanScale | rosey_power/__init__.py:67 | Scaling every element of a sample by `1 + lift` scales its mean by the same factor. |
| Indices.Gather | rosey_power/__init__.py:75-76 | Fancy indexing `s[idx]` has one element per index, element k being `s[idx[k]]`. |
| Indices.Range | rosey_power/__init__.py:71 | `np.arange(n)` has n elements, element k being k. |
| Indices.IsPermutation | rosey_power/__init__.py:70-74 | What a draw of all n indices without replacement can return: a rearrangement of `0..n-1`. It has no contract; `PermutationFacts` derives its consequences. |
| Indices.PermutationFacts | rosey_power/__init__.py:70-74 | A draw without replacement of all n indices has length n, stays below n and repeats no index. |
| Indices.GatherPermutation | rosey_power/__init__.py:70-75 | Reading the pooled sample through a full shuffle rearranges it: the same multiset of values. |
| Percentile.SortSorted | rosey_power/__init__.py:97 | The order statistics the percentile interpolates between are sorted and are a rearrangement of the sample. |
| Percentile.Sort | rosey_power/__init__.py:97 | The order statistics of the sample; no contract of its own, `SortSorted` states that they are sorted and a rearrangement of the sample. |
| Percentile.Percentile | rosey_power/__init__.py:97 | `np.percentile(s, q)` is defined exactly for 0 ≤ q ≤ 100 (numpy raises otherwise) and then lies between two elements of the sample. |
| Percentile.PercentileExtremes | rosey_power/__init__.py:97 | The 0th percentile is the sample minimum and the 100th the sample maximum. |
| Percentile.PercentileMonotone | rosey_power/__init__.py:97 | A higher percentile is never smaller. |
| Percentile.Rank | rosey_power/__init__.py:97 | The virtual index of linear interpolation lies in `[0, n − 1]`, so its floor is a valid position. |
| Percentile.Interpolated | rosey_power/__init__.py:97 | numpy's linear interpolation between the order statistics around the virtual index; no contract of its own, `InterpolatedWithinSample`, `InterpolatedEnds` and `InterpolatedMonotone` carry its properties. |
| Percentile.InterpolatedWithinSample | rosey_power/__init__.py:97 | On sorted order statistics of a sample, the interpolated value lies between two elements of that sample. |
| Percentile.InterpolatedEnds | rosey_power/__init__.py:97 | At q = 0 and q = 100 the interpolation returns the first and last order statistics. |
| Percentile.InterpolatedMonotone | rosey_power/__init__.py:97 | On sorted order statistics the interpolated value does not decrease as q grows. |
| Resampling.NullGroups | rosey_power/__init__.py:64-76 | Both null groups hold exactly `len(treatment)` elements. |
| Resampling.ValidDraw | rosey_power/__init__.py:70-89 | What the three `np.random.choice` calls of one trial can return: a full shuffle of the pooled indices, and bootstrap indices of the sample sizes within each sample. No contract; it is the precondition of every trial. |
| Resampling.Pooled | rosey_power/__init__.py:64 | The pool has `len(treatment) + len(control)` elements and holds exactly the unscaled treatment values and the control values. |
| Resampling.NullGroupsFromPool | rosey_power/__init__.py:64-76 | Each null group is a sub-multiset of the pooled sample; for equal group sizes the two groups together are exactly the pooled sample; for a larger treatment the overlapping positions give equal elements in both groups. |
| Resampling.NullSlices | rosey_power/__init__.py:70-76 | The two index slices partition the pooled indices if and only if the group sizes are equal; a larger treatment makes positions `[len(c), len(t))` fall in both slices, a larger control makes positions `[len(t), len(c))` fall in neither. |
| Resampling.AltGroups | rosey_power/__init__.py:67-91 | The bootstrap groups have the sample sizes; every resampled treatment value is a value of the lifted treatment, every resampled control value a value of the control. |
| Resampling.NullTrial | rosey_power/__init__.py:75-77 | One permutation outcome, `func` of the null groups. No contract of its own: it takes no lift, so the null outcome of a draw is the same for every lift; `NullTrialBounded` bounds it, and `NullDistAt` places it in the null distribution. |
| Resampling.NullTrialBounded | rosey_power/__init__.py:64-77 | With the default statistic and both samples within [lo, hi], every permutation outcome lies within [lo − hi, hi − lo], because both null groups are drawn from the pool. |
| Resampling.AltTrial | rosey_power/__init__.py:90-92 | One bootstrap outcome, `func` of the alternative groups. No contract of its own; `AltTrialOfMeans` gives its value for the default statistic, `AltTrialMonotoneInLift` its growth with the lift, and `AltDistAt` its place in the alternative distribution. |
| Resampling.NullDist | rosey_power/__init__.py:63-77 | The null distribution has one outcome per draw (`n_iter` entries). |
| Resampling.AltDist | rosey_power/__init__.py:63-92 | The alternative distribution has one outcome per draw (`n_iter` entries). |
| Resampling.NullDistAt | rosey_power/__init__.py:66-77 | Outcome j of the null distribution is the permutation trial of draw j (append order is draw order). |
| Resampling.AltDistAt | rosey_power/__init__.py:66-92 | Outcome j of the alternative distribution is the bootstrap trial of draw j. |
| Resampling.CountAtMost | rosey_power/__init__.py:98 | The number of outcomes at or below the critical value, at most the number of outcomes. |
| Resampling.CountAbove | rosey_power/__init__.py:98 | The number of outcomes above the critical value, at most the number of outcomes. |
| Resampling.CountSplit | rosey_power/__init__.py:98 | Every outcome is either at most the critical value or above it. |
| Resampling.Power | rosey_power/__init__.py:98 | `1 − mean(alt ≤ critical)` equals the fraction of outcomes strictly above the critical value and lies in [0, 1]. |
| Resampling.Complement | rosey_power/__init__.py:98 | One minus the fraction at or below is the fraction above, a value in [0, 1]. |
| Resampling.CriticalValue | rosey_power/__init__.py:97 | The critical value exists exactly when 0 ≤ alpha ≤ 1 and then lies between two outcomes of the null distribution. |
| Resampling.EstimatePower | rosey_power/__init__.py:97-98 | The estimate exists exactly when 0 ≤ alpha ≤ 1 and is then a probability. |
| Resampling.PowerAt | rosey_power/__init__.py:95-98 | The power of one sweep point from its draws exists exactly when 0 ≤ alpha ≤ 1, and is then a probability. |
| Resampling.PowerMonotoneInCritical | rosey_power/__init__.py:98 | A higher critical value never gives more power. |
| Resampling.PowerMonotoneInAlternative | rosey_power/__init__.py:98 | An alternative distribution that is larger outcome by outcome never has less power. |
| Resampling.PowerMonotoneInAlpha | rosey_power/__init__.py:97-98 | A smaller alpha (a higher percentile as critical value) never gives more power. |
| Resampling.PowerAtMonotoneInAlpha | rosey_power/__init__.py:62-98 | With the same draws, the power estimate of a sweep point never decreases as alpha grows. |
| Resampling.AltTrialOfMeans | rosey_power/__init__.py:67-92 | With the default statistic, a bootstrap outcome is `(1 + lift)` times the resampled treatment mean minus the resampled control mean. |
| Resampling.AltTrialMonotoneInLift | rosey_power/__init__.py:67-92 | With the default statistic and a non-negative treatment, a bootstrap outcome never falls as the lift grows. |
| Resampling.PowerAtMonotoneInLift | rosey_power/__init__.py:62-98 | With the same draws, the default statistic and a non-negative treatment, the estimated power never falls as the lift grows (the null distribution does not depend on the lift). |
| RoseyPower.Linspace | rosey_power/__init__.py:39 | `np.linspace(start, stop, num)` has `num` points, starts at `start`, ends exactly at `stop` and is strictly increasing when `start < stop`. |
| RoseyPower.DefaultLiftSweep | rosey_power/__init__.py:38-40 | The default sweep has 50 strictly increasing lifts from 0.01 to 1.0. |
| RoseyPower.PowerCurve | rosey_power/__init__.py:101-108 | The results table has one row per lift. |
| RoseyPower.PowerCurveRows | rosey_power/__init__.py:101-108 | Row i carries lift i of the sweep and a power in [0, 1]. |
| RoseyPower.Tabulate | rosey_power/__init__.py:106-108 | The results table has one row per lift; row i carries power i and lift i, so the `power` and `lift` columns stay aligned. |
| RoseyPower.PowerCurveOfSweep | rosey_power/__init__.py:101-108 | Tabulating the power computed at each lift against the sweep gives the power curve. |
| RoseyPower.PowerAnalysis.constructor | rosey_power/__init__.py:34-44 | Keeps both samples; the sweep is the given one or, when none is given, the 50-point default; no results and no retained distributions. |
| RoseyPower.PowerAnalysis.Trial | rosey_power/__init__.py:66-92 | One inner iteration computes exactly the permutation trial and the bootstrap trial of its draw. |
| RoseyPower.PowerAnalysis.SweepPoint | rosey_power/__init__.py:62-98 | The inner loop builds exactly the null and alternative distributions of the lift's draws; the power is the estimator applied to them (absent where the percentile raises). |
| RoseyPower.PowerAnalysis.Sweep | rosey_power/__init__.py:56-103 | The sweep succeeds exactly when the sweep is empty or 0 ≤ alpha ≤ 1; it then holds, per lift in order, the null and alternative distributions of that lift and their power estimate. |
| RoseyPower.PowerAnalysis.Run | rosey_power/__init__.py:46-108 | On success, the retained distributions have one entry of `n_iter` outcomes per lift, each the distribution of that lift's draws, and the results are the power curve; on a percentile error, both lists are empty and the results are unchanged. |

## Left out

- `difference_in_var` (`rosey_power/__init__.py:23-27`) is not modelled: it needs the
  standard deviation, a square root, which has no exact counterpart over Dafny's reals.
- Randomness: `np.random.choice` becomes draws passed in. `ValidDraw` says what a draw can
  be, but the uniform distribution of the draws is not modelled. So statements about
  expected power, or about power being close to alpha with no effect, are out of reach.
- Floating point becomes exact real arithmetic. The model has no rounding, no `nan` and no
  infinities. `100 - alpha * 100` is computed exactly.
- `verbose` and the `tqdm` progress bar are left out. They are display only.
- The pandas `DataFrame` is modelled as a sequence of `Row(power, lift)`.
- `Run` requires non-empty samples and `n_iter > 0`. With an empty group, numpy's mean
  returns `nan` with a warning. With `n_iter == 0`, the percentile is taken over an empty
  array, where numpy errors. Neither case is a meaningful analysis, and both depend on
  floating-point or numpy-version behaviour outside the model.
- A statistic that raises is not modelled. `func` must be defined on every pair of
  non-empty groups (`DefinedOnNonEmpty`). So the partial `_null_dists` and `_alt_dists`
  that a raise at a later lift leaves behind are not modelled either.
- `np.percentile` selects order statistics by partial partitioning. The model sorts by
  insertion instead. Only the value is modelled, not the algorithm.
- `setup.py` and `tests/test_power_analysis.py` are not part of this model. The test
  exercises an `ExactPowerAnalysis` class that this source does not define.
