/** `PowerAnalysis`: sweeps the lifts, runs the resampling trials for each and keeps the
    distributions and the power curve. */
module RoseyPower {
  import opened Wrappers
  import opened Scores
  import opened Indices
  import opened Resampling
  import Percentile

  /** One row of `results`: the `power` and `lift` columns. */
  datatype Row = Row(power: real, lift: real)

  /** `np.linspace(start, stop, num)`: `num` evenly spaced points, the last one exactly `stop`. */
  function Linspace(start: real, stop: real, num: nat): (r: seq<real>)
    requires num >= 2
    ensures |r| == num && r[0] == start && r[num - 1] == stop
    ensures start < stop ==> forall i, j :: 0 <= i < j < num ==> r[i] < r[j]
  {
    var step := (stop - start) / ((num - 1) as real);
    var r := seq(num, i requires 0 <= i < num => if i == num - 1 then stop else start + (i as real) * step);
    LinspaceIncreasing(start, stop, num, step, r);
    r
  }

  lemma LinspaceIncreasing(start: real, stop: real, num: nat, step: real, r: seq<real>)
    requires num >= 2 && step == (stop - start) / ((num - 1) as real)
    requires |r| == num && forall i :: 0 <= i < num ==> r[i] == if i == num - 1 then stop else start + (i as real) * step
    ensures start < stop ==> forall i, j :: 0 <= i < j < num ==> r[i] < r[j]
  {
    if start < stop {
      var m := (num - 1) as real;
      assert step > 0.0;
      assert m * step == stop - start;
      forall i, j | 0 <= i < j < num
        ensures r[i] < r[j]
      {
        assert (j as real) * step - (i as real) * step == ((j - i) as real) * step;
        assert ((j - i) as real) * step > 0.0;
        if j == num - 1 {
          assert (i as real) * step < m * step;
        }
      }
    }
  }

  /** The sweep used when none is given: `np.linspace(0.01, 1.0)`, 50 points. */
  function DefaultLiftSweep(): (r: seq<real>)
    ensures |r| == 50 && r[0] == 0.01 && r[49] == 1.0
    ensures forall i, j :: 0 <= i < j < |r| ==> r[i] < r[j]
  {
    Linspace(0.01, 1.0, 50)
  }

  /** The `results` table `run` builds: at sweep position `i`, the power estimated from the
      `i`-th block of draws and the lift `liftSweep[i]`. */
  function PowerCurve(treatment: seq<real>, control: seq<real>, liftSweep: seq<real>,
                      draws: seq<seq<Draw>>, stat: Statistic, alpha: real): (rows: seq<Row>)
    requires |treatment| > 0 && |control| > 0 && |draws| == |liftSweep|
    requires forall i :: 0 <= i < |draws| ==> |draws[i]| > 0 && ValidDraws(draws[i], |treatment|, |control|)
    requires DefinedOnNonEmpty(stat) && (|liftSweep| > 0 ==> 0.0 <= alpha <= 1.0)
    ensures |rows| == |liftSweep|
  {
    seq(|liftSweep|, i requires 0 <= i < |liftSweep| =>
      Row(PowerAt(treatment, control, liftSweep[i], draws[i], stat, alpha).value, liftSweep[i]))
  }

  /** One row per lift, in sweep order, each carrying its lift and a power in `[0, 1]`. */
  lemma PowerCurveRows(treatment: seq<real>, control: seq<real>, liftSweep: seq<real>,
                       draws: seq<seq<Draw>>, stat: Statistic, alpha: real)
    requires |treatment| > 0 && |control| > 0 && |draws| == |liftSweep|
    requires forall i :: 0 <= i < |draws| ==> |draws[i]| > 0 && ValidDraws(draws[i], |treatment|, |control|)
    requires DefinedOnNonEmpty(stat) && 0.0 <= alpha <= 1.0
    ensures |PowerCurve(treatment, control, liftSweep, draws, stat, alpha)| == |liftSweep|
    ensures forall i :: 0 <= i < |liftSweep| ==>
              PowerCurve(treatment, control, liftSweep, draws, stat, alpha)[i].lift == liftSweep[i]
    ensures forall i :: 0 <= i < |liftSweep| ==>
              0.0 <= PowerCurve(treatment, control, liftSweep, draws, stat, alpha)[i].power <= 1.0
  {
    var rows := PowerCurve(treatment, control, liftSweep, draws, stat, alpha);
    forall i | 0 <= i < |liftSweep|
      ensures rows[i].lift == liftSweep[i] && 0.0 <= rows[i].power <= 1.0
    {
      assert rows[i] == Row(PowerAt(treatment, control, liftSweep[i], draws[i], stat, alpha).value, liftSweep[i]);
    }
  }

  /** The `power` and `lift` columns side by side. */
  function Tabulate(powers: seq<real>, lifts: seq<real>): (rows: seq<Row>)
    requires |powers| == |lifts|
    ensures |rows| == |lifts|
    ensures forall i :: 0 <= i < |rows| ==> rows[i].power == powers[i] && rows[i].lift == lifts[i]
  {
    seq(|lifts|, i requires 0 <= i < |lifts| => Row(powers[i], lifts[i]))
  }

  /** Tabulating the power estimated at each sweep point gives the power curve. */
  lemma PowerCurveOfSweep(treatment: seq<real>, control: seq<real>, liftSweep: seq<real>,
                          draws: seq<seq<Draw>>, stat: Statistic, alpha: real, powers: seq<real>)
    requires |treatment| > 0 && |control| > 0 && |draws| == |liftSweep| == |powers|
    requires forall i :: 0 <= i < |draws| ==> |draws[i]| > 0 && ValidDraws(draws[i], |treatment|, |control|)
    requires DefinedOnNonEmpty(stat) && (|liftSweep| > 0 ==> 0.0 <= alpha <= 1.0)
    requires forall k :: 0 <= k < |liftSweep| ==>
               Some(powers[k]) == EstimatePower(NullDist(treatment, control, draws[k], stat),
                                                AltDist(treatment, control, liftSweep[k], draws[k], stat), alpha)
    ensures Tabulate(powers, liftSweep) == PowerCurve(treatment, control, liftSweep, draws, stat, alpha)
  {
  }

  /** A power analysis of a treatment sample against a control sample over a sweep of lifts.
      The samples and the sweep are fixed at construction; `Run` overwrites the retained
      distributions and the results table. */
  class PowerAnalysis {
    const treatment: seq<real>
    const control: seq<real>
    const liftSweep: seq<real>
    var results: Option<seq<Row>>
    var nullDists: seq<seq<real>>
    var altDists: seq<seq<real>>

    /** `__init__`: keeps the samples, defaults the sweep, starts with no results. */
    constructor (treatment: seq<real>, control: seq<real>, liftSweep: Option<seq<real>> := None)
      ensures this.treatment == treatment && this.control == control
      ensures this.liftSweep == if liftSweep.Some? then liftSweep.value else DefaultLiftSweep()
      ensures results == None && nullDists == [] && altDists == []
    {
      this.treatment := treatment;
      this.control := control;
      this.liftSweep := if liftSweep.Some? then liftSweep.value else DefaultLiftSweep();
      results := None;
      nullDists := [];
      altDists := [];
    }

    /** One iteration of `run`'s inner loop: the permutation trial and the bootstrap trial of
        one draw at one lift. */
    method Trial(lift: real, d: Draw, stat: Statistic) returns (nullOutcome: real, altOutcome: real)
      requires |treatment| > 0 && |control| > 0 && DefinedOnNonEmpty(stat)
      requires ValidDraw(d, |treatment|, |control|)
      ensures nullOutcome == NullTrial(treatment, control, d, stat)
      ensures altOutcome == AltTrial(treatment, control, lift, d, stat)
    {
      var pooled := treatment + control;
      var groupControl := control;
      var groupTreatment := Scaled(treatment, 1.0 + lift);
      PermutationFacts(d.shuffled, |pooled|);
      var nullTreatment := Gather(pooled, d.shuffled[..|groupTreatment|]);
      var nullControl := Gather(pooled, d.shuffled[|groupControl|..]);
      nullOutcome := stat(nullTreatment, nullControl);
      var altTreatment := Gather(groupTreatment, d.resampledTreatment);
      var altControl := Gather(groupControl, d.resampledControl);
      altOutcome := stat(altTreatment, altControl);
    }

    /** The body of `run`'s sweep loop for one lift: `nIter` permutation and bootstrap trials,
        one of each per draw and appended in draw order, then the critical value and the
        power. `None` where numpy's percentile raises. */
    method SweepPoint(lift: real, draws: seq<Draw>, stat: Statistic, alpha: real)
      returns (nullDist: seq<real>, altDist: seq<real>, power: Option<real>)
      requires |treatment| > 0 && |control| > 0 && |draws| > 0 && DefinedOnNonEmpty(stat)
      requires ValidDraws(draws, |treatment|, |control|)
      ensures nullDist == NullDist(treatment, control, draws, stat)
      ensures altDist == AltDist(treatment, control, lift, draws, stat)
      ensures power == EstimatePower(nullDist, altDist, alpha)
    {
      nullDist, altDist := [], [];
      for j := 0 to |draws|
        invariant nullDist == NullDist(treatment, control, draws[..j], stat)
        invariant altDist == AltDist(treatment, control, lift, draws[..j], stat)
      {
        var nullOutcome, altOutcome := Trial(lift, draws[j], stat);
        assert draws[..j + 1][..j] == draws[..j];
        nullDist := nullDist + [nullOutcome];
        altDist := altDist + [altOutcome];
      }
      assert draws[..|draws|] == draws;
      var critical := Percentile.Percentile(nullDist, 100.0 - alpha * 100.0);
      if critical.None? {
        power := None;
      } else {
        power := Some(Power(altDist, critical.value));
      }
    }

    /** `run`'s sweep loop: for each lift in order, the two distributions and the power of
        that sweep point, appended as they are computed. Stops with `ok` false at the first
        lift where numpy's percentile raises. */
    method Sweep(draws: seq<seq<Draw>>, stat: Statistic, alpha: real)
      returns (ok: bool, powerGivenLift: seq<real>, nulls: seq<seq<real>>, alts: seq<seq<real>>)
      requires |treatment| > 0 && |control| > 0 && DefinedOnNonEmpty(stat) && |draws| == |liftSweep|
      requires forall i :: 0 <= i < |draws| ==> |draws[i]| > 0 && ValidDraws(draws[i], |treatment|, |control|)
      ensures ok <==> (|liftSweep| == 0 || 0.0 <= alpha <= 1.0)
      ensures ok ==> |powerGivenLift| == |liftSweep| && |nulls| == |liftSweep| && |alts| == |liftSweep|
      ensures ok ==> forall k :: 0 <= k < |liftSweep| ==>
                       && nulls[k] == NullDist(treatment, control, draws[k], stat)
                       && alts[k] == AltDist(treatment, control, liftSweep[k], draws[k], stat)
                       && Some(powerGivenLift[k]) == EstimatePower(nulls[k], alts[k], alpha)
    {
      powerGivenLift, nulls, alts := [], [], [];
      for i := 0 to |liftSweep|
        invariant i > 0 ==> 0.0 <= alpha <= 1.0
        invariant |powerGivenLift| == i && |nulls| == i && |alts| == i
        invariant forall k :: 0 <= k < i ==>
                    && nulls[k] == NullDist(treatment, control, draws[k], stat)
                    && alts[k] == AltDist(treatment, control, liftSweep[k], draws[k], stat)
                    && Some(powerGivenLift[k]) == EstimatePower(nulls[k], alts[k], alpha)
      {
        var nullDist, altDist, power := SweepPoint(liftSweep[i], draws[i], stat, alpha);
        if power.None? {
          return false, powerGivenLift, nulls, alts;
        }
        powerGivenLift := powerGivenLift + [power.value];
        nulls := nulls + [nullDist];
        alts := alts + [altDist];
      }
      ok := true;
    }

    /** `run`: clears the retained distributions, sweeps the lifts with the draws
        `draws[i][j]` (`nIter` per lift), then keeps both distributions of every lift and the
        results table. Returns false where numpy's percentile raises (`alpha` outside `[0, 1]`
        with a non-empty sweep); the retained distributions are then empty and the results
        table is left as it was. */
    method Run(draws: seq<seq<Draw>>, stat: Statistic := DefaultStatistic(), alpha: real := 0.05,
               nIter: nat := 1000)
      returns (ok: bool)
      requires |treatment| > 0 && |control| > 0 && nIter > 0 && DefinedOnNonEmpty(stat)
      requires |draws| == |liftSweep|
      requires forall i :: 0 <= i < |draws| ==> |draws[i]| == nIter && ValidDraws(draws[i], |treatment|, |control|)
      modifies this
      ensures ok <==> (|liftSweep| == 0 || 0.0 <= alpha <= 1.0)
      ensures !ok ==> nullDists == [] && altDists == [] && results == old(results)
      ensures ok ==> |nullDists| == |liftSweep| && |altDists| == |liftSweep|
      ensures ok ==> forall i :: 0 <= i < |liftSweep| ==>
                       |nullDists[i]| == nIter && nullDists[i] == NullDist(treatment, control, draws[i], stat)
      ensures ok ==> forall i :: 0 <= i < |liftSweep| ==>
                       |altDists[i]| == nIter && altDists[i] == AltDist(treatment, control, liftSweep[i], draws[i], stat)
      ensures ok ==> results == Some(PowerCurve(treatment, control, liftSweep, draws, stat, alpha))
    {
      nullDists := [];
      altDists := [];
      var powerGivenLift, nulls, alts;
      ok, powerGivenLift, nulls, alts := Sweep(draws, stat, alpha);
      if !ok {
        return;
      }
      nullDists, altDists := nulls, alts;
      results := Some(Tabulate(powerGivenLift, liftSweep));
      PowerCurveOfSweep(treatment, control, liftSweep, draws, stat, alpha, powerGivenLift);
    }
  }
}
