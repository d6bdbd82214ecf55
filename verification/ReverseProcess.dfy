/**
 * The full ancestral reverse process (`p_reverseProcess` and
 * `p_reverseProcess_loop`): one denoising step per diffusion step, from the
 * last step down to step 0, with the history prefix restored after every
 * step. The noise estimator and the random draws are parameters.
 */
module ReverseProcess {
  import opened Tensors
  import opened Results
  import opened NoiseSchedule
  import opened Constraints

  /** The noise estimator with its conditioning fixed: `(x_t, t)` to estimated noise. */
  type Estimator = (Traj, nat) -> Traj

  /** The estimator answers with a tensor of its input's shape. */
  ghost predicate KeepsShape(est: Estimator) {
    forall y: Traj, t: nat :: SameShape(est(y, t), y)
  }

  /** Everything the sampling loops read and never change. */
  datatype Sampler = Sampler(
    schedule: Schedule,
    sqrt: real -> real,
    estimator: Estimator,
    reference: Traj,
    inpaintHorizon: nat)
  {
    function Steps(): nat { schedule.Steps() }

    /** The buffers are the ones derived from the betas with this square root. */
    ghost predicate Valid() {
      DerivedWith(schedule, sqrt) && KeepsShape(estimator)
    }

    /** The two square roots the reverse update divides by are nonzero at step `t`. */
    ghost predicate Invertible(t: nat)
      requires Valid() && t < Steps()
    {
      sqrt(schedule.alphas[t]) != 0.0 && sqrt(1.0 - schedule.alphasCumprod[t]) != 0.0
    }

    ghost predicate Ready() {
      Valid() && forall t :: 0 <= t < Steps() ==> Invertible(t)
    }
  }

  /** The square-root buffers at step `t` are the sampler's square roots of `alphas_cumprod[t]`. */
  lemma RootBuffersAt(c: Sampler, t: nat)
    requires c.Valid() && t < c.Steps()
    ensures c.schedule.sqrtAlphasCumprod[t] == c.sqrt(c.schedule.alphasCumprod[t])
    ensures c.schedule.sqrtOneMinusAlphasCumprod[t] == c.sqrt(1.0 - c.schedule.alphasCumprod[t])
  {
  }

  /** The noise-free part of a reverse step: the estimated mean of `x_{t-1}`. */
  function PMean(c: Sampler, x: Traj, t: nat, est: Traj): (r: Traj)
    requires c.Valid() && t < c.Steps() && c.Invertible(t)
    requires SameShape(est, x)
    ensures SameShape(r, x)
    ensures forall i, j :: 0 <= i < |x| && 0 <= j < |x[i]| ==>
      r[i][j] == (x[i][j] - (1.0 - c.schedule.alphas[t]) / c.sqrt(1.0 - c.schedule.alphasCumprod[t]) * est[i][j])
                 / c.sqrt(c.schedule.alphas[t])
  {
    var s := c.schedule;
    var coef := (1.0 - s.alphas[t]) / c.sqrt(1.0 - s.alphasCumprod[t]);
    Scale(1.0 / c.sqrt(s.alphas[t]), Sub(x, Scale(coef, est)))
  }

  /**
   * `p_reverseProcess`: one ancestral step from `x_t` given the estimated
   * noise and the standard-normal draw `z`. At step 0 the draw is replaced by
   * zeros, so no fresh noise is injected into the final sample; the draw is
   * only required to have the trajectory's shape when it is used.
   */
  function PStep(c: Sampler, x: Traj, t: nat, est: Traj, z: Traj): (r: Traj)
    requires c.Valid() && t < c.Steps() && c.Invertible(t)
    requires SameShape(est, x)
    requires t > 0 ==> SameShape(z, x)
    ensures SameShape(r, x)
    ensures forall i, j :: 0 <= i < |x| && 0 <= j < |x[i]| ==>
      r[i][j] == (x[i][j] - (1.0 - c.schedule.alphas[t]) / c.sqrt(1.0 - c.schedule.alphasCumprod[t]) * est[i][j])
                   / c.sqrt(c.schedule.alphas[t])
                 + (if t == 0 then 0.0 else c.sqrt(c.schedule.betas[t]) * z[i][j])
  {
    var noise := if t == 0 then ZerosLike(x) else z;
    Add(PMean(c, x, t, est), Scale(c.sqrt(c.schedule.betas[t]), noise))
  }

  /** At step 0 the ancestral step is its mean, whatever was drawn. */
  lemma FinalStepIsMean(c: Sampler, x: Traj, est: Traj, z: Traj)
    requires c.Valid() && 0 < c.Steps() && c.Invertible(0)
    requires SameShape(est, x)
    ensures PStep(c, x, 0, est, z) == PMean(c, x, 0, est)
  {
    var r := PStep(c, x, 0, est, z);
    var m := PMean(c, x, 0, est);
    assert |r| == |m|;
    forall i | 0 <= i < |r|
      ensures r[i] == m[i]
    {
      assert |r[i]| == |m[i]|;
    }
  }

  /**
   * One draw per step, each of the shape of the trajectory it perturbs
   * (`randn_like(x_t)`); the draw at step 0 is never used.
   */
  predicate DrawsFit(c: Sampler, zs: seq<Traj>, x: Traj) {
    |zs| == c.Steps() && forall t :: 0 < t < |zs| ==> SameShape(zs[t], x)
  }

  lemma DrawsFitSameShape(c: Sampler, zs: seq<Traj>, x: Traj, y: Traj)
    requires DrawsFit(c, zs, x) && SameShape(x, y)
    ensures DrawsFit(c, zs, y)
  {
  }

  /**
   * One iteration of the loop: estimate, step, restore the history prefix.
   * The trajectory keeps its shape, which only has to line up with the
   * reference over the history prefix.
   */
  function ReverseStep(c: Sampler, x: Traj, t: nat, zs: seq<Traj>): (r: Traj)
    requires c.Ready() && t < c.Steps() && DrawsFit(c, zs, x)
    requires Compatible(x, c.reference, c.inpaintHorizon)
    ensures SameShape(r, x) && DrawsFit(c, zs, r)
    ensures Compatible(r, c.reference, c.inpaintHorizon)
    ensures Inpainted(r, c.reference, c.inpaintHorizon)
  {
    var y := PStep(c, x, t, c.estimator(x, t), zs[t]);
    CompatibleKeepsShape(x, y, c.reference, c.inpaintHorizon);
    var r := AddConstraints(y, c.reference, c.inpaintHorizon);
    DrawsFitSameShape(c, zs, x, r);
    r
  }

  /** `reversed(range(0, n))`: every step index below `n`, largest first. */
  function CountDown(n: nat): (ts: seq<nat>)
    ensures |ts| == n
    ensures n > 0 ==> ts[0] == n - 1 && ts[n - 1] == 0
    ensures forall i, j :: 0 <= i < j < n ==> ts[i] > ts[j]
    ensures forall k :: 0 <= k < n ==> ts[k] < n
    ensures forall t :: 0 <= t < n <==> t in ts
  {
    var ts := seq(n, i requires 0 <= i < n => n - 1 - i);
    assert forall t :: 0 <= t < n ==> t in ts by {
      forall t | 0 <= t < n
        ensures t in ts
      {
        assert ts[n - 1 - t] == t;
      }
    }
    ts
  }

  lemma CountDownStep(n: nat)
    ensures CountDown(n + 1) == [n] + CountDown(n)
  {
  }

  /** Counting down from at most `noise_steps` only visits steps of the schedule. */
  lemma CountDownInRange(c: Sampler, n: nat)
    requires n <= c.Steps()
    ensures c.schedule.StepsInRange(CountDown(n))
  {
  }

  /** The first iteration of a count-down run from `n`: step `n - 1`, then the run from `n - 1`. */
  lemma RunCountDownStep(c: Sampler, n: nat, zs: seq<Traj>, x: Traj)
    requires c.Ready() && 0 < n <= c.Steps() && DrawsFit(c, zs, x)
    requires Compatible(x, c.reference, c.inpaintHorizon)
    ensures c.schedule.StepsInRange(CountDown(n)) && c.schedule.StepsInRange(CountDown(n - 1))
    ensures RunSteps(c, CountDown(n), zs, x) == RunSteps(c, CountDown(n - 1), zs, ReverseStep(c, x, n - 1, zs))
  {
    CountDownInRange(c, n);
    CountDownInRange(c, n - 1);
    CountDownStep(n - 1);
    var ts := CountDown(n);
    assert ts[0] == n - 1 && ts[1..] == CountDown(n - 1);
    assert RunSteps(c, ts, zs, x) == RunSteps(c, ts[1..], zs, ReverseStep(c, x, ts[0], zs));
  }

  /**
   * The reverse loop as a fold: run the steps of `ts` in order. After any
   * non-empty run the history prefix is the reference's.
   */
  function RunSteps(c: Sampler, ts: seq<nat>, zs: seq<Traj>, x: Traj): (r: Traj)
    requires c.Ready() && DrawsFit(c, zs, x) && c.schedule.StepsInRange(ts)
    requires Compatible(x, c.reference, c.inpaintHorizon)
    ensures SameShape(r, x) && DrawsFit(c, zs, r)
    ensures Compatible(r, c.reference, c.inpaintHorizon)
    ensures |ts| > 0 ==> Inpainted(r, c.reference, c.inpaintHorizon)
    ensures |ts| == 0 ==> r == x
    decreases |ts|
  {
    if |ts| == 0 then x
    else RunSteps(c, ts[1..], zs, ReverseStep(c, x, ts[0], zs))
  }

  /** Appending a step of the schedule to steps of the schedule stays in range. */
  lemma StepsInRangeSnoc(c: Sampler, ts: seq<nat>, t: nat)
    requires c.schedule.StepsInRange(ts) && t < c.Steps()
    ensures c.schedule.StepsInRange(ts + [t]) && c.schedule.StepsInRange((ts + [t])[1..])
  {
  }

  /** Running `ts` then `t` is running `ts` and taking one more step. */
  lemma {:induction false} RunStepsSnoc(c: Sampler, ts: seq<nat>, t: nat, zs: seq<Traj>, x: Traj)
    requires c.Ready() && DrawsFit(c, zs, x) && c.schedule.StepsInRange(ts) && t < c.Steps()
    requires Compatible(x, c.reference, c.inpaintHorizon)
    ensures c.schedule.StepsInRange(ts + [t])
    ensures RunSteps(c, ts + [t], zs, x) == ReverseStep(c, RunSteps(c, ts, zs, x), t, zs)
    decreases |ts|
  {
    StepsInRangeSnoc(c, ts, t);
    if |ts| == 0 {
      assert ts + [t] == [t];
    } else {
      var y := ReverseStep(c, x, ts[0], zs);
      assert (ts + [t])[0] == ts[0] && (ts + [t])[1..] == ts[1..] + [t];
      RunStepsSnoc(c, ts[1..], t, zs, y);
    }
  }

  /**
   * The state of the count-down loop with `t` steps left: `x` still fits the
   * draws and the reference, and finishing the count-down from it gives the
   * result of the whole count-down from `start`.
   */
  ghost predicate Reached(c: Sampler, zs: seq<Traj>, start: Traj, t: nat, x: Traj) {
    && c.Ready() && t <= c.Steps()
    && DrawsFit(c, zs, start) && Compatible(start, c.reference, c.inpaintHorizon)
    && DrawsFit(c, zs, x) && Compatible(x, c.reference, c.inpaintHorizon)
    && RunSteps(c, CountDown(t), zs, x) == RunSteps(c, CountDown(c.Steps()), zs, start)
  }

  /** One iteration of the count-down loop keeps its state. */
  lemma ReachedStep(c: Sampler, zs: seq<Traj>, start: Traj, t: nat, x: Traj)
    requires t > 0 && Reached(c, zs, start, t, x)
    ensures Reached(c, zs, start, t - 1, ReverseStep(c, x, t - 1, zs))
  {
    RunCountDownStep(c, t, zs, x);
  }

  /** The body of `p_reverseProcess_loop`: steps `noise_steps - 1` down to 0, in that order. */
  method RunCountDown(c: Sampler, start: Traj, zs: seq<Traj>) returns (x: Traj)
    requires c.Ready() && DrawsFit(c, zs, start)
    requires Compatible(start, c.reference, c.inpaintHorizon)
    ensures x == RunSteps(c, CountDown(c.Steps()), zs, start)
  {
    x := start;
    var t: nat := c.Steps();
    while t > 0
      invariant Reached(c, zs, start, t, x)
    {
      ReachedStep(c, zs, start, t, x);
      x := ReverseStep(c, x, t - 1, zs);
      t := t - 1;
    }
  }

  /**
   * `p_reverseProcess_loop`: start from `x_T` when one is given and from the
   * uniform draw otherwise (`pred_horizon + inpaint_horizon` rows of
   * `prediction_dim` values, which need not be the reference's length), then
   * run steps `noise_steps - 1` down to 0. Without steps the start is
   * returned as it is, never constrained.
   */
  method PReverseProcessLoop(
    c: Sampler, predHorizon: nat, predictionDim: nat,
    xT: Option<Traj>, uniformDraw: Traj, zs: seq<Traj>)
    returns (x: Traj)
    requires c.Ready()
    requires xT.None? ==> |uniformDraw| == predHorizon + c.inpaintHorizon
    requires xT.None? ==> forall i :: 0 <= i < |uniformDraw| ==> |uniformDraw[i]| == predictionDim
    requires DrawsFit(c, zs, if xT.Some? then xT.value else uniformDraw)
    requires c.Steps() > 0 ==>
      Compatible(if xT.Some? then xT.value else uniformDraw, c.reference, c.inpaintHorizon)
    ensures c.Steps() > 0 ==>
      x == RunSteps(c, CountDown(c.Steps()), zs, if xT.Some? then xT.value else uniformDraw)
    ensures SameShape(x, if xT.Some? then xT.value else uniformDraw)
    ensures c.Steps() > 0 ==> Inpainted(x, c.reference, c.inpaintHorizon)
    ensures c.Steps() == 0 ==> x == (if xT.Some? then xT.value else uniformDraw)
  {
    var start := if xT.Some? then xT.value else uniformDraw;
    if c.Steps() == 0 {
      return start;
    }
    x := RunCountDown(c, start, zs);
  }

  /**
   * The loop's last step is step 0 and adds no noise: the result is the
   * constrained mean of the state reached after steps `noise_steps - 1`
   * down to 1.
   */
  lemma {:induction false} ReverseLoopEndsWithMean(c: Sampler, zs: seq<Traj>, x: Traj)
    requires c.Ready() && DrawsFit(c, zs, x) && c.Steps() > 0
    requires Compatible(x, c.reference, c.inpaintHorizon)
    ensures var n := c.Steps();
      var y := RunSteps(c, CountDown(n)[..n - 1], zs, x);
      var m := PMean(c, y, 0, c.estimator(y, 0));
      Compatible(m, c.reference, c.inpaintHorizon)
      && RunSteps(c, CountDown(n), zs, x) == AddConstraints(m, c.reference, c.inpaintHorizon)
  {
    var n := c.Steps();
    var ts := CountDown(n);
    assert ts == ts[..n - 1] + [0];
    RunStepsSnoc(c, ts[..n - 1], 0, zs, x);
    var y := RunSteps(c, ts[..n - 1], zs, x);
    FinalStepIsMean(c, y, c.estimator(y, 0), zs[0]);
  }

  /**
   * The draws matter only at the steps they are used at: runs whose draws
   * agree at every nonzero step of `ts` end in the same trajectory, so the
   * draw at step 0 never matters.
   */
  lemma {:induction false} RunStepsIgnoresUnusedDraws(c: Sampler, ts: seq<nat>, zs: seq<Traj>, ws: seq<Traj>, x: Traj)
    requires c.Ready() && DrawsFit(c, zs, x) && DrawsFit(c, ws, x) && c.schedule.StepsInRange(ts)
    requires Compatible(x, c.reference, c.inpaintHorizon)
    requires forall k :: 0 <= k < |ts| && ts[k] > 0 ==> zs[ts[k]] == ws[ts[k]]
    ensures RunSteps(c, ts, zs, x) == RunSteps(c, ts, ws, x)
    decreases |ts|
  {
    if |ts| > 0 {
      var t := ts[0];
      if t == 0 {
        var y := PStep(c, x, 0, c.estimator(x, 0), zs[0]);
        FinalStepIsMean(c, x, c.estimator(x, 0), zs[0]);
        FinalStepIsMean(c, x, c.estimator(x, 0), ws[0]);
      }
      assert ReverseStep(c, x, t, zs) == ReverseStep(c, x, t, ws);
      RunStepsIgnoresUnusedDraws(c, ts[1..], zs, ws, ReverseStep(c, x, t, zs));
    }
  }

  /** The full loop's result does not depend on the draw for step 0. */
  lemma {:induction false} ReverseLoopIgnoresFinalDraw(c: Sampler, zs: seq<Traj>, ws: seq<Traj>, x: Traj)
    requires c.Ready() && DrawsFit(c, zs, x) && DrawsFit(c, ws, x)
    requires Compatible(x, c.reference, c.inpaintHorizon)
    requires forall t :: 0 < t < c.Steps() ==> zs[t] == ws[t]
    ensures RunSteps(c, CountDown(c.Steps()), zs, x) == RunSteps(c, CountDown(c.Steps()), ws, x)
  {
    RunStepsIgnoresUnusedDraws(c, CountDown(c.Steps()), zs, ws, x);
  }
}
