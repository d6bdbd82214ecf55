/**
 * The accelerated sampler in `sample`: the diffusion steps are subsampled
 * every 100 steps, the subset is walked from its largest step down to 0,
 * and every transition is the deterministic update that evaluates the
 * estimator twice, once at the current step and once at the next one. Each
 * state is recorded in the sampling history.
 */
module AcceleratedSampler {
  import opened Tensors
  import opened Results
  import opened NoiseSchedule
  import opened Constraints
  import opened ForwardProcess
  import opened ReverseProcess

  /** The stride of the step subset, fixed in the source. */
  const StepSize: nat := 100

  /** The number of multiples of 100 below `n`. */
  function SubsetSize(n: nat): nat {
    (n + StepSize - 1) / StepSize
  }

  /**
   * `torch.arange(0, n, 100)`: the multiples of 100 below `n`, in increasing
   * order, each 100 above the one before.
   */
  function StepSubset(n: nat): (sub: seq<nat>)
    ensures |sub| == SubsetSize(n)
    ensures forall v: nat :: v in sub <==> v < n && v % StepSize == 0
    ensures forall k :: 0 < k < |sub| ==> sub[k] == sub[k - 1] + StepSize
    ensures n > 0 ==> |sub| > 0 && sub[0] == 0 && sub[|sub| - 1] == (n - 1) / StepSize * StepSize
    ensures n == 0 ==> sub == []
    ensures n <= StepSize ==> |sub| <= 1
  {
    var m := SubsetSize(n);
    var sub := seq(m, k requires 0 <= k < m => k * StepSize);
    assert forall v: nat :: v < n && v % StepSize == 0 ==> v in sub by {
      forall v: nat | v < n && v % StepSize == 0
        ensures v in sub
      {
        assert sub[v / StepSize] == v;
      }
    }
    sub
  }

  /** The transition divides by `sqrt(alphas_cumprod[t])` at every subset step but 0. */
  ghost predicate SubsetInvertible(c: Sampler) {
    c.Valid()
    && forall t: nat :: t in StepSubset(c.Steps()) && t > 0 ==> c.sqrt(c.schedule.alphasCumprod[t]) != 0.0
  }

  /**
   * The deterministic update on trajectories: `sn * (x - sb * epsT) / sa + snb * epsNext`
   * with `sa`, `sb` the square roots of `alphas_cumprod` and of its
   * complement at the current step and `sn`, `snb` those at the next step.
   */
  function DeterministicUpdate(x: Traj, epsT: Traj, epsNext: Traj, sa: real, sb: real, sn: real, snb: real)
    : (r: Traj)
    requires sa != 0.0 && SameShape(epsT, x) && SameShape(epsNext, x)
    ensures SameShape(r, x)
    ensures forall i, j :: 0 <= i < |x| && 0 <= j < |x[i]| ==>
      r[i][j] == sn * (x[i][j] - sb * epsT[i][j]) / sa + snb * epsNext[i][j]
  {
    Add(Scale(1.0 / sa, Scale(sn, Sub(x, Scale(sb, epsT)))), Scale(snb, epsNext))
  }

  /**
   * With both estimates equal to the true noise, the update maps
   * `sa * x0 + sb * eps` to `sn * x0 + snb * eps`.
   */
  lemma DeterministicUpdateMarginal(x0: Traj, eps: Traj, sa: real, sb: real, sn: real, snb: real)
    requires sa != 0.0 && SameShape(x0, eps)
    ensures var x := Add(Scale(sa, x0), Scale(sb, eps));
      DeterministicUpdate(x, eps, eps, sa, sb, sn, snb) == Add(Scale(sn, x0), Scale(snb, eps))
  {
    var x := Add(Scale(sa, x0), Scale(sb, eps));
    var r := DeterministicUpdate(x, eps, eps, sa, sb, sn, snb);
    var want := Add(Scale(sn, x0), Scale(snb, eps));
    forall i | 0 <= i < |r|
      ensures r[i] == want[i]
    {
      forall j | 0 <= j < |r[i]|
        ensures r[i][j] == want[i][j]
      {
        assert x[i][j] == sa * x0[i][j] + sb * eps[i][j];
        CancelNoise(sn, sa, sb, x0[i][j], eps[i][j]);
      }
    }
  }

  lemma CancelNoise(sn: real, sa: real, sb: real, v: real, e: real)
    requires sa != 0.0
    ensures sn * ((sa * v + sb * e) - sb * e) / sa == sn * v
  {
    assert (sa * v + sb * e) - sb * e == sa * v;
    assert sn * (sa * v) / sa == sn * v;
  }

  /**
   * One deterministic transition from step `t` to `tNext`. Both estimator
   * calls see the state before the transition.
   */
  function Transition(c: Sampler, x: Traj, t: nat, tNext: nat): (r: Traj)
    requires c.Valid() && t < c.Steps() && tNext < c.Steps()
    requires c.sqrt(c.schedule.alphasCumprod[t]) != 0.0
    ensures SameShape(r, x)
    ensures forall i, j :: 0 <= i < |x| && 0 <= j < |x[i]| ==>
      var at, an := c.schedule.alphasCumprod[t], c.schedule.alphasCumprod[tNext];
      r[i][j] == c.sqrt(an) * (x[i][j] - c.sqrt(1.0 - at) * c.estimator(x, t)[i][j]) / c.sqrt(at)
                 + c.sqrt(1.0 - an) * c.estimator(x, tNext)[i][j]
  {
    var at := c.schedule.alphasCumprod[t];
    var an := c.schedule.alphasCumprod[tNext];
    DeterministicUpdate(x, c.estimator(x, t), c.estimator(x, tNext),
      c.sqrt(at), c.sqrt(1.0 - at), c.sqrt(an), c.sqrt(1.0 - an))
  }

  /**
   * The transition moves the forward-process point at `t` (what
   * `q_forwardProcess` makes of `x0` and the noise `eps`) to the
   * forward-process point at `tNext` with the same noise, when the estimator
   * returns that noise at both steps.
   */
  lemma TransitionFollowsMarginal(c: Sampler, x0: Traj, eps: Traj, t: nat, tNext: nat)
    requires c.Valid() && t < c.Steps() && tNext < c.Steps()
    requires c.sqrt(c.schedule.alphasCumprod[t]) != 0.0
    requires SameShape(x0, eps)
    requires var x := NoiseElement(c.schedule, x0, t, eps);
      c.estimator(x, t) == eps && c.estimator(x, tNext) == eps
    ensures Transition(c, NoiseElement(c.schedule, x0, t, eps), t, tNext)
      == NoiseElement(c.schedule, x0, tNext, eps)
  {
    var at, an := c.schedule.alphasCumprod[t], c.schedule.alphasCumprod[tNext];
    var sa, sb, sn, snb := c.sqrt(at), c.sqrt(1.0 - at), c.sqrt(an), c.sqrt(1.0 - an);
    RootBuffersAt(c, t);
    RootBuffersAt(c, tNext);
    var x := NoiseElement(c.schedule, x0, t, eps);
    assert x == Add(Scale(sa, x0), Scale(sb, eps));
    assert Transition(c, x, t, tNext) == DeterministicUpdate(x, eps, eps, sa, sb, sn, snb);
    DeterministicUpdateMarginal(x0, eps, sa, sb, sn, snb);
  }

  /** One transition followed by restoring the history prefix. */
  function Advance(c: Sampler, x: Traj, t: nat, tNext: nat): (r: Traj)
    requires c.Valid() && t < c.Steps() && tNext < c.Steps()
    requires c.sqrt(c.schedule.alphasCumprod[t]) != 0.0
    requires SameShape(x, c.reference)
    ensures SameShape(r, c.reference)
    ensures Inpainted(r, c.reference, c.inpaintHorizon)
  {
    var y := Transition(c, x, t, tNext);
    SameShapeIsCompatible(y, c.reference, c.inpaintHorizon);
    AddConstraints(y, c.reference, c.inpaintHorizon)
  }

  /** The transition from subset position `k` down to position `k - 1`. */
  function AdvanceAt(c: Sampler, x: Traj, k: nat): (r: Traj)
    requires SubsetInvertible(c) && 0 < k < SubsetSize(c.Steps())
    requires SameShape(x, c.reference)
    ensures SameShape(r, c.reference) && Inpainted(r, c.reference, c.inpaintHorizon)
  {
    var sub := StepSubset(c.Steps());
    assert sub[k] == sub[k - 1] + StepSize;
    assert sub[k] in sub && sub[k - 1] in sub;
    Advance(c, x, sub[k], sub[k - 1])
  }

  /**
   * Reading the last element of an empty subset fails, after
   * `denoising_steps` has already been overwritten with the subset's length.
   */
  datatype SampleError = EmptyStepSubset(denoisingSteps: nat)

  /** The sampled trajectory, its history of snapshots, and the overwritten `denoising_steps`. */
  datatype SampleOutput = SampleOutput(x: Traj, history: seq<Traj>, denoisingSteps: nat)

  /** Every snapshot after the first carries the reference's history prefix. */
  ghost predicate InpaintedAfterFirst(c: Sampler, history: seq<Traj>) {
    forall i :: 0 < i < |history| ==> Inpainted(history[i], c.reference, c.inpaintHorizon)
  }

  /**
   * Each snapshot after the first is the previous one advanced one subset
   * position: snapshot `i + 1` is snapshot `i` moved from position
   * `m - 1 - i` to `m - 2 - i`, so the history walks the subset from its
   * largest step down.
   */
  ghost predicate AdvancesAlong(c: Sampler, history: seq<Traj>)
    requires SubsetInvertible(c) && |history| <= SubsetSize(c.Steps())
    decreases |history|
  {
    var m := SubsetSize(c.Steps());
    var n := |history|;
    n <= 1 ||
      (&& AdvancesAlong(c, history[..n - 1])
       && SameShape(history[n - 2], c.reference)
       && history[n - 1] == AdvanceAt(c, history[n - 2], m - n + 1))
  }

  /** The history of a run of the subset loop, one snapshot per subset position visited. */
  ghost predicate Follows(c: Sampler, history: seq<Traj>)
    requires SubsetInvertible(c)
  {
    && 0 < |history| <= SubsetSize(c.Steps())
    && InpaintedAfterFirst(c, history)
    && AdvancesAlong(c, history)
  }

  lemma InpaintedAfterFirstExtend(c: Sampler, history: seq<Traj>, next: Traj)
    requires InpaintedAfterFirst(c, history)
    requires Inpainted(next, c.reference, c.inpaintHorizon)
    ensures InpaintedAfterFirst(c, history + [next])
  {
    var extended := history + [next];
    forall i | 0 < i < |extended|
      ensures Inpainted(extended[i], c.reference, c.inpaintHorizon)
    {
      if i < |history| {
        assert extended[i] == history[i];
      }
    }
  }

  lemma AdvancesAlongExtend(c: Sampler, history: seq<Traj>, k: nat)
    requires SubsetInvertible(c) && 0 < |history|
    requires 0 < k < SubsetSize(c.Steps()) && |history| == SubsetSize(c.Steps()) - k
    requires AdvancesAlong(c, history)
    requires SameShape(history[|history| - 1], c.reference)
    ensures AdvancesAlong(c, history + [AdvanceAt(c, history[|history| - 1], k)])
  {
    var extended := history + [AdvanceAt(c, history[|history| - 1], k)];
    assert extended[..|history|] == history;
  }

  /** Advancing the last snapshot one more subset position keeps the history following the subset. */
  lemma FollowsExtend(c: Sampler, history: seq<Traj>, k: nat)
    requires SubsetInvertible(c) && Follows(c, history)
    requires 0 < k < SubsetSize(c.Steps()) && |history| == SubsetSize(c.Steps()) - k
    requires SameShape(history[|history| - 1], c.reference)
    ensures Follows(c, history + [AdvanceAt(c, history[|history| - 1], k)])
  {
    var next := AdvanceAt(c, history[|history| - 1], k);
    InpaintedAfterFirstExtend(c, history, next);
    AdvancesAlongExtend(c, history, k);
  }

  /**
   * The backward pass of `sample`, from the standard-normal draw `xInit`.
   * With no diffusion steps the subset is empty and reading its last element
   * fails.
   */
  method Sample(c: Sampler, xInit: Traj) returns (r: Result<SampleOutput, SampleError>)
    requires SubsetInvertible(c)
    requires SameShape(xInit, c.reference)
    ensures r.Failure? <==> c.Steps() == 0
    ensures r.Failure? ==> r.error.denoisingSteps == 0
    ensures r.Success? ==>
      var m := |StepSubset(c.Steps())|;
      && |r.value.history| == m
      && r.value.denoisingSteps == m
      && r.value.history[0] == xInit
      && r.value.x == r.value.history[m - 1]
      && Follows(c, r.value.history)
    ensures r.Success? && c.Steps() <= StepSize ==> r.value.history == [xInit] && r.value.x == xInit
  {
    var sub := StepSubset(c.Steps());
    var m := |sub|;
    if m == 0 {
      return Failure(EmptyStepSubset(m));
    }
    var x := xInit;
    var history := [x];
    var k := m - 1;
    while k > 0
      invariant 0 <= k < m
      invariant |history| == m - k
      invariant history[0] == xInit && history[|history| - 1] == x
      invariant SameShape(x, c.reference)
      invariant Follows(c, history)
    {
      FollowsExtend(c, history, k);
      x := AdvanceAt(c, x, k);
      history := history + [x];
      k := k - 1;
    }
    r := Success(SampleOutput(x, history, m));
  }
}
