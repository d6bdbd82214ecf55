/**
 * The forward (noising) process q(x_t | x_0) in closed form. Every batch
 * element has its own step index, and its coefficients are read from the
 * square-root buffers at that index.
 */
module ForwardProcess {
  import opened Tensors
  import opened Results
  import opened NoiseSchedule
  import opened Constraints

  datatype ForwardError = StepIndexOutOfRange | BatchShapeMismatch

  /** One index per batch element, and noise of each clean element's shape. */
  predicate BatchShapesAgree(x0s: seq<Traj>, t: seq<nat>, noise: seq<Traj>) {
    && |t| == |x0s|
    && |noise| == |x0s|
    && forall b :: 0 <= b < |x0s| ==> SameShape(x0s[b], noise[b])
  }

  /** One batch element noised at step `t`. */
  function NoiseElement(s: Schedule, x0: Traj, t: nat, noise: Traj): (x: Traj)
    requires s.WellFormed() && t < s.Steps() && SameShape(x0, noise)
    ensures SameShape(x, x0)
    ensures forall i, j :: 0 <= i < |x0| && 0 <= j < |x0[i]| ==>
      x[i][j] == s.sqrtAlphasCumprod[t] * x0[i][j] + s.sqrtOneMinusAlphasCumprod[t] * noise[i][j]
  {
    Add(Scale(s.sqrtAlphasCumprod[t], x0), Scale(s.sqrtOneMinusAlphasCumprod[t], noise))
  }

  /**
   * `q_forwardProcess`. Indexing the buffers with an out-of-range step fails
   * first; a batch whose indices, clean trajectories and noise disagree in
   * shape fails next.
   */
  function QForward(s: Schedule, x0s: seq<Traj>, t: seq<nat>, noise: seq<Traj>)
    : (r: Result<seq<Traj>, ForwardError>)
    requires s.WellFormed()
    ensures r.Success? <==> s.StepsInRange(t) && BatchShapesAgree(x0s, t, noise)
    ensures !s.StepsInRange(t) ==> r == Failure(StepIndexOutOfRange)
    ensures r.Success? ==> |r.value| == |x0s|
    ensures r.Success? ==> forall b :: 0 <= b < |x0s| ==>
      && SameShape(r.value[b], x0s[b])
      && forall i, j :: 0 <= i < |x0s[b]| && 0 <= j < |x0s[b][i]| ==>
        r.value[b][i][j] == s.sqrtAlphasCumprod[t[b]] * x0s[b][i][j]
          + s.sqrtOneMinusAlphasCumprod[t[b]] * noise[b][i][j]
  {
    if !s.StepsInRange(t) then Failure(StepIndexOutOfRange)
    else if !BatchShapesAgree(x0s, t, noise) then Failure(BatchShapeMismatch)
    else Success(seq(|x0s|, b requires 0 <= b < |x0s| => NoiseElement(s, x0s[b], t[b], noise[b])))
  }

  /**
   * Batch elements do not interact: noising two batches one after the other
   * gives the two halves of noising them together.
   */
  lemma QForwardSplitsBatch(s: Schedule, x1: seq<Traj>, t1: seq<nat>, n1: seq<Traj>,
                            x2: seq<Traj>, t2: seq<nat>, n2: seq<Traj>)
    requires s.WellFormed()
    requires QForward(s, x1, t1, n1).Success? && QForward(s, x2, t2, n2).Success?
    ensures QForward(s, x1 + x2, t1 + t2, n1 + n2)
      == Success(QForward(s, x1, t1, n1).value + QForward(s, x2, t2, n2).value)
  {
    var x, t, n := x1 + x2, t1 + t2, n1 + n2;
    assert s.StepsInRange(t) by {
      forall b | 0 <= b < |t|
        ensures t[b] < s.Steps()
      {
        if b >= |t1| {
          assert t[b] == t2[b - |t1|];
        }
      }
    }
    assert BatchShapesAgree(x, t, n) by {
      forall b | 0 <= b < |x|
        ensures SameShape(x[b], n[b])
      {
        if b >= |x1| {
          assert x[b] == x2[b - |x1|] && n[b] == n2[b - |x1|];
        }
      }
    }
    var whole := QForward(s, x, t, n).value;
    var halves := QForward(s, x1, t1, n1).value + QForward(s, x2, t2, n2).value;
    assert |whole| == |halves|;
    forall b | 0 <= b < |whole|
      ensures whole[b] == halves[b]
    {
      if b < |x1| {
        assert x[b] == x1[b] && t[b] == t1[b] && n[b] == n1[b];
      } else {
        assert x[b] == x2[b - |x1|] && t[b] == t2[b - |x1|] && n[b] == n2[b - |x1|];
      }
    }
    assert whole == halves;
  }

  /** With zero noise the noised element is the clean one scaled by `sqrt(alphas_cumprod[t])`. */
  lemma QForwardWithoutNoise(s: Schedule, x0s: seq<Traj>, t: seq<nat>, noise: seq<Traj>)
    requires s.WellFormed()
    requires QForward(s, x0s, t, noise).Success?
    requires forall b :: 0 <= b < |noise| ==> noise[b] == ZerosLike(noise[b])
    ensures forall b :: 0 <= b < |x0s| ==>
      QForward(s, x0s, t, noise).value[b] == Scale(s.sqrtAlphasCumprod[t[b]], x0s[b])
  {
    var r := QForward(s, x0s, t, noise).value;
    forall b | 0 <= b < |x0s|
      ensures r[b] == Scale(s.sqrtAlphasCumprod[t[b]], x0s[b])
    {
      var want := Scale(s.sqrtAlphasCumprod[t[b]], x0s[b]);
      assert |r[b]| == |want|;
      forall i | 0 <= i < |want|
        ensures r[b][i] == want[i]
      {
        assert |r[b][i]| == |want[i]|;
        forall j | 0 <= j < |want[i]|
          ensures r[b][i][j] == want[i][j]
        {
          assert noise[b][i][j] == ZerosLike(noise[b])[i][j] == 0.0;
        }
      }
    }
  }

  /**
   * The noised training input (`onepass`): every element is noised at its
   * own step and then has its history prefix restored from the clean element.
   */
  function NoisedTrainingInput(s: Schedule, x0s: seq<Traj>, t: seq<nat>, noise: seq<Traj>, h: nat)
    : (r: Result<seq<Traj>, ForwardError>)
    requires s.WellFormed()
    ensures r.Success? <==> QForward(s, x0s, t, noise).Success?
    ensures r.Success? ==> |r.value| == |x0s|
    ensures r.Success? ==> forall b :: 0 <= b < |x0s| ==>
      && SameShape(r.value[b], x0s[b])
      && Inpainted(r.value[b], x0s[b], h)
      && forall i :: h <= i < |x0s[b]| ==> r.value[b][i] == QForward(s, x0s, t, noise).value[b][i]
  {
    match QForward(s, x0s, t, noise)
    case Failure(e) => Failure(e)
    case Success(noised) =>
      Success(seq(|x0s|, b requires 0 <= b < |x0s| =>
        SameShapeIsCompatible(noised[b], x0s[b], h);
        AddConstraints(noised[b], x0s[b], h)))
  }
}
