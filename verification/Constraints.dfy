/**
 * The constraint enforcer (`add_constraints`): the first `inpaintHorizon`
 * time steps of a trajectory are overwritten with the reference trajectory's,
 * so the known history is never left noisy. The source assigns in place; here
 * the new trajectory is returned.
 */
module Constraints {
  import opened Tensors
  import opened Results

  datatype ConstraintError = InpaintShapeMismatch

  /**
   * The slice assignment `x[:h] = ref[:h]` goes through exactly when both
   * slices have the same shape: as many rows, row by row of the same width.
   * A tensor slice keeps its feature width even when it has no rows, so the
   * widths must agree for `h == 0` too; a trajectory's width is read from its
   * first row.
   */
  predicate Compatible(x: Traj, ref: Traj, h: nat) {
    var k := Min(h, |x|);
    && Min(h, |ref|) == k
    && (forall i :: 0 <= i < k ==> |ref[i]| == |x[i]|)
    && (|x| > 0 && |ref| > 0 ==> |x[0]| == |ref[0]|)
  }

  /** A trajectory already carries the reference's first `h` rows. */
  predicate Inpainted(x: Traj, ref: Traj, h: nat) {
    forall i :: 0 <= i < |x| && i < h ==> i < |ref| && x[i] == ref[i]
  }

  function AddConstraints(x: Traj, ref: Traj, h: nat): (r: Traj)
    requires Compatible(x, ref, h)
    ensures SameShape(r, x)
    ensures forall i :: 0 <= i < |x| && i < h ==> r[i] == ref[i]
    ensures forall i :: h <= i < |x| ==> r[i] == x[i]
    ensures Inpainted(r, ref, h)
    ensures Compatible(r, ref, h)
  {
    var k := Min(h, |x|);
    ref[..k] + x[k..]
  }

  /** The same assignment, with the shape error the tensor library raises. */
  function TryAddConstraints(x: Traj, ref: Traj, h: nat): (r: Result<Traj, ConstraintError>)
    ensures r.Success? <==> Compatible(x, ref, h)
    ensures r.Success? ==> SameShape(r.value, x) && Inpainted(r.value, ref, h)
    ensures r.Success? ==> forall i :: h <= i < |x| ==> r.value[i] == x[i]
  {
    if Compatible(x, ref, h) then Success(AddConstraints(x, ref, h)) else Failure(InpaintShapeMismatch)
  }

  /** Any trajectory of the reference's shape can be constrained. */
  lemma SameShapeIsCompatible(x: Traj, ref: Traj, h: nat)
    requires SameShape(x, ref)
    ensures Compatible(x, ref, h)
  {
  }

  /** Compatibility depends on the shape only. */
  lemma CompatibleKeepsShape(x: Traj, y: Traj, ref: Traj, h: nat)
    requires Compatible(x, ref, h) && SameShape(x, y)
    ensures Compatible(y, ref, h)
  {
  }

  /** Constraining twice with the same reference is constraining once. */
  lemma AddConstraintsIdempotent(x: Traj, ref: Traj, h: nat)
    requires Compatible(x, ref, h)
    ensures Compatible(AddConstraints(x, ref, h), ref, h)
    ensures AddConstraints(AddConstraints(x, ref, h), ref, h) == AddConstraints(x, ref, h)
  {
    var once := AddConstraints(x, ref, h);
    var twice := AddConstraints(once, ref, h);
    assert |twice| == |once|;
    forall i | 0 <= i < |once|
      ensures twice[i] == once[i]
    {
    }
  }

  /**
   * The result does not depend on the input's prefix: two trajectories that
   * agree from row `h` on are constrained to the same trajectory.
   */
  lemma AddConstraintsForgetsPrefix(x: Traj, y: Traj, ref: Traj, h: nat)
    requires Compatible(x, ref, h) && Compatible(y, ref, h)
    requires |x| == |y| && x[Min(h, |x|)..] == y[Min(h, |y|)..]
    ensures AddConstraints(x, ref, h) == AddConstraints(y, ref, h)
  {
  }

  /** Constraining changes nothing exactly when the prefix is already the reference's. */
  lemma AddConstraintsFixedPoint(x: Traj, ref: Traj, h: nat)
    requires Compatible(x, ref, h)
    ensures AddConstraints(x, ref, h) == x <==> Inpainted(x, ref, h)
  {
    var r := AddConstraints(x, ref, h);
    if Inpainted(x, ref, h) {
      forall i | 0 <= i < |x|
        ensures r[i] == x[i]
      {
      }
    }
  }
}
