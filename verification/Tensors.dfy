/**
 * Trajectories as sequences: a trajectory is a sequence of time steps, each a
 * row of feature values. Elementwise tensor arithmetic and Python slicing are
 * written out here once and used by every other module.
 */
module Tensors {

  /** One time step: the feature vector of a trajectory row. */
  type Row = seq<real>

  /** A trajectory, time-major: `x[t][f]`. */
  type Traj = seq<Row>

  function Min(a: int, b: int): int {
    if a <= b then a else b
  }

  /** Both nested sequences have the same number of rows and equal row widths. */
  predicate SameShape<A, B>(x: seq<seq<A>>, y: seq<seq<B>>) {
    |x| == |y| && forall i :: 0 <= i < |x| ==> |x[i]| == |y[i]|
  }

  /** `c * x`, a scalar broadcast over the whole trajectory. */
  function Scale(c: real, x: Traj): Traj {
    seq(|x|, i requires 0 <= i < |x| => seq(|x[i]|, j requires 0 <= j < |x[i]| => c * x[i][j]))
  }

  /** `x + y` for trajectories of one shape. */
  function Add(x: Traj, y: Traj): Traj
    requires SameShape(x, y)
  {
    seq(|x|, i requires 0 <= i < |x| => seq(|x[i]|, j requires 0 <= j < |x[i]| => x[i][j] + y[i][j]))
  }

  /** `x - y` for trajectories of one shape. */
  function Sub(x: Traj, y: Traj): Traj
    requires SameShape(x, y)
  {
    seq(|x|, i requires 0 <= i < |x| => seq(|x[i]|, j requires 0 <= j < |x[i]| => x[i][j] - y[i][j]))
  }

  /** `torch.zeros_like(x)`. */
  function ZerosLike(x: Traj): Traj {
    seq(|x|, i requires 0 <= i < |x| => seq(|x[i]|, j requires 0 <= j < |x[i]| => 0.0))
  }

  /** Python `s[:n]` for a non-negative `n`. */
  function Take<T>(s: seq<T>, n: nat): seq<T> {
    s[..Min(n, |s|)]
  }

  /** Python `s[n:]` for a non-negative `n`. */
  function Drop<T>(s: seq<T>, n: nat): seq<T> {
    s[Min(n, |s|)..]
  }
}
