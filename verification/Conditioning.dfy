/**
 * Assembly of the conditioning rows and the target trajectory from one
 * batch element (`prepare_pred_cond_vectors`). The first `obsHorizon` time
 * steps are observation context; the rest are the prediction target, and
 * the last `inpaintHorizon` observed rows are prepended to the target as the
 * known history. Values have an abstract type `V` with a NaN test; the image
 * encoder is a parameter.
 */
module Conditioning {
  import opened Tensors
  import opened Results

  /** One channel of the batch: `width` values per time step. */
  datatype Series<V> = Series(width: nat, rows: seq<seq<V>>)
  {
    /** Tensors are rectangular: every row has the declared width. */
    predicate Rectangular() {
      forall i :: 0 <= i < |rows| ==> |rows[i]| == width
    }
  }

  /** The four aligned time series of one batch element; image frames are flattened. */
  datatype Batch<V> = Batch(position: Series<V>, action: Series<V>, velocity: Series<V>, image: Series<V>)

  datatype PrepError =
    | NanInObservedPosition
    | NanInTargetAction
    | EmptyImageFeatures
    | TimeLengthMismatch
    | FeatureWidthMismatch
    | ConditioningWidthMismatch

  /** The target trajectory (history then future) and the conditioning rows. */
  datatype Prepared<V> = Prepared(target: seq<seq<V>>, cond: seq<seq<V>>)

  /** The number of leading conditioning columns kept for the history rows. */
  const HistoryColumns: nat := 5

  predicate HasNan<V>(rows: seq<seq<V>>, isNan: V -> bool) {
    exists i, j :: 0 <= i < |rows| && 0 <= j < |rows[i]| && isNan(rows[i][j])
  }

  /** The encoder maps every frame to a feature vector of one fixed width. */
  ghost predicate EncoderWidth<V(!new)>(encode: seq<V> -> seq<V>, featureWidth: nat) {
    forall frame: seq<V> :: |encode(frame)| == featureWidth
  }

  /**
   * Reshaping the encoded frames to (frames, -1) needs at least one encoded
   * value: with none, the inferred axis is ambiguous. So at least one image
   * frame must be observed and the encoder must produce a feature.
   */
  predicate ImageFeaturesNonEmpty<V>(b: Batch<V>, obs: nat, featureWidth: nat) {
    |Take(b.image.rows, obs)| > 0 && featureWidth > 0
  }

  /** Concatenating the observed channels needs equally long observed slices. */
  predicate ObservationAligned<V>(b: Batch<V>, obs: nat) {
    var n := |Take(b.position.rows, obs)|;
    && |Take(b.action.rows, obs)| == n
    && |Take(b.velocity.rows, obs)| == n
    && |Take(b.image.rows, obs)| == n
  }

  /** Concatenating the target channels needs equally long future slices. */
  predicate TargetAligned<V>(b: Batch<V>, obs: nat) {
    |Drop(b.position.rows, obs)| == |Drop(b.action.rows, obs)|
  }

  /** The width of a conditioning row: position, action, velocity, image features. */
  function CondWidth<V>(b: Batch<V>, featureWidth: nat): nat {
    b.position.width + b.action.width + b.velocity.width + featureWidth
  }

  /** The kept history columns are as wide as a target row. */
  predicate HistoryWidthAgrees<V>(b: Batch<V>, featureWidth: nat) {
    Min(HistoryColumns, CondWidth(b, featureWidth)) == b.position.width + b.action.width
  }

  /**
   * The last `h` rows, as the source slices them with `[-h:]`. For `h == 0`
   * Python reads `-0` as `0`, and the slice is the whole sequence.
   */
  function LastRowsAsWritten<T>(s: seq<T>, h: nat): (r: seq<T>)
    ensures h == 0 ==> r == s
    ensures h > 0 ==> |r| == Min(h, |s|) && r == s[|s| - |r|..]
  {
    if h == 0 then s else s[|s| - Min(h, |s|)..]
  }

  /** With an inpainting horizon of 0 the slice above keeps a row it should drop. */
  lemma ZeroHorizonKeepsObservation()
    ensures |LastRowsAsWritten([[0.0]], 0)| == 1 != Min(0, 1)
  {
  }

  /** The last `min(h, |s|)` rows: the suffix the history is meant to be. */
  function LastRows<T>(s: seq<T>, h: nat): (r: seq<T>)
    ensures |r| == Min(h, |s|)
    ensures s == s[..|s| - |r|] + r
  {
    s[|s| - Min(h, |s|)..]
  }

  /** For every positive horizon the corrected suffix is the slice as written. */
  lemma LastRowsMatchesPositiveHorizon<T>(s: seq<T>, h: nat)
    requires h > 0
    ensures LastRows(s, h) == LastRowsAsWritten(s, h)
  {
  }

  /** Every check of the source passes: no NaN where it looks, and all shapes agree. */
  predicate Admissible<V>(b: Batch<V>, obs: nat, isNan: V -> bool, featureWidth: nat, expectedCondWidth: nat) {
    && !HasNan(Take(b.position.rows, obs), isNan)
    && !HasNan(Drop(b.action.rows, obs), isNan)
    && ImageFeaturesNonEmpty(b, obs, featureWidth)
    && ObservationAligned(b, obs)
    && TargetAligned(b, obs)
    && HistoryWidthAgrees(b, featureWidth)
    && CondWidth(b, featureWidth) * obs == expectedCondWidth
  }

  /** The number of observed time steps, `min(obsHorizon, T)`. */
  function Observed<V>(b: Batch<V>, obs: nat): nat {
    Min(obs, |b.position.rows|)
  }

  /** Aligned slices leave position and action equally long, and every channel covers the observation. */
  lemma AlignedLengths<V>(b: Batch<V>, obs: nat)
    requires ObservationAligned(b, obs) && TargetAligned(b, obs)
    ensures |b.action.rows| == |b.position.rows|
    ensures Observed(b, obs) <= |b.velocity.rows| && Observed(b, obs) <= |b.image.rows|
  {
    assert |Take(b.position.rows, obs)| == Min(obs, |b.position.rows|);
    assert |Take(b.action.rows, obs)| == Min(obs, |b.action.rows|);
    assert |Drop(b.position.rows, obs)| == |b.position.rows| - Min(obs, |b.position.rows|);
    assert |Drop(b.action.rows, obs)| == |b.action.rows| - Min(obs, |b.action.rows|);
  }

  /** The state at time step `t`: position then action. */
  function StateRow<V>(b: Batch<V>, t: nat): seq<V>
    requires t < |b.position.rows| && t < |b.action.rows|
  {
    b.position.rows[t] + b.action.rows[t]
  }

  /** The conditioning row at time step `t`: position, action, velocity, image features. */
  function CondRow<V>(b: Batch<V>, encode: seq<V> -> seq<V>, t: nat): seq<V>
    requires t < |b.position.rows| && t < |b.action.rows| && t < |b.velocity.rows| && t < |b.image.rows|
  {
    b.position.rows[t] + b.action.rows[t] + b.velocity.rows[t] + encode(b.image.rows[t])
  }

  /**
   * What the assembly promises: one conditioning row per observed time step;
   * the target holds `min(h, o)` history rows then every future row, each
   * the state of its time step, where `o` is the number of observed steps.
   * The history rows are the last observed ones, so the target covers one
   * contiguous stretch of time ending at the last step.
   */
  ghost predicate AssembledFrom<V>(b: Batch<V>, obs: nat, h: nat, encode: seq<V> -> seq<V>, p: Prepared<V>) {
    var total := |b.position.rows|;
    var o := Observed(b, obs);
    var k := Min(h, o);
    && |b.action.rows| == total
    && o <= |b.velocity.rows| && o <= |b.image.rows|
    && |p.cond| == o
    && (forall i :: 0 <= i < o ==> p.cond[i] == CondRow(b, encode, i))
    && |p.target| == k + (total - o)
    && (forall i :: 0 <= i < |p.target| ==> p.target[i] == StateRow(b, o - k + i))
  }

  /** The conditioning rows of the observed time steps. */
  function CondRows<V>(b: Batch<V>, obs: nat, encode: seq<V> -> seq<V>): (cond: seq<seq<V>>)
    requires ObservationAligned(b, obs) && TargetAligned(b, obs)
    ensures |cond| == Observed(b, obs)
    ensures |b.action.rows| == |b.position.rows| && |cond| <= |b.velocity.rows| && |cond| <= |b.image.rows|
    ensures forall i :: 0 <= i < |cond| ==> cond[i] == CondRow(b, encode, i)
  {
    AlignedLengths(b, obs);
    var o := Observed(b, obs);
    seq(o, i requires 0 <= i < o => CondRow(b, encode, i))
  }

  /** The future rows of the target: the state at every time step after the observation. */
  function FutureRows<V>(b: Batch<V>, obs: nat): (future: seq<seq<V>>)
    requires ObservationAligned(b, obs) && TargetAligned(b, obs)
    ensures |future| == |b.position.rows| - Observed(b, obs)
    ensures |b.action.rows| == |b.position.rows|
    ensures forall j :: 0 <= j < |future| ==> future[j] == StateRow(b, Observed(b, obs) + j)
  {
    var futurePos, futureAct := Drop(b.position.rows, obs), Drop(b.action.rows, obs);
    AlignedLengths(b, obs);
    seq(|futurePos|, j requires 0 <= j < |futurePos| => futurePos[j] + futureAct[j])
  }

  /** `obs_cond[-h:, :5]`, with the corrected suffix. */
  function HistoryRows<V>(cond: seq<seq<V>>, h: nat): (history: seq<seq<V>>)
    ensures |history| == Min(h, |cond|)
    ensures forall i :: 0 <= i < |history| ==> history[i] == Take(cond[|cond| - |history| + i], HistoryColumns)
  {
    var last := LastRows(cond, h);
    seq(|last|, i requires 0 <= i < |last| => Take(last[i], HistoryColumns))
  }

  /** The conditioning rows and the target trajectory of a batch that passed every check. */
  function Assemble<V(!new)>(b: Batch<V>, obs: nat, h: nat, encode: seq<V> -> seq<V>, featureWidth: nat)
    : (p: Prepared<V>)
    requires b.position.Rectangular() && b.action.Rectangular() && b.velocity.Rectangular()
    requires EncoderWidth(encode, featureWidth)
    requires ObservationAligned(b, obs) && TargetAligned(b, obs) && HistoryWidthAgrees(b, featureWidth)
    ensures AssembledFrom(b, obs, h, encode, p)
  {
    var cond := CondRows(b, obs, encode);
    var history := HistoryRows(cond, h);
    var future := FutureRows(b, obs);
    HistoryRowsAreObservedState(b, obs, h, encode, featureWidth, cond, history);
    TargetIsContiguous(b, obs, history, future);
    Prepared(history + future, cond)
  }

  /** History rows followed by future rows cover one contiguous stretch of time steps. */
  lemma TargetIsContiguous<V>(b: Batch<V>, obs: nat, history: seq<seq<V>>, future: seq<seq<V>>)
    requires ObservationAligned(b, obs) && TargetAligned(b, obs)
    requires |history| <= Observed(b, obs)
    requires |b.action.rows| == |b.position.rows|
    requires forall i :: 0 <= i < |history| ==> history[i] == StateRow(b, Observed(b, obs) - |history| + i)
    requires |future| == |b.position.rows| - Observed(b, obs)
    requires forall j :: 0 <= j < |future| ==> future[j] == StateRow(b, Observed(b, obs) + j)
    ensures forall i :: 0 <= i < |history + future| ==>
        (history + future)[i] == StateRow(b, Observed(b, obs) - |history| + i)
  {
    AlignedLengths(b, obs);
    var start := Observed(b, obs) - |history|;
    var target := history + future;
    forall i | 0 <= i < |target|
      ensures target[i] == StateRow(b, start + i)
    {
      if i >= |history| {
        assert target[i] == future[i - |history|];
      }
    }
  }

  /**
   * When the widths agree, each kept history row is exactly the observed
   * state at its time step.
   */
  lemma HistoryRowsAreObservedState<V(!new)>(
    b: Batch<V>, obs: nat, h: nat, encode: seq<V> -> seq<V>, featureWidth: nat,
    cond: seq<seq<V>>, history: seq<seq<V>>)
    requires b.position.Rectangular() && b.action.Rectangular() && b.velocity.Rectangular()
    requires EncoderWidth(encode, featureWidth)
    requires ObservationAligned(b, obs) && TargetAligned(b, obs) && HistoryWidthAgrees(b, featureWidth)
    requires |cond| == Observed(b, obs)
    requires |b.action.rows| == |b.position.rows| && |cond| <= |b.velocity.rows| && |cond| <= |b.image.rows|
    requires forall i :: 0 <= i < |cond| ==> cond[i] == CondRow(b, encode, i)
    requires |history| <= |cond|
    requires forall i :: 0 <= i < |history| ==> history[i] == Take(cond[|cond| - |history| + i], HistoryColumns)
    ensures |history| <= Observed(b, obs)
    ensures |b.action.rows| == |b.position.rows|
    ensures forall i :: 0 <= i < |history| ==> history[i] == StateRow(b, Observed(b, obs) - |history| + i)
  {
    var o := |cond|;
    var k := |history|;
    forall i | 0 <= i < k
      ensures history[i] == StateRow(b, o - k + i)
    {
      HistoryColumnsAreState(b, encode, featureWidth, o - k + i);
    }
  }

  /** The first five columns of a conditioning row are the state, when the widths agree. */
  lemma HistoryColumnsAreState<V(!new)>(b: Batch<V>, encode: seq<V> -> seq<V>, featureWidth: nat, t: nat)
    requires b.position.Rectangular() && b.action.Rectangular() && b.velocity.Rectangular()
    requires EncoderWidth(encode, featureWidth) && HistoryWidthAgrees(b, featureWidth)
    requires t < |b.position.rows| && t < |b.action.rows| && t < |b.velocity.rows| && t < |b.image.rows|
    ensures Take(CondRow(b, encode, t), HistoryColumns) == StateRow(b, t)
  {
    var state := StateRow(b, t);
    var row := CondRow(b, encode, t);
    assert row == state + (b.velocity.rows[t] + encode(b.image.rows[t]));
    assert |state| == b.position.width + b.action.width;
    assert |row| == CondWidth(b, featureWidth);
    assert row[..|state|] == state;
  }

  /**
   * `prepare_pred_cond_vectors` for one batch element. NaN in the observed
   * positions or in the future actions fails first; then reshaping the image
   * features fails when there are none; then the concatenations fail on
   * slices of unequal length or width; finally the conditioning width
   * times `obsHorizon` must equal the estimator's expected input width.
   */
  function PreparePredCond<V(!new)>(
    b: Batch<V>, obs: nat, h: nat, isNan: V -> bool,
    encode: seq<V> -> seq<V>, featureWidth: nat, expectedCondWidth: nat)
    : (r: Result<Prepared<V>, PrepError>)
    requires b.position.Rectangular() && b.action.Rectangular() && b.velocity.Rectangular()
    requires EncoderWidth(encode, featureWidth)
    ensures HasNan(Take(b.position.rows, obs), isNan) ==> r == Failure(NanInObservedPosition)
    ensures !HasNan(Take(b.position.rows, obs), isNan) && HasNan(Drop(b.action.rows, obs), isNan) ==>
      r == Failure(NanInTargetAction)
    ensures (&& !HasNan(Take(b.position.rows, obs), isNan)
             && !HasNan(Drop(b.action.rows, obs), isNan)
             && !ImageFeaturesNonEmpty(b, obs, featureWidth)) ==> r == Failure(EmptyImageFeatures)
    ensures r.Success? <==> Admissible(b, obs, isNan, featureWidth, expectedCondWidth)
    ensures r.Success? ==> AssembledFrom(b, obs, h, encode, r.value)
  {
    if HasNan(Take(b.position.rows, obs), isNan) then Failure(NanInObservedPosition)
    else if HasNan(Drop(b.action.rows, obs), isNan) then Failure(NanInTargetAction)
    else if !ImageFeaturesNonEmpty(b, obs, featureWidth) then Failure(EmptyImageFeatures)
    else if !ObservationAligned(b, obs) || !TargetAligned(b, obs) then Failure(TimeLengthMismatch)
    else if !HistoryWidthAgrees(b, featureWidth) then Failure(FeatureWidthMismatch)
    else if CondWidth(b, featureWidth) * obs != expectedCondWidth then Failure(ConditioningWidthMismatch)
    else Success(Assemble(b, obs, h, encode, featureWidth))
  }
}
