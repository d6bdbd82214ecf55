# Diffusion trajectory sampler: a Dafny model

This project models the numerical core of a conditional denoising diffusion
model for trajectory prediction (`models/diffusion.py`, class `Diffusion`).
Tensors are sequences: a trajectory is `seq<seq<real>>` (time × feature) and
the batch axis is kept only where batch elements differ (`q_forwardProcess`,
where each element has its own step index). Arithmetic is over exact reals.
The square root, the noise estimator, the image encoder, the squared cosine
samples of the cosine schedule and every random draw are parameters.

Modules, following the components of the sampler:

- `Tensors`: trajectories, elementwise tensor arithmetic, Python slicing.
- `Constraints`: `add_constraints`, the inpainting of the known history prefix.
- `NoiseSchedule`: schedule selection, `linear_beta_schedule` (over
  `torch.linspace`), the clipped cosine betas, `torch.cumprod`, and the
  buffers `betas`, `alphas`, `alphas_cumprod`, `sqrt_alphas_cumprod`,
  `sqrt_one_minus_alphas_cumprod`.
- `ForwardProcess`: `q_forwardProcess` and the noised training input of `onepass`.
- `ReverseProcess`: `p_reverseProcess` and `p_reverseProcess_loop`.
- `AcceleratedSampler`: the subset loop of `sample`.
- `Conditioning`: `prepare_pred_cond_vectors`, generic over the element type
  `V` with an `isNan` test, so that the NaN checks are modelled as errors.
- `Results`: `Result` and `Option`.

Behaviour of the code worth knowing:

- The betas of the linear schedule lie in (0, 1) only when `noise_steps` is 1
  (a one-point `linspace` is just its start value 0.1) or above 20; for 2 to 20
  steps the last beta `20 / noise_steps` is at least 1. The buffer invariant
  (alphas_cumprod in (0, 1) and strictly decreasing) is proved under exactly
  that condition, not for every step count.
- When the trajectory has the reference's length, an `inpaint_horizon`
  larger than that length raises nothing: the slices clamp and the whole
  trajectory is overwritten. When the lengths differ, a horizon past the
  shorter one gives prefix slices of different lengths and the assignment
  fails (`TryAddConstraints`).
- The step subset of the accelerated sampler contains 0 and the largest
  multiple of 100 below `noise_steps`, not `noise_steps - 1` itself.
- When `x_T` is not given, the full reverse loop starts from a uniform draw
  (`torch.rand`), not a normal one.
- With `noise_steps <= 100` the accelerated sampler makes no transition and
  returns its initial draw without restoring the history prefix; with
  `noise_steps == 0` the full loop returns its start unchanged, and `sample`
  fails reading the last element of an empty subset.
- `q_forwardProcess` takes `torch.sqrt` of `alphas_cumprod[t]`; the model reads
  the square-root buffers, which hold exactly those values. A sampler's
  square-root buffers are tied to its square-root parameter (`DerivedWith`).
- The starting trajectory of the full loop need not have the reference's
  shape: `add_constraints` only assigns the history prefix, so the start has
  to line up with the reference over that prefix and keep the reference's
  width, and every step keeps the start's shape.
- `prepare_pred_cond_vectors` fails when no image frame is observed
  (`obs_horizon = 0`, or series without time steps) and when the encoder
  produces no feature: reshaping zero encoded values with an inferred axis
  raises, before any concatenation.
- The conditioning target is assembled with the corrected history slice,
  which takes no rows when `inpaint_horizon` is 0 (see Findings).

## Model

| member | source | states |
|---|---|---|
| `Constraints.AddConstraints` | models/diffusion.py:231-237 | The result has the input's shape, its first `min(h, T)` rows are the reference's and every later row is the input's. |
| `Constraints.TryAddConstraints` | models/diffusion.py:234 | The slice assignment succeeds exactly when the two prefixes have the same number of rows and row widths and, when both trajectories have a row, the same width; it then inpaints the prefix and keeps the rest. |
| `Constraints.SameShapeIsCompatible` | models/diffusion.py:234 | A trajectory of the reference's shape can always be constrained. |
| `Constraints.AddConstraintsIdempotent` | models/diffusion.py:231-237 | Applying the constraint twice with one reference equals applying it once. |
| `Constraints.AddConstraintsForgetsPrefix` | models/diffusion.py:234 | The result does not depend on the input's prefix: inputs that agree after row `h` give equal results. |
| `Constraints.AddConstraintsFixedPoint` | models/diffusion.py:234 | The constraint leaves a trajectory unchanged exactly when its prefix already is the reference's. |
| `Constraints.CompatibleKeepsShape` | models/diffusion.py:234 | A trajectory of the same shape as one that lines up with the reference lines up too. |
| `NoiseSchedule.SelectScheduler` | models/diffusion.py:38-57 | The cosine schedule is chosen exactly for the name `cosine_beta_schedule`; every other name, `linear` and the default `linear_v2` included, keeps the linear schedule. |
| `NoiseSchedule.Linspace` | models/diffusion.py:279 | `n` points, the first equal to the start, the last to the end, consecutive points a constant `(end - start) / (n - 1)` apart. |
| `NoiseSchedule.LinspaceMonotone` | models/diffusion.py:279 | Evenly spaced points from a start to a larger end never decrease. |
| `NoiseSchedule.LinspaceBetweenEnds` | models/diffusion.py:279 | Every point lies between the start and the end. |
| `NoiseSchedule.LinearBetaSchedule` | models/diffusion.py:272-280 | `steps` betas, the first `(1000/steps)*0.0001`, the last `(1000/steps)*0.02`, evenly spaced. |
| `NoiseSchedule.LinearBetasNonDecreasing` | models/diffusion.py:276-279 | The linear betas never decrease. |
| `NoiseSchedule.LinearBetasInUnitInterval` | models/diffusion.py:276-279 | All linear betas lie in (0, 1) if and only if `steps` is 1 or above 20. |
| `NoiseSchedule.Clip` | models/diffusion.py:293 | The clipped value lies in `[lo, hi]`: a value inside is returned unchanged, one below becomes `lo` and one above becomes `hi`. |
| `NoiseSchedule.ClippedBeta` | models/diffusion.py:292-293 | A cosine beta is `1 - ratio` when that lies in [0, 0.999], 0 for a ratio above 1 and 0.999 for a ratio below 0.001. |
| `NoiseSchedule.CosineBetasFromSamples` | models/diffusion.py:288-295 | `steps` cosine betas, each in [0, 0.999], each the clipped `1 - f[i+1]/f[i]` of the raw samples: normalising by the first sample does not change them. |
| `NoiseSchedule.RatioOfNormalised` | models/diffusion.py:291-292 | Dividing two samples by the same positive value keeps their ratio. |
| `NoiseSchedule.NormalisedBeta` | models/diffusion.py:291-293 | The clipped beta computed from samples normalised by the first sample equals the clipped `1 - next/prev` of the raw samples. |
| `NoiseSchedule.CumProdFrom` | models/diffusion.py:61 | The running product from a starting factor has one entry per input, entry `i` being the start times the product of factors `0..i`. |
| `NoiseSchedule.CumProd` | models/diffusion.py:61 | Entry `i` of the cumulative product is the product of `alphas[0..i]`. |
| `NoiseSchedule.CumProdStep` | models/diffusion.py:61 | Each cumulative product is the previous one times the next factor. |
| `NoiseSchedule.CumProdBounds` | models/diffusion.py:59-61 | Factors in (0, 1) keep every cumulative product in (0, 1). |
| `NoiseSchedule.CumProdShrinks` | models/diffusion.py:59-61 | Factors in (0, 1) make each cumulative product strictly smaller than the one before. |
| `NoiseSchedule.CumProdDecreasing` | models/diffusion.py:59-61 | Factors in (0, 1) give cumulative products in (0, 1) that strictly decrease. |
| `NoiseSchedule.CumProdWeakBounds` | models/diffusion.py:59-61 | Factors in (0, 1] keep every cumulative product in (0, 1]. |
| `NoiseSchedule.CumProdNonIncreasing` | models/diffusion.py:59-61 | Factors in (0, 1] give cumulative products in (0, 1] that never increase. |
| `NoiseSchedule.DeriveSchedule` | models/diffusion.py:59-68 | The five buffers have one entry per step: `alphas = 1 - betas`, `alphas_cumprod[i]` the product of `alphas[0..i]`, and the two square-root buffers. |
| `NoiseSchedule.DerivedWithIsDerive` | models/diffusion.py:59-68 | A schedule satisfies the buffer relations (`alphas = 1 - betas`, the cumulative product, the two square roots) exactly when it is the schedule derived from its betas. |
| `NoiseSchedule.DerivedScheduleInvariant` | models/diffusion.py:59-61 | Betas in (0, 1) give alphas in (0, 1) and a cumulative product in (0, 1) that strictly decreases. |
| `NoiseSchedule.SignalNoiseSumToOne` | models/diffusion.py:67-68 | With an exact square root the squared signal and noise coefficients at every step sum to one. |
| `NoiseSchedule.LinearScheduleInvariant` | models/diffusion.py:54-61 | For 1 step or more than 20 steps the linear schedule's cumulative product lies in (0, 1) and strictly decreases. |
| `NoiseSchedule.BuildSchedule` | models/diffusion.py:54-68 | Construction fails exactly for the linear schedule with zero steps (division by zero); otherwise the buffers have `steps` entries and are the ones derived from the betas, which are the linear betas for the linear schedule and the clipped cosine betas of the samples for the cosine one. |
| `NoiseSchedule.BuildScheduleInvariant` | models/diffusion.py:54-68 | Whenever the betas allow it (the cosine samples positive, the linear schedule with 1 or more than 20 steps) construction succeeds with `alphas_cumprod` in (0, 1] and never increasing, and for the linear schedule in (0, 1) and strictly decreasing. |
| `ForwardProcess.QForward` | models/diffusion.py:203-205 | An out-of-range step index fails first, mismatched batch shapes next; otherwise every element `b` is `sqrt(ac[t[b]]) * x0[b] + sqrt(1 - ac[t[b]]) * noise[b]`, elementwise, with its own index. |
| `ForwardProcess.NoiseElement` | models/diffusion.py:204 | One batch element noised at step `t` keeps its shape and is elementwise `sqrt(ac[t]) * x0 + sqrt(1 - ac[t]) * noise`. |
| `ForwardProcess.QForwardSplitsBatch` | models/diffusion.py:204 | Batch elements do not interact: noising two batches together gives the two separate results concatenated. |
| `ForwardProcess.QForwardWithoutNoise` | models/diffusion.py:204 | With zero noise each element is its clean trajectory scaled by `sqrt(alphas_cumprod[t])`. |
| `ForwardProcess.NoisedTrainingInput` | models/diffusion.py:140-144 | The noised training input fails exactly when the forward process fails; otherwise each element has its clean history prefix and the forward-noised rows after it. |
| `ReverseProcess.PMean` | models/diffusion.py:228 | The noise-free part of a reverse step keeps the shape and is elementwise `(x - (1-alpha)/sqrt(1-ac) * eps) / sqrt(alpha)`. |
| `ReverseProcess.PStep` | models/diffusion.py:222-229 | One ancestral step, elementwise `(x - (1-alpha)/sqrt(1-ac) * eps) / sqrt(alpha) + sqrt(beta) * z`, with the noise term zero at step 0. |
| `ReverseProcess.RootBuffersAt` | models/diffusion.py:67-68 | In a valid sampler the square-root buffers at each step are the square roots of `alphas_cumprod[t]` and `1 - alphas_cumprod[t]`. |
| `ReverseProcess.FinalStepIsMean` | models/diffusion.py:223-224 | At step 0 the step equals its noise-free mean whatever was drawn. |
| `ReverseProcess.ReverseStep` | models/diffusion.py:215-217 | Every iteration of the loop keeps the trajectory's shape, so the draws still fit and the prefix still lines up with the reference, and leaves the history prefix equal to the reference's. |
| `ReverseProcess.CountDown` | models/diffusion.py:214 | `reversed(range(n))` has `n` entries, starts at `n - 1`, ends at 0, strictly decreases and contains every step below `n`: each step is visited exactly once. |
| `ReverseProcess.CountDownStep` | models/diffusion.py:214 | Counting down from `n + 1` is step `n` followed by counting down from `n`. |
| `ReverseProcess.CountDownInRange` | models/diffusion.py:214 | Counting down from at most `noise_steps` only visits steps of the schedule. |
| `ReverseProcess.RunCountDownStep` | models/diffusion.py:214-217 | Running the count-down from `n` is taking step `n - 1` and then running the count-down from `n - 1`. |
| `ReverseProcess.RunSteps` | models/diffusion.py:214-217 | Running steps of the schedule keeps the start's shape and its fit with the draws and the reference; a non-empty run ends inpainted, running none returns the start. |
| `ReverseProcess.RunStepsSnoc` | models/diffusion.py:214-217 | Running the steps then one more step is taking that step after the run. |
| `ReverseProcess.ReachedStep` | models/diffusion.py:214-217 | One iteration of the loop keeps its state: the trajectory still fits the draws and the reference, and finishing the count-down from it still gives the whole count-down's result. |
| `ReverseProcess.RunCountDown` | models/diffusion.py:214-217 | The loop body, run from any start that fits the draws and lines up with the reference, ends in the result of steps `noise_steps-1` down to 0 taken in that order. |
| `ReverseProcess.PReverseProcessLoop` | models/diffusion.py:208-219 | The loop starts from `x_T` or from the uniform draw of `pred_horizon + inpaint_horizon` rows of `prediction_dim` values; with at least one step the start only has to line up with the reference over the history prefix, the steps `noise_steps-1` down to 0 run in that order and the result is inpainted; with none the start is returned unconstrained. The result keeps the start's shape. |
| `ReverseProcess.ReverseLoopEndsWithMean` | models/diffusion.py:214-228 | The loop's result is the constrained noise-free mean of step 0 applied to the state after steps `noise_steps-1` down to 1. |
| `ReverseProcess.RunStepsIgnoresUnusedDraws` | models/diffusion.py:223-226 | Runs whose draws agree at every nonzero step they take end in the same trajectory. |
| `ReverseProcess.ReverseLoopIgnoresFinalDraw` | models/diffusion.py:223-224 | The full loop's result does not depend on the draw for step 0. |
| `AcceleratedSampler.StepSubset` | models/diffusion.py:173-174 | The subset holds exactly the multiples of 100 below `noise_steps`, increasing by 100, from 0 to the largest such multiple, empty for zero steps and at most one entry for up to 100 steps. |
| `AcceleratedSampler.Transition` | models/diffusion.py:184-190 | One transition from `t` to `t_next`, elementwise `sqrt(ac[tn]) * (x - sqrt(1-ac[t]) * eps_t) / sqrt(ac[t]) + sqrt(1-ac[tn]) * eps_tn`, both estimates taken on the state before the transition. |
| `AcceleratedSampler.DeterministicUpdate` | models/diffusion.py:187-190 | The deterministic update keeps the shape and is elementwise `sn * (x - sb * eps_t) / sa + snb * eps_next`. |
| `AcceleratedSampler.DeterministicUpdateMarginal` | models/diffusion.py:187-190 | Applied to `sa * x0 + sb * eps` with both estimates equal to `eps`, the update gives `sn * x0 + snb * eps`: the noise cancels exactly. |
| `AcceleratedSampler.TransitionFollowsMarginal` | models/diffusion.py:184-190 | When the estimator returns the true noise at both steps, a transition maps the output of `q_forwardProcess` at `t` to its output at `t_next` with the same clean trajectory and noise. |
| `AcceleratedSampler.Advance` | models/diffusion.py:190-191 | A transition followed by the constraint keeps the shape and inpaints the history prefix. |
| `AcceleratedSampler.AdvanceAt` | models/diffusion.py:183-191 | Advancing from subset position `k` to `k - 1` keeps the reference's shape and inpaints the history prefix. |
| `AcceleratedSampler.FollowsExtend` | models/diffusion.py:183-193 | Advancing the last snapshot by the next subset transition keeps the history following the subset. |
| `AcceleratedSampler.Sample` | models/diffusion.py:173-193 | Fails exactly when there are no steps, reporting `denoising_steps` overwritten with 0; otherwise the history starts with the draw, has one snapshot per subset entry, `denoising_steps` equals the subset length, each later snapshot is the constrained transition from the previous subset step to the one 100 below, the result is the last snapshot, and up to 100 steps return the draw itself. |
| `Conditioning.LastRowsAsWritten` | models/diffusion.py:265 | The slice `[-h:]` is the last `min(h, len)` rows for positive `h` and the whole sequence for `h = 0`. |
| `Conditioning.ZeroHorizonKeepsObservation` | models/diffusion.py:265 | A one-row observation with `inpaint_horizon = 0` yields one history row instead of none. |
| `Conditioning.LastRows` | models/diffusion.py:265 | The corrected history slice is a suffix of length `min(h, len)`. |
| `Conditioning.LastRowsMatchesPositiveHorizon` | models/diffusion.py:265 | For every positive horizon the corrected slice equals the slice as written. |
| `Conditioning.AlignedLengths` | models/diffusion.py:257-262 | Concatenable slices mean position and action are equally long and velocity and images cover the observation. |
| `Conditioning.CondRows` | models/diffusion.py:246-257 | One conditioning row per observed step, each position ++ action ++ velocity ++ encoded image of that step. |
| `Conditioning.FutureRows` | models/diffusion.py:260-262 | One target row per step after the observation, each position ++ action of that step. |
| `Conditioning.HistoryRows` | models/diffusion.py:265 | `min(h, o)` history rows, the first five columns of the last observed conditioning rows. |
| `Conditioning.HistoryColumnsAreState` | models/diffusion.py:257-265 | When the concatenation widths agree, the first five columns of a conditioning row are that step's position ++ action. |
| `Conditioning.HistoryRowsAreObservedState` | models/diffusion.py:257-265 | Each history row is the position ++ action of one of the last observed steps. |
| `Conditioning.TargetIsContiguous` | models/diffusion.py:260-265 | History rows followed by future rows are the states of one contiguous stretch of time steps. |
| `Conditioning.Assemble` | models/diffusion.py:246-265 | The conditioning rows are the observed steps' concatenated channels; the target has `min(h, o) + (T - o)` rows, the states of the last `min(h, o)` observed steps then of every later step. |
| `Conditioning.PreparePredCond` | models/diffusion.py:240-269 | NaN in the observed positions fails first, NaN in the future actions next, then an empty set of image features (no observed frame, or an encoder of width 0), whose reshape with an inferred axis is ambiguous; the result succeeds exactly when no NaN is found, there is at least one image feature, the slices concatenate and the conditioning width times `obs_horizon` matches the estimator; then it is the assembled target and conditioning. |

## Findings

| source | as written | input that shows it | evidently intended | confidence | as-written member | corrected member |
|---|---|---|---|---|---|---|
| models/diffusion.py:265 | `obs_cond[:, -self.inpaint_horizon:, :5]` reads `-0` as `0` when `inpaint_horizon` is 0, so the whole observation is prepended | `inpaint_horizon = 0` with any observation of at least one step: the target gains `obs_horizon` unconstrained rows, and its length no longer matches the `pred_horizon + inpaint_horizon` rows `p_reverseProcess_loop` draws | prepend the last `min(inpaint_horizon, obs_horizon)` rows, none for 0 | not executed; medium | `Conditioning.LastRowsAsWritten` (shown by `Conditioning.ZeroHorizonKeepsObservation`) | `Conditioning.LastRows` (used by `Conditioning.HistoryRows`) |

## Left out

- The neural networks (`UNet`, `UNet_Film`, `VisionEncoder`, the autoencoder checkpoint): the estimator and the encoder are function parameters; the estimator is assumed to return its input's shape and the encoder a fixed width.
- The weight-shape assertion of `prepare_pred_cond_vectors`: the estimator's expected conditioning width is a parameter compared with the computed width.
- The cosine and pi of the cosine schedule: the squared cosine samples are an input, assumed positive where they are divided by (angles below pi/2).
- Square roots: a parameter function; `SignalNoiseSumToOne` assumes it is exact on [0, 1], nothing else does.
- Floating-point rounding, `float32` storage, and IEEE infinities and NaN from division by zero: exact reals cannot represent them, so the reverse updates require their square-root denominators to be nonzero.
- Random draws (`torch.randint`, `randn_like`, `rand`): inputs to the functions that use them.
- Broadcasting of singleton axes in tensor arithmetic and assignment: shapes must agree exactly, a mismatch is an error or excluded by precondition.
- Negative step indices and negative horizons, which index from the end in Python: indices and horizons are natural numbers.
- The batch axis of sampling and of `prepare_pred_cond_vectors`: each batch element is processed alike, except that the NaN checks of `prepare_pred_cond_vectors` look at the whole batch (see `Conditioning.PreparePredCond` below), and `sample` keeps only element 0.
- The loss, the optimizer and learning-rate scheduler, the Lightning hooks, logging and printing, and the plotting and animation of the sampling history (`utils/plot_utils.py`): I/O and training bookkeeping.
- `NoiseSchedule.CosineBetasFromSamples`: states the clip bound and the normalisation, not the cosine values themselves.
- `Constraints.TryAddConstraints`: an empty trajectory carries no width, so the widths are compared only when both trajectories have a row; assigning into an empty slice of a tensor of another width is accepted.
- `Conditioning.HistoryRows`: at `inpaint_horizon = 0` it takes no rows, following the corrected slice, not the whole observation that line 265 takes (see Findings).
- `Conditioning.Assemble`: at `inpaint_horizon = 0` the target has no history rows, following the corrected slice rather than line 265 (see Findings).
- `Conditioning.PreparePredCond`: at `inpaint_horizon = 0` the target has no history rows, following the corrected slice rather than line 265 (see Findings). It also checks one batch element, while the NaN assertions apply `.any()` to the whole batch, so a NaN in any element fails the call for every element.
