/**
 * The noise schedule: choosing the schedule family from its configuration
 * name, the linear beta schedule, the clipped cosine betas, and the buffers
 * derived from the betas (`alphas`, `alphas_cumprod` and their square roots).
 * Arithmetic is over exact reals; the square root is a parameter.
 */
module NoiseSchedule {
  import opened Results

  datatype ScheduleKind = LinearSchedule | CosineSchedule

  datatype ScheduleError = DivisionByZeroSteps

  /**
   * The schedule chosen at construction. The linear schedule is installed
   * first; the name `"linear"` installs it again, and only the exact name
   * `"cosine_beta_schedule"` replaces it. Any other name, the default
   * `"linear_v2"` included, keeps the linear schedule.
   */
  function SelectScheduler(name: string): (k: ScheduleKind)
    ensures k == CosineSchedule <==> name == "cosine_beta_schedule"
  {
    var installed := LinearSchedule;
    var afterLinear := if name == "linear" then LinearSchedule else installed;
    if name == "cosine_beta_schedule" then CosineSchedule else afterLinear
  }

  // ---------------------------------------------------------------- linspace

  /** `torch.linspace(a, b, n)`: `n` evenly spaced points from `a` to `b`. */
  function Linspace(a: real, b: real, n: nat): (r: seq<real>)
    ensures |r| == n
    ensures n >= 1 ==> r[0] == a
    ensures n >= 2 ==> r[n - 1] == b
    ensures n >= 2 ==> forall i :: 0 <= i < n - 1 ==> r[i + 1] - r[i] == (b - a) / (n - 1) as real
  {
    if n == 1 then [a]
    else
      var d := if n >= 2 then (b - a) / (n - 1) as real else 0.0;
      var r := seq(n, i requires 0 <= i < n => a + (i as real) * d);
      assert n >= 2 ==> r[n - 1] == b by {
        if n >= 2 {
          assert d * ((n - 1) as real) == b - a;
        }
      }
      r
  }

  /** Evenly spaced points with `a <= b` never decrease. */
  lemma {:induction false} LinspaceMonotone(a: real, b: real, n: nat, i: nat, j: nat)
    requires a <= b && i <= j < n
    ensures Linspace(a, b, n)[i] <= Linspace(a, b, n)[j]
    decreases j - i
  {
    var r := Linspace(a, b, n);
    if i < j {
      LinspaceMonotone(a, b, n, i, j - 1);
      assert n >= 2;
      assert r[j] - r[j - 1] == (b - a) / (n - 1) as real;
      assert (b - a) / (n - 1) as real >= 0.0;
    }
  }

  /** Every point lies between the two end points. */
  lemma LinspaceBetweenEnds(a: real, b: real, n: nat, i: nat)
    requires a <= b && i < n
    ensures a <= Linspace(a, b, n)[i]
    ensures n >= 2 ==> Linspace(a, b, n)[i] <= b
  {
    LinspaceMonotone(a, b, n, 0, i);
    if n >= 2 {
      LinspaceMonotone(a, b, n, i, n - 1);
    }
  }

  // ------------------------------------------------------- linear schedule

  /**
   * The linear schedule, scaled by `1000 / steps` so that its total noise
   * matches the 1000-step reference schedule. `steps == 0` divides by zero
   * in the source; `BuildSchedule` turns that into an error.
   */
  function LinearBetaSchedule(steps: nat): (betas: seq<real>)
    requires steps >= 1
    ensures |betas| == steps
    ensures betas[0] == 0.1 / steps as real
    ensures steps >= 2 ==> betas[steps - 1] == 20.0 / steps as real
    ensures steps >= 2 ==> forall i :: 0 <= i < steps - 1 ==>
      betas[i + 1] - betas[i] == (20.0 / steps as real - 0.1 / steps as real) / (steps - 1) as real
  {
    var scale := 1000.0 / steps as real;
    assert scale * 0.0001 == 0.1 / steps as real;
    assert scale * 0.02 == 20.0 / steps as real;
    Linspace(scale * 0.0001, scale * 0.02, steps)
  }

  /** The linear betas never decrease. */
  lemma LinearBetasNonDecreasing(steps: nat, i: nat, j: nat)
    requires steps >= 1 && i <= j < steps
    ensures LinearBetaSchedule(steps)[i] <= LinearBetaSchedule(steps)[j]
  {
    var scale := 1000.0 / steps as real;
    assert scale * 0.0001 <= scale * 0.02;
    LinspaceMonotone(scale * 0.0001, scale * 0.02, steps, i, j);
  }

  /**
   * Every linear beta lies strictly between 0 and 1 exactly when there is a
   * single step (the schedule is then just its start value 0.1) or more than
   * 20 steps (the end value `20 / steps` is then below 1).
   */
  lemma LinearBetasInUnitInterval(steps: nat)
    requires steps >= 1
    ensures (forall i :: 0 <= i < steps ==> 0.0 < LinearBetaSchedule(steps)[i] < 1.0)
        <==> (steps == 1 || steps > 20)
  {
    var betas := LinearBetaSchedule(steps);
    var n := steps as real;
    var scale := 1000.0 / n;
    assert 0.1 / n > 0.0;
    if steps == 1 {
      assert betas == [0.1];
    } else if steps > 20 {
      assert 20.0 / n < 1.0 by {
        assert (20.0 / n) * n == 20.0;
      }
      forall i | 0 <= i < steps
        ensures 0.0 < betas[i] < 1.0
      {
        LinearBetasNonDecreasing(steps, 0, i);
        LinearBetasNonDecreasing(steps, i, steps - 1);
      }
    } else {
      assert betas[steps - 1] >= 1.0 by {
        assert (20.0 / n) * n == 20.0;
      }
    }
  }

  // ------------------------------------------------------- cosine schedule

  /** `np.clip(v, lo, hi)`. */
  function Clip(v: real, lo: real, hi: real): (r: real)
    requires lo <= hi
    ensures lo <= r <= hi
    ensures lo <= v <= hi ==> r == v
    ensures v < lo ==> r == lo
    ensures v > hi ==> r == hi
  {
    if v < lo then lo else if v > hi then hi else v
  }

  /**
   * One cosine beta from the ratio of neighbouring squared cosines: `1 - ratio`
   * clipped to [0, 0.999]. A ratio above 1 gives 0, a ratio below 0.001 gives
   * the cap.
   */
  function ClippedBeta(ratio: real): (beta: real)
    ensures 0.0 <= beta <= 0.999
    ensures 0.001 <= ratio <= 1.0 ==> beta == 1.0 - ratio
    ensures ratio > 1.0 ==> beta == 0.0
    ensures ratio < 0.001 ==> beta == 0.999
  {
    Clip(1.0 - ratio, 0.0, 0.999)
  }

  /**
   * The cosine schedule's arithmetic after its cosines: `samples[i]` is the
   * squared cosine at grid point `i` of `steps + 1` points (the cosine and
   * pi themselves are not modelled). The samples are normalised by the first
   * one, each beta is one minus the ratio of neighbouring samples, and the
   * betas are clipped to [0, 0.999]. Only samples at angles below pi/2 are
   * divided by, and those are positive.
   */
  function CosineBetasFromSamples(samples: seq<real>): (betas: seq<real>)
    requires |samples| >= 1
    requires forall i :: 0 <= i < |samples| - 1 ==> samples[i] > 0.0
    requires samples[0] > 0.0
    ensures |betas| == |samples| - 1
    ensures forall i :: 0 <= i < |betas| ==> 0.0 <= betas[i] <= 0.999
    ensures forall i :: 0 <= i < |betas| ==> betas[i] == ClippedBeta(samples[i + 1] / samples[i])
  {
    var first := samples[0];
    seq(|samples| - 1, i requires 0 <= i < |samples| - 1 => NormalisedBeta(samples[i + 1], samples[i], first))
  }

  /**
   * One clipped beta from two neighbouring samples, each first normalised by
   * the first sample; the normalisation cancels in the ratio.
   */
  function NormalisedBeta(next: real, prev: real, first: real): (beta: real)
    requires prev > 0.0 && first > 0.0
    ensures beta == ClippedBeta(next / prev)
  {
    RatioOfNormalised(next, prev, first);
    ClippedBeta((next / first) / (prev / first))
  }

  /** Normalising numerator and denominator by one positive value keeps their ratio. */
  lemma RatioOfNormalised(p: real, q: real, c: real)
    requires q > 0.0 && c > 0.0
    ensures q / c > 0.0
    ensures (p / c) / (q / c) == p / q
  {
    assert (p / c) * c == p;
    assert (q / c) * c == q;
    assert (p / c) / (q / c) * (q / c) == p / c;
  }

  // ---------------------------------------------------------- cumulative product

  /** The product of all factors, taken from the front. */
  function Prod(s: seq<real>): real {
    if |s| == 0 then 1.0 else s[0] * Prod(s[1..])
  }

  lemma {:induction false} ProdSnoc(s: seq<real>, x: real)
    ensures Prod(s + [x]) == Prod(s) * x
    decreases |s|
  {
    if |s| == 0 {
      assert s + [x] == [x];
      assert Prod([x]) == x * Prod([]);
    } else {
      assert (s + [x])[1..] == s[1..] + [x];
      ProdSnoc(s[1..], x);
    }
  }

  /**
   * The running product `torch.cumprod` computes, walking the factors from
   * the front with the product so far in `acc`.
   */
  function CumProdFrom(a: seq<real>, acc: real): (c: seq<real>)
    ensures |c| == |a|
    ensures forall i :: 0 <= i < |a| ==> c[i] == acc * Prod(a[..i + 1])
    decreases |a|
  {
    if |a| == 0 then []
    else
      var rest := CumProdFrom(a[1..], acc * a[0]);
      var c := [acc * a[0]] + rest;
      forall i | 0 <= i < |a|
        ensures c[i] == acc * Prod(a[..i + 1])
      {
        CumProdFromEntry(a, acc, rest, i);
      }
      c
  }

  /** Entry `i` of the running product, from the running product of the tail. */
  lemma CumProdFromEntry(a: seq<real>, acc: real, rest: seq<real>, i: nat)
    requires i < |a| && |rest| == |a| - 1
    requires forall k :: 0 <= k < |rest| ==> rest[k] == (acc * a[0]) * Prod(a[1..][..k + 1])
    ensures ([acc * a[0]] + rest)[i] == acc * Prod(a[..i + 1])
  {
    var pre := a[..i + 1];
    assert Prod(pre) == a[0] * Prod(pre[1..]);
    if i == 0 {
      assert pre[1..] == [];
    } else {
      assert pre[1..] == a[1..][..i];
      assert rest[i - 1] == (acc * a[0]) * Prod(a[1..][..i]);
    }
    MulAssoc(acc, a[0], Prod(pre[1..]));
  }

  /** `torch.cumprod(a, dim=0)`. */
  function CumProd(a: seq<real>): (c: seq<real>)
    ensures |c| == |a|
    ensures forall i :: 0 <= i < |a| ==> c[i] == Prod(a[..i + 1])
  {
    CumProdFrom(a, 1.0)
  }

  /** Each cumulative product is the previous one times the next factor. */
  lemma CumProdStep(a: seq<real>, i: nat)
    requires i + 1 < |a|
    ensures CumProd(a)[i + 1] == CumProd(a)[i] * a[i + 1]
  {
    var c := CumProd(a);
    assert c[i + 1] == Prod(a[..i + 2]);
    assert c[i] == Prod(a[..i + 1]);
    assert a[..i + 2] == a[..i + 1] + [a[i + 1]];
    ProdSnoc(a[..i + 1], a[i + 1]);
  }

  lemma MulAssoc(x: real, y: real, z: real)
    ensures (x * y) * z == x * (y * z)
  {
  }

  /** Factors strictly between 0 and 1 keep every cumulative product strictly between 0 and 1. */
  lemma {:induction false} CumProdBounds(a: seq<real>, i: nat)
    requires forall k :: 0 <= k < |a| ==> 0.0 < a[k] < 1.0
    requires i < |a|
    ensures 0.0 < CumProd(a)[i] < 1.0
  {
    var c := CumProd(a);
    if i == 0 {
      assert c[0] == Prod(a[..1]);
      assert a[..1] == [a[0]];
      assert Prod([a[0]]) == a[0] * Prod([]);
    } else {
      CumProdBounds(a, i - 1);
      CumProdStep(a, i - 1);
      StrictShrink(c[i - 1], a[i]);
    }
  }

  /**
   * Factors strictly between 0 and 1 give cumulative products that stay
   * strictly between 0 and 1 and strictly decrease.
   */
  lemma CumProdDecreasing(a: seq<real>)
    requires forall i :: 0 <= i < |a| ==> 0.0 < a[i] < 1.0
    ensures forall i :: 0 <= i < |a| ==> 0.0 < CumProd(a)[i] < 1.0
    ensures forall i :: 0 <= i < |a| - 1 ==> CumProd(a)[i + 1] < CumProd(a)[i]
  {
    var c := CumProd(a);
    forall i | 0 <= i < |a|
      ensures 0.0 < c[i] < 1.0
    {
      CumProdBounds(a, i);
    }
    forall i | 0 <= i < |a| - 1
      ensures c[i + 1] < c[i]
    {
      CumProdShrinks(a, i);
    }
  }

  lemma {:induction false} CumProdShrinks(a: seq<real>, i: nat)
    requires forall k :: 0 <= k < |a| ==> 0.0 < a[k] < 1.0
    requires i + 1 < |a|
    ensures CumProd(a)[i + 1] < CumProd(a)[i]
  {
    var c := CumProd(a);
    var before, after, factor := c[i], c[i + 1], a[i + 1];
    CumProdBounds(a, i);
    CumProdStep(a, i);
    StrictShrink(before, factor);
    ProductBelow(after, before, factor);
  }

  lemma ProductBelow(p: real, x: real, f: real)
    requires p == x * f && 0.0 < x * f < x
    ensures p < x
  {
  }

  /** Multiplying a value in (0, 1) by a factor in (0, 1) keeps it in (0, 1) and shrinks it. */
  lemma StrictShrink(x: real, f: real)
    requires 0.0 < x < 1.0 && 0.0 < f < 1.0
    ensures 0.0 < x * f < x
  {
  }
  /**
   * Factors in (0, 1], as the clipped cosine schedule gives, keep every
   * cumulative product in (0, 1].
   */
  lemma {:induction false} CumProdWeakBounds(a: seq<real>, i: nat)
    requires forall k :: 0 <= k < |a| ==> 0.0 < a[k] <= 1.0
    requires i < |a|
    ensures 0.0 < CumProd(a)[i] <= 1.0
  {
    var c := CumProd(a);
    if i == 0 {
      assert c[0] == Prod(a[..1]);
      assert a[..1] == [a[0]];
      assert Prod([a[0]]) == a[0] * Prod([]);
    } else {
      CumProdWeakBounds(a, i - 1);
      CumProdStep(a, i - 1);
      WeakShrink(c[i - 1], a[i]);
    }
  }

  /** Factors in (0, 1] give cumulative products in (0, 1] that never increase. */
  lemma CumProdNonIncreasing(a: seq<real>)
    requires forall i :: 0 <= i < |a| ==> 0.0 < a[i] <= 1.0
    ensures forall i :: 0 <= i < |a| ==> 0.0 < CumProd(a)[i] <= 1.0
    ensures forall i :: 0 <= i < |a| - 1 ==> CumProd(a)[i + 1] <= CumProd(a)[i]
  {
    var c := CumProd(a);
    forall i | 0 <= i < |a|
      ensures 0.0 < c[i] <= 1.0
    {
      CumProdWeakBounds(a, i);
    }
    forall i | 0 <= i < |a| - 1
      ensures c[i + 1] <= c[i]
    {
      CumProdNoGrowth(a, i);
    }
  }

  lemma {:induction false} CumProdNoGrowth(a: seq<real>, i: nat)
    requires forall k :: 0 <= k < |a| ==> 0.0 < a[k] <= 1.0
    requires i + 1 < |a|
    ensures CumProd(a)[i + 1] <= CumProd(a)[i]
  {
    var c := CumProd(a);
    var before, after, factor := c[i], c[i + 1], a[i + 1];
    CumProdWeakBounds(a, i);
    CumProdStep(a, i);
    WeakShrink(before, factor);
    ProductAtMost(after, before, factor);
  }

  lemma ProductAtMost(p: real, x: real, f: real)
    requires p == x * f && x * f <= x
    ensures p <= x
  {
  }

  lemma WeakShrink(x: real, f: real)
    requires 0.0 < x <= 1.0 && 0.0 < f <= 1.0
    ensures 0.0 < x * f <= x
  {
  }


  // ----------------------------------------------------------------- buffers

  /** The registered buffers, all indexed by diffusion step. */
  datatype Schedule = Schedule(
    betas: seq<real>,
    alphas: seq<real>,
    alphasCumprod: seq<real>,
    sqrtAlphasCumprod: seq<real>,
    sqrtOneMinusAlphasCumprod: seq<real>)
  {
    /** The number of diffusion steps, `noise_steps`. */
    function Steps(): nat { |betas| }

    /** Every step index of `ts` addresses the buffers. */
    predicate StepsInRange(ts: seq<nat>) {
      forall k :: 0 <= k < |ts| ==> ts[k] < Steps()
    }

    predicate WellFormed() {
      && |alphas| == |betas|
      && |alphasCumprod| == |betas|
      && |sqrtAlphasCumprod| == |betas|
      && |sqrtOneMinusAlphasCumprod| == |betas|
    }
  }

  /**
   * The buffers derived once from the betas: `alphas = 1 - betas`, their
   * running product, and its two square-root buffers.
   */
  function DeriveSchedule(betas: seq<real>, sqrt: real -> real): (s: Schedule)
    ensures s.WellFormed() && s.betas == betas
    ensures forall i :: 0 <= i < |betas| ==> s.alphas[i] == 1.0 - betas[i]
    ensures forall i :: 0 <= i < |betas| ==> s.alphasCumprod[i] == Prod(s.alphas[..i + 1])
    ensures forall i :: 0 <= i < |betas| ==> s.sqrtAlphasCumprod[i] == sqrt(s.alphasCumprod[i])
    ensures forall i :: 0 <= i < |betas| ==>
      s.sqrtOneMinusAlphasCumprod[i] == sqrt(1.0 - s.alphasCumprod[i])
  {
    var alphas := seq(|betas|, i requires 0 <= i < |betas| => 1.0 - betas[i]);
    var cumprod := CumProd(alphas);
    Schedule(
      betas,
      alphas,
      cumprod,
      seq(|betas|, i requires 0 <= i < |betas| => sqrt(cumprod[i])),
      seq(|betas|, i requires 0 <= i < |betas| => sqrt(1.0 - cumprod[i])))
  }

  /**
   * The relations between the buffers, stated buffer by buffer: `alphas` is
   * `1 - betas`, `alphas_cumprod` their running product, and the two
   * square-root buffers are `sqrt` of `alphas_cumprod` and of its complement.
   */
  ghost predicate DerivedWith(s: Schedule, sqrt: real -> real) {
    && s.WellFormed()
    && (forall i :: 0 <= i < s.Steps() ==> s.alphas[i] == 1.0 - s.betas[i])
    && s.alphasCumprod == CumProd(s.alphas)
    && (forall i :: 0 <= i < s.Steps() ==>
          && s.sqrtAlphasCumprod[i] == sqrt(s.alphasCumprod[i])
          && s.sqrtOneMinusAlphasCumprod[i] == sqrt(1.0 - s.alphasCumprod[i]))
  }

  /** A schedule satisfies the buffer relations exactly when it is the one derived from its betas. */
  lemma DerivedWithIsDerive(s: Schedule, sqrt: real -> real)
    ensures DerivedWith(s, sqrt) <==> s == DeriveSchedule(s.betas, sqrt)
  {
    var d := DeriveSchedule(s.betas, sqrt);
    if DerivedWith(s, sqrt) {
      assert s.alphas == d.alphas;
      assert s.alphasCumprod == d.alphasCumprod;
      assert s.sqrtAlphasCumprod == d.sqrtAlphasCumprod;
      assert s.sqrtOneMinusAlphasCumprod == d.sqrtOneMinusAlphasCumprod;
    }
  }

  /**
   * Betas strictly inside (0, 1) give alphas inside (0, 1) and a cumulative
   * product that stays inside (0, 1) and strictly decreases.
   */
  lemma DerivedScheduleInvariant(betas: seq<real>, sqrt: real -> real)
    requires forall i :: 0 <= i < |betas| ==> 0.0 < betas[i] < 1.0
    ensures var s := DeriveSchedule(betas, sqrt);
      && (forall i :: 0 <= i < |betas| ==> 0.0 < s.alphas[i] < 1.0)
      && (forall i :: 0 <= i < |betas| ==> 0.0 < s.alphasCumprod[i] < 1.0)
      && (forall i :: 0 <= i < |betas| - 1 ==> s.alphasCumprod[i + 1] < s.alphasCumprod[i])
  {
    var s := DeriveSchedule(betas, sqrt);
    CumProdDecreasing(s.alphas);
  }

  /**
   * With a square root that is exact on [0, 1], the signal and noise
   * coefficients of the forward process have squares summing to one.
   */
  lemma SignalNoiseSumToOne(betas: seq<real>, sqrt: real -> real, t: nat)
    requires forall i :: 0 <= i < |betas| ==> 0.0 < betas[i] < 1.0
    requires forall v :: 0.0 <= v <= 1.0 ==> sqrt(v) * sqrt(v) == v
    requires t < |betas|
    ensures var s := DeriveSchedule(betas, sqrt);
      s.sqrtAlphasCumprod[t] * s.sqrtAlphasCumprod[t]
        + s.sqrtOneMinusAlphasCumprod[t] * s.sqrtOneMinusAlphasCumprod[t] == 1.0
  {
    DerivedScheduleInvariant(betas, sqrt);
  }

  /**
   * The linear schedule with one step or more than 20 steps satisfies the
   * buffer invariant; with 2 to 20 steps its last beta is at least 1.
   */
  lemma {:induction false} LinearScheduleInvariant(steps: nat, sqrt: real -> real)
    requires steps == 1 || steps > 20
    ensures var s := DeriveSchedule(LinearBetaSchedule(steps), sqrt);
      && (forall i :: 0 <= i < steps ==> 0.0 < s.alphasCumprod[i] < 1.0)
      && (forall i :: 0 <= i < steps - 1 ==> s.alphasCumprod[i + 1] < s.alphasCumprod[i])
  {
    LinearBetasInUnitInterval(steps);
    DerivedScheduleInvariant(LinearBetaSchedule(steps), sqrt);
  }

  /**
   * Construction of the schedule buffers from the configuration. The
   * cosine samples are only read for the cosine schedule.
   */
  function BuildSchedule(name: string, steps: nat, cosineSamples: seq<real>, sqrt: real -> real)
    : (r: Result<Schedule, ScheduleError>)
    requires SelectScheduler(name) == CosineSchedule ==>
      && |cosineSamples| == steps + 1
      && cosineSamples[0] > 0.0
      && forall i :: 0 <= i < steps ==> cosineSamples[i] > 0.0
    ensures r.Failure? <==> SelectScheduler(name) == LinearSchedule && steps == 0
    ensures r.Success? ==> r.value.WellFormed() && r.value.Steps() == steps
    ensures r.Success? ==> r.value == DeriveSchedule(r.value.betas, sqrt)
    ensures r.Success? && SelectScheduler(name) == LinearSchedule ==>
      r.value.betas == LinearBetaSchedule(steps)
    ensures r.Success? && SelectScheduler(name) == CosineSchedule ==>
      r.value.betas == CosineBetasFromSamples(cosineSamples)
    ensures r.Success? && SelectScheduler(name) == CosineSchedule ==>
      forall i :: 0 <= i < steps ==> 0.0 <= r.value.betas[i] <= 0.999
  {
    match SelectScheduler(name)
    case LinearSchedule =>
      if steps == 0 then Failure(DivisionByZeroSteps)
      else Success(DeriveSchedule(LinearBetaSchedule(steps), sqrt))
    case CosineSchedule =>
      Success(DeriveSchedule(CosineBetasFromSamples(cosineSamples), sqrt))
  }

  /**
   * The buffers of a built schedule: `alphas_cumprod` stays in (0, 1] and
   * never increases for the cosine schedule, whose clipped betas may be 0,
   * and stays in (0, 1) and strictly decreases for the linear schedule with
   * 1 or more than 20 steps.
   */
  lemma BuildScheduleInvariant(name: string, steps: nat, cosineSamples: seq<real>, sqrt: real -> real)
    requires SelectScheduler(name) == CosineSchedule ==>
      && |cosineSamples| == steps + 1
      && cosineSamples[0] > 0.0
      && forall i :: 0 <= i < steps ==> cosineSamples[i] > 0.0
    requires SelectScheduler(name) == LinearSchedule ==> steps == 1 || steps > 20
    ensures BuildSchedule(name, steps, cosineSamples, sqrt).Success?
    ensures var s := BuildSchedule(name, steps, cosineSamples, sqrt).value;
      && (forall i :: 0 <= i < steps ==> 0.0 < s.alphasCumprod[i] <= 1.0)
      && (forall i :: 0 <= i < steps - 1 ==> s.alphasCumprod[i + 1] <= s.alphasCumprod[i])
    ensures SelectScheduler(name) == LinearSchedule ==>
      var s := BuildSchedule(name, steps, cosineSamples, sqrt).value;
      && (forall i :: 0 <= i < steps ==> 0.0 < s.alphasCumprod[i] < 1.0)
      && (forall i :: 0 <= i < steps - 1 ==> s.alphasCumprod[i + 1] < s.alphasCumprod[i])
  {
    var s := BuildSchedule(name, steps, cosineSamples, sqrt).value;
    if SelectScheduler(name) == LinearSchedule {
      LinearScheduleInvariant(steps, sqrt);
    } else {
      assert forall i :: 0 <= i < steps ==> 0.0 < s.alphas[i] <= 1.0;
      CumProdNonIncreasing(s.alphas);
    }
  }
}
