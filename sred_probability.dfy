// The SRED decision arithmetic: the occupancy tier `CalculatePSred`, the
// presence-scaled drop probabilities `CalculateSimplePZap` and
// `CalculateFullPZap`, and the hit-frequency moving average.
module SredProbability {
  import opened SredTypes

  // ---------------------------------------------------------------------
  // Occupancy tier
  // ---------------------------------------------------------------------

  /** `CalculatePSred` as written: occupancy and limit are both scaled by 536
      and compared with integer thirds and sixths of the scaled limit. The
      scaling and the integer division never change the tier: the result is
      the unscaled reference tier for every occupancy. */
  function PSred(q: nat, limit: nat, pMax: real): (r: real)
    ensures r == TierReference(q, limit, pMax)
  {
    ScaledThreshold(q, limit, 3);
    ScaledThreshold(q, limit, 6);
    assert q * 536 < limit * 536 <==> q < limit;
    var len := q * 536;
    var lim := limit * 536;
    var lim3 := lim / 3;
    var lim6 := lim / 6;
    if len >= lim3 && len < lim then pMax
    else if len >= lim6 && len < lim3 then pMax / 4.0
    else if len >= 0 && len < lim6 then 0.0
    else 1.0
  }

  /** Reference tier, stated without scaling or integer division:
      full queue, at least a third, at least a sixth, below a sixth. */
  function TierReference(q: nat, limit: nat, pMax: real): real
  {
    if q >= limit then 1.0
    else if 3 * q >= limit then pMax
    else if 6 * q >= limit then pMax / 4.0
    else 0.0
  }

  /** Comparing `536 q` with the truncated `536 L / d` is the same as
      comparing `d q` with `L`, for the divisors 3 and 6. */
  lemma ScaledThreshold(q: nat, limit: nat, d: nat)
    requires d == 3 || d == 6
    ensures q * 536 >= (limit * 536) / d <==> d * q >= limit
  {
    // With the divisor fixed, every product is by a constant.
    if d == 3 {
      assert limit * 536 == 3 * ((limit * 536) / 3) + (limit * 536) % 3;
    } else {
      assert limit * 536 == 6 * ((limit * 536) / 6) + (limit * 536) % 6;
    }
  }

  /** Each tier of `CalculatePSred` is selected exactly on its occupancy band. */
  lemma PSredTiers(q: nat, limit: nat, pMax: real)
    ensures q >= limit ==> PSred(q, limit, pMax) == 1.0
    ensures q < limit && 3 * q >= limit ==> PSred(q, limit, pMax) == pMax
    ensures 3 * q < limit && 6 * q >= limit ==> PSred(q, limit, pMax) == pMax / 4.0
    ensures 6 * q < limit ==> PSred(q, limit, pMax) == 0.0
  {
  }

  /** With a maximum drop probability in [0,1] the tier lies in [0,1] and
      never falls as the queue grows. */
  lemma PSredMonotone(q1: nat, q2: nat, limit: nat, pMax: real)
    requires 0.0 <= pMax <= 1.0
    requires q1 <= q2
    ensures 0.0 <= PSred(q1, limit, pMax) <= PSred(q2, limit, pMax) <= 1.0
  {
  }

  // ---------------------------------------------------------------------
  // Drop probabilities
  // ---------------------------------------------------------------------

  /** `CalculateSimplePZap`: `pSred` times `1 / (256 h)^2` clamped to 1. The
      double division by zero at `h == 0` yields +inf, which the clamp turns
      into 1; the same happens here because `(256 h)^2 <= 1` takes the
      clamp branch. A non-negative tier is never increased. */
  function SimplePZap(pSred: real, h: real): (r: real)
    ensures 0.0 <= pSred ==> 0.0 <= r <= pSred
  {
    PresenceFactorInUnit(h);
    ScaleByFraction(pSred, PresenceFactor(h));
    pSred * PresenceFactor(h)
  }

  /** The factor `1 / (256 h)^2`, clamped to at most 1. */
  function PresenceFactor(h: real): real
  {
    var f := 256.0 * h;
    ClampedInverse(f * f)
  }

  /** The simple drop probability never exceeds the tier, and equals it while
      the hit frequency is at most 1/256 (in particular at 0). */
  lemma SimplePZapBounds(pSred: real, h: real)
    requires 0.0 <= pSred
    ensures 0.0 <= SimplePZap(pSred, h) <= pSred
    ensures 0.0 <= h && 256.0 * h <= 1.0 ==> SimplePZap(pSred, h) == pSred
  {
    var f := 256.0 * h;
    if 0.0 <= h && 256.0 * h <= 1.0 {
      MulMono(f, f, 1.0);
      assert f * f <= 1.0;
      assert ClampedInverse(f * f) == 1.0;
    }
  }

  /** A flow that is seen more often is never given a larger simple drop
      probability: the factor falls as the hit frequency rises. */
  lemma SimplePZapAntitone(pSred: real, h1: real, h2: real)
    requires 0.0 <= pSred
    requires 0.0 <= h1 <= h2
    ensures SimplePZap(pSred, h2) <= SimplePZap(pSred, h1)
  {
    PresenceFactorAntitone(h1, h2);
    MulMono(pSred, PresenceFactor(h2), PresenceFactor(h1));
    assert SimplePZap(pSred, h1) == pSred * PresenceFactor(h1);
    assert SimplePZap(pSred, h2) == pSred * PresenceFactor(h2);
  }

  /** The presence factor is a fraction in (0, 1]. */
  lemma PresenceFactorInUnit(h: real)
    ensures 0.0 < PresenceFactor(h) <= 1.0
  {
    var f := 256.0 * h;
    ClampedInverseInUnit(f * f);
  }

  /** The presence factor falls as the hit frequency rises. */
  lemma PresenceFactorAntitone(h1: real, h2: real)
    requires 0.0 <= h1 <= h2
    ensures PresenceFactor(h2) <= PresenceFactor(h1)
  {
    var f1 := 256.0 * h1;
    var f2 := 256.0 * h2;
    SquareMono(f1, f2);
    ClampedInverseAntitone(f1 * f1, f2 * f2);
  }

  /** The factor of `CalculateSimplePZap`: `1 / sq` clamped to at most 1. */
  function ClampedInverse(sq: real): real
  {
    if sq <= 1.0 then 1.0 else 1.0 / sq
  }

  /** The clamped factor is a fraction in (0, 1]. */
  lemma ClampedInverseInUnit(sq: real)
    ensures 0.0 < ClampedInverse(sq) <= 1.0
  {
    if sq > 1.0 {
      assert 0.0 < 1.0 / sq < 1.0;
    }
  }

  lemma ScaleByFraction(a: real, f: real)
    requires 0.0 < f <= 1.0
    ensures 0.0 <= a ==> 0.0 <= a * f <= a
  {
    if 0.0 <= a {
      MulMono(a, f, 1.0);
    }
  }

  lemma ClampedInverseAntitone(s1: real, s2: real)
    requires 0.0 <= s1 <= s2
    ensures ClampedInverse(s2) <= ClampedInverse(s1)
  {
    if s2 > 1.0 && s1 > 1.0 {
      assert 1.0 / s2 <= 1.0 / s1 by {
        MulMono(1.0 / s2, s1, s2);
        assert s1 * (1.0 / s2) <= 1.0;
        MulMono(1.0 / s1, s1 * (1.0 / s2), 1.0);
      }
    }
  }

  lemma MulMono(a: real, x: real, y: real)
    requires 0.0 <= a
    requires x <= y
    ensures a * x <= a * y
  {
    assert a * y - a * x == a * (y - x);
  }

  /** The product of two numbers in [0,1] lies in [0,1] below both. */
  lemma ProductOfFractions(a: real, b: real)
    requires 0.0 <= a <= 1.0 && 0.0 <= b <= 1.0
    ensures 0.0 <= a * b <= a && a * b <= b
  {
    assert a - a * b == a * (1.0 - b);
    assert b - a * b == b * (1.0 - a);
  }

  lemma SquareMono(x: real, y: real)
    requires 0.0 <= x <= y
    ensures x * x <= y * y
  {
    MulMono(x, x, y);
    MulMono(y, x, y);
  }

  /** IEEE quotient `hit / h` of an integer by a double. */
  function Divide(hit: int, h: real): Extended
  {
    if h != 0.0 then Finite(hit as real / h)
    else if hit > 0 then PosInf
    else if hit < 0 then NegInf
    else NaN
  }

  /** IEEE sum `1 + e`. */
  function OnePlus(e: Extended): Extended
  {
    match e
    case Finite(v) => Finite(1.0 + v)
    case PosInf => PosInf
    case NegInf => NegInf
    case NaN => NaN
  }

  /** IEEE product `x * e` of a finite double and an extended one. */
  function Scale(x: real, e: Extended): Extended
  {
    match e
    case Finite(v) => Finite(x * v)
    case PosInf => if x > 0.0 then PosInf else if x < 0.0 then NegInf else NaN
    case NegInf => if x > 0.0 then NegInf else if x < 0.0 then PosInf else NaN
    case NaN => NaN
  }

  /** `CalculateFullPZap` as written: `simple * (1 + hit / h)` in double
      arithmetic, including the infinities and NaN that `h == 0` produces:
      the value is finite exactly when `h != 0`, and a miss at `h == 0`
      gives NaN. */
  function FullPZapAsWritten(pSred: real, h: real, hit: int): (r: Extended)
    ensures h != 0.0 ==> r.Finite?
    ensures h == 0.0 && hit == 0 ==> r == NaN
    ensures h == 0.0 && hit > 0 && pSred > 0.0 ==> r == PosInf
    ensures h == 0.0 && hit != 0 && pSred == 0.0 ==> r == NaN
  {
    Scale(SimplePZap(pSred, h), OnePlus(Divide(hit, h)))
  }

  /** Full SRED drop probability, corrected: a miss (`hit == 0`) adds no
      penalty, so the value is the simple one even when `h == 0`; otherwise
      it is the double expression of the source. Away from `h == 0` it
      agrees with the written value for every sample outcome, and a miss
      always gives a finite value no larger than a non-negative tier. */
  function FullPZap(pSred: real, h: real, hit: int): (r: Extended)
    ensures h != 0.0 ==> r == FullPZapAsWritten(pSred, h, hit)
    ensures hit == 0 ==> r.Finite? && (0.0 <= pSred ==> 0.0 <= r.value <= pSred)
  {
    if hit == 0 then Finite(SimplePZap(pSred, h)) else FullPZapAsWritten(pSred, h, hit)
  }

  /** At `h == 0` a miss makes the written full drop probability NaN
      (0/0), and `u <= NaN` is false, so no draw ever drops the packet; the
      corrected value is the simple one, which drops when `u <= pSred`. */
  lemma FullPZapNaNOnMissAtZero(pSred: real, u: real)
    ensures FullPZapAsWritten(pSred, 0.0, 0) == NaN
    ensures !AtOrBelow(u, FullPZapAsWritten(pSred, 0.0, 0))
    ensures AtOrBelow(u, FullPZap(pSred, 0.0, 0)) <==> u <= pSred
  {
    assert SimplePZap(pSred, 0.0) == pSred;
  }

  /** A concrete input that shows the difference: tier 0.15 (the default
      maximum drop probability, queue at a third of its limit), `h == 0`, a
      miss, and the drop draw 0.1. */
  lemma FullPZapNaNWitness()
    ensures !AtOrBelow(0.1, FullPZapAsWritten(0.15, 0.0, 0))
    ensures AtOrBelow(0.1, FullPZap(0.15, 0.0, 0))
  {
    FullPZapNaNOnMissAtZero(0.15, 0.1);
  }

  /** Full SRED adds the penalty `simple / h` to a hit: with `h > 0` the full
      drop probability is finite, at least the simple one, and strictly
      larger whenever the simple one is positive. */
  lemma FullPZapAtLeastSimple(pSred: real, h: real)
    requires 0.0 <= pSred
    requires 0.0 < h
    ensures FullPZap(pSred, h, 1).Finite?
    ensures FullPZap(pSred, h, 1).value >= SimplePZap(pSred, h)
    ensures SimplePZap(pSred, h) > 0.0 ==> FullPZap(pSred, h, 1).value > SimplePZap(pSred, h)
  {
    var s := SimplePZap(pSred, h);
    SimplePZapBounds(pSred, h);
    assert 1.0 / h > 0.0;
    assert s * (1.0 + 1.0 / h) == s + s * (1.0 / h);
    assert s * (1.0 / h) >= 0.0;
    if s > 0.0 {
      assert s * (1.0 / h) > 0.0;
    }
  }

  // ---------------------------------------------------------------------
  // Hit frequency
  // ---------------------------------------------------------------------

  /** Smoothing weight of the hit-frequency average (`m_pOverwrite / M`):
      an overwrite probability in [0,1] gives a weight in [0, 1/M], from
      which the probability is recovered. */
  function Alpha(pOverwrite: real): (r: real)
    ensures 0.0 <= pOverwrite <= 1.0 ==> 0.0 <= r <= 1.0 / M as real
    ensures r * M as real == pOverwrite
  {
    pOverwrite / M as real
  }

  /** The moving-average update `(1 - alpha) h + alpha hit`: a hit shrinks
      the distance to 1 by the factor `1 - alpha`, a miss shrinks the value
      itself by that factor. */
  function HitUpdate(h: real, alpha: real, hit: int): (r: real)
    ensures hit == 1 ==> 1.0 - r == (1.0 - alpha) * (1.0 - h)
    ensures hit == 0 ==> r == (1.0 - alpha) * h
  {
    (1.0 - alpha) * h + alpha * hit as real
  }

  /** The average stays a probability, and a hit lifts it to at least
      `alpha` (so strictly above 0 when `alpha > 0`). */
  lemma HitUpdateBounds(h: real, alpha: real, hit: int)
    requires 0.0 <= alpha <= 1.0
    requires 0.0 <= h <= 1.0
    requires hit == 0 || hit == 1
    ensures 0.0 <= HitUpdate(h, alpha, hit) <= 1.0
    ensures hit == 1 ==> HitUpdate(h, alpha, hit) >= alpha
    ensures hit == 0 ==> HitUpdate(h, alpha, hit) <= h
  {
    var k := (1.0 - alpha) * h;
    ProductOfFractions(1.0 - alpha, h);
    assert k <= 1.0 - alpha;
    if hit == 1 {
      assert HitUpdate(h, alpha, hit) == k + alpha;
      assert k + alpha <= 1.0;
    } else {
      assert HitUpdate(h, alpha, hit) == k;
      assert k <= h;
    }
  }
}
