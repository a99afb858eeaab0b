/**
  The decision part of `chooseAutoEffect` in src/main.js: from the image
  statistics `(contrast, edge)` pick one of the four shader effects and an
  intensity for it. The rules are tried in a fixed order and the first one
  that matches decides.
 */
module AutoEffect {
  import opened ImageAnalysis

  /** The shader effects, as the effect selector lists them. */
  datatype Effect = None | LumaDisplacement | EdgePulse | RgbWarp

  /** The selector index (and `uEffect` uniform) of an effect. */
  function EffectIndex(e: Effect): (i: nat)
    ensures i < 4
    ensures i == 0 <==> e == None
  {
    match e
    case None => 0
    case LumaDisplacement => 1
    case EdgePulse => 2
    case RgbWarp => 3
  }

  /** The effect at a selector index. */
  function EffectAt(i: nat): (e: Effect)
    requires i < 4
    ensures EffectIndex(e) == i
  {
    if i == 0 then None else if i == 1 then LumaDisplacement else if i == 2 then EdgePulse else RgbWarp
  }

  datatype Choice = Choice(effect: Effect, intensity: real)

  function Min(a: real, b: real): (m: real)
    ensures m <= a && m <= b && (m == a || m == b)
  {
    if a <= b then a else b
  }

  /**
    The rule chain: strong edges give the edge pulse, otherwise high contrast
    gives the RGB warp, low contrast the luma displacement, and anything in
    between no effect. The intensity formula belongs to the chosen branch.
   */
  function Choose(contrast: real, edge: real): (c: Choice)
    ensures c.effect == EdgePulse ==> 0.9 < c.intensity <= 1.0
    ensures c.effect == RgbWarp ==> 0.61 < c.intensity
    ensures c.effect == LumaDisplacement ==> c.intensity > 0.6 && (contrast >= 0.0 ==> c.intensity <= 1.0)
    ensures c.effect == None ==> c.intensity == 0.8
  {
    if edge > 0.18 then Choice(EdgePulse, Min(edge * 5.0, 1.0))
    else if contrast > 0.35 then Choice(RgbWarp, 0.4 + contrast * 0.6)
    else if contrast < 0.2 then Choice(LumaDisplacement, 0.6 + (0.2 - contrast) * 2.0)
    else Choice(None, 0.8)
  }

  /**
    Each effect is chosen on exactly one region of the `(contrast, edge)`
    plane; the regions cover the plane and do not overlap.
   */
  lemma DecisionRegions(contrast: real, edge: real)
    ensures Choose(contrast, edge).effect == EdgePulse <==> edge > 0.18
    ensures Choose(contrast, edge).effect == RgbWarp <==> edge <= 0.18 && contrast > 0.35
    ensures Choose(contrast, edge).effect == LumaDisplacement <==> edge <= 0.18 && contrast < 0.2
    ensures Choose(contrast, edge).effect == None <==> edge <= 0.18 && 0.2 <= contrast <= 0.35
  {
  }

  /**
    More edges never take the edge pulse away, and never lower its
    intensity.
   */
  lemma EdgePulseMonotone(contrast: real, edge1: real, edge2: real)
    requires edge1 <= edge2 && Choose(contrast, edge1).effect == EdgePulse
    ensures Choose(contrast, edge2).effect == EdgePulse
    ensures Choose(contrast, edge1).intensity <= Choose(contrast, edge2).intensity
  {
  }

  /**
    Below the edge threshold the luma displacement weakens and the RGB warp
    strengthens as the contrast grows.
   */
  lemma ContrastMonotone(c1: real, c2: real, edge: real)
    requires c1 <= c2
    ensures Choose(c1, edge).effect == LumaDisplacement && Choose(c2, edge).effect == LumaDisplacement ==>
      Choose(c1, edge).intensity >= Choose(c2, edge).intensity
    ensures Choose(c1, edge).effect == RgbWarp && Choose(c2, edge).effect == RgbWarp ==>
      Choose(c1, edge).intensity <= Choose(c2, edge).intensity
  {
  }

  /**
    The effect as the model's statistics determine it: the contrast
    thresholds `0.35` and `0.2` squared.
   */
  function EffectOfStats(s: ImageStats): Effect
  {
    if s.edge > 0.18 then EdgePulse
    else if s.contrastSquared > 0.35 * 0.35 then RgbWarp
    else if s.contrastSquared < 0.2 * 0.2 then LumaDisplacement
    else None
  }

  /**
    Comparing a contrast with a threshold and comparing its square with the
    squared threshold agree, so the effect can be read off the squared
    contrast.
   */
  lemma EffectFromSquare(contrast: real, s: ImageStats)
    requires contrast >= 0.0 && contrast * contrast == s.contrastSquared
    ensures Choose(contrast, s.edge).effect == EffectOfStats(s)
  {
    if contrast > 0.35 {
      SquareAbove(contrast, 0.35);
    } else {
      SquareAtMost(contrast, 0.35);
      if contrast < 0.2 {
        SquareBelowStrict(contrast, 0.2);
      } else {
        SquareAtLeast(contrast, 0.2);
      }
    }
  }

  lemma SquareAbove(a: real, t: real)
    requires 0.0 <= t < a
    ensures a * a > t * t
  {
    assert a * a - t * t == (a - t) * (a + t);
    PositiveProduct(a - t, a + t);
  }

  lemma SquareAtMost(a: real, t: real)
    requires 0.0 <= a <= t
    ensures a * a <= t * t
  {
    assert t * t - a * a == (t - a) * (t + a);
  }

  lemma SquareBelowStrict(a: real, t: real)
    requires 0.0 <= a < t
    ensures a * a < t * t
  {
    assert t * t - a * a == (t - a) * (t + a);
    PositiveProduct(t - a, t + a);
  }

  lemma PositiveProduct(p: real, q: real)
    requires p > 0.0 && q > 0.0
    ensures p * q > 0.0
  {
  }

  lemma SquareAtLeast(a: real, t: real)
    requires 0.0 <= t <= a
    ensures a * a >= t * t
  {
    assert a * a - t * t == (a - t) * (a + t);
  }

  /**
    For any byte image the analysis samples, the chosen intensity lies in
    `(0.6, 1]`, whichever branch decides.
   */
  lemma IntensityInRange(data: SampleBuffer, contrast: real)
    requires Bytes(data)
    requires contrast >= 0.0 && contrast * contrast == StatsOf(data).contrastSquared
    ensures 0.6 < Choose(contrast, StatsOf(data).edge).intensity <= 1.0
  {
    ContrastAtMostHalf(data);
    if contrast > 0.5 {
      SquareAbove(contrast, 0.5);
    }
  }
}
