/**
  The mouse-wheel zoom of the viewer in src/main.js: each wheel event scales
  the zoom by `1.1` (wheel up) or `0.9` (wheel down) and clamps the result
  into `[0.2, 5]`.
 */
module View {
  const MinZoom: real := 0.2
  const MaxZoom: real := 5.0

  /** `Math.sign`. */
  function Sign(v: real): (s: real)
    ensures s == 1.0 || s == 0.0 || s == -1.0
    ensures s * v >= 0.0 && (s == 0.0 <==> v == 0.0)
  {
    if v > 0.0 then 1.0 else if v < 0.0 then -1.0 else 0.0
  }

  /** `THREE.MathUtils.clamp(v, lo, hi)`: `max(lo, min(hi, v))`. */
  function Clamp(v: real, lo: real, hi: real): (r: real)
    requires lo <= hi
    ensures lo <= r <= hi
    ensures lo <= v <= hi ==> r == v
    ensures v < lo ==> r == lo
    ensures v > hi ==> r == hi
  {
    var m := if hi < v then hi else v;
    if lo > m then lo else m
  }

  /** The zoom after one wheel event with vertical delta `deltaY`. */
  function WheelZoom(zoom: real, deltaY: real): (z: real)
    ensures MinZoom <= z <= MaxZoom
  {
    var delta := -Sign(deltaY) * 0.1;
    Clamp(zoom * (1.0 + delta), MinZoom, MaxZoom)
  }

  /**
    Scrolling down never zooms in, scrolling up never zooms out, and a
    zero delta leaves an in-range zoom alone.
   */
  lemma WheelDirection(zoom: real, deltaY: real)
    requires MinZoom <= zoom <= MaxZoom
    ensures deltaY > 0.0 ==> WheelZoom(zoom, deltaY) <= zoom
    ensures deltaY < 0.0 ==> WheelZoom(zoom, deltaY) >= zoom
    ensures deltaY == 0.0 ==> WheelZoom(zoom, deltaY) == zoom
  {
  }

  /**
    Away from the limits each wheel step scales the zoom by exactly `0.9`
    or `1.1`.
   */
  lemma WheelStep(zoom: real, deltaY: real)
    requires deltaY != 0.0
    requires MinZoom <= zoom * 0.9 && zoom * 1.1 <= MaxZoom
    ensures WheelZoom(zoom, deltaY) == if deltaY > 0.0 then zoom * 0.9 else zoom * 1.1
  {
  }
}
