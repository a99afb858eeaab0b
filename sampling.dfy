/**
  The sampling loop of `generateFractalFromImage` in src/main.js: every
  point of the Hilbert curve, a pair in the unit square, is mapped to a
  pixel of the image, whose colour it takes, and to a vertex position in
  the `[-1, 1]` quad.
 */
module FractalSampling {
  /** `Math.round`: the nearest integer, halves rounded up. */
  function Round(v: real): (r: int)
    ensures r as real - 0.5 <= v < r as real + 0.5
  {
    (v + 0.5).Floor
  }

  /** `Math.min(hi, Math.max(0, v))`. */
  function Clamp(v: int, hi: int): (r: int)
    requires hi >= 0
    ensures 0 <= r <= hi
    ensures v < 0 ==> r == 0
    ensures v > hi ==> r == hi
    ensures 0 <= v <= hi ==> r == v
  {
    var m := if v < 0 then 0 else v;
    if hi < m then hi else m
  }

  /**
    The pixel column (or row) for curve coordinate `p` in an image `size`
    pixels wide (or high): `p * (size - 1)` rounded and clamped.
   */
  function SampleCoord(p: real, size: int): (c: int)
    requires size >= 1
    ensures 0 <= c < size
  {
    Clamp(Round(p * (size - 1) as real), size - 1)
  }

  /**
    For coordinates in the unit square the clamp never acts: the rounded
    value already lies in `[0, size - 1]`.
   */
  lemma ClampUnneededInUnitSquare(p: real, size: int)
    requires size >= 1 && 0.0 <= p <= 1.0
    ensures SampleCoord(p, size) == Round(p * (size - 1) as real)
  {
    var m := (size - 1) as real;
    assert 0.0 <= p * m <= m by {
      assert m - p * m == (1.0 - p) * m;
    }
  }

  /**
    The offset of the red byte of the pixel that curve point `p` samples;
    the red, green and blue bytes all lie inside the `width * height * 4`
    RGBA buffer.
   */
  function SampleIndex(p: (real, real), width: int, height: int): (idx: int)
    requires width >= 1 && height >= 1
    ensures 0 <= idx && idx + 2 < width * height * 4
  {
    var x := SampleCoord(p.0, width);
    var y := SampleCoord(p.1, height);
    RowMajorBound(x, y, width, height);
    (y * width + x) * 4
  }

  lemma RowMajorBound(x: int, y: int, width: int, height: int)
    requires 0 <= x < width && 0 <= y < height
    ensures 0 <= y * width + x < width * height
  {
    assert y * width + x < (y + 1) * width;
    assert (y + 1) * width <= height * width;
  }

  /** The vertex of curve point `p`: the unit square centred and scaled onto `[-1, 1]`. */
  function Position(p: (real, real)): (real, real, real)
  {
    ((p.0 - 0.5) * 2.0, (p.1 - 0.5) * 2.0, 0.0)
  }

  /** Curve points in the unit square land in the `[-1, 1]` quad, and no two share a vertex. */
  lemma PositionInQuad(p: (real, real))
    requires 0.0 <= p.0 <= 1.0 && 0.0 <= p.1 <= 1.0
    ensures var v := Position(p); -1.0 <= v.0 <= 1.0 && -1.0 <= v.1 <= 1.0 && v.2 == 0.0
  {
  }

  lemma PositionInjective(p: (real, real), q: (real, real))
    requires Position(p) == Position(q)
    ensures p == q
  {
    assert p.0 == Position(p).0 / 2.0 + 0.5;
    assert q.0 == Position(q).0 / 2.0 + 0.5;
    assert p.1 == Position(p).1 / 2.0 + 0.5;
    assert q.1 == Position(q).1 / 2.0 + 0.5;
  }

  /** A colour channel: the byte at `i` divided by 255. */
  function Channel(img: seq<int>, i: int): real
    requires 0 <= i < |img|
  {
    img[i] as real / 255.0
  }

  /** Channels of bytes lie in `[0, 1]`. */
  lemma ChannelInUnitRange(img: seq<int>, i: int)
    requires 0 <= i < |img| && 0 <= img[i] <= 255
    ensures 0.0 <= Channel(img, i) <= 1.0
  {
  }

  /** The `positions` buffer for a list of curve points: three entries per point. */
  function Vertices(points: seq<(real, real)>): (v: seq<real>)
    ensures |v| == 3 * |points|
  {
    if points == [] then []
    else
      var p := Position(points[|points| - 1]);
      Vertices(points[..|points| - 1]) + [p.0, p.1, p.2]
  }

  /** The `colors` buffer for a list of curve points: the sampled pixel's red, green and blue. */
  function Colours(points: seq<(real, real)>, img: seq<int>, width: int, height: int): (c: seq<real>)
    requires width >= 1 && height >= 1 && |img| == width * height * 4
    ensures |c| == 3 * |points|
  {
    if points == [] then []
    else
      var idx := SampleIndex(points[|points| - 1], width, height);
      Colours(points[..|points| - 1], img, width, height) + [Channel(img, idx), Channel(img, idx + 1), Channel(img, idx + 2)]
  }

  /** Entries `3i`, `3i + 1`, `3i + 2` of the `positions` buffer are the vertex of point `i`. */
  lemma {:induction false} VerticesAt(points: seq<(real, real)>, i: int)
    requires 0 <= i < |points|
    ensures Vertices(points)[3 * i] == Position(points[i]).0
    ensures Vertices(points)[3 * i + 1] == Position(points[i]).1
    ensures Vertices(points)[3 * i + 2] == 0.0
  {
    if i < |points| - 1 {
      var prefix := points[..|points| - 1];
      VerticesAt(prefix, i);
      assert prefix[i] == points[i];
    }
  }

  /**
    Entries `3i`, `3i + 1`, `3i + 2` of the `colors` buffer are the red, green
    and blue channels of the pixel point `i` samples.
   */
  lemma {:induction false} ColoursAt(points: seq<(real, real)>, img: seq<int>, width: int, height: int, i: int)
    requires width >= 1 && height >= 1 && |img| == width * height * 4
    requires 0 <= i < |points|
    ensures var idx := SampleIndex(points[i], width, height);
      Colours(points, img, width, height)[3 * i] == Channel(img, idx) &&
      Colours(points, img, width, height)[3 * i + 1] == Channel(img, idx + 1) &&
      Colours(points, img, width, height)[3 * i + 2] == Channel(img, idx + 2)
  {
    if i < |points| - 1 {
      var prefix := points[..|points| - 1];
      ColoursAt(prefix, img, width, height, i);
      assert prefix[i] == points[i];
    }
  }

  /**
    The pixel lookup of one round of the loop: the clamped pixel of curve
    point `p` and its three colour channels.
   */
  method SampleColour(p: (real, real), img: seq<int>, width: int, height: int) returns (r: real, g: real, b: real)
    requires width >= 1 && height >= 1 && |img| == width * height * 4
    ensures var idx := SampleIndex(p, width, height);
      r == Channel(img, idx) && g == Channel(img, idx + 1) && b == Channel(img, idx + 2)
  {
    var x := SampleCoord(p.0, width);
    var y := SampleCoord(p.1, height);
    RowMajorBound(x, y, width, height);
    var idx := (y * width + x) * 4;
    r, g, b := img[idx] as real / 255.0, img[idx + 1] as real / 255.0, img[idx + 2] as real / 255.0;
  }

  /**
    Entries `3i`, `3i + 1`, `3i + 2` of `a` become `u`, `v`, `w`: when the
    first `3i` entries of `a` agree with `spec` and the triple is the next
    one of `spec`, afterwards the first `3i + 3` entries do.
   */
  method PutTriple(a: array<real>, i: int, u: real, v: real, w: real, ghost spec: seq<real>)
    requires 0 <= i && 3 * i + 2 < a.Length && 3 * i + 2 < |spec|
    requires forall k :: 0 <= k < 3 * i ==> a[k] == spec[k]
    requires spec[3 * i] == u && spec[3 * i + 1] == v && spec[3 * i + 2] == w
    modifies a
    ensures forall k :: 0 <= k < 3 * i + 3 ==> a[k] == spec[k]
    ensures forall k :: 3 * i + 3 <= k < a.Length ==> a[k] == old(a[k])
  {
    a[3 * i] := u;
    a[3 * i + 1] := v;
    a[3 * i + 2] := w;
  }

  /**
    The loop of `generateFractalFromImage`: writes each curve point's vertex
    into `positions` and its sampled colour into `colors`.
   */
  method SampleCurve(points: seq<(real, real)>, img: seq<int>, width: int, height: int)
    returns (positions: array<real>, colors: array<real>)
    requires width >= 1 && height >= 1 && |img| == width * height * 4
    ensures fresh(positions) && fresh(colors)
    ensures positions[..] == Vertices(points)
    ensures colors[..] == Colours(points, img, width, height)
  {
    positions := new real[|points| * 3];
    colors := new real[|points| * 3];
    ghost var vertices, colours := Vertices(points), Colours(points, img, width, height);
    var i := 0;
    while i < |points|
      invariant 0 <= i <= |points| && positions != colors
      invariant forall k :: 0 <= k < 3 * i ==> positions[k] == vertices[k]
      invariant forall k :: 0 <= k < 3 * i ==> colors[k] == colours[k]
    {
      var p := points[i];
      var r, g, b := SampleColour(p, img, width, height);
      VerticesAt(points, i);
      ColoursAt(points, img, width, height, i);
      PutTriple(positions, i, (p.0 - 0.5) * 2.0, (p.1 - 0.5) * 2.0, 0.0, vertices);
      PutTriple(colors, i, r, g, b, colours);
      i := i + 1;
    }
  }
}
