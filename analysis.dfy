/**
  `analyzeImage` in src/main.js: the image is drawn into a 128 x 128 canvas,
  every fourth pixel of every fourth row is visited, and the luma values
  seen are summed (for the mean and the variance) together with the luma
  differences to the pixel `step` to the right and `step` below (for the
  edge estimate). Results are memoised per texture.

  Luma is kept exact by scaling it by 1000: `299 r + 587 g + 114 b` is
  `1000 * (0.299 r + 0.587 g + 0.114 b)`.
 */
module ImageAnalysis {

  const SampleSize: int := 128
  const Step: int := 4
  const BufferLength: int := 128 * 128 * 4

  /** The RGBA bytes of the 128 x 128 sample canvas. */
  type SampleBuffer = s: seq<int> | |s| == BufferLength witness seq(BufferLength, i => 0)

  /** Pixels visited per row, and rows visited: `SampleSize / Step`. */
  const Visited: int := 32

  /** `luma(r, g, b)`, scaled by 1000. */
  function Luma(r: int, g: int, b: int): int
  {
    299 * r + 587 * g + 114 * b
  }

  function Abs(v: int): (a: int)
    ensures a >= 0 && (a == v || a == -v)
  {
    if v < 0 then -v else v
  }

  /** The four accumulators of the loop: `count`, `sumL`, `sumL2`, `edgeEstimate`. */
  datatype Sums = Sums(count: int, sumL: int, sumL2: int, edge: int)

  function Add(a: Sums, b: Sums): Sums
  {
    Sums(a.count + b.count, a.sumL + b.sumL, a.sumL2 + b.sumL2, a.edge + b.edge)
  }

  const Zero := Sums(0, 0, 0, 0)

  /** Luma of pixel `(x, y)`, whose red byte is at `(y * SampleSize + x) * 4`. */
  function PixelLuma(data: SampleBuffer, x: int, y: int): int
    requires 0 <= x < SampleSize && 0 <= y < SampleSize
  {
    var i := (y * SampleSize + x) * 4;
    Luma(data[i], data[i + 1], data[i + 2])
  }

  /**
    What visiting pixel `(x, y)` adds to the accumulators. The neighbour
    term is added only when both the right and the lower neighbour exist.
   */
  function Visit(data: SampleBuffer, x: int, y: int): Sums
    requires 0 <= x < SampleSize && 0 <= y < SampleSize
  {
    var l := PixelLuma(data, x, y);
    var e :=
      if x + Step < SampleSize && y + Step < SampleSize then
        Abs(l - PixelLuma(data, x + Step, y)) + Abs(l - PixelLuma(data, x, y + Step))
      else 0;
    Sums(1, l, l * l, e)
  }

  /** Accumulators over the visited pixels of row `y` left of column `x`. */
  function RowSums(data: SampleBuffer, y: int, x: int): Sums
    requires 0 <= y < SampleSize && 0 <= x <= SampleSize
  {
    if x < Step then Zero else Add(RowSums(data, y, x - Step), Visit(data, x - Step, y))
  }

  /**
    Accumulators over the visited rows above row `y`. A whole row is written
    `4 * Visited` rather than `SampleSize`: the same number, but not a
    literal, so the verifier does not unroll the row sum.
   */
  function GridSums(data: SampleBuffer, y: int): Sums
    requires 0 <= y <= SampleSize
  {
    if y < Step then Zero else Add(GridSums(data, y - Step), RowSums(data, y - Step, 4 * Visited))
  }

  /**
    One round of the inner loop: the luma `l` of pixel `(x, y)` and the edge
    term `e` it adds, which is zero unless both neighbours exist.
   */
  method VisitPixel(data: SampleBuffer, x: int, y: int) returns (l: int, e: int)
    requires 0 <= x < SampleSize && 0 <= y < SampleSize
    ensures Visit(data, x, y) == Sums(1, l, l * l, e)
  {
    var i := (y * SampleSize + x) * 4;
    l := Luma(data[i], data[i + 1], data[i + 2]);
    e := 0;
    if x + Step < SampleSize && y + Step < SampleSize {
      var ix := (y * SampleSize + (x + Step)) * 4;
      var iy := ((y + Step) * SampleSize + x) * 4;
      var lx := Luma(data[ix], data[ix + 1], data[ix + 2]);
      var ly := Luma(data[iy], data[iy + 1], data[iy + 2]);
      e := Abs(l - lx) + Abs(l - ly);
    }
  }

  /**
    The inner loop of `analyzeImage` over row `y`: visits every fourth pixel
    of the row and adds it to the accumulators `acc`.
   */
  method SampleRow(data: SampleBuffer, y: int, acc: Sums) returns (sums: Sums)
    requires 0 <= y < SampleSize
    ensures sums == Add(acc, RowSums(data, y, 4 * Visited))
  {
    var sumL, sumL2, edgeEstimate, count := acc.sumL, acc.sumL2, acc.edge, acc.count;
    var x := 0;
    ghost var c := 0;
    while x < SampleSize
      invariant 0 <= c <= Visited && x == 4 * c
      invariant Sums(count, sumL, sumL2, edgeEstimate) == Add(acc, RowSums(data, y, x))
    {
      var l, e := VisitPixel(data, x, y);
      sumL := sumL + l;
      sumL2 := sumL2 + l * l;
      count := count + 1;
      edgeEstimate := edgeEstimate + e;
      x := x + Step;
      c := c + 1;
    }
    sums := Sums(count, sumL, sumL2, edgeEstimate);
  }

  /**
    The sampling loop of `analyzeImage`: visits every fourth pixel of every
    fourth row, `32 * 32 = 1024` pixels in all, and returns the four
    accumulators.
   */
  method SampleSums(data: SampleBuffer) returns (sums: Sums)
    ensures sums == GridSums(data, 4 * Visited)
    ensures sums.count == 1024 && sums.edge >= 0
  {
    sums := Zero;
    var y := 0;
    ghost var r := 0;
    while y < SampleSize
      invariant 0 <= r <= Visited && y == 4 * r
      invariant sums == GridSums(data, y)
    {
      sums := SampleRow(data, y, sums);
      y := y + Step;
      r := r + 1;
    }
    GridCount(data, Visited);
  }

  /**
    The statistics `analyzeImage` returns. `contrast` is
    `sqrt(max(variance, 0)) / 255`; the model keeps its square, which needs no
    square root.
   */
  datatype ImageStats = ImageStats(contrastSquared: real, edge: real)

  /** `mean`, `variance`, `contrast` and the normalised `edgeEstimate`, from the accumulators. */
  function FromSums(s: Sums): (r: ImageStats)
    requires s.count > 0 && s.edge >= 0
    ensures r.contrastSquared >= 0.0 && r.edge >= 0.0
  {
    var n := s.count as real;
    var mean := (s.sumL as real / 1000.0) / n;
    var variance := (s.sumL2 as real / 1000000.0) / n - mean * mean;
    var clamped := if variance > 0.0 then variance else 0.0;
    ImageStats(clamped / (255.0 * 255.0), (s.edge as real / 1000.0) / (n * 255.0))
  }

  /** The statistics of a sample canvas. */
  function StatsOf(data: SampleBuffer): ImageStats
  {
    GridCount(data, Visited);
    FromSums(GridSums(data, 4 * Visited))
  }

  /** Every visited row holds 32 pixels, so the first `r` visited rows hold `32 * r`. */
  lemma {:induction false} GridCount(data: SampleBuffer, r: nat)
    requires r <= Visited
    ensures GridSums(data, 4 * r).count == 32 * r && GridSums(data, 4 * r).edge >= 0
  {
    if r > 0 {
      GridCount(data, r - 1);
      RowCount(data, 4 * (r - 1), Visited);
    }
  }

  /** The first `c` visited pixels of a row count `c`, and their edge terms are not negative. */
  lemma {:induction false} RowCount(data: SampleBuffer, y: int, c: nat)
    requires 0 <= y < SampleSize && c <= Visited
    ensures RowSums(data, y, 4 * c).count == c && RowSums(data, y, 4 * c).edge >= 0
  {
    if c > 0 {
      RowCount(data, y, c - 1);
    }
  }

  /** Every pixel of the canvas has the same red, green and blue bytes; alpha may vary. */
  predicate Uniform(data: SampleBuffer)
  {
    forall i :: 0 <= i < BufferLength && i % 4 < 3 ==> data[i] == data[i % 4]
  }

  lemma UniformLuma(data: SampleBuffer, x: int, y: int)
    requires Uniform(data) && 0 <= x < SampleSize && 0 <= y < SampleSize
    ensures PixelLuma(data, x, y) == PixelLuma(data, 0, 0)
  {
    var i := (y * SampleSize + x) * 4;
    assert i % 4 == 0 && (i + 1) % 4 == 1 && (i + 2) % 4 == 2;
    assert data[i] == data[0] && data[i + 1] == data[1] && data[i + 2] == data[2];
  }

  /** In a uniform image every visited pixel of a row adds the same luma and no edge. */
  lemma {:induction false} UniformRow(data: SampleBuffer, y: int, c: nat)
    requires Uniform(data)
    requires 0 <= y < SampleSize && c <= Visited
    ensures var l := PixelLuma(data, 0, 0);
      RowSums(data, y, 4 * c) == Sums(c, c * l, c * (l * l), 0)
  {
    if c > 0 {
      UniformRow(data, y, c - 1);
      var x := 4 * (c - 1);
      UniformLuma(data, x, y);
      if x + Step < SampleSize && y + Step < SampleSize {
        UniformLuma(data, x + Step, y);
        UniformLuma(data, x, y + Step);
      }
      AddOneMore(c - 1, PixelLuma(data, 0, 0));
    }
  }

  lemma {:induction false} UniformGrid(data: SampleBuffer, r: nat)
    requires Uniform(data)
    requires r <= Visited
    ensures var l, n := PixelLuma(data, 0, 0), 32 * r;
      GridSums(data, 4 * r) == Sums(n, n * l, n * (l * l), 0)
  {
    if r > 0 {
      UniformGrid(data, r - 1);
      UniformRow(data, 4 * (r - 1), Visited);
      AddRow(32 * (r - 1), PixelLuma(data, 0, 0));
    }
  }

  lemma AddOneMore(c: int, l: int)
    ensures Add(Sums(c, c * l, c * (l * l), 0), Sums(1, l, l * l, 0)) == Sums(c + 1, (c + 1) * l, (c + 1) * (l * l), 0)
  {
    assert c * l + l == (c + 1) * l;
    assert c * (l * l) + l * l == (c + 1) * (l * l);
  }

  lemma AddRow(c: int, l: int)
    ensures Add(Sums(c, c * l, c * (l * l), 0), Sums(32, 32 * l, 32 * (l * l), 0)) == Sums(c + 32, (c + 32) * l, (c + 32) * (l * l), 0)
  {
    assert c * l + 32 * l == (c + 32) * l;
    assert c * (l * l) + 32 * (l * l) == (c + 32) * (l * l);
  }

  /** A uniform image has no edges and no contrast. */
  lemma UniformHasNoContrastNorEdge(data: SampleBuffer)
    requires Uniform(data)
    ensures GridSums(data, 4 * Visited).edge == 0
    ensures StatsOf(data) == ImageStats(0.0, 0.0)
  {
    UniformGrid(data, Visited);
    ConstantLumaStats(PixelLuma(data, 0, 0));
  }

  /** 1024 equal luma values have no variance. */
  lemma ConstantLumaStats(l: int)
    ensures FromSums(Sums(1024, 1024 * l, 1024 * (l * l), 0)) == ImageStats(0.0, 0.0)
  {
    var lr := l as real;
    var mean := ((1024 * l) as real / 1000.0) / 1024.0;
    assert mean == lr / 1000.0;
    var second := ((1024 * (l * l)) as real / 1000000.0) / 1024.0;
    assert second == (lr * lr) / 1000000.0;
    assert mean * mean == (lr * lr) / 1000000.0;
  }

  /** The indices the loop reads for a visited pixel stay inside the buffer. */
  lemma VisitIndicesInBounds(x: int, y: int)
    requires 0 <= x < SampleSize && 0 <= y < SampleSize
    ensures 0 <= (y * SampleSize + x) * 4 && (y * SampleSize + x) * 4 + 2 < BufferLength
    ensures x + Step < SampleSize && y + Step < SampleSize ==>
      (y * SampleSize + (x + Step)) * 4 + 2 < BufferLength && ((y + Step) * SampleSize + x) * 4 + 2 < BufferLength
  {
    assert y * SampleSize + x < (y + 1) * SampleSize;
    assert (y + 1) * SampleSize <= SampleSize * SampleSize;
    if x + Step < SampleSize && y + Step < SampleSize {
      assert (y + Step + 1) * SampleSize <= SampleSize * SampleSize;
    }
  }

  /** A neighbour term is added only when both neighbours are on the canvas. */
  lemma NeighbourTermInside(data: SampleBuffer, x: int, y: int)
    requires 0 <= x < SampleSize && 0 <= y < SampleSize
    requires Visit(data, x, y).edge != 0
    ensures x + Step < SampleSize && y + Step < SampleSize
  {
  }

  /** What `getImageData` returns: every entry is a byte. */
  predicate Bytes(data: SampleBuffer)
  {
    forall i :: 0 <= i < BufferLength ==> 0 <= data[i] <= 255
  }

  /** Scaled luma of bytes lies in `[0, 255000]`. */
  lemma PixelLumaBound(data: SampleBuffer, x: int, y: int)
    requires Bytes(data) && 0 <= x < SampleSize && 0 <= y < SampleSize
    ensures 0 <= PixelLuma(data, x, y) <= 255000
  {
    VisitIndicesInBounds(x, y);
  }

  /** `l * l <= m * l` for `0 <= l <= m`: each squared luma is at most `255000` times the luma. */
  lemma SquareBelow(l: int, m: int)
    requires 0 <= l <= m
    ensures l * l <= m * l
  {
  }

  /** Lumas of bytes: the sum is not negative and the sum of squares is at most `255000` times the sum. */
  predicate Bounded(s: Sums)
  {
    0 <= s.sumL && s.sumL2 <= 255000 * s.sumL
  }

  lemma {:induction false} RowBounded(data: SampleBuffer, y: int, c: nat)
    requires Bytes(data) && 0 <= y < SampleSize && c <= Visited
    ensures Bounded(RowSums(data, y, 4 * c))
  {
    if c > 0 {
      RowBounded(data, y, c - 1);
      var l := PixelLuma(data, 4 * (c - 1), y);
      PixelLumaBound(data, 4 * (c - 1), y);
      SquareBelow(l, 255000);
    }
  }

  lemma {:induction false} GridBounded(data: SampleBuffer, r: nat)
    requires Bytes(data) && r <= Visited
    ensures Bounded(GridSums(data, 4 * r))
  {
    if r > 0 {
      GridBounded(data, r - 1);
      RowBounded(data, 4 * (r - 1), Visited);
    }
  }

  /**
    On byte data the variance of luma is at most `255^2 / 4`, so the squared
    contrast is at most `1/4` and `contrast <= 0.5`.
   */
  lemma ContrastAtMostHalf(data: SampleBuffer)
    requires Bytes(data)
    ensures 0.0 <= StatsOf(data).contrastSquared <= 0.25
  {
    GridBounded(data, Visited);
    GridCount(data, Visited);
    var s := GridSums(data, 4 * Visited);
    VarianceBound(s.sumL, s.sumL2);
  }

  lemma VarianceBound(sumL: int, sumL2: int)
    requires 0 <= sumL && sumL2 <= 255000 * sumL
    ensures var mean := (sumL as real / 1000.0) / 1024.0;
      (sumL2 as real / 1000000.0) / 1024.0 - mean * mean <= 255.0 * 255.0 / 4.0
  {
    var mean := (sumL as real / 1000.0) / 1024.0;
    assert (sumL2 as real / 1000000.0) / 1024.0 <= 255.0 * mean;
    assert 255.0 * mean - mean * mean == 255.0 * 255.0 / 4.0 - (mean - 127.5) * (mean - 127.5);
  }

  /** A texture; `samples` is its image as `drawImage` leaves it in the 128 x 128 canvas. */
  class Texture {
    const samples: SampleBuffer

    constructor (samples: SampleBuffer)
      ensures this.samples == samples
    {
      this.samples := samples;
    }
  }

  /** The per-texture memo of `analyzeImage` (`analysisCache`). */
  class Analyzer {
    var cache: map<Texture, ImageStats>

    /** Every cached entry is the statistics of its texture. */
    ghost predicate Valid()
      reads this
    {
      forall t :: t in cache ==> cache[t] == StatsOf(t.samples)
    }

    constructor ()
      ensures Valid() && cache == map[]
    {
      cache := map[];
    }

    /**
      `analyzeImage(texture)`: a cached texture gets its cached result and
      the cache is left alone; otherwise the statistics are computed and
      stored.
     */
    method Analyze(texture: Texture) returns (r: ImageStats)
      requires Valid()
      modifies this
      ensures Valid()
      ensures r == StatsOf(texture.samples)
      ensures texture in old(cache) ==> r == old(cache)[texture] && cache == old(cache)
      ensures texture !in old(cache) ==> cache == old(cache)[texture := r]
    {
      if texture in cache {
        return cache[texture];
      }
      var sums := SampleSums(texture.samples);
      r := FromSums(sums);
      cache := cache[texture := r];
    }
  }
}
