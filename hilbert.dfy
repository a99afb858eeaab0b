/**
  The Hilbert curve of src/main.js: `rot`, `d2xy` (curve index to grid cell)
  and `hilbertPoints` (every cell of an order-`k` curve, in visiting order,
  scaled into the unit square).

  `CellAt(k, d)` is the cell `d2xy` holds after `k` rounds of its loop; the
  method `D2xy` is the loop itself, proved to compute `CellAt(order, d)`.
  `IndexOf` is the inverse transform, and the lemmas below prove that
  `CellAt(k, .)` is a bijection from `[0, 4^k)` onto the `2^k x 2^k` grid
  whose consecutive cells are neighbours.
 */
module Hilbert {
  import opened Base4

  datatype Cell = Cell(x: int, y: int)

  predicate InGrid(c: Cell, n: int)
  {
    0 <= c.x < n && 0 <= c.y < n
  }

  /** Two cells one step apart along exactly one axis. */
  predicate Adjacent(a: Cell, b: Cell)
  {
    (a.x == b.x && (a.y - b.y == 1 || b.y - a.y == 1)) ||
    (a.y == b.y && (a.x - b.x == 1 || b.x - a.x == 1))
  }

  /** `rot(n, x, y, rx, ry)`: reflect when `rx == 1`, then swap, but only in a quadrant with `ry == 0`. */
  function Rot(n: int, x: int, y: int, rx: int, ry: int): (r: Cell)
    ensures 0 <= x < n && 0 <= y < n ==> InGrid(r, n)
  {
    if ry == 0 then
      if rx == 1 then Cell(n - 1 - y, n - 1 - x) else Cell(y, x)
    else
      Cell(x, y)
  }

  /** `rx = 1 & (t >> 1)` for a non-negative `t`. */
  function BitRx(t: nat): (rx: nat)
    ensures rx < 2
  {
    (t / 2) % 2
  }

  /** `ry = 1 & (t ^ rx)` for a non-negative `t` and a bit `rx`. */
  function BitRy(t: nat, rx: nat): (ry: nat)
    requires rx < 2
    ensures ry < 2
  {
    (t + rx) % 2
  }

  /** `s * bit` for a bit, written as a case split to keep the arithmetic linear. */
  function Times(s: int, bit: nat): int
    requires bit < 2
  {
    if bit == 1 then s else 0
  }

  /**
    One round of the `d2xy` loop at scale `s`, reading the low bits of `t`:
    rotate the cell found so far, then move it into quadrant `(rx, ry)`.
   */
  function Step(s: int, c: Cell, t: nat): Cell
  {
    var rx := BitRx(t);
    var ry := BitRy(t, rx);
    var r := Rot(s, c.x, c.y, rx, ry);
    Cell(r.x + Times(s, rx), r.y + Times(s, ry))
  }

  /** The cell `d2xy` has computed for index `d` after `k` rounds. */
  function CellAt(k: nat, d: nat): (c: Cell)
    ensures InGrid(c, Pow2(k))
  {
    if k == 0 then Cell(0, 0)
    else
      var s := Pow2(k - 1);
      var c' := CellAt(k - 1, d);
      assert s * 2 == Pow2(k);
      Step(s, c', Digit(d, k - 1))
  }

  /** The quadrant digit of a cell at scale `s`: the inverse of `(BitRx, BitRy)` on digits. */
  function QuadrantDigit(rx: nat, ry: nat): (q: nat)
    requires rx < 2 && ry < 2
    ensures q < 4 && BitRx(q) == rx && BitRy(q, rx) == ry
  {
    if rx == 0 then ry else 3 - ry
  }

  function BitAbove(v: int, s: int): (b: nat)
    ensures b < 2
  {
    if v >= s then 1 else 0
  }

  /** The digit of the quadrant of the `2s x 2s` grid that holds `c`. */
  function QuadrantOf(s: int, c: Cell): (q: nat)
    ensures q < 4
  {
    QuadrantDigit(BitAbove(c.x, s), BitAbove(c.y, s))
  }

  /** Undo one round of `d2xy`: move `c` out of its quadrant and rotate it back. */
  function Unstep(s: int, c: Cell): (r: Cell)
    ensures InGrid(c, 2 * s) ==> InGrid(r, s)
  {
    var rx, ry := BitAbove(c.x, s), BitAbove(c.y, s);
    Rot(s, c.x - Times(s, rx), c.y - Times(s, ry), rx, ry)
  }

  /** The inverse of `d2xy`: the curve index of a cell of the `2^k x 2^k` grid. */
  function IndexOf(k: nat, c: Cell): (d: nat)
    requires InGrid(c, Pow2(k))
    ensures d < Pow4(k)
  {
    if k == 0 then 0
    else
      var s := Pow2(k - 1);
      var q := QuadrantOf(s, c);
      var low := IndexOf(k - 1, Unstep(s, c));
      ScaledDigit(Pow4(k - 1), q);
      low + Pow4(k - 1) * q
  }

  /** Undoing the rotation: `rot` with the same bits is its own inverse. */
  lemma RotInvolution(n: int, x: int, y: int, rx: int, ry: int)
    ensures var r := Rot(n, x, y, rx, ry); Rot(n, r.x, r.y, rx, ry) == Cell(x, y)
  {
  }

  /** `rot` is an isometry of the grid: it keeps neighbours neighbours. */
  lemma RotAdjacent(n: int, a: Cell, b: Cell, rx: int, ry: int)
    requires Adjacent(a, b)
    ensures Adjacent(Rot(n, a.x, a.y, rx, ry), Rot(n, b.x, b.y, rx, ry))
  {
  }

  /** Cells depend only on the digits read so far. */
  lemma {:induction false} CellAtDigits(k: nat, d1: nat, d2: nat)
    requires forall j :: 0 <= j < k ==> Digit(d1, j) == Digit(d2, j)
    ensures CellAt(k, d1) == CellAt(k, d2)
  {
    if k > 0 {
      CellAtDigits(k - 1, d1, d2);
    }
  }

  /** `IndexOf` recovers the digits that `d2xy` has read. */
  lemma {:induction false} IndexOfCellAt(k: nat, d: nat)
    ensures IndexOf(k, CellAt(k, d)) == Low(d, k)
  {
    if k > 0 {
      var s, p := Pow2(k - 1), Pow4(k - 1);
      var c' := CellAt(k - 1, d);
      var q := Digit(d, k - 1);
      assert CellAt(k, d) == Step(s, c', q);
      UnstepStep(s, c', q);
      IndexOfUnfold(k, CellAt(k, d));
      IndexOfCellAt(k - 1, d);
    }
  }

  lemma IndexOfUnfold(k: nat, c: Cell)
    requires k > 0 && InGrid(c, Pow2(k))
    ensures var s := Pow2(k - 1);
      IndexOf(k, c) == IndexOf(k - 1, Unstep(s, c)) + Pow4(k - 1) * QuadrantOf(s, c)
  {
  }

  /** Undoing a round recovers its digit and the cell before it. */
  lemma UnstepStep(s: int, c: Cell, q: nat)
    requires InGrid(c, s) && q < 4
    ensures QuadrantOf(s, Step(s, c, q)) == q && Unstep(s, Step(s, c, q)) == c
  {
    var rx := BitRx(q);
    var ry := BitRy(q, rx);
    if q == 0 {
      assert rx == 0 && ry == 0;
    } else if q == 1 {
      assert rx == 0 && ry == 1;
    } else if q == 2 {
      assert rx == 1 && ry == 1;
    } else {
      assert rx == 1 && ry == 0;
    }
    RotInvolution(s, c.x, c.y, rx, ry);
  }

  /** `d2xy` maps the index `IndexOf` gives a cell back to that cell. */
  lemma {:induction false} CellAtIndexOf(k: nat, c: Cell)
    requires InGrid(c, Pow2(k))
    ensures CellAt(k, IndexOf(k, c)) == c
  {
    if k > 0 {
      var s := Pow2(k - 1);
      var inner := Unstep(s, c);
      CellAtIndexOfUnfold(k, c);
      CellAtIndexOf(k - 1, inner);
      StepUnstep(s, c);
    }
  }

  /** One round of `CellAt(k, IndexOf(k, c))`: the inner cell moved back into the quadrant of `c`. */
  lemma CellAtIndexOfUnfold(k: nat, c: Cell)
    requires k > 0 && InGrid(c, Pow2(k))
    ensures InGrid(Unstep(Pow2(k - 1), c), Pow2(k - 1))
    ensures var s := Pow2(k - 1); var inner := Unstep(s, c);
      CellAt(k, IndexOf(k, c)) == Step(s, CellAt(k - 1, IndexOf(k - 1, inner)), QuadrantOf(s, c))
  {
    var s := Pow2(k - 1);
    assert InGrid(c, 2 * s);
    var inner, q := Unstep(s, c), QuadrantOf(s, c);
    var low := IndexOf(k - 1, inner);
    assert IndexOf(k, c) == low + Pow4(k - 1) * q by {
      IndexOfUnfold(k, c);
    }
    CellAtOfSum(k, low, q);
  }

  /** Index `low + 4^(k-1) * q` reaches, after `k` rounds, cell `CellAt(k - 1, low)` moved into quadrant `q`. */
  lemma CellAtOfSum(k: nat, low: nat, q: nat)
    requires k > 0 && low < Pow4(k - 1) && q < 4
    ensures CellAt(k, low + Pow4(k - 1) * q) == Step(Pow2(k - 1), CellAt(k - 1, low), q)
  {
    var d: nat := low + Pow4(k - 1) * q;
    LowCellOfSum(k - 1, low, q);
    TopDigitOfSum(low, q, k - 1);
    CellAtFromParts(k, d, low, q);
  }

  /** `CellAt(k, d)` depends on `d` only through `CellAt(k - 1, d)` and digit `k - 1`. */
  lemma CellAtFromParts(k: nat, d: nat, low: nat, q: nat)
    requires k > 0 && CellAt(k - 1, d) == CellAt(k - 1, low) && Digit(d, k - 1) == q
    ensures CellAt(k, d) == Step(Pow2(k - 1), CellAt(k - 1, low), q)
  {
    CellAtUnfold(k, d);
  }

  /** Digits above the `k` that `CellAt(k, .)` reads do not change its cell. */
  lemma LowCellOfSum(k: nat, low: nat, q: nat)
    requires low < Pow4(k) && q < 4
    ensures CellAt(k, low + Pow4(k) * q) == CellAt(k, low)
  {
    LowDigitsOfSum(low, q, k);
    CellAtDigits(k, low + Pow4(k) * q, low);
  }

  /** Replaying the round that `Unstep` undid restores the cell. */
  lemma StepUnstep(s: int, c: Cell)
    requires InGrid(c, 2 * s)
    ensures Step(s, Unstep(s, c), QuadrantOf(s, c)) == c
  {
    var rx, ry := BitAbove(c.x, s), BitAbove(c.y, s);
    RotInvolution(s, c.x - Times(s, rx), c.y - Times(s, ry), rx, ry);
  }

  /** Distinct indices below `4^k` give distinct cells. */
  lemma CellAtInjective(k: nat, d1: nat, d2: nat)
    requires d1 < Pow4(k) && d2 < Pow4(k)
    requires CellAt(k, d1) == CellAt(k, d2)
    ensures d1 == d2
  {
    IndexOfCellAt(k, d1);
    IndexOfCellAt(k, d2);
    LowOfSmall(d1, k);
    LowOfSmall(d2, k);
  }

  /** Every cell of the `2^k x 2^k` grid is visited by some index below `4^k`. */
  lemma CellAtSurjective(k: nat, c: Cell)
    requires InGrid(c, Pow2(k))
    ensures exists d :: 0 <= d < Pow4(k) && CellAt(k, d) == c
  {
    CellAtIndexOf(k, c);
  }

  /** `d2xy(order, d)` ignores the bits of `d` above the lowest `2 * order`. */
  lemma CellAtLowDigits(k: nat, d: nat)
    ensures CellAt(k, d) == CellAt(k, Low(d, k))
  {
    IndexOfCellAt(k, d);
    CellAtIndexOf(k, CellAt(k, d));
  }

  /** Index `0` is the bottom-left corner: all digits read so far are zero. */
  lemma {:induction false} CellAtStart(k: nat, d: nat)
    requires Low(d, k) == 0
    ensures CellAt(k, d) == Cell(0, 0)
  {
    if k > 0 {
      ScaledDigit(Pow4(k - 1), Digit(d, k - 1));
      CellAtStart(k - 1, d);
    }
  }

  /** Index `4^k - 1` is the bottom-right corner `(2^k - 1, 0)`. */
  lemma {:induction false} CellAtEnd(k: nat, d: nat)
    requires Low(d, k) + 1 == Pow4(k)
    ensures CellAt(k, d) == Cell(Pow2(k) - 1, 0)
  {
    if k > 0 {
      var j := k - 1;
      assert Digit(d, j) == 3 && Low(d, j) + 1 == Pow4(j) by {
        Decompose(d, j);
        ScaledDigit(Pow4(j), Digit(d, j));
      }
      CellAtEnd(j, d);
      CellAtUnfold(k, d);
      assert BitRx(3) == 1 && BitRy(3, 1) == 0;
    }
  }

  /** A round with the same digit keeps neighbouring cells neighbours. */
  lemma StepAdjacent(s: int, a: Cell, b: Cell, t: nat)
    requires Adjacent(a, b)
    ensures Adjacent(Step(s, a, t), Step(s, b, t))
  {
    RotAdjacent(s, a, b, BitRx(t), BitRy(t, BitRx(t)));
  }

  /**
    Consecutive indices whose low `k` digits do not wrap around give
    neighbouring cells.
   */
  lemma {:induction false} CellAtAdjacentGeneral(k: nat, d: nat)
    requires Low(d, k) + 1 < Pow4(k)
    ensures Adjacent(CellAt(k, d), CellAt(k, d + 1))
  {
    if k > 0 {
      var j := k - 1;
      Carry(d, j);
      if Low(d, j) + 1 < Pow4(j) {
        CellAtAdjacentGeneral(j, d);
        SameQuadrantAdjacent(j, d);
      } else {
        CrossQuadrantAdjacent(j, d);
      }
    }
  }

  /** Inside one quadrant, neighbours of order `j` stay neighbours at order `j + 1`. */
  lemma SameQuadrantAdjacent(j: nat, d: nat)
    requires Shift(d + 1, j) == Shift(d, j)
    requires Adjacent(CellAt(j, d), CellAt(j, d + 1))
    ensures Adjacent(CellAt(j + 1, d), CellAt(j + 1, d + 1))
  {
    CellAtUnfold(j + 1, d);
    CellAtUnfold(j + 1, d + 1);
    StepAdjacent(Pow2(j), CellAt(j, d), CellAt(j, d + 1), Digit(d, j));
  }

  /** The last cell of one quadrant and the first of the next are neighbours. */
  lemma CrossQuadrantAdjacent(j: nat, d: nat)
    requires Low(d, j) + 1 == Pow4(j) && Low(d + 1, j) == 0
    requires Shift(d + 1, j) == Shift(d, j) + 1
    requires Low(d, j + 1) + 1 < Pow4(j + 1)
    ensures Adjacent(CellAt(j + 1, d), CellAt(j + 1, d + 1))
  {
    var s, q := Pow2(j), Digit(d, j);
    assert q < 3 && Digit(d + 1, j) == q + 1 by {
      NextQuadrant(d, j);
    }
    assert CellAt(j + 1, d) == Step(s, Cell(s - 1, 0), q) by {
      CellAtEnd(j, d);
      CellAtUnfold(j + 1, d);
    }
    assert CellAt(j + 1, d + 1) == Step(s, Cell(0, 0), q + 1) by {
      CellAtStart(j, d + 1);
      CellAtUnfold(j + 1, d + 1);
    }
    CrossQuadrant(s, q);
  }

  lemma CellAtUnfold(k: nat, d: nat)
    requires k > 0
    ensures CellAt(k, d) == Step(Pow2(k - 1), CellAt(k - 1, d), Digit(d, k - 1))
  {
  }

  /**
    When the low `k` digits wrap around without the `k + 1` low digits
    wrapping, the next digit goes up by one and stays below 4.
   */
  lemma NextQuadrant(d: nat, k: nat)
    requires Low(d, k) + 1 == Pow4(k) && Low(d, k + 1) + 1 < Pow4(k + 1)
    requires Shift(d + 1, k) == Shift(d, k) + 1
    ensures Digit(d, k) < 3 && Digit(d + 1, k) == Digit(d, k) + 1
  {
    var p, q := Pow4(k), Digit(d, k);
    assert Pow4(k + 1) == 4 * p;
    assert Low(d, k + 1) == Low(d, k) + p * q;
    ScaledDigit(p, q);
  }

  /** Leaving quadrant `q` at its last cell enters quadrant `q + 1` at its first cell. */
  lemma CrossQuadrant(s: int, q: nat)
    requires q < 3
    ensures Adjacent(Step(s, Cell(s - 1, 0), q), Step(s, Cell(0, 0), q + 1))
  {
    if q == 0 {
      assert BitRx(1) == 0 && BitRy(1, 0) == 1;
    } else if q == 1 {
      assert BitRx(1) == 0 && BitRy(1, 0) == 1;
      assert BitRx(2) == 1 && BitRy(2, 1) == 1;
    } else {
      assert BitRx(2) == 1 && BitRy(2, 1) == 1;
      assert BitRx(3) == 1 && BitRy(3, 1) == 0;
    }
  }

  /** Hilbert locality: consecutive indices below `4^k` give neighbouring cells. */
  lemma CellAtAdjacent(k: nat, d: nat)
    requires d + 1 < Pow4(k)
    ensures Adjacent(CellAt(k, d), CellAt(k, d + 1))
  {
    LowOfSmall(d, k);
    CellAtAdjacentGeneral(k, d);
  }

  /**
    `d2xy(order, d)`. JavaScript shifts work on 32-bit integers; for
    `order <= 30` and `0 <= d < 2^31` they agree with the integer arithmetic
    below (`1 << order` is `2^order`, `t >> 1` is `t / 2`, `t >>= 2` is
    `t := t / 4`).
   */
  method D2xy(order: nat, d: nat) returns (x: int, y: int)
    requires order <= 30 && d < 0x8000_0000
    ensures Cell(x, y) == CellAt(order, d)
    ensures d < Pow4(order) ==> IndexOf(order, Cell(x, y)) == d
  {
    var n := Pow2(order);
    var t := d;
    var s := 1;
    x, y := 0, 0;
    ghost var k: nat := 0;
    while s < n
      invariant k <= order && s == Pow2(k)
      invariant t == Shift(d, k)
      invariant Cell(x, y) == CellAt(k, d)
    {
      x, y, t := Round(s, x, y, t, k, d);
      s := 2 * s;
      k := k + 1;
    }
    if k < order {
      Pow2Monotone(k, order);
    }
    IndexAfterCell(order, d);
  }

  /**
    The body of the loop of `d2xy` at scale `s = 2^k`: read two bits of `t`,
    rotate, move into the quadrant, and shift `t` right by two bits. It takes
    the cell after `k` rounds to the cell after `k + 1`.
   */
  method Round(s: int, x: int, y: int, t: nat, ghost k: nat, ghost d: nat) returns (x': int, y': int, t': nat)
    requires s == Pow2(k) && t == Shift(d, k) && Cell(x, y) == CellAt(k, d)
    ensures Cell(x', y') == CellAt(k + 1, d) && t' == Shift(d, k + 1)
  {
    var rx := (t / 2) % 2;
    var ry := (t + rx) % 2;
    RoundStep(k, d, x, y, t);
    TimesBit(s, rx);
    TimesBit(s, ry);
    var r := Rot(s, x, y, rx, ry);
    x', y' := r.x, r.y;
    x' := x' + s * rx;
    y' := y' + s * ry;
    t' := t / 4;
  }

  /** `IndexOf` undoes `CellAt` on the indices of the curve. */
  lemma IndexAfterCell(k: nat, d: nat)
    ensures d < Pow4(k) ==> IndexOf(k, CellAt(k, d)) == d
  {
    if d < Pow4(k) {
      IndexOfCellAt(k, d);
      LowOfSmall(d, k);
    }
  }

  lemma RoundStep(k: nat, d: nat, x: int, y: int, t: nat)
    requires t == Shift(d, k) && Cell(x, y) == CellAt(k, d)
    ensures var rx := (t / 2) % 2;
      var ry := (t + rx) % 2;
      var r := Rot(Pow2(k), x, y, rx, ry);
      Cell(r.x + Times(Pow2(k), rx), r.y + Times(Pow2(k), ry)) == CellAt(k + 1, d)
  {
    LowBits(t);
    CellAtUnfold(k + 1, d);
  }

  /** The bits `d2xy` reads from `t` are those of its lowest base-4 digit. */
  lemma LowBits(t: nat)
    ensures (t / 2) % 2 == BitRx(t % 4)
    ensures (t + (t / 2) % 2) % 2 == BitRy(t % 4, BitRx(t % 4))
  {
    var a, b := t / 4, t % 4;
    assert t == 4 * a + b;
    if b == 0 {
      assert t / 2 == 2 * a;
    } else if b == 1 {
      assert t / 2 == 2 * a;
    } else if b == 2 {
      assert t / 2 == 2 * a + 1;
    } else {
      assert t / 2 == 2 * a + 1;
    }
  }

  lemma TimesBit(s: int, b: nat)
    requires b < 2
    ensures s * b == Times(s, b)
  {
  }

  /** A grid cell scaled into the unit square: `[x / (n - 1), y / (n - 1)]`. */
  function Normalized(n: nat, c: Cell): (p: (real, real))
    requires n >= 2
  {
    (c.x as real / (n - 1) as real, c.y as real / (n - 1) as real)
  }

  /** Scaling a grid cell of an `n x n` grid lands in `[0, 1] x [0, 1]`. */
  lemma NormalizedInUnitSquare(n: nat, c: Cell)
    requires n >= 2 && InGrid(c, n)
    ensures var p := Normalized(n, c); 0.0 <= p.0 <= 1.0 && 0.0 <= p.1 <= 1.0
  {
    var m := (n - 1) as real;
    assert c.x as real <= m && c.y as real <= m;
    DivAtMostOne(c.x as real, m);
    DivAtMostOne(c.y as real, m);
  }

  lemma DivAtMostOne(a: real, m: real)
    requires 0.0 <= a <= m && m > 0.0
    ensures 0.0 <= a / m <= 1.0
  {
  }

  /** Scaling is undone by multiplying back by `n - 1`, so distinct cells stay distinct. */
  lemma NormalizedInjective(n: nat, a: Cell, b: Cell)
    requires n >= 2 && Normalized(n, a) == Normalized(n, b)
    ensures a == b
  {
    var m := (n - 1) as real;
    assert a.x as real == (a.x as real / m) * m;
    assert b.x as real == (b.x as real / m) * m;
    assert a.y as real == (a.y as real / m) * m;
    assert b.y as real == (b.y as real / m) * m;
  }

  /**
    `hilbertPoints(order)`: the `n * n` cells of the order-`order` curve,
    `n = 2^order`, each scaled into the unit square. `order >= 1` because the
    source divides by `n - 1`. The array bound of JavaScript (`2^32 - 1`
    entries) limits `order` to at most 15.
   */
  method HilbertPoints(order: nat) returns (pts: array<(real, real)>)
    requires 1 <= order <= 15
    ensures fresh(pts)
    ensures IsCurve(order, pts[..])
  {
    var n := Pow2(order);
    var total := n * n;
    assert n >= 2 && total == Pow4(order) <= 0x4000_0000 by {
      CurveSize(order);
    }
    pts := new (real, real)[total];
    for d := 0 to total
      invariant forall j :: 0 <= j < d ==> pts[j] == CurveAt(order, j)
    {
      pts[d] := CurvePoint(order, n, d);
    }
  }

  /** One entry of `hilbertPoints`: the cell of index `d`, scaled into the unit square. */
  method CurvePoint(order: nat, n: nat, d: nat) returns (p: (real, real))
    requires 1 <= order <= 15 && n == Pow2(order) && n >= 2 && d < 0x4000_0000
    ensures p == CurveAt(order, d)
  {
    var x, y := D2xy(order, d);
    p := Normalized(n, Cell(x, y));
  }

  /** The order-`order` curve has `n * n = 4^order` cells, `n >= 2`, at most `2^30` of them. */
  lemma CurveSize(order: nat)
    requires 1 <= order <= 15
    ensures Pow2(order) * Pow2(order) == Pow4(order) && Pow2(order) >= 2 && Pow4(order) <= 0x4000_0000
  {
    Pow4IsSquare(order);
    Pow2Monotone(0, order);
    Pow4Monotone(order, 15);
    Pow4Fifteen();
  }

  /** Point `d` of the order-`order` curve: the cell of index `d`, scaled into the unit square. */
  ghost function CurveAt(order: nat, d: nat): (real, real)
    requires order >= 1
  {
    Pow2Monotone(0, order);
    Normalized(Pow2(order), CellAt(order, d))
  }

  /** The list of the curve's points, as `hilbertPoints` fills it. */
  ghost predicate IsCurve(order: nat, pts: seq<(real, real)>)
  {
    order >= 1 && |pts| == Pow4(order) &&
    forall d :: 0 <= d < |pts| ==> pts[d] == CurveAt(order, d)
  }

  /** Every point of the curve lies in the unit square. */
  lemma PointsInUnitSquare(order: nat, pts: seq<(real, real)>)
    requires IsCurve(order, pts)
    ensures forall d :: 0 <= d < |pts| ==> 0.0 <= pts[d].0 <= 1.0 && 0.0 <= pts[d].1 <= 1.0
  {
    forall d | 0 <= d < |pts|
      ensures 0.0 <= pts[d].0 <= 1.0 && 0.0 <= pts[d].1 <= 1.0
    {
      NormalizedInUnitSquare(Pow2(order), CellAt(order, d));
    }
  }

  /** No point of the curve is visited twice. */
  lemma PointsDistinct(order: nat, pts: seq<(real, real)>)
    requires IsCurve(order, pts)
    ensures forall d1, d2 :: 0 <= d1 < d2 < |pts| ==> pts[d1] != pts[d2]
  {
    forall d1, d2 | 0 <= d1 < d2 < |pts|
      ensures pts[d1] != pts[d2]
    {
      if pts[d1] == pts[d2] {
        NormalizedInjective(Pow2(order), CellAt(order, d1), CellAt(order, d2));
        CellAtInjective(order, d1, d2);
      }
    }
  }
}
