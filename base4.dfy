/**
  Base-4 digits of a Hilbert curve index.

  `d2xy` in src/main.js consumes its index `d` two bits at a time: round `k`
  of its loop reads the low two bits of `t`, which by then holds `d` shifted
  right by `2k` bits (`t >>= 2` once per round). `Shift(d, k)` is that value
  of `t`, `Digit(d, k)` the two bits read in round `k`, and `Low(d, k)` the
  number made of the digits the first `k` rounds have read.
 */
module Base4 {

  function Pow2(k: nat): (r: nat)
    ensures r >= 1
  {
    if k == 0 then 1 else 2 * Pow2(k - 1)
  }

  function Pow4(k: nat): (r: nat)
    ensures r >= 1
  {
    if k == 0 then 1 else 4 * Pow4(k - 1)
  }

  /** The value of `t` after `k` rounds of `t >>= 2`. */
  function Shift(d: nat, k: nat): nat
  {
    if k == 0 then d else Shift(d, k - 1) / 4
  }

  /** The two bits of `d` that round `k` of `d2xy` reads. */
  function Digit(d: nat, k: nat): (r: nat)
    ensures r < 4
  {
    Shift(d, k) % 4
  }

  /** The number formed by the digits read in the first `k` rounds. */
  function Low(d: nat, k: nat): nat
  {
    if k == 0 then 0 else Low(d, k - 1) + Pow4(k - 1) * Digit(d, k - 1)
  }

  lemma {:induction false} Pow4IsSquare(k: nat)
    ensures Pow4(k) == Pow2(k) * Pow2(k)
  {
    if k > 0 {
      Pow4IsSquare(k - 1);
      var p := Pow2(k - 1);
      calc {
        Pow2(k) * Pow2(k);
        (2 * p) * (2 * p);
        4 * (p * p);
        4 * Pow4(k - 1);
      }
    }
  }

  lemma {:induction false} Pow2Monotone(i: nat, j: nat)
    requires i < j
    ensures Pow2(i) < Pow2(j)
  {
    if i < j - 1 {
      Pow2Monotone(i, j - 1);
    }
  }

  lemma {:induction false} Pow4Monotone(i: nat, j: nat)
    requires i <= j
    ensures Pow4(i) <= Pow4(j)
  {
    if i < j {
      Pow4Monotone(i, j - 1);
    }
  }

  /** The curve of order 15 has `2^30` cells. */
  lemma Pow4Fifteen()
    ensures Pow4(15) == 0x4000_0000
  {
    assert Pow4(1) == 4;
    assert Pow4(3) == 64;
    assert Pow4(5) == 1024;
    assert Pow4(7) == 16384;
    assert Pow4(9) == 262144;
    assert Pow4(11) == 4194304;
    assert Pow4(13) == 67108864;
  }

  /** Case split on a digit: `m * q` for `q < 4` without nonlinear reasoning. */
  lemma ScaledDigit(m: nat, q: nat)
    requires q < 4
    ensures m * q == (if q == 0 then 0 else if q == 1 then m else if q == 2 then 2 * m else 3 * m)
  {
  }

  /**
    Every index is its shifted part followed by its `k` low digits, and the
    low digits are less than `4^k`.
   */
  lemma {:induction false} Decompose(d: nat, k: nat)
    ensures d == Pow4(k) * Shift(d, k) + Low(d, k)
    ensures Low(d, k) < Pow4(k)
  {
    if k > 0 {
      Decompose(d, k - 1);
      var p, s := Pow4(k - 1), Shift(d, k - 1);
      assert Pow4(k) == 4 * p && Shift(d, k) == s / 4;
      assert Low(d, k) == Low(d, k - 1) + p * (s % 4);
      SplitProduct(p, s);
      ScaledDigit(p, s % 4);
    }
  }

  lemma SplitProduct(p: nat, s: nat)
    ensures (4 * p) * (s / 4) + p * (s % 4) == p * s
  {
    var a, b := s / 4, s % 4;
    assert s == 4 * a + b;
    assert p * s == p * (4 * a) + p * b;
    assert (4 * p) * a == p * (4 * a);
  }

  /** An index below `4^m` has fewer than `m - k` digits left after `k` rounds. */
  lemma {:induction false} ShiftBound(d: nat, k: nat, m: nat)
    requires k <= m && d < Pow4(m)
    ensures Shift(d, k) < Pow4(m - k)
  {
    if k > 0 {
      ShiftBound(d, k - 1, m);
      assert Pow4(m - (k - 1)) == 4 * Pow4(m - k);
    }
  }

  /** An index below `4^k` is made of its first `k` digits only. */
  lemma LowOfSmall(d: nat, k: nat)
    requires d < Pow4(k)
    ensures Shift(d, k) == 0 && Low(d, k) == d
  {
    ShiftBound(d, k, k);
    Decompose(d, k);
  }

  /**
    Adding one to an index: the low `k` digits either count up by one, or
    wrap from `4^k - 1` to zero and carry into the shifted part.
   */
  lemma {:induction false} Carry(d: nat, k: nat)
    ensures Low(d, k) + 1 < Pow4(k) ==> Low(d + 1, k) == Low(d, k) + 1 && Shift(d + 1, k) == Shift(d, k)
    ensures Low(d, k) + 1 >= Pow4(k) ==> Low(d, k) + 1 == Pow4(k) && Low(d + 1, k) == 0 && Shift(d + 1, k) == Shift(d, k) + 1
  {
    Decompose(d, k);
    if k > 0 {
      Carry(d, k - 1);
      var p, s := Pow4(k - 1), Shift(d, k - 1);
      ScaledDigit(p, s % 4);
      if Low(d, k - 1) + 1 < p {
        assert Shift(d + 1, k - 1) == s;
      } else {
        assert Shift(d + 1, k - 1) == s + 1;
        ScaledDigit(p, (s + 1) % 4);
        if s % 4 == 3 {
          assert (s + 1) % 4 == 0 && (s + 1) / 4 == s / 4 + 1;
        } else {
          assert (s + 1) % 4 == s % 4 + 1 && (s + 1) / 4 == s / 4;
        }
      }
    }
  }

  /**
    Placing `q` above the `k` digits of an index shifts along with it: after
    `j <= k` rounds it has moved down to `4^(k - j) * q`.
   */
  lemma {:induction false} ShiftAbove(a: nat, q: nat, k: nat, j: nat)
    requires j <= k
    ensures Shift(a + Pow4(k) * q, j) == Shift(a, j) + Pow4(k - j) * q
  {
    if j > 0 {
      ShiftAbove(a, q, k, j - 1);
      var m := Pow4(k - j) * q;
      assert Pow4(k - (j - 1)) * q == 4 * m by {
        assert Pow4(k - (j - 1)) == 4 * Pow4(k - j);
        MulAssoc(4, Pow4(k - j), q);
      }
    }
  }

  /** Adding `4^k * q` to a number below `4^k` leaves its `k` low digits alone ... */
  lemma LowDigitsOfSum(a: nat, q: nat, k: nat)
    requires a < Pow4(k) && q < 4
    ensures forall j :: 0 <= j < k ==> Digit(a + Pow4(k) * q, j) == Digit(a, j)
  {
    forall j | 0 <= j < k
      ensures Digit(a + Pow4(k) * q, j) == Digit(a, j)
    {
      DigitBelow(a, q, k, j);
    }
  }

  /** ... and makes `q` its digit `k`. */
  lemma TopDigitOfSum(a: nat, q: nat, k: nat)
    requires a < Pow4(k) && q < 4
    ensures Digit(a + Pow4(k) * q, k) == q
  {
    LowOfSmall(a, k);
    ShiftAbove(a, q, k, k);
  }

  lemma DigitBelow(a: nat, q: nat, k: nat, j: nat)
    requires j < k
    ensures Digit(a + Pow4(k) * q, j) == Digit(a, j)
  {
    var m := Pow4(k - j - 1) * q;
    assert Pow4(k - j) * q == 4 * m by {
      assert Pow4(k - j) == 4 * Pow4(k - j - 1);
      MulAssoc(4, Pow4(k - j - 1), q);
    }
    assert Shift(a + Pow4(k) * q, j) == Shift(a, j) + 4 * m by {
      ShiftAbove(a, q, k, j);
    }
    AddMultipleOfFour(Shift(a, j), m);
  }

  lemma AddMultipleOfFour(s: nat, m: nat)
    ensures (s + 4 * m) % 4 == s % 4
  {
  }

  lemma MulAssoc(a: int, b: int, c: int)
    ensures (a * b) * c == a * (b * c)
  {
  }
}
