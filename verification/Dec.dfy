/** Fixed-point decimals of the Cosmos SDK: a `Dec` is an integer scaled by 10^18. */
module Dec {

  const ONE: int := 1_000_000_000_000_000_000

  /** Integer division rounding towards zero, as Go's big.Int.Quo. */
  function TruncDiv(a: int, b: int): int
    requires b != 0
  {
    if a >= 0 then
      if b > 0 then a / b else -(a / -b)
    else
      if b > 0 then -(-a / b) else -a / -b
  }

  /** Drops 18 decimals from a non-negative number, rounding half to even. */
  function ChopNonNegative(x: nat): int
  {
    var q, r := x / ONE, x % ONE;
    if 2 * r < ONE then q
    else if 2 * r > ONE then q + 1
    else if q % 2 == 0 then q
    else q + 1
  }

  function ChopRound(x: int): int
  {
    if x < 0 then -ChopNonNegative(-x) else ChopNonNegative(x)
  }

  function ToDec(x: int): int { x * ONE }

  function Mul(a: int, b: int): int { ChopRound(a * b) }

  /** Quotient truncated at 36 decimals, then rounded half to even at 18. */
  function Quo(a: int, b: int): int
    requires b != 0
  {
    ChopRound(TruncDiv(a * ONE * ONE, b))
  }

  function QuoInt64(a: int, b: int): int
    requires b != 0
  {
    TruncDiv(a, b)
  }

  function MulInt(a: int, x: int): int { a * x }

  function TruncateInt(a: int): int { TruncDiv(a, ONE) }

  // ----- Facts about the rounding -----

  lemma DivBounds(a: int, b: int)
    requires b > 0
    ensures b * (a / b) <= a < b * (a / b) + b
  {
  }

  /** Rounding moves a value by at most half a unit of the last kept decimal. */
  lemma ChopNear(x: nat)
    ensures 2 * x - ONE <= 2 * ONE * ChopRound(x) <= 2 * x + ONE
    ensures ChopRound(x) >= 0
  {
    DivBounds(x, ONE);
  }

  lemma {:induction false} ChopExact(x: int)
    ensures ChopRound(x * ONE) == x
  {
    if x >= 0 {
      assert x * ONE / ONE == x && x * ONE % ONE == 0;
    } else {
      assert -(x * ONE) == -x * ONE;
      assert -x * ONE / ONE == -x && -x * ONE % ONE == 0;
    }
  }

  /** Multiplying an integer amount by a Dec loses nothing. */
  lemma MulOfInteger(x: int, w: int)
    ensures Mul(ToDec(x), w) == x * w
  {
    assert x * ONE * w == x * w * ONE;
    ChopExact(x * w);
  }

  lemma TruncateBounds(a: int)
    ensures a >= 0 ==> 0 <= TruncateInt(a) && ONE * TruncateInt(a) <= a < ONE * TruncateInt(a) + ONE
    ensures a < 0 ==> TruncateInt(a) <= 0 && ONE * TruncateInt(a) - ONE < a <= ONE * TruncateInt(a)
  {
    if a >= 0 { DivBounds(a, ONE); } else { DivBounds(-a, ONE); }
  }

  /** The quotient of two integer amounts, as a Dec, against the exact ratio x/y. */
  lemma QuoOfIntegers(x: nat, y: nat)
    requires y > 0
    ensures var q := Quo(ToDec(x), ToDec(y));
            q >= 0
            && 2 * y * q <= 2 * x * ONE + y
            && 2 * ONE * y * q > 2 * x * ONE * ONE - 2 * y - ONE * y
  {
    var num := x * ONE * ONE * ONE;
    var t := TruncDiv(num, y * ONE);
    QuoScaled(x * ONE, y);
    assert num / (y * ONE) == x * ONE * ONE / y by {
      assert num == (x * ONE * ONE) * ONE;
      CancelDiv(x * ONE * ONE, y, ONE);
    }
  }

  lemma CancelDiv(a: nat, b: nat, c: nat)
    requires b > 0 && c > 0
    ensures b * c > 0
    ensures a * c / (b * c) == a / b
  {
    MulPos(b, c);
    var q, r := a / b, a % b;
    assert a * c == (b * c) * q + r * c by {
      assert a == b * q + r;
      assert a * c == (b * q + r) * c == b * q * c + r * c == (b * c) * q + r * c;
    }
    assert 0 <= r * c < b * c by { MulNonNeg(r, c); MulPos(b - r, c); assert (b - r) * c == b * c - r * c; }
    DivUnique(a * c, b * c, q, r * c);
  }

  lemma MulPos(a: int, b: int)
    requires a > 0 && b > 0
    ensures a * b > 0
  {
  }

  lemma MulNonNeg(a: int, b: int)
    requires a >= 0 && b >= 0
    ensures a * b >= 0
  {
  }

  lemma MulMono(a: int, b: int, c: int)
    requires a <= b && c >= 0
    ensures a * c <= b * c
  {
    assert (b - a) * c >= 0;
  }

  lemma Distribute(a: int, b: int, c: int)
    ensures (a + b) * c == a * c + b * c
  {
  }

  lemma DistributeLeft(c: int, a: int, b: int)
    ensures c * (a + b) == c * a + c * b
  {
  }

  /** Euclidean division is determined by its defining equation. */
  lemma DivUnique(a: int, b: int, q: int, r: int)
    requires b > 0 && a == b * q + r && 0 <= r < b
    ensures a / b == q
  {
    DivBounds(a, b);
    var d := a / b - q;
    assert b * (a / b) == b * q + b * d;
    assert b * d == d * b;
    if d >= 1 {
      MulMono(1, d, b);
    } else if d <= -1 {
      MulMono(d, -1, b);
    }
  }

  /** Bounds of ChopRound(a*ONE / y), the shape every quotient here reduces to. */
  lemma QuoScaled(a: nat, y: nat)
    requires y > 0
    ensures a * ONE >= 0
    ensures var q := ChopRound(a * ONE / y);
            q >= 0
            && 2 * y * q <= 2 * a + y
            && 2 * ONE * y * q > 2 * a * ONE - 2 * y - ONE * y
  {
    var t := a * ONE / y;
    DivBounds(a * ONE, y);
    ChopNear(t);
    ScaleBounds(a, y, t, ChopRound(t));
  }

  lemma ScaleBounds(a: int, y: int, t: int, q: int)
    requires y > 0
    requires y * t <= a * ONE < y * t + y
    requires 2 * t - ONE <= 2 * ONE * q <= 2 * t + ONE
    ensures 2 * y * q <= 2 * a + y
    ensures 2 * ONE * y * q > 2 * a * ONE - 2 * y - ONE * y
  {
    var m, n := y * t, y * q;
    MulMono(2 * ONE * q, 2 * t + ONE, y);
    MulMono(2 * t - ONE, 2 * ONE * q, y);
    assert (2 * ONE * q) * y == 2 * ONE * n;
    assert (2 * t + ONE) * y == 2 * m + ONE * y;
    assert (2 * t - ONE) * y == 2 * m - ONE * y;
    assert 2 * y * q == 2 * n;
    assert 2 * ONE * y * q == 2 * ONE * n;
  }
}
