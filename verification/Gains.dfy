/**
 Exactly when minting a deposit of several coins and redeeming it can gain: MintQAsset
 (receipt.go) and RequestRedemption (msg_server.go) of x/interchainstaking/keeper.
 */
module Gains {
  import D = Dec
  import opened QAsset

  // ----- Common divisors -----

  function Gcd(a: nat, b: nat): (g: nat)
    ensures a > 0 || b > 0 ==> g > 0
    decreases b
  {
    if b == 0 then a else Gcd(b, a % b)
  }

  lemma {:induction false} GcdParts(a: nat, b: nat) returns (i: nat, j: nat)
    ensures a == i * Gcd(a, b) && b == j * Gcd(a, b)
    decreases b
  {
    hide Gcd;
    GcdStep(a, b);
    if b == 0 {
      i, j := 1, 0;
    } else {
      var q, r := DivMod(a, b);
      var k, l := GcdParts(b, r);
      D.MulNonNeg(q, k);
      i, j := q * k + l, k;
      Recombine(a, q, b, r, k, l, Gcd(a, b));
    }
  }

  lemma GcdStep(a: nat, b: nat)
    ensures Gcd(a, b) == if b == 0 then a else Gcd(b, a % b)
  {
  }

  lemma DivMod(a: nat, b: nat) returns (q: nat, r: nat)
    requires b > 0
    ensures r == a % b < b && a == q * b + r
  {
    q, r := a / b, a % b;
  }

  lemma Recombine(a: int, q: int, b: int, r: int, k: int, l: int, g: int)
    requires a == q * b + r && b == k * g && r == l * g
    ensures a == (q * k + l) * g
  {
    D.Distribute(q * k, l, g);
    assert q * (k * g) == q * k * g;
  }

  lemma {:induction false} Bezout(a: nat, b: nat) returns (u: int, v: int)
    ensures a * u + b * v == Gcd(a, b)
    decreases b
  {
    if b == 0 {
      u, v := 1, 0;
    } else {
      var q, r := a / b, a % b;
      var k, l := Bezout(b, r);
      u, v := l, k - q * l;
      EuclidStep(a, b, q, r, k, l);
    }
  }

  lemma EuclidStep(a: int, b: int, q: int, r: int, k: int, l: int)
    requires a == b * q + r
    ensures a * l + b * (k - q * l) == b * k + r * l
  {
    assert a * l == b * q * l + r * l;
    assert b * (k - q * l) == b * k - b * q * l;
  }

  // ----- One coin -----

  /** A deposit mints y units if and only if it is short of their worth by at most half a unit of the quotient. */
  lemma MintExact(x: nat, rate: int, y: nat)
    requires rate > 0
    ensures MintAmount(x, rate) >= y <==> 2 * D.ONE * D.ONE * x + rate >= 2 * D.ONE * (y * rate)
  {
    hide MintAmount;
    MintNear(x, rate);
    var m := MintAmount(x, rate);
    if m >= y { D.MulMono(y, m, rate); }
    if 2 * D.ONE * D.ONE * x + rate >= 2 * D.ONE * (y * rate) && y > 0 {
      MintReaches(x, rate, y);
    }
  }

  lemma MintReaches(x: nat, rate: int, y: nat)
    requires rate > 0 && y > 0 && 2 * D.ONE * D.ONE * x + rate >= 2 * D.ONE * (y * rate)
    ensures MintAmount(x, rate) >= y
  {
    hide MintAmount, D.Quo;
    WorthOfGoal(x, y, rate, y * rate);
    QuoReaches(x * D.ONE * D.ONE * D.ONE, rate, D.ONE * y);
    QuoOfDeposit(x, rate);
    MintOfQuo(x, rate, y);
  }

  lemma QuoReaches(num: nat, rate: int, k: nat)
    requires rate > 0 && k > 0 && k % 2 == 0 && rate * (k * D.ONE - D.ONE / 2) <= num
    ensures D.ChopRound(num / rate) >= k
  {
    hide D.ChopRound;
    var goal := k * D.ONE - D.ONE / 2;
    DivAtLeast(num, rate, goal);
    ChopMonotone(goal, num / rate);
    TieRoundsUp(k);
  }

  lemma MintOfQuo(x: nat, rate: int, y: nat)
    requires rate > 0 && D.Quo(D.ToDec(x), rate) >= D.ONE * y
    ensures MintAmount(x, rate) >= y
  {
    hide D.Quo, D.TruncateInt;
    D.TruncateBounds(D.Quo(D.ToDec(x), rate));
  }

  lemma WorthOfGoal(x: nat, y: nat, rate: int, worth: int)
    requires worth == y * rate && 2 * D.ONE * D.ONE * x + rate >= 2 * D.ONE * worth
    ensures rate * (D.ONE * y * D.ONE - D.ONE / 2) <= x * D.ONE * D.ONE * D.ONE
  {
    assert rate * (D.ONE * y * D.ONE - D.ONE / 2) == D.ONE * D.ONE * worth - D.ONE / 2 * rate;
  }

  lemma QuoOfDeposit(x: nat, rate: int)
    requires rate > 0
    ensures D.Quo(D.ToDec(x), rate) == D.ChopRound(x * D.ONE * D.ONE * D.ONE / rate)
  {
    hide D.ChopRound;
    assert D.ToDec(x) * D.ONE * D.ONE == x * D.ONE * D.ONE * D.ONE;
  }

  /** What the minted units are worth beyond the deposit, scaled by 10^18. */
  function Surplus(x: nat, rate: int): int
    requires rate > 0
  {
    MintAmount(x, rate) * rate - D.ONE * x
  }

  /**
   The best surplus of one coin, scaled by 10^18: the largest multiple of the common divisor of
   the scaled rate and 10^18 that is not above half the rate as a value.
   */
  function Best(rate: int): nat
    requires rate > 0
  {
    LargestMultiple(Gcd(rate, D.ONE), rate / (2 * D.ONE))
  }

  function LargestMultiple(g: nat, h: nat): nat
    requires g > 0
  {
    assert h % g <= h by { RemainderAtMost(h, g); }
    h - h % g
  }

  lemma RemainderAtMost(h: nat, g: nat)
    requires g > 0
    ensures h - h % g == g * (h / g) >= 0
  {
    D.MulNonNeg(g, h / g);
  }

  lemma SurplusAtMostBest(x: nat, rate: int)
    requires rate > 0
    ensures Surplus(x, rate) <= Best(rate)
  {
    hide MintAmount, Gcd;
    var g, y := Gcd(rate, D.ONE), MintAmount(x, rate);
    var i, j := GcdParts(rate, D.ONE);
    MintNear(x, rate);
    var m := y * i - j * x;
    assert Surplus(x, rate) == m * g by { CommonFactor(y, i, x, j, g); }
    assert m * g <= rate / (2 * D.ONE);
    MultipleBelow(m, g, rate / (2 * D.ONE));
  }

  lemma CommonFactor(y: int, i: int, x: int, j: int, g: int)
    ensures y * (i * g) - j * g * x == (y * i - j * x) * g
  {
  }

  lemma MultipleBelow(m: int, g: nat, h: nat)
    requires g > 0 && m * g <= h
    ensures m * g <= LargestMultiple(g, h)
  {
    RemainderAtMost(h, g);
    assert g * m == m * g;
    DivAtLeast(h, g, m);
    D.MulMono(m, h / g, g);
    assert h / g * g == g * (h / g);
  }

  /** Some deposit reaches the best surplus. */
  lemma BestIsReached(rate: int) returns (x: nat)
    requires rate > 0
    ensures Surplus(x, rate) >= Best(rate)
  {
    hide MintAmount, Gcd;
    var g := Gcd(rate, D.ONE);
    var h, q := rate / (2 * D.ONE), rate / (2 * D.ONE) / g;
    var u, v := Bezout(rate, D.ONE);
    var y: nat;
    x, y := Solve(rate, u * q, v * q, g * q) by { ScaleBezout(rate, u, v, g, q); }
    RemainderAtMost(h, g);
    assert 2 * D.ONE * (g * q) <= rate;
    MintExact(x, rate, y);
    D.MulMono(y, MintAmount(x, rate), rate);
  }

  lemma ScaleBezout(rate: int, u: int, v: int, g: int, q: int)
    requires rate * u + D.ONE * v == g
    ensures rate * (u * q) + D.ONE * (v * q) == g * q
  {
    assert (rate * u + D.ONE * v) * q == rate * (u * q) + D.ONE * (v * q);
  }

  /** An integer solution of rate * a + 10^18 * b == e, moved to non-negative y and x with y * rate == 10^18 * x + e. */
  lemma Solve(rate: int, a: int, b: int, e: int) returns (x: nat, y: nat)
    requires rate > 0 && rate * a + D.ONE * b == e
    ensures y * rate == D.ONE * x + e
  {
    var t := (if a < 0 then -a else a) + (if b < 0 then -b else b);
    D.MulMono(1, rate, t);
    assert rate * t == t * rate;
    y, x := a + t * D.ONE, t * rate - b;
    assert y * rate == rate * a + D.ONE * (t * rate);
  }

  // ----- Many coins -----

  lemma {:induction false} TotalSurplus(xs: seq<nat>, rate: int)
    requires rate > 0
    ensures MintTotal(xs, rate) >= 0
    ensures MintTotal(xs, rate) * rate - D.ONE * Sum(xs) <= |xs| * Best(rate)
  {
    hide MintAmount, Best;
    if xs == [] {
    } else {
      SurplusAtMostBest(xs[0], rate);
      MintNear(xs[0], rate);
      TotalSurplus(xs[1..], rate);
      D.Distribute(MintAmount(xs[0], rate), MintTotal(xs[1..], rate), rate);
      D.Distribute(1, |xs| - 1, Best(rate));
    }
  }

  lemma {:induction false} Repeated(x: nat, k: nat, rate: int)
    requires rate > 0
    ensures var xs := seq(k, _ => x);
            MintTotal(xs, rate) == k * MintAmount(x, rate) && Sum(xs) == k * x
  {
    hide MintAmount;
    if k == 0 {
    } else {
      var xs := seq(k, _ => x);
      assert xs[1..] == seq(k - 1, _ => x);
      Repeated(x, k - 1, rate);
      D.Distribute(k - 1, 1, MintAmount(x, rate));
      D.Distribute(k - 1, 1, x);
    }
  }

  /**
   What the coins are minted to is redeemed for no more than the coins: while their rate is the
   current one, and once it is the last one.
   */
  ghost predicate Gainless(xs: seq<nat>, other: nat, rate: int)
    requires rate > 0
  {
    && MintTotal(xs, rate) >= 0
    && Payout(MintTotal(xs, rate), other, rate) <= Sum(xs)
    && Payout(MintTotal(xs, rate), rate, other) <= Sum(xs)
  }

  /** No deposit of k coins is ever redeemed for more than it was, whatever the other rate. */
  ghost predicate NeverGainsOn(rate: int, k: nat)
    requires rate > 0
  {
    forall xs: seq<nat>, other: nat :: |xs| == k ==> Gainless(xs, other, rate)
  }

  lemma PayoutWithin(y: nat, last: nat, rate: int, s: nat)
    requires rate > 0
    ensures y * rate - D.ONE * s < D.ONE ==> Payout(y, last, rate) <= s && Payout(y, rate, last) <= s
    ensures y * rate - D.ONE * s >= D.ONE ==> Payout(y, rate, rate) > s
  {
    hide Payout;
    PayoutBounds(y, last, rate);
    PayoutBounds(y, rate, last);
    PayoutBounds(y, rate, rate);
  }

  lemma SurplusTimes(k: nat, y: int, rate: int, x: nat, best: nat)
    requires y * rate - D.ONE * x >= best && k * best >= D.ONE
    ensures k * y * rate - D.ONE * (k * x) >= D.ONE
  {
    var surplus := y * rate - D.ONE * x;
    D.MulMono(best, surplus, k);
    Scaled(k, y, rate, x);
    assert k * best == best * k;
  }

  lemma Scaled(k: int, y: int, rate: int, x: int)
    ensures (y * rate - D.ONE * x) * k == k * y * rate - D.ONE * (k * x)
  {
    var a, b := y * rate, D.ONE * x;
    D.Distribute(a, -b, k);
    assert a * k == k * y * rate;
    assert b * k == D.ONE * (k * x);
  }

  lemma ManyGain(rate: int, k: nat) returns (xs: seq<nat>)
    requires rate > 0 && k * Best(rate) >= D.ONE
    ensures |xs| == k && !Gainless(xs, rate, rate)
  {
    hide MintAmount, Best, Payout, MintTotal, Sum;
    var x := BestIsReached(rate);
    xs := seq(k, _ => x);
    Repeated(x, k, rate);
    var y := MintAmount(x, rate);
    MintNear(x, rate);
    D.MulNonNeg(k, y);
    SurplusTimes(k, y, rate, x, Best(rate));
    PayoutWithin(k * y, 0, rate, k * x);
  }

  /**
   A deposit of k coins can never gain if and only if k times the best surplus of one coin
   stays below one unit.
   */
  lemma NoGainExactly(rate: int, k: nat)
    requires rate > 0
    ensures NeverGainsOn(rate, k) <==> k * Best(rate) < D.ONE
  {
    hide MintTotal, Best, Payout, Sum;
    if k * Best(rate) < D.ONE {
      forall xs: seq<nat>, other: nat | |xs| == k ensures Gainless(xs, other, rate) {
        TotalSurplus(xs, rate);
        PayoutWithin(MintTotal(xs, rate), other, rate, Sum(xs));
      }
    } else {
      var xs := ManyGain(rate, k);
      var other: nat := rate;
      assert !Gainless(xs, other, rate);
    }
  }

  /** At a rate of exactly 10^18 no number of coins gains; at the next rate above it two coins do. */
  lemma TwoCoinsGain(k: nat)
    ensures NeverGainsOn(D.ONE * D.ONE, k) && !NeverGainsOn(D.ONE * D.ONE + 1, 2)
  {
    hide NeverGainsOn;
    var low, high := D.ONE * D.ONE, D.ONE * D.ONE + 1;
    assert low % D.ONE == 0 && high % D.ONE == 1 && D.ONE % 1 == 0;
    assert Gcd(low, D.ONE) == Gcd(D.ONE, 0) == D.ONE;
    assert Gcd(high, D.ONE) == Gcd(D.ONE, 1) == Gcd(1, 0) == 1;
    assert Best(low) == 0 && Best(high) == D.ONE / 2;
    NoGainExactly(low, k);
    NoGainExactly(high, 2);
  }
}
