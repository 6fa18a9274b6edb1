/**
 Minting, redeeming and the redemption rate of a zone's qAsset, and the split of its
 rewards: receipt.go, msg_server.go and ibc_packet_handlers.go of
 x/interchainstaking/keeper. Rates are 18-decimal numbers.
 */
module QAsset {
  import D = Dec
  import opened Coins

  function MintAmount(x: nat, rate: int): int
    requires rate != 0
  {
    D.TruncateInt(D.Quo(D.ToDec(x), rate))
  }

  function MintTotal(xs: seq<nat>, rate: int): int
    requires rate != 0
  {
    if xs == [] then 0 else MintAmount(xs[0], rate) + MintTotal(xs[1..], rate)
  }

  function Lower(last: int, current: int): int { if current < last then current else last }

  /** Native tokens paid for y of the qAsset, at the lower of the last two rates. */
  function Payout(y: nat, last: int, current: int): int
  {
    D.TruncateInt(D.Mul(D.ToDec(y), Lower(last, current)))
  }

  function Ratio(native: nat, rewards: nat, supply: nat): int
  {
    if supply == 0 then D.ONE else D.Quo(D.ToDec(native + rewards), D.ToDec(supply))
  }

  /** The rate of the last epoch and the current one. */
  datatype Rates = Rates(last: int, current: int)

  /** updateRedemptionRate: the current rate becomes the last one. */
  function UpdateRate(r: Rates, native: nat, rewards: nat, supply: nat): Rates
  {
    Rates(r.current, Ratio(native, rewards, supply))
  }

  ghost function Sum(xs: seq<nat>): nat
  {
    if xs == [] then 0 else xs[0] + Sum(xs[1..])
  }

  // ----- Mint, then redeem -----

  /** What y minted units are worth at the minting rate, against the deposit x. */
  lemma MintNear(x: nat, rate: int)
    requires rate > 0
    ensures var y := MintAmount(x, rate);
            && y >= 0
            && 2 * D.ONE * (y * rate) <= 2 * D.ONE * D.ONE * x + rate
            && 2 * D.ONE * D.ONE * (y * rate) + 2 * rate + D.ONE * rate + 2 * D.ONE * D.ONE * rate
               > 2 * D.ONE * D.ONE * D.ONE * x
  {
    var q := D.Quo(D.ToDec(x), rate);
    QuoByRate(x, rate);
    D.TruncateBounds(q);
    ScaleTruncation(rate, q, D.TruncateInt(q));
    assert MintAmount(x, rate) * rate == rate * MintAmount(x, rate);
  }

  lemma QuoByRate(x: nat, rate: int)
    requires rate > 0
    ensures var q := D.Quo(D.ToDec(x), rate);
            && q >= 0
            && 2 * (rate * q) <= 2 * D.ONE * D.ONE * x + rate
            && 2 * D.ONE * (rate * q) > 2 * D.ONE * D.ONE * D.ONE * x - 2 * rate - D.ONE * rate
  {
    hide D.ChopRound;
    var a := x * D.ONE * D.ONE;
    assert D.ToDec(x) * D.ONE * D.ONE == a * D.ONE;
    D.QuoScaled(a, rate);
    var q := D.ChopRound(a * D.ONE / rate);
    assert 2 * rate * q == 2 * (rate * q) && 2 * D.ONE * rate * q == 2 * D.ONE * (rate * q);
  }

  lemma ScaleTruncation(rate: int, q: int, y: int)
    requires rate > 0 && D.ONE * y <= q < D.ONE * y + D.ONE
    ensures D.ONE * (rate * y) <= rate * q <= D.ONE * (rate * y) + D.ONE * rate
  {
    D.MulMono(D.ONE * y, q, rate);
    D.MulMono(q, D.ONE * y + D.ONE, rate);
    assert D.ONE * y * rate == D.ONE * (rate * y);
    assert (D.ONE * y + D.ONE) * rate == D.ONE * (rate * y) + D.ONE * rate;
    assert q * rate == rate * q;
  }

  lemma {:induction false} MintTotalNear(xs: seq<nat>, rate: int)
    requires rate > 0
    ensures MintTotal(xs, rate) >= 0
    ensures MintedNear(MintTotal(xs, rate), Sum(xs), |xs|, rate)
  {
    if xs == [] {
    } else {
      MintNear(xs[0], rate);
      MintTotalNear(xs[1..], rate);
      CombineMints(MintAmount(xs[0], rate), xs[0], MintTotal(xs[1..], rate), Sum(xs[1..]), |xs| - 1, rate);
    }
  }

  /** k coins with sum x are minted to y, each rounding up by at most half a unit of the quotient. */
  ghost predicate MintedNear(y: int, x: nat, k: nat, rate: int)
  {
    2 * D.ONE * (y * rate) <= 2 * D.ONE * D.ONE * x + k * rate
  }

  lemma CombineMints(y: int, x: nat, z: int, s: nat, k: nat, rate: int)
    requires 2 * D.ONE * (y * rate) <= 2 * D.ONE * D.ONE * x + rate
    requires MintedNear(z, s, k, rate)
    ensures MintedNear(y + z, x + s, k + 1, rate)
  {
    D.Distribute(y, z, rate);
    D.Distribute(k, 1, rate);
  }

  /**
   The payout is the worth of the units at the lower rate, rounded down: at most their worth at
   either rate, and less than a unit below their worth at one of them.
   */
  lemma PayoutBounds(y: nat, last: int, current: int)
    requires last >= 0 && current >= 0
    ensures 0 <= Payout(y, last, current)
    ensures D.ONE * Payout(y, last, current) <= y * last
    ensures D.ONE * Payout(y, last, current) <= y * current
    ensures y * last < D.ONE * (Payout(y, last, current) + 1) || y * current < D.ONE * (Payout(y, last, current) + 1)
    ensures last >= current ==> y * current < D.ONE * Payout(y, last, current) + D.ONE
  {
    var r := Lower(last, current);
    D.MulOfInteger(y, r);
    D.MulNonNeg(y, r);
    D.TruncateBounds(y * r);
    D.MulMono(r, current, y);
    D.MulMono(r, last, y);
    assert r * y == y * r && current * y == y * current && last * y == y * last;
  }

  /** Units redeemed after a rise of the rate get nothing of the rise, and after a fall they bear all of it. */
  lemma PayoutIgnoresRise(y: nat, last: int, current: int)
    requires last >= 0 && current >= 0
    ensures last <= current ==> Payout(y, last, current) == Payout(y, last, last)
    ensures current <= last ==> Payout(y, last, current) == Payout(y, current, current)
    ensures Payout(y, last, current) <= Payout(y, last, last) && Payout(y, last, current) <= Payout(y, current, current)
  {
    hide Payout;
    var p, q, c := Payout(y, last, current), Payout(y, last, last), Payout(y, current, current);
    PayoutBounds(y, last, current);
    PayoutBounds(y, last, last);
    PayoutBounds(y, current, current);
    if last <= current {
      D.MulMono(last, current, y);
      assert last * y == y * last && current * y == y * current;
      assert D.ONE * p < D.ONE * (q + 1) && D.ONE * q < D.ONE * (p + 1) && D.ONE * p < D.ONE * (c + 1);
    } else {
      D.MulMono(current, last, y);
      assert last * y == y * last && current * y == y * current;
      assert D.ONE * p < D.ONE * (c + 1) && D.ONE * c < D.ONE * (p + 1) && D.ONE * p < D.ONE * (q + 1);
    }
  }

  /**
   Minting a deposit at a rate and redeeming all of it in the same epoch, or in the next one when
   that rate has become the last one, never pays out more than the deposit, whatever the other
   rate is, as long as the rate times the number of deposited coins is below 2 * 10^18 (as a value).
   */
  lemma NoGain(xs: seq<nat>, rate: int, other: int)
    requires rate > 0 && other >= 0 && |xs| * rate < 2 * D.ONE * D.ONE
    ensures MintTotal(xs, rate) >= 0
    ensures Payout(MintTotal(xs, rate), other, rate) <= Sum(xs)
    ensures Payout(MintTotal(xs, rate), rate, other) <= Sum(xs)
  {
    MintTotalNear(xs, rate);
    PayoutBounds(MintTotal(xs, rate), other, rate);
    PayoutBounds(MintTotal(xs, rate), rate, other);
  }

  /** A deposit made before the rate is updated gains nothing by the update. */
  lemma NoGainByUpdate(xs: seq<nat>, r: Rates, native: nat, rewards: nat, supply: nat)
    requires r.current > 0 && |xs| * r.current < 2 * D.ONE * D.ONE
    ensures MintTotal(xs, r.current) >= 0
    ensures var u := UpdateRate(r, native, rewards, supply);
            Payout(MintTotal(xs, r.current), u.last, u.current) <= Sum(xs)
  {
    hide Payout, MintTotal, Ratio;
    RatioNear(native, rewards, supply);
    NoGain(xs, r.current, Ratio(native, rewards, supply));
  }

  /** The rate is what backs a unit, native tokens and rewards, to within half a unit of its last decimal. */
  lemma RatioNear(native: nat, rewards: nat, supply: nat)
    ensures var q := Ratio(native, rewards, supply);
            && q >= 0
            && (supply == 0 ==> q == D.ONE)
            && (supply > 0 ==>
                  && 2 * supply * q <= 2 * (native + rewards) * D.ONE + supply
                  && 2 * D.ONE * supply * q > 2 * (native + rewards) * D.ONE * D.ONE - 2 * supply - D.ONE * supply)
  {
    hide D.Quo;
    if supply > 0 { D.QuoOfIntegers(native + rewards, supply); }
  }

  /** One unit below a whole quotient, rounding at 18 decimals reaches it once the divisor is large. */
  lemma RoundsUp(k: nat, s: nat)
    requires k > 0 && k % 2 == 0 && 2 * k <= s
    ensures (s - 1) * (k * D.ONE) >= 0
    ensures D.ChopRound((s - 1) * (k * D.ONE) / s) >= k
  {
    var whole, half := k * D.ONE, D.ONE / 2;
    assert (s - 1) * whole == s * whole - whole;
    D.MulMono(2 * k, s, half);
    assert s * (whole - half) == s * whole - s * half;
    D.MulNonNeg(s - 1, whole);
    DivAtLeast((s - 1) * whole, s, whole - half);
    ChopMonotone(whole - half, (s - 1) * whole / s);
    TieRoundsUp(k);
  }

  lemma TieRoundsUp(k: nat)
    requires k > 0 && k % 2 == 0
    ensures D.ChopRound(k * D.ONE - D.ONE / 2) == k
  {
    var x := k * D.ONE - D.ONE / 2;
    assert x == (k - 1) * D.ONE + D.ONE / 2;
    D.DivUnique(x, D.ONE, k - 1, D.ONE / 2);
  }

  /** From a rate of 2 * 10^18 on, rounding mints 10^18 units for a deposit one short of their worth. */
  lemma GainAbove(rate: int)
    requires rate >= 2 * D.ONE * D.ONE
    ensures var y := MintAmount(rate - 1, rate);
            y >= D.ONE && Payout(y, rate, rate) > rate - 1
  {
    hide D.ChopRound, D.TruncateInt;
    var k := D.ONE * D.ONE;
    RoundsUp(k, rate);
    assert D.ToDec(rate - 1) * D.ONE * D.ONE == (rate - 1) * (k * D.ONE);
    var q := D.Quo(D.ToDec(rate - 1), rate);
    assert q >= k;
    D.TruncateBounds(q);
    WorthAtLeast(MintAmount(rate - 1, rate), D.ONE, rate);
  }

  lemma WorthAtLeast(y: int, low: nat, rate: int)
    requires y >= low && rate >= 0
    ensures D.ONE * Payout(y, rate, rate) + D.ONE > low * rate
  {
    PayoutBounds(y, rate, rate);
    D.MulMono(low, y, rate);
  }

  ghost predicate NeverGains(rate: int)
    requires rate > 0
  {
    forall x: nat, other: nat :: NoGainOn(x, other, rate)
  }

  ghost predicate NoGainOn(x: nat, other: nat, rate: int)
    requires rate > 0
  {
    var y := MintAmount(x, rate);
    y >= 0 && Payout(y, other, rate) <= x && Payout(y, rate, other) <= x
  }

  /** Minting and redeeming a deposit never gains if and only if the rate is below 2 * 10^18. */
  lemma NoGainExactlyBelowBound(rate: int)
    requires rate > 0
    ensures NeverGains(rate) <==> rate < 2 * D.ONE * D.ONE
  {
    hide Payout, MintAmount;
    if rate < 2 * D.ONE * D.ONE {
      forall x: nat, other: nat ensures NoGainOn(x, other, rate) {
        NoGain([x], rate, other);
        assert MintTotal([], rate) == 0 && Sum([]) == 0;
      }
    } else {
      GainAbove(rate);
      var other: nat := rate;
      assert !NoGainOn(rate - 1, other, rate);
    }
  }

  /**
   A redemption at the rate of the deposit, which is the current rate and has not risen, or the
   last rate and has not fallen since, returns the deposit but for less than the rate, a unit and
   the rounding of the quotient; below a rate of 10^18, for less than the rate plus two units.
   */
  lemma SmallLoss(x: nat, rate: int, last: int)
    requires 0 < rate <= last
    ensures MintAmount(x, rate) >= 0
    ensures Payout(MintAmount(x, rate), rate, last) == Payout(MintAmount(x, rate), last, rate)
    ensures 2 * D.ONE * D.ONE * (D.ONE * Payout(MintAmount(x, rate), last, rate) + rate + D.ONE)
            + 2 * rate + D.ONE * rate > 2 * D.ONE * D.ONE * D.ONE * x
    ensures rate < D.ONE * D.ONE ==> D.ONE * Payout(MintAmount(x, rate), last, rate) + rate + 2 * D.ONE > D.ONE * x
  {
    hide Payout, MintAmount;
    MintNear(x, rate);
    var y := MintAmount(x, rate);
    PayoutBounds(y, last, rate);
    PayoutIgnoresRise(y, last, rate);
    PayoutIgnoresRise(y, rate, last);
  }

  // ----- Solvency of the whole supply -----

  ghost function PaidOut(ys: seq<nat>, last: int, current: int): int
  {
    if ys == [] then 0 else Payout(ys[0], last, current) + PaidOut(ys[1..], last, current)
  }

  lemma {:induction false} PaidOutBound(ys: seq<nat>, last: int, current: int)
    requires last >= 0 && current >= 0
    ensures D.ONE * PaidOut(ys, last, current) <= Sum(ys) * current
  {
    if ys == [] {
    } else {
      PayoutBounds(ys[0], last, current);
      PaidOutBound(ys[1..], last, current);
      D.Distribute(ys[0], Sum(ys[1..]), current);
    }
  }

  /**
   After a rate update, redeeming the whole supply in any pieces pays out at most what is
   delegated plus the epoch's rewards, while the supply is below 2 * 10^18.
   */
  lemma RedemptionsSolvent(native: nat, rewards: nat, supply: nat, last: int, ys: seq<nat>)
    requires supply < 2 * D.ONE && last >= 0 && Sum(ys) <= supply
    ensures PaidOut(ys, last, Ratio(native, rewards, supply)) <= native + rewards
  {
    var q := Ratio(native, rewards, supply);
    RatioNear(native, rewards, supply);
    PaidOutBound(ys, last, q);
    PaidWithin(PaidOut(ys, last, q), Sum(ys), supply, q, native + rewards);
  }

  /** At a rate that has not risen, redeeming the supply at once also pays that much, but for two units. */
  lemma BackingIsPaid(native: nat, rewards: nat, supply: nat, last: int)
    requires 0 < supply < 2 * D.ONE && last >= Ratio(native, rewards, supply)
    ensures Payout(supply, last, Ratio(native, rewards, supply)) >= native + rewards - 2
  {
    hide Payout, Ratio;
    var q := Ratio(native, rewards, supply);
    RatioNear(native, rewards, supply);
    assert supply * q < D.ONE * (Payout(supply, last, q) + 1) by { PayoutBounds(supply, last, q); }
    WorthRegrouped(supply, q, supply * q);
    AtMostTwoShort(Payout(supply, last, q), supply, supply * q, native + rewards);
  }

  lemma WorthRegrouped(supply: nat, q: int, worth: int)
    requires worth == supply * q
    ensures 2 * D.ONE * supply * q == 2 * D.ONE * worth
  {
  }

  lemma AtMostTwoShort(paid: int, supply: nat, worth: int, backing: nat)
    requires supply < 2 * D.ONE && worth < D.ONE * (paid + 1)
    requires 2 * D.ONE * worth > 2 * backing * D.ONE * D.ONE - 2 * supply - D.ONE * supply
    ensures paid >= backing - 2
  {
  }

  lemma PaidWithin(paid: int, redeemed: nat, supply: nat, q: int, backing: nat)
    requires redeemed <= supply < 2 * D.ONE && q >= 0
    requires D.ONE * paid <= redeemed * q && 2 * supply * q <= 2 * backing * D.ONE + supply
    ensures paid <= backing
  {
    D.MulMono(redeemed, supply, q);
    var m := supply * q;
    assert 2 * supply * q == 2 * m;
  }

  /** From a supply of 2 * 10^18 on, a supply that is one unit short of its backing still gets the rate 1. */
  lemma InsolventAbove(supply: nat)
    requires supply >= 2 * D.ONE
    ensures var q := Ratio(supply - 1, 0, supply);
            q >= 0 && Sum([supply]) == supply && PaidOut([supply], q, q) > supply - 1
  {
    hide D.ChopRound, D.TruncateInt;
    var n := (supply - 1) * (D.ONE * D.ONE);
    RoundsUp(D.ONE, supply);
    D.CancelDiv(n, supply, D.ONE);
    assert D.ToDec(supply - 1) * D.ONE * D.ONE == n * D.ONE;
    var q := Ratio(supply - 1, 0, supply);
    assert q >= D.ONE;
    PayoutBounds(supply, q, q);
    D.MulMono(D.ONE, q, supply);
    assert q * supply == supply * q;
    assert PaidOut([], q, q) == 0;
  }

  ghost predicate AlwaysSolvent(supply: nat)
  {
    forall native: nat, rewards: nat, last: nat, ys: seq<nat> ::
      Sum(ys) <= supply ==> PaidOut(ys, last, Ratio(native, rewards, supply)) <= native + rewards
  }

  /** Redemptions stay within the backing, whatever it is, if and only if the supply is below 2 * 10^18. */
  lemma SolventExactlyBelowBound(supply: nat)
    ensures AlwaysSolvent(supply) <==> supply < 2 * D.ONE
  {
    hide Ratio, PaidOut, Sum;
    if supply < 2 * D.ONE {
      forall native: nat, rewards: nat, last: nat, ys: seq<nat> | Sum(ys) <= supply
        ensures PaidOut(ys, last, Ratio(native, rewards, supply)) <= native + rewards
      {
        RedemptionsSolvent(native, rewards, supply, last, ys);
      }
    } else {
      InsolventAbove(supply);
    }
  }

  // ----- Splitting rewards -----

  function Fee(amount: nat, commission: int): int
  {
    D.TruncateInt(D.Mul(D.ToDec(amount), commission))
  }

  function Portion(rewards: nat, n: nat): int
    requires n > 0
  {
    D.TruncateInt(D.Quo(D.ToDec(rewards), D.ToDec(n)))
  }

  lemma ChopMonotone(x: nat, y: nat)
    requires x <= y
    ensures D.ChopRound(x) <= D.ChopRound(y)
  {
    D.DivBounds(x, D.ONE);
    D.DivBounds(y, D.ONE);
  }

  /** A portion is the whole number of units each account gets, below 2 * 10^18 accounts. */
  lemma PortionIsFloor(rewards: nat, n: nat)
    requires 0 < n < 2 * D.ONE
    ensures Portion(rewards, n) == rewards / n
  {
    hide Portion;
    var p, k := Portion(rewards, n), rewards / n;
    D.DivBounds(rewards, n);
    NotAbove(rewards, n, p);
    NotBelow(rewards, n, k);
    FloorBounds(rewards, n, p, k);
  }

  lemma NotBelow(rewards: nat, n: nat, k: nat)
    requires n > 0 && n * k <= rewards
    ensures Portion(rewards, n) >= k
  {
    hide D.Quo, D.ChopRound, D.TruncDiv, D.TruncateInt;
    AtLeast(rewards, n, k);
    D.TruncateBounds(D.Quo(D.ToDec(rewards), D.ToDec(n)));
  }

  lemma NotAbove(rewards: nat, n: nat, p: int)
    requires 0 < n < 2 * D.ONE && p == Portion(rewards, n)
    ensures n * p <= rewards
  {
    hide D.Quo, D.ChopRound, D.TruncDiv, D.TruncateInt;
    var q := D.Quo(D.ToDec(rewards), D.ToDec(n));
    D.QuoOfIntegers(rewards, n);
    D.TruncateBounds(q);
    ScaleTruncation(n, q, p);
    ScaledBound(rewards, n, n * p, n * q);
  }

  lemma ScaledBound(rewards: nat, n: nat, np: int, nq: int)
    requires n < 2 * D.ONE && D.ONE * np <= nq && 2 * nq <= 2 * rewards * D.ONE + n
    ensures np <= rewards
  {
  }

  lemma FloorBounds(rewards: nat, n: nat, p: int, k: int)
    requires n > 0 && n * p <= rewards < n * k + n && p >= k
    ensures p == k
  {
    assert (k + 1) * n == n * k + n && p * n == n * p;
    if p >= k + 1 {
      D.MulMono(k + 1, p, n);
    }
  }

  lemma AtLeast(rewards: nat, n: nat, k: nat)
    requires n > 0 && n * k <= rewards
    ensures D.Quo(D.ToDec(rewards), D.ToDec(n)) >= k * D.ONE
  {
    var num := rewards * D.ONE * D.ONE;
    D.CancelDiv(num, n, D.ONE);
    assert D.ToDec(rewards) * D.ONE * D.ONE == num * D.ONE;
    D.MulMono(n * k, rewards, D.ONE * D.ONE);
    D.DivBounds(num, n);
    assert n * (k * D.ONE * D.ONE) <= num;
    DivAtLeast(num, n, k * D.ONE * D.ONE);
    ChopMonotone(k * D.ONE * D.ONE, num / n);
    D.ChopExact(k * D.ONE);
  }

  lemma DivAtLeast(a: int, b: int, c: int)
    requires b > 0 && b * c <= a
    ensures a / b >= c
  {
    D.DivBounds(a, b);
    var d := a / b;
    assert (d + 1) * b == b * d + b && c * b == b * c;
    if d + 1 <= c {
      D.MulMono(d + 1, c, b);
    }
  }

  // ----- The loops -----

  datatype MintResult = Minted(amount: nat) | ZeroRate | NegativeCoin

  function Amounts(c: Coins): seq<nat>
  {
    if c == [] then [] else [c[0].amount] + Amounts(c[1..])
  }

  /** A zero rate is an error, a coin that comes out negative panics, and anything else is minted in full. */
  method MintQAsset(rate: int, inCoins: Coins) returns (r: MintResult)
    ensures r == ZeroRate <==> rate == 0
    ensures r == NegativeCoin <==>
              rate != 0 && exists i :: 0 <= i < |inCoins| && MintAmount(inCoins[i].amount, rate) < 0
    ensures rate > 0 ==> r.Minted?
    ensures r.Minted? ==> r.amount == MintTotal(Amounts(inCoins), rate)
    ensures Sum(Amounts(inCoins)) == SumAll(inCoins)
  {
    AmountsSum(inCoins);
    if rate == 0 {
      return ZeroRate;
    }
    var out := 0;
    for i := 0 to |inCoins|
      invariant out >= 0 && forall k :: 0 <= k < i ==> MintAmount(inCoins[k].amount, rate) >= 0
      invariant MintTotal(Amounts(inCoins), rate) == out + MintTotal(Amounts(inCoins[i..]), rate)
    {
      assert inCoins[i..][0] == inCoins[i] && inCoins[i..][1..] == inCoins[i + 1..];
      assert Amounts(inCoins[i..])[1..] == Amounts(inCoins[i + 1..]);
      hide MintAmount;
      var n := MintAmount(inCoins[i].amount, rate);
      if rate > 0 {
        MintNear(inCoins[i].amount, rate);
      }
      if n < 0 {
        return NegativeCoin;
      }
      out := out + n;
    }
    return Minted(out);
  }

  lemma {:induction false} AmountsSum(c: Coins)
    ensures Sum(Amounts(c)) == SumAll(c)
  {
    if c == [] {
    } else {
      AmountsSum(c[1..]);
      assert Amounts(c)[1..] == Amounts(c[1..]);
    }
  }

  datatype Distribution = Distributed(sends: seq<(string, nat)>, transfers: Coins, rewards: nat)
                        | NoDelegators | NegativeAmount | NoChannel

  ghost function SentSum(sends: seq<(string, nat)>): nat
  {
    if sends == [] then 0 else sends[0].1 + SentSum(sends[1..])
  }

  lemma {:induction false} SentAppend(sends: seq<(string, nat)>, to: string, n: nat)
    ensures SentSum(sends + [(to, n)]) == SentSum(sends) + n
  {
    if sends == [] {
      assert SentSum([]) == 0;
      assert ([(to, n)])[1..] == [];
    } else {
      assert (sends + [(to, n)])[1..] == sends[1..] + [(to, n)];
      SentAppend(sends[1..], to, n);
    }
  }

  /** One send of an equal portion per account; the dust is what the portions leave. */
  method PrepareRewardsDistribution(accounts: seq<string>, rewards: nat) returns (dust: int, sends: seq<(string, nat)>)
    requires accounts != []
    ensures Portion(rewards, |accounts|) >= 0
    ensures |sends| == |accounts|
    ensures forall i :: 0 <= i < |sends| ==> sends[i] == (accounts[i], Portion(rewards, |accounts|))
    ensures SentSum(sends) == rewards - dust
    ensures |accounts| < 2 * D.ONE ==> 0 <= dust < |accounts|
  {
    dust := rewards;
    sends := [];
    var portion := D.TruncateInt(D.Quo(D.ToDec(rewards), D.ToDec(|accounts|)));
    D.QuoOfIntegers(rewards, |accounts|);
    D.TruncateBounds(D.Quo(D.ToDec(rewards), D.ToDec(|accounts|)));
    assert portion == Portion(rewards, |accounts|) >= 0;
    for i := 0 to |accounts|
      invariant |sends| == i && forall k :: 0 <= k < i ==> sends[k] == (accounts[k], portion)
      invariant SentSum(sends) == rewards - dust == i * portion
    {
      SentAppend(sends, accounts[i], portion);
      sends := sends + [(accounts[i], portion)];
      dust := dust - portion;
      D.Distribute(i, 1, portion);
    }
    if |accounts| < 2 * D.ONE {
      PortionIsFloor(rewards, |accounts|);
      D.DivBounds(rewards, |accounts|);
    }
  }

  /** The coins that are there at all. */
  function Positive(c: Coins): Coins
  {
    if c == [] then [] else (if c[0].amount > 0 then [c[0]] else []) + Positive(c[1..])
  }

  lemma {:induction false} PositiveAmount(c: Coins, d: string)
    ensures AmountOf(Positive(c), d) == AmountOf(c, d)
  {
    if c == [] {
    } else {
      PositiveAmount(c[1..], d);
      var r, rest := Positive(c), Positive(c[1..]);
      if c[0].amount > 0 {
        assert r == [c[0]] + rest && r[1..] == rest;
      } else {
        assert r == rest;
      }
    }
  }

  /** The fee is the commission's part of the amount, rounded down. */
  lemma FeeFits(amount: nat, commission: int)
    requires 0 <= commission <= D.ONE
    ensures 0 <= Fee(amount, commission) <= amount
    ensures D.ONE * Fee(amount, commission) <= amount * commission < D.ONE * Fee(amount, commission) + D.ONE
  {
    D.MulOfInteger(amount, commission);
    D.MulNonNeg(amount, commission);
    D.TruncateBounds(amount * commission);
    D.MulMono(commission, D.ONE, amount);
    assert commission * amount == amount * commission;
  }

  /**
   The withdrawal balance leaves in full: in every denomination the sends to the
   delegation accounts and the fee transfers add up to it.
   */
  method DistributeRewards(balances: Coins, denom: string, accounts: seq<string>, commission: int, channel: bool)
    returns (r: Distribution)
    ensures r.Distributed? ==>
              && |r.sends| == |accounts| && SentSum(r.sends) == r.rewards
              && forall d :: (if d == denom then r.rewards else 0) + AmountOf(r.transfers, d) == AmountOf(balances, d)
    ensures 0 <= commission <= D.ONE && 0 < |accounts| < 2 * D.ONE ==>
              && r.Distributed? == channel
              && (channel ==>
                    var kept := AmountOf(balances, denom) - Fee(AmountOf(balances, denom), commission);
                    && 0 <= kept - r.rewards < |accounts|
                    && forall i :: 0 <= i < |r.sends| ==> r.sends[i] == (accounts[i], kept / |accounts|))
  {
    var base := AmountOf(balances, denom);
    var fee := D.TruncateInt(D.Mul(D.ToDec(base), commission));
    var kept := base - fee;
    if 0 <= commission <= D.ONE {
      FeeFits(base, commission);
    }
    if kept < 0 {
      return NegativeAmount;
    }
    if accounts == [] {
      return NoDelegators;
    }
    var dust, sends := PrepareRewardsDistribution(accounts, kept);
    var rewards := kept - dust;
    if rewards < 0 || rewards > base {
      return NegativeAmount;
    }
    var fees := Take(balances, denom, rewards);
    if !channel {
      return NoChannel;
    }
    if |accounts| < 2 * D.ONE {
      PortionIsFloor(kept, |accounts|);
    }
    forall d ensures (if d == denom then rewards else 0) + AmountOf(Positive(fees), d) == AmountOf(balances, d) {
      TakeAmount(balances, denom, rewards, d);
      PositiveAmount(fees, d);
    }
    r := Distributed(sends, Positive(fees), rewards);
  }
}
