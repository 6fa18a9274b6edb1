/** Coins: amounts per denomination, kept as a list. A zero entry means nothing. */
module Coins {

  datatype Coin = Coin(denom: string, amount: nat)

  type Coins = seq<Coin>

  function AmountOf(c: Coins, d: string): nat
  {
    if c == [] then 0 else (if c[0].denom == d then c[0].amount else 0) + AmountOf(c[1..], d)
  }

  /** All denominations counted together. */
  function SumAll(c: Coins): nat
  {
    if c == [] then 0 else c[0].amount + SumAll(c[1..])
  }

  function AddCoin(c: Coins, x: Coin): Coins
  {
    if c == [] then [x]
    else if c[0].denom == x.denom then [Coin(x.denom, c[0].amount + x.amount)] + c[1..]
    else [c[0]] + AddCoin(c[1..], x)
  }

  function Add(c: Coins, xs: Coins): Coins
    decreases xs
  {
    if xs == [] then c else Add(AddCoin(c, xs[0]), xs[1..])
  }

  /** Takes n of denomination d out of c. */
  function Take(c: Coins, d: string, n: nat): Coins
    requires n <= AmountOf(c, d)
  {
    if c == [] then []
    else if c[0].denom != d then [c[0]] + Take(c[1..], d, n)
    else if n <= c[0].amount then [Coin(d, c[0].amount - n)] + c[1..]
    else [Coin(d, 0)] + Take(c[1..], d, n - c[0].amount)
  }

  function Min(a: nat, b: nat): nat { if a <= b then a else b }

  /** Takes as much of `want` out of `have` as there is: what is left, and what was missing. */
  function Withdraw(have: Coins, want: Coins): (Coins, Coins)
    decreases want
  {
    if want == [] then (have, [])
    else
      var n := Min(AmountOf(have, want[0].denom), want[0].amount);
      var (left, missing) := Withdraw(Take(have, want[0].denom, n), want[1..]);
      (left, [Coin(want[0].denom, want[0].amount - n)] + missing)
  }

  lemma {:induction false} AddCoinAmount(c: Coins, x: Coin, d: string)
    ensures AmountOf(AddCoin(c, x), d) == AmountOf(c, d) + (if x.denom == d then x.amount else 0)
    ensures SumAll(AddCoin(c, x)) == SumAll(c) + x.amount
  {
    if c == [] {
    } else {
      AddCoinAmount(c[1..], x, d);
    }
  }

  lemma {:induction false} AddAmount(c: Coins, xs: Coins, d: string)
    ensures AmountOf(Add(c, xs), d) == AmountOf(c, d) + AmountOf(xs, d)
    ensures SumAll(Add(c, xs)) == SumAll(c) + SumAll(xs)
    decreases xs
  {
    if xs == [] {
    } else {
      AddCoinAmount(c, xs[0], d);
      AddAmount(AddCoin(c, xs[0]), xs[1..], d);
    }
  }

  lemma {:induction false} TakeAmount(c: Coins, d: string, n: nat, e: string)
    requires n <= AmountOf(c, d)
    ensures AmountOf(Take(c, d, n), e) == AmountOf(c, e) - (if d == e then n else 0)
    ensures SumAll(Take(c, d, n)) == SumAll(c) - n
  {
    if c == [] {
    } else {
      if c[0].denom != d {
        TakeAmount(c[1..], d, n, e);
      } else if n > c[0].amount {
        TakeAmount(c[1..], d, n - c[0].amount, e);
      }
    }
  }

  /** Withdrawing moves what it can: nothing is created, and only an empty denomination leaves a shortfall. */
  lemma {:induction false} WithdrawSplits(have: Coins, want: Coins, d: string)
    ensures var (left, missing) := Withdraw(have, want);
            && AmountOf(left, d) + AmountOf(want, d) == AmountOf(have, d) + AmountOf(missing, d)
            && AmountOf(left, d) <= AmountOf(have, d)
            && (AmountOf(missing, d) == 0 || AmountOf(left, d) == 0)
    decreases want
  {
    if want == [] {
    } else {
      var n := Min(AmountOf(have, want[0].denom), want[0].amount);
      TakeAmount(have, want[0].denom, n, d);
      WithdrawSplits(Take(have, want[0].denom, n), want[1..], d);
    }
  }
}
