/** Delegation plans for a deposit: x/interchainstaking/types/delegation.go. */
module Plans {
  import D = Dec
  import opened Coins
  import opened StableSort
  import opened Allocations
  import opened Intent

  /** A plan, the error for a foreign denomination, or a panic of the node. */
  datatype PlanResult = Planned(entries: Entries) | WrongDenom | Panic

  function One(denom: string, n: nat): Coins { [Coin(denom, n)] }

  /** Greedy fill: each positive delta takes its amount, the last one what remains. */
  function Fill(ds: seq<Diff>, denom: string, value: nat, out: Entries): (Entries, nat)
    decreases ds
  {
    if ds == [] then (out, value)
    else if ds[0].amount <= 0 then Fill(ds[1..], denom, value, out)
    else if ds[0].amount >= value then (Allocated(out, ds[0].valoper, One(denom, value)), 0)
    else Fill(ds[1..], denom, value - ds[0].amount, Allocated(out, ds[0].valoper, One(denom, ds[0].amount)))
  }

  /** What a weight takes of the value that is left. */
  function Share(value: int, weight: int): int
  {
    D.TruncateInt(D.Mul(D.ToDec(value), weight))
  }

  /** Spreads what the deltas did not take; None when a negative coin panics. */
  function Spread(keys: seq<string>, w: Weights, denom: string, value: int, out: Entries): Option<(Entries, int)>
    requires forall v :: v in keys ==> v in w
    decreases keys
  {
    if keys == [] then Some((out, value))
    else
      var n := Share(value, w[keys[0]]);
      if n < 0 then None
      else Spread(keys[1..], w, denom, value - n, Allocated(out, keys[0], One(denom, n)))
  }

  /** The correction at the end: what is still missing goes to the last delta. */
  function Correct(out: Entries, ds: seq<Diff>, coin: Coin): PlanResult
  {
    var sum := SumForDenom(out, coin.denom);
    if sum == coin.amount && coin.amount > 0 then Planned(out)
    else if sum > coin.amount || ds == [] then Panic
    else Planned(Allocated(out, ds[|ds| - 1].valoper, One(coin.denom, coin.amount - sum)))
  }

  function PlanFrom(ds: seq<Diff>, coin: Coin, w: Weights, keys: seq<string>): PlanResult
    requires forall v :: v in keys ==> v in w
  {
    var (filled, rest) := Fill(ds, coin.denom, coin.amount, []);
    if rest == 0 then Correct(filled, ds, coin)
    else match Spread(keys, w, coin.denom, rest, filled) {
      case None => Panic
      case Some((spread, _)) => Correct(spread, ds, coin)
    }
  }

  /** What will be delegated once the coin is. */
  function Grown(total: Coin, coin: Coin): nat { total.amount + coin.amount }

  function GlobalPlan(total: Coin, bins: Entries, coin: Coin, w: Weights, keys: seq<string>): PlanResult
    requires forall v :: v in keys ==> v in w
  {
    if coin.denom != total.denom then WrongDenom
    else PlanFrom(Deltas(bins, Grown(total, coin), w, keys), coin, w, keys)
  }

  // ----- The greedy fill -----

  ghost function PositiveSum(ds: seq<Diff>): nat
  {
    if ds == [] then 0 else (if ds[0].amount > 0 then ds[0].amount else 0) + PositiveSum(ds[1..])
  }

  /** The room a validator has: its delta when positive. */
  ghost function Room(ds: seq<Diff>, v: string): nat
  {
    if ds == [] then 0
    else if ds[0].valoper == v then (if ds[0].amount > 0 then ds[0].amount else 0)
    else Room(ds[1..], v)
  }

  lemma OneAmount(denom: string, n: nat)
    ensures AmountOf(One(denom, n), denom) == n
  {
    assert AmountOf([], denom) == 0;
  }

  lemma OneOther(d: string, e: string, n: nat)
    ensures AmountOf(One(d, n), e) == (if d == e then n else 0)
  {
    assert AmountOf([], e) == 0;
  }

  lemma {:induction false} FillConserves(ds: seq<Diff>, denom: string, value: nat, out: Entries)
    requires Distinct(out)
    ensures var (r, rest) := Fill(ds, denom, value, out);
            && SumForDenom(r, denom) + rest == SumForDenom(out, denom) + value
            && rest == (if PositiveSum(ds) >= value then 0 else value - PositiveSum(ds))
            && Distinct(r)
    decreases ds
  {
    if ds == [] {
    } else {
      if ds[0].amount <= 0 {
        FillConserves(ds[1..], denom, value, out);
      } else {
        var n := Min(ds[0].amount, value);
        OneAmount(denom, n);
        AllocatedSum(out, ds[0].valoper, One(denom, n), denom);
        AllocatedDistinct(out, ds[0].valoper, One(denom, n));
        if ds[0].amount < value {
          FillConserves(ds[1..], denom, value - ds[0].amount, Allocated(out, ds[0].valoper, One(denom, n)));
        }
      }
    }
  }

  ghost predicate Mentions(ds: seq<Diff>, v: string)
  {
    exists i :: 0 <= i < |ds| && ds[i].valoper == v
  }

  lemma MentionsSplit(ds: seq<Diff>, v: string)
    requires ds != []
    ensures Mentions(ds, v) <==> ds[0].valoper == v || Mentions(ds[1..], v)
  {
    if Mentions(ds[1..], v) {
      var i :| 0 <= i < |ds[1..]| && ds[1..][i].valoper == v;
      assert ds[i + 1].valoper == v;
    }
    if Mentions(ds, v) && ds[0].valoper != v {
      var i :| 0 <= i < |ds| && ds[i].valoper == v;
      assert ds[1..][i - 1].valoper == v;
    }
  }

  lemma {:induction false} RoomOfAbsent(ds: seq<Diff>, v: string)
    requires !Mentions(ds, v)
    ensures Room(ds, v) == 0
  {
    if ds == [] {
    } else {
      MentionsSplit(ds, v);
      RoomOfAbsent(ds[1..], v);
    }
  }

  /** What v gains by the fill. */
  ghost predicate Gains(out: Entries, r: Entries, denom: string, v: string, n: nat)
  {
    Held(r, v, denom) == Held(out, v, denom) + n
  }

  /**
   Nobody gains more than its room, and all but one validator (the pivot) gain
   either nothing or their whole room.
   */
  lemma {:induction false} FillFitsRoom(ds: seq<Diff>, denom: string, value: nat, out: Entries) returns (pivot: string)
    requires DistinctAddresses(DiffKey(), ds)
    ensures var r := Fill(ds, denom, value, out).0;
            forall v :: Held(out, v, denom) <= Held(r, v, denom) <= Held(out, v, denom) + Room(ds, v)
    ensures var r := Fill(ds, denom, value, out).0;
            forall v :: v != pivot ==> Gains(out, r, denom, v, 0) || Gains(out, r, denom, v, Room(ds, v))
    decreases ds
  {
    pivot := "";
    if ds == [] {
    } else {
      var r := Fill(ds, denom, value, out).0;
      var head := ds[0].valoper;
      if ds[0].amount <= 0 {
        pivot := FillFitsRoom(ds[1..], denom, value, out);
        HeadAbsentFromTail(ds);
        RoomOfAbsent(ds[1..], head);
      } else {
        var n := Min(ds[0].amount, value);
        var mid := Allocated(out, head, One(denom, n));
        OneAmount(denom, n);
        forall v ensures Held(mid, v, denom) == Held(out, v, denom) + (if v == head then n else 0) {
          AllocatedHeld(out, head, One(denom, n), v, denom);
        }
        if ds[0].amount >= value {
          pivot := head;
        } else {
          pivot := FillFitsRoom(ds[1..], denom, value - n, mid);
          HeadAbsentFromTail(ds);
          RoomOfAbsent(ds[1..], head);
          forall v | v != pivot ensures Gains(out, r, denom, v, 0) || Gains(out, r, denom, v, Room(ds, v)) {
            assert Gains(mid, r, denom, v, 0) || Gains(mid, r, denom, v, Room(ds[1..], v));
          }
        }
      }
    }
  }

  lemma HeadAbsentFromTail(ds: seq<Diff>)
    requires ds != [] && DistinctAddresses(DiffKey(), ds)
    ensures !Mentions(ds[1..], ds[0].valoper)
  {
    forall i | 0 <= i < |ds[1..]| ensures ds[1..][i].valoper != ds[0].valoper {
      assert DiffKey()(ds[0]).address != DiffKey()(ds[i + 1]).address;
    }
  }

  // ----- The spread by weight -----

  ghost predicate UnitWeights(w: Weights) { forall v :: v in w ==> 0 <= w[v] <= D.ONE }

  /** What rounding takes off a share, scaled by 10^18. */
  function Remainder(value: int, weight: int): int { value * weight - D.ONE * Share(value, weight) }

  /** Shares are rounded towards zero, by less than a unit. */
  lemma ShareNear(value: nat, weight: int)
    ensures weight >= 0 ==> Share(value, weight) >= 0 && 0 <= Remainder(value, weight) < D.ONE
    ensures weight <= 0 ==> Share(value, weight) <= 0 && -D.ONE < Remainder(value, weight) <= 0
    ensures Share(value, weight) < 0 <==> value * weight <= -D.ONE
    ensures 0 <= weight <= D.ONE ==> Share(value, weight) <= value
  {
    D.MulOfInteger(value, weight);
    D.TruncateBounds(value * weight);
    if weight >= 0 {
      D.MulNonNeg(value, weight);
    } else {
      D.MulNonNeg(value, -weight);
      assert value * -weight == -(value * weight);
    }
    if 0 <= weight <= D.ONE {
      D.MulMono(weight, D.ONE, value);
      assert weight * value == value * weight;
    }
  }

  /** Spreading the value makes no negative coin and hands out no more than the value. */
  ghost predicate SpreadFits(keys: seq<string>, w: Weights, value: int)
    requires forall v :: v in keys ==> v in w
    decreases keys
  {
    if keys == [] then value >= 0
    else
      var n := Share(value, w[keys[0]]);
      n >= 0 && SpreadFits(keys[1..], w, value - n)
  }

  lemma {:induction false} UnitWeightsFit(keys: seq<string>, w: Weights, value: nat)
    requires (forall v :: v in keys ==> v in w) && UnitWeights(w)
    ensures SpreadFits(keys, w, value)
    decreases keys
  {
    hide Share, Remainder;
    if keys == [] {
    } else {
      ShareNear(value, w[keys[0]]);
      UnitWeightsFit(keys[1..], w, value - Share(value, w[keys[0]]));
    }
  }

  /** The spread by weight conserves the value, for any weights, unless it panics. */
  lemma {:induction false} SpreadConserves(keys: seq<string>, w: Weights, denom: string, value: int, out: Entries)
    requires forall v :: v in keys ==> v in w
    requires Distinct(out)
    ensures var s := Spread(keys, w, denom, value, out);
            && (s.Some? ==>
                  SumForDenom(s.value.0, denom) + s.value.1 == SumForDenom(out, denom) + value && Distinct(s.value.0))
            && (s.Some? && s.value.1 >= 0 <==> SpreadFits(keys, w, value))
    decreases keys
  {
    hide Share, Allocated, SumForDenom, Distinct, One;
    if keys == [] {
    } else {
      var n := Share(value, w[keys[0]]);
      if n >= 0 {
        OneAmount(denom, n);
        AllocatedSum(out, keys[0], One(denom, n), denom);
        AllocatedDistinct(out, keys[0], One(denom, n));
        SpreadConserves(keys[1..], w, denom, value - n, Allocated(out, keys[0], One(denom, n)));
      }
    }
  }

  // ----- The plan -----

  /** The correction gives exactly the coin, or panics: when too much was handed out, or nobody can take the rest. */
  lemma CorrectIsExact(out: Entries, ds: seq<Diff>, coin: Coin)
    requires Distinct(out)
    ensures var p, sum := Correct(out, ds, coin), SumForDenom(out, coin.denom);
            && (p.Planned? <==> sum <= coin.amount && (ds != [] || (sum == coin.amount && coin.amount > 0)))
            && (p.Planned? ==> SumForDenom(p.entries, coin.denom) == coin.amount && Distinct(p.entries))
            && (!p.Planned? ==> p == Panic)
  {
    hide Allocated, SumForDenom, Distinct, One;
    var sum := SumForDenom(out, coin.denom);
    if sum <= coin.amount && ds != [] {
      var n, v := coin.amount - sum, ds[|ds| - 1].valoper;
      OneAmount(coin.denom, n);
      AllocatedSum(out, v, One(coin.denom, n), coin.denom);
      AllocatedDistinct(out, v, One(coin.denom, n));
    }
  }

  /** The positive deltas cover the coin, or what they leave can be spread. */
  ghost predicate PlanFits(ds: seq<Diff>, amount: nat, w: Weights, keys: seq<string>)
    requires forall v :: v in keys ==> v in w
  {
    PositiveSum(ds) >= amount || SpreadFits(keys, w, amount - PositiveSum(ds))
  }

  lemma PlanFromIsExact(ds: seq<Diff>, coin: Coin, w: Weights, keys: seq<string>)
    requires forall v :: v in keys ==> v in w
    ensures var p := PlanFrom(ds, coin, w, keys);
            && (p.Planned? ==> SumForDenom(p.entries, coin.denom) == coin.amount && Distinct(p.entries))
            && (!p.Planned? ==> p == Panic)
            && (ds != [] ==> (p.Planned? <==> PlanFits(ds, coin.amount, w, keys)))
  {
    hide Fill, Spread, SpreadFits, Correct, PositiveSum;
    FillConserves(ds, coin.denom, coin.amount, []);
    var (filled, rest) := Fill(ds, coin.denom, coin.amount, []);
    if rest == 0 {
      CorrectIsExact(filled, ds, coin);
    } else {
      SpreadConserves(keys, w, coin.denom, rest, filled);
      var s := Spread(keys, w, coin.denom, rest, filled);
      if s.Some? {
        CorrectIsExact(s.value.0, ds, coin);
      }
    }
  }

  /** With no delta at all, and nothing to deposit or no weights, the last delta does not exist. */
  lemma PlanFromPanics(coin: Coin, w: Weights, keys: seq<string>)
    requires forall v :: v in keys ==> v in w
    requires coin.amount == 0 || keys == []
    ensures PlanFrom([], coin, w, keys) == Panic
  {
  }

  lemma KeysAreWeighted(keys: seq<string>, w: Weights)
    requires Enumerates(keys, w)
    ensures forall v :: v in keys ==> v in w
  {
  }

  lemma DeltasExist(bins: Entries, total: nat, w: Weights, keys: seq<string>)
    requires Enumerates(keys, w)
    ensures Deltas(bins, total, w, keys) != [] <==> total > 0 && keys != []
  {
    if total > 0 {
      DeltasCoverIntent(bins, total, w, keys);
    }
  }

  lemma UnitPlanFits(ds: seq<Diff>, amount: nat, w: Weights, keys: seq<string>)
    requires (forall v :: v in keys ==> v in w) && UnitWeights(w)
    ensures PlanFits(ds, amount, w, keys)
  {
    hide SpreadFits, PositiveSum;
    if PositiveSum(ds) < amount {
      UnitWeightsFit(keys, w, amount - PositiveSum(ds));
    }
  }

  /**
   For any weights: a plan allocates exactly the deposited coin, with one entry a validator. A coin
   of another denomination is an error. Otherwise the plan comes out if and only if there is an
   intent, something is or will be delegated, and the positive deltas cover the coin or leave what
   can be spread, and else the node panics. Weights in [0,1] can always be spread.
   */
  lemma PlanIsExact(total: Coin, bins: Entries, coin: Coin, w: Weights, keys: seq<string>)
    requires Enumerates(keys, w)
    ensures var p := GlobalPlan(total, bins, coin, w, keys);
            && (p == WrongDenom <==> coin.denom != total.denom)
            && (p.Planned? <==>
                  && coin.denom == total.denom && w != map[] && Grown(total, coin) > 0
                  && PlanFits(Deltas(bins, Grown(total, coin), w, keys), coin.amount, w, keys))
            && (p.Planned? ==> SumForDenom(p.entries, coin.denom) == coin.amount && Distinct(p.entries))
    ensures UnitWeights(w) ==> PlanFits(Deltas(bins, Grown(total, coin), w, keys), coin.amount, w, keys)
  {
    hide PlanFrom, PlanFits, UnitWeights, Deltas, Enumerates;
    EmptyIntent(keys, w);
    KeysAreWeighted(keys, w);
    var ds := Deltas(bins, Grown(total, coin), w, keys);
    DeltasExist(bins, Grown(total, coin), w, keys);
    if ds != [] {
      PlanFromIsExact(ds, coin, w, keys);
    } else {
      PlanFromPanics(coin, w, keys);
    }
    if UnitWeights(w) {
      UnitPlanFits(ds, coin.amount, w, keys);
    }
  }

  lemma EmptyIntent(order: seq<string>, w: Weights)
    requires Enumerates(order, w)
    ensures order == [] <==> w == map[]
  {
    if order != [] { assert order[0] in w; }
    if w != map[] { var v :| v in w; assert v in order; }
  }

  lemma PlanFromFollowsDeltas(ds: seq<Diff>, coin: Coin, w: Weights, keys: seq<string>) returns (pivot: string)
    requires forall v :: v in keys ==> v in w
    requires ds != [] && DistinctAddresses(DiffKey(), ds) && PositiveSum(ds) >= coin.amount
    ensures var p := PlanFrom(ds, coin, w, keys);
            && p.Planned?
            && SumForDenom(p.entries, coin.denom) == coin.amount
            && (forall v :: Held(p.entries, v, coin.denom) <= Room(ds, v))
            && (forall v :: v != pivot ==>
                  Held(p.entries, v, coin.denom) == 0 || Held(p.entries, v, coin.denom) == Room(ds, v))
  {
    FillConserves(ds, coin.denom, coin.amount, []);
    var filled := Fill(ds, coin.denom, coin.amount, []).0;
    pivot := FillFitsRoom(ds, coin.denom, coin.amount, []);
    CorrectIsExact(filled, ds, coin);
    var p := PlanFrom(ds, coin, w, keys);
    forall v ensures Held(p.entries, v, coin.denom) == Held(filled, v, coin.denom) {
      OneAmount(coin.denom, 0);
      AllocatedHeld(filled, ds[|ds| - 1].valoper, One(coin.denom, 0), v, coin.denom);
    }
    forall v | v != pivot
      ensures Held(p.entries, v, coin.denom) == 0 || Held(p.entries, v, coin.denom) == Room(ds, v)
    {
      assert Gains([], filled, coin.denom, v, 0) || Gains([], filled, coin.denom, v, Room(ds, v));
    }
  }

  /**
   When the positive deltas cover the coin, no validator gets more than its positive
   delta, and all of them except one get nothing or their whole delta.
   */
  lemma PlanFollowsDeltas(total: Coin, bins: Entries, coin: Coin, w: Weights, keys: seq<string>) returns (pivot: string)
    requires Enumerates(keys, w) && coin.denom == total.denom
    requires w != map[] && Grown(total, coin) > 0
    requires PositiveSum(Deltas(bins, Grown(total, coin), w, keys)) >= coin.amount
    ensures var ds := Deltas(bins, Grown(total, coin), w, keys);
            var p := GlobalPlan(total, bins, coin, w, keys);
            && p.Planned?
            && SumForDenom(p.entries, coin.denom) == coin.amount
            && (forall v :: Held(p.entries, v, coin.denom) <= Room(ds, v))
            && (forall v :: v != pivot ==>
                  Held(p.entries, v, coin.denom) == 0 || Held(p.entries, v, coin.denom) == Room(ds, v))
  {
    var all := Grown(total, coin);
    DeltasCoverIntent(bins, all, w, keys);
    EmptyIntent(keys, w);
    pivot := PlanFromFollowsDeltas(Deltas(bins, all, w, keys), coin, w, keys);
  }

  /** The plan depends on the contents of the bins and of the intent only. */
  lemma PlanDeterministic(total: Coin, a: Entries, b: Entries, coin: Coin, w: Weights, o1: seq<string>, o2: seq<string>)
    requires multiset(a) == multiset(b) && Enumerates(o1, w) && Enumerates(o2, w)
    ensures Enumerates(Keys(o1), w) && Enumerates(Keys(o2), w)
    ensures GlobalPlan(total, a, coin, w, Keys(o1)) == GlobalPlan(total, b, coin, w, Keys(o2))
  {
    KeysOfEnumeration(o1, w);
    KeysIgnoreOrder(o1, o2, w);
    PlanIgnoresArrangement(total, a, b, coin, w, Keys(o1));
  }

  lemma PlanIgnoresArrangement(total: Coin, a: Entries, b: Entries, coin: Coin, w: Weights, keys: seq<string>)
    requires multiset(a) == multiset(b) && Enumerates(keys, w)
    ensures GlobalPlan(total, a, coin, w, keys) == GlobalPlan(total, b, coin, w, keys)
  {
    DeltasDeterministic(a, b, Grown(total, coin), w, keys, keys);
  }

  // ----- A depositor's own intent -----

  /** The shares of a depositor's intent, negative ones included. */
  function UserShares(keys: seq<string>, w: Weights, amount: nat): seq<Diff>
    requires forall v :: v in keys ==> v in w
  {
    if keys == [] then [] else [Diff(keys[0], Share(amount, w[keys[0]]))] + UserShares(keys[1..], w, amount)
  }

  /** Shares as a plan: the deposit handler makes a coin of each, and a negative coin panics. */
  function Admitted(shares: seq<Diff>, denom: string, out: Entries): Option<Entries>
    decreases shares
  {
    if shares == [] then Some(out)
    else if shares[0].amount < 0 then None
    else Admitted(shares[1..], denom, Allocated(out, shares[0].valoper, One(denom, shares[0].amount)))
  }

  /** The plan of a depositor's intent as the deposit handler takes it. */
  function UserPlan(keys: seq<string>, w: Weights, coin: Coin, out: Entries): Option<Entries>
    requires forall v :: v in keys ==> v in w
    decreases keys
  {
    if keys == [] then Some(out)
    else
      var n := Share(coin.amount, w[keys[0]]);
      if n < 0 then None
      else UserPlan(keys[1..], w, coin, Allocated(out, keys[0], One(coin.denom, n)))
  }

  ghost function WeightSum(keys: seq<string>, w: Weights): int
    requires forall v :: v in keys ==> v in w
  {
    if keys == [] then 0 else w[keys[0]] + WeightSum(keys[1..], w)
  }

  lemma {:induction false} UserPlanAdmitsShares(keys: seq<string>, w: Weights, coin: Coin, out: Entries)
    requires forall v :: v in keys ==> v in w
    ensures UserPlan(keys, w, coin, out) == Admitted(UserShares(keys, w, coin.amount), coin.denom, out)
    decreases keys
  {
    hide Share, Allocated, One;
    if keys == [] {
    } else {
      var n := Share(coin.amount, w[keys[0]]);
      assert UserShares(keys, w, coin.amount)[1..] == UserShares(keys[1..], w, coin.amount);
      if n >= 0 {
        UserPlanAdmitsShares(keys[1..], w, coin, Allocated(out, keys[0], One(coin.denom, n)));
      }
    }
  }

  lemma WeighedSplit(keys: seq<string>, w: Weights, amount: nat)
    requires forall v :: v in keys ==> v in w
    ensures keys == [] ==> amount * WeightSum(keys, w) == 0
    ensures keys != [] ==> amount * WeightSum(keys, w) == amount * w[keys[0]] + amount * WeightSum(keys[1..], w)
  {
    if keys != [] {
      var head, rest := w[keys[0]], WeightSum(keys[1..], w);
      assert WeightSum(keys, w) == head + rest;
      D.DistributeLeft(amount, head, rest);
    }
  }

  /** What rounding takes off all shares together, scaled by 10^18. */
  ghost function Remainders(keys: seq<string>, w: Weights, amount: nat): int
    requires forall v :: v in keys ==> v in w
  {
    if keys == [] then 0 else Remainder(amount, w[keys[0]]) + Remainders(keys[1..], w, amount)
  }

  /** No share is below zero, so that the deposit handler does not panic. */
  ghost predicate Admissible(keys: seq<string>, w: Weights, amount: nat)
    requires forall v :: v in keys ==> v in w
  {
    forall v :: v in keys ==> amount * w[v] > -D.ONE
  }

  lemma AdmissibleSplit(keys: seq<string>, w: Weights, amount: nat)
    requires forall v :: v in keys ==> v in w
    ensures keys == [] ==> Admissible(keys, w, amount)
    ensures keys != [] ==>
              (Admissible(keys, w, amount) <==> amount * w[keys[0]] > -D.ONE && Admissible(keys[1..], w, amount))
  {
    if keys != [] { assert forall v :: v in keys <==> v == keys[0] || v in keys[1..]; }
  }

  /**
   For any weights: a plan by user intent panics if and only if some share is -1 or less, and
   otherwise allocates the coin's share of the summed weights less what rounding takes off.
   */
  lemma {:induction false} UserPlanSum(keys: seq<string>, w: Weights, coin: Coin, out: Entries)
    requires forall v :: v in keys ==> v in w
    requires Distinct(out)
    ensures var p := UserPlan(keys, w, coin, out);
            && (p.Some? <==> Admissible(keys, w, coin.amount))
            && (p.Some? ==>
                  && Distinct(p.value)
                  && D.ONE * (SumForDenom(p.value, coin.denom) - SumForDenom(out, coin.denom))
                     == coin.amount * WeightSum(keys, w) - Remainders(keys, w, coin.amount))
    decreases keys
  {
    hide AmountOf, One, Share, Allocated, SumForDenom, Distinct, WeightSum, Admissible;
    WeighedSplit(keys, w, coin.amount);
    AdmissibleSplit(keys, w, coin.amount);
    if keys == [] {
    } else {
      var v := keys[0];
      var n := Share(coin.amount, w[v]);
      ShareNear(coin.amount, w[v]);
      if n >= 0 {
        OneAmount(coin.denom, n);
        AllocatedSum(out, v, One(coin.denom, n), coin.denom);
        AllocatedDistinct(out, v, One(coin.denom, n));
        UserPlanSum(keys[1..], w, coin, Allocated(out, v, One(coin.denom, n)));
      }
    }
  }

  /** Rounding takes off less than a unit per validator, and adds none where weights are not negative. */
  lemma {:induction false} UserPlanDust(keys: seq<string>, w: Weights, amount: nat)
    requires forall v :: v in keys ==> v in w
    ensures -D.ONE * |keys| <= Remainders(keys, w, amount) <= D.ONE * |keys|
    ensures keys != [] ==> -D.ONE * |keys| < Remainders(keys, w, amount) < D.ONE * |keys|
    ensures (forall v :: v in keys ==> w[v] >= 0) ==>
              Remainders(keys, w, amount) >= 0 && (Remainders(keys, w, amount) == 0 <==> WholeShares(keys, w, amount))
  {
    hide Remainder, WholeShares;
    WholeSharesSplit(keys, w, amount);
    if keys == [] {
    } else {
      assert forall v :: v in keys[1..] ==> v in keys;
      ShareNear(amount, w[keys[0]]);
      WholeShare(amount, w[keys[0]]);
      UserPlanDust(keys[1..], w, amount);
    }
  }

  /** Every validator's share of the amount is a whole number of units. */
  ghost predicate WholeShares(keys: seq<string>, w: Weights, amount: nat)
    requires forall v :: v in keys ==> v in w
  {
    forall v :: v in keys ==> amount * w[v] % D.ONE == 0
  }

  lemma WholeShare(value: nat, weight: int)
    ensures weight >= 0 ==> (Remainder(value, weight) == 0 <==> value * weight % D.ONE == 0)
  {
    hide Share;
    ShareNear(value, weight);
    var p := value * weight;
    assert p == D.ONE * (p / D.ONE) + p % D.ONE;
  }

  lemma WholeSharesSplit(keys: seq<string>, w: Weights, amount: nat)
    requires forall v :: v in keys ==> v in w
    ensures keys == [] ==> WholeShares(keys, w, amount)
    ensures keys != [] ==>
              (WholeShares(keys, w, amount) <==> amount * w[keys[0]] % D.ONE == 0 && WholeShares(keys[1..], w, amount))
  {
    if keys != [] { assert forall v :: v in keys <==> v == keys[0] || v in keys[1..]; }
  }

  /**
   A plan by user intent that does not panic allocates the coin's whole share of the summed
   weights if and only if the remainders cancel; without negative weights, if and only if the
   share of every validator is a whole number of units.
   */
  lemma UserPlanExactly(keys: seq<string>, w: Weights, coin: Coin, out: Entries)
    requires forall v :: v in keys ==> v in w
    requires Distinct(out) && Admissible(keys, w, coin.amount)
    ensures var p := UserPlan(keys, w, coin, out);
            && p.Some?
            && var exact := D.ONE * (SumForDenom(p.value, coin.denom) - SumForDenom(out, coin.denom))
                            == coin.amount * WeightSum(keys, w);
            && (exact <==> Remainders(keys, w, coin.amount) == 0)
            && ((forall v :: v in keys ==> w[v] >= 0) ==> (exact <==> WholeShares(keys, w, coin.amount)))
  {
    hide UserPlan, WholeShares, Admissible, Remainders;
    UserPlanSum(keys, w, coin, out);
    UserPlanDust(keys, w, coin.amount);
  }

  /**
   With weights that sum to one, of any sign: a plan that does not panic falls short of the
   deposit, meets it or exceeds it exactly as the remainders together are positive, zero or
   negative. Without negative weights it never exceeds it, and meets it if and only if all shares
   are whole.
   */
  lemma UserPlanInFull(keys: seq<string>, w: Weights, coin: Coin)
    requires forall v :: v in keys ==> v in w
    requires WeightSum(keys, w) == D.ONE
    ensures var p, rems := UserPlan(keys, w, coin, []), Remainders(keys, w, coin.amount);
            && (p.Some? <==> Admissible(keys, w, coin.amount))
            && (p.Some? ==>
                  var planned := SumForDenom(p.value, coin.denom);
                  && (planned < coin.amount <==> rems > 0)
                  && (planned == coin.amount <==> rems == 0)
                  && (planned > coin.amount <==> rems < 0))
    ensures (forall v :: v in keys ==> w[v] >= 0) ==>
              Remainders(keys, w, coin.amount) >= 0
              && (Remainders(keys, w, coin.amount) == 0 <==> WholeShares(keys, w, coin.amount))
  {
    hide UserPlan, WholeShares, Admissible, Remainders;
    UserPlanSum(keys, w, coin, []);
    UserPlanDust(keys, w, coin.amount);
  }

  // ----- Failing deposits of one unit -----

  lemma UnitShares()
    ensures Remainder(1, D.ONE) == 0 && Remainder(1, D.ONE / 2) == D.ONE / 2 && Remainder(1, -D.ONE / 2) == -D.ONE / 2
  {
    D.MulOfInteger(1, D.ONE);
    D.MulOfInteger(1, D.ONE / 2);
    D.MulOfInteger(1, -D.ONE / 2);
  }

  /** Two halves: nothing of the unit is planned. */
  lemma HalvesPlanNothing()
    ensures var keys, w := ["a", "b"], map["a" := D.ONE / 2, "b" := D.ONE / 2];
            && WeightSum(keys, w) == D.ONE
            && var p := UserPlan(keys, w, Coin("u", 1), []);
            p.Some? && SumForDenom(p.value, "u") == 0
  {
    hide Remainder, UserPlan;
    var keys, w := ["a", "b"], map["a" := D.ONE / 2, "b" := D.ONE / 2];
    assert keys[1..] == ["b"] && ["b"][1..] == [];
    assert WeightSum(["b"], w) == D.ONE / 2;
    UnitShares();
    assert Remainders(["b"], w, 1) == D.ONE / 2;
    UserPlanSum(keys, w, Coin("u", 1), []);
  }

  /** Weights 1, 1/2 and -1/2: the unit is planned in full although two shares are not whole. */
  lemma NegativeWeightHidesDust()
    ensures var keys, w := ["a", "b", "c"], map["a" := D.ONE, "b" := D.ONE / 2, "c" := -D.ONE / 2];
            && WeightSum(keys, w) == D.ONE && !WholeShares(keys, w, 1)
            && var p := UserPlan(keys, w, Coin("u", 1), []);
            p.Some? && SumForDenom(p.value, "u") == 1
  {
    hide Remainder, UserPlan;
    var keys, w := ["a", "b", "c"], map["a" := D.ONE, "b" := D.ONE / 2, "c" := -D.ONE / 2];
    assert keys[1..] == ["b", "c"] && ["b", "c"][1..] == ["c"] && ["c"][1..] == [];
    assert WeightSum(["c"], w) == w["c"] + WeightSum([], w) == -D.ONE / 2;
    assert WeightSum(["b", "c"], w) == w["b"] + WeightSum(["c"], w) == 0;
    UnitShares();
    assert Remainders(["c"], w, 1) == Remainder(1, w["c"]) + Remainders([], w, 1) == -D.ONE / 2;
    assert Remainders(["b", "c"], w, 1) == Remainder(1, w["b"]) + Remainders(["c"], w, 1) == 0;
    UserPlanSum(keys, w, Coin("u", 1), []);
    assert "b" in keys && 1 * w["b"] % D.ONE != 0;
  }

  /** Weights 1, 1, -1/2 and -1/2: the plan hands out two units for a deposit of one. */
  lemma PlanExceedsDeposit()
    ensures var keys, w := ["a", "b", "c", "d"], map["a" := D.ONE, "b" := D.ONE, "c" := -D.ONE / 2, "d" := -D.ONE / 2];
            && WeightSum(keys, w) == D.ONE
            && var p := UserPlan(keys, w, Coin("u", 1), []);
            p.Some? && SumForDenom(p.value, "u") == 2
  {
    hide Remainder, UserPlan;
    var keys, w := ["a", "b", "c", "d"], map["a" := D.ONE, "b" := D.ONE, "c" := -D.ONE / 2, "d" := -D.ONE / 2];
    assert keys[1..] == ["b", "c", "d"] && ["b", "c", "d"][1..] == ["c", "d"];
    assert ["c", "d"][1..] == ["d"] && ["d"][1..] == [];
    assert WeightSum(["d"], w) == w["d"] + WeightSum([], w) == -D.ONE / 2;
    assert WeightSum(["c", "d"], w) == w["c"] + WeightSum(["d"], w) == -D.ONE;
    assert WeightSum(["b", "c", "d"], w) == w["b"] + WeightSum(["c", "d"], w) == 0;
    UnitShares();
    assert Remainders(["d"], w, 1) == Remainder(1, w["d"]) + Remainders([], w, 1) == -D.ONE / 2;
    assert Remainders(["c", "d"], w, 1) == Remainder(1, w["c"]) + Remainders(["d"], w, 1) == -D.ONE;
    assert Remainders(["b", "c", "d"], w, 1) == Remainder(1, w["b"]) + Remainders(["c", "d"], w, 1) == -D.ONE;
    UserPlanSum(keys, w, Coin("u", 1), []);
  }

  // ----- The loops -----

  /** `keys` are the sorted keys of the intent, as Keys computes them. */
  method DetermineIntentDelta(current: Book, total: nat, w: Weights, keys: seq<string>) returns (deltas: seq<Diff>)
    requires forall v :: v in keys ==> v in w
    ensures deltas == Deltas(current.entries, total, w, keys)
  {
    deltas := [];
    if total == 0 {
      return;
    }
    for i := 0 to |keys|
      invariant deltas + DeltaList(current.entries, total, w, keys[i..]) == DeltaList(current.entries, total, w, keys)
    {
      var held := current.SumOf(keys[i]);
      deltas := deltas + [Diff(keys[i], Delta(held, total, w[keys[i]]))];
      assert keys[i..][0] == keys[i] && keys[i..][1..] == keys[i + 1..];
    }
    assert deltas == DeltaList(current.entries, total, w, keys);
    deltas := ByAmount(DiffKey(), deltas);
  }

  /** Runs the greedy fill on a book; returns what was not distributed. */
  method FillDeltas(ds: seq<Diff>, denom: string, value: nat, book: Book) returns (rest: nat)
    modifies book
    ensures (book.entries, rest) == Fill(ds, denom, value, old(book.entries))
  {
    rest := value;
    for i := 0 to |ds|
      invariant Fill(ds, denom, value, old(book.entries)) == Fill(ds[i..], denom, rest, book.entries)
    {
      if ds[i].amount > 0 {
        if ds[i].amount >= rest {
          book.Allocate(ds[i].valoper, One(denom, rest));
          rest := 0;
          return;
        } else {
          book.Allocate(ds[i].valoper, One(denom, ds[i].amount));
          rest := rest - ds[i].amount;
        }
      }
    }
  }

  method SpreadByWeight(keys: seq<string>, w: Weights, denom: string, value: int, book: Book) returns (ok: bool)
    requires forall v :: v in keys ==> v in w
    modifies book
    ensures ok == Spread(keys, w, denom, value, old(book.entries)).Some?
    ensures ok ==> book.entries == Spread(keys, w, denom, value, old(book.entries)).value.0
  {
    var rest := value;
    for i := 0 to |keys|
      invariant Spread(keys, w, denom, value, old(book.entries)) == Spread(keys[i..], w, denom, rest, book.entries)
    {
      var n := D.TruncateInt(D.Mul(D.ToDec(rest), w[keys[i]]));
      rest := rest - n;
      if n < 0 {
        return false;
      }
      book.Allocate(keys[i], One(denom, n));
    }
    return true;
  }

  /** Gives the part of the coin that is still missing to the last delta. */
  method CorrectRemainder(allocations: Book, deltas: seq<Diff>, coin: Coin) returns (r: PlanResult)
    modifies allocations
    ensures r == Correct(old(allocations.entries), deltas, coin)
  {
    var sum := allocations.SumOf(coin.denom);
    // a zero coin never equals the empty sum of coins, so it takes the correction too
    if sum != coin.amount || coin.amount == 0 {
      if sum > coin.amount || deltas == [] {
        return Panic;
      }
      allocations.Allocate(deltas[|deltas| - 1].valoper, One(coin.denom, coin.amount - sum));
    }
    return Planned(allocations.entries);
  }

  method PlanFromDeltas(deltas: seq<Diff>, coin: Coin, w: Weights, keys: seq<string>) returns (r: PlanResult)
    requires forall v :: v in keys ==> v in w
    ensures r == PlanFrom(deltas, coin, w, keys)
  {
    var allocations := new Book();
    var rest := FillDeltas(deltas, coin.denom, coin.amount, allocations);
    if rest > 0 {
      var ok := SpreadByWeight(keys, w, coin.denom, rest, allocations);
      if !ok {
        return Panic;
      }
    }
    r := CorrectRemainder(allocations, deltas, coin);
  }

  method DelegationPlanFromGlobalIntent(total: Coin, current: Book, coin: Coin, w: Weights, keys: seq<string>)
    returns (r: PlanResult)
    requires forall v :: v in keys ==> v in w
    ensures r == GlobalPlan(total, current.entries, coin, w, keys)
  {
    if coin.denom != total.denom {
      return WrongDenom;
    }
    var deltas := DetermineIntentDelta(current, Grown(total, coin), w, keys);
    r := PlanFromDeltas(deltas, coin, w, keys);
  }

  /** `keys` are the keys of a map, so every allocation of the loop is to a new validator. */
  method DelegationPlanFromUserIntent(coin: Coin, w: Weights, keys: seq<string>) returns (shares: seq<Diff>)
    requires forall v :: v in keys ==> v in w
    ensures shares == UserShares(keys, w, coin.amount)
    ensures |shares| == |keys|
    ensures forall i :: 0 <= i < |keys| ==>
              && shares[i].valoper == keys[i]
              && -D.ONE < coin.amount * w[keys[i]] - D.ONE * shares[i].amount < D.ONE
              && (w[keys[i]] >= 0 ==> 0 <= D.ONE * shares[i].amount <= coin.amount * w[keys[i]])
              && (w[keys[i]] <= 0 ==> coin.amount * w[keys[i]] <= D.ONE * shares[i].amount <= 0)
  {
    hide Share;
    shares := [];
    assert keys[0..] == keys;
    for i := 0 to |keys|
      invariant |shares| == i && forall k :: 0 <= k < i ==> shares[k] == Diff(keys[k], Share(coin.amount, w[keys[k]]))
      invariant shares + UserShares(keys[i..], w, coin.amount) == UserShares(keys, w, coin.amount)
    {
      assert keys[i..][0] == keys[i] && keys[i..][1..] == keys[i + 1..];
      ghost var was, tail := shares, UserShares(keys[i + 1..], w, coin.amount);
      var n := Share(coin.amount, w[keys[i]]);
      shares := shares + [Diff(keys[i], n)];
      assert was + ([Diff(keys[i], n)] + tail) == shares + tail;
    }
    assert shares + [] == shares;
    forall i | 0 <= i < |keys|
      ensures -D.ONE < coin.amount * w[keys[i]] - D.ONE * shares[i].amount < D.ONE
      ensures w[keys[i]] >= 0 ==> 0 <= D.ONE * shares[i].amount <= coin.amount * w[keys[i]]
      ensures w[keys[i]] <= 0 ==> coin.amount * w[keys[i]] <= D.ONE * shares[i].amount <= 0
    {
      ShareNear(coin.amount, w[keys[i]]);
    }
  }

  /** The coins that the deposit handler makes of the shares; None when one of them panics. */
  method AdmitShares(shares: seq<Diff>, denom: string) returns (r: Option<Entries>)
    ensures r == Admitted(shares, denom, [])
    ensures r.None? <==> exists i :: 0 <= i < |shares| && shares[i].amount < 0
  {
    var out := new Book();
    assert shares[0..] == shares;
    for i := 0 to |shares|
      invariant Admitted(shares, denom, []) == Admitted(shares[i..], denom, out.entries)
      invariant forall k :: 0 <= k < i ==> shares[k].amount >= 0
    {
      assert shares[i..][0] == shares[i] && shares[i..][1..] == shares[i + 1..];
      if shares[i].amount < 0 {
        return None;
      }
      out.Allocate(shares[i].valoper, One(denom, shares[i].amount));
    }
    return Some(out.entries);
  }
}
