/** What each validator gets of a delegation plan: x/interchainstaking/types/delegation.go. */
module PlanShares {
  import opened Order
  import opened Coins
  import opened StableSort
  import opened Allocations
  import opened Intent
  import opened Plans

  // ----- The greedy fill -----

  /** The positive deltas that come before that of v. */
  ghost function Before(ds: seq<Diff>, v: string): nat
  {
    if ds == [] || ds[0].valoper == v then 0
    else (if ds[0].amount > 0 then ds[0].amount else 0) + Before(ds[1..], v)
  }

  /** What the fill gives v: its room, as far as the value reaches after those before it. */
  ghost function Filled(ds: seq<Diff>, v: string, value: nat): nat
  {
    if Before(ds, v) >= value then 0 else Min(Room(ds, v), value - Before(ds, v))
  }

  lemma {:induction false} FillExactly(ds: seq<Diff>, denom: string, value: nat, out: Entries, v: string)
    requires DistinctAddresses(DiffKey(), ds)
    ensures Held(Fill(ds, denom, value, out).0, v, denom) == Held(out, v, denom) + Filled(ds, v, value)
    decreases ds
  {
    hide Allocated, Held, One;
    if ds == [] {
    } else {
      HeadAbsentFromTail(ds);
      if v == ds[0].valoper { RoomOfAbsent(ds[1..], v); }
      if ds[0].amount <= 0 {
        FillExactly(ds[1..], denom, value, out, v);
      } else {
        var n := Min(ds[0].amount, value);
        OneAmount(denom, n);
        AllocatedHeld(out, ds[0].valoper, One(denom, n), v, denom);
        if ds[0].amount < value {
          FillExactly(ds[1..], denom, value - n, Allocated(out, ds[0].valoper, One(denom, n)), v);
        }
      }
    }
  }

  lemma {:induction false} RoomWithin(ds: seq<Diff>, v: string)
    ensures Before(ds, v) + Room(ds, v) <= PositiveSum(ds)
  {
    if ds == [] {
    } else {
      RoomWithin(ds[1..], v);
    }
  }

  // ----- The spread -----

  /** What v is dealt: its weight's share of what those before it leave. */
  ghost function Dealt(keys: seq<string>, w: Weights, value: int, v: string): int
    requires forall u :: u in keys ==> u in w
    decreases keys
  {
    if keys == [] then 0
    else if keys[0] == v then Share(value, w[v])
    else Dealt(keys[1..], w, value - Share(value, w[keys[0]]), v)
  }

  /** What everybody together leaves. */
  ghost function Undealt(keys: seq<string>, w: Weights, value: int): int
    requires forall u :: u in keys ==> u in w
    decreases keys
  {
    if keys == [] then value else Undealt(keys[1..], w, value - Share(value, w[keys[0]]))
  }

  lemma {:induction false} DealtToAbsent(keys: seq<string>, w: Weights, value: int, v: string)
    requires (forall u :: u in keys ==> u in w) && v !in keys
    ensures Dealt(keys, w, value, v) == 0
    decreases keys
  {
    if keys == [] {
    } else {
      DealtToAbsent(keys[1..], w, value - Share(value, w[keys[0]]), v);
    }
  }

  lemma {:induction false} SpreadExactly(keys: seq<string>, w: Weights, denom: string, value: int, out: Entries,
                                         v: string)
    requires (forall u :: u in keys ==> u in w) && DistinctAddresses(NameKey(), keys)
    ensures var s := Spread(keys, w, denom, value, out);
            s.Some? ==>
              && s.value.1 == Undealt(keys, w, value)
              && Held(s.value.0, v, denom) == Held(out, v, denom) + Dealt(keys, w, value, v)
    decreases keys
  {
    hide Allocated, Held, One, Share;
    if keys == [] {
    } else {
      var n := Share(value, w[keys[0]]);
      NamesTail(keys);
      if n >= 0 {
        OneAmount(denom, n);
        AllocatedHeld(out, keys[0], One(denom, n), v, denom);
        SpreadExactly(keys[1..], w, denom, value - n, Allocated(out, keys[0], One(denom, n)), v);
        if v == keys[0] { DealtToAbsent(keys[1..], w, value - n, v); }
      }
    }
  }

  lemma NamesTail(keys: seq<string>)
    requires keys != [] && DistinctAddresses(NameKey(), keys)
    ensures DistinctAddresses(NameKey(), keys[1..]) && keys[0] !in keys[1..]
  {
    forall i | 0 <= i < |keys[1..]| ensures keys[1..][i] != keys[0] {
      assert NameKey()(keys[0]).address != NameKey()(keys[i + 1]).address;
    }
    forall i, j | 0 <= i < j < |keys[1..]| ensures NameKey()(keys[1..][i]).address != NameKey()(keys[1..][j]).address {
      assert NameKey()(keys[i + 1]).address != NameKey()(keys[j + 1]).address;
    }
  }

  // ----- The plan -----

  /** What the positive deltas leave of the amount. */
  ghost function Uncovered(ds: seq<Diff>, amount: nat): nat
  {
    if PositiveSum(ds) >= amount then 0 else amount - PositiveSum(ds)
  }

  /** What v gets of a plan, before the correction. */
  ghost function Portioned(ds: seq<Diff>, amount: nat, w: Weights, keys: seq<string>, v: string): int
    requires forall u :: u in keys ==> u in w
  {
    Filled(ds, v, amount) + (if Uncovered(ds, amount) > 0 then Dealt(keys, w, Uncovered(ds, amount), v) else 0)
  }

  /** What is missing after the spread. */
  ghost function Missing(ds: seq<Diff>, amount: nat, w: Weights, keys: seq<string>): int
    requires forall u :: u in keys ==> u in w
  {
    if Uncovered(ds, amount) > 0 then Undealt(keys, w, Uncovered(ds, amount)) else 0
  }

  lemma CorrectExactly(out: Entries, ds: seq<Diff>, coin: Coin, v: string)
    requires ds != [] && Correct(out, ds, coin).Planned?
    ensures Held(Correct(out, ds, coin).entries, v, coin.denom)
         == Held(out, v, coin.denom)
            + (if v == ds[|ds| - 1].valoper then coin.amount - SumForDenom(out, coin.denom) else 0)
  {
    hide Allocated, Held, One, SumForDenom;
    var n := coin.amount - SumForDenom(out, coin.denom);
    if n >= 0 {
      OneAmount(coin.denom, n);
      AllocatedHeld(out, ds[|ds| - 1].valoper, One(coin.denom, n), v, coin.denom);
    }
  }

  lemma PlanFromExactly(ds: seq<Diff>, coin: Coin, w: Weights, keys: seq<string>, v: string)
    requires (forall u :: u in keys ==> u in w) && DistinctAddresses(NameKey(), keys)
    requires ds != [] && DistinctAddresses(DiffKey(), ds) && PlanFrom(ds, coin, w, keys).Planned?
    ensures Held(PlanFrom(ds, coin, w, keys).entries, v, coin.denom)
         == Portioned(ds, coin.amount, w, keys, v)
            + (if v == ds[|ds| - 1].valoper then Missing(ds, coin.amount, w, keys) else 0)
  {
    hide Fill, Spread, Correct, Filled, Dealt, Undealt, PositiveSum, SumForDenom;
    NothingHeld(v, coin.denom);
    FillConserves(ds, coin.denom, coin.amount, []);
    FillExactly(ds, coin.denom, coin.amount, [], v);
    var (filled, rest) := Fill(ds, coin.denom, coin.amount, []);
    if rest == 0 {
      CorrectExactly(filled, ds, coin, v);
    } else {
      SpreadConserves(keys, w, coin.denom, rest, filled);
      SpreadExactly(keys, w, coin.denom, rest, filled, v);
      CorrectExactly(Spread(keys, w, coin.denom, rest, filled).value.0, ds, coin, v);
    }
  }

  lemma NothingHeld(v: string, denom: string)
    ensures Distinct([]) && SumForDenom([], denom) == 0 && Held([], v, denom) == 0
  {
  }

  // ----- The deltas of an intent -----

  /** The deltas are in ascending order of (delta, address), so the last one is the largest. */
  lemma DeltasSorted(bins: Entries, total: nat, w: Weights, keys: seq<string>)
    requires total > 0 && Enumerates(keys, w)
    ensures var ds := Deltas(bins, total, w, keys);
            && Sorted(LexOrder(DiffKey()), ds)
            && DistinctAddresses(DiffKey(), ds)
            && forall i :: 0 <= i < |ds| - 1 ==> LexLess(DiffKey()(ds[i]), DiffKey()(ds[|ds| - 1]))
  {
    hide Delta;
    var ds := Deltas(bins, total, w, keys);
    DeltasCoverIntent(bins, total, w, keys);
    TwoPassesSortLexicographically(DiffKey(), DeltaList(bins, total, w, keys));
    forall i | 0 <= i < |ds| - 1 ensures LexLess(DiffKey()(ds[i]), DiffKey()(ds[|ds| - 1])) {
      var last := ds[|ds| - 1];
      assert !LexOrder(DiffKey())(last, ds[i]);
      assert DiffKey()(ds[i]).address != DiffKey()(last).address;
      LessIsTotal(ds[i].valoper, last.valoper);
    }
  }

  /** The room of a validator is its delta, when that is positive. */
  lemma RoomIsDelta(bins: Entries, total: nat, w: Weights, keys: seq<string>, v: string)
    requires total > 0 && Enumerates(keys, w)
    ensures var room := Room(Deltas(bins, total, w, keys), v);
            && (v !in w ==> room == 0)
            && (v in w ==> var n := Delta(SumForDenom(bins, v), total, w[v]); room == if n > 0 then n else 0)
  {
    hide Delta;
    DeltasCoverIntent(bins, total, w, keys);
    var ds := Deltas(bins, total, w, keys);
    if v in w {
      var d :| d in ds && d.valoper == v;
      var i :| 0 <= i < |ds| && ds[i] == d;
      RoomAt(ds, i);
    } else {
      RoomOfAbsent(ds, v);
    }
  }

  lemma {:induction false} RoomAt(ds: seq<Diff>, i: nat)
    requires DistinctAddresses(DiffKey(), ds) && i < |ds|
    ensures Room(ds, ds[i].valoper) == if ds[i].amount > 0 then ds[i].amount else 0
  {
    if i == 0 {
    } else {
      assert DiffKey()(ds[0]).address != DiffKey()(ds[i]).address;
      assert DistinctAddresses(DiffKey(), ds[1..]) by {
        forall j, k | 0 <= j < k < |ds[1..]| ensures DiffKey()(ds[1..][j]).address != DiffKey()(ds[1..][k]).address {
          assert DiffKey()(ds[j + 1]).address != DiffKey()(ds[k + 1]).address;
        }
      }
      RoomAt(ds[1..], i - 1);
    }
  }

  /**
   What each validator gets of a plan by global intent. The deltas are served in ascending order
   of (delta, address), each up to its size when positive, until the coin is used up. When they
   fall short of the coin, every validator gets its whole positive delta and its weight's share of
   the rest in turn, and the largest in (delta, address) gets in addition all that is then missing.
   */
  lemma PlanExactly(total: Coin, bins: Entries, coin: Coin, w: Weights, keys: seq<string>, v: string)
    requires Enumerates(keys, w) && GlobalPlan(total, bins, coin, w, keys).Planned?
    ensures var ds := Deltas(bins, Grown(total, coin), w, keys);
            var n := Held(GlobalPlan(total, bins, coin, w, keys).entries, v, coin.denom);
            && ds != [] && Sorted(LexOrder(DiffKey()), ds)
            && (forall i :: 0 <= i < |ds| - 1 ==> LexLess(DiffKey()(ds[i]), DiffKey()(ds[|ds| - 1])))
            && n == Portioned(ds, coin.amount, w, keys, v)
                    + (if v == ds[|ds| - 1].valoper then Missing(ds, coin.amount, w, keys) else 0)
            && (PositiveSum(ds) >= coin.amount ==> n == Filled(ds, v, coin.amount))
            && (PositiveSum(ds) < coin.amount && v != ds[|ds| - 1].valoper ==>
                  n == Room(ds, v) + Dealt(keys, w, coin.amount - PositiveSum(ds), v))
    ensures Grown(total, coin) > 0
    ensures var room := Room(Deltas(bins, Grown(total, coin), w, keys), v);
            && (v !in w ==> room == 0)
            && (v in w ==>
                  var d := Delta(SumForDenom(bins, v), Grown(total, coin), w[v]);
                  room == if d > 0 then d else 0)
  {
    hide PlanFrom, Deltas, Enumerates, Dealt, Undealt, Room, Before, PositiveSum, Delta, Held;
    var all := Grown(total, coin);
    PlanIsExact(total, bins, coin, w, keys);
    NamesApart(keys, w);
    var ds := Deltas(bins, all, w, keys);
    EmptyIntent(keys, w);
    DeltasExist(bins, all, w, keys);
    DeltasSorted(bins, all, w, keys);
    PlanFromExactly(ds, coin, w, keys, v);
    RoomWithin(ds, v);
    RoomIsDelta(bins, all, w, keys, v);
  }

  lemma NamesApart(keys: seq<string>, w: Weights)
    requires Enumerates(keys, w)
    ensures (forall u :: u in keys ==> u in w) && DistinctAddresses(NameKey(), keys)
  {
  }

  // ----- A depositor's own intent -----

  /** Every validator of the intent gets its own share, and nobody else anything. */
  lemma {:induction false} UserPlanExactlyFor(keys: seq<string>, w: Weights, coin: Coin, out: Entries, v: string)
    requires (forall u :: u in keys ==> u in w) && DistinctAddresses(NameKey(), keys)
    ensures var p := UserPlan(keys, w, coin, out);
            p.Some? ==>
              Held(p.value, v, coin.denom)
              == Held(out, v, coin.denom) + (if v in keys then Share(coin.amount, w[v]) else 0)
    decreases keys
  {
    hide Allocated, Held, One, Share;
    if keys == [] {
    } else {
      var n := Share(coin.amount, w[keys[0]]);
      NamesTail(keys);
      if n >= 0 {
        OneAmount(coin.denom, n);
        AllocatedHeld(out, keys[0], One(coin.denom, n), v, coin.denom);
        UserPlanExactlyFor(keys[1..], w, coin, Allocated(out, keys[0], One(coin.denom, n)), v);
      }
    }
  }
}
