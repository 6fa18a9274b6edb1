/**
 Moving redemption requests towards over-delegated validators and then into what
 is actually delegated: ApplyDeltasToIntent and SatisfyRequestsForBins of
 x/interchainstaking/keeper/zones.go.
 */
module Shift {
  import opened Coins
  import opened StableSort
  import opened Allocations
  import opened Intent
  import opened Plans

  const TOKEN := "tokens"

  /** What is requested of a validator. */
  function Asked(s: Entries, v: string): nat { Held(s, v, TOKEN) }

  /** Tries to move `want` from one validator's request to another's; returns what is still wanted. */
  function Move(s: Entries, from: string, to: string, want: nat): (Entries, nat)
  {
    if Lookup(s, from).None? then (s, want)
    else
      var (r, missing) := Subtracted(s, from, One(TOKEN, want));
      var left := AmountOf(missing, TOKEN);
      (Allocated(r, to, One(TOKEN, if left <= want then want - left else 0)), left)
  }

  /** Drains the requests of deltas idx, idx-1, .., from+1 into that of delta `from`. */
  function Drain(s: Entries, ds: seq<Diff>, from: nat, idx: int, want: nat): (Entries, nat)
    requires from < |ds| && from <= idx < |ds|
    decreases idx
  {
    if idx == from then (s, want)
    else
      var (r, left) := Move(s, ds[idx].valoper, ds[from].valoper, want);
      if left == 0 then (r, 0) else Drain(r, ds, from, idx - 1, left)
  }

  /** Serves one over-delegated validator: the requests and what remains of its surplus. */
  function Serve(s: Entries, ds: seq<Diff>, from: nat): (Entries, nat)
    requires from < |ds| && ds[from].amount < 0
  {
    Drain(s, ds, from, |ds| - 1, -ds[from].amount)
  }

  function Left(ds: seq<Diff>, from: nat, left: nat): seq<Diff>
    requires from < |ds|
  {
    ds[from := Diff(ds[from].valoper, -(left as int))]
  }

  /** Serves the over-delegated validators in turn until one of them stays short. */
  function ShiftFrom(s: Entries, ds: seq<Diff>, from: nat): (Entries, seq<Diff>)
    requires from <= |ds|
    decreases |ds| - from
  {
    if from == |ds| || ds[from].amount >= 0 then (s, ds)
    else
      var (r, left) := Serve(s, ds, from);
      var ds' := Left(ds, from, left);
      if left == 0 then ShiftFrom(r, ds', from + 1) else (r, ds')
  }

  // ----- One move -----

  lemma MoveLaw(s: Entries, from: string, to: string, want: nat, v: string)
    requires from != to && Distinct(s)
    ensures var (r, left) := Move(s, from, to, want);
            && left <= want
            && Asked(r, from) == Asked(s, from) - (want - left)
            && Asked(r, to) == Asked(s, to) + (want - left)
            && (v != from && v != to ==> Asked(r, v) == Asked(s, v))
            && (left > 0 ==> Asked(r, from) == 0)
            && SumForDenom(r, TOKEN) == SumForDenom(s, TOKEN)
            && Distinct(r)
  {
    hide Subtracted, Allocated, Distinct, SumForDenom, Held, Lookup, One, AmountOf;
    OneAmount(TOKEN, want);
    LookupHeld(s, from, TOKEN);
    if Lookup(s, from).Some? {
      var (r, missing) := Subtracted(s, from, One(TOKEN, want));
      var n := want - AmountOf(missing, TOKEN);
      SubtractedHeld(s, from, One(TOKEN, want), v, TOKEN);
      SubtractedHeld(s, from, One(TOKEN, want), to, TOKEN);
      SubtractedDistinct(s, from, One(TOKEN, want));
      OneAmount(TOKEN, n);
      AllocatedHeld(r, to, One(TOKEN, n), v, TOKEN);
      AllocatedHeld(r, to, One(TOKEN, n), from, TOKEN);
      AllocatedHeld(r, to, One(TOKEN, n), to, TOKEN);
      AllocatedSum(r, to, One(TOKEN, n), TOKEN);
      AllocatedDistinct(r, to, One(TOKEN, n));
    }
  }

  lemma SubtractedDistinct(s: Entries, a: string, want: Coins)
    requires Distinct(s)
    ensures Distinct(Subtracted(s, a, want).0)
  {
    SubtractedKeepsAddresses(s, a, want);
    var r := Subtracted(s, a, want).0;
    forall i, j | 0 <= i < j < |r| ensures AllocationKey()(r[i]).address != AllocationKey()(r[j]).address {
      assert AllocationKey()(s[i]).address != AllocationKey()(s[j]).address;
    }
  }

  // ----- Sums over the deltas -----

  ghost predicate Apart(ds: seq<Diff>) { DistinctAddresses(DiffKey(), ds) }

  ghost function AskedSum(s: Entries, ds: seq<Diff>): nat
  {
    if ds == [] then 0 else Asked(s, ds[0].valoper) + AskedSum(s, ds[1..])
  }

  lemma {:induction false} AskedSumSame(s: Entries, r: Entries, ds: seq<Diff>)
    requires forall i :: 0 <= i < |ds| ==> Asked(r, ds[i].valoper) == Asked(s, ds[i].valoper)
    ensures AskedSum(r, ds) == AskedSum(s, ds)
  {
    if ds == [] {
    } else {
      AskedSumSame(s, r, ds[1..]);
    }
  }

  /** Changing one delta's request by n changes the sum by n. */
  lemma {:induction false} AskedSumChange(s: Entries, r: Entries, ds: seq<Diff>, k: nat, n: int)
    requires Apart(ds) && k < |ds|
    requires Asked(r, ds[k].valoper) == Asked(s, ds[k].valoper) + n
    requires forall i :: 0 <= i < |ds| && i != k ==> Asked(r, ds[i].valoper) == Asked(s, ds[i].valoper)
    ensures AskedSum(r, ds) == AskedSum(s, ds) + n
  {
    if k == 0 {
      AskedSumSame(s, r, ds[1..]);
    } else {
      AskedSumChange(s, r, ds[1..], k - 1, n);
    }
  }

  /** When every request is for a validator with a delta, the deltas account for all of it. */
  lemma {:induction false} AllAsked(s: Entries, ds: seq<Diff>)
    requires Apart(ds) && Distinct(s)
    requires forall a :: a in s ==> Mentions(ds, a.address)
    ensures AskedSum(s, ds) == SumForDenom(s, TOKEN)
  {
    if s == [] {
      NothingAsked(ds);
    } else {
      AllAsked(s[1..], ds);
      var k :| 0 <= k < |ds| && ds[k].valoper == s[0].address;
      assert !Has(s[1..], s[0].address) by {
        forall i | 0 <= i < |s[1..]| ensures s[1..][i].address != s[0].address {
          assert AllocationKey()(s[0]).address != AllocationKey()(s[i + 1]).address;
        }
      }
      AbsentHoldsNothing(s[1..], s[0].address, TOKEN);
      AskedSumChange(s[1..], s, ds, k, AmountOf(s[0].amount, TOKEN));
    }
  }

  lemma {:induction false} NothingAsked(ds: seq<Diff>)
    ensures AskedSum([], ds) == 0
  {
    if ds == [] {
    } else {
      NothingAsked(ds[1..]);
    }
  }

  lemma {:induction false} AskedSumSameNames(s: Entries, ds: seq<Diff>, es: seq<Diff>)
    requires |ds| == |es| && forall i :: 0 <= i < |ds| ==> ds[i].valoper == es[i].valoper
    ensures AskedSum(s, ds) == AskedSum(s, es)
  {
    if ds == [] {
    } else {
      forall i | 0 <= i < |ds[1..]| ensures ds[1..][i].valoper == es[1..][i].valoper {
        assert ds[i + 1].valoper == es[i + 1].valoper;
      }
      AskedSumSameNames(s, ds[1..], es[1..]);
    }
  }

  lemma ApartAt(ds: seq<Diff>, i: nat, j: nat)
    requires Apart(ds) && i < |ds| && j < |ds| && i != j
    ensures ds[i].valoper != ds[j].valoper
  {
    assert DiffKey()(ds[i]).address == ds[i].valoper && DiffKey()(ds[j]).address == ds[j].valoper;
  }

  lemma ApartTail(ds: seq<Diff>)
    requires Apart(ds) && ds != []
    ensures Apart(ds[1..])
  {
    forall i, j | 0 <= i < j < |ds[1..]| ensures DiffKey()(ds[1..][i]).address != DiffKey()(ds[1..][j]).address {
      ApartAt(ds, i + 1, j + 1);
    }
  }

  /** Moving n from one delta's request to another's keeps the sum. */
  lemma {:induction false} AskedSumMoved(s: Entries, r: Entries, ds: seq<Diff>, i: nat, j: nat, n: int)
    requires Apart(ds) && i < |ds| && j < |ds| && i != j
    requires Asked(r, ds[i].valoper) == Asked(s, ds[i].valoper) - n
    requires Asked(r, ds[j].valoper) == Asked(s, ds[j].valoper) + n
    requires forall k :: 0 <= k < |ds| && k != i && k != j ==> Asked(r, ds[k].valoper) == Asked(s, ds[k].valoper)
    ensures AskedSum(r, ds) == AskedSum(s, ds)
    decreases ds
  {
    hide Asked, Apart;
    ApartTail(ds);
    if i == 0 {
      AskedSumChange(s, r, ds[1..], j - 1, n);
    } else if j == 0 {
      AskedSumChange(s, r, ds[1..], i - 1, -n);
    } else {
      AskedSumMoved(s, r, ds[1..], i - 1, j - 1, n);
    }
  }

  lemma MoveKeepsSum(s: Entries, ds: seq<Diff>, i: nat, j: nat, want: nat)
    requires Apart(ds) && Distinct(s) && i < |ds| && j < |ds| && i != j
    ensures AskedSum(Move(s, ds[i].valoper, ds[j].valoper, want).0, ds) == AskedSum(s, ds)
  {
    hide Distinct, Move, Asked;
    var from, to := ds[i].valoper, ds[j].valoper;
    ApartAt(ds, i, j);
    MoveLaw(s, from, to, want, "");
    var (r, left) := Move(s, from, to, want);
    forall k | 0 <= k < |ds| && k != i && k != j ensures Asked(r, ds[k].valoper) == Asked(s, ds[k].valoper) {
      ApartAt(ds, k, i);
      ApartAt(ds, k, j);
      MoveLaw(s, from, to, want, ds[k].valoper);
    }
    AskedSumMoved(s, r, ds, i, j, want - left);
  }

  // ----- Draining into one validator -----

  lemma {:induction false} DrainLaw(s: Entries, ds: seq<Diff>, from: nat, idx: int, want: nat)
    requires Apart(ds) && Distinct(s) && from < |ds| && from <= idx < |ds| && want > 0
    ensures var (r, left) := Drain(s, ds, from, idx, want);
            && left <= want
            && Asked(r, ds[from].valoper) == Asked(s, ds[from].valoper) + (want - left)
            && (forall v :: v != ds[from].valoper ==> Asked(r, v) <= Asked(s, v))
            && (forall v :: v != ds[from].valoper && !Mentions(ds, v) ==> Asked(r, v) == Asked(s, v))
            && (left > 0 ==> forall k :: from < k <= idx ==> Asked(r, ds[k].valoper) == 0)
            && SumForDenom(r, TOKEN) == SumForDenom(s, TOKEN)
            && AskedSum(r, ds) == AskedSum(s, ds)
            && Distinct(r)
    decreases idx
  {
    hide Move, Asked, SumForDenom, AskedSum, Distinct;
    if idx > from {
      var (mid, left) := Move(s, ds[idx].valoper, ds[from].valoper, want);
      assert Mentions(ds, ds[idx].valoper);
      forall v ensures v != ds[from].valoper ==> Asked(mid, v) <= Asked(s, v)
               ensures v != ds[from].valoper && v != ds[idx].valoper ==> Asked(mid, v) == Asked(s, v)
      {
        MoveLaw(s, ds[idx].valoper, ds[from].valoper, want, v);
      }
      MoveLaw(s, ds[idx].valoper, ds[from].valoper, want, "");
      MoveKeepsSum(s, ds, idx, from, want);
      if left > 0 {
        DrainLaw(mid, ds, from, idx - 1, left);
      }
    }
  }

  /** Something is asked of a delta after i. */
  ghost predicate SomeAfter(s: Entries, ds: seq<Diff>, i: int)
  {
    exists k :: 0 <= i < k < |ds| && Asked(s, ds[k].valoper) > 0
  }

  /** One move on the requests of the deltas. */
  lemma MoveOn(s: Entries, ds: seq<Diff>, from: nat, idx: nat, want: nat)
    requires Apart(ds) && Distinct(s) && from < idx < |ds|
    ensures var (r, left) := Move(s, ds[idx].valoper, ds[from].valoper, want);
            && Distinct(r) && left <= want
            && Asked(r, ds[idx].valoper) == Asked(s, ds[idx].valoper) - (want - left)
            && (left > 0 ==> Asked(r, ds[idx].valoper) == 0)
            && (forall k :: 0 <= k < |ds| && k != from && k != idx ==>
                  Asked(r, ds[k].valoper) == Asked(s, ds[k].valoper))
  {
    hide Move, Asked, Distinct;
    ApartAt(ds, from, idx);
    MoveLaw(s, ds[idx].valoper, ds[from].valoper, want, "");
    var r := Move(s, ds[idx].valoper, ds[from].valoper, want).0;
    forall k | 0 <= k < |ds| && k != from && k != idx ensures Asked(r, ds[k].valoper) == Asked(s, ds[k].valoper) {
      ApartAt(ds, k, from);
      ApartAt(ds, k, idx);
      MoveLaw(s, ds[idx].valoper, ds[from].valoper, want, ds[k].valoper);
    }
  }

  /** Requests are drained from the back: one is touched only once nothing is asked after it. */
  lemma {:induction false} DrainOrder(s: Entries, ds: seq<Diff>, from: nat, idx: int, want: nat)
    requires Apart(ds) && Distinct(s) && from < |ds| && from <= idx < |ds| && want > 0
    ensures var (r, left) := Drain(s, ds, from, idx, want);
            && (forall k :: 0 <= k < |ds| && k != from && !(from < k <= idx) ==>
                  Asked(r, ds[k].valoper) == Asked(s, ds[k].valoper))
            && (forall i, k :: from < i < k <= idx && Asked(r, ds[i].valoper) != Asked(s, ds[i].valoper) ==>
                  Asked(r, ds[k].valoper) == 0)
            && (left < want ==> SomeAfter(s, ds, from))
    decreases idx
  {
    hide Move, Asked, Distinct, Apart;
    if idx > from {
      var (mid, left) := Move(s, ds[idx].valoper, ds[from].valoper, want);
      MoveOn(s, ds, from, idx, want);
      if left > 0 {
        DrainOrder(mid, ds, from, idx - 1, left);
      }
    }
  }

  // ----- The whole shift -----

  /** Every surplus is used up, or whatever comes after the first unfinished delta asks nothing. */
  ghost predicate Maximal(s: Entries, ds: seq<Diff>)
  {
    || (forall i :: 0 <= i < |ds| ==> ds[i].amount >= 0)
    || (exists f :: 0 <= f < |ds| && ds[f].amount < 0 && Finished(ds, f) && NothingAfter(s, ds, f))
  }

  ghost predicate Finished(ds: seq<Diff>, f: int)
  {
    forall i :: 0 <= i < f && i < |ds| ==> ds[i].amount == 0
  }

  ghost predicate NothingAfter(s: Entries, ds: seq<Diff>, f: int)
  {
    forall k :: f < k < |ds| && k >= 0 ==> Asked(s, ds[k].valoper) == 0
  }

  /** How shifted requests and deltas relate to the original ones. */
  ghost predicate Shifted(s: Entries, ds: seq<Diff>, r: Entries, es: seq<Diff>)
  {
    && |es| == |ds|
    && (forall i :: 0 <= i < |ds| ==>
          && es[i].valoper == ds[i].valoper
          && (ds[i].amount >= 0 ==> es[i].amount == ds[i].amount)
          && (ds[i].amount < 0 ==> ds[i].amount <= es[i].amount <= 0)
          && Asked(r, ds[i].valoper) <= Asked(s, ds[i].valoper) + (es[i].amount - ds[i].amount))
    && (forall v :: !Mentions(ds, v) ==> Asked(r, v) == Asked(s, v))
    && SumForDenom(r, TOKEN) == SumForDenom(s, TOKEN)
    && AskedSum(r, ds) == AskedSum(s, ds)
  }

  /** What a validator would be asked with the surplus it used up and nothing taken away. */
  ghost function Raised(s: Entries, ds: seq<Diff>, es: seq<Diff>, i: int): int
    requires 0 <= i < |ds| && i < |es|
  {
    Asked(s, ds[i].valoper) + (es[i].amount - ds[i].amount)
  }

  /**
   Requests move to the front and are taken from the back: a validator is raised only while
   something is asked after it, and lowered only once nothing is.
   */
  ghost predicate BackToFront(s: Entries, ds: seq<Diff>, r: Entries, es: seq<Diff>)
    requires |es| == |ds|
  {
    && (forall i :: 0 <= i < |ds| && es[i].amount != ds[i].amount ==> SomeAfter(s, ds, i))
    && (forall i, k :: 0 <= i < k < |ds| && Asked(r, ds[i].valoper) != Raised(s, ds, es, i) ==>
          Asked(r, ds[k].valoper) == 0)
  }

  /** One over-delegated validator served. */
  lemma ServeLaw(s: Entries, ds: seq<Diff>, from: nat)
    requires Apart(ds) && Distinct(s) && from < |ds| && ds[from].amount < 0
    ensures var (r, left) := Serve(s, ds, from);
            && left <= -ds[from].amount
            && Distinct(r)
            && Shifted(s, ds, r, Left(ds, from, left))
            && (left > 0 ==> NothingAfter(r, ds, from))
  {
    DrainLaw(s, ds, from, |ds| - 1, -ds[from].amount);
    var (r, left) := Serve(s, ds, from);
    forall v | !Mentions(ds, v) ensures Asked(r, v) == Asked(s, v) {
      assert v != ds[from].valoper;
    }
  }

  lemma ShiftedTransitive(s: Entries, ds: seq<Diff>, r: Entries, es: seq<Diff>, q: Entries, fs: seq<Diff>)
    requires Shifted(s, ds, r, es) && Shifted(r, es, q, fs)
    ensures Shifted(s, ds, q, fs)
  {
    forall v | !Mentions(ds, v) ensures Asked(q, v) == Asked(s, v) {
      assert forall i :: 0 <= i < |es| ==> es[i].valoper != v;
    }
    AskedSumSameNames(r, ds, es);
    AskedSumSameNames(q, ds, es);
  }

  ghost predicate AscendingFrom(ds: seq<Diff>, from: int)
  {
    forall i, j :: 0 <= from <= i < j < |ds| ==> ds[i].amount <= ds[j].amount
  }

  lemma NothingToShift(s: Entries, ds: seq<Diff>, from: nat)
    requires from <= |ds| && Finished(ds, from) && AscendingFrom(ds, from)
    requires from < |ds| ==> ds[from].amount >= 0
    ensures Shifted(s, ds, s, ds) && Maximal(s, ds)
  {
    forall i | 0 <= i < |ds| ensures ds[i].amount >= 0 {
      assert i > from ==> ds[from].amount <= ds[i].amount;
    }
  }

  lemma StuckAt(r: Entries, ds: seq<Diff>, f: nat)
    requires f < |ds| && ds[f].amount < 0 && Finished(ds, f) && NothingAfter(r, ds, f)
    ensures Maximal(r, ds)
  {
  }

  /**
   Shifting keeps the total, raises an over-delegated validator by at most the surplus
   it uses up, raises nobody else, and goes as far as it can.
   */
  lemma {:induction false} ShiftLaw(s: Entries, ds: seq<Diff>, from: nat)
    requires Apart(ds) && Distinct(s) && from <= |ds|
    requires Finished(ds, from) && AscendingFrom(ds, from)
    ensures var (r, es) := ShiftFrom(s, ds, from);
            Distinct(r) && Shifted(s, ds, r, es) && Maximal(r, es)
    decreases |ds| - from
  {
    if from == |ds| || ds[from].amount >= 0 {
      NothingToShift(s, ds, from);
    } else {
      ServeLaw(s, ds, from);
      var (r, left) := Serve(s, ds, from);
      var ds' := Left(ds, from, left);
      if left == 0 {
        ShiftLaw(r, ds', from + 1);
        var (q, es) := ShiftFrom(r, ds', from + 1);
        ShiftedTransitive(s, ds, r, ds', q, es);
      } else {
        StuckAt(r, ds', from);
      }
    }
  }

  // ----- The order of the shift -----

  lemma ServeOrder(s: Entries, ds: seq<Diff>, from: nat)
    requires Apart(ds) && Distinct(s) && from < |ds| && ds[from].amount < 0
    ensures var (r, left) := Serve(s, ds, from);
            BackToFront(s, ds, r, Left(ds, from, left))
  {
    hide Asked, Drain, Distinct, Apart, AskedSum, SumForDenom, Mentions;
    DrainLaw(s, ds, from, |ds| - 1, -ds[from].amount);
    DrainOrder(s, ds, from, |ds| - 1, -ds[from].amount);
  }

  lemma SomeAfterBefore(s: Entries, ds: seq<Diff>, r: Entries, es: seq<Diff>, i: int)
    requires Shifted(s, ds, r, es) && BackToFront(s, ds, r, es) && SomeAfter(r, es, i)
    ensures SomeAfter(s, ds, i)
  {
    var k :| 0 <= i < k < |es| && Asked(r, es[k].valoper) > 0;
    if Asked(s, ds[k].valoper) == 0 {
      assert es[k].amount != ds[k].amount;
      assert SomeAfter(s, ds, k);
    }
  }

  lemma OrderTransitive(s: Entries, ds: seq<Diff>, r: Entries, es: seq<Diff>, q: Entries, fs: seq<Diff>)
    requires Shifted(s, ds, r, es) && BackToFront(s, ds, r, es)
    requires Shifted(r, es, q, fs) && BackToFront(r, es, q, fs)
    ensures BackToFront(s, ds, q, fs)
  {
    hide Asked, SumForDenom, AskedSum, Mentions, SomeAfter;
    forall i | 0 <= i < |ds| && fs[i].amount != ds[i].amount ensures SomeAfter(s, ds, i) {
      if es[i].amount == ds[i].amount { SomeAfterBefore(s, ds, r, es, i); }
    }
    forall i, k | 0 <= i < k < |ds| && Asked(q, ds[i].valoper) != Raised(s, ds, fs, i)
      ensures Asked(q, ds[k].valoper) == 0
    {
      if Asked(q, es[i].valoper) == Raised(r, es, fs, i) {
        NothingComes(r, es, q, fs, i, k) by {
          forall j | i < j < |ds| ensures Asked(r, es[j].valoper) == 0 { assert Asked(r, ds[j].valoper) == 0; }
        }
      }
    }
  }

  lemma NothingComes(s: Entries, ds: seq<Diff>, r: Entries, es: seq<Diff>, i: int, k: int)
    requires Shifted(s, ds, r, es) && BackToFront(s, ds, r, es) && 0 <= i < k < |ds|
    requires forall j :: i < j < |ds| ==> Asked(s, ds[j].valoper) == 0
    ensures Asked(r, ds[k].valoper) == 0
  {
    assert !SomeAfter(s, ds, k);
  }

  /** The whole shift takes from the back and gives to the front. */
  lemma {:induction false} ShiftOrder(s: Entries, ds: seq<Diff>, from: nat)
    requires Apart(ds) && Distinct(s) && from <= |ds|
    requires Finished(ds, from) && AscendingFrom(ds, from)
    ensures var (r, es) := ShiftFrom(s, ds, from);
            |es| == |ds| && BackToFront(s, ds, r, es)
    decreases |ds| - from
  {
    hide Asked, Distinct, Serve, Shifted, Maximal, Mentions, BackToFront, Apart, Finished, AscendingFrom;
    if from == |ds| || ds[from].amount >= 0 {
      NothingMoves(s, ds);
    } else {
      ServeLaw(s, ds, from);
      ServeOrder(s, ds, from);
      var (r, left) := Serve(s, ds, from);
      var ds' := Left(ds, from, left);
      if left == 0 {
        ServedKeepsOrder(ds, from);
        ShiftLaw(r, ds', from + 1);
        ShiftOrder(r, ds', from + 1);
        var (q, es) := ShiftFrom(r, ds', from + 1);
        SameLength(r, ds', q, es);
        OrderTransitive(s, ds, r, ds', q, es);
      }
    }
  }

  lemma NothingMoves(s: Entries, ds: seq<Diff>)
    ensures BackToFront(s, ds, s, ds)
  {
  }

  lemma ServedKeepsOrder(ds: seq<Diff>, from: nat)
    requires from < |ds| && Apart(ds) && Finished(ds, from) && AscendingFrom(ds, from)
    ensures var es := Left(ds, from, 0);
            Apart(es) && Finished(es, from + 1) && AscendingFrom(es, from + 1)
  {
  }

  lemma SameLength(s: Entries, ds: seq<Diff>, r: Entries, es: seq<Diff>)
    requires Shifted(s, ds, r, es)
    ensures |es| == |ds|
  {
  }
}
