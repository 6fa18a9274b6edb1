/**
 Fitting requests into what is delegated: SatisfyRequestsForBins of
 x/interchainstaking/keeper/zones.go, whose recursion ends exactly when the
 requests fit in total.
 */
module Sweep {
  import opened Allocations
  import opened Intent
  import opened Plans
  import opened Shift

  /** What can be withdrawn from a validator. */
  function Cap(bins: Entries, v: string): nat { SumForDenom(bins, v) }

  function Over(s: Entries, bins: Entries, v: string): nat
  {
    if Asked(s, v) > Cap(bins, v) then Asked(s, v) - Cap(bins, v) else 0
  }

  /** Takes n off one request and adds it to another. */
  function Pass(s: Entries, from: string, to: string, n: nat): Entries
  {
    Allocated(Subtracted(s, from, One(TOKEN, n)).0, to, One(TOKEN, n))
  }

  /** One run over the deltas from index i; true when the last one overflows back to the first. */
  function SweepFrom(s: Entries, bins: Entries, ds: seq<Diff>, i: nat): (Entries, bool)
    requires i <= |ds|
    decreases |ds| - i
  {
    if i == |ds| then (s, false)
    else if Lookup(s, ds[i].valoper).None? || Asked(s, ds[i].valoper) <= Cap(bins, ds[i].valoper) then
      SweepFrom(s, bins, ds, i + 1)
    else
      var over := Over(s, bins, ds[i].valoper);
      if i == |ds| - 1 then (Pass(s, ds[i].valoper, ds[0].valoper, over), true)
      else SweepFrom(Pass(s, ds[i].valoper, ds[i + 1].valoper, over), bins, ds, i + 1)
  }

  // ----- One pass of an overflow -----

  lemma PassLaw(s: Entries, from: string, to: string, n: nat, v: string)
    requires Distinct(s) && n <= Asked(s, from)
    ensures var r := Pass(s, from, to, n);
            && Distinct(r)
            && SumForDenom(r, TOKEN) == SumForDenom(s, TOKEN)
            && (from != to ==> Asked(r, from) == Asked(s, from) - n && Asked(r, to) == Asked(s, to) + n)
            && (from == to ==> Asked(r, from) == Asked(s, from))
            && (v != from && v != to ==> Asked(r, v) == Asked(s, v))
  {
    OneAmount(TOKEN, n);
    var mid := Subtracted(s, from, One(TOKEN, n)).0;
    SubtractedHeld(s, from, One(TOKEN, n), v, TOKEN);
    SubtractedHeld(s, from, One(TOKEN, n), to, TOKEN);
    SubtractedDistinct(s, from, One(TOKEN, n));
    AllocatedHeld(mid, to, One(TOKEN, n), v, TOKEN);
    AllocatedHeld(mid, to, One(TOKEN, n), from, TOKEN);
    AllocatedHeld(mid, to, One(TOKEN, n), to, TOKEN);
    AllocatedSum(mid, to, One(TOKEN, n), TOKEN);
    AllocatedDistinct(mid, to, One(TOKEN, n));
  }

  // ----- Sums over the deltas -----

  ghost function CapSum(bins: Entries, ds: seq<Diff>): nat
  {
    if ds == [] then 0 else Cap(bins, ds[0].valoper) + CapSum(bins, ds[1..])
  }

  ghost predicate SameOutside(s: Entries, r: Entries, ds: seq<Diff>)
  {
    forall v :: !Mentions(ds, v) ==> Asked(r, v) == Asked(s, v)
  }

  lemma PassKeepsSum(s: Entries, ds: seq<Diff>, i: nat, j: nat, n: nat)
    requires Apart(ds) && Distinct(s) && i < |ds| && j < |ds| && n <= Asked(s, ds[i].valoper)
    ensures var r := Pass(s, ds[i].valoper, ds[j].valoper, n);
            && AskedSum(r, ds) == AskedSum(s, ds)
            && SameOutside(s, r, ds)
            && forall k :: 0 <= k < |ds| && k != i && k != j ==> Asked(r, ds[k].valoper) == Asked(s, ds[k].valoper)
  {
    var from, to := ds[i].valoper, ds[j].valoper;
    var mid := Subtracted(s, from, One(TOKEN, n)).0;
    var r := Pass(s, from, to, n);
    OneAmount(TOKEN, n);
    forall v ensures Asked(mid, v) == Asked(s, v) - (if v == from then n else 0)
             ensures Asked(r, v) == Asked(mid, v) + (if v == to then n else 0)
    {
      SubtractedHeld(s, from, One(TOKEN, n), v, TOKEN);
      AllocatedHeld(mid, to, One(TOKEN, n), v, TOKEN);
    }
    AskedSumChange(s, mid, ds, i, -(n as int));
    AskedSumChange(mid, r, ds, j, n);
    forall v | !Mentions(ds, v) ensures Asked(r, v) == Asked(s, v) {
      assert v != from && v != to;
    }
  }

  // ----- What one sweep does -----

  ghost predicate Fits(s: Entries, bins: Entries, ds: seq<Diff>, i: int)
    requires 0 <= i < |ds|
  {
    Asked(s, ds[i].valoper) <= Cap(bins, ds[i].valoper)
  }

  ghost predicate AllFit(s: Entries, bins: Entries, ds: seq<Diff>, from: int)
    requires 0 <= from
  {
    forall i :: from <= i < |ds| ==> Fits(s, bins, ds, i)
  }

  ghost predicate FitBetween(s: Entries, bins: Entries, ds: seq<Diff>, lo: int, hi: int)
  {
    forall i :: 0 <= lo <= i < hi && i < |ds| ==> Fits(s, bins, ds, i)
  }

  lemma MissingFits(s: Entries, bins: Entries, v: string)
    ensures Lookup(s, v).None? ==> Asked(s, v) <= Cap(bins, v)
  {
    LookupHeld(s, v, TOKEN);
  }

  /** Passing on an overflow: the delta is exactly full, the receiver holds that much more. */
  lemma OverflowLaw(s: Entries, bins: Entries, ds: seq<Diff>, i: nat, j: nat)
    requires Apart(ds) && Distinct(s) && i < |ds| && j < |ds| && i != j && !Fits(s, bins, ds, i)
    ensures var r := Pass(s, ds[i].valoper, ds[j].valoper, Over(s, bins, ds[i].valoper));
            && Distinct(r)
            && SumForDenom(r, TOKEN) == SumForDenom(s, TOKEN)
            && AskedSum(r, ds) == AskedSum(s, ds)
            && SameOutside(s, r, ds)
            && Asked(r, ds[i].valoper) == Cap(bins, ds[i].valoper)
            && Asked(r, ds[j].valoper) >= Asked(s, ds[j].valoper)
            && forall k :: 0 <= k < |ds| && k != i && k != j ==> Asked(r, ds[k].valoper) == Asked(s, ds[k].valoper)
  {
    var over := Over(s, bins, ds[i].valoper);
    assert ds[i].valoper != ds[j].valoper;
    PassLaw(s, ds[i].valoper, ds[j].valoper, over, "");
    PassKeepsSum(s, ds, i, j, over);
  }

  lemma OverflowForward(s: Entries, bins: Entries, ds: seq<Diff>, i: nat)
    requires Apart(ds) && Distinct(s) && i + 1 < |ds| && !Fits(s, bins, ds, i)
    ensures var r := Pass(s, ds[i].valoper, ds[i + 1].valoper, Over(s, bins, ds[i].valoper));
            && (FitBetween(s, bins, ds, 0, i) ==> FitBetween(r, bins, ds, 0, i + 1))
            && (AllFit(s, bins, ds, i + 1) ==> AllFit(r, bins, ds, i + 2))
            && (Saturated(s, bins, ds, i) ==> Saturated(r, bins, ds, i + 1))
  {
    OverflowLaw(s, bins, ds, i, i + 1);
    var r := Pass(s, ds[i].valoper, ds[i + 1].valoper, Over(s, bins, ds[i].valoper));
    forall k | 0 <= k < |ds| && k != i && k != i + 1 ensures Fits(r, bins, ds, k) <==> Fits(s, bins, ds, k) {
      assert Asked(r, ds[k].valoper) == Asked(s, ds[k].valoper);
    }
    assert Fits(r, bins, ds, i);
  }

  lemma OverflowBack(s: Entries, bins: Entries, ds: seq<Diff>)
    requires Apart(ds) && Distinct(s) && |ds| > 1 && !Fits(s, bins, ds, |ds| - 1)
    requires FitBetween(s, bins, ds, 0, |ds| - 1)
    ensures AllFit(Pass(s, ds[|ds| - 1].valoper, ds[0].valoper, Over(s, bins, ds[|ds| - 1].valoper)), bins, ds, 1)
  {
    var i := |ds| - 1;
    OverflowLaw(s, bins, ds, i, 0);
    var r := Pass(s, ds[i].valoper, ds[0].valoper, Over(s, bins, ds[i].valoper));
    forall k | 1 <= k < |ds| ensures Fits(r, bins, ds, k) {
      if k != i {
        assert Fits(s, bins, ds, k);
        assert Asked(r, ds[k].valoper) == Asked(s, ds[k].valoper);
      }
    }
  }

  ghost predicate Saturated(s: Entries, bins: Entries, ds: seq<Diff>, hi: int)
  {
    forall i :: 0 <= i < hi && i < |ds| ==> Asked(s, ds[i].valoper) >= Cap(bins, ds[i].valoper)
  }

  /** A single delta that overflows gets its overflow back. */
  lemma LoneOverflow(s: Entries, bins: Entries, ds: seq<Diff>)
    requires Distinct(s) && |ds| == 1 && !Fits(s, bins, ds, 0)
    ensures var r := Pass(s, ds[0].valoper, ds[0].valoper, Over(s, bins, ds[0].valoper));
            && Distinct(r)
            && SumForDenom(r, TOKEN) == SumForDenom(s, TOKEN)
            && AskedSum(r, ds) == AskedSum(s, ds)
            && SameOutside(s, r, ds)
  {
    var over := Over(s, bins, ds[0].valoper);
    PassLaw(s, ds[0].valoper, ds[0].valoper, over, "");
    PassKeepsSum(s, ds, 0, 0, over);
  }

  /**
   A sweep keeps the sums and everything outside the deltas, and leaves every delta from
   the second on within its capacity; the first one too, unless the sweep must run again.
   */
  lemma {:induction false} SweepLaw(s: Entries, bins: Entries, ds: seq<Diff>, i: nat)
    requires Apart(ds) && Distinct(s) && i <= |ds|
    requires FitBetween(s, bins, ds, 0, i)
    ensures var (r, again) := SweepFrom(s, bins, ds, i);
            && Distinct(r)
            && SumForDenom(r, TOKEN) == SumForDenom(s, TOKEN)
            && AskedSum(r, ds) == AskedSum(s, ds)
            && SameOutside(s, r, ds)
            && AllFit(r, bins, ds, 1)
            && (!again ==> AllFit(r, bins, ds, 0))
    decreases |ds| - i
  {
    if i < |ds| {
      var v := ds[i].valoper;
      MissingFits(s, bins, v);
      if Asked(s, v) <= Cap(bins, v) {
        SweepLaw(s, bins, ds, i + 1);
      } else {
        if i < |ds| - 1 {
          OverflowLaw(s, bins, ds, i, i + 1);
          var r := Pass(s, v, ds[i + 1].valoper, Over(s, bins, v));
          OverflowForward(s, bins, ds, i);
          SweepLaw(r, bins, ds, i + 1);
        } else if i > 0 {
          OverflowLaw(s, bins, ds, i, 0);
          OverflowBack(s, bins, ds);
        } else {
          LoneOverflow(s, bins, ds);
        }
      }
    }
  }

  // ----- When the recursion ends -----

  lemma {:induction false} FitSum(s: Entries, bins: Entries, ds: seq<Diff>)
    requires AllFit(s, bins, ds, 0)
    ensures AskedSum(s, ds) <= CapSum(bins, ds)
  {
    if ds == [] {
    } else {
      assert Fits(s, bins, ds, 0);
      forall i | 0 <= i < |ds[1..]| ensures Fits(s, bins, ds[1..], i) {
        assert Fits(s, bins, ds, i + 1);
      }
      FitSum(s, bins, ds[1..]);
    }
  }

  lemma {:induction false} SaturatedSum(s: Entries, bins: Entries, ds: seq<Diff>)
    requires ds != [] && Saturated(s, bins, ds, |ds|)
    requires Asked(s, ds[|ds| - 1].valoper) > Cap(bins, ds[|ds| - 1].valoper)
    ensures AskedSum(s, ds) > CapSum(bins, ds)
  {
    assert Asked(s, ds[0].valoper) >= Cap(bins, ds[0].valoper);
    if |ds| > 1 {
      assert Saturated(s, bins, ds[1..], |ds| - 1) by {
        forall i | 0 <= i < |ds| - 1 ensures Asked(s, ds[1..][i].valoper) >= Cap(bins, ds[1..][i].valoper) {
          assert ds[1..][i] == ds[i + 1];
        }
      }
      SaturatedSum(s, bins, ds[1..]);
    } else {
      assert AskedSum(s, ds[1..]) == 0 && CapSum(bins, ds[1..]) == 0;
    }
  }

  /**
   Once only the delta being looked at can be over, an overflow past the last one would
   mean that every delta is full: requests that fit in total do not get there.
   */
  lemma {:induction false} SecondSweepEnds(s: Entries, bins: Entries, ds: seq<Diff>, i: nat)
    requires Apart(ds) && Distinct(s) && i <= |ds|
    requires AllFit(s, bins, ds, i + 1)
    requires i < |ds| && !Fits(s, bins, ds, i) ==> Saturated(s, bins, ds, i)
    requires AskedSum(s, ds) <= CapSum(bins, ds)
    ensures !SweepFrom(s, bins, ds, i).1
    decreases |ds| - i
  {
    hide Asked, Cap, Pass, Apart, Distinct, AskedSum, CapSum, SumForDenom, SameOutside;
    if i < |ds| {
      var v := ds[i].valoper;
      MissingFits(s, bins, v);
      if Fits(s, bins, ds, i) {
        assert i + 1 < |ds| ==> Fits(s, bins, ds, i + 1);
        assert AllFit(s, bins, ds, i + 2);
        SecondSweepEnds(s, bins, ds, i + 1);
      } else if i == |ds| - 1 {
        SaturatedSum(s, bins, ds);
      } else {
        OverflowLaw(s, bins, ds, i, i + 1);
        var r := Pass(s, v, ds[i + 1].valoper, Over(s, bins, v));
        OverflowForward(s, bins, ds, i);
        SecondSweepEnds(r, bins, ds, i + 1);
      }
    }
  }

  /** The recursion ends within k sweeps. */
  ghost predicate SettlesWithin(s: Entries, bins: Entries, ds: seq<Diff>, k: nat)
    decreases k
  {
    k > 0 && (!SweepFrom(s, bins, ds, 0).1 || SettlesWithin(SweepFrom(s, bins, ds, 0).0, bins, ds, k - 1))
  }

  ghost predicate Settles(s: Entries, bins: Entries, ds: seq<Diff>)
  {
    exists k: nat :: SettlesWithin(s, bins, ds, k)
  }

  lemma {:induction false} SettlesIntro(s: Entries, bins: Entries, ds: seq<Diff>, k: nat)
    requires SettlesWithin(s, bins, ds, k)
    ensures Settles(s, bins, ds)
  {
  }

  lemma FitsInTotalSettles(s: Entries, bins: Entries, ds: seq<Diff>)
    requires Apart(ds) && Distinct(s) && AskedSum(s, ds) <= CapSum(bins, ds)
    ensures SettlesWithin(s, bins, ds, 2)
  {
    SweepLaw(s, bins, ds, 0);
    var (r, again) := SweepFrom(s, bins, ds, 0);
    SecondSweepEnds(r, bins, ds, 0);
    assert SettlesWithin(r, bins, ds, 1);
  }

  lemma {:induction false} TooMuchNeverSettles(s: Entries, bins: Entries, ds: seq<Diff>, k: nat)
    requires Apart(ds) && Distinct(s) && AskedSum(s, ds) > CapSum(bins, ds)
    ensures !SettlesWithin(s, bins, ds, k)
    decreases k
  {
    if k == 0 {
    } else {
      SweepLaw(s, bins, ds, 0);
      var (r, again) := SweepFrom(s, bins, ds, 0);
      if AllFit(r, bins, ds, 0) {
        FitSum(r, bins, ds);
      }
      TooMuchNeverSettles(r, bins, ds, k - 1);
    }
  }

  /**
   The recursion ends if and only if the requests fit in total into what is delegated,
   and then it recurses at most once.
   */
  lemma SettlesExactlyWhenFitting(s: Entries, bins: Entries, ds: seq<Diff>)
    requires Apart(ds) && Distinct(s)
    ensures Settles(s, bins, ds) <==> AskedSum(s, ds) <= CapSum(bins, ds)
    ensures AskedSum(s, ds) <= CapSum(bins, ds) ==> SettlesWithin(s, bins, ds, 2)
  {
    if AskedSum(s, ds) <= CapSum(bins, ds) {
      FitsInTotalSettles(s, bins, ds);
      SettlesIntro(s, bins, ds, 2);
    } else {
      forall k: nat ensures !SettlesWithin(s, bins, ds, k) {
        TooMuchNeverSettles(s, bins, ds, k);
      }
    }
  }

  function Satisfied(s: Entries, bins: Entries, ds: seq<Diff>): Entries
  {
    var (r, again) := SweepFrom(s, bins, ds, 0);
    if again then SweepFrom(r, bins, ds, 0).0 else r
  }

  /** The result: every delta fits, nothing is lost, nobody else is touched. */
  lemma SatisfiedLaw(s: Entries, bins: Entries, ds: seq<Diff>)
    requires Apart(ds) && Distinct(s) && AskedSum(s, ds) <= CapSum(bins, ds)
    ensures var r := Satisfied(s, bins, ds);
            && AllFit(r, bins, ds, 0)
            && SumForDenom(r, TOKEN) == SumForDenom(s, TOKEN)
            && SameOutside(s, r, ds)
            && Distinct(r)
  {
    SweepLaw(s, bins, ds, 0);
    var (r, again) := SweepFrom(s, bins, ds, 0);
    if again {
      SecondSweepEnds(r, bins, ds, 0);
      SweepLaw(r, bins, ds, 0);
    }
  }
}
