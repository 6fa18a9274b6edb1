/**
 What shifting and fitting do to the requests of all deltas at once: ApplyDeltasToIntent and
 SatisfyRequestsForBins of x/interchainstaking/keeper/zones.go, as pouring into a row of buckets.
 */
module Rows {
  import opened Allocations
  import opened Intent
  import opened Plans
  import opened Shift
  import opened Sweep
  import opened Pour

  /** What is asked of each delta's validator. */
  function AskedRow(s: Entries, ds: seq<Diff>): Row
  {
    seq(|ds|, i requires 0 <= i < |ds| => Asked(s, ds[i].valoper))
  }

  /** What can be withdrawn from each. */
  function CapRow(bins: Entries, ds: seq<Diff>): Row
  {
    seq(|ds|, i requires 0 <= i < |ds| => Cap(bins, ds[i].valoper))
  }

  /** What could be asked of each: its own request and what it is over-delegated by. */
  function RoomRow(s: Entries, ds: seq<Diff>): Row
  {
    seq(|ds|, i requires 0 <= i < |ds| =>
      Asked(s, ds[i].valoper) + (if ds[i].amount < 0 then -ds[i].amount else 0))
  }

  lemma {:induction false} AskedRowSum(s: Entries, ds: seq<Diff>)
    ensures RowSum(AskedRow(s, ds)) == AskedSum(s, ds)
  {
    hide Asked;
    if ds == [] {
    } else {
      AskedRowSum(s, ds[1..]);
      assert AskedRow(s, ds)[1..] == AskedRow(s, ds[1..]);
    }
  }

  // ----- The shift -----

  lemma ShortBeforeEmpty(s: Entries, ds: seq<Diff>, r: Entries, es: seq<Diff>, i: int, k: int)
    requires Shifted(s, ds, r, es) && Maximal(r, es) && BackToFront(s, ds, r, es)
    requires 0 <= i < k < |ds| && Asked(r, ds[i].valoper) < RoomRow(s, ds)[i]
    ensures Asked(r, ds[k].valoper) == 0
  {
    hide Asked, AskedSum, SumForDenom, Mentions;
    if Asked(r, ds[i].valoper) == Raised(s, ds, es, i) {
      assert es[i].amount < 0;
      var f :| 0 <= f < |es| && es[f].amount < 0 && Finished(es, f) && NothingAfter(r, es, f);
      assert i >= f;
      assert Asked(r, es[k].valoper) == 0;
    }
  }

  /**
   Shifting fills the validators with what is asked of all of them, from the most over-delegated
   one on, each up to its own request and its surplus.
   */
  lemma ShiftIsFill(s: Entries, ds: seq<Diff>)
    requires Apart(ds) && AscendingFrom(ds, 0) && Distinct(s)
    ensures AskedRow(ShiftFrom(s, ds, 0).0, ds) == FillFront(RoomRow(s, ds), AskedSum(s, ds))
  {
    hide Asked, AskedSum, SumForDenom, Mentions, ShiftFrom, Maximal, BackToFront, FillFront;
    var (r, es) := ShiftFrom(s, ds, 0);
    ShiftLaw(s, ds, 0);
    ShiftOrder(s, ds, 0);
    var row, caps := AskedRow(r, ds), RoomRow(s, ds);
    forall i | 0 <= i < |row| ensures row[i] <= caps[i] {
      assert Asked(r, ds[i].valoper) <= Asked(s, ds[i].valoper) + (es[i].amount - ds[i].amount);
    }
    forall i, k | 0 <= i < k < |row| && row[i] < caps[i] ensures row[k] == 0 {
      ShortBeforeEmpty(s, ds, r, es, i, k);
    }
    FrontFirstIsFill(row, caps);
    AskedRowSum(r, ds);
  }

  // ----- One sweep -----

  lemma PassOn(s: Entries, ds: seq<Diff>, i: nat, j: nat, n: nat, k: nat)
    requires Apart(ds) && Distinct(s) && i < |ds| && j < |ds| && n <= Asked(s, ds[i].valoper) && k < |ds|
    ensures Asked(Pass(s, ds[i].valoper, ds[j].valoper, n), ds[k].valoper)
         == Asked(s, ds[k].valoper) - (if k == i then n else 0) + (if k == j then n else 0)
  {
    hide Asked, Pass, Distinct, Apart;
    if k != i { ApartAt(ds, k, i); }
    if k != j { ApartAt(ds, k, j); }
    if i != j { ApartAt(ds, i, j); }
    PassLaw(s, ds[i].valoper, ds[j].valoper, n, ds[k].valoper);
  }

  /** What a sweep from index i on leaves: the part from i on has run over, the end of it into the first. */
  ghost predicate SweptFrom(s: Entries, bins: Entries, ds: seq<Diff>, i: nat, r: Entries, again: bool)
    requires i <= |ds|
  {
    var (row, over) := RunOver(AskedRow(s, ds)[i..], CapRow(bins, ds)[i..], 0);
    && (again <==> over > 0)
    && (forall k :: i <= k < |ds| ==> Asked(r, ds[k].valoper) == row[k - i] + (if k == 0 then over else 0))
    && (forall k :: 0 <= k < i ==> Asked(r, ds[k].valoper) == Asked(s, ds[k].valoper) + (if k == 0 then over else 0))
  }

  lemma FitsOn(s: Entries, bins: Entries, ds: seq<Diff>, i: nat, r: Entries, again: bool)
    requires i < |ds| && Asked(s, ds[i].valoper) <= Cap(bins, ds[i].valoper)
    requires SweptFrom(s, bins, ds, i + 1, r, again)
    ensures SweptFrom(s, bins, ds, i, r, again)
  {
    hide Asked, Cap;
    var asks, caps := AskedRow(s, ds)[i..], CapRow(bins, ds)[i..];
    assert asks[1..] == AskedRow(s, ds)[i + 1..] && caps[1..] == CapRow(bins, ds)[i + 1..];
  }

  lemma OverOn(s: Entries, bins: Entries, ds: seq<Diff>, i: nat, mid: Entries, r: Entries, again: bool)
    requires i + 1 < |ds| && Asked(s, ds[i].valoper) > Cap(bins, ds[i].valoper)
    requires var over := Asked(s, ds[i].valoper) - Cap(bins, ds[i].valoper);
             forall k :: 0 <= k < |ds| ==>
               Asked(mid, ds[k].valoper)
               == Asked(s, ds[k].valoper) - (if k == i then over else 0) + (if k == i + 1 then over else 0)
    requires SweptFrom(mid, bins, ds, i + 1, r, again)
    ensures SweptFrom(s, bins, ds, i, r, again)
  {
    hide Asked, Cap;
    var asks, caps := AskedRow(s, ds)[i..], CapRow(bins, ds)[i..];
    var over := Asked(s, ds[i].valoper) - Cap(bins, ds[i].valoper);
    assert asks[1..] == AskedRow(s, ds)[i + 1..] && caps[1..] == CapRow(bins, ds)[i + 1..];
    assert AskedRow(mid, ds)[i + 1..] == asks[1..][0 := asks[1] + over];
    CarryIsIn(asks[1..], caps[1..], over);
  }

  lemma OverAtEnd(s: Entries, bins: Entries, ds: seq<Diff>, r: Entries)
    requires ds != [] && var i := |ds| - 1; Asked(s, ds[i].valoper) > Cap(bins, ds[i].valoper)
    requires var i := |ds| - 1;
             var over := Asked(s, ds[i].valoper) - Cap(bins, ds[i].valoper);
             forall k :: 0 <= k < |ds| ==>
               Asked(r, ds[k].valoper)
               == Asked(s, ds[k].valoper) - (if k == i then over else 0) + (if k == 0 then over else 0)
    ensures SweptFrom(s, bins, ds, |ds| - 1, r, true)
  {
    hide Asked, Cap;
    var i := |ds| - 1;
    var asks, caps := AskedRow(s, ds)[i..], CapRow(bins, ds)[i..];
    assert asks == [Asked(s, ds[i].valoper)] && caps == [Cap(bins, ds[i].valoper)];
    var over := asks[0] - caps[0];
    assert asks[1..] == [] && caps[1..] == [];
    assert RunOver(asks[1..], caps[1..], over) == ([], over);
    assert RunOver(asks, caps, 0) == ([caps[0]] + [], over);
  }

  /** A sweep over the deltas lets what exceeds one of them run over into the next. */
  lemma {:induction false} SweepRunsOver(s: Entries, bins: Entries, ds: seq<Diff>, i: nat)
    requires Apart(ds) && Distinct(s) && i <= |ds|
    ensures var (r, again) := SweepFrom(s, bins, ds, i);
            SweptFrom(s, bins, ds, i, r, again)
    decreases |ds| - i
  {
    hide Asked, Cap, Pass, Distinct, Apart, SweptFrom;
    if i == |ds| {
      NothingSwept(s, bins, ds);
    } else {
      var v := ds[i].valoper;
      MissingFits(s, bins, v);
      if Asked(s, v) <= Cap(bins, v) {
        SweepRunsOver(s, bins, ds, i + 1);
        var (r, again) := SweepFrom(s, bins, ds, i + 1);
        FitsOn(s, bins, ds, i, r, again);
      } else {
        var over := Over(s, bins, v);
        var j := if i == |ds| - 1 then 0 else i + 1;
        var mid := Pass(s, v, ds[j].valoper, over);
        PassLaw(s, v, ds[j].valoper, over, "");
        forall k | 0 <= k < |ds|
          ensures Asked(mid, ds[k].valoper)
               == Asked(s, ds[k].valoper) - (if k == i then over else 0) + (if k == j then over else 0)
        {
          PassOn(s, ds, i, j, over, k);
        }
        if i == |ds| - 1 {
          OverAtEnd(s, bins, ds, mid);
        } else {
          SweepRunsOver(mid, bins, ds, i + 1);
          var (r, again) := SweepFrom(mid, bins, ds, i + 1);
          OverOn(s, bins, ds, i, mid, r, again);
        }
      }
    }
  }

  lemma NothingSwept(s: Entries, bins: Entries, ds: seq<Diff>)
    ensures SweptFrom(s, bins, ds, |ds|, s, false)
  {
    assert AskedRow(s, ds)[|ds|..] == [] && CapRow(bins, ds)[|ds|..] == [];
  }

  // ----- All sweeps -----

  lemma SweptRow(s: Entries, bins: Entries, ds: seq<Diff>, r: Entries, again: bool)
    requires SweptFrom(s, bins, ds, 0, r, again)
    ensures var (row, over) := RunOver(AskedRow(s, ds), CapRow(bins, ds), 0);
            && (again <==> over > 0)
            && AskedRow(r, ds) == if ds == [] then [] else row[0 := row[0] + over]
  {
    hide Asked, Cap, RunOver;
    assert AskedRow(s, ds)[0..] == AskedRow(s, ds) && CapRow(bins, ds)[0..] == CapRow(bins, ds);
  }

  /** Fitting the requests lets them run over from delta to delta, once round. */
  lemma SatisfiedRunsRound(s: Entries, bins: Entries, ds: seq<Diff>)
    requires Apart(ds) && Distinct(s) && AskedSum(s, ds) <= CapSum(bins, ds)
    ensures AskedRow(Satisfied(s, bins, ds), ds) == RunRound(AskedRow(s, ds), CapRow(bins, ds))
  {
    hide Asked, Cap, SweepFrom, RunOver, SweptFrom, AskedSum, CapSum, AllFit, Apart, Distinct, SumForDenom;
    var asks, caps := AskedRow(s, ds), CapRow(bins, ds);
    var (r, again) := SweepFrom(s, bins, ds, 0);
    NoneBefore(s, bins, ds);
    SweepLaw(s, bins, ds, 0);
    SweepRunsOver(s, bins, ds, 0);
    SweptRow(s, bins, ds, r, again);
    var (row, over) := RunOver(asks, caps, 0);
    RunOverLaw(asks, caps, 0);
    if again {
      var (q, more) := SweepFrom(r, bins, ds, 0);
      SecondSweepEnds(r, bins, ds, 0) by { NoneBefore(r, bins, ds); }
      SweepRunsOver(r, bins, ds, 0);
      SweptRow(r, bins, ds, q, more);
      SomeSwept(s, bins, ds);
      CarryIsIn(row, caps, over);
    } else {
      FittingStays(row, caps);
    }
  }

  /**
   What the deltas are asked in the end: the requests fill the validators from the most
   over-delegated one on, each up to its own request and its surplus, and what exceeds the
   delegations of one then runs over into the next.
   */
  ghost function Settled(s: Entries, bins: Entries, ds: seq<Diff>): (row: Row)
    ensures |row| == |ds|
  {
    RunRound(FillFront(RoomRow(s, ds), AskedSum(s, ds)), CapRow(bins, ds))
  }

  /** Shifted requests that fit what is delegated stay as they are. */
  lemma SettledWhenFitting(s: Entries, bins: Entries, ds: seq<Diff>)
    ensures var shifted := FillFront(RoomRow(s, ds), AskedSum(s, ds));
            Within(shifted, CapRow(bins, ds)) ==> Settled(s, bins, ds) == shifted
  {
    hide FillFront, RunOver;
    var shifted := FillFront(RoomRow(s, ds), AskedSum(s, ds));
    if Within(shifted, CapRow(bins, ds)) { RunRoundFits(shifted, CapRow(bins, ds)); }
  }

  lemma SameNamesSameRows(s: Entries, ds: seq<Diff>, es: seq<Diff>)
    requires |ds| == |es| && forall i :: 0 <= i < |ds| ==> ds[i].valoper == es[i].valoper
    ensures AskedRow(s, ds) == AskedRow(s, es) && CapRow(s, ds) == CapRow(s, es)
  {
  }

  lemma NoneBefore(s: Entries, bins: Entries, ds: seq<Diff>)
    ensures FitBetween(s, bins, ds, 0, 0) && Saturated(s, bins, ds, 0)
  {
  }

  lemma SomeSwept(s: Entries, bins: Entries, ds: seq<Diff>)
    requires RunOver(AskedRow(s, ds), CapRow(bins, ds), 0).1 > 0
    ensures ds != []
  {
  }
}
