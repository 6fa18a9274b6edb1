/** Choosing the delegation account for a delegation: x/interchainstaking/types/delegation.go. */
module Accounts {
  import opened Order
  import opened Sums
  import opened Coins
  import opened StableSort
  import opened Allocations
  import opened Plans

  /** The summed coins of the bin a third of the way up. */
  function Threshold(sorted: Entries): nat
    requires sorted != []
  {
    SumAll(sorted[33 * |sorted| / 100].amount)
  }

  /** The first bin that has room for the validator, or holds nothing at all. */
  function FirstPick(s: Entries, v: string, threshold: nat): Option<string>
  {
    if s == [] then None
    else if AmountOf(s[0].amount, v) > 0 then
      if SumAll(s[0].amount) < threshold then Some(s[0].address) else FirstPick(s[1..], v, threshold)
    else
      if SumAll(s[0].amount) == 0 then Some(s[0].address) else FirstPick(s[1..], v, threshold)
  }

  /** Bins that hold the validator but are at or above the threshold. */
  function Oversubscribed(s: Entries, v: string, threshold: nat, out: Entries): Entries
    decreases s
  {
    if s == [] then out
    else if AmountOf(s[0].amount, v) > 0 && SumAll(s[0].amount) >= threshold then
      Oversubscribed(s[1..], v, threshold, Allocated(out, s[0].address, s[0].amount))
    else Oversubscribed(s[1..], v, threshold, out)
  }

  /** The account for a validator among bins sorted by amount; "" when there are none. */
  function Choose(sorted: Entries, v: string): string
  {
    if sorted == [] then ""
    else match FirstPick(sorted, v, Threshold(sorted)) {
      case Some(a) => a
      case None =>
        var candidates := ByAmount(AllocationKey(), Oversubscribed(sorted, v, Threshold(sorted), []));
        if candidates == [] || SumAll(sorted[0].amount) < SumAll(candidates[0].amount) / 3
        then sorted[0].address
        else candidates[0].address
    }
  }

  /** The chosen account, and the bins with the delegation added. */
  function Assign(bins: Entries, v: string, n: nat): (string, Entries)
  {
    var sorted := ByAmount(AllocationKey(), bins);
    var a := Choose(sorted, v);
    (a, Allocated(sorted, a, One(v, n)))
  }

  // ----- The threshold -----

  ghost function Under(t: nat): Allocation -> int { (a: Allocation) => if SumAll(a.amount) < t then 1 else 0 }

  ghost function UpTo(t: nat): Allocation -> int { (a: Allocation) => if SumAll(a.amount) <= t then 1 else 0 }

  lemma {:induction false} CountBounds(t: nat, s: Entries)
    ensures 0 <= SumBy(Under(t), s) <= |s| && 0 <= SumBy(UpTo(t), s) <= |s|
    ensures (forall i :: 0 <= i < |s| ==> SumAll(s[i].amount) >= t) ==> SumBy(Under(t), s) == 0
    ensures (forall i :: 0 <= i < |s| ==> SumAll(s[i].amount) <= t) ==> SumBy(UpTo(t), s) == |s|
  {
    hide SumAll;
    if s == [] {
    } else {
      CountBounds(t, s[1..]);
      assert forall i :: 0 <= i < |s[1..]| ==> s[1..][i] == s[i + 1];
    }
  }

  lemma UnderCount(s: Entries, k: nat, t: nat)
    requires k <= |s| && forall i :: k <= i < |s| ==> SumAll(s[i].amount) >= t
    ensures SumBy(Under(t), s) <= k
  {
    hide SumAll, SumBy, Under;
    var a, b := s[..k], s[k..];
    assert s == a + b;
    SumByConcat(Under(t), a, b);
    CountBounds(t, a);
    CountBounds(t, b);
  }

  lemma UpToCount(s: Entries, k: nat, t: nat)
    requires k <= |s| && forall i :: 0 <= i < k ==> SumAll(s[i].amount) <= t
    ensures SumBy(UpTo(t), s) >= k
  {
    hide SumAll, SumBy, UpTo;
    var a, b := s[..k], s[k..];
    assert s == a + b;
    SumByConcat(UpTo(t), a, b);
    CountBounds(t, a);
    CountBounds(t, b);
  }

  ghost predicate Ascending(s: Entries)
  {
    forall i, j :: 0 <= i < j < |s| ==> SumAll(s[i].amount) <= SumAll(s[j].amount)
  }

  lemma SumsAscend(bins: Entries)
    ensures Ascending(ByAmount(AllocationKey(), bins))
  {
    hide ByAmount, SumAll;
    var s := ByAmount(AllocationKey(), bins);
    TwoPassesSortLexicographically(AllocationKey(), bins);
    forall i, j | 0 <= i < j < |s| ensures SumAll(s[i].amount) <= SumAll(s[j].amount) {
      assert !LexOrder(AllocationKey())(s[j], s[i]);
    }
  }

  lemma CountsAt(s: Entries, k: nat)
    requires Ascending(s) && k < |s|
    ensures SumBy(Under(SumAll(s[k].amount)), s) <= k < SumBy(UpTo(SumAll(s[k].amount)), s)
  {
    hide SumAll, SumBy, Under, UpTo;
    UnderCount(s, k, SumAll(s[k].amount));
    UpToCount(s, k + 1, SumAll(s[k].amount));
  }

  /** At most a third of the bins is under the threshold, and more than that is not above it. */
  lemma ThresholdLaw(bins: Entries)
    requires bins != []
    ensures var s := ByAmount(AllocationKey(), bins);
            && s != []
            && 100 * SumBy(Under(Threshold(s)), bins) <= 33 * |bins|
            && 33 * |bins| < 100 * SumBy(UpTo(Threshold(s)), bins)
  {
    hide ByAmount, SumAll, SumBy, Under, UpTo, Ascending;
    var s := ByAmount(AllocationKey(), bins);
    SumsAscend(bins);
    CountsAt(s, 33 * |s| / 100);
    SumByPermutation(Under(Threshold(s)), s, bins);
    SumByPermutation(UpTo(Threshold(s)), s, bins);
  }

  // ----- What is chosen -----

  ghost predicate Smallest(s: Entries, a: string)
  {
    exists i :: 0 <= i < |s| && s[i].address == a
                && forall j :: 0 <= j < |s| ==> SumAll(s[i].amount) <= SumAll(s[j].amount)
  }

  /**
   The account holds the validator already, and is either under the threshold or not
   more than about three times as full as the smallest bin.
   */
  ghost predicate Suits(s: Entries, a: string, v: string)
    requires s != []
  {
    exists i :: 0 <= i < |s| && s[i].address == a && SuitsAt(s, i, v)
  }

  ghost predicate SuitsAt(s: Entries, i: int, v: string)
    requires 0 <= i < |s|
  {
    && AmountOf(s[i].amount, v) > 0
    && (SumAll(s[i].amount) < Threshold(s) || SumAll(s[0].amount) >= SumAll(s[i].amount) / 3)
  }

  lemma {:induction false} FirstPickLaw(s: Entries, v: string, threshold: nat)
    ensures var p := FirstPick(s, v, threshold);
            p.Some? ==> exists i :: 0 <= i < |s| && s[i].address == p.value && Picked(s[i], v, threshold)
  {
    if s == [] {
    } else {
      FirstPickLaw(s[1..], v, threshold);
      var p := FirstPick(s[1..], v, threshold);
      if p.Some? {
        var i :| 0 <= i < |s[1..]| && s[1..][i].address == p.value && Picked(s[1..][i], v, threshold);
        assert s[i + 1] == s[1..][i];
      }
      assert Picked(s[0], v, threshold) || FirstPick(s, v, threshold) == p;
    }
  }

  ghost predicate Picked(a: Allocation, v: string, threshold: nat)
  {
    (AmountOf(a.amount, v) > 0 && SumAll(a.amount) < threshold) || SumAll(a.amount) == 0
  }

  lemma {:induction false} OversubscribedLaw(s: Entries, v: string, threshold: nat, out: Entries)
    requires Distinct(out + s)
    ensures forall a :: a in Oversubscribed(s, v, threshold, out) <==>
              a in out || (a in s && AmountOf(a.amount, v) > 0 && SumAll(a.amount) >= threshold)
    decreases s
  {
    if s == [] {
    } else {
      if AmountOf(s[0].amount, v) > 0 && SumAll(s[0].amount) >= threshold {
        forall k | 0 <= k < |out| ensures out[k].address != s[0].address {
          assert (out + s)[k] == out[k] && (out + s)[|out|] == s[0];
          assert AllocationKey()((out + s)[k]).address != AllocationKey()((out + s)[|out|]).address;
        }
        AllocatedNowhere(out, s[0].address, s[0].amount);
        assert out + [s[0]] + s[1..] == out + s;
        OversubscribedLaw(s[1..], v, threshold, out + [s[0]]);
      } else {
        assert Distinct(out + s[1..]) by { DropOne(out, s); }
        OversubscribedLaw(s[1..], v, threshold, out);
      }
    }
  }

  lemma DropOne(out: Entries, s: Entries)
    requires s != [] && Distinct(out + s)
    ensures Distinct(out + s[1..])
  {
    var t, u := out + s, out + s[1..];
    forall i, j | 0 <= i < j < |u| ensures AllocationKey()(u[i]).address != AllocationKey()(u[j]).address {
      var i', j' := if i < |out| then i else i + 1, if j < |out| then j else j + 1;
      assert u[i] == t[i'] && u[j] == t[j'];
      assert AllocationKey()(t[i']).address != AllocationKey()(t[j']).address;
    }
  }

  lemma SortedHeadSmallest(bins: Entries)
    requires bins != []
    ensures var s := ByAmount(AllocationKey(), bins);
            forall j :: 0 <= j < |s| ==> SumAll(s[0].amount) <= SumAll(s[j].amount)
  {
    var s := ByAmount(AllocationKey(), bins);
    TwoPassesSortLexicographically(AllocationKey(), bins);
    forall j | 0 <= j < |s| ensures SumAll(s[0].amount) <= SumAll(s[j].amount) {
      if j > 0 { assert !LexOrder(AllocationKey())(s[j], s[0]); }
    }
  }

  lemma CandidateHolds(s: Entries, v: string, threshold: nat)
    requires Distinct(s)
    ensures var c := ByAmount(AllocationKey(), Oversubscribed(s, v, threshold, []));
            c != [] ==> c[0] in s && AmountOf(c[0].amount, v) > 0
  {
    var over := Oversubscribed(s, v, threshold, []);
    assert [] + s == s;
    OversubscribedLaw(s, v, threshold, []);
    var c := ByAmount(AllocationKey(), over);
    if c != [] {
      assert c[0] in multiset(over);
      assert c[0] in over;
    }
  }

  lemma PickedQualifies(s: Entries, v: string)
    requires s != [] && FirstPick(s, v, Threshold(s)).Some?
    ensures var a := FirstPick(s, v, Threshold(s)).value;
            Suits(s, a, v) || Smallest(s, a)
  {
    FirstPickLaw(s, v, Threshold(s));
    var a := FirstPick(s, v, Threshold(s)).value;
    var i :| 0 <= i < |s| && s[i].address == a && Picked(s[i], v, Threshold(s));
    assert SumAll(s[i].amount) == 0 || SuitsAt(s, i, v);
  }

  lemma ChooseSorted(s: Entries, v: string)
    requires s != [] && Distinct(s)
    requires forall j :: 0 <= j < |s| ==> SumAll(s[0].amount) <= SumAll(s[j].amount)
    ensures Suits(s, Choose(s, v), v) || Smallest(s, Choose(s, v))
  {
    assert Smallest(s, s[0].address);
    if FirstPick(s, v, Threshold(s)).Some? {
      PickedQualifies(s, v);
    } else {
      CandidateHolds(s, v, Threshold(s));
      var c := ByAmount(AllocationKey(), Oversubscribed(s, v, Threshold(s), []));
      if c != [] && SumAll(s[0].amount) >= SumAll(c[0].amount) / 3 {
        var i :| 0 <= i < |s| && s[i] == c[0];
        assert SuitsAt(s, i, v);
      }
    }
  }

  /**
   The chosen account is one of the bins: it has the smallest sum, or it holds the
   validator already without being much fuller than the smallest.
   */
  lemma ChooseLaw(bins: Entries, v: string)
    requires bins != [] && Distinct(bins)
    ensures var s := ByAmount(AllocationKey(), bins);
            && Has(bins, Choose(s, v))
            && (Suits(s, Choose(s, v), v) || Smallest(s, Choose(s, v)))
  {
    var s := ByAmount(AllocationKey(), bins);
    SortedHeadSmallest(bins);
    DistinctSurvivesSorting(AllocationKey(), bins, s);
    ChooseSorted(s, v);
    assert Has(s, Choose(s, v));
    SomewhereInBins(bins, Choose(s, v));
  }

  /** A bin that is taken at once: it holds the validator and is under the threshold, or it holds nothing. */
  predicate Eligible(a: Allocation, v: string, threshold: nat)
  {
    if AmountOf(a.amount, v) > 0 then SumAll(a.amount) < threshold else SumAll(a.amount) == 0
  }

  ghost predicate FirstEligible(s: Entries, v: string, threshold: nat, i: nat)
  {
    i < |s| && Eligible(s[i], v, threshold) && forall k :: 0 <= k < i ==> !Eligible(s[k], v, threshold)
  }

  ghost predicate FirstHolder(s: Entries, v: string, i: nat)
  {
    i < |s| && AmountOf(s[i].amount, v) > 0 && forall k :: 0 <= k < i ==> AmountOf(s[k].amount, v) == 0
  }

  lemma {:induction false} FirstPickExactly(s: Entries, v: string, threshold: nat)
    ensures var p := FirstPick(s, v, threshold);
            && (p.None? ==> forall a :: a in s ==> !Eligible(a, v, threshold))
            && (p.Some? ==> exists i: nat :: FirstEligible(s, v, threshold, i) && p.value == s[i].address)
  {
    hide AmountOf, SumAll;
    if s == [] {
    } else {
      var p := FirstPick(s, v, threshold);
      if Eligible(s[0], v, threshold) {
        assert FirstEligible(s, v, threshold, 0);
      } else {
        FirstPickExactly(s[1..], v, threshold);
        if p.Some? {
          var i: nat :| FirstEligible(s[1..], v, threshold, i) && p.value == s[1..][i].address;
          assert FirstEligible(s, v, threshold, i + 1) by {
            forall k | 0 <= k < i + 1 ensures !Eligible(s[k], v, threshold) {
              assert k > 0 ==> s[k] == s[1..][k - 1];
            }
          }
        }
      }
    }
  }

  /** Among sorted bins that hold the validator and are not under the threshold, the first one is the candidate. */
  lemma CandidateIsFirst(s: Entries, v: string, threshold: nat, j: nat)
    requires Distinct(s) && Sorted(LexOrder(AllocationKey()), s) && FirstHolder(s, v, j)
    requires forall a :: a in s && AmountOf(a.amount, v) > 0 ==> SumAll(a.amount) >= threshold
    ensures var c := ByAmount(AllocationKey(), Oversubscribed(s, v, threshold, []));
            c != [] && c[0] == s[j]
  {
    hide AmountOf, SumAll, ByAmount, Oversubscribed, Sorted, DistinctAddresses;
    var over := Oversubscribed(s, v, threshold, []);
    var c := ByAmount(AllocationKey(), over);
    assert [] + s == s;
    OversubscribedLaw(s, v, threshold, []);
    TwoPassesSortLexicographically(AllocationKey(), over);
    assert s[j] in s;
    assert s[j] in multiset(c);
    var k :| 0 <= k < |c| && c[k] == s[j];
    assert c[0] in multiset(over);
    var m :| 0 <= m < |s| && s[m] == c[0];
    SameWhenSmallest(s, c, j, k, m);
  }

  lemma SameWhenSmallest(s: Entries, c: Entries, j: nat, k: nat, m: nat)
    requires Distinct(s) && Sorted(LexOrder(AllocationKey()), s) && Sorted(LexOrder(AllocationKey()), c)
    requires j <= m < |s| && k < |c| && c[k] == s[j] && c[0] == s[m]
    ensures c[0] == s[j]
  {
    hide SumAll;
    if k > 0 && m != j {
      assert !LexOrder(AllocationKey())(c[k], c[0]);
      assert !LexOrder(AllocationKey())(s[m], s[j]);
      assert AllocationKey()(s[j]).address != AllocationKey()(s[m]).address;
      LessIsTotal(s[j].address, s[m].address);
    }
  }

  /**
   Which account is chosen, among the bins in ascending order of (sum, address): the first one that
   is eligible; without such, the first one that holds the validator, unless the smallest bin holds
   less than a third of it; and without such, the smallest.
   */
  ghost predicate RightChoice(s: Entries, v: string, a: string)
    requires s != []
  {
    && (forall i: nat :: FirstEligible(s, v, Threshold(s), i) ==> a == s[i].address)
    && (NoneEligible(s, v) ==>
          && (NoneHolds(s, v) ==> a == s[0].address)
          && (forall j: nat :: FirstHolder(s, v, j) ==>
                a == if SumAll(s[0].amount) < SumAll(s[j].amount) / 3 then s[0].address else s[j].address))
  }

  ghost predicate NoneEligible(s: Entries, v: string)
    requires s != []
  {
    forall a :: a in s ==> !Eligible(a, v, Threshold(s))
  }

  ghost predicate NoneHolds(s: Entries, v: string) { forall a :: a in s ==> AmountOf(a.amount, v) == 0 }

  lemma ChooseExactly(bins: Entries, v: string)
    requires bins != [] && Distinct(bins)
    ensures var s := ByAmount(AllocationKey(), bins);
            Sorted(LexOrder(AllocationKey()), s) && RightChoice(s, v, Choose(s, v))
  {
    hide ByAmount, Distinct, RightChoice, Choose;
    var s := ByAmount(AllocationKey(), bins);
    TwoPassesSortLexicographically(AllocationKey(), bins);
    DistinctAfterSort(bins);
    ChooseIsRight(s, v);
  }

  lemma DistinctAfterSort(bins: Entries)
    requires Distinct(bins)
    ensures Distinct(ByAmount(AllocationKey(), bins))
  {
    hide ByAmount;
    DistinctSurvivesSorting(AllocationKey(), bins, ByAmount(AllocationKey(), bins));
  }

  lemma ChooseIsRight(s: Entries, v: string)
    requires s != [] && Distinct(s) && Sorted(LexOrder(AllocationKey()), s)
    ensures RightChoice(s, v, Choose(s, v))
  {
    hide AmountOf, SumAll, ByAmount, Oversubscribed, FirstPick, Threshold, Sorted, Distinct;
    FirstPickExactly(s, v, Threshold(s));
    if NoneEligible(s, v) {
      NothingPicked(s, v);
      if NoneHolds(s, v) { NoCandidates(s, v, Threshold(s)); }
      forall j: nat | FirstHolder(s, v, j)
        ensures Choose(s, v) == if SumAll(s[0].amount) < SumAll(s[j].amount) / 3 then s[0].address else s[j].address
      {
        CandidateIsFirst(s, v, Threshold(s), j);
      }
      assert forall i: nat :: i < |s| ==> s[i] in s;
    } else {
      forall i: nat | FirstEligible(s, v, Threshold(s), i) ensures Choose(s, v) == s[i].address {
        assert s[i] in s;
        var k: nat :| FirstEligible(s, v, Threshold(s), k) && FirstPick(s, v, Threshold(s)).value == s[k].address;
        assert k == i;
      }
    }
  }

  lemma NothingPicked(s: Entries, v: string)
    requires s != [] && NoneEligible(s, v)
    ensures FirstPick(s, v, Threshold(s)).None?
  {
    hide AmountOf, SumAll, FirstPick, Threshold;
    FirstPickExactly(s, v, Threshold(s));
    assert forall i: nat :: i < |s| ==> s[i] in s;
  }

  lemma NoCandidates(s: Entries, v: string, threshold: nat)
    requires Distinct(s) && NoneHolds(s, v)
    ensures ByAmount(AllocationKey(), Oversubscribed(s, v, threshold, [])) == []
  {
    hide AmountOf, SumAll, ByAmount, Oversubscribed;
    assert [] + s == s;
    OversubscribedLaw(s, v, threshold, []);
    var over := Oversubscribed(s, v, threshold, []);
    assert forall a :: a !in multiset(over);
    assert multiset(over) == multiset{};
    assert |multiset(over)| == 0;
  }

  lemma SomewhereInBins(bins: Entries, a: string)
    ensures Has(ByAmount(AllocationKey(), bins), a) <==> Has(bins, a)
  {
    hide ByAmount, SumAll;
    var s := ByAmount(AllocationKey(), bins);
    if Has(s, a) {
      var i :| 0 <= i < |s| && s[i].address == a;
      assert s[i] in multiset(bins);
      var j :| 0 <= j < |bins| && bins[j] == s[i];
    }
    if Has(bins, a) {
      var i :| 0 <= i < |bins| && bins[i].address == a;
      assert bins[i] in multiset(s);
      var j :| 0 <= j < |s| && s[j] == bins[i];
    }
  }

  /** Assigning keeps the set of accounts. */
  lemma AssignKeepsAccounts(bins: Entries, v: string, n: nat, b: string)
    requires bins != [] && Distinct(bins)
    ensures Has(Assign(bins, v, n).1, b) <==> Has(bins, b)
    ensures Has(bins, Assign(bins, v, n).0)
    ensures Distinct(Assign(bins, v, n).1)
  {
    ChooseLaw(bins, v);
    var s := ByAmount(AllocationKey(), bins);
    DistinctSurvivesSorting(AllocationKey(), bins, s);
    AllocatedDistinct(s, Choose(s, v), One(v, n));
    SomewhereInBins(bins, b);
    AllocatedHas(s, Choose(s, v), One(v, n), b);
  }

  /** Assigning adds the amount to what the chosen account holds of the validator, and changes nothing else. */
  lemma AssignHeld(bins: Entries, v: string, n: nat, b: string, u: string)
    requires Distinct(bins)
    ensures var (a, r) := Assign(bins, v, n);
            Held(r, b, u) == Held(bins, b, u) + (if b == a && u == v then n else 0)
  {
    hide ByAmount, Allocated, Choose, Held, Distinct;
    var s := ByAmount(AllocationKey(), bins);
    var a := Choose(s, v);
    HeldAfterSort(bins, b, u);
    AllocatedHeld(s, a, One(v, n), b, u);
    OneOther(v, u, n);
  }

  lemma HeldAfterSort(bins: Entries, b: string, u: string)
    requires Distinct(bins)
    ensures Held(ByAmount(AllocationKey(), bins), b, u) == Held(bins, b, u)
  {
    hide ByAmount;
    HeldIgnoresArrangement(bins, ByAmount(AllocationKey(), bins), b, u);
  }

  // ----- The loop -----

  method FindAccountForDelegation(bins: Book, v: string, n: nat) returns (address: string)
    modifies bins
    ensures (address, bins.entries) == Assign(old(bins.entries), v, n)
  {
    bins.SortByAmount();
    address := ChooseAccount(bins.entries, v);
    bins.Allocate(address, One(v, n));
  }

  method ChooseAccount(sorted: Entries, v: string) returns (address: string)
    ensures address == Choose(sorted, v)
  {
    if sorted == [] {
      return "";
    }
    var candidates := new Book();
    var threshold := Threshold(sorted);
    for i := 0 to |sorted|
      invariant FirstPick(sorted, v, threshold) == FirstPick(sorted[i..], v, threshold)
      invariant Oversubscribed(sorted, v, threshold, [])
          == Oversubscribed(sorted[i..], v, threshold, candidates.entries)
    {
      assert sorted[i..][0] == sorted[i] && sorted[i..][1..] == sorted[i + 1..];
      if AmountOf(sorted[i].amount, v) > 0 {
        if SumAll(sorted[i].amount) >= threshold {
          candidates.Allocate(sorted[i].address, sorted[i].amount);
        } else {
          return sorted[i].address;
        }
      } else if SumAll(sorted[i].amount) == 0 {
        return sorted[i].address;
      }
    }
    var smallest := sorted[0];
    if |candidates.entries| > 0 {
      candidates.SortByAmount();
      if SumAll(smallest.amount) < SumAll(candidates.entries[0].amount) / 3 {
        return smallest.address;
      }
      return candidates.entries[0].address;
    }
    return smallest.address;
  }
}
