/**
 Choosing the delegations that a redemption is taken from: GetDelegationBinsMap of
 x/interchainstaking/keeper/delegation.go and GetRedemptionTargets of
 x/interchainstaking/keeper/zones.go.
 */
module Redemption {
  import opened Coins
  import opened StableSort
  import opened Allocations
  import opened Intent
  import opened Plans
  import opened Shift
  import opened Sweep
  import opened Pour
  import opened Rows
  import opened Sums

  /** A delegation record; the store holds one per (delegator, validator). */
  datatype Delegation = Delegation(delegator: string, validator: string, amount: nat)

  datatype Target = Target(delegator: string, validator: string, amount: nat)

  function DelegationPair(): Delegation -> (string, string) { (d: Delegation) => (d.delegator, d.validator) }

  ghost predicate OneRecordPerPair(store: seq<Delegation>) { DistinctBy(DelegationPair(), store) }

  // ----- Bins -----

  function EmptyBins(accounts: seq<string>, denom: string, out: Entries): Entries
    decreases accounts
  {
    if accounts == [] then out
    else EmptyBins(accounts[1..], denom, Allocated(out, accounts[0], One(denom, 0)))
  }

  function FillBins(store: seq<Delegation>, out: Entries): Entries
    decreases store
  {
    if store == [] then out
    else FillBins(store[1..], Allocated(out, store[0].delegator, One(store[0].validator, store[0].amount)))
  }

  /** What each delegation account has delegated to each validator, sorted by account. */
  function Bins(accounts: seq<string>, denom: string, store: seq<Delegation>): Entries
  {
    ByAddress(AllocationKey(), FillBins(store, EmptyBins(accounts, denom, [])))
  }

  function DelegatedTo(store: seq<Delegation>, v: string): nat
  {
    if store == [] then 0
    else (if store[0].validator == v then store[0].amount else 0) + DelegatedTo(store[1..], v)
  }

  function DelegatedTotal(store: seq<Delegation>): nat
  {
    if store == [] then 0 else store[0].amount + DelegatedTotal(store[1..])
  }

  lemma {:induction false} EmptyBinsSum(accounts: seq<string>, denom: string, out: Entries, v: string)
    requires Distinct(out)
    ensures SumForDenom(EmptyBins(accounts, denom, out), v) == SumForDenom(out, v)
    ensures Distinct(EmptyBins(accounts, denom, out))
    decreases accounts
  {
    if accounts == [] {
    } else {
      OneOther(denom, v, 0);
      AllocatedSum(out, accounts[0], One(denom, 0), v);
      AllocatedDistinct(out, accounts[0], One(denom, 0));
      EmptyBinsSum(accounts[1..], denom, Allocated(out, accounts[0], One(denom, 0)), v);
    }
  }

  lemma {:induction false} FillBinsSum(store: seq<Delegation>, out: Entries, v: string)
    requires Distinct(out)
    ensures SumForDenom(FillBins(store, out), v) == SumForDenom(out, v) + DelegatedTo(store, v)
    ensures Distinct(FillBins(store, out))
    decreases store
  {
    if store == [] {
    } else {
      var c := One(store[0].validator, store[0].amount);
      OneOther(store[0].validator, v, store[0].amount);
      AllocatedSum(out, store[0].delegator, c, v);
      AllocatedDistinct(out, store[0].delegator, c);
      FillBinsSum(store[1..], Allocated(out, store[0].delegator, c), v);
    }
  }

  /** The bins hold, for each validator, exactly what the records delegate to it. */
  lemma BinsHoldDelegations(accounts: seq<string>, denom: string, store: seq<Delegation>, v: string)
    ensures SumForDenom(Bins(accounts, denom, store), v) == DelegatedTo(store, v)
    ensures Distinct(Bins(accounts, denom, store))
  {
    EmptyBinsSum(accounts, denom, [], v);
    var filled := FillBins(store, EmptyBins(accounts, denom, []));
    FillBinsSum(store, EmptyBins(accounts, denom, []), v);
    SumIgnoresArrangement(filled, Bins(accounts, denom, store), v);
    DistinctSurvivesSorting(AllocationKey(), filled, Bins(accounts, denom, store));
  }

  /** What an account has delegated to a validator. */
  function DelegatedBy(store: seq<Delegation>, a: string, v: string): nat
  {
    if store == [] then 0
    else
      (if store[0].delegator == a && store[0].validator == v then store[0].amount else 0)
      + DelegatedBy(store[1..], a, v)
  }

  lemma {:induction false} EmptyBinsHeld(accounts: seq<string>, denom: string, out: Entries, a: string, v: string)
    ensures Held(EmptyBins(accounts, denom, out), a, v) == Held(out, a, v)
    decreases accounts
  {
    if accounts == [] {
    } else {
      OneOther(denom, v, 0);
      AllocatedHeld(out, accounts[0], One(denom, 0), a, v);
      EmptyBinsHeld(accounts[1..], denom, Allocated(out, accounts[0], One(denom, 0)), a, v);
    }
  }

  lemma {:induction false} FillBinsHeld(store: seq<Delegation>, out: Entries, a: string, v: string)
    ensures Held(FillBins(store, out), a, v) == Held(out, a, v) + DelegatedBy(store, a, v)
    decreases store
  {
    if store == [] {
    } else {
      var c := One(store[0].validator, store[0].amount);
      OneOther(store[0].validator, v, store[0].amount);
      AllocatedHeld(out, store[0].delegator, c, a, v);
      FillBinsHeld(store[1..], Allocated(out, store[0].delegator, c), a, v);
    }
  }

  /** The bin of an account holds, for each validator, exactly what that account has delegated to it. */
  lemma BinsHoldAccounts(accounts: seq<string>, denom: string, store: seq<Delegation>, a: string, v: string)
    ensures Held(Bins(accounts, denom, store), a, v) == DelegatedBy(store, a, v)
  {
    var empty := EmptyBins(accounts, denom, []);
    EmptyBinsSum(accounts, denom, [], v);
    EmptyBinsHeld(accounts, denom, [], a, v);
    FillBinsSum(store, empty, v);
    FillBinsHeld(store, empty, a, v);
    HeldIgnoresArrangement(FillBins(store, empty), Bins(accounts, denom, store), a, v);
  }

  // ----- Targets of one validator -----

  function TargetKey(): Target -> Key { (t: Target) => Key(t.delegator + t.validator, 0) }

  function DelegationKey(): Delegation -> Key { (d: Delegation) => Key(d.delegator, d.amount) }

  predicate Targeted(out: seq<Target>, delegator: string, validator: string)
  {
    exists i :: 0 <= i < |out| && out[i].delegator == delegator && out[i].validator == validator
  }

  /** An existing pair is left as it is: the source updates a copy of it. */
  function AddTarget(out: seq<Target>, delegator: string, validator: string, amount: nat): seq<Target>
  {
    var sorted := ByAddress(TargetKey(), out);
    if Targeted(out, delegator, validator) then sorted else sorted + [Target(delegator, validator, amount)]
  }

  function ForValidator(store: seq<Delegation>, v: string): seq<Delegation>
  {
    if store == [] then []
    else (if store[0].validator == v then [store[0]] else []) + ForValidator(store[1..], v)
  }

  function Rest(remaining: nat, n: nat): nat { if n <= remaining then remaining - n else 0 }

  /** Smallest delegations first, each taken whole until one covers the rest. */
  function TakeFrom(ds: seq<Delegation>, remaining: nat, out: seq<Target>): (seq<Target>, nat)
    decreases ds
  {
    if ds == [] then (out, remaining)
    else
      var r := AddTarget(out, ds[0].delegator, ds[0].validator, Min(ds[0].amount, remaining));
      if ds[0].amount >= remaining then (r, 0)
      else TakeFrom(ds[1..], Rest(remaining, ds[0].amount), r)
  }

  function Candidates(store: seq<Delegation>, v: string): (r: seq<Delegation>)
    ensures multiset(r) == multiset(ForValidator(store, v))
  {
    Sort(AmountOrder(DelegationKey()), ForValidator(store, v))
  }

  /** All requests in turn; None is the error of tokens that remain. */
  function Collect(requests: Entries, store: seq<Delegation>, out: seq<Target>): Option<seq<Target>>
    decreases requests
  {
    if requests == [] then Some(out)
    else
      var (r, left) := TakeFrom(Candidates(store, requests[0].address), AmountOf(requests[0].amount, TOKEN), out);
      if left > 0 then None else Collect(requests[1..], store, r)
  }

  // ----- Laws of the targets -----

  ghost function TargetSum(out: seq<Target>): int { SumBy((t: Target) => t.amount, out) }

  ghost function AmountSum(ds: seq<Delegation>): int { SumBy((d: Delegation) => d.amount, ds) }

  function Pair(): Target -> (string, string) { (t: Target) => (t.delegator, t.validator) }

  ghost predicate PairsOnce(out: seq<Target>) { DistinctBy(Pair(), out) }

  /** Every target is backed by a delegation record of its pair, at least as large. */
  ghost predicate Backed(out: seq<Target>, store: seq<Delegation>)
  {
    forall t :: t in out ==> exists d :: d in store && Covers1(d, t)
  }

  ghost predicate Covers1(d: Delegation, t: Target)
  {
    d.delegator == t.delegator && d.validator == t.validator && t.amount <= d.amount
  }

  lemma AddTargetLaw(out: seq<Target>, delegator: string, validator: string, amount: nat)
    requires !Targeted(out, delegator, validator) && PairsOnce(out)
    ensures var r := AddTarget(out, delegator, validator, amount);
            && TargetSum(r) == TargetSum(out) + amount
            && PairsOnce(r)
            && forall t :: t in r <==> t in out || t == Target(delegator, validator, amount)
  {
    var f := (t: Target) => t.amount;
    var sorted := ByAddress(TargetKey(), out);
    var new' := Target(delegator, validator, amount);
    SumByPermutation(f, out, sorted);
    SumByConcat(f, sorted, [new']);
    assert SumBy(f, [new']) == amount by { assert SumBy(f, []) == 0; }
    DistinctByPermutation(Pair(), out, sorted);
    assert forall t :: t in out <==> t in multiset(out);
    assert forall t :: t in sorted <==> t in multiset(sorted);
    var r := sorted + [new'];
    forall i, j | 0 <= i < j < |r| ensures Pair()(r[i]) != Pair()(r[j]) {
      if j == |sorted| {
        assert sorted[i] in out;
        var k :| 0 <= k < |out| && out[k] == sorted[i];
        assert !(out[k].delegator == delegator && out[k].validator == validator);
      } else {
        assert Pair()(sorted[i]) != Pair()(sorted[j]);
      }
    }
  }

  /**
   Adding keeps one target per pair, and raises the sum by the amount if and only if the pair
   is new or the amount is zero: a pair that is there already is left as it was.
   */
  lemma AddTargetExactly(out: seq<Target>, delegator: string, validator: string, amount: nat)
    requires PairsOnce(out)
    ensures var r := AddTarget(out, delegator, validator, amount);
            && PairsOnce(r)
            && (TargetSum(r) == TargetSum(out) + amount <==> !Targeted(out, delegator, validator) || amount == 0)
            && (Targeted(out, delegator, validator) ==> multiset(r) == multiset(out))
  {
    if Targeted(out, delegator, validator) {
      SumByPermutation((t: Target) => t.amount, out, ByAddress(TargetKey(), out));
      DistinctByPermutation(Pair(), out, ByAddress(TargetKey(), out));
    } else {
      AddTargetLaw(out, delegator, validator, amount);
    }
  }

  /** A second unit for the same pair is lost. */
  lemma AddLosesRepeatedPair()
    ensures var out := [Target("d", "v", 1)];
            TargetSum(AddTarget(out, "d", "v", 1)) == TargetSum(out) == 1
  {
    var out := [Target("d", "v", 1)];
    assert out[0].delegator == "d" && out[0].validator == "v";
    AddTargetExactly(out, "d", "v", 1);
    SumByOne((t: Target) => t.amount, out[0]);
    SumByPermutation((t: Target) => t.amount, out, AddTarget(out, "d", "v", 1));
  }

  ghost predicate Fresh(out: seq<Target>, ds: seq<Delegation>)
  {
    forall d :: d in ds ==> !Targeted(out, d.delegator, d.validator)
  }

  /** Taking from a list of delegations: the sum, the bound per delegation, and when it covers the request. */
  lemma {:induction false} TakeLaw(ds: seq<Delegation>, remaining: nat, out: seq<Target>)
    requires OneRecordPerPair(ds) && Fresh(out, ds) && PairsOnce(out)
    ensures var (r, left) := TakeFrom(ds, remaining, out);
            && (left == 0 <==> remaining <= AmountSum(ds))
            && TargetSum(r) + left == TargetSum(out) + remaining
            && PairsOnce(r)
            && (forall t :: t in r ==> t in out || exists d :: d in ds && Covers1(d, t))
    decreases ds
  {
    if ds == [] {
    } else {
      var d := ds[0];
      var n := Min(d.amount, remaining);
      var mid := AddTarget(out, d.delegator, d.validator, n);
      AmountSumNonNegative(ds[1..]);
      AddTargetLaw(out, d.delegator, d.validator, n);
      assert Covers1(d, Target(d.delegator, d.validator, n));
      if d.amount < remaining {
        forall e | e in ds[1..] ensures !Targeted(mid, e.delegator, e.validator) {
          var k :| 0 <= k < |ds[1..]| && ds[1..][k] == e;
          assert DelegationPair()(ds[0]) != DelegationPair()(ds[k + 1]);
          assert e in ds;
          NotTargetedAfter(out, d, n, e);
        }
        assert OneRecordPerPair(ds[1..]) by {
          forall i, j | 0 <= i < j < |ds[1..]| ensures DelegationPair()(ds[1..][i]) != DelegationPair()(ds[1..][j]) {
            assert DelegationPair()(ds[i + 1]) != DelegationPair()(ds[j + 1]);
          }
        }
        TakeLaw(ds[1..], Rest(remaining, d.amount), mid);
      }
    }
  }

  lemma NotTargetedAfter(out: seq<Target>, d: Delegation, n: nat, e: Delegation)
    requires PairsOnce(out)
    requires !Targeted(out, d.delegator, d.validator) && !Targeted(out, e.delegator, e.validator)
    requires d.delegator != e.delegator || d.validator != e.validator
    ensures !Targeted(AddTarget(out, d.delegator, d.validator, n), e.delegator, e.validator)
  {
    AddTargetLaw(out, d.delegator, d.validator, n);
    var mid := AddTarget(out, d.delegator, d.validator, n);
    forall i | 0 <= i < |mid| ensures !(mid[i].delegator == e.delegator && mid[i].validator == e.validator) {
      if mid[i] in out {
        var k :| 0 <= k < |out| && out[k] == mid[i];
      }
    }
  }

  lemma {:induction false} AmountSumNonNegative(ds: seq<Delegation>)
    ensures AmountSum(ds) >= 0
  {
    if ds == [] {
    } else {
      AmountSumNonNegative(ds[1..]);
    }
  }

  lemma {:induction false} ForValidatorSum(store: seq<Delegation>, v: string)
    ensures AmountSum(ForValidator(store, v)) == DelegatedTo(store, v)
  {
    if store == [] {
    } else {
      var t := ForValidator(store[1..], v);
      ForValidatorSum(store[1..], v);
      assert ([store[0]] + t)[1..] == t && [] + t == t;
    }
  }

  lemma ForValidatorLaw(store: seq<Delegation>, v: string)
    requires OneRecordPerPair(store)
    ensures var r := ForValidator(store, v);
            && AmountSum(r) == DelegatedTo(store, v)
            && (forall d :: d in r ==> d in store && d.validator == v)
            && OneRecordPerPair(r)
  {
    hide ForValidator, DelegatedTo, OneRecordPerPair;
    ForValidatorSum(store, v);
    ForValidatorOnce(store, v);
  }

  lemma {:induction false} ForValidatorOnce(store: seq<Delegation>, v: string)
    requires OneRecordPerPair(store)
    ensures var r := ForValidator(store, v);
            && (forall d :: d in r ==> d in store && d.validator == v)
            && OneRecordPerPair(r)
  {
    hide DistinctBy, DelegationPair;
    if store == [] {
      NothingRepeats(store);
    } else {
      DistinctByTail(DelegationPair(), store);
      ForValidatorOnce(store[1..], v);
      var t := ForValidator(store[1..], v);
      if store[0].validator == v {
        DistinctByHead(DelegationPair(), store, t);
      } else {
        assert ForValidator(store, v) == t;
      }
    }
  }

  lemma NothingRepeats(store: seq<Delegation>)
    requires store == []
    ensures OneRecordPerPair(store)
  {
  }

  lemma CandidatesLaw(store: seq<Delegation>, v: string)
    requires OneRecordPerPair(store)
    ensures var r := Candidates(store, v);
            && AmountSum(r) == DelegatedTo(store, v)
            && (forall d :: d in r ==> d in store && d.validator == v)
            && OneRecordPerPair(r)
  {
    var all, r := ForValidator(store, v), Candidates(store, v);
    ForValidatorLaw(store, v);
    SumByPermutation((d: Delegation) => d.amount, all, r);
    DistinctByPermutation(DelegationPair(), all, r);
    forall d | d in r ensures d in all {
      assert d in multiset(r);
    }
  }

  ghost predicate Coverable(requests: Entries, store: seq<Delegation>)
  {
    forall a :: a in requests ==> AmountOf(a.amount, TOKEN) <= DelegatedTo(store, a.address)
  }

  ghost predicate NoTargetAt(out: seq<Target>, requests: Entries)
  {
    forall t, a :: t in out && a in requests ==> t.validator != a.address
  }

  /** One request: covered exactly when it fits what is delegated to its validator. */
  lemma RequestLaw(a: Allocation, store: seq<Delegation>, out: seq<Target>)
    requires OneRecordPerPair(store) && PairsOnce(out) && Backed(out, store) && NoTargetAt(out, [a])
    ensures var (r, left) := TakeFrom(Candidates(store, a.address), AmountOf(a.amount, TOKEN), out);
            && (left == 0 <==> AmountOf(a.amount, TOKEN) <= DelegatedTo(store, a.address))
            && (left == 0 ==> TargetSum(r) == TargetSum(out) + AmountOf(a.amount, TOKEN))
            && PairsOnce(r) && Backed(r, store)
            && forall t :: t in r ==> t in out || t.validator == a.address
  {
    hide ByAmount, TakeFrom, Candidates;
    var ds := Candidates(store, a.address);
    CandidatesLaw(store, a.address);
    forall d | d in ds ensures !Targeted(out, d.delegator, d.validator) {
      forall i | 0 <= i < |out| ensures out[i].validator != d.validator {
        assert out[i] in out && a in [a];
      }
    }
    TakeLaw(ds, AmountOf(a.amount, TOKEN), out);
  }

  /** All requests: an error exactly when one of them exceeds what is delegated to its validator. */
  lemma {:induction false} CollectLaw(requests: Entries, store: seq<Delegation>, out: seq<Target>)
    requires Distinct(requests) && OneRecordPerPair(store)
    requires PairsOnce(out) && Backed(out, store) && NoTargetAt(out, requests)
    ensures var c := Collect(requests, store, out);
            && (c.Some? <==> Coverable(requests, store))
            && (c.Some? ==>
                  && TargetSum(c.value) == TargetSum(out) + SumForDenom(requests, TOKEN)
                  && PairsOnce(c.value) && Backed(c.value, store))
    decreases requests
  {
    if requests == [] {
    } else {
      var a, rest := requests[0], requests[1..];
      assert NoTargetAt(out, [a]) by { assert a in requests; }
      RequestLaw(a, store, out);
      var (r, left) := TakeFrom(Candidates(store, a.address), AmountOf(a.amount, TOKEN), out);
      assert forall b :: b in requests <==> b == a || b in rest;
      if left == 0 {
        forall t, b | t in r && b in rest ensures t.validator != b.address {
          var k :| 0 <= k < |rest| && rest[k] == b;
          assert AllocationKey()(requests[0]).address != AllocationKey()(requests[k + 1]).address;
        }
        TailDistinct(requests);
        CollectLaw(rest, store, r);
      }
    }
  }

  lemma TailDistinct(s: Entries)
    requires s != [] && Distinct(s)
    ensures Distinct(s[1..])
  {
    forall i, j | 0 <= i < j < |s[1..]|
      ensures AllocationKey()(s[1..][i]).address != AllocationKey()(s[1..][j]).address
    {
      assert AllocationKey()(s[i + 1]).address != AllocationKey()(s[j + 1]).address;
    }
  }

  // ----- Which delegations the targets are taken from -----

  ghost function TargetOn(v: string): Target -> int { (t: Target) => if t.validator == v then t.amount else 0 }

  /** What the targets take from a validator. */
  ghost function TargetsOf(out: seq<Target>, v: string): int { SumBy(TargetOn(v), out) }

  ghost function TakenOn(d: Delegation): Target -> int
  {
    (t: Target) => if t.delegator == d.delegator && t.validator == d.validator then t.amount else 0
  }

  /** What the targets take from a delegation. */
  ghost function Taken(out: seq<Target>, d: Delegation): int { SumBy(TakenOn(d), out) }

  lemma AddTargetSum(f: Target -> int, out: seq<Target>, delegator: string, validator: string, amount: nat)
    requires !Targeted(out, delegator, validator)
    ensures SumBy(f, AddTarget(out, delegator, validator, amount))
         == SumBy(f, out) + f(Target(delegator, validator, amount))
  {
    var sorted := ByAddress(TargetKey(), out);
    var t := Target(delegator, validator, amount);
    SumByPermutation(f, out, sorted);
    SumByConcat(f, sorted, [t]);
    SumByOne(f, t);
  }

  lemma UntargetedTakesNothing(out: seq<Target>, d: Delegation)
    requires !Targeted(out, d.delegator, d.validator)
    ensures Taken(out, d) == 0
  {
    forall t | t in out ensures TakenOn(d)(t) == 0 {
      var i :| 0 <= i < |out| && out[i] == t;
    }
    SumByZero(TakenOn(d), out);
  }

  /** A delegation is touched only once those before it are taken whole. */
  ghost predicate InOrder(out: seq<Target>, ds: seq<Delegation>)
  {
    forall i, k :: 0 <= i < k < |ds| && Taken(out, ds[k]) > 0 ==> Taken(out, ds[i]) == ds[i].amount
  }

  ghost predicate OfValidator(ds: seq<Delegation>, v: string) { forall d :: d in ds ==> d.validator == v }

  /** No delegation of the list is that of d. */
  ghost predicate Elsewhere(ds: seq<Delegation>, d: Delegation)
  {
    forall i :: 0 <= i < |ds| ==> DelegationPair()(ds[i]) != DelegationPair()(d)
  }

  lemma RestOfRecords(ds: seq<Delegation>)
    requires OneRecordPerPair(ds) && ds != []
    ensures OneRecordPerPair(ds[1..]) && Elsewhere(ds[1..], ds[0])
  {
    DistinctByTail(DelegationPair(), ds);
    forall i | 0 <= i < |ds[1..]| ensures DelegationPair()(ds[1..][i]) != DelegationPair()(ds[0]) {
      assert DelegationPair()(ds[0]) != DelegationPair()(ds[i + 1]);
    }
  }

  /** What taking from one delegation does to all of them. */
  lemma TakeOne(d: Delegation, n: nat, out: seq<Target>, e: Delegation, v: string)
    requires !Targeted(out, d.delegator, d.validator)
    ensures var r := AddTarget(out, d.delegator, d.validator, n);
            && Taken(r, e) == Taken(out, e) + (if DelegationPair()(d) == DelegationPair()(e) then n else 0)
            && TargetsOf(r, v) == TargetsOf(out, v) + (if d.validator == v then n else 0)
  {
    hide AddTarget;
    AddTargetSum(TakenOn(e), out, d.delegator, d.validator, n);
    AddTargetSum(TargetOn(v), out, d.delegator, d.validator, n);
  }

  lemma FreshAfter(ds: seq<Delegation>, n: nat, out: seq<Target>)
    requires OneRecordPerPair(ds) && Fresh(out, ds) && PairsOnce(out) && ds != []
    ensures var mid := AddTarget(out, ds[0].delegator, ds[0].validator, n);
            Fresh(mid, ds[1..]) && PairsOnce(mid)
  {
    hide AddTarget;
    AddTargetLaw(out, ds[0].delegator, ds[0].validator, n);
    forall e | e in ds[1..]
      ensures !Targeted(AddTarget(out, ds[0].delegator, ds[0].validator, n), e.delegator, e.validator)
    {
      var k :| 0 <= k < |ds[1..]| && ds[1..][k] == e;
      assert DelegationPair()(ds[0]) != DelegationPair()(ds[k + 1]);
      assert e in ds;
      NotTargetedAfter(out, ds[0], n, e);
    }
  }

  /** Taking leaves everything that is not in the list as it was. */
  lemma {:induction false} TakeKeepsOthers(ds: seq<Delegation>, remaining: nat, out: seq<Target>, e: Delegation)
    requires OneRecordPerPair(ds) && Fresh(out, ds) && PairsOnce(out) && Elsewhere(ds, e)
    ensures Taken(TakeFrom(ds, remaining, out).0, e) == Taken(out, e)
    decreases ds
  {
    hide Taken, AddTarget, OneRecordPerPair, Fresh, PairsOnce;
    if ds == [] {
    } else {
      var n := Min(ds[0].amount, remaining);
      HeadUntargeted(ds, out);
      TakeOne(ds[0], n, out, e, "");
      assert DelegationPair()(ds[0]) != DelegationPair()(e);
      if ds[0].amount < remaining {
        FreshAfter(ds, n, out);
        RestOfRecords(ds);
        assert Elsewhere(ds[1..], e) by {
          forall i | 0 <= i < |ds[1..]| ensures DelegationPair()(ds[1..][i]) != DelegationPair()(e) {
            assert DelegationPair()(ds[i + 1]) != DelegationPair()(e);
          }
        }
        TakeKeepsOthers(ds[1..], Rest(remaining, ds[0].amount), AddTarget(out, ds[0].delegator, ds[0].validator, n), e);
      }
    }
  }

  lemma HeadUntargeted(ds: seq<Delegation>, out: seq<Target>)
    requires Fresh(out, ds) && ds != []
    ensures !Targeted(out, ds[0].delegator, ds[0].validator)
  {
    assert ds[0] in ds;
  }

  /** Taking from the delegations of one validator: all of it comes from there, and in order. */
  lemma {:induction false} TakeInOrder(ds: seq<Delegation>, remaining: nat, out: seq<Target>, u: string)
    requires OneRecordPerPair(ds) && Fresh(out, ds) && PairsOnce(out) && OfValidator(ds, u)
    ensures var (r, left) := TakeFrom(ds, remaining, out);
            && TargetsOf(r, u) + left == TargetsOf(out, u) + remaining
            && (forall v :: v != u ==> TargetsOf(r, v) == TargetsOf(out, v))
            && InOrder(r, ds)
    decreases ds
  {
    hide Taken, TargetsOf, AddTarget, OneRecordPerPair, Fresh, PairsOnce;
    if ds == [] {
    } else {
      var d := ds[0];
      assert d in ds;
      var n := Min(d.amount, remaining);
      var mid := AddTarget(out, d.delegator, d.validator, n);
      HeadUntargeted(ds, out);
      forall v ensures TargetsOf(mid, v) == TargetsOf(out, v) + (if d.validator == v then n else 0) {
        TakeOne(d, n, out, d, v);
      }
      RestOfRecords(ds);
      FreshAfter(ds, n, out);
      TakeOne(d, n, out, d, u);
      UntargetedTakesNothing(out, d);
      if d.amount < remaining {
        TakeInOrder(ds[1..], Rest(remaining, d.amount), mid, u);
        TakeKeepsOthers(ds[1..], Rest(remaining, d.amount), mid, d);
        OrderFromTail(TakeFrom(ds, remaining, out).0, ds);
      } else {
        forall k | 0 < k < |ds| ensures Taken(mid, ds[k]) == 0 {
          assert ds[k] == ds[1..][k - 1];
          FreshIsUntaken(mid, ds[1..], ds[k]);
        }
      }
    }
  }

  lemma FreshIsUntaken(out: seq<Target>, ds: seq<Delegation>, d: Delegation)
    requires Fresh(out, ds) && d in ds
    ensures Taken(out, d) == 0
  {
    UntargetedTakesNothing(out, d);
  }

  lemma OrderFromTail(out: seq<Target>, ds: seq<Delegation>)
    requires ds != [] && Taken(out, ds[0]) == ds[0].amount && InOrder(out, ds[1..])
    ensures InOrder(out, ds)
  {
    hide Taken;
    forall i, k | 0 <= i < k < |ds| && Taken(out, ds[k]) > 0 ensures Taken(out, ds[i]) == ds[i].amount {
      if i > 0 {
        assert ds[1..][i - 1] == ds[i] && ds[1..][k - 1] == ds[k];
      }
    }
  }

  lemma RequestInOrder(a: Allocation, store: seq<Delegation>, out: seq<Target>)
    requires OneRecordPerPair(store) && PairsOnce(out) && NoTargetAt(out, [a])
    ensures var (r, left) := TakeFrom(Candidates(store, a.address), AmountOf(a.amount, TOKEN), out);
            && TargetsOf(r, a.address) + left == TargetsOf(out, a.address) + AmountOf(a.amount, TOKEN)
            && (forall v :: v != a.address ==> TargetsOf(r, v) == TargetsOf(out, v))
            && InOrder(r, Candidates(store, a.address))
            && (forall e: Delegation :: e.validator != a.address ==> Taken(r, e) == Taken(out, e))
  {
    hide TakeFrom, Candidates, Taken, TargetsOf, InOrder, OneRecordPerPair, PairsOnce;
    var ds := Candidates(store, a.address);
    CandidatesLaw(store, a.address);
    forall d | d in ds ensures !Targeted(out, d.delegator, d.validator) {
      forall i | 0 <= i < |out| ensures out[i].validator != d.validator {
        assert out[i] in out && a in [a];
      }
    }
    TakeInOrder(ds, AmountOf(a.amount, TOKEN), out, a.address);
    forall e: Delegation | e.validator != a.address
      ensures Taken(TakeFrom(ds, AmountOf(a.amount, TOKEN), out).0, e) == Taken(out, e)
    {
      forall i | 0 <= i < |ds| ensures DelegationPair()(ds[i]) != DelegationPair()(e) { assert ds[i] in ds; }
      TakeKeepsOthers(ds, AmountOf(a.amount, TOKEN), out, e);
    }
  }

  lemma OrderKept(s: seq<Target>, t: seq<Target>, ds: seq<Delegation>)
    requires InOrder(s, ds) && forall d :: d in ds ==> Taken(t, d) == Taken(s, d)
    ensures InOrder(t, ds)
  {
    hide Taken;
    forall i, k | 0 <= i < k < |ds| && Taken(t, ds[k]) > 0 ensures Taken(t, ds[i]) == ds[i].amount {
      assert ds[i] in ds && ds[k] in ds;
    }
  }

  /**
   All requests: the targets take from each validator exactly what is requested of it, and from
   its delegations in order.
   */
  lemma {:induction false} CollectInOrder(requests: Entries, store: seq<Delegation>, out: seq<Target>)
    requires Distinct(requests) && OneRecordPerPair(store)
    requires PairsOnce(out) && Backed(out, store) && NoTargetAt(out, requests)
    ensures var c := Collect(requests, store, out);
            c.Some? ==>
              && (forall v :: TargetsOf(c.value, v) == TargetsOf(out, v) + Asked(requests, v))
              && (forall e: Delegation :: !Has(requests, e.validator) ==> Taken(c.value, e) == Taken(out, e))
              && (forall v :: Has(requests, v) ==> InOrder(c.value, Candidates(store, v)))
    decreases requests
  {
    hide TakeFrom, Candidates, Taken, TargetsOf, InOrder, OneRecordPerPair, PairsOnce, Backed, Has, Distinct;
    forall v { HasSplit(requests, v); }
    if requests == [] {
    } else {
      var a, rest := requests[0], requests[1..];
      assert a in requests && forall b :: b in rest ==> b in requests;
      var (r, left) := TakeFrom(Candidates(store, a.address), AmountOf(a.amount, TOKEN), out);
      RequestLaw(a, store, out);
      RequestInOrder(a, store, out);
      HeadAbsent(requests);
      AbsentHoldsNothing(rest, a.address, TOKEN);
      if left == 0 {
        forall t, b | t in r && b in rest ensures t.validator != b.address { RestAddress(requests, b); }
        TailDistinct(requests);
        CollectInOrder(rest, store, r);
        var c := Collect(rest, store, r);
        if c.Some? {
          CandidatesLaw(store, a.address);
          OrderKept(r, c.value, Candidates(store, a.address));
        }
      }
    }
  }

  lemma RestAddress(s: Entries, b: Allocation)
    requires s != [] && Distinct(s) && b in s[1..]
    ensures b.address != s[0].address
  {
    var k :| 0 <= k < |s[1..]| && s[1..][k] == b;
    assert AllocationKey()(s[0]).address != AllocationKey()(s[k + 1]).address;
  }

  lemma HeadAbsent(s: Entries)
    requires s != [] && Distinct(s)
    ensures !Has(s[1..], s[0].address)
  {
    forall i | 0 <= i < |s[1..]| ensures s[1..][i].address != s[0].address { RestAddress(s, s[1..][i]); }
  }

  /** From every validator the smallest delegations are taken first, each whole before a larger one is touched. */
  ghost predicate SmallestFirst(ts: seq<Target>, store: seq<Delegation>)
  {
    forall d, e :: d in store && e in store && d.validator == e.validator && d.amount < e.amount && Taken(ts, e) > 0 ==>
      Taken(ts, d) == d.amount
  }

  lemma CandidatesSorted(store: seq<Delegation>, v: string)
    ensures Sorted(AmountOrder(DelegationKey()), Candidates(store, v))
  {
    SortSorted(AmountOrder(DelegationKey()), ForValidator(store, v));
  }

  lemma SmallerIsEarlier(cs: seq<Delegation>, i: nat, k: nat)
    requires i < |cs| && k < |cs| && Sorted(AmountOrder(DelegationKey()), cs) && cs[i].amount < cs[k].amount
    ensures i < k
  {
    assert AmountOrder(DelegationKey())(cs[i], cs[k]);
  }

  lemma {:induction false} IsCandidate(store: seq<Delegation>, d: Delegation) returns (i: nat)
    requires d in store
    ensures i < |Candidates(store, d.validator)| && Candidates(store, d.validator)[i] == d
  {
    InForValidator(store, d);
    var cs := Candidates(store, d.validator);
    assert d in multiset(cs);
    i :| 0 <= i < |cs| && cs[i] == d;
  }

  lemma {:induction false} InForValidator(store: seq<Delegation>, d: Delegation)
    requires d in store
    ensures d in ForValidator(store, d.validator)
  {
    if store[0] == d {
    } else {
      InForValidator(store[1..], d);
    }
  }

  lemma OrderIsSmallestFirst(ts: seq<Target>, store: seq<Delegation>)
    requires forall v :: InOrder(ts, Candidates(store, v))
    ensures SmallestFirst(ts, store)
  {
    hide Taken, Candidates;
    forall d, e | d in store && e in store && d.validator == e.validator && d.amount < e.amount && Taken(ts, e) > 0
      ensures Taken(ts, d) == d.amount
    {
      var cs := Candidates(store, d.validator);
      var i := IsCandidate(store, d);
      var k := IsCandidate(store, e);
      CandidatesSorted(store, d.validator);
      SmallerIsEarlier(cs, i, k);
      assert InOrder(ts, cs);
    }
  }

  // ----- The whole choice -----

  /** The requests after shifting and fitting, sorted by validator. */
  function Adjusted(requests: Entries, bins: Entries, ds: seq<Diff>): Entries
  {
    var (r, es) := ShiftFrom(requests, ds, 0);
    ByAddress(AllocationKey(), Satisfied(r, bins, es))
  }

  function Targets(requests: Entries, bins: Entries, ds: seq<Diff>, store: seq<Delegation>): Option<seq<Target>>
  {
    Collect(ByAddress(AllocationKey(), Adjusted(requests, bins, ds)), store, [])
  }

  /** The requests fit in total into what is delegated to the validators with a delta. */
  ghost predicate FitsInTotal(requests: Entries, bins: Entries, ds: seq<Diff>)
  {
    AskedSum(requests, ds) <= CapSum(bins, ds)
  }

  lemma {:induction false} CapSumSameNames(bins: Entries, ds: seq<Diff>, es: seq<Diff>)
    requires |ds| == |es| && forall i :: 0 <= i < |ds| ==> ds[i].valoper == es[i].valoper
    ensures CapSum(bins, ds) == CapSum(bins, es)
  {
    if ds == [] {
    } else {
      forall i | 0 <= i < |ds[1..]| ensures ds[1..][i].valoper == es[1..][i].valoper {
        assert ds[i + 1].valoper == es[i + 1].valoper;
      }
      CapSumSameNames(bins, ds[1..], es[1..]);
    }
  }

  /** What each delta is asked after shifting and fitting. */
  lemma AdjustedRow(requests: Entries, bins: Entries, ds: seq<Diff>)
    requires Apart(ds) && AscendingFrom(ds, 0) && Distinct(requests) && FitsInTotal(requests, bins, ds)
    ensures AskedRow(Adjusted(requests, bins, ds), ds) == Settled(requests, bins, ds)
  {
    hide ShiftFrom, Satisfied, Maximal, AskedSum, CapSum, RunRound, FillFront, Cap, Mentions, ByAddress, AllFit;
    hide Distinct, SumForDenom;
    ShiftLaw(requests, ds, 0);
    ShiftIsFill(requests, ds);
    var (q, es) := ShiftFrom(requests, ds, 0);
    AskedSumSameNames(q, ds, es);
    CapSumSameNames(bins, ds, es);
    assert Apart(es);
    SatisfiedLaw(q, bins, es);
    SatisfiedRunsRound(q, bins, es);
    var u, r := Satisfied(q, bins, es), Adjusted(requests, bins, ds);
    SameNamesSameRows(q, ds, es);
    SameNamesSameRows(bins, ds, es);
    SameNamesSameRows(u, ds, es);
    forall i | 0 <= i < |ds| ensures Asked(r, ds[i].valoper) == Asked(u, ds[i].valoper) {
      HeldIgnoresArrangement(u, r, ds[i].valoper, TOKEN);
    }
    assert AskedRow(r, ds) == AskedRow(u, ds);
  }

  /** Shifting and fitting together: what the target loop starts from. */
  lemma AdjustedLaw(requests: Entries, bins: Entries, ds: seq<Diff>)
    requires Apart(ds) && AscendingFrom(ds, 0) && Distinct(requests) && FitsInTotal(requests, bins, ds)
    ensures var r := Adjusted(requests, bins, ds);
            && Distinct(r)
            && SumForDenom(r, TOKEN) == SumForDenom(requests, TOKEN)
            && (forall v :: Mentions(ds, v) ==> Asked(r, v) <= Cap(bins, v))
            && (forall v :: !Mentions(ds, v) ==> Asked(r, v) == Asked(requests, v))
            && AskedRow(r, ds) == Settled(requests, bins, ds)
            && var shifted := FillFront(RoomRow(requests, ds), AskedSum(requests, ds));
               (Within(shifted, CapRow(bins, ds)) ==> AskedRow(r, ds) == shifted)
  {
    hide Settled, AskedRow, ByAddress, Maximal, FillFront, RoomRow, CapRow, Within;
    AdjustedRow(requests, bins, ds);
    SettledWhenFitting(requests, bins, ds);
    ShiftLaw(requests, ds, 0);
    var (q, es) := ShiftFrom(requests, ds, 0);
    AskedSumSameNames(q, ds, es);
    CapSumSameNames(bins, ds, es);
    assert Apart(es);
    SatisfiedLaw(q, bins, es);
    var u := Satisfied(q, bins, es);
    var r := Adjusted(requests, bins, ds);
    SumIgnoresArrangement(u, r, TOKEN);
    DistinctSurvivesSorting(AllocationKey(), u, r);
    forall v ensures Asked(r, v) == Asked(u, v)
             ensures Mentions(ds, v) ==> Asked(u, v) <= Cap(bins, v)
             ensures !Mentions(ds, v) ==> Asked(u, v) == Asked(requests, v)
    {
      HeldIgnoresArrangement(u, r, v, TOKEN);
      MentionsSameNames(ds, es, v);
      if Mentions(es, v) {
        var i :| 0 <= i < |es| && es[i].valoper == v;
        assert Fits(u, bins, es, i);
      }
    }
  }

  lemma MentionsSameNames(ds: seq<Diff>, es: seq<Diff>, v: string)
    requires |ds| == |es| && forall i :: 0 <= i < |ds| ==> ds[i].valoper == es[i].valoper
    ensures Mentions(ds, v) <==> Mentions(es, v)
  {
    if Mentions(ds, v) {
      var i :| 0 <= i < |ds| && ds[i].valoper == v;
      assert es[i].valoper == v;
    }
    if Mentions(es, v) {
      var i :| 0 <= i < |es| && es[i].valoper == v;
      assert ds[i].valoper == v;
    }
  }

  /** The targets take from each delta what it is asked in the end, and from others what was requested of them. */
  ghost predicate TakeAsSettled(ts: seq<Target>, requests: Entries, bins: Entries, ds: seq<Diff>)
  {
    && (forall i :: 0 <= i < |ds| ==> TargetsOf(ts, ds[i].valoper) == Settled(requests, bins, ds)[i])
    && (forall v :: !Mentions(ds, v) ==> TargetsOf(ts, v) == Asked(requests, v))
  }

  lemma TargetsTakeAsSettled(requests: Entries, bins: Entries, ds: seq<Diff>, store: seq<Delegation>)
    requires Apart(ds) && AscendingFrom(ds, 0) && Distinct(requests) && FitsInTotal(requests, bins, ds)
    requires OneRecordPerPair(store)
    ensures var c := Targets(requests, bins, ds, store);
            c.Some? ==> TakeAsSettled(c.value, requests, bins, ds) && SmallestFirst(c.value, store)
  {
    hide Adjusted, Settled, Collect, TargetsOf, Taken, ByAddress, Candidates, InOrder, Mentions, DistinctAddresses;
    AdjustedLaw(requests, bins, ds);
    var u := Adjusted(requests, bins, ds);
    var r := ByAddress(AllocationKey(), u);
    DistinctSurvivesSorting(AllocationKey(), u, r);
    CollectInOrder(r, store, []);
    var c := Targets(requests, bins, ds, store);
    if c.Some? {
      forall v ensures TargetsOf(c.value, v) == Asked(u, v) {
        HeldIgnoresArrangement(u, r, v, TOKEN);
        NoTargetsYet(v);
      }
      forall i | 0 <= i < |ds| ensures TargetsOf(c.value, ds[i].valoper) == Settled(requests, bins, ds)[i] {
        assert AskedRow(u, ds)[i] == Asked(u, ds[i].valoper);
      }
      forall v ensures InOrder(c.value, Candidates(store, v)) {
        if !Has(r, v) { UntouchedInOrder(c.value, store, v); }
      }
      OrderIsSmallestFirst(c.value, store);
    }
  }

  lemma NoTargetsYet(v: string)
    ensures TargetsOf([], v) == 0
  {
  }

  lemma UntouchedInOrder(ts: seq<Target>, store: seq<Delegation>, v: string)
    requires OneRecordPerPair(store) && forall e: Delegation :: e.validator == v ==> Taken(ts, e) == Taken([], e)
    ensures InOrder(ts, Candidates(store, v))
  {
    hide Candidates;
    CandidatesLaw(store, v);
    var cs := Candidates(store, v);
    forall k | 0 <= k < |cs| ensures Taken(ts, cs[k]) == 0 {
      assert cs[k] in cs;
    }
  }

  /**
   Once the requests fit in total, choosing targets fails exactly when a request for a
   validator outside the deltas exceeds what is delegated to it; otherwise the targets
   add up to the request, one per (delegator, validator), none above its delegation. Each
   validator gives what it is asked after shifting and fitting, its smallest delegations first.
   */
  lemma TargetsLaw(requests: Entries, bins: Entries, ds: seq<Diff>, store: seq<Delegation>)
    requires Apart(ds) && AscendingFrom(ds, 0) && Distinct(requests) && FitsInTotal(requests, bins, ds)
    requires OneRecordPerPair(store) && forall v :: Cap(bins, v) == DelegatedTo(store, v)
    ensures var c := Targets(requests, bins, ds, store);
            && (c.Some? <==> forall v :: !Mentions(ds, v) ==> Asked(requests, v) <= DelegatedTo(store, v))
            && (c.Some? ==>
                  && TargetSum(c.value) == SumForDenom(requests, TOKEN)
                  && PairsOnce(c.value) && Backed(c.value, store)
                  && TakeAsSettled(c.value, requests, bins, ds) && SmallestFirst(c.value, store))
  {
    hide Adjusted, Settled, TakeAsSettled, SmallestFirst, Collect;
    TargetsTakeAsSettled(requests, bins, ds, store);
    AdjustedLaw(requests, bins, ds);
    var u := Adjusted(requests, bins, ds);
    var r := ByAddress(AllocationKey(), u);
    SumIgnoresArrangement(u, r, TOKEN);
    DistinctSurvivesSorting(AllocationKey(), u, r);
    CollectLaw(r, store, []);
    forall v ensures Asked(r, v) == Asked(u, v) {
      HeldIgnoresArrangement(u, r, v, TOKEN);
    }
    CoverableByAsked(r, store);
  }

  lemma CoverableByAsked(r: Entries, store: seq<Delegation>)
    requires Distinct(r)
    ensures Coverable(r, store) <==> forall v :: Asked(r, v) <= DelegatedTo(store, v)
  {
    if Coverable(r, store) {
      forall v ensures Asked(r, v) <= DelegatedTo(store, v) {
        if Has(r, v) {
          var i :| 0 <= i < |r| && r[i].address == v;
          HeldAt(r, i, TOKEN);
          assert r[i] in r;
        } else {
          AbsentHoldsNothing(r, v, TOKEN);
        }
      }
    }
    if forall v :: Asked(r, v) <= DelegatedTo(store, v) {
      forall a | a in r ensures AmountOf(a.amount, TOKEN) <= DelegatedTo(store, a.address) {
        var i :| 0 <= i < |r| && r[i] == a;
        HeldAt(r, i, TOKEN);
        assert Asked(r, a.address) <= DelegatedTo(store, a.address);
      }
    }
  }

  // ----- From the delegation records -----

  /** What is delegated to the validators of an intent. */
  ghost function DelegatedToIntent(store: seq<Delegation>, keys: seq<string>): nat
  {
    if keys == [] then 0 else DelegatedTo(store, keys[0]) + DelegatedToIntent(store, keys[1..])
  }

  function RecordDeltas(accounts: seq<string>, denom: string, store: seq<Delegation>, w: Weights,
                        keys: seq<string>): seq<Diff>
    requires forall v :: v in keys ==> v in w
  {
    Deltas(Bins(accounts, denom, store), DelegatedTotal(store), w, keys)
  }

  lemma DeltasAreOrdered(bins: Entries, total: nat, w: Weights, keys: seq<string>)
    requires Enumerates(keys, w)
    ensures Apart(Deltas(bins, total, w, keys))
    ensures AscendingFrom(Deltas(bins, total, w, keys), 0)
  {
    var ds := Deltas(bins, total, w, keys);
    if total > 0 {
      DeltasCoverIntent(bins, total, w, keys);
      forall i, j | 0 <= i < j < |ds| ensures ds[i].valoper != ds[j].valoper {
        assert DiffKey()(ds[i]).address != DiffKey()(ds[j]).address;
      }
      TwoPassesSortLexicographically(DiffKey(), DeltaList(bins, total, w, keys));
      forall i, j | 0 <= i < j < |ds| ensures ds[i].amount <= ds[j].amount {
        assert !LexOrder(DiffKey())(ds[j], ds[i]);
      }
    }
  }

  ghost function CapOf(bins: Entries): Diff -> int { (d: Diff) => Cap(bins, d.valoper) }

  lemma {:induction false} CapSumIsSum(bins: Entries, ds: seq<Diff>)
    ensures CapSum(bins, ds) == SumBy(CapOf(bins), ds)
  {
    if ds == [] {
    } else {
      CapSumIsSum(bins, ds[1..]);
    }
  }

  lemma {:induction false} DeltaListCap(bins: Entries, store: seq<Delegation>, total: nat, w: Weights,
                                        keys: seq<string>)
    requires total > 0 && forall v :: v in keys ==> v in w
    requires forall v :: Cap(bins, v) == DelegatedTo(store, v)
    ensures CapSum(bins, DeltaList(bins, total, w, keys)) == DelegatedToIntent(store, keys)
  {
    if keys == [] {
    } else {
      DeltaListCap(bins, store, total, w, keys[1..]);
      var ds := DeltaList(bins, total, w, keys);
      assert ds[1..] == DeltaList(bins, total, w, keys[1..]);
    }
  }

  /** The capacity behind the deltas is what is delegated to the intent's validators. */
  lemma DeltasCap(bins: Entries, store: seq<Delegation>, total: nat, w: Weights, keys: seq<string>)
    requires total > 0 && Enumerates(keys, w)
    requires forall v :: Cap(bins, v) == DelegatedTo(store, v)
    ensures CapSum(bins, Deltas(bins, total, w, keys)) == DelegatedToIntent(store, keys)
  {
    var raw, ds := DeltaList(bins, total, w, keys), Deltas(bins, total, w, keys);
    CapSumIsSum(bins, raw);
    CapSumIsSum(bins, ds);
    SumByPermutation(CapOf(bins), raw, ds);
    DeltaListCap(bins, store, total, w, keys);
  }

  lemma {:induction false} NothingDelegated(store: seq<Delegation>, v: string)
    requires DelegatedTotal(store) == 0
    ensures DelegatedTo(store, v) == 0
  {
    if store == [] {
    } else {
      NothingDelegated(store[1..], v);
    }
  }

  lemma {:induction false} NothingDelegatedToIntent(store: seq<Delegation>, keys: seq<string>)
    requires DelegatedTotal(store) == 0
    ensures DelegatedToIntent(store, keys) == 0
  {
    if keys == [] {
    } else {
      NothingDelegated(store, keys[0]);
      NothingDelegatedToIntent(store, keys[1..]);
    }
  }

  lemma {:induction false} HeldWithinSum(s: Entries, v: string, d: string)
    ensures Held(s, v, d) <= SumForDenom(s, d)
  {
    if s == [] {
    } else {
      HeldWithinSum(s[1..], v, d);
    }
  }

  /**
   If every request is for a validator of the intent and all of them together fit what
   is delegated to the intent's validators, the choice succeeds: the targets add up to
   the request, there is one per (delegator, validator), and none exceeds its record. Each
   validator gives what it is asked after shifting and fitting, its smallest delegations first.
   This holds for any weights.
   */
  lemma RedemptionSucceeds(accounts: seq<string>, denom: string, store: seq<Delegation>, w: Weights,
                           keys: seq<string>, requests: Entries)
    requires Enumerates(keys, w) && OneRecordPerPair(store) && Distinct(requests)
    requires forall a :: a in requests ==> a.address in w
    requires SumForDenom(requests, TOKEN) <= DelegatedToIntent(store, keys)
    ensures var bins := Bins(accounts, denom, store);
            var ds := RecordDeltas(accounts, denom, store, w, keys);
            && FitsInTotal(requests, bins, ds)
            && var c := Targets(requests, bins, ds, store);
            && c.Some?
            && TargetSum(c.value) == SumForDenom(requests, TOKEN)
            && PairsOnce(c.value)
            && Backed(c.value, store)
            && TakeAsSettled(c.value, requests, bins, ds)
            && SmallestFirst(c.value, store)
  {
    hide Targets, TakeAsSettled, SmallestFirst, Backed, PairsOnce, OneRecordPerPair;
    var bins := Bins(accounts, denom, store);
    var ds := RecordDeltas(accounts, denom, store, w, keys);
    forall v ensures Cap(bins, v) == DelegatedTo(store, v) {
      BinsHoldDelegations(accounts, denom, store, v);
    }
    DeltasAreOrdered(bins, DelegatedTotal(store), w, keys);
    if DelegatedTotal(store) == 0 {
      NothingDelegatedToIntent(store, keys);
      forall v ensures Asked(requests, v) <= DelegatedTo(store, v) {
        HeldWithinSum(requests, v, TOKEN);
      }
    } else {
      IntentMentioned(bins, DelegatedTotal(store), w, keys);
      AllAsked(requests, ds);
      DeltasCap(bins, store, DelegatedTotal(store), w, keys);
      forall v | !Mentions(ds, v) ensures Asked(requests, v) <= DelegatedTo(store, v) {
        forall i | 0 <= i < |requests| ensures requests[i].address != v {
          assert requests[i] in requests;
        }
        AbsentHoldsNothing(requests, v, TOKEN);
      }
    }
    TargetsLaw(requests, bins, ds, store);
  }

  lemma IntentMentioned(bins: Entries, total: nat, w: Weights, keys: seq<string>)
    requires total > 0 && Enumerates(keys, w)
    ensures forall v :: v in w ==> Mentions(Deltas(bins, total, w, keys), v)
  {
    DeltasCoverIntent(bins, total, w, keys);
    var ds := Deltas(bins, total, w, keys);
    forall v | v in w ensures Mentions(ds, v) {
      var d :| d in ds && d.valoper == v;
      var i :| 0 <= i < |ds| && ds[i] == d;
    }
  }
}

/** The same algorithms on allocations and deltas that are updated in place. */
module RedemptionLoops {
  import opened Coins
  import opened StableSort
  import opened Allocations
  import opened Intent
  import opened Plans
  import opened Shift
  import opened Sweep
  import opened Redemption

  /** The inner loop of ApplyDeltasToIntent for one over-delegated validator. */
  method ServeDelta(requests: Book, deltas: array<Diff>, fromIdx: nat) returns (done: bool)
    requires fromIdx < deltas.Length && deltas[fromIdx].amount < 0
    modifies requests, deltas
    ensures var (r, left) := Serve(old(requests.entries), old(deltas[..]), fromIdx);
            && requests.entries == r
            && deltas[..] == Left(old(deltas[..]), fromIdx, left)
            && done == (left == 0)
  {
    hide Subtracted, Allocated, AmountOf, One, Lookup;
    ghost var ds := deltas[..];
    ghost var target := Serve(requests.entries, ds, fromIdx);
    ghost var left: nat := -deltas[fromIdx].amount;
    assert deltas[..] == Left(ds, fromIdx, left);
    var idx := deltas.Length - 1;
    while idx > fromIdx
      invariant fromIdx <= idx < deltas.Length
      invariant left > 0 && deltas[..] == Left(ds, fromIdx, left)
      invariant Drain(requests.entries, ds, fromIdx, idx, left) == target
    {
      assert deltas[idx] == ds[idx] && deltas[fromIdx].valoper == ds[fromIdx].valoper;
      var intent := requests.Get(deltas[idx].valoper);
      if intent.Some? {
        var toSub: nat := -deltas[fromIdx].amount;
        var remainder := requests.Sub(One(TOKEN, toSub), deltas[idx].valoper);
        var rest := AmountOf(remainder, TOKEN);
        requests.Allocate(deltas[fromIdx].valoper, One(TOKEN, if rest <= toSub then toSub - rest else 0));
        deltas[fromIdx] := Diff(deltas[fromIdx].valoper, -(rest as int));
        left := rest;
        assert deltas[..] == Left(ds, fromIdx, left);
        if rest == 0 {
          return true;
        }
      }
      idx := idx - 1;
    }
    return false;
  }

  /** The outer loop: moves requests towards over-delegated validators. */
  method ShiftRequests(requests: Book, deltas: array<Diff>)
    modifies requests, deltas
    ensures (requests.entries, deltas[..]) == ShiftFrom(old(requests.entries), old(deltas[..]), 0)
  {
    var fromIdx := 0;
    while fromIdx < deltas.Length && deltas[fromIdx].amount < 0
      invariant fromIdx <= deltas.Length
      invariant ShiftFrom(requests.entries, deltas[..], fromIdx) == ShiftFrom(old(requests.entries), old(deltas[..]), 0)
    {
      var done := ServeDelta(requests, deltas, fromIdx);
      if !done {
        return;
      }
      fromIdx := fromIdx + 1;
    }
  }

  /**
   Overflows go to the next delta, and from the last one back to the first and round
   again. The source recurses without end unless the requests fit in total, so they
   must; the measure shows that it then recurses at most once.
   */
  method SatisfyRequestsForBins(requests: Book, bins: Book, deltas: seq<Diff>)
    requires requests != bins && Apart(deltas) && Distinct(requests.entries)
    requires AskedSum(requests.entries, deltas) <= CapSum(bins.entries, deltas)
    modifies requests
    ensures requests.entries == Satisfied(old(requests.entries), bins.entries, deltas)
    decreases if AllFit(requests.entries, bins.entries, deltas, 1) then 0 else 1
  {
    hide AskedSum, CapSum, AllFit, Apart, Distinct, Held, Has, Lookup, Subtracted, Allocated, AmountOf, SumForDenom;
    hide One;
    ghost var start := requests.entries;
    for i := 0 to |deltas|
      invariant SweepFrom(requests.entries, bins.entries, deltas, i) == SweepFrom(start, bins.entries, deltas, 0)
    {
      var max := bins.SumOf(deltas[i].valoper);
      var r := requests.Get(deltas[i].valoper);
      LookupHeld(requests.entries, deltas[i].valoper, TOKEN);
      if r.Some? && AmountOf(r.value, TOKEN) > max {
        var over: nat := AmountOf(r.value, TOKEN) - max;
        var _ := requests.Sub(One(TOKEN, over), deltas[i].valoper);
        if i >= |deltas| - 1 {
          requests.Allocate(deltas[0].valoper, One(TOKEN, over));
          SweepLaw(start, bins.entries, deltas, 0);
          if AllFit(start, bins.entries, deltas, 1) {
            SecondSweepEnds(start, bins.entries, deltas, 0);
          }
          SecondSweepEnds(requests.entries, bins.entries, deltas, 0);
          SatisfyRequestsForBins(requests, bins, deltas);
          return;
        }
        requests.Allocate(deltas[i + 1].valoper, One(TOKEN, over));
      }
    }
  }

  method ApplyDeltasToIntent(requests: Book, deltas: array<Diff>, bins: Book)
    requires requests != bins && Distinct(requests.entries)
    requires Apart(deltas[..]) && AscendingFrom(deltas[..], 0)
    requires FitsInTotal(requests.entries, bins.entries, deltas[..])
    modifies requests, deltas
    ensures requests.entries == Adjusted(old(requests.entries), bins.entries, old(deltas[..]))
  {
    ghost var ds := deltas[..];
    ShiftLaw(requests.entries, ds, 0);
    ShiftRequests(requests, deltas);
    AskedSumSameNames(requests.entries, ds, deltas[..]);
    CapSumSameNames(bins.entries, ds, deltas[..]);
    SatisfyRequestsForBins(requests, bins, deltas[..]);
    requests.SortByAddress();
  }

  method GetDelegationBinsMap(accounts: seq<string>, denom: string, store: seq<Delegation>) returns (out: Book)
    ensures fresh(out) && out.entries == Bins(accounts, denom, store)
  {
    out := new Book();
    for i := 0 to |accounts|
      invariant fresh(out)
      invariant EmptyBins(accounts, denom, []) == EmptyBins(accounts[i..], denom, out.entries)
    {
      out.Allocate(accounts[i], One(denom, 0));
    }
    ghost var empty := out.entries;
    for i := 0 to |store|
      invariant fresh(out)
      invariant FillBins(store, empty) == FillBins(store[i..], out.entries)
    {
      out.Allocate(store[i].delegator, One(store[i].validator, store[i].amount));
    }
    out.SortByAddress();
  }

  method AddRedemptionTarget(out: seq<Target>, delegator: string, validator: string, amount: nat)
    returns (r: seq<Target>)
    ensures r == AddTarget(out, delegator, validator, amount)
  {
    r := ByAddress(TargetKey(), out);
    SortKeepsTargets(out, delegator, validator);
    for i := 0 to |r|
      invariant forall k :: 0 <= k < i ==> !(r[k].delegator == delegator && r[k].validator == validator)
    {
      if r[i].delegator == delegator && r[i].validator == validator {
        return;
      }
    }
    r := r + [Target(delegator, validator, amount)];
  }

  lemma SortKeepsTargets(out: seq<Target>, delegator: string, validator: string)
    ensures Targeted(out, delegator, validator) <==> Targeted(ByAddress(TargetKey(), out), delegator, validator)
  {
    var r := ByAddress(TargetKey(), out);
    if Targeted(out, delegator, validator) {
      var i :| 0 <= i < |out| && out[i].delegator == delegator && out[i].validator == validator;
      assert out[i] in multiset(r);
      var j :| 0 <= j < |r| && r[j] == out[i];
    }
    if Targeted(r, delegator, validator) {
      var i :| 0 <= i < |r| && r[i].delegator == delegator && r[i].validator == validator;
      assert r[i] in multiset(out);
      var j :| 0 <= j < |out| && out[j] == r[i];
    }
  }

  method TakeTokens(ds: seq<Delegation>, tokens: nat, out: seq<Target>) returns (r: seq<Target>, remaining: nat)
    ensures (r, remaining) == TakeFrom(ds, tokens, out)
  {
    r, remaining := out, tokens;
    assert ds[0..] == ds;
    ghost var goal := TakeFrom(ds, tokens, out);
    for i := 0 to |ds|
      invariant goal == TakeFrom(ds[i..], remaining, r)
    {
      assert ds[i..][0] == ds[i] && ds[i..][1..] == ds[i + 1..];
      r := AddRedemptionTarget(r, ds[i].delegator, ds[i].validator, Min(ds[i].amount, remaining));
      if ds[i].amount >= remaining {
        remaining := 0;
        return;
      }
      remaining := Rest(remaining, ds[i].amount);
    }
  }

  method CollectTargets(requests: Entries, store: seq<Delegation>) returns (r: Option<seq<Target>>)
    ensures r == Collect(requests, store, [])
  {
    var out := [];
    for i := 0 to |requests|
      invariant Collect(requests, store, []) == Collect(requests[i..], store, out)
    {
      var remaining;
      out, remaining := TakeTokens(Candidates(store, requests[i].address), AmountOf(requests[i].amount, TOKEN), out);
      if remaining > 0 {
        return None;
      }
    }
    return Some(out);
  }

  /** None is the error "redemption with remaining amount". */
  method GetRedemptionTargets(accounts: seq<string>, denom: string, store: seq<Delegation>, w: Weights,
                              keys: seq<string>, requests: Book) returns (r: Option<seq<Target>>)
    requires Enumerates(keys, w) && Distinct(requests.entries)
    requires FitsInTotal(requests.entries, Bins(accounts, denom, store), RecordDeltas(accounts, denom, store, w, keys))
    modifies requests
    ensures r == Targets(old(requests.entries), Bins(accounts, denom, store),
                         RecordDeltas(accounts, denom, store, w, keys), store)
  {
    hide Bins, DelegatedTotal, AskedSum, CapSum, Deltas, ByAddress, Collect, ShiftFrom, Satisfied;
    var bins := GetDelegationBinsMap(accounts, denom, store);
    var ds := DetermineIntentDelta(bins, DelegatedTotal(store), w, keys);
    DeltasAreOrdered(bins.entries, DelegatedTotal(store), w, keys);
    var deltas := new Diff[|ds|](i requires 0 <= i < |ds| => ds[i]);
    assert deltas[..] == ds;
    ApplyDeltasToIntent(requests, deltas, bins);
    requests.SortByAddress();
    r := CollectTargets(requests.entries, store);
  }
}
