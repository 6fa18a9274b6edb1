/** Lists of per-address coins: x/interchainstaking/types/delegation.go. */
module Allocations {
  import opened Coins
  import opened Sums
  import opened StableSort

  datatype Option<T> = None | Some(value: T)

  datatype Allocation = Allocation(address: string, amount: Coins)

  type Entries = seq<Allocation>

  // ----- The list as a value -----

  predicate Has(s: Entries, address: string)
  {
    exists i :: 0 <= i < |s| && s[i].address == address
  }

  /** What the first entry of an address holds of a denomination; 0 if it has none. */
  function Held(s: Entries, address: string, d: string): nat
  {
    if s == [] then 0
    else if s[0].address == address then AmountOf(s[0].amount, d)
    else Held(s[1..], address, d)
  }

  function Lookup(s: Entries, address: string): Option<Coins>
  {
    if s == [] then None
    else if s[0].address == address then Some(s[0].amount)
    else Lookup(s[1..], address)
  }

  function Allocated(s: Entries, address: string, c: Coins): Entries
  {
    if s == [] then [Allocation(address, c)]
    else if s[0].address == address then [Allocation(address, Add(s[0].amount, c))] + s[1..]
    else [s[0]] + Allocated(s[1..], address, c)
  }

  /** The list with `want` taken out of an address as far as possible, and the shortfall. */
  function Subtracted(s: Entries, address: string, want: Coins): (Entries, Coins)
  {
    if s == [] then ([], want)
    else if s[0].address == address then
      var (left, missing) := Withdraw(s[0].amount, want);
      ([Allocation(address, left)] + s[1..], missing)
    else
      var (t, missing) := Subtracted(s[1..], address, want);
      ([s[0]] + t, missing)
  }

  function SumForDenom(s: Entries, d: string): nat
  {
    if s == [] then 0 else AmountOf(s[0].amount, d) + SumForDenom(s[1..], d)
  }

  function Total(s: Entries): nat
  {
    if s == [] then 0 else SumAll(s[0].amount) + Total(s[1..])
  }

  function AllocationKey(): Allocation -> Key
  {
    (a: Allocation) => Key(a.address, SumAll(a.amount))
  }

  ghost predicate Distinct(s: Entries) { DistinctAddresses(AllocationKey(), s) }

  // ----- What the operations do to holdings and sums -----

  lemma {:induction false} AllocatedAt(s: Entries, a: string, c: Coins, i: nat)
    requires i < |s| && s[i].address == a && forall k :: 0 <= k < i ==> s[k].address != a
    ensures Allocated(s, a, c) == s[i := Allocation(a, Add(s[i].amount, c))]
  {
    if i == 0 {
    } else {
      AllocatedAt(s[1..], a, c, i - 1);
    }
  }

  lemma {:induction false} AllocatedNowhere(s: Entries, a: string, c: Coins)
    requires forall k :: 0 <= k < |s| ==> s[k].address != a
    ensures Allocated(s, a, c) == s + [Allocation(a, c)]
  {
    if s == [] {
    } else {
      AllocatedNowhere(s[1..], a, c);
    }
  }

  lemma {:induction false} AllocatedHeld(s: Entries, a: string, c: Coins, b: string, d: string)
    ensures Held(Allocated(s, a, c), b, d) == Held(s, b, d) + (if a == b then AmountOf(c, d) else 0)
  {
    if s == [] {
    } else {
      if s[0].address == a {
        AddAmount(s[0].amount, c, d);
      } else {
        AllocatedHeld(s[1..], a, c, b, d);
      }
    }
  }

  lemma {:induction false} AllocatedSum(s: Entries, a: string, c: Coins, d: string)
    ensures SumForDenom(Allocated(s, a, c), d) == SumForDenom(s, d) + AmountOf(c, d)
    ensures Total(Allocated(s, a, c)) == Total(s) + SumAll(c)
  {
    if s == [] {
    } else {
      if s[0].address == a {
        AddAmount(s[0].amount, c, d);
      } else {
        AllocatedSum(s[1..], a, c, d);
      }
    }
  }

  lemma {:induction false} AllocatedHas(s: Entries, a: string, c: Coins, b: string)
    ensures Has(Allocated(s, a, c), b) <==> Has(s, b) || a == b
  {
    var r := Allocated(s, a, c);
    if s != [] && s[0].address != a {
      AllocatedHas(s[1..], a, c, b);
    }
    HasSplit(s, b);
    HasSplit(r, b);
  }

  lemma HasSplit(s: Entries, b: string)
    ensures s != [] ==> (Has(s, b) <==> s[0].address == b || Has(s[1..], b))
    ensures s == [] ==> !Has(s, b)
  {
    if s != [] {
      if Has(s[1..], b) {
        var i :| 0 <= i < |s[1..]| && s[1..][i].address == b;
        assert s[i + 1].address == b;
      }
      if Has(s, b) && s[0].address != b {
        var i :| 0 <= i < |s| && s[i].address == b;
        assert s[1..][i - 1].address == b;
      }
    }
  }

  lemma {:induction false} AllocatedDistinct(s: Entries, a: string, c: Coins)
    requires Distinct(s)
    ensures Distinct(Allocated(s, a, c))
  {
    if s != [] && s[0].address != a {
      AllocatedDistinct(s[1..], a, c);
      var t := Allocated(s[1..], a, c);
      forall i | 0 <= i < |t| ensures t[i].address != s[0].address {
        AllocatedHas(s[1..], a, c, t[i].address);
        assert Has(t, t[i].address);
        if t[i].address != a {
          var j :| 0 <= j < |s[1..]| && s[1..][j].address == t[i].address;
          assert s[j + 1].address == t[i].address;
          assert AllocationKey()(s[0]).address != AllocationKey()(s[j + 1]).address;
        }
      }
    }
  }

  lemma {:induction false} SubtractedKeepsAddresses(s: Entries, a: string, want: Coins)
    ensures var r := Subtracted(s, a, want).0;
            |r| == |s| && forall i :: 0 <= i < |s| ==> r[i].address == s[i].address
  {
    if s != [] && s[0].address != a {
      SubtractedKeepsAddresses(s[1..], a, want);
    }
  }

  /** Taking out of an address moves exactly the part that was there, and touches nobody else. */
  lemma {:induction false} SubtractedHeld(s: Entries, a: string, want: Coins, b: string, d: string)
    ensures var (r, missing) := Subtracted(s, a, want);
            && Held(r, a, d) + AmountOf(want, d) == Held(s, a, d) + AmountOf(missing, d)
            && Held(r, a, d) <= Held(s, a, d)
            && (AmountOf(missing, d) == 0 || Held(r, a, d) == 0)
            && (a != b ==> Held(r, b, d) == Held(s, b, d))
            && SumForDenom(r, d) + AmountOf(want, d) == SumForDenom(s, d) + AmountOf(missing, d)
  {
    if s == [] {
    } else {
      if s[0].address == a {
        WithdrawSplits(s[0].amount, want, d);
      } else {
        SubtractedHeld(s[1..], a, want, b, d);
      }
    }
  }

  lemma {:induction false} SubtractedAt(s: Entries, i: nat, want: Coins)
    requires i < |s| && forall k :: 0 <= k < i ==> s[k].address != s[i].address
    ensures var (left, missing) := Withdraw(s[i].amount, want);
            Subtracted(s, s[i].address, want) == (s[i := Allocation(s[i].address, left)], missing)
  {
    var (left, missing) := Withdraw(s[i].amount, want);
    if i > 0 {
      SubtractedAt(s[1..], i - 1, want);
      assert s[i := Allocation(s[i].address, left)] == [s[0]] + s[1..][i - 1 := Allocation(s[i].address, left)];
    } else {
      assert s[0 := Allocation(s[0].address, left)] == [Allocation(s[0].address, left)] + s[1..];
    }
  }

  lemma {:induction false} SubtractedNowhere(s: Entries, address: string, want: Coins)
    requires forall k :: 0 <= k < |s| ==> s[k].address != address
    ensures Subtracted(s, address, want) == (s, want)
  {
    if s == [] {
    } else {
      SubtractedNowhere(s[1..], address, want);
      assert s == [s[0]] + s[1..];
    }
  }

  lemma {:induction false} AbsentHoldsNothing(s: Entries, a: string, d: string)
    requires !Has(s, a)
    ensures Held(s, a, d) == 0 && Lookup(s, a) == None
  {
    HasSplit(s, a);
    if s == [] {
    } else {
      AbsentHoldsNothing(s[1..], a, d);
    }
  }

  lemma {:induction false} LookupHeld(s: Entries, a: string, d: string)
    ensures Lookup(s, a).Some? <==> Has(s, a)
    ensures Held(s, a, d) == match Lookup(s, a) { case Some(c) => AmountOf(c, d) case None => 0 }
  {
    HasSplit(s, a);
    if s == [] {
    } else {
      LookupHeld(s[1..], a, d);
    }
  }

  lemma {:induction false} HeldAt(s: Entries, i: nat, d: string)
    requires Distinct(s) && i < |s|
    ensures Held(s, s[i].address, d) == AmountOf(s[i].amount, d)
  {
    if i == 0 {
    } else {
      assert AllocationKey()(s[0]).address != AllocationKey()(s[i]).address;
      HeldAt(s[1..], i - 1, d);
    }
  }

  // ----- Sums do not depend on the order of the list -----

  ghost function AmountIn(d: string): Allocation -> int { (a: Allocation) => AmountOf(a.amount, d) }

  ghost function AmountInAll(): Allocation -> int { (a: Allocation) => SumAll(a.amount) }

  lemma {:induction false} SumsAsSumBy(s: Entries, d: string)
    ensures SumForDenom(s, d) == SumBy(AmountIn(d), s)
    ensures Total(s) == SumBy(AmountInAll(), s)
  {
    if s == [] {
    } else {
      SumsAsSumBy(s[1..], d);
    }
  }

  lemma SumIgnoresArrangement(s: Entries, t: Entries, d: string)
    requires multiset(s) == multiset(t)
    ensures SumForDenom(s, d) == SumForDenom(t, d)
    ensures Total(s) == Total(t)
  {
    SumsAsSumBy(s, d);
    SumsAsSumBy(t, d);
    SumByPermutation(AmountIn(d), s, t);
    SumByPermutation(AmountInAll(), s, t);
  }

  lemma HeldIgnoresArrangement(s: Entries, t: Entries, v: string, d: string)
    requires multiset(s) == multiset(t) && Distinct(s)
    ensures Held(s, v, d) == Held(t, v, d)
  {
    DistinctSurvivesSorting(AllocationKey(), s, t);
    if Has(s, v) {
      var i :| 0 <= i < |s| && s[i].address == v;
      assert s[i] in multiset(t);
      var j :| 0 <= j < |t| && t[j] == s[i];
      HeldAt(s, i, d);
      HeldAt(t, j, d);
    } else {
      AbsentHoldsNothing(s, v, d);
      forall j | 0 <= j < |t| ensures t[j].address != v {
        assert t[j] in multiset(s);
        var i :| 0 <= i < |s| && s[i] == t[j];
      }
      AbsentHoldsNothing(t, v, d);
    }
  }

  // ----- The list in place -----

  /** The source's slice of pointers: every holder of the book sees its updates. */
  class Book {
    var entries: Entries

    constructor ()
      ensures entries == []
    {
      entries := [];
    }

    method Allocate(address: string, c: Coins)
      modifies this
      ensures entries == Allocated(old(entries), address, c)
    {
      hide Allocated, Add;
      var i := 0;
      while i < |entries|
        invariant 0 <= i <= |entries| && entries == old(entries)
        invariant forall k :: 0 <= k < i ==> entries[k].address != address
      {
        if entries[i].address == address {
          AllocatedAt(entries, address, c, i);
          entries := entries[i := Allocation(address, Add(entries[i].amount, c))];
          return;
        }
        i := i + 1;
      }
      AllocatedNowhere(entries, address, c);
      entries := entries + [Allocation(address, c)];
    }

    method Get(address: string) returns (r: Option<Coins>)
      ensures r == Lookup(entries, address)
    {
      for i := 0 to |entries|
        invariant Lookup(entries, address) == Lookup(entries[i..], address)
      {
        if entries[i].address == address {
          return Some(entries[i].amount);
        }
      }
      return None;
    }

    /** Removes an amount from an address and returns what could not be removed. */
    method Sub(want: Coins, address: string) returns (missing: Coins)
      modifies this
      ensures (entries, missing) == Subtracted(old(entries), address, want)
    {
      for i := 0 to |entries|
        invariant entries == old(entries)
        invariant forall k :: 0 <= k < i ==> entries[k].address != address
      {
        if entries[i].address == address {
          SubtractedAt(entries, i, want);
          var left;
          left, missing := WithdrawEach(entries[i].amount, want);
          entries := entries[i := Allocation(address, left)];
          return;
        }
      }
      SubtractedNowhere(entries, address, want);
      missing := want;
    }

    static method WithdrawEach(have: Coins, want: Coins) returns (left: Coins, missing: Coins)
      ensures (left, missing) == Withdraw(have, want)
    {
      hide Take, AmountOf;
      left, missing := have, [];
      assert want[0..] == want;
      for k := 0 to |want|
        invariant Withdraw(have, want).0 == Withdraw(left, want[k..]).0
        invariant Withdraw(have, want).1 == missing + Withdraw(left, want[k..]).1
      {
        assert want[k..][0] == want[k] && want[k..][1..] == want[k + 1..];
        ghost var was := missing;
        var n := Min(AmountOf(left, want[k].denom), want[k].amount);
        left := Take(left, want[k].denom, n);
        var short := Coin(want[k].denom, want[k].amount - n);
        missing := missing + [short];
        ghost var tail := Withdraw(left, want[k + 1..]).1;
        assert was + ([short] + tail) == missing + tail;
      }
      assert want[|want|..] == [] && missing + [] == missing;
    }

    method SumOf(d: string) returns (sum: nat)
      ensures sum == SumForDenom(entries, d)
    {
      sum := 0;
      for i := 0 to |entries|
        invariant sum + SumForDenom(entries[i..], d) == SumForDenom(entries, d)
      {
        sum := sum + AmountOf(entries[i].amount, d);
      }
    }

    method SortByAddress()
      modifies this
      ensures entries == ByAddress(AllocationKey(), old(entries))
      ensures Sorted(AddressOrder(AllocationKey()), entries) && multiset(entries) == multiset(old(entries))
    {
      AddressOrderWeak(AllocationKey());
      SortSorted(AddressOrder(AllocationKey()), entries);
      entries := ByAddress(AllocationKey(), entries);
    }

    method SortByAmount()
      modifies this
      ensures entries == ByAmount(AllocationKey(), old(entries))
      ensures Sorted(LexOrder(AllocationKey()), entries) && multiset(entries) == multiset(old(entries))
    {
      TwoPassesSortLexicographically(AllocationKey(), entries);
      entries := ByAmount(AllocationKey(), entries);
    }
  }
}
