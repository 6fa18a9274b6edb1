/** Intent deltas and delegation plans: x/interchainstaking/types/delegation.go. */
module Intent {
  import D = Dec
  import opened StableSort
  import opened Allocations

  /** How far a validator is from its intended share; negative when over-delegated. */
  datatype Diff = Diff(valoper: string, amount: int)

  /** Weights are 18-decimal numbers, by validator address. */
  type Weights = map<string, int>

  function DiffKey(): Diff -> Key { (d: Diff) => Key(d.valoper, d.amount) }

  function NameKey(): string -> Key { (v: string) => Key(v, 0) }

  /** One order in which a map's keys can come out of a range loop. */
  ghost predicate Enumerates(order: seq<string>, w: Weights)
  {
    && (forall v :: v in order <==> v in w)
    && DistinctAddresses(NameKey(), order)
  }

  function Keys(order: seq<string>): (keys: seq<string>)
    ensures |keys| == |order| && multiset(keys) == multiset(order)
  {
    ByAddress(NameKey(), order)
  }

  // ----- Deltas -----

  function Delta(current: nat, total: nat, weight: int): int
    requires total > 0
  {
    D.TruncateInt(D.MulInt(weight - D.Quo(D.ToDec(current), D.ToDec(total)), total))
  }

  function DeltaList(bins: Entries, total: nat, w: Weights, keys: seq<string>): seq<Diff>
    requires total > 0
    requires forall v :: v in keys ==> v in w
  {
    if keys == [] then []
    else [Diff(keys[0], Delta(SumForDenom(bins, keys[0]), total, w[keys[0]]))]
         + DeltaList(bins, total, w, keys[1..])
  }

  function Deltas(bins: Entries, total: nat, w: Weights, keys: seq<string>): seq<Diff>
    requires forall v :: v in keys ==> v in w
  {
    if total == 0 then [] else ByAmount(DiffKey(), DeltaList(bins, total, w, keys))
  }

  /**
   A delta is within 1 + total/10^18 of the exact rational weight * total - current
   (both sides scaled by 10^18 here).
   */
  lemma DeltaNearExact(current: nat, total: nat, weight: int)
    requires total > 0
    ensures var gap := D.ONE * Delta(current, total, weight) - (weight * total - current * D.ONE);
            -(D.ONE + total) < gap < D.ONE + total
  {
    hide D.ChopRound, D.TruncDiv, D.TruncateInt;
    var p := D.Quo(D.ToDec(current), D.ToDec(total));
    D.QuoOfIntegers(current, total);
    var n := total * p;
    assert 2 * total * p == 2 * n && 2 * D.ONE * total * p == 2 * D.ONE * n;
    assert (weight - p) * total == weight * total - n;
    D.TruncateBounds((weight - p) * total);
  }

  lemma {:induction false} DeltaListAt(bins: Entries, total: nat, w: Weights, keys: seq<string>, i: nat)
    requires total > 0 && i < |keys|
    requires forall v :: v in keys ==> v in w
    ensures |DeltaList(bins, total, w, keys)| == |keys|
    ensures DeltaList(bins, total, w, keys)[i]
         == Diff(keys[i], Delta(SumForDenom(bins, keys[i]), total, w[keys[i]]))
  {
    if i > 0 {
      DeltaListAt(bins, total, w, keys[1..], i - 1);
    } else if |keys| > 1 {
      DeltaListAt(bins, total, w, keys[1..], 0);
    } else {
      assert DeltaList(bins, total, w, keys[1..]) == [];
    }
  }

  lemma DeltaListLength(bins: Entries, total: nat, w: Weights, keys: seq<string>)
    requires total > 0
    requires forall v :: v in keys ==> v in w
    ensures |DeltaList(bins, total, w, keys)| == |keys|
  {
    if keys != [] { DeltaListAt(bins, total, w, keys, 0); }
  }

  lemma KeysOfEnumeration(order: seq<string>, w: Weights)
    requires Enumerates(order, w)
    ensures Enumerates(Keys(order), w)
  {
    var keys := Keys(order);
    forall v ensures v in keys <==> v in w {
      assert v in multiset(keys) <==> v in multiset(order);
    }
    DistinctSurvivesSorting(NameKey(), order, keys);
  }

  ghost predicate Covers(ds: seq<Diff>, bins: Entries, total: nat, w: Weights)
    requires total > 0
  {
    && (forall d :: d in ds ==> d.valoper in w && d.amount == Delta(SumForDenom(bins, d.valoper), total, w[d.valoper]))
    && (forall v :: v in w ==> exists d :: d in ds && d.valoper == v)
  }

  lemma DeltaListCovers(bins: Entries, total: nat, w: Weights, keys: seq<string>)
    requires total > 0 && Enumerates(keys, w)
    ensures Covers(DeltaList(bins, total, w, keys), bins, total, w)
    ensures |DeltaList(bins, total, w, keys)| == |keys|
  {
    var raw := DeltaList(bins, total, w, keys);
    DeltaListLength(bins, total, w, keys);
    forall d | d in raw
      ensures d.valoper in w && d.amount == Delta(SumForDenom(bins, d.valoper), total, w[d.valoper])
    {
      var k :| 0 <= k < |raw| && raw[k] == d;
      DeltaListAt(bins, total, w, keys, k);
    }
    forall v | v in w ensures exists d :: d in raw && d.valoper == v {
      var k :| 0 <= k < |keys| && keys[k] == v;
      DeltaListAt(bins, total, w, keys, k);
      assert raw[k] in raw;
    }
  }

  /** Every validator of the intent has exactly one delta, and nobody else has any. */
  lemma DeltasCoverIntent(bins: Entries, total: nat, w: Weights, keys: seq<string>)
    requires total > 0 && Enumerates(keys, w)
    ensures var ds := Deltas(bins, total, w, keys);
            && |ds| == |keys|
            && DistinctAddresses(DiffKey(), ds)
            && Covers(ds, bins, total, w)
  {
    var raw := DeltaList(bins, total, w, keys);
    var ds := Deltas(bins, total, w, keys);
    DeltaListCovers(bins, total, w, keys);
    assert forall d :: d in ds <==> d in multiset(ds);
    assert forall d :: d in raw <==> d in multiset(raw);
    RawDistinct(bins, total, w, keys);
    DistinctSurvivesSorting(DiffKey(), raw, ds);
  }

  lemma RawDistinct(bins: Entries, total: nat, w: Weights, keys: seq<string>)
    requires total > 0 && Enumerates(keys, w)
    ensures DistinctAddresses(DiffKey(), DeltaList(bins, total, w, keys))
  {
    var raw := DeltaList(bins, total, w, keys);
    DeltaListLength(bins, total, w, keys);
    forall i, j | 0 <= i < j < |raw|
      ensures DiffKey()(raw[i]).address != DiffKey()(raw[j]).address
    {
      DeltaListAt(bins, total, w, keys, i);
      DeltaListAt(bins, total, w, keys, j);
    }
  }

  lemma {:induction false} DeltaListIgnoresArrangement(a: Entries, b: Entries, total: nat, w: Weights,
                                                       keys: seq<string>)
    requires multiset(a) == multiset(b) && total > 0
    requires forall v :: v in keys ==> v in w
    ensures DeltaList(a, total, w, keys) == DeltaList(b, total, w, keys)
  {
    if keys == [] {
    } else {
      SumIgnoresArrangement(a, b, keys[0]);
      DeltaListIgnoresArrangement(a, b, total, w, keys[1..]);
    }
  }

  /** Two enumerations of one map sort to the same keys. */
  lemma KeysIgnoreOrder(o1: seq<string>, o2: seq<string>, w: Weights)
    requires Enumerates(o1, w) && Enumerates(o2, w)
    ensures Keys(o1) == Keys(o2)
  {
    forall x ensures multiset(o1)[x] == multiset(o2)[x] {
      DistinctOnce(NameKey(), o1, x);
      DistinctOnce(NameKey(), o2, x);
      assert x in multiset(o1) <==> x in o1;
      assert x in multiset(o2) <==> x in o2;
    }
    SortIgnoresArrangement(NameKey(), o1, o2);
  }

  /**
   The deltas depend on the contents of the bins and of the intent only: not on the
   arrangement of the bins, nor on the order in which the intent map is ranged over.
   */
  lemma DeltasDeterministic(a: Entries, b: Entries, total: nat, w: Weights, k1: seq<string>, k2: seq<string>)
    requires multiset(a) == multiset(b)
    requires Enumerates(k1, w) && Enumerates(k2, w)
    ensures Deltas(a, total, w, k1) == Deltas(b, total, w, k2)
  {
    if total > 0 {
      DeltaListIgnoresArrangement(a, b, total, w, k1);
      RawDistinct(b, total, w, k1);
      RawSameContents(b, total, w, k1, k2);
      SortIgnoresArrangement(DiffKey(), DeltaList(b, total, w, k1), DeltaList(b, total, w, k2));
    }
  }

  lemma RawSameContents(bins: Entries, total: nat, w: Weights, k1: seq<string>, k2: seq<string>)
    requires total > 0 && Enumerates(k1, w) && Enumerates(k2, w)
    ensures multiset(DeltaList(bins, total, w, k1)) == multiset(DeltaList(bins, total, w, k2))
  {
    var r1, r2 := DeltaList(bins, total, w, k1), DeltaList(bins, total, w, k2);
    forall d ensures multiset(r1)[d] == multiset(r2)[d] {
      RawDistinct(bins, total, w, k1);
      RawDistinct(bins, total, w, k2);
      DistinctOnce(DiffKey(), r1, d);
      DistinctOnce(DiffKey(), r2, d);
      RawHas(bins, total, w, k1, d);
      RawHas(bins, total, w, k2, d);
      assert d in multiset(r1) <==> d in r1;
      assert d in multiset(r2) <==> d in r2;
    }
  }

  lemma RawHas(bins: Entries, total: nat, w: Weights, keys: seq<string>, d: Diff)
    requires total > 0 && Enumerates(keys, w)
    ensures d in DeltaList(bins, total, w, keys)
       <==> d.valoper in w && d.amount == Delta(SumForDenom(bins, d.valoper), total, w[d.valoper])
  {
    DeltaListCovers(bins, total, w, keys);
  }
}
