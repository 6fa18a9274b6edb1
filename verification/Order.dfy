/** Byte-wise order of address strings, and the comparisons built on it. */
module Order {

  /** Go's `<` on strings. */
  predicate Less(a: string, b: string)
  {
    if b == [] then false
    else if a == [] then true
    else if a[0] != b[0] then a[0] < b[0]
    else Less(a[1..], b[1..])
  }

  lemma {:induction false} LessIsTotal(a: string, b: string)
    ensures Less(a, b) || Less(b, a) || a == b
    ensures !(Less(a, b) && Less(b, a))
    ensures !Less(a, a)
  {
    if a != [] && b != [] && a[0] == b[0] {
      LessIsTotal(a[1..], b[1..]);
      assert a == [a[0]] + a[1..] && b == [b[0]] + b[1..];
    }
    LessIrreflexive(a);
  }

  lemma {:induction false} LessIrreflexive(a: string)
    ensures !Less(a, a)
  {
    if a == [] {
    } else {
      LessIrreflexive(a[1..]);
    }
  }

  lemma NotLessTransitive(a: string, b: string, c: string)
    requires !Less(a, b) && !Less(b, c)
    ensures !Less(a, c)
  {
    LessIsTotal(a, b);
    LessIsTotal(b, c);
    LessIsTotal(a, c);
    if Less(c, b) && Less(b, a) {
      LessTransitive(c, b, a);
    }
  }

  lemma {:induction false} LessTransitive(a: string, b: string, c: string)
    requires Less(a, b) && Less(b, c)
    ensures Less(a, c)
  {
    if a != [] && a[0] == b[0] == c[0] {
      LessTransitive(a[1..], b[1..], c[1..]);
    }
  }
}

/**
 Stable sorting (Go's sort.SliceStable) of records that carry an address and a
 number, and the proof that sorting by address and then stably by number is
 sorting by (number, address).
 */
module StableSort {
  import opened Order
  import opened Sums

  /** What the comparisons look at: the address and the amount of a record. */
  datatype Key = Key(address: string, amount: int)

  predicate LexLess(x: Key, y: Key)
  {
    x.amount < y.amount || (x.amount == y.amount && Less(x.address, y.address))
  }

  function AddressOrder<T>(key: T -> Key): (T, T) -> bool
  {
    (x, y) => Less(key(x).address, key(y).address)
  }

  function AmountOrder<T>(key: T -> Key): (T, T) -> bool
  {
    (x, y) => key(x).amount < key(y).amount
  }

  /** The strict order by (amount, address). */
  function LexOrder<T>(key: T -> Key): (T, T) -> bool
  {
    (x, y) => LexLess(key(x), key(y))
  }

  /** Puts x before the first element that is not smaller, so equal elements keep their order. */
  function Insert<T>(less: (T, T) -> bool, x: T, s: seq<T>): (r: seq<T>)
    ensures multiset(r) == multiset(s) + multiset{x}
    ensures |r| == |s| + 1
  {
    if s == [] then [x]
    else if less(s[0], x) then
      assert s == [s[0]] + s[1..];
      [s[0]] + Insert(less, x, s[1..])
    else [x] + s
  }

  function Sort<T>(less: (T, T) -> bool, s: seq<T>): (r: seq<T>)
    ensures multiset(r) == multiset(s)
    ensures |r| == |s|
  {
    if s == [] then []
    else
      assert s == [s[0]] + s[1..];
      Insert(less, s[0], Sort(less, s[1..]))
  }

  function ByAddress<T>(key: T -> Key, s: seq<T>): (r: seq<T>)
    ensures multiset(r) == multiset(s) && |r| == |s|
  {
    Sort(AddressOrder(key), s)
  }

  /** The source's two passes: by address first, then stably by amount. */
  function ByAmount<T>(key: T -> Key, s: seq<T>): (r: seq<T>)
    ensures multiset(r) == multiset(s) && |r| == |s|
  {
    Sort(AmountOrder(key), ByAddress(key, s))
  }

  // ----- Sortedness -----

  ghost predicate Sorted<T>(less: (T, T) -> bool, s: seq<T>)
  {
    forall i, j :: 0 <= i < j < |s| ==> !less(s[j], s[i])
  }

  /** A strict weak order: what sort.SliceStable expects of its comparison. */
  ghost predicate WeakOrder<T(!new)>(less: (T, T) -> bool)
  {
    && (forall x, y :: less(x, y) ==> !less(y, x))
    && (forall x, y, z :: !less(x, y) && !less(y, z) ==> !less(x, z))
  }

  ghost predicate DistinctAddresses<T>(key: T -> Key, s: seq<T>)
  {
    forall i, j :: 0 <= i < j < |s| ==> key(s[i]).address != key(s[j]).address
  }

  lemma AddressOrderWeak<T(!new)>(key: T -> Key)
    ensures WeakOrder(AddressOrder(key))
  {
    forall x, y ensures AddressOrder(key)(x, y) ==> !AddressOrder(key)(y, x) {
      LessIsTotal(key(x).address, key(y).address);
    }
    forall x, y, z | !AddressOrder(key)(x, y) && !AddressOrder(key)(y, z)
      ensures !AddressOrder(key)(x, z)
    {
      NotLessTransitive(key(x).address, key(y).address, key(z).address);
    }
  }

  lemma {:induction false} InsertSorted<T(!new)>(less: (T, T) -> bool, x: T, s: seq<T>)
    requires WeakOrder(less) && Sorted(less, s)
    ensures Sorted(less, Insert(less, x, s))
  {
    if s == [] {
    } else {
      if less(s[0], x) {
        InsertSorted(less, x, s[1..]);
        var t := Insert(less, x, s[1..]);
        forall j | 0 <= j < |t| ensures !less(t[j], s[0]) {
          assert t[j] in multiset(s[1..]) + multiset{x};
          if t[j] != x {
            assert t[j] in s[1..];
          }
        }
      } else {
        forall j | 0 <= j < |s| ensures !less(s[j], x) {
          assert j > 0 ==> !less(s[j], s[0]);
        }
      }
    }
  }

  lemma {:induction false} SortSorted<T(!new)>(less: (T, T) -> bool, s: seq<T>)
    requires WeakOrder(less)
    ensures Sorted(less, Sort(less, s))
  {
    if s == [] {
    } else {
      SortSorted(less, s[1..]);
      InsertSorted(less, s[0], Sort(less, s[1..]));
    }
  }

  lemma SortedOne<T>(less: (T, T) -> bool, x: T)
    ensures Sorted(less, [x])
  {
  }

  lemma LexAfterHead<T>(key: T -> Key, x: T, s: seq<T>, t: seq<T>)
    requires s != [] && Sorted(LexOrder(key), s) && key(s[0]).amount < key(x).amount
    requires Sorted(LexOrder(key), t) && multiset(t) == multiset(s[1..]) + multiset{x}
    ensures Sorted(LexOrder(key), [s[0]] + t)
  {
    forall j | 0 <= j < |t| ensures !LexOrder(key)(t[j], s[0]) {
      assert t[j] in multiset(s[1..]) + multiset{x};
      if t[j] != x {
        assert t[j] in s[1..];
      }
    }
  }

  lemma LexBeforeHead<T>(key: T -> Key, x: T, s: seq<T>)
    requires s != [] && Sorted(LexOrder(key), s) && key(s[0]).amount >= key(x).amount
    requires forall y :: y in s ==> !Less(key(y).address, key(x).address)
    ensures Sorted(LexOrder(key), [x] + s)
  {
    forall j | 0 <= j < |s| ensures !LexOrder(key)(s[j], x) {
      assert j > 0 ==> !LexOrder(key)(s[j], s[0]);
      assert s[j] in s;
    }
  }

  lemma {:induction false} InsertLex<T>(key: T -> Key, x: T, s: seq<T>)
    requires Sorted(LexOrder(key), s)
    requires forall y :: y in s ==> !Less(key(y).address, key(x).address)
    ensures Sorted(LexOrder(key), Insert(AmountOrder(key), x, s))
  {
    hide Sorted, LexOrder;
    if s == [] {
      SortedOne(LexOrder(key), x);
    } else if key(s[0]).amount < key(x).amount {
      SortedTail(LexOrder(key), s);
      InsertLex(key, x, s[1..]);
      LexAfterHead(key, x, s, Insert(AmountOrder(key), x, s[1..]));
    } else {
      LexBeforeHead(key, x, s);
    }
  }

  lemma {:induction false} SortLex<T>(key: T -> Key, s: seq<T>)
    requires Sorted(AddressOrder(key), s)
    ensures Sorted(LexOrder(key), Sort(AmountOrder(key), s))
  {
    if s == [] {
    } else {
      SortLex(key, s[1..]);
      var t := Sort(AmountOrder(key), s[1..]);
      forall y | y in t ensures !Less(key(y).address, key(s[0]).address) {
        assert y in multiset(t);
        assert y in s[1..];
        var j :| 0 <= j < |s[1..]| && s[1..][j] == y;
        assert s[j + 1] == y;
        assert !AddressOrder(key)(s[j + 1], s[0]);
      }
      InsertLex(key, s[0], t);
    }
  }

  /** The two-pass stable sort is a sort by the single strict order (amount, address). */
  lemma TwoPassesSortLexicographically<T(!new)>(key: T -> Key, s: seq<T>)
    ensures Sorted(LexOrder(key), ByAmount(key, s))
    ensures multiset(ByAmount(key, s)) == multiset(s)
  {
    AddressOrderWeak(key);
    SortSorted(AddressOrder(key), s);
    SortLex(key, ByAddress(key, s));
  }

  lemma SortedHeads<T>(less: (T, T) -> bool, a: seq<T>, b: seq<T>)
    requires a != [] && b != [] && a[0] in b && b[0] in a
    requires Sorted(less, a) && Sorted(less, b)
    requires a[0] != b[0] ==> less(a[0], b[0]) || less(b[0], a[0])
    ensures a[0] == b[0]
  {
    var i :| 0 <= i < |a| && a[i] == b[0];
    var j :| 0 <= j < |b| && b[j] == a[0];
    assert i > 0 ==> !less(a[i], a[0]);
    assert j > 0 ==> !less(b[j], b[0]);
  }

  ghost predicate Separates<T>(less: (T, T) -> bool, m: multiset<T>)
  {
    forall x, y :: x in m && y in m && x != y ==> less(x, y) || less(y, x)
  }

  lemma SortedTail<T>(less: (T, T) -> bool, a: seq<T>)
    requires a != [] && Sorted(less, a)
    ensures Sorted(less, a[1..])
    ensures multiset(a[1..]) == multiset(a) - multiset{a[0]}
  {
    assert a == [a[0]] + a[1..];
  }

  /** An order that separates the elements of a list admits one sorted arrangement of it. */
  lemma {:induction false} SortedUnique<T>(less: (T, T) -> bool, a: seq<T>, b: seq<T>)
    requires multiset(a) == multiset(b)
    requires Sorted(less, a) && Sorted(less, b)
    requires Separates(less, multiset(a))
    ensures a == b
  {
    assert |a| == |multiset(a)| == |multiset(b)| == |b|;
    if a == [] {
    } else {
      assert b[0] in multiset(a) && a[0] in multiset(b);
      SortedHeads(less, a, b);
      SortedTail(less, a);
      SortedTail(less, b);
      SortedUnique(less, a[1..], b[1..]);
    }
  }

  // ----- Distinctness belongs to the contents, not to the arrangement -----

  lemma DistinctOnce<T>(key: T -> Key, s: seq<T>, x: T)
    requires DistinctAddresses(key, s)
    ensures multiset(s)[x] <= 1
  {
    DistinctByOnce((y: T) => key(y).address, s, x);
  }

  lemma DistinctSurvivesSorting<T>(key: T -> Key, s: seq<T>, t: seq<T>)
    requires multiset(s) == multiset(t) && DistinctAddresses(key, s)
    ensures DistinctAddresses(key, t)
  {
    DistinctByPermutation((y: T) => key(y).address, s, t);
  }

  /**
   For distinct addresses any two arrangements of the same records sort to the same
   list, by address and by amount: the result does not depend on slice or map order,
   and any stable sorting algorithm would give it.
   */
  lemma SortIgnoresArrangement<T(!new)>(key: T -> Key, a: seq<T>, b: seq<T>)
    requires multiset(a) == multiset(b)
    requires DistinctAddresses(key, a)
    ensures ByAddress(key, a) == ByAddress(key, b)
    ensures ByAmount(key, a) == ByAmount(key, b)
  {
    AddressOrderWeak(key);
    SortSorted(AddressOrder(key), a);
    SortSorted(AddressOrder(key), b);
    forall x, y | x in multiset(a) && y in multiset(a) && x != y
      ensures AddressOrder(key)(x, y) || AddressOrder(key)(y, x)
    {
      var i :| 0 <= i < |a| && a[i] == x;
      var j :| 0 <= j < |a| && a[j] == y;
      LessIsTotal(key(x).address, key(y).address);
    }
    SortedUnique(AddressOrder(key), ByAddress(key, a), ByAddress(key, b));
  }
}
