/** Sums over a list, and their independence of its arrangement. */
module Sums {

  ghost function SumBy<T>(f: T -> int, s: seq<T>): int
  {
    if s == [] then 0 else f(s[0]) + SumBy(f, s[1..])
  }

  lemma {:induction false} SumByConcat<T>(f: T -> int, s: seq<T>, t: seq<T>)
    ensures SumBy(f, s + t) == SumBy(f, s) + SumBy(f, t)
  {
    if s == [] {
      assert s + t == t;
    } else {
      assert (s + t)[1..] == s[1..] + t;
      SumByConcat(f, s[1..], t);
    }
  }

  lemma SumByRemove<T>(f: T -> int, s: seq<T>, i: nat)
    requires i < |s|
    ensures SumBy(f, s) == f(s[i]) + SumBy(f, s[..i] + s[i + 1..])
  {
    var a, b := s[..i], s[i + 1..];
    assert s == a + ([s[i]] + b) && ([s[i]] + b)[1..] == b;
    SumByConcat(f, a, [s[i]] + b);
    SumByConcat(f, a, b);
  }

  lemma SumByUpdate<T>(f: T -> int, s: seq<T>, i: nat, x: T)
    requires i < |s|
    ensures SumBy(f, s[i := x]) == SumBy(f, s) - f(s[i]) + f(x)
  {
    SumByRemove(f, s, i);
    SumByRemove(f, s[i := x], i);
    assert s[i := x][..i] + s[i := x][i + 1..] == s[..i] + s[i + 1..];
  }

  lemma {:induction false} SumByZero<T>(f: T -> int, s: seq<T>)
    requires forall x :: x in s ==> f(x) == 0
    ensures SumBy(f, s) == 0
  {
    if s == [] {
    } else {
      SumByZero(f, s[1..]);
    }
  }

  lemma SumByOne<T>(f: T -> int, x: T)
    ensures SumBy(f, [x]) == f(x)
  {
    assert SumBy(f, []) == 0;
  }

  /** Taking one element out of a list takes it out of the multiset. */
  lemma Removed<T>(s: seq<T>, i: nat)
    requires i < |s|
    ensures multiset(s[..i] + s[i + 1..]) == multiset(s) - multiset{s[i]}
  {
    assert s == s[..i] + ([s[i]] + s[i + 1..]);
  }

  lemma RemovedHead<T>(s: seq<T>)
    requires s != []
    ensures multiset(s[1..]) == multiset(s) - multiset{s[0]}
  {
    assert s == [s[0]] + s[1..];
  }

  lemma Find<T>(t: seq<T>, x: T) returns (j: nat)
    requires x in multiset(t)
    ensures j < |t| && t[j] == x
  {
    j :| 0 <= j < |t| && t[j] == x;
  }

  /** Where the head of a list stands in an arrangement of it, and that the rests are arrangements too. */
  lemma FindHead<T>(s: seq<T>, t: seq<T>) returns (j: nat)
    requires multiset(s) == multiset(t) && s != []
    ensures j < |t| && t[j] == s[0]
    ensures multiset(s[1..]) == multiset(t[..j] + t[j + 1..])
  {
    j := Find(t, s[0]);
    Removed(t, j);
    RemovedHead(s);
  }

  lemma {:induction false} SumByPermutation<T>(f: T -> int, s: seq<T>, t: seq<T>)
    requires multiset(s) == multiset(t)
    ensures SumBy(f, s) == SumBy(f, t)
    decreases s
  {
    if s == [] {
      assert |multiset(t)| == 0;
    } else {
      var j := FindHead(s, t);
      SumByRemove(f, t, j);
      SumByPermutation(f, s[1..], t[..j] + t[j + 1..]);
    }
  }

  lemma {:induction false} SumByMonotone<T>(f: T -> int, g: T -> int, s: seq<T>)
    requires forall x :: x in s ==> f(x) <= g(x)
    ensures SumBy(f, s) <= SumBy(g, s)
  {
    if s == [] {
    } else {
      SumByMonotone(f, g, s[1..]);
    }
  }

  // ----- Lists without repetitions of a feature -----

  ghost predicate DistinctBy<T, K>(f: T -> K, s: seq<T>)
  {
    forall i, j :: 0 <= i < j < |s| ==> f(s[i]) != f(s[j])
  }

  lemma {:induction false} DistinctByOnce<T, K>(f: T -> K, s: seq<T>, x: T)
    requires DistinctBy(f, s)
    ensures multiset(s)[x] <= 1
  {
    if s == [] {
    } else {
      assert s == [s[0]] + s[1..];
      DistinctByOnce(f, s[1..], x);
      forall j | 0 <= j < |s[1..]| ensures s[1..][j] != s[0] {
        assert f(s[0]) != f(s[j + 1]);
      }
      assert s[0] !in multiset(s[1..]);
    }
  }

  lemma DistinctByTail<T, K>(f: T -> K, s: seq<T>)
    requires DistinctBy(f, s) && s != []
    ensures DistinctBy(f, s[1..])
  {
    forall i, j | 0 <= i < j < |s[1..]| ensures f(s[1..][i]) != f(s[1..][j]) {
      assert f(s[i + 1]) != f(s[j + 1]);
    }
  }

  /** The head of a list stays apart from any selection of its tail. */
  lemma DistinctByHead<T, K>(f: T -> K, s: seq<T>, t: seq<T>)
    requires DistinctBy(f, s) && DistinctBy(f, t) && s != [] && forall x :: x in t ==> x in s[1..]
    ensures DistinctBy(f, [s[0]] + t)
  {
    forall i | 0 <= i < |t| ensures f(s[0]) != f(t[i]) {
      assert t[i] in t;
      var k :| 0 <= k < |s[1..]| && s[1..][k] == t[i];
      assert f(s[0]) != f(s[k + 1]);
    }
  }

  lemma RepeatCounts<T>(s: seq<T>, i: nat, j: nat)
    requires i < j < |s| && s[i] == s[j]
    ensures multiset(s)[s[i]] >= 2
  {
    assert s == s[..i] + [s[i]] + s[i + 1..j] + [s[j]] + s[j + 1..];
  }

  lemma SameFeatureSameElement<T, K>(f: T -> K, s: seq<T>, x: T, y: T)
    requires DistinctBy(f, s) && x in s && y in s
    ensures f(x) == f(y) ==> x == y
  {
    var a :| 0 <= a < |s| && s[a] == x;
    var b :| 0 <= b < |s| && s[b] == y;
    if a < b {
      assert f(s[a]) != f(s[b]);
    } else if b < a {
      assert f(s[b]) != f(s[a]);
    }
  }

  lemma DistinctByPermutation<T, K>(f: T -> K, s: seq<T>, t: seq<T>)
    requires multiset(s) == multiset(t) && DistinctBy(f, s)
    ensures DistinctBy(f, t)
  {
    forall i, j | 0 <= i < j < |t| ensures f(t[i]) != f(t[j]) {
      DistinctByOnce(f, s, t[i]);
      assert t[i] in multiset(s) && t[j] in multiset(s);
      if f(t[i]) == f(t[j]) {
        SameFeatureSameElement(f, s, t[i], t[j]);
        RepeatCounts(t, i, j);
      }
    }
  }
}
