/** Pouring an amount into a row of buckets: what shifting and fitting requests come to. */
module Pour {
  import opened Coins

  type Row = seq<nat>

  ghost function RowSum(row: Row): nat
  {
    if row == [] then 0 else row[0] + RowSum(row[1..])
  }

  /** Fills the buckets from the front until the amount is used up. */
  function FillFront(caps: Row, amount: nat): (row: Row)
    ensures |row| == |caps|
    decreases caps
  {
    if caps == [] then [] else [Min(caps[0], amount)] + FillFront(caps[1..], amount - Min(caps[0], amount))
  }

  /** Lets what exceeds a bucket run over into the next one; the second part runs over the last. */
  function RunOver(row: Row, caps: Row, carry: nat): (r: (Row, nat))
    requires |row| == |caps|
    ensures |r.0| == |row|
    decreases row
  {
    if row == [] then ([], carry)
    else
      var kept := Min(row[0] + carry, caps[0]);
      var (rest, over) := RunOver(row[1..], caps[1..], row[0] + carry - kept);
      ([kept] + rest, over)
  }

  /** What runs over the last bucket goes round to the first one once. */
  function RunRound(row: Row, caps: Row): (r: Row)
    requires |row| == |caps|
    ensures |r| == |row|
  {
    var (once, over) := RunOver(row, caps, 0);
    RunOver(once, caps, over).0
  }

  // ----- Filling from the front -----

  /** No bucket overflows, and one stays short only if everything after it is empty. */
  ghost predicate FrontFirst(row: Row, caps: Row)
    requires |row| == |caps|
  {
    && (forall i :: 0 <= i < |row| ==> row[i] <= caps[i])
    && (forall i, k :: 0 <= i < k < |row| && row[i] < caps[i] ==> row[k] == 0)
  }

  lemma {:induction false} EmptySum(row: Row)
    requires forall k :: 0 <= k < |row| ==> row[k] == 0
    ensures RowSum(row) == 0
  {
    if row == [] {
    } else {
      EmptySum(row[1..]);
    }
  }

  /** There is one way of filling from the front. */
  lemma {:induction false} FrontFirstIsFill(row: Row, caps: Row)
    requires |row| == |caps| && FrontFirst(row, caps)
    ensures row == FillFront(caps, RowSum(row))
    decreases row
  {
    if row == [] {
    } else {
      assert FrontFirst(row[1..], caps[1..]) by {
        forall i, k | 0 <= i < k < |row[1..]| && row[1..][i] < caps[1..][i] ensures row[1..][k] == 0 {
          assert row[i + 1] < caps[i + 1];
          assert row[k + 1] == 0;
        }
      }
      FrontFirstIsFill(row[1..], caps[1..]);
      if row[0] < caps[0] {
        forall k | 0 <= k < |row[1..]| ensures row[1..][k] == 0 { assert row[k + 1] == 0; }
        EmptySum(row[1..]);
      }
    }
  }

  // ----- Running over -----

  ghost predicate Within(row: Row, caps: Row)
    requires |row| == |caps|
  {
    forall i :: 0 <= i < |row| ==> row[i] <= caps[i]
  }

  /** What fits stays as it is. */
  lemma {:induction false} FittingStays(row: Row, caps: Row)
    requires |row| == |caps| && Within(row, caps)
    ensures RunOver(row, caps, 0) == (row, 0)
    decreases row
  {
    if row == [] {
    } else {
      forall i | 0 <= i < |row[1..]| ensures row[1..][i] <= caps[1..][i] { assert row[i + 1] <= caps[i + 1]; }
      FittingStays(row[1..], caps[1..]);
      assert row == [row[0]] + row[1..];
    }
  }

  /** Nothing is lost, and every bucket fits afterwards. */
  lemma {:induction false} RunOverLaw(row: Row, caps: Row, carry: nat)
    requires |row| == |caps|
    ensures var (r, over) := RunOver(row, caps, carry);
            && RowSum(r) + over == RowSum(row) + carry
            && Within(r, caps)
    decreases row
  {
    if row == [] {
    } else {
      var kept := Min(row[0] + carry, caps[0]);
      var (rest, over) := RunOver(row[1..], caps[1..], row[0] + carry - kept);
      RunOverLaw(row[1..], caps[1..], row[0] + carry - kept);
      var r := [kept] + rest;
      assert r[1..] == rest;
    }
  }

  /** A carry is as good as an amount that is already in the first bucket. */
  lemma CarryIsIn(row: Row, caps: Row, carry: nat)
    requires |row| == |caps| && row != []
    ensures RunOver(row, caps, carry) == RunOver(row[0 := row[0] + carry], caps, 0)
  {
    assert row[0 := row[0] + carry][1..] == row[1..];
  }

  lemma RunRoundFits(row: Row, caps: Row)
    requires |row| == |caps| && Within(row, caps)
    ensures RunRound(row, caps) == row
  {
    FittingStays(row, caps);
  }
}
