/**
 Airdrop claims: claim_handler.go, claim_record.go and zonedrop.go of x/airdrop/keeper.
 Times are in nanoseconds, weights are 18-decimal numbers.
 */
module Airdrop {
  import D = Dec
  import opened Words

  const ACTION_NAMES: seq<string> := [
    "ActionInitialClaim", "ActionDepositT1", "ActionDepositT2", "ActionDepositT3", "ActionDepositT4",
    "ActionDepositT5", "ActionStakeQCK", "ActionSignalIntent", "ActionQSGov", "ActionGbP", "ActionOsmosis"]

  const ACTIONS: nat := |ACTION_NAMES|

  const INITIAL_CLAIM := 0
  const DEPOSIT_T1 := 1
  const DEPOSIT_T5 := 5
  const GBP := 9

  datatype ZoneDrop = ZoneDrop(chainId: string, startTime: int, duration: int, decay: int, allocation: nat,
                               actions: seq<int>)

  datatype CompletedAction = CompletedAction(time: int, amount: nat)

  type Completed = map<int, CompletedAction>

  datatype ClaimRecord = ClaimRecord(chainId: string, address: string, completed: Completed, maxAllocation: nat,
                                     baseValue: nat)

  /** A claimable amount, or one of the errors and panics that end the claim. */
  datatype Amount = Amount(n: nat) | Failed

  // ----- Arithmetic of a claim -----

  predicate IsActive(zd: ZoneDrop, time: int)
  {
    zd.startTime <= time && time <= zd.startTime + zd.duration + zd.decay
  }

  predicate IsExpired(zd: ZoneDrop, time: int) { time > zd.startTime + zd.duration + zd.decay }

  /** The share of the maximum allocation that a weight gives, before decay. */
  function Share(weight: int, max: int): int { D.TruncateInt(D.MulInt(weight, ToInt64(max))) }

  /** The fraction of the decay time that is left, as an 18-decimal number. */
  function Remaining(zd: ZoneDrop, time: int): int
    requires zd.decay != 0
  {
    D.ONE - D.QuoInt64(D.ToDec(time - (zd.startTime + zd.duration)), zd.decay)
  }

  /** GetClaimableAmountForAction, for a record and a zone drop that were found. */
  function Claimable(zd: ZoneDrop, r: ClaimRecord, action: int, time: int): Amount
  {
    if !(0 <= action < ACTIONS) || action in r.completed || IsExpired(zd, time) || action >= |zd.actions| then Failed
    else
      var share := Share(zd.actions[action], r.maxAllocation);
      if !FitsInt64(share) then Failed
      else if time < zd.startTime + zd.duration then Amount(ToUint64(share))
      else if zd.decay == 0 then Failed
      else
        var n := D.TruncateInt(D.MulInt(Remaining(zd, time), share));
        if FitsInt64(n) then Amount(ToUint64(n)) else Failed
  }

  /** Addition of uint64 values. */
  function Add64(x: nat, y: nat): (sum: nat)
    ensures sum < TWO64
  {
    (x + y) % TWO64
  }

  function WithCompleted(r: ClaimRecord, a: int, time: int, n: nat): ClaimRecord
  {
    r.(completed := r.completed[a := CompletedAction(time, n)])
  }

  /** Completes the open tiers from a up to `action`; amounts come from the stored record. */
  function CompleteTiers(zd: ZoneDrop, stored: ClaimRecord, r: ClaimRecord, a: int, action: int, time: int, sum: nat)
    : (Amount, ClaimRecord)
    decreases action - a
  {
    if a > action then (Amount(sum), r)
    else if a in r.completed then CompleteTiers(zd, stored, r, a + 1, action, time, sum)
    else match Claimable(zd, stored, a, time) {
      case Failed => (Failed, r)
      case Amount(n) =>
        CompleteTiers(zd, stored, WithCompleted(r, a, time, n), a + 1, action, time, Add64(sum, n))
    }
  }

  /** getClaimAmountAndUpdateRecord: a deposit tier above the first claims the open tiers below it too. */
  function Complete(zd: ZoneDrop, r: ClaimRecord, action: int, time: int): (Amount, ClaimRecord)
  {
    if DEPOSIT_T1 < action <= DEPOSIT_T5 then CompleteTiers(zd, r, r, DEPOSIT_T1, action, time, 0)
    else match Claimable(zd, r, action, time) {
      case Failed => (Failed, r)
      case Amount(n) => (Amount(n), WithCompleted(r, action, time, n))
    }
  }

  // ----- Deposits -----

  function Threshold(tier: int): int
    requires DEPOSIT_T1 <= tier <= DEPOSIT_T5
  {
    [5, 10, 15, 22, 30][tier - 1] * (D.ONE / 100)
  }

  predicate VerifyDeposit(deposited: nat, baseValue: nat, threshold: int)
  {
    deposited >= D.TruncateInt(D.MulInt(threshold, ToInt64(baseValue)))
  }

  lemma ThresholdsRise(low: int, high: int)
    requires DEPOSIT_T1 <= low <= high <= DEPOSIT_T5
    ensures 0 <= Threshold(low) <= Threshold(high) <= D.ONE
  {
  }

  lemma LowerThreshold(b: int, s: int, t: int, deposited: nat)
    requires 0 <= s <= t && deposited >= D.TruncateInt(t * b)
    ensures deposited >= D.TruncateInt(s * b)
  {
    D.TruncateBounds(s * b);
    D.TruncateBounds(t * b);
    if b >= 0 {
      D.MulMono(s, t, b);
      D.MulNonNeg(s, b);
    } else {
      D.MulNonNeg(s, -b);
      assert s * -b == -(s * b);
    }
  }

  /** A deposit that passes a tier passes every lower one, for every 64-bit base value. */
  lemma LowerTiersVerify(deposited: nat, baseValue: nat, low: int, high: int)
    requires baseValue < TWO64 && DEPOSIT_T1 <= low <= high <= DEPOSIT_T5
    requires VerifyDeposit(deposited, baseValue, Threshold(high))
    ensures VerifyDeposit(deposited, baseValue, Threshold(low))
  {
    ThresholdsRise(low, high);
    LowerThreshold(ToInt64(baseValue), Threshold(low), Threshold(high), deposited);
  }

  function Percent(tier: int): int
    requires DEPOSIT_T1 <= tier <= DEPOSIT_T5
  {
    if tier == 1 then 5 else if tier == 2 then 10 else if tier == 3 then 15 else if tier == 4 then 22 else 30
  }

  /**
   A deposit passes a tier if and only if, rounded up by a unit, it exceeds 5, 10, 15, 22 or 30
   percent of the base value. A base value from 2^63 on is read as negative, and everything passes.
   */
  lemma DepositPassesExactly(deposited: nat, baseValue: nat, tier: int)
    requires baseValue < TWO64 && DEPOSIT_T1 <= tier <= DEPOSIT_T5
    ensures baseValue < TWO63 ==>
              (VerifyDeposit(deposited, baseValue, Threshold(tier))
               <==> 100 * (deposited + 1) > Percent(tier) * baseValue)
    ensures baseValue >= TWO63 ==> VerifyDeposit(deposited, baseValue, Threshold(tier))
  {
    hide D.TruncateInt, Percent, Threshold;
    var b, p := ToInt64(baseValue), Percent(tier);
    assert Threshold(tier) == D.ONE / 100 * p by { TierPercent(tier); }
    assert D.ONE / 100 * p * b == D.ONE / 100 * (p * b);
    HundredthsOf(p * b);
    D.MulNonNeg(p, if b >= 0 then b else -b) by { TierPercent(tier); }
  }

  /** No deposit at all passes the first tier of a base value of 19, although 5 percent of it are more than nothing. */
  lemma ShortDepositPasses()
    ensures 100 * 0 < Percent(DEPOSIT_T1) * 19 && VerifyDeposit(0, 19, Threshold(DEPOSIT_T1))
  {
    hide VerifyDeposit;
    DepositPassesExactly(0, 19, DEPOSIT_T1);
  }

  lemma TierPercent(tier: int)
    requires DEPOSIT_T1 <= tier <= DEPOSIT_T5
    ensures Threshold(tier) == D.ONE / 100 * Percent(tier) && Percent(tier) >= 0
  {
  }

  lemma HundredthsOf(x: int)
    ensures var n := D.TruncateInt(D.ONE / 100 * x);
            (x >= 0 ==> 100 * n <= x < 100 * n + 100) && (x <= 0 ==> n <= 0)
  {
    D.TruncateBounds(D.ONE / 100 * x);
  }

  // ----- One claim on one record -----

  /** What the claim depends on besides the store: foreign checks and the sum of deposits. */
  datatype Env = Env(time: int, verified: bool, deposited: nat)

  predicate Verified(r: ClaimRecord, action: int, env: Env)
  {
    if action == INITIAL_CLAIM then true
    else if DEPOSIT_T1 <= action <= DEPOSIT_T5 then VerifyDeposit(env.deposited, r.baseValue, Threshold(action))
    else env.verified
  }

  /** HandleClaim up to the payment: the amount and the new record. */
  function HandleClaim(zd: ZoneDrop, r: ClaimRecord, action: int, env: Env): (Amount, ClaimRecord)
  {
    if action in r.completed || !(0 <= action < ACTIONS) || action == GBP || !Verified(r, action, env) then (Failed, r)
    else Complete(zd, r, action, env.time)
  }

  // ----- Sums over the actions -----

  ghost function ClaimedTo(c: Completed, k: nat): nat
  {
    if k == 0 then 0 else ClaimedTo(c, k - 1) + (if k - 1 in c then c[k - 1].amount else 0)
  }

  /** The sum of a record's completed claims. */
  ghost function Claimed(r: ClaimRecord): nat { ClaimedTo(r.completed, ACTIONS) }

  /** The actions that a claim can complete: those with a weight and a handler. */
  predicate Handled(zd: ZoneDrop, a: int) { 0 <= a < ACTIONS && a < |zd.actions| && a != GBP }

  function ShareOf(zd: ZoneDrop, r: ClaimRecord, a: int): int
    requires 0 <= a < |zd.actions|
  {
    Share(zd.actions[a], r.maxAllocation)
  }

  /** The share of an action fits an int64; otherwise the claim panics. */
  predicate Fits(zd: ZoneDrop, r: ClaimRecord, a: int) { 0 <= a < |zd.actions| && FitsInt64(ShareOf(zd, r, a)) }

  /** An open action that a claim can complete: its share fits, and so do those of the open tiers below a tier. */
  ghost predicate Reach(zd: ZoneDrop, r: ClaimRecord, a: int)
  {
    && Handled(zd, a) && a !in r.completed && Fits(zd, r, a)
    && (DEPOSIT_T1 < a <= DEPOSIT_T5 ==> forall b :: DEPOSIT_T1 <= b < a && b !in r.completed ==> Fits(zd, r, b))
  }

  /** What an action within reach brings before the decay: its share as a uint64, also when that is negative. */
  ghost function Open(zd: ZoneDrop, r: ClaimRecord, a: int): nat
  {
    if Reach(zd, r, a) then ToUint64(ShareOf(zd, r, a)) else 0
  }

  ghost function OpenTo(zd: ZoneDrop, r: ClaimRecord, k: nat): nat
  {
    if k == 0 then 0 else OpenTo(zd, r, k - 1) + Open(zd, r, k - 1)
  }

  /** What is claimed already and what can still be claimed. */
  ghost function Potential(zd: ZoneDrop, r: ClaimRecord): nat { Claimed(r) + OpenTo(zd, r, ACTIONS) }

  /** What ValidateBasic asks of the times of a zone drop. */
  predicate Timed(zd: ZoneDrop) { zd.duration >= 0 && zd.decay > 0 }

  ghost predicate NonNegativeOpen(zd: ZoneDrop, r: ClaimRecord)
  {
    forall a :: Reach(zd, r, a) ==> ShareOf(zd, r, a) >= 0
  }

  ghost function WeightTo(zd: ZoneDrop, k: nat): int
  {
    if k == 0 then 0 else WeightTo(zd, k - 1) + (if Handled(zd, k - 1) then zd.actions[k - 1] else 0)
  }

  ghost predicate NonNegativeWeights(zd: ZoneDrop) { forall a :: Handled(zd, a) ==> zd.actions[a] >= 0 }

  /** The weights of the handled actions are not negative and sum to at most one. */
  ghost predicate SafeDrop(zd: ZoneDrop)
  {
    Timed(zd) && NonNegativeWeights(zd) && WeightTo(zd, ACTIONS) <= D.ONE
  }

  // ----- One amount -----

  /** A share is the weight's part of the maximum allocation, rounded down, for maxima below 2^63. */
  lemma ShareIsFloor(weight: nat, max: nat)
    requires max < TWO63
    ensures D.ONE * Share(weight, max) <= weight * max < D.ONE * Share(weight, max) + D.ONE
  {
    D.MulNonNeg(weight, max);
    D.TruncateBounds(weight * max);
  }

  lemma DecayFits(zd: ZoneDrop, time: int)
    requires zd.decay > 0 && !IsExpired(zd, time) && time >= zd.startTime + zd.duration
    ensures 0 <= Remaining(zd, time) <= D.ONE
    ensures time == zd.startTime + zd.duration ==> Remaining(zd, time) == D.ONE
  {
    var elapsed := time - (zd.startTime + zd.duration);
    D.DivBounds(elapsed * D.ONE, zd.decay);
    var q := elapsed * D.ONE / zd.decay;
    AtMostOne(elapsed, zd.decay, q);
  }

  lemma AtMostOne(elapsed: int, decay: int, q: int)
    requires 0 <= elapsed <= decay && decay > 0 && decay * q <= elapsed * D.ONE < decay * q + decay
    ensures 0 <= q <= D.ONE && (elapsed == 0 ==> q == 0)
  {
    assert decay * q == q * decay;
    if q > D.ONE {
      D.MulMono(D.ONE + 1, q, decay);
    } else if q < 0 {
      D.MulMono(q, -1, decay);
    } else if q > 0 {
      D.MulMono(1, q, decay);
    }
  }

  /** A fraction of a share lies between nothing and the share, on either side of zero. */
  lemma ScaledFits(fraction: int, share: int)
    requires 0 <= fraction <= D.ONE
    ensures share >= 0 ==> 0 <= D.TruncateInt(fraction * share) <= share
    ensures share < 0 ==> share <= D.TruncateInt(fraction * share) <= 0
    ensures fraction == D.ONE ==> D.TruncateInt(fraction * share) == share
  {
    D.TruncateBounds(fraction * share);
    if share >= 0 {
      D.MulNonNeg(fraction, share);
      D.MulMono(fraction, D.ONE, share);
    } else {
      D.MulNonNeg(fraction, -share);
      D.MulMono(fraction, D.ONE, -share);
      assert fraction * -share == -(fraction * share);
    }
  }

  /**
   What a claim brings, for every drop and every maximum: at most the share when that is not
   negative, nothing or more than 2^64 less its size when it is, and the share itself, as a
   uint64, until the decay starts.
   */
  lemma ClaimableWithinShare(zd: ZoneDrop, r: ClaimRecord, a: int, time: int)
    requires Timed(zd)
    ensures var c := Claimable(zd, r, a, time);
            c.Amount? ==>
              && 0 <= a < ACTIONS && a < |zd.actions| && a !in r.completed && c.n < TWO64
              && var share := ShareOf(zd, r, a);
              && Fits(zd, r, a)
              && (share >= 0 ==> c.n <= share)
              && (share < 0 ==> c.n == 0 || c.n >= TWO64 + share)
    ensures 0 <= a < ACTIONS && a !in r.completed && Fits(zd, r, a) && time <= zd.startTime + zd.duration ==>
              Claimable(zd, r, a, time) == Amount(ToUint64(ShareOf(zd, r, a)))
  {
    hide Share, Remaining, D.TruncateInt;
    if 0 <= a < |zd.actions| && zd.startTime + zd.duration <= time && !IsExpired(zd, time) {
      DecayFits(zd, time);
      ScaledFits(Remaining(zd, time), ShareOf(zd, r, a));
    }
  }

  // ----- The decay -----

  /** The fraction left is the time left over the decay time, rounded up at the last decimal. */
  lemma RemainingNear(zd: ZoneDrop, time: int)
    requires zd.decay > 0 && !IsExpired(zd, time) && time >= zd.startTime + zd.duration
    ensures var left := zd.startTime + zd.duration + zd.decay - time;
            D.ONE * left <= zd.decay * Remaining(zd, time) < D.ONE * left + zd.decay
  {
    var elapsed := time - (zd.startTime + zd.duration);
    D.DivBounds(elapsed * D.ONE, zd.decay);
    var q := elapsed * D.ONE / zd.decay;
    assert zd.decay * (D.ONE - q) == zd.decay * D.ONE - zd.decay * q;
  }

  lemma ScaledNear(fraction: int, share: nat, left: nat, decay: nat, n: int)
    requires D.ONE * left <= decay * fraction <= D.ONE * left + decay
    requires D.ONE * n <= fraction * share < D.ONE * n + D.ONE && decay > 0
    ensures D.ONE * decay * n <= share * (D.ONE * left + decay)
    ensures decay * (n + 1) > share * left
  {
    var f := fraction * share;
    D.MulMono(decay * fraction, D.ONE * left + decay, share);
    D.MulMono(D.ONE * left, decay * fraction, share);
    assert decay * fraction * share == decay * f;
    D.MulMono(D.ONE * n, f, decay);
    D.MulMono(f + 1, D.ONE * n + D.ONE, decay);
    assert f * decay == decay * f && (f + 1) * decay == decay * f + decay;
    assert D.ONE * n * decay == D.ONE * decay * n && (D.ONE * n + D.ONE) * decay == D.ONE * (decay * (n + 1));
    assert D.ONE * left * share == D.ONE * (share * left);
    assert (D.ONE * left + decay) * share == share * (D.ONE * left + decay);
  }

  /**
   During the decay a claim brings the share times the part of the decay time that is left,
   rounded down, and nothing at the end of it.
   */
  lemma ClaimableDecays(zd: ZoneDrop, r: ClaimRecord, a: int, time: int)
    requires Timed(zd) && 0 <= a < ACTIONS && a !in r.completed && Fits(zd, r, a) && ShareOf(zd, r, a) >= 0
    requires zd.startTime + zd.duration <= time <= zd.startTime + zd.duration + zd.decay
    ensures var share, left := ShareOf(zd, r, a), zd.startTime + zd.duration + zd.decay - time;
            var c := Claimable(zd, r, a, time);
            && c.Amount?
            && D.ONE * zd.decay * c.n <= share * (D.ONE * left + zd.decay)
            && zd.decay * (c.n + 1) > share * left
            && (left == 0 ==> c.n == 0)
  {
    hide Share, Remaining, D.TruncateInt;
    var share, left, f := ShareOf(zd, r, a), zd.startTime + zd.duration + zd.decay - time, Remaining(zd, time);
    DecayFits(zd, time);
    ScaledFits(f, share);
    RemainingNear(zd, time);
    D.MulNonNeg(f, share);
    D.TruncateBounds(f * share);
    ScaledNear(f, share, left, zd.decay, D.TruncateInt(f * share));
    if left == 0 { NothingRemains(zd.decay, f, share); }
  }

  lemma NothingRemains(decay: int, fraction: int, share: int)
    requires decay > 0 && 0 <= decay * fraction < decay
    ensures fraction * share == 0 && D.TruncateInt(fraction * share) == 0
  {
    if fraction >= 1 { D.MulMono(1, fraction, decay); } else if fraction <= -1 { D.MulMono(fraction, -1, decay); }
    assert fraction * decay == decay * fraction;
    assert fraction == 0;
  }

  lemma RemainingFalls(zd: ZoneDrop, early: int, late: int)
    requires zd.decay > 0 && zd.startTime + zd.duration <= early <= late && !IsExpired(zd, late)
    ensures Remaining(zd, late) <= Remaining(zd, early)
  {
    hide Remaining;
    RemainingNear(zd, early);
    RemainingNear(zd, late);
    var x, y := Remaining(zd, early), Remaining(zd, late);
    RemainingOrder(zd.decay, x, y, zd.startTime + zd.duration + zd.decay - early,
                   zd.startTime + zd.duration + zd.decay - late);
  }

  lemma RemainingOrder(decay: int, x: int, y: int, more: int, less: int)
    requires decay > 0 && less <= more && D.ONE * more <= decay * x && decay * y < D.ONE * less + decay
    ensures y <= x
  {
    assert decay * y == y * decay && decay * x == x * decay;
    if y >= x + 1 {
      D.MulMono(x + 1, y, decay);
      D.Distribute(x, 1, decay);
    }
  }

  /** Waiting never brings more. */
  lemma ClaimableNeverRises(zd: ZoneDrop, r: ClaimRecord, a: int, early: int, late: int)
    requires Timed(zd) && early <= late && Claimable(zd, r, a, late).Amount? && ShareOf(zd, r, a) >= 0
    ensures Claimable(zd, r, a, early).Amount?
    ensures Claimable(zd, r, a, late).n <= Claimable(zd, r, a, early).n
  {
    hide Share, Remaining, D.TruncateInt;
    ClaimableWithinShare(zd, r, a, early);
    ClaimableWithinShare(zd, r, a, late);
    if zd.startTime + zd.duration <= early {
      var x, y, share := Remaining(zd, early), Remaining(zd, late), ShareOf(zd, r, a);
      DecayFits(zd, early);
      DecayFits(zd, late);
      ScaledFits(x, share);
      ScaledFits(y, share);
      RemainingFalls(zd, early, late);
      D.MulMono(y, x, share);
      D.MulNonNeg(y, share);
      TruncateMono(y * share, x * share);
    }
  }

  lemma TruncateMono(x: nat, y: nat)
    requires x <= y
    ensures D.TruncateInt(x) <= D.TruncateInt(y)
  {
    D.TruncateBounds(x);
    D.TruncateBounds(y);
  }

  /** There is something to claim for an open action until the drop expires, unless its share does not fit an int64. */
  lemma ClaimableExactly(zd: ZoneDrop, r: ClaimRecord, a: int, time: int)
    requires Timed(zd)
    ensures Claimable(zd, r, a, time).Amount?
       <==> 0 <= a < ACTIONS && a !in r.completed && !IsExpired(zd, time) && Fits(zd, r, a)
  {
    hide Share, Remaining, D.TruncateInt;
    if 0 <= a < |zd.actions| && zd.startTime + zd.duration <= time && !IsExpired(zd, time) {
      DecayFits(zd, time);
      ScaledFits(Remaining(zd, time), ShareOf(zd, r, a));
    }
  }

  // ----- Completing an action -----

  lemma {:induction false} ClaimedToAdd(c: Completed, a: int, x: CompletedAction, k: nat)
    requires a !in c && a >= 0
    ensures ClaimedTo(c[a := x], k) == ClaimedTo(c, k) + (if a < k then x.amount else 0)
  {
    if k == 0 {
    } else {
      ClaimedToAdd(c, a, x, k - 1);
    }
  }

  /** Completing an action takes it out of reach, and nothing else in or out. */
  lemma ReachAfter(zd: ZoneDrop, r: ClaimRecord, a: int, x: CompletedAction, b: int)
    requires a !in r.completed && Fits(zd, r, a)
    ensures Reach(zd, r.(completed := r.completed[a := x]), b) <==> Reach(zd, r, b) && b != a
  {
    hide Share;
    var t := r.(completed := r.completed[a := x]);
    assert forall c :: Fits(zd, t, c) <==> Fits(zd, r, c);
  }

  lemma {:induction false} OpenToAdd(zd: ZoneDrop, r: ClaimRecord, a: int, x: CompletedAction, k: nat)
    requires a !in r.completed && Fits(zd, r, a)
    ensures OpenTo(zd, r.(completed := r.completed[a := x]), k)
        == OpenTo(zd, r, k) - (if a < k then Open(zd, r, a) else 0)
  {
    hide Share, ToUint64;
    if k == 0 {
    } else {
      OpenToAdd(zd, r, a, x, k - 1);
      ReachAfter(zd, r, a, x, k - 1);
      assert k - 1 != a && Reach(zd, r, k - 1)
          ==> ShareOf(zd, r.(completed := r.completed[a := x]), k - 1) == ShareOf(zd, r, k - 1);
    }
  }

  lemma CompleteOne(zd: ZoneDrop, r: ClaimRecord, a: int, x: CompletedAction)
    requires 0 <= a < ACTIONS && a !in r.completed && Fits(zd, r, a)
    ensures var t := r.(completed := r.completed[a := x]);
            && Claimed(t) == Claimed(r) + x.amount
            && OpenTo(zd, t, ACTIONS) == OpenTo(zd, r, ACTIONS) - Open(zd, r, a)
  {
    ClaimedToAdd(r.completed, a, x, ACTIONS);
    OpenToAdd(zd, r, a, x, ACTIONS);
  }

  lemma {:induction false} OpenAtLeast(zd: ZoneDrop, r: ClaimRecord, a: nat, k: nat)
    requires a < k
    ensures OpenTo(zd, r, k) >= Open(zd, r, a)
    decreases k
  {
    hide Open;
    if a == k - 1 {
    } else {
      OpenAtLeast(zd, r, a, k - 1);
    }
  }

  // ----- Safe drops -----

  lemma {:induction false} WeightsNonNegative(zd: ZoneDrop, k: nat)
    requires NonNegativeWeights(zd)
    ensures WeightTo(zd, k) >= 0
  {
    if k == 0 {
    } else {
      WeightsNonNegative(zd, k - 1);
    }
  }

  lemma {:induction false} WeightAtMostSum(zd: ZoneDrop, a: nat, k: nat)
    requires NonNegativeWeights(zd) && a < k && Handled(zd, a)
    ensures 0 <= zd.actions[a] <= WeightTo(zd, k)
    decreases k
  {
    if a < k - 1 {
      WeightAtMostSum(zd, a, k - 1);
    } else {
      WeightsNonNegative(zd, k - 1);
    }
  }

  lemma ShareFits(weight: int, max: nat)
    requires 0 <= weight <= D.ONE && max < TWO63
    ensures 0 <= Share(weight, max) <= max
    ensures D.ONE * Share(weight, max) <= weight * max
  {
    D.MulNonNeg(weight, max);
    D.TruncateBounds(weight * max);
    D.MulMono(weight, D.ONE, max);
  }

  /** A safe drop gives every handled action a share between nothing and the maximum. */
  lemma SafeShare(zd: ZoneDrop, r: ClaimRecord, a: int)
    requires SafeDrop(zd) && r.maxAllocation < TWO63 && Handled(zd, a)
    ensures 0 <= ShareOf(zd, r, a) <= r.maxAllocation
    ensures D.ONE * ShareOf(zd, r, a) <= zd.actions[a] * r.maxAllocation
  {
    WeightAtMostSum(zd, a, ACTIONS);
    ShareFits(zd.actions[a], r.maxAllocation);
  }

  lemma SafeIsCalm(zd: ZoneDrop, r: ClaimRecord)
    requires SafeDrop(zd) && r.maxAllocation < TWO63
    ensures NonNegativeOpen(zd, r)
  {
    hide Share;
    forall a | Reach(zd, r, a) ensures ShareOf(zd, r, a) >= 0 {
      SafeShare(zd, r, a);
    }
  }

  lemma {:induction false} OpenBound(zd: ZoneDrop, r: ClaimRecord, k: nat)
    requires SafeDrop(zd) && r.maxAllocation < TWO63
    ensures D.ONE * OpenTo(zd, r, k) <= WeightTo(zd, k) * r.maxAllocation
  {
    hide Share, SafeDrop, Fits;
    if k == 0 {
    } else {
      OpenBound(zd, r, k - 1);
      if Handled(zd, k - 1) {
        SafeShare(zd, r, k - 1);
        SafeWeight(zd, k - 1);
        D.MulNonNeg(zd.actions[k - 1], r.maxAllocation);
        D.Distribute(WeightTo(zd, k - 1), zd.actions[k - 1], r.maxAllocation);
      }
    }
  }

  lemma SafeWeight(zd: ZoneDrop, a: int)
    requires SafeDrop(zd) && Handled(zd, a)
    ensures zd.actions[a] >= 0
  {
  }

  /** The open shares of a safe drop together fit the maximum allocation. */
  lemma OpenWithinMax(zd: ZoneDrop, r: ClaimRecord)
    requires SafeDrop(zd) && r.maxAllocation < TWO63
    ensures OpenTo(zd, r, ACTIONS) <= r.maxAllocation
  {
    OpenBound(zd, r, ACTIONS);
    D.MulMono(WeightTo(zd, ACTIONS), D.ONE, r.maxAllocation);
  }

  // ----- One claim -----

  /** What completing actions does to a record: it keeps the old entries and everything else. */
  ghost predicate Extended(r: ClaimRecord, t: ClaimRecord)
  {
    && t == r.(completed := t.completed)
    && (forall a :: a in r.completed ==> a in t.completed && t.completed[a] == r.completed[a])
    && (forall a :: a in t.completed && a !in r.completed ==> 0 <= a < ACTIONS && a != GBP)
    && Claimed(t) >= Claimed(r)
  }

  /** The tier loop only looks at tiers of the stored record that the working copy has not touched. */
  ghost predicate Untouched(stored: ClaimRecord, r: ClaimRecord, from: int)
  {
    && stored == r.(completed := stored.completed)
    && forall a :: a >= from ==> (a in stored.completed <==> a in r.completed)
  }

  lemma SameClaimable(zd: ZoneDrop, stored: ClaimRecord, r: ClaimRecord, a: int, time: int)
    requires Untouched(stored, r, a)
    ensures Claimable(zd, stored, a, time) == Claimable(zd, r, a, time)
  {
  }

  lemma AddWraps(a: nat, b: nat, c: nat)
    ensures (Add64(a, b) + c) % TWO64 == (a + b + c) % TWO64
  {
  }

  /** A working copy in which exactly the open tiers from a to `action` were completed. */
  ghost predicate TiersDone(r: ClaimRecord, t: ClaimRecord, a: int, action: int)
  {
    && Extended(r, t)
    && (forall b :: a <= b <= action ==> b in t.completed)
    && (forall b :: b in t.completed && b !in r.completed ==> a <= b <= action)
  }

  lemma TiersStep(r: ClaimRecord, t: ClaimRecord, u: ClaimRecord, a: int, action: int, time: int, n: nat)
    requires 0 <= a <= action && a < ACTIONS && a != GBP && a !in r.completed && t == WithCompleted(r, a, time, n)
    requires Claimed(t) == Claimed(r) + n && TiersDone(t, u, a + 1, action)
    ensures TiersDone(r, u, a, action)
  {
    hide Claimed;
  }

  /**
   The tier loop, for every drop: it completes every tier it passes and nothing else, and pays
   the growth of the completed sum modulo 2^64.
   */
  lemma {:induction false} TiersLaw(zd: ZoneDrop, stored: ClaimRecord, r: ClaimRecord, a: int, action: int,
                                    time: int, sum: nat)
    requires Timed(zd) && DEPOSIT_T1 <= a <= action + 1 <= DEPOSIT_T5 + 1 && Untouched(stored, r, a) && sum < TWO64
    ensures var (c, t) := CompleteTiers(zd, stored, r, a, action, time, sum);
            c.Amount? ==> TiersDone(r, t, a, action) && c.n == (sum + (Claimed(t) - Claimed(r))) % TWO64
    decreases action - a
  {
    hide Claimable, Claimed, Add64, Extended;
    var c := Claimable(zd, stored, a, time);
    if a > action {
      Wrapped(sum);
      NothingCompleted(r);
    } else if a in r.completed {
      TiersLaw(zd, stored, r, a + 1, action, time, sum);
      TierPassed(r, CompleteTiers(zd, stored, r, a + 1, action, time, sum).1, a, action);
    } else if c.Amount? {
      var t, more := WithCompleted(r, a, time, c.n), Add64(sum, c.n);
      SameClaimable(zd, stored, r, a, time);
      ClaimableWithinShare(zd, r, a, time);
      CompleteOne(zd, r, a, CompletedAction(time, c.n));
      TiersLaw(zd, stored, t, a + 1, action, time, more);
      var (d, u) := CompleteTiers(zd, stored, t, a + 1, action, time, more);
      if d.Amount? {
        TiersStep(r, t, u, a, action, time, c.n);
        GrowthWraps(sum, c.n, Claimed(r), Claimed(t), Claimed(u)) by { Growth(t, u); }
      }
    }
  }

  lemma TierPassed(r: ClaimRecord, t: ClaimRecord, a: int, action: int)
    requires a in r.completed
    ensures TiersDone(r, t, a + 1, action) ==> TiersDone(r, t, a, action)
  {
    hide Claimed;
  }

  lemma Growth(t: ClaimRecord, u: ClaimRecord)
    requires Extended(t, u)
    ensures Claimed(u) >= Claimed(t)
  {
  }

  lemma NothingCompleted(r: ClaimRecord)
    ensures Extended(r, r)
  {
  }

  lemma GrowthWraps(sum: nat, n: nat, before: nat, after: nat, end: nat)
    requires after == before + n && end >= after
    ensures (Add64(sum, n) + (end - after)) % TWO64 == (sum + (end - before)) % TWO64
  {
    AddWraps(sum, n, end - after);
  }

  lemma Wrapped(n: nat)
    ensures n < TWO64 ==> n % TWO64 == n
  {
  }

  /** In a record whose tiers are closed, a completed tier has all lower tiers completed. */
  ghost predicate TiersClosed(c: Completed)
  {
    forall t :: DEPOSIT_T1 < t <= DEPOSIT_T5 && t in c ==> t - 1 in c
  }

  /**
   A successful claim, for every drop and record: it completes the action, keeps the tiers
   closed and all else of the record, and pays the growth of the completed sum modulo 2^64.
   */
  lemma ClaimLaw(zd: ZoneDrop, r: ClaimRecord, action: int, env: Env)
    requires Timed(zd)
    ensures var (c, t) := HandleClaim(zd, r, action, env);
            c.Amount? ==>
              && Extended(r, t) && action in t.completed
              && c.n == (Claimed(t) - Claimed(r)) % TWO64
              && (TiersClosed(r.completed) ==> TiersClosed(t.completed))
  {
    hide Claimable, Claimed;
    var (c, t) := HandleClaim(zd, r, action, env);
    if c.Amount? {
      if DEPOSIT_T1 < action <= DEPOSIT_T5 {
        TiersLaw(zd, r, r, DEPOSIT_T1, action, env.time, 0);
      } else {
        ClaimableWithinShare(zd, r, action, env.time);
        CompleteOne(zd, r, action, CompletedAction(env.time, c.n));
        Wrapped(c.n);
      }
    }
  }

  /** The completed actions of t that r has not: those in `new`, each with its time and amount. */
  ghost predicate Completes(zd: ZoneDrop, r: ClaimRecord, t: ClaimRecord, new': set<int>, time: int)
  {
    && t == r.(completed := t.completed)
    && (forall a :: a in t.completed <==> a in r.completed || a in new')
    && (forall a :: a in r.completed ==> a in t.completed && t.completed[a] == r.completed[a])
    && (forall a :: a in new' ==>
          && Claimable(zd, r, a, time).Amount?
          && a in t.completed && t.completed[a] == CompletedAction(time, Claimable(zd, r, a, time).n))
  }

  ghost function OpenTiers(r: ClaimRecord, low: int, high: int): set<int>
  {
    set a | low <= a <= high && a !in r.completed
  }

  lemma {:induction false} TiersExactly(zd: ZoneDrop, stored: ClaimRecord, r: ClaimRecord, a: int, action: int,
                                        time: int, sum: nat)
    requires Timed(zd) && DEPOSIT_T1 <= a <= action + 1 <= DEPOSIT_T5 + 1 && Untouched(stored, r, a)
    ensures var (c, t) := CompleteTiers(zd, stored, r, a, action, time, sum);
            && (c.Amount? <==> forall b :: b in OpenTiers(r, a, action) ==> Claimable(zd, r, b, time).Amount?)
            && (c.Amount? ==> Completes(zd, r, t, OpenTiers(r, a, action), time))
    decreases action - a
  {
    hide Claimable, Add64;
    if a > action {
    } else if a in r.completed {
      TiersExactly(zd, stored, r, a + 1, action, time, sum);
      assert OpenTiers(r, a, action) == OpenTiers(r, a + 1, action);
    } else {
      SameClaimable(zd, stored, r, a, time);
      var c := Claimable(zd, stored, a, time);
      assert a in OpenTiers(r, a, action);
      if c.Amount? {
        var t := WithCompleted(r, a, time, c.n);
        TiersExactly(zd, stored, t, a + 1, action, time, Add64(sum, c.n));
        assert OpenTiers(r, a, action) == OpenTiers(t, a + 1, action) + {a};
        forall b | b != a ensures Claimable(zd, t, b, time) == Claimable(zd, r, b, time) {
          OtherClaimable(zd, r, a, time, c.n, b);
        }
      }
    }
  }

  lemma OtherClaimable(zd: ZoneDrop, r: ClaimRecord, a: int, time: int, n: nat, b: int)
    requires a != b
    ensures Claimable(zd, WithCompleted(r, a, time, n), b, time) == Claimable(zd, r, b, time)
  {
    hide Share, Remaining, D.TruncateInt;
  }

  /** The actions that a claim completes: a deposit tier brings the open tiers below it along. */
  ghost function Brought(r: ClaimRecord, action: int): set<int>
  {
    if DEPOSIT_T1 < action <= DEPOSIT_T5 then OpenTiers(r, DEPOSIT_T1, action) else {action}
  }

  lemma VerifiedExactly(r: ClaimRecord, action: int, env: Env)
    ensures Verified(r, INITIAL_CLAIM, env)
    ensures action < INITIAL_CLAIM || action > DEPOSIT_T5 ==> (Verified(r, action, env) <==> env.verified)
    ensures DEPOSIT_T1 <= action <= DEPOSIT_T5 && r.baseValue < TWO63 ==>
              (Verified(r, action, env) <==> 100 * (env.deposited + 1) > Percent(action) * r.baseValue)
  {
    hide VerifyDeposit, Threshold, Percent;
    if DEPOSIT_T1 <= action <= DEPOSIT_T5 && r.baseValue < TWO63 {
      DepositPassesExactly(env.deposited, r.baseValue, action);
    }
  }

  /**
   A claim succeeds if and only if the action is within reach, is verified and the drop has not
   expired. It then completes the action, and for a deposit tier the open tiers below it, at the
   block's time and for what each of them could be claimed for by itself. Verified means nothing
   for the initial claim, enough deposits for a tier, and the check of the action for all others.
   */
  lemma ClaimExactly(zd: ZoneDrop, r: ClaimRecord, action: int, env: Env)
    requires Timed(zd)
    ensures var (c, t) := HandleClaim(zd, r, action, env);
            && (c.Amount? <==>
                  && Reach(zd, r, action) && Verified(r, action, env)
                  && env.time <= zd.startTime + zd.duration + zd.decay)
            && (c.Amount? ==> Completes(zd, r, t, Brought(r, action), env.time))
    ensures Verified(r, INITIAL_CLAIM, env)
    ensures action < INITIAL_CLAIM || action > DEPOSIT_T5 ==> (Verified(r, action, env) <==> env.verified)
    ensures DEPOSIT_T1 <= action <= DEPOSIT_T5 && r.baseValue < TWO63 ==>
              (Verified(r, action, env) <==> 100 * (env.deposited + 1) > Percent(action) * r.baseValue)
  {
    VerifiedExactly(r, action, env);
    hide Claimable, Share, FitsInt64, Verified;
    if DEPOSIT_T1 < action <= DEPOSIT_T5 {
      assert action !in r.completed ==> action in OpenTiers(r, DEPOSIT_T1, action);
      TiersExactly(zd, r, r, DEPOSIT_T1, action, env.time, 0);
      forall b ensures Claimable(zd, r, b, env.time).Amount?
                  <==> 0 <= b < ACTIONS && b !in r.completed && !IsExpired(zd, env.time) && Fits(zd, r, b)
      {
        ClaimableExactly(zd, r, b, env.time);
      }
    } else {
      ClaimableExactly(zd, r, action, env.time);
    }
  }

  /** The tiers a claim completes would all have been verified by themselves, for every drop. */
  lemma CompletedTiersVerify(zd: ZoneDrop, r: ClaimRecord, action: int, env: Env, tier: int)
    requires Timed(zd) && r.baseValue < TWO64
    requires var (c, t) := HandleClaim(zd, r, action, env);
             c.Amount? && tier in t.completed && tier !in r.completed && DEPOSIT_T1 <= tier <= DEPOSIT_T5
    ensures tier <= action <= DEPOSIT_T5
    ensures VerifyDeposit(env.deposited, r.baseValue, Threshold(tier))
  {
    hide Claimable, Claimed;
    if DEPOSIT_T1 < action <= DEPOSIT_T5 {
      TiersLaw(zd, r, r, DEPOSIT_T1, action, env.time, 0);
    }
    LowerTiersVerify(env.deposited, r.baseValue, tier, action);
  }

  // ----- What a record can reach -----

  /** Completing actions brings nothing new within reach. */
  ghost predicate Shrinks(zd: ZoneDrop, r: ClaimRecord, t: ClaimRecord)
  {
    && t.maxAllocation == r.maxAllocation
    && forall a :: Reach(zd, t, a) ==> Reach(zd, r, a)
  }

  lemma ShrinksNonNegative(zd: ZoneDrop, r: ClaimRecord, t: ClaimRecord)
    requires Shrinks(zd, r, t) && NonNegativeOpen(zd, r)
    ensures NonNegativeOpen(zd, t)
  {
    hide Share;
    forall a | Reach(zd, t, a) ensures ShareOf(zd, t, a) >= 0 {
      assert Reach(zd, r, a);
    }
  }

  lemma ShrinksTransitive(zd: ZoneDrop, r: ClaimRecord, t: ClaimRecord, u: ClaimRecord)
    requires Shrinks(zd, r, t) && Shrinks(zd, t, u)
    ensures Shrinks(zd, r, u)
  {
    hide Reach;
  }

  /** Completing an action within reach: with a share that is not negative it never raises the potential. */
  lemma CompleteClaimable(zd: ZoneDrop, r: ClaimRecord, a: int, time: int, n: nat)
    requires Timed(zd) && Claimable(zd, r, a, time) == Amount(n) && Reach(zd, r, a)
    ensures var t := WithCompleted(r, a, time, n);
            && Extended(r, t) && Shrinks(zd, r, t)
            && (ShareOf(zd, r, a) >= 0 ==> Potential(zd, t) <= Potential(zd, r))
            && (time <= zd.startTime + zd.duration ==> Potential(zd, t) == Potential(zd, r))
  {
    hide Claimable, Share, Claimed, OpenTo;
    var x := CompletedAction(time, n);
    ClaimableWithinShare(zd, r, a, time);
    CompleteOne(zd, r, a, x);
    forall b | Reach(zd, WithCompleted(r, a, time, n), b) ensures Reach(zd, r, b) {
      ReachAfter(zd, r, a, x, b);
    }
  }

  /** The tiers below a are completed. */
  ghost predicate Below(r: ClaimRecord, a: int) { forall b :: DEPOSIT_T1 <= b < a ==> b in r.completed }

  /** A tier whose lower tiers are completed is within reach when its share fits. */
  lemma TierInReach(zd: ZoneDrop, r: ClaimRecord, a: int)
    requires DEPOSIT_T1 <= a <= DEPOSIT_T5 && a !in r.completed && Below(r, a) && Fits(zd, r, a)
    ensures Reach(zd, r, a)
  {
    hide Share;
  }

  /** What the tier loop does to the reach and the potential of a record, for every drop. */
  ghost predicate LoopKeeps(zd: ZoneDrop, r: ClaimRecord, t: ClaimRecord)
  {
    Shrinks(zd, r, t) && (NonNegativeOpen(zd, r) ==> Potential(zd, t) <= Potential(zd, r))
  }

  lemma LoopStep(zd: ZoneDrop, r: ClaimRecord, t: ClaimRecord, u: ClaimRecord, a: int)
    requires Shrinks(zd, r, t) && Reach(zd, r, a) && (ShareOf(zd, r, a) >= 0 ==> Potential(zd, t) <= Potential(zd, r))
    requires LoopKeeps(zd, t, u)
    ensures LoopKeeps(zd, r, u)
  {
    hide Share, Claimed, OpenTo, Potential;
    ShrinksTransitive(zd, r, t, u);
    if NonNegativeOpen(zd, r) { ShrinksNonNegative(zd, r, t); }
  }

  lemma {:induction false} TiersKeep(zd: ZoneDrop, stored: ClaimRecord, r: ClaimRecord, a: int, action: int,
                                     time: int, sum: nat)
    requires Timed(zd) && DEPOSIT_T1 <= a <= action + 1 <= DEPOSIT_T5 + 1 && Untouched(stored, r, a) && Below(r, a)
    ensures var (c, t) := CompleteTiers(zd, stored, r, a, action, time, sum);
            c.Amount? ==>
              && LoopKeeps(zd, r, t)
              && forall b :: a <= b <= action && b !in r.completed ==> Fits(zd, r, b)
    decreases action - a
  {
    hide Claimable, Share, Claimed, OpenTo, Potential, NonNegativeOpen, Reach, Fits;
    var c := Claimable(zd, stored, a, time);
    if a > action {
    } else if a in r.completed {
      TiersKeep(zd, stored, r, a + 1, action, time, sum);
    } else if c.Amount? {
      var t := WithCompleted(r, a, time, c.n);
      SameClaimable(zd, stored, r, a, time);
      ClaimableWithinShare(zd, r, a, time);
      TierInReach(zd, r, a);
      CompleteClaimable(zd, r, a, time, c.n);
      TiersKeep(zd, stored, t, a + 1, action, time, Add64(sum, c.n));
      var (d, u) := CompleteTiers(zd, stored, t, a + 1, action, time, Add64(sum, c.n));
      if d.Amount? {
        LoopStep(zd, r, t, u, a);
        forall b | a <= b <= action && b !in r.completed ensures Fits(zd, r, b) {
          SameFits(zd, r, t, b);
        }
      }
    }
  }

  lemma SameFits(zd: ZoneDrop, r: ClaimRecord, t: ClaimRecord, b: int)
    requires r.maxAllocation == t.maxAllocation
    ensures Fits(zd, r, b) <==> Fits(zd, t, b)
  {
  }

  /** A claim completes only what is within reach, for every drop. */
  lemma ClaimKeepsReach(zd: ZoneDrop, r: ClaimRecord, action: int, env: Env)
    requires Timed(zd)
    ensures var (c, t) := HandleClaim(zd, r, action, env);
            c.Amount? ==> Reach(zd, r, action) && LoopKeeps(zd, r, t)
  {
    hide Claimable, Share, Claimed, OpenTo, Potential;
    var (c, t) := HandleClaim(zd, r, action, env);
    if c.Amount? {
      if DEPOSIT_T1 < action <= DEPOSIT_T5 {
        TiersKeep(zd, r, r, DEPOSIT_T1, action, env.time, 0);
      } else {
        ClaimableWithinShare(zd, r, action, env.time);
        CompleteClaimable(zd, r, action, env.time, c.n);
      }
    }
  }

  /**
   A claim on a record without negative open shares never raises its potential, and pays exactly
   the growth of the completed sum while the open shares fit 64 bits.
   */
  lemma ClaimGrows(zd: ZoneDrop, r: ClaimRecord, action: int, env: Env)
    requires Timed(zd) && NonNegativeOpen(zd, r)
    ensures var (c, t) := HandleClaim(zd, r, action, env);
            c.Amount? ==>
              && NonNegativeOpen(zd, t)
              && Potential(zd, t) <= Potential(zd, r)
              && (OpenTo(zd, r, ACTIONS) < TWO64 ==> Claimed(t) == Claimed(r) + c.n)
  {
    hide HandleClaim, Share, Claimed, OpenTo, NonNegativeOpen, Shrinks, Reach;
    ClaimLaw(zd, r, action, env);
    ClaimKeepsReach(zd, r, action, env);
    var (c, t) := HandleClaim(zd, r, action, env);
    if c.Amount? {
      ShrinksNonNegative(zd, r, t);
      Wrapped(Claimed(t) - Claimed(r));
    }
  }

  /** Before the decay, the tier loop succeeds when the shares fit, and completes tiers for what they were open for. */
  lemma {:induction false} TiersInFull(zd: ZoneDrop, stored: ClaimRecord, r: ClaimRecord, a: int, action: int,
                                       time: int, sum: nat)
    requires Timed(zd) && DEPOSIT_T1 <= a <= action + 1 <= DEPOSIT_T5 + 1 && Untouched(stored, r, a) && Below(r, a)
    requires time <= zd.startTime + zd.duration
    requires forall b :: a <= b <= action && b !in r.completed ==> Fits(zd, r, b)
    ensures var (c, t) := CompleteTiers(zd, stored, r, a, action, time, sum);
            c.Amount? && Potential(zd, t) == Potential(zd, r)
    decreases action - a
  {
    hide Claimable, Share, Claimed, OpenTo, Potential, Reach, Fits;
    if a > action {
    } else if a in r.completed {
      TiersInFull(zd, stored, r, a + 1, action, time, sum);
    } else {
      SameClaimable(zd, stored, r, a, time);
      ClaimableWithinShare(zd, r, a, time);
      TierInReach(zd, r, a);
      var n := Claimable(zd, r, a, time).n;
      var t := WithCompleted(r, a, time, n);
      CompleteClaimable(zd, r, a, time, n);
      forall b | a + 1 <= b <= action && b !in t.completed ensures Fits(zd, t, b) {
        SameFits(zd, r, t, b);
      }
      TiersInFull(zd, stored, t, a + 1, action, time, Add64(sum, n));
    }
  }
}
