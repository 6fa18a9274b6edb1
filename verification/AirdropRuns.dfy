/**
 Runs of airdrop claims: the cap of a record (invariants.go), the funds of a zone
 (Claim, sendCoins) and their start (InitGenesis) in x/airdrop.
 */
module AirdropRuns {
  import D = Dec
  import opened Airdrop
  import opened Words
  import opened Sums

  // ----- Claims on one record -----

  datatype Attempt = Attempt(action: int, env: Env)

  function TryClaim(zd: ZoneDrop, r: ClaimRecord, e: Attempt): ClaimRecord
  {
    if !IsActive(zd, e.env.time) then r
    else
      var (c, t) := HandleClaim(zd, r, e.action, e.env);
      if c.Amount? then t else r
  }

  function TryAll(zd: ZoneDrop, r: ClaimRecord, es: seq<Attempt>): ClaimRecord
    decreases es
  {
    if es == [] then r else TryAll(zd, TryClaim(zd, r, es[0]), es[1..])
  }

  /** Over every run of claims on a record without negative open shares: claims stay within its potential. */
  lemma {:induction false} PotentialNeverRises(zd: ZoneDrop, r: ClaimRecord, es: seq<Attempt>)
    requires Timed(zd) && NonNegativeOpen(zd, r)
    ensures var t := TryAll(zd, r, es);
            && t.maxAllocation == r.maxAllocation
            && Claimed(t) <= Potential(zd, t) <= Potential(zd, r)
    decreases es
  {
    hide HandleClaim, Claimed, OpenTo, NonNegativeOpen;
    if es == [] {
    } else {
      ClaimLaw(zd, r, es[0].action, es[0].env);
      ClaimGrows(zd, r, es[0].action, es[0].env);
      PotentialNeverRises(zd, TryClaim(zd, r, es[0]), es[1..]);
    }
  }

  /** Claims everything in turn at the start of the airdrop, with every check passed. */
  function ClaimEach(zd: ZoneDrop, r: ClaimRecord, a: nat): seq<Attempt>
    requires a <= ACTIONS
    decreases ACTIONS - a
  {
    if a == ACTIONS then []
    else [Attempt(a, Env(zd.startTime, true, r.baseValue))] + ClaimEach(zd, r, a + 1)
  }

  lemma BaseValueSuffices(base: nat, tier: int)
    requires base < TWO64 && DEPOSIT_T1 <= tier <= DEPOSIT_T5
    ensures VerifyDeposit(base, base, Threshold(tier))
  {
    ThresholdsRise(tier, tier);
    var b, t := ToInt64(base), Threshold(tier);
    D.TruncateBounds(t * b);
    if b >= 0 {
      D.MulMono(t, D.ONE, b);
      D.MulNonNeg(t, b);
    } else {
      D.MulNonNeg(t, -b);
      assert t * -b == -(t * b);
    }
  }

  /** A claim at the start completes an action within reach, for its whole share as a uint64. */
  lemma ClaimAtStart(zd: ZoneDrop, r: ClaimRecord, a: int)
    requires Timed(zd) && r.baseValue < TWO64 && 0 <= a < ACTIONS
    ensures var t := TryClaim(zd, r, Attempt(a, Env(zd.startTime, true, r.baseValue)));
            && Potential(zd, t) == Potential(zd, r)
            && t == r.(completed := t.completed) && Shrinks(zd, r, t)
            && (Reach(zd, r, a) ==> a in t.completed)
  {
    hide Claimable, Share, Claimed, OpenTo, Potential, VerifyDeposit, Threshold, Fits;
    var env := Env(zd.startTime, true, r.baseValue);
    ClaimLaw(zd, r, a, env);
    ClaimKeepsReach(zd, r, a, env);
    if Reach(zd, r, a) {
      if DEPOSIT_T1 <= a <= DEPOSIT_T5 {
        BaseValueSuffices(r.baseValue, a);
      }
      if DEPOSIT_T1 < a <= DEPOSIT_T5 {
        TiersInFull(zd, r, r, DEPOSIT_T1, a, zd.startTime, 0);
      } else {
        ClaimableWithinShare(zd, r, a, zd.startTime);
        CompleteClaimable(zd, r, a, zd.startTime, Claimable(zd, r, a, zd.startTime).n);
      }
    }
  }

  ghost predicate AllDone(zd: ZoneDrop, r: ClaimRecord, k: nat)
  {
    forall a :: 0 <= a < k ==> !Reach(zd, r, a)
  }

  lemma DoneNext(zd: ZoneDrop, r: ClaimRecord, t: ClaimRecord, a: nat)
    requires AllDone(zd, r, a) && Shrinks(zd, r, t) && (Reach(zd, r, a) ==> a in t.completed)
    ensures AllDone(zd, t, a + 1)
  {
  }

  lemma {:induction false} ClaimEachDoes(zd: ZoneDrop, r: ClaimRecord, s: ClaimRecord, a: nat)
    requires Timed(zd) && r.baseValue < TWO64
    requires a <= ACTIONS && AllDone(zd, r, a) && s.baseValue == r.baseValue
    ensures var t := TryAll(zd, r, ClaimEach(zd, s, a));
            && AllDone(zd, t, ACTIONS)
            && Potential(zd, t) == Potential(zd, r)
            && t.maxAllocation == r.maxAllocation
    decreases ACTIONS - a
  {
    hide TryClaim, Potential, Shrinks, AllDone, Reach;
    if a == ACTIONS {
    } else {
      ClaimAtStart(zd, r, a);
      var e := Attempt(a, Env(zd.startTime, true, s.baseValue));
      var es := ClaimEach(zd, s, a);
      assert es[0] == e && es[1..] == ClaimEach(zd, s, a + 1);
      DoneNext(zd, r, TryClaim(zd, r, e), a);
      ClaimEachDoes(zd, TryClaim(zd, r, e), s, a + 1);
    }
  }

  lemma {:induction false} NothingOpen(zd: ZoneDrop, r: ClaimRecord, k: nat)
    requires AllDone(zd, r, k)
    ensures OpenTo(zd, r, k) == 0
  {
    hide Reach;
    if k == 0 {
    } else {
      NothingOpen(zd, r, k - 1);
    }
  }

  ghost predicate CappedForever(zd: ZoneDrop, r: ClaimRecord)
  {
    forall es :: Claimed(TryAll(zd, r, es)) <= r.maxAllocation
  }

  /** A cap that is kept by every run of claims holds the whole potential, for every maximum. */
  lemma CapNeedsPotential(zd: ZoneDrop, r: ClaimRecord)
    requires Timed(zd) && r.baseValue < TWO64
    ensures CappedForever(zd, r) ==> Potential(zd, r) <= r.maxAllocation
  {
    hide TryAll, Claimed, OpenTo, AllDone;
    var es := ClaimEach(zd, r, 0);
    ClaimEachDoes(zd, r, r, 0) by { NothingToDo(zd, r); }
    NothingOpen(zd, TryAll(zd, r, es), ACTIONS);
    assert Claimed(TryAll(zd, r, es)) == Potential(zd, r);
  }

  lemma NothingToDo(zd: ZoneDrop, r: ClaimRecord)
    ensures AllDone(zd, r, 0)
  {
  }

  /** A potential within a maximum below 2^63 has no negative share in it. */
  lemma FittingIsNonNegative(zd: ZoneDrop, r: ClaimRecord)
    requires r.maxAllocation < TWO63 && Potential(zd, r) <= r.maxAllocation
    ensures NonNegativeOpen(zd, r)
  {
    hide Share, Claimed, OpenTo;
    forall a | Reach(zd, r, a) ensures ShareOf(zd, r, a) >= 0 {
      OpenAtLeast(zd, r, a, ACTIONS);
    }
  }

  /**
   A record's completed claims stay within a maximum allocation below 2^63 over every run of
   claims if and only if what is claimed already and what is still open fit into it.
   */
  lemma CapExactlyWhenPotentialFits(zd: ZoneDrop, r: ClaimRecord)
    requires Timed(zd) && r.maxAllocation < TWO63 && r.baseValue < TWO64
    ensures CappedForever(zd, r) <==> Potential(zd, r) <= r.maxAllocation
  {
    hide TryAll, Claimed, Potential, NonNegativeOpen;
    CapNeedsPotential(zd, r);
    if Potential(zd, r) <= r.maxAllocation {
      FittingIsNonNegative(zd, r);
      forall es ensures Claimed(TryAll(zd, r, es)) <= r.maxAllocation {
        PotentialNeverRises(zd, r, es);
      }
    }
  }

  lemma {:induction false} NothingClaimed(k: nat)
    ensures ClaimedTo(map[], k) == 0
  {
    if k == 0 {
    } else {
      NothingClaimed(k - 1);
    }
  }

  /** A record with nothing completed is always within its cap. */
  lemma FreshRecordCapped(zd: ZoneDrop, r: ClaimRecord)
    requires SafeDrop(zd) && r.maxAllocation < TWO63 && r.baseValue < TWO64 && r.completed == map[]
    ensures Claimed(r) == 0 && Potential(zd, r) <= r.maxAllocation && CappedForever(zd, r)
  {
    hide CappedForever;
    NothingClaimed(ACTIONS);
    OpenWithinMax(zd, r);
    CapExactlyWhenPotentialFits(zd, r);
  }

  // ----- Which drops are safe -----

  ghost predicate FreshRecord(r: ClaimRecord)
  {
    r.completed == map[] && r.maxAllocation < TWO63 && r.baseValue < TWO64
  }

  ghost predicate CapsEveryFreshRecord(zd: ZoneDrop)
  {
    forall r :: FreshRecord(r) ==> CappedForever(zd, r)
  }

  /** The whole part of every weight fits an int64, so that a claim with a maximum of one does not panic. */
  ghost predicate WordWeights(zd: ZoneDrop)
  {
    forall a :: Handled(zd, a) ==> FitsInt64(D.TruncateInt(zd.actions[a]))
  }

  /** A fresh record with its maximum: one of 1 shows large and negative weights, one of 10^18 the other ones. */
  function Probe(max: nat): ClaimRecord { ClaimRecord("", "", map[], max, 0) }

  lemma UnitShares(zd: ZoneDrop, a: int)
    requires Handled(zd, a)
    ensures ShareOf(zd, Probe(1), a) == D.TruncateInt(zd.actions[a])
  {
  }

  lemma ProbeShares(zd: ZoneDrop, a: int)
    requires Handled(zd, a)
    ensures ShareOf(zd, Probe(D.ONE), a) == zd.actions[a]
  {
    D.TruncateBounds(zd.actions[a] * D.ONE);
  }

  /** All handled actions of a fresh record are within reach when their shares fit. */
  lemma AllInReach(zd: ZoneDrop, max: nat)
    requires forall a :: Handled(zd, a) ==> Fits(zd, Probe(max), a)
    ensures forall a :: Reach(zd, Probe(max), a) <==> Handled(zd, a)
  {
    hide Fits;
  }

  /** A cap of one bounds every weight. */
  lemma UnitCapBounds(zd: ZoneDrop, a: int)
    requires WordWeights(zd) && Potential(zd, Probe(1)) <= 1 && Handled(zd, a)
    ensures -D.ONE < zd.actions[a] < 2 * D.ONE
  {
    hide Share, OpenTo, Claimed;
    forall b | Handled(zd, b) ensures Fits(zd, Probe(1), b) { UnitShares(zd, b); }
    AllInReach(zd, 1);
    OpenAtLeast(zd, Probe(1), a, ACTIONS);
    UnitShares(zd, a);
    D.TruncateBounds(zd.actions[a]);
  }

  lemma {:induction false} ProbeOpen(zd: ZoneDrop, k: nat)
    requires NonNegativeWeights(zd)
    requires forall a :: Reach(zd, Probe(D.ONE), a) <==> Handled(zd, a)
    ensures OpenTo(zd, Probe(D.ONE), k) == WeightTo(zd, k)
  {
    hide Share, Reach;
    if k == 0 {
    } else {
      ProbeOpen(zd, k - 1);
      if Handled(zd, k - 1) { ProbeShares(zd, k - 1); }
    }
  }

  /** Two records show an unsafe drop up. */
  lemma UnsafeDropBreaksCap(zd: ZoneDrop)
    requires Timed(zd) && WordWeights(zd)
    ensures CappedForever(zd, Probe(1)) && CappedForever(zd, Probe(D.ONE)) ==> SafeDrop(zd)
  {
    hide CappedForever, Share, Claimed, OpenTo, WeightTo, Reach, WordWeights;
    CapExactlyWhenPotentialFits(zd, Probe(1));
    CapExactlyWhenPotentialFits(zd, Probe(D.ONE));
    if CappedForever(zd, Probe(1)) && CappedForever(zd, Probe(D.ONE)) {
      forall a | Handled(zd, a) ensures Fits(zd, Probe(D.ONE), a) {
        UnitCapBounds(zd, a);
        ProbeShares(zd, a);
      }
      AllInReach(zd, D.ONE);
      FittingIsNonNegative(zd, Probe(D.ONE));
      forall a | Handled(zd, a) ensures zd.actions[a] >= 0 { ProbeShares(zd, a); }
      ProbeOpen(zd, ACTIONS);
    }
  }

  /**
   Every fresh record with a maximum below 2^63 keeps its cap if and only if no weight of a handled
   action is negative and these weights sum to at most one.
   */
  lemma CapsExactlyWhenSafe(zd: ZoneDrop)
    requires Timed(zd) && WordWeights(zd)
    ensures CapsEveryFreshRecord(zd) <==> SafeDrop(zd)
  {
    hide CappedForever, SafeDrop;
    if SafeDrop(zd) {
      forall r | FreshRecord(r) ensures CappedForever(zd, r) {
        FreshRecordCapped(zd, r);
      }
    }
    assert FreshRecord(Probe(1)) && FreshRecord(Probe(D.ONE));
    UnsafeDropBreaksCap(zd);
  }

  /** Weights 2 and -1 sum to one, and the first of them breaks the cap of a fresh record. */
  lemma NegativeWeightBreaksCap()
    ensures var zd := ZoneDrop("c", 0, 10, 10, 100, [2 * D.ONE, -D.ONE]);
            var r := ClaimRecord("c", "a", map[], 100, 0);
            Timed(zd) && FreshRecord(r) && !CappedForever(zd, r)
  {
    hide CappedForever;
    var zd := ZoneDrop("c", 0, 10, 10, 100, [2 * D.ONE, -D.ONE]);
    var r := ClaimRecord("c", "a", map[], 100, 0);
    assert ShareOf(zd, r, 0) == 200 && ShareOf(zd, r, 1) == -100;
    assert Reach(zd, r, 0);
    OpenAtLeast(zd, r, 0, ACTIONS);
    CapExactlyWhenPotentialFits(zd, r);
  }

  /**
   A maximum from 2^63 on is read as negative: an open action with a weight below one that gives
   any share at all pays more than the maximum.
   */
  lemma WideMaximumBreaksCap(zd: ZoneDrop, r: ClaimRecord, a: int)
    requires Timed(zd) && r.baseValue < TWO64 && TWO63 <= r.maxAllocation < TWO64 && Reach(zd, r, a)
    requires 0 < zd.actions[a] < D.ONE && zd.actions[a] * (TWO64 - r.maxAllocation) >= D.ONE
    ensures !CappedForever(zd, r)
  {
    hide CappedForever, Claimed, OpenTo;
    WideShare(zd.actions[a], r.maxAllocation);
    OpenAtLeast(zd, r, a, ACTIONS);
    CapNeedsPotential(zd, r);
  }

  lemma WideShare(weight: int, max: nat)
    requires TWO63 <= max < TWO64 && 0 < weight < D.ONE && weight * (TWO64 - max) >= D.ONE
    ensures max - TWO64 < Share(weight, max) < 0
  {
    var m := TWO64 - max;
    assert weight * -m == -(weight * m);
    D.TruncateBounds(weight * -m);
    D.MulMono(weight, D.ONE - 1, m);
  }

  /** A genesis record may hold completed claims: one claim of the whole maximum breaks the cap later. */
  lemma CompletedAtGenesisBreaksCap()
    ensures var zd := ZoneDrop("c", 0, 10, 10, 100, [D.ONE / 2, D.ONE / 2]);
            var r := ClaimRecord("c", "a", map[0 := CompletedAction(0, 100)], 100, 0);
            SafeDrop(zd) && Claimed(r) == r.maxAllocation && !CappedForever(zd, r)
  {
    hide CappedForever;
    var zd := ZoneDrop("c", 0, 10, 10, 100, [D.ONE / 2, D.ONE / 2]);
    var r := ClaimRecord("c", "a", map[0 := CompletedAction(0, 100)], 100, 0);
    TwoWeights(zd, ACTIONS);
    ClaimedToAdd(map[], 0, CompletedAction(0, 100), ACTIONS);
    assert map[][0 := CompletedAction(0, 100)] == r.completed;
    NothingClaimed(ACTIONS);
    assert ShareOf(zd, r, 1) == 50 && Reach(zd, r, 1);
    OpenAtLeast(zd, r, 1, ACTIONS);
    CapExactlyWhenPotentialFits(zd, r);
  }

  lemma {:induction false} TwoWeights(zd: ZoneDrop, k: nat)
    requires |zd.actions| == 2
    ensures WeightTo(zd, k) == (if k > 0 then zd.actions[0] else 0) + (if k > 1 then zd.actions[1] else 0)
  {
    if k == 0 {
    } else {
      TwoWeights(zd, k - 1);
    }
  }

  // ----- The store and the zone accounts -----

  /** Claim records, zone drops, and what the account of each zone drop holds. */
  datatype State = State(records: seq<ClaimRecord>, drops: map<string, ZoneDrop>, funds: map<string, nat>)

  datatype ClaimMsg = ClaimMsg(chain: string, action: int, address: string, env: Env)

  /** A payment, a call without effect, or an error that leaves the store as it was. */
  datatype Result = Paid(n: nat) | Nothing | Error

  function FindRecord(records: seq<ClaimRecord>, chain: string, address: string): (i: nat)
    ensures i <= |records|
    ensures i < |records| ==> records[i].chainId == chain && records[i].address == address
    ensures forall k :: 0 <= k < i ==> !(records[k].chainId == chain && records[k].address == address)
  {
    if records == [] then 0
    else if records[0].chainId == chain && records[0].address == address then 0
    else 1 + FindRecord(records[1..], chain, address)
  }

  function Claim(st: State, m: ClaimMsg): (Result, State)
  {
    if !(0 <= m.action < ACTIONS) || m.chain !in st.drops then (Error, st)
    else
      var zd, i := st.drops[m.chain], FindRecord(st.records, m.chain, m.address);
      if !IsActive(zd, m.env.time) || i == |st.records| then (Nothing, st)
      else
        var (c, r) := HandleClaim(zd, st.records[i], m.action, m.env);
        if c.Failed? || m.chain !in st.funds || st.funds[m.chain] < c.n then (Error, st)
        else (Paid(c.n), State(st.records[i := r], st.drops, st.funds[m.chain := st.funds[m.chain] - c.n]))
  }

  function Run(st: State, ms: seq<ClaimMsg>): State
    decreases ms
  {
    if ms == [] then st else Run(Claim(st, ms[0]).1, ms[1..])
  }

  ghost function ClaimedOn(chain: string): ClaimRecord -> int
  {
    (r: ClaimRecord) => if r.chainId == chain then Claimed(r) else 0
  }

  function MaxOn(chain: string): ClaimRecord -> int
  {
    (r: ClaimRecord) => if r.chainId == chain then r.maxAllocation else 0
  }

  ghost function ClaimedIn(records: seq<ClaimRecord>, chain: string): int { SumBy(ClaimedOn(chain), records) }

  ghost function MaxIn(records: seq<ClaimRecord>, chain: string): int { SumBy(MaxOn(chain), records) }

  ghost predicate RecordOk(zd: ZoneDrop, r: ClaimRecord)
  {
    && r.maxAllocation < TWO63 && r.baseValue < TWO64
    && Potential(zd, r) <= r.maxAllocation
    && TiersClosed(r.completed)
  }

  ghost predicate ZoneOk(st: State, chain: string)
    requires chain in st.drops
  {
    && SafeDrop(st.drops[chain])
    && chain in st.funds
    && st.funds[chain] + ClaimedIn(st.records, chain) == st.drops[chain].allocation
    && MaxIn(st.records, chain) <= st.drops[chain].allocation
  }

  ghost predicate Inv(st: State)
  {
    && (forall chain :: chain in st.drops ==> ZoneOk(st, chain))
    && (forall r :: r in st.records && r.chainId in st.drops ==> RecordOk(st.drops[r.chainId], r))
  }

  lemma ClaimedWithinMax(st: State, chain: string)
    requires Inv(st) && chain in st.drops
    ensures ClaimedIn(st.records, chain) <= MaxIn(st.records, chain)
  {
    assert ZoneOk(st, chain);
    forall r | r in st.records ensures ClaimedOn(chain)(r) <= MaxOn(chain)(r) {
      if r.chainId == chain {
        OpenWithinMax(st.drops[chain], r);
      }
    }
    SumByMonotone(ClaimedOn(chain), MaxOn(chain), st.records);
  }

  /** What a permitted claim does to the record and to the sums of its zone. */
  lemma PermittedClaim(st: State, i: nat, action: int, env: Env)
    requires Inv(st) && i < |st.records| && st.records[i].chainId in st.drops
    ensures var chain := st.records[i].chainId;
            var (c, r) := HandleClaim(st.drops[chain], st.records[i], action, env);
            c.Amount? ==>
              && RecordOk(st.drops[chain], r) && r.chainId == chain
              && (forall x ::
                    ClaimedIn(st.records[i := r], x) == ClaimedIn(st.records, x) + (if x == chain then c.n else 0))
              && (forall x :: MaxIn(st.records[i := r], x) == MaxIn(st.records, x))
  {
    var chain := st.records[i].chainId;
    var zd := st.drops[chain];
    assert ZoneOk(st, chain);
    assert st.records[i] in st.records;
    SafeIsCalm(zd, st.records[i]);
    OpenWithinMax(zd, st.records[i]);
    ClaimLaw(zd, st.records[i], action, env);
    ClaimGrows(zd, st.records[i], action, env);
    var (c, r) := HandleClaim(zd, st.records[i], action, env);
    if c.Amount? {
      forall x ensures ClaimedIn(st.records[i := r], x) == ClaimedIn(st.records, x) + (if x == chain then c.n else 0)
               ensures MaxIn(st.records[i := r], x) == MaxIn(st.records, x)
      {
        SumByUpdate(ClaimedOn(x), st.records, i, r);
        SumByUpdate(MaxOn(x), st.records, i, r);
      }
    }
  }

  /** Every claim that the record permits is covered by the zone's account. */
  lemma PermittedClaimIsCovered(st: State, i: nat, action: int, env: Env)
    requires Inv(st) && i < |st.records| && st.records[i].chainId in st.drops
    ensures var chain := st.records[i].chainId;
            var (c, r) := HandleClaim(st.drops[chain], st.records[i], action, env);
            c.Amount? ==> chain in st.funds && c.n <= st.funds[chain]
  {
    var chain := st.records[i].chainId;
    PermittedClaim(st, i, action, env);
    var (c, r) := HandleClaim(st.drops[chain], st.records[i], action, env);
    assert ZoneOk(st, chain);
    if c.Amount? {
      var after := st.records[i := r];
      forall x | x in after ensures ClaimedOn(chain)(x) <= MaxOn(chain)(x) {
        if x.chainId == chain {
          if x != r { assert x in st.records; }
          OpenWithinMax(st.drops[chain], x);
        }
      }
      SumByMonotone(ClaimedOn(chain), MaxOn(chain), after);
    }
  }

  lemma PaymentKeepsInv(st: State, i: nat, r: ClaimRecord, n: nat)
    requires Inv(st) && i < |st.records| && st.records[i].chainId in st.drops
    requires var chain := st.records[i].chainId;
             && RecordOk(st.drops[chain], r) && r.chainId == chain
             && chain in st.funds && n <= st.funds[chain]
             && (forall x ::
                   ClaimedIn(st.records[i := r], x) == ClaimedIn(st.records, x) + (if x == chain then n else 0))
             && (forall x :: MaxIn(st.records[i := r], x) == MaxIn(st.records, x))
    ensures var chain := st.records[i].chainId;
            Inv(State(st.records[i := r], st.drops, st.funds[chain := st.funds[chain] - n]))
  {
    var chain := st.records[i].chainId;
    var t := State(st.records[i := r], st.drops, st.funds[chain := st.funds[chain] - n]);
    forall x | x in t.drops ensures ZoneOk(t, x) { assert ZoneOk(st, x); }
    forall q | q in t.records && q.chainId in t.drops ensures RecordOk(t.drops[q.chainId], q) {
      var k :| 0 <= k < |t.records| && t.records[k] == q;
      if k != i { assert st.records[k] in st.records; }
    }
  }

  /** A claim keeps the caps, the closed tiers and the balance of every zone. */
  lemma ClaimKeepsInv(st: State, m: ClaimMsg)
    requires Inv(st)
    ensures Inv(Claim(st, m).1)
  {
    var i := FindRecord(st.records, m.chain, m.address);
    if m.chain in st.drops && i < |st.records| {
      PermittedClaim(st, i, m.action, m.env);
      PermittedClaimIsCovered(st, i, m.action, m.env);
      var (c, r) := HandleClaim(st.drops[m.chain], st.records[i], m.action, m.env);
      if c.Amount? {
        PaymentKeepsInv(st, i, r, c.n);
      }
    }
  }

  /** A claim for a record of an active zone drop is refused only by the claim itself, never for lack of funds. */
  lemma ClaimPaysWhatIsPermitted(st: State, m: ClaimMsg)
    requires Inv(st) && m.chain in st.drops && 0 <= m.action < ACTIONS && IsActive(st.drops[m.chain], m.env.time)
    requires FindRecord(st.records, m.chain, m.address) < |st.records|
    ensures var r := st.records[FindRecord(st.records, m.chain, m.address)];
            var c := HandleClaim(st.drops[m.chain], r, m.action, m.env).0;
            Claim(st, m).0 == if c.Amount? then Paid(c.n) else Error
  {
    PermittedClaimIsCovered(st, FindRecord(st.records, m.chain, m.address), m.action, m.env);
  }

  /**
   A claim is paid if and only if its zone drop is active, there is a record, and the action is
   within its reach and verified. The payment leaves the zone's account, the record of the claim
   grows by it, and no other record or account changes; without a payment nothing does.
   */
  lemma ClaimPaysExactly(st: State, m: ClaimMsg)
    requires Inv(st)
    ensures var (res, t) := Claim(st, m);
            var i := FindRecord(st.records, m.chain, m.address);
            && (res.Paid? <==>
                  && m.chain in st.drops && i < |st.records|
                  && var zd := st.drops[m.chain];
                  && zd.startTime <= m.env.time <= zd.startTime + zd.duration + zd.decay
                  && Reach(zd, st.records[i], m.action) && Verified(st.records[i], m.action, m.env))
            && (res.Paid? ==>
                  && m.chain in st.funds && res.n <= st.funds[m.chain]
                  && t == State(st.records[i := t.records[i]], st.drops, st.funds[m.chain := st.funds[m.chain] - res.n])
                  && Completes(st.drops[m.chain], st.records[i], t.records[i], Brought(st.records[i], m.action),
                               m.env.time)
                  && Claimed(t.records[i]) == Claimed(st.records[i]) + res.n)
            && (!res.Paid? ==> t == st)
  {
    hide HandleClaim, Reach, Verified, Completes, Brought, Claimed, SafeDrop, Potential, OpenTo;
    var i := FindRecord(st.records, m.chain, m.address);
    if m.chain in st.drops && i < |st.records| {
      var zd, r := st.drops[m.chain], st.records[i];
      assert r in st.records && ZoneOk(st, m.chain);
      PermittedClaimIsCovered(st, i, m.action, m.env);
      assert Timed(zd) by { SafeIsTimed(zd); }
      ClaimExactly(zd, r, m.action, m.env);
      ReachIsAction(zd, r, m.action);
      SafeIsCalm(zd, r);
      OpenWithinMax(zd, r);
      ClaimGrows(zd, r, m.action, m.env);
      if 0 <= m.action < ACTIONS && IsActive(zd, m.env.time) {
        ClaimPaysWhatIsPermitted(st, m);
      }
    }
  }

  lemma SafeIsTimed(zd: ZoneDrop)
    requires SafeDrop(zd)
    ensures Timed(zd)
  {
  }

  lemma ReachIsAction(zd: ZoneDrop, r: ClaimRecord, a: int)
    ensures Reach(zd, r, a) ==> 0 <= a < ACTIONS
  {
  }

  /** Over every run of claims. */
  lemma {:induction false} RunKeepsInv(st: State, ms: seq<ClaimMsg>)
    requires Inv(st)
    ensures Inv(Run(st, ms))
    decreases ms
  {
    if ms == [] {
    } else {
      ClaimKeepsInv(st, ms[0]);
      RunKeepsInv(Claim(st, ms[0]).1, ms[1..]);
    }
  }

  // ----- Genesis -----

  function PutRecord(records: seq<ClaimRecord>, r: ClaimRecord): seq<ClaimRecord>
  {
    var i := FindRecord(records, r.chainId, r.address);
    if i < |records| then records[i := r] else records + [r]
  }

  /** Storing a record replaces the one of its zone and address, and leaves all others. */
  lemma PutRecordLaw(records: seq<ClaimRecord>, r: ClaimRecord)
    ensures var t := PutRecord(records, r);
            var i := FindRecord(t, r.chainId, r.address);
            && i < |t| && t[i] == r && i == FindRecord(records, r.chainId, r.address)
            && |t| == (if i < |records| then |records| else |records| + 1)
            && forall k :: 0 <= k < |records| && k != i ==> t[k] == records[k]
  {
    var t, i := PutRecord(records, r), FindRecord(records, r.chainId, r.address);
    var j := FindRecord(t, r.chainId, r.address);
    assert t[i] == r;
    assert j <= i;
  }

  /** The first loop of InitGenesis: the stored records and the 64-bit sums per zone and over all. */
  function StoreRecords(rs: seq<ClaimRecord>, stored: seq<ClaimRecord>, zsum: map<string, nat>, sum: nat)
    : (seq<ClaimRecord>, map<string, nat>, nat)
    decreases rs
  {
    if rs == [] then (stored, zsum, sum)
    else
      var r := rs[0];
      StoreRecords(rs[1..], PutRecord(stored, r),
                   zsum[r.chainId := Add64(ZoneSum(zsum, r.chainId), r.maxAllocation)], Add64(sum, r.maxAllocation))
  }

  /** The second loop: each zone drop must match its sum and is paid from the module account. */
  function FundDrops(zds: seq<ZoneDrop>, zsum: map<string, nat>, balance: nat, drops: map<string, ZoneDrop>,
                     funds: map<string, nat>)
    : (bool, map<string, ZoneDrop>, map<string, nat>)
    decreases zds
  {
    if zds == [] then (true, drops, funds)
    else
      var zd := zds[0];
      if zd.chainId !in zsum || zsum[zd.chainId] != zd.allocation || balance < zd.allocation then (false, drops, funds)
      else
        var had := if zd.chainId in funds then funds[zd.chainId] else 0;
        FundDrops(zds[1..], zsum, balance - zd.allocation, drops[zd.chainId := zd],
                  funds[zd.chainId := had + zd.allocation])
  }

  /** InitGenesis; false when it panics. */
  function InitGenesis(balance: nat, zds: seq<ZoneDrop>, rs: seq<ClaimRecord>): (bool, State)
  {
    var (records, zsum, sum) := StoreRecords(rs, [], map[], 0);
    if balance >= TWO64 || sum > balance then (false, State(records, map[], map[]))
    else
      var (ok, drops, funds) := FundDrops(zds, zsum, balance, map[], map[]);
      (ok, State(records, drops, funds))
  }

  ghost predicate DistinctRecords(rs: seq<ClaimRecord>)
  {
    forall i, j :: 0 <= i < j < |rs| ==> rs[i].chainId != rs[j].chainId || rs[i].address != rs[j].address
  }

  ghost predicate DistinctDrops(zds: seq<ZoneDrop>)
  {
    forall i, j :: 0 <= i < j < |zds| ==> zds[i].chainId != zds[j].chainId
  }

  lemma {:induction false} FindNothing(records: seq<ClaimRecord>, chain: string, address: string)
    requires forall i :: 0 <= i < |records| ==> records[i].chainId != chain || records[i].address != address
    ensures FindRecord(records, chain, address) == |records|
  {
    if records == [] {
    } else {
      FindNothing(records[1..], chain, address);
    }
  }

  lemma {:induction false} MaxNonNegative(rs: seq<ClaimRecord>, chain: string)
    ensures MaxIn(rs, chain) >= 0
  {
    if rs == [] {
    } else {
      MaxNonNegative(rs[1..], chain);
    }
  }

  function ZoneSum(zsum: map<string, nat>, chain: string): nat { if chain in zsum then zsum[chain] else 0 }

  /** Distinct records are stored as given. */
  lemma {:induction false} StoredAsGiven(rs: seq<ClaimRecord>, stored: seq<ClaimRecord>, zsum: map<string, nat>,
                                         sum: nat)
    requires DistinctRecords(stored + rs)
    ensures StoreRecords(rs, stored, zsum, sum).0 == stored + rs
    decreases rs
  {
    if rs == [] {
      assert stored + rs == stored;
    } else {
      var r := rs[0];
      forall i | 0 <= i < |stored| ensures stored[i].chainId != r.chainId || stored[i].address != r.address {
        assert (stored + rs)[i] == stored[i] && (stored + rs)[|stored|] == r;
      }
      FindNothing(stored, r.chainId, r.address);
      assert stored + [r] + rs[1..] == stored + rs;
      StoredAsGiven(rs[1..], PutRecord(stored, r),
                    zsum[r.chainId := Add64(ZoneSum(zsum, r.chainId), r.maxAllocation)], Add64(sum, r.maxAllocation));
    }
  }

  /** The zone sums are the true sums modulo 2^64. */
  lemma {:induction false} ZoneSumsWrap(rs: seq<ClaimRecord>, stored: seq<ClaimRecord>, zsum: map<string, nat>,
                                        sum: nat, chain: string)
    requires forall x :: x in zsum ==> zsum[x] < TWO64
    ensures ZoneSum(StoreRecords(rs, stored, zsum, sum).1, chain) == (ZoneSum(zsum, chain) + MaxIn(rs, chain)) % TWO64
    decreases rs
  {
    hide PutRecord;
    if rs == [] {
    } else {
      var r := rs[0];
      var zsum' := zsum[r.chainId := Add64(ZoneSum(zsum, r.chainId), r.maxAllocation)];
      ZoneSumsWrap(rs[1..], PutRecord(stored, r), zsum', Add64(sum, r.maxAllocation), chain);
      MaxNonNegative(rs[1..], chain);
      if chain == r.chainId {
        ModSum(ZoneSum(zsum, chain), r.maxAllocation, MaxIn(rs[1..], chain));
      }
    }
  }

  lemma ModSum(a: nat, b: nat, c: nat)
    ensures ((a + b) % TWO64 + c) % TWO64 == (a + (b + c)) % TWO64
  {
  }

  lemma {:induction false} FundDropsLaw(zds: seq<ZoneDrop>, zsum: map<string, nat>, balance: nat,
                                        drops: map<string, ZoneDrop>, funds: map<string, nat>)
    requires DistinctDrops(zds) && funds.Keys == drops.Keys
    requires forall i :: 0 <= i < |zds| ==> zds[i].chainId !in drops
    requires forall c :: c in drops ==> c in zsum && funds[c] == drops[c].allocation == zsum[c]
    ensures var (ok, ds, fs) := FundDrops(zds, zsum, balance, drops, funds);
            ok ==> && fs.Keys == ds.Keys
                   && (forall c :: c in ds ==> c in zsum && fs[c] == ds[c].allocation == zsum[c])
    decreases zds
  {
    if zds == [] {
    } else {
      var zd := zds[0];
      if zd.chainId in zsum && zsum[zd.chainId] == zd.allocation && balance >= zd.allocation {
        FundDropsLaw(zds[1..], zsum, balance - zd.allocation, drops[zd.chainId := zd],
                     funds[zd.chainId := zd.allocation]);
      }
    }
  }

  ghost function AllocationSum(zds: seq<ZoneDrop>): nat
  {
    if zds == [] then 0 else zds[0].allocation + AllocationSum(zds[1..])
  }

  /** The loop over the drops goes through if and only if every drop matches its sum and all of them can be paid. */
  lemma {:induction false} FundDropsExactly(zds: seq<ZoneDrop>, zsum: map<string, nat>, balance: nat,
                                            drops: map<string, ZoneDrop>, funds: map<string, nat>)
    ensures FundDrops(zds, zsum, balance, drops, funds).0 <==>
              && (forall zd :: zd in zds ==> zd.chainId in zsum && zsum[zd.chainId] == zd.allocation)
              && AllocationSum(zds) <= balance
    decreases zds
  {
    if zds == [] {
    } else {
      var zd, rest := zds[0], zds[1..];
      assert zd in zds && forall x :: x in zds <==> x == zd || x in rest;
      if zd.chainId in zsum && zsum[zd.chainId] == zd.allocation && balance >= zd.allocation {
        var had := if zd.chainId in funds then funds[zd.chainId] else 0;
        FundDropsExactly(rest, zsum, balance - zd.allocation, drops[zd.chainId := zd],
                         funds[zd.chainId := had + zd.allocation]);
      }
    }
  }

  ghost predicate Named(zds: seq<ZoneDrop>, c: string) { exists i :: 0 <= i < |zds| && zds[i].chainId == c }

  lemma NamedSplit(zds: seq<ZoneDrop>, c: string)
    requires zds != []
    ensures Named(zds, c) <==> zds[0].chainId == c || Named(zds[1..], c)
  {
    if Named(zds[1..], c) {
      var i :| 0 <= i < |zds[1..]| && zds[1..][i].chainId == c;
      assert zds[i + 1].chainId == c;
    }
    if Named(zds, c) && zds[0].chainId != c {
      var i :| 0 <= i < |zds| && zds[i].chainId == c;
      assert zds[1..][i - 1].chainId == c;
    }
  }

  lemma DropsTail(zds: seq<ZoneDrop>)
    requires zds != [] && DistinctDrops(zds)
    ensures DistinctDrops(zds[1..]) && !Named(zds[1..], zds[0].chainId)
  {
    forall i | 0 <= i < |zds[1..]| ensures zds[1..][i].chainId != zds[0].chainId {
      assert zds[0].chainId != zds[i + 1].chainId;
    }
    forall i, j | 0 <= i < j < |zds[1..]| ensures zds[1..][i].chainId != zds[1..][j].chainId {
      assert zds[i + 1].chainId != zds[j + 1].chainId;
    }
  }

  /** The drops that are stored are the old ones and the given ones. */
  lemma {:induction false} DropsStored(zds: seq<ZoneDrop>, zsum: map<string, nat>, balance: nat,
                                       drops: map<string, ZoneDrop>, funds: map<string, nat>, c: string)
    requires DistinctDrops(zds)
    ensures var (ok, ds, fs) := FundDrops(zds, zsum, balance, drops, funds);
            ok ==>
              && (c in ds <==> c in drops || Named(zds, c))
              && (forall i :: 0 <= i < |zds| && zds[i].chainId == c ==> ds[c] == zds[i])
              && (!Named(zds, c) && c in drops ==> ds[c] == drops[c])
    decreases zds
  {
    hide Named, DistinctDrops;
    if zds == [] {
      assert !Named(zds, c) by { NotNamed(c); }
    } else {
      var zd, rest := zds[0], zds[1..];
      NamedSplit(zds, c);
      DropsTail(zds);
      if zd.chainId in zsum && zsum[zd.chainId] == zd.allocation && balance >= zd.allocation {
        var had := if zd.chainId in funds then funds[zd.chainId] else 0;
        DropsStored(rest, zsum, balance - zd.allocation, drops[zd.chainId := zd],
                    funds[zd.chainId := had + zd.allocation], c);
        assert forall i :: 0 < i < |zds| ==> zds[i] == rest[i - 1];
      }
    }
  }

  lemma NotNamed(c: string)
    ensures !Named([], c)
  {
  }

  lemma {:induction false} SummedZones(rs: seq<ClaimRecord>, stored: seq<ClaimRecord>, zsum: map<string, nat>,
                                       sum: nat, chain: string)
    ensures chain in StoreRecords(rs, stored, zsum, sum).1
       <==> chain in zsum || exists r :: r in rs && r.chainId == chain
    decreases rs
  {
    hide PutRecord, Add64;
    if rs == [] {
    } else {
      var r := rs[0];
      SummedZones(rs[1..], PutRecord(stored, r),
                  zsum[r.chainId := Add64(ZoneSum(zsum, r.chainId), r.maxAllocation)], Add64(sum, r.maxAllocation),
                  chain);
      assert forall x :: x in rs <==> x == r || x in rs[1..];
    }
  }

  ghost function MaxSum(rs: seq<ClaimRecord>): nat
  {
    if rs == [] then 0 else rs[0].maxAllocation + MaxSum(rs[1..])
  }

  lemma {:induction false} TotalWraps(rs: seq<ClaimRecord>, stored: seq<ClaimRecord>, zsum: map<string, nat>, sum: nat)
    requires sum < TWO64
    ensures StoreRecords(rs, stored, zsum, sum).2 == (sum + MaxSum(rs)) % TWO64
    decreases rs
  {
    hide PutRecord;
    if rs == [] {
    } else {
      var r := rs[0];
      TotalWraps(rs[1..], PutRecord(stored, r),
                 zsum[r.chainId := Add64(ZoneSum(zsum, r.chainId), r.maxAllocation)], Add64(sum, r.maxAllocation));
      ModSum(sum, r.maxAllocation, MaxSum(rs[1..]));
    }
  }

  /** Every zone drop has claim records, and its allocation is their sum modulo 2^64. */
  ghost predicate DropsMatch(zds: seq<ZoneDrop>, rs: seq<ClaimRecord>)
  {
    forall zd :: zd in zds ==>
      (exists r :: r in rs && r.chainId == zd.chainId) && zd.allocation == MaxIn(rs, zd.chainId) % TWO64
  }

  /**
   Genesis goes through if and only if the module account covers the 64-bit sum of all maximum
   allocations and the allocations of all drops, and every drop has records and their 64-bit sum.
   It then stores exactly the given drops.
   */
  lemma GenesisExactly(balance: nat, zds: seq<ZoneDrop>, rs: seq<ClaimRecord>)
    requires DistinctDrops(zds)
    ensures var (ok, st) := InitGenesis(balance, zds, rs);
            && (ok <==>
                  && MaxSum(rs) % TWO64 <= balance < TWO64 && AllocationSum(zds) <= balance
                  && DropsMatch(zds, rs))
            && (ok ==>
                  && (forall c :: c in st.drops <==> Named(zds, c))
                  && (forall i :: 0 <= i < |zds| ==> zds[i].chainId in st.drops && st.drops[zds[i].chainId] == zds[i]))
  {
    hide FundDrops, StoreRecords, MaxIn, AllocationSum, MaxSum;
    var zsum := StoreRecords(rs, [], map[], 0).1;
    TotalWraps(rs, [], map[], 0);
    FundDropsExactly(zds, zsum, balance, map[], map[]);
    forall c { DropsStored(zds, zsum, balance, map[], map[], c); }
    forall c ensures c in zsum <==> exists r :: r in rs && r.chainId == c
             ensures ZoneSum(zsum, c) == MaxIn(rs, c) % TWO64
    {
      SummedZones(rs, [], map[], 0, c);
      ZoneSumsWrap(rs, [], map[], 0, c);
    }
    assert (forall zd :: zd in zds ==> zd.chainId in zsum && zsum[zd.chainId] == zd.allocation)
      <==> DropsMatch(zds, rs);
  }

  lemma {:induction false} NothingClaimedIn(rs: seq<ClaimRecord>, chain: string)
    requires forall r :: r in rs ==> r.completed == map[]
    ensures ClaimedIn(rs, chain) == 0
  {
    if rs == [] {
    } else {
      NothingClaimed(ACTIONS);
      assert rs[0] in rs;
      NothingClaimedIn(rs[1..], chain);
    }
  }

  /**
   A genesis that does not panic starts every zone with its balance intact and its claims capped
   if and only if every drop is safe and no zone's sum of maximum allocations reaches 2^64, where
   the 64-bit sum wraps around.
   */
  lemma GenesisFundsZones(balance: nat, zds: seq<ZoneDrop>, rs: seq<ClaimRecord>)
    requires DistinctRecords(rs) && DistinctDrops(zds)
    requires forall r :: r in rs ==> FreshRecord(r)
    requires InitGenesis(balance, zds, rs).0
    ensures var st := InitGenesis(balance, zds, rs).1;
            Inv(st) <==> forall chain :: chain in st.drops ==> SafeDrop(st.drops[chain]) && MaxIn(rs, chain) < TWO64
  {
    hide SafeDrop, MaxIn, ClaimedIn, Potential, Claimed, InitGenesis, TiersClosed, CappedForever;
    var st := InitGenesis(balance, zds, rs).1;
    GenesisState(balance, zds, rs);
    forall r | r in st.records && r.chainId in st.drops && SafeDrop(st.drops[r.chainId])
      ensures RecordOk(st.drops[r.chainId], r)
    {
      FreshRecordCapped(st.drops[r.chainId], r);
      NoTiersClosed();
    }
    forall chain | chain in st.drops
      ensures ZoneOk(st, chain) <==> SafeDrop(st.drops[chain]) && MaxIn(rs, chain) < TWO64
    {
      GenesisZone(rs, chain);
      ModBound(MaxIn(rs, chain));
    }
  }

  /** What a genesis that does not panic leaves: the given records, and zones funded with their 64-bit sums. */
  lemma GenesisState(balance: nat, zds: seq<ZoneDrop>, rs: seq<ClaimRecord>)
    requires DistinctRecords(rs) && DistinctDrops(zds)
    requires InitGenesis(balance, zds, rs).0
    ensures var st := InitGenesis(balance, zds, rs).1;
            && st.records == rs
            && st.funds.Keys == st.drops.Keys
            && forall chain :: chain in st.drops ==>
                 st.funds[chain] == st.drops[chain].allocation == MaxIn(rs, chain) % TWO64
  {
    hide MaxIn, FundDrops, StoreRecords;
    var zsum := StoreRecords(rs, [], map[], 0).1;
    assert [] + rs == rs;
    FundDropsLaw(zds, zsum, balance, map[], map[]);
    StoredAsGiven(rs, [], map[], 0);
    var st := InitGenesis(balance, zds, rs).1;
    forall chain | chain in st.drops ensures st.funds[chain] == st.drops[chain].allocation == MaxIn(rs, chain) % TWO64 {
      ZoneSumsWrap(rs, [], map[], 0, chain);
    }
  }

  lemma GenesisZone(rs: seq<ClaimRecord>, chain: string)
    requires forall r :: r in rs ==> FreshRecord(r)
    ensures MaxIn(rs, chain) >= 0 && ClaimedIn(rs, chain) == 0
  {
    NothingClaimedIn(rs, chain);
    MaxNonNegative(rs, chain);
  }

  lemma NoTiersClosed()
    ensures TiersClosed(map[])
  {
  }

  /** A genesis that passes every check of InitGenesis, with a zone whose sum wrapped around. */
  lemma GenesisCanWrap()
    ensures var max := TWO63 - 1;
            var zd := ZoneDrop("c", 0, 10, 10, TWO63 - 3, [D.ONE]);
            var rs := [ClaimRecord("c", "x", map[], max, 0), ClaimRecord("c", "y", map[], max, 0),
                       ClaimRecord("c", "z", map[], max, 0)];
            && SafeDrop(zd) && DistinctRecords(rs) && (forall r :: r in rs ==> FreshRecord(r))
            && InitGenesis(TWO63, [zd], rs).0
            && !Inv(InitGenesis(TWO63, [zd], rs).1)
  {
    var max: nat := TWO63 - 1;
    var zd := ZoneDrop("c", 0, 10, 10, TWO63 - 3, [D.ONE]);
    var x, y := ClaimRecord("c", "x", map[], max, 0), ClaimRecord("c", "y", map[], max, 0);
    var z := ClaimRecord("c", "z", map[], max, 0);
    var rs := [x, y, z];
    assert "x"[0] != "y"[0] && "x"[0] != "z"[0] && "y"[0] != "z"[0];
    OneWeight(zd, ACTIONS);
    ThreeStored(x, y, z);
    var zds := [zd];
    var zsum := StoreRecords(rs, [], map[], 0).1;
    assert zds[1..] == [];
    var drops, funds := map["c" := zd], map["c" := zd.allocation];
    assert map[]["c" := zd] == drops && map[]["c" := zd.allocation] == funds;
    assert FundDrops([], zsum, 2, drops, funds) == (true, drops, funds);
    assert FundDrops(zds, zsum, TWO63, map[], map[]) == FundDrops([], zsum, 2, drops, funds);
    assert "c" in InitGenesis(TWO63, zds, rs).1.drops;
    ThreeMaxima(x, y, z);
    GenesisFundsZones(TWO63, zds, rs);
  }

  lemma {:induction false} OneWeight(zd: ZoneDrop, k: nat)
    requires |zd.actions| == 1
    ensures WeightTo(zd, k) == if k > 0 then zd.actions[0] else 0
  {
    if k == 0 {
    } else {
      OneWeight(zd, k - 1);
    }
  }

  lemma ThreeStored(x: ClaimRecord, y: ClaimRecord, z: ClaimRecord)
    requires x.chainId == y.chainId == z.chainId && x.maxAllocation == y.maxAllocation == z.maxAllocation == TWO63 - 1
    ensures var (records, zsum, sum) := StoreRecords([x, y, z], [], map[], 0);
            zsum == map[x.chainId := TWO63 - 3] && sum == TWO63 - 3
  {
    hide PutRecord;
    var c := x.chainId;
    assert [x, y, z][1..] == [y, z] && [y, z][1..] == [z] && [z][1..] == [];
    var s1 := PutRecord([], x);
    var s2 := PutRecord(s1, y);
    var s3 := PutRecord(s2, z);
    assert StoreRecords([x, y, z], [], map[], 0) == StoreRecords([y, z], s1, map[c := TWO63 - 1], TWO63 - 1);
    assert map[c := TWO63 - 1][c := TWO64 - 2] == map[c := TWO64 - 2];
    assert StoreRecords([y, z], s1, map[c := TWO63 - 1], TWO63 - 1)
        == StoreRecords([z], s2, map[c := TWO64 - 2], TWO64 - 2);
    assert map[c := TWO64 - 2][c := TWO63 - 3] == map[c := TWO63 - 3];
    assert StoreRecords([], s3, map[c := TWO63 - 3], TWO63 - 3) == (s3, map[c := TWO63 - 3], TWO63 - 3);
    assert StoreRecords([z], s2, map[c := TWO64 - 2], TWO64 - 2)
        == StoreRecords([], s3, map[c := TWO63 - 3], TWO63 - 3);
  }

  lemma ThreeMaxima(x: ClaimRecord, y: ClaimRecord, z: ClaimRecord)
    requires x.chainId == y.chainId == z.chainId
    ensures MaxIn([x, y, z], x.chainId) == x.maxAllocation + y.maxAllocation + z.maxAllocation
  {
    var f := MaxOn(x.chainId);
    assert [x, y, z][1..] == [y, z] && [y, z][1..] == [z] && [z][1..] == [];
    assert SumBy(f, []) == 0;
    assert SumBy(f, [z]) == f(z) + SumBy(f, []);
    assert SumBy(f, [y, z]) == f(y) + SumBy(f, [z]);
    assert SumBy(f, [x, y, z]) == f(x) + SumBy(f, [y, z]);
  }

  lemma ModBound(n: nat)
    ensures n <= n % TWO64 <==> n < TWO64
  {
  }
}

/** The airdrop keeper, on a store that is updated in place. */
module AirdropKeeper {
  import D = Dec
  import opened Airdrop
  import opened Words
  import opened AirdropRuns

  function DepositSum(receipts: seq<nat>): nat
  {
    if receipts == [] then 0 else receipts[0] + DepositSum(receipts[1..])
  }

  /** `receipts` are the base denomination amounts of the user's deposits to the zone. */
  method VerifyDeposits(receipts: seq<nat>, baseValue: nat, threshold: int) returns (ok: bool)
    ensures ok == VerifyDeposit(DepositSum(receipts), baseValue, threshold)
  {
    var sum := 0;
    for i := 0 to |receipts|
      invariant sum + DepositSum(receipts[i..]) == DepositSum(receipts)
    {
      sum := sum + receipts[i];
    }
    ok := sum >= D.TruncateInt(D.MulInt(threshold, ToInt64(baseValue)));
  }

  /** The tier loop of getClaimAmountAndUpdateRecord. */
  method ClaimTiers(zd: ZoneDrop, stored: ClaimRecord, action: int, time: int) returns (c: Amount, r: ClaimRecord)
    ensures (c, r) == CompleteTiers(zd, stored, stored, DEPOSIT_T1, action, time, 0)
  {
    r := stored;
    var sum, a := 0, DEPOSIT_T1;
    while a <= action
      invariant CompleteTiers(zd, stored, r, a, action, time, sum)
          == CompleteTiers(zd, stored, stored, DEPOSIT_T1, action, time, 0)
    {
      if a !in r.completed {
        var claimable := Claimable(zd, stored, a, time);
        if claimable.Failed? {
          return Failed, r;
        }
        r := WithCompleted(r, a, time, claimable.n);
        sum := Add64(sum, claimable.n);
      }
      a := a + 1;
    }
    c := Amount(sum);
  }

  class Keeper {
    var records: seq<ClaimRecord>
    var drops: map<string, ZoneDrop>
    var funds: map<string, nat>

    ghost function View(): State
      reads this
    {
      State(records, drops, funds)
    }

    /** Genesis; the flag says whether it went through without a panic. */
    method InitGenesisState(balance: nat, zds: seq<ZoneDrop>, rs: seq<ClaimRecord>) returns (ok: bool)
      modifies this
      ensures ok == InitGenesis(balance, zds, rs).0
      ensures ok ==> View() == InitGenesis(balance, zds, rs).1
    {
      records, drops, funds := [], map[], map[];
      var zsum: map<string, nat>, sum: nat := map[], 0;
      assert rs[0..] == rs;
      for i := 0 to |rs|
        invariant drops == map[] && funds == map[]
        invariant StoreRecords(rs[i..], records, zsum, sum) == StoreRecords(rs, [], map[], 0)
      {
        assert rs[i..][0] == rs[i] && rs[i..][1..] == rs[i + 1..];
        zsum := zsum[rs[i].chainId := Add64(ZoneSum(zsum, rs[i].chainId), rs[i].maxAllocation)];
        sum := Add64(sum, rs[i].maxAllocation);
        records := PutRecord(records, rs[i]);
      }
      if balance >= TWO64 || sum > balance {
        return false;
      }
      ok := FundZones(zds, zsum, balance);
    }

    method FundZones(zds: seq<ZoneDrop>, zsum: map<string, nat>, balance: nat) returns (ok: bool)
      modifies this
      ensures records == old(records)
      ensures (ok, drops, funds) == FundDrops(zds, zsum, balance, old(drops), old(funds))
    {
      var left: nat := balance;
      assert zds[0..] == zds;
      for i := 0 to |zds|
        invariant records == old(records)
        invariant FundDrops(zds[i..], zsum, left, drops, funds) == FundDrops(zds, zsum, balance, old(drops), old(funds))
      {
        assert zds[i..][0] == zds[i] && zds[i..][1..] == zds[i + 1..];
        var zd := zds[i];
        if zd.chainId !in zsum || zsum[zd.chainId] != zd.allocation || left < zd.allocation {
          return false;
        }
        left := left - zd.allocation;
        funds := funds[zd.chainId := (if zd.chainId in funds then funds[zd.chainId] else 0) + zd.allocation];
        drops := drops[zd.chainId := zd];
      }
      return true;
    }

    /** A claim message, with the outcome of the foreign checks and the user's deposits as inputs. */
    method ClaimAction(chain: string, action: int, address: string, time: int, verified: bool, receipts: seq<nat>)
      returns (res: Result)
      modifies this
      ensures (res, View())
          == Claim(old(View()), ClaimMsg(chain, action, address, Env(time, verified, DepositSum(receipts))))
    {
      hide Claimable, VerifyDeposit, Threshold, CompleteTiers, WithCompleted;
      if !(0 <= action < ACTIONS) || chain !in drops {
        return Error;
      }
      var zd, i := drops[chain], FindRecord(records, chain, address);
      if !IsActive(zd, time) || i == |records| {
        return Nothing;
      }
      var r := records[i];
      if action in r.completed || action == GBP {
        return Error;
      }
      var passed := verified;
      if action == INITIAL_CLAIM {
        passed := true;
      } else if DEPOSIT_T1 <= action <= DEPOSIT_T5 {
        passed := VerifyDeposits(receipts, r.baseValue, Threshold(action));
      }
      if !passed {
        return Error;
      }
      var c: Amount, t;
      if DEPOSIT_T1 < action <= DEPOSIT_T5 {
        c, t := ClaimTiers(zd, r, action, time);
      } else {
        c := Claimable(zd, r, action, time);
        t := if c.Amount? then WithCompleted(r, action, time, c.n) else r;
      }
      // an error or a failed transfer undoes the whole message
      if c.Failed? || chain !in funds || funds[chain] < c.n {
        return Error;
      }
      records := records[i := t];
      funds := funds[chain := funds[chain] - c.n];
      res := Paid(c.n);
    }
  }
}
