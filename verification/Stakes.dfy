/**
 The pipeline of deposits, validator by validator and account by account: what is planned for a
 validator, on its way to it and delegated to it.
 */
module Stakes {
  import opened Coins
  import opened StableSort
  import opened Allocations
  import opened Intent
  import opened Plans
  import opened PlanShares
  import opened Accounts
  import opened Redemption
  import opened Sums
  import opened Pipeline

  /** Which accounts are meant: a certain one, or all of them. */
  predicate Of(who: Option<string>, d: string) { who.None? || who.value == d }

  function PlanFor(who: Option<string>, v: string): PlanRecord -> int
  {
    (p: PlanRecord) => if Of(who, p.delegator) && p.validator == v then p.amount else 0
  }

  function DelegateFor(who: Option<string>, v: string): Delegate -> int
  {
    (m: Delegate) => if Of(who, m.delegator) && m.validator == v then m.amount else 0
  }

  function RecordFor(who: Option<string>, v: string): Delegation -> int
  {
    (r: Delegation) => if Of(who, r.delegator) && r.validator == v then r.amount else 0
  }

  ghost function PacketFor(who: Option<string>, v: string): Packet -> int
  {
    (p: Packet) => match p case Sends(_, _) => 0 case Delegates(msgs) => SumBy(DelegateFor(who, v), msgs)
  }

  /** What is delegated to v by the accounts that are meant. */
  ghost function DelegatedFor(records: seq<Delegation>, who: Option<string>, v: string): int
  {
    SumBy(RecordFor(who, v), records)
  }

  /** Stored plans, delegations in flight and recorded delegations of a validator. */
  ghost function Stake(st: State, who: Option<string>, v: string): int
  {
    SumBy(PlanFor(who, v), st.plans) + SumBy(PacketFor(who, v), st.flight) + DelegatedFor(st.records, who, v)
  }

  lemma {:induction false} DelegatedForAll(records: seq<Delegation>, v: string)
    ensures DelegatedFor(records, None, v) == DelegatedTo(records, v)
  {
    if records == [] {
    } else {
      DelegatedForAll(records[1..], v);
    }
  }

  // ----- Acknowledgements -----

  lemma {:induction false} OneDelegator(msgs: seq<Delegate>, d: string, who: Option<string>, v: string)
    requires forall m :: m in msgs ==> m.delegator == d
    ensures SumBy(DelegateFor(who, v), msgs) == if Of(who, d) then SumBy(ToValidator(v), msgs) else 0
  {
    if msgs == [] {
    } else {
      assert msgs[0] in msgs;
      OneDelegator(msgs[1..], d, who, v);
    }
  }

  lemma {:induction false} WithoutFor(plans: seq<PlanRecord>, h: string, d: string, who: Option<string>, v: string)
    ensures SumBy(PlanFor(who, v), Without(plans, h, d)) + (if Of(who, d) then SumBy(PlanAt(h, d, v), plans) else 0)
         == SumBy(PlanFor(who, v), plans)
  {
    if plans == [] {
    } else {
      WithoutFor(plans[1..], h, d, who, v);
      var r, rest := Without(plans, h, d), Without(plans[1..], h, d);
      if plans[0].hash == h && plans[0].delegator == d {
        assert r == rest;
      } else {
        assert r == [plans[0]] + rest && r[1..] == rest;
      }
    }
  }

  /** What a completed send takes out of the plans it puts into delegations, for every account and validator. */
  lemma ConsumedKeeps(zone: Zone, plans: seq<PlanRecord>, h: string, to: string, who: Option<string>, v: string)
    ensures var (msgs, rest) := Consumed(zone, plans, h, to);
            SumBy(DelegateFor(who, v), msgs) + SumBy(PlanFor(who, v), rest) == SumBy(PlanFor(who, v), plans)
  {
    hide PlanSum;
    ConsumedLaw(zone, plans, h, to);
    OneDelegator(Consumed(zone, plans, h, to).0, to, who, v);
    WithoutFor(plans, h, to, who, v);
  }

  lemma {:induction false} AddRecordFor(records: seq<Delegation>, d: string, u: string, n: nat, who: Option<string>,
                                        v: string)
    ensures DelegatedFor(AddRecord(records, d, u, n), who, v)
         == DelegatedFor(records, who, v) + (if Of(who, d) && u == v then n else 0)
  {
    if records == [] {
      SumByOne(RecordFor(who, v), Delegation(d, u, n));
    } else {
      var r := AddRecord(records, d, u, n);
      if records[0].delegator == d && records[0].validator == u {
        assert r[1..] == records[1..];
      } else {
        AddRecordFor(records[1..], d, u, n, who, v);
        assert r[1..] == AddRecord(records[1..], d, u, n);
      }
    }
  }

  lemma HandleKeepsStake(zone: Zone, st: State, i: nat, who: Option<string>, v: string)
    requires i < |st.flight| && Pending(st.flight[i]) > 0
    ensures Stake(Handle(zone, st, i), who, v) == Stake(st, who, v)
  {
    hide Consumed, AddRecord, DelegatedFor;
    var f := PacketFor(who, v);
    match st.flight[i]
    case Sends(memo, sends) =>
      var (msgs, plans) := Consumed(zone, st.plans, memo, sends[0].to);
      ConsumedKeeps(zone, st.plans, memo, sends[0].to, who, v);
      var q := Sends(memo, sends[1..]);
      SumByUpdate(f, st.flight, i, q);
      SumByConcat(f, st.flight[i := q], [Delegates(msgs)]);
      SumByOne(f, Delegates(msgs));
    case Delegates(msgs) =>
      SumByUpdate(f, st.flight, i, Delegates(msgs[1..]));
      AddRecordFor(st.records, msgs[0].delegator, msgs[0].validator, msgs[0].amount, who, v);
  }

  /** An acknowledgement moves stake along, but never between validators or accounts. */
  lemma {:induction false} AckKeepsStake(zone: Zone, st: State, i: nat, who: Option<string>, v: string)
    requires i < |st.flight|
    ensures Stake(Ack(zone, st, i), who, v) == Stake(st, who, v)
    decreases Pending(st.flight[i])
  {
    hide Handle, Stake;
    if Pending(st.flight[i]) == 0 {
      DropKeepsStake(st, i, who, v);
    } else {
      HandleKeepsStake(zone, st, i, who, v);
      HandleTakesOne(zone, st, i);
      AckKeepsStake(zone, Handle(zone, st, i), i, who, v);
    }
  }

  lemma HandleTakesOne(zone: Zone, st: State, i: nat)
    requires i < |st.flight| && Pending(st.flight[i]) > 0
    ensures var t := Handle(zone, st, i);
            i < |t.flight| && Pending(t.flight[i]) < Pending(st.flight[i])
  {
    hide Consumed, AddRecord;
  }

  lemma DropKeepsStake(st: State, i: nat, who: Option<string>, v: string)
    requires i < |st.flight| && Pending(st.flight[i]) == 0
    ensures Stake(st.(flight := st.flight[..i] + st.flight[i + 1..]), who, v) == Stake(st, who, v)
  {
    SumByRemove(PacketFor(who, v), st.flight, i);
  }

  // ----- Deposits -----

  /** The account that v is given to when a plan is allotted; "" if it is not in the plan. */
  ghost function AccountOf(plan: Entries, denom: string, bins: Entries, v: string): string
    decreases plan
  {
    if plan == [] then ""
    else
      var n := AmountOf(plan[0].amount, denom);
      if plan[0].address == v then Assign(bins, v, n).0
      else AccountOf(plan[1..], denom, Assign(bins, plan[0].address, n).1, v)
  }

  ghost function GivenTo(plan: Entries, denom: string, bins: Entries, who: Option<string>, v: string): nat
  {
    if Of(who, AccountOf(plan, denom, bins, v)) then Held(plan, v, denom) else 0
  }

  lemma {:induction false} AssignAllFor(plan: Entries, denom: string, h: string, bins: Entries, sends: Entries,
                                        plans: seq<PlanRecord>, who: Option<string>, v: string)
    requires Distinct(plan) && Unplanned(plans, h, plan) && bins != [] && Distinct(bins) && Distinct(sends)
    ensures SumBy(PlanFor(who, v), AssignAll(plan, denom, h, bins, sends, plans).1)
         == SumBy(PlanFor(who, v), plans) + GivenTo(plan, denom, bins, who, v)
    decreases plan
  {
    hide Assign, Allocated, SetPlan, Distinct, Has, GrewAlike;
    if plan == [] {
    } else {
      var u, n := plan[0].address, AmountOf(plan[0].amount, denom);
      var (account, bins') := Assign(bins, u, n);
      var s := Allocated(sends, account, One(denom, n));
      var rec := PlanRecord(h, account, u, n);
      var p := SetPlan(plans, rec);
      AssignOne(plan, denom, h, bins, sends, plans);
      SumByConcat(PlanFor(who, v), plans, [rec]);
      SumByOne(PlanFor(who, v), rec);
      TailDistinct(plan);
      HeadNotInTail(plan);
      assert Unplanned(p, h, plan[1..]);
      AssignAllFor(plan[1..], denom, h, bins', s, p, who, v);
      if u == v {
        HeadAbsent(plan);
        AbsentHoldsNothing(plan[1..], u, denom);
      }
    }
  }

  /** What a deposit plans for a validator, at the accounts that are meant. */
  ghost function PlannedFor(zone: Zone, st: State, e: Event, who: Option<string>, v: string): nat
    requires ValidEvent(e)
  {
    match e
    case AckReceived(_) => 0
    case DepositSeen(hash, amount, c) =>
      if hash in st.receipts || zone.accounts == [] then 0
      else match PlanOf(zone, st.records, amount, c)
        case None => 0
        case Some(plan) =>
          GivenTo(ByAddress(AllocationKey(), plan), zone.denom, Bins(zone.accounts, zone.denom, st.records), who, v)
  }

  lemma DepositedStake(zone: Zone, st: State, hash: string, plan: Entries, who: Option<string>, v: string)
    requires Inv(zone, st) && hash !in st.receipts && zone.accounts != [] && Distinct(plan)
    ensures var bins := Bins(zone.accounts, zone.denom, st.records);
            Stake(Deposited(zone, st, hash, plan), who, v)
            == Stake(st, who, v) + GivenTo(ByAddress(AllocationKey(), plan), zone.denom, bins, who, v)
  {
    hide Bins, AssignAll, Transfer, ByAddress, DistinctAddresses;
    var sorted := ByAddress(AllocationKey(), plan);
    BinsReady(zone, st.records);
    DistinctSurvivesSorting(AllocationKey(), plan, sorted);
    NothingHeld(hash, zone.denom);
    AssignAllFor(sorted, zone.denom, hash, Bins(zone.accounts, zone.denom, st.records), [], st.plans, who, v);
    var p := Sends(hash, Transfer(zone, Allot(zone, st.records, st.plans, hash, plan).0));
    SumByConcat(PacketFor(who, v), st.flight, [p]);
    SumByOne(PacketFor(who, v), p);
  }

  lemma StepStake(zone: Zone, st: State, e: Event, who: Option<string>, v: string)
    requires Inv(zone, st) && ValidEvent(e)
    ensures Stake(Step(zone, st, e), who, v) == Stake(st, who, v) + PlannedFor(zone, st, e, who, v)
  {
    hide Inv, Stake, Deposited, PlanOf, Ack, GivenTo, Bins, ByAddress;
    match e
    case AckReceived(i) => if i < |st.flight| { AckKeepsStake(zone, st, i, who, v); }
    case DepositSeen(hash, amount, c) =>
      if hash !in st.receipts && zone.accounts != [] {
        var p := PlanOf(zone, st.records, amount, c);
        if p.Some? {
          PlanIsDistinct(zone, st.records, amount, c);
          DepositedStake(zone, st, hash, p.value, who, v);
        }
      }
  }

  lemma PlannedForAll(zone: Zone, st: State, hash: string, amount: nat, c: Choice, v: string)
    requires ValidChoice(c) && hash !in st.receipts && zone.accounts != []
    ensures var p := PlanOf(zone, st.records, amount, c);
            PlannedFor(zone, st, DepositSeen(hash, amount, c), None, v)
            == if p.Some? then Held(p.value, v, zone.denom) else 0
  {
    hide PlanOf, Bins, ByAddress, Held;
    var p := PlanOf(zone, st.records, amount, c);
    if p.Some? {
      PlanIsDistinct(zone, st.records, amount, c);
      HeldIgnoresArrangement(p.value, ByAddress(AllocationKey(), p.value), v, zone.denom);
    }
  }

  /** A first deposit under a depositor's own intent plans its share for every validator, or nothing where it panics. */
  lemma UserDepositPlans(zone: Zone, st: State, hash: string, amount: nat, w: Weights, keys: seq<string>, v: string)
    requires ValidChoice(User(w, keys)) && hash !in st.receipts && zone.accounts != []
    ensures PlannedFor(zone, st, DepositSeen(hash, amount, User(w, keys)), None, v)
         == if v in w && Admissible(keys, w, amount) then Share(amount, w[v]) else 0
  {
    hide UserPlan, Share, Held, Admissible, PlannedFor;
    PlannedForAll(zone, st, hash, amount, User(w, keys), v);
    UserPlanSum(keys, w, Coin(zone.denom, amount), []);
    UserPlanExactlyFor(keys, w, Coin(zone.denom, amount), [], v);
    AbsentHoldsNothing([], v, zone.denom);
  }

  /**
   A first deposit under the global intent that is planned at all: every validator is planned its
   part by delta and weight, and the largest in (delta, address) what is missing besides.
   */
  lemma GlobalDepositPlans(zone: Zone, st: State, hash: string, amount: nat, w: Weights, keys: seq<string>, v: string)
    requires ValidChoice(Global(w, keys)) && hash !in st.receipts && zone.accounts != []
    requires PlanOf(zone, st.records, amount, Global(w, keys)).Some?
    ensures var ds := Deltas(Bins(zone.accounts, zone.denom, st.records), DelegatedTotal(st.records) + amount, w, keys);
            && ds != []
            && PlannedFor(zone, st, DepositSeen(hash, amount, Global(w, keys)), None, v)
               == Portioned(ds, amount, w, keys, v)
                  + (if v == ds[|ds| - 1].valoper then Missing(ds, amount, w, keys) else 0)
  {
    hide GlobalPlan, Held, PlannedFor, Portioned, Missing, Bins, Deltas;
    PlannedForAll(zone, st, hash, amount, Global(w, keys), v);
    PlanExactly(Coin(zone.denom, DelegatedTotal(st.records)), Bins(zone.accounts, zone.denom, st.records),
                Coin(zone.denom, amount), w, keys, v);
  }

  // ----- Runs -----

  ghost function PlannedForInRun(zone: Zone, st: State, es: seq<Event>, who: Option<string>, v: string): nat
    requires forall e :: e in es ==> ValidEvent(e)
    decreases es
  {
    if es == [] then 0
    else PlannedFor(zone, st, es[0], who, v) + PlannedForInRun(zone, Step(zone, st, es[0]), es[1..], who, v)
  }

  /**
   Over every run, in any order of deposits and acknowledgements, and for every validator, at one
   account or at all of them: stored plans, delegations in flight and records grow by exactly what
   the deposits plan for it.
   */
  lemma {:induction false} RunKeepsStakes(zone: Zone, st: State, es: seq<Event>, who: Option<string>, v: string)
    requires Inv(zone, st) && forall e :: e in es ==> ValidEvent(e)
    ensures Stake(Run(zone, st, es), who, v) == Stake(st, who, v) + PlannedForInRun(zone, st, es, who, v)
    decreases es
  {
    hide Inv, Stake, Step, PlannedFor;
    if es == [] {
    } else {
      StepLaw(zone, st, es[0]);
      StepStake(zone, st, es[0], who, v);
      RunKeepsStakes(zone, Step(zone, st, es[0]), es[1..], who, v);
    }
  }

  /** Plans that add up to nothing for every deposit and account hold nothing. */
  lemma {:induction false} EmptyPlans(plans: seq<PlanRecord>)
    requires forall h, d :: PlanSum(plans, h, d) == 0
    ensures forall p :: p in plans ==> p.amount == 0
  {
    forall p | p in plans ensures p.amount == 0 {
      var i :| 0 <= i < |plans| && plans[i] == p;
      var f := PlanAmount(p.hash, p.delegator);
      SumByRemove(f, plans, i);
      PlanSumNonNegative(plans[..i] + plans[i + 1..], p.hash, p.delegator);
      assert PlanSum(plans, p.hash, p.delegator) == 0;
    }
  }

  lemma {:induction false} PlanSumNonNegative(plans: seq<PlanRecord>, h: string, d: string)
    ensures PlanSum(plans, h, d) >= 0
  {
    if plans == [] {
    } else {
      PlanSumNonNegative(plans[1..], h, d);
    }
  }

  /**
   Once nothing is in flight, the records hold exactly what was planned: in total, for every
   validator, and for every pair of account and validator. No plan amount is left.
   */
  lemma QuietRunIsDelegated(zone: Zone, es: seq<Event>)
    requires forall e :: e in es ==> ValidEvent(e)
    requires Run(zone, State({}, [], [], []), es).flight == []
    ensures var st := State({}, [], [], []);
            var t := Run(zone, st, es);
            && DelegatedTotal(t.records) == PlannedInRun(zone, st, es)
            && (forall v :: DelegatedTo(t.records, v) == PlannedForInRun(zone, st, es, None, v))
            && (forall who, v :: DelegatedFor(t.records, who, v) == PlannedForInRun(zone, st, es, who, v))
            && forall h, d :: PlanSum(t.plans, h, d) == 0
  {
    var st := State({}, [], [], []);
    assert Inv(zone, st);
    RunConserves(zone, st, es);
    var t := Run(zone, st, es);
    forall h, d ensures PlanSum(t.plans, h, d) == 0 {
      assert SentTo(t.flight, h, d) == PlanSum(t.plans, h, d);
    }
    EmptyPlans(t.plans);
    forall who, v ensures DelegatedFor(t.records, who, v) == PlannedForInRun(zone, st, es, who, v) {
      RunKeepsStakes(zone, st, es, who, v);
      SumByZero(PlanFor(who, v), t.plans);
    }
    forall v ensures DelegatedTo(t.records, v) == PlannedForInRun(zone, st, es, None, v) {
      DelegatedForAll(t.records, v);
    }
  }
}
