/**
 From a deposit to delegation records: DeterminePlanForDelegation, TransferToDelegate,
 handleSendToDelegate and HandleDelegate of x/interchainstaking/keeper, as steps over
 a state with interchain-account packets in flight.
 */
module Pipeline {
  import D = Dec
  import opened Coins
  import opened StableSort
  import opened Allocations
  import opened Intent
  import opened Plans
  import opened Accounts
  import opened Redemption
  import opened Sums

  datatype Zone = Zone(accounts: seq<string>, denom: string)

  datatype PlanRecord = PlanRecord(hash: string, delegator: string, validator: string, amount: nat)

  datatype Send = Send(to: string, amount: nat)

  datatype Delegate = Delegate(delegator: string, validator: string, amount: nat)

  /** A transaction on its way to the remote chain; its acknowledgement brings the messages back. */
  datatype Packet = Sends(memo: string, sends: seq<Send>) | Delegates(msgs: seq<Delegate>)

  datatype State = State(receipts: set<string>, plans: seq<PlanRecord>, records: seq<Delegation>, flight: seq<Packet>)

  /** Which intent a deposit is planned by. */
  datatype Choice = Global(w: Weights, keys: seq<string>) | User(w: Weights, keys: seq<string>)

  /** The keys of a choice are those of its intent; the weights may have any sign. */
  ghost predicate ValidChoice(c: Choice) { Enumerates(c.keys, c.w) }

  // ----- Planning a deposit -----

  function SetPlan(plans: seq<PlanRecord>, p: PlanRecord): seq<PlanRecord>
  {
    if plans == [] then [p]
    else if plans[0].hash == p.hash && plans[0].delegator == p.delegator && plans[0].validator == p.validator
    then [p] + plans[1..]
    else [plans[0]] + SetPlan(plans[1..], p)
  }

  /** Finds an account for each planned validator; the sends by account, and the stored plans. */
  function AssignAll(plan: Entries, denom: string, hash: string, bins: Entries, sends: Entries, plans: seq<PlanRecord>)
    : (Entries, seq<PlanRecord>)
    decreases plan
  {
    if plan == [] then (sends, plans)
    else
      var n := AmountOf(plan[0].amount, denom);
      var (account, bins') := Assign(bins, plan[0].address, n);
      AssignAll(plan[1..], denom, hash, bins',
                Allocated(sends, account, One(denom, n)),
                SetPlan(plans, PlanRecord(hash, account, plan[0].address, n)))
  }

  function PlanOf(zone: Zone, records: seq<Delegation>, amount: nat, c: Choice): Option<Entries>
    requires forall v :: v in c.keys ==> v in c.w
  {
    match c {
      case Global(w, keys) =>
        var p := GlobalPlan(Coin(zone.denom, DelegatedTotal(records)), Bins(zone.accounts, zone.denom, records),
                            Coin(zone.denom, amount), w, keys);
        if p.Planned? then Some(p.entries) else None
      case User(w, keys) => UserPlan(keys, w, Coin(zone.denom, amount), [])
    }
  }

  function TransferMsgs(sends: Entries, denom: string): seq<Send>
  {
    if sends == [] then []
    else
      var n := AmountOf(sends[0].amount, denom);
      (if n > 0 then [Send(sends[0].address, n)] else []) + TransferMsgs(sends[1..], denom)
  }

  /** The sends by account and the stored plans for a delegation plan. */
  function Allot(zone: Zone, records: seq<Delegation>, plans: seq<PlanRecord>, hash: string, plan: Entries)
    : (Entries, seq<PlanRecord>)
  {
    AssignAll(ByAddress(AllocationKey(), plan), zone.denom, hash, Bins(zone.accounts, zone.denom, records), [], plans)
  }

  function Transfer(zone: Zone, sends: Entries): seq<Send>
  {
    TransferMsgs(ByAddress(AllocationKey(), sends), zone.denom)
  }

  function Deposited(zone: Zone, st: State, hash: string, plan: Entries): State
  {
    var (sends, plans) := Allot(zone, st.records, st.plans, hash, plan);
    State(st.receipts + {hash}, plans, st.records, st.flight + [Sends(hash, Transfer(zone, sends))])
  }

  /** A deposit with a known receipt, or one whose planning panics, changes nothing. */
  function Deposit(zone: Zone, st: State, hash: string, amount: nat, c: Choice): State
    requires forall v :: v in c.keys ==> v in c.w
  {
    if hash in st.receipts || zone.accounts == [] then st
    else match PlanOf(zone, st.records, amount, c) {
      case None => st
      case Some(plan) => Deposited(zone, st, hash, plan)
    }
  }

  // ----- Acknowledgements -----

  function Matching(plans: seq<PlanRecord>, hash: string, delegator: string, out: Entries, denom: string): Entries
    decreases plans
  {
    if plans == [] then out
    else if plans[0].hash == hash && plans[0].delegator == delegator then
      Matching(plans[1..], hash, delegator, Allocated(out, plans[0].validator, One(denom, plans[0].amount)), denom)
    else Matching(plans[1..], hash, delegator, out, denom)
  }

  function Without(plans: seq<PlanRecord>, hash: string, delegator: string): seq<PlanRecord>
  {
    if plans == [] then []
    else (if plans[0].hash == hash && plans[0].delegator == delegator then [] else [plans[0]])
         + Without(plans[1..], hash, delegator)
  }

  function DelegateMsgs(plan: Entries, delegator: string, denom: string): seq<Delegate>
  {
    if plan == [] then []
    else
      var n := AmountOf(plan[0].amount, denom);
      (if n > 0 then [Delegate(delegator, plan[0].address, n)] else []) + DelegateMsgs(plan[1..], delegator, denom)
  }

  /** handleSendToDelegate: the delegations to submit for a completed send, and the plans that remain. */
  function Consumed(zone: Zone, plans: seq<PlanRecord>, hash: string, to: string): (seq<Delegate>, seq<PlanRecord>)
  {
    (DelegateMsgs(ByAddress(AllocationKey(), Matching(plans, hash, to, [], zone.denom)), to, zone.denom),
     Without(plans, hash, to))
  }

  function AddRecord(records: seq<Delegation>, delegator: string, validator: string, amount: nat): seq<Delegation>
  {
    if records == [] then [Delegation(delegator, validator, amount)]
    else if records[0].delegator == delegator && records[0].validator == validator then
      [Delegation(delegator, validator, records[0].amount + amount)] + records[1..]
    else [records[0]] + AddRecord(records[1..], delegator, validator, amount)
  }

  function Pending(p: Packet): nat { match p case Sends(_, s) => |s| case Delegates(m) => |m| }

  /** Handles the first message of packet i. */
  function Handle(zone: Zone, st: State, i: nat): State
    requires i < |st.flight| && Pending(st.flight[i]) > 0
  {
    match st.flight[i] {
      case Sends(memo, sends) =>
        var (msgs, plans) := Consumed(zone, st.plans, memo, sends[0].to);
        st.(plans := plans, flight := st.flight[i := Sends(memo, sends[1..])] + [Delegates(msgs)])
      case Delegates(msgs) =>
        st.(records := AddRecord(st.records, msgs[0].delegator, msgs[0].validator, msgs[0].amount),
            flight := st.flight[i := Delegates(msgs[1..])])
    }
  }

  /** HandleAcknowledgement: the messages of packet i in order, and then the packet is gone. */
  function Ack(zone: Zone, st: State, i: nat): State
    requires i < |st.flight|
    decreases Pending(st.flight[i])
  {
    if Pending(st.flight[i]) == 0 then st.(flight := st.flight[..i] + st.flight[i + 1..])
    else Ack(zone, Handle(zone, st, i), i)
  }

  datatype Event = DepositSeen(hash: string, amount: nat, choice: Choice) | AckReceived(i: nat)

  ghost predicate ValidEvent(e: Event) { e.DepositSeen? ==> ValidChoice(e.choice) }

  ghost function Step(zone: Zone, st: State, e: Event): State
    requires ValidEvent(e)
  {
    match e
    case DepositSeen(hash, amount, c) => Deposit(zone, st, hash, amount, c)
    case AckReceived(i) => if i < |st.flight| then Ack(zone, st, i) else st
  }

  ghost function Run(zone: Zone, st: State, es: seq<Event>): State
    requires forall e :: e in es ==> ValidEvent(e)
    decreases es
  {
    if es == [] then st else Run(zone, Step(zone, st, es[0]), es[1..])
  }

  // ----- The invariant -----

  function ToAmount(d: string): Send -> int { (m: Send) => if m.to == d then m.amount else 0 }

  ghost function PacketTo(h: string, d: string): Packet -> int
  {
    (p: Packet) => if p.Sends? && p.memo == h then SumBy(ToAmount(d), p.sends) else 0
  }

  /** What is in flight to account d for deposit h. */
  ghost function SentTo(flight: seq<Packet>, h: string, d: string): int { SumBy(PacketTo(h, d), flight) }

  function PlanAmount(h: string, d: string): PlanRecord -> int
  {
    (p: PlanRecord) => if p.hash == h && p.delegator == d then p.amount else 0
  }

  /** What the stored plans give account d for deposit h. */
  ghost function PlanSum(plans: seq<PlanRecord>, h: string, d: string): int { SumBy(PlanAmount(h, d), plans) }

  function Recipient(): Send -> string { (m: Send) => m.to }

  ghost predicate PacketOk(zone: Zone, st: State, p: Packet)
  {
    match p
    case Sends(memo, sends) =>
      && memo in st.receipts
      && DistinctBy(Recipient(), sends)
      && (forall m :: m in sends ==> m.to in zone.accounts)
    case Delegates(msgs) => forall m :: m in msgs ==> m.delegator in zone.accounts
  }

  ghost predicate MemosOnce(flight: seq<Packet>)
  {
    forall i, j :: 0 <= i < j < |flight| && flight[i].Sends? && flight[j].Sends? ==> flight[i].memo != flight[j].memo
  }

  ghost predicate Matched(st: State)
  {
    forall h, d :: SentTo(st.flight, h, d) == PlanSum(st.plans, h, d)
  }

  ghost predicate Inv(zone: Zone, st: State)
  {
    && OneRecordPerPair(st.records)
    && (forall r :: r in st.records ==> r.delegator in zone.accounts)
    && (forall p :: p in st.plans ==> p.hash in st.receipts)
    && (forall p :: p in st.flight ==> PacketOk(zone, st, p))
    && MemosOnce(st.flight)
    && Matched(st)
  }

  // ----- The ledger -----

  function SendAmount(): Send -> int { (m: Send) => m.amount }

  function DelegateAmount(): Delegate -> int { (m: Delegate) => m.amount }

  ghost function Value(): Packet -> int
  {
    (p: Packet) => match p case Sends(_, s) => SumBy(SendAmount(), s) case Delegates(m) => SumBy(DelegateAmount(), m)
  }

  /** Sends in flight, delegations in flight and recorded delegations, together. */
  ghost function Ledger(st: State): int { SumBy(Value(), st.flight) + DelegatedTotal(st.records) }

  // ----- Laws of planning -----

  ghost predicate Unplanned(plans: seq<PlanRecord>, h: string, plan: Entries)
  {
    forall p, a :: p in plans && a in plan && p.hash == h ==> p.validator != a.address
  }

  lemma {:induction false} SetPlanNew(plans: seq<PlanRecord>, p: PlanRecord)
    requires forall q :: q in plans && q.hash == p.hash ==> q.validator != p.validator
    ensures SetPlan(plans, p) == plans + [p]
  {
    if plans == [] {
    } else {
      assert plans[0] in plans;
      SetPlanNew(plans[1..], p);
      assert plans + [p] == [plans[0]] + (plans[1..] + [p]);
    }
  }

  /** Sends and stored plans of deposit h grow alike, account by account; other plans stay. */
  ghost predicate GrewAlike(sends: Entries, plans: seq<PlanRecord>, s: Entries, p: seq<PlanRecord>, h: string,
                            denom: string)
  {
    && (forall d :: Held(s, d, denom) - Held(sends, d, denom) == PlanSum(p, h, d) - PlanSum(plans, h, d))
    && (forall g, d :: g != h ==> PlanSum(p, g, d) == PlanSum(plans, g, d))
  }

  lemma PlanOneGrows(sends: Entries, plans: seq<PlanRecord>, rec: PlanRecord, denom: string)
    ensures GrewAlike(sends, plans, Allocated(sends, rec.delegator, One(denom, rec.amount)), plans + [rec],
                      rec.hash, denom)
  {
    var s, p := Allocated(sends, rec.delegator, One(denom, rec.amount)), plans + [rec];
    OneAmount(denom, rec.amount);
    forall d ensures Held(s, d, denom) == Held(sends, d, denom) + (if d == rec.delegator then rec.amount else 0) {
      AllocatedHeld(sends, rec.delegator, One(denom, rec.amount), d, denom);
    }
    forall g, d ensures PlanSum(p, g, d) == PlanSum(plans, g, d) + PlanAmount(g, d)(rec) {
      SumByConcat(PlanAmount(g, d), plans, [rec]);
      SumByOne(PlanAmount(g, d), rec);
    }
  }

  lemma AssignOne(plan: Entries, denom: string, h: string, bins: Entries, sends: Entries, plans: seq<PlanRecord>)
    requires plan != [] && Unplanned(plans, h, plan) && bins != [] && Distinct(bins) && Distinct(sends)
    ensures var n := AmountOf(plan[0].amount, denom);
            var (account, bins') := Assign(bins, plan[0].address, n);
            var s := Allocated(sends, account, One(denom, n));
            var p := SetPlan(plans, PlanRecord(h, account, plan[0].address, n));
            && p == plans + [PlanRecord(h, account, plan[0].address, n)]
            && GrewAlike(sends, plans, s, p, h, denom)
            && SumForDenom(s, denom) == SumForDenom(sends, denom) + n
            && Distinct(s)
            && bins' != [] && Distinct(bins')
            && (forall d :: Has(bins', d) <==> Has(bins, d))
            && (forall d :: Has(s, d) ==> Has(sends, d) || Has(bins, d))
  {
    var v, n := plan[0].address, AmountOf(plan[0].amount, denom);
    var (account, bins') := Assign(bins, v, n);
    var rec := PlanRecord(h, account, v, n);
    forall q | q in plans && q.hash == h ensures q.validator != v { assert plan[0] in plan; }
    SetPlanNew(plans, rec);
    PlanOneGrows(sends, plans, rec, denom);
    OneAmount(denom, n);
    AllocatedSum(sends, account, One(denom, n), denom);
    AllocatedDistinct(sends, account, One(denom, n));
    AssignKeepsAccounts(bins, v, n, account);
    forall d ensures Has(bins', d) <==> Has(bins, d)
             ensures Has(Allocated(sends, account, One(denom, n)), d) <==> Has(sends, d) || d == account
    {
      AssignKeepsAccounts(bins, v, n, d);
      AllocatedHas(sends, account, One(denom, n), d);
    }
  }

  /** Assigning a whole plan. */
  lemma {:induction false} AssignAllLaw(plan: Entries, denom: string, h: string, bins: Entries, sends: Entries,
                                        plans: seq<PlanRecord>)
    requires Distinct(plan) && Unplanned(plans, h, plan) && bins != [] && Distinct(bins) && Distinct(sends)
    ensures var (s, p) := AssignAll(plan, denom, h, bins, sends, plans);
            && GrewAlike(sends, plans, s, p, h, denom)
            && SumForDenom(s, denom) == SumForDenom(sends, denom) + SumForDenom(plan, denom)
            && Distinct(s)
            && (forall d :: Has(s, d) ==> Has(sends, d) || Has(bins, d))
            && (forall q :: q in p ==> q in plans || q.hash == h)
    decreases plan
  {
    if plan == [] {
    } else {
      var v, n := plan[0].address, AmountOf(plan[0].amount, denom);
      var (account, bins') := Assign(bins, v, n);
      var s := Allocated(sends, account, One(denom, n));
      var p := SetPlan(plans, PlanRecord(h, account, v, n));
      AssignOne(plan, denom, h, bins, sends, plans);
      TailDistinct(plan);
      HeadNotInTail(plan);
      assert Unplanned(p, h, plan[1..]);
      AssignAllLaw(plan[1..], denom, h, bins', s, p);
    }
  }

  lemma HeadNotInTail(s: Entries)
    requires s != [] && Distinct(s)
    ensures forall a :: a in s[1..] ==> a.address != s[0].address && a in s
  {
    forall a | a in s[1..] ensures a.address != s[0].address && a in s {
      var i :| 0 <= i < |s[1..]| && s[1..][i] == a;
      assert s[i + 1] == a;
      assert AllocationKey()(s[0]).address != AllocationKey()(s[i + 1]).address;
    }
  }

  lemma {:induction false} TransferTo(sends: Entries, denom: string, d: string)
    requires Distinct(sends)
    ensures SumBy(ToAmount(d), TransferMsgs(sends, denom)) == Held(sends, d, denom)
    ensures SumBy(SendAmount(), TransferMsgs(sends, denom)) == SumForDenom(sends, denom)
  {
    if sends == [] {
    } else {
      TailDistinct(sends);
      TransferTo(sends[1..], denom, d);
      var ms, rest := TransferMsgs(sends, denom), TransferMsgs(sends[1..], denom);
      HeadAbsent(sends);
      AbsentHoldsNothing(sends[1..], sends[0].address, denom);
      assert ms == (if AmountOf(sends[0].amount, denom) > 0
                    then [Send(sends[0].address, AmountOf(sends[0].amount, denom))] else []) + rest;
      assert AmountOf(sends[0].amount, denom) > 0 ==> ms[1..] == rest;
      assert AmountOf(sends[0].amount, denom) == 0 ==> ms == rest;
    }
  }

  lemma {:induction false} TransferRecipients(sends: Entries, denom: string)
    requires Distinct(sends)
    ensures var ms := TransferMsgs(sends, denom);
            && DistinctBy(Recipient(), ms)
            && (forall m :: m in ms ==> Has(sends, m.to))
  {
    if sends == [] {
    } else {
      TailDistinct(sends);
      TransferRecipients(sends[1..], denom);
      HeadAbsent(sends);
      var rest := TransferMsgs(sends[1..], denom);
      forall m | m in rest ensures Has(sends, m.to) && m.to != sends[0].address { HasSplit(sends, m.to); }
      HasSplit(sends, sends[0].address);
      forall j | 0 <= j < |rest| ensures Recipient()(rest[j]) != sends[0].address { assert rest[j] in rest; }
    }
  }

  // ----- Laws of acknowledgements -----

  lemma {:induction false} MatchingLaw(plans: seq<PlanRecord>, h: string, d: string, out: Entries, denom: string)
    ensures SumForDenom(Matching(plans, h, d, out, denom), denom) == SumForDenom(out, denom) + PlanSum(plans, h, d)
    decreases plans
  {
    if plans == [] {
    } else {
      var p := plans[0];
      if p.hash == h && p.delegator == d {
        OneAmount(denom, p.amount);
        AllocatedSum(out, p.validator, One(denom, p.amount), denom);
        MatchingLaw(plans[1..], h, d, Allocated(out, p.validator, One(denom, p.amount)), denom);
      } else {
        MatchingLaw(plans[1..], h, d, out, denom);
      }
    }
  }

  function PlanAt(h: string, d: string, v: string): PlanRecord -> int
  {
    (p: PlanRecord) => if p.hash == h && p.delegator == d && p.validator == v then p.amount else 0
  }

  /** What the plans of a deposit and account hold for each validator is what is gathered for it. */
  lemma {:induction false} MatchingHeld(plans: seq<PlanRecord>, h: string, d: string, out: Entries, denom: string,
                                        v: string)
    requires Distinct(out)
    ensures var r := Matching(plans, h, d, out, denom);
            Distinct(r) && Held(r, v, denom) == Held(out, v, denom) + SumBy(PlanAt(h, d, v), plans)
    decreases plans
  {
    hide Allocated, Held, One, Distinct;
    if plans == [] {
    } else {
      var p := plans[0];
      if p.hash == h && p.delegator == d {
        OneAmount(denom, p.amount);
        AllocatedHeld(out, p.validator, One(denom, p.amount), v, denom);
        AllocatedDistinct(out, p.validator, One(denom, p.amount));
        MatchingHeld(plans[1..], h, d, Allocated(out, p.validator, One(denom, p.amount)), denom, v);
      } else {
        MatchingHeld(plans[1..], h, d, out, denom, v);
      }
    }
  }

  function ToValidator(v: string): Delegate -> int { (m: Delegate) => if m.validator == v then m.amount else 0 }

  /** The messages for a validator are for what the plan holds for it. */
  lemma {:induction false} DelegateMsgsTo(plan: Entries, d: string, denom: string, v: string)
    requires Distinct(plan)
    ensures SumBy(ToValidator(v), DelegateMsgs(plan, d, denom)) == Held(plan, v, denom)
  {
    hide Distinct;
    if plan == [] {
    } else {
      TailDistinct(plan);
      DelegateMsgsTo(plan[1..], d, denom, v);
      HeadAbsent(plan);
      AbsentHoldsNothing(plan[1..], plan[0].address, denom);
      var ms, rest := DelegateMsgs(plan, d, denom), DelegateMsgs(plan[1..], d, denom);
      if AmountOf(plan[0].amount, denom) > 0 {
        assert ms == [Delegate(d, plan[0].address, AmountOf(plan[0].amount, denom))] + rest && ms[1..] == rest;
      } else {
        assert ms == rest;
      }
    }
  }

  lemma {:induction false} WithoutSum(plans: seq<PlanRecord>, h: string, d: string, g: string, e: string)
    ensures PlanSum(Without(plans, h, d), g, e) == if g == h && e == d then 0 else PlanSum(plans, g, e)
  {
    if plans == [] {
    } else {
      WithoutSum(plans[1..], h, d, g, e);
      var r, rest := Without(plans, h, d), Without(plans[1..], h, d);
      if plans[0].hash == h && plans[0].delegator == d {
        assert r == rest;
      } else {
        assert r == [plans[0]] + rest && r[1..] == rest;
      }
    }
  }

  lemma {:induction false} WithoutLaw(plans: seq<PlanRecord>, h: string, d: string)
    ensures forall p :: p in Without(plans, h, d) ==> p in plans && !(p.hash == h && p.delegator == d)
  {
    if plans == [] {
    } else {
      WithoutLaw(plans[1..], h, d);
    }
  }

  lemma {:induction false} DelegateMsgsLaw(plan: Entries, d: string, denom: string)
    ensures var ms := DelegateMsgs(plan, d, denom);
            && SumBy(DelegateAmount(), ms) == SumForDenom(plan, denom)
            && (forall m :: m in ms ==> m.delegator == d)
  {
    if plan == [] {
    } else {
      DelegateMsgsLaw(plan[1..], d, denom);
      var ms, rest := DelegateMsgs(plan, d, denom), DelegateMsgs(plan[1..], d, denom);
      if AmountOf(plan[0].amount, denom) > 0 {
        assert ms == [Delegate(d, plan[0].address, AmountOf(plan[0].amount, denom))] + rest && ms[1..] == rest;
      } else {
        assert ms == rest;
      }
    }
  }

  /** A completed send makes delegations to each validator for what its plans hold for it. */
  lemma ConsumedTo(zone: Zone, plans: seq<PlanRecord>, h: string, to: string, v: string)
    ensures SumBy(ToValidator(v), Consumed(zone, plans, h, to).0) == SumBy(PlanAt(h, to, v), plans)
  {
    hide Matching, DelegateMsgs, Held, ByAddress;
    var m := Matching(plans, h, to, [], zone.denom);
    assert Held([], v, zone.denom) == 0 by { AbsentHoldsNothing([], v, zone.denom); }
    MatchingHeld(plans, h, to, [], zone.denom, v);
    DistinctSurvivesSorting(AllocationKey(), m, ByAddress(AllocationKey(), m));
    HeldIgnoresArrangement(m, ByAddress(AllocationKey(), m), v, zone.denom);
    DelegateMsgsTo(ByAddress(AllocationKey(), m), to, zone.denom, v);
  }

  /** A completed send turns the plans of its pair into delegations, validator by validator, and uses them up. */
  lemma ConsumedLaw(zone: Zone, plans: seq<PlanRecord>, h: string, to: string)
    ensures var (msgs, rest) := Consumed(zone, plans, h, to);
            && SumBy(DelegateAmount(), msgs) == PlanSum(plans, h, to)
            && (forall m :: m in msgs ==> m.delegator == to)
            && (forall v :: SumBy(ToValidator(v), msgs) == SumBy(PlanAt(h, to, v), plans))
            && (forall g, e :: PlanSum(rest, g, e) == if g == h && e == to then 0 else PlanSum(plans, g, e))
            && (forall p :: p in rest ==> p in plans)
  {
    forall v { ConsumedTo(zone, plans, h, to, v); }
    MatchingLaw(plans, h, to, [], zone.denom);
    var m := Matching(plans, h, to, [], zone.denom);
    SumIgnoresArrangement(m, ByAddress(AllocationKey(), m), zone.denom);
    DelegateMsgsLaw(ByAddress(AllocationKey(), m), to, zone.denom);
    WithoutLaw(plans, h, to);
    forall g, e ensures PlanSum(Without(plans, h, to), g, e) == if g == h && e == to then 0 else PlanSum(plans, g, e) {
      WithoutSum(plans, h, to, g, e);
    }
  }

  /** A repeated acknowledgement of the same send delegates nothing. */
  lemma RepeatDelegatesNothing(zone: Zone, plans: seq<PlanRecord>, h: string, to: string)
    ensures var rest := Consumed(zone, plans, h, to).1;
            && Consumed(zone, rest, h, to) == ([], rest)
  {
    WithoutLaw(plans, h, to);
    NoneMatching(Without(plans, h, to), h, to, [], zone.denom);
  }

  lemma {:induction false} NoneMatching(plans: seq<PlanRecord>, h: string, d: string, out: Entries, denom: string)
    requires forall p :: p in plans ==> !(p.hash == h && p.delegator == d)
    ensures Matching(plans, h, d, out, denom) == out && Without(plans, h, d) == plans
  {
    if plans == [] {
    } else {
      assert plans[0] in plans;
      NoneMatching(plans[1..], h, d, out, denom);
      assert plans == [plans[0]] + plans[1..];
    }
  }

  lemma {:induction false} AddRecordSums(records: seq<Delegation>, d: string, v: string, n: nat, w: string)
    ensures var r := AddRecord(records, d, v, n);
            && DelegatedTotal(r) == DelegatedTotal(records) + n
            && DelegatedTo(r, w) == DelegatedTo(records, w) + (if w == v then n else 0)
  {
    if records == [] {
    } else {
      var r := AddRecord(records, d, v, n);
      if records[0].delegator == d && records[0].validator == v {
        assert r[1..] == records[1..];
      } else {
        AddRecordSums(records[1..], d, v, n, w);
        assert r[1..] == AddRecord(records[1..], d, v, n);
      }
    }
  }

  lemma {:induction false} AddRecordOnce(records: seq<Delegation>, d: string, v: string, n: nat)
    requires OneRecordPerPair(records)
    ensures var r := AddRecord(records, d, v, n);
            && OneRecordPerPair(r)
            && (forall x :: x in r ==> (x.delegator == d && x.validator == v) || x in records)
  {
    if records == [] {
    } else {
      assert OneRecordPerPair(records[1..]) by {
        forall i, j | 0 <= i < j < |records[1..]|
          ensures DelegationPair()(records[1..][i]) != DelegationPair()(records[1..][j])
        {
          assert DelegationPair()(records[i + 1]) != DelegationPair()(records[j + 1]);
        }
      }
      var r := AddRecord(records, d, v, n);
      if records[0].delegator == d && records[0].validator == v {
        forall i, j | 0 <= i < j < |r| ensures DelegationPair()(r[i]) != DelegationPair()(r[j]) {
          assert DelegationPair()(records[i]) != DelegationPair()(records[j]);
        }
      } else {
        AddRecordOnce(records[1..], d, v, n);
        var t := AddRecord(records[1..], d, v, n);
        assert r == [records[0]] + t;
        forall j | 0 <= j < |t| ensures DelegationPair()(records[0]) != DelegationPair()(t[j]) {
          assert t[j] in t;
          if t[j] in records[1..] {
            var k :| 0 <= k < |records[1..]| && records[1..][k] == t[j];
            assert DelegationPair()(records[0]) != DelegationPair()(records[k + 1]);
          }
        }
      }
    }
  }

  /** Adding to a record keeps one record a pair and adds to its validator and the total only. */
  lemma AddRecordLaw(records: seq<Delegation>, d: string, v: string, n: nat)
    requires OneRecordPerPair(records)
    ensures var r := AddRecord(records, d, v, n);
            && DelegatedTotal(r) == DelegatedTotal(records) + n
            && OneRecordPerPair(r)
            && (forall x :: x in r ==> (x.delegator == d && x.validator == v) || x in records)
            && (forall w :: DelegatedTo(r, w) == DelegatedTo(records, w) + (if w == v then n else 0))
  {
    hide AddRecord, DelegatedTo, DelegatedTotal;
    AddRecordOnce(records, d, v, n);
    AddRecordSums(records, d, v, n, v);
    forall w { AddRecordSums(records, d, v, n, w); }
  }

  // ----- Handling one message -----

  /** A memo in flight belongs to one packet, which then holds all that is in flight for it. */
  lemma SoleMemo(flight: seq<Packet>, i: nat, d: string)
    requires i < |flight| && flight[i].Sends? && MemosOnce(flight)
    ensures SentTo(flight, flight[i].memo, d) == SumBy(ToAmount(d), flight[i].sends)
  {
    var f := PacketTo(flight[i].memo, d);
    var rest := flight[..i] + flight[i + 1..];
    SumByRemove(f, flight, i);
    forall p | p in rest ensures f(p) == 0 {
      var k :| 0 <= k < |rest| && rest[k] == p;
      var j := if k < i then k else k + 1;
      assert flight[j] == p && j != i;
    }
    SumByZero(f, rest);
  }

  /** The only send of a packet to its recipient. */
  lemma SoleSend(sends: seq<Send>, k: nat)
    requires DistinctBy(Recipient(), sends) && k < |sends|
    ensures SumBy(ToAmount(sends[k].to), sends) == sends[k].amount
  {
    var f, rest := ToAmount(sends[k].to), sends[..k] + sends[k + 1..];
    SumByRemove(f, sends, k);
    forall s | s in rest ensures f(s) == 0 {
      var j :| 0 <= j < |rest| && rest[j] == s;
      var at := if j < k then j else j + 1;
      assert Recipient()(sends[at]) != Recipient()(sends[k]);
    }
    SumByZero(f, rest);
  }

  /** Every send in flight is for exactly the plans stored for its deposit and account. */
  lemma SendMatchesPlans(zone: Zone, st: State, i: nat, k: nat)
    requires Inv(zone, st) && i < |st.flight| && st.flight[i].Sends? && k < |st.flight[i].sends|
    ensures st.flight[i].sends[k].amount == PlanSum(st.plans, st.flight[i].memo, st.flight[i].sends[k].to)
  {
    hide PlanSum;
    var p := st.flight[i];
    assert PacketOk(zone, st, p);
    SoleMemo(st.flight, i, p.sends[k].to);
    SoleSend(p.sends, k);
    assert SentTo(st.flight, p.memo, p.sends[k].to) == PlanSum(st.plans, p.memo, p.sends[k].to);
  }

  lemma SentToAfter(flight: seq<Packet>, i: nat, msgs: seq<Delegate>, g: string, e: string)
    requires i < |flight| && flight[i].Sends? && flight[i].sends != []
    ensures var p := flight[i];
            SentTo(flight[i := Sends(p.memo, p.sends[1..])] + [Delegates(msgs)], g, e)
            == SentTo(flight, g, e) - (if g == p.memo then ToAmount(e)(p.sends[0]) else 0)
  {
    var p := flight[i];
    var f, q := PacketTo(g, e), Sends(p.memo, p.sends[1..]);
    SumByUpdate(f, flight, i, q);
    SumByConcat(f, flight[i := q], [Delegates(msgs)]);
    SumByOne(f, Delegates(msgs));
  }

  lemma SendKeepsMatched(zone: Zone, st: State, i: nat)
    requires Inv(zone, st) && i < |st.flight| && st.flight[i].Sends? && st.flight[i].sends != []
    ensures Matched(Handle(zone, st, i))
  {
    hide PacketOk, OneRecordPerPair, MemosOnce, Consumed, SentTo, PlanSum;
    var p := st.flight[i];
    var t := Handle(zone, st, i);
    var (msgs, plans) := Consumed(zone, st.plans, p.memo, p.sends[0].to);
    ConsumedLaw(zone, st.plans, p.memo, p.sends[0].to);
    SendMatchesPlans(zone, st, i, 0);
    forall g, e ensures SentTo(t.flight, g, e) == PlanSum(t.plans, g, e) {
      SentToAfter(st.flight, i, msgs, g, e);
      assert SentTo(st.flight, g, e) == PlanSum(st.plans, g, e);
    }
  }

  lemma SendKeepsPackets(zone: Zone, st: State, i: nat)
    requires Inv(zone, st) && i < |st.flight| && st.flight[i].Sends? && st.flight[i].sends != []
    ensures var t := Handle(zone, st, i);
            && (forall p :: p in t.flight ==> PacketOk(zone, t, p))
            && MemosOnce(t.flight)
            && (forall p :: p in t.plans ==> p.hash in t.receipts)
  {
    hide Consumed, SentTo, PlanSum, OneRecordPerPair, PacketOk, MemosOnce, DistinctBy;
    var p, t := st.flight[i], Handle(zone, st, i);
    var (msgs, plans) := Consumed(zone, st.plans, p.memo, p.sends[0].to);
    ConsumedLaw(zone, st.plans, p.memo, p.sends[0].to);
    SendPacketsOk(zone, st, i, msgs);
    assert PacketOk(zone, st, p);
    RestOk(zone, st, p);
    MemosKept(st.flight, i, p.sends[1..], msgs);
    forall q | q in t.flight ensures PacketOk(zone, t, q) {
      SameReceiptsOk(zone, st, t, q);
    }
  }

  lemma SameReceiptsOk(zone: Zone, st: State, t: State, p: Packet)
    requires st.receipts == t.receipts
    ensures PacketOk(zone, st, p) <==> PacketOk(zone, t, p)
  {
  }

  lemma RestOk(zone: Zone, st: State, p: Packet)
    requires p.Sends? && p.sends != [] && PacketOk(zone, st, p)
    ensures PacketOk(zone, st, Sends(p.memo, p.sends[1..])) && p.sends[0].to in zone.accounts
  {
    DistinctByTail(Recipient(), p.sends);
    assert p.sends[0] in p.sends;
  }

  lemma SendPacketsOk(zone: Zone, st: State, i: nat, msgs: seq<Delegate>)
    requires i < |st.flight| && st.flight[i].Sends? && st.flight[i].sends != []
    requires forall p :: p in st.flight ==> PacketOk(zone, st, p)
    requires forall m :: m in msgs ==> m.delegator == st.flight[i].sends[0].to
    ensures var p := st.flight[i];
            forall q :: q in st.flight[i := Sends(p.memo, p.sends[1..])] + [Delegates(msgs)] ==> PacketOk(zone, st, q)
  {
    hide DistinctBy;
    var p := st.flight[i];
    assert PacketOk(zone, st, p);
    RestOk(zone, st, p);
    assert PacketOk(zone, st, Delegates(msgs));
    var after := st.flight[i := Sends(p.memo, p.sends[1..])];
    forall q | q in after ensures PacketOk(zone, st, q) {
      var k :| 0 <= k < |after| && after[k] == q;
      assert k != i ==> st.flight[k] in st.flight;
    }
  }

  lemma MemosKept(flight: seq<Packet>, i: nat, rest: seq<Send>, msgs: seq<Delegate>)
    requires MemosOnce(flight) && i < |flight| && flight[i].Sends?
    ensures MemosOnce(flight[i := Sends(flight[i].memo, rest)] + [Delegates(msgs)])
  {
  }

  lemma SendKeepsLedger(zone: Zone, st: State, i: nat)
    requires Inv(zone, st) && i < |st.flight| && st.flight[i].Sends? && st.flight[i].sends != []
    ensures Ledger(Handle(zone, st, i)) == Ledger(st)
  {
    var p := st.flight[i];
    var (msgs, plans) := Consumed(zone, st.plans, p.memo, p.sends[0].to);
    ConsumedLaw(zone, st.plans, p.memo, p.sends[0].to);
    SendMatchesPlans(zone, st, i, 0);
    var q := Sends(p.memo, p.sends[1..]);
    SumByUpdate(Value(), st.flight, i, q);
    SumByConcat(Value(), st.flight[i := q], [Delegates(msgs)]);
    SumByOne(Value(), Delegates(msgs));
  }

  lemma DelegateKeeps(zone: Zone, st: State, i: nat)
    requires Inv(zone, st) && i < |st.flight| && st.flight[i].Delegates? && st.flight[i].msgs != []
    ensures Inv(zone, Handle(zone, st, i)) && Ledger(Handle(zone, st, i)) == Ledger(st)
  {
    var p, t := st.flight[i], Handle(zone, st, i);
    var m, q := p.msgs[0], Delegates(p.msgs[1..]);
    assert PacketOk(zone, st, p);
    assert m in p.msgs;
    AddRecordLaw(st.records, m.delegator, m.validator, m.amount);
    SumByUpdate(Value(), st.flight, i, q);
    forall g, e ensures SentTo(t.flight, g, e) == PlanSum(t.plans, g, e) {
      SumByUpdate(PacketTo(g, e), st.flight, i, q);
      assert SentTo(st.flight, g, e) == PlanSum(st.plans, g, e);
    }
    forall x | x in t.flight ensures PacketOk(zone, t, x) {
      var k :| 0 <= k < |t.flight| && t.flight[k] == x;
      if k != i {
        assert st.flight[k] in st.flight;
        assert PacketOk(zone, st, x);
      }
    }
  }

  lemma HandleLaw(zone: Zone, st: State, i: nat)
    requires Inv(zone, st) && i < |st.flight| && Pending(st.flight[i]) > 0
    ensures Inv(zone, Handle(zone, st, i)) && Ledger(Handle(zone, st, i)) == Ledger(st)
  {
    if st.flight[i].Sends? {
      SendKeepsMatched(zone, st, i);
      SendKeepsPackets(zone, st, i);
      SendKeepsLedger(zone, st, i);
    } else {
      DelegateKeeps(zone, st, i);
    }
  }

  lemma DropLaw(zone: Zone, st: State, i: nat)
    requires Inv(zone, st) && i < |st.flight| && Pending(st.flight[i]) == 0
    ensures var t := st.(flight := st.flight[..i] + st.flight[i + 1..]);
            Inv(zone, t) && Ledger(t) == Ledger(st)
  {
    var t := st.(flight := st.flight[..i] + st.flight[i + 1..]);
    SumByRemove(Value(), st.flight, i);
    forall g, e ensures SentTo(t.flight, g, e) == PlanSum(t.plans, g, e) {
      SumByRemove(PacketTo(g, e), st.flight, i);
      assert SentTo(st.flight, g, e) == PlanSum(st.plans, g, e);
    }
    forall x | x in t.flight ensures PacketOk(zone, t, x) {
      assert x in st.flight;
      assert PacketOk(zone, st, x);
    }
  }

  /** An acknowledgement keeps the invariant and the ledger. */
  lemma {:induction false} AckLaw(zone: Zone, st: State, i: nat)
    requires Inv(zone, st) && i < |st.flight|
    ensures Inv(zone, Ack(zone, st, i)) && Ledger(Ack(zone, st, i)) == Ledger(st)
    decreases Pending(st.flight[i])
  {
    if Pending(st.flight[i]) == 0 {
      DropLaw(zone, st, i);
    } else {
      HandleLaw(zone, st, i);
      AckLaw(zone, Handle(zone, st, i), i);
    }
  }

  // ----- Deposits -----

  lemma {:induction false} EmptyBinsAccounts(accounts: seq<string>, denom: string, out: Entries, a: string)
    ensures Has(EmptyBins(accounts, denom, out), a) <==> Has(out, a) || a in accounts
    decreases accounts
  {
    if accounts == [] {
    } else {
      AllocatedHas(out, accounts[0], One(denom, 0), a);
      EmptyBinsAccounts(accounts[1..], denom, Allocated(out, accounts[0], One(denom, 0)), a);
    }
  }

  lemma {:induction false} FillBinsAccounts(records: seq<Delegation>, out: Entries, a: string)
    ensures Has(FillBins(records, out), a) ==> Has(out, a) || exists r :: r in records && r.delegator == a
    ensures Has(out, a) ==> Has(FillBins(records, out), a)
    decreases records
  {
    if records == [] {
    } else {
      var c := One(records[0].validator, records[0].amount);
      AllocatedHas(out, records[0].delegator, c, a);
      FillBinsAccounts(records[1..], Allocated(out, records[0].delegator, c), a);
      assert records[0] in records;
    }
  }

  /** The bins are the delegation accounts. */
  lemma BinsAccounts(zone: Zone, records: seq<Delegation>, a: string)
    requires forall r :: r in records ==> r.delegator in zone.accounts
    ensures Has(Bins(zone.accounts, zone.denom, records), a) <==> a in zone.accounts
  {
    var empty := EmptyBins(zone.accounts, zone.denom, []);
    EmptyBinsAccounts(zone.accounts, zone.denom, [], a);
    FillBinsAccounts(records, empty, a);
    var filled, bins := FillBins(records, empty), Bins(zone.accounts, zone.denom, records);
    if Has(bins, a) {
      var i :| 0 <= i < |bins| && bins[i].address == a;
      assert bins[i] in multiset(filled);
      var j :| 0 <= j < |filled| && filled[j] == bins[i];
    }
    if Has(filled, a) {
      var i :| 0 <= i < |filled| && filled[i].address == a;
      assert filled[i] in multiset(bins);
      var j :| 0 <= j < |bins| && bins[j] == filled[i];
    }
  }

  lemma PlanIsDistinct(zone: Zone, records: seq<Delegation>, amount: nat, c: Choice)
    requires ValidChoice(c)
    ensures var p := PlanOf(zone, records, amount, c);
            p.Some? ==> Distinct(p.value)
  {
    match c
    case Global(w, keys) =>
      PlanIsExact(Coin(zone.denom, DelegatedTotal(records)), Bins(zone.accounts, zone.denom, records),
                  Coin(zone.denom, amount), w, keys);
    case User(w, keys) =>
      UserPlanSum(keys, w, Coin(zone.denom, amount), []);
  }

  /** What a deposit plans to delegate. */
  ghost function PlannedBy(zone: Zone, st: State, e: Event): nat
    requires ValidEvent(e)
  {
    match e
    case AckReceived(_) => 0
    case DepositSeen(hash, amount, c) =>
      if hash in st.receipts || zone.accounts == [] then 0
      else match PlanOf(zone, st.records, amount, c)
        case None => 0
        case Some(plan) => SumForDenom(plan, zone.denom)
  }

  /** The new packet, the new plans, and what they have to do with each other. */
  ghost predicate FreshTransfer(zone: Zone, st: State, hash: string, msgs: seq<Send>, plans: seq<PlanRecord>,
                                total: nat)
  {
    && DistinctBy(Recipient(), msgs)
    && (forall m :: m in msgs ==> m.to in zone.accounts)
    && SumBy(SendAmount(), msgs) == total
    && (forall d :: SumBy(ToAmount(d), msgs) == PlanSum(plans, hash, d))
    && (forall g, d :: g != hash ==> PlanSum(plans, g, d) == PlanSum(st.plans, g, d))
    && (forall q :: q in plans ==> q in st.plans || q.hash == hash)
  }

  lemma BinsReady(zone: Zone, records: seq<Delegation>)
    requires zone.accounts != [] && forall r :: r in records ==> r.delegator in zone.accounts
    ensures var bins := Bins(zone.accounts, zone.denom, records);
            && bins != [] && Distinct(bins)
            && forall a :: Has(bins, a) <==> a in zone.accounts
  {
    var bins := Bins(zone.accounts, zone.denom, records);
    BinsHoldDelegations(zone.accounts, zone.denom, records, "");
    forall a ensures Has(bins, a) <==> a in zone.accounts { BinsAccounts(zone, records, a); }
    assert Has(bins, zone.accounts[0]);
  }

  lemma AllotLaw(zone: Zone, st: State, hash: string, plan: Entries)
    requires forall r :: r in st.records ==> r.delegator in zone.accounts
    requires forall p :: p in st.plans ==> p.hash != hash
    requires zone.accounts != [] && Distinct(plan)
    ensures var (sends, plans) := Allot(zone, st.records, st.plans, hash, plan);
            && GrewAlike([], st.plans, sends, plans, hash, zone.denom)
            && SumForDenom(sends, zone.denom) == SumForDenom(plan, zone.denom)
            && Distinct(sends)
            && (forall d :: Has(sends, d) ==> d in zone.accounts)
            && (forall q :: q in plans ==> q in st.plans || q.hash == hash)
  {
    hide AssignAll, Bins;
    BinsReady(zone, st.records);
    var sorted := ByAddress(AllocationKey(), plan);
    DistinctSurvivesSorting(AllocationKey(), plan, sorted);
    SumIgnoresArrangement(plan, sorted, zone.denom);
    AssignAllLaw(sorted, zone.denom, hash, Bins(zone.accounts, zone.denom, st.records), [], st.plans);
  }

  lemma TransferLaw(zone: Zone, st: State, hash: string, sends: Entries, plans: seq<PlanRecord>)
    requires forall p :: p in st.plans ==> p.hash != hash
    requires GrewAlike([], st.plans, sends, plans, hash, zone.denom)
    requires Distinct(sends) && (forall d :: Has(sends, d) ==> d in zone.accounts)
    requires forall q :: q in plans ==> q in st.plans || q.hash == hash
    ensures FreshTransfer(zone, st, hash, Transfer(zone, sends), plans, SumForDenom(sends, zone.denom))
  {
    SendsLaw(zone, sends);
    forall d ensures SumBy(ToAmount(d), Transfer(zone, sends)) == PlanSum(plans, hash, d) {
      UnknownHash(st.plans, hash, d);
      assert Held([], d, zone.denom) == 0;
    }
  }

  lemma UnknownHash(plans: seq<PlanRecord>, hash: string, d: string)
    requires forall p :: p in plans ==> p.hash != hash
    ensures PlanSum(plans, hash, d) == 0
  {
    SumByZero(PlanAmount(hash, d), plans);
  }

  /** The transfer messages of a list of sends, whatever its arrangement. */
  lemma SendsLaw(zone: Zone, sends: Entries)
    requires Distinct(sends) && forall d :: Has(sends, d) ==> d in zone.accounts
    ensures var msgs := Transfer(zone, sends);
            && DistinctBy(Recipient(), msgs)
            && (forall m :: m in msgs ==> m.to in zone.accounts)
            && SumBy(SendAmount(), msgs) == SumForDenom(sends, zone.denom)
            && (forall d :: SumBy(ToAmount(d), msgs) == Held(sends, d, zone.denom))
  {
    var sorted := ByAddress(AllocationKey(), sends);
    var msgs := TransferMsgs(sorted, zone.denom);
    DistinctSurvivesSorting(AllocationKey(), sends, sorted);
    TransferRecipients(sorted, zone.denom);
    SumIgnoresArrangement(sends, sorted, zone.denom);
    TransferTo(sorted, zone.denom, "");
    forall d ensures SumBy(ToAmount(d), msgs) == Held(sends, d, zone.denom) {
      TransferTo(sorted, zone.denom, d);
      HeldIgnoresArrangement(sends, sorted, d, zone.denom);
    }
    forall m | m in msgs ensures m.to in zone.accounts {
      var i :| 0 <= i < |sorted| && sorted[i].address == m.to;
      assert sorted[i] in multiset(sends);
      var j :| 0 <= j < |sends| && sends[j] == sorted[i];
      assert Has(sends, m.to);
    }
  }

  lemma DepositKeeps(zone: Zone, st: State, hash: string, msgs: seq<Send>, plans: seq<PlanRecord>, total: nat)
    requires Inv(zone, st) && hash !in st.receipts && FreshTransfer(zone, st, hash, msgs, plans, total)
    ensures var t := State(st.receipts + {hash}, plans, st.records, st.flight + [Sends(hash, msgs)]);
            Inv(zone, t) && Ledger(t) == Ledger(st) + total
  {
    var p := Sends(hash, msgs);
    var t := State(st.receipts + {hash}, plans, st.records, st.flight + [p]);
    SumByConcat(Value(), st.flight, [p]);
    SumByOne(Value(), p);
    forall g, d ensures SentTo(t.flight, g, d) == PlanSum(t.plans, g, d) {
      SumByConcat(PacketTo(g, d), st.flight, [p]);
      SumByOne(PacketTo(g, d), p);
      assert SentTo(st.flight, g, d) == PlanSum(st.plans, g, d);
      if g == hash {
        assert forall q :: q in st.plans ==> q.hash != hash;
        UnknownHash(st.plans, hash, d);
      }
    }
    forall x | x in t.flight ensures PacketOk(zone, t, x) {
      if x != p { assert PacketOk(zone, st, x); }
    }
    forall i, j | 0 <= i < j < |t.flight| && t.flight[i].Sends? && t.flight[j].Sends?
      ensures t.flight[i].memo != t.flight[j].memo
    {
      assert st.flight[i] in st.flight;
      assert PacketOk(zone, st, st.flight[i]);
    }
  }

  lemma DepositedLaw(zone: Zone, st: State, hash: string, plan: Entries)
    requires Inv(zone, st) && hash !in st.receipts && zone.accounts != [] && Distinct(plan)
    ensures var t := Deposited(zone, st, hash, plan);
            Inv(zone, t) && Ledger(t) == Ledger(st) + SumForDenom(plan, zone.denom)
  {
    AllotLaw(zone, st, hash, plan);
    var (sends, plans) := Allot(zone, st.records, st.plans, hash, plan);
    TransferLaw(zone, st, hash, sends, plans);
    DepositKeeps(zone, st, hash, Transfer(zone, sends), plans, SumForDenom(sends, zone.denom));
  }

  lemma DepositLaw(zone: Zone, st: State, hash: string, amount: nat, c: Choice)
    requires Inv(zone, st) && ValidChoice(c)
    ensures var t := Deposit(zone, st, hash, amount, c);
            Inv(zone, t) && Ledger(t) == Ledger(st) + PlannedBy(zone, st, DepositSeen(hash, amount, c))
  {
    hide Inv, Ledger, Deposited, PlanOf;
    if hash !in st.receipts && zone.accounts != [] {
      var p := PlanOf(zone, st.records, amount, c);
      if p.Some? {
        PlanIsDistinct(zone, st.records, amount, c);
        DepositedLaw(zone, st, hash, p.value);
      }
    }
  }

  // ----- Runs -----

  lemma StepLaw(zone: Zone, st: State, e: Event)
    requires Inv(zone, st) && ValidEvent(e)
    ensures Inv(zone, Step(zone, st, e))
    ensures Ledger(Step(zone, st, e)) == Ledger(st) + PlannedBy(zone, st, e)
  {
    match e
    case DepositSeen(hash, amount, c) => DepositLaw(zone, st, hash, amount, c);
    case AckReceived(i) => if i < |st.flight| { AckLaw(zone, st, i); }
  }

  ghost function PlannedInRun(zone: Zone, st: State, es: seq<Event>): nat
    requires forall e :: e in es ==> ValidEvent(e)
    decreases es
  {
    if es == [] then 0 else PlannedBy(zone, st, es[0]) + PlannedInRun(zone, Step(zone, st, es[0]), es[1..])
  }

  /**
   Over every run, in any order of deposits and acknowledgements: what was planned is
   in a send, in a delegation message or in a delegation record, and every send in
   flight is covered by stored plans.
   */
  lemma {:induction false} RunConserves(zone: Zone, st: State, es: seq<Event>)
    requires Inv(zone, st) && forall e :: e in es ==> ValidEvent(e)
    ensures Inv(zone, Run(zone, st, es))
    ensures Ledger(Run(zone, st, es)) == Ledger(st) + PlannedInRun(zone, st, es)
    decreases es
  {
    if es == [] {
    } else {
      StepLaw(zone, st, es[0]);
      RunConserves(zone, Step(zone, st, es[0]), es[1..]);
    }
  }

  /**
   A first deposit under the global intent is planned in full or, where the plan panics, not at
   all; with weights in [0,1] it never panics.
   */
  lemma GlobalDepositPlannedInFull(zone: Zone, st: State, hash: string, amount: nat, w: Weights, keys: seq<string>)
    requires ValidChoice(Global(w, keys)) && w != map[] && amount > 0
    requires hash !in st.receipts && zone.accounts != []
    ensures var ds := Deltas(Bins(zone.accounts, zone.denom, st.records), DelegatedTotal(st.records) + amount, w, keys);
            && (PlannedBy(zone, st, DepositSeen(hash, amount, Global(w, keys)))
                == if PlanFits(ds, amount, w, keys) then amount else 0)
            && (UnitWeights(w) ==> PlanFits(ds, amount, w, keys))
  {
    hide GlobalPlan, SumForDenom, PlanFits, UnitWeights, Bins, Deltas;
    var total, coin := Coin(zone.denom, DelegatedTotal(st.records)), Coin(zone.denom, amount);
    PlanIsExact(total, Bins(zone.accounts, zone.denom, st.records), coin, w, keys);
  }

  /**
   A first deposit under a depositor's own intent with weights that sum to one, of any sign: not
   planned where the handler panics, and otherwise planned short of the deposit, in full or
   beyond it exactly as the remainders together are positive, zero or negative. Without negative
   weights that is in full if and only if every share is a whole number of units.
   */
  lemma UserDepositPlannedInFull(zone: Zone, st: State, hash: string, amount: nat, w: Weights, keys: seq<string>)
    requires ValidChoice(User(w, keys)) && WeightSum(keys, w) == D.ONE
    requires hash !in st.receipts && zone.accounts != []
    ensures var planned := PlannedBy(zone, st, DepositSeen(hash, amount, User(w, keys)));
            var rems := Remainders(keys, w, amount);
            && (!Admissible(keys, w, amount) ==> planned == 0)
            && (Admissible(keys, w, amount) ==>
                  && (planned < amount <==> rems > 0)
                  && (planned == amount <==> rems == 0)
                  && (planned > amount <==> rems < 0)
                  && ((forall v :: v in keys ==> w[v] >= 0) ==> (planned == amount <==> WholeShares(keys, w, amount))))
  {
    hide UserPlan, WholeShares, SumForDenom, Admissible, Remainders;
    UserPlanInFull(keys, w, Coin(zone.denom, amount));
  }
}

/** The keeper's handlers, on a store that is updated in place. */
module PipelineKeeper {
  import opened Coins
  import opened StableSort
  import opened Allocations
  import opened Plans
  import opened Accounts
  import opened Redemption
  import opened RedemptionLoops
  import opened Pipeline

  predicate SameKey(p: PlanRecord, q: PlanRecord)
  {
    p.hash == q.hash && p.delegator == q.delegator && p.validator == q.validator
  }

  lemma {:induction false} SetPlanAt(plans: seq<PlanRecord>, p: PlanRecord, i: nat)
    requires i <= |plans| && forall k :: 0 <= k < i ==> !SameKey(plans[k], p)
    requires i < |plans| ==> SameKey(plans[i], p)
    ensures SetPlan(plans, p) == if i < |plans| then plans[i := p] else plans + [p]
  {
    if i == 0 {
    } else {
      SetPlanAt(plans[1..], p, i - 1);
      assert plans == [plans[0]] + plans[1..];
    }
  }

  method PutPlan(plans: seq<PlanRecord>, p: PlanRecord) returns (r: seq<PlanRecord>)
    ensures r == SetPlan(plans, p)
  {
    for i := 0 to |plans|
      invariant forall k :: 0 <= k < i ==> !SameKey(plans[k], p)
    {
      if SameKey(plans[i], p) {
        SetPlanAt(plans, p, i);
        return plans[i := p];
      }
    }
    SetPlanAt(plans, p, |plans|);
    return plans + [p];
  }

  lemma {:induction false} AddRecordAt(records: seq<Delegation>, d: string, v: string, n: nat, i: nat)
    requires i <= |records| && forall k :: 0 <= k < i ==> !(records[k].delegator == d && records[k].validator == v)
    requires i < |records| ==> records[i].delegator == d && records[i].validator == v
    ensures AddRecord(records, d, v, n)
         == if i < |records| then records[i := Delegation(d, v, records[i].amount + n)]
            else records + [Delegation(d, v, n)]
  {
    if i == 0 {
    } else {
      AddRecordAt(records[1..], d, v, n, i - 1);
      assert records == [records[0]] + records[1..];
    }
  }

  method PutRecord(records: seq<Delegation>, d: string, v: string, n: nat) returns (r: seq<Delegation>)
    ensures r == AddRecord(records, d, v, n)
  {
    for i := 0 to |records|
      invariant forall k :: 0 <= k < i ==> !(records[k].delegator == d && records[k].validator == v)
    {
      if records[i].delegator == d && records[i].validator == v {
        AddRecordAt(records, d, v, n, i);
        return records[i := Delegation(d, v, records[i].amount + n)];
      }
    }
    AddRecordAt(records, d, v, n, |records|);
    return records + [Delegation(d, v, n)];
  }

  method BuildTransfers(plan: Entries, denom: string) returns (msgs: seq<Send>)
    ensures msgs == TransferMsgs(plan, denom)
  {
    msgs := [];
    assert plan[0..] == plan;
    for i := 0 to |plan|
      invariant TransferMsgs(plan, denom) == msgs + TransferMsgs(plan[i..], denom)
    {
      assert plan[i..][0] == plan[i] && plan[i..][1..] == plan[i + 1..];
      ghost var was, tail := msgs, TransferMsgs(plan[i + 1..], denom);
      var n := AmountOf(plan[i].amount, denom);
      if n > 0 {
        msgs := msgs + [Send(plan[i].address, n)];
        assert was + ([Send(plan[i].address, n)] + tail) == msgs + tail;
      } else {
        assert [] + tail == tail;
      }
    }
  }

  method BuildDelegations(plan: Entries, delegator: string, denom: string) returns (msgs: seq<Delegate>)
    ensures msgs == DelegateMsgs(plan, delegator, denom)
  {
    msgs := [];
    assert plan[0..] == plan;
    for i := 0 to |plan|
      invariant DelegateMsgs(plan, delegator, denom) == msgs + DelegateMsgs(plan[i..], delegator, denom)
    {
      assert plan[i..][0] == plan[i] && plan[i..][1..] == plan[i + 1..];
      ghost var was, tail := msgs, DelegateMsgs(plan[i + 1..], delegator, denom);
      var n := AmountOf(plan[i].amount, denom);
      if n > 0 {
        msgs := msgs + [Delegate(delegator, plan[i].address, n)];
        assert was + ([Delegate(delegator, plan[i].address, n)] + tail) == msgs + tail;
      } else {
        assert [] + tail == tail;
      }
    }
  }

  method DropPlans(plans: seq<PlanRecord>, memo: string, to: string) returns (kept: seq<PlanRecord>)
    ensures kept == Without(plans, memo, to)
  {
    kept := [];
    assert plans[0..] == plans;
    for i := 0 to |plans|
      invariant Without(plans, memo, to) == kept + Without(plans[i..], memo, to)
    {
      assert plans[i..][0] == plans[i] && plans[i..][1..] == plans[i + 1..];
      ghost var was, tail := kept, Without(plans[i + 1..], memo, to);
      if plans[i].hash == memo && plans[i].delegator == to {
        assert [] + tail == tail;
      } else {
        kept := kept + [plans[i]];
        assert was + ([plans[i]] + tail) == kept + tail;
      }
    }
  }

  method GatherPlans(plans: seq<PlanRecord>, memo: string, to: string, denom: string) returns (plan: Book)
    ensures fresh(plan) && plan.entries == Matching(plans, memo, to, [], denom)
  {
    plan := new Book();
    assert plans[0..] == plans;
    for i := 0 to |plans|
      invariant fresh(plan)
      invariant Matching(plans, memo, to, [], denom) == Matching(plans[i..], memo, to, plan.entries, denom)
    {
      assert plans[i..][0] == plans[i] && plans[i..][1..] == plans[i + 1..];
      if plans[i].hash == memo && plans[i].delegator == to {
        plan.Allocate(plans[i].validator, One(denom, plans[i].amount));
      }
    }
  }

  class Keeper {
    const zone: Zone
    var receipts: set<string>
    var plans: seq<PlanRecord>
    var records: seq<Delegation>
    var flight: seq<Packet>

    ghost function View(): State
      reads this
    {
      State(receipts, plans, records, flight)
    }

    constructor (zone: Zone)
      ensures this.zone == zone && View() == State({}, [], [], [])
    {
      this.zone := zone;
      receipts, plans, records, flight := {}, [], [], [];
    }

    method DelegationPlan(amount: nat, c: Choice) returns (r: Option<Entries>)
      requires forall v :: v in c.keys ==> v in c.w
      ensures r == PlanOf(zone, records, amount, c)
    {
      match c
      case Global(w, keys) =>
        var bins := GetDelegationBinsMap(zone.accounts, zone.denom, records);
        var p := DelegationPlanFromGlobalIntent(Coin(zone.denom, DelegatedTotal(records)), bins,
                                                Coin(zone.denom, amount), w, keys);
        r := if p.Planned? then Some(p.entries) else None;
      case User(w, keys) =>
        var shares := DelegationPlanFromUserIntent(Coin(zone.denom, amount), w, keys);
        UserPlanAdmitsShares(keys, w, Coin(zone.denom, amount), []);
        r := AdmitShares(shares, zone.denom);
    }

    /** The loop of DeterminePlanForDelegation over a delegation plan sorted by validator. */
    method AllotPlan(plan: Entries, hash: string) returns (sendPlan: Book)
      modifies this
      ensures fresh(sendPlan)
      ensures var (s, p) := AssignAll(plan, zone.denom, hash, Bins(zone.accounts, zone.denom, records), [], old(plans));
              sendPlan.entries == s && View() == old(View()).(plans := p)
    {
      hide Bins, AmountOf, One, Assign, Allocated, SetPlan;
      var bins := GetDelegationBinsMap(zone.accounts, zone.denom, records);
      sendPlan := new Book();
      ghost var goal := AssignAll(plan, zone.denom, hash, bins.entries, [], plans);
      assert plan[0..] == plan;
      for i := 0 to |plan|
        invariant fresh(sendPlan) && fresh(bins) && sendPlan != bins
        invariant receipts == old(receipts) && records == old(records) && flight == old(flight)
        invariant AssignAll(plan[i..], zone.denom, hash, bins.entries, sendPlan.entries, plans) == goal
      {
        assert plan[i..][0] == plan[i] && plan[i..][1..] == plan[i + 1..];
        var n := AmountOf(plan[i].amount, zone.denom);
        var account := FindAccountForDelegation(bins, plan[i].address, n);
        sendPlan.Allocate(account, One(zone.denom, n));
        plans := PutPlan(plans, PlanRecord(hash, account, plan[i].address, n));
      }
    }

    method TransferToDelegate(sendPlan: Book, memo: string)
      modifies this, sendPlan
      ensures View() == old(View()).(flight := old(flight) + [Sends(memo, Transfer(zone, old(sendPlan.entries)))])
    {
      sendPlan.SortByAddress();
      var msgs := BuildTransfers(sendPlan.entries, zone.denom);
      flight := flight + [Sends(memo, msgs)];
    }

    /** A deposit seen on the remote chain; a receipt marks it as handled. */
    method HandleReceiptTransaction(hash: string, amount: nat, c: Choice)
      requires forall v :: v in c.keys ==> v in c.w
      modifies this
      ensures View() == Deposit(zone, old(View()), hash, amount, c)
    {
      if hash in receipts || zone.accounts == [] {
        return;
      }
      var plan := DelegationPlan(amount, c);
      if plan.None? {
        return;
      }
      var sendPlan := AllotPlan(ByAddress(AllocationKey(), plan.value), hash);
      TransferToDelegate(sendPlan, hash);
      receipts := receipts + {hash};
    }

    /** A completed send: its plans are gathered, removed, and submitted as delegations. */
    method HandleSendToDelegate(memo: string, to: string)
      modifies this
      ensures var (msgs, rest) := Consumed(zone, old(plans), memo, to);
              View() == old(View()).(plans := rest, flight := old(flight) + [Delegates(msgs)])
    {
      var plan := GatherPlans(plans, memo, to, zone.denom);
      plans := DropPlans(plans, memo, to);
      plan.SortByAddress();
      var msgs := BuildDelegations(plan.entries, to, zone.denom);
      flight := flight + [Delegates(msgs)];
    }

    /** A completed delegation is added to its record. */
    method HandleDelegate(delegator: string, validator: string, amount: nat)
      modifies this
      ensures View() == old(View()).(records := AddRecord(old(records), delegator, validator, amount))
    {
      records := PutRecord(records, delegator, validator, amount);
    }

    /** Handles the acknowledged messages of packet i in order. */
    method HandleAcknowledgement(i: nat)
      requires i < |flight|
      modifies this
      ensures View() == Ack(zone, old(View()), i)
    {
      while Pending(flight[i]) > 0
        invariant i < |flight|
        invariant Ack(zone, View(), i) == Ack(zone, old(View()), i)
        decreases Pending(flight[i])
      {
        match flight[i]
        case Sends(memo, sends) =>
          flight := flight[i := Sends(memo, sends[1..])];
          HandleSendToDelegate(memo, sends[0].to);
        case Delegates(msgs) =>
          flight := flight[i := Delegates(msgs[1..])];
          HandleDelegate(msgs[0].delegator, msgs[0].validator, msgs[0].amount);
      }
      flight := flight[..i] + flight[i + 1..];
    }
  }
}
