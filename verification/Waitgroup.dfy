/**
 The reward withdrawal waitgroup of a zone: AfterEpochEnd (hooks.go), RewardsCallback
 (callbacks.go), WithdrawDelegationRewardsForResponse (delegation.go) and
 HandleWithdrawRewards (ibc_packet_handlers.go) of x/interchainstaking/keeper.
 */
module Waitgroup {
  import opened Sums
  import opened Words

  /** The delegation accounts of a zone and its performance account. */
  datatype Zone = Zone(accounts: seq<string>, performance: string)

  /**
   The counter, the rewards queries not yet answered (a re-requested query is the same
   query), the withdrawal packets not yet acknowledged (a delegator per message), and
   how often the distribution of rewards was requested.
   */
  datatype State = State(wg: nat, queries: set<string>, packets: seq<seq<string>>, distributions: nat)

  predicate ValidZone(zone: Zone)
  {
    && zone.performance !in zone.accounts
    && forall i, j :: 0 <= i < j < |zone.accounts| ==> zone.accounts[i] != zone.accounts[j]
  }

  // ----- Steps -----

  function Decrement(wg: nat): nat { if wg == 0 then TWO32 - 1 else wg - 1 }

  function Increase(wg: nat, n: nat): nat { (wg + n) % TWO32 }

  /** Resets the counter, and counts a rewards query for every account. */
  function EpochEnd(zone: Zone, st: State): State
  {
    st.(wg := |zone.accounts| % TWO32, queries := st.queries + set a | a in zone.accounts)
  }

  /** The answer to a rewards query: one withdrawal message for each delegation with rewards. */
  function RewardsAnswer(st: State, delegator: string, n: nat): State
    requires delegator in st.queries
  {
    var wg := Decrement(st.wg);
    if n == 0 then st.(wg := wg, queries := st.queries - {delegator})
    else st.(wg := Increase(wg, n), queries := st.queries - {delegator},
             packets := st.packets + [seq(n, _ => delegator)])
  }

  /** The first message of packet i comes back: HandleWithdrawRewards. */
  function HandleFirst(zone: Zone, st: State, i: nat): State
    requires i < |st.packets| && st.packets[i] != []
  {
    var wg := if st.packets[i][0] == zone.performance then st.wg else Decrement(st.wg);
    State(wg, st.queries, st.packets[i := st.packets[i][1..]], st.distributions + (if wg == 0 then 1 else 0))
  }

  function Ack(zone: Zone, st: State, i: nat): State
    requires i < |st.packets|
    decreases |st.packets[i]|
  {
    if st.packets[i] == [] then st.(packets := st.packets[..i] + st.packets[i + 1..])
    else Ack(zone, HandleFirst(zone, st, i), i)
  }

  /** A packet of n withdrawals for the performance account, one per scored validator; none is sent for none. */
  function PerformanceWithdrawal(zone: Zone, st: State, n: nat): State
  {
    if n == 0 then st else st.(packets := st.packets + [seq(n, _ => zone.performance)])
  }

  datatype Event =
    | RewardsAnswered(delegator: string, n: nat)
    | Acked(i: nat)
    | PerformanceWithdrawn(n: nat)
    | EpochEnded

  function Step(zone: Zone, st: State, e: Event): State
  {
    match e
    case RewardsAnswered(d, n) => if d in st.queries then RewardsAnswer(st, d, n) else st
    case Acked(i) => if i < |st.packets| then Ack(zone, st, i) else st
    case PerformanceWithdrawn(n) => PerformanceWithdrawal(zone, st, n)
    case EpochEnded => EpochEnd(zone, st)
  }

  function Run(zone: Zone, st: State, es: seq<Event>): State
    decreases es
  {
    if es == [] then st else Run(zone, Step(zone, st, es[0]), es[1..])
  }

  // ----- What is outstanding -----

  function Counts(zone: Zone): string -> int { (d: string) => if d == zone.performance then 0 else 1 }

  ghost function PacketOwed(zone: Zone): seq<string> -> int { (p: seq<string>) => SumBy(Counts(zone), p) }

  /** Withdrawal messages of delegation accounts that are not acknowledged yet. */
  ghost function Acks(zone: Zone, st: State): int { SumBy(PacketOwed(zone), st.packets) }

  ghost function Owed(zone: Zone, st: State): int { |st.queries| + Acks(zone, st) }

  ghost predicate Counted(zone: Zone, st: State)
  {
    && st.wg < TWO32
    && st.queries <= (set a | a in zone.accounts)
    && Owed(zone, st) >= 0
    && st.wg == Owed(zone, st) % TWO32
  }

  lemma {:induction false} CountsNonNegative(zone: Zone, p: seq<string>)
    ensures SumBy(Counts(zone), p) >= 0
  {
    if p == [] {
    } else {
      CountsNonNegative(zone, p[1..]);
    }
  }

  lemma {:induction false} AcksNonNegative(zone: Zone, ps: seq<seq<string>>)
    ensures SumBy(PacketOwed(zone), ps) >= 0
  {
    if ps == [] {
    } else {
      CountsNonNegative(zone, ps[0]);
      AcksNonNegative(zone, ps[1..]);
    }
  }

  lemma {:induction false} CountsOf(zone: Zone, d: string, n: nat)
    ensures SumBy(Counts(zone), seq(n, _ => d)) == if d == zone.performance then 0 else n
  {
    if n == 0 {
    } else {
      var s := seq(n, _ => d);
      assert s[1..] == seq(n - 1, _ => d);
      CountsOf(zone, d, n - 1);
    }
  }

  lemma ModStep(a: int, b: int)
    requires 0 <= a
    ensures Increase(a % TWO32, 0) == a % TWO32
    ensures b >= 0 ==> Increase(a % TWO32, b) == (a + b) % TWO32
    ensures a > 0 ==> Decrement(a % TWO32) == (a - 1) % TWO32
  {
  }

  lemma AnswerKeepsCount(zone: Zone, st: State, d: string, n: nat)
    requires ValidZone(zone) && Counted(zone, st) && d in st.queries
    ensures Counted(zone, RewardsAnswer(st, d, n))
    ensures Owed(zone, RewardsAnswer(st, d, n)) == Owed(zone, st) - 1 + n
  {
    var t := RewardsAnswer(st, d, n);
    assert |st.queries - {d}| == |st.queries| - 1;
    AcksNonNegative(zone, st.packets);
    ModStep(Owed(zone, st), 0);
    if n > 0 {
      var p := seq(n, _ => d);
      CountsOf(zone, d, n);
      SumByConcat(PacketOwed(zone), st.packets, [p]);
      SumByOne(PacketOwed(zone), p);
      ModStep(Owed(zone, st) - 1, n);
    }
  }

  lemma FirstKeepsCount(zone: Zone, st: State, i: nat)
    requires Counted(zone, st) && i < |st.packets| && st.packets[i] != []
    ensures var t := HandleFirst(zone, st, i);
            && Counted(zone, t)
            && Owed(zone, t) == Owed(zone, st) - Counts(zone)(st.packets[i][0])
            && (t.distributions != st.distributions <==> Owed(zone, t) % TWO32 == 0)
  {
    SumByUpdate(PacketOwed(zone), st.packets, i, st.packets[i][1..]);
    AcksNonNegative(zone, HandleFirst(zone, st, i).packets);
    ModStep(Owed(zone, st), 0);
  }

  lemma DropKeepsCount(zone: Zone, st: State, i: nat)
    requires Counted(zone, st) && i < |st.packets| && st.packets[i] == []
    ensures var t := st.(packets := st.packets[..i] + st.packets[i + 1..]);
            Counted(zone, t) && Owed(zone, t) == Owed(zone, st)
  {
    SumByRemove(PacketOwed(zone), st.packets, i);
  }

  /**
   An acknowledged packet takes exactly its own messages off what is outstanding, and requests
   a distribution if and only if it has messages and nothing is outstanding after them.
   */
  lemma {:induction false} AckKeepsCount(zone: Zone, st: State, i: nat)
    requires Counted(zone, st) && i < |st.packets| && Owed(zone, st) < TWO32
    ensures var t := Ack(zone, st, i);
            && Counted(zone, t)
            && Owed(zone, t) == Owed(zone, st) - PacketOwed(zone)(st.packets[i])
            && t.distributions >= st.distributions
            && (t.distributions > st.distributions <==> Owed(zone, t) == 0 && st.packets[i] != [])
    decreases |st.packets[i]|
  {
    if st.packets[i] == [] {
      DropKeepsCount(zone, st, i);
    } else {
      FirstKeepsCount(zone, st, i);
      var mid := HandleFirst(zone, st, i);
      CountsNonNegative(zone, mid.packets[i]);
      AckKeepsCount(zone, mid, i);
    }
  }

  // ----- The epoch end -----

  lemma {:induction false} SetSize(accounts: seq<string>)
    requires forall i, j :: 0 <= i < j < |accounts| ==> accounts[i] != accounts[j]
    ensures |set a | a in accounts| == |accounts|
  {
    if accounts == [] {
    } else {
      var rest := accounts[1..];
      SetSize(rest);
      forall a | a in rest ensures a != accounts[0] {
        var i :| 0 <= i < |rest| && rest[i] == a;
        assert accounts[i + 1] == a;
      }
      assert (set a | a in accounts) == {accounts[0]} + (set a | a in rest);
    }
  }

  /**
   An epoch end counts right if and only if no withdrawal is still unacknowledged: the
   reset forgets those, while unanswered queries are asked, and counted, again.
   */
  lemma EpochEndCounts(zone: Zone, st: State)
    requires ValidZone(zone) && st.queries <= (set a | a in zone.accounts)
    ensures Counted(zone, EpochEnd(zone, st)) <==> Acks(zone, st) % TWO32 == 0
    ensures Owed(zone, EpochEnd(zone, st)) == |zone.accounts| + Acks(zone, st)
  {
    hide Owed, Acks, SumBy;
    EpochEndOwes(zone, st);
    ModEqual(|zone.accounts|, Acks(zone, st));
  }

  lemma EpochEndOwes(zone: Zone, st: State)
    requires ValidZone(zone) && st.queries <= (set a | a in zone.accounts)
    ensures var t := EpochEnd(zone, st);
            && t.queries <= (set a | a in zone.accounts)
            && Owed(zone, t) == |zone.accounts| + Acks(zone, st) && Acks(zone, st) >= 0
  {
    SetSize(zone.accounts);
    AcksNonNegative(zone, st.packets);
    assert st.queries + (set a | a in zone.accounts) == set a | a in zone.accounts;
  }

  lemma ModEqual(n: int, k: int)
    requires n >= 0 && k >= 0
    ensures n % TWO32 == (n + k) % TWO32 <==> k % TWO32 == 0
  {
  }

  // ----- Runs -----

  function Asked(zone: Zone, e: Event): nat
  {
    match e
    case RewardsAnswered(_, n) => n
    case EpochEnded => |zone.accounts|
    case _ => 0
  }

  ghost function AskedIn(zone: Zone, es: seq<Event>): nat
  {
    if es == [] then 0 else Asked(zone, es[0]) + AskedIn(zone, es[1..])
  }

  /** An epoch end at this point would forget no withdrawal. */
  ghost predicate Clean(zone: Zone, st: State, e: Event)
  {
    e.EpochEnded? ==> Acks(zone, st) == 0
  }

  /** The acknowledgement of a packet with messages that are all that is still outstanding. */
  ghost predicate Requests(zone: Zone, st: State, e: Event)
  {
    && e.Acked? && e.i < |st.packets| && st.packets[e.i] != []
    && Owed(zone, st) == PacketOwed(zone)(st.packets[e.i])
  }

  lemma PerformanceKeepsCount(zone: Zone, st: State, n: nat)
    requires Counted(zone, st)
    ensures var t := PerformanceWithdrawal(zone, st, n);
            Counted(zone, t) && Owed(zone, t) == Owed(zone, st)
  {
    var p := seq(n, _ => zone.performance);
    CountsOf(zone, zone.performance, n);
    SumByConcat(PacketOwed(zone), st.packets, [p]);
    SumByOne(PacketOwed(zone), p);
  }

  /** A step keeps the counter right, except for an epoch end that forgets withdrawals. */
  lemma StepKeepsCount(zone: Zone, st: State, e: Event)
    requires ValidZone(zone) && Counted(zone, st) && Owed(zone, st) < TWO32
    ensures var t := Step(zone, st, e);
            && (Clean(zone, st, e) ==> Counted(zone, t))
            && 0 <= Owed(zone, t) <= Owed(zone, st) + Asked(zone, e)
            && (!Clean(zone, st, e) ==> Owed(zone, t) == |zone.accounts| + Acks(zone, st) > |zone.accounts|)
  {
    hide Owed, Acks, SumBy, Ack, RewardsAnswer, EpochEnd, PerformanceWithdrawal;
    match e
    case RewardsAnswered(d, n) => if d in st.queries { AnswerKeepsCount(zone, st, d, n); }
    case Acked(i) =>
      if i < |st.packets| {
        AckKeepsCount(zone, st, i);
        CountsNonNegative(zone, st.packets[i]);
      }
    case PerformanceWithdrawn(n) => PerformanceKeepsCount(zone, st, n);
    case EpochEnded =>
      EpochEndCounts(zone, st);
      EpochEndOwes(zone, st);
      AcksWithinOwed(zone, st);
  }

  lemma AcksWithinOwed(zone: Zone, st: State)
    ensures 0 <= Acks(zone, st) <= Owed(zone, st)
  {
    AcksNonNegative(zone, st.packets);
  }

  /**
   Exactly when a step requests the distribution, in terms of the state before it: it is the
   acknowledgement of a packet whose messages are all that is outstanding.
   */
  lemma StepRequestsExactly(zone: Zone, st: State, e: Event)
    requires ValidZone(zone) && Counted(zone, st) && Owed(zone, st) < TWO32
    ensures var t := Step(zone, st, e);
            && t.distributions >= st.distributions
            && (t.distributions > st.distributions <==> Requests(zone, st, e))
            && (Requests(zone, st, e) ==> Owed(zone, t) == 0)
  {
    if e.Acked? && e.i < |st.packets| {
      AckKeepsCount(zone, st, e.i);
    }
  }

  /**
   The step that settles the last outstanding item is an acknowledgement, and then it requests
   the distribution, or it is an answer without rewards, and then it does not.
   */
  lemma LastStepDecides(zone: Zone, st: State, e: Event)
    requires ValidZone(zone) && Counted(zone, st) && 0 < Owed(zone, st) < TWO32
    requires Clean(zone, st, e) && Owed(zone, Step(zone, st, e)) == 0
    ensures Step(zone, st, e).distributions > st.distributions <==> e.Acked?
    ensures e.Acked? || (e.RewardsAnswered? && e.n == 0)
  {
    StepRequestsExactly(zone, st, e);
    assert zone.accounts == [] ==> st.queries == {};
    match e
    case RewardsAnswered(d, n) =>
      AcksNonNegative(zone, st.packets);
      if d in st.queries { AnswerKeepsCount(zone, st, d, n); }
    case Acked(i) =>
      if i < |st.packets| {
        AckKeepsCount(zone, st, i);
      }
    case PerformanceWithdrawn(n) => PerformanceKeepsCount(zone, st, n);
    case EpochEnded => EpochEndCounts(zone, st);
  }

  /** Every epoch end of the run comes when no withdrawal is unacknowledged. */
  ghost predicate CleanRun(zone: Zone, st: State, es: seq<Event>)
    decreases es
  {
    es != [] ==> Clean(zone, st, es[0]) && CleanRun(zone, Step(zone, st, es[0]), es[1..])
  }

  /** At every point the counter is what is outstanding, and a distribution is requested only when that is nothing. */
  ghost predicate SafeRun(zone: Zone, st: State, es: seq<Event>)
    decreases es
  {
    && st.wg == Owed(zone, st)
    && (es != [] ==>
          var t := Step(zone, st, es[0]);
          (t.distributions > st.distributions ==> Owed(zone, t) == 0) && SafeRun(zone, t, es[1..]))
  }

  /** Over every run, epoch ends included: safe if and only if every epoch end comes with nothing unacknowledged. */
  lemma {:induction false} SafeExactlyWhenClean(zone: Zone, st: State, es: seq<Event>)
    requires ValidZone(zone) && Counted(zone, st) && Owed(zone, st) + AskedIn(zone, es) < TWO32
    ensures SafeRun(zone, st, es) <==> CleanRun(zone, st, es)
    decreases es
  {
    hide Step, Owed, Acks, ValidZone, Requests;
    if es == [] {
    } else {
      var e, t := es[0], Step(zone, st, es[0]);
      StepKeepsCount(zone, st, e);
      StepRequestsExactly(zone, st, e);
      if Clean(zone, st, e) {
        SafeExactlyWhenClean(zone, t, es[1..]);
      } else {
        ForgottenIsUnsafe(zone, st, es);
      }
    }
  }

  lemma ForgottenIsUnsafe(zone: Zone, st: State, es: seq<Event>)
    requires ValidZone(zone) && Counted(zone, st) && Owed(zone, st) + AskedIn(zone, es) < TWO32
    requires es != [] && !Clean(zone, st, es[0])
    ensures !SafeRun(zone, st, es)
  {
    hide Owed, Acks, ValidZone;
    StepKeepsCount(zone, st, es[0]);
    assert Step(zone, st, es[0]).wg <= |zone.accounts|;
  }

  /** From an epoch end with no withdrawal outstanding, every clean run is safe while the counter can hold it. */
  lemma EpochIsSafe(zone: Zone, st: State, es: seq<Event>)
    requires ValidZone(zone) && st.queries <= (set a | a in zone.accounts) && Acks(zone, st) == 0
    requires |zone.accounts| + AskedIn(zone, es) < TWO32 && CleanRun(zone, EpochEnd(zone, st), es)
    ensures SafeRun(zone, EpochEnd(zone, st), es)
  {
    EpochEndCounts(zone, st);
    SafeExactlyWhenClean(zone, EpochEnd(zone, st), es);
  }

  /** Some event of the run meets, in the state it finds, the condition for a request. */
  ghost predicate RequestsInRun(zone: Zone, st: State, es: seq<Event>)
    decreases es
  {
    es != [] && (Requests(zone, st, es[0]) || RequestsInRun(zone, Step(zone, st, es[0]), es[1..]))
  }

  /**
   A run requests the distribution if and only if one of its acknowledgements is of a packet
   that is all that is outstanding at that point.
   */
  lemma {:induction false} RunRequestsExactly(zone: Zone, st: State, es: seq<Event>)
    requires ValidZone(zone) && Counted(zone, st) && Owed(zone, st) + AskedIn(zone, es) < TWO32
    requires CleanRun(zone, st, es)
    ensures Run(zone, st, es).distributions >= st.distributions
    ensures Run(zone, st, es).distributions > st.distributions <==> RequestsInRun(zone, st, es)
    decreases es
  {
    hide Step, Owed, Acks, ValidZone, Requests;
    if es == [] {
    } else {
      StepKeepsCount(zone, st, es[0]);
      StepRequestsExactly(zone, st, es[0]);
      RunRequestsExactly(zone, Step(zone, st, es[0]), es[1..]);
    }
  }

  // ----- Which account a message is of -----

  function Mine(a: string): string -> int { (d: string) => if d == a then 1 else 0 }

  ghost function MessagesOf(a: string): seq<string> -> int { (p: seq<string>) => SumBy(Mine(a), p) }

  /** The withdrawal messages of an account that are in flight. */
  ghost function InFlight(st: State, a: string): int { SumBy(MessagesOf(a), st.packets) }

  lemma {:induction false} AllMine(d: string, n: nat, a: string)
    ensures MessagesOf(a)(seq(n, _ => d)) == if a == d then n else 0
  {
    var p := seq(n, _ => d);
    if n == 0 {
    } else {
      AllMine(d, n - 1, a);
      assert p[1..] == seq(n - 1, _ => d);
    }
  }

  /** An answer takes its own query and sends as many messages of that account as it names rewards, and no other. */
  lemma AnswerSends(st: State, d: string, n: nat, a: string)
    requires d in st.queries
    ensures var t := RewardsAnswer(st, d, n);
            && InFlight(t, a) == InFlight(st, a) + (if a == d then n else 0)
            && t.queries == st.queries - {d} && t.distributions == st.distributions
  {
    hide MessagesOf;
    var p := seq(n, _ => d);
    AllMine(d, n, a);
    SumByConcat(MessagesOf(a), st.packets, [p]);
    SumByOne(MessagesOf(a), p);
  }

  /** An acknowledgement takes the messages of its packet, account by account, and leaves the queries. */
  lemma {:induction false} AckTakes(zone: Zone, st: State, i: nat, a: string)
    requires i < |st.packets|
    ensures var t := Ack(zone, st, i);
            InFlight(t, a) == InFlight(st, a) - MessagesOf(a)(st.packets[i]) && t.queries == st.queries
    decreases |st.packets[i]|
  {
    var p := st.packets[i];
    if p == [] {
      SumByRemove(MessagesOf(a), st.packets, i);
    } else {
      SumByUpdate(MessagesOf(a), st.packets, i, p[1..]);
      AckTakes(zone, HandleFirst(zone, st, i), i, a);
    }
  }

  // ----- A withdrawal left over -----

  lemma {:induction false} RunAppend(zone: Zone, st: State, es: seq<Event>, e: Event)
    ensures Run(zone, st, es + [e]) == Step(zone, Run(zone, st, es), e)
    decreases es
  {
    hide Step;
    if es == [] {
      assert [e][1..] == [];
      assert es + [e] == [e];
      assert Run(zone, Step(zone, st, e), []) == Step(zone, st, e);
    } else {
      assert (es + [e])[1..] == es[1..] + [e] && (es + [e])[0] == es[0];
      RunAppend(zone, Step(zone, st, es[0]), es[1..], e);
    }
  }

  function EmptyAnswers(ds: seq<string>): seq<Event>
  {
    if ds == [] then [] else [RewardsAnswered(ds[0], 0)] + EmptyAnswers(ds[1..])
  }

  lemma EmptyAnswerStep(zone: Zone, st: State, d: string)
    requires d in st.queries && st.wg > 0
    ensures Step(zone, st, RewardsAnswered(d, 0)) == st.(wg := st.wg - 1, queries := st.queries - {d})
  {
  }

  /** Answers without rewards take the queries off the counter and change nothing else. */
  lemma {:induction false} EmptyAnswersCount(zone: Zone, st: State, ds: seq<string>)
    requires (forall d :: d in ds ==> d in st.queries) && |ds| <= st.wg
    requires forall i, j :: 0 <= i < j < |ds| ==> ds[i] != ds[j]
    ensures Run(zone, st, EmptyAnswers(ds)) == st.(wg := st.wg - |ds|, queries := st.queries - set d | d in ds)
    decreases ds
  {
    hide Step;
    if ds == [] {
      assert st.queries - (set d | d in ds) == st.queries;
    } else {
      var t := Step(zone, st, RewardsAnswered(ds[0], 0));
      EmptyAnswerStep(zone, st, ds[0]);
      assert EmptyAnswers(ds)[1..] == EmptyAnswers(ds[1..]);
      forall d | d in ds[1..] ensures d in t.queries {
        var k :| 0 <= k < |ds[1..]| && ds[1..][k] == d;
        assert ds[k + 1] == d && ds[0] != ds[k + 1];
      }
      EmptyAnswersCount(zone, t, ds[1..]);
      assert (set d | d in ds) == {ds[0]} + set d | d in ds[1..];
      assert st.queries - (set d | d in ds) == t.queries - set d | d in ds[1..];
    }
  }

  lemma {:induction false} AckNeverTakesBack(zone: Zone, st: State, i: nat)
    requires i < |st.packets|
    ensures Ack(zone, st, i).distributions >= st.distributions && Ack(zone, st, i).queries == st.queries
    decreases |st.packets[i]|
  {
    if st.packets[i] == [] {
    } else {
      AckNeverTakesBack(zone, HandleFirst(zone, st, i), i);
    }
  }

  /** At a counter of one the next counted message requests the distribution. */
  lemma {:induction false} AckFromOne(zone: Zone, st: State, i: nat)
    requires i < |st.packets| && st.wg == 1 && PacketOwed(zone)(st.packets[i]) > 0
    ensures Ack(zone, st, i).distributions > st.distributions && Ack(zone, st, i).queries == st.queries
    decreases |st.packets[i]|
  {
    assert st.packets[i] != [];
    var t := HandleFirst(zone, st, i);
    if st.packets[i][0] == zone.performance {
      AckFromOne(zone, t, i);
    } else {
      AckNeverTakesBack(zone, t, i);
    }
  }

  lemma {:induction false} SomeOwed(zone: Zone, ps: seq<seq<string>>) returns (i: nat)
    requires SumBy(PacketOwed(zone), ps) > 0
    ensures i < |ps| && PacketOwed(zone)(ps[i]) > 0
  {
    if PacketOwed(zone)(ps[0]) > 0 {
      i := 0;
    } else {
      i := SomeOwed(zone, ps[1..]);
      i := i + 1;
    }
  }

  /**
   From every epoch end with a withdrawal left over, the distribution can be requested too early:
   once all queries but one are answered without rewards, the left-over acknowledgement does it.
   */
  lemma LeftoverDistributesEarly(zone: Zone, st: State) returns (es: seq<Event>)
    requires ValidZone(zone) && st.queries <= (set a | a in zone.accounts) && Acks(zone, st) > 0
    requires 0 < |zone.accounts| < TWO32
    ensures var t := Run(zone, EpochEnd(zone, st), es);
            t.distributions > st.distributions && zone.accounts[0] in t.queries
  {
    hide Step, Ack, Run, EmptyAnswers, PacketOwed, SumBy;
    var s, ds := EpochEnd(zone, st), zone.accounts[1..];
    assert zone.accounts == [zone.accounts[0]] + ds;
    assert forall d :: d in ds ==> d in zone.accounts;
    EmptyAnswersCount(zone, s, ds);
    var mid := Run(zone, s, EmptyAnswers(ds));
    assert zone.accounts[0] in s.queries && zone.accounts[0] !in ds;
    var i := SomeOwed(zone, st.packets);
    AckFromOne(zone, mid, i);
    es := EmptyAnswers(ds) + [Acked(i)];
    RunAppend(zone, s, EmptyAnswers(ds), Acked(i));
    AckedSteps(zone, mid, i);
  }

  lemma AckedSteps(zone: Zone, st: State, i: nat)
    requires i < |st.packets|
    ensures Step(zone, st, Acked(i)) == Ack(zone, st, i)
  {
  }

  /** So nothing is ever decremented below zero. */
  lemma NeverUnderflows(zone: Zone, st: State, d: string, i: nat)
    requires ValidZone(zone) && Counted(zone, st) && Owed(zone, st) < TWO32
    ensures d in st.queries ==> st.wg > 0
    ensures i < |st.packets| && st.packets[i] != [] && st.packets[i][0] != zone.performance ==> st.wg > 0
  {
    AcksNonNegative(zone, st.packets);
    if d in st.queries { assert |st.queries - {d}| == |st.queries| - 1; }
    if i < |st.packets| && st.packets[i] != [] && st.packets[i][0] != zone.performance {
      SumByRemove(PacketOwed(zone), st.packets, i);
      AcksNonNegative(zone, st.packets[..i] + st.packets[i + 1..]);
      CountsNonNegative(zone, st.packets[i][1..]);
    }
  }

  /** A run in which withdrawals are made and everything is answered, and that meets no such acknowledgement. */
  lemma LastAnswerEmptyNoDistribution()
    ensures var zone := Zone(["a", "b"], "p");
            var es := [RewardsAnswered("a", 1), Acked(0), RewardsAnswered("b", 0)];
            var t := Run(zone, EpochEnd(zone, State(0, {}, [], 0)), es);
            t.wg == 0 && t.queries == {} && t.packets == [] && t.distributions == 0
  {
    var zone := Zone(["a", "b"], "p");
    var e1, e2, e3 := RewardsAnswered("a", 1), Acked(0), RewardsAnswered("b", 0);
    var s0 := EpochEnd(zone, State(0, {}, [], 0));
    assert (set a | a in zone.accounts) == {"a", "b"};
    var s1 := Step(zone, s0, e1);
    assert seq(1, _ => "a") == ["a"];
    assert s1 == State(2, {"b"}, [["a"]], 0);
    var f := HandleFirst(zone, s1, 0);
    assert "a"[0] != "p"[0] && ["a"][1..] == [];
    assert f.wg == 1 && f.packets == [[]];
    var s2 := Step(zone, s1, e2);
    assert s2 == Ack(zone, f, 0) == State(1, {"b"}, [], 0);
    var s3 := Step(zone, s2, e3);
    assert s3 == State(0, {}, [], 0);
    assert [e1, e2, e3][1..] == [e2, e3] && [e2, e3][1..] == [e3] && [e3][1..] == [];
    assert Run(zone, s3, []) == s3;
    assert Run(zone, s2, [e3]) == s3;
    assert Run(zone, s1, [e2, e3]) == s3;
  }

  // ----- The zone in place -----

  function CountTrue(bs: seq<bool>): nat
  {
    if bs == [] then 0 else CountTrue(bs[..|bs| - 1]) + (if bs[|bs| - 1] then 1 else 0)
  }

  method WithdrawalMsgs(delegator: string, hasRewards: seq<bool>) returns (msgs: seq<string>)
    ensures msgs == seq(CountTrue(hasRewards), _ => delegator)
  {
    msgs := [];
    for i := 0 to |hasRewards|
      invariant |msgs| == CountTrue(hasRewards[..i]) && forall k :: 0 <= k < |msgs| ==> msgs[k] == delegator
    {
      assert hasRewards[..i + 1][..i] == hasRewards[..i];
      if hasRewards[i] {
        msgs := msgs + [delegator];
      }
    }
    assert hasRewards[..|hasRewards|] == hasRewards;
  }

  lemma IncreaseWraps(wg: nat, n: nat)
    ensures Increase(wg, n % TWO32) == Increase(wg, n)
  {
  }

  class ZoneCounter {
    const zone: Zone
    var wg: nat
    var queries: set<string>
    var packets: seq<seq<string>>
    var distributions: nat

    ghost function View(): State
      reads this
    {
      State(wg, queries, packets, distributions)
    }

    constructor (zone: Zone)
      ensures this.zone == zone && View() == State(0, {}, [], 0)
    {
      this.zone := zone;
      wg, queries, packets, distributions := 0, {}, [], 0;
    }

    method AfterEpochEnd()
      modifies this
      ensures View() == EpochEnd(zone, old(View()))
    {
      if wg > 0 {
        wg := 0;
      }
      for i := 0 to |zone.accounts|
        invariant packets == old(packets) && distributions == old(distributions)
        invariant wg == i % TWO32
        invariant queries == old(queries) + set a | a in zone.accounts[..i]
      {
        queries := queries + {zone.accounts[i]};
        wg := (wg + 1) % TWO32;
        assert zone.accounts[..i + 1] == zone.accounts[..i] + [zone.accounts[i]];
      }
      assert zone.accounts[..|zone.accounts|] == zone.accounts;
    }

    /** `hasRewards` lists, per delegation of the account, whether the answer names rewards for it. */
    method RewardsCallback(delegator: string, hasRewards: seq<bool>)
      requires delegator in queries
      modifies this
      ensures View() == RewardsAnswer(old(View()), delegator, CountTrue(hasRewards))
    {
      queries := queries - {delegator};
      hide CountTrue;
      wg := if wg == 0 then TWO32 - 1 else wg - 1;
      var msgs := WithdrawalMsgs(delegator, hasRewards);
      if |msgs| == 0 {
        return;
      }
      IncreaseWraps(wg, |msgs|);
      wg := (wg + |msgs| % TWO32) % TWO32;
      packets := packets + [msgs];
    }

    method HandleWithdrawRewards(delegator: string)
      modifies this`wg, this`distributions
      ensures wg == if delegator == zone.performance then old(wg) else Decrement(old(wg))
      ensures distributions == old(distributions) + (if old(wg) == Counts(zone)(delegator) then 1 else 0)
    {
      if delegator != zone.performance {
        wg := if wg == 0 then TWO32 - 1 else wg - 1;
      }
      if wg == 0 {
        distributions := distributions + 1;
      }
    }

    method HandleAcknowledgement(i: nat)
      requires i < |packets|
      modifies this
      ensures View() == Ack(zone, old(View()), i)
    {
      while packets[i] != []
        invariant i < |packets|
        invariant Ack(zone, View(), i) == Ack(zone, old(View()), i)
        decreases |packets[i]|
      {
        var delegator := packets[i][0];
        packets := packets[i := packets[i][1..]];
        HandleWithdrawRewards(delegator);
      }
      packets := packets[..i] + packets[i + 1..];
    }
  }
}
