/** The epoch clock: BeginBlocker of x/epochs/keeper/abci.go. Times are in nanoseconds. */
module Epochs {
  import D = Dec

  datatype EpochInfo = EpochInfo(
    identifier: string, startTime: int, duration: int,
    currentEpoch: int, currentEpochStartHeight: int, currentEpochStartTime: int, started: bool)

  /** A call of a hook: BeforeEpochStart or AfterEpochEnd with the epoch number. */
  datatype Hook = Starts(n: int) | Ends(n: int)

  datatype Call = Call(identifier: string, hook: Hook)

  datatype Block = Block(time: int, height: int)

  // ----- One block for one epoch -----

  function StartInitialEpoch(e: EpochInfo): EpochInfo
  {
    e.(started := true, currentEpoch := 1, currentEpochStartTime := e.startTime)
  }

  function EndEpoch(e: EpochInfo): EpochInfo
  {
    e.(currentEpoch := e.currentEpoch + 1, currentEpochStartTime := e.currentEpochStartTime + e.duration)
  }

  predicate StartsFirst(e: EpochInfo, b: Block) { !e.started && e.startTime <= b.time }

  predicate StartsNext(e: EpochInfo, b: Block)
  {
    b.time > e.currentEpochStartTime + e.duration && !StartsFirst(e, b) && e.startTime <= b.time
  }

  function Tick(e: EpochInfo, b: Block): EpochInfo
  {
    var f := e.(currentEpochStartHeight := b.height);
    if StartsFirst(e, b) then StartInitialEpoch(f)
    else if StartsNext(e, b) then EndEpoch(f)
    else e
  }

  function Hooks(e: EpochInfo, b: Block): seq<Hook>
  {
    if StartsFirst(e, b) then [Starts(1)]
    else if StartsNext(e, b) then [Ends(e.currentEpoch), Starts(e.currentEpoch + 1)]
    else []
  }

  function Ticks(e: EpochInfo, bs: seq<Block>): EpochInfo
    decreases bs
  {
    if bs == [] then e else Ticks(Tick(e, bs[0]), bs[1..])
  }

  function HookLog(e: EpochInfo, bs: seq<Block>): seq<Hook>
    decreases bs
  {
    if bs == [] then [] else Hooks(e, bs[0]) + HookLog(Tick(e, bs[0]), bs[1..])
  }

  // ----- Whole runs of one epoch -----

  /** Start 1, End 1, Start 2, .., End n-1, Start n; empty before the first epoch. */
  function Expected(n: nat): seq<Hook>
  {
    if n == 0 then [] else if n == 1 then [Starts(1)]
    else Expected(n - 1) + [Ends(n - 1), Starts(n)]
  }

  /** Where a clock stands at a time: not started, or in epoch n on the grid of its start time. */
  ghost predicate OnGrid(e: EpochInfo, time: int)
  {
    && e.duration > 0
    && (e.started ==>
          && e.currentEpoch >= 1
          && e.currentEpochStartTime == e.startTime + (e.currentEpoch - 1) * e.duration
          && e.currentEpochStartTime <= time)
    && (!e.started ==> e.currentEpoch == 0)
  }

  ghost predicate Ascending(bs: seq<Block>, from: int)
  {
    bs != [] ==> from <= bs[0].time && Ascending(bs[1..], bs[0].time)
  }

  function LastTime(bs: seq<Block>, from: int): int
  {
    if bs == [] then from else LastTime(bs[1..], bs[0].time)
  }

  lemma TickLaw(e: EpochInfo, b: Block, from: int)
    requires OnGrid(e, from) && from <= b.time
    ensures OnGrid(Tick(e, b), b.time)
    ensures Tick(e, b).currentEpoch >= 0 && e.currentEpoch >= 0
    ensures Expected(Tick(e, b).currentEpoch) == Expected(e.currentEpoch) + Hooks(e, b)
  {
    if StartsNext(e, b) {
      assert (e.currentEpoch + 1 - 1) * e.duration == (e.currentEpoch - 1) * e.duration + e.duration;
    }
  }

  /**
   From an epoch that has not started, over every run of blocks with non-decreasing
   times: the epoch start is StartTime + (n-1) * Duration, never in the future, and the
   hooks were Start 1, End 1, Start 2, .., Start n.
   */
  lemma {:induction false} RunOnGrid(e: EpochInfo, bs: seq<Block>, from: int)
    requires OnGrid(e, from) && Ascending(bs, from)
    ensures OnGrid(Ticks(e, bs), LastTime(bs, from))
    ensures Ticks(e, bs).currentEpoch >= 0 && e.currentEpoch >= 0
    ensures Expected(Ticks(e, bs).currentEpoch) == Expected(e.currentEpoch) + HookLog(e, bs)
    decreases bs
  {
    hide Tick, Hooks;
    if bs == [] {
    } else {
      TickLaw(e, bs[0], from);
      RunOnGrid(Tick(e, bs[0]), bs[1..], bs[0].time);
      assert Expected(e.currentEpoch) + Hooks(e, bs[0]) + HookLog(Tick(e, bs[0]), bs[1..])
          == Expected(e.currentEpoch) + (Hooks(e, bs[0]) + HookLog(Tick(e, bs[0]), bs[1..]));
    }
  }

  /**
   When a block changes a clock: it starts the first epoch from the start time on, and the next one
   once the time is past start time + n * duration. Only then the height of the epoch's start is
   that of the block, and the settings of the clock never change.
   */
  lemma TickExactly(e: EpochInfo, b: Block, from: int)
    requires OnGrid(e, from) && from <= b.time
    ensures var t := Tick(e, b);
            && (t.identifier, t.startTime, t.duration) == (e.identifier, e.startTime, e.duration)
            && (t.started <==> e.started || e.startTime <= b.time)
            && (Hooks(e, b) != [] <==>
                  if e.started then b.time > e.startTime + e.currentEpoch * e.duration else e.startTime <= b.time)
            && (if Hooks(e, b) != [] then t.currentEpochStartHeight == b.height else t == e)
  {
    assert e.currentEpoch * e.duration == (e.currentEpoch - 1) * e.duration + e.duration;
    if e.started { D.MulNonNeg(e.currentEpoch - 1, e.duration); }
  }

  /** A clock has started once there was a block at or after its start time, and not before. */
  lemma {:induction false} StartsOnTime(e: EpochInfo, bs: seq<Block>, from: int)
    requires OnGrid(e, from) && Ascending(bs, from)
    ensures Ticks(e, bs).started <==> e.started || exists b :: b in bs && e.startTime <= b.time
    decreases bs
  {
    hide Tick, Hooks, OnGrid;
    if bs == [] {
    } else {
      TickLaw(e, bs[0], from);
      TickExactly(e, bs[0], from);
      StartsOnTime(Tick(e, bs[0]), bs[1..], bs[0].time);
      assert forall b :: b in bs <==> b == bs[0] || b in bs[1..];
    }
  }

  // ----- Catching up -----

  /** How many whole epochs a started clock is behind a time. */
  ghost function Behind(e: EpochInfo, time: int): int
    requires e.duration > 0
  {
    if time <= e.currentEpochStartTime then 0 else (time - e.currentEpochStartTime - 1) / e.duration
  }

  lemma TickCatchesUp(e: EpochInfo, b: Block)
    requires OnGrid(e, b.time) && e.started
    ensures Behind(e, b.time) >= 0
    ensures Tick(e, b).currentEpoch == e.currentEpoch + (if Behind(e, b.time) > 0 then 1 else 0)
    ensures Behind(Tick(e, b), b.time) == if Behind(e, b.time) > 0 then Behind(e, b.time) - 1 else 0
    ensures OnGrid(Tick(e, b), b.time) && Tick(e, b).started
  {
    TickLaw(e, b, b.time);
    var gap := b.time - e.currentEpochStartTime - 1;
    assert e.currentEpochStartTime >= e.startTime by { D.MulNonNeg(e.currentEpoch - 1, e.duration); }
    if gap >= 0 {
      OneLess(gap, e.duration);
    }
  }

  lemma OneLess(gap: int, d: int)
    requires d > 0 && gap >= 0
    ensures gap / d >= 0 && (gap / d > 0 <==> gap >= d)
    ensures gap >= d ==> (gap - d) / d == gap / d - 1
  {
    D.DivBounds(gap, d);
    Quotient(gap, d, gap / d);
    D.DivUnique(gap - d, d, gap / d - 1, gap - d * (gap / d));
  }

  lemma Quotient(gap: int, d: int, q: int)
    requires d > 0 && gap >= 0 && d * q <= gap < d * q + d
    ensures q >= 0 && (q > 0 <==> gap >= d)
    ensures gap - d == d * (q - 1) + (gap - d * q)
  {
    assert d * q == q * d && d * (q - 1) == d * q - d;
    if q < 0 {
      D.MulMono(q, -1, d);
    } else if q > 0 {
      D.MulMono(1, q, d);
    }
  }

  /** At a fixed time a backlog of k epochs takes exactly k blocks to clear, one epoch a block. */
  lemma {:induction false} BacklogClears(e: EpochInfo, bs: seq<Block>, time: int)
    requires OnGrid(e, time) && e.started && forall b :: b in bs ==> b.time == time
    ensures Ticks(e, bs).duration == e.duration
    ensures var k := Behind(e, time);
            && k >= 0
            && Ticks(e, bs).currentEpoch == e.currentEpoch + (if |bs| < k then |bs| else k)
            && (Behind(Ticks(e, bs), time) == 0 <==> |bs| >= k)
    decreases bs
  {
    if bs == [] {
      TickCatchesUp(e, Block(time, 0));
    } else {
      TickCatchesUp(e, bs[0]);
      BacklogClears(Tick(e, bs[0]), bs[1..], time);
    }
  }

  // ----- All epochs of the store -----

  ghost predicate DistinctIds(es: seq<EpochInfo>)
  {
    forall i, j :: 0 <= i < j < |es| ==> es[i].identifier != es[j].identifier
  }

  function Calls(id: string, hs: seq<Hook>): seq<Call>
  {
    if hs == [] then [] else [Call(id, hs[0])] + Calls(id, hs[1..])
  }

  function TickAll(es: seq<EpochInfo>, b: Block): seq<EpochInfo>
  {
    if es == [] then [] else [Tick(es[0], b)] + TickAll(es[1..], b)
  }

  function CallsAll(es: seq<EpochInfo>, b: Block): seq<Call>
  {
    if es == [] then [] else Calls(es[0].identifier, Hooks(es[0], b)) + CallsAll(es[1..], b)
  }

  /** The hooks called for one identifier. */
  ghost function OfOne(id: string, call: Call): seq<Hook> { if call.identifier == id then [call.hook] else [] }

  ghost function Of(id: string, log: seq<Call>): seq<Hook>
  {
    if log == [] then [] else OfOne(id, log[0]) + Of(id, log[1..])
  }

  lemma OfNothing(id: string, log: seq<Call>)
    requires log == []
    ensures Of(id, log) == []
  {
  }

  lemma Regroup(a: seq<Hook>, b: seq<Hook>, c: seq<Hook>)
    ensures a + (b + c) == a + b + c
  {
  }

  lemma OfHead(id: string, log: seq<Call>)
    requires log != []
    ensures Of(id, log) == OfOne(id, log[0]) + Of(id, log[1..])
  {
  }

  lemma {:induction false} OfConcat(id: string, a: seq<Call>, b: seq<Call>)
    ensures Of(id, a + b) == Of(id, a) + Of(id, b)
  {
    hide Of, OfOne;
    if a == [] {
      assert a + b == b;
      OfNothing(id, a);
    } else {
      var all := a + b;
      assert all[1..] == a[1..] + b && all[0] == a[0];
      OfConcat(id, a[1..], b);
      OfHead(id, a);
      OfHead(id, all);
      Regroup(OfOne(id, a[0]), Of(id, a[1..]), Of(id, b));
    }
  }

  lemma {:induction false} OfCalls(id: string, other: string, hs: seq<Hook>)
    ensures Of(id, Calls(other, hs)) == if id == other then hs else []
  {
    if hs == [] {
    } else {
      OfCalls(id, other, hs[1..]);
      assert Calls(other, hs)[1..] == Calls(other, hs[1..]);
      assert hs == [hs[0]] + hs[1..];
    }
  }

  lemma {:induction false} TickAllAt(es: seq<EpochInfo>, b: Block)
    ensures |TickAll(es, b)| == |es|
    ensures forall i :: 0 <= i < |es| ==> TickAll(es, b)[i] == Tick(es[i], b)
    ensures forall i :: 0 <= i < |es| ==> TickAll(es, b)[i].identifier == es[i].identifier
  {
    if es == [] {
    } else {
      TickAllAt(es[1..], b);
    }
  }

  lemma {:induction false} CallsAllOf(es: seq<EpochInfo>, b: Block, i: nat)
    requires DistinctIds(es) && i < |es|
    ensures Of(es[i].identifier, CallsAll(es, b)) == Hooks(es[i], b)
  {
    var id := es[i].identifier;
    OfConcat(id, Calls(es[0].identifier, Hooks(es[0], b)), CallsAll(es[1..], b));
    OfCalls(id, es[0].identifier, Hooks(es[0], b));
    if i == 0 {
      NoCallsOf(id, es[1..], b);
    } else {
      CallsAllOf(es[1..], b, i - 1);
    }
  }

  lemma {:induction false} NoCallsOf(id: string, es: seq<EpochInfo>, b: Block)
    requires forall i :: 0 <= i < |es| ==> es[i].identifier != id
    ensures Of(id, CallsAll(es, b)) == []
  {
    if es == [] {
    } else {
      OfConcat(id, Calls(es[0].identifier, Hooks(es[0], b)), CallsAll(es[1..], b));
      OfCalls(id, es[0].identifier, Hooks(es[0], b));
      NoCallsOf(id, es[1..], b);
    }
  }

  function RunAll(es: seq<EpochInfo>, bs: seq<Block>): seq<EpochInfo>
    decreases bs
  {
    if bs == [] then es else RunAll(TickAll(es, bs[0]), bs[1..])
  }

  function LogAll(es: seq<EpochInfo>, bs: seq<Block>): seq<Call>
    decreases bs
  {
    if bs == [] then [] else CallsAll(es, bs[0]) + LogAll(TickAll(es, bs[0]), bs[1..])
  }

  /** The clocks do not disturb each other: each runs, and calls its hooks, as if it were alone. */
  lemma {:induction false} ClocksIndependent(es: seq<EpochInfo>, bs: seq<Block>, i: nat)
    requires DistinctIds(es) && i < |es|
    ensures |RunAll(es, bs)| == |es|
    ensures RunAll(es, bs)[i] == Ticks(es[i], bs)
    ensures Of(es[i].identifier, LogAll(es, bs)) == HookLog(es[i], bs)
    decreases bs
  {
    if bs == [] {
    } else {
      TickAllAt(es, bs[0]);
      CallsAllOf(es, bs[0], i);
      OfConcat(es[i].identifier, CallsAll(es, bs[0]), LogAll(TickAll(es, bs[0]), bs[1..]));
      ClocksIndependent(TickAll(es, bs[0]), bs[1..], i);
    }
  }

  /** For every clock of a genesis store, over every run: the grid and the order of its hooks. */
  lemma EveryClockOnGrid(es: seq<EpochInfo>, bs: seq<Block>, from: int, i: nat)
    requires DistinctIds(es) && i < |es| && Ascending(bs, from)
    requires es[i].duration > 0 && !es[i].started && es[i].currentEpoch == 0
    ensures |RunAll(es, bs)| == |es|
    ensures OnGrid(RunAll(es, bs)[i], LastTime(bs, from)) && RunAll(es, bs)[i].currentEpoch >= 0
    ensures Of(es[i].identifier, LogAll(es, bs)) == Expected(RunAll(es, bs)[i].currentEpoch)
  {
    ClocksIndependent(es, bs, i);
    RunOnGrid(es[i], bs, from);
    assert Expected(0) + HookLog(es[i], bs) == HookLog(es[i], bs);
  }

  // ----- The store in place -----

  /** One epoch of the block: its new state and the hooks called on the way. */
  method TickEpoch(e: EpochInfo, b: Block) returns (f: EpochInfo, calls: seq<Call>)
    ensures f == Tick(e, b)
    ensures calls == Calls(e.identifier, Hooks(e, b))
  {
    CallsOfTick(e, b);
    var first := !e.started && e.startTime <= b.time;
    var next := b.time > e.currentEpochStartTime + e.duration && !first && e.startTime <= b.time;
    f, calls := e.(currentEpochStartHeight := b.height), [];
    if first {
      f := StartInitialEpoch(f);
    } else if next {
      calls := [Call(e.identifier, Ends(e.currentEpoch))];
      f := EndEpoch(f);
    } else {
      return e, [];
    }
    calls := calls + [Call(f.identifier, Starts(f.currentEpoch))];
  }

  class EpochKeeper {
    var infos: seq<EpochInfo>
    var log: seq<Call>

    constructor (genesis: seq<EpochInfo>)
      ensures infos == genesis && log == []
    {
      infos, log := genesis, [];
    }

    method BeginBlocker(b: Block)
      modifies this
      ensures infos == TickAll(old(infos), b)
      ensures log == old(log) + CallsAll(old(infos), b)
    {
      hide Tick, Hooks;
      TickAllAt(infos, b);
      for i := 0 to |infos|
        invariant |infos| == |old(infos)|
        invariant infos[..i] == TickAll(old(infos), b)[..i] && infos[i..] == old(infos)[i..]
        invariant log + CallsAll(infos[i..], b) == old(log) + CallsAll(old(infos), b)
      {
        assert infos[i..][0] == infos[i] && infos[i..][1..] == infos[i + 1..];
        ghost var was, tail := log, CallsAll(infos[i + 1..], b);
        var f, calls := TickEpoch(infos[i], b);
        infos, log := infos[i := f], log + calls;
        assert was + (calls + tail) == log + tail;
        assert infos[i + 1..] == old(infos)[i + 1..];
        assert infos[..i + 1] == infos[..i] + [infos[i]];
      }
      assert infos[|infos|..] == [] && log + [] == log;
      assert infos[..|infos|] == infos;
    }
  }

  lemma CallsOfTick(e: EpochInfo, b: Block)
    ensures Calls(e.identifier, Hooks(e, b))
         == if StartsFirst(e, b) then [Call(e.identifier, Starts(1))]
            else if StartsNext(e, b) then
              [Call(e.identifier, Ends(e.currentEpoch)), Call(e.identifier, Starts(e.currentEpoch + 1))]
            else []
  {
    assert Calls(e.identifier, []) == [];
    var hs := Hooks(e, b);
    if StartsNext(e, b) {
      assert hs[1..] == [Starts(e.currentEpoch + 1)] && hs[1..][1..] == [];
    } else if StartsFirst(e, b) {
      assert hs[1..] == [];
    }
  }
}
