/**
 Emission of interchain queries: EndBlocker (abci.go), MakeRequest (keeper.go) and
 SubmitQueryResponse (msg_server.go) of x/interchainquery/keeper.
 */
module Queries {

  /** lastEmission is 0 until the first emission; a nil value counts as 0 as well. */
  datatype Query = Query(period: int, lastHeight: int, lastEmission: int)

  type Store = map<string, Query>

  datatype Request = Request(id: string, period: int)

  datatype Outcome = Rejected | Succeeded | SucceededNoDelete

  /** What can happen to the store during a block; a callback may make requests of its own. */
  datatype Op = Make(request: Request) | Respond(id: string, outcome: Outcome, nested: seq<Request>)

  // ----- Operations -----

  function MakeRequest(store: Store, r: Request): Store
  {
    if r.id in store then store[r.id := store[r.id].(lastHeight := 0)]
    else store[r.id := Query(r.period, 0, 0)]
  }

  function MakeAll(store: Store, rs: seq<Request>): Store
    decreases rs
  {
    if rs == [] then store else MakeAll(MakeRequest(store, rs[0]), rs[1..])
  }

  /** An answered single query is deleted; any other is written back with the height of the answer. */
  function SubmitResponse(store: Store, id: string, outcome: Outcome, nested: seq<Request>, height: int): Store
  {
    if id !in store || store[id].lastHeight == height || outcome.Rejected? then store
    else
      var q, after := store[id], MakeAll(store, nested);
      if q.period < 0 && outcome.Succeeded? then after - {id}
      else after[id := q.(lastHeight := height)]
  }

  function Apply(store: Store, op: Op, height: int): Store
  {
    match op
    case Make(r) => MakeRequest(store, r)
    case Respond(id, outcome, nested) => SubmitResponse(store, id, outcome, nested, height)
  }

  function ApplyAll(store: Store, ops: seq<Op>, height: int): Store
    decreases ops
  {
    if ops == [] then store else ApplyAll(Apply(store, ops[0], height), ops[1..], height)
  }

  predicate Due(q: Query, height: int)
  {
    q.lastEmission == 0 || q.lastEmission + q.period == height
  }

  function Emitted(q: Query, height: int): Query
  {
    if Due(q, height) then q.(lastEmission := height) else q
  }

  function EndBlock(store: Store, height: int): Store
  {
    map id | id in store :: Emitted(store[id], height)
  }

  // ----- Runs of consecutive blocks -----

  /** The heights at which a query is emitted while blocks from `height` on are processed. */
  function Emissions(store: Store, blocks: seq<seq<Op>>, height: int, id: string): seq<int>
    decreases blocks
  {
    if blocks == [] then []
    else
      var s := ApplyAll(store, blocks[0], height);
      (if id in s && Due(s[id], height) then [height] else [])
      + Emissions(EndBlock(s, height), blocks[1..], height + 1, id)
  }

  /** due, due + p, due + 2p, .. below `end`. */
  function Every(due: int, p: int, end: int): seq<int>
    requires p > 0
    decreases end - due
  {
    if due >= end then [] else [due] + Every(due + p, p, end)
  }

  /** What no operation changes about a stored query. */
  ghost predicate Keeps(s: Store, t: Store, id: string)
  {
    id in s && id in t && t[id].period == s[id].period && t[id].lastEmission == s[id].lastEmission
  }

  lemma {:induction false} MakeAllKeeps(store: Store, rs: seq<Request>, id: string)
    requires id in store
    ensures Keeps(store, MakeAll(store, rs), id)
    decreases rs
  {
    if rs == [] {
    } else {
      MakeAllKeeps(MakeRequest(store, rs[0]), rs[1..], id);
    }
  }

  /** An operation that would delete a stored query: the answer to a single query. */
  predicate Deletes(op: Op, id: string, period: int)
  {
    op.Respond? && op.id == id && op.outcome.Succeeded? && period < 0
  }

  lemma ApplyKeeps(store: Store, op: Op, height: int, id: string)
    requires id in store && !Deletes(op, id, store[id].period)
    ensures Keeps(store, Apply(store, op, height), id)
  {
    if op.Respond? {
      MakeAllKeeps(store, op.nested, id);
    }
  }

  ghost predicate NeverDeleted(blocks: seq<seq<Op>>, id: string, period: int)
  {
    forall ops, op :: ops in blocks && op in ops ==> !Deletes(op, id, period)
  }

  lemma {:induction false} ApplyAllKeeps(store: Store, ops: seq<Op>, height: int, id: string)
    requires id in store && forall op :: op in ops ==> !Deletes(op, id, store[id].period)
    ensures Keeps(store, ApplyAll(store, ops, height), id)
    decreases ops
  {
    if ops == [] {
    } else {
      ApplyKeeps(store, ops[0], height, id);
      ApplyAllKeeps(Apply(store, ops[0], height), ops[1..], height, id);
    }
  }

  /**
   A stored query with a positive period is emitted at exactly its due height and every
   period after it, whatever is requested or answered in between: a re-request does not
   bring an emission forward.
   */
  lemma {:induction false} PeriodicSchedule(store: Store, blocks: seq<seq<Op>>, height: int, id: string, due: int)
    requires height > 0 && id in store && store[id].period > 0
    requires due == if store[id].lastEmission == 0 then height else store[id].lastEmission + store[id].period
    requires height <= due
    ensures Emissions(store, blocks, height, id) == Every(due, store[id].period, height + |blocks|)
    decreases blocks
  {
    if blocks == [] {
    } else {
      var p := store[id].period;
      ApplyAllKeeps(store, blocks[0], height, id);
      var s := ApplyAll(store, blocks[0], height);
      var t := EndBlock(s, height);
      PeriodicSchedule(t, blocks[1..], height + 1, id, if due == height then due + p else due);
    }
  }

  /** A query requested for the first time in a block: from that block on, every period. */
  lemma NewQuerySchedule(store: Store, r: Request, blocks: seq<seq<Op>>, height: int)
    requires height > 0 && r.id !in store && r.period > 0
    ensures Emissions(MakeRequest(store, r), blocks, height, r.id) == Every(height, r.period, height + |blocks|)
  {
    PeriodicSchedule(MakeRequest(store, r), blocks, height, r.id, height);
  }

  /** Once emitted, a query whose period is not positive is not emitted again while it stays stored. */
  lemma {:induction false} SilentOnceEmitted(store: Store, blocks: seq<seq<Op>>, height: int, id: string)
    requires id in store && store[id].period <= 0 && 0 < store[id].lastEmission < height
    requires NeverDeleted(blocks, id, store[id].period)
    ensures Emissions(store, blocks, height, id) == []
    decreases blocks
  {
    if blocks == [] {
    } else {
      assert forall op :: op in blocks[0] ==> !Deletes(op, id, store[id].period) by { assert blocks[0] in blocks; }
      ApplyAllKeeps(store, blocks[0], height, id);
      var s := ApplyAll(store, blocks[0], height);
      assert NeverDeleted(blocks[1..], id, store[id].period) by {
        forall ops, op | ops in blocks[1..] && op in ops ensures !Deletes(op, id, store[id].period) {
          assert ops in blocks;
        }
      }
      SilentOnceEmitted(EndBlock(s, height), blocks[1..], height + 1, id);
    }
  }

  /** A query with a period that is not positive is emitted once while it stays stored. */
  lemma SingleEmission(store: Store, blocks: seq<seq<Op>>, height: int, id: string)
    requires height > 0 && blocks != [] && id in store && store[id].period <= 0 && store[id].lastEmission == 0
    requires NeverDeleted(blocks, id, store[id].period)
    ensures Emissions(store, blocks, height, id) == [height]
  {
    assert forall op :: op in blocks[0] ==> !Deletes(op, id, store[id].period) by { assert blocks[0] in blocks; }
    ApplyAllKeeps(store, blocks[0], height, id);
    var s := ApplyAll(store, blocks[0], height);
    assert NeverDeleted(blocks[1..], id, store[id].period) by {
      forall ops, op | ops in blocks[1..] && op in ops ensures !Deletes(op, id, store[id].period) {
        assert ops in blocks;
      }
    }
    SilentOnceEmitted(EndBlock(s, height), blocks[1..], height + 1, id);
  }

  /** A re-request makes a stored query come out in a block if and only if it was due there anyway. */
  lemma ReRequestExactly(store: Store, r: Request, height: int)
    requires r.id in store
    ensures Emissions(MakeRequest(store, r), [[]], height, r.id) == [height] <==> Due(store[r.id], height)
    ensures Emissions(MakeRequest(store, r), [[]], height, r.id) == Emissions(store, [[]], height, r.id)
  {
    OneBlock(store, height, r.id);
    OneBlock(MakeRequest(store, r), height, r.id);
  }

  lemma OneBlock(store: Store, height: int, id: string)
    ensures Emissions(store, [[]], height, id) == if id in store && Due(store[id], height) then [height] else []
  {
    var none: seq<Op> := [];
    assert [none][1..] == [];
    assert ApplyAll(store, none, height) == store;
    assert Emissions(EndBlock(store, height), [], height + 1, id) == [];
  }

  /** A query of period 5 that was emitted at height 6 stays silent at height 7, although it is requested again. */
  lemma ReRequestStaysSilent()
    ensures var store := map["q" := Query(5, 6, 6)];
            Emissions(MakeRequest(store, Request.Request("q", 5)), [[]], 7, "q") == []
  {
    OneBlock(MakeRequest(map["q" := Query(5, 6, 6)], Request.Request("q", 5)), 7, "q");
  }

  /** The answer to a single query removes it, so that a new request for it starts over. */
  lemma AnsweredSingleQueryIsGone(store: Store, id: string, nested: seq<Request>, height: int, r: Request)
    requires id in store && store[id].period < 0 && store[id].lastHeight != height && r.id == id && r.period < 0
    ensures var s := SubmitResponse(store, id, Succeeded, nested, height);
            && id !in s
            && Emissions(MakeRequest(s, r), [[]], height + 1, id) == [height + 1]
  {
    var s := SubmitResponse(store, id, Succeeded, nested, height);
    var t := MakeRequest(s, r);
    assert ApplyAll(t, [], height + 1) == t;
    assert Emissions(EndBlock(t, height + 1), [], height + 2, id) == [];
    var none: seq<Op> := [];
    assert [none][1..] == [];
  }

  // ----- Answers -----

  ghost predicate Asks(rs: seq<Request>, id: string) { exists i :: 0 <= i < |rs| && rs[i].id == id }

  /** The period of the first request for a query. */
  function AskedPeriod(rs: seq<Request>, id: string): int
  {
    if rs == [] then 0 else if rs[0].id == id then rs[0].period else AskedPeriod(rs[1..], id)
  }

  lemma AsksSplit(rs: seq<Request>, id: string)
    requires rs != []
    ensures Asks(rs, id) <==> rs[0].id == id || Asks(rs[1..], id)
  {
    if Asks(rs[1..], id) {
      var i :| 0 <= i < |rs[1..]| && rs[1..][i].id == id;
      assert rs[i + 1].id == id;
    }
    if Asks(rs, id) && rs[0].id != id {
      var i :| 0 <= i < |rs| && rs[i].id == id;
      assert rs[1..][i - 1].id == id;
    }
  }

  /** Requests store new queries, take the height off known ones and leave all others. */
  lemma {:induction false} MakeAllExactly(store: Store, rs: seq<Request>, id: string)
    ensures var t := MakeAll(store, rs);
            && (id in t <==> id in store || Asks(rs, id))
            && (id in store ==> t[id] == if Asks(rs, id) then store[id].(lastHeight := 0) else store[id])
            && (id !in store && Asks(rs, id) ==> t[id] == Query(AskedPeriod(rs, id), 0, 0))
    decreases rs
  {
    if rs == [] {
    } else {
      AsksSplit(rs, id);
      MakeAllExactly(MakeRequest(store, rs[0]), rs[1..], id);
    }
  }

  /** An answer is ignored when its query is unknown or was answered at this height, or when its callback fails. */
  predicate Ignored(store: Store, id: string, outcome: Outcome, height: int)
  {
    id !in store || store[id].lastHeight == height || outcome.Rejected?
  }

  /**
   What an answer does. One that is ignored changes nothing. Any other deletes a single query,
   unless its callback asked for it again, and writes any other query back with the height. The
   requests of the callback are stored, and everything else stays as it was.
   */
  lemma AnswerExactly(store: Store, id: string, outcome: Outcome, nested: seq<Request>, height: int, x: string)
    ensures var t := SubmitResponse(store, id, outcome, nested, height);
            && (Ignored(store, id, outcome, height) ==> t == store)
            && (!Ignored(store, id, outcome, height) ==>
                  && (id in t <==> store[id].period >= 0 || outcome.SucceededNoDelete?)
                  && (id in t ==> t[id] == store[id].(lastHeight := height))
                  && (x != id ==>
                        && (x in t <==> x in store || Asks(nested, x))
                        && (x in store ==> t[x] == if Asks(nested, x) then store[x].(lastHeight := 0) else store[x])
                        && (x !in store && Asks(nested, x) ==> t[x] == Query(AskedPeriod(nested, x), 0, 0))))
  {
    hide MakeAll;
    MakeAllExactly(store, nested, id);
    MakeAllExactly(store, nested, x);
  }

  /**
   A second answer in the same block changes nothing, whatever it says, unless the query was
   requested again in between; then a stored query is open to an answer once more.
   */
  lemma SecondAnswerIgnored(store: Store, id: string, outcome: Outcome, nested: seq<Request>, height: int, o: Outcome,
                            n: seq<Request>, period: int)
    requires height > 0 && !Ignored(store, id, outcome, height)
    ensures var t := SubmitResponse(store, id, outcome, nested, height);
            && SubmitResponse(t, id, o, n, height) == t
            && (!o.Rejected? ==> !Ignored(MakeRequest(t, Request.Request(id, period)), id, o, height))
  {
    hide MakeAll;
    AnswerExactly(store, id, outcome, nested, height, id);
  }

  // ----- The store in place -----

  class QueryKeeper {
    var queries: Store

    constructor ()
      ensures queries == map[]
    {
      queries := map[];
    }

    method Ask(id: string, period: int)
      modifies this
      ensures queries == MakeRequest(old(queries), Request.Request(id, period))
      ensures queries.Keys == old(queries).Keys + {id}
      ensures forall other :: other in old(queries) ==>
                && Keeps(old(queries), queries, other)
                && forall height :: Due(queries[other], height) == Due(old(queries)[other], height)
      ensures id !in old(queries) ==> queries[id].period == period && forall height :: Due(queries[id], height)
      ensures queries[id].lastHeight == 0
    {
      if id !in queries {
        queries := queries[id := Query(period, 0, 0)];
      } else {
        queries := queries[id := queries[id].(lastHeight := 0)];
      }
    }

    method Response(id: string, outcome: Outcome, nested: seq<Request>, height: int)
      modifies this
      ensures queries == SubmitResponse(old(queries), id, outcome, nested, height)
    {
      if id !in queries {
        return;
      }
      var q := queries[id];
      if q.lastHeight == height || outcome.Rejected? {
        return;
      }
      for i := 0 to |nested|
        invariant MakeAll(queries, nested[i..]) == MakeAll(old(queries), nested)
      {
        Ask(nested[i].id, nested[i].period);
      }
      var noDelete := outcome.SucceededNoDelete?;
      if q.period < 0 && !noDelete {
        queries := queries - {id};
      } else {
        queries := queries[id := q.(lastHeight := height)];
      }
    }

    /** Emits the due queries, in some order, and stamps them. */
    method EndBlocker(height: int) returns (events: seq<string>)
      modifies this
      ensures queries == EndBlock(old(queries), height)
      ensures forall id :: id in events <==> id in old(queries) && Due(old(queries)[id], height)
      ensures forall i, j :: 0 <= i < j < |events| ==> events[i] != events[j]
    {
      events := [];
      var todo := queries.Keys;
      while todo != {}
        invariant todo <= old(queries).Keys && queries.Keys == old(queries).Keys
        invariant forall id :: id in queries ==>
                    queries[id] == if id in todo then old(queries)[id] else Emitted(old(queries)[id], height)
        invariant forall id :: id in events <==> id in old(queries) && id !in todo && Due(old(queries)[id], height)
        invariant forall i, j :: 0 <= i < j < |events| ==> events[i] != events[j]
        decreases todo
      {
        var id :| id in todo;
        var q := queries[id];
        if q.lastEmission == 0 || q.lastEmission + q.period == height {
          events := events + [id];
          queries := queries[id := q.(lastEmission := height)];
        }
        todo := todo - {id};
      }
    }
  }
}
