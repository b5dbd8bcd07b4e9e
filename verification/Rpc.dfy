/**
  Two RPC channels joined by two first-in first-out wires. Each end is a caller and a server at once. A call takes an
  id, enters its record in `outstandings_` and sends its request in three separate steps, so that calls from several
  threads interleave; a service answers once, at any later time.
 */
module Rpc {
  import opened Common

  type Id = nat
  type Payload = nat

  datatype ErrorCode = NoError | WrongProto | NoService | NoMethod | InvalidRequest

  datatype Query = Query(service: string, methodName: string, body: Payload)

  datatype Reply = Value(payload: Payload) | Failed(error: ErrorCode)

  datatype Message = Request(id: Id, query: Query) | Response(id: Id, reply: Reply)

  /** A call: what it asks, and whether its response object and its closure are given. */
  datatype Call = Call(query: Query, hasResponse: bool, hasDone: bool)

  /** What a closure was run on. */
  datatype Ran = Ran(id: Id, reply: Reply)

  datatype Caller = Caller(
    lastId: Id,                   // id_
    calls: map<Id, Call>,         // every call made
    minted: set<Id>,              // has its id, not yet in outstandings_
    inserted: set<Id>,            // in outstandings_, request not yet sent
    outstandings: map<Id, Call>,
    ran: seq<Ran>)                // closures run, in order

  datatype Answer = Answer(query: Query, reply: Reply)

  datatype Server = Server(
    services: Option<map<string, set<string>>>,  // the methods of each service
    serving: map<Id, Query>,                     // given to a service that has not answered
    answered: map<Id, Answer>)                   // every answer sent

  datatype End = End(caller: Caller, server: Server, wire: seq<Message>)

  datatype State = State(left: End, right: End)

  datatype Step =
    | Mint(call: Call)
    | Insert(id: Id)
    | Send(id: Id)
    | Receive(parses: bool)           // the first message on the peer's wire
    | Complete(id: Id, payload: Payload)

  predicate HasService(services: Option<map<string, set<string>>>, query: Query) {
    services.Some? && query.service in services.value
  }

  predicate HasMethod(services: Option<map<string, set<string>>>, query: Query)
    requires HasService(services, query)
  {
    query.methodName in services.value[query.service]
  }

  /** The error a request is refused with, NoError if a service takes it. */
  function Verdict(services: Option<map<string, set<string>>>, query: Query, parses: bool): (e: ErrorCode)
    ensures e == NoService <==> !HasService(services, query)
    ensures e == NoError || e == InvalidRequest <==> HasService(services, query) && HasMethod(services, query)
    ensures e == InvalidRequest ==> !parses
    ensures e == NoError ==> parses
    ensures e != WrongProto
  {
    if services.None? then NoService
    else if query.service !in services.value then NoService
    else if query.methodName !in services.value[query.service] then NoMethod
    else if parses then NoError
    else InvalidRequest
  }

  function MintId(c: Caller, call: Call): Caller {
    var id := c.lastId + 1;
    c.(lastId := id, calls := c.calls[id := call], minted := c.minted + {id})
  }

  function InsertCall(c: Caller, id: Id): Caller
    requires id in c.calls
  {
    c.(minted := c.minted - {id}, inserted := c.inserted + {id}, outstandings := c.outstandings[id := c.calls[id]])
  }

  /** onRpcMessage on a response: the record, if there is one, is erased; the closure needs a response object to be run. */
  function TakeResponse(c: Caller, id: Id, reply: Reply): Caller {
    if id !in c.outstandings then c
    else
      var out := c.outstandings[id];
      c.(outstandings := c.outstandings - {id},
         ran := if out.hasResponse && out.hasDone then c.ran + [Ran(id, reply)] else c.ran)
  }

  /** A reply and the server that has sent it. */
  function Answered(sv: Server, id: Id, query: Query, reply: Reply): Server {
    sv.(serving := sv.serving - {id}, answered := sv.answered[id := Answer(query, reply)])
  }

  /** One step of the end `me`; only the head of the peer's wire is touched over there. */
  function Act(me: End, peer: End, step: Step): (End, End) {
    match step
    case Mint(call) => (me.(caller := MintId(me.caller, call)), peer)
    case Insert(id) => if id in me.caller.minted && id in me.caller.calls then
      (me.(caller := InsertCall(me.caller, id)), peer) else (me, peer)
    case Send(id) => if id in me.caller.inserted && id in me.caller.calls then
      (me.(caller := me.caller.(inserted := me.caller.inserted - {id}),
           wire := me.wire + [Request(id, me.caller.calls[id].query)]), peer) else (me, peer)
    case Receive(parses) => if peer.wire == [] then (me, peer) else
      var peer' := peer.(wire := peer.wire[1..]);
      (match peer.wire[0]
       case Response(id, reply) => me.(caller := TakeResponse(me.caller, id, reply))
       case Request(id, query) =>
         var error := Verdict(me.server.services, query, parses);
         if error == NoError then me.(server := me.server.(serving := me.server.serving[id := query]))
         else me.(server := Answered(me.server, id, query, Failed(error)), wire := me.wire + [Response(id, Failed(error))]),
       peer')
    case Complete(id, payload) => if id !in me.server.serving then (me, peer) else
      (me.(server := Answered(me.server, id, me.server.serving[id], Value(payload)),
           wire := me.wire + [Response(id, Value(payload))]), peer)
  }

  /** Which end acts, and how. */
  function Apply(s: State, left: bool, step: Step): State {
    if left then var (l, r) := Act(s.left, s.right, step); State(l, r)
    else var (r, l) := Act(s.right, s.left, step); State(l, r)
  }

  function Run(s: State, steps: seq<(bool, Step)>): State
    decreases |steps|
  {
    if steps == [] then s else Run(Apply(s, steps[0].0, steps[0].1), steps[1..])
  }

  function NewEnd(services: Option<map<string, set<string>>>): End {
    End(Caller(0, map[], {}, {}, map[], []), Server(services, map[], map[]), [])
  }

  // ---------- one direction: the calls of one end ----------

  /** The requests, or the responses, among the messages on a wire. */
  function Filter(wire: seq<Message>, requests: bool): (r: seq<Message>)
    ensures forall m | m in r :: m.Request? == requests
  {
    if wire == [] then []
    else (if wire[0].Request? == requests then [wire[0]] else []) + Filter(wire[1..], requests)
  }

  lemma {:induction false} FilterSnoc(wire: seq<Message>, m: Message, requests: bool)
    ensures Filter(wire + [m], requests) == if m.Request? == requests then Filter(wire, requests) + [m] else Filter(wire, requests)
  {
    if wire != [] {
      FilterSnoc(wire[1..], m, requests);
      assert (wire + [m])[1..] == wire[1..] + [m];
    } else {
      assert (wire + [m])[1..] == [];
    }
  }

  lemma FilterHead(wire: seq<Message>, requests: bool)
    requires wire != []
    ensures if wire[0].Request? == requests
              then Filter(wire, requests) != [] && Filter(wire, requests)[0] == wire[0]
                   && Filter(wire, requests)[1..] == Filter(wire[1..], requests)
              else Filter(wire, requests) == Filter(wire[1..], requests)
  {
  }

  function Ids(wire: seq<Message>): multiset<Id> {
    if wire == [] then multiset{} else multiset{wire[0].id} + Ids(wire[1..])
  }

  lemma {:induction false} IdsSnoc(wire: seq<Message>, m: Message)
    ensures Ids(wire + [m]) == Ids(wire) + multiset{m.id}
  {
    if wire != [] {
      IdsSnoc(wire[1..], m);
      assert (wire + [m])[1..] == wire[1..] + [m];
    } else {
      assert (wire + [m])[1..] == [];
    }
  }

  lemma {:induction false} IdsHas(wire: seq<Message>, id: Id)
    ensures id in Ids(wire) <==> exists m :: m in wire && m.id == id
  {
    if wire != [] {
      IdsHas(wire[1..], id);
      assert wire == [wire[0]] + wire[1..];
      assert wire[0] in wire;
    }
  }

  /**
    An outstanding call is in one of four places, once: about to send, on the wire, being served, or being answered.
    Nothing else is in any of them.
   */
  ghost predicate Conserved(c: Caller, reqs: seq<Message>, sv: Server, resps: seq<Message>) {
    forall id :: Places(c, reqs, sv, resps, id) == One(id in c.outstandings)
  }

  function One(b: bool): nat {
    if b then 1 else 0
  }

  ghost function Places(c: Caller, reqs: seq<Message>, sv: Server, resps: seq<Message>, id: Id): nat {
    One(id in c.inserted) + Ids(reqs)[id] + One(id in sv.serving) + Ids(resps)[id]
  }

  ghost predicate Numbered(c: Caller) {
    && (forall id | id in c.calls :: id <= c.lastId)
    && (forall id | id in c.minted :: id in c.calls && id !in c.outstandings)
    && (forall id | id in c.outstandings :: id in c.calls && c.outstandings[id] == c.calls[id])
  }

  /** Everything under way carries the query of the call with its id. */
  ghost predicate Matching(c: Caller, reqs: seq<Message>, sv: Server, resps: seq<Message>) {
    && (forall m | m in reqs :: m.Request? && m.id in c.calls && m.query == c.calls[m.id].query)
    && (forall id | id in sv.serving :: id in c.calls && sv.serving[id] == c.calls[id].query)
    && (forall m | m in resps :: m.Response? && m.id in sv.answered && m.reply == sv.answered[m.id].reply)
    && (forall id | id in sv.answered :: id in c.calls && sv.answered[id].query == c.calls[id].query)
  }

  /** A call answered is past its request. */
  ghost predicate AnsweredOnce(c: Caller, reqs: seq<Message>, sv: Server) {
    forall id | id in sv.answered :: id !in c.minted && id !in c.inserted && id !in Ids(reqs) && id !in sv.serving
  }

  ghost predicate Consistent(c: Caller, reqs: seq<Message>, sv: Server, resps: seq<Message>) {
    Numbered(c) && Matching(c, reqs, sv, resps) && AnsweredOnce(c, reqs, sv)
  }

  /** The call is over at its caller. */
  ghost predicate Over(c: Caller, id: Id) {
    id in c.calls && id !in c.minted && id !in c.outstandings
  }

  ghost predicate RanFor(c: Caller, id: Id) {
    exists i :: 0 <= i < |c.ran| && c.ran[i].id == id
  }

  /** Closures run once, for calls that are over, on the answer to that call; and all of those that can be run are. */
  ghost predicate RanOnce(c: Caller, sv: Server) {
    && (forall i, j | 0 <= i < j < |c.ran| :: c.ran[i].id != c.ran[j].id)
    && (forall i | 0 <= i < |c.ran| ::
          && Over(c, c.ran[i].id) && c.calls[c.ran[i].id].hasResponse && c.calls[c.ran[i].id].hasDone
          && c.ran[i].id in sv.answered && sv.answered[c.ran[i].id].reply == c.ran[i].reply)
    && (forall id | Over(c, id) && c.calls[id].hasResponse && c.calls[id].hasDone :: RanFor(c, id))
  }

  ghost predicate Dir(c: Caller, reqs: seq<Message>, sv: Server, resps: seq<Message>) {
    Conserved(c, reqs, sv, resps) && Consistent(c, reqs, sv, resps) && RanOnce(c, sv)
  }

  /** What a message leaving the head of a wire, or joining its tail, does to the count of each id. */
  lemma HeadCount(wire: seq<Message>, id: Id)
    requires wire != []
    ensures Ids(wire)[id] == Ids(wire[1..])[id] + One(id == wire[0].id)
  {
  }

  lemma TailCount(wire: seq<Message>, m: Message, id: Id)
    ensures Ids(wire + [m])[id] == Ids(wire)[id] + One(id == m.id)
  {
    IdsSnoc(wire, m);
  }

  /** The record of closures does not notice a step that leaves it and the calls that are over alone. */
  lemma RanFrame(c: Caller, sv: Server, c': Caller, sv': Server)
    requires RanOnce(c, sv) && c'.ran == c.ran
    requires forall id :: Over(c', id) <==> Over(c, id)
    requires forall id | id in c.calls :: id in c'.calls && c'.calls[id] == c.calls[id]
    requires forall id | id in sv.answered && Over(c, id) :: id in sv'.answered && sv'.answered[id] == sv.answered[id]
    ensures RanOnce(c', sv')
  {
    assert forall id :: RanFor(c, id) ==> RanFor(c', id);
  }

  // conservation

  lemma MintConserved(c: Caller, reqs: seq<Message>, sv: Server, resps: seq<Message>, call: Call)
    requires Conserved(c, reqs, sv, resps)
    ensures Conserved(MintId(c, call), reqs, sv, resps)
  {
    hide Ids;
    forall x ensures Places(MintId(c, call), reqs, sv, resps, x) == Places(c, reqs, sv, resps, x) {
    }
  }

  lemma InsertConserved(c: Caller, reqs: seq<Message>, sv: Server, resps: seq<Message>, id: Id)
    requires Conserved(c, reqs, sv, resps) && id in c.calls && id !in c.outstandings
    ensures Conserved(InsertCall(c, id), reqs, sv, resps)
  {
    hide Ids;
    forall x ensures Places(InsertCall(c, id), reqs, sv, resps, x) == One(x in InsertCall(c, id).outstandings) {
      assert Places(c, reqs, sv, resps, x) == One(x in c.outstandings);
    }
  }

  lemma SendConserved(c: Caller, reqs: seq<Message>, sv: Server, resps: seq<Message>, m: Message)
    requires Conserved(c, reqs, sv, resps) && m.id in c.inserted
    ensures Conserved(c.(inserted := c.inserted - {m.id}), reqs + [m], sv, resps)
  {
    hide Ids;
    var c' := c.(inserted := c.inserted - {m.id});
    forall x ensures Places(c', reqs + [m], sv, resps, x) == One(x in c.outstandings) {
      assert Places(c, reqs, sv, resps, x) == One(x in c.outstandings);
      TailCount(reqs, m, x);
    }
  }

  lemma ServeConserved(c: Caller, reqs: seq<Message>, sv: Server, resps: seq<Message>, query: Query)
    requires Conserved(c, reqs, sv, resps) && reqs != []
    ensures Conserved(c, reqs[1..], sv.(serving := sv.serving[reqs[0].id := query]), resps)
  {
    hide Ids;
    var sv' := sv.(serving := sv.serving[reqs[0].id := query]);
    forall x ensures Places(c, reqs[1..], sv', resps, x) == One(x in c.outstandings) {
      assert Places(c, reqs, sv, resps, x) == One(x in c.outstandings);
      HeadCount(reqs, x);
    }
  }

  lemma RefuseConserved(c: Caller, reqs: seq<Message>, sv: Server, resps: seq<Message>, sv': Server, m: Message)
    requires Conserved(c, reqs, sv, resps) && reqs != [] && m.id == reqs[0].id
    requires sv'.serving == sv.serving - {m.id}
    ensures Conserved(c, reqs[1..], sv', resps + [m])
  {
    hide Ids;
    forall x ensures Places(c, reqs[1..], sv', resps + [m], x) == One(x in c.outstandings) {
      assert Places(c, reqs, sv, resps, x) == One(x in c.outstandings);
      HeadCount(reqs, x);
      TailCount(resps, m, x);
    }
  }

  lemma CompleteConserved(c: Caller, reqs: seq<Message>, sv: Server, resps: seq<Message>, sv': Server, m: Message)
    requires Conserved(c, reqs, sv, resps) && m.id in sv.serving
    requires sv'.serving == sv.serving - {m.id}
    ensures Conserved(c, reqs, sv', resps + [m])
  {
    hide Ids;
    forall x ensures Places(c, reqs, sv', resps + [m], x) == One(x in c.outstandings) {
      assert Places(c, reqs, sv, resps, x) == One(x in c.outstandings);
      TailCount(resps, m, x);
    }
  }

  lemma ResponseConserved(c: Caller, reqs: seq<Message>, sv: Server, resps: seq<Message>, reply: Reply)
    requires Conserved(c, reqs, sv, resps) && resps != []
    ensures resps[0].id in c.outstandings
    ensures Conserved(TakeResponse(c, resps[0].id, reply), reqs, sv, resps[1..])
  {
    hide Ids;
    var c' := TakeResponse(c, resps[0].id, reply);
    HeadCount(resps, resps[0].id);
    assert Places(c, reqs, sv, resps, resps[0].id) == One(resps[0].id in c.outstandings);
    forall x ensures Places(c', reqs, sv, resps[1..], x) == One(x in c'.outstandings) {
      assert Places(c, reqs, sv, resps, x) == One(x in c.outstandings);
      HeadCount(resps, x);
    }
  }

  // consistency

  lemma MintConsistent(c: Caller, reqs: seq<Message>, sv: Server, resps: seq<Message>, call: Call)
    requires Consistent(c, reqs, sv, resps)
    ensures Consistent(MintId(c, call), reqs, sv, resps)
  {
    hide Ids;
  }

  lemma InsertConsistent(c: Caller, reqs: seq<Message>, sv: Server, resps: seq<Message>, id: Id)
    requires Consistent(c, reqs, sv, resps) && id in c.minted
    ensures Consistent(InsertCall(c, id), reqs, sv, resps)
  {
    hide Ids;
  }

  lemma SendConsistent(c: Caller, reqs: seq<Message>, sv: Server, resps: seq<Message>, id: Id)
    requires Consistent(c, reqs, sv, resps) && id in c.inserted && id in c.calls
    ensures Consistent(c.(inserted := c.inserted - {id}), reqs + [Request(id, c.calls[id].query)], sv, resps)
  {
    IdsSnoc(reqs, Request(id, c.calls[id].query));
    hide Ids;
  }

  lemma ServeConsistent(c: Caller, reqs: seq<Message>, sv: Server, resps: seq<Message>)
    requires Consistent(c, reqs, sv, resps) && reqs != [] && reqs[0].Request?
    ensures Consistent(c, reqs[1..], sv.(serving := sv.serving[reqs[0].id := reqs[0].query]), resps)
  {
    assert Ids(reqs) == multiset{reqs[0].id} + Ids(reqs[1..]);
    assert reqs[0] in reqs;
    hide Ids;
  }

  /** An answer to a call that is past its request and not being served any more. */
  lemma AnswerConsistent(c: Caller, reqs: seq<Message>, sv: Server, resps: seq<Message>, id: Id, query: Query, reply: Reply)
    requires Consistent(c, reqs, sv, resps) && id in c.calls && query == c.calls[id].query
    requires id !in c.minted && id !in c.inserted && id !in Ids(reqs)
    requires forall m | m in resps :: m.id != id
    ensures Consistent(c, reqs, Answered(sv, id, query, reply), resps + [Response(id, reply)])
  {
    hide Ids;
  }

  lemma TailConsistent(c: Caller, reqs: seq<Message>, sv: Server, resps: seq<Message>)
    requires Consistent(c, reqs, sv, resps)
    ensures reqs != [] ==> Consistent(c, reqs[1..], sv, resps)
    ensures resps != [] ==> Consistent(c, reqs, sv, resps[1..])
  {
    assert reqs != [] ==> Ids(reqs) == multiset{reqs[0].id} + Ids(reqs[1..]);
    hide Ids;
  }

  // the record of closures

  /** A closure run on the answer to a call that this ends. */
  lemma RanGrows(c: Caller, sv: Server, id: Id, reply: Reply)
    requires RanOnce(c, sv) && Numbered(c) && id in c.outstandings && id in sv.answered && sv.answered[id].reply == reply
    ensures RanOnce(TakeResponse(c, id, reply), sv)
  {
    var c' := TakeResponse(c, id, reply);
    assert forall x :: Over(c', x) <==> Over(c, x) || x == id;
    forall x | Over(c', x) && c'.calls[x].hasResponse && c'.calls[x].hasDone ensures RanFor(c', x) {
      if x == id {
        assert c'.ran[|c.ran|].id == id;
      } else {
        assert RanFor(c, x);
        var i :| 0 <= i < |c.ran| && c.ran[i].id == x;
        assert c'.ran[i].id == x;
      }
    }
  }

  // all of it

  /** The id at the head of the requests is nowhere else. */
  lemma HeadRequest(c: Caller, reqs: seq<Message>, sv: Server, resps: seq<Message>)
    requires Conserved(c, reqs, sv, resps) && reqs != []
    ensures var id := reqs[0].id;
      id in c.outstandings && id !in c.inserted && id !in sv.serving && id !in Ids(reqs[1..]) && id !in Ids(resps)
  {
    HeadCount(reqs, reqs[0].id);
    assert Places(c, reqs, sv, resps, reqs[0].id) == One(reqs[0].id in c.outstandings);
  }

  lemma ServingNowhereElse(c: Caller, reqs: seq<Message>, sv: Server, resps: seq<Message>, id: Id)
    requires Conserved(c, reqs, sv, resps) && id in sv.serving
    ensures id in c.outstandings && id !in c.inserted && id !in Ids(reqs) && id !in Ids(resps)
  {
    assert Places(c, reqs, sv, resps, id) == One(id in c.outstandings);
  }

  lemma DirMint(c: Caller, reqs: seq<Message>, sv: Server, resps: seq<Message>, call: Call)
    requires Dir(c, reqs, sv, resps)
    ensures Dir(MintId(c, call), reqs, sv, resps)
  {
    MintConserved(c, reqs, sv, resps, call);
    MintConsistent(c, reqs, sv, resps, call);
    hide Conserved, Matching, AnsweredOnce;
    assert Numbered(c);
    RanFrame(c, sv, MintId(c, call), sv);
  }

  lemma DirInsert(c: Caller, reqs: seq<Message>, sv: Server, resps: seq<Message>, id: Id)
    requires Dir(c, reqs, sv, resps) && id in c.minted && id in c.calls
    ensures Dir(InsertCall(c, id), reqs, sv, resps)
  {
    assert id !in c.outstandings;
    InsertConserved(c, reqs, sv, resps, id);
    InsertConsistent(c, reqs, sv, resps, id);
    hide Conserved, Matching, AnsweredOnce;
    RanFrame(c, sv, InsertCall(c, id), sv);
  }

  lemma DirSend(c: Caller, reqs: seq<Message>, sv: Server, resps: seq<Message>, id: Id)
    requires Dir(c, reqs, sv, resps) && id in c.inserted && id in c.calls
    ensures Dir(c.(inserted := c.inserted - {id}), reqs + [Request(id, c.calls[id].query)], sv, resps)
  {
    hide Conserved, Consistent;
    SendConserved(c, reqs, sv, resps, Request(id, c.calls[id].query));
    SendConsistent(c, reqs, sv, resps, id);
    RanFrame(c, sv, c.(inserted := c.inserted - {id}), sv);
  }

  lemma DirServe(c: Caller, reqs: seq<Message>, sv: Server, resps: seq<Message>)
    requires Dir(c, reqs, sv, resps) && reqs != [] && reqs[0].Request?
    ensures Dir(c, reqs[1..], sv.(serving := sv.serving[reqs[0].id := reqs[0].query]), resps)
  {
    hide Conserved, Consistent;
    ServeConserved(c, reqs, sv, resps, reqs[0].query);
    ServeConsistent(c, reqs, sv, resps);
    RanFrame(c, sv, c, sv.(serving := sv.serving[reqs[0].id := reqs[0].query]));
  }

  lemma OutstandingFacts(c: Caller, reqs: seq<Message>, sv: Server, resps: seq<Message>, id: Id)
    requires Consistent(c, reqs, sv, resps) && id in c.outstandings && id !in Ids(resps)
    ensures id in c.calls && id !in c.minted && (forall m | m in resps :: m.id != id)
    ensures reqs != [] && reqs[0].Request? && reqs[0].id == id ==> reqs[0].query == c.calls[id].query
    ensures id in sv.serving ==> sv.serving[id] == c.calls[id].query
  {
    IdsHas(resps, id);
    assert reqs != [] ==> reqs[0] in reqs;
  }

  lemma DirRefuse(c: Caller, reqs: seq<Message>, sv: Server, resps: seq<Message>, reply: Reply)
    requires Dir(c, reqs, sv, resps) && reqs != [] && reqs[0].Request?
    ensures Dir(c, reqs[1..], Answered(sv, reqs[0].id, reqs[0].query, reply), resps + [Response(reqs[0].id, reply)])
  {
    hide Conserved, Consistent;
    var id, query := reqs[0].id, reqs[0].query;
    HeadRequest(c, reqs, sv, resps);
    OutstandingFacts(c, reqs, sv, resps, id);
    RefuseConserved(c, reqs, sv, resps, Answered(sv, id, query, reply), Response(id, reply));
    TailConsistent(c, reqs, sv, resps);
    AnswerConsistent(c, reqs[1..], sv, resps, id, query, reply);
    RanFrame(c, sv, c, Answered(sv, id, query, reply));
  }

  lemma DirComplete(c: Caller, reqs: seq<Message>, sv: Server, resps: seq<Message>, id: Id, reply: Reply)
    requires Dir(c, reqs, sv, resps) && id in sv.serving
    ensures Dir(c, reqs, Answered(sv, id, sv.serving[id], reply), resps + [Response(id, reply)])
  {
    hide Conserved, Consistent;
    ServingNowhereElse(c, reqs, sv, resps, id);
    OutstandingFacts(c, reqs, sv, resps, id);
    CompleteConserved(c, reqs, sv, resps, Answered(sv, id, sv.serving[id], reply), Response(id, reply));
    AnswerConsistent(c, reqs, sv, resps, id, sv.serving[id], reply);
    RanFrame(c, sv, c, Answered(sv, id, sv.serving[id], reply));
  }

  lemma ResponseConsistent(c: Caller, reqs: seq<Message>, sv: Server, resps: seq<Message>)
    requires Consistent(c, reqs, sv, resps) && resps != [] && resps[0].Response?
    ensures Consistent(TakeResponse(c, resps[0].id, resps[0].reply), reqs, sv, resps[1..])
    ensures Numbered(c) && resps[0].id in sv.answered && sv.answered[resps[0].id].reply == resps[0].reply
  {
    assert resps[0] in resps;
    hide Ids;
  }

  lemma DirResponse(c: Caller, reqs: seq<Message>, sv: Server, resps: seq<Message>)
    requires Dir(c, reqs, sv, resps) && resps != [] && resps[0].Response?
    ensures Dir(TakeResponse(c, resps[0].id, resps[0].reply), reqs, sv, resps[1..])
  {
    hide Conserved, Consistent, Numbered, RanOnce;
    ResponseConserved(c, reqs, sv, resps, resps[0].reply);
    ResponseConsistent(c, reqs, sv, resps);
    RanGrows(c, sv, resps[0].id, resps[0].reply);
  }

  // ---------- both ends ----------

  /** The calls of `me` to `peer`. */
  ghost predicate Between(me: End, peer: End) {
    Dir(me.caller, Filter(me.wire, true), peer.server, Filter(peer.wire, false))
  }

  ghost predicate Inv(s: State) {
    Between(s.left, s.right) && Between(s.right, s.left)
  }

  lemma ReceiveKeeps(me: End, peer: End, parses: bool)
    requires Between(me, peer) && Between(peer, me) && peer.wire != []
    ensures var (me', peer') := Act(me, peer, Receive(parses)); Between(me', peer') && Between(peer', me')
  {
    hide Dir, Verdict, TakeResponse, Answered;
    var m := peer.wire[0];
    FilterHead(peer.wire, true);
    FilterHead(peer.wire, false);
    match m
    case Response(id, reply) =>
      DirResponse(me.caller, Filter(me.wire, true), peer.server, Filter(peer.wire, false));
    case Request(id, query) =>
      var error := Verdict(me.server.services, query, parses);
      FilterSnoc(me.wire, Response(id, Failed(error)), true);
      FilterSnoc(me.wire, Response(id, Failed(error)), false);
      DirServe(peer.caller, Filter(peer.wire, true), me.server, Filter(me.wire, false));
      DirRefuse(peer.caller, Filter(peer.wire, true), me.server, Filter(me.wire, false), Failed(error));
  }

  lemma ActKeeps(me: End, peer: End, step: Step)
    requires Between(me, peer) && Between(peer, me)
    ensures var (me', peer') := Act(me, peer, step); Between(me', peer') && Between(peer', me')
  {
    hide Dir, Filter, MintId, InsertCall, TakeResponse, Answered;
    match step
    case Mint(call) => DirMint(me.caller, Filter(me.wire, true), peer.server, Filter(peer.wire, false), call);
    case Insert(id) =>
      if id in me.caller.minted && id in me.caller.calls {
        DirInsert(me.caller, Filter(me.wire, true), peer.server, Filter(peer.wire, false), id);
      }
    case Send(id) =>
      if id in me.caller.inserted && id in me.caller.calls {
        var m := Request(id, me.caller.calls[id].query);
        FilterSnoc(me.wire, m, true);
        FilterSnoc(me.wire, m, false);
        DirSend(me.caller, Filter(me.wire, true), peer.server, Filter(peer.wire, false), id);
      }
    case Receive(parses) =>
      if peer.wire != [] {
        ReceiveKeeps(me, peer, parses);
      }
    case Complete(id, payload) =>
      if id in me.server.serving {
        FilterSnoc(me.wire, Response(id, Value(payload)), true);
        FilterSnoc(me.wire, Response(id, Value(payload)), false);
        DirComplete(peer.caller, Filter(peer.wire, true), me.server, Filter(me.wire, false), id, Value(payload));
      }
  }

  lemma {:induction false} RunKeeps(s: State, steps: seq<(bool, Step)>)
    requires Inv(s)
    ensures Inv(Run(s, steps))
    decreases |steps|
  {
    hide Between, Act;
    if steps != [] {
      if steps[0].0 {
        ActKeeps(s.left, s.right, steps[0].1);
      } else {
        ActKeeps(s.right, s.left, steps[0].1);
      }
      RunKeeps(Apply(s, steps[0].0, steps[0].1), steps[1..]);
    }
  }

  lemma StartInv(left: Option<map<string, set<string>>>, right: Option<map<string, set<string>>>)
    ensures Inv(State(NewEnd(left), NewEnd(right)))
  {
  }

  /** The message is a request, or a response, for a call of the given id. */
  ghost predicate Carries(wire: seq<Message>, requests: bool, id: Id) {
    exists m :: m in wire && m.Request? == requests && m.id == id
  }

  /** The caller's id is about to be sent, in flight, being served or being answered. */
  ghost predicate UnderWay(me: End, peer: End, id: Id) {
    id in me.caller.inserted || Carries(me.wire, true, id) || id in peer.server.serving || Carries(peer.wire, false, id)
  }

  lemma {:induction false} FilterHas(wire: seq<Message>, requests: bool, id: Id)
    ensures id in Ids(Filter(wire, requests)) <==> Carries(wire, requests, id)
  {
    if wire != [] {
      FilterHead(wire, requests);
      FilterHas(wire[1..], requests, id);
      assert wire == [wire[0]] + wire[1..];
      assert wire[0] in wire;
    }
  }

  /** What the calls of one end to the other can rely on. */
  ghost predicate CallsMatched(me: End, peer: End) {
    // what is under way is outstanding, and what is outstanding is under way
    && (forall id :: UnderWay(me, peer, id) <==> id in me.caller.outstandings)
    // each closure runs at most once
    && (forall i, j | 0 <= i < j < |me.caller.ran| :: me.caller.ran[i].id != me.caller.ran[j].id)
    // and on the peer's answer to the query of that very call
    && (forall r | r in me.caller.ran ::
          && r.id in me.caller.calls && r.id in peer.server.answered
          && peer.server.answered[r.id] == Answer(me.caller.calls[r.id].query, r.reply))
    // what the peer's services are given, and what was answered, is the query of the call with that id
    && (forall id | id in peer.server.serving ::
          id in me.caller.calls && peer.server.serving[id] == me.caller.calls[id].query)
    && (forall id | id in peer.server.answered ::
          id in me.caller.calls && peer.server.answered[id].query == me.caller.calls[id].query)
    // a call that is over has run its closure exactly if it came with a response object and a closure
    && (forall id | Over(me.caller, id) ::
          RanFor(me.caller, id) <==> me.caller.calls[id].hasResponse && me.caller.calls[id].hasDone)
  }

  lemma BetweenMatched(me: End, peer: End)
    requires Between(me, peer)
    ensures CallsMatched(me, peer)
  {
    var c, sv := me.caller, peer.server;
    var reqs, resps := Filter(me.wire, true), Filter(peer.wire, false);
    forall id ensures UnderWay(me, peer, id) <==> id in c.outstandings {
      assert Places(c, reqs, sv, resps, id) == One(id in c.outstandings);
      FilterHas(me.wire, true, id);
      FilterHas(peer.wire, false, id);
    }
    hide Conserved, Places, UnderWay, Filter, Ids;
  }

  /** Over every run of the two ends, in both directions. */
  lemma RpcMatched(left: Option<map<string, set<string>>>, right: Option<map<string, set<string>>>, steps: seq<(bool, Step)>)
    ensures var s := Run(State(NewEnd(left), NewEnd(right)), steps);
      CallsMatched(s.left, s.right) && CallsMatched(s.right, s.left)
  {
    hide Between, CallsMatched, Run;
    var s := State(NewEnd(left), NewEnd(right));
    StartInv(left, right);
    RunKeeps(s, steps);
    BetweenMatched(Run(s, steps).left, Run(s, steps).right);
    BetweenMatched(Run(s, steps).right, Run(s, steps).left);
  }

  /** When nothing is under way between them, every call made has been answered and its closure, if it can be, run. */
  lemma NothingForgotten(me: End, peer: End, id: Id)
    requires Between(me, peer) && me.wire == [] && peer.wire == [] && peer.server.serving == map[]
    requires me.caller.inserted == {} && id in me.caller.calls && id !in me.caller.minted
    ensures id !in me.caller.outstandings
    ensures me.caller.calls[id].hasResponse && me.caller.calls[id].hasDone ==> RanFor(me.caller, id)
  {
    BetweenMatched(me, peer);
    hide Between;
    assert !UnderWay(me, peer, id);
    assert Over(me.caller, id);
  }

  /** A call in `outstandings_` that is sent goes on the wire with its own id and query, behind what is there. */
  lemma SendPuts(me: End, peer: End, id: Id)
    requires Between(me, peer) && id in me.caller.inserted
    ensures id in me.caller.calls
    ensures Act(me, peer, Send(id)).0.wire == me.wire + [Request(id, me.caller.calls[id].query)]
  {
    BetweenMatched(me, peer);
    assert UnderWay(me, peer, id);
    hide Filter;
  }
}
