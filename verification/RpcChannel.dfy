/** One channel as an object: its methods take an end of `Rpc` from state to state. */
module RpcChannels {
  import opened Common
  import opened Rpc

  /** What arrives at the services and the closures from one message. */
  datatype Effect =
    | Nothing
    | RunDone(id: Id, reply: Reply)
    | Serve(id: Id, query: Query)
    | SendBack(message: Message)

  class RpcChannel {
    var id: Id
    var outstandings: map<Id, Call>
    const services: Option<map<string, set<string>>>
    ghost var end: End

    ghost predicate Valid()
      reads this
    {
      end.caller.lastId == id && end.caller.outstandings == outstandings && end.server.services == services
    }

    constructor (services: Option<map<string, set<string>>>)
      ensures Valid() && end == NewEnd(services)
    {
      this.id, this.outstandings, this.services := 0, map[], services;
      this.end := NewEnd(services);
    }

    /** The id is taken, the record entered, and only then is the request sent. */
    method CallMethod(call: Call, ghost peer: End) returns (message: Message)
      requires Valid()
      modifies this
      ensures Valid() && message == Request(old(id) + 1, call.query) && outstandings == old(outstandings)[message.id := call]
      ensures var minted := Act(old(end), peer, Mint(call)).0;
              var inserted := Act(minted, peer, Insert(message.id)).0;
              end == Act(inserted, peer, Send(message.id)).0
      ensures end.wire == old(end).wire + [message]
    {
      id := id + 1;
      end := Act(end, peer, Mint(call)).0;
      message := Request(id, call.query);
      outstandings := outstandings[id := call];
      end := Act(end, peer, Insert(id)).0;
      end := Act(end, peer, Send(id)).0;
    }

    /** A message at the head of the peer's wire. */
    method OnRpcMessage(message: Message, parses: bool, ghost peer: End) returns (effect: Effect)
      requires Valid() && peer.wire != [] && peer.wire[0] == message
      modifies this
      ensures Valid() && end == Act(old(end), peer, Receive(parses)).0
      ensures effect.RunDone? <==> end.caller.ran != old(end).caller.ran
      ensures effect.RunDone? ==> end.caller.ran == old(end).caller.ran + [Ran(effect.id, effect.reply)]
      ensures effect.Serve? ==> end.server.serving == old(end).server.serving[effect.id := effect.query]
      ensures end.wire == old(end).wire + if effect.SendBack? then [effect.message] else []
      ensures message.Response? ==>
                && outstandings == old(outstandings) - {message.id}
                && effect == if message.id in old(outstandings) && old(outstandings)[message.id].hasResponse
                                && old(outstandings)[message.id].hasDone
                             then RunDone(message.id, message.reply) else Nothing
      ensures message.Request? ==>
                var error := Verdict(services, message.query, parses);
                && outstandings == old(outstandings)
                && effect == if error == NoError then Serve(message.id, message.query)
                             else SendBack(Response(message.id, Failed(error)))
    {
      end := Act(end, peer, Receive(parses)).0;
      effect := Nothing;
      match message
      case Response(mid, reply) =>
        if mid in outstandings {
          var out := outstandings[mid];
          outstandings := outstandings - {mid};
          if out.hasResponse {
            if out.hasDone {
              effect := RunDone(mid, reply);
            }
          }
        }
      case Request(mid, query) =>
        var error := WrongProto;
        if services.Some? {
          if query.service in services.value {
            if query.methodName in services.value[query.service] {
              if parses {
                effect := Serve(mid, query);
                error := NoError;
              } else {
                error := InvalidRequest;
              }
            } else {
              error := NoMethod;
            }
          } else {
            error := NoService;
          }
        } else {
          error := NoService;
        }
        if error != NoError {
          effect := SendBack(Response(mid, Failed(error)));
        }
    }

    /** A service that was given request `id` answers it. */
    method DoneCallback(id: Id, payload: Payload, ghost peer: End) returns (message: Message)
      requires Valid() && id in end.server.serving
      modifies this
      ensures Valid() && end == Act(old(end), peer, Complete(id, payload)).0
      ensures message == Response(id, Value(payload)) && end.wire == old(end).wire + [message]
    {
      end := Act(end, peer, Complete(id, payload)).0;
      message := Response(id, Value(payload));
    }
  }
}
