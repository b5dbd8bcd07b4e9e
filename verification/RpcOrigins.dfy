/** Where the calls and the answers of two RPC ends come from: the calls made and the services' own results. */
module RpcOrigins {
  import opened Common
  import opened Rpc

  function Side(s: State, left: bool): End {
    if left then s.left else s.right
  }

  // ---------- calls ----------

  /** The calls made at one end of a run, in order. */
  function CallsMade(steps: seq<(bool, Step)>, left: bool): seq<Call> {
    if steps == [] then []
    else
      var n := |steps| - 1;
      CallsMade(steps[..n], left) + if steps[n].0 == left && steps[n].1.Mint? then [steps[n].1.call] else []
  }

  /** The n-th call has id n. */
  ghost predicate Numbered(c: Caller, made: seq<Call>) {
    && c.lastId == |made|
    && (forall id :: id in c.calls <==> 1 <= id <= |made|)
    && (forall id | 1 <= id <= |made| :: c.calls[id] == made[id - 1])
  }

  lemma ActNumbers(me: End, peer: End, step: Step, made: seq<Call>)
    requires Numbered(me.caller, made)
    ensures Numbered(Act(me, peer, step).0.caller, made + if step.Mint? then [step.call] else [])
    ensures Act(me, peer, step).1.caller == peer.caller
  {
    hide Verdict;
    assert made + [] == made;
  }

  lemma {:induction false} RunSnoc(s: State, steps: seq<(bool, Step)>, last: (bool, Step))
    ensures Run(s, steps + [last]) == Apply(Run(s, steps), last.0, last.1)
    decreases |steps|
  {
    hide Apply;
    if steps == [] {
      assert steps + [last] == [last] && [last][1..] == [];
      assert Run(s, [last]) == Run(Apply(s, last.0, last.1), []);
    } else {
      assert (steps + [last])[1..] == steps[1..] + [last];
      RunSnoc(Apply(s, steps[0].0, steps[0].1), steps[1..], last);
    }
  }

  lemma {:induction false} CallsNumbered(s: State, steps: seq<(bool, Step)>, left: bool)
    requires s.left.caller.lastId == s.right.caller.lastId == 0 && s.left.caller.calls == s.right.caller.calls == map[]
    ensures Numbered(Side(Run(s, steps), left).caller, CallsMade(steps, left))
    decreases |steps|
  {
    hide Act;
    if steps != [] {
      var n := |steps| - 1;
      assert steps == steps[..n] + [steps[n]];
      RunSnoc(s, steps[..n], steps[n]);
      CallsNumbered(s, steps[..n], left);
      CallsNumbered(s, steps[..n], !left);
      var before, actor := Run(s, steps[..n]), steps[n].0;
      ActNumbers(Side(before, actor), Side(before, !actor), steps[n].1, CallsMade(steps[..n], actor));
      assert CallsMade(steps[..n], left) + [] == CallsMade(steps[..n], left);
    }
  }

  // ---------- answers ----------

  /** The answer a step of the end `me` gives: a service's result, or the error a request is refused with. */
  function AnswerBy(me: End, peer: End, step: Step): Option<(Id, Reply)> {
    match step
    case Complete(id, payload) => if id in me.server.serving then Some((id, Value(payload))) else None
    case Receive(parses) =>
      if peer.wire == [] || !peer.wire[0].Request? then None else
      var error := Verdict(me.server.services, peer.wire[0].query, parses);
      if error == NoError then None else Some((peer.wire[0].id, Failed(error)))
    case _ => None
  }

  /** Some step of the given end answered call `id` with `reply`. */
  ghost predicate Gave(s: State, steps: seq<(bool, Step)>, left: bool, id: Id, reply: Reply) {
    exists i :: 0 <= i < |steps| && GaveAt(s, steps, left, id, reply, i)
  }

  ghost predicate GaveAt(s: State, steps: seq<(bool, Step)>, left: bool, id: Id, reply: Reply, i: nat)
    requires i < |steps|
  {
    var before := Run(s, steps[..i]);
    steps[i].0 == left && AnswerBy(Side(before, left), Side(before, !left), steps[i].1) == Some((id, reply))
  }

  lemma ActAnswers(me: End, peer: End, step: Step)
    ensures var me' := Act(me, peer, step).0;
      forall id | id in me'.server.answered ::
        || (id in me.server.answered && me'.server.answered[id].reply == me.server.answered[id].reply)
        || AnswerBy(me, peer, step) == Some((id, me'.server.answered[id].reply))
    ensures Act(me, peer, step).1.server == peer.server
  {
    hide Verdict;
  }

  lemma GaveMore(s: State, steps: seq<(bool, Step)>, last: (bool, Step), left: bool, id: Id, reply: Reply)
    requires Gave(s, steps, left, id, reply)
    ensures Gave(s, steps + [last], left, id, reply)
  {
    hide AnswerBy, Run;
    var i :| 0 <= i < |steps| && GaveAt(s, steps, left, id, reply, i);
    assert (steps + [last])[..i] == steps[..i];
    assert GaveAt(s, steps + [last], left, id, reply, i);
  }

  lemma GaveNow(s: State, steps: seq<(bool, Step)>, last: (bool, Step), id: Id, reply: Reply)
    requires AnswerBy(Side(Run(s, steps), last.0), Side(Run(s, steps), !last.0), last.1) == Some((id, reply))
    ensures Gave(s, steps + [last], last.0, id, reply)
  {
    hide AnswerBy, Run;
    assert (steps + [last])[..|steps|] == steps;
    assert GaveAt(s, steps + [last], last.0, id, reply, |steps|);
  }

  lemma {:induction false} AnswersGiven(s: State, steps: seq<(bool, Step)>, left: bool, id: Id)
    requires s.left.server.answered == s.right.server.answered == map[]
    ensures var sv := Side(Run(s, steps), left).server;
      id in sv.answered ==> Gave(s, steps, left, id, sv.answered[id].reply)
    decreases |steps|
  {
    hide Act, AnswerBy, Gave;
    if steps != [] && id in Side(Run(s, steps), left).server.answered {
      var n := |steps| - 1;
      var front, last := steps[..n], steps[n];
      assert steps == front + [last];
      RunSnoc(s, front, last);
      AnswersGiven(s, front, left, id);
      var before := Run(s, front);
      ActAnswers(Side(before, last.0), Side(before, !last.0), last.1);
      var reply := Side(Run(s, steps), left).server.answered[id].reply;
      var earlier := Side(before, left).server.answered;
      if id in earlier && earlier[id].reply == reply {
        GaveMore(s, front, last, left, id, reply);
      } else {
        GaveNow(s, front, last, id, reply);
      }
    }
  }

  /**
    Over every run of the two ends: a closure run at one end belongs to one of the calls made there, and the reply it is
    run on is the payload with which a service of the other end completed that very id, or the error with which the other
    end refused it.
   */
  lemma ClosuresRunOnAnswers(l: Option<map<string, set<string>>>, r: Option<map<string, set<string>>>,
                             steps: seq<(bool, Step)>, left: bool, ran: Ran)
    requires ran in Side(Run(State(NewEnd(l), NewEnd(r)), steps), left).caller.ran
    ensures 1 <= ran.id <= |CallsMade(steps, left)|
    ensures Gave(State(NewEnd(l), NewEnd(r)), steps, !left, ran.id, ran.reply)
  {
    hide Run, Gave;
    var s0 := State(NewEnd(l), NewEnd(r));
    CallsNumbered(s0, steps, left);
    RpcMatched(l, r, steps);
    AnswersGiven(s0, steps, !left, ran.id);
  }

  /** What a service is given, and what is answered, is the query of the call with that id. */
  lemma QueriesAreCalls(l: Option<map<string, set<string>>>, r: Option<map<string, set<string>>>,
                        steps: seq<(bool, Step)>, left: bool, id: Id)
    ensures var s := Run(State(NewEnd(l), NewEnd(r)), steps); var made := CallsMade(steps, left);
      var server := Side(s, !left).server;
      && (id in server.serving ==> 1 <= id <= |made| && server.serving[id] == made[id - 1].query)
      && (id in server.answered ==> 1 <= id <= |made| && server.answered[id].query == made[id - 1].query)
  {
    hide Run;
    CallsNumbered(State(NewEnd(l), NewEnd(r)), steps, left);
    RpcMatched(l, r, steps);
  }
}
