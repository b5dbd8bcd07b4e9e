/** What single steps of the lifecycle do, beside keeping its invariant: dispatch, closing, accepting, and user calls. */
module LifecycleSteps {
  import opened Common
  import opened Lifecycle
  import opened LifecycleProofs

  /** The place of a callback in the dispatch. */
  function Rank(cb: Callback): nat {
    match cb
    case CloseCallback => 0
    case ErrorCallback => 1
    case ReadCallback => 2
    case WriteCallback => 3
  }

  /** Whether an event calls a callback. */
  predicate Calls(e: Events, cb: Callback) {
    match cb
    case CloseCallback => e.hup && !e.pollIn
    case ErrorCallback => e.err || e.nval
    case ReadCallback => e.pollIn || e.pri || e.rdhup
    case WriteCallback => e.out
  }

  /** An event calls exactly its callbacks, each once, closing before errors before reading before writing. */
  lemma DispatchExact(e: Events)
    ensures forall cb :: cb in Callbacks(e) <==> Calls(e, cb)
    ensures forall i, j | 0 <= i < j < |Callbacks(e)| :: Rank(Callbacks(e)[i]) < Rank(Callbacks(e)[j])
  {
  }

  /** A callback closes an open connection exactly if it is the close callback or a read that finds the end of the stream. */
  lemma ClosesIff(s: State, id: nat, cb: Callback, n: int, drained: bool)
    requires Inv(s) && id in s.conns && Open(s.conns[id])
    ensures id in Effect(s, id, cb, n, drained).conns
    ensures var c := Effect(s, id, cb, n, drained).conns[id];
      && (c.state == Disconnected <==> cb == CloseCallback || (cb == ReadCallback && n == 0))
      && (c.state != Disconnected ==> c.state == s.conns[id].state && c.reading == s.conns[id].reading)
      && (c.state != Disconnected ==> (c.writing <==> s.conns[id].writing && !(cb == WriteCallback && drained)))
  {
    hide Inv;
    Basics(s);
    GetConn(s, id);
  }

  /** newConnection: one new connection, numbered next, in the table, established at once or by a functor of its loop. */
  lemma AcceptAdds(s: State, loop: nat)
    requires Inv(s) && loop < |s.loops| && s.loops[0].current.None?
    ensures var s' := DoAccept(s, loop); var id := s.nextId;
      && id !in s.conns && s'.conns.Keys == s.conns.Keys + {id} && s'.table == s.table + {id} && s'.nextId == id + 1
      && (forall x | x in s.conns :: s'.conns[x] == s.conns[x])
      && s'.conns[id].loop == loop
      && (if loop == 0 then s'.conns[id].state == Connected && s'.conns[id].reading && s'.loops == s.loops
          else s'.conns[id].state == Connecting && |s'.loops| == |s.loops|
               && s'.loops[loop].queue == s.loops[loop].queue + [Establish(id)])
  {
    hide Inv;
    if s.nextId in s.conns {
      GetConn(s, s.nextId);
      assert false;
    }
  }

  /** The loop a connection lives on. */
  function HomeOf(s: State, id: nat): nat
    requires id in s.conns
  {
    s.conns[id].loop
  }

  /** What user code asks of an open connection is what it gets. */
  lemma UserTakesEffect(s: State, id: nat, action: UserAction)
    requires Inv(s) && id in s.conns && s.conns[id].state == Connected
    ensures id in DoUser(s, id, action).conns
    ensures var c, c' := s.conns[id], DoUser(s, id, action).conns[id];
      && c'.state == (if action == Shutdown || action == CallForceClose then Disconnecting else Connected)
      && c'.reading == (if action == StartRead then true else if action == StopRead then false else c.reading)
      && c'.writing == (c.writing || action == SendBlocked)
      && c'.watched == HasInterest(c')
    ensures action == CallForceClose ==>
              && HomeOf(s, id) < |s.loops| == |DoUser(s, id, action).loops|
              && DoUser(s, id, action).loops[HomeOf(s, id)].queue == s.loops[HomeOf(s, id)].queue + [ForceClose(id)]
  {
    hide Inv;
    Basics(s);
    GetConn(s, id);
  }
}
