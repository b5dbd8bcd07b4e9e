/**
  The life of TCP connections between the acceptor's loop and the I/O loops, as a machine over its atomic steps.

  Loop 0 is the server's own loop; the others are I/O loops (with a single loop every connection lives on loop 0).
  Each loop alternates between handling the channels its last poll reported and running its queue of functors in
  order. What user code does from callbacks (shutdown, forceClose, startRead, stopRead, sends that fill the output
  buffer) can happen in the connection's loop between any two steps. `fault` records a failed assertion of the source.
 */
module Lifecycle {
  import opened Common

  /** A connection with its channel's interest, and how often each event of its life has happened. */
  datatype Conn = Conn(
    loop: nat, state: ConnState, reading: bool, writing: bool,
    registered: bool,           // the channel is known to the loop's poller
    watched: bool,              // and its descriptor is one the kernel reports on
    established: nat, up: nat, closed: nat, down: nat, removed: nat, destroyed: nat)

  datatype Task = Establish(id: nat) | Remove(id: nat) | Destroy(id: nat) | ForceClose(id: nat)

  datatype Callback = CloseCallback | ErrorCallback | ReadCallback | WriteCallback

  /** The rest of Channel::handleEventWithGuard for one channel. */
  datatype Dispatch = Dispatch(id: nat, callbacks: seq<Callback>)

  /** What one event loop is doing: its functors, the reported channels left, the channel being handled. */
  datatype Loop = Loop(queue: seq<Task>, active: seq<nat>, current: Option<Dispatch>)

  /** `epoll` says which of the two pollers the loops use. */
  datatype State = State(
    epoll: bool, conns: map<nat, Conn>, table: set<nat>, nextId: nat, loops: seq<Loop>, fault: bool)

  datatype Events = Events(pollIn: bool, pri: bool, out: bool, rdhup: bool, err: bool, hup: bool, nval: bool)

  datatype UserAction = Shutdown | CallForceClose | StartRead | StopRead | SendBlocked

  datatype Step =
    | Accept(loop: nat)                         // TcpServer::newConnection with the loop getNextLoop picked
    | Poll(l: nat, ids: seq<nat>)
    | HandleEvent(l: nat, revents: Events)
    | RunCallback(l: nat, n: int, drained: bool) // n: what read returned; drained: the write emptied the buffer
    | RunTask(l: nat)
    | User(id: nat, action: UserAction)

  predicate Open(c: Conn) {
    c.state == Connected || c.state == Disconnecting
  }

  /** The dispatch order of Channel::handleEventWithGuard. */
  function Callbacks(e: Events): seq<Callback> {
    (if e.hup && !e.pollIn then [CloseCallback] else []) +
    (if e.err || e.nval then [ErrorCallback] else []) +
    (if e.pollIn || e.pri || e.rdhup then [ReadCallback] else []) +
    (if e.out then [WriteCallback] else [])
  }

  /** A hang-up without POLLIN brings neither urgent data nor a half-close. */
  predicate HupAlone(e: Events) {
    e.hup && !e.pollIn ==> !e.pri && !e.rdhup
  }

  /** All that is ever reported for an empty mask. */
  predicate HupOrErrOnly(e: Events) {
    !e.pollIn && !e.pri && !e.out && !e.rdhup && !e.nval
  }

  predicate HasInterest(c: Conn) {
    c.reading || c.writing
  }

  /**
    Channel::update with a new interest. poll passes over a slot without events. epoll adds a descriptor that is not in its
    set, whatever the mask, and takes one that is out of it when the mask is empty.
   */
  function Update(epoll: bool, c: Conn, reading: bool, writing: bool): Conn {
    c.(reading := reading, writing := writing,
       watched := if epoll && !c.watched then true else reading || writing)
  }

  // ---------- steps ----------

  function Push(s: State, l: nat, t: Task): State {
    if l < |s.loops| then s.(loops := s.loops[l := s.loops[l].(queue := s.loops[l].queue + [t])]) else s
  }

  function Put(s: State, id: nat, c: Conn): State {
    s.(conns := s.conns[id := c])
  }

  function Fault(s: State): State {
    s.(fault := true)
  }

  /** TcpConnection::connectEstablished. */
  function DoEstablish(s: State, id: nat): State {
    if id !in s.conns || s.conns[id].state != Connecting then Fault(s) else
    var c := s.conns[id];
    Put(s, id, Update(s.epoll, c, true, c.writing).(state := Connected, registered := true,
                                                    established := c.established + 1, up := c.up + 1))
  }

  /** TcpServer::removeConnectionInLoop. */
  function DoRemove(s: State, id: nat): State {
    if id !in s.conns || id !in s.table then Fault(s) else
    var c := s.conns[id];
    Push(Put(s.(table := s.table - {id}), id, c.(removed := c.removed + 1)), c.loop, Destroy(id))
  }

  /** TcpConnection::handleClose, ending in TcpServer::removeConnection. */
  function DoClose(s: State, id: nat): State {
    if id !in s.conns || !Open(s.conns[id]) then Fault(s) else
    var c := s.conns[id];
    var s1 := Put(s, id, Update(s.epoll, c, false, false).(state := Disconnected,
                                                           closed := c.closed + 1, down := c.down + 1));
    if c.loop == 0 then DoRemove(s1, id) else Push(s1, 0, Remove(id))
  }

  /** TcpConnection::connectDestroyed, ending in Channel::remove and EventLoop::removeChannel. */
  function DoDestroy(s: State, id: nat): State {
    if id !in s.conns || s.conns[id].loop >= |s.loops| then Fault(s) else
    var c := s.conns[id];
    var c1 := if c.state == Connected
              then Update(s.epoll, c, false, false).(state := Disconnected, down := c.down + 1) else c;
    if HasInterest(c1) || !c1.registered || id in s.loops[c1.loop].active then Fault(s) else
    Put(s, id, c1.(registered := false, watched := false, destroyed := c1.destroyed + 1))
  }

  /** TcpConnection::forceCloseInLoop. */
  function DoForceClose(s: State, id: nat): State {
    if id in s.conns && Open(s.conns[id]) then DoClose(s, id) else s
  }

  function DoTask(s: State, t: Task): State {
    match t
    case Establish(id) => DoEstablish(s, id)
    case Remove(id) => DoRemove(s, id)
    case Destroy(id) => DoDestroy(s, id)
    case ForceClose(id) => DoForceClose(s, id)
  }

  function NewConn(loop: nat): Conn {
    Conn(loop, Connecting, false, false, false, false, 0, 0, 0, 0, 0, 0)
  }

  function DoAccept(s: State, loop: nat): State {
    if loop >= |s.loops| || s.loops[0].current.Some? then s else
    var id := s.nextId;
    var s1 := Put(s.(nextId := id + 1, table := s.table + {id}), id, NewConn(loop));
    if loop == 0 then DoEstablish(s1, id) else Push(s1, loop, Establish(id))
  }

  /** The kernel reports on the descriptors it watches, each at most once. */
  predicate CanReport(s: State, l: nat, ids: seq<nat>) {
    && (forall i | 0 <= i < |ids| ::
          && ids[i] in s.conns
          && var c := s.conns[ids[i]]; c.loop == l && c.registered && c.watched)
    && (forall i, j | 0 <= i < j < |ids| :: ids[i] != ids[j])
  }

  predicate Resting(s: State, l: nat) {
    l < |s.loops| && s.loops[l].active == [] && s.loops[l].current.None?
  }

  function DoPoll(s: State, l: nat, ids: seq<nat>): State {
    if !Resting(s, l) || !CanReport(s, l, ids) then s else
    s.(loops := s.loops[l := s.loops[l].(active := ids)])
  }

  /** A closed connection's mask is empty. */
  predicate Possible(s: State, id: nat, e: Events) {
    HupAlone(e) && (id in s.conns && s.conns[id].state == Disconnected ==> HupOrErrOnly(e))
  }

  function DoEvent(s: State, l: nat, revents: Events): State {
    if l >= |s.loops| || s.loops[l].active == [] || s.loops[l].current.Some? || !Possible(s, s.loops[l].active[0], revents) then s else
    var q := s.loops[l];
    s.(loops := s.loops[l := q.(active := q.active[1..], current := Some(Dispatch(q.active[0], Callbacks(revents))))])
  }

  /** TcpConnection::handleWrite, as far as the channel's interest goes. */
  function DoWrite(s: State, id: nat, drained: bool): State {
    if id in s.conns && s.conns[id].writing && drained then
      Put(s, id, Update(s.epoll, s.conns[id], s.conns[id].reading, false)) else s
  }

  /** What one callback of TcpConnection does: handleClose, handleError, handleRead, handleWrite. */
  function Effect(s: State, id: nat, cb: Callback, n: int, drained: bool): State {
    match cb
    case CloseCallback => DoClose(s, id)
    case ErrorCallback => s
    case ReadCallback => if n == 0 then DoClose(s, id) else s
    case WriteCallback => DoWrite(s, id, drained)
  }

  function DoCallback(s: State, l: nat, n: int, drained: bool): State {
    if l >= |s.loops| || s.loops[l].current.None? then s else
    var d := s.loops[l].current.value;
    if d.callbacks == [] then s.(loops := s.loops[l := s.loops[l].(current := None)]) else
    var s1 := s.(loops := s.loops[l := s.loops[l].(current := Some(d.(callbacks := d.callbacks[1..])))]);
    Effect(s1, d.id, d.callbacks[0], n, drained)
  }

  function DoRunTask(s: State, l: nat): State {
    if !Resting(s, l) || s.loops[l].queue == [] then s else
    DoTask(s.(loops := s.loops[l := s.loops[l].(queue := s.loops[l].queue[1..])]), s.loops[l].queue[0])
  }

  function DoUser(s: State, id: nat, action: UserAction): State {
    if id !in s.conns then s else
    var c := s.conns[id];
    match action
    case Shutdown => if c.state == Connected then Put(s, id, c.(state := Disconnecting)) else s
    case CallForceClose => if Open(c) then Push(Put(s, id, c.(state := Disconnecting)), c.loop, ForceClose(id)) else s
    case StartRead => if Open(c) && !c.reading then Put(s, id, Update(s.epoll, c, true, c.writing)) else s
    case StopRead => if Open(c) && c.reading then Put(s, id, Update(s.epoll, c, false, c.writing)) else s
    case SendBlocked => if c.state == Connected && !c.writing then Put(s, id, Update(s.epoll, c, c.reading, true)) else s
  }

  function Apply(s: State, step: Step): State {
    match step
    case Accept(loop) => DoAccept(s, loop)
    case Poll(l, ids) => DoPoll(s, l, ids)
    case HandleEvent(l, revents) => DoEvent(s, l, revents)
    case RunCallback(l, n, drained) => DoCallback(s, l, n, drained)
    case RunTask(l) => DoRunTask(s, l)
    case User(id, action) => DoUser(s, id, action)
  }

  function Run(s: State, steps: seq<Step>): State
    decreases |steps|
  {
    if steps == [] then s else Run(Apply(s, steps[0]), steps[1..])
  }

  function Init(loopCount: nat, epoll: bool): State {
    State(epoll, map[], {}, 1, seq(loopCount, _ => Loop([], [], None)), false)
  }

  /** The connection a step closes, if it closes one. */
  function Closing(s: State, step: Step): Option<nat> {
    match step
    case RunCallback(l, n, _) =>
      if l >= |s.loops| || s.loops[l].current.None? || s.loops[l].current.value.callbacks == [] then None else
      var d := s.loops[l].current.value;
      if d.callbacks[0] == CloseCallback || (d.callbacks[0] == ReadCallback && n == 0) then Some(d.id) else None
    case RunTask(l) =>
      if Resting(s, l) && s.loops[l].queue != [] && s.loops[l].queue[0].ForceClose? then Some(s.loops[l].queue[0].id) else None
    case _ => None
  }

  /** The step closes an open connection whose channel has no interest: reading is stopped, nothing is being written. */
  predicate ClosesIdle(s: State, step: Step) {
    var id := Closing(s, step);
    id.Some? && id.value in s.conns && Open(s.conns[id.value]) && !HasInterest(s.conns[id.value])
  }

  /** No step of the run does. */
  predicate NeverClosesIdle(s: State, steps: seq<Step>)
    decreases |steps|
  {
    steps != [] ==> !ClosesIdle(s, steps[0]) && NeverClosesIdle(Apply(s, steps[0]), steps[1..])
  }

  // ---------- the invariant ----------

  function Count(s: State, l: nat, t: Task): nat
    requires l < |s.loops|
  {
    multiset(s.loops[l].queue)[t]
  }

  /** One connection: its state, its counters, its place in the table and its queued steps go together. */
  ghost predicate ConnOk(s: State, id: nat)
    requires id in s.conns && 0 < |s.loops|
  {
    var c := s.conns[id];
    && c.loop < |s.loops|
    && (c.writing ==> Open(c))
    && (c.reading ==> Open(c))
    && c.watched == HasInterest(c)
    && c.up == c.established
    && c.down == c.closed
    && c.established == (if c.state == Connecting then 0 else 1)
    && c.closed == (if c.state == Disconnected then 1 else 0)
    && c.removed == (if id in s.table then 0 else 1)
    && c.registered == (c.established == 1 && c.destroyed == 0)
    && Count(s, c.loop, Establish(id)) == 1 - c.established
    && Count(s, 0, Remove(id)) == (if c.state == Disconnected && id in s.table then 1 else 0)
    && Count(s, c.loop, Destroy(id)) == c.removed - c.destroyed
    && (id !in s.table ==> c.state == Disconnected)
  }

  /** Every functor sits in the queue of the loop it belongs to. */
  ghost predicate TaskOk(s: State, l: nat, t: Task) {
    t.id in s.conns && (if t.Remove? then l == 0 else l == s.conns[t.id].loop)
  }

  ghost predicate Live(s: State, l: nat, id: nat) {
    id in s.conns && s.conns[id].loop == l && Open(s.conns[id])
  }

  ghost predicate Distinct(ids: seq<nat>) {
    forall i, j | 0 <= i < j < |ids| :: ids[i] != ids[j]
  }

  /** Whether the callbacks left can still close the connection: at most one of them can. */
  predicate MayClose(cs: seq<Callback>) {
    CloseCallback in cs || ReadCallback in cs
  }

  ghost predicate ClosesOnce(cs: seq<Callback>) {
    forall i, j | 0 <= i < j < |cs| :: cs[i] == CloseCallback || cs[i] == ReadCallback ==>
                                       cs[j] == ErrorCallback || cs[j] == WriteCallback
  }

  ghost predicate LoopOk(s: State, l: nat)
    requires l < |s.loops|
  {
    var q := s.loops[l];
    && (forall i | 0 <= i < |q.queue| :: TaskOk(s, l, q.queue[i]))
    && (forall i | 0 <= i < |q.active| :: Live(s, l, q.active[i]))
    && Distinct(q.active)
    && (q.current.Some? ==>
          var d := q.current.value;
          && d.id !in q.active
          && ClosesOnce(d.callbacks)
          && (MayClose(d.callbacks) ==> Live(s, l, d.id)))
  }

  ghost predicate Inv(s: State) {
    && !s.fault
    && 0 < |s.loops|
    && s.table <= s.conns.Keys
    && (forall id | id in s.conns :: id < s.nextId && ConnOk(s, id))
    && (forall l | 0 <= l < |s.loops| :: LoopOk(s, l))
  }
}
