/** Over all interleavings of the loops, every connection goes through its life exactly once. */
module LifecycleProofs {
  import opened Common
  import opened Lifecycle

  lemma PushCount(q: seq<Task>, t: Task)
    ensures forall u :: multiset(q + [t])[u] == multiset(q)[u] + (if u == t then 1 else 0)
  {
  }

  lemma PopCount(q: seq<Task>)
    requires q != []
    ensures forall u :: multiset(q[1..])[u] == multiset(q)[u] - (if u == q[0] then 1 else 0)
  {
    assert q == [q[0]] + q[1..];
  }

  lemma CountZero(s: State, l: nat, t: Task)
    requires l < |s.loops| && LoopOk(s, l) && !TaskOk(s, l, t)
    ensures Count(s, l, t) == 0
  {
    assert forall i | 0 <= i < |s.loops[l].queue| :: s.loops[l].queue[i] != t;
  }

  /** No reported event and no pending callback can close the connection any more. */
  ghost predicate Quiet(s: State, id: nat) {
    forall l | 0 <= l < |s.loops| ::
      && id !in s.loops[l].active
      && (s.loops[l].current.Some? && s.loops[l].current.value.id == id ==> !MayClose(s.loops[l].current.value.callbacks))
  }

  /** `s'` differs from `s` at most in connection `id` and its queued steps. */
  ghost predicate OnlyTouches(s: State, s': State, id: nat) {
    && |s'.loops| == |s.loops|
    && s'.nextId == s.nextId
    && id in s.conns && s'.conns.Keys == s.conns.Keys
    && s'.conns[id].loop == s.conns[id].loop
    && (forall x | x in s.conns && x != id :: s'.conns[x] == s.conns[x] && (x in s'.table <==> x in s.table))
    && (forall l | 0 <= l < |s.loops| ::
          && s'.loops[l].active == s.loops[l].active
          && s'.loops[l].current == s.loops[l].current)
  }

  ghost predicate QueuesTouched(s: State, s': State, id: nat)
    requires |s'.loops| == |s.loops|
  {
    forall l | 0 <= l < |s.loops| ::
      && (forall t: Task | t.id != id :: Count(s', l, t) == Count(s, l, t))
      && (forall t | t in s'.loops[l].queue :: t in s.loops[l].queue || TaskOk(s', l, t))
  }

  lemma GetConn(s: State, id: nat)
    requires Inv(s) && id in s.conns
    ensures ConnOk(s, id) && id < s.nextId
  {
  }

  lemma GetLoop(s: State, l: nat)
    requires Inv(s) && l < |s.loops|
    ensures LoopOk(s, l)
  {
  }

  /** The functor at the head of a queue belongs there and is counted. */
  lemma GetTask(s: State, l: nat)
    requires Inv(s) && l < |s.loops| && s.loops[l].queue != []
    ensures TaskOk(s, l, s.loops[l].queue[0]) && Count(s, l, s.loops[l].queue[0]) > 0
    ensures ConnOk(s, s.loops[l].queue[0].id)
  {
    GetLoop(s, l);
    assert TaskOk(s, l, s.loops[l].queue[0]);
    assert s.loops[l].queue[0] in s.loops[l].queue;
  }

  ghost predicate SameQueues(s: State, s': State) {
    |s'.loops| == |s.loops| && forall k | 0 <= k < |s.loops| :: s'.loops[k].queue == s.loops[k].queue
  }

  ghost predicate PushedOn(s: State, s': State, l: nat, t: Task) {
    && |s'.loops| == |s.loops|
    && forall k | 0 <= k < |s.loops| ::
         s'.loops[k].queue == if k == l then s.loops[k].queue + [t] else s.loops[k].queue
  }

  ghost predicate PoppedFrom(s: State, s': State, l: nat) {
    && |s'.loops| == |s.loops|
    && l < |s.loops| && s.loops[l].queue != []
    && forall k | 0 <= k < |s.loops| ::
         s'.loops[k].queue == if k == l then s.loops[k].queue[1..] else s.loops[k].queue
  }

  lemma PushTouches(s: State, s': State, l: nat, t: Task)
    requires PushedOn(s, s', l, t) && TaskOk(s', l, t)
    ensures QueuesTouched(s, s', t.id)
    ensures forall k, u | 0 <= k < |s.loops| :: Count(s', k, u) == Count(s, k, u) + (if k == l && u == t then 1 else 0)
  {
    if l < |s.loops| {
      PushCount(s.loops[l].queue, t);
    }
    forall k, u | 0 <= k < |s.loops|
      ensures Count(s', k, u) == Count(s, k, u) + (if k == l && u == t then 1 else 0)
      ensures u in s'.loops[k].queue ==> u in s.loops[k].queue || TaskOk(s', k, u)
    {
      assert s'.loops[k].queue == if k == l then s.loops[k].queue + [t] else s.loops[k].queue;
    }
  }

  lemma PopTouches(s: State, s': State, l: nat)
    requires PoppedFrom(s, s', l)
    ensures QueuesTouched(s, s', s.loops[l].queue[0].id)
    ensures forall k, u | 0 <= k < |s.loops| ::
              Count(s', k, u) == Count(s, k, u) - (if k == l && u == s.loops[l].queue[0] then 1 else 0)
  {
    PopCount(s.loops[l].queue);
    forall k, u | 0 <= k < |s.loops|
      ensures Count(s', k, u) == Count(s, k, u) - (if k == l && u == s.loops[l].queue[0] then 1 else 0)
      ensures u in s'.loops[k].queue ==> u in s.loops[k].queue
    {
      assert s'.loops[k].queue == if k == l then s.loops[k].queue[1..] else s.loops[k].queue;
    }
  }

  lemma TouchesCompose(s: State, s1: State, s': State, id: nat)
    requires |s.loops| == |s1.loops| == |s'.loops| && s1.conns.Keys == s'.conns.Keys
    requires forall x | x in s1.conns :: s1.conns[x].loop == s'.conns[x].loop
    requires QueuesTouched(s, s1, id) && QueuesTouched(s1, s', id)
    ensures QueuesTouched(s, s', id)
  {
    forall l, t: Task | 0 <= l < |s.loops| && t.id != id ensures Count(s', l, t) == Count(s, l, t) {
      assert Count(s1, l, t) == Count(s, l, t);
    }
  }

  lemma TouchedLoop(s: State, s': State, id: nat, l: nat)
    requires l < |s.loops| && LoopOk(s, l) && OnlyTouches(s, s', id) && QueuesTouched(s, s', id)
    requires Open(s.conns[id]) ==> Open(s'.conns[id]) || Quiet(s, id)
    ensures LoopOk(s', l)
  {
    var q := s.loops[l];
    var q' := s'.loops[l];
    forall i | 0 <= i < |q'.queue| ensures TaskOk(s', l, q'.queue[i]) {
      TouchedTask(s, s', id, l, q'.queue[i]);
    }
    hide QueuesTouched;
    forall i | 0 <= i < |q'.active| ensures Live(s', l, q'.active[i]) {
      assert q.active[i] in q.active;
      assert Live(s, l, q.active[i]);
    }
  }

  lemma TouchedTask(s: State, s': State, id: nat, l: nat, t: Task)
    requires l < |s.loops| && LoopOk(s, l) && OnlyTouches(s, s', id) && QueuesTouched(s, s', id)
    requires t in s'.loops[l].queue
    ensures TaskOk(s', l, t)
  {
    if t in s.loops[l].queue {
      var j :| 0 <= j < |s.loops[l].queue| && s.loops[l].queue[j] == t;
      assert TaskOk(s, l, s.loops[l].queue[j]);
    }
  }

  /** To keep the invariant it is enough to settle the connection that a step touches. */
  lemma Settle(s: State, s': State, id: nat)
    requires Inv(s) && OnlyTouches(s, s', id) && QueuesTouched(s, s', id)
    requires !s'.fault && s'.table <= s'.conns.Keys
    requires Open(s.conns[id]) ==> Open(s'.conns[id]) || Quiet(s, id)
    requires ConnOk(s', id)
    ensures Inv(s')
  {
    forall x | x in s'.conns ensures x < s'.nextId && ConnOk(s', x) {
      if x != id {
        assert ConnOk(s, x);
        var c := s.conns[x];
        assert Count(s', c.loop, Establish(x)) == Count(s, c.loop, Establish(x));
        assert Count(s', 0, Remove(x)) == Count(s, 0, Remove(x));
        assert Count(s', c.loop, Destroy(x)) == Count(s, c.loop, Destroy(x));
      }
    }
    forall l | 0 <= l < |s'.loops| ensures LoopOk(s', l) {
      TouchedLoop(s, s', id, l);
    }
  }

  // ---------- steps without queue changes ----------

  lemma PutSettles(s: State, id: nat, c: Conn)
    requires Inv(s) && id in s.conns
    requires c == s.conns[id].(state := c.state, reading := c.reading, writing := c.writing, watched := c.watched)
    requires c.state == s.conns[id].state || (s.conns[id].state == Connected && c.state == Disconnecting)
    requires (Open(c) || !HasInterest(c)) && c.watched == HasInterest(c)
    ensures Inv(Put(s, id, c))
  {
    hide Inv, LoopOk, QueuesTouched;
    var s' := Put(s, id, c);
    GetConn(s, id);
    QueuesSame(s, s', id);
    Basics(s);
    Settle(s, s', id);
  }

  lemma QueuesSame(s: State, s': State, id: nat)
    requires SameQueues(s, s')
    ensures QueuesTouched(s, s', id)
  {
    forall k, u: Task | 0 <= k < |s.loops|
      ensures Count(s', k, u) == Count(s, k, u)
      ensures u in s'.loops[k].queue ==> u in s.loops[k].queue
    {
      assert s'.loops[k].queue == s.loops[k].queue;
    }
  }

  lemma Basics(s: State)
    requires Inv(s)
    ensures !s.fault && 0 < |s.loops| && s.table <= s.conns.Keys
  {
  }

  // ---------- closing ----------

  lemma CloseInBase(s: State, id: nat)
    requires Inv(s) && id in s.conns && Open(s.conns[id]) && Quiet(s, id) && s.conns[id].loop == 0
    requires s.epoll ==> HasInterest(s.conns[id])
    ensures Inv(DoClose(s, id))
  {
    hide Inv, LoopOk, QueuesTouched, Quiet;
    Basics(s);
    GetConn(s, id);
    PushTouches(s, DoClose(s, id), 0, Destroy(id));
    Settle(s, DoClose(s, id), id);
  }

  lemma CloseInWorker(s: State, id: nat)
    requires Inv(s) && id in s.conns && Open(s.conns[id]) && Quiet(s, id) && s.conns[id].loop != 0
    requires s.epoll ==> HasInterest(s.conns[id])
    ensures Inv(DoClose(s, id))
  {
    hide Inv, LoopOk, QueuesTouched, Quiet;
    Basics(s);
    GetConn(s, id);
    PushTouches(s, DoClose(s, id), 0, Remove(id));
    Settle(s, DoClose(s, id), id);
  }

  lemma CloseSettles(s: State, id: nat)
    requires Inv(s) && id in s.conns && Open(s.conns[id]) && Quiet(s, id)
    requires s.epoll ==> HasInterest(s.conns[id])
    ensures Inv(DoClose(s, id))
  {
    if s.conns[id].loop == 0 {
      CloseInBase(s, id);
    } else {
      CloseInWorker(s, id);
    }
  }

  // ---------- functors ----------

  lemma EstablishSettles(s: State, l: nat)
    requires Inv(s) && Resting(s, l) && s.loops[l].queue != [] && s.loops[l].queue[0].Establish?
    ensures Inv(DoRunTask(s, l))
  {
    hide Inv, LoopOk, QueuesTouched;
    var s' := DoRunTask(s, l);
    Basics(s);
    GetTask(s, l);
    PopTouches(s, s', l);
    Settle(s, s', s.loops[l].queue[0].id);
  }

  lemma RemoveSettles(s: State, l: nat)
    requires Inv(s) && Resting(s, l) && s.loops[l].queue != [] && s.loops[l].queue[0].Remove?
    ensures Inv(DoRunTask(s, l))
  {
    hide Inv, LoopOk, QueuesTouched;
    var id := s.loops[l].queue[0].id;
    Basics(s);
    GetTask(s, l);
    RemoveTouches(s, l);
    Settle(s, DoRunTask(s, l), id);
  }

  lemma RemoveTouches(s: State, l: nat)
    requires Inv(s) && Resting(s, l) && s.loops[l].queue != [] && s.loops[l].queue[0].Remove?
    ensures var id := s.loops[l].queue[0].id; var s' := DoRunTask(s, l);
      && id in s.conns && |s'.loops| == |s.loops| && QueuesTouched(s, s', id)
      && (forall k, u | 0 <= k < |s.loops| :: Count(s', k, u) == Count(s, k, u)
            - (if k == l && u == Remove(id) then 1 else 0) + (if k == s.conns[id].loop && u == Destroy(id) then 1 else 0))
  {
    hide Inv, LoopOk, QueuesTouched;
    var q := s.loops[l].queue;
    var id := q[0].id;
    Basics(s);
    GetTask(s, l);
    var s1 := s.(loops := s.loops[l := s.loops[l].(queue := q[1..])]);
    var s' := DoRunTask(s, l);
    PopTouches(s, s1, l);
    PushTouches(s1, s', s.conns[id].loop, Destroy(id));
    TouchesCompose(s, s1, s', id);
  }

  lemma DestroySettles(s: State, l: nat)
    requires Inv(s) && Resting(s, l) && s.loops[l].queue != [] && s.loops[l].queue[0].Destroy?
    ensures Inv(DoRunTask(s, l))
  {
    hide Inv, LoopOk, QueuesTouched;
    var s' := DoRunTask(s, l);
    Basics(s);
    GetTask(s, l);
    PopTouches(s, s', l);
    Settle(s, s', s.loops[l].queue[0].id);
  }

  lemma ForceCloseSettles(s: State, l: nat)
    requires Inv(s) && Resting(s, l) && s.loops[l].queue != [] && s.loops[l].queue[0].ForceClose?
    requires s.epoll ==> !ClosesIdle(s, RunTask(l))
    ensures Inv(DoRunTask(s, l))
  {
    hide Inv, LoopOk, QueuesTouched;
    var q := s.loops[l].queue;
    var id := q[0].id;
    Basics(s);
    GetTask(s, l);
    var s1 := s.(loops := s.loops[l := s.loops[l].(queue := q[1..])]);
    PopTouches(s, s1, l);
    Settle(s, s1, id);
    if Open(s.conns[id]) {
      RestingIsQuiet(s1, l, id);
      CloseSettles(s1, id);
    }
  }

  /** A loop between events has nothing left that could close one of its connections. */
  lemma RestingIsQuiet(s: State, l: nat, id: nat)
    requires Inv(s) && Resting(s, l) && id in s.conns && s.conns[id].loop == l
    ensures Quiet(s, id)
  {
    forall k | 0 <= k < |s.loops|
      ensures id !in s.loops[k].active
      ensures s.loops[k].current.Some? && s.loops[k].current.value.id == id ==> !MayClose(s.loops[k].current.value.callbacks)
    {
      assert LoopOk(s, k);
    }
  }

  lemma TaskSettles(s: State, l: nat)
    requires Inv(s) && (s.epoll ==> !ClosesIdle(s, RunTask(l)))
    ensures Inv(DoRunTask(s, l))
  {
    if Resting(s, l) && s.loops[l].queue != [] {
      match s.loops[l].queue[0]
      case Establish(_) => EstablishSettles(s, l);
      case Remove(_) => RemoveSettles(s, l);
      case Destroy(_) => DestroySettles(s, l);
      case ForceClose(_) => ForceCloseSettles(s, l);
    }
  }

  // ---------- events ----------

  /** Only the event bookkeeping of loop `l` changes. */
  lemma LoopChanges(s: State, s': State, l: nat)
    requires Inv(s) && l < |s.loops| && s' == s.(loops := s'.loops) && |s'.loops| == |s.loops|
    requires forall k | 0 <= k < |s.loops| && k != l :: s'.loops[k] == s.loops[k]
    requires s'.loops[l].queue == s.loops[l].queue
    requires LoopOk(s', l)
    ensures Inv(s')
  {
    forall k | 0 <= k < |s.loops| ensures s'.loops[k].queue == s.loops[k].queue && LoopOk(s', k) {
      if k != l {
        assert LoopOk(s, k);
        forall i | 0 <= i < |s.loops[k].queue| ensures TaskOk(s', k, s.loops[k].queue[i]) {
          assert TaskOk(s, k, s.loops[k].queue[i]);
        }
        forall i | 0 <= i < |s.loops[k].active| ensures Live(s', k, s.loops[k].active[i]) {
          assert Live(s, k, s.loops[k].active[i]);
        }
      }
    }
    forall x | x in s'.conns ensures x < s'.nextId && ConnOk(s', x) {
      assert ConnOk(s, x);
    }
  }

  lemma SameQueueTasks(s: State, s': State, l: nat)
    requires l < |s.loops| && LoopOk(s, l) && l < |s'.loops|
    requires s'.conns == s.conns && s'.loops[l].queue == s.loops[l].queue
    ensures forall i | 0 <= i < |s'.loops[l].queue| :: TaskOk(s', l, s'.loops[l].queue[i])
  {
    forall i | 0 <= i < |s'.loops[l].queue| ensures TaskOk(s', l, s'.loops[l].queue[i]) {
      assert TaskOk(s, l, s.loops[l].queue[i]);
    }
  }

  lemma PollSettles(s: State, l: nat, ids: seq<nat>)
    requires Inv(s)
    ensures Inv(DoPoll(s, l, ids))
  {
    if Resting(s, l) && CanReport(s, l, ids) {
      var s' := DoPoll(s, l, ids);
      assert LoopOk(s, l);
      SameQueueTasks(s, s', l);
      forall i | 0 <= i < |ids| ensures Live(s', l, ids[i]) {
        assert ConnOk(s, ids[i]);
      }
      assert LoopOk(s', l);
      LoopChanges(s, s', l);
    }
  }

  /** With a lone hang-up, at most one callback of an event can close the connection. */
  lemma HupAloneClosesOnce(e: Events)
    ensures ClosesOnce(Callbacks(e)) <==> HupAlone(e)
  {
    var cs := Callbacks(e);
    if !HupAlone(e) {
      assert cs[0] == CloseCallback;
      var k := if e.err || e.nval then 2 else 1;
      assert cs[k] == ReadCallback;
    }
  }

  lemma EventSettles(s: State, l: nat, revents: Events)
    requires Inv(s)
    ensures Inv(DoEvent(s, l, revents))
  {
    if l < |s.loops| && s.loops[l].active != [] && s.loops[l].current.None? && Possible(s, s.loops[l].active[0], revents) {
      var s' := DoEvent(s, l, revents);
      HupAloneClosesOnce(revents);
      assert LoopOk(s, l);
      SameQueueTasks(s, s', l);
      var a := s.loops[l].active;
      assert Live(s, l, a[0]);
      forall i | 0 <= i < |a[1..]| ensures Live(s', l, a[1..][i]) && a[1..][i] != a[0] {
        assert Live(s, l, a[i + 1]);
      }
      assert LoopOk(s', l);
      LoopChanges(s, s', l);
    }
  }

  /** Taking the next callback of the channel being handled. */
  lemma NextCallback(s: State, l: nat, next: Option<Dispatch>)
    requires Inv(s) && l < |s.loops| && s.loops[l].current.Some?
    requires var d := s.loops[l].current.value;
      if d.callbacks == [] then next == None else next == Some(d.(callbacks := d.callbacks[1..]))
    ensures Inv(s.(loops := s.loops[l := s.loops[l].(current := next)]))
  {
    var s' := s.(loops := s.loops[l := s.loops[l].(current := next)]);
    assert LoopOk(s, l);
    SameQueueTasks(s, s', l);
    forall i | 0 <= i < |s.loops[l].active| ensures Live(s', l, s.loops[l].active[i]) {
      assert Live(s, l, s.loops[l].active[i]);
    }
    if next.Some? {
      var cs := s.loops[l].current.value.callbacks;
      assert forall i | 0 <= i < |cs[1..]| :: cs[1..][i] == cs[i + 1];
      assert ClosesOnce(cs[1..]);
      assert MayClose(cs[1..]) ==> MayClose(cs);
    }
    assert LoopOk(s', l);
    LoopChanges(s, s', l);
  }

  /** A closing callback leaves nothing behind it that could close again. */
  lemma ClosingIsQuiet(s: State, l: nat)
    requires Inv(s) && l < |s.loops| && s.loops[l].current.Some? && s.loops[l].current.value.callbacks != []
    requires var cb := s.loops[l].current.value.callbacks[0]; cb == CloseCallback || cb == ReadCallback
    ensures var d := s.loops[l].current.value;
      && Live(s, l, d.id)
      && Quiet(s.(loops := s.loops[l := s.loops[l].(current := Some(d.(callbacks := d.callbacks[1..])))]), d.id)
  {
    var d := s.loops[l].current.value;
    var s' := s.(loops := s.loops[l := s.loops[l].(current := Some(d.(callbacks := d.callbacks[1..])))]);
    assert LoopOk(s, l);
    assert MayClose(d.callbacks);
    assert !MayClose(d.callbacks[1..]);
    forall k | 0 <= k < |s'.loops|
      ensures d.id !in s'.loops[k].active
      ensures s'.loops[k].current.Some? && s'.loops[k].current.value.id == d.id ==> !MayClose(s'.loops[k].current.value.callbacks)
    {
      assert LoopOk(s, k);
    }
  }

  lemma ClosingCallback(s: State, l: nat, n: int, drained: bool)
    requires Inv(s) && Closing(s, RunCallback(l, n, drained)).Some?
    requires s.epoll ==> !ClosesIdle(s, RunCallback(l, n, drained))
    ensures Inv(DoCallback(s, l, n, drained))
  {
    hide Inv, LoopOk, Quiet, DoClose, ConnOk;
    var d := s.loops[l].current.value;
    var next := Some(d.(callbacks := d.callbacks[1..]));
    NextCallback(s, l, next);
    ClosingIsQuiet(s, l);
    CloseSettles(s.(loops := s.loops[l := s.loops[l].(current := next)]), d.id);
  }

  lemma DrainingWrite(s: State, id: nat)
    requires Inv(s) && id in s.conns && s.conns[id].writing
    ensures Inv(Put(s, id, Update(s.epoll, s.conns[id], s.conns[id].reading, false)))
  {
    hide Inv, LoopOk;
    Basics(s);
    GetConn(s, id);
    PutSettles(s, id, Update(s.epoll, s.conns[id], s.conns[id].reading, false));
  }

  lemma CallbackSettles(s: State, l: nat, n: int, drained: bool)
    requires Inv(s) && (s.epoll ==> !ClosesIdle(s, RunCallback(l, n, drained)))
    ensures Inv(DoCallback(s, l, n, drained))
  {
    if Closing(s, RunCallback(l, n, drained)).Some? {
      ClosingCallback(s, l, n, drained);
    } else if l < |s.loops| && s.loops[l].current.Some? {
      hide Inv, DoClose, Update;
      var d := s.loops[l].current.value;
      if d.callbacks == [] {
        NextCallback(s, l, None);
      } else {
        var next := Some(d.(callbacks := d.callbacks[1..]));
        NextCallback(s, l, next);
        if d.callbacks[0] == WriteCallback && d.id in s.conns && s.conns[d.id].writing && drained {
          DrainingWrite(s.(loops := s.loops[l := s.loops[l].(current := next)]), d.id);
        }
      }
    }
  }

  // ---------- user code and new connections ----------

  lemma ForceCloseQueued(s: State, id: nat)
    requires Inv(s) && id in s.conns && Open(s.conns[id])
    ensures Inv(DoUser(s, id, CallForceClose))
  {
    hide Inv, LoopOk, QueuesTouched;
    var s' := DoUser(s, id, CallForceClose);
    Basics(s);
    GetConn(s, id);
    PushTouches(s, s', s.conns[id].loop, ForceClose(id));
    Settle(s, s', id);
  }

  lemma UserSettles(s: State, id: nat, action: UserAction)
    requires Inv(s)
    ensures Inv(DoUser(s, id, action))
  {
    if id in s.conns {
      var c := s.conns[id];
      assert ConnOk(s, id);
      match action
      case Shutdown => if c.state == Connected { PutSettles(s, id, c.(state := Disconnecting)); }
      case CallForceClose => if Open(c) { ForceCloseQueued(s, id); }
      case StartRead => if Open(c) && !c.reading { PutSettles(s, id, Update(s.epoll, c, true, c.writing)); }
      case StopRead => if Open(c) && c.reading { PutSettles(s, id, Update(s.epoll, c, false, c.writing)); }
      case SendBlocked => if c.state == Connected && !c.writing { PutSettles(s, id, Update(s.epoll, c, c.reading, true)); }
    }
  }

  /** Nothing is queued for a connection number not yet given out. */
  lemma NothingQueued(s: State, id: nat)
    requires Inv(s) && id !in s.conns
    ensures forall l, t: Task | 0 <= l < |s.loops| && t.id == id :: Count(s, l, t) == 0
  {
    hide Inv, LoopOk;
    forall l, t: Task | 0 <= l < |s.loops| && t.id == id ensures Count(s, l, t) == 0 {
      GetLoop(s, l);
      CountZero(s, l, t);
    }
  }

  /** The connection just accepted. */
  lemma AcceptedConn(s: State, loop: nat)
    requires Inv(s) && loop < |s.loops| && s.loops[0].current.None?
    ensures var s' := DoAccept(s, loop);
      s.nextId in s'.conns && |s'.loops| == |s.loops| && ConnOk(s', s.nextId) && !s'.fault
  {
    hide Inv, LoopOk;
    Basics(s);
    var id := s.nextId;
    assert id !in s.conns by {
      if id in s.conns {
        GetConn(s, id);
      }
    }
    NothingQueued(s, id);
    AcceptCounts(s, loop);
    assert Count(s, loop, Establish(id)) == Count(s, 0, Remove(id)) == Count(s, loop, Destroy(id)) == 0;
  }

  lemma AcceptCounts(s: State, loop: nat)
    requires loop < |s.loops| && s.loops[0].current.None?
    ensures |DoAccept(s, loop).loops| == |s.loops|
    ensures forall k, u | 0 <= k < |s.loops| ::
              Count(DoAccept(s, loop), k, u) == Count(s, k, u) +
                (if k == loop && loop != 0 && u == Establish(s.nextId) then 1 else 0)
  {
    PushCount(s.loops[loop].queue, Establish(s.nextId));
  }

  lemma AcceptOther(s: State, loop: nat, x: nat)
    requires Inv(s) && loop < |s.loops| && s.loops[0].current.None? && x in s.conns
    ensures var s' := DoAccept(s, loop);
      x in s'.conns && |s'.loops| == |s.loops| && ConnOk(s', x) && x < s'.nextId
  {
    hide Inv, LoopOk;
    GetConn(s, x);
    AcceptCounts(s, loop);
    var s' := DoAccept(s, loop);
    assert s'.conns[x] == s.conns[x] && (x in s'.table <==> x in s.table) && x != s.nextId;
    var c := s.conns[x];
    assert Count(s', c.loop, Establish(x)) == Count(s, c.loop, Establish(x));
    assert Count(s', 0, Remove(x)) == Count(s, 0, Remove(x));
    assert Count(s', c.loop, Destroy(x)) == Count(s, c.loop, Destroy(x));
    hide DoAccept, Count;
  }

  lemma AcceptLoop(s: State, loop: nat, l: nat)
    requires Inv(s) && loop < |s.loops| && s.loops[0].current.None? && l < |s.loops|
    ensures |DoAccept(s, loop).loops| == |s.loops|
    ensures LoopOk(DoAccept(s, loop), l)
  {
    hide Inv;
    var s' := DoAccept(s, loop);
    GetLoop(s, l);
    assert forall x | x in s.conns :: x in s'.conns && (x != s.nextId ==> s'.conns[x] == s.conns[x]);
    if s.nextId in s.conns {
      GetConn(s, s.nextId);
    }
    forall i | 0 <= i < |s'.loops[l].queue| ensures TaskOk(s', l, s'.loops[l].queue[i]) {
      if i < |s.loops[l].queue| {
        assert TaskOk(s, l, s.loops[l].queue[i]);
      }
    }
    forall i | 0 <= i < |s'.loops[l].active| ensures Live(s', l, s'.loops[l].active[i]) {
      assert Live(s, l, s.loops[l].active[i]);
    }
  }

  lemma AcceptSettles(s: State, loop: nat)
    requires Inv(s)
    ensures Inv(DoAccept(s, loop))
  {
    if loop < |s.loops| && s.loops[0].current.None? {
      hide ConnOk, LoopOk;
      var s' := DoAccept(s, loop);
      AcceptedConn(s, loop);
      forall x | x in s'.conns ensures x < s'.nextId && ConnOk(s', x) {
        if x != s.nextId {
          AcceptOther(s, loop, x);
        }
      }
      forall l | 0 <= l < |s'.loops| ensures LoopOk(s', l) {
        AcceptLoop(s, loop, l);
      }
    }
  }

  /** Every step that does not close an idle connection keeps the invariant; with poll, those that do keep it as well. */
  lemma ApplySettles(s: State, step: Step)
    requires Inv(s) && (s.epoll ==> !ClosesIdle(s, step))
    ensures Inv(Apply(s, step))
  {
    match step
    case Accept(loop) => AcceptSettles(s, loop);
    case Poll(l, ids) => PollSettles(s, l, ids);
    case HandleEvent(l, revents) => EventSettles(s, l, revents);
    case RunCallback(l, n, drained) => CallbackSettles(s, l, n, drained);
    case RunTask(l) => TaskSettles(s, l);
    case User(id, action) => UserSettles(s, id, action);
  }

  lemma TaskSamePoller(s: State, t: Task)
    ensures DoTask(s, t).epoll == s.epoll
  {
  }

  lemma EffectSamePoller(s: State, id: nat, cb: Callback, n: int, drained: bool)
    ensures Effect(s, id, cb, n, drained).epoll == s.epoll
  {
  }

  lemma SamePoller(s: State, step: Step)
    ensures Apply(s, step).epoll == s.epoll
  {
    hide DoTask, Effect;
    match step
    case RunCallback(l, n, drained) =>
      if l < |s.loops| && s.loops[l].current.Some? && s.loops[l].current.value.callbacks != [] {
        var d := s.loops[l].current.value;
        var s1 := s.(loops := s.loops[l := s.loops[l].(current := Some(d.(callbacks := d.callbacks[1..])))]);
        EffectSamePoller(s1, d.id, d.callbacks[0], n, drained);
      }
    case RunTask(l) =>
      if Resting(s, l) && s.loops[l].queue != [] {
        TaskSamePoller(s.(loops := s.loops[l := s.loops[l].(queue := s.loops[l].queue[1..])]), s.loops[l].queue[0]);
      }
    case _ =>
  }

  lemma {:induction false} RunSettles(s: State, steps: seq<Step>)
    requires Inv(s) && (s.epoll ==> NeverClosesIdle(s, steps))
    ensures Inv(Run(s, steps))
    decreases |steps|
  {
    hide Inv, Apply, ClosesIdle;
    if steps != [] {
      ApplySettles(s, steps[0]);
      SamePoller(s, steps[0]);
      RunSettles(Apply(s, steps[0]), steps[1..]);
    }
  }

  // ---------- what follows for every run ----------

  /**
    Over every interleaving in which, with epoll, no connection is closed while its channel has no interest: no assertion of
    the source fails, and each connection is established once, closed at most once, removed from the server's table at most
    once (finding its entry), destroyed at most once and only after that, with one up and at most one down callback, on a
    channel that is not watched any more.
   */
  lemma LivesOnce(loopCount: nat, epoll: bool, steps: seq<Step>, id: nat)
    requires loopCount > 0 && (epoll ==> NeverClosesIdle(Init(loopCount, epoll), steps))
    ensures var s := Run(Init(loopCount, epoll), steps);
      && !s.fault
      && (id in s.conns ==>
            var c := s.conns[id];
            && c.destroyed <= c.removed <= c.closed <= c.established <= 1
            && c.up == c.established && c.down == c.closed
            && (c.closed == 1 <==> c.state == Disconnected)
            && (c.removed == 0 <==> id in s.table)
            && (c.registered <==> c.established == 1 && c.destroyed == 0)
            && (c.state == Disconnected ==> !c.reading && !c.writing && !c.watched))
  {
    var s0 := Init(loopCount, epoll);
    assert Inv(s0);
    RunSettles(s0, steps);
    var s := Run(s0, steps);
    hide Run;
    Basics(s);
    if id in s.conns {
      GetConn(s, id);
    }
  }

  /** No leak: once the loops have drained their queues, every closed connection is out of the table and destroyed. */
  lemma DrainedIsDestroyed(loopCount: nat, epoll: bool, steps: seq<Step>, id: nat)
    requires loopCount > 0 && (epoll ==> NeverClosesIdle(Init(loopCount, epoll), steps))
    ensures var s := Run(Init(loopCount, epoll), steps);
      id in s.conns && (forall l | 0 <= l < |s.loops| :: s.loops[l].queue == []) ==>
        && s.conns[id].established == 1
        && (s.conns[id].state == Disconnected ==>
              id !in s.table && s.conns[id].destroyed == 1 && !s.conns[id].registered)
  {
    var s0 := Init(loopCount, epoll);
    assert Inv(s0);
    RunSettles(s0, steps);
    var s := Run(s0, steps);
    hide Run;
    Basics(s);
    if id in s.conns {
      GetConn(s, id);
    }
  }

  /** All callbacks of one event in a row, whatever its mask. */
  function DispatchAll(s: State, id: nat, cs: seq<Callback>, n: int, drained: bool): State
    decreases |cs|
  {
    if cs == [] then s else DispatchAll(Effect(s, id, cs[0], n, drained), id, cs[1..], n, drained)
  }

  function Closers(cs: seq<Callback>): nat {
    if cs == [] then 0 else (if cs[0] == CloseCallback || cs[0] == ReadCallback then 1 else 0) + Closers(cs[1..])
  }

  lemma {:induction false} FaultStays(s: State, id: nat, cs: seq<Callback>, drained: bool)
    requires s.fault
    ensures DispatchAll(s, id, cs, 0, drained).fault
    decreases |cs|
  {
    if cs != [] {
      FaultStays(Effect(s, id, cs[0], 0, drained), id, cs[1..], drained);
    }
  }

  lemma {:induction false} ClosedDispatch(s: State, id: nat, cs: seq<Callback>, drained: bool)
    requires id in s.conns && !Open(s.conns[id]) && !s.fault
    ensures DispatchAll(s, id, cs, 0, drained).fault <==> Closers(cs) > 0
    decreases |cs|
  {
    if cs != [] {
      var s1 := Effect(s, id, cs[0], 0, drained);
      if s1.fault {
        FaultStays(s1, id, cs[1..], drained);
      } else {
        ClosedDispatch(s1, id, cs[1..], drained);
      }
    }
  }

  lemma {:induction false} OpenDispatch(s: State, id: nat, cs: seq<Callback>, drained: bool)
    requires id in s.conns && Open(s.conns[id]) && id in s.table && !s.fault
    ensures DispatchAll(s, id, cs, 0, drained).fault <==> Closers(cs) > 1
    decreases |cs|
  {
    if cs != [] {
      var s1 := Effect(s, id, cs[0], 0, drained);
      if cs[0] == CloseCallback || cs[0] == ReadCallback {
        ClosedDispatch(s1, id, cs[1..], drained);
      } else {
        OpenDispatch(s1, id, cs[1..], drained);
      }
    }
  }

  lemma {:induction false} ClosersConcat(a: seq<Callback>, b: seq<Callback>)
    ensures Closers(a + b) == Closers(a) + Closers(b)
    decreases |a|
  {
    if a == [] {
      assert a + b == b;
    } else {
      assert (a + b)[1..] == a[1..] + b;
      ClosersConcat(a[1..], b);
    }
  }

  /**
    The event hypothesis is exact: when the peer's stream has ended, handling an event of an open connection violates
    the assertion of handleClose precisely when the event is a hang-up without POLLIN that carries POLLPRI or POLLRDHUP.
   */
  lemma SecondCloseIff(s: State, id: nat, e: Events, drained: bool)
    requires Inv(s) && id in s.conns && Open(s.conns[id])
    ensures DispatchAll(s, id, Callbacks(e), 0, drained).fault <==> !HupAlone(e)
  {
    hide Inv;
    Basics(s);
    GetConn(s, id);
    OpenDispatch(s, id, Callbacks(e), drained);
    var close := if e.hup && !e.pollIn then [CloseCallback] else [];
    var error := if e.err || e.nval then [ErrorCallback] else [];
    var read := if e.pollIn || e.pri || e.rdhup then [ReadCallback] else [];
    var write := if e.out then [WriteCallback] else [];
    ClosersConcat(close + error + read, write);
    ClosersConcat(close + error, read);
    ClosersConcat(close, error);
  }
}
