/**
  Where the lifecycle ends to hold. disableAll on a channel without interest puts its descriptor back into the epoll set, so
  a connection closed in that state still hears of a hang-up, and handleClose asserts that it is open.
 */
module LifecycleLimits {
  import opened Common
  import opened Lifecycle
  import opened LifecycleProofs
  import PollerTables

  // ---------- the machine's watching is the pollers' ----------

  lemma UpdateIsEpoll(e: PollerTables.EpollTable, fd: nat, events: nat, c: Conn, reading: bool, writing: bool)
    requires PollerTables.EpollOk(e) && (c.watched <==> fd in e.kernel) && (events != 0 <==> reading || writing)
    ensures Update(true, c, reading, writing).watched <==> fd in PollerTables.EpollUpdate(e, fd, events).kernel
  {
  }

  lemma UpdateIsPoll(p: PollerTables.PollTable, fd: nat, events: nat, c: Conn, reading: bool, writing: bool)
    requires PollerTables.PollOk(p) && (fd in p.index || events != 0) && (events != 0 <==> reading || writing)
    ensures PollerTables.PollOk(PollerTables.PollUpdate(p, fd, events)) && fd in PollerTables.PollUpdate(p, fd, events).index
    ensures Update(false, c, reading, writing).watched <==> !PollerTables.Ignored(PollerTables.PollUpdate(p, fd, events), fd)
  {
    PollerTables.PollUpdateOk(p, fd, events);
  }

  // ---------- a close without interest ----------

  const NO_EVENTS := Events(false, false, false, false, false, false, false)
  const HANG_UP := NO_EVENTS.(hup := true)

  /** A closed connection of loop `l` that the kernel still reports on, and nothing under way in the loop that closes one. */
  ghost predicate Haunted(s: State, l: nat, id: nat) {
    && !s.fault && l < |s.loops| && id in s.conns
    && s.conns[id].loop == l && s.conns[id].state == Disconnected && s.conns[id].registered && s.conns[id].watched
    && (s.loops[l].current.Some? ==> !MayClose(s.loops[l].current.value.callbacks))
  }

  /** The loop finishes what it is doing, polls, and is told of the hang-up. */
  lemma HangUpFaults(s: State, l: nat, id: nat) returns (more: seq<Step>)
    requires Haunted(s, l, id) && Resting(s, l)
    ensures NeverClosesIdle(s, more) && Run(s, more).fault
  {
    var a, b, c := Poll(l, [id]), HandleEvent(l, HANG_UP), RunCallback(l, 1, false);
    var s1 := Apply(s, a);
    assert CanReport(s, l, [id]) && s1.loops[l].active == [id];
    assert Callbacks(HANG_UP) == [CloseCallback];
    var s2 := Apply(s1, b);
    assert s2.loops[l].current == Some(Dispatch(id, [CloseCallback]));
    var s3 := Apply(s2, c);
    assert s3.fault && !ClosesIdle(s2, c);
    more := [a, b, c];
    assert more[1..] == [b, c] && [b, c][1..] == [c] && [c][1..] == [];
    assert Run(s3, []) == s3 && Run(s2, [c]) == s3 && Run(s1, [b, c]) == s3;
    assert NeverClosesIdle(s2, [c]) && NeverClosesIdle(s1, [b, c]);
  }

  lemma {:induction false} HauntedFaults(s: State, l: nat, id: nat) returns (more: seq<Step>)
    requires Haunted(s, l, id)
    ensures NeverClosesIdle(s, more) && Run(s, more).fault
    decreases |s.loops[l].active|, if s.loops[l].current.Some? then 1 + |s.loops[l].current.value.callbacks| else 0
  {
    if Resting(s, l) {
      more := HangUpFaults(s, l, id);
    } else {
      var step := if s.loops[l].current.Some? then RunCallback(l, 1, false) else HandleEvent(l, NO_EVENTS);
      var s' := Apply(s, step);
      assert s'.conns == s.conns && !ClosesIdle(s, step);
      var rest := HauntedFaults(s', l, id);
      more := [step] + rest;
      assert more[1..] == rest;
    }
  }

  /** An open connection is in the table and known to its poller. */
  lemma OpenFacts(s: State, id: nat)
    requires Inv(s) && id in s.conns && Open(s.conns[id])
    ensures id in s.table && s.conns[id].registered && s.conns[id].loop < |s.loops|
    ensures s.conns[id].watched == HasInterest(s.conns[id])
  {
    hide Inv, LoopOk;
    Basics(s);
    GetConn(s, id);
  }

  /** handleClose on a channel without interest, under epoll. */
  lemma IdleCloseWatches(s: State, id: nat)
    requires s.epoll && !s.fault && 0 < |s.loops| && id in s.conns && Open(s.conns[id]) && id in s.table
    requires !HasInterest(s.conns[id]) && !s.conns[id].watched && s.conns[id].registered && s.conns[id].loop < |s.loops|
    ensures var s' := DoClose(s, id);
      && !s'.fault && |s'.loops| == |s.loops| && id in s'.conns
      && s'.conns[id].loop == s.conns[id].loop && s'.conns[id].state == Disconnected
      && s'.conns[id].registered && s'.conns[id].watched
      && (forall k | 0 <= k < |s.loops| :: s'.loops[k].active == s.loops[k].active && s'.loops[k].current == s.loops[k].current)
  {
  }

  lemma TaskHaunts(s: State, l: nat)
    requires Inv(s) && s.epoll && ClosesIdle(s, RunTask(l))
    ensures Haunted(Apply(s, RunTask(l)), l, Closing(s, RunTask(l)).value)
  {
    hide Inv, LoopOk, DoClose, ConnOk;
    var id := s.loops[l].queue[0].id;
    Basics(s);
    GetTask(s, l);
    OpenFacts(s, id);
    var s1 := s.(loops := s.loops[l := s.loops[l].(queue := s.loops[l].queue[1..])]);
    IdleCloseWatches(s1, id);
    assert Apply(s, RunTask(l)) == DoClose(s1, id);
  }

  lemma CallbackHaunts(s: State, l: nat, n: int, drained: bool)
    requires Inv(s) && s.epoll && ClosesIdle(s, RunCallback(l, n, drained))
    ensures Haunted(Apply(s, RunCallback(l, n, drained)), l, Closing(s, RunCallback(l, n, drained)).value)
  {
    hide Inv, LoopOk, DoClose, ConnOk;
    var d := s.loops[l].current.value;
    Basics(s);
    OpenFacts(s, d.id);
    ClosingIsQuiet(s, l);
    var s1 := s.(loops := s.loops[l := s.loops[l].(current := Some(d.(callbacks := d.callbacks[1..])))]);
    IdleCloseWatches(s1, d.id);
    assert Apply(s, RunCallback(l, n, drained)) == DoClose(s1, d.id);
  }

  /**
    The hypothesis of LivesOnce is exact. After any step from a state reached so far without fault, every run that closes no
    idle connection goes on without fault if and only if the step itself did not close one, or the poller is poll.
   */
  lemma IdleCloseIff(s: State, step: Step)
    requires Inv(s)
    ensures (forall more | NeverClosesIdle(Apply(s, step), more) :: !Run(Apply(s, step), more).fault) <==>
              !(s.epoll && ClosesIdle(s, step))
  {
    hide Inv, Apply, Haunted;
    if !(s.epoll && ClosesIdle(s, step)) {
      ApplySettles(s, step);
      forall more | NeverClosesIdle(Apply(s, step), more) ensures !Run(Apply(s, step), more).fault {
        RunSettles(Apply(s, step), more);
        Basics(Run(Apply(s, step), more));
      }
    } else {
      var l := step.l;
      var id := Closing(s, step).value;
      if step.RunTask? {
        TaskHaunts(s, l);
      } else {
        CallbackHaunts(s, l, step.n, step.drained);
      }
      var more := HauntedFaults(Apply(s, step), l, id);
      assert NeverClosesIdle(Apply(s, step), more) && Run(Apply(s, step), more).fault;
    }
  }

  // ---------- which programs are safe ----------

  /** Reading is never stopped. */
  predicate NeverStops(steps: seq<Step>) {
    forall i | 0 <= i < |steps| :: !(steps[i].User? && steps[i].action == StopRead)
  }

  ghost predicate OpenIsReading(s: State) {
    forall id | id in s.conns && Open(s.conns[id]) :: s.conns[id].reading
  }

  lemma PushKeepsReading(s: State, l: nat, t: Task)
    requires OpenIsReading(s)
    ensures OpenIsReading(Push(s, l, t))
  {
  }

  lemma RemoveKeepsReading(s: State, id: nat)
    requires OpenIsReading(s)
    ensures OpenIsReading(DoRemove(s, id))
  {
  }

  lemma CloseKeepsReading(s: State, id: nat)
    requires OpenIsReading(s)
    ensures OpenIsReading(DoClose(s, id))
  {
    if id in s.conns && Open(s.conns[id]) {
      var c := s.conns[id];
      var s1 := Put(s, id, Update(s.epoll, c, false, false).(state := Disconnected, closed := c.closed + 1, down := c.down + 1));
      assert OpenIsReading(s1);
      RemoveKeepsReading(s1, id);
      PushKeepsReading(s1, 0, Remove(id));
      assert DoClose(s, id) == if c.loop == 0 then DoRemove(s1, id) else Push(s1, 0, Remove(id));
      hide DoClose, DoRemove, Push, OpenIsReading;
    }
  }

  lemma TaskKeepsReading(s: State, t: Task)
    requires OpenIsReading(s)
    ensures OpenIsReading(DoTask(s, t))
  {
    RemoveKeepsReading(s, t.id);
    CloseKeepsReading(s, t.id);
    hide DoRemove, DoClose;
  }

  lemma EffectKeepsReading(s: State, id: nat, cb: Callback, n: int, drained: bool)
    requires OpenIsReading(s)
    ensures OpenIsReading(Effect(s, id, cb, n, drained))
  {
    CloseKeepsReading(s, id);
    hide DoClose;
  }

  lemma AcceptKeepsReading(s: State, loop: nat)
    requires OpenIsReading(s)
    ensures OpenIsReading(DoAccept(s, loop))
  {
  }

  lemma ReadingStays(s: State, step: Step)
    requires OpenIsReading(s) && !(step.User? && step.action == StopRead)
    ensures OpenIsReading(Apply(s, step))
  {
    hide DoTask, Effect;
    match step
    case Accept(loop) => AcceptKeepsReading(s, loop);
    case RunCallback(l, n, drained) =>
      if l < |s.loops| && s.loops[l].current.Some? && s.loops[l].current.value.callbacks != [] {
        var d := s.loops[l].current.value;
        var s1 := s.(loops := s.loops[l := s.loops[l].(current := Some(d.(callbacks := d.callbacks[1..])))]);
        EffectKeepsReading(s1, d.id, d.callbacks[0], n, drained);
      }
    case RunTask(l) =>
      if Resting(s, l) && s.loops[l].queue != [] {
        TaskKeepsReading(s.(loops := s.loops[l := s.loops[l].(queue := s.loops[l].queue[1..])]), s.loops[l].queue[0]);
      }
    case _ =>
  }

  lemma {:induction false} NeverStopsNeverIdle(s: State, steps: seq<Step>)
    requires OpenIsReading(s) && NeverStops(steps)
    ensures NeverClosesIdle(s, steps)
    decreases |steps|
  {
    if steps != [] {
      assert !ClosesIdle(s, steps[0]);
      hide Apply, ClosesIdle;
      ReadingStays(s, steps[0]);
      assert forall i | 0 <= i < |steps[1..]| :: steps[1..][i] == steps[i + 1];
      NeverStopsNeverIdle(Apply(s, steps[0]), steps[1..]);
    }
  }

  /** One connection, established in loop 0, that has stopped reading. */
  function Stopped(loopCount: nat): State {
    State(true, map[1 := Conn(0, Connected, false, false, true, false, 1, 1, 0, 0, 0, 0)], {1}, 2, Init(loopCount, true).loops, false)
  }

  lemma StopSteps(loopCount: nat)
    requires loopCount > 0
    ensures Apply(Apply(Init(loopCount, true), Accept(0)), User(1, StopRead)) == Stopped(loopCount)
  {
    var s1 := Apply(Init(loopCount, true), Accept(0));
    assert s1.table == {1} && s1.conns == map[1 := Conn(0, Connected, true, false, true, true, 1, 1, 0, 0, 0, 0)];
    assert Apply(s1, User(1, StopRead)).conns == Stopped(loopCount).conns;
  }

  lemma CloseSteps(loopCount: nat)
    requires loopCount > 0
    ensures Haunted(Apply(Apply(Stopped(loopCount), User(1, CallForceClose)), RunTask(0)), 0, 1)
  {
    var s3 := Apply(Stopped(loopCount), User(1, CallForceClose));
    assert s3.loops[0] == Loop([ForceClose(1)], [], None);
    var s4 := s3.(loops := s3.loops[0 := s3.loops[0].(queue := s3.loops[0].queue[1..])]);
    hide DoClose;
    IdleCloseWatches(s4, 1);
    assert Apply(s3, RunTask(0)) == DoClose(s4, 1);
  }

  /** Stopping to read and then closing: with epoll and any number of loops, a hang-up fails the assertion. */
  lemma StoppedThenClosedFaults(loopCount: nat) returns (steps: seq<Step>)
    requires loopCount > 0
    ensures Run(Init(loopCount, true), steps).fault
  {
    hide Apply, Haunted;
    var a, b, c, d := Accept(0), User(1, StopRead), User(1, CallForceClose), RunTask(0);
    StopSteps(loopCount);
    CloseSteps(loopCount);
    var s0 := Init(loopCount, true);
    var s1 := Apply(s0, a);
    var s2 := Apply(s1, b);
    var s3 := Apply(s2, c);
    var s4 := Apply(s3, d);
    var more := HauntedFaults(s4, 0, 1);
    steps := [a, b, c, d] + more;
    assert steps[1..] == [b, c, d] + more && steps[1..][1..] == [c, d] + more;
    assert ([c, d] + more)[1..] == [d] + more && ([d] + more)[1..] == more;
    assert Run(s0, steps) == Run(s1, [b, c, d] + more) == Run(s2, [c, d] + more) == Run(s3, [d] + more) == Run(s4, more);
  }

  /** Every program is safe with poll; with epoll, exactly those that never stop reading are, whatever else they do. */
  lemma NoFaultIff(loopCount: nat, epoll: bool, stops: bool)
    requires loopCount > 0
    ensures (forall steps | stops || NeverStops(steps) :: !Run(Init(loopCount, epoll), steps).fault) <==> !epoll || !stops
  {
    var s0 := Init(loopCount, epoll);
    assert Inv(s0);
    if epoll && stops {
      var steps := StoppedThenClosedFaults(loopCount);
      assert Run(s0, steps).fault;
    } else {
      hide Inv;
      forall steps | stops || NeverStops(steps) ensures !Run(s0, steps).fault {
        if !stops {
          NeverStopsNeverIdle(s0, steps);
        }
        RunSettles(s0, steps);
        Basics(Run(s0, steps));
      }
    }
  }
}
