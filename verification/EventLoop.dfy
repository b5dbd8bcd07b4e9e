/**
  The event loop's task queue: other threads push functors and wake the loop through an eventfd, the loop thread polls,
  handles events, swaps the queue out and runs it. Pushing and waking are separate steps, as are the test of `quit_` and
  the poll, so that every interleaving of the threads is a run.
 */
module EventLoop {
  type Functor = nat
  type Thread = nat

  datatype Place =
    | Testing        // about to test quit_
    | Polling        // in poller_->poll
    | Handling       // in the handlers of active channels
    | Swapping       // in doPendingFunctors, before the swap
    | Running        // running the functors swapped out
    | Finished

  datatype State = State(
    place: Place,
    quit: bool,
    calling: bool,              // callingPendingFunctors_
    pending: seq<Functor>,
    batch: seq<Functor>,        // swapped out, not yet run
    done: seq<Functor>,
    pushed: seq<Functor>,       // every functor, in push order
    counter: nat,               // of the eventfd; readable when positive
    waking: set<Thread>,        // between their push (or quit) and their write to the eventfd
    loopWaking: bool)           // the same for the loop thread itself

  datatype Step =
    | Push(t: Thread, f: Functor)      // queueInLoop in another thread, up to the end of the critical section
    | Quit(t: Thread)                  // quit in another thread, before its wakeup
    | Wakeup(t: Thread)
    | LoopPush(f: Functor)             // queueInLoop in a callback of the loop
    | LoopWakeup
    | LoopQuit
    | TestQuit
    | PollReturns
    | ReadEventFd                      // EventLoop::handleRead
    | EndHandling
    | Swap
    | RunNext
    | EndRunning

  predicate InCallback(s: State) {
    (s.place == Handling || s.place == Running) && !s.loopWaking
  }

  function Apply(s: State, step: Step): State {
    match step
    case Push(t, f) => if t in s.waking then s else
      s.(pending := s.pending + [f], pushed := s.pushed + [f], waking := s.waking + {t})
    case Quit(t) => if t in s.waking then s else s.(quit := true, waking := s.waking + {t})
    case Wakeup(t) => if t in s.waking then s.(counter := s.counter + 1, waking := s.waking - {t}) else s
    case LoopPush(f) => if !InCallback(s) then s else
      s.(pending := s.pending + [f], pushed := s.pushed + [f], loopWaking := s.calling)
    case LoopWakeup => if s.loopWaking then s.(counter := s.counter + 1, loopWaking := false) else s
    case LoopQuit => if InCallback(s) then s.(quit := true) else s
    case TestQuit => if s.place != Testing then s else s.(place := if s.quit then Finished else Polling)
    case PollReturns => if s.place == Polling then s.(place := Handling) else s
    case ReadEventFd => if s.place == Handling then s.(counter := 0) else s
    case EndHandling => if s.place == Handling && !s.loopWaking then s.(place := Swapping, calling := true) else s
    case Swap => if s.place != Swapping then s else s.(place := Running, batch := s.pending, pending := [])
    case RunNext => if !InCallback(s) || s.place != Running || s.batch == [] then s else
      s.(done := s.done + [s.batch[0]], batch := s.batch[1..])
    case EndRunning => if !InCallback(s) || s.place != Running || s.batch != [] then s else
      s.(place := Testing, calling := false)
  }

  function Run(s: State, steps: seq<Step>): State
    decreases |steps|
  {
    if steps == [] then s else Run(Apply(s, steps[0]), steps[1..])
  }

  /** At the start of `loop`: functors queued by its own thread beforehand, and wakeups already written. */
  function Init(queued: seq<Functor>, counter: nat): State {
    State(Testing, false, false, queued, [], [], queued, counter, {}, false)
  }

  /** The eventfd is readable, or someone is about to write it. */
  predicate Awake(s: State) {
    s.counter > 0 || s.waking != {} || s.loopWaking
  }

  /** Functors run in the order they were pushed: those run, the rest of the batch and the queue make up that order. */
  ghost predicate InOrder(s: State) {
    s.done + s.batch + s.pending == s.pushed && (s.batch != [] ==> s.place == Running)
  }

  ghost predicate Inv(s: State) {
    && InOrder(s)
    && (s.calling <==> s.place == Swapping || s.place == Running)
    && (s.loopWaking ==> s.place == Running)
    && (s.pending != [] && (s.place == Running || s.place == Testing || s.place == Polling) ==> Awake(s))
    && (s.quit && s.place == Polling ==> Awake(s))
  }

  lemma OrderStep(s: State, step: Step)
    requires InOrder(s)
    ensures InOrder(Apply(s, step)) && s.done <= Apply(s, step).done
  {
    match step
    case Push(t, f) => assert s.done + s.batch + (s.pending + [f]) == (s.done + s.batch + s.pending) + [f];
    case LoopPush(f) => assert s.done + s.batch + (s.pending + [f]) == (s.done + s.batch + s.pending) + [f];
    case RunNext =>
      if s.batch != [] {
        assert s.done + [s.batch[0]] + s.batch[1..] + s.pending == s.done + s.batch + s.pending;
      }
    case _ =>
  }

  /** From any state that is in order, whether or not a wakeup is under way. */
  lemma {:induction false} PushOrder(s: State, steps: seq<Step>)
    requires InOrder(s)
    ensures InOrder(Run(s, steps)) && s.done <= Run(s, steps).done
    decreases |steps|
  {
    hide InOrder, Apply;
    if steps != [] {
      OrderStep(s, steps[0]);
      PushOrder(Apply(s, steps[0]), steps[1..]);
    }
  }

  lemma ApplyKeeps(s: State, step: Step)
    requires Inv(s)
    ensures Inv(Apply(s, step))
  {
    OrderStep(s, step);
    match step
    case Push(t, f) => assert t in s.waking + {t};
    case Quit(t) => assert t in s.waking + {t};
    case _ =>
  }

  lemma {:induction false} RunKeeps(s: State, steps: seq<Step>)
    requires Inv(s)
    ensures Inv(Run(s, steps))
    decreases |steps|
  {
    if steps != [] {
      ApplyKeeps(s, steps[0]);
      RunKeeps(Apply(s, steps[0]), steps[1..]);
    }
  }

  /** In the poll with work to do or a request to quit, and nothing to end the poll. */
  predicate Stuck(s: State) {
    s.place == Polling && (s.pending != [] || s.quit) && s.counter == 0 && s.waking == {}
  }

  /**
    The loop never blocks in poll on pending functors or after quit unless the eventfd is readable or a thread is about to
    write it; this holds of every run exactly when the loop thread queued nothing before `loop` that no wakeup follows.
   */
  lemma NeverStuckIff(queued: seq<Functor>, counter: nat)
    ensures (forall steps: seq<Step> :: !Stuck(Run(Init(queued, counter), steps))) <==> queued == [] || counter > 0
  {
    var s := Init(queued, counter);
    if queued == [] || counter > 0 {
      forall steps: seq<Step> ensures !Stuck(Run(s, steps)) {
        RunKeeps(s, steps);
      }
    } else {
      assert Run(s, [TestQuit]) == Run(Apply(s, TestQuit), []);
      assert Stuck(Run(s, [TestQuit]));
    }
  }

  /** Whatever a poll returns for, the pass that follows runs everything pushed before its swap. */
  lemma SwapTakesAll(s: State)
    requires Inv(s) && s.place == Swapping
    ensures var s' := Apply(s, Swap); s'.done + s'.batch == s.pushed && s'.pending == []
  {
    ApplyKeeps(s, Swap);
    var s' := Apply(s, Swap);
    assert s'.done + s'.batch + s'.pending == s'.done + s'.batch;
  }

  // ---------- what a run owes to its calls ----------

  /** The functors a step hands to queueInLoop: by a thread not still waking the loop, or by a callback of the loop. */
  function HandedIn(s: State, step: Step): seq<Functor> {
    match step
    case Push(t, f) => if t in s.waking then [] else [f]
    case LoopPush(f) => if InCallback(s) then [f] else []
    case _ => []
  }

  function AllHandedIn(s: State, steps: seq<Step>): seq<Functor>
    decreases |steps|
  {
    if steps == [] then [] else HandedIn(s, steps[0]) + AllHandedIn(Apply(s, steps[0]), steps[1..])
  }

  lemma {:induction false} PushedAll(s: State, steps: seq<Step>)
    ensures Run(s, steps).pushed == s.pushed + AllHandedIn(s, steps)
    decreases |steps|
  {
    if steps != [] {
      var s' := Apply(s, steps[0]);
      assert s'.pushed == s.pushed + HandedIn(s, steps[0]);
      PushedAll(s', steps[1..]);
      assert s.pushed + HandedIn(s, steps[0]) + AllHandedIn(s', steps[1..]) == s.pushed + AllHandedIn(s, steps);
    }
  }

  /** Every functor handed in, and no other, has run, is in the batch being run or is pending, in the order handed in. */
  lemma NoFunctorLost(queued: seq<Functor>, counter: nat, steps: seq<Step>)
    ensures var s := Run(Init(queued, counter), steps);
      s.done + s.batch + s.pending == queued + AllHandedIn(Init(queued, counter), steps)
  {
    PushOrder(Init(queued, counter), steps);
    PushedAll(Init(queued, counter), steps);
  }

  /** A step asks the loop to quit. */
  predicate AsksQuit(s: State, step: Step) {
    (step.Quit? && step.t !in s.waking) || (step.LoopQuit? && InCallback(s))
  }

  predicate QuitAsked(s: State, steps: seq<Step>)
    decreases |steps|
  {
    steps != [] && (AsksQuit(s, steps[0]) || QuitAsked(Apply(s, steps[0]), steps[1..]))
  }

  /** The loop ends only if quit was asked for, and the next test of quit_ then ends it. */
  lemma {:induction false} QuitsWhenAsked(s: State, steps: seq<Step>)
    requires s.place == Finished ==> s.quit
    ensures var s' := Run(s, steps);
      && s'.quit == (s.quit || QuitAsked(s, steps))
      && (s'.place == Finished ==> s'.quit)
      && (s'.place == Testing ==> (Apply(s', TestQuit).place == Finished <==> s'.quit))
    decreases |steps|
  {
    if steps != [] {
      var s' := Apply(s, steps[0]);
      assert s'.quit == (s.quit || AsksQuit(s, steps[0]));
      assert s'.place == Finished ==> s'.quit;
      QuitsWhenAsked(s', steps[1..]);
    }
  }

  /** Wakeups add to the eventfd one by one, and the loop's read empties it. */
  lemma EventFdCounts(s: State, step: Step)
    ensures Apply(s, step).counter ==
              if (step.Wakeup? && step.t in s.waking) || (step.LoopWakeup? && s.loopWaking) then s.counter + 1
              else if step.ReadEventFd? && s.place == Handling then 0
              else s.counter
  {
  }

  // ---------- a pass of the loop ----------

  function Times(step: Step, n: nat): seq<Step> {
    if n == 0 then [] else [step] + Times(step, n - 1)
  }

  /** Left to itself the loop runs the rest of its batch, in order. */
  lemma {:induction false} BatchDrains(s: State)
    requires s.place == Running && !s.loopWaking
    ensures Run(s, Times(RunNext, |s.batch|)) == s.(done := s.done + s.batch, batch := [])
    decreases |s.batch|
  {
    if s.batch == [] {
      assert s.done + s.batch == s.done;
    } else {
      var s' := Apply(s, RunNext);
      assert s'.done + s'.batch == s.done + s.batch;
      assert Times(RunNext, |s.batch|)[1..] == Times(RunNext, |s'.batch|);
      BatchDrains(s');
    }
  }

  /** So a pass that nobody adds to, from one test of quit_ to the next, runs everything pushed so far. */
  lemma PassRunsEverything(s: State)
    requires Inv(s) && s.place == Testing && !s.quit
    ensures var handling := Apply(Apply(s, TestQuit), PollReturns);
            var swapped := Apply(Apply(handling, EndHandling), Swap);
            var drained := Run(swapped, Times(RunNext, |swapped.batch|));
            var end := Apply(drained, EndRunning);
      && handling.place == Handling && handling == s.(place := Handling)
      && end.done == s.pushed && end.pending == [] && end.batch == [] && end.place == Testing
  {
    var swapped := Apply(Apply(s.(place := Handling), EndHandling), Swap);
    assert !s.loopWaking && s.batch == [];
    BatchDrains(swapped);
    assert s.done + [] + s.pending == s.done + s.pending;
  }
}
