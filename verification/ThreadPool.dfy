/**
  The thread pool as a monitor, from the return of `start` on. A step is one stretch under the mutex, one test of
  `running_` outside it, or the end of a task. The task that was pushed k-th is called ticket k.
 */
module ThreadPool {
  import opened Common

  type Task = nat
  type Thread = nat
  type Ticket = nat

  /** Where a worker is in runInThread. */
  datatype Place =
    | Testing            // about to test running_
    | Entering           // in take(), waiting for the mutex
    | Asleep             // in notEmpty_.wait()
    | Woken              // out of it, waiting for the mutex
    | Holding(k: Ticket) // running a task
    | Exited

  datatype State = State(
    max: nat,                    // maxQueueSize_; 0 means unbounded
    running: bool,
    queue: seq<Task>,
    place: map<Thread, Place>,   // of each worker
    blocked: set<Thread>,        // callers of run() in notFull_.wait()
    unblocked: set<Thread>,      // callers of run() out of it
    offer: map<Thread, Task>,    // the task each of them brings
    submitted: seq<Task>,        // every task pushed, in order
    taken: nat,                  // how many were taken
    finished: seq<Ticket>,       // tickets whose task has returned, in the order of returning
    ranInline: seq<Task>)        // tasks run by their submitter, for want of workers

  /** Where a step notifies, `wake` names the sleeper that is chosen. */
  datatype Step =
    | Submit(t: Thread, task: Task, wake: Thread)
    | SubmitAgain(t: Thread, wake: Thread)
    | TestRunning(w: Thread)
    | Take(w: Thread, wake: Thread)
    | Finish(w: Thread)
    | Stop
    | Spurious(t: Thread)

  function Init(max: nat, threads: set<Thread>): State {
    State(max, true, [], map w | w in threads :: Testing, {}, {}, map[], [], 0, [], [])
  }

  predicate At(s: State, w: Thread, p: Place) {
    w in s.place && s.place[w] == p
  }

  function Workers(place: map<Thread, Place>, p: Place): set<Thread> {
    set w | w in place && place[w] == p
  }

  predicate Full(s: State) {
    s.max > 0 && |s.queue| >= s.max
  }

  /** A notification reaches a sleeper if there is one. */
  predicate WakesWorker(s: State, wake: Thread) {
    Workers(s.place, Asleep) != {} ==> wake in Workers(s.place, Asleep)
  }

  predicate WakesSubmitter(s: State, wake: Thread) {
    s.blocked != {} ==> wake in s.blocked
  }

  /** `run` with the lock held. */
  function SubmitLocked(s: State, t: Thread, task: Task, wake: Thread): State {
    if Full(s) then s.(blocked := s.blocked + {t}, offer := s.offer[t := task])
    else s.(queue := s.queue + [task], submitted := s.submitted + [task],
            place := if At(s, wake, Asleep) then s.place[wake := Woken] else s.place)
  }

  /** `take` with the lock held. */
  function TakeLocked(s: State, w: Thread, wake: Thread): State {
    if s.queue == [] then s.(place := s.place[w := if s.running then Asleep else Testing])
    else
      var s := s.(queue := s.queue[1..], place := s.place[w := Holding(s.taken)], taken := s.taken + 1);
      if s.max > 0 && wake in s.blocked then s.(blocked := s.blocked - {wake}, unblocked := s.unblocked + {wake}) else s
  }

  function Apply(s: State, step: Step): State {
    match step
    case Submit(t, task, wake) =>
      if t in s.blocked || t in s.unblocked || !WakesWorker(s, wake) then s
      else if s.place == map[] then s.(ranInline := s.ranInline + [task])
      else SubmitLocked(s, t, task, wake)
    case SubmitAgain(t, wake) => if t in s.unblocked && t in s.offer && WakesWorker(s, wake) then
      SubmitLocked(s.(unblocked := s.unblocked - {t}), t, s.offer[t], wake) else s
    case TestRunning(w) =>
      if At(s, w, Testing) then s.(place := s.place[w := if s.running then Entering else Exited]) else s
    case Take(w, wake) =>
      if (At(s, w, Entering) || At(s, w, Woken)) && WakesSubmitter(s, wake) then TakeLocked(s, w, wake) else s
    case Finish(w) => if w in s.place && s.place[w].Holding? then
      s.(finished := s.finished + [s.place[w].k], place := s.place[w := Testing]) else s
    case Stop => s.(running := false, place := map w | w in s.place :: if s.place[w] == Asleep then Woken else s.place[w])
    case Spurious(t) =>
      if At(s, t, Asleep) then s.(place := s.place[t := Woken])
      else if t in s.blocked then s.(blocked := s.blocked - {t}, unblocked := s.unblocked + {t})
      else s
  }

  function Run(s: State, steps: seq<Step>): State
    decreases |steps|
  {
    if steps == [] then s else Run(Apply(s, steps[0]), steps[1..])
  }

  // ---------- what every step keeps ----------

  /** The queue is what was pushed and not yet taken, and respects a positive maximum. */
  ghost predicate Ordered(s: State) {
    && s.taken <= |s.submitted| && s.queue == s.submitted[s.taken..]
    && (s.max > 0 ==> |s.queue| <= s.max)
  }

  ghost predicate Held(s: State, k: Ticket) {
    exists w :: At(s, w, Holding(k))
  }

  /** Each ticket taken is in one worker's hands or finished once, and no other ticket is. */
  ghost predicate Custody(s: State) {
    && (forall w, k: Ticket | At(s, w, Holding(k)) :: k < s.taken && k !in s.finished)
    && (forall w, v, k: Ticket | At(s, w, Holding(k)) && At(s, v, Holding(k)) :: w == v)
    && (forall i, j | 0 <= i < j < |s.finished| :: s.finished[i] != s.finished[j])
    && (forall k | k in s.finished :: k < s.taken)
    && (forall k: Ticket | k < s.taken && k !in s.finished :: Held(s, k))
  }

  /** A sleeping worker has an awake one for each task. */
  ghost predicate WorkersAwake(s: State) {
    Workers(s.place, Asleep) != {} ==> s.running && |s.queue| <= |Workers(s.place, Woken)|
  }

  /** A blocked submitter has an unblocked one for each free place. */
  ghost predicate SubmittersAwake(s: State) {
    && (s.blocked != {} ==> s.max > 0 && s.max - |s.queue| <= |s.unblocked|)
    && (forall t | t in s.blocked :: t !in s.unblocked && t in s.offer)
    && (forall t | t in s.unblocked :: t in s.offer)
  }

  ghost predicate Inv(s: State) {
    Ordered(s) && Custody(s) && WorkersAwake(s) && SubmittersAwake(s)
  }

  /** The sets of sleeping and woken workers after one worker moves. */
  lemma Move(place: map<Thread, Place>, w: Thread, p: Place)
    ensures Workers(place[w := p], Asleep) == if p == Asleep then Workers(place, Asleep) + {w} else Workers(place, Asleep) - {w}
    ensures Workers(place[w := p], Woken) == if p == Woken then Workers(place, Woken) + {w} else Workers(place, Woken) - {w}
  {
  }

  /** Waking one sleeper: one fewer asleep, one more awake. */
  lemma WakeOne(place: map<Thread, Place>, w: Thread)
    requires w in Workers(place, Asleep)
    ensures Workers(place[w := Woken], Asleep) == Workers(place, Asleep) - {w}
    ensures |Workers(place[w := Woken], Woken)| == |Workers(place, Woken)| + 1
  {
    Move(place, w, Woken);
  }

  lemma CustodyTake(s: State, s': State, w: Thread)
    requires Custody(s) && w in s.place && !s.place[w].Holding?
    requires s'.place == s.place[w := Holding(s.taken)] && s'.finished == s.finished && s'.taken == s.taken + 1
    ensures Custody(s')
  {
    forall k: Ticket | k < s'.taken && k !in s'.finished ensures Held(s', k) {
      if k == s.taken {
        assert At(s', w, Holding(k));
      } else {
        var v :| At(s, v, Holding(k));
        assert At(s', v, Holding(k));
      }
    }
    forall v, k: Ticket | At(s', v, Holding(k)) && v != w ensures At(s, v, Holding(k)) {
    }
  }

  lemma CustodyFinish(s: State, s': State, w: Thread)
    requires Custody(s) && w in s.place && s.place[w].Holding?
    requires s'.place == s.place[w := Testing] && s'.finished == s.finished + [s.place[w].k] && s'.taken == s.taken
    ensures Custody(s')
  {
    assert At(s, w, Holding(s.place[w].k));
    forall k: Ticket | k < s'.taken && k !in s'.finished ensures Held(s', k) {
      assert k !in s.finished;
      var v :| At(s, v, Holding(k));
      assert s.place[w].k in s'.finished;
      assert At(s', v, Holding(k));
    }
    forall v, k: Ticket | At(s', v, Holding(k)) ensures At(s, v, Holding(k)) {
    }
  }

  lemma CustodySame(s: State, s': State)
    requires Custody(s) && s'.finished == s.finished && s'.taken == s.taken
    requires forall w, k: Ticket :: At(s', w, Holding(k)) <==> At(s, w, Holding(k))
    ensures Custody(s')
  {
    forall k: Ticket | Held(s, k) ensures Held(s', k) {
      var w :| At(s, w, Holding(k));
      assert At(s', w, Holding(k));
    }
  }

  lemma CustodyMove(s: State, s': State, w: Thread)
    requires Custody(s) && s'.finished == s.finished && s'.taken == s.taken
    requires w in s.place && !s.place[w].Holding?
    requires w in s'.place && !s'.place[w].Holding? && s'.place == s.place[w := s'.place[w]]
    ensures Custody(s')
  {
    CustodySame(s, s');
  }

  lemma SubmitLockedKeeps(s: State, t: Thread, task: Task, wake: Thread)
    requires Ordered(s) && Custody(s) && WorkersAwake(s) && WakesWorker(s, wake) && t !in s.unblocked
    requires s.blocked != {} ==> s.max > 0 && s.max - |s.queue| <= |s.unblocked| + 1
    requires forall t | t in s.blocked :: t !in s.unblocked && t in s.offer
    requires forall t | t in s.unblocked :: t in s.offer
    ensures Inv(SubmitLocked(s, t, task, wake))
  {
    var s' := SubmitLocked(s, t, task, wake);
    CustodySame(s, s');
    if At(s, wake, Asleep) {
      WakeOne(s.place, wake);
    }
    assert At(s, wake, Asleep) <==> wake in Workers(s.place, Asleep);
    hide Custody, Workers;
    if !Full(s) {
      assert (s.submitted + [task])[s.taken..] == s.submitted[s.taken..] + [task];
    }
  }

  lemma TakeCustody(s: State, w: Thread, wake: Thread)
    requires Custody(s) && w in s.place && !s.place[w].Holding?
    ensures Custody(TakeLocked(s, w, wake))
  {
    var s' := TakeLocked(s, w, wake);
    if s.queue == [] {
      CustodyMove(s, s', w);
    } else {
      CustodyTake(s, s', w);
    }
  }

  lemma TakeWorkers(s: State, w: Thread, wake: Thread)
    requires WorkersAwake(s) && (At(s, w, Entering) || At(s, w, Woken))
    ensures WorkersAwake(TakeLocked(s, w, wake))
  {
    Move(s.place, w, TakeLocked(s, w, wake).place[w]);
  }

  lemma TakeSubmitters(s: State, w: Thread, wake: Thread)
    requires SubmittersAwake(s) && WakesSubmitter(s, wake)
    ensures SubmittersAwake(TakeLocked(s, w, wake))
  {
  }

  lemma TakeOrdered(s: State, w: Thread, wake: Thread)
    requires Ordered(s)
    ensures Ordered(TakeLocked(s, w, wake))
  {
  }

  lemma TakeLockedKeeps(s: State, w: Thread, wake: Thread)
    requires Inv(s) && (At(s, w, Entering) || At(s, w, Woken)) && WakesSubmitter(s, wake)
    ensures Inv(TakeLocked(s, w, wake))
  {
    hide Custody, WorkersAwake, SubmittersAwake, Ordered, TakeLocked;
    TakeCustody(s, w, wake);
    TakeWorkers(s, w, wake);
    TakeSubmitters(s, w, wake);
    TakeOrdered(s, w, wake);
  }

  lemma ApplyKeeps(s: State, step: Step)
    requires Inv(s)
    ensures Inv(Apply(s, step))
  {
    match step
    case Submit(t, task, wake) => SubmitKeeps(s, t, task, wake);
    case SubmitAgain(t, wake) => SubmitAgainKeeps(s, t, wake);
    case TestRunning(w) => TestRunningKeeps(s, w);
    case Take(w, wake) =>
      if (At(s, w, Entering) || At(s, w, Woken)) && WakesSubmitter(s, wake) { TakeLockedKeeps(s, w, wake); }
    case Finish(w) => FinishKeeps(s, w);
    case Stop => StopKeeps(s);
    case Spurious(t) => SpuriousKeeps(s, t);
  }

  lemma SubmitKeeps(s: State, t: Thread, task: Task, wake: Thread)
    requires Inv(s)
    ensures Inv(Apply(s, Submit(t, task, wake)))
  {
    if t !in s.blocked && t !in s.unblocked && WakesWorker(s, wake) {
      SubmitLockedKeeps(s, t, task, wake);
      CustodySame(s, s.(ranInline := s.ranInline + [task]));
    }
    hide Custody, SubmitLocked, Workers;
  }

  lemma SubmitAgainKeeps(s: State, t: Thread, wake: Thread)
    requires Inv(s)
    ensures Inv(Apply(s, SubmitAgain(t, wake)))
  {
    var s' := s.(unblocked := s.unblocked - {t});
    CustodySame(s, s');
    hide Custody, SubmitLocked;
    if t in s.unblocked && WakesWorker(s, wake) {
      SubmitLockedKeeps(s', t, s.offer[t], wake);
    }
  }

  lemma TestRunningKeeps(s: State, w: Thread)
    requires Inv(s)
    ensures Inv(Apply(s, TestRunning(w)))
  {
    if At(s, w, Testing) {
      CustodyMove(s, Apply(s, TestRunning(w)), w);
    }
    hide Custody;
    Move(s.place, w, if s.running then Entering else Exited);
  }

  lemma FinishKeeps(s: State, w: Thread)
    requires Inv(s)
    ensures Inv(Apply(s, Finish(w)))
  {
    if w in s.place && s.place[w].Holding? {
      CustodyFinish(s, Apply(s, Finish(w)), w);
    }
    hide Custody;
    Move(s.place, w, Testing);
  }

  lemma StopKeeps(s: State)
    requires Inv(s)
    ensures Inv(Apply(s, Stop)) && Workers(Apply(s, Stop).place, Asleep) == {}
  {
    CustodySame(s, Apply(s, Stop));
    hide Custody;
  }

  lemma SpuriousKeeps(s: State, t: Thread)
    requires Inv(s)
    ensures Inv(Apply(s, Spurious(t)))
  {
    if At(s, t, Asleep) {
      WorkerWakes(s, t);
    } else {
      SubmitterWakes(s, t);
    }
  }

  lemma WorkerWakes(s: State, w: Thread)
    requires Inv(s) && At(s, w, Asleep)
    ensures Inv(s.(place := s.place[w := Woken]))
  {
    CustodyMove(s, s.(place := s.place[w := Woken]), w);
    WakeOne(s.place, w);
    assert w in Workers(s.place, Asleep);
    hide Custody, Workers;
  }

  lemma SubmitterWakes(s: State, t: Thread)
    requires Inv(s) && !At(s, t, Asleep)
    ensures Inv(Apply(s, Spurious(t)))
  {
    CustodySame(s, Apply(s, Spurious(t)));
    hide Custody, Workers;
  }

  lemma InitInv(max: nat, threads: set<Thread>)
    ensures Inv(Init(max, threads))
  {
  }

  lemma {:induction false} RunKeeps(s: State, steps: seq<Step>)
    requires Inv(s)
    ensures Inv(Run(s, steps))
    decreases |steps|
  {
    hide Inv, Apply;
    if steps != [] {
      ApplyKeeps(s, steps[0]);
      RunKeeps(Apply(s, steps[0]), steps[1..]);
    }
  }

  // ---------- over whole runs ----------

  /** In which of its three places a submitted task is. */
  datatype Where = Queued | InHands(w: Thread) | Done

  ghost predicate IsAt(s: State, k: Ticket, place: Where) {
    match place
    case Queued => s.taken <= k < |s.submitted|
    case InHands(w) => At(s, w, Holding(k))
    case Done => k in s.finished
  }

  /** Every submitted task is in the queue, in one worker's hands or finished, and in one of these only. */
  lemma OnePlace(max: nat, threads: set<Thread>, steps: seq<Step>, k: Ticket)
    requires k < |Run(Init(max, threads), steps).submitted|
    ensures exists p :: IsAt(Run(Init(max, threads), steps), k, p)
    ensures forall p, q | IsAt(Run(Init(max, threads), steps), k, p) && IsAt(Run(Init(max, threads), steps), k, q) :: p == q
  {
    InitInv(max, threads);
    RunKeeps(Init(max, threads), steps);
    var s := Run(Init(max, threads), steps);
    if k >= s.taken {
      assert IsAt(s, k, Queued);
    } else if k in s.finished {
      assert IsAt(s, k, Done);
    } else {
      var w :| At(s, w, Holding(k));
      assert IsAt(s, k, InHands(w));
    }
  }

  /** Tasks leave in the order of submission; the queue respects its bound; no sleeper is forgotten. */
  lemma PoolCorrect(max: nat, threads: set<Thread>, steps: seq<Step>)
    ensures var s := Run(Init(max, threads), steps);
      && s.taken <= |s.submitted| && s.queue == s.submitted[s.taken..]
      && (s.max > 0 ==> |s.queue| <= s.max)
      && (s.queue != [] && Workers(s.place, Asleep) != {} ==> Workers(s.place, Woken) != {})
      && (!Full(s) && s.blocked != {} ==> s.unblocked != {})
      && (!s.running ==> Workers(s.place, Asleep) == {})
  {
    InitInv(max, threads);
    RunKeeps(Init(max, threads), steps);
    hide Custody, Workers;
  }

  // ---------- which tasks ----------

  /** The task of the run() each thread is in, from the calls alone. */
  function Given(s: State, given: map<Thread, Task>, step: Step): map<Thread, Task> {
    if Calls(s, step) then given[step.t := step.task] else given
  }

  /** A call of run() by a thread that is not in one already. */
  predicate Calls(s: State, step: Step) {
    step.Submit? && step.t !in s.blocked && step.t !in s.unblocked && WakesWorker(s, step.wake)
  }

  /** The task a step must push: that of the thread whose run() finds room. */
  function Brought(s: State, given: map<Thread, Task>, step: Step): seq<Task> {
    if Full(s) then []
    else if Calls(s, step) && s.place != map[] then [step.task]
    else if step.SubmitAgain? && step.t in s.unblocked && step.t in given && WakesWorker(s, step.wake) then [given[step.t]]
    else []
  }

  /** The task a step must run in its caller: there are no workers. */
  function Inlined(s: State, step: Step): seq<Task> {
    if Calls(s, step) && s.place == map[] then [step.task] else []
  }

  function AllBrought(s: State, given: map<Thread, Task>, steps: seq<Step>): seq<Task>
    decreases |steps|
  {
    if steps == [] then [] else
    Brought(s, given, steps[0]) + AllBrought(Apply(s, steps[0]), Given(s, given, steps[0]), steps[1..])
  }

  function AllInlined(s: State, steps: seq<Step>): seq<Task>
    decreases |steps|
  {
    if steps == [] then [] else Inlined(s, steps[0]) + AllInlined(Apply(s, steps[0]), steps[1..])
  }

  ghost predicate Carrying(s: State, given: map<Thread, Task>) {
    forall t | t in s.blocked || t in s.unblocked :: t in given && t in s.offer && s.offer[t] == given[t]
  }

  lemma StepBrings(s: State, given: map<Thread, Task>, step: Step)
    requires Carrying(s, given)
    ensures Carrying(Apply(s, step), Given(s, given, step))
    ensures Apply(s, step).submitted == s.submitted + Brought(s, given, step)
    ensures Apply(s, step).ranInline == s.ranInline + Inlined(s, step)
  {
    hide Workers;
    assert s.submitted + [] == s.submitted && s.ranInline + [] == s.ranInline;
  }

  lemma {:induction false} RunBrings(s: State, given: map<Thread, Task>, steps: seq<Step>)
    requires Carrying(s, given)
    ensures Run(s, steps).submitted == s.submitted + AllBrought(s, given, steps)
    ensures Run(s, steps).ranInline == s.ranInline + AllInlined(s, steps)
    decreases |steps|
  {
    hide Apply, Brought, Inlined, Given, Carrying;
    if steps != [] {
      var s' := Apply(s, steps[0]);
      StepBrings(s, given, steps[0]);
      RunBrings(s', Given(s, given, steps[0]), steps[1..]);
      assert s.submitted + Brought(s, given, steps[0]) + AllBrought(s', Given(s, given, steps[0]), steps[1..]) ==
             s.submitted + AllBrought(s, given, steps);
      assert s.ranInline + Inlined(s, steps[0]) + AllInlined(s', steps[1..]) == s.ranInline + AllInlined(s, steps);
    }
  }

  /** Over every run the tasks pushed, and those run by their callers, are the very ones given to run(), in that order. */
  lemma TasksAreThoseGiven(max: nat, threads: set<Thread>, steps: seq<Step>)
    ensures var s := Run(Init(max, threads), steps);
      && s.submitted == AllBrought(Init(max, threads), map[], steps)
      && s.ranInline == AllInlined(Init(max, threads), steps)
  {
    RunBrings(Init(max, threads), map[], steps);
  }

  /** No worker leaves while the pool is running. */
  ghost predicate Staying(s: State) {
    s.running ==> forall w | w in s.place :: s.place[w] != Exited
  }

  lemma {:induction false} NoneLeavesEarly(s: State, steps: seq<Step>)
    requires Staying(s)
    ensures Staying(Run(s, steps)) && Run(s, steps).place.Keys == s.place.Keys
    decreases |steps|
  {
    if steps != [] {
      var s' := Apply(s, steps[0]);
      assert Staying(s') && s'.place.Keys == s.place.Keys;
      NoneLeavesEarly(s', steps[1..]);
    }
  }

  // ---------- after stop ----------

  /** How many tasks worker `w` takes over a run. */
  function TakesOf(s: State, steps: seq<Step>, w: Thread): nat
    decreases |steps|
  {
    if steps == [] then 0 else
    var s' := Apply(s, steps[0]);
    TakesOf(s', steps[1..], w) + if steps[0].Take? && steps[0].w == w && s'.taken > s.taken then 1 else 0
  }

  /** How far a worker is from its exit once `running_` is false. */
  function Distance(s: State, w: Thread): (d: nat)
    ensures d <= 3
  {
    if w !in s.place then 0 else
    match s.place[w]
    case Exited => 0
    case Testing => 1
    case Holding(_) => 2
    case _ => 3
  }

  predicate StepOf(step: Step, w: Thread) {
    (step.TestRunning? || step.Take? || step.Finish?) && step.w == w
  }

  /** After stop no step puts a worker to sleep or takes it away from its exit, and its own steps bring it nearer. */
  lemma StopDrains(s: State, step: Step, w: Thread)
    requires Inv(s) && !s.running
    ensures !Apply(s, step).running && Distance(Apply(s, step), w) <= Distance(s, w)
    ensures StepOf(step, w) && Apply(s, step) != s ==> Distance(Apply(s, step), w) < Distance(s, w)
    ensures step.Take? && step.w == w && Apply(s, step).taken > s.taken ==> Distance(s, w) == 3 && Distance(Apply(s, step), w) == 2
  {
    hide Custody, Ordered, SubmittersAwake;
    assert w in s.place && s.place[w] == Asleep ==> w in Workers(s.place, Asleep);
  }

  /** After stop a worker that has not exited always has a step of its own to make: it waits for nobody. */
  lemma NoneStays(s: State, w: Thread)
    requires Inv(s) && !s.running && w in s.place && s.place[w] != Exited
    ensures exists step :: StepOf(step, w) && Apply(s, step) != s
  {
    hide Custody, Ordered;
    assert s.place[w] == Asleep ==> w in Workers(s.place, Asleep);
    if s.place[w] == Testing {
      assert Apply(s, TestRunning(w)).place[w] == Exited;
    } else if s.place[w].Holding? {
      assert Apply(s, Finish(w)).place[w] == Testing;
    } else {
      var wake := if s.blocked == {} then 0 else var t :| t in s.blocked; t;
      assert Apply(s, Take(w, wake)).place[w] != s.place[w];
    }
  }

  /** Once `running_` is false each worker takes at most one more task. */
  lemma {:induction false} AtMostOneMore(s: State, steps: seq<Step>, w: Thread)
    requires Inv(s) && !s.running
    ensures TakesOf(s, steps, w) <= if Distance(s, w) == 3 then 1 else 0
    decreases |steps|
  {
    hide Inv, Apply, Distance;
    if steps != [] {
      ApplyKeeps(s, steps[0]);
      StopDrains(s, steps[0], w);
      AtMostOneMore(Apply(s, steps[0]), steps[1..], w);
    }
  }

  /** When every worker has exited, what is queued stays queued, and no one notifies a blocked submitter. */
  lemma ExitedForGood(s: State, step: Step)
    requires !s.running && s.place != map[] && forall w | w in s.place :: s.place[w] == Exited
    ensures Apply(s, step).taken == s.taken && Apply(s, step).place == s.place
    ensures !step.Spurious? ==> s.blocked <= Apply(s, step).blocked
  {
  }

  /** The maximum and the set of workers never change. */
  lemma {:induction false} RunConstants(s: State, steps: seq<Step>)
    ensures Run(s, steps).max == s.max && Run(s, steps).place.Keys == s.place.Keys
    decreases |steps|
  {
    if steps != [] {
      assert Apply(s, steps[0]).place.Keys == s.place.Keys;
      RunConstants(Apply(s, steps[0]), steps[1..]);
    }
  }

  /** Without workers tasks run in their submitters and nobody ever waits. */
  lemma {:induction false} InlineNeverBlocks(s: State, steps: seq<Step>)
    requires s.place == map[] && s.blocked == {} && s.unblocked == {}
    ensures Run(s, steps).blocked == {}
    decreases |steps|
  {
    if steps != [] {
      var s' := Apply(s, steps[0]);
      assert s'.place == map[] && s'.blocked == {} && s'.unblocked == {};
      InlineNeverBlocks(s', steps[1..]);
    }
  }

  lemma {:induction false} RunConcat(s: State, a: seq<Step>, b: seq<Step>)
    ensures Run(s, a + b) == Run(Run(s, a), b)
    decreases |a|
  {
    if a == [] {
      assert a + b == b;
    } else {
      assert (a + b)[1..] == a[1..] + b;
      RunConcat(Apply(s, a[0]), a[1..], b);
    }
  }

  ghost predicate AllTesting(s: State) {
    s.running && s.place != map[] && forall w | w in s.place :: s.place[w] == Testing
  }

  /** Submitting until the queue is full while no worker has got to run yet. */
  lemma {:induction false} FillQueue(s: State) returns (steps: seq<Step>)
    requires AllTesting(s) && s.max > 0 && |s.queue| <= s.max && s.blocked == {} && s.unblocked == {}
    ensures var s' := Run(s, steps);
      AllTesting(s') && Full(s') && s'.max == s.max && s'.place == s.place && s'.blocked == {} && s'.unblocked == {}
    decreases s.max - |s.queue|
  {
    if Full(s) {
      steps := [];
    } else {
      var step := Submit(0, 0, 0);
      var s' := Apply(s, step);
      assert Workers(s.place, Asleep) == {};
      assert s'.queue == s.queue + [0] && s'.place == s.place;
      var rest := FillQueue(s');
      steps := [step] + rest;
      assert steps[1..] == rest;
    }
  }

  ghost predicate TestingOrExited(s: State) {
    forall w | w in s.place :: s.place[w] == Testing || s.place[w] == Exited
  }

  /** After stop each worker that is about to test `running_` exits. */
  lemma {:induction false} ExitAll(s: State, left: set<Thread>) returns (steps: seq<Step>)
    requires !s.running && TestingOrExited(s) && (forall w | w in s.place && s.place[w] == Testing :: w in left)
    ensures var s' := Run(s, steps);
      !s'.running && s'.blocked == s.blocked && (forall w | w in s'.place :: s'.place[w] == Exited)
    decreases |left|
  {
    if left == {} {
      steps := [];
    } else {
      var w :| w in left;
      var s' := Apply(s, TestRunning(w));
      var rest := ExitAll(s', left - {w});
      steps := [TestRunning(w)] + rest;
      assert steps[1..] == rest;
    }
  }

  /** Some submitter waits although the pool has stopped and every worker has exited. */
  ghost predicate Stranded(s: State) {
    !s.running && s.blocked != {} && forall w | w in s.place :: s.place[w] == Exited
  }

  /** For every positive maximum and every set of workers there is such a run. */
  lemma Strand(max: nat, threads: set<Thread>) returns (steps: seq<Step>)
    requires max > 0 && threads != {}
    ensures Stranded(Run(Init(max, threads), steps))
  {
    var s0 := Init(max, threads);
    var w :| w in threads;
    assert w in s0.place;
    var fill := FillQueue(s0);
    var s1 := Run(s0, fill);
    assert Workers(s1.place, Asleep) == {};
    var s2 := Apply(s1, Submit(0, 0, 0));
    assert s2.blocked == {0} && s2.place == s1.place;
    var s3 := Apply(s2, Stop);
    assert s3.place == s1.place && s3.blocked == {0};
    var exit := ExitAll(s3, s3.place.Keys);
    var more := [Submit(0, 0, 0), Stop] + exit;
    steps := fill + more;
    assert more[1..] == [Stop] + exit && more[1..][1..] == exit;
    assert Run(s1, more) == Run(s2, [Stop] + exit) == Run(s3, exit);
    RunConcat(s0, fill, more);
  }

  /** Every submitter is released by the time the pool has stopped, in every run, exactly if none can ever block. */
  lemma StrandedIff(max: nat, threads: set<Thread>)
    ensures (forall steps :: !Stranded(Run(Init(max, threads), steps))) <==> max == 0 || threads == {}
  {
    var s0 := Init(max, threads);
    if max > 0 && threads != {} {
      hide Run, Stranded, Init;
      var steps := Strand(max, threads);
      assert Stranded(Run(Init(max, threads), steps));
    } else {
      forall steps ensures !Stranded(Run(s0, steps)) {
        if max == 0 {
          InitInv(max, threads);
          RunKeeps(s0, steps);
          RunConstants(s0, steps);
        } else {
          assert s0.place == map[];
          InlineNeverBlocks(s0, steps);
        }
      }
    }
  }

  /**
    The pool as an object. Each method is a call's stretch under the mutex: `again` says whether the submitter comes
    from `wait`, and `waits` whether the thread goes there.
   */
  class Pool {
    const max: nat
    var queue: seq<Task>
    var running: bool
    ghost var state: State

    ghost predicate Valid()
      reads this
    {
      state.max == max && state.queue == queue && state.running == running && Inv(state)
    }

    constructor (maxQueueSize: nat, ghost threads: set<Thread>)
      ensures Valid() && state == Init(maxQueueSize, threads)
    {
      max, queue, running, state := maxQueueSize, [], true, Init(maxQueueSize, threads);
      new;
      InitInv(maxQueueSize, threads);
    }

    method RunSection(t: Thread, task: Task, again: bool, ghost wake: Thread) returns (waits: bool)
      requires Valid() && WakesWorker(state, wake) && state.place != map[]
      requires if again then t in state.unblocked && t in state.offer && state.offer[t] == task
               else t !in state.blocked && t !in state.unblocked
      modifies this
      ensures Valid() && state == Apply(old(state), if again then SubmitAgain(t, wake) else Submit(t, task, wake))
      ensures waits <==> max > 0 && |old(queue)| == max
      ensures waits <==> t in state.blocked
      ensures queue == if waits then old(queue) else old(queue) + [task]
    {
      ghost var step := if again then SubmitAgain(t, wake) else Submit(t, task, wake);
      ApplyKeeps(state, step);
      assert max > 0 ==> |queue| <= max;
      hide Inv;
      state := Apply(state, step);
      waits := max > 0 && |queue| >= max;
      if !waits {
        queue := queue + [task];
      }
    }

    /** A task, nothing because the pool is stopped, or the worker waits. */
    method TakeSection(w: Thread, ghost wake: Thread) returns (task: Option<Task>, waits: bool)
      requires Valid() && WakesSubmitter(state, wake) && (At(state, w, Entering) || At(state, w, Woken))
      modifies this
      ensures Valid() && state == Apply(old(state), Take(w, wake))
      ensures waits <==> old(queue) == [] && running
      ensures waits <==> At(state, w, Asleep)
      ensures task.Some? <==> old(queue) != []
      ensures task.Some? ==> old(queue) == [task.value] + queue
      ensures task.Some? ==> At(state, w, Holding(old(state).taken)) && state.submitted[old(state).taken] == task.value
    {
      ApplyKeeps(state, Take(w, wake));
      assert state.taken <= |state.submitted| && queue == state.submitted[state.taken..];
      hide Inv;
      state := Apply(state, Take(w, wake));
      task, waits := None, |queue| == 0 && running;
      if |queue| > 0 {
        task := Some(queue[0]);
        queue := queue[1..];
      }
    }

    method StopSection()
      requires Valid()
      modifies this
      ensures Valid() && state == Apply(old(state), Stop) && !running
      ensures Workers(state.place, Asleep) == {}
    {
      StopKeeps(state);
      state := Apply(state, Stop);
      running := false;
    }
  }
}
