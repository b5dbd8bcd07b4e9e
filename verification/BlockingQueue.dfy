/**
  The bounded blocking queue as a monitor. A step is one stretch under the mutex: from taking the lock, in a new call or
  on coming back from `wait`, to the next `wait` or to the return. `notify` wakes any one sleeper, and a sleeper may
  also wake for no reason.
 */
module BlockingQueue {
  type Item = nat
  type Thread = nat

  datatype State = State(
    capacity: nat,
    queue: seq<Item>,
    sleepers: set<Thread>,           // consumers in notEmpty_.wait()
    woken: set<Thread>,              // consumers out of it, waiting for the mutex
    putSleepers: set<Thread>,        // producers in notFull_.wait()
    putWoken: set<Thread>,
    offer: map<Thread, Item>,        // the item each waiting producer brings
    put: seq<Item>,                  // everything that entered the queue
    taken: seq<Item>)                // everything that left it

  /** Where a step notifies, `wake` names the sleeper that is chosen. */
  datatype Step =
    | Put(t: Thread, x: Item, wake: Thread)
    | PutAgain(t: Thread, wake: Thread)
    | Take(t: Thread, wake: Thread)
    | TakeAgain(t: Thread, wake: Thread)
    | Spurious(t: Thread)

  function Init(capacity: nat): State {
    State(capacity, [], {}, {}, {}, {}, map[], [], [])
  }

  predicate Free(s: State, t: Thread) {
    t !in s.sleepers && t !in s.woken && t !in s.putSleepers && t !in s.putWoken
  }

  /** `put` with the lock held. */
  function PutLocked(s: State, t: Thread, x: Item, wake: Thread): State {
    if |s.queue| >= s.capacity then s.(putSleepers := s.putSleepers + {t}, offer := s.offer[t := x])
    else
      var s := s.(queue := s.queue + [x], put := s.put + [x]);
      if wake in s.sleepers then s.(sleepers := s.sleepers - {wake}, woken := s.woken + {wake}) else s
  }

  /** `take` with the lock held. */
  function TakeLocked(s: State, t: Thread, wake: Thread): State {
    if s.queue == [] then s.(sleepers := s.sleepers + {t})
    else
      var s := s.(queue := s.queue[1..], taken := s.taken + [s.queue[0]]);
      if wake in s.putSleepers then s.(putSleepers := s.putSleepers - {wake}, putWoken := s.putWoken + {wake}) else s
  }

  /** A notification reaches a sleeper if there is one. */
  predicate WakesConsumer(s: State, wake: Thread) {
    s.sleepers != {} ==> wake in s.sleepers
  }

  predicate WakesProducer(s: State, wake: Thread) {
    s.putSleepers != {} ==> wake in s.putSleepers
  }

  function Apply(s: State, step: Step): State {
    match step
    case Put(t, x, wake) => if Free(s, t) && WakesConsumer(s, wake) then PutLocked(s, t, x, wake) else s
    case PutAgain(t, wake) => if t in s.putWoken && t in s.offer && WakesConsumer(s, wake) then
      PutLocked(s.(putWoken := s.putWoken - {t}), t, s.offer[t], wake) else s
    case Take(t, wake) => if Free(s, t) && WakesProducer(s, wake) then TakeLocked(s, t, wake) else s
    case TakeAgain(t, wake) => if t in s.woken && WakesProducer(s, wake) then
      TakeLocked(s.(woken := s.woken - {t}), t, wake) else s
    case Spurious(t) =>
      if t in s.sleepers then s.(sleepers := s.sleepers - {t}, woken := s.woken + {t})
      else if t in s.putSleepers then s.(putSleepers := s.putSleepers - {t}, putWoken := s.putWoken + {t})
      else s
  }

  function Run(s: State, steps: seq<Step>): State
    decreases |steps|
  {
    if steps == [] then s else Run(Apply(s, steps[0]), steps[1..])
  }

  /** No thread is both asleep and woken, and every waiting producer has its item. */
  ghost predicate Apart(s: State) {
    && (forall t | t in s.sleepers :: t !in s.woken)
    && (forall t | t in s.putSleepers :: t !in s.putWoken && t in s.offer)
    && (forall t | t in s.putWoken :: t in s.offer)
  }

  /** A sleeping consumer has an awake one for each item; a sleeping producer, an awake one for each free place. */
  ghost predicate NoneForgotten(s: State) {
    && (s.sleepers != {} ==> |s.queue| <= |s.woken|)
    && (s.putSleepers != {} ==> s.capacity - |s.queue| <= |s.putWoken|)
  }

  ghost predicate Inv(s: State) {
    Apart(s) && NoneForgotten(s) && |s.queue| <= s.capacity && s.taken + s.queue == s.put
  }

  /** What `put` needs with the lock held: as the invariant, without counting the thread itself among the woken. */
  lemma PutLockedKeeps(s: State, t: Thread, x: Item, wake: Thread)
    requires Apart(s) && t !in s.putWoken && WakesConsumer(s, wake)
    requires |s.queue| <= s.capacity && s.taken + s.queue == s.put
    requires s.sleepers != {} ==> |s.queue| <= |s.woken|
    requires s.putSleepers != {} ==> s.capacity - |s.queue| <= |s.putWoken| + 1
    ensures Inv(PutLocked(s, t, x, wake))
  {
    if |s.queue| < s.capacity {
      assert s.taken + (s.queue + [x]) == s.taken + s.queue + [x];
    }
  }

  lemma TakeLockedKeeps(s: State, t: Thread, wake: Thread)
    requires Apart(s) && t !in s.woken && WakesProducer(s, wake)
    requires |s.queue| <= s.capacity && s.taken + s.queue == s.put
    requires s.sleepers != {} ==> |s.queue| <= |s.woken| + 1
    requires s.putSleepers != {} ==> s.capacity - |s.queue| <= |s.putWoken|
    ensures Inv(TakeLocked(s, t, wake))
  {
    if s.queue != [] {
      assert s.queue == [s.queue[0]] + s.queue[1..];
      assert s.taken + [s.queue[0]] + s.queue[1..] == s.taken + s.queue;
    }
  }

  lemma SpuriousKeeps(s: State, t: Thread)
    requires Inv(s)
    ensures Inv(Apply(s, Spurious(t)))
  {
  }

  lemma ApplyKeeps(s: State, step: Step)
    requires Inv(s)
    ensures Inv(Apply(s, step)) && Apply(s, step).capacity == s.capacity
  {
    match step
    case Put(t, x, wake) =>
      if Free(s, t) && WakesConsumer(s, wake) { PutLockedKeeps(s, t, x, wake); }
    case PutAgain(t, wake) =>
      if t in s.putWoken && WakesConsumer(s, wake) {
        PutLockedKeeps(s.(putWoken := s.putWoken - {t}), t, s.offer[t], wake);
      }
    case Take(t, wake) =>
      if Free(s, t) && WakesProducer(s, wake) { TakeLockedKeeps(s, t, wake); }
    case TakeAgain(t, wake) =>
      if t in s.woken && WakesProducer(s, wake) { TakeLockedKeeps(s.(woken := s.woken - {t}), t, wake); }
    case Spurious(t) => SpuriousKeeps(s, t);
  }

  lemma {:induction false} RunKeeps(s: State, steps: seq<Step>)
    requires Inv(s)
    ensures Inv(Run(s, steps)) && Run(s, steps).capacity == s.capacity
    decreases |steps|
  {
    hide Inv, Apply;
    if steps != [] {
      ApplyKeeps(s, steps[0]);
      RunKeeps(Apply(s, steps[0]), steps[1..]);
    }
  }

  /** Over every run: bounded, first in first out, nothing lost or doubled, and no sleeper forgotten. */
  lemma QueueCorrect(capacity: nat, steps: seq<Step>)
    ensures var s := Run(Init(capacity), steps);
      && |s.queue| <= capacity && s.taken + s.queue == s.put
      && (s.sleepers != {} ==> |s.queue| <= |s.woken|)
      && (s.putSleepers != {} ==> capacity - |s.queue| <= |s.putWoken|)
  {
    RunKeeps(Init(capacity), steps);
  }

  /** Every waiting thread sleeps, consumers and producers among them. */
  predicate Stuck(s: State) {
    s.woken == {} && s.putWoken == {} && s.sleepers != {} && s.putSleepers != {}
  }

  /** Capacity 0 puts a first producer and a first consumer to sleep. */
  lemma NoRoomSticks()
    ensures Stuck(Run(Init(0), [Put(0, 0, 0), Take(1, 0)]))
  {
    var a, b := Put(0, 0, 0), Take(1, 0);
    var s := Apply(Init(0), a);
    assert 0 in s.putSleepers && Free(s, 1);
    assert 1 in Apply(s, b).sleepers;
    assert [a, b][1..] == [b] && [b][1..] == [];
    assert Run(Init(0), [a, b]) == Run(s, [b]) == Apply(s, b);
  }

  /** The queue can get stuck only if it has no room for anything at all. */
  lemma NeverStuckIff(capacity: nat)
    ensures (forall steps :: !Stuck(Run(Init(capacity), steps))) <==> capacity >= 1
  {
    if capacity >= 1 {
      forall steps ensures !Stuck(Run(Init(capacity), steps)) {
        QueueCorrect(capacity, steps);
      }
    } else {
      NoRoomSticks();
      assert Stuck(Run(Init(capacity), [Put(0, 0, 0), Take(1, 0)]));
    }
  }

  // ---------- which items ----------

  /** The item of the put each thread is in, from the calls alone. */
  function Given(s: State, given: map<Thread, Item>, step: Step): map<Thread, Item> {
    if step.Put? && Free(s, step.t) && WakesConsumer(s, step.wake) then given[step.t := step.x] else given
  }

  /** The item a step must bring into the queue: that of the thread whose put finds room. */
  function Brought(s: State, given: map<Thread, Item>, step: Step): seq<Item> {
    if |s.queue| >= s.capacity then []
    else if step.Put? && Free(s, step.t) && WakesConsumer(s, step.wake) then [step.x]
    else if step.PutAgain? && step.t in s.putWoken && step.t in given && WakesConsumer(s, step.wake) then [given[step.t]]
    else []
  }

  function AllBrought(s: State, given: map<Thread, Item>, steps: seq<Step>): seq<Item>
    decreases |steps|
  {
    if steps == [] then [] else
    Brought(s, given, steps[0]) + AllBrought(Apply(s, steps[0]), Given(s, given, steps[0]), steps[1..])
  }

  /** Every waiting producer still has the item it was given. */
  ghost predicate Carrying(s: State, given: map<Thread, Item>) {
    forall t | t in s.putSleepers || t in s.putWoken :: t in given && t in s.offer && s.offer[t] == given[t]
  }

  lemma StepBrings(s: State, given: map<Thread, Item>, step: Step)
    requires Carrying(s, given)
    ensures Carrying(Apply(s, step), Given(s, given, step))
    ensures Apply(s, step).put == s.put + Brought(s, given, step)
  {
    assert s.put + [] == s.put;
  }

  lemma {:induction false} RunBrings(s: State, given: map<Thread, Item>, steps: seq<Step>)
    requires Carrying(s, given)
    ensures Run(s, steps).put == s.put + AllBrought(s, given, steps)
    decreases |steps|
  {
    hide Apply, Brought, Given, Carrying;
    if steps != [] {
      StepBrings(s, given, steps[0]);
      RunBrings(Apply(s, steps[0]), Given(s, given, steps[0]), steps[1..]);
      assert s.put + Brought(s, given, steps[0]) +
             AllBrought(Apply(s, steps[0]), Given(s, given, steps[0]), steps[1..]) == s.put + AllBrought(s, given, steps);
    }
  }

  /** Over every run what was taken and what is queued are the very items given to the puts that found room, in that order. */
  lemma ItemsAreThoseGiven(capacity: nat, steps: seq<Step>)
    ensures var s := Run(Init(capacity), steps); s.taken + s.queue == AllBrought(Init(capacity), map[], steps)
  {
    QueueCorrect(capacity, steps);
    RunBrings(Init(capacity), map[], steps);
  }

  /**
    The queue as an object. Each method is a call's stretch under the mutex: `again` says whether the thread comes from
    `wait`, and `waits` whether it goes there.
   */
  class BoundedBlockingQueue {
    const capacity: nat
    var queue: seq<Item>
    ghost var state: State

    ghost predicate Valid()
      reads this
    {
      state.capacity == capacity && state.queue == queue && Inv(state)
    }

    constructor (maxSize: nat)
      ensures Valid() && state == Init(maxSize)
    {
      capacity, queue, state := maxSize, [], Init(maxSize);
    }

    method PutSection(t: Thread, x: Item, again: bool, ghost wake: Thread) returns (waits: bool)
      requires Valid() && WakesConsumer(state, wake)
      requires if again then t in state.putWoken && t in state.offer && state.offer[t] == x else Free(state, t)
      modifies this
      ensures Valid() && state == Apply(old(state), if again then PutAgain(t, wake) else Put(t, x, wake))
      ensures waits <==> |old(queue)| == capacity
      ensures waits <==> t in state.putSleepers
      ensures queue == if waits then old(queue) else old(queue) + [x]
    {
      ghost var step := if again then PutAgain(t, wake) else Put(t, x, wake);
      ApplyKeeps(state, step);
      state := Apply(state, step);
      waits := |queue| >= capacity;
      if !waits {
        queue := queue + [x];
      }
    }

    method TakeSection(t: Thread, again: bool, ghost wake: Thread) returns (waits: bool, front: Item)
      requires Valid() && WakesProducer(state, wake)
      requires if again then t in state.woken else Free(state, t)
      modifies this
      ensures Valid() && state == Apply(old(state), if again then TakeAgain(t, wake) else Take(t, wake))
      ensures waits <==> old(queue) == []
      ensures waits <==> t in state.sleepers
      ensures !waits ==> old(queue) == [front] + queue && state.taken == old(state).taken + [front]
    {
      ghost var step := if again then TakeAgain(t, wake) else Take(t, wake);
      ApplyKeeps(state, step);
      state := Apply(state, step);
      front, waits := 0, |queue| == 0;
      if !waits {
        front := queue[0];
        queue := queue[1..];
      }
    }
  }
}
