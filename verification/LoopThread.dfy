/** The loop object as its own thread uses it, between the return of a poll and the next test of `quit_`. */
module LoopThread {
  import opened EventLoop

  /** What a list of functors queues, each functor in its turn. */
  function Queued(functors: seq<Functor>, queues: Functor -> seq<Functor>): seq<Functor> {
    if functors == [] then []
    else Queued(functors[..|functors| - 1], queues) + queues(functors[|functors| - 1])
  }

  lemma QueuedSnoc(functors: seq<Functor>, queues: Functor -> seq<Functor>, i: nat)
    requires i < |functors|
    ensures Queued(functors[..i + 1], queues) == Queued(functors[..i], queues) + queues(functors[i])
  {
    assert functors[..i + 1][..i] == functors[..i];
  }

  class LoopObject {
    var pendingFunctors: seq<Functor>
    var callingPendingFunctors: bool
    var wakeups: nat
    ghost var state: State

    ghost predicate Valid()
      reads this
    {
      && Inv(state) && state.pending == pendingFunctors && state.calling == callingPendingFunctors
      && state.counter == wakeups
    }

    constructor ()
      ensures Valid() && state == Init([], 0)
    {
      pendingFunctors, callingPendingFunctors, wakeups, state := [], false, 0, Init([], 0);
    }

    /** Called in the loop thread, inside a callback. */
    method QueueInLoop(f: Functor)
      requires Valid() && InCallback(state)
      modifies this
      ensures Valid() && state == Apply(Apply(old(state), LoopPush(f)), LoopWakeup)
      ensures pendingFunctors == old(pendingFunctors) + [f]
      ensures wakeups == old(wakeups) + if callingPendingFunctors then 1 else 0
    {
      hide Inv;
      ApplyKeeps(state, LoopPush(f));
      ApplyKeeps(Apply(state, LoopPush(f)), LoopWakeup);
      state := Apply(state, LoopPush(f));
      pendingFunctors := pendingFunctors + [f];
      if callingPendingFunctors {
        wakeups := wakeups + 1;
      }
      state := Apply(state, LoopWakeup);
    }

    /** A functor runs and queues what `fs` lists. */
    method Call(fs: seq<Functor>)
      requires Valid() && InCallback(state) && callingPendingFunctors && state.place == Running && state.batch != []
      modifies this
      ensures Valid() && InCallback(state) && callingPendingFunctors && state.place == Running
      ensures state.batch == old(state).batch[1..]
      ensures state.done == old(state).done + [old(state).batch[0]]
      ensures pendingFunctors == old(pendingFunctors) + fs && wakeups == old(wakeups) + |fs|
    {
      hide Inv;
      ApplyKeeps(state, RunNext);
      state := Apply(state, RunNext);
      for i := 0 to |fs|
        invariant Valid() && InCallback(state) && callingPendingFunctors && state.place == Running
        invariant state.batch == old(state).batch[1..]
        invariant state.done == old(state).done + [old(state).batch[0]]
        invariant pendingFunctors == old(pendingFunctors) + fs[..i] && wakeups == old(wakeups) + i
      {
        QueueInLoop(fs[i]);
        assert fs[..i + 1] == fs[..i] + [fs[i]];
      }
    }

    /** The start of doPendingFunctors, up to the swap. */
    method SwapOut() returns (functors: seq<Functor>)
      requires Valid() && state.place == Handling && !state.loopWaking
      modifies this
      ensures Valid() && InCallback(state) && callingPendingFunctors && state.place == Running
      ensures functors == old(pendingFunctors) == state.batch && pendingFunctors == []
      ensures state.done == old(state).done && wakeups == old(wakeups)
    {
      hide Inv;
      ApplyKeeps(state, EndHandling);
      ApplyKeeps(Apply(state, EndHandling), Swap);
      callingPendingFunctors := true;
      state := Apply(state, EndHandling);
      functors := pendingFunctors;
      pendingFunctors := [];
      state := Apply(state, Swap);
    }

    /** The loop over the functors swapped out. */
    method CallAll(functors: seq<Functor>, queues: Functor -> seq<Functor>)
      requires Valid() && InCallback(state) && callingPendingFunctors && state.place == Running
      requires state.batch == functors && pendingFunctors == []
      modifies this
      ensures Valid() && InCallback(state) && callingPendingFunctors && state.place == Running && state.batch == []
      ensures state.done == old(state).done + functors
      ensures pendingFunctors == Queued(functors, queues) && wakeups == old(wakeups) + |pendingFunctors|
    {
      hide Inv, Apply;
      assert Queued(functors[..0], queues) == [];
      for i := 0 to |functors|
        invariant Valid() && InCallback(state) && callingPendingFunctors && state.place == Running && state.batch == functors[i..]
        invariant state.done == old(state).done + functors[..i]
        invariant pendingFunctors == Queued(functors[..i], queues) && wakeups == old(wakeups) + |pendingFunctors|
      {
        QueuedSnoc(functors, queues, i);
        assert functors[..i + 1] == functors[..i] + [functors[i]];
        Call(queues(functors[i]));
      }
      assert functors[..|functors|] == functors;
    }

    /**
      Every functor pending at the swap runs, in order; those they queue stay for the next pass, in order, and each is
      announced by a wakeup of its own.
     */
    method DoPendingFunctors(queues: Functor -> seq<Functor>)
      requires Valid() && state.place == Handling && !state.loopWaking
      modifies this
      ensures Valid() && state.place == Testing
      ensures state.done == old(state).done + old(pendingFunctors)
      ensures pendingFunctors == Queued(old(pendingFunctors), queues)
      ensures wakeups == old(wakeups) + |pendingFunctors| && !callingPendingFunctors
    {
      hide Inv, Queued;
      var functors := SwapOut();
      CallAll(functors, queues);
      ApplyKeeps(state, EndRunning);
      callingPendingFunctors := false;
      state := Apply(state, EndRunning);
    }
  }
}
