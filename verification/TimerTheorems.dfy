/** The timer queue's promises over whole runs. */
module TimerTheorems {
  import opened Common
  import opened TimerList
  import opened TimerMachine
  import opened TimerProofs

  /** Every state reachable from a fresh queue under a positive clock satisfies the invariant. */
  lemma ReachableInv(clock: int, steps: seq<Step>)
    requires clock > 0
    ensures Inv(Run(Init(clock), steps))
  {
    RunKeepsInv(Init(clock), steps);
  }

  /**
    No lost wakeup: outside handleRead, with a timer pending, the timerfd has expired unread or is armed no later than
    the earliest expiration (or 100 microseconds after it was last set); and once that moment is past it is readable.
   */
  lemma NoLostWakeup(clock: int, steps: seq<Step>)
    requires clock > 0
    ensures var s := Run(Init(clock), steps);
      s.phase.Idle? && s.timers != [] ==>
        && (s.fd.readable ||
            (s.fd.armed.Some? && s.clock < s.fd.armed.value <= Max(s.timers[0].when, s.fd.lastSet + 100)))
        && (Max(s.timers[0].when, s.fd.lastSet + 100) <= s.clock ==> s.fd.readable)
        && (forall e | e in s.timers :: s.timers[0].when <= e.when)
  {
    ReachableInv(clock, steps);
    var s := Run(Init(clock), steps);
    forall e | e in s.timers ensures s.timers[0].when <= e.when {
      FirstIsLeast(s.timers, e);
    }
  }

  /** The two indexes have the same size, as every function of the source asserts. */
  lemma {:induction false} IdsSize(heap: map<nat, Timer>, entries: seq<Entry>)
    requires Sorted(entries) && Matches(heap, entries)
    ensures |Ids(heap, entries)| == |entries|
    decreases |entries|
  {
    if entries == [] {
      assert Ids(heap, entries) == {};
    } else {
      var rest := entries[1..];
      IdsSize(heap, rest);
      var id := IdAt(heap, entries[0].addr);
      assert forall e :: e in entries <==> e == entries[0] || e in rest;
      assert id !in Ids(heap, rest) by {
        assert entries[0] in entries;
        IdsMember(heap, rest, entries[0].addr);
        assert entries[0] == At(heap, entries[0].addr);
        forall j | 0 <= j < |rest| ensures rest[j] != entries[0] {
          assert Less(entries[0], entries[j + 1]);
        }
      }
      IdsExtend(heap, entries[0], rest, entries);
    }
  }

  lemma IdsExtend(heap: map<nat, Timer>, e: Entry, rest: seq<Entry>, entries: seq<Entry>)
    requires forall x :: x in entries <==> x == e || x in rest
    ensures Ids(heap, entries) == Ids(heap, rest) + {IdAt(heap, e.addr)}
  {
    forall id ensures id in Ids(heap, entries) <==> id in Ids(heap, rest) + {IdAt(heap, e.addr)} {
      if id in Ids(heap, rest) {
        var x :| x in rest && id == IdAt(heap, x.addr);
        assert x in entries;
      } else if id == IdAt(heap, e.addr) {
        assert e in entries;
      }
    }
  }

  /**
    In every reachable state the two indexes hold exactly the same timers under their current expirations, in order,
    and no assertion of the source has failed.
   */
  lemma IndexesAgree(clock: int, steps: seq<Step>, addr: nat, sequence: nat)
    requires clock > 0
    ensures var s := Run(Init(clock), steps);
      && !s.fault
      && Sorted(s.timers)
      && |s.timers| == |s.active|
      && (TimerId(addr, sequence) in s.active <==>
            addr in s.heap && s.heap[addr].sequence == sequence && At(s.heap, addr) in s.timers)
      && (forall e | e in s.timers :: e.addr in s.heap && e == At(s.heap, e.addr))
  {
    ReachableInv(clock, steps);
    var s := Run(Init(clock), steps);
    IdsSize(s.heap, s.timers);
    if addr in s.heap {
      IdsMember(s.heap, s.timers, addr);
    }
  }

  /** handleRead takes exactly the due timers out of both indexes, earliest first, and runs each of them once. */
  lemma ReadTakesExactlyTheDue(s: State)
    requires Inv(s) && s.phase.Idle?
    ensures var s' := Apply(s, BeginRead);
      && s'.phase.Calling? && s'.phase.next == 0 && s'.phase.now == s.clock
      && Sorted(s'.phase.batch)
      && (forall e :: e in s'.phase.batch <==> e in s.timers && e.when <= s.clock)
      && (forall e :: e in s'.timers <==> e in s.timers && e.when > s.clock)
      && s'.phase.batch + s'.timers == s.timers
      && (forall id :: id in s'.active <==> id in s.active && s.clock < s.heap[id.addr].expiration)
  {
    SortedQueue(s);
    hide Inv, Ids, AllIn, Sorted, LowerBound;
    QueueAddressesOk(s);
    ExpiredExactly(s.timers, s.clock);
    BeginKeeps(s);
    SortedBatch(DoBegin(s));
    ActiveAfterRead(s);
  }

  lemma SortedQueue(s: State)
    requires Inv(s)
    ensures Sorted(s.timers)
  {
  }

  lemma SortedBatch(s: State)
    requires Inv(s)
    ensures Sorted(Held(s.phase))
  {
  }

  lemma ActiveAfterRead(s: State)
    requires Inv(s) && s.phase.Idle? && Inv(DoBegin(s))
    requires forall e :: e in DoBegin(s).timers <==> e in s.timers && e.when > s.clock
    requires DoBegin(s).heap == s.heap
    ensures forall id :: id in DoBegin(s).active <==> id in s.active && s.clock < s.heap[id.addr].expiration
  {
    var s' := DoBegin(s);
    assert Matches(s'.heap, s'.timers) && s'.active == Ids(s'.heap, s'.timers) && s'.active <= s.active;
    hide DoBegin, Ids, Inv;
    forall id ensures id in s'.active <==> id in s.active && s.clock < s.heap[id.addr].expiration {
      if id in s.active {
        CancelFindsTimer(s, id);
        IdsMember(s.heap, s'.timers, id.addr);
      }
    }
  }

  lemma BatchRunsInOrder(s: State)
    requires Inv(s) && s.phase.Calling? && s.phase.next == |s.phase.batch|
    ensures |s.phase.batch| <= |s.ran|
    ensures forall i | 0 <= i < |s.phase.batch| ::
              && s.phase.batch[i].addr in s.heap
              && s.ran[|s.ran| - |s.phase.batch| + i] == Ran(s.heap[s.phase.batch[i].addr].sequence, s.readCount, s.phase.now)
  {
    forall i | 0 <= i < |s.phase.batch| ensures s.phase.batch[i].addr in s.heap {
      EntryIsAt(s.heap, s.phase.batch, s.phase.batch[i]);
    }
  }

  lemma {:induction false} CountAtMostOne(xs: seq<nat>, q: nat)
    requires NoDuplicates(xs)
    ensures multiset(xs)[q] == if q in xs then 1 else 0
    decreases |xs|
  {
    if xs != [] {
      var n := |xs| - 1;
      assert xs == xs[..n] + [xs[n]];
      CountAtMostOne(xs[..n], q);
    }
  }

  /** No leak, no double free: every Timer ever created is either allocated at one address or was freed exactly once. */
  lemma FreedExactlyOnce(clock: int, steps: seq<Step>, q: nat)
    requires clock > 0
    ensures var s := Run(Init(clock), steps);
      && !s.fault
      && (Live(s.heap, q) ==> multiset(s.freed)[q] == 0 && q < s.nextSequence)
      && (!Live(s.heap, q) ==> multiset(s.freed)[q] == if q < s.nextSequence then 1 else 0)
      && (forall a, b | a in s.heap && b in s.heap && s.heap[a].sequence == q == s.heap[b].sequence :: a == b)
  {
    ReachableInv(clock, steps);
    CountAtMostOne(Run(Init(clock), steps).freed, q);
  }

  // ---------- cancellation ----------

  /** The timer is in the queue, or in the batch whose callbacks are running. */
  ghost predicate Inserted(s: State, id: TimerId) {
    && id.addr in s.heap
    && s.heap[id.addr].sequence == id.sequence
    && id.addr !in s.created
  }

  /** A cancelled timer: gone, or waiting in the batch of read number `read` to be freed by its reset. */
  ghost predicate Doomed(s: State, id: TimerId, read: nat) {
    && id.sequence < s.nextSequence
    && read <= s.readCount
    && forall a | a in s.heap && s.heap[a].sequence == id.sequence ::
         && a == id.addr
         && read == s.readCount
         && id in s.canceling
         && At(s.heap, a) in Held(s.phase)
  }

  lemma CancelDooms(s: State, id: TimerId)
    requires Inv(s) && !s.phase.Resetting? && Inserted(s, id)
    ensures Doomed(DoCancel(s, id), id, s.readCount)
    ensures DoCancel(s, id).ran == s.ran
  {
    if id in s.active {
      CancelActive(s, id);
    } else {
      IdsMember(s.heap, s.timers, id.addr);
    }
  }

  lemma DoomedCancel(s: State, other: TimerId, id: TimerId, read: nat)
    requires Inv(s) && Doomed(s, id, read)
    ensures Doomed(DoCancel(s, other), id, read) && DoCancel(s, other).ran == s.ran
  {
    if !s.phase.Resetting? && other in s.active {
      CancelFindsTimer(s, other);
      var s' := DoCancel(s, other);
      assert s'.heap == s.heap - {other.addr} && s'.phase == s.phase;
    }
  }

  lemma DoomedReset(s: State, id: TimerId, read: nat)
    requires Inv(s) && Doomed(s, id, read) && s.phase.Resetting? && s.phase.rest != []
    ensures Doomed(DoResetNext(s), id, read) && DoResetNext(s).ran == s.ran
  {
    HeadOfRest(s);
    var addr := s.phase.rest[0].addr;
    var s' := DoResetNext(s);
    assert s'.canceling == s.canceling && s'.readCount == s.readCount;
    forall a | a in s'.heap && s'.heap[a].sequence == id.sequence
      ensures a == id.addr && read == s'.readCount && id in s'.canceling && At(s'.heap, a) in Held(s'.phase)
    {
      assert s.heap[a].sequence == id.sequence;
      assert addr == id.addr ==> !Restarts(s, addr);
      assert a != addr && At(s'.heap, a) == At(s.heap, a);
    }
  }

  lemma DoomedCreateOrBegin(s: State, step: Step, id: TimerId, read: nat)
    requires Doomed(s, id, read) && (step.Create? || step.BeginRead?)
    ensures Doomed(Apply(s, step), id, read) && Apply(s, step).ran == s.ran
  {
  }

  lemma DoomedOther(s: State, step: Step, id: TimerId, read: nat)
    requires Doomed(s, id, read) && (step.Tick? || step.AddInLoop? || step.StartReset? || step.Rearm?)
    ensures Doomed(Apply(s, step), id, read) && Apply(s, step).ran == s.ran
  {
    var s' := Apply(s, step);
    assert Held(s'.phase) == Held(s.phase);
  }

  lemma DoomedRun(s: State, id: TimerId, read: nat)
    requires BatchOk(s) && Doomed(s, id, read)
    ensures Doomed(DoRun(s), id, read) && s.ran <= DoRun(s).ran
    ensures forall i | |s.ran| <= i < |DoRun(s).ran| :: DoRun(s).ran[i].sequence == id.sequence ==> DoRun(s).ran[i].read == read
  {
    assert Held(DoRun(s).phase) == Held(s.phase);
    if s.phase.Calling? && s.phase.next < |s.phase.batch| {
      EntryIsAt(s.heap, s.phase.batch, s.phase.batch[s.phase.next]);
    }
  }

  lemma DoomedStep(s: State, step: Step, id: TimerId, read: nat)
    requires Inv(s) && Doomed(s, id, read)
    ensures Doomed(Apply(s, step), id, read)
    ensures s.ran <= Apply(s, step).ran
    ensures forall i | |s.ran| <= i < |Apply(s, step).ran| ::
              Apply(s, step).ran[i].sequence == id.sequence ==> Apply(s, step).ran[i].read == read
  {
    if step.CancelInLoop? {
      DoomedCancel(s, step.id, id, read);
    } else if step.ResetNext? {
      if s.phase.Resetting? && s.phase.rest != [] {
        DoomedReset(s, id, read);
      }
    } else if step.Create? || step.BeginRead? {
      DoomedCreateOrBegin(s, step, id, read);
    } else if step.RunNext? {
      DoomedRun(s, id, read);
    } else {
      DoomedOther(s, step, id, read);
    }
  }

  lemma {:induction false} DoomedForever(s: State, steps: seq<Step>, id: TimerId, read: nat)
    requires Inv(s) && Doomed(s, id, read)
    ensures Doomed(Run(s, steps), id, read)
    ensures s.ran <= Run(s, steps).ran
    ensures forall i | |s.ran| <= i < |Run(s, steps).ran| ::
              Run(s, steps).ran[i].sequence == id.sequence ==> Run(s, steps).ran[i].read == read
    decreases |steps|
  {
    if steps != [] {
      DoomedStep(s, steps[0], id, read);
      ApplyKeeps(s, steps[0]);
      DoomedForever(Apply(s, steps[0]), steps[1..], id, read);
    }
  }

  /**
    Once cancelInLoop has run for an inserted timer, no later handleRead runs it (only the one whose callbacks are
    running right now still may), and outside that handleRead it has been freed, exactly once.
   */
  lemma CancelledNeverRunsAgain(s: State, id: TimerId, steps: seq<Step>)
    requires Inv(s) && !s.phase.Resetting? && Inserted(s, id)
    ensures var s' := Run(Apply(s, CancelInLoop(id)), steps);
      && s.ran <= s'.ran
      && (forall i | |s.ran| <= i < |s'.ran| && s'.ran[i].sequence == id.sequence :: s'.ran[i].read == s.readCount)
      && (s'.phase.Idle? || s'.readCount > s.readCount ==>
            !Live(s'.heap, id.sequence) && multiset(s'.freed)[id.sequence] == 1)
  {
    CancelDooms(s, id);
    CancelKeeps(s, id);
    var s1 := DoCancel(s, id);
    DoomedForever(s1, steps, id, s.readCount);
    RunKeepsInv(s1, steps);
    CountAtMostOne(Run(s1, steps).freed, id.sequence);
  }

  /** Equal up to the mention of one id among the timers being cancelled. */
  ghost predicate SameButFor(s: State, s': State, id: TimerId) {
    && s' == s.(canceling := s'.canceling)
    && (forall x | x != id :: x in s'.canceling <==> x in s.canceling)
    && id.sequence < s.nextSequence
    && !(id.addr in s.heap && s.heap[id.addr].sequence == id.sequence)
  }

  lemma StaleBegin(s: State, s': State, id: TimerId)
    requires SameButFor(s, s', id)
    ensures SameButFor(DoBegin(s), DoBegin(s'), id)
  {
  }

  lemma StaleReset(s: State, s': State, id: TimerId)
    requires SameButFor(s, s', id)
    ensures SameButFor(DoResetNext(s), DoResetNext(s'), id)
  {
    if s.phase.Resetting? && s.phase.rest != [] && s.phase.rest[0].addr in s.heap {
      var addr := s.phase.rest[0].addr;
      assert IdAt(s.heap, addr) != id;
      assert Restarts(s, addr) == Restarts(s', addr);
    }
  }

  lemma StaleCancel(s: State, s': State, other: TimerId, id: TimerId)
    requires SameButFor(s, s', id)
    ensures SameButFor(DoCancel(s, other), DoCancel(s', other), id)
  {
  }

  lemma StaleAdd(s: State, s': State, addr: nat, id: TimerId)
    requires SameButFor(s, s', id)
    ensures SameButFor(DoAdd(s, addr), DoAdd(s', addr), id)
  {
  }

  lemma StaleStep(s: State, s': State, step: Step, id: TimerId)
    requires SameButFor(s, s', id)
    ensures SameButFor(Apply(s, step), Apply(s', step), id)
  {
    match step
    case AddInLoop(addr) => StaleAdd(s, s', addr, id);
    case CancelInLoop(other) => StaleCancel(s, s', other, id);
    case BeginRead => StaleBegin(s, s', id);
    case ResetNext => StaleReset(s, s', id);
    case _ =>
  }

  lemma {:induction false} StaleRun(s: State, s': State, steps: seq<Step>, id: TimerId)
    requires SameButFor(s, s', id)
    ensures SameButFor(Run(s, steps), Run(s', steps), id)
    decreases |steps|
  {
    if steps != [] {
      StaleStep(s, s', steps[0], id);
      StaleRun(Apply(s, steps[0]), Apply(s', steps[0]), steps[1..], id);
    }
  }

  /**
    Cancelling a stale id, even one whose address now belongs to another Timer, changes no timer, then or at any later
    point: every continuation goes as if it had not happened.
   */
  lemma StaleCancelIsHarmless(s: State, id: TimerId, steps: seq<Step>)
    requires Inv(s) && id.sequence < s.nextSequence
    requires !(id.addr in s.heap && s.heap[id.addr].sequence == id.sequence)
    ensures var s1 := Run(s, steps);
            var s2 := Run(Apply(s, CancelInLoop(id)), steps);
      s2 == s1.(canceling := s2.canceling)
  {
    if id in s.active {
      CancelFindsTimer(s, id);
      assert false;
    }
    var s' := Apply(s, CancelInLoop(id));
    CancelKeeps(s, id);
    assert SameButFor(s, s', id);
    StaleRun(s, s', steps, id);
  }
}
