/** When timers run: each at its own time, a repeating one at least an interval after its last run, a one-shot one once. */
module TimerTimes {
  import opened Common
  import opened TimerList
  import opened TimerMachine
  import opened TimerProofs

  /** What addTimer was asked for. */
  datatype Asked = Asked(when: int, interval: nat)

  /** The timers a run creates, by sequence number: from the steps alone but for the addresses that are taken. */
  function Creations(s: State, steps: seq<Step>): seq<Asked>
    decreases |steps|
  {
    if steps == [] then [] else CreatedBy(s, steps[0]) + Creations(Apply(s, steps[0]), steps[1..])
  }

  function CreatedBy(s: State, step: Step): seq<Asked> {
    if step.Create? && step.addr !in s.heap && step.addr < ADDR_MAX then [Asked(step.when, step.interval)] else []
  }

  /** The time of the last run of a timer. */
  function LastRun(ran: seq<Ran>, q: nat): Option<int> {
    if ran == [] then None
    else if ran[|ran| - 1].sequence == q then Some(ran[|ran| - 1].now)
    else LastRun(ran[..|ran| - 1], q)
  }

  /** A run at `now` is one the timer was due for. */
  predicate InTime(asked: Asked, last: Option<int>, now: int) {
    match last
    case None => asked.when <= now
    case Some(t) => asked.interval > 0 && t + asked.interval <= now
  }

  /** Every run in the log was due: not before the time asked for, nor within an interval of the run before. */
  ghost predicate WellTimed(asked: seq<Asked>, ran: seq<Ran>) {
    forall j | 0 <= j < |ran| ::
      ran[j].sequence < |asked| && InTime(asked[ran[j].sequence], LastRun(ran[..j], ran[j].sequence), ran[j].now)
  }

  /** The expiration of a timer waiting for its next run. */
  predicate Due(expiration: int, asked: Asked, last: Option<int>) {
    match last
    case None => expiration == asked.when
    case Some(t) => asked.interval > 0 && expiration == t + asked.interval
  }

  /** The members of the batch whose callback has been called. */
  function Called(p: Phase): seq<Entry> {
    match p
    case Idle => []
    case Calling(batch, next, _) => if next <= |batch| then batch[..next] else batch
    case Resetting(rest, _) => rest
  }

  ghost predicate TimerOk(s: State, asked: seq<Asked>, a: nat)
    requires a in s.heap
  {
    var timer := s.heap[a];
    && timer.sequence < |asked|
    && timer.interval == asked[timer.sequence].interval && timer.repeat == (timer.interval > 0)
    && (if At(s.heap, a) in Called(s.phase) then !s.phase.Idle? && LastRun(s.ran, timer.sequence) == Some(s.phase.now)
        else Due(timer.expiration, asked[timer.sequence], LastRun(s.ran, timer.sequence)))
  }

  ghost predicate Clocked(s: State, asked: seq<Asked>) {
    && |asked| == s.nextSequence
    && (forall a | a in s.heap :: TimerOk(s, asked, a))
    && (s.phase.Calling? ==> forall e | e in s.phase.batch :: e.when <= s.phase.now)
    && WellTimed(asked, s.ran)
  }

  // ---------- steps ----------

  lemma {:induction false} NeverRan(ran: seq<Ran>, q: nat)
    requires forall r | r in ran :: r.sequence != q
    ensures LastRun(ran, q) == None
    decreases |ran|
  {
    if ran != [] {
      NeverRan(ran[..|ran| - 1], q);
    }
  }

  lemma MoreAsked(asked: seq<Asked>, more: seq<Asked>, ran: seq<Ran>)
    requires WellTimed(asked, ran)
    ensures WellTimed(asked + more, ran)
  {
    hide LastRun;
  }

  lemma CreateClocked(s: State, asked: seq<Asked>, addr: nat, when: int, interval: nat)
    requires Inv(s) && Clocked(s, asked)
    ensures Clocked(DoCreate(s, addr, when, interval), asked + CreatedBy(s, Create(addr, when, interval)))
  {
    var s' := DoCreate(s, addr, when, interval);
    if addr !in s.heap && addr < ADDR_MAX {
      var more := asked + [Asked(when, interval)];
      MoreAsked(asked, [Asked(when, interval)], s.ran);
      NeverRan(s.ran, s.nextSequence);
      forall a | a in s'.heap ensures TimerOk(s', more, a) {
        if a == addr {
          assert forall e | e in Held(s.phase) :: e.addr != addr;
          assert forall e | e in Called(s.phase) :: e in Held(s.phase);
        } else {
          assert TimerOk(s, asked, a);
        }
      }
    } else {
      assert asked + [] == asked;
    }
  }

  /** Steps that leave the log and the members called alone, and change no timer they leave. */
  lemma SameClocked(s: State, s': State, asked: seq<Asked>)
    requires Clocked(s, asked) && s'.nextSequence == s.nextSequence && s'.ran == s.ran
    requires forall a | a in s'.heap :: a in s.heap && s'.heap[a] == s.heap[a]
    requires Called(s'.phase) == Called(s.phase)
    requires (s'.phase.Idle? && s.phase.Idle?) || Called(s.phase) == [] || (!s'.phase.Idle? && !s.phase.Idle? && s'.phase.now == s.phase.now)
    requires s'.phase.Calling? ==> forall e | e in s'.phase.batch :: e.when <= s'.phase.now
    ensures Clocked(s', asked)
  {
    forall a | a in s'.heap ensures TimerOk(s', asked, a) {
      assert TimerOk(s, asked, a);
    }
  }

  lemma BeginClocked(s: State, asked: seq<Asked>)
    requires Inv(s) && Clocked(s, asked)
    ensures Clocked(DoBegin(s), asked)
  {
    if s.phase.Idle? {
      QueueAddressesOk(s);
      ExpiredExactly(s.timers, s.clock);
      assert Called(DoBegin(s).phase) == [];
      SameClocked(s, DoBegin(s), asked);
    }
  }

  lemma LastRunSnoc(ran: seq<Ran>, r: Ran, q: nat)
    ensures LastRun(ran + [r], q) == if r.sequence == q then Some(r.now) else LastRun(ran, q)
  {
    assert (ran + [r])[..|ran|] == ran;
  }

  lemma WellTimedSnoc(asked: seq<Asked>, ran: seq<Ran>, r: Ran)
    requires WellTimed(asked, ran) && r.sequence < |asked| && InTime(asked[r.sequence], LastRun(ran, r.sequence), r.now)
    ensures WellTimed(asked, ran + [r])
  {
    hide LastRun, InTime;
    forall j | 0 <= j < |ran + [r]|
      ensures (ran + [r])[j].sequence < |asked|
      ensures InTime(asked[(ran + [r])[j].sequence], LastRun((ran + [r])[..j], (ran + [r])[j].sequence), (ran + [r])[j].now)
    {
      assert (ran + [r])[..j] == ran[..j];
      assert ran[..|ran|] == ran;
    }
  }

  lemma OneMore(batch: seq<Entry>, n: nat)
    requires Sorted(batch) && n < |batch|
    ensures batch[n] !in batch[..n] && forall x :: x in batch[..n + 1] <==> x == batch[n] || x in batch[..n]
  {
    assert forall i | 0 <= i < n :: Less(batch[i], batch[n]);
    assert batch[..n + 1] == batch[..n] + [batch[n]];
  }

  lemma BatchFacts(s: State)
    requires Inv(s) && s.phase.Calling?
    ensures Sorted(s.phase.batch) && Matches(s.heap, s.phase.batch) && s.phase.next <= |s.phase.batch|
  {
  }

  /** The member of the batch that is called next has not been called. */
  lemma NextNotCalled(s: State)
    requires Inv(s) && s.phase.Calling? && s.phase.next < |s.phase.batch|
    ensures var e := s.phase.batch[s.phase.next];
      && e.addr in s.heap && e == At(s.heap, e.addr) && e !in Called(s.phase)
      && (forall x :: x in Called(DoRun(s).phase) <==> x == e || x in Called(s.phase))
  {
    hide Inv, Sorted;
    BatchFacts(s);
    OneMore(s.phase.batch, s.phase.next);
    EntryIsAt(s.heap, s.phase.batch, s.phase.batch[s.phase.next]);
  }

  lemma RunClocked(s: State, asked: seq<Asked>)
    requires Inv(s) && Clocked(s, asked)
    ensures Clocked(DoRun(s), asked)
  {
    if s.phase.Calling? && s.phase.next < |s.phase.batch| {
      NextNotCalled(s);
      var e := s.phase.batch[s.phase.next];
      var q := s.heap[e.addr].sequence;
      var r := Ran(q, s.readCount, s.phase.now);
      var s' := DoRun(s);
      assert TimerOk(s, asked, e.addr);
      assert e.when <= s.phase.now;
      WellTimedSnoc(asked, s.ran, r);
      hide LastRun, WellTimed, Called;
      forall a | a in s'.heap ensures TimerOk(s', asked, a) {
        LastRunSnoc(s.ran, r, s.heap[a].sequence);
        assert TimerOk(s, asked, a);
        assert a != e.addr ==> s.heap[a].sequence != q;
      }
    }
  }

  lemma StartResetClocked(s: State, asked: seq<Asked>)
    requires Inv(s) && Clocked(s, asked)
    ensures Clocked(DoStartReset(s), asked)
  {
    if s.phase.Calling? && s.phase.next >= |s.phase.batch| {
      assert s.phase.batch[..|s.phase.batch|] == s.phase.batch;
      SameClocked(s, DoStartReset(s), asked);
    }
  }

  /** One member of the batch leaves it, restarted or freed. */
  lemma LeavesBatch(s: State, s': State, asked: seq<Asked>, addr: nat)
    requires Clocked(s, asked) && s.phase.Resetting? && s.phase.rest != [] && addr == s.phase.rest[0].addr && addr in s.heap
    requires At(s.heap, addr) == s.phase.rest[0] && forall e | e in s.phase.rest[1..] :: e.addr != addr
    requires s'.phase == Resetting(s.phase.rest[1..], s.phase.now) && s'.ran == s.ran && s'.nextSequence == s.nextSequence
    requires forall a | a in s'.heap && a != addr :: a in s.heap && s'.heap[a] == s.heap[a]
    requires addr in s'.heap ==>
               && s.heap[addr].repeat
               && s'.heap[addr] == s.heap[addr].(expiration := s.phase.now + s.heap[addr].interval)
    ensures Clocked(s', asked)
  {
    hide LastRun, WellTimed;
    var rest := s.phase.rest;
    assert forall e :: e in rest <==> e == rest[0] || e in rest[1..];
    assert TimerOk(s, asked, addr);
    forall a | a in s'.heap ensures TimerOk(s', asked, a) {
      assert a in s.heap && TimerOk(s, asked, a);
      assert At(s'.heap, a) in rest[1..] ==> a != addr;
    }
  }

  lemma ResetClocked(s: State, asked: seq<Asked>)
    requires Inv(s) && Clocked(s, asked)
    ensures Clocked(DoResetNext(s), asked)
  {
    if s.phase.Resetting? && s.phase.rest != [] {
      hide Inv, Clocked, Insert, Ids;
      HeadOfRest(s);
      var addr := s.phase.rest[0].addr;
      if Restarts(s, addr) {
        ResetRestarts(s);
      } else {
        ResetFrees(s);
      }
      LeavesBatch(s, DoResetNext(s), asked, addr);
    }
  }

  lemma RearmClocked(s: State, asked: seq<Asked>)
    requires Inv(s) && Clocked(s, asked)
    ensures Clocked(DoRearm(s), asked)
  {
    if s.phase.Resetting? && s.phase.rest == [] {
      SameClocked(s, DoRearm(s), asked);
    }
  }

  lemma AddClocked(s: State, asked: seq<Asked>, addr: nat)
    requires Inv(s) && Clocked(s, asked)
    ensures Clocked(DoAdd(s, addr), asked)
  {
    SameClocked(s, DoAdd(s, addr), asked);
  }

  lemma CancelClocked(s: State, asked: seq<Asked>, id: TimerId)
    requires Inv(s) && Clocked(s, asked)
    ensures Clocked(DoCancel(s, id), asked)
  {
    SameClocked(s, DoCancel(s, id), asked);
  }

  lemma StepClocked(s: State, asked: seq<Asked>, step: Step)
    requires Inv(s) && Clocked(s, asked)
    ensures Clocked(Apply(s, step), asked + CreatedBy(s, step))
  {
    hide Inv, Clocked;
    assert asked + [] == asked;
    match step
    case Tick(t) => TickClocked(s, asked, t);
    case Create(addr, when, interval) => CreateClocked(s, asked, addr, when, interval);
    case AddInLoop(addr) => AddClocked(s, asked, addr);
    case CancelInLoop(id) => CancelClocked(s, asked, id);
    case BeginRead => BeginClocked(s, asked);
    case RunNext => RunClocked(s, asked);
    case StartReset => StartResetClocked(s, asked);
    case ResetNext => ResetClocked(s, asked);
    case Rearm => RearmClocked(s, asked);
  }

  lemma TickClocked(s: State, asked: seq<Asked>, t: int)
    requires Inv(s) && Clocked(s, asked)
    ensures Clocked(Apply(s, Tick(t)), asked)
  {
    SameClocked(s, Apply(s, Tick(t)), asked);
  }

  lemma {:induction false} RunIsClocked(s: State, asked: seq<Asked>, steps: seq<Step>)
    requires Inv(s) && Clocked(s, asked)
    ensures Clocked(Run(s, steps), asked + Creations(s, steps))
    decreases |steps|
  {
    hide Inv, Clocked, Apply, CreatedBy;
    if steps == [] {
      assert asked + [] == asked;
    } else {
      ApplyKeeps(s, steps[0]);
      StepClocked(s, asked, steps[0]);
      RunIsClocked(Apply(s, steps[0]), asked + CreatedBy(s, steps[0]), steps[1..]);
      assert asked + CreatedBy(s, steps[0]) + Creations(Apply(s, steps[0]), steps[1..]) == asked + Creations(s, steps);
    }
  }

  /**
    Over every run: each callback ran no earlier than it was asked for, a repeating one no earlier than one interval after
    its run before, and one without an interval once; and every timer in the queue expires exactly at the time asked for,
    or exactly one interval after its last run.
   */
  lemma TimersKeepTime(clock: int, steps: seq<Step>)
    requires clock > 0
    ensures var s := Run(Init(clock), steps); var asked := Creations(Init(clock), steps);
      && |asked| == s.nextSequence
      && WellTimed(asked, s.ran)
      && (forall e | e in s.timers ::
            && e.addr in s.heap && s.heap[e.addr].sequence < |asked|
            && Due(e.when, asked[s.heap[e.addr].sequence], LastRun(s.ran, s.heap[e.addr].sequence)))
  {
    var s0 := Init(clock);
    assert Clocked(s0, []);
    RunKeepsInv(s0, steps);
    RunIsClocked(s0, [], steps);
    assert [] + Creations(s0, steps) == Creations(s0, steps);
    var s, asked := Run(s0, steps), Creations(s0, steps);
    forall e | e in s.timers
      ensures e.addr in s.heap && s.heap[e.addr].sequence < |asked|
      ensures Due(e.when, asked[s.heap[e.addr].sequence], LastRun(s.ran, s.heap[e.addr].sequence))
    {
      EntryIsAt(s.heap, s.timers, e);
      assert TimerOk(s, asked, e.addr);
      assert e !in Held(s.phase);
      assert forall x | x in Called(s.phase) :: x in Held(s.phase);
    }
  }
}
