/** The timer queue object: its methods carry out the steps of the machine, in place. */
module TimerQueues {
  import opened Common
  import opened TimerList
  import opened TimerMachine
  import opened TimerProofs

  /** What a callback (or another thread meanwhile) may do while a batch is running. */
  predicate CallbackStep(step: Step) {
    step.Tick? || step.Create? || step.AddInLoop? || step.CancelInLoop?
  }

  predicate CallbackScript(script: seq<Step>) {
    forall i | 0 <= i < |script| :: CallbackStep(script[i])
  }

  function Repeat(step: Step, n: nat): seq<Step> {
    seq(n, _ => step)
  }

  /** The callbacks of a batch, each followed by what it does. */
  function CallSteps(scripts: seq<seq<Step>>): seq<Step> {
    if scripts == [] then [] else CallSteps(scripts[..|scripts| - 1]) + [RunNext] + scripts[|scripts| - 1]
  }

  function ResetSteps(n: nat): seq<Step> {
    Repeat(ResetNext, n) + [Rearm]
  }

  function ReadSteps(scripts: seq<seq<Step>>): seq<Step> {
    [BeginRead] + CallSteps(scripts) + [StartReset] + ResetSteps(|scripts|)
  }

  lemma RunSnoc(s: State, steps: seq<Step>, step: Step)
    ensures Run(s, steps + [step]) == Apply(Run(s, steps), step)
  {
    RunConcat(s, steps, [step]);
    var s1 := Run(s, steps);
    assert Run(s1, [step]) == Run(Apply(s1, step), []);
  }

  lemma CallbackKeepsPhase(s: State, step: Step)
    requires CallbackStep(step)
    ensures Apply(s, step).phase == s.phase
  {
  }

  class TimerQueue {
    var timers: seq<Entry>
    var active: set<TimerId>
    var canceling: set<TimerId>
    var callingExpiredTimers: bool
    // the Timer objects, the timerfd and the clock
    var heap: map<nat, Timer>
    var created: set<nat>
    var nextSequence: nat
    var fd: TimerFd
    var clock: int
    var readCount: nat
    var ran: seq<Ran>
    var freed: seq<nat>
    // where handleRead is, with the vector of expired entries it holds
    ghost var phase: Phase

    ghost function View(): State
      reads this
    {
      State(timers, active, canceling, phase, heap, created, nextSequence, fd, clock, readCount, ran, freed, false)
    }

    ghost predicate Valid()
      reads this
    {
      Inv(View()) && callingExpiredTimers == phase.Calling?
    }

    constructor (now: int)
      requires now > 0
      ensures Valid() && View() == Init(now)
    {
      timers, active, canceling, callingExpiredTimers := [], {}, {}, false;
      heap, created, nextSequence := map[], {}, 0;
      fd, clock, readCount, ran, freed := TimerFd(None, false, now), now, 0, [], [];
      phase := Idle;
    }

    method Insert(addr: nat) returns (earliestChanged: bool)
      requires Indexed(View()) && addr in heap && At(heap, addr) !in timers
      modifies this`timers, this`active
      ensures View() == InsertTimer(old(View()), addr)
      ensures earliestChanged == EarliestChanges(old(timers), heap[addr].expiration)
    {
      InsertKeepsIndexed(View(), addr);
      earliestChanged := false;
      var when := heap[addr].expiration;
      if timers == [] || when < timers[0].when {
        earliestChanged := true;
      }
      timers := TimerList.Insert(timers, Entry(when, addr));
      active := active + {TimerId(addr, heap[addr].sequence)};
    }

    method AddTimerInLoop(addr: nat)
      requires Valid() && !phase.Resetting? && addr in created
      modifies this
      ensures Valid() && View() == Apply(old(View()), AddInLoop(addr))
    {
      ghost var before := View();
      AddKeeps(before, addr);
      created := created - {addr};
      var earliestChanged := Insert(addr);
      if earliestChanged {
        fd := SetTime(heap[addr].expiration, clock);
      }
    }

    method CancelInLoop(id: TimerId)
      requires Valid() && !phase.Resetting?
      modifies this
      ensures Valid() && View() == Apply(old(View()), Step.CancelInLoop(id))
    {
      ghost var before := View();
      CancelKeeps(before, id);
      if id in active {
        CancelFindsTimer(before, id);
        timers := Erase(timers, Entry(heap[id.addr].expiration, id.addr));
        freed := freed + [heap[id.addr].sequence];
        heap := heap - {id.addr};
        active := active - {id};
      } else if callingExpiredTimers {
        canceling := canceling + {id};
      }
    }

    /** The clock moves on, and the kernel with it. */
    method Tick(t: int)
      requires Valid()
      modifies this`clock, this`fd
      ensures Valid() && View() == Apply(old(View()), Step.Tick(t))
    {
      TickKeeps(View(), t);
      if clock <= t {
        clock, fd := t, Fire(fd, t);
      }
    }

    /** `new Timer` in any thread, at an address the allocator picks. */
    method Create(addr: nat, when: int, interval: nat)
      requires Valid()
      modifies this`heap, this`created, this`nextSequence
      ensures Valid() && View() == Apply(old(View()), Step.Create(addr, when, interval))
    {
      hide Inv;
      CreateKeeps(View(), addr, when, interval);
      if addr !in heap && addr < ADDR_MAX {
        heap := heap[addr := Timer(when, interval > 0, interval, nextSequence)];
        created, nextSequence := created + {addr}, nextSequence + 1;
      }
    }

    /** One action of a callback, or of another thread or the clock while it runs. */
    method Perform(step: Step)
      requires Valid() && !phase.Resetting? && CallbackStep(step)
      modifies this
      ensures Valid() && View() == Apply(old(View()), step) && phase == old(phase)
    {
      CallbackKeepsPhase(View(), step);
      match step {
        case Tick(t) => Tick(t);
        case Create(addr, when, interval) => Create(addr, when, interval);
        case AddInLoop(addr) =>
          if addr in created {
            AddTimerInLoop(addr);
          }
        case CancelInLoop(id) => CancelInLoop(id);
      }
    }

    method GetExpired(now: int) returns (expired: seq<Entry>)
      requires Indexed(View()) && forall e | e in timers :: e.addr < ADDR_MAX
      modifies this`timers, this`active
      ensures ExpiredCount(old(timers), now) <= |old(timers)|
      ensures expired == old(timers)[..ExpiredCount(old(timers), now)]
      ensures timers == old(timers)[ExpiredCount(old(timers), now)..]
      ensures active == old(active) - Ids(heap, expired)
    {
      ExpiredExactly(timers, now);
      var end := LowerBound(timers, Entry(now, ADDR_MAX));
      assert end == |timers| || now < timers[end].when by {
        assert end < |timers| ==> timers[end] in timers[end..];
      }
      expired := timers[..end];
      timers := timers[end..];
      var i := 0;
      while i < |expired|
        invariant 0 <= i <= |expired|
        invariant timers == old(timers)[end..]
        invariant active == old(active) - Ids(heap, expired[..i])
      {
        assert expired[i] in old(timers);
        IdsSnoc(heap, expired, i);
        active := active - {TimerId(expired[i].addr, heap[expired[i].addr].sequence)};
        i := i + 1;
      }
      assert expired[..i] == expired;
    }

    /** One round of the loop in `reset`: restart the timer or delete it. */
    method ResetOne(expired: seq<Entry>, i: nat, now: int)
      requires Valid() && i < |expired| && phase == Resetting(expired[i..], now)
      modifies this
      ensures Valid() && phase == Resetting(expired[i + 1..], now)
      ensures View() == Apply(old(View()), ResetNext)
    {
      hide Inv, Ids, Sorted, Matches, TimerList.Insert;
      ghost var before := View();
      HeadOfRest(before);
      ApplyKeeps(before, ResetNext);
      var addr := expired[i].addr;
      assert expired[i..][0] == expired[i] && expired[i..][1..] == expired[i + 1..];
      phase := Resetting(expired[i + 1..], now);
      if heap[addr].repeat && TimerId(addr, heap[addr].sequence) !in canceling {
        RestartIsIndexed(before, addr, now);
        heap := heap[addr := heap[addr].(expiration := now + heap[addr].interval)];
        var _ := Insert(addr);
      } else {
        freed := freed + [heap[addr].sequence];
        heap := heap - {addr};
      }
    }

    /** The end of `reset`: set the timerfd for the earliest timer left. */
    method RearmTimerfd()
      requires Valid() && phase.Resetting? && phase.rest == []
      modifies this`phase, this`fd
      ensures Valid() && phase.Idle? && View() == Apply(old(View()), Rearm)
    {
      RearmKeeps(View());
      phase := Idle;
      if timers != [] {
        assert timers[0] in timers;
        var nextExpire := heap[timers[0].addr].expiration;
        if nextExpire > 0 {
          fd := SetTime(nextExpire, clock);
        }
      }
    }

    method Reset(expired: seq<Entry>, now: int)
      requires Valid() && phase == Resetting(expired, now)
      modifies this
      ensures Valid() && phase.Idle?
      ensures View() == Run(old(View()), ResetSteps(|expired|))
    {
      ghost var start := View();
      var i := 0;
      assert expired[0..] == expired;
      while i < |expired|
        invariant 0 <= i <= |expired|
        invariant Valid() && phase == Resetting(expired[i..], now)
        invariant View() == Run(start, Repeat(ResetNext, i))
      {
        RunSnoc(start, Repeat(ResetNext, i), ResetNext);
        assert Repeat(ResetNext, i + 1) == Repeat(ResetNext, i) + [ResetNext];
        ResetOne(expired, i, now);
        i := i + 1;
      }
      RunSnoc(start, Repeat(ResetNext, i), Rearm);
      RearmTimerfd();
    }

    /** The start of `handleRead`: clear the timerfd and take the expired batch. */
    method Begin() returns (expired: seq<Entry>)
      requires Valid() && phase.Idle?
      modifies this
      ensures Valid() && phase == Calling(expired, 0, old(clock))
      ensures View() == Apply(old(View()), BeginRead)
      ensures |expired| == ExpiredCount(old(timers), old(clock))
    {
      hide Inv, Ids, AllIn, LowerBound, Sorted, Matches;
      BeginReady(View());
      var now := clock;
      fd := fd.(readable := false);
      expired := GetExpired(now);
      callingExpiredTimers, canceling := true, {};
      readCount, phase := readCount + 1, Calling(expired, 0, now);
    }

    /** The callback of one batch member runs. */
    method RunOne(expired: seq<Entry>, i: nat, now: int)
      requires Valid() && i < |expired| && phase == Calling(expired, i, now)
      modifies this`ran, this`phase
      ensures Valid() && phase == Calling(expired, i + 1, now)
      ensures View() == Apply(old(View()), RunNext)
    {
      hide Inv;
      RunKeeps(View());
      BatchMember(View(), i);
      ran := ran + [Ran(heap[expired[i].addr].sequence, readCount, now)];
      phase := Calling(expired, i + 1, now);
    }

    /** One callback of the batch: the timer runs, then its script is carried out. */
    method Call(expired: seq<Entry>, i: nat, now: int, script: seq<Step>)
      requires Valid() && i < |expired| && phase == Calling(expired, i, now) && CallbackScript(script)
      modifies this
      ensures Valid() && phase == Calling(expired, i + 1, now)
      ensures View() == Run(Apply(old(View()), RunNext), script)
    {
      hide Inv, Apply;
      RunOne(expired, i, now);
      ghost var ranState := View();
      var j := 0;
      while j < |script|
        invariant 0 <= j <= |script|
        invariant Valid() && phase == Calling(expired, i + 1, now)
        invariant View() == Run(ranState, script[..j])
      {
        RunSnoc(ranState, script[..j], script[j]);
        assert script[..j + 1] == script[..j] + [script[j]];
        Perform(script[j]);
        j := j + 1;
      }
      assert script[..j] == script;
    }

    /** After the callbacks. */
    method EndCalling(expired: seq<Entry>, now: int)
      requires Valid() && phase == Calling(expired, |expired|, now)
      modifies this`callingExpiredTimers, this`phase
      ensures Valid() && phase == Resetting(expired, now)
      ensures View() == Apply(old(View()), StartReset)
    {
      StartResetKeeps(View());
      callingExpiredTimers, phase := false, Resetting(expired, now);
    }

    /** `scripts[i]` is what the i-th callback of the batch does. */
    method HandleRead(scripts: seq<seq<Step>>)
      requires Valid() && phase.Idle?
      requires |scripts| == ExpiredCount(timers, clock)
      requires forall i | 0 <= i < |scripts| :: CallbackScript(scripts[i])
      modifies this
      ensures Valid() && phase.Idle?
      ensures View() == Run(old(View()), ReadSteps(scripts))
    {
      ghost var start := View();
      var now := clock;
      var expired := Begin();
      ghost var called := View();
      var i := 0;
      while i < |expired|
        invariant 0 <= i <= |expired| == |scripts|
        invariant Valid() && phase == Calling(expired, i, now)
        invariant View() == Run(called, CallSteps(scripts[..i]))
      {
        CallOnce(called, scripts, i);
        Call(expired, i, now, scripts[i]);
        i := i + 1;
      }
      assert scripts[..i] == scripts;
      ghost var done := View();
      EndCalling(expired, now);
      ReadRuns(start, called, done, View(), scripts);
      Reset(expired, now);
    }
  }

  lemma IdsSnoc(heap: map<nat, Timer>, entries: seq<Entry>, i: nat)
    requires i < |entries|
    ensures Ids(heap, entries[..i + 1]) == Ids(heap, entries[..i]) + {IdAt(heap, entries[i].addr)}
  {
    forall id ensures id in Ids(heap, entries[..i + 1]) <==> id in Ids(heap, entries[..i]) + {IdAt(heap, entries[i].addr)} {
      if id in Ids(heap, entries[..i]) {
        var e :| e in entries[..i] && id == IdAt(heap, e.addr);
        assert e in entries[..i + 1];
      } else if id == IdAt(heap, entries[i].addr) {
        assert entries[..i + 1][i] == entries[i];
      }
    }
  }

  lemma BatchMember(s: State, i: nat)
    requires Inv(s) && s.phase.Calling? && i < |s.phase.batch|
    ensures s.phase.batch[i].addr in s.heap
  {
    assert s.phase.batch[i] in Held(s.phase);
  }

  lemma BeginReady(s: State)
    requires Inv(s) && s.phase.Idle?
    ensures Indexed(s) && forall e | e in s.timers :: e.addr < ADDR_MAX
    ensures Inv(DoBegin(s)) && !DoBegin(s).fault
  {
    QueueAddressesOk(s);
    BeginKeeps(s);
  }

  lemma RestartIsIndexed(s: State, addr: nat, now: int)
    requires Inv(s) && s.phase.Resetting? && s.phase.rest != [] && addr == s.phase.rest[0].addr && addr in s.heap
    ensures var h := s.heap[addr := s.heap[addr].(expiration := now + s.heap[addr].interval)];
      && Sorted(s.timers) && Matches(h, s.timers) && s.active == Ids(h, s.timers)
      && At(h, addr) !in s.timers
  {
    HeadOfRest(s);
    var h := s.heap[addr := s.heap[addr].(expiration := now + s.heap[addr].interval)];
    IdsSame(s.heap, h, s.timers);
  }

  lemma CallOnce(called: State, scripts: seq<seq<Step>>, i: nat)
    requires i < |scripts|
    ensures Run(called, CallSteps(scripts[..i + 1])) == Run(Apply(Run(called, CallSteps(scripts[..i])), RunNext), scripts[i])
  {
    assert scripts[..i + 1][..i] == scripts[..i];
    RunConcat(called, CallSteps(scripts[..i]) + [RunNext], scripts[i]);
    RunSnoc(called, CallSteps(scripts[..i]), RunNext);
  }

  lemma ReadRuns(start: State, called: State, done: State, resetting: State, scripts: seq<seq<Step>>)
    requires called == Apply(start, BeginRead)
    requires done == Run(called, CallSteps(scripts))
    requires resetting == Apply(done, StartReset)
    ensures Run(start, ReadSteps(scripts)) == Run(resetting, ResetSteps(|scripts|))
  {
    var calls := CallSteps(scripts);
    var first := [BeginRead] + calls;
    RunConcat(start, first + [StartReset], ResetSteps(|scripts|));
    RunSnoc(start, first, StartReset);
    RunConcat(start, [BeginRead], calls);
    assert Run(start, [BeginRead]) == Run(called, []);
  }
}
