/**
  The timer queue as a machine over its atomic steps, with the timerfd and the heap of Timer objects.

  A Timer lives at an address that may be given out again once the Timer is deleted; its sequence number is never
  reused. `handleRead` is cut where user callbacks and other threads can act: BeginRead (read the timerfd, take the
  expired batch), one RunNext per callback, StartReset, one ResetNext per batch member, Rearm. Timers may be created
  by any thread at any point; AddInLoop and CancelInLoop happen in the loop thread, between or inside callbacks.
 */
module TimerMachine {
  import opened Common
  import opened TimerList

  const MICROS_PER_SECOND := 1_000_000

  /** UINTPTR_MAX, the address no Timer has; it closes the sentry of getExpired. */
  const ADDR_MAX: nat := 0xFFFF_FFFF_FFFF_FFFF

  datatype Timer = Timer(expiration: int, repeat: bool, interval: nat, sequence: nat)

  datatype TimerId = TimerId(addr: nat, sequence: nat)

  /** One-shot timerfd: the armed deadline, whether it has expired unread, and when it was last set. */
  datatype TimerFd = TimerFd(armed: Option<int>, readable: bool, lastSet: int)

  datatype Phase =
    | Idle
    | Calling(batch: seq<Entry>, next: nat, now: int)
    | Resetting(rest: seq<Entry>, now: int)

  /** One callback run: the timer's sequence number, and the ordinal and the time of the handleRead that ran it. */
  datatype Ran = Ran(sequence: nat, read: nat, now: int)

  datatype State = State(
    timers: seq<Entry>,
    active: set<TimerId>,
    canceling: set<TimerId>,
    phase: Phase,
    heap: map<nat, Timer>,
    created: set<nat>,          // allocated, addTimerInLoop not yet run
    nextSequence: nat,
    fd: TimerFd,
    clock: int,
    readCount: nat,
    ran: seq<Ran>,
    freed: seq<nat>,
    fault: bool)                // a failed assertion, or a use of a deleted Timer

  datatype Step =
    | Tick(t: int)
    | Create(addr: nat, when: int, interval: nat)
    | AddInLoop(addr: nat)
    | CancelInLoop(id: TimerId)
    | BeginRead
    | RunNext
    | StartReset
    | ResetNext
    | Rearm

  // ---------- the timerfd ----------

  datatype Timespec = Timespec(sec: int, nsec: int)

  /** The relative timeout handed to timerfd_settime: never under 100 microseconds. */
  function HowMuchTimeFromNow(when: int, now: int): (ts: Timespec)
    ensures ts.sec * 1_000_000_000 + ts.nsec == 1000 * (Max(when, now + 100) - now)
    ensures 0 <= ts.sec && 0 <= ts.nsec < 1_000_000_000
  {
    var micros := if when - now < 100 then 100 else when - now;
    Timespec(micros / MICROS_PER_SECOND, (micros % MICROS_PER_SECOND) * 1000)
  }

  /** timerfd_settime: arms the timer relative to now and drops an expiration not yet read. */
  function SetTime(expiration: int, now: int): TimerFd {
    var ts := HowMuchTimeFromNow(expiration, now);
    TimerFd(Some(now + ts.sec * MICROS_PER_SECOND + ts.nsec / 1000), false, now)
  }

  lemma SetTimeDeadline(expiration: int, now: int)
    ensures SetTime(expiration, now) == TimerFd(Some(Max(expiration, now + 100)), false, now)
  {
    var ts := HowMuchTimeFromNow(expiration, now);
    var gap := Max(expiration, now + 100) - now;
    assert 1000 * (ts.sec * MICROS_PER_SECOND) + ts.nsec == 1000 * gap;
    assert ts.nsec == 1000 * (gap - ts.sec * MICROS_PER_SECOND);
    assert ts.nsec / 1000 == gap - ts.sec * MICROS_PER_SECOND;
  }

  /** The kernel side: once the deadline is reached the descriptor becomes readable. */
  function Fire(fd: TimerFd, t: int): TimerFd {
    if fd.armed.Some? && fd.armed.value <= t then fd.(armed := None, readable := true) else fd
  }

  // ---------- steps ----------

  function SequenceAt(heap: map<nat, Timer>, addr: nat): nat {
    if addr in heap then heap[addr].sequence else 0
  }

  function IdAt(heap: map<nat, Timer>, addr: nat): TimerId {
    TimerId(addr, SequenceAt(heap, addr))
  }

  predicate EarliestChanges(timers: seq<Entry>, when: int) {
    timers == [] || when < timers[0].when
  }

  /** `insert`: into both indexes; either insertion finding its element present is a failed assertion. */
  function InsertTimer(s: State, addr: nat): State {
    if addr !in s.heap then s.(fault := true) else
    var e := Entry(s.heap[addr].expiration, addr);
    var id := IdAt(s.heap, addr);
    s.(timers := Insert(s.timers, e), active := s.active + {id},
       fault := s.fault || e in s.timers || id in s.active)
  }

  /** `delete timer`: deleting what is not allocated is a fault. */
  function Free(s: State, addr: nat): State {
    if addr !in s.heap then s.(fault := true) else
    s.(heap := s.heap - {addr}, freed := s.freed + [s.heap[addr].sequence])
  }

  function DoCreate(s: State, addr: nat, when: int, interval: nat): State {
    if addr in s.heap || addr >= ADDR_MAX then s else
    s.(heap := s.heap[addr := Timer(when, interval > 0, interval, s.nextSequence)],
       created := s.created + {addr}, nextSequence := s.nextSequence + 1)
  }

  function DoAdd(s: State, addr: nat): State {
    if addr !in s.created || s.phase.Resetting? then s else
    var s1 := InsertTimer(s.(created := s.created - {addr}), addr);
    if addr in s.heap && EarliestChanges(s.timers, s.heap[addr].expiration)
    then s1.(fd := SetTime(s.heap[addr].expiration, s.clock))
    else s1
  }

  function DoCancel(s: State, id: TimerId): State {
    if s.phase.Resetting? then s
    else if id in s.active then
      if id.addr !in s.heap then s.(fault := true) else
      var e := Entry(s.heap[id.addr].expiration, id.addr);
      var s1 := s.(timers := Erase(s.timers, e), active := s.active - {id},
                   fault := s.fault || e !in s.timers);
      Free(s1, id.addr)
    else if s.phase.Calling? then s.(canceling := s.canceling + {id})
    else s
  }

  function Ids(heap: map<nat, Timer>, entries: seq<Entry>): set<TimerId> {
    set e | e in entries :: IdAt(heap, e.addr)
  }

  function ExpiredCount(timers: seq<Entry>, now: int): nat {
    LowerBound(timers, Entry(now, ADDR_MAX))
  }

  predicate AllIn(heap: map<nat, Timer>, entries: seq<Entry>) {
    forall e | e in entries :: e.addr in heap
  }

  function DoBegin(s: State): State {
    if !s.phase.Idle? then s else
    var k := ExpiredCount(s.timers, s.clock);
    if k > |s.timers| then s.(fault := true) else
    var batch := s.timers[..k];
    s.(timers := s.timers[k..], active := s.active - Ids(s.heap, batch), canceling := {},
       fd := s.fd.(readable := false), readCount := s.readCount + 1,
       phase := Calling(batch, 0, s.clock),
       fault := s.fault || !AllIn(s.heap, batch) || !(Ids(s.heap, batch) <= s.active))
  }

  function DoRun(s: State): State {
    if !s.phase.Calling? || s.phase.next >= |s.phase.batch| then s else
    var addr := s.phase.batch[s.phase.next].addr;
    s.(phase := s.phase.(next := s.phase.next + 1),
       ran := s.ran + [Ran(SequenceAt(s.heap, addr), s.readCount, s.phase.now)],
       fault := s.fault || addr !in s.heap)
  }

  function DoStartReset(s: State): State {
    if !s.phase.Calling? || s.phase.next < |s.phase.batch| then s else
    s.(phase := Resetting(s.phase.batch, s.phase.now))
  }

  function DoResetNext(s: State): State {
    if !s.phase.Resetting? || s.phase.rest == [] then s else
    var addr := s.phase.rest[0].addr;
    var s1 := s.(phase := s.phase.(rest := s.phase.rest[1..]));
    if addr !in s.heap then s1.(fault := true)
    else if s.heap[addr].repeat && IdAt(s.heap, addr) !in s.canceling then
      var timer := s.heap[addr];
      InsertTimer(s1.(heap := s.heap[addr := timer.(expiration := s.phase.now + timer.interval)]), addr)
    else Free(s1, addr)
  }

  function DoRearm(s: State): State {
    if !s.phase.Resetting? || s.phase.rest != [] then s else
    var s1 := s.(phase := Idle);
    if s.timers == [] then s1
    else if s.timers[0].addr !in s.heap then s1.(fault := true)
    else
      var nextExpire := s.heap[s.timers[0].addr].expiration;
      if nextExpire > 0 then s1.(fd := SetTime(nextExpire, s.clock)) else s1
  }

  function Apply(s: State, step: Step): State {
    match step
    case Tick(t) => if t < s.clock then s else s.(clock := t, fd := Fire(s.fd, t))
    case Create(addr, when, interval) => DoCreate(s, addr, when, interval)
    case AddInLoop(addr) => DoAdd(s, addr)
    case CancelInLoop(id) => DoCancel(s, id)
    case BeginRead => DoBegin(s)
    case RunNext => DoRun(s)
    case StartReset => DoStartReset(s)
    case ResetNext => DoResetNext(s)
    case Rearm => DoRearm(s)
  }

  function Run(s: State, steps: seq<Step>): State
    decreases |steps|
  {
    if steps == [] then s else Run(Apply(s, steps[0]), steps[1..])
  }

  function Init(clock: int): State {
    State([], {}, {}, Idle, map[], {}, 0, TimerFd(None, false, clock), clock, 0, [], [], false)
  }

  lemma {:induction false} RunConcat(s: State, a: seq<Step>, b: seq<Step>)
    ensures Run(s, a + b) == Run(Run(s, a), b)
    decreases |a|
  {
    if a == [] {
      assert a + b == b;
    } else {
      assert (a + b)[1..] == a[1..] + b;
      RunConcat(Apply(s, a[0]), a[1..], b);
    }
  }
}
