/** What every run of the timer queue keeps, and what follows from it. */
module TimerProofs {
  import opened Common
  import opened TimerList
  import opened TimerMachine

  // ---------- the invariant ----------

  function Held(p: Phase): seq<Entry> {
    match p
    case Idle => []
    case Calling(batch, _, _) => batch
    case Resetting(rest, _) => rest
  }

  ghost predicate Matches(heap: map<nat, Timer>, entries: seq<Entry>) {
    forall e | e in entries :: e.addr in heap && heap[e.addr].expiration == e.when
  }

  function At(heap: map<nat, Timer>, addr: nat): Entry
    requires addr in heap
  {
    Entry(heap[addr].expiration, addr)
  }

  /** Both indexes hold the same timers, under their current expirations. */
  ghost predicate Indexed(s: State) {
    && Sorted(s.timers)
    && Matches(s.heap, s.timers)
    && s.active == Ids(s.heap, s.timers)
  }

  ghost predicate BatchOk(s: State) {
    && Sorted(Held(s.phase))
    && Matches(s.heap, Held(s.phase))
    && (s.phase.Calling? ==> s.phase.next <= |s.phase.batch| && 0 < s.phase.now <= s.clock)
    && (s.phase.Resetting? ==> 0 < s.phase.now <= s.clock)
  }

  /** Every allocated Timer is in exactly one place: awaiting insertion, in the queue, or in the running batch. */
  ghost predicate Placed(s: State) {
    && s.created <= s.heap.Keys
    && (forall a | a in s.heap ::
          && a < ADDR_MAX
          && (a in s.created || At(s.heap, a) in s.timers || At(s.heap, a) in Held(s.phase))
          && !(a in s.created && At(s.heap, a) in s.timers)
          && !(a in s.created && At(s.heap, a) in Held(s.phase))
          && !(At(s.heap, a) in s.timers && At(s.heap, a) in Held(s.phase)))
  }

  ghost predicate Live(heap: map<nat, Timer>, q: nat) {
    exists a :: a in heap && heap[a].sequence == q
  }

  ghost predicate NoDuplicates(xs: seq<nat>) {
    forall i, j :: 0 <= i < j < |xs| ==> xs[i] != xs[j]
  }

  /** Every sequence number handed out belongs to one allocated Timer or was freed, once, and never both. */
  ghost predicate Accounted(s: State) {
    && (forall a | a in s.heap :: s.heap[a].sequence < s.nextSequence)
    && (forall a, b | a in s.heap && b in s.heap :: s.heap[a].sequence == s.heap[b].sequence ==> a == b)
    && NoDuplicates(s.freed)
    && (forall q | q in s.freed :: q < s.nextSequence && !Live(s.heap, q))
    && (forall q | 0 <= q < s.nextSequence :: q in s.freed || Live(s.heap, q))
  }

  /** The descriptor wakes the loop in time for the earliest timer. */
  ghost predicate WakesInTime(s: State) {
    s.timers != [] ==>
      || s.fd.readable
      || (s.fd.armed.Some? && s.fd.armed.value <= Max(s.timers[0].when, s.fd.lastSet + 100))
  }

  ghost predicate Timed(s: State) {
    && 0 < s.clock
    && s.fd.lastSet <= s.clock
    && (s.fd.armed.Some? ==> s.clock < s.fd.armed.value)
    && (s.phase.Idle? || (s.timers != [] && s.timers[0].when <= 0) ==> WakesInTime(s))
  }

  /** While a batch runs, the log ends with exactly the members run so far, in batch order. */
  ghost predicate RanInOrder(s: State) {
    s.phase.Calling? ==>
      && s.phase.next <= |s.phase.batch|
      && s.phase.next <= |s.ran|
      && forall i | 0 <= i < s.phase.next ::
           s.ran[|s.ran| - s.phase.next + i] == Ran(SequenceAt(s.heap, s.phase.batch[i].addr), s.readCount, s.phase.now)
  }

  ghost predicate Inv(s: State) {
    && !s.fault
    && Indexed(s)
    && BatchOk(s)
    && Placed(s)
    && Accounted(s)
    && Timed(s)
    && RanInOrder(s)
  }

  // ---------- helper facts ----------

  lemma IdsMember(heap: map<nat, Timer>, entries: seq<Entry>, addr: nat)
    requires Matches(heap, entries) && addr in heap
    ensures IdAt(heap, addr) in Ids(heap, entries) <==> At(heap, addr) in entries
  {
    if IdAt(heap, addr) in Ids(heap, entries) {
      var e :| e in entries && IdAt(heap, e.addr) == IdAt(heap, addr);
      assert e == At(heap, addr);
    }
    if At(heap, addr) in entries {
      assert IdAt(heap, At(heap, addr).addr) in Ids(heap, entries);
    }
  }

  lemma IdsSame(h: map<nat, Timer>, h': map<nat, Timer>, entries: seq<Entry>)
    requires forall e | e in entries :: IdAt(h, e.addr) == IdAt(h', e.addr)
    ensures Ids(h, entries) == Ids(h', entries)
  {
    forall id ensures id in Ids(h, entries) <==> id in Ids(h', entries) {
      if id in Ids(h, entries) {
        var e :| e in entries && id == IdAt(h, e.addr);
        assert IdAt(h', e.addr) in Ids(h', entries);
      }
      if id in Ids(h', entries) {
        var e :| e in entries && id == IdAt(h', e.addr);
        assert IdAt(h, e.addr) in Ids(h, entries);
      }
    }
  }

  lemma FirstIsLeast(s: seq<Entry>, e: Entry)
    requires Sorted(s) && e in s
    ensures s[0].when <= e.when
  {
    var i :| 0 <= i < |s| && s[i] == e;
    assert i > 0 ==> Less(s[0], s[i]);
  }

  /** An address taken by an entry of the queue is determined by its Timer. */
  lemma EntryIsAt(heap: map<nat, Timer>, entries: seq<Entry>, e: Entry)
    requires Matches(heap, entries) && e in entries
    ensures e.addr in heap && e == At(heap, e.addr)
  {
  }

  /** Inserting a Timer that is in neither index. */
  lemma InsertKeepsIndexed(s: State, addr: nat)
    requires Indexed(s) && addr in s.heap && At(s.heap, addr) !in s.timers
    ensures Indexed(InsertTimer(s, addr))
    ensures InsertTimer(s, addr) == s.(timers := Insert(s.timers, At(s.heap, addr)),
                                       active := s.active + {IdAt(s.heap, addr)})
    ensures forall x :: x in InsertTimer(s, addr).timers <==> x == At(s.heap, addr) || x in s.timers
  {
    var e := At(s.heap, addr);
    InsertCorrect(s.timers, e);
    IdsMember(s.heap, s.timers, addr);
    var t := Insert(s.timers, e);
    forall id ensures id in Ids(s.heap, t) <==> id in s.active + {IdAt(s.heap, addr)} {
      if id in Ids(s.heap, t) {
        var x :| x in t && id == IdAt(s.heap, x.addr);
        if x != e {
          assert IdAt(s.heap, x.addr) in Ids(s.heap, s.timers);
        }
      }
      if id in Ids(s.heap, s.timers) {
        var x :| x in s.timers && id == IdAt(s.heap, x.addr);
        assert x in t;
      } else if id == IdAt(s.heap, addr) {
        assert e in t && IdAt(s.heap, e.addr) in Ids(s.heap, t);
      }
    }
  }

  /** Deleting an allocated Timer moves its sequence number to the freed ones. */
  lemma FreeKeepsAccounted(s: State, addr: nat)
    requires Accounted(s) && addr in s.heap
    ensures Accounted(Free(s, addr))
  {
    var s' := Free(s, addr);
    var gone := s.heap[addr].sequence;
    assert Live(s.heap, gone);
    assert gone !in s.freed;
    forall q, a | q in s'.freed && a in s'.heap ensures q < s'.nextSequence && s'.heap[a].sequence != q {
      assert q != gone ==> !Live(s.heap, q);
    }
    forall q | 0 <= q < s'.nextSequence ensures q in s'.freed || Live(s'.heap, q) {
      if q !in s'.freed {
        assert s'.freed[|s.freed|] == gone;
        assert q != gone;
        assert q !in s.freed;
        var a :| a in s.heap && s.heap[a].sequence == q;
        assert a in s'.heap;
      }
    }
  }

  // ---------- one lemma per step ----------

  lemma TickKeeps(s: State, t: int)
    requires Inv(s)
    ensures Inv(Apply(s, Tick(t)))
  {
    var s' := Apply(s, Tick(t));
    assert s'.heap == s.heap && s'.timers == s.timers && s'.phase == s.phase;
    assert Placed(s');
    assert Accounted(s');
  }

  lemma CreateKeepsAccounted(s: State, s': State, addr: nat, timer: Timer)
    requires Accounted(s) && addr !in s.heap && timer.sequence == s.nextSequence
    requires s' == s.(heap := s.heap[addr := timer], created := s.created + {addr}, nextSequence := s.nextSequence + 1)
    ensures Accounted(s')
  {
    forall q, a | q in s'.freed && a in s'.heap ensures q < s'.nextSequence && s'.heap[a].sequence != q {
      assert !Live(s.heap, q);
    }
    forall q | 0 <= q < s'.nextSequence ensures q in s'.freed || Live(s'.heap, q) {
      if q == s.nextSequence {
        assert addr in s'.heap && s'.heap[addr].sequence == q;
      } else if q !in s.freed {
        var a :| a in s.heap && s.heap[a].sequence == q;
        assert s'.heap[a].sequence == q;
      }
    }
  }

  lemma CreateKeepsPlaced(s: State, s': State, addr: nat, timer: Timer)
    requires Matches(s.heap, s.timers) && Matches(s.heap, Held(s.phase)) && Placed(s) && addr !in s.heap && addr < ADDR_MAX
    requires s'.heap == s.heap[addr := timer] && s'.created == s.created + {addr}
    requires s'.phase == s.phase && s'.timers == s.timers
    ensures Placed(s')
    ensures Matches(s'.heap, s.timers) && Matches(s'.heap, Held(s.phase))
    ensures forall e | e in s.timers || e in Held(s.phase) :: IdAt(s.heap, e.addr) == IdAt(s'.heap, e.addr)
  {
    assert forall e | e in s.timers || e in Held(s.phase) :: e.addr != addr;
    forall a | a in s.heap ensures At(s'.heap, a) == At(s.heap, a) {
    }
  }

  lemma CreateKeeps(s: State, addr: nat, when: int, interval: nat)
    requires Inv(s)
    ensures Inv(DoCreate(s, addr, when, interval))
  {
    var s' := DoCreate(s, addr, when, interval);
    if addr !in s.heap && addr < ADDR_MAX {
      var timer := Timer(when, interval > 0, interval, s.nextSequence);
      CreateKeepsPlaced(s, s', addr, timer);
      CreateKeepsAccounted(s, s', addr, timer);
      IdsSame(s.heap, s'.heap, s.timers);
      RanSame(s, s');
    }
  }

  /** The log of the running batch only depends on the Timers of that batch. */
  lemma RanSame(s: State, s': State)
    requires Inv(s)
    requires s'.phase == s.phase && s'.ran == s.ran && s'.readCount == s.readCount
    requires forall e | e in Held(s.phase) :: SequenceAt(s'.heap, e.addr) == SequenceAt(s.heap, e.addr)
    ensures RanInOrder(s')
  {
    if s.phase.Calling? {
      forall i | 0 <= i < s.phase.next
        ensures s'.ran[|s'.ran| - s.phase.next + i] == Ran(SequenceAt(s'.heap, s.phase.batch[i].addr), s'.readCount, s.phase.now)
      {
        assert s.phase.batch[i] in Held(s.phase);
      }
    }
  }

  lemma AddKeepsPlaced(s: State, s': State, addr: nat)
    requires Placed(s) && addr in s.created && s'.created == s.created - {addr}
    requires s'.heap == s.heap && s'.phase == s.phase
    requires forall x :: x in s'.timers <==> x == At(s.heap, addr) || x in s.timers
    ensures Placed(s')
  {
  }

  /** The timer joins the queue under its own expiration, and that is all that happens to the timers. */
  lemma AddKeeps(s: State, addr: nat)
    requires Inv(s)
    ensures Inv(DoAdd(s, addr))
    ensures addr in s.created && !s.phase.Resetting? ==>
              && DoAdd(s, addr).heap == s.heap && DoAdd(s, addr).created == s.created - {addr}
              && (forall x :: x in DoAdd(s, addr).timers <==> x == At(s.heap, addr) || x in s.timers)
  {
    if addr in s.created && !s.phase.Resetting? {
      var s0 := s.(created := s.created - {addr});
      InsertKeepsIndexed(s0, addr);
      var s' := DoAdd(s, addr);
      AddKeepsPlaced(s, s', addr);
      AddKeepsTimed(s, addr);
      RanSame(s, s');
    }
  }

  lemma AddKeepsTimed(s: State, addr: nat)
    requires Inv(s) && addr in s.created && !s.phase.Resetting?
    ensures Timed(DoAdd(s, addr))
  {
    var e := At(s.heap, addr);
    var s' := DoAdd(s, addr);
    SetTimeDeadline(e.when, s.clock);
    InsertCorrect(s.timers, e);
    assert s'.timers == Insert(s.timers, e);
    if EarliestChanges(s.timers, e.when) {
      assert s'.timers[0] == e;
    } else {
      assert s'.timers[0] == s.timers[0] || s'.timers[0] == e;
      FirstIsLeast(s'.timers, s.timers[0]);
      assert s'.timers[0].when == s.timers[0].when;
    }
  }

  lemma CancelKeeps(s: State, id: TimerId)
    requires Inv(s)
    ensures Inv(DoCancel(s, id))
  {
    hide Inv;
    if !s.phase.Resetting? && id in s.active {
      CancelActive(s, id);
    } else if s.phase.Calling? {
      RememberKeeps(s, id);
    }
  }

  /** Remembering the id of a timer that is in the batch touches nothing else. */
  lemma RememberKeeps(s: State, id: TimerId)
    requires Inv(s)
    ensures Inv(s.(canceling := s.canceling + {id}))
  {
    var s' := s.(canceling := s.canceling + {id});
    assert Placed(s');
    assert Accounted(s');
    hide Placed, Accounted;
  }

  lemma CancelFindsTimer(s: State, id: TimerId)
    requires Inv(s) && id in s.active
    ensures id.addr in s.heap && id == IdAt(s.heap, id.addr) && At(s.heap, id.addr) in s.timers
    ensures forall y | y in s.timers && y != At(s.heap, id.addr) :: y.addr != id.addr
    ensures forall y | y in Held(s.phase) :: y.addr != id.addr
  {
    var x :| x in s.timers && id == IdAt(s.heap, x.addr);
    forall y | y in Held(s.phase) ensures y.addr != id.addr {
      EntryIsAt(s.heap, Held(s.phase), y);
    }
  }

  lemma CancelActive(s: State, id: TimerId)
    requires Inv(s) && !s.phase.Resetting? && id in s.active
    ensures Inv(DoCancel(s, id))
    ensures id.addr in s.heap && s.heap[id.addr].sequence == id.sequence
    ensures DoCancel(s, id).heap == s.heap - {id.addr}
    ensures DoCancel(s, id).freed == s.freed + [id.sequence]
  {
    CancelFindsTimer(s, id);
    var e := At(s.heap, id.addr);
    EraseCorrect(s.timers, e);
    var s1 := s.(timers := Erase(s.timers, e), active := s.active - {id});
    var s' := DoCancel(s, id);
    assert s' == Free(s1, id.addr);
    CancelIndexed(s, s', id, e);
    CancelAccounted(s, s1, id);
    CancelKeepsPlaced(s, s', id, e);
    RanSame(s, s');
    CancelKeepsTimed(s, s');
    hide Indexed, BatchOk, Placed, Accounted, Timed, RanInOrder, Erase;
  }

  lemma CancelAccounted(s: State, s1: State, id: TimerId)
    requires Accounted(s) && id.addr in s.heap
    requires s1 == s.(timers := s1.timers, active := s1.active)
    ensures Accounted(Free(s1, id.addr))
  {
    assert Accounted(s1);
    hide Accounted;
    FreeKeepsAccounted(s1, id.addr);
  }

  lemma CancelIndexed(s: State, s': State, id: TimerId, e: Entry)
    requires Indexed(s) && BatchOk(s) && id.addr in s.heap && e == At(s.heap, id.addr) && id == IdAt(s.heap, id.addr) && e in s.timers
    requires s'.heap == s.heap - {id.addr} && s'.timers == Erase(s.timers, e) && s'.active == s.active - {id}
    requires s'.phase == s.phase && s'.clock == s.clock
    requires forall y | y in s.timers && y != e :: y.addr != id.addr
    requires forall y | y in Held(s.phase) :: y.addr != id.addr
    ensures Indexed(s') && BatchOk(s')
  {
    CancelIds(s, s', id, e);
    EraseCorrect(s.timers, e);
    hide Ids, Erase;
  }

  lemma CancelKeepsTimed(s: State, s': State)
    requires Timed(s) && Sorted(s.timers) && s'.fd == s.fd && s'.clock == s.clock && s'.phase == s.phase
    requires forall x | x in s'.timers :: x in s.timers
    ensures Timed(s')
  {
    if s'.timers != [] {
      assert s'.timers[0] in s.timers;
      FirstIsLeast(s.timers, s'.timers[0]);
    }
  }

  lemma CancelKeepsPlaced(s: State, s': State, id: TimerId, e: Entry)
    requires Placed(s) && id.addr in s.heap && e == At(s.heap, id.addr) && e in s.timers
    requires s'.heap == s.heap - {id.addr} && s'.created == s.created && s'.phase == s.phase
    requires forall x :: x in s'.timers <==> x != e && x in s.timers
    ensures Placed(s')
  {
    forall a | a in s'.heap ensures At(s'.heap, a) == At(s.heap, a) && At(s.heap, a) != e {
    }
  }

  lemma CancelIds(s: State, s': State, id: TimerId, e: Entry)
    requires Indexed(s) && id.addr in s.heap && e == At(s.heap, id.addr) && id == IdAt(s.heap, id.addr) && e in s.timers
    requires s'.heap == s.heap - {id.addr} && s'.timers == Erase(s.timers, e)
    ensures s.active - {id} == Ids(s'.heap, s'.timers)
  {
    EraseCorrect(s.timers, e);
    forall y ensures y in s.active - {id} <==> y in Ids(s'.heap, s'.timers) {
      if y in s.active - {id} {
        var x :| x in s.timers && y == IdAt(s.heap, x.addr);
        assert x != e && x in s'.timers;
        assert x.addr != id.addr;
        assert IdAt(s'.heap, x.addr) in Ids(s'.heap, s'.timers);
      }
      if y in Ids(s'.heap, s'.timers) {
        var x :| x in s'.timers && y == IdAt(s'.heap, x.addr);
        assert x in s.timers && x.addr != id.addr;
        assert IdAt(s.heap, x.addr) in Ids(s.heap, s.timers);
      }
    }
  }

  // ---------- handleRead ----------

  /** getExpired takes exactly the timers due by now, earliest first, and leaves the others. */
  lemma ExpiredExactly(timers: seq<Entry>, now: int)
    requires Sorted(timers) && forall e | e in timers :: e.addr < ADDR_MAX
    ensures ExpiredCount(timers, now) <= |timers|
    ensures forall e :: e in timers[..ExpiredCount(timers, now)] <==> e in timers && e.when <= now
    ensures forall e :: e in timers[ExpiredCount(timers, now)..] <==> e in timers && e.when > now
  {
    LowerBoundSplits(timers, Entry(now, ADDR_MAX));
    var k := ExpiredCount(timers, now);
    forall e ensures e in timers[..k] <==> e in timers && e.when <= now {
      if e in timers && e.when <= now {
        var i :| 0 <= i < |timers| && timers[i] == e;
        assert Less(timers[i], Entry(now, ADDR_MAX));
        assert timers[..k][i] == e;
      }
    }
    forall e ensures e in timers[k..] <==> e in timers && e.when > now {
      if e in timers && e.when > now {
        var i :| 0 <= i < |timers| && timers[i] == e;
        assert timers[k..][i - k] == e;
      }
    }
  }

  lemma QueueAddressesOk(s: State)
    requires Inv(s)
    ensures forall e | e in s.timers :: e.addr < ADDR_MAX
  {
    forall e | e in s.timers ensures e.addr < ADDR_MAX {
      EntryIsAt(s.heap, s.timers, e);
    }
  }

  lemma BeginKeeps(s: State)
    requires Inv(s)
    ensures Inv(DoBegin(s))
  {
    if s.phase.Idle? {
      QueueAddressesOk(s);
      ExpiredExactly(s.timers, s.clock);
      var k := ExpiredCount(s.timers, s.clock);
      var s' := DoBegin(s);
      var batch := s.timers[..k];
      assert s'.timers == s.timers[k..];
      assert Matches(s.heap, batch) && Matches(s.heap, s'.timers);
      BeginIds(s.heap, s.timers, batch, s'.timers);
      assert Placed(s') by {
        assert forall a | a in s.heap :: At(s.heap, a) in s.timers <==> At(s.heap, a) in batch || At(s.heap, a) in s'.timers;
      }
      assert Accounted(s');
      assert s'.timers != [] ==> s'.timers[0] in s'.timers;
    }
  }

  lemma BeginIds(heap: map<nat, Timer>, timers: seq<Entry>, batch: seq<Entry>, later: seq<Entry>)
    requires Matches(heap, timers)
    requires forall e :: e in timers <==> e in batch || e in later
    requires forall e :: !(e in batch && e in later)
    ensures Ids(heap, batch) <= Ids(heap, timers)
    ensures Ids(heap, timers) - Ids(heap, batch) == Ids(heap, later)
  {
    forall id | id in Ids(heap, batch) ensures id in Ids(heap, timers) {
      var e :| e in batch && id == IdAt(heap, e.addr);
      assert e in timers;
    }
    forall id ensures id in Ids(heap, timers) - Ids(heap, batch) <==> id in Ids(heap, later) {
      if id in Ids(heap, timers) - Ids(heap, batch) {
        var e :| e in timers && id == IdAt(heap, e.addr);
        assert e in later;
      }
      if id in Ids(heap, later) {
        var e :| e in later && id == IdAt(heap, e.addr);
        assert e in timers;
      }
    }
  }

  lemma RunKeeps(s: State)
    requires Inv(s)
    ensures Inv(DoRun(s))
  {
    if s.phase.Calling? && s.phase.next < |s.phase.batch| {
      var s' := DoRun(s);
      assert s.phase.batch[s.phase.next] in Held(s.phase);
      assert Held(s'.phase) == Held(s.phase);
      assert Placed(s') && Accounted(s');
    }
  }

  lemma StartResetKeeps(s: State)
    requires Inv(s)
    ensures Inv(DoStartReset(s))
  {
    var s' := DoStartReset(s);
    assert Held(s'.phase) == Held(s.phase);
    assert Placed(s') && Accounted(s');
  }

  /** The head of what is left of the batch, and the rest, are different Timers in neither index. */
  lemma HeadOfRest(s: State)
    requires Inv(s) && s.phase.Resetting? && s.phase.rest != []
    ensures var addr := s.phase.rest[0].addr;
      && addr in s.heap
      && addr !in s.created
      && s.phase.rest[0] == At(s.heap, addr)
      && (forall e | e in s.phase.rest[1..] :: e.addr != addr)
      && (forall e | e in s.timers :: e.addr != addr)
    ensures Sorted(s.phase.rest[1..])
    ensures forall e :: e in s.phase.rest <==> e == s.phase.rest[0] || e in s.phase.rest[1..]
  {
    var rest := s.phase.rest;
    assert rest[0] in Held(s.phase);
    EntryIsAt(s.heap, rest, rest[0]);
    forall e | e in rest[1..] ensures e.addr != rest[0].addr {
      var i :| 1 <= i < |rest| && rest[i] == e;
      assert Less(rest[0], rest[i]);
      EntryIsAt(s.heap, rest, e);
    }
    forall e | e in s.timers ensures e.addr != rest[0].addr {
      EntryIsAt(s.heap, s.timers, e);
    }
  }

  predicate Restarts(s: State, addr: nat)
    requires addr in s.heap
  {
    s.heap[addr].repeat && IdAt(s.heap, addr) !in s.canceling
  }

  lemma ResetFrees(s: State)
    requires Inv(s) && s.phase.Resetting? && s.phase.rest != []
    requires s.phase.rest[0].addr in s.heap && !Restarts(s, s.phase.rest[0].addr)
    ensures Inv(DoResetNext(s))
    ensures var addr := s.phase.rest[0].addr; var s' := DoResetNext(s);
      s'.timers == s.timers && s'.heap == s.heap - {addr} && s'.freed == s.freed + [s.heap[addr].sequence]
  {
    HeadOfRest(s);
    var addr := s.phase.rest[0].addr;
    var s1 := s.(phase := s.phase.(rest := s.phase.rest[1..]));
    var s' := DoResetNext(s);
    assert s' == Free(s1, addr);
    assert Accounted(s') by {
      assert Accounted(s1);
      FreeKeepsAccounted(s1, addr);
    }
    ResetFreesIndexed(s, s', addr);
    ResetFreesPlaced(s, s', addr);
  }

  lemma ResetFreesIndexed(s: State, s': State, addr: nat)
    requires Indexed(s) && BatchOk(s) && s.phase.Resetting? && s'.phase.Resetting?
    requires s'.phase.now == s.phase.now && s'.clock == s.clock
    requires s'.heap == s.heap - {addr} && s'.timers == s.timers && s'.active == s.active
    requires forall e | e in s.timers || e in Held(s'.phase) :: e.addr != addr
    requires Sorted(Held(s'.phase)) && forall e | e in Held(s'.phase) :: e in Held(s.phase)
    ensures Indexed(s') && BatchOk(s')
  {
    IdsSame(s.heap, s'.heap, s.timers);
  }

  lemma ResetFreesPlaced(s: State, s': State, addr: nat)
    requires Placed(s) && addr in s.heap && addr !in s.created && s'.heap == s.heap - {addr}
    requires s'.created == s.created && s'.timers == s.timers
    requires forall e :: e in Held(s.phase) <==> e == At(s.heap, addr) || e in Held(s'.phase)
    ensures Placed(s')
  {
    forall a | a in s'.heap ensures At(s'.heap, a) == At(s.heap, a) && At(s.heap, a) != At(s.heap, addr) {
    }
  }

  lemma RestartKeepsAccounted(s: State, addr: nat, expiration: int)
    requires Accounted(s) && addr in s.heap
    ensures Accounted(s.(heap := s.heap[addr := s.heap[addr].(expiration := expiration)]))
  {
    var s' := s.(heap := s.heap[addr := s.heap[addr].(expiration := expiration)]);
    assert forall a | a in s'.heap :: s'.heap[a].sequence == s.heap[a].sequence;
    forall q | 0 <= q < s'.nextSequence ensures Live(s'.heap, q) <==> Live(s.heap, q) {
      if Live(s.heap, q) {
        var a :| a in s.heap && s.heap[a].sequence == q;
        assert s'.heap[a].sequence == q;
      }
      if Live(s'.heap, q) {
        var a :| a in s'.heap && s'.heap[a].sequence == q;
        assert s.heap[a].sequence == q;
      }
    }
  }

  lemma RestartKeepsPlaced(s: State, s': State, addr: nat, timer: Timer)
    requires Placed(s) && addr in s.heap && addr !in s.created && s'.heap == s.heap[addr := timer]
    requires s'.created == s.created
    requires forall e | e in Held(s'.phase) :: e.addr != addr
    requires forall e | e in s.timers :: e.addr != addr
    requires forall e :: e in Held(s.phase) <==> e == At(s.heap, addr) || e in Held(s'.phase)
    requires forall e :: e in s'.timers <==> e == Entry(timer.expiration, addr) || e in s.timers
    ensures Placed(s')
  {
    forall a | a in s'.heap && a != addr ensures At(s'.heap, a) == At(s.heap, a) {
    }
  }

  lemma RestartKeepsTimed(s: State, s': State, e: Entry)
    requires Timed(s) && s.phase.Resetting? && s'.phase.Resetting? && Sorted(s.timers)
    requires s'.fd == s.fd && s'.clock == s.clock && s'.timers == Insert(s.timers, e) && e.when > 0
    ensures Timed(s')
  {
    InsertCorrect(s.timers, e);
    assert s'.timers[0] in s'.timers;
    if s'.timers[0].when <= 0 {
      FirstIsLeast(s.timers, s'.timers[0]);
      FirstIsLeast(s'.timers, s.timers[0]);
    }
  }

  /** A repeating timer goes back to the queue one interval after `now`; every other timer stays as it was. */
  lemma ResetRestarts(s: State)
    requires Inv(s) && s.phase.Resetting? && s.phase.rest != []
    requires s.phase.rest[0].addr in s.heap && Restarts(s, s.phase.rest[0].addr)
    ensures Inv(DoResetNext(s))
    ensures var addr := s.phase.rest[0].addr; var s' := DoResetNext(s); var next := s.phase.now + s.heap[addr].interval;
      && (forall x :: x in s'.timers <==> x == Entry(next, addr) || x in s.timers)
      && s'.heap == s.heap[addr := s.heap[addr].(expiration := next)] && s'.freed == s.freed
  {
    HeadOfRest(s);
    var addr := s.phase.rest[0].addr;
    var timer := s.heap[addr].(expiration := s.phase.now + s.heap[addr].interval);
    var s1 := s.(phase := s.phase.(rest := s.phase.rest[1..]), heap := s.heap[addr := timer]);
    IdsSame(s.heap, s1.heap, s.timers);
    assert Indexed(s1);
    InsertKeepsIndexed(s1, addr);
    var s' := DoResetNext(s);
    assert s' == InsertTimer(s1, addr);
    assert Accounted(s') by {
      RestartKeepsAccounted(s, addr, timer.expiration);
    }
    assert BatchOk(s');
    RestartKeepsPlaced(s, s', addr, timer);
    RestartKeepsTimed(s, s', At(s1.heap, addr));
  }

  lemma RearmKeeps(s: State)
    requires Inv(s)
    ensures Inv(DoRearm(s))
  {
    if s.phase.Resetting? && s.phase.rest == [] {
      var s' := DoRearm(s);
      assert Held(s'.phase) == Held(s.phase);
      if s.timers != [] {
        assert s.timers[0] in s.timers;
        SetTimeDeadline(s.timers[0].when, s.clock);
      }
      assert Placed(s') && Accounted(s');
    }
  }

  lemma ApplyKeeps(s: State, step: Step)
    requires Inv(s)
    ensures Inv(Apply(s, step))
  {
    match step
    case Tick(t) => TickKeeps(s, t);
    case Create(addr, when, interval) => CreateKeeps(s, addr, when, interval);
    case AddInLoop(addr) => AddKeeps(s, addr);
    case CancelInLoop(id) => CancelKeeps(s, id);
    case BeginRead => BeginKeeps(s);
    case RunNext => RunKeeps(s);
    case StartReset => StartResetKeeps(s);
    case ResetNext =>
      if s.phase.Resetting? && s.phase.rest != [] {
        HeadOfRest(s);
        var addr := s.phase.rest[0].addr;
        if Restarts(s, addr) {
          ResetRestarts(s);
        } else {
          ResetFrees(s);
        }
      }
    case Rearm => RearmKeeps(s);
  }

  lemma {:induction false} RunKeepsInv(s: State, steps: seq<Step>)
    requires Inv(s)
    ensures Inv(Run(s, steps))
    decreases |steps|
  {
    if steps != [] {
      ApplyKeeps(s, steps[0]);
      RunKeepsInv(Apply(s, steps[0]), steps[1..]);
    }
  }
}
