/**
  The bookkeeping of the two pollers on values, and the one thing both implement: which descriptors are watched, for
  which events. A mask of 0 means no interest.
 */
module PollerTables {
  type Fd = nat
  type Mask = nat

  /** The interest map after a channel's update. */
  function Updated(interest: map<Fd, Mask>, fd: Fd, events: Mask): map<Fd, Mask> {
    if events == 0 then interest - {fd} else interest[fd := events]
  }

  // ---------- poll ----------

  datatype PollFd = PollFd(fd: int, events: Mask)

  /** The array given to poll(2), and the index each registered channel carries. */
  datatype PollTable = PollTable(slots: seq<PollFd>, index: map<Fd, nat>)

  /** The descriptor of a slot, whether it is watched or ignored. */
  function Owner(p: PollFd): Fd {
    if p.fd < 0 then -p.fd - 1 else p.fd
  }

  /** Slots and channels are in bijection: each index points at its channel's own slot, and each slot back. */
  ghost predicate PollOk(t: PollTable) {
    && (forall fd | fd in t.index :: t.index[fd] < |t.slots| && Owner(t.slots[t.index[fd]]) == fd)
    && (forall i | 0 <= i < |t.slots| :: Owner(t.slots[i]) in t.index && t.index[Owner(t.slots[i])] == i)
    && (forall i | 0 <= i < |t.slots| :: t.slots[i].fd < 0 ==> t.slots[i].events == 0)
  }

  predicate Indexed(t: PollTable) {
    forall fd | fd in t.index :: t.index[fd] < |t.slots|
  }

  /** What poll(2) watches. */
  ghost function PollInterest(t: PollTable): map<Fd, Mask>
    requires Indexed(t)
  {
    map fd | fd in t.index && t.slots[t.index[fd]].events != 0 :: t.slots[t.index[fd]].events
  }

  /** The slot is one poll(2) passes over. */
  predicate Ignored(t: PollTable, fd: Fd)
    requires fd in t.index && t.index[fd] < |t.slots|
  {
    t.slots[t.index[fd]].fd < 0
  }

  /** The slot of a known channel: without interest its descriptor is made negative. */
  function SlotFor(fd: Fd, events: Mask): PollFd {
    var number: int := fd;
    PollFd(if events == 0 then -number - 1 else number, events)
  }

  function PollUpdate(t: PollTable, fd: Fd, events: Mask): PollTable
    requires fd in t.index ==> t.index[fd] < |t.slots|
  {
    if fd !in t.index then PollTable(t.slots + [PollFd(fd, events)], t.index[fd := |t.slots|])
    else t.(slots := t.slots[t.index[fd] := SlotFor(fd, events)])
  }

  /** Swap with the last slot and pop, redirecting the channel that moved. */
  function PollRemove(t: PollTable, fd: Fd): PollTable
    requires fd in t.index && t.index[fd] < |t.slots|
  {
    var idx, last := t.index[fd], |t.slots| - 1;
    var index := t.index - {fd};
    if idx == last then PollTable(t.slots[..last], index)
    else PollTable(t.slots[idx := t.slots[last]][..last], index[Owner(t.slots[last]) := idx])
  }

  lemma PollUpdateOk(t: PollTable, fd: Fd, events: Mask)
    requires PollOk(t)
    ensures PollOk(PollUpdate(t, fd, events))
    ensures Ignored(PollUpdate(t, fd, events), fd) <==> events == 0 && fd in t.index
  {
    var t' := PollUpdate(t, fd, events);
    if fd !in t.index {
      forall i | 0 <= i < |t'.slots| ensures Owner(t'.slots[i]) in t'.index && t'.index[Owner(t'.slots[i])] == i {
        assert i < |t.slots| ==> Owner(t.slots[i]) != fd;
      }
    } else {
      forall i | 0 <= i < |t'.slots| ensures Owner(t'.slots[i]) == Owner(t.slots[i]) {
      }
    }
  }

  lemma PollUpdateInterest(t: PollTable, fd: Fd, events: Mask)
    requires PollOk(t)
    ensures Indexed(PollUpdate(t, fd, events))
    ensures PollInterest(PollUpdate(t, fd, events)) == Updated(PollInterest(t), fd, events)
    ensures forall x | x in t.index && x != fd :: Ignored(PollUpdate(t, fd, events), x) == Ignored(t, x)
  {
    PollUpdateOk(t, fd, events);
    var t' := PollUpdate(t, fd, events);
    forall x | x in t.index && x != fd ensures t'.index[x] == t.index[x] && t'.slots[t'.index[x]] == t.slots[t.index[x]] {
    }
    assert fd in t'.index && t'.slots[t'.index[fd]].events == events;
    assert t'.index.Keys == t.index.Keys + {fd};
    InterestFrame(t, t', fd, events);
  }

  /** The interest map changes at one descriptor when its slot alone changes. */
  lemma InterestFrame(t: PollTable, t': PollTable, fd: Fd, events: Mask)
    requires Indexed(t) && Indexed(t') && t'.index.Keys == t.index.Keys + {fd}
    requires t'.slots[t'.index[fd]].events == events
    requires forall x | x in t.index && x != fd :: t'.slots[t'.index[x]] == t.slots[t.index[x]]
    ensures PollInterest(t') == Updated(PollInterest(t), fd, events)
  {
    var after, before := PollInterest(t'), Updated(PollInterest(t), fd, events);
    forall x ensures x in after <==> x in before {
      if x in t.index && x != fd {
        assert t'.slots[t'.index[x]] == t.slots[t.index[x]];
      }
    }
    forall x | x in after ensures after[x] == before[x] {
      if x != fd {
        assert t'.slots[t'.index[x]] == t.slots[t.index[x]];
      }
    }
  }

  /** The slot a channel has after the removal of another is the one it had before. */
  lemma PollRemoveSlots(t: PollTable, fd: Fd)
    requires PollOk(t) && fd in t.index
    ensures PollRemove(t, fd).index.Keys == t.index.Keys - {fd}
    ensures forall x | x in PollRemove(t, fd).index ::
              && PollRemove(t, fd).index[x] < |PollRemove(t, fd).slots|
              && PollRemove(t, fd).slots[PollRemove(t, fd).index[x]] == t.slots[t.index[x]]
  {
    var t' := PollRemove(t, fd);
    var idx, last := t.index[fd], |t.slots| - 1;
    if idx != last {
      var moved := Owner(t.slots[last]);
      assert moved != fd && t.index[moved] == last;
      assert t'.slots[idx] == t.slots[last];
      forall x | x in t'.index && x != moved
        ensures t'.index[x] < |t'.slots| && t'.slots[t'.index[x]] == t.slots[t.index[x]]
      {
        assert t.index[x] != last && t.index[x] != idx;
      }
    } else {
      forall x | x in t'.index ensures t.index[x] < last {
        assert Owner(t.slots[t.index[x]]) == x;
      }
    }
  }

  lemma PollRemoveOk(t: PollTable, fd: Fd)
    requires PollOk(t) && fd in t.index
    ensures PollOk(PollRemove(t, fd))
  {
    PollRemoveSlots(t, fd);
    var t' := PollRemove(t, fd);
    var idx, last := t.index[fd], |t.slots| - 1;
    forall i | 0 <= i < |t'.slots|
      ensures Owner(t'.slots[i]) in t'.index && t'.index[Owner(t'.slots[i])] == i
      ensures t'.slots[i].fd < 0 ==> t'.slots[i].events == 0
    {
      if i == idx {
        assert t'.slots[i] == t.slots[last];
      } else {
        assert t'.slots[i] == t.slots[i];
        assert Owner(t.slots[i]) != fd && Owner(t.slots[i]) != Owner(t.slots[last]);
      }
    }
  }

  lemma PollRemoveInterest(t: PollTable, fd: Fd)
    requires PollOk(t) && fd in t.index && Ignored(t, fd)
    ensures Indexed(PollRemove(t, fd)) && PollInterest(PollRemove(t, fd)) == PollInterest(t)
    ensures forall x | x in PollRemove(t, fd).index :: Ignored(PollRemove(t, fd), x) == Ignored(t, x)
  {
    PollRemoveSlots(t, fd);
    assert t.slots[t.index[fd]].events == 0;
  }

  // ---------- epoll ----------

  datatype Mark = Added | Deleted

  /** The mark each registered channel carries, and what the kernel watches. */
  datatype EpollTable = EpollTable(marks: map<Fd, Mark>, kernel: map<Fd, Mask>)

  datatype Operation = Add | Mod | Del

  /** The operation updateChannel issues. */
  function UpdateOperation(t: EpollTable, fd: Fd, events: Mask): Operation {
    if fd !in t.marks || t.marks[fd] == Deleted then Add else if events == 0 then Del else Mod
  }

  /** epoll_ctl refuses to add a descriptor it has, and to change or delete one it has not. */
  predicate Accepts(kernel: map<Fd, Mask>, op: Operation, fd: Fd) {
    op.Add? <==> fd !in kernel
  }

  function Control(kernel: map<Fd, Mask>, op: Operation, fd: Fd, events: Mask): map<Fd, Mask> {
    if op.Del? then kernel - {fd} else kernel[fd := events]
  }

  function EpollUpdate(t: EpollTable, fd: Fd, events: Mask): EpollTable {
    var op := UpdateOperation(t, fd, events);
    EpollTable(t.marks[fd := if op.Del? then Deleted else Added], Control(t.kernel, op, fd, events))
  }

  function EpollRemove(t: EpollTable, fd: Fd): EpollTable
    requires fd in t.marks
  {
    EpollTable(t.marks - {fd}, if t.marks[fd] == Added then Control(t.kernel, Del, fd, 0) else t.kernel)
  }

  /** The kernel's set is exactly the channels marked added. */
  ghost predicate EpollOk(t: EpollTable) {
    forall fd :: fd in t.kernel <==> fd in t.marks && t.marks[fd] == Added
  }

  ghost function EpollInterest(t: EpollTable): map<Fd, Mask> {
    map fd | fd in t.kernel && t.kernel[fd] != 0 :: t.kernel[fd]
  }

  /**
    Every update issues an operation the kernel accepts and keeps kernel and marks together. An update without interest
    leaves the descriptor in the kernel, with an empty mask, exactly when the channel was not marked added before: so a
    channel disabled twice is watched again, for hang-ups and errors only.
   */
  lemma EpollUpdateOk(t: EpollTable, fd: Fd, events: Mask)
    requires EpollOk(t)
    ensures EpollOk(EpollUpdate(t, fd, events))
    ensures Accepts(t.kernel, UpdateOperation(t, fd, events), fd)
    ensures EpollInterest(EpollUpdate(t, fd, events)) == Updated(EpollInterest(t), fd, events)
    ensures events == 0 ==> (fd in EpollUpdate(t, fd, events).kernel <==> fd !in t.kernel)
  {
  }

  lemma EpollRemoveOk(t: EpollTable, fd: Fd)
    requires EpollOk(t) && fd in t.marks && fd !in EpollInterest(t)
    ensures EpollOk(EpollRemove(t, fd)) && EpollInterest(EpollRemove(t, fd)) == EpollInterest(t)
    ensures t.marks[fd] == Added ==> Accepts(t.kernel, Del, fd)
  {
  }

  // ---------- both ----------

  datatype Op = Update(fd: Fd, events: Mask) | Remove(fd: Fd)

  /** What the channels of a loop ask for: the registered descriptors and the interest of each. */
  datatype Asked = Asked(registered: set<Fd>, interest: map<Fd, Mask>)

  /** A channel's first update has events; it is removed only once it has none. */
  predicate Allowed(a: Asked, op: Op) {
    match op
    case Update(fd, events) => fd in a.registered || events != 0
    case Remove(fd) => fd in a.registered && fd !in a.interest
  }

  function Ask(a: Asked, op: Op): Asked {
    match op
    case Update(fd, events) => Asked(a.registered + {fd}, Updated(a.interest, fd, events))
    case Remove(fd) => a.(registered := a.registered - {fd})
  }

  predicate AllAllowed(a: Asked, ops: seq<Op>)
    decreases |ops|
  {
    ops != [] ==> Allowed(a, ops[0]) && AllAllowed(Ask(a, ops[0]), ops[1..])
  }

  function AskAll(a: Asked, ops: seq<Op>): Asked
    decreases |ops|
  {
    if ops == [] then a else AskAll(Ask(a, ops[0]), ops[1..])
  }

  /** The slots poll(2) passes over are exactly those of the channels without interest. */
  ghost predicate IdleIgnored(p: PollTable, interest: map<Fd, Mask>)
    requires Indexed(p)
  {
    forall fd | fd in p.index :: Ignored(p, fd) <==> fd !in interest
  }

  /** Both tables stand for what was asked, and every channel without interest can be removed from either. */
  ghost predicate Refines(p: PollTable, e: EpollTable, a: Asked) {
    && PollOk(p) && EpollOk(e)
    && p.index.Keys == e.marks.Keys == a.registered
    && PollInterest(p) == EpollInterest(e) == a.interest
    && IdleIgnored(p, a.interest)
  }

  lemma OpRefines(p: PollTable, e: EpollTable, a: Asked, op: Op)
    requires Refines(p, e, a) && Allowed(a, op)
    ensures match op
      case Update(fd, events) => Refines(PollUpdate(p, fd, events), EpollUpdate(e, fd, events), Ask(a, op))
      case Remove(fd) => Refines(PollRemove(p, fd), EpollRemove(e, fd), Ask(a, op))
  {
    hide PollOk, EpollOk, PollInterest, EpollInterest, PollUpdate, PollRemove, Ignored;
    match op
    case Update(fd, events) => UpdateRefines(p, e, a, fd, events);
    case Remove(fd) => RemoveRefines(p, e, a, fd);
  }

  lemma UpdateKeys(p: PollTable, e: EpollTable, fd: Fd, events: Mask)
    requires Indexed(p)
    ensures PollUpdate(p, fd, events).index.Keys == p.index.Keys + {fd}
    ensures EpollUpdate(e, fd, events).marks.Keys == e.marks.Keys + {fd}
  {
  }

  lemma UpdateIgnored(p: PollTable, interest: map<Fd, Mask>, fd: Fd, events: Mask)
    requires PollOk(p) && (events == 0 ==> fd in p.index) && IdleIgnored(p, interest)
    ensures PollOk(PollUpdate(p, fd, events)) && IdleIgnored(PollUpdate(p, fd, events), Updated(interest, fd, events))
  {
    assert Indexed(p);
    hide PollUpdate, PollOk, PollInterest, Ignored;
    PollUpdateOk(p, fd, events);
    PollUpdateInterest(p, fd, events);
    UpdateKeys(p, EpollTable(map[], map[]), fd, events);
    var p' := PollUpdate(p, fd, events);
    forall x | x in p'.index ensures Ignored(p', x) <==> x !in Updated(interest, fd, events) {
      if x != fd {
        assert Ignored(p', x) == Ignored(p, x);
      }
    }
  }

  lemma UpdateRefines(p: PollTable, e: EpollTable, a: Asked, fd: Fd, events: Mask)
    requires Refines(p, e, a) && Allowed(a, Update(fd, events))
    ensures Refines(PollUpdate(p, fd, events), EpollUpdate(e, fd, events), Ask(a, Update(fd, events)))
  {
    assert Indexed(p);
    hide PollInterest, EpollInterest, PollOk, EpollOk, IdleIgnored, PollUpdate, EpollUpdate, Updated;
    UpdateKeys(p, e, fd, events);
    UpdateIgnored(p, a.interest, fd, events);
    PollUpdateInterest(p, fd, events);
    EpollUpdateOk(e, fd, events);
  }

  lemma RemoveRefines(p: PollTable, e: EpollTable, a: Asked, fd: Fd)
    requires Refines(p, e, a) && Allowed(a, Remove(fd))
    ensures Refines(PollRemove(p, fd), EpollRemove(e, fd), Ask(a, Remove(fd)))
  {
    PollRemoveOk(p, fd);
    PollRemoveSlots(p, fd);
    PollRemoveInterest(p, fd);
    EpollRemoveOk(e, fd);
    assert EpollRemove(e, fd).marks.Keys == e.marks.Keys - {fd};
    hide PollInterest, EpollInterest, PollOk, EpollOk, EpollRemove, PollRemove;
  }

  /** The two tables after a sequence of operations. */
  ghost function Drive(p: PollTable, e: EpollTable, a: Asked, ops: seq<Op>): (r: (PollTable, EpollTable))
    requires Refines(p, e, a) && AllAllowed(a, ops)
    ensures Refines(r.0, r.1, AskAll(a, ops))
    decreases |ops|
  {
    if ops == [] then (p, e) else
    OpRefines(p, e, a, ops[0]);
    match ops[0]
    case Update(fd, events) => Drive(PollUpdate(p, fd, events), EpollUpdate(e, fd, events), Ask(a, ops[0]), ops[1..])
    case Remove(fd) => Drive(PollRemove(p, fd), EpollRemove(e, fd), Ask(a, ops[0]), ops[1..])
  }

  /** Over every allowed sequence of updates and removals both pollers watch exactly what was asked for. */
  lemma PollersAgree(ops: seq<Op>)
    requires AllAllowed(Asked({}, map[]), ops)
    ensures Refines(PollTable([], map[]), EpollTable(map[], map[]), Asked({}, map[]))
    ensures var (p, e) := Drive(PollTable([], map[]), EpollTable(map[], map[]), Asked({}, map[]), ops);
            var a := AskAll(Asked({}, map[]), ops);
      && PollOk(p) && EpollOk(e)
      && PollInterest(p) == EpollInterest(e) == a.interest
      && p.index.Keys == e.marks.Keys == a.registered
  {
    var p, e := PollTable([], map[]), EpollTable(map[], map[]);
    assert PollInterest(p) == map[] && EpollInterest(e) == map[];
  }

  /** A first update without events leaves a slot that removeChannel's assertion refuses. */
  lemma FirstUpdateEmpty(t: PollTable, fd: Fd)
    requires PollOk(t) && fd !in t.index
    ensures var t' := PollUpdate(t, fd, 0); fd in t'.index && t'.index[fd] < |t'.slots| && !Ignored(t', fd)
  {
    PollUpdateOk(t, fd, 0);
  }

  // ---------- empty masks in the kernel ----------

  /** An update without events of a channel that had none already. */
  predicate Idle(a: Asked, op: Op) {
    op.Update? && op.events == 0 && op.fd !in a.interest
  }

  predicate NeverIdle(a: Asked, ops: seq<Op>)
    decreases |ops|
  {
    ops != [] ==> !Idle(a, ops[0]) && NeverIdle(Ask(a, ops[0]), ops[1..])
  }

  function EpollApply(e: EpollTable, op: Op): EpollTable
    requires op.Remove? ==> op.fd in e.marks
  {
    match op
    case Update(fd, events) => EpollUpdate(e, fd, events)
    case Remove(fd) => EpollRemove(e, fd)
  }

  /** Where the kernel's set was what is asked for, empty masks included, it stays so exactly under updates that are not idle. */
  lemma KernelStaysExact(e: EpollTable, a: Asked, op: Op)
    requires EpollOk(e) && e.marks.Keys == a.registered && e.kernel == a.interest && Allowed(a, op)
    ensures EpollApply(e, op).kernel == Ask(a, op).interest <==> !Idle(a, op)
  {
    if op.Update? && Idle(a, op) {
      assert op.fd in EpollUpdate(e, op.fd, op.events).kernel;
    }
  }

  /** Throughout a sequence of operations the kernel holds exactly what is asked for. */
  ghost predicate AlwaysExact(p: PollTable, e: EpollTable, a: Asked, ops: seq<Op>)
    requires Refines(p, e, a) && AllAllowed(a, ops)
    decreases |ops|
  {
    if ops == [] then e.kernel == a.interest else
    OpRefines(p, e, a, ops[0]);
    e.kernel == a.interest &&
    match ops[0]
    case Update(fd, events) =>
      AlwaysExact(PollUpdate(p, fd, events), EpollUpdate(e, fd, events), Ask(a, ops[0]), ops[1..])
    case Remove(fd) => AlwaysExact(PollRemove(p, fd), EpollRemove(e, fd), Ask(a, ops[0]), ops[1..])
  }

  /** The kernel's set never holds a descriptor nobody asked for exactly when no channel without events is disabled again. */
  lemma {:induction false} KernelExactIff(p: PollTable, e: EpollTable, a: Asked, ops: seq<Op>)
    requires Refines(p, e, a) && AllAllowed(a, ops) && e.kernel == a.interest
    ensures AlwaysExact(p, e, a, ops) <==> NeverIdle(a, ops)
    decreases |ops|
  {
    if ops != [] {
      assert EpollOk(e) && e.marks.Keys == a.registered;
      hide EpollOk, PollOk, PollInterest, EpollInterest, IdleIgnored, PollUpdate, PollRemove, EpollUpdate, EpollRemove, Idle;
      OpRefines(p, e, a, ops[0]);
      KernelStaysExact(e, a, ops[0]);
      if !Idle(a, ops[0]) {
        match ops[0]
        case Update(fd, events) =>
          KernelExactIff(PollUpdate(p, fd, events), EpollUpdate(e, fd, events), Ask(a, ops[0]), ops[1..]);
        case Remove(fd) => KernelExactIff(PollRemove(p, fd), EpollRemove(e, fd), Ask(a, ops[0]), ops[1..]);
      }
    }
  }
}
