/**
  What the stream machine owes to the calls alone: which bytes it must carry, which state it is in and what it queues, said
  without its buffer.
 */
module StreamBytes {
  import opened Common
  import opened OutputStream

  // ---------- the bytes of a run ----------

  /** All that decides which bytes are taken on: the connection's state, and the calls of other threads not yet run. */
  datatype Side = Side(state: ConnState, posted: seq<Posted>)

  /** The bytes a step hands to sendInLoop while the connection is not down. */
  function Taken(c: Side, step: Step): seq<Byte> {
    match step
    case Send(data, w) => if c.state == Connected && Possible(w, |data|) then data else []
    case RunForeign(w) =>
      if c.posted != [] && c.posted[0].SendOf? && Possible(w, |c.posted[0].data|) && c.state != Disconnected
      then c.posted[0].data else []
    case _ => []
  }

  function Next(c: Side, step: Step): Side {
    match step
    case Establish => c.(state := if c.state == Connecting then Connected else c.state)
    case Shutdown => c.(state := if c.state == Connected then Disconnecting else c.state)
    case CallForceClose => c.(state := if OpenState(c.state) then Disconnecting else c.state)
    case Close => c.(state := if OpenState(c.state) then Disconnected else c.state)
    case ForeignSend(data) => if c.state == Connected then c.(posted := c.posted + [SendOf(data)]) else c
    case ForeignShutdown => if c.state == Connected then Side(Disconnecting, c.posted + [ShutdownOf]) else c
    case RunForeign(w) =>
      if c.posted == [] || (c.posted[0].SendOf? && !Possible(w, |c.posted[0].data|)) then c else c.(posted := c.posted[1..])
    case _ => c
  }

  /** The bytes of all sends of a run, in order. */
  function BytesOf(c: Side, steps: seq<Step>): seq<Byte>
    decreases |steps|
  {
    if steps == [] then [] else Taken(c, steps[0]) + BytesOf(Next(c, steps[0]), steps[1..])
  }

  function SideAfter(c: Side, steps: seq<Step>): Side
    decreases |steps|
  {
    if steps == [] then c else SideAfter(Next(c, steps[0]), steps[1..])
  }

  function SideOf(s: Stream): Side {
    Side(s.state, s.posted)
  }

  lemma SendTakes(s: Stream, data: seq<Byte>, w: WriteResult)
    requires Possible(w, |data|)
    ensures var s' := SendInLoop(s, data, w);
      && SideOf(s') == SideOf(s)
      && s'.offered == if s.state == Disconnected then s.offered else s.offered + data
  {
  }

  lemma StepTakes(s: Stream, step: Step)
    ensures SideOf(Apply(s, step)) == Next(SideOf(s), step)
    ensures Apply(s, step).offered == s.offered + Taken(SideOf(s), step)
  {
    match step
    case Send(data, w) =>
      if Possible(w, |data|) {
        SendTakes(s, data, w);
      }
    case RunForeign(w) =>
      if s.posted != [] && s.posted[0].SendOf? && Possible(w, |s.posted[0].data|) {
        SendTakes(s.(posted := s.posted[1..]), s.posted[0].data, w);
      }
    case _ =>
  }

  lemma {:induction false} RunTakes(s: Stream, steps: seq<Step>)
    ensures SideOf(Run(s, steps)) == SideAfter(SideOf(s), steps)
    ensures Run(s, steps).offered == s.offered + BytesOf(SideOf(s), steps)
    decreases |steps|
  {
    hide Apply, Taken, Next;
    if steps != [] {
      StepTakes(s, steps[0]);
      RunTakes(Apply(s, steps[0]), steps[1..]);
      assert s.offered + Taken(SideOf(s), steps[0]) + BytesOf(Next(SideOf(s), steps[0]), steps[1..]) ==
             s.offered + BytesOf(SideOf(s), steps);
    }
  }

  // ---------- what is lost ----------

  /** The step is a write that met EPIPE or ECONNRESET. */
  predicate Resets(step: Step) {
    (step.Send? || step.RunForeign? || step.HandleWrite?) && step.w.PeerReset?
  }

  /** A send is either buffered or written behind what was there, whole, or met a reset with nothing before it. */
  lemma SendCarries(s: Stream, data: seq<Byte>, w: WriteResult)
    requires Inv(s) && OpenState(s.state) && Possible(w, |data|)
    ensures var s' := SendInLoop(s, data, w);
      if w.PeerReset? && s.output == []
      then s'.output == [] && Written(s'.log) == Written(s.log)
      else Written(s'.log) + s'.output == Written(s.log) + s.output + data && s'.lost == s.lost
  {
    hide Written;
    var s' := SendInLoop(s, data, w);
    if s.output != [] {
      assert Written(s.log) + (s.output + data) == Written(s.log) + s.output + data;
    } else if w.PeerReset? {
      WrittenSnoc(s.log, Write([]));
    } else {
      var n := if w.Wrote? then w.n else 0;
      WrittenSnoc(s.log, Write(data[..n]));
      Split(Written(s.log), data, n);
      assert s'.log == s.log + [Write(data[..n])] && s'.output == data[n..];
    }
  }

  lemma NoResetNoLoss(s: Stream, step: Step)
    requires !Resets(step) && !s.lost
    ensures !Apply(s, step).lost
  {
  }

  lemma {:induction false} NoResetsNoLoss(s: Stream, steps: seq<Step>)
    requires !s.lost && forall i | 0 <= i < |steps| :: !Resets(steps[i])
    ensures !Run(s, steps).lost
    decreases |steps|
  {
    hide Apply;
    if steps != [] {
      NoResetNoLoss(s, steps[0]);
      NoResetsNoLoss(Apply(s, steps[0]), steps[1..]);
    }
  }

  /**
    Over every run without EPIPE or ECONNRESET the bytes the kernel took, followed by the output buffer, are exactly the
    bytes of the sends, in order.
   */
  lemma AllBytesCarried(highWaterMark: nat, steps: seq<Step>)
    ensures var s := Run(Init(highWaterMark), steps);
      && s.offered == BytesOf(Side(Connecting, []), steps)
      && SideOf(s) == SideAfter(Side(Connecting, []), steps)
      && ((forall i | 0 <= i < |steps| :: !Resets(steps[i])) ==>
            Written(s.log) + s.output == BytesOf(Side(Connecting, []), steps))
  {
    var s0 := Init(highWaterMark);
    RunTakes(s0, steps);
    assert [] + BytesOf(SideOf(s0), steps) == BytesOf(SideOf(s0), steps);
    StreamConserved(highWaterMark, steps);
    if forall i | 0 <= i < |steps| :: !Resets(steps[i]) {
      NoResetsNoLoss(s0, steps);
    }
  }

  // ---------- progress ----------

  /** In every open state a write of n bytes moves exactly the first n bytes of the buffer to the socket. */
  lemma HandleWriteMoves(s: Stream, n: nat)
    requires Inv(s) && s.writing && n <= |s.output|
    ensures var s' := Apply(s, HandleWrite(Wrote(n)));
      && s'.output == s.output[n..]
      && |s.log| < |s'.log| && s'.log[..|s.log|] == s.log && s'.log[|s.log|] == Write(s.output[..n])
      && (s'.writing <==> n < |s.output|)
  {
    hide Written;
    var s' := Apply(s, HandleWrite(Wrote(n)));
    assert s'.log == s.log + [Write(s.output[..n])] || s'.log == s.log + [Write(s.output[..n])] + [ShutdownWrite];
  }

  /** A shutdown takes effect: at once with nothing to write, else as soon as the kernel takes what is left. */
  lemma ShutdownCompletes(s: Stream)
    requires Inv(s) && s.state == Connected
    ensures var marked := Apply(s, Shutdown);
            var done := if s.writing then Apply(marked, HandleWrite(Wrote(|s.output|))) else marked;
      && marked.state == Disconnecting && marked.output == s.output
      && done.output == [] && !done.writing && Written(done.log) == s.kept
      && |s.log| < |done.log| && done.log[|done.log| - 1] == ShutdownWrite && done.log[..|s.log|] == s.log
  {
    var marked := Apply(s, Shutdown);
    ApplyKeeps(s, Shutdown);
    if s.writing {
      ApplyKeeps(marked, HandleWrite(Wrote(|s.output|)));
    }
  }

  // ---------- what is queued ----------

  /** What a send must queue: write-complete for a message written whole, high water for one that crosses the mark. */
  function SendQueued(s: Stream, data: seq<Byte>, w: WriteResult): seq<Functor> {
    if s.state == Disconnected then []
    else if s.output == [] && w == Wrote(|data|) then [WriteComplete]
    else
      var left := if s.output == [] && w.Wrote? && w.n <= |data| then |data| - w.n else |data|;
      var size := |s.output| + left;
      if !(s.output == [] && w.PeerReset?) && left > 0 && |s.output| < s.highWaterMark <= size then [HighWater(size)] else []
  }

  lemma SendQueuesExactly(s: Stream, data: seq<Byte>, w: WriteResult)
    requires Inv(s) && Possible(w, |data|)
    ensures s.state != Connecting ==> SendInLoop(s, data, w).queued == s.queued + SendQueued(s, data, w)
  {
    hide Written;
    assert s.queued + [] == s.queued;
  }

  /** What each step queues, no more and no less. */
  lemma QueuesExactly(s: Stream, step: Step)
    requires Inv(s)
    ensures Apply(s, step).queued == s.queued +
              match step
              case Send(data, w) => if s.state == Connected && Possible(w, |data|) then SendQueued(s, data, w) else []
              case RunForeign(w) =>
                if s.posted != [] && s.posted[0].SendOf? && Possible(w, |s.posted[0].data|)
                then SendQueued(s, s.posted[0].data, w) else []
              case HandleWrite(w) => if s.writing && w == Wrote(|s.output|) && s.output != [] then [WriteComplete] else []
              case CallForceClose => if OpenState(s.state) then [ForceCloseInLoop] else []
              case _ => []
  {
    hide Written;
    assert s.queued + [] == s.queued;
    match step
    case Send(data, w) =>
      if Possible(w, |data|) {
        SendQueuesExactly(s, data, w);
      }
    case RunForeign(w) =>
      if s.posted != [] && s.posted[0].SendOf? && Possible(w, |s.posted[0].data|) {
        var s1 := s.(posted := s.posted[1..]);
        SendQueuesExactly(s1, s.posted[0].data, w);
      }
    case _ =>
  }
}
