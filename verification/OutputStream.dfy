/**
  The output side of a TCP connection: direct writes, the output buffer drained on POLLOUT, the half close. A socket
  write takes any prefix of what it is given, or fails.

  The steps Send, Shutdown and CallForceClose are calls made in the loop thread. ForeignSend and ForeignShutdown are calls
  made in another thread: they post a functor, and RunForeign is the loop running the oldest one posted.
 */
module OutputStream {
  import opened Common

  datatype WriteResult = Wrote(n: nat) | WouldBlock | PeerReset | OtherError

  datatype SocketOp = Write(bytes: seq<Byte>) | ShutdownWrite

  datatype Functor = WriteComplete | HighWater(size: nat) | ForceCloseInLoop

  /** The functors of calls made in other threads. */
  datatype Posted = SendOf(data: seq<Byte>) | ShutdownOf

  datatype Stream = Stream(
    state: ConnState,
    writing: bool,              // POLLOUT is watched
    output: seq<Byte>,          // readable part of outputBuffer_
    highWaterMark: nat,
    log: seq<SocketOp>,         // what was done to the socket
    queued: seq<Functor>,       // what the loop thread queued, ever
    posted: seq<Posted>,        // what other threads posted and the loop has not run
    offered: seq<Byte>,         // all bytes sendInLoop took on
    kept: seq<Byte>,            // those of messages not given up
    lost: bool)                 // a non-empty message was given up on EPIPE or ECONNRESET

  datatype Step =
    | Establish
    | Send(data: seq<Byte>, w: WriteResult)
    | ForeignSend(data: seq<Byte>)
    | HandleWrite(w: WriteResult)
    | Shutdown
    | ForeignShutdown
    | RunForeign(w: WriteResult)
    | CallForceClose
    | Close

  predicate OpenState(state: ConnState) {
    state == Connected || state == Disconnecting
  }

  /** The kernel never takes more than it was offered. */
  predicate Possible(w: WriteResult, len: nat) {
    w.Wrote? ==> w.n <= len
  }

  /** The bytes the kernel has taken, in order. */
  function Written(log: seq<SocketOp>): seq<Byte> {
    if log == [] then []
    else
      var last := log[|log| - 1];
      Written(log[..|log| - 1]) + (if last.Write? then last.bytes else [])
  }

  lemma WrittenSnoc(log: seq<SocketOp>, op: SocketOp)
    ensures Written(log + [op]) == Written(log) + (if op.Write? then op.bytes else [])
  {
    assert (log + [op])[..|log|] == log;
  }

  function Queue(s: Stream, f: Functor): Stream {
    s.(queued := s.queued + [f])
  }

  /** The part of sendInLoop that buffers what was not written. */
  function BufferRest(s: Stream, rest: seq<Byte>): Stream {
    if rest == [] then s else
    var size := |s.output| + |rest|;
    var s1 := if s.highWaterMark <= size && |s.output| < s.highWaterMark then Queue(s, HighWater(size)) else s;
    s1.(output := s.output + rest, writing := true)
  }

  lemma BufferNothing(s: Stream)
    ensures BufferRest(s, []) == s
  {
  }

  /** TcpConnection::sendInLoop. */
  function SendInLoop(s: Stream, data: seq<Byte>, w: WriteResult): Stream {
    if s.state == Disconnected || !Possible(w, |data|) then s else
    var s0 := s.(offered := s.offered + data);
    if s.writing || s.output != [] then BufferRest(s0.(kept := s.kept + data), data)
    else if w.PeerReset? then s0.(log := s.log + [Write([])], lost := s.lost || data != [])
    else
      var n := if w.Wrote? then w.n else 0;
      var s1 := s0.(log := s.log + [Write(data[..n])], kept := s.kept + data);
      var s2 := if w.Wrote? && n == |data| then Queue(s1, WriteComplete) else s1;
      BufferRest(s2, data[n..])
  }

  /** TcpConnection::shutdownInLoop. */
  function DoShutdownInLoop(s: Stream): Stream {
    if s.writing then s else s.(log := s.log + [ShutdownWrite])
  }

  /** TcpConnection::handleWrite. */
  function DoHandleWrite(s: Stream, w: WriteResult): Stream {
    if !s.writing || !Possible(w, |s.output|) then s else
    var n := if w.Wrote? then w.n else 0;
    var s1 := s.(log := s.log + [Write(s.output[..n])], output := s.output[n..]);
    if n > 0 && n == |s.output| then
      var s2 := Queue(s1.(writing := false), WriteComplete);
      if s.state == Disconnecting then DoShutdownInLoop(s2) else s2
    else s1
  }

  /** The functor `p` runs in `s`; an impossible write result leaves everything at `before`. */
  function DoForeign(s: Stream, p: Posted, before: Stream, w: WriteResult): Stream {
    match p
    case SendOf(data) => if Possible(w, |data|) then SendInLoop(s, data, w) else before
    case ShutdownOf => DoShutdownInLoop(s)
  }

  function Apply(s: Stream, step: Step): Stream {
    match step
    case Establish => if s.state == Connecting then s.(state := Connected) else s
    case Send(data, w) => if s.state == Connected then SendInLoop(s, data, w) else s
    case ForeignSend(data) => if s.state == Connected then s.(posted := s.posted + [SendOf(data)]) else s
    case HandleWrite(w) => DoHandleWrite(s, w)
    case Shutdown => if s.state == Connected then DoShutdownInLoop(s.(state := Disconnecting)) else s
    case ForeignShutdown =>
      if s.state == Connected then s.(state := Disconnecting, posted := s.posted + [ShutdownOf]) else s
    case RunForeign(w) => if s.posted == [] then s else DoForeign(s.(posted := s.posted[1..]), s.posted[0], s, w)
    case CallForceClose => if OpenState(s.state) then Queue(s.(state := Disconnecting), ForceCloseInLoop) else s
    case Close => if OpenState(s.state) then s.(state := Disconnected, writing := false) else s
  }

  function Run(s: Stream, steps: seq<Step>): Stream
    decreases |steps|
  {
    if steps == [] then s else Run(Apply(s, steps[0]), steps[1..])
  }

  function Init(highWaterMark: nat): Stream {
    Stream(Connecting, false, [], highWaterMark, [], [], [], [], [], false)
  }

  // ---------- conservation, in every run ----------

  ghost predicate Inv(s: Stream) {
    && Written(s.log) + s.output == s.kept
    && (OpenState(s.state) ==> (s.writing <==> s.output != []))
    && (!OpenState(s.state) ==> !s.writing)
    && (s.state == Connecting ==> s.output == [] && s.posted == [])
    && |s.kept| <= |s.offered|
    && (!s.lost ==> s.kept == s.offered)
    && (s.lost ==> |s.kept| < |s.offered|)
  }

  lemma BufferRestKeeps(s: Stream, rest: seq<Byte>)
    requires OpenState(s.state) && (s.writing <==> s.output != [])
    requires Written(s.log) + s.output + rest == s.kept
    requires |s.kept| <= |s.offered| && (!s.lost ==> s.kept == s.offered) && (s.lost ==> |s.kept| < |s.offered|)
    ensures Inv(BufferRest(s, rest))
  {
    assert Written(s.log) + (s.output + rest) == Written(s.log) + s.output + rest;
  }

  lemma Split(a: seq<Byte>, b: seq<Byte>, n: nat)
    requires n <= |b|
    ensures (a + b[..n]) + b[n..] == a + b
  {
    assert b == b[..n] + b[n..];
  }

  lemma DirectWriteKeeps(s: Stream, data: seq<Byte>, w: WriteResult)
    requires Inv(s) && OpenState(s.state) && s.output == [] && !w.PeerReset? && Possible(w, |data|)
    ensures Inv(SendInLoop(s, data, w))
  {
    hide Written;
    var n := if w.Wrote? then w.n else 0;
    WrittenSnoc(s.log, Write(data[..n]));
    Split(Written(s.log), data, n);
    var s1 := s.(offered := s.offered + data, log := s.log + [Write(data[..n])], kept := s.kept + data);
    var s2 := if w.Wrote? && n == |data| then Queue(s1, WriteComplete) else s1;
    BufferRestKeeps(s2, data[n..]);
  }

  lemma SendKeeps(s: Stream, data: seq<Byte>, w: WriteResult)
    requires Inv(s) && s.state != Connecting
    ensures Inv(SendInLoop(s, data, w))
  {
    if s.state != Disconnected && Possible(w, |data|) {
      hide Written;
      if s.writing || s.output != [] {
        BufferRestKeeps(s.(offered := s.offered + data, kept := s.kept + data), data);
      } else if w.PeerReset? {
        WrittenSnoc(s.log, Write([]));
      } else {
        DirectWriteKeeps(s, data, w);
      }
    }
  }

  lemma DrainKeeps(log: seq<SocketOp>, output: seq<Byte>, n: nat)
    requires n <= |output|
    ensures Written(log + [Write(output[..n])]) + output[n..] == Written(log) + output
    ensures Written(log + [Write(output[..n])] + [ShutdownWrite]) == Written(log + [Write(output[..n])])
  {
    hide Written;
    WrittenSnoc(log, Write(output[..n]));
    Split(Written(log), output, n);
    WrittenSnoc(log + [Write(output[..n])], ShutdownWrite);
  }

  lemma HandleWriteKeeps(s: Stream, w: WriteResult)
    requires Inv(s)
    ensures Inv(DoHandleWrite(s, w))
  {
    if s.writing && Possible(w, |s.output|) {
      hide Written;
      var n := if w.Wrote? then w.n else 0;
      DrainKeeps(s.log, s.output, n);
      var s' := DoHandleWrite(s, w);
      var log1 := s.log + [Write(s.output[..n])];
      assert s'.output == s.output[n..];
      if n > 0 && n == |s.output| {
        assert s'.log == if s.state == Disconnecting then log1 + [ShutdownWrite] else log1;
      } else {
        assert s'.log == log1;
      }
      assert Written(s'.log) == Written(log1);
      assert s'.kept == s.kept && s'.offered == s.offered && s'.lost == s.lost;
      hide DoHandleWrite;
    }
  }

  lemma ApplyKeeps(s: Stream, step: Step)
    requires Inv(s)
    ensures Inv(Apply(s, step))
  {
    WrittenSnoc(s.log, ShutdownWrite);
    match step
    case Send(data, w) => if s.state == Connected { SendKeeps(s, data, w); }
    case RunForeign(w) =>
      if s.posted != [] && s.posted[0].SendOf? {
        SendKeeps(s.(posted := s.posted[1..]), s.posted[0].data, w);
      }
    case HandleWrite(w) => HandleWriteKeeps(s, w);
    case _ =>
  }

  lemma {:induction false} RunKeeps(s: Stream, steps: seq<Step>)
    requires Inv(s)
    ensures Inv(Run(s, steps))
    decreases |steps|
  {
    if steps != [] {
      ApplyKeeps(s, steps[0]);
      RunKeeps(Apply(s, steps[0]), steps[1..]);
    }
  }

  /**
    Stream conservation, in every run and from every thread: the bytes taken by the kernel followed by the output buffer
    are the concatenation of all messages sendInLoop took on and did not give up; they are all bytes taken on exactly
    when no non-empty message met EPIPE or ECONNRESET. While the connection is open POLLOUT is watched exactly when the
    output buffer is non-empty.
   */
  lemma StreamConserved(highWaterMark: nat, steps: seq<Step>)
    ensures var s := Run(Init(highWaterMark), steps);
      && Written(s.log) + s.output == s.kept
      && (s.kept == s.offered <==> !s.lost)
      && (OpenState(s.state) ==> (s.writing <==> s.output != []))
  {
    RunKeeps(Init(highWaterMark), steps);
  }

  lemma SendQueues(s: Stream, data: seq<Byte>, w: WriteResult)
    requires Inv(s)
    ensures var s' := SendInLoop(s, data, w);
      && s.queued <= s'.queued
      && (WriteComplete in s'.queued[|s.queued|..] ==> s'.output == [])
  {
    hide Written;
    var s' := SendInLoop(s, data, w);
    var wc := if w.Wrote? && w.n == |data| then [WriteComplete] else [];
    var hw := [HighWater(|s'.output|)];
    assert s'.queued == s.queued || s'.queued == s.queued + wc || s'.queued == s.queued + hw;
  }

  lemma HandleWriteQueues(s: Stream, w: WriteResult)
    requires Inv(s)
    ensures var s' := DoHandleWrite(s, w);
      && s.queued <= s'.queued
      && (WriteComplete in s'.queued[|s.queued|..] ==> s'.output == [])
  {
    hide Written;
    var s' := DoHandleWrite(s, w);
    assert s'.queued == s.queued || (s'.queued == s.queued + [WriteComplete] && s'.output == []);
  }

  /** Write-complete is queued only at moments when every byte kept so far has reached the kernel. */
  lemma WriteCompleteMeansAllSent(s: Stream, step: Step)
    requires Inv(s)
    ensures s.queued <= Apply(s, step).queued
    ensures WriteComplete in Apply(s, step).queued[|s.queued|..] ==>
              Apply(s, step).output == [] && Written(Apply(s, step).log) == Apply(s, step).kept
  {
    hide Written;
    ApplyKeeps(s, step);
    var s' := Apply(s, step);
    assert s'.output == [] ==> Written(s'.log) + s'.output == Written(s'.log);
    match step
    case Send(data, w) => SendQueues(s, data, w);
    case RunForeign(w) =>
      if s.posted != [] && s.posted[0].SendOf? {
        SendQueues(s.(posted := s.posted[1..]), s.posted[0].data, w);
      }
    case HandleWrite(w) => HandleWriteQueues(s, w);
    case _ =>
  }

  /** The high-water callback is queued, with the new size, exactly when a send lifts the buffer across the mark. */
  lemma HighWaterOnCrossing(s: Stream, data: seq<Byte>, w: WriteResult, size: nat)
    requires Inv(s) && s.state == Connected && Possible(w, |data|)
    ensures var s' := Apply(s, Send(data, w));
      HighWater(size) in s'.queued[|s.queued|..] <==> |s.output| < s.highWaterMark <= |s'.output| == size
  {
    var s' := Apply(s, Send(data, w));
    assert s'.queued[..|s.queued|] == s.queued;
    if |s.output| < s.highWaterMark <= |s'.output| == size {
      assert s'.queued[|s'.queued| - 1] == HighWater(size);
      assert s'.queued[|s.queued|..][|s'.queued| - 1 - |s.queued|] == HighWater(size);
    }
  }

  // ---------- graceful shutdown, when only the loop thread sends and shuts down ----------

  predicate InLoopThread(step: Step) {
    !step.ForeignSend? && !step.ForeignShutdown?
  }

  /** shutdownWrite, if it happened, was the last thing done to the socket, with nothing left to send. */
  ghost predicate Graceful(s: Stream) {
    && s.posted == []
    && (forall i | 0 <= i < |s.log| - 1 :: s.log[i] != ShutdownWrite)
    && (s.log != [] && s.log[|s.log| - 1] == ShutdownWrite ==>
          && (s.state == Disconnecting || s.state == Disconnected)
          && !s.writing
          && s.output == []
          && Written(s.log) == s.kept)
  }

  lemma GracefulStep(s: Stream, step: Step)
    requires Inv(s) && Graceful(s) && InLoopThread(step)
    ensures Graceful(Apply(s, step))
  {
    ApplyKeeps(s, step);
    var s' := Apply(s, step);
    GracefulShape(s, step);
    hide Written, Apply;
    assert Written(s'.log) + s'.output == s'.kept;
  }

  /** The part of it that does not depend on the bytes. */
  ghost predicate GracefulLog(s: Stream) {
    && s.posted == []
    && (forall i | 0 <= i < |s.log| - 1 :: s.log[i] != ShutdownWrite)
    && (s.log != [] && s.log[|s.log| - 1] == ShutdownWrite ==>
          (s.state == Disconnecting || s.state == Disconnected) && !s.writing && s.output == [])
  }

  lemma GracefulShape(s: Stream, step: Step)
    requires Inv(s) && GracefulLog(s) && InLoopThread(step)
    ensures GracefulLog(Apply(s, step))
  {
    hide Written;
    match step
    case Send(data, w) => GracefulSend(s, data, w);
    case HandleWrite(w) => GracefulHandleWrite(s, w);
    case _ =>
  }

  lemma GracefulSend(s: Stream, data: seq<Byte>, w: WriteResult)
    requires Inv(s) && GracefulLog(s)
    ensures GracefulLog(Apply(s, Send(data, w)))
  {
    if s.state == Connected {
      SendLogs(s, data, w);
    }
    hide Written, SendInLoop;
  }

  /** A send does at most one write to the socket, and nothing else. */
  lemma SendLogs(s: Stream, data: seq<Byte>, w: WriteResult)
    ensures var s' := SendInLoop(s, data, w);
      && s'.state == s.state && s'.posted == s.posted
      && (s'.log == s.log || (|s'.log| == |s.log| + 1 && s'.log[..|s.log|] == s.log && s'.log[|s.log|].Write?))
  {
  }

  lemma GracefulHandleWrite(s: Stream, w: WriteResult)
    requires Inv(s) && GracefulLog(s)
    ensures GracefulLog(DoHandleWrite(s, w))
  {
    hide Written;
  }

  lemma {:induction false} GracefulRun(s: Stream, steps: seq<Step>)
    requires Inv(s) && Graceful(s) && forall i | 0 <= i < |steps| :: InLoopThread(steps[i])
    ensures Graceful(Run(s, steps))
    decreases |steps|
  {
    if steps != [] {
      GracefulStep(s, steps[0]);
      ApplyKeeps(s, steps[0]);
      GracefulRun(Apply(s, steps[0]), steps[1..]);
    }
  }

  function Shutdowns(log: seq<SocketOp>): nat {
    multiset(log)[ShutdownWrite]
  }

  /** shutdownWrite at most once, only with the output buffer empty and every kept byte in the kernel, and no write after it. */
  ghost predicate EndsGracefully(s: Stream) {
    && Shutdowns(s.log) <= 1
    && (Shutdowns(s.log) == 1 ==>
          && s.log[|s.log| - 1] == ShutdownWrite
          && s.output == []
          && Written(s.log) == s.kept)
  }

  /** So it is in every run in which send and shutdown are called in the loop thread. */
  lemma ShutdownIsGraceful(highWaterMark: nat, steps: seq<Step>)
    requires forall i | 0 <= i < |steps| :: InLoopThread(steps[i])
    ensures EndsGracefully(Run(Init(highWaterMark), steps))
  {
    GracefulRun(Init(highWaterMark), steps);
    GracefulEnds(Run(Init(highWaterMark), steps));
  }

  lemma GracefulEnds(s: Stream)
    requires Graceful(s)
    ensures EndsGracefully(s)
  {
    hide Written;
    if s.log != [] {
      var n := |s.log| - 1;
      assert s.log == s.log[..n] + [s.log[n]];
      assert ShutdownWrite !in s.log[..n];
    }
  }

  /** Once the connection is disconnecting, the kernel taking everything that is left does shut the socket down. */
  lemma DrainShutsDown(s: Stream)
    requires Inv(s) && s.state == Disconnecting && s.writing
    ensures var s' := Apply(s, HandleWrite(Wrote(|s.output|)));
      s'.log[|s'.log| - 1] == ShutdownWrite && s'.output == [] && Written(s'.log) == s.kept
  {
    ApplyKeeps(s, HandleWrite(Wrote(|s.output|)));
  }

  // ---------- why the calls must be made in the loop thread ----------

  /** A shutdown called in another thread while data drains shuts the socket down twice, whatever the data. */
  lemma ForeignShutdownTwice(s: Stream, w: WriteResult)
    requires Inv(s) && s.state == Connected && s.writing && s.posted == []
    ensures
      var drained := Apply(Apply(s, ForeignShutdown), HandleWrite(Wrote(|s.output|)));
      Apply(drained, RunForeign(w)).log == s.log + [Write(s.output), ShutdownWrite, ShutdownWrite]
  {
    hide Written;
    var drained := Apply(Apply(s, ForeignShutdown), HandleWrite(Wrote(|s.output|)));
    assert s.output[..|s.output|] == s.output;
    assert drained.log == s.log + [Write(s.output)] + [ShutdownWrite];
    assert drained.posted[0] == ShutdownOf;
  }

  /** A send posted by another thread and run after the half close is written after it, in every such state. */
  lemma ForeignSendAfterShutdown(s: Stream, n: nat)
    requires s.state == Disconnecting && !s.writing && s.output == []
    requires s.log != [] && s.log[|s.log| - 1] == ShutdownWrite
    requires s.posted != [] && s.posted[0].SendOf? && n <= |s.posted[0].data|
    ensures Apply(s, RunForeign(Wrote(n))).log == s.log + [Write(s.posted[0].data[..n])]
    ensures !EndsGracefully(Apply(s, RunForeign(Wrote(n))))
  {
    hide Written;
    var s' := Apply(s, RunForeign(Wrote(n)));
    assert s'.log[|s.log| - 1] == ShutdownWrite && s'.log[|s.log|].Write?;
    assert ShutdownWrite in s'.log;
  }

  /** The run uses calls of other threads only as allowed. */
  predicate Uses(steps: seq<Step>, sends: bool, shutdowns: bool) {
    forall i | 0 <= i < |steps| :: (steps[i].ForeignSend? ==> sends) && (steps[i].ForeignShutdown? ==> shutdowns)
  }

  lemma SendBreaks(highWaterMark: nat) returns (steps: seq<Step>)
    ensures Uses(steps, true, false) && !EndsGracefully(Run(Init(highWaterMark), steps))
  {
    var a, b, c, d := Establish, ForeignSend([0]), Shutdown, RunForeign(Wrote(1));
    var s := Apply(Apply(Apply(Init(highWaterMark), a), b), c);
    assert s.log == [ShutdownWrite] && s.posted == [SendOf([0])];
    ForeignSendAfterShutdown(s, 1);
    steps := [a, b, c, d];
    RunFour(Init(highWaterMark), a, b, c, d);
  }

  /** A connection with one byte the kernel did not take. */
  function Draining(highWaterMark: nat): Stream {
    Apply(Apply(Init(highWaterMark), Establish), Send([0], WouldBlock))
  }

  lemma DrainingFacts(highWaterMark: nat)
    ensures var s := Draining(highWaterMark);
      Inv(s) && s.state == Connected && s.writing && s.output == [0] && s.posted == []
  {
    ApplyKeeps(Init(highWaterMark), Establish);
    ApplyKeeps(Apply(Init(highWaterMark), Establish), Send([0], WouldBlock));
  }

  lemma ShutdownBreaks(highWaterMark: nat) returns (steps: seq<Step>)
    ensures Uses(steps, false, true) && !EndsGracefully(Run(Init(highWaterMark), steps))
  {
    hide Apply, Written, Inv;
    var a, b, c, d, e := Establish, Send([0], WouldBlock), ForeignShutdown, HandleWrite(Wrote(1)), RunForeign(WouldBlock);
    var s := Draining(highWaterMark);
    DrainingFacts(highWaterMark);
    ForeignShutdownTwice(s, WouldBlock);
    var end := Apply(Apply(Apply(s, c), d), e);
    assert end.log == s.log + [Write([0]), ShutdownWrite] + [ShutdownWrite];
    assert Shutdowns(end.log) >= 2;
    steps := [a] + [b, c, d, e];
    assert steps[1..] == [b, c, d, e];
    RunFour(Apply(Init(highWaterMark), a), b, c, d, e);
  }

  lemma RunFour(s: Stream, a: Step, b: Step, c: Step, d: Step)
    ensures Run(s, [a, b, c, d]) == Apply(Apply(Apply(Apply(s, a), b), c), d)
  {
    hide Apply;
    var s1 := Apply(s, a);
    var s2 := Apply(s1, b);
    var s3 := Apply(s2, c);
    assert [a, b, c, d][1..] == [b, c, d] && [b, c, d][1..] == [c, d] && [c, d][1..] == [d] && [d][1..] == [];
    assert Run(s3, [d]) == Apply(s3, d) && Run(s2, [c, d]) == Run(s3, [d]) && Run(s1, [b, c, d]) == Run(s2, [c, d]);
  }

  /** Every run is graceful exactly when neither sends nor shutdowns are called in other threads. */
  lemma GracefulIff(highWaterMark: nat, sends: bool, shutdowns: bool)
    ensures (forall steps | Uses(steps, sends, shutdowns) :: EndsGracefully(Run(Init(highWaterMark), steps))) <==>
              !sends && !shutdowns
  {
    hide Run, Init, EndsGracefully;
    if sends {
      var steps := SendBreaks(highWaterMark);
      assert Uses(steps, sends, shutdowns) && !EndsGracefully(Run(Init(highWaterMark), steps));
    } else if shutdowns {
      var steps := ShutdownBreaks(highWaterMark);
      assert Uses(steps, sends, shutdowns) && !EndsGracefully(Run(Init(highWaterMark), steps));
    } else {
      forall steps | Uses(steps, sends, shutdowns) ensures EndsGracefully(Run(Init(highWaterMark), steps)) {
        ShutdownIsGraceful(highWaterMark, steps);
      }
    }
  }
}
