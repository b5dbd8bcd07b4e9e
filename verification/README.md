# muduo in Dafny

A model of the state machines inside muduo, a reactor-style C++ network library, and proofs of what they promise. Each
component is one or more modules:

- **Timer queue** (`TimerList`, `TimerMachine`, `TimerProofs`, `TimerTheorems`, `TimerTimes`, `TimerQueue`): two
  indexes of the same timers, a one-shot timerfd, and callbacks that add and cancel timers while a batch runs.
- **Connections** (`OutputStream`, `StreamBytes`, `TcpConnection`, `Lifecycle`, `LifecycleProofs`, `LifecycleSteps`,
  `LifecycleLimits`, `ConnectionNames`): the output stream of a connection (direct write, buffered write, drain, half
  close), and the life of connections between the acceptor loop and the I/O loops under every interleaving.
- **Event loop** (`EventLoop`, `LoopThread`): threads that push functors and wake the loop through an eventfd.
- **Pollers** (`PollerTables`, `Pollers`): the poll array with swap-removal and the epoll shadow state, both against one
  interest map.
- **Buffer, codec, HTTP** (`Bytes`, `Buffer`, `Adler32`, `FrameCodec`, `FrameVerdicts`, `ProtobufCodecLite`, `HttpParser`,
  `HttpPrinter`, `HttpRequestLines`, `HttpLines`, `HttpServer`, `HttpContext`): a three-region buffer
  that stands for a byte sequence, and two incremental parsers on top of it.
- **Calendar and time zones** (`Calendar`, `UtcTime`, `TimeZone`).
- **Blocking queue, thread pool, RPC** (`BlockingQueue`, `ThreadPool`, `Rpc`, `RpcOrigins`, `RpcChannel`).

The machines have a `State`, a `Step`, a total `Apply` and a `Run` over any list of steps; the theorems hold of every
run. What a run must carry is also read off its steps alone (the bytes sent, the functors pushed, the items put, the calls
made), and the machine's own records are proved equal to that. A step that is not possible in a state leaves it alone.
Where the source asserts something, or uses an object that may have been freed, the machine has a `fault` flag, and the
theorems say when it is never raised. Kernel results (how much a
write takes, what a read returns, which events are reported, what the clock says), the choice of the thread that a
notification wakes, and what callbacks do are parameters of the steps, so that "every run" covers all of them. The objects
of the source that are updated in place are classes; their methods are proved to do what the machine or specification
function of the component does. Nothing was executed.

`dafny verify dfyconfig.toml` checks everything.

## Where the code and its description differ

- The HTTP parser ends a request at any header line without a colon, though its comment speaks of the empty line
  (net/http/HttpContext.cpp:107-118). The model follows the code: `HttpLines.EndsAtEmptyLineIff` says exactly when the end
  is the empty line, and `HttpLines.ColonlessLineEndsRequest` gives a request where it is not.
- Entered in the body state, or after a complete request, `parseRequest` never returns (net/http/HttpContext.cpp:65-127):
  `HttpParser.TerminatesIff` gives the exact condition.
- The loop can block on a functor its own thread queued before `loop()` (net/EventLoop.cpp:185-200):
  `EventLoop.NeverStuckIff` gives the exact condition.
- `HttpServer` delivers at most one request per call (net/http/HttpServer.cpp:64-86), so requests that arrive together wait
  for later bytes: `HttpServer.DeliversAllIff` gives the exact condition.
- Calls of `send` or `shutdown` in other threads, though allowed, break the graceful half close
  (net/TcpConnection.cpp:101-125, 220-245): `OutputStream.GracefulIff` gives the exact condition.
- With epoll, the default poller, closing a connection whose reading was stopped and that has nothing to write puts its
  descriptor back into the epoll set (net/poller/EPollPoller.cpp:123-145), and a hang-up before `connectDestroyed` then
  fails the assertion of `handleClose` (net/TcpConnection.cpp:462). `LifecycleLimits.IdleCloseIff` and
  `LifecycleLimits.NoFaultIff` give the exact conditions; the lifecycle theorems assume the first of them.
- A hang-up without POLLIN that also carries POLLPRI or POLLRDHUP closes a connection twice and fails an assertion
  (net/Channel.cpp:79-119): `LifecycleProofs.SecondCloseIff` gives the exact condition, and the lifecycle runs assume it
  away.
- The 64 MiB limit of the codec is on tag, body and checksum together (net/protobuf/ProtobufCodecLite.cpp:65):
  `FrameCodec.RoundTripIff`.
- An RPC call made without a response object never has its closure run (net/protorpc/RpcChannel.cpp:103-114):
  `Rpc.RpcMatched`.
- A channel disabled twice is added to the epoll set again with an empty mask (net/poller/EPollPoller.cpp:123-145):
  `PollerTables.EpollUpdateOk` and `PollerTables.KernelExactIff`. A channel removed from the poll array keeps its index, so
  that it cannot be added again.
- `stop` of the thread pool does not wake submitters (base/ThreadPool.cpp:58-72): `ThreadPool.StrandedIff` gives the exact
  condition, and by `ThreadPool.ExitedForGood` nothing releases such a submitter later.

## Model

| member | source | states |
|---|---|---|
| `TimerList.InsertCorrect` | net/TimerQueue.cpp:285-296 | inserting into the ordered set keeps it ordered and adds exactly that element |
| `TimerList.EraseCorrect` | net/TimerQueue.cpp:171-172 | erasing by key keeps the order and removes exactly that element, found at most once |
| `TimerList.LowerBoundSplits` | net/TimerQueue.cpp:214-219 | lower_bound splits the set into what lies before the sentry and what does not |
| `TimerMachine.HowMuchTimeFromNow` | net/TimerQueue.cpp:44-60 | the relative timeout is exactly the larger of the distance and 100 microseconds, in a normalized timespec |
| `TimerMachine.SetTimeDeadline` | net/TimerQueue.cpp:74-87 | arming through seconds and nanoseconds loses nothing: the deadline is max(expiration, now + 100 us) |
| `TimerProofs.InsertKeepsIndexed` | net/TimerQueue.cpp:270-300 | insert puts the timer in both indexes, neither assertion failing, and nothing else changes |
| `TimerProofs.AddKeeps` | net/TimerQueue.cpp:143-159 | adding puts exactly that timer into the queue under its expiration and keeps the whole invariant, the wakeup deadline included |
| `TimerProofs.CancelActive` | net/TimerQueue.cpp:162-175 | cancelling a queued timer frees that timer, once, and takes it out of both indexes |
| `TimerProofs.CancelKeeps` | net/TimerQueue.cpp:162-182 | cancelling any id, in or outside a batch, keeps the invariant |
| `TimerProofs.ExpiredExactly` | net/TimerQueue.cpp:210-224 | the batch is exactly the timers with expiration at most now; the rest are later |
| `TimerProofs.BeginKeeps` | net/TimerQueue.cpp:185-195 | taking the batch keeps the invariant: every timer is in one place |
| `TimerProofs.ResetFrees` | net/TimerQueue.cpp:251-256 | a one-shot or cancelled member of the batch is freed, once, and the queue stays as it was |
| `TimerProofs.ResetRestarts` | net/TimerQueue.cpp:245-250 | a repeating member not cancelled goes back to both indexes under now plus its interval, and every other timer stays as it was |
| `TimerProofs.RearmKeeps` | net/TimerQueue.cpp:259-267 | after reset the timerfd is armed in time for the earliest timer |
| `TimerProofs.RunKeepsInv` | net/TimerQueue.cpp:143-300 | every sequence of adds, cancels, expiries and callbacks keeps the invariant |
| `TimerTheorems.NoLostWakeup` | net/TimerQueue.cpp:143-267 | in every reachable resting state with timers, the timerfd is readable or armed no later than max(earliest expiration, 100 us after it was last set), and readable once that moment has passed |
| `TimerTheorems.IndexesAgree` | net/TimerQueue.cpp:162-300 | in every reachable state no assertion failed, both indexes have the same size and hold the same timers under their current expirations |
| `TimerTheorems.ReadTakesExactlyTheDue` | net/TimerQueue.cpp:185-235 | handleRead takes out of both indexes exactly the due timers, earliest first |
| `TimerTheorems.BatchRunsInOrder` | net/TimerQueue.cpp:197-201 | at the end of the calling loop every member of the batch has run once, in batch order |
| `TimerTheorems.FreedExactlyOnce` | net/TimerQueue.cpp:162-257 | every Timer ever created is allocated at one address or was freed exactly once, over every run |
| `TimerTheorems.CancelledNeverRunsAgain` | net/TimerQueue.cpp:162-257 | after cancelInLoop of an inserted timer, whatever follows, it runs at most in the batch that is executing, and once that is over it has been freed exactly once |
| `TimerTheorems.StaleCancelIsHarmless` | net/Timer.h:21-27 | cancelling the id of a timer that is gone changes no later run, even when another timer has its address |
| `TimerTimes.TimersKeepTime` | net/Timer.cpp:8-21 | over every run: each callback runs no earlier than asked for, a repeating one no earlier than an interval after its run before, one without an interval once; and every queued timer expires exactly at the time asked for, or exactly an interval after its last run |
| `TimerQueues.TimerQueue.Insert` | net/TimerQueue.cpp:270-300 | in place: the machine's insertion, and whether the earliest expiration changed |
| `TimerQueues.TimerQueue.AddTimerInLoop` | net/TimerQueue.cpp:143-159 | in place: the machine's step, invariant kept |
| `TimerQueues.TimerQueue.CancelInLoop` | net/TimerQueue.cpp:162-182 | in place: the machine's step, invariant kept |
| `TimerQueues.TimerQueue.GetExpired` | net/TimerQueue.cpp:210-235 | in place: the due prefix is returned and leaves both indexes, by the loop over the batch |
| `TimerQueues.TimerQueue.Reset` | net/TimerQueue.cpp:237-268 | in place: the loop over the batch and the rearming are the machine's steps, whose effect on the queue `TimerProofs.ResetRestarts` and `TimerProofs.ResetFrees` give |
| `TimerQueues.TimerQueue.HandleRead` | net/TimerQueue.cpp:185-206 | in place: one read with any callbacks is the machine's run, and ends at rest with the invariant |
| `OutputStream.SendKeeps` | net/TcpConnection.cpp:153-218 | sendInLoop keeps the invariant of the stream, for every result of the direct write |
| `OutputStream.HandleWriteKeeps` | net/TcpConnection.cpp:413-456 | so does handleWrite |
| `OutputStream.StreamConserved` | net/TcpConnection.cpp:153-218 | over every run the bytes the kernel took followed by outputBuffer_ are the bytes kept, which are all the bytes taken on exactly when no message was given up; while open, POLLOUT is watched exactly when the buffer is not empty |
| `StreamBytes.AllBytesCarried` | net/TcpConnection.cpp:153-218 | over every run the bytes taken on are those of the sends, read off the calls alone, and without EPIPE or ECONNRESET the bytes the kernel took followed by outputBuffer_ are exactly these, in order |
| `StreamBytes.SendCarries` | net/TcpConnection.cpp:153-218 | a send in any open state adds its whole message behind what is unsent, unless its direct write meets a reset |
| `StreamBytes.HandleWriteMoves` | net/TcpConnection.cpp:413-440 | in every open state a write of n bytes moves exactly the first n bytes of the buffer, and POLLOUT stays watched exactly while some are left |
| `StreamBytes.QueuesExactly` | net/TcpConnection.cpp:170-208 | what each step queues: write-complete exactly for a message written whole or a buffer drained, high water exactly on crossing, forceClose |
| `StreamBytes.ShutdownCompletes` | net/TcpConnection.cpp:220-245 | a shutdown half closes at once with nothing to write, else as soon as the kernel takes what is left, after every byte |
| `OutputStream.WriteCompleteMeansAllSent` | net/TcpConnection.cpp:153-218 | write-complete is queued only when every byte kept has reached the kernel |
| `OutputStream.HighWaterOnCrossing` | net/TcpConnection.cpp:203-217 | the high-water callback is queued, with the new size, exactly when a send lifts the buffer across the mark |
| `OutputStream.ShutdownIsGraceful` | net/TcpConnection.cpp:220-245 | with send and shutdown in the loop thread, over every run: at most one shutdownWrite, last on the socket, buffer empty, every byte kept written before it |
| `OutputStream.GracefulIff` | net/TcpConnection.cpp:102-125 | this holds of every run exactly when neither sends nor shutdowns are called in other threads |
| `OutputStream.DrainShutsDown` | net/TcpConnection.cpp:422-440 | a disconnecting connection whose last bytes are taken does half close |
| `OutputStream.ForeignShutdownTwice` | net/TcpConnection.cpp:220-245 | a shutdown called in another thread while data drains half closes twice, from every such state |
| `OutputStream.ForeignSendAfterShutdown` | net/TcpConnection.cpp:102-125 | a send posted by another thread that runs after the half close is written after it, in every half-closed state |
| `TcpConnections.TcpConnection.SendInLoop` | net/TcpConnection.cpp:153-218 | in place: the machine's sendInLoop |
| `TcpConnections.TcpConnection.Send` | net/TcpConnection.cpp:102-125 | in place: the machine's step in the loop thread |
| `TcpConnections.TcpConnection.Shutdown` | net/TcpConnection.cpp:220-245 | in place: the machine's step in the loop thread |
| `TcpConnections.TcpConnection.HandleWrite` | net/TcpConnection.cpp:413-456 | in place: the machine's step |
| `TcpConnections.TcpConnection.ForceClose` | net/TcpConnection.cpp:271-279 | in place: the machine's step |
| `TcpConnections.TcpConnection.ForceCloseInLoop` | net/TcpConnection.cpp:293-301 | in place: closes exactly an open connection |
| `TcpConnections.TcpConnection.HandleClose` | net/TcpConnection.cpp:458-477 | in place: the machine's step |
| `TcpConnections.TcpConnection.ConnectEstablished` | net/TcpConnection.cpp:356-371 | in place: the machine's step |
| `LifecycleProofs.HupAloneClosesOnce` | net/Channel.cpp:79-119 | the callbacks of an event can close the connection at most once exactly when a hang-up without POLLIN carries neither POLLPRI nor POLLRDHUP |
| `LifecycleProofs.CloseSettles` | net/TcpConnection.cpp:458-477 | handleClose in the base loop or in an I/O loop keeps the invariant, with epoll for a channel that has interest, with poll for any |
| `LifecycleProofs.EstablishSettles` | net/TcpConnection.cpp:356-371 | connectEstablished, run from the queue, keeps it |
| `LifecycleProofs.RemoveSettles` | net/TcpServer.cpp:122-136 | removeConnectionInLoop finds exactly its entry and keeps it |
| `LifecycleProofs.DestroySettles` | net/TcpConnection.cpp:373-385 | connectDestroyed meets a disabled registered channel and keeps it |
| `LifecycleProofs.ForceCloseSettles` | net/TcpConnection.cpp:293-301 | a late forceCloseInLoop keeps it |
| `LifecycleProofs.CallbackSettles` | net/Channel.cpp:79-119 | each callback of a dispatched event keeps it |
| `LifecycleProofs.AcceptSettles` | net/TcpServer.cpp:79-114 | newConnection keeps it |
| `LifecycleSteps.AcceptAdds` | net/TcpServer.cpp:79-114 | newConnection adds one connection, numbered next, to the table, established at once or by a functor queued on its loop |
| `LifecycleSteps.DispatchExact` | net/Channel.cpp:79-119 | an event calls exactly its callbacks, each once, in the order close, error, read, write |
| `LifecycleSteps.ClosesIff` | net/TcpConnection.cpp:387-410 | a callback closes an open connection exactly if it is the close callback or a read that returns 0 |
| `LifecycleSteps.UserTakesEffect` | net/TcpConnection.cpp:220-353 | what user code asks of a connected connection, its state and interest show |
| `LifecycleProofs.LivesOnce` | net/TcpServer.cpp:79-136 | over all interleavings of the loops in which, with epoll, no connection is closed while its channel has no interest: no assertion fails; established, closed, removed and destroyed at most once and in this order; one up and at most one down callback; registered exactly between establishing and destroying; in the table exactly until removed; not watched once closed |
| `LifecycleProofs.DrainedIsDestroyed` | net/TcpServer.cpp:116-136 | in the same runs, when the loops have drained their queues every closed connection is out of the table and destroyed |
| `LifecycleLimits.IdleCloseIff` | net/TcpConnection.cpp:458-477 | that hypothesis is exact: after any step from a state without fault, every run that closes no idle connection stays without fault if and only if the step did not close one, or the poller is poll |
| `LifecycleLimits.NoFaultIff` | net/TcpConnection.cpp:340-353 | no run fails an assertion exactly when the poller is poll or reading is never stopped |
| `LifecycleLimits.StoppedThenClosedFaults` | net/poller/EPollPoller.cpp:123-145 | for any number of loops with epoll, the run that does: stopRead, forceClose, then a hang-up before connectDestroyed |
| `LifecycleLimits.UpdateIsEpoll` | net/poller/EPollPoller.cpp:115-164 | the lifecycle's watching under epoll is membership of the kernel set in the epoll table |
| `LifecycleLimits.UpdateIsPoll` | net/poller/PollPoller.cpp:75-114 | and under poll it is a slot that is not ignored |
| `LifecycleProofs.SecondCloseIff` | net/Channel.cpp:79-119 | a whole event on an open connection whose read returns 0 fails handleClose's assertion exactly when its mask breaks the hang-up hypothesis |
| `ConnectionNames.NamesNeverRepeat` | net/TcpServer.cpp:84-87 | for every address text and every int number the suffix fits the 64-byte buffer, and two connections have the same name, the key of connections_, only if they have the same number |
| `ConnectionNames.NamesDifferIff` | net/TcpServer.cpp:84-87 | for address texts of any length, the first n names differ exactly when the n-th number fits |
| `EventLoop.NeverStuckIff` | net/EventLoop.cpp:109-200 | the loop never blocks in poll with functors pending or after quit unless the eventfd is readable or a thread is about to write it: this holds of every run exactly when the loop thread queued nothing before loop() without a wakeup |
| `EventLoop.PushOrder` | net/EventLoop.cpp:288-305 | functors run, rest of the batch and pending functors always concatenate to the push order, and what has run is never taken back |
| `EventLoop.NoFunctorLost` | net/EventLoop.cpp:185-200 | over every run the functors run, in the batch and pending are exactly those handed in by the calls, in that order |
| `EventLoop.QuitsWhenAsked` | net/EventLoop.cpp:119-166 | quit_ is set exactly if a call asked for it, and decides the next test of the loop |
| `EventLoop.EventFdCounts` | net/EventLoop.cpp:268-287 | wakeups add one to the eventfd, the loop's read empties it, nothing else touches it |
| `EventLoop.SwapTakesAll` | net/EventLoop.cpp:290-299 | a pass takes everything pushed before its swap |
| `EventLoop.PassRunsEverything` | net/EventLoop.cpp:119-146 | a pass of the loop that nobody adds to, from one test of quit_ to the next, runs everything pushed before it |
| `LoopThread.LoopObject.QueueInLoop` | net/EventLoop.cpp:185-200 | in place, in the loop thread: pushed at the end, with a wakeup exactly while functors are being called |
| `LoopThread.LoopObject.DoPendingFunctors` | net/EventLoop.cpp:288-305 | in place: every functor pending at the swap runs in order; what they queue stays, in order, each announced by a wakeup |
| `TimeZone.LowerBoundSorted` | base/TimeZone.cpp:234-236 | the binary search returns the first transition not before the key |
| `TimeZone.FindsSegment` | base/TimeZone.cpp:223-255 | the lookup finds the segment that starts at or before the moment and ends after it |
| `TimeZone.LocalFields` | base/TimeZone.cpp:277-297 | toLocalTime shows the clock, the DST flag and the offset of the segment the moment lies in |
| `TimeZone.LocalSegment` | base/TimeZone.cpp:299-320 | the lookup by local clock finds the same segment, or the next one during the repeated hour only |
| `TimeZone.LocalRoundTrip` | base/TimeZone.cpp:270-320 | fromLocalTime(toLocalTime(t)) == t for every t, the repeated hour included, for every zone whose transitions are at least an hour apart and go an hour into or out of DST, each stretch of DST longer than an hour |
| `TimeZone.LocalRoundTripIff` | base/TimeZone.cpp:270-320 | among the zones with transitions at least an hour apart, exactly those without a DST stretch of one hour round-trip every moment |
| `TimeZone.RepeatedHour` | base/TimeZone.cpp:299-320 | the last hour of DST and the hour after it show the same clock, told apart by the DST flag |
| `TimeZone.FixedOffsetRoundTrip` | base/TimeZone.cpp:270-320 | the round trip for fixed-offset zones |
| `TimeZone.OneHourOfDstFails` | base/TimeZone.cpp:299-320 | in every such zone with a DST stretch of exactly one hour, its end comes back an hour early |
| `UtcTime.SplitDays` | base/TimeZone.cpp:322-333 | truncating division and its correction give days and seconds of the day, for negative times too |
| `UtcTime.UtcDateAndClock` | base/TimeZone.cpp:322-340 | the date is the one so many days after the first of the calendar, the clock the seconds of the day |
| `UtcTime.UtcRoundTrip` | base/TimeZone.cpp:322-363 | fromUtcTime(toUtcTime(t)) == t for every second from -4800-03-01 on, and the fields are a valid date and clock |
| `UtcTime.TmRoundTrip` | base/TimeZone.cpp:322-363 | and every valid broken-down time in range survives the other way |
| `UtcTime.YearDayExact` | base/TimeZone.cpp:342-347 | tm_yday is the day of the year exactly for the years after -4800 |
| `UtcTime.YearDayField` | base/TimeZone.cpp:342-346 | the tm_yday of toUtcTime is the day of the year exactly after the year -4800 |
| `UtcTime.WeekDayField` | base/TimeZone.cpp:340-340 | its tm_wday counts from the Thursday of the epoch |
| `UtcTime.GmRoundTrip` | base/TimeZone.cpp:289-306 | gmtime_r and timegm, as used for local time, are inverse on every second |
| `UtcTime.GmTimeIsUtcTime` | base/TimeZone.cpp:322-348 | toUtcTime agrees with gmtime_r on its range |
| `Calendar.DateRoundTrip` | base/Date.cpp:20-42 | date to day number to date, for every valid date from -4800-03-01 |
| `Calendar.NumberRoundTrip` | base/Date.cpp:20-42 | day number to date to day number, from -32044 on, the n-th number being the n-th date of the calendar |
| `Calendar.ConsecutiveDates` | base/Date.cpp:20-27 | consecutive dates under the leap-year rule have consecutive numbers |
| `Calendar.FourHundredYears` | base/Date.cpp:20-27 | 400 years are 146097 days |
| `Calendar.YearMonthDayForm` | base/Date.cpp:29-42 | the inverse formula in terms of the March-based year, for every day of every year |
| `Calendar.WeekDayExact` | base/Date.h:96-99 | weekDay gives consecutive days of the week exactly from day number -1 on |
| `Calendar.NoOverflow` | base/Date.cpp:20-42 | every intermediate value of getYearMonthDay fits 32 bits exactly up to day 536,838,867, and up to there so does every one of getJulianDayNumber, its running sum included |
| `Bytes.IntRoundTrip` | net/Buffer.h:262-390 | every value of every width reads back from its big-endian bytes |
| `Bytes.IntPatterns` | net/Buffer.h:292-363 | every byte pattern is the encoding of the value it reads as |
| `Bytes.MostSignificantFirst` | net/Buffer.h:262-363 | network byte order: the first byte is the most significant |
| `Bytes.SignBit` | net/Buffer.h:292-363 | and its top bit is the sign |
| `Bytes.FindCrlfFirst` | net/Buffer.h:96-112 | the search finds the first line end, and none exactly when there is none |
| `Buffers.Buffer.constructor` | net/Buffer.h:49-57 | empty, with room as asked and the cheap prepend area |
| `Buffers.Buffer.Swap` | net/Buffer.h:63-69 | exchanges contents and room |
| `Buffers.Buffer.Retrieve` | net/Buffer.h:132-146 | drops a prefix of the contents |
| `Buffers.Buffer.RetrieveAsString` | net/Buffer.h:194-201 | returns the prefix and drops it |
| `Buffers.Buffer.MakeSpace` | net/Buffer.h:440-460 | growth and compaction keep the contents; the compaction assertion holds whenever it is reached |
| `Buffers.Buffer.MoveDown` | net/Buffer.h:454-454 | the overlapping copy moves every readable byte |
| `Buffers.Buffer.EnsureWritableBytes` | net/Buffer.h:227-234 | makes room without changing the contents |
| `Buffers.Buffer.Append` | net/Buffer.h:213-219 | concatenation, through growth or compaction |
| `Buffers.Buffer.Prepend` | net/Buffer.h:395-401 | concatenation in front |
| `Buffers.Buffer.Unwrite` | net/Buffer.h:252-256 | drops a suffix |
| `Buffers.Buffer.Shrink` | net/Buffer.h:404-413 | keeps the contents in a fresh array with the room asked for |
| `Buffers.Buffer.ReadFd` | net/Buffer.cpp:22-57 | however the bytes split between the buffer and the stack, they are appended in order; an error changes nothing |
| `Buffers.Buffer.AppendInt` | net/Buffer.h:262-287 | appends the big-endian bytes, for widths 1, 2, 4 and 8 |
| `Buffers.Buffer.PrependInt` | net/Buffer.h:369-393 | prepends them |
| `Buffers.Buffer.ReadInt` | net/Buffer.h:292-322 | reads and drops an integer |
| `Buffers.Buffer.PeekInt` | net/Buffer.h:328-363 | reads an integer without dropping it |
| `Buffers.Buffer.WriteThenRead` | net/Buffer.h:262-322 | an integer of any width written behind whatever the buffer holds is read back once that is taken out |
| `Buffers.Buffer.FindCRLF` | net/Buffer.h:96-103 | the loop computes the first line end of the contents |
| `Buffers.Buffer.FindEOL` | net/Buffer.h:114-118 | the first LF, none exactly when there is none |
| `Adler32.ChecksumValue` | net/protobuf/ProtobufCodecLite.cpp:178-182 | the checksum in closed form from the sums of section 2.2 of RFC 1950 |
| `Adler32.SecondSum` | net/protobuf/ProtobufCodecLite.cpp:178-182 | the second running sum is the length plus each byte weighted by its distance from the end, modulo 65521 |
| `Adler32.FirstSum` | net/protobuf/ProtobufCodecLite.cpp:178-182 | the first running sum is 1 plus the sum of the bytes, modulo 65521 (section 2.2 of RFC 1950) |
| `Adler32.ChecksumNoticesByte` | net/protobuf/ProtobufCodecLite.cpp:179-182 | changing any one byte changes the checksum |
| `FrameCodec.InspectStable` | net/protobuf/ProtobufCodecLite.cpp:58-97 | bytes arriving later do not change what the head of the buffer already allows |
| `FrameCodec.ChunkingInvariant` | net/protobuf/ProtobufCodecLite.cpp:58-97 | for every chunking: same messages, same first error, same remainder as one call on the whole stream |
| `FrameCodec.RoundTripIff` | net/protobuf/ProtobufCodecLite.cpp:42-97 | a frame from fillEmptyBuffer is delivered exactly when tag, body and checksum fit 67,108,864 bytes; otherwise it is refused and nothing is consumed |
| `FrameVerdicts.DeliverIff` | net/protobuf/ProtobufCodecLite.cpp:58-97 | a message is delivered exactly if the buffer starts with the frame of a body that parses to it |
| `FrameVerdicts.OtherTagRefused` | net/protobuf/ProtobufCodecLite.cpp:192-225 | a good frame with another tag of the same length is refused as of unknown type, nothing consumed |
| `FrameVerdicts.UnparsableRefused` | net/protobuf/ProtobufCodecLite.cpp:192-225 | a good frame whose body does not parse is refused, nothing consumed |
| `FrameVerdicts.TurnedDownIsSkipped` | net/protobuf/ProtobufCodecLite.cpp:72-77 | a frame the raw callback turns down is skipped and the stream goes on behind it |
| `FrameVerdicts.LengthDecides` | net/protobuf/ProtobufCodecLite.cpp:62-70 | exactly which lengths are refused and for which bytes the codec waits |
| `FrameCodec.FramesComeBack` | net/protobuf/ProtobufCodecLite.cpp:42-97 | the frames of any list of such messages come back complete and in order |
| `FrameCodec.OneByteInvalidates` | net/protobuf/ProtobufCodecLite.cpp:184-190 | a valid frame with one byte changed, in the data or the checksum itself, is never valid |
| `FrameCodec.CorruptFrameRefused` | net/protobuf/ProtobufCodecLite.cpp:184-225 | a frame with one byte changed after its length is refused for its checksum, and nothing is consumed |
| `ProtobufCodecLite.FillEmptyBuffer` | net/protobuf/ProtobufCodecLite.cpp:42-56 | in place on the buffer: exactly the frame |
| `ProtobufCodecLite.InspectBuffer` | net/protobuf/ProtobufCodecLite.cpp:192-225 | in place: the decision for the head of the buffer |
| `ProtobufCodecLite.OnMessage` | net/protobuf/ProtobufCodecLite.cpp:58-97 | in place: the loop delivers and consumes exactly what the specification says |
| `HttpParser.TerminatesIff` | net/http/HttpContext.cpp:59-129 | a call ends exactly when entered expecting a request line or headers |
| `HttpParser.ExpectingTerminates` | net/http/HttpContext.cpp:59-129 | it then ends within one round per byte, and the recursive specification is its result |
| `HttpParser.ChunkingInvariant` | net/http/HttpContext.cpp:59-129 | for every chunking: same request, state, verdict and unread bytes as one call on the whole input |
| `HttpServer.ServerStaysReady` | net/http/HttpServer.cpp:64-86 | after each accepted message the parser is ready for the next |
| `HttpServer.DeliversPrefix` | net/http/HttpServer.cpp:64-86 | for every chunking the requests delivered are a prefix, in order, of those in the stream |
| `HttpServer.DeliversAllIff` | net/http/HttpServer.cpp:64-86 | everything received is delivered at every point exactly if no chunk completes more than one request |
| `HttpLines.StopsAtColonless` | net/http/HttpContext.cpp:98-118 | the header state takes the lines up to the first one without a colon and leaves what follows that line unread |
| `HttpLines.EndsAtEmptyLineIff` | net/http/HttpContext.cpp:98-118 | header lines followed by the empty line leave exactly what follows unread if and only if every line has a colon |
| `HttpLines.ColonlessLineEndsRequest` | net/http/HttpContext.cpp:98-118 | a request that is complete at a line without a colon, its header unread |
| `HttpPrinter.LineRoundTrip` | net/http/HttpContext.cpp:8-56 | a printed request line gives back verb, path, query and version |
| `HttpRequestLines.AcceptedIff` | net/http/HttpContext.cpp:8-56 | a request line is accepted exactly if it is a verb, a target without spaces and a version, with one space between them |
| `HttpRequestLines.LineKept` | net/http/HttpContext.cpp:8-56 | the verb, target and version of such a line are what the request keeps |
| `HttpRequestLines.TargetSplit` | net/http/HttpContext.cpp:25-38 | the target is split at its first question mark, which begins the query |
| `HttpRequestLines.RefusalConsumesNothing` | net/http/HttpContext.cpp:66-97 | a refused request line stays in the buffer |
| `HttpPrinter.PrintThenParse` | net/http/HttpContext.cpp:8-129 | a printed well-formed request (sections 3.1.1 and 3.2 of RFC 7230), followed by anything, gives back verb, path, query, version and trimmed headers, and leaves what follows unread |
| `HttpPrinter.TrimExact` | net/http/HttpRequest.h:159-175 | trimming removes the spaces around a value and nothing else |
| `HttpPrinter.VerbRoundTrip` | net/http/HttpRequest.h:55-123 | setMethod undoes methodString for every method |
| `HttpContexts.HttpRequest.SetMethod` | net/http/HttpRequest.h:55-91 | in place: the verb of the name, and whether it is one |
| `HttpContexts.HttpRequest.TrimValue` | net/http/HttpRequest.h:159-175 | the two trimming loops compute the trimmed value |
| `HttpContexts.HttpRequest.AddHeader` | net/http/HttpRequest.h:159-175 | in place: the field is set to the trimmed value |
| `HttpContexts.HttpRequest.GetHeader` | net/http/HttpRequest.h:178-187 | the value of the field, empty if absent |
| `HttpContexts.HttpContext.ProcessRequestLine` | net/http/HttpContext.cpp:8-56 | in place: fields as far as they were good, and the verdict |
| `HttpContexts.HttpContext.ProcessHeaderLine` | net/http/HttpContext.cpp:104-116 | in place: a field, or the end of the request |
| `HttpContexts.HttpContext.ParseLine` | net/http/HttpContext.cpp:63-127 | in place: one round of the loop on the buffer |
| `HttpContexts.HttpContext.ParseRequest` | net/http/HttpContext.cpp:59-129 | in place: the loop's final state, verdict and unread bytes are the specification's |
| `PollerTables.PollUpdateOk` | net/poller/PollPoller.cpp:75-114 | an update keeps slots and channels in bijection, and the slot is an ignored one exactly for a known channel without interest |
| `PollerTables.PollUpdateInterest` | net/poller/PollPoller.cpp:75-114 | it changes the watched map at that descriptor only, to the asked mask |
| `PollerTables.PollRemoveSlots` | net/poller/PollPoller.cpp:117-154 | after swap-removal every other channel still points at the slot it had |
| `PollerTables.PollRemoveOk` | net/poller/PollPoller.cpp:117-154 | swap-removal keeps the bijection |
| `PollerTables.PollRemoveInterest` | net/poller/PollPoller.cpp:117-154 | and the watched map |
| `PollerTables.EpollUpdateOk` | net/poller/EPollPoller.cpp:115-164 | every operation issued is one the kernel accepts, the kernel set stays exactly the channels marked added, and the watched map changes as asked |
| `PollerTables.EpollRemoveOk` | net/poller/EPollPoller.cpp:167-190 | the same of a removal |
| `PollerTables.PollersAgree` | net/poller/PollPoller.cpp:75-154 | over every allowed sequence of updates and removals both pollers ask for events of exactly the same descriptors, with the same masks |
| `PollerTables.KernelExactIff` | net/poller/EPollPoller.cpp:115-190 | throughout such a sequence the epoll set holds exactly those descriptors, none with an empty mask, if and only if no channel without events is disabled again |
| `PollerTables.FirstUpdateEmpty` | net/poller/PollPoller.cpp:80-92 | a first update without events leaves a slot that removeChannel's assertion refuses |
| `Pollers.PollPoller.UpdateChannel` | net/poller/PollPoller.cpp:75-114 | in place: the table's update, bijection kept |
| `Pollers.PollPoller.MoveLast` | net/poller/PollPoller.cpp:141-153 | in place: the last slot takes the freed place and its channel is redirected |
| `Pollers.PollPoller.RemoveChannel` | net/poller/PollPoller.cpp:117-154 | in place: the table's removal, bijection kept |
| `Pollers.PollPoller.FillActiveChannels` | net/poller/PollPoller.cpp:51-72 | the active list is the channels of the slots with events, in slot order; each gets its events and no other channel changes |
| `Pollers.EPollPoller.UpdateChannel` | net/poller/EPollPoller.cpp:115-164 | in place: the table's update; no operation is refused by the kernel |
| `Pollers.EPollPoller.RemoveChannel` | net/poller/EPollPoller.cpp:167-190 | in place: the table's removal |
| `BlockingQueue.ApplyKeeps` | base/BoundedBlockingQueue.h:32-75 | every stretch under the mutex, and every wakeup for no reason, keeps the invariant |
| `BlockingQueue.QueueCorrect` | base/BoundedBlockingQueue.h:32-75 | over every run: bounded; items leave in insertion order, each once; a sleeping consumer implies no more items than woken consumers, a sleeping producer no more free places than woken producers |
| `BlockingQueue.ItemsAreThoseGiven` | base/BoundedBlockingQueue.h:32-75 | over every run the items taken and queued are the very items given to the puts that found room, in that order |
| `BlockingQueue.NeverStuckIff` | base/BoundedBlockingQueue.h:32-75 | no run reaches a state where everyone waiting sleeps with both a producer and a consumer among them, exactly when the capacity is at least 1 |
| `BlockingQueue.BoundedBlockingQueue.PutSection` | base/BoundedBlockingQueue.h:32-44 | in place: waits exactly when full, else appends; the machine's step |
| `BlockingQueue.BoundedBlockingQueue.TakeSection` | base/BoundedBlockingQueue.h:60-75 | in place: waits exactly when empty, else returns the oldest item; the machine's step |
| `ThreadPool.ApplyKeeps` | base/ThreadPool.cpp:58-158 | every step of submitters and workers keeps the invariant |
| `ThreadPool.OnePlace` | base/ThreadPool.cpp:80-158 | over every run every submitted task is in exactly one of the queue, one worker's hands, or finished |
| `ThreadPool.PoolCorrect` | base/ThreadPool.cpp:80-136 | over every run: tasks are taken in submission order; a positive maximum is respected; tasks with sleeping workers, or free places with blocked submitters, imply a woken one; none sleeps on notEmpty_ after stop |
| `ThreadPool.TasksAreThoseGiven` | base/ThreadPool.cpp:80-106 | over every run the tasks pushed, and those run by their callers for want of workers, are the very ones given to run(), in that order |
| `ThreadPool.NoneLeavesEarly` | base/ThreadPool.cpp:148-158 | no worker leaves its loop while the pool is running |
| `ThreadPool.AtMostOneMore` | base/ThreadPool.cpp:108-158 | once running_ is false each worker takes at most one more task, over every run |
| `ThreadPool.StopDrains` | base/ThreadPool.cpp:58-72 | after stop each step of a worker brings it nearer its exit, and no step takes it away |
| `ThreadPool.NoneStays` | base/ThreadPool.cpp:139-158 | after stop a worker that has not exited always has a step to make, so the joins of stop can end |
| `ThreadPool.ExitedForGood` | base/ThreadPool.cpp:108-130 | once all workers have exited nothing more is taken and nobody notifies a blocked submitter |
| `ThreadPool.StrandedIff` | base/ThreadPool.cpp:58-106 | no run ends with the pool stopped, every worker exited and a submitter still blocked, exactly when the maximum is 0 or there are no workers |
| `ThreadPool.Strand` | base/ThreadPool.cpp:58-106 | the stranding run, for every positive maximum and every set of workers |
| `ThreadPool.Pool.RunSection` | base/ThreadPool.cpp:96-105 | in place: waits exactly when full, else appends; the machine's step |
| `ThreadPool.Pool.TakeSection` | base/ThreadPool.cpp:108-130 | in place: waits exactly when empty and running, else the oldest task or none; the machine's step |
| `ThreadPool.Pool.StopSection` | base/ThreadPool.cpp:60-67 | in place: not running, and no worker asleep |
| `Rpc.Verdict` | net/protorpc/RpcChannel.cpp:119-160 | which error a request is refused with, and that WRONG_PROTO is never one |
| `Rpc.ActKeeps` | net/protorpc/RpcChannel.cpp:50-183 | every step of either end keeps both directions' invariants |
| `Rpc.RpcMatched` | net/protorpc/RpcChannel.cpp:50-183 | over every run of two ends: an id is outstanding exactly while it is about to be sent, in flight, being served or being answered; each closure runs at most once, on the peer's answer to that call's own query; a finished call has run its closure exactly if it came with a response object and a closure |
| `RpcOrigins.ClosuresRunOnAnswers` | net/protorpc/RpcChannel.cpp:50-183 | over every run a closure belongs to a call made at its end, and the reply it is run on is the payload with which a service of the other end completed that id, or the error that end refused it with |
| `RpcOrigins.QueriesAreCalls` | net/protorpc/RpcChannel.cpp:50-183 | what services are given and what is answered under an id is the query of the call with that number |
| `Rpc.NothingForgotten` | net/protorpc/RpcChannel.cpp:50-183 | when nothing is under way every call has ended and every closure that can run has run |
| `Rpc.SendPuts` | net/protorpc/RpcChannel.cpp:69-69 | a call that is sent goes on the wire with its own id and query |
| `RpcChannels.RpcChannel.CallMethod` | net/protorpc/RpcChannel.cpp:50-70 | in place: a new id, the record entered before the request is sent |
| `RpcChannels.RpcChannel.OnRpcMessage` | net/protorpc/RpcChannel.cpp:79-173 | in place: the machine's receipt; which record is erased, when the closure is run and on what, what a service is given, and the id and error sent back |
| `RpcChannels.RpcChannel.DoneCallback` | net/protorpc/RpcChannel.cpp:175-183 | in place: the answer carries the id of its request and the service's own result |

## Left out

- Sockets, acceptor, addresses, `/proc` inspection, logging, latches and the other small wrappers: only easy members.
- Protobuf serialization, zlib and gzip: foreign libraries; the codec takes a parser as a parameter, and Adler-32 is defined from RFC 1950.
- The raw callback of the codec is a predicate of the frame; one that changes the connection or the buffer is not modelled.
- Time zone files and the exceptions of reading them: the model starts from a loaded transition table.
- Floating point: `addTime` on seconds becomes integer microseconds.
- Integer widths: integers are unbounded except in the buffer's integers, the frame length and checksum, and `Calendar.NoOverflow`; RPC ids and timer sequence numbers do not wrap.
- `~TcpServer` with live connections, `startRead` and `stopRead` after close, and a `forceClose` in another thread that races with its own test of the state: outside the lifecycle runs. `send` and `shutdown` from other threads are in the stream machine and not in the lifecycle.
- The input side of a connection beyond its effect on the lifecycle: reading is `Buffers.Buffer.ReadFd` and the parsers.
- The write-complete and high-water callbacks are taken to be set; without them nothing is queued.
- `outputBuffer_` in the stream machine is its bytes; that the buffer object stands for them is proved in `Buffer`.
- The body state of the HTTP parser, which the source does not implement, a parser used again after it failed, and the receive time.
- The responses of the HTTP server and its closing of connections after one; a refused input ends the model's run.
- `EPollPoller::fillActiveChannels` and the growth of its event array.
- RPC messages of type ERROR, which the source ignores, and what happens to outstanding calls when a channel is destroyed.
- The connection server, the event loop as seen by other threads, the blocking queue, the pool and the RPC pair are machines on values; their classes cover one thread's stretch under the lock or one message at a time, and carry the machine's state as a ghost field, so aliasing between threads is not captured.
- `ThreadPool::start` and the exceptions of tasks: the runs begin when all workers exist, and a task returns normally.
