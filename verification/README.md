# flute, modelled and verified in Dafny

flute is a multi-reactor TCP library in C++. This project models the nine parts of it whose
correctness spans several functions or whole runs, and proves what they promise. System calls
(`timerfd_settime`, `eventfd`, `poll`, `epoll_ctl`, `write`, `sendfile`, `readv`), clocks, the
allocator and the choices of other threads are parameters or nondeterministic steps.

`dafny verify dfyconfig.toml` checks the whole project.

| files | part |
|---|---|
| `TimerQueue.dfy`, `TimerQueueImpl.dfy` | timer queue: steps, invariant and runs; the methods |
| `Reactor.dfy` | task hand-off between threads and the event loop |
| `Pollers.dfy`, `PollersImpl.dfy` | the poll and epoll pollers; their classes over channel objects |
| `ZeroCopier.dfy`, `TcpConnection.dfy`, `TcpConnectionImpl.dfy` | the sending machine of a connection and its file transfer |
| `Calendar.dfy`, `Timezone.dfy` | Julian days, UTC and local time |
| `Bytes.dfy`, `Buffer.dfy` | network-order integers and the growable buffer |
| `Http.dfy`, `HttpPrint.dfy`, `HttpImpl.dfy` | request parser, response printer, their classes |
| `Options.dfy`, `BlockingDeque.dfy` | an optional value; the bounded blocking deque |
| `AsyncLogging.dfy`, `AsyncLoggingImpl.dfy` | the asynchronous logger |

A stateful part is given twice: as a value with step functions, over which invariants and
whole-run theorems are stated, and as a class whose methods follow the C++ code and are proved to
perform those steps.

## Where the code does less than one might expect

- `tm_wday` is negative before Julian day -1, and `tm_yday` is off by one in year -4800
  (`Calendar.WeekDayCycles`, `Calendar.YearDayCounts`).
- The local-time round trip works only for set-backs of one hour from DST to non-DST
  (`Timezone.LocalRoundTrip`).
- `add_timer` reads the id through its pointer after it has handed the timer over. On another thread,
  from which the comment at flute/net/TimerQueue.h:31 expects it to be called, the timer may have
  fired and been deleted by then, or its address may belong to another timer
  (`TimerQueue.AddTimerIsSafe`, `TimerQueue.DanglingRead`, `TimerQueue.ReadOfAnotherTimer`).
- A task queued on the reactor thread before `loop()` does not wake it (`Reactor.NoLostWakeup`), and
  a request to quit made before `loop()` clears its flag is forgotten (`Reactor.QuitStopsLoop`).
- A registered channel that gets two empty updates in a row, as `stop_read` followed by
  `handle_close` gives it, is back in the epoll set with an empty mask, while poll(2) ignores it
  (`Pollers.AgreeThroughout`, `Pollers.StopReadThenClose`). A channel registered without interest
  and removed without another update fails an assertion of PollPoller (`Pollers.RemovalAssertion`),
  and PollPoller does not reset the index of a removed channel, so such a channel must not be used
  again.
- A second file given to a connection replaces one that is still being sent
  (`TcpConnection.SecondFileReplacesFirst`). Data sent while a file is attached overtakes it, or
  wedges the connection once the file is under way; data sent after a file was given up goes out in
  place of its lost tail (`TcpConnection.SendOvertakesFile`, `TcpConnection.SendDuringFileWedges`,
  `TcpConnection.DataReplacesLostFile`). The comment at flute/net/TcpConnection.cc:180-181 asks callers
  not to.
- A failing `munmap` counts as a failed attempt although bytes were sent, and a `sendfile` that
  answers zero resets the failure counter for ever (`ZeroCopier.ZeroBytesForever`); in mmap mode
  every transfer ends.
- `parse_request` returns true only on the call that accepts the request line; a header line
  without a colon ends the headers, empty or not. A rejected line with a recognised method trips
  the assertion in `set_method` on the next call (`Http.AssertionAfterCall`).
- The request line is checked less strictly than section 3.1.1 of RFC 7230 asks: its target may be
  empty and may hold any byte but a space (`Http.EmptyTargetIsAccepted`).
- A Content-Length of 10^13 or more is cut short and swallows the Connection header
  (`HttpPrint.TooLong`).
- A deque of capacity zero deadlocks (`BlockingDeque.DeadlockFreedom`).
- The logger keeps the two oldest buffers of a batch and drops the newest, so a burst loses its
  last lines, though the announcement counts buffers (`AsyncLogging.ThirdBufferIsLost`). Lines still
  in memory when the backend stops are not written.

## Model

| member | source | states |
|---|---|---|
| `Calendar.NextDayHasNextNumber` | flute/common/Date.cc:14-20 | the next calendar day, by an independent leap-year definition, has the next Julian day number, for every date from 1 March 4801 BC on |
| `Calendar.NumbersAscend` | flute/common/Date.cc:14-20 | a later date has a larger number |
| `Calendar.NumberToDateToNumber` | flute/common/Date.cc:22-34 | get_year_month_day gives a valid Gregorian date whose number is the one it was given, for every number from -32044 on |
| `Calendar.DateToNumberToDate` | flute/common/Date.cc:14-34 | get_year_month_day undoes get_julian_day_number on every valid date |
| `Calendar.NoOverflow` | flute/common/Date.cc:22-34 | every intermediate value fits 32 bits if and only if the number is at most 536838867 |
| `Calendar.NoOverflowBack` | flute/common/Date.cc:14-20 | no partial sum of get_julian_day_number overflows for a date numbered up to 536838867 |
| `Calendar.UtcSplitIsFloor` | flute/common/Timezone.cc:260-271 | splitting a time into day and second of day rounds toward minus infinity, before 1970 too |
| `Calendar.ClockOf` | flute/common/Timezone.cc:59-64 | hour, minute and second are in range and add up to the second of the day |
| `Calendar.DateOf` | flute/common/Timezone.cc:271-277 | year, month and day are the valid date of the Julian day of the time |
| `Calendar.UtcRoundTrip` | flute/common/Timezone.cc:260-296 | from_utc_time(to_utc_time(t)) = t for every time in range, negative ones included |
| `Calendar.UtcRoundTripBack` | flute/common/Timezone.cc:260-296 | to_utc_time(from_utc_time(tm)) gives back every valid date and clock reading |
| `Calendar.UtcAscends` | flute/common/Timezone.cc:260-283 | a later time has lexicographically later fields |
| `Calendar.YearDayCounts` | flute/common/Timezone.cc:278-281 | tm_yday is the number of days since 1 January, counted month by month, if and only if the year is after -4800; it is 0 when not asked for |
| `Calendar.WeekDayCycles` | flute/common/Date.h:70 | tm_wday lies in 0..6 exactly from Julian day -1 on (or where the remainder vanishes), and then advances by one modulo 7 each day |
| `Calendar.Epoch` | flute/common/Timezone.cc:260-283 | time 0 is Thursday, 1 January 1970, 00:00:00, and the Julian day of that date is 2440588 |
| `Timezone.LowerBoundCuts` | flute/common/Timezone.cc:179-202 | in an ascending table everything before the index found is smaller than the key and nothing from it on is |
| `Timezone.FindsLastTransition` | flute/common/Timezone.cc:179-202 | find_local_time gives the type of the last transition not after the key, or the first type before all of them, for keys in GMT and in local time |
| `Timezone.LocalReading` | flute/common/Timezone.cc:219-238 | the local reading of a time is the UTC reading of the time plus the offset of the last transition up to it, with the flag of its type |
| `Timezone.RoundTripPlain` | flute/common/Timezone.cc:219-258 | outside a repeated stretch from_local_time undoes to_local_time |
| `Timezone.RoundTripRepeated` | flute/common/Timezone.cc:240-258 | in the first pass of a repeated stretch the round trip succeeds if and only if the clock goes back one hour from DST to non-DST |
| `Timezone.RoundTripFails` | flute/common/Timezone.cc:240-258 | one second before any other set-back the round trip fails |
| `Timezone.LocalRoundTrip` | flute/common/Timezone.cc:219-258 | from_local_time(to_local_time(t)) = t at every time, for a table with transitions spaced wider than its offsets, if and only if every set-back is one hour from DST to non-DST |
| `Timezone.AnyReading` | flute/common/Timezone.cc:240-258 | what from_local_time makes of any reading: the instant by the last transition up to it in local time, one hour earlier if and only if the reading claims DST, the type in force at that instant does not, and the clock shows the same hour and minute then |
| `TimerQueue.HowLongFromNow` | flute/net/TimerQueue.cc:27-39 | seconds and nanoseconds add up to the time left, or to 100 microseconds when less is left, with nanoseconds normalised |
| `TimerQueue.NewKeepsInv` | flute/net/TimerQueue.cc:93-95 | creating a timer, at a reused address too, and handing it over keeps the invariant |
| `TimerQueue.AddKeepsInv` | flute/net/TimerQueue.cc:104-111 | inserting keeps both indexes in step and the timerfd armed in time |
| `TimerQueue.CancelKeepsInv` | flute/net/TimerQueue.cc:113-128 | cancelling keeps the invariant, inside a batch too |
| `TimerQueue.BeginBatchKeepsInv` | flute/net/TimerQueue.cc:149-168 | taking out the expired timers keeps the invariant |
| `TimerQueue.EndBatchKeepsInv` | flute/net/TimerQueue.cc:170-192 | re-arming or deleting the batch keeps the invariant and re-arms the timerfd |
| `TimerQueue.RunKeepsInv` | flute/net/TimerQueue.cc:104-218 | in every reachable state: both sets index the same timers, each object is in exactly one place, ids are unique, the timerfd is set in time |
| `TimerQueue.EveryTimerHasOnePlace` | flute/net/TimerQueue.cc:104-218 | a live timer is in m_timers_set under its expiration exactly when it is in m_active_timers_set under its id, and it is handed over, queued or in the batch, never two of these |
| `TimerQueue.NoTimerIsForgotten` | flute/net/TimerQueue.cc:104-111 | outside a batch, for every queued timer the timerfd is armed no later than its expiration, or than 100 microseconds after arming |
| `TimerQueue.EveryAccessIsLive` | flute/net/TimerQueue.cc:94-192 | no step follows or deletes a pointer to an object that is not live, the read that ends add_timer on another thread excepted; the entry whose expiration reset reads after its deletions is live |
| `TimerQueue.ReadIsLiveIffSpared` | flute/net/TimerQueue.cc:91-97 | the read of global_id() that ends add_timer finds its own timer if and only if no step since its creation has deleted it |
| `TimerQueue.AddTimerIsSafe` | flute/net/TimerQueue.cc:91-97 | that read finds its own live timer in every run if and only if add_timer is called on the reactor thread |
| `TimerQueue.DanglingRead` | flute/net/TimerQueue.cc:94-96 | a run in which another thread hands its timer over, the reactor inserts, calls back and deletes it, and the thread then reads through its pointer |
| `TimerQueue.ReadOfAnotherTimer` | flute/net/TimerQueue.cc:94-96 | a run in which the address has been given out again by then, so that add_timer returns the id of another timer |
| `TimerQueue.NeverDeletedTwice` | flute/net/TimerQueue.cc:113-183 | no timer is deleted by two steps of a run |
| `TimerQueue.CancelledNeverFiresAgain` | flute/net/TimerQueue.cc:113-147 | after cancel_in_reactor has handled the id of an inserted timer, the timer can fire only in a batch that was already being called back then |
| `TimerQueue.CancelTouchesOnlyItsTimer` | flute/net/TimerQueue.cc:116-126 | a cancel leaves every timer with another id as it was, also one that lives at the address of a stale id |
| `TimerQueue.SizesAgree` | flute/net/TimerQueue.cc:115-127 | in every reachable state the two set sizes that the code asserts equal are equal |
| `TimerQueue.BatchIsDetermined` | flute/net/TimerQueue.cc:149-168 | the timers due by now, in order of expiration and address, form one batch only |
| `TimerQueue.IdsAreCounted` | flute/net/Timer.h:15-20 | the last id given out is the number of timers created |
| `TimerQueue.TermsAreKept` | flute/net/Timer.h:15-20 | a live timer has the interval and the repetition it was created with, and until it is first queued also the expiration |
| `TimerQueue.FirstEntryIsAsAsked` | flute/net/TimerQueue.cc:104-111 | a timer is first queued at the time it was created for |
| `TimerQueue.BatchEndsAsAsked` | flute/net/TimerQueue.cc:131-183 | in every run, at the end of a batch that held it, a timer created to repeat and not cancelled during that batch is queued at the time of the batch plus the interval it was created with; any other is gone |
| `TimerQueue.EveryBatchedTimerIsCalled` | flute/net/TimerQueue.cc:141-143 | every timer of a batch is called back before the batch ends, in the order of the batch |
| `TimerQueue.ArmedForEarliest` | flute/net/TimerQueue.cc:52-64 | an insertion that comes first, and the end of a batch, set the timerfd for exactly the expiration of the earliest timer, or 100 microseconds ahead if that is later |
| `TimerQueueImpl.Queue.AddTimer` | flute/net/TimerQueue.cc:91-97 | on the reactor thread: performs New, Add and ReadId one after the other; the timer has the time, interval and repetition asked for and is queued at that time, and the id, read through the pointer at the end, is its own |
| `TimerQueueImpl.Queue.HandOver` | flute/net/TimerQueue.cc:93-95 | on another thread: performs the New step, creating a timer with the time, interval and repetition asked for, with the read of the id still to come |
| `TimerQueueImpl.Queue.ReadBack` | flute/net/TimerQueue.cc:96 | on another thread: performs the ReadId step, which gives the id handed over exactly when that timer is still there |
| `TimerQueueImpl.Queue.Insert` | flute/net/TimerQueue.cc:194-218 | adds the timer to both sets and tells whether it is now strictly the earliest |
| `TimerQueueImpl.Queue.AddTimerInReactor` | flute/net/TimerQueue.cc:104-111 | performs the Add step |
| `TimerQueueImpl.Queue.CancelInReactor` | flute/net/TimerQueue.cc:113-128 | performs the Cancel step; the erased entry is present |
| `TimerQueueImpl.Queue.RetrieveExpiredTimers` | flute/net/TimerQueue.cc:149-168 | returns the timers with expiration at most now, in order, and leaves exactly the others in both sets |
| `TimerQueueImpl.Queue.RestartOrDelete` | flute/net/Timer.cc:10-20 | a repeating timer that was not cancelled is queued again at now plus its interval, any other is deleted |
| `TimerQueueImpl.Queue.Reset` | flute/net/TimerQueue.cc:170-192 | performs the EndBatch step, whatever the callbacks did in between |
| `TimerQueueImpl.Queue.HandleTimerfdRead` | flute/net/TimerQueue.cc:131-147 | the whole handler, with any additions and cancellations by callbacks, is a run of steps from BeginBatch to EndBatch that keeps the invariant |
| `Reactor.DoKeepsInv` | flute/net/Reactor.cc:90-152 | every step of any thread keeps conservation of tasks and the wake-up invariant |
| `Reactor.TasksAreConserved` | flute/net/Reactor.cc:144-152 | in every interleaving, executed tasks, the rest of the batch and pending tasks are those pending at the start and then the tasks of all queue_in_reactor calls, in order |
| `Reactor.NoLostWakeup` | flute/net/Reactor.cc:98-114 | the loop never blocks with tasks pending and no wake-up written or about to be, in any run, if and only if it is not entered with work pending, the eventfd at zero and no producer between its push and its write |
| `Reactor.SleepMeansDone` | flute/net/Reactor.cc:98-114 | entered as above, when the loop blocks and nobody has announced anything, every task pending at the start or queued since has been executed and nobody asked to quit |
| `Reactor.QuitStopsLoop` | flute/net/Reactor.cc:94-98 | a turn of the loop is its last if and only if a request to quit came after loop() cleared the flag |
| `Reactor.EventLoop.QueueInReactor` | flute/net/Reactor.cc:144-152 | on the reactor thread: the task is pushed, and a wake-up follows exactly when tasks are being called |
| `Reactor.EventLoop.InterfereFromOutside` | flute/net/Reactor.cc:144-152 | on another thread: a push appends its task to the pending ones, and each step is recorded exactly when it can be taken |
| `Reactor.EventLoop.HandleWakeup` | flute/net/Reactor.cc:214-220 | reads the eventfd back to zero as one step of the run |
| `Reactor.EventLoop.SwapOutTasks` | flute/net/Reactor.cc:222-230 | takes all pending tasks as the batch as one step of the run |
| `Reactor.EventLoop.DoQueueingTasks` | flute/net/Reactor.cc:222-235 | executes exactly the tasks pending at the swap, in order, those pending at the start first, while other threads queue, quit and wake before and after the swap and the tasks queue and quit themselves |
| `Pollers.PollUpdateRefines` | flute/net/poller/PollPoller.cc:52-82 | any update, with or without interest, keeps the back-indices right and changes the entry of one channel as its phase in the registry says |
| `Pollers.PollRemoveRefines` | flute/net/poller/PollPoller.cc:84-109 | swap-remove keeps every other back-index right and every other entry unchanged |
| `Pollers.PollHoldsPhase` | flute/net/poller/PollPoller.cc:52-82 | poll(2) has the channels with interest, and with an empty mask those just registered without any; all others are negated |
| `Pollers.EPollStepRefines` | flute/net/poller/EPollPoller.cc:80-133 | ADD is issued only for absent descriptors, MOD and DEL only for present ones, and index and kernel set follow the registry |
| `Pollers.EPollHoldsPhase` | flute/net/poller/EPollPoller.cc:80-133 | the kernel set has every registered channel that is not idle, with an empty mask those registered or silenced again without interest |
| `Pollers.PollersWatchTheSame` | flute/net/poller/PollPoller.cc:52-109 | after any sequence of operations both pollers watch a descriptor for given events if and only if the last operation on it asked for them |
| `Pollers.AgreeIffNoneLingers` | flute/net/poller/EPollPoller.cc:86-99 | the two kernels have the same descriptors with the same masks, empty ones included, if and only if no channel was silenced while already idle |
| `Pollers.AgreeThroughout` | flute/net/poller/EPollPoller.cc:86-113 | they agree throughout a run if and only if no registered channel gets two empty updates in a row |
| `Pollers.StopReadThenClose` | flute/net/TcpConnection.cc:293-299 | reading stopped and then the connection closed is a run after which epoll has the descriptor and poll(2) ignores it |
| `Pollers.RemovalAssertion` | flute/net/poller/PollPoller.cc:87-94 | when a registered channel without interest is to be removed, the assertion about its entry holds if and only if the channel was updated after the update that registered it |
| `Pollers.NothingIsRefused` | flute/net/poller/EPollPoller.cc:80-133 | in any such run no assertion of PollPoller fails and no epoll_ctl call is refused |
| `PollersImpl.PollPoller.UpdateChannel` | flute/net/poller/PollPoller.cc:52-82 | the vector and the channel indices follow the registry through the update |
| `PollersImpl.PollPoller.StoreEntry` | flute/net/poller/PollPoller.cc:52-82 | the vector and the channel indices become those of the update step |
| `PollersImpl.PollPoller.RemoveChannel` | flute/net/poller/PollPoller.cc:84-109 | the vector and the channel indices follow the registry through the removal, and the removed channel keeps its stale index |
| `PollersImpl.PollPoller.RegisterActiveChannels` | flute/net/poller/PollPoller.cc:35-50 | a channel is in the list if and only if its own entry has events, which it is told, and the list is in vector order, although the loop stops once all reported events are found |
| `PollersImpl.EPollPoller.UpdateChannel` | flute/net/poller/EPollPoller.cc:80-114 | channel index and kernel set follow the registry through the update, every epoll_ctl call being one the kernel accepts |
| `PollersImpl.EPollPoller.RemoveChannel` | flute/net/poller/EPollPoller.cc:116-133 | the channel leaves map and kernel set and its index is reset |
| `PollersImpl.ChangedBits` | flute/net/Channel.h:52-73 | each change turns its own interest on or off and leaves the other alone |
| `PollersImpl.PollPoller.ChangeInterest` | flute/net/Channel.h:52-71 | a change of interest reaches the poller at once: poll(2) has the channel with its new interest and no other mask |
| `PollersImpl.EPollPoller.ChangeInterest` | flute/net/Channel.h:52-71 | a change of interest reaches the poller at once: the kernel set has the channel with its new interest, if any |
| `TcpConnection.DoKeepsInv` | flute/net/TcpConnection.cc:112-205 | every operation keeps sending state, write interest and byte conservation right, and shuts down only with nothing left to send |
| `TcpConnection.AcceptedIsTold` | flute/net/TcpConnection.cc:73-86 | in every run the accepted bytes are the data of every send before the first shutdown or close and the unsent bytes of every file, in order, and the connection state follows from the operations |
| `TcpConnection.BytesAreConserved` | flute/net/TcpConnection.cc:358-425 | in every run the bytes the operations handed over are kept and lost stretches in turn, one lost stretch per file given up, being the unsent tail of that file; wire, output buffer and unsent file tail are the kept stretches in order, and everything handed over as long as no file was given up |
| `TcpConnection.WritableSends` | flute/net/TcpConnection.cc:358-376 | a writable event puts on the wire what write(2) takes of the buffer and, once that is empty, what the kernel takes of the file, and nothing else |
| `TcpConnection.LossPerAbort` | flute/net/TcpConnection.cc:369-376 | a writable event that is the last failed attempt of the attached file adds the unsent tail of that file to the losses, and nothing else does |
| `TcpConnection.WireIsPrefix` | flute/net/TcpConnection.cc:358-425 | in every run the wire is a prefix of what was accepted if and only if it does not reach past the first loss or goes on as the lost bytes do |
| `TcpConnection.PrefixUntilAcceptedAgain` | flute/net/TcpConnection.cc:358-425 | as long as nothing is accepted after bytes were lost, however many files are given up, the wire is a prefix of what was accepted |
| `TcpConnection.InterestIsExact` | flute/net/TcpConnection.cc:358-412 | while not disconnected, write interest is on exactly when the buffer is not empty or a copier is attached; kSendingFile means an attached unfinished copier |
| `TcpConnection.ShutdownOnlyWhenDrained` | flute/net/TcpConnection.cc:189-205 | shutdown_write happens only when buffer and copier are gone and the wire is everything handed over, lost stretches apart |
| `TcpConnection.ShutWhenDrained` | flute/net/TcpConnection.cc:377-389 | a disconnecting connection with nothing left to send has been shut down |
| `TcpConnection.SendDuringFileWedges` | flute/net/TcpConnection.cc:358-376 | data sent during kSendingFile leaves a connection that no writable event changes any more |
| `TcpConnection.SendOvertakesFile` | flute/net/TcpConnection.cc:178-187 | with a copier attached, data sent keeps its place in the order if and only if data and file tail commute |
| `TcpConnection.SecondFileReplacesFirst` | flute/net/TcpConnection.cc:182-187 | a file given while another is attached keeps the bytes accounted for if and only if nothing of the first was left to send |
| `TcpConnection.DataReplacesLostFile` | flute/net/TcpConnection.cc:358-412 | for any file and data there is a run in which the file is given up and the data goes out in its place |
| `TcpConnectionImpl.Connection.SendBytes` | flute/net/TcpConnection.cc:112-176 | performs the Send operation: on a connected connection the data goes behind what is buffered, and writing is on |
| `TcpConnectionImpl.Connection.EnableFile` | flute/net/TcpConnection.cc:182-187 | performs the EnableZeroCopy operation |
| `TcpConnectionImpl.Connection.ShutdownConnection` | flute/net/TcpConnection.cc:189-205 | performs the Shutdown operation |
| `TcpConnectionImpl.Connection.UpdateSendingState` | flute/net/TcpConnection.cc:395-412 | moves the sending state as the buffer and the copier demand |
| `TcpConnectionImpl.Connection.WriteFromBuffer` | flute/net/TcpConnection.cc:413-425 | moves the bytes that write(2) took from the buffer to the wire |
| `TcpConnectionImpl.Connection.HandleClose` | flute/net/TcpConnection.cc:427-441 | performs the Close operation: disconnected, with writing off |
| `TcpConnectionImpl.Connection.HandleWritable` | flute/net/TcpConnection.cc:358-393 | performs the Writable operation and keeps the invariant, whatever the kernel answers |
| `ZeroCopier.MappedBytes` | flute/common/ZeroCopier.cc:96-129 | the bytes sent at the gap behind the page boundary of the mapping are the bytes of the file at the offset, and the mapping ends within the file |
| `ZeroCopier.ChunkConserves` | flute/common/ZeroCopier.cc:51-88 | what was left is what is sent plus what is left then, unless the copier gives up; then nothing is left and what was sent is a prefix of what was left |
| `ZeroCopier.AttemptOutcome` | flute/common/ZeroCopier.cc:51-129 | an attempt moves the offset by what the kernel took; a refusal, and in mmap mode an empty send or a failed munmap, adds a failure, the hundredth in a row gives the file up, and a success clears them |
| `ZeroCopier.MeasureFallsIffHeadway` | flute/common/ZeroCopier.cc:51-129 | an attempt lowers the measure over remaining bytes and consecutive failures if and only if it is not a sendfile that answers zero |
| `ZeroCopier.TransferEnds` | flute/common/ZeroCopier.h:28-55 | a transfer of r bytes has finished or been given up after 100r + 100 attempts, provided sendfile never answers zero |
| `ZeroCopier.MappedTransferEnds` | flute/common/ZeroCopier.cc:96-129 | in mmap mode it has, whatever the kernel answers |
| `ZeroCopier.ZeroBytesForever` | flute/common/ZeroCopier.cc:73-88 | a sendfile that keeps answering zero never ends the transfer |
| `TcpConnectionImpl.FileCopier.SendOneChunkMMap` | flute/common/ZeroCopier.cc:96-129 | returns what the kernel took, or -1, and moves the offset by what was sent, with the bytes read through the mapping |
| `TcpConnectionImpl.FileCopier.SendOneChunkZeroCopy` | flute/common/ZeroCopier.cc:90-94 | returns what the kernel took, or -1, and moves the offset by what was sent |
| `TcpConnectionImpl.FileCopier.SendOneChunk` | flute/common/ZeroCopier.cc:51-88 | becomes the copier of the chunk step and sends its bytes |
| `Bytes.IntRoundTrip` | flute/net/Buffer.h:175-241 | a signed integer of any width written in network order is read back equal, negative ones included |
| `Bytes.NetworkOrder` | flute/net/Endian.h:20-30 | byte i of an integer of w bytes counts units of 256 to the power w - 1 - i |
| `Bytes.IntsAreFifo` | flute/net/Buffer.h:175-241 | integers appended one after another are read back equal, first in first out, whatever follows them |
| `Bytes.Fifo` | flute/net/Buffer.h:175-241 | in any interleaving of appends and reads, what was there and what was appended is what was read and what remains, in order |
| `Bytes.CRLFIsFirst` | flute/net/Buffer.h:57-61 | no CR LF lies before the position found, and one is found exactly when there is one |
| `Buffers.Buffer.MakeSpace` | flute/net/Buffer.h:287-304 | makes room and keeps the contents; the assertion before moving to the front holds |
| `Buffers.Buffer.MoveToFront` | flute/net/Buffer.h:293-304 | the overlapping copy keeps the contents |
| `Buffers.Buffer.EnsureWritableLen` | flute/net/Buffer.h:151-156 | there is room for len bytes and the contents are unchanged |
| `Buffers.Buffer.AppendBytes` | flute/net/Buffer.h:141-145 | the contents grow by the bytes at the end |
| `Buffers.Buffer.PrependBytes` | flute/net/Buffer.h:262-267 | the contents grow by the bytes at the front |
| `Buffers.Buffer.RetrieveBytes` | flute/net/Buffer.h:84-91 | the first len bytes are gone |
| `Buffers.Buffer.UnwriteBytes` | flute/net/Buffer.h:167-170 | the last len bytes are gone |
| `Buffers.Buffer.ShrinkTo` | flute/net/Buffer.h:269-275 | a fresh store holds the same contents |
| `Buffers.Buffer.ReadAllFrom` | flute/net/Buffer.cc:14-37 | the contents grow by exactly the bytes readv delivered, through the second segment too; an error changes nothing |
| `Buffers.Buffer.AppendIntNet` | flute/net/Buffer.h:175-190 | appends the integer in network order |
| `Buffers.Buffer.ReadoutIntHost` | flute/net/Buffer.h:192-241 | takes the integer off the front and returns its value |
| `Buffers.Buffer.FindCRLF` | flute/net/Buffer.h:57-61 | returns the position of the first CR LF, or nothing exactly when there is none |
| `Buffers.Buffer.Perform` | flute/net/Buffer.h:84-275 | one public operation acts on the contents as on a plain byte string, and is refused exactly when its assertions fail |
| `Buffers.Buffer.PerformAll` | flute/net/Buffer.h:84-275 | so does any sequence of public operations, and exactly those whose assertions fail are refused, the indices being followed through growth, compaction and shrinking |
| `Buffers.Buffer.PerformInts` | flute/net/Buffer.h:175-241 | integers appended to and read from a buffer in any interleaving come out once each, in order and equal |
| `Buffers.PrependIsCheap` | flute/net/Buffer.h:34-41 | as long as nothing has been prepended, eight bytes can be |
| `Buffers.ShrinkLeavesRoom` | flute/net/Buffer.h:269-275 | shrinking keeps the length and leaves the room asked for |
| `Buffers.ReadHasRoom` | flute/net/Buffer.cc:14-37 | a read always has room for 64 KiB |
| `Http.ParseInTwo` | flute/net/http/HttpContext.cc:41-82 | a call on a, then one on what it left followed by b, gives the state, request and leftover of one call on a and b together |
| `Http.FragmentationIndependence` | flute/net/http/HttpContext.cc:41-82 | however a byte stream is cut into chunks, feeding them one by one gives the state, request and leftover of a single call |
| `Http.ParseFirstLine` | flute/net/http/HttpContext.cc:41-58 | an accepted request line is taken off and the call goes on with the headers; a rejected one stays, and without a line end nothing changes |
| `Http.ParseHeader` | flute/net/http/HttpContext.cc:59-70 | a header line is cut at its first colon, and what is stored is the stretch between the blanks around the value |
| `Http.ParseEndOfHeaders` | flute/net/http/HttpContext.cc:59-74 | any line without a colon, empty or not, ends the headers and what follows is left |
| `Http.ValueIsTrimmed` | flute/net/http/HttpRequest.h:85-96 | the stored value has no blank at either end and only blanks are cut off around it |
| `Http.AssertionAfterCall` | flute/net/http/HttpRequest.h:24-41 | the assertion in set_method holds on the next call if and only if this call did not find a line that starts with a method name and a space and is otherwise not acceptable |
| `Http.NeverBackToStart` | flute/net/http/HttpContext.cc:75-80 | kExpectBody is never entered, and the request line is not expected twice |
| `Http.GrammarIsAccepted` | flute/net/http/HttpContext.cc:6-35 | every line of one of five methods, a target without spaces and version 1.0 or 1.1, separated by single spaces, is accepted and read as the method of that name, the target split at its first question mark, and that version |
| `Http.BadVersionIsRejected` | flute/net/http/HttpContext.cc:6-35 | with any other version the line is rejected, but method and target have been stored by then |
| `Http.RejectedEarly` | flute/net/http/HttpContext.cc:6-12 | a line without a space changes nothing; an unknown method, or a line that ends behind the target, is rejected with the method stored and no more |
| `Http.OnlyGrammarIsAccepted` | flute/net/http/HttpContext.cc:6-35 | no other line is accepted |
| `Http.EmptyTargetIsAccepted` | flute/net/http/HttpContext.cc:14-23 | a line with an empty target, which section 3.1.1 of RFC 7230 does not admit, is accepted |
| `HttpPrint.ParsePrintedLine` | flute/net/http/HttpContext.cc:59-74 | the header loop reads a printed line back as its key and value |
| `HttpPrint.ParsePrintedLines` | flute/net/http/HttpContext.cc:59-74 | and a block of them as its map, leaving the body |
| `HttpPrint.LengthFits` | flute/net/http/HttpResponse.cc:20-21 | the Content-Length line fits the 32-byte scratch buffer if and only if the length is below 10^13 |
| `HttpPrint.DecimalReads` | flute/net/http/HttpResponse.cc:12-20 | numbers are printed in decimal without leading zeros |
| `HttpPrint.LengthIsBodySize` | flute/net/http/HttpResponse.cc:37-51 | the length announced is that of the page, of the picture file, or zero |
| `HttpPrint.LinesInOrder` | flute/net/http/HttpResponse.cc:26-31 | header lines are printed in the order of the keys, each as key, colon, blank, value |
| `HttpPrint.ClosingText` | flute/net/http/HttpResponse.cc:10-35 | status line, Connection line, empty line and body of a closing response, in literals |
| `HttpPrint.KeepingText` | flute/net/http/HttpResponse.cc:10-35 | status line, Content-Length and Connection lines, empty line and body of a response that keeps the connection, in literals |
| `HttpPrint.TooLong` | flute/net/http/HttpResponse.cc:17-24 | a longer one runs on into the Connection line, which is read back right only if the response has both headers of its own |
| `HttpPrint.HeaderRoundTrip` | flute/net/http/HttpResponse.cc:10-35 | the printed header block is read back as exactly Connection, Content-Length and the printed map, which wins, with the body left over, if and only if the connection closes, or the content length is below 10^13, or the map has both keys |
| `HttpImpl.HttpRequest.SetMethod` | flute/net/http/HttpRequest.h:24-41 | stores the method of each of the five names, pair by pair, and succeeds exactly on those |
| `HttpImpl.HttpRequest.AddHeaderLine` | flute/net/http/HttpRequest.h:85-96 | stores the field with its value trimmed on both sides, replacing an earlier one |
| `HttpImpl.HttpContext.ProcessLine` | flute/net/http/HttpContext.cc:6-35 | performs process_request_line, with the fields set on the way to a rejection |
| `HttpImpl.HttpContext.ParseRequest` | flute/net/http/HttpContext.cc:41-82 | consumes the buffer as Parse does, ends, and returns true, and sets the receive time, exactly when this call accepted a request line |
| `HttpImpl.AppendToBuffer` | flute/net/http/HttpResponse.cc:10-35 | appends status line, header block, empty line and body to the output buffer |
| `BlockingDeque.DoKeepsWakeups` | flute/common/BoundedBlockingDeque.h:26-40 | with any thread acting: if a consumer sleeps, at least as many consumers are on their way as there are items, dually for producers and free slots, and the capacity is respected |
| `BlockingDeque.DoKeepsElements` | flute/common/BoundedBlockingDeque.h:72-86 | every step keeps pushed items equal to taken and queued ones |
| `BlockingDeque.RunKeepsInv` | flute/common/BoundedBlockingDeque.h:26-86 | in every run of any number of threads, with spurious wake-ups and any choice of the thread notified, both hold and a waiting producer still has its item |
| `BlockingDeque.DeadlockFreedom` | flute/common/BoundedBlockingDeque.h:26-86 | producers and consumers can never all be asleep on each other if and only if the capacity is at least one |
| `BlockingDeque.SleepIsJustified` | flute/common/BoundedBlockingDeque.h:26-86 | a consumer asleep with none on the way has nothing to take; a producer asleep with none on the way has no room |
| `BlockingDeque.DeliveryInOrder` | flute/common/BoundedBlockingDeque.h:26-86 | pushed items are the taken and queued ones; pushed at the back only, they leave in that order, with ids 1, 2, 3 and so on |
| `BlockingDeque.TakeUndoesPushFront` | flute/common/BoundedBlockingDeque.h:26-86 | what is pushed at the front is taken next, which leaves the queue as it was; each of the two notifies its own condition variable |
| `BlockingDeque.PushStores` | flute/common/BoundedBlockingDeque.h:72-86 | in every run a push stores the item its thread came with, before any wait, numbered one higher than the last and at the end it came to push at, and notifies a consumer; a full deque puts it to sleep and nothing else changes |
| `BlockingDeque.TakeTakes` | flute/common/BoundedBlockingDeque.h:26-40 | a take removes the front and notifies a producer; an empty deque puts it to sleep and nothing else changes |
| `BlockingDeque.DeliveredOnce` | flute/common/BoundedBlockingDeque.h:26-40 | no id is delivered twice, whichever ends are pushed at |
| `BlockingDeque.Deque.TryPush` | flute/common/BoundedBlockingDeque.h:72-86 | blocks exactly when full, and otherwise numbers the item and adds it at the chosen end |
| `BlockingDeque.Deque.TryTakeFront` | flute/common/BoundedBlockingDeque.h:26-40 | blocks exactly when empty, and otherwise removes and returns the front |
| `AsyncLogging.DoKeepsInv` | flute/common/AsyncLogging.cc:27-124 | append and every stage of the backend keep the buffers, lines and file in agreement |
| `AsyncLogging.NothingFails` | flute/common/AsyncLogging.cc:61-124 | in every run no assertion of the backend fails and no moved-from pointer is followed; a missing reserve means a full buffer waits |
| `AsyncLogging.RunIsTold` | flute/common/AsyncLogging.cc:27-81 | in every run the lines appended since the last swap are packed in order into the full buffers and the current one, and each batch is what was packed at its swap |
| `AsyncLogging.FileHoldsKeptBuffers` | flute/common/AsyncLogging.cc:85-101 | the file is the rendering of the batches written, as the steps tell them: the first two buffers of each, in order, and a notice of how many were left out |
| `AsyncLogging.FileAndMemory` | flute/common/AsyncLogging.cc:27-124 | file and memory together are the lines of all append calls shorter than 1000 bytes, in order, if and only if no dropped buffer held a line |
| `AsyncLogging.ThirdBufferIsLost` | flute/common/AsyncLogging.cc:85-96 | three lines of half a buffer or more between two swaps lose the third |
| `AsyncLoggingImpl.FixedBuffer.Append` | flute/common/FixedBuffer.h:21-26 | the bytes are those of the lines put in, a line that would not leave a byte free being left out |
| `AsyncLoggingImpl.FixedBuffer.Avail` | flute/common/FixedBuffer.h:33 | the room left is the size less the bytes held |
| `AsyncLoggingImpl.FixedBuffer.ResetCur` | flute/common/FixedBuffer.h:35 | the buffer is empty again |
| `AsyncLoggingImpl.Logger.Append` | flute/common/AsyncLogging.cc:27-48 | performs the Append step |
| `AsyncLoggingImpl.Logger.SwapBuffers` | flute/common/AsyncLogging.cc:66-81 | performs the Swap step |
| `AsyncLoggingImpl.Logger.WriteBuffers` | flute/common/AsyncLogging.cc:85-101 | performs the Write step |
| `AsyncLoggingImpl.Logger.Recycle` | flute/common/AsyncLogging.cc:108-122 | performs the Recycle step; there is always a buffer to recycle |

## Left out

- Socket, SocketsOps, InetAddress, Acceptor, FileUtil and ProcessInfo: thin wrappers over system calls.
- Reading a TZif file: the model starts from the table it builds; the table's shape is a precondition.
- ZeroCopier's read/write mode: a short write moves the source position past `m_offset`, so only the sendfile and mmap modes are modelled.
- Cross-thread teardown of connections (TcpServer maps, destructors, Connector restart): its state tests are not atomic in the source.
- Sends and shutdowns from other threads: they are modelled where they run, on the reactor thread.
- BlockingDeque and TaskDeque: the bounded deque covers the same monitor reasoning.
- `set_size` of the bounded deque and wrap-around of its ids: capacity is fixed and ids are unbounded.
- Wrap-around of timer ids and of the eventfd counter: both are unbounded.
- Floating-point intervals: times and intervals are integer microseconds.
- A cancel that overtakes a still-queued add of its timer: it is a step of the model that does nothing, and cancellation is claimed for inserted timers only.
- Timer objects are records in an explicit heap map rather than Dafny objects, because `delete` frees their addresses for reuse.
- The body of `Reactor::loop` as one method: its parts are steps that the theorems interleave with other threads.
- The channel's callbacks and its `tie`, and EPollPoller's `poll` and `register_active_channels`: they only copy what the kernel reports.
- The logger's `unique_ptr` buffers are options over values, None once moved from; the array of one buffer is modelled by `AsyncLoggingImpl.FixedBuffer`. Rolling and flushing of the log file are left out.
- Condition variables, mutexes and threads: their contracts are steps, not their code.
- ZlibStream, Digital, LogStream, LogLine, StringPiece and CurrentThread: formatting helpers and bindings that would only add easy members.
- Timezone.LocalRoundTrip: readings are limited to times whose Julian day the 32-bit calendar code handles.
- Calendar.NextDayHasNextNumber: dates before 1 March 4801 BC are excluded, where the truncating divisions lose days.
