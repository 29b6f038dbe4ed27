# A verified model of the reactor library

This project models the parts of the library where something can go quietly wrong,
and proves what they are for:

- **Dates and civil time** (`Date.dfy`, `CivilTime.dfy`): the two closed Julian-day formulas against a
  calendar given day by day, and the split of seconds into six fields.
- **Time zones** (`TimeZone.dfy`): the two look-ups in the transition table, against the set of instants that
  show a local time.
- **TZif files** (`Bytes.dfy`, `TzFile.dfy`, `TzFormat.dfy`): the reader with its file cursor, against an
  encoder written from sections 3.1 to 3.3 of RFC 8536.
- **Timer queue** (`TimerMachine.dfy`, `TimerRuns.dfy`, `TimerQueue.dfy`): two indexes over manually owned
  timers, cancellation during callbacks, and the one-shot timerfd.
- **Event loop** (`LoopMachine.dfy`, `EventLoop.dfy`): the hand-off of functors between threads, over every
  interleaving.
- **Pollers** (`Channel.dfy`, `PollPoller.dfy`, `EpollPoller.dfy`, `PollerRefinement.dfy`): swap-remove with
  back-indices, the mirrored kernel set, and the one interest map both stand for.
- **Log stream** (`Numerals.dfy`, `LogStream.dfy`): in-place number formatting into a fixed buffer.

`CppInt.dfy` holds C++ division, which truncates toward zero; `Wrappers.dfy` holds `Option` and `Result`.

Code that changes state is modelled by classes with the same fields. Where the property is about whole runs,
the state and its steps are also given as values (`TimerMachine`, `LoopMachine`, the `State` types of the pollers); each
method's contract says which step, or sequence of steps, it performs, and the theorems are about all runs.
`dafny verify dfyconfig.toml` checks everything.

What other threads, callbacks and the destructors of callbacks do is arbitrary: it is a sequence of steps, given to
the methods as an argument.
Addresses of deleted timers may be handed out again. Time is in integer microseconds and an interval is its
truncated microsecond count.

## What the code does not do everywhere

These came out of the proofs; each is stated exactly in the lemma named.

- The date formulas agree with the calendar from 1 March -4800 on and not before (`Date.DecodeIsValid`,
  `Date.DecodeEncode`, `Date.LeapDayClash`).
- The local-time look-up ignores the flag in the overlaps at the first and last transition, and in the gap at the
  first (`TimeZone.InstantOfShown`, `TimeZone.GapAnswers`; inputs in `TimeZone.EarlyReadingIsLost` and
  `TimeZone.FirstGapIgnoresFlag`). Between the first two transitions its "repeat" test compares with a value left
  over from the skip test and always succeeds; the answer is right all the same
  (`TimeZone.FirstStretchReadsAsRepeat`; an input in `TimeZone.UniqueReadAsRepeat`).
- A TZif file of version 3, or any version but 2, has its first block loaded (`TzFormat.LoadOtherVersion`). A block
  that declares no local time type is accepted, although both look-ups then have nothing to fall back on
  (`TzFile.LoadedIsConsistent`).
- A functor that the loop thread queues outside `loop()`, or from the destructor of a functor it has run, is not
  signalled: `doPendingFunctors` clears its flag before its local vector is destroyed. A wakeup is lost exactly when
  that happens with none under way (`LoopMachine.NoWakeupIsLost`, `LoopMachine.EarlyPushIsNotSignalled`,
  `LoopMachine.ReleasePushIsNotSignalled`).
- Cancelling a timer has its effect exactly when the timer is scheduled, or in the batch whose callbacks are being
  run, or bound to be deleted anyway (`TimerRuns.CancelHeededExactly`). It has none before the timer has reached the
  loop (`TimerRuns.CancelBeforeAddIsLost`), nor while `reset` has yet to come to it, which code in the destructor of
  another timer's callback can hit (`TimerRuns.CancelDuringResetIsLost`). Cancelling one whose batch is being run
  does not stop the run it is due (`TimerRuns.CallbacksRunBatch`).
- `cancelInLoop` deletes the timer between its two `erase` calls. If the destructor of the callback calls back into
  `cancelInLoop` or `insert` there, an assertion fails (`TimerMachine.MidCancelSizesDiffer`); all else said of the
  timer queue holds exactly as long as it does not.
- `addTimer` reads the number of the timer back after handing it over; what it reads is the timer's own exactly as
  long as the timer is live (`TimerRuns.IdReadBack`).
- The pollers part ways exactly when a channel is first registered with an empty mask (`PollPoller.UpdateCurrent`,
  `PollerRefinement.UpdateAgrees`, `PollerRefinement.EmptyRegistration`). After removal a channel keeps its slot index under poll(2) and is as new
  under epoll(4) (`PollPoller.PollPoller.RemoveChannel`, `EpollPoller.EpollPoller.RemoveChannel`), so that only the
  latter would take the same channel again.

## Model

| member | source | states |
|---|---|---|
| Date.DecodeIsValid | server/src/muduo/base/Date.cpp:29-42 | A day number decodes to a date of the calendar (month 1..12, day within the leap-aware month) exactly from -32044 on, and from there encodes back to itself |
| Date.DecodeEncode | server/src/muduo/base/Date.cpp:20-42 | A valid date survives encoding and decoding exactly from 1 March -4800 on |
| Date.EncodeDecode | server/src/muduo/base/Date.cpp:20-42 | Every day number from -32044 on decodes to a valid date that has that number |
| Date.DecodeCountsUp | server/src/muduo/base/Date.cpp:29-42 | The next day number decodes to the calendar successor under the 4/100/400 leap rule |
| Date.NextDayNumber | server/src/muduo/base/Date.cpp:20-27 | The successor of a date has the next day number |
| Date.EncodeOrder | server/src/muduo/base/Date.cpp:20-27 | Order on (year, month, day) is order on day numbers |
| Date.LeapDayClash | server/src/muduo/base/Date.cpp:20-27 | 29 February -4800 and 1 March -4800 share a day number |
| Date.DecodeFitsInt | server/src/muduo/base/Date.cpp:29-42 | The intermediate products fit a 32-bit int exactly up to a stated last day |
| Date.EncodeFitsInt | server/src/muduo/base/Date.cpp:20-27 | From 1 March -4800 on every intermediate value of encoding fits a 32-bit int exactly up to 15 December 5874689 |
| CivilTime.BreakTimeIsValid | server/src/muduo/base/TimeZone.cpp:297-324 | The six fields are in range exactly from midnight of 1 March -4800 on, negative seconds included |
| CivilTime.FromUtcTimeOfBreakTime | server/src/muduo/base/TimeZone.cpp:305-324 | Breaking a second and reassembling it gives it back |
| CivilTime.BreakTimeOfFromUtcTime | server/src/muduo/base/TimeZone.cpp:510-516 | A valid time survives exactly from 1 March -4800 on |
| CivilTime.BreakTimeOrder | server/src/muduo/base/TimeZone.cpp:305-324 | A second is earlier than another exactly when its six fields are lexicographically earlier |
| CivilTime.BreakTimeCountsUp | server/src/muduo/base/TimeZone.cpp:305-324 | Second 0 is midnight of 1 January 1970, and each further second breaks into the clock and calendar time one second on |
| CivilTime.FromUtcTimeOrder | server/src/muduo/base/TimeZone.cpp:510-516 | The same for assembled seconds |
| CivilTime.BreakTimeFitsInt | server/src/muduo/base/TimeZone.cpp:305-317 | The casts to int lose nothing over a stated range |
| TimeZone.FindLocalTimeByStretch | server/src/muduo/base/TimeZone.cpp:330-368 | At an instant from one transition to before the next the type found is the one the former switches to; before all of them it is the first type |
| TimeZone.ShownExactly | server/src/muduo/base/TimeZone.cpp:330-368 | A local time is shown only in the last stretch begun or the one before it, and by which instants |
| TimeZone.BranchCountsInstants | server/src/muduo/base/TimeZone.cpp:370-442 | Skip, unique or repeat is taken when 0, 1 or 2 instants show the time; false and true give the earlier and the later; around a gap the answers straddle the transition and differ by the gap |
| TimeZone.AnswerShowsLocalTime | server/src/muduo/base/TimeZone.cpp:370-442 | For every local time some instant shows, the answer shows it under either flag, and true gives the latest |
| TimeZone.GapAnswers | server/src/muduo/base/TimeZone.cpp:370-442 | For every local time no instant shows, which transition skipped it and what is answered |
| TimeZone.FirstStretchReadsAsRepeat | server/src/muduo/base/TimeZone.cpp:418-438 | Between the first two transitions the repeat branch is always taken; when that miscounts, and that the answer still shows the time |
| TimeZone.InstantOfShown | server/src/muduo/base/TimeZone.cpp:473-503 | Local time leads back to the instant under some flag unless it is the early reading of an overlap at either end; under both when no other instant shows it |
| TimeZone.LocalTimeRoundTrip | server/src/muduo/base/TimeZone.cpp:473-503 | The same on six-field times: back under some flag unless it is the early reading of an end overlap, under both when it is the local time of no other instant |
| TimeZone.LocalTimeShows | server/src/muduo/base/TimeZone.cpp:473-490 | The six fields shown at any instant are valid and have the seconds of the instant plus the offset in force |
| TimeZone.FromLocalTimeShown | server/src/muduo/base/TimeZone.cpp:492-503 | A six-field time that is some instant's local time leads under either flag to an instant whose local time it is: true to the latest; false to the earliest, for all times between the second and the last transition, and elsewhere exactly but for the overlaps at either end |
| TimeZone.FromLocalTimeSkipped | server/src/muduo/base/TimeZone.cpp:492-503 | One that is no instant's was skipped by a transition; false answers as far after the transition as the time is past its start, true before the transition and earlier by the whole gap, except at the first transition, where both answer alike |
| TimeZone.EarlyReadingIsLost | server/src/muduo/base/TimeZone.cpp:386-390 | A well-formed table and an instant in an overlap whose local time leads elsewhere under both flags |
| TimeZone.FirstGapIgnoresFlag | server/src/muduo/base/TimeZone.cpp:375-379 | A skipped local time at a first transition, answered alike under both flags |
| TimeZone.UniqueReadAsRepeat | server/src/muduo/base/TimeZone.cpp:418-438 | A local time one instant shows, for which the repeat branch is taken |
| TimeZone.SpacedByJumps | server/src/muduo/base/TimeZone.cpp:334-339 | Transitions further apart than their jumps meet the spacing the look-up relies on |
| Bytes.SignedOfEncode | server/src/muduo/base/TimeZone.cpp:136-160 | Big-endian two's-complement integers read back as written |
| Bytes.MostSignificantFirst | server/src/muduo/base/TimeZone.cpp:136-160 | The first byte counts most |
| TzFile.File.ReadBytes | server/src/muduo/base/TimeZone.cpp:115-122 | Reads exactly n bytes or fails |
| TzFile.File.ReadToEnd | server/src/muduo/base/TimeZone.cpp:124-134 | Returns what is left |
| TzFile.File.Skip | server/src/muduo/base/TimeZone.cpp:171-174 | Moves the cursor as fseek does, past the end too |
| TzFile.AddTransition | server/src/muduo/base/TimeZone.cpp:58-62 | Fails on an index without a type, else appends the transition with its local time |
| TzFile.ReadDataBlock | server/src/muduo/base/TimeZone.cpp:182-248 | Succeeds exactly when the block is readable, with the data found by position |
| TzFile.ReadTimeZoneFile | server/src/muduo/base/TimeZone.cpp:250-295 | Succeeds exactly when the chosen block of the file is readable, with its data |
| TzFile.LoadZoneFile | server/src/muduo/base/TimeZone.cpp:451-459 | The same from the whole file |
| TzFile.LoadedIsConsistent | server/src/muduo/base/TimeZone.cpp:58-62 | Loaded transitions have types in range and local time = UTC + offset; a first type exists exactly if the block declares any |
| TzFormat.LoadVersion2 | server/src/muduo/base/TimeZone.cpp:250-295 | Loading inverts encoding of version 2 files, and fails exactly when the second block has leap seconds, an index without a type, or indicators for some types only |
| TzFormat.LoadOtherVersion | server/src/muduo/base/TimeZone.cpp:282-287 | Any other version loads the first block |
| TzFormat.FirstHeader | server/src/muduo/base/TimeZone.cpp:263-274 | The computed skip lands on the second header whatever the first block holds |
| TzFormat.BlockDecode | server/src/muduo/base/TimeZone.cpp:182-248 | Any block that can be encoded is readable under exactly that condition and yields the lists encoded |
| TzFormat.BadStartRefused | server/src/muduo/base/TimeZone.cpp:254-261 | A file shorter than a header or not beginning with TZif is refused |
| TzFormat.BadSecondHeaderRefused | server/src/muduo/base/TimeZone.cpp:270-280 | A version 2 file whose second header is missing or does not begin with TZif is refused, whatever the first block holds |
| TzFormat.TruncatedRefused | server/src/muduo/base/TimeZone.cpp:115-134 | A version 2 file cut short loads exactly when it is whole up to the end of the designations |
| TimerMachine.StepKeeps | server/src/muduo/net/TimerQueue.cpp:129-256 | No step follows a pointer to a deleted timer, and each keeps the indexes equal, every key current, ownership single and numbers unique; code run by destructors in `reset` is among the steps, and what `cancelInLoop` deletes is taken to call nothing back |
| TimerMachine.MidCancelSizesDiffer | server/src/muduo/net/TimerQueue.cpp:148-151 | Between the deletion and the second erase the indexes differ in size, so that a call back from there fails the assertions at lines 143 and 235 |
| TimerMachine.DueCountIsLowerBound | server/src/muduo/net/TimerQueue.cpp:184-185 | The due timers are those below the sentry, for any address above all others |
| TimerMachine.IndexedSizes | server/src/muduo/net/TimerQueue.cpp:143-157 | The two indexes have the same size |
| TimerMachine.BeginSplits | server/src/muduo/net/TimerQueue.cpp:180-199 | The batch is every due timer by time, what is left is later, together they are the old queue |
| TimerMachine.TimeFromNowExact | server/src/muduo/net/TimerQueue.cpp:38-52 | The timespec is valid, exact, at least 100 microseconds and never zero |
| TimerMachine.ResetTimerfdDeadline | server/src/muduo/net/TimerQueue.cpp:65-78 | The alarm is set for the expiration or 100 microseconds from now, whichever is later |
| TimerRuns.OneOwner | server/src/muduo/net/TimerQueue.cpp:140-230 | In every run each timer is in transit, scheduled, in the batch or deleted, in exactly one of these, deleted at most once |
| TimerRuns.CallbacksRunBatch | server/src/muduo/net/TimerQueue.cpp:168-175 | Whatever callbacks do, those run are the batch's, in order |
| TimerRuns.ReadRunsDueTimers | server/src/muduo/net/TimerQueue.cpp:160-178 | A handleRead runs exactly the timers due, in order |
| TimerRuns.DueTimerRunsOnce | server/src/muduo/net/TimerQueue.cpp:160-199 | A scheduled timer runs once more in a handleRead if due and not at all otherwise |
| TimerRuns.OneShotRunsAtMostOnce | server/src/muduo/net/TimerQueue.cpp:160-219 | A timer made without an interval runs at most once in any run |
| TimerRuns.OneShotRunsExactlyOnce | server/src/muduo/net/TimerQueue.cpp:113-219 | A timer made without an interval and not cancelled before has run exactly once when the callbacks of a handleRead at or after its time are done, if it had reached the loop; and ever after |
| TimerRuns.NeverEarly | server/src/muduo/net/TimerQueue.cpp:160-199 | In no run does a timer, one-shot or repeating, run before the time it was made for |
| TimerRuns.RunsNotBefore | server/src/muduo/net/TimerQueue.cpp:160-199 | A waiting timer does not run before its present expiration |
| TimerRuns.RepeatingStaysScheduled | server/src/muduo/net/TimerQueue.cpp:113-219 | A repeating timer that is not cancelled stays live in every run with the interval it was made with, has the time it was made for until a read begins, and once it has reached the loop is scheduled at its expiration whenever no handleRead is under way |
| TimerRuns.BetweenReads | server/src/muduo/net/TimerQueue.cpp:129-158 | Until a read begins a timer that is not cancelled stays as it was |
| TimerRuns.ReadRestarts | server/src/muduo/net/TimerQueue.cpp:160-230 | Over a whole handleRead a repeating timer that nothing cancels runs once if it was due and is then scheduled for the time the read began plus its interval; otherwise it does not run and is scheduled as before |
| TimerRuns.ResetReschedules | server/src/muduo/net/TimerQueue.cpp:205-219 | The next timer of the batch is scheduled for its interval after the read if it repeats and was not cancelled, else deleted |
| TimerRuns.EndReschedules | server/src/muduo/net/TimerQueue.cpp:201-230 | Over a whole reset, whatever destructors do in between: timers of the batch that do not repeat or were cancelled are deleted; one that nothing cancels meanwhile is scheduled for its interval after the read if it was in the batch and untouched if not |
| TimerRuns.CancelIsFinal | server/src/muduo/net/TimerQueue.cpp:140-219 | A timer cancelled when that is heeded runs at most once more, and only if waiting in the batch under way; it is never scheduled again, and is gone outside handleRead |
| TimerRuns.CancelHeededExactly | server/src/muduo/net/TimerQueue.cpp:140-219 | After a cancellation the timer is never scheduled in any run exactly if it was scheduled, or in the batch with the flag up, not repeating, or cancelled already |
| TimerRuns.CancelDuringResetIsLost | server/src/muduo/net/TimerQueue.cpp:201-219 | A run in which a repeating timer is cancelled while another one is deleted, and is scheduled again |
| TimerRuns.DeadNeverRuns | server/src/muduo/net/TimerQueue.cpp:140-219 | A deleted timer stays deleted and never runs again, whatever is made at its address |
| TimerRuns.CancelTouchesOnlyItsTimer | server/src/muduo/net/TimerQueue.cpp:144-156 | An id affects no timer but the one with its address and its sequence number |
| TimerRuns.IdReadBack | server/src/muduo/net/TimerQueue.cpp:117-120 | Whatever the loop has done since, the number at the address of a timer handed over is the timer's own exactly if the timer is live |
| TimerRuns.CancelBeforeAddIsLost | server/src/muduo/net/TimerQueue.cpp:113-158 | A timer cancelled before reaching the loop is scheduled all the same |
| TimerRuns.NoAlarmIsLost | server/src/muduo/net/TimerQueue.cpp:129-230 | Outside handleRead a non-empty queue has its alarm fired or set no later than the earliest expiration or 100 microseconds after setting, and so no later than 100 microseconds from now unless the expiration is later |
| TimerRuns.AlarmExactly | server/src/muduo/net/TimerQueue.cpp:129-230 | What each step makes of the alarm: set for the earliest timer, or 100 microseconds from now if later, by an add of a new earliest timer and by the end of a read; cleared by reading it; untouched otherwise |
| TimerQueue.TimerQueue.Insert | server/src/muduo/net/TimerQueue.cpp:232-256 | Performs the insertion step; all its assertions hold |
| TimerQueue.TimerQueue.AddTimer | server/src/muduo/net/TimerQueue.cpp:113-121 | Makes a timer with a fresh number, schedules it at once in the loop thread and leaves it in transit in another; the id returned is its address and number |
| TimerQueue.TimerQueue.AddTimerInLoop | server/src/muduo/net/TimerQueue.cpp:129-138 | Performs the add step |
| TimerQueue.TimerQueue.CancelInLoop | server/src/muduo/net/TimerQueue.cpp:140-158 | Performs the cancel step in the order of the code; the erase by recomputed key always finds its entry |
| TimerQueue.TimerQueue.GetExpired | server/src/muduo/net/TimerQueue.cpp:180-199 | Takes the due prefix out of both indexes; each erase finds its entry |
| TimerQueue.TimerQueue.Reset | server/src/muduo/net/TimerQueue.cpp:201-230 | Performs the reset of each timer of the batch, with any steps after each, and then sets the alarm |
| TimerQueue.TimerQueue.Restart | server/src/muduo/net/Timer.cpp:14-20 | The new expiration is the interval after the given time, or invalid for a timer that does not repeat |
| TimerQueue.TimerQueue.HandleRead | server/src/muduo/net/TimerQueue.cpp:160-178 | Performs exactly the steps of a read, whatever callbacks and their destructors do |
| TimerQueue.ReadStepsRunDue | server/src/muduo/net/TimerQueue.cpp:160-178 | Those steps run all timers due when the read begins, in order |
| TimerQueue.ReadCanRun | server/src/muduo/net/TimerQueue.cpp:160-230 | With no interference a read can be gone through from every state outside one |
| LoopMachine.PushesLogged | server/src/muduo/net/EventLoop.cpp:159-164 | What is recorded as queued is the functors of the pushes of the run, in order, none lost |
| LoopMachine.FunctorsRunInOrder | server/src/muduo/net/EventLoop.cpp:159-268 | In any interleaving the functors pushed run in push order, at most once; at every step executed, rest of the batch and pending make up the pushes of the run |
| LoopMachine.ExecutionOrdered | server/src/muduo/net/EventLoop.cpp:253-268 | Executed, rest of the batch and pending always make up the pushes in lock order |
| LoopMachine.RoundRunsWhatWasPushed | server/src/muduo/net/EventLoop.cpp:253-268 | When the calls of a round are done exactly the functors pushed in the run before its swap have run |
| LoopMachine.NoWakeupIsLost | server/src/muduo/net/EventLoop.cpp:102-170 | In every run, no wakeup can be lost from any of its states on exactly if each push by the loop thread with the flag down outside event callbacks found a wakeup under way |
| LoopMachine.NeverLosesExactly | server/src/muduo/net/EventLoop.cpp:102-170 | A state can go on without losing a wakeup exactly if what is pending in it, and a request to quit the loop in poll, are signalled |
| LoopMachine.StartLosesNothing | server/src/muduo/net/EventLoop.cpp:102-113 | Entering loop() can lose no wakeup exactly if nothing is pending or what is pending is signalled |
| LoopMachine.OthersMayQueueEarly | server/src/muduo/net/EventLoop.cpp:159-170 | That is so when only other threads queue outside loop() |
| LoopMachine.EarlyPushIsNotSignalled | server/src/muduo/net/EventLoop.cpp:166-169 | A run in which the loop thread queues before loop() and the loop blocks |
| LoopMachine.ReleasePushIsNotSignalled | server/src/muduo/net/EventLoop.cpp:253-268 | A run in which the destructor of a functor queues another one and the loop blocks |
| LoopMachine.FlagAndCounter | server/src/muduo/net/EventLoop.cpp:102-251 | In every run the flag is what the last call of quit or entry to loop() made it, and the counter is the number of wakeups written since it was last read |
| LoopMachine.QuitIsFinal | server/src/muduo/net/EventLoop.cpp:110-145 | Once quit has been called in a run the loop does not poll again unless it is entered anew |
| LoopMachine.FinishedRunsNothing | server/src/muduo/net/EventLoop.cpp:102-133 | Nothing is run outside loop() |
| EventLoop.EventLoop.QueueInLoop | server/src/muduo/net/EventLoop.cpp:159-170 | Queues the functor after those queued before and, for another thread or during functors, leaves a wakeup written, with any steps of the other threads in between |
| EventLoop.EventLoop.RunInLoop | server/src/muduo/net/EventLoop.cpp:147-157 | Calls the functor at once in the loop thread, and queues it from another |
| EventLoop.EventLoop.Quit | server/src/muduo/net/EventLoop.cpp:135-145 | Leaves the flag up unless loop() is entered meanwhile and, for another thread, a wakeup written, with any steps in between |
| EventLoop.EventLoop.HandleRead | server/src/muduo/net/EventLoop.cpp:243-251 | Clears the counter |
| EventLoop.EventLoop.SwapPending | server/src/muduo/net/EventLoop.cpp:258-261 | The locked swap takes all that is pending and leaves nothing |
| EventLoop.EventLoop.DoPendingFunctors | server/src/muduo/net/EventLoop.cpp:253-268 | Performs exactly the steps of a round up to the destruction of the vector, whatever functors, their destructors and other threads do |
| EventLoop.RoundRunsPending | server/src/muduo/net/EventLoop.cpp:253-268 | Those steps run everything queued before the round began |
| EventLoop.RoundCanRun | server/src/muduo/net/EventLoop.cpp:253-268 | With no interference a round can be gone through |
| EventLoop.EventLoop.Loop | server/src/muduo/net/EventLoop.cpp:102-133 | Performs exactly the steps of any number of rounds, ending when quit is found set, whatever callbacks and other threads do |
| Channel.ApplyIsBitwise | server/src/muduo/net/include/Channel.h:56-60 | The mask arithmetic is the bit operations, on every mask that can arise |
| Channel.Channel.SetInterest | server/src/muduo/net/Channel.cpp:47-51 | Changes the mask and marks the channel as in the loop |
| PollPoller.UpdateCurrent | server/src/muduo/net/PollPoller.cpp:60-91 | Slots stay current (own mask, negative exactly when empty) exactly if the channel was registered or its mask is not empty |
| PollPoller.UpdateSlots | server/src/muduo/net/PollPoller.cpp:60-91 | The channel's slot has its mask, nothing reported, and its descriptor or minus that minus 1; every other channel keeps its slot |
| PollPoller.RemoveLinked | server/src/muduo/net/PollPoller.cpp:93-122 | Swap-remove keeps back-indices and slots inverse to each other |
| PollPoller.RemoveKeepsSlots | server/src/muduo/net/PollPoller.cpp:93-122 | Every other channel keeps its slot's contents |
| PollPoller.LinkedSizes | server/src/muduo/net/PollPoller.cpp:60-122 | As many slots as registered channels |
| PollPoller.ReadyOnce | server/src/muduo/net/PollPoller.cpp:44-58 | Each registered channel reported on is ready exactly once, and no other |
| PollPoller.PollPoller.UpdateChannel | server/src/muduo/net/PollPoller.cpp:60-91 | Performs the update on slots, channel index and channel map |
| PollPoller.PollPoller.RemoveChannel | server/src/muduo/net/PollPoller.cpp:93-122 | Performs the swap-remove, correcting the moved channel's index and leaving the removed one's |
| PollPoller.PollPoller.Detach | server/src/muduo/net/Channel.cpp:53-58 | Removal's assertions hold whenever slots are current |
| PollPoller.PollPoller.FillActiveChannels | server/src/muduo/net/PollPoller.cpp:44-58 | Returns the ready channels in slot order, each with its slot's events |
| EpollPoller.UpdateMirrored | server/src/muduo/net/EpollPoller.cpp:176-218 | The kernel set stays the added channels with their masks |
| EpollPoller.UpdateInKernel | server/src/muduo/net/EpollPoller.cpp:176-218 | The kernel holds the descriptor with its mask unless it was there and the mask is empty; one taken out for that comes back even with an empty mask; others are untouched |
| EpollPoller.EpollPoller.UpdateChannel | server/src/muduo/net/EpollPoller.cpp:176-218 | Performs the update; each epoll_ctl is one the kernel accepts |
| EpollPoller.EpollPoller.RemoveChannel | server/src/muduo/net/EpollPoller.cpp:291-310 | Performs the removal and leaves the channel as new |
| EpollPoller.EpollPoller.FillActiveChannels | server/src/muduo/net/EpollPoller.cpp:148-174 | For descriptors the kernel reports out of its set, the channels found in it are the registered ones, and are returned in order with their events |
| PollerRefinement.PollersAgree | server/src/muduo/net/EpollPoller.cpp:176-310 | After any legal run poll array, epoll set and the channels' non-empty masks are one map, with the same channels registered |
| PollerRefinement.UpdateAgrees | server/src/muduo/net/EpollPoller.cpp:176-218 | From agreeing states an update leaves both watching the same exactly if the channel was registered or its mask is not empty |
| PollerRefinement.DrivePoll | server/src/muduo/net/PollPoller.cpp:60-122 | Any legal sequence of calls on the poller object and its channels performs the run; the array then waits for the channels' non-empty masks |
| PollerRefinement.DriveEpoll | server/src/muduo/net/EpollPoller.cpp:176-310 | The same for the other poller and the kernel's set |
| PollerRefinement.EmptyRegistration | server/src/muduo/net/PollPoller.cpp:63-73 | The first registration with an empty mask, where the pollers differ |
| Numerals.DecimalValueOf | server/src/muduo/base/LogStream.cpp:46-67 | The printed number parses back and has no leading zero |
| Numerals.DecimalUnique | server/src/muduo/base/LogStream.cpp:46-67 | Every canonical decimal is the printed form of its value |
| Numerals.DecimalLength | server/src/muduo/base/LogStream.cpp:224-234 | A 64-bit number, signed or unsigned, takes at most 20 characters |
| Numerals.DecimalLengthReached | server/src/muduo/base/LogStream.cpp:224-234 | The most negative and the greatest one take 20 |
| Numerals.NumeralUnique | server/src/muduo/base/LogStream.cpp:69-85 | Canonical hexadecimal numerals are in one-to-one correspondence with numbers |
| Numerals.HexLength | server/src/muduo/base/LogStream.cpp:69-85 | An address takes at most 16 digits |
| LogStream.LeastDigit | server/src/muduo/base/LogStream.cpp:38-56 | The symmetric table gives the digit of a remainder of either sign |
| LogStream.Reverse | server/src/muduo/base/LogStream.cpp:64-64 | Turns a stretch of the buffer around and nothing else |
| LogStream.Convert | server/src/muduo/base/LogStream.cpp:46-67 | Writes the decimal and a NUL, and nothing else, for any integer without negating it |
| LogStream.ConvertHex | server/src/muduo/base/LogStream.cpp:69-85 | The same in base 16 |
| LogStream.FixedBuffer.Append | server/src/muduo/base/include/LogStream.h:38-46 | Appends all or nothing |
| LogStream.LogStream.FormatInteger | server/src/muduo/base/LogStream.cpp:236-244 | With 48 bytes free appends a canonical decimal that reads back as the number, else nothing |
| LogStream.LogStream.WritePointer | server/src/muduo/base/LogStream.cpp:294-306 | Under the same condition appends 0x and a canonical hexadecimal numeral that reads back as the address |
| LogStream.LogStream.WriteAll | server/src/muduo/base/include/LogStream.h:85-155 | A chain of items appends exactly those that find room, whole, in order, each reading back as the item |
| LogStream.OnlyWholeItems | server/src/muduo/base/include/LogStream.h:85-155 | Any sequence of items leaves a free byte and only whole items, in order |
| LogStream.JoinedReads | server/src/muduo/base/include/LogStream.h:85-155 | What is kept of any items is one piece of text for each, reading back as that item |
| LogStream.KeptWhenAccepted | server/src/muduo/base/include/LogStream.h:38-46 | An item is kept exactly when it finds room after those kept before it |
| LogStream.NothingDropped | server/src/muduo/base/LogStream.cpp:236-244 | Nothing is dropped while the items leave room for one number |

## Left out

- TimerMachine.StepKeeps: does not cover a callback whose destructor, run by the deletion inside `cancelInLoop`, calls back into the timer queue; that fails an assertion, as `TimerMachine.MidCancelSizesDiffer` shows.
- TimerQueue.TimerQueue.CancelInLoop: leaves out the same calls.
- Overflow of the eventfd counter and of 64-bit times, and failing system calls: the model's integers are unbounded and its descriptors work. Where dates use a 32-bit int the exact range is stated, in both directions.
- `std::upper_bound`, `lower_bound` and ordered `set`: their contracts, on sorted sequences. What `upper_bound` does on an unsorted table is not modelled; the theorems ask for the spacing that sorts it.
- TZif counts so large that reserving memory for them fails, or that `6 * typecnt` or `8 * leapcnt` overflows; a negative `charcnt`, which is undefined behaviour in C++, counts as missing data.
- TimerQueue.TimerQueue.AddTimer: takes the number from the timer it has made; in a thread other than the loop's the C++ code reads it back after the hand-over, for which see `TimerRuns.IdReadBack`.
- The wall clock stepping back: one clock that does not go back serves `Timestamp::now` and the timerfd, and it is past 1970.
- `addTime`'s multiplication of a double: an interval is its microsecond count.
- Growth of epoll's event array, poll timeouts and `EINTR`: a poll may return at any time with any subset of the ready channels.
- `Channel::handleEvent` and tying: callbacks are arbitrary steps.
- kqueue branches, sockets, logging, exceptions, stack traces, thread wrappers, `formatSI`/`formatIEC` and double output: system calls and floating point.
- The TZ string of a TZif footer: kept as bytes, as in `TimeZone::Data`.
- Destroying a loop or a timer queue: a race documented in its comments, and a plain deletion of all timers.
