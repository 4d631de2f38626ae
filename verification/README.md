# Verified models of the ert runtime's stateful cores

This project models the parts of the ert library whose correctness is not visible in any one
function, and proves what they promise:

| file | what it models |
|---|---|
| `SigMutex.dfy`, `SigMask.dfy` | the recursive, signal blocking mutex of `src/thread.c`: every interleaving of any number of threads, spurious wakeups included; and one thread's signal mask through nested critical sections |
| `ForkChannel.dfy`, `ForkRuns.dfy` | the handshake between `ert_forkProcessChild` and its child: two processes, a bounded pipe, two bells, failures of every operation, and kills |
| `ErrorFrame.dfy`, `ErrorStack.dfy` | the two error frame stacks of a thread: the operations on values, and the classes with chunks as arrays written in place that are proved to compute them |
| `ErrorRuns.dfy`, `ErrorReads.dfy`, `ErrorMisses.dfy`, `ErrorPreserve.dfy`, `ErrorFreeze.dfy`, `ErrorFail.dfy` | any sequence of stack operations: numbering, reading forwards and backwards and where that goes wrong, what a pop gives back, and frames on the wire |
| `FdSet.dfy`, `FdClear.dfy`, `FdClose.dfy` | the interval set of descriptors edited in place, its clear walk over a heap of nodes, and the bulk closing loops |
| `EventLatch.dfy`, `EventRuns.dfy`, `EventSettings.dfy` | event latches and the event pipe that wakes their poller, as classes and as runs |
| `Deadline.dfy`, `IntervalTimer.dfy` | deadlines that start afresh after the process was stopped, and shortening an interval timer |
| `ParseCsv.dfy` | the in-place splitter of comma separated arguments |
| `Common.dfy`, `Modular.dfy` | shared datatypes and facts about remainders |

Code that updates objects or buffers step by step is modelled by classes and methods with loops.
Each method is proved equal to a specification function, and the lemmas are about that function.
The mutex and the fork handshake are state machines over their steps; a run is any sequence of
enabled steps.  The clock, signals, callbacks and the results of system calls are inputs.

Some things the library does are not what its comments or its users would expect.  For each of them
there is the exact condition, as an if-and-only-if, and an example:

- A forked child that fails in `setsid`, `setpgid` or `resetSignals_` has not yet closed its own
  copies of the parent's ends (src/process.c:2194-2216).  It then waits for an acknowledgement that
  only it could send, and the parent waits for it to exit (`ForkChannel.StuckIff`,
  `ForkChannel.EarlyFailureHangs`, `ForkChannel.HangReached`).
- `ert_ownErrorFrame_` always steps from the tail's chunk to the one before it
  (src/error.c:637-640).  In a sequence with as many frames as places from head to tail it finds a frame
  exactly when no more frames are counted back than lie in those two chunks
  (`ErrorReads.LookupStraightIff`, `ErrorMisses.LookupMisses`).
- It does not look at which stack it was asked about (src/error.c:611-624;
  `ErrorReads.OwnedRightIff`, `ErrorMisses.OwnedMisses`).
- A sequence that runs out of room after a restart or a pop has taken it back to an earlier chunk
  goes on at the end of the chunk list, while the visitor goes on in the next chunk.  Head, tail and
  offset tell whether that has happened (`ErrorReads.VisitExactIff`, `ErrorMisses.VisitMisses`).
- `ert_resetEventPipe`, called while a bound latch has news, loses the wakeup
  (`EventRuns.ResetPipeKeepsIff`, `EventRuns.ResetPipeLosesWakeup`).
- The pipe stays set when a latch's callback fails, so that it is polled again
  (src/eventpipe.c:250-252), but that latch was reset before its callback (src/eventlatch.c:371-397):
  the next poll calls back only for the latches after it (`EventRuns.FailedCallbackLosesNews`,
  `EventRuns.FailedCallbackForgotten`).
- `ert_closeFdOnlyBlackList` also closes descriptors beyond the limit, unless the limit itself is in
  the set (`FdClose.BeyondLimitIff`, `FdClose.BeyondLimitCloses`).
- `ert_closeFdDescriptors` keeps the descriptor limit in an int (src/fd.c:394-396) and, when the limit is
  wider, reports success although descriptors beyond what is left of it stay open
  (`FdClose.CutLimitIff`, `FdClose.CutLimitLeavesOpen`).
- `ert_ownDeadlineExpired` keeps answering true when a later check fails with another error; the
  comment at src/deadline.c:134-145 says otherwise (`Deadlines.ExpiredIff`,
  `Deadlines.ExpiredOutlivesError`).
- A timer with less than a microsecond left is disarmed by `ert_shortenIntervalTime`
  (`IntervalTimer.ArmedIff`, `IntervalTimer.ArmedTimerLost`).
- Releasing two signal mutexes in the order they were taken, not the reverse, leaves the thread's
  signals blocked (`SigMask.OverlapRestoresIff`, `SigMask.OverlapBlocksAll`).

## Model

| member | source | states |
|---|---|---|
| SigMutex.MutualExclusion | src/thread.c:963-1039 | in every run at most one thread has taken the mutex more often than it gave it up, counting its completed calls and the one under way; `mLocked` is by how much, and it is zero exactly when there is no such thread |
| SigMutex.DepthCounts | src/thread.c:971-1039 | the depth of a thread is its completed lock calls less its completed unlock calls, one more or less while a call is between taking or giving up the mutex and its end |
| SigMutex.CallsOpen | src/thread.c:963-1060 | outside any call a thread may lock, query, and unlock exactly when it has the mutex |
| SigMutex.AnyDepthReached | src/thread.c:971-998 | runs reach any nesting depth |
| SigMutex.NoSleeperStranded | src/thread.c:971-993 | in every run, whenever the mutex is free and some waiter sleeps, another thread is about to signal, is awake or is testing the mutex; and a waiter is awake if the inner mutex is free, too |
| SigMutex.StuckOnlyOnHolder | src/thread.c:963-1039 | when no thread can go on without a new call and some call is unfinished, a thread outside any call has the mutex |
| SigMutex.SignalsBlocked | src/thread.c:971-998 | while a thread holds the mutex all its signals are blocked |
| SigMutex.MaskRestored | src/thread.c:1013-1035 | however a thread nests its locks, once it is outside again its mask is what it was before the outermost lock |
| SigMutex.EnsuresHold | src/thread.c:1004-1012 | the source's own checks of owner and depth never fail |
| SigMutex.QueryAnswers | src/thread.c:1042-1060 | the query answers how many locks its caller has completed and not undone |
| SigMutex.StepKeepsInv | src/thread.c:963-1060 | every step of every thread keeps the invariant behind these results |
| SigMask.SigThread.Lock | src/thread.c:971-998 | locking blocks all signals and keeps the mask of the outermost lock in the mutex |
| SigMask.SigThread.Unlock | src/thread.c:1013-1035 | only the last unlock puts back the mask the mutex kept |
| SigMask.NestingRestoresMask | src/thread.c:1004-1039 | any properly nested sections over any mutexes leave the mask as they found it |
| SigMask.InsideBlocked | src/thread.c:771-805 | all signals are blocked after the outermost lock, and after every lock and unlock inside it, at every depth |
| SigMask.OverlapRestoresIff | src/thread.c:1013-1035 | two mutexes released in the order they were taken restore the mask exactly when everything was blocked before |
| SigMask.OverlapBlocksAll | src/thread.c:1013-1035 | a thread with nothing blocked ends up with everything blocked |
| ForkChannel.OrderNeverViolated | src/process.c:2073-2092 | whitelist close, child method, parent method, blacklist close, acknowledgement, child continues: always a prefix of this order, complete when the child calls its fork method |
| ForkChannel.BothOrNeither | src/process.c:2272-2450 | in a run without kills, when both are done the child called its fork method exactly when the parent returned its pid, and exactly when no move found a failure where the source checks a result; else the child exited and was reaped |
| ForkChannel.FailedIff | src/process.c:2031-2268 | the failure the model remembers is that of some move of the run |
| ForkRuns.NothingSkipped | src/process.c:2031-2268 | a parent that returns the pid, and a child that calls its fork method, have done every operation on their path, in order and nothing else |
| ForkRuns.FramesArrive | src/process.c:1921-1947 | a parent that fails in a run without kills, and in which nothing failed in the parent itself, has read the child's result code and all of its error frames |
| ForkRuns.PipeBounded | src/process.c:1879-1947 | the pipe never holds more than its capacity |
| ForkChannel.NeitherRunsAhead | src/process.c:2153-2268 | at any moment, kills included: a child in its fork method has a parent past its acknowledgement, and a returned pid means the acknowledgement is on its way or taken |
| ForkChannel.ReceivedIsSent | src/process.c:1879-1947 | what the parent has read and then what is in the pipe is exactly what the child has sent of its message |
| ForkChannel.StuckIff | src/process.c:2171-2268 | when neither process can move both are done, unless a move of the run failed the child's setup before it closed the parent's ends and none killed the child |
| ForkChannel.EarlyFailureHangs | src/process.c:2194-2216 | in any run without kills in which the child failed that early, whoever moved first, neither it nor its parent is done |
| ForkChannel.HangReached | src/process.c:2171-2268 | for every capacity and payload a run in which only that fails and both processes end up waiting for ever |
| ForkChannel.SuccessReached | src/process.c:2031-2268 | for every capacity and payload a run that ends with the pid returned and the child in its fork method |
| ForkChannel.RunsEnd | src/process.c:1879-1976 | no run is longer than a measure of its state, so runs that are not cut short end |
| ForkChannel.AllWellSucceeds | src/process.c:2031-2268 | if no move finds a failure and none is a kill, any schedule and any pipe capacity end with the pid returned and the child in its fork method |
| ForkChannel.NextKeeps | src/process.c:1879-2268 | every move of either process, and every kill, keeps the invariant behind these results |
| ErrorStacks.FrameStack.AddFrame | src/error.c:482-509 | the frame is written where the tail is, after growing the list if the chunk is full, and nothing else changes; what the frame holds is ErrorRuns.FrameRecorded |
| ErrorStacks.FrameStack.Visit | src/error.c:656-688 | the visitor shows the frames at the positions that the chunk list leads to |
| ErrorStacks.FrameStack.OwnFrame | src/error.c:611-650 | the lookup loop ends, and points into the tail's chunk or the one before it at a place told in closed form |
| ErrorStacks.ErrorStack.constructor | src/error.c:396-428 | two fresh stacks, numbered 1 and 0, and a counter at 2 |
| ErrorStacks.ErrorStack.Add | src/error.c:482-509 | adding changes the current stack only, as its specification says; what it records is the next row |
| ErrorRuns.FrameRecorded | src/error.c:482-509 | after a frame is added in any run, the frame just before the tail is the one given, with its errno, and with the number given or else the thread and the number of the current sequence |
| ErrorStacks.ErrorStack.Restart | src/error.c:513-524 | restarting a sequence that holds frames takes a new number from the shared counter |
| ErrorStacks.ErrorStack.Push | src/error.c:527-549 | the caller gets the head and tail as they were, and a new sequence starts at the tail |
| ErrorStacks.ErrorStack.Pop | src/error.c:552-565 | head and tail become what the push saved, and the counter may go back |
| ErrorStacks.ErrorStack.Switch | src/error.c:568-579 | the other stack becomes current, nothing else changes |
| ErrorRuns.NextKeeps | src/error.c:482-579 | every operation on either stack keeps the whole invariant: where each live and saved sequence lies, what it holds and how it is numbered |
| ErrorRuns.NumbersFresh | src/error.c:513-565 | a new sequence's number is found on no frame recorded before, and belongs to no other live or saved sequence, although pops take the counter back |
| ErrorRuns.UsedAre | src/error.c:482-509 | the numbers the invariant remembers are exactly those found on the frames recorded without one |
| ErrorRuns.PushPopUndone | src/error.c:527-565 | a pop straight after a push leaves everything as it was, the counter too |
| ErrorRuns.CounterGivenBack | src/error.c:552-565 | a push, any number of frames and the pop use up one number, or none if there were no frames |
| ErrorRuns.NumbersDistinct | src/error.c:513-565 | all live and saved numbers of both stacks differ and lie below the counter, and so do those found on frames |
| ErrorRuns.RollbackNumbered | src/error.c:552-560 | giving a number back to the counter never frees one that is in use |
| ErrorPreserving.PushPopRestores | src/error.c:527-565 | after any run between a push and its pop the stack's head, tail, offset and number are as before, and so is every frame before the tail |
| ErrorPreserving.PushPopReadsSame | src/error.c:656-688 | the visitor shows the same for every sequence that was live or saved at the push, wherever chunks were added since |
| ErrorPreserving.HandlerLeavesThread | src/process.c:185-226 | a signal handler on its own stack leaves the interrupted thread's stack untouched |
| ErrorReads.VisitExactIff | src/error.c:656-688 | in any run the visitor can walk each sequence, and visits the places written exactly when its length is the number of places from its beginning to its end, which is when it grew only from the last chunk; then it shows its frames in order |
| ErrorReads.VisitNotAhead | src/error.c:668-674 | the visitor never gets ahead of the places written |
| ErrorMisses.VisitMisses | src/error.c:493-501 | for every capacity: cap + 1 frames, a restart and cap + 1 frames again, and the last frame shown is the last of the first sequence |
| ErrorReads.LookupStraightIff | src/error.c:611-650 | when the offset is the number of places from the head to the tail, frame k is found exactly when offset - k is at most the tail's place in its chunk plus a chunk's capacity |
| ErrorReads.LookupExactIff | src/error.c:611-650 | in any run, also with places left out, frame k is found exactly when it was written in the tail's chunk or the one before it in the list; and the source's assertion never fails |
| ErrorMisses.LookupMisses | src/error.c:637-648 | for every capacity: of 2 cap + 1 frames the first is asked for, and frame cap is found |
| ErrorStacks.ErrorStack.OwnErrorFrame | src/error.c:611-650 | the frame of the current stack, whichever was asked for |
| ErrorReads.OwnedRightIff | src/error.c:611-624 | for the current stack, with no places left out, the answer is right exactly when frame k is within reach or absent, for the other one exactly when neither stack has a frame k |
| ErrorMisses.OwnedMisses | src/error.c:611-624 | a reached state in which the thread's frame is asked for and the signal handler's is found |
| ErrorFreezing.Freeze | src/error.c:692-740 | puts the length and then every frame the visitor shows on the wire, as far as there is room; if that is not all of it, fails and records which calls failed, with the errno of the write that failed or EIO if one fell short |
| ErrorFreezing.ThawOnto | src/error.c:787-820 | reads all or nothing and restarts the current sequence; adds the frames read, or those that record the failure of a read, outright or short; result and errno |
| ErrorFreezing.DecodeEncode | src/error.c:692-820 | what was frozen is read back, whatever follows on the wire |
| ErrorFailing.CutShortFails | src/error.c:747-784 | a wire that breaks off at any byte, also inside a frame, fails: with the errno of the break if that is between two items, else with EIO; and the run goes on with a restart and the frames of that failure, none of the wire's |
| ErrorFailing.FreezeFails | src/error.c:692-740 | a wire without room for all of a sequence: the run goes on with a restart and the frames of the calls that failed, with the errno of the write if it is refused between two items, else with EIO |
| ErrorFreezing.FreezeThaw | src/error.c:692-820 | freezing any sequence of any run and thawing it on any other stack continues that run with the frames the visitor showed, their errno and numbers, and errno is that of the last; they are the frames recorded when no places were left out |
| FdSets.FdSet.InsertRange | src/fdset.c:327-401 | succeeds exactly when no descriptor of the range is in the set and memory suffices; success is exact union, failure changes nothing, the ranges stay canonical |
| FdSets.FdSet.RemoveRange | src/fdset.c:405-494 | succeeds exactly when every descriptor of the range is in the set (and, for a range cut in two, memory suffices); success is exact difference, failure changes nothing |
| FdSets.FdSet.Invert | src/fdset.c:192-278 | both in-place sweeps end with the complement's ranges |
| FdSets.ComplementCanonical | src/fdset.c:192-278 | those ranges are sorted, disjoint and not adjacent |
| FdSets.ComplementCovers | src/fdset.c:192-278 | they hold exactly the descriptors of 0..INT_MAX that the set did not |
| FdSets.InvertTwice | src/fdset.c:192-278 | inverting twice gives the identical list of ranges |
| FdSets.InvertAllocatesIff | src/fdset.c:192-278 | inverting needs memory exactly when there are more gaps than ranges |
| FdSets.CanonicalUnique | src/fdset.c:327-494 | a canonical list is determined by the set it stands for |
| FdSets.InsertThenRemove | src/fdset.c:405-494 | removing what was just inserted gives back the identical list |
| FdSets.ContainedInOneRange | src/fdset.c:550-568 | a range whose descriptors are all in the set lies in one of its ranges |
| FdSets.HolderExact | src/fdset.c:405-440 | the tree search of remove fails exactly when some descriptor is missing |
| FdSets.Contains | src/fdset.c:550-568 | the answer is non-zero exactly for containment, and tells which ends agree |
| FdClear.Clear | src/fdset.c:126-188 | the walk ends, frees every node of any binary tree once in post order, and reads no node it has freed |
| FdClear.EachOnce | src/fdset.c:126-188 | post order names every node exactly once and nothing else |
| FdClear.ChildrenFirst | src/fdset.c:126-188 | and every child before its parent |
| FdClose.FdWhiteListVisitor.Visit | src/fd.c:217-262 | closes exactly what lies between where it had got and the range, and stops at the limit |
| FdClose.CloseExceptWhiteList | src/fd.c:264-299 | closes exactly the valid descriptors below the limit outside the set; with a limit beyond INT_MAX never reports success, and how far it gets |
| FdClose.CloseOnlyBlackList | src/fd.c:307-368 | for any limit closes no descriptor outside the set; of those inside, all if the limit is not in the set, else those below it |
| FdClose.BeyondLimitIff | src/fd.c:307-368 | something at or beyond the limit is closed exactly when the limit is not in the set and the set holds an open descriptor there |
| FdClose.BeyondLimitCloses | src/fd.c:307-368 | for every limit and every descriptor beyond it there is such a set |
| FdClose.WhiteListIsInvertedBlackList | src/fd.c:264-368 | closing all but a set and closing its inverse agree exactly under the stated condition |
| FdClose.CloseDescriptors | src/fd.c:382-458 | closes the valid descriptors below the limit, cut down to an int, that are not in the list, duplicates and negative numbers included; aborts exactly when an element reaches that limit |
| FdClose.CutLimitIff | src/fd.c:389-396 | so all below the limit are closed exactly when none is open from the cut down limit on |
| FdClose.CutLimitLeavesOpen | src/fd.c:389-396 | a limit for which a descriptor stays open |
| FdClose.ListIsWhiteList | src/fd.c:382-458 | the list form and the set form of a request leave the same descriptors open |
| EventLatches.EventPipe.Set | src/eventpipe.c:86-124 | an unsignalled pipe gets its byte unless interrupted |
| EventLatches.EventPipe.Reset | src/eventpipe.c:128-164 | a signalled pipe loses its byte unless interrupted |
| EventLatches.EventLatch.Set | src/eventlatch.c:250-286 | only a latch that is off wakes its pipe and goes on |
| EventLatches.EventLatch.Disable | src/eventlatch.c:211-247 | a latch is disabled once, and wakes its pipe; what that means over runs is EventSettings.DisabledForGood |
| EventLatches.EventLatch.Bind | src/eventlatch.c:137-189 | leaves the old pipe's list, joins the new one's and wakes it if the latch is not off |
| EventLatches.EventLatch.Poll | src/eventlatch.c:359-409 | the callback is told of a latch that is on, and once of one that is disabled |
| EventLatches.PollPipe | src/eventpipe.c:217-275 | polls the listed latches until a callback fails; drains the pipe only when none did; what it returns |
| EventRuns.NoWakeupLost | src/eventlatch.c:107-409 | in every reachable state a pipe holds one byte or none as its flag says, a bound latch with news has its byte in the pipe, and no latch was reported disabled twice |
| EventSettings.SettingsFollow | src/eventlatch.c:107-409 | in every run: a latch starts off, is on from a set to a reset or a poll that gets to it, and is disabled for good from a disable; nothing else changes its setting |
| EventSettings.DisabledForGood | src/eventlatch.c:211-247 | whatever a latch was and whatever comes after, once disabled it stays so; its pipe has a byte until a poll reports it, and the first poll that gets to it does, once |
| EventSettings.BindingsFollow | src/eventlatch.c:137-208 | in every run a latch is bound to the pipe of its last bind until it is unbound, and a pipe lists exactly the latches bound to it, each once |
| EventSettings.PipesFollow | src/eventpipe.c:105-275 | in every run a pipe holds its byte from the event that wakes it to the poll that drains it |
| EventSettings.AwakeIffNews | src/eventpipe.c:105-275 | when only latches wake it, none is unbound or reset behind its back, and polls get to the end, a pipe holds its byte exactly when a latch on its list has news |
| EventRuns.PollTellsAll | src/eventpipe.c:217-275 | from any reachable state a poll in which no callback fails tells of every bound latch with news, and counts them; only then is the pipe drained |
| EventRuns.PollEachStops | src/eventlatch.c:371-397 | a poll takes the news of the latches up to and including the first whose callback fails, and leaves those after it as they were |
| EventRuns.FailedCallbackLosesNews | src/eventpipe.c:247-262 | after a poll cut short from any reachable state the pipe is still set, and the next poll calls back exactly for the latches after that one that had news |
| EventRuns.FailedCallbackForgotten | src/eventpipe.c:247-262 | a reached latch that is on, whose callback fails and of which the next poll tells nothing |
| EventRuns.KeptByNext | src/eventlatch.c:107-409 | every operation, polls cut short included, keeps the invariant behind these results |
| EventRuns.ResetPipeKeepsIff | src/eventpipe.c:166-189 | a public reset keeps it exactly when no latch bound to the pipe has news |
| EventRuns.ResetPipeLosesWakeup | src/eventpipe.c:166-189 | otherwise a reachable latch stays on, setting it again wakes nobody and polls see nothing |
| EventRuns.PollEachIsPollFrom | src/eventpipe.c:227-245 | polling in runs and the polling loop of the classes are the same |
| Deadlines.Deadline.CheckExpired | src/deadline.c:70-160 | one check: fields and reply as the step function says; what they are in any run is the next two rows |
| Deadlines.RepliesIff | src/deadline.c:70-160 | which reply every check of every run gives: ready, not ready, timed out or failed, from what the poll and the wait found, the time since the mark and the SIGCONTs since the last fresh start |
| Deadlines.Tracks | src/deadline.c:70-160 | the fields after any run: latched time, mark and tracker, from the clock and the signal counts of its checks alone |
| Deadlines.TimeoutIff | src/deadline.c:86-115 | a check times out exactly when the whole duration has passed since the earlier check that set the mark and the number of SIGCONTs since the last fresh start is a multiple of 2^31 |
| Deadlines.TimeoutMeansUninterrupted | src/deadline.c:86-115 | with fewer signals than that, none was delivered between the mark and the report |
| Deadlines.WaitsNoLonger | src/timekeeping.c:278-329 | what the wait method is given is exactly what is left of the duration |
| Deadlines.ExpiredIff | src/deadline.c:163-168 | the expired flag tells whether any check so far timed out |
| Deadlines.ExpiredOutlivesError | src/deadline.c:134-145 | for every duration a run in which a check times out, a later one fails otherwise, and the flag is still set |
| Deadlines.FetchEqual | src/process.c:584-619 | the tracker sees signals unless a multiple of 2^31 came |
| IntervalTimer.ShortenedValue | src/timescale.c:178-210 | the shortened value is the exact remaining time less the part below a microsecond |
| IntervalTimer.ShortenIsAction | src/timescale.c:178-210 | shortening by a and then b is shortening by a + b |
| IntervalTimer.ShortenIsActionIff | src/timescale.c:178-210 | the exact condition on a for that to hold for all b |
| IntervalTimer.PhaseKeptIff | src/timescale.c:178-210 | the shortened timer fires exactly when the old one would have, exactly when nothing below a microsecond was dropped |
| IntervalTimer.PeriodicStaysArmed | src/timescale.c:190-204 | a periodic timer that has expired is due within one period |
| IntervalTimer.ArmedIff | src/timescale.c:146-154 | the result is armed exactly when at least a microsecond is left |
| IntervalTimer.ArmedTimerLost | src/timescale.c:146-154 | so a timer that has not fired can come back disarmed |
| ParseCsv.SplitJoin | src/parse.c:198-269 | splitting undoes joining exactly for lists of trimmed, comma free words other than one empty word |
| ParseCsv.WordsArePlain | src/parse.c:198-269 | every word is trimmed and free of commas, and the result is never one empty word |
| ParseCsv.ParseArgList.CreateCsv | src/parse.c:189-269 | the vector holds exactly the trimmed pieces of the argument, none for a blank one, and ends with a null pointer |
| ParseCsv.CutWord | src/parse.c:221-257 | one turn of the loop cuts off and trims the first piece in place, the rest of the buffer is untouched |
| ParseCsv.CutAll | src/parse.c:216-262 | the loop ends with as many words as were counted, at the end of the string: the source's checks never fail |
| ParseCsv.PieceCount | src/parse.c:203-210 | there is one piece more than there are commas |

## Left out

- FdSets.FdSet: the red-black tree is an ordered sequence, an element is an index and its neighbours are the indices beside it; rebalancing and node identity are not modelled. The clear walk has its own heap model.
- FdSets.FdSet.InsertRange: memory exhaustion is one flag, and errors of `calloc` other than ENOMEM do not occur.
- FdSet visiting, printing, filling and file based insertion: they add nothing beyond insert and remove.
- SigMutex: the inner mutex and the condition variable are taken to work as POSIX says; priorities and fairness are not modelled, so no claim that a waiter is ever served.
- SigMask.SigThread.Lock: another thread holding the mutex is the subject of SigMutex only.
- ForkChannel: system calls that fail other than where the source reports a setup, method, descriptor or memory failure; reading and writing the bells and the pipe fail only because the other side is gone. Interruptions are retried by the source and not shown.
- ForkChannel: the details of stdin, stdout and stderr in the parent are one step that succeeds or fails; nested channels, the fork lock and the daemon are not part of this model; neither is which signal ends a child that writes to a closed pipe.
- ForkChannel.ReceivedIsSent: the error frames are opaque bytes here; their encoding is the subject of ErrorFreezing, and the parent knows from the encoded length when it has them all.
- ErrorFrames: counters are unbounded; a wrap of the unsigned sequence index is not modelled. The capacity of a chunk is the same for all chunks.
- ErrorFreezing: which byte of a structure holds which part of a field is not modelled, so bytes that are not the image of an item do not thaw, where the source would take them for some frame; the names inside a frame are one opaque number.
- FdClose.CloseExceptWhiteList: INT_MAX in the set, or left over when the limit is cut down to an int, while the limit is beyond INT_MAX: the source's sum then overflows, which C does not define.
- FdClose: the conversion of a limit beyond INT_MAX to int keeps the low 32 bits, as the compilers the source is built with define it.
- EventLatches: each public operation is atomic. Set takes latch then pipe and poll takes pipe then latch, so nothing is claimed about deadlock. One-byte transfers fail only with EINTR, and callbacks do not touch latches of the pipe being polled.
- EventRuns: closing latches and pipes; the source checks that nothing is bound then.
- Deadlines: marks in the future, and a clock that goes back.
- Deadlines.TimeoutIff: the counter of SIGCONTs is taken as stored before the fetch reads it; watchers of the signal are not modelled.
- IntervalTimer.ShortenIsAction: timers whose nanoseconds do not fit 64 bits.
- ParseCsv: allocation failure, and `isspace` in locales other than C.
- `src/fileeventqueue.c` counters, job control, `/proc` parsing, message printing, error injection, options and environment helpers.
