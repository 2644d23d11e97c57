# Metreja: a verified model of the profiler's call tracking and its analysers

Metreja's native profiler keeps a shadow of each managed thread's call stack, turns it into an
enter/leave trace or into in-process statistics, and writes both through a buffered NDJSON writer.
Its command line tool replays such files.  This project models that pipeline in Dafny and proves
what it is relied on for.

Everything is tied to one specification, the *call forest* (`CallForest.dfy`): the tree of
activations that really happened on a thread, with their times.  The profiler is proved to emit
and record exactly that forest, on exactly the runs on which it does; the offline analysers are
proved to compute the right numbers from it; `EndToEnd.dfy` joins the two.

## The parts

| file | models |
|---|---|
| `ShadowStack.dfy` | `ThreadCallStack` and the enter, leave and exception callbacks, as a class proved against functions on a value |
| `Runtime.dfy` | the managed runtime as a nondeterministic step system: frames, calls, returns, two-phase exceptions, and the callback each step triggers in the session at hand |
| `EventFields.dfy` | every event field by field, and what the session's switches take out |
| `CallForest.dfy` | the true history of a thread, the trace it determines (`Emit`) and the calls it determines (`Recorded`) |
| `Timing.dfy` | what running time does to a history: its trace is in order and calls cover the calls inside them |
| `Monitoring.dfy` | what a session that does not monitor exceptions loses, exactly |
| `Refinement.dfy` | exactly when the shadow stack is the true stack |
| `Faithfulness.dfy` | exactly when trace and recorded calls are the true history |
| `Tallies.dfy` | exactly when call counts and inclusive times are those of the true history |
| `Conservation.dfy` | where the time goes, with and without that condition |
| `AsyncNesting.dfy` | exactly when async nesting counts agree with the stack |
| `MethodCache.dfy` | concurrent resolution of functions: first writer wins |
| `Counterexamples.dfy` | the smallest runs on which accounting goes wrong |
| `StatsAggregator.dfy` | concurrent recording and swap-and-merge flushing |
| `FlushLoop.dfy`, `PalWait.dfy` | the flush thread and the polling multi-wait under it |
| `NdjsonWriter.dfy`, `EventCap.dfy` | the buffered writer, and its event cap under races |
| `Hotspots.dfy`, `Threads.dfy`, `CallTree.dfy`, `EventReader.dfy` | the offline analysers |
| `Lockstep.dfy`, `EndToEnd.dfy` | offline replay equals in-process statistics, thread by thread and for whole sessions |
| `NdjsonMerger.dfy`, `TracePaths.dfy` | merging per-process traces, and finding them |
| `Utf8.dfy`, `MetadataCodec.dfy`, `Clock.dfy` | name conversion, metadata compression, tick conversion |
| `Accumulators.dfy`, `Trace.dfy`, `Options.dfy` | shared vocabulary and the algebra of accumulators |

## Assumptions

The runtime model (`Runtime.Enabled`, `Runtime.Next`) is the well-formedness of callback sequences:
timestamps are positive and never decrease on a thread; every exception is caught by a frame of the
thread's own stack, of an included method or not; its unwind visits every frame from the throw down
to and including the catcher, once each; no hooked code runs and nothing else is thrown between the
callbacks of one unwind; and a function's metadata is in the method cache, where it stays
(`MethodCache.DecisionsNeverChange`), before the function runs.  Enter and leave hooks are on, as they
are in every session with an event that needs the call stack
(`src/Metreja.Profiler/Profiler.cpp:174-181`); the exception callbacks arrive only in a session with
`exception` or `exception_stats` events (`Profiler.cpp:183-185`, `Config.exceptionsOn`).  Locks and
atomics are sequentially consistent steps.  The file handle is valid and writes succeed.  Timestamps, durations
and counters are unbounded integers except where a width matters (`Clock`, `FlushLoop`, `PalWait`,
`MetadataCodec`).

## What the code does not meet, and when it does

* Without `exception` or `exception_stats` among its events a session does not hear of exceptions.
  Every included activation that an unwind ends stays on the shadow stack for good, its leave event and
  recorded call never come, and later leaves are timed as those of other calls
  (`Monitoring.LostCounts`; `Counterexamples.CaughtUnheard`).  In such a session stack, trace and recorded
  calls are right if and only if no throw finds an included activation above its catcher
  (`Monitoring.KeptIff`, `Refinement.StackRefines`, `Faithfulness.FaithfulTrace`, `FaithfulRecords`).
* In a session that hears of them, a deferred activation of the catcher's method is completed late when a
  frame of another included method is unwound in between.  Trace and recorded calls are the true history if
  and only if every throw finds a *contiguous* stack, which can be read off the stack at the throw
  (`Faithfulness.FaithfulTrace`, `FaithfulRecords`; `Counterexamples.CaughtAcrossAnother`).  The
  stack itself is right regardless (`Refinement.CatcherOnTop`), and so are call counts and inclusive times
  (`Tallies.CallsTrueIff`): what goes wrong is the order of events, their depths (`Lockstep.DepthsIff`) and
  self times, where replay and recorded calls may then differ from each other too
  (`Counterexamples.OfflineDisagrees`).
* Agreement is not truth: without monitoring, replay and recorded calls agree in every run
  (`EndToEnd.ThreadAgrees`) and the clamp never fires (`Conservation.NeverClamps`), however much was lost.
* Deferring an async activation lowers its nesting count although it stays on the stack when it is
  the catcher; not hearing of an unwind leaves the count of those it ended.  The counts agree with the stack
  if and only if no async state machine catches, in a session that monitors exceptions, and none is
  unwound, in one that does not
  (`AsyncNesting.AsyncAgreesIff`; `Counterexamples.AsyncCaught`, `AsyncUnheard`).
* The event cap is soft: with T writing threads up to T - 1 events more are written, and no fewer
  can be promised (`EventCap.CapHolds`, `CapReached`).
* A flush interval above 4294967 seconds wraps; some wrapped intervals lose periodic flushes, and
  the multiples of 2^29 seconds become an interval of 0, for which the POSIX loop never notices
  shutdown (`FlushLoop.OnTimeIff`, `StopsIff`, `PalWait.NoticesShutdownIff`).
* The second pass of the call tree collects the first call at the selected depth that is entered in
  the selected window.  For a selected call that took time this is the selected one if and only if no
  earlier call at its depth starts at the instant it does; if it is another, that other took no time
  (`CallTree.CollectsSelectedIff`, `CollectsFirstInWindow`; `EqualTimestampsMislead`).
* Merging sorts by timestamp alone.  Any choice of lines keeps its order in every sort if and only if
  the lines are in timestamp order and those with equal timestamps are equal
  (`NdjsonMerger.KeepsSelectedIff`; `MayCross`).  The lines of one thread are, if its timestamps
  strictly increase.  Those of a whole process seldom are, because its threads read the clock before
  they take the writer's lock and statistics lines carry timestamp 0; the replay does not mind
  (`MergedReplays`).  A thread with two equal timestamps may lose a call (`TieLosesCall`).
* Timestamps of different ticks differ if and only if the clock runs at 1 GHz or less
  (`Clock.StrictIff`).
* A `{pid}` in the directory part is expanded by the profiler, and the tool then does not find the
  traces: it finds them if and only if the placeholder is in the file name below some directory and
  nowhere else (`TracePaths.FindsEveryProcess`).
* A file holding both enter/leave events and statistics lines is counted twice
  (`EndToEnd.BothStreamsDouble`).

A run is called *clean* below if every throw meets the condition of the first or second point, whichever
applies to its session (`Faithfulness.Clean`).

The comment on `ThreadCallStack` (`src/Metreja.Profiler/CallStack.h:23-27`) says the last deferred
entry is the catcher and earlier ones are completed when a later match is found; that is what the
code does and what is modelled, also where the result is not the true history.

## Model

| member | source | states |
|---|---|---|
| ShadowStack.ThreadProfiler.constructor | src/Metreja.Profiler/CallStack.h:18-39 | a thread starts with an empty stack, no catcher, nothing deferred and no async counts |
| ShadowStack.ThreadProfiler.Push | src/Metreja.Profiler/CallStack.cpp:21-28 | one entry without children time is added on top |
| ShadowStack.ThreadProfiler.Pop | src/Metreja.Profiler/CallStack.cpp:30-39 | the top entry comes off, or the zero entry when there is none |
| ShadowStack.PoppedMeans | src/Metreja.Profiler/CallStack.cpp:30-39 | what is taken off, put back on top, gives the stack again; of an empty stack an entry without function and time |
| ShadowStack.ThreadProfiler.CreditParent | src/Metreja.Profiler/CallStack.cpp:41-49 | only a positive time, and only to the top entry |
| ShadowStack.ThreadProfiler.DecrementAsyncNesting | src/Metreja.Profiler/Profiler.cpp:478-501 | one level less; the last level gives the time since the first enter and forgets it |
| ShadowStack.ThreadProfiler.EnterStub | src/Metreja.Profiler/Profiler.cpp:921-949 | the whole thread state after an enter, as a function of the state before |
| ShadowStack.ThreadProfiler.ProcessLeave | src/Metreja.Profiler/Profiler.cpp:951-986 | the whole thread state after a leave or tail call |
| ShadowStack.ThreadProfiler.FinalizeDeferredUnwind | src/Metreja.Profiler/Profiler.cpp:505-535 | a pending entry is completed at its own time, against whatever is on top now |
| ShadowStack.ThreadProfiler.ExceptionSearchCatcherFound | src/Metreja.Profiler/Profiler.cpp:536-553 | a pending entry is completed and the catcher's function remembered |
| ShadowStack.ThreadProfiler.ExceptionUnwindFunctionEnter | src/Metreja.Profiler/Profiler.cpp:556-624 | a frame of the catcher's function is deferred, any other is completed |
| ShadowStack.ThreadProfiler.ExceptionCatcherEnter | src/Metreja.Profiler/Profiler.cpp:628-648 | the deferred entry is back on top and the search is over |
| CallForest.BeginExtends | src/Metreja.Profiler/Profiler.cpp:931-948 | a call that begins adds one enter event at its depth and no record |
| CallForest.EndExtendsTrace | src/Metreja.Profiler/Profiler.cpp:961-985 | a call that ends adds one leave event with the depth of its own enter and its own time |
| CallForest.EndExtendsRecorded | src/Metreja.Profiler/Profiler.cpp:961-979 | a call that ends adds one record: its inclusive time, and that minus its children's |
| EventFields.CallSays | src/Metreja.Profiler/Profiler.cpp:931-948 | in any state a call of a function marked included, and no other, writes one enter event if enter events are on: its time, its thread, the depth of the shadow stack, the four names and the async mark of the metadata |
| EventFields.ReturnSays | src/Metreja.Profiler/Profiler.cpp:951-985 | in every run a return writes, if leave events are on, one leave event: depth and delta of the entry it takes off, a delta of 0 with deltas off, the tail call mark exactly for a tail call, the names and async mark of the metadata, and no wall time unless async |
| EventFields.ReturnRecords | src/Metreja.Profiler/Profiler.cpp:959-979 | in every run a return records, if statistics are on, one call with the time since the entry it takes off was pushed, and that minus children's time, cut off at 0 |
| EventFields.UnwindSays | src/Metreja.Profiler/Profiler.cpp:556-624 | in every run a visited frame writes a leave event without tail call mark or wall time: of the pending entry with the time it was visited, if the frame is of the catcher's function, else of the entry it takes off |
| EventFields.CatcherSays | src/Metreja.Profiler/Profiler.cpp:536-553 | in every run finding a catcher and entering its handler write and record nothing |
| EventFields.NothingToClose | src/Metreja.Profiler/CallStack.cpp:30-39 | a leave that finds no entry writes and records a time of 0 |
| EventFields.NoCatcherAtRest | src/Metreja.Profiler/Profiler.cpp:628-648 | outside an exception no catcher is remembered |
| EventFields.LeaveOfHistory | src/Metreja.Profiler/NdjsonWriter.cpp:120-151 | every leave event of a history is about a call of it: its own times, how it ended, its names and marks |
| EventFields.CallEvents | src/Metreja.Profiler/NdjsonWriter.cpp:90-151 | the first and last event of a call, by field |
| EventFields.SwitchesFilter | src/Metreja.Profiler/Profiler.cpp:947-985 | in every run a session writes what it would with enter, leave and statistics all on, less the kinds it did not ask for; stack and all other state are the same |
| Trace.KeySpells | src/Metreja.Tool/Analysis/EventReader.cs:62-65 | a key is namespace, class and method with dots between, without a leading dot when there is no namespace |
| Trace.SameKeyIff | src/Metreja.Tool/Analysis/EventReader.cs:62-65 | methods whose class and method names have no dots share a key if and only if namespace, class and method are the same, whatever their assemblies |
| Runtime.NextKeeps | src/Metreja.Profiler/Profiler.cpp:536-648 | every step of the runtime keeps true stack, open history and nested times consistent |
| Timing.RunWellTimed | src/Metreja.Profiler/Profiler.cpp:921-986 | in every run the history's trace is in timestamp order and every finished call takes at least the time of the calls inside it |
| Monitoring.LostCounts | src/Metreja.Profiler/Profiler.cpp:183-185 | without exception events, at every moment: each included activation an unwind ended is one entry too many on the shadow stack, one event too few in the trace and one record too few |
| Monitoring.KeptIff | src/Metreja.Profiler/Profiler.cpp:183-185 | none is lost if and only if no throw found an included activation above its catcher |
| Refinement.RunShape | src/Metreja.Profiler/Profiler.cpp:505-648 | the invariant that ties shadow stack, deferred entry, catcher and phase to the true stack: over every run of a session that monitors exceptions, and over every run of any other in which no throw finds an included activation above its catcher |
| Refinement.StackRefines | src/Metreja.Profiler/Profiler.cpp:536-648 | in a session that monitors exceptions the shadow stack is at every moment the included part of the true stack with its enter times, the deferred entry put back once the catcher has been visited; in any session it is that outside unwinding if and only if exceptions are monitored or no throw found an included activation above its catcher |
| Refinement.CatcherOnTop | src/Metreja.Profiler/Profiler.cpp:628-648 | after a whole exception the shadow stack is the included part of the stack up to the catcher if and only if that condition holds, and then exactly the catching activation is on top, however many activations of its function were unwound and whatever lay between; without monitoring the thread's state is the one before |
| Faithfulness.RunStatus | src/Metreja.Profiler/Profiler.cpp:505-648 | as long as every throw can be followed (monitored: contiguous; not monitored: no included activation above the catcher) the thread tracks its history; after one that cannot, it has gone wrong for good or is about to |
| Faithfulness.FaithfulTrace | src/Metreja.Profiler/Profiler.cpp:505-648 | for every session, the emitted trace is the trace of the true history if and only if every throw could be followed |
| Faithfulness.FaithfulRecords | src/Metreja.Profiler/Profiler.cpp:505-535 | for every session, the recorded calls are those of the true history if and only if every throw could be followed |
| Faithfulness.ChildrenExact | src/Metreja.Profiler/CallStack.cpp:41-49 | after such a run each entry's children time is the time of that activation's finished calls |
| Conservation.TimeIdentity | src/Metreja.Profiler/Profiler.cpp:961-966 | for any sequence of callbacks whatever: recorded self time = time of outermost completions + children time held by entries + what the clamp cut off |
| Conservation.NeverClamps | src/Metreja.Profiler/Profiler.cpp:963-965 | the clamp cuts off nothing in any run of a session that does not monitor exceptions, and in any clean run of one that does; recorded self time is then outermost time + held time of whatever was recorded |
| Conservation.TimeConserved | src/Metreja.Profiler/Profiler.cpp:600-616 | if every throw could be followed, at every moment, unwinding included: recorded self time = inclusive times of the history's finished outermost calls + children time of open entries, the deferred one included |
| Conservation.SelfTimeOfForest | src/Metreja.Profiler/Profiler.cpp:961-979 | the self times of a forest of calls add up to the inclusive times of its roots |
| AsyncNesting.AsyncStatus | src/Metreja.Profiler/Profiler.cpp:482-501 | the invariant behind the next row: counts agree, or some count has fallen behind the stack (monitored) or run ahead of it (not monitored) |
| AsyncNesting.AsyncAgreesIff | src/Metreja.Profiler/Profiler.cpp:934-945 | nesting counts and first-enter times are those of the stack at every moment outside an unwind if and only if no async state machine caught an exception (monitored) or was above a catcher (not monitored) |
| AsyncNesting.WallTimeIsInclusive | src/Metreja.Profiler/Profiler.cpp:969-985 | while the counts agree, the wall time of an async leave is its own inclusive time for the outermost activation and 0 for inner ones; its delta is its inclusive time while the stack is right |
| MethodCache.DecisionsNeverChange | src/Metreja.Profiler/MethodCache.cpp:11-140 | in every interleaving of resolving threads, whatever their metadata calls gave, once a lookup finds a function every later one finds it with the same metadata |
| MethodCache.ResolvedIsFound | src/Metreja.Profiler/MethodCache.cpp:142-147 | the lookup after resolving always finds the function |
| MethodCache.CachedAsResolved | src/Metreja.Profiler/MethodCache.cpp:125-130 | in every interleaving a function is in the cache if and only if some thread has resolved and inserted it, with exactly what the first one to insert it resolved |
| MethodCache.LookupAnswers | src/Metreja.Profiler/MethodCache.cpp:133-140 | a lookup answers with what the first thread to insert the function resolved, and with nothing if none has |
| MethodCache.ResolvedAnswers | src/Metreja.Profiler/MethodCache.cpp:142-147 | and so does the lookup at the end of resolving, which always has an answer |
| MethodCache.Cache.CheckCached | src/Metreja.Profiler/MethodCache.cpp:13-18 | the check is the step of that name, and tells whether the function still has to be resolved |
| MethodCache.Cache.Emplace | src/Metreja.Profiler/MethodCache.cpp:128-130 | the insertion is the step of that name: the function's entry is the given metadata, unless it had one |
| MethodCache.Cache.ResolveAndCache | src/Metreja.Profiler/MethodCache.cpp:11-131 | the function is cached with the metadata resolved for it, and nothing changes if it was cached before |
| MethodCache.Cache.Find | src/Metreja.Profiler/MethodCache.cpp:133-140 | the lookup is the step of that name, and its answer is the one that never changes again |
| Counterexamples.CaughtAcrossAnother | src/Metreja.Profiler/Profiler.cpp:505-535 | C calls X calls C, the inner C throws, the outer catches: the recorded times, and the true ones |
| Counterexamples.OfflineDisagrees | src/Metreja.Profiler/Profiler.cpp:505-535 | with tracing on, the same run replays to a self time of 11 for C where 38 is recorded |
| Counterexamples.AsyncCaught | src/Metreja.Profiler/Profiler.cpp:586-597 | an async state machine that catches its own exception is on the stack with no count |
| Counterexamples.CaughtUnheard | src/Metreja.Profiler/Profiler.cpp:183-185 | without exception events f calls g, g throws and f catches: the return of f is recorded with the time of g, and the call of g never |
| Counterexamples.AsyncUnheard | src/Metreja.Profiler/Profiler.cpp:183-185 | without exception events an async state machine unwound by a plain catcher stays counted |
| Counterexamples.InstantCalls | src/Metreja.Profiler/Profiler.cpp:921-986 | calls that take no time at all can happen, one after the other in the same instant, the second ended by a tail call |
| StatsAggregator.ThreadStats.RecordMethod | src/Metreja.Profiler/StatsAggregator.cpp:22-37 | the thread's map with one call merged into the function's accumulator |
| StatsAggregator.ThreadStats.SwapOut | src/Metreja.Profiler/StatsAggregator.cpp:74-78 | the thread's map is handed over whole and left empty |
| StatsAggregator.MergeInto | src/Metreja.Profiler/StatsAggregator.cpp:80-88 | for every set of functions, the merged totals and maxima are those of both maps, in whatever order entries come |
| Accumulators.SummaryMeans | src/Metreja.Profiler/StatsAggregator.cpp:22-37 | of any recorded calls: the count is their number, the totals are the sums of their inclusive and self times, and each maximum is at least every one of them and is one of them, or 0 if none is positive |
| Accumulators.SelectedAll | src/Metreja.Profiler/StatsAggregator.cpp:22-37 | these calls are all those of the chosen functions, once each and in order |
| Accumulators.MergeMeans | src/Metreja.Profiler/StatsAggregator.cpp:80-88 | merging adds counts and totals, and each maximum is the larger of the two |
| StatsAggregator.ThreadsMayRecord | src/Metreja.Profiler/StatsAggregator.cpp:251-268 | a new thread may register except while a flush holds the registry, and a registered one may record at any moment of a flush |
| StatsAggregator.CollectDeltaStats | src/Metreja.Profiler/StatsAggregator.cpp:64-103 | every thread's map is empty afterwards and the result holds all of their totals |
| StatsAggregator.NothingLost | src/Metreja.Profiler/StatsAggregator.cpp:22-37 | in every interleaving of thread creation, registration, recording and flushing, at every moment and for every set of cached functions: recorded = thread-local + in flight + written |
| StatsAggregator.RunRegistered | src/Metreja.Profiler/StatsAggregator.cpp:251-268 | in every interleaving only registered threads hold anything, and every registered thread has a map |
| StatsAggregator.FinalFlushComplete | src/Metreja.Profiler/StatsAggregator.cpp:105-130 | after recording stops and a last flush completes, the written lines hold exactly what was recorded, whatever earlier flushes did |
| FlushLoop.FlushThreadProc | src/Metreja.Profiler/StatsAggregator.cpp:181-249 | the loop does what the turn function says, turn by turn, for any signals and waits |
| FlushLoop.IntervalExactIff | src/Metreja.Profiler/StatsAggregator.cpp:184-186 | the 32-bit interval is exact if and only if at most 4294967 s, infinite only when switched off, and 0 exactly at the multiples of 2^29 s |
| FlushLoop.FlushesOnTime | src/Metreja.Profiler/StatsAggregator.cpp:210-245 | in every run a periodic flush happens on exactly every period-th timeout since the last flush of either kind, and the counter is 250 ms times the timeouts since then, below the interval |
| FlushLoop.OnTimeIff | src/Metreja.Profiler/StatsAggregator.cpp:225-235 | with a semaphore that holds in every run if and only if the interval is at most 4294967250 ms; above, the counter wraps |
| FlushLoop.ConfiguredOnTime | src/Metreja.Profiler/StatsAggregator.cpp:184-186 | every configured interval up to 4294967 s is on time, 4 polls a second; 420906795 s is one that is not |
| FlushLoop.OffNeverFlushes | src/Metreja.Profiler/StatsAggregator.cpp:229-230 | with periodic flushing off there is never a periodic flush |
| FlushLoop.WritesIffDeltas | src/Metreja.Profiler/StatsAggregator.cpp:237-245 | in every run a turn does at most one thing, and a periodic flush writes if and only if there is something to flush |
| FlushLoop.SignalsServed | src/Metreja.Profiler/StatsAggregator.cpp:194-207 | in every run every manual signal is served by a flush of its own or still outstanding; without a semaphore there are no manual flushes |
| FlushLoop.ServedNext | src/Metreja.Profiler/StatsAggregator.cpp:194-207 | after any turns that leave the loop running, a signal posted and not served is served by the next turn and nothing is waited for; if all are served the turn flushes on no signal |
| FlushLoop.StopsAfterShutdown | src/Metreja.Profiler/StatsAggregator.cpp:163-249 | once shutdown is visible the loop ends after at most one turn more than there are manual signals, counting those still arriving |
| FlushLoop.StopsIff | src/Metreja.Profiler/StatsAggregator.cpp:163-249 | the loop can never be ended if and only if the configured interval has wrapped to 0 |
| PalWait.PalWaitMultiple | src/Metreja.Profiler/platform/pal_threading.h:367-431 | the first slice in which an event is seen decides; a timeout is reported only when the slices waited add up to exactly the interval, an infinite wait never times out, and the manual event is reset exactly when the call reports it |
| PalWait.DecidedMeans | src/Metreja.Profiler/platform/pal_threading.h:367-431 | after any number of slices in which no event is seen: a timeout once 100 ms each cover the interval, and otherwise shutdown before manual before the shutdown seen after the wait, as the next slice shows them |
| PalWait.ShutdownWins | src/Metreja.Profiler/platform/pal_threading.h:378-420 | a shutdown visible before the interval is over is returned, rather than the timeout |
| PalWait.NoticesShutdownIff | src/Metreja.Profiler/platform/pal_threading.h:378-386 | a shutdown requested before the call is noticed for every interval but 0 |
| NdjsonWriter.Writer.constructor | src/Metreja.Profiler/NdjsonWriter.cpp:26-35 | an empty buffer, an empty file, nothing counted |
| NdjsonWriter.Writer.AppendToBuffer | src/Metreja.Profiler/NdjsonWriter.cpp:350-378 | the line is accepted last; the buffer is drained first if the line would take it over 80 %; file and buffer stay the accepted lines and the position stays in the buffer |
| NdjsonWriter.Writer.Flush | src/Metreja.Profiler/NdjsonWriter.cpp:340-348 | the file is all accepted lines |
| NdjsonWriter.Writer.WriteLockedEvent | src/Metreja.Profiler/NdjsonWriter.cpp:68-73 | one line accepted, one event counted: the locked section of that kind |
| NdjsonWriter.Writer.WriteCapped | src/Metreja.Profiler/NdjsonWriter.cpp:90-119 | an event is accepted and counted unless the cap is reached or the line does not fit 2048 bytes |
| NdjsonWriter.Writer.WriteFree | src/Metreja.Profiler/NdjsonWriter.cpp:302-320 | statistics, garbage collection and metadata lines are accepted without being counted |
| NdjsonWriter.LockedLog | src/Metreja.Profiler/NdjsonWriter.cpp:68-73 | for any order of locked appends, counted or not, and flushes, by any number of writers, the log is the appended lines in that order and the count that of the counted ones |
| NdjsonWriter.SimpleLog | src/Metreja.Profiler/NdjsonWriter.cpp:63-73 | for every sequence of requests that do not overlap the log is the free lines and the first N events that fit, in order, and the count is min(N, events that fit) |
| NdjsonWriter.TakenIff | src/Metreja.Profiler/NdjsonWriter.cpp:90-119 | after any requests a line is taken, last, if and only if it has 1 to 2047 bytes and, for a capped one, there is no cap or fewer events are counted; otherwise nothing changes |
| NdjsonWriter.CutBetweenLines | src/Metreja.Profiler/NdjsonWriter.cpp:350-378 | for any such order, at every moment, the file ends on a line boundary and file and buffer together are the appended lines |
| NdjsonWriter.StaysBelowThreshold | src/Metreja.Profiler/NdjsonWriter.cpp:357-377 | between locked sections the buffer never holds more than 80 % of its 64 KB |
| NdjsonWriter.WritesIff | src/Metreja.Profiler/NdjsonWriter.cpp:356-364 | after any sections a line forces the buffer out if and only if the two together exceed 52428 bytes |
| NdjsonWriter.WritesAreLarge | src/Metreja.Profiler/NdjsonWriter.cpp:356-364 | a line that forces the buffer out writes more than 50000 bytes |
| NdjsonWriter.FlushedFile | src/Metreja.Profiler/NdjsonWriter.cpp:53-61 | after the destructor's flush the file is all appended lines |
| EventCap.CapHolds | src/Metreja.Profiler/NdjsonWriter.cpp:63-73 | in every interleaving of T threads at most N + T - 1 capped events are written and counted |
| EventCap.CapReached | src/Metreja.Profiler/NdjsonWriter.cpp:63-73 | for every N and T some interleaving reaches that bound |
| EventCap.PassesIff | src/Metreja.Profiler/NdjsonWriter.cpp:63-66 | a thread gets past the check if and only if there is no cap or fewer events have been counted |
| EventCap.OneEventPerCheck | src/Metreja.Profiler/NdjsonWriter.cpp:63-119 | in every interleaving a thread appends or drops at most one event for each time it has checked the cap, and none for a pass it still holds |
| EventCap.OvershootNeedsRace | src/Metreja.Profiler/NdjsonWriter.cpp:63-73 | if no thread checks while another is between its check and its count, N holds exactly |
| EventCap.FreeLinesDoNotCount | src/Metreja.Profiler/NdjsonWriter.cpp:176-182 | taking all uncapped writes and flushes out of a run changes nothing about counter, cap and lock |
| EventCap.FileOfRun | src/Metreja.Profiler/NdjsonWriter.cpp:63-73 | in every interleaving, overlapping checks included, file and buffer together are the lines appended in the order their threads got the lock, cut between two lines |
| Hotspots.Aggregate | src/Metreja.Tool/Analysis/HotspotsAnalyzer.cs:83-160 | the loop's statistics are those of the replay function |
| Hotspots.ReplaysHistory | src/Metreja.Tool/Analysis/HotspotsAnalyzer.cs:91-140 | on the trace of any history, finished or not, every method gets the count, total and maximum self and inclusive time the history records, and one frame is left per open activation |
| Hotspots.StacksApart | src/Metreja.Tool/Analysis/HotspotsAnalyzer.cs:91-139 | in any interleaving a thread's stack is what its own events make it |
| Hotspots.ReplaysThreadsApart | src/Metreja.Tool/Analysis/HotspotsAnalyzer.cs:83-160 | in any interleaving a method's statistics are the sum over threads of what each thread's own events give, plus the method_stats lines |
| Threads.Aggregate | src/Metreja.Tool/Analysis/ThreadsAnalyzer.cs:87-124 | the loop's per-thread statistics are those of the function on events |
| Threads.FirstAndLast | src/Metreja.Tool/Analysis/ThreadsAnalyzer.cs:105-111 | a thread's first and last timestamps bound its events and belong to some of them, and its call count is the number of its enters |
| Threads.SelfTimeIsRootTime | src/Metreja.Tool/Analysis/ThreadsAnalyzer.cs:108-119 | on any prefix of any interleaving of well-nested threads, total self time = total root time + children time of open frames |
| Threads.HistoryNested | src/Metreja.Profiler/Profiler.cpp:921-986 | the trace of any history is well nested: every leave names the method of the call opened last and not yet left, and carries its depth |
| Threads.HistoryCovers | src/Metreja.Profiler/Profiler.cpp:961-984 | with times that nest, every leave takes at least the time of the calls inside the one it closes |
| Threads.CleanRunNested | src/Metreja.Profiler/Profiler.cpp:921-986 | what a thread emits in a clean run is well nested in every sense, by name too, whether it has finished or not |
| Threads.RootTimeOfHistory | src/Metreja.Tool/Analysis/ThreadsAnalyzer.cs:112-119 | a thread's root time is the inclusive time of its finished outermost calls |
| CallTree.FindOccurrences | src/Metreja.Tool/Analysis/CallTreeAnalyzer.cs:75-125 | pass 1 lists the matching leaves in order, as thread, depth and time window |
| CallTree.FoundAreLeaves | src/Metreja.Tool/Analysis/CallTreeAnalyzer.cs:98-121 | every occurrence it lists comes from a matching leave event |
| CallTree.FindsAll | src/Metreja.Tool/Analysis/CallTreeAnalyzer.cs:98-121 | pass 1 lists every leave of a named method on a thread the filter allows, once and in order, with its thread, depth, time and window |
| CallTree.ListedUnfinished | src/Metreja.Tool/Analysis/CallTreeAnalyzer.cs:145-165 | a call inside the subtree is listed when it is entered, at its relative depth, with -1 for a time until its leave |
| CallTree.CollectSubtree | src/Metreja.Tool/Analysis/CallTreeAnalyzer.cs:127-204 | pass 2's loop, early exit included, collects what the collection function says |
| CallTree.CollectsFirst | src/Metreja.Tool/Analysis/CallTreeAnalyzer.cs:127-204 | for any target, between arbitrary events of other threads: the first call at the target's depth entered in its window is listed in preorder, with relative depths and own times, and nothing else |
| CallTree.CollectsSubtree | src/Metreja.Tool/Analysis/CallTreeAnalyzer.cs:127-204 | a selected call is listed if no call at its depth starts in its window before it |
| CallTree.CollectsFirstInWindow | src/Metreja.Tool/Analysis/CallTreeAnalyzer.cs:127-204 | for a finished call of any history in timestamp order, whichever call starts first in its window is collected: itself, or an earlier call that took no time at the instant it was entered |
| CallTree.CollectsSelectedIff | src/Metreja.Tool/Analysis/CallTreeAnalyzer.cs:145-151 | a selected call that took time is collected if and only if no earlier call at its depth starts in its window |
| CallTree.CleanRunCollects | src/Metreja.Tool/Analysis/CallTreeAnalyzer.cs:75-204 | the same for every leave of the trace of a clean run |
| CallTree.CallTreeExact | src/Metreja.Tool/Analysis/CallTreeAnalyzer.cs:75-204 | with strictly increasing timestamps selecting any finished invocation of a thread's history collects exactly that call |
| CallTree.EqualTimestampsMislead | src/Metreja.Tool/Analysis/CallTreeAnalyzer.cs:146-151 | with equal timestamps the second of two calls is answered with the first |
| EventReader.CollectMethodMetrics | src/Metreja.Tool/Analysis/EventReader.cs:106-142 | every method's metrics are those of the function on events |
| EventReader.MetricsAddUp | src/Metreja.Tool/Analysis/EventReader.cs:119-138 | metrics are the totals of the method_stats lines, plus leave times as inclusive time, and a method has statistics exactly when some line names it |
| EventReader.IndependentOfFlushes | src/Metreja.Tool/Analysis/EventReader.cs:106-142 | the metrics of a statistics session are the totals its threads recorded, independent of the flush schedule |
| Lockstep.RunInStep | src/Metreja.Tool/Analysis/HotspotsAnalyzer.cs:91-140 | in every run, at every moment, the replay of a thread's trace has a frame per entry of its shadow stack, the deferred one included, and finds the calls and inclusive times the thread recorded; unless a deferred activation is overtaken it holds their children times, finds their self times and closes every frame at its own depth |
| Lockstep.DepthsIff | src/Metreja.Profiler/Profiler.cpp:600-622 | every leave a thread has written carries the depth of the frame it closes if and only if exceptions are not monitored or every throw was contiguous; then also at least the time of the calls inside |
| Tallies.CallsTrueIff | src/Metreja.Profiler/Profiler.cpp:505-624 | for every set of functions the recorded call counts, total and maximum inclusive times are those of the true history if and only if exceptions are monitored or no throw found an included activation above its catcher |
| EndToEnd.ThreadAgrees | src/Metreja.Profiler/Profiler.cpp:951-986 | any run of any session: replaying a thread's trace gives, method by method, the calls and inclusive times it recorded, and the self times too if exceptions are not monitored or the run is clean |
| EndToEnd.ThreadTrue | src/Metreja.Profiler/Profiler.cpp:951-986 | both are true of the calls made: calls and inclusive times if the stack was kept, self times if the run is clean |
| EndToEnd.OfflineEqualsOnline | src/Metreja.Tool/Analysis/HotspotsAnalyzer.cs:91-140 | for any number of threads in any runs, any interleaving of trace and recording and any flush schedule, replaying the trace and reading the statistics lines give every method the same calls and inclusive times; and the same self times in every session that does not monitor exceptions and every one whose threads ran clean |
| EndToEnd.BothStreamsDouble | src/Metreja.Tool/Analysis/HotspotsAnalyzer.cs:141-160 | a file with both streams doubles counts and totals and keeps the maxima; self times under the same condition |
| NdjsonMerger.ReadAll | src/Metreja.Tool/Analysis/NdjsonMerger.cs:9-39 | exactly the parsed lines of all files in order; malformed ones counted, blank ones neither |
| NdjsonMerger.ReadsEach | src/Metreja.Tool/Analysis/NdjsonMerger.cs:16-38 | every parsed line is read, once and in order, and the malformed ones are counted |
| NdjsonMerger.SortedByTime | src/Metreja.Tool/Analysis/NdjsonMerger.cs:24-41 | in every sort, of two events the earlier line has no later timestamp, and statistics lines stand before every event with a positive one |
| NdjsonMerger.KeepsSelectedIff | src/Metreja.Tool/Analysis/NdjsonMerger.cs:41-45 | for any choice of lines: every sorted permutation keeps their order if and only if they are in timestamp order and those with equal timestamps are equal |
| NdjsonMerger.KeepsThreadIff | src/Metreja.Tool/Analysis/NdjsonMerger.cs:9-46 | that for each thread of each process in the merge of their files |
| NdjsonMerger.MergedAndPickedIff | src/Metreja.Tool/Analysis/NdjsonMerger.cs:9-46 | picking any lines of one process out of the merged file gives what picking them from its own file gives, in every sort, under exactly that condition |
| NdjsonMerger.MayCross | src/Metreja.Tool/Analysis/NdjsonMerger.cs:41 | two different lines accepted with decreasing or equal timestamps have the other order as a sort |
| NdjsonMerger.SortedReplays | src/Metreja.Tool/Analysis/NdjsonMerger.cs:41-43 | if each thread keeps its order, sorting changes nothing the hotspots analyser finds, however threads and statistics lines move among each other |
| NdjsonMerger.MergedReplays | src/Metreja.Tool/Analysis/NdjsonMerger.cs:9-46 | if the timestamps of every thread's enters and leaves strictly increase in its file, replaying the merged file gives each method the merge of what replaying the single files gives |
| NdjsonMerger.TieLosesCall | src/Metreja.Tool/Analysis/NdjsonMerger.cs:41 | a call that took no time may be sorted with its leave first, and the replay then loses it |
| TracePaths.Replace | src/Metreja.Profiler/ConfigReader.cpp:15-30 | the in-place loop replaces every occurrence from left to right and terminates, whatever is put in |
| TracePaths.ReplacesFirst | src/Metreja.Profiler/ConfigReader.cpp:15-30 | the first occurrence is replaced and the same done with what follows it; a string without one is unchanged |
| TracePaths.ExpandPlaceholders | src/Metreja.Profiler/ConfigReader.cpp:11-33 | session ids first, then process ids |
| TracePaths.DecimalReads | src/Metreja.Profiler/ConfigReader.cpp:23-30 | the process id put in reads back as the process id, without a digit too many |
| TracePaths.LiteralMatch | src/Metreja.Tool/Analysis/NdjsonMerger.cs:75-92 | a pattern without wildcards matches itself and nothing else |
| TracePaths.OneStarMatch | src/Metreja.Tool/Analysis/NdjsonMerger.cs:75-92 | a file name pattern with one star matches exactly the names with its beginning and its end |
| TracePaths.DirectoryAndName | src/Metreja.Tool/Analysis/NdjsonMerger.cs:75-92 | a path is its directory, a slash and its file name without slashes, and the slash alone if its only one is at the front |
| TracePaths.MergedDropsPid | src/Metreja.Tool/Analysis/NdjsonMerger.cs:48-73 | the merged name is the template's without its first process id and one separator beside it, the one before it if there is one |
| TracePaths.MergedIff | src/Metreja.Tool/Analysis/NdjsonMerger.cs:48-73 | a process's file has the merged file's name, case ignored, exactly when the template has no process id |
| TracePaths.SameLetterIff | src/Metreja.Tool/Analysis/NdjsonMerger.cs:75-92 | ignoring case, two characters are equal if and only if they are the same or one letter of a to z in both cases |
| TracePaths.FindsEveryProcess | src/Metreja.Tool/Analysis/NdjsonMerger.cs:75-92 | for every template, session id and process: the tool finds the process's file if and only if the process id occurs in the file name below some directory and not in the directory |
| TracePaths.OwnFiles | src/Metreja.Profiler/ConfigReader.cpp:23-30 | different processes have different files exactly when the template has a process id |
| Utf8.PalWideCharToMultiByte | src/Metreja.Profiler/platform/pal_io.h:145-213 | returns the size of the whole encoding with or without a buffer; a buffer gets the encoding of the code points that fit and is otherwise unchanged |
| Utf8.InputMeans | src/Metreja.Profiler/platform/pal_io.h:150-160 | a counted string is that many units, zeros among them or not; a terminated one is all before its first zero |
| Utf8.CutOnBoundary | src/Metreja.Profiler/platform/pal_io.h:185-209 | what a short buffer gets is the longest whole-code-point prefix of the encoding that fits |
| Utf8.WideToUtf8 | src/Metreja.Profiler/MethodCache.cpp:255-267 | measuring and then converting gives the whole encoding |
| Utf8.RoundTrip | src/Metreja.Profiler/platform/pal_io.h:159-211 | decoding with surrogates allowed gives back every sequence of code units |
| Utf8.ValidIff | src/Metreja.Profiler/platform/pal_io.h:163-183 | the encoding is valid UTF-8 by RFC 3629 if and only if no surrogate is unpaired |
| Utf8.WellFormedIff | src/Metreja.Profiler/platform/pal_io.h:163-183 | no surrogate is unpaired if and only if every high one is followed by a low one and every low one preceded by a high one |
| Utf8.ValidAreEncodings | src/Metreja.Profiler/platform/pal_io.h:159-211 | every valid UTF-8 by RFC 3629 is the encoding of some well-formed name |
| MetadataCodec.CorSigCompressData | src/Metreja.Profiler/include/cor.h:2031-2058 | writes the compressed form and nothing else, or fails above 0x1FFFFFFF |
| MetadataCodec.StreamData | src/Metreja.Profiler/include/cor.h:1704-1734 | reads the form's value and moves past exactly its bytes |
| MetadataCodec.CheckedData | src/Metreja.Profiler/include/cor.h:1801-1862 | accepts exactly recognized forms within the length, with the streaming decoder's value and size |
| MetadataCodec.RoundTrip | src/Metreja.Profiler/include/cor.h:2031-2058 | exactly the values up to 2^29 - 1 encode, and each is read back from its bytes followed by anything |
| MetadataCodec.ShortestForm | src/Metreja.Profiler/include/cor.h:1801-1862 | every accepted form is of an encodable value, for which the encoder needs no more bytes, and the same bytes if as many |
| MetadataCodec.UnrecognizedAlias | src/Metreja.Profiler/include/cor.h:1718-1732 | what the checked decoder rejects the streaming one reads as if the third bit were clear |
| MetadataCodec.ListRoundTrip | src/Metreja.Profiler/include/cor.h:1801-1862 | a concatenation of encodings decodes to the list that was encoded |
| MetadataCodec.CorSigCompressToken | src/Metreja.Profiler/include/cor.h:2064-2097 | always succeeds, writing the packed row number and kind |
| MetadataCodec.StreamToken | src/Metreja.Profiler/include/cor.h:1888-1899 | the token of the form at the pointer |
| MetadataCodec.CheckedToken | src/Metreja.Profiler/include/cor.h:1916-1938 | the same token exactly when the form is accepted |
| MetadataCodec.TokenRoundTripIff | src/Metreja.Profiler/include/cor.h:2064-2097 | a token survives the round trip if and only if it is a TypeDef, TypeRef, TypeSpec or BaseType; any other becomes a TypeDef |
| MetadataCodec.CorSigCompressSignedInt | src/Metreja.Profiler/include/cor.h:2102-2142 | writes the rotated form and nothing else, or fails out of range |
| MetadataCodec.UncompressSignedInt | src/Metreja.Profiler/include/cor.h:1973-2002 | the sign-extended value of a recognized form |
| MetadataCodec.SignedRoundTrip | src/Metreja.Profiler/include/cor.h:2102-2142 | exactly the values from -2^28 to 2^28 - 1 encode, and each is read back with its sign |
| Clock.GetTimestampNs | src/Metreja.Profiler/CallStack.cpp:65-75 | the split formula is floor(ticks * 10^9 / frequency) |
| Clock.Monotone | src/Metreja.Profiler/CallStack.cpp:72-74 | timestamps never run backwards |
| Clock.StrictIff | src/Metreja.Profiler/CallStack.cpp:72-74 | every tick moves the timestamp exactly for clocks up to 1 GHz |
| Clock.NoOverflowIff | src/Metreja.Profiler/CallStack.cpp:70-74 | whenever the result fits 64 bits so do all intermediate values, exactly up to 9223372037 Hz |

## Left out

- Hooked code that runs during an unwind (finally blocks, filters) and nested throws: excluded by the runtime model, because a nested search completes a pending catcher.
- Failed allocations and missing thread-local slots, on which the profiler silently does nothing.
- Metadata calls and filter rules: what a resolution gives is arbitrary in `MethodCache` and a constant elsewhere.
- Exception, allocation, contention, garbage collection and tail call counters: they pass by the stack. Such events are `Other` in a trace.
- Exception statistics in the aggregator: a second map with the same protocol and a simpler accumulator.
- JSON text: events are values, lines are strings. `EndToEnd` has no line over 2047 bytes and no event cap.
- NdjsonWriter.Writer.AppendToBuffer: assumes a valid file handle; without one the buffer is never drained, which is not modelled. A copy into the buffer is one step.
- NdjsonWriter.SimpleLog: is about requests that do not overlap; what overlapping checks of the cap allow, and which lines are then in the file, is in `EventCap`.
- StatsAggregator.CollectDeltaStats: is the sequential reading of the loop, with no recording in between; the interleavings are those of `StatsAggregator.Machine`.
- CallTree.FindOccurrences: the method pattern is the set of method names it matches, and slowest-first selection is left out.
- CallTree.CollectSubtree: the exception mark an entry can get is not kept; it changes nothing else about the listing.
- Hotspots.Aggregate: unfiltered, and without tail call and exception counts.
- EndToEnd.OfflineEqualsOnline: compares a run that is traced with the same run recorded; it needs deltas on, as without them every leave has time 0.
- PalWait.PalWaitMultiple: what it sees of the events is a parameter; early wake-ups and real time are left out, and so is the Windows version.
- FlushLoop.FlushThreadProc: turns and signals are parameters; what a flush collects is in `StatsAggregator`.
- Utf8.PalWideCharToMultiByte: sizes are unbounded, where the source counts in 32 bits.
- MetadataCodec.CorSigCompressData: writes to an array with 4 bytes of room, as its caller must provide. Element types, pointers and calling conventions are single bytes and left out.
- TracePaths.FindsEveryProcess: file names as strings with `/`, already normalised; directory listing, its order and drive letters are left out.
- NdjsonMerger.KeepsSelectedIff: sorting is any sorted permutation, as `List.Sort` is not stable.
- NdjsonMerger.MergedReplays: assumes that no thread id makes calls in two of the merged processes, as the analysers know threads by their id alone.
- Summary, memory, exception, trend, timeline and caller analysers, session comparison percentages, CSV and Speedscope export: folds and projections of the same replay.
- Commands, configuration files, telemetry, process launch and the COM plumbing: no logic of this kind.
