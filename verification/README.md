# Verified model of the NPP coroutine runtime and message framing

NPP runs C++20 coroutines on a small runtime and puts a message layer on TCP. This project models the
parts of it that are hard to get right and proves what they promise.

- **Channel** (`Channel.dfy`, `ChannelObject.dfy`): the bounded channel with its buffer, its suspended
  writers and readers, and its two-phase close.
- **Scheduler** (`Scheduler.dfy`, `SchedulerObject.dfy`): the timed queue with one worker and a
  condition variable that is notified only when it seems needed.
- **Completion** (`Promise.dfy`, `PromiseObject.dfy`, `AwaitChain.dfy`): the one-shot promise behind a
  task, the handlers attached to it, and chains of tasks that await tasks.
- **Elastic executor** (`BusyTime.dfy`, `WorkerPool.dfy`): the busy-time accounting that a worker shares
  with a sampler, and the conservation of tasks while workers come and go.
- **Framing and sending** (`Frames.dfy`, `Receiver.dfy`, `Sender.dfy`, `SenderObject.dfy`): the frame
  printer and parser, the payload loop, the socket cache and the retry loop.

`Sequences.dfy` holds facts about sequences that several of them use. `dafny verify dfyconfig.toml`
checks everything.

## How the models are built

Concurrency is a state machine whose steps are critical sections, or the parts of one between which
something else can happen: a push into the channel locks in one step and takes effect in another, because
the close flag can flip between the check and the effect, and it resumes awaiters in further steps, after
it has unlocked; a push into the scheduler is two steps, because the clock is read twice. A run
is any list of events. An event that cannot happen in a state leaves it alone, so the theorems speak of
every list of events and need no hypothesis about the schedule. Fields marked as history record what has
happened; the program keeps none of them. The classes carry the fields of the source, and each method is
proved to take exactly the steps it stands for, so what holds of runs of the machine holds of the objects.

Dispatching to an executor is asynchronous: it hands over a job that runs as a later step, in any order.
Mutexes, the condition variable, `std::priority_queue`, `std::list` and the concurrent queue and map are
their contracts. Clocks never go back. A condition-variable wait may end spuriously at any time, and a
timed wait reports a timeout when its deadline has passed once it holds the lock again. Floating-point
rates are exact fractions. The outcome of each system call is a parameter.

## Where the code does less than it seems to

- Awaiting a task that ends with an exception terminates the process. The awaiter owns the awaited task;
  when the exception leaves `before_resume`, unwinding destroys both, and the task's destructor fetches the
  result again and lets the same exception out of a destructor. `AwaitChain.CompletesExactly`: a chain
  comes to its end if and only if nobody awaits anything or the innermost outcome is a value.
- A write to a channel can report success and its value reach nobody, if the channel is closed after the
  value was handed to a reader and before that reader runs (`ChannelMachine.WrittenButRefused`).
  `ChannelMachine.CloseRefusesExactly` says exactly which hand-overs and writes a close refuses,
  `ChannelMachine.ReportsAtClose` exactly when the writes that report success have told the truth, and
  `ChannelMachine.LosslessExactly` exactly when a close costs nothing that was handed over or buffered.
- The clean-up of a channel does not wait for resumes that pushes still owe, and resumes do not keep the
  order of the hand-overs (`ChannelMachine.Overtaken`). `ChannelMachine.NobodyStranded` and
  `ChannelMachine.OwedCanBeMade` say what holds in spite of that.
- A timed wait of the scheduler keeps a copy of the item on top, and pops whatever is on top when the wait
  times out. An item due earlier that came in meanwhile is then popped and lost while the copy runs and
  stays queued (`SchedulerMachine.DisturbedTimeout`). `SchedulerMachine.LedgerExactly` says exactly which
  runs conserve items, and `SchedulerMachine.DisturbedExactly` what disturbs a wait: pushing an item due
  before the one slept for, or clearing the queue.
- An insertion into the scheduler can be accepted after the worker has left for good, because the loop
  tests the flag and the queue without the lock (`SchedulerMachine.AcceptedTooLate`).
  `SchedulerMachine.LeftBehind` says exactly when.
- A callback that lets an exception out of `notify_callbacks` while a value is being returned makes the
  coroutine call `unhandled_exception`, which replaces the result and calls the callbacks again from the
  first. `PromiseMachine.ExactlyOnce` says exactly when every callback is called once, and
  `PromiseMachine.ResultReplaced` exactly when the result stays, and `PromiseMachine.DispatchExactly` exactly
  when the function of a handler is called as promised; `PromiseMachine.CalledTwice` is a run.
- A partial write makes `sendMessage` throw but leaves the socket cached, so that the next frame follows
  the fragment (`Sender.SpoiledConnection`). `Sender.WireExactly` says exactly which connections carry whole
  frames only, and `Sender.EndToEnd` exactly which the peer can read.
- A payload that is empty or of 2^32 bytes or more is sent with a size that does not describe it:
  `Frames.MessageArrivesExactly`.
- With a negative `retry`, `sendMessage` returns normally and sends nothing: `Sender.SendOnce`.
- The protocol description has the flags C and V, compression and an exclusive-or verify code. The code
  never sets them and always sends the fixed code; the model follows the code.

## Model

| member | source | states |
|---|---|---|
| ChannelMachine.NormalFormOfRun | src/task/Channel.h:30-102 | in every run, with any interleaving and removals, until the clean-up: the k-th live reader is handed exactly the k-th live writer's value; surplus readers wait; surplus values fill the buffer up to the capacity and then suspended writers; the writers to be resumed are exactly the first min(writers, readers + capacity) |
| ChannelMachine.NormalFormOfArrivals | src/task/Channel.h:30-90 | without removals the same holds of the arrivals themselves: the state is a function of the readers and writers that came and the capacity |
| ChannelMachine.CapacityIndependence | src/task/Channel.h:34-96 | channels of any two capacities fed the same events have the same live writers if and only if every removal of a writer found it suspended in both or in neither; and then they give the same values to the same readers, before and after a close |
| ChannelMachine.IndependenceWithoutRemovals | src/task/Channel.h:34-89 | in particular when no event removes a writer |
| ChannelMachine.RemovalMakesCapacityMatter | src/task/Channel.h:92-96 | removals need not agree: a removed writer's value is lost to a rendezvous channel and kept by a buffered one |
| ChannelMachine.ReadersDependOnLive | src/task/Channel.h:30-102 | which reader gets what, and which readers wait, depends only on which readers and writers live, in either phase |
| ChannelMachine.NobodyStranded | src/task/Channel.h:30-182 | in every state at most one resume has been decided on for each accepted awaiter, in acceptance order, and each resume decided on has been made once or is owed by a push that has unlocked; after the clean-up exactly the awaiters that did not remove themselves have one, and the queues are empty |
| ChannelMachine.OwedCanBeMade | src/task/Channel.h:39-60 | in every state the owed resumes can be made, whoever holds the lock, and then every resume decided on has been made exactly once |
| ChannelMachine.Overtaken | src/task/Channel.h:52-60 | a reachable state in which a later hand-over has been resumed and an earlier one is still owed its resume after the clean-up |
| ChannelMachine.CleanedForGood | src/task/Channel.h:131-182 | after the clean-up no event changes anything, except that owed resumes are made and jobs run, and those see a closed channel; a second close does nothing |
| ChannelMachine.CloseCanFinish | src/task/Channel.h:131-136 | between the flag and the clean-up at most the one push that holds the lock is in the way |
| ChannelMachine.UnsetResultNeverRead | src/task/ChannelAwaiter.h:59-65 | whatever order the resumes run in, none reads a result that was never set; a resume throws or delivers what its job carries |
| ChannelMachine.Conservation | src/task/Channel.h:34-182 | in acceptance order, the live writers' values are those handed to readers, then the buffer, then the suspended writers, then what the close dropped; accepted writers are live or removed, each as often as accepted; hand-over follows acceptance order |
| ChannelMachine.WhereValuesAre | src/task/Channel.h:34-182 | every accepted value is, as often as it was accepted, in one of: received, handed over with the job not run, handed over with the resume owed, refused because of the close, buffered, with a suspended writer, dropped by the close, removed with its writer; each kind of hand-over keeps the order, and nothing is refused or dropped while the channel is open |
| ChannelMachine.FatesAreOutcomes | src/task/ChannelAwaiter.h:59-65 | received means that the reader's resume returned that value, refused that it threw |
| ChannelMachine.WrittenButRefused | src/task/ChannelAwaiter.h:33-65 | a reachable state in which a write has reported success, its value has reached nobody, and the close has dropped nothing |
| ChannelMachine.CloseRefusesExactly | src/task/ChannelAwaiter.h:33-65 | in every run from the moment the flag goes down, a hand-over whose job has run is received, and a write whose job has run reports success, if and only if that job had run by then |
| ChannelMachine.ReportsAtClose | src/task/Channel.h:131-182 | from the flag on, writer by writer, the writes that have reported success and the values that have been received are those that had when the flag went down; so all reports are true if and only if they were by then |
| ChannelMachine.LosslessExactly | src/task/Channel.h:131-182 | once the channel is cleaned up and all jobs have run, no value handed over was refused and none dropped but those of suspended writers, if and only if, when the flag went down, the buffer was empty and every value handed over had been received, a push that held the lock then counting as through |
| ChannelMachine.FromFlagOn | src/task/Channel.h:131-182 | from the flag to the clean-up, with any removals, neither the buffer nor the log changes but for the push that held the lock; the clean-up drops the buffer and hands nothing over |
| ChannelMachine.Invariant | src/task/Channel.h:24-183 | every reachable state has the normal form, or the cleaned form after a clean-up, with distinct awaiters and defined outcomes |
| ChannelMachine.PushReaderShape | src/task/Channel.h:30-64 | one reader push turns the form for these readers and writers into the form with one reader more |
| ChannelMachine.PushWriterShape | src/task/Channel.h:66-90 | one writer push turns the form for these readers and writers into the form with one writer more |
| ChannelMachine.RemoveWriterShape | src/task/Channel.h:92-96 | removing a suspended writer turns the form into that of the writers without it; pairs and buffer stay |
| ChannelMachine.RemoveReaderShape | src/task/Channel.h:98-102 | removing a suspended reader turns the form into that of the readers without it |
| ChannelMachine.RemovedForGood | src/task/Channel.h:92-102 | a suspended awaiter that is removed is never suspended or resumed again: a removed reader gets no value, a removed writer is not let go on |
| ChannelObject.Channel.constructor | src/task/Channel.h:138-140 | a new channel is open and empty, for a capacity of either sign |
| ChannelObject.Channel.TryPushReader | src/task/Channel.h:30-64 | throws exactly when the channel is closed and then changes nothing; otherwise, branch by branch, what becomes of the buffer and the two lists and which resumes are owed, in order; the two steps of a reader push |
| ChannelObject.Channel.TryPushWriter | src/task/Channel.h:66-90 | the same for a writer, with the capacity compared as an unsigned number |
| ChannelObject.Channel.Resume | src/task/Channel.h:41-46 | one resume that a push owes: its job goes to the executor |
| ChannelObject.Channel.ResumeEach | src/task/Channel.h:41-60 | all resumes of one push go to the executor, in order, and none of them is owed any more |
| ChannelObject.Channel.PushReaderAndResume | src/task/Channel.h:30-64 | a whole push of a reader leaves nothing owed that was not: branch by branch, the executor gets exactly the jobs of the reader and of the writer that moves up |
| ChannelObject.Channel.PushWriterAndResume | src/task/Channel.h:66-90 | a whole push of a writer likewise: the waiting reader and the writer, the writer alone, or nobody and the writer waits |
| ChannelObject.Channel.RemoveReaderAwaiter | src/task/Channel.h:98-102 | a suspended reader is no longer in the list, every other one is, in order; for any other reader nothing changes; reports how many it removed |
| ChannelObject.Channel.RemoveWriterAwaiter | src/task/Channel.h:92-96 | the same for a suspended writer |
| ChannelObject.Channel.Close | src/task/Channel.h:131-136 | the call that flips the flag empties the queues and hands over one job for each suspended writer and then for each suspended reader; any other changes nothing |
| ChannelObject.Channel.CleanUpQueues | src/task/Channel.h:167-182 | the two loops resume every suspended writer and then every suspended reader, each once, in order, and empty the queues |
| ChannelObject.ReaderAwaiter.AfterSuspend | src/task/ChannelAwaiter.h:55-57 | suspending pushes this reader: the executor gets exactly the resumes of the push, or the reader waits last in line |
| ChannelObject.ReaderAwaiter.Resume | src/task/ChannelAwaiter.h:59-65 | a resume sets the result if its job has one, throws on a closed channel, and otherwise reads a result that is proved to be set, stores it through the reference, and forgets the channel |
| ChannelObject.ReaderAwaiter.Destroy | src/task/ChannelAwaiter.h:67-69 | destroying an awaiter that has not received takes it, and no other, out of the list |
| ChannelObject.WriterAwaiter.Resume | src/task/ChannelAwaiter.h:33-36 | a resumed write finishes on an open channel, forgetting it, and throws on a closed one |
| ChannelObject.WriterAwaiter.Destroy | src/task/ChannelAwaiter.h:38-40 | destroying a writer that has not finished takes it, and no other, out of the list |
| SchedulerMachine.LedgerExactly | src/task/Scheduler.h:66-128 | in every run, accepted items are the disjoint union of pending, executed once, and cleared, if and only if no disturbed timed wait ended with a timeout; in such runs execution is in order of scheduled time over the whole run |
| SchedulerMachine.DisturbedExactly | src/task/Scheduler.h:75-84 | while the worker is in a timed wait, the item it saved is still on top if and only if since the wait began no item due earlier was pushed and the queue was not cleared |
| SchedulerMachine.DisturbedTimeout | src/task/Scheduler.h:75-86 | a reachable state in which an item was popped without running and another has run and is still pending, although execution is in order |
| SchedulerMachine.NeverExecutedEarly | src/task/Scheduler.h:75-86 | in every run, disturbed or not, nothing runs before its scheduled time |
| SchedulerMachine.DelayIsHonoured | src/task/Scheduler.h:75-109 | in every run, the items accepted are exactly the insertions, each due the delay its caller asked for, read off the events, after the clock at its push; and none is executed before that |
| SchedulerMachine.LeavesWhenDone | src/task/Scheduler.h:67-67 | the worker leaves its loop only with the flag down and nothing pending, and then does when it tests; it does not come back |
| SchedulerMachine.LeftBehind | src/task/Scheduler.h:67-109 | after the worker has left nothing is executed, and an item is accepted all the same if and only if a client was between its test of the flag and its push when the worker left |
| SchedulerMachine.AcceptedTooLate | src/task/Scheduler.h:106-118 | a reachable state with an item accepted that nobody will execute |
| SchedulerMachine.InsertionsLoseNoWakeUp | src/task/Scheduler.h:103-115 | whenever the worker sleeps although something pending should wake it, some client still owes a notification, and paying it wakes the worker |
| SchedulerMachine.SilentPushIsNoEarlier | src/task/Scheduler.h:107-113 | a client that skips the notification has pushed nothing due before the item on top, although the clock moved between its test and its push |
| SchedulerMachine.Invariant | src/task/Scheduler.h:66-128 | every reachable state keeps the heap order, the lock discipline, the worker's hold on the saved item and the owed notifications |
| SchedulerMachine.WrongForGood | src/task/Scheduler.h:78-86 | a disturbed timeout loses an item or pops an empty queue, and nothing later repairs it |
| SchedulerObject.Scheduler.Execute | src/task/Scheduler.h:103-115 | an active scheduler accepts exactly one item more, due the delay asked for, or none if that is negative, after the clock at its push, and keeps an earliest item on top; a notification is needed exactly if nothing was pending or the top was due later than the delay; an inactive one changes nothing |
| SchedulerObject.Scheduler.NotifyOne | src/task/Scheduler.h:112-112 | paying an owed notification takes a waiting worker out of its wait |
| SchedulerObject.Scheduler.Shutdown | src/task/Scheduler.h:117-128 | a shutdown that need not wait for the lock lowers the flag, clears the queue if not asked to wait for completion, and wakes the worker |
| SchedulerObject.Scheduler.LowerFlag | src/task/Scheduler.h:118-118 | the flag is lowered at once, whoever holds the lock |
| SchedulerObject.Scheduler.ClearQueue | src/task/Scheduler.h:121-124 | what was pending is cleared, once the lock is there |
| SchedulerObject.Scheduler.WakeAll | src/task/Scheduler.h:127-127 | afterwards the worker is in no wait |
| SchedulerObject.Scheduler.TestLoop | src/task/Scheduler.h:67-67 | the worker leaves exactly if the flag is down and nothing is pending |
| SchedulerObject.Scheduler.LockAndLookAtTop | src/task/Scheduler.h:68-76 | the worker waits untimed on an empty queue, and otherwise saves the top and its delay under the lock |
| SchedulerObject.Scheduler.RelockAfterWait | src/task/Scheduler.h:70-76 | after an untimed wait the worker looks again and starts over if nothing is there |
| SchedulerObject.Scheduler.WaitOrRun | src/task/Scheduler.h:77-86 | an item not yet due is slept for, for exactly as long as it has to wait; any other is popped and run |
| SchedulerObject.Scheduler.RelockAfterTimedWait | src/task/Scheduler.h:78-86 | before the deadline the worker starts over, after it the worker pops the top and runs what it saved; the pop is undefined exactly when the queue was cleared meanwhile |
| SchedulerObject.Scheduler.PopTop | src/task/Scheduler.h:84-84 | popping brings any of the earliest remaining items to the top and loses no other |
| SchedulerObject.Scheduler.RunEnds | src/task/Scheduler.h:86-87 | after a run the loop starts over |
| PromiseMachine.ExactlyOnce | src/task/TaskPromise.h:97-119 | once completion is over, the callback of every handler attached before it, read off the events, has been called exactly once if and only if none lets out an exception (while an exception is delivered, none before the last) |
| PromiseMachine.KeepsWhatIsAttached | src/task/TaskPromise.h:72-81 | in every run the early callbacks are exactly the distinct handlers attached before the coroutine ended, the late ones those attached after it, each in order, and the first result is what it ended with, all read off the events |
| PromiseMachine.InOrderWithOneResult | src/task/TaskPromise.h:55-103 | under that condition the early callbacks are called first and in registration order, everything called and every getter sees the one outcome, and the callback list is empty unless the last one threw |
| PromiseMachine.ResultReplaced | src/task/TaskPromise.h:55-119 | the result stays what the coroutine ended with, unless a callback lets out an exception while a value is returned |
| PromiseMachine.LateCalledOnce | src/task/TaskPromise.h:72-81 | a callback registered after completion is called exactly once when its turn has come, and not before |
| PromiseMachine.OutcomeDispatch | src/task/Task.h:63-104 | for handlers attached before or after completion, whatever their functions do, when no early callback lets an exception out before its turn to be last: a value calls the function of every then, once and with that value, and of no catching; a standard exception that of every catching, once and with that exception, and of no then; that of every finally is called once; nothing else is called |
| PromiseMachine.EarlyDispatch | src/task/TaskPromise.h:55-119 | in every run, the function of the k-th early handler is called with its share of what the coroutine ended with and then its share of the exception that replaced it: what is promised, if the loop gets that far |
| PromiseMachine.DispatchExactly | src/task/TaskPromise.h:97-119 | once completion is over, the function of an early handler has been called as promised if and only if the loop reaches it where it has something to do, and a second round does not call a finally again or a catching for a value; a condition on the handlers and the outcome |
| PromiseMachine.LateDispatch | src/task/TaskPromise.h:72-81 | a handler attached after completion gets what is promised for the result it found, in every run, once when its turn has come and not before |
| PromiseMachine.CallbackKeepsPromise | src/task/Task.h:63-104 | the try blocks that then, catching and finally wrap around the user's function call it exactly when promised, with the value or exception promised |
| PromiseMachine.EscapesExactly | src/task/Task.h:63-104 | which callbacks let an exception out, by handler, function and outcome: then swallows standard exceptions of its own function, catching and finally swallow none of theirs |
| PromiseMachine.CalledTwice | src/task/TaskPromise.h:55-119 | a run in which a callback is called twice, its function too, and the result is replaced |
| PromiseMachine.NonStandardException | src/task/Task.h:63-104 | with an exception that is not a std::exception all early callbacks are called once exactly when only finally handlers that do not throw stand before the last |
| PromiseMachine.Invariant | src/task/TaskPromise.h:55-119 | in every reachable state the calls are those of the completion, of its replacement and of late callbacks, in that order |
| PromiseObject.TaskPromise.OnCompleted | src/task/TaskPromise.h:72-81 | before completion every callback is queued at the end of the list; after it, it is handed back with the result to be called outside the lock |
| PromiseObject.TaskPromise.NotifyCallbacks | src/task/TaskPromise.h:97-103 | the loop calls the callbacks one by one, in order, up to the first that lets something out, and clears the list only if none does |
| PromiseObject.TaskPromise.ReturnValue | src/task/TaskPromise.h:114-119 | the value becomes the result, every queued callback is called with it in order unless one lets something out, and what comes out goes on into the coroutine |
| PromiseObject.TaskPromise.UnhandledException | src/task/TaskPromise.h:55-60 | the exception becomes the result, in place of a value if need be, and the queued callbacks are called with it in order unless one lets something out |
| PromiseObject.TaskPromise.GetResult | src/task/TaskPromise.h:63-70 | a getter returns the result it finds, and blocks if there is none |
| PromiseObject.TaskPromise.WokenGetter | src/task/TaskPromise.h:66-69 | a blocked getter woken by the completion returns the result |
| PromiseObject.TaskPromise.EntirelyFinish | src/task/TaskPromise.h:83-85 | reports done exactly when completion is over and nothing came out of it |
| PromiseObject.TaskAwaiter.BeforeResume | src/task/TaskAwaiter.h:35-37 | takes over the awaited task's value, or lets its exception out and keeps no result |
| PromiseObject.TaskAwaiter.Destroy | src/task/Task.h:130-135 | destroying the awaiter destroys the task, which ends the process exactly when the result is an exception |
| PromiseObject.TaskAwaiter.AwaitResume | src/task/CommonAwaiter.h:24-27 | co_await on a complete task gives its value, or ends the process |
| AwaitChain.OutcomeTravels | src/task/TaskAwaiter.h:29-37 | in a chain of any length, under any interleaving, no resume finds the awaited result missing; a completed task has the innermost outcome, and one that awaits another can only complete with a value |
| AwaitChain.MovesRunOut | src/task/TaskAwaiter.h:29-33 | every move of a task, callback or resume leaves strictly less to do |
| AwaitChain.CompletesExactly | src/task/Task.h:130-135 | when no move is left and the innermost task is complete, every task is complete with its outcome if and only if nobody awaits it or it is a value; otherwise the process has terminated, and no task but the innermost ever completed |
| AwaitChain.ExceptionTerminates | src/task/TaskAwaiter.h:35-40 | a run: one task awaits another that throws, and the process terminates |
| BusyTime.ExactAccounting | src/task/ElasticExecutor.cpp:45-84 | under any interleaving of worker, sampler and clock, the counter plus the unseen stretch of the task in flight is the worker's true busy time inside the window; the counter never exceeds the window and every reported rate lies between 0 and 1 |
| BusyTime.RatesAreTrue | src/task/ElasticExecutor.cpp:67-84 | in every run, every rate ever reported was the true busy share of the window when it was sampled |
| BusyTime.NoWrap | src/task/ElasticExecutor.cpp:58-76 | no unsigned subtraction or addition of the accounting wraps |
| BusyTime.WorkerThread.BeginTask | src/task/ElasticExecutor.cpp:50-52 | a task begins at a checkpoint, and the worker is busy from there |
| BusyTime.WorkerThread.SetRunning | src/task/ElasticExecutor.cpp:53-56 | the flag is set and cleared outside the checkpoint lock, while the task is in flight |
| BusyTime.WorkerThread.EndTask | src/task/ElasticExecutor.cpp:57-59 | the stretch of the task is over, and after the final accounting the counter is the true busy time inside the window |
| BusyTime.WorkerThread.GetOccupiedRate | src/task/ElasticExecutor.cpp:67-84 | the rate times the window is the true busy time inside the window, but for what a task in flight whose flag is not up has done since the last checkpoint; with an empty window it is the flag; a window longer than 5000 is restarted |
| WorkerPool.TaskConservation | src/task/ElasticExecutor.cpp:40-143 | every submitted task is in exactly one place: queued, in flight on exactly one worker, or done; tasks leave the queue in the order of submission |
| WorkerPool.ReapDropsNothing | src/task/ElasticExecutor.cpp:135-143 | removing a retired worker changes no task, and leaves a worker |
| WorkerPool.NeverEmptyAgain | src/task/ElasticExecutor.cpp:127-143 | once there is a worker there is one in every later state |
| WorkerPool.StoppedWorkerLeaves | src/task/ElasticExecutor.cpp:40-65 | whatever else happens, a stopped worker takes at most three further steps, one of them perhaps a last task, and has a step until it is out of its loop, so joining it ends |
| WorkerPool.Supervise | src/task/ElasticExecutor.cpp:117-135 | the average is the mean of the rates and a fraction; a worker is to be added exactly if a task waits and the pool is empty or loaded to 0.95, retired exactly if the load is below 0.40 and it is not the last; never both in one pass |
| WorkerPool.ElasticExecutor.Execute | src/task/ElasticExecutor.cpp:109-112 | submitting appends one task to the queue |
| WorkerPool.ElasticExecutor.WorkerTurn | src/task/ElasticExecutor.cpp:48-64 | a running worker that gets its pause lock takes the earliest task, if there is one, and otherwise starts over |
| WorkerPool.ElasticExecutor.FinishTask | src/task/ElasticExecutor.cpp:54-56 | the task a worker was busy with is done, for the first time |
| WorkerPool.ElasticExecutor.Pass | src/task/ElasticExecutor.cpp:116-143 | one pass adds a worker exactly if a task waits and the pool is empty or its mean rate is 0.95 or more, stops one exactly if there are several, the mean is below 0.40 and one can be paused, and otherwise changes nothing |
| WorkerPool.ElasticExecutor.Erase | src/task/ElasticExecutor.cpp:138-138 | a retired worker is erased once it has left its loop |
| Frames.StreamRoundTrip | src/network/NetworkManager.cpp:157-212 | any list of messages and rank reports that the format can carry is parsed into exactly these, in order, however the payload reads are cut |
| Frames.FrameBytes | src/network/NetworkManager.cpp:203-212 | every byte of a message on the wire: no flags, type 0, size, payload, and the code 0xDEADFACE, low end first |
| Frames.ReportBytes | src/network/NetworkManager.cpp:359-369 | every byte of a rank report: type 1, the port in network order, the rank in two's complement, and the code |
| Frames.ParsesExactly | src/network/NetworkManager.cpp:145-170 | what the parser makes of any stream that holds a header, byte by byte: what it hands on, what it leaves, and why it stops |
| Frames.ParsesShort | src/network/NetworkManager.cpp:146-170 | and of a stream that ends inside a header |
| Frames.MessageArrivesExactly | src/network/NetworkManager.cpp:203-210 | a message of any length arrives as sent, with what follows left in place, exactly when it is not empty and shorter than 2^32 bytes |
| Frames.CutInsidePayload | src/network/NetworkManager.cpp:313-326 | a stream cut inside a payload hands on all that came before and never the cut message |
| Frames.HeadRoundTrip | src/network/NetworkManager.h:19-27 | every header survives the wire |
| Frames.HeadIsOnto | src/network/NetworkManager.h:19-27 | every eight bytes are the header of exactly one value: no bit is unused |
| Frames.PortOrder | src/network/NetworkManager.cpp:341-341 | the port of a rank report travels and stays in network order |
| Frames.ReportReadBack | src/network/NetworkManager.cpp:334-370 | a rank report is parsed into its rank, of either sign, and its port |
| Frames.AnySplit | src/network/NetworkManager.cpp:313-323 | however the reads are cut, the payload loop takes exactly the declared bytes, or all there are |
| Frames.AllTaken | src/network/NetworkManager.cpp:144-170 | a stream parsed to its end into messages and rank reports is exactly as long as their frames, and no message handed on is empty or of 2^32 bytes or more |
| Receiver.FillPayload | src/network/NetworkManager.cpp:307-326 | the loop ends, the range check of set never throws, what is stored is what was consumed, and the connection is closed if the loop breaks off |
| Receiver.ReadNormalMessage | src/network/NetworkManager.cpp:305-332 | hands a message on only when payload and verify code are complete and right |
| Receiver.ReadRankReportMessage | src/network/NetworkManager.cpp:334-347 | hands the rank and port on only after the right verify code |
| Receiver.ReadVerify | src/network/NetworkManager.cpp:349-357 | reads the code, and closes the connection when nothing is there |
| Receiver.Serve | src/network/NetworkManager.cpp:144-170 | serving one connection until it ends hands on exactly what the parser says |
| Receiver.ByteArray.Set | src/basic/Bytes.cpp:49-54 | throws exactly when the bytes do not fit and then changes nothing; otherwise replaces exactly that range |
| Sender.SendOnce | src/network/NetworkManager.cpp:193-227 | alone, for every pattern of failures, a call returns exactly when it wrote one whole frame, and makes at most one write of a frame in any case; a partial write is never followed by another attempt |
| Sender.RetryReconnects | src/network/NetworkManager.cpp:194-220 | after a write that failed, the rest of the call never writes to that socket or any other there was: a frame it writes goes to a connection opened since, behind a whole rank report |
| Sender.SendsAnew | src/network/NetworkManager.cpp:28-67 | a call for a rank with no cached socket writes to a new connection or not at all |
| Sender.RegisteredAnew | src/network/NetworkManager.cpp:229-241 | a target registered anew is connected to anew |
| Sender.OneWritePerCall | src/network/NetworkManager.cpp:193-227 | however calls interleave, each has made at most one write of a frame, of its own payload, and is over then: returned after a whole frame, thrown after part of one; a call with an attempt returns only after such a write |
| Sender.NeverSameSocket | src/network/NetworkManager.cpp:212-220 | however calls interleave, a call whose write on a socket failed never writes to that socket again |
| Sender.ForgottenIsReopened | src/network/NetworkManager.cpp:28-67 | after a socket is forgotten, the next to open one for that rank gets a new one, behind a whole rank report, or none |
| Sender.GivesUpLate | src/network/NetworkManager.cpp:194-225 | a call that is over without a write has thrown after failing retry + 1 times to get a socket or to write, counted off the events; one that wrote had failed no more than retry times |
| Sender.CallsEnd | src/network/NetworkManager.cpp:194-225 | a call that is not over has a step, whatever the system calls do, and each step brings it nearer to its end |
| Sender.AloneIsSend | src/network/NetworkManager.cpp:193-227 | a call that nothing interleaves with does what the loop of a single call says |
| Sender.WireExactly | src/network/NetworkManager.cpp:28-67 | after any interleaving of calls, registrations and incoming reports, every connection this side opened starts with a complete rank report, and carries after it exactly the frames of the messages sent in full, if and only if no partial write went to it |
| Sender.AcceptedWireExactly | src/network/NetworkManager.cpp:193-227 | a connection accepted from a peer carries exactly the frames of the messages sent in full if and only if no partial write went to it |
| Sender.EndToEnd | src/network/NetworkManager.cpp:193-377 | on every connection this side opened, the peer's parser hands on the rank report and then exactly the messages sent in full, in order, if and only if no partial write went to it and the format can carry each of them |
| Sender.AcceptedEndToEnd | src/network/NetworkManager.cpp:193-347 | and the peer's parser hands on exactly those messages if and only if, besides, the format can carry each of them |
| Sender.SpoiledConnection | src/network/NetworkManager.cpp:212-223 | a reachable state in which a partial write is followed by a whole frame on the same connection |
| SenderObject.NetworkManager.GetSendSocket | src/network/NetworkManager.cpp:28-67 | reuses a cached socket, or opens one and caches it exactly if the whole rank report was written, as the first bytes of its wire; otherwise there is none |
| SenderObject.NetworkManager.ClearSendSocket | src/network/NetworkManager.cpp:285-291 | the cached socket of a known rank is forgotten, and nothing else |
| SenderObject.NetworkManager.RegisterTarget | src/network/NetworkManager.cpp:229-241 | a target has the address given, in network order, and no socket, whatever it had before |
| SenderObject.NetworkManager.EnterReported | src/network/NetworkManager.cpp:340-345 | a reported rank that is not known is entered with the connection it came in on; a known one stays |
| SenderObject.NetworkManager.SendMessage | src/network/NetworkManager.cpp:193-227 | the loop stops within retry + 1 attempts, and earlier only after a write; it does what the recursive form says; it returns normally exactly when one whole frame was written |

## Left out

- That the scheduler's loop exits: the flag is lowered without the lock, so a worker that has just tested it can miss the notification.
- The direction of `SchedulerMachine.LedgerExactly` from time order back to undisturbed waits: it is false, `SchedulerMachine.DisturbedTimeout` keeps the order.
- Spurious wake-ups of a blocked `get_result`: a wake means completion.
- Executors that run inline: callbacks and clean-up resumes would run under a lock that is not recursive.
- Memory order, and the unlocked reads of the scheduler's queue in its loop test and of the promise by the keeper of detached tasks.
- Lifetimes: a channel outlived by its awaiters; an awaiter destroyed while a push still owes it a resume; an awaited coroutine whose frame the awaiting one destroys while its own thread is between the unlock in `return_value` and its final suspend; the move assignment of `Bytes`; the destruction of executors.
- The check of the flag when a read or write is created, before it is pushed: the check under the lock covers it.
- The pause lock of a worker: the model lets the supervisor retire any worker at any point, which is more than the lock allows.
- Who is retired first, and that the supervisor samples every worker twice per pass: the pass takes one list of rates.
- A write of a frame that the system splits between two calls on one connection: each write is one step.
- The keeper of detached tasks, sleeping, dispatching and future awaiters, the looper executor, threads, logging.
- Real sockets, epoll, name look-up and the accept loop; a leaked descriptor after a failed connect; the reuse of descriptor numbers. Sockets are numbered freshly.
- Short reads of a header beyond one call, and the verify code left unset by a failed read: the model reports it as undefined.
- `Bytes` other than allocation by size and `set`; sizes near 2^64, where `start + size` would wrap.
