# Verified model of a green-thread library

The repository runs green threads (`gevent.c`) on stacks that are copied lazily (`stacklet/stacklet.c`),
over an event loop (`libuv/`).  This project models the parts with the hardest invariants in Dafny and
proves what they promise, for every input, every run and every order of callbacks.

- **Stacks** (`Stacklet.dfy`, `StackletRuns.dfy`).  The C stack is an array of bytes; a suspended stack lies
  partly there and partly in a heap copy, and the partly saved ones are chained by pointers.  The platform
  switch is "save, then restore" as one step; the running stack may write anything below
  `g_current_stack_stop`.  Main result: in every run of `stacklet_new`, `stacklet_switch`,
  `stacklet_destroy` and run functions that return, a stack that is entered again holds the bytes it held
  when it was left.
- **Ordered sets** (`TreeShape.dfy`, `TreeBalance.dfy`, `RedBlackTree.dfy`).  The red-black trees of `tree.h`
  on nodes with parent pointers; a zipper value says what memory holds between any two pointer writes.
- **Timers** (`Timers.dfy`) and **signal watchers** (`SignalWatchers.dfy`) work on that very tree.
- **Thread pool** (`ThreadPool.dfy`, `WorkItems.dfy`, `PoolSafety.dfy`, `PoolWakeups.dfy`, `PoolRuns.dfy`,
  `PoolCompletion.dfy`, `PoolCancels.dfy`, `PoolOrder.dfy`).  Workers,
  submitting, cancelling and event-loop threads, the exit message and the coalescing wake-up pipe are a
  state machine in which every lock operation and every access in between is a step of its own;
  condition variables may wake up spuriously.  `uv_cancel` is called on the loop thread before the done
  callback.
- **Async handles** (`AsyncHandles.dfy`): the same wake-up protocol by itself, for any number of handles on one pipe
  and any number of sending threads.
- **Barrier** (`Barrier.dfy`): the two turnstiles of the Windows barrier, for any number of threads and rounds.
- **Cothreads** (`SchedulerState.dfy`, `Receipts.dfy`, `Gevent.dfy`, `GeventRuns.dfy`): the scheduler, channels and semaphores over
  single-use stack handles.  One method call goes from one point where user code or the event loop is in
  control to the next, across the switch.  The fields of the union `op` are separate fields.
- **Streams** (`StreamWrites.dfy`): the write queue over a kernel that takes any part of what it is offered.  The
  offers and answers are recorded by the kernel's side alone; the books of the stream are proved against them.
- **Watchers under re-entrant callbacks** (`LoopWatcher.dfy`, `FsPoll.dfy`) and the **intrusive queues**
  (`NgxQueue.dfy`) under the sequences of the other modules.
- **Text**: addresses (`InetText.dfy`, `InetCanonical.dfy`, `Inet.dfy`) after RFC 4291, section 2.2, and RFC 5952,
  and Windows command lines (`CommandLine.dfy`) after the rules of the Microsoft C runtime.
- `Options.dfy` holds what all share.

Kernels, callbacks, arriving signals, thread schedules and the success of `malloc` and system calls are
parameters of any value.  `dafny verify dfyconfig.toml` checks everything.

## What the proofs found

- `_get_next_stacklet` falls back to `main` even if `main` is blocked (`gevent.c:181-183`).  A receive of `main`
  then returns without a send, an acquire without a release, a sleep before its timer fires.
  `Gevent.Hub.Finish` and `Gevent.Hub.EndLoop` say exactly when; `GeventRuns.ReceiveWithoutSend` and
  `GeventRuns.SleepCutShort` are runs in which it happens.  Everything else about channels holds for the
  calls that are not broken off in this way.
- `stacklet.h:50-52` lets `stacklet_destroy` take a handle of another thread, but the code looks for it only in the
  chain of the thread it is given (`stacklet.c:312-317`).  If some of the handle's stack is not saved yet, it stays on
  its own thread's chain after it was freed; otherwise, and only then, all is well
  (`StackletCore.Thread.Destroy`).  `StackletRuns.DestroyThroughAnotherThread` is a run in which it goes wrong.
- After a failed `shutdown(2)` the stream stays `UV_STREAM_SHUTTING` without a request, and the next drain fails
  `assert(stream->shutdown_req)` (`stream.c:631-634`).  `StreamWrites.Stream.Drain` says exactly when,
  `StreamWrites.FailedShutdownThenWrite` is a run.
- A `uv_shutdown` while an earlier one is still pending replaces its request (`stream.c:1058`), whose callback is then
  never called.  All shutdown requests of a stream have exactly one callback if and only if this never
  happened (`StreamWrites.Stream.Destroy`); `StreamWrites.TwoShutdowns` is a run in which it does.
- A timer callback that starts its timer for now is called again in the same pass, as often as it does so
  (`Timers.StartedForNow`): there is no bound on the length of a pass.
- A signal that finds more watchers on a loop than its pipe has room for messages fails the assertion
  `signal.c:160-161`.  `SignalWatchers.Process.Handler` gives the exact condition.
- Empty arguments vanish from a Windows command line, and only they (`CommandLine.RoundTripIffNoneEmpty`).  The
  comment at `process.c:429-430` shows a closing backslash left single; the code doubles it, which is
  right.  Without any argument the buffer has no room even for a NUL (`CommandLine.MakeProgramArgs`).
- `uv__next_timeout` is exact only below 2^31 milliseconds (`Timers.ExactTimeout`).
- The test of `inet_ntop6` for a zero run of length 7 before an IPv4 suffix (`inet.c:136`) can never succeed, because
  group 6 is then inside the run: `Inet.WriteWords` makes the test and is proved to write the form that is
  defined without it.

## Model

| member | source | states |
|---|---|---|
| `StackletCore.Thread.Save` | stacklet/stacklet.c:73-113 | The heap copy grows to the bytes below `stop`, each copied once; every suspended stack keeps the bytes it had at its suspension |
| `StackletCore.Thread.AllocateSource` | stacklet/stacklet.c:120-138 | The running stack becomes the head of the chain, wholly unsaved, with its bytes recorded; on a failed allocation nothing changes |
| `StackletCore.Thread.Unlink` | stacklet/stacklet.c:150-163 | A stacklet that lies wholly in the area to clear is saved to its own stop (unless it is the target) and leaves the chain |
| `StackletCore.Thread.SavePartial` | stacklet/stacklet.c:165-173 | The first stacklet that reaches beyond the area is saved exactly up to it, if it reaches into it at all; the rest of the chain stays and nothing else is copied |
| `StackletCore.SavedBelow` | stacklet/stacklet.c:73-113 | That amount is the least that is at least the old one and leaves nothing unsaved below the bound |
| `StackletCore.Thread.ClearStack` | stacklet/stacklet.c:142-174 | Saving is lazy: afterwards every suspended stacklet but the target has saved the bytes that lie in the area to clear, and no more than these and what it had saved before; none but the target depends on C-stack bytes below the target's stop |
| `StackletCore.Thread.Restore` | stacklet/stacklet.c:217-233 | The C stack of the target holds again the bytes it held at its suspension, and its stop is the current one |
| `StackletCore.Thread.InitialSave` | stacklet/stacklet.c:192-202 | The source is suspended with exactly the bytes below the marker saved |
| `StackletCore.Thread.New` | stacklet/stacklet.c:284-295 | A new stack runs below the marker; the caller's stack is a stacklet that can be resumed intact |
| `StackletCore.Thread.Switch` | stacklet/stacklet.c:297-307 | The target's bytes are back as at its suspension, the caller is suspended, all others stay intact and are saved no further than the target's stop requires |
| `StackletCore.Thread.Finish` | stacklet/stacklet.c:205-212 | A run function that ends hands over to its target in the same way, as lazily, leaving no source |
| `StackletCore.Thread.RemoveFromChain` | stacklet/stacklet.c:311-317 | The handle is taken out of the chain if it is there, wherever it is; the others stay chained in order |
| `StackletCore.Thread.Destroy` | stacklet/stacklet.c:309-319 | The handle, of this or another thread, is given up and all others stay intact; its owner stays consistent if and only if it is this thread or the handle was saved completely, else the freed handle stays on the chain of its owner |
| `StackletCore.ChainedInOrder` | stacklet/stacklet.c:48-55 | Along the chain the unsaved part of each stacklet lies wholly below that of every later one: they are disjoint and the stops increase |
| `StackletCore.TranslatedByteIsTheSuspendedByte` | stacklet/stacklet.c:321-342 | What is read through a translated pointer is the value at suspension, half saved or not |
| `StackletRuns.Program.Step` | stacklet/stacklet.c:284-319 | Every call that is possible, and no other, is carried out; it keeps all suspended stacks intact, and a resumed one gets its bytes back |
| `StackletRuns.Run` | stacklet/stacklet.c:73-319 | Resume fidelity over every run from a fresh thread |
| `StackletRuns.DestroyThroughAnotherThread` | stacklet/stacklet.c:312-317 | A run in which a freed handle is left on the chain of its thread |
| `TreeOrder.CompareIsATotalOrder` | libuv/src/unix/timer.c:25-35 | The comparison is a strict total order with equality only for equal keys, also for uv__signal_compare |
| `TreeBalance.RotatedLeftElements` | libuv/include/uv-private/tree.h:342-360 | A left rotation keeps the elements and their order |
| `TreeBalance.RotatedRightElements` | libuv/include/uv-private/tree.h:362-380 | A right rotation keeps the elements and their order |
| `TreeBalance.InsertStepColours` | libuv/include/uv-private/tree.h:407-449 | One turn of the insertion fix-up leaves at most one red-red edge, higher up, and the black heights equal |
| `TreeBalance.RaiseSiblingKeeps` | libuv/include/uv-private/tree.h:460-464 | Deletion, red sibling: one black is still missing in the same place, the sibling is black, the elements stay |
| `TreeBalance.PassUpKeeps` | libuv/include/uv-private/tree.h:465-471 | Deletion, black nephews: the missing black moves up to the parent |
| `TreeBalance.RaiseNephewKeeps` | libuv/include/uv-private/tree.h:473-482 | Deletion, only the near nephew red: afterwards the far one is |
| `TreeBalance.SettleKeeps` | libuv/include/uv-private/tree.h:483-489 | Deletion, far nephew red: the rotation pays the missing black and the tree is red-black |
| `TreeBalance.UnhookColours` | libuv/include/uv-private/tree.h:579-593 | Taking a node out from above its only child costs one black exactly if it was black |
| `TreeBalance.HeightBound` | libuv/include/uv-private/tree.h:53-61 | The height is at most 2 lg (n + 1) |
| `RedBlackTree.Head.RotateLeft` | libuv/include/uv-private/tree.h:342-360 | The pointer writes turn memory from the tree to its rotation, parents and root included |
| `RedBlackTree.Head.RotateRight` | libuv/include/uv-private/tree.h:362-380 | The mirror image |
| `RedBlackTree.Head.InsertColour` | libuv/include/uv-private/tree.h:407-449 | The loop ends with a red-black tree, a black root and the same elements |
| `RedBlackTree.Head.RemoveColour` | libuv/include/uv-private/tree.h:451-528 | From a tree one black short the loop ends with a red-black tree of the same elements |
| `RedBlackTree.Head.Descend` | libuv/include/uv-private/tree.h:604-614 | The search ends at the key or at the only place where it may be inserted |
| `RedBlackTree.Head.Insert` | libuv/include/uv-private/tree.h:598-626 | The element is added, or the equal one returned and nothing changed; order, links, colours and black heights hold |
| `RedBlackTree.Head.Splice` | libuv/include/uv-private/tree.h:539-577 | Removing a node with two children puts its successor in its place, with all links and colours |
| `RedBlackTree.Head.SpliceOne` | libuv/include/uv-private/tree.h:579-590 | Removing a node with one child or none puts the child in its place |
| `RedBlackTree.Head.Remove` | libuv/include/uv-private/tree.h:530-595 | Exactly this element and its node leave the tree; all invariants hold again |
| `RedBlackTree.Head.Find` | libuv/include/uv-private/tree.h:628-644 | The element with the key, or null if and only if there is none |
| `RedBlackTree.Head.FindAtLeast` | libuv/include/uv-private/tree.h:646-665 | The least element not below the key, or null if all are below |
| `RedBlackTree.Head.Next` | libuv/include/uv-private/tree.h:667-687 | The next element in order, or null after the last |
| `RedBlackTree.Head.Min` | libuv/include/uv-private/tree.h:711-724 | The first element in order, or null for the empty tree |
| `RedBlackTree.Head.InOrder` | libuv/include/uv-private/tree.h:738-741 | The iteration lists every element once, in order |
| `Timers.Loop.Start` | libuv/src/unix/timer.c:49-67 | The timer is due at the given distance from now, whatever it was before, and no other changes |
| `Timers.Loop.Stop` | libuv/src/unix/timer.c:70-78 | The timer is not due any more, and no other changes; its key was not touched while it was in the tree |
| `Timers.Loop.Again` | libuv/src/unix/timer.c:81-91 | A timer once started is due after its repeat, if it has one; else EINVAL |
| `Timers.Loop.SetRepeat` | libuv/src/unix/timer.c:94-97 | The repeat of a started timer changes, and nothing else; the deadlines stay |
| `Timers.Loop.First` | libuv/src/unix/timer.c:109-112 | The earliest timer, of equals the one at the lowest address, or none if none is active |
| `Timers.Loop.NextTimeout` | libuv/src/unix/timer.c:105-118 | -1 without timers, 0 if the earliest is due, else its distance as a 32-bit int |
| `Timers.ExactTimeout` | libuv/src/unix/timer.c:117 | The distance survives the conversion if and only if it is below 2^31 |
| `Timers.Loop.RunTimers` | libuv/src/unix/timer.c:121-132 | A pass ends for all callbacks that start, stop or repeat any timers finitely often; each call is of the timer that is then the earliest and due, with the deadlines that all calls before have left; if the callbacks leave the timers alone, exactly the due ones are called, each once, in order of time and address, repeating ones are armed strictly later, others stopped, the rest untouched |
| `Timers.StoppedIsNotCalled` | libuv/src/unix/timer.c:121-132 | A timer that is not armed when a callback is over, and that no later callback arms, is not called any more in this pass |
| `Timers.QuietPass` | libuv/src/unix/timer.c:124-131 | What a pass does if the callbacks do nothing follows from what each turn does |
| `Timers.StopInCallback` | libuv/src/unix/timer.c:128-130 | A timer that a callback stops, and does not start or repeat after that, is not armed when the callback is over, the called timer included |
| `Timers.StartInCallback` | libuv/src/unix/timer.c:128-130 | One that it starts is due after the timeout of its last start |
| `Timers.AgainInCallback` | libuv/src/unix/timer.c:128-130 | One that it repeats is due after what its repeat then is, if not zero |
| `Timers.CalledTimer` | libuv/src/unix/timer.c:128-130 | If the callback does not start, stop or repeat its own timer, that is due after the repeat it had before the callback, whatever the callback sets it to, or not armed without one |
| `Timers.OtherTimers` | libuv/src/unix/timer.c:124-131 | Every other timer that the callback leaves alone is due when it was |
| `Timers.RepeatAfter` | libuv/src/unix/timer.c:94-97 | The repeat of a timer is what the callback has set last |
| `Timers.NeverStarted` | libuv/src/unix/timer.c:81-83 | Only a start arms a timer that was never started |
| `Timers.StartedForNow` | libuv/src/unix/timer.c:124-131 | For every n, a timer started for now by n callbacks is called n + 1 times in one pass |
| `Timers.CalledAsOftenAsStarted` | libuv/src/unix/timer.c:121-132 | Such passes exist |
| `PoolRuns.InitialInv` | libuv/src/unix/threadpool.c:90-106 | The invariants hold at the start |
| `PoolRuns.TakeStep` | libuv/src/unix/threadpool.c:49-70 | Every step of a worker up to the work function keeps them, also the exit message |
| `PoolRuns.DeliverStep` | libuv/src/unix/threadpool.c:70-78 | So does every step of handing an item to its loop and waking the loop |
| `PoolRuns.PostStep` | libuv/src/unix/threadpool.c:82-87 | So does every step of posting |
| `PoolRuns.CancelStep` | libuv/src/unix/threadpool.c:142-156 | So does every step of cancelling under both locks; what it decides is in PoolCancels.CancelDecides |
| `PoolRuns.RequeueStep` | libuv/src/unix/threadpool.c:158-164 | So does every step of giving a cancelled item to its loop |
| `PoolRuns.PollStep` | libuv/src/unix/async.c:116-146 | So does every step of draining the pipe and sweeping the pending flag |
| `PoolRuns.DoneStep` | libuv/src/unix/threadpool.c:168-193 | So does every step of splitting the loop's queue and calling the done callbacks |
| `PoolRuns.StepKeeps` | libuv/src/unix/threadpool.c:34-193 | All of them, for every event that is possible |
| `PoolRuns.ExactlyOnePlace` | libuv/src/unix/threadpool.c:49-78 | In every reachable state each submitted item is in exactly one of the global queue, execution, cancelling, its loop's queue, the batch being drained, or done; and in no queue twice |
| `PoolRuns.DoneTellsTheTruth` | libuv/src/unix/threadpool.c:185-192 | The done callback is called at most once, with UV_ECANCELED if and only if the work function never ran, and if and only if a uv_cancel returned 0 |
| `PoolRuns.WorkersUseLiveItems` | libuv/src/unix/threadpool.c:34-36 | A worker never calls uv__cancelled or NULL, runs an item once, and uses none whose done callback was called |
| `PoolRuns.LoopHolderMoves` | libuv/src/unix/threadpool.c:72-77 | Who holds a loop's mutex can go on |
| `PoolRuns.MutexHolderMoves` | libuv/src/unix/threadpool.c:145-153 | Who holds the global mutex can go on, or waits for a loop's mutex whose holder can: no deadlock |
| `PoolRuns.WaitingRequestsHaveAWorker` | libuv/src/unix/threadpool.c:51-62 | With a non-empty global queue some worker is awake and not on its way out, unless the exit message is at the head of the queue and nobody sleeps; through cancelling, signals and the exit cascade |
| `PoolRuns.QuietLoopWillPoll` | libuv/src/unix/async.c:140-145 | A pending flag with nobody about to write or to sweep has a byte in the pipe |
| `PoolRuns.NoLostWakeUp` | libuv/src/unix/threadpool.c:72-77 | A loop queue that is not empty always has a wake-up outstanding |
| `PoolCompletion.StepCloser` | libuv/src/unix/threadpool.c:34-193 | Every step of a worker, a loop thread or an exit under way leaves strictly less to do, so that no schedule keeps the pool busy for ever |
| `PoolCompletion.RestMeansDone` | libuv/src/unix/threadpool.c:34-193 | If none of them can take a step, and there is a worker, every submitted item has had exactly one done callback; after an exit, but for those that were not begun and are left in the global queue |
| `PoolCompletion.EveryItemIsDone` | libuv/src/unix/threadpool.c:34-193 | So from every reachable state without an exit some continuation of their steps brings every submitted item to its one done callback |
| `PoolCompletion.EveryWorkerEnds` | libuv/src/unix/threadpool.c:109-126 | Once an exit has begun, the cascade of the exit message ends every worker, so that all joins return; every item has had its one done callback then, but for those left in the global queue |
| `PoolOrder.PostedBeforeExit` | libuv/src/unix/threadpool.c:54-67 | A request ahead of the exit message in the global queue is still completed |
| `PoolOrder.BegunInOrder` | libuv/src/unix/threadpool.c:54-62 | Requests are begun in the order of the global queue: no worker has one while another that was ahead of it is still there |
| `PoolOrder.DoneInOrder` | libuv/src/unix/threadpool.c:168-193 | Done callbacks come in the order in which the items came to their loop, unless the earlier one is cancelled |
| `PoolCancels.CancelDecides` | libuv/src/unix/threadpool.c:148-150 | With both locks held, uv_cancel takes the item out if and only if no worker has begun it, that is, if it is in the global queue or was cancelled before and waits for its done callback; nothing else changes |
| `PoolCancels.CancelReturns0` | libuv/src/unix/threadpool.c:142-165 | For such an item, whatever happens then, the call has returned 0 when it is over, and the work function never runs |
| `PoolCancels.CancelledIsToldSo` | libuv/src/unix/threadpool.c:158-192 | And its one done callback comes, with UV_ECANCELED, even after an exit has begun |
| `AsyncHandles.StepKeeps` | libuv/src/unix/async.c:33-146 | Every step of a sender or of the loop keeps the invariant: the flag of a handle is set exactly while some send is not followed by a callback, and someone is then going to see it |
| `AsyncHandles.NoLostWakeUp` | libuv/src/unix/async.c:77-146 | In every reachable state, a handle with a send not yet served has a byte in the pipe, or a sender to it between exchange and write, or the sweep still to come to it; with or without an atomic exchange, with full pipes and interrupted calls |
| `AsyncHandles.NoSpuriousCallback` | libuv/src/unix/async.c:140-145 | Sends may be merged into one callback, but there are never more callbacks than sends |
| `AsyncHandles.EverySendIsServed` | libuv/src/unix/async.c:116-146 | Once the senders rest, the loop by itself comes to rest too, with exactly one more callback for each handle sent to since its last |
| `Barrier.NoEarlyReturn` | libuv/src/win/thread.c:646-666 | For any n, schedule and round: no thread returns from its k-th wait before all n have entered theirs |
| `Barrier.NoDeadlock` | libuv/src/win/thread.c:646-666 | In every reachable state in which no thread inside the call can move, each of them waits for one that is outside and has not entered its call of that round: the barrier itself never deadlocks |
| `Barrier.OwnerCanMove` | libuv/src/win/thread.c:647-652 | The next step of the thread that holds the mutex is always possible: the turnstile token it waits for under the mutex is always there |
| `Barrier.BlockedAreWaiting` | libuv/src/win/thread.c:654-665 | If nobody inside can move, everybody inside waits at the first turnstile while the others gather |
| `Barrier.EveryoneGetsThrough` | libuv/src/win/thread.c:646-666 | When all have entered their k-th call, some continuation brings all out of it, having returned k times |
| `Barrier.StepsEnd` | libuv/src/win/thread.c:646-666 | Every step inside a call lowers the total number of steps left, so whichever are taken, they come to an end |
| `SchedulerState.LeaveStacks` | gevent.c:112-137 | Suspending the running stack under a fresh handle keeps one owned handle for each suspended stack |
| `SchedulerState.EnterStacks` | gevent.c:138-147 | Resuming uses the handle up, and the stack entered is that of its owner |
| `SchedulerState.WakeQueues` | gevent.c:349-395 | Whoever is woken leaves the one queue it was in |
| `SchedulerState.SwitchKeeps` | gevent.c:217-246 | A switch to a suspended cothread keeps handles, queues, states and exits consistent |
| `SchedulerState.StartKeeps` | gevent.c:200-206 | So does the first switch to a new one |
| `SchedulerState.StartLoopKeeps` | gevent.c:187-192 | So does starting the event loop |
| `SchedulerState.EndKeeps` | gevent.c:207-209 | So does the end of a cothread or of the event loop |
| `Gevent.Hub.AfterSwitch` | gevent.c:108-151 | The target notes the source's handle or death; exit_fn runs after another context is current |
| `Gevent.Hub.Resume` | gevent.c:236-245 | The resumed stack does what it has left: stop its timer, leave its channel queue, fetch its value |
| `Gevent.Hub.SwitchToHub` | gevent.c:249-270 | The event loop goes on or begins; nobody's state or queue changes |
| `Gevent.Hub.Yield` | gevent.c:273-284 | The cothread ready longest runs next, else the event loop |
| `Gevent.Hub.Activate` | gevent.c:84-88 | The running cothread joins the end of the ready queue |
| `Gevent.Hub.Spawn` | gevent.c:91-98 | The new cothread runs at once, its parent is last in the ready queue |
| `Gevent.Hub.Sleep` | gevent.c:304-324 | The caller waits for its timer; the next context is as for a yield |
| `Gevent.Hub.Wait` | gevent.c:332-337 | With a timeout of zero or less the caller is set aside with its state still CURRENT and in no queue |
| `Gevent.Hub.FireTimer` | gevent.c:287-301 | The sleeper whose timer fires runs, and its timer is gone |
| `Gevent.Hub.ChannelReceive` | gevent.c:349-371 | With senders waiting the caller's `*result` is the oldest value sent and not yet received, and that sender runs; without senders the caller joins the receivers; nobody else's result changes |
| `Gevent.Hub.ChannelSend` | gevent.c:374-395 | The oldest receiver's `*result` is the value and it runs; without receivers the caller joins the senders; nobody else's result changes |
| `Gevent.Hub.Acquire` | gevent.c:408-415 | A positive counter is decremented and the call granted; else the caller waits, the account is unchanged, and the cothread ready longest runs next, else the event loop |
| `Gevent.Hub.Release` | gevent.c:417-424 | The longest waiter is granted and runs, else the counter goes up |
| `Gevent.Hub.GetNext` | gevent.c:164-184 | An unused handle: of the first ready cothread, else of the event loop, else of `main` |
| `Gevent.Hub.Finish` | gevent.c:207-209 | The cothread is dead, its exit_fn ran once and last; who is next; a channel call of `main` is broken off, or its sleep cut short, exactly if nobody is ready, the loop is not suspended and `main` is in it |
| `Gevent.Hub.EndLoop` | gevent.c:191-196 | `main` runs next; its channel call is broken off, or its sleep cut short, exactly if it is in one |
| `GeventRuns.Run` | gevent.c:84-424 | Every run of all these calls, timers and ends keeps every invariant |
| `GeventRuns.DistinctHandles` | gevent.c:112-137 | In every state of a run, suspended stacks own distinct handles, never used before, each leading back to its own stack |
| `GeventRuns.OnePlace` | gevent.c:84-424 | In every state of a run, a live cothread is in the ready queue, asleep or in one channel queue, in only one of these and once; in none exactly while its state is CURRENT |
| `GeventRuns.Rendezvous` | gevent.c:349-395 | In every state of a run, on each channel the k-th receive returns the value of the k-th send and blocks until it is made; senders and receivers never both wait |
| `GeventRuns.ReceivedIsSent` | gevent.c:349-395 | In every state of a run, `*result` of every cothread whose last receive was the k-th on its channel is the value of the k-th send, and if that was not made yet, the cothread waits in the queue of the channel |
| `GeventRuns.SemaphoreBound` | gevent.c:408-424 | In every state of a run initial count and releases equal counter and grants; the counter is never negative, and nobody waits while it is positive |
| `GeventRuns.ReceiveWithoutSend` | gevent.c:181-183 | A run in which a receive of `main` returns though nothing was sent |
| `GeventRuns.SleepCutShort` | gevent.c:181-183 | A run in which a sleep of `main` returns although its timer did not fire |
| `StreamWrites.BufCount` | libuv/src/unix/stream.c:87-96 | The number of bytes in the buffers |
| `StreamWrites.Advance` | libuv/src/unix/stream.c:786-828 | After n bytes exactly the first n of what was left are cut off, across buffers and empty ones; all written if and only if the index is at the end |
| `StreamWrites.Stream.Attempt` | libuv/src/unix/stream.c:706-838 | The kernel is offered exactly the unwritten bytes of the first request, and its answer decides: if it takes all, the request is completed with 0; if fewer, the first of them are on the wire and the others stay; EAGAIN changes nothing; an error completes the request with this error; POLLOUT or a new try exactly if the request stays |
| `StreamWrites.Stream.TakeBytes` | libuv/src/unix/stream.c:786-828 | If the kernel has taken n bytes, the books say n bytes more, and the request is completed if and only if these were all it had left |
| `StreamWrites.Stream.WriteHead` | libuv/src/unix/stream.c:689-839 | A stream that does not block makes exactly one such call; one that blocks goes on until its first request is wholly on the wire or has failed, and finishes that one; whatever waits is watched |
| `StreamWrites.Stream.WriteRequest` | libuv/src/unix/stream.c:1142-1212 | The request is the last of all submitted, or refused on a closed stream; the kernel is asked at once if and only if the stream is connected and nothing was left to write; write_queue_size stays the sum of the unwritten bytes |
| `StreamWrites.Stream.ShutdownRequest` | libuv/src/unix/stream.c:1041-1064 | Refused if shut or closing, else recorded and watched; it takes the place of a request that is still pending |
| `StreamWrites.Stream.CallBack` | libuv/src/unix/stream.c:846-858 | The oldest completed request gets its callback, which writes, shuts down and closes: what it submits up to a close is submitted, in order |
| `StreamWrites.Stream.RunOps` | libuv/src/unix/stream.c:1041-1212 | Of what a callback or the user asks for, the writes and shutdowns up to a close are accepted, in order, and no later ones |
| `StreamWrites.Stream.WriteCallbacks` | libuv/src/unix/stream.c:842-866 | It ends, though callbacks add to the queue: every request that was completed gets its callback with its status, in order, then those completed meanwhile; everything left is watched |
| `StreamWrites.Stream.Drain` | libuv/src/unix/stream.c:622-654 | shutdown(2) is issued only when every earlier request has had its callback, and then the callback of its request gets the answer; when the assertion fails |
| `StreamWrites.Stream.Writable` | libuv/src/unix/stream.c:1091-1095 | An event offers the first request to the kernel, calls back and leaves nothing that is not watched |
| `StreamWrites.Stream.Destroy` | libuv/src/unix/stream.c:373-422 | Queued requests are cancelled, completed ones get their status; every write request ever submitted has had exactly one callback, and every shutdown request if and only if none was made while another was pending |
| `StreamWrites.Run` | libuv/src/unix/stream.c:622-1212 | All of this in every run, with any kernel and re-entrant callbacks: what the kernel has taken by its own answers is what the books say |
| `StreamWrites.RunToTheEnd` | libuv/src/unix/stream.c:373-1212 | The same up to the end of the stream: one callback for every write request, and for every shutdown request under that condition |
| `StreamWrites.Submits` | libuv/src/unix/stream.c:1170-1189 | A new request waits behind all others |
| `StreamWrites.Takes` | libuv/src/unix/stream.c:792-796 | What the kernel takes of the first request comes next on the wire |
| `StreamWrites.Finishes` | libuv/src/unix/stream.c:668-683 | Success means that all data was taken |
| `StreamWrites.TakenInOrder` | libuv/src/unix/stream.c:762-828 | So the wire is, in order of submission, a prefix of the data of each request |
| `StreamWrites.NothingSkipped` | libuv/src/unix/stream.c:762-828 | Without errors it is a prefix of all data |
| `StreamWrites.OnceEachAfter` | libuv/src/unix/stream.c:387-414 | The final callbacks complete the earlier ones to one each |
| `StreamWrites.RecordShutdown` | libuv/src/unix/stream.c:1054-1059 | An accepted shutdown request replaces the pending one, and only this |
| `StreamWrites.CallShutdownBack` | libuv/src/unix/stream.c:636-652 | The pending request gets its first and only callback |
| `StreamWrites.EachShutdownOnce` | libuv/src/unix/stream.c:416-421 | With none pending, all had exactly one callback if and only if none was made while another was pending |
| `StreamWrites.FailedShutdownThenWrite` | libuv/src/unix/stream.c:631-646 | A run in which the assertion of uv__drain fails |
| `StreamWrites.TwoShutdowns` | libuv/src/unix/stream.c:1058 | A run in which the first of two requests never gets its callback |
| `SignalWatchers.Process.FirstHandle` | libuv/src/unix/signal.c:119-133 | The first watcher of a signal in the tree, or none |
| `SignalWatchers.Process.FirstMeansWatched` | libuv/src/unix/signal.c:127-132 | There is a first one if and only if some watcher watches the signal |
| `SignalWatchers.Process.Enter` | libuv/src/unix/signal.c:142-144 | The handler takes the lock and comes to the first watcher of its signal |
| `SignalWatchers.Process.Send` | libuv/src/unix/signal.c:149-161 | One write, while the loops go on reading and dispatching: the next watcher gets a message, not counted yet; the assertion fails exactly if the pipe is full |
| `SignalWatchers.Process.CountCaught` | libuv/src/unix/signal.c:163-164 | The message is counted as caught, and the walk goes on to the next watcher |
| `SignalWatchers.Process.Leave` | libuv/src/unix/signal.c:144-167 | At the end of the walk every watcher of the signal has had its turn, once, and no other |
| `SignalWatchers.Process.Handler` | libuv/src/unix/signal.c:136-168 | Uninterrupted, it sends every watcher of the signal, each once, a message, but for failed writes, and counts it as caught; its assertion fails if and only if some loop has more such watchers than room in its pipe |
| `SignalWatchers.Process.Register` | libuv/src/unix/signal.c:304-322 | The watcher is in the tree and the handler installed, or nothing changed because it cannot be |
| `SignalWatchers.Process.Start` | libuv/src/unix/signal.c:275-328 | The watcher watches the signal, with signals arriving between its two locked parts; or failed as the source says |
| `SignalWatchers.Process.StopWatching` | libuv/src/unix/signal.c:428-452 | The watcher is out of the tree, and the handler is installed exactly for the signals still watched |
| `SignalWatchers.Process.Close` | libuv/src/unix/signal.c:261-272 | The close is pending at once exactly if no message is outstanding |
| `SignalWatchers.Process.Read` | libuv/src/unix/signal.c:341-365 | A batch of at most 32 messages, none lost or reordered |
| `SignalWatchers.Process.Begin` | libuv/src/unix/signal.c:367-374 | The callback is called exactly if the watcher still watches that signal; it is then not closing |
| `SignalWatchers.Process.End` | libuv/src/unix/signal.c:376-385 | The message is dispatched; a close that waited for the last one becomes pending now |
| `SignalWatchers.PendingIsUnnamed` | libuv/src/unix/signal.c:265-271 | A closing watcher is pending if and only if no message anywhere names it |
| `SignalWatchers.Conservation` | libuv/src/unix/signal.c:160-164 | Whenever the lock is free, what is caught and not dispatched is what the pipe and the buffer hold for a watcher; in the middle of a handler it is one less for the one watcher just written to |
| `SignalWatchers.Run` | libuv/src/unix/signal.c:119-452 | In every interleaving of single writes, counts, reads and dispatches the counts are right and no close becomes pending twice |
| `LoopWatcher.Loop.StartHandle` | libuv/src/win/loop-watcher.c:46-74 | An inactive handle becomes the first of the list, with its links; turns to come are not affected |
| `LoopWatcher.Loop.StopHandle` | libuv/src/win/loop-watcher.c:77-106 | An active handle is unlinked from the list and from the turns to come |
| `LoopWatcher.Invoke` | libuv/src/win/loop-watcher.c:109-120 | A pass ends, calls the handles whose turn comes, and leaves the list that the callbacks made |
| `LoopWatcher.WhoIsCalled` | libuv/src/win/loop-watcher.c:109-120 | Each initially active handle is called once, in list order, if and only if no callback before its turn stops it; no other is called |
| `FsPoll.Loop.StartWatcher` | libuv/src/fs-poll.c:56-94 | An inactive watcher gets a context of its own with a stat under way |
| `FsPoll.Loop.StopWatcher` | libuv/src/fs-poll.c:97-118 | The watcher lets go of its context; an armed timer is closing, a stat under way goes on |
| `FsPoll.Loop.TimerFires` | libuv/src/fs-poll.c:126-136 | The context still has its watcher; its stat is under way again |
| `FsPoll.Loop.StatDone` | libuv/src/fs-poll.c:139-184 | The watcher hears of a result exactly if it differs from the last one, but not of a first success, together with the buffer of the last success, which a failure does not change; then the timer aims at the next point of the grid, or closes if the callback has stopped the watcher |
| `FsPoll.LastBufIs` | libuv/src/fs-poll.c:153-169 | That buffer is the one of the last success, however many failures came after it |
| `FsPoll.Loop.RunOps` | libuv/src/fs-poll.c:56-118 | After a callback a watcher is active as its last start or stop says; a context has lost its watcher if and only if that was stopped; every context that is new has a stat under way |
| `FsPoll.Loop.TimerClosed` | libuv/src/fs-poll.c:187-189 | The context is freed, for the first time |
| `FsPoll.NextPointIsNext` | libuv/src/fs-poll.c:178-182 | The target is the first point of the grid strictly after now |
| `FsPoll.OneThing` | libuv/src/fs-poll.c:97-184 | Between callbacks a context has exactly one of stat, armed timer, closing timer; none is freed or shared |
| `FsPoll.Run` | libuv/src/fs-poll.c:56-189 | This holds in every run with re-entrant callbacks |
| `NgxQueue.InsertHead` | libuv/include/uv-private/ngx-queue.h:31-38 | The ring holds the link and then what it held |
| `NgxQueue.InsertTail` | libuv/include/uv-private/ngx-queue.h:44-51 | The ring holds what it held and then the link |
| `NgxQueue.Remove` | libuv/include/uv-private/ngx-queue.h:87-92 | The ring holds all others in the same order |
| `NgxQueue.Split` | libuv/include/uv-private/ngx-queue.h:97-106 | Two rings: what came before the link, and the link with what follows |
| `NgxQueue.Add` | libuv/include/uv-private/ngx-queue.h:109-116 | The one ring holds its own links and then those of the other |
| `InetText.QuadIff` | libuv/src/inet.c:175-211 | Text is read as four octets if and only if it is how they are written: decimal, no leading zeros, three dots |
| `InetText.ParseIff` | libuv/src/inet.c:214-298 | Text is accepted if and only if it is a form of section 2.2 of RFC 4291, and stands for the address of the form |
| `InetText.ScanSound` | libuv/src/inet.c:229-277 | Whatever the loop reads has the form that its result stands for |
| `InetText.ScanComplete` | libuv/src/inet.c:229-277 | Every form is read to the end |
| `InetCanonical.FormMeansAddress` | libuv/src/inet.c:122-148 | Leaving out any run of zeros gives a form of the same address |
| `InetCanonical.BestIsUnique` | libuv/src/inet.c:94-117 | The longest zero run of at least two groups, of equals the first, is unique (RFC 5952, sections 4.2.1 to 4.2.3) |
| `InetCanonical.GroupsArePlain` | libuv/src/inet.c:144 | Groups are in lower case without leading zeros (RFC 5952, sections 4.1 and 4.3) |
| `InetCanonical.CanonicalParses` | libuv/src/inet.c:73-159 | The text written for an address is read as that address |
| `InetCanonical.CanonicalIsUnique` | libuv/src/inet.c:73-159 | Addresses and their texts correspond one to one |
| `Inet.Ntop4` | libuv/src/inet.c:54-70 | The decimal octets, if they and a NUL fit; else ENOSPC and nothing written |
| `Inet.FindBest` | libuv/src/inet.c:94-117 | The loop finds the longest run, of equals the first |
| `Inet.WriteWords` | libuv/src/inet.c:122-149 | The loop writes the canonical form, within the 46 characters of its buffer |
| `Inet.Ntop6` | libuv/src/inet.c:73-159 | The canonical text and a NUL, if they fit; else ENOSPC and nothing written |
| `Inet.Pton4` | libuv/src/inet.c:175-211 | The octets exactly of a dotted quad; else nothing is written |
| `Inet.Shift` | libuv/src/inet.c:283-292 | The overlapping shift by hand leaves prefix, zeros, suffix |
| `Inet.Pton6` | libuv/src/inet.c:214-298 | The buffer holds the address that the text stands for, or stays as it was if the text stands for none |
| `Inet.RoundTrip` | libuv/src/inet.c:73-298 | For every address, what inet_ntop6 writes inet_pton6 reads back |
| `CommandLine.ReadEscaped` | libuv/src/win/process.c:437-448 | The runtime reads the escaped text in quotes as the argument, whatever backslashes precede |
| `CommandLine.LineReadBack` | libuv/src/win/process.c:506-531 | Splitting the line by the runtime's rules, under either reading of doubled quotes, gives back the non-empty arguments in order |
| `CommandLine.RoundTripIffNoneEmpty` | libuv/src/win/process.c:392-394 | All arguments come back if and only if none is empty |
| `CommandLine.EmptyArgumentIsLost` | libuv/src/win/process.c:392-394 | The line for a, an empty argument and b is read as a and b only |
| `CommandLine.QuoteBounds` | libuv/src/win/process.c:488-490 | Quoting at most doubles an argument and adds two characters |
| `CommandLine.ReverseInPlace` | libuv/src/win/process.c:450 | The text from the start to the NUL is reversed in place |
| `CommandLine.WriteReversed` | libuv/src/win/process.c:435-448 | Written backwards, the buffer holds the escaped text reversed |
| `CommandLine.WriteEscaped` | libuv/src/win/process.c:433-450 | After the reversal it holds the escaped text |
| `CommandLine.QuoteCmdArg` | libuv/src/win/process.c:382-453 | What is written for the argument is its quoted form, right up to the end that is returned |
| `CommandLine.PlainIff` | libuv/src/win/process.c:392-401 | An argument is written as it is if and only if it has no blank and no quote |
| `CommandLine.WrappedIff` | libuv/src/win/process.c:403-413 | It is only wrapped in quotes if and only if it has a blank, but no quote, and no backslash at its end; else backslashes are added |
| `CommandLine.VerbatimSplitsIff` | libuv/src/win/process.c:521-530 | With verbatim arguments the parts of the line between its spaces are the arguments if and only if there are any and none has a space |
| `CommandLine.MakeProgramArgs` | libuv/src/win/process.c:456-542 | The line with its NUL fits the size computed before |
| `CommandLine.CommandLineArrives` | libuv/src/win/process.c:456-542 | From the buffer the runtime reads exactly the arguments, if none is empty |

## Left out

- The assembly of `stacklet/switch_*.h`, `stacklet_newthread` and `stacklet_deletethread`: a switch is one save-then-restore step.
- SignalWatchers: messages are written and read whole; the locked parts of start and stop are single steps.
- StreamWrites.Stream: no `send_handle`, no read side, no macOS select thread, no `EINTR`; `uv_shutdown` is called on a writable stream; after its prepared answers the kernel takes everything.
- CommandLine.MakeProgramArgs: arguments are wide strings already; the conversion from UTF-8 is not part of the model, nor is the search path and the environment block.
- Inet: strings end at their length instead of a NUL; `uv_inet_ntop` and `uv_inet_pton` only dispatch on the family.
- Gevent.Hub: `gevent_getaddrinfo`, the registration of timer handles with the loop, fairness to the event loop (a TODO in `gevent.h`), and the return values of acquire and release after a wait.
- AsyncHandles: `uv__async_close`, and failures of the pipe other than a full one and an interrupted call.
- Timers: the loop time stands still during a pass, as in the source; callbacks do not reinitialise timers.
- PoolRuns: of the async handles of a loop the one of the thread pool, others only as bytes in the same pipe; `uv_cancel` only from the loop thread and before the done callback.
- Barrier: creation failures and `uv_barrier_destroy`.
- FsPoll.Loop: clock overflow; the fields compared by `statbuf_eq` are one value.
- LoopWatcher.Loop: closing handles; the Unix watchers iterate differently and are not covered.
- NgxQueue: the sequences of the other modules stand for these rings; the offset arithmetic of `ngx_queue_data` is not modelled.
- The SPLAY macros of `tree.h`, read-write locks and condition variables of `win/thread.c`, and all thin system-call wrappers.
