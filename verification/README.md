# A verified model of the FreeRTOS kernel

This project models the FreeRTOS kernel in `ThirdParty/FreeRTOS-Kernel` — its lists, scheduler, queues, mutexes, stream buffers, software timers and event groups — and the two software cipher modes of `Library/CryptoAccelerator/aes_alt.c`, and proves what these parts promise. `dafny verify dfyconfig.toml` checks everything.

The configuration is fixed: preemption and time slicing on, mutexes and recursive mutexes on, `INCLUDE_vTaskSuspend` on, generic task selection, no queue sets, no tickless idle.

## How it is built

| module | what it is |
|---|---|
| `Arithmetic` | definitions and laws that several modules share |
| `ListSpec`, `List` | the intrusive ring lists as sequences with a walking pointer, and the pointer code of `list.c` proved against them |
| `TwoLists` | two sorted lists of wrapped times against a map of unbounded times; used by the scheduler and by the timers |
| `Priorities` | the priority fields of the tasks and the rules that change them |
| `Scheduler`, `Ticks`, `Suspension`, `SchedulerMachine` | the state of `tasks.c` as a value, its operations as functions, their laws, and all runs of the resulting machine |
| `Kernel` | the same as a class with the fields and loops of `tasks.c`; each method is proved equal to its function |
| `Timeouts` | deadlines of blocking calls and `xTaskDelayUntil` against unbounded time |
| `QueueProtocol`, `Queue` | tasks and interrupts interleaving at every critical section of `queue.c`; the queue object with its circular storage |
| `MutexProtocol` | mutexes, recursive mutexes and priority inheritance, interleaving freely |
| `StreamSpec`, `StreamBuffer`, `StreamInterleaving` | circular byte buffers and frames; the object; one writer and one reader interleaved byte by byte |
| `Timers`, `TimerTask` | the timer daemon as a class, with unbounded expiry times and the log of callbacks; its loop over any sequence of rounds and commands |
| `EventSpec`, `EventGroup`, `Barrier` | event bits and waiters; the object; `xEventGroupSync` as a reusable barrier |
| `AesModes` | counter mode and 8-bit cipher feedback over an arbitrary block function |

Two conventions run through all of it. Tick counts wrap at a symbolic modulus, and ghost state says which unbounded time is meant (`base` is the unbounded time at which the tick count last wrapped); theorems speak of unbounded time. And code that changes state in place is a class whose methods are proved to do what a function on values says, while the laws are proved about the functions. Interrupts, the scheduler's suspension and critical sections appear as atomic steps that may come in any order the code allows.

The machines start in states for which the invariant is proved (`StartKeepsInv`, `InitialKeepsInv` and so on), and every run lemma holds for runs of any length.

Where the code does less than one might expect, the code is modelled and the exact condition is proved: `CheckIsExactUnless` with `CheckMissesADeadline` (two or more overflows between two timeout checks can hide a deadline, although a comment says a full wrap is recognised), `DelayUntilIsExactUnless` with `DelayUntilMissesAWrap` (a periodic task that is whole wraps late), `ResetKeepsReceivers` and `ResetCanStrandASender` (resetting a queue wakes one sender only), `InheritanceIsNotTransitive` with `ChainOfThree` (a holder that waits for another mutex does not pass its inherited priority on), `PrioritySetMayOutgrowInheritance` with `BaseOutgrowsPriority` (a new base priority above an inherited one).

## Model

| member | source | states |
|---|---|---|
| ListSpec.InsertIsStableAndSorted | ThirdParty/FreeRTOS-Kernel/list.c:128-196 | inserting by value keeps a list sorted and puts the new item behind all items up to its value, also at the largest value |
| ListSpec.NextEntryRotates | ThirdParty/FreeRTOS-Kernel/include/list.h:285-296 | selecting the next entry serves the front of the serving order and sends it to the back |
| ListSpec.RoundRobinIsFair | ThirdParty/FreeRTOS-Kernel/include/list.h:285-296 | over a fixed list of n items, n selections serve each item exactly once and restore the order |
| ListSpec.InsertEndServesLast | ThirdParty/FreeRTOS-Kernel/list.c:98-125 | an item inserted at the end is served after every other item except the one being served |
| ListSpec.RemoveKeepsServingOrder | ThirdParty/FreeRTOS-Kernel/list.c:199-225 | removing an item, even the one under the walking pointer, leaves the others in the same serving order |
| List.List.InsertEnd | ThirdParty/FreeRTOS-Kernel/list.c:98-125 | the relinking keeps ring, count and containers consistent and does what ListSpec.InsertEnd says |
| List.List.Insert | ThirdParty/FreeRTOS-Kernel/list.c:128-196 | the search ends on a well-formed ring and the item lands where ListSpec.InsertPos says |
| List.ListRemove | ThirdParty/FreeRTOS-Kernel/list.c:199-225 | the item leaves the list it is on, wherever it is, and the ring stays linked |
| List.List.GetOwnerOfNextEntry | ThirdParty/FreeRTOS-Kernel/include/list.h:285-296 | the walking pointer advances past the end marker and the owner of the selected item is returned |
| TwoLists.InsertMatches | ThirdParty/FreeRTOS-Kernel/tasks.c:5403-5421 | inserting under the wrapped value in the list of the right epoch adds exactly that unbounded time |
| TwoLists.SwitchMatches | ThirdParty/FreeRTOS-Kernel/tasks.c:201-213 | when the current list has run empty the lists may change places: each holds its epoch again |
| TwoLists.HeadIsEarliest | ThirdParty/FreeRTOS-Kernel/tasks.c:2822-2842 | the head of the current list is due before everything in both lists |
| Scheduler.DetachKeepsHomes | ThirdParty/FreeRTOS-Kernel/list.c:199-225 | taking a state item off whichever list it is on keeps every other task on exactly its list |
| Scheduler.MakeReadyKeepsHomes | ThirdParty/FreeRTOS-Kernel/tasks.c:221-227 | a task made ready leaves its list and its wake time and is on the ready list of its priority, and no list above the recorded top is non-empty |
| Scheduler.WakeTime | ThirdParty/FreeRTOS-Kernel/tasks.c:5403-5421 | the wrapped sum and the test for its overflow mean now plus the ticks in unbounded time |
| Scheduler.DelayCurrentKeepsInv | ThirdParty/FreeRTOS-Kernel/tasks.c:5364-5434 | blocking for n ticks sets the wake time to now plus n in unbounded time, in the list of its epoch, and the next unblock time stays a lower bound |
| Scheduler.BlockForeverKeepsInv | ThirdParty/FreeRTOS-Kernel/tasks.c:5394-5400 | an allowed indefinite wait gets no wake time at all |
| Ticks.AdvancedIsLater | ThirdParty/FreeRTOS-Kernel/tasks.c:2785-2800 | the tick advances unbounded time by one, and at every wrap the delayed list is empty, so the assertion in the list switch holds |
| Ticks.UnblockExact | ThirdParty/FreeRTOS-Kernel/tasks.c:2806-2886 | the loop wakes exactly the tasks whose time has come and leaves the next unblock time at most every remaining wake time |
| Ticks.TickExact | ThirdParty/FreeRTOS-Kernel/tasks.c:2772-2946 | one tick: exactly the tasks due at the new unbounded time become ready and leave their event lists; all else stays; the invariant holds |
| Ticks.TickAsks | ThirdParty/FreeRTOS-Kernel/tasks.c:2874-2930 | a switch is requested exactly if a task above the running one wakes at this tick, or after it two different tasks are ready at the running priority, or a yield was pending |
| Ticks.LiveTicksExact | ThirdParty/FreeRTOS-Kernel/tasks.c:2772-2946 | k ticks across any number of wraps wake exactly the tasks due in that span of unbounded time |
| Suspension.DrainedExact | ThirdParty/FreeRTOS-Kernel/tasks.c:2203-2232 | draining the pending list makes exactly the pending tasks ready and repairs the next unblock time |
| Suspension.ReplayIsLive | ThirdParty/FreeRTOS-Kernel/tasks.c:2234-2258 | replaying k pended ticks does to the lists what k ticks do |
| Suspension.ResumeEqualsLive | ThirdParty/FreeRTOS-Kernel/tasks.c:2179-2288 | suspend, k ticks, resume gives the same counts and the same lists in the same order as k ticks |
| Suspension.ResumeAllExact | ThirdParty/FreeRTOS-Kernel/tasks.c:2179-2288 | the outermost resume readies exactly the pending tasks and those whose time has passed meanwhile, and makes up for every held-back tick |
| Suspension.PendingNeverTimesOut | ThirdParty/FreeRTOS-Kernel/tasks.c:3243-3267 | a task readied by an interrupt during suspension is on its ready list, once, and without a wake time before and after every replayed tick |
| Suspension.ResumeYields | ThirdParty/FreeRTOS-Kernel/tasks.c:2203-2288 | the outermost resume yields exactly if a yield was pending, or some task that it readies, pending or overdue, is above the running one, or it makes up for a tick and two tasks of the running priority are ready; the answer and the pending yield both say so; an inner resume changes the depth alone |
| SchedulerMachine.RemoveFromEventListKeepsInv | ThirdParty/FreeRTOS-Kernel/tasks.c:3221-3286 | the woken task leaves its event list and is on the ready list of its priority, or while the scheduler is suspended is appended to the pending list with all lists untouched; a yield becomes pending exactly if it is above the running task; the invariant is kept |
| SchedulerMachine.RemoveFromUnorderedKeepsInv | ThirdParty/FreeRTOS-Kernel/tasks.c:3289-3335 | the same for event groups: the task is on its ready list at once, without a wake time, and nobody is held pending |
| SchedulerMachine.SuspendTaskKeepsInv | ThirdParty/FreeRTOS-Kernel/tasks.c:1678-1744 | suspending any task in any state puts it, and only it, on the suspended list, off its event list and the pending list and without a wake time, and keeps the invariant |
| SchedulerMachine.ResumeTaskKeepsInv | ThirdParty/FreeRTOS-Kernel/tasks.c:1784-1876 | a task that is suspended, rather than waiting for ever or resumed already, is moved to its ready list; in every other case nothing changes |
| SchedulerMachine.ResumeFromISRKeepsInv | ThirdParty/FreeRTOS-Kernel/tasks.c:1884-1954 | the interrupt version: a suspended task is moved to its ready list, or appended to the pending list while the scheduler is suspended; in every other case nothing changes |
| SchedulerMachine.CreateTaskKeepsInv | ThirdParty/FreeRTOS-Kernel/tasks.c:1030-1110 | a new task joins the ready list of its priority, with that as its priority and base, holding no mutex, and nobody else moves |
| SchedulerMachine.ReprioritiseKeepsInv | ThirdParty/FreeRTOS-Kernel/tasks.c:1628-1650 | a task whose priority changes is moved to the list of the new priority exactly if it is ready |
| SchedulerMachine.PrioritySetKeepsInv | ThirdParty/FreeRTOS-Kernel/tasks.c:1512-1672 | the base becomes the new priority, and the priority too unless one is inherited; the event list value follows unless in use; the task is on the ready list of its priority if it was ready; nobody else is touched and the invariant is kept |
| SchedulerMachine.PriorityInheritKeepsInv | ThirdParty/FreeRTOS-Kernel/tasks.c:4114-4198 | the holder's priority becomes the greater of its own and the running task's, base and held count stay; its event list value follows a change unless in use; it is on the ready list of that priority if it was ready; nobody else is touched and the invariant is kept |
| SchedulerMachine.PriorityDisinheritKeepsInv | ThirdParty/FreeRTOS-Kernel/tasks.c:4204-4277 | the held count drops by one, and the priority becomes the base exactly with the last mutex; lists and event list value as for inheriting |
| SchedulerMachine.PriorityDisinheritAfterTimeoutKeepsInv | ThirdParty/FreeRTOS-Kernel/tasks.c:4284-4383 | a holder of one mutex comes to the greater of its base and the highest priority still waiting, any other keeps its priority; lists and event list value as for inheriting |
| SchedulerMachine.ItemKeepsInv | ThirdParty/FreeRTOS-Kernel/tasks.c:3160-3183 | that an event group uses a waiting task's event list item disturbs no list and no wake time |
| SchedulerMachine.TopReadyIsHighest | ThirdParty/FreeRTOS-Kernel/tasks.c:136-151 | the downward search ends at a non-empty list, and no ready task is above it |
| SchedulerMachine.SwitchContextSelects | ThirdParty/FreeRTOS-Kernel/tasks.c:3061-3132 | a context switch selects a ready task of maximal priority, the next in its list's serving order |
| SchedulerMachine.StepMovesOneTask | ThirdParty/FreeRTOS-Kernel/tasks.c:1030-3335 | creating, blocking, suspending, resuming and waking each move only the task they are about, to the stated place |
| SchedulerMachine.StepChangesWaits | ThirdParty/FreeRTOS-Kernel/tasks.c:3160-3335 | who is on an event list and who is held pending after each step |
| Scheduler.ReadyTaskIsServedLast | ThirdParty/FreeRTOS-Kernel/tasks.c:221-227 | among equals a task made ready is served last but for the one being served, and no other ready list changes |
| Priorities.InheritRaises | ThirdParty/FreeRTOS-Kernel/tasks.c:4114-4165 | the holder's priority becomes the greater of its own and the waiter's; no base, held count or other task's field changes |
| Priorities.DisinheritRestores | ThirdParty/FreeRTOS-Kernel/tasks.c:4204-4265 | the held count drops by one, and the priority becomes the base exactly if it was the last |
| Priorities.TimeoutLowers | ThirdParty/FreeRTOS-Kernel/tasks.c:4284-4375 | the priority becomes the greater of the base and the highest one waiting exactly for a holder of one mutex |
| Priorities.SetTakesEffect | ThirdParty/FreeRTOS-Kernel/tasks.c:1591-1625 | the base becomes the new priority, the priority too exactly if none is inherited, and the event list value unless it is in use |
| Priorities.PrioritySetMayOutgrowInheritance | ThirdParty/FreeRTOS-Kernel/tasks.c:1593-1609 | exactly when a priority set on an inheriting task leaves its priority below its new base |
| Priorities.BaseOutgrowsPriority | ThirdParty/FreeRTOS-Kernel/tasks.c:1593-1609 | a task for which that happens |
| SchedulerMachine.StartKeepsInv | ThirdParty/FreeRTOS-Kernel/tasks.c:3704-3733 | the initial lists with the idle task satisfy the invariant |
| SchedulerMachine.StepKeepsInv | ThirdParty/FreeRTOS-Kernel/tasks.c:2095-2113 | every step keeps the invariant, and ticks applied plus ticks held back grow by exactly the ticks delivered |
| SchedulerMachine.RunKeepsInv | ThirdParty/FreeRTOS-Kernel/tasks.c:2095-2288 | in every reachable state the lists partition the tasks and applied plus pended ticks equal delivered ticks |
| SchedulerMachine.WakesExactlyOnTime | ThirdParty/FreeRTOS-Kernel/tasks.c:2772-2946 | over any run, a delayed task that no event wakes is delayed before and ready after the step at which unbounded time reaches its wake time |
| Kernel.Kernel.constructor | ThirdParty/FreeRTOS-Kernel/tasks.c:3704-3733 | the fields start as SchedulerMachine.Start says |
| Kernel.Kernel.UnblockDelayedTasks | ThirdParty/FreeRTOS-Kernel/tasks.c:2806-2886 | the loop computes Ticks.Unblock and terminates |
| Kernel.Kernel.IncrementTick | ThirdParty/FreeRTOS-Kernel/tasks.c:2772-2946 | state and answer are those of Suspension.Tick, and the invariant is kept |
| Kernel.Kernel.InsertByWakeTime | ThirdParty/FreeRTOS-Kernel/tasks.c:5403-5434 | the wrapped wake time chooses the list that unbounded time demands |
| Kernel.Kernel.AddCurrentTaskToDelayedList | ThirdParty/FreeRTOS-Kernel/tasks.c:5364-5434 | the state becomes Scheduler.BlockCurrent of the old one |
| Kernel.Kernel.PlaceOnEventList | ThirdParty/FreeRTOS-Kernel/tasks.c:3135-3157 | the same, with the task on an event list |
| Kernel.Kernel.PlaceOnUnorderedEventList | ThirdParty/FreeRTOS-Kernel/tasks.c:3160-3183 | the same for an event group, which takes over the event list item value |
| Kernel.Kernel.ResetEventItemValue | ThirdParty/FreeRTOS-Kernel/tasks.c:4705-4716 | the value is handed out and the item again mirrors the priority of the moment, whatever happened to it meanwhile |
| Kernel.Kernel.RemoveFromEventList | ThirdParty/FreeRTOS-Kernel/tasks.c:3221-3286 | the state becomes that of SchedulerMachine.RemoveFromEventList, the answer is whether the woken task outranks the running one |
| Kernel.Kernel.SuspendTask | ThirdParty/FreeRTOS-Kernel/tasks.c:1678-1744 | the state becomes that of SchedulerMachine.SuspendTask |
| Kernel.Kernel.FindTopReady | ThirdParty/FreeRTOS-Kernel/tasks.c:136-145 | the loop terminates above priority 0 with a non-empty list |
| Kernel.Kernel.SwitchContext | ThirdParty/FreeRTOS-Kernel/tasks.c:3061-3132 | the state becomes that of SchedulerMachine.SwitchContext |
| Kernel.Kernel.ResumeAll | ThirdParty/FreeRTOS-Kernel/tasks.c:2179-2288 | both loops together compute Suspension.ResumeAll |
| Kernel.Kernel.PrioritySet | ThirdParty/FreeRTOS-Kernel/tasks.c:1512-1672 | the state becomes that of SchedulerMachine.PrioritySet; the event list item follows unless an event group uses it |
| Kernel.Kernel.PriorityInherit | ThirdParty/FreeRTOS-Kernel/tasks.c:4114-4198 | the state becomes that of SchedulerMachine.PriorityInherit; the holder's priority is then the greater of its own and the running task's, with base and held count kept; the answer is whether inheritance occurred |
| Kernel.Kernel.PriorityDisinherit | ThirdParty/FreeRTOS-Kernel/tasks.c:4204-4277 | the state becomes that of SchedulerMachine.PriorityDisinherit; one mutex less is held, and the priority is the base exactly with the last |
| Kernel.Kernel.PriorityDisinheritAfterTimeout | ThirdParty/FreeRTOS-Kernel/tasks.c:4284-4383 | the state becomes that of SchedulerMachine.PriorityDisinheritAfterTimeout; a holder of one mutex is then at the greater of its base and the highest waiting priority |
| Timeouts.CheckForTimeOut | ThirdParty/FreeRTOS-Kernel/tasks.c:3358-3420 | computes Timeouts.Check |
| Timeouts.CheckIsExact | ThirdParty/FreeRTOS-Kernel/tasks.c:3358-3420 | with at most one overflow since the last check, expiry is reported exactly from the deadline on, and entry time plus remaining ticks is preserved |
| Timeouts.CheckIsExactUnless | ThirdParty/FreeRTOS-Kernel/tasks.c:3391-3416 | for any number of overflows, exactly when the check is wrong |
| Timeouts.CheckMissesADeadline | ThirdParty/FreeRTOS-Kernel/tasks.c:3391-3416 | a check that misses a deadline passed nine ticks ago |
| Timeouts.MaximumDelayNeverExpires | ThirdParty/FreeRTOS-Kernel/tasks.c:3380-3388 | portMAX_DELAY never expires |
| Timeouts.RetryKeepsDeadline | ThirdParty/FreeRTOS-Kernel/queue.c:1448-1563 | a retry loop with any number of spurious wake-ups ends at the first check not before the original deadline |
| Timeouts.CountsAreTime | ThirdParty/FreeRTOS-Kernel/tasks.c:201-213 | overflow count times M plus tick count is the scheduler's unbounded time, for any number of ticks |
| Timeouts.TaskDelayUntil | ThirdParty/FreeRTOS-Kernel/tasks.c:1218-1283 | computes Timeouts.DelayUntil |
| Timeouts.DelayUntilIsExact | ThirdParty/FreeRTOS-Kernel/tasks.c:1228-1283 | less than M ticks after the previous wake, it delays exactly if previous plus increment is still to come, for exactly the missing ticks |
| Timeouts.DelayUntilIsExactUnless | ThirdParty/FreeRTOS-Kernel/tasks.c:1228-1283 | after whole wraps more, exactly when the decision is still right |
| Timeouts.DelayUntilMissesAWrap | ThirdParty/FreeRTOS-Kernel/tasks.c:1228-1283 | a call that delays although its wake time has passed |
| Timeouts.NoDrift | ThirdParty/FreeRTOS-Kernel/tasks.c:1228-1283 | the k-th wake target is start plus k increments, however late the calls are |
| QueueProtocol.StepKeepsInv | ThirdParty/FreeRTOS-Kernel/queue.c:880-1089 | every critical section of tasks and interrupts keeps items and spaces accounted for by woken tasks and lock counts |
| QueueProtocol.NoReceiverSleepsThrough | ThirdParty/FreeRTOS-Kernel/queue.c:1423-1563 | in every reachable state with the queue unlocked and a receiver waiting, the items are at most the receivers woken and not yet retried |
| QueueProtocol.NoSenderSleepsThrough | ThirdParty/FreeRTOS-Kernel/queue.c:880-1089 | the same for senders and spaces, in runs without a reset |
| QueueProtocol.CappedLockCountsLoseNothing | ThirdParty/FreeRTOS-Kernel/queue.c:261-288 | although lock counts stop at the number of tasks, unlocking wakes whom counts of every post and every removal would have woken (see UnlockWakesOnePerPost); the counts stay inside their 8-bit type |
| QueueProtocol.UnlockWakesOnePerPost | ThirdParty/FreeRTOS-Kernel/queue.c:2324-2410 | in every reachable state, unlocking takes as many receivers off the front of the list as interrupts have posted since the lock, or all if there are fewer; exactly those are at the top of their loop again and nobody else moves |
| QueueProtocol.UnlockWakesOnePerRemoval | ThirdParty/FreeRTOS-Kernel/queue.c:2412-2441 | the same for senders and the items that interrupts have taken |
| QueueProtocol.AttemptWakesOne | ThirdParty/FreeRTOS-Kernel/queue.c:903-1039 | a send, receive or peek succeeds exactly if it can, adds or takes one item (none for an overwrite of a full queue and for a peek), wakes the first task waiting for that and nobody else, and leaves its caller done |
| QueueProtocol.InterruptPostWakesOne | ThirdParty/FreeRTOS-Kernel/queue.c:1092-1254 | a post by an interrupt wakes the first receiver if the queue is unlocked, and nobody if it is locked, when it is counted instead |
| QueueProtocol.InterruptRemovalWakesOne | ThirdParty/FreeRTOS-Kernel/queue.c:1927-2017 | the same for a removal and the senders |
| QueueProtocol.CallerBlocks | ThirdParty/FreeRTOS-Kernel/queue.c:1018-1073 | from any state with the queue unlocked, a caller that finds nothing has a way through lock, check and unlock to its place on the list, with no other change |
| QueueProtocol.TimeOutMovesOne | ThirdParty/FreeRTOS-Kernel/tasks.c:2844-2860 | a wait that times out takes its task off the list, wherever it stood, and moves nobody else |
| QueueProtocol.LateItemIsTaken | ThirdParty/FreeRTOS-Kernel/queue.c:1547-1561 | a receiver whose time-out has expired still takes an item that has arrived meanwhile |
| QueueProtocol.ResetKeepsReceivers | ThirdParty/FreeRTOS-Kernel/queue.c:292-356 | a reset never strands a receiver, and no sender exactly if at most one waited or all but one of the places are spoken for by senders already woken |
| QueueProtocol.ResetCanStrandASender | ThirdParty/FreeRTOS-Kernel/queue.c:315-336 | a run from the start, without a reset, to a queue on which a reset leaves a sender waiting beside free space |
| QueueProtocol.ResetWakesOneSender | ThirdParty/FreeRTOS-Kernel/queue.c:292-356 | a reset empties and unlocks the queue, wakes the first waiting sender alone and leaves the receivers as they are |
| QueueProtocol.RunKeepsInv | ThirdParty/FreeRTOS-Kernel/queue.c:880-1089 | the accounting holds along every run |
| Queue.FirstInFirstOut | ThirdParty/FreeRTOS-Kernel/queue.c:2220-2321 | for every sequence of posts to the back and receives, received followed by queued equals initial followed by accepted, within the length (RunCalls carries it over to the object) |
| Queue.NothingIsLost | ThirdParty/FreeRTOS-Kernel/queue.c:2220-2321 | for posts to either end, every item is received or queued as often as it was put in (of the same calls as in RunCalls) |
| Queue.PostsAtBothEnds | ThirdParty/FreeRTOS-Kernel/queue.c:2220-2300 | after any posts that fit, the queue holds the front posts, latest first, then what was there, then the back posts in order |
| Queue.ReceivesTakeTheFirst | ThirdParty/FreeRTOS-Kernel/queue.c:2303-2321 | n receives take the first n items in order |
| Queue.MailboxHoldsTheLatest | ThirdParty/FreeRTOS-Kernel/queue.c:2264-2294 | after an overwrite a queue of length one holds the new item alone, whatever calls came before; other posts then fail, and the next receive gets that item |
| Queue.RunCalls | ThirdParty/FreeRTOS-Kernel/queue.c:903-1494 | any sequence of sends at either end and receives on the queue object leaves the contents, and has accepted and handed out the items, that the same calls on a double-ended queue do; first in first out if all sends are to the back |
| Queue.Queue.CopyDataToQueue | ThirdParty/FreeRTOS-Kernel/queue.c:2220-2300 | to the back appends, to the front prepends, overwriting leaves the one item; the write slot stays read slot plus one plus count, going round |
| Queue.Queue.CopyDataFromQueue | ThirdParty/FreeRTOS-Kernel/queue.c:2303-2321 | the read pointer advances and the head item is copied out |
| Queue.Queue.TrySend | ThirdParty/FreeRTOS-Kernel/queue.c:903-1039 | a send succeeds exactly if there is room or it overwrites; contents and protocol state follow |
| Queue.Queue.SendFromISR | ThirdParty/FreeRTOS-Kernel/queue.c:1092-1254 | the interrupt version counts instead of waking while the queue is locked |
| Queue.Queue.TryReceive | ThirdParty/FreeRTOS-Kernel/queue.c:1450-1494 | a receive pops the head exactly if there is an item |
| Queue.Queue.ReceiveFromISR | ThirdParty/FreeRTOS-Kernel/queue.c:1927-2017 | the interrupt version, counting while locked |
| Queue.Queue.TryPeek | ThirdParty/FreeRTOS-Kernel/queue.c:1804-1856 | a peek returns the head, changes no content and wakes another receiver |
| Queue.Queue.Lock | ThirdParty/FreeRTOS-Kernel/queue.c:247-258 | locking starts counts only where there are none |
| Queue.Queue.UnlockTx | ThirdParty/FreeRTOS-Kernel/queue.c:2324-2410 | the loop takes one receiver off the front of the list for each counted post while there are any, and leaves the queue unlocked |
| Queue.Queue.UnlockRx | ThirdParty/FreeRTOS-Kernel/queue.c:2412-2441 | the same for senders |
| Queue.Queue.Reset | ThirdParty/FreeRTOS-Kernel/queue.c:292-356 | the queue is empty, unlocked, and one sender is woken |
| MutexProtocol.StepKeepsInv | ThirdParty/FreeRTOS-Kernel/queue.c:1566-1773 | every critical section keeps accounting, waiting order and the inheritance guarantee |
| MutexProtocol.TakeKeepsInv | ThirdParty/FreeRTOS-Kernel/queue.c:1604-1624 | taking a free mutex makes the task its holder, adds one to its held count and changes no priority |
| MutexProtocol.BlockKeepsInv | ThirdParty/FreeRTOS-Kernel/queue.c:1687-1709 | blocking raises the holder to the greater of its priority and the blocker's, notes for the blocker whether that was inheritance, and queues the blocker by priority under the holder's protection; nobody else's priority, place or mutex changes |
| MutexProtocol.ReleaseKeepsInv | ThirdParty/FreeRTOS-Kernel/queue.c:903-1002 | giving frees the mutex; the first waiter, if there is one, leaves the list and goes on to try, and nobody else moves; the held count drops by one, and the priority becomes the base exactly with the last one held |
| MutexProtocol.ExpireKeepsInv | ThirdParty/FreeRTOS-Kernel/tasks.c:2844-2860 | a waiter whose wait ends leaves the list, wherever it stood, and goes on to try; nobody else moves and no priority changes |
| MutexProtocol.UndoKeepsInv | ThirdParty/FreeRTOS-Kernel/queue.c:1738-1766 | taking back an inheritance keeps the guarantee for all who still wait |
| MutexProtocol.TimeoutLowersExactly | ThirdParty/FreeRTOS-Kernel/tasks.c:4284-4383 | a timeout sets a holder of one mutex to the greater of its base and the highest remaining waiter, and no other holder |
| MutexProtocol.GivingUpLowers | ThirdParty/FreeRTOS-Kernel/queue.c:1717-1766 | a task that gives up after causing an inheritance goes through taking it back: in two steps the holder has fallen as a timeout demands, and no other priority and no mutex has changed |
| MutexProtocol.HeadWaitsHighest | ThirdParty/FreeRTOS-Kernel/queue.c:2195-2215 | the priority read off the head of the list is the highest that waits |
| MutexProtocol.StepKeepsLog | ThirdParty/FreeRTOS-Kernel/queue.c:713-804 | the recursive call count is the number of successful takes less gives, and the answers given so far exclude each other |
| MutexProtocol.StepKeepsServed | ThirdParty/FreeRTOS-Kernel/queue.c:974-1002 | no lost wake-up: while tasks wait for a mutex that is free, some task is about to try for it, after every critical section |
| MutexProtocol.RunKeepsInv | ThirdParty/FreeRTOS-Kernel/queue.c:1566-1773 | in every reachable state: held counts equal mutexes named, count 1 exactly without holder, base priority when holding none, inheritance for everyone who blocked under the holder, mutual exclusion, and nobody waiting for a free mutex unless some task is about to try for it |
| MutexProtocol.ItemKeepsInv | ThirdParty/FreeRTOS-Kernel/tasks.c:3160-3183 | a task whose event list item an event group uses disturbs nobody at any mutex |
| MutexProtocol.InitialKeepsInv | ThirdParty/FreeRTOS-Kernel/queue.c:587-610 | freshly initialised mutexes satisfy all that |
| MutexProtocol.InheritanceIsNotTransitive | ThirdParty/FreeRTOS-Kernel/tasks.c:4114-4198 | if tasks block while holding mutexes, the guarantee survives a block exactly if the holder does not wait under a holder of lower priority |
| MutexProtocol.ChainOfThree | ThirdParty/FreeRTOS-Kernel/tasks.c:4114-4198 | from a start at which nobody holds anything, two takes and two blocks lead three tasks to a state in which it is lost |
| StreamSpec.UsedAndFreeAddUp | ThirdParty/FreeRTOS-Kernel/stream_buffer.c:623-653 | bytes used plus space is always the length less one |
| StreamSpec.PutAndPublish | ThirdParty/FreeRTOS-Kernel/stream_buffer.c:1274-1317 | bytes stored from the head on and then published are appended to the content |
| StreamSpec.ConsumeDrops | ThirdParty/FreeRTOS-Kernel/stream_buffer.c:1320-1361 | moving the tail drops exactly a prefix of the content |
| StreamSpec.FramesParse | ThirdParty/FreeRTOS-Kernel/stream_buffer.c:850-897 | length-prefixed non-empty messages parse back to themselves |
| StreamBuffer.StreamBuffer.WriteBytesToBuffer | ThirdParty/FreeRTOS-Kernel/stream_buffer.c:1274-1317 | at most two copies store the bytes where Put says |
| StreamBuffer.StreamBuffer.ReadBytesFromBuffer | ThirdParty/FreeRTOS-Kernel/stream_buffer.c:1320-1361 | at most two copies return the prefix of the content |
| StreamBuffer.StreamBuffer.WriteMessageToBuffer | ThirdParty/FreeRTOS-Kernel/stream_buffer.c:850-897 | a message is written whole with its length or not at all; a stream takes what fits |
| StreamBuffer.StreamBuffer.ReadMessage | ThirdParty/FreeRTOS-Kernel/stream_buffer.c:1101-1150 | a receive returns the next message, or nothing and leaves it if it does not fit |
| StreamBuffer.StreamBuffer.NextMessageLengthBytes | ThirdParty/FreeRTOS-Kernel/stream_buffer.c:1004-1041 | the length of the next message, 0 for an empty or a plain stream buffer, with the buffer unchanged |
| StreamInterleaving.StreamConservesBytes | ThirdParty/FreeRTOS-Kernel/stream_buffer.c:668-796 | at any point of any interleaving, received followed by buffered equals what the sends have put in, and that is, send by send, the first bytes of each one's argument, as many as fitted in the space it read |
| StreamInterleaving.MessagesArriveWholeAndInOrder | ThirdParty/FreeRTOS-Kernel/stream_buffer.c:1101-1150 | the buffer always parses as exactly the messages sent and not yet delivered, and those sent are, in order, the arguments of the sends that wrote |
| StreamInterleaving.ReceiveIsAllOrNothing | ThirdParty/FreeRTOS-Kernel/stream_buffer.c:1101-1150 | no step of a receive changes anything until the one that delivers the whole next message |
| StreamInterleaving.WriterStaysOutside | ThirdParty/FreeRTOS-Kernel/stream_buffer.c:1274-1317 | no byte the writer stores is one the reader may read |
| StreamInterleaving.SendWritesIfItFits | ThirdParty/FreeRTOS-Kernel/stream_buffer.c:850-897 | a send that does not wait writes exactly if it has read space: for the message and its length, or for one byte of a stream |
| StreamInterleaving.ReceiveTakesWhatFits | ThirdParty/FreeRTOS-Kernel/stream_buffer.c:1101-1150 | a stream receive takes the first bytes of the buffer, as many as it has seen or as its caller has room for |
| StreamInterleaving.MessageIsReadIfItFits | ThirdParty/FreeRTOS-Kernel/stream_buffer.c:1110-1137 | a message receive goes on to read the next message exactly if its caller has room for all of it |
| StreamInterleaving.ReceiveReadsIfThereAreBytes | ThirdParty/FreeRTOS-Kernel/stream_buffer.c:925-993 | a receive goes on to read exactly if it has seen bytes |
| Timers.WrappedDecisionIsExact | ThirdParty/FreeRTOS-Kernel/timers.c:738-779 | with less than M ticks between command and now, process at once exactly if the expiry has passed, otherwise the list of its epoch |
| Timers.OneCallbackPerPeriod | ThirdParty/FreeRTOS-Kernel/timers.c:546-562 | between steps of the daemon, a listed timer whose next expiry lies ahead has been called back exactly (now less start) / period times since its start |
| Timers.CallbacksMatchArmedExpiry | ThirdParty/FreeRTOS-Kernel/timers.c:546-589 | callbacks since the start are (armed expiry less start) / period less one, and none for a listed one-shot timer |
| Timers.TimerDaemon.InsertTimerInActiveList | ThirdParty/FreeRTOS-Kernel/timers.c:738-779 | the wrapped tests list the timer under its unbounded expiry or report that it has passed |
| Timers.TimerDaemon.ReloadTimer | ThirdParty/FreeRTOS-Kernel/timers.c:546-562 | the loop terminates with the timer listed for its first expiry after now, one callback for each expiry passed |
| Timers.TimerDaemon.ProcessExpiredTimer | ThirdParty/FreeRTOS-Kernel/timers.c:565-589 | an expired timer is called back, and reloaded or made inactive |
| Timers.TimerDaemon.SwitchTimerLists | ThirdParty/FreeRTOS-Kernel/timers.c:930-952 | everything due in the ended epoch is processed, nothing is reinserted into the list being drained, then the lists change places |
| Timers.TimerDaemon.SampleTimeNow | ThirdParty/FreeRTOS-Kernel/timers.c:715-735 | a smaller tick count means a new epoch, and the lists are switched exactly then |
| Timers.TimerDaemon.ProcessTimerOrBlockTask | ThirdParty/FreeRTOS-Kernel/timers.c:626-685 | it processes the head exactly if it is due, and otherwise blocks: without limit exactly if no timer is listed, else for the ticks until the first expiry or the wrap, whichever is first, and never for 0 while no timer is armed beyond its next expiry; every timer is untouched or processed up to the time, with one callback for each expiration |
| Timers.TimerDaemon.CommandStart | ThirdParty/FreeRTOS-Kernel/timers.c:843-872 | a start counts from the command time, also when the first expiries have already passed; the callbacks before it are those made before; every other timer is untouched, or processed for the epoch that ended |
| Timers.TimerDaemon.CommandStop | ThirdParty/FreeRTOS-Kernel/timers.c:874-878 | a stopped timer is listed nowhere, with the callbacks it had; every other timer as for a start |
| Timers.TimerDaemon.CommandChangePeriod | ThirdParty/FreeRTOS-Kernel/timers.c:880-893 | the new period counts from now, with no callback made; every other timer as for a start |
| Timers.TimerDaemon.CommandDelete | ThirdParty/FreeRTOS-Kernel/timers.c:895-919 | a deleted timer is gone exactly if it was allocated dynamically, and otherwise inactive; it is unlisted; every other timer as for a start |
| TimerTask.RunRound | ThirdParty/FreeRTOS-Kernel/timers.c:610-685 | one round processes, switches or blocks as above; a block with a limit ends at the first expiry or the wrap and is for at least one tick, also at the very beginning of an epoch |
| TimerTask.RunCommand | ThirdParty/FreeRTOS-Kernel/timers.c:782-927 | a command moves the daemon to its time, and leaves every timer but the one it is about untouched or processed |
| TimerTask.RunsFreeForever | ThirdParty/FreeRTOS-Kernel/timers.c:594-622 | over any run of rounds and of commands to other timers, a listed auto-reload timer keeps its start, and its callbacks are one for each elapsed period |
| TimerTask.RunEvents | ThirdParty/FreeRTOS-Kernel/timers.c:594-622 | the loop of the timer task has that property, across any number of wraps |
| TimerTask.CatchUp | ThirdParty/FreeRTOS-Kernel/timers.c:594-685 | rounds at one time come to an end with every expiry ahead, and then each auto-reload timer has been called back exactly once for each period elapsed since its start |
| EventSpec.EncodeDecode | ThirdParty/FreeRTOS-Kernel/event_groups.c:375-402 | what a task waits for and how survives the packing into its list item |
| EventSpec.SetBitsExact | ThirdParty/FreeRTOS-Kernel/event_groups.c:538-631 | setting bits unblocks exactly the waiters satisfied by the old bits with the new ones and leaves nobody waiting for set bits |
| EventSpec.SetBitsDelivers | ThirdParty/FreeRTOS-Kernel/event_groups.c:598-616 | every unblocked task is left that same value, nobody else anything |
| EventSpec.ClearMaskIsUnion | ThirdParty/FreeRTOS-Kernel/event_groups.c:598-626 | what is cleared is the union of the clear-on-exit masks of the unblocked tasks |
| EventSpec.SetBitsBits | ThirdParty/FreeRTOS-Kernel/event_groups.c:562-626 | a bit is set afterwards exactly if it was set or is being set and no unblocked waiter wanted it cleared |
| EventSpec.SetBitsIgnoresOrder | ThirdParty/FreeRTOS-Kernel/event_groups.c:538-631 | bits, remaining waiters with their multiplicity and delivered values do not depend on the order of the waiters |
| EventSpec.WaitBitsKeepsInv | ThirdParty/FreeRTOS-Kernel/event_groups.c:344-412 | a task blocks only on a condition that does not hold; a call that returns at once returns bits that meet it |
| EventSpec.SyncKeepsInv | ThirdParty/FreeRTOS-Kernel/event_groups.c:217-260 | the same for the rendezvous |
| EventSpec.ClearKeepsInv | ThirdParty/FreeRTOS-Kernel/event_groups.c:478-503 | clearing bits satisfies nobody |
| EventSpec.FinishKeepsInv | ThirdParty/FreeRTOS-Kernel/event_groups.c:425-475 | an unblocked call returns exactly the value that satisfied it, without control bits |
| EventSpec.MetIsHolds | ThirdParty/FreeRTOS-Kernel/event_groups.c:734-768 | the test of a wait for all holds exactly if every wanted bit is set, that of a wait for any exactly if some wanted bit is |
| EventSpec.WaitBitsExact | ThirdParty/FreeRTOS-Kernel/event_groups.c:344-412 | a wait returns at once exactly if its condition holds, bit by bit; just the wanted bits are cleared, exactly if asked for; otherwise no bit changes, and the task joins the waiters with just its own wishes unless it must not block |
| EventSpec.SyncExact | ThirdParty/FreeRTOS-Kernel/event_groups.c:217-260 | a rendezvous returns at once exactly if all its bits were set or are set with its own, and then leaves them cleared; otherwise the task waits for all of them unless it must not block |
| EventSpec.FinishAfterTimeout | ThirdParty/FreeRTOS-Kernel/event_groups.c:425-475 | a wait that has timed out says so, with the bits of the moment, and clears the wanted ones exactly if they have come meanwhile and it was asked to |
| EventSpec.WaitThenTimeout | ThirdParty/FreeRTOS-Kernel/event_groups.c:375-475 | from wait to timeout: the other waiters and the bits are as before, and the call answers that it timed out |
| EventSpec.WaitThenSet | ThirdParty/FreeRTOS-Kernel/event_groups.c:375-475 | from wait to wake-up: bits set meanwhile that meet the condition take the task off the list, and its call returns the bits of that moment, those included that are cleared again |
| EventSpec.NobodyWaitsInVain | ThirdParty/FreeRTOS-Kernel/event_groups.c:344-631 | after any sequence of calls and timeouts no blocked task's condition is satisfied |
| EventGroup.EventGroup.SetBits | ThirdParty/FreeRTOS-Kernel/event_groups.c:538-631 | the walk that removes items from the list it walks computes EventSpec.SetBits, and the bits left are returned |
| EventGroup.EventGroup.ClearBits | ThirdParty/FreeRTOS-Kernel/event_groups.c:478-503 | the bits are cleared and the old value returned |
| EventGroup.EventGroup.WaitBits | ThirdParty/FreeRTOS-Kernel/event_groups.c:344-412 | computes EventSpec.WaitBits |
| EventGroup.EventGroup.Sync | ThirdParty/FreeRTOS-Kernel/event_groups.c:217-260 | computes EventSpec.Sync |
| Barrier.MetWhenAllPresent | ThirdParty/FreeRTOS-Kernel/event_groups.c:219-233 | with disjoint masks the union is complete exactly when no task is missing |
| Barrier.StepKeepsInv | ThirdParty/FreeRTOS-Kernel/event_groups.c:199-319 | every entry and return keeps the rounds in step, and every return hands out the whole union |
| Barrier.NobodyReturnsEarly | ThirdParty/FreeRTOS-Kernel/event_groups.c:199-319 | over all runs no task has returned from a round that some task has not entered |
| Barrier.BitsAreThoseOfTheNextRound | ThirdParty/FreeRTOS-Kernel/event_groups.c:219-233 | opening leaves no bit set, and the bits are always those of the tasks already in the next round |
| Barrier.StartKeepsInv | ThirdParty/FreeRTOS-Kernel/event_groups.c:153-190 | an empty group is a barrier in round 0 |
| AesModes.IncrementAddsOne | Library/CryptoAccelerator/aes_alt.c:512-514 | the byte loop adds one to the big-endian counter |
| AesModes.CounterCounts | Library/CryptoAccelerator/aes_alt.c:508-515 | block k uses the first counter plus k modulo 2 to the power 128 |
| AesModes.CtrFormula | Library/CryptoAccelerator/aes_alt.c:488-525 | output byte i is input byte i xor byte i mod 16 of the encrypted counter block i / 16 |
| AesModes.CtrSplits | Library/CryptoAccelerator/aes_alt.c:488-525 | any split into calls equals one call, state included |
| AesModes.CtrTwice | Library/CryptoAccelerator/aes_alt.c:488-525 | applying it twice from equal states is the identity |
| AesModes.Cfb8RoundTrip | Library/CryptoAccelerator/aes_alt.c:447-481 | decryption undoes encryption and ends with the same vector |
| AesModes.Cfb8Vector | Library/CryptoAccelerator/aes_alt.c:464-477 | the vector is always the last 16 bytes of vector and ciphertext |
| AesModes.Cfb8Formula | Library/CryptoAccelerator/aes_alt.c:447-481 | output byte i is input byte i xor the first byte of the encryption of the 16 bytes before it in vector and ciphertext |
| AesModes.Cfb8Splits | Library/CryptoAccelerator/aes_alt.c:447-481 | any split into calls equals one call |
| AesModes.IncrementCounter | Library/CryptoAccelerator/aes_alt.c:512-514 | the loop with its early exit computes Increment |
| AesModes.AesCryptCtr | Library/CryptoAccelerator/aes_alt.c:488-525 | the byte loop computes CryptCtr, also in place, and writes nothing beyond the length |
| AesModes.AesCryptCfb8 | Library/CryptoAccelerator/aes_alt.c:447-481 | the byte loop computes CryptCfb8, also in place, and writes nothing beyond the length |

## Left out

- Port layer, stack set-up, context-switch assembly, MPU, thread-local storage, trace and coverage macros, run-time statistics: hardware or debugging only.
- Port-optimised task selection, tickless idle, `vTaskStepTick`, queue sets, queue registry, static allocation: other configurations of the same algorithms.
- Task deletion, `xTaskAbortDelay`, task notifications, co-routines: they add members of the kinds already proved.
- The idle task is taken never to block and never to be suspended, as the kernel requires of it.
- `vTaskSuspend` and `vTaskPrioritySet` before the scheduler has started: the machine starts with the scheduler running.
- Kernel.Kernel.PlaceOnEventList: which event list the task joins, and where, is not part of the scheduler's state, only that it is on one; the order of waiters is the subject of QueueProtocol and MutexProtocol.
- Kernel.Kernel.PlaceOnUnorderedEventList: likewise; in EventSpec a waiter is appended at the end.
- Kernel.Kernel.AddCurrentTaskToDelayedList: a wait of 0 ticks is left to the callers, which do not block then (for the timer task see TimerTask.RunRound).
- Timeouts.Check: the overflow count is unbounded here; the wrap of the counter itself after that many overflows is not modelled, nor is an aborted delay.
- Queue.Queue.CopyDataToQueue: one element per slot; the copying of an item's bytes is one assignment.
- QueueProtocol.StepKeepsInv: at most 127 tasks exist; with more, a lock count can reach the greatest 8-bit value and the assertion at queue.c:270 can fail.
- QueueProtocol.NoSenderSleepsThrough: resets are excluded, because the code does strand senders then (see ResetKeepsReceivers). Aborting, suspending or deleting a receiver between its wake-up and its retry is not part of the machine.
- MutexProtocol.RunKeepsInv: tasks are taken not to block while they hold a mutex and not to call vTaskPrioritySet; InheritanceIsNotTransitive says what the first assumption is worth. Holders that are deleted, and mutexes that are deleted or reset in use, are not modelled. The critical sections are functions on values; Kernel has the priority changes as methods.
- StreamInterleaving.StreamConservesBytes: blocking is a retry that may come at any time; trigger levels and notifications decide only when, so they are left out. `memcpy` copies bytes in ascending order.
- Timers.TimerDaemon.CommandStart: pended function calls are left out. A callback is an entry in a log, not code that calls the kernel again. The daemon is taken to lag by less than M ticks.
- TimerTask.RunEvents: the endless loop is run over a sequence of events of any length; that the command queue is first in first out is Queue's subject.
- EventGroup.EventGroup.SetBits: the result is read after the scheduler has been resumed, when other tasks may have changed the bits; here it is read before anybody has. Event bits have the 32-bit layout.
- SchedulerMachine.RemoveFromUnorderedKeepsInv: the value left in the task's event list item is the subject of EventSpec.
- Barrier.NobodyReturnsEarly: all tasks wait without a timeout, as a barrier needs.
- AesModes.AesCryptCtr: input and output are the same array or different ones; buffers that overlap partly are not modelled. The block function is arbitrary and does not fail; CBC, CFB128, OFB and the session handling over the TSI hardware interface are left out.
- `ThirdParty/FreeRTOS-SMP`, `sha256_alt.c`, `platform_alt.c`, `yaffs_allocator.c` and the sample programs: near copies, or easy members beside the kernel.
