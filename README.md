# Crawler process supervisor, link queue and link manager in Dafny

This project models three components of a PHP crawler toolkit and proves properties
of the models.

- **The main process** (`MainProcess`). It forks a fixed-size pool of worker
  processes and keeps them in a registry (`subProcessPidMap`). It then runs a
  supervisory loop. Each turn dispatches the pending signals, reaps at most one
  exited child without blocking, and handles that child:
  - SIGINT and SIGTERM set `stopStatus`.
  - SIGUSR1 sets `restartStatus`.
  - Both of these send SIGTERM to every registered worker.
  - While stopping, a reaped worker is forgotten, and the process exits once the
    registry is empty.
  - While restarting, a reaped worker is replaced one at a time, and
    `restartSubProcessCount` counts the replacements until it reaches the pool size.
  - Otherwise, a reaped worker is an abnormal exit. It is forgotten and replaced.
- **The in-memory queue** (`MemoryQueue`). It is a FIFO of strings held in an array
  field.
- **The link manager** (`LinkManager`). It hands out links from a queue, remembers
  handed-out links in a "garbage" seen-set, and deduplicates new batches against
  both.

Files and modules:

- `supervision.dfy`, module `Supervision`: the supervisor's fields as one value
  (`SupervisorState`). Each handler of the main process is a function on that value.
  `Valid` is the invariant the bookkeeping keeps. The lemmas state the supervisor's
  properties for one step and for runs of several steps.
- `main_process.dfy`, module `MultiProcess`: class `MainProcess`. Its fields are the
  PHP fields. Its methods update them in place, with the PHP control flow (the `for`
  loop of start-up, the `foreach` of `killSubProcess`, the loop body of `wait`).
  Each method is proved to change the fields exactly as the matching `Supervision`
  function says, so every lemma of `Supervision` holds of the object.
- `memory_queue.dfy`, module `Queue`: class `MemoryQueue` over a `seq<string>`.
  `Without` is the filter that `removeRepeat` computes, with lemmas about it.
- `link_manager.dfy`, module `Links`: class `LinkManager`, which holds a
  `MemoryQueue` and a `Garbage`. `Saved` and `SavedAsWritten` give the effect of
  `saveLink` as values.

How the environment is modelled:

- Every `pcntl_fork` outcome is an input, `ForkOutcome`: either `Forked(pid)` (the
  parent's view of a new child, whose pid is positive) or `ForkFailed` (-1).
- The result of the non-blocking `pcntl_wait` is an input, `waitResult`.
- The signals pending at the dispatch point are an input, a list in arrival order.
- Each `posix_kill(pid, SIGTERM)` is recorded in the multiset `termSent`.
- `exit(0)` sets `life` to `Exited`.
- An exception that nothing catches ends the process. It sets `life` to
  `Aborted(message)`, with the message the code throws.
- `forkCalls` counts the fork calls. It exists so that "one reap forks at most once"
  can be stated.
- Fresh pids are not assumed. A fork may hand back a pid that is already registered,
  as the OS may do once a registered child has been reaped. Lemmas that need
  freshness take it as a hypothesis.

A few of the code's behaviours differ from what a reader of its comments might
expect. The model follows the code:

- A repeated stop or restart request sends every registered worker another SIGTERM
  (`Supervision.RepeatedStopResendsTerm`). It is not a no-op.
- `restartHandler` forks the replacement before it forgets the dead pid. When the
  fork fails, the failure is swallowed and the dead pid stays registered, although
  that child has already been reaped. A later stop then keeps waiting for a child
  that no longer exists.
- `exceptionProcessHandler` forgets the pid first. Its fork failure is not caught,
  so it ends the supervisor.
- The stop handler runs only when a child is reaped. A stop requested while no
  worker is registered therefore never exits.

## Model

| member | source | states |
|---|---|---|
| `MultiProcess.MainProcess.constructor` | src/Components/MultiProcess/MainProcess.php:79-85 | the fields start as declared: empty registry, both flags clear, counter 0, pool size as given |
| `MultiProcess.MainProcess.StartSubProcess` | src/Components/MultiProcess/MainProcess.php:156-161 | the `for` loop makes `subProcessMaxCount` forks (none for 0 or less); the first failure ends the process |
| `MultiProcess.MainProcess.MakeSubProcess` | src/Components/MultiProcess/MainProcess.php:170-185 | one fork call; a child's pid is registered, a failure throws |
| `MultiProcess.MainProcess.Iterate` | src/Components/MultiProcess/MainProcess.php:195-219 | one loop turn: signals first, then the stop, restart and abnormal-exit handlers in that order, each reading the flags afresh; `exit` ends the turn |
| `MultiProcess.MainProcess.Dispatch` | src/Components/MultiProcess/MainProcess.php:198 | the pending signals are handled one after another in arrival order |
| `MultiProcess.MainProcess.SignalHandler` | src/Components/MultiProcess/MainProcess.php:228-241 | SIGINT and SIGTERM stop, SIGUSR1 restarts, any other signal does nothing |
| `MultiProcess.MainProcess.Stop` | src/Components/MultiProcess/MainProcess.php:249-254 | sets the stop flag, then signals every registered worker |
| `MultiProcess.MainProcess.Restart` | src/Components/MultiProcess/MainProcess.php:261-266 | sets the restart flag, then signals every registered worker |
| `MultiProcess.MainProcess.KillSubProcess` | src/Components/MultiProcess/MainProcess.php:273-279 | every registered pid gets exactly one more SIGTERM; nothing else changes |
| `MultiProcess.MainProcess.StopHandler` | src/Components/MultiProcess/MainProcess.php:287-296 | the reaped pid leaves the registry; the process exits when the registry is empty |
| `MultiProcess.MainProcess.RestartHandler` | src/Components/MultiProcess/MainProcess.php:304-321 | a registered pid is forgotten and counted only after its replacement forked; a fork failure is swallowed; the restart ends when the counter reaches the pool size |
| `MultiProcess.MainProcess.ExceptionProcessHandler` | src/Components/MultiProcess/MainProcess.php:330-339 | a registered pid is forgotten, then replaced; a fork failure ends the process |
| `Supervision.MakeRegistersOnlyNewPid` | src/Components/MultiProcess/MainProcess.php:170-185 | a successful fork adds exactly the new pid (one more entry when it is fresh); a failed fork throws and leaves the registry unchanged |
| `Supervision.SpawnFresh` | src/Components/MultiProcess/MainProcess.php:156-161 | n forks on fresh pids add n entries, forget none and leave every other field alone |
| `Supervision.SpawnBound` | src/Components/MultiProcess/MainProcess.php:156-161 | n forks add at most n entries, whatever their outcomes |
| `Supervision.StartupFillsPool` | src/Components/MultiProcess/MainProcess.php:156-161 | with all forks fresh, start-up registers exactly `subProcessMaxCount` workers and keeps the invariant; with a count of 0 nothing happens |
| `Supervision.StartupKeepsValid` | src/Components/MultiProcess/MainProcess.php:156-185 | start-up establishes the invariant whatever the fork outcomes |
| `Supervision.SignalEffects` | src/Components/MultiProcess/MainProcess.php:228-279 | SIGINT and SIGTERM set the stop flag, SIGUSR1 the restart flag; both send one SIGTERM per registered pid and keep the registry and the counter; other signals change nothing |
| `Supervision.RepeatedStopResendsTerm` | src/Components/MultiProcess/MainProcess.php:249-254 | a second stop request leaves the flags and the registry as they were, but sends every registered worker a second SIGTERM |
| `Supervision.DispatchFrame` | src/Components/MultiProcess/MainProcess.php:198 | dispatching signals changes only the flags and the SIGTERM record, and never clears a flag |
| `Supervision.DispatchSeesStop` | src/Components/MultiProcess/MainProcess.php:198-205 | a stop signal anywhere in the pending list leaves the stop flag set for the reap of the same turn |
| `Supervision.ReapWhileStopping` | src/Components/MultiProcess/MainProcess.php:203-215 | while stopping, a reaped registered pid is removed and an unregistered one changes nothing; nothing is forked even with a restart in progress; the process exits exactly when the registry becomes empty |
| `Supervision.ReapWhileRestarting` | src/Components/MultiProcess/MainProcess.php:304-321 | while restarting, a successful fresh fork swaps the dead pid for the new one (same size) and increments the counter, and the restart ends exactly when the counter reaches the pool size; a failed fork leaves the registry, the counter and the flag unchanged |
| `Supervision.ReapAbnormalExit` | src/Components/MultiProcess/MainProcess.php:330-339 | with neither flag set, a registered pid is replaced by one new worker and the others stay registered; an unregistered pid changes nothing; a failed fork ends the process |
| `Supervision.ReapForksAtMostOnce` | src/Components/MultiProcess/MainProcess.php:203-215 | under the invariant, one reap forks at most once, even when the restart completes and the abnormal-exit branch then sees the same pid |
| `Supervision.ReapKeepsValid` | src/Components/MultiProcess/MainProcess.php:203-215 | every reap keeps the invariant: at most `subProcessMaxCount` registered, counter 0 outside a restart and below the pool size in one, exit only when stopping with an empty registry |
| `Supervision.DispatchKeepsValid` | src/Components/MultiProcess/MainProcess.php:228-266 | signal handling keeps the invariant |
| `Supervision.IterateKeepsValid` | src/Components/MultiProcess/MainProcess.php:195-219 | every loop turn keeps the invariant |
| `Supervision.StopPrecedesReapInIteration` | src/Components/MultiProcess/MainProcess.php:198-211 | a stop signal dispatched in a turn governs that turn's reap: the pid is removed and no replacement is forked |
| `Supervision.StopDrainsRegistry` | src/Components/MultiProcess/MainProcess.php:287-296 | once stopping, reaping the registered workers one by one in any order keeps the process running until the last one, then exits with an empty registry and no fork |
| `Supervision.RestartCompletes` | src/Components/MultiProcess/MainProcess.php:304-321 | a restart completes after exactly `subProcessMaxCount - restartSubProcessCount` more counted reaps, with one fork each and the pool size kept; afterwards the counter reads 0 |
| `Queue.MemoryQueue.constructor` | src/Components/Queue/MemoryQueue.php:17 | a new queue is empty |
| `Queue.MemoryQueue.Push` | src/Components/Queue/MemoryQueue.php:25-30 | the pushed elements are appended at the back in order and the old elements stay; pushing `[]` changes nothing |
| `Queue.MemoryQueue.Out` | src/Components/Queue/MemoryQueue.php:37-40 | a non-empty queue loses and returns its front element; an empty queue returns '' and stays empty |
| `Queue.MemoryQueue.Has` | src/Components/Queue/MemoryQueue.php:48-51 | true exactly when the value occurs at some position; it only reads the queue |
| `Queue.MemoryQueue.IsEmpty` | src/Components/Queue/MemoryQueue.php:58-61 | true exactly when the queue has length 0 |
| `Queue.MemoryQueue.Clear` | src/Components/Queue/MemoryQueue.php:66-69 | the queue is empty afterwards |
| `Queue.MemoryQueue.RemoveRepeat` | src/Components/Queue/MemoryQueue.php:78-87 | returns the argument without the queued elements, in order, with no queued element left in it; the queue is only read |
| `Queue.PushThenDrainIsFifo` | src/Components/Queue/MemoryQueue.php:25-40 | pushing onto an empty queue and then calling `out` until it is empty returns the elements in push order |
| `Queue.WithoutMembership` | src/Components/Queue/MemoryQueue.php:78-87 | an element survives `removeRepeat` iff it was in the argument and is not queued |
| `Queue.WithoutMultiplicity` | src/Components/Queue/MemoryQueue.php:78-87 | every occurrence of an unqueued element survives and none of a queued one |
| `Queue.WithoutConcat` | src/Components/Queue/MemoryQueue.php:80-84 | the filter works element by element: filtering a concatenation filters each part |
| `Queue.WithoutNothingDropped` | src/Components/Queue/MemoryQueue.php:80-86 | an argument with no queued element comes back unchanged |
| `Links.Garbage.Put` | src/Components/LinkManager/LinkManager.php:60 | the link joins the seen-set |
| `Links.Garbage.Clean` | src/Components/LinkManager/LinkManager.php:102 | the seen-set is empty afterwards |
| `Links.LinkManager.constructor` | src/Components/LinkManager/LinkManager.php:43-48 | keeps the given queue, garbage and clear threshold |
| `Links.LinkManager.GetLink` | src/Components/LinkManager/LinkManager.php:55-66 | a non-empty queue hands out its front link, loses it and adds it to the garbage; an empty queue yields '' and nothing changes |
| `Links.LinkManager.SaveLink` | src/Components/LinkManager/LinkManager.php:73-75 | as written, the guard reads an unassigned variable, so neither the queue nor the garbage changes |
| `Links.LinkManager.SaveLinkIntended` | src/Components/LinkManager/LinkManager.php:73-92 | with the guard on the batch, a non-empty batch cleans the garbage, then pushes its links that are neither in the cleaned garbage nor queued, in order; an empty batch changes nothing |
| `Links.LinkManager.CleanGarbage` | src/Components/LinkManager/LinkManager.php:97-104 | the garbage becomes the result of `Cleaned` on its old contents and the threshold |
| `Links.CleanedThreshold` | src/Components/LinkManager/LinkManager.php:97-104 | threshold 0 never clears; a non-zero threshold clears once the count reaches it and not before |
| `Links.SavedAppendsOnlyNewLinks` | src/Components/LinkManager/LinkManager.php:77-90 | a save keeps the queued links in place and appends exactly the batch's links that are neither in the cleaned garbage nor already queued |
| `Links.BatchDuplicateQueuedTwice` | src/Components/LinkManager/LinkManager.php:79-90 | filtering is against the state before the push, so a new link that occurs twice in a batch is queued twice |
| `Links.SaveLinkAsWrittenLosesNewLinks` | src/Components/LinkManager/LinkManager.php:73-90 | for any batch with a new link, the written `saveLink` leaves the queue as it was while the intended one makes it longer |

## Left out

- `daemonize` (umask, the double fork, `setsid`, the parent's `exit`) is OS process plumbing. It is not modelled.
- `resetStdout` is file-descriptor I/O. It is not modelled.
- `savePid` and `registerSignalHandler` live in `BaseProcess`, which is not part of this model. The model does not decide which signal numbers reach `signalHandler`; it handles any signal.
- The child's side of `makeSubProcess` (the `pid == 0` branch that runs `SubProcess`) is not modelled, because `SubProcess` is not part of this model.
- `init` runs the whole start-up and then never returns from `wait`. The model splits this into the constructor, `StartSubProcess`, and one `Iterate` call per loop turn. Runs of several turns are stated as lemmas.
- The `sleep` between turns and the float `sleepTime` are not modelled.
- The exit status from `pcntl_wait` is not modelled; the code never reads it.
- Real process concurrency and asynchronous signal delivery are abstracted. Signals take effect only at the dispatch point.
- `MultiProcess.MainProcess.StartSubProcess` takes one fork outcome per loop iteration, so it requires at least `subProcessMaxCount` outcomes. This is how the environment is modelled, not a demand of the code.
- `subProcessPidMap` sends each pid to itself, so it is modelled as a set of pids. The order of `foreach` in `killSubProcess` is not modelled; `termSent` records how many SIGTERMs each pid received.
- PHP's loose comparison in `in_array` and in `!= null` is modelled as string equality. Only '' compares equal to null, so `out` returns the front element unchanged.
- `unset` in `removeRepeat` and `saveLink` leaves gaps in the array keys. The model works on sequences, so it keeps only the order of the elements.
- The garbage collaborator's implementation is not part of this model. It is modelled as a set, so `count` counts distinct links.
- `LinkManager` calls `pop` on its queue, and `MemoryQueue` only has `out`. The model uses one contract for both: remove and return the front element.
- `JsonParser` wraps `json_decode` and is not modelled.
- `SpiderInterface` and `DownloaderInterface` are interfaces without logic and are not modelled.
- `MultiProcessComponentProvider` is dependency-injection glue and is not modelled.

## Findings

| source | as written | input that shows it | evidently intended | confidence | as-written member | corrected member |
|---|---|---|---|---|---|---|
| src/Components/LinkManager/LinkManager.php:75 | the guard is `!empty($link)`, but `$link` is not assigned yet, so the guard is false and `saveLink` never saves anything | an empty queue and garbage, threshold 0, batch `["a"]`: the queue stays empty | `!empty($links)` (the parameter): clean the garbage, then push the batch's new links | high; not executed | `Links.LinkManager.SaveLink`, `Links.SaveLinkAsWrittenLosesNewLinks` | `Links.LinkManager.SaveLinkIntended`, `Links.SavedAppendsOnlyNewLinks` |
