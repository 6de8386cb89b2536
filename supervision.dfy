/** The main process's worker-pool bookkeeping as a state machine over values.
    One step of the supervisory loop dispatches the pending signals, then looks at
    the child that a non-blocking wait reaped (if any) and runs the stop, restart and
    abnormal-exit handlers in that order. The outcome of each `pcntl_fork` call and the
    result of each wait are inputs; `posix_kill(pid, SIGTERM)` is recorded in `termSent`. */
module Supervision {

  /** A process identifier handed to the parent by a successful fork. */
  type Pid = p: int | p > 0 witness 1

  datatype Signal = SigInt | SigTerm | SigUsr1 | OtherSignal(number: int)

  /** What a `pcntl_fork` call gives the parent: a child's pid, or failure (-1). */
  datatype ForkOutcome = Forked(pid: Pid) | ForkFailed

  /** The result of a call that may throw. */
  datatype Outcome = Ok | Thrown(message: string)

  /** Whether the main process is still supervising, has called `exit(0)`, or has been
      ended by an exception that nothing caught. */
  datatype Life = Supervising | Exited | Aborted(message: string)

  const ForkFailMessage := "fork fail in make sub process"

  /** The supervisor's fields. `registry` is `subProcessPidMap` (which maps each pid to
      itself), `maxCount` is `subProcessMaxCount`, `stopping`/`restarting` are
      `stopStatus`/`restartStatus`, `restartCount` is `restartSubProcessCount`.
      `termSent` counts the SIGTERMs sent to each pid and `forkCalls` the calls to
      `pcntl_fork`; `life` stands for `exit` and for an escaping exception. */
  datatype SupervisorState = SupervisorState(
    registry: set<Pid>,
    maxCount: int,
    stopping: bool,
    restarting: bool,
    restartCount: nat,
    termSent: multiset<Pid>,
    forkCalls: nat,
    life: Life)

  /** The fields as the constructor leaves them, before any child exists. */
  function Initial(maxCount: int): SupervisorState
  {
    SupervisorState({}, maxCount, false, false, 0, multiset{}, 0, Supervising)
  }

  /** The invariant the bookkeeping keeps: the pool never exceeds its target size,
      the restart counter is 0 outside a restart and below the target during one,
      and the process exits only with stop requested and the registry drained. */
  ghost predicate Valid(s: SupervisorState)
  {
    && (|s.registry| <= s.maxCount || s.registry == {})
    && (!s.restarting ==> s.restartCount == 0)
    && (s.restartCount < s.maxCount || s.restartCount == 0)
    && (s.life == Exited ==> s.stopping && s.registry == {})
  }

  /** `makeSubProcess` on the parent's side: one fork; a child's pid is registered,
      a failure throws. */
  function Make(s: SupervisorState, fork: ForkOutcome): (SupervisorState, Outcome)
  {
    var s' := s.(forkCalls := s.forkCalls + 1);
    match fork
    case Forked(pid) => (s'.(registry := s.registry + {pid}), Ok)
    case ForkFailed => (s', Thrown(ForkFailMessage))
  }

  /** `startSubProcess`: `n` forks in a row, using the outcomes `forks` in order; the
      first failure throws out of the start-up sequence and ends the process. */
  function Spawn(s: SupervisorState, forks: seq<ForkOutcome>, n: nat): SupervisorState
    requires n <= |forks|
    decreases n
  {
    if n == 0 then s
    else
      var (m, out) := Make(s, forks[0]);
      if out.Thrown? then m.(life := Aborted(out.message))
      else Spawn(m, forks[1..], n - 1)
  }

  /** The number of iterations of the start-up `for` loop. */
  function PoolTarget(s: SupervisorState): nat
  {
    if s.maxCount < 0 then 0 else s.maxCount
  }

  function StartSubProcess(s: SupervisorState, forks: seq<ForkOutcome>): SupervisorState
    requires PoolTarget(s) <= |forks|
  {
    Spawn(s, forks, PoolTarget(s))
  }

  /** `killSubProcess`: one SIGTERM to every registered pid. */
  function Kill(s: SupervisorState): SupervisorState
  {
    s.(termSent := s.termSent + multiset(s.registry))
  }

  /** `signalHandler`: SIGINT and SIGTERM request a stop, SIGUSR1 a restart, both
      signalling all registered workers; any other signal is ignored. */
  function SignalHandler(s: SupervisorState, sig: Signal): SupervisorState
  {
    match sig
    case SigInt => Kill(s.(stopping := true))
    case SigTerm => Kill(s.(stopping := true))
    case SigUsr1 => Kill(s.(restarting := true))
    case OtherSignal(_) => s
  }

  /** `pcntl_signal_dispatch`: the pending signals are handled in arrival order. */
  function Dispatch(s: SupervisorState, pending: seq<Signal>): SupervisorState
    decreases |pending|
  {
    if pending == [] then s else Dispatch(SignalHandler(s, pending[0]), pending[1..])
  }

  /** `stopHandler`: forget the reaped pid, and exit once no worker is registered. */
  function StopHandler(s: SupervisorState, pid: Pid): SupervisorState
  {
    var s' := s.(registry := s.registry - {pid});
    if s'.registry == {} then s'.(life := Exited) else s'
  }

  /** `restartHandler`: for a registered pid, fork the replacement FIRST and only on
      success forget the old pid and count it; a failed fork is swallowed. Then end the
      restart once the counter reaches the pool target. */
  function RestartHandler(s: SupervisorState, pid: Pid, fork: ForkOutcome): SupervisorState
  {
    var s' :=
      if pid in s.registry then
        var (m, out) := Make(s, fork);
        if out.Ok? then m.(registry := m.registry - {pid}, restartCount := m.restartCount + 1)
        else m
      else s;
    if s'.restartCount == s'.maxCount then s'.(restarting := false, restartCount := 0) else s'
  }

  /** `exceptionProcessHandler`: for a registered pid, forget it FIRST and then fork a
      replacement; a failed fork throws out of the loop and ends the process. */
  function ExceptionHandler(s: SupervisorState, pid: Pid, fork: ForkOutcome): SupervisorState
  {
    if pid in s.registry then
      var (m, out) := Make(s.(registry := s.registry - {pid}), fork);
      if out.Thrown? then m.(life := Aborted(out.message)) else m
    else s
  }

  /** The reap branch of the loop body, for a reaped child `pid`. The flags are read
      afresh before each handler, and `exit` in the stop handler ends the step. */
  function Reap(s: SupervisorState, pid: Pid, fork: ForkOutcome): SupervisorState
  {
    var s1 := if s.stopping then StopHandler(s, pid) else s;
    if s1.life != Supervising then s1
    else
      var s2 := if s1.restarting then RestartHandler(s1, pid, fork) else s1;
      if !s2.stopping && !s2.restarting then ExceptionHandler(s2, pid, fork) else s2
  }

  /** One iteration of `wait`'s loop: dispatch, then a non-blocking wait whose result is
      `waitResult` (a pid when positive, 0 or -1 when nothing was reaped); `fork` is the
      outcome of the replacement fork, if one is made. Nothing runs once the process
      has ended. */
  function Iterate(s: SupervisorState, pending: seq<Signal>, waitResult: int, fork: ForkOutcome): SupervisorState
  {
    if s.life != Supervising then s
    else
      var s1 := Dispatch(s, pending);
      if waitResult > 0 then Reap(s1, waitResult, fork) else s1
  }

  // ---------------------------------------------------------------------------
  // Forking and start-up

  /** A successful fork registers exactly the new pid; a failed one throws and leaves
      the registry as it was. Both make one fork call. */
  lemma MakeRegistersOnlyNewPid(s: SupervisorState, fork: ForkOutcome)
    ensures Make(s, fork).0.forkCalls == s.forkCalls + 1
    ensures fork.Forked? ==> Make(s, fork).1 == Ok && Make(s, fork).0.registry == s.registry + {fork.pid}
    ensures fork.Forked? && fork.pid !in s.registry ==> |Make(s, fork).0.registry| == |s.registry| + 1
    ensures fork.ForkFailed? ==> Make(s, fork).1.Thrown? && Make(s, fork).0.registry == s.registry
  {
  }

  /** Each of the next `n` forks succeeds on a pid that is not registered when it is
      made. */
  ghost predicate FreshForks(s: SupervisorState, forks: seq<ForkOutcome>, n: nat)
    requires n <= |forks|
    decreases n
  {
    n == 0 ||
    (&& forks[0].Forked? && forks[0].pid !in s.registry
     && FreshForks(Make(s, forks[0]).0, forks[1..], n - 1))
  }

  /** `n` fresh forks add `n` pids to the registry, forget none, and keep the process
      supervising; with `n` = 0 nothing is forked. */
  lemma {:induction false} SpawnFresh(s: SupervisorState, forks: seq<ForkOutcome>, n: nat)
    requires n <= |forks| && FreshForks(s, forks, n)
    ensures var r := Spawn(s, forks, n);
            && s.registry <= r.registry
            && |r.registry| == |s.registry| + n
            && r == s.(registry := r.registry, forkCalls := s.forkCalls + n)
    decreases n
  {
    if n > 0 {
      SpawnFresh(Make(s, forks[0]).0, forks[1..], n - 1);
    }
  }

  /** At most `n` forks never grow the registry by more than `n`. */
  lemma {:induction false} SpawnBound(s: SupervisorState, forks: seq<ForkOutcome>, n: nat)
    requires n <= |forks|
    ensures |Spawn(s, forks, n).registry| <= |s.registry| + n
    ensures Spawn(s, forks, n) == s.(registry := Spawn(s, forks, n).registry,
                                     forkCalls := Spawn(s, forks, n).forkCalls,
                                     life := Spawn(s, forks, n).life)
    ensures Spawn(s, forks, n).life == s.life || Spawn(s, forks, n).life == Aborted(ForkFailMessage)
    decreases n
  {
    if n > 0 {
      var m := Make(s, forks[0]).0;
      SpawnBound(m, forks[1..], n - 1);
    }
  }

  /** With every fork succeeding on a fresh pid, start-up leaves exactly
      `subProcessMaxCount` workers registered (none when the count is 0). */
  lemma StartupFillsPool(maxCount: int, forks: seq<ForkOutcome>)
    requires PoolTarget(Initial(maxCount)) <= |forks|
    requires FreshForks(Initial(maxCount), forks, PoolTarget(Initial(maxCount)))
    ensures var s := StartSubProcess(Initial(maxCount), forks);
            && |s.registry| == PoolTarget(Initial(maxCount))
            && s.life == Supervising && Valid(s)
    ensures maxCount <= 0 ==> StartSubProcess(Initial(maxCount), forks) == Initial(maxCount)
  {
    SpawnFresh(Initial(maxCount), forks, PoolTarget(Initial(maxCount)));
  }

  /** Start-up keeps the invariant whatever the fork outcomes. */
  lemma StartupKeepsValid(maxCount: int, forks: seq<ForkOutcome>)
    requires PoolTarget(Initial(maxCount)) <= |forks|
    ensures Valid(StartSubProcess(Initial(maxCount), forks))
  {
    SpawnBound(Initial(maxCount), forks, PoolTarget(Initial(maxCount)));
  }

  // ---------------------------------------------------------------------------
  // Signals

  /** SIGINT and SIGTERM set the stop flag, SIGUSR1 the restart flag; either way every
      registered pid gets one more SIGTERM and the registry, the counter and the other
      flag stay as they were. Any other signal changes nothing. */
  lemma SignalEffects(s: SupervisorState, sig: Signal)
    ensures var r := SignalHandler(s, sig);
            && r.registry == s.registry && r.restartCount == s.restartCount
            && r.life == s.life && r.forkCalls == s.forkCalls
    ensures sig.SigInt? || sig.SigTerm? ==>
              var r := SignalHandler(s, sig);
              r.stopping && r.restarting == s.restarting && r.termSent == s.termSent + multiset(s.registry)
    ensures sig.SigUsr1? ==>
              var r := SignalHandler(s, sig);
              r.restarting && r.stopping == s.stopping && r.termSent == s.termSent + multiset(s.registry)
    ensures sig.OtherSignal? ==> SignalHandler(s, sig) == s
  {
  }

  /** A repeated stop request leaves the flags and the registry as the first one did,
      but sends every registered worker a second SIGTERM. */
  lemma RepeatedStopResendsTerm(s: SupervisorState)
    ensures var once := SignalHandler(s, SigInt);
            var twice := SignalHandler(once, SigInt);
            && twice.(termSent := once.termSent) == once
            && twice.termSent == s.termSent + multiset(s.registry) + multiset(s.registry)
  {
  }

  /** Dispatch only touches the flags and the SIGTERM record. */
  lemma {:induction false} DispatchFrame(s: SupervisorState, pending: seq<Signal>)
    ensures var r := Dispatch(s, pending);
            && r == s.(stopping := r.stopping, restarting := r.restarting, termSent := r.termSent)
            && (s.stopping ==> r.stopping) && (s.restarting ==> r.restarting)
            && s.termSent <= r.termSent
    decreases |pending|
  {
    if pending != [] {
      DispatchFrame(SignalHandler(s, pending[0]), pending[1..]);
    }
  }

  /** A stop signal anywhere among the pending ones is in force when the reap of the
      same iteration is classified. */
  lemma {:induction false} DispatchSeesStop(s: SupervisorState, pending: seq<Signal>, k: nat)
    requires k < |pending| && (pending[k].SigInt? || pending[k].SigTerm?)
    ensures Dispatch(s, pending).stopping
    decreases k
  {
    if k == 0 {
      DispatchFrame(SignalHandler(s, pending[0]), pending[1..]);
    } else {
      DispatchSeesStop(SignalHandler(s, pending[0]), pending[1..], k - 1);
    }
  }

  // ---------------------------------------------------------------------------
  // Reaping

  /** Stopping (with or without a restart in progress): the reaped pid is forgotten,
      an unregistered one leaves the registry alone, nothing is forked, and the process
      exits exactly when the registry becomes empty. */
  lemma ReapWhileStopping(s: SupervisorState, pid: Pid, fork: ForkOutcome)
    requires s.life == Supervising && s.stopping
    ensures var r := Reap(s, pid, fork);
            && r.registry == s.registry - {pid}
            && r.forkCalls == s.forkCalls
            && r.stopping
            && (r.life == Exited <==> r.registry == {})
            && (r.life == Exited || r.life == Supervising)
  {
  }

  /** Restarting without a stop: a registered pid whose replacement forks on a fresh
      pid is swapped for it (size unchanged) and counted, and the restart ends exactly
      when the counter reaches `subProcessMaxCount`. If the fork fails, the dead pid
      stays registered and the counter and the flag are as they were. */
  lemma ReapWhileRestarting(s: SupervisorState, pid: Pid, fork: ForkOutcome)
    requires Valid(s) && s.life == Supervising && !s.stopping && s.restarting
    requires pid in s.registry
    ensures var r := Reap(s, pid, fork);
            && r.life == Supervising && !r.stopping && r.forkCalls == s.forkCalls + 1
    ensures fork.Forked? && fork.pid !in s.registry ==>
              var r := Reap(s, pid, fork);
              && r.registry == s.registry - {pid} + {fork.pid}
              && |r.registry| == |s.registry|
              && (r.restarting <==> s.restartCount + 1 != s.maxCount)
              && r.restartCount == (if s.restartCount + 1 == s.maxCount then 0 else s.restartCount + 1)
    ensures fork.ForkFailed? ==>
              var r := Reap(s, pid, fork);
              r.registry == s.registry && r.restartCount == s.restartCount && r.restarting
  {
  }

  /** Neither flag set: a registered pid is replaced by one new worker (a failed fork
      ends the process) while the other workers stay registered; an unregistered pid
      changes nothing. */
  lemma ReapAbnormalExit(s: SupervisorState, pid: Pid, fork: ForkOutcome)
    requires s.life == Supervising && !s.stopping && !s.restarting
    ensures pid !in s.registry ==> Reap(s, pid, fork) == s
    ensures pid in s.registry && fork.Forked? ==>
              var r := Reap(s, pid, fork);
              && r.registry == s.registry - {pid} + {fork.pid}
              && r.life == Supervising && r.forkCalls == s.forkCalls + 1
    ensures pid in s.registry && fork.ForkFailed? ==>
              var r := Reap(s, pid, fork);
              r.registry == s.registry - {pid} && r.life == Aborted(ForkFailMessage)
  {
  }

  /** One reap forks at most once, even when the restart completes and the abnormal-exit
      branch then sees the same, already forgotten, pid. */
  lemma ReapForksAtMostOnce(s: SupervisorState, pid: Pid, fork: ForkOutcome)
    requires Valid(s)
    ensures Reap(s, pid, fork).forkCalls <= s.forkCalls + 1
  {
    if !s.stopping && s.restarting && pid in s.registry && fork.ForkFailed? {
      assert s.restartCount != s.maxCount;
    }
  }

  /** Every reap keeps the invariant. */
  lemma ReapKeepsValid(s: SupervisorState, pid: Pid, fork: ForkOutcome)
    requires Valid(s) && s.life == Supervising
    ensures Valid(Reap(s, pid, fork))
  {
    var s1 := if s.stopping then StopHandler(s, pid) else s;
    if s1.life == Supervising && s1.restarting {
      var s2 := RestartHandler(s1, pid, fork);
      if pid in s1.registry {
        var m := Make(s1, fork).0;
        assert |m.registry - {pid}| <= |s1.registry| by {
          if fork.Forked? {
            assert m.registry - {pid} <= (s1.registry - {pid}) + {fork.pid};
          }
        }
      }
      assert |s2.registry| <= |s1.registry|;
    }
  }

  /** Signals keep the invariant. */
  lemma {:induction false} DispatchKeepsValid(s: SupervisorState, pending: seq<Signal>)
    requires Valid(s)
    ensures Valid(Dispatch(s, pending))
    decreases |pending|
  {
    if pending != [] {
      DispatchKeepsValid(SignalHandler(s, pending[0]), pending[1..]);
    }
  }

  /** Every loop iteration keeps the invariant. */
  lemma IterateKeepsValid(s: SupervisorState, pending: seq<Signal>, waitResult: int, fork: ForkOutcome)
    requires Valid(s)
    ensures Valid(Iterate(s, pending, waitResult, fork))
  {
    if s.life == Supervising {
      DispatchKeepsValid(s, pending);
      DispatchFrame(s, pending);
      if waitResult > 0 {
        ReapKeepsValid(Dispatch(s, pending), waitResult, fork);
      }
    }
  }

  /** Signals are handled before the reap of the same iteration: a stop requested in it
      already governs that reap, so a registered worker is not replaced even while a
      restart is in progress. */
  lemma StopPrecedesReapInIteration(s: SupervisorState, pending: seq<Signal>, k: nat, pid: Pid, fork: ForkOutcome)
    requires s.life == Supervising
    requires k < |pending| && (pending[k].SigInt? || pending[k].SigTerm?)
    ensures var r := Iterate(s, pending, pid, fork);
            && r.registry == s.registry - {pid}
            && r.forkCalls == s.forkCalls
            && (r.life == Exited <==> r.registry == {})
  {
    DispatchSeesStop(s, pending, k);
    DispatchFrame(s, pending);
    ReapWhileStopping(Dispatch(s, pending), pid, fork);
  }

  // ---------------------------------------------------------------------------
  // Runs of several iterations

  /** The pids of `order` are pairwise distinct. */
  ghost predicate Distinct(order: seq<Pid>)
  {
    forall i, j :: 0 <= i < j < |order| ==> order[i] != order[j]
  }

  /** Iterations without signals, each reaping the next pid of `order`. */
  function ReapInOrder(s: SupervisorState, order: seq<Pid>, fork: ForkOutcome): SupervisorState
    decreases |order|
  {
    if order == [] then s else ReapInOrder(Iterate(s, [], order[0], fork), order[1..], fork)
  }

  /** Once stopping, reaping the registered workers one by one, in any order, keeps
      the process supervising until the last of them and then exits with the registry
      empty, without forking. */
  lemma {:induction false} StopDrainsRegistry(s: SupervisorState, order: seq<Pid>, fork: ForkOutcome)
    requires s.life == Supervising && s.stopping
    requires Distinct(order) && (set p | p in order) == s.registry && order != []
    ensures var r := ReapInOrder(s, order, fork);
            r.life == Exited && r.registry == {} && r.forkCalls == s.forkCalls
    ensures forall k :: 0 <= k < |order| ==> ReapInOrder(s, order[..k], fork).life == Supervising
    decreases |order|
  {
    var s1 := Iterate(s, [], order[0], fork);
    assert s1 == Reap(s, order[0], fork) by { assert Dispatch(s, []) == s; }
    ReapWhileStopping(s, order[0], fork);
    assert forall j :: 0 <= j < |order[1..]| ==> order[1..][j] == order[j + 1];
    assert (set p | p in order[1..]) == s1.registry by {
      forall p ensures p in order[1..] <==> p in order && p != order[0] {
        if p in order && p != order[0] {
          var i :| 0 <= i < |order| && order[i] == p;
          assert order[1..][i - 1] == p;
        }
      }
    }
    forall k | 0 <= k < |order|
      ensures ReapInOrder(s, order[..k], fork).life == Supervising
    {
      if k > 0 {
        assert order[..k][1..] == order[1..][..k - 1];
        assert order[1..][0] in s1.registry;
        StopDrainsRegistry(s1, order[1..], fork);
      }
    }
    if |order| > 1 {
      assert order[1..][0] in s1.registry;
      StopDrainsRegistry(s1, order[1..], fork);
    } else {
      assert order[1..] == [];
    }
  }

  /** A reap that the restart bookkeeping counts: the reaped pid is registered and its
      replacement forks on a pid that is not. */
  ghost predicate CountedRestarts(s: SupervisorState, events: seq<(Pid, Pid)>)
    decreases |events|
  {
    |events| == 0 ||
    (&& events[0].0 in s.registry
     && events[0].1 !in s.registry
     && CountedRestarts(Iterate(s, [], events[0].0, Forked(events[0].1)), events[1..]))
  }

  /** Iterations without signals, each reaping `events[i].0` and forking `events[i].1`. */
  function RestartRun(s: SupervisorState, events: seq<(Pid, Pid)>): SupervisorState
    decreases |events|
  {
    if events == [] then s
    else RestartRun(Iterate(s, [], events[0].0, Forked(events[0].1)), events[1..])
  }

  /** A rolling restart that has counted `restartCount` workers completes after exactly
      `subProcessMaxCount - restartCount` more counted reaps, each forking one worker
      and keeping the pool size; the counter then reads 0 again. A crash of a worker
      that was not yet restarted counts like any other reap. */
  lemma {:induction false} RestartCompletes(s: SupervisorState, events: seq<(Pid, Pid)>)
    requires Valid(s) && s.life == Supervising && !s.stopping && s.restarting
    requires s.maxCount >= 1 && s.restartCount + |events| == s.maxCount
    requires CountedRestarts(s, events)
    ensures var r := RestartRun(s, events);
            && !r.restarting && r.restartCount == 0 && r.life == Supervising
            && |r.registry| == |s.registry| && r.forkCalls == s.forkCalls + |events|
    decreases |events|
  {
    var (pid, next) := events[0];
    var s1 := Iterate(s, [], pid, Forked(next));
    assert s1 == Reap(s, pid, Forked(next)) by { assert Dispatch(s, []) == s; }
    ReapWhileRestarting(s, pid, Forked(next));
    if |events| > 1 {
      ReapKeepsValid(s, pid, Forked(next));
      RestartCompletes(s1, events[1..]);
    }
  }
}
