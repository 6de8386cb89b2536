/** The main process as an object whose handlers update its fields in place. Each
    method is proved to move the fields exactly as the matching function of module
    Supervision says, so the lemmas proved there hold of the object. */
module MultiProcess {
  import opened Supervision

  class MainProcess {
    /** `subProcessPidMap`: the registered workers (the map sends each pid to itself). */
    var registry: set<Pid>
    /** `subProcessMaxCount`: the pool's target size. */
    const maxCount: int
    /** `stopStatus` and `restartStatus`. */
    var stopping: bool
    var restarting: bool
    /** `restartSubProcessCount`: workers replaced so far in the current restart. */
    var restartCount: nat
    /** How many SIGTERMs `posix_kill` has sent to each pid. */
    var termSent: multiset<Pid>
    /** How many times `pcntl_fork` has been called for a worker. */
    var forkCalls: nat
    /** Whether the process still runs, has called `exit(0)`, or died of an exception. */
    var life: Life

    /** The fields as one value. */
    function State(): SupervisorState
      reads this
    {
      SupervisorState(registry, maxCount, stopping, restarting, restartCount, termSent, forkCalls, life)
    }

    ghost predicate Valid()
      reads this
    {
      Supervision.Valid(State())
    }

    /** The field initialisation of the constructor; start-up continues with
        `StartSubProcess` and then one `Iterate` per turn of the supervisory loop. */
    constructor (subProcessCount: int)
      ensures State() == Initial(subProcessCount) && Valid()
    {
      registry := {};
      maxCount := subProcessCount;
      stopping, restarting := false, false;
      restartCount := 0;
      termSent := multiset{};
      forkCalls := 0;
      life := Supervising;
    }

    /** `startSubProcess`: `subProcessMaxCount` calls of `makeSubProcess`, the i-th fork
        having outcome `forks[i]`; a failure escapes and ends the process. */
    method StartSubProcess(forks: seq<ForkOutcome>)
      requires PoolTarget(State()) <= |forks|
      modifies this
      ensures State() == Supervision.StartSubProcess(old(State()), forks)
    {
      ghost var n := PoolTarget(State());
      var i := 0;
      while i < maxCount
        invariant 0 <= i <= n
        invariant Spawn(State(), forks[i..], n - i) == Spawn(old(State()), forks, n)
      {
        var out := MakeSubProcess(forks[i]);
        assert forks[i..][1..] == forks[i + 1..];
        if out.Thrown? {
          life := Aborted(out.message);
          return;
        }
        i := i + 1;
      }
    }

    /** `makeSubProcess` on the parent's side: register the child's pid, or throw. */
    method MakeSubProcess(fork: ForkOutcome) returns (out: Outcome)
      modifies this
      ensures (State(), out) == Make(old(State()), fork)
    {
      forkCalls := forkCalls + 1;
      match fork
      case Forked(pid) =>
        registry := registry + {pid};
        out := Ok;
      case ForkFailed =>
        out := Thrown(ForkFailMessage);
    }

    /** One turn of `wait`'s loop: dispatch the pending signals, then classify the child
        the non-blocking wait returned (when `waitResult` is a pid). The sleep at the end
        of the turn is not modelled. */
    method Iterate(pending: seq<Signal>, waitResult: int, fork: ForkOutcome)
      modifies this
      ensures State() == Supervision.Iterate(old(State()), pending, waitResult, fork)
    {
      if life != Supervising {
        return;
      }
      Dispatch(pending);
      DispatchFrame(old(State()), pending);
      if waitResult > 0 {
        var pid: Pid := waitResult;
        ghost var dispatched := State();
        if stopping {
          StopHandler(pid);
          if life != Supervising {
            return;
          }
        }
        ghost var stopped := State();
        assert stopped == if dispatched.stopping then Supervision.StopHandler(dispatched, pid) else dispatched;
        assert stopped.life == Supervising;
        if restarting {
          RestartHandler(pid, fork);
        }
        ghost var restarted := State();
        assert restarted == if stopped.restarting then Supervision.RestartHandler(stopped, pid, fork) else stopped;
        if !stopping && !restarting {
          ExceptionProcessHandler(pid, fork);
        }
        assert State() == if !restarted.stopping && !restarted.restarting
                          then Supervision.ExceptionHandler(restarted, pid, fork) else restarted;
      }
    }

    /** `pcntl_signal_dispatch`: run `signalHandler` on each pending signal in order. */
    method Dispatch(pending: seq<Signal>)
      modifies this
      ensures State() == Supervision.Dispatch(old(State()), pending)
    {
      for i := 0 to |pending|
        invariant Supervision.Dispatch(State(), pending[i..]) == Supervision.Dispatch(old(State()), pending)
      {
        assert pending[i..][1..] == pending[i + 1..];
        SignalHandler(pending[i]);
      }
    }

    method SignalHandler(sig: Signal)
      modifies this
      ensures State() == Supervision.SignalHandler(old(State()), sig)
    {
      match sig
      case SigInt => Stop();
      case SigTerm => Stop();
      case SigUsr1 => Restart();
      case OtherSignal(_) =>
    }

    method Stop()
      modifies this
      ensures State() == Kill(old(State()).(stopping := true))
    {
      stopping := true;
      KillSubProcess();
    }

    method Restart()
      modifies this
      ensures State() == Kill(old(State()).(restarting := true))
    {
      restarting := true;
      KillSubProcess();
    }

    /** `killSubProcess`: one `posix_kill(pid, SIGTERM)` per registered pid. */
    method KillSubProcess()
      modifies this
      ensures State() == Kill(old(State()))
    {
      var rest := registry;
      while rest != {}
        invariant rest <= registry
        invariant State() == old(State()).(termSent := termSent)
        invariant termSent == old(termSent) + multiset(registry - rest)
        decreases rest
      {
        var pid :| pid in rest;
        assert registry - (rest - {pid}) == (registry - rest) + {pid};
        termSent := termSent + multiset{pid};
        rest := rest - {pid};
      }
      assert registry - rest == registry;
    }

    method StopHandler(pid: Pid)
      modifies this
      ensures State() == Supervision.StopHandler(old(State()), pid)
    {
      if pid in registry {
        registry := registry - {pid};
      }
      if registry == {} {
        life := Exited;
      }
    }

    method RestartHandler(pid: Pid, fork: ForkOutcome)
      modifies this
      ensures State() == Supervision.RestartHandler(old(State()), pid, fork)
    {
      if pid in registry {
        var out := MakeSubProcess(fork);
        if out.Ok? {
          registry := registry - {pid};
          restartCount := restartCount + 1;
        }
        // a failed fork is caught here and dropped
      }
      if restartCount == maxCount {
        restarting := false;
        restartCount := 0;
      }
    }

    /** `exceptionProcessHandler`: a failed replacement fork is not caught; it leaves the
        loop and ends the process. */
    method ExceptionProcessHandler(pid: Pid, fork: ForkOutcome)
      modifies this
      ensures State() == Supervision.ExceptionHandler(old(State()), pid, fork)
    {
      if pid in registry {
        registry := registry - {pid};
        var out := MakeSubProcess(fork);
        if out.Thrown? {
          life := Aborted(out.message);
        }
      }
    }
  }
}
