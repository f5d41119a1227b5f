# mire: a Dafny model of a ptrace-based CPU throttle

mire throttles a running process without touching it. It finds the process by
exact name, optionally keeping only processes with a command-line argument
that contains a given pattern. For every task of the process and for the main
pid it starts one controller thread. Each controller seizes its task with
ptrace, then runs a fixed duty cycle until the control duration has passed:
interrupt the task, wait until it reports stopped, sleep for the throttle
duration, resume it, and sleep for the free-run duration. After the loop it
interrupts the task once more, waits for the stop and detaches. Any failing
call ends that controller at once with the call's error.

This project models `src/main.rs` in four modules:

- `Time` (`time.dfy`): Rust's `Duration` as whole seconds plus nanoseconds,
  and `Duration::from_millis`.
- `Settings` (`settings.dfy`): the parsed arguments, the run configuration
  derived from them (`Into<Config> for Args`), and the timing copy each
  controller receives (`TaskThrottleConfig::from`).
- `Control` (`control.dfy`): `control_pid`. The operating system is a class
  `Host` with a monotonic clock in nanoseconds and a trace of every operation
  issued, each with its outcome. Each ptrace/waitid call is a method that
  appends to the trace and succeeds or fails at the host's choice. A sleep
  advances the clock by at least its duration. The protocol a session must
  follow is the function `SessionOps`. The predicate `Follows` says that a
  trace is that protocol, or a prefix of it that ends at the one failing call.
- `Discovery` (`discovery.dfy`): the matching filter, the `while !done`
  discovery loop of `main`, and `add_trace`. Starting a thread is modelled
  as appending a `Spawn` (pid plus timing configuration) to the `threads`
  field of a `Driver` object. Each scan of the process table is an input
  sequence of process records. The refresh after an unsuccessful scan moves
  on to the next snapshot.

Assumptions about the environment:

- Every system call takes at least one nanosecond of clock time. This is what
  makes the control loop terminate for every configuration, including a zero
  throttle and free-run duration. No precondition is put on the durations.
- `processes_by_name` returns the processes whose name contains the target
  as a substring. The comment at `src/main.rs:55-56` says the lookup matches
  by substring, which is why the exact-name check follows it. The order of
  the processes in a snapshot stands for the order in which the process table
  is iterated; that order is an assumption, not something the code states.
- A task list comes as a sequence in the order the process table iterates it.

## Model

| member | source | states |
|---|---|---|
| `Time.FromMillis` | src/main.rs:162-164 | `Duration::from_millis(ms)` is a valid duration of exactly `ms` milliseconds (`ms * 10^6` ns) and converts back to `ms` |
| `Settings.IntoConfig` | src/main.rs:159-170 | each millisecond argument becomes a valid duration of exactly that many milliseconds, `ms * 10^6` ns, which converts back to `ms`; wait flag, name and pattern are carried over unchanged |
| `Settings.ControllerTimingFromArgs` | src/main.rs:149-157 | contract of `ThrottleConfigOf` (`TaskThrottleConfig::from`): the configuration a controller receives holds, in nanoseconds, exactly the throttle, free-run and total-control milliseconds given on the command line |
| `Control.Host.PtraceSeize` | src/main.rs:16 | issuing the seize appends it and its outcome to the trace; the clock advances |
| `Control.Host.PtraceInterrupt` | src/main.rs:19 | issuing an interrupt appends it and its outcome to the trace; the clock advances |
| `Control.Host.WaitForStop` | src/main.rs:20 | waiting for the stop appends it and its outcome to the trace; the clock advances |
| `Control.Host.PtraceCont` | src/main.rs:24 | issuing the resume appends it and its outcome to the trace; the clock advances |
| `Control.Host.PtraceDetach` | src/main.rs:31 | issuing the detach appends it and its outcome to the trace; the clock advances |
| `Control.Host.SleepFor` | src/main.rs:22-25 | a sleep never fails and the clock advances by at least its duration |
| `Control.Halt` | src/main.rs:19-20 | interrupt, then wait for the stop, stopping at the first failure, whose error is returned |
| `Control.StopFor` | src/main.rs:19-22 | the first half of an iteration issues interrupt, wait for stop and the throttle sleep in that order, stopping at the first failure, which is never the sleep; on success at least the throttle duration has passed |
| `Control.RunCycle` | src/main.rs:18-26 | one iteration issues interrupt, wait for stop, throttle sleep, resume and free-run sleep in that order, stopping at the first failure; a sleep is never the failing step; on success at least one nominal cycle length of time has passed |
| `Control.Drain` | src/main.rs:28-31 | after the loop: interrupt, wait for stop, detach, stopping at the first failure, whose error is returned |
| `Control.ControlPid` | src/main.rs:12-34 | the session's trace is the protocol for `cycles` iterations, or a prefix of it whose last step alone failed and whose error is returned; that error never comes from a sleep; every iteration began before the deadline, so `(cycles - 1) * (throttle + free_run) < control_duration`; `Ok` only once `control_duration` has passed since before the seize |
| `Control.SessionStructure` | src/main.rs:16-31 | contract of `SessionOps`, the protocol: a session is the seize, then `n` iterations each exactly interrupt, wait for stop, throttle sleep, resume, free-run sleep, then interrupt, wait for stop, detach |
| `Control.SeizeOnlyFirst` | src/main.rs:16 | the seize is the first operation of a session and is never issued again |
| `Control.DetachOnlyLast` | src/main.rs:31 | the detach is the last operation of a session and appears nowhere else |
| `Control.ResumeAfterAcknowledgedStop` | src/main.rs:19-25 | every resume comes right after the throttle sleep, which comes right after the acknowledged stop, which comes right after the interrupt; the free-run sleep follows the resume |
| `Control.ResumeOnlyAfterStopInTrace` | src/main.rs:19-24 | in the trace of any session, successful or not, each resume is preceded by a successful interrupt, a successful wait for the stop and the throttle sleep: a task is never resumed before its stop was acknowledged |
| `Control.SuccessEndsDetached` | src/main.rs:28-33 | a session that returns `Ok` issued every call successfully, began with the seize and ended with interrupt, wait for stop, detach |
| `Control.FailedSeizeIssuesNothingElse` | src/main.rs:16 | when the seize fails, it is the only operation issued and its error is returned |
| `Control.FailureLeavesNoDetach` | src/main.rs:18-31 | a session that fails anywhere before the detach itself issues no detach, so the task stays attached |
| `Control.CyclesResumeGuarded` | src/main.rs:19-25 | within the iterations, each resume is preceded by interrupt, wait for stop and throttle sleep, and followed by the free-run sleep |
| `Control.CyclesAt` | src/main.rs:18-26 | position `i` of the iterations holds position `i mod 5` of one cycle |
| `Discovery.Contains` | src/main.rs:71 | `s.contains(pat)` holds exactly when `pat` occurs in `s` at some index |
| `Discovery.AnyContains` | src/main.rs:67-71 | the `any` over the command line holds exactly when some argument contains the pattern |
| `Discovery.AcceptsExactly` | src/main.rs:57-75 | contract of `Accepts`, the match filter: a process is accepted iff its name equals the target and, when a pattern is set, the pattern occurs in some argument |
| `Discovery.ContainingNameRejected` | src/main.rs:54-64 | a process whose name only contains the target is returned by the lookup but rejected |
| `Discovery.ProcessesByNameMembers` | src/main.rs:54 | contract of `ProcessesByName` (`processes_by_name`): the lookup keeps exactly the processes whose name contains the target |
| `Discovery.LookupKeepsSpawns` | src/main.rs:54-57 | scanning the lookup's result starts the same controllers, and finds a match as often, as scanning the whole table would |
| `Discovery.TaskSpawnsInOrder` | src/main.rs:79-85 | one controller per task, in the order of the task list, each with the run's timing |
| `Discovery.AcceptedProcessSpawns` | src/main.rs:78-91 | an accepted process with a task list yields controllers for its tasks in order, then for its own pid |
| `Discovery.NoMatchNoSpawn` | src/main.rs:54-92 | a scan in which no process passes the filter starts no controller |
| `Discovery.SingleMatchSpawns` | src/main.rs:54-92 | a scan in which exactly one process passes the filter starts exactly that process's controllers |
| `Discovery.SpawnsComeFromAccepted` | src/main.rs:77-91 | every controller started is for a task or the pid of an accepted process with a task list, and carries the run's timing |
| `Discovery.AcceptedAreControlled` | src/main.rs:77-91 | every task and the pid of every accepted process with a task list get a controller |
| `Discovery.Driver.AddTrace` | src/main.rs:36-42 | `add_trace` appends exactly one controller, for the given pid and configuration |
| `Discovery.Driver.AddTraces` | src/main.rs:79-85 | the `for_each` over the tasks appends one controller per task, in order |
| `Discovery.Driver.Visit` | src/main.rs:57-91 | one process of a scan: it is reported found exactly when it passes the filter, and its controllers, if any, are appended |
| `Discovery.Driver.ScanRound` | src/main.rs:54-92 | one pass over the processes appends the controllers of every accepted process, and reports whether any was accepted (`done`) |
| `Discovery.Driver.Poll` | src/main.rs:52-101 | scans run until one finds the target; every earlier scan found nothing; only the last scan's controllers are started; without `wait_for_process` exactly one scan runs |
| `Discovery.Govern` | src/main.rs:44-101 | `main` up to the joins: the controllers started are those of the first scan that finds the target (or of the only scan when not waiting), with the timing converted from the arguments |

## Left out

- Thread spawning, the concurrent execution of the controllers, and the final
  joins (`src/main.rs:36-42`, `103-105`). A started thread is recorded as a
  `Spawn`. Each controller is modelled on its own `Host`, since controllers
  share no state.
- The error printing in the thread closure and the name-mismatch message
  (`src/main.rs:39`, `58-62`). This is output only.
- The kernel semantics of ptrace and waitid. They are abstract calls that may
  fail. A `waitid` that blocks forever (a task that never stops) is not
  modelled: every call returns.
- Process enumeration and `refresh_processes` from the sysinfo library. Scans
  are input snapshots.
- `clap` argument parsing and its defaults (900 ms, 300 ms, 120000 ms, wait
  enabled; `src/main.rs:110-130`). Only the conversion after parsing is
  modelled.
- The `u32 as i32` pid casts (`src/main.rs:81`, `87`). Pids are unbounded
  integers.
- `to_string_lossy` on names and arguments. Strings are taken to be valid
  already.
- The panic of `Instant + Duration` on overflow. The clock is an unbounded
  natural number.
- Control.ControlPid: no upper bound on the session's wall time is stated.
  Sleeps and calls may overrun by any amount, so none holds.
- Discovery.Driver.Poll: with `wait_for_process` set and no match, the source
  rescans forever, without pausing between scans. The model stops when the
  supplied snapshots run out, and requires at least one snapshot, because the
  first scan always happens. As in the code, there is no pause between
  scans.
- Discovery.Govern: it inherits the same bound on the number of scans as
  `Poll`. The main pid is not removed from the task list, so a process whose
  task list already holds its own pid gets two controllers for it, as in the
  code.
