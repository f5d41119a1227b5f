/** The per-task controller: attach to one task, run stop/resume cycles until a
    deadline, then stop the task once more and detach (`control_pid`).

    The operating system is a `Host`: a monotonic clock and the trace of every
    operation the controller issued, each with its outcome. Each ptrace or
    waitid call may fail; whether it does is the host's choice. */
module Control {
  import opened Time
  import opened Settings

  type Pid = int

  /** An operation issued by a controller. */
  datatype Op =
    | Seize(pid: Pid)        // ptrace::seize, no options
    | Interrupt(pid: Pid)    // ptrace::interrupt
    | WaitStopped(pid: Pid)  // waitid(P_PID, pid, WSTOPPED)
    | Cont(pid: Pid)         // ptrace::cont, no signal
    | Detach(pid: Pid)       // ptrace::detach, no signal
    | Sleep(nanos: nat)      // thread::sleep

  /** One entry of the trace: the operation and whether it succeeded. */
  datatype Step = Step(op: Op, ok: bool)

  /** `Result<()>`: success, or the error of the operation that failed. */
  datatype Outcome = Ok | Err(failed: Op)

  /** Nominal length of one stop/resume cycle. */
  function CycleNanos(t: TaskThrottleConfig): nat {
    t.throttleDuration.AsNanos() + t.freeRunDuration.AsNanos()
  }

  /** One loop iteration, in the order it is issued. */
  function CycleOps(pid: Pid, t: TaskThrottleConfig): seq<Op> {
    [Interrupt(pid), WaitStopped(pid), Sleep(t.throttleDuration.AsNanos()),
     Cont(pid), Sleep(t.freeRunDuration.AsNanos())]
  }

  /** Stop the task and wait until the stop is acknowledged. */
  function HaltOps(pid: Pid): seq<Op> {
    [Interrupt(pid), WaitStopped(pid)]
  }

  /** The first half of an iteration: stop the task and keep it stopped for `d`. */
  function StopOps(pid: Pid, d: Duration): seq<Op> {
    [Interrupt(pid), WaitStopped(pid), Sleep(d.AsNanos())]
  }

  /** `n` loop iterations, one after the other. */
  function Cycles(pid: Pid, t: TaskThrottleConfig, n: nat): (r: seq<Op>)
    ensures |r| == 5 * n
  {
    if n == 0 then [] else Cycles(pid, t, n - 1) + CycleOps(pid, t)
  }

  /** The final stop, its acknowledgement and the detach. */
  function DrainOps(pid: Pid): seq<Op> {
    [Interrupt(pid), WaitStopped(pid), Detach(pid)]
  }

  /** Everything a session of `n` cycles issues when no operation fails. */
  function SessionOps(pid: Pid, t: TaskThrottleConfig, n: nat): (r: seq<Op>)
    ensures |r| == 5 * n + 4
  {
    [Seize(pid)] + Cycles(pid, t, n) + DrainOps(pid)
  }

  /** The `k`-th cycle of a session trace. */
  function NthCycle(ops: seq<Op>, k: nat): seq<Op>
    requires 5 * k + 6 <= |ops|
  {
    ops[5 * k + 1 .. 5 * k + 6]
  }

  function Ops(s: seq<Step>): (r: seq<Op>)
    ensures |r| == |s|
  {
    seq(|s|, i requires 0 <= i < |s| => s[i].op)
  }

  predicate AllOk(s: seq<Step>) {
    forall i :: 0 <= i < |s| ==> s[i].ok
  }

  /** `s` is what issuing `expected` left in the trace, with outcome `r`:
      on success, all of `expected`, every step successful; on failure, a
      prefix of `expected` whose last step, and only it, failed, and whose
      error is the one returned. Nothing is issued after a failure. */
  predicate Follows(s: seq<Step>, expected: seq<Op>, r: Outcome) {
    match r
    case Ok => AllOk(s) && Ops(s) == expected
    case Err(op) =>
      && 0 < |s| <= |expected|
      && Ops(s) == expected[..|s|]
      && AllOk(s[..|s| - 1])
      && s[|s| - 1] == Step(op, false)
  }

  /** The operating system as one controller sees it. Every system call
      takes at least one nanosecond; a sleep lasts at least as long as asked. */
  class Host {
    var clock: nat          // Instant::now(), in nanoseconds
    var trace: seq<Step>

    constructor (start: nat)
      ensures clock == start && trace == []
    {
      clock := start;
      trace := [];
    }

    method PtraceSeize(pid: Pid) returns (ok: bool)
      modifies this
      ensures trace == old(trace) + [Step(Seize(pid), ok)]
      ensures clock > old(clock)
    {
      ok :| true;
      var elapsed: nat :| elapsed > 0;
      clock := clock + elapsed;
      trace := trace + [Step(Seize(pid), ok)];
    }

    method PtraceInterrupt(pid: Pid) returns (ok: bool)
      modifies this
      ensures trace == old(trace) + [Step(Interrupt(pid), ok)]
      ensures clock > old(clock)
    {
      ok :| true;
      var elapsed: nat :| elapsed > 0;
      clock := clock + elapsed;
      trace := trace + [Step(Interrupt(pid), ok)];
    }

    /** Blocks until the task reports it has stopped, or fails. */
    method WaitForStop(pid: Pid) returns (ok: bool)
      modifies this
      ensures trace == old(trace) + [Step(WaitStopped(pid), ok)]
      ensures clock > old(clock)
    {
      ok :| true;
      var elapsed: nat :| elapsed > 0;
      clock := clock + elapsed;
      trace := trace + [Step(WaitStopped(pid), ok)];
    }

    method PtraceCont(pid: Pid) returns (ok: bool)
      modifies this
      ensures trace == old(trace) + [Step(Cont(pid), ok)]
      ensures clock > old(clock)
    {
      ok :| true;
      var elapsed: nat :| elapsed > 0;
      clock := clock + elapsed;
      trace := trace + [Step(Cont(pid), ok)];
    }

    method PtraceDetach(pid: Pid) returns (ok: bool)
      modifies this
      ensures trace == old(trace) + [Step(Detach(pid), ok)]
      ensures clock > old(clock)
    {
      ok :| true;
      var elapsed: nat :| elapsed > 0;
      clock := clock + elapsed;
      trace := trace + [Step(Detach(pid), ok)];
    }

    /** Never fails; may overshoot by any amount. */
    method SleepFor(d: Duration)
      modifies this
      ensures trace == old(trace) + [Step(Sleep(d.AsNanos()), true)]
      ensures clock >= old(clock) + d.AsNanos()
    {
      var elapsed: nat :| elapsed >= d.AsNanos();
      clock := clock + elapsed;
      trace := trace + [Step(Sleep(d.AsNanos()), true)];
    }
  }

  /** Issuing the `k`-th operation of `expected` after its first `k` succeeded. */
  lemma FollowsNext(s: seq<Step>, expected: seq<Op>, k: nat, ok: bool)
    requires k < |expected|
    requires Follows(s, expected[..k], Ok)
    ensures ok ==> Follows(s + [Step(expected[k], true)], expected[..k + 1], Ok)
    ensures !ok ==> Follows(s + [Step(expected[k], false)], expected, Err(expected[k]))
  {
    var s' := s + [Step(expected[k], ok)];
    assert s'[..|s'| - 1] == s;
    assert Ops(s') == Ops(s) + [expected[k]];
    assert expected[..k + 1] == expected[..k] + [expected[k]];
    assert expected[..|s'|] == expected[..k + 1];
  }

  /** A run that failed inside `a` also fails anything `a` begins. */
  lemma FollowsFailedPrefix(s: seq<Step>, a: seq<Op>, c: seq<Op>, r: Outcome)
    requires r.Err? && Follows(s, a, r)
    ensures Follows(s, a + c, r)
  {
    assert (a + c)[..|s|] == a[..|s|];
  }

  /** A successful run of `a` followed by a run of `b`: failing in `b` fails
      the whole of `a + b + c`, whatever `c` is; succeeding completes `a + b`. */
  lemma FollowsConcat(s: seq<Step>, a: seq<Op>, s': seq<Step>, b: seq<Op>, c: seq<Op>, r: Outcome)
    requires Follows(s, a, Ok) && Follows(s', b, r)
    requires r.Ok? ==> c == []
    ensures Follows(s + s', a + b + c, r)
  {
    var t := s + s';
    assert Ops(t) == Ops(s) + Ops(s');
    if r.Err? {
      assert t[..|t| - 1] == s + s'[..|s'| - 1];
      assert (a + b + c)[..|t|] == a + b[..|s'|];
    } else {
      assert a + b + c == a + b;
    }
  }

  /** Interrupt the task and wait until it reports stopped. `s` is what it
      adds to the trace. */
  method Halt(host: Host, pid: Pid) returns (r: Outcome, ghost s: seq<Step>)
    modifies host
    ensures host.trace == old(host.trace) + s
    ensures Follows(s, HaltOps(pid), r)
    ensures r.Err? ==> !r.failed.Sleep?
    ensures host.clock > old(host.clock)
  {
    ghost var e := HaltOps(pid);
    s := [];
    assert Follows(s, e[..0], Ok);

    var ok := host.PtraceInterrupt(pid);
    FollowsNext(s, e, 0, ok);
    s := s + [Step(e[0], ok)];
    if !ok {
      return Err(Interrupt(pid)), s;
    }

    ok := host.WaitForStop(pid);
    FollowsNext(s, e, 1, ok);
    s := s + [Step(e[1], ok)];
    if !ok {
      return Err(WaitStopped(pid)), s;
    }
    assert e[..2] == e;
    r := Ok;
  }

  /** The first half of an iteration: interrupt, wait for the stop, sleep for
      `d`. `s` is what it adds to the trace. */
  method StopFor(host: Host, pid: Pid, d: Duration) returns (r: Outcome, ghost s: seq<Step>)
    modifies host
    ensures host.trace == old(host.trace) + s
    ensures Follows(s, StopOps(pid, d), r)
    ensures r.Err? ==> !r.failed.Sleep?
    ensures host.clock > old(host.clock)
    ensures r.Ok? ==> host.clock >= old(host.clock) + d.AsNanos()
  {
    ghost var e := StopOps(pid, d);
    assert HaltOps(pid) == e[..2];
    r, s := Halt(host, pid);
    if r.Err? {
      FollowsFailedPrefix(s, e[..2], e[2..], r);
      assert e[..2] + e[2..] == e;
      return;
    }

    host.SleepFor(d);
    FollowsNext(s, e, 2, true);
    s := s + [Step(e[2], true)];
    assert e[..3] == e;
  }

  /** One loop iteration: interrupt, wait for the stop, sleep for the
      throttle duration, resume, sleep for the free-run duration. `s` is what
      it adds to the trace. */
  method RunCycle(host: Host, pid: Pid, config: TaskThrottleConfig) returns (r: Outcome, ghost s: seq<Step>)
    modifies host
    ensures host.trace == old(host.trace) + s
    ensures Follows(s, CycleOps(pid, config), r)
    ensures r.Err? ==> !r.failed.Sleep?
    ensures host.clock > old(host.clock)
    ensures r.Ok? ==> host.clock >= old(host.clock) + CycleNanos(config)
  {
    ghost var e := CycleOps(pid, config);
    assert StopOps(pid, config.throttleDuration) == e[..3];
    r, s := StopFor(host, pid, config.throttleDuration);
    if r.Err? {
      FollowsConcat([], [], s, e[..3], e[3..], r);
      assert [] + e[..3] + e[3..] == e;
      return;
    }

    var ok := host.PtraceCont(pid);
    FollowsNext(s, e, 3, ok);
    s := s + [Step(e[3], ok)];
    if !ok {
      return Err(Cont(pid)), s;
    }

    host.SleepFor(config.freeRunDuration);
    FollowsNext(s, e, 4, true);
    s := s + [Step(e[4], true)];
    assert e[..5] == e;
  }

  /** The final interrupt, its acknowledgement, and the detach. `s` is what
      it adds to the trace. */
  method Drain(host: Host, pid: Pid) returns (r: Outcome, ghost s: seq<Step>)
    modifies host
    ensures host.trace == old(host.trace) + s
    ensures Follows(s, DrainOps(pid), r)
    ensures r.Err? ==> !r.failed.Sleep?
    ensures host.clock > old(host.clock)
  {
    ghost var e := DrainOps(pid);
    assert HaltOps(pid) == e[..2];
    r, s := Halt(host, pid);
    if r.Err? {
      FollowsFailedPrefix(s, e[..2], e[2..], r);
      assert e[..2] + e[2..] == e;
      return;
    }

    var ok := host.PtraceDetach(pid);
    FollowsNext(s, e, 2, ok);
    s := s + [Step(e[2], ok)];
    if !ok {
      return Err(Detach(pid)), s;
    }
    assert e[..3] == e;
  }

  /** A loop iteration after `n` successful ones: success makes `n + 1`
      successful iterations; failure fails a session of `n + 1` cycles. */
  lemma SessionAfterCycle(done: seq<Step>, cycle: seq<Step>, pid: Pid, t: TaskThrottleConfig, n: nat, r: Outcome)
    requires Follows(done, [Seize(pid)] + Cycles(pid, t, n), Ok)
    requires Follows(cycle, CycleOps(pid, t), r)
    ensures r.Ok? ==> Follows(done + cycle, [Seize(pid)] + Cycles(pid, t, n + 1), Ok)
    ensures r.Err? ==> Follows(done + cycle, SessionOps(pid, t, n + 1), r)
  {
    var prefix := [Seize(pid)] + Cycles(pid, t, n);
    if r.Err? {
      FollowsConcat(done, prefix, cycle, CycleOps(pid, t), DrainOps(pid), r);
      assert prefix + CycleOps(pid, t) + DrainOps(pid) == SessionOps(pid, t, n + 1);
    } else {
      FollowsConcat(done, prefix, cycle, CycleOps(pid, t), [], r);
      assert prefix + CycleOps(pid, t) + [] == [Seize(pid)] + Cycles(pid, t, n + 1);
    }
  }

  /** The drain after `n` successful iterations ends a session of `n` cycles. */
  lemma SessionAfterDrain(done: seq<Step>, drain: seq<Step>, pid: Pid, t: TaskThrottleConfig, n: nat, r: Outcome)
    requires Follows(done, [Seize(pid)] + Cycles(pid, t, n), Ok)
    requires Follows(drain, DrainOps(pid), r)
    ensures Follows(done + drain, SessionOps(pid, t, n), r)
  {
    FollowsConcat(done, [Seize(pid)] + Cycles(pid, t, n), drain, DrainOps(pid), [], r);
    assert [Seize(pid)] + Cycles(pid, t, n) + DrainOps(pid) + [] == SessionOps(pid, t, n);
  }

  /** `control_pid`. The deadline is taken before the seize; the loop runs
      while the clock is before it; any failing operation ends the session
      at once with its error. `cycles` counts the loop iterations begun and
      `steps` is what the session adds to the trace. */
  method ControlPid(host: Host, pid: Pid, config: TaskThrottleConfig)
    returns (r: Outcome, ghost cycles: nat, ghost steps: seq<Step>)
    modifies host
    ensures host.trace == old(host.trace) + steps
    ensures Follows(steps, SessionOps(pid, config, cycles), r)
    ensures r.Err? ==> !r.failed.Sleep?
    ensures cycles > 0 ==> (cycles - 1) * CycleNanos(config) < config.controlDuration.AsNanos()
    ensures r.Ok? ==> host.clock >= old(host.clock) + config.controlDuration.AsNanos()
    ensures host.clock >= old(host.clock)
  {
    var start := host.clock;
    var deadline := start + config.controlDuration.AsNanos();
    cycles := 0;

    var ok := host.PtraceSeize(pid);
    FollowsNext([], SessionOps(pid, config, 0), 0, ok);
    steps := [Step(Seize(pid), ok)];
    if !ok {
      return Err(Seize(pid)), cycles, steps;
    }
    assert SessionOps(pid, config, 0)[..1] == [Seize(pid)] + Cycles(pid, config, 0);

    while host.clock < deadline
      invariant host.trace == old(host.trace) + steps
      invariant Follows(steps, [Seize(pid)] + Cycles(pid, config, cycles), Ok)
      invariant host.clock >= start + cycles * CycleNanos(config)
      invariant cycles > 0 ==> (cycles - 1) * CycleNanos(config) < config.controlDuration.AsNanos()
      decreases deadline - host.clock
    {
      ghost var n := cycles;
      cycles := cycles + 1;
      var rc, cycle := RunCycle(host, pid, config);
      SessionAfterCycle(steps, cycle, pid, config, n, rc);
      steps := steps + cycle;
      if rc.Err? {
        return rc, cycles, steps;
      }
    }

    ghost var drain;
    r, drain := Drain(host, pid);
    SessionAfterDrain(steps, drain, pid, config, cycles, r);
    steps := steps + drain;
  }

  // ----- What the protocol guarantees -----

  /** The `k`-th of `n` iterations is exactly one cycle. */
  lemma {:induction false} CycleOfCycles(pid: Pid, t: TaskThrottleConfig, n: nat, k: nat)
    requires k < n
    ensures Cycles(pid, t, n)[5 * k .. 5 * k + 5] == CycleOps(pid, t)
  {
    if k < n - 1 {
      CycleOfCycles(pid, t, n - 1, k);
      assert Cycles(pid, t, n)[5 * k .. 5 * k + 5] == Cycles(pid, t, n - 1)[5 * k .. 5 * k + 5];
    }
  }

  /** Each position of the iterations holds the operation at the same
      position of a single cycle. */
  lemma CyclesAt(pid: Pid, t: TaskThrottleConfig, n: nat, i: nat)
    requires i < 5 * n
    ensures Cycles(pid, t, n)[i] == CycleOps(pid, t)[i % 5]
  {
    var k := i / 5;
    CycleOfCycles(pid, t, n, k);
    assert Cycles(pid, t, n)[i] == Cycles(pid, t, n)[5 * k .. 5 * k + 5][i % 5];
  }

  /** A successful session is: the seize, then `n` iterations each issuing
      interrupt, wait for the stop, throttle sleep, resume and free-run sleep
      in that order, then interrupt, wait for the stop and detach. */
  lemma SessionStructure(pid: Pid, t: TaskThrottleConfig, n: nat)
    ensures var ops := SessionOps(pid, t, n);
      && ops[0] == Seize(pid)
      && (forall k :: 0 <= k < n ==> NthCycle(ops, k) == CycleOps(pid, t))
      && ops[5 * n + 1..] == DrainOps(pid)
  {
    var ops := SessionOps(pid, t, n);
    forall k | 0 <= k < n
      ensures NthCycle(ops, k) == CycleOps(pid, t)
    {
      CycleOfCycles(pid, t, n, k);
      assert NthCycle(ops, k) == Cycles(pid, t, n)[5 * k .. 5 * k + 5];
    }
  }

  /** Each position of a session's operations, by where it falls. */
  lemma SessionAt(pid: Pid, t: TaskThrottleConfig, n: nat, i: nat)
    requires i < 5 * n + 4
    ensures var ops := SessionOps(pid, t, n);
      if i == 0 then ops[i] == Seize(pid)
      else if i <= 5 * n then ops[i] == CycleOps(pid, t)[(i - 1) % 5]
      else ops[i] == DrainOps(pid)[i - 1 - 5 * n]
  {
    if 0 < i <= 5 * n {
      CyclesAt(pid, t, n, i - 1);
    }
  }

  /** The seize is the first operation and is never issued again. */
  lemma SeizeOnlyFirst(pid: Pid, t: TaskThrottleConfig, n: nat)
    ensures SessionOps(pid, t, n)[0] == Seize(pid)
    ensures forall i :: 0 < i < |SessionOps(pid, t, n)| ==> !SessionOps(pid, t, n)[i].Seize?
  {
    forall i | 0 < i < |SessionOps(pid, t, n)|
      ensures !SessionOps(pid, t, n)[i].Seize?
    {
      SessionAt(pid, t, n, i);
    }
  }

  /** The detach is the last operation and is issued nowhere else. */
  lemma DetachOnlyLast(pid: Pid, t: TaskThrottleConfig, n: nat)
    ensures SessionOps(pid, t, n)[5 * n + 3] == Detach(pid)
    ensures forall i :: 0 <= i < 5 * n + 3 ==> !SessionOps(pid, t, n)[i].Detach?
  {
    forall i | 0 <= i < 5 * n + 3
      ensures !SessionOps(pid, t, n)[i].Detach?
    {
      SessionAt(pid, t, n, i);
    }
    SessionAt(pid, t, n, 5 * n + 3);
  }

  /** Within the iterations, a resume comes right after interrupt, wait
      for the stop and throttle sleep, and right before the free-run sleep. */
  lemma {:induction false} CyclesResumeGuarded(pid: Pid, t: TaskThrottleConfig, n: nat, j: nat)
    requires j < 5 * n && Cycles(pid, t, n)[j].Cont?
    ensures 3 <= j < 5 * n - 1
    ensures Cycles(pid, t, n)[j - 3] == Interrupt(pid)
    ensures Cycles(pid, t, n)[j - 2] == WaitStopped(pid)
    ensures Cycles(pid, t, n)[j - 1] == Sleep(t.throttleDuration.AsNanos())
    ensures Cycles(pid, t, n)[j + 1] == Sleep(t.freeRunDuration.AsNanos())
  {
    var a := Cycles(pid, t, n - 1);
    var b := CycleOps(pid, t);
    var c := Cycles(pid, t, n);
    assert c == a + b;
    if j < |a| {
      assert a[j] == c[j];
      CyclesResumeGuarded(pid, t, n - 1, j);
      assert c[j - 3] == a[j - 3] && c[j - 2] == a[j - 2] && c[j - 1] == a[j - 1] && c[j + 1] == a[j + 1];
    } else {
      assert c[j] == b[j - |a|];
      assert j - |a| == 3;
    }
  }

  /** Every resume comes right after the throttle sleep, which comes right
      after the acknowledged stop, which comes right after the interrupt; the
      free-run sleep comes right after the resume. */
  lemma ResumeAfterAcknowledgedStop(pid: Pid, t: TaskThrottleConfig, n: nat)
    ensures var ops := SessionOps(pid, t, n);
      forall i :: 0 <= i < |ops| && ops[i].Cont? ==>
        && 4 <= i < |ops| - 1
        && ops[i - 3] == Interrupt(pid)
        && ops[i - 2] == WaitStopped(pid)
        && ops[i - 1] == Sleep(t.throttleDuration.AsNanos())
        && ops[i + 1] == Sleep(t.freeRunDuration.AsNanos())
  {
    var ops := SessionOps(pid, t, n);
    var c := Cycles(pid, t, n);
    assert ops == [Seize(pid)] + c + DrainOps(pid);
    forall i | 0 <= i < |ops| && ops[i].Cont?
      ensures 4 <= i < |ops| - 1
      ensures ops[i - 3] == Interrupt(pid) && ops[i - 2] == WaitStopped(pid)
      ensures ops[i - 1] == Sleep(t.throttleDuration.AsNanos())
      ensures ops[i + 1] == Sleep(t.freeRunDuration.AsNanos())
    {
      assert 1 <= i <= |c|;
      var j := i - 1;
      assert ops[i] == c[j];
      CyclesResumeGuarded(pid, t, n, j);
      assert ops[i - 3] == c[j - 3] && ops[i - 2] == c[j - 2] && ops[i - 1] == c[j - 1] && ops[i + 1] == c[j + 1];
    }
  }

  /** In the trace of a session, whatever its outcome, every resume was
      issued only after the interrupt and the wait for the stop had both
      succeeded and the throttle sleep had been taken: the task is never
      resumed before it was acknowledged stopped. */
  lemma ResumeOnlyAfterStopInTrace(s: seq<Step>, pid: Pid, t: TaskThrottleConfig, n: nat, r: Outcome, i: nat)
    requires Follows(s, SessionOps(pid, t, n), r)
    requires i < |s| && s[i].op.Cont?
    ensures 4 <= i
    ensures s[i - 3] == Step(Interrupt(pid), true)
    ensures s[i - 2] == Step(WaitStopped(pid), true)
    ensures s[i - 1] == Step(Sleep(t.throttleDuration.AsNanos()), true)
  {
    var ops := SessionOps(pid, t, n);
    assert Ops(s)[i] == s[i].op;
    assert ops[..|s|][i] == ops[i];
    ResumeAfterAcknowledgedStop(pid, t, n);
    forall k | i - 3 <= k < i
      ensures s[k].op == ops[k] && s[k].ok
    {
      assert Ops(s)[k] == s[k].op;
      assert ops[..|s|][k] == ops[k];
      if r.Err? {
        assert s[..|s| - 1][k] == s[k];
      }
    }
  }

  /** A session that returns `Ok` issued the whole protocol, every call
      succeeding: it began with the seize and ended with interrupt, wait for
      the stop and detach, so `Ok` comes only after a successful detach. */
  lemma SuccessEndsDetached(s: seq<Step>, pid: Pid, t: TaskThrottleConfig, n: nat)
    requires Follows(s, SessionOps(pid, t, n), Ok)
    ensures |s| == 5 * n + 4
    ensures s[0] == Step(Seize(pid), true)
    ensures s[|s| - 3..] == [Step(Interrupt(pid), true), Step(WaitStopped(pid), true), Step(Detach(pid), true)]
  {
    var ops := SessionOps(pid, t, n);
    assert forall i :: 0 <= i < |s| ==> s[i] == Step(ops[i], true) by {
      forall i | 0 <= i < |s| ensures s[i] == Step(ops[i], true) {
        assert Ops(s)[i] == s[i].op;
      }
    }
  }

  /** A failed seize is the only operation of its session. */
  lemma FailedSeizeIssuesNothingElse(s: seq<Step>, pid: Pid, t: TaskThrottleConfig, n: nat)
    requires Follows(s, SessionOps(pid, t, n), Err(Seize(pid)))
    ensures s == [Step(Seize(pid), false)]
  {
    SeizeOnlyFirst(pid, t, n);
    var last := |s| - 1;
    assert Ops(s)[last] == Seize(pid);
    assert SessionOps(pid, t, n)[..|s|][last] == SessionOps(pid, t, n)[last];
  }

  /** A session that failed anywhere but at the detach itself never
      detached: the task is left attached. */
  lemma FailureLeavesNoDetach(s: seq<Step>, pid: Pid, t: TaskThrottleConfig, n: nat, op: Op)
    requires Follows(s, SessionOps(pid, t, n), Err(op)) && !op.Detach?
    ensures forall i :: 0 <= i < |s| ==> !s[i].op.Detach?
  {
    DetachOnlyLast(pid, t, n);
    var ops := SessionOps(pid, t, n);
    assert Ops(s)[|s| - 1] == op;
    forall i | 0 <= i < |s|
      ensures !s[i].op.Detach?
    {
      assert Ops(s)[i] == s[i].op && ops[..|s|][i] == ops[i];
    }
  }
}
