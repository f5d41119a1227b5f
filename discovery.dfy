/** Finding the target process and handing its tasks to controllers (`main`
    and `add_trace`). A scan of the process table is a sequence of process
    records; starting a controller thread is recorded as a `Spawn`. */
module Discovery {
  import opened Settings
  import opened Control

  /** What the process table reports about one process. `tasks` is `None`
      when the platform gives no task list. */
  datatype Process = Process(pid: Pid, name: string, cmd: seq<string>, tasks: Option<seq<Pid>>)

  /** One controller thread started by `add_trace`: the task it controls and
      its copy of the timing configuration. */
  datatype Spawn = Spawn(pid: Pid, config: TaskThrottleConfig)

  // ----- Substring matching (`str::contains`) -----

  /** `pat` occurs in `s` starting at index `i`. */
  predicate OccursAt(pat: string, s: string, i: int) {
    0 <= i && i + |pat| <= |s| && s[i..i + |pat|] == pat
  }

  /** `s.contains(pat)`: case-sensitive literal substring search. */
  function Contains(s: string, pat: string): (r: bool)
    ensures r <==> exists i :: OccursAt(pat, s, i)
    decreases |s|
  {
    if |pat| <= |s| && s[..|pat|] == pat then
      assert OccursAt(pat, s, 0);
      true
    else if |s| == 0 then
      false
    else
      var r := Contains(s[1..], pat);
      assert forall i :: OccursAt(pat, s[1..], i) <==> OccursAt(pat, s, i + 1) by {
        forall i ensures OccursAt(pat, s[1..], i) <==> OccursAt(pat, s, i + 1) {
          if 0 <= i && i + |pat| <= |s| - 1 {
            assert s[1..][i..i + |pat|] == s[i + 1..i + 1 + |pat|];
          }
        }
      }
      assert r ==> exists i :: OccursAt(pat, s, i) by {
        if r {
          var i :| OccursAt(pat, s[1..], i);
          assert OccursAt(pat, s, i + 1);
        }
      }
      assert (exists i :: OccursAt(pat, s, i)) ==> r by {
        if exists i :: OccursAt(pat, s, i) {
          var i :| OccursAt(pat, s, i);
          assert i != 0;
          assert OccursAt(pat, s[1..], i - 1);
        }
      }
      r
  }

  /** `cmd.iter().any(|arg| arg.contains(pat))`. */
  function AnyContains(cmd: seq<string>, pat: string): (r: bool)
    ensures r <==> exists j :: 0 <= j < |cmd| && Contains(cmd[j], pat)
  {
    if cmd == [] then false
    else
      assert forall j :: 0 <= j < |cmd| - 1 ==> cmd[1..][j] == cmd[j + 1];
      Contains(cmd[0], pat) || AnyContains(cmd[1..], pat)
  }

  // ----- Matching -----

  /** The filter of the discovery loop: the name must equal the target
      exactly, and, when a command-line pattern is set, some argument must
      contain it. */
  function Accepts(config: Config, p: Process): bool {
    if p.name != config.processName then false
    else
      match config.cmdLinePattern
      case None => true
      case Some(pat) => AnyContains(p.cmd, pat)
  }

  /** A process is accepted exactly when its name equals the target and,
      if a pattern is set, the pattern occurs in one of its arguments. */
  lemma AcceptsExactly(config: Config, p: Process)
    ensures Accepts(config, p) <==>
      && p.name == config.processName
      && (config.cmdLinePattern.Some? ==>
            exists j, i :: 0 <= j < |p.cmd| && OccursAt(config.cmdLinePattern.value, p.cmd[j], i))
  {
  }

  /** The process table's own lookup by name (`processes_by_name`), which
      keeps, in order, every process whose name contains `name`. */
  function ProcessesByName(procs: seq<Process>, name: string): seq<Process> {
    if procs == [] then []
    else
      var rest := ProcessesByName(procs[..|procs| - 1], name);
      var p := procs[|procs| - 1];
      if Contains(p.name, name) then rest + [p] else rest
  }

  /** The lookup keeps exactly the processes whose name contains `name`. */
  lemma {:induction false} ProcessesByNameMembers(procs: seq<Process>, name: string)
    ensures forall p :: p in ProcessesByName(procs, name) <==> p in procs && Contains(p.name, name)
  {
    if procs != [] {
      var init := procs[..|procs| - 1];
      ProcessesByNameMembers(init, name);
      assert procs == init + [procs[|procs| - 1]];
    }
  }

  /** A process whose name merely contains the target is returned by the
      lookup and then rejected by the exact-name check. */
  lemma ContainingNameRejected(config: Config, procs: seq<Process>, p: Process)
    requires p in procs && p.name != config.processName
    requires Contains(p.name, config.processName)
    ensures p in ProcessesByName(procs, config.processName)
    ensures !Accepts(config, p)
  {
    ProcessesByNameMembers(procs, config.processName);
  }

  // ----- Dispatch -----

  /** The controllers one accepted process yields: one per task, in the
      order of the task list, then one for the process itself; none when
      there is no task list. */
  function ProcessSpawns(config: Config, p: Process): seq<Spawn> {
    if Accepts(config, p) && p.tasks.Some? then
      TaskSpawns(p.tasks.value, ThrottleConfigOf(config)) + [Spawn(p.pid, ThrottleConfigOf(config))]
    else
      []
  }

  function TaskSpawns(tasks: seq<Pid>, t: TaskThrottleConfig): (r: seq<Spawn>)
    ensures |r| == |tasks|
  {
    if tasks == [] then [] else TaskSpawns(tasks[..|tasks| - 1], t) + [Spawn(tasks[|tasks| - 1], t)]
  }

  /** The controllers one scan yields, process by process. */
  function RoundSpawns(config: Config, procs: seq<Process>): seq<Spawn> {
    if procs == [] then []
    else RoundSpawns(config, procs[..|procs| - 1]) + ProcessSpawns(config, procs[|procs| - 1])
  }

  /** Whether one scan sets `done`: some process passes the filter. */
  predicate AnyAccepted(config: Config, procs: seq<Process>) {
    exists k :: 0 <= k < |procs| && Accepts(config, procs[k])
  }

  function Pids(spawns: seq<Spawn>): (r: seq<Pid>)
    ensures |r| == |spawns|
  {
    seq(|spawns|, i requires 0 <= i < |spawns| => spawns[i].pid)
  }

  /** The tasks are controlled in the order of the list, each once. */
  lemma {:induction false} TaskSpawnsInOrder(tasks: seq<Pid>, t: TaskThrottleConfig)
    ensures Pids(TaskSpawns(tasks, t)) == tasks
    ensures forall i :: 0 <= i < |tasks| ==> TaskSpawns(tasks, t)[i].config == t
  {
    if tasks != [] {
      var init := tasks[..|tasks| - 1];
      TaskSpawnsInOrder(init, t);
      assert Pids(TaskSpawns(tasks, t)) == Pids(TaskSpawns(init, t)) + [tasks[|tasks| - 1]];
      assert tasks == init + [tasks[|tasks| - 1]];
    }
  }

  /** An accepted process with task list `ts` yields controllers for `ts`
      in order, then for its own pid; all carry the run's timing. */
  lemma AcceptedProcessSpawns(config: Config, p: Process)
    requires Accepts(config, p) && p.tasks.Some?
    ensures Pids(ProcessSpawns(config, p)) == p.tasks.value + [p.pid]
    ensures forall s :: s in ProcessSpawns(config, p) ==> s.config == ThrottleConfigOf(config)
  {
    var t := ThrottleConfigOf(config);
    TaskSpawnsInOrder(p.tasks.value, t);
    assert Pids(ProcessSpawns(config, p)) == Pids(TaskSpawns(p.tasks.value, t)) + [p.pid];
  }

  /** A scan where nothing passes the filter starts no controller. */
  lemma {:induction false} NoMatchNoSpawn(config: Config, procs: seq<Process>)
    requires !AnyAccepted(config, procs)
    ensures RoundSpawns(config, procs) == []
  {
    if procs != [] {
      var init := procs[..|procs| - 1];
      assert !AnyAccepted(config, init) by {
        forall k | 0 <= k < |init| ensures !Accepts(config, init[k]) {
          assert init[k] == procs[k];
        }
      }
      NoMatchNoSpawn(config, init);
      assert !Accepts(config, procs[|procs| - 1]);
    }
  }

  /** A scan in which exactly one process passes the filter starts exactly
      that process's controllers. */
  lemma {:induction false} SingleMatchSpawns(config: Config, procs: seq<Process>, k: nat)
    requires k < |procs| && Accepts(config, procs[k])
    requires forall j :: 0 <= j < |procs| && j != k ==> !Accepts(config, procs[j])
    ensures RoundSpawns(config, procs) == ProcessSpawns(config, procs[k])
  {
    var init := procs[..|procs| - 1];
    if k == |procs| - 1 {
      assert !AnyAccepted(config, init) by {
        forall j | 0 <= j < |init| ensures !Accepts(config, init[j]) {
          assert init[j] == procs[j];
        }
      }
      NoMatchNoSpawn(config, init);
    } else {
      SingleMatchSpawns(config, init, k);
    }
  }

  /** Every controller started by a scan is for an accepted process that has
      a task list: for one of its tasks or for the process itself. */
  lemma {:induction false} SpawnsComeFromAccepted(config: Config, procs: seq<Process>)
    ensures forall s :: s in RoundSpawns(config, procs) ==>
      && s.config == ThrottleConfigOf(config)
      && exists p :: p in procs && Accepts(config, p) && p.tasks.Some? &&
           (s.pid == p.pid || s.pid in p.tasks.value)
  {
    if procs != [] {
      var init := procs[..|procs| - 1];
      var p := procs[|procs| - 1];
      SpawnsComeFromAccepted(config, init);
      forall s | s in ProcessSpawns(config, p)
        ensures s.config == ThrottleConfigOf(config)
        ensures Accepts(config, p) && p.tasks.Some? && (s.pid == p.pid || s.pid in p.tasks.value)
      {
        AcceptedProcessSpawns(config, p);
        var i :| 0 <= i < |ProcessSpawns(config, p)| && ProcessSpawns(config, p)[i] == s;
        assert Pids(ProcessSpawns(config, p))[i] == s.pid;
      }
      forall q | q in init ensures q in procs { }
    }
  }

  /** Every accepted process with a task list has a controller for each of
      its tasks and one for itself. */
  lemma {:induction false} AcceptedAreControlled(config: Config, procs: seq<Process>)
    ensures forall p :: p in procs && Accepts(config, p) && p.tasks.Some? ==>
      && p.pid in Pids(RoundSpawns(config, procs))
      && forall x :: x in p.tasks.value ==> x in Pids(RoundSpawns(config, procs))
  {
    if procs != [] {
      var init := procs[..|procs| - 1];
      var last := procs[|procs| - 1];
      AcceptedAreControlled(config, init);
      var before := RoundSpawns(config, init);
      var all := RoundSpawns(config, procs);
      assert Pids(all) == Pids(before) + Pids(ProcessSpawns(config, last));
      forall p | p in procs && Accepts(config, p) && p.tasks.Some?
        ensures p.pid in Pids(all) && forall x :: x in p.tasks.value ==> x in Pids(all)
      {
        if p == last {
          AcceptedProcessSpawns(config, p);
        } else {
          assert p in init;
        }
      }
    }
  }

  /** Looking processes up by name first changes nothing: every process the
      lookup drops would have been rejected by the exact-name check. */
  lemma {:induction false} LookupKeepsSpawns(config: Config, procs: seq<Process>)
    ensures RoundSpawns(config, ProcessesByName(procs, config.processName)) == RoundSpawns(config, procs)
    ensures AnyAccepted(config, ProcessesByName(procs, config.processName)) == AnyAccepted(config, procs)
  {
    var name := config.processName;
    if procs != [] {
      var init := procs[..|procs| - 1];
      var p := procs[|procs| - 1];
      LookupKeepsSpawns(config, init);
      var rest := ProcessesByName(init, name);
      assert OccursAt(name, name, 0);
      if Contains(p.name, name) {
        assert ProcessesByName(procs, name) == rest + [p];
        assert (rest + [p])[..|rest|] == rest;
      } else {
        assert !Accepts(config, p);
      }
      AnyAcceptedSnoc(config, init, p);
      AnyAcceptedSnoc(config, rest, p);
    }
  }

  lemma RoundSpawnsSnoc(config: Config, procs: seq<Process>, p: Process)
    ensures RoundSpawns(config, procs + [p]) == RoundSpawns(config, procs) + ProcessSpawns(config, p)
  {
    assert (procs + [p])[..|procs|] == procs;
  }

  lemma AnyAcceptedSnoc(config: Config, procs: seq<Process>, p: Process)
    ensures AnyAccepted(config, procs + [p]) == (AnyAccepted(config, procs) || Accepts(config, p))
  {
    var all := procs + [p];
    if AnyAccepted(config, procs) {
      var k :| 0 <= k < |procs| && Accepts(config, procs[k]);
      assert all[k] == procs[k];
    }
    if AnyAccepted(config, all) {
      var k :| 0 <= k < |all| && Accepts(config, all[k]);
      if k < |procs| { assert all[k] == procs[k]; }
    }
    assert Accepts(config, p) ==> Accepts(config, all[|procs|]);
  }

  // ----- The driver -----

  /** The `threads` vector of `main`, with one entry per started controller. */
  class Driver {
    var threads: seq<Spawn>

    constructor ()
      ensures threads == []
    {
      threads := [];
    }

    /** `add_trace`: start one controller thread. */
    method AddTrace(pid: Pid, config: TaskThrottleConfig)
      modifies this
      ensures threads == old(threads) + [Spawn(pid, config)]
    {
      threads := threads + [Spawn(pid, config)];
    }

    /** `tasks.iter().for_each(|pid| add_trace(pid, ..))`: one controller
      per task, in the order of the list. */
    method AddTraces(tasks: seq<Pid>, t: TaskThrottleConfig)
      modifies this
      ensures threads == old(threads) + TaskSpawns(tasks, t)
    {
      var j := 0;
      while j < |tasks|
        invariant 0 <= j <= |tasks|
        invariant threads == old(threads) + TaskSpawns(tasks[..j], t)
      {
        assert tasks[..j + 1][..j] == tasks[..j];
        AddTrace(tasks[j], t);
        j := j + 1;
      }
      assert tasks[..|tasks|] == tasks;
    }

    /** The body of the `for` loop for one process: skip it unless it
      passes the filter; otherwise report it found and, when it has a task
      list, start one controller per task and then one for its pid. */
    method Visit(config: Config, p: Process) returns (accepted: bool)
      modifies this
      ensures threads == old(threads) + ProcessSpawns(config, p)
      ensures accepted == Accepts(config, p)
    {
      accepted := Accepts(config, p);
      if accepted && p.tasks.Some? {
        var t := ThrottleConfigOf(config);
        AddTraces(p.tasks.value, t);
        AddTrace(p.pid, t);
      }
    }

    /** The `for` loop over the processes the lookup returned: the
      controllers of every accepted process are started, and `found` tells
      whether any process passed the filter. */
    method ScanRound(config: Config, candidates: seq<Process>) returns (found: bool)
      modifies this
      ensures threads == old(threads) + RoundSpawns(config, candidates)
      ensures found == AnyAccepted(config, candidates)
    {
      found := false;
      var i := 0;
      while i < |candidates|
        invariant 0 <= i <= |candidates|
        invariant threads == old(threads) + RoundSpawns(config, candidates[..i])
        invariant found == AnyAccepted(config, candidates[..i])
      {
        var p := candidates[i];
        var prefix := candidates[..i];
        assert candidates[..i + 1] == prefix + [p];
        AnyAcceptedSnoc(config, prefix, p);
        RoundSpawnsSnoc(config, prefix, p);
        var accepted := Visit(config, p);
        if accepted {
          found := true;
        }
        i := i + 1;
      }
      assert candidates[..|candidates|] == candidates;
    }

    /** The `while !done` loop of `main` over successive snapshots of the
      process table: it stops after the first scan that finds the target,
      after the first scan at all when not waiting for the process, or
      when the snapshots run out. */
    method Poll(config: Config, snapshots: seq<seq<Process>>) returns (rounds: nat, found: bool)
      requires |snapshots| > 0
      modifies this
      ensures 0 < rounds <= |snapshots|
      ensures threads == old(threads) + RoundSpawns(config, snapshots[rounds - 1])
      ensures found == AnyAccepted(config, snapshots[rounds - 1])
      ensures forall k :: 0 <= k < rounds - 1 ==> !AnyAccepted(config, snapshots[k])
      ensures !config.waitForProcess ==> rounds == 1
      ensures config.waitForProcess && rounds < |snapshots| ==> found
    {
      var done := false;
      rounds := 0;
      found := false;
      while !done && rounds < |snapshots|
        invariant 0 <= rounds <= |snapshots|
        invariant rounds == 0 ==> !done && threads == old(threads)
        invariant rounds > 0 ==>
          && found == AnyAccepted(config, snapshots[rounds - 1])
          && threads == old(threads) + RoundSpawns(config, snapshots[rounds - 1])
          && done == (found || !config.waitForProcess)
        invariant forall k :: 0 <= k < rounds - 1 ==> !AnyAccepted(config, snapshots[k])
        invariant !config.waitForProcess ==> rounds <= 1
      {
        if rounds > 0 {
          NoMatchNoSpawn(config, snapshots[rounds - 1]);
        }
        var candidates := ProcessesByName(snapshots[rounds], config.processName);
        LookupKeepsSpawns(config, snapshots[rounds]);
        found := ScanRound(config, candidates);
        if found {
          done := true;
        }
        rounds := rounds + 1;
        if !config.waitForProcess {
          done := true;
        }
      }
    }
  }

  /** `main` up to the joins: convert the arguments, poll the process table
      and start the controllers. Returns the controllers started and the
      number of scans made. */
  method Govern(args: Args, snapshots: seq<seq<Process>>) returns (spawned: seq<Spawn>, rounds: nat)
    requires |snapshots| > 0
    ensures 0 < rounds <= |snapshots|
    ensures spawned == RoundSpawns(IntoConfig(args), snapshots[rounds - 1])
    ensures forall k :: 0 <= k < rounds - 1 ==> !AnyAccepted(IntoConfig(args), snapshots[k])
    ensures !args.waitForProcess ==> rounds == 1
    ensures args.waitForProcess && rounds < |snapshots| ==> AnyAccepted(IntoConfig(args), snapshots[rounds - 1])
  {
    var config := IntoConfig(args);
    var driver := new Driver();
    var found;
    rounds, found := driver.Poll(config, snapshots);
    spawned := driver.threads;
  }
}
