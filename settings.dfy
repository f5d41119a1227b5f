/** The governor's configuration: the parsed command line (`Args`), the
    run-wide configuration derived from it (`Config`) and the copy of the
    timing part handed to every per-task controller (`TaskThrottleConfig`). */
module Settings {
  import opened Time

  datatype Option<T> = None | Some(value: T)

  /** The command line after parsing. */
  datatype Args = Args(
    throttleDurationMs: u64,
    freeRunDurationMs: u64,
    totalControlDurationMs: u64,
    waitForProcess: bool,
    processName: string,
    cmdLinePattern: Option<string>)

  /** The run-wide configuration. */
  datatype Config = Config(
    throttleDuration: Duration,
    freeRunDuration: Duration,
    controlDuration: Duration,
    waitForProcess: bool,
    processName: string,
    cmdLinePattern: Option<string>)

  /** What one controller needs: time held stopped per cycle, time left
      running per cycle, and the length of the whole control session. */
  datatype TaskThrottleConfig = TaskThrottleConfig(
    throttleDuration: Duration,
    freeRunDuration: Duration,
    controlDuration: Duration)

  /** `Into<Config> for Args`: every millisecond count becomes the duration of
      exactly that many milliseconds; the other settings are carried over. */
  function IntoConfig(args: Args): (c: Config)
    ensures c.throttleDuration.Valid() && c.throttleDuration.AsNanos() == args.throttleDurationMs as nat * NanosPerMilli
    ensures c.throttleDuration.AsMillis() == args.throttleDurationMs as nat
    ensures c.freeRunDuration.Valid() && c.freeRunDuration.AsNanos() == args.freeRunDurationMs as nat * NanosPerMilli
    ensures c.freeRunDuration.AsMillis() == args.freeRunDurationMs as nat
    ensures c.controlDuration.Valid() && c.controlDuration.AsNanos() == args.totalControlDurationMs as nat * NanosPerMilli
    ensures c.controlDuration.AsMillis() == args.totalControlDurationMs as nat
    ensures c.waitForProcess == args.waitForProcess
    ensures c.processName == args.processName && c.cmdLinePattern == args.cmdLinePattern
  {
    Config(
      FromMillis(args.throttleDurationMs),
      FromMillis(args.freeRunDurationMs),
      FromMillis(args.totalControlDurationMs),
      args.waitForProcess,
      args.processName,
      args.cmdLinePattern)
  }

  /** `TaskThrottleConfig::from`: the timing part of a configuration. */
  function ThrottleConfigOf(c: Config): TaskThrottleConfig {
    TaskThrottleConfig(c.throttleDuration, c.freeRunDuration, c.controlDuration)
  }

  /** The configuration every controller receives holds, in nanoseconds,
      exactly the millisecond counts given on the command line. */
  lemma ControllerTimingFromArgs(args: Args)
    ensures var t := ThrottleConfigOf(IntoConfig(args));
      && t.throttleDuration.AsNanos() == args.throttleDurationMs as nat * NanosPerMilli
      && t.freeRunDuration.AsNanos() == args.freeRunDurationMs as nat * NanosPerMilli
      && t.controlDuration.AsNanos() == args.totalControlDurationMs as nat * NanosPerMilli
  {
  }
}
