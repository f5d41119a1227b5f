/** Durations as the governor uses them: Rust's `std::time::Duration`, built from
    whole milliseconds given on the command line. */
module Time {

  const NanosPerMilli: nat := 1_000_000
  const MillisPerSec: nat := 1_000
  const NanosPerSec: nat := 1_000_000_000

  /** Rust's `u64`: the width of the millisecond arguments. */
  newtype u64 = x: int | 0 <= x < 0x1_0000_0000_0000_0000

  /** A span of time: whole seconds and a sub-second part in nanoseconds. */
  datatype Duration = Duration(secs: nat, nanos: nat) {

    /** The sub-second part stays below one second, as in `std::time::Duration`. */
    predicate Valid() {
      nanos < NanosPerSec
    }

    /** The whole span in nanoseconds (`as_nanos`). */
    function AsNanos(): nat {
      secs * NanosPerSec + nanos
    }

    /** The span truncated to whole milliseconds (`as_millis`). */
    function AsMillis(): nat {
      secs * MillisPerSec + nanos / NanosPerMilli
    }
  }

  /** `Duration::from_millis`: the span of `ms` milliseconds, exactly. */
  function FromMillis(ms: u64): (d: Duration)
    ensures d.Valid()
    ensures d.AsNanos() == ms as nat * NanosPerMilli
    ensures d.AsMillis() == ms as nat
  {
    var m := ms as nat;
    var d := Duration(m / MillisPerSec, (m % MillisPerSec) * NanosPerMilli);
    assert m == (m / MillisPerSec) * MillisPerSec + m % MillisPerSec;
    d
  }
}
