/**
 * The records the time tracker reports. They belong to the tracker, not to the
 * bridge: the bridge only reads them.
 */
module Facts {
  import opened Wrappers

  /** Instants and durations in microseconds, the resolution of Python's `datetime`. */
  type Micros = int

  const MicrosPerSecond: int := 1_000_000
  const MicrosPerMinute: int := 60 * MicrosPerSecond

  /**
   * One recorded activity. `endTime` is absent while the activity still runs;
   * `delta` is the duration the tracker computed for it.
   */
  datatype Fact = Fact(
    activity: string,
    tags: seq<string>,
    description: Option<string>,
    startTime: Option<Micros>,
    endTime: Option<Micros>,
    delta: Micros)
}
