// Configuration surface of the workload generator: the reset cadence, the
// frame and run durations, and the fixed rotation of operations.

module Settings {

  /** The four load-generating operations, in rotation order. */
  datatype Operation = InsertMessages | UpdateMessages | ReadMessages | DeleteMessages

  /** The rotation `operations` of the scheduler. */
  const Operations: seq<Operation> := [InsertMessages, UpdateMessages, ReadMessages, DeleteMessages]

  /** Scheduler parameters; all durations are in whole seconds. */
  datatype Config = Config(resetDbEveryXFrames: int, timeFrameDuration: int, totalDuration: int)
  {
    /** The source divides by the frame duration and takes frames modulo the
        cadence; both of its constants are positive. */
    predicate Valid()
    {
      resetDbEveryXFrames > 0 && timeFrameDuration > 0
    }
  }

  const ResetDbEveryXFrames: int := 8
  const Debug: bool := false
  const TimeFrameDuration: int := if Debug then 5 else 5 * 60
  const TotalDuration: int := if Debug then 5 * 60 else 3 * 60 * 60

  /** The configuration the program runs with. */
  const Source: Config := Config(ResetDbEveryXFrames, TimeFrameDuration, TotalDuration)

  /** With DEBUG off the program runs for three hours in five-minute frames,
      resetting every eighth frame; the rotation has four operations. */
  lemma SourceConfig()
    ensures Source.Valid()
    ensures Source == Config(8, 300, 10800)
    ensures |Operations| == 4
    ensures Source.resetDbEveryXFrames % |Operations| == 0
  {
  }
}
