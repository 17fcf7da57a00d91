# Time-framed operation scheduler of a MongoDB fake-workload generator

The program resets a MongoDB database, then runs for a fixed time (three hours)
and issues load against it. Time is cut into frames of five minutes. Each loop
pass works out the current frame from the clock, `(now - start_time) //
TIME_FRAME_DURATION`. It picks one operation of the fixed rotation
`[insert_messages, update_messages, read_messages, delete_messages]` by
`frame_nb % 4`. Every eighth frame (`RESET_DB_EVERY_X_FRAMES`) it resets the
database once before that operation. A set `frames`, seeded with 0 for the
startup reset, makes sure each frame is reset at most once.

This project models that scheduler in Dafny:

- `settings.dfy` (module `Settings`): the rotation and the constants. `Config`
  holds the cadence, the frame duration and the run duration. `Source` is the
  configuration the program runs with: `DEBUG` is off, which gives 8, 300 and
  10800.
- `frame_clock.dfy` (module `FrameClock`): frame number, action index, the
  reset-due test, and their properties. Python's `//` and `%` floor. With the
  positive divisors used here, Dafny's `/` and `%` give the same results, also
  for negative operands.
- `scheduler.dfy` (module `Scheduler`): the loop as a specification (`Body`,
  `Loop`, `Run`) and as the imperative method `RunWorkload`. That method keeps
  `frames` as a local set, as the program does. It drives a `Database` object
  through opaque calls `Init` and `Perform`. The database keeps a ghost
  `history` of those calls. `RunWorkload` is proved to produce exactly the
  history and visited frames that `Run` specifies.
- `scheduler_lemmas.dfy` (module `SchedulerLemmas`): what any run guarantees.

The clock is an input. Each loop pass reads `int(time())` twice: once for the
loop test (main.py:226) and once for the frame (main.py:227-228). The model
takes a finite sequence of `Tick(guard, work)` pairs, one per pass. The loop
ends at the first guard reading at or past the stop time. The work reading of
that last tick is never used. The model's loop also ends when the ticks run
out; `RunWorkload` then reports `stopped == false`. The readings need not be
increasing. Properties that need a clock that does not step back take that as
a precondition. `ExampleClockStepsBack` shows what the program does when the
clock does step back: it resets the database for frame -8.

The startup `init()` is recorded as `Reset(0)`. This is the reset the seed 0 in
`frames` stands for, so "each frame is reset at most once" covers frame 0 too.

The program has no configuration checks and no error handling. It does not
reject a non-positive duration or an empty rotation. An exception from `init()`
or from an operation ends the process. The model follows the program: it has
no configuration-error result and no error recovery. `Config.Valid()` asks for a
positive frame duration and cadence, as the program's constants are. With a
positive divisor, Dafny's `/` and `%` agree with Python's `//` and `%`.

## Model

| member | source | states |
|---|---|---|
| Settings.SourceConfig | main.py:9-22 | With DEBUG off the cadence is 8 frames, frames last 300 s and the run 10800 s; the rotation has 4 operations and 8 is a multiple of 4 |
| FrameClock.FrameNumber | main.py:227-229 | The frame is the floor of the elapsed time over the frame duration: `duration * frame <= now - start < duration * (frame + 1)`; it is non-negative once `now >= start` |
| FrameClock.FrameNumberMonotone | main.py:227-229 | A later clock reading never gives an earlier frame |
| FrameClock.ActionIndex | main.py:230 | The action index is a valid rotation index in `[0, n)` and congruent to the frame modulo `n`, also for negative frames |
| FrameClock.OperationAt | main.py:230-234 | `operations[action_nb]`; no contract of its own: `RotationOrder` and `ResetFrameSelectsInsert` state which operation each frame selects |
| FrameClock.RotationOrder | main.py:222-235 | The operation repeats every 4 frames, and frames 0..5 run insert, update, read, delete, insert, update |
| FrameClock.ResetFrameSelectsInsert | main.py:230-234 | When the cadence is a multiple of the rotation length, every frame that is a multiple of the cadence selects `insert_messages` |
| FrameClock.ResetDue | main.py:231 | The reset test (a cadence multiple not yet visited); no contract of its own: `BodyFrames`, `LoopFrames` and `RunResetsOncePerFrame` state its effect, at most one reset per frame |
| FrameClock.SourceFrameRange | main.py:220-229 | With the program's constants a reading in `[start, stop)` falls in frames 0..35, and a reading exactly at `stop` falls in frame 36 |
| FrameClock.SourceResetFrames | main.py:226-231 | With the program's constants, a reading from `start` to `stop` whose frame follows the cadence is in frame 0, 8, 16, 24 or 32 |
| Scheduler.PassCount | main.py:226 | The loop makes as many passes as there are ticks before the first guard reading at or past `stop`; all earlier guards are below `stop` |
| Scheduler.Startup | main.py:219-225 | The state before the loop, visited frames `{0}` and the startup reset; a constant, whose properties `StartupConsistent` states |
| Scheduler.Body | main.py:227-235 | One loop pass; no contract of its own: `BodyFrames`, `BodyConsistent` and `BodyOps` state what a pass does |
| Scheduler.Loop | main.py:226-235 | Running the loop only adds to the visited frames and only extends the trace |
| Scheduler.Run | main.py:219-235 | A run is the startup state followed by the loop: frame 0 is always visited and the startup reset is the first event; the `Run*` lemmas state the rest |
| Scheduler.Database.Init | main.py:210-215 | A reset appends one `Reset` event to the database's history and changes nothing else |
| Scheduler.Database.Perform | main.py:234-235 | An operation call appends one `Invoke` event to the history and changes nothing else |
| Scheduler.RunWorkload | main.py:218-235 | The main block: after it, the database history is the old one plus the trace `Run` specifies, and `frames` is `Run`'s visited set; it stops early exactly when some guard reading reaches the stop time |
| SchedulerLemmas.StartupConsistent | main.py:219-225 | The state before the loop, with the startup reset and `frames == {0}`, satisfies the scheduler invariant |
| SchedulerLemmas.BodyFrames | main.py:231-233 | A pass adds at most its own frame to the visited set, adds it exactly when a reset is due, and only extends the trace |
| SchedulerLemmas.BodyConsistent | main.py:229-235 | One pass keeps the invariant: exactly one reset per visited frame and none for other frames, visited frames other than 0 follow the cadence, and each reset is followed at once by its frame's operation |
| SchedulerLemmas.LoopConsistent | main.py:226-235 | Any number of passes keeps that invariant |
| SchedulerLemmas.RunResetsOncePerFrame | main.py:219-233 | Over a run, every visited frame has exactly one reset and every other frame none; frame 0 is reset only by the startup reset, which comes first |
| SchedulerLemmas.RunResetPrecedesOperation | main.py:231-235 | Every in-loop reset is immediately followed by its frame's operation; with a cadence that is a multiple of 4 that operation is `insert_messages` |
| SchedulerLemmas.BodyOps | main.py:229-235 | One pass adds exactly one operation, `operations[frame_nb % 4]` for the frame of its work reading, and at most one reset before it |
| SchedulerLemmas.LoopOnePerPass | main.py:226-235 | The loop's operations are, in pass order, exactly the operation each pass's frame selects, one per pass; each pass adds at most two events |
| SchedulerLemmas.RunOnePerPass | main.py:218-235 | A run's operations are, in pass order, `operations[frame_nb % 4]` for each pass's work reading, so their number is the number of passes; besides them there is at most one reset per pass after the startup one |
| SchedulerLemmas.LoopFrames | main.py:226-233 | A frame is visited after the loop if and only if it was visited before, or it follows the cadence and some pass computed it |
| SchedulerLemmas.RunFrames | main.py:224-233 | A run's visited frames are exactly 0 and the cadence frames some pass computed; such a frame is reset exactly once, however many passes compute it |
| SchedulerLemmas.RunFramesPositive | main.py:220-233 | If no pass's work reading is before the start reading, every visited frame other than 0 is a positive multiple of the cadence |
| SchedulerLemmas.SourceRunFrames | main.py:218-233 | With the program's constants and work readings between start and stop, the visited frames are among 0, 8, 16, 24 and 32, and so is every frame the trace holds a reset for: the in-loop resets fall only at 8, 16, 24 and 32 |
| SchedulerLemmas.ExampleResetCadence | main.py:224-235 | With 5 s frames and cadence 8, frame 0 is not reset again, frame 8 is reset once although two passes see it, and frame 16 is reset |
| SchedulerLemmas.ExampleStopTime | main.py:220-235 | With run duration 17 and 5 s frames, frames 0..3 run the four operations in order, and the guard reading at 17 ends the run before later readings |
| SchedulerLemmas.ExampleClockStepsBack | main.py:220-233 | A work reading 2400 s before the start falls in frame -8, and the loop resets the database for that frame |

## Left out

- The MongoDB calls (`drop_database`, `create_index`, `insert_many`, `update_many`, `find_one_and_update`, `find`, `aggregate`, `delete_many`) and the client set-up are foreign-library I/O. `init()` and the four operations are opaque calls that only add to the history.
- Faker and the random helpers (`fifty_fifty`, `rand_x`, `random_users`, `random_messages`) produce random, library-defined data. Only whether an operation is invoked matters to the scheduler.
- Float time is not modelled. `time()` returns a float that the program truncates with `int(...)`; the model's clock readings are already whole seconds.
- Console output is not modelled: the DEBUG timing line (and `max_size`, which only pads it) and the `ctime()` messages of `init()`.
- Exceptions are not modelled. The program does not catch them: any failure of `init()` or an operation ends the process.
- Real-time termination is not modelled: the real loop ends only because the external clock advances. The model runs over a finite sequence of readings.
- The frame number is not recorded by the real `init()`. The model's `Reset` event carries it, as a ghost argument, only to state the reset-once property.
- Zero or negative frame durations and cadences are not modelled: `Config.Valid()` asks for positive values. Python raises `ZeroDivisionError` on a zero divisor at main.py:229 and main.py:231, and accepts a negative one; the program's constants are positive.
