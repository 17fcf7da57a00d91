// The time-framed scheduler loop: its specification as functions over a
// finite supply of clock readings, and the loop itself as a method driving
// the database through opaque calls.

module Scheduler {
  import opened Settings
  import opened FrameClock

  /** What the loop does to the database: a reset (`init()`), recorded with
      the frame it was done for, or one operation of the rotation. */
  datatype Event = Reset(frame: int) | Invoke(op: Operation)

  /** The two clock readings of one loop pass: `guard` for the loop test and
      `work` for the frame computation. When the guard ends the loop, `work`
      is never read. */
  datatype Tick = Tick(guard: int, work: int)

  /** The scheduler's state: the visited-frames set and what it has done. */
  datatype State = State(frames: set<int>, trace: seq<Event>)

  /** The state before the loop: the startup reset stands for frame 0. */
  const Startup: State := State({0}, [Reset(0)])

  /** One loop pass on the work reading `now`: a reset when one is due for
      the current frame, then the frame's operation. */
  function Body(cfg: Config, start: int, s: State, now: int): State
    requires cfg.Valid()
  {
    var frame := FrameNumber(now, start, cfg.timeFrameDuration);
    if ResetDue(frame, s.frames, cfg.resetDbEveryXFrames) then
      State(s.frames + {frame}, s.trace + [Reset(frame), Invoke(OperationAt(frame))])
    else
      State(s.frames, s.trace + [Invoke(OperationAt(frame))])
  }

  /** The loop from state `s` over the remaining readings: it stops at the
      first guard reading at or past `stop`, or when the readings run out.
      The visited frames only grow and the trace is only extended. */
  function Loop(cfg: Config, start: int, stop: int, s: State, ticks: seq<Tick>): (r: State)
    requires cfg.Valid()
    ensures s.frames <= r.frames
    ensures s.trace <= r.trace
    decreases |ticks|
  {
    if |ticks| == 0 || ticks[0].guard >= stop then s
    else Loop(cfg, start, stop, Body(cfg, start, s, ticks[0].work), ticks[1..])
  }

  /** A whole run started at clock reading `start`: the startup state, then
      the loop. Frame 0 is always visited and the startup reset comes first. */
  function Run(cfg: Config, start: int, ticks: seq<Tick>): (r: State)
    requires cfg.Valid()
    ensures 0 in r.frames
    ensures |r.trace| > 0 && r.trace[0] == Reset(0)
  {
    Loop(cfg, start, start + cfg.totalDuration, Startup, ticks)
  }

  /** The number of loop passes: the readings before the first guard at or
      past `stop`. */
  function PassCount(stop: int, ticks: seq<Tick>): (n: nat)
    ensures n <= |ticks|
    ensures forall i :: 0 <= i < n ==> ticks[i].guard < stop
    ensures n < |ticks| ==> ticks[n].guard >= stop
  {
    if |ticks| == 0 || ticks[0].guard >= stop then 0
    else 1 + PassCount(stop, ticks[1..])
  }

  /** The database as the scheduler sees it: `init()` and the operations are
      opaque calls, and the model keeps only the history of those calls. */
  class Database {
    ghost var history: seq<Event>

    constructor ()
      ensures history == []
    {
      history := [];
    }

    /** `init()`: drop, re-index and re-seed; `frame` is the frame the
        scheduler does it for and is not seen by the database. */
    method Init(ghost frame: int)
      modifies this
      ensures history == old(history) + [Reset(frame)]
    {
      history := history + [Reset(frame)];
    }

    /** One call of an operation of the rotation. */
    method Perform(op: Operation)
      modifies this
      ensures history == old(history) + [Invoke(op)]
    {
      history := history + [Invoke(op)];
    }
  }

  /** The program's main block: reset the database, take the start reading,
      seed the visited frames with 0 and run one operation per pass until a
      guard reading reaches the stop time. `stopped` is false when the
      readings run out first. */
  method RunWorkload(db: Database, cfg: Config, start: int, ticks: seq<Tick>)
    returns (frames: set<int>, stopped: bool)
    requires cfg.Valid()
    modifies db
    ensures db.history == old(db.history) + Run(cfg, start, ticks).trace
    ensures frames == Run(cfg, start, ticks).frames
    ensures stopped <==> exists i :: 0 <= i < |ticks| && ticks[i].guard >= start + cfg.totalDuration
  {
    db.Init(0);
    var stopTime := start + cfg.totalDuration;
    frames := {};
    frames := frames + {0};
    ghost var trace := [Reset(0)];
    ghost var before := old(db.history);
    var i := 0;
    assert State(frames, trace) == Startup && ticks[i..] == ticks;
    while i < |ticks| && ticks[i].guard < stopTime
      invariant 0 <= i <= |ticks|
      invariant forall j :: 0 <= j < i ==> ticks[j].guard < stopTime
      invariant db.history == before + trace
      invariant Loop(cfg, start, stopTime, State(frames, trace), ticks[i..]) == Run(cfg, start, ticks)
    {
      ghost var s := State(frames, trace);
      var now := ticks[i].work;
      ghost var next := Body(cfg, start, s, now);
      assert Loop(cfg, start, stopTime, s, ticks[i..]) == Loop(cfg, start, stopTime, next, ticks[i + 1..]) by {
        assert ticks[i..][0] == ticks[i] && ticks[i..][1..] == ticks[i + 1..];
      }
      var frameNb := FrameNumber(now, start, cfg.timeFrameDuration);
      var actionNb := ActionIndex(frameNb, |Operations|);
      if frameNb % cfg.resetDbEveryXFrames == 0 && frameNb !in frames {
        db.Init(frameNb);
        trace := trace + [Reset(frameNb)];
        frames := frames + {frameNb};
      }
      var op := Operations[actionNb];
      db.Perform(op);
      trace := trace + [Invoke(op)];
      assert State(frames, trace) == next by {
        assert op == OperationAt(frameNb);
        assert frameNb !in s.frames ==> s.trace + [Reset(frameNb)] + [Invoke(op)] == s.trace + [Reset(frameNb), Invoke(op)];
      }
      i := i + 1;
    }
    assert Loop(cfg, start, stopTime, State(frames, trace), ticks[i..]) == State(frames, trace);
    stopped := i < |ticks|;
  }
}
