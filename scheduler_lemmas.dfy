// What a run of the scheduler guarantees: each visited frame is reset
// exactly once, a reset always comes right before its frame's operation,
// every pass runs exactly one operation, and the visited frames are exactly
// the startup frame and the cadence frames the loop observed.

module SchedulerLemmas {
  import opened Settings
  import opened FrameClock
  import opened Scheduler

  /** How many resets for `frame` the trace holds. */
  function ResetCount(trace: seq<Event>, frame: int): nat
  {
    if trace == [] then 0
    else ResetCount(trace[..|trace| - 1], frame) + (if trace[|trace| - 1] == Reset(frame) then 1 else 0)
  }

  /** The operations the trace invokes, in order. */
  function Ops(trace: seq<Event>): seq<Operation>
  {
    if trace == [] then []
    else Ops(trace[..|trace| - 1]) + (if trace[|trace| - 1].Invoke? then [trace[|trace| - 1].op] else [])
  }

  /** The operation each loop pass selects from its work reading's frame. */
  function PassOps(cfg: Config, start: int, stop: int, ticks: seq<Tick>): (ops: seq<Operation>)
    requires cfg.Valid()
    ensures |ops| == PassCount(stop, ticks)
  {
    seq(PassCount(stop, ticks), i requires 0 <= i < PassCount(stop, ticks) =>
      OperationAt(FrameNumber(ticks[i].work, start, cfg.timeFrameDuration)))
  }

  lemma ResetCountAppend(trace: seq<Event>, e: Event, frame: int)
    ensures ResetCount(trace + [e], frame) == ResetCount(trace, frame) + (if e == Reset(frame) then 1 else 0)
  {
  }

  lemma OpsAppend(trace: seq<Event>, e: Event)
    ensures Ops(trace + [e]) == Ops(trace) + (if e.Invoke? then [e.op] else [])
  {
    assert (trace + [e])[..|trace|] == trace;
  }

  /** The invariant the loop keeps: the startup reset comes first, every
      visited frame has had exactly one reset and no other frame any, the
      visited frames besides 0 follow the cadence, and every reset after the
      startup one is followed at once by its frame's operation. */
  ghost predicate Consistent(cfg: Config, s: State)
  {
    && cfg.Valid()
    && 0 in s.frames
    && |s.trace| > 0 && s.trace[0] == Reset(0)
    && (forall f :: ResetCount(s.trace, f) == if f in s.frames then 1 else 0)
    && (forall f :: f in s.frames && f != 0 ==> f % cfg.resetDbEveryXFrames == 0)
    && (forall i :: 0 < i < |s.trace| && s.trace[i].Reset? ==>
          i + 1 < |s.trace| && s.trace[i + 1] == Invoke(OperationAt(s.trace[i].frame)))
  }

  lemma StartupConsistent(cfg: Config)
    requires cfg.Valid()
    ensures Consistent(cfg, Startup)
  {
  }

  /** The only frame a pass can add to the visited set is its own, it adds
      it exactly when a reset is due, and the pass only extends the trace. */
  lemma BodyFrames(cfg: Config, start: int, s: State, now: int)
    requires cfg.Valid()
    ensures s.frames <= Body(cfg, start, s, now).frames <= s.frames + {FrameNumber(now, start, cfg.timeFrameDuration)}
    ensures Body(cfg, start, s, now).frames != s.frames <==>
      ResetDue(FrameNumber(now, start, cfg.timeFrameDuration), s.frames, cfg.resetDbEveryXFrames)
    ensures s.trace < Body(cfg, start, s, now).trace
  {
  }

  /** One pass keeps the invariant. */
  lemma BodyConsistent(cfg: Config, start: int, s: State, now: int)
    requires Consistent(cfg, s)
    ensures Consistent(cfg, Body(cfg, start, s, now))
  {
    var r := Body(cfg, start, s, now);
    var frame := FrameNumber(now, start, cfg.timeFrameDuration);
    var op := Invoke(OperationAt(frame));
    if ResetDue(frame, s.frames, cfg.resetDbEveryXFrames) {
      assert r.trace == s.trace + [Reset(frame)] + [op];
      forall f ensures ResetCount(r.trace, f) == if f in r.frames then 1 else 0 {
        ResetCountAppend(s.trace, Reset(frame), f);
        ResetCountAppend(s.trace + [Reset(frame)], op, f);
      }
      forall i | 0 < i < |r.trace| && r.trace[i].Reset?
        ensures i + 1 < |r.trace| && r.trace[i + 1] == Invoke(OperationAt(r.trace[i].frame))
      {
        if i < |s.trace| {
          assert r.trace[i] == s.trace[i];
        }
      }
    } else {
      assert r.trace == s.trace + [op];
      forall f ensures ResetCount(r.trace, f) == if f in r.frames then 1 else 0 {
        ResetCountAppend(s.trace, op, f);
      }
    }
  }

  /** The whole loop keeps the invariant. */
  lemma {:induction false} LoopConsistent(cfg: Config, start: int, stop: int, s: State, ticks: seq<Tick>)
    requires Consistent(cfg, s)
    ensures Consistent(cfg, Loop(cfg, start, stop, s, ticks))
    decreases |ticks|
  {
    if |ticks| > 0 && ticks[0].guard < stop {
      BodyConsistent(cfg, start, s, ticks[0].work);
      LoopConsistent(cfg, start, stop, Body(cfg, start, s, ticks[0].work), ticks[1..]);
    }
  }

  /** Reset at most once per frame: over a whole run, every visited frame has
      had exactly one reset and every other frame none; frame 0 is reset only
      by the startup reset, never from inside the loop. */
  lemma RunResetsOncePerFrame(cfg: Config, start: int, ticks: seq<Tick>, frame: int)
    requires cfg.Valid()
    ensures ResetCount(Run(cfg, start, ticks).trace, frame) == if frame in Run(cfg, start, ticks).frames then 1 else 0
    ensures ResetCount(Run(cfg, start, ticks).trace, 0) == 1
    ensures Run(cfg, start, ticks).trace[0] == Reset(0)
  {
    StartupConsistent(cfg);
    LoopConsistent(cfg, start, start + cfg.totalDuration, Startup, ticks);
  }

  /** Within a pass a reset comes before the operation: every reset other
      than the startup one is immediately followed by the operation of its
      frame, and, when the cadence is a multiple of the rotation length (8
      and 4 in the program), that operation is `insert_messages`. */
  lemma RunResetPrecedesOperation(cfg: Config, start: int, ticks: seq<Tick>, i: int)
    requires cfg.Valid()
    requires 0 < i < |Run(cfg, start, ticks).trace| && Run(cfg, start, ticks).trace[i].Reset?
    ensures i + 1 < |Run(cfg, start, ticks).trace|
    ensures Run(cfg, start, ticks).trace[i + 1] == Invoke(OperationAt(Run(cfg, start, ticks).trace[i].frame))
    ensures cfg.resetDbEveryXFrames % |Operations| == 0 ==> Run(cfg, start, ticks).trace[i + 1] == Invoke(InsertMessages)
  {
    var r := Run(cfg, start, ticks);
    StartupConsistent(cfg);
    LoopConsistent(cfg, start, start + cfg.totalDuration, Startup, ticks);
    var frame := r.trace[i].frame;
    assert ResetCount(r.trace, frame) >= 1 by {
      ResetCountPositive(r.trace, i);
    }
    if cfg.resetDbEveryXFrames % |Operations| == 0 {
      assert frame in r.frames;
      if frame != 0 {
        ResetFrameSelectsInsert(frame, cfg.resetDbEveryXFrames);
      }
    }
  }

  /** A trace holding a reset for a frame counts at least one for it. */
  lemma {:induction false} ResetCountPositive(trace: seq<Event>, i: int)
    requires 0 <= i < |trace| && trace[i].Reset?
    ensures ResetCount(trace, trace[i].frame) >= 1
    decreases |trace|
  {
    var last := |trace| - 1;
    if i < last {
      assert trace[..last][i] == trace[i];
      ResetCountPositive(trace[..last], i);
    }
  }

  /** One pass adds exactly the operation its frame selects, and at most
      one reset before it. */
  lemma BodyOps(cfg: Config, start: int, s: State, now: int)
    requires cfg.Valid()
    ensures Ops(Body(cfg, start, s, now).trace) == Ops(s.trace) + [OperationAt(FrameNumber(now, start, cfg.timeFrameDuration))]
    ensures |Body(cfg, start, s, now).trace| <= |s.trace| + 2
  {
    var frame := FrameNumber(now, start, cfg.timeFrameDuration);
    var op := Invoke(OperationAt(frame));
    if ResetDue(frame, s.frames, cfg.resetDbEveryXFrames) {
      assert Body(cfg, start, s, now).trace == s.trace + [Reset(frame)] + [op];
      OpsAppend(s.trace, Reset(frame));
      OpsAppend(s.trace + [Reset(frame)], op);
    } else {
      OpsAppend(s.trace, op);
    }
  }

  /** The pass operations of a run that makes a first pass are that pass's
      operation followed by those of the remaining ticks. */
  lemma PassOpsFirst(cfg: Config, start: int, stop: int, ticks: seq<Tick>)
    requires cfg.Valid()
    requires |ticks| > 0 && ticks[0].guard < stop
    ensures PassOps(cfg, start, stop, ticks) ==
      [OperationAt(FrameNumber(ticks[0].work, start, cfg.timeFrameDuration))] + PassOps(cfg, start, stop, ticks[1..])
  {
    var rest := ticks[1..];
    assert PassCount(stop, ticks) == 1 + PassCount(stop, rest);
    var all, tail := PassOps(cfg, start, stop, ticks), PassOps(cfg, start, stop, rest);
    forall i | 0 <= i < |tail| ensures all[i + 1] == tail[i] {
      assert rest[i] == ticks[i + 1];
    }
  }

  /** Exactly one operation per pass, the one its frame selects, in pass
      order; and at most one reset beside it. */
  lemma {:induction false} LoopOnePerPass(cfg: Config, start: int, stop: int, s: State, ticks: seq<Tick>)
    requires cfg.Valid()
    ensures Ops(Loop(cfg, start, stop, s, ticks).trace) == Ops(s.trace) + PassOps(cfg, start, stop, ticks)
    ensures |Loop(cfg, start, stop, s, ticks).trace| <= |s.trace| + 2 * PassCount(stop, ticks)
    decreases |ticks|
  {
    if |ticks| > 0 && ticks[0].guard < stop {
      var b := Body(cfg, start, s, ticks[0].work);
      BodyOps(cfg, start, s, ticks[0].work);
      LoopOnePerPass(cfg, start, stop, b, ticks[1..]);
      PassOpsFirst(cfg, start, stop, ticks);
      assert PassCount(stop, ticks) == 1 + PassCount(stop, ticks[1..]);
    } else {
      assert PassOps(cfg, start, stop, ticks) == [];
    }
  }

  /** Over a whole run, each loop pass runs exactly one operation, the one
      its frame selects (`operations[frame_nb % 4]`), in pass order. */
  lemma RunOnePerPass(cfg: Config, start: int, ticks: seq<Tick>)
    requires cfg.Valid()
    ensures Ops(Run(cfg, start, ticks).trace) == PassOps(cfg, start, start + cfg.totalDuration, ticks)
    ensures |Ops(Run(cfg, start, ticks).trace)| == PassCount(start + cfg.totalDuration, ticks)
    ensures |Run(cfg, start, ticks).trace| <= 1 + 2 * PassCount(start + cfg.totalDuration, ticks)
  {
    var stop := start + cfg.totalDuration;
    assert Ops(Startup.trace) == [] by {
      OpsAppend([], Reset(0));
      assert [] + [Reset(0)] == Startup.trace;
    }
    LoopOnePerPass(cfg, start, stop, Startup, ticks);
    assert Ops(Run(cfg, start, ticks).trace) == PassOps(cfg, start, stop, ticks);
  }

  /** Some pass of the loop computed `frame` from its work reading. */
  ghost predicate Observed(cfg: Config, start: int, stop: int, ticks: seq<Tick>, frame: int)
    requires cfg.Valid()
  {
    exists i :: 0 <= i < PassCount(stop, ticks) && FrameNumber(ticks[i].work, start, cfg.timeFrameDuration) == frame
  }

  /** The loop visits exactly the frames it already had and the cadence
      frames some pass observed. */
  lemma {:induction false} LoopFrames(cfg: Config, start: int, stop: int, s: State, ticks: seq<Tick>, frame: int)
    requires cfg.Valid()
    ensures frame in Loop(cfg, start, stop, s, ticks).frames <==>
      frame in s.frames || (frame % cfg.resetDbEveryXFrames == 0 && Observed(cfg, start, stop, ticks, frame))
    decreases |ticks|
  {
    if |ticks| > 0 && ticks[0].guard < stop {
      var b := Body(cfg, start, s, ticks[0].work);
      var rest := ticks[1..];
      LoopFrames(cfg, start, stop, b, rest, frame);
      assert PassCount(stop, ticks) == 1 + PassCount(stop, rest);
      var f0 := FrameNumber(ticks[0].work, start, cfg.timeFrameDuration);
      if Observed(cfg, start, stop, rest, frame) {
        var i :| 0 <= i < PassCount(stop, rest) && FrameNumber(rest[i].work, start, cfg.timeFrameDuration) == frame;
        assert rest[i] == ticks[i + 1];
        assert Observed(cfg, start, stop, ticks, frame);
      }
      if Observed(cfg, start, stop, ticks, frame) && frame != f0 {
        var i :| 0 <= i < PassCount(stop, ticks) && FrameNumber(ticks[i].work, start, cfg.timeFrameDuration) == frame;
        assert i > 0;
        assert ticks[i] == rest[i - 1];
        assert Observed(cfg, start, stop, rest, frame);
      }
      assert f0 == frame ==> Observed(cfg, start, stop, ticks, frame);
    }
  }

  /** The visited frames of a run are 0 and exactly the cadence frames some
      pass observed; so every cadence frame a pass observes is reset exactly
      once, however many passes observe it. */
  lemma RunFrames(cfg: Config, start: int, ticks: seq<Tick>, frame: int)
    requires cfg.Valid()
    ensures frame in Run(cfg, start, ticks).frames <==>
      frame == 0 || (frame % cfg.resetDbEveryXFrames == 0 && Observed(cfg, start, start + cfg.totalDuration, ticks, frame))
    ensures frame % cfg.resetDbEveryXFrames == 0 && Observed(cfg, start, start + cfg.totalDuration, ticks, frame) ==>
      ResetCount(Run(cfg, start, ticks).trace, frame) == 1
  {
    LoopFrames(cfg, start, start + cfg.totalDuration, Startup, ticks, frame);
    RunResetsOncePerFrame(cfg, start, ticks, frame);
  }

  /** When no work reading of a pass lies before the start reading (a clock
      that does not step back), every visited frame other than the seed is a
      positive multiple of the cadence. */
  lemma RunFramesPositive(cfg: Config, start: int, ticks: seq<Tick>, frame: int)
    requires cfg.Valid()
    requires forall i :: 0 <= i < PassCount(start + cfg.totalDuration, ticks) ==> ticks[i].work >= start
    requires frame in Run(cfg, start, ticks).frames && frame != 0
    ensures frame > 0 && frame % cfg.resetDbEveryXFrames == 0
  {
    RunFrames(cfg, start, ticks, frame);
  }

  /** With the program's constants, when every pass's work reading lies
      between the start and the stop time, the visited frames, and so the
      frames the database is reset for, are among 0, 8, 16, 24 and 32 (0
      being the startup reset). */
  lemma SourceRunFrames(start: int, ticks: seq<Tick>)
    requires forall i :: 0 <= i < PassCount(start + TotalDuration, ticks) ==>
      start <= ticks[i].work <= start + TotalDuration
    ensures Run(Source, start, ticks).frames <= {0, 8, 16, 24, 32}
    ensures forall f :: ResetCount(Run(Source, start, ticks).trace, f) > 0 ==> f in {0, 8, 16, 24, 32}
  {
    SourceConfig();
    forall f | ResetCount(Run(Source, start, ticks).trace, f) > 0 {
      RunResetsOncePerFrame(Source, start, ticks, f);
    }
    forall frame | frame in Run(Source, start, ticks).frames
      ensures frame in {0, 8, 16, 24, 32}
    {
      RunFrames(Source, start, ticks, frame);
      if frame != 0 {
        var i :| 0 <= i < PassCount(start + TotalDuration, ticks) &&
          FrameNumber(ticks[i].work, start, TimeFrameDuration) == frame;
        SourceResetFrames(ticks[i].work, start);
      }
    }
  }

  /** Frames of five seconds, cadence 8: frame 0 is not reset again by the
      loop, frame 8 is reset once although two passes observe it, and frame
      16 is reset; every reset comes before that pass's `insert_messages`. */
  lemma ExampleResetCadence()
    ensures Run(Config(8, 5, 100), 0, [Tick(0, 0), Tick(40, 40), Tick(44, 44), Tick(80, 80)]) ==
      State({0, 8, 16}, [Reset(0), Invoke(InsertMessages), Reset(8), Invoke(InsertMessages),
                         Invoke(InsertMessages), Reset(16), Invoke(InsertMessages)])
  {
  }

  /** Run duration 17 with five-second frames: passes in frames 0..3 run
      insert, update, read and delete; the first guard reading at 17 ends the
      run and later readings do nothing. A work reading may be later than
      its guard reading (here 16 after 15). */
  lemma ExampleStopTime()
    ensures Run(Config(8, 5, 17), 0, [Tick(0, 0), Tick(5, 5), Tick(10, 10), Tick(15, 16), Tick(17, 17), Tick(20, 20)]) ==
      State({0}, [Reset(0), Invoke(InsertMessages), Invoke(UpdateMessages), Invoke(ReadMessages), Invoke(DeleteMessages)])
  {
  }

  /** The program reads the wall clock, which can step back: a work reading
      2400 seconds before the start reading falls in frame -8, a multiple of
      the cadence not yet visited, so the loop resets the database for it. */
  lemma ExampleClockStepsBack(start: int)
    ensures Run(Source, start, [Tick(start - 2400, start - 2400)]) ==
      State({0, -8}, [Reset(0), Reset(-8), Invoke(InsertMessages)])
  {
    SourceConfig();
    assert FrameNumber(start - 2400, start, TimeFrameDuration) == -8;
    var ticks := [Tick(start - 2400, start - 2400)];
    assert Body(Source, start, Startup, start - 2400) == State({0, -8}, [Reset(0), Reset(-8), Invoke(InsertMessages)]);
    assert ticks[0].guard < start + Source.totalDuration && ticks[1..] == [];
    assert Run(Source, start, ticks) == Loop(Source, start, start + Source.totalDuration, Body(Source, start, Startup, start - 2400), []);
  }
}
