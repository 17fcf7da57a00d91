// The frame clock: from a start reading and a later clock reading, the
// frame number, the operation it selects and whether a reset is due.

module FrameClock {
  import opened Settings

  /** The frame `now` falls in, counting whole frames of `duration` seconds
      since `start`. The program floors (`//`); with a positive divisor
      Dafny's `/` floors as well, also for readings before `start`. */
  function FrameNumber(now: int, start: int, duration: int): (frame: int)
    requires duration > 0
    ensures duration * frame <= now - start < duration * frame + duration
    ensures now >= start ==> frame >= 0
  {
    (now - start) / duration
  }

  /** Frames never go backwards while the clock does not. */
  lemma FrameNumberMonotone(now1: int, now2: int, start: int, duration: int)
    requires duration > 0
    requires now1 <= now2
    ensures FrameNumber(now1, start, duration) <= FrameNumber(now2, start, duration)
  {
    var f1, f2 := FrameNumber(now1, start, duration), FrameNumber(now2, start, duration);
    if f1 > f2 {
      assert f1 >= f2 + 1;
      assert duration * f1 >= duration * (f2 + 1) by {
        MultiplyMonotone(duration, f2 + 1, f1);
      }
      assert false;
    }
  }

  lemma MultiplyMonotone(d: int, a: int, b: int)
    requires d > 0 && a <= b
    ensures d * a <= d * b
  {
  }

  /** The slot of the rotation (of length `n`) that `frame` selects: a valid
      index congruent to the frame modulo `n`, also for negative frames. */
  function ActionIndex(frame: int, n: int): (action: int)
    requires n > 0
    ensures 0 <= action < n
    ensures (frame - action) % n == 0
  {
    var action := frame % n;
    MultipleModulo(n, frame / n);
    assert frame - action == n * (frame / n);
    action
  }

  /** A multiple of `n` leaves no remainder. */
  lemma MultipleModulo(n: int, q: int)
    requires n > 0
    ensures (n * q) % n == 0
  {
    var d, r := (n * q) / n, (n * q) % n;
    assert n * q == n * d + r && 0 <= r < n;
    assert n * (q - d) == r;
    if q - d >= 1 {
      MultiplyMonotone(n, 1, q - d);
    } else if q - d <= -1 {
      MultiplyMonotone(n, q - d, -1);
    }
  }

  /** The operation the scheduler runs in `frame`. */
  function OperationAt(frame: int): Operation
  {
    Operations[ActionIndex(frame, |Operations|)]
  }

  /** Consecutive frames walk through the rotation and wrap around after
      four frames: frames 0..5 give insert, update, read, delete, insert,
      update. */
  lemma RotationOrder(frame: int)
    ensures OperationAt(frame + |Operations|) == OperationAt(frame)
    ensures OperationAt(0) == InsertMessages && OperationAt(1) == UpdateMessages
    ensures OperationAt(2) == ReadMessages && OperationAt(3) == DeleteMessages
    ensures OperationAt(4) == InsertMessages && OperationAt(5) == UpdateMessages
  {
  }

  /** A reset is due in `frame` when the frame is a multiple of the cadence
      and no reset has been done for it yet. */
  predicate ResetDue(frame: int, visited: set<int>, every: int)
    requires every > 0
  {
    frame % every == 0 && frame !in visited
  }

  /** When the cadence is a multiple of the rotation length, every frame in
      which a reset can fall selects the first operation of the rotation. */
  lemma ResetFrameSelectsInsert(frame: int, every: int)
    requires every > 0 && every % |Operations| == 0
    requires frame % every == 0
    ensures OperationAt(frame) == InsertMessages
  {
    var n := |Operations|;
    var q, p := frame / every, every / n;
    assert frame == every * q;
    assert every == n * p;
    assert frame == n * (p * q);
    MultipleModulo(n, p * q);
  }

  /** With the program's constants, a reading inside the run falls in
      frames 0..35; a reading taken exactly at the stop time falls in frame
      36, which is never a reset frame. */
  lemma SourceFrameRange(now: int, start: int)
    requires start <= now <= start + TotalDuration
    ensures 0 <= FrameNumber(now, start, TimeFrameDuration) <= 36
    ensures now < start + TotalDuration ==> FrameNumber(now, start, TimeFrameDuration) <= 35
    ensures now == start + TotalDuration ==> FrameNumber(now, start, TimeFrameDuration) == 36
  {
  }

  /** With the program's constants, the only frames from 0 to the stop time
      at which a reset can fall are 0, 8, 16, 24 and 32. */
  lemma SourceResetFrames(now: int, start: int)
    requires start <= now <= start + TotalDuration
    requires FrameNumber(now, start, TimeFrameDuration) % ResetDbEveryXFrames == 0
    ensures FrameNumber(now, start, TimeFrameDuration) in {0, 8, 16, 24, 32}
  {
    SourceFrameRange(now, start);
  }
}
