/** The fixed-step animation timer of main_loop (spriteview.cpp:347-351 and
    426-438). Times are SDL_GetTicks values (Uint32 milliseconds); the
    accumulator and the subtraction wrap modulo 2^32 as Uint32 does. */
module Animation {
  import opened Arith

  const U32: nat := 0x1_0000_0000
  /** An accumulator above this many milliseconds is dropped (a stall). */
  const ACCUM_LIMIT: nat := 1000

  /** msPerFrame = 1000 / fps, C integer division (fps is positive). */
  function MsPerFrame(fps: int): (ms: nat)
    requires 1 <= fps
    ensures fps <= 1000 ==> 1 <= ms <= 1000
    ensures fps > 1000 ==> ms == 0
  {
    1000 / fps
  }

  /** numFrames = end - start + 1 for a validated range. */
  function NumFrames(start: int, end: int): (n: nat)
    requires start <= end
    ensures n >= 1 && start + n - 1 == end
  {
    end - start + 1
  }

  /** The accumulator after adding the Uint32 time delta, dropped to 0 when it
      exceeds one second. */
  function Accumulate(accum: nat, lastTime: nat, currentTime: nat): (a: nat)
    requires accum < U32 && lastTime < U32 && currentTime < U32
    ensures a <= ACCUM_LIMIT
    ensures a == 0 || a == (accum + (currentTime - lastTime) % U32) % U32
    ensures (accum + (currentTime - lastTime) % U32) % U32 <= ACCUM_LIMIT ==>
              a == (accum + (currentTime - lastTime) % U32) % U32
  {
    var timeDelta := (currentTime - lastTime) % U32;
    var sum := (accum + timeDelta) % U32;
    if sum > ACCUM_LIMIT then 0 else sum
  }

  /** Elapsed time is measured correctly across a wrap of the tick counter. */
  lemma ElapsedAcrossWrap(accum: nat, lastTime: nat, currentTime: nat)
    requires accum < U32 && lastTime < U32 && currentTime < U32
    requires currentTime < lastTime
    requires accum + (currentTime + U32 - lastTime) <= ACCUM_LIMIT
    ensures Accumulate(accum, lastTime, currentTime) == accum + (currentTime + U32 - lastTime)
  {
    assert (currentTime - lastTime) % U32 == currentTime + U32 - lastTime;
  }

  /** Elapsed time in the ordinary case, without a wrap of the tick counter. */
  lemma ElapsedWithoutWrap(accum: nat, lastTime: nat, currentTime: nat)
    requires accum < U32 && lastTime <= currentTime < U32
    requires accum + (currentTime - lastTime) <= ACCUM_LIMIT
    ensures Accumulate(accum, lastTime, currentTime) == accum + (currentTime - lastTime)
  {
  }

  /** The frame offset after one step, (frameOffs + 1) % numFrames, written
      as the wrap back to 0 after the last frame. */
  function NextOffset(offs: nat, numFrames: nat): (o: nat)
    requires offs < numFrames
    ensures o < numFrames
    ensures o == (offs + 1) % numFrames
  {
    if offs + 1 == numFrames then 0 else offs + 1
  }

  /** The frame offset after k steps. */
  function OffsetAfter(offs: nat, numFrames: nat, k: nat): (o: nat)
    requires offs < numFrames
    ensures o < numFrames
  {
    if k == 0 then offs else NextOffset(OffsetAfter(offs, numFrames, k - 1), numFrames)
  }

  /** The sprite indices drawn by k steps from frame offset offs. */
  function DrawSequence(start: int, numFrames: nat, offs: nat, k: nat): (s: seq<int>)
    requires offs < numFrames
    ensures |s| == k
    ensures forall i | 0 <= i < k :: s[i] == start + OffsetAfter(offs, numFrames, i + 1)
  {
    if k == 0 then [] else DrawSequence(start, numFrames, offs, k - 1) + [start + OffsetAfter(offs, numFrames, k)]
  }

  /** Every drawn index lies in the range start .. start + numFrames - 1. */
  lemma DrawnWithinRange(start: int, numFrames: nat, offs: nat, k: nat)
    requires offs < numFrames
    ensures forall i | 0 <= i < k :: start <= DrawSequence(start, numFrames, offs, k)[i] < start + numFrames
  {
  }

  /** The offset after k steps is the starting offset advanced by k, modulo
      the number of frames. */
  lemma {:induction false} OffsetAfterIsModular(offs: nat, numFrames: nat, k: nat)
    requires offs < numFrames
    ensures OffsetAfter(offs, numFrames, k) == (offs + k) % numFrames
  {
    if k > 0 {
      OffsetAfterIsModular(offs, numFrames, k - 1);
      ModNext(offs + k - 1, numFrames);
    }
  }

  lemma ModNext(v: nat, n: nat)
    requires n > 0
    ensures (v + 1) % n == NextOffset(v % n, n)
  {
    var q, r := v / n, v % n;
    assert v == q * n + r;
    if r + 1 == n {
      assert v + 1 == (q + 1) * n + 0;
      DivInBlock(v + 1, q + 1, n);
    } else {
      assert v + 1 == q * n + (r + 1);
      DivInBlock(v + 1, q, n);
    }
  }

  /** The drawing loop of main_loop: while a whole frame's time is
      accumulated, step the frame offset and draw start + offset. The number
      of draws and the remainder are the quotient and remainder of accum by
      msPerFrame. */
  method RunFrames(accum: nat, offs: nat, msPerFrame: nat, numFrames: nat, start: int)
    returns (accum': nat, offs': nat, drawn: seq<int>)
    requires msPerFrame >= 1 && offs < numFrames
    ensures |drawn| * msPerFrame + accum' == accum && accum' < msPerFrame
    ensures |drawn| == accum / msPerFrame
    ensures offs' == OffsetAfter(offs, numFrames, |drawn|) && offs' < numFrames
    ensures drawn == DrawSequence(start, numFrames, offs, |drawn|)
    ensures forall i | 0 <= i < |drawn| :: start <= drawn[i] < start + numFrames
  {
    accum', offs', drawn := accum, offs, [];
    while accum' >= msPerFrame
      invariant |drawn| * msPerFrame + accum' == accum
      invariant offs' == OffsetAfter(offs, numFrames, |drawn|)
      invariant drawn == DrawSequence(start, numFrames, offs, |drawn|)
      decreases accum'
    {
      offs' := (offs' + 1) % numFrames;
      var frameIndex := start + offs';
      drawn := drawn + [frameIndex];
      accum' := accum' - msPerFrame;
    }
    DivInBlock(accum, |drawn|, msPerFrame);
    DrawnWithinRange(start, numFrames, offs, |drawn|);
  }

  /** Documents why RunFrames requires msPerFrame >= 1: with more than 1000
      frames per second msPerFrame is 0, the loop guard timeAccum >= msPerFrame
      always holds and the body leaves timeAccum as it is, so the drawing
      loop of main_loop never ends. */
  lemma FastFrameRateNeverLeavesLoop(fps: int, accum: nat)
    requires fps > 1000
    ensures accum >= MsPerFrame(fps) && accum - MsPerFrame(fps) == accum
  {
  }

  /** The timer state of main_loop. */
  class Timer {
    const start: int
    const numFrames: nat
    const msPerFrame: nat
    var lastTime: nat
    var timeAccum: nat
    var frameOffs: nat

    ghost predicate Valid()
      reads this
    {
      && numFrames >= 1 && 1 <= msPerFrame <= 1000
      && lastTime < U32 && timeAccum < msPerFrame && frameOffs < numFrames
    }

    /** main_loop's set-up: the first tick reading, an empty accumulator and
        frame offset 0. */
    constructor (fps: int, start: int, end: int, now: nat)
      requires 1 <= fps <= 1000 && start <= end && now < U32
      ensures Valid()
      ensures this.start == start && numFrames == NumFrames(start, end) && msPerFrame == MsPerFrame(fps)
      ensures lastTime == now && timeAccum == 0 && frameOffs == 0
    {
      this.start := start;
      numFrames := NumFrames(start, end);
      msPerFrame := MsPerFrame(fps);
      lastTime := now;
      timeAccum := 0;
      frameOffs := 0;
    }

    /** One pass of main_loop after polling: accumulate the elapsed ticks and
        draw one frame per whole msPerFrame accumulated. */
    method Tick(currentTime: nat) returns (drawn: seq<int>)
      requires Valid() && currentTime < U32
      modifies this
      ensures Valid()
      ensures lastTime == currentTime
      ensures var a := Accumulate(old(timeAccum), old(lastTime), currentTime);
              && |drawn| * msPerFrame + timeAccum == a && |drawn| == a / msPerFrame
              && frameOffs == OffsetAfter(old(frameOffs), numFrames, |drawn|)
              && drawn == DrawSequence(start, numFrames, old(frameOffs), |drawn|)
    ensures forall i | 0 <= i < |drawn| :: start <= drawn[i] < start + numFrames
    {
      var timeDelta := (currentTime - lastTime) % U32;
      lastTime := currentTime;
      timeAccum := (timeAccum + timeDelta) % U32;
      if timeAccum > ACCUM_LIMIT {
        timeAccum := 0;
      }
      timeAccum, frameOffs, drawn := RunFrames(timeAccum, frameOffs, msPerFrame, numFrames, start);
    }
  }
}
