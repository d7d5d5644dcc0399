/** Conversion between UTC times and frame counts, in exact arithmetic. A time is a whole number of microseconds since
    1970, which is what a time string holds (section 5.6 of RFC 3339 with six digits of the second's fraction). */
module TileTime {
  import opened Basics

  const MICROSECONDS := 1000000
  const CHANNELISER_OUTPUT_FRAME_LENGTH := 1024
  /** The oversampling factor is 32 / 27, so a frame takes 1024 * 27 / 32 = 864 ADC samples. */
  const ADC_FRAME_LENGTH := 864
  /** Samples per microsecond. */
  const ADC_SAMPLING_RATE := 800
  const FRAME_SAMPLES := 256
  /** A frame lasts 6912 / 25 microseconds. */
  const PERIOD_NUMERATOR := 6912
  const PERIOD_DENOMINATOR := 25

  lemma PeriodIsExact()
    ensures ADC_FRAME_LENGTH * 32 == CHANNELISER_OUTPUT_FRAME_LENGTH * 27
    ensures FRAME_SAMPLES * ADC_FRAME_LENGTH * PERIOD_DENOMINATOR == PERIOD_NUMERATOR * ADC_SAMPLING_RATE
  {
  }

  /** The microsecond nearest to the start of a frame. There are no ties, since 25 is odd. */
  function FrameStart(frame: int): int {
    (2 * PERIOD_NUMERATOR * frame + PERIOD_DENOMINATOR) / (2 * PERIOD_DENOMINATOR)
  }

  function FormatTimeFromFrame(refTime: int, frame: int): int {
    MICROSECONDS * refTime + FrameStart(frame)
  }

  /** The first frame that starts at or after a time; -1 without a reference time, for a string that is no time
      (`None`), and for a time before the reference. */
  function FrameFromUtcTime(refTime: int, utcTime: Option<int>): int {
    if refTime == 0 || utcTime.None? then -1
    else
      var elapsed := utcTime.value - MICROSECONDS * refTime;
      if elapsed < 0 then -1 else Ceiling(PERIOD_DENOMINATOR * elapsed, PERIOD_NUMERATOR)
  }

  function Ceiling(n: int, d: int): int
    requires d > 0
  {
    -((-n) / d)
  }

  /** The rounding is to the nearest microsecond. */
  lemma FrameStartIsNearest(frame: int)
    ensures -12 <= PERIOD_DENOMINATOR * FrameStart(frame) - PERIOD_NUMERATOR * frame <= 12
  {
  }

  /** The time given for a frame is the microsecond nearest to its start, counted from the reference time. */
  lemma FormatIsNearest(refTime: int, frame: int)
    ensures -12 <= 25 * (FormatTimeFromFrame(refTime, frame) - 1000000 * refTime) - 6912 * frame <= 12
  {
    FrameStartIsNearest(frame);
  }

  /** No frame is found without a reference time, for a string that is no time, and for a time before the reference. */
  lemma NoFrameExactly(refTime: int, utcTime: Option<int>)
    ensures FrameFromUtcTime(refTime, utcTime) == -1
       <==> refTime == 0 || utcTime == None || utcTime.value < 1000000 * refTime
  {
  }

  /** The frame found starts at or after the time, by less than one period. */
  lemma FrameIsFirstAtOrAfter(refTime: int, utcTime: int)
    requires refTime != 0 && utcTime >= MICROSECONDS * refTime
    ensures var frame := FrameFromUtcTime(refTime, Some(utcTime));
      && PERIOD_DENOMINATOR * (utcTime - MICROSECONDS * refTime) <= PERIOD_NUMERATOR * frame
      && PERIOD_NUMERATOR * (frame - 1) < PERIOD_DENOMINATOR * (utcTime - MICROSECONDS * refTime)
  {
  }

  /** The start of a frame is rounded up to the next microsecond. */
  predicate RoundsUp(frame: int) {
    (12 * frame) % 25 >= 13
  }

  lemma RoundsUpExactly(frame: int)
    ensures RoundsUp(frame) <==> PERIOD_DENOMINATOR * FrameStart(frame) > PERIOD_NUMERATOR * frame
  {
    FrameStartIsNearest(frame);
    var error := PERIOD_DENOMINATOR * FrameStart(frame) - PERIOD_NUMERATOR * frame;
    assert (12 * frame + error) % 25 == 0 by {
      assert 12 * frame + error == 25 * (FrameStart(frame) - 276 * frame);
    }
  }

  /** Formatting a frame's time and reading it back gives the frame, or the next one if and only if its start was
      rounded up; a frame before the reference time is lost. */
  lemma RoundTripExactly(refTime: int, frame: int)
    requires refTime != 0
    ensures FrameFromUtcTime(refTime, Some(FormatTimeFromFrame(refTime, frame)))
         == if frame < 0 then -1 else if RoundsUp(frame) then frame + 1 else frame
  {
    FrameStartIsNearest(frame);
    RoundsUpExactly(frame);
  }

  /** Every 25th frame starts on a whole microsecond and survives the round trip. */
  lemma WholeMicrosecondFrames(refTime: int, frame: nat)
    requires refTime != 0 && frame % 25 == 0
    ensures FrameFromUtcTime(refTime, Some(FormatTimeFromFrame(refTime, frame))) == frame
  {
    assert (12 * frame) % 25 == 0 by {
      assert 12 * frame == 25 * (12 * (frame / 25));
    }
    RoundTripExactly(refTime, frame);
  }

  /** The other way round: the time of the frame found for a time is not before it, and less than 277 microseconds
      after it. */
  lemma TimeRoundTrip(refTime: int, utcTime: int)
    requires refTime != 0 && utcTime >= MICROSECONDS * refTime
    ensures utcTime <= FormatTimeFromFrame(refTime, FrameFromUtcTime(refTime, Some(utcTime))) < utcTime + 277
  {
    FrameIsFirstAtOrAfter(refTime, utcTime);
    FrameStartIsNearest(FrameFromUtcTime(refTime, Some(utcTime)));
  }

  // ---------- The station's reference time ----------

  /** TAI 2000-01-01, in seconds since 1970. */
  const TAI_2000 := 946684763
  const ALIGNMENT := 864
  /** 10 days. */
  const MAX_AGE := 864000

  datatype Written = Reference(seconds: int) | InvalidTime | TooOld

  /** Writing a reference time, in microseconds, at a moment given in whole seconds. The remainder is that of Python:
      never negative. */
  function WriteReferenceTime(time: Option<int>, now: int): Written {
    if time.None? then InvalidTime
    else
      var aligned := time.value - (time.value - MICROSECONDS * TAI_2000) % (MICROSECONDS * ALIGNMENT);
      var seconds := aligned / MICROSECONDS;
      if seconds < now - MAX_AGE then TooOld else Reference(seconds)
  }

  /** The time kept is the last one not after the time written that is a whole number of 864 s steps from TAI 2000, and
      it is kept if and only if it is at most 10 days old. */
  lemma ReferenceIsAligned(time: int, now: int, seconds: int)
    ensures WriteReferenceTime(Some(time), now) == Reference(seconds)
       <==> && (seconds - TAI_2000) % ALIGNMENT == 0
            && MICROSECONDS * seconds <= time < MICROSECONDS * (seconds + ALIGNMENT)
            && seconds >= now - MAX_AGE
  {
    var offset, step := time - MICROSECONDS * TAI_2000, MICROSECONDS * ALIGNMENT;
    var q, r := offset / step, offset % step;
    assert offset == 864000000 * q + r;
    var kept := TAI_2000 + 864 * q;
    assert time - r == MICROSECONDS * kept;
    if (seconds - TAI_2000) % ALIGNMENT == 0 {
      var q' := (seconds - TAI_2000) / ALIGNMENT;
      assert seconds == TAI_2000 + 864 * q';
    }
    assert (kept - TAI_2000) % ALIGNMENT == 0 by {
      assert kept - TAI_2000 == 864 * q;
    }
  }

  /** The last whole step of 864 s from TAI 2000 that is not after a time. */
  predicate IsStep(time: int, seconds: int) {
    (seconds - 946684763) % 864 == 0 && 1000000 * seconds <= time < 1000000 * (seconds + 864)
  }

  lemma StepIsUnique(time: int, a: int, b: int)
    requires IsStep(time, a) && IsStep(time, b)
    ensures a == b
  {
    var (m, n) := ((a - 946684763) / 864, (b - 946684763) / 864);
    assert a == 946684763 + 864 * m && b == 946684763 + 864 * n;
    assert -864 < a - b < 864;
  }

  /** What is no time is rejected as such, and a time if its step lies more than 10 days back; otherwise the step is
      kept. */
  lemma WrittenExactly(time: int, now: int, step: int)
    requires IsStep(time, step)
    ensures WriteReferenceTime(Some(time), now) == if step < now - 864000 then TooOld else Reference(step)
    ensures WriteReferenceTime(None, now) == InvalidTime
  {
    var written := WriteReferenceTime(Some(time), now);
    ReferenceIsAligned(time, now, step);
    if written.Reference? {
      ReferenceIsAligned(time, now, written.seconds);
      StepIsUnique(time, step, written.seconds);
    }
  }

  /** Writing the kept time again keeps it. */
  lemma WritingIsIdempotent(time: int, now: int)
    requires WriteReferenceTime(Some(time), now).Reference?
    ensures var kept := WriteReferenceTime(Some(time), now);
      WriteReferenceTime(Some(MICROSECONDS * kept.seconds), now) == kept
  {
    var kept := WriteReferenceTime(Some(time), now);
    ReferenceIsAligned(time, now, kept.seconds);
    ReferenceIsAligned(MICROSECONDS * kept.seconds, now, kept.seconds);
  }

  /** A kept time is a whole number of frames from TAI 2000, 3125000 for every 864 s. */
  lemma WholeFramesFromTai2000(time: int, now: int)
    requires WriteReferenceTime(Some(time), now).Reference?
    ensures var elapsed := WriteReferenceTime(Some(time), now).seconds - TAI_2000;
      PERIOD_DENOMINATOR * (MICROSECONDS * elapsed) == PERIOD_NUMERATOR * (3125000 * (elapsed / ALIGNMENT))
  {
    ReferenceIsAligned(time, now, WriteReferenceTime(Some(time), now).seconds);
  }
}
