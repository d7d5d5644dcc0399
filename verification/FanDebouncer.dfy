/** The estimate of a subrack fan's speed at full duty, which suppresses short runs of bad values. */
module FanDebouncer {

  import opened Basics

  const FAN_COUNT := 4
  /** The nominal speed at full duty. */
  const MAX_SUBRACK_FAN_SPEED := 6500.0

  /** One reading: each fan's speed scaled up to full duty. */
  type Reading = seq<real>

  function AtLeast(floor: real, x: real): real {
    if x < floor then floor else x
  }

  /** The duty cycle is floored at 10%. */
  function Scaled(rpm: real, percent: real): real {
    rpm / AtLeast(0.1, percent / 100.0)
  }

  function Abs(x: real): real {
    if x < 0.0 then -x else x
  }

  predicate OutOfBand(value: real, maxDelta: real) {
    Abs(value - MAX_SUBRACK_FAN_SPEED) / MAX_SUBRACK_FAN_SPEED > maxDelta
  }

  /** Every speed needs a duty cycle. */
  function ScaledReading(rpm: seq<real>, percent: seq<real>): Reading
    requires |rpm| <= |percent|
  {
    seq(|rpm|, i requires 0 <= i < |rpm| => Scaled(rpm[i], percent[i]))
  }

  /** Whether fan `i` was out of band, reading by reading; a reading that does not reach the fan leaves no trace. */
  function Bands(history: seq<Reading>, i: nat, maxDelta: real): seq<bool> {
    if history == [] then []
    else
      var last := history[|history| - 1];
      Bands(history[..|history| - 1], i, maxDelta) + if i < |last| then [OutOfBand(last[i], maxDelta)] else []
  }

  /** The length of the current run of out-of-band values. */
  function CurrentRun(bands: seq<bool>): (n: nat) {
    if bands == [] || !bands[|bands| - 1] then 0 else 1 + CurrentRun(bands[..|bands| - 1])
  }

  /** The current run is the longest stretch of out-of-band values at the end of the history. */
  lemma {:induction false} CurrentRunIsSuffix(bands: seq<bool>)
    ensures CurrentRun(bands) <= |bands|
    ensures forall k :: |bands| - CurrentRun(bands) <= k < |bands| ==> bands[k]
    ensures CurrentRun(bands) < |bands| ==> !bands[|bands| - CurrentRun(bands) - 1]
  {
    if bands != [] && bands[|bands| - 1] {
      CurrentRunIsSuffix(bands[..|bands| - 1]);
    }
  }

  /** The number of values a run may have replaced; a negative limit replaces none. */
  function Limit(maxErrors: int): nat {
    if maxErrors < 0 then 0 else maxErrors
  }

  function Min(a: nat, b: nat): nat {
    if a < b then a else b
  }

  /** What is published for a scaled value that follows `run` out-of-band ones. */
  function Published(value: real, run: nat, maxErrors: int, maxDelta: real): real {
    if OutOfBand(value, maxDelta) && run < Limit(maxErrors) then MAX_SUBRACK_FAN_SPEED else value
  }

  function NextRun(value: real, run: nat, maxDelta: real): nat {
    if OutOfBand(value, maxDelta) then run + 1 else 0
  }

  /** The current out-of-band run of fan `i` after a history. */
  function FanRun(history: seq<Reading>, i: nat, maxDelta: real): nat {
    CurrentRun(Bands(history, i, maxDelta))
  }

  /** A published value is out of band if and only if it ends a run of more than `maxErrors` out-of-band values: it and
      the `maxErrors` before it. */
  lemma OutOfBandOnlyAfterLongRun(value: real, bands: seq<bool>, maxErrors: int, maxDelta: real)
    requires maxDelta >= 0.0
    ensures OutOfBand(Published(value, CurrentRun(bands), maxErrors, maxDelta), maxDelta)
       <==> OutOfBand(value, maxDelta) && |bands| >= Limit(maxErrors)
            && forall k :: |bands| - Limit(maxErrors) <= k < |bands| ==> bands[k]
  {
    CurrentRunIsSuffix(bands);
    assert !OutOfBand(MAX_SUBRACK_FAN_SPEED, maxDelta);
  }

  /** In band is what differs from 6500 rpm by no more than the given share of it. */
  lemma OutOfBandExactly(value: real, maxDelta: real)
    ensures OutOfBand(value, maxDelta) <==> value < 6500.0 - 6500.0 * maxDelta || value > 6500.0 + 6500.0 * maxDelta
  {
    var off := Abs(value - 6500.0);
    assert off / 6500.0 > maxDelta <==> off > maxDelta * 6500.0;
  }

  /** A speed is scaled up from its duty cycle, and tenfold if that is below 10%. */
  lemma ScaledExactly(rpm: real, percent: real)
    ensures percent >= 10.0 ==> Scaled(rpm, percent) * percent == 100.0 * rpm
    ensures percent < 10.0 ==> Scaled(rpm, percent) == 10.0 * rpm
  {
    if percent >= 10.0 {
      var duty := percent / 100.0;
      assert duty >= 0.1 && Scaled(rpm, percent) * duty == rpm;
      assert percent == duty * 100.0;
    }
  }

  /** What is published: the value itself if it is in band, or if the `maxErrors` values before it were all out of band;
      6500 rpm otherwise. */
  lemma PublishedExactly(value: real, bands: seq<bool>, maxErrors: int, maxDelta: real)
    ensures var limit := if maxErrors < 0 then 0 else maxErrors;
      Published(value, CurrentRun(bands), maxErrors, maxDelta)
      == if || 6500.0 - 6500.0 * maxDelta <= value <= 6500.0 + 6500.0 * maxDelta
            || (|bands| >= limit && forall k :: |bands| - limit <= k < |bands| ==> bands[k])
         then value else 6500.0
  {
    OutOfBandExactly(value, maxDelta);
    CurrentRunIsSuffix(bands);
  }

  /** The history of a fan that every reading reaches, value by value. */
  lemma {:induction false} BandsAre(history: seq<Reading>, i: nat, maxDelta: real)
    requires forall k :: 0 <= k < |history| ==> i < |history[k]|
    ensures |Bands(history, i, maxDelta)| == |history|
    ensures forall k :: 0 <= k < |history| ==> Bands(history, i, maxDelta)[k] == OutOfBand(history[k][i], maxDelta)
  {
    if history != [] {
      BandsAre(history[..|history| - 1], i, maxDelta);
    }
  }

  /** What an estimate gives; without speeds or duty cycles there is none. */
  datatype Estimate = NoValues | Values(values: seq<real>) | IndexError

  class Estimator {
    const maxFanErrors: int
    const maxFanDelta: real
    const fanErrorValues: array<nat>
    /** The readings so far in which both speeds and duty cycles were there. */
    ghost var history: seq<Reading>

    /** What fan `i`'s error counter stands at after a history. */
    ghost function Counted(h: seq<Reading>, i: nat): nat {
      Min(Limit(maxFanErrors), FanRun(h, i, maxFanDelta))
    }

    ghost predicate Valid()
      reads this, fanErrorValues
    {
      && fanErrorValues.Length == FAN_COUNT
      && forall i :: 0 <= i < FAN_COUNT ==> fanErrorValues[i] == Counted(history, i)
    }

    constructor (maxFanErrors: int, maxFanDelta: real)
      ensures Valid() && history == [] && fresh(fanErrorValues)
      ensures this.maxFanErrors == maxFanErrors && this.maxFanDelta == maxFanDelta
    {
      this.maxFanErrors := maxFanErrors;
      this.maxFanDelta := maxFanDelta;
      fanErrorValues := new nat[FAN_COUNT](_ => 0);
      history := [];
    }

    /** Each counter stays at the smaller of the limit and the length of the fan's current out-of-band run, and each
        published value is the one `Published` gives for the history before the reading. With fewer duty cycles than
        speeds nothing happens but IndexError; with more speeds than fans the fans are counted before IndexError. */
    method EstimateMaxFanRpm(fanSpeed: Option<seq<real>>, fanSpeedPercent: Option<seq<real>>)
      returns (estimate: Estimate)
      requires Valid()
      modifies this`history, fanErrorValues
      ensures Valid()
      ensures estimate.NoValues? <==> fanSpeed.None? || fanSpeedPercent.None?
      ensures estimate.IndexError? <==> fanSpeed.Some? && fanSpeedPercent.Some?
                                        && (|fanSpeed.value| > |fanSpeedPercent.value| || |fanSpeed.value| > FAN_COUNT)
      ensures fanSpeed.None? || fanSpeedPercent.None? || |fanSpeed.value| > |fanSpeedPercent.value| ==>
                history == old(history)
      ensures fanSpeed.Some? && fanSpeedPercent.Some? && |fanSpeed.value| <= |fanSpeedPercent.value| ==>
        var reading := ScaledReading(fanSpeed.value, fanSpeedPercent.value);
        && history == old(history) + [reading]
        && (estimate.Values? ==>
              && |estimate.values| == |reading|
              && forall i :: 0 <= i < |reading| ==>
                   estimate.values[i]
                     == Published(reading[i], FanRun(old(history), i, maxFanDelta), maxFanErrors, maxFanDelta))
    {
      if fanSpeed.None? || fanSpeedPercent.None? {
        return NoValues;
      }
      if |fanSpeed.value| > |fanSpeedPercent.value| {
        return IndexError;
      }
      var reading := ScaledReading(fanSpeed.value, fanSpeedPercent.value);
      ghost var before := history;
      ghost var runs := seq(FAN_COUNT, i requires 0 <= i < FAN_COUNT => FanRun(before, i, maxFanDelta));
      estimate := DebounceAll(reading, runs);
      forall i | 0 <= i < FAN_COUNT
        ensures Counted(history + [reading], i) == fanErrorValues[i]
      {
        OneMore(history, reading, i, maxFanDelta);
      }
      history := history + [reading];
    }

    /** The loop over the fans, whose current runs are `runs`. */
    method DebounceAll(reading: Reading, ghost runs: seq<nat>) returns (estimate: Estimate)
      requires fanErrorValues.Length == |runs| == FAN_COUNT
      requires forall i :: 0 <= i < FAN_COUNT ==> fanErrorValues[i] == Min(Limit(maxFanErrors), runs[i])
      modifies fanErrorValues
      ensures forall i :: 0 <= i < FAN_COUNT ==>
        fanErrorValues[i]
          == Min(Limit(maxFanErrors), if i < |reading| then NextRun(reading[i], runs[i], maxFanDelta) else runs[i])
      ensures !estimate.NoValues? && (estimate.IndexError? <==> |reading| > FAN_COUNT)
      ensures estimate.Values? ==>
                && |estimate.values| == |reading|
                && forall i :: 0 <= i < |reading| ==>
                     estimate.values[i] == Published(reading[i], runs[i], maxFanErrors, maxFanDelta)
    {
      var scaled := reading;
      for i := 0 to |reading|
        invariant i <= FAN_COUNT && |scaled| == |reading|
        invariant forall k :: 0 <= k < i ==> scaled[k] == Published(reading[k], runs[k], maxFanErrors, maxFanDelta)
        invariant forall k :: i <= k < |reading| ==> scaled[k] == reading[k]
        invariant forall k :: 0 <= k < i ==>
                    fanErrorValues[k] == Min(Limit(maxFanErrors), NextRun(reading[k], runs[k], maxFanDelta))
        invariant forall k :: i <= k < FAN_COUNT ==> fanErrorValues[k] == Min(Limit(maxFanErrors), runs[k])
      {
        if i == FAN_COUNT {
          return IndexError;
        }
        if OutOfBand(scaled[i], maxFanDelta) {
          if fanErrorValues[i] < maxFanErrors {
            scaled := scaled[i := MAX_SUBRACK_FAN_SPEED];
            fanErrorValues[i] := fanErrorValues[i] + 1;
          }
        } else {
          fanErrorValues[i] := 0;
        }
      }
      return Values(scaled);
    }
  }

  lemma BandsMore(before: seq<Reading>, r: Reading, i: nat, maxDelta: real)
    ensures Bands(before + [r], i, maxDelta)
         == Bands(before, i, maxDelta) + if i < |r| then [OutOfBand(r[i], maxDelta)] else []
  {
    assert (before + [r])[..|before + [r]| - 1] == before;
  }

  lemma RunMore(bands: seq<bool>, outOfBand: bool)
    ensures CurrentRun(bands + [outOfBand]) == if outOfBand then CurrentRun(bands) + 1 else 0
  {
    assert (bands + [outOfBand])[..|bands|] == bands;
  }

  lemma OneMore(before: seq<Reading>, r: Reading, i: nat, maxDelta: real)
    ensures FanRun(before + [r], i, maxDelta)
         == if i < |r| then NextRun(r[i], FanRun(before, i, maxDelta), maxDelta) else FanRun(before, i, maxDelta)
  {
    var bands := Bands(before, i, maxDelta);
    BandsMore(before, r, i, maxDelta);
    if i < |r| {
      RunMore(bands, OutOfBand(r[i], maxDelta));
    } else {
      assert bands + [] == bands;
    }
  }
}
