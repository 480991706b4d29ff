/** The lazy, rate-adjustable clock that drives animations (`src/animation/clock.rs`), over the reals. */
module Clock {
  import opened Options

  /** `Duration::MAX` in seconds. */
  const MAX: real := 18446744073709551615.999999999

  const MAX_RATE: real := 1000.0

  predicate IsTime(t: real) {
    0.0 <= t <= MAX
  }

  predicate IsRate(r: real) {
    0.0 <= r <= MAX_RATE
  }

  function Clamped(x: real, low: real, high: real): real {
    if x < low then low else if high < x then high else x
  }

  function SaturatingAdd(t: real, delta: real): real {
    if t + delta <= MAX then t + delta else MAX
  }

  function SaturatingSub(t: real, delta: real): real {
    if 0.0 <= t - delta then t - delta else 0.0
  }

  /** `Duration::mul_f64`, extended to negative steps. */
  function Scaled(step: real, rate: real): real {
    rate * step
  }

  /** The adjusted time, and the source time it was computed for. */
  datatype Adjusted = Adjusted(current: real, lastSeen: real)

  /** Moves to a source time: the step, scaled by the rate, is added or subtracted with saturation. */
  function Advance(a: Adjusted, time: real, rate: real): Adjusted {
    if a.lastSeen == time then a
    else if a.lastSeen < time then Adjusted(SaturatingAdd(a.current, Scaled(time - a.lastSeen, rate)), time)
    else Adjusted(SaturatingSub(a.current, Scaled(a.lastSeen - time, rate)), time)
  }

  /** `Duration::mul_f64` panics: the scaled step is no duration. */
  predicate Overflows(a: Adjusted, time: real, rate: real) {
    MAX < Scaled(if a.lastSeen < time then time - a.lastSeen else a.lastSeen - time, rate)
  }

  /** The scaled step to a source time, without saturation. */
  function Moved(a: Adjusted, time: real, rate: real): real {
    a.current + rate * (time - a.lastSeen)
  }

  lemma ScaledSign(step: real, rate: real)
    requires 0.0 <= step && IsRate(rate)
    ensures 0.0 <= Scaled(step, rate) && Scaled(-step, rate) == -Scaled(step, rate)
  {}

  lemma ScaledSum(a: real, b: real, rate: real)
    ensures Scaled(a, rate) + Scaled(b, rate) == Scaled(a + b, rate)
  {}

  /** Both directions are one formula: the scaled step, clamped to the valid times. */
  lemma AdvanceIsClamped(a: Adjusted, time: real, rate: real)
    requires IsTime(a.current) && IsRate(rate)
    ensures Advance(a, time, rate) == Adjusted(Clamped(Moved(a, time, rate), 0.0, MAX), time)
  {
    if a.lastSeen <= time {
      ScaledSign(time - a.lastSeen, rate);
    } else {
      ScaledSign(a.lastSeen - time, rate);
      assert time - a.lastSeen == -(a.lastSeen - time);
    }
  }

  lemma AdvanceIsTime(a: Adjusted, time: real, rate: real)
    requires IsTime(a.current) && IsRate(rate)
    ensures IsTime(Advance(a, time, rate).current) && Advance(a, time, rate).lastSeen == time
  {
    AdvanceIsClamped(a, time, rate);
  }

  /** For a source that does not go back, the clock does not either. */
  lemma AdvanceMonotone(a: Adjusted, time: real, rate: real)
    requires IsTime(a.current) && IsRate(rate) && a.lastSeen <= time
    ensures a.current <= Advance(a, time, rate).current
  {
    AdvanceIsClamped(a, time, rate);
    ScaledSign(time - a.lastSeen, rate);
  }

  /** An extra sample on the way, at the same rate, changes nothing, saturated or not. */
  lemma ExtraSample(a: Adjusted, middle: real, time: real, rate: real)
    requires IsTime(a.current) && IsRate(rate)
    requires a.lastSeen <= middle <= time || time <= middle <= a.lastSeen
    ensures Advance(Advance(a, middle, rate), time, rate) == Advance(a, time, rate)
  {
    AdvanceIsClamped(a, middle, rate);
    AdvanceIsClamped(Advance(a, middle, rate), time, rate);
    AdvanceIsClamped(a, time, rate);
    ScaledSum(middle - a.lastSeen, time - middle, rate);
    if a.lastSeen <= middle <= time {
      ScaledSign(middle - a.lastSeen, rate);
      ScaledSign(time - middle, rate);
    } else {
      ScaledSign(a.lastSeen - middle, rate);
      ScaledSign(middle - time, rate);
      assert middle - a.lastSeen == -(a.lastSeen - middle) && time - middle == -(middle - time);
    }
    assert middle - a.lastSeen + (time - middle) == time - a.lastSeen;
  }

  /** One call of `now`: the source time it sees and the rate then in force. */
  datatype Sample = Sample(time: real, rate: real)

  function AdvanceAll(a: Adjusted, samples: seq<Sample>): Adjusted
    decreases |samples|
  {
    if samples == [] then a else AdvanceAll(Advance(a, samples[0].time, samples[0].rate), samples[1..])
  }

  predicate AllRates(samples: seq<Sample>) {
    forall i :: 0 <= i < |samples| ==> IsRate(samples[i].rate)
  }

  lemma {:induction false} AdvanceAllConcat(a: Adjusted, first: seq<Sample>, second: seq<Sample>)
    ensures AdvanceAll(a, first + second) == AdvanceAll(AdvanceAll(a, first), second)
    decreases |first|
  {
    if first == [] {
      assert first + second == second;
    } else {
      assert (first + second)[1..] == first[1..] + second;
      AdvanceAllConcat(Advance(a, first[0].time, first[0].rate), first[1..], second);
    }
  }

  lemma {:induction false} AdvanceAllIsTime(a: Adjusted, samples: seq<Sample>)
    requires IsTime(a.current) && AllRates(samples)
    ensures IsTime(AdvanceAll(a, samples).current)
    ensures AdvanceAll(a, samples).lastSeen == if samples == [] then a.lastSeen else samples[|samples| - 1].time
    decreases |samples|
  {
    if samples == [] {
    } else {
      AdvanceIsTime(a, samples[0].time, samples[0].rate);
      AdvanceAllIsTime(Advance(a, samples[0].time, samples[0].rate), samples[1..]);
    }
  }

  /** The source never goes back, neither from what was last seen nor between two samples. */
  predicate Forward(from: real, samples: seq<Sample>)
    decreases |samples|
  {
    samples == [] || (from <= samples[0].time && Forward(samples[0].time, samples[1..]))
  }

  /** Over any run of samples of such a source, at any rates, the clock does not go back. */
  lemma {:induction false} ClockMonotone(a: Adjusted, samples: seq<Sample>)
    requires IsTime(a.current) && AllRates(samples) && Forward(a.lastSeen, samples)
    ensures a.current <= AdvanceAll(a, samples).current
    decreases |samples|
  {
    if samples == [] {
    } else {
      AdvanceMonotone(a, samples[0].time, samples[0].rate);
      AdvanceIsTime(a, samples[0].time, samples[0].rate);
      ClockMonotone(Advance(a, samples[0].time, samples[0].rate), samples[1..]);
    }
  }

  /** A sample inserted anywhere in a run, on the way to the next one and at its rate, changes nothing. */
  lemma SampleAnywhere(a: Adjusted, before: seq<Sample>, middle: real, next: Sample, after: seq<Sample>)
    requires IsTime(a.current) && AllRates(before) && IsRate(next.rate)
    requires var seen := AdvanceAll(a, before).lastSeen;
             seen <= middle <= next.time || next.time <= middle <= seen
    ensures AdvanceAll(a, before + ([Sample(middle, next.rate), next] + after)) ==
            AdvanceAll(a, before + ([next] + after))
  {
    var reached := AdvanceAll(a, before);
    AdvanceAllIsTime(a, before);
    AdvanceAllConcat(a, before, [Sample(middle, next.rate), next] + after);
    AdvanceAllConcat(a, before, [next] + after);
    assert ([Sample(middle, next.rate), next] + after)[1..] == [next] + after && ([next] + after)[1..] == after;
    ExtraSample(reached, middle, next.time, next.rate);
  }

  /** The sum of all steps, each at its own rate. */
  function Travelled(from: real, samples: seq<Sample>): real
    decreases |samples|
  {
    if samples == [] then 0.0
    else samples[0].rate * (samples[0].time - from) + Travelled(samples[0].time, samples[1..])
  }

  /** Every partial sum is a valid time. */
  predicate Unsaturated(a: Adjusted, samples: seq<Sample>)
    decreases |samples|
  {
    samples == [] ||
    (IsTime(Moved(a, samples[0].time, samples[0].rate)) &&
     Unsaturated(Adjusted(Moved(a, samples[0].time, samples[0].rate), samples[0].time), samples[1..]))
  }

  /** Without saturation the clock is its start plus rate times step, summed over all samples. */
  lemma {:induction false} ClockSumsSteps(a: Adjusted, samples: seq<Sample>)
    requires IsTime(a.current) && AllRates(samples) && Unsaturated(a, samples)
    ensures AdvanceAll(a, samples).current == a.current + Travelled(a.lastSeen, samples)
    decreases |samples|
  {
    if samples == [] {
    } else {
      AdvanceIsClamped(a, samples[0].time, samples[0].rate);
      ClockSumsSteps(Advance(a, samples[0].time, samples[0].rate), samples[1..]);
    }
  }

  /** Such a sample does not overflow either. */
  lemma UnsaturatedIsSafe(a: Adjusted, time: real, rate: real)
    requires IsTime(a.current) && IsRate(rate) && IsTime(Moved(a, time, rate))
    ensures !Overflows(a, time, rate)
  {
    if a.lastSeen < time {
      assert Moved(a, time, rate) == a.current + Scaled(time - a.lastSeen, rate);
    } else {
      ScaledSign(a.lastSeen - time, rate);
      assert time - a.lastSeen == -(a.lastSeen - time);
    }
  }

  // ----- The clock

  class AdjustableClock {
    /** The source time, once fetched. */
    var time: Option<real>
    var currentTime: real
    var lastSeenTime: real
    var rate: real

    ghost function Abstract(): Adjusted
      reads this
    {
      Adjusted(currentTime, lastSeenTime)
    }

    ghost predicate Valid()
      reads this
    {
      IsTime(currentTime) && IsTime(lastSeenTime) && IsRate(rate) && (time.Some? ==> IsTime(time.value))
    }

    constructor (start: real)
      requires IsTime(start)
      ensures Valid() && Abstract() == Adjusted(start, start) && rate == 1.0 && time == Some(start)
    {
      time, currentTime, lastSeenTime, rate := Some(start), start, start, 1.0;
    }

    method Clear()
      requires Valid()
      modifies this`time
      ensures Valid() && time == None
    {
      time := None;
    }

    method SetUnadjusted(t: real)
      requires Valid() && IsTime(t)
      modifies this`time
      ensures Valid() && time == Some(t)
    {
      time := Some(t);
    }

    method SetRate(r: real)
      requires Valid()
      modifies this`rate
      ensures Valid() && rate == Clamped(r, 0.0, MAX_RATE)
    {
      rate := Clamped(r, 0.0, MAX_RATE);
    }

    /** The source time, fetched from `monotonic` only if it was cleared. */
    method NowUnadjusted(monotonic: real) returns (t: real)
      requires Valid() && IsTime(monotonic)
      modifies this`time
      ensures Valid() && time == Some(t) && t == if old(time).Some? then old(time).value else monotonic
    {
      if time.None? {
        time := Some(monotonic);
      }
      t := time.value;
    }

    /** Once sampled, the clock stands still until the source time changes, whatever the rate. The result is
        `None` where scaling the step panics. */
    method Now(monotonic: real) returns (now: Option<real>)
      requires Valid() && IsTime(monotonic)
      modifies this`time, this`currentTime, this`lastSeenTime
      ensures Valid() && time.Some?
      ensures time.value == if old(time).Some? then old(time).value else monotonic
      ensures now == None <==> Overflows(old(Abstract()), time.value, rate)
      ensures now == None ==> Abstract() == old(Abstract())
      ensures now.Some? ==> Abstract() == Advance(old(Abstract()), time.value, rate) && now.value == currentTime
      ensures old(time) == Some(old(lastSeenTime)) ==> now == Some(old(currentTime))
    {
      var source := NowUnadjusted(monotonic);
      AdvanceIsTime(Abstract(), source, rate);
      if lastSeenTime == source {
        return Some(currentTime);
      }
      if lastSeenTime < source {
        var delta := Scaled(source - lastSeenTime, rate);
        if MAX < delta {
          return None;
        }
        currentTime := SaturatingAdd(currentTime, delta);
      } else {
        var delta := Scaled(lastSeenTime - source, rate);
        if MAX < delta {
          return None;
        }
        currentTime := SaturatingSub(currentTime, delta);
      }
      lastSeenTime := source;
      now := Some(currentTime);
    }
  }
}
