/** Prediction of the next presentation time of an output (`src/frame_clock.rs`), in nanoseconds. */
module FrameClock {
  import opened Options

  /** A known refresh interval; the constructor refuses zero and a second or more. */
  predicate IsInterval(i: nat) {
    0 < i < 1_000_000_000
  }

  /** `now` as used for the prediction: moved past the last presentation if the vblank came early. */
  function Adjusted(last: nat, interval: nat, now: nat): nat {
    if last < now then now
    else if now + interval < last then last + interval
    else now + interval
  }

  /** The number of whole intervals from the last presentation to the next refresh. */
  function Cycles(last: nat, interval: nat, now: nat): nat
    requires 0 < interval
    requires last <= now
  {
    (now - last) / interval + 1
  }

  lemma AdjustedIsLater(last: nat, interval: nat, now: nat)
    ensures last <= Adjusted(last, interval, now) && now <= Adjusted(last, interval, now)
  {}

  /** The prediction from a known interval and presentation. */
  function Predict(last: nat, interval: nat, vrr: bool, now: nat): nat
    requires 0 < interval
  {
    AdjustedIsLater(last, interval, now);
    var adjusted := Adjusted(last, interval, now);
    var toNext := Cycles(last, interval, adjusted) * interval;
    if vrr && toNext > interval then adjusted else last + toNext
  }

  // ----- Arithmetic of the refresh grid

  lemma GridPoint(last: nat, interval: nat, now: nat)
    requires 0 < interval && last <= now
    ensures var next := last + Cycles(last, interval, now) * interval; next - interval <= now < next
  {
    var q, r := (now - last) / interval, (now - last) % interval;
    assert now - last == q * interval + r;
    assert Cycles(last, interval, now) * interval == q * interval + interval;
  }

  lemma Multiples(a: nat, b: nat, interval: nat)
    ensures a <= b ==> a * interval <= b * interval
  {
    if a <= b {
      assert b * interval == a * interval + (b - a) * interval;
    }
  }

  /** With a fixed refresh rate the prediction is the least grid point strictly after the adjusted time. */
  lemma LeastGridPoint(last: nat, interval: nat, now: nat)
    requires 0 < interval
    ensures var k := Cycles(last, interval, Adjusted(last, interval, now));
            && 1 <= k && Predict(last, interval, false, now) == last + k * interval
            && Adjusted(last, interval, now) < last + k * interval
            && (forall j: nat :: Adjusted(last, interval, now) < last + j * interval ==> k <= j)
  {
    var adjusted := Adjusted(last, interval, now);
    GridPoint(last, interval, adjusted);
    var k := Cycles(last, interval, adjusted);
    forall j: nat | adjusted < last + j * interval
      ensures k <= j
    {
      if j < k {
        Multiples(j, k - 1, interval);
      }
    }
  }

  lemma ByCycles(last: nat, interval: nat, now: nat, k: nat)
    requires 0 < interval && 0 < k && last + (k - 1) * interval <= now < last + k * interval
    ensures Cycles(last, interval, now) == k
  {
    var c := Cycles(last, interval, now);
    GridPoint(last, interval, now);
    if c < k {
      Multiples(c, k - 1, interval);
    } else if k < c {
      Multiples(k, c - 1, interval);
    }
  }

  // ----- Where `now` lies relative to the last presentation

  /** More than one interval early, or exactly at the presentation. */
  predicate Skips(last: nat, interval: nat, now: nat) {
    now + interval < last || now == last
  }

  /** Within one interval of the presentation on either side, but not exactly at it. */
  predicate OnTime(last: nat, interval: nat, now: nat) {
    now != last && last <= now + interval && now < last + interval
  }

  /** The fixed-rate prediction, case by case: the refresh after the presentation is skipped when `now` is
      exactly the presentation time, although a nanosecond earlier or later it is not. */
  lemma FixedRateCases(last: nat, interval: nat, now: nat)
    requires 0 < interval
    ensures Skips(last, interval, now) ==> Predict(last, interval, false, now) == last + 2 * interval
    ensures OnTime(last, interval, now) ==> Predict(last, interval, false, now) == last + interval
    ensures last + interval <= now ==> last + 2 * interval <= Predict(last, interval, false, now)
  {
    var adjusted := Adjusted(last, interval, now);
    GridPoint(last, interval, adjusted);
    if Skips(last, interval, now) {
      assert adjusted == last + interval;
      ByCycles(last, interval, adjusted, 2);
    } else if OnTime(last, interval, now) {
      ByCycles(last, interval, adjusted, 1);
    } else {
      var c := Cycles(last, interval, now);
      if c < 2 {
        Multiples(c, 1, interval);
      } else {
        Multiples(2, c, interval);
      }
    }
  }

  /** After the presentation it is the first grid point after `now`. */
  lemma LateGridPoint(last: nat, interval: nat, now: nat) returns (k: nat)
    requires 0 < interval && last < now
    ensures Predict(last, interval, false, now) == last + k * interval
    ensures now < last + k * interval <= now + interval
  {
    GridPoint(last, interval, now);
    k := Cycles(last, interval, now);
  }

  lemma LateIsMonotone(last: nat, interval: nat, now: nat, later: nat)
    requires 0 < interval && last + interval <= now <= later
    ensures Predict(last, interval, false, now) <= Predict(last, interval, false, later)
  {
    GridPoint(last, interval, now);
    GridPoint(last, interval, later);
    var a, b := Cycles(last, interval, now), Cycles(last, interval, later);
    if b < a {
      Multiples(b, a - 1, interval);
    }
    Multiples(a, b, interval);
  }

  /** A later `now` gives an earlier prediction exactly when it moves from a skipping case to an on-time one. */
  lemma MonotoneIff(last: nat, interval: nat, now: nat, later: nat)
    requires 0 < interval && now <= later
    ensures Predict(last, interval, false, now) <= Predict(last, interval, false, later) <==>
            !(Skips(last, interval, now) && OnTime(last, interval, later))
  {
    FixedRateCases(last, interval, now);
    FixedRateCases(last, interval, later);
    if last + interval <= now {
      LateIsMonotone(last, interval, now, later);
    }
  }

  /** At the presentation time itself the prediction is a whole interval later than a nanosecond afterwards. */
  lemma LaterPredictsEarlier(last: nat, interval: nat)
    requires 1 < interval
    ensures Predict(last, interval, false, last) == last + 2 * interval
    ensures Predict(last, interval, false, last + 1) == last + interval
  {
    FixedRateCases(last, interval, last);
    FixedRateCases(last, interval, last + 1);
  }

  /** With a variable refresh rate the prediction is simply the later of `now` and one interval after the
      last presentation. */
  lemma VariableRateIsMax(last: nat, interval: nat, now: nat)
    requires 0 < interval
    ensures Predict(last, interval, true, now) == if last + interval <= now then now else last + interval
  {
    var adjusted := Adjusted(last, interval, now);
    GridPoint(last, interval, adjusted);
    if adjusted < last + interval {
      ByCycles(last, interval, adjusted, 1);
    } else {
      var c := Cycles(last, interval, adjusted);
      if c < 2 {
        Multiples(c, 1, interval);
      } else {
        Multiples(2, c, interval);
      }
    }
  }

  /** No prediction lies in the past or less than an interval after the last presentation. */
  lemma PredictionIsAhead(last: nat, interval: nat, vrr: bool, now: nat)
    requires 0 < interval
    ensures now <= Predict(last, interval, vrr, now) && last + interval <= Predict(last, interval, vrr, now)
  {
    if vrr {
      VariableRateIsMax(last, interval, now);
    } else {
      LeastGridPoint(last, interval, now);
      Multiples(1, Cycles(last, interval, Adjusted(last, interval, now)), interval);
    }
  }

  // ----- Runs

  /** The last presentation after a series of frames, each predicted at the given time and then presented
      as predicted. */
  function PresentAll(last: nat, interval: nat, vrr: bool, nows: seq<nat>): nat
    requires 0 < interval
    decreases |nows|
  {
    if nows == [] then last else PresentAll(Predict(last, interval, vrr, nows[0]), interval, vrr, nows[1..])
  }

  /** The refresh cycles a series of frames spans. */
  function TotalCycles(last: nat, interval: nat, nows: seq<nat>): nat
    requires 0 < interval
    decreases |nows|
  {
    if nows == [] then 0
    else
      AdjustedIsLater(last, interval, nows[0]);
      Cycles(last, interval, Adjusted(last, interval, nows[0])) +
      TotalCycles(Predict(last, interval, false, nows[0]), interval, nows[1..])
  }

  lemma Distribute(a: nat, b: nat, interval: nat)
    ensures (a + b) * interval == a * interval + b * interval
  {}

  /** At a fixed rate the phase never drifts: every presentation stays on the grid of the first one, and
      each frame takes at least one interval. */
  lemma {:induction false} PhaseNeverDrifts(last: nat, interval: nat, nows: seq<nat>)
    requires 0 < interval
    ensures PresentAll(last, interval, false, nows) == last + TotalCycles(last, interval, nows) * interval
    ensures |nows| <= TotalCycles(last, interval, nows)
    decreases |nows|
  {
    if nows == [] {
    } else {
      AdjustedIsLater(last, interval, nows[0]);
      var next := Predict(last, interval, false, nows[0]);
      PhaseNeverDrifts(next, interval, nows[1..]);
      Distribute(Cycles(last, interval, Adjusted(last, interval, nows[0])), TotalCycles(next, interval, nows[1..]), interval);
    }
  }

  // ----- The clock

  class FrameClock {
    var lastPresentationTime: Option<nat>
    const refreshIntervalNs: Option<nat>
    var vrr: bool

    predicate Valid() {
      refreshIntervalNs.Some? ==> IsInterval(refreshIntervalNs.value)
    }

    constructor (refreshInterval: Option<nat>, vrr: bool)
      requires refreshInterval.Some? ==> IsInterval(refreshInterval.value)
      ensures Valid() && refreshIntervalNs == refreshInterval && this.vrr == vrr && lastPresentationTime == None
    {
      lastPresentationTime, refreshIntervalNs, this.vrr := None, refreshInterval, vrr;
    }

    /** A change of mode forgets the presentation, since the grid no longer applies. */
    method SetVrr(vrr: bool)
      modifies this
      ensures this.vrr == vrr
      ensures lastPresentationTime == if old(this.vrr) == vrr then old(lastPresentationTime) else None
    {
      if this.vrr == vrr {
        return;
      }
      this.vrr := vrr;
      lastPresentationTime := None;
    }

    /** Presentations at an unknown time, reported as zero, are ignored. */
    method Presented(time: nat)
      modifies this`lastPresentationTime
      ensures lastPresentationTime == if time == 0 then old(lastPresentationTime) else Some(time)
    {
      if time == 0 {
        return;
      }
      lastPresentationTime := Some(time);
    }

    method NextPresentationTime(monotonicNow: nat) returns (time: nat)
      requires Valid()
      ensures refreshIntervalNs.None? || lastPresentationTime.None? ==> time == monotonicNow
      ensures refreshIntervalNs.Some? && lastPresentationTime.Some? ==>
                time == Predict(lastPresentationTime.value, refreshIntervalNs.value, vrr, monotonicNow)
      ensures monotonicNow <= time
    {
      var now := monotonicNow;
      if refreshIntervalNs.None? || lastPresentationTime.None? {
        return now;
      }
      var interval, last := refreshIntervalNs.value, lastPresentationTime.value;
      PredictionIsAhead(last, interval, vrr, now);
      if now <= last {
        now := now + interval;
        if now < last {
          now := last + interval;
        }
      }
      var sinceLast := now - last;
      var toNext := (sinceLast / interval + 1) * interval;
      if vrr && toNext > interval {
        time := now;
      } else {
        time := last + toNext;
      }
    }
  }
}
