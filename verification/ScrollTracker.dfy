/** Conversion of scroll amounts to ticks (`src/input/scroll_tracker.rs`), over the reals. */
module ScrollTracker {

  /** `as i16`: rounding toward zero. */
  function Trunc(x: real): int {
    if 0.0 <= x then x.Floor else -(-x).Floor
  }

  /** Integer division rounding toward zero. */
  function Quotient(a: int, b: int): int
    requires 0 < b
  {
    if 0 <= a then a / b else -(-a / b)
  }

  /** The floating-point remainder of `x` by a positive whole number. */
  function Remainder(x: real, tick: int): real
    requires 0 < tick
  {
    x - (tick * Quotient(Trunc(x), tick)) as real
  }

  function Abs(x: real): real {
    if 0.0 <= x then x else -x
  }

  function Clamp(x: real, bound: real): real {
    if x < -bound then -bound else if bound < x then bound else x
  }

  datatype Tracker = Tracker(tick: int, last: real, acc: real)

  predicate Valid(t: Tracker) {
    0 < t.tick <= 127 && Abs(t.acc) < t.tick as real
  }

  predicate ChangesDirection(t: Tracker, amount: real) {
    (t.last > 0.0 && amount < 0.0) || (t.last < 0.0 && amount > 0.0)
  }

  /** What has accumulated with the new amount, before any tick is taken out. */
  function Total(t: Tracker, amount: real): real {
    (if ChangesDirection(t, amount) then 0.0 else t.acc) + amount
  }

  /** What stays accumulated of a total, and the ticks taken out of it. */
  function Take(total: real, tick: int): (real, int)
    requires 0 < tick
  {
    if Abs(total) >= tick as real
    then (Remainder(total, tick), Quotient(Trunc(Clamp(total, 127.0 * tick as real)), tick))
    else (total, 0)
  }

  function Accumulate(t: Tracker, amount: real): (Tracker, int)
    requires Valid(t)
  {
    var (acc, ticks) := Take(Total(t, amount), t.tick);
    (t.(last := amount, acc := acc), ticks)
  }

  // ----- Arithmetic

  lemma {:induction false} LessTicks(tick: int, a: int, b: int)
    requires 0 < tick && a < b
    ensures tick * a + tick <= tick * b
    decreases b - a
  {
    assert tick * b == tick * (b - 1) + tick;
    if a == b - 1 {
    } else {
      LessTicks(tick, a, b - 1);
    }
  }

  lemma Ordered(tick: int, a: int, b: int)
    requires 0 < tick
    ensures a <= b <==> tick * a <= tick * b
  {
    if a < b {
      LessTicks(tick, a, b);
    } else if b < a {
      LessTicks(tick, b, a);
    }
  }

  /** `q` ticks fit into the non-negative `x`, and no more. */
  predicate Fits(x: real, tick: int, q: int) {
    (tick * q) as real <= x < (tick * (q + 1)) as real
  }

  lemma FitsUnique(x: real, tick: int, q: int, q': int)
    requires 0 < tick && Fits(x, tick, q) && Fits(x, tick, q')
    ensures q == q'
  {
    Ordered(tick, q + 1, q');
    Ordered(tick, q' + 1, q);
  }

  /** The remainder of a non-negative amount takes out exactly the ticks that fit. */
  lemma PositivePart(x: real, tick: int)
    requires 0.0 <= x && 0 < tick
    ensures Fits(x, tick, Quotient(Trunc(x), tick))
    ensures 0.0 <= Remainder(x, tick) < tick as real && 0 <= Quotient(Trunc(x), tick)
  {
    var n := x.Floor;
    var q, r := n / tick, n % tick;
    assert n == tick * q + r;
    assert tick * (q + 1) == tick * q + tick;
  }

  lemma QuotientMirrored(a: int, tick: int)
    requires 0 < tick
    ensures Quotient(-a, tick) == -Quotient(a, tick)
  {}

  lemma TicksMirrored(x: real, tick: int, q: int)
    ensures -x - (tick * -q) as real == -(x - (tick * q) as real)
  {
    assert tick * -q == -(tick * q);
  }

  /** Negation commutes with everything, so negative amounts mirror positive ones. */
  lemma Mirrored(x: real, tick: int)
    requires 0 < tick
    ensures Quotient(Trunc(-x), tick) == -Quotient(Trunc(x), tick)
    ensures Remainder(-x, tick) == -Remainder(x, tick)
  {
    QuotientMirrored(Trunc(x), tick);
    TicksMirrored(x, tick, Quotient(Trunc(x), tick));
  }

  // ----- One event

  /** For a non-negative total: ticks and remainder never exceed the total, and give it back exactly below 128
      ticks. */
  lemma PositiveTotal(x: real, tick: int)
    requires 0.0 <= x && 0 < tick
    ensures var q := Quotient(Trunc(Clamp(x, 127.0 * tick as real)), tick);
            && 0 <= q <= 127
            && (tick * q) as real + Remainder(x, tick) <= x
            && ((tick * q) as real + Remainder(x, tick) == x <==> x < 128.0 * tick as real)
  {
    FullTicks(x, tick, 127);
    FullTicks(x, tick, 126);
    AtBound(tick);
    PositivePart(x, tick);
    var full := Quotient(Trunc(x), tick);
    if 127.0 * tick as real < x {
      Cancel(x, tick, 127, full);
      Ordered(tick, 127, full);
    }
  }

  /** At most `k` ticks fit exactly below `k + 1` ticks. */
  lemma FullTicks(x: real, tick: int, k: int)
    requires 0.0 <= x && 0 < tick
    ensures Quotient(Trunc(x), tick) <= k <==> x < (k + 1) as real * tick as real
  {
    PositivePart(x, tick);
    var full := Quotient(Trunc(x), tick);
    Ordered(tick, full + 1, k + 1);
    Ordered(tick, k + 1, full);
    assert (tick * (k + 1)) as real == (k + 1) as real * tick as real;
  }

  lemma Cancel(x: real, tick: int, a: int, b: int)
    requires 0 < tick
    ensures (tick * a) as real + (x - (tick * b) as real) == x <==> a == b
  {
    Ordered(tick, a, b);
    Ordered(tick, b, a);
  }

  lemma AtBound(tick: int)
    requires 0 < tick
    ensures Quotient(Trunc(127.0 * tick as real), tick) == 127
  {
    var bound := (tick * 127) as real;
    PositivePart(bound, tick);
    assert tick * 127 < tick * 128;
    FitsUnique(bound, tick, Quotient(Trunc(bound), tick), 127);
  }

  lemma NegativeTotal(x: real, tick: int)
    requires x < 0.0 && 0 < tick
    ensures -(tick as real) < Remainder(x, tick) <= 0.0
    ensures var q := Quotient(Trunc(Clamp(x, 127.0 * tick as real)), tick);
            && -127 <= q <= 0
            && ((tick * q) as real + Remainder(x, tick) == x <==> -x < 128.0 * tick as real)
  {
    PositiveTotal(-x, tick);
    PositivePart(-x, tick);
    Mirrored(-x, tick);
    var clamped := Clamp(-x, 127.0 * tick as real);
    assert Clamp(x, 127.0 * tick as real) == -clamped;
    Mirrored(clamped, tick);
    var q := Quotient(Trunc(clamped), tick);
    assert tick * -q == -(tick * q);
  }

  /** The remainder stays below one tick, at most 127 ticks are reported, they never oppose the amount, and
      nothing is lost exactly when the total is below 128 ticks. */
  lemma AccumulateEffect(t: Tracker, amount: real)
    requires Valid(t)
    ensures var (t', ticks) := Accumulate(t, amount);
            && Valid(t') && t'.tick == t.tick && t'.last == amount
            && -127 <= ticks <= 127
            && (ticks > 0 ==> amount > 0.0) && (ticks < 0 ==> amount < 0.0)
            && ((t.tick * ticks) as real + t'.acc == Total(t, amount) <==> Abs(Total(t, amount)) < 128.0 * t.tick as real)
  {
    var total := Total(t, amount);
    if Abs(total) >= t.tick as real {
      if 0.0 <= total {
        PositiveTotal(total, t.tick);
        PositivePart(total, t.tick);
      } else {
        NegativeTotal(total, t.tick);
      }
    }
  }

  /** A reversal forgets what was accumulated: the event counts as the first one. Otherwise it adds up. */
  lemma ReversalStartsAfresh(t: Tracker, amount: real)
    requires Valid(t)
    ensures (t.last > 0.0 && amount < 0.0) || (t.last < 0.0 && amount > 0.0) ==>
              Accumulate(t, amount) == Accumulate(Tracker(t.tick, 0.0, 0.0), amount)
    ensures !(t.last > 0.0 && amount < 0.0) && !(t.last < 0.0 && amount > 0.0) ==>
              var (t', ticks) := Accumulate(t, amount);
              (t.tick * ticks) as real + t'.acc == t.acc + amount <==> Abs(t.acc + amount) < 128.0 * t.tick as real
  {
    AccumulateEffect(t, amount);
  }

  // ----- Whole scrolls

  function Sum(amounts: seq<real>): real {
    if amounts == [] then 0.0 else amounts[0] + Sum(amounts[1..])
  }

  /** The tracker after a scroll, and all ticks it reported. */
  function AccumulateAll(t: Tracker, amounts: seq<real>): (r: (Tracker, int))
    requires Valid(t)
    ensures Valid(r.0) && r.0.tick == t.tick
    decreases |amounts|
  {
    if amounts == [] then (t, 0)
    else
      AccumulateEffect(t, amounts[0]);
      var (t1, ticks) := Accumulate(t, amounts[0]);
      var (t2, more) := AccumulateAll(t1, amounts[1..]);
      (t2, ticks + more)
  }

  /** No event reverses the direction. */
  predicate Unreversed(t: Tracker, amounts: seq<real>)
    requires Valid(t)
    decreases |amounts|
  {
    if amounts == [] then true
    else
      AccumulateEffect(t, amounts[0]);
      !ChangesDirection(t, amounts[0]) && Unreversed(Accumulate(t, amounts[0]).0, amounts[1..])
  }

  /** At no event 128 ticks or more have accumulated. */
  predicate Unsaturated(t: Tracker, amounts: seq<real>)
    requires Valid(t)
    decreases |amounts|
  {
    if amounts == [] then true
    else
      AccumulateEffect(t, amounts[0]);
      Abs(Total(t, amounts[0])) < 128.0 * t.tick as real && Unsaturated(Accumulate(t, amounts[0]).0, amounts[1..])
  }

  lemma Distribute(tick: int, a: int, b: int)
    ensures (tick * (a + b)) as real == (tick * a) as real + (tick * b) as real
  {
    assert tick * (a + b) == tick * a + tick * b;
  }

  /** Without reversal and saturation, ticks and what stays accumulated make up exactly the distance scrolled. */
  lemma {:induction false} ScrollConserved(t: Tracker, amounts: seq<real>)
    requires Valid(t) && Unreversed(t, amounts) && Unsaturated(t, amounts)
    ensures var (t', ticks) := AccumulateAll(t, amounts);
            (t.tick * ticks) as real + t'.acc == t.acc + Sum(amounts)
    decreases |amounts|
  {
    if amounts == [] {
    } else {
      AccumulateEffect(t, amounts[0]);
      var (t1, ticks) := Accumulate(t, amounts[0]);
      ScrollConserved(t1, amounts[1..]);
      Distribute(t.tick, ticks, AccumulateAll(t1, amounts[1..]).1);
    }
  }

  /** A forward scroll that continues a forward one. */
  predicate Onward(t: Tracker, amounts: seq<real>) {
    0.0 <= t.acc && 0.0 <= t.last && forall i :: 0 <= i < |amounts| ==> 0.0 <= amounts[i]
  }

  /** One forward event never gives out more than came in, and exactly as much below 128 ticks. */
  lemma ForwardEvent(t: Tracker, amount: real)
    requires Valid(t) && 0.0 <= t.acc && 0.0 <= t.last && 0.0 <= amount
    ensures !ChangesDirection(t, amount)
    ensures var (t', ticks) := Accumulate(t, amount);
            && 0.0 <= t'.acc
            && (t.tick * ticks) as real + t'.acc <= t.acc + amount
            && ((t.tick * ticks) as real + t'.acc == t.acc + amount <==>
                Abs(Total(t, amount)) < 128.0 * t.tick as real)
  {
    AccumulateEffect(t, amount);
    var total := Total(t, amount);
    if Abs(total) >= t.tick as real {
      PositivePart(total, t.tick);
      PositiveTotal(total, t.tick);
    }
  }

  /** A forward scroll never gives out more than came in, and the exact distance if and only if no event
      saturates. */
  lemma {:induction false} ForwardConservedIff(t: Tracker, amounts: seq<real>)
    requires Valid(t) && Onward(t, amounts)
    ensures var (t', ticks) := AccumulateAll(t, amounts);
            && 0.0 <= t'.acc
            && (t.tick * ticks) as real + t'.acc <= t.acc + Sum(amounts)
            && ((t.tick * ticks) as real + t'.acc == t.acc + Sum(amounts) <==> Unsaturated(t, amounts))
    decreases |amounts|
  {
    if amounts == [] {
    } else {
      AccumulateEffect(t, amounts[0]);
      ForwardEvent(t, amounts[0]);
      var (t1, ticks) := Accumulate(t, amounts[0]);
      ForwardConservedIff(t1, amounts[1..]);
      Distribute(t.tick, ticks, AccumulateAll(t1, amounts[1..]).1);
    }
  }

  /** Over an unsaturated forward scroll the ticks are exactly those that fit into the distance. */
  lemma ForwardTicks(t: Tracker, amounts: seq<real>)
    requires Valid(t) && Onward(t, amounts) && Unsaturated(t, amounts)
    ensures Fits(t.acc + Sum(amounts), t.tick, AccumulateAll(t, amounts).1)
  {
    ForwardConservedIff(t, amounts);
    Distribute(t.tick, AccumulateAll(t, amounts).1, 1);
  }

  function Mirror(t: Tracker): Tracker {
    t.(last := -t.last, acc := -t.acc)
  }

  /** Scrolling the other way mirrors everything. */
  lemma AccumulateMirrored(t: Tracker, amount: real)
    requires Valid(t)
    ensures Valid(Mirror(t))
    ensures var (t', ticks) := Accumulate(t, amount); Accumulate(Mirror(t), -amount) == (Mirror(t'), -ticks)
  {
    assert Total(Mirror(t), -amount) == -Total(t, amount);
    TakeMirrored(Total(t, amount), t.tick);
  }

  lemma TakeMirrored(total: real, tick: int)
    requires 0 < tick
    ensures var (acc, ticks) := Take(total, tick); Take(-total, tick) == (-acc, -ticks)
  {
    var clamped := Clamp(total, 127.0 * tick as real);
    assert Clamp(-total, 127.0 * tick as real) == -clamped;
    Mirrored(total, tick);
    Mirrored(clamped, tick);
  }

  // ----- Splitting a scroll

  /** A backward scroll that continues a backward one. */
  predicate Back(t: Tracker, amounts: seq<real>) {
    t.acc <= 0.0 && t.last <= 0.0 && forall i :: 0 <= i < |amounts| ==> amounts[i] <= 0.0
  }

  lemma BackEvent(t: Tracker, amount: real)
    requires Valid(t) && Back(t, [amount])
    ensures !ChangesDirection(t, amount) && Accumulate(t, amount).0.acc <= 0.0
  {
    assert [amount][0] <= 0.0;
    var total := Total(t, amount);
    if Abs(total) >= t.tick as real {
      NegativeTotal(total, t.tick);
    }
  }

  lemma {:induction false} BackRests(t: Tracker, amounts: seq<real>)
    requires Valid(t) && Back(t, amounts)
    ensures Unreversed(t, amounts) && AccumulateAll(t, amounts).0.acc <= 0.0
    decreases |amounts|
  {
    if amounts == [] {
    } else {
      AccumulateEffect(t, amounts[0]);
      BackEvent(t, amounts[0]);
      BackRests(Accumulate(t, amounts[0]).0, amounts[1..]);
    }
  }

  /** Ticks and a rest on the same side determine the ticks. */
  lemma SameTicks(tick: int, q: int, r: real, q': int, r': real)
    requires 0 < tick && Abs(r) < tick as real && Abs(r') < tick as real
    requires (tick * q) as real + r == (tick * q') as real + r'
    requires (0.0 <= r && 0.0 <= r') || (r <= 0.0 && r' <= 0.0)
    ensures q == q'
  {
    if q < q' {
      LessTicks(tick, q, q');
    } else if q' < q {
      LessTicks(tick, q', q);
    }
  }

  /** However an unsaturated scroll in one direction is split into events, the same number of ticks comes out. */
  lemma SplittingDoesNotMatter(t: Tracker, a: seq<real>, b: seq<real>)
    requires Valid(t) && Sum(a) == Sum(b) && Unsaturated(t, a) && Unsaturated(t, b)
    requires (Onward(t, a) && Onward(t, b)) || (Back(t, a) && Back(t, b))
    ensures AccumulateAll(t, a).1 == AccumulateAll(t, b).1
  {
    if Onward(t, a) && Onward(t, b) {
      ForwardConservedIff(t, a);
      ForwardConservedIff(t, b);
    } else {
      BackRests(t, a);
      BackRests(t, b);
      ScrollConserved(t, a);
      ScrollConserved(t, b);
    }
    var (ta, qa) := AccumulateAll(t, a);
    var (tb, qb) := AccumulateAll(t, b);
    SameTicks(t.tick, qa, ta.acc, qb, tb.acc);
  }

  // ----- The tracker

  class ScrollTracker {
    const tick: int
    var last: real
    var acc: real

    function Abstract(): Tracker
      reads this
    {
      Tracker(tick, last, acc)
    }

    /** Any tick can be constructed with, but accumulating divides by it and needs it positive. */
    constructor (tick: int)
      requires -128 <= tick <= 127
      ensures Abstract() == Tracker(tick, 0.0, 0.0) && (Valid(Abstract()) <==> 0 < tick)
    {
      this.tick, last, acc := tick, 0.0, 0.0;
    }

    method AccumulateAmount(amount: real) returns (ticks: int)
      requires Valid(Abstract())
      modifies this
      ensures Valid(Abstract()) && (Abstract(), ticks) == Accumulate(old(Abstract()), amount)
    {
      AccumulateEffect(Abstract(), amount);
      if (last > 0.0 && amount < 0.0) || (last < 0.0 && amount > 0.0) {
        acc := 0.0;
      }
      last := amount;
      acc := acc + amount;
      ticks := 0;
      if Abs(acc) >= tick as real {
        var clamped := Clamp(acc, 127.0 * tick as real);
        ticks := Quotient(Trunc(clamped), tick);
        acc := Remainder(acc, tick);
      }
    }

    method Reset()
      modifies this
      ensures Abstract() == Tracker(tick, 0.0, 0.0) && (old(Valid(Abstract())) ==> Valid(Abstract()))
    {
      last, acc := 0.0, 0.0;
    }
  }
}
