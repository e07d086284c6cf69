/**
 The jitter controller of `ortp-0.13.1/src/jitterctl.c` (compare section 6.4.1 and appendix A.8 of
 RFC 3550). Averages are reals; single-precision rounding is not modelled.
 */
module Jitter {
  import opened Numerals

  const BETA := 0.03
  const Q := 1.0 - BETA

  // ----- timestamp differences -----

  const M32 := 0x1_0000_0000

  /** A difference of 32-bit timestamps read as a signed int. */
  function Diff(packetTs: int, curTs: int): (d: int)
    ensures -0x8000_0000 <= d < 0x8000_0000
  {
    (packetTs - curTs + 0x8000_0000) % M32 - 0x8000_0000
  }

  /** For true timestamps within half the circle of each other it is their difference, sign and all. */
  lemma DiffTrue(packet: int, current: int)
    requires -0x8000_0000 <= packet - current < 0x8000_0000
    ensures Diff(packet % M32, current % M32) == packet - current
  {
    var x, y := packet / M32, current / M32;
    assert packet % M32 - current % M32 == packet - current - (x - y) * M32;
    ModShift(packet - current + 0x8000_0000, x - y);
  }

  /** Moving both timestamps by the same amount, across the wrap or not, changes nothing. */
  lemma DiffShift(a: int, b: int, k: int)
    ensures Diff((a + k) % M32, (b + k) % M32) == Diff(a, b)
  {
    var x, y := (a + k) / M32, (b + k) / M32;
    assert (a + k) % M32 - (b + k) % M32 == a - b - (x - y) * M32;
    ModShift(a - b + 0x8000_0000, x - y);
  }

  lemma ModShift(n: int, k: int)
    ensures (n - k * M32) % M32 == n % M32
  {
    var q := n / M32;
    assert n - k * M32 == (q - k) * M32 + n % M32;
  }

  // ----- the averages -----

  datatype Estimate = Estimate(slide: real, jitter: real, interJitter: real, oldDiff: int)

  function AbsReal(x: real): (r: real)
    ensures r >= 0.0 && r >= x && r >= -x && (r == x || r == -x)
  {
    if x < 0.0 then -x else x
  }

  function AbsInt(x: int): nat {
    if x < 0 then -x else x
  }

  /** An exponential average taking in one more value. */
  function Smooth(average: real, value: real): real {
    average * (1.0 - BETA) + value * BETA
  }

  /** One packet's worth of averaging. */
  function Update(e: Estimate, diff: int): Estimate {
    var slide := Smooth(e.slide, diff as real);
    var gap := AbsReal(diff as real - slide);
    var jitter := Smooth(e.jitter, gap);
    var d := diff - e.oldDiff;
    Estimate(slide, jitter, e.interJitter + (AbsInt(d) as real - e.interJitter) * (1.0 / 16.0), diff)
  }

  function Updates(e: Estimate, diffs: seq<int>): Estimate {
    if diffs == [] then e else Update(Updates(e, diffs[..|diffs| - 1]), diffs[|diffs| - 1])
  }

  /** Every average stays within what the differences allow. */
  ghost predicate Within(e: Estimate, bound: int) {
    && AbsReal(e.slide) <= bound as real
    && 0.0 <= e.jitter <= 2.0 * bound as real
    && 0.0 <= e.interJitter <= 2.0 * bound as real
    && AbsInt(e.oldDiff) <= bound
  }

  lemma UpdateWithin(e: Estimate, diff: int, bound: int)
    requires Within(e, bound) && AbsInt(diff) <= bound
    ensures Within(Update(e, diff), bound)
  {
    assert -bound as real <= diff as real <= bound as real;
  }

  /** Over any run of differences bounded by D. */
  lemma {:induction false} RunWithin(e: Estimate, diffs: seq<int>, bound: int)
    requires Within(e, bound) && forall i | 0 <= i < |diffs| :: AbsInt(diffs[i]) <= bound
    ensures Within(Updates(e, diffs), bound)
  {
    if diffs != [] {
      var last := |diffs| - 1;
      RunWithin(e, diffs[..last], bound);
      UpdateWithin(Updates(e, diffs[..last]), diffs[last], bound);
    }
  }

  function PowQ(n: nat): real {
    if n == 0 then 1.0 else Q * PowQ(n - 1)
  }

  lemma {:induction false} PowQRange(n: nat)
    ensures 0.0 < PowQ(n) <= 1.0
  {
    if n > 0 {
      PowQRange(n - 1);
    }
  }

  function Repeat(c: int, n: nat): (r: seq<int>)
    ensures |r| == n
  {
    if n == 0 then [] else Repeat(c, n - 1) + [c]
  }

  /** Slide, jitter and gap after n packets of difference c, where p = q^n. */
  function SlideForm(c: real, p: real): real {
    c * (1.0 - p)
  }

  function JitterForm(n: real, p: real, c: real): real {
    n * BETA * p * AbsReal(c)
  }

  function GapForm(p: real, c: real): real {
    p * AbsReal(c)
  }

  /** slide = c(1 - q^n), jitter = n beta q^n |c|. */
  ghost predicate ClosedForms(e: Estimate, c: int, n: nat) {
    e.slide == SlideForm(c as real, PowQ(n)) && e.jitter == JitterForm(n as real, PowQ(n), c as real)
  }

  /** n packets with the same difference c, from rest. */
  lemma {:induction false} ConstantDifference(e: Estimate, c: int, n: nat)
    requires e.slide == 0.0 && e.jitter == 0.0
    ensures ClosedForms(Updates(e, Repeat(c, n)), c, n)
  {
    if n > 0 {
      hide Update, ClosedForms;
      ConstantDifference(e, c, n - 1);
      var cs := Repeat(c, n);
      assert cs[..n - 1] == Repeat(c, n - 1) && cs[n - 1] == c;
      OneMore(Updates(e, Repeat(c, n - 1)), c, n - 1);
    }
  }

  lemma OneMore(e: Estimate, c: int, n: nat)
    requires ClosedForms(e, c, n)
    ensures ClosedForms(Update(e, c), c, n + 1)
  {
    hide Smooth, AbsReal, SlideForm, JitterForm, GapForm;
    var x, p := c as real, PowQ(n);
    PowQRange(n);
    SlideStep(x, p);
    GapStep(x, Q * p);
    JitterStep(n as real, p, x);
    assert PowQ(n + 1) == Q * p && (n + 1) as real == n as real + 1.0;
  }

  lemma SlideStep(x: real, p: real)
    ensures Smooth(SlideForm(x, p), x) == SlideForm(x, Q * p)
  {
    assert x * (1.0 - p) == x - x * p;
    assert x * (1.0 - Q * p) == x - Q * (x * p);
  }

  lemma GapStep(x: real, p: real)
    requires p >= 0.0
    ensures AbsReal(x - SlideForm(x, p)) == GapForm(p, x)
  {
    assert x * (1.0 - p) == x - x * p;
    assert x >= 0.0 ==> x * p >= 0.0;
    assert x < 0.0 ==> x * p <= 0.0;
  }

  lemma JitterStep(n: real, p: real, x: real)
    ensures Smooth(JitterForm(n, p, x), GapForm(Q * p, x)) == JitterForm(n + 1.0, Q * p, x)
  {
    var a := AbsReal(x);
    var b := p * a;
    assert n * BETA * p * a == n * BETA * b;
    assert Q * p * a == Q * b;
    assert (n + 1.0) * BETA * (Q * p) * a == (n + 1.0) * BETA * (Q * b);
  }

  // ----- the controller -----

  /** Conversion of a double to an int: toward zero. */
  function Trunc(x: real): (t: int)
    ensures x >= 0.0 ==> t as real <= x < t as real + 1.0
    ensures x <= 0.0 ==> t as real - 1.0 < x <= t as real
  {
    if x >= 0.0 then x.Floor else -((-x).Floor)
  }

  /** Integer division of non-negative operands. */
  function CorrectiveStep(clockRate: int): int
    requires clockRate > 0
  {
    (160 * 8000) / clockRate
  }

  /** The controller's fields as a value. */
  datatype Control = Control(jittComp: int, jittCompTs: int, adaptJittCompTs: int, estimate: Estimate, count: int,
                             correctiveStep: int, correctiveSlide: int, adaptive: bool)

  /** Milliseconds in timestamp units. */
  function CompensationTs(jittComp: int, clockRate: int): int {
    Trunc(jittComp as real / 1000.0 * clockRate as real)
  }

  /** The configured milliseconds last `jittComp * clockRate / 1000` timestamp units, rounded toward zero. */
  lemma CompensationExactly(jittComp: int, clockRate: int)
    requires clockRate > 0
    ensures var ts := CompensationTs(jittComp, clockRate);
      && (jittComp >= 0 ==> ts * 1000 <= jittComp * clockRate < (ts + 1) * 1000)
      && (jittComp <= 0 ==> (ts - 1) * 1000 < jittComp * clockRate <= ts * 1000)
  {
    var x := jittComp as real / 1000.0 * clockRate as real;
    var n := jittComp * clockRate;
    assert x * 1000.0 == n as real by {
      assert jittComp as real * clockRate as real == n as real;
    }
    SignOfProduct(jittComp, clockRate);
  }

  lemma SignOfProduct(a: int, b: int)
    requires b > 0
    ensures a >= 0 ==> a * b >= 0
    ensures a <= 0 ==> a * b <= 0
  {
  }

  /** The corrective step is the number of whole clock periods in 160 * 8000. */
  lemma CorrectiveStepExactly(clockRate: int)
    requires clockRate > 0
    ensures CorrectiveStep(clockRate) * clockRate <= 160 * 8000 < (CorrectiveStep(clockRate) + 1) * clockRate
  {
  }

  function AfterPayload(c: Control, clockRate: int): Control
    requires clockRate > 0
  {
    var ts := CompensationTs(c.jittComp, clockRate);
    c.(jittCompTs := ts, adaptJittCompTs := ts, correctiveStep := CorrectiveStep(clockRate))
  }

  function AfterPacket(c: Control, diff: int): Control {
    var e := Update(c.estimate, diff);
    c.(estimate := e, count := c.count + 1,
       adaptJittCompTs := if c.adaptive then SafeDelay(true, c.jittCompTs, e.jitter) else c.adaptJittCompTs)
  }

  class JitterControl {
    var jittComp: int
    var jittCompTs: int
    var adaptJittCompTs: int
    var slide: real
    var jitter: real
    var count: int
    var oldDiff: int
    var interJitter: real
    var correctiveStep: int
    var correctiveSlide: int
    var adaptive: bool

    function State(): Control
      reads this
    {
      Control(jittComp, jittCompTs, adaptJittCompTs, Estimate(slide, jitter, interJitter, oldDiff), count,
              correctiveStep, correctiveSlide, adaptive)
    }

    /** Zeroed storage. */
    constructor ()
      ensures State() == Control(0, 0, 0, Estimate(0.0, 0.0, 0.0, 0), 0, 0, 0, false)
    {
      jittComp, jittCompTs, adaptJittCompTs, slide, jitter, count := 0, 0, 0, 0.0, 0.0, 0;
      oldDiff, interJitter, correctiveStep, correctiveSlide, adaptive := 0, 0.0, 0, 0, false;
    }

    /** base -1 keeps the configured time; no payload keeps the clock-dependent fields. */
    method Init(baseJittTime: int, clockRate: Option<int>)
      requires clockRate.Some? ==> clockRate.value > 0
      modifies this
      ensures var c := old(State());
              var c1 := if baseJittTime != -1 then c.(jittComp := baseJittTime) else c;
              var c2 := if clockRate.Some? then AfterPayload(c1, clockRate.value) else c1;
              State() == c2.(estimate := Estimate(0.0, 0.0, 0.0, c.estimate.oldDiff), count := 0,
                             adaptJittCompTs := c2.jittCompTs, correctiveSlide := 0)
    {
      hide CompensationTs, CorrectiveStep;
      count := 0;
      slide := 0.0;
      jitter := 0.0;
      interJitter := 0.0;
      if baseJittTime != -1 {
        jittComp := baseJittTime;
      }
      if clockRate.Some? {
        SetPayload(clockRate.value);
      }
      adaptJittCompTs := jittCompTs;
      correctiveSlide := 0;
    }

    method SetPayload(clockRate: int)
      requires clockRate > 0
      modifies this
      ensures State() == AfterPayload(old(State()), clockRate)
      ensures jittComp >= 0 ==> jittCompTs * 1000 <= jittComp * clockRate < (jittCompTs + 1) * 1000
      ensures jittComp <= 0 ==> (jittCompTs - 1) * 1000 < jittComp * clockRate <= jittCompTs * 1000
      ensures correctiveStep * clockRate <= 160 * 8000 < (correctiveStep + 1) * clockRate
    {
      hide CompensationTs;
      CompensationExactly(jittComp, clockRate);
      CorrectiveStepExactly(clockRate);
      jittCompTs := CompensationTs(jittComp, clockRate);
      correctiveStep := (160 * 8000) / clockRate;
      adaptJittCompTs := jittCompTs;
    }

    method NewPacket(packetTs: int, curStrTs: int) returns (slideOut: int, safeDelay: int)
      modifies this
      ensures State() == AfterPacket(old(State()), Diff(packetTs, curStrTs))
      ensures var d := Diff(packetTs, curStrTs);
        && slide == 0.97 * old(slide) + 0.03 * d as real
        && jitter == 0.97 * old(jitter) + 0.03 * AbsReal(d as real - slide)
        && interJitter == old(interJitter) + (AbsInt(d - old(oldDiff)) as real - old(interJitter)) / 16.0
      ensures slideOut == if adaptive then Trunc(slide) else 0
      ensures safeDelay == SafeDelay(adaptive, jittCompTs, jitter)
    {
      var diff := Diff(packetTs, curStrTs);
      count := count + 1;
      slide := slide * (1.0 - BETA) + diff as real * BETA;
      var gap := AbsReal(diff as real - slide);
      jitter := jitter * (1.0 - BETA) + gap * BETA;
      var d := diff - oldDiff;
      interJitter := interJitter + (AbsInt(d) as real - interJitter) * (1.0 / 16.0);
      oldDiff := diff;
      if adaptive {
        adaptJittCompTs := Trunc(if jittCompTs as real > jitter then jittCompTs as real else jitter);
        slideOut := Trunc(slide);
        safeDelay := adaptJittCompTs;
      } else {
        slideOut := 0;
        safeDelay := jittCompTs;
      }
    }

    method UpdateCorrectiveSlide()
      modifies this
      ensures State() == old(State()).(correctiveSlide := Corrected(Trunc(slide), correctiveStep, old(correctiveSlide)))
    {
      var tmp := Trunc(slide) - correctiveSlide;
      if tmp > correctiveStep {
        correctiveSlide := correctiveSlide + correctiveStep;
      } else if tmp < -correctiveStep {
        correctiveSlide := correctiveSlide - correctiveStep;
      }
    }
  }

  /** The delay a packet is given: the configured one, or the jitter when that is larger. */
  function SafeDelay(adaptive: bool, jittCompTs: int, jitter: real): int {
    if adaptive then Trunc(if jittCompTs as real > jitter then jittCompTs as real else jitter) else jittCompTs
  }

  /** It is never below the configured compensation, and within one unit of the larger of the two. */
  lemma SafeDelayBounds(adaptive: bool, jittCompTs: int, jitter: real)
    requires jitter >= 0.0
    ensures SafeDelay(adaptive, jittCompTs, jitter) >= jittCompTs
    ensures adaptive ==> SafeDelay(adaptive, jittCompTs, jitter) as real + 1.0 > jitter
    ensures SafeDelay(adaptive, jittCompTs, jitter) > jittCompTs ==> SafeDelay(adaptive, jittCompTs, jitter) as real <= jitter
  {
  }

  /** Over any run with differences bounded by D the delay stays between the compensation and max(compensation, 2D). */
  lemma SafeDelayOverRun(e: Estimate, diffs: seq<int>, bound: int, jittCompTs: int)
    requires Within(e, bound) && forall i | 0 <= i < |diffs| :: AbsInt(diffs[i]) <= bound
    ensures var s := SafeDelay(true, jittCompTs, Updates(e, diffs).jitter);
            jittCompTs <= s && (s <= jittCompTs || s <= 2 * bound)
  {
    RunWithin(e, diffs, bound);
    var j := Updates(e, diffs).jitter;
    SafeDelayBounds(true, jittCompTs, j);
    var s := SafeDelay(true, jittCompTs, j);
    if s > jittCompTs {
      assert s as real <= (2 * bound) as real;
    }
  }

  // ----- the corrective slide -----

  function Corrected(target: int, step: int, current: int): int {
    if target - current > step then current + step
    else if target - current < -step then current - step
    else current
  }

  function CorrectedTimes(target: int, step: int, current: int, n: nat): int {
    if n == 0 then current else Corrected(target, step, CorrectedTimes(target, step, current, n - 1))
  }

  /** Repeated correction never overshoots: it closes in by a step at a time until within one step. */
  lemma {:induction false} CorrectionCloses(target: int, step: int, current: int, n: nat)
    requires step >= 0
    ensures var d, d' := AbsInt(target - current), AbsInt(target - CorrectedTimes(target, step, current, n));
            if d <= step then d' == d
            else d' == d - n * step || (d' <= step && d' <= d)
  {
    if n > 0 {
      CorrectionCloses(target, step, current, n - 1);
      assert n * step == (n - 1) * step + step;
    }
  }

  /** A step toward each slide in turn, as it moves from packet to packet. */
  function CorrectedAlong(targets: seq<int>, step: int, current: int): int
    decreases |targets|
  {
    if targets == [] then current else CorrectedAlong(targets[1..], step, Corrected(targets[0], step, current))
  }

  /** How far x is outside lo..hi. */
  function Beyond(lo: int, hi: int, x: int): int {
    if x < lo then lo - x else if x > hi then x - hi else 0
  }

  /**
   While the slide moves about inside lo..hi, the corrective slide closes in on that range by a step
   at a time, and then stays within one step of it.
   */
  lemma {:induction false} CorrectionTracks(targets: seq<int>, step: int, current: int, lo: int, hi: int)
    requires step >= 0 && lo <= hi && forall i | 0 <= i < |targets| :: lo <= targets[i] <= hi
    ensures var was, became := Beyond(lo, hi, current), Beyond(lo, hi, CorrectedAlong(targets, step, current));
      became <= step || became <= was - |targets| * step
    decreases |targets|
  {
    if targets != [] {
      CorrectionTracks(targets[1..], step, Corrected(targets[0], step, current), lo, hi);
      assert |targets| * step == |targets[1..]| * step + step;
      assert |targets[1..]| * step >= 0;
    }
  }
}
