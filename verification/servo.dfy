/**
 The servo sweep of `src/nodejs/servo/basic/index.js`: once a second the
 interval callback writes the current pulse width to the servo, adds the
 increment, and turns the increment around at either end of the range.
 The model is the callback's state change; the writes are collected in a
 sequence instead of going to the motor.
 */
module Servo {

  const MIN_PULSE := 1000
  const MAX_PULSE := 2000
  const STEP := 100

  /** The two globals the callback updates. */
  datatype Sweep = Sweep(pulseWidth: int, increment: int)

  /** The values the script starts with. */
  const Initial := Sweep(MIN_PULSE, STEP)

  /** One run of the interval callback: the width it writes and the state it leaves. */
  datatype Tick = Tick(written: int, next: Sweep)

  /** The callback. The increment is turned to -100 when the new width has
      reached 2000, to +100 when it has come down to 1000, and is otherwise
      left as it was. */
  function Step(s: Sweep): (t: Tick)
    ensures t.written == s.pulseWidth
    ensures t.next.pulseWidth == s.pulseWidth + s.increment
    ensures t.next.pulseWidth >= MAX_PULSE ==> t.next.increment == -STEP
    ensures MIN_PULSE < t.next.pulseWidth < MAX_PULSE ==> t.next.increment == s.increment
    ensures t.next.pulseWidth <= MIN_PULSE ==> t.next.increment == STEP
  {
    var width := s.pulseWidth + s.increment;
    var increment :=
      if width >= MAX_PULSE then -STEP
      else if width <= MIN_PULSE then STEP
      else s.increment;
    Tick(s.pulseWidth, Sweep(width, increment))
  }

  /** The states the callback can be in: the width is a multiple of 100
      between 1000 and 2000, the increment is 100 or -100, and at either end
      it points back into the range. */
  predicate Valid(s: Sweep)
  {
    && MIN_PULSE <= s.pulseWidth <= MAX_PULSE
    && s.pulseWidth % STEP == 0
    && (s.increment == STEP || s.increment == -STEP)
    && (s.pulseWidth == MAX_PULSE ==> s.increment == -STEP)
    && (s.pulseWidth == MIN_PULSE ==> s.increment == STEP)
  }

  /** Every state the callback reaches from a valid one is valid, and the
      width it writes lies in the servo's range. */
  lemma StepValid(s: Sweep)
    requires Valid(s)
    ensures Valid(Step(s).next)
    ensures MIN_PULSE <= Step(s).written <= MAX_PULSE
  {
  }

  lemma InitialValid()
    ensures Valid(Initial)
  {
  }

  /** The state after `count` callbacks; from a valid state the width never
      leaves the servo's range. */
  function After(s: Sweep, count: nat): (r: Sweep)
    ensures Valid(s) ==> MIN_PULSE <= r.pulseWidth <= MAX_PULSE
    decreases count
  {
    if count == 0 then s else After(Step(s).next, count - 1)
  }

  /** The validity of the state is kept however many callbacks run. */
  lemma {:induction false} AfterValid(s: Sweep, count: nat)
    requires Valid(s)
    ensures Valid(After(s, count))
    decreases count
  {
    if count > 0 {
      StepValid(s);
      AfterValid(Step(s).next, count - 1);
    }
  }

  /** The reference sweep: a triangle wave of period 20 that climbs from
      1000 to 2000 in steps of 100 and comes back down. */
  function Triangle(k: nat): (w: int)
    ensures MIN_PULSE <= w <= MAX_PULSE && w % STEP == 0
  {
    var m := k % 20;
    if m <= 10 then MIN_PULSE + STEP * m else 3000 - STEP * m
  }

  /** The direction the reference sweep is moving in at step k. */
  function Heading(k: nat): int
  {
    if k % 20 < 10 then STEP else -STEP
  }

  /** One callback moves the reference state one step along the wave. */
  lemma StepFollowsTriangle(k: nat)
    ensures Step(Sweep(Triangle(k), Heading(k))).next == Sweep(Triangle(k + 1), Heading(k + 1))
  {
    var m := k % 20;
    if m == 19 {
      assert (k + 1) % 20 == 0;
    } else {
      assert (k + 1) % 20 == m + 1;
    }
  }

  /** After k callbacks from the start the state is step k of the wave. */
  lemma {:induction false} AfterIsTriangle(k: nat)
    ensures After(Initial, k) == Sweep(Triangle(k), Heading(k))
  {
    if k > 0 {
      AfterIsTriangle(k - 1);
      StepFollowsTriangle(k - 1);
      AfterStep(Initial, k - 1);
    }
  }

  /** Running one more callback at the end. */
  lemma {:induction false} AfterStep(s: Sweep, count: nat)
    ensures After(s, count + 1) == Step(After(s, count)).next
    decreases count
  {
    if count > 0 {
      AfterStep(Step(s).next, count - 1);
    }
  }

  /** The wave repeats every 20 steps. */
  lemma TrianglePeriodic(k: nat)
    ensures Triangle(k + 20) == Triangle(k)
  {
    assert (k + 20) % 20 == k % 20;
  }

  /** From the start, the callback's state repeats every 20 runs. */
  lemma SweepPeriodic(k: nat)
    ensures After(Initial, k + 20) == After(Initial, k)
  {
    AfterIsTriangle(k);
    AfterIsTriangle(k + 20);
    TrianglePeriodic(k);
    assert (k + 20) % 20 == k % 20;
  }

  /** The first `count` widths written to the servo, in order. */
  method Run(count: nat) returns (written: seq<int>)
    ensures |written| == count
    ensures forall i :: 0 <= i < count ==> written[i] == Triangle(i)
    ensures forall i :: 0 <= i < count ==> MIN_PULSE <= written[i] <= MAX_PULSE
  {
    var s := Initial;
    written := [];
    var i := 0;
    while i < count
      invariant 0 <= i <= count
      invariant |written| == i
      invariant s == Sweep(Triangle(i), Heading(i))
      invariant forall j :: 0 <= j < i ==> written[j] == Triangle(j)
    {
      var t := Step(s);
      StepFollowsTriangle(i);
      written := written + [t.written];
      s := t.next;
      i := i + 1;
    }
  }
}
