/**
  The gear state machine of main.c: the three globals `gBieg`, `gBlokada` and
  `gOdwrocony` (main.c:55-57) and the pin-change handler `ISR(PCINT0_vect)`
  (main.c:180-209) that updates them from one reading of the five inputs.

  `Step` is the handler as a function on values; the class `GearIndicator` holds the
  globals as fields and runs the handler's statements, early returns included, and
  each of its methods is proved to agree with `Step` and the shifts of `GearBox`.
 */
module Indicator {
  import opened GearBox
  import Segments

  /**
    One reading of the inputs when the handler runs. Each field says whether that
    input is asserted (its pin reads low).
   */
  datatype Snapshot = Snapshot(
    lockButton: bool,   // LOCK_BUTTON, PB1
    reverseButton: bool, // REVERSE_BTN, PB3
    neutralSensor: bool, // LED_SENSOR, PB2
    hallUp: bool,       // HALL_SENSOR_UP, PB4
    hallDown: bool      // HALL_SENSOR_DOWN, PB5
  )

  /** The values of `gBieg`, `gBlokada` and `gOdwrocony`. */
  datatype GearState = GearState(gear: int, locked: bool, reversed: bool)

  /** The power-on values of the globals (main.c:55-57). */
  const INITIAL: GearState := GearState(NEUTRAL, false, false)

  /** A shift requested by a hall sensor: up or down, swapped while reversed. */
  function Shift(g: int, up: bool, reversed: bool): int {
    if up != reversed then NextUp(g) else NextDown(g)
  }

  /**
    One run of the handler, in the order of the source: the lock flag follows the lock
    button, the reverse flag flips if its button is asserted, the neutral sensor forces
    neutral, then hall-up and hall-down each apply a shift unless locked.
   */
  function Step(st: GearState, s: Snapshot): (r: GearState)
    ensures r.locked == s.lockButton
    ensures r.reversed == (st.reversed != s.reverseButton)
    ensures ValidGear(st.gear) || s.neutralSensor ==> ValidGear(r.gear)
    ensures s.lockButton || (!s.hallUp && !s.hallDown) ==>
              r.gear == (if s.neutralSensor then NEUTRAL else st.gear)
    ensures var g0 := if s.neutralSensor then NEUTRAL else st.gear;
            !s.lockButton && s.hallUp && !s.hallDown ==>
              r.gear == (if r.reversed then NextDown(g0) else NextUp(g0))
    ensures var g0 := if s.neutralSensor then NEUTRAL else st.gear;
            !s.lockButton && s.hallDown && !s.hallUp ==>
              r.gear == (if r.reversed then NextUp(g0) else NextDown(g0))
    ensures var g0 := if s.neutralSensor then NEUTRAL else st.gear;
            !s.lockButton && s.hallUp && s.hallDown ==>
              r.gear == (if r.reversed then NextUp(NextDown(g0)) else NextDown(NextUp(g0)))
  {
    var locked := s.lockButton;
    var reversed := st.reversed != s.reverseButton;
    var g0 := if s.neutralSensor then NEUTRAL else st.gear;
    var g1 := if s.hallUp && !locked then Shift(g0, true, reversed) else g0;
    var g2 := if s.hallDown && !locked then Shift(g1, false, reversed) else g1;
    GearState(g2, locked, reversed)
  }

  /** The handler run once per snapshot, in order. */
  function Run(st: GearState, events: seq<Snapshot>): GearState
    decreases |events|
  {
    if events == [] then st else Run(Step(st, events[0]), events[1..])
  }

  /** Every state reachable by handler runs keeps the gear in the gear domain. */
  lemma {:induction false} RunKeepsGearValid(st: GearState, events: seq<Snapshot>)
    requires ValidGear(st.gear)
    ensures ValidGear(Run(st, events).gear)
    decreases |events|
  {
    if events != [] {
      RunKeepsGearValid(Step(st, events[0]), events[1..]);
    }
  }

  /** From power-on, the gear is always in the gear domain. */
  lemma InitialReachesOnlyValidGears(events: seq<Snapshot>)
    ensures ValidGear(Run(INITIAL, events).gear)
  {
    RunKeepsGearValid(INITIAL, events);
  }

  /** After any non-empty run, the lock flag is the lock button's level in the last event. */
  lemma {:induction false} RunLockFollowsLastEvent(st: GearState, events: seq<Snapshot>)
    requires events != []
    ensures Run(st, events).locked == events[|events| - 1].lockButton
    decreases |events|
  {
    if |events| > 1 {
      RunLockFollowsLastEvent(Step(st, events[0]), events[1..]);
    }
  }

  /**
    While the lock button is held and the neutral sensor stays off, no number of
    hall events changes the gear.
   */
  lemma {:induction false} LockedRunHoldsGear(st: GearState, events: seq<Snapshot>)
    requires forall i :: 0 <= i < |events| ==> events[i].lockButton && !events[i].neutralSensor
    ensures Run(st, events).gear == st.gear
    decreases |events|
  {
    if events != [] {
      LockedRunHoldsGear(Step(st, events[0]), events[1..]);
    }
  }

  /** Two events with the reverse button asserted restore the reverse flag. */
  lemma ReverseTwiceRestores(st: GearState, s1: Snapshot, s2: Snapshot)
    requires s1.reverseButton && s2.reverseButton
    ensures Step(Step(st, s1), s2).reversed == st.reversed
  {
  }

  /**
    While reversed, a single hall sensor has the effect of the other one when not
    reversed: unlocked, hall-up shifts down and hall-down shifts up.
   */
  lemma ReversalSwapsHallSensors(st: GearState, s: Snapshot)
    requires !s.reverseButton && !(s.hallUp && s.hallDown)
    ensures Step(st.(reversed := true), s).gear
         == Step(st.(reversed := false), s.(hallUp := s.hallDown, hallDown := s.hallUp)).gear
    ensures var g0 := if s.neutralSensor then NEUTRAL else st.gear;
            !s.lockButton && s.hallUp ==> Step(st.(reversed := true), s).gear == NextDown(g0)
    ensures var g0 := if s.neutralSensor then NEUTRAL else st.gear;
            !s.lockButton && s.hallDown ==> Step(st.(reversed := true), s).gear == NextUp(g0)
  {
  }

  /**
    The neutral sensor wins over whatever gear was held: with it asserted the result
    depends only on the hall inputs and the flags, not on the previous gear.
   */
  lemma NeutralOverridesPreviousGear(st1: GearState, st2: GearState, s: Snapshot)
    requires s.neutralSensor && st1.reversed == st2.reversed
    ensures Step(st1, s) == Step(st2, s)
  {
  }

  /** The hall-up only snapshot, with the lock released and the reverse button idle. */
  const HALL_UP_ONLY: Snapshot := Snapshot(false, false, false, true, false)

  /** `n` copies of one snapshot. */
  function Repeat(s: Snapshot, n: nat): (r: seq<Snapshot>)
    ensures |r| == n
    ensures forall i :: 0 <= i < n ==> r[i] == s
  {
    if n == 0 then [] else [s] + Repeat(s, n - 1)
  }

  /**
    The handler is level-based: holding hall-up for `n` events, not reversed, shifts
    up `n` times, which stops at the top gear.
   */
  lemma HeldHallUpShiftsEachEvent(st: GearState, n: nat)
    requires !st.reversed && ValidGear(st.gear)
    ensures Run(st, Repeat(HALL_UP_ONLY, n)).gear
         == if n == 0 then st.gear else Min((if st.gear == NEUTRAL then 1 else st.gear) + n, MAX_GEAR)
    ensures !Run(st, Repeat(HALL_UP_ONLY, n)).reversed
  {
    RunHallUp(st, n);
    UpTimesCapped(st.gear, n);
  }

  /** Holding hall-up for `n` events, not reversed, is `n` shifts up. */
  lemma {:induction false} RunHallUp(st: GearState, n: nat)
    requires !st.reversed
    ensures Run(st, Repeat(HALL_UP_ONLY, n)).gear == UpTimes(st.gear, n)
    ensures !Run(st, Repeat(HALL_UP_ONLY, n)).reversed
    decreases n
  {
    if n > 0 {
      assert Repeat(HALL_UP_ONLY, n)[1..] == Repeat(HALL_UP_ONLY, n - 1);
      RunHallUp(Step(st, HALL_UP_ONLY), n - 1);
      UpTimesShift(st.gear, n - 1);
    }
  }

  /** Neutral, hall-up and hall-down together, unlocked and not reversed: N -> 2 -> N. */
  lemma AllSensorsForward(g: int)
    ensures Step(GearState(g, false, false), Snapshot(false, false, true, true, true)).gear == NEUTRAL
  {
  }

  /** The same inputs while reversed: N -> 1 -> 2. */
  lemma AllSensorsReversed(g: int)
    ensures Step(GearState(g, false, true), Snapshot(false, false, true, true, true)).gear == 2
  {
  }

  /**
    From power-on: hall-up twice gives 3; hall-up with the lock held keeps 3; then, with
    the lock released, the reverse button and hall-down together give reversed and 4.
   */
  lemma PowerOnScenario()
    ensures var s1 := Step(INITIAL, HALL_UP_ONLY);
            var s2 := Step(s1, HALL_UP_ONLY);
            var s3 := Step(s2, Snapshot(true, false, false, true, false));
            var s4 := Step(s3, Snapshot(false, true, false, false, true));
            s1.gear == 2 && s2.gear == 3 && s3 == GearState(3, true, false) && s4 == GearState(4, false, true)
  {
  }

  /** The globals `gBieg`, `gBlokada` and `gOdwrocony`, with the functions that change them. */
  class GearIndicator {
    var gear: int
    var locked: bool
    var reversed: bool

    ghost predicate Valid()
      reads this
    {
      ValidGear(gear)
    }

    function State(): GearState
      reads this
    {
      GearState(gear, locked, reversed)
    }

    /** The power-on values (main.c:55-57). */
    constructor ()
      ensures Valid() && State() == INITIAL
    {
      gear := NEUTRAL;
      locked := false;
      reversed := false;
    }

    /** `biegGora` (main.c:135-139). */
    method ShiftUp()
      modifies this
      ensures gear == NextUp(old(gear))
      ensures locked == old(locked) && reversed == old(reversed)
    {
      if gear == NEUTRAL {
        gear := 2;
      } else if gear < MAX_GEAR {
        gear := gear + 1;
      } else {
        return;
      }
    }

    /** `biegDol` (main.c:141-146). */
    method ShiftDown()
      modifies this
      ensures gear == NextDown(old(gear))
      ensures locked == old(locked) && reversed == old(reversed)
    {
      if gear == NEUTRAL {
        gear := 1;
      } else if gear == 2 {
        gear := NEUTRAL;
      } else if gear > 1 {
        gear := gear - 1;
      } else {
        return;
      }
    }

    /**
      The body of `ISR(PCINT0_vect)` (main.c:180-209). The early return when locked
      skips the hall-down check, which has the same effect as gating it on the lock.
     */
    method OnPinChange(s: Snapshot)
      modifies this
      ensures State() == Step(old(State()), s)
      ensures old(Valid()) ==> Valid()
    {
      locked := s.lockButton;
      if s.reverseButton {
        reversed := !reversed;
      }
      if s.neutralSensor {
        gear := NEUTRAL;
      }
      if s.hallUp {
        if !locked {
          if reversed { ShiftDown(); } else { ShiftUp(); }
        } else {
          return;
        }
      }
      if s.hallDown {
        if !locked {
          if reversed { ShiftUp(); } else { ShiftDown(); }
        } else {
          return;
        }
      }
    }

    /** One pass of the foreground loop (main.c:88-91) without the delay: the pattern shown. */
    method Refresh() returns (pattern: Segments.Byte)
      ensures pattern == Segments.SegmentPattern(gear)
      ensures Valid() ==> pattern != Segments.FALLBACK
    {
      pattern := Segments.SegmentPattern(gear);
      if Valid() {
        Segments.PatternsDistinct(gear, gear);
      }
    }
  }
}
