# Gear-position indicator: a Dafny model

This project models the logic of a motorcycle gear-position indicator for an AVR
microcontroller (`main.c`). Two Hall-effect sensors report lever movements up and down,
a sensor reports neutral, one button locks out the Hall sensors and another swaps their
meaning. A pin-change interrupt updates three globals: the gear `gBieg`, the lock flag
`gBlokada` and the reverse flag `gOdwrocony`. The foreground loop shows the gear on a
seven-segment display. A timer-overflow interrupt keeps a millisecond clock.

The model is in four modules:

- `GearBox` (`gearbox.dfy`): the gear domain `{1..6} ∪ {NEUTRAL}` with `MAX_GEAR = 6`
  and `NEUTRAL = 7`, and the shifts `biegGora` and `biegDol` as the functions `NextUp`
  and `NextDown`. Both are specified against `LeverRank`, the order in which a
  sequential gearbox lever passes the positions: 1, N, 2, 3, 4, 5, 6. Shifting down
  moves one position lower. Shifting up goes to the nearest engaged gear above, so it
  skips neutral when starting from 1.
- `Segments` (`segments.dfy`): `wyswietlacz` as `SegmentPattern`, a pure function that
  returns the byte written to `PORTD`. Its contract names the lit segments A..G of each
  glyph: the digits 1..6, an 'n' for neutral and an 'H' for any other value. These
  segment sets, with bit 7 clear, fix the exact byte for every input.
- `Indicator` (`indicator.dfy`): the pin-change handler as the function
  `Step(state, snapshot)`. The class `GearIndicator` holds the three globals as fields.
  Its methods `ShiftUp`, `ShiftDown` and `OnPinChange` follow the C statements,
  including the early `return`s, and are proved equal to `NextUp`, `NextDown` and
  `Step`. A snapshot is five booleans; each says whether that input is asserted, that
  is, whether its pin reads low.
- `OverflowTimer` (`timer.dfy`): the arithmetic of the timer-overflow handler and its
  macros. `F_CPU` is not defined in the source, so it is the parameter `fCpu`, from
  which `MicrosPerOverflow` derives `MICROSECONDS_PER_TIMER0_OVERFLOW`; the handler's
  arithmetic takes that period as its parameter. The 32-bit `unsigned long` counters wrap modulo 2^32. The `unsigned char` fraction wraps
  modulo 2^8. `Quantum` is the overflow period rounded down to a multiple of 8 us; each
  overflow adds exactly one `Quantum` to the clock.

Behaviour of the code that the model keeps as written:
- The reverse flag flips on every handler run that sees the reverse button asserted
  (level-sampled, no edge detection).
- The fallback glyph `0b01110110` lights segments B, C, E, F, G, which is an 'H', not
  an 'E'.
- `biegDol` decrements gears 3..6 (main.c:144).
- When locked, the early `return` after the hall-up check also skips the hall-down
  check; this has the same effect as gating hall-down on the lock, and `Step` is
  written that way.
- Both hall checks are independent, so one handler run can shift up and then down.

## Model

| member | source | states |
|---|---|---|
| `GearBox.NextUp` | main.c:135-139 | on the gear domain: stays in the domain, is a fixed point exactly at gear 6, and otherwise gives the nearest engaged gear above on the lever (so N→2, k→k+1 for k in 1..5) |
| `GearBox.NextDown` | main.c:141-146 | on the gear domain: stays in the domain, is a fixed point exactly at gear 1, and otherwise moves exactly one lever position down (so N→1, 2→N, k→k-1 for k in 3..6) |
| `GearBox.DownThenUp` | main.c:135-146 | a shift down then up returns to the start if and only if the start is 2..6 |
| `GearBox.UpThenDown` | main.c:135-146 | a shift up then down returns to the start if and only if the start is N or 2..5; from 1 it ends in N |
| `GearBox.UpTimesCapped` | main.c:135-139 | n shifts up from a valid gear give start+n capped at 6, where N counts as 1 once a shift happened |
| `Segments.SegmentPattern` | main.c:121-133 | the byte has bit 7 clear and lights exactly the segments of the glyph for the value: 1..6, 'n' for NEUTRAL, 'H' otherwise |
| `Segments.FallbackOutsideDomain` | main.c:131 | every value outside the gear domain gives the fallback byte 0b01110110 |
| `Segments.PatternsDistinct` | main.c:122-131 | a valid gear never shows the fallback, and two values with the same pattern are the same gear |
| `Indicator.Step` | main.c:180-209 | the lock flag equals the lock button; the reverse flag flips exactly when its button is asserted; the gear stays in the domain (or enters it via the neutral sensor); while locked, or with no hall input, only the neutral override changes the gear; unlocked, starting from the gear after the neutral override, hall-up alone gives `NextUp` (`NextDown` while reversed), hall-down alone gives `NextDown` (`NextUp` while reversed), and both give hall-up's shift followed by hall-down's |
| `Indicator.RunKeepsGearValid` | main.c:180-209 | any sequence of handler runs from a valid gear ends with a valid gear |
| `Indicator.InitialReachesOnlyValidGears` | main.c:55-57 | from the power-on values, every sequence of handler runs ends with a valid gear |
| `Indicator.RunLockFollowsLastEvent` | main.c:190-191 | after a non-empty sequence of runs the lock flag is the lock button level of the last snapshot |
| `Indicator.LockedRunHoldsGear` | main.c:198-208 | while every snapshot has the lock held and the neutral sensor off, no sequence of runs changes the gear |
| `Indicator.ReverseTwiceRestores` | main.c:195 | two runs that both see the reverse button restore the reverse flag |
| `Indicator.ReversalSwapsHallSensors` | main.c:200-208 | with one hall sensor asserted, reversed mode has the effect of the other sensor in normal mode; unlocked and reversed, hall-up alone gives `NextDown` and hall-down alone gives `NextUp` of the gear after the neutral override |
| `Indicator.NeutralOverridesPreviousGear` | main.c:198 | with the neutral sensor asserted, the result does not depend on the previous gear |
| `Indicator.RunHallUp` | main.c:200-203 | n runs of the hall-up-only snapshot, not reversed, are n shifts up and leave the reverse flag off |
| `Indicator.HeldHallUpShiftsEachEvent` | main.c:198-208 | holding hall-up for n runs advances the gear n times, capped at 6 (level-based, not edge-based) |
| `Indicator.AllSensorsForward` | main.c:198-208 | neutral, hall-up and hall-down together, unlocked and not reversed, end in N (N→2→N) |
| `Indicator.AllSensorsReversed` | main.c:198-208 | the same snapshot while reversed ends in 2 (N→1→2) |
| `Indicator.PowerOnScenario` | main.c:180-209 | from power-on: hall-up gives 2, again 3, hall-up while locked keeps 3, then reverse plus hall-down gives reversed and 4 |
| `Indicator.GearIndicator.constructor` | main.c:55-57 | the globals start as NEUTRAL, unlocked, not reversed |
| `Indicator.GearIndicator.ShiftUp` | main.c:135-139 | the gear becomes `NextUp` of the old gear; the flags are unchanged |
| `Indicator.GearIndicator.ShiftDown` | main.c:141-146 | the gear becomes `NextDown` of the old gear; the flags are unchanged |
| `Indicator.GearIndicator.OnPinChange` | main.c:180-209 | the new globals are `Step` of the old ones, early returns included, and a valid gear stays valid |
| `Indicator.GearIndicator.Refresh` | main.c:88-91 | the pattern shown is `SegmentPattern` of the current gear, and never the fallback while the gear is valid |
| `OverflowTimer.MicrosPerOverflow` | main.c:19-20 | the overflow period of 64·256 CPU cycles in microseconds, rounded down, with `F_CPU` taken in whole kHz |
| `OverflowTimer.MillisInc` | main.c:21 | `MILLIS_INC` is the whole milliseconds of the period |
| `OverflowTimer.FractInc` | main.c:22-23 | `FRACT_INC` is below `FRACT_MAX` = 125 |
| `OverflowTimer.Quantum` | main.c:19-23 | `1000*MILLIS_INC + 8*FRACT_INC` is the overflow period rounded down to a multiple of 8 us |
| `OverflowTimer.OverflowStep` | main.c:163-177 | the overflow count goes up by one modulo 2^32; from a normal clock the fraction stays below 125 and the milliseconds grow by `MILLIS_INC` or `MILLIS_INC+1` modulo 2^32 |
| `OverflowTimer.OverflowAdvancesByQuantum` | main.c:164-175 | from a normal clock one overflow adds exactly one `Quantum` of microseconds to milliseconds-plus-fraction |
| `OverflowTimer.FractionFits` | main.c:168 | from a normal clock the intermediate fraction is at most 255, so the `unsigned char` does not wrap |
| `OverflowTimer.ElapsedTime` | main.c:163-177 | after n overflows from zero, the milliseconds are n·Quantum/1000 modulo 2^32, the fraction is the rest in 8 us units, and the count is n modulo 2^32 |
| `OverflowTimer.Timer0Clock.constructor` | main.c:19-27 | the clock globals start at zero and the period is `MICROSECONDS_PER_TIMER0_OVERFLOW` of the given `F_CPU` |
| `OverflowTimer.Timer0Clock.OnOverflow` | main.c:163-177 | the new globals are `OverflowStep` of the old ones, and the clock stays normal |

## Left out

- Register setup in `main` (main.c:61-80) and `sei()`: hardware configuration with no logic.
- The startup animation `start`, `init`, `zeruj` and `wypelnij` (main.c:46-47, 100-119): cosmetic port writes and delays.
- The `_delay_ms(500)` of the foreground loop (main.c:88-91): timing is not modelled; `Refresh` is one pass of the loop.
- `millis()` (main.c:149-159): its content is the interrupts-off critical section around one read, which is concurrency.
- The empty `wait` stub (main.c:95-98): it does nothing.
- Reading `PINB` and the pull-up, active-low wiring: the handler takes an already decoded snapshot of asserted inputs.
- Preemption of the foreground loop by the handlers and atomic reads of shared globals: the model is sequential.
- The concrete `F_CPU`: it is not in the source, so it is a parameter (at least 1000, because the macros divide by `F_CPU / 1000`).
- `gBlokada` and `gOdwrocony` are C `int`s holding 0 or 1; they are booleans here, which is exact because the code only ever stores 0, 1 or their negation.
- Indicator.HeldHallUpShiftsEachEvent: stated for the unreversed mode only; the reversed mode follows from `ReversalSwapsHallSensors` one event at a time.
- OverflowTimer.ElapsedTime: stated for the power-on start (all zero); other start states are covered one step at a time by `OverflowAdvancesByQuantum`.
