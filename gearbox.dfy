/**
  The gear domain of the indicator and the two single-step shifts `biegGora`
  (shift up) and `biegDol` (shift down) of main.c, as functions on the gear value.

  The gearbox is sequential: the lever passes 1, neutral, 2, 3, 4, 5, 6 in that
  order. `LeverRank` numbers those positions 0..6 and is the independent reference
  against which both shifts are specified.
 */
module GearBox {

  /** Number of engaged gears (main.c:33). */
  const MAX_GEAR: int := 6
  /** The neutral sentinel, one past the top gear (main.c:34). */
  const NEUTRAL: int := MAX_GEAR + 1

  /** An engaged gear 1..MAX_GEAR. */
  predicate Engaged(g: int) {
    1 <= g <= MAX_GEAR
  }

  /** The values the gear variable is meant to hold: an engaged gear or neutral. */
  predicate ValidGear(g: int) {
    Engaged(g) || g == NEUTRAL
  }

  /** Position of a gear along the lever's travel: 1 -> 0, neutral -> 1, k -> k for k in 2..6. */
  function LeverRank(g: int): (k: int)
    requires ValidGear(g)
    ensures 0 <= k <= MAX_GEAR
  {
    if g == 1 then 0 else if g == NEUTRAL then 1 else g
  }

  /**
    Distinct valid gears have distinct lever positions; this is why the rank
    conditions in the contracts of `NextUp` and `NextDown` fix a single result.
   */
  lemma LeverRankInjective(g: int, h: int)
    requires ValidGear(g) && ValidGear(h)
    ensures LeverRank(g) == LeverRank(h) ==> g == h
  {
  }

  /**
    Shift up (main.c:135-139): neutral goes to 2, a gear below the top goes one up,
    the top gear stays. On the valid domain this is "the nearest ENGAGED gear above
    on the lever, or stay at the top".
   */
  function NextUp(g: int): (r: int)
    ensures ValidGear(g) ==> ValidGear(r)
    ensures ValidGear(g) ==> (r == g <==> g == MAX_GEAR)
    ensures ValidGear(g) && g != MAX_GEAR ==> Engaged(r) && LeverRank(g) < LeverRank(r)
    ensures ValidGear(g) && g != MAX_GEAR ==>
              forall h :: Engaged(h) && LeverRank(g) < LeverRank(h) ==> LeverRank(r) <= LeverRank(h)
  {
    if g == NEUTRAL then 2
    else if g < MAX_GEAR then g + 1
    else g
  }

  /**
    Shift down (main.c:141-146): neutral goes to 1, 2 goes to neutral, a higher gear
    goes one down, 1 stays. On the valid domain this is "one lever position lower,
    or stay at the bottom".
   */
  function NextDown(g: int): (r: int)
    ensures ValidGear(g) ==> ValidGear(r)
    ensures ValidGear(g) ==> (r == g <==> g == 1)
    ensures ValidGear(g) && g != 1 ==> LeverRank(r) == LeverRank(g) - 1
  {
    if g == NEUTRAL then 1
    else if g == 2 then NEUTRAL
    else if g > 1 then g - 1
    else g
  }

  /** A shift down followed by a shift up returns to the start from every gear 2..6. */
  lemma DownThenUp(g: int)
    requires ValidGear(g)
    ensures NextUp(NextDown(g)) == g <==> 2 <= g <= MAX_GEAR
  {
  }

  /**
    A shift up followed by a shift down returns to the start from neutral and from 2..5;
    from 1 it lands in neutral, because shifting up from 1 skips the neutral position.
   */
  lemma UpThenDown(g: int)
    requires ValidGear(g)
    ensures NextDown(NextUp(g)) == g <==> g == NEUTRAL || 2 <= g < MAX_GEAR
    ensures NextDown(NextUp(1)) == NEUTRAL
  {
  }

  /** `n` shifts up in a row. */
  function UpTimes(g: int, n: nat): int {
    if n == 0 then g else NextUp(UpTimes(g, n - 1))
  }

  /** Shifting once and then `n` times is shifting `n` times and then once. */
  lemma {:induction false} UpTimesShift(g: int, n: nat)
    ensures UpTimes(NextUp(g), n) == UpTimes(g, n + 1)
  {
    if n > 0 {
      UpTimesShift(g, n - 1);
    }
  }

  function Min(a: int, b: int): int {
    if a <= b then a else b
  }

  /**
    `n` shifts up from a valid gear reach gear `start + n`, capped at the top gear,
    where neutral counts as gear 1 for the purpose of the count once one shift happened.
   */
  lemma {:induction false} UpTimesCapped(g: int, n: nat)
    requires ValidGear(g)
    ensures UpTimes(g, n) == if n == 0 then g else Min((if g == NEUTRAL then 1 else g) + n, MAX_GEAR)
  {
    if n > 0 {
      UpTimesCapped(g, n - 1);
    }
  }
}
