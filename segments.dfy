/**
  The seven-segment encoder `wyswietlacz` (main.c:121-133) as a pure function from
  the gear value to the byte written to the display port. Port bit k drives segment
  A + k (PD0..PD6 = SEG_A..SEG_G, main.c:8-10); bit 7 is not a segment.
 */
module Segments {
  import opened GearBox

  type Byte = x: int | 0 <= x < 0x100

  datatype Segment = A | B | C | D | E | F | G

  /** The port bit of a segment, as a power of two. */
  function Weight(s: Segment): (w: nat)
    ensures 1 <= w <= 64
  {
    match s
    case A => 1
    case B => 2
    case C => 4
    case D => 8
    case E => 16
    case F => 32
    case G => 64
  }

  /** Whether pattern `p` lights segment `s`. */
  predicate Lit(p: Byte, s: Segment) {
    (p / Weight(s)) % 2 == 1
  }

  /** The pattern shown for any value outside the gear domain (an 'H'). */
  const FALLBACK: Byte := 0x76  // 0b01110110

  /**
    The segments of the glyph shown for a value, in the usual seven-segment shapes:
    the digits 1..6, a lower-case 'n' for neutral and an 'H' for anything else.
   */
  function Glyph(g: int): set<Segment> {
    if g == 1 then {B, C}
    else if g == 2 then {A, B, D, E, G}
    else if g == 3 then {A, B, C, D, G}
    else if g == 4 then {B, C, F, G}
    else if g == 5 then {A, C, D, F, G}
    else if g == 6 then {A, C, D, E, F, G}
    else if g == NEUTRAL then {C, E, G}
    else {B, C, E, F, G}
  }

  /**
    The byte `wyswietlacz` writes for a value: it lights exactly the segments of the
    value's glyph and leaves bit 7 clear; values outside the gear domain get the
    fallback glyph.
   */
  function SegmentPattern(g: int): (p: Byte)
    ensures p < 0x80
    ensures forall s: Segment :: Lit(p, s) <==> s in Glyph(g)
  {
    if g == NEUTRAL then 0x54  // 0b01010100
    else if g == 1 then 0x06  // 0b00000110
    else if g == 2 then 0x5B  // 0b01011011
    else if g == 3 then 0x4F  // 0b01001111
    else if g == 4 then 0x66  // 0b01100110
    else if g == 5 then 0x6D  // 0b01101101
    else if g == 6 then 0x7D  // 0b01111101
    else FALLBACK
  }

  /** Every value outside the gear domain shows the same fallback pattern. */
  lemma FallbackOutsideDomain(g: int)
    requires !ValidGear(g)
    ensures SegmentPattern(g) == FALLBACK
  {
  }

  /**
    The display is unambiguous: distinct gears get distinct patterns, and no gear
    shares its pattern with the fallback.
   */
  lemma PatternsDistinct(g: int, h: int)
    requires ValidGear(g)
    ensures SegmentPattern(g) != FALLBACK
    ensures SegmentPattern(g) == SegmentPattern(h) ==> g == h
  {
    if SegmentPattern(g) == SegmentPattern(h) {
      assert forall s: Segment :: s in Glyph(g) <==> s in Glyph(h);
    }
  }
}
