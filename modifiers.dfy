/**
 * The modifier mask handed to the mode handler with every key press
 * (a `uint32_t` in the source). The bit values of Zep's ModifierKey
 * constants are not part of this model; the model only relies on Ctrl,
 * Alt and Shift being three distinct single bits.
 */
module Modifiers {

  type Mask = bv32

  const NoModifier: Mask := 0
  const Ctrl: Mask := 1
  const Alt: Mask := 2
  const Shift: Mask := 4

  /**
   * The mask for one frame's host flags: each flag decides its own bit, and
   * no other bit is ever set.
   */
  function MaskOf(ctrl: bool, alt: bool, shift: bool): (m: Mask)
    ensures (m & Ctrl != 0) == ctrl
    ensures (m & Alt != 0) == alt
    ensures (m & Shift != 0) == shift
    ensures m & !(Ctrl | Alt | Shift) == 0
    ensures m == NoModifier <==> !ctrl && !alt && !shift
  {
    (if ctrl then Ctrl else NoModifier) | (if alt then Alt else NoModifier) | (if shift then Shift else NoModifier)
  }

  /** Different host flags never give the same mask. */
  lemma MaskOfInjective(c1: bool, a1: bool, s1: bool, c2: bool, a2: bool, s2: bool)
    requires MaskOf(c1, a1, s1) == MaskOf(c2, a2, s2)
    ensures c1 == c2 && a1 == a2 && s1 == s2
  {
  }
}
