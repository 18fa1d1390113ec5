/** Severity flags and the visibility mask of the logger (`Logger::Level`, `visLevel`). */
module Levels {

  /** A value of the unscoped enum `Logger::Level`. Its enumerators are the bits 1, 2 and 4,
      so the values the enum can hold are those of a three-bit field, 0 to 7. */
  type Level = b: bv16 | b < 8

  const INFO: Level := 1
  const WARNING: Level := 2
  const ERROR: Level := 4

  /** The bit pattern of the `short visLevel` field: bit `l` set means rows of level `l` are drawn. */
  type Mask = bv16

  /** The mask the logger starts with: all three levels visible. */
  const ALL_VISIBLE: Mask := 7

  /** The three enumerators of `Logger::Level`. */
  predicate IsNamed(l: Level) {
    l == INFO || l == WARNING || l == ERROR
  }

  /** The test `visLevel & level` that decides whether a row is drawn. */
  predicate IsVisible(mask: Mask, l: Level) {
    mask & l != 0
  }

  /** The enumerators are single, distinct bits and together make up the initial mask. */
  lemma LevelsAreDistinctBits()
    ensures INFO & WARNING == 0 && INFO & ERROR == 0 && WARNING & ERROR == 0
    ensures INFO | WARNING | ERROR == ALL_VISIBLE
    ensures IsVisible(ALL_VISIBLE, INFO) && IsVisible(ALL_VISIBLE, WARNING) && IsVisible(ALL_VISIBLE, ERROR)
  {}

  /** `levelToStr`: the label drawn in the level column. */
  function LevelToStr(l: Level): (r: string)
    ensures r == "" <==> !IsNamed(l)
    ensures r != "" ==> r[0] == (if l == INFO then 'I' else if l == WARNING then 'W' else 'E')
  {
    if l == INFO then "INFO"
    else if l == WARNING then "WARNING"
    else if l == ERROR then "ERROR"
    else ""
  }

  /** Distinct levels never share a non-empty label, so the label identifies the level. */
  lemma LevelToStrInjective(a: Level, b: Level)
    requires LevelToStr(a) == LevelToStr(b) != ""
    ensures a == b
  {}

  /** The mask after `setLevel(l)`: if some bit of `l` is visible, every bit of `l` is cleared,
      otherwise every bit of `l` is set. */
  function Toggled(mask: Mask, l: Level): Mask {
    if mask & l != 0 then mask & !(l as Mask) else mask | l
  }

  /** Clearing or setting the bits of `bits` leaves every bit outside `bits` as it was. */
  lemma ClearOrSetKeepsOthers(mask: Mask, bits: Mask)
    ensures (mask & !bits) & !bits == mask & !bits
    ensures (mask | bits) & !bits == mask & !bits
  {}

  /** The toggle never changes a bit outside the level. */
  lemma ToggledKeepsOtherBits(mask: Mask, l: Level)
    ensures Toggled(mask, l) & !(l as Mask) == mask & !(l as Mask)
  {
    ClearOrSetKeepsOthers(mask, l);
  }

  /** For a single bit, clearing it when set and setting it when clear is an exclusive or. */
  lemma SingleBitToggleIsXor(mask: Mask, bit: Mask)
    requires bit != 0 && bit & (bit - 1) == 0
    ensures mask & bit != 0 ==> mask & !bit == mask ^ bit
    ensures mask & bit == 0 ==> mask | bit == mask ^ bit
  {}

  /** Toggling a non-zero level flips whether that level is visible. */
  lemma ToggledFlipsVisibility(mask: Mask, l: Level)
    requires l != 0
    ensures IsVisible(Toggled(mask, l), l) <==> !IsVisible(mask, l)
  {}

  /** For one of the three levels, toggling is an exclusive or with that level's bit:
      exactly that bit flips and every other bit stays. */
  lemma ToggledIsXor(mask: Mask, l: Level)
    requires IsNamed(l)
    ensures Toggled(mask, l) == mask ^ l
  {
    SingleBitToggleIsXor(mask, l);
  }

  /** Toggling the same level twice restores the mask. */
  lemma ToggledTwiceRestores(mask: Mask, l: Level)
    requires IsNamed(l)
    ensures Toggled(Toggled(mask, l), l) == mask
  {
    ToggledIsXor(mask, l);
    ToggledIsXor(mask ^ l, l);
  }

  /** Toggling one level never changes whether another level is visible. */
  lemma ToggledLeavesOtherLevels(mask: Mask, l: Level, other: Level)
    requires IsNamed(l) && IsNamed(other) && l != other
    ensures IsVisible(Toggled(mask, l), other) == IsVisible(mask, other)
  {
    ToggledIsXor(mask, l);
  }
}
