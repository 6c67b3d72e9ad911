/** The nesting counter `DINGUS_LEVEL` that every loaded environment carries (`set_dingus_level`). */
module Nesting {
  import opened Wrappers
  import opened Decimal

  /** Variable name to value, as loaded from a config file. */
  type VariableMap = map<string, string>

  const LevelKey: string := "DINGUS_LEVEL"

  /** The level of a shell not started by the loader, and the step between nested ones. */
  const DefaultLevel: nat := 1

  /**
   * The level as the source computes it: the inherited value parsed as a `u32`, plus one,
   * in `u32` arithmetic. At `u32::MAX` the sum wraps to 0 in a release build (a debug build
   * panics instead); this model takes the release behaviour.
   */
  function LevelAsWritten(inherited: Option<string>): (level: nat)
    ensures level <= U32Max
  {
    match inherited
    case None => DefaultLevel
    case Some(v) =>
      match ParseU32(v)
      case None => DefaultLevel
      case Some(current) => (current + DefaultLevel) % (U32Max + 1)
  }

  /**
   * The level of a new environment: one more than the inherited level when that parses
   * as a `u32`, and 1 when it is absent or does not parse. Unlike the source it does not
   * wrap: the level after `u32::MAX` is `u32::MAX + 1`.
   */
  function Level(inherited: Option<string>): (level: nat)
    ensures level >= DefaultLevel
  {
    match inherited
    case None => DefaultLevel
    case Some(v) =>
      match ParseU32(v)
      case None => DefaultLevel
      case Some(current) => current + DefaultLevel
  }

  /**
   * `set_dingus_level`: the map with `DINGUS_LEVEL` set to the decimal level, replacing
   * any value the file gave it; every other entry is kept as it was.
   */
  method SetDingusLevel(variables: VariableMap, inherited: Option<string>) returns (updated: VariableMap)
    ensures LevelKey in updated && updated[LevelKey] == NatToString(Level(inherited))
    ensures updated.Keys == variables.Keys + {LevelKey}
    ensures forall k :: k in variables && k != LevelKey ==> updated[k] == variables[k]
  {
    var level := Level(inherited);
    updated := variables[LevelKey := NatToString(level)];
  }

  /** The three cases: a parsed level N gives N + 1, an absent or unparsable one gives 1. */
  lemma LevelCases(inherited: Option<string>)
    ensures inherited.None? ==> Level(inherited) == 1
    ensures inherited.Some? && ParseU32(inherited.value).None? ==> Level(inherited) == 1
    ensures inherited.Some? && ParseU32(inherited.value).Some? ==>
      Level(inherited) == ParseU32(inherited.value).value + 1
  {
  }

  /**
   * A shell started inside a loaded environment inherits the level written there, and the
   * environment it loads in turn is exactly one level deeper.
   */
  lemma NestedLevelIsOneDeeper(inherited: Option<string>)
    requires Level(inherited) <= U32Max
    ensures Level(Some(NatToString(Level(inherited)))) == Level(inherited) + 1
  {
    ParseU32OfNatToString(Level(inherited));
  }

  /** Below `u32::MAX` the source's arithmetic and the intended count agree. */
  lemma AsWrittenAgreesBelowMax(inherited: Option<string>)
    requires inherited.Some? ==> ParseU32(inherited.value) != Some(U32Max)
    ensures LevelAsWritten(inherited) == Level(inherited)
  {
  }

  /** An inherited `u32::MAX` makes the source's level wrap to 0, below every real level. */
  lemma AsWrittenWrapsAtMax()
    ensures LevelAsWritten(Some(NatToString(U32Max))) == 0
    ensures Level(Some(NatToString(U32Max))) == U32Max + 1
  {
    ParseU32OfNatToString(U32Max);
  }

  /**
   * The corrected level written after an inherited `u32::MAX` is itself out of `u32`
   * range, so a run nested one deeper again falls back to level 1.
   */
  lemma BeyondMaxFallsBack()
    ensures Level(Some(NatToString(U32Max + 1))) == DefaultLevel
  {
    ParseU32BeyondMax(U32Max + 1);
  }
}
