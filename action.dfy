/**
 * The kinds of things that can sit in a hotbar slot (`ActionType`) and the
 * ways the player can try to use one (`InputType`).
 */
module Actions {

  /** `enum class ActionType`, by its numeric value. */
  type ActionType = a: int | 0 <= a <= 29

  const A_DIRT: ActionType := 0
  const A_TOPSOIL: ActionType := 1
  const A_CLAY: ActionType := 2
  const A_CALCAREOUS_OOZE: ActionType := 3
  const A_SNOW: ActionType := 4
  const A_ICE: ActionType := 5
  const A_STONE: ActionType := 6
  const A_GRANITE: ActionType := 7
  const A_BASALT: ActionType := 8
  const A_LIMESTONE: ActionType := 9
  const A_MUDSTONE: ActionType := 10
  const A_PERIDOTITE: ActionType := 11
  const A_SANDSTONE: ActionType := 12
  const A_RED_SANDSTONE: ActionType := 13
  const A_PLATFORM: ActionType := 14
  const A_LUMBER: ActionType := 15
  const A_RED_BRICK: ActionType := 16
  const A_GRAY_BRICK: ActionType := 17
  const A_DARK_BRICK: ActionType := 18
  const A_GLASS: ActionType := 19
  const A_GLOWSTONE: ActionType := 20
  const A_TORCH: ActionType := 21
  const A_SAND: ActionType := 22
  const A_MUD: ActionType := 23
  const A_CLOUD: ActionType := 24
  const A_BOULDER: ActionType := 25
  const A_GLACIER: ActionType := 26
  const PICKAXE: ActionType := 27
  const MAPLE_LEAF: ActionType := 28
  const HEALTH_POTION: ActionType := 29

  const FIRST_BLOCK: ActionType := A_DIRT
  const LAST_BLOCK: ActionType := PICKAXE
  const LAST_PURE_BLOCK: ActionType := A_GLACIER
  const FIRST_ITEM: ActionType := A_DIRT
  const LAST_ITEM: ActionType := HEALTH_POTION

  /** The enumerators of `ActionType`, in declaration order. */
  const ACTION_TYPE_NAMES: seq<string> := [
    "DIRT", "TOPSOIL", "CLAY", "CALCAREOUS_OOZE", "SNOW", "ICE", "STONE",
    "GRANITE", "BASALT", "LIMESTONE", "MUDSTONE", "PERIDOTITE", "SANDSTONE",
    "RED_SANDSTONE", "PLATFORM", "LUMBER", "RED_BRICK", "GRAY_BRICK",
    "DARK_BRICK", "GLASS", "GLOWSTONE", "TORCH", "SAND", "MUD", "CLOUD",
    "BOULDER", "GLACIER", "PICKAXE", "MAPLE_LEAF", "HEALTH_POTION"]

  /** `enum class InputType`. */
  datatype InputType =
    | NoInput
    | LeftButtonPressed
    | RightButtonPressed
    | LeftButtonHeld
    | RightButtonHeld

  /** A pointer that may be null. */
  datatype Option<T> = None | Some(value: T)

  /**
   * A pointer to an `Action` object: which object it is (`id` tells two
   * objects of one type apart), its `ActionType` and its `item` flag.
   */
  datatype ActionRef = ActionRef(id: nat, kind: ActionType, isItem: bool)
}
