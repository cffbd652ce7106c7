/**
 * The badge catalog entry: what a badge requires (an activity type and a
 * threshold) and what it pays out (bonus XP). Badges are read-only values
 * for the rest of the model.
 */
module Badges {
  import opened Common
  import opened Queries

  datatype Category = Study | Quiz | Flashcard | Streak | Special

  datatype Rarity = Common | Uncommon | Rare | Epic | Legendary

  /** The enum constant's name, as stored and as reported. */
  function RarityName(r: Rarity): string {
    match r
    case Common => "COMMON"
    case Uncommon => "UNCOMMON"
    case Rare => "RARE"
    case Epic => "EPIC"
    case Legendary => "LEGENDARY"
  }

  /**
   * A catalog row. Every column the entity declares as a nullable wrapper
   * is an `Option`; `code` and `name` are NOT NULL columns.
   */
  datatype Badge = Badge(
    id: Uuid, code: string, name: string, description: Option<string>,
    icon: Option<string>, color: Option<string>, category: Option<Category>,
    rarity: Option<Rarity>, requirementType: Option<string>,
    requirementValue: Option<int>, xpReward: Option<int>, isActive: Option<bool>)

  /** A badge built with the entity's field defaults. */
  function NewBadge(id: Uuid, code: string, name: string): (b: Badge)
    ensures b.color == Some("#6366F1") && b.rarity == Some(Common)
    ensures b.xpReward == Some(0) && b.isActive == Some(true)
    ensures b.requirementType == None && b.requirementValue == None
  {
    Badge(id, code, name, None, None, Some("#6366F1"), None, Some(Common), None, None, Some(0), Some(true))
  }

  /** `isActive = true` in a query: a NULL flag does not match. */
  predicate IsActive(b: Badge) {
    b.isActive == Some(true)
  }

  /** The bonus a badge pays when unlocked: only a positive reward is paid. */
  function PaidReward(b: Badge): (xp: nat)
    ensures xp > 0 <==> b.xpReward.Some? && b.xpReward.value > 0
    ensures xp > 0 ==> xp == b.xpReward.value
  {
    if b.xpReward.Some? && b.xpReward.value > 0 then b.xpReward.value else 0
  }

  function BadgeId(b: Badge): Uuid {
    b.id
  }

  /** Badge ids are primary keys: no two catalog rows share one. */
  predicate CatalogValid(catalog: seq<Badge>) {
    DistinctBy(catalog, BadgeId)
  }
}
