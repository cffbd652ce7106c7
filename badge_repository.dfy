/**
 * The catalog queries of `BadgeRepository`: which badges a value of an
 * activity type qualifies for, which badges a user still lacks, and the
 * active catalog in requirement order.
 */
module BadgeRepository {
  import opened Common
  import opened Queries
  import opened Badges
  import opened UserBadges

  /**
   * The JPQL filter `isActive = true AND requirementType = :type AND
   * requirementValue <= :value`; a NULL column never satisfies a comparison.
   */
  predicate Unlockable(b: Badge, requirementType: string, value: int) {
    IsActive(b) && b.requirementType == Some(requirementType)
    && b.requirementValue.Some? && b.requirementValue.value <= value
  }

  function UnlockableTest(requirementType: string, value: int): Badge -> bool {
    (b: Badge) => Unlockable(b, requirementType, value)
  }

  /** `findUnlockableBadges(type, value)`, in catalog order. */
  function FindUnlockableBadges(catalog: seq<Badge>, requirementType: string, value: int): (r: seq<Badge>)
    ensures forall b :: b in r <==> b in catalog && Unlockable(b, requirementType, value)
  {
    Filter(catalog, UnlockableTest(requirementType, value))
  }

  /** The qualifying badges of a valid catalog have distinct ids. */
  lemma UnlockableDistinct(catalog: seq<Badge>, requirementType: string, value: int)
    requires CatalogValid(catalog)
    ensures CatalogValid(FindUnlockableBadges(catalog, requirementType, value))
  {
    FilterDistinct(catalog, UnlockableTest(requirementType, value), BadgeId);
  }

  /** A larger value qualifies for every badge a smaller one does, and possibly more. */
  lemma UnlockableMonotone(catalog: seq<Badge>, requirementType: string, v: int, w: int)
    requires v <= w
    ensures forall b :: b in FindUnlockableBadges(catalog, requirementType, v) ==>
                          b in FindUnlockableBadges(catalog, requirementType, w)
    ensures |FindUnlockableBadges(catalog, requirementType, v)| <= |FindUnlockableBadges(catalog, requirementType, w)|
  {
    FilterMonotone(catalog, UnlockableTest(requirementType, v), UnlockableTest(requirementType, w));
  }

  /** A badge without a threshold, or an inactive one, is never unlockable. */
  lemma UnlockableNeedsThreshold(catalog: seq<Badge>, requirementType: string, value: int, b: Badge)
    requires b.requirementValue.None? || !IsActive(b)
    ensures b !in FindUnlockableBadges(catalog, requirementType, value)
  {
  }

  /** `findLockedBadgesForUser`: the active badges the user has no record for. */
  function FindLockedBadgesForUser(catalog: seq<Badge>, rows: seq<UserBadgeRow>, user: Uuid): (r: seq<Badge>)
    ensures forall b :: b in r <==> b in catalog && IsActive(b) && !ExistsPair(rows, user, b.id)
  {
    Filter(catalog, (b: Badge) => IsActive(b) && !ExistsPair(rows, user, b.id))
  }

  /** Once unlocked, a badge is no longer locked for that user, and stays so. */
  lemma UnlockRemovesFromLocked(catalog: seq<Badge>, rows: seq<UserBadgeRow>, user: Uuid, b: Badge, now: int, progress: int)
    ensures b !in FindLockedBadgesForUser(catalog, rows + [NewUserBadge(user, b, now, progress)], user)
  {
    var r := rows + [NewUserBadge(user, b, now, progress)];
    assert r[|rows|].userId == user && r[|rows|].badge.id == b.id;
  }

  /** Requirement order, ascending, with NULL thresholds last. */
  function RequirementKey(b: Badge): (int, int) {
    if b.requirementValue.Some? then (0, -b.requirementValue.value) else (-1, 0)
  }

  /** `findByIsActiveTrueOrderByRequirementValueAsc`. */
  function FindActiveByRequirementAsc(catalog: seq<Badge>): (r: seq<Badge>)
    ensures multiset(r) == multiset(Filter(catalog, IsActive))
    ensures forall b :: b in r <==> b in catalog && IsActive(b)
    ensures forall i, j :: 0 <= i < j < |r| && r[j].requirementValue.Some? ==>
              r[i].requirementValue.Some? && r[i].requirementValue.value <= r[j].requirementValue.value
  {
    var active := Filter(catalog, IsActive);
    SortDescMembers(active, RequirementKey);
    SortDesc(active, RequirementKey)
  }
}
