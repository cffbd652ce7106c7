/**
 * The recommendations table and its queries. A derived `exists` query
 * given a NULL topic compares with `IS NULL`, so a missing topic is a
 * value of the slot like any other. The priority column holds the enum
 * names, so `ORDER BY priority DESC` orders them as strings.
 */
module RecommendationRepository {
  import opened Common
  import opened Queries
  import opened Recommendations

  /** The deduplication key of a recommendation: user, type and topic. */
  datatype Slot = Slot(userId: Uuid, kind: RecommendationType, topic: Option<string>)

  function SlotOf(r: RecommendationRow): Slot {
    Slot(r.userId, r.kind, r.topic)
  }

  function IdOf(r: RecommendationRow): Uuid {
    r.id
  }

  /** `existsByUserIdAndTypeAndTopic`: a row of that slot in any state, dismissed, completed or expired. */
  predicate SlotTaken(rows: seq<RecommendationRow>, slot: Slot) {
    exists i :: 0 <= i < |rows| && SlotOf(rows[i]) == slot
  }

  /**
   * Saving a row takes its slot, a taken slot stays taken, and no other slot
   * becomes taken.
   */
  lemma SlotTakenAfterSave(rows: seq<RecommendationRow>, r: RecommendationRow, s: Slot)
    ensures SlotTaken(rows + [r], SlotOf(r))
    ensures SlotTaken(rows, s) ==> SlotTaken(rows + [r], s)
    ensures SlotTaken(rows + [r], s) ==> SlotTaken(rows, s) || s == SlotOf(r)
  {
    var all := rows + [r];
    assert all[|rows|] == r;
    if SlotTaken(rows, s) {
      var i :| 0 <= i < |rows| && SlotOf(rows[i]) == s;
      assert all[i] == rows[i];
    }
    if SlotTaken(all, s) && s != SlotOf(r) {
      var i :| 0 <= i < |all| && SlotOf(all[i]) == s;
      assert i < |rows| && rows[i] == all[i];
    }
  }

  /** The `WHERE` clause of `findActiveByUserId` and `countActiveByUserId`. */
  predicate ActiveFilter(user: Uuid, now: int, r: RecommendationRow) {
    r.userId == user && !r.isDismissed && !r.isCompleted && (r.expiresAt.None? || r.expiresAt.value > now)
  }

  /**
   * The query's condition is the entity's `isActive` for the user's rows,
   * except at the instant of expiry: the query wants `expiresAt > now`, the
   * entity is expired only once `now` is after `expiresAt`.
   */
  lemma ActiveFilterIsActive(user: Uuid, now: int, r: RecommendationRow)
    ensures ActiveFilter(user, now, r) <==> r.userId == user && ActiveAt(r, now) && r.expiresAt != Some(now)
  {
  }

  /** `ORDER BY priority DESC, createdAt DESC`, with the priority compared as its stored name. */
  function ActiveOrder(r: RecommendationRow): (int, int) {
    (StoredRank(r.priority), r.createdAt)
  }

  /** `findActiveByUserId`. */
  function FindActiveByUserId(rows: seq<RecommendationRow>, user: Uuid, now: int): (r: seq<RecommendationRow>)
    ensures forall x :: x in r <==> x in rows && x.userId == user && ActiveAt(x, now) && x.expiresAt != Some(now)
    ensures SortedDesc(r, ActiveOrder)
    ensures forall x :: multiset(r)[x] == if ActiveFilter(user, now, x) then multiset(rows)[x] else 0
  {
    var p := x => ActiveFilter(user, now, x);
    var active := Filter(rows, p);
    var r := SortDesc(active, ActiveOrder);
    assert forall x :: x in r <==> x in rows && x.userId == user && ActiveAt(x, now) && x.expiresAt != Some(now) by {
      SortDescMembers(active, ActiveOrder);
    }
    assert forall x :: multiset(r)[x] == if ActiveFilter(user, now, x) then multiset(rows)[x] else 0 by {
      FilterCounts(rows, p);
    }
    r
  }

  /** `countActiveByUserId`: the rows the active query would list. */
  function CountActiveByUserId(rows: seq<RecommendationRow>, user: Uuid, now: int): (n: nat)
    ensures n == |FindActiveByUserId(rows, user, now)|
  {
    |Filter(rows, x => ActiveFilter(user, now, x))|
  }

  /** The active listing puts every HIGH row last, after LOW ones, whatever their creation times. */
  lemma HighListedLast(rows: seq<RecommendationRow>, user: Uuid, now: int, i: int, j: int)
    requires var r := FindActiveByUserId(rows, user, now);
             0 <= i < |r| && 0 <= j < |r| && r[i].priority != High && r[j].priority == High
    ensures i < j
  {
  }

  /** The row `deleteExpired(now)` keeps: no expiry, or one not before `now`. */
  predicate Unexpired(now: int, r: RecommendationRow) {
    r.expiresAt.None? || r.expiresAt.value >= now
  }

  /** The row `deleteOldCompleted(cutoff)` keeps: still open, or created at or after the cutoff. */
  predicate Recent(cutoff: int, r: RecommendationRow) {
    !(r.isDismissed || r.isCompleted) || r.createdAt >= cutoff
  }

  /**
   * The three expiry tests disagree at the boundary: an open row expiring
   * exactly at `now` is active for the entity and kept by
   * `deleteExpired(now)`, yet the active query no longer lists it.
   */
  lemma ExpiryBoundary(r: RecommendationRow, now: int)
    requires r.expiresAt == Some(now) && !r.isDismissed && !r.isCompleted
    ensures ActiveAt(r, now) && Unexpired(now, r) && !ActiveFilter(r.userId, now, r)
  {
  }

  /** Every row `deleteExpired` removes is expired, so it was not active. */
  lemma DeletedExpiredWereInactive(r: RecommendationRow, now: int)
    requires !Unexpired(now, r)
    ensures ExpiredAt(r, now) && !ActiveAt(r, now)
  {
  }

  /** The store's invariant: at most one row per slot, and ids unique and below the next one. */
  predicate StoreValid(rows: seq<RecommendationRow>, nextId: Uuid) {
    DistinctBy(rows, SlotOf) && DistinctBy(rows, IdOf) && forall i :: 0 <= i < |rows| ==> rows[i].id < nextId
  }

  /** Deleting rows keeps the invariant. */
  lemma FilterKeepsValid(rows: seq<RecommendationRow>, nextId: Uuid, p: RecommendationRow -> bool)
    requires StoreValid(rows, nextId)
    ensures StoreValid(Filter(rows, p), nextId)
  {
    FilterDistinct(rows, p, SlotOf);
    FilterDistinct(rows, p, IdOf);
    var r := Filter(rows, p);
    forall i | 0 <= i < |r| ensures r[i].id < nextId {
      assert r[i] in rows;
    }
  }

  /** The index of the row with id `id`, the `findById` lookup. */
  function FindById(rows: seq<RecommendationRow>, id: Uuid): (k: Option<nat>)
    ensures k.Some? ==> k.value < |rows| && rows[k.value].id == id
    ensures k.None? ==> forall i :: 0 <= i < |rows| ==> rows[i].id != id
  {
    if rows == [] then None
    else if rows[0].id == id then Some(0)
    else match FindById(rows[1..], id)
         case None => None
         case Some(k) => Some(k + 1)
  }

  class RecommendationStore {
    var rows: seq<RecommendationRow>
    var nextId: Uuid

    predicate Valid()
      reads this
    {
      StoreValid(rows, nextId)
    }

    constructor ()
      ensures rows == [] && Valid()
    {
      rows, nextId := [], 0;
    }

    /** `deleteExpired(now)`: rows expiring before `now` are removed. */
    method DeleteExpired(now: int)
      requires Valid()
      modifies this`rows
      ensures rows == Filter(old(rows), x => Unexpired(now, x))
      ensures Valid()
    {
      FilterKeepsValid(rows, nextId, x => Unexpired(now, x));
      rows := Filter(rows, x => Unexpired(now, x));
    }

    /** `deleteOldCompleted(cutoff)`: dismissed or completed rows created before the cutoff are removed. */
    method DeleteOldCompleted(cutoff: int)
      requires Valid()
      modifies this`rows
      ensures rows == Filter(old(rows), x => Recent(cutoff, x))
      ensures Valid()
    {
      FilterKeepsValid(rows, nextId, x => Recent(cutoff, x));
      rows := Filter(rows, x => Recent(cutoff, x));
    }
  }

  /** Deleting old closed rows never removes an active one. */
  lemma DeleteOldCompletedKeepsActive(rows: seq<RecommendationRow>, cutoff: int, now: int, x: RecommendationRow)
    requires x in rows && ActiveAt(x, now)
    ensures x in Filter(rows, y => Recent(cutoff, y))
  {
  }
}
