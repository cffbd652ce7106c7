/**
 * The unlock records (user, badge) and the repository over them. The table
 * carries a unique constraint on the pair (user_id, badge_id); a record starts
 * as "new" until the user has seen it.
 */
module UserBadges {
  import opened Common
  import opened Queries
  import opened Badges

  /** One unlock record; `unlockedAt` is the persist time, in seconds. */
  datatype UserBadgeRow = UserBadgeRow(
    userId: Uuid, badge: Badge, unlockedAt: int, isNew: bool, progressAtUnlock: int)

  /** The record the service persists at time `now`: new, with the value that unlocked it. */
  function NewUserBadge(user: Uuid, badge: Badge, now: int, progress: int): (u: UserBadgeRow)
    ensures u.isNew && u.unlockedAt == now
    ensures u.userId == user && u.badge == badge && u.progressAtUnlock == progress
  {
    UserBadgeRow(user, badge, now, true, progress)
  }

  predicate SamePair(a: UserBadgeRow, b: UserBadgeRow) {
    a.userId == b.userId && a.badge.id == b.badge.id
  }

  /** The unique constraint on (user_id, badge_id). */
  predicate UniquePairs(rows: seq<UserBadgeRow>) {
    forall i, j :: 0 <= i < j < |rows| ==> !SamePair(rows[i], rows[j])
  }

  /** `existsByUserIdAndBadgeId`. */
  predicate ExistsPair(rows: seq<UserBadgeRow>, user: Uuid, badgeId: Uuid) {
    exists i :: 0 <= i < |rows| && rows[i].userId == user && rows[i].badge.id == badgeId
  }

  /** Appending a record of a pair not yet present keeps the pairs unique. */
  lemma AppendFreshPair(rows: seq<UserBadgeRow>, u: UserBadgeRow)
    requires UniquePairs(rows) && !ExistsPair(rows, u.userId, u.badge.id)
    ensures UniquePairs(rows + [u])
    ensures ExistsPair(rows + [u], u.userId, u.badge.id)
  {
    var r := rows + [u];
    assert r[|rows|] == u;
    forall i, j | 0 <= i < j < |r| ensures !SamePair(r[i], r[j]) {
      assert r[i] == rows[i];
      if j < |rows| {
        assert r[j] == rows[j];
      }
    }
  }

  /** Whether a user has the pair recorded, before or after appending other rows. */
  lemma ExistsPairAppend(rows: seq<UserBadgeRow>, more: seq<UserBadgeRow>, user: Uuid, badgeId: Uuid)
    ensures ExistsPair(rows, user, badgeId) ==> ExistsPair(rows + more, user, badgeId)
    ensures ExistsPair(rows + more, user, badgeId) <==> ExistsPair(rows, user, badgeId) || ExistsPair(more, user, badgeId)
  {
    var r := rows + more;
    if ExistsPair(rows, user, badgeId) {
      var i :| 0 <= i < |rows| && rows[i].userId == user && rows[i].badge.id == badgeId;
      assert r[i] == rows[i];
    }
    if ExistsPair(more, user, badgeId) {
      var i :| 0 <= i < |more| && more[i].userId == user && more[i].badge.id == badgeId;
      assert r[|rows| + i] == more[i];
    }
    if ExistsPair(r, user, badgeId) {
      var i :| 0 <= i < |r| && r[i].userId == user && r[i].badge.id == badgeId;
      if i < |rows| {
        assert r[i] == rows[i];
      } else {
        assert r[i] == more[i - |rows|];
      }
    }
  }

  /** The user's records, in table order. */
  function FindByUserId(rows: seq<UserBadgeRow>, user: Uuid): (r: seq<UserBadgeRow>)
    ensures forall u :: u in r <==> u in rows && u.userId == user
  {
    Filter(rows, (u: UserBadgeRow) => u.userId == user)
  }

  /** `countByUserId`: the number of the user's records. */
  function CountByUserId(rows: seq<UserBadgeRow>, user: Uuid): (n: nat)
    ensures n <= |rows|
  {
    if rows == [] then 0
    else (if rows[0].userId == user then 1 else 0) + CountByUserId(rows[1..], user)
  }

  /** The count and the listing agree. */
  lemma {:induction false} CountIsListingSize(rows: seq<UserBadgeRow>, user: Uuid)
    ensures CountByUserId(rows, user) == |FindByUserId(rows, user)|
  {
    if rows != [] {
      CountIsListingSize(rows[1..], user);
      assert FindByUserId(rows, user)
        == (if rows[0].userId == user then [rows[0]] else []) + FindByUserId(rows[1..], user);
    }
  }

  /** `findByUserIdAndIsNewTrue`: the user's records not yet seen. */
  function FindNew(rows: seq<UserBadgeRow>, user: Uuid): (r: seq<UserBadgeRow>)
    ensures forall u :: u in r <==> u in rows && u.userId == user && u.isNew
  {
    Filter(rows, (u: UserBadgeRow) => u.userId == user && u.isNew)
  }

  function UnlockKey(u: UserBadgeRow): (int, int) {
    (u.unlockedAt, 0)
  }

  /** `findByUserIdOrderByUnlockedAtDesc`: the user's records, latest unlock first. */
  function FindByUserIdOrderByUnlockedAtDesc(rows: seq<UserBadgeRow>, user: Uuid): (r: seq<UserBadgeRow>)
    ensures multiset(r) == multiset(FindByUserId(rows, user))
    ensures forall u :: u in r <==> u in rows && u.userId == user
    ensures forall i, j :: 0 <= i < j < |r| ==> r[i].unlockedAt >= r[j].unlockedAt
  {
    var mine := FindByUserId(rows, user);
    SortDescMembers(mine, UnlockKey);
    SortDesc(mine, UnlockKey)
  }

  /** The effect of `markAllAsSeenForUser` on the table. */
  function MarkSeen(rows: seq<UserBadgeRow>, user: Uuid): (r: seq<UserBadgeRow>)
    ensures |r| == |rows|
    ensures forall i :: 0 <= i < |rows| ==>
              r[i] == if rows[i].userId == user then rows[i].(isNew := false) else rows[i]
  {
    if rows == [] then []
    else
      [if rows[0].userId == user then rows[0].(isNew := false) else rows[0]] + MarkSeen(rows[1..], user)
  }

  /** Marking again changes nothing. */
  lemma MarkSeenIdempotent(rows: seq<UserBadgeRow>, user: Uuid)
    ensures MarkSeen(MarkSeen(rows, user), user) == MarkSeen(rows, user)
  {
  }

  /** Afterwards the user has no new record; everyone else's are untouched. */
  lemma MarkSeenClearsNew(rows: seq<UserBadgeRow>, user: Uuid, other: Uuid)
    requires other != user
    ensures FindNew(MarkSeen(rows, user), user) == []
    ensures FindNew(MarkSeen(rows, user), other) == FindNew(rows, other)
    ensures CountByUserId(MarkSeen(rows, user), user) == CountByUserId(rows, user)
  {
    MarkSeenOthers(rows, user, other);
    MarkSeenCount(rows, user);
  }

  lemma {:induction false} MarkSeenOthers(rows: seq<UserBadgeRow>, user: Uuid, other: Uuid)
    requires other != user
    ensures FindNew(MarkSeen(rows, user), other) == FindNew(rows, other)
  {
    if rows != [] {
      MarkSeenOthers(rows[1..], user, other);
      var r := MarkSeen(rows, user);
      assert r[1..] == MarkSeen(rows[1..], user);
      assert FindNew(r, other) == (if r[0].userId == other && r[0].isNew then [r[0]] else []) + FindNew(r[1..], other);
      assert FindNew(rows, other) == (if rows[0].userId == other && rows[0].isNew then [rows[0]] else []) + FindNew(rows[1..], other);
    }
  }

  lemma {:induction false} MarkSeenCount(rows: seq<UserBadgeRow>, user: Uuid)
    ensures CountByUserId(MarkSeen(rows, user), user) == CountByUserId(rows, user)
  {
    if rows != [] {
      MarkSeenCount(rows[1..], user);
      assert MarkSeen(rows, user)[1..] == MarkSeen(rows[1..], user);
    }
  }

  /** Only the `isNew` flag changes, so the unique constraint still holds. */
  lemma MarkSeenKeepsPairs(rows: seq<UserBadgeRow>, user: Uuid)
    requires UniquePairs(rows)
    ensures UniquePairs(MarkSeen(rows, user))
  {
    var r := MarkSeen(rows, user);
    forall i, j | 0 <= i < j < |r| ensures !SamePair(r[i], r[j]) {
      assert SamePair(r[i], r[j]) <==> SamePair(rows[i], rows[j]);
    }
  }

  /** The unlock table, `UserBadgeRepository` over an in-memory list of rows. */
  class UserBadgeStore {
    var rows: seq<UserBadgeRow>

    ghost predicate Valid()
      reads this
    {
      UniquePairs(rows)
    }

    constructor ()
      ensures rows == [] && Valid()
    {
      rows := [];
    }

    /** `save` of a new record: the unique constraint rejects a pair already present. */
    method Save(u: UserBadgeRow) returns (saved: bool)
      requires Valid()
      modifies this
      ensures saved <==> !ExistsPair(old(rows), u.userId, u.badge.id)
      ensures rows == if saved then old(rows) + [u] else old(rows)
      ensures Valid()
    {
      if ExistsPair(rows, u.userId, u.badge.id) {
        saved := false;
      } else {
        AppendFreshPair(rows, u);
        rows := rows + [u];
        saved := true;
      }
    }

    /** `existsByUserIdAndBadgeId`: a scan of the table for the pair. */
    method ExistsByUserIdAndBadgeId(user: Uuid, badgeId: Uuid) returns (found: bool)
      ensures found <==> ExistsPair(rows, user, badgeId)
    {
      found := false;
      var i := 0;
      while i < |rows| && !found
        invariant 0 <= i <= |rows|
        invariant found <==> i > 0 && rows[i - 1].userId == user && rows[i - 1].badge.id == badgeId
        invariant forall k :: 0 <= k < i - 1 ==> !(rows[k].userId == user && rows[k].badge.id == badgeId)
        invariant !found ==> forall k :: 0 <= k < i ==> !(rows[k].userId == user && rows[k].badge.id == badgeId)
      {
        found := rows[i].userId == user && rows[i].badge.id == badgeId;
        i := i + 1;
      }
    }

    /** `markAllAsSeenForUser`: a bulk update of the user's rows. */
    method MarkAllAsSeenForUser(user: Uuid)
      requires Valid()
      modifies this
      ensures rows == MarkSeen(old(rows), user)
      ensures Valid()
    {
      ghost var start := rows;
      for i := 0 to |rows|
        invariant |rows| == |start|
        invariant forall k :: 0 <= k < i ==> rows[k] == MarkSeen(start, user)[k]
        invariant forall k :: i <= k < |rows| ==> rows[k] == start[k]
      {
        if rows[i].userId == user {
          rows := rows[i := rows[i].(isNew := false)];
        }
      }
      MarkSeenKeepsPairs(start, user);
    }
  }
}
