/**
 * `UserStatsRepository` over an in-memory table of ledgers: lookup by user,
 * the upsert performed by `save`, the leaderboard queries, the scheduled XP
 * resets and the broken-streak query. `user_id` is unique, so a table holds at
 * most one ledger per user.
 */
module StatsRepository {
  import opened Common
  import opened Queries
  import opened UserStatsModel

  /** The unique constraint on `user_id`. */
  predicate UniqueUsers(rows: seq<StatsRow>) {
    forall i, j :: 0 <= i < j < |rows| ==> rows[i].userId != rows[j].userId
  }

  predicate TableValid(rows: seq<StatsRow>) {
    UniqueUsers(rows) && forall i :: 0 <= i < |rows| ==> RowValid(rows[i])
  }

  /** `findByUserId`: the first ledger of the user. */
  function FindByUserId(rows: seq<StatsRow>, user: UserId): (r: Option<StatsRow>)
    ensures r.Some? <==> exists i :: 0 <= i < |rows| && rows[i].userId == user
    ensures r.Some? ==> r.value in rows && r.value.userId == user
  {
    if rows == [] then None
    else if rows[0].userId == user then Some(rows[0])
    else FindByUserId(rows[1..], user)
  }

  /** With unique user ids the ledger found is the user's only one. */
  lemma {:induction false} FindByUserIdUnique(rows: seq<StatsRow>, user: UserId, i: int)
    requires UniqueUsers(rows) && 0 <= i < |rows| && rows[i].userId == user
    ensures FindByUserId(rows, user) == Some(rows[i])
  {
    if i > 0 {
      assert rows[0].userId != user;
      assert UniqueUsers(rows[1..]) by {
        forall a, b | 0 <= a < b < |rows[1..]| ensures rows[1..][a].userId != rows[1..][b].userId {
          assert rows[1..][a] == rows[a + 1] && rows[1..][b] == rows[b + 1];
        }
      }
      assert rows[1..][i - 1] == rows[i];
      FindByUserIdUnique(rows[1..], user, i - 1);
    }
  }

  /** The position of the user's ledger, or `|rows|` when there is none. */
  function IndexOfUser(rows: seq<StatsRow>, user: UserId): (k: nat)
    ensures k <= |rows|
    ensures k < |rows| ==> rows[k].userId == user
    ensures forall i :: 0 <= i < k ==> rows[i].userId != user
  {
    if rows == [] then 0
    else if rows[0].userId == user then 0
    else 1 + IndexOfUser(rows[1..], user)
  }

  /** `save`: an update of the user's ledger when it exists, else an insert. */
  function Upsert(rows: seq<StatsRow>, r: StatsRow): (s: seq<StatsRow>)
  {
    var k := IndexOfUser(rows, r.userId);
    if k < |rows| then rows[k := r] else rows + [r]
  }

  /** Saving the same user's ledger twice leaves the table as the second save alone would. */
  lemma UpsertTwice(rows: seq<StatsRow>, r: StatsRow, r2: StatsRow)
    requires r.userId == r2.userId
    ensures Upsert(Upsert(rows, r), r2) == Upsert(rows, r2)
  {
    var k := IndexOfUser(rows, r.userId);
    var s := Upsert(rows, r);
    assert IndexOfUser(s, r2.userId) == k by {
      assert k < |s| && s[k].userId == r2.userId;
      assert forall i :: 0 <= i < k ==> s[i] == rows[i];
    }
    if k == |rows| {
      assert s[k := r2] == rows + [r2];
    }
  }

  /**
   * After a save the user's lookup returns the saved ledger, every other
   * user's lookup is unchanged, and the table keeps its constraints.
   */
  lemma UpsertFacts(rows: seq<StatsRow>, r: StatsRow, other: UserId)
    requires TableValid(rows) && RowValid(r) && other != r.userId
    ensures TableValid(Upsert(rows, r))
    ensures FindByUserId(Upsert(rows, r), r.userId) == Some(r)
    ensures FindByUserId(Upsert(rows, r), other) == FindByUserId(rows, other)
    ensures |Upsert(rows, r)| == |rows| + (if FindByUserId(rows, r.userId).Some? then 0 else 1)
  {
    if IndexOfUser(rows, r.userId) < |rows| {
      UpsertReplaceFacts(rows, r, other);
    } else {
      UpsertAppendFacts(rows, r, other);
    }
  }

  /** `UpsertFacts` when the user already has a ledger. */
  lemma UpsertReplaceFacts(rows: seq<StatsRow>, r: StatsRow, other: UserId)
    requires TableValid(rows) && RowValid(r) && other != r.userId
    requires IndexOfUser(rows, r.userId) < |rows|
    ensures TableValid(Upsert(rows, r))
    ensures FindByUserId(Upsert(rows, r), r.userId) == Some(r)
    ensures FindByUserId(Upsert(rows, r), other) == FindByUserId(rows, other)
    ensures |Upsert(rows, r)| == |rows| && FindByUserId(rows, r.userId).Some?
  {
    var k := IndexOfUser(rows, r.userId);
    var s := Upsert(rows, r);
    assert forall i :: 0 <= i < |rows| && i != k ==> s[i] == rows[i];
    FindByUserIdUnique(s, r.userId, k);
    FindByUserIdUnique(rows, r.userId, k);
    OtherLookup(rows, s, other);
  }

  /** `UpsertFacts` when the user has no ledger yet. */
  lemma UpsertAppendFacts(rows: seq<StatsRow>, r: StatsRow, other: UserId)
    requires TableValid(rows) && RowValid(r) && other != r.userId
    requires IndexOfUser(rows, r.userId) == |rows|
    ensures TableValid(Upsert(rows, r))
    ensures FindByUserId(Upsert(rows, r), r.userId) == Some(r)
    ensures FindByUserId(Upsert(rows, r), other) == FindByUserId(rows, other)
    ensures |Upsert(rows, r)| == |rows| + 1 && FindByUserId(rows, r.userId).None?
  {
    var s := Upsert(rows, r);
    assert s[|rows|] == r;
    assert UniqueUsers(s) by {
      forall i, j | 0 <= i < j < |s| ensures s[i].userId != s[j].userId {
        assert s[i] == rows[i];
        if j < |rows| {
          assert s[j] == rows[j];
        }
      }
    }
    FindByUserIdUnique(s, r.userId, |rows|);
    OtherLookup(rows, s, other);
  }

  /** Two tables with the same unique-user rows for `other` answer its lookup alike. */
  lemma OtherLookup(rows: seq<StatsRow>, s: seq<StatsRow>, other: UserId)
    requires UniqueUsers(rows) && UniqueUsers(s)
    requires forall i :: 0 <= i < |rows| && rows[i].userId == other ==> i < |s| && s[i] == rows[i]
    requires forall i :: 0 <= i < |s| && s[i].userId == other ==> i < |rows| && s[i] == rows[i]
    ensures FindByUserId(s, other) == FindByUserId(rows, other)
  {
    if exists i :: 0 <= i < |rows| && rows[i].userId == other {
      var i :| 0 <= i < |rows| && rows[i].userId == other;
      FindByUserIdUnique(rows, other, i);
      FindByUserIdUnique(s, other, i);
    }
  }

  /** The table after `resetWeeklyXp`. */
  function ResetWeekly(rows: seq<StatsRow>): (s: seq<StatsRow>)
    ensures |s| == |rows|
    ensures forall i :: 0 <= i < |rows| ==> s[i] == rows[i].(weeklyXp := 0)
  {
    seq(|rows|, i requires 0 <= i < |rows| => rows[i].(weeklyXp := 0))
  }

  /** The table after `resetMonthlyXp`. */
  function ResetMonthly(rows: seq<StatsRow>): (s: seq<StatsRow>)
    ensures |s| == |rows|
    ensures forall i :: 0 <= i < |rows| ==> s[i] == rows[i].(monthlyXp := 0)
  {
    seq(|rows|, i requires 0 <= i < |rows| => rows[i].(monthlyXp := 0))
  }

  /** A reset zeroes the period total of every ledger, keeps the table valid and is idempotent. */
  lemma ResetFacts(rows: seq<StatsRow>)
    requires TableValid(rows)
    ensures TableValid(ResetWeekly(rows)) && TableValid(ResetMonthly(rows))
    ensures ResetWeekly(ResetWeekly(rows)) == ResetWeekly(rows)
    ensures ResetMonthly(ResetMonthly(rows)) == ResetMonthly(rows)
    ensures forall i :: 0 <= i < |rows| ==> ResetWeekly(rows)[i].weeklyXp == 0 && ResetMonthly(rows)[i].monthlyXp == 0
  {
    var w := ResetWeekly(rows);
    var m := ResetMonthly(rows);
    assert forall i :: 0 <= i < |rows| ==> w[i].userId == rows[i].userId && m[i].userId == rows[i].userId;
  }

  function TotalXpKey(r: StatsRow): (int, int) { (r.totalXp, 0) }
  function WeeklyXpKey(r: StatsRow): (int, int) { (r.weeklyXp, 0) }
  function StreakKey(r: StatsRow): (int, int) { (r.currentStreak, 0) }
  function LevelKey(r: StatsRow): (int, int) { (r.level, r.totalXp) }

  /**
   * `ORDER BY key DESC LIMIT limit`, the shape of every leaderboard query:
   * `limit` rows of the table, or all of them when there are fewer, in
   * descending key order, and a row is left out only when the board is
   * full of rows whose key is at least its own.
   */
  function FindTopBy(rows: seq<StatsRow>, key: StatsRow -> (int, int), limit: nat): (r: seq<StatsRow>)
    ensures |r| == if limit < |rows| then limit else |rows|
    ensures multiset(r) <= multiset(rows) && forall x :: x in r ==> x in rows
    ensures SortedDesc(r, key)
    ensures forall x :: x in rows && x !in r ==> |r| == limit && forall i :: 0 <= i < |r| ==> KeyGe(key(r[i]), key(x))
  {
    var sorted := SortDesc(rows, key);
    TakeSorted(sorted, limit, key);
    TakeSubMultiset(sorted, limit);
    TopRowsAll(rows, limit, key);
    SortDescMembers(rows, key);
    Take(sorted, limit)
  }

  /** `findTopByTotalXp`: the highest total XP first. */
  function FindTopByTotalXp(rows: seq<StatsRow>, limit: nat): (r: seq<StatsRow>)
    ensures |r| == if limit < |rows| then limit else |rows|
    ensures multiset(r) <= multiset(rows) && forall x :: x in r ==> x in rows
    ensures forall i, j :: 0 <= i < j < |r| ==> r[i].totalXp >= r[j].totalXp
  {
    var r := FindTopBy(rows, TotalXpKey, limit);
    assert forall i, j :: 0 <= i < j < |r| ==> KeyGe(TotalXpKey(r[i]), TotalXpKey(r[j]));
    r
  }

  /** `findTopByWeeklyXp`: the highest weekly XP first. */
  function FindTopByWeeklyXp(rows: seq<StatsRow>, limit: nat): (r: seq<StatsRow>)
    ensures |r| == if limit < |rows| then limit else |rows|
    ensures multiset(r) <= multiset(rows) && forall x :: x in r ==> x in rows
    ensures forall i, j :: 0 <= i < j < |r| ==> r[i].weeklyXp >= r[j].weeklyXp
  {
    var r := FindTopBy(rows, WeeklyXpKey, limit);
    assert forall i, j :: 0 <= i < j < |r| ==> KeyGe(WeeklyXpKey(r[i]), WeeklyXpKey(r[j]));
    r
  }

  /** `findTopByStreak`: the longest current streak first. */
  function FindTopByStreak(rows: seq<StatsRow>, limit: nat): (r: seq<StatsRow>)
    ensures |r| == if limit < |rows| then limit else |rows|
    ensures multiset(r) <= multiset(rows) && forall x :: x in r ==> x in rows
    ensures forall i, j :: 0 <= i < j < |r| ==> r[i].currentStreak >= r[j].currentStreak
  {
    var r := FindTopBy(rows, StreakKey, limit);
    assert forall i, j :: 0 <= i < j < |r| ==> KeyGe(StreakKey(r[i]), StreakKey(r[j]));
    r
  }

  /** `findTopByLevel`: the highest level first, ties broken by total XP. */
  function FindTopByLevel(rows: seq<StatsRow>, limit: nat): (r: seq<StatsRow>)
    ensures |r| == if limit < |rows| then limit else |rows|
    ensures multiset(r) <= multiset(rows) && forall x :: x in r ==> x in rows
    ensures forall i, j :: 0 <= i < j < |r| ==>
              r[i].level > r[j].level || (r[i].level == r[j].level && r[i].totalXp >= r[j].totalXp)
  {
    var r := FindTopBy(rows, LevelKey, limit);
    assert forall i, j :: 0 <= i < j < |r| ==> KeyGe(LevelKey(r[i]), LevelKey(r[j]));
    r
  }

  /**
   * A row left off the total-XP board lost its place to a full board of rows
   * with at least as much total XP.
   */
  lemma LeaderboardKeepsTop(rows: seq<StatsRow>, limit: nat, x: StatsRow)
    requires x in rows
    ensures var r := FindTopByTotalXp(rows, limit);
            x in r || (|r| == limit && forall i :: 0 <= i < |r| ==> r[i].totalXp >= x.totalXp)
  {
    var r := FindTopBy(rows, TotalXpKey, limit);
    assert x !in r ==> forall i :: 0 <= i < |r| ==> KeyGe(TotalXpKey(r[i]), TotalXpKey(x));
  }

  /** The same for the weekly board and weekly XP. */
  lemma WeeklyLeaderboardKeepsTop(rows: seq<StatsRow>, limit: nat, x: StatsRow)
    requires x in rows
    ensures var r := FindTopByWeeklyXp(rows, limit);
            x in r || (|r| == limit && forall i :: 0 <= i < |r| ==> r[i].weeklyXp >= x.weeklyXp)
  {
    var r := FindTopBy(rows, WeeklyXpKey, limit);
    assert x !in r ==> forall i :: 0 <= i < |r| ==> KeyGe(WeeklyXpKey(r[i]), WeeklyXpKey(x));
  }

  /** The same for the streak board and the current streak. */
  lemma StreakLeaderboardKeepsTop(rows: seq<StatsRow>, limit: nat, x: StatsRow)
    requires x in rows
    ensures var r := FindTopByStreak(rows, limit);
            x in r || (|r| == limit && forall i :: 0 <= i < |r| ==> r[i].currentStreak >= x.currentStreak)
  {
    var r := FindTopBy(rows, StreakKey, limit);
    assert x !in r ==> forall i :: 0 <= i < |r| ==> KeyGe(StreakKey(r[i]), StreakKey(x));
  }

  /** The same for the level board, ordered by level and then total XP. */
  lemma LevelLeaderboardKeepsTop(rows: seq<StatsRow>, limit: nat, x: StatsRow)
    requires x in rows
    ensures var r := FindTopByLevel(rows, limit);
            x in r || (|r| == limit && forall i :: 0 <= i < |r| ==>
                         r[i].level > x.level || (r[i].level == x.level && r[i].totalXp >= x.totalXp))
  {
    var r := FindTopBy(rows, LevelKey, limit);
    assert x !in r ==> forall i :: 0 <= i < |r| ==> KeyGe(LevelKey(r[i]), LevelKey(x));
  }

  /**
   * `findUsersWithBrokenStreak`: `lastActivityDate < CURRENT_DATE AND
   * currentStreak > 0`, with today's day number for CURRENT_DATE; a NULL date
   * never matches.
   */
  function FindUsersWithBrokenStreak(rows: seq<StatsRow>, today: int): (r: seq<StatsRow>)
    ensures forall x :: x in r <==>
              (x in rows && x.lastActivityDate.Some? && x.lastActivityDate.value < today && x.currentStreak > 0)
  {
    Filter(rows, (x: StatsRow) => x.lastActivityDate.Some? && x.lastActivityDate.value < today && x.currentStreak > 0)
  }

  /**
   * The query also reports a user who was active yesterday, whose streak is
   * still intact, and never one who has not been active at all.
   */
  lemma BrokenStreakIncludesYesterday(rows: seq<StatsRow>, today: int, x: StatsRow)
    requires x in rows && x.currentStreak > 0
    ensures x.lastActivityDate == Some(today - 1) ==> x in FindUsersWithBrokenStreak(rows, today)
    ensures x.lastActivityDate == None ==> x !in FindUsersWithBrokenStreak(rows, today)
    ensures x.lastActivityDate == Some(today - 1) ==> StreakStep(x, today).currentStreak == x.currentStreak + 1
  {
  }

  /** The ledger table. */
  class StatsTable {
    var rows: seq<StatsRow>

    ghost predicate Valid()
      reads this
    {
      TableValid(rows)
    }

    constructor (initial: seq<StatsRow>)
      requires TableValid(initial)
      ensures rows == initial && Valid()
    {
      rows := initial;
    }

    /** `save` of a ledger. */
    method Save(r: StatsRow)
      requires Valid() && RowValid(r)
      modifies this
      ensures rows == Upsert(old(rows), r)
      ensures FindByUserId(rows, r.userId) == Some(r)
      ensures forall u :: u != r.userId ==> FindByUserId(rows, u) == FindByUserId(old(rows), u)
      ensures Valid()
    {
      ghost var start := rows;
      var k := IndexOfUser(rows, r.userId);
      if k < |rows| {
        rows := rows[k := r];
      } else {
        rows := rows + [r];
      }
      forall u | u != r.userId
        ensures FindByUserId(rows, u) == FindByUserId(start, u)
      {
        UpsertFacts(start, r, u);
      }
      UpsertFacts(start, r, r.userId + 1);
    }

    /** `resetWeeklyXp`: a bulk update of every ledger. */
    method ResetWeeklyXp()
      requires Valid()
      modifies this
      ensures rows == ResetWeekly(old(rows))
      ensures Valid()
    {
      ghost var start := rows;
      for i := 0 to |rows|
        invariant |rows| == |start|
        invariant forall k :: 0 <= k < i ==> rows[k] == start[k].(weeklyXp := 0)
        invariant forall k :: i <= k < |rows| ==> rows[k] == start[k]
      {
        rows := rows[i := rows[i].(weeklyXp := 0)];
      }
      ResetFacts(start);
    }

    /** `resetMonthlyXp`: a bulk update of every ledger. */
    method ResetMonthlyXp()
      requires Valid()
      modifies this
      ensures rows == ResetMonthly(old(rows))
      ensures Valid()
    {
      ghost var start := rows;
      for i := 0 to |rows|
        invariant |rows| == |start|
        invariant forall k :: 0 <= k < i ==> rows[k] == start[k].(monthlyXp := 0)
        invariant forall k :: i <= k < |rows| ==> rows[k] == start[k]
      {
        rows := rows[i := rows[i].(monthlyXp := 0)];
      }
      ResetFacts(start);
    }
  }
}
