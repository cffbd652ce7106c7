/**
 * `GamificationController`: the focus-session XP formula, the dispatch of
 * the leaderboard path type (case-insensitive, with "WEEKLY" as an alias)
 * and the upper-cased type handed to the rank lookup.
 */
module GamificationControllers {
  import opened Common
  import opened Text
  import opened UserStatsModel
  import opened StatsRepository
  import opened GamificationDto
  import opened GamificationServices

  /* ---------------- focus session ---------------- */

  /**
   * The XP of a focus session: the client's amount when positive, otherwise
   * 3 XP per full 10 minutes plus a 1 XP completion bonus (Java division).
   */
  function FocusXp(xpEarned: Option<int>, durationMinutes: int): (xp: int)
    ensures xpEarned.Some? && xpEarned.value > 0 ==> xp == xpEarned.value
    ensures xpEarned.None? || xpEarned.value <= 0 ==> xp == JavaDiv(durationMinutes, 10) * 3 + 1
  {
    if xpEarned.None? || xpEarned.value <= 0 then JavaDiv(durationMinutes, 10) * 3 + 1
    else xpEarned.value
  }

  /**
   * Without a client amount a non-negative duration earns at least 1 XP,
   * exactly 3 per full 10 minutes plus 1, and 3 more for every 10 minutes
   * more; the amount is always positive then.
   */
  lemma FocusXpFromDuration(xpEarned: Option<int>, durationMinutes: int)
    requires xpEarned.None? || xpEarned.value <= 0
    requires durationMinutes >= 0
    ensures FocusXp(xpEarned, durationMinutes) == 3 * (durationMinutes / 10) + 1 >= 1
    ensures FocusXp(xpEarned, durationMinutes + 10) == FocusXp(xpEarned, durationMinutes) + 3
    ensures FocusXp(xpEarned, durationMinutes) > 0
  {
    assert (durationMinutes + 10) / 10 == durationMinutes / 10 + 1;
  }

  /** A negative duration yields a negative amount: 15 minutes below zero give -2 XP. */
  lemma FocusXpOfNegativeDuration()
    ensures FocusXp(None, -15) == -2
    ensures FocusXp(Some(0), -15) == -2
  {
    assert JavaDiv(-15, 10) == -1;
  }

  /**
   * Credited to a fresh ledger, that negative amount leaves it below zero at
   * level 1, outside the invariant every stored ledger keeps.
   */
  lemma NegativeFocusXpBreaksLedger(user: UserId)
    ensures var s := GainXp(FreshRow(user), FocusXp(None, -15));
            s.totalXp == -2 && s.weeklyXp == -2 && s.monthlyXp == -2 && s.level == 1 && !RowValid(s)
  {
    FocusXpOfNegativeDuration();
  }

  /* ---------------- leaderboard ---------------- */

  datatype Board = XpBoard | WeeklyBoard | StreakBoard

  /** The switch on the upper-cased path type; anything unknown is the XP board. */
  function BoardOf(pathType: string): (b: Board)
    ensures b == WeeklyBoard <==> ToUpper(pathType) == "WEEKLY_XP" || ToUpper(pathType) == "WEEKLY"
    ensures b == StreakBoard <==> ToUpper(pathType) == "STREAK"
  {
    var t := ToUpper(pathType);
    if t == "XP" then XpBoard
    else if t == "WEEKLY_XP" || t == "WEEKLY" then WeeklyBoard
    else if t == "STREAK" then StreakBoard
    else XpBoard
  }

  /** The entry type the service stamps on each board's entries. */
  function BoardType(b: Board): string {
    match b
    case XpBoard => "XP"
    case WeeklyBoard => "WEEKLY_XP"
    case StreakBoard => "STREAK"
  }

  /**
   * `getLeaderboard`: at most `limit` entries of the chosen board, by
   * falling value, every one still of rank 0 (the rank loop is empty).
   */
  function Leaderboard(rows: seq<StatsRow>, pathType: string, limit: nat): (r: seq<LeaderboardEntry>)
    ensures |r| <= limit
    ensures forall i :: 0 <= i < |r| ==> r[i].rank == 0 && r[i].entryType == BoardType(BoardOf(pathType))
    ensures forall i, j :: 0 <= i < j < |r| ==> r[i].value >= r[j].value
  {
    match BoardOf(pathType)
    case XpBoard => XpLeaderboard(rows, limit)
    case WeeklyBoard => WeeklyLeaderboard(rows, limit)
    case StreakBoard => StreakLeaderboard(rows, limit)
  }

  lemma WeeklyAlias(rows: seq<StatsRow>, limit: nat)
    ensures Leaderboard(rows, "weekly", limit) == WeeklyLeaderboard(rows, limit)
  {
    assert ToUpper("weekly") == "WEEKLY" by {
      var t := ToUpper("weekly");
      assert |t| == 6 && t[0] == 'W' && t[1] == 'E' && t[2] == 'E' && t[3] == 'K' && t[4] == 'L' && t[5] == 'Y';
    }
    assert BoardOf("weekly") == WeeklyBoard;
  }

  lemma StreakAlias(rows: seq<StatsRow>, limit: nat)
    ensures Leaderboard(rows, "Streak", limit) == StreakLeaderboard(rows, limit)
  {
    assert ToUpper("Streak") == "STREAK" by {
      var t := ToUpper("Streak");
      assert |t| == 6 && t[0] == 'S' && t[1] == 'T' && t[2] == 'R' && t[3] == 'E' && t[4] == 'A' && t[5] == 'K';
    }
    assert BoardOf("Streak") == StreakBoard;
  }

  lemma LevelAlias(rows: seq<StatsRow>, limit: nat)
    ensures Leaderboard(rows, "level", limit) == XpLeaderboard(rows, limit)
  {
    assert ToUpper("level") == "LEVEL" by {
      var t := ToUpper("level");
      assert |t| == 5 && t[0] == 'L' && t[1] == 'E' && t[2] == 'V' && t[3] == 'E' && t[4] == 'L';
    }
    assert BoardOf("level") == XpBoard;
  }

  /** The path type is read in any case: "weekly" is the weekly board, "level" the XP board. */
  lemma LeaderboardAliases(rows: seq<StatsRow>, limit: nat)
    ensures Leaderboard(rows, "weekly", limit) == WeeklyLeaderboard(rows, limit)
    ensures Leaderboard(rows, "Streak", limit) == StreakLeaderboard(rows, limit)
    ensures Leaderboard(rows, "level", limit) == XpLeaderboard(rows, limit)
  {
    WeeklyAlias(rows, limit);
    StreakAlias(rows, limit);
    LevelAlias(rows, limit);
  }

  /* ---------------- my rank ---------------- */

  /** `getMyRank`: the service's rank for the upper-cased path type. */
  function MyRank(rows: seq<StatsRow>, user: UserId, pathType: string): (rank: int)
    ensures rank == -1 || 1 <= rank <= 1000
  {
    RankIn(RankList(rows, ToUpper(pathType)), user)
  }

  /**
   * The rank lookup knows no "WEEKLY" alias: for the path type "weekly" the
   * board lists weekly XP while the rank is taken in the level ordering.
   */
  lemma WeeklyRankByLevel(rows: seq<StatsRow>, user: UserId)
    ensures MyRank(rows, user, "weekly") == RankIn(FindTopByLevel(rows, 1000), user)
    ensures BoardOf("weekly") == WeeklyBoard
  {
    assert ToUpper("weekly") == "WEEKLY" by {
      var t := ToUpper("weekly");
      assert |t| == 6 && t[0] == 'W' && t[1] == 'E' && t[2] == 'E' && t[3] == 'K' && t[4] == 'L' && t[5] == 'Y';
    }
    assert BoardOf("weekly") == WeeklyBoard;
  }
}
