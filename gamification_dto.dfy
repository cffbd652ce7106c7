/**
 * The response shapes of the gamification API: the XP event, the stats
 * summary, a badge with its unlock state, and a leaderboard entry. The
 * factories read the entity through its nullable getters, so they take a
 * `StatsReading` whose Integer columns may be NULL.
 */
module GamificationDto {
  import opened Common
  import opened UserStatsModel
  import opened Badges
  import opened UserBadges

  /* ---------------- XP event ---------------- */

  datatype XpEventResponse = XpEventResponse(
    eventType: string, xpEarned: int, newTotalXp: int, newLevel: int,
    leveledUp: bool, newBadges: seq<Badge>)

  /**
   * The event response: the amount and the level-up flag come from the
   * caller, the total and the level from the ledger as it is when the
   * response is built.
   */
  function NewXpEventResponse(eventType: string, xpEarned: int, stats: StatsRow,
                              leveledUp: bool, newBadges: seq<Badge>): (e: XpEventResponse)
    ensures e.eventType == eventType && e.xpEarned == xpEarned && e.leveledUp == leveledUp
    ensures e.newTotalXp == stats.totalXp && e.newLevel == stats.level
    ensures e.newBadges == newBadges
  {
    XpEventResponse(eventType, xpEarned, stats.totalXp, stats.level, leveledUp, newBadges)
  }

  /* ---------------- stats summary ---------------- */

  /** The ledger as its getters return it: every Integer column may be NULL. */
  datatype StatsReading = StatsReading(
    userId: Uuid, totalXp: Option<int>, weeklyXp: Option<int>, monthlyXp: Option<int>,
    explanationsRequested: Option<int>, quizzesCompleted: Option<int>, quizzesPassed: Option<int>,
    flashcardsStudied: Option<int>, focusSessionsCompleted: Option<int>,
    totalStudyTimeMinutes: Option<int>, currentStreak: Option<int>, longestStreak: Option<int>,
    level: Option<int>, xpForNextLevel: Option<int>)

  /** The reading of a ledger whose columns are all set. */
  function Reading(r: StatsRow): (s: StatsReading)
    ensures s.totalXp == Some(r.totalXp) && s.level == Some(r.level) && s.xpForNextLevel == Some(r.xpForNextLevel)
  {
    StatsReading(r.userId, Some(r.totalXp), Some(r.weeklyXp), Some(r.monthlyXp),
                 Some(r.explanationsRequested), Some(r.quizzesCompleted), Some(r.quizzesPassed),
                 Some(r.flashcardsStudied), Some(r.focusSessionsCompleted),
                 Some(r.totalStudyTimeMinutes), Some(r.currentStreak), Some(r.longestStreak),
                 Some(r.level), Some(r.xpForNextLevel))
  }

  datatype UserStatsResponse = UserStatsResponse(
    userId: Uuid, totalXp: int, weeklyXp: int, monthlyXp: int, level: int,
    levelProgress: real, xpForNextLevel: int, xpInCurrentLevel: int,
    currentStreak: int, longestStreak: int, explanationsRequested: int,
    quizzesCompleted: int, quizzesPassed: int, flashcardsStudied: int,
    focusSessionsCompleted: int, totalStudyTimeMinutes: int, badgesUnlocked: int)

  /** The threshold of the current level as the summary computes it. */
  function XpForCurrentLevel(level: int): (x: int)
    ensures level <= 1 ==> x == 0
    ensures level >= 2 ==> x >= 100 * level
  {
    if level > 1 then XpForLevel(level) else 0
  }

  /**
   * `UserStatsResponse.fromUserStats`. The progress percentage unboxes level,
   * totalXp and xpForNextLevel, so a NULL in any of them is a
   * NullPointerException (`None`) before the defaults for those columns apply;
   * the other NULL counters read as 0.
   */
  function FromUserStats(s: StatsReading, badgeCount: int): (r: Option<UserStatsResponse>)
    ensures r.None? <==> s.totalXp.None? || s.level.None? || s.xpForNextLevel.None?
    ensures r.Some? ==> r.value.userId == s.userId && r.value.badgesUnlocked == badgeCount
    ensures r.Some? ==> r.value.totalXp == s.totalXp.value && r.value.level == s.level.value
                        && r.value.xpForNextLevel == s.xpForNextLevel.value
    ensures r.Some? ==> r.value.levelProgress == LevelProgress(s.level.value, s.totalXp.value, s.xpForNextLevel.value)
    ensures r.Some? ==> r.value.xpInCurrentLevel == s.totalXp.value - XpForCurrentLevel(s.level.value)
    ensures r.Some? ==> r.value.weeklyXp == s.weeklyXp.GetOr(0) && r.value.monthlyXp == s.monthlyXp.GetOr(0)
    ensures r.Some? ==> r.value.currentStreak == s.currentStreak.GetOr(0) && r.value.longestStreak == s.longestStreak.GetOr(0)
    ensures r.Some? ==> r.value.explanationsRequested == s.explanationsRequested.GetOr(0)
                        && r.value.quizzesCompleted == s.quizzesCompleted.GetOr(0)
                        && r.value.quizzesPassed == s.quizzesPassed.GetOr(0)
                        && r.value.flashcardsStudied == s.flashcardsStudied.GetOr(0)
                        && r.value.focusSessionsCompleted == s.focusSessionsCompleted.GetOr(0)
                        && r.value.totalStudyTimeMinutes == s.totalStudyTimeMinutes.GetOr(0)
  {
    if s.totalXp.None? || s.level.None? || s.xpForNextLevel.None? then None
    else
      var progress := LevelProgress(s.level.value, s.totalXp.value, s.xpForNextLevel.value);
      var totalXp := s.totalXp.GetOr(0);
      var level := s.level.GetOr(1);
      Some(UserStatsResponse(
        s.userId, totalXp, s.weeklyXp.GetOr(0), s.monthlyXp.GetOr(0), level, progress,
        s.xpForNextLevel.GetOr(100), totalXp - XpForCurrentLevel(level),
        s.currentStreak.GetOr(0), s.longestStreak.GetOr(0), s.explanationsRequested.GetOr(0),
        s.quizzesCompleted.GetOr(0), s.quizzesPassed.GetOr(0), s.flashcardsStudied.GetOr(0),
        s.focusSessionsCompleted.GetOr(0), s.totalStudyTimeMinutes.GetOr(0), badgeCount))
  }

  /**
   * The summary of a stored ledger always exists. Its XP within the level is
   * negative exactly for level-2 ledgers below the curve's 282 XP, and
   * otherwise the progress lies in [0, 100).
   */
  lemma SummaryOfStoredLedger(r: StatsRow, badgeCount: int)
    requires RowValid(r)
    ensures FromUserStats(Reading(r), badgeCount).Some?
    ensures var v := FromUserStats(Reading(r), badgeCount).value;
            v.xpInCurrentLevel < 0 <==> r.level == 2 && r.totalXp < XpForLevel(2)
    ensures var v := FromUserStats(Reading(r), badgeCount).value;
            v.xpInCurrentLevel >= 0 ==> 0.0 <= v.levelProgress < 100.0
  {
    LevelProgressFacts(r);
    if r.level >= 3 {
      XpForLevelIncreasing(2, r.level);
    }
  }

  /** A fresh ledger promoted at 100 XP shows -182 XP within level 2. */
  lemma LevelTwoSummaryNegative(user: UserId)
    ensures FromUserStats(Reading(GainXp(FreshRow(user), 100)), 0).value.xpInCurrentLevel == -182
  {
    FreshLevelTwoAtHundred(user);
    XpForLevelValues();
  }

  /* ---------------- badges ---------------- */

  datatype BadgeResponse = BadgeResponse(
    id: Uuid, name: string, description: Option<string>, icon: Option<string>,
    color: Option<string>, rarity: string, xpReward: Option<int>, unlocked: bool,
    unlockedAt: Option<int>, progress: Option<real>)

  /** The stored rarity's name, with "COMMON" for a NULL rarity. */
  function RarityLabel(r: Option<Rarity>): (name: string)
    ensures r.None? ==> name == "COMMON"
    ensures r.Some? ==> name == RarityName(r.value)
  {
    match r
    case None => "COMMON"
    case Some(x) => RarityName(x)
  }

  /** `BadgeResponse.fromBadge`: the catalog fields plus the caller's unlock state. */
  function FromBadge(b: Badge, unlocked: bool, unlockedAt: Option<int>, progress: Option<real>): (r: BadgeResponse)
    ensures r.id == b.id && r.name == b.name && r.xpReward == b.xpReward && r.rarity == RarityLabel(b.rarity)
    ensures r.unlocked == unlocked && r.unlockedAt == unlockedAt && r.progress == progress
  {
    BadgeResponse(b.id, b.name, b.description, b.icon, b.color, RarityLabel(b.rarity),
                  b.xpReward, unlocked, unlockedAt, progress)
  }

  /** `BadgeResponse.fromUserBadge`: an unlocked badge at full progress. */
  function FromUserBadge(u: UserBadgeRow): (r: BadgeResponse)
    ensures r.unlocked && r.progress == Some(100.0) && r.unlockedAt == Some(u.unlockedAt)
    ensures r.id == u.badge.id && r.rarity == RarityLabel(u.badge.rarity)
  {
    FromBadge(u.badge, true, Some(u.unlockedAt), Some(100.0))
  }

  /* ---------------- leaderboard ---------------- */

  datatype LeaderboardEntry = LeaderboardEntry(
    rank: int, userId: Uuid, value: int, level: int, entryType: string)

  /**
   * The entry's value for a leaderboard type: total XP for "XP" and for any
   * unknown type, weekly XP for "WEEKLY_XP", the current streak for "STREAK";
   * a NULL reads as 0.
   */
  function EntryValue(s: StatsReading, entryType: string): (v: int)
  {
    match entryType
    case "XP" => s.totalXp.GetOr(0)
    case "WEEKLY_XP" => s.weeklyXp.GetOr(0)
    case "STREAK" => s.currentStreak.GetOr(0)
    case _ => s.totalXp.GetOr(0)
  }

  /** The `LeaderboardEntry` constructor; a NULL level reads as 1. */
  function NewLeaderboardEntry(rank: int, s: StatsReading, entryType: string): (e: LeaderboardEntry)
    ensures e.rank == rank && e.userId == s.userId && e.entryType == entryType
    ensures e.level == s.level.GetOr(1)
    ensures e.value == EntryValue(s, entryType)
  {
    LeaderboardEntry(rank, s.userId, EntryValue(s, entryType), s.level.GetOr(1), entryType)
  }

  /** `setRank`, the only later change to an entry. */
  function SetRank(e: LeaderboardEntry, rank: int): (f: LeaderboardEntry)
    ensures f.rank == rank && f == e.(rank := rank)
  {
    e.(rank := rank)
  }

  /** The value shown for each type, for a stored ledger. */
  lemma EntryValueOfLedger(r: StatsRow, entryType: string)
    ensures EntryValue(Reading(r), "XP") == r.totalXp
    ensures EntryValue(Reading(r), "WEEKLY_XP") == r.weeklyXp
    ensures EntryValue(Reading(r), "STREAK") == r.currentStreak
    ensures entryType !in {"XP", "WEEKLY_XP", "STREAK"} ==> EntryValue(Reading(r), entryType) == r.totalXp
    ensures NewLeaderboardEntry(0, Reading(r), entryType).level == r.level
  {
  }
}
