/**
 * `GamificationServiceImpl`: the activity recorder over the ledger table,
 * the unlock table and the badge catalog. Every event loads (or creates) the
 * user's ledger, bumps its counter, moves the streak, credits the XP, saves
 * the ledger and runs the badge pass; the response reports the activity's own
 * XP and level-up flag, and the totals after the badge rewards.
 *
 * The event is specified by `RecordEvent` on values; the service methods are
 * proved to produce exactly its outcome.
 */
module GamificationServices {
  import opened Common
  import opened Queries
  import opened UserStatsModel
  import opened Badges
  import opened UserBadges
  import opened BadgeRepository
  import opened StatsRepository
  import opened GamificationDto
  import opened Difficulty
  import opened Gamification

  /* ---------------- one event, on values ---------------- */

  datatype Outcome = Outcome(row: StatsRow, records: seq<UserBadgeRow>, response: XpEventResponse)

  /**
   * The tail every `record*Xp` runs once its counter is bumped: the streak
   * for `today`, the activity XP, the badge pass, and the response built
   * from the ledger after the pass.
   */
  function RecordEvent(counted: StatsRow, eventType: string, xp: int, records: seq<UserBadgeRow>,
                       user: UserId, catalog: seq<Badge>, today: int, now: int): (o: Outcome)
    requires RowValid(counted) && UniquePairs(records) && xp >= 0
    ensures RowValid(o.row) && UniquePairs(o.records)
  {
    var streaked := StreakStep(counted, today);
    var gained := GainXp(streaked, xp);
    var pass := UnlockAll(UnlockState(gained, records, []), user, catalog, now);
    Outcome(pass.row, pass.records,
            NewXpEventResponse(eventType, xp, pass.row, gained.level > streaked.level, pass.newly))
  }

  /**
   * What an event reports and stores: the amount is the activity's own XP;
   * the level-up flag is that of the activity's `addXp` alone; the total and
   * the level are read after the badge rewards; the counters are as counted,
   * the streak as `updateStreak` leaves it, and each listed badge gets one
   * new record of this user.
   */
  lemma EventFacts(counted: StatsRow, eventType: string, xp: int, records: seq<UserBadgeRow>,
                   user: UserId, catalog: seq<Badge>, today: int, now: int)
    requires RowValid(counted) && UniquePairs(records) && xp >= 0
    ensures var o := RecordEvent(counted, eventType, xp, records, user, catalog, today, now);
            && o.response.eventType == eventType
            && o.response.xpEarned == xp
            && (o.response.leveledUp <==> counted.totalXp + xp >= counted.xpForNextLevel)
            && o.response.newTotalXp == o.row.totalXp == counted.totalXp + xp + RewardSum(o.response.newBadges)
            && o.row.weeklyXp == counted.weeklyXp + xp + RewardSum(o.response.newBadges)
            && o.response.newLevel == o.row.level >= counted.level
            && o.row.lastActivityDate == Some(today)
            && o.row.currentStreak == NextStreak(counted.lastActivityDate, counted.currentStreak, today)
            && OnlyXpGrew(StreakStep(counted, today), o.row)
            && |o.records| == |records| + |o.response.newBadges|
            && o.records[..|records|] == records
            && DistinctBy(o.response.newBadges, BadgeId)
            && (forall k :: 0 <= k < |o.response.newBadges| ==>
                  RecordOf(o.records[|records| + k], user, o.response.newBadges[k], now))
  {
    var streaked := StreakStep(counted, today);
    var gained := GainXp(streaked, xp);
    UnlockAllAccounting(gained, records, user, catalog, now);
  }

  /**
   * A level reached through a badge reward is not reported: the first
   * explanation of a fresh ledger unlocks a one-explanation badge paying 300
   * XP, the ledger climbs past level 1, and the flag is false.
   */
  lemma RewardLevelUpUnreported(user: UserId, badge: Badge, today: int, now: int)
    requires IsActive(badge) && badge.requirementType == Some("EXPLANATIONS_COUNT")
    requires badge.requirementValue == Some(1) && PaidReward(badge) >= 300
    ensures var o := RecordEvent(CountExplanation(FreshRow(user)), "EXPLANATION", XpExplanation, [], user, [badge], today, now);
            && o.response.newBadges == [badge]
            && o.response.newLevel >= 2
            && !o.response.leveledUp
  {
    var counted := CountExplanation(FreshRow(user));
    var streaked := StreakStep(counted, today);
    GainXpBelowThreshold(streaked, XpExplanation);
    var gained := GainXp(streaked, XpExplanation);
    CurrentValueOfTypes(gained);
    SingleBadgePass(gained, [], user, [badge], RequirementTypes, "EXPLANATIONS_COUNT", now);
    XpForLevelValues();
  }

  /* ---------------- loading the ledger ---------------- */

  /** The ledger `getOrCreateUserStats` works on: the stored one, or a fresh one. */
  function Loaded(rows: seq<StatsRow>, user: UserId): (r: StatsRow)
    requires TableValid(rows)
    ensures RowValid(r) && r.userId == user
    ensures StatsRepository.FindByUserId(rows, user).None? ==> r.totalXp == 0 && r.level == 1
  {
    match StatsRepository.FindByUserId(rows, user)
    case Some(stored) => stored
    case None => FreshRow(user)
  }

  /** `getOrCreateUserStats` fails exactly when there is neither a ledger nor a user account. */
  predicate Unknown(rows: seq<StatsRow>, users: set<UserId>, user: UserId) {
    StatsRepository.FindByUserId(rows, user).None? && user !in users
  }

  /* ---------------- badge progress ---------------- */

  /**
   * `calculateBadgeProgress`: the measured value as a percentage of the
   * threshold, capped at 100; 0 for a badge without a type or a threshold.
   * An unknown type measures 0.
   */
  function CalculateBadgeProgress(b: Badge, row: StatsRow): (p: real)
    requires b.requirementValue != Some(0)
    ensures p <= 100.0
    ensures b.requirementType.None? || b.requirementValue.None? ==> p == 0.0
  {
    if b.requirementType.None? || b.requirementValue.None? then 0.0
    else
      var progress := CurrentValue(row, b.requirementType.value) as real / b.requirementValue.value as real * 100.0;
      if progress < 100.0 then progress else 100.0
  }

  /**
   * A badge with a positive threshold shows full progress exactly when the
   * ledger reaches the threshold, that is, for an active badge, exactly when
   * it is unlockable; a non-negative value shows a non-negative progress.
   */
  lemma BadgeProgressMeaning(b: Badge, row: StatsRow, requirementType: string, threshold: int)
    requires b.requirementType == Some(requirementType) && b.requirementValue == Some(threshold) && threshold > 0
    ensures CalculateBadgeProgress(b, row) == 100.0 <==> CurrentValue(row, requirementType) >= threshold
    ensures IsActive(b) ==> (CalculateBadgeProgress(b, row) == 100.0 <==> Unlockable(b, requirementType, CurrentValue(row, requirementType)))
    ensures CurrentValue(row, requirementType) >= 0 ==> CalculateBadgeProgress(b, row) >= 0.0
  {
    var v := CurrentValue(row, requirementType) as real;
    var d := threshold as real;
    var progress := v / d * 100.0;
    assert progress * d == v * 100.0;
    if v >= d {
      assert progress >= 100.0;
    } else {
      assert progress < 100.0;
    }
  }

  /* ---------------- mastery ---------------- */

  /** `calculateMasteryLevel`: the topic mastery for an average score, beginner without one. */
  function CalculateMasteryLevel(averageScore: Option<real>): (d: DifficultyLevel)
    ensures averageScore.None? ==> d == Principiante
  {
    if averageScore.None? then Principiante
    else if averageScore.value >= 90.0 then Avanzato
    else if averageScore.value >= 70.0 then Intermedio
    else Principiante
  }

  /**
   * A better average never gives a lower mastery; AVANZATO needs 90, and
   * anything from 70 is at least INTERMEDIO.
   */
  lemma MasteryMonotone(a: real, b: real)
    requires a <= b
    ensures Order(CalculateMasteryLevel(Some(a))) <= Order(CalculateMasteryLevel(Some(b)))
    ensures CalculateMasteryLevel(Some(b)) == Avanzato <==> b >= 90.0
    ensures b >= 70.0 <==> Order(CalculateMasteryLevel(Some(b))) >= 2
  {
  }

  /* ---------------- rank ---------------- */

  /** The ranking `getUserRank` scans: the top 1000 by the type, by level for any other type. */
  function RankList(rows: seq<StatsRow>, rankType: string): (r: seq<StatsRow>)
    ensures |r| <= 1000 && forall x :: x in r ==> x in rows
  {
    match rankType
    case "XP" => FindTopByTotalXp(rows, 1000)
    case "WEEKLY_XP" => FindTopByWeeklyXp(rows, 1000)
    case "STREAK" => FindTopByStreak(rows, 1000)
    case _ => FindTopByLevel(rows, 1000)
  }

  /** One plus the position of the user's first entry, or -1 when the user is not listed. */
  function RankIn(ranking: seq<StatsRow>, user: UserId): (rank: int)
    ensures rank == -1 <==> forall i :: 0 <= i < |ranking| ==> ranking[i].userId != user
    ensures rank != -1 ==> 1 <= rank <= |ranking| && ranking[rank - 1].userId == user
    ensures rank != -1 ==> forall i :: 0 <= i < rank - 1 ==> ranking[i].userId != user
  {
    var k := IndexOfUser(ranking, user);
    if k < |ranking| then k + 1 else -1
  }

  /**
   * Everyone ranked above a user has at least the user's score for the
   * type: total XP, weekly XP, streak, or else (level, total XP).
   */
  lemma RankedAbove(rows: seq<StatsRow>, rankType: string, user: UserId, i: int)
    requires var rank := RankIn(RankList(rows, rankType), user); rank != -1 && 0 <= i < rank - 1
    ensures var ranking := RankList(rows, rankType);
            var mine := ranking[RankIn(ranking, user) - 1];
            && (rankType == "XP" ==> ranking[i].totalXp >= mine.totalXp)
            && (rankType == "WEEKLY_XP" ==> ranking[i].weeklyXp >= mine.weeklyXp)
            && (rankType == "STREAK" ==> ranking[i].currentStreak >= mine.currentStreak)
            && (rankType !in {"XP", "WEEKLY_XP", "STREAK"} ==>
                  ranking[i].level > mine.level || (ranking[i].level == mine.level && ranking[i].totalXp >= mine.totalXp))
  {
  }

  /* ---------------- leaderboards ---------------- */

  /** The entries of a ranking, each built with rank 0 and the given type. */
  function Entries(ranking: seq<StatsRow>, entryType: string): (r: seq<LeaderboardEntry>)
    ensures |r| == |ranking|
    ensures forall i :: 0 <= i < |r| ==> r[i] == NewLeaderboardEntry(0, Reading(ranking[i]), entryType)
  {
    seq(|ranking|, i requires 0 <= i < |ranking| => NewLeaderboardEntry(0, Reading(ranking[i]), entryType))
  }

  /** What an entry of each board type reads from its row. */
  lemma EntriesRead(top: seq<StatsRow>, entryType: string)
    ensures var r := Entries(top, entryType);
            forall i :: 0 <= i < |r| ==> r[i].userId == top[i].userId && top[i] in top
    ensures var r := Entries(top, entryType);
            entryType == "XP" ==> forall i :: 0 <= i < |r| ==> r[i].value == top[i].totalXp
    ensures var r := Entries(top, entryType);
            entryType == "WEEKLY_XP" ==> forall i :: 0 <= i < |r| ==> r[i].value == top[i].weeklyXp
    ensures var r := Entries(top, entryType);
            entryType == "STREAK" ==> forall i :: 0 <= i < |r| ==> r[i].value == top[i].currentStreak
  {
  }

  /** Leaderboard values never rise down the board. */
  predicate ValuesDescending(r: seq<LeaderboardEntry>) {
    forall i, j :: 0 <= i < j < |r| ==> r[i].value >= r[j].value
  }

  /** `getXpLeaderboard`: at most `limit` entries of stored users, all of rank 0, by falling total XP. */
  function XpLeaderboard(rows: seq<StatsRow>, limit: nat): (r: seq<LeaderboardEntry>)
    ensures |r| == if limit < |rows| then limit else |rows|
    ensures forall e :: e in r ==> e.rank == 0 && e.entryType == "XP"
    ensures forall e :: e in r ==> exists x :: x in rows && x.userId == e.userId && x.totalXp == e.value
    ensures ValuesDescending(r)
  {
    var top := FindTopByTotalXp(rows, limit);
    EntriesRead(top, "XP");
    Entries(top, "XP")
  }

  /** Every stored user is on the XP board, or the board is full of entries with at least that user's total XP. */
  lemma XpBoardKeepsTop(rows: seq<StatsRow>, limit: nat, x: StatsRow)
    requires x in rows
    ensures var r := XpLeaderboard(rows, limit);
            (exists i :: 0 <= i < |r| && r[i].userId == x.userId && r[i].value == x.totalXp)
            || (|r| == limit && forall i :: 0 <= i < |r| ==> r[i].value >= x.totalXp)
  {
    var top := FindTopByTotalXp(rows, limit);
    var r := XpLeaderboard(rows, limit);
    EntriesRead(top, "XP");
    LeaderboardKeepsTop(rows, limit, x);
    if x in top {
      var i :| 0 <= i < |top| && top[i] == x;
      assert r[i].userId == x.userId && r[i].value == x.totalXp;
    }
  }

  /** `getWeeklyLeaderboard`: the same over weekly XP. */
  function WeeklyLeaderboard(rows: seq<StatsRow>, limit: nat): (r: seq<LeaderboardEntry>)
    ensures |r| == if limit < |rows| then limit else |rows|
    ensures forall e :: e in r ==> e.rank == 0 && e.entryType == "WEEKLY_XP"
    ensures forall e :: e in r ==> exists x :: x in rows && x.userId == e.userId && x.weeklyXp == e.value
    ensures ValuesDescending(r)
  {
    var top := FindTopByWeeklyXp(rows, limit);
    EntriesRead(top, "WEEKLY_XP");
    Entries(top, "WEEKLY_XP")
  }

  /** Every stored user is on the weekly board, or the board is full of entries with at least that user's weekly XP. */
  lemma WeeklyBoardKeepsTop(rows: seq<StatsRow>, limit: nat, x: StatsRow)
    requires x in rows
    ensures var r := WeeklyLeaderboard(rows, limit);
            (exists i :: 0 <= i < |r| && r[i].userId == x.userId && r[i].value == x.weeklyXp)
            || (|r| == limit && forall i :: 0 <= i < |r| ==> r[i].value >= x.weeklyXp)
  {
    var top := FindTopByWeeklyXp(rows, limit);
    var r := WeeklyLeaderboard(rows, limit);
    EntriesRead(top, "WEEKLY_XP");
    WeeklyLeaderboardKeepsTop(rows, limit, x);
    if x in top {
      var i :| 0 <= i < |top| && top[i] == x;
      assert r[i].userId == x.userId && r[i].value == x.weeklyXp;
    }
  }

  /** `getStreakLeaderboard`: the same over the current streak. */
  function StreakLeaderboard(rows: seq<StatsRow>, limit: nat): (r: seq<LeaderboardEntry>)
    ensures |r| == if limit < |rows| then limit else |rows|
    ensures forall e :: e in r ==> e.rank == 0 && e.entryType == "STREAK"
    ensures forall e :: e in r ==> exists x :: x in rows && x.userId == e.userId && x.currentStreak == e.value
    ensures ValuesDescending(r)
  {
    var top := FindTopByStreak(rows, limit);
    EntriesRead(top, "STREAK");
    Entries(top, "STREAK")
  }

  /** Every stored user is on the streak board, or the board is full of entries with at least that user's current streak. */
  lemma StreakBoardKeepsTop(rows: seq<StatsRow>, limit: nat, x: StatsRow)
    requires x in rows
    ensures var r := StreakLeaderboard(rows, limit);
            (exists i :: 0 <= i < |r| && r[i].userId == x.userId && r[i].value == x.currentStreak)
            || (|r| == limit && forall i :: 0 <= i < |r| ==> r[i].value >= x.currentStreak)
  {
    var top := FindTopByStreak(rows, limit);
    var r := StreakLeaderboard(rows, limit);
    EntriesRead(top, "STREAK");
    StreakLeaderboardKeepsTop(rows, limit, x);
    if x in top {
      var i :| 0 <= i < |top| && top[i] == x;
      assert r[i].userId == x.userId && r[i].value == x.currentStreak;
    }
  }

  /* ---------------- badge listings ---------------- */

  /** The user's record for a badge, as the id-keyed map of `getAllBadgesWithStatus` finds it. */
  function FindRecord(records: seq<UserBadgeRow>, user: UserId, badgeId: Uuid): (r: Option<UserBadgeRow>)
    ensures r.None? <==> !ExistsPair(records, user, badgeId)
    ensures r.Some? ==> r.value in records && r.value.userId == user && r.value.badge.id == badgeId
  {
    if records == [] then None
    else if records[0].userId == user && records[0].badge.id == badgeId then Some(records[0])
    else
      var rest := FindRecord(records[1..], user, badgeId);
      assert ExistsPair(records, user, badgeId) ==> ExistsPair(records[1..], user, badgeId) by {
        if ExistsPair(records, user, badgeId) {
          var i :| 0 <= i < |records| && records[i].userId == user && records[i].badge.id == badgeId;
          assert records[1..][i - 1] == records[i];
        }
      }
      assert ExistsPair(records[1..], user, badgeId) ==> ExistsPair(records, user, badgeId) by {
        if ExistsPair(records[1..], user, badgeId) {
          var i :| 0 <= i < |records[1..]| && records[1..][i].userId == user && records[1..][i].badge.id == badgeId;
          assert records[i + 1] == records[1..][i];
        }
      }
      rest
  }

  /** Every threshold of the catalog is non-zero, so that progress is a finite percentage. */
  predicate NonZeroThresholds(catalog: seq<Badge>) {
    forall b :: b in catalog ==> b.requirementValue != Some(0)
  }

  /** One badge of `getAllBadgesWithStatus`. */
  function BadgeStatus(b: Badge, records: seq<UserBadgeRow>, user: UserId, row: StatsRow): (r: BadgeResponse)
    requires b.requirementValue != Some(0)
    ensures r.id == b.id && r.name == b.name
    ensures r.unlocked <==> ExistsPair(records, user, b.id)
    ensures r.unlockedAt.Some? <==> r.unlocked
    ensures r.progress == Some(CalculateBadgeProgress(b, row))
  {
    var record := FindRecord(records, user, b.id);
    FromBadge(b, record.Some?, if record.Some? then Some(record.value.unlockedAt) else None,
              Some(CalculateBadgeProgress(b, row)))
  }

  /**
   * `getAllBadgesWithStatus`: the active badges by ascending threshold, each
   * unlocked exactly when the user holds it, with the unlock time of the
   * user's record and the progress measured on the ledger.
   */
  function AllBadgesWithStatus(catalog: seq<Badge>, records: seq<UserBadgeRow>, user: UserId, row: StatsRow): (r: seq<BadgeResponse>)
    requires NonZeroThresholds(catalog)
    ensures var active := FindActiveByRequirementAsc(catalog);
            && |r| == |active|
            && (forall i :: 0 <= i < |r| ==> r[i].id == active[i].id && r[i].name == active[i].name)
            && (forall i :: 0 <= i < |r| ==> (r[i].unlocked <==> ExistsPair(records, user, active[i].id)))
            && (forall i :: 0 <= i < |r| ==> (r[i].unlockedAt.Some? <==> r[i].unlocked))
            && (forall i :: 0 <= i < |r| ==> r[i].progress == Some(CalculateBadgeProgress(active[i], row)))
  {
    var active := FindActiveByRequirementAsc(catalog);
    assert forall i :: 0 <= i < |active| ==> active[i] in active;
    seq(|active|, i requires 0 <= i < |active| => BadgeStatus(active[i], records, user, row))
  }

  /**
   * `getUnlockedBadges`: one response per record of the user, latest unlock
   * first, each unlocked at full progress.
   */
  function UnlockedBadges(records: seq<UserBadgeRow>, user: UserId): (r: seq<BadgeResponse>)
    ensures |r| == CountByUserId(records, user)
    ensures forall i :: 0 <= i < |r| ==> r[i].unlocked && r[i].progress == Some(100.0) && r[i].unlockedAt.Some?
    ensures forall i, j :: 0 <= i < j < |r| ==> r[i].unlockedAt.value >= r[j].unlockedAt.value
    ensures forall i :: 0 <= i < |r| ==> ExistsPair(records, user, r[i].id)
  {
    var mine := FindByUserIdOrderByUnlockedAtDesc(records, user);
    ListingCount(records, user);
    ListedHeld(records, user, mine);
    UnlockedResponses(mine)
  }

  /** One unlocked response per record, in the same order. */
  function UnlockedResponses(mine: seq<UserBadgeRow>): (r: seq<BadgeResponse>)
    ensures |r| == |mine|
    ensures forall i :: 0 <= i < |r| ==> r[i].unlocked && r[i].progress == Some(100.0)
                                         && r[i].unlockedAt == Some(mine[i].unlockedAt) && r[i].id == mine[i].badge.id
  {
    seq(|mine|, i requires 0 <= i < |mine| => FromUserBadge(mine[i]))
  }

  /** The sorted listing holds all of the user's records. */
  lemma ListingCount(records: seq<UserBadgeRow>, user: UserId)
    ensures |FindByUserIdOrderByUnlockedAtDesc(records, user)| == CountByUserId(records, user)
  {
    var mine := FindByUserIdOrderByUnlockedAtDesc(records, user);
    CountIsListingSize(records, user);
    assert |mine| == |multiset(mine)| == |multiset(UserBadges.FindByUserId(records, user))| == |UserBadges.FindByUserId(records, user)|;
  }

  /** Every listed record is a pair the user holds. */
  lemma ListedHeld(records: seq<UserBadgeRow>, user: UserId, mine: seq<UserBadgeRow>)
    requires forall u :: u in mine ==> u in records && u.userId == user
    ensures forall i :: 0 <= i < |mine| ==> ExistsPair(records, user, mine[i].badge.id)
  {
    forall i | 0 <= i < |mine| ensures ExistsPair(records, user, mine[i].badge.id) {
      assert mine[i] in mine;
      var k :| 0 <= k < |records| && records[k] == mine[i];
    }
  }

  /** `getNewBadges`: the user's records still flagged new. */
  function NewBadges(records: seq<UserBadgeRow>, user: UserId): (r: seq<BadgeResponse>)
    ensures |r| == |FindNew(records, user)|
    ensures forall i :: 0 <= i < |r| ==> r[i].unlocked && r[i].id == FindNew(records, user)[i].badge.id
  {
    var pending := FindNew(records, user);
    seq(|pending|, i requires 0 <= i < |pending| => FromUserBadge(pending[i]))
  }

  /** After `markBadgesAsSeen` the user has no new badge, and everyone else keeps theirs. */
  lemma SeenBadgesNotNew(records: seq<UserBadgeRow>, user: UserId, other: UserId)
    requires other != user
    ensures NewBadges(MarkSeen(records, user), user) == []
    ensures NewBadges(MarkSeen(records, user), other) == NewBadges(records, other)
    ensures UnlockedBadges(MarkSeen(records, user), user) != [] <==> UnlockedBadges(records, user) != []
  {
    MarkSeenClearsNew(records, user, other);
  }
}
