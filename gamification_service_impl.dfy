/**
 * The gamification service as an object over its three stores: the ledger
 * table, the unlock table and the badge catalog. Each method is proved to
 * leave the stores exactly as the value-level definitions of
 * `GamificationServices` and `Gamification` say.
 */
module GamificationServiceImpl {
  import opened Common
  import opened UserStatsModel
  import opened Badges
  import opened UserBadges
  import opened BadgeRepository
  import opened StatsRepository
  import opened GamificationDto
  import opened Gamification
  import opened GamificationServices

  class GamificationService {
    const statsTable: StatsTable
    const badgeStore: UserBadgeStore
    /** The badge table, which the service only reads. */
    const catalog: seq<Badge>
    /** The ids of the registered users. */
    const users: set<UserId>

    ghost predicate Valid()
      reads this, statsTable, badgeStore
    {
      statsTable.Valid() && badgeStore.Valid()
    }

    constructor (statsTable: StatsTable, badgeStore: UserBadgeStore, catalog: seq<Badge>, users: set<UserId>)
      requires statsTable.Valid() && badgeStore.Valid()
      ensures this.statsTable == statsTable && this.badgeStore == badgeStore
      ensures this.catalog == catalog && this.users == users
      ensures Valid()
    {
      this.statsTable := statsTable;
      this.badgeStore := badgeStore;
      this.catalog := catalog;
      this.users := users;
    }

    /**
     * `getOrCreateUserStats`: the stored ledger, or a fresh one saved for a
     * registered user; "Utente non trovato" for an id with neither.
     */
    method GetOrCreateUserStats(user: UserId) returns (r: Result<UserStats, string>)
      requires Valid()
      modifies statsTable
      ensures Valid() && badgeStore.rows == old(badgeStore.rows)
      ensures r.Err? <==> Unknown(old(statsTable.rows), users, user)
      ensures r.Err? ==> r.error == "Utente non trovato" && statsTable.rows == old(statsTable.rows)
      ensures r.Ok? ==> fresh(r.value) && r.value.Valid() && r.value.userId == user
                        && r.value.Row() == Loaded(old(statsTable.rows), user)
      ensures r.Ok? ==> statsTable.rows == if StatsRepository.FindByUserId(old(statsTable.rows), user).Some?
                                           then old(statsTable.rows)
                                           else Upsert(old(statsTable.rows), FreshRow(user))
    {
      var found := StatsRepository.FindByUserId(statsTable.rows, user);
      if found.Some? {
        var stats := new UserStats.Load(found.value);
        r := Ok(stats);
      } else if user !in users {
        r := Err("Utente non trovato");
      } else {
        var stats := new UserStats(user);
        statsTable.Save(stats.Row());
        r := Ok(stats);
      }
    }

    /**
     * `checkAndUnlockByType`: for each badge the value qualifies for that the
     * user does not hold yet, save the unlock record, pay the reward and
     * append the badge to `newly`.
     */
    method CheckAndUnlockByType(user: UserId, stats: UserStats, requirementType: string, currentValue: int,
                                newly: seq<Badge>, now: int) returns (acc: seq<Badge>)
      requires Valid() && stats.Valid()
      modifies stats, badgeStore
      ensures Valid() && stats.Valid()
      ensures UnlockState(stats.Row(), badgeStore.rows, acc)
           == UnlockByType(UnlockState(old(stats.Row()), old(badgeStore.rows), newly), user, catalog,
                           requirementType, currentValue, now)
    {
      var eligible := FindUnlockableBadges(catalog, requirementType, currentValue);
      ghost var st0 := UnlockState(stats.Row(), badgeStore.rows, newly);
      acc := newly;
      for i := 0 to |eligible|
        invariant stats.Valid() && badgeStore.Valid()
        invariant UnlockState(stats.Row(), badgeStore.rows, acc) == UnlockEach(st0, user, eligible[..i], currentValue, now)
      {
        ghost var prev := UnlockState(stats.Row(), badgeStore.rows, acc);
        var badge := eligible[i];
        var held := badgeStore.ExistsByUserIdAndBadgeId(user, badge.id);
        if !held {
          var _ := badgeStore.Save(NewUserBadge(user, badge, now, currentValue));
          if badge.xpReward.Some? && badge.xpReward.value > 0 {
            var _ := stats.AddXp(badge.xpReward.value);
          }
          acc := acc + [badge];
        }
        assert UnlockState(stats.Row(), badgeStore.rows, acc) == Unlock(prev, user, badge, currentValue, now);
        EachStep(st0, user, eligible, i, currentValue, now);
      }
      assert eligible[..|eligible|] == eligible;
    }

    /** `checkAndUnlockBadges`: the eight types in order, each value read from the ledger at its turn. */
    method CheckAndUnlockBadges(user: UserId, stats: UserStats, now: int) returns (newly: seq<Badge>)
      requires Valid() && stats.Valid()
      modifies stats, badgeStore
      ensures Valid() && stats.Valid()
      ensures UnlockState(stats.Row(), badgeStore.rows, newly)
           == UnlockAll(UnlockState(old(stats.Row()), old(badgeStore.rows), []), user, catalog, now)
    {
      ghost var st0 := UnlockState(stats.Row(), badgeStore.rows, []);
      ghost var done: seq<string> := [];
      newly := [];
      CurrentValueOfTypes(stats.Row());
      newly := TypeTurn(user, stats, "EXPLANATIONS_COUNT", stats.explanationsRequested, newly, now, st0, done);
      done := done + ["EXPLANATIONS_COUNT"];
      CurrentValueOfTypes(stats.Row());
      newly := TypeTurn(user, stats, "QUIZZES_COMPLETED", stats.quizzesCompleted, newly, now, st0, done);
      done := done + ["QUIZZES_COMPLETED"];
      CurrentValueOfTypes(stats.Row());
      newly := TypeTurn(user, stats, "QUIZZES_PASSED", stats.quizzesPassed, newly, now, st0, done);
      done := done + ["QUIZZES_PASSED"];
      CurrentValueOfTypes(stats.Row());
      newly := TypeTurn(user, stats, "FLASHCARDS_STUDIED", stats.flashcardsStudied, newly, now, st0, done);
      done := done + ["FLASHCARDS_STUDIED"];
      CurrentValueOfTypes(stats.Row());
      newly := TypeTurn(user, stats, "STREAK_DAYS", stats.currentStreak, newly, now, st0, done);
      done := done + ["STREAK_DAYS"];
      CurrentValueOfTypes(stats.Row());
      newly := TypeTurn(user, stats, "TOTAL_XP", stats.totalXp, newly, now, st0, done);
      done := done + ["TOTAL_XP"];
      CurrentValueOfTypes(stats.Row());
      newly := TypeTurn(user, stats, "LEVEL", stats.level, newly, now, st0, done);
      done := done + ["LEVEL"];
      CurrentValueOfTypes(stats.Row());
      newly := TypeTurn(user, stats, "FOCUS_SESSIONS", stats.focusSessionsCompleted, newly, now, st0, done);
      done := done + ["FOCUS_SESSIONS"];
      RequirementTypesInOrder();
    }

    /**
     * One of the eight calls of `checkAndUnlockBadges`: after the types in
     * `done`, the turn of one more.
     */
    method TypeTurn(user: UserId, stats: UserStats, requirementType: string, currentValue: int, newly: seq<Badge>,
                    now: int, ghost st0: UnlockState, ghost done: seq<string>) returns (acc: seq<Badge>)
      requires Valid() && stats.Valid() && StateValid(st0)
      requires UnlockState(stats.Row(), badgeStore.rows, newly) == UnlockTypes(st0, user, catalog, done, now)
      requires currentValue == CurrentValue(stats.Row(), requirementType)
      modifies stats, badgeStore
      ensures Valid() && stats.Valid()
      ensures UnlockState(stats.Row(), badgeStore.rows, acc) == UnlockTypes(st0, user, catalog, done + [requirementType], now)
    {
      TypesSnoc(st0, user, catalog, done, requirementType, now);
      acc := CheckAndUnlockByType(user, stats, requirementType, currentValue, newly, now);
    }

    /**
     * The tail the four `record*Xp` methods share once the counter is bumped:
     * the streak, the activity XP, the save, the badge pass and the response;
     * the ledger is written once more when the transaction commits.
     */
    method FinishEvent(stats: UserStats, eventType: string, xp: int, today: int, now: int)
      returns (response: XpEventResponse)
      requires Valid() && stats.Valid() && xp >= 0
      modifies stats, statsTable, badgeStore
      ensures Valid() && stats.Valid()
      ensures var o := RecordEvent(old(stats.Row()), eventType, xp, old(badgeStore.rows), stats.userId, catalog, today, now);
              && response == o.response && stats.Row() == o.row && badgeStore.rows == o.records
              && statsTable.rows == Upsert(old(statsTable.rows), o.row)
    {
      ghost var rows0 := statsTable.rows;
      stats.UpdateStreak(today);
      var leveledUp := stats.AddXp(xp);
      ghost var gained := stats.Row();
      statsTable.Save(stats.Row());
      var newBadges := CheckAndUnlockBadges(stats.userId, stats, now);
      response := NewXpEventResponse(eventType, xp, stats.Row(), leveledUp, newBadges);
      statsTable.Save(stats.Row());
      UpsertTwice(rows0, gained, stats.Row());
    }

    /** `recordExplanationXp`: one more explanation, worth 10 XP. */
    method RecordExplanationXp(user: UserId, today: int, now: int) returns (r: Result<XpEventResponse, string>)
      requires Valid()
      modifies statsTable, badgeStore
      ensures Valid()
      ensures r.Err? <==> Unknown(old(statsTable.rows), users, user)
      ensures r.Err? ==> r.error == "Utente non trovato"
                         && statsTable.rows == old(statsTable.rows) && badgeStore.rows == old(badgeStore.rows)
      ensures r.Ok? ==> var o := RecordEvent(CountExplanation(Loaded(old(statsTable.rows), user)), "EXPLANATION",
                                             XpExplanation, old(badgeStore.rows), user, catalog, today, now);
                        && r.value == o.response
                        && statsTable.rows == Upsert(old(statsTable.rows), o.row) && badgeStore.rows == o.records
    {
      var loaded := GetOrCreateUserStats(user);
      if loaded.Err? {
        return Err(loaded.error);
      }
      var stats := loaded.value;
      stats.IncrementExplanations();
      var response := FinishEvent(stats, "EXPLANATION", XpExplanation, today, now);
      UpsertTwice(old(statsTable.rows), FreshRow(user), stats.Row());
      r := Ok(response);
    }

    /** `recordQuizXp`: one more quiz, worth 20 XP and 10 more when passed. */
    method RecordQuizXp(user: UserId, passed: bool, today: int, now: int) returns (r: Result<XpEventResponse, string>)
      requires Valid()
      modifies statsTable, badgeStore
      ensures Valid()
      ensures r.Err? <==> Unknown(old(statsTable.rows), users, user)
      ensures r.Err? ==> r.error == "Utente non trovato"
                         && statsTable.rows == old(statsTable.rows) && badgeStore.rows == old(badgeStore.rows)
      ensures r.Ok? ==> var o := RecordEvent(CountQuiz(Loaded(old(statsTable.rows), user), passed), "QUIZ",
                                             QuizXp(passed), old(badgeStore.rows), user, catalog, today, now);
                        && r.value == o.response
                        && statsTable.rows == Upsert(old(statsTable.rows), o.row) && badgeStore.rows == o.records
    {
      var loaded := GetOrCreateUserStats(user);
      if loaded.Err? {
        return Err(loaded.error);
      }
      var stats := loaded.value;
      var xpEarned := XpQuizCompleted;
      if passed {
        xpEarned := xpEarned + XpQuizPassedBonus;
      }
      assert xpEarned == QuizXp(passed);
      stats.IncrementQuizzesCompleted(passed);
      var response := FinishEvent(stats, "QUIZ", xpEarned, today, now);
      UpsertTwice(old(statsTable.rows), FreshRow(user), stats.Row());
      r := Ok(response);
    }

    /** `recordFlashcardXp`: the studied cards, worth 2 XP each. */
    method RecordFlashcardXp(user: UserId, cardsStudied: int, today: int, now: int) returns (r: Result<XpEventResponse, string>)
      requires Valid() && cardsStudied >= 0
      modifies statsTable, badgeStore
      ensures Valid()
      ensures r.Err? <==> Unknown(old(statsTable.rows), users, user)
      ensures r.Err? ==> r.error == "Utente non trovato"
                         && statsTable.rows == old(statsTable.rows) && badgeStore.rows == old(badgeStore.rows)
      ensures r.Ok? ==> var o := RecordEvent(CountFlashcards(Loaded(old(statsTable.rows), user), cardsStudied), "FLASHCARD",
                                             FlashcardXp(cardsStudied), old(badgeStore.rows), user, catalog, today, now);
                        && r.value == o.response
                        && statsTable.rows == Upsert(old(statsTable.rows), o.row) && badgeStore.rows == o.records
    {
      var loaded := GetOrCreateUserStats(user);
      if loaded.Err? {
        return Err(loaded.error);
      }
      var stats := loaded.value;
      var xpEarned := cardsStudied * XpFlashcardPerCard;
      stats.IncrementFlashcardsStudied(cardsStudied);
      var response := FinishEvent(stats, "FLASHCARD", xpEarned, today, now);
      UpsertTwice(old(statsTable.rows), FreshRow(user), stats.Row());
      r := Ok(response);
    }

    /** `recordFocusSessionXp`: one more session of `durationMinutes`, worth the XP the caller awards. */
    method RecordFocusSessionXp(user: UserId, durationMinutes: int, xpToAward: int, today: int, now: int)
      returns (r: Result<XpEventResponse, string>)
      requires Valid() && xpToAward >= 0
      modifies statsTable, badgeStore
      ensures Valid()
      ensures r.Err? <==> Unknown(old(statsTable.rows), users, user)
      ensures r.Err? ==> r.error == "Utente non trovato"
                         && statsTable.rows == old(statsTable.rows) && badgeStore.rows == old(badgeStore.rows)
      ensures r.Ok? ==> var o := RecordEvent(CountFocusSession(Loaded(old(statsTable.rows), user), durationMinutes),
                                             "FOCUS_SESSION", xpToAward, old(badgeStore.rows), user, catalog, today, now);
                        && r.value == o.response
                        && statsTable.rows == Upsert(old(statsTable.rows), o.row) && badgeStore.rows == o.records
    {
      var loaded := GetOrCreateUserStats(user);
      if loaded.Err? {
        return Err(loaded.error);
      }
      var stats := loaded.value;
      stats.IncrementFocusSessions(durationMinutes);
      var response := FinishEvent(stats, "FOCUS_SESSION", xpToAward, today, now);
      UpsertTwice(old(statsTable.rows), FreshRow(user), stats.Row());
      r := Ok(response);
    }

    /** `getUserRank`: one plus the user's position in the type's top 1000, or -1. */
    method GetUserRank(user: UserId, rankType: string) returns (rank: int)
      ensures rank == RankIn(RankList(statsTable.rows, rankType), user)
    {
      var allStats := RankList(statsTable.rows, rankType);
      var i := 0;
      while i < |allStats|
        invariant 0 <= i <= |allStats|
        invariant forall j :: 0 <= j < i ==> allStats[j].userId != user
      {
        if allStats[i].userId == user {
          return i + 1;
        }
        i := i + 1;
      }
      return -1;
    }

    /** `getUserStatsResponse`: the summary of the loaded (or created) ledger and the user's badge count. */
    method GetUserStatsResponse(user: UserId) returns (r: Result<UserStatsResponse, string>)
      requires Valid()
      modifies statsTable
      ensures Valid() && badgeStore.rows == old(badgeStore.rows)
      ensures r.Err? <==> Unknown(old(statsTable.rows), users, user)
      ensures r.Ok? ==> FromUserStats(Reading(Loaded(old(statsTable.rows), user)), CountByUserId(badgeStore.rows, user))
                        == Some(r.value)
      ensures r.Ok? ==> r.value.badgesUnlocked == CountByUserId(badgeStore.rows, user)
                        && r.value.totalXp == Loaded(old(statsTable.rows), user).totalXp
    {
      var loaded := GetOrCreateUserStats(user);
      if loaded.Err? {
        return Err(loaded.error);
      }
      var stats := loaded.value;
      var badgeCount := CountByUserId(badgeStore.rows, user);
      SummaryOfStoredLedger(stats.Row(), badgeCount);
      var summary := FromUserStats(Reading(stats.Row()), badgeCount);
      r := Ok(summary.value);
    }

    /** `getAllBadgesWithStatus`: the active catalog marked with the user's unlocks and progress. */
    method GetAllBadgesWithStatus(user: UserId) returns (r: Result<seq<BadgeResponse>, string>)
      requires Valid() && NonZeroThresholds(catalog)
      modifies statsTable
      ensures Valid() && badgeStore.rows == old(badgeStore.rows)
      ensures r.Err? <==> Unknown(old(statsTable.rows), users, user)
      ensures r.Ok? ==> r.value == AllBadgesWithStatus(catalog, badgeStore.rows, user, Loaded(old(statsTable.rows), user))
    {
      var loaded := GetOrCreateUserStats(user);
      if loaded.Err? {
        return Err(loaded.error);
      }
      r := Ok(AllBadgesWithStatus(catalog, badgeStore.rows, user, loaded.value.Row()));
    }

    /** `markBadgesAsSeen`: clears the new flag on every record of the user. */
    method MarkBadgesAsSeen(user: UserId)
      requires Valid()
      modifies badgeStore
      ensures Valid() && badgeStore.rows == MarkSeen(old(badgeStore.rows), user)
    {
      badgeStore.MarkAllAsSeenForUser(user);
    }
  }
}
