# StudyBuddy core, modelled in Dafny

StudyBuddy is a study-assistant backend. A student asks an AI for explanations, generates and takes quizzes, studies flashcard decks and runs focus sessions in the browser. Each of these activities earns experience points (XP). The XP feed a per-user ledger (`UserStats`): level, weekly and monthly totals, a daily streak and activity counters. Reaching a threshold unlocks badges, and some badges pay bonus XP.

This project models that core and proves what it promises:

- **Gamification.** This covers the XP ledger and its level curve, and the streak over calendar days. It also covers the badge catalogue and unlock pass, with the reward XP a badge pays. The service records each kind of event and loads or creates a ledger. Further pieces are the badge-progress percentage, the summary DTO, the leaderboards and the REST responses of the gamification controller. Key files: `user_stats.dfy`, `badge*.dfy`, `user_badge.dfy`, `gamification*.dfy` and `stats_repository.dfy`.
- **Quizzes.** This covers questions and quizzes and their answer checking and scoring. The JSON the AI returns is mapped onto questions, including the extraction of the correct answer letter, and answers are submitted. The passing threshold and the feedback messages are modelled, both by band and by language. Files: `quiz.dfy`, `quiz_mapper.dfy` and `quiz_service.dfy`.
- **Flashcards.** This covers decks and cards, their counters and tags, and the mastery and review rules. The service creates, studies and deletes cards, and decides the language requested for generation. Files: `flashcard.dfy` and `flashcard_service.dfy`.
- **Topic progress and recommendations.** This covers per-topic averages and the recommendation rules with their priorities. It also covers the repository queries (active, by priority, expiry) and the service that generates, dismisses and completes recommendations; generation loads or creates the user's stats ledger first. Files: `user_progress.dfy` and `recommendation*.dfy`.
- **Enumerations.** The difficulty levels and education levels have their names, display names, order, parsing and next and previous steps. File: `levels.dfy`.
- **Users and explanations.** This covers registration with its validation and defaults, and the mapping of education levels. It also covers the explanation request, which records its XP once. Files: `users.dfy` and `explanation_service.dfy`.
- **AI helpers.** The model covers the deterministic parts of the AI service: code-fence stripping, the language instruction, the fallback switch and the availability checks. File: `ai_service.dfy`.
- **Focus timer.** The browser's focus manager covers the countdown tick, the catch-up on reload from the time of the last save (a paused session is not caught up) and completion. It also covers the allowed-page check. File: `focus.dfy`.

How the model treats the environment:

- The database is an in-memory table: a `seq` of rows that the repositories' methods upsert and filter.
- JPA entities that the source changes in place are classes with `modifies` clauses. Examples are the stats ledger, quizzes, decks and recommendations.
- Clocks are parameters: a day number for `LocalDate`, seconds for `LocalDateTime`, milliseconds for `Date.now()`.
- The AI is a function parameter whose result is a `Result` value: an answer or an error. The AI's answer is never inspected beyond that.
- Sorting (`ORDER BY`) is a stable generic insertion sort; `Queries` holds it together with filtering helpers.
- Java's truncating `/` and `%` are spelled out as `Common.JavaDiv` and `Common.JavaRem`.
- A transactional call that fails changes nothing.

## Model

| member | source | states |
|---|---|---|
| Badges.NewBadge | src/main/java/com/ai/studybuddy/model/gamification/Badge.java:30-52 | a new badge has colour #6366F1, common rarity, reward 0, is active and has no requirement |
| Badges.PaidReward | src/main/java/com/ai/studybuddy/service/impl/GamificationServiceImpl.java:363-366 | a badge pays a bonus exactly when its reward is present and positive, and then pays that reward |
| BadgeRepository.FindUnlockableBadges | src/main/java/com/ai/studybuddy/repository/BadgeRepository.java:22-23 | a badge is returned exactly when it is in the catalog, active, of the requirement type and with a threshold at most the value |
| BadgeRepository.UnlockableDistinct | src/main/java/com/ai/studybuddy/repository/BadgeRepository.java:22-23 | the qualifying badges of a catalog with distinct ids have distinct ids |
| BadgeRepository.UnlockableMonotone | src/main/java/com/ai/studybuddy/repository/BadgeRepository.java:22-23 | a larger value qualifies for every badge a smaller one does |
| BadgeRepository.UnlockableNeedsThreshold | src/main/java/com/ai/studybuddy/repository/BadgeRepository.java:22-23 | a badge without a threshold, or an inactive one, is never returned |
| BadgeRepository.FindLockedBadgesForUser | src/main/java/com/ai/studybuddy/repository/BadgeRepository.java:25-27 | a badge is returned exactly when it is in the catalog, active, and the user has no record of it |
| BadgeRepository.UnlockRemovesFromLocked | src/main/java/com/ai/studybuddy/repository/BadgeRepository.java:25-27 | a badge the user has just unlocked is no longer locked for that user |
| BadgeRepository.FindActiveByRequirementAsc | src/main/java/com/ai/studybuddy/repository/BadgeRepository.java:18 | the active badges of the catalog, each once, in ascending threshold order |
| UserBadges.NewUserBadge | src/main/java/com/ai/studybuddy/service/impl/GamificationServiceImpl.java:357-361 | the stored record is new, unlocked now, for that user and badge, with the value that unlocked it |
| UserBadges.AppendFreshPair | src/main/java/com/ai/studybuddy/model/gamification/UserBadge.java:12-13 | a record for a pair not yet present keeps the (user, badge) pairs unique and makes the pair present |
| UserBadges.ExistsPairAppend | src/main/java/com/ai/studybuddy/repository/UserBadgeRepository.java:24 | a pair is present after appending rows exactly when it was present before or is in the new rows |
| UserBadges.FindByUserId | src/main/java/com/ai/studybuddy/repository/UserBadgeRepository.java:16 | a record is returned exactly when it belongs to the user |
| UserBadges.CountByUserId | src/main/java/com/ai/studybuddy/repository/UserBadgeRepository.java:28-29 | the count is at most the size of the table |
| UserBadges.CountIsListingSize | src/main/java/com/ai/studybuddy/repository/UserBadgeRepository.java:28-29 | the count equals the number of the user's records |
| UserBadges.FindNew | src/main/java/com/ai/studybuddy/repository/UserBadgeRepository.java:18 | a record is returned exactly when it belongs to the user and is new |
| UserBadges.FindByUserIdOrderByUnlockedAtDesc | src/main/java/com/ai/studybuddy/repository/UserBadgeRepository.java:16 | the user's records, each once, latest unlock first |
| UserBadges.MarkSeen | src/main/java/com/ai/studybuddy/repository/UserBadgeRepository.java:34-36 | every row of the user has its new flag cleared, every other row is unchanged |
| UserBadges.MarkSeenIdempotent | src/main/java/com/ai/studybuddy/repository/UserBadgeRepository.java:34-36 | marking twice is marking once |
| UserBadges.MarkSeenClearsNew | src/main/java/com/ai/studybuddy/repository/UserBadgeRepository.java:34-36 | afterwards the user has no new record, another user's new records are untouched, and the user's count is unchanged |
| UserBadges.MarkSeenOthers | src/main/java/com/ai/studybuddy/repository/UserBadgeRepository.java:34-36 | another user's new records are unchanged |
| UserBadges.MarkSeenCount | src/main/java/com/ai/studybuddy/repository/UserBadgeRepository.java:34-36 | the user's count is unchanged |
| UserBadges.MarkSeenKeepsPairs | src/main/java/com/ai/studybuddy/repository/UserBadgeRepository.java:34-36 | the unique pair constraint still holds |
| UserBadges.UserBadgeStore.constructor | src/main/java/com/ai/studybuddy/model/gamification/UserBadge.java:12-13 | an empty table satisfies the unique pair constraint |
| UserBadges.UserBadgeStore.Save | src/main/java/com/ai/studybuddy/model/gamification/UserBadge.java:12-13 | a record is stored exactly when its pair is not yet present, and then appended; the constraint is kept |
| UserBadges.UserBadgeStore.ExistsByUserIdAndBadgeId | src/main/java/com/ai/studybuddy/repository/UserBadgeRepository.java:24 | true exactly when the pair is present |
| UserBadges.UserBadgeStore.MarkAllAsSeenForUser | src/main/java/com/ai/studybuddy/repository/UserBadgeRepository.java:34-36 | the table becomes MarkSeen of the old one and the constraint is kept |
| StatsRepository.FindByUserId | src/main/java/com/ai/studybuddy/repository/UserStatsRepository.java:17 | a ledger is found exactly when the table holds one of the user, and the one found is in the table and belongs to the user |
| StatsRepository.FindByUserIdUnique | src/main/java/com/ai/studybuddy/repository/UserStatsRepository.java:17 | with one ledger per user the lookup returns the user's only ledger |
| StatsRepository.IndexOfUser | src/main/java/com/ai/studybuddy/repository/UserStatsRepository.java:17 | the position of the first ledger of the user, or the table size when there is none |
| StatsRepository.UpsertTwice | src/main/java/com/ai/studybuddy/repository/UserStatsRepository.java:15 | saving two ledgers of the same user leaves the table as the second save alone would |
| StatsRepository.UpsertFacts | src/main/java/com/ai/studybuddy/repository/UserStatsRepository.java:15 | after a save the user's lookup returns the saved ledger, every other user's lookup is unchanged, the table stays valid, and it grows by one row exactly when the user had no ledger |
| StatsRepository.OtherLookup | src/main/java/com/ai/studybuddy/repository/UserStatsRepository.java:17 | two tables that agree on a user's rows answer that user's lookup alike |
| StatsRepository.ResetWeekly | src/main/java/com/ai/studybuddy/repository/UserStatsRepository.java:38-40 | every ledger has its weekly XP set to 0 and nothing else changes |
| StatsRepository.ResetMonthly | src/main/java/com/ai/studybuddy/repository/UserStatsRepository.java:43-45 | every ledger has its monthly XP set to 0 and nothing else changes |
| StatsRepository.ResetFacts | src/main/java/com/ai/studybuddy/repository/UserStatsRepository.java:37-45 | both resets keep the table valid, are idempotent and zero their period total in every ledger |
| StatsRepository.FindTopBy | src/main/java/com/ai/studybuddy/repository/UserStatsRepository.java:21-35 | the limit or all rows when fewer, a sub-multiset of the table, in descending key order, and a row is left out only when the board is full of rows whose key is at least its own |
| StatsRepository.FindTopByTotalXp | src/main/java/com/ai/studybuddy/repository/UserStatsRepository.java:22-23 | the limit or all rows when fewer, a sub-multiset of the table, by non-increasing total XP |
| StatsRepository.FindTopByWeeklyXp | src/main/java/com/ai/studybuddy/repository/UserStatsRepository.java:26-27 | the limit or all rows when fewer, a sub-multiset of the table, by non-increasing weekly XP |
| StatsRepository.FindTopByStreak | src/main/java/com/ai/studybuddy/repository/UserStatsRepository.java:30-31 | the limit or all rows when fewer, a sub-multiset of the table, by non-increasing current streak |
| StatsRepository.FindTopByLevel | src/main/java/com/ai/studybuddy/repository/UserStatsRepository.java:34-35 | the limit or all rows when fewer, a sub-multiset of the table, by level and then by total XP, both descending |
| StatsRepository.LeaderboardKeepsTop | src/main/java/com/ai/studybuddy/repository/UserStatsRepository.java:22-23 | a ledger is on the total-XP board, or the board is full of ledgers with at least its total |
| StatsRepository.WeeklyLeaderboardKeepsTop | src/main/java/com/ai/studybuddy/repository/UserStatsRepository.java:26-27 | a ledger is on the weekly board, or the board is full of ledgers with at least its weekly XP |
| StatsRepository.StreakLeaderboardKeepsTop | src/main/java/com/ai/studybuddy/repository/UserStatsRepository.java:30-31 | a ledger is on the streak board, or the board is full of ledgers with at least its current streak |
| StatsRepository.LevelLeaderboardKeepsTop | src/main/java/com/ai/studybuddy/repository/UserStatsRepository.java:34-35 | a ledger is on the level board, or the board is full of ledgers ahead of or level with it by (level, total XP) |
| StatsRepository.FindUsersWithBrokenStreak | src/main/java/com/ai/studybuddy/repository/UserStatsRepository.java:51-52 | a ledger is returned exactly when its last activity date is before today and its streak is positive |
| StatsRepository.BrokenStreakIncludesYesterday | src/main/java/com/ai/studybuddy/repository/UserStatsRepository.java:48-52 | a user active yesterday is reported although the next activity would extend the streak; a user never active is not reported |
| StatsRepository.StatsTable.constructor | src/main/java/com/ai/studybuddy/repository/UserStatsRepository.java:15 | a table built from valid rows holds them |
| StatsRepository.StatsTable.Save | src/main/java/com/ai/studybuddy/repository/UserStatsRepository.java:15 | the table becomes the upsert of the ledger, the user's lookup returns it, every other lookup is unchanged, the table stays valid |
| StatsRepository.StatsTable.ResetWeeklyXp | src/main/java/com/ai/studybuddy/repository/UserStatsRepository.java:38-40 | the table becomes ResetWeekly of the old one and stays valid |
| StatsRepository.StatsTable.ResetMonthlyXp | src/main/java/com/ai/studybuddy/repository/UserStatsRepository.java:43-45 | the table becomes ResetMonthly of the old one and stays valid |
| GamificationDto.NewXpEventResponse | src/main/java/com/ai/studybuddy/dto/gamification/GamificationDTO.java:29-37 | the event type, amount, level-up flag and badges come from the caller, the total and the level from the ledger at the time of building |
| GamificationDto.XpForCurrentLevel | src/main/java/com/ai/studybuddy/dto/gamification/GamificationDTO.java:89-90 | 0 at level 1 or below, at least 100 times the level from level 2 on |
| GamificationDto.FromUserStats | src/main/java/com/ai/studybuddy/dto/gamification/GamificationDTO.java:75-100 | no summary (a null pointer failure) exactly when the level, total XP or threshold is NULL; otherwise the user, badge count, total, level and threshold are copied, the progress is the ledger's percentage and the XP within the level is the total minus the current level's threshold |
| GamificationDto.SummaryOfStoredLedger | src/main/java/com/ai/studybuddy/dto/gamification/GamificationDTO.java:75-100 | a stored ledger always has a summary; its XP within the level is negative exactly on a level-2 ledger below 282 XP, and otherwise its progress lies in [0, 100) |
| GamificationDto.LevelTwoSummaryNegative | src/main/java/com/ai/studybuddy/dto/gamification/GamificationDTO.java:89-91 | a fresh ledger given 100 XP shows -182 XP within level 2 |
| GamificationDto.RarityLabel | src/main/java/com/ai/studybuddy/dto/gamification/GamificationDTO.java:149 | the rarity's name, or "COMMON" when it is NULL |
| GamificationDto.FromBadge | src/main/java/com/ai/studybuddy/dto/gamification/GamificationDTO.java:141-155 | the catalog fields are copied, the rarity is its label, and the unlock state is the caller's |
| GamificationDto.FromUserBadge | src/main/java/com/ai/studybuddy/dto/gamification/GamificationDTO.java:157-159 | an unlocked badge at 100 percent progress, unlocked when the record says |
| GamificationDto.NewLeaderboardEntry | src/main/java/com/ai/studybuddy/dto/gamification/GamificationDTO.java:191-205 | the rank, user and type are the caller's, the level defaults to 1, the value depends on the type |
| GamificationDto.SetRank | src/main/java/com/ai/studybuddy/dto/gamification/GamificationDTO.java:217 | only the rank changes |
| GamificationDto.EntryValueOfLedger | src/main/java/com/ai/studybuddy/dto/gamification/GamificationDTO.java:199-204 | a stored ledger shows its total XP for "XP" and any unknown type, its weekly XP for "WEEKLY_XP", its current streak for "STREAK", and its level |
| UserStatsModel.XpForLevel | src/main/java/com/ai/studybuddy/model/gamification/UserStats.java:126-128 | the threshold of level n is the integer part of 100·n^1.5, i.e. the unique r with r² ≤ 10000·n³ < (r+1)², and it is at least 100·n |
| UserStatsModel.CurveUnique | src/main/java/com/ai/studybuddy/model/gamification/UserStats.java:126-128 | at most one natural is the integer part of 100·n^1.5 |
| UserStatsModel.CurveExists | src/main/java/com/ai/studybuddy/model/gamification/UserStats.java:126-128 | the integer square root of 10000·n³ is the integer part of 100·n^1.5 |
| UserStatsModel.CurveAt | src/main/java/com/ai/studybuddy/model/gamification/UserStats.java:126-128 | any r meeting the curve condition for n is the threshold of level n |
| UserStatsModel.XpForLevelValues | src/main/java/com/ai/studybuddy/model/gamification/UserStats.java:126-128 | levels 1 to 5 need 100, 282, 519, 800 and 1118 XP |
| UserStatsModel.XpForLevelStep | src/main/java/com/ai/studybuddy/model/gamification/UserStats.java:126-128 | each level needs strictly more XP than the one before |
| UserStatsModel.XpForLevelIncreasing | src/main/java/com/ai/studybuddy/model/gamification/UserStats.java:126-128 | the thresholds are strictly increasing in the level |
| UserStatsModel.XpForLevelAtMost | src/main/java/com/ai/studybuddy/model/gamification/UserStats.java:126-128 | the threshold of level n is at most 100·n² |
| UserStatsModel.CurveAtLeastLine | src/main/java/com/ai/studybuddy/model/gamification/UserStats.java:126-128 | the threshold of level n is at least 100·n |
| UserStatsModel.SettleFacts | src/main/java/com/ai/studybuddy/model/gamification/UserStats.java:112-117 | the level-up loop ends at a level no lower than the start, with the total below the final threshold; the level is unchanged exactly when the total starts below the threshold, and after a climb the threshold is the curve at the next level and the total reached the last crossed threshold |
| UserStatsModel.SettleStep | src/main/java/com/ai/studybuddy/model/gamification/UserStats.java:113-117 | one round of the loop moves to the next level with the curve of the level after it as threshold and does not change where the loop ends |
| UserStatsModel.SettleCompose | src/main/java/com/ai/studybuddy/model/gamification/UserStats.java:106-120 | settling at a smaller total and then at a larger one ends where settling once at the larger one ends |
| UserStatsModel.Climb | src/main/java/com/ai/studybuddy/model/gamification/UserStats.java:112-117 | the loop returns the settled level and threshold, and reports a level-up exactly when the level rose |
| UserStatsModel.FreshRow | src/main/java/com/ai/studybuddy/model/gamification/UserStats.java:31-79 | a new ledger has zero XP, level 1, threshold 100 and no activity date, and satisfies the ledger invariant |
| UserStatsModel.GainXp | src/main/java/com/ai/studybuddy/model/gamification/UserStats.java:106-120 | the total, weekly and monthly XP move by the award, of any sign; the level never falls and rises exactly when the new total reaches the threshold; a negative award leaves level and threshold unchanged; every other field is unchanged; the ledger invariant is kept for a non-negative award |
| UserStatsModel.GainXpBelowThreshold | src/main/java/com/ai/studybuddy/model/gamification/UserStats.java:106-120 | an award, negative ones included, that stays below the threshold leaves the level and the threshold as they were |
| UserStatsModel.GainXpTwice | src/main/java/com/ai/studybuddy/model/gamification/UserStats.java:106-120 | two awards in a row leave the same ledger as one award of their sum |
| UserStatsModel.GainXpSeveralLevels | src/main/java/com/ai/studybuddy/model/gamification/UserStats.java:113-117 | one award of 1000 XP takes a fresh ledger from level 1 to level 4 with threshold 1118 |
| UserStatsModel.FreshLevelTwoAtHundred | src/main/java/com/ai/studybuddy/model/gamification/UserStats.java:76-120 | on a fresh ledger 99 XP stay at level 1 and 100 XP reach level 2, whose next threshold is 519 |
| UserStatsModel.LevelProgressBounds | src/main/java/com/ai/studybuddy/model/gamification/UserStats.java:155-162 | the progress percentage lies in [0, 100) except on a level-2 ledger below 282 XP |
| UserStatsModel.LevelTwoProgressNegative | src/main/java/com/ai/studybuddy/model/gamification/UserStats.java:155-162 | a level-2 ledger below 282 XP reports a negative progress percentage |
| UserStatsModel.LevelProgressFacts | src/main/java/com/ai/studybuddy/model/gamification/UserStats.java:155-162 | both cases of the progress percentage in one statement: within [0, 100) on a normal ledger, negative on a level-2 ledger below 282 XP |
| UserStatsModel.StreakStep | src/main/java/com/ai/studybuddy/model/gamification/UserStats.java:133-151 | the activity date becomes today, the longest streak is the maximum of the old longest and the new current streak, nothing else changes and the invariant is kept |
| UserStatsModel.ConsecutiveDaysExtendStreak | src/main/java/com/ai/studybuddy/model/gamification/UserStats.java:133-151 | activity on k consecutive days after the last active day raises the current streak by k, the longest streak to at least that, and leaves the last day as the activity date |
| UserStatsModel.StreakSameDay | src/main/java/com/ai/studybuddy/model/gamification/UserStats.java:133-151 | a second activity on the same day changes nothing |
| UserStatsModel.StreakRestarts | src/main/java/com/ai/studybuddy/model/gamification/UserStats.java:133-151 | with no previous activity, a missed day or a date in the future the streak restarts at 1 |
| UserStatsModel.CountExplanation | src/main/java/com/ai/studybuddy/model/gamification/UserStats.java:167-169 | one more explanation and nothing else changes |
| UserStatsModel.CountQuiz | src/main/java/com/ai/studybuddy/model/gamification/UserStats.java:174-179 | one more completed quiz, one more passed quiz exactly when passed, nothing else changes |
| UserStatsModel.CountFlashcards | src/main/java/com/ai/studybuddy/model/gamification/UserStats.java:184-186 | the studied cards grow by the count and nothing else changes |
| UserStatsModel.CountFocusSession | src/main/java/com/ai/studybuddy/model/gamification/UserStats.java:191-194 | one more focus session and the study minutes grow by its duration, nothing else changes |
| UserStatsModel.UserStats.constructor | src/main/java/com/ai/studybuddy/model/gamification/UserStats.java:31-79 | a new entity holds the fresh ledger |
| UserStatsModel.UserStats.Load | src/main/java/com/ai/studybuddy/model/gamification/UserStats.java:18-87 | an entity loaded from a stored row holds exactly that row |
| UserStatsModel.UserStats.AddXp | src/main/java/com/ai/studybuddy/model/gamification/UserStats.java:106-120 | for an award of any sign, the fields after the call are the GainXp ledger of the old ones; the result is true exactly when the level rose; the ledger stays valid for a non-negative award |
| UserStatsModel.UserStats.SetLevel | src/main/java/com/ai/studybuddy/model/gamification/UserStats.java:114-115 | only the level and the threshold change |
| UserStatsModel.UserStats.UpdateStreak | src/main/java/com/ai/studybuddy/model/gamification/UserStats.java:133-151 | the fields after the call are the StreakStep ledger of the old ones for that calendar day |
| UserStatsModel.UserStats.LevelProgressPercentage | src/main/java/com/ai/studybuddy/model/gamification/UserStats.java:155-162 | within [0, 100) on a valid ledger, negative on a level-2 ledger below 282 XP |
| UserStatsModel.UserStats.IncrementExplanations | src/main/java/com/ai/studybuddy/model/gamification/UserStats.java:167-169 | the fields become CountExplanation of the old ones |
| UserStatsModel.UserStats.IncrementQuizzesCompleted | src/main/java/com/ai/studybuddy/model/gamification/UserStats.java:174-179 | the fields become CountQuiz of the old ones |
| UserStatsModel.UserStats.IncrementFlashcardsStudied | src/main/java/com/ai/studybuddy/model/gamification/UserStats.java:184-186 | the fields become CountFlashcards of the old ones |
| UserStatsModel.UserStats.IncrementFocusSessions | src/main/java/com/ai/studybuddy/model/gamification/UserStats.java:191-194 | the fields become CountFocusSession of the old ones |
| Difficulty.ValueOf | src/main/java/com/ai/studybuddy/util/enums/DifficultyLevel.java:40 | the constant whose name is exactly the string, and none when no constant has that name |
| Difficulty.DisplayMatch | src/main/java/com/ai/studybuddy/util/enums/DifficultyLevel.java:43-47 | the first constant whose display name equals the string ignoring case, and none when none does |
| Difficulty.FromString | src/main/java/com/ai/studybuddy/util/enums/DifficultyLevel.java:31-51 | a NULL or blank input gives INTERMEDIO |
| Difficulty.ParsesByName | src/main/java/com/ai/studybuddy/util/enums/DifficultyLevel.java:36-40 | an unpadded input whose upper-case form is a constant's name parses as that constant |
| Difficulty.FromStringRoundTrip | src/main/java/com/ai/studybuddy/util/enums/DifficultyLevel.java:31-51 | every constant parses back from its name and from its display name |
| Difficulty.BlankMatchesNothing | src/main/java/com/ai/studybuddy/util/enums/DifficultyLevel.java:36-47 | a blank string is neither a constant name nor a display name |
| Difficulty.PaddingOfBlank | src/main/java/com/ai/studybuddy/util/enums/DifficultyLevel.java:32-33 | a blank input and its trimmed form both give INTERMEDIO |
| Difficulty.PaddingAroundControls | src/main/java/com/ai/studybuddy/util/enums/DifficultyLevel.java:31-51 | an input that becomes blank only once trimmed gives INTERMEDIO, as its trimmed form does |
| Difficulty.LooksUpTrimmed | src/main/java/com/ai/studybuddy/util/enums/DifficultyLevel.java:36-50 | a non-blank input is looked up by its trimmed form |
| Difficulty.PaddingAroundWord | src/main/java/com/ai/studybuddy/util/enums/DifficultyLevel.java:36-50 | a padded word parses as the word itself |
| Difficulty.FromStringIgnoresPadding | src/main/java/com/ai/studybuddy/util/enums/DifficultyLevel.java:31-51 | surrounding white space never changes the parsed level |
| Difficulty.LowerCaseAccepted | src/main/java/com/ai/studybuddy/util/enums/DifficultyLevel.java:36-40 | "avanzato" parses as AVANZATO |
| Difficulty.UnknownWordIsIntermedio | src/main/java/com/ai/studybuddy/util/enums/DifficultyLevel.java:50 | a word that is no level gives INTERMEDIO |
| Difficulty.HarderIsStrictOrder | src/main/java/com/ai/studybuddy/util/enums/DifficultyLevel.java:56-58 | isHarderThan is irreflexive, transitive and total on distinct constants |
| Difficulty.NextLevel | src/main/java/com/ai/studybuddy/util/enums/DifficultyLevel.java:63-69 | one step harder, and unchanged exactly at AVANZATO |
| Difficulty.PreviousLevel | src/main/java/com/ai/studybuddy/util/enums/DifficultyLevel.java:74-80 | one step easier, and unchanged exactly at PRINCIPIANTE |
| Difficulty.StepsInverse | src/main/java/com/ai/studybuddy/util/enums/DifficultyLevel.java:63-80 | a step up and a step down undo each other away from the ends, and neither step makes the level harder in the wrong direction |
| Difficulty.ConstantAttributes | src/main/java/com/ai/studybuddy/util/enums/DifficultyLevel.java:8-26 | orders run from 1 to 3; order, name and display name each tell the constants apart; the name is the display name upper-cased |
| Education.FirstMatch | src/main/java/com/ai/studybuddy/util/enums/EducationLevel.java:30-35 | the first constant matching the string by name or display name ignoring case, and none when none does |
| Education.FromString | src/main/java/com/ai/studybuddy/util/enums/EducationLevel.java:25-37 | a NULL or blank input is an error; a result matches the input; otherwise the input is an error exactly when no constant matches it |
| Education.MatchLength | src/main/java/com/ai/studybuddy/util/enums/EducationLevel.java:4-7 | the length of a matching input already tells the constants apart |
| Education.ParsesUniquely | src/main/java/com/ai/studybuddy/util/enums/EducationLevel.java:30-35 | a non-blank input that exactly one constant matches parses as that constant |
| Education.FromStringRoundTrip | src/main/java/com/ai/studybuddy/util/enums/EducationLevel.java:25-37 | each constant parses back from its name and from its display name |
| Education.PaddedInputRejected | src/main/java/com/ai/studybuddy/util/enums/EducationLevel.java:30-36 | a padded name is rejected, since the input is not trimmed |
| Education.AccentsIgnoreCase | src/main/java/com/ai/studybuddy/util/enums/EducationLevel.java:31-32 | "UNIVERSITÀ" parses as UNIVERSITY |
| Gamification.QuizXp | src/main/java/com/ai/studybuddy/service/impl/GamificationServiceImpl.java:147-150 | a quiz earns at least the completion amount, and the passed bonus on top exactly when passed |
| Gamification.FlashcardXp | src/main/java/com/ai/studybuddy/service/impl/GamificationServiceImpl.java:177 | a multiple of the per-card amount, never negative for a non-negative count |
| Gamification.CurrentValueOfTypes | src/main/java/com/ai/studybuddy/service/impl/GamificationServiceImpl.java:328-343 | each requirement type reads its own counter of the ledger |
| Gamification.CurrentValueGrows | src/main/java/com/ai/studybuddy/service/impl/GamificationServiceImpl.java:363-366 | rewards only raise XP and level, so no counter a type reads goes down |
| Gamification.Reward | src/main/java/com/ai/studybuddy/service/impl/GamificationServiceImpl.java:363-366 | a badge's reward raises the total, weekly and monthly XP by its paid reward, only XP and level grow, and the ledger invariant is kept |
| Gamification.UnlockTracks | src/main/java/com/ai/studybuddy/service/impl/GamificationServiceImpl.java:354-370 | one iteration of the unlock loop either changes nothing or appends a record of the user for a badge not held, pays its reward and lists it |
| Gamification.UnlockEachTracks | src/main/java/com/ai/studybuddy/service/impl/GamificationServiceImpl.java:354-371 | the whole loop keeps that accounting |
| Gamification.UnlockTypesTracks | src/main/java/com/ai/studybuddy/service/impl/GamificationServiceImpl.java:324-346 | the passes over the types keep that accounting |
| Gamification.TracksFresh | src/main/java/com/ai/studybuddy/service/impl/GamificationServiceImpl.java:354-370 | the badges a tracked run lists have distinct ids and none was held by the user before |
| Gamification.TypesAccounting | src/main/java/com/ai/studybuddy/service/impl/GamificationServiceImpl.java:324-372 | from an empty list, every listed badge has one new record of the user at that time, none was held before, none is listed twice, earlier records are kept, and the XP totals grew by exactly the listed rewards |
| Gamification.TracksFromEmpty | src/main/java/com/ai/studybuddy/service/impl/GamificationServiceImpl.java:324-372 | the same accounting, for any tracked state reached from an empty list |
| Gamification.UnlockAllAccounting | src/main/java/com/ai/studybuddy/service/impl/GamificationServiceImpl.java:324-346 | the same accounting for checkAndUnlockBadges |
| Gamification.UnlockHolds | src/main/java/com/ai/studybuddy/service/impl/GamificationServiceImpl.java:355-361 | after one iteration the user holds the badge and everything held before, and nothing else |
| Gamification.UnlockEachHolds | src/main/java/com/ai/studybuddy/service/impl/GamificationServiceImpl.java:354-371 | after the loop the user holds exactly what was held before plus every eligible badge |
| Gamification.UnlockEachExact | src/main/java/com/ai/studybuddy/service/impl/GamificationServiceImpl.java:354-371 | over distinct eligible badges the loop lists exactly those the user did not hold |
| Gamification.UnlockEachProgress | src/main/java/com/ai/studybuddy/service/impl/GamificationServiceImpl.java:360 | every record the loop appends carries the value that qualified as its progress at unlock |
| Gamification.UnlockByTypeExact | src/main/java/com/ai/studybuddy/service/impl/GamificationServiceImpl.java:348-372 | for one type, the listed badges are exactly the active ones of that type whose threshold the value reaches and that the user did not hold; afterwards every qualifying badge is held |
| Gamification.KeepsRecords | src/main/java/com/ai/studybuddy/service/impl/GamificationServiceImpl.java:354-371 | a pass only appends: every record present before is present afterwards |
| Gamification.UnlockTypesComplete | src/main/java/com/ai/studybuddy/service/impl/GamificationServiceImpl.java:324-346 | every badge the starting ledger qualifies for under a type of the pass is held afterwards |
| Gamification.UnlockAllExact | src/main/java/com/ai/studybuddy/service/impl/GamificationServiceImpl.java:324-346 | each unlocked badge is an active catalog badge with one of the eight requirement types and was not held; every badge the starting ledger qualifies for is held afterwards |
| Gamification.UnlockTypesSound | src/main/java/com/ai/studybuddy/service/impl/GamificationServiceImpl.java:324-346 | each badge a pass lists is an active catalog badge of one of the types |
| Gamification.UnlockEachHeld | src/main/java/com/ai/studybuddy/service/impl/GamificationServiceImpl.java:354-355 | the loop changes nothing when every eligible badge is already held |
| Gamification.UnlockTypesHeld | src/main/java/com/ai/studybuddy/service/impl/GamificationServiceImpl.java:324-346 | the passes change nothing when every qualifying badge is already held |
| Gamification.UnrewardedKeepsLedger | src/main/java/com/ai/studybuddy/service/impl/GamificationServiceImpl.java:363-366 | without positive rewards the passes leave the ledger as it was |
| Gamification.UnrewardedEachKeepsLedger | src/main/java/com/ai/studybuddy/service/impl/GamificationServiceImpl.java:363-366 | without positive rewards the loop leaves the ledger as it was |
| Gamification.SecondPassUnlocksNothing | src/main/java/com/ai/studybuddy/service/impl/GamificationServiceImpl.java:324-346 | when no badge pays a reward, a second pass right after the first unlocks nothing and changes nothing |
| Gamification.IdleTypesSkipped | src/main/java/com/ai/studybuddy/service/impl/GamificationServiceImpl.java:350-353 | types no catalog badge requires are passed over without effect |
| Gamification.PassFromTotalXp | src/main/java/com/ai/studybuddy/service/impl/GamificationServiceImpl.java:338-343 | a catalog of TOTAL_XP, LEVEL and FOCUS_SESSIONS badges only is decided by the last three turns |
| Gamification.UnlockSingle | src/main/java/com/ai/studybuddy/service/impl/GamificationServiceImpl.java:354-370 | a badge the user does not hold is paid, listed and recorded with the qualifying value |
| Gamification.LevelTurn | src/main/java/com/ai/studybuddy/service/impl/GamificationServiceImpl.java:340-341 | the LEVEL turn unlocks, pays and records the LEVEL badge |
| Gamification.PairPassFromTotalXp | src/main/java/com/ai/studybuddy/service/impl/GamificationServiceImpl.java:338-343 | the TOTAL_XP turn comes before the LEVEL turn |
| Gamification.LevelRewardNotRechecked | src/main/java/com/ai/studybuddy/service/impl/GamificationServiceImpl.java:338-343 | when a LEVEL badge's reward lifts the ledger past a TOTAL_XP threshold, the pass lists only the LEVEL badge and the TOTAL_XP badge stays locked, since TOTAL_XP was checked first |
| Gamification.SingleCatalogNewly | src/main/java/com/ai/studybuddy/service/impl/GamificationServiceImpl.java:324-346 | passes over a one-badge catalog list nothing but that badge |
| Gamification.FreshPassNewly | src/main/java/com/ai/studybuddy/service/impl/GamificationServiceImpl.java:354-368 | over an empty unlock table, a pass that records a badge also lists it |
| Gamification.SingleBadgePass | src/main/java/com/ai/studybuddy/service/impl/GamificationServiceImpl.java:324-372 | a one-badge catalog whose badge the ledger qualifies for is unlocked and paid |
| GamificationServices.RecordEvent | src/main/java/com/ai/studybuddy/service/impl/GamificationServiceImpl.java:115-130 | the streak, XP and badge steps keep the ledger invariant and the unique pair constraint |
| GamificationServices.EventFacts | src/main/java/com/ai/studybuddy/service/impl/GamificationServiceImpl.java:115-130 | the response carries the event type and the activity's own XP; its level-up flag is that of the activity's addXp alone; its total and level are read after the badge rewards, so the total is the counted one plus the activity XP plus the listed rewards; the counters are as counted and every listed badge has one new record |
| GamificationServices.RewardLevelUpUnreported | src/main/java/com/ai/studybuddy/service/impl/GamificationServiceImpl.java:116-130 | a level reached only through a badge reward is not reported: a fresh ledger whose first explanation unlocks a badge paying 300 XP reaches level 2 and more with the flag false |
| GamificationServices.Loaded | src/main/java/com/ai/studybuddy/service/impl/GamificationServiceImpl.java:67-76 | the stored ledger of the user, or a fresh one at level 1 with zero XP when there is none |
| GamificationServices.CalculateBadgeProgress | src/main/java/com/ai/studybuddy/service/impl/GamificationServiceImpl.java:374-395 | at most 100, and 0 for a badge without a type or a threshold |
| GamificationServices.BadgeProgressMeaning | src/main/java/com/ai/studybuddy/service/impl/GamificationServiceImpl.java:379-394 | a badge with a positive threshold shows 100 percent exactly when the counter reaches the threshold, which for an active badge is exactly when it is unlockable; a non-negative counter shows a non-negative progress |
| GamificationServices.CalculateMasteryLevel | src/main/java/com/ai/studybuddy/service/impl/GamificationServiceImpl.java:270-276 | no average gives PRINCIPIANTE |
| GamificationServices.MasteryMonotone | src/main/java/com/ai/studybuddy/service/impl/GamificationServiceImpl.java:270-276 | a better average never gives a lower mastery; AVANZATO exactly from 90, at least INTERMEDIO exactly from 70 |
| GamificationServices.RankList | src/main/java/com/ai/studybuddy/service/impl/GamificationServiceImpl.java:427-432 | at most 1000 stored ledgers |
| GamificationServices.RankIn | src/main/java/com/ai/studybuddy/service/impl/GamificationServiceImpl.java:434-439 | -1 exactly when the user is not listed; otherwise one plus the position of the user's first entry |
| GamificationServices.RankedAbove | src/main/java/com/ai/studybuddy/service/impl/GamificationServiceImpl.java:426-440 | everyone ranked above the user has at least the user's score for the type: total XP, weekly XP, streak, or else level and then total XP |
| GamificationServices.Entries | src/main/java/com/ai/studybuddy/service/impl/GamificationServiceImpl.java:404-406 | one entry of rank 0 per ledger, in order |
| GamificationServices.XpLeaderboard | src/main/java/com/ai/studybuddy/service/impl/GamificationServiceImpl.java:402-407 | the limit or every stored user when fewer, all of rank 0 and type XP, each showing a stored user's total XP, by non-increasing value |
| GamificationServices.XpBoardKeepsTop | src/main/java/com/ai/studybuddy/service/impl/GamificationServiceImpl.java:402-407 | every stored user is on the board with their total XP, or the board is full of entries whose value is at least that total XP |
| GamificationServices.WeeklyLeaderboard | src/main/java/com/ai/studybuddy/service/impl/GamificationServiceImpl.java:410-415 | the limit or every stored user when fewer, all of rank 0 and type WEEKLY_XP, each showing a stored user's weekly XP, by non-increasing value |
| GamificationServices.WeeklyBoardKeepsTop | src/main/java/com/ai/studybuddy/service/impl/GamificationServiceImpl.java:410-415 | every stored user is on the board with their weekly XP, or the board is full of entries whose value is at least that weekly XP |
| GamificationServices.StreakLeaderboard | src/main/java/com/ai/studybuddy/service/impl/GamificationServiceImpl.java:418-423 | the limit or every stored user when fewer, all of rank 0 and type STREAK, each showing a stored user's current streak, by non-increasing value |
| GamificationServices.StreakBoardKeepsTop | src/main/java/com/ai/studybuddy/service/impl/GamificationServiceImpl.java:418-423 | every stored user is on the board with their current streak, or the board is full of entries whose value is at least that current streak |
| GamificationServices.FindRecord | src/main/java/com/ai/studybuddy/service/impl/GamificationServiceImpl.java:285-291 | a record is found exactly when the user holds the badge, and it is the user's record of that badge |
| GamificationServices.BadgeStatus | src/main/java/com/ai/studybuddy/service/impl/GamificationServiceImpl.java:290-296 | unlocked exactly when the user holds the badge, with an unlock time exactly then, and the measured progress |
| GamificationServices.AllBadgesWithStatus | src/main/java/com/ai/studybuddy/service/impl/GamificationServiceImpl.java:281-298 | one response per active badge in ascending threshold order, each unlocked exactly when held, with an unlock time exactly then and the measured progress |
| GamificationServices.UnlockedBadges | src/main/java/com/ai/studybuddy/service/impl/GamificationServiceImpl.java:301-306 | one response per record of the user, latest unlock first, each unlocked at full progress and held by the user |
| GamificationServices.ListingCount | src/main/java/com/ai/studybuddy/service/impl/GamificationServiceImpl.java:301-306 | the listing holds as many records as the user's count |
| GamificationServices.NewBadges | src/main/java/com/ai/studybuddy/service/impl/GamificationServiceImpl.java:309-314 | one unlocked response per record of the user still flagged new |
| GamificationServices.SeenBadgesNotNew | src/main/java/com/ai/studybuddy/service/impl/GamificationServiceImpl.java:316-320 | after marking, the user has no new badge, everyone else keeps theirs, and the unlocked list is still empty or non-empty as before |
| GamificationServiceImpl.GamificationService.constructor | src/main/java/com/ai/studybuddy/service/impl/GamificationServiceImpl.java:46-61 | the service holds the given tables, catalog and registered users |
| GamificationServiceImpl.GamificationService.GetOrCreateUserStats | src/main/java/com/ai/studybuddy/service/impl/GamificationServiceImpl.java:65-76 | "Utente non trovato" with the table unchanged exactly when the user has no ledger and is not registered; otherwise a new entity holding the stored or the fresh ledger, the ledger saved, the badge table unchanged |
| GamificationServiceImpl.GamificationService.CheckAndUnlockByType | src/main/java/com/ai/studybuddy/service/impl/GamificationServiceImpl.java:348-372 | the ledger, the badge table and the list afterwards are those of UnlockByType on the old ones |
| GamificationServiceImpl.GamificationService.CheckAndUnlockBadges | src/main/java/com/ai/studybuddy/service/impl/GamificationServiceImpl.java:324-346 | the ledger, the badge table and the list afterwards are those of UnlockAll on the old ones from an empty list |
| GamificationServiceImpl.GamificationService.TypeTurn | src/main/java/com/ai/studybuddy/service/impl/GamificationServiceImpl.java:328-343 | after the types already done, one more turn is UnlockTypes over the longer list |
| GamificationServiceImpl.GamificationService.FinishEvent | src/main/java/com/ai/studybuddy/service/impl/GamificationServiceImpl.java:115-130 | the response, the ledger and the badge table are those of RecordEvent on the old ones, and the ledger table holds the final ledger |
| GamificationServiceImpl.GamificationService.RecordExplanationXp | src/main/java/com/ai/studybuddy/service/impl/GamificationServiceImpl.java:110-131 | an error with nothing changed exactly for an unknown user; otherwise the outcome of one more explanation worth 10 XP, saved |
| GamificationServiceImpl.GamificationService.RecordQuizXp | src/main/java/com/ai/studybuddy/service/impl/GamificationServiceImpl.java:143-170 | an error with nothing changed exactly for an unknown user; otherwise the outcome of one more quiz worth 20 XP, plus 10 when passed, saved |
| GamificationServiceImpl.GamificationService.RecordFlashcardXp | src/main/java/com/ai/studybuddy/service/impl/GamificationServiceImpl.java:174-190 | an error with nothing changed exactly for an unknown user; otherwise the outcome of the studied cards at 2 XP each, saved |
| GamificationServiceImpl.GamificationService.RecordFocusSessionXp | src/main/java/com/ai/studybuddy/service/impl/GamificationServiceImpl.java:194-208 | an error with nothing changed exactly for an unknown user; otherwise the outcome of one more session with the awarded XP, saved |
| GamificationServiceImpl.GamificationService.GetUserRank | src/main/java/com/ai/studybuddy/service/impl/GamificationServiceImpl.java:426-440 | the result is RankIn of the type's ranking |
| GamificationServiceImpl.GamificationService.GetUserStatsResponse | src/main/java/com/ai/studybuddy/service/impl/GamificationServiceImpl.java:79-87 | an error exactly for an unknown user; otherwise the summary of the loaded ledger with the user's badge count |
| GamificationServiceImpl.GamificationService.GetAllBadgesWithStatus | src/main/java/com/ai/studybuddy/service/impl/GamificationServiceImpl.java:281-298 | for a catalog whose thresholds are all nonzero, an error exactly for an unknown user; otherwise AllBadgesWithStatus on the loaded ledger |
| GamificationServiceImpl.GamificationService.MarkBadgesAsSeen | src/main/java/com/ai/studybuddy/service/impl/GamificationServiceImpl.java:316-320 | the badge table becomes MarkSeen of the old one |
| GamificationControllers.FocusXp | src/main/java/com/ai/studybuddy/controller/GamificationController.java:152-156 | the client's amount when positive, otherwise 3 XP per full 10 minutes, with Java division, plus 1 |
| GamificationControllers.FocusXpFromDuration | src/main/java/com/ai/studybuddy/controller/GamificationController.java:152-156 | without a client amount a non-negative duration earns 3 per full 10 minutes plus 1, at least 1, and 10 more minutes earn 3 more |
| GamificationControllers.FocusXpOfNegativeDuration | src/main/java/com/ai/studybuddy/controller/GamificationController.java:152-156 | a duration of -15 minutes earns -2 XP |
| GamificationControllers.NegativeFocusXpBreaksLedger | src/main/java/com/ai/studybuddy/controller/GamificationController.java:152-156 | the -2 XP of a -15 minute session, credited by addXp to a fresh ledger, leave its totals at -2 and level 1, outside the stored-ledger invariant |
| GamificationControllers.BoardOf | src/main/java/com/ai/studybuddy/controller/GamificationController.java:108-113 | the weekly board exactly for WEEKLY_XP or WEEKLY in any case, the streak board exactly for STREAK, the XP board otherwise |
| GamificationControllers.Leaderboard | src/main/java/com/ai/studybuddy/controller/GamificationController.java:104-122 | at most the limit, all of rank 0 and of the chosen board's type, by non-increasing value |
| GamificationControllers.LeaderboardAliases | src/main/java/com/ai/studybuddy/controller/GamificationController.java:108-113 | "weekly" gives the weekly board, "Streak" the streak board, "level" the XP board |
| GamificationControllers.MyRank | src/main/java/com/ai/studybuddy/controller/GamificationController.java:127-134 | -1 or a rank between 1 and 1000 |
| GamificationControllers.WeeklyRankByLevel | src/main/java/com/ai/studybuddy/controller/GamificationController.java:108-134 | for "weekly" the board lists weekly XP while the rank is taken in the level ordering |
| Quizzes.NormalizeIdempotent | src/main/java/com/ai/studybuddy/model/quiz/Question.java:69-70 | the normalised answer is upper case and normalising it again changes nothing |
| Quizzes.AnswerChecked | src/main/java/com/ai/studybuddy/model/quiz/Question.java:67-72 | with no answer or no correct letter nothing is stored and the verdict is false; otherwise the normalised answer is stored and the verdict, stored too, is whether it equals the normalised correct letter |
| Quizzes.CheckIgnoresCaseAndPadding | src/main/java/com/ai/studybuddy/model/quiz/Question.java:67-72 | answers equal up to case and surrounding blanks have the same effect |
| Quizzes.PaddedLetterNormalizes | src/main/java/com/ai/studybuddy/model/quiz/Question.java:69-70 | a lower-case letter between spaces normalises to the upper-case letter alone |
| Quizzes.PaddedLetterActsAsLetter | src/main/java/com/ai/studybuddy/model/quiz/Question.java:67-72 | checking " b " acts as checking "B" |
| Quizzes.CheckStoredAnswerAgain | src/main/java/com/ai/studybuddy/model/quiz/Question.java:67-72 | checking the stored answer again keeps the question and the verdict |
| Quizzes.OptionFor | src/main/java/com/ai/studybuddy/model/quiz/Question.java:78-84 | each letter A-D in either case names its option; any other string names nothing |
| Quizzes.CorrectOptionText | src/main/java/com/ai/studybuddy/model/quiz/Question.java:77-85 | a failure exactly when the correct letter is NULL; otherwise the option it names |
| Quizzes.UserAnswerText | src/main/java/com/ai/studybuddy/model/quiz/Question.java:90-99 | nothing without an answer; otherwise the option the answer names |
| Quizzes.OptionForUpper | src/main/java/com/ai/studybuddy/model/quiz/Question.java:78-84 | letters with the same upper case name the same option |
| Quizzes.CorrectAnswerShowsCorrectOption | src/main/java/com/ai/studybuddy/model/quiz/Question.java:67-99 | after a correct answer, with an unpadded correct letter, the chosen option and the correct option are the same text |
| Quizzes.AnswerCleared | src/main/java/com/ai/studybuddy/model/quiz/Question.java:111-114 | the answer and the verdict become NULL, the question is unanswered, and no other field changes |
| Quizzes.AnsweredWhenVisible | src/main/java/com/ai/studybuddy/model/quiz/Question.java:104-106 | an answer counts exactly when it has a non-white-space character: NULL, empty and blank answers do not, a padded letter does |
| Quizzes.Question.Load | src/main/java/com/ai/studybuddy/model/quiz/Question.java:14-61 | the question holds the given field values |
| Quizzes.Question.SetUserAnswer | src/main/java/com/ai/studybuddy/model/quiz/Question.java:210-212 | only the answer changes, to the given one |
| Quizzes.Question.CheckAnswer | src/main/java/com/ai/studybuddy/model/quiz/Question.java:67-72 | the new fields and the result are those of AnswerChecked |
| Quizzes.Question.ResetAnswer | src/main/java/com/ai/studybuddy/model/quiz/Question.java:111-114 | the new fields are those of AnswerCleared |
| Quizzes.CorrectCount | src/main/java/com/ai/studybuddy/model/quiz/Quiz.java:193-197 | at most the number of questions |
| Quizzes.AnsweredCount | src/main/java/com/ai/studybuddy/model/quiz/Quiz.java:186-188 | at most the number of questions |
| Quizzes.AllAnsweredIffCount | src/main/java/com/ai/studybuddy/model/quiz/Quiz.java:179-188 | every question is answered exactly when the answered count is the number of questions |
| Quizzes.ClearedCounts | src/main/java/com/ai/studybuddy/model/quiz/Quiz.java:186-197 | with every answer and verdict NULL, nothing is answered or correct |
| Quizzes.ScoreOf | src/main/java/com/ai/studybuddy/model/quiz/Quiz.java:161-174 | 0 of 0 at 0% for no questions; otherwise the correct count out of all questions, as a percentage |
| Quizzes.ScoreBounds | src/main/java/com/ai/studybuddy/model/quiz/Quiz.java:161-174 | the score is at most the question count and the percentage lies in [0, 100] |
| Quizzes.PassMark | src/main/java/com/ai/studybuddy/model/quiz/Quiz.java:161-217 | the percentage reaches 60 exactly when at least three fifths of the questions are correct |
| Quizzes.Scored | src/main/java/com/ai/studybuddy/model/quiz/Quiz.java:161-174 | the score, total and percentage become those of ScoreOf and nothing else changes |
| Quizzes.Completed | src/main/java/com/ai/studybuddy/model/quiz/Quiz.java:148-156 | completed at now, scored, timed from the start when there was one, other fields kept |
| Quizzes.Started | src/main/java/com/ai/studybuddy/model/quiz/Quiz.java:140-143 | started at now and not completed, nothing else changed |
| Quizzes.ResultsCleared | src/main/java/com/ai/studybuddy/model/quiz/Quiz.java:202-210 | not completed, score, percentage, timestamps and time NULL, total and question count kept |
| Quizzes.PassedAfterComplete | src/main/java/com/ai/studybuddy/model/quiz/Quiz.java:148-217 | a completed quiz with questions is passed exactly when three fifths of them are correct |
| Quizzes.EmptyQuizNotPassed | src/main/java/com/ai/studybuddy/model/quiz/Quiz.java:148-217 | a quiz without questions completes 0 of 0 and is not passed |
| Quizzes.TwoDigits | src/main/java/com/ai/studybuddy/model/quiz/Quiz.java:226 | the %02d text: zero-padded for non-negative numbers, a minus sign and the digits otherwise, at least two characters |
| Quizzes.FormattedTime | src/main/java/com/ai/studybuddy/model/quiz/Quiz.java:222-227 | "00:00" without a time; otherwise minutes and seconds with Java's truncating division and remainder |
| Quizzes.FormattedTimeShape | src/main/java/com/ai/studybuddy/model/quiz/Quiz.java:222-227 | under 100 minutes the text is mm:ss, five characters with the colon in the middle; 125 seconds is "02:05" |
| Quizzes.FormattedNegativeTime | src/main/java/com/ai/studybuddy/model/quiz/Quiz.java:222-227 | -65 seconds shows as "-1:-5" |
| Quizzes.RowsOf | src/main/java/com/ai/studybuddy/model/quiz/Quiz.java:38 | one row per question, in order |
| Common.FirstWithId | src/main/java/com/ai/studybuddy/model/quiz/Quiz.java:127 | the first position whose id matches, or -1 when none does |
| Quizzes.Quiz.Rows | src/main/java/com/ai/studybuddy/model/quiz/Quiz.java:38 | one row per question |
| Quizzes.Quiz.constructor | src/main/java/com/ai/studybuddy/model/quiz/Quiz.java:38-67 | no questions, not completed, not AI-generated, every other field NULL |
| Quizzes.Quiz.AddQuestion | src/main/java/com/ai/studybuddy/model/quiz/Quiz.java:116-121 | the question is appended and numbered with the new size, the size is stored, and numbering and distinctness are kept |
| Quizzes.Quiz.RemoveQuestion | src/main/java/com/ai/studybuddy/model/quiz/Quiz.java:126-135 | the first question with the id leaves the list, the new size is stored, and the rest are numbered 1..n in order, and a question that left the list keeps its order |
| Quizzes.Renumber | src/main/java/com/ai/studybuddy/model/quiz/Quiz.java:132-134 | each question's order becomes its position plus one; its frame allows no other field to change |
| Quizzes.Quiz.Start | src/main/java/com/ai/studybuddy/model/quiz/Quiz.java:140-143 | the fields become those of Started |
| Quizzes.Quiz.CalculateScore | src/main/java/com/ai/studybuddy/model/quiz/Quiz.java:161-174 | the fields become those of Scored |
| Quizzes.Quiz.Complete | src/main/java/com/ai/studybuddy/model/quiz/Quiz.java:148-156 | the fields become those of Completed |
| Quizzes.Quiz.ResetAllAnswers | src/main/java/com/ai/studybuddy/model/quiz/Quiz.java:202-210 | every question's answer is cleared and the quiz's fields become those of ResultsCleared |
| Quizzes.ResetEach | src/main/java/com/ai/studybuddy/model/quiz/Quiz.java:203 | every question in the list has its answer cleared |
| Quizzes.ResetLeavesNothingAnswered | src/main/java/com/ai/studybuddy/model/quiz/Quiz.java:202-210 | after the reset nothing is answered or correct, and a non-empty quiz is not all answered |
| QuizMapper.ExtractLetterAnswer | src/main/java/com/ai/studybuddy/mapper/QuizMapper.java:77-102 | the stored letter is always one of A-D, and "A" for an empty answer |
| QuizMapper.LetterOf | src/main/java/com/ai/studybuddy/mapper/QuizMapper.java:82-101 | the steps after the empty check always give one of A-D |
| QuizMapper.OptionForLetters | src/main/java/com/ai/studybuddy/mapper/QuizMapper.java:90-93 | each of the four letters names its own option |
| QuizMapper.SingleLetterKept | src/main/java/com/ai/studybuddy/mapper/QuizMapper.java:82-86 | a one-letter answer, in either case and with any padding, becomes that letter upper-cased |
| QuizMapper.LetterIsFixed | src/main/java/com/ai/studybuddy/mapper/QuizMapper.java:84-86 | a stored letter maps to itself whatever the options |
| QuizMapper.ExtractIdempotent | src/main/java/com/ai/studybuddy/mapper/QuizMapper.java:77-102 | extracting from an extracted letter changes nothing |
| QuizMapper.MatchedTextGivesOption | src/main/java/com/ai/studybuddy/mapper/QuizMapper.java:89-93 | an answer equal, ignoring case, to an option's text gives an option it equals, no later than the first such |
| QuizMapper.LabelGivesLetter | src/main/java/com/ai/studybuddy/mapper/QuizMapper.java:96-98 | a "C) ..." label that no option equals gives the label's letter |
| QuizMapper.ExtractReadsOnlyOptions | src/main/java/com/ai/studybuddy/mapper/QuizMapper.java:77-102 | the letter depends on the question only through its four options |
| QuizMapper.WithOptions | src/main/java/com/ai/studybuddy/mapper/QuizMapper.java:50-58 | with at least four entries the first four become the options; otherwise the options stay as they were |
| QuizMapper.QuestionFields | src/main/java/com/ai/studybuddy/mapper/QuizMapper.java:43-71 | a new unanswered question with the order, the text, the options, the extracted letter and the explanation |
| QuizMapper.MappedQuestionNamesAnOption | src/main/java/com/ai/studybuddy/mapper/QuizMapper.java:43-102 | with four options the stored letter names one of them, so the correct option text never fails |
| QuizMapper.ToEntity | src/main/java/com/ai/studybuddy/mapper/QuizMapper.java:28-38 | a new quiz with no questions, titled "Quiz: " and the topic, copying the request, AI-generated and not completed |
| QuizMapper.ToQuestionEntity | src/main/java/com/ai/studybuddy/mapper/QuizMapper.java:43-71 | a new question holding QuestionFields |
| QuizMapper.ToQuestionResult | src/main/java/com/ai/studybuddy/mapper/QuizMapper.java:116-125 | always null |
| QuizMapper.ToQuestionResults | src/main/java/com/ai/studybuddy/mapper/QuizMapper.java:107-111 | one null per question |
| QuizService.ResultOf | src/main/java/com/ai/studybuddy/service/impl/QuizServiceImpl.java:164-171 | the entry copies the id and the answers and is correct exactly when the verdict is TRUE |
| QuizService.ResponseOf | src/main/java/com/ai/studybuddy/service/impl/QuizServiceImpl.java:146-176 | score or 0, question count or 0, the percentage over a positive count, passed exactly at 60%, one entry per question in order |
| QuizService.CorrectResults | src/main/java/com/ai/studybuddy/service/impl/QuizServiceImpl.java:163-173 | at most the number of entries |
| QuizService.CorrectResultsCount | src/main/java/com/ai/studybuddy/service/impl/QuizServiceImpl.java:163-173 | the entries marked correct are exactly the questions counted correct |
| QuizService.ResponseOfScoredQuiz | src/main/java/com/ai/studybuddy/service/impl/QuizServiceImpl.java:146-176 | for a quiz scored over its own questions the response reports the correct count, matching entries, a percentage in [0, 100], and passes at three fifths |
| QuizService.BuildQuizResultResponse | src/main/java/com/ai/studybuddy/service/impl/QuizServiceImpl.java:146-176 | the response is ResponseOf the quiz's and its questions' fields |
| QuizService.Submitted | src/main/java/com/ai/studybuddy/service/impl/QuizServiceImpl.java:129-134 | a question without an answer is unchanged; with one it is set and then checked |
| QuizService.SubmittedIdempotent | src/main/java/com/ai/studybuddy/service/impl/QuizServiceImpl.java:128-135 | submitting the same answers twice is submitting them once |
| QuizService.SubmittedKeepsQuestion | src/main/java/com/ai/studybuddy/service/impl/QuizServiceImpl.java:128-135 | only the answer and the verdict change |
| QuizService.SubmittedVerdict | src/main/java/com/ai/studybuddy/service/impl/QuizServiceImpl.java:131-133 | with a correct letter the verdict is TRUE exactly when the normalised answer equals it |
| QuizService.SubmitEach | src/main/java/com/ai/studybuddy/service/impl/QuizServiceImpl.java:128-135 | every question becomes Submitted of its old fields |
| QuizService.SubmitOne | src/main/java/com/ai/studybuddy/service/impl/QuizServiceImpl.java:129-134 | the question becomes Submitted of its old fields |
| QuizService.SubmitAnswers | src/main/java/com/ai/studybuddy/service/impl/QuizServiceImpl.java:115-144 | another user's quiz is not found; a completed quiz is unchanged with its stored result; otherwise every answered question is checked, the quiz completed and the result built |
| QuizService.StartQuiz | src/main/java/com/ai/studybuddy/service/impl/QuizServiceImpl.java:107-111 | another user's quiz is not found and unchanged; the owner's is started now |
| QuizService.RetryQuiz | src/main/java/com/ai/studybuddy/service/impl/QuizServiceImpl.java:259-263 | another user's quiz is not found and unchanged; the owner's has every answer and result cleared |
| QuizService.GenerateQuiz | src/main/java/com/ai/studybuddy/service/impl/QuizServiceImpl.java:62-92 | a new quiz with one fresh question per JSON object numbered 1..n, and the stored count is the list size when there are questions |
| QuizService.AddAllParsed | src/main/java/com/ai/studybuddy/service/impl/QuizServiceImpl.java:80-84 | one question per JSON object, in order, numbered 1..n, with no repeats |
| QuizService.AddParsed | src/main/java/com/ai/studybuddy/service/impl/QuizServiceImpl.java:81-83 | a fresh question from the JSON, numbered with the new size, is appended |
| QuizService.FeedbackLanguage | src/main/java/com/ai/studybuddy/service/impl/QuizServiceImpl.java:179 | Italian exactly when the lower-cased language is not en, es, fr, de or pt |
| QuizService.Band | src/main/java/com/ai/studybuddy/service/impl/QuizServiceImpl.java:181-215 | the thresholds 90, 70, 60 and 40 split the percentage into five bands |
| QuizService.FeedbackFallsBackToItalian | src/main/java/com/ai/studybuddy/service/impl/QuizServiceImpl.java:178-217 | an unknown language in any case gets the Italian message |
| QuizService.FeedbackIgnoresCase | src/main/java/com/ai/studybuddy/service/impl/QuizServiceImpl.java:179 | the language is matched ignoring case |
| Flashcards.MasteredIff | src/main/java/com/ai/studybuddy/model/flashcard/Flashcard.java:109-119 | a card is mastered exactly when it was reviewed and at least four fifths of the reviews were correct |
| Flashcards.SuccessRateBounds | src/main/java/com/ai/studybuddy/model/flashcard/Flashcard.java:109-112 | with consistent counters the success rate lies in [0, 100] |
| Flashcards.JustStudiedNotDue | src/main/java/com/ai/studybuddy/model/flashcard/Flashcard.java:138-142 | a card reviewed just now is not before now minus zero or more days |
| Flashcards.TagsOf | src/main/java/com/ai/studybuddy/model/flashcard/Flashcard.java:147-152 | no tags for NULL or empty, and no piece holds a comma |
| Flashcards.TagsRoundTrip | src/main/java/com/ai/studybuddy/model/flashcard/Flashcard.java:147-163 | reading back the joined tags gives the same tags when none holds a comma and the last is not empty |
| Flashcards.SplitAllAround | src/main/java/com/ai/studybuddy/model/flashcard/Flashcard.java:151 | splitting at a separator splits each side on its own |
| Flashcards.AppendedTagIsLastPiece | src/main/java/com/ai/studybuddy/model/flashcard/Flashcard.java:151-174 | a tag appended after a comma is the last piece of the split |
| Flashcards.AppendedTagIsLastStored | src/main/java/com/ai/studybuddy/model/flashcard/Flashcard.java:151-174 | the trimmed tag appended after a comma is the last tag read back |
| Flashcards.TagMatchesItself | src/main/java/com/ai/studybuddy/model/flashcard/Flashcard.java:185 | a tag trimmed matches itself ignoring case |
| Flashcards.NoCommaAfterTrim | src/main/java/com/ai/studybuddy/model/flashcard/Flashcard.java:172-174 | trimming brings in no comma |
| Flashcards.FirstTagIsFound | src/main/java/com/ai/studybuddy/model/flashcard/Flashcard.java:171-172 | the first tag, stored trimmed, is found |
| Flashcards.AppendedTagIsFound | src/main/java/com/ai/studybuddy/model/flashcard/Flashcard.java:173-174 | a tag appended after a comma, trimmed, is found |
| Flashcards.TagAddedIsFound | src/main/java/com/ai/studybuddy/model/flashcard/Flashcard.java:168-190 | after adding a tag without commas it is found |
| Flashcards.TagAddedIdempotent | src/main/java/com/ai/studybuddy/model/flashcard/Flashcard.java:168-176 | adding the same tag twice adds it once |
| Flashcards.Flashcard.constructor | src/main/java/com/ai/studybuddy/model/flashcard/Flashcard.java:60-79 | no reviews, no deck, no tags, not AI-generated, active |
| Flashcards.Flashcard.RecordReview | src/main/java/com/ai/studybuddy/model/flashcard/Flashcard.java:124-133 | one more review, one more correct when it was, reviewed now, counters kept consistent |
| Flashcards.CardReviewDue | src/main/java/com/ai/studybuddy/model/flashcard/Flashcard.java:138-142 | a card never reviewed or without a review time is due, one reviewed just now is not due for a non-negative threshold, and a due card stays due later |
| Flashcards.Flashcard.SetTagsFromArray | src/main/java/com/ai/studybuddy/model/flashcard/Flashcard.java:157-163 | the tags become the comma-joined array, empty for a NULL or empty array |
| Flashcards.Flashcard.HasTag | src/main/java/com/ai/studybuddy/model/flashcard/Flashcard.java:181-190 | the result is Tagged of the tags and the tag |
| Flashcards.Flashcard.AddTag | src/main/java/com/ai/studybuddy/model/flashcard/Flashcard.java:168-176 | the tags become TagAdded of the old ones |
| Flashcards.CardIds | src/main/java/com/ai/studybuddy/model/flashcard/FlashcardDeck.java:125 | the id of each card, in order |
| Flashcards.MasteredCount | src/main/java/com/ai/studybuddy/model/flashcard/FlashcardDeck.java:150-154 | at most the number of cards |
| Flashcards.ActiveCount | src/main/java/com/ai/studybuddy/model/flashcard/FlashcardDeck.java:174-178 | at most the number of cards |
| Flashcards.CompletionBounds | src/main/java/com/ai/studybuddy/model/flashcard/FlashcardDeck.java:133-136 | the completion lies in [0, 100] and is 100 exactly when every card is mastered |
| Flashcards.FlashcardDeck.constructor | src/main/java/com/ai/studybuddy/model/flashcard/FlashcardDeck.java:38-82 | no cards, 0 cards mastered, studied 0 times, never studied, active |
| Flashcards.FlashcardDeck.AddFlashcard | src/main/java/com/ai/studybuddy/model/flashcard/FlashcardDeck.java:115-119 | the card is appended and points at the deck, and the count is the list size |
| Flashcards.FlashcardDeck.RemoveFlashcard | src/main/java/com/ai/studybuddy/model/flashcard/FlashcardDeck.java:124-128 | the first card with the id leaves the list, the card is detached, and the count is the list size |
| Flashcards.FlashcardDeck.RecordStudySession | src/main/java/com/ai/studybuddy/model/flashcard/FlashcardDeck.java:141-145 | one more study session, a NULL count starting from 0, studied now |
| Flashcards.FlashcardDeck.UpdateMasteredCount | src/main/java/com/ai/studybuddy/model/flashcard/FlashcardDeck.java:150-154 | the mastered count becomes the number of mastered cards |
| Flashcards.FlashcardDeck.ActiveCardsCount | src/main/java/com/ai/studybuddy/model/flashcard/FlashcardDeck.java:174-178 | at most the number of cards |
| Flashcards.DeckReviewDue | src/main/java/com/ai/studybuddy/model/flashcard/FlashcardDeck.java:159-162 | a deck never studied is due, one studied just now is not due for a non-negative threshold, and a due deck stays due later |
| Flashcards.EmptyDeckCompletion | src/main/java/com/ai/studybuddy/model/flashcard/FlashcardDeck.java:133-169 | an empty deck (NULL or 0 cards) is 0% complete; any other deck with no more mastered than total cards lies in [0, 100] |
| FlashcardService.UpdateDeckCardCount | src/main/java/com/ai/studybuddy/service/impl/FlashcardServiceImpl.java:241-244 | delta added to the count; a NULL count is a NullPointerException with nothing changed |
| FlashcardService.ToEntity | src/main/java/com/ai/studybuddy/mapper/FlashcardMapper.java:19-34 | a new card for the deck and user with the request's fields, tags only when given |
| FlashcardService.ToAIGeneratedEntity | src/main/java/com/ai/studybuddy/mapper/FlashcardMapper.java:39-43 | the card of ToEntity, marked AI-generated |
| FlashcardService.CreateFlashcard | src/main/java/com/ai/studybuddy/service/impl/FlashcardServiceImpl.java:60-69 | another owner's deck is refused with nothing changed; otherwise a new card and the count raised by one |
| FlashcardService.GenerationLanguage | src/main/java/com/ai/studybuddy/dto/flashcard/FlashcardAIGenerateRequest.java:101-103 | the requested language, or "it" when none |
| FlashcardService.UserLanguageNeverUsed | src/main/java/com/ai/studybuddy/service/impl/FlashcardServiceImpl.java:99 | the user's preferred language never changes the chosen language |
| FlashcardService.AiTags | src/main/java/com/ai/studybuddy/service/impl/FlashcardServiceImpl.java:134 | the tags "ai-generated", the topic and "lang-" plus the language |
| FlashcardService.AiTagsReadBack | src/main/java/com/ai/studybuddy/service/impl/FlashcardServiceImpl.java:134 | a generated card's tags read back as those three when topic and language hold no comma |
| FlashcardService.GenerateAndSaveFlashcards | src/main/java/com/ai/studybuddy/service/impl/FlashcardServiceImpl.java:96-143 | another owner's deck is refused; otherwise one AI-generated tagged card per element in order, and the count raised by their number |
| FlashcardService.ReviewFlashcard | src/main/java/com/ai/studybuddy/service/impl/FlashcardServiceImpl.java:154-160 | a card without a deck throws, another owner is refused, otherwise the review is recorded |
| FlashcardService.DeleteFlashcard | src/main/java/com/ai/studybuddy/service/impl/FlashcardServiceImpl.java:190-198 | a card without a deck throws, another owner is refused, otherwise the card is deactivated and the count lowered by one |
| FlashcardService.StudySession | src/main/java/com/ai/studybuddy/service/impl/FlashcardServiceImpl.java:163-177 | refused for another owner; a negative size throws; otherwise the first n never-reviewed cards, else the first n needing review, else the random pick |
| FlashcardService.StudySessionDrawsFromQueries | src/main/java/com/ai/studybuddy/service/impl/FlashcardServiceImpl.java:166-174 | a session taken from the first two lists holds only their cards |
| FlashcardService.DueCount | src/main/java/com/ai/studybuddy/service/impl/FlashcardServiceImpl.java:246-250 | at most the number of cards |
| FlashcardService.FlashcardStatsOf | src/main/java/com/ai/studybuddy/service/impl/FlashcardServiceImpl.java:207-219 | refused exactly for another owner; otherwise the total is the card count with mastered and due counts within it |
| FlashcardService.JustReviewedNoneDue | src/main/java/com/ai/studybuddy/service/impl/FlashcardServiceImpl.java:246-250 | cards all reviewed now count none as due |
| FlashcardService.NeverReviewedAllDue | src/main/java/com/ai/studybuddy/service/impl/FlashcardServiceImpl.java:246-250 | cards never reviewed are all due and none is mastered |
| Recommendations.StoredRank | src/main/java/com/ai/studybuddy/model/recommendation/Recommendation.java:39-41 | the place of each stored priority name among the four, 0 to 3 |
| Recommendations.StoredRankIsNameOrder | src/main/java/com/ai/studybuddy/model/recommendation/Recommendation.java:39-41 | the rank order is the lexicographic order of the stored names |
| Recommendations.HighSortsBelowLow | src/main/java/com/ai/studybuddy/repository/RecommendationRepository.java:21 | HIGH is the higher priority yet its stored name sorts below LOW's |
| Recommendations.Dismissed | src/main/java/com/ai/studybuddy/model/recommendation/Recommendation.java:96-99 | dismissed at now, with only the dismissal flag and time changed |
| Recommendations.Completed | src/main/java/com/ai/studybuddy/model/recommendation/Recommendation.java:101-104 | completed at now, with only the completion flag and time changed |
| Recommendations.ClosedIsNeverActive | src/main/java/com/ai/studybuddy/model/recommendation/Recommendation.java:96-112 | after a dismissal or a completion the recommendation is inactive at every time |
| Recommendations.ExpiryIsMonotone | src/main/java/com/ai/studybuddy/model/recommendation/Recommendation.java:106-112 | an expired recommendation stays expired later, and an active one was active earlier |
| Recommendations.CloseIdempotent | src/main/java/com/ai/studybuddy/model/recommendation/Recommendation.java:96-104 | closing twice is closing once at the later time |
| Recommendations.Recommendation.constructor | src/main/java/com/ai/studybuddy/model/recommendation/Recommendation.java:41-68 | MEDIUM priority, neither flag set, created now |
| Recommendations.Recommendation.Dismiss | src/main/java/com/ai/studybuddy/model/recommendation/Recommendation.java:96-99 | the fields become those of Dismissed |
| Recommendations.Recommendation.Complete | src/main/java/com/ai/studybuddy/model/recommendation/Recommendation.java:101-104 | the fields become those of Completed |
| Recommendations.RecommendationStatus | src/main/java/com/ai/studybuddy/model/recommendation/Recommendation.java:106-112 | an entity without expiry never expires; once expired it stays expired and inactive; an active one was active at every earlier time and is open and unexpired |
| RecommendationRepository.ActiveFilterIsActive | src/main/java/com/ai/studybuddy/repository/RecommendationRepository.java:18-22 | the query's row test is the user's isActive except at the exact instant of expiry |
| RecommendationRepository.SlotTakenAfterSave | src/main/java/com/ai/studybuddy/repository/RecommendationRepository.java:61 | a saved row takes its (user, type, topic) slot, a taken slot stays taken, and no other slot becomes taken |
| RecommendationRepository.FindActiveByUserId | src/main/java/com/ai/studybuddy/repository/RecommendationRepository.java:18-22 | exactly the user's open rows not yet expiring, each as often as in the table, ordered by stored priority name and creation time, both descending |
| RecommendationRepository.CountActiveByUserId | src/main/java/com/ai/studybuddy/repository/RecommendationRepository.java:36-39 | the count is the length of the active listing |
| RecommendationRepository.HighListedLast | src/main/java/com/ai/studybuddy/repository/RecommendationRepository.java:21 | every HIGH row is listed after every other row |
| RecommendationRepository.ExpiryBoundary | src/main/java/com/ai/studybuddy/repository/RecommendationRepository.java:18-44 | a row expiring exactly now is active for the entity and kept by deleteExpired, yet not listed as active |
| RecommendationRepository.DeletedExpiredWereInactive | src/main/java/com/ai/studybuddy/repository/RecommendationRepository.java:42-44 | every row deleteExpired removes was inactive |
| RecommendationRepository.FilterKeepsValid | src/main/java/com/ai/studybuddy/repository/RecommendationRepository.java:42-51 | deleting rows keeps ids and slots unique |
| RecommendationRepository.FindById | src/main/java/com/ai/studybuddy/service/impl/RecommendationServiceImpl.java:304-305 | the index of the row with the id, or nothing when no row has it |
| RecommendationRepository.RecommendationStore.constructor | src/main/java/com/ai/studybuddy/repository/RecommendationRepository.java:15 | an empty table |
| RecommendationRepository.RecommendationStore.DeleteExpired | src/main/java/com/ai/studybuddy/repository/RecommendationRepository.java:42-44 | the rows expiring before now are removed and the rest kept in order |
| RecommendationRepository.RecommendationStore.DeleteOldCompleted | src/main/java/com/ai/studybuddy/repository/RecommendationRepository.java:47-51 | closed rows created before the cutoff are removed and the rest kept in order |
| RecommendationRepository.DeleteOldCompletedKeepsActive | src/main/java/com/ai/studybuddy/repository/RecommendationRepository.java:47-51 | an active row is never removed |
| RecommendationService.DayOfWeek | src/main/java/com/ai/studybuddy/service/impl/RecommendationServiceImpl.java:257 | a day of the week from 1 to 7, Thursday for day 0 |
| RecommendationService.WeekendEveryWeek | src/main/java/com/ai/studybuddy/service/impl/RecommendationServiceImpl.java:257-258 | weekends recur every seven days and the days follow in order |
| RecommendationService.StreakRule | src/main/java/com/ai/studybuddy/service/impl/RecommendationServiceImpl.java:58-73 | one URGENT streak reminder exactly when the streak is positive and the last activity was before today |
| RecommendationService.WeakRule | src/main/java/com/ai/studybuddy/service/impl/RecommendationServiceImpl.java:75-88 | one HIGH candidate per weak topic, in order |
| RecommendationService.ReviewRule | src/main/java/com/ai/studybuddy/service/impl/RecommendationServiceImpl.java:90-109 | one review per topic due, HIGH exactly when more than 14 days old |
| RecommendationService.ContinueRule | src/main/java/com/ai/studybuddy/service/impl/RecommendationServiceImpl.java:111-129 | a candidate for each recent topic with an average in [60, 80) and for no other |
| RecommendationService.ChallengeRule | src/main/java/com/ai/studybuddy/service/impl/RecommendationServiceImpl.java:131-147 | one LOW retry candidate exactly when the top topic averages 80 or more |
| RecommendationService.ImproveRule | src/main/java/com/ai/studybuddy/service/impl/RecommendationServiceImpl.java:154-166 | one MEDIUM candidate exactly when the overall average is present and below 70 |
| RecommendationService.StudyTimeRule | src/main/java/com/ai/studybuddy/service/impl/RecommendationServiceImpl.java:168-180 | one MEDIUM daily goal exactly when the study time is missing or under 60 minutes |
| RecommendationService.ExploreRule | src/main/java/com/ai/studybuddy/service/impl/RecommendationServiceImpl.java:182-194 | one LOW new-topic candidate exactly when fewer than five topics were studied |
| RecommendationService.XpGoalRule | src/main/java/com/ai/studybuddy/service/impl/RecommendationServiceImpl.java:200-212 | one MEDIUM daily goal exactly when the week's XP is under 50 |
| RecommendationService.TryQuizRule | src/main/java/com/ai/studybuddy/service/impl/RecommendationServiceImpl.java:214-226 | one MEDIUM candidate exactly when no quiz was completed |
| RecommendationService.TryFlashcardsRule | src/main/java/com/ai/studybuddy/service/impl/RecommendationServiceImpl.java:228-240 | one MEDIUM candidate exactly when no flashcard was studied |
| RecommendationService.MilestoneRule | src/main/java/com/ai/studybuddy/service/impl/RecommendationServiceImpl.java:242-254 | one LOW candidate exactly when ten or more quizzes were completed |
| RecommendationService.WeekendRule | src/main/java/com/ai/studybuddy/service/impl/RecommendationServiceImpl.java:256-269 | one LOW candidate exactly on Saturday and Sunday |
| RecommendationService.Candidates | src/main/java/com/ai/studybuddy/service/impl/RecommendationServiceImpl.java:57-269 | rules 7 to 11 always end the list; without a failure every rule is tried in order |
| RecommendationService.NewRecommendation | src/main/java/com/ai/studybuddy/service/impl/RecommendationServiceImpl.java:287-297 | an open row for the slot, created now and expiring one day later |
| RecommendationService.AdmitStep | src/main/java/com/ai/studybuddy/service/impl/RecommendationServiceImpl.java:284-297 | a candidate whose slot is taken creates nothing; otherwise it creates its row and the rest follow |
| RecommendationService.TakenSlotNotReused | src/main/java/com/ai/studybuddy/service/impl/RecommendationServiceImpl.java:282-286 | a slot already in the table, in any state, is never used again |
| RecommendationService.AdmitShape | src/main/java/com/ai/studybuddy/service/impl/RecommendationServiceImpl.java:278-298 | at most one row per candidate, each for the user, open, with consecutive fresh ids |
| RecommendationService.InsertKeepsValid | src/main/java/com/ai/studybuddy/service/impl/RecommendationServiceImpl.java:287-297 | a row of an unused slot with the next id keeps ids and slots unique |
| RecommendationService.AdmitKeepsValid | src/main/java/com/ai/studybuddy/service/impl/RecommendationServiceImpl.java:278-298 | creating the rows keeps ids and slots unique, so a slot never gets two rows |
| RecommendationService.DailyGoalSlotShared | src/main/java/com/ai/studybuddy/service/impl/RecommendationServiceImpl.java:168-254 | the DAILY_GOAL rules without a topic share one slot: once taken none of them creates a row, and one call creates at most one |
| RecommendationService.DailyXpGoalSurvivesFailure | src/main/java/com/ai/studybuddy/service/impl/RecommendationServiceImpl.java:196-212 | when rules 1 to 6 fail at once, a user under 50 weekly XP with the slot free still gets the daily XP goal first |
| RecommendationService.CreateRecommendation | src/main/java/com/ai/studybuddy/service/impl/RecommendationServiceImpl.java:278-298 | nothing when the slot is taken; otherwise a new open row appended with the next id |
| RecommendationService.CreateAll | src/main/java/com/ai/studybuddy/service/impl/RecommendationServiceImpl.java:57-269 | the rows created are Admit of the candidates, appended to the table |
| RecommendationService.CreateFor | src/main/java/com/ai/studybuddy/service/impl/RecommendationServiceImpl.java:57-269 | for a loaded ledger, the rows created are Admit of the candidates of rules 1 to 11 in order, appended to the table with the id counter advanced by their number |
| RecommendationService.GenerateRecommendations | src/main/java/com/ai/studybuddy/service/impl/RecommendationServiceImpl.java:52-271 | an error with nothing changed exactly for an unknown user; otherwise the ledger is loaded, or created and saved, and the result is exactly the rows created from its candidates in rule order, appended to the table |
| RecommendationService.ReplaceKeepsValid | src/main/java/com/ai/studybuddy/service/impl/RecommendationServiceImpl.java:311-312 | replacing a row by one of the same slot and id keeps ids and slots unique |
| RecommendationService.CloseRecommendation | src/main/java/com/ai/studybuddy/service/impl/RecommendationServiceImpl.java:303-327 | an unknown id is not found, another user is refused; otherwise only that row's flag and time change |
| RecommendationService.ClosedLeavesActiveList | src/main/java/com/ai/studybuddy/service/impl/RecommendationServiceImpl.java:303-327 | after the close the row is not listed as active at any time |
| Progress.AverageOf | src/main/java/com/ai/studybuddy/model/user/UserProgress.java:58-64 | 0 without a positive total; with one, a failure exactly when the correct count is NULL, else the average times the total is 100 times the correct count |
| Progress.AverageBounds | src/main/java/com/ai/studybuddy/model/user/UserProgress.java:58-64 | with no more correct answers than questions the average lies in [0, 100] |
| Progress.MasteryOf | src/main/java/com/ai/studybuddy/model/user/UserProgress.java:67-77 | beginner for NULL, advanced exactly from 90, intermediate exactly in [70, 90) |
| Progress.MasteryMonotone | src/main/java/com/ai/studybuddy/model/user/UserProgress.java:67-77 | a higher average never gives a lower mastery level |
| Progress.MasteryOfCounts | src/main/java/com/ai/studybuddy/model/user/UserProgress.java:51-77 | advanced exactly at nine tenths correct, intermediate exactly from seven tenths to below nine |
| Progress.UserProgress.constructor | src/main/java/com/ai/studybuddy/model/user/UserProgress.java:31-39 | a row for the user and topic with zero counts, a 0.0 average and beginner mastery |
| Progress.UserProgress.IncrementQuizCompleted | src/main/java/com/ai/studybuddy/model/user/UserProgress.java:46-48 | the value added to the count, NULL counting as 0 |
| Progress.UserProgress.AddStudyMinutes | src/main/java/com/ai/studybuddy/model/user/UserProgress.java:80-82 | the minutes added to the total, NULL counting as 0 |
| Progress.UserProgress.RecalculateAverage | src/main/java/com/ai/studybuddy/model/user/UserProgress.java:58-64 | the average becomes AverageOf the totals, or nothing changes when that throws |
| Progress.UserProgress.AddQuizResult | src/main/java/com/ai/studybuddy/model/user/UserProgress.java:51-55 | both counts raised, NULL counting as 0, and the average recomputed from the new totals |
| Progress.UserProgress.UpdateMasteryLevel | src/main/java/com/ai/studybuddy/model/user/UserProgress.java:67-77 | the level becomes MasteryOf the average |
| Progress.AddQuizResultKeepsBounds | src/main/java/com/ai/studybuddy/model/user/UserProgress.java:51-64 | consistent counters stay consistent and the average stays in [0, 100] |
| Users.SupportedNotBlank | src/main/java/com/ai/studybuddy/service/impl/UserServiceImpl.java:32 | no supported language code is blank |
| Users.RegistrationLanguage | src/main/java/com/ai/studybuddy/service/impl/UserServiceImpl.java:121-129 | "it" when none is requested; otherwise accepted exactly when it is a supported code, and then stored as given |
| Users.BlankLanguageRejected | src/main/java/com/ai/studybuddy/service/impl/UserServiceImpl.java:121-129 | a blank requested language is rejected, never defaulted |
| Users.LegacyLevelBand | src/main/java/com/ai/studybuddy/service/impl/UserServiceImpl.java:189-190 | for a non-negative total the level is the hundred it falls in, counted from 1 |
| Users.LegacyLevelMonotone | src/main/java/com/ai/studybuddy/service/impl/UserServiceImpl.java:189-190 | more points never give a lower level |
| Users.User.constructor | src/main/java/com/ai/studybuddy/model/user/User.java:41-50 | every field NULL except language "it", 0 points, level 1 and no streak |
| Users.User.Registered | src/main/java/com/ai/studybuddy/service/impl/UserServiceImpl.java:110-138 | the given fields, the education level only when given, level 1, no points, no streak, created now |
| Users.RegisterUser | src/main/java/com/ai/studybuddy/service/impl/UserServiceImpl.java:103-147 | a registered e-mail is a conflict, an unsupported language is refused, otherwise a new user at level 1 with the chosen language |
| Users.UpdateProfile | src/main/java/com/ai/studybuddy/service/impl/UserServiceImpl.java:163-178 | names change only when not blank, the avatar only when given, and the update time is now |
| Users.AddPoints | src/main/java/com/ai/studybuddy/service/impl/UserServiceImpl.java:184-196 | the points added and the level set to the hundreds plus one; a NULL total throws with nothing changed |
| Users.UpdateStreak | src/main/java/com/ai/studybuddy/service/impl/UserServiceImpl.java:200-209 | one more streak day; a NULL count throws with nothing changed |
| Users.ResetStreak | src/main/java/com/ai/studybuddy/service/impl/UserServiceImpl.java:213-222 | the streak becomes 0 and the update time now |
| Users.UpdatePreferredLanguage | src/main/java/com/ai/studybuddy/service/impl/UserServiceImpl.java:228-245 | stored exactly when the code is supported, compared exactly; otherwise refused with nothing changed |
| Users.LanguageCodesAreCaseSensitive | src/main/java/com/ai/studybuddy/service/impl/UserServiceImpl.java:233 | "EN" is refused while "en" is accepted |
| ExplanationService.MapLevel | src/main/java/com/ai/studybuddy/service/impl/ExplanationServiceImpl.java:61-70 | the university wording for NULL, each alias in any case its level's wording, anything else as written |
| ExplanationService.MapLevelIgnoresCase | src/main/java/com/ai/studybuddy/service/impl/ExplanationServiceImpl.java:63 | spellings equal up to case map alike, or are both passed on as written |
| ExplanationService.WordingsAreFixedPoints | src/main/java/com/ai/studybuddy/service/impl/ExplanationServiceImpl.java:61-70 | each level's wording maps to itself |
| ExplanationService.MapLevelIdempotent | src/main/java/com/ai/studybuddy/service/impl/ExplanationServiceImpl.java:61-70 | mapping a level twice is mapping it once |
| ExplanationService.GenerateExplanation | src/main/java/com/ai/studybuddy/service/impl/ExplanationServiceImpl.java:27-52 | the AI is asked with the mapped level; a failure records nothing; otherwise one explanation's XP is recorded and the response copies that event |
| AiService.KnownInstruction | src/main/java/com/ai/studybuddy/service/impl/AIServiceImpl.java:322-329 | an instruction exactly for the seven supported codes |
| AiService.GenericInstruction | src/main/java/com/ai/studybuddy/service/impl/AIServiceImpl.java:331-332 | the generic head, the language as given, and a full stop |
| AiService.LanguageInstruction | src/main/java/com/ai/studybuddy/service/impl/AIServiceImpl.java:317-333 | NULL is refused; a known code in any case gets its instruction; any other language the generic one |
| AiService.SupportedLanguagesHaveInstructions | src/main/java/com/ai/studybuddy/service/impl/AIServiceImpl.java:322-332 | every language a user can choose has its own instruction |
| AiService.InstructionCaseInsensitive | src/main/java/com/ai/studybuddy/service/impl/AIServiceImpl.java:331 | "EN" gets the English instruction although it is not a code a user can choose |
| AiService.HttpError | src/main/java/com/ai/studybuddy/service/impl/AIServiceImpl.java:349-365 | RATE_LIMIT exactly for 429, INVALID_API_KEY exactly for 401, SERVICE_UNAVAILABLE otherwise |
| AiService.CallWithFallback | src/main/java/com/ai/studybuddy/service/impl/AIServiceImpl.java:190-220 | RATE_LIMIT in test mode before any call; otherwise the primary's text, else the fallback's, else the fallback's failure as an error |
| AiService.DefaultSettingAlwaysRateLimited | src/main/java/com/ai/studybuddy/service/impl/AIServiceImpl.java:36-37 | with test mode on by default every call fails with RATE_LIMIT |
| AiService.FallbackOnlyOnFailure | src/main/java/com/ai/studybuddy/service/impl/AIServiceImpl.java:196-199 | the fallback does not matter when the primary answers |
| AiService.AvailableModel | src/main/java/com/ai/studybuddy/service/impl/AIServiceImpl.java:171-179 | the primary's model when it is up, else the fallback's, else the fixed text |
| AiService.AvailabilityMatchesName | src/main/java/com/ai/studybuddy/service/impl/AIServiceImpl.java:171-184 | when no client is named like the fixed text, a model is available exactly when getAvailableModel names one |
| AiService.CallLegacy | src/main/java/com/ai/studybuddy/service/impl/AIServiceImpl.java:97-144 | every legacy overload fails with the deprecation message |
| AiService.StripFence | src/main/java/com/ai/studybuddy/service/impl/AIServiceImpl.java:344-345 | the stripped text is never longer than the input |
| AiService.StripKeepsFirst | src/main/java/com/ai/studybuddy/service/impl/AIServiceImpl.java:344-345 | a first character that is not a backtick is kept |
| AiService.StripFenceIsFenceFree | src/main/java/com/ai/studybuddy/service/impl/AIServiceImpl.java:345 | after removing every fence with its white space no fence is left |
| AiService.TrimKeepsFenceFree | src/main/java/com/ai/studybuddy/service/impl/AIServiceImpl.java:346 | trimming keeps a text free of fences |
| AiService.CleanJsonResponse | src/main/java/com/ai/studybuddy/service/impl/AIServiceImpl.java:339-347 | a PARSE_ERROR exactly for a missing or blank answer; otherwise a trimmed text with no fence |
| AiService.StripOpening | src/main/java/com/ai/studybuddy/service/impl/AIServiceImpl.java:344 | the first pass removes the opening json fence and its line break |
| AiService.StripClosing | src/main/java/com/ai/studybuddy/service/impl/AIServiceImpl.java:345 | the second pass removes the closing fence |
| AiService.TrimLineBreak | src/main/java/com/ai/studybuddy/service/impl/AIServiceImpl.java:346 | trimming drops the line break the closing fence leaves |
| AiService.CleanFencedAnswer | src/main/java/com/ai/studybuddy/service/impl/AIServiceImpl.java:339-347 | a text without backticks fenced as a JSON block is cleaned back to itself |
| AiService.FlashcardsJsonText | src/main/java/com/ai/studybuddy/service/impl/AIServiceImpl.java:151-164 | RESPONSE_NULL for a missing or empty answer, otherwise the result of the clean-up |
| AiService.EmptyAndBlankDiffer | src/main/java/com/ai/studybuddy/service/impl/AIServiceImpl.java:153-157 | an empty answer gives RESPONSE_NULL and a blank one PARSE_ERROR |
| Focus.SessionModes | src/main/resources/static/js/focus-manager.js:476-486 | a session is running or paused, never both, and is in session exactly then |
| Focus.XpSteps | src/main/resources/static/js/focus-manager.js:506 | the XP is a multiple of 5, grows with the time, and 5 more every two minutes, 0 in the first two |
| Focus.Ticked | src/main/resources/static/js/focus-manager.js:501-508 | one second less remaining, one more elapsed, their sum kept |
| Focus.CaughtUp | src/main/resources/static/js/focus-manager.js:446-456 | the countdown lowered by the missed seconds and clamped at zero, the elapsed time raised by them |
| Focus.XpNeverDecreases | src/main/resources/static/js/focus-manager.js:446-508 | ticks and catch-ups never lower the XP |
| Focus.SessionPayload | src/main/resources/static/js/focus-manager.js:654-675 | a post exactly with a session, elapsed time and token, giving the full minutes and the XP |
| Focus.Posts | src/main/resources/static/js/focus-manager.js:654-675 | at most one post |
| Focus.ServerAwardsClientXp | src/main/resources/static/js/focus-manager.js:667-670 | the server keeps the client's XP from two minutes on, and grants 1 before that |
| Focus.Completed | src/main/resources/static/js/focus-manager.js:523-532 | the session is posted, then cleared from memory and storage |
| Focus.Loaded | src/main/resources/static/js/focus-manager.js:438-467 | nothing stored clears the session; a stored one is taken, caught up and saved when running, and completed when over |
| Focus.AfterTick | src/main/resources/static/js/focus-manager.js:493-512 | without an active session the state is reloaded; otherwise a second is counted and saved, or the session completed |
| Focus.TickWhileCounting | src/main/resources/static/js/focus-manager.js:500-509 | a tick keeps remaining plus elapsed and keeps the XP in step with the time |
| Focus.AtMostOnePost | src/main/resources/static/js/focus-manager.js:493-512 | a step posts at most one session, and only when it ends it |
| Focus.TicksEndTheCountdown | src/main/resources/static/js/focus-manager.js:500-512 | with one second left two ticks end the session |
| Focus.FocusManager.constructor | src/main/resources/static/js/focus-manager.js:9-12 | no session in memory, the stored state and token as given, nothing posted |
| Focus.FocusManager.SaveState | src/main/resources/static/js/focus-manager.js:469-474 | a session is stamped with the time and stored; without one nothing changes |
| Focus.FocusManager.SaveSessionToBackend | src/main/resources/static/js/focus-manager.js:654-675 | the posts of Posts are added |
| Focus.FocusManager.EndSession | src/main/resources/static/js/focus-manager.js:647-652 | the session leaves memory and storage |
| Focus.FocusManager.HandleTimerComplete | src/main/resources/static/js/focus-manager.js:523-532 | the new state is Completed of the old |
| Focus.FocusManager.LoadState | src/main/resources/static/js/focus-manager.js:438-467 | the new state is Loaded of the old |
| Focus.FocusManager.Tick | src/main/resources/static/js/focus-manager.js:493-512 | the new state is AfterTick of the old |
| Focus.LastSegment | src/main/resources/static/js/focus-manager.js:428 | the text after the last slash, holding no slash |
| Focus.FileName | src/main/resources/static/js/focus-manager.js:428 | the last segment, or "index.html" when it is empty |
| Focus.Stem | src/main/resources/static/js/focus-manager.js:430 | the page name without its ".html" suffix |
| Focus.StemOfPage | src/main/resources/static/js/focus-manager.js:15 | each listed page's stem is its written-out name |
| Focus.AllowedByStem | src/main/resources/static/js/focus-manager.js:425-435 | a page is allowed exactly when its file name contains a listed stem |
| Focus.LastSegmentAfterSlash | src/main/resources/static/js/focus-manager.js:428 | the name after the last slash is the file name |
| Focus.StemPrefixAllowed | src/main/resources/static/js/focus-manager.js:425-435 | any file whose name starts with a listed stem is allowed, in any directory |
| Focus.DisplayTime | src/main/resources/static/js/focus-manager.js:627-631 | under 100 minutes the text has five characters with a colon in the middle |
| Focus.DisplayTimeReadsBack | src/main/resources/static/js/focus-manager.js:627-631 | under 100 minutes the display reads back as the same seconds |

## Left out

- HTTP controllers (AIController, FlashcardController, AuthController, RecommendationController): routing and building response maps are outside the model. The XP fields those responses copy are modelled through `GamificationDto` and `GamificationControllers`.
- The AI clients (GroqPrimaryClient, GroqFallbackClient, AIClient, ResponseParser): WebClient calls, timeouts and Gson are network and library code. A model call enters the model as an outcome value: an answer or an error kind. Any exception the primary client throws counts as a failure.
- Prompt templates: `String.format` text carries no behaviour worth proving. Only the language instruction appended to each prompt is modelled.
- Gson parsing: quiz and flashcard generation take the already-parsed JSON objects as a sequence. The `PARSE_ERROR` path for a `JsonSyntaxException` is therefore not modelled.
- The `"AI_" + name` error code: only the error kind is modelled, not the string concatenated from the enum name.
- JWT, Spring Security and the token helpers of the browser scripts: crypto and the wall clock.
- Browser UI in focus-manager.js: the DOM, modal, toast, notifications and exit confirmation (`confirmExit`, `showNavigationConfirm`), `getCurrentPageName`, and the `storage` events between tabs. Only the timer state they read and write is modelled.
- Focus timer scheduling: `setInterval` becomes one `Tick` call per second, with the clock as a parameter. The asynchronous completion `fetch` completes in one step, and its network errors are absent.
- Focus timer storage: the stored state is a value that is a well-formed copy. `JSON.parse` of a missing entry, and a `remainingSeconds` that is absent or `NaN`, are not modelled.
- Focus page check: the model works on the pathname. URL parsing is the browser's. The stems of the allowed pages are written out instead of being computed by `replace`.
- JPA mechanics: annotations, lazy loading, `@PrePersist` and `@PreUpdate` timestamps, and generated ids. Ids are given, and every repository is an in-memory table.
- `@Transactional` and the races between requests of the same user: each event is one sequential step. A call that fails part-way is modelled as changing nothing, the effect of a rollback.
- Thin CRUD repositories and services (QuizRepository, FlashcardRepository, FlashcardDeckRepository, UserProgressRepository, QuestionRepository, FlashcardDeckServiceImpl): their query results are input sequences.
- DTO, request and builder boilerplate, exception classes and service interfaces carry no logic. The one-line ratio classes `QuizStats` and `FlashcardStats` are among them.
- `updateUserProgress` in the quiz service: it calls a per-topic collaborator that is not part of this model.
- The legacy points, level and streak on `User`: this is a separate system from `UserStats`, and the model does not relate the two.
- Java `int` overflow: XP, counters and ranks are unbounded integers. The model assumes no value passes 2^31 - 1.
- Floating point: `Math.pow` and the double percentages are exact integers and reals. IEEE rounding is not modelled, nor are `NaN` and `Infinity`.
- GamificationServices.CalculateBadgeProgress: it requires a threshold other than 0. For a threshold of 0, Java's double division gives `Infinity`, capped to 100, or `NaN` when nothing has been measured; exact reals cannot express either.
- GamificationServices.BadgeStatus and GamificationServices.AllBadgesWithStatus: they carry the same nonzero-threshold requirement, for the same reason.
- GamificationServiceImpl.GamificationService.GetAllBadgesWithStatus: it requires every catalog badge to have a nonzero threshold, for the same reason. The source reads the active catalog from the database and neither seeds nor validates the thresholds, so a stored zero threshold reaches the division there.
- GamificationServiceImpl.GamificationService.RecordFocusSessionXp: it requires a non-negative award. The source does not: without a positive client amount, a negative duration yields negative XP (`GamificationControllers.FocusXpOfNegativeDuration`), and `addXp` credits it. `UserStats.AddXp` and `GainXp` model that path: the totals fall and the level stays put. But the ledger then breaks the invariant every stored ledger keeps (`GamificationControllers.NegativeFocusXpBreaksLedger`). The service layer's state invariant is that invariant, so the service is modelled for non-negative awards only.
- GamificationServiceImpl.GamificationService.FinishEvent: it requires a non-negative award, for the same reason as `RecordFocusSessionXp`.
- GamificationServices.RecordEvent: it requires a non-negative award, for the same reason as `RecordFocusSessionXp`.
- UserStatsModel.UserStats.AddXp: it promises the ledger invariant only for a non-negative award. A negative one is credited as the source does, and the invariant can fail.
- UserStatsModel.GainXp: it promises the ledger invariant only for a non-negative award, like `UserStats.AddXp`.
- Text.ToUpper and Text.ToLower: they map only ASCII and Latin-1 letters, one character each, by a shift of 32. Java's `toUpperCase` and `toLowerCase` cover all of Unicode and follow the default locale. For example, Java turns "ß" into "SS" and dotted or dotless i differ in a Turkish locale. Every case-insensitive match inherits this gap: `Quizzes.Normalize`, `Difficulty.FromString`, `Education.FromString`, `AiService.LanguageInstruction`, `QuizService.FeedbackLanguage`, `ExplanationService.MapLevel`, the flashcard tag matching and the leaderboard path type.
- Flashcards.Flashcard: `timesReviewed` and `timesCorrect` are plain integers. The NULL guards of `getSuccessRate` and `recordReview` (Flashcard.java:110, 125-126) are therefore not modelled; a new card starts both at 0.
- Quizzes.Question: it has no link back to its quiz. So `addQuestion` setting the question's quiz (Quiz.java:119) and `removeQuestion` clearing it (Quiz.java:129) are not modelled; `Quizzes.Quiz.AddQuestion` and `Quizzes.Quiz.RemoveQuestion` change only the list, the size and the question orders.
- QuizService.GenerateFeedback: it has no contract of its own. It is the message of the band (`QuizService.Band`) in the language (`QuizService.FeedbackLanguage`), and those two and the two language lemmas carry its guarantees. That the thirty message texts differ from each other is not proved.
- ExplanationService.GenerateExplanationPreview: it has no contract of its own. The preview is one AI call with the mapped level and Italian, and everything it guarantees is stated by `MapLevel` and its lemmas.
- GamificationDto.FromUserStats: a NULL level, total XP or next-level threshold is a `NullPointerException`, modelled as `None` rather than as an exception.
