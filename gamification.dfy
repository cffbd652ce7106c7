/**
 * The activity recorder of the gamification engine. Every event bumps its
 * counter, moves the streak, credits its XP, saves the ledger and then runs
 * the badge pass: the eight requirement types in a fixed order, each one
 * unlocking the catalog badges its current value qualifies for that the user
 * does not hold yet, and paying their rewards into the same ledger.
 *
 * The pass is specified by functions over `UnlockState` (the ledger, the
 * unlock table and the list of badges unlocked so far); the service methods
 * are proved to follow them.
 */
module Gamification {
  import opened Common
  import opened Queries
  import opened UserStatsModel
  import opened Badges
  import opened UserBadges
  import opened BadgeRepository
  import opened StatsRepository
  import opened GamificationDto
  import opened Difficulty

  /* ---------------- XP per activity ---------------- */

  const XpExplanation := 10
  const XpQuizCompleted := 20
  const XpQuizPassedBonus := 10
  const XpFlashcardPerCard := 2

  /** The XP of a quiz: the completion amount plus the bonus when passed. */
  function QuizXp(passed: bool): (xp: int)
    ensures xp >= XpQuizCompleted
    ensures passed <==> xp == XpQuizCompleted + XpQuizPassedBonus
  {
    var xp := XpQuizCompleted;
    if passed then xp + XpQuizPassedBonus else xp
  }

  /** The XP of a flashcard session: a fixed amount per card studied. */
  function FlashcardXp(cardsStudied: int): (xp: int)
    ensures cardsStudied >= 0 ==> xp >= 0
    ensures xp % XpFlashcardPerCard == 0
  {
    cardsStudied * XpFlashcardPerCard
  }

  /* ---------------- requirement types ---------------- */

  /** The requirement types in the order the badge pass checks them. */
  const RequirementTypes: seq<string> := [
    "EXPLANATIONS_COUNT", "QUIZZES_COMPLETED", "QUIZZES_PASSED", "FLASHCARDS_STUDIED",
    "STREAK_DAYS", "TOTAL_XP", "LEVEL", "FOCUS_SESSIONS"]

  /** The ledger counter a requirement type measures; an unknown type reads as 0. */
  function CurrentValue(r: StatsRow, requirementType: string): int {
    match requirementType
    case "EXPLANATIONS_COUNT" => r.explanationsRequested
    case "QUIZZES_COMPLETED" => r.quizzesCompleted
    case "QUIZZES_PASSED" => r.quizzesPassed
    case "FLASHCARDS_STUDIED" => r.flashcardsStudied
    case "STREAK_DAYS" => r.currentStreak
    case "TOTAL_XP" => r.totalXp
    case "LEVEL" => r.level
    case "FOCUS_SESSIONS" => r.focusSessionsCompleted
    case _ => 0
  }

  /** The counter each listed type reads. */
  lemma CurrentValueOfTypes(r: StatsRow)
    ensures CurrentValue(r, "EXPLANATIONS_COUNT") == r.explanationsRequested
    ensures CurrentValue(r, "QUIZZES_COMPLETED") == r.quizzesCompleted
    ensures CurrentValue(r, "QUIZZES_PASSED") == r.quizzesPassed
    ensures CurrentValue(r, "FLASHCARDS_STUDIED") == r.flashcardsStudied
    ensures CurrentValue(r, "STREAK_DAYS") == r.currentStreak
    ensures CurrentValue(r, "TOTAL_XP") == r.totalXp
    ensures CurrentValue(r, "LEVEL") == r.level
    ensures CurrentValue(r, "FOCUS_SESSIONS") == r.focusSessionsCompleted
  {
  }

  /** `b` differs from `a` at most in the XP totals and the level fields, which did not go down. */
  predicate OnlyXpGrew(a: StatsRow, b: StatsRow) {
    b == a.(totalXp := b.totalXp, weeklyXp := b.weeklyXp, monthlyXp := b.monthlyXp,
            level := b.level, xpForNextLevel := b.xpForNextLevel)
    && b.totalXp >= a.totalXp && b.level >= a.level
  }

  /** Rewards only raise XP and level, so no measured value goes down. */
  lemma CurrentValueGrows(a: StatsRow, b: StatsRow, requirementType: string)
    requires OnlyXpGrew(a, b)
    ensures CurrentValue(b, requirementType) >= CurrentValue(a, requirementType)
  {
  }

  /* ---------------- the badge pass ---------------- */

  datatype UnlockState = UnlockState(row: StatsRow, records: seq<UserBadgeRow>, newly: seq<Badge>)

  predicate StateValid(st: UnlockState) {
    RowValid(st.row) && UniquePairs(st.records)
  }

  /** The ledger after a badge's reward: `addXp` of a positive reward, nothing otherwise. */
  function Reward(row: StatsRow, b: Badge): (r: StatsRow)
    requires RowValid(row)
    ensures RowValid(r) && OnlyXpGrew(row, r)
    ensures r.totalXp == row.totalXp + PaidReward(b)
    ensures r.weeklyXp == row.weeklyXp + PaidReward(b) && r.monthlyXp == row.monthlyXp + PaidReward(b)
  {
    if PaidReward(b) > 0 then GainXp(row, PaidReward(b)) else row
  }

  /**
   * One iteration of the unlock loop: a badge the user already holds changes
   * nothing; otherwise the record is saved, the reward paid and the badge
   * appended to the list.
   */
  function Unlock(st: UnlockState, user: UserId, b: Badge, value: int, now: int): (s: UnlockState)
    requires StateValid(st)
    ensures StateValid(s)
  {
    if ExistsPair(st.records, user, b.id) then st
    else
      var u := NewUserBadge(user, b, now, value);
      AppendFreshPair(st.records, u);
      UnlockState(Reward(st.row, b), st.records + [u], st.newly + [b])
  }

  /** The unlock loop over the eligible badges, in order. */
  function UnlockEach(st: UnlockState, user: UserId, eligible: seq<Badge>, value: int, now: int): (s: UnlockState)
    requires StateValid(st)
    ensures StateValid(s)
    decreases |eligible|
  {
    if eligible == [] then st
    else
      var n := |eligible| - 1;
      Unlock(UnlockEach(st, user, eligible[..n], value, now), user, eligible[n], value, now)
  }

  /** `checkAndUnlockByType`: the loop over the badges the value qualifies for. */
  function UnlockByType(st: UnlockState, user: UserId, catalog: seq<Badge>, requirementType: string,
                        value: int, now: int): (s: UnlockState)
    requires StateValid(st)
    ensures StateValid(s)
  {
    UnlockEach(st, user, FindUnlockableBadges(catalog, requirementType, value), value, now)
  }

  /** The types in order, each value read from the ledger as it is when its turn comes. */
  function UnlockTypes(st: UnlockState, user: UserId, catalog: seq<Badge>, types: seq<string>, now: int): (s: UnlockState)
    requires StateValid(st)
    ensures StateValid(s)
    decreases |types|
  {
    if types == [] then st
    else
      var next := UnlockByType(st, user, catalog, types[0], CurrentValue(st.row, types[0]), now);
      UnlockTypes(next, user, catalog, types[1..], now)
  }

  /** `checkAndUnlockBadges`. */
  function UnlockAll(st: UnlockState, user: UserId, catalog: seq<Badge>, now: int): (s: UnlockState)
    requires StateValid(st)
    ensures StateValid(s)
  {
    UnlockTypes(st, user, catalog, RequirementTypes, now)
  }

  /* ---------------- accounting of the pass ---------------- */

  /** The total of the rewards the listed badges pay. */
  function RewardSum(bs: seq<Badge>): nat {
    if bs == [] then 0 else RewardSum(bs[..|bs| - 1]) + PaidReward(bs[|bs| - 1])
  }

  predicate RecordOf(u: UserBadgeRow, user: UserId, b: Badge, now: int) {
    u.userId == user && u.badge == b && u.unlockedAt == now && u.isNew
  }

  /**
   * `s` arose from `t` by unlocks: both lists only grew, one record per
   * appended badge, each for this user, this badge and this time; the XP
   * totals grew by exactly the rewards of the appended badges, and nothing
   * but XP and level changed in the ledger.
   */
  predicate Tracks(s: UnlockState, t: UnlockState, user: UserId, now: int) {
    |t.records| <= |s.records| && |t.newly| <= |s.newly|
    && |s.records| - |t.records| == |s.newly| - |t.newly|
    && s.records[..|t.records|] == t.records
    && s.newly[..|t.newly|] == t.newly
    && (forall k :: |t.newly| <= k < |s.newly| ==>
          RecordOf(s.records[|t.records| + (k - |t.newly|)], user, s.newly[k], now))
    && s.row.totalXp - RewardSum(s.newly) == t.row.totalXp - RewardSum(t.newly)
    && s.row.weeklyXp - RewardSum(s.newly) == t.row.weeklyXp - RewardSum(t.newly)
    && s.row.monthlyXp - RewardSum(s.newly) == t.row.monthlyXp - RewardSum(t.newly)
    && OnlyXpGrew(t.row, s.row)
  }

  lemma TracksReflexive(s: UnlockState, user: UserId, now: int)
    ensures Tracks(s, s, user, now)
  {
    assert s.records[..|s.records|] == s.records;
    assert s.newly[..|s.newly|] == s.newly;
  }

  lemma TracksTransitive(s2: UnlockState, s1: UnlockState, s0: UnlockState, user: UserId, now: int)
    requires Tracks(s2, s1, user, now) && Tracks(s1, s0, user, now)
    ensures Tracks(s2, s0, user, now)
  {
    assert s2.records[..|s0.records|] == s2.records[..|s1.records|][..|s0.records|];
    assert s2.newly[..|s0.newly|] == s2.newly[..|s1.newly|][..|s0.newly|];
    forall k | |s0.newly| <= k < |s2.newly|
      ensures RecordOf(s2.records[|s0.records| + (k - |s0.newly|)], user, s2.newly[k], now)
    {
      if k < |s1.newly| {
        assert s2.newly[k] == s2.newly[..|s1.newly|][k];
        assert s2.records[|s0.records| + (k - |s0.newly|)] == s2.records[..|s1.records|][|s0.records| + (k - |s0.newly|)];
      } else {
        assert |s0.records| + (k - |s0.newly|) == |s1.records| + (k - |s1.newly|);
      }
    }
  }

  /** One iteration of the unlock loop keeps the accounting. */
  lemma UnlockTracks(st: UnlockState, user: UserId, b: Badge, value: int, now: int)
    requires StateValid(st)
    ensures Tracks(Unlock(st, user, b, value, now), st, user, now)
  {
    var s := Unlock(st, user, b, value, now);
    if ExistsPair(st.records, user, b.id) {
      TracksReflexive(st, user, now);
    } else {
      assert s.records[..|st.records|] == st.records;
      assert s.newly[..|st.newly|] == st.newly;
      assert s.newly[..|s.newly| - 1] == st.newly;
      assert s.records[|st.records|] == NewUserBadge(user, b, now, value);
    }
  }

  lemma {:induction false} UnlockEachTracks(st: UnlockState, user: UserId, eligible: seq<Badge>, value: int, now: int)
    requires StateValid(st)
    ensures Tracks(UnlockEach(st, user, eligible, value, now), st, user, now)
    decreases |eligible|
  {
    if eligible == [] {
      TracksReflexive(st, user, now);
    } else {
      var n := |eligible| - 1;
      var mid := UnlockEach(st, user, eligible[..n], value, now);
      UnlockEachTracks(st, user, eligible[..n], value, now);
      UnlockTracks(mid, user, eligible[n], value, now);
      TracksTransitive(UnlockEach(st, user, eligible, value, now), mid, st, user, now);
    }
  }

  lemma {:induction false} UnlockTypesTracks(st: UnlockState, user: UserId, catalog: seq<Badge>, types: seq<string>, now: int)
    requires StateValid(st)
    ensures Tracks(UnlockTypes(st, user, catalog, types, now), st, user, now)
    decreases |types|
  {
    if types == [] {
      TracksReflexive(st, user, now);
    } else {
      var next := UnlockByType(st, user, catalog, types[0], CurrentValue(st.row, types[0]), now);
      UnlockEachTracks(st, user, FindUnlockableBadges(catalog, types[0], CurrentValue(st.row, types[0])),
                       CurrentValue(st.row, types[0]), now);
      UnlockTypesTracks(next, user, catalog, types[1..], now);
      TracksTransitive(UnlockTypes(st, user, catalog, types, now), next, st, user, now);
    }
  }

  /**
   * The appended badges of a tracked state have distinct ids, none of which
   * the user held before: with the unique constraint on (user, badge), no
   * pair is recorded twice and no reward is paid twice.
   */
  lemma TracksFresh(s: UnlockState, t: UnlockState, user: UserId, now: int)
    requires Tracks(s, t, user, now) && UniquePairs(s.records)
    ensures forall k :: |t.newly| <= k < |s.newly| ==> !ExistsPair(t.records, user, s.newly[k].id)
    ensures forall k, m :: |t.newly| <= k < m < |s.newly| ==> s.newly[k].id != s.newly[m].id
  {
    var base := |t.records| - |t.newly|;
    forall k | |t.newly| <= k < |s.newly| ensures !ExistsPair(t.records, user, s.newly[k].id) {
      forall i | 0 <= i < |t.records| ensures !SamePair(t.records[i], s.records[base + k]) {
        assert t.records[i] == s.records[i];
      }
    }
    forall k, m | |t.newly| <= k < m < |s.newly| ensures s.newly[k].id != s.newly[m].id {
      assert !SamePair(s.records[base + k], s.records[base + m]);
    }
  }

  /** The passes from an empty list: each unlocked badge is fresh, listed once, paid once. */
  lemma TypesAccounting(row: StatsRow, records: seq<UserBadgeRow>, user: UserId, catalog: seq<Badge>,
                        types: seq<string>, now: int)
    requires RowValid(row) && UniquePairs(records)
    ensures var s := UnlockTypes(UnlockState(row, records, []), user, catalog, types, now);
            && |s.records| == |records| + |s.newly|
            && s.records[..|records|] == records
            && (forall k :: 0 <= k < |s.newly| ==> RecordOf(s.records[|records| + k], user, s.newly[k], now))
            && (forall k :: 0 <= k < |s.newly| ==> !ExistsPair(records, user, s.newly[k].id))
            && DistinctBy(s.newly, BadgeId)
            && s.row.totalXp == row.totalXp + RewardSum(s.newly)
            && s.row.weeklyXp == row.weeklyXp + RewardSum(s.newly)
            && s.row.monthlyXp == row.monthlyXp + RewardSum(s.newly)
            && OnlyXpGrew(row, s.row)
  {
    var t := UnlockState(row, records, []);
    var s := UnlockTypes(t, user, catalog, types, now);
    UnlockTypesTracks(t, user, catalog, types, now);
    TracksFromEmpty(s, row, records, user, now);
  }

  /** The accounting of a tracked state reached from an empty list. */
  lemma TracksFromEmpty(s: UnlockState, row: StatsRow, records: seq<UserBadgeRow>, user: UserId, now: int)
    requires Tracks(s, UnlockState(row, records, []), user, now) && UniquePairs(s.records)
    ensures |s.records| == |records| + |s.newly|
    ensures s.records[..|records|] == records
    ensures forall k :: 0 <= k < |s.newly| ==> RecordOf(s.records[|records| + k], user, s.newly[k], now)
    ensures forall k :: 0 <= k < |s.newly| ==> !ExistsPair(records, user, s.newly[k].id)
    ensures DistinctBy(s.newly, BadgeId)
    ensures s.row.totalXp == row.totalXp + RewardSum(s.newly)
    ensures s.row.weeklyXp == row.weeklyXp + RewardSum(s.newly)
    ensures s.row.monthlyXp == row.monthlyXp + RewardSum(s.newly)
    ensures OnlyXpGrew(row, s.row)
  {
    var t := UnlockState(row, records, []);
    TracksFresh(s, t, user, now);
    forall k | 0 <= k < |s.newly| ensures RecordOf(s.records[|records| + k], user, s.newly[k], now) {
      assert |t.records| + (k - |t.newly|) == |records| + k;
    }
  }

  /**
   * The whole pass from an empty list: each unlocked badge gets one record
   * of this user at this time, none was held before, none is listed twice,
   * and the XP totals grew by exactly their rewards.
   */
  lemma UnlockAllAccounting(row: StatsRow, records: seq<UserBadgeRow>, user: UserId, catalog: seq<Badge>, now: int)
    requires RowValid(row) && UniquePairs(records)
    ensures var s := UnlockAll(UnlockState(row, records, []), user, catalog, now);
            && |s.records| == |records| + |s.newly|
            && s.records[..|records|] == records
            && (forall k :: 0 <= k < |s.newly| ==> RecordOf(s.records[|records| + k], user, s.newly[k], now))
            && (forall k :: 0 <= k < |s.newly| ==> !ExistsPair(records, user, s.newly[k].id))
            && DistinctBy(s.newly, BadgeId)
            && s.row.totalXp == row.totalXp + RewardSum(s.newly)
            && s.row.weeklyXp == row.weeklyXp + RewardSum(s.newly)
            && s.row.monthlyXp == row.monthlyXp + RewardSum(s.newly)
            && OnlyXpGrew(row, s.row)
  {
    TypesAccounting(row, records, user, catalog, RequirementTypes, now);
  }

  /* ---------------- which badges a pass unlocks ---------------- */

  /** Some badge of the list has this id. */
  predicate HasId(bs: seq<Badge>, id: Uuid) {
    exists j :: 0 <= j < |bs| && bs[j].id == id
  }

  /** The ids of a list are those of its last element and of the rest. */
  lemma HasIdSplit(bs: seq<Badge>, id: Uuid)
    requires bs != []
    ensures HasId(bs, id) <==> HasId(bs[..|bs| - 1], id) || bs[|bs| - 1].id == id
  {
    var n := |bs| - 1;
    if HasId(bs, id) {
      var j :| 0 <= j < |bs| && bs[j].id == id;
      if j < n {
        assert bs[..n][j] == bs[j];
      }
    }
    if HasId(bs[..n], id) {
      var j :| 0 <= j < n && bs[..n][j].id == id;
      assert bs[j] == bs[..n][j];
    }
  }

  /** Distinct ids stay distinct in a prefix, and the last id is not among the rest. */
  lemma DistinctPrefix(bs: seq<Badge>)
    requires bs != [] && DistinctBy(bs, BadgeId)
    ensures DistinctBy(bs[..|bs| - 1], BadgeId)
    ensures !HasId(bs[..|bs| - 1], bs[|bs| - 1].id)
  {
    var n := |bs| - 1;
    var prefix := bs[..n];
    forall i, j | 0 <= i < j < |prefix| ensures BadgeId(prefix[i]) != BadgeId(prefix[j]) {
      assert prefix[i] == bs[i] && prefix[j] == bs[j];
    }
  }

  /** After one iteration the user holds the badge, and whatever they held before. */
  lemma UnlockHolds(st: UnlockState, user: UserId, b: Badge, value: int, now: int, id: Uuid)
    requires StateValid(st)
    ensures ExistsPair(Unlock(st, user, b, value, now).records, user, id) <==>
              ExistsPair(st.records, user, id) || id == b.id
  {
    if !ExistsPair(st.records, user, b.id) {
      var u := NewUserBadge(user, b, now, value);
      ExistsPairAppend(st.records, [u], user, id);
      assert [u][0] == u;
    }
  }

  /** After the unlock loop the user holds exactly what they held before plus every eligible badge. */
  lemma {:induction false} UnlockEachHolds(st: UnlockState, user: UserId, eligible: seq<Badge>, value: int, now: int, id: Uuid)
    requires StateValid(st)
    ensures ExistsPair(UnlockEach(st, user, eligible, value, now).records, user, id) <==>
              ExistsPair(st.records, user, id) || HasId(eligible, id)
    decreases |eligible|
  {
    if eligible != [] {
      var n := |eligible| - 1;
      UnlockEachHolds(st, user, eligible[..n], value, now, id);
      UnlockHolds(UnlockEach(st, user, eligible[..n], value, now), user, eligible[n], value, now, id);
      HasIdSplit(eligible, id);
    }
  }

  /**
   * The unlock loop over distinct eligible badges appends exactly those the
   * user does not hold yet.
   */
  lemma {:induction false} UnlockEachExact(st: UnlockState, user: UserId, eligible: seq<Badge>, value: int, now: int)
    requires StateValid(st) && DistinctBy(eligible, BadgeId)
    ensures var s := UnlockEach(st, user, eligible, value, now);
            forall b :: b in s.newly <==> b in st.newly || (b in eligible && !ExistsPair(st.records, user, b.id))
    decreases |eligible|
  {
    if eligible != [] {
      var n := |eligible| - 1;
      var b := eligible[n];
      DistinctPrefix(eligible);
      UnlockEachExact(st, user, eligible[..n], value, now);
      UnlockEachHolds(st, user, eligible[..n], value, now, b.id);
      assert forall x :: x in eligible <==> x in eligible[..n] || x == b by {
        assert eligible == eligible[..n] + [b];
      }
    }
  }

  /** The records the loop appends carry the value that qualified as the progress at unlock. */
  lemma {:induction false} UnlockEachProgress(st: UnlockState, user: UserId, eligible: seq<Badge>, value: int, now: int)
    requires StateValid(st)
    ensures var s := UnlockEach(st, user, eligible, value, now);
            |st.records| <= |s.records| &&
            forall k :: |st.records| <= k < |s.records| ==> s.records[k].progressAtUnlock == value
    decreases |eligible|
  {
    if eligible != [] {
      var n := |eligible| - 1;
      UnlockEachProgress(st, user, eligible[..n], value, now);
      var mid := UnlockEach(st, user, eligible[..n], value, now);
      var s := UnlockEach(st, user, eligible, value, now);
      if s != mid {
        assert s.records == mid.records + [NewUserBadge(user, eligible[n], now, value)];
      }
    }
  }

  /**
   * For one requirement type, the badges appended are exactly the active
   * ones of that type whose threshold the value reaches and that the user
   * does not hold; afterwards the user holds every qualifying badge.
   */
  lemma UnlockByTypeExact(st: UnlockState, user: UserId, catalog: seq<Badge>, requirementType: string, value: int, now: int)
    requires StateValid(st) && CatalogValid(catalog)
    ensures var s := UnlockByType(st, user, catalog, requirementType, value, now);
            forall b :: b in s.newly <==>
              b in st.newly || (b in catalog && Unlockable(b, requirementType, value) && !ExistsPair(st.records, user, b.id))
    ensures var s := UnlockByType(st, user, catalog, requirementType, value, now);
            forall b :: b in catalog && Unlockable(b, requirementType, value) ==> ExistsPair(s.records, user, b.id)
    ensures var s := UnlockByType(st, user, catalog, requirementType, value, now);
            forall k :: |st.records| <= k < |s.records| ==> s.records[k].progressAtUnlock == value
  {
    var eligible := FindUnlockableBadges(catalog, requirementType, value);
    UnlockableDistinct(catalog, requirementType, value);
    UnlockEachExact(st, user, eligible, value, now);
    UnlockEachProgress(st, user, eligible, value, now);
    var s := UnlockByType(st, user, catalog, requirementType, value, now);
    forall b | b in catalog && Unlockable(b, requirementType, value)
      ensures ExistsPair(s.records, user, b.id)
    {
      var j :| 0 <= j < |eligible| && eligible[j] == b;
      UnlockEachHolds(st, user, eligible, value, now, b.id);
    }
  }

  /** A pass only appends: records held before are held afterwards. */
  lemma KeepsRecords(s: UnlockState, t: UnlockState, user: UserId, now: int, other: UserId, id: Uuid)
    requires Tracks(s, t, user, now) && ExistsPair(t.records, other, id)
    ensures ExistsPair(s.records, other, id)
  {
    var i :| 0 <= i < |t.records| && t.records[i].userId == other && t.records[i].badge.id == id;
    assert s.records[i] == s.records[..|t.records|][i];
  }

  /**
   * Every badge the ledger qualifies for at the start of the pass is held
   * afterwards: the values read later are at least the starting ones.
   */
  lemma {:induction false} UnlockTypesComplete(st: UnlockState, user: UserId, catalog: seq<Badge>, types: seq<string>,
                                               now: int, t: string, b: Badge)
    requires StateValid(st) && CatalogValid(catalog)
    requires t in types && b in catalog && Unlockable(b, t, CurrentValue(st.row, t))
    ensures ExistsPair(UnlockTypes(st, user, catalog, types, now).records, user, b.id)
    decreases |types|
  {
    var next := UnlockByType(st, user, catalog, types[0], CurrentValue(st.row, types[0]), now);
    var s := UnlockTypes(st, user, catalog, types, now);
    UnlockTypesTracks(next, user, catalog, types[1..], now);
    if t == types[0] {
      UnlockByTypeExact(st, user, catalog, t, CurrentValue(st.row, t), now);
      KeepsRecords(s, next, user, now, user, b.id);
    } else {
      UnlockEachTracks(st, user, FindUnlockableBadges(catalog, types[0], CurrentValue(st.row, types[0])),
                       CurrentValue(st.row, types[0]), now);
      CurrentValueGrows(st.row, next.row, t);
      assert t in types[1..];
      UnlockTypesComplete(next, user, catalog, types[1..], now, t, b);
    }
  }

  /**
   * The badges a pass unlocks: each is an active catalog badge with a
   * requirement type of the pass, fresh for the user; and every badge the
   * starting ledger qualifies for is held afterwards.
   */
  lemma UnlockAllExact(row: StatsRow, records: seq<UserBadgeRow>, user: UserId, catalog: seq<Badge>, now: int)
    requires RowValid(row) && UniquePairs(records) && CatalogValid(catalog)
    ensures var s := UnlockAll(UnlockState(row, records, []), user, catalog, now);
            forall b :: b in s.newly ==>
              b in catalog && IsActive(b) && b.requirementType.Some? && b.requirementType.value in RequirementTypes
              && !ExistsPair(records, user, b.id)
    ensures var s := UnlockAll(UnlockState(row, records, []), user, catalog, now);
            forall t, b :: t in RequirementTypes && b in catalog && Unlockable(b, t, CurrentValue(row, t)) ==>
              ExistsPair(s.records, user, b.id)
  {
    var st := UnlockState(row, records, []);
    var s := UnlockAll(st, user, catalog, now);
    UnlockAllAccounting(row, records, user, catalog, now);
    UnlockTypesSound(st, user, catalog, RequirementTypes, now);
    forall t, b | t in RequirementTypes && b in catalog && Unlockable(b, t, CurrentValue(row, t))
      ensures ExistsPair(s.records, user, b.id)
    {
      UnlockTypesComplete(st, user, catalog, RequirementTypes, now, t, b);
    }
    forall b | b in s.newly ensures !ExistsPair(records, user, b.id) {
      var k :| 0 <= k < |s.newly| && s.newly[k] == b;
    }
  }

  /** Each badge a run of the passes appends is an active catalog badge of one of the types. */
  lemma {:induction false} UnlockTypesSound(st: UnlockState, user: UserId, catalog: seq<Badge>, types: seq<string>, now: int)
    requires StateValid(st) && CatalogValid(catalog)
    ensures forall b :: b in UnlockTypes(st, user, catalog, types, now).newly ==>
              b in st.newly || (b in catalog && IsActive(b) && b.requirementType.Some? && b.requirementType.value in types)
    decreases |types|
  {
    if types != [] {
      var next := UnlockByType(st, user, catalog, types[0], CurrentValue(st.row, types[0]), now);
      UnlockByTypeExact(st, user, catalog, types[0], CurrentValue(st.row, types[0]), now);
      UnlockTypesSound(next, user, catalog, types[1..], now);
      forall b | b in catalog && b.requirementType.Some? && b.requirementType.value in types[1..]
        ensures b.requirementType.value in types
      {
      }
    }
  }

  /* ---------------- a second pass ---------------- */

  /** The loop changes nothing when the user holds every eligible badge already. */
  lemma {:induction false} UnlockEachHeld(st: UnlockState, user: UserId, eligible: seq<Badge>, value: int, now: int)
    requires StateValid(st)
    requires forall b :: b in eligible ==> ExistsPair(st.records, user, b.id)
    ensures UnlockEach(st, user, eligible, value, now) == st
    decreases |eligible|
  {
    if eligible != [] {
      var n := |eligible| - 1;
      assert forall b :: b in eligible[..n] ==> b in eligible;
      UnlockEachHeld(st, user, eligible[..n], value, now);
      assert eligible[n] in eligible;
    }
  }

  /** The passes change nothing when every badge each type qualifies for is held. */
  lemma {:induction false} UnlockTypesHeld(st: UnlockState, user: UserId, catalog: seq<Badge>, types: seq<string>, now: int)
    requires StateValid(st)
    requires forall t, b :: t in types && b in catalog && Unlockable(b, t, CurrentValue(st.row, t)) ==>
               ExistsPair(st.records, user, b.id)
    ensures UnlockTypes(st, user, catalog, types, now) == st
    decreases |types|
  {
    if types != [] {
      var v := CurrentValue(st.row, types[0]);
      UnlockEachHeld(st, user, FindUnlockableBadges(catalog, types[0], v), v, now);
      UnlockTypesHeld(st, user, catalog, types[1..], now);
    }
  }

  /** Without positive rewards, the pass leaves the ledger as it was. */
  lemma {:induction false} UnrewardedKeepsLedger(st: UnlockState, user: UserId, catalog: seq<Badge>, types: seq<string>, now: int)
    requires StateValid(st)
    requires forall b :: b in catalog ==> PaidReward(b) == 0
    ensures UnlockTypes(st, user, catalog, types, now).row == st.row
    decreases |types|
  {
    if types != [] {
      var v := CurrentValue(st.row, types[0]);
      var eligible := FindUnlockableBadges(catalog, types[0], v);
      UnrewardedEachKeepsLedger(st, user, eligible, v, now);
      UnrewardedKeepsLedger(UnlockByType(st, user, catalog, types[0], v, now), user, catalog, types[1..], now);
    }
  }

  lemma {:induction false} UnrewardedEachKeepsLedger(st: UnlockState, user: UserId, eligible: seq<Badge>, value: int, now: int)
    requires StateValid(st)
    requires forall b :: b in eligible ==> PaidReward(b) == 0
    ensures UnlockEach(st, user, eligible, value, now).row == st.row
    decreases |eligible|
  {
    if eligible != [] {
      var n := |eligible| - 1;
      assert forall b :: b in eligible[..n] ==> b in eligible;
      UnrewardedEachKeepsLedger(st, user, eligible[..n], value, now);
      assert eligible[n] in eligible;
    }
  }

  /**
   * When no catalog badge pays a reward, running the pass again right after
   * unlocks nothing and changes nothing.
   */
  lemma SecondPassUnlocksNothing(row: StatsRow, records: seq<UserBadgeRow>, user: UserId, catalog: seq<Badge>, now: int)
    requires RowValid(row) && UniquePairs(records) && CatalogValid(catalog)
    requires forall b :: b in catalog ==> PaidReward(b) == 0
    ensures var s := UnlockAll(UnlockState(row, records, []), user, catalog, now);
            UnlockAll(s, user, catalog, now) == s
  {
    var s := UnlockAll(UnlockState(row, records, []), user, catalog, now);
    UnrewardedKeepsLedger(UnlockState(row, records, []), user, catalog, RequirementTypes, now);
    UnlockAllExact(row, records, user, catalog, now);
    UnlockTypesHeld(s, user, catalog, RequirementTypes, now);
  }

  /* ---------------- examples of the order ---------------- */

  /** Types no catalog badge requires are skipped without effect. */
  lemma {:induction false} IdleTypesSkipped(st: UnlockState, user: UserId, catalog: seq<Badge>, types: seq<string>, k: nat, now: int)
    requires StateValid(st) && k <= |types|
    requires forall b :: b in catalog ==> b.requirementType.Some? && b.requirementType.value !in types[..k]
    ensures UnlockTypes(st, user, catalog, types, now) == UnlockTypes(st, user, catalog, types[k..], now)
    decreases k
  {
    if k > 0 {
      var v := CurrentValue(st.row, types[0]);
      var e := FindUnlockableBadges(catalog, types[0], v);
      assert e == [] by {
        var p := UnlockableTest(types[0], v);
        forall i | 0 <= i < |catalog| ensures !p(catalog[i]) {
          assert catalog[i] in catalog;
          assert types[0] in types[..k];
        }
        FilterNone(catalog, p);
      }
      assert UnlockTypes(st, user, catalog, types, now) == UnlockTypes(st, user, catalog, types[1..], now);
      assert types[1..][..k - 1] == types[1..k];
      IdleTypesSkipped(st, user, catalog, types[1..], k - 1, now);
      assert types[1..][k - 1..] == types[k..];
    }
  }

  /** A catalog with only TOTAL_XP, LEVEL or FOCUS_SESSIONS badges starts its pass at TOTAL_XP. */
  lemma PassFromTotalXp(st: UnlockState, user: UserId, catalog: seq<Badge>, now: int)
    requires StateValid(st)
    requires forall b :: b in catalog ==> b.requirementType.Some? && b.requirementType.value !in RequirementTypes[..5]
    ensures UnlockAll(st, user, catalog, now) == UnlockTypes(st, user, catalog, ["TOTAL_XP", "LEVEL", "FOCUS_SESSIONS"], now)
  {
    IdleTypesSkipped(st, user, catalog, RequirementTypes, 5, now);
    assert RequirementTypes[5..] == ["TOTAL_XP", "LEVEL", "FOCUS_SESSIONS"];
  }

  /** One turn of the passes. */
  lemma TypesStep(st: UnlockState, user: UserId, catalog: seq<Badge>, types: seq<string>, now: int)
    requires StateValid(st) && types != []
    ensures UnlockTypes(st, user, catalog, types, now)
         == UnlockTypes(UnlockByType(st, user, catalog, types[0], CurrentValue(st.row, types[0]), now),
                        user, catalog, types[1..], now)
  {
  }

  /** The unlock loop over one more eligible badge. */
  lemma EachStep(st: UnlockState, user: UserId, eligible: seq<Badge>, i: nat, value: int, now: int)
    requires StateValid(st) && i < |eligible|
    ensures UnlockEach(st, user, eligible[..i + 1], value, now)
         == Unlock(UnlockEach(st, user, eligible[..i], value, now), user, eligible[i], value, now)
  {
    assert eligible[..i + 1][..i] == eligible[..i];
  }

  /** A pass over `done` followed by one more type is that type's turn after the pass. */
  lemma {:induction false} TypesSnoc(st: UnlockState, user: UserId, catalog: seq<Badge>, done: seq<string>,
                                     requirementType: string, now: int)
    requires StateValid(st)
    ensures var mid := UnlockTypes(st, user, catalog, done, now);
            UnlockTypes(st, user, catalog, done + [requirementType], now)
            == UnlockByType(mid, user, catalog, requirementType, CurrentValue(mid.row, requirementType), now)
    decreases |done|
  {
    if done == [] {
      assert [] + [requirementType] == [requirementType];
      TypesStep(st, user, catalog, [requirementType], now);
    } else {
      var next := UnlockByType(st, user, catalog, done[0], CurrentValue(st.row, done[0]), now);
      assert (done + [requirementType])[0] == done[0];
      assert (done + [requirementType])[1..] == done[1..] + [requirementType];
      TypesStep(st, user, catalog, done + [requirementType], now);
      TypesStep(st, user, catalog, done, now);
      TypesSnoc(next, user, catalog, done[1..], requirementType, now);
    }
  }

  /** The listed types, appended one at a time. */
  lemma RequirementTypesInOrder()
    ensures [] + ["EXPLANATIONS_COUNT"] + ["QUIZZES_COMPLETED"] + ["QUIZZES_PASSED"] + ["FLASHCARDS_STUDIED"]
            + ["STREAK_DAYS"] + ["TOTAL_XP"] + ["LEVEL"] + ["FOCUS_SESSIONS"] == RequirementTypes
  {
  }

  /** The pass over three types, unfolded. */
  lemma ThreeTypes(st: UnlockState, user: UserId, catalog: seq<Badge>, a: string, b: string, c: string, now: int)
    requires StateValid(st)
    ensures var s1 := UnlockByType(st, user, catalog, a, CurrentValue(st.row, a), now);
            var s2 := UnlockByType(s1, user, catalog, b, CurrentValue(s1.row, b), now);
            UnlockTypes(st, user, catalog, [a, b, c], now) == UnlockByType(s2, user, catalog, c, CurrentValue(s2.row, c), now)
  {
    var s1 := UnlockByType(st, user, catalog, a, CurrentValue(st.row, a), now);
    var s2 := UnlockByType(s1, user, catalog, b, CurrentValue(s1.row, b), now);
    var s3 := UnlockByType(s2, user, catalog, c, CurrentValue(s2.row, c), now);
    assert [a, b, c][0] == a && [a, b, c][1..] == [b, c];
    TypesStep(st, user, catalog, [a, b, c], now);
    assert [b, c][0] == b && [b, c][1..] == [c];
    TypesStep(s1, user, catalog, [b, c], now);
    assert [c][0] == c && [c][1..] == [];
    TypesStep(s2, user, catalog, [c], now);
    assert UnlockTypes(s3, user, catalog, [], now) == s3;
  }

  /** The qualifying badges of a two-badge catalog. */
  lemma PairUnlockable(a: Badge, b: Badge, requirementType: string, value: int)
    ensures FindUnlockableBadges([a, b], requirementType, value)
         == (if Unlockable(a, requirementType, value) then [a] else [])
            + (if Unlockable(b, requirementType, value) then [b] else [])
  {
    var p := UnlockableTest(requirementType, value);
    assert p(a) == Unlockable(a, requirementType, value) && p(b) == Unlockable(b, requirementType, value);
    assert [a, b][1..] == [b];
    assert [b][1..] == [];
    assert Filter([b], p) == (if p(b) then [b] else []) + Filter([], p);
    assert Filter([a, b], p) == (if p(a) then [a] else []) + Filter([b], p);
  }

  /** A one-badge loop over a user who does not hold the badge. */
  lemma UnlockSingle(st: UnlockState, user: UserId, b: Badge, value: int, now: int)
    requires StateValid(st) && !ExistsPair(st.records, user, b.id)
    ensures UnlockEach(st, user, [b], value, now).row == Reward(st.row, b)
    ensures UnlockEach(st, user, [b], value, now).newly == st.newly + [b]
    ensures UnlockEach(st, user, [b], value, now).records == st.records + [NewUserBadge(user, b, now, value)]
  {
    assert [b][..0] == [];
  }

  /** A type neither badge of a two-badge catalog requires unlocks nothing. */
  lemma PairIdleType(st: UnlockState, user: UserId, a: Badge, b: Badge, requirementType: string, value: int, now: int)
    requires StateValid(st)
    requires !Unlockable(a, requirementType, value) && !Unlockable(b, requirementType, value)
    ensures UnlockByType(st, user, [a, b], requirementType, value, now) == st
  {
    PairUnlockable(a, b, requirementType, value);
  }

  /** The LEVEL and TOTAL_XP badges are only looked at from the sixth type on. */
  lemma PairPassFromTotalXp(st: UnlockState, user: UserId, levelBadge: Badge, xpBadge: Badge, now: int)
    requires StateValid(st)
    requires levelBadge.requirementType == Some("LEVEL") && xpBadge.requirementType == Some("TOTAL_XP")
    ensures var s1 := UnlockByType(st, user, [levelBadge, xpBadge], "TOTAL_XP", st.row.totalXp, now);
            var s2 := UnlockByType(s1, user, [levelBadge, xpBadge], "LEVEL", s1.row.level, now);
            UnlockAll(st, user, [levelBadge, xpBadge], now)
              == UnlockByType(s2, user, [levelBadge, xpBadge], "FOCUS_SESSIONS", s2.row.focusSessionsCompleted, now)
  {
    var catalog := [levelBadge, xpBadge];
    var T := RequirementTypes;
    assert T[..5] == ["EXPLANATIONS_COUNT", "QUIZZES_COMPLETED", "QUIZZES_PASSED", "FLASHCARDS_STUDIED", "STREAK_DAYS"];
    assert |"EXPLANATIONS_COUNT"| == 18 && |"QUIZZES_COMPLETED"| == 17 && |"QUIZZES_PASSED"| == 14;
    assert |"FLASHCARDS_STUDIED"| == 18 && |"STREAK_DAYS"| == 11 && |"LEVEL"| == 5 && |"TOTAL_XP"| == 8;
    assert "LEVEL" !in T[..5] && "TOTAL_XP" !in T[..5];
    assert forall b :: b in catalog ==> b.requirementType.Some? && b.requirementType.value !in T[..5] by {
      forall b | b in catalog ensures b.requirementType.Some? && b.requirementType.value !in T[..5] {
        assert b == levelBadge || b == xpBadge;
      }
    }
    PassFromTotalXp(st, user, catalog, now);
    ThreeTypes(st, user, catalog, "TOTAL_XP", "LEVEL", "FOCUS_SESSIONS", now);
    CurrentValueOfTypes(st.row);
    var s1 := UnlockByType(st, user, catalog, "TOTAL_XP", st.row.totalXp, now);
    CurrentValueOfTypes(s1.row);
    var s2 := UnlockByType(s1, user, catalog, "LEVEL", s1.row.level, now);
    CurrentValueOfTypes(s2.row);
  }

  /** The last three type names are distinct. */
  lemma LateTypesDiffer()
    ensures "TOTAL_XP" != "LEVEL" && "TOTAL_XP" != "FOCUS_SESSIONS" && "LEVEL" != "FOCUS_SESSIONS"
  {
    assert |"LEVEL"| == 5 && |"TOTAL_XP"| == 8 && |"FOCUS_SESSIONS"| == 14;
  }

  /** The LEVEL turn of a catalog whose only qualifying badge is the LEVEL one. */
  lemma LevelTurn(st: UnlockState, user: UserId, levelBadge: Badge, xpBadge: Badge, now: int)
    requires StateValid(st) && !ExistsPair(st.records, user, levelBadge.id)
    requires Unlockable(levelBadge, "LEVEL", st.row.level) && xpBadge.requirementType == Some("TOTAL_XP")
    ensures var s := UnlockByType(st, user, [levelBadge, xpBadge], "LEVEL", st.row.level, now);
            && s.row == Reward(st.row, levelBadge)
            && s.newly == st.newly + [levelBadge]
            && s.records == st.records + [NewUserBadge(user, levelBadge, now, st.row.level)]
  {
    assert |"LEVEL"| == 5 && |"TOTAL_XP"| == 8;
    PairUnlockable(levelBadge, xpBadge, "LEVEL", st.row.level);
    UnlockSingle(st, user, levelBadge, st.row.level, now);
  }

  /**
   * TOTAL_XP is checked before LEVEL, so the reward of a LEVEL badge is not
   * checked against the TOTAL_XP badges in the same pass: the reward lifts the
   * ledger past a TOTAL_XP threshold, and that badge still stays locked.
   */
  lemma LevelRewardNotRechecked(row: StatsRow, user: UserId, levelBadge: Badge, xpBadge: Badge, now: int)
    requires RowValid(row)
    requires IsActive(levelBadge) && levelBadge.requirementType == Some("LEVEL")
    requires levelBadge.requirementValue.Some? && levelBadge.requirementValue.value <= row.level
    requires IsActive(xpBadge) && xpBadge.requirementType == Some("TOTAL_XP") && xpBadge.requirementValue.Some?
    requires row.totalXp < xpBadge.requirementValue.value <= row.totalXp + PaidReward(levelBadge)
    requires levelBadge.id != xpBadge.id
    ensures var s := UnlockAll(UnlockState(row, [], []), user, [levelBadge, xpBadge], now);
            && s.newly == [levelBadge]
            && s.records == [NewUserBadge(user, levelBadge, now, row.level)]
            && s.row == Reward(row, levelBadge)
            && Unlockable(xpBadge, "TOTAL_XP", s.row.totalXp)
  {
    var st := UnlockState(row, [], []);
    PairPassFromTotalXp(st, user, levelBadge, xpBadge, now);
    LateTypesDiffer();
    PairIdleType(st, user, levelBadge, xpBadge, "TOTAL_XP", row.totalXp, now);
    LevelTurn(st, user, levelBadge, xpBadge, now);
    var s2 := UnlockByType(st, user, [levelBadge, xpBadge], "LEVEL", row.level, now);
    PairIdleType(s2, user, levelBadge, xpBadge, "FOCUS_SESSIONS", s2.row.focusSessionsCompleted, now);
  }

  /** A list of distinct badges drawn from one badge, and not empty, is that badge alone. */
  lemma OnlyBadge(bs: seq<Badge>, badge: Badge)
    requires |bs| >= 1 && DistinctBy(bs, BadgeId)
    requires forall b :: b in bs ==> b == badge
    ensures bs == [badge]
  {
    assert bs[0] in bs;
    if |bs| > 1 {
      SecondListed(bs);
      assert false;
    }
  }

  lemma SecondListed(bs: seq<Badge>)
    requires |bs| > 1
    ensures bs[1] in bs
  {
  }

  /** Passes over a one-badge catalog unlock nothing but that badge. */
  lemma SingleCatalogNewly(st: UnlockState, user: UserId, catalog: seq<Badge>, types: seq<string>, now: int)
    requires StateValid(st) && st.newly == [] && |catalog| == 1
    ensures forall b :: b in UnlockTypes(st, user, catalog, types, now).newly ==> b == catalog[0]
  {
    UnlockTypesSound(st, user, catalog, types, now);
  }

  /** Over an empty unlock table, passes that record a badge list it as new. */
  lemma FreshPassNewly(row: StatsRow, records: seq<UserBadgeRow>, user: UserId, catalog: seq<Badge>,
                       types: seq<string>, id: Uuid, now: int)
    requires RowValid(row) && |records| == 0
    requires ExistsPair(UnlockTypes(UnlockState(row, records, []), user, catalog, types, now).records, user, id)
    ensures |UnlockTypes(UnlockState(row, records, []), user, catalog, types, now).newly| >= 1
  {
    TypesAccounting(row, records, user, catalog, types, now);
  }

  /**
   * A one-badge catalog whose badge the ledger qualifies for under one of
   * the types, over an empty unlock table: the passes unlock it and pay it.
   */
  lemma SingleBadgePass(row: StatsRow, records: seq<UserBadgeRow>, user: UserId, catalog: seq<Badge>,
                        types: seq<string>, requirementType: string, now: int)
    requires RowValid(row) && |records| == 0 && |catalog| == 1
    requires requirementType in types
    requires Unlockable(catalog[0], requirementType, CurrentValue(row, requirementType))
    ensures var s := UnlockTypes(UnlockState(row, records, []), user, catalog, types, now);
            s.newly == catalog && s.row.totalXp == row.totalXp + PaidReward(catalog[0])
  {
    var badge := catalog[0];
    var st := UnlockState(row, records, []);
    UnlockTypesComplete(st, user, catalog, types, now, requirementType, badge);
    FreshPassNewly(row, records, user, catalog, types, badge.id, now);
    SingleCatalogNewly(st, user, catalog, types, now);
    TypesAccounting(row, records, user, catalog, types, now);
    var s := UnlockTypes(st, user, catalog, types, now);
    OnlyBadge(s.newly, badge);
    assert catalog == [badge];
    assert RewardSum([badge]) == PaidReward(badge) by {
      assert [badge][..0] == [];
    }
  }
}
