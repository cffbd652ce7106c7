/**
 * The recommendation rules engine. Each rule proposes candidates from
 * the user's statistics and progress; `createRecommendation` stores a
 * candidate only when its slot (user, type, topic) has never been used,
 * in whatever state the earlier row is now. Several rules share the
 * DAILY_GOAL slot without a topic, and two share the NEW_TOPIC one.
 *
 * The progress queries are inputs; times are seconds, days are counted
 * from 1970-01-01 in UTC, and "today" is the day of `now`.
 */
module RecommendationService {
  import opened Common
  import opened Text
  import opened Queries
  import opened UserStatsModel
  import opened Recommendations
  import opened RecommendationRepository
  import StatsRepository
  import GamificationServices
  import GamificationServiceImpl

  const NotFound := "Raccomandazione non trovata"
  const NotAuthorized := "Non autorizzato"

  /* The texts of the rules, in rule order. */
  const StreakTitle: string := "Mantieni il tuo streak!"
  const StreakDescriptionHead: string := "Hai uno streak di "
  const StreakDescriptionTail: string := " giorni. Non perderlo!"
  const StreakReason: string := "Non perdere il tuo streak di studio"
  const WeakTitleHead: string := "Ripassa: "
  const WeakDescriptionHead: string := "Il tuo punteggio medio e' "
  const WeakDescriptionTail: string := "%. Puoi migliorare!"
  const WeakReason: string := "Punteggio sotto il 60%"
  const ReviewTitleHead: string := "Ripasso consigliato: "
  const ReviewDescriptionHead: string := "Non studi questo argomento da "
  const ReviewDescriptionTail: string := " giorni"
  const ReviewReason: string := "Il ripasso periodico migliora la memoria a lungo termine"
  const ContinueTitleHead: string := "Continua con: "
  const ContinueDescriptionHead: string := "Sei sulla buona strada! Punteggio attuale: "
  const PercentSign: string := "%"
  const ContinueReason: string := "Ancora un po' di pratica per padroneggiare l'argomento"
  const ChallengeTitleHead: string := "Sfida te stesso: "
  const ChallengeDescription: string := "Sei forte in questo argomento! Prova un quiz difficile."
  const ChallengeReasonHead: string := "Punteggio attuale: "
  const ChallengeReasonTail: string := "% - Punta al 100%!"
  const ImproveTitle: string := "Migliora la tua media!"
  const ImproveDescriptionHead: string := "La tua media generale e' "
  const ImproveDescriptionTail: string := "%. Ripassa gli argomenti deboli."
  const ImproveReason: string := "Una media sopra il 70% ti aiutera' a consolidare le conoscenze"
  const StudyTimeTitle: string := "Aumenta il tempo di studio"
  const StudyTimeDescription: string := "Hai studiato meno di un'ora in totale. Prova a dedicare piu' tempo!"
  const StudyTimeReason: string := "Anche 15 minuti al giorno fanno la differenza"
  const ExploreTitle: string := "Esplora nuovi argomenti!"
  const ExploreDescriptionHead: string := "Hai studiato solo "
  const ExploreDescriptionTail: string := " argomenti. Amplia i tuoi orizzonti!"
  const ExploreReason: string := "La varieta' aiuta a mantenere alta la motivazione"
  const XpGoalTitle: string := "Raggiungi 50 XP oggi!"
  const XpGoalDescription: string := "Completa qualche attivita' per raggiungere il tuo obiettivo"
  const XpGoalReason: string := "Guadagna XP per salire di livello"
  const TryQuizTitle: string := "Prova a creare un Quiz!"
  const TryQuizDescription: string := "Genera un quiz con l'AI per testare le tue conoscenze"
  const TryQuizReason: string := "Non hai ancora completato nessun quiz"
  const TryFlashcardsTitle: string := "Scopri le Flashcards!"
  const TryFlashcardsDescription: string := "Crea un deck di flashcards per memorizzare concetti"
  const TryFlashcardsReason: string := "Non hai ancora studiato nessuna flashcard"
  const MilestoneTitle: string := "Complimenti! 10+ Quiz completati"
  const MilestoneDescription: string := "Stai facendo un ottimo lavoro! Continua cosi'!"
  const MilestoneReason: string := "Sei tra gli studenti piu' attivi"
  const WeekendTitle: string := "Studio del weekend!"
  const WeekendDescription: string := "Approfitta del weekend per recuperare o approfondire"
  const WeekendReason: string := "Il weekend e' perfetto per sessioni di studio piu' lunghe"

  /** The arguments of one `createRecommendation` call. */
  datatype Candidate = Candidate(
    kind: RecommendationType, title: string, description: string,
    topic: Option<string>, reason: string, priority: Priority)

  /** A progress row as the rules read it: its topic and average score. */
  datatype TopicScore = TopicScore(topic: string, averageScore: Option<real>)

  /** A progress row with its last activity, in seconds. */
  datatype TopicVisit = TopicVisit(topic: string, lastActivityAt: int)

  /**
   * The results of the progress queries for the user: `findWeakTopics`
   * below 60 (their averages are present), `findTopicsNeedingReview` older
   * than seven days, `findRecentTopics` limited to 3, `findMostStudiedTopics`,
   * the overall average, the total study minutes and the topic count.
   */
  datatype ProgressQueries = ProgressQueries(
    weakTopics: seq<(string, real)>,
    topicsToReview: seq<TopicVisit>,
    recentTopics: seq<TopicScore>,
    mostStudied: seq<TopicScore>,
    overallAverage: Option<real>,
    totalStudyMinutes: Option<int>,
    totalTopics: int)

  /** The day of a time stamp. */
  function DayOf(t: int): int {
    t / SecondsPerDay
  }

  /** ISO day of the week, Monday 1 to Sunday 7; 1970-01-01 was a Thursday. */
  function DayOfWeek(day: int): (d: int)
    ensures 1 <= d <= 7
    ensures day == 0 ==> d == 4
  {
    (day + 3) % 7 + 1
  }

  predicate IsWeekend(day: int) {
    DayOfWeek(day) == 6 || DayOfWeek(day) == 7
  }

  /** Weekends recur every seven days, and two days of each week are weekend days. */
  lemma WeekendEveryWeek(day: int)
    ensures IsWeekend(day) <==> IsWeekend(day + 7)
    ensures DayOfWeek(day + 1) == if DayOfWeek(day) == 7 then 1 else DayOfWeek(day) + 1
    ensures IsWeekend(2) && IsWeekend(3) && !IsWeekend(4)
  {
  }

  /* ---------------- rules 1 to 6: statistics and progress ---------------- */

  /** Rule 1: a positive streak whose last activity was before today. */
  function StreakRule(stats: StatsRow, today: int): (r: seq<Candidate>)
    ensures r != [] <==> stats.currentStreak > 0 && stats.lastActivityDate.Some? && stats.lastActivityDate.value < today
    ensures |r| <= 1 && AllOf(r, StreakReminder, Urgent, None)
  {
    if stats.currentStreak > 0 && stats.lastActivityDate.Some? && stats.lastActivityDate.value < today then
      [Candidate(StreakReminder, StreakTitle,
                 StreakDescriptionHead + IntToString(stats.currentStreak) + StreakDescriptionTail,
                 None, StreakReason, Urgent)]
    else []
  }

  /** Rule 2, for one weak topic. */
  function WeakCandidate(topic: string, average: real): Candidate {
    Candidate(WeaknessFocus, WeakTitleHead + topic,
              WeakDescriptionHead + IntToString(JavaRound(average)) + WeakDescriptionTail,
              Some(topic), WeakReason, High)
  }

  /** Rule 2: one HIGH candidate per weak topic, in query order. */
  function WeakRule(weak: seq<(string, real)>): (r: seq<Candidate>)
    ensures |r| == |weak|
    ensures forall k :: 0 <= k < |r| ==> r[k] == WeakCandidate(weak[k].0, weak[k].1)
  {
    if weak == [] then [] else [WeakCandidate(weak[0].0, weak[0].1)] + WeakRule(weak[1..])
  }

  /** The days between the last activity and today. */
  function DaysAgo(visit: TopicVisit, today: int): int {
    today - DayOf(visit.lastActivityAt)
  }

  /** Rule 3, for one topic due for review. */
  function ReviewCandidate(visit: TopicVisit, today: int): (c: Candidate)
    ensures c.kind == ReviewTopic && c.topic == Some(visit.topic)
    ensures c.priority == (if DaysAgo(visit, today) > 14 then High else Medium)
  {
    var daysAgo := DaysAgo(visit, today);
    Candidate(ReviewTopic, ReviewTitleHead + visit.topic,
              ReviewDescriptionHead + IntToString(daysAgo) + ReviewDescriptionTail,
              Some(visit.topic), ReviewReason,
              if daysAgo > 14 then High else Medium)
  }

  /** Rule 3: one candidate per topic due for review; HIGH exactly when it is more than 14 days old. */
  function ReviewRule(visits: seq<TopicVisit>, today: int): (r: seq<Candidate>)
    ensures |r| == |visits|
    ensures forall k :: 0 <= k < |r| ==> r[k].kind == ReviewTopic && r[k].topic == Some(visits[k].topic)
    ensures forall k :: 0 <= k < |r| ==> (r[k].priority == High <==> DaysAgo(visits[k], today) > 14)
    ensures forall k :: 0 <= k < |r| ==> (r[k].priority == Medium <==> DaysAgo(visits[k], today) <= 14)
  {
    seq(|visits|, k requires 0 <= k < |visits| => ReviewCandidate(visits[k], today))
  }

  /** The band of rule 4: an average present, at least 60 and below 80. */
  predicate InProgress(t: TopicScore) {
    t.averageScore.Some? && 60.0 <= t.averageScore.value < 80.0
  }

  /** Rule 4, for one recent topic in the band. */
  function ContinueCandidate(t: TopicScore): Candidate
    requires t.averageScore.Some?
  {
    Candidate(ReviewTopic, ContinueTitleHead + t.topic,
              ContinueDescriptionHead + IntToString(JavaRound(t.averageScore.value)) + PercentSign,
              Some(t.topic), ContinueReason, Medium)
  }

  /** Rule 4: a candidate for each recent topic in the band, and for no other. */
  function ContinueRule(recent: seq<TopicScore>): (r: seq<Candidate>)
    ensures forall k :: 0 <= k < |recent| && InProgress(recent[k]) ==> ContinueCandidate(recent[k]) in r
    ensures forall c :: c in r ==> exists k :: 0 <= k < |recent| && InProgress(recent[k]) && c == ContinueCandidate(recent[k])
  {
    if recent == [] then []
    else
      var rest := ContinueRule(recent[1..]);
      assert forall k :: 1 <= k < |recent| ==> recent[k] == recent[1..][k - 1];
      (if InProgress(recent[0]) then [ContinueCandidate(recent[0])] else []) + rest
  }

  /** Rule 5: only the most studied topic is looked at, and only at 80 or more. */
  function ChallengeRule(mostStudied: seq<TopicScore>): (r: seq<Candidate>)
    ensures r != [] <==> mostStudied != [] && mostStudied[0].averageScore.Some? && mostStudied[0].averageScore.value >= 80.0
    ensures |r| <= 1 && (r != [] ==> AllOf(r, RetryQuiz, Low, Some(mostStudied[0].topic)))
  {
    if mostStudied != [] && mostStudied[0].averageScore.Some? && mostStudied[0].averageScore.value >= 80.0 then
      var top := mostStudied[0];
      [Candidate(RetryQuiz, ChallengeTitleHead + top.topic,
                 ChallengeDescription, Some(top.topic),
                 ChallengeReasonHead + IntToString(JavaRound(top.averageScore.value)) + ChallengeReasonTail, Low)]
    else []
  }

  /** Whether every candidate is of the given type, priority and topic. */
  predicate AllOf(r: seq<Candidate>, kind: RecommendationType, priority: Priority, topic: Option<string>) {
    forall c :: c in r ==> c.kind == kind && c.priority == priority && c.topic == topic
  }

  /** Rule 6, on the overall average: present and below 70. */
  function ImproveRule(q: ProgressQueries): (r: seq<Candidate>)
    ensures r != [] <==> q.overallAverage.Some? && q.overallAverage.value < 70.0
    ensures |r| <= 1 && AllOf(r, WeaknessFocus, Medium, None)
  {
    if q.overallAverage.Some? && q.overallAverage.value < 70.0 then
      [Candidate(WeaknessFocus, ImproveTitle,
                 ImproveDescriptionHead + IntToString(JavaRound(q.overallAverage.value)) + ImproveDescriptionTail,
                 None, ImproveReason, Medium)]
    else []
  }

  /** Rule 6, on the study time: missing, or under an hour. */
  function StudyTimeRule(q: ProgressQueries): (r: seq<Candidate>)
    ensures r != [] <==> q.totalStudyMinutes.None? || q.totalStudyMinutes.value < 60
    ensures |r| <= 1 && AllOf(r, DailyGoal, Medium, None)
  {
    if q.totalStudyMinutes.None? || q.totalStudyMinutes.value < 60 then
      [Candidate(DailyGoal, StudyTimeTitle,
                 StudyTimeDescription,
                 None, StudyTimeReason, Medium)]
    else []
  }

  /** Rule 6, on the number of topics: fewer than five. */
  function ExploreRule(q: ProgressQueries): (r: seq<Candidate>)
    ensures r != [] <==> q.totalTopics < 5
    ensures |r| <= 1 && AllOf(r, NewTopic, Low, None)
  {
    if q.totalTopics < 5 then
      [Candidate(NewTopic, ExploreTitle,
                 ExploreDescriptionHead + IntToString(q.totalTopics) + ExploreDescriptionTail,
                 None, ExploreReason, Low)]
    else []
  }

  /** Rules 1 to 6 in order. */
  function EarlyCandidates(stats: StatsRow, q: ProgressQueries, today: int): seq<Candidate> {
    StreakRule(stats, today) + WeakRule(q.weakTopics) + ReviewRule(q.topicsToReview, today)
      + ContinueRule(q.recentTopics) + ChallengeRule(q.mostStudied)
      + ImproveRule(q) + StudyTimeRule(q) + ExploreRule(q)
  }

  /* ---------------- rules 7 to 11: statistics and the calendar ---------------- */

  /** Rule 7: under 50 XP this week. */
  function XpGoalRule(stats: StatsRow): (r: seq<Candidate>)
    ensures r != [] <==> stats.weeklyXp < 50
    ensures |r| <= 1 && AllOf(r, DailyGoal, Medium, None)
  {
    if stats.weeklyXp < 50 then
      [Candidate(DailyGoal, XpGoalTitle, XpGoalDescription,
                 None, XpGoalReason, Medium)]
    else []
  }

  /** Rule 8: no quiz completed yet. */
  function TryQuizRule(stats: StatsRow): (r: seq<Candidate>)
    ensures r != [] <==> stats.quizzesCompleted == 0
    ensures |r| <= 1 && AllOf(r, NewTopic, Medium, None)
  {
    if stats.quizzesCompleted == 0 then
      [Candidate(NewTopic, TryQuizTitle, TryQuizDescription,
                 None, TryQuizReason, Medium)]
    else []
  }

  /** Rule 9: no flashcard studied yet. */
  function TryFlashcardsRule(stats: StatsRow): (r: seq<Candidate>)
    ensures r != [] <==> stats.flashcardsStudied == 0
    ensures |r| <= 1 && AllOf(r, StudyFlashcards, Medium, None)
  {
    if stats.flashcardsStudied == 0 then
      [Candidate(StudyFlashcards, TryFlashcardsTitle, TryFlashcardsDescription,
                 None, TryFlashcardsReason, Medium)]
    else []
  }

  /** Rule 10: ten or more quizzes completed. */
  function MilestoneRule(stats: StatsRow): (r: seq<Candidate>)
    ensures r != [] <==> stats.quizzesCompleted >= 10
    ensures |r| <= 1 && AllOf(r, DailyGoal, Low, None)
  {
    if stats.quizzesCompleted >= 10 then
      [Candidate(DailyGoal, MilestoneTitle, MilestoneDescription,
                 None, MilestoneReason, Low)]
    else []
  }

  /** Rule 11: today is a Saturday or a Sunday. */
  function WeekendRule(today: int): (r: seq<Candidate>)
    ensures r != [] <==> IsWeekend(today)
    ensures |r| <= 1 && AllOf(r, DailyGoal, Low, None)
  {
    if IsWeekend(today) then
      [Candidate(DailyGoal, WeekendTitle, WeekendDescription,
                 None, WeekendReason, Low)]
    else []
  }

  /** Rules 7 to 11 in order. */
  function LateCandidates(stats: StatsRow, today: int): seq<Candidate> {
    XpGoalRule(stats) + TryQuizRule(stats) + TryFlashcardsRule(stats) + MilestoneRule(stats) + WeekendRule(today)
  }

  /**
   * The candidates tried, in rule order. An exception anywhere in rules 1
   * to 6 (`failedAt`, the number of their candidates tried before it) is
   * caught and ends those rules; rules 7 to 11 are tried regardless.
   */
  function Candidates(stats: StatsRow, q: ProgressQueries, today: int, failedAt: Option<nat>): (r: seq<Candidate>)
    ensures var late := LateCandidates(stats, today);
            |r| >= |late| && r[|r| - |late|..] == late
    ensures failedAt.None? ==> r == EarlyCandidates(stats, q, today) + LateCandidates(stats, today)
  {
    var early := EarlyCandidates(stats, q, today);
    (if failedAt.Some? then Take(early, failedAt.value) else early) + LateCandidates(stats, today)
  }

  /* ---------------- createRecommendation and its fold ---------------- */

  /** The row `createRecommendation` saves at time `now`: open, expiring one day later. */
  function NewRecommendation(id: Uuid, user: Uuid, c: Candidate, now: int): (r: RecommendationRow)
    ensures SlotOf(r) == Slot(user, c.kind, c.topic) && r.id == id
    ensures ActiveFilter(user, now, r) && r.expiresAt == Some(now + SecondsPerDay) && r.createdAt == now
    ensures ExpiredAt(r, now + SecondsPerDay + 1)
  {
    RecommendationRow(id, user, c.kind, c.title, Some(c.description), c.topic, Some(c.reason), c.priority,
                      false, false, None, None, Some(now + SecondsPerDay), now)
  }

  /** The rows created by trying `cands` in order against the table `rows`, ids counting up from `nextId`. */
  function Admit(rows: seq<RecommendationRow>, user: Uuid, cands: seq<Candidate>, now: int, nextId: Uuid): seq<RecommendationRow>
    decreases |cands|
  {
    if cands == [] then []
    else if SlotTaken(rows, Slot(user, cands[0].kind, cands[0].topic)) then Admit(rows, user, cands[1..], now, nextId)
    else
      var r := NewRecommendation(nextId, user, cands[0], now);
      [r] + Admit(rows + [r], user, cands[1..], now, nextId + 1)
  }

  /** One step of the fold, for the loop that performs it. */
  lemma AdmitStep(rows: seq<RecommendationRow>, user: Uuid, cands: seq<Candidate>, i: nat, now: int, nextId: Uuid)
    requires i < |cands|
    ensures var c := cands[i];
            Admit(rows, user, cands[i..], now, nextId) ==
              if SlotTaken(rows, Slot(user, c.kind, c.topic)) then Admit(rows, user, cands[i + 1..], now, nextId)
              else [NewRecommendation(nextId, user, c, now)] + Admit(rows + [NewRecommendation(nextId, user, c, now)], user, cands[i + 1..], now, nextId + 1)
  {
    assert cands[i..][0] == cands[i] && cands[i..][1..] == cands[i + 1..];
  }

  /** A slot already in the table is never used again, whatever the state of the row holding it. */
  lemma {:induction false} TakenSlotNotReused(rows: seq<RecommendationRow>, user: Uuid, cands: seq<Candidate>, now: int, nextId: Uuid, s: Slot)
    requires SlotTaken(rows, s)
    ensures forall x :: x in Admit(rows, user, cands, now, nextId) ==> SlotOf(x) != s
    decreases |cands|
  {
    if cands != [] {
      if SlotTaken(rows, Slot(user, cands[0].kind, cands[0].topic)) {
        TakenSlotNotReused(rows, user, cands[1..], now, nextId, s);
      } else {
        var r := NewRecommendation(nextId, user, cands[0], now);
        var i :| 0 <= i < |rows| && SlotOf(rows[i]) == s;
        assert SlotOf(r) != s;
        assert (rows + [r])[i] == rows[i];
        TakenSlotNotReused(rows + [r], user, cands[1..], now, nextId + 1, s);
      }
    }
  }

  /** The fold creates at most one row per candidate, each for the user, open and with a fresh id. */
  lemma {:induction false} AdmitShape(rows: seq<RecommendationRow>, user: Uuid, cands: seq<Candidate>, now: int, nextId: Uuid)
    ensures var created := Admit(rows, user, cands, now, nextId);
            |created| <= |cands| &&
            forall k :: 0 <= k < |created| ==> created[k].id == nextId + k && ActiveFilter(user, now, created[k])
    decreases |cands|
  {
    if cands != [] {
      AdmitShape(rows, user, cands[1..], now, nextId);
      var r := NewRecommendation(nextId, user, cands[0], now);
      AdmitShape(rows + [r], user, cands[1..], now, nextId + 1);
    }
  }

  /** Adding a row of an unused slot, with the next id, keeps the store's invariant. */
  lemma InsertKeepsValid(rows: seq<RecommendationRow>, nextId: Uuid, r: RecommendationRow)
    requires StoreValid(rows, nextId) && !SlotTaken(rows, SlotOf(r)) && r.id == nextId
    ensures StoreValid(rows + [r], nextId + 1)
  {
    var s := rows + [r];
    forall i, j | 0 <= i < j < |s| ensures SlotOf(s[i]) != SlotOf(s[j]) && IdOf(s[i]) != IdOf(s[j]) {
      if j == |rows| {
        assert s[i] == rows[i];
      } else {
        assert s[i] == rows[i] && s[j] == rows[j];
      }
    }
  }

  /** The fold keeps the store's invariant; in particular it never creates two rows of one slot. */
  lemma {:induction false} AdmitKeepsValid(rows: seq<RecommendationRow>, user: Uuid, cands: seq<Candidate>, now: int, nextId: Uuid)
    requires StoreValid(rows, nextId)
    ensures var created := Admit(rows, user, cands, now, nextId);
            StoreValid(rows + created, nextId + |created|)
    decreases |cands|
  {
    if cands != [] {
      if SlotTaken(rows, Slot(user, cands[0].kind, cands[0].topic)) {
        AdmitKeepsValid(rows, user, cands[1..], now, nextId);
      } else {
        var r := NewRecommendation(nextId, user, cands[0], now);
        InsertKeepsValid(rows, nextId, r);
        AdmitKeepsValid(rows + [r], user, cands[1..], now, nextId + 1);
        var rest := Admit(rows + [r], user, cands[1..], now, nextId + 1);
        assert rows + ([r] + rest) == rows + [r] + rest;
      }
    }
  }

  /**
   * The DAILY_GOAL rules without a topic share one slot: once any of them
   * has a row, in any state, the others can never produce one; within one
   * call at most one of them does.
   */
  lemma DailyGoalSlotShared(rows: seq<RecommendationRow>, nextId: Uuid, user: Uuid, cands: seq<Candidate>, now: int)
    requires StoreValid(rows, nextId)
    ensures var created := Admit(rows, user, cands, now, nextId);
            var s := Slot(user, DailyGoal, None);
            (SlotTaken(rows, s) ==> forall x :: x in created ==> SlotOf(x) != s) &&
            forall i, j :: 0 <= i < j < |created| ==> SlotOf(created[i]) != SlotOf(created[j])
  {
    var created := Admit(rows, user, cands, now, nextId);
    var s := Slot(user, DailyGoal, None);
    if SlotTaken(rows, s) {
      TakenSlotNotReused(rows, user, cands, now, nextId, s);
    }
    AdmitKeepsValid(rows, user, cands, now, nextId);
    var all := rows + created;
    forall i, j | 0 <= i < j < |created| ensures SlotOf(created[i]) != SlotOf(created[j]) {
      assert all[|rows| + i] == created[i] && all[|rows| + j] == created[j];
    }
  }

  /**
   * Even when rules 1 to 6 fail before trying anything, a user below 50
   * weekly XP with the DAILY_GOAL slot free gets the daily XP goal first.
   */
  lemma DailyXpGoalSurvivesFailure(rows: seq<RecommendationRow>, user: Uuid, stats: StatsRow, q: ProgressQueries,
                                   now: int, nextId: Uuid)
    requires stats.weeklyXp < 50 && !SlotTaken(rows, Slot(user, DailyGoal, None))
    ensures var created := Admit(rows, user, Candidates(stats, q, DayOf(now), Some(0)), now, nextId);
            created != [] && created[0].kind == DailyGoal && created[0].topic.None? && created[0].priority == Medium
  {
    assert Take(EarlyCandidates(stats, q, DayOf(now)), 0) == [];
    var cands := Candidates(stats, q, DayOf(now), Some(0));
    var xp := XpGoalRule(stats);
    assert cands == LateCandidates(stats, DayOf(now));
    assert cands[0] == xp[0];
  }

  /* ---------------- the service methods ---------------- */

  /** `createRecommendation` at time `now`: nothing when the slot is taken, else a new open row. */
  method CreateRecommendation(store: RecommendationStore, user: Uuid, c: Candidate, now: int)
    returns (created: Option<RecommendationRow>)
    requires store.Valid()
    modifies store`rows, store`nextId
    ensures store.Valid()
    ensures SlotTaken(old(store.rows), Slot(user, c.kind, c.topic)) ==>
              created.None? && store.rows == old(store.rows) && store.nextId == old(store.nextId)
    ensures !SlotTaken(old(store.rows), Slot(user, c.kind, c.topic)) ==>
              created == Some(NewRecommendation(old(store.nextId), user, c, now)) &&
              store.rows == old(store.rows) + [created.value] && store.nextId == old(store.nextId) + 1
  {
    if SlotTaken(store.rows, Slot(user, c.kind, c.topic)) {
      return None;
    }
    var rec := NewRecommendation(store.nextId, user, c, now);
    InsertKeepsValid(store.rows, store.nextId, rec);
    store.rows := store.rows + [rec];
    store.nextId := store.nextId + 1;
    return Some(rec);
  }

  /** The rule blocks' calls to `createRecommendation`, in order, keeping the rows created. */
  method CreateAll(store: RecommendationStore, user: Uuid, cands: seq<Candidate>, now: int)
    returns (newRecs: seq<RecommendationRow>)
    requires store.Valid()
    modifies store`rows, store`nextId
    ensures store.Valid()
    ensures newRecs == Admit(old(store.rows), user, cands, now, old(store.nextId))
    ensures store.rows == old(store.rows) + newRecs && store.nextId == old(store.nextId) + |newRecs|
  {
    ghost var goal := Admit(store.rows, user, cands, now, store.nextId);
    newRecs := [];
    for i := 0 to |cands|
      invariant store.Valid()
      invariant store.rows == old(store.rows) + newRecs && store.nextId == old(store.nextId) + |newRecs|
      invariant newRecs + Admit(store.rows, user, cands[i..], now, store.nextId) == goal
    {
      AdmitStep(store.rows, user, cands, i, now, store.nextId);
      var created := CreateRecommendation(store, user, cands[i], now);
      if created.Some? {
        newRecs := newRecs + [created.value];
      }
    }
  }

  /** Every candidate of the rules for the ledger `stats`, tried in rule order at time `now`. */
  method CreateFor(store: RecommendationStore, user: Uuid, stats: StatsRow, q: ProgressQueries, now: int, failedAt: Option<nat>)
    returns (newRecs: seq<RecommendationRow>)
    requires store.Valid()
    modifies store`rows, store`nextId
    ensures store.Valid()
    ensures newRecs == Admit(old(store.rows), user, Candidates(stats, q, DayOf(now), failedAt), now, old(store.nextId))
    ensures store.rows == old(store.rows) + newRecs && store.nextId == old(store.nextId) + |newRecs|
  {
    newRecs := CreateAll(store, user, Candidates(stats, q, DayOf(now), failedAt), now);
  }

  /**
   * `generateRecommendations` at time `now`: the user's ledger is loaded,
   * or created and saved, through the gamification service, whose error
   * for an unknown user ends the call with nothing created; then every
   * candidate is tried in rule order, and the result is exactly the rows
   * created by this call.
   */
  method GenerateRecommendations(gamification: GamificationServiceImpl.GamificationService, store: RecommendationStore,
                                 user: Uuid, q: ProgressQueries, now: int, failedAt: Option<nat>)
    returns (r: Result<seq<RecommendationRow>, string>)
    requires gamification.Valid() && store.Valid()
    modifies gamification.statsTable, store`rows, store`nextId
    ensures gamification.Valid() && store.Valid()
    ensures r.Err? <==> GamificationServices.Unknown(old(gamification.statsTable.rows), gamification.users, user)
    ensures r.Err? ==> r.error == "Utente non trovato" && gamification.statsTable.rows == old(gamification.statsTable.rows)
                       && store.rows == old(store.rows) && store.nextId == old(store.nextId)
    ensures r.Ok? ==>
              var stats := GamificationServices.Loaded(old(gamification.statsTable.rows), user);
              && r.value == Admit(old(store.rows), user, Candidates(stats, q, DayOf(now), failedAt), now, old(store.nextId))
              && store.rows == old(store.rows) + r.value && store.nextId == old(store.nextId) + |r.value|
              && gamification.statsTable.rows ==
                   if StatsRepository.FindByUserId(old(gamification.statsTable.rows), user).Some?
                   then old(gamification.statsTable.rows)
                   else StatsRepository.Upsert(old(gamification.statsTable.rows), FreshRow(user))
  {
    var loaded := gamification.GetOrCreateUserStats(user);
    if loaded.Err? {
      return Err(loaded.error);
    }
    var newRecs := CreateFor(store, user, loaded.value.Row(), q, now, failedAt);
    r := Ok(newRecs);
  }

  /** Replacing a row by one of the same slot and id keeps the store's invariant. */
  lemma ReplaceKeepsValid(rows: seq<RecommendationRow>, nextId: Uuid, k: nat, x: RecommendationRow)
    requires StoreValid(rows, nextId) && k < |rows| && SlotOf(x) == SlotOf(rows[k]) && x.id == rows[k].id
    ensures StoreValid(rows[k := x], nextId)
  {
    var s := rows[k := x];
    forall i, j | 0 <= i < j < |s| ensures SlotOf(s[i]) != SlotOf(s[j]) && IdOf(s[i]) != IdOf(s[j]) {
      assert SlotOf(s[i]) == SlotOf(rows[i]) && SlotOf(s[j]) == SlotOf(rows[j]);
      assert IdOf(s[i]) == IdOf(rows[i]) && IdOf(s[j]) == IdOf(rows[j]);
    }
  }

  /**
   * `dismissRecommendation` and `completeRecommendation` at time `now`: an
   * unknown id and another user's row are refused; otherwise only that
   * row's one flag and time stamp change.
   */
  method CloseRecommendation(store: RecommendationStore, recId: Uuid, userId: Uuid, now: int, dismiss: bool)
    returns (r: Result<(), string>)
    requires store.Valid()
    modifies store`rows
    ensures store.Valid()
    ensures var k := FindById(old(store.rows), recId);
            if k.None? then r == Err(NotFound) && store.rows == old(store.rows)
            else if old(store.rows)[k.value].userId != userId then r == Err(NotAuthorized) && store.rows == old(store.rows)
            else
              var rec := old(store.rows)[k.value];
              r.Ok? && store.rows == old(store.rows)[k.value := if dismiss then Dismissed(rec, now) else Completed(rec, now)]
  {
    var k := FindById(store.rows, recId);
    if k.None? {
      return Err(NotFound);
    }
    var rec := store.rows[k.value];
    if rec.userId != userId {
      return Err(NotAuthorized);
    }
    var closed := if dismiss then Dismissed(rec, now) else Completed(rec, now);
    ReplaceKeepsValid(store.rows, store.nextId, k.value, closed);
    store.rows := store.rows[k.value := closed];
    return Ok(());
  }

  /** After a dismissal or completion the row is no longer among the user's active ones, at any time. */
  lemma ClosedLeavesActiveList(rows: seq<RecommendationRow>, nextId: Uuid, k: nat, now: int, dismiss: bool, user: Uuid, later: int)
    requires StoreValid(rows, nextId) && k < |rows|
    ensures var closed := rows[k := if dismiss then Dismissed(rows[k], now) else Completed(rows[k], now)];
            forall x :: x in FindActiveByUserId(closed, user, later) ==> x.id != rows[k].id
  {
    var rec := rows[k];
    var c := if dismiss then Dismissed(rec, now) else Completed(rec, now);
    var closed := rows[k := c];
    ReplaceKeepsValid(rows, nextId, k, c);
    forall x | x in FindActiveByUserId(closed, user, later) ensures x.id != rec.id {
      var j :| 0 <= j < |closed| && closed[j] == x;
      if j == k {
        ClosedIsNeverActive(rec, now, later);
      } else {
        assert IdOf(closed[j]) != IdOf(closed[k]) || j > k;
        if j < k {
          assert IdOf(closed[j]) != IdOf(closed[k]);
        } else {
          assert IdOf(closed[k]) != IdOf(closed[j]);
        }
      }
    }
  }
}
