/**
 * The explanation service: the education level a request names is mapped
 * to the wording the prompt uses, the AI writes the explanation in the
 * user's language, and the explanation XP is recorded once. The AI is a
 * function of the request (topic, mapped level, language) that may fail.
 */
module ExplanationService {
  import opened Common
  import opened Text
  import opened Badges
  import opened UserStatsModel
  import opened StatsRepository
  import opened GamificationDto
  import opened Gamification
  import opened GamificationServices
  import opened GamificationServiceImpl

  const MiddleSchool: string := "scuola media"
  const HighSchool: string := "scuola superiore"
  const University: string := "università"
  const Expert: string := "esperto"
  const PreviewLanguage: string := "it"

  /** The lower-case spellings of each level. */
  const MiddleSchoolAliases: seq<string> := ["scuola_media", "scuolamedia", "media"]
  const HighSchoolAliases: seq<string> := ["scuola_superiore", "scuolasuperiore", "superiore"]
  const UniversityAliases: seq<string> := ["università", "universita", "uni"]
  const ExpertAliases: seq<string> := ["esperto", "expert", "avanzato"]

  predicate IsAlias(key: string) {
    key in MiddleSchoolAliases || key in HighSchoolAliases || key in UniversityAliases || key in ExpertAliases
  }

  /**
   * `mapLevel`: a missing level is the university one; an alias, in any
   * case, is its level's wording; anything else is passed on as written.
   */
  function MapLevel(level: Option<string>): (m: string)
    ensures level.None? ==> m == University
    ensures level.Some? && ToLower(level.value) in MiddleSchoolAliases ==> m == MiddleSchool
    ensures level.Some? && ToLower(level.value) in HighSchoolAliases ==> m == HighSchool
    ensures level.Some? && ToLower(level.value) in UniversityAliases ==> m == University
    ensures level.Some? && ToLower(level.value) in ExpertAliases ==> m == Expert
    ensures level.Some? && !IsAlias(ToLower(level.value)) ==> m == level.value
  {
    if level.None? then University
    else
      var key := ToLower(level.value);
      if key in MiddleSchoolAliases then MiddleSchool
      else if key in HighSchoolAliases then HighSchool
      else if key in UniversityAliases then University
      else if key in ExpertAliases then Expert
      else level.value
  }

  /** Spellings that differ only in the case of ASCII letters map alike. */
  lemma MapLevelIgnoresCase(a: string, b: string)
    requires ToLower(a) == ToLower(b)
    ensures MapLevel(Some(a)) == MapLevel(Some(b)) || (!IsAlias(ToLower(a)) && MapLevel(Some(a)) == a && MapLevel(Some(b)) == b)
  {
  }

  /** Each level's wording maps to itself: two hold a space no alias has, two are their own first alias. */
  lemma WordingsAreFixedPoints()
    ensures MapLevel(Some(MiddleSchool)) == MiddleSchool && MapLevel(Some(HighSchool)) == HighSchool
    ensures MapLevel(Some(University)) == University && MapLevel(Some(Expert)) == Expert
  {
    assert ToLower(MiddleSchool) == MiddleSchool && ToLower(HighSchool) == HighSchool;
    assert ToLower(University) == University && ToLower(Expert) == Expert;
    assert MiddleSchool !in MiddleSchoolAliases + HighSchoolAliases + UniversityAliases + ExpertAliases by {
      assert forall k :: k in MiddleSchoolAliases + HighSchoolAliases + UniversityAliases + ExpertAliases ==> |k| != 12 || k[6] != ' ';
    }
    assert HighSchool !in MiddleSchoolAliases + HighSchoolAliases + UniversityAliases + ExpertAliases by {
      assert forall k :: k in MiddleSchoolAliases + HighSchoolAliases + UniversityAliases + ExpertAliases ==> |k| != 16 || k[6] != ' ';
    }
    assert UniversityAliases[0] == University && ExpertAliases[0] == Expert;
  }

  /** Mapping a level twice is mapping it once. */
  lemma MapLevelIdempotent(level: Option<string>)
    ensures MapLevel(Some(MapLevel(level))) == MapLevel(level)
  {
    WordingsAreFixedPoints();
  }

  /** The explanation and the XP event it earned. */
  datatype ExplanationResponse = ExplanationResponse(
    topic: string, level: Option<string>, subject: Option<string>, explanation: string,
    xpEarned: int, totalXp: int, newLevel: int, leveledUp: bool, newBadges: seq<Badge>)

  /**
   * `generateExplanation` for a user with the given preferred language, on
   * day `today` at time `now`: the AI is asked with the mapped level; when
   * it fails nothing is recorded; otherwise the explanation XP is recorded
   * once and the response copies that event.
   */
  method GenerateExplanation(gamification: GamificationService, topic: string, level: Option<string>,
                             subject: Option<string>, user: Uuid, language: Option<string>,
                             ai: (string, string, Option<string>) -> Result<string, string>, today: int, now: int)
    returns (r: Result<ExplanationResponse, string>)
    requires gamification.Valid()
    modifies gamification.statsTable, gamification.badgeStore
    ensures gamification.Valid()
    ensures var answer := ai(topic, MapLevel(level), language);
            answer.Err? ==> r == Err(answer.error) && gamification.statsTable.rows == old(gamification.statsTable.rows)
                            && gamification.badgeStore.rows == old(gamification.badgeStore.rows)
    ensures var answer := ai(topic, MapLevel(level), language);
            answer.Ok? && Unknown(old(gamification.statsTable.rows), gamification.users, user) ==>
              r.Err? && gamification.statsTable.rows == old(gamification.statsTable.rows)
    ensures r.Ok? ==>
              var answer := ai(topic, MapLevel(level), language);
              var o := RecordEvent(CountExplanation(Loaded(old(gamification.statsTable.rows), user)), "EXPLANATION",
                                   XpExplanation, old(gamification.badgeStore.rows), user, gamification.catalog, today, now);
              answer.Ok? && !Unknown(old(gamification.statsTable.rows), gamification.users, user)
              && r.value == ExplanationResponse(topic, level, subject, answer.value, o.response.xpEarned,
                                                o.response.newTotalXp, o.response.newLevel, o.response.leveledUp,
                                                o.response.newBadges)
              && gamification.statsTable.rows == Upsert(old(gamification.statsTable.rows), o.row)
              && gamification.badgeStore.rows == o.records
  {
    var answer := ai(topic, MapLevel(level), language);
    if answer.Err? {
      return Err(answer.error);
    }
    var explanation := answer.value;
    var event := gamification.RecordExplanationXp(user, today, now);
    if event.Err? {
      return Err(event.error);
    }
    var e := event.value;
    r := Ok(ExplanationResponse(topic, level, subject, explanation, e.xpEarned, e.newTotalXp, e.newLevel,
                                e.leveledUp, e.newBadges));
  }

  /** `generateExplanationPreview`: the same request in Italian, and no XP. */
  function GenerateExplanationPreview(topic: string, level: Option<string>,
                                      ai: (string, string, Option<string>) -> Result<string, string>): Result<string, string>
  {
    ai(topic, MapLevel(level), Some(PreviewLanguage))
  }
}
