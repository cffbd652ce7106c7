/**
 * The user service: registration with its language default and
 * validation, profile updates, and the legacy points, level and streak
 * counters kept on the user row (separate from the gamification ledger).
 * The repository lookup by id or by principal is replaced by the user it
 * would return; the set of registered e-mails stands for `existsByEmail`,
 * and the password encoder's output is an input.
 */
module Users {
  import opened Common
  import opened Text
  import opened Education

  /** `DEFAULT_LANGUAGE`. */
  const DefaultLanguage := "it"
  /** `SUPPORTED_LANGUAGES`, in list order. */
  const SupportedLanguages := ["it", "en", "es", "fr", "de", "pt", "ru"]

  const EmailExists := "CONFLICT: EMAIL_EXISTS"
  const NullPointer := "NullPointerException"
  const UnsupportedLanguages := "BAD_REQUEST: Lingua non supportata. Supportate: [it, en, es, fr, de, pt, ru]"

  /** The message for an unsupported language at registration. */
  function UnsupportedLanguage(language: string): string {
    "BAD_REQUEST: Lingua non supportata: " + language
  }

  /** No supported code is blank. */
  lemma SupportedNotBlank(l: string)
    requires l in SupportedLanguages
    ensures !IsBlank(l)
  {
    assert l[0] != ' ' && !IsWhitespace(l[0]);
  }

  /**
   * The language stored at registration: a non-blank requested language,
   * else "it"; a requested language that is not a supported code is
   * rejected, and so is a blank one, which is never defaulted.
   */
  function RegistrationLanguage(preferred: Option<string>): (r: Result<string, string>)
    ensures preferred.None? ==> r == Ok(DefaultLanguage)
    ensures preferred.Some? ==> (r.Ok? <==> preferred.value in SupportedLanguages)
    ensures preferred.Some? && r.Ok? ==> r.value == preferred.value
    ensures preferred.Some? && r.Err? ==> r.error == UnsupportedLanguage(preferred.value)
    ensures r.Ok? ==> r.value in SupportedLanguages
  {
    var language := if preferred.Some? && !IsBlank(preferred.value) then preferred.value else DefaultLanguage;
    if preferred.Some? && preferred.value !in SupportedLanguages then
      Err(UnsupportedLanguage(preferred.value))
    else
      (if preferred.Some? then SupportedNotBlank(preferred.value); Ok(language)
       else Ok(language))
  }

  /** A blank requested language is rejected rather than replaced by the default. */
  lemma BlankLanguageRejected(preferred: string)
    requires IsBlank(preferred)
    ensures RegistrationLanguage(Some(preferred)) == Err(UnsupportedLanguage(preferred))
  {
    if preferred in SupportedLanguages {
      SupportedNotBlank(preferred);
    }
  }

  /** The legacy level rule: `totalPoints / 100 + 1`, with Java's division. */
  function LegacyLevel(totalPoints: int): int {
    JavaDiv(totalPoints, 100) + 1
  }

  /** For a non-negative total the legacy level is the hundred the total falls in, counted from 1. */
  lemma LegacyLevelBand(totalPoints: int)
    requires totalPoints >= 0
    ensures var level := LegacyLevel(totalPoints);
            level >= 1 && (level - 1) * 100 <= totalPoints < level * 100
  {
  }

  /** More points never give a lower legacy level. */
  lemma LegacyLevelMonotone(a: int, b: int)
    requires 0 <= a <= b
    ensures LegacyLevel(a) <= LegacyLevel(b)
  {
    LegacyLevelBand(a);
    LegacyLevelBand(b);
  }

  class User {
    var id: Option<Uuid>
    var firstName: Option<string>
    var lastName: Option<string>
    var email: Option<string>
    var passwordHash: Option<string>
    var educationLevel: Option<EducationLevel>
    var avatarUrl: Option<string>
    var preferredLanguage: Option<string>
    var totalPoints: Option<int>
    var level: Option<int>
    var streakDays: Option<int>
    var createdAt: Option<int>
    var updatedAt: Option<int>

    /** `new User()`: the column defaults. */
    constructor ()
      ensures id.None? && firstName.None? && lastName.None? && email.None? && passwordHash.None?
      ensures educationLevel.None? && avatarUrl.None? && preferredLanguage == Some(DefaultLanguage)
      ensures totalPoints == Some(0) && level == Some(1) && streakDays == Some(0)
      ensures createdAt.None? && updatedAt.None?
    {
      id, firstName, lastName, email, passwordHash := None, None, None, None, None;
      educationLevel, avatarUrl, preferredLanguage := None, None, Some(DefaultLanguage);
      totalPoints, level, streakDays, createdAt, updatedAt := Some(0), Some(1), Some(0), None, None;
    }

    /**
     * The row `registerUser` fills in once its checks pass: the given
     * fields, the education level only when given, level 1, no points and
     * no streak.
     */
    constructor Registered(first: Option<string>, last: Option<string>, mail: string, hash: string,
                           education: Option<EducationLevel>, language: string, now: int)
      ensures firstName == first && lastName == last && email == Some(mail) && passwordHash == Some(hash)
      ensures educationLevel == education && preferredLanguage == Some(language)
      ensures avatarUrl.None? && id.None?
      ensures level == Some(1) && totalPoints == Some(0) && streakDays == Some(0)
      ensures createdAt == Some(now) && updatedAt == Some(now)
    {
      id, firstName, lastName, email, passwordHash := None, first, last, Some(mail), Some(hash);
      educationLevel, avatarUrl, preferredLanguage := education, None, Some(language);
      totalPoints, level, streakDays, createdAt, updatedAt := Some(0), Some(1), Some(0), Some(now), Some(now);
    }
  }

  /**
   * `registerUser` at time `now`: an e-mail already registered is a
   * conflict before anything is built; then the language is chosen and
   * validated; a new user starts at level 1 with no points and no streak.
   */
  method RegisterUser(firstName: Option<string>, lastName: Option<string>, email: string,
                      encodedPassword: string, educationLevel: Option<EducationLevel>,
                      preferredLanguage: Option<string>, registered: set<string>, now: int)
    returns (r: Result<User, string>)
    ensures email in registered ==> r == Err(EmailExists)
    ensures email !in registered ==> (r.Ok? <==> RegistrationLanguage(preferredLanguage).Ok?)
    ensures email !in registered && r.Err? ==> r == Err(RegistrationLanguage(preferredLanguage).error)
    ensures r.Ok? ==> var u := r.value;
              fresh(u) && u.firstName == firstName && u.lastName == lastName && u.email == Some(email) &&
              u.passwordHash == Some(encodedPassword) && u.educationLevel == educationLevel &&
              u.preferredLanguage == Some(RegistrationLanguage(preferredLanguage).value) &&
              u.level == Some(1) && u.totalPoints == Some(0) && u.streakDays == Some(0) &&
              u.createdAt == Some(now) && u.updatedAt == Some(now) && u.avatarUrl.None?
  {
    if email in registered {
      return Err(EmailExists);
    }
    // The source builds the user before validating the language; nothing is
    // stored when the validation throws, so the order does not show.
    var language := RegistrationLanguage(preferredLanguage);
    if language.Err? {
      return Err(language.error);
    }
    var user := new User.Registered(firstName, lastName, email, encodedPassword, educationLevel, language.value, now);
    return Ok(user);
  }

  /** `updateProfile` at time `now`: names change only when not blank, the avatar only when given. */
  method UpdateProfile(user: User, firstName: Option<string>, lastName: Option<string>,
                       avatarUrl: Option<string>, now: int)
    modifies user`firstName, user`lastName, user`avatarUrl, user`updatedAt
    ensures user.firstName == if firstName.Some? && !IsBlank(firstName.value) then firstName else old(user.firstName)
    ensures user.lastName == if lastName.Some? && !IsBlank(lastName.value) then lastName else old(user.lastName)
    ensures user.avatarUrl == if avatarUrl.Some? then avatarUrl else old(user.avatarUrl)
    ensures user.updatedAt == Some(now)
  {
    if firstName.Some? && !IsBlank(firstName.value) {
      user.firstName := firstName;
    }
    if lastName.Some? && !IsBlank(lastName.value) {
      user.lastName := lastName;
    }
    if avatarUrl.Some? {
      user.avatarUrl := avatarUrl;
    }
    user.updatedAt := Some(now);
  }

  /** `addPoints` at time `now`: add to the total, then set the legacy level from it; a NULL total throws. */
  method AddPoints(user: User, points: int, now: int) returns (r: Result<(), string>)
    modifies user`totalPoints, user`level, user`updatedAt
    ensures r.Ok? <==> old(user.totalPoints).Some?
    ensures r.Ok? ==> user.totalPoints == Some(old(user.totalPoints).value + points) &&
                      user.level == Some(LegacyLevel(user.totalPoints.value)) && user.updatedAt == Some(now)
    ensures r.Err? ==> r.error == NullPointer && user.totalPoints == old(user.totalPoints) &&
                       user.level == old(user.level) && user.updatedAt == old(user.updatedAt)
  {
    if user.totalPoints.None? {
      return Err(NullPointer);
    }
    user.totalPoints := Some(user.totalPoints.value + points);
    var newLevel := JavaDiv(user.totalPoints.value, 100) + 1;
    user.level := Some(newLevel);
    user.updatedAt := Some(now);
    return Ok(());
  }

  /** `updateStreak` at time `now`: one more streak day; a NULL count throws. */
  method UpdateStreak(user: User, now: int) returns (r: Result<(), string>)
    modifies user`streakDays, user`updatedAt
    ensures r.Ok? <==> old(user.streakDays).Some?
    ensures r.Ok? ==> user.streakDays == Some(old(user.streakDays).value + 1) && user.updatedAt == Some(now)
    ensures r.Err? ==> r.error == NullPointer && user.streakDays == old(user.streakDays) && user.updatedAt == old(user.updatedAt)
  {
    if user.streakDays.None? {
      return Err(NullPointer);
    }
    user.streakDays := Some(user.streakDays.value + 1);
    user.updatedAt := Some(now);
    return Ok(());
  }

  /** `resetStreak` at time `now`. */
  method ResetStreak(user: User, now: int)
    modifies user`streakDays, user`updatedAt
    ensures user.streakDays == Some(0) && user.updatedAt == Some(now)
  {
    user.streakDays := Some(0);
    user.updatedAt := Some(now);
  }

  /** `updatePreferredLanguage` at time `now`: only a supported code, compared exactly, is stored. */
  method UpdatePreferredLanguage(user: User, language: Option<string>, now: int) returns (r: Result<User, string>)
    modifies user`preferredLanguage, user`updatedAt
    ensures r.Ok? <==> language.Some? && language.value in SupportedLanguages
    ensures r.Ok? ==> r.value == user && user.preferredLanguage == language && user.updatedAt == Some(now)
    ensures r.Err? ==> r.error == UnsupportedLanguages && user.preferredLanguage == old(user.preferredLanguage)
                       && user.updatedAt == old(user.updatedAt)
  {
    if language.None? || language.value !in SupportedLanguages {
      return Err(UnsupportedLanguages);
    }
    user.preferredLanguage := language;
    user.updatedAt := Some(now);
    return Ok(user);
  }

  /** Language codes are compared exactly: an upper-case code is not supported. */
  lemma LanguageCodesAreCaseSensitive()
    ensures "EN" !in SupportedLanguages && "en" in SupportedLanguages
  {
    assert SupportedLanguages[1] == "en";
  }
}
