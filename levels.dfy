/**
 * The two level enums: the difficulty of quizzes, flashcards and topic
 * mastery (ordered, with saturating steps and a forgiving parser), and the
 * education level of a user (a strict parser).
 */
module Difficulty {
  import opened Common
  import opened Text

  datatype DifficultyLevel = Principiante | Intermedio | Avanzato

  /** The constant's name, as `valueOf` knows it. */
  function Name(d: DifficultyLevel): string {
    match d
    case Principiante => "PRINCIPIANTE"
    case Intermedio => "INTERMEDIO"
    case Avanzato => "AVANZATO"
  }

  /** The display name returned by `getLevel()`. */
  function DisplayName(d: DifficultyLevel): string {
    match d
    case Principiante => "Principiante"
    case Intermedio => "Intermedio"
    case Avanzato => "Avanzato"
  }

  /** `getOrder()`. */
  function Order(d: DifficultyLevel): int {
    match d
    case Principiante => 1
    case Intermedio => 2
    case Avanzato => 3
  }

  /** The constants in declaration order, as `values()` lists them. */
  const AllLevels: seq<DifficultyLevel> := [Principiante, Intermedio, Avanzato]

  /** `valueOf`: the constant with exactly that name, if any. */
  function ValueOf(s: string): (r: Option<DifficultyLevel>)
    ensures r.Some? ==> Name(r.value) == s
    ensures r.None? ==> forall d: DifficultyLevel :: Name(d) != s
  {
    if s == "PRINCIPIANTE" then Some(Principiante)
    else if s == "INTERMEDIO" then Some(Intermedio)
    else if s == "AVANZATO" then Some(Avanzato)
    else None
  }

  /** The first constant, in declaration order, whose display name equals `s` ignoring case. */
  function DisplayMatch(levels: seq<DifficultyLevel>, s: string): (r: Option<DifficultyLevel>)
    ensures r.Some? ==> r.value in levels && EqualsIgnoreCase(DisplayName(r.value), s)
    ensures r.None? ==> forall d :: d in levels ==> !EqualsIgnoreCase(DisplayName(d), s)
  {
    if levels == [] then None
    else if EqualsIgnoreCase(DisplayName(levels[0]), s) then Some(levels[0])
    else DisplayMatch(levels[1..], s)
  }

  /**
   * `fromString`: NULL or blank gives INTERMEDIO; otherwise the trimmed,
   * upper-cased input is looked up as a constant name, then the trimmed
   * input as a display name ignoring case; anything else gives INTERMEDIO.
   */
  function FromString(value: Option<string>): (r: DifficultyLevel)
    ensures value.None? || IsBlank(value.value) ==> r == Intermedio
  {
    if value.None? || IsBlank(value.value) then Intermedio
    else Lookup(Trim(value.value))
  }

  /** The lookup of a trimmed, non-blank input: by constant name, then by display name. */
  function Lookup(trimmed: string): DifficultyLevel {
    match ValueOf(ToUpper(trimmed))
    case Some(d) => d
    case None =>
      match DisplayMatch(AllLevels, trimmed)
      case Some(d) => d
      case None => Intermedio
  }

  /** An unpadded string whose upper-cased form is a constant's name parses as that constant. */
  lemma ParsesByName(s: string, d: DifficultyLevel)
    requires s != [] && !IsTrimmable(s[0]) && !IsTrimmable(s[|s| - 1]) && !IsWhitespace(s[0])
    requires ToUpper(s) == Name(d)
    ensures FromString(Some(s)) == d
  {
    TrimStartOfClean(s);
    TrimEndOfClean(s);
    assert Trim(s) == s;
  }

  /** Every constant parses back from its name and from its display name. */
  lemma FromStringRoundTrip(d: DifficultyLevel)
    ensures FromString(Some(Name(d))) == d
    ensures FromString(Some(DisplayName(d))) == d
  {
    match d
    case Principiante =>
      assert ToUpper("Principiante") == "PRINCIPIANTE";
      assert ToUpper("PRINCIPIANTE") == "PRINCIPIANTE";
      ParsesByName("Principiante", d);
      ParsesByName("PRINCIPIANTE", d);
    case Intermedio =>
      assert ToUpper("Intermedio") == "INTERMEDIO";
      assert ToUpper("INTERMEDIO") == "INTERMEDIO";
      ParsesByName("Intermedio", d);
      ParsesByName("INTERMEDIO", d);
    case Avanzato =>
      assert ToUpper("Avanzato") == "AVANZATO";
      assert ToUpper("AVANZATO") == "AVANZATO";
      ParsesByName("Avanzato", d);
      ParsesByName("AVANZATO", d);
  }

  /** A blank string is neither a constant name nor a display name. */
  lemma BlankMatchesNothing(t: string)
    requires IsBlank(t)
    ensures ValueOf(ToUpper(t)).None? && DisplayMatch(AllLevels, t).None?
  {
    if t != [] {
      assert ToUpper(t)[0] == t[0];
    }
    forall d | d in AllLevels ensures !EqualsIgnoreCase(DisplayName(d), t) {
      if |t| == |DisplayName(d)| {
        assert !CharEqualsIgnoreCase(DisplayName(d)[0], t[0]);
      }
    }
  }

  /** A blank input and its trimmed form both give INTERMEDIO. */
  lemma PaddingOfBlank(s: string)
    requires IsBlank(s)
    ensures FromString(Some(s)) == Intermedio == FromString(Some(Trim(s)))
  {
    TrimOfBlank(s);
  }

  /** An input that is blank only once trimmed gives INTERMEDIO, as its trimmed form does. */
  lemma PaddingAroundControls(s: string)
    requires !IsBlank(s) && IsBlank(Trim(s))
    ensures FromString(Some(s)) == Intermedio == FromString(Some(Trim(s)))
  {
    BlankMatchesNothing(Trim(s));
  }

  /** A non-blank input is looked up by its trimmed form. */
  lemma LooksUpTrimmed(s: string)
    requires !IsBlank(s)
    ensures FromString(Some(s)) == Lookup(Trim(s))
  {
  }

  /** Otherwise both are looked up by their common trimmed form. */
  lemma PaddingAroundWord(s: string)
    requires !IsBlank(s) && !IsBlank(Trim(s))
    ensures FromString(Some(s)) == FromString(Some(Trim(s)))
  {
    LooksUpTrimmed(s);
    LooksUpTrimmed(Trim(s));
    TrimIdempotent(s);
  }

  /** Surrounding padding never changes the parsed level. */
  lemma FromStringIgnoresPadding(s: string)
    ensures FromString(Some(s)) == FromString(Some(Trim(s)))
  {
    if IsBlank(s) {
      PaddingOfBlank(s);
    } else if IsBlank(Trim(s)) {
      PaddingAroundControls(s);
    } else {
      PaddingAroundWord(s);
    }
  }

  /** Lower case is accepted. */
  lemma LowerCaseAccepted()
    ensures FromString(Some("avanzato")) == Avanzato
  {
    assert ToUpper("avanzato") == "AVANZATO";
    ParsesByName("avanzato", Avanzato);
  }

  /** A word that is no level, such as "MEDIUM", gives INTERMEDIO. */
  lemma UnknownWordIsIntermedio()
    ensures FromString(Some("MEDIUM")) == Intermedio
  {
    var s := "MEDIUM";
    TrimStartOfClean(s);
    TrimEndOfClean(s);
    assert Trim(s) == s;
    assert ToUpper(s) == s;
    assert !EqualsIgnoreCase("Principiante", s);
    assert !EqualsIgnoreCase("Intermedio", s) by { assert !CharEqualsIgnoreCase('I', 'M'); }
    assert !EqualsIgnoreCase("Avanzato", s);
  }

  /** `isHarderThan`: strictly higher order. */
  predicate IsHarderThan(a: DifficultyLevel, b: DifficultyLevel) {
    Order(a) > Order(b)
  }

  /** The comparison is a strict total order on the three constants. */
  lemma HarderIsStrictOrder(a: DifficultyLevel, b: DifficultyLevel, c: DifficultyLevel)
    ensures !IsHarderThan(a, a)
    ensures IsHarderThan(a, b) && IsHarderThan(b, c) ==> IsHarderThan(a, c)
    ensures a != b ==> IsHarderThan(a, b) != IsHarderThan(b, a)
  {
  }

  /** `nextLevel`: one step harder, saturating at AVANZATO. */
  function NextLevel(d: DifficultyLevel): (r: DifficultyLevel)
    ensures d == Avanzato <==> r == d
    ensures d != Avanzato ==> Order(r) == Order(d) + 1
  {
    match d
    case Principiante => Intermedio
    case Intermedio => Avanzato
    case Avanzato => Avanzato
  }

  /** `previousLevel`: one step easier, saturating at PRINCIPIANTE. */
  function PreviousLevel(d: DifficultyLevel): (r: DifficultyLevel)
    ensures d == Principiante <==> r == d
    ensures d != Principiante ==> Order(r) == Order(d) - 1
  {
    match d
    case Principiante => Principiante
    case Intermedio => Principiante
    case Avanzato => Intermedio
  }

  /** Stepping up then down returns to the start everywhere below the top. */
  lemma StepsInverse(d: DifficultyLevel)
    ensures d != Avanzato ==> PreviousLevel(NextLevel(d)) == d
    ensures d != Principiante ==> NextLevel(PreviousLevel(d)) == d
    ensures !IsHarderThan(d, NextLevel(d)) && !IsHarderThan(PreviousLevel(d), d)
  {
  }

  /**
   * The constants' attributes: the orders are 1 to 3, order, name and display
   * name each tell the constants apart, and the name is the display name in
   * upper case.
   */
  lemma ConstantAttributes(d: DifficultyLevel, e: DifficultyLevel)
    ensures 1 <= Order(d) <= 3
    ensures Order(d) == Order(e) <==> d == e
    ensures Name(d) == Name(e) <==> d == e
    ensures DisplayName(d) == DisplayName(e) <==> d == e
    ensures ToUpper(DisplayName(d)) == Name(d)
  {
    assert ToUpper("Principiante") == "PRINCIPIANTE";
    assert ToUpper("Intermedio") == "INTERMEDIO";
    assert ToUpper("Avanzato") == "AVANZATO";
  }
}

module Education {
  import opened Common
  import opened Text

  datatype EducationLevel = MiddleSchool | HighSchool | University | Altro

  function Name(l: EducationLevel): string {
    match l
    case MiddleSchool => "MIDDLE_SCHOOL"
    case HighSchool => "HIGH_SCHOOL"
    case University => "UNIVERSITY"
    case Altro => "ALTRO"
  }

  function DisplayName(l: EducationLevel): string {
    match l
    case MiddleSchool => "Scuola Media"
    case HighSchool => "Scuola Superiore"
    case University => "Universit\U{00E0}"
    case Altro => "Altro"
  }

  const AllLevels: seq<EducationLevel> := [MiddleSchool, HighSchool, University, Altro]

  predicate Matches(l: EducationLevel, s: string) {
    EqualsIgnoreCase(Name(l), s) || EqualsIgnoreCase(DisplayName(l), s)
  }

  /** The first constant, in declaration order, matching `s`. */
  function FirstMatch(levels: seq<EducationLevel>, s: string): (r: Option<EducationLevel>)
    ensures r.Some? ==> r.value in levels && Matches(r.value, s)
    ensures r.None? ==> forall l :: l in levels ==> !Matches(l, s)
  {
    if levels == [] then None
    else if Matches(levels[0], s) then Some(levels[0])
    else FirstMatch(levels[1..], s)
  }

  /**
   * `fromString`: the constant whose name or display name equals the input
   * ignoring case (the input is not trimmed); NULL, blank or unmatched input
   * raises IllegalArgumentException, here `Err` with the message.
   */
  function FromString(value: Option<string>): (r: Result<EducationLevel, string>)
    ensures value.None? || IsBlank(value.value) ==> r.Err?
    ensures r.Ok? ==> Matches(r.value, value.value)
    ensures value.Some? && !IsBlank(value.value) ==>
              (r.Err? <==> forall l :: l in AllLevels ==> !Matches(l, value.value))
  {
    if value.None? || IsBlank(value.value) then
      Err("Il livello di educazione non pu\U{00F2} essere vuoto")
    else
      match FirstMatch(AllLevels, value.value)
      case Some(l) => Ok(l)
      case None => Err("Livello di educazione non valido: " + value.value)
  }

  /** The lengths of the two spellings already tell the constants apart. */
  lemma MatchLength(l: EducationLevel, s: string)
    requires Matches(l, s)
    ensures |s| == |Name(l)| || |s| == |DisplayName(l)|
    ensures l == MiddleSchool <==> |s| in {13, 12}
    ensures l == HighSchool <==> |s| in {11, 16}
    ensures l == University <==> |s| == 10
    ensures l == Altro <==> |s| == 5
  {
  }

  /** A non-blank input that exactly one constant matches parses as that constant. */
  lemma ParsesUniquely(s: string, l: EducationLevel)
    requires s != [] && !IsWhitespace(s[0])
    requires Matches(l, s)
    requires forall k :: Matches(k, s) ==> k == l
    ensures FromString(Some(s)) == Ok(l)
  {
    assert l in AllLevels;
  }

  /** Each constant parses back from its name and from its display name. */
  lemma FromStringRoundTrip(l: EducationLevel)
    ensures FromString(Some(Name(l))) == Ok(l)
    ensures FromString(Some(DisplayName(l))) == Ok(l)
  {
    forall k | Matches(k, Name(l)) ensures k == l {
      MatchLength(k, Name(l));
    }
    ParsesUniquely(Name(l), l);
    forall k | Matches(k, DisplayName(l)) ensures k == l {
      MatchLength(k, DisplayName(l));
    }
    ParsesUniquely(DisplayName(l), l);
  }

  /** The input is not trimmed, so padding makes a name unknown. */
  lemma PaddedInputRejected()
    ensures FromString(Some(" Altro ")).Err?
  {
    var s := " Altro ";
    assert !IsWhitespace(s[1]);
    forall l | Matches(l, s) ensures false {
      MatchLength(l, s);
    }
  }

  /** Case does not matter, accented letters included. */
  lemma AccentsIgnoreCase()
    ensures FromString(Some("UNIVERSIT\U{00C0}")) == Ok(University)
  {
    var s := "UNIVERSIT\U{00C0}";
    assert !IsWhitespace(s[0]);
    assert Matches(University, s) by {
      assert forall i :: 0 <= i < 10 ==> CharEqualsIgnoreCase(DisplayName(University)[i], s[i]);
    }
    forall k | Matches(k, s) ensures k == University {
      MatchLength(k, s);
    }
    ParsesUniquely(s, University);
  }
}
