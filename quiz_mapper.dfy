/**
 * `QuizMapper`: builds a new quiz from a generation request, and one
 * `Question` from one question object of the AI's JSON reply. The reply
 * may name the correct answer by letter, by the text of an option, or as
 * "B) ..."; the stored correct answer is always one of the letters A to D.
 */
module QuizMapper {
  import opened Common
  import opened Text
  import opened Difficulty
  import opened Quizzes

  /** A member of a JSON object: missing, JSON `null`, or a value as `getAsString` reads it. */
  datatype JsonValue = Missing | JsonNull | Value(text: string)

  /** One question object of the reply; `options` is present when the member is an array. */
  datatype QuestionJson = QuestionJson(
    question: JsonValue, options: Option<seq<string>>, correct: JsonValue, explanation: JsonValue)

  /** `getJsonString`: the member's text, or "" when it is missing or `null`. */
  function JsonString(v: JsonValue): string {
    if v.Value? then v.text else ""
  }

  /** The letters a stored correct answer may be. */
  const Letters: set<string> := {"A", "B", "C", "D"}

  predicate IsLetterChar(c: char) {
    c == 'A' || c == 'B' || c == 'C' || c == 'D'
  }

  /** `upper.length() == 1 && "ABCD".contains(upper)`. */
  predicate IsSingleLetter(s: string) {
    |s| == 1 && IsLetterChar(s[0])
  }

  /** The characters `.` does not match in a Java regular expression. */
  predicate IsLineTerminator(c: char) {
    c == '\n' || c == '\r' || c == '\U{0085}' || c == '\U{2028}' || c == '\U{2029}'
  }

  /** `s.matches("^[ABCD][).:].*")`: a letter, a closing mark, and one line of anything. */
  predicate IsLabelled(s: string) {
    |s| >= 2 && IsLetterChar(s[0]) && (s[1] == ')' || s[1] == '.' || s[1] == ':')
    && forall i :: 2 <= i < |s| ==> !IsLineTerminator(s[i])
  }

  /** `text.equalsIgnoreCase(option)`, which is false for a NULL option. */
  predicate MatchesOption(text: string, option: Option<string>) {
    option.Some? && EqualsIgnoreCase(text, option.value)
  }

  /**
   * `extractLetterAnswer`: "A" for an empty answer; a single letter as it
   * is, upper-cased; otherwise the first option whose text it equals
   * ignoring case; otherwise the letter of a "B) ..." label; otherwise "A".
   */
  function ExtractLetterAnswer(raw: string, q: QuestionRow): (letter: string)
    ensures letter in Letters
    ensures raw == [] ==> letter == "A"
  {
    if raw == [] then "A"
    else LetterOf(Trim(raw), q.optionA, q.optionB, q.optionC, q.optionD)
  }

  /** The steps of `extractLetterAnswer` after the empty check, on the trimmed answer and the four options. */
  function LetterOf(text: string, a: Option<string>, b: Option<string>, c: Option<string>, d: Option<string>): (letter: string)
    ensures letter in Letters
  {
    var upper := ToUpper(text);
    if IsSingleLetter(upper) then
      assert upper == [upper[0]];
      upper
    else if MatchesOption(text, a) then "A"
    else if MatchesOption(text, b) then "B"
    else if MatchesOption(text, c) then "C"
    else if MatchesOption(text, d) then "D"
    else if IsLabelled(upper) then
      assert upper[..1] == [upper[0]];
      upper[..1]
    else "A"
  }

  /** The option each letter names. */
  lemma OptionForLetters(q: QuestionRow)
    ensures OptionFor(q, "A") == q.optionA && OptionFor(q, "B") == q.optionB
    ensures OptionFor(q, "C") == q.optionC && OptionFor(q, "D") == q.optionD
  {
    assert ToUpper("A") == "A" && ToUpper("B") == "B" && ToUpper("C") == "C" && ToUpper("D") == "D";
  }

  /** An answer that is one letter, in either case and with any padding, becomes that letter upper-cased. */
  lemma SingleLetterKept(raw: string, q: QuestionRow)
    requires IsSingleLetter(ToUpper(Trim(raw)))
    ensures ExtractLetterAnswer(raw, q) == ToUpper(Trim(raw))
  {
  }

  /** A stored letter maps to itself, whatever the options are. */
  lemma LetterIsFixed(letter: string, q: QuestionRow)
    requires letter in Letters
    ensures ExtractLetterAnswer(letter, q) == letter
  {
    assert |letter| == 1 && IsLetterChar(letter[0]);
    TrimStartOfClean(letter);
    TrimEndOfClean(letter);
    assert ToUpper(letter) == letter;
  }

  /** Extracting the letter from an extracted letter changes nothing. */
  lemma ExtractIdempotent(raw: string, q: QuestionRow, q': QuestionRow)
    ensures ExtractLetterAnswer(ExtractLetterAnswer(raw, q), q') == ExtractLetterAnswer(raw, q)
  {
    LetterIsFixed(ExtractLetterAnswer(raw, q), q');
  }

  /**
   * An answer that is not a letter but equals the text of an option names
   * an option it equals, and no later letter than the first such option.
   */
  lemma MatchedTextGivesOption(raw: string, q: QuestionRow, letter: string)
    requires raw != [] && !IsSingleLetter(ToUpper(Trim(raw)))
    requires letter in Letters && MatchesOption(Trim(raw), OptionFor(q, letter))
    ensures var r := ExtractLetterAnswer(raw, q);
            MatchesOption(Trim(raw), OptionFor(q, r)) && r[0] <= letter[0]
  {
    OptionForLetters(q);
  }

  /** An answer labelled "C) ..." that no option equals gives the label's letter. */
  lemma LabelGivesLetter(raw: string, q: QuestionRow)
    requires raw != [] && IsLabelled(ToUpper(Trim(raw)))
    requires forall l :: l in Letters ==> !MatchesOption(Trim(raw), OptionFor(q, l))
    ensures ExtractLetterAnswer(raw, q) == [ToUpper(Trim(raw))[0]]
  {
    OptionForLetters(q);
    var upper := ToUpper(Trim(raw));
    assert !MatchesOption(Trim(raw), OptionFor(q, "A"));
    assert !MatchesOption(Trim(raw), OptionFor(q, "B"));
    assert !MatchesOption(Trim(raw), OptionFor(q, "C"));
    assert !MatchesOption(Trim(raw), OptionFor(q, "D"));
    assert upper[..1] == [upper[0]];
  }

  /** The letter depends on the question only through its four options. */
  lemma ExtractReadsOnlyOptions(raw: string, q: QuestionRow, q': QuestionRow)
    requires q.optionA == q'.optionA && q.optionB == q'.optionB
    requires q.optionC == q'.optionC && q.optionD == q'.optionD
    ensures ExtractLetterAnswer(raw, q) == ExtractLetterAnswer(raw, q')
  {
  }

  /** A new `Question`: every field NULL. */
  const BlankQuestion := QuestionRow(None, None, None, None, None, None, None, None, None, None, None)

  /** The options, when the array has at least four entries; otherwise they stay NULL. */
  function WithOptions(q: QuestionRow, options: Option<seq<string>>): (r: QuestionRow)
    ensures options.Some? && |options.value| >= 4 ==>
              r == q.(optionA := Some(options.value[0]), optionB := Some(options.value[1]),
                      optionC := Some(options.value[2]), optionD := Some(options.value[3]))
    ensures !(options.Some? && |options.value| >= 4) ==> r == q
  {
    if options.Some? && |options.value| >= 4 then
      var o := options.value;
      q.(optionA := Some(o[0]), optionB := Some(o[1]), optionC := Some(o[2]), optionD := Some(o[3]))
    else q
  }

  /** `toQuestionEntity` on the fields: order, text, options, the extracted letter and the explanation. */
  function QuestionFields(json: QuestionJson, order: int): (q: QuestionRow)
    ensures q.id.None? && q.userAnswer.None? && q.isCorrect.None? && !IsAnswered(q)
    ensures q.questionOrder == Some(order)
    ensures q.questionText == Some(JsonString(json.question))
    ensures json.options.Some? && |json.options.value| >= 4 ==>
              q.optionA == Some(json.options.value[0]) && q.optionB == Some(json.options.value[1])
              && q.optionC == Some(json.options.value[2]) && q.optionD == Some(json.options.value[3])
    ensures !(json.options.Some? && |json.options.value| >= 4) ==>
              q.optionA.None? && q.optionB.None? && q.optionC.None? && q.optionD.None?
    ensures q.correctAnswer == Some(ExtractLetterAnswer(JsonString(json.correct), q))
    ensures q.correctAnswer.value in Letters
    ensures q.explanation.None? <==> json.explanation.Missing?
    ensures !json.explanation.Missing? ==> q.explanation == Some(JsonString(json.explanation))
  {
    var base := WithOptions(BlankQuestion.(questionOrder := Some(order),
                                           questionText := Some(JsonString(json.question))), json.options);
    var letter := ExtractLetterAnswer(JsonString(json.correct), base);
    var withLetter := base.(correctAnswer := Some(letter));
    ExtractReadsOnlyOptions(JsonString(json.correct), base, withLetter);
    ExtractReadsOnlyOptions(JsonString(json.correct), base,
                            withLetter.(explanation := Some(JsonString(json.explanation))));
    if json.explanation.Missing? then withLetter
    else withLetter.(explanation := Some(JsonString(json.explanation)))
  }

  /** With four options the stored letter always names one of them, so `getCorrectOptionText` never fails. */
  lemma MappedQuestionNamesAnOption(json: QuestionJson, order: int)
    requires json.options.Some? && |json.options.value| >= 4
    ensures var q := QuestionFields(json, order);
            exists i :: 0 <= i < 4 && CorrectOptionText(q) == Ok(Some(json.options.value[i]))
  {
    var q := QuestionFields(json, order);
    var o := json.options.value;
    OptionForLetters(q);
    var l := q.correctAnswer.value;
    if l == "A" { assert CorrectOptionText(q) == Ok(Some(o[0])); }
    else if l == "B" { assert CorrectOptionText(q) == Ok(Some(o[1])); }
    else if l == "C" { assert CorrectOptionText(q) == Ok(Some(o[2])); }
    else { assert CorrectOptionText(q) == Ok(Some(o[3])); }
  }

  /** `toEntity`: a new AI-generated quiz titled "Quiz: " and the topic, with no questions yet. */
  datatype GenerateRequest = GenerateRequest(
    topic: string, subject: Option<string>, numberOfQuestions: Option<int>,
    difficultyLevel: Option<DifficultyLevel>, language: Option<string>)

  method ToEntity(request: GenerateRequest, user: Uuid) returns (quiz: Quiz)
    ensures fresh(quiz) && quiz.questions == []
    ensures quiz.Row() == QuizRow(None, user, Some("Quiz: " + request.topic), Some(request.topic),
                                  request.subject, request.difficultyLevel, request.numberOfQuestions,
                                  Some(false), Some(true), None, None, None, None, None, None)
  {
    quiz := new Quiz(user);
    quiz.title := Some("Quiz: " + request.topic);
    quiz.topic := Some(request.topic);
    quiz.subject := request.subject;
    quiz.difficultyLevel := request.difficultyLevel;
    quiz.numberOfQuestions := request.numberOfQuestions;
    quiz.isAiGenerated := Some(true);
  }

  /** `toQuestionEntity`: a new question holding the mapped fields. */
  method ToQuestionEntity(json: QuestionJson, order: int) returns (question: Question)
    ensures fresh(question)
    ensures question.Row() == QuestionFields(json, order)
  {
    question := new Question.Load(QuestionFields(json, order));
  }

  /** One entry of a quiz result: the question, both letters, the verdict and the explanation. */
  datatype QuestionResult = QuestionResult(
    questionId: Option<Uuid>, questionText: Option<string>, userAnswer: Option<string>,
    correctAnswer: Option<string>, correct: bool, explanation: Option<string>)

  /** `toQuestionResult`: its body is commented out and it returns `null` for every question. */
  function ToQuestionResult(q: QuestionRow): (r: Option<QuestionResult>)
    ensures r.None?
  {
    None
  }

  /** `toQuestionResults`: one `null` per question. */
  function ToQuestionResults(rows: seq<QuestionRow>): (rs: seq<Option<QuestionResult>>)
    ensures |rs| == |rows| && forall k :: 0 <= k < |rs| ==> rs[k].None?
  {
    seq(|rows|, k requires 0 <= k < |rows| => ToQuestionResult(rows[k]))
  }
}
