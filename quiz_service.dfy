/**
 * `QuizServiceImpl`: generating a quiz from the AI's parsed reply,
 * starting it, submitting answers, building the result, retrying, and the
 * feedback line for a percentage. A quiz is found by its id and its owner;
 * a quiz of another user is `ResourceNotFoundException`.
 */
module QuizService {
  import opened Common
  import opened Text
  import opened Quizzes
  import opened QuizMapper

  const QuizNotFound := "ResourceNotFoundException: Quiz not found with id"

  /** `QuizResultResponse`, without the gamification fields the controller fills in later. */
  datatype QuizResultResponse = QuizResultResponse(
    quizId: Option<Uuid>, topic: Option<string>, subject: Option<string>,
    score: int, totalQuestions: int, scorePercentage: real, passed: bool,
    questionResults: seq<QuestionResult>)

  /* ---------------- building the result ---------------- */

  /** The entry of one question: the verdict is `Boolean.TRUE.equals(isCorrect)`. */
  function ResultOf(q: QuestionRow): (r: QuestionResult)
    ensures r.correct <==> q.isCorrect == Some(true)
    ensures r.questionId == q.id && r.userAnswer == q.userAnswer && r.correctAnswer == q.correctAnswer
  {
    QuestionResult(q.id, q.questionText, q.userAnswer, q.correctAnswer,
                   q.isCorrect == Some(true), q.explanation)
  }

  /** The percentage of the response: the stored score over the stored question count, 0 for no count. */
  function ResponsePercentage(score: int, numberOfQuestions: Option<int>): real
  {
    if numberOfQuestions.Some? && numberOfQuestions.value > 0 then
      Percent(score, numberOfQuestions.value)
    else 0.0
  }

  /** `buildQuizResultResponse` on the quiz's fields and its questions' fields. */
  function ResponseOf(quiz: QuizRow, rows: seq<QuestionRow>): (r: QuizResultResponse)
    ensures r.score == quiz.score.GetOr(0) && r.totalQuestions == quiz.numberOfQuestions.GetOr(0)
    ensures r.scorePercentage == ResponsePercentage(r.score, quiz.numberOfQuestions)
    ensures r.passed <==> r.scorePercentage >= 60.0
    ensures |r.questionResults| == |rows|
    ensures forall k :: 0 <= k < |rows| ==> r.questionResults[k] == ResultOf(rows[k])
  {
    var score := quiz.score.GetOr(0);
    var percentage := ResponsePercentage(score, quiz.numberOfQuestions);
    QuizResultResponse(quiz.id, quiz.topic, quiz.subject, score, quiz.numberOfQuestions.GetOr(0),
                       percentage, percentage >= 60.0,
                       seq(|rows|, k requires 0 <= k < |rows| => ResultOf(rows[k])))
  }

  /** The entries marked correct. */
  function CorrectResults(rs: seq<QuestionResult>): (n: nat)
    ensures n <= |rs|
  {
    if rs == [] then 0 else (if rs[0].correct then 1 else 0) + CorrectResults(rs[1..])
  }

  /** The entries marked correct are exactly the questions counted as correct. */
  lemma {:induction false} CorrectResultsCount(rows: seq<QuestionRow>, rs: seq<QuestionResult>)
    requires |rs| == |rows| && forall k :: 0 <= k < |rows| ==> rs[k] == ResultOf(rows[k])
    ensures CorrectResults(rs) == CorrectCount(rows)
  {
    if rows != [] {
      assert forall k :: 0 <= k < |rows| - 1 ==> rs[1..][k] == ResultOf(rows[1..][k]);
      CorrectResultsCount(rows[1..], rs[1..]);
    }
  }

  /**
   * For a quiz scored over its own questions (the stored count equals the
   * list length), the response reports the correct questions, the same
   * number of entries marked correct, and passes at three fifths.
   */
  lemma ResponseOfScoredQuiz(quiz: QuizRow, rows: seq<QuestionRow>, now: int)
    requires quiz.numberOfQuestions == Some(|rows|) && rows != []
    ensures var r := ResponseOf(Completed(quiz, rows, now), rows);
            r.score == CorrectCount(rows) == CorrectResults(r.questionResults)
            && r.totalQuestions == |rows|
            && 0.0 <= r.scorePercentage <= 100.0
            && (r.passed <==> 5 * CorrectCount(rows) >= 3 * |rows|)
            && (r.passed <==> IsPassed(Completed(quiz, rows, now)))
  {
    var r := ResponseOf(Completed(quiz, rows, now), rows);
    CorrectResultsCount(rows, r.questionResults);
    PercentBounds(CorrectCount(rows), |rows|);
    PassMark(rows);
  }

  /** `buildQuizResultResponse`: the header from the quiz, then one entry per question in list order. */
  method BuildQuizResultResponse(quiz: Quiz) returns (r: QuizResultResponse)
    ensures r == ResponseOf(quiz.Row(), quiz.Rows())
  {
    var score := quiz.score.GetOr(0);
    var total := quiz.numberOfQuestions.GetOr(0);
    var percentage := 0.0;
    if quiz.numberOfQuestions.Some? && quiz.numberOfQuestions.value > 0 {
      percentage := Percent(score, total);
    }
    var results: seq<QuestionResult> := [];
    for i := 0 to |quiz.questions|
      invariant |results| == i
      invariant forall k :: 0 <= k < i ==> results[k] == ResultOf(quiz.questions[k].Row())
    {
      var q := quiz.questions[i];
      results := results + [QuestionResult(q.id, q.questionText, q.userAnswer, q.correctAnswer,
                                           q.isCorrect == Some(true), q.explanation)];
    }
    r := QuizResultResponse(quiz.id, quiz.topic, quiz.subject, score, total, percentage,
                            percentage >= 60.0, results);
  }

  /* ---------------- submitting answers ---------------- */

  /**
   * One turn of the submission loop: a question whose id has an answer gets
   * `setUserAnswer(answer)` and then `checkAnswer(answer)`; any other
   * question is left alone.
   */
  function Submitted(q: QuestionRow, answers: map<Uuid, string>): (r: QuestionRow)
    ensures !(q.id.Some? && q.id.value in answers) ==> r == q
    ensures q.id.Some? && q.id.value in answers && q.correctAnswer.None? ==>
              r == q.(userAnswer := Some(answers[q.id.value]))
    ensures q.id.Some? && q.id.value in answers && q.correctAnswer.Some? ==>
              r == q.(userAnswer := Some(Normalize(answers[q.id.value])),
                      isCorrect := Some(Normalize(answers[q.id.value]) == Normalize(q.correctAnswer.value)))
  {
    if q.id.Some? && q.id.value in answers then
      var answer := answers[q.id.value];
      AnswerChecked(q.(userAnswer := Some(answer)), Some(answer)).row
    else q
  }

  /** Submitting the same answers to a question twice is submitting them once. */
  lemma SubmittedIdempotent(q: QuestionRow, answers: map<Uuid, string>)
    ensures Submitted(Submitted(q, answers), answers) == Submitted(q, answers)
  {
    if q.id.Some? && q.id.value in answers && q.correctAnswer.Some? {
      NormalizeIdempotent(answers[q.id.value]);
    }
  }

  /** A submission changes a question's answer and verdict and nothing else. */
  lemma SubmittedKeepsQuestion(q: QuestionRow, answers: map<Uuid, string>)
    ensures Submitted(q, answers).(userAnswer := q.userAnswer, isCorrect := q.isCorrect) == q
  {
  }

  /** The verdict of an answered question with a correct letter is whether the answer names that letter. */
  lemma SubmittedVerdict(q: QuestionRow, answers: map<Uuid, string>)
    requires q.id.Some? && q.id.value in answers && q.correctAnswer.Some?
    ensures Submitted(q, answers).isCorrect == Some(true)
            <==> Normalize(answers[q.id.value]) == Normalize(q.correctAnswer.value)
  {
  }

  /** The owner check of `findQuizByIdAndUser`. */
  predicate OwnedBy(quiz: Quiz, userId: Uuid)
    reads quiz
  {
    quiz.user == userId
  }

  /** The loop of `submitAnswers` over the questions in list order. */
  method SubmitEach(quiz: Quiz, answers: map<Uuid, string>)
    modifies quiz.questions
    ensures forall x :: x in quiz.questions ==> x.Row() == Submitted(old(x.Row()), answers)
  {
    for i := 0 to |quiz.questions|
      invariant forall k :: 0 <= k < |quiz.questions| ==>
                  quiz.questions[k].Row() == if quiz.questions[k] in quiz.questions[..i]
                                             then Submitted(old(quiz.questions[k].Row()), answers)
                                             else old(quiz.questions[k].Row())
    {
      var question := quiz.questions[i];
      label L:
      SubmitOne(question, answers);
      forall k | 0 <= k < |quiz.questions|
        ensures quiz.questions[k].Row() == if quiz.questions[k] in quiz.questions[..i + 1]
                                           then Submitted(old(quiz.questions[k].Row()), answers)
                                           else old(quiz.questions[k].Row())
      {
        var x := quiz.questions[k];
        assert quiz.questions[..i + 1] == quiz.questions[..i] + [question];
        if x == question {
          SubmittedIdempotent(old(x.Row()), answers);
        } else {
          assert x.Row() == old@L(x.Row());
        }
      }
    }
  }

  /** One turn of the loop. */
  method SubmitOne(question: Question, answers: map<Uuid, string>)
    modifies question
    ensures question.Row() == Submitted(old(question.Row()), answers)
  {
    if question.id.Some? && question.id.value in answers {
      var answer := answers[question.id.value];
      question.SetUserAnswer(Some(answer));
      var _ := question.CheckAnswer(Some(answer));
    }
  }

  /**
   * `submitAnswers`: a quiz of another user is not found; a completed quiz
   * is left as it is and its stored result returned; otherwise every
   * question with an answer is checked, the quiz completed at `now`, and
   * the result built from the new state.
   */
  method SubmitAnswers(quiz: Quiz, userId: Uuid, answers: map<Uuid, string>, now: int)
    returns (r: Result<QuizResultResponse, string>)
    modifies quiz, quiz.questions
    ensures !old(OwnedBy(quiz, userId)) ==> r == Err(QuizNotFound)
    ensures !old(OwnedBy(quiz, userId)) || old(quiz.isCompleted) == Some(true) ==>
              quiz.Row() == old(quiz.Row()) && quiz.questions == old(quiz.questions)
              && forall x :: x in quiz.questions ==> x.Row() == old(x.Row())
    ensures old(OwnedBy(quiz, userId)) && old(quiz.isCompleted) == Some(true) ==>
              r == Ok(ResponseOf(quiz.Row(), quiz.Rows()))
    ensures old(OwnedBy(quiz, userId)) && old(quiz.isCompleted) != Some(true) ==>
              quiz.questions == old(quiz.questions)
              && (forall x :: x in quiz.questions ==> x.Row() == Submitted(old(x.Row()), answers))
              && quiz.Row() == Completed(old(quiz.Row()), quiz.Rows(), now)
              && r == Ok(ResponseOf(quiz.Row(), quiz.Rows()))
  {
    if quiz.user != userId {
      return Err(QuizNotFound);
    }
    if quiz.isCompleted == Some(true) {
      var response := BuildQuizResultResponse(quiz);
      return Ok(response);
    }
    var response := SubmitOpen(quiz, answers, now);
    r := Ok(response);
  }

  /** The part of `submitAnswers` for a quiz not yet completed. */
  method SubmitOpen(quiz: Quiz, answers: map<Uuid, string>, now: int) returns (response: QuizResultResponse)
    modifies quiz, quiz.questions
    ensures quiz.questions == old(quiz.questions)
    ensures forall x :: x in quiz.questions ==> x.Row() == Submitted(old(x.Row()), answers)
    ensures quiz.Row() == Completed(old(quiz.Row()), quiz.Rows(), now)
    ensures response == ResponseOf(quiz.Row(), quiz.Rows())
  {
    SubmitEach(quiz, answers);
    quiz.Complete(now);
    response := BuildQuizResultResponse(quiz);
  }

  /* ---------------- starting, retrying, generating ---------------- */

  /** `startQuiz`: the owner's quiz is started at `now`. */
  method StartQuiz(quiz: Quiz, userId: Uuid, now: int) returns (r: Result<Quiz, string>)
    modifies quiz
    ensures !old(OwnedBy(quiz, userId)) ==> r == Err(QuizNotFound) && quiz.Row() == old(quiz.Row())
    ensures old(OwnedBy(quiz, userId)) ==> r == Ok(quiz) && quiz.Row() == Started(old(quiz.Row()), now)
    ensures quiz.questions == old(quiz.questions)
  {
    if quiz.user != userId {
      return Err(QuizNotFound);
    }
    quiz.Start(now);
    r := Ok(quiz);
  }

  /** `retryQuiz`: the owner's quiz has every answer and result cleared. */
  method RetryQuiz(quiz: Quiz, userId: Uuid) returns (r: Result<Quiz, string>)
    modifies quiz, quiz.questions
    ensures quiz.questions == old(quiz.questions)
    ensures !old(OwnedBy(quiz, userId)) ==>
              r == Err(QuizNotFound) && quiz.Row() == old(quiz.Row())
              && forall x :: x in quiz.questions ==> x.Row() == old(x.Row())
    ensures old(OwnedBy(quiz, userId)) ==>
              r == Ok(quiz) && quiz.Row() == ResultsCleared(old(quiz.Row()))
              && forall x :: x in quiz.questions ==> x.Row() == AnswerCleared(old(x.Row()))
  {
    if quiz.user != userId {
      return Err(QuizNotFound);
    }
    quiz.ResetAllAnswers();
    r := Ok(quiz);
  }

  /**
   * `generateQuiz` once the AI's reply is parsed: a new quiz from the
   * request, and one question per JSON object, numbered 1..n in array order.
   * `addQuestion` stores the list size as the count, so a reply with
   * questions overrides the requested count and an empty reply keeps it.
   */
  method GenerateQuiz(request: GenerateRequest, user: Uuid, parsed: seq<QuestionJson>) returns (quiz: Quiz)
    ensures fresh(quiz) && |quiz.questions| == |parsed|
    ensures forall k :: 0 <= k < |parsed| ==> fresh(quiz.questions[k])
    ensures forall k :: 0 <= k < |parsed| ==> quiz.questions[k].Row() == QuestionFields(parsed[k], k + 1)
    ensures Distinct(quiz.questions) && quiz.Numbered()
    ensures quiz.numberOfQuestions == if parsed == [] then request.numberOfQuestions else Some(|parsed|)
    ensures quiz.title == Some("Quiz: " + request.topic) && quiz.isAiGenerated == Some(true)
    ensures quiz.user == user && quiz.isCompleted == Some(false)
  {
    quiz := ToEntity(request, user);
    AddAllParsed(quiz, parsed);
  }

  /** The loop of `generateQuiz`: one question per JSON object, in array order. */
  method AddAllParsed(quiz: Quiz, parsed: seq<QuestionJson>)
    requires quiz.questions == []
    modifies quiz
    ensures |quiz.questions| == |parsed|
    ensures forall k :: 0 <= k < |parsed| ==> fresh(quiz.questions[k])
    ensures forall k :: 0 <= k < |parsed| ==> quiz.questions[k].Row() == QuestionFields(parsed[k], k + 1)
    ensures Distinct(quiz.questions) && quiz.Numbered()
    ensures quiz.Row() == if parsed == [] then old(quiz.Row()) else old(quiz.Row()).(numberOfQuestions := Some(|parsed|))
  {
    for i := 0 to |parsed|
      invariant |quiz.questions| == i
      invariant forall k :: 0 <= k < i ==>
                  fresh(quiz.questions[k]) && quiz.questions[k].Row() == QuestionFields(parsed[k], k + 1)
      invariant quiz.Row() == if i == 0 then old(quiz.Row()) else old(quiz.Row()).(numberOfQuestions := Some(i))
    {
      ghost var before := quiz.questions;
      label L:
      var q := AddParsed(quiz, parsed[i]);
      forall k | 0 <= k < i + 1
        ensures fresh(quiz.questions[k]) && quiz.questions[k].Row() == QuestionFields(parsed[k], k + 1)
      {
        if k < i {
          assert quiz.questions[k] == before[k];
          assert before[k].Row() == old@L(before[k].Row());
        }
      }
    }
    assert quiz.Numbered();
  }

  /** One step of the loop: the entity of one JSON question, numbered with the new size and appended. */
  method AddParsed(quiz: Quiz, json: QuestionJson) returns (q: Question)
    modifies quiz
    ensures fresh(q) && quiz.questions == old(quiz.questions) + [q]
    ensures q.Row() == QuestionFields(json, |quiz.questions|)
    ensures quiz.Row() == old(quiz.Row()).(numberOfQuestions := Some(|quiz.questions|))
  {
    q := ToQuestionEntity(json, |quiz.questions| + 1);
    quiz.AddQuestion(q);
  }

  /* ---------------- feedback ---------------- */

  /** The languages `generateFeedback` knows; any other goes to Italian. */
  datatype Language = English | Spanish | French | German | Portuguese | Italian

  /** `switch (language.toLowerCase())`. */
  function FeedbackLanguage(language: string): (l: Language)
    ensures l == Italian <==> ToLower(language) !in {"en", "es", "fr", "de", "pt"}
  {
    match ToLower(language)
    case "en" => English
    case "es" => Spanish
    case "fr" => French
    case "de" => German
    case "pt" => Portuguese
    case _ => Italian
  }

  /** The band of a percentage: 0 from 90, 1 from 70, 2 from 60, 3 from 40, 4 below. */
  function Band(percentage: real): (b: nat)
    ensures b <= 4
    ensures b == 0 <==> percentage >= 90.0
    ensures b <= 1 <==> percentage >= 70.0
    ensures b <= 2 <==> percentage >= 60.0
    ensures b <= 3 <==> percentage >= 40.0
  {
    if percentage >= 90.0 then 0
    else if percentage >= 70.0 then 1
    else if percentage >= 60.0 then 2
    else if percentage >= 40.0 then 3
    else 4
  }

  /** The message of each language and band. */
  function Message(l: Language, band: nat): string
    requires band <= 4
  {
    match l
    case English =>
      if band == 0 then "Excellent! 🏆 Great mastery of the topic!"
      else if band == 1 then "Very good! 👍 Keep it up!"
      else if band == 2 then "Good! ✅ You passed the quiz."
      else if band == 3 then "Almost! 📚 Review a bit and try again."
      else "Needs improvement 💪 I recommend reviewing the topic."
    case Spanish =>
      if band == 0 then "¡Excelente! 🏆 ¡Gran dominio del tema!"
      else if band == 1 then "¡Muy bien! 👍 ¡Sigue así!"
      else if band == 2 then "¡Bien! ✅ Has aprobado el cuestionario."
      else if band == 3 then "¡Casi! 📚 Repasa un poco y vuelve a intentarlo."
      else "Necesita mejorar 💪 Te recomiendo repasar el tema."
    case French =>
      if band == 0 then "Excellent ! 🏆 Très bonne maîtrise du sujet !"
      else if band == 1 then "Très bien ! 👍 Continuez comme ça !"
      else if band == 2 then "Bien ! ✅ Vous avez réussi le quiz."
      else if band == 3 then "Presque ! 📚 Revoyez un peu et réessayez."
      else "À améliorer 💪 Je vous recommande de revoir le sujet."
    case German =>
      if band == 0 then "Ausgezeichnet! 🏆 Großartige Beherrschung des Themas!"
      else if band == 1 then "Sehr gut! 👍 Weiter so!"
      else if band == 2 then "Gut! ✅ Du hast das Quiz bestanden."
      else if band == 3 then "Fast! 📚 Ein bisschen nacharbeiten und erneut versuchen."
      else "Verbesserungsbedarf 💪 Ich empfehle, das Thema nochmals zu wiederholen."
    case Portuguese =>
      if band == 0 then "Excelente! 🏆 Grande domínio do tópico!"
      else if band == 1 then "Muito bom! 👍 Continue assim!"
      else if band == 2 then "Bom! ✅ Você passou no questionário."
      else if band == 3 then "Quase! 📚 Revisa um pouco e tenta novamente."
      else "Precisa melhorar 💪 Recomendo revisar o tópico."
    case Italian =>
      if band == 0 then "Eccellente! 🏆 Ottima padronanza dell'argomento!"
      else if band == 1 then "Molto bene! 👍 Continua così!"
      else if band == 2 then "Buono! ✅ Hai superato il quiz."
      else if band == 3 then "Quasi! 📚 Ripassa un po' e riprova."
      else "Da migliorare 💪 Ti consiglio di ripassare l'argomento."
  }

  /** `generateFeedback`: the message of the percentage's band in the request's language. */
  function GenerateFeedback(percentage: real, language: string): (s: string)
  {
    Message(FeedbackLanguage(language), Band(percentage))
  }

  /** A language other than en, es, fr, de and pt, in any case, gets the Italian message. */
  lemma FeedbackFallsBackToItalian(percentage: real, language: string)
    requires ToLower(language) !in {"en", "es", "fr", "de", "pt"}
    ensures GenerateFeedback(percentage, language) == GenerateFeedback(percentage, "it")
  {
    assert ToLower("it") == "it";
  }

  /** The language is matched ignoring case: "EN" is "en". */
  lemma FeedbackIgnoresCase(percentage: real, language: string)
    ensures GenerateFeedback(percentage, language) == GenerateFeedback(percentage, ToLower(language))
  {
    assert ToLower(ToLower(language)) == ToLower(language);
  }
}
