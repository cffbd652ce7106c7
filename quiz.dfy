/**
 * The quiz entities. A `Question` holds a multiple-choice question with
 * options A to D, its correct letter and the student's answer; a `Quiz`
 * holds its questions in order together with the score of the last
 * completion. Both are classes whose methods update their fields in place;
 * `QuestionRow` and `QuizRow` are the values of their fields at one moment.
 * Timestamps are seconds on a clock the caller passes in.
 */
module Quizzes {
  import opened Common
  import opened Text
  import opened Difficulty

  /* ---------------- a question ---------------- */

  datatype QuestionRow = QuestionRow(
    id: Option<Uuid>, questionText: Option<string>,
    optionA: Option<string>, optionB: Option<string>, optionC: Option<string>, optionD: Option<string>,
    correctAnswer: Option<string>, explanation: Option<string>,
    userAnswer: Option<string>, isCorrect: Option<bool>, questionOrder: Option<int>)

  /** `toUpperCase().trim()`, the form in which `checkAnswer` compares letters. */
  function Normalize(s: string): string
  {
    Trim(ToUpper(s))
  }

  /** A part of an upper-case string is upper case. */
  lemma UpperSlice(u: string, lo: int, hi: int)
    requires ToUpper(u) == u && 0 <= lo <= hi <= |u|
    ensures ToUpper(u[lo..hi]) == u[lo..hi]
  {
    var v := u[lo..hi];
    forall i | 0 <= i < |v| ensures ToUpper(v)[i] == v[i] {
      assert v[i] == u[lo + i] == ToUpper(u)[lo + i];
    }
  }

  /** The text `trim` keeps is upper case when the input is. */
  lemma UpperTrim(u: string)
    requires ToUpper(u) == u
    ensures ToUpper(Trim(u)) == Trim(u)
  {
    var t := TrimStart(u);
    UpperSlice(u, |u| - |t|, |u|);
    assert u[|u| - |t|..|u|] == t;
    var r := TrimEnd(t);
    UpperSlice(t, 0, |r|);
    assert t[0..|r|] == r;
  }

  /** Upper-casing a trimmed upper-cased string, or trimming it again, changes nothing. */
  lemma NormalizeIdempotent(s: string)
    ensures ToUpper(Normalize(s)) == Normalize(s)
    ensures Normalize(Normalize(s)) == Normalize(s)
  {
    var u := ToUpper(s);
    ToUpperIdempotent(s);
    UpperTrim(u);
    TrimIdempotent(u);
  }

  /** What `checkAnswer` leaves in the question, and what it returns. */
  datatype Checked = Checked(row: QuestionRow, correct: bool)

  /**
   * `checkAnswer(answer)`: with no answer or no correct letter nothing is
   * stored and the result is false; otherwise the normalised answer is
   * stored, and the verdict, stored and returned, is whether it equals the
   * normalised correct letter.
   */
  function AnswerChecked(q: QuestionRow, answer: Option<string>): (c: Checked)
    ensures answer.None? || q.correctAnswer.None? ==> c == Checked(q, false)
    ensures answer.Some? && q.correctAnswer.Some? ==>
              c.row == q.(userAnswer := Some(Normalize(answer.value)), isCorrect := Some(c.correct))
              && (c.correct <==> Normalize(answer.value) == Normalize(q.correctAnswer.value))
  {
    if answer.None? || q.correctAnswer.None? then Checked(q, false)
    else
      var given := Normalize(answer.value);
      var correct := given == Normalize(q.correctAnswer.value);
      Checked(q.(userAnswer := Some(given), isCorrect := Some(correct)), correct)
  }

  /** Answers that agree up to case and surrounding spaces have the same effect. */
  lemma CheckIgnoresCaseAndPadding(q: QuestionRow, a: string, b: string)
    requires Normalize(a) == Normalize(b)
    ensures AnswerChecked(q, Some(a)) == AnswerChecked(q, Some(b))
  {
  }

  lemma UpperOfPadded(c: char)
    ensures ToUpper([' ', c, ' ']) == [' ', UpperChar(c), ' ']
  {
  }

  /** Trimming a visible character between two spaces leaves the character. */
  lemma TrimPadded(l: char)
    requires !IsTrimmable(l)
    ensures Trim([' ', l, ' ']) == [l]
  {
    var u := [' ', l, ' '];
    assert TrimStart(u) == TrimStart(u[1..]);
    assert u[1..] == [l, ' '];
    TrimStartOfClean([l, ' ']);
    assert TrimEnd([l, ' ']) == TrimEnd([l, ' '][..1]);
    assert [l, ' '][..1] == [l];
    TrimEndOfClean([l]);
  }

  lemma NormalizeLetter(l: char)
    requires !IsTrimmable(l) && !IsLowerLetter(l)
    ensures Normalize([l]) == [l]
  {
    assert ToUpper([l]) == [l];
    TrimStartOfClean([l]);
    TrimEndOfClean([l]);
  }

  /** A letter between two spaces normalises to the upper-case letter alone, as does that letter. */
  lemma PaddedLetterNormalizes(c: char)
    requires 'a' <= c <= 'z'
    ensures Normalize([' ', c, ' ']) == [UpperChar(c)] == Normalize([UpperChar(c)])
  {
    var l := UpperChar(c);
    assert !IsTrimmable(l);
    UpperOfPadded(c);
    TrimPadded(l);
    NormalizeLetter(l);
  }

  /** " b " and "B" both normalise to "B", so `checkAnswer(" b ")` acts as `checkAnswer("B")`. */
  lemma PaddedLetterActsAsLetter(q: QuestionRow)
    ensures Normalize(" b ") == "B" == Normalize("B")
    ensures AnswerChecked(q, Some(" b ")) == AnswerChecked(q, Some("B"))
  {
    PaddedLetterNormalizes('b');
    assert [' ', 'b', ' '] == " b " && [UpperChar('b')] == "B";
    CheckIgnoresCaseAndPadding(q, " b ", "B");
  }

  /** Checking the stored answer again gives the same question and the same verdict. */
  lemma CheckStoredAnswerAgain(q: QuestionRow, answer: string)
    requires q.correctAnswer.Some?
    ensures var c := AnswerChecked(q, Some(answer));
            AnswerChecked(c.row, c.row.userAnswer) == c
  {
    NormalizeIdempotent(answer);
  }

  /** The option for a letter in any case, and nothing for any other string. */
  function OptionFor(q: QuestionRow, letter: string): (text: Option<string>)
    ensures ToUpper(letter) == "A" ==> text == q.optionA
    ensures ToUpper(letter) == "B" ==> text == q.optionB
    ensures ToUpper(letter) == "C" ==> text == q.optionC
    ensures ToUpper(letter) == "D" ==> text == q.optionD
    ensures ToUpper(letter) !in {"A", "B", "C", "D"} ==> text.None?
  {
    match ToUpper(letter)
    case "A" => q.optionA
    case "B" => q.optionB
    case "C" => q.optionC
    case "D" => q.optionD
    case _ => None
  }

  /**
   * `getCorrectOptionText`: the option named by the correct letter. A NULL
   * letter is a NullPointerException at `toUpperCase`.
   */
  function CorrectOptionText(q: QuestionRow): (r: Result<Option<string>, string>)
    ensures r.Err? <==> q.correctAnswer.None?
    ensures r.Ok? ==> r.value == OptionFor(q, q.correctAnswer.value)
  {
    match q.correctAnswer
    case None => Err("NullPointerException")
    case Some(letter) => Ok(OptionFor(q, letter))
  }

  /** `getUserAnswerText`: the option the student chose, nothing without an answer. */
  function UserAnswerText(q: QuestionRow): (text: Option<string>)
    ensures q.userAnswer.None? ==> text.None?
    ensures q.userAnswer.Some? ==> text == OptionFor(q, q.userAnswer.value)
  {
    match q.userAnswer
    case None => None
    case Some(given) => OptionFor(q, given)
  }

  /** Letters with the same upper case name the same option. */
  lemma OptionForUpper(q: QuestionRow, x: string, y: string)
    requires ToUpper(x) == ToUpper(y)
    ensures OptionFor(q, x) == OptionFor(q, y)
  {
  }

  /** A string with no padding keeps none once upper-cased, so normalising it is upper-casing it. */
  lemma NormalizeOfUnpadded(c: string)
    requires Trim(c) == c
    ensures Normalize(c) == ToUpper(c)
  {
    var u := ToUpper(c);
    if c != [] {
      assert !IsTrimmable(u[0]) && !IsTrimmable(u[|u| - 1]);
    }
    TrimStartOfClean(u);
    TrimEndOfClean(u);
  }

  /**
   * After a correct answer the student's option and the correct option are
   * the same text, provided the stored letter carries no padding (the
   * correct letter is upper-cased but not trimmed when it is looked up).
   */
  lemma CorrectAnswerShowsCorrectOption(q: QuestionRow, answer: string)
    requires q.correctAnswer.Some? && Trim(q.correctAnswer.value) == q.correctAnswer.value
    requires AnswerChecked(q, Some(answer)).correct
    ensures var row := AnswerChecked(q, Some(answer)).row;
            CorrectOptionText(row) == Ok(UserAnswerText(row))
  {
    var c := q.correctAnswer.value;
    var row := AnswerChecked(q, Some(answer)).row;
    NormalizeIdempotent(answer);
    NormalizeOfUnpadded(c);
    OptionForUpper(row, c, Normalize(answer));
  }

  /** `isAnswered`: a stored answer that is not blank. */
  predicate IsAnswered(q: QuestionRow) {
    q.userAnswer.Some? && !IsBlank(q.userAnswer.value)
  }

  /**
   * A question counts as answered once it holds an answer with a character
   * other than white space: a padded letter counts, a NULL, an empty or an
   * all-blank answer does not.
   */
  lemma AnsweredWhenVisible(q: QuestionRow, a: string)
    ensures IsAnswered(q.(userAnswer := Some(a))) <==> exists i :: 0 <= i < |a| && !IsWhitespace(a[i])
    ensures !IsAnswered(q.(userAnswer := None)) && !IsAnswered(q.(userAnswer := Some("")))
    ensures IsAnswered(q.(userAnswer := Some(" B ")))
  {
    assert !IsWhitespace(" B "[1]);
  }

  /** `resetAnswer`: the answer and the verdict become NULL. */
  function AnswerCleared(q: QuestionRow): (r: QuestionRow)
    ensures r.userAnswer.None? && r.isCorrect.None? && !IsAnswered(r)
    ensures r.(userAnswer := q.userAnswer, isCorrect := q.isCorrect) == q
  {
    q.(userAnswer := None, isCorrect := None)
  }

  class Question {
    /** Assigned when the row is stored and never changed afterwards. */
    const id: Option<Uuid>
    var questionText: Option<string>
    var optionA: Option<string>
    var optionB: Option<string>
    var optionC: Option<string>
    var optionD: Option<string>
    var correctAnswer: Option<string>
    var explanation: Option<string>
    var userAnswer: Option<string>
    var isCorrect: Option<bool>
    var questionOrder: Option<int>

    /** The values of all fields. */
    function Row(): QuestionRow
      reads this
    {
      QuestionRow(id, questionText, optionA, optionB, optionC, optionD, correctAnswer,
                  explanation, userAnswer, isCorrect, questionOrder)
    }

    /** A question with the given field values. */
    constructor Load(r: QuestionRow)
      ensures Row() == r
    {
      id, questionText := r.id, r.questionText;
      optionA, optionB, optionC, optionD := r.optionA, r.optionB, r.optionC, r.optionD;
      correctAnswer, explanation := r.correctAnswer, r.explanation;
      userAnswer, isCorrect, questionOrder := r.userAnswer, r.isCorrect, r.questionOrder;
    }

    /** `setUserAnswer`. */
    method SetUserAnswer(answer: Option<string>)
      modifies this
      ensures Row() == old(Row()).(userAnswer := answer)
    {
      userAnswer := answer;
    }

    /** `checkAnswer`. */
    method CheckAnswer(answer: Option<string>) returns (correct: bool)
      modifies this
      ensures Row() == AnswerChecked(old(Row()), answer).row
      ensures correct == AnswerChecked(old(Row()), answer).correct
    {
      if answer.None? || correctAnswer.None? {
        return false;
      }
      userAnswer := Some(Normalize(answer.value));
      isCorrect := Some(userAnswer.value == Normalize(correctAnswer.value));
      correct := isCorrect.value;
    }

    /** `resetAnswer`. */
    method ResetAnswer()
      modifies this
      ensures Row() == AnswerCleared(old(Row()))
    {
      userAnswer := None;
      isCorrect := None;
    }
  }

  /* ---------------- counting over the questions ---------------- */

  /** The questions whose verdict is `Boolean.TRUE`. */
  function CorrectCount(rows: seq<QuestionRow>): (n: nat)
    ensures n <= |rows|
  {
    if rows == [] then 0
    else (if rows[0].isCorrect == Some(true) then 1 else 0) + CorrectCount(rows[1..])
  }

  /** `getAnsweredCount`. */
  function AnsweredCount(rows: seq<QuestionRow>): (n: nat)
    ensures n <= |rows|
  {
    if rows == [] then 0
    else (if IsAnswered(rows[0]) then 1 else 0) + AnsweredCount(rows[1..])
  }

  /** `allQuestionsAnswered`. */
  predicate AllAnswered(rows: seq<QuestionRow>) {
    forall k :: 0 <= k < |rows| ==> IsAnswered(rows[k])
  }

  /** Every question is answered exactly when the answered count is the number of questions. */
  lemma {:induction false} AllAnsweredIffCount(rows: seq<QuestionRow>)
    ensures AllAnswered(rows) <==> AnsweredCount(rows) == |rows|
  {
    if rows != [] {
      AllAnsweredIffCount(rows[1..]);
      assert AllAnswered(rows) <==> IsAnswered(rows[0]) && AllAnswered(rows[1..]) by {
        if IsAnswered(rows[0]) && AllAnswered(rows[1..]) {
          forall k | 0 <= k < |rows| ensures IsAnswered(rows[k]) {
            if k > 0 {
              assert rows[k] == rows[1..][k - 1];
            }
          }
        }
        if AllAnswered(rows) {
          forall k | 0 <= k < |rows| - 1 ensures IsAnswered(rows[1..][k]) {
            assert rows[1..][k] == rows[k + 1];
          }
        }
      }
    }
  }

  /** After every answer is cleared, no question is answered or correct. */
  lemma {:induction false} ClearedCounts(rows: seq<QuestionRow>)
    requires forall k :: 0 <= k < |rows| ==> rows[k].userAnswer.None? && rows[k].isCorrect.None?
    ensures AnsweredCount(rows) == 0 && CorrectCount(rows) == 0
  {
    if rows != [] {
      assert forall k :: 0 <= k < |rows| - 1 ==> rows[1..][k] == rows[k + 1];
      ClearedCounts(rows[1..]);
    }
  }

  /** The result of `calculateScore`. */
  datatype Score = Score(score: int, totalPoints: int, percentage: real)

  /**
   * `calculateScore`: 0 of 0 for no questions; otherwise the number of
   * correct questions out of all of them, as a percentage.
   */
  function ScoreOf(rows: seq<QuestionRow>): (s: Score)
    ensures rows == [] ==> s == Score(0, 0, 0.0)
    ensures rows != [] ==> s.totalPoints == |rows| && s.score == CorrectCount(rows)
                           && s.percentage == Percent(s.score, s.totalPoints)
  {
    if rows == [] then Score(0, 0, 0.0)
    else Score(CorrectCount(rows), |rows|, Percent(CorrectCount(rows), |rows|))
  }

  /** The score never exceeds the number of questions, and the percentage lies in [0, 100]. */
  lemma ScoreBounds(rows: seq<QuestionRow>)
    ensures 0 <= ScoreOf(rows).score <= ScoreOf(rows).totalPoints == |rows|
    ensures 0.0 <= ScoreOf(rows).percentage <= 100.0
  {
    if rows != [] {
      PercentBounds(CorrectCount(rows), |rows|);
    }
  }

  /** A percentage reaches 60 exactly when at least three fifths of the questions are correct. */
  lemma PassMark(rows: seq<QuestionRow>)
    requires rows != []
    ensures ScoreOf(rows).percentage >= 60.0 <==> 5 * CorrectCount(rows) >= 3 * |rows|
  {
    PercentAtLeast(CorrectCount(rows), |rows|, 60);
  }

  /* ---------------- a quiz ---------------- */

  datatype QuizRow = QuizRow(
    id: Option<Uuid>, user: Uuid, title: Option<string>, topic: Option<string>,
    subject: Option<string>, difficultyLevel: Option<DifficultyLevel>,
    numberOfQuestions: Option<int>, isCompleted: Option<bool>, isAiGenerated: Option<bool>,
    score: Option<int>, totalPoints: Option<int>, percentage: Option<real>,
    timeSpentSeconds: Option<int>, startedAt: Option<int>, completedAt: Option<int>)

  /** The field values after `calculateScore`. */
  function Scored(q: QuizRow, rows: seq<QuestionRow>): (r: QuizRow)
    ensures r.score == Some(ScoreOf(rows).score) && r.totalPoints == Some(ScoreOf(rows).totalPoints)
    ensures r.percentage == Some(ScoreOf(rows).percentage)
    ensures r.(score := q.score, totalPoints := q.totalPoints, percentage := q.percentage) == q
  {
    var s := ScoreOf(rows);
    q.(score := Some(s.score), totalPoints := Some(s.totalPoints), percentage := Some(s.percentage))
  }

  /**
   * `complete` at time `now`: completed, scored, and timed from the start
   * when there was one.
   */
  function Completed(q: QuizRow, rows: seq<QuestionRow>, now: int): (r: QuizRow)
    ensures r.isCompleted == Some(true) && r.completedAt == Some(now)
    ensures r.score == Some(ScoreOf(rows).score) && r.percentage == Some(ScoreOf(rows).percentage)
    ensures r.timeSpentSeconds == if q.startedAt.Some? then Some(now - q.startedAt.value) else q.timeSpentSeconds
    ensures r.numberOfQuestions == q.numberOfQuestions && r.startedAt == q.startedAt && r.user == q.user
  {
    var s := Scored(q.(completedAt := Some(now), isCompleted := Some(true)), rows);
    if q.startedAt.Some? then s.(timeSpentSeconds := Some(now - q.startedAt.value)) else s
  }

  /** `start` at time `now`. */
  function Started(q: QuizRow, now: int): (r: QuizRow)
    ensures r.startedAt == Some(now) && r.isCompleted == Some(false)
    ensures r.(startedAt := q.startedAt, isCompleted := q.isCompleted) == q
  {
    q.(startedAt := Some(now), isCompleted := Some(false))
  }

  /** `resetAllAnswers` on the quiz's own fields: not completed, and every result and timestamp NULL. */
  function ResultsCleared(q: QuizRow): (r: QuizRow)
    ensures r.isCompleted == Some(false) && r.score.None? && r.percentage.None?
    ensures r.startedAt.None? && r.completedAt.None? && r.timeSpentSeconds.None?
    ensures r.totalPoints == q.totalPoints && r.numberOfQuestions == q.numberOfQuestions
  {
    q.(isCompleted := Some(false), score := None, percentage := None, startedAt := None,
       completedAt := None, timeSpentSeconds := None)
  }

  /** `isPassed`: a stored percentage of at least 60. */
  predicate IsPassed(q: QuizRow) {
    q.percentage.Some? && q.percentage.value >= 60.0
  }

  /** A completed quiz with questions is passed exactly when three fifths of them are correct. */
  lemma PassedAfterComplete(q: QuizRow, rows: seq<QuestionRow>, now: int)
    requires rows != []
    ensures IsPassed(Completed(q, rows, now)) <==> 5 * CorrectCount(rows) >= 3 * |rows|
  {
    PassMark(rows);
  }

  /** A quiz without questions completes with 0 of 0 and is not passed. */
  lemma EmptyQuizNotPassed(q: QuizRow, now: int)
    ensures var r := Completed(q, [], now);
            r.score == Some(0) && r.totalPoints == Some(0) && !IsPassed(r)
  {
  }

  /** `String.format("%02d", n)`: at least two characters, a minus sign counting as one. */
  function TwoDigits(n: int): (r: string)
    ensures n >= 0 ==> r == Pad2(n)
    ensures n < 0 ==> r == "-" + NatToString(-n)
    ensures |r| >= 2
  {
    if n >= 0 then Pad2(n) else "-" + NatToString(-n)
  }

  /** `getFormattedTime`: "00:00" without a time, else minutes and seconds with Java's truncating division. */
  function FormattedTime(timeSpentSeconds: Option<int>): (r: string)
    ensures timeSpentSeconds.None? ==> r == "00:00"
    ensures timeSpentSeconds.Some? ==>
              r == TwoDigits(JavaDiv(timeSpentSeconds.value, 60)) + ":" + TwoDigits(JavaRem(timeSpentSeconds.value, 60))
  {
    match timeSpentSeconds
    case None => "00:00"
    case Some(t) => TwoDigits(JavaDiv(t, 60)) + ":" + TwoDigits(JavaRem(t, 60))
  }

  /**
   * For a non-negative time under 100 minutes the text is "mm:ss", five
   * characters with the colon in the middle, and 125 seconds is "02:05".
   */
  lemma FormattedTimeShape(t: int)
    requires 0 <= t < 6000
    ensures var r := FormattedTime(Some(t));
            r == Pad2(t / 60) + ":" + Pad2(t % 60) && |r| == 5 && r[2] == ':'
    ensures FormattedTime(Some(125)) == "02:05"
  {
    assert JavaDiv(t, 60) == t / 60 && JavaRem(t, 60) == t % 60;
    assert NatToString(2) == "2" && NatToString(5) == "5";
  }

  /** A negative time, as a clock set back can give, shows "-1:-5" for -65 seconds. */
  lemma FormattedNegativeTime()
    ensures FormattedTime(Some(-65)) == "-1:-5"
  {
    assert JavaDiv(-65, 60) == -1;
    assert JavaRem(-65, 60) == -5;
    assert NatToString(1) == "1" && NatToString(5) == "5";
  }

  /** The field values of every question in a list, in order. */
  function RowsOf(qs: seq<Question>): (rows: seq<QuestionRow>)
    reads qs
    ensures |rows| == |qs|
    ensures forall k :: 0 <= k < |qs| ==> rows[k] == qs[k].Row()
  {
    if qs == [] then [] else [qs[0].Row()] + RowsOf(qs[1..])
  }

  /** No question object appears twice in the list. */
  predicate Distinct(qs: seq<Question>) {
    forall i, j :: 0 <= i < j < |qs| ==> qs[i] != qs[j]
  }

  /** The ids of the questions, in list order. */
  function QuestionIds(qs: seq<Question>): (ids: seq<Option<Uuid>>)
    ensures |ids| == |qs| && forall k :: 0 <= k < |qs| ==> ids[k] == qs[k].id
  {
    if qs == [] then [] else [qs[0].id] + QuestionIds(qs[1..])
  }

  /**
   * The list without the entry at position `k`, or the list itself when
   * `k` is -1: it keeps only elements of the list, and keeps a list
   * without repeats free of repeats.
   */
  function Without(qs: seq<Question>, k: int): (r: seq<Question>)
    requires -1 <= k < |qs|
    ensures forall x :: x in r ==> x in qs
    ensures Distinct(qs) ==> Distinct(r)
    ensures |r| == if k < 0 then |qs| else |qs| - 1
  {
    if k < 0 then qs
    else
      DistinctWithout(qs, k);
      WithoutIsSubset(qs, k);
      qs[..k] + qs[k + 1..]
  }

  /** Dropping one element keeps only elements of the list. */
  lemma WithoutIsSubset(qs: seq<Question>, k: int)
    requires 0 <= k < |qs|
    ensures forall x :: x in qs[..k] + qs[k + 1..] ==> x in qs
  {
    forall x | x in qs[..k] + qs[k + 1..] ensures x in qs {
      if x in qs[..k] {
        var i :| 0 <= i < k && qs[..k][i] == x;
        assert qs[i] == x;
      } else {
        assert x in qs[k + 1..];
        var i :| 0 <= i < |qs| - k - 1 && qs[k + 1..][i] == x;
        assert qs[k + 1 + i] == x;
      }
    }
  }

  /** The renumbering loop of `removeQuestion`: each question's order becomes its position. */
  method Renumber(qs: seq<Question>)
    modifies qs`questionOrder
    ensures Distinct(qs) ==> forall j :: 0 <= j < |qs| ==> qs[j].questionOrder == Some(j + 1)
  {
    for i := 0 to |qs|
      invariant Distinct(qs) ==> forall j :: 0 <= j < i ==> qs[j].questionOrder == Some(j + 1)
    {
      qs[i].questionOrder := Some(i + 1);
    }
  }

  /** Removing one entry keeps a list without repeats free of repeats. */
  lemma DistinctWithout(qs: seq<Question>, k: int)
    requires 0 <= k < |qs|
    ensures Distinct(qs) ==> Distinct(qs[..k] + qs[k + 1..])
  {
    var kept := qs[..k] + qs[k + 1..];
    if Distinct(qs) {
      forall i, j | 0 <= i < j < |kept| ensures kept[i] != kept[j] {
        var i' := if i < k then i else i + 1;
        var j' := if j < k then j else j + 1;
        assert kept[i] == qs[i'] && kept[j] == qs[j'];
      }
    }
  }

  class Quiz {
    var id: Option<Uuid>
    var user: Uuid
    var questions: seq<Question>
    var title: Option<string>
    var topic: Option<string>
    var subject: Option<string>
    var difficultyLevel: Option<DifficultyLevel>
    var numberOfQuestions: Option<int>
    var isCompleted: Option<bool>
    var isAiGenerated: Option<bool>
    var score: Option<int>
    var totalPoints: Option<int>
    var percentage: Option<real>
    var timeSpentSeconds: Option<int>
    var startedAt: Option<int>
    var completedAt: Option<int>

    /** The values of the quiz's own fields. */
    function Row(): QuizRow
      reads this
    {
      QuizRow(id, user, title, topic, subject, difficultyLevel, numberOfQuestions, isCompleted,
              isAiGenerated, score, totalPoints, percentage, timeSpentSeconds, startedAt, completedAt)
    }

    /** The field values of its questions, in list order. */
    function Rows(): (rows: seq<QuestionRow>)
      reads this, questions
      ensures |rows| == |questions|
    {
      RowsOf(questions)
    }

    /** Every question's order is its position in the list, counting from 1. */
    predicate Numbered()
      reads this, questions
    {
      forall k :: 0 <= k < |questions| ==> questions[k].questionOrder == Some(k + 1)
    }

    /** `new Quiz()`: no questions, not completed, not AI-generated. */
    constructor (owner: Uuid)
      ensures questions == [] && user == owner
      ensures Row() == QuizRow(None, owner, None, None, None, None, None, Some(false), Some(false),
                               None, None, None, None, None, None)
    {
      id, user, questions := None, owner, [];
      title, topic, subject, difficultyLevel, numberOfQuestions := None, None, None, None, None;
      isCompleted, isAiGenerated := Some(false), Some(false);
      score, totalPoints, percentage, timeSpentSeconds, startedAt, completedAt := None, None, None, None, None, None;
    }

    /** `addQuestion`: append the question, number it with the new size, and store the size. */
    method AddQuestion(question: Question)
      modifies this, question
      ensures questions == old(questions) + [question]
      ensures question.Row() == old(question.Row()).(questionOrder := Some(|questions|))
      ensures Row() == old(Row()).(numberOfQuestions := Some(|questions|))
      ensures old(Numbered()) && question !in old(questions) ==> Numbered()
      ensures Distinct(old(questions)) && question !in old(questions) ==> Distinct(questions)
    {
      questions := questions + [question];
      question.questionOrder := Some(|questions|);
      numberOfQuestions := Some(|questions|);
    }

    /**
     * `removeQuestion`: drop the first question with the same id, store the
     * new size, and renumber the rest 1..n in list order.
     */
    method RemoveQuestion(question: Question)
      modifies this`questions, this`numberOfQuestions, questions`questionOrder
      ensures questions == Without(old(questions), FirstWithId(old(QuestionIds(questions)), question.id))
      ensures numberOfQuestions == Some(|questions|)
      ensures Distinct(old(questions)) ==> Distinct(questions) && Numbered()
      ensures forall q :: q in old(questions) && q !in questions ==> q.questionOrder == old(q.questionOrder)
    {
      var k := FirstWithId(QuestionIds(questions), question.id);
      var kept := Without(questions, k);
      Renumber(kept);
      questions := kept;
      numberOfQuestions := Some(|kept|);
    }

    /** `start`. */
    method Start(now: int)
      modifies this
      ensures Row() == Started(old(Row()), now) && questions == old(questions)
    {
      startedAt := Some(now);
      isCompleted := Some(false);
    }

    /** `calculateScore`. */
    method CalculateScore()
      modifies this
      ensures Row() == Scored(old(Row()), Rows()) && questions == old(questions)
    {
      var s := ScoreOf(Rows());
      score, totalPoints, percentage := Some(s.score), Some(s.totalPoints), Some(s.percentage);
    }

    /** `complete` at time `now`. */
    method Complete(now: int)
      modifies this
      ensures Row() == Completed(old(Row()), Rows(), now) && questions == old(questions)
    {
      completedAt := Some(now);
      isCompleted := Some(true);
      CalculateScore();
      if startedAt.Some? {
        timeSpentSeconds := Some(now - startedAt.value);
      }
    }

    /** `resetAllAnswers`: clear every question's answer, then the quiz's results and timestamps. */
    method ResetAllAnswers()
      modifies this, questions
      ensures questions == old(questions)
      ensures forall x :: x in questions ==> x.Row() == AnswerCleared(old(x.Row()))
      ensures Row() == ResultsCleared(old(Row()))
    {
      ResetEach(questions);
      assert Row() == old(Row());
      isCompleted, score, percentage := Some(false), None, None;
      startedAt, completedAt, timeSpentSeconds := None, None, None;
    }
  }

  /** The loop of `resetAllAnswers` over the questions in list order. */
  method ResetEach(qs: seq<Question>)
    modifies qs
    ensures forall x :: x in qs ==> x.Row() == AnswerCleared(old(x.Row()))
  {
    for i := 0 to |qs|
      invariant forall k :: 0 <= k < |qs| ==>
                  qs[k].Row() == if qs[k] in qs[..i] then AnswerCleared(old(qs[k].Row())) else old(qs[k].Row())
    {
      var question := qs[i];
      label L:
      question.ResetAnswer();
      forall k | 0 <= k < |qs|
        ensures qs[k].Row() == if qs[k] in qs[..i + 1] then AnswerCleared(old(qs[k].Row())) else old(qs[k].Row())
      {
        assert qs[..i + 1] == qs[..i] + [question];
        if qs[k] != question {
          assert qs[k].Row() == old@L(qs[k].Row());
        }
      }
    }
  }

  /** After `resetAllAnswers` no question is answered or correct. */
  lemma ResetLeavesNothingAnswered(rows: seq<QuestionRow>)
    ensures var cleared := seq(|rows|, k requires 0 <= k < |rows| => AnswerCleared(rows[k]));
            AnsweredCount(cleared) == 0 && CorrectCount(cleared) == 0 && (rows != [] ==> !AllAnswered(cleared))
  {
    var cleared := seq(|rows|, k requires 0 <= k < |rows| => AnswerCleared(rows[k]));
    ClearedCounts(cleared);
    if rows != [] {
      assert !IsAnswered(cleared[0]);
    }
  }
}
