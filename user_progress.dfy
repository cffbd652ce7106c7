/**
 * A user's progress on one topic: quiz and question totals, the running
 * average score, a mastery level derived from it, and study minutes. Every
 * counter column is nullable; the getters read a NULL counter as 0 and a
 * NULL average as 0.0. Averages are Java doubles, modelled as exact reals.
 */
module Progress {
  import opened Common
  import opened Difficulty

  /** `safe`: a NULL counter reads as 0. */
  function Safe(value: Option<int>): int {
    value.GetOr(0)
  }

  /**
   * `recalculateAverage` on the two totals: `correct * 100.0 / total` when
   * the total is positive, else 0.0. With a positive total and NULL correct
   * answers the unboxing throws.
   */
  function AverageOf(totalQuestions: Option<int>, correctAnswers: Option<int>): (r: Result<real, string>)
    ensures Safe(totalQuestions) <= 0 ==> r == Ok(0.0)
    ensures Safe(totalQuestions) > 0 ==> (r.Err? <==> correctAnswers.None?)
    ensures Safe(totalQuestions) > 0 && r.Ok? ==> r.value * totalQuestions.value as real == correctAnswers.value as real * 100.0
  {
    if Safe(totalQuestions) > 0 then
      (if correctAnswers.None? then Err("NullPointerException")
       else
         var avg := Percent(correctAnswers.value, totalQuestions.value);
         PercentScale(correctAnswers.value, totalQuestions.value);
         Ok(avg))
    else Ok(0.0)
  }

  /** With no more correct answers than questions the average lies in [0, 100]. */
  lemma AverageBounds(totalQuestions: int, correctAnswers: int)
    requires 0 <= correctAnswers <= totalQuestions
    ensures var r := AverageOf(Some(totalQuestions), Some(correctAnswers));
            r.Ok? && 0.0 <= r.value <= 100.0
  {
    if totalQuestions > 0 {
      PercentBounds(correctAnswers, totalQuestions);
    }
  }

  /** `updateMasteryLevel` on an average: NULL is a beginner, 90 is advanced, 70 intermediate. */
  function MasteryOf(averageScore: Option<real>): (level: DifficultyLevel)
    ensures averageScore.None? ==> level == Principiante
    ensures averageScore.Some? ==> (level == Avanzato <==> averageScore.value >= 90.0)
    ensures averageScore.Some? ==> (level == Intermedio <==> 70.0 <= averageScore.value < 90.0)
  {
    if averageScore.None? then Principiante
    else if averageScore.value >= 90.0 then Avanzato
    else if averageScore.value >= 70.0 then Intermedio
    else Principiante
  }

  /** A higher average never gives a lower mastery level. */
  lemma MasteryMonotone(a: real, b: real)
    requires a <= b
    ensures Order(MasteryOf(Some(a))) <= Order(MasteryOf(Some(b)))
  {
  }

  /** On counters, the mastery level is advanced exactly at nine tenths correct, intermediate from seven tenths. */
  lemma MasteryOfCounts(totalQuestions: int, correctAnswers: int)
    requires totalQuestions > 0
    ensures var avg := AverageOf(Some(totalQuestions), Some(correctAnswers)).value;
            (MasteryOf(Some(avg)) == Avanzato <==> 10 * correctAnswers >= 9 * totalQuestions) &&
            (MasteryOf(Some(avg)) == Intermedio <==> 9 * totalQuestions > 10 * correctAnswers >= 7 * totalQuestions)
  {
    PercentAtLeast(correctAnswers, totalQuestions, 90);
    PercentAtLeast(correctAnswers, totalQuestions, 70);
  }

  class UserProgress {
    var id: Option<Uuid>
    var user: Uuid
    var topic: string
    var subject: Option<string>
    var quizCompleted: Option<int>
    var averageScore: Option<real>
    var totalQuestions: Option<int>
    var correctAnswers: Option<int>
    var masteryLevel: Option<DifficultyLevel>
    var totalStudyMinutes: Option<int>
    var lastActivityAt: Option<int>

    /** A new row for a user and topic with the column defaults. */
    constructor (userId: Uuid, topicName: string)
      ensures user == userId && topic == topicName && id.None? && subject.None?
      ensures quizCompleted == Some(0) && averageScore == Some(0.0) && totalQuestions == Some(0)
      ensures correctAnswers == Some(0) && masteryLevel == Some(Principiante)
      ensures totalStudyMinutes == Some(0) && lastActivityAt.None?
    {
      id, user, topic, subject := None, userId, topicName, None;
      quizCompleted, averageScore, totalQuestions, correctAnswers := Some(0), Some(0.0), Some(0), Some(0);
      masteryLevel, totalStudyMinutes, lastActivityAt := Some(Principiante), Some(0), None;
    }

    /** `getQuizCompleted`, `getTotalQuestions`, `getCorrectAnswers`, `getTotalStudyMinutes` and `getAverageScore`. */
    function QuizCompleted(): int reads this { Safe(quizCompleted) }
    function TotalQuestions(): int reads this { Safe(totalQuestions) }
    function CorrectAnswers(): int reads this { Safe(correctAnswers) }
    function TotalStudyMinutes(): int reads this { Safe(totalStudyMinutes) }
    function AverageScore(): real reads this { averageScore.GetOr(0.0) }

    /** `incrementQuizCompleted`: add the value to the count, a NULL count starting at 0. */
    method IncrementQuizCompleted(value: int)
      modifies this`quizCompleted
      ensures quizCompleted == Some(old(QuizCompleted()) + value)
    {
      quizCompleted := Some(Safe(quizCompleted) + value);
    }

    /** `addStudyMinutes`: add the minutes, a NULL total starting at 0. */
    method AddStudyMinutes(minutes: int)
      modifies this`totalStudyMinutes
      ensures totalStudyMinutes == Some(old(TotalStudyMinutes()) + minutes)
    {
      totalStudyMinutes := Some(Safe(totalStudyMinutes) + minutes);
    }

    /** `recalculateAverage`: store `AverageOf` the totals; when it throws, nothing changes. */
    method RecalculateAverage() returns (r: Result<(), string>)
      modifies this`averageScore
      ensures var avg := AverageOf(totalQuestions, correctAnswers);
              if avg.Ok? then r.Ok? && averageScore == Some(avg.value)
              else r.Err? && averageScore == old(averageScore)
    {
      if Safe(totalQuestions) > 0 {
        if correctAnswers.None? {
          return Err("NullPointerException");
        }
        averageScore := Some(Percent(correctAnswers.value, totalQuestions.value));
      } else {
        averageScore := Some(0.0);
      }
      return Ok(());
    }

    /** `addQuizResult`: add the question and correct-answer counts, then recalculate the average. */
    method AddQuizResult(totalQ: int, correctQ: int)
      modifies this`totalQuestions, this`correctAnswers, this`averageScore
      ensures totalQuestions == Some(old(TotalQuestions()) + totalQ)
      ensures correctAnswers == Some(old(CorrectAnswers()) + correctQ)
      ensures averageScore == Some(AverageOf(totalQuestions, correctAnswers).value)
    {
      totalQuestions := Some(Safe(totalQuestions) + totalQ);
      correctAnswers := Some(Safe(correctAnswers) + correctQ);
      var recalculated := RecalculateAverage();
    }

    /** `updateMasteryLevel`. */
    method UpdateMasteryLevel()
      modifies this`masteryLevel
      ensures masteryLevel == Some(MasteryOf(averageScore))
    {
      if averageScore.None? {
        masteryLevel := Some(Principiante);
      } else if averageScore.value >= 90.0 {
        masteryLevel := Some(Avanzato);
      } else if averageScore.value >= 70.0 {
        masteryLevel := Some(Intermedio);
      } else {
        masteryLevel := Some(Principiante);
      }
    }
  }

  /**
   * Consistent counters stay consistent through `addQuizResult` with a
   * consistent result, and the average then stays within [0, 100].
   */
  lemma AddQuizResultKeepsBounds(total: int, correct: int, totalQ: int, correctQ: int)
    requires 0 <= correct <= total && 0 <= correctQ <= totalQ
    ensures 0 <= correct + correctQ <= total + totalQ
    ensures var r := AverageOf(Some(total + totalQ), Some(correct + correctQ));
            r.Ok? && 0.0 <= r.value <= 100.0
  {
    AverageBounds(total + totalQ, correct + correctQ);
  }
}
