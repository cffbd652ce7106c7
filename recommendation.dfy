/**
 * A study recommendation and its lifecycle: it is active until the user
 * dismisses or completes it, or until it expires. The priority column
 * stores the enum's name as a string, so the database orders priorities
 * by their names, not by their rank in the enum.
 */
module Recommendations {
  import opened Common

  datatype RecommendationType =
    ReviewTopic | RetryQuiz | StudyFlashcards | NewTopic | StreakReminder | WeaknessFocus | DailyGoal

  /** Declared in this order: LOW, MEDIUM, HIGH, URGENT. */
  datatype Priority = Low | Medium | High | Urgent

  /** The stored form of a priority: the constant's name. */
  function PriorityName(p: Priority): string {
    match p
    case Low => "LOW"
    case Medium => "MEDIUM"
    case High => "HIGH"
    case Urgent => "URGENT"
  }

  /** The rank of a priority in the enum's declaration order. */
  function PriorityOrdinal(p: Priority): int {
    match p
    case Low => 0
    case Medium => 1
    case High => 2
    case Urgent => 3
  }

  /** Lexicographic `<` on strings, character by character. */
  predicate LexLess(a: string, b: string) {
    b != [] && (a == [] || a[0] < b[0] || (a[0] == b[0] && LexLess(a[1..], b[1..])))
  }

  /** Where a stored priority falls when the names are sorted: HIGH, LOW, MEDIUM, URGENT. */
  function StoredRank(p: Priority): (rank: int)
    ensures 0 <= rank < 4
  {
    match p
    case High => 0
    case Low => 1
    case Medium => 2
    case Urgent => 3
  }

  /** `StoredRank` is the order of the stored names. */
  lemma StoredRankIsNameOrder(p: Priority, q: Priority)
    ensures StoredRank(p) < StoredRank(q) <==> LexLess(PriorityName(p), PriorityName(q))
  {
    var a, b := PriorityName(p), PriorityName(q);
    assert a[0] == PriorityName(p)[0] && b[0] == PriorityName(q)[0];
    if p == q {
      assert a[1..] == b[1..];
      LexLessIrreflexive(a);
    }
  }

  lemma {:induction false} LexLessIrreflexive(a: string)
    ensures !LexLess(a, a)
  {
    if a != [] {
      LexLessIrreflexive(a[1..]);
    }
  }

  /** Sorted by the stored string, HIGH comes below LOW although it is the higher priority. */
  lemma HighSortsBelowLow()
    ensures PriorityOrdinal(High) > PriorityOrdinal(Low)
    ensures StoredRank(High) < StoredRank(Low)
    ensures LexLess(PriorityName(High), PriorityName(Low))
  {
    StoredRankIsNameOrder(High, Low);
  }

  /** All columns of a recommendation that the model uses; times are seconds. */
  datatype RecommendationRow = RecommendationRow(
    id: Uuid,
    userId: Uuid,
    kind: RecommendationType,
    title: string,
    description: Option<string>,
    topic: Option<string>,
    reason: Option<string>,
    priority: Priority,
    isDismissed: bool,
    isCompleted: bool,
    dismissedAt: Option<int>,
    completedAt: Option<int>,
    expiresAt: Option<int>,
    createdAt: int)

  /** `isExpired` at time `now`: there is an expiry, and `now` is after it. */
  predicate ExpiredAt(r: RecommendationRow, now: int) {
    r.expiresAt.Some? && now > r.expiresAt.value
  }

  /** `isActive` at time `now`. */
  predicate ActiveAt(r: RecommendationRow, now: int) {
    !r.isDismissed && !r.isCompleted && !ExpiredAt(r, now)
  }

  /** `dismiss` at time `now`. */
  function Dismissed(r: RecommendationRow, now: int): (s: RecommendationRow)
    ensures s.isDismissed && s.dismissedAt == Some(now) && s.isCompleted == r.isCompleted
    ensures s == r.(isDismissed := true, dismissedAt := Some(now))
  {
    r.(isDismissed := true, dismissedAt := Some(now))
  }

  /** `complete` at time `now`. */
  function Completed(r: RecommendationRow, now: int): (s: RecommendationRow)
    ensures s.isCompleted && s.completedAt == Some(now) && s.isDismissed == r.isDismissed
    ensures s == r.(isCompleted := true, completedAt := Some(now))
  {
    r.(isCompleted := true, completedAt := Some(now))
  }

  /** Once dismissed or completed, a recommendation is never active again, at any time. */
  lemma ClosedIsNeverActive(r: RecommendationRow, now: int, later: int)
    ensures !ActiveAt(Dismissed(r, now), later) && !ActiveAt(Completed(r, now), later)
  {
  }

  /** An active recommendation stays active at earlier times, and an expired one at later times. */
  lemma ExpiryIsMonotone(r: RecommendationRow, t: int, u: int)
    requires t <= u
    ensures ExpiredAt(r, t) ==> ExpiredAt(r, u)
    ensures ActiveAt(r, u) ==> ActiveAt(r, t)
  {
  }

  /** Dismissing or completing twice is the same as once, but for the time stamp. */
  lemma CloseIdempotent(r: RecommendationRow, now: int, later: int)
    ensures Dismissed(Dismissed(r, now), later) == Dismissed(r, later)
    ensures Completed(Completed(r, now), later) == Completed(r, later)
  {
  }

  class Recommendation {
    var id: Uuid
    var userId: Uuid
    var kind: RecommendationType
    var title: string
    var description: Option<string>
    var topic: Option<string>
    var reason: Option<string>
    var priority: Priority
    var isDismissed: bool
    var isCompleted: bool
    var dismissedAt: Option<int>
    var completedAt: Option<int>
    var expiresAt: Option<int>
    var createdAt: int

    function Row(): RecommendationRow
      reads this
    {
      RecommendationRow(id, userId, kind, title, description, topic, reason, priority,
                        isDismissed, isCompleted, dismissedAt, completedAt, expiresAt, createdAt)
    }

    /** A recommendation persisted at time `now`, with the field defaults: MEDIUM, neither flag set. */
    constructor (recId: Uuid, user: Uuid, recKind: RecommendationType, recTitle: string, now: int)
      ensures Row() == RecommendationRow(recId, user, recKind, recTitle, None, None, None, Medium,
                                         false, false, None, None, None, now)
    {
      id, userId, kind, title := recId, user, recKind, recTitle;
      description, topic, reason, priority := None, None, None, Medium;
      isDismissed, isCompleted, dismissedAt, completedAt := false, false, None, None;
      expiresAt, createdAt := None, now;
    }

    /** `dismiss` at time `now`. */
    method Dismiss(now: int)
      modifies this`isDismissed, this`dismissedAt
      ensures Row() == Dismissed(old(Row()), now)
    {
      isDismissed := true;
      dismissedAt := Some(now);
    }

    /** `complete` at time `now`. */
    method Complete(now: int)
      modifies this`isCompleted, this`completedAt
      ensures Row() == Completed(old(Row()), now)
    {
      isCompleted := true;
      completedAt := Some(now);
    }

    predicate IsExpired(now: int)
      reads this
    {
      ExpiredAt(Row(), now)
    }

    predicate IsActive(now: int)
      reads this
    {
      ActiveAt(Row(), now)
    }
  }

  /**
   * The object's `isExpired` and `isActive`: a recommendation without an
   * expiry never expires, an expired one stays expired and inactive, and an
   * active one was active at every earlier time.
   */
  lemma RecommendationStatus(rec: Recommendation, now: int, later: int)
    requires now <= later
    ensures rec.expiresAt.None? ==> !rec.IsExpired(later)
    ensures rec.IsExpired(now) ==> rec.IsExpired(later) && !rec.IsActive(later)
    ensures rec.IsActive(later) ==> rec.IsActive(now)
    ensures rec.IsActive(now) ==> !rec.isDismissed && !rec.isCompleted && !rec.IsExpired(now)
  {
    ExpiryIsMonotone(rec.Row(), now, later);
  }
}
