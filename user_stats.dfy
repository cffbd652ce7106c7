/**
 * The per-user gamification ledger (`UserStats`): XP totals, activity
 * counters, the daily streak and the level curve. The entity is a class
 * whose methods update its fields in place; `StatsRow` is the value of
 * all its fields at one moment, the form in which the ledger is stored.
 */
module UserStatsModel {
  import opened Common

  type UserId = Uuid

  datatype StatsRow = StatsRow(
    userId: UserId,
    totalXp: int, weeklyXp: int, monthlyXp: int,
    explanationsRequested: int, quizzesCompleted: int, quizzesPassed: int,
    flashcardsStudied: int, flashcardsMastered: int,
    focusSessionsCompleted: int, totalStudyTimeMinutes: int,
    currentStreak: int, longestStreak: int, lastActivityDate: Option<int>,
    level: int, xpForNextLevel: int)

  /* ---------------- the level curve ---------------- */

  /** `x * x`, built by repeated addition so that every step is linear. */
  function Sq(x: nat): nat {
    if x == 0 then 0 else Sq(x - 1) + 2 * x - 1
  }

  lemma {:induction false} SqIsProduct(x: nat)
    ensures Sq(x) == x * x
  {
    if x > 0 {
      SqIsProduct(x - 1);
      assert (x - 1) * (x - 1) == x * x - 2 * x + 1;
    }
  }

  lemma {:induction false} SqMonotone(a: nat, b: nat)
    requires a <= b
    ensures Sq(a) <= Sq(b)
    decreases b - a
  {
    if a < b {
      SqMonotone(a, b - 1);
    }
  }

  lemma SqSucc(x: nat)
    ensures Sq(x + 1) == Sq(x) + 2 * x + 1
  {
  }

  lemma SqDouble(x: nat)
    ensures Sq(2 * x) == 4 * Sq(x)
  {
    SqIsProduct(x);
    SqIsProduct(2 * x);
  }

  /** `n * n * n`, built the same way. */
  function Cube(n: nat): nat {
    if n == 0 then 0 else Cube(n - 1) + 3 * Sq(n - 1) + 3 * (n - 1) + 1
  }

  lemma CubeExpand(k: int)
    ensures (k + 1) * (k + 1) * (k + 1) == k * k * k + 3 * (k * k) + 3 * k + 1
  {
    var q := k * k;
    assert (k + 1) * (k + 1) == q + 2 * k + 1;
    assert (q + 2 * k + 1) * (k + 1) == q * k + q + 2 * q + 3 * k + 1;
    assert q * k == k * k * k;
  }

  lemma {:induction false} CubeIsProduct(n: nat)
    ensures Cube(n) == n * n * n
  {
    if n > 0 {
      CubeIsProduct(n - 1);
      SqIsProduct(n - 1);
      CubeExpand(n - 1);
    }
  }

  lemma CubeSucc(n: nat)
    ensures Cube(n + 1) == Cube(n) + 3 * Sq(n) + 3 * n + 1
  {
  }

  /** The integer square root: the largest `r` with `r * r <= m`. */
  function IntSqrt(m: nat): (r: nat)
    ensures Sq(r) <= m < Sq(r + 1)
    decreases m
  {
    if m == 0 then 0
    else
      var s := IntSqrt(m / 4);
      SqDouble(s);
      SqDouble(s + 1);
      if Sq(2 * s + 1) <= m then 2 * s + 1 else 2 * s
  }

  /** `r` is `floor(100 * n^1.5)`: the largest natural whose square is at most `10000 * n^3`. */
  predicate IsCurve(n: nat, r: nat) {
    r * r <= 10000 * (n * n * n) < (r + 1) * (r + 1)
  }

  /** The same condition on the linear `Sq` and `Cube`, which the induction proofs use. */
  lemma CurveBySquares(n: nat, r: nat)
    ensures IsCurve(n, r) <==> Sq(r) <= 10000 * Cube(n) < Sq(r + 1)
  {
    SqIsProduct(r);
    SqIsProduct(r + 1);
    CubeIsProduct(n);
  }

  lemma {:induction false} SqAtLeast(r: nat)
    ensures r <= Sq(r)
  {
    if r > 0 {
      SqAtLeast(r - 1);
    }
  }

  lemma CurveUnique(n: nat)
    ensures forall a: nat, b: nat :: IsCurve(n, a) && IsCurve(n, b) ==> a == b
  {
    forall a: nat, b: nat | IsCurve(n, a) && IsCurve(n, b)
      ensures a == b
    {
      CurveBySquares(n, a);
      CurveBySquares(n, b);
      if a < b {
        SqMonotone(a + 1, b);
      } else if b < a {
        SqMonotone(b + 1, a);
      }
    }
  }

  lemma CurveExists(n: nat)
    ensures IsCurve(n, IntSqrt(10000 * Cube(n)))
  {
    CurveBySquares(n, IntSqrt(10000 * Cube(n)));
  }

  lemma CurveRootBound(n: nat)
    ensures IntSqrt(10000 * Cube(n)) <= 10000 * (n * n * n)
  {
    var r := IntSqrt(10000 * Cube(n));
    SqAtLeast(r);
    CubeIsProduct(n);
  }

  /** `calculateXpForLevel(n)`, i.e. `(int)(100 * n^1.5)`, computed exactly. */
  function XpForLevel(n: nat): (r: nat)
    ensures r >= 100 * n
  {
    CurveExists(n);
    CurveRootBound(n);
    CurveUnique(n);
    var r: nat :| r <= 10000 * (n * n * n) && IsCurve(n, r);
    CurveAtLeastLine(n, r);
    r
  }

  lemma SqShift100(a: nat)
    ensures Sq(a + 100) == Sq(a) + 200 * a + 10000
  {
    SqIsProduct(a);
    SqIsProduct(a + 100);
  }

  /** `(100 * n)^2 <= 10000 * n^3`, by induction on `n`. */
  lemma {:induction false} CurveAboveLine(n: nat)
    ensures Sq(100 * n) <= 10000 * Cube(n)
  {
    if n > 0 {
      CurveAboveLine(n - 1);
      SqShift100(100 * (n - 1));
      assert 100 * (n - 1) + 100 == 100 * n;
      CubeSucc(n - 1);
    }
  }

  lemma MulMonotone(a: nat, b: nat, c: nat)
    requires b <= c
    ensures a * b <= a * c
  {
  }

  lemma CubeBelowFourthProduct(n: nat)
    ensures n * n * n <= (n * n) * (n * n)
  {
    var c := n * n * n;
    assert c * n == (n * n) * (n * n);
    if n > 0 {
      MulMonotone(c, 1, n);
    }
  }

  /** `n^3 <= n^4`. */
  lemma CubeBelowFourth(n: nat)
    ensures Cube(n) <= Sq(Sq(n))
  {
    CubeIsProduct(n);
    SqIsProduct(n);
    SqIsProduct(n * n);
    CubeBelowFourthProduct(n);
  }

  lemma {:induction false} SqScale100(x: nat)
    ensures Sq(100 * x) == 10000 * Sq(x)
  {
    if x > 0 {
      SqScale100(x - 1);
      SqShift100(100 * (x - 1));
      assert 100 * (x - 1) + 100 == 100 * x;
    }
  }

  /** A natural whose square is at most `10000 * m^2` is at most `100 * m`. */
  lemma RootBelow(r: nat, m: nat)
    requires Sq(r) <= 10000 * Sq(m)
    ensures r <= 100 * m
  {
    SqScale100(m);
    SqSucc(100 * m);
    if r > 100 * m {
      SqMonotone(100 * m + 1, r);
    }
  }

  /** A natural whose square is at most `10000 * n^3` is at most `100 * n^2`. */
  lemma BelowQuadratic(n: nat, r: nat)
    requires Sq(r) <= 10000 * Cube(n)
    ensures r <= 100 * Sq(n)
  {
    CubeBelowFourth(n);
    RootBelow(r, Sq(n));
  }

  /** The curve grows at least linearly: `100 * n <= 100 * n^1.5`. */
  lemma CurveAtLeastLine(n: nat, r: nat)
    requires IsCurve(n, r)
    ensures r >= 100 * n
  {
    CurveBySquares(n, r);
    CurveAboveLine(n);
    if r < 100 * n {
      SqMonotone(r + 1, 100 * n);
    }
  }

  /** `100 * n^1.5 <= 100 * n^2`. */
  lemma XpForLevelAtMost(n: nat)
    ensures XpForLevel(n) <= 100 * Sq(n)
  {
    CurveBySquares(n, XpForLevel(n));
    BelowQuadratic(n, XpForLevel(n));
  }

  lemma CurveRootsIncrease(n: nat, r: nat, q: nat)
    requires Sq(r) <= 10000 * Cube(n) && r <= 100 * Sq(n)
    requires 10000 * Cube(n + 1) < Sq(q + 1)
    ensures r < q
  {
    SqSucc(r);
    CubeSucc(n);
    if q < r + 1 {
      SqMonotone(q + 1, r + 1);
    }
  }

  /** Each level needs strictly more XP than the one before. */
  lemma XpForLevelStep(n: nat)
    ensures XpForLevel(n) < XpForLevel(n + 1)
  {
    var r := XpForLevel(n);
    var q := XpForLevel(n + 1);
    CurveBySquares(n, r);
    CurveBySquares(n + 1, q);
    BelowQuadratic(n, r);
    CurveRootsIncrease(n, r, q);
  }

  lemma {:induction false} XpForLevelIncreasing(n: nat, m: nat)
    requires n < m
    ensures XpForLevel(n) < XpForLevel(m)
    decreases m - n
  {
    XpForLevelStep(n);
    if n + 1 < m {
      XpForLevelIncreasing(n + 1, m);
    }
  }

  lemma CurveAt(n: nat, r: nat)
    requires IsCurve(n, r)
    ensures XpForLevel(n) == r
  {
    CurveUnique(n);
  }

  /** The thresholds the first levels actually use. */
  lemma XpForLevelValues()
    ensures XpForLevel(1) == 100 && XpForLevel(2) == 282 && XpForLevel(3) == 519
    ensures XpForLevel(4) == 800 && XpForLevel(5) == 1118
  {
    CurveAt(1, 100);
    CurveAt(2, 282);
    CurveAt(3, 519);
    CurveAt(4, 800);
    CurveAt(5, 1118);
  }

  /* ---------------- levelling ---------------- */

  /**
   * What the level-up loop of `addXp` computes: starting from (`level`,
   * `next`), climb one level while the total reaches the threshold, each
   * new threshold being the curve at the level after the new one.
   */
  function Settle(totalXp: int, level: int, next: int): (int, int)
    requires level >= 1 && next >= 100 * level
    decreases totalXp - 100 * level
  {
    if totalXp < next then (level, next)
    else
      Settle(totalXp, level + 1, XpForLevel(level + 2))
  }

  /** What the settled pair satisfies: at least the start level, above the total, and reached by the total. */
  lemma {:induction false} SettleFacts(totalXp: int, level: int, next: int)
    requires level >= 1 && next >= 100 * level
    ensures var r := Settle(totalXp, level, next);
      && r.0 >= level && totalXp < r.1
      && (r.0 == level <==> totalXp < next)
      && (r.0 == level ==> r.1 == next)
      && (r.0 > level ==> r.1 == XpForLevel(r.0 + 1))
      && (r.0 > level ==> totalXp >= (if r.0 == level + 1 then next else XpForLevel(r.0)))
    decreases totalXp - 100 * level
  {
    if totalXp >= next {
      SettleFacts(totalXp, level + 1, XpForLevel(level + 2));
    }
  }

  /** One round of the level-up loop. */
  lemma SettleStep(totalXp: int, level: int, next: int)
    requires level >= 1 && next >= 100 * level && totalXp >= next
    ensures XpForLevel(level + 2) >= 100 * (level + 1)
    ensures Settle(totalXp, level, next) == Settle(totalXp, level + 1, XpForLevel(level + 2))
  {
  }

  /** Settling at a smaller total and then at a larger one is settling at the larger one. */
  lemma {:induction false} SettleCompose(t1: int, t2: int, level: int, next: int)
    requires level >= 1 && next >= 100 * level && t1 <= t2
    ensures Settle(t1, level, next).0 >= level
    ensures Settle(t1, level, next).1 >= 100 * Settle(t1, level, next).0
    ensures Settle(t2, Settle(t1, level, next).0, Settle(t1, level, next).1) == Settle(t2, level, next)
    decreases t1 - 100 * level
  {
    if t1 >= next {
      SettleCompose(t1, t2, level + 1, XpForLevel(level + 2));
    }
  }

  /**
   * The ledger invariant of the level fields: the level is at least 1, the
   * total stays below the next threshold, that threshold is the fresh
   * default 100 at level 1 or the curve at the next level, and the total
   * has reached the threshold that led to the current level.
   */
  predicate LevelInvariant(totalXp: int, level: int, next: int) {
    level >= 1 && totalXp >= 0 && totalXp < next
    && ((level == 1 && next == 100) || next == XpForLevel(level + 1))
    && (level == 2 ==> totalXp >= 100)
    && (level >= 3 ==> totalXp >= XpForLevel(level))
  }

  /** The invariant every stored ledger keeps. */
  predicate RowValid(r: StatsRow) {
    LevelInvariant(r.totalXp, r.level, r.xpForNextLevel)
    && 0 <= r.weeklyXp <= r.totalXp && 0 <= r.monthlyXp <= r.totalXp
    && 0 <= r.quizzesPassed <= r.quizzesCompleted
    && 0 <= r.currentStreak <= r.longestStreak
  }

  lemma ValidThreshold(r: StatsRow)
    requires RowValid(r)
    ensures r.xpForNextLevel >= 100 * r.level
  {
  }

  /** The ledger of a user who has never earned XP. */
  function FreshRow(user: UserId): (r: StatsRow)
    ensures RowValid(r)
    ensures r.totalXp == 0 && r.level == 1 && r.xpForNextLevel == 100 && r.lastActivityDate == None
  {
    StatsRow(user, 0, 0, 0, 0, 0, 0, 0, 0, 0, 0, 0, 0, None, 1, 100)
  }

  /** The climb of `addXp`: one level at a time while the total reaches the threshold. */
  method Climb(totalXp: int, level: int, next: int) returns (l: int, n: int, leveledUp: bool)
    requires level >= 1 && next >= 100 * level
    ensures (l, n) == Settle(totalXp, level, next)
    ensures leveledUp <==> l > level
  {
    l, n, leveledUp := level, next, false;
    while totalXp >= n
      invariant l >= level && n >= 100 * l
      invariant Settle(totalXp, l, n) == Settle(totalXp, level, next)
      invariant leveledUp <==> l > level
      decreases totalXp - 100 * l
    {
      SettleStep(totalXp, l, n);
      l := l + 1;
      n := XpForLevel(l + 1);
      leveledUp := true;
    }
  }

  /**
   * The ledger after `addXp(xp)`: all three totals move by `xp` and the level
   * settles. Nothing stops a negative `xp`: the totals then fall, the climb
   * does not start, and the ledger invariant survives only a non-negative award.
   */
  function GainXp(r: StatsRow, xp: int): (s: StatsRow)
    requires RowValid(r)
    ensures xp >= 0 ==> RowValid(s)
    ensures xp < 0 ==> s.level == r.level && s.xpForNextLevel == r.xpForNextLevel
    ensures s.totalXp == r.totalXp + xp && s.weeklyXp == r.weeklyXp + xp && s.monthlyXp == r.monthlyXp + xp
    ensures s.level >= r.level
    ensures s.level > r.level <==> r.totalXp + xp >= r.xpForNextLevel
    ensures s == r.(totalXp := s.totalXp, weeklyXp := s.weeklyXp, monthlyXp := s.monthlyXp,
                    level := s.level, xpForNextLevel := s.xpForNextLevel)
  {
    ValidThreshold(r);
    var t := r.totalXp + xp;
    SettleFacts(t, r.level, r.xpForNextLevel);
    var (l, n) := Settle(t, r.level, r.xpForNextLevel);
    r.(totalXp := t, weeklyXp := r.weeklyXp + xp, monthlyXp := r.monthlyXp + xp, level := l, xpForNextLevel := n)
  }

  /** An award that stays below the threshold leaves the level and the threshold as they were. */
  lemma GainXpBelowThreshold(r: StatsRow, xp: int)
    requires RowValid(r) && r.totalXp + xp < r.xpForNextLevel
    ensures GainXp(r, xp).level == r.level && GainXp(r, xp).xpForNextLevel == r.xpForNextLevel
  {
    ValidThreshold(r);
  }

  /** Two awards in a row leave the ledger as one award of their sum. */
  lemma GainXpTwice(r: StatsRow, a: int, b: int)
    requires RowValid(r) && a >= 0 && b >= 0
    ensures GainXp(GainXp(r, a), b) == GainXp(r, a + b)
  {
    ValidThreshold(r);
    SettleCompose(r.totalXp + a, r.totalXp + a + b, r.level, r.xpForNextLevel);
  }

  /** A single award can climb several levels: 1000 XP take a fresh ledger to level 4. */
  lemma GainXpSeveralLevels(user: UserId)
    ensures GainXp(FreshRow(user), 1000).level == 4
    ensures GainXp(FreshRow(user), 1000).xpForNextLevel == 1118
  {
    XpForLevelValues();
    assert Settle(1000, 4, 1118) == (4, 1118);
    assert Settle(1000, 3, 800) == (4, 1118);
    assert Settle(1000, 2, 519) == (4, 1118);
  }

  /** On a fresh ledger the first level-up comes at 100 XP, not at the curve's 282. */
  lemma FreshLevelTwoAtHundred(user: UserId)
    ensures GainXp(FreshRow(user), 99).level == 1
    ensures GainXp(FreshRow(user), 100).level == 2
    ensures GainXp(FreshRow(user), 100).xpForNextLevel == 519
  {
    XpForLevelValues();
    assert Settle(100, 2, 519) == (2, 519);
  }

  /* ---------------- level progress ---------------- */

  /** `getLevelProgressPercentage()`, in exact arithmetic. */
  function LevelProgress(level: int, totalXp: int, next: int): real {
    var current := if level > 1 then XpForLevel(level) else 0;
    var needed := next - current;
    if needed <= 0 then 100.0 else (totalXp - current) as real / needed as real * 100.0
  }

  lemma RatioBounds(a: int, b: int)
    requires 0 <= a < b
    ensures 0.0 <= a as real / b as real * 100.0 < 100.0
  {
    var q := a as real / b as real;
    assert q * b as real == a as real;
  }

  /** Progress lies in [0, 100) except for level-2 ledgers below the curve's 282. */
  lemma LevelProgressBounds(r: StatsRow)
    requires RowValid(r)
    requires r.level != 2 || r.totalXp >= XpForLevel(r.level)
    ensures 0.0 <= LevelProgress(r.level, r.totalXp, r.xpForNextLevel) < 100.0
  {
    if r.level > 1 {
      XpForLevelStep(r.level);
      RatioBounds(r.totalXp - XpForLevel(r.level), r.xpForNextLevel - XpForLevel(r.level));
    } else {
      RatioBounds(r.totalXp, r.xpForNextLevel);
    }
  }

  /** A level-2 ledger below the curve's 282 XP reports a negative progress. */
  lemma LevelTwoProgressNegative(r: StatsRow)
    requires RowValid(r) && r.level == 2 && r.totalXp < XpForLevel(r.level)
    ensures LevelProgress(r.level, r.totalXp, r.xpForNextLevel) < 0.0
  {
    XpForLevelStep(r.level);
    var a := r.totalXp - XpForLevel(r.level);
    var b := r.xpForNextLevel - XpForLevel(r.level);
    var q := a as real / b as real;
    assert q * b as real == a as real;
  }

  lemma LevelProgressFacts(r: StatsRow)
    ensures RowValid(r) && (r.level != 2 || r.totalXp >= XpForLevel(r.level)) ==>
              0.0 <= LevelProgress(r.level, r.totalXp, r.xpForNextLevel) < 100.0
    ensures RowValid(r) && r.level == 2 && r.totalXp < XpForLevel(r.level) ==>
              LevelProgress(r.level, r.totalXp, r.xpForNextLevel) < 0.0
  {
    if RowValid(r) && (r.level != 2 || r.totalXp >= XpForLevel(r.level)) {
      LevelProgressBounds(r);
    }
    if RowValid(r) && r.level == 2 && r.totalXp < XpForLevel(r.level) {
      LevelTwoProgressNegative(r);
    }
  }

  /* ---------------- streak ---------------- */

  /** The streak after activity on day `today`, given the last active day. */
  function NextStreak(last: Option<int>, current: int, today: int): int {
    match last
    case None => 1
    case Some(d) =>
      if d == today - 1 then current + 1
      else if d != today then 1
      else current
  }

  /** `updateStreak()` on a ledger, with the calendar day as a parameter. */
  function StreakStep(r: StatsRow, today: int): (s: StatsRow)
    ensures s.lastActivityDate == Some(today)
    ensures s.longestStreak == Max(r.longestStreak, s.currentStreak)
    ensures RowValid(r) ==> RowValid(s)
    ensures s == r.(currentStreak := s.currentStreak, longestStreak := s.longestStreak, lastActivityDate := s.lastActivityDate)
  {
    var c := NextStreak(r.lastActivityDate, r.currentStreak, today);
    r.(currentStreak := c, longestStreak := if c > r.longestStreak then c else r.longestStreak,
       lastActivityDate := Some(today))
  }

  /** Activity on each of the `k` days first, first+1, ..., first+k-1. */
  function ActiveOnDays(r: StatsRow, first: int, k: nat): StatsRow
    decreases k
  {
    if k == 0 then r else StreakStep(ActiveOnDays(r, first, k - 1), first + k - 1)
  }

  /** Activity on consecutive days extends the streak by one per day. */
  lemma {:induction false} ConsecutiveDaysExtendStreak(r: StatsRow, first: int, k: nat)
    requires r.lastActivityDate == Some(first - 1) && r.currentStreak <= r.longestStreak
    ensures ActiveOnDays(r, first, k).currentStreak == r.currentStreak + k
    ensures ActiveOnDays(r, first, k).longestStreak >= r.currentStreak + k
    ensures k > 0 ==> ActiveOnDays(r, first, k).lastActivityDate == Some(first + k - 1)
    ensures k == 0 ==> ActiveOnDays(r, first, k).lastActivityDate == Some(first - 1)
    decreases k
  {
    if k > 0 {
      ConsecutiveDaysExtendStreak(r, first, k - 1);
      var prev := ActiveOnDays(r, first, k - 1);
      assert prev.lastActivityDate == Some(first + k - 2);
      var s := StreakStep(prev, first + k - 1);
      assert ActiveOnDays(r, first, k) == s;
      assert s.currentStreak == prev.currentStreak + 1;
      assert s.longestStreak >= s.currentStreak;
    }
  }

  /** A second activity on the same day changes nothing. */
  lemma StreakSameDay(r: StatsRow, today: int)
    ensures StreakStep(StreakStep(r, today), today) == StreakStep(r, today)
  {
  }

  /** A missed day, a date in the future or no previous activity restarts the streak at 1. */
  lemma StreakRestarts(r: StatsRow, today: int)
    requires r.lastActivityDate.None? || r.lastActivityDate.value < today - 1 || r.lastActivityDate.value > today
    ensures StreakStep(r, today).currentStreak == 1
  {
  }

  /* ---------------- counters ---------------- */

  function CountExplanation(r: StatsRow): (s: StatsRow)
    ensures RowValid(r) ==> RowValid(s)
    ensures s == r.(explanationsRequested := r.explanationsRequested + 1)
  {
    r.(explanationsRequested := r.explanationsRequested + 1)
  }

  function CountQuiz(r: StatsRow, passed: bool): (s: StatsRow)
    ensures RowValid(r) ==> RowValid(s)
    ensures s.quizzesCompleted == r.quizzesCompleted + 1
    ensures s.quizzesPassed == r.quizzesPassed + (if passed then 1 else 0)
    ensures s == r.(quizzesCompleted := s.quizzesCompleted, quizzesPassed := s.quizzesPassed)
  {
    r.(quizzesCompleted := r.quizzesCompleted + 1,
       quizzesPassed := if passed then r.quizzesPassed + 1 else r.quizzesPassed)
  }

  function CountFlashcards(r: StatsRow, count: int): (s: StatsRow)
    ensures RowValid(r) ==> RowValid(s)
    ensures s == r.(flashcardsStudied := r.flashcardsStudied + count)
  {
    r.(flashcardsStudied := r.flashcardsStudied + count)
  }

  function CountFocusSession(r: StatsRow, minutes: int): (s: StatsRow)
    ensures RowValid(r) ==> RowValid(s)
    ensures s == r.(focusSessionsCompleted := r.focusSessionsCompleted + 1,
                    totalStudyTimeMinutes := r.totalStudyTimeMinutes + minutes)
  {
    r.(focusSessionsCompleted := r.focusSessionsCompleted + 1,
       totalStudyTimeMinutes := r.totalStudyTimeMinutes + minutes)
  }

  /* ---------------- the entity ---------------- */

  class UserStats {
    const userId: UserId
    var totalXp: int
    var weeklyXp: int
    var monthlyXp: int
    var explanationsRequested: int
    var quizzesCompleted: int
    var quizzesPassed: int
    var flashcardsStudied: int
    var flashcardsMastered: int
    var focusSessionsCompleted: int
    var totalStudyTimeMinutes: int
    var currentStreak: int
    var longestStreak: int
    var lastActivityDate: Option<int>
    var level: int
    var xpForNextLevel: int

    /** The values of all fields. */
    function Row(): StatsRow
      reads this
    {
      StatsRow(userId, totalXp, weeklyXp, monthlyXp, explanationsRequested, quizzesCompleted,
               quizzesPassed, flashcardsStudied, flashcardsMastered, focusSessionsCompleted,
               totalStudyTimeMinutes, currentStreak, longestStreak, lastActivityDate, level,
               xpForNextLevel)
    }

    ghost predicate Valid()
      reads this
    {
      RowValid(Row())
    }

    /** A new ledger with the field defaults. */
    constructor (user: UserId)
      ensures Row() == FreshRow(user) && Valid()
    {
      userId := user;
      totalXp, weeklyXp, monthlyXp := 0, 0, 0;
      explanationsRequested, quizzesCompleted, quizzesPassed := 0, 0, 0;
      flashcardsStudied, flashcardsMastered := 0, 0;
      focusSessionsCompleted, totalStudyTimeMinutes := 0, 0;
      currentStreak, longestStreak, lastActivityDate := 0, 0, None;
      level, xpForNextLevel := 1, 100;
    }

    /** The entity loaded from a stored row. */
    constructor Load(r: StatsRow)
      ensures Row() == r
    {
      userId := r.userId;
      totalXp, weeklyXp, monthlyXp := r.totalXp, r.weeklyXp, r.monthlyXp;
      explanationsRequested, quizzesCompleted, quizzesPassed := r.explanationsRequested, r.quizzesCompleted, r.quizzesPassed;
      flashcardsStudied, flashcardsMastered := r.flashcardsStudied, r.flashcardsMastered;
      focusSessionsCompleted, totalStudyTimeMinutes := r.focusSessionsCompleted, r.totalStudyTimeMinutes;
      currentStreak, longestStreak, lastActivityDate := r.currentStreak, r.longestStreak, r.lastActivityDate;
      level, xpForNextLevel := r.level, r.xpForNextLevel;
    }

    /** `addXp`: credit the three totals, then climb levels while the total reaches the threshold. */
    method AddXp(xp: int) returns (leveledUp: bool)
      requires Valid()
      modifies this
      ensures Row() == GainXp(old(Row()), xp)
      ensures leveledUp <==> level > old(level)
      ensures xp >= 0 ==> Valid()
    {
      ghost var start := Row();
      ValidThreshold(start);
      totalXp := totalXp + xp;
      weeklyXp := weeklyXp + xp;
      monthlyXp := monthlyXp + xp;
      ghost var credited := Row();
      var l, n;
      l, n, leveledUp := Climb(totalXp, level, xpForNextLevel);
      assert GainXp(start, xp) == credited.(level := l, xpForNextLevel := n);
      SetLevel(l, n);
    }

    /** The level and its threshold once the climb has settled. */
    method SetLevel(l: int, n: int)
      modifies this
      ensures Row() == old(Row()).(level := l, xpForNextLevel := n)
    {
      level, xpForNextLevel := l, n;
    }

    /** `updateStreak` for activity on calendar day `today`. */
    method UpdateStreak(today: int)
      modifies this
      ensures Row() == StreakStep(old(Row()), today)
      ensures currentStreak == NextStreak(old(lastActivityDate), old(currentStreak), today)
      ensures old(Valid()) ==> Valid()
    {
      if lastActivityDate.None? {
        currentStreak := 1;
      } else if lastActivityDate.value == today - 1 {
        currentStreak := currentStreak + 1;
      } else if lastActivityDate.value != today {
        currentStreak := 1;
      }
      if currentStreak > longestStreak {
        longestStreak := currentStreak;
      }
      lastActivityDate := Some(today);
    }

    /** `getLevelProgressPercentage`. */
    function LevelProgressPercentage(): (p: real)
      reads this
      ensures Valid() && (level != 2 || totalXp >= XpForLevel(level)) ==> 0.0 <= p < 100.0
      ensures Valid() && level == 2 && totalXp < XpForLevel(level) ==> p < 0.0
    {
      LevelProgressFacts(Row());
      LevelProgress(level, totalXp, xpForNextLevel)
    }

    method IncrementExplanations()
      modifies this
      ensures Row() == CountExplanation(old(Row()))
      ensures old(Valid()) ==> Valid()
    {
      explanationsRequested := explanationsRequested + 1;
    }

    method IncrementQuizzesCompleted(passed: bool)
      modifies this
      ensures Row() == CountQuiz(old(Row()), passed)
      ensures old(Valid()) ==> Valid()
    {
      quizzesCompleted := quizzesCompleted + 1;
      if passed {
        quizzesPassed := quizzesPassed + 1;
      }
    }

    method IncrementFlashcardsStudied(count: int)
      modifies this
      ensures Row() == CountFlashcards(old(Row()), count)
      ensures old(Valid()) ==> Valid()
    {
      flashcardsStudied := flashcardsStudied + count;
    }

    method IncrementFocusSessions(durationMinutes: int)
      modifies this
      ensures Row() == CountFocusSession(old(Row()), durationMinutes)
      ensures old(Valid()) ==> Valid()
    {
      focusSessionsCompleted := focusSessionsCompleted + 1;
      totalStudyTimeMinutes := totalStudyTimeMinutes + durationMinutes;
    }
  }
}
