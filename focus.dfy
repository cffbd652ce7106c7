/**
 * The browser's focus-mode timer: a session counts down its remaining
 * seconds and counts up its elapsed ones, earning 5 XP for every full two
 * minutes; its state lives in memory and in a stored copy that other pages
 * reload and catch up from the time of the last save. When the countdown
 * ends the session is posted to the server once and cleared. Times are
 * given as parameters: `now` is the clock in milliseconds.
 */
module Focus {
  import opened Common
  import opened Text
  import GamificationControllers

  /** The session state as saved: absent numbers are `None`. */
  datatype FocusState = FocusState(
    isRunning: bool,
    isPaused: bool,
    remainingSeconds: int,
    elapsedSeconds: Option<int>,
    earnedXp: Option<int>,
    lastUpdate: Option<int>)

  /** JavaScript's `x || 0` on a number that may be absent. */
  function OrZero(x: Option<int>): int {
    x.GetOr(0)
  }

  /** A number that may be absent is truthy when present and not zero. */
  predicate Truthy(x: Option<int>) {
    x.Some? && x.value != 0
  }

  /* ---------------- session predicates ---------------- */

  predicate IsActive(state: Option<FocusState>) {
    state.Some? && state.value.isRunning && !state.value.isPaused
  }

  predicate IsPaused(state: Option<FocusState>) {
    state.Some? && state.value.isRunning && state.value.isPaused
  }

  predicate IsInSession(state: Option<FocusState>) {
    state.Some? && state.value.isRunning
  }

  /** A session is either running or paused, never both, and there is none without a running state. */
  lemma SessionModes(state: Option<FocusState>)
    ensures !(IsActive(state) && IsPaused(state))
    ensures IsActive(state) ==> IsInSession(state)
    ensures IsPaused(state) ==> IsInSession(state)
    ensures IsInSession(state) ==> IsActive(state) || IsPaused(state)
  {
  }

  /* ---------------- XP ---------------- */

  /** 5 XP for every full 120 seconds (`Math.floor` is Dafny's division by a positive number). */
  function XpFor(elapsed: int): int {
    (elapsed / 120) * 5
  }

  /** The earned XP agrees with the elapsed time. */
  predicate XpConsistent(s: FocusState) {
    s.earnedXp == Some(XpFor(OrZero(s.elapsedSeconds)))
  }

  /** The XP is a multiple of 5, grows with the elapsed time, and 5 more every two minutes. */
  lemma XpSteps(a: int, b: int)
    requires a <= b
    ensures XpFor(a) % 5 == 0
    ensures XpFor(a) <= XpFor(b)
    ensures XpFor(a + 120) == XpFor(a) + 5
    ensures 0 <= a < 120 ==> XpFor(a) == 0
  {
    var q, r := a / 120, b / 120;
    assert 120 * q <= a < 120 * q + 120;
    assert 120 * r <= b < 120 * r + 120;
    assert q <= r;
    assert (a + 120) / 120 == q + 1;
  }

  /* ---------------- one tick and the catch-up ---------------- */

  /** A one-second tick of a running countdown, saved at time `now`. */
  function Ticked(s: FocusState, now: int): (t: FocusState)
    requires s.remainingSeconds > 0
    ensures t.remainingSeconds == s.remainingSeconds - 1 >= 0
    ensures OrZero(t.elapsedSeconds) == OrZero(s.elapsedSeconds) + 1
    ensures t.remainingSeconds + OrZero(t.elapsedSeconds) == s.remainingSeconds + OrZero(s.elapsedSeconds)
    ensures XpConsistent(t)
    ensures t.isRunning == s.isRunning && t.isPaused == s.isPaused && t.lastUpdate == Some(now)
  {
    var elapsed := OrZero(s.elapsedSeconds) + 1;
    s.(remainingSeconds := s.remainingSeconds - 1, elapsedSeconds := Some(elapsed),
       earnedXp := Some(XpFor(elapsed)), lastUpdate := Some(now))
  }

  /** The whole seconds since the last save; the division floors, as `Math.floor` does. */
  function Delay(s: FocusState, now: int): int
    requires s.lastUpdate.Some?
  {
    (now - s.lastUpdate.value) / 1000
  }

  /** The catch-up on reload runs for a running, unpaused session saved at least a second ago. */
  predicate CatchUpApplies(s: FocusState, now: int) {
    s.isRunning && !s.isPaused && Truthy(s.lastUpdate) && Delay(s, now) > 0
  }

  /** The catch-up for `e` missed seconds, saved at time `now`: the countdown is clamped at zero. */
  function CaughtUp(s: FocusState, e: int, now: int): (t: FocusState)
    requires e > 0
    ensures t.remainingSeconds == Max(0, s.remainingSeconds - e)
    ensures OrZero(t.elapsedSeconds) == OrZero(s.elapsedSeconds) + e
    ensures var before, after := s.remainingSeconds + OrZero(s.elapsedSeconds), t.remainingSeconds + OrZero(t.elapsedSeconds);
            after >= before && (after == before <==> s.remainingSeconds >= e)
    ensures XpConsistent(t)
    ensures t.isRunning == s.isRunning && t.isPaused == s.isPaused && t.lastUpdate == Some(now)
  {
    var elapsed := OrZero(s.elapsedSeconds) + e;
    s.(remainingSeconds := Max(0, s.remainingSeconds - e), elapsedSeconds := Some(elapsed),
       earnedXp := Some(XpFor(elapsed)), lastUpdate := Some(now))
  }

  /** Ticks and catch-ups never lower the XP of a consistent state. */
  lemma XpNeverDecreases(s: FocusState, e: int, now: int)
    requires XpConsistent(s) && OrZero(s.elapsedSeconds) >= 0
    ensures s.remainingSeconds > 0 ==> Ticked(s, now).earnedXp.value >= s.earnedXp.value
    ensures e > 0 ==> CaughtUp(s, e, now).earnedXp.value >= s.earnedXp.value
    ensures e > 0 ==> CaughtUp(s, e, now).earnedXp.value % 5 == 0
  {
    var a := OrZero(s.elapsedSeconds);
    XpSteps(a, a + 1);
    if e > 0 {
      XpSteps(a, a + e);
      XpSteps(a + e, a + e);
    }
  }

  /* ---------------- the session post ---------------- */

  /** The body of the focus-session post. */
  datatype Payload = Payload(durationMinutes: int, xpEarned: int)

  /** The post `saveSessionToBackend` sends: none without a session, elapsed time or login token. */
  function SessionPayload(state: Option<FocusState>, hasToken: bool): (p: Option<Payload>)
    ensures p.Some? <==> state.Some? && Truthy(state.value.elapsedSeconds) && hasToken
    ensures p.Some? ==> var e := state.value.elapsedSeconds.value;
              60 * p.value.durationMinutes <= e < 60 * p.value.durationMinutes + 60
              && p.value.xpEarned == OrZero(state.value.earnedXp)
  {
    if state.None? || !Truthy(state.value.elapsedSeconds) || !hasToken then None
    else Some(Payload(state.value.elapsedSeconds.value / 60, OrZero(state.value.earnedXp)))
  }

  /** The payload as the list of posts it adds. */
  function Posts(state: Option<FocusState>, hasToken: bool): (r: seq<Payload>)
    ensures |r| <= 1
  {
    match SessionPayload(state, hasToken)
    case None => []
    case Some(p) => [p]
  }

  /**
   * The server keeps the client's XP once the session has earned some,
   * i.e. from two minutes on; before that the client sends 0 and the
   * server's formula grants 1 XP for the under-ten-minute session.
   */
  lemma ServerAwardsClientXp(s: FocusState)
    requires XpConsistent(s) && OrZero(s.elapsedSeconds) > 0
    ensures var p := SessionPayload(Some(s), true).value;
            GamificationControllers.FocusXp(Some(p.xpEarned), p.durationMinutes)
              == if OrZero(s.elapsedSeconds) >= 120 then s.earnedXp.value else 1
  {
    var e := OrZero(s.elapsedSeconds);
    XpSteps(e, e);
    if e >= 120 {
      XpSteps(120, e);
      assert XpFor(120) == 5;
    } else {
      XpSteps(e, e);
      assert e / 60 <= 1;
      assert JavaDiv(e / 60, 10) == 0;
    }
  }

  /* ---------------- the page's whole state ---------------- */

  /** The in-memory state, the stored copy and the session posts sent so far. */
  datatype World = World(state: Option<FocusState>, stored: Option<FocusState>, sent: seq<Payload>)

  /** `handleTimerComplete`: the session is posted, then cleared from memory and storage. */
  function Completed(w: World, hasToken: bool): (v: World)
    ensures v.state.None? && v.stored.None?
    ensures v.sent == w.sent + Posts(w.state, hasToken)
  {
    World(None, None, w.sent + Posts(w.state, hasToken))
  }

  /**
   * `loadState` at time `now`: nothing stored clears the session; a stored
   * session is taken over and, when the catch-up applies, advanced by the
   * missed seconds and saved, and completed when its countdown is over.
   */
  function Loaded(w: World, hasToken: bool, now: int): (v: World)
    ensures w.stored.None? ==> v == w.(state := None)
    ensures w.stored.Some? && !CatchUpApplies(w.stored.value, now) ==> v == w.(state := w.stored)
    ensures w.stored.Some? && CatchUpApplies(w.stored.value, now) ==>
              var t := CaughtUp(w.stored.value, Delay(w.stored.value, now), now);
              v == if t.remainingSeconds <= 0 then Completed(World(Some(t), Some(t), w.sent), hasToken)
                   else World(Some(t), Some(t), w.sent)
  {
    if w.stored.None? then w.(state := None)
    else
      var s := w.stored.value;
      if !CatchUpApplies(s, now) then w.(state := Some(s))
      else
        var t := CaughtUp(s, Delay(s, now), now);
        var saved := World(Some(t), Some(t), w.sent);
        if t.remainingSeconds <= 0 then Completed(saved, hasToken) else saved
  }

  /**
   * One run of the timer's callback at time `now`: without an active
   * session the stored state is reloaded; otherwise a second is counted
   * and saved, or, with none left, the session is completed.
   */
  function AfterTick(w: World, hasToken: bool, now: int): (v: World)
    ensures !IsActive(w.state) ==> v == Loaded(w, hasToken, now)
    ensures IsActive(w.state) && w.state.value.remainingSeconds > 0 ==>
              v.state == v.stored == Some(Ticked(w.state.value, now)) && v.sent == w.sent
    ensures IsActive(w.state) && w.state.value.remainingSeconds <= 0 ==> v == Completed(w, hasToken)
  {
    if !IsActive(w.state) then Loaded(w, hasToken, now)
    else if w.state.value.remainingSeconds > 0 then
      var t := Ticked(w.state.value, now);
      World(Some(t), Some(t), w.sent)
    else Completed(w, hasToken)
  }

  /** While counting, a tick keeps remaining plus elapsed seconds and the XP in step with the time. */
  lemma TickWhileCounting(w: World, hasToken: bool, now: int)
    requires IsActive(w.state) && w.state.value.remainingSeconds > 0
    ensures var v := AfterTick(w, hasToken, now); var s, t := w.state.value, v.state.value;
            IsActive(v.state) && XpConsistent(t)
            && t.remainingSeconds + OrZero(t.elapsedSeconds) == s.remainingSeconds + OrZero(s.elapsedSeconds)
  {
  }

  /** Every step posts at most one session, and only when it ends the session. */
  lemma AtMostOnePost(w: World, hasToken: bool, now: int)
    ensures var v := AfterTick(w, hasToken, now);
            |w.sent| <= |v.sent| <= |w.sent| + 1 && v.sent[..|w.sent|] == w.sent
            && (|v.sent| > |w.sent| ==> v.state.None? && v.stored.None?)
  {
  }

  /** A session that never leaves zero remaining seconds ticks down to its end. */
  lemma TicksEndTheCountdown(w: World, hasToken: bool, now: int)
    requires IsActive(w.state) && w.state.value.remainingSeconds == 1
    ensures var v := AfterTick(AfterTick(w, hasToken, now), hasToken, now + 1000);
            v.state.None? && v.stored.None?
  {
    var t := Ticked(w.state.value, now);
    assert AfterTick(w, hasToken, now).state == Some(t);
  }

  /* ---------------- the page itself ---------------- */

  class FocusManager {
    var state: Option<FocusState>
    /** The stored copy, shared by all pages. */
    var stored: Option<FocusState>
    /** Whether a login token is stored. */
    var hasToken: bool
    /** The focus-session posts sent so far. */
    var sent: seq<Payload>

    function Snapshot(): World
      reads this
    {
      World(state, stored, sent)
    }

    constructor (savedState: Option<FocusState>, token: bool)
      ensures state.None? && stored == savedState && hasToken == token && sent == []
    {
      state, stored, hasToken, sent := None, savedState, token, [];
    }

    /** `saveState` at time `now`: the state is stamped and stored. */
    method SaveState(now: int)
      modifies this`state, this`stored
      ensures state == (if old(state).Some? then Some(old(state).value.(lastUpdate := Some(now))) else None)
      ensures stored == (if old(state).Some? then state else old(stored))
    {
      if state.Some? {
        state := Some(state.value.(lastUpdate := Some(now)));
        stored := state;
      }
    }

    /** `saveSessionToBackend`. */
    method SaveSessionToBackend()
      modifies this`sent
      ensures sent == old(sent) + Posts(state, hasToken)
    {
      var payload := SessionPayload(state, hasToken);
      if payload.Some? {
        sent := sent + [payload.value];
      }
    }

    /** `endSession`: the session leaves memory and storage. */
    method EndSession()
      modifies this`state, this`stored
      ensures state.None? && stored.None?
    {
      stored := None;
      state := None;
    }

    method HandleTimerComplete()
      modifies this`state, this`stored, this`sent
      ensures Snapshot() == Completed(old(Snapshot()), hasToken)
    {
      SaveSessionToBackend();
      EndSession();
    }

    method LoadState(now: int)
      modifies this`state, this`stored, this`sent
      ensures Snapshot() == Loaded(old(Snapshot()), hasToken, now)
    {
      if stored.None? {
        state := None;
        return;
      }
      state := stored;
      var s := state.value;
      if s.isRunning && !s.isPaused && Truthy(s.lastUpdate) {
        var elapsed := (now - s.lastUpdate.value) / 1000;
        if elapsed > 0 {
          var remaining := Max(0, s.remainingSeconds - elapsed);
          var total := OrZero(s.elapsedSeconds) + elapsed;
          state := Some(s.(remainingSeconds := remaining, elapsedSeconds := Some(total),
                           lastUpdate := Some(now), earnedXp := Some(XpFor(total))));
          SaveState(now);
          if remaining <= 0 {
            HandleTimerComplete();
          }
        }
      }
    }

    /** The timer's once-a-second callback at time `now`. */
    method Tick(now: int)
      modifies this`state, this`stored, this`sent
      ensures Snapshot() == AfterTick(old(Snapshot()), hasToken, now)
    {
      if !IsActive(state) {
        LoadState(now);
        return;
      }
      var s := state.value;
      if s.remainingSeconds > 0 {
        var total := OrZero(s.elapsedSeconds) + 1;
        state := Some(s.(remainingSeconds := s.remainingSeconds - 1, elapsedSeconds := Some(total),
                         earnedXp := Some(XpFor(total))));
        SaveState(now);
      } else {
        HandleTimerComplete();
      }
    }
  }

  /* ---------------- pages and the time display ---------------- */

  /** The allowed pages are these names followed by ".html". */
  const AllowedStems: seq<string> := ["focus", "quiz", "flashcards", "spiegazioni", "explanation"]
  const IndexPage: string := "index.html"
  const HtmlSuffix: string := ".html"

  function PageOf(stem: string): string {
    stem + HtmlSuffix
  }

  /** The text after the last '/', the last element `split('/')` gives. */
  function LastSegment(path: string): (r: string)
    ensures |r| <= |path| && r == path[|path| - |r|..]
    ensures '/' !in r
    ensures |r| < |path| ==> path[|path| - |r| - 1] == '/'
  {
    if path == [] || path[|path| - 1] == '/' then []
    else LastSegment(path[..|path| - 1]) + [path[|path| - 1]]
  }

  /** The page's file name, "index.html" for a path ending in '/'. */
  function FileName(path: string): (name: string)
    ensures name != []
    ensures LastSegment(path) != [] ==> name == LastSegment(path)
    ensures LastSegment(path) == [] ==> name == IndexPage
  {
    var last := LastSegment(path);
    if last == [] then IndexPage else last
  }

  /** The name `replace('.html', '')` leaves of a listed page: the part before its suffix. */
  function Stem(page: string): (stem: string)
    requires |page| >= |HtmlSuffix| && page[|page| - |HtmlSuffix|..] == HtmlSuffix
    ensures stem + HtmlSuffix == page
  {
    page[..|page| - |HtmlSuffix|]
  }

  /** The file matches a listed page: equal to it or containing its stem. */
  predicate Matches(name: string, stem: string) {
    name == PageOf(stem) || Contains(name, stem)
  }

  /** `isAllowedPage` on the path of the target address. */
  predicate AllowedPath(path: string) {
    exists k :: 0 <= k < |AllowedStems| && Matches(FileName(path), AllowedStems[k])
  }

  /** The stem of each listed page is the written-out name. */
  lemma StemOfPage(stem: string)
    ensures Stem(PageOf(stem)) == stem
  {
    var page := PageOf(stem);
    assert page[|page| - |HtmlSuffix|..] == HtmlSuffix;
    assert Stem(page) + HtmlSuffix == stem + HtmlSuffix;
    assert Stem(page) == (Stem(page) + HtmlSuffix)[..|stem|];
  }

  /** A page is allowed exactly when its file name contains a listed stem: equality adds nothing. */
  lemma AllowedByStem(path: string)
    ensures AllowedPath(path) <==>
              exists k :: 0 <= k < |AllowedStems| && Contains(FileName(path), AllowedStems[k])
  {
    forall k | 0 <= k < |AllowedStems| && FileName(path) == PageOf(AllowedStems[k])
      ensures Contains(FileName(path), AllowedStems[k])
    {
      var stem := AllowedStems[k];
      assert OccursAt(PageOf(stem), stem, 0) by { assert PageOf(stem)[..|stem|] == stem; }
    }
  }

  /** The name after the last '/' is the file name. */
  lemma {:induction false} LastSegmentAfterSlash(dir: string, name: string)
    requires '/' !in name
    ensures LastSegment(dir + "/" + name) == name
    decreases |name|
  {
    var path := dir + "/" + name;
    if name == [] {
      assert path[|path| - 1] == '/';
    } else {
      var init := name[..|name| - 1];
      assert path[..|path| - 1] == dir + "/" + init;
      assert path[|path| - 1] == name[|name| - 1];
      LastSegmentAfterSlash(dir, init);
      assert init + [name[|name| - 1]] == name;
    }
  }

  /**
   * Any file whose name starts with a listed stem is allowed, in any
   * directory: "quiz-history.html" is allowed as well as "quiz.html".
   */
  lemma StemPrefixAllowed(dir: string, k: int, rest: string)
    requires 0 <= k < |AllowedStems| && '/' !in rest
    ensures AllowedPath(dir + "/" + AllowedStems[k] + rest)
  {
    var stem := AllowedStems[k];
    assert '/' !in stem;
    var name := stem + rest;
    assert '/' !in name;
    assert dir + "/" + stem + rest == dir + "/" + name;
    LastSegmentAfterSlash(dir, name);
    assert OccursAt(name, stem, 0) by { assert name[..|stem|] == stem; }
    assert Matches(FileName(dir + "/" + name), stem);
  }

  /* ---------------- the time display ---------------- */

  /** The time as "mm:ss" with at least two digits each. */
  function DisplayTime(seconds: nat): (r: string)
    ensures seconds < 6000 ==> |r| == 5 && r[2] == ':'
  {
    Pad2(seconds / 60) + ":" + Pad2(seconds % 60)
  }

  function DigitValue(c: char): int {
    c as int - '0' as int
  }

  /** A two-digit field read back. */
  function FieldValue(f: string): int
    requires |f| == 2
  {
    10 * DigitValue(f[0]) + DigitValue(f[1])
  }

  lemma Pad2Value(n: nat)
    requires n < 100
    ensures |Pad2(n)| == 2 && FieldValue(Pad2(n)) == n
  {
    if n >= 10 {
      assert NatToString(n) == NatToString(n / 10) + [DigitChar(n % 10)];
      assert DigitValue(DigitChar(n / 10)) == n / 10;
    }
    assert DigitValue(DigitChar(n % 10)) == n % 10;
  }

  /** Under 100 minutes the display reads back as the same number of seconds. */
  lemma DisplayTimeReadsBack(seconds: nat)
    requires seconds < 6000
    ensures var r := DisplayTime(seconds);
            60 * FieldValue(r[..2]) + FieldValue(r[3..]) == seconds
  {
    var r := DisplayTime(seconds);
    Pad2Value(seconds / 60);
    Pad2Value(seconds % 60);
    assert r[..2] == Pad2(seconds / 60);
    assert r[3..] == Pad2(seconds % 60);
  }
}
