/**
 * The flashcard entities. A `Flashcard` counts its reviews and keeps its
 * tags as one comma-separated string; a `FlashcardDeck` holds its cards
 * and the counters shown for the deck. Both update their fields in place.
 * Timestamps are seconds on a clock the caller passes in.
 */
module Flashcards {
  import opened Common
  import opened Text
  import opened Difficulty

  /* ---------------- review statistics ---------------- */

  /** `getSuccessRate` on the two counters: 0 before the first review. */
  function SuccessRateOf(timesReviewed: int, timesCorrect: int): real
  {
    if timesReviewed == 0 then 0.0 else Percent(timesCorrect, timesReviewed)
  }

  /** `isMastered`: a success rate of at least 80. */
  predicate MasteredAt(timesReviewed: int, timesCorrect: int) {
    SuccessRateOf(timesReviewed, timesCorrect) >= 80.0
  }

  /** A card is mastered exactly when it was reviewed and four fifths of its reviews were correct. */
  lemma MasteredIff(timesReviewed: int, timesCorrect: int)
    requires timesReviewed >= 0
    ensures MasteredAt(timesReviewed, timesCorrect) <==> timesReviewed > 0 && 5 * timesCorrect >= 4 * timesReviewed
  {
    if timesReviewed > 0 {
      PercentAtLeast(timesCorrect, timesReviewed, 80);
    }
  }

  /** The success rate of consistent counters lies in [0, 100]. */
  lemma SuccessRateBounds(timesReviewed: int, timesCorrect: int)
    requires 0 <= timesCorrect <= timesReviewed
    ensures 0.0 <= SuccessRateOf(timesReviewed, timesCorrect) <= 100.0
  {
    if timesReviewed > 0 {
      PercentBounds(timesCorrect, timesReviewed);
    }
  }

  /** `lastStudied.isBefore(now.minusDays(days))`, true as well when there is no date. */
  predicate StudiedBefore(last: Option<int>, days: int, now: int) {
    last.None? || last.value < now - days * SecondsPerDay
  }

  /** What was studied just now is not due for any threshold of zero days or more. */
  lemma JustStudiedNotDue(days: int, now: int)
    requires days >= 0
    ensures !StudiedBefore(Some(now), days, now)
  {
  }

  /* ---------------- tags ---------------- */

  /** `getTagsArray`: nothing for a NULL or empty string, otherwise `split(",")`. */
  function TagsOf(tags: Option<string>): (pieces: seq<string>)
    ensures tags.None? || tags.value == [] ==> pieces == []
    ensures forall k :: 0 <= k < |pieces| ==> ',' !in pieces[k]
  {
    if tags.None? || tags.value == [] then [] else JavaSplit(tags.value, ',')
  }

  /** `setTagsFromArray`: "" for a NULL or empty array, otherwise the pieces joined with commas. */
  function TagsText(given: Option<seq<string>>): string
  {
    if given.None? || given.value == [] then "" else Join(given.value, ',')
  }

  /**
   * Reading back what `setTagsFromArray` stored gives the same tags, when
   * no tag holds a comma and the last one is not empty; an empty array
   * reads back as no tags.
   */
  lemma TagsRoundTrip(given: seq<string>)
    requires given == [] || given[|given| - 1] != []
    requires forall k :: 0 <= k < |given| ==> ',' !in given[k]
    ensures TagsOf(Some(TagsText(Some(given)))) == given
  {
    if given != [] {
      JavaSplitJoin(given, ',');
      if |given| >= 2 {
        assert ',' in Join(given, ',');
      }
    }
  }

  /** One piece of the tag string names `tag` when both, trimmed, agree ignoring case. */
  predicate TagMatches(piece: string, tag: string) {
    EqualsIgnoreCase(Trim(piece), Trim(tag))
  }

  /** `hasTag`: some piece of the tag string names the tag; false when either is NULL. */
  predicate Tagged(tags: Option<string>, tag: Option<string>) {
    tags.Some? && tag.Some? && exists k :: 0 <= k < |TagsOf(tags)| && TagMatches(TagsOf(tags)[k], tag.value)
  }

  /** Some of the first `n` elements satisfies `p`. */
  predicate AnyBefore<T>(xs: seq<T>, p: T -> bool, n: nat)
    requires n <= |xs|
  {
    n > 0 && (AnyBefore(xs, p, n - 1) || p(xs[n - 1]))
  }

  lemma {:induction false} AnyBeforeIff<T>(xs: seq<T>, p: T -> bool, n: nat)
    requires n <= |xs|
    ensures AnyBefore(xs, p, n) <==> exists k :: 0 <= k < n && p(xs[k])
  {
    if n > 0 {
      AnyBeforeIff(xs, p, n - 1);
      if p(xs[n - 1]) {
        assert exists k :: 0 <= k < n && p(xs[k]);
      }
    }
  }

  /**
   * `addTag`: a NULL or blank tag changes nothing; the first tag becomes
   * the whole string, trimmed; a further tag is appended after a comma
   * unless it is already there.
   */
  function TagAdded(tags: Option<string>, tag: Option<string>): Option<string>
  {
    if tag.None? || IsBlank(tag.value) then tags
    else if tags.None? || tags.value == [] then Some(Trim(tag.value))
    else if Tagged(tags, tag) then tags
    else Some(tags.value + [','] + Trim(tag.value))
  }

  /** Splitting at a separator splits each side on its own. */
  lemma {:induction false} SplitAllAround(a: string, sep: char, b: string)
    ensures SplitAll(a + [sep] + b, sep) == SplitAll(a, sep) + SplitAll(b, sep)
    decreases |a|
  {
    if a == [] {
      assert a + [sep] + b == [sep] + b;
      assert ([sep] + b)[1..] == b;
    } else {
      var s := a + [sep] + b;
      assert s[0] == a[0] && s[1..] == a[1..] + [sep] + b;
      SplitAllAround(a[1..], sep, b);
      var ra, rb := SplitAll(a[1..], sep), SplitAll(b, sep);
      if a[0] == sep {
        assert SplitAll(s, sep) == [[]] + (ra + rb);
        assert SplitAll(a, sep) == [[]] + ra;
      } else {
        assert SplitAll(s, sep) == [[a[0]] + (ra + rb)[0]] + (ra + rb)[1..];
        assert SplitAll(a, sep) == [[a[0]] + ra[0]] + ra[1..];
        ExtendFirstPiece(a[0], ra, rb);
      }
    }
  }

  /** Extending the first piece of a split and then appending pieces commute. */
  lemma ExtendFirstPiece(c: char, ra: seq<string>, rb: seq<string>)
    requires |ra| >= 1
    ensures [[c] + (ra + rb)[0]] + (ra + rb)[1..] == ([[c] + ra[0]] + ra[1..]) + rb
  {
    assert (ra + rb)[0] == ra[0];
    assert (ra + rb)[1..] == ra[1..] + rb;
  }

  /** A tag appended after a comma is the last piece of the new string. */
  lemma AppendedTagIsLastPiece(tags: string, t: string)
    requires t != [] && ',' !in t
    ensures var pieces := JavaSplit(tags + [','] + t, ',');
            |pieces| >= 1 && pieces[|pieces| - 1] == t
  {
    var s := tags + [','] + t;
    assert s[|tags|] == ',';
    SplitAllAround(tags, ',', t);
    SplitAllOfPlain(t, ',');
  }

  /** A tag matches itself. */
  lemma TagMatchesItself(t: string)
    ensures TagMatches(Trim(t), t)
  {
    TrimIdempotent(t);
  }

  /** Trimming cannot bring in a comma. */
  lemma NoCommaAfterTrim(t: string)
    requires ',' !in t
    ensures ',' !in Trim(t)
  {
    var a := TrimStart(t);
    NotInSlice(',', t, |t| - |a|, |t|);
    assert t[|t| - |a|..|t|] == a;
    var r := TrimEnd(a);
    NotInSlice(',', a, 0, |r|);
    assert a[0..|r|] == r;
  }

  lemma NotInSlice(c: char, s: string, lo: int, hi: int)
    requires c !in s && 0 <= lo <= hi <= |s|
    ensures c !in s[lo..hi]
  {
    forall i | 0 <= i < hi - lo ensures s[lo..hi][i] != c {
      assert s[lo..hi][i] == s[lo + i];
    }
  }

  /** The first tag, stored trimmed, is found. */
  lemma FirstTagIsFound(t: string)
    requires Trim(t) != [] && ',' !in t
    ensures Tagged(Some(Trim(t)), Some(t))
  {
    NoCommaAfterTrim(t);
    TagMatchesItself(t);
    assert TagsOf(Some(Trim(t))) == [Trim(t)];
    assert TagMatches(TagsOf(Some(Trim(t)))[0], t);
  }

  /** The trimmed tag appended after a comma is the last piece of the tag string. */
  lemma AppendedTagIsLastStored(tags: string, t: string)
    requires Trim(t) != [] && ',' !in t
    ensures var pieces := TagsOf(Some(tags + [','] + Trim(t)));
            |pieces| >= 1 && pieces[|pieces| - 1] == Trim(t)
  {
    NoCommaAfterTrim(t);
    AppendedTagIsLastPiece(tags, Trim(t));
    assert (tags + [','] + Trim(t))[|tags|] == ',';
  }

  /** A tag appended after a comma, trimmed, is found. */
  lemma AppendedTagIsFound(tags: string, t: string)
    requires Trim(t) != [] && ',' !in t
    ensures Tagged(Some(tags + [','] + Trim(t)), Some(t))
  {
    NoCommaAfterTrim(t);
    TagMatchesItself(t);
    AppendedTagIsLastPiece(tags, Trim(t));
    LastPieceTagged(tags + [','] + Trim(t), Trim(t), t);
  }

  /** A tag that the last piece of a non-empty tag string names is found. */
  lemma LastPieceTagged(s: string, last: string, t: string)
    requires s != [] && |JavaSplit(s, ',')| >= 1 && JavaSplit(s, ',')[|JavaSplit(s, ',')| - 1] == last
    requires TagMatches(last, t)
    ensures Tagged(Some(s), Some(t))
  {
    var pieces := TagsOf(Some(s));
    assert TagMatches(pieces[|pieces| - 1], t);
  }

  /**
   * After `addTag(t)` of a tag without commas whose trimmed form is not
   * empty, `hasTag(t)` holds.
   */
  lemma TagAddedIsFound(tags: Option<string>, t: string)
    requires !IsBlank(t) && Trim(t) != [] && ',' !in t
    ensures Tagged(TagAdded(tags, Some(t)), Some(t))
  {
    if tags.None? || tags.value == [] {
      FirstTagIsFound(t);
    } else if !Tagged(tags, Some(t)) {
      AppendedTagIsFound(tags.value, t);
    }
  }

  /** Adding the same tag twice adds it once. */
  lemma TagAddedIdempotent(tags: Option<string>, t: string)
    requires !IsBlank(t) && Trim(t) != [] && ',' !in t
    ensures TagAdded(TagAdded(tags, Some(t)), Some(t)) == TagAdded(tags, Some(t))
  {
    TagAddedIsFound(tags, t);
  }

  /* ---------------- a card ---------------- */

  class Flashcard {
    var id: Option<Uuid>
    var deck: FlashcardDeck?
    var createdBy: Uuid
    var frontContent: Option<string>
    var backContent: Option<string>
    var hint: Option<string>
    var tags: Option<string>
    var difficultyLevel: Option<DifficultyLevel>
    var aiGenerated: bool
    var source: Option<string>
    var timesReviewed: int
    var timesCorrect: int
    var lastReviewedAt: Option<int>
    var isActive: bool

    /** The counters are consistent: no more correct reviews than reviews. */
    predicate Valid()
      reads this
    {
      0 <= timesCorrect <= timesReviewed
    }

    /** `new Flashcard()` for a user: no reviews, not AI-generated, active. */
    constructor (user: Uuid)
      ensures createdBy == user && deck == null && id.None? && tags.None?
      ensures timesReviewed == 0 && timesCorrect == 0 && lastReviewedAt.None?
      ensures !aiGenerated && isActive && Valid()
    {
      id, deck, createdBy := None, null, user;
      frontContent, backContent, hint, tags := None, None, None, None;
      difficultyLevel, aiGenerated, source := None, false, None;
      timesReviewed, timesCorrect, lastReviewedAt, isActive := 0, 0, None, true;
    }

    function SuccessRate(): real
      reads this
    {
      SuccessRateOf(timesReviewed, timesCorrect)
    }

    predicate IsMastered()
      reads this
    {
      MasteredAt(timesReviewed, timesCorrect)
    }

    /** `recordReview` at time `now`. */
    method RecordReview(wasCorrect: bool, now: int)
      modifies this`timesReviewed, this`timesCorrect, this`lastReviewedAt
      ensures timesReviewed == old(timesReviewed) + 1
      ensures timesCorrect == old(timesCorrect) + (if wasCorrect then 1 else 0)
      ensures lastReviewedAt == Some(now)
      ensures old(Valid()) ==> Valid()
    {
      timesReviewed := timesReviewed + 1;
      if wasCorrect {
        timesCorrect := timesCorrect + 1;
      }
      lastReviewedAt := Some(now);
    }

    /** `needsReview(days)` at time `now`: never reviewed, or last reviewed before the threshold. */
    predicate NeedsReview(days: int, now: int)
      reads this
    {
      timesReviewed == 0 || StudiedBefore(lastReviewedAt, days, now)
    }

    function TagsArray(): seq<string>
      reads this
    {
      TagsOf(tags)
    }

    /** `setTagsFromArray`. */
    method SetTagsFromArray(given: Option<seq<string>>)
      modifies this`tags
      ensures tags == Some(TagsText(given))
    {
      if given.None? || given.value == [] {
        tags := Some("");
      } else {
        tags := Some(Join(given.value, ','));
      }
    }

    /** `hasTag`: look through the pieces in order and stop at the first that names the tag. */
    method HasTag(tag: Option<string>) returns (found: bool)
      ensures found == Tagged(tags, tag)
    {
      var current := tags;
      if current.None? || tag.None? {
        return false;
      }
      var t := tag.value;
      var pieces := TagsOf(current);
      ghost var named := (piece: string) => TagMatches(piece, t);
      for i := 0 to |pieces|
        invariant !AnyBefore(pieces, named, i)
      {
        if TagMatches(pieces[i], t) {
          AnyBeforeIff(pieces, named, |pieces|);
          return true;
        }
      }
      AnyBeforeIff(pieces, named, |pieces|);
      return false;
    }

    /** `addTag`. */
    method AddTag(tag: Option<string>)
      modifies this`tags
      ensures tags == TagAdded(old(tags), tag)
    {
      if tag.None? || IsBlank(tag.value) {
        return;
      }
      if tags.None? || tags.value == [] {
        tags := Some(Trim(tag.value));
      } else {
        var present := HasTag(tag);
        if !present {
          tags := Some(tags.value + [','] + Trim(tag.value));
        }
      }
    }
  }

  /**
   * `needsReview` of a card: never reviewed, or reviewed with no timestamp,
   * means due; reviewed just now is not due for a threshold of zero days or
   * more; and once due a card stays due.
   */
  lemma CardReviewDue(card: Flashcard, days: int, now: int, later: int)
    requires now <= later
    ensures card.timesReviewed == 0 || card.lastReviewedAt.None? ==> card.NeedsReview(days, now)
    ensures card.timesReviewed != 0 && card.lastReviewedAt == Some(now) && days >= 0 ==> !card.NeedsReview(days, now)
    ensures card.NeedsReview(days, now) ==> card.NeedsReview(days, later)
  {
  }

  /* ---------------- a deck ---------------- */

  /** The ids of the cards, in list order. */
  function CardIds(cards: seq<Flashcard>): (ids: seq<Option<Uuid>>)
    reads cards
    ensures |ids| == |cards| && forall k :: 0 <= k < |cards| ==> ids[k] == cards[k].id
  {
    if cards == [] then [] else [cards[0].id] + CardIds(cards[1..])
  }

  /** The cards that are mastered. */
  function MasteredCount(cards: seq<Flashcard>): (n: nat)
    reads cards
    ensures n <= |cards|
  {
    if cards == [] then 0
    else (if cards[0].IsMastered() then 1 else 0) + MasteredCount(cards[1..])
  }

  /** The cards whose `isActive` is `Boolean.TRUE`. */
  function ActiveCount(cards: seq<Flashcard>): (n: nat)
    reads cards
    ensures n <= |cards|
  {
    if cards == [] then 0
    else (if cards[0].isActive then 1 else 0) + ActiveCount(cards[1..])
  }

  /** `getCompletionPercentage` on the counters: 0 for a NULL or zero total. */
  function CompletionOf(totalCards: Option<int>, cardsMastered: int): real
  {
    if totalCards.None? || totalCards.value == 0 then 0.0 else Percent(cardsMastered, totalCards.value)
  }

  /** With no more mastered cards than cards the completion lies in [0, 100], and is 100 exactly when all are mastered. */
  lemma CompletionBounds(totalCards: int, cardsMastered: int)
    requires 0 <= cardsMastered <= totalCards
    ensures 0.0 <= CompletionOf(Some(totalCards), cardsMastered) <= 100.0
    ensures totalCards > 0 ==> (CompletionOf(Some(totalCards), cardsMastered) == 100.0 <==> cardsMastered == totalCards)
  {
    if totalCards > 0 {
      PercentBounds(cardsMastered, totalCards);
      PercentAtLeast(cardsMastered, totalCards, 100);
    }
  }

  class FlashcardDeck {
    var id: Option<Uuid>
    var owner: Uuid
    var flashcards: seq<Flashcard>
    var name: Option<string>
    var totalCards: Option<int>
    var cardsMastered: int
    var timesStudied: Option<int>
    var lastStudiedAt: Option<int>
    var isActive: bool

    /** `new FlashcardDeck()` for an owner: no cards, nothing studied. */
    constructor (ownerId: Uuid)
      ensures owner == ownerId && flashcards == [] && id.None?
      ensures totalCards == Some(0) && cardsMastered == 0 && timesStudied == Some(0) && lastStudiedAt.None?
      ensures isActive
    {
      id, owner, flashcards, name := None, ownerId, [], None;
      totalCards, cardsMastered, timesStudied, lastStudiedAt := Some(0), 0, Some(0), None;
      isActive := true;
    }

    /** `addFlashcard`: append the card, point it at this deck, and store the list size. */
    method AddFlashcard(card: Flashcard)
      modifies this`flashcards, this`totalCards, card`deck
      ensures flashcards == old(flashcards) + [card] && card.deck == this
      ensures totalCards == Some(|flashcards|)
    {
      flashcards := flashcards + [card];
      card.deck := this;
      totalCards := Some(|flashcards|);
    }

    /** `removeFlashcard`: drop the first card with the same id, detach the card, and store the list size. */
    method RemoveFlashcard(card: Flashcard)
      modifies this`flashcards, this`totalCards, card`deck
      ensures var k := FirstWithId(old(CardIds(flashcards)), old(card.id));
              flashcards == if k < 0 then old(flashcards) else old(flashcards)[..k] + old(flashcards)[k + 1..]
      ensures card.deck == null && totalCards == Some(|flashcards|)
    {
      var cards := flashcards;
      var k := FirstWithId(CardIds(cards), card.id);
      card.deck := null;
      assert CardIds(cards) == old(CardIds(flashcards));
      if k >= 0 {
        flashcards := cards[..k] + cards[k + 1..];
      }
      totalCards := Some(|flashcards|);
    }

    function CompletionPercentage(): real
      reads this
    {
      CompletionOf(totalCards, cardsMastered)
    }

    /** `recordStudySession` at time `now`: a NULL count starts from 0. */
    method RecordStudySession(now: int)
      modifies this`timesStudied, this`lastStudiedAt
      ensures timesStudied == Some(old(timesStudied).GetOr(0) + 1) && lastStudiedAt == Some(now)
    {
      timesStudied := Some(timesStudied.GetOr(0) + 1);
      lastStudiedAt := Some(now);
    }

    /** `updateMasteredCount`: the number of mastered cards in the list. */
    method UpdateMasteredCount()
      modifies this`cardsMastered
      ensures cardsMastered == MasteredCount(flashcards) && 0 <= cardsMastered <= |flashcards|
    {
      cardsMastered := MasteredCount(flashcards);
    }

    /** `needsReview(days)` at time `now`. */
    predicate NeedsReview(days: int, now: int)
      reads this
    {
      StudiedBefore(lastStudiedAt, days, now)
    }

    predicate IsEmpty()
      reads this
    {
      totalCards.None? || totalCards.value == 0
    }

    function ActiveCardsCount(): (n: nat)
      reads this, flashcards
      ensures n <= |flashcards|
    {
      ActiveCount(flashcards)
    }
  }

  /**
   * `needsReview` of a deck: never studied means due, studied just now is not
   * due for a threshold of zero days or more, and once due a deck stays due.
   */
  lemma DeckReviewDue(deck: FlashcardDeck, days: int, now: int, later: int)
    requires now <= later
    ensures deck.lastStudiedAt.None? ==> deck.NeedsReview(days, now)
    ensures deck.lastStudiedAt == Some(now) && days >= 0 ==> !deck.NeedsReview(days, now)
    ensures deck.NeedsReview(days, now) ==> deck.NeedsReview(days, later)
  {
  }

  /** `isEmpty` and the completion share their guard: an empty deck is 0% complete, any other lies in [0, 100]. */
  lemma EmptyDeckCompletion(deck: FlashcardDeck)
    ensures deck.IsEmpty() ==> deck.CompletionPercentage() == 0.0
    ensures !deck.IsEmpty() && 0 <= deck.cardsMastered <= deck.totalCards.value ==>
              0.0 <= deck.CompletionPercentage() <= 100.0
  {
    if !deck.IsEmpty() && 0 <= deck.cardsMastered <= deck.totalCards.value {
      CompletionBounds(deck.totalCards.value, deck.cardsMastered);
    }
  }
}
