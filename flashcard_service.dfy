/**
 * The flashcard service: every deck or card operation first checks that
 * the caller owns the deck, and the deck's `totalCards` is kept by adding
 * deltas to it. Repository lookups are replaced by the objects they would
 * return; query results (never-reviewed cards, cards needing review, the
 * random pick, the active cards) are inputs. A failed call throws inside a
 * transaction, so it leaves the stored state as it was.
 */
module FlashcardService {
  import opened Common
  import opened Text
  import opened Difficulty
  import opened Flashcards

  /** `DEFAULT_REVIEW_DAYS`. */
  const DefaultReviewDays := 7

  /** `new UnauthorizedException("deck", "accedere")`. */
  const Unauthorized := "UNAUTHORIZED: Non autorizzato a accedere deck"
  /** Unboxing a NULL `Integer`, or calling a method on a NULL deck. */
  const NullPointer := "NullPointerException"
  /** `List.subList(0, n)` with a negative `n`. */
  const BadSubList := "IllegalArgumentException: fromIndex(0) > toIndex"

  /** `FlashcardCreateRequest`: the card fields a caller supplies. */
  datatype CardRequest = CardRequest(
    frontContent: Option<string>,
    backContent: Option<string>,
    hint: Option<string>,
    difficultyLevel: Option<DifficultyLevel>,
    source: Option<string>,
    tags: Option<seq<string>>)

  /** `FlashcardAIGenerateRequest`, without the fields the model does not use. */
  datatype GenerateRequest = GenerateRequest(
    topic: string,
    numberOfCards: int,
    difficultyLevel: Option<DifficultyLevel>,
    language: Option<string>)

  /** One element of the parsed AI answer: its "front" and "back" strings. */
  datatype CardJson = CardJson(front: string, back: string)

  /** `FlashcardStats(total, mastered, needReview)`. */
  datatype FlashcardStats = FlashcardStats(total: int, mastered: int, needReview: int)

  /* ---------------- ownership and counting ---------------- */

  /** `verifyOwnership`: the deck's owner is the caller. */
  predicate OwnedBy(deck: FlashcardDeck, userId: Uuid)
    reads deck
  {
    deck.owner == userId
  }

  /** `updateDeckCardCount`: add `delta` to `totalCards`; a NULL count throws. */
  method UpdateDeckCardCount(deck: FlashcardDeck, delta: int) returns (r: Result<(), string>)
    modifies deck`totalCards
    ensures r.Ok? <==> old(deck.totalCards).Some?
    ensures r.Ok? ==> deck.totalCards == Some(old(deck.totalCards).value + delta)
    ensures r.Err? ==> r.error == NullPointer && deck.totalCards == old(deck.totalCards)
  {
    if deck.totalCards.None? {
      return Err(NullPointer);
    }
    deck.totalCards := Some(deck.totalCards.value + delta);
    return Ok(());
  }

  /* ---------------- the mapper ---------------- */

  /**
   * `FlashcardMapper.toEntity`: a new card for the deck and user with the
   * request's fields; the tags are set only when the request has an array.
   * The card is not appended to the deck's list.
   */
  method ToEntity(request: CardRequest, deck: FlashcardDeck, user: Uuid) returns (card: Flashcard)
    ensures fresh(card) && card.deck == deck && card.createdBy == user
    ensures card.frontContent == request.frontContent && card.backContent == request.backContent
    ensures card.hint == request.hint && card.source == request.source
    ensures card.difficultyLevel == request.difficultyLevel
    ensures card.tags == if request.tags.Some? then Some(TagsText(request.tags)) else None
    ensures !card.aiGenerated && card.isActive && card.timesReviewed == 0 && card.timesCorrect == 0
    ensures card.lastReviewedAt.None? && card.id.None? && card.Valid()
  {
    card := new Flashcard(user);
    card.frontContent, card.backContent, card.hint := request.frontContent, request.backContent, request.hint;
    card.difficultyLevel, card.source, card.deck := request.difficultyLevel, request.source, deck;
    if request.tags.Some? {
      card.SetTagsFromArray(request.tags);
    }
  }

  /** `FlashcardMapper.toAIGeneratedEntity`: `toEntity`, then marked as AI-generated. */
  method ToAIGeneratedEntity(request: CardRequest, deck: FlashcardDeck, user: Uuid) returns (card: Flashcard)
    ensures fresh(card) && card.deck == deck && card.createdBy == user
    ensures card.frontContent == request.frontContent && card.backContent == request.backContent
    ensures card.hint == request.hint && card.source == request.source
    ensures card.difficultyLevel == request.difficultyLevel
    ensures card.tags == if request.tags.Some? then Some(TagsText(request.tags)) else None
    ensures card.aiGenerated && card.isActive && card.timesReviewed == 0 && card.timesCorrect == 0
    ensures card.lastReviewedAt.None? && card.id.None? && card.Valid()
  {
    card := ToEntity(request, deck, user);
    card.aiGenerated := true;
  }

  /* ---------------- creating cards ---------------- */

  /** `createFlashcard`: check ownership, build the card, add 1 to the deck's count. */
  method CreateFlashcard(deck: FlashcardDeck, request: CardRequest, user: Uuid) returns (r: Result<Flashcard, string>)
    modifies deck`totalCards
    ensures !old(OwnedBy(deck, user)) ==> r == Err(Unauthorized) && deck.totalCards == old(deck.totalCards)
    ensures old(OwnedBy(deck, user)) && old(deck.totalCards).None? ==>
              r == Err(NullPointer) && deck.totalCards == old(deck.totalCards)
    ensures old(OwnedBy(deck, user)) && old(deck.totalCards).Some? ==>
              r.Ok? && deck.totalCards == Some(old(deck.totalCards).value + 1)
    ensures r.Ok? ==> fresh(r.value) && r.value.deck == deck && r.value.createdBy == user && !r.value.aiGenerated
    ensures r.Ok? ==> r.value.frontContent == request.frontContent && r.value.backContent == request.backContent
    ensures r.Ok? ==> r.value.tags == if request.tags.Some? then Some(TagsText(request.tags)) else None
  {
    if !OwnedBy(deck, user) {
      return Err(Unauthorized);
    }
    if deck.totalCards.None? {
      return Err(NullPointer);
    }
    var card := ToEntity(request, deck, user);
    var counted := UpdateDeckCardCount(deck, 1);
    return Ok(card);
  }

  /**
   * The language of a generation request: `getLanguage()` falls back to
   * "it", so the request always supplies one and the user's preferred
   * language is never consulted.
   */
  function GenerationLanguage(requested: Option<string>, userPreferred: Option<string>): (language: Option<string>)
    ensures language.Some?
    ensures requested.Some? ==> language == requested
    ensures requested.None? ==> language == Some("it")
  {
    var fromRequest := Some(requested.GetOr("it"));
    if fromRequest.Some? then fromRequest else userPreferred
  }

  /** Whatever the user prefers, the chosen language is the same. */
  lemma UserLanguageNeverUsed(requested: Option<string>, u: Option<string>, v: Option<string>)
    ensures GenerationLanguage(requested, u) == GenerationLanguage(requested, v)
  {
  }

  /** The tag array given to each generated card. */
  function AiTags(topic: string, language: string): (tags: seq<string>)
    ensures |tags| == 3 && tags[0] == "ai-generated" && tags[1] == topic
    ensures tags[2] == "lang-" + language
  {
    ["ai-generated", topic, "lang-" + language]
  }

  /** Reading back a generated card's tags gives the three tags, when topic and language hold no comma. */
  lemma AiTagsReadBack(topic: string, language: string)
    requires ',' !in topic && ',' !in language
    ensures TagsOf(Some(TagsText(Some(AiTags(topic, language))))) == AiTags(topic, language)
  {
    var tags := AiTags(topic, language);
    assert ',' !in tags[0];
    assert forall k :: 0 <= k < |"lang-" + language| ==> ("lang-" + language)[k] == ',' ==> k >= 5;
    assert ',' !in tags[2];
    TagsRoundTrip(tags);
  }

  /**
   * The AI-generation variant of `generateAndSaveFlashcards`, given the
   * already parsed answer: after the ownership check, one AI-generated card
   * per element, in order, tagged with the topic and language; then the
   * deck's count grows by the number of cards made.
   */
  method GenerateAndSaveFlashcards(deck: FlashcardDeck, request: GenerateRequest, user: Uuid,
                                   userPreferred: Option<string>, parsed: seq<CardJson>)
    returns (r: Result<seq<Flashcard>, string>)
    modifies deck`totalCards
    ensures !old(OwnedBy(deck, user)) ==> r == Err(Unauthorized) && deck.totalCards == old(deck.totalCards)
    ensures old(OwnedBy(deck, user)) && old(deck.totalCards).None? ==>
              r == Err(NullPointer) && deck.totalCards == old(deck.totalCards)
    ensures old(OwnedBy(deck, user)) && old(deck.totalCards).Some? ==>
              r.Ok? && deck.totalCards == Some(old(deck.totalCards).value + |parsed|)
    ensures r.Ok? ==> |r.value| == |parsed|
    ensures r.Ok? ==> forall k :: 0 <= k < |parsed| ==>
              var card := r.value[k];
              fresh(card) && card.deck == deck && card.createdBy == user && card.aiGenerated &&
              card.frontContent == Some(parsed[k].front) && card.backContent == Some(parsed[k].back) &&
              card.difficultyLevel == request.difficultyLevel &&
              card.tags == Some(TagsText(Some(AiTags(request.topic, GenerationLanguage(request.language, userPreferred).value))))
  {
    var language := GenerationLanguage(request.language, userPreferred).value;
    if !OwnedBy(deck, user) {
      return Err(Unauthorized);
    }
    if deck.totalCards.None? {
      return Err(NullPointer);
    }
    var tags := Some(TagsText(Some(AiTags(request.topic, language))));
    var created: seq<Flashcard> := [];
    for i := 0 to |parsed|
      invariant |created| == i && deck.totalCards == old(deck.totalCards)
      invariant forall k :: 0 <= k < i ==>
                  var card := created[k];
                  fresh(card) && card.deck == deck && card.createdBy == user && card.aiGenerated &&
                  card.frontContent == Some(parsed[k].front) && card.backContent == Some(parsed[k].back) &&
                  card.difficultyLevel == request.difficultyLevel && card.tags == tags
    {
      var cardRequest := CardRequest(Some(parsed[i].front), Some(parsed[i].back), None,
                                     request.difficultyLevel, None, Some(AiTags(request.topic, language)));
      var card := ToAIGeneratedEntity(cardRequest, deck, user);
      created := created + [card];
    }
    var counted := UpdateDeckCardCount(deck, |created|);
    return Ok(created);
  }

  /* ---------------- reviewing and deleting ---------------- */

  /** `reviewFlashcard` at time `now`: a card without a deck throws; then ownership; then `recordReview`. */
  method ReviewFlashcard(card: Flashcard, wasCorrect: bool, userId: Uuid, now: int) returns (r: Result<Flashcard, string>)
    modifies card`timesReviewed, card`timesCorrect, card`lastReviewedAt
    ensures old(card.deck) == null ==> r == Err(NullPointer)
    ensures old(card.deck) != null && !old(OwnedBy(card.deck, userId)) ==> r == Err(Unauthorized)
    ensures r.Err? ==> card.timesReviewed == old(card.timesReviewed) && card.timesCorrect == old(card.timesCorrect)
                       && card.lastReviewedAt == old(card.lastReviewedAt)
    ensures old(card.deck) != null && old(OwnedBy(card.deck, userId)) ==>
              r == Ok(card) && card.timesReviewed == old(card.timesReviewed) + 1 &&
              card.timesCorrect == old(card.timesCorrect) + (if wasCorrect then 1 else 0) &&
              card.lastReviewedAt == Some(now)
    ensures old(card.Valid()) ==> card.Valid()
  {
    if card.deck == null {
      return Err(NullPointer);
    }
    if !OwnedBy(card.deck, userId) {
      return Err(Unauthorized);
    }
    card.RecordReview(wasCorrect, now);
    return Ok(card);
  }

  /**
   * `deleteFlashcard`: a soft delete. The card becomes inactive and the
   * deck's count drops by one whether or not the card was already inactive.
   */
  method DeleteFlashcard(card: Flashcard, userId: Uuid) returns (r: Result<(), string>)
    modifies card`isActive, (if card.deck == null then {} else {card.deck})`totalCards
    ensures old(card.deck) == null ==> r == Err(NullPointer)
    ensures old(card.deck) != null && !old(OwnedBy(card.deck, userId)) ==> r == Err(Unauthorized)
    ensures old(card.deck) != null && old(OwnedBy(card.deck, userId)) && old(card.deck.totalCards).None? ==>
              r == Err(NullPointer)
    ensures r.Err? ==> card.isActive == old(card.isActive) &&
                       (card.deck != null ==> card.deck.totalCards == old(card.deck.totalCards))
    ensures old(card.deck) != null && old(OwnedBy(card.deck, userId)) && old(card.deck.totalCards).Some? ==>
              r.Ok? && !card.isActive && card.deck.totalCards == Some(old(card.deck.totalCards).value - 1)
  {
    var deck := card.deck;
    if deck == null {
      return Err(NullPointer);
    }
    if !OwnedBy(deck, userId) {
      return Err(Unauthorized);
    }
    if deck.totalCards.None? {
      return Err(NullPointer);
    }
    card.isActive := false;
    r := UpdateDeckCardCount(deck, -1);
  }

  /* ---------------- study sessions and statistics ---------------- */

  /**
   * `getStudySession` for `n` cards, given the three query results: the
   * first `n` never-reviewed cards when there are enough, else the first
   * `n` cards needing review when there are enough, else the random pick.
   * A negative `n` makes the first `subList` throw.
   */
  function StudySession<T>(owned: bool, neverReviewed: seq<T>, needReview: seq<T>, random: seq<T>, n: int)
    : (r: Result<seq<T>, string>)
    ensures !owned ==> r == Err(Unauthorized)
    ensures owned ==> (r.Err? <==> n < 0)
    ensures r.Err? ==> r.error in {Unauthorized, BadSubList}
    ensures r.Ok? && n <= |neverReviewed| ==> |r.value| == n && r.value <= neverReviewed
    ensures r.Ok? && |neverReviewed| < n <= |needReview| ==> |r.value| == n && r.value <= needReview
    ensures r.Ok? && |neverReviewed| < n && |needReview| < n ==> r.value == random
  {
    if !owned then Err(Unauthorized)
    else if |neverReviewed| >= n then
      (if n < 0 then Err(BadSubList) else Ok(neverReviewed[..n]))
    else if |needReview| >= n then Ok(needReview[..n])
    else Ok(random)
  }

  /** Every card of a session drawn from the first two lists is one of theirs, never-reviewed cards first. */
  lemma StudySessionDrawsFromQueries<T>(neverReviewed: seq<T>, needReview: seq<T>, random: seq<T>, n: int)
    requires 0 <= n && (n <= |neverReviewed| || n <= |needReview|)
    ensures var r := StudySession(true, neverReviewed, needReview, random, n);
            r.Ok? && forall c :: c in r.value ==> (c in neverReviewed || c in needReview)
    ensures n <= |neverReviewed| ==>
              forall c :: c in StudySession(true, neverReviewed, needReview, random, n).value ==> c in neverReviewed
  {
    var r := StudySession(true, neverReviewed, needReview, random, n);
    if n <= |neverReviewed| {
      assert r.value == neverReviewed[..n];
      assert forall c :: c in r.value ==> c in neverReviewed;
    } else {
      assert r.value == needReview[..n];
      assert forall c :: c in r.value ==> c in needReview;
    }
  }

  /** The private `needsReview` of the service: `Flashcard.needsReview` with the default seven days. */
  predicate DueForReview(card: Flashcard, now: int)
    reads card
  {
    card.NeedsReview(DefaultReviewDays, now)
  }

  /** The cards due for review. */
  function DueCount(cards: seq<Flashcard>, now: int): (n: nat)
    reads cards
    ensures n <= |cards|
  {
    if cards == [] then 0
    else (if DueForReview(cards[0], now) then 1 else 0) + DueCount(cards[1..], now)
  }

  /** `getFlashcardStats` over the deck's active cards at time `now`. */
  function FlashcardStatsOf(owned: bool, cards: seq<Flashcard>, now: int): (r: Result<FlashcardStats, string>)
    reads cards
    ensures !owned <==> r == Err(Unauthorized)
    ensures r.Ok? ==> r.value.total == |cards|
    ensures r.Ok? ==> 0 <= r.value.mastered <= r.value.total && 0 <= r.value.needReview <= r.value.total
  {
    if !owned then Err(Unauthorized)
    else Ok(FlashcardStats(|cards|, MasteredCount(cards), DueCount(cards, now)))
  }

  /** Cards reviewed at `now` are not due then, so cards all just reviewed count none as due. */
  lemma {:induction false} JustReviewedNoneDue(cards: seq<Flashcard>, now: int)
    requires forall k :: 0 <= k < |cards| ==> cards[k].timesReviewed > 0 && cards[k].lastReviewedAt == Some(now)
    ensures DueCount(cards, now) == 0
  {
    if cards != [] {
      JustStudiedNotDue(DefaultReviewDays, now);
      JustReviewedNoneDue(cards[1..], now);
    }
  }

  /** Cards never reviewed are all due, and none of them is mastered. */
  lemma {:induction false} NeverReviewedAllDue(cards: seq<Flashcard>, now: int)
    requires forall k :: 0 <= k < |cards| ==> cards[k].timesReviewed == 0
    ensures DueCount(cards, now) == |cards| && MasteredCount(cards) == 0
  {
    if cards != [] {
      MasteredIff(0, cards[0].timesCorrect);
      NeverReviewedAllDue(cards[1..], now);
    }
  }
}
