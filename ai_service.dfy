/**
 * The AI service's own logic around the model calls: the language
 * instruction of a prompt, the primary/fallback decision, the mapping of
 * HTTP failures to error kinds, the clean-up of a JSON answer, and the
 * legacy overloads that refuse to run. A model call is given by its
 * outcome; the prompts' wording and the JSON parser are not modelled.
 */
module AiService {
  import opened Common
  import opened Text
  import Users

  /* ---------------- errors ---------------- */

  datatype AIErrorType = RateLimit | InvalidApiKey | Timeout | ParseError | ServiceUnavailable | ResponseNull

  function DefaultMessage(t: AIErrorType): string {
    match t
    case RateLimit => "Troppe richieste. Riprova tra qualche secondo."
    case InvalidApiKey => "API Key non valida. Verifica la configurazione."
    case Timeout => "Il servizio AI non ha risposto in tempo. Riprova."
    case ParseError => "Errore nel parsing della risposta AI."
    case ServiceUnavailable => "Servizio AI temporaneamente non disponibile."
    case ResponseNull => "Risposta AI vuota"
  }

  /** An `AIServiceException`: its kind and its message. */
  datatype AIError = AIError(errorType: AIErrorType, message: string)

  function Default(t: AIErrorType): AIError {
    AIError(t, DefaultMessage(t))
  }

  /* ---------------- the language instruction ---------------- */

  const NullLanguage: string := "IllegalArgumentException: La lingua non può essere null"
  const InstructionIt: string := "Rispondi SEMPRE in italiano."
  const InstructionEn: string := "Respond ALWAYS in English."
  const InstructionEs: string := "Responde SIEMPRE en español."
  const InstructionFr: string := "Réponds TOUJOURS en français."
  const InstructionDe: string := "Antworte IMMER auf Deutsch."
  const InstructionPt: string := "Responda SEMPRE em português."
  const InstructionRu: string := "Отвечай ВСЕГДА на русском языке."
  const GenericHead: string := "Rispondi SEMPRE in "

  /** The instruction table, keyed by lower-case code. */
  function KnownInstruction(code: string): (r: Option<string>)
    ensures r.Some? <==> code in Users.SupportedLanguages
  {
    if code == "it" then Some(InstructionIt)
    else if code == "en" then Some(InstructionEn)
    else if code == "es" then Some(InstructionEs)
    else if code == "fr" then Some(InstructionFr)
    else if code == "de" then Some(InstructionDe)
    else if code == "pt" then Some(InstructionPt)
    else if code == "ru" then Some(InstructionRu)
    else None
  }

  /** The generic instruction for an unknown language, naming it as given. */
  function GenericInstruction(language: string): (r: string)
    ensures |r| == |GenericHead| + |language| + 1
    ensures r[..|GenericHead|] == GenericHead && r[|GenericHead|..|r| - 1] == language && r[|r| - 1] == '.'
  {
    GenericHead + language + "."
  }

  /**
   * `getLanguageInstruction`: a NULL language is refused; a code the table
   * knows, in any case, gets its fixed instruction; any other language the
   * generic one with the language as written.
   */
  function LanguageInstruction(language: Option<string>): (r: Result<string, string>)
    ensures language.None? <==> r == Err(NullLanguage)
    ensures language.Some? && ToLower(language.value) in Users.SupportedLanguages ==>
              r == Ok(KnownInstruction(ToLower(language.value)).value)
    ensures language.Some? && ToLower(language.value) !in Users.SupportedLanguages ==>
              r == Ok(GenericInstruction(language.value))
  {
    if language.None? then Err(NullLanguage)
    else
      match KnownInstruction(ToLower(language.value))
      case Some(instruction) => Ok(instruction)
      case None => Ok(GenericInstruction(language.value))
  }

  /** Every language a user can choose has its own instruction. */
  lemma SupportedLanguagesHaveInstructions(language: string)
    requires language in Users.SupportedLanguages
    ensures LanguageInstruction(Some(language)) == Ok(KnownInstruction(language).value)
  {
    assert ToLower(language) == language;
  }

  /**
   * The instruction lookup ignores case where the user service does not:
   * "EN" gets the English instruction, yet it is not a language a user
   * can choose.
   */
  lemma InstructionCaseInsensitive()
    ensures LanguageInstruction(Some("EN")) == Ok(InstructionEn)
    ensures "EN" !in Users.SupportedLanguages
  {
    assert ToLower("EN") == "en";
    Users.LanguageCodesAreCaseSensitive();
  }

  /* ---------------- model calls and the fallback ---------------- */

  /** What a model call did: a text, an HTTP error response, or another failure with its message. */
  datatype Outcome = Answer(value: string) | HttpFailure(status: int, message: string) | OtherFailure(detail: Option<string>)

  const ApiErrorHead: string := "Errore API: "
  const AllModelsDownHead: string := "Tutti i modelli AI non disponibili: "
  const TimeoutWord: string := "timeout"

  /** `handleWebClientException`: the error an HTTP failure of the fallback becomes. */
  function HttpError(status: int, message: string): (e: AIError)
    ensures e.errorType == RateLimit <==> status == 429
    ensures e.errorType == InvalidApiKey <==> status == 401
    ensures e.errorType == ServiceUnavailable <==> status != 429 && status != 401
    ensures status in {502, 503, 504} ==> e == Default(ServiceUnavailable)
  {
    if status == 429 then Default(RateLimit)
    else if status == 401 then Default(InvalidApiKey)
    else if status == 503 || status == 502 || status == 504 then Default(ServiceUnavailable)
    else AIError(ServiceUnavailable, ApiErrorHead + message)
  }

  /**
   * `callAIWithFallback`: in test mode it fails with RATE_LIMIT before
   * calling anything; otherwise the primary's text, or else the fallback's,
   * or else the fallback's failure mapped to an error.
   */
  function CallWithFallback(testFallback: bool, primary: Outcome, fallback: Outcome): (r: Result<string, AIError>)
    ensures testFallback ==> r == Err(AIError(RateLimit, "Test fallback"))
    ensures !testFallback && primary.Answer? ==> r == Ok(primary.value)
    ensures !testFallback && !primary.Answer? && fallback.Answer? ==> r == Ok(fallback.value)
    ensures !testFallback && !primary.Answer? && fallback.HttpFailure? ==> r == Err(HttpError(fallback.status, fallback.message))
    ensures !testFallback && !primary.Answer? && fallback.OtherFailure? ==>
              r.Err? && (r.error.errorType == Timeout <==> fallback.detail.Some? && Contains(fallback.detail.value, TimeoutWord))
    ensures r.Ok? ==> !testFallback && ((primary.Answer? && r.value == primary.value) || (fallback.Answer? && r.value == fallback.value))
  {
    if testFallback then Err(AIError(RateLimit, "Test fallback"))
    else if primary.Answer? then Ok(primary.value)
    else
      match fallback
      case Answer(value) => Ok(value)
      case HttpFailure(status, message) => Err(HttpError(status, message))
      case OtherFailure(detail) =>
        if detail.Some? && Contains(detail.value, TimeoutWord) then Err(Default(Timeout))
        else Err(AIError(ServiceUnavailable, AllModelsDownHead + detail.GetOr("null")))
  }

  /** With the shipped setting, test mode on, no call ever succeeds. */
  lemma DefaultSettingAlwaysRateLimited(primary: Outcome, fallback: Outcome)
    ensures CallWithFallback(true, primary, fallback).Err?
    ensures CallWithFallback(true, primary, fallback).error.errorType == RateLimit
  {
  }

  /** The fallback is consulted only when the primary fails. */
  lemma FallbackOnlyOnFailure(primary: Outcome, fallback: Outcome, other: Outcome)
    requires primary.Answer?
    ensures CallWithFallback(false, primary, fallback) == CallWithFallback(false, primary, other)
  {
  }

  /** A model's availability and name. */
  datatype ClientStatus = ClientStatus(available: bool, modelName: string)

  const NoModel: string := "Nessun modello AI disponibile"

  /** `isAnyModelAvailable`. */
  predicate AnyModelAvailable(primary: ClientStatus, fallback: ClientStatus) {
    primary.available || fallback.available
  }

  /** `getAvailableModel`: the primary's name when it is up, else the fallback's, else a fixed text. */
  function AvailableModel(primary: ClientStatus, fallback: ClientStatus): (name: string)
    ensures primary.available ==> name == primary.modelName
    ensures !primary.available && fallback.available ==> name == fallback.modelName
    ensures !AnyModelAvailable(primary, fallback) ==> name == NoModel
  {
    if primary.available then primary.modelName
    else if fallback.available then fallback.modelName
    else NoModel
  }

  /**
   * When neither client is named like the fixed text, a model is available
   * exactly when `getAvailableModel` names one.
   */
  lemma AvailabilityMatchesName(primary: ClientStatus, fallback: ClientStatus)
    requires primary.modelName != NoModel && fallback.modelName != NoModel
    ensures AnyModelAvailable(primary, fallback) <==> AvailableModel(primary, fallback) != NoModel
  {
  }

  /* ---------------- the legacy overloads ---------------- */

  /** The overloads without a language. */
  datatype LegacyMethod =
    ExplanationNoLanguage | QuizByNameNoLanguage | QuizByLevelNoLanguage
    | FlashCardNoLanguage | FlashcardsNoLanguage | FlashcardsWithContextNoLanguage

  const Deprecated: string := "UnsupportedOperationException: Metodo deprecato"
  const ExplanationTail: string := ": la lingua è obbligatoria. Usa generateExplanation(topic, studentLevel, language)"
  const QuizTail: string := ": la lingua è obbligatoria. Usa generateQuiz(topic, numQuestions, difficulty, language)"
  const FlashCardTail: string := ": usa generateFlashcards(topic, numCards, difficulty, language)"
  const FlashcardsTail: string := ": la lingua è obbligatoria. Usa generateFlashcards(topic, numCards, difficulty, language)"
  const WithContextTail: string :=
    ": la lingua è obbligatoria. Usa generateFlashcardsWithContext(topic, numCards, difficulty, context, language)"

  /** Every legacy overload throws `UnsupportedOperationException`, whatever its arguments. */
  function CallLegacy(m: LegacyMethod): (r: Result<string, string>)
    ensures r.Err? && StartsWith(r.error, Deprecated)
  {
    var tail := match m
      case ExplanationNoLanguage => ExplanationTail
      case QuizByNameNoLanguage => QuizTail
      case QuizByLevelNoLanguage => QuizTail
      case FlashCardNoLanguage => FlashCardTail
      case FlashcardsNoLanguage => FlashcardsTail
      case FlashcardsWithContextNoLanguage => WithContextTail;
    assert (Deprecated + tail)[..|Deprecated|] == Deprecated;
    Err(Deprecated + tail)
  }

  /* ---------------- cleaning a JSON answer ---------------- */

  const Fence: string := "```"
  const JsonFence: string := "```json"
  const EmptyAnswer: string := "Risposta AI vuota"

  /** The regular-expression class `\s`: space, tab, line feed, vertical tab, form feed, carriage return. */
  predicate RegexSpace(c: char) {
    c == ' ' || '\t' <= c <= '\r'
  }

  function DropRegexSpace(s: string): (r: string)
    ensures |r| <= |s| && r == s[|s| - |r|..]
  {
    if s != [] && RegexSpace(s[0]) then DropRegexSpace(s[1..]) else s
  }

  /**
   * `replaceAll(tag + "\\s*", "")` for a literal tag: scanning from the
   * left, each occurrence of the tag is removed with the white space after
   * it, and the scan resumes behind what was removed.
   */
  function StripFence(s: string, tag: string): (r: string)
    requires tag != []
    ensures |r| <= |s|
    decreases |s|
  {
    if StartsWith(s, tag) then StripFence(DropRegexSpace(s[|tag|..]), tag)
    else if s == [] then []
    else [s[0]] + StripFence(s[1..], tag)
  }

  /** Three backticks start at index `i`. */
  predicate FenceAt(t: string, i: int)
    requires 0 <= i && i + 3 <= |t|
  {
    t[i] == '`' && t[i + 1] == '`' && t[i + 2] == '`'
  }

  /** No three backticks in a row. */
  predicate FenceFree(t: string) {
    forall i :: 0 <= i && i + 3 <= |t| ==> !FenceAt(t, i)
  }

  lemma StartsWithFence(s: string)
    ensures StartsWith(s, Fence) <==> |s| >= 3 && FenceAt(s, 0)
  {
    assert |Fence| == 3 && Fence[0] == '`' && Fence[1] == '`' && Fence[2] == '`';
    if |s| >= 3 {
      assert s[..3][0] == s[0] && s[..3][1] == s[1] && s[..3][2] == s[2];
      if FenceAt(s, 0) {
        assert s[..3] == Fence;
      }
    }
  }

  /** Stripping starts with the first character when that is not a backtick. */
  lemma StripKeepsFirst(s: string)
    requires s != [] && s[0] != '`'
    ensures var r := StripFence(s, Fence); r != [] && r[0] == s[0]
  {
    StartsWithFence(s);
  }

  /**
   * Removing every "```" with its white space leaves no "```", although the
   * scan never looks back: a kept backtick is never followed by a removed
   * fence, since the fence would then have started at that backtick.
   */
  lemma {:induction false} StripFenceIsFenceFree(s: string)
    ensures FenceFree(StripFence(s, Fence))
    decreases |s|
  {
    StartsWithFence(s);
    if StartsWith(s, Fence) {
      StripFenceIsFenceFree(DropRegexSpace(s[3..]));
    } else if s != [] {
      var tail := StripFence(s[1..], Fence);
      StripFenceIsFenceFree(s[1..]);
      var r := [s[0]] + tail;
      assert StripFence(s, Fence) == r;
      if |r| >= 3 && s[0] == '`' {
        // s does not start with a fence, so s[1] or s[2] is not a backtick.
        if s[1] != '`' {
          StripKeepsFirst(s[1..]);
        } else {
          var u := s[1..];
          StartsWithFence(u);
          assert tail == [u[0]] + StripFence(u[1..], Fence);
          StripKeepsFirst(u[1..]);
        }
        assert !FenceAt(r, 0);
      }
      ConsFenceFree(s[0], tail);
    }
  }

  /** A character put before a fence-free text starts no fence there or leaves it fence-free. */
  lemma ConsFenceFree(c: char, tail: string)
    requires FenceFree(tail) && (|tail| >= 2 ==> !FenceAt([c] + tail, 0))
    ensures FenceFree([c] + tail)
  {
    var r := [c] + tail;
    forall i | 1 <= i && i + 3 <= |r| ensures !FenceAt(r, i) {
      assert r[i] == tail[i - 1] && r[i + 1] == tail[i] && r[i + 2] == tail[i + 1];
      assert !FenceAt(tail, i - 1);
    }
  }

  /** A part of a fence-free text is fence-free. */
  lemma FenceFreeSlice(t: string, lo: int, hi: int)
    requires FenceFree(t) && 0 <= lo <= hi <= |t|
    ensures FenceFree(t[lo..hi])
  {
    var u := t[lo..hi];
    assert forall i :: 0 <= i && i + 3 <= |u| ==> (FenceAt(u, i) <==> FenceAt(t, lo + i));
  }

  /** Trimming keeps a text fence-free. */
  lemma TrimKeepsFenceFree(t: string)
    requires FenceFree(t)
    ensures FenceFree(Trim(t))
  {
    var start := TrimStart(t);
    FenceFreeSlice(t, |t| - |start|, |t|);
    assert start == t[|t| - |start|..|t|];
    FenceFreeSlice(start, 0, |TrimEnd(start)|);
  }

  /**
   * `cleanJsonResponse`: a missing or blank answer is a PARSE_ERROR;
   * otherwise the "```json" fences, then the "```" fences, each with the
   * white space after it, are removed, and the result is trimmed.
   */
  function CleanJsonResponse(response: Option<string>): (r: Result<string, AIError>)
    ensures r.Err? <==> response.None? || IsBlank(response.value)
    ensures r.Err? ==> r.error == AIError(ParseError, EmptyAnswer)
    ensures r.Ok? ==> FenceFree(r.value)
    ensures r.Ok? ==> r.value == [] || (!IsTrimmable(r.value[0]) && !IsTrimmable(r.value[|r.value| - 1]))
  {
    if response.None? || IsBlank(response.value) then Err(AIError(ParseError, EmptyAnswer))
    else
      var stripped := StripFence(StripFence(response.value, JsonFence), Fence);
      StripFenceIsFenceFree(StripFence(response.value, JsonFence));
      TrimKeepsFenceFree(stripped);
      Ok(Trim(stripped))
  }

  /** A text whose first character is not a backtick keeps it when a backtick tag is stripped. */
  lemma StripKeepsHead(s: string, tag: string)
    requires tag != [] && tag[0] == '`' && s != [] && s[0] != '`'
    ensures StripFence(s, tag) == [s[0]] + StripFence(s[1..], tag)
  {
    assert !StartsWith(s, tag) by {
      if |tag| <= |s| { assert s[..|tag|][0] == s[0]; }
    }
  }

  /** Text without backticks passes the stripping of a backtick tag unchanged. */
  lemma {:induction false} StripPlainPrefix(c: string, rest: string, tag: string)
    requires tag != [] && tag[0] == '`'
    requires forall k :: 0 <= k < |c| ==> c[k] != '`'
    ensures StripFence(c + rest, tag) == c + StripFence(rest, tag)
  {
    if c == [] {
      assert c + rest == rest;
    } else {
      var s := c + rest;
      var tail := c[1..];
      assert s[0] == c[0] && s[1..] == tail + rest;
      StripKeepsHead(s, tag);
      StripPlainPrefix(tail, rest, tag);
      assert c == [c[0]] + tail;
    }
  }

  /** A text without backticks: the condition of the fenced-answer lemmas. */
  predicate Plain(c: string) {
    c != [] && !IsTrimmable(c[0]) && !IsTrimmable(c[|c| - 1]) && forall k :: 0 <= k < |c| ==> c[k] != '`'
  }

  const Closing: string := "\n```"

  /** The first pass removes the opening "```json" and the line break after it. */
  lemma StripOpening(c: string)
    requires Plain(c)
    ensures StripFence(JsonFence + ("\n" + (c + Closing)), JsonFence) == c + Closing
  {
    var s := JsonFence + ("\n" + (c + Closing));
    assert StartsWith(s, JsonFence) by { assert s[..|JsonFence|] == JsonFence; }
    assert s[|JsonFence|..] == "\n" + (c + Closing);
    assert DropRegexSpace("\n" + (c + Closing)) == c + Closing by {
      assert ("\n" + (c + Closing))[1..] == c + Closing;
      assert (c + Closing)[0] == c[0];
    }
    StripPlainPrefix(c, Closing, JsonFence);
    assert StripFence(Closing, JsonFence) == Closing by {
      var t := Closing;
      assert !StartsWith(t, JsonFence) && !StartsWith(t[1..], JsonFence) && !StartsWith(t[2..], JsonFence);
      assert !StartsWith(t[3..], JsonFence) && !StartsWith(t[4..], JsonFence);
      assert t[1..][1..] == t[2..] && t[2..][1..] == t[3..] && t[3..][1..] == t[4..] && t[4..] == [];
    }
  }

  /** The second pass removes the closing "```". */
  lemma StripClosing(c: string)
    requires Plain(c)
    ensures StripFence(c + Closing, Fence) == c + "\n"
  {
    StripPlainPrefix(c, Closing, Fence);
    assert StripFence(Closing, Fence) == "\n" by {
      assert !StartsWith(Closing, Fence);
      assert Closing[1..] == Fence;
      assert StartsWith(Closing[1..], Fence);
      assert Closing[1..][|Fence|..] == [];
    }
  }

  /** Trimming drops the line break the closing fence leaves. */
  lemma TrimLineBreak(c: string)
    requires Plain(c)
    ensures Trim(c + "\n") == c
  {
    var stripped := c + "\n";
    TrimStartOfClean(stripped);
    assert TrimEnd(stripped) == TrimEnd(c) by { assert stripped[..|stripped| - 1] == c; }
    TrimEndOfClean(c);
  }

  /** A text without backticks, fenced as a JSON block, is cleaned back to itself. */
  lemma CleanFencedAnswer(c: string)
    requires Plain(c)
    ensures CleanJsonResponse(Some(JsonFence + "\n" + c + Closing)) == Ok(c)
  {
    var s := JsonFence + ("\n" + (c + Closing));
    assert JsonFence + "\n" + c + Closing == s;
    assert !IsBlank(s) by { assert !IsWhitespace(s[0]); }
    StripOpening(c);
    StripClosing(c);
    TrimLineBreak(c);
    assert CleanJsonResponse(Some(s)) == Ok(Trim(StripFence(StripFence(s, JsonFence), Fence)));
  }

  /**
   * `parseFlashcardsResponse` up to the JSON parser: a missing or empty
   * answer is RESPONSE_NULL, a blank one the PARSE_ERROR of the clean-up;
   * otherwise the cleaned text is what gets parsed.
   */
  function FlashcardsJsonText(response: Option<string>): (r: Result<string, AIError>)
    ensures response.None? || response.value == [] ==> r == Err(Default(ResponseNull))
    ensures response.Some? && response.value != [] ==> r == CleanJsonResponse(response)
  {
    if response.None? || response.value == [] then Err(Default(ResponseNull))
    else CleanJsonResponse(response)
  }

  /** An empty answer and a blank one fail differently. */
  lemma EmptyAndBlankDiffer()
    ensures FlashcardsJsonText(Some("")).error.errorType == ResponseNull
    ensures FlashcardsJsonText(Some(" ")).error.errorType == ParseError
  {
    assert IsBlank(" ") by { assert IsWhitespace(" "[0]); }
  }
}
