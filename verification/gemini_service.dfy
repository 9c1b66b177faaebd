/**
 The response handling of services/geminiService.ts: stripping a code fence
 from the model's raw text, checking the parsed payload's required fields, and
 turning every failure into one user-facing message.

 The network call and `JSON.parse` are oracles: a call hands in the endpoint's
 `Reply` and a `parse` function standing for `JSON.parse`, which is applied to
 the sanitized text exactly as the source applies it.
 */
module GeminiService {
  import opened Types
  import opened Strings

  // ---------------------------------------------------------------------------
  // Code-fence sanitizer (sanitizeJsonString)

  const Fence := "```"

  /** The trimmed text is wrapped in fences that do not overlap: the anchors
      `^```` and ```` ```$ ```` of the fence pattern can both match. */
  predicate IsFenced(t: string) {
    |t| >= 6 && t[..3] == Fence && t[|t| - 3..] == Fence
  }

  /** The body the fence pattern captures in a fenced `t`: after the opening
      fence, the maximal `\w*` language tag is skipped, then the greedy `\s*`
      drops leading whitespace (`TrimStart`), and the lazy body stops where only
      whitespace remains before the closing fence (`TrimEnd`). */
  function FenceCapture(t: string): (body: string)
    requires IsFenced(t)
    ensures IsTrimmed(body)
  {
    var inner := t[3..|t| - 3];
    Trim(inner[WordRun(inner)..])
  }

  /** The fence pattern matches and its captured body is non-empty (truthy). */
  predicate HasFencedBody(t: string) {
    IsFenced(t) && FenceCapture(t) != ""
  }

  /** `sanitizeJsonString`. */
  function Sanitize(raw: string): (r: string)
    ensures IsTrimmed(r)
    ensures !HasFencedBody(Trim(raw)) ==> r == Trim(raw)
    ensures HasFencedBody(Trim(raw)) ==> r == FenceCapture(Trim(raw))
  {
    var t := Trim(raw);
    if HasFencedBody(t) then
      TrimIdentity(FenceCapture(t));
      Trim(FenceCapture(t))
    else t
  }

  /** `rest` between an opening fence followed by the tag `tag`, and a closing fence. */
  function Wrap(tag: string, rest: string): string {
    Fence + tag + rest + Fence
  }

  /** On text that is already trimmed and carries no fence, sanitizing is the identity. */
  lemma SanitizeCleanIdentity(s: string)
    requires IsTrimmed(s) && !IsFenced(s)
    ensures Sanitize(s) == s
  {
    TrimIdentity(s);
  }

  /** Text that is not fence-wrapped after trimming comes back trimmed and otherwise unchanged. */
  lemma SanitizeUnfenced(raw: string)
    requires !IsFenced(Trim(raw))
    ensures Sanitize(raw) == Trim(raw)
  {
  }

  /** A fenced payload: opening fence, a `\w` tag, whitespace, a body with
      something other than whitespace in it, whitespace, closing fence, all
      possibly surrounded by more whitespace. When the tag is followed directly
      by the body, the body must not start with a word character (the tag
      would swallow it). The result is exactly the trimmed body. */
  lemma SanitizeStripsFence(outerL: string, tag: string, lead: string, body: string, trail: string, outerR: string)
    requires AllWhitespace(outerL) && AllWhitespace(outerR)
    requires AllWordChars(tag) && AllWhitespace(lead) && AllWhitespace(trail)
    requires Trim(body) != ""
    requires lead != "" || !IsWordChar(body[0])
    ensures Sanitize(outerL + Wrap(tag, lead + body + trail) + outerR) == Trim(body)
  {
    var rest := lead + body + trail;
    var t := Wrap(tag, rest);
    WrapParts(tag, rest);
    TrimOfPadded(outerL, t, outerR);
    RestStartsWithNonWord(lead, body, trail);
    CaptureOf(tag, rest);
    TrimAbsorbsPadding(lead, body, trail);
    assert FenceCapture(t) == Trim(body);
  }

  /** The quirk: a fence around nothing but a tag and whitespace captures an
      empty body, so the trimmed input comes back unchanged, fences included. */
  lemma SanitizeEmptyBody(outerL: string, tag: string, ws: string, outerR: string)
    requires AllWhitespace(outerL) && AllWhitespace(outerR)
    requires AllWordChars(tag) && AllWhitespace(ws)
    ensures Sanitize(outerL + Wrap(tag, ws) + outerR) == Wrap(tag, ws)
  {
    var t := Wrap(tag, ws);
    WrapParts(tag, ws);
    TrimOfPadded(outerL, t, outerR);
    if ws != "" {
      WhitespaceIsNotWordChar(ws[0]);
    }
    CaptureOf(tag, ws);
    TrimOfWhitespace(ws);
    assert FenceCapture(t) == "";
  }

  /** Sanitizing twice changes nothing unless the first result is itself a
      fenced payload (a fence nested inside a fence). */
  lemma SanitizeIdempotentUnlessNested(raw: string)
    requires !HasFencedBody(Sanitize(raw))
    ensures Sanitize(Sanitize(raw)) == Sanitize(raw)
  {
    TrimIdentity(Sanitize(raw));
  }

  /** Sanitizing is not idempotent in general: a fence nested in a fence is
      peeled one layer per call. */
  lemma SanitizeNotIdempotent()
    ensures Sanitize("``` ``` x ``` ```") == "``` x ```"
    ensures Sanitize("``` x ```") == "x"
  {
    NestedLiterals();
    TrimmedNonEmpty("``` x ```");
    SanitizeStripsFence("", "", " ", "``` x ```", " ", "");
    TrimmedNonEmpty("x");
    SanitizeStripsFence("", "", " ", "x", " ", "");
  }

  lemma TrimmedNonEmpty(body: string)
    requires body != "" && IsTrimmed(body)
    ensures Trim(body) == body != ""
  {
    TrimIdentity(body);
  }

  lemma NestedLiterals()
    ensures AllWhitespace(" ") && AllWhitespace("") && AllWordChars("")
    ensures IsTrimmed("``` x ```") && IsTrimmed("x")
    ensures "" + Wrap("", " " + "``` x ```" + " ") + "" == "``` ``` x ``` ```"
    ensures "" + Wrap("", " " + "x" + " ") + "" == "``` x ```"
  {
  }

  lemma WrapParts(tag: string, rest: string)
    ensures IsFenced(Wrap(tag, rest)) && IsTrimmed(Wrap(tag, rest))
    ensures Wrap(tag, rest)[3..|Wrap(tag, rest)| - 3] == tag + rest
  {
    var t := Wrap(tag, rest);
    assert t == Fence + (tag + rest) + Fence;
    assert t[..3] == Fence;
    assert t[|t| - 3..] == Fence;
    assert t[0] == '`' && t[|t| - 1] == '`';
  }

  /** What the fence pattern captures when the tag is exactly `tag`. */
  lemma CaptureOf(tag: string, rest: string)
    requires AllWordChars(tag)
    requires rest == "" || !IsWordChar(rest[0])
    ensures IsFenced(Wrap(tag, rest))
    ensures FenceCapture(Wrap(tag, rest)) == Trim(rest)
  {
    WrapParts(tag, rest);
    WordRunStops(tag, rest);
    DropPrefix(tag, rest);
  }

  lemma DropPrefix(a: string, b: string)
    ensures (a + b)[|a|..] == b
  {
  }

  lemma RestStartsWithNonWord(lead: string, body: string, trail: string)
    requires AllWhitespace(lead)
    requires body != "" && (lead != "" || !IsWordChar(body[0]))
    ensures lead + body + trail != "" && !IsWordChar((lead + body + trail)[0])
  {
    if lead != "" {
      WhitespaceIsNotWordChar(lead[0]);
      assert (lead + body + trail)[0] == lead[0];
    } else {
      assert (lead + body + trail)[0] == body[0];
    }
  }

  // ---------------------------------------------------------------------------
  // Oracles for the endpoint and for JSON.parse

  /** What a `catch` clause receives: an `Error` carrying a message, or some
      other thrown value. */
  datatype Thrown = Raised(message: string) | RaisedNonError

  /** The endpoint's answer: its generated text, no text at all (`response.text`
      is `undefined`), or a rejected call. */
  datatype Reply = Responded(text: string) | NoText | CallFailed(error: Thrown)

  /** `JSON.parse` followed by the field reads: the parsed object, or the
      exception raised on the way (a `SyntaxError` for malformed text, a
      `TypeError` when the payload is `null`). The engine words the message. */
  datatype Parsed<T> = ParsedObject(value: T) | ParseFailed(message: string)

  /** The teaching payload as parsed: each field absent (`None`) or a string. */
  datatype RawTeachingDetails = RawTeachingDetails(
    partOfSpeech: Option<string>,
    exampleSentence: Option<string>,
    exampleSentenceTranslation: Option<string>,
    challengePrompt: Option<string>)

  /** The feedback payload as parsed. */
  datatype RawFeedback = RawFeedback(feedbackText: Option<string>)

  // ---------------------------------------------------------------------------
  // Messages

  // The longer messages are spelt as concatenations of short literals: the
  // verifier reads the characters of a short literal but not of a long one.

  const InvalidKeyPhrase := "API key not valid"
  const InvalidKeyMessage := "Gemini API key " + "is not valid. " + "Please check your " + "configuration."
  const MissingFieldsMessage := "Gemini response " + "missing required " + "fields."
  const MissingFeedbackMessage := "Gemini feedback " + "response missing " + "'feedbackText' field."
  const FeedbackFailureMessage := "小雅老師的魔法水晶球好像有點秀逗了，無法給出評價耶！"
  /** The message V8 raises for `undefined.trim()`. */
  const NoTextMessage := "Cannot read " + "properties of " + "undefined " + "(reading 'trim')"
  const UnknownErrorMessage := "Unknown error"

  const TeachingFailurePrefix := "小雅老師的魔法水晶球好像有點秀逗了，無法取得「"

  function TeachingFailureMessage(word: string): string {
    TeachingFailurePrefix + word + "」的詳細資料耶！"
  }

  /** `error instanceof Error ? error.message : "Unknown error"`. */
  function MessageOf(e: Thrown): string {
    match e
    case Raised(m) => m
    case RaisedNonError => UnknownErrorMessage
  }

  /** The user-facing message for a failed call: the invalid-key message when
      the failure's message mentions the invalid-key phrase, else `generic`. */
  function MapFailure(e: Thrown, generic: string): (m: string)
    // in summary, one of the two messages; the next two clauses say which
    ensures m == InvalidKeyMessage || m == generic
    ensures Includes(MessageOf(e), InvalidKeyPhrase) ==> m == InvalidKeyMessage
    ensures !Includes(MessageOf(e), InvalidKeyPhrase) ==> m == generic
  {
    if Includes(MessageOf(e), InvalidKeyPhrase) then InvalidKeyMessage else generic
  }

  // ---------------------------------------------------------------------------
  // Validation

  /** JavaScript truthiness of a string field: present and non-empty. */
  predicate Present(f: Option<string>) {
    f.Some? && f.value != ""
  }

  /** The required-field check of `generateWordTeachingDetails`. */
  function ValidateTeaching(raw: RawTeachingDetails): (r: Result<TeachingDetails, Thrown>)
    ensures r.Success? <==>
      Present(raw.partOfSpeech) && Present(raw.exampleSentence)
      && Present(raw.exampleSentenceTranslation) && Present(raw.challengePrompt)
    ensures r.Success? ==>
      && Some(r.value.partOfSpeech) == raw.partOfSpeech
      && Some(r.value.exampleSentence) == raw.exampleSentence
      && Some(r.value.exampleSentenceTranslation) == raw.exampleSentenceTranslation
      && Some(r.value.challengePrompt) == raw.challengePrompt
    ensures r.Failure? ==> r.error == Raised(MissingFieldsMessage)
  {
    if !Present(raw.partOfSpeech) || !Present(raw.exampleSentence)
      || !Present(raw.exampleSentenceTranslation) || !Present(raw.challengePrompt)
    then Failure(Raised(MissingFieldsMessage))
    else Success(TeachingDetails(raw.partOfSpeech.value, raw.exampleSentence.value,
                                 raw.exampleSentenceTranslation.value, raw.challengePrompt.value))
  }

  /** The required-field check of `evaluateStudentResponse`. */
  function ValidateFeedback(raw: RawFeedback): (r: Result<Feedback, Thrown>)
    ensures r.Success? <==> Present(raw.feedbackText)
    ensures r.Success? ==> Some(r.value.feedbackText) == raw.feedbackText
    ensures r.Failure? ==> r.error == Raised(MissingFeedbackMessage)
  {
    if !Present(raw.feedbackText) then Failure(Raised(MissingFeedbackMessage))
    else Success(Feedback(raw.feedbackText.value))
  }

  /** The soft check: the example sentence does not contain the word, compared
      case-insensitively. The source only logs a warning when this holds. */
  predicate ExampleMissesWord(word: string, sentence: string) {
    !Includes(ToLower(sentence), ToLower(word))
  }

  // ---------------------------------------------------------------------------
  // The two calls

  /** Everything that happens inside the `try` block once the endpoint has
      answered: sanitize, parse, validate. A failure is the thrown value. */
  function Receive<T, U>(reply: Reply, parse: string -> Parsed<T>, validate: T -> Result<U, Thrown>)
    : (r: Result<U, Thrown>)
    ensures r.Success? <==>
      reply.Responded? && parse(Sanitize(reply.text)).ParsedObject? &&
      validate(parse(Sanitize(reply.text)).value).Success?
    ensures reply.Responded? && parse(Sanitize(reply.text)).ParsedObject? ==>
      r == validate(parse(Sanitize(reply.text)).value)
    ensures reply.Responded? && parse(Sanitize(reply.text)).ParseFailed? ==>
      r == Failure(Raised(parse(Sanitize(reply.text)).message))
    ensures reply.CallFailed? ==> r == Failure(reply.error)
    ensures reply.NoText? ==> r == Failure(Raised(NoTextMessage))
  {
    match reply
    case CallFailed(e) => Failure(e)
    case NoText => Failure(Raised(NoTextMessage))
    case Responded(text) =>
      match parse(Sanitize(text))
      case ParseFailed(m) => Failure(Raised(m))
      case ParsedObject(raw) => validate(raw)
  }

  /** `generateWordTeachingDetails(word, …)`: the validated details, or the
      user-facing message its `catch` block throws. */
  function GenerateWordTeachingDetails(word: string, reply: Reply, parse: string -> Parsed<RawTeachingDetails>)
    : (r: Result<TeachingDetails, string>)
    ensures r.Success? <==>
      reply.Responded? && parse(Sanitize(reply.text)).ParsedObject? &&
      ValidateTeaching(parse(Sanitize(reply.text)).value).Success?
    ensures r.Success? ==> r.value == ValidateTeaching(parse(Sanitize(reply.text)).value).value
    ensures r.Failure? ==> r.error == InvalidKeyMessage || r.error == TeachingFailureMessage(word)
    ensures reply.CallFailed? ==>
      (r == Failure(InvalidKeyMessage) <==> Includes(MessageOf(reply.error), InvalidKeyPhrase))
  {
    GenericMessagesDiffer(word);
    match Receive(reply, parse, ValidateTeaching)
    case Success(details) => Success(details)
    case Failure(e) => Failure(MapFailure(e, TeachingFailureMessage(word)))
  }

  /** `evaluateStudentResponse(wordLearned, studentResponse, …)`: the validated
      feedback, or the user-facing message its `catch` block throws. */
  function EvaluateStudentResponse(wordLearned: string, studentResponse: string, reply: Reply,
                                   parse: string -> Parsed<RawFeedback>)
    : (r: Result<Feedback, string>)
    ensures r.Success? <==>
      reply.Responded? && parse(Sanitize(reply.text)).ParsedObject? &&
      Present(parse(Sanitize(reply.text)).value.feedbackText)
    ensures r.Success? ==> Some(r.value.feedbackText) == parse(Sanitize(reply.text)).value.feedbackText
    ensures r.Failure? ==> r.error == InvalidKeyMessage || r.error == FeedbackFailureMessage
    ensures reply.CallFailed? ==>
      (r == Failure(InvalidKeyMessage) <==> Includes(MessageOf(reply.error), InvalidKeyPhrase))
  {
    GenericMessagesDiffer(wordLearned);
    match Receive(reply, parse, ValidateFeedback)
    case Success(feedback) => Success(feedback)
    case Failure(e) => Failure(MapFailure(e, FeedbackFailureMessage))
  }

  // ---------------------------------------------------------------------------
  // Properties of the error mapping

  lemma GenericMessagesDiffer(word: string)
    ensures TeachingFailureMessage(word) != InvalidKeyMessage
    ensures FeedbackFailureMessage != InvalidKeyMessage
  {
    assert InvalidKeyMessage[0] == 'G';
    assert TeachingFailureMessage(word)[0] == TeachingFailurePrefix[0] == '小';
    assert FeedbackFailureMessage[0] == '小';
  }

  /** The messages raised inside the `try` blocks by the source itself (and the
      fallback for a non-`Error`) never mention the invalid-key phrase: none of
      them contains its first letter. */
  lemma FixedMessagesLackPhrase()
    ensures !Includes(MissingFieldsMessage, InvalidKeyPhrase)
    ensures !Includes(MissingFeedbackMessage, InvalidKeyPhrase)
    ensures !Includes(NoTextMessage, InvalidKeyPhrase)
    ensures !Includes(UnknownErrorMessage, InvalidKeyPhrase)
  {
    MissingFieldsLacksA();
    MissingFeedbackLacksA();
    NoTextLacksA();
    NotIncluded(MissingFieldsMessage, InvalidKeyPhrase);
    NotIncluded(MissingFeedbackMessage, InvalidKeyPhrase);
    NotIncluded(NoTextMessage, InvalidKeyPhrase);
    NotIncluded(UnknownErrorMessage, InvalidKeyPhrase);
  }

  lemma MissingFieldsLacksA()
    ensures 'A' !in MissingFieldsMessage
  {
    assert 'A' !in "Gemini response " && 'A' !in "missing required " && 'A' !in "fields.";
  }

  lemma MissingFeedbackLacksA()
    ensures 'A' !in MissingFeedbackMessage
  {
    assert 'A' !in "Gemini feedback " && 'A' !in "response missing " && 'A' !in "'feedbackText' field.";
  }

  lemma NoTextLacksA()
    ensures 'A' !in NoTextMessage
  {
    assert 'A' !in "Cannot read " && 'A' !in "properties of " && 'A' !in "undefined " && 'A' !in "(reading 'trim')";
  }

  /** A payload with a missing or empty field never produces the invalid-key
      message: its teaching call fails with the generic message naming the word. */
  lemma TeachingValidationFailureIsGeneric(word: string, text: string, parse: string -> Parsed<RawTeachingDetails>)
    requires parse(Sanitize(text)).ParsedObject?
    requires ValidateTeaching(parse(Sanitize(text)).value).Failure?
    ensures GenerateWordTeachingDetails(word, Responded(text), parse) == Failure(TeachingFailureMessage(word))
  {
    FixedMessagesLackPhrase();
    GenericMessagesDiffer(word);
  }

  /** A feedback payload without `feedbackText` fails with the generic message. */
  lemma FeedbackValidationFailureIsGeneric(wordLearned: string, studentResponse: string, text: string,
                                           parse: string -> Parsed<RawFeedback>)
    requires parse(Sanitize(text)).ParsedObject?
    requires !Present(parse(Sanitize(text)).value.feedbackText)
    ensures EvaluateStudentResponse(wordLearned, studentResponse, Responded(text), parse)
            == Failure(FeedbackFailureMessage)
  {
    FixedMessagesLackPhrase();
    GenericMessagesDiffer("");
  }

  /** A thrown non-`Error` value and a missing response text both map to the
      generic message. */
  lemma OpaqueFailuresAreGeneric(word: string, parseT: string -> Parsed<RawTeachingDetails>,
                                 parseF: string -> Parsed<RawFeedback>, attempt: string)
    ensures GenerateWordTeachingDetails(word, CallFailed(RaisedNonError), parseT) == Failure(TeachingFailureMessage(word))
    ensures GenerateWordTeachingDetails(word, NoText, parseT) == Failure(TeachingFailureMessage(word))
    ensures EvaluateStudentResponse(word, attempt, CallFailed(RaisedNonError), parseF) == Failure(FeedbackFailureMessage)
    ensures EvaluateStudentResponse(word, attempt, NoText, parseF) == Failure(FeedbackFailureMessage)
  {
    FixedMessagesLackPhrase();
    GenericMessagesDiffer(word);
  }

  /** A parse failure maps by its message like any other failure: to the
      generic message unless the engine's message quotes the invalid-key phrase. */
  lemma ParseFailureMapping(word: string, text: string, parse: string -> Parsed<RawTeachingDetails>)
    requires parse(Sanitize(text)).ParseFailed?
    ensures var r := GenerateWordTeachingDetails(word, Responded(text), parse);
      && (Includes(parse(Sanitize(text)).message, InvalidKeyPhrase) ==> r == Failure(InvalidKeyMessage))
      && (!Includes(parse(Sanitize(text)).message, InvalidKeyPhrase) ==> r == Failure(TeachingFailureMessage(word)))
  {
  }

  /** The same mapping for the evaluation call: a parse failure gives the
      invalid-key message exactly when the engine's message quotes the phrase. */
  lemma EvaluationParseFailureMapping(wordLearned: string, studentResponse: string, text: string,
                                      parse: string -> Parsed<RawFeedback>)
    requires parse(Sanitize(text)).ParseFailed?
    ensures var r := EvaluateStudentResponse(wordLearned, studentResponse, Responded(text), parse);
      && (Includes(parse(Sanitize(text)).message, InvalidKeyPhrase) ==> r == Failure(InvalidKeyMessage))
      && (!Includes(parse(Sanitize(text)).message, InvalidKeyPhrase) ==> r == Failure(FeedbackFailureMessage))
  {
  }

  /** The soft check never changes the outcome: a complete payload is returned
      exactly as parsed. `WarnedPayloadAccepted` shows a payload the check
      warns about being accepted. */
  lemma WarningDoesNotBlock(word: string, text: string, raw: RawTeachingDetails,
                            parse: string -> Parsed<RawTeachingDetails>)
    requires parse(Sanitize(text)) == ParsedObject(raw)
    requires Present(raw.partOfSpeech) && Present(raw.exampleSentence)
    requires Present(raw.exampleSentenceTranslation) && Present(raw.challengePrompt)
    ensures GenerateWordTeachingDetails(word, Responded(text), parse)
      == Success(TeachingDetails(raw.partOfSpeech.value, raw.exampleSentence.value,
                                 raw.exampleSentenceTranslation.value, raw.challengePrompt.value))
  {
  }

  /** The soft check compares both sides lower-cased, so the letter case of
      either side does not matter. */
  lemma WarningIgnoresCase(word: string, sentence: string)
    ensures ExampleMissesWord(word, sentence) <==> ExampleMissesWord(ToLower(word), ToLower(sentence))
  {
    ToLowerIdempotent(word);
    ToLowerIdempotent(sentence);
  }

  /** The warning fires on an example sentence for "apple" that lacks the word,
      and the payload is still returned as parsed. */
  lemma WarnedPayloadAccepted(text: string, parse: string -> Parsed<RawTeachingDetails>)
    requires parse(Sanitize(text))
      == ParsedObject(RawTeachingDetails(Some("n."), Some("I run."), Some("我跑。"), Some("Go!")))
    ensures ExampleMissesWord("apple", "I run.")
    ensures GenerateWordTeachingDetails("apple", Responded(text), parse)
      == Success(TeachingDetails("n.", "I run.", "我跑。", "Go!"))
  {
    SentenceLacksApple();
    WarningDoesNotBlock("apple", text,
      RawTeachingDetails(Some("n."), Some("I run."), Some("我跑。"), Some("Go!")), parse);
  }

  lemma SentenceLacksApple()
    ensures ExampleMissesWord("apple", "I run.")
  {
    var lowered := ToLower("I run.");
    assert lowered[0] == 'i' && lowered[1] == ' ' && lowered[2] == 'r';
    assert lowered[3] == 'u' && lowered[4] == 'n' && lowered[5] == '.';
    assert ToLower("apple")[0] == 'a';
    assert 'a' !in lowered;
    NotIncluded(lowered, ToLower("apple"));
  }
}
