/**
 Properties of the session orchestrator over whole runs: the invariant every
 reachable session keeps, the history the log never loses, the curriculum
 lookup, the cyclic cursor, and the two request round trips.
 */
module AppProperties {
  import opened Types
  import opened Strings
  import opened Constants
  import opened GeminiService
  import opened App

  /** What holds of every session the app can reach. */
  ghost predicate Valid(s: Session) {
    && -1 <= s.vocabIndex < |VocabularyList()|
    && (!s.IsBotLoading() ==> NoLoading(s.messages))
    && (s.IsBotLoading() ==>
          && |s.messages| > 0 && s.messages[|s.messages| - 1] == Loading(Bot)
          && NoLoading(s.messages[..|s.messages| - 1]))
    && (s.pendingWord.Some? ==> s.pendingWord.value != "")
    && (s.inFlight.Some? && s.inFlight.value.Teach? ==>
          s.pendingWord.None? && s.inFlight.value.word.english != "")
    && (s.inFlight.Some? && s.inFlight.value.Evaluate? ==>
          s.pendingWord == Some(s.inFlight.value.wordLearned))
  }

  /** One user action or one settled call. A settle event only ever resumes the
      request that is in flight; one that does not match it changes nothing. */
  datatype Event =
    | Submitted(userInput: string)
    | NextWordPressed
    | TeachingSettled(teaching: Result<TeachingDetails, string>)
    | EvaluationSettled(evaluation: Result<Feedback, string>)

  function Step(s: Session, e: Event): (r: Session)
    requires s.vocabIndex >= -1
    ensures r.vocabIndex >= -1
    ensures RemoveLoading(s.messages) <= RemoveLoading(r.messages)
  {
    match e
    case Submitted(u) => HandleUserSubmit(s, u)
    case NextWordPressed => HandleNextWord(s)
    case TeachingSettled(o) =>
      if s.inFlight.Some? && s.inFlight.value.Teach? then
        var r := SettleTeachWord(s, o);
        assert RemoveLoading(r.messages) == r.messages;
        r
      else s
    case EvaluationSettled(o) =>
      if s.inFlight.Some? && s.inFlight.value.Evaluate? then
        var r := SettleEvaluation(s, o);
        assert RemoveLoading(r.messages) == r.messages;
        r
      else s
  }

  function Run(s: Session, events: seq<Event>): (r: Session)
    requires s.vocabIndex >= -1
    ensures r.vocabIndex >= -1
    decreases |events|
  {
    if events == [] then s else Run(Step(s, events[0]), events[1..])
  }

  // ---------------------------------------------------------------------------
  // The invariant

  lemma InitialValid()
    ensures Valid(InitialSession())
  {
  }

  /** Every action and settled call keeps the invariant. */
  lemma StepPreservesValid(s: Session, e: Event)
    requires Valid(s)
    ensures Valid(Step(s, e))
  {
    match e
    case Submitted(u) => SubmitPreservesValid(s, u);
    case NextWordPressed => NextWordPreservesValid(s);
    case TeachingSettled(o) =>
      if s.inFlight.Some? && s.inFlight.value.Teach? {
        TeachSettlePreservesValid(s, o);
      }
    case EvaluationSettled(o) =>
      if s.inFlight.Some? && s.inFlight.value.Evaluate? {
        EvaluationSettlePreservesValid(s, o);
      }
  }

  lemma SubmitPreservesValid(s: Session, u: string)
    requires Valid(s)
    ensures Valid(HandleUserSubmit(s, u))
  {
    var t := Trim(u);
    if t != "" && !s.IsBotLoading() && !s.AwaitingFeedback() {
      var w := ResolveWord(t);
      assert w.english != "" by {
        if w.isCore {
          var e :| e in VocabularyList() && w == WordToTeach(e.english, e.chinese, true);
        }
      }
    }
  }

  lemma NextWordPreservesValid(s: Session)
    requires Valid(s)
    ensures Valid(HandleNextWord(s))
  {
  }

  lemma TeachSettlePreservesValid(s: Session, o: Result<TeachingDetails, string>)
    requires Valid(s) && s.inFlight.Some? && s.inFlight.value.Teach?
    ensures Valid(SettleTeachWord(s, o))
  {
  }

  lemma EvaluationSettlePreservesValid(s: Session, o: Result<Feedback, string>)
    requires Valid(s) && s.inFlight.Some? && s.inFlight.value.Evaluate?
    ensures Valid(SettleEvaluation(s, o))
  {
  }

  /** Every session reached from the initial one keeps the invariant. */
  lemma {:induction false} RunPreservesValid(s: Session, events: seq<Event>)
    requires Valid(s)
    ensures Valid(Run(s, events))
    decreases |events|
  {
    if events != [] {
      StepPreservesValid(s, events[0]);
      RunPreservesValid(Step(s, events[0]), events[1..]);
    }
  }

  /** Messages other than loading markers are never removed or reordered: what
      a session shows, loading markers aside, is a prefix of what it shows after
      any run of actions and settled calls. */
  lemma {:induction false} RunKeepsHistory(s: Session, events: seq<Event>)
    requires s.vocabIndex >= -1
    ensures RemoveLoading(s.messages) <= RemoveLoading(Run(s, events).messages)
    decreases |events|
  {
    if events != [] {
      var s' := Step(s, events[0]);
      RunKeepsHistory(s', events[1..]);
    }
  }

  lemma {:induction false} NoLoadingCount(log: seq<Message>)
    requires NoLoading(log)
    ensures LoadingCount(log) == 0
    decreases |log|
  {
    if log != [] {
      NoLoadingCount(log[..|log| - 1]);
    }
  }

  /** At most one loading marker is ever in the log, and none while nothing is in flight. */
  lemma AtMostOneLoading(s: Session)
    requires Valid(s)
    ensures LoadingCount(s.messages) <= 1
    ensures !s.IsBotLoading() ==> LoadingCount(s.messages) == 0
    ensures s.IsBotLoading() ==> LoadingCount(s.messages) == 1
  {
    if s.IsBotLoading() {
      NoLoadingCount(s.messages[..|s.messages| - 1]);
    } else {
      NoLoadingCount(s.messages);
    }
  }

  // ---------------------------------------------------------------------------
  // Submitting

  /** An accepted submit first appends the trimmed text as one user message,
      then the loading marker; nothing before it changes. */
  lemma SubmitAppendsUserText(s: Session, userInput: string)
    requires NoLoading(s.messages) && !s.IsBotLoading() && Trim(userInput) != ""
    ensures HandleUserSubmit(s, userInput).messages
            == s.messages + [Text(User, Trim(userInput)), Loading(Bot)]
  {
    LogThenMark(s.messages, Text(User, Trim(userInput)));
  }

  /** With no word pending, an accepted submit teaches the word the lookup
      resolves: once the call succeeds, the log gained the user's text and the
      card, and the taught word is pending. */
  lemma SubmitTeachesCard(s: Session, userInput: string, details: TeachingDetails)
    requires NoLoading(s.messages) && !s.IsBotLoading() && !s.AwaitingFeedback() && Trim(userInput) != ""
    ensures var r := SettleTeachWord(HandleUserSubmit(s, userInput), Success(details));
      && !r.IsBotLoading()
      && r.pendingWord == Some(ResolveWord(Trim(userInput)).english)
      && r.messages == s.messages + [Text(User, Trim(userInput)), Card(Bot, MakeCard(ResolveWord(Trim(userInput)), details))]
  {
    var t := Trim(userInput);
    SubmitAppendsUserText(s, userInput);
    ClearMark(s.messages, Text(User, t));
    AppendOne(s.messages, Text(User, t), Card(Bot, MakeCard(ResolveWord(t), details)));
  }

  /** The card for a submitted word: a curriculum word in any letter case gets
      the entry's own spelling and meaning and is flagged core vocabulary; any
      other word is shown as typed, with the placeholder meaning, not flagged.
      The other four fields are the details as returned. */
  lemma CardOfSubmittedWord(input: string, details: TeachingDetails)
    ensures var c := MakeCard(ResolveWord(input), details);
      && c.partOfSpeech == details.partOfSpeech && c.exampleSentence == details.exampleSentence
      && c.exampleSentenceTranslation == details.exampleSentenceTranslation
      && c.challengePrompt == details.challengePrompt
      && (forall i :: 0 <= i < |VocabularyList()| && VocabularyList()[i].english == ToLower(input) ==>
            c.english == VocabularyList()[i].english && c.chineseCoreMeaning == VocabularyList()[i].chinese
            && c.isCoreVocab)
      && ((forall i :: 0 <= i < |VocabularyList()| ==> VocabularyList()[i].english != ToLower(input)) ==>
            c.english == input && c.chineseCoreMeaning == CustomWordMeaning && !c.isCoreVocab)
  {
    var list := VocabularyList();
    forall i | 0 <= i < |list| && list[i].english == ToLower(input)
      ensures ResolveWord(input) == CoreWord(list[i])
    {
      ResolveCoreWord(input, i);
    }
    if forall i :: 0 <= i < |list| ==> list[i].english != ToLower(input) {
      ResolveCustomWord(input);
    }
  }

  /** No entry's word is matched by two entries: at most one candidate for `find`. */
  lemma LookupUnique(input: string, i: int, j: int)
    requires 0 <= i < |VocabularyList()| && 0 <= j < |VocabularyList()|
    requires Matches(VocabularyList()[i], input) && Matches(VocabularyList()[j], input)
    ensures i == j
  {
    var list := VocabularyList();
    VocabularyWellFormed();
    LowercaseFixed(list[i].english);
    LowercaseFixed(list[j].english);
  }

  /** A typed word that names curriculum entry `i`, in any letter case, is
      taught as that entry: its canonical spelling and meaning, flagged core. */
  lemma ResolveCoreWord(input: string, i: int)
    requires 0 <= i < |VocabularyList()|
    requires ToLower(input) == VocabularyList()[i].english
    ensures ResolveWord(input) == CoreWord(VocabularyList()[i])
  {
    var list := VocabularyList();
    VocabularyWellFormed();
    LowercaseFixed(list[i].english);
    assert Matches(list[i], input);
    var k := FindFrom(list, input, 0);
    assert k.Some?;
    LookupUnique(input, i, k.value);
  }

  /** A typed word that names no curriculum entry is taught as typed, with the
      placeholder meaning, not flagged core. */
  lemma ResolveCustomWord(input: string)
    requires forall i :: 0 <= i < |VocabularyList()| ==> VocabularyList()[i].english != ToLower(input)
    ensures ResolveWord(input) == WordToTeach(input, CustomWordMeaning, false)
  {
  }

  /** A curriculum word typed in capitals is still recognised: the lookup
      ignores letter case. */
  lemma ResolveIgnoresCase()
    ensures ResolveWord("APPLE") == CoreWord(VocabularyList()[0])
  {
    var lowered := ToLower("APPLE");
    assert lowered[0] == 'a' && lowered[1] == 'p' && lowered[2] == 'p';
    assert lowered[3] == 'l' && lowered[4] == 'e';
    assert lowered == "apple";
    ResolveCoreWord("APPLE", 0);
  }

  // ---------------------------------------------------------------------------
  // The curriculum cursor

  /** The cursor after `n` presses, one place each, wrapping after the last entry. */
  function CursorAfter(v: int, n: nat): int
    decreases n
  {
    if n == 0 then v else CursorAfter((v + 1) % |VocabularyList()|, n - 1)
  }

  /** `n` presses of "next word", each followed by its teaching call settling.
      Each round moves the cursor one place, whether the teaching call succeeded
      or failed, so after the rounds it is where `n` single moves put it. */
  function TeachRounds(s: Session, outcomes: seq<Result<TeachingDetails, string>>): (r: Session)
    requires s.vocabIndex >= -1 && !s.IsBotLoading()
    ensures r.vocabIndex >= -1 && !r.IsBotLoading()
    ensures r.vocabIndex == CursorAfter(s.vocabIndex, |outcomes|)
    decreases |outcomes|
  {
    if outcomes == [] then s
    else
      RoundAdvancesCursor(s, outcomes[0]);
      TeachRounds(SettleTeachWord(HandleNextWord(s), outcomes[0]), outcomes[1..])
  }

  /** One round moves the cursor one place, wrapping after the last entry. */
  lemma RoundAdvancesCursor(s: Session, outcome: Result<TeachingDetails, string>)
    requires s.vocabIndex >= -1 && !s.IsBotLoading()
    ensures SettleTeachWord(HandleNextWord(s), outcome).vocabIndex == (s.vocabIndex + 1) % |VocabularyList()|
  {
  }

  lemma {:induction false} ModShift(a: int, k: int)
    requires a >= 0 && k >= 0
    ensures (a % |VocabularyList()| + k) % |VocabularyList()| == (a + k) % |VocabularyList()|
    decreases a
  {
    if a >= |VocabularyList()| {
      ModShift(a - |VocabularyList()|, k);
    }
  }

  /** `n >= 1` moves from a cursor at or after -1 land on `(v + n)` modulo the
      curriculum length. */
  lemma {:induction false} CursorAfterIsMod(v: int, n: nat)
    requires v >= -1 && n >= 1
    ensures CursorAfter(v, n) == (v + n) % |VocabularyList()|
    decreases n
  {
    if n > 1 {
      CursorAfterIsMod((v + 1) % |VocabularyList()|, n - 1);
      ModShift(v + 1, n - 1);
    }
  }

  /** Since the cursor starts at -1, the first press teaches the first entry. */
  lemma FirstPressTeachesFirstEntry()
    ensures HandleNextWord(InitialSession()).vocabIndex == 0
    ensures HandleNextWord(InitialSession()).inFlight == Some(Teach(CoreWord(VocabularyList()[0])))
  {
  }

  /** After the last entry the cursor wraps back to the first. */
  lemma CursorWraps(s: Session)
    requires Valid(s) && !s.IsBotLoading() && s.vocabIndex == |VocabularyList()| - 1
    ensures HandleNextWord(s).vocabIndex == 0
  {
  }

  /** From the initial cursor, the round that follows `n` earlier rounds shows
      entry `n` modulo the curriculum length. */
  lemma RoundsFromStart(n: nat)
    ensures CursorAfter(InitialSession().vocabIndex, n + 1) == n % |VocabularyList()|
  {
    CursorAfterIsMod(-1, n + 1);
  }

  // ---------------------------------------------------------------------------
  // Round trips

  /** A teaching call from start to settle: a success leaves the taught word
      pending, a failure leaves no pending word; either way the session is idle
      again and exactly one bot message was added. */
  lemma TeachRoundTrip(s: Session, w: WordToTeach, outcome: Result<TeachingDetails, string>)
    requires Valid(s) && !s.IsBotLoading()
    ensures var r := SettleTeachWord(StartTeachWord(s, w), outcome);
      && !r.IsBotLoading()
      && (outcome.Success? ==>
            r.pendingWord == Some(w.english) && r.messages == s.messages + [Card(Bot, MakeCard(w, outcome.value))])
      && (outcome.Failure? ==>
            r.pendingWord.None? && r.messages == s.messages + [Error(Bot, outcome.error)])
  {
    RemoveTrailingLoading(s.messages);
  }

  /** With a word pending, any accepted text, a curriculum word included, is
      judged against that word. */
  lemma SubmitWhilePendingEvaluates(s: Session, userInput: string)
    requires !s.IsBotLoading() && s.AwaitingFeedback() && Trim(userInput) != ""
    ensures HandleUserSubmit(s, userInput).inFlight == Some(Evaluate(s.pendingWord.value, Trim(userInput)))
    ensures HandleUserSubmit(s, userInput).pendingWord == s.pendingWord
  {
  }

  /** When the evaluation settles the pending word is gone, the session is idle,
      and the log gained the user's text followed by the feedback and the
      follow-up prompt, or by one error message. */
  lemma EvaluationRoundTrip(s: Session, userInput: string, outcome: Result<Feedback, string>)
    requires NoLoading(s.messages) && !s.IsBotLoading() && s.AwaitingFeedback() && Trim(userInput) != ""
    ensures var r := SettleEvaluation(HandleUserSubmit(s, userInput), outcome);
      && !r.IsBotLoading() && r.pendingWord.None?
      && (outcome.Success? ==> r.messages == s.messages + [Text(User, Trim(userInput)),
            Text(Bot, outcome.value.feedbackText), Text(Bot, FollowUpPrompt)])
      && (outcome.Failure? ==> r.messages == s.messages + [Text(User, Trim(userInput)),
            Error(Bot, outcome.error)])
  {
    var t := Trim(userInput);
    SubmitAppendsUserText(s, userInput);
    ClearMark(s.messages, Text(User, t));
    match outcome
    case Success(f) => AppendTwo(s.messages, Text(User, t), Text(Bot, f.feedbackText), Text(Bot, FollowUpPrompt));
    case Failure(m) => AppendOne(s.messages, Text(User, t), Error(Bot, m));
  }

  // ---------------------------------------------------------------------------
  // Scenarios

  /** "Next word" from a fresh session teaches "apple"; once the card is shown
      the student's sentence is judged against "apple", and the session falls
      back to idle when the feedback arrives. */
  lemma AppleScenario(details: TeachingDetails, feedback: Feedback)
    ensures var s1 := SettleTeachWord(HandleNextWord(InitialSession()), Success(details));
      && s1.pendingWord == Some("apple")
      && s1.messages[|s1.messages| - 1].Card?
      && s1.messages[|s1.messages| - 1].card.isCoreVocab
      && s1.messages[|s1.messages| - 1].card.english == "apple"
      && var s2 := HandleUserSubmit(s1, "I eat apple");
      && s2.inFlight == Some(Evaluate("apple", "I eat apple"))
      && var s3 := SettleEvaluation(s2, Success(feedback));
      && s3.pendingWord.None? && !s3.IsBotLoading()
      && s3.messages[|s3.messages| - 2] == Text(Bot, feedback.feedbackText)
  {
    var s1 := SettleTeachWord(HandleNextWord(InitialSession()), Success(details));
    assert IsTrimmed("I eat apple");
    TrimIdentity("I eat apple");
    InitialValid();
    StepPreservesValid(InitialSession(), NextWordPressed);
  }

  /** The endpoint answers with fenced JSON that lacks `challengePrompt`: the
      teaching call fails with the generic message naming the word, one error
      message is appended, no word is pending and the session is idle. */
  lemma MissingFieldScenario(s: Session, w: WordToTeach, text: string,
                             parse: string -> Parsed<RawTeachingDetails>)
    requires Valid(s) && !s.IsBotLoading()
    requires parse(Sanitize(text)).ParsedObject?
    requires parse(Sanitize(text)).value.challengePrompt.None?
    ensures var r := SettleTeachWord(StartTeachWord(s, w), GenerateWordTeachingDetails(w.english, Responded(text), parse));
      && r.messages == s.messages + [Error(Bot, TeachingFailureMessage(w.english))]
      && r.pendingWord.None? && !r.IsBotLoading()
  {
    TeachingValidationFailureIsGeneric(w.english, text, parse);
    TeachRoundTrip(s, w, Failure(TeachingFailureMessage(w.english)));
  }
}
