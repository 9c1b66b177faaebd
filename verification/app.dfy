/**
 The session orchestrator of App.tsx: the message log, the busy flag, the word
 awaiting the student's answer and the curriculum cursor, and the three actions
 `teachWord`, `handleUserSubmit` and `handleNextWord` that drive them.

 Each request to the language model is split in two atomic steps. A start step
 (`HandleUserSubmit`, `HandleNextWord`, `StartTeachWord`) runs up to the
 `await`: it sets the busy flag, swaps any loading marker for a fresh one and
 records the request in flight. A settle step (`SettleTeachWord`,
 `SettleEvaluation`) runs the rest with the call's outcome handed in.
 */
module App {
  import opened Types
  import opened Strings
  import opened Constants

  const Greeting := "哈囉，我是最活潑的 " + BotName + "！準備好跟我一起開開心心學英文了嗎？ ✨ \n"
                    + "請輸入你想學的英文單字，或者按「下一個單字」讓我來給你驚喜吧！ 👇"
  const FollowUpPrompt := "超棒的！準備好學下一個單字，還是想試試別的呢？可以按「下一個單字」或輸入你想學的字喔！"
  /** The meaning shown for a word the student typed that is not in the curriculum. */
  const CustomWordMeaning := "(由你提供的單字)"

  /** The argument of `teachWord`: a curriculum entry (core vocabulary) or a typed word. */
  datatype WordToTeach = WordToTeach(english: string, chinese: string, isCore: bool)

  /** The call the session is waiting on. */
  datatype Request =
    | Teach(word: WordToTeach)
    | Evaluate(wordLearned: string, attempt: string)

  datatype Session = Session(
    messages: seq<Message>,
    inFlight: Option<Request>,     // the busy flag `isBotLoading` is `inFlight.Some?`
    pendingWord: Option<string>,   // `currentWordForFeedback`
    vocabIndex: int)               // `currentVocabIndex`
  {
    predicate IsBotLoading() {
      inFlight.Some?
    }

    /** `if (currentWordForFeedback)`: a pending word that is truthy. */
    predicate AwaitingFeedback() {
      pendingWord.Some? && pendingWord.value != ""
    }
  }

  /** The session after mounting: the greeting, nothing in flight, cursor before the first entry. */
  function InitialSession(): Session {
    Session([Text(Bot, Greeting)], None, None, -1)
  }

  // ---------------------------------------------------------------------------
  // Loading markers

  ghost predicate NoLoading(log: seq<Message>) {
    forall i :: 0 <= i < |log| ==> !log[i].Loading?
  }

  /** `prev.filter(m => !m.isLoading)`. */
  function RemoveLoading(log: seq<Message>): (r: seq<Message>)
    ensures NoLoading(r)
    ensures |r| <= |log|
    ensures NoLoading(log) ==> r == log
  {
    if log == [] then []
    else
      var last := log[|log| - 1];
      var init := RemoveLoading(log[..|log| - 1]);
      assert log == log[..|log| - 1] + [last];
      init + (if last.Loading? then [] else [last])
  }

  /** Number of loading markers in the log. */
  function LoadingCount(log: seq<Message>): nat {
    if log == [] then 0
    else LoadingCount(log[..|log| - 1]) + (if log[|log| - 1].Loading? then 1 else 0)
  }

  // ---------------------------------------------------------------------------
  // Vocabulary lookup

  /** `v.english.toLowerCase() === trimmedInput.toLowerCase()`. */
  predicate Matches(e: VocabularyEntry, input: string) {
    ToLower(e.english) == ToLower(input)
  }

  /** `list.find(...)`, as the index of the first matching entry at or after `from`. */
  function FindFrom(list: seq<VocabularyEntry>, input: string, from: nat): (r: Option<nat>)
    requires from <= |list|
    ensures r.Some? ==> from <= r.value < |list| && Matches(list[r.value], input)
    ensures r.Some? ==> forall j :: from <= j < r.value ==> !Matches(list[j], input)
    ensures r.None? ==> forall j :: from <= j < |list| ==> !Matches(list[j], input)
    decreases |list| - from
  {
    if from == |list| then None
    else if Matches(list[from], input) then Some(from)
    else FindFrom(list, input, from + 1)
  }

  /** The curriculum entry `handleUserSubmit` finds for the trimmed input, if any. */
  function Lookup(input: string): (r: Option<VocabularyEntry>)
    ensures r.Some? ==> r.value in VocabularyList() && r.value.english == ToLower(input)
    ensures r.None? ==> forall e :: e in VocabularyList() ==> e.english != ToLower(input)
  {
    var list := VocabularyList();
    VocabularyWellFormed();
    match FindFrom(list, input, 0)
    case Some(i) =>
      LowercaseFixed(list[i].english);
      Some(list[i])
    case None =>
      assert forall j :: 0 <= j < |list| ==> list[j].english != ToLower(input) by {
        forall j | 0 <= j < |list| ensures list[j].english != ToLower(input) {
          LowercaseFixed(list[j].english);
        }
      }
      None
  }

  /** What `handleUserSubmit` passes to `teachWord` when no answer is awaited:
      the canonical entry when the input names a curriculum word, otherwise the
      typed word itself with the placeholder meaning. */
  function ResolveWord(input: string): (w: WordToTeach)
    ensures w.isCore ==> w.english == ToLower(input) && w.chinese != ""
    ensures w.isCore ==> exists e :: e in VocabularyList() && w == WordToTeach(e.english, e.chinese, true)
    ensures !w.isCore ==> w == WordToTeach(input, CustomWordMeaning, false)
  {
    VocabularyWellFormed();
    match Lookup(input)
    case Some(e) => CoreWord(e)
    case None => WordToTeach(input, CustomWordMeaning, false)
  }

  /** `teachWord(VOCABULARY_LIST[i])`: an entry has an `id`, so it is core vocabulary. */
  function CoreWord(e: VocabularyEntry): WordToTeach {
    WordToTeach(e.english, e.chinese, true)
  }

  /** The card built once teaching details arrive; `isCoreVocab` is set last. */
  function MakeCard(w: WordToTeach, d: TeachingDetails): TeachingCard {
    TeachingCard(w.english, w.chinese, d.partOfSpeech, d.exampleSentence,
                 d.exampleSentenceTranslation, d.challengePrompt, w.isCore)
  }

  // ---------------------------------------------------------------------------
  // Start steps

  /** `teachWord` up to its `await`: busy, no pending word, one fresh loading marker. */
  function StartTeachWord(s: Session, w: WordToTeach): (r: Session)
    ensures r.IsBotLoading() && r.inFlight == Some(Teach(w))
    ensures r.pendingWord.None?
    ensures r.vocabIndex == s.vocabIndex
    ensures r.messages == RemoveLoading(s.messages) + [Loading(Bot)]
    ensures RemoveLoading(r.messages) == RemoveLoading(s.messages)
  {
    var log := RemoveLoading(s.messages) + [Loading(Bot)];
    RemoveTrailingLoading(RemoveLoading(s.messages));
    Session(log, Some(Teach(w)), None, s.vocabIndex)
  }

  /** `handleUserSubmit` up to its `await`. Empty or whitespace-only input, or a
      submit while busy, changes nothing. Otherwise the trimmed text is logged
      as the user's message and becomes the answer to the pending word, or, with
      no pending word, the word to teach. */
  function HandleUserSubmit(s: Session, userInput: string): (r: Session)
    ensures Trim(userInput) == "" || s.IsBotLoading() ==> r == s
    ensures Trim(userInput) != "" && !s.IsBotLoading() ==>
      && r.IsBotLoading()
      && RemoveLoading(r.messages) == RemoveLoading(s.messages) + [Text(User, Trim(userInput))]
      && r.messages == RemoveLoading(s.messages + [Text(User, Trim(userInput))]) + [Loading(Bot)]
      && r.vocabIndex == s.vocabIndex
    ensures Trim(userInput) != "" && !s.IsBotLoading() && s.AwaitingFeedback() ==>
      && r.inFlight == Some(Evaluate(s.pendingWord.value, Trim(userInput)))
      && r.pendingWord == s.pendingWord
    ensures Trim(userInput) != "" && !s.IsBotLoading() && !s.AwaitingFeedback() ==>
      && r.inFlight == Some(Teach(ResolveWord(Trim(userInput))))
      && r.pendingWord.None?
  {
    var trimmed := Trim(userInput);
    if trimmed == "" || s.IsBotLoading() then s
    else
      var logged := s.messages + [Text(User, trimmed)];
      MarkAfterLogging(s.messages, Text(User, trimmed));
      if s.AwaitingFeedback() then
        Session(RemoveLoading(logged) + [Loading(Bot)], Some(Evaluate(s.pendingWord.value, trimmed)),
                s.pendingWord, s.vocabIndex)
      else
        StartTeachWord(s.(messages := logged), ResolveWord(trimmed))
  }

  /** `handleNextWord`: ignored while busy; otherwise the cursor moves to the
      next entry, wrapping after the last, and that entry is taught, replacing
      any pending word. The cursor never falls below -1, so `%` here agrees
      with JavaScript's. */
  function HandleNextWord(s: Session): (r: Session)
    requires s.vocabIndex >= -1
    ensures s.IsBotLoading() ==> r == s
    ensures !s.IsBotLoading() ==>
      && 0 <= r.vocabIndex < |VocabularyList()|
      && r.vocabIndex == (s.vocabIndex + 1) % |VocabularyList()|
      && r.inFlight == Some(Teach(CoreWord(VocabularyList()[r.vocabIndex])))
      && r.pendingWord.None?
      && r.messages == RemoveLoading(s.messages) + [Loading(Bot)]
      && RemoveLoading(r.messages) == RemoveLoading(s.messages)
  {
    if s.IsBotLoading() then s
    else
      var list := VocabularyList();
      var next := (s.vocabIndex + 1) % |list|;
      StartTeachWord(s.(vocabIndex := next), CoreWord(list[next]))
  }

  // ---------------------------------------------------------------------------
  // Settle steps

  /** `teachWord` after its `await`: the loading marker goes, then a card (and
      the taught word becomes the pending word) or the error message. */
  function SettleTeachWord(s: Session, outcome: Result<TeachingDetails, string>): (r: Session)
    requires s.inFlight.Some? && s.inFlight.value.Teach?
    ensures !r.IsBotLoading() && NoLoading(r.messages)
    ensures r.vocabIndex == s.vocabIndex
    ensures outcome.Success? ==>
      && r.messages == RemoveLoading(s.messages) + [Card(Bot, MakeCard(s.inFlight.value.word, outcome.value))]
      && r.pendingWord == Some(s.inFlight.value.word.english)
    ensures outcome.Failure? ==>
      && r.messages == RemoveLoading(s.messages) + [Error(Bot, outcome.error)]
      && r.pendingWord == s.pendingWord
  {
    var w := s.inFlight.value.word;
    var log := RemoveLoading(s.messages);
    match outcome
    case Success(details) =>
      Session(log + [Card(Bot, MakeCard(w, details))], None, Some(w.english), s.vocabIndex)
    case Failure(message) =>
      Session(log + [Error(Bot, message)], None, s.pendingWord, s.vocabIndex)
  }

  /** `handleUserSubmit` after its `await`: the loading marker goes, then the
      feedback and the follow-up prompt, or the error message; the pending word
      is cleared either way. */
  function SettleEvaluation(s: Session, outcome: Result<Feedback, string>): (r: Session)
    requires s.inFlight.Some? && s.inFlight.value.Evaluate?
    ensures !r.IsBotLoading() && NoLoading(r.messages) && r.pendingWord.None?
    ensures r.vocabIndex == s.vocabIndex
    ensures outcome.Success? ==>
      r.messages == RemoveLoading(s.messages)
                    + [Text(Bot, outcome.value.feedbackText), Text(Bot, FollowUpPrompt)]
    ensures outcome.Failure? ==>
      r.messages == RemoveLoading(s.messages) + [Error(Bot, outcome.error)]
  {
    var log := RemoveLoading(s.messages);
    match outcome
    case Success(feedback) =>
      Session(log + [Text(Bot, feedback.feedbackText), Text(Bot, FollowUpPrompt)], None, None, s.vocabIndex)
    case Failure(message) =>
      Session(log + [Error(Bot, message)], None, None, s.vocabIndex)
  }

  // ---------------------------------------------------------------------------
  // Facts about the loading filter

  /** The marker appended by a start step is the one the next filter removes. */
  lemma RemoveTrailingLoading(log: seq<Message>)
    requires NoLoading(log)
    ensures RemoveLoading(log + [Loading(Bot)]) == log
    ensures (log + [Loading(Bot)])[..|log|] == log
  {
    assert (log + [Loading(Bot)])[..|log|] == log;
  }

  lemma AppendOne<T>(log: seq<T>, x: T, y: T)
    ensures log + [x] + [y] == log + [x, y]
  {
  }

  lemma AppendTwo<T>(log: seq<T>, x: T, y: T, z: T)
    ensures log + [x] + [y, z] == log + [x, y, z]
  {
  }

  /** Logging `x` after a marker-free log, then starting a request. */
  lemma LogThenMark(log: seq<Message>, x: Message)
    requires NoLoading(log) && !x.Loading?
    ensures RemoveLoading(log + [x]) + [Loading(Bot)] == log + [x, Loading(Bot)]
  {
    NoLoadingAppend(log, [x]);
    AppendOne(log, x, Loading(Bot));
  }

  /** Settling a request started right after logging `x` leaves the log with `x` last. */
  lemma ClearMark(log: seq<Message>, x: Message)
    requires NoLoading(log) && !x.Loading?
    ensures RemoveLoading(log + [x, Loading(Bot)]) == log + [x]
  {
    NoLoadingAppend(log, [x]);
    RemoveTrailingLoading(log + [x]);
    AppendOne(log, x, Loading(Bot));
  }

  /** Logging `x`, then starting a request, adds exactly `x` once the marker is filtered out. */
  lemma MarkAfterLogging(log: seq<Message>, x: Message)
    requires !x.Loading?
    ensures RemoveLoading(RemoveLoading(log + [x]) + [Loading(Bot)]) == RemoveLoading(log) + [x]
  {
    RemoveLoadingAppend(log, [x]);
    assert RemoveLoading([x]) == [x];
    RemoveTrailingLoading(RemoveLoading(log + [x]));
  }

  lemma NoLoadingAppend(a: seq<Message>, b: seq<Message>)
    requires NoLoading(a) && NoLoading(b)
    ensures NoLoading(a + b)
  {
    forall i | 0 <= i < |a + b| ensures !(a + b)[i].Loading? {
      if i >= |a| { assert (a + b)[i] == b[i - |a|]; }
    }
  }

  /** The filter distributes over concatenation. */
  lemma {:induction false} RemoveLoadingAppend(a: seq<Message>, b: seq<Message>)
    ensures RemoveLoading(a + b) == RemoveLoading(a) + RemoveLoading(b)
    decreases |b|
  {
    if b == [] {
      assert a + b == a;
    } else {
      var b' := b[..|b| - 1];
      var last := b[|b| - 1];
      assert (a + b)[..|a + b| - 1] == a + b';
      assert (a + b)[|a + b| - 1] == last;
      RemoveLoadingAppend(a, b');
      assert b == b' + [last];
    }
  }
}
