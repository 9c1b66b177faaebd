# 小雅老師 vocabulary tutor: the session core in Dafny

The tutor is a single-page chat in which a bot teacher teaches English words
to Taiwanese pupils. A word comes from a fixed curriculum of fifteen entries
or is typed by the pupil; the bot shows a teaching card for it and then judges
the pupil's answer. Cards and judgements come from a language model. This
project models the logic around those calls:

- **Strings** (`strings.dfy`): the ECMAScript string operations the core uses.
  These are `trim`, the regular-expression classes `\s` and `\w`,
  `toLowerCase` and `includes`.
- **Types** (`types.dfy`): the records of `types.ts`. The chat message is a sum
  type: text, teaching card, loading marker or error, each with a sender.
- **Constants** (`constants.dfy`): `VOCABULARY_LIST` and the facts the lookup
  and the cyclic cursor rely on.
- **GeminiService** (`gemini_service.dfy`): the code-fence sanitizer, the
  required-field checks and the mapping of every failure to one user-facing
  message. The model endpoint's reply and `JSON.parse` are parameters (oracles).
- **App** (`app.dfy`): the session state and the three actions `teachWord`,
  `handleUserSubmit` and `handleNextWord`. The session state is the message
  log, the busy flag, the word awaiting feedback and the curriculum cursor. Each
  request is split in two steps. The start step sets the busy flag and appends a
  fresh loading marker. The settle step receives the call's outcome, removes the
  marker and appends the card, the feedback or the error.
- **AppProperties** (`app_properties.dfy`): properties over whole runs. These
  cover the invariant every reachable session keeps, the history the log never
  loses, the lookup, the cursor, and the two request round trips.

The busy flag `isBotLoading` is represented as "a request is in flight"
(`inFlight.Some?`). The request records what its settle step must do.

Sanitizing is not idempotent: a fence nested inside a fence loses one layer
per call. `GeminiService.SanitizeNotIdempotent` exhibits such an input.
`GeminiService.SanitizeIdempotentUnlessNested` proves idempotence for every
other input. The model follows the code.

## Model

| member | source | states |
|---|---|---|
| Strings.IsWhitespace | services/geminiService.ts:15-16 | the ECMAScript WhiteSpace and LineTerminator code points, the set both `trim` and `\s` use |
| Strings.IsWordChar | services/geminiService.ts:16 | `\w` without the `u` flag: ASCII letters, digits and underscore |
| Strings.WhitespaceIsNotWordChar | services/geminiService.ts:16 | no character of `\s` is in `\w`, so the tag run stops at the first whitespace |
| Strings.TrimStart | services/geminiService.ts:15 | the result is a suffix of the input; what it drops is all whitespace; it does not start with whitespace |
| Strings.TrimEnd | services/geminiService.ts:15 | the result is a prefix of the input; what it drops is all whitespace; it does not end with whitespace |
| Strings.Trim | services/geminiService.ts:15 | `trim` leaves neither end whitespace and never lengthens the string |
| Strings.TrimStartSkips | services/geminiService.ts:16 | leading whitespace does not change what `TrimStart` returns |
| Strings.TrimEndSkips | services/geminiService.ts:16 | trailing whitespace does not change what `TrimEnd` returns |
| Strings.TrimIdentity | services/geminiService.ts:19 | `trim` returns its input exactly when neither end of the input is whitespace |
| Strings.TrimSplit | services/geminiService.ts:15 | every string is its trimmed form with whitespace on both sides |
| Strings.TrimAbsorbsPadding | services/geminiService.ts:19 | whitespace added around a string does not change its trimmed form |
| Strings.TrimOfPadded | services/geminiService.ts:15 | a trimmed string with whitespace around it trims back to itself |
| Strings.TrimOfWhitespace | services/geminiService.ts:18 | an all-whitespace string trims to the empty string |
| Strings.WordRun | services/geminiService.ts:16 | the `\w*` run at the start is all word characters and maximal: the next character, if any, is not one |
| Strings.WordRunStops | services/geminiService.ts:16 | word characters followed by a non-word character give a run of exactly that length |
| Strings.LowerChar | App.tsx:99 | `toLowerCase` on one character: A–Z to a–z, KELVIN SIGN to `k`, every other character unchanged |
| Strings.ToLower | App.tsx:99 | lower-casing keeps the length and maps each character independently |
| Strings.LowercaseFixed | constants.ts:4-18 | a string already in lower case is unchanged by lower-casing |
| Strings.ToLowerIdempotent | App.tsx:99 | lower-casing twice is lower-casing once, and its result is in lower case |
| Strings.Includes | services/geminiService.ts:57 | `includes` (also at lines 66 and 112): the needle occurs in the string at some offset |
| Strings.NotIncluded | services/geminiService.ts:66 | a string lacking the first character of the phrase does not include the phrase |
| Constants.VocabularyList | constants.ts:3-19 | the curriculum has fifteen entries, so the cursor's modulus is never zero |
| Constants.VocabularyWellFormed | constants.ts:4-18 | every English word is non-empty and already in lower case, every meaning is non-empty, ids increase between neighbours, and no English word occurs twice |
| Constants.IdsStrictlyIncreasing | constants.ts:4-18 | ids increase along the whole list, not only between neighbours |
| GeminiService.IsFenced | services/geminiService.ts:16 | the anchored fence pattern can match only when the trimmed text is at least six characters long and both starts and ends with three backticks |
| GeminiService.FenceCapture | services/geminiService.ts:16 | the body the fence pattern captures is already trimmed |
| GeminiService.HasFencedBody | services/geminiService.ts:18 | `match && match[2]`: the pattern matched and the captured body is non-empty |
| GeminiService.Sanitize | services/geminiService.ts:14-22 | the output never has whitespace at either end; it is the trimmed input unless the trimmed input is fence-wrapped with a non-empty body, and then it is that body |
| GeminiService.SanitizeCleanIdentity | services/geminiService.ts:15-21 | on trimmed, unfenced text sanitizing is the identity |
| GeminiService.SanitizeUnfenced | services/geminiService.ts:15-21 | text whose trimmed form is not fence-wrapped comes back trimmed and otherwise unchanged |
| GeminiService.SanitizeStripsFence | services/geminiService.ts:16-19 | for whitespace, fence, `\w` tag, whitespace, body, whitespace, fence, whitespace, with a body that is not all whitespace, the output is exactly the trimmed body |
| GeminiService.SanitizeEmptyBody | services/geminiService.ts:18 | a fence around only a tag and whitespace captures nothing, so the trimmed input comes back with its fences |
| GeminiService.SanitizeIdempotentUnlessNested | services/geminiService.ts:14-22 | sanitizing twice equals sanitizing once unless the first result is itself fence-wrapped around a non-empty body |
| GeminiService.SanitizeNotIdempotent | services/geminiService.ts:16-19 | a fence nested in a fence loses one layer per call, so sanitizing twice differs from sanitizing once |
| GeminiService.TeachingFailureMessage | services/geminiService.ts:69 | the generic teaching-failure message, with the word inside the corner brackets |
| GeminiService.MessageOf | services/geminiService.ts:65 | the message of a thrown `Error`, and "Unknown error" for any other thrown value |
| GeminiService.MapFailure | services/geminiService.ts:63-69 | a failure becomes the fixed invalid-key message when its message includes "API key not valid", and the call's generic message otherwise |
| GeminiService.Present | services/geminiService.ts:53 | a field passes the truthiness test exactly when it is present and not the empty string |
| GeminiService.ValidateTeaching | services/geminiService.ts:53-56 | details are accepted exactly when all four fields are present and non-empty; accepted details are the parsed values; a rejection raises the missing-fields error |
| GeminiService.ValidateFeedback | services/geminiService.ts:103-107 | feedback is accepted exactly when `feedbackText` is present and non-empty; accepted feedback is the parsed text; a rejection raises the missing-field error |
| GeminiService.ExampleMissesWord | services/geminiService.ts:57 | the soft check: the lower-cased example sentence does not include the lower-cased word |
| GeminiService.Receive | services/geminiService.ts:49-61 | the `try` block succeeds exactly when the endpoint answered, the sanitized text parsed and the payload validated; a rejection, a missing text, a parse failure and a validation failure each give their own thrown value |
| GeminiService.GenerateWordTeachingDetails | services/geminiService.ts:49-70 | the call succeeds exactly when the endpoint answered, the sanitized text parsed and the fields validated, and then returns the validated details; every failure is the invalid-key message or the generic message naming the word; a rejected call gives the invalid-key message exactly when its message contains the phrase |
| GeminiService.EvaluateStudentResponse | services/geminiService.ts:99-116 | the call succeeds exactly when the endpoint answered, the sanitized text parsed and `feedbackText` is non-empty, and then returns that text; every failure is the invalid-key message or the generic feedback message; a rejected call gives the invalid-key message exactly when its message contains the phrase |
| GeminiService.GenericMessagesDiffer | services/geminiService.ts:66-69 | the generic messages are never the invalid-key message, so the two outcomes of the mapping are distinguishable |
| GeminiService.FixedMessagesLackPhrase | services/geminiService.ts:55 | the errors the source raises itself (missing fields, missing feedback, no text, non-`Error` fallback) never contain the invalid-key phrase |
| GeminiService.TeachingValidationFailureIsGeneric | services/geminiService.ts:53-69 | a payload with a missing or empty field makes the teaching call fail with the generic message naming the word |
| GeminiService.FeedbackValidationFailureIsGeneric | services/geminiService.ts:103-115 | a feedback payload without `feedbackText` makes the evaluation fail with the generic message |
| GeminiService.OpaqueFailuresAreGeneric | services/geminiService.ts:63-69 | a thrown non-`Error` and a reply with no text both map to the generic message, for both calls |
| GeminiService.ParseFailureMapping | services/geminiService.ts:51-69 | a parse failure maps to the invalid-key message exactly when the engine's message quotes the phrase, otherwise to the generic message |
| GeminiService.EvaluationParseFailureMapping | services/geminiService.ts:101-115 | for the evaluation call, a parse failure maps to the invalid-key message exactly when the engine's message quotes the phrase, otherwise to the generic feedback message |
| GeminiService.WarningDoesNotBlock | services/geminiService.ts:57-61 | a complete payload is returned exactly as parsed |
| GeminiService.WarningIgnoresCase | services/geminiService.ts:57 | the soft check gives the same answer when either side is lower-cased first |
| GeminiService.WarnedPayloadAccepted | services/geminiService.ts:57-61 | an example sentence for "apple" that lacks the word triggers the soft check, and the payload is still returned as parsed |
| App.RemoveLoading | App.tsx:47 | the filter leaves no loading marker, never lengthens the log, and keeps a marker-free log as it is |
| App.RemoveLoadingAppend | App.tsx:47 | the filter distributes over concatenation |
| App.RemoveTrailingLoading | App.tsx:56 | the marker a start step appends is exactly what the next filter removes |
| App.MarkAfterLogging | App.tsx:79-86 | logging a message and then starting a request adds exactly that message once the marker is filtered out |
| App.LogThenMark | App.tsx:79-86 | on a marker-free log, an accepted submit leaves the log with the user's message and then the marker |
| App.ClearMark | App.tsx:85-88 | after a user message and a marker, settling leaves the log ending in the user's message |
| App.AwaitingFeedback | App.tsx:83 | `if (currentWordForFeedback)`: a word is pending and it is not the empty string |
| App.InitialSession | App.tsx:8-12 | the session after mounting: the greeting added by the mount effect (App.tsx:34-40) as the only message, nothing in flight, no word pending, the cursor at -1 |
| App.Matches | App.tsx:99 | an entry matches an input when the two lower-cased English spellings are equal |
| App.FindFrom | App.tsx:99 | `find` returns the first matching index, and none at all only when no entry matches |
| App.Lookup | App.tsx:99 | a found entry is in the curriculum and its English word is the lower-cased input; no entry is found only when no English word is the lower-cased input |
| App.ResolveWord | App.tsx:99-107 | a core word is spelt as the lower-cased input, has a non-empty meaning and is some curriculum entry; any other word is the input with the placeholder meaning, not flagged |
| App.StartTeachWord | App.tsx:42-48 | starting a teach call sets busy, clears the pending word, keeps the cursor, and replaces any loading marker by one fresh marker at the end |
| App.HandleUserSubmit | App.tsx:74-110 | empty or whitespace-only input and a submit while busy change nothing; otherwise the trimmed text is logged, busy is set and the cursor kept; with a pending word the text is evaluated against it; without one, the resolved word is taught and the pending word cleared |
| App.HandleNextWord | App.tsx:112-117 | ignored while busy; otherwise the cursor moves to `(i + 1)` modulo the curriculum length, stays in range, and that entry is taught with a fresh marker and no pending word |
| App.CoreWord | App.tsx:52 | a curriculum entry has an `id`, so it is taught with its own spelling and meaning as core vocabulary |
| App.MakeCard | App.tsx:58-63 | the card carries the taught word's spelling, meaning and core flag and the four returned details |
| App.SettleTeachWord | App.tsx:54-71 | settling a teach call removes the marker and clears busy; success appends the card and makes the taught word pending; failure appends the error and leaves the pending word as it was |
| App.SettleEvaluation | App.tsx:87-97 | settling an evaluation removes the marker, clears busy and the pending word, and appends the feedback and the follow-up prompt, or one error |
| AppProperties.Step | App.tsx:74-117 | no action and no settled call removes or reorders a message other than a loading marker |
| AppProperties.Run | App.tsx:112-114 | the cursor never falls below -1, so `%` there agrees with JavaScript's |
| AppProperties.InitialValid | App.tsx:8-12 | the session after mounting satisfies the invariant |
| AppProperties.StepPreservesValid | App.tsx:42-117 | every action and settled call keeps the invariant: cursor in range; no marker when idle; exactly one marker, last, when busy; a pending word is non-empty; a teach call has no pending word; an evaluation is against the pending word |
| AppProperties.SubmitPreservesValid | App.tsx:74-110 | a submit keeps the invariant; a core word resolved from the input is never empty |
| AppProperties.NextWordPreservesValid | App.tsx:112-117 | a press of "next word" keeps the invariant |
| AppProperties.TeachSettlePreservesValid | App.tsx:54-71 | a settled teaching call keeps the invariant |
| AppProperties.EvaluationSettlePreservesValid | App.tsx:87-97 | a settled evaluation keeps the invariant |
| AppProperties.RunPreservesValid | App.tsx:42-117 | every session reachable from a valid one is valid |
| AppProperties.RunKeepsHistory | App.tsx:22-31 | messages other than loading markers are never removed or reordered over any run |
| AppProperties.AtMostOneLoading | App.tsx:46-48 | a valid session shows at most one loading marker: one while busy, none once the request settled |
| AppProperties.SubmitAppendsUserText | App.tsx:79-86 | an accepted submit appends the trimmed text as one user message, then the marker, and changes nothing before them |
| AppProperties.SubmitTeachesCard | App.tsx:98-108 | with no word pending, a successful teaching call after a submit leaves the user's text followed by the card of the resolved word, with that word pending |
| AppProperties.CardOfSubmittedWord | App.tsx:50-64 | a curriculum word in any letter case gets the entry's spelling and meaning and is core vocabulary; any other word is shown as typed with the placeholder and is not; the other fields are the details as returned |
| AppProperties.LookupUnique | App.tsx:99 | at most one entry matches any input |
| AppProperties.ResolveCoreWord | App.tsx:99-101 | input naming entry `i` in any letter case teaches entry `i` as core vocabulary |
| AppProperties.ResolveCustomWord | App.tsx:102-107 | input naming no entry is taught as typed, with the placeholder meaning, not core |
| AppProperties.ResolveIgnoresCase | App.tsx:99 | "APPLE" is taught as the curriculum entry "apple" |
| AppProperties.RoundAdvancesCursor | App.tsx:114-116 | one press followed by its settled call moves the cursor one place, whether teaching succeeded or failed |
| AppProperties.TeachRounds | App.tsx:112-117 | after any number of presses and settled calls the session is idle and the cursor is where that many single moves put it |
| AppProperties.CursorAfterIsMod | App.tsx:114 | `n >= 1` single moves from a cursor at or after -1 land on `(v + n)` modulo the curriculum length |
| AppProperties.FirstPressTeachesFirstEntry | App.tsx:12 | since the cursor starts at -1, the first press teaches the first entry |
| AppProperties.CursorWraps | App.tsx:114 | after the last entry the cursor wraps back to the first |
| AppProperties.RoundsFromStart | App.tsx:12 | from the initial cursor, the round after `n` earlier rounds shows entry `n` modulo the curriculum length |
| AppProperties.TeachRoundTrip | App.tsx:42-71 | a teach call from start to settle leaves the session idle with one bot message added: on success the card and the word pending, on failure the error and no word pending |
| AppProperties.SubmitWhilePendingEvaluates | App.tsx:83-87 | with a word pending, any accepted text, a curriculum word included, is sent for evaluation against that word |
| AppProperties.EvaluationRoundTrip | App.tsx:83-97 | after an evaluation settles the pending word is gone and the session idle; the log gained the user's text and then the feedback and the follow-up prompt, or one error |
| AppProperties.AppleScenario | App.tsx:74-117 | from a fresh session, "next word" teaches "apple" as core vocabulary, the answer is judged against "apple", and the session falls back to idle with the feedback shown |
| AppProperties.MissingFieldScenario | App.tsx:66-68 | a reply lacking `challengePrompt` makes the teaching call append the generic error naming the word, with no word pending and the session idle |

## Left out

- The language-model call, its prompts, model name and temperatures: the
  endpoint's reply (text, no text, or a rejection) is a parameter.
- `JSON.parse` and the field reads are a parameter returning either the four
  optional string fields or a failure with the engine's message. Non-string
  JSON values and extra keys are not modelled. This includes the keys that
  the object spread at App.tsx:61 would let override `english` or
  `chineseCoreMeaning`; `isCoreVocab` is set after the spread, as modelled.
- The API-key configuration (services/geminiService.ts:6-12, 25, 74 and
  App.tsx:119): the code reads a variable it does not declare, so its effect
  depends on the build setup.
- Message ids and timestamps (`Date.now`, `Math.random`), scrolling, rendering
  and speech (components/ChatMessage.tsx is not part of this model).
- React's batching of state updates and stale closures: each start and settle
  step is one atomic transition. In particular, two clicks before a re-render
  are not modelled.
- The double greeting under React StrictMode's doubled effects; the session
  starts with one greeting.
- The `isGreeting` flag and the `console` warnings and errors. The soft check
  on the example sentence is `GeminiService.ExampleMissesWord`, and it only
  ever leads to a log line.
- Strings.LowerChar: models `toLowerCase` only for A–Z and KELVIN SIGN. Every
  other non-ASCII character is kept as it is, whereas JavaScript lower-cases
  it. KELVIN SIGN is the only non-ASCII character that lower-cases to ASCII
  alone, so no other one can lower-case into the all-ASCII curriculum words,
  and the lookup is unaffected.
- Strings.ToLower: keeps the length and maps each character on its own through
  `LowerChar`. JavaScript's `toLowerCase` also lowers every other cased letter,
  turns U+0130 into two code points, and lowers a final capital sigma by
  context. This changes no lookup result. The only other lower-casing is the
  soft check on the example sentence, which decides at most whether a warning
  is logged.
- GeminiService.ExampleMissesWord: inherits the `Strings.ToLower` gap. For the
  word "Éa" and the sentence "éa" it reports a miss where
  services/geminiService.ts:57 finds the word. The only effect is whether a
  warning is logged; the call's result is the same either way
  (`GeminiService.WarningDoesNotBlock`).
- A message that an `Error` carries is kept exactly. A parse failure whose
  message quotes "API key not valid" therefore maps to the invalid-key message,
  as in the source (`GeminiService.ParseFailureMapping`).
