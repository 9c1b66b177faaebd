/**
 The records the core passes around (types.ts), with the chat message as a
 sum type: a message is plain text, a teaching card, a loading marker or an
 error, each sent by the user or by the bot.
 */
module Types {

  datatype Option<+T> = None | Some(value: T)

  datatype Result<+T, +E> = Success(value: T) | Failure(error: E)

  datatype Sender = User | Bot

  /** One entry of the built-in curriculum. */
  datatype VocabularyEntry = VocabularyEntry(id: int, english: string, chinese: string)

  /** The four fields the language model supplies for a word (`GeminiTeachingDetails`). */
  datatype TeachingDetails = TeachingDetails(
    partOfSpeech: string,
    exampleSentence: string,
    exampleSentenceTranslation: string,
    challengePrompt: string)

  /** The one field the language model supplies when judging an answer (`GeminiFeedback`). */
  datatype Feedback = Feedback(feedbackText: string)

  /** The card shown for a taught word (`WordTeachingData`). */
  datatype TeachingCard = TeachingCard(
    english: string,
    chineseCoreMeaning: string,
    partOfSpeech: string,
    exampleSentence: string,
    exampleSentenceTranslation: string,
    challengePrompt: string,
    isCoreVocab: bool)

  datatype Message =
    | Text(sender: Sender, text: string)
    | Card(sender: Sender, card: TeachingCard)
    | Loading(sender: Sender)
    | Error(sender: Sender, text: string)
}
