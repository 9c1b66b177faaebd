/**
 The built-in curriculum (constants.ts): fifteen entries, in list order, with
 the facts about it that the lookup and the cyclic "next word" cursor rely on.
 */
module Constants {
  import opened Types
  import opened Strings

  const BotName := "小雅老師"

  /** The curriculum entries are well formed for lookup: every English word is
      non-empty and already lower case, every meaning is non-empty. */
  ghost predicate EntriesWellFormed(v: seq<VocabularyEntry>) {
    forall i :: 0 <= i < |v| ==>
      v[i].english != "" && IsLowercase(v[i].english) && v[i].chinese != ""
  }

  ghost predicate IdsIncreasing(v: seq<VocabularyEntry>) {
    forall i :: 0 <= i < |v| - 1 ==> v[i].id < v[i + 1].id
  }

  ghost predicate EnglishDistinct(v: seq<VocabularyEntry>) {
    forall i, j :: 0 <= i < j < |v| ==> v[i].english != v[j].english
  }

  /** `VOCABULARY_LIST`. */
  function VocabularyList(): (v: seq<VocabularyEntry>)
    ensures |v| == 15
  {
    Entries
  }

  /** What the lookup and the cursor rely on: well-formed entries, increasing
      ids, and no English word listed twice. */
  lemma VocabularyWellFormed()
    ensures EntriesWellFormed(VocabularyList())
    ensures IdsIncreasing(VocabularyList())
    ensures EnglishDistinct(VocabularyList())
  {
    EntriesWellFormedLemma();
    EntriesIdsLemma();
    EntriesDistinctLemma();
  }

  lemma EntriesWellFormedLemma()
    ensures EntriesWellFormed(Entries)
  {
  }

  lemma EntriesIdsLemma()
    ensures IdsIncreasing(Entries)
  {
  }

  lemma EntriesDistinctLemma()
    ensures EnglishDistinct(Entries)
  {
  }

  const Entries: seq<VocabularyEntry> :=
    [ VocabularyEntry(42, "apple", "蘋果"),
      VocabularyEntry(78, "beautiful", "美麗的"),
      VocabularyEntry(86, "begin", "開始"),
      VocabularyEntry(135, "build", "建造"),
      VocabularyEntry(215, "computer", "電腦"),
      VocabularyEntry(262, "doctor", "醫生"),
      VocabularyEntry(335, "family", "家庭"),
      VocabularyEntry(404, "garden", "花園"),
      VocabularyEntry(450, "happy", "快樂的"),
      VocabularyEntry(520, "island", "島嶼"),
      VocabularyEntry(603, "machine", "機器"),
      VocabularyEntry(701, "nurse", "護士"),
      VocabularyEntry(818, "rainbow", "彩虹"),
      VocabularyEntry(951, "sofa", "沙發"),
      VocabularyEntry(1018, "take", "拿取") ]

  /** Ids strictly increase along the whole list, not only between neighbours. */
  lemma {:induction false} IdsStrictlyIncreasing(v: seq<VocabularyEntry>, i: int, j: int)
    requires IdsIncreasing(v)
    requires 0 <= i < j < |v|
    ensures v[i].id < v[j].id
    decreases j - i
  {
    if j > i + 1 {
      IdsStrictlyIncreasing(v, i, j - 1);
    }
  }
}
