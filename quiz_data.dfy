/** The quiz-set document the exercises read (the `currentData` global of
    script.js). Each collection may be missing, which the optional chaining of
    the source turns into an item count of zero. */
module QuizData {
  import opened Wrappers

  /** A multiple-choice item; JSON keys `s`, `opts`, `c` (the index of the
      correct option) and `ex`. */
  datatype ChoiceItem = ChoiceItem(sentence: string, options: seq<string>, key: int, explanation: string)

  /** The open-cloze passage; JSON keys `text`, `answers` (one list of accepted
      variants per blank) and `explanations`. */
  datatype Cloze = Cloze(text: string, answers: seq<seq<string>>, explanations: seq<string>)

  /** A word-formation item; JSON keys `sentence`, `base`, `answers`, `explain`. */
  datatype WordItem = WordItem(sentence: string, base: string, answers: seq<string>, explanation: string)

  /** A sentence-transformation item; JSON keys `origin`, `prompt`, `keys`, `explain`. */
  datatype TransformItem = TransformItem(origin: string, prompt: string, keys: seq<string>, explanation: string)

  datatype QuizSet = QuizSet(
    multipleChoice: Option<seq<ChoiceItem>>,
    openCloze: Option<Cloze>,
    wordFormation: Option<seq<WordItem>>,
    sentenceTransformation: Option<seq<TransformItem>>)

  /** `currentData.multipleChoice?.length || 0` (no data at all counts as zero too). */
  function ChoiceCount(data: Option<QuizSet>): nat {
    if data.Some? && data.value.multipleChoice.Some? then |data.value.multipleChoice.value| else 0
  }

  /** `currentData.openCloze?.answers?.length || 0`. */
  function GapCount(data: Option<QuizSet>): nat {
    if data.Some? && data.value.openCloze.Some? then |data.value.openCloze.value.answers| else 0
  }

  /** `currentData.wordFormation?.length || 0`. */
  function WordCount(data: Option<QuizSet>): nat {
    if data.Some? && data.value.wordFormation.Some? then |data.value.wordFormation.value| else 0
  }

  /** `currentData.sentenceTransformation?.length || 0`. */
  function TransformCount(data: Option<QuizSet>): nat {
    if data.Some? && data.value.sentenceTransformation.Some? then |data.value.sentenceTransformation.value| else 0
  }

  /** `explanations[i] || ''`: a missing explanation reads as the empty string. */
  function GapExplanation(cloze: Cloze, i: nat): string {
    if i < |cloze.explanations| then cloze.explanations[i] else ""
  }
}
