/** The exercise state of script.js: one state object per exercise (the
    `mcState`, `gapState`, `wordState` and `transState` globals), the loaded
    quiz set, and the handlers that reset, fill, move through and score them. */
module Exercise {
  import opened Wrappers
  import opened QuizData
  import opened Scoring

  /** What a "Next" click leads to: the following item, or the score card. */
  datatype Step = Moved | Finish

  /** The multiple-choice state: the current item and the chosen option index
      per item (`null` until one is chosen). */
  class ChoiceState {
    var idx: nat
    var answers: seq<Option<nat>>

    /** The current item is one of the items, or item 0 of none. */
    ghost predicate Valid()
      reads this
    {
      if answers == [] then idx == 0 else idx < |answers|
    }

    /** The state `startMC` and `resetExerciseStates` install for `count` items. */
    ghost predicate AtStart(count: nat)
      reads this
    {
      idx == 0 && |answers| == count && forall k :: 0 <= k < count ==> answers[k].None?
    }

    /** `{ idx: 0, answers: Array(count).fill(null) }`. */
    constructor(count: nat)
      ensures Valid() && AtStart(count)
    {
      idx := 0;
      answers := seq(count, _ => None);
    }

    /** Clicking option `option` of the item on screen records it for that item only. */
    method Select(option: nat)
      requires Valid() && idx < |answers|
      modifies this
      ensures Valid() && idx == old(idx)
      ensures answers == old(answers)[old(idx) := Some(option)]
    {
      answers := answers[idx := Some(option)];
    }

    /** "Previous": back one item, except on the first. */
    method Previous()
      requires Valid() && idx < |answers|
      modifies this
      ensures Valid() && answers == old(answers)
      ensures old(idx) > 0 ==> idx == old(idx) - 1
      ensures old(idx) == 0 ==> idx == 0
    {
      if idx > 0 {
        idx := idx - 1;
      }
    }

    /** "Next": on the last item it asks for the score and stays put, on any
        other it moves forward one item. The item count is `|answers|`, which
        `Quiz.Valid` ties to the length of the loaded collection. */
    method Next() returns (step: Step)
      requires Valid() && idx < |answers|
      modifies this
      ensures Valid() && answers == old(answers)
      ensures step == Finish <==> old(idx) == |answers| - 1
      ensures step == Finish ==> idx == old(idx)
      ensures step == Moved ==> idx == old(idx) + 1
    {
      if idx == |answers| - 1 {
        step := Finish;
      } else {
        idx := idx + 1;
        step := Moved;
      }
    }
  }

  /** The state of an exercise typed into text fields (open cloze, word
      formation, sentence transformation): the current item and the text
      entered per item. */
  class TextState {
    var idx: nat
    var answers: seq<string>

    ghost predicate Valid()
      reads this
    {
      if answers == [] then idx == 0 else idx < |answers|
    }

    /** The state `startGap`/`startWord`/`startTrans` and `resetExerciseStates`
        install for `count` items. */
    ghost predicate AtStart(count: nat)
      reads this
    {
      idx == 0 && |answers| == count && forall k :: 0 <= k < count ==> answers[k] == ""
    }

    /** `{ answers: Array(count).fill(''), idx: 0 }`. */
    constructor(count: nat)
      ensures Valid() && AtStart(count)
    {
      idx := 0;
      answers := seq(count, _ => "");
    }

    /** "Previous": the field's text is stored for the item on screen (also on
        the first item, where the index then stays), then back one item. */
    method Previous(input: string)
      requires Valid() && idx < |answers|
      modifies this
      ensures Valid()
      ensures answers == old(answers)[old(idx) := input]
      ensures old(idx) > 0 ==> idx == old(idx) - 1
      ensures old(idx) == 0 ==> idx == 0
    {
      answers := answers[idx := input];
      if idx > 0 {
        idx := idx - 1;
      }
    }

    /** "Next": the field's text is stored for the item on screen; on the last
        item the score is asked for and the index stays, otherwise it moves on. */
    method Next(input: string) returns (step: Step)
      requires Valid() && idx < |answers|
      modifies this
      ensures Valid()
      ensures answers == old(answers)[old(idx) := input]
      ensures step == Finish <==> old(idx) == |answers| - 1
      ensures step == Finish ==> idx == old(idx)
      ensures step == Moved ==> idx == old(idx) + 1
    {
      answers := answers[idx := input];
      if idx == |answers| - 1 {
        step := Finish;
      } else {
        idx := idx + 1;
        step := Moved;
      }
    }
  }

  /** The contents the blanks had when the cloze was submitted:
      `el ? el.value : ''`. The page draws an input for blank `i` only when the
      passage has a text part `i`, so a blank has no input, and reads as empty,
      when the passage has fewer than `answers.length - 1` markers `___`. */
  function FieldValues(fields: seq<Option<string>>): seq<string> {
    seq(|fields|, k requires 0 <= k < |fields| => if fields[k].Some? then fields[k].value else "")
  }

  /** The application: the loaded quiz set (`currentData`, `null` until one
      is loaded) and the four exercise states. */
  class Quiz {
    var data: Option<QuizSet>
    var mc: ChoiceState
    var gap: TextState
    var word: TextState
    var trans: TextState

    /** Every state is well formed and holds one answer slot per item of its
        collection in the loaded set (none when nothing is loaded). */
    ghost predicate Valid()
      reads this, mc, gap, word, trans
    {
      gap != word && gap != trans && word != trans &&
      mc.Valid() && gap.Valid() && word.Valid() && trans.Valid() &&
      |mc.answers| == ChoiceCount(data) &&
      |gap.answers| == GapCount(data) &&
      |word.answers| == WordCount(data) &&
      |trans.answers| == TransformCount(data)
    }

    /** The globals as the page declares them: no data, empty states. */
    constructor()
      ensures Valid() && data.None?
      ensures mc.AtStart(0) && gap.AtStart(0) && word.AtStart(0) && trans.AtStart(0)
    {
      data := None;
      mc := new ChoiceState(0);
      gap := new TextState(0);
      word := new TextState(0);
      trans := new TextState(0);
    }

    /** `resetExerciseStates`: with a set loaded, every exercise gets a new
        state at item 0 with one empty slot per item; with none, nothing changes.
        The old states need not fit `data` when a set has just been installed. */
    method ResetExerciseStates()
      requires data.Some? || Valid()
      modifies this
      ensures Valid() && data == old(data)
      ensures data.None? ==> mc == old(mc) && gap == old(gap) && word == old(word) && trans == old(trans)
      ensures data.Some? ==> fresh(mc) && fresh(gap) && fresh(word) && fresh(trans)
      ensures data.Some? ==> mc.AtStart(ChoiceCount(data)) && gap.AtStart(GapCount(data))
      ensures data.Some? ==> word.AtStart(WordCount(data)) && trans.AtStart(TransformCount(data))
    {
      if data.Some? {
        mc := new ChoiceState(ChoiceCount(data));
        gap := new TextState(GapCount(data));
        word := new TextState(WordCount(data));
        trans := new TextState(TransformCount(data));
      }
    }

    /** A set arriving (the fetched document of `loadDataSet`, or the built-in
        fallback) replaces `currentData` and resets every exercise. */
    method Install(loaded: QuizSet)
      modifies this
      ensures Valid() && data == Some(loaded)
      ensures fresh(mc) && fresh(gap) && fresh(word) && fresh(trans)
      ensures mc.AtStart(ChoiceCount(data)) && gap.AtStart(GapCount(data))
      ensures word.AtStart(WordCount(data)) && trans.AtStart(TransformCount(data))
    {
      data := Some(loaded);
      ResetExerciseStates();
    }

    /** `startMC`: without multiple-choice items nothing happens; otherwise the
        state goes back to item 0 with every choice cleared. */
    method StartChoice()
      requires Valid()
      modifies mc
      ensures Valid()
      ensures data.Some? && data.value.multipleChoice.Some? ==> mc.AtStart(ChoiceCount(data))
      ensures !(data.Some? && data.value.multipleChoice.Some?) ==> mc.idx == old(mc.idx) && mc.answers == old(mc.answers)
    {
      if data.Some? && data.value.multipleChoice.Some? {
        mc.idx := 0;
        mc.answers := seq(|data.value.multipleChoice.value|, _ => None);
      }
    }

    /** `startGap`: without an open cloze nothing happens; otherwise every blank is cleared. */
    method StartGap()
      requires Valid()
      modifies gap
      ensures Valid()
      ensures data.Some? && data.value.openCloze.Some? ==> gap.AtStart(GapCount(data))
      ensures !(data.Some? && data.value.openCloze.Some?) ==> gap.idx == old(gap.idx) && gap.answers == old(gap.answers)
    {
      if data.Some? && data.value.openCloze.Some? {
        gap.idx := 0;
        gap.answers := seq(|data.value.openCloze.value.answers|, _ => "");
      }
    }

    /** `startWord`: without word-formation items nothing happens; otherwise
        the state goes back to item 0 with every answer cleared. */
    method StartWord()
      requires Valid()
      modifies word
      ensures Valid()
      ensures data.Some? && data.value.wordFormation.Some? ==> word.AtStart(WordCount(data))
      ensures !(data.Some? && data.value.wordFormation.Some?) ==> word.idx == old(word.idx) && word.answers == old(word.answers)
    {
      if data.Some? && data.value.wordFormation.Some? {
        word.idx := 0;
        word.answers := seq(|data.value.wordFormation.value|, _ => "");
      }
    }

    /** `startTrans`: without sentence-transformation items nothing happens;
        otherwise the state goes back to item 0 with every answer cleared. */
    method StartTransform()
      requires Valid()
      modifies trans
      ensures Valid()
      ensures data.Some? && data.value.sentenceTransformation.Some? ==> trans.AtStart(TransformCount(data))
      ensures !(data.Some? && data.value.sentenceTransformation.Some?) ==> trans.idx == old(trans.idx) && trans.answers == old(trans.answers)
    {
      if data.Some? && data.value.sentenceTransformation.Some? {
        trans.idx := 0;
        trans.answers := seq(|data.value.sentenceTransformation.value|, _ => "");
      }
    }

    /** A click on option `option` while a multiple-choice item is on screen. */
    method SelectChoice(option: nat)
      requires Valid() && ChoiceCount(data) > 0
      modifies mc
      ensures Valid() && mc.idx == old(mc.idx)
      ensures mc.answers == old(mc.answers)[old(mc.idx) := Some(option)]
    {
      mc.Select(option);
    }

    /** "Previous" on a multiple-choice item. */
    method PreviousChoice()
      requires Valid() && ChoiceCount(data) > 0
      modifies mc
      ensures Valid() && mc.answers == old(mc.answers)
      ensures old(mc.idx) > 0 ==> mc.idx == old(mc.idx) - 1
      ensures old(mc.idx) == 0 ==> mc.idx == 0
    {
      mc.Previous();
    }

    /** "Next" on a multiple-choice item: the last item is the one numbered
        `currentData.multipleChoice.length - 1`, and the answer slots still
        match the collection afterwards. */
    method NextChoice() returns (step: Step)
      requires Valid() && ChoiceCount(data) > 0
      modifies mc
      ensures Valid() && mc.answers == old(mc.answers)
      ensures step == Finish <==> old(mc.idx) == ChoiceCount(data) - 1
      ensures step == Finish ==> mc.idx == old(mc.idx)
      ensures step == Moved ==> mc.idx == old(mc.idx) + 1
    {
      step := mc.Next();
    }

    /** "Previous" on a word-formation item, with the field holding `input`. */
    method PreviousWord(input: string)
      requires Valid() && WordCount(data) > 0
      modifies word
      ensures Valid()
      ensures word.answers == old(word.answers)[old(word.idx) := input]
      ensures old(word.idx) > 0 ==> word.idx == old(word.idx) - 1
      ensures old(word.idx) == 0 ==> word.idx == 0
    {
      word.Previous(input);
    }

    /** "Next" on a word-formation item: the last item is the one numbered
        `currentData.wordFormation.length - 1`, and the answer slots still match the
        collection afterwards. */
    method NextWord(input: string) returns (step: Step)
      requires Valid() && WordCount(data) > 0
      modifies word
      ensures Valid()
      ensures word.answers == old(word.answers)[old(word.idx) := input]
      ensures step == Finish <==> old(word.idx) == WordCount(data) - 1
      ensures step == Finish ==> word.idx == old(word.idx)
      ensures step == Moved ==> word.idx == old(word.idx) + 1
    {
      step := word.Next(input);
    }

    /** "Previous" on a sentence-transformation item, with the field holding `input`. */
    method PreviousTransform(input: string)
      requires Valid() && TransformCount(data) > 0
      modifies trans
      ensures Valid()
      ensures trans.answers == old(trans.answers)[old(trans.idx) := input]
      ensures old(trans.idx) > 0 ==> trans.idx == old(trans.idx) - 1
      ensures old(trans.idx) == 0 ==> trans.idx == 0
    {
      trans.Previous(input);
    }

    /** "Next" on a sentence-transformation item: the last item is the one numbered
        `currentData.sentenceTransformation.length - 1`, and the answer slots still match the
        collection afterwards. */
    method NextTransform(input: string) returns (step: Step)
      requires Valid() && TransformCount(data) > 0
      modifies trans
      ensures Valid()
      ensures trans.answers == old(trans.answers)[old(trans.idx) := input]
      ensures step == Finish <==> old(trans.idx) == TransformCount(data) - 1
      ensures step == Finish ==> trans.idx == old(trans.idx)
      ensures step == Moved ==> trans.idx == old(trans.idx) + 1
    {
      step := trans.Next(input);
    }

    /** `finishMC`: the stored choices scored against the loaded items. */
    method FinishChoice() returns (score: nat, total: nat, results: seq<ChoiceRecord>)
      requires Valid() && data.Some? && data.value.multipleChoice.Some?
      ensures total == ChoiceCount(data) && score <= total
      ensures score == Count(ChoiceVerdicts(mc.answers, data.value.multipleChoice.value))
      ensures results == ChoiceRecords(mc.answers, data.value.multipleChoice.value)
    {
      score, total, results := Scoring.FinishChoice(mc.answers, data.value.multipleChoice.value);
    }

    /** `finishGap`: the blanks' contents are stored as the gap answers, then scored. */
    method FinishGap(fields: seq<Option<string>>) returns (score: nat, total: nat, results: seq<TextRecord>)
      requires Valid() && data.Some? && data.value.openCloze.Some?
      requires |fields| == GapCount(data)
      modifies gap
      ensures Valid() && gap.idx == old(gap.idx)
      ensures gap.answers == FieldValues(fields)
      ensures total == GapCount(data) && score <= total
      ensures score == Count(VariantVerdicts(gap.answers, data.value.openCloze.value.answers))
      ensures results == ClozeRecords(gap.answers, data.value.openCloze.value)
    {
      gap.answers := FieldValues(fields);
      score, total, results := ScoreCloze(gap.answers, data.value.openCloze.value);
    }

    /** `finishWord`: the stored answers scored against the loaded items. */
    method FinishWord() returns (score: nat, total: nat, results: seq<TextRecord>)
      requires Valid() && data.Some? && data.value.wordFormation.Some?
      ensures total == WordCount(data) && score <= total
      ensures score == Count(VariantVerdicts(word.answers, WordVariants(data.value.wordFormation.value)))
      ensures results == WordRecords(word.answers, data.value.wordFormation.value)
    {
      score, total, results := Scoring.FinishWord(word.answers, data.value.wordFormation.value);
    }

    /** `finishTrans`: the stored answers scored against the loaded items. */
    method FinishTransform() returns (score: nat, total: nat, results: seq<TextRecord>)
      requires Valid() && data.Some? && data.value.sentenceTransformation.Some?
      ensures total == TransformCount(data) && score <= total
      ensures score == Count(TransformVerdicts(trans.answers, data.value.sentenceTransformation.value))
      ensures results == TransformRecords(trans.answers, data.value.sentenceTransformation.value)
    {
      score, total, results := Scoring.FinishTransform(trans.answers, data.value.sentenceTransformation.value);
    }
  }
}
