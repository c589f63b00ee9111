# C1 Use of English quiz — answer checking and exercise state

script.js drives a four-part quiz page: multiple choice, open cloze, word
formation and sentence transformation. This project models the parts of it that
decide what a learner's answer is worth and how the exercises keep their state:

- `normalize`, the canonical form answers are compared in (module `TextKey`);
- `escapeHtml`, which makes answers safe to put on the page (module `Html`);
- the matchers: membership of the key among the accepted variants for the
  cloze and word formation, and the lenient substring match behind a 3-to-5-word
  gate for transformations (module `Matching`);
- the four scorers `finishMC`, `finishGap`, `finishWord` and `finishTrans`, as
  loops proved against per-item verdict and record functions (module `Scoring`);
- the quiz set document (module `QuizData`) and the four exercise states with
  their reset, start, selection and Previous/Next handlers (module `Exercise`).
  `Exercise.Quiz` holds `currentData` and the state objects.

A JavaScript string is a `seq<char>`. A value that can be `null` or
`undefined` is an `Option`. `String.fromCharCode` gives a UTF-16 code unit
number (`Scoring.CodeUnit`). The page (DOM reads, clicks, the score card) is not
modelled: what a handler reads from the page becomes a parameter, and what
`showScore` receives becomes the method's results.

`TextKey.Normalize` is a one-step wrapper around the composition of its stages.
This keeps the stages out of the proofs that only need what the contract says.
`TextKey.NormalizeStages` opens the wrapper where a proof needs the stages.

## Model

| member | source | states |
|---|---|---|
| TextKey.Trim | script.js:169 | `trim` leaves no outer whitespace, keeps the absence of punctuation, capitals and double whitespace, and leaves a trimmed text unchanged |
| TextKey.IsWhitespace | script.js:169-171 | the character set of `\s` and of `trim`: the ECMAScript white-space and line-terminator characters |
| TextKey.IsPunctuation | script.js:170 | exactly the 22 characters of the deleted class |
| TextKey.ToLower | script.js:169 | the lower-case of one character is not a capital, a non-capital is unchanged, and whitespace and punctuation membership are kept |
| TextKey.LowerCase | script.js:169 | `toLowerCase` keeps the length, leaves no capital, leaves text without capitals unchanged, and keeps each position's whitespace and punctuation class |
| TextKey.StripPunctuation | script.js:170 | deleting the punctuation class leaves none of it, and keeps every other character |
| TextKey.CollapseWhitespace | script.js:171 | `\s+` to one space: only plain spaces remain, never two in a row, empty exactly when the input is empty |
| TextKey.Normalize | script.js:168-172 | every key is canonical: no punctuation, no capitals, trimmed, single spaces only |
| TextKey.NormalizeValue | script.js:168-172 | a missing value and the empty string both give the empty key; a string gives its normalized form |
| TextKey.NormalizeFixpoints | script.js:168-172 | `normalize(s) == s` exactly when `s` is canonical |
| TextKey.NormalizeFixesCanonical | script.js:168-172 | a canonical text is its own key |
| TextKey.NormalizeIdempotent | script.js:168-172 | normalizing twice is normalizing once |
| TextKey.NormalizeIgnoresCase | script.js:168-172 | lower-casing the answer first does not change its key |
| TextKey.NormalizeIgnoresPunctuation | script.js:168-172 | deleting punctuation first does not change the key |
| TextKey.NormalizeIgnoresOuterWhitespace | script.js:168-172 | whitespace around the answer does not change the key |
| TextKey.NormalizeIsRewrite | script.js:168-172 | the first `trim` is redundant: the key equals the rewrite stages alone |
| Html.Entity | script.js:176-179 | exactly the six characters are replaced; each replacement is one of the six entities and holds no bare markup character |
| Html.Escape | script.js:175-179 | the output holds no bare angle bracket, quote, apostrophe or backtick; the ampersand is covered by Html.EscapeAmpersands |
| Html.EscapeHtml | script.js:174-180 | falsy input gives `''`; output holds no markup character; decoding it gives the input back |
| Html.EscapeRoundTrip | script.js:174-180 | decoding the six entities recovers the escaped text exactly |
| Html.EscapeInjective | script.js:174-180 | two different texts never escape to the same markup |
| Html.EscapeAmpersands | script.js:174-180 | every `&` in the output starts one of the six entities |
| Matching.Accepts | script.js:380-382 | the cloze and word-formation verdict: the answer's key equals the key of some accepted variant; pinned to `valids.includes(user)` by Matching.AcceptsIsMembership |
| Matching.AcceptsIsMembership | script.js:380-382 | the verdict is `valids.includes(user)` over the normalized variants, in both directions |
| Matching.AcceptsIgnoresCaseAndPunctuation | script.js:380-382 | case and punctuation in an answer do not change the cloze or word-formation verdict |
| Matching.Join | script.js:389 | `join(sep)`: the pieces with `sep` between neighbours; Matching.JoinSplit and Matching.JoinShowsEveryPiece pin it down |
| Matching.JoinShowsEveryPiece | script.js:389 | every accepted variant appears in the joined `correct` text |
| Matching.Split | script.js:571 | `split(' ')` yields at least one piece |
| Matching.JoinSplit | script.js:571 | joining the pieces of `split(' ')` with spaces gives the text back |
| Matching.SplitPiecesHaveNoSpace | script.js:571 | no piece of `split(' ')` contains a space |
| Matching.NonEmptyPiecesAreNonEmpty | script.js:571 | `filter(Boolean)` keeps only non-empty pieces and removes nothing when none is empty |
| Matching.WordsOfKey | script.js:570-571 | on a non-empty key the filter drops nothing: the words are exactly the space-separated pieces |
| Matching.NoWordsInEmptyKey | script.js:570-571 | the empty answer has zero words |
| Matching.IncludesOccurs | script.js:575 | `includes` holds exactly when the needle occurs at some position |
| Matching.AnyKeyMatchesSome | script.js:575 | `some` holds exactly when some normalized key matches |
| Matching.TransformAccepts | script.js:569-576 | the transformation verdict: a key of 3 to 5 words that equals, contains or is contained in some non-empty normalized key; Scoring.JudgeTransform proves the source's some-then-gate computation equal to it |
| Matching.WordGate | script.js:572-576 | an answer with fewer than 3 or more than 5 words is wrong whatever it matches |
| Matching.EmptyTransformRejected | script.js:572-576 | an empty transformation is never right |
| Matching.EmbeddedKeyAccepted | script.js:572-576 | an answer of 3 to 5 words that contains a non-empty key, or is contained in one, is right |
| Scoring.FromCharCode | script.js:306-307 | an argument below 2^16 is its own code unit; the result is always a code unit |
| Scoring.FromCharCodeWraps | script.js:306-307 | arguments 2^16 apart give the same code unit |
| Scoring.Letter | script.js:306-307 | option indices 0 to 25 are shown as the letters A to Z in order |
| Scoring.LettersDistinct | script.js:306-307 | different option indices are shown as different letters |
| Scoring.Shown | script.js:388 | the shown answer is none exactly for the empty string, and otherwise the text itself |
| Scoring.ShownLetter | script.js:306 | no letter exactly when no option was chosen |
| QuizData.ChoiceCount | script.js:95 | the number of items, zero when the set or the collection is missing |
| QuizData.GapCount | script.js:96 | the number of blanks, zero when missing |
| QuizData.WordCount | script.js:97 | the number of items, zero when missing |
| QuizData.TransformCount | script.js:98 | the number of items, zero when missing |
| QuizData.GapExplanation | script.js:391 | the gap's explanation when there is one, otherwise the empty string |
| Scoring.CountIsCardinality | script.js:297-302 | the score counted up by the loop is the number of items judged correct |
| Scoring.CountFull | script.js:297-302 | full marks exactly when every item is judged correct |
| Scoring.CountZero | script.js:297-302 | zero exactly when no item is judged correct |
| Scoring.JudgeVariants | script.js:379-382 | the computed `ok` is the variant-acceptance verdict |
| Scoring.JudgeTransform | script.js:567-576 | the computed `ok`, gate included, is the transformation verdict |
| Scoring.JudgeVariantsAt | script.js:379-382 | the verdict computed for item `i` is that item's verdict |
| Scoring.JudgeTransformAt | script.js:566-576 | the verdict computed for item `i` is that item's verdict |
| Scoring.FinishChoice | script.js:294-313 | total is the item count; the score is the number of items whose choice is the key; one record per item in order, numbered from 1, choice and key as letters, no verdict field |
| Scoring.ScoreCloze | script.js:371-396 | total is the blank count; the score counts the accepted blanks; records show an empty answer as no answer, the variants joined with ` / `, the verdict, and a missing explanation as `''` |
| Scoring.FinishWord | script.js:469-492 | the score counts answers whose key is among the item's normalized variants; records in item order |
| Scoring.FinishTransform | script.js:563-590 | the score counts answers passing the lenient match and the word gate; records in item order |
| Scoring.ChoiceScoreCountsMatches | script.js:297-302 | the multiple-choice score equals the number of items whose chosen index is the key |
| Scoring.ChoicePerfect | script.js:297-302 | full marks exactly when every item's choice is its key |
| Scoring.ChoiceUnansweredScoresZero | script.js:299-301 | `null === c` never holds: an untouched exercise scores zero |
| Scoring.TransformBlankScoresZero | script.js:566-578 | empty transformations score zero whatever the keys |
| Scoring.VariantVerdictsIgnoreCase | script.js:375-382 | lower-casing or deleting punctuation from the answers leaves every verdict unchanged |
| Scoring.VariantVerdictsAreMembership | script.js:379-382 | each cloze or word verdict is membership of the key among the normalized variants |
| Scoring.MarkedRecordsCount | script.js:382-390 | the records marked correct are exactly as many as the score |
| Scoring.ClozeRecordsAgree | script.js:383-393 | one record per blank; the marked records number the score; a record shows no answer exactly when the blank was empty |
| Scoring.WordRecordsAgree | script.js:479-489 | one record per item; the marked records number the score; no answer shown exactly for an empty answer |
| Scoring.TransformRecordsAgree | script.js:578-587 | one record per item; the marked records number the score; no answer shown exactly for an empty answer |
| Exercise.ChoiceState.constructor | script.js:95 | a new multiple-choice state is at item 0 with every choice `null` |
| Exercise.ChoiceState.Select | script.js:254-256 | clicking an option records it for the item on screen and changes no other slot and not the index |
| Exercise.ChoiceState.Previous | script.js:274-279 | back one item unless on the first; the choices are untouched; the index stays in range |
| Exercise.ChoiceState.Next | script.js:282-290 | on the last item: finish, index unchanged; otherwise forward one item; the index stays in range |
| Exercise.TextState.constructor | script.js:96-98 | a new text state is at item 0 with every answer `''` |
| Exercise.TextState.Previous | script.js:444-450 | the field's text is stored in the current slot only, then back one item unless on the first |
| Exercise.TextState.Next | script.js:452-460 | the field's text is stored in the current slot only; finish on the last item with the index unchanged, otherwise forward one |
| Exercise.Quiz.constructor | script.js:4-28 | no set loaded; every state empty and at item 0 |
| Exercise.Quiz.ResetExerciseStates | script.js:93-100 | with a set loaded, every exercise gets a new state at item 0 with one empty slot per item; otherwise nothing changes |
| Exercise.Quiz.Install | script.js:68-73 | a loaded set replaces the data and every exercise is reset to fit it |
| Exercise.Quiz.StartChoice | script.js:206-211 | without multiple-choice items nothing changes; otherwise item 0 and every choice `null` |
| Exercise.Quiz.StartGap | script.js:318-323 | without an open cloze nothing changes; otherwise every blank `''` |
| Exercise.Quiz.StartWord | script.js:401-406 | without word-formation items nothing changes; otherwise item 0 and every answer `''` |
| Exercise.Quiz.StartTransform | script.js:497-502 | without transformation items nothing changes; otherwise item 0 and every answer `''` |
| Exercise.Quiz.SelectChoice | script.js:254-256 | a click records the option for the item on screen only; the slots still match the collection |
| Exercise.Quiz.PreviousChoice | script.js:274-279 | back one item unless on the first; the slots still match the collection |
| Exercise.Quiz.NextChoice | script.js:282-290 | finish exactly on item `multipleChoice.length - 1`, index kept; otherwise forward one; the slots still match the collection |
| Exercise.Quiz.PreviousWord | script.js:444-450 | the field's text goes into the current slot only, then back one item unless on the first; the slots still match the collection |
| Exercise.Quiz.NextWord | script.js:452-460 | the field's text goes into the current slot only; finish exactly on item `wordFormation.length - 1`, otherwise forward one |
| Exercise.Quiz.PreviousTransform | script.js:538-544 | the field's text goes into the current slot only, then back one item unless on the first; the slots still match the collection |
| Exercise.Quiz.NextTransform | script.js:546-554 | the field's text goes into the current slot only; finish exactly on item `sentenceTransformation.length - 1`, otherwise forward one |
| Exercise.Quiz.FinishChoice | script.js:294-313 | scores the stored choices against the loaded items |
| Exercise.Quiz.FinishGap | script.js:370-396 | stores the blanks' contents as the gap answers, then scores them against the loaded cloze |
| Exercise.Quiz.FinishWord | script.js:469-492 | scores the stored word-formation answers against the loaded items |
| Exercise.Quiz.FinishTransform | script.js:563-590 | scores the stored transformations against the loaded items |

## Left out

- Rendering, the menu, titles, focus handling and the Enter/Space key wiring are page work. The model keeps only the state each handler changes.
- `loadAvailableSets`, `loadDataSet` (the fetch, its errors, `showLoading`, `currentSetId`) and the contents of the built-in fallback set are I/O and data. `Exercise.Quiz.Install` models only what a successful load does to the state.
- `showScore` and `hideScore` are left out: the counting animation, the percentage message and the answer list. The scorers return what is passed to `showScore`. `escapeHtml` is modelled on its own.
- The `current` variable is never read by the core, so it is not modelled.
- Exercise.ChoiceState.Select, Previous and Next, Exercise.TextState.Previous and Next, and the Exercise.Quiz handlers SelectChoice, PreviousChoice, NextChoice, PreviousWord, NextWord, PreviousTransform and NextTransform require the current index to be an item (for the Quiz handlers: a non-empty collection). Their buttons exist only after an item was rendered, and rendering an empty collection throws in the source.
- Exercise.Quiz.FinishChoice, FinishGap, FinishWord and FinishTransform require the collection to be present. The source would throw on a missing collection, and these handlers are reachable only from a rendered exercise.
- TextKey.ToLower: maps only ASCII and Latin-1 capitals. Other scripts' case mappings are not modelled.
- TextKey.NormalizeValue: covers strings and a missing value only. `toString()` of numbers and objects is not modelled.
- Html.EscapeHtml: covers strings and a missing value only. `String(s)` of non-strings is not modelled.
- Strings are sequences of characters, not UTF-16 code units. None of the character classes involved contains a surrogate, so this does not affect results.
- Each item record holds every field. A missing `ex`/`explain`, or a missing cloze `answers` list, is not modelled. `explanations[i] || ''` is modelled, because the source handles it.
