/** The four scorers of script.js (`finishMC`, `finishGap`, `finishWord`,
    `finishTrans`): each walks the items in order, judges the stored answer,
    counts the correct ones and builds one result record per item. */
module Scoring {
  import opened Wrappers
  import opened QuizData
  import opened TextKey
  import opened Matching

  // ---------------------------------------------------------------------------
  // Result records
  // ---------------------------------------------------------------------------

  /** One UTF-16 code unit, the value `String.fromCharCode` produces. */
  type CodeUnit = n: int | 0 <= n < 0x1_0000

  /** `String.fromCharCode(n)` reduces its argument modulo 2^16. */
  function FromCharCode(n: int): (u: CodeUnit)
    ensures 0 <= n < 0x1_0000 ==> u == n
  {
    n % 0x1_0000
  }

  /** The option letter of index `k`: `String.fromCharCode(65 + k)`. */
  function Letter(k: int): (u: CodeUnit)
    ensures 0 <= k < 26 ==> 'A' as int <= u <= 'Z' as int && u == 'A' as int + k
  {
    FromCharCode(65 + k)
  }

  /** A multiple-choice record; it carries no verdict field. */
  datatype ChoiceRecord = ChoiceRecord(q: nat, user: Option<CodeUnit>, correct: CodeUnit, explanation: string)

  /** A record of the three text exercises. */
  datatype TextRecord = TextRecord(q: nat, user: Option<string>, correct: string, isCorrect: bool, explanation: string)

  /** `raw || null`: the empty answer is shown as no answer. */
  function Shown(raw: string): (shown: Option<string>)
    ensures shown.None? <==> raw == ""
    ensures shown.Some? ==> shown.value == raw
  {
    if raw == "" then None else Some(raw)
  }

  /** `user === null ? null : String.fromCharCode(65 + user)`. */
  function ShownLetter(answer: Option<nat>): (shown: Option<CodeUnit>)
    ensures shown.None? <==> answer.None?
  {
    if answer.None? then None else Some(Letter(answer.value))
  }

  /** `String.fromCharCode` wraps around: indices 2^16 apart give the same unit. */
  lemma FromCharCodeWraps(n: int)
    ensures FromCharCode(n + 0x1_0000) == FromCharCode(n)
  {
  }

  /** Different option indices of a plausible size are shown as different letters. */
  lemma LettersDistinct(j: nat, k: nat)
    requires j != k && 65 + j < 0x1_0000 && 65 + k < 0x1_0000
    ensures Letter(j) != Letter(k)
  {
  }

  // ---------------------------------------------------------------------------
  // Counting the correct answers
  // ---------------------------------------------------------------------------

  /** The number of `true` verdicts, counted from the front as the loops do. */
  function Count(flags: seq<bool>): (n: nat)
    ensures n <= |flags|
  {
    if flags == [] then 0
    else Count(flags[..|flags| - 1]) + (if flags[|flags| - 1] then 1 else 0)
  }

  /** The indices of the `true` verdicts among the first `n`. */
  function TrueBelow(flags: seq<bool>, n: nat): set<nat>
    requires n <= |flags|
  {
    set k: nat | k < n && flags[k]
  }

  /** The count is the number of positions judged correct. */
  lemma {:induction false} CountIsCardinality(flags: seq<bool>)
    ensures Count(flags) == |TrueBelow(flags, |flags|)|
  {
    if flags != [] {
      var n := |flags| - 1;
      var init := flags[..n];
      CountIsCardinality(init);
      TrueBelowPrefix(flags, n);
      var below := TrueBelow(flags, n);
      if flags[n] {
        assert TrueBelow(flags, n + 1) == below + {n};
        assert n !in below;
      } else {
        assert TrueBelow(flags, n + 1) == below;
      }
    }
  }

  lemma TrueBelowPrefix(flags: seq<bool>, n: nat)
    requires n <= |flags|
    ensures TrueBelow(flags[..n], n) == TrueBelow(flags, n)
  {
    forall k: nat | k < n ensures flags[..n][k] == flags[k] {
    }
  }

  /** Full marks exactly when every verdict is `true`. */
  lemma {:induction false} CountFull(flags: seq<bool>)
    ensures Count(flags) == |flags| <==> forall k :: 0 <= k < |flags| ==> flags[k]
  {
    if flags != [] {
      var n := |flags| - 1;
      CountFull(flags[..n]);
      assert forall k :: 0 <= k < n ==> flags[..n][k] == flags[k];
    }
  }

  /** Zero exactly when every verdict is `false`. */
  lemma {:induction false} CountZero(flags: seq<bool>)
    ensures Count(flags) == 0 <==> forall k :: 0 <= k < |flags| ==> !flags[k]
  {
    if flags != [] {
      var n := |flags| - 1;
      CountZero(flags[..n]);
      assert forall k :: 0 <= k < n ==> flags[..n][k] == flags[k];
    }
  }

  /** One more verdict, as each loop iteration adds. */
  lemma CountStep(flags: seq<bool>, i: nat)
    requires i < |flags|
    ensures Count(flags[..i + 1]) == Count(flags[..i]) + (if flags[i] then 1 else 0)
  {
    assert flags[..i + 1][..i] == flags[..i];
  }

  /** Extensionality kept away from the verdicts' definitions. */
  lemma TakeAll<T>(flags: seq<T>)
    ensures flags[..|flags|] == flags
  {
  }

  // ---------------------------------------------------------------------------
  // Verdicts
  // ---------------------------------------------------------------------------

  /** `user === c`: the chosen option is the key; no choice never matches. */
  predicate ChoiceCorrect(answer: Option<nat>, item: ChoiceItem) {
    answer.Some? && answer.value == item.key
  }

  /** The verdict of each multiple-choice item. */
  function ChoiceVerdicts(answers: seq<Option<nat>>, items: seq<ChoiceItem>): seq<bool>
    requires |answers| == |items|
  {
    seq(|items|, k requires 0 <= k < |items| => ChoiceCorrect(answers[k], items[k]))
  }

  /** Open cloze and word formation: each answer against its own list of variants. */
  function VariantVerdicts(raws: seq<string>, variants: seq<seq<string>>): seq<bool>
    requires |raws| == |variants|
  {
    seq(|raws|, k requires 0 <= k < |raws| => Accepts(variants[k], raws[k]))
  }

  /** The accepted variants of each word-formation item. */
  function WordVariants(items: seq<WordItem>): seq<seq<string>> {
    seq(|items|, k requires 0 <= k < |items| => items[k].answers)
  }

  /** The verdict of each sentence-transformation item. */
  function TransformVerdicts(answers: seq<string>, items: seq<TransformItem>): seq<bool>
    requires |answers| == |items|
  {
    seq(|items|, k requires 0 <= k < |items| => TransformAccepts(items[k].keys, answers[k]))
  }

  // ---------------------------------------------------------------------------
  // The scorers
  // ---------------------------------------------------------------------------

  /** `valids.includes(normalize(raw))` over the normalized variants. */
  method JudgeVariants(variants: seq<string>, raw: string) returns (ok: bool)
    ensures ok == Accepts(variants, raw)
  {
    var user := Normalize(raw);
    var valids := NormalizeAll(variants);
    ok := user in valids;
    AcceptsIsMembership(variants, raw);
  }

  /** The verdict of `finishTrans`: a lenient key match, overruled by the word-count gate. */
  method JudgeTransform(keys: seq<string>, raw: string) returns (ok: bool)
    ensures ok == TransformAccepts(keys, raw)
  {
    var user := Normalize(raw);
    var words := Words(user);
    var lenOK := |words| >= 3 && |words| <= 5;
    var valids := NormalizeAll(keys);
    ok := AnyKeyMatches(user, valids);
    if ok && !lenOK {
      ok := false;
    }
    AnyKeyMatchesSome(user, valids);
    if AnyKeyMatches(user, valids) {
      var k :| 0 <= k < |valids| && KeyMatches(user, valids[k]);
      assert KeyMatches(user, Normalize(keys[k]));
    }
    if exists k :: 0 <= k < |keys| && KeyMatches(user, Normalize(keys[k])) {
      var k :| 0 <= k < |keys| && KeyMatches(user, Normalize(keys[k]));
      assert KeyMatches(user, valids[k]);
    }
  }

  /** The loop body of `finishGap` and `finishWord` at item `i`: its verdict. */
  method JudgeVariantsAt(raws: seq<string>, variants: seq<seq<string>>, i: nat) returns (ok: bool)
    requires |raws| == |variants| && i < |raws|
    ensures ok == VariantVerdicts(raws, variants)[i]
  {
    ok := JudgeVariants(variants[i], raws[i]);
  }

  /** The loop body of `finishTrans` at item `i`: its verdict. */
  method JudgeTransformAt(answers: seq<string>, items: seq<TransformItem>, i: nat) returns (ok: bool)
    requires |answers| == |items| && i < |items|
    ensures ok == TransformVerdicts(answers, items)[i]
  {
    ok := JudgeTransform(items[i].keys, answers[i]);
  }

  /** The records `finishMC` shows: one per item, in order, numbered from 1,
      with the chosen and the correct option as letters. */
  function ChoiceRecords(answers: seq<Option<nat>>, items: seq<ChoiceItem>): seq<ChoiceRecord>
    requires |answers| == |items|
  {
    seq(|items|, k requires 0 <= k < |items| =>
      ChoiceRecord(k + 1, ShownLetter(answers[k]), Letter(items[k].key), items[k].explanation))
  }

  /** The records `finishGap` shows: the raw text, every accepted variant, the verdict. */
  function ClozeRecords(raws: seq<string>, cloze: Cloze): seq<TextRecord>
    requires |raws| == |cloze.answers|
  {
    seq(|raws|, k requires 0 <= k < |raws| =>
      TextRecord(k + 1, Shown(raws[k]), Join(cloze.answers[k], " / "),
                 VariantVerdicts(raws, cloze.answers)[k], GapExplanation(cloze, k)))
  }

  /** The records `finishWord` shows. */
  function WordRecords(answers: seq<string>, items: seq<WordItem>): seq<TextRecord>
    requires |answers| == |items|
  {
    seq(|items|, k requires 0 <= k < |items| =>
      TextRecord(k + 1, Shown(answers[k]), Join(items[k].answers, " / "),
                 VariantVerdicts(answers, WordVariants(items))[k], items[k].explanation))
  }

  /** The records `finishTrans` shows. */
  function TransformRecords(answers: seq<string>, items: seq<TransformItem>): seq<TextRecord>
    requires |answers| == |items|
  {
    seq(|items|, k requires 0 <= k < |items| =>
      TextRecord(k + 1, Shown(answers[k]), Join(items[k].keys, " / "),
                 TransformVerdicts(answers, items)[k], items[k].explanation))
  }

  lemma TakeStep<T>(xs: seq<T>, i: nat)
    requires i < |xs|
    ensures xs[..i + 1] == xs[..i] + [xs[i]]
  {
  }

  /** `finishMC`: option indices against the keys. */
  method FinishChoice(answers: seq<Option<nat>>, items: seq<ChoiceItem>)
      returns (score: nat, total: nat, results: seq<ChoiceRecord>)
    requires |answers| == |items|
    ensures total == |items|
    ensures score == Count(ChoiceVerdicts(answers, items)) && score <= total
    ensures results == ChoiceRecords(answers, items)
  {
    ghost var verdicts := ChoiceVerdicts(answers, items);
    ghost var records := ChoiceRecords(answers, items);
    total := |items|;
    score := 0;
    results := [];
    var i := 0;
    while i < total
      invariant i <= total
      invariant score == Count(verdicts[..i])
      invariant results == records[..i]
    {
      var user := answers[i];
      var ok := user == Some(items[i].key);
      CountStep(verdicts, i);
      if ok {
        score := score + 1;
      }
      var shown := if user.None? then None else Some(Letter(user.value));
      TakeStep(records, i);
      results := results + [ChoiceRecord(i + 1, shown, Letter(items[i].key), items[i].explanation)];
      i := i + 1;
    }
    TakeAll(verdicts);
    TakeAll(records);
  }

  /** The scoring loop of `finishGap`, over the raw contents of the blanks. */
  method ScoreCloze(raws: seq<string>, cloze: Cloze)
      returns (score: nat, total: nat, results: seq<TextRecord>)
    requires |raws| == |cloze.answers|
    ensures total == |raws|
    ensures score == Count(VariantVerdicts(raws, cloze.answers)) && score <= total
    ensures results == ClozeRecords(raws, cloze)
  {
    ghost var verdicts := VariantVerdicts(raws, cloze.answers);
    ghost var records := ClozeRecords(raws, cloze);
    total := |raws|;
    score := 0;
    results := [];
    var i := 0;
    while i < total
      invariant i <= total
      invariant score == Count(verdicts[..i])
      invariant results == records[..i]
    {
      var raw := raws[i];
      var ok := JudgeVariantsAt(raws, cloze.answers, i);
      CountStep(verdicts, i);
      if ok {
        score := score + 1;
      }
      TakeStep(records, i);
      results := results + [TextRecord(i + 1, Shown(raw), Join(cloze.answers[i], " / "), ok, GapExplanation(cloze, i))];
      i := i + 1;
    }
    TakeAll(verdicts);
    TakeAll(records);
  }

  /** `finishWord`: the stored answers against each item's variants. */
  method FinishWord(answers: seq<string>, items: seq<WordItem>)
      returns (score: nat, total: nat, results: seq<TextRecord>)
    requires |answers| == |items|
    ensures total == |items|
    ensures score == Count(VariantVerdicts(answers, WordVariants(items))) && score <= total
    ensures results == WordRecords(answers, items)
  {
    ghost var verdicts := VariantVerdicts(answers, WordVariants(items));
    ghost var records := WordRecords(answers, items);
    total := |items|;
    score := 0;
    results := [];
    var i := 0;
    while i < total
      invariant i <= total
      invariant score == Count(verdicts[..i])
      invariant results == records[..i]
    {
      var raw := answers[i];
      var ok := JudgeVariantsAt(answers, WordVariants(items), i);
      CountStep(verdicts, i);
      if ok {
        score := score + 1;
      }
      TakeStep(records, i);
      results := results + [TextRecord(i + 1, Shown(raw), Join(items[i].answers, " / "), ok, items[i].explanation)];
      i := i + 1;
    }
    TakeAll(verdicts);
    TakeAll(records);
  }

  /** `finishTrans`: the lenient key match, then the word-count gate. */
  method FinishTransform(answers: seq<string>, items: seq<TransformItem>)
      returns (score: nat, total: nat, results: seq<TextRecord>)
    requires |answers| == |items|
    ensures total == |items|
    ensures score == Count(TransformVerdicts(answers, items)) && score <= total
    ensures results == TransformRecords(answers, items)
  {
    ghost var verdicts := TransformVerdicts(answers, items);
    ghost var records := TransformRecords(answers, items);
    total := |items|;
    score := 0;
    results := [];
    var i := 0;
    while i < total
      invariant i <= total
      invariant score == Count(verdicts[..i])
      invariant results == records[..i]
    {
      var raw := answers[i];
      var ok := JudgeTransformAt(answers, items, i);
      CountStep(verdicts, i);
      if ok {
        score := score + 1;
      }
      TakeStep(records, i);
      results := results + [TextRecord(i + 1, Shown(raw), Join(items[i].keys, " / "), ok, items[i].explanation)];
      i := i + 1;
    }
    TakeAll(verdicts);
    TakeAll(records);
  }

  // ---------------------------------------------------------------------------
  // What the scores mean
  // ---------------------------------------------------------------------------

  /** The multiple-choice score is the number of items whose chosen option is the key. */
  lemma ChoiceScoreCountsMatches(answers: seq<Option<nat>>, items: seq<ChoiceItem>)
    requires |answers| == |items|
    ensures Count(ChoiceVerdicts(answers, items))
         == |set k: nat | k < |items| && answers[k] == Some(items[k].key)|
  {
    var v := ChoiceVerdicts(answers, items);
    CountIsCardinality(v);
    assert TrueBelow(v, |v|) == set k: nat | k < |items| && answers[k] == Some(items[k].key);
  }

  /** Full marks exactly when every item got its key; an unanswered item rules them out. */
  lemma ChoicePerfect(answers: seq<Option<nat>>, items: seq<ChoiceItem>)
    requires |answers| == |items|
    ensures Count(ChoiceVerdicts(answers, items)) == |items|
        <==> forall k :: 0 <= k < |items| ==> answers[k] == Some(items[k].key)
  {
    var v := ChoiceVerdicts(answers, items);
    CountFull(v);
    assert forall k :: 0 <= k < |items| ==> (v[k] <==> answers[k] == Some(items[k].key));
  }

  /** Submitting without choosing anything scores zero. */
  lemma ChoiceUnansweredScoresZero(answers: seq<Option<nat>>, items: seq<ChoiceItem>)
    requires |answers| == |items|
    requires forall k :: 0 <= k < |answers| ==> answers[k].None?
    ensures Count(ChoiceVerdicts(answers, items)) == 0
  {
    CountZero(ChoiceVerdicts(answers, items));
  }

  /** Submitting empty transformations scores zero, whatever the keys. */
  lemma TransformBlankScoresZero(answers: seq<string>, items: seq<TransformItem>)
    requires |answers| == |items|
    requires forall k :: 0 <= k < |answers| ==> answers[k] == ""
    ensures Count(TransformVerdicts(answers, items)) == 0
  {
    var v := TransformVerdicts(answers, items);
    forall k | 0 <= k < |items| ensures !v[k] {
      EmptyTransformRejected(items[k].keys);
    }
    CountZero(v);
  }

  /** Case and punctuation in the answers do not change any open-cloze or
      word-formation verdict. */
  lemma VariantVerdictsIgnoreCase(raws: seq<string>, variants: seq<seq<string>>)
    requires |raws| == |variants|
    ensures VariantVerdicts(seq(|raws|, k requires 0 <= k < |raws| => LowerCase(raws[k])), variants)
         == VariantVerdicts(raws, variants)
    ensures VariantVerdicts(seq(|raws|, k requires 0 <= k < |raws| => StripPunctuation(raws[k])), variants)
         == VariantVerdicts(raws, variants)
  {
    var lowered := seq(|raws|, k requires 0 <= k < |raws| => LowerCase(raws[k]));
    var stripped := seq(|raws|, k requires 0 <= k < |raws| => StripPunctuation(raws[k]));
    forall k | 0 <= k < |raws|
      ensures VariantVerdicts(lowered, variants)[k] == VariantVerdicts(raws, variants)[k]
      ensures VariantVerdicts(stripped, variants)[k] == VariantVerdicts(raws, variants)[k]
    {
      AcceptsIgnoresCaseAndPunctuation(variants[k], raws[k]);
    }
  }

  /** Each open-cloze or word-formation verdict is `valids.includes(user)`. */
  lemma VariantVerdictsAreMembership(raws: seq<string>, variants: seq<seq<string>>)
    requires |raws| == |variants|
    ensures forall k :: 0 <= k < |raws| ==>
      (VariantVerdicts(raws, variants)[k] <==> Normalize(raws[k]) in NormalizeAll(variants[k]))
  {
    forall k | 0 <= k < |raws|
      ensures VariantVerdicts(raws, variants)[k] <==> Normalize(raws[k]) in NormalizeAll(variants[k])
    {
      AcceptsIsMembership(variants[k], raws[k]);
    }
  }

  /** The records marked correct are as many as the score. */
  lemma MarkedRecordsCount(records: seq<TextRecord>, verdicts: seq<bool>)
    requires |records| == |verdicts|
    requires forall k :: 0 <= k < |records| ==> records[k].isCorrect == verdicts[k]
    ensures Count(verdicts) == |set k: nat | k < |records| && records[k].isCorrect|
  {
    CountIsCardinality(verdicts);
    assert TrueBelow(verdicts, |verdicts|) == set k: nat | k < |records| && records[k].isCorrect;
  }

  /** What `finishGap` lists agrees with its score, and an empty blank is listed
      as no answer. */
  lemma ClozeRecordsAgree(raws: seq<string>, cloze: Cloze)
    requires |raws| == |cloze.answers|
    ensures |ClozeRecords(raws, cloze)| == |raws|
    ensures Count(VariantVerdicts(raws, cloze.answers))
         == |set k: nat | k < |raws| && ClozeRecords(raws, cloze)[k].isCorrect|
    ensures forall k :: 0 <= k < |raws| ==> (ClozeRecords(raws, cloze)[k].user.None? <==> raws[k] == "")
  {
    MarkedRecordsCount(ClozeRecords(raws, cloze), VariantVerdicts(raws, cloze.answers));
  }

  /** What `finishWord` lists agrees with its score, and an empty answer is
      listed as no answer. */
  lemma WordRecordsAgree(answers: seq<string>, items: seq<WordItem>)
    requires |answers| == |items|
    ensures |WordRecords(answers, items)| == |items|
    ensures Count(VariantVerdicts(answers, WordVariants(items)))
         == |set k: nat | k < |items| && WordRecords(answers, items)[k].isCorrect|
    ensures forall k :: 0 <= k < |items| ==> (WordRecords(answers, items)[k].user.None? <==> answers[k] == "")
  {
    MarkedRecordsCount(WordRecords(answers, items), VariantVerdicts(answers, WordVariants(items)));
  }

  /** What `finishTrans` lists agrees with its score, and an empty answer is
      listed as no answer. */
  lemma TransformRecordsAgree(answers: seq<string>, items: seq<TransformItem>)
    requires |answers| == |items|
    ensures |TransformRecords(answers, items)| == |items|
    ensures Count(TransformVerdicts(answers, items))
         == |set k: nat | k < |items| && TransformRecords(answers, items)[k].isCorrect|
    ensures forall k :: 0 <= k < |items| ==> (TransformRecords(answers, items)[k].user.None? <==> answers[k] == "")
  {
    MarkedRecordsCount(TransformRecords(answers, items), TransformVerdicts(answers, items));
  }
}
