/**
 The quiz parser between content and quizzes: every parsed quiz is well-formed, every well-formed quiz whose
 texts have no spaces at their ends is parsed back from the content it is written to, and the
 content of a parsed quiz has none of the legacy fields.
 */
module QuizRoundTrip {
  import opened Common
  import opened Json
  import opened Lists
  import opened QuizParser
  import opened Text

  // ---------- well-formed quizzes ----------

  predicate Within(text: string, max: nat) {
    0 < |text| <= max
  }

  predicate WellFormedOption(o: QuizOption) {
    Within(o.id, 64) && Within(o.text, 500) && Stripped(o.text)
  }

  predicate WellFormedQuestion(q: Question) {
    && Within(q.id, 64) && Within(q.text, 500) && Stripped(q.text)
    && 2 <= |q.options| <= 12
    && (forall i :: 0 <= i < |q.options| ==> WellFormedOption(q.options[i]))
    && (forall i, j :: 0 <= i < j < |q.options| ==> q.options[i].id != q.options[j].id)
    && q.correct != {} && (q.kind == SingleChoice ==> |q.correct| == 1)
    && (forall x :: x in q.correct ==> exists i :: 0 <= i < |q.options| && q.options[i].id == x)
    && (q.explanation.Some? ==> Within(q.explanation.value, 1000))
  }

  predicate WellFormed(quiz: seq<Question>) {
    && 1 <= |quiz| <= 20
    && (forall i :: 0 <= i < |quiz| ==> WellFormedQuestion(quiz[i]))
    && (forall i, j :: 0 <= i < j < |quiz| ==> quiz[i].id != quiz[j].id)
  }

  lemma ShortDecimal(n: nat)
    requires n < 100
    ensures 1 <= |Decimal(n)| <= 2
  {
  }

  lemma IdIsWithin(render: Render, raw: Json, fallback: string)
    requires Within(fallback, 64)
    ensures Within(IdOf(render, raw, fallback), 64)
  {
    hide Strip;
  }

  lemma ParsedOptionIsWellFormed(render: Render, opt: Json, index: nat)
    requires OptionParses(opt) && index < 12
    ensures WellFormedOption(OptionOf(render, opt, index))
  {
    hide Strip, IdOf, Stripped;
    IdIsWithin(render, Get(opt, ID), Letter(index));
    StripStrips(Get(opt, TEXT).s);
  }

  lemma ParsedCorrectIsWellFormed(raw: Json, kind: Kind, options: seq<QuizOption>)
    requires CorrectParses(raw, kind, options)
    ensures var correct := Elements(TrimmedAll(Items(raw)));
      && correct != {} && (kind == SingleChoice ==> |correct| == 1)
      && forall x :: x in correct ==> exists i :: 0 <= i < |options| && options[i].id == x
  {
    hide NonBlank, Trimmed;
    var ids := TrimmedAll(raw.items);
    assert ids[0] in Elements(ids);
    DistinctCount(ids);
    forall x | x in Elements(ids) ensures exists i :: 0 <= i < |options| && options[i].id == x {
      var k :| 0 <= k < |ids| && ids[k] == x;
      assert x in Ids(options);
      var i :| 0 <= i < |options| && Ids(options)[i] == x;
    }
  }

  lemma ParsedQuestionIsWellFormed(render: Render, item: Json, index: nat)
    requires QuestionParses(render, item) && index < 20
    ensures WellFormedQuestion(QuestionOf(render, item, index))
  {
    hide Strip, IdOf, Stripped, OptionParses, OptionOf, CorrectParses, WellFormedOption, KindOf, Elements, Decimal;
    var opts := Items(Get(item, OPTIONS));
    ShortDecimal(index + 1);
    IdIsWithin(render, Get(item, ID), "q" + Decimal(index + 1));
    StripStrips(Get(item, TEXT).s);
    ParsedCorrectIsWellFormed(Get(item, CORRECT_IDS), KindOrSingle(Get(item, TYPE)), OptionsOf(render, opts));
    forall i | 0 <= i < |opts| ensures WellFormedOption(OptionsOf(render, opts)[i]) {
      ParsedOptionIsWellFormed(render, opts[i], i);
    }
    var ids := Ids(OptionsOf(render, opts));
    forall i, j | 0 <= i < j < |opts| ensures OptionsOf(render, opts)[i].id != OptionsOf(render, opts)[j].id {
      assert ids[i] != ids[j];
    }
  }

  /** Whatever content is parsed, the quiz is well-formed. */
  lemma ParsedQuizIsWellFormed(render: Render, content: Json)
    requires QuizParses(render, content)
    ensures WellFormed(QuizOf(render, content))
  {
    hide QuestionParses, QuestionOf, WellFormedQuestion;
    var raw, quiz := Items(Get(content, QUESTIONS)), QuizOf(render, content);
    forall i | 0 <= i < |quiz| ensures WellFormedQuestion(quiz[i]) {
      ParsedQuestionIsWellFormed(render, raw[i], i);
    }
    forall i, j | 0 <= i < j < |quiz| ensures quiz[i].id != quiz[j].id {
      assert QuestionIds(quiz)[i] != QuestionIds(quiz)[j];
    }
  }

  // ---------- what does not show in the quiz ----------

  /** The explanation that is kept is the first thousand characters of the stripped text. */
  lemma ParsedExplanation(render: Render, item: Json, index: nat)
    requires QuestionParses(render, item)
    ensures var kept, raw := QuestionOf(render, item, index).explanation, Get(item, EXPLANATION);
      && (kept.Some? <==> raw.Str? && Strip(raw.s) != "")
      && (kept.Some? ==> kept.value <= Strip(raw.s) && |kept.value| == Min(1000, |Strip(raw.s)|))
  {
    hide Strip, OptionsParse, CorrectParses;
  }

  /** A parsed question has a known type, lists its correct ids once each, and has no legacy field. */
  lemma ParsedQuestionIsStrict(render: Render, item: Json)
    requires QuestionParses(render, item)
    ensures item.Obj? && CORRECT !in item.fields && ANSWER !in item.fields
    ensures Get(item, TYPE).Str? && Strip(Get(item, TYPE).s) in {"single_choice", "multiple_choice"}
    ensures Get(item, EXPLANATION) == Null || Get(item, EXPLANATION).Str?
    ensures var ids := Get(item, CORRECT_IDS);
      && ids.Arr? && (forall k :: 0 <= k < |ids.items| ==> ids.items[k].Str? && Strip(ids.items[k].s) != "")
      && (forall k, l :: 0 <= k < l < |ids.items| ==> Strip(ids.items[k].s) != Strip(ids.items[l].s))
    ensures var opts := Get(item, OPTIONS);
      opts.Arr? && forall k :: 0 <= k < |opts.items| ==> opts.items[k].Obj? && Get(opts.items[k], TEXT).Str?
  {
    hide Strip, OptionOf;
    var ids, opts := Get(item, CORRECT_IDS).items, Get(item, OPTIONS).items;
    forall k | 0 <= k < |ids| ensures ids[k].Str? && Strip(ids[k].s) != "" {
      assert NonBlank(ids[k]);
    }
    assert forall k :: 0 <= k < |ids| ==> TrimmedAll(ids)[k] == Strip(ids[k].s);
    forall k | 0 <= k < |opts| ensures opts[k].Obj? && Get(opts[k], TEXT).Str? {
      assert OptionParses(opts[k]);
    }
  }

  /** Parsed content asks for the passing score of 80, if for any, and all its questions are structured. */
  lemma ParsedContentIsStrict(render: Render, content: Json)
    requires QuizParses(render, content)
    ensures content.Obj? && Get(content, QUESTIONS).Arr?
    ensures Get(content, PASSING) == Null || Get(content, PASSING) == Int(80)
    ensures forall i :: 0 <= i < |Get(content, QUESTIONS).items| ==> QuestionParses(render, Get(content, QUESTIONS).items[i])
  {
    hide QuestionParses, QuestionOf;
  }

  // ---------- writing a quiz and parsing it back ----------

  function Written(texts: seq<string>): (items: seq<Json>)
    ensures |items| == |texts| && forall k :: 0 <= k < |texts| ==> items[k] == Str(texts[k])
  {
    seq(|texts|, k requires 0 <= k < |texts| => Str(texts[k]))
  }

  function WrittenOption(o: QuizOption): Json {
    Obj(map[ID := Str(o.id), TEXT := Str(o.text)])
  }

  function WrittenOptions(options: seq<QuizOption>): (items: seq<Json>)
    ensures |items| == |options| && forall k :: 0 <= k < |options| ==> items[k] == WrittenOption(options[k])
  {
    seq(|options|, k requires 0 <= k < |options| => WrittenOption(options[k]))
  }

  /** `correct` lists the correct option ids in some order. */
  function WrittenQuestion(q: Question, correct: seq<string>): Json {
    Obj(map[
      ID := Str(q.id),
      TYPE := Str(if q.kind == SingleChoice then "single_choice" else "multiple_choice"),
      TEXT := Str(q.text),
      OPTIONS := Arr(WrittenOptions(q.options)),
      CORRECT_IDS := Arr(Written(correct)),
      EXPLANATION := if q.explanation.Some? then Str(q.explanation.value) else Null])
  }

  function WrittenQuestions(quiz: seq<Question>, correct: seq<seq<string>>): (items: seq<Json>)
    requires |correct| == |quiz|
    ensures |items| == |quiz| && forall i :: 0 <= i < |quiz| ==> items[i] == WrittenQuestion(quiz[i], correct[i])
  {
    seq(|quiz|, i requires 0 <= i < |quiz| => WrittenQuestion(quiz[i], correct[i]))
  }

  function WrittenQuiz(quiz: seq<Question>, correct: seq<seq<string>>): Json
    requires |correct| == |quiz|
  {
    Obj(map[QUESTIONS := Arr(WrittenQuestions(quiz, correct))])
  }

  /** No text of the question that is read has spaces at its ends. */
  predicate NoOuterSpaces(q: Question) {
    && Stripped(q.id) && (forall i :: 0 <= i < |q.options| ==> Stripped(q.options[i].id))
    && (q.explanation.Some? ==> Stripped(q.explanation.value))
  }

  predicate ListsCorrect(correct: seq<string>, q: Question) {
    Distinct(correct) && Elements(correct) == q.correct
  }

  lemma WrittenIdReadsBack(render: Render, id: string, fallback: string)
    requires Within(id, 64) && Stripped(id)
    ensures IdOf(render, Str(id), fallback) == id
  {
    hide Strip, Stripped;
    StripStrips(id);
  }

  lemma WrittenOptionReadsBack(render: Render, o: QuizOption, index: nat)
    requires WellFormedOption(o) && Stripped(o.id)
    ensures OptionParses(WrittenOption(o)) && OptionOf(render, WrittenOption(o), index) == o
  {
    hide Strip, Stripped, IdOf;
    WrittenIdReadsBack(render, o.id, Letter(index));
    StripStrips(o.text);
  }

  lemma WrittenOptionsReadBack(render: Render, options: seq<QuizOption>)
    requires forall i :: 0 <= i < |options| ==> WellFormedOption(options[i]) && Stripped(options[i].id)
    requires forall i, j :: 0 <= i < j < |options| ==> options[i].id != options[j].id
    ensures OptionsParse(render, WrittenOptions(options)) && OptionsOf(render, WrittenOptions(options)) == options
  {
    hide OptionParses, OptionOf, WrittenOption, Stripped, WellFormedOption;
    var items := WrittenOptions(options);
    forall i | 0 <= i < |options| ensures OptionParses(items[i]) && OptionsOf(render, items)[i] == options[i] {
      WrittenOptionReadsBack(render, options[i], i);
    }
    assert OptionsOf(render, items) == options;
  }

  lemma WrittenCorrectReadsBack(q: Question, correct: seq<string>)
    requires WellFormedQuestion(q) && NoOuterSpaces(q) && ListsCorrect(correct, q)
    ensures CorrectParses(Arr(Written(correct)), q.kind, q.options)
    ensures Elements(TrimmedAll(Written(correct))) == q.correct
  {
    hide Strip, Stripped;
    var items := Written(correct);
    DistinctCount(correct);
    var some :| some in q.correct;
    assert some in Elements(correct);
    forall k | 0 <= k < |correct|
      ensures NonBlank(items[k]) && Trimmed(items[k]) == correct[k] && correct[k] in Ids(q.options)
    {
      assert correct[k] in Elements(correct);
      var i :| 0 <= i < |q.options| && q.options[i].id == correct[k];
      assert WellFormedOption(q.options[i]) && Ids(q.options)[i] == correct[k];
      StripStrips(correct[k]);
    }
    assert TrimmedAll(items) == correct;
  }

  lemma WrittenExplanationReadsBack(q: Question)
    requires WellFormedQuestion(q) && NoOuterSpaces(q)
    ensures ExplanationOf(if q.explanation.Some? then Str(q.explanation.value) else Null) == q.explanation
  {
    hide Strip, Stripped;
    if q.explanation.Some? {
      StripStrips(q.explanation.value);
    }
  }

  lemma KindReadsBack(kind: Kind)
    ensures KindOf(Str(if kind == SingleChoice then "single_choice" else "multiple_choice")) == Some(kind)
  {
    hide Strip;
    StripStrips("single_choice");
    StripStrips("multiple_choice");
  }

  lemma WrittenQuestionReadsBack(render: Render, q: Question, correct: seq<string>, index: nat)
    requires WellFormedQuestion(q) && NoOuterSpaces(q) && ListsCorrect(correct, q)
    ensures QuestionParses(render, WrittenQuestion(q, correct))
    ensures QuestionOf(render, WrittenQuestion(q, correct), index) == q
  {
    hide Strip, Stripped, OptionsParse, CorrectParses, KindOf, ExplanationOf, IdOf, WellFormedOption, Elements, Distinct,
      WrittenQuestion, TrimmedAll, OptionsOf, NoOuterSpaces;
    WrittenFields(q, correct);
    KindReadsBack(q.kind);
    assert Stripped(q.id) && forall i :: 0 <= i < |q.options| ==> Stripped(q.options[i].id) by {
      OuterSpaces(q);
    }
    WrittenIdReadsBack(render, q.id, "q" + Decimal(index + 1));
    WrittenOptionsReadBack(render, q.options);
    WrittenCorrectReadsBack(q, correct);
    WrittenExplanationReadsBack(q);
    StripStrips(q.text);
  }

  lemma OuterSpaces(q: Question)
    requires NoOuterSpaces(q)
    ensures Stripped(q.id) && forall i :: 0 <= i < |q.options| ==> Stripped(q.options[i].id)
  {
  }

  lemma WrittenFields(q: Question, correct: seq<string>)
    ensures var item := WrittenQuestion(q, correct);
      && item.Obj? && !Has(item, CORRECT) && !Has(item, ANSWER)
      && Get(item, ID) == Str(q.id) && Get(item, TEXT) == Str(q.text)
      && Get(item, TYPE) == Str(if q.kind == SingleChoice then "single_choice" else "multiple_choice")
      && Get(item, OPTIONS) == Arr(WrittenOptions(q.options)) && Get(item, CORRECT_IDS) == Arr(Written(correct))
      && Get(item, EXPLANATION) == if q.explanation.Some? then Str(q.explanation.value) else Null
  {
  }

  /** A well-formed quiz without outer spaces is parsed back from the content it is written to. */
  lemma QuizReadsBack(render: Render, quiz: seq<Question>, correct: seq<seq<string>>)
    requires WellFormed(quiz) && |correct| == |quiz|
    requires forall i :: 0 <= i < |quiz| ==> NoOuterSpaces(quiz[i]) && ListsCorrect(correct[i], quiz[i])
    ensures QuizParses(render, WrittenQuiz(quiz, correct)) && QuizOf(render, WrittenQuiz(quiz, correct)) == quiz
  {
    hide QuestionParses, QuestionOf, WrittenQuestion, WellFormedQuestion, NoOuterSpaces, ListsCorrect;
    var items := WrittenQuestions(quiz, correct);
    assert Items(Get(WrittenQuiz(quiz, correct), QUESTIONS)) == items;
    forall i | 0 <= i < |quiz| ensures QuestionParses(render, items[i]) && QuestionsOf(render, items)[i] == quiz[i] {
      WrittenQuestionReadsBack(render, quiz[i], correct[i], i);
    }
    assert QuestionsOf(render, items) == quiz;
  }
}
