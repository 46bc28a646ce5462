/**
 What an author can check of a quiz before it is used: whether an id is cut at 64 characters right
 after a space. A quiz takes the answers its own view offers exactly when none is.
 */
module QuizIds {
  import opened Common
  import opened Json
  import opened Lists
  import opened QuizAnswers
  import opened QuizParser
  import opened QuizScoring
  import opened QuizView
  import opened Text

  /** The id is longer than 64 characters and the 64th is a space: cutting it leaves a trailing space. */
  predicate CutAfterSpace(render: Render, raw: Json) {
    var text := Strip(if raw.Str? then raw.s else render(raw));
    raw != Null && |text| > ID_MAX && IsSpace(text[ID_MAX - 1])
  }

  predicate QuestionIdsWhole(render: Render, raw: seq<Json>) {
    forall i :: 0 <= i < |raw| ==> !CutAfterSpace(render, Get(raw[i], ID))
  }

  predicate OptionIdsWhole(render: Render, opts: seq<Json>) {
    forall k :: 0 <= k < |opts| ==> !CutAfterSpace(render, Get(opts[k], ID))
  }

  function RawQuestions(content: Json): seq<Json> {
    Items(Get(content, QUESTIONS))
  }

  function RawOptions(item: Json): seq<Json> {
    Items(Get(item, OPTIONS))
  }

  predicate NoIdIsCut(render: Render, content: Json) {
    var raw := RawQuestions(content);
    QuestionIdsWhole(render, raw) && forall i :: 0 <= i < |raw| ==> OptionIdsWhole(render, RawOptions(raw[i]))
  }

  // ---------- stable ids, in terms of the stored content ----------

  lemma QuestionIdIsStableIff(render: Render, item: Json, index: nat)
    ensures Stable(QuestionId(render, item, index)) <==> !CutAfterSpace(render, Get(item, ID))
  {
    hide Strip, IsSpace, Stable, IdOf, Get;
    GeneratedIdsAreStable(index);
    IdIsStableUnlessCutAfterSpace(render, Get(item, ID), "q" + Decimal(index + 1));
  }

  lemma OptionIdIsStableIff(render: Render, opt: Json, index: nat)
    requires index < MAX_OPTIONS
    ensures Stable(OptionId(render, opt, index)) <==> !CutAfterSpace(render, Get(opt, ID))
  {
    hide Strip, IsSpace, Stable, IdOf, Get, Letter;
    GeneratedIdsAreStable(index);
    IdIsStableUnlessCutAfterSpace(render, Get(opt, ID), Letter(index));
  }

  /** The question ids of a quiz that parses survive stripping exactly when none is cut after a space. */
  lemma QuestionIdsAreStableIffWhole(render: Render, content: Json)
    requires QuizParses(render, content)
    ensures StableQuestions(QuizOf(render, content)) <==> QuestionIdsWhole(render, RawQuestions(content))
  {
    hide QuestionParses, Stable, CutAfterSpace, QuestionId, Distinct;
    var raw, quiz := RawQuestions(content), QuizOf(render, content);
    forall i | 0 <= i < |raw| ensures Stable(quiz[i].id) <==> !CutAfterSpace(render, Get(raw[i], ID)) {
      QuestionIdIsStableIff(render, raw[i], i);
    }
  }

  /** The option ids of a question that parses survive stripping exactly when none is cut after a space. */
  lemma OptionIdsAreStableIffWhole(render: Render, item: Json)
    requires QuestionParses(render, item)
    ensures StableIds(Ids(OptionsOf(render, RawOptions(item)))) <==> OptionIdsWhole(render, RawOptions(item))
  {
    var opts := RawOptions(item);
    assert |opts| <= MAX_OPTIONS;
    hide QuestionParses, Stable, CutAfterSpace, OptionId, Distinct, RawOptions;
    var ids := Ids(OptionsOf(render, opts));
    forall k | 0 <= k < |opts| ensures Stable(ids[k]) <==> !CutAfterSpace(render, Get(opts[k], ID)) {
      OptionIdIsStableIff(render, opts[k], k);
    }
  }

  // ---------- the correct choice ----------

  /** Ticking the correct options is accepted exactly when no question id is cut after a space, and then scores 100. */
  lemma CorrectChoiceScoresHundredIffNoIdIsCut(render: Render, content: Json, choice: Choice)
    requires QuizParses(render, content) && TicksCorrect(QuizOf(render, content), choice)
    ensures var quiz, view := QuizOf(render, content), View(render, PublicContent(content));
      && |view| == |choice|
      && var answers := AnswersFor(view, choice);
         (Accepts(quiz, answers) <==> QuestionIdsWhole(render, RawQuestions(content)))
         && (Accepts(quiz, answers) ==> ResultOf(CorrectCount(quiz, Selected(answers.items)), |quiz|).score == 100)
  {
    hide QuestionsParse, QuizOf, View, PublicContent, Accepts, StableQuestions, QuestionIdsWhole, Selected, ResultOf,
      CorrectCount, AnswerFor, TicksCorrect;
    CorrectChoiceScoresHundredIffIdsStable(render, content, choice);
    QuestionIdsAreStableIffWhole(render, content);
  }

  // ---------- every choice ----------

  predicate RecordedAsTicked(quiz: seq<Question>, view: seq<ViewQuestion>, choice: Choice) {
    |quiz| == |view| == |choice|
    && Accepts(quiz, AnswersFor(view, choice))
    && Records(quiz, choice, Selected(AnswersFor(view, choice).items))
  }

  /** The employee's view of the stored content. */
  function EmployeeView(render: Render, content: Json): seq<ViewQuestion> {
    if content.Obj? then View(render, PublicContent(content)) else []
  }

  /** Ticks that the view offers survive stripping when the options they come from do. */
  lemma OfferedTicksAreStable(q: ViewQuestion, ticked: seq<string>)
    requires LegalTick(q, ticked) && StableIds(Ids(q.options))
    ensures StableIds(ticked)
  {
    hide Stable, Distinct;
    forall k | 0 <= k < |ticked| ensures Stable(ticked[k]) {
      var n :| 0 <= n < |Ids(q.options)| && Ids(q.options)[n] == ticked[k];
    }
  }

  /** The view offers every stored option of a question. */
  predicate Offers(render: Render, item: Json, q: ViewQuestion) {
    2 <= |RawOptions(item)| <= MAX_OPTIONS && q.options == OptionsOf(render, RawOptions(item))
  }

  lemma ParsedOffers(render: Render, item: Json, index: nat)
    requires QuestionParses(render, item)
    ensures Offers(render, item, Faithful(QuestionOf(render, item, index)))
  {
    hide OptionsParse, CorrectParses, OptionOf, QuestionId, KindOrSingle, KindOf, Trimmed, NonBlank, TrimmedAll, ExplanationOf;
  }

  lemma ViewOffersAll(render: Render, content: Json)
    requires QuizParses(render, content)
    ensures |EmployeeView(render, content)| == |RawQuestions(content)| > 0
    ensures forall j :: 0 <= j < |RawQuestions(content)| ==>
      QuestionParses(render, RawQuestions(content)[j])
      && Offers(render, RawQuestions(content)[j], EmployeeView(render, content)[j])
  {
    hide QuestionParses, View, PublicContent, Offers, Distinct, QuestionOf, Faithful;
    var raw := RawQuestions(content);
    ViewShowsTheParsedQuiz(render, content);
    forall j | 0 <= j < |raw| ensures Offers(render, raw[j], EmployeeView(render, content)[j]) {
      ParsedOffers(render, raw[j], j);
    }
  }

  predicate TwoEach(view: seq<ViewQuestion>) {
    forall j :: 0 <= j < |view| ==> |view[j].options| >= 2
  }

  /** A tick of the first option everywhere, except for one option of one question. */
  function OneTick(view: seq<ViewQuestion>, i: nat, k: nat): (choice: Choice)
    requires TwoEach(view) && i < |view| && k < |view[i].options|
    ensures |choice| == |view|
    ensures forall j :: 0 <= j < |view| ==> choice[j] == [view[j].options[if j == i then k else 0].id]
  {
    seq(|view|, j requires 0 <= j < |view| => [view[j].options[if j == i then k else 0].id])
  }

  lemma OneTickIsLegal(view: seq<ViewQuestion>, i: nat, k: nat)
    requires TwoEach(view) && i < |view| && k < |view[i].options|
    ensures LegalChoice(view, OneTick(view, i, k))
  {
    forall j | 0 <= j < |view| ensures LegalTick(view[j], OneTick(view, i, k)[j]) {
      var n := if j == i then k else 0;
      assert Ids(view[j].options)[n] == view[j].options[n].id;
    }
  }

  lemma RecordedIffStable(render: Render, content: Json, choice: Choice)
    requires QuizParses(render, content) && LegalChoice(EmployeeView(render, content), choice)
    ensures RecordedAsTicked(QuizOf(render, content), EmployeeView(render, content), choice)
       <==> QuestionIdsWhole(render, RawQuestions(content)) && forall i :: 0 <= i < |choice| ==> StableIds(choice[i])
  {
    hide QuestionsParse, QuizOf, View, PublicContent, Accepts, StableQuestions, StableIds, QuestionIdsWhole, Selected,
      AnswerFor, LegalTick, Records;
    ChoiceIsRecordedIffIdsStable(render, content, choice);
    QuestionIdsAreStableIffWhole(render, content);
  }

  lemma WholeTicksAreStable(render: Render, item: Json, q: ViewQuestion, ticked: seq<string>)
    requires QuestionParses(render, item) && Offers(render, item, q) && LegalTick(q, ticked)
    requires OptionIdsWhole(render, RawOptions(item))
    ensures StableIds(ticked)
  {
    hide QuestionParses, OptionIdsWhole, LegalTick, StableIds, OptionsOf, Ids;
    OptionIdsAreStableIffWhole(render, item);
    OfferedTicksAreStable(q, ticked);
  }

  lemma WholeIdsRecordEveryChoice(render: Render, content: Json, choice: Choice)
    requires QuizParses(render, content) && NoIdIsCut(render, content)
    requires LegalChoice(EmployeeView(render, content), choice)
    ensures RecordedAsTicked(QuizOf(render, content), EmployeeView(render, content), choice)
  {
    hide QuizParses, QuizOf, EmployeeView, StableIds, QuestionIdsWhole, OptionIdsWhole, LegalTick, QuestionParses, Offers,
      RawOptions, RecordedAsTicked, RawQuestions;
    var raw, view := RawQuestions(content), EmployeeView(render, content);
    ViewOffersAll(render, content);
    forall i | 0 <= i < |choice| ensures StableIds(choice[i]) {
      WholeTicksAreStable(render, raw[i], view[i], choice[i]);
    }
    RecordedIffStable(render, content, choice);
  }

  /** One legal choice is enough to test one option together with all question ids. */
  lemma OneTickTests(render: Render, content: Json, view: seq<ViewQuestion>, i: nat, k: nat)
    requires QuizParses(render, content) && view == EmployeeView(render, content) && TwoEach(view)
    requires i < |view| == |RawQuestions(content)| && k < |RawOptions(RawQuestions(content)[i])|
    requires Offers(render, RawQuestions(content)[i], view[i])
    requires RecordedAsTicked(QuizOf(render, content), view, OneTick(view, i, k))
    ensures QuestionIdsWhole(render, RawQuestions(content))
    ensures !CutAfterSpace(render, Get(RawOptions(RawQuestions(content)[i])[k], ID))
  {
    hide QuizParses, QuizOf, EmployeeView, QuestionIdsWhole, Stable, CutAfterSpace, RawOptions, RawQuestions, OptionId,
      RecordedAsTicked, LegalChoice, TwoEach;
    var opt := RawOptions(RawQuestions(content)[i])[k];
    OneTickIsLegal(view, i, k);
    RecordedIffStable(render, content, OneTick(view, i, k));
    OptionIdIsStableIff(render, opt, k);
    assert OneTick(view, i, k)[i][0] == OptionId(render, opt, k);
  }

  ghost predicate EveryChoiceIsRecorded(quiz: seq<Question>, view: seq<ViewQuestion>) {
    forall choice :: LegalChoice(view, choice) ==> RecordedAsTicked(quiz, view, choice)
  }

  lemma RecordedChoicesMeanWholeIds(render: Render, content: Json)
    requires QuizParses(render, content)
    requires EveryChoiceIsRecorded(QuizOf(render, content), EmployeeView(render, content))
    ensures NoIdIsCut(render, content)
  {
    hide QuizParses, QuizOf, EmployeeView, QuestionIdsWhole, CutAfterSpace, RawOptions, RawQuestions, RecordedAsTicked,
      LegalChoice, QuestionParses, OptionsOf;
    var raw, view := RawQuestions(content), EmployeeView(render, content);
    ViewOffersAll(render, content);
    assert TwoEach(view) by {
      forall j | 0 <= j < |view| ensures |view[j].options| >= 2 {
        OptionsOfCounts(render, RawOptions(raw[j]));
      }
    }
    forall i, k | 0 <= i < |raw| && 0 <= k < |RawOptions(raw[i])|
      ensures QuestionIdsWhole(render, raw) && !CutAfterSpace(render, Get(RawOptions(raw[i])[k], ID))
    {
      OptionsOfCounts(render, RawOptions(raw[i]));
      OneTickIsLegal(view, i, k);
      OneTickTests(render, content, view, i, k);
    }
    assert |RawOptions(raw[0])| >= 2;
    assert !CutAfterSpace(render, Get(RawOptions(raw[0])[0], ID));
  }

  lemma OptionsOfCounts(render: Render, opts: seq<Json>)
    ensures |OptionsOf(render, opts)| == |opts|
  {
  }

  /**
   Every full choice the view offers is accepted and recorded as it was ticked exactly when no id
   of the quiz, of a question or of an option, is cut right after a space.
   */
  lemma EveryChoiceIsRecordedIffNoIdIsCut(render: Render, content: Json)
    requires QuizParses(render, content)
    ensures EveryChoiceIsRecorded(QuizOf(render, content), EmployeeView(render, content)) <==> NoIdIsCut(render, content)
  {
    hide QuizParses, QuizOf, EmployeeView, RecordedAsTicked, LegalChoice, NoIdIsCut;
    var quiz, view := QuizOf(render, content), EmployeeView(render, content);
    if NoIdIsCut(render, content) {
      forall choice | LegalChoice(view, choice) ensures RecordedAsTicked(quiz, view, choice) {
        WholeIdsRecordEveryChoice(render, content, choice);
      }
    }
    if EveryChoiceIsRecorded(quiz, view) {
      RecordedChoicesMeanWholeIds(render, content);
    }
  }

  // ---------- a quiz that cannot be passed ----------

  /** 63 letters, a space, and a letter. */
  const LONG_ID: string := seq(63, i => 'x') + " y"

  const YES := Obj(map[TEXT := Str("yes")])
  const NO := Obj(map[TEXT := Str("no")])

  const CUT_QUESTION := Obj(map[
    ID := Str(LONG_ID), TYPE := Str("single_choice"), TEXT := Str("Ready?"),
    OPTIONS := Arr([YES, NO]), CORRECT_IDS := Arr([Str("a")])])

  const CUT_QUIZ := Obj(map[QUESTIONS := Arr([CUT_QUESTION])])

  lemma PlainText(s: string)
    requires Stripped(s)
    ensures Trimmed(Str(s)) == s
  {
    StripStrips(s);
  }

  lemma CutOptionsParse(render: Render)
    ensures OptionsParse(render, [YES, NO])
    ensures Ids(OptionsOf(render, [YES, NO])) == ["a", "b"]
  {
    hide Strip;
    PlainText("yes");
    PlainText("no");
    var ids := Ids(OptionsOf(render, [YES, NO]));
    assert ids[0] == OptionId(render, YES, 0) == "a";
    assert ids[1] == OptionId(render, NO, 1) == "b";
    assert ids == ["a", "b"];
    assert Distinct(ids);
  }

  lemma CutCorrectParses(render: Render)
    ensures CorrectParses(Arr([Str("a")]), SingleChoice, OptionsOf(render, [YES, NO]))
    ensures TrimmedAll([Str("a")]) == ["a"]
  {
    hide Strip, OptionsOf, OptionsParse;
    PlainText("a");
    CutOptionsParse(render);
    assert TrimmedAll([Str("a")]) == ["a"];
    assert "a" == ["a", "b"][0];
  }

  lemma CutQuestionFields()
    ensures Get(CUT_QUESTION, TYPE) == Str("single_choice") && Get(CUT_QUESTION, TEXT) == Str("Ready?")
    ensures Get(CUT_QUESTION, OPTIONS) == Arr([YES, NO]) && Get(CUT_QUESTION, CORRECT_IDS) == Arr([Str("a")])
    ensures Get(CUT_QUESTION, EXPLANATION) == Null && !Has(CUT_QUESTION, CORRECT) && !Has(CUT_QUESTION, ANSWER)
  {
    hide YES, NO, LONG_ID;
  }

  lemma CutQuestionParses(render: Render)
    ensures QuestionParses(render, CUT_QUESTION)
    ensures QuestionOf(render, CUT_QUESTION, 0).correct == {"a"}
  {
    assert CUT_QUESTION.Obj?;
    hide Strip, OptionsParse, CorrectParses, OptionsOf, YES, NO, QuestionId, CUT_QUESTION, Get, Has;
    CutQuestionFields();
    PlainText("single_choice");
    PlainText("Ready?");
    CutOptionsParse(render);
    CutCorrectParses(render);
  }

  /** A quiz that parses and whose correct choice is rejected: its view offers an id it does not take back. */
  lemma CutQuizRejectsItsCorrectChoice(render: Render)
    ensures QuizParses(render, CUT_QUIZ) && TicksCorrect(QuizOf(render, CUT_QUIZ), [["a"]])
    ensures var view := View(render, PublicContent(CUT_QUIZ));
      |view| == 1 && !Accepts(QuizOf(render, CUT_QUIZ), AnswersFor(view, [["a"]]))
  {
    hide QuestionParses, QuestionOf, View, PublicContent, Accepts, CutAfterSpace, AnswerFor, CUT_QUESTION;
    CutQuestionParses(render);
    LongIdIsCut(render);
    assert RawQuestions(CUT_QUIZ) == [CUT_QUESTION];
    assert Elements(["a"]) == {"a"};
    CorrectChoiceScoresHundredIffNoIdIsCut(render, CUT_QUIZ, [["a"]]);
  }

  lemma LongIdIsCut(render: Render)
    ensures CutAfterSpace(render, Get(CUT_QUESTION, ID))
  {
    hide Strip;
    assert LONG_ID[63] == ' ' && LONG_ID[64] == 'y' && LONG_ID[0] == 'x';
    StripStrips(LONG_ID);
  }
}
