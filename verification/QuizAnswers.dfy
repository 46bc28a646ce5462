/**
 Submitted answers: what is accepted (`Accepts`) and recorded (`Selected`), the loops that check
 it, and the score. The main results go from the employee's view back to the parser: a choice
 made in the view is recorded as it was ticked, and ticking the correct options scores 100,
 exactly when the ids survive stripping.
 */
module QuizAnswers {
  import opened Common
  import opened Json
  import opened Lists
  import opened QuizParser
  import opened QuizScoring
  import opened QuizView
  import opened Rounding
  import opened Text

  // ---------- answers ----------

  function AnswerId(item: Json): string {
    Trimmed(Get(item, QUESTION_ID))
  }

  function AnswerChoice(item: Json): seq<string> {
    TrimmedAll(Items(Get(item, SELECTED)))
  }

  predicate AnswerParses(item: Json) {
    && item.Obj? && NonBlank(Get(item, QUESTION_ID))
    && Get(item, SELECTED).Arr?
    && AllNonBlank(Items(Get(item, SELECTED)))
    && Distinct(AnswerChoice(item))
  }

  predicate Known(quiz: seq<Question>, id: string) {
    exists i :: 0 <= i < |quiz| && quiz[i].id == id
  }

  predicate AnswerFits(quiz: seq<Question>, item: Json) {
    AnswerParses(item) && Known(quiz, AnswerId(item))
  }

  predicate ChoiceFits(question: Question, chosen: set<string>) {
    && chosen <= Elements(Ids(question.options))
    && (question.kind == SingleChoice ==> |chosen| == 1)
    && (question.kind == MultipleChoice ==> |chosen| >= 1)
  }

  function AnswerIds(answers: seq<Json>): (ids: seq<string>)
    ensures |ids| == |answers| && forall i :: 0 <= i < |answers| ==> ids[i] == AnswerId(answers[i])
  {
    seq(|answers|, i requires 0 <= i < |answers| => AnswerId(answers[i]))
  }

  function Chosen(answers: seq<Json>): (chosen: seq<set<string>>)
    ensures |chosen| == |answers|
    ensures forall i :: 0 <= i < |answers| ==> chosen[i] == Elements(AnswerChoice(answers[i]))
  {
    seq(|answers|, i requires 0 <= i < |answers| => Elements(AnswerChoice(answers[i])))
  }

  function Selected(answers: seq<Json>): map<string, set<string>> {
    RecordUpTo(AnswerIds(answers), Chosen(answers), |answers|)
  }

  /** Each answer is well-formed and for a known question, and no question is answered twice. */
  predicate AnswersParse(quiz: seq<Question>, answers: seq<Json>) {
    && (forall i :: 0 <= i < |answers| ==> AnswerFits(quiz, answers[i]))
    && Distinct(AnswerIds(answers))
  }

  predicate Complete(quiz: seq<Question>, selected: map<string, set<string>>) {
    forall i :: 0 <= i < |quiz| ==> quiz[i].id in selected && ChoiceFits(quiz[i], selected[quiz[i].id])
  }

  predicate Accepts(quiz: seq<Question>, answers: Json) {
    answers.Arr? && AnswersParse(quiz, answers.items) && Complete(quiz, Selected(answers.items))
  }

  /** With no question answered twice, the record holds each answer's choice, and nothing else. */
  lemma SelectedLooksUp(answers: seq<Json>)
    requires Distinct(AnswerIds(answers))
    ensures forall i :: 0 <= i < |answers| ==>
      AnswerId(answers[i]) in Selected(answers)
      && Selected(answers)[AnswerId(answers[i])] == Elements(AnswerChoice(answers[i]))
    ensures forall id :: id in Selected(answers) ==> exists i :: 0 <= i < |answers| && AnswerId(answers[i]) == id
  {
    hide AnswerId, AnswerChoice, Elements;
    var ids, chosen := AnswerIds(answers), Chosen(answers);
    forall i | 0 <= i < |answers| ensures ids[i] in Selected(answers) && Selected(answers)[ids[i]] == chosen[i] {
      RecordLooksUp(ids, chosen, |answers|, i);
    }
    forall id | id in Selected(answers) ensures exists i :: 0 <= i < |answers| && AnswerId(answers[i]) == id {
      RecordKeys(ids, chosen, |answers|);
      SeenMeans(ids, |answers|, id);
    }
  }

  /** An answer that is accepted ticks a list of nonblank texts without repetitions. */
  lemma AcceptedAnswerTicks(item: Json)
    requires AnswerParses(item)
    ensures item.Obj? && Get(item, QUESTION_ID).Str? && Strip(Get(item, QUESTION_ID).s) != ""
    ensures var ticked := Get(item, SELECTED);
      && ticked.Arr? && (forall k :: 0 <= k < |ticked.items| ==> ticked.items[k].Str? && Strip(ticked.items[k].s) != "")
      && (forall k, l :: 0 <= k < l < |ticked.items| ==> Strip(ticked.items[k].s) != Strip(ticked.items[l].s))
  {
    hide Strip;
    var ticked := Get(item, SELECTED).items;
    forall k | 0 <= k < |ticked| ensures ticked[k].Str? && Strip(ticked[k].s) != "" {
      assert NonBlank(ticked[k]);
    }
    assert forall k :: 0 <= k < |ticked| ==> AnswerChoice(item)[k] == Strip(ticked[k].s);
  }

  lemma FittingChoice(q: Question, chosen: set<string>)
    requires ChoiceFits(q, chosen)
    ensures chosen != {} && (q.kind == SingleChoice ==> |chosen| == 1)
    ensures forall x :: x in chosen ==> exists k :: 0 <= k < |q.options| && q.options[k].id == x
  {
    forall x | x in chosen ensures exists k :: 0 <= k < |q.options| && q.options[k].id == x {
      assert x in Elements(Ids(q.options));
      var k :| 0 <= k < |q.options| && Ids(q.options)[k] == x;
    }
  }

  /**
   Accepted answers answer every question of the quiz and nothing else, each once, with options of that
   question: exactly one of a single choice, and at least one of a multiple choice.
   */
  lemma AcceptedAnswersAreComplete(quiz: seq<Question>, answers: Json)
    requires Accepts(quiz, answers)
    ensures answers.Arr? && forall i :: 0 <= i < |answers.items| ==> AnswerParses(answers.items[i])
    ensures forall i, j :: 0 <= i < j < |answers.items| ==>
      Trimmed(Get(answers.items[i], QUESTION_ID)) != Trimmed(Get(answers.items[j], QUESTION_ID))
    ensures forall id :: id in Selected(answers.items) <==> exists i :: 0 <= i < |quiz| && quiz[i].id == id
    ensures forall i :: 0 <= i < |quiz| ==>
      var chosen := Selected(answers.items)[quiz[i].id];
      && chosen != {} && (quiz[i].kind == SingleChoice ==> |chosen| == 1)
      && forall x :: x in chosen ==> exists k :: 0 <= k < |quiz[i].options| && quiz[i].options[k].id == x
  {
    hide Trimmed, Selected, AnswerParses, AnswerChoice, ChoiceFits, Elements;
    var items := answers.items;
    SelectedLooksUp(items);
    forall i | 0 <= i < |items| ensures AnswerParses(items[i]) && Known(quiz, AnswerId(items[i])) {
      assert AnswerFits(quiz, items[i]);
    }
    forall i, j | 0 <= i < j < |items| ensures AnswerId(items[i]) != AnswerId(items[j]) {
      assert AnswerIds(items)[i] != AnswerIds(items)[j];
    }
    forall id | id in Selected(items) ensures exists i :: 0 <= i < |quiz| && quiz[i].id == id {
      var k :| 0 <= k < |items| && AnswerId(items[k]) == id;
      assert Known(quiz, AnswerId(items[k]));
    }
    forall i | 0 <= i < |quiz|
      ensures quiz[i].id in Selected(items)
      ensures var chosen := Selected(items)[quiz[i].id];
        && chosen != {} && (quiz[i].kind == SingleChoice ==> |chosen| == 1)
        && forall x :: x in chosen ==> exists k :: 0 <= k < |quiz[i].options| && quiz[i].options[k].id == x
    {
      FittingChoice(quiz[i], Selected(items)[quiz[i].id]);
    }
  }

  method ParseAnswer(quiz: seq<Question>, item: Json, selected: map<string, set<string>>)
    returns (r: Result<(string, set<string>)>)
    ensures r.Ok? <==> AnswerFits(quiz, item) && AnswerId(item) !in selected
    ensures r.Ok? ==> r.value == (AnswerId(item), Elements(AnswerChoice(item)))
  {
    hide Trimmed, Distinct, NonBlank, AllNonBlank;
    if !item.Obj? || !NonBlank(Get(item, QUESTION_ID)) {
      return Err(Validation);
    }
    var qid := Trimmed(Get(item, QUESTION_ID));
    if !Known(quiz, qid) || qid in selected {
      return Err(Validation);
    }
    var options := Get(item, SELECTED);
    if !options.Arr? || !AllNonBlank(options.items) {
      return Err(Validation);
    }
    var chosen := TrimmedAll(options.items);
    if !Distinct(chosen) {
      return Err(Validation);
    }
    r := Ok((qid, Elements(chosen)));
  }

  method ParseAnswers(quiz: seq<Question>, all: seq<Json>) returns (r: Result<map<string, set<string>>>)
    ensures r.Ok? <==> AnswersParse(quiz, all)
    ensures r.Ok? ==> r.value == Selected(all)
  {
    hide AnswerFits, AnswerId, AnswerChoice, Elements, Distinct;
    var selected: map<string, set<string>> := map[];
    ghost var ids, chosen := AnswerIds(all), Chosen(all);
    for i := 0 to |all|
      invariant forall k :: 0 <= k < i ==> AnswerFits(quiz, all[k])
      invariant NoneSeenTwice(ids, i)
      invariant selected == RecordUpTo(ids, chosen, i)
    {
      RecordKeys(ids, chosen, i);
      SeenTwice(ids, i + 1);
      var answer := ParseAnswer(quiz, all[i], selected);
      if answer.Err? {
        return Err(Validation);
      }
      selected := selected[answer.value.0 := answer.value.1];
    }
    SeenTwice(ids, |all|);
    r := Ok(selected);
  }

  method ValidateQuizAnswers(quiz: seq<Question>, answers: Json) returns (r: Result<map<string, set<string>>>)
    ensures r.Ok? <==> Accepts(quiz, answers)
    ensures r.Ok? ==> r.value == Selected(answers.items)
  {
    hide AnswersParse, ChoiceFits;
    if !answers.Arr? {
      return Err(Validation);
    }
    r := ParseAnswers(quiz, answers.items);
    if r.Err? {
      return r;
    }
    var selected := r.value;
    if exists i :: 0 <= i < |quiz| && quiz[i].id !in selected {
      return Err(Validation);
    }
    if exists i :: 0 <= i < |quiz| && quiz[i].id in selected && !ChoiceFits(quiz[i], selected[quiz[i].id]) {
      return Err(Validation);
    }
  }

  // ---------- choosing from the view ----------

  /** One list of option ids per question, as an employee ticks them in the view. */
  type Choice = seq<seq<string>>

  predicate LegalTick(q: ViewQuestion, ticked: seq<string>) {
    && Distinct(ticked) && (forall k :: 0 <= k < |ticked| ==> ticked[k] in Ids(q.options))
    && (if q.kind == SingleChoice then |ticked| == 1 else |ticked| >= 1)
  }

  predicate LegalChoice(view: seq<ViewQuestion>, choice: Choice) {
    |choice| == |view| && forall i :: 0 <= i < |view| ==> LegalTick(view[i], choice[i])
  }

  function Strings(texts: seq<string>): (items: seq<Json>)
    ensures |items| == |texts| && forall k :: 0 <= k < |texts| ==> items[k] == Str(texts[k])
  {
    seq(|texts|, k requires 0 <= k < |texts| => Str(texts[k]))
  }

  function AnswerFor(q: ViewQuestion, ticked: seq<string>): Json {
    Obj(map[QUESTION_ID := Str(q.id), SELECTED := Arr(Strings(ticked))])
  }

  function AnswersFor(view: seq<ViewQuestion>, choice: Choice): (answers: Json)
    requires |choice| == |view|
    ensures answers.Arr? && |answers.items| == |view|
    ensures forall i :: 0 <= i < |view| ==> answers.items[i] == AnswerFor(view[i], choice[i])
  {
    Arr(seq(|view|, i requires 0 <= i < |view| => AnswerFor(view[i], choice[i])))
  }

  /** An id that survives stripping: only truncation inside an inner space can break this. */
  predicate Stable(id: string) {
    id != "" && Strip(id) == id
  }

  predicate StableIds(ids: seq<string>) {
    forall k :: 0 <= k < |ids| ==> Stable(ids[k])
  }

  predicate StableQuestions(quiz: seq<Question>) {
    forall i :: 0 <= i < |quiz| ==> Stable(quiz[i].id)
  }

  /** An id is unstable exactly when its text is longer than 64 characters and the 64th is a space. */
  lemma IdIsStableUnlessCutAfterSpace(render: Render, raw: Json, fallback: string)
    requires Stable(fallback)
    ensures var text := Strip(if raw.Str? then raw.s else render(raw));
      Stable(IdOf(render, raw, fallback)) <==> raw == Null || |text| <= ID_MAX || !IsSpace(text[ID_MAX - 1])
  {
    hide Strip, IsSpace;
    var text := Strip(if raw.Str? then raw.s else render(raw));
    StripStrips(if raw.Str? then raw.s else render(raw));
    StripStrips(Truncate(text, ID_MAX));
    StripStrips(text);
  }

  /** The generated ids are always stable: `q1`, `q2`, ... and, up to the option cap, `a`, `b`, ... */
  lemma GeneratedIdsAreStable(index: nat)
    ensures Stable("q" + Decimal(index + 1))
    ensures index < MAX_OPTIONS ==> Stable(Letter(index))
  {
    hide Strip;
    StripStrips("q" + Decimal(index + 1));
    StripStrips(Letter(index));
  }

  lemma AnswerRoundTrip(q: ViewQuestion, ticked: seq<string>)
    requires Stable(q.id) && StableIds(ticked) && Distinct(ticked)
    ensures AnswerParses(AnswerFor(q, ticked))
    ensures AnswerId(AnswerFor(q, ticked)) == q.id
    ensures AnswerChoice(AnswerFor(q, ticked)) == ticked
  {
    hide Strip, Distinct;
    var items := Strings(ticked);
    assert Items(Get(AnswerFor(q, ticked), SELECTED)) == items;
    forall k | 0 <= k < |ticked| ensures TrimmedAll(items)[k] == ticked[k] && NonBlank(items[k]) {
      assert Stable(ticked[k]);
    }
    assert TrimmedAll(items) == ticked;
  }

  /** The recorded selection is exactly what was ticked. */
  predicate Records(quiz: seq<Question>, choice: Choice, selected: map<string, set<string>>)
    requires |choice| == |quiz|
  {
    forall i :: 0 <= i < |quiz| ==> quiz[i].id in selected && selected[quiz[i].id] == Elements(choice[i])
  }

  lemma LegalTickFits(q: Question, ticked: seq<string>)
    requires LegalTick(Faithful(q), ticked)
    ensures ChoiceFits(q, Elements(ticked))
  {
    DistinctCount(ticked);
  }

  lemma StableChoiceIsAccepted(quiz: seq<Question>, view: seq<ViewQuestion>, choice: Choice)
    requires Distinct(QuestionIds(quiz)) && IsView(quiz, view) && LegalChoice(view, choice)
    requires StableQuestions(quiz) && forall i :: 0 <= i < |choice| ==> StableIds(choice[i])
    ensures var answers := AnswersFor(view, choice);
      Accepts(quiz, answers) && Records(quiz, choice, Selected(answers.items))
  {
    hide AnswerParses, AnswerId, AnswerChoice, AnswerFor, Stable, StableIds, ChoiceFits, Elements, Selected;
    var items := AnswersFor(view, choice).items;
    forall i | 0 <= i < |quiz|
      ensures AnswerFits(quiz, items[i]) && AnswerIds(items)[i] == quiz[i].id && AnswerChoice(items[i]) == choice[i]
      ensures ChoiceFits(quiz[i], Elements(choice[i]))
    {
      assert LegalTick(view[i], choice[i]);
      AnswerRoundTrip(view[i], choice[i]);
      LegalTickFits(quiz[i], choice[i]);
    }
    assert AnswerIds(items) == QuestionIds(quiz);
    SelectedLooksUp(items);
    forall i | 0 <= i < |quiz|
      ensures quiz[i].id in Selected(items) && Selected(items)[quiz[i].id] == Elements(choice[i])
    {
      assert AnswerId(items[i]) == quiz[i].id;
    }
  }

  lemma AnswerIsStable(item: Json, x: string)
    requires AnswerParses(item) && x in Elements(AnswerChoice(item))
    ensures Stable(x)
  {
    hide Strip, Distinct;
    var k :| 0 <= k < |AnswerChoice(item)| && AnswerChoice(item)[k] == x;
    assert NonBlank(Items(Get(item, SELECTED))[k]);
    StripTwice(Items(Get(item, SELECTED))[k].s);
  }

  lemma AnswerIdIsStable(item: Json)
    requires AnswerParses(item)
    ensures Stable(AnswerId(item))
  {
    hide Strip, Distinct, AllNonBlank;
    StripTwice(Get(item, QUESTION_ID).s);
  }

  lemma AcceptedIdsAreStable(quiz: seq<Question>, answers: Json)
    requires Accepts(quiz, answers)
    ensures StableQuestions(quiz)
    ensures forall i, x :: 0 <= i < |quiz| && x in Selected(answers.items)[quiz[i].id] ==> Stable(x)
  {
    hide AnswerParses, AnswerId, AnswerChoice, Stable, ChoiceFits, Elements, Selected;
    SelectedLooksUp(answers.items);
    forall i | 0 <= i < |quiz|
      ensures Stable(quiz[i].id)
      ensures forall x :: x in Selected(answers.items)[quiz[i].id] ==> Stable(x)
    {
      var k :| 0 <= k < |answers.items| && AnswerId(answers.items[k]) == quiz[i].id;
      var item := answers.items[k];
      assert AnswerFits(quiz, item);
      AnswerIdIsStable(item);
      forall x | x in Elements(AnswerChoice(item)) ensures Stable(x) {
        AnswerIsStable(item, x);
      }
    }
  }

  /**
   A full choice made in the view is accepted and recorded as it was ticked exactly when the
   ids of all questions and of all ticked options are stable; `QuizIds` says which ids are.
   */
  lemma ChoiceIsRecordedIffIdsStable(render: Render, content: Json, choice: Choice)
    requires QuizParses(render, content)
    requires LegalChoice(View(render, PublicContent(content)), choice)
    ensures var quiz, view := QuizOf(render, content), View(render, PublicContent(content));
      var answers := AnswersFor(view, choice);
      |quiz| == |choice|
      && (Accepts(quiz, answers) && Records(quiz, choice, Selected(answers.items))
         <==> StableQuestions(quiz) && forall i :: 0 <= i < |choice| ==> StableIds(choice[i]))
  {
    hide QuestionsParse, Accepts, View, PublicContent, LegalTick, Stable, Selected, AnswerFor, QuestionOf;
    var quiz, view := QuizOf(render, content), View(render, PublicContent(content));
    var answers := AnswersFor(view, choice);
    ViewShowsTheParsedQuiz(render, content);
    ParsedIdsAreDistinct(render, content);
    if StableQuestions(quiz) && forall i :: 0 <= i < |choice| ==> StableIds(choice[i]) {
      StableChoiceIsAccepted(quiz, view, choice);
    }
    if Accepts(quiz, answers) && Records(quiz, choice, Selected(answers.items)) {
      AcceptedIdsAreStable(quiz, answers);
      forall i, k | 0 <= i < |choice| && 0 <= k < |choice[i]| ensures Stable(choice[i][k]) {
        assert choice[i][k] in Elements(choice[i]);
        assert choice[i][k] in Selected(answers.items)[quiz[i].id];
      }
    }
  }

  lemma ParsedIdsAreDistinct(render: Render, content: Json)
    requires QuizParses(render, content)
    ensures Distinct(QuestionIds(QuizOf(render, content)))
  {
  }

  // ---------- the score ----------

  /** How many of the first `n` questions were answered with exactly their correct options. */
  function CorrectAmong(quiz: seq<Question>, selected: map<string, set<string>>, n: nat): (count: nat)
    requires n <= |quiz|
    ensures count <= n
  {
    if n == 0 then 0
    else
      var q := quiz[n - 1];
      CorrectAmong(quiz, selected, n - 1) + (if q.id in selected && selected[q.id] == q.correct then 1 else 0)
  }

  function CorrectCount(quiz: seq<Question>, selected: map<string, set<string>>): (count: nat)
    ensures count <= |quiz|
  {
    CorrectAmong(quiz, selected, |quiz|)
  }

  lemma {:induction false} AllCorrect(quiz: seq<Question>, selected: map<string, set<string>>, n: nat)
    requires n <= |quiz|
    ensures CorrectAmong(quiz, selected, n) == n
       <==> forall i :: 0 <= i < n ==> quiz[i].id in selected && selected[quiz[i].id] == quiz[i].correct
  {
    if n > 0 {
      AllCorrect(quiz, selected, n - 1);
    }
  }

  /** The questions answered with exactly their correct options. */
  function CorrectOnes(quiz: seq<Question>, selected: map<string, set<string>>): set<nat> {
    set i: nat | 0 <= i < |quiz| && quiz[i].id in selected && selected[quiz[i].id] == quiz[i].correct
  }

  lemma CorrectOnesAre(quiz: seq<Question>, selected: map<string, set<string>>)
    ensures CorrectOnes(quiz, selected)
         == set i: nat | 0 <= i < |quiz| && quiz[i].id in selected && selected[quiz[i].id] == quiz[i].correct
  {
  }

  lemma {:induction false} CorrectAmongCounts(quiz: seq<Question>, selected: map<string, set<string>>, n: nat)
    requires n <= |quiz|
    ensures CorrectAmong(quiz, selected, n) == |set i | i in CorrectOnes(quiz, selected) && i < n|
  {
    hide CorrectOnes;
    CorrectOnesAre(quiz, selected);
    var counted := set i | i in CorrectOnes(quiz, selected) && i < n;
    if n == 0 {
      assert counted == {};
    } else {
      CorrectAmongCounts(quiz, selected, n - 1);
      var before := set i | i in CorrectOnes(quiz, selected) && i < n - 1;
      assert counted == if n - 1 in CorrectOnes(quiz, selected) then before + {n - 1} else before;
    }
  }

  /** Every question answered right counts once, whatever the others are. */
  lemma CountIsTheNumberOfCorrectOnes(quiz: seq<Question>, selected: map<string, set<string>>)
    ensures CorrectCount(quiz, selected) == |CorrectOnes(quiz, selected)|
  {
    CorrectAmongCounts(quiz, selected, |quiz|);
    assert CorrectOnes(quiz, selected) == set i | i in CorrectOnes(quiz, selected) && i < |quiz|;
  }

  method CountCorrect(quiz: seq<Question>, selected: map<string, set<string>>) returns (correct: nat)
    requires forall i :: 0 <= i < |quiz| ==> quiz[i].id in selected
    ensures correct == CorrectCount(quiz, selected)
  {
    correct := 0;
    for i := 0 to |quiz|
      invariant correct == CorrectAmong(quiz, selected, i)
    {
      if selected[quiz[i].id] == quiz[i].correct {
        correct := correct + 1;
      }
    }
  }

  method ScoreStructuredQuiz(render: Render, content: Json, answers: Json) returns (r: Result<ScoreResult>)
    ensures r.Ok? <==> QuizParses(render, content) && Accepts(QuizOf(render, content), answers)
    ensures r.Ok? ==>
      var quiz := QuizOf(render, content);
      r.value == ResultOf(CorrectCount(quiz, Selected(answers.items)), |quiz|) && 0 < r.value.total <= MAX_QUESTIONS
    ensures r.Ok? ==>
      var quiz, selected := QuizOf(render, content), Selected(answers.items);
      var right := |set i: nat | 0 <= i < |quiz| && quiz[i].id in selected && selected[quiz[i].id] == quiz[i].correct|;
      && r.value.correctCount == right && r.value.total == |quiz|
      && IsRounded(100 * right, |quiz|, r.value.score)
      && (r.value.passed <==> 5 * right >= 4 * |quiz|)
  {
    hide QuestionsParse, AnswersParse, QuestionOf, Selected, CorrectCount, ChoiceFits, IsRounded, CorrectOnes, ScorePercentage;
    var quiz := ParseStructuredQuiz(render, content);
    if quiz.Err? {
      return Err(Validation);
    }
    var selected := ValidateQuizAnswers(quiz.value, answers);
    if selected.Err? {
      return Err(Validation);
    }
    var correct := CountCorrect(quiz.value, selected.value);
    var total := |quiz.value|;
    var score := ScorePercentage(correct, total);
    CountIsTheNumberOfCorrectOnes(quiz.value, selected.value);
    CorrectOnesAre(quiz.value, selected.value);
    ScoreIsRoundedPercentage(correct, total);
    PassMeansFourFifths(correct, total);
    r := Ok(ScoreResult(correct, total, score, score >= PASSING_SCORE));
  }

  /** For accepted answers, a score of 100 means every question was answered with exactly its correct options. */
  lemma HundredMeansAllCorrect(render: Render, content: Json, answers: Json)
    requires QuizParses(render, content) && Accepts(QuizOf(render, content), answers)
    ensures var quiz, selected := QuizOf(render, content), Selected(answers.items);
      ResultOf(CorrectCount(quiz, selected), |quiz|).score == 100
      <==> forall i :: 0 <= i < |quiz| ==> selected[quiz[i].id] == quiz[i].correct
  {
    hide QuestionsParse, AnswersParse, QuestionOf, Selected, ChoiceFits, ScorePercentage;
    var quiz, selected := QuizOf(render, content), Selected(answers.items);
    AllCorrect(quiz, selected, |quiz|);
    FullScoreMeansAllCorrect(CorrectCount(quiz, selected), |quiz|);
  }

  /** Each list ticks exactly the correct options of its question. */
  predicate TicksCorrect(quiz: seq<Question>, choice: Choice) {
    |choice| == |quiz| && forall i :: 0 <= i < |quiz| ==> Distinct(choice[i]) && Elements(choice[i]) == quiz[i].correct
  }

  lemma CorrectTickIsLegal(render: Render, item: Json, index: nat, ticked: seq<string>)
    requires QuestionParses(render, item) && Distinct(ticked)
    requires Elements(ticked) == QuestionOf(render, item, index).correct
    ensures LegalTick(Faithful(QuestionOf(render, item, index)), ticked) && StableIds(ticked)
  {
    hide Strip, OptionsParse, OptionId, QuestionId, Distinct, IdOf, ExplanationOf;
    var correct := Get(item, CORRECT_IDS).items;
    var texts := TrimmedAll(correct);
    DistinctCount(ticked);
    DistinctCount(texts);
    forall k | 0 <= k < |ticked|
      ensures ticked[k] in Ids(OptionsOf(render, Items(Get(item, OPTIONS)))) && Stable(ticked[k])
    {
      assert ticked[k] in Elements(ticked);
      var n :| 0 <= n < |texts| && texts[n] == ticked[k];
      assert NonBlank(correct[n]);
      StripTwice(correct[n].s);
    }
  }

  lemma CorrectTicksAreLegal(render: Render, content: Json, choice: Choice)
    requires QuizParses(render, content) && TicksCorrect(QuizOf(render, content), choice)
    ensures LegalChoice(View(render, PublicContent(content)), choice)
    ensures forall i :: 0 <= i < |choice| ==> StableIds(choice[i])
  {
    hide QuestionParses, QuestionOf, View, PublicContent, LegalTick, StableIds, Distinct, Elements, Faithful;
    var raw := Items(Get(content, QUESTIONS));
    var quiz := QuizOf(render, content);
    ViewShowsTheParsedQuiz(render, content);
    forall i | 0 <= i < |quiz|
      ensures LegalTick(Faithful(quiz[i]), choice[i]) && StableIds(choice[i])
    {
      assert QuestionParses(render, raw[i]);
      CorrectTickIsLegal(render, raw[i], i, choice[i]);
    }
  }

  /**
   Ticking the correct options of every question scores 100 exactly when the question ids are
   stable; otherwise the answers are rejected. The correct option ids themselves always are.
   */
  lemma CorrectChoiceScoresHundredIffIdsStable(render: Render, content: Json, choice: Choice)
    requires QuizParses(render, content) && TicksCorrect(QuizOf(render, content), choice)
    ensures var quiz, view := QuizOf(render, content), View(render, PublicContent(content));
      && |view| == |choice|
      && var answers := AnswersFor(view, choice);
         (Accepts(quiz, answers) <==> StableQuestions(quiz))
         && (Accepts(quiz, answers) ==> ResultOf(CorrectCount(quiz, Selected(answers.items)), |quiz|).score == 100)
  {
    hide QuestionsParse, QuizOf, Accepts, View, PublicContent, Selected, ResultOf, CorrectCount, AnswerFor;
    var quiz, view := QuizOf(render, content), View(render, PublicContent(content));
    CorrectTicksAreLegal(render, content, choice);
    ViewShowsTheParsedQuiz(render, content);
    ParsedIdsAreDistinct(render, content);
    var answers := AnswersFor(view, choice);
    if StableQuestions(quiz) {
      StableChoiceIsAccepted(quiz, view, choice);
      HundredMeansAllCorrect(render, content, answers);
    }
    if Accepts(quiz, answers) {
      AcceptedIdsAreStable(quiz, answers);
    }
  }
}
