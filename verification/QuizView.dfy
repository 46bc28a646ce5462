/**
 What an employee sees of a quiz: the content without its answer key, and the questions read
 back out of it. For every quiz that parses the two agree question by question.
 */
module QuizView {
  import opened Common
  import opened Json
  import opened Lists
  import opened QuizParser
  import opened Text

  const ANSWER_KEY_FIELDS: set<Key> := {CORRECT, ANSWER, CORRECT_IDS}

  datatype ViewQuestion = ViewQuestion(id: string, kind: Kind, text: string, options: seq<QuizOption>)

  // ---------- sanitising ----------

  function Sanitised(item: Json): Json {
    if item.Obj? then Obj(map k | k in item.fields && k !in ANSWER_KEY_FIELDS && k != EXPLANATION :: item.fields[k])
    else item
  }

  function SanitisedAll(raw: seq<Json>): (clean: seq<Json>)
    ensures |clean| == |raw| && forall i :: 0 <= i < |raw| ==> clean[i] == Sanitised(raw[i])
  {
    seq(|raw|, i requires 0 <= i < |raw| => Sanitised(raw[i]))
  }

  function PublicContent(content: Json): Json
    requires content.Obj?
  {
    if Get(content, QUESTIONS).Arr?
    then Obj(content.fields[QUESTIONS := Arr(SanitisedAll(Get(content, QUESTIONS).items))])
    else content
  }

  method PublicQuizContent(content: Json) returns (out: Json)
    ensures !content.Obj? ==> out == Obj(map[])
    ensures content.Obj? ==> out == PublicContent(content)
  {
    hide Sanitised;
    if !content.Obj? {
      return Obj(map[]);
    }
    var questions := Get(content, QUESTIONS);
    if !questions.Arr? {
      return content;
    }
    var cleaned: seq<Json> := [];
    for i := 0 to |questions.items|
      invariant cleaned == SanitisedAll(questions.items)[..i]
    {
      cleaned := cleaned + [Sanitised(questions.items[i])];
    }
    assert cleaned == SanitisedAll(questions.items);
    out := Obj(content.fields[QUESTIONS := Arr(cleaned)]);
  }

  /** No answer key and no explanation is left in any question; every other field is as it was. */
  lemma SanitisedHidesTheKey(item: Json, key: Key)
    requires item.Obj?
    ensures Sanitised(item).Obj?
    ensures Has(Sanitised(item), key) <==> Has(item, key) && key !in {CORRECT, ANSWER, CORRECT_IDS, EXPLANATION}
    ensures key !in {CORRECT, ANSWER, CORRECT_IDS, EXPLANATION} ==> Get(Sanitised(item), key) == Get(item, key)
  {
  }

  // ---------- the view ----------

  /** An option without a text is skipped. */
  function OptionShown(render: Render, opt: Json, index: nat): Option<QuizOption> {
    if opt.Obj? && NonBlank(Get(opt, TEXT)) then Some(OptionOf(render, opt, index)) else None
  }

  function OptionsShown(render: Render, opts: seq<Json>): (shown: seq<Option<QuizOption>>)
    ensures |shown| == |opts| && forall i :: 0 <= i < |opts| ==> shown[i] == OptionShown(render, opts[i], i)
  {
    seq(|opts|, i requires 0 <= i < |opts| => OptionShown(render, opts[i], i))
  }

  /** A question needs a text and two options to be shown. */
  function QuestionShown(render: Render, item: Json, index: nat): Option<ViewQuestion> {
    var options := Collect(OptionsShown(render, Items(Get(item, OPTIONS))));
    if item.Obj? && NonBlank(Get(item, TEXT)) && |options| >= 2
    then Some(ViewQuestion(QuestionId(render, item, index), KindOrSingle(Get(item, TYPE)), Trimmed(Get(item, TEXT)), options))
    else None
  }

  function QuestionsShown(render: Render, raw: seq<Json>): (shown: seq<Option<ViewQuestion>>)
    ensures |shown| == |raw| && forall i :: 0 <= i < |raw| ==> shown[i] == QuestionShown(render, raw[i], i)
  {
    seq(|raw|, i requires 0 <= i < |raw| => QuestionShown(render, raw[i], i))
  }

  function View(render: Render, content: Json): seq<ViewQuestion> {
    var raw := Items(Get(content, QUESTIONS));
    if exists i :: 0 <= i < |raw| && IsStructured(raw[i]) then Collect(QuestionsShown(render, raw)) else []
  }

  method PublicOptions(render: Render, opts: seq<Json>) returns (options: seq<QuizOption>)
    ensures options == Collect(OptionsShown(render, opts))
  {
    hide OptionId, Trimmed, NonBlank;
    options := [];
    for i := 0 to |opts|
      invariant options == CollectUpTo(OptionsShown(render, opts), i)
    {
      var opt := opts[i];
      if opt.Obj? && NonBlank(Get(opt, TEXT)) {
        options := options + [QuizOption(OptionId(render, opt, i), Trimmed(Get(opt, TEXT)))];
      }
    }
  }

  method PublicQuestion(render: Render, item: Json, index: nat) returns (shown: Option<ViewQuestion>)
    ensures shown == QuestionShown(render, item, index)
  {
    if !item.Obj? || !NonBlank(Get(item, TEXT)) {
      return None;
    }
    var kind := KindOf(Get(item, TYPE));
    var options := PublicOptions(render, Items(Get(item, OPTIONS)));
    if |options| < 2 {
      return None;
    }
    shown := Some(ViewQuestion(QuestionId(render, item, index), if kind.Some? then kind.value else SingleChoice,
                               Strip(Get(item, TEXT).s), options));
  }

  method PublicStructuredQuestions(render: Render, content: Json) returns (view: seq<ViewQuestion>)
    ensures view == View(render, content)
  {
    hide QuestionShown, IsStructured;
    var raw := Items(Get(content, QUESTIONS));
    if !exists i :: 0 <= i < |raw| && IsStructured(raw[i]) {
      return [];
    }
    view := [];
    for i := 0 to |raw|
      invariant view == CollectUpTo(QuestionsShown(render, raw), i)
    {
      var shown := PublicQuestion(render, raw[i], i);
      if shown.Some? {
        view := view + [shown.value];
      }
    }
  }

  // ---------- what is shown of any content ----------

  predicate Readable(j: Json) {
    j.Obj? && Get(j, TEXT).Str? && Strip(Get(j, TEXT).s) != ""
  }

  /** Content is structured when some question has a type, a list of options, or a list of correct ids. */
  lemma StructuredMeans(item: Json)
    ensures IsStructured(item)
       <==> item.Obj? && (|| (Get(item, TYPE).Str? && Strip(Get(item, TYPE).s) != "")
                          || Get(item, OPTIONS).Arr? || Get(item, CORRECT_IDS).Arr?)
    ensures KindOrSingle(Get(item, TYPE)) == MultipleChoice
       <==> Get(item, TYPE).Str? && Strip(Get(item, TYPE).s) == "multiple_choice"
  {
    hide Strip;
  }

  /** The options with a text, in order, each with the id its place gives it. */
  lemma OptionsAreShownInOrder(render: Render, opts: seq<Json>) returns (at: seq<nat>)
    ensures Increasing(at) && forall k :: 0 <= k < |at| ==> at[k] < |opts|
    ensures forall i :: 0 <= i < |opts| ==> (i in at <==> Readable(opts[i]))
    ensures var shown := Collect(OptionsShown(render, opts));
      |shown| == |at| && forall k :: 0 <= k < |at| ==>
        shown[k] == QuizOption(OptionId(render, opts[at[k]], at[k]), Trimmed(Get(opts[at[k]], TEXT)))
  {
    hide Strip, OptionId;
    at := CollectInOrder(OptionsShown(render, opts), |opts|);
    forall k | 0 <= k < |at| ensures Readable(opts[at[k]]) {
      assert at[k] in at;
    }
  }

  /** A question is shown exactly when it has a text and two options with a text. */
  lemma QuestionShownIff(render: Render, item: Json, index: nat)
    ensures var opts := Items(Get(item, OPTIONS));
      QuestionShown(render, item, index).Some?
      <==> Readable(item) && exists k, l :: 0 <= k < l < |opts| && Readable(opts[k]) && Readable(opts[l])
  {
    hide Strip, OptionsShown, Collect, KindOf, QuestionId;
    var opts := Items(Get(item, OPTIONS));
    var at := OptionsAreShownInOrder(render, opts);
    TwoAreReadable(opts, at);
  }

  lemma TwoAreReadable(opts: seq<Json>, at: seq<nat>)
    requires Increasing(at) && forall k :: 0 <= k < |at| ==> at[k] < |opts|
    requires forall i :: 0 <= i < |opts| ==> (i in at <==> Readable(opts[i]))
    ensures |at| >= 2 <==> exists k, l :: 0 <= k < l < |opts| && Readable(opts[k]) && Readable(opts[l])
  {
    hide Readable;
    if |at| >= 2 {
      assert at[0] in at && at[1] in at && at[0] < at[1];
    }
    if k, l :| 0 <= k < l < |opts| && Readable(opts[k]) && Readable(opts[l]) {
      assert k in at && l in at;
    }
  }

  /** The view of any structured content: the questions that can be shown, in order; of other content, nothing. */
  lemma QuestionsAreShownInOrder(render: Render, content: Json) returns (at: seq<nat>)
    ensures var raw, view := Items(Get(content, QUESTIONS)), View(render, content);
      && Increasing(at) && |view| == |at| && (forall k :: 0 <= k < |at| ==> at[k] < |raw|)
      && (forall k :: 0 <= k < |at| ==>
            && view[k].id == QuestionId(render, raw[at[k]], at[k]) && view[k].text == Trimmed(Get(raw[at[k]], TEXT))
            && view[k].kind == KindOrSingle(Get(raw[at[k]], TYPE))
            && view[k].options == Collect(OptionsShown(render, Items(Get(raw[at[k]], OPTIONS)))))
      && (forall i :: 0 <= i < |raw| ==>
            (i in at <==> (exists s :: 0 <= s < |raw| && IsStructured(raw[s])) && QuestionShown(render, raw[i], i).Some?))
  {
    hide Strip, OptionsShown, Collect, IsStructured, QuestionId, KindOf;
    var raw := Items(Get(content, QUESTIONS));
    if exists s :: 0 <= s < |raw| && IsStructured(raw[s]) {
      at := CollectInOrder(QuestionsShown(render, raw), |raw|);
      CollectWhole(QuestionsShown(render, raw));
    } else {
      at := [];
    }
  }

  lemma CollectWhole<T>(xs: seq<Option<T>>)
    ensures Collect(xs) == CollectUpTo(xs, |xs|)
  {
  }

  // ---------- the view of a quiz that parses ----------

  function Faithful(q: Question): ViewQuestion {
    ViewQuestion(q.id, q.kind, q.text, q.options)
  }

  predicate IsView(quiz: seq<Question>, view: seq<ViewQuestion>) {
    |view| == |quiz| && forall i :: 0 <= i < |quiz| ==> view[i] == Faithful(quiz[i])
  }

  lemma ParsedOptionsAreAllShown(render: Render, opts: seq<Json>)
    requires OptionsParse(render, opts)
    ensures Collect(OptionsShown(render, opts)) == OptionsOf(render, opts)
  {
    hide NonBlank, OptionId, Trimmed, Distinct;
    forall i | 0 <= i < |opts| ensures OptionShown(render, opts[i], i) == Some(OptionsOf(render, opts)[i]) {
      assert OptionParses(opts[i]);
    }
    CollectKeepsAll(OptionsShown(render, opts), OptionsOf(render, opts));
  }

  lemma ParsedQuestionIsShown(render: Render, item: Json, index: nat)
    requires QuestionParses(render, item)
    ensures QuestionShown(render, Sanitised(item), index) == Some(Faithful(QuestionOf(render, item, index)))
    ensures IsStructured(Sanitised(item))
  {
    hide Sanitised, Trimmed, NonBlank, KindOf, KindOrSingle, OptionsParse, CorrectParses, QuestionId, Collect;
    ParsedOptionsAreAllShown(render, Items(Get(item, OPTIONS)));
    SanitisedHidesTheKey(item, ID);
    SanitisedHidesTheKey(item, TYPE);
    SanitisedHidesTheKey(item, TEXT);
    SanitisedHidesTheKey(item, OPTIONS);
    SameId(render, item, index);
  }

  lemma SameId(render: Render, item: Json, index: nat)
    requires item.Obj?
    ensures QuestionId(render, Sanitised(item), index) == QuestionId(render, item, index)
  {
    hide IdOf, Sanitised;
    SanitisedHidesTheKey(item, ID);
  }

  /**
   For every quiz that parses, the employee's view of the sanitised content shows exactly the
   parser's questions: same ids, types, texts and options, in the same order.
   */
  lemma ViewShowsTheParsedQuiz(render: Render, content: Json)
    requires QuizParses(render, content)
    ensures IsView(QuizOf(render, content), View(render, PublicContent(content)))
  {
    hide QuestionParses, QuestionShown, QuestionOf, Sanitised, IsStructured, Distinct, Faithful;
    var raw, quiz := Items(Get(content, QUESTIONS)), QuizOf(render, content);
    var clean := SanitisedAll(raw);
    assert Items(Get(PublicContent(content), QUESTIONS)) == clean;
    var view := seq(|quiz|, i requires 0 <= i < |quiz| => Faithful(quiz[i]));
    forall i | 0 <= i < |raw|
      ensures QuestionsShown(render, clean)[i] == Some(view[i]) && IsStructured(clean[i])
    {
      ParsedQuestionIsShown(render, raw[i], i);
    }
    CollectKeepsAll(QuestionsShown(render, clean), view);
    assert IsStructured(clean[0]);
  }
}
