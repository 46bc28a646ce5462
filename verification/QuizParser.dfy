/**
 The structured quiz parser: what it accepts (`QuizParses`), what it returns (`QuizOf`), and the
 loops that do it. All rejections are validation errors, so the messages are left out.
 */
module QuizParser {
  import opened Common
  import opened Json
  import opened Lists
  import opened Text
  import opened QuizScoring

  const TEXT_MAX := 500
  const EXPLANATION_MAX := 1000
  const MAX_OPTIONS := 12

  datatype Kind = SingleChoice | MultipleChoice

  datatype QuizOption = QuizOption(id: string, text: string)

  datatype Question = Question(
    id: string, kind: Kind, text: string, options: seq<QuizOption>, correct: set<string>, explanation: Option<string>)

  // ---------- fields ----------

  function QuestionId(render: Render, item: Json, index: nat): string {
    IdOf(render, Get(item, ID), "q" + Decimal(index + 1))
  }

  /** `chr(ord("a") + index)`, below the surrogate code points. */
  function Letter(index: nat): string {
    if 'a' as int + index < 0xD800 then [('a' as int + index) as char] else Decimal(index)
  }

  function OptionId(render: Render, opt: Json, index: nat): string {
    IdOf(render, Get(opt, ID), Letter(index))
  }

  function KindOf(raw: Json): Option<Kind> {
    if Trimmed(raw) == "single_choice" then Some(SingleChoice)
    else if Trimmed(raw) == "multiple_choice" then Some(MultipleChoice)
    else None
  }

  /** The kind the view falls back to; parsed questions always have one of the two. */
  function KindOrSingle(raw: Json): Kind {
    if KindOf(raw).Some? then KindOf(raw).value else SingleChoice
  }

  predicate IsStructured(item: Json) {
    && item.Obj?
    && (NonBlank(Get(item, TYPE)) || Get(item, OPTIONS).Arr? || Get(item, CORRECT_IDS).Arr?)
  }

  // ---------- what parses, and into what ----------

  predicate OptionParses(opt: Json) {
    opt.Obj? && NonBlank(Get(opt, TEXT)) && |Trimmed(Get(opt, TEXT))| <= TEXT_MAX
  }

  function OptionOf(render: Render, opt: Json, index: nat): QuizOption {
    QuizOption(OptionId(render, opt, index), Trimmed(Get(opt, TEXT)))
  }

  function OptionsOf(render: Render, opts: seq<Json>): (options: seq<QuizOption>)
    ensures |options| == |opts|
    ensures forall i :: 0 <= i < |opts| ==> options[i] == OptionOf(render, opts[i], i)
  {
    seq(|opts|, i requires 0 <= i < |opts| => OptionOf(render, opts[i], i))
  }

  function Ids(options: seq<QuizOption>): (ids: seq<string>)
    ensures |ids| == |options| && forall i :: 0 <= i < |ids| ==> ids[i] == options[i].id
  {
    seq(|options|, i requires 0 <= i < |options| => options[i].id)
  }

  predicate OptionsParse(render: Render, opts: seq<Json>) {
    (forall i :: 0 <= i < |opts| ==> OptionParses(opts[i])) && Distinct(Ids(OptionsOf(render, opts)))
  }

  function TrimmedAll(raw: seq<Json>): (texts: seq<string>)
    ensures |texts| == |raw| && forall i :: 0 <= i < |raw| ==> texts[i] == Trimmed(raw[i])
  {
    seq(|raw|, i requires 0 <= i < |raw| => Trimmed(raw[i]))
  }

  predicate AllNonBlank(raw: seq<Json>) {
    forall i :: 0 <= i < |raw| ==> NonBlank(raw[i])
  }

  predicate CorrectParses(raw: Json, kind: Kind, options: seq<QuizOption>) {
    && raw.Arr? && raw.items != []
    && AllNonBlank(raw.items)
    && Distinct(TrimmedAll(raw.items))
    && (forall i :: 0 <= i < |raw.items| ==> Trimmed(raw.items[i]) in Ids(options))
    && (kind == SingleChoice ==> |raw.items| == 1)
  }

  predicate QuestionParses(render: Render, item: Json) {
    && item.Obj?
    && KindOf(Get(item, TYPE)).Some?
    && NonBlank(Get(item, TEXT)) && |Trimmed(Get(item, TEXT))| <= TEXT_MAX
    && Get(item, OPTIONS).Arr? && 2 <= |Items(Get(item, OPTIONS))| <= MAX_OPTIONS
    && OptionsParse(render, Items(Get(item, OPTIONS)))
    && CorrectParses(Get(item, CORRECT_IDS), KindOrSingle(Get(item, TYPE)),
                     OptionsOf(render, Items(Get(item, OPTIONS))))
    && (Get(item, EXPLANATION) == Null || Get(item, EXPLANATION).Str?)
    && !Has(item, CORRECT) && !Has(item, ANSWER)
  }

  function ExplanationOf(raw: Json): Option<string> {
    var text := Truncate(Trimmed(raw), EXPLANATION_MAX);
    if text == "" then None else Some(text)
  }

  function QuestionOf(render: Render, item: Json, index: nat): Question {
    Question(QuestionId(render, item, index), KindOrSingle(Get(item, TYPE)), Trimmed(Get(item, TEXT)),
             OptionsOf(render, Items(Get(item, OPTIONS))),
             Elements(TrimmedAll(Items(Get(item, CORRECT_IDS)))),
             ExplanationOf(Get(item, EXPLANATION)))
  }

  function QuestionsOf(render: Render, raw: seq<Json>): (quiz: seq<Question>)
    ensures |quiz| == |raw| && forall i :: 0 <= i < |raw| ==> quiz[i] == QuestionOf(render, raw[i], i)
  {
    seq(|raw|, i requires 0 <= i < |raw| => QuestionOf(render, raw[i], i))
  }

  function QuestionIds(quiz: seq<Question>): (ids: seq<string>)
    ensures |ids| == |quiz| && forall i :: 0 <= i < |quiz| ==> ids[i] == quiz[i].id
  {
    seq(|quiz|, i requires 0 <= i < |quiz| => quiz[i].id)
  }

  predicate QuestionsParse(render: Render, raw: seq<Json>) {
    && (forall i :: 0 <= i < |raw| ==> QuestionParses(render, raw[i]))
    && Distinct(QuestionIds(QuestionsOf(render, raw)))
  }

  predicate QuizParses(render: Render, content: Json) {
    var raw := Items(Get(content, QUESTIONS));
    && Get(content, QUESTIONS).Arr? && 1 <= |raw| <= MAX_QUESTIONS
    && (Get(content, PASSING) == Null || Get(content, PASSING) == Int(PASSING_SCORE))
    && QuestionsParse(render, raw)
  }

  function QuizOf(render: Render, content: Json): (quiz: seq<Question>)
    ensures |quiz| == |Items(Get(content, QUESTIONS))|
  {
    QuestionsOf(render, Items(Get(content, QUESTIONS)))
  }

  // ---------- the parser ----------

  method ParseOption(render: Render, opt: Json, oid: string) returns (r: Result<QuizOption>)
    ensures r.Ok? <==> OptionParses(opt)
    ensures r.Ok? ==> r.value == QuizOption(oid, Trimmed(Get(opt, TEXT)))
  {
    if !opt.Obj? {
      return Err(Validation);
    }
    var text := Get(opt, TEXT);
    if !NonBlank(text) || |Strip(text.s)| > TEXT_MAX {
      return Err(Validation);
    }
    r := Ok(QuizOption(oid, Strip(text.s)));
  }

  method ParseOptions(render: Render, opts: seq<Json>) returns (r: Result<seq<QuizOption>>)
    ensures r.Ok? <==> OptionsParse(render, opts)
    ensures r.Ok? ==> r.value == OptionsOf(render, opts)
  {
    hide Distinct, OptionParses, OptionId, Trimmed;
    var options: seq<QuizOption> := [];
    var seen: set<string> := {};
    ghost var whole := OptionsOf(render, opts);
    ghost var all := Ids(whole);
    for i := 0 to |opts|
      invariant forall k :: 0 <= k < i ==> OptionParses(opts[k])
      invariant options == whole[..i]
      invariant seen == Seen(all, i) && NoneSeenTwice(all, i)
    {
      var oid := OptionId(render, opts[i], i);
      SeenTwice(all, i + 1);
      if oid in seen {
        return Err(Validation);
      }
      seen := seen + {oid};
      var option := ParseOption(render, opts[i], oid);
      if option.Err? {
        return Err(Validation);
      }
      options := options + [option.value];
    }
    SeenTwice(all, |opts|);
    r := Ok(options);
  }

  method TrimEach(raw: seq<Json>) returns (r: Result<seq<string>>)
    ensures r.Ok? <==> AllNonBlank(raw)
    ensures r.Ok? ==> r.value == TrimmedAll(raw)
  {
    hide NonBlank, Trimmed;
    var ids: seq<string> := [];
    for i := 0 to |raw|
      invariant forall k :: 0 <= k < i ==> NonBlank(raw[k])
      invariant ids == TrimmedAll(raw)[..i]
    {
      if !NonBlank(raw[i]) {
        return Err(Validation);
      }
      ids := ids + [Trimmed(raw[i])];
    }
    r := Ok(ids);
  }

  method ParseCorrect(raw: Json, kind: Kind, options: seq<QuizOption>) returns (r: Result<set<string>>)
    ensures r.Ok? <==> CorrectParses(raw, kind, options)
    ensures r.Ok? ==> r.value == Elements(TrimmedAll(raw.items))
  {
    hide Distinct, AllNonBlank, Trimmed;
    if !raw.Arr? || raw.items == [] {
      return Err(Validation);
    }
    var trimmed := TrimEach(raw.items);
    if trimmed.Err? {
      return Err(Validation);
    }
    var ids := trimmed.value;
    if !Distinct(ids) || (exists i :: 0 <= i < |ids| && ids[i] !in Ids(options)) {
      return Err(Validation);
    }
    if kind == SingleChoice && |ids| != 1 {
      return Err(Validation);
    }
    r := Ok(Elements(ids));
  }

  method ParseQuestion(render: Render, item: Json, index: nat) returns (r: Result<Question>)
    ensures r.Ok? <==> QuestionParses(render, item)
    ensures r.Ok? ==> r.value == QuestionOf(render, item, index)
  {
    if !item.Obj? {
      return Err(Validation);
    }
    var kind := KindOf(Get(item, TYPE));
    if kind.None? {
      return Err(Validation);
    }
    var text := Get(item, TEXT);
    if !NonBlank(text) || |Strip(text.s)| > TEXT_MAX {
      return Err(Validation);
    }
    var opts := Get(item, OPTIONS);
    if !opts.Arr? || |opts.items| < 2 || |opts.items| > MAX_OPTIONS {
      return Err(Validation);
    }
    var options := ParseOptions(render, opts.items);
    if options.Err? {
      return Err(Validation);
    }
    var correct := ParseCorrect(Get(item, CORRECT_IDS), kind.value, options.value);
    if correct.Err? {
      return Err(Validation);
    }
    var explanation := Get(item, EXPLANATION);
    if explanation != Null && !explanation.Str? {
      return Err(Validation);
    }
    if Has(item, CORRECT) || Has(item, ANSWER) {
      return Err(Validation);
    }
    r := Ok(Question(QuestionId(render, item, index), kind.value, Strip(text.s), options.value, correct.value,
                     ExplanationOf(explanation)));
  }

  method ParseQuestions(render: Render, raw: seq<Json>) returns (r: Result<seq<Question>>)
    ensures r.Ok? <==> QuestionsParse(render, raw)
    ensures r.Ok? ==> r.value == QuestionsOf(render, raw)
  {
    hide Distinct, QuestionParses, QuestionOf;
    var quiz: seq<Question> := [];
    var seen: set<string> := {};
    ghost var whole := QuestionsOf(render, raw);
    ghost var all := QuestionIds(whole);
    for i := 0 to |raw|
      invariant forall k :: 0 <= k < i ==> QuestionParses(render, raw[k])
      invariant quiz == whole[..i]
      invariant seen == Seen(all, i) && NoneSeenTwice(all, i)
    {
      var question := ParseQuestion(render, raw[i], i);
      if question.Err? {
        return Err(Validation);
      }
      SeenTwice(all, i + 1);
      if question.value.id in seen {
        return Err(Validation);
      }
      seen := seen + {question.value.id};
      quiz := quiz + [question.value];
    }
    SeenTwice(all, |raw|);
    r := Ok(quiz);
  }

  lemma UnstructuredDoesNotParse(render: Render, item: Json)
    ensures !IsStructured(item) ==> !QuestionParses(render, item)
  {
  }

  method ParseStructuredQuiz(render: Render, content: Json) returns (r: Result<seq<Question>>)
    ensures r.Ok? <==> QuizParses(render, content)
    ensures r.Ok? ==> r.value == QuizOf(render, content)
  {
    var questions := Get(content, QUESTIONS);
    if !questions.Arr? || questions.items == [] || |questions.items| > MAX_QUESTIONS {
      return Err(Validation);
    }
    var raw := questions.items;
    if i :| 0 <= i < |raw| && !IsStructured(raw[i]) {
      UnstructuredDoesNotParse(render, raw[i]);
      return Err(Validation);
    }
    var passing := Get(content, PASSING);
    if passing != Null && passing != Int(PASSING_SCORE) {
      return Err(Validation);
    }
    r := ParseQuestions(render, raw);
  }
}
