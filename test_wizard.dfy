/**
 * The test-creation wizard's form (src/pages/admin/components/TestWizardDialog.jsx):
 * a title, a chosen instruction, a pass score and a list of questions, each with
 * its answers. Every edit clones the form and changes the clone, so questions and
 * answers are values here, and the form is an object whose `questions` field each
 * edit reassigns. Validation walks the questions and answers in order and reports
 * the first problem; saving maps the form to the request body.
 */
module TestWizard {
  import opened Wrappers
  import opened Strings

  datatype Answer = Answer(text: string, isCorrect: bool)
  datatype Question = Question(text: string, answers: seq<Answer>)

  /** `Number(form.pass_score)`: the field starts as the number 70 and the number input yields text. */
  datatype Score = NaN | Finite(value: real) | Infinite(positive: bool)

  /** The complaint the validator shows first. Question and answer numbers are 0-based here. */
  datatype WizardError =
    | TitleMissing
    | InstructionMissing
    | PassScoreOutOfRange
    | NoQuestions
    | QuestionTextMissing(question: nat)
    | TooFewAnswers(question: nat)
    | AnswerTextMissing(question: nat, answer: nat)
    | NotOneCorrect(question: nat)

  datatype AnswerPayload = AnswerPayload(text: string, isCorrect: bool)
  datatype QuestionPayload = QuestionPayload(text: string, answers: seq<AnswerPayload>)
  datatype TestPayload = TestPayload(instructionId: string, title: string, passScore: Score, questions: seq<QuestionPayload>)

  // ---------------------------------------------------------------------------
  // Counting correct answers
  // ---------------------------------------------------------------------------

  /** `answers.filter((a) => a.is_correct).length`. */
  function CorrectCount(answers: seq<Answer>): nat {
    if |answers| == 0 then 0
    else (if answers[0].isCorrect then 1 else 0) + CorrectCount(answers[1..])
  }

  lemma {:induction false} CorrectCountAppend(a: seq<Answer>, b: seq<Answer>)
    ensures CorrectCount(a + b) == CorrectCount(a) + CorrectCount(b)
    decreases |a|
  {
    if |a| > 0 {
      assert (a + b)[0] == a[0];
      assert (a + b)[1..] == a[1..] + b;
      CorrectCountAppend(a[1..], b);
    } else {
      assert a + b == b;
    }
  }

  /** No answer is counted exactly when none is marked correct. */
  lemma {:induction false} CorrectCountZero(answers: seq<Answer>)
    ensures CorrectCount(answers) == 0 <==> forall i :: 0 <= i < |answers| ==> !answers[i].isCorrect
    decreases |answers|
  {
    if |answers| > 0 {
      CorrectCountZero(answers[1..]);
      assert forall i :: 1 <= i < |answers| ==> answers[i] == answers[1..][i - 1];
    }
  }

  /** A list with exactly one answer marked correct counts one. */
  lemma CorrectCountOne(answers: seq<Answer>, k: nat)
    requires k < |answers| && answers[k].isCorrect
    requires forall i :: 0 <= i < |answers| && i != k ==> !answers[i].isCorrect
    ensures CorrectCount(answers) == 1
  {
    var pre, post := answers[..k], answers[k + 1..];
    assert answers == pre + [answers[k]] + post;
    CorrectCountAppend(pre + [answers[k]], post);
    CorrectCountAppend(pre, [answers[k]]);
    CorrectCountZero(pre);
    assert forall i :: 0 <= i < |post| ==> post[i] == answers[k + 1 + i];
    CorrectCountZero(post);
  }

  /** A count of one pins down a single correct answer. */
  lemma CorrectCountOneAt(answers: seq<Answer>)
    requires CorrectCount(answers) == 1
    ensures exists k :: 0 <= k < |answers| && answers[k].isCorrect
              && forall i :: 0 <= i < |answers| && i != k ==> !answers[i].isCorrect
    decreases |answers|
  {
    if answers[0].isCorrect {
      CorrectCountZero(answers[1..]);
      assert forall i :: 1 <= i < |answers| ==> answers[i] == answers[1..][i - 1];
    } else {
      CorrectCountOneAt(answers[1..]);
      var k :| 0 <= k < |answers[1..]| && answers[1..][k].isCorrect
                && forall i :: 0 <= i < |answers[1..]| && i != k ==> !answers[1..][i].isCorrect;
      assert answers[k + 1].isCorrect;
      forall i | 0 <= i < |answers| && i != k + 1 ensures !answers[i].isCorrect {
        if i > 0 { assert answers[i] == answers[1..][i - 1]; }
      }
    }
  }

  // ---------------------------------------------------------------------------
  // The edits, on values
  // ---------------------------------------------------------------------------

  /** `emptyQuestion()`. */
  function EmptyQuestion(): Question {
    Question("", [Answer("", true), Answer("", false)])
  }

  /** `emptyQuestion` gives two empty answers with only the first marked correct. */
  lemma EmptyQuestionShape()
    ensures EmptyQuestion().text == "" && |EmptyQuestion().answers| == 2
    ensures forall i :: 0 <= i < 2 ==> EmptyQuestion().answers[i].text == ""
    ensures EmptyQuestion().answers[0].isCorrect && !EmptyQuestion().answers[1].isCorrect
    ensures CorrectCount(EmptyQuestion().answers) == 1
  {
  }

  /** `arr.splice(i, 1)` on a copy: drops item `i`, or changes nothing when `i` is past the end. */
  function Removed<T>(s: seq<T>, i: nat): (r: seq<T>)
    ensures i < |s| ==> |r| == |s| - 1 && (forall k :: 0 <= k < i ==> r[k] == s[k])
                         && (forall k :: i <= k < |r| ==> r[k] == s[k + 1])
    ensures i >= |s| ==> r == s
  {
    if i < |s| then s[..i] + s[i + 1..] else s
  }

  /** What `removeAnswer` does after the splice: if no answer is left correct, the first becomes correct. */
  function RepairCorrect(answers: seq<Answer>): seq<Answer> {
    if CorrectCount(answers) == 0 && |answers| > 0
    then answers[0 := answers[0].(isCorrect := true)]
    else answers
  }

  /** The answers after `removeAnswer(_, ai)`. */
  function AnswersAfterRemove(answers: seq<Answer>, ai: nat): seq<Answer> {
    RepairCorrect(Removed(answers, ai))
  }

  /** The answers after `setCorrectAnswer(_, ai)`: every answer keeps its text, only answer `ai` is correct. */
  function AnswersMarked(answers: seq<Answer>, ai: nat): seq<Answer> {
    seq(|answers|, i requires 0 <= i < |answers| => answers[i].(isCorrect := i == ai))
  }

  /** Question `qi` with its answers replaced. */
  function WithAnswers(qs: seq<Question>, qi: nat, answers: seq<Answer>): seq<Question>
    requires qi < |qs|
  {
    qs[qi := qs[qi].(answers := answers)]
  }

  /** Every question has exactly one correct answer (the rule the form displays under each question). */
  predicate OneCorrectEach(qs: seq<Question>) {
    forall i :: 0 <= i < |qs| ==> CorrectCount(qs[i].answers) == 1
  }

  /** The state the wizard's buttons keep: one correct answer each, and never fewer than two answers. */
  predicate Guarded(qs: seq<Question>) {
    OneCorrectEach(qs) && forall i :: 0 <= i < |qs| ==> |qs[i].answers| >= 2
  }

  // ---------------------------------------------------------------------------
  // Properties of the edits
  // ---------------------------------------------------------------------------

  /** `addAnswer` appends an empty, incorrect answer; the correct count does not change. */
  lemma AddAnswerKeepsCount(answers: seq<Answer>)
    ensures CorrectCount(answers + [Answer("", false)]) == CorrectCount(answers)
  {
    CorrectCountAppend(answers, [Answer("", false)]);
  }

  /** `setCorrectAnswer(_, ai)` leaves exactly answer `ai` correct, keeps every text and the count of answers. */
  lemma MarkedExactlyOne(answers: seq<Answer>, ai: nat)
    requires ai < |answers|
    ensures |AnswersMarked(answers, ai)| == |answers|
    ensures forall i :: 0 <= i < |answers| ==> AnswersMarked(answers, ai)[i].text == answers[i].text
    ensures forall i :: 0 <= i < |answers| ==> (AnswersMarked(answers, ai)[i].isCorrect <==> i == ai)
    ensures CorrectCount(AnswersMarked(answers, ai)) == 1
  {
    CorrectCountOne(AnswersMarked(answers, ai), ai);
  }

  /** `removeAnswer` shortens the list by one; whatever remains holds a correct answer. */
  lemma RemoveAnswerLeavesCorrect(answers: seq<Answer>, ai: nat)
    requires ai < |answers|
    ensures |AnswersAfterRemove(answers, ai)| == |answers| - 1
    ensures |answers| > 1 ==> CorrectCount(AnswersAfterRemove(answers, ai)) >= 1
  {
    var rest := Removed(answers, ai);
    if |answers| > 1 && CorrectCount(rest) == 0 {
      var fixed := rest[0 := rest[0].(isCorrect := true)];
      CorrectCountZero(rest);
      CorrectCountOne(fixed, 0);
    }
  }

  /** Removing the only correct answer makes answer 0 the correct one, and it is then the only one. */
  lemma RemoveOnlyCorrect(answers: seq<Answer>, ai: nat)
    requires ai < |answers| && |answers| > 1
    requires CorrectCount(answers) == 1 && answers[ai].isCorrect
    ensures AnswersAfterRemove(answers, ai)[0].isCorrect
    ensures CorrectCount(AnswersAfterRemove(answers, ai)) == 1
  {
    var rest := Removed(answers, ai);
    CorrectCountSplice(answers, ai);
    var fixed := rest[0 := rest[0].(isCorrect := true)];
    CorrectCountZero(rest);
    CorrectCountOne(fixed, 0);
  }

  /** The count over `pre + [x] + post` splits into the three parts. */
  lemma CorrectCountAround(pre: seq<Answer>, x: Answer, post: seq<Answer>)
    ensures CorrectCount(pre + [x] + post) == CorrectCount(pre) + (if x.isCorrect then 1 else 0) + CorrectCount(post)
    ensures CorrectCount(pre + post) == CorrectCount(pre) + CorrectCount(post)
  {
    CorrectCountAppend(pre + [x], post);
    CorrectCountAppend(pre, [x]);
    CorrectCountAppend(pre, post);
    assert [x][1..] == [];
  }

  /** The count over a list splits around any one of its answers. */
  lemma CorrectCountAt(answers: seq<Answer>, ai: nat)
    requires ai < |answers|
    ensures CorrectCount(answers) == CorrectCount(answers[..ai]) + (if answers[ai].isCorrect then 1 else 0) + CorrectCount(answers[ai + 1..])
  {
    var pre := answers[..ai];
    var post := answers[ai + 1..];
    assert answers[..ai + 1] == pre + [answers[ai]];
    assert answers == answers[..ai + 1] + post;
    CorrectCountAround(pre, answers[ai], post);
  }

  /** Taking one answer out subtracts its mark from the count. */
  lemma CorrectCountSplice(answers: seq<Answer>, ai: nat)
    requires ai < |answers|
    ensures CorrectCount(Removed(answers, ai)) + (if answers[ai].isCorrect then 1 else 0) == CorrectCount(answers)
  {
    CorrectCountAt(answers, ai);
    CorrectCountAround(answers[..ai], answers[ai], answers[ai + 1..]);
  }

  /** From one correct answer among at least two, removing any answer leaves exactly one correct. */
  lemma RemoveAnswerKeepsOne(answers: seq<Answer>, ai: nat)
    requires |answers| >= 2 && CorrectCount(answers) == 1
    ensures CorrectCount(AnswersAfterRemove(answers, ai)) == 1
  {
    if ai < |answers| {
      if answers[ai].isCorrect {
        RemoveOnlyCorrect(answers, ai);
      } else {
        CorrectCountSplice(answers, ai);
      }
    }
  }

  /** The initial form `[emptyQuestion()]` satisfies the wizard's rule. */
  lemma InitialGuarded()
    ensures Guarded([EmptyQuestion()])
  {
    EmptyQuestionShape();
  }

  /** `addQuestion` keeps the rule. */
  lemma AddQuestionGuarded(qs: seq<Question>)
    requires Guarded(qs)
    ensures Guarded(qs + [EmptyQuestion()])
  {
    EmptyQuestionShape();
  }

  /** `removeQuestion` keeps the rule. */
  lemma RemoveQuestionGuarded(qs: seq<Question>, qi: nat)
    requires Guarded(qs)
    ensures Guarded(Removed(qs, qi))
  {
  }

  /** Under the remove button's guard `canRemoveQuestion` (more than one question), removing a question
      keeps the rule and never leaves the test without questions. */
  lemma RemoveQuestionUnderGuard(qs: seq<Question>, qi: nat)
    requires Guarded(qs) && |qs| > 1
    ensures Guarded(Removed(qs, qi))
    ensures |Removed(qs, qi)| >= 1
    ensures qi < |qs| ==> |Removed(qs, qi)| == |qs| - 1
  {
    RemoveQuestionGuarded(qs, qi);
  }

  /** `addAnswer` keeps the rule. */
  lemma AddAnswerGuarded(qs: seq<Question>, qi: nat)
    requires Guarded(qs) && qi < |qs|
    ensures Guarded(WithAnswers(qs, qi, qs[qi].answers + [Answer("", false)]))
  {
    AddAnswerKeepsCount(qs[qi].answers);
  }

  /** `removeAnswer` keeps the rule when, as the delete button demands, the question has more than two answers. */
  lemma RemoveAnswerGuarded(qs: seq<Question>, qi: nat, ai: nat)
    requires Guarded(qs) && qi < |qs| && |qs[qi].answers| > 2
    ensures Guarded(WithAnswers(qs, qi, AnswersAfterRemove(qs[qi].answers, ai)))
  {
    RemoveAnswerKeepsOne(qs[qi].answers, ai);
  }

  /** `setCorrectAnswer` on a displayed answer keeps the rule. */
  lemma SetCorrectGuarded(qs: seq<Question>, qi: nat, ai: nat)
    requires Guarded(qs) && qi < |qs| && ai < |qs[qi].answers|
    ensures Guarded(WithAnswers(qs, qi, AnswersMarked(qs[qi].answers, ai)))
  {
    MarkedExactlyOne(qs[qi].answers, ai);
  }

  /** Text edits keep the rule: they touch no mark. */
  lemma TextEditsGuarded(qs: seq<Question>, qi: nat, ai: nat, value: string)
    requires Guarded(qs) && qi < |qs| && ai < |qs[qi].answers|
    ensures Guarded(qs[qi := qs[qi].(text := value)])
    ensures Guarded(WithAnswers(qs, qi, qs[qi].answers[ai := qs[qi].answers[ai].(text := value)]))
  {
    var answers := qs[qi].answers;
    var edited := answers[ai := answers[ai].(text := value)];
    assert answers == answers[..ai] + [answers[ai]] + answers[ai + 1..];
    assert edited == answers[..ai] + [edited[ai]] + answers[ai + 1..];
    CorrectCountAppend(answers[..ai] + [answers[ai]], answers[ai + 1..]);
    CorrectCountAppend(answers[..ai], [answers[ai]]);
    CorrectCountAppend(answers[..ai] + [edited[ai]], answers[ai + 1..]);
    CorrectCountAppend(answers[..ai], [edited[ai]]);
  }

  // ---------------------------------------------------------------------------
  // Validation
  // ---------------------------------------------------------------------------

  predicate ScoreInRange(score: Score) {
    score.Finite? && 0.0 <= score.value <= 100.0
  }

  /** The first answer, from index `j` on, whose trimmed text is empty (see `TrimEmptyIffBlank`). */
  function FirstBlankAnswer(answers: seq<Answer>, j: nat): Option<nat>
    decreases |answers| - j
  {
    if j >= |answers| then None
    else if IsBlank(answers[j].text) then Some(j)
    else FirstBlankAnswer(answers, j + 1)
  }

  /** The checks `validate` runs on question number `i`, in their order. */
  function QuestionError(q: Question, i: nat): Option<WizardError> {
    if IsBlank(q.text) then Some(QuestionTextMissing(i))
    else if |q.answers| < 2 then Some(TooFewAnswers(i))
    else match FirstBlankAnswer(q.answers, 0)
      case Some(j) => Some(AnswerTextMissing(i, j))
      case None => if CorrectCount(q.answers) != 1 then Some(NotOneCorrect(i)) else None
  }

  /** The first complaint about questions `i` and later. */
  function FirstQuestionError(qs: seq<Question>, i: nat): Option<WizardError>
    decreases |qs| - i
  {
    if i >= |qs| then None
    else match QuestionError(qs[i], i)
      case Some(e) => Some(e)
      case None => FirstQuestionError(qs, i + 1)
  }

  /** What `validate` reports for a form: None when it returns true. */
  function FormError(title: string, instructionId: string, passScore: Score, qs: seq<Question>): Option<WizardError> {
    if IsBlank(title) then Some(TitleMissing)
    else if instructionId == "" then Some(InstructionMissing)
    else if !ScoreInRange(passScore) then Some(PassScoreOutOfRange)
    else if |qs| == 0 then Some(NoQuestions)
    else FirstQuestionError(qs, 0)
  }

  /** A question the validator lets through. */
  predicate QuestionAcceptable(q: Question) {
    && !IsBlank(q.text)
    && |q.answers| >= 2
    && (forall j :: 0 <= j < |q.answers| ==> !IsBlank(q.answers[j].text))
    && CorrectCount(q.answers) == 1
  }

  lemma {:induction false} FirstBlankAnswerNone(answers: seq<Answer>, j: nat)
    ensures FirstBlankAnswer(answers, j).None? <==> forall k :: j <= k < |answers| ==> !IsBlank(answers[k].text)
    decreases |answers| - j
  {
    if j < |answers| {
      FirstBlankAnswerNone(answers, j + 1);
    }
  }

  /** The answer reported is the first blank one. */
  lemma {:induction false} FirstBlankAnswerIsFirst(answers: seq<Answer>, j: nat, k: nat)
    requires j <= k < |answers| && IsBlank(answers[k].text)
    requires forall m :: j <= m < k ==> !IsBlank(answers[m].text)
    ensures FirstBlankAnswer(answers, j) == Some(k)
    decreases k - j
  {
    if j < k {
      FirstBlankAnswerIsFirst(answers, j + 1, k);
    }
  }

  lemma QuestionErrorSpec(q: Question, i: nat)
    ensures QuestionError(q, i).None? <==> QuestionAcceptable(q)
  {
    FirstBlankAnswerNone(q.answers, 0);
  }

  lemma {:induction false} FirstQuestionErrorSpec(qs: seq<Question>, i: nat)
    ensures FirstQuestionError(qs, i).None? <==> forall k :: i <= k < |qs| ==> QuestionAcceptable(qs[k])
    decreases |qs| - i
  {
    if i < |qs| {
      QuestionErrorSpec(qs[i], i);
      FirstQuestionErrorSpec(qs, i + 1);
    }
  }

  /** The validator accepts exactly the forms that meet every rule. */
  lemma FormErrorNoneIff(title: string, instructionId: string, passScore: Score, qs: seq<Question>)
    ensures FormError(title, instructionId, passScore, qs).None? <==>
              && !IsBlank(title)
              && instructionId != ""
              && ScoreInRange(passScore)
              && |qs| >= 1
              && forall k :: 0 <= k < |qs| ==> QuestionAcceptable(qs[k])
  {
    FirstQuestionErrorSpec(qs, 0);
  }

  /** The complaint reported is the one about the first question that fails. */
  lemma {:induction false} FirstQuestionErrorIsFirst(qs: seq<Question>, i: nat, k: nat)
    requires i <= k < |qs| && !QuestionAcceptable(qs[k])
    requires forall m :: i <= m < k ==> QuestionAcceptable(qs[m])
    ensures FirstQuestionError(qs, i) == QuestionError(qs[k], k) != None
    decreases k - i
  {
    QuestionErrorSpec(qs[i], i);
    QuestionErrorSpec(qs[k], k);
    if i < k {
      FirstQuestionErrorIsFirst(qs, i + 1, k);
    }
  }

  // ---------------------------------------------------------------------------
  // Payload
  // ---------------------------------------------------------------------------

  function AnswerPayloadOf(a: Answer): AnswerPayload {
    AnswerPayload(Trim(a.text), a.isCorrect)
  }

  function QuestionPayloadOf(q: Question): QuestionPayload {
    QuestionPayload(Trim(q.text), seq(|q.answers|, j requires 0 <= j < |q.answers| => AnswerPayloadOf(q.answers[j])))
  }

  /** The body `handleSave` sends. */
  function PayloadOf(title: string, instructionId: string, passScore: Score, qs: seq<Question>): TestPayload {
    TestPayload(instructionId, Trim(title), passScore,
                seq(|qs|, i requires 0 <= i < |qs| => QuestionPayloadOf(qs[i])))
  }

  function PayloadCorrectCount(answers: seq<AnswerPayload>): nat {
    if |answers| == 0 then 0
    else (if answers[0].isCorrect then 1 else 0) + PayloadCorrectCount(answers[1..])
  }

  lemma {:induction false} PayloadCorrectCountSame(p: seq<AnswerPayload>, answers: seq<Answer>)
    requires |p| == |answers|
    requires forall j :: 0 <= j < |p| ==> p[j].isCorrect == answers[j].isCorrect
    ensures PayloadCorrectCount(p) == CorrectCount(answers)
    decreases |answers|
  {
    if |answers| > 0 {
      assert forall j :: 0 <= j < |p| - 1 ==> p[1..][j] == p[j + 1] && answers[1..][j] == answers[j + 1];
      PayloadCorrectCountSame(p[1..], answers[1..]);
    }
  }

  /** An accepted question maps to a payload with non-empty trimmed texts, the same marks and one correct answer. */
  lemma AcceptedQuestionPayload(q: Question)
    requires QuestionAcceptable(q)
    ensures var p := QuestionPayloadOf(q);
            && p.text == Trim(q.text) && p.text != ""
            && |p.answers| == |q.answers| >= 2
            && PayloadCorrectCount(p.answers) == 1
            && forall j :: 0 <= j < |q.answers| ==>
                 && p.answers[j].text == Trim(q.answers[j].text) && p.answers[j].text != ""
                 && p.answers[j].isCorrect == q.answers[j].isCorrect
  {
    var p := QuestionPayloadOf(q);
    TrimEmptyIffBlank(q.text);
    AcceptedAnswerPayloads(q);
    PayloadCorrectCountSame(p.answers, q.answers);
  }

  /** The answers of an accepted question map one to one to trimmed, non-empty answer payloads. */
  lemma AcceptedAnswerPayloads(q: Question)
    requires QuestionAcceptable(q)
    ensures var p := QuestionPayloadOf(q);
            && |p.answers| == |q.answers|
            && forall j :: 0 <= j < |q.answers| ==>
                 && p.answers[j].text == Trim(q.answers[j].text) && p.answers[j].text != ""
                 && p.answers[j].isCorrect == q.answers[j].isCorrect
  {
    var p := QuestionPayloadOf(q);
    forall j | 0 <= j < |q.answers| ensures p.answers[j].text != "" {
      TrimEmptyIffBlank(q.answers[j].text);
    }
  }

  /** A payload built from an accepted form keeps the order and the number of questions, a non-empty
      trimmed title, the pass score in range, and accepted questions (see `AcceptedQuestionPayload`). */
  lemma AcceptedPayload(title: string, instructionId: string, passScore: Score, qs: seq<Question>)
    requires FormError(title, instructionId, passScore, qs).None?
    ensures var p := PayloadOf(title, instructionId, passScore, qs);
            && p.title == Trim(title) && p.title != "" && p.instructionId == instructionId
            && ScoreInRange(p.passScore)
            && |p.questions| == |qs| >= 1
            && forall i :: 0 <= i < |qs| ==> p.questions[i] == QuestionPayloadOf(qs[i]) && QuestionAcceptable(qs[i])
  {
    FormErrorNoneIff(title, instructionId, passScore, qs);
    TrimEmptyIffBlank(title);
  }

  /** The body of `validate`'s loop for question `i`: its text, its number of answers, each answer's
      text in order, then the single correct answer. */
  method CheckQuestion(q: Question, i: nat) returns (error: Option<WizardError>)
    ensures error == QuestionError(q, i)
  {
    var blank := TrimIsEmpty(q.text);
    if blank { return Some(QuestionTextMissing(i)); }
    if |q.answers| < 2 { return Some(TooFewAnswers(i)); }
    var j := 0;
    while j < |q.answers|
      invariant 0 <= j <= |q.answers|
      invariant FirstBlankAnswer(q.answers, 0) == FirstBlankAnswer(q.answers, j)
    {
      var answerBlank := TrimIsEmpty(q.answers[j].text);
      if answerBlank { return Some(AnswerTextMissing(i, j)); }
      j := j + 1;
    }
    if CorrectCount(q.answers) != 1 { return Some(NotOneCorrect(i)); }
    return None;
  }

  // ---------------------------------------------------------------------------
  // The form object
  // ---------------------------------------------------------------------------

  class WizardForm {
    var title: string
    var instructionId: string
    var passScore: Score
    var questions: seq<Question>

    /** The form the dialog starts with: one fresh question and a pass score of 70. */
    constructor ()
      ensures title == "" && instructionId == "" && passScore == Finite(70.0)
      ensures questions == [EmptyQuestion()]
      ensures Guarded(questions)
    {
      title := "";
      instructionId := "";
      passScore := Finite(70.0);
      questions := [EmptyQuestion()];
      InitialGuarded();
    }

    /** `handleChange("title", v)`. */
    method SetTitle(v: string)
      modifies this
      ensures title == v
      ensures instructionId == old(instructionId) && passScore == old(passScore) && questions == old(questions)
    {
      title := v;
    }

    /** `handleChange("instruction_id", v)`. */
    method SetInstruction(v: string)
      modifies this
      ensures instructionId == v
      ensures title == old(title) && passScore == old(passScore) && questions == old(questions)
    {
      instructionId := v;
    }

    /** `handleChange("pass_score", v)`, with the text already converted by `Number`. */
    method SetPassScore(v: Score)
      modifies this
      ensures passScore == v
      ensures title == old(title) && instructionId == old(instructionId) && questions == old(questions)
    {
      passScore := v;
    }

    /** `updateQuestionText(qi, v)`. */
    method UpdateQuestionText(qi: nat, v: string)
      requires qi < |questions|
      modifies this
      ensures questions == old(questions)[qi := old(questions)[qi].(text := v)]
      ensures title == old(title) && instructionId == old(instructionId) && passScore == old(passScore)
    {
      var next := questions;
      next := next[qi := next[qi].(text := v)];
      questions := next;
    }

    /** `addQuestion()`: one fresh question at the end, the others untouched. */
    method AddQuestion()
      modifies this
      ensures questions == old(questions) + [EmptyQuestion()]
      ensures title == old(title) && instructionId == old(instructionId) && passScore == old(passScore)
      ensures Guarded(old(questions)) ==> Guarded(questions)
    {
      if Guarded(questions) { AddQuestionGuarded(questions); }
      questions := questions + [EmptyQuestion()];
    }

    /** `removeQuestion(qi)`: `splice(qi, 1)` on a copy. */
    method RemoveQuestion(qi: nat)
      modifies this
      ensures questions == Removed(old(questions), qi)
      ensures title == old(title) && instructionId == old(instructionId) && passScore == old(passScore)
      ensures Guarded(old(questions)) ==> Guarded(questions)
    {
      if Guarded(questions) { RemoveQuestionGuarded(questions, qi); }
      questions := Removed(questions, qi);
    }

    /** `addAnswer(qi)`: an empty, incorrect answer at the end of question `qi`. */
    method AddAnswer(qi: nat)
      requires qi < |questions|
      modifies this
      ensures questions == WithAnswers(old(questions), qi, old(questions)[qi].answers + [Answer("", false)])
      ensures title == old(title) && instructionId == old(instructionId) && passScore == old(passScore)
      ensures Guarded(old(questions)) ==> Guarded(questions)
    {
      if Guarded(questions) { AddAnswerGuarded(questions, qi); }
      var answers := questions[qi].answers;
      answers := answers + [Answer("", false)];
      questions := WithAnswers(questions, qi, answers);
    }

    /** `removeAnswer(qi, ai)`: splice the answer out, then mark the first answer if none is left correct.
        The delete button is enabled only while the question has more than two answers. */
    method RemoveAnswer(qi: nat, ai: nat)
      requires qi < |questions|
      modifies this
      ensures questions == WithAnswers(old(questions), qi, AnswersAfterRemove(old(questions)[qi].answers, ai))
      ensures title == old(title) && instructionId == old(instructionId) && passScore == old(passScore)
      ensures Guarded(old(questions)) && |old(questions)[qi].answers| > 2 ==> Guarded(questions)
    {
      if Guarded(questions) && |questions[qi].answers| > 2 { RemoveAnswerGuarded(questions, qi, ai); }
      var answers := Removed(questions[qi].answers, ai);
      if CorrectCount(answers) == 0 && |answers| > 0 {
        answers := answers[0 := answers[0].(isCorrect := true)];
      }
      questions := WithAnswers(questions, qi, answers);
    }

    /** `updateAnswerText(qi, ai, v)`. */
    method UpdateAnswerText(qi: nat, ai: nat, v: string)
      requires qi < |questions| && ai < |questions[qi].answers|
      modifies this
      ensures questions == WithAnswers(old(questions), qi, old(questions)[qi].answers[ai := old(questions)[qi].answers[ai].(text := v)])
      ensures title == old(title) && instructionId == old(instructionId) && passScore == old(passScore)
      ensures Guarded(old(questions)) ==> Guarded(questions)
    {
      if Guarded(questions) { TextEditsGuarded(questions, qi, ai, v); }
      var answers := questions[qi].answers;
      answers := answers[ai := answers[ai].(text := v)];
      questions := WithAnswers(questions, qi, answers);
    }

    /** `setCorrectAnswer(qi, ai)`: answer `ai` becomes the only correct one of question `qi`. */
    method SetCorrectAnswer(qi: nat, ai: nat)
      requires qi < |questions|
      modifies this
      ensures questions == WithAnswers(old(questions), qi, AnswersMarked(old(questions)[qi].answers, ai))
      ensures title == old(title) && instructionId == old(instructionId) && passScore == old(passScore)
      ensures Guarded(old(questions)) && ai < |old(questions)[qi].answers| ==> Guarded(questions)
    {
      if Guarded(questions) && ai < |questions[qi].answers| { SetCorrectGuarded(questions, qi, ai); }
      questions := WithAnswers(questions, qi, AnswersMarked(questions[qi].answers, ai));
    }

    /** `validate()`: the checks in order, nested loops over questions and answers, first failure reported. */
    method Validate() returns (error: Option<WizardError>)
      ensures error == FormError(title, instructionId, passScore, questions)
    {
      var blank := TrimIsEmpty(title);
      if blank { return Some(TitleMissing); }
      if instructionId == "" { return Some(InstructionMissing); }
      if !ScoreInRange(passScore) { return Some(PassScoreOutOfRange); }
      if |questions| == 0 { return Some(NoQuestions); }
      var i := 0;
      while i < |questions|
        invariant 0 <= i <= |questions|
        invariant FirstQuestionError(questions, 0) == FirstQuestionError(questions, i)
      {
        var e := CheckQuestion(questions[i], i);
        if e.Some? { return e; }
        i := i + 1;
      }
      return None;
    }

    /** `handleSave()`: nothing is sent unless the form validates; otherwise the mapped payload is. */
    method Save() returns (request: Option<TestPayload>)
      ensures request.Some? <==> FormError(title, instructionId, passScore, questions).None?
      ensures request.Some? ==> request.value == PayloadOf(title, instructionId, passScore, questions)
    {
      var error := Validate();
      if error.Some? { return None; }
      request := Some(PayloadOf(title, instructionId, passScore, questions));
    }
  }
}
