/**
 * Taking a test (src/pages/user/TestPage.jsx): the page keeps the chosen answer per question,
 * submission is allowed only once every question has one, and the submitted list follows the
 * test's question order. Answer ids come from radio inputs, so they are strings; "" means none.
 */
module TestPage {
  import opened Wrappers

  /** One entry of the submitted `answers` list. */
  datatype AnswerEntry = AnswerEntry(questionId: nat, answerId: string)

  /** `selected[q]` is truthy. */
  predicate Answered(selected: map<nat, string>, q: nat) {
    q in selected && selected[q] != ""
  }

  /** `allAnswered`: `questions.length > 0 && questions.every((q) => selected[q.id])`. */
  predicate AllAnswered(questions: seq<nat>, selected: map<nat, string>) {
    |questions| > 0 && forall i :: 0 <= i < |questions| ==> Answered(selected, questions[i])
  }

  /** `questions.map((q) => ({ questionId: q.id, answerId: selected[q.id] }))`. */
  function AnswersPayload(questions: seq<nat>, selected: map<nat, string>): seq<AnswerEntry>
    requires forall i :: 0 <= i < |questions| ==> questions[i] in selected
  {
    seq(|questions|, i requires 0 <= i < |questions| => AnswerEntry(questions[i], selected[questions[i]]))
  }

  function QuestionIds(entries: seq<AnswerEntry>): seq<nat> {
    seq(|entries|, i requires 0 <= i < |entries| => entries[i].questionId)
  }

  /** A test without questions can never be submitted. */
  lemma NoQuestionsNeverAnswered(selected: map<nat, string>)
    ensures !AllAnswered([], selected)
  {
  }

  /** The submitted list names the questions in the test's order, one entry each, and every entry
      carries the non-empty answer the page holds for that question. */
  lemma PayloadFollowsQuestions(questions: seq<nat>, selected: map<nat, string>)
    requires AllAnswered(questions, selected)
    ensures var p := AnswersPayload(questions, selected);
            && QuestionIds(p) == questions
            && forall i :: 0 <= i < |p| ==> p[i].answerId != "" && selected[p[i].questionId] == p[i].answerId
  {
  }

  /** Choosing an answer is visible only on that question: every other question keeps its state. */
  lemma SelectTouchesOneQuestion(selected: map<nat, string>, q: nat, answer: string, other: nat)
    requires other != q
    ensures Answered(selected[q := answer], q) <==> answer != ""
    ensures Answered(selected[q := answer], other) <==> Answered(selected, other)
  {
  }

  /** Once all questions are answered, choosing another non-empty answer keeps the test submittable. */
  lemma ReselectKeepsAllAnswered(questions: seq<nat>, selected: map<nat, string>, q: nat, answer: string)
    requires AllAnswered(questions, selected) && answer != ""
    ensures AllAnswered(questions, selected[q := answer])
  {
  }

  class TestSession {
    /** The question ids of the loaded test, in its order. */
    var questions: seq<nat>
    /** `selected`: question id to the chosen answer id. */
    var selected: map<nat, string>

    constructor ()
      ensures questions == [] && selected == map[]
    {
      questions := [];
      selected := map[];
    }

    /** `load()`: `fetched` is the test's question ids, or None when the request failed. */
    method Load(fetched: Option<seq<nat>>)
      modifies this
      ensures fetched.Some? ==> questions == fetched.value && selected == map[]
      ensures fetched.Some? ==> forall i :: 0 <= i < |questions| ==> !Answered(selected, questions[i])
      ensures fetched.None? ==> questions == old(questions) && selected == old(selected)
    {
      if fetched.Some? {
        questions := fetched.value;
        selected := map[];
      }
    }

    /** `handleSelect(questionId, answerId)`. */
    method Select(questionId: nat, answerId: string)
      modifies this
      ensures selected == old(selected)[questionId := answerId]
      ensures questions == old(questions)
      ensures forall q :: q != questionId ==> (q in selected <==> q in old(selected))
      ensures forall q :: q != questionId && q in selected ==> selected[q] == old(selected)[q]
    {
      selected := selected[questionId := answerId];
    }

    /** `handleSubmit()`: nothing is sent unless every question is answered; otherwise the answers list. */
    method Submit() returns (request: Option<seq<AnswerEntry>>)
      ensures request.Some? <==> AllAnswered(questions, selected)
      ensures request.Some? ==>
                && |request.value| == |questions|
                && QuestionIds(request.value) == questions
                && forall i :: 0 <= i < |questions| ==>
                     request.value[i] == AnswerEntry(questions[i], selected[questions[i]])
    {
      if !AllAnswered(questions, selected) {
        return None;
      }
      request := Some(AnswersPayload(questions, selected));
    }
  }
}
