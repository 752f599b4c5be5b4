/**
 * The test-attempt journal (src/pages/admin/TestsJournal.jsx): the five-field filter form, the
 * parameters of every journal request, and the columns.
 */
module TestsJournal {
  import opened Wrappers
  import opened Js
  import opened Journals

  /** The five fields of the filter form, which are also the query keys. */
  const TestKeys: seq<string> := ["date_from", "date_to", "user_id", "instruction_id", "test_id"]

  /** `buildParams(f)`: a fresh record filled one filled field at a time. */
  method BuildParams(f: Filters) returns (params: Params)
    ensures KeepsFilled(TestKeys, f, params)
  {
    params := map[];
    ghost var before := params;
    if Get(f, "date_from") != "" { params := params["date_from" := Get(f, "date_from")]; }
    KeepsFilledStep([], "date_from", f, before, params);
    before := params;
    if Get(f, "date_to") != "" { params := params["date_to" := Get(f, "date_to")]; }
    KeepsFilledStep(["date_from"], "date_to", f, before, params);
    before := params;
    if Get(f, "user_id") != "" { params := params["user_id" := Get(f, "user_id")]; }
    KeepsFilledStep(["date_from"] + ["date_to"], "user_id", f, before, params);
    before := params;
    if Get(f, "instruction_id") != "" { params := params["instruction_id" := Get(f, "instruction_id")]; }
    KeepsFilledStep(["date_from"] + ["date_to"] + ["user_id"], "instruction_id", f, before, params);
    before := params;
    if Get(f, "test_id") != "" { params := params["test_id" := Get(f, "test_id")]; }
    KeepsFilledStep(["date_from"] + ["date_to"] + ["user_id"] + ["instruction_id"], "test_id", f, before, params);
    assert ["date_from"] + ["date_to"] + ["user_id"] + ["instruction_id"] + ["test_id"] == TestKeys;
  }

  /** The page state this model follows: the filter form and the parameters of every `fetchTestLogs`
      call so far, oldest first. */
  class TestsJournalPage {
    var filters: Filters
    var requests: seq<Params>

    /** The initial form is cleared, and the first load (on mount) asks for the whole journal. */
    constructor()
      ensures filters == Cleared(TestKeys)
      ensures requests == [map[]]
    {
      filters := Cleared(TestKeys);
      var params := BuildParams(Cleared(TestKeys));
      ClearedAsksNothing(TestKeys, params);
      requests := [params];
    }

    /** `handleChange(key, value)`: one field of the form changes, nothing is requested. */
    method HandleChange(key: string, value: string)
      modifies this
      ensures filters == old(filters)[key := value]
      ensures requests == old(requests)
    {
      filters := filters[key := value];
    }

    /** `load(customParams)`: one more request, with the explicit parameters when there are any and
        otherwise the form's. */
    method Load(custom: Option<Params>)
      modifies this
      ensures filters == old(filters)
      ensures |requests| == |old(requests)| + 1 && requests[..|old(requests)|] == old(requests)
      ensures custom.Some? ==> requests[|old(requests)|] == custom.value
      ensures custom.None? ==> KeepsFilled(TestKeys, filters, requests[|old(requests)|])
    {
      var built := BuildParams(filters);
      requests := requests + [LoadParams(custom, built)];
    }

    /** `applyFilters()`: a load with the form's parameters. */
    method ApplyFilters()
      modifies this
      ensures filters == old(filters)
      ensures |requests| == |old(requests)| + 1 && requests[..|old(requests)|] == old(requests)
      ensures KeepsFilled(TestKeys, filters, requests[|old(requests)|])
    {
      Load(None);
    }

    /** `resetFilters()`: every field back to "", and a reload with `{}`, which is what the cleared
        form would ask for. */
    method ResetFilters()
      modifies this
      ensures filters == Cleared(TestKeys)
      ensures requests == old(requests) + [map[]]
      ensures KeepsFilled(TestKeys, filters, requests[|requests| - 1])
    {
      filters := Cleared(TestKeys);
      Load(Some(map[]));
      ClearedBuildsEmpty(TestKeys);
    }
  }

  /** The `test` object nested in a log row; `instructionTitle` is `instruction.title` when the test
      carries an instruction object. */
  datatype RowTest = RowTest(title: Value, name: Value, instructionTitle: Option<Value>)

  /** The part of a log row the columns read. */
  datatype TestRow = TestRow(user: Option<RowUser>, userId: Value, test: Option<RowTest>, testId: Value, score: Value)

  function TestTitleOf(row: TestRow): Value {
    if row.test.Some? then row.test.value.title else Undefined
  }

  function TestNameOf(row: TestRow): Value {
    if row.test.Some? then row.test.value.name else Undefined
  }

  /** `row?.test?.instruction?.title`. */
  function InstructionTitleOf(row: TestRow): Value {
    if row.test.Some? && row.test.value.instructionTitle.Some? then row.test.value.instructionTitle.value else Undefined
  }

  /** The group column: `user?.group_name || "-"`. */
  function GroupCell(row: TestRow): (r: Value)
    ensures Truthy(r)
    ensures Truthy(GroupOf(row.user)) ==> r == GroupOf(row.user)
    ensures !Truthy(GroupOf(row.user)) ==> r == Dash
  {
    Or(GroupOf(row.user), Dash)
  }

  /** The test column: `test?.title || test?.name || test_id || "-"`. */
  function TestCell(row: TestRow): (r: Value)
    ensures Truthy(r)
    ensures r == FirstTruthy([TestTitleOf(row), TestNameOf(row), row.testId], Dash)
  {
    OrChain3(TestTitleOf(row), TestNameOf(row), row.testId, Dash);
    FirstTruthyIsTruthy([TestTitleOf(row), TestNameOf(row), row.testId], Dash);
    Or(Or(Or(TestTitleOf(row), TestNameOf(row)), row.testId), Dash)
  }

  /** The instruction column: the instruction of the row's test, with no fallback to an id. */
  function InstructionCell(row: TestRow): (r: Value)
    ensures Truthy(r)
    ensures row.test.None? ==> r == Dash
    ensures Truthy(InstructionTitleOf(row)) ==> r == InstructionTitleOf(row)
    ensures !Truthy(InstructionTitleOf(row)) ==> r == Dash
  {
    Or(InstructionTitleOf(row), Dash)
  }

  /** The score column: `score ?? "-"`, so a score of 0 is shown as 0 and only a missing one as "-". */
  function ScoreCell(row: TestRow): (r: Value)
    ensures Nullish(row.score) ==> r == Dash
    ensures !Nullish(row.score) ==> r == row.score
  {
    Coalesce(row.score, Dash)
  }
}
