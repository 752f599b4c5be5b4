/**
 * The reports page (src/pages/admin/ReportsPage.jsx): one filter form drives the instructions
 * report, the tests report and the PDF export; the report columns fall back with `??` for counts
 * and with `||` for titles.
 */
module ReportsPage {
  import opened Wrappers
  import opened Js
  import opened Journals

  /** The five fields of the filter form, which are also the query keys. */
  const ReportKeys: seq<string> := ["date_from", "date_to", "user_id", "instruction_id", "test_id"]

  /** `buildParams(f)`: a fresh record filled one filled field at a time. */
  method BuildParams(f: Filters) returns (params: Params)
    ensures KeepsFilled(ReportKeys, f, params)
  {
    params := map[];
    ghost var before := params;
    if Get(f, "date_from") != "" { params := params["date_from" := Get(f, "date_from")]; }
    KeepsFilledStep([], "date_from", f, before, params);
    before := params;
    if Get(f, "date_to") != "" { params := params["date_to" := Get(f, "date_to")]; }
    KeepsFilledStep(["date_from"], "date_to", f, before, params);
    before := params;
    if Get(f, "user_id") != "" { params := params["user_id" := Get(f, "user_id")]; }
    KeepsFilledStep(["date_from"] + ["date_to"], "user_id", f, before, params);
    before := params;
    if Get(f, "instruction_id") != "" { params := params["instruction_id" := Get(f, "instruction_id")]; }
    KeepsFilledStep(["date_from"] + ["date_to"] + ["user_id"], "instruction_id", f, before, params);
    before := params;
    if Get(f, "test_id") != "" { params := params["test_id" := Get(f, "test_id")]; }
    KeepsFilledStep(["date_from"] + ["date_to"] + ["user_id"] + ["instruction_id"], "test_id", f, before, params);
    assert ["date_from"] + ["date_to"] + ["user_id"] + ["instruction_id"] + ["test_id"] == ReportKeys;
  }

  /** The page state this model follows: the filter form and the parameters of every request so far,
      oldest first, per endpoint. */
  class ReportsView {
    var filters: Filters
    var instructionRequests: seq<Params>
    var testRequests: seq<Params>
    var exportRequests: seq<Params>

    /** The initial form is cleared and the first load (on mount) asks for both whole reports. */
    constructor()
      ensures filters == Cleared(ReportKeys)
      ensures instructionRequests == [map[]] && testRequests == [map[]]
      ensures exportRequests == []
    {
      filters := Cleared(ReportKeys);
      var params := BuildParams(Cleared(ReportKeys));
      ClearedAsksNothing(ReportKeys, params);
      instructionRequests := [params];
      testRequests := [params];
      exportRequests := [];
    }

    /** `handleChange(key, value)`: one field of the form changes, nothing is requested. */
    method HandleChange(key: string, value: string)
      modifies this
      ensures filters == old(filters)[key := value]
      ensures instructionRequests == old(instructionRequests) && testRequests == old(testRequests)
      ensures exportRequests == old(exportRequests)
    {
      filters := filters[key := value];
    }

    /** `loadReports()`: both reports are requested with one and the same parameters, the form's. */
    method LoadReports()
      modifies this
      ensures filters == old(filters) && exportRequests == old(exportRequests)
      ensures |instructionRequests| == |old(instructionRequests)| + 1
      ensures instructionRequests[..|old(instructionRequests)|] == old(instructionRequests)
      ensures |testRequests| == |old(testRequests)| + 1 && testRequests[..|old(testRequests)|] == old(testRequests)
      ensures instructionRequests[|instructionRequests| - 1] == testRequests[|testRequests| - 1]
      ensures KeepsFilled(ReportKeys, filters, instructionRequests[|instructionRequests| - 1])
    {
      var params := BuildParams(filters);
      instructionRequests := instructionRequests + [params];
      testRequests := testRequests + [params];
    }

    /** `exportPdf()`: the export asks with the form's parameters, so while the form still matches the
        shown report the file has the same filters as the screen. */
    method ExportPdf()
      modifies this
      ensures filters == old(filters)
      ensures instructionRequests == old(instructionRequests) && testRequests == old(testRequests)
      ensures |exportRequests| == |old(exportRequests)| + 1 && exportRequests[..|old(exportRequests)|] == old(exportRequests)
      ensures KeepsFilled(ReportKeys, filters, exportRequests[|exportRequests| - 1])
      ensures |instructionRequests| > 0 && KeepsFilled(ReportKeys, filters, instructionRequests[|instructionRequests| - 1])
              ==> exportRequests[|exportRequests| - 1] == instructionRequests[|instructionRequests| - 1]
    {
      var params := BuildParams(filters);
      exportRequests := exportRequests + [params];
      if |instructionRequests| > 0 && KeepsFilled(ReportKeys, filters, instructionRequests[|instructionRequests| - 1]) {
        KeepsFilledUnique(ReportKeys, filters, params, instructionRequests[|instructionRequests| - 1]);
      }
    }

    /** `resetFilters()`: every field back to "", and, unlike the journals, no reload: the reports on
        screen keep the old filters until the next load. */
    method ResetFilters()
      modifies this
      ensures filters == Cleared(ReportKeys)
      ensures instructionRequests == old(instructionRequests) && testRequests == old(testRequests)
      ensures exportRequests == old(exportRequests)
    {
      filters := Cleared(ReportKeys);
    }
  }

  /** After a reset, a report that was loaded with some filter is no longer what the form would ask
      for, so an export made before the next load would not match the screen. */
  lemma ResetLeavesViewStale(shown: Params, k: string)
    requires k in shown
    ensures !KeepsFilled(ReportKeys, Cleared(ReportKeys), shown)
  {
  }

  /** A row of the instructions report; `nestedTitle` is `instruction.title` when the row carries an
      instruction object. */
  datatype InstructionReportRow = InstructionReportRow(
    nestedTitle: Option<Value>, instructionTitle: Value, title: Value,
    viewsCount: Value, acksCount: Value, count: Value)

  /** A row of the tests report; `nestedTest` and `nestedInstruction` are the titles of the nested
      objects when present. */
  datatype TestReportRow = TestReportRow(
    nestedTest: Option<Value>, testTitle: Value, title: Value,
    nestedInstruction: Option<Value>, instructionTitle: Value,
    attempts: Value, count: Value, passedCount: Value)

  /** Reading a field of an optional nested object. */
  function Nested(v: Option<Value>): Value {
    if v.Some? then v.value else Undefined
  }

  /** `instruction?.title || instruction_title || title || "-"`. */
  function InstructionTitleCell(row: InstructionReportRow): (r: Value)
    ensures Truthy(r)
    ensures r == FirstTruthy([Nested(row.nestedTitle), row.instructionTitle, row.title], Dash)
  {
    OrChain3(Nested(row.nestedTitle), row.instructionTitle, row.title, Dash);
    FirstTruthyIsTruthy([Nested(row.nestedTitle), row.instructionTitle, row.title], Dash);
    Or(Or(Or(Nested(row.nestedTitle), row.instructionTitle), row.title), Dash)
  }

  /** `views_count ?? acks_count ?? count ?? "-"`. */
  function ViewsCell(row: InstructionReportRow): (r: Value)
    ensures r == FirstDefined([row.viewsCount, row.acksCount, row.count], Dash)
  {
    CoalesceChain3(row.viewsCount, row.acksCount, row.count, Dash);
    Coalesce(Coalesce(Coalesce(row.viewsCount, row.acksCount), row.count), Dash)
  }

  /** A count of 0 is shown as 0: the first count the row defines is shown, even when it is 0, and
      "-" only when it defines none. */
  lemma ViewsKeepZero(row: InstructionReportRow)
    ensures !Nullish(row.viewsCount) ==> ViewsCell(row) == row.viewsCount
    ensures Nullish(row.viewsCount) && !Nullish(row.acksCount) ==> ViewsCell(row) == row.acksCount
    ensures Nullish(row.viewsCount) && Nullish(row.acksCount) && !Nullish(row.count) ==> ViewsCell(row) == row.count
    ensures Nullish(row.viewsCount) && Nullish(row.acksCount) && Nullish(row.count) ==> ViewsCell(row) == Dash
    ensures row.viewsCount == Num(0) ==> ViewsCell(row) == Num(0) != Or(row.viewsCount, Dash)
  {
  }

  /** `test?.title || test_title || title || "-"`. */
  function TestTitleCell(row: TestReportRow): (r: Value)
    ensures Truthy(r)
    ensures r == FirstTruthy([Nested(row.nestedTest), row.testTitle, row.title], Dash)
  {
    OrChain3(Nested(row.nestedTest), row.testTitle, row.title, Dash);
    FirstTruthyIsTruthy([Nested(row.nestedTest), row.testTitle, row.title], Dash);
    Or(Or(Or(Nested(row.nestedTest), row.testTitle), row.title), Dash)
  }

  /** `instruction?.title || instruction_title || "-"`. */
  function TestInstructionCell(row: TestReportRow): (r: Value)
    ensures Truthy(r)
    ensures r == FirstTruthy([Nested(row.nestedInstruction), row.instructionTitle], Dash)
  {
    OrChain2(Nested(row.nestedInstruction), row.instructionTitle, Dash);
    FirstTruthyIsTruthy([Nested(row.nestedInstruction), row.instructionTitle], Dash);
    Or(Or(Nested(row.nestedInstruction), row.instructionTitle), Dash)
  }

  /** `attempts ?? count ?? "-"`. */
  function AttemptsCell(row: TestReportRow): (r: Value)
    ensures r == FirstDefined([row.attempts, row.count], Dash)
  {
    CoalesceChain2(row.attempts, row.count, Dash);
    Coalesce(Coalesce(row.attempts, row.count), Dash)
  }

  /** `passed_count ?? "-"`. */
  function PassedCountCell(row: TestReportRow): (r: Value)
    ensures Nullish(row.passedCount) ==> r == Dash
    ensures !Nullish(row.passedCount) ==> r == row.passedCount
  {
    Coalesce(row.passedCount, Dash)
  }

  /** Zero attempts and zero passes are shown as 0, not as "-". */
  lemma TestCountsKeepZero(row: TestReportRow)
    ensures row.attempts == Num(0) ==> AttemptsCell(row) == Num(0)
    ensures Nullish(row.attempts) && row.count == Num(0) ==> AttemptsCell(row) == Num(0)
    ensures row.passedCount == Num(0) ==> PassedCountCell(row) == Num(0)
  {
  }
}
