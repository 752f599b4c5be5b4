/**
 * The acknowledgement journal (src/pages/admin/AcksJournal.jsx): the filter form, the parameters
 * of every journal request, and the user and instruction columns.
 */
module AcksJournal {
  import opened Wrappers
  import opened Js
  import opened Journals

  /** The four fields of the filter form, which are also the query keys. */
  const AckKeys: seq<string> := ["date_from", "date_to", "user_id", "instruction_id"]

  /** `buildParams(f)`: a fresh record filled one filled field at a time. */
  method BuildParams(f: Filters) returns (params: Params)
    ensures KeepsFilled(AckKeys, f, params)
  {
    params := map[];
    ghost var before := params;
    if Get(f, "date_from") != "" { params := params["date_from" := Get(f, "date_from")]; }
    KeepsFilledStep([], "date_from", f, before, params);
    before := params;
    if Get(f, "date_to") != "" { params := params["date_to" := Get(f, "date_to")]; }
    KeepsFilledStep(["date_from"], "date_to", f, before, params);
    before := params;
    if Get(f, "user_id") != "" { params := params["user_id" := Get(f, "user_id")]; }
    KeepsFilledStep(["date_from"] + ["date_to"], "user_id", f, before, params);
    before := params;
    if Get(f, "instruction_id") != "" { params := params["instruction_id" := Get(f, "instruction_id")]; }
    KeepsFilledStep(["date_from"] + ["date_to"] + ["user_id"], "instruction_id", f, before, params);
    assert ["date_from"] + ["date_to"] + ["user_id"] + ["instruction_id"] == AckKeys;
  }

  /** The page state this model follows: the filter form and the parameters of every `fetchAckLogs`
      call so far, oldest first. */
  class AcksJournalPage {
    var filters: Filters
    var requests: seq<Params>

    /** The initial form is cleared, and the first load (on mount) asks for the whole journal. */
    constructor()
      ensures filters == Cleared(AckKeys)
      ensures requests == [map[]]
    {
      filters := Cleared(AckKeys);
      var params := BuildParams(Cleared(AckKeys));
      ClearedAsksNothing(AckKeys, params);
      requests := [params];
    }

    /** `handleChange(key, value)`: one field of the form changes, nothing is requested. */
    method HandleChange(key: string, value: string)
      modifies this
      ensures filters == old(filters)[key := value]
      ensures requests == old(requests)
    {
      filters := filters[key := value];
    }

    /** `load(customParams)`: one more request, with the explicit parameters when there are any and
        otherwise the form's. */
    method Load(custom: Option<Params>)
      modifies this
      ensures filters == old(filters)
      ensures |requests| == |old(requests)| + 1 && requests[..|old(requests)|] == old(requests)
      ensures custom.Some? ==> requests[|old(requests)|] == custom.value
      ensures custom.None? ==> KeepsFilled(AckKeys, filters, requests[|old(requests)|])
    {
      var built := BuildParams(filters);
      requests := requests + [LoadParams(custom, built)];
    }

    /** `applyFilters()`: a load with the form's parameters. */
    method ApplyFilters()
      modifies this
      ensures filters == old(filters)
      ensures |requests| == |old(requests)| + 1 && requests[..|old(requests)|] == old(requests)
      ensures KeepsFilled(AckKeys, filters, requests[|old(requests)|])
    {
      Load(None);
    }

    /** `resetFilters()`: every field back to "", and a reload with `{}`, which is what the cleared
        form would ask for (the form's own update is not yet visible to that reload). */
    method ResetFilters()
      modifies this
      ensures filters == Cleared(AckKeys)
      ensures requests == old(requests) + [map[]]
      ensures KeepsFilled(AckKeys, filters, requests[|requests| - 1])
    {
      filters := Cleared(AckKeys);
      Load(Some(map[]));
      ClearedBuildsEmpty(AckKeys);
    }
  }

  /** The part of a journal row the columns read; `instructionTitle` is `instruction.title` when the row
      carries an instruction object. */
  datatype AckRow = AckRow(user: Option<RowUser>, userId: Value, instructionTitle: Option<Value>, instructionId: Value)

  /** The instruction column: `instruction?.title || instruction_id || "-"`. */
  function InstructionCell(row: AckRow): (r: Value)
    ensures Truthy(r)
    ensures r == FirstTruthy([if row.instructionTitle.Some? then row.instructionTitle.value else Undefined, row.instructionId], Dash)
  {
    var title := if row.instructionTitle.Some? then row.instructionTitle.value else Undefined;
    OrChain2(title, row.instructionId, Dash);
    FirstTruthyIsTruthy([title, row.instructionId], Dash);
    Or(Or(title, row.instructionId), Dash)
  }
}
