/**
 * Attachment upload rules of the admin attachments page (src/pages/admin/AttachmentsManager.jsx):
 * the file extension is the lower-cased text after the last dot, only three extensions are
 * allowed, files of up to 20 MiB inclusive pass, and an upload needs a chosen instruction
 * before the file itself is looked at.
 */
module Attachments {
  import opened Wrappers
  import opened Strings

  const MaxFileMb: nat := 20
  const MaxFileBytes: nat := MaxFileMb * 1024 * 1024
  const AllowedExt: seq<string> := ["pdf", "docx", "pptx"]

  /** A picked file: its name and its size in bytes. */
  datatype File = File(name: string, size: nat)

  /** An attachment row as the list endpoint returns it. */
  datatype Attachment = Attachment(id: nat, fileName: string, size: nat)

  datatype FileCheck = Accepted | NoFile | BadFormat | TooLarge

  /** `getFileExt(name)`: split on "." and lower-case the last piece, or "" when there is no dot. */
  function GetFileExt(name: string): string {
    if name == "" then ""
    else
      var parts := Split(name, ".");
      if |parts| > 1 then ToLower(parts[|parts| - 1]) else ""
  }

  /** Reference definition: the characters after the last '.', or the whole text when there is none. */
  function AfterLastDot(s: string): string
    decreases |s|
  {
    if |s| == 0 then ""
    else if s[|s| - 1] == '.' then ""
    else AfterLastDot(s[..|s| - 1]) + [s[|s| - 1]]
  }

  lemma {:induction false} AfterLastDotAt(s: string, k: nat)
    requires k < |s| && s[k] == '.'
    requires forall m :: k < m < |s| ==> s[m] != '.'
    ensures AfterLastDot(s) == s[k + 1..]
    decreases |s|
  {
    if |s| - 1 != k {
      var init := s[..|s| - 1];
      assert forall m :: k < m < |init| ==> init[m] == s[m];
      AfterLastDotAt(init, k);
      assert s[k + 1..] == init[k + 1..] + [s[|s| - 1]];
    }
  }

  lemma {:induction false} AfterLastDotHasNoDot(s: string)
    ensures '.' !in AfterLastDot(s)
    decreases |s|
  {
    if |s| > 0 && s[|s| - 1] != '.' {
      AfterLastDotHasNoDot(s[..|s| - 1]);
    }
  }

  lemma ContainsDotIff(s: string)
    ensures Contains(s, ".") <==> '.' in s
  {
    ContainsIff(s, ".");
    if '.' in s {
      var j :| 0 <= j < |s| && s[j] == '.';
      assert s[j..j + 1] == ".";
      assert OccursAt(s, ".", j);
    }
    if Contains(s, ".") {
      var j: nat :| OccursAt(s, ".", j);
      assert s[j] == s[j..j + 1][0];
    }
  }

  /** The last piece of `name.split(".")` is the text after the last dot. */
  lemma SplitLastIsAfterLastDot(name: string)
    requires '.' in name
    ensures Split(name, ".")[|Split(name, ".")| - 1] == AfterLastDot(name)
  {
    ContainsDotIff(name);
    SplitLast(name, ".");
    SplitPiecesFree(name, ".");
    var parts := Split(name, ".");
    var last := parts[|parts| - 1];
    var p := |name| - |last| - 1;
    assert name[p] == name[p..p + 1][0];
    ContainsDotIff(last);
    forall m | p < m < |name| ensures name[m] != '.' {
      assert name[m] == name[|name| - |last|..][m - p - 1];
    }
    AfterLastDotAt(name, p);
  }

  /** `getFileExt` is "" for a name without a dot, and otherwise the lower-cased text after the last dot,
      which never holds a dot itself. */
  lemma GetFileExtSpec(name: string)
    ensures '.' !in name ==> GetFileExt(name) == ""
    ensures '.' in name ==> GetFileExt(name) == ToLower(AfterLastDot(name))
    ensures '.' !in GetFileExt(name)
  {
    ContainsDotIff(name);
    SplitSingleIff(name, ".");
    if '.' in name {
      ExtensionWithDot(name);
    } else {
      assert |Split(name, ".")| == 1;
    }
  }

  lemma ExtensionWithDot(name: string)
    requires '.' in name && |Split(name, ".")| > 1
    ensures GetFileExt(name) == ToLower(AfterLastDot(name))
    ensures '.' !in GetFileExt(name)
  {
    var parts := Split(name, ".");
    assert GetFileExt(name) == ToLower(parts[|parts| - 1]);
    SplitLastIsAfterLastDot(name);
    AfterLastDotHasNoDot(name);
    ToLowerKeepsOthers(AfterLastDot(name), '.');
  }

  /** `validateFile(file)`: missing file first, then the extension, then the size. */
  function ValidateFile(file: Option<File>): FileCheck {
    match file
    case None => NoFile
    case Some(f) =>
      if GetFileExt(f.name) !in AllowedExt then BadFormat
      else if f.size > MaxFileBytes then TooLarge
      else Accepted
  }

  /** A file passes exactly when it has a dot, the text after its last dot is one of the allowed
      extensions in any letter case, and it is at most 20 MiB. */
  lemma ValidateFileAcceptedIff(file: Option<File>)
    ensures ValidateFile(file) == Accepted <==>
              && file.Some?
              && '.' in file.value.name
              && ToLower(AfterLastDot(file.value.name)) in AllowedExt
              && file.value.size <= 20 * 1024 * 1024
  {
    if file.Some? {
      GetFileExtSpec(file.value.name);
    }
  }

  /** A wrong extension is reported as a format error whatever the size. */
  lemma FormatCheckedBeforeSize(name: string, size: nat)
    requires '.' !in name || ToLower(AfterLastDot(name)) !in AllowedExt
    ensures ValidateFile(Some(File(name, size))) == BadFormat
  {
    GetFileExtSpec(name);
  }

  /** The limit is inclusive: 20 MiB exactly passes, one byte more does not. */
  lemma SizeLimitInclusive(name: string)
    requires '.' in name && ToLower(AfterLastDot(name)) in AllowedExt
    ensures ValidateFile(Some(File(name, 20971520))) == Accepted
    ensures ValidateFile(Some(File(name, 20971521))) == TooLarge
  {
    GetFileExtSpec(name);
  }

  lemma {:induction false} AfterLastDotLower(s: string)
    ensures AfterLastDot(ToLower(s)) == ToLower(AfterLastDot(s))
    decreases |s|
  {
    if |s| > 0 {
      var init := s[..|s| - 1];
      assert ToLower(s)[..|s| - 1] == ToLower(init);
      AfterLastDotLower(init);
      if s[|s| - 1] != '.' {
        assert ToLower(AfterLastDot(s)) == ToLower(AfterLastDot(init)) + [LowerChar(s[|s| - 1])];
      }
    }
  }

  /** The extension check ignores letter case: renaming a file to lower case never changes the verdict. */
  lemma ValidateFileIgnoresCase(name: string, size: nat)
    ensures ValidateFile(Some(File(ToLower(name), size))) == ValidateFile(Some(File(name, size)))
  {
    GetFileExtIgnoresCase(name);
  }

  /** The extension of a file name does not depend on the letter case of the name. */
  lemma GetFileExtIgnoresCase(name: string)
    ensures GetFileExt(ToLower(name)) == GetFileExt(name)
  {
    GetFileExtSpec(name);
    GetFileExtSpec(ToLower(name));
    ToLowerKeepsOthers(name, '.');
    if '.' in name {
      AfterLastDotLower(name);
      ToLowerIdempotent(AfterLastDot(name));
    }
  }

  /** What happened to one upload attempt. */
  datatype UploadOutcome =
    | Ignored                           // the picker delivered no file
    | NoInstruction                     // "choose an instruction first"
    | Rejected(reason: FileCheck)       // validateFile said no
    | Sent(instructionId: string, file: File)

  /** The upload panel's state: the chosen instruction, its attachments, the upload flags and the file picker. */
  class UploadPanel {
    var instructionId: string
    var attachments: seq<Attachment>
    var uploading: bool
    var progress: nat
    /** The file input's current selection (`evt.target.files?.[0]`); clearing `value` empties it. */
    var picker: Option<File>

    constructor ()
      ensures instructionId == "" && attachments == [] && !uploading && progress == 0 && picker == None
    {
      instructionId := "";
      attachments := [];
      uploading := false;
      progress := 0;
      picker := None;
    }

    /** The user picks a file in the input. */
    method Pick(file: File)
      modifies this
      ensures picker == Some(file)
      ensures instructionId == old(instructionId) && attachments == old(attachments)
      ensures uploading == old(uploading) && progress == old(progress)
    {
      picker := Some(file);
    }

    /** `handleSelectInstruction(id)`: the list is emptied, then reloaded when an instruction is chosen;
        `loaded` is what the fetch returned (None when it failed). */
    method SelectInstruction(id: string, loaded: Option<seq<Attachment>>)
      modifies this
      ensures instructionId == id
      ensures attachments == (if id != "" && loaded.Some? then loaded.value else [])
      ensures uploading == old(uploading) && progress == old(progress) && picker == old(picker)
    {
      instructionId := id;
      attachments := [];
      if id != "" {
        attachments := if loaded.Some? then loaded.value else [];
      }
    }

    /** `handleUpload`: the guard sequence, then the upload. `uploaded` says whether the request
        succeeded and `reloaded` is what reloading the list returned (None when it failed). */
    method HandleUpload(uploaded: bool, reloaded: Option<seq<Attachment>>) returns (outcome: UploadOutcome)
      modifies this
      ensures old(picker) == None ==> outcome == Ignored
      ensures old(picker).Some? && old(instructionId) == "" ==> outcome == NoInstruction
      ensures old(picker).Some? && old(instructionId) != "" && ValidateFile(old(picker)) != Accepted ==>
                outcome == Rejected(ValidateFile(old(picker)))
      ensures outcome.Sent? <==> old(picker).Some? && old(instructionId) != "" && ValidateFile(old(picker)) == Accepted
      ensures outcome.Sent? ==> outcome == Sent(old(instructionId), old(picker).value)
      ensures picker == None
      ensures instructionId == old(instructionId)
      ensures outcome.Sent? ==> !uploading && progress == 0
      ensures !outcome.Sent? ==> uploading == old(uploading) && progress == old(progress)
      ensures attachments == (if outcome.Sent? && uploaded then (if reloaded.Some? then reloaded.value else [])
                              else old(attachments))
    {
      var file := picker;
      if file == None {
        return Ignored;
      }
      if instructionId == "" {
        picker := None;
        return NoInstruction;
      }
      var check := ValidateFile(file);
      if check != Accepted {
        picker := None;
        return Rejected(check);
      }
      uploading := true;
      progress := 0;
      outcome := Sent(instructionId, file.value);
      if uploaded {
        attachments := if reloaded.Some? then reloaded.value else [];
      }
      uploading := false;
      progress := 0;
      picker := None;
    }
  }
}
