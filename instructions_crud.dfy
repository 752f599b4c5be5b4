/**
 * The instruction editor of the admin pages (src/pages/admin/InstructionsCRUD.jsx):
 * type labels, the field clean-up on a type change, the type-dependent validator,
 * the request body, and the description preview of the table.
 * The source calls the instruction kind `type`; that word is reserved in Dafny, so it is `kind` here.
 */
module InstructionsCrud {
  import opened Wrappers
  import opened Strings
  import opened YouTube

  datatype InstructionForm = InstructionForm(title: string, kind: string, content: string, videoUrl: string)

  datatype TypeOption = TypeOption(value: string, caption: string)

  /** `typeOptions`. */
  const TypeOptions: seq<TypeOption> := [
    TypeOption("text", "Текстовая"),
    TypeOption("video", "Видео"),
    TypeOption("pdf", "PDF (файл)")
  ]

  /** `options.find((x) => x.value === kind)`. */
  function FindOption(options: seq<TypeOption>, kind: string): (found: Option<TypeOption>)
    ensures found.Some? ==> found.value in options && found.value.value == kind
    ensures found.None? ==> forall i :: 0 <= i < |options| ==> options[i].value != kind
  {
    if |options| == 0 then None
    else if options[0].value == kind then Some(options[0])
    else FindOption(options[1..], kind)
  }

  /** `typeLabel(kind)`: the option's label, else the raw kind, else "-". */
  function TypeLabel(kind: string): (shown: string)
    ensures kind == "text" ==> shown == "Текстовая"
    ensures kind == "video" ==> shown == "Видео"
    ensures kind == "pdf" ==> shown == "PDF (файл)"
    ensures kind !in ["text", "video", "pdf"] ==> shown == (if kind == "" then "-" else kind)
    ensures shown != ""
  {
    match FindOption(TypeOptions, kind)
    case Some(option) => if option.caption != "" then option.caption else if kind != "" then kind else "-"
    case None => if kind != "" then kind else "-"
  }

  /** `handleTypeChange(newType)`: a video drops the text, text and pdf drop the link, other kinds only change the kind. */
  function ChangeKind(form: InstructionForm, newKind: string): (r: InstructionForm)
    ensures r.kind == newKind && r.title == form.title
    ensures newKind == "video" ==> r.content == "" && r.videoUrl == form.videoUrl
    ensures newKind == "text" || newKind == "pdf" ==> r.videoUrl == "" && r.content == form.content
    ensures newKind !in ["video", "text", "pdf"] ==> r.content == form.content && r.videoUrl == form.videoUrl
  {
    if newKind == "video" then form.(kind := "video", content := "")
    else if newKind == "text" then form.(kind := "text", videoUrl := "")
    else if newKind == "pdf" then form.(kind := "pdf", videoUrl := "")
    else form.(kind := newKind)
  }

  datatype InstructionFormError = TitleMissing | TextMissing | VideoUrlMissing | VideoUrlInvalid

  /** `validateForm()`: None when it returns true. */
  function ValidateForm(form: InstructionForm): Option<InstructionFormError> {
    if Trim(form.title) == "" then Some(TitleMissing)
    else if form.kind == "text" && Trim(form.content) == "" then Some(TextMissing)
    else if form.kind == "video" && Trim(form.videoUrl) == "" then Some(VideoUrlMissing)
    else if form.kind == "video" && ToYouTubeEmbed(Trim(form.videoUrl)).None? then Some(VideoUrlInvalid)
    else None
  }

  /** The form passes exactly when the title is not blank, a text has text, and a video has a link
      that normalises to an embed link. A pdf needs nothing but its title. */
  lemma ValidateFormIff(form: InstructionForm)
    ensures ValidateForm(form).None? <==>
              && !IsBlank(form.title)
              && (form.kind == "text" ==> !IsBlank(form.content))
              && (form.kind == "video" ==> !IsBlank(form.videoUrl) && ToYouTubeEmbed(Trim(form.videoUrl)).Some?)
  {
    TrimEmptyIffBlank(form.title);
    TrimEmptyIffBlank(form.content);
    TrimEmptyIffBlank(form.videoUrl);
  }

  /** The request body of `handleSave`; `videoUrl` None is `null`. */
  datatype InstructionPayload = InstructionPayload(title: string, kind: string, content: string, videoUrl: Option<string>)

  function PayloadOf(form: InstructionForm): InstructionPayload {
    InstructionPayload(
      Trim(form.title),
      form.kind,
      if form.kind == "video" then "" else Trim(form.content),
      if form.kind == "video" then Some(Trim(form.videoUrl)) else None)
  }

  /** What an accepted form sends: a video carries no text and a trimmed link that normalises; every other kind
      carries trimmed text and no link, and a text instruction's text is not empty. */
  lemma AcceptedPayload(form: InstructionForm)
    requires ValidateForm(form).None?
    ensures var p := PayloadOf(form);
            && p.title != "" && Trim(p.title) == p.title && p.kind == form.kind
            && (form.kind == "video" ==>
                  p.content == "" && p.videoUrl.Some? && p.videoUrl.value != ""
                  && Trim(p.videoUrl.value) == p.videoUrl.value && ToYouTubeEmbed(p.videoUrl.value).Some?)
            && (form.kind != "video" ==> p.videoUrl == None && Trim(p.content) == p.content)
            && (form.kind == "text" ==> p.content != "")
  {
    TrimIdempotent(form.title);
    TrimIdempotent(form.content);
    TrimIdempotent(form.videoUrl);
  }

  /** The clean-up on a type change never alters what is validated or sent: the validator and the body
      already ignore the field that is cleared. */
  lemma ChangeKindInvisible(form: InstructionForm, newKind: string)
    ensures ValidateForm(ChangeKind(form, newKind)) == ValidateForm(form.(kind := newKind))
    ensures PayloadOf(ChangeKind(form, newKind)) == PayloadOf(form.(kind := newKind))
  {
  }

  datatype Mode = CreateMode | EditMode
  datatype Request = Create(payload: InstructionPayload) | Update(id: nat, payload: InstructionPayload)

  /** `handleSave()`: nothing is sent for a rejected form; otherwise a create, or an update of `current.id`. */
  function SaveRequest(mode: Mode, currentId: nat, form: InstructionForm): (r: Option<Request>)
    ensures r.Some? <==> ValidateForm(form).None?
    ensures r.Some? && mode == CreateMode ==> r.value == Create(PayloadOf(form))
    ensures r.Some? && mode == EditMode ==> r.value == Update(currentId, PayloadOf(form))
  {
    if ValidateForm(form).Some? then None
    else if mode == CreateMode then Some(Create(PayloadOf(form)))
    else Some(Update(currentId, PayloadOf(form)))
  }

  /** The description cell: `row?.content || ""`, then "-" when empty, else at most 90 characters and "...". */
  function ContentPreview(content: Option<string>): string {
    var text := if content.Some? then content.value else "";
    if text == "" then "-"
    else if |text| > 90 then text[..90] + "..."
    else text
  }

  /** The preview is never empty, never longer than 93 characters, and starts with the text itself
      (or its first 90 characters, followed by "..."). */
  lemma ContentPreviewShape(text: string)
    ensures var p := ContentPreview(Some(text));
            && 1 <= |p| <= 93
            && (text == "" ==> p == "-")
            && (0 < |text| <= 90 ==> p == text)
            && (|text| > 90 ==> |p| == 93 && p[..90] == text[..90] && p[90..] == "...")
    ensures ContentPreview(None) == "-"
  {
    var p := ContentPreview(Some(text));
    if |text| > 90 {
      assert p[..90] == text[..90];
    }
  }
}
