/**
 * The user editor of the admin pages (src/pages/admin/UsersCRUD.jsx): loading a user into the
 * form, the save rules (a password only in create mode, and sent only when typed), and the role
 * column. Missing record fields are "", which the form treats like null.
 */
module UsersCrud {
  import opened Wrappers
  import opened Strings

  datatype UserRow = UserRow(id: nat, fullName: string, name: string, groupName: string, email: string, role: string)

  datatype UserForm = UserForm(fullName: string, groupName: string, email: string, password: string, role: string)

  datatype RoleOption = RoleOption(value: string, caption: string)

  /** `roles`: the options of the role selector. */
  const Roles: seq<RoleOption> := [RoleOption("user", "Пользователь"), RoleOption("admin", "Администратор")]

  /** `resetForm()`: the empty form of create mode. */
  const EmptyForm: UserForm := UserForm("", "", "", "", "user")

  /** `openEdit(row)`: the row's texts, `full_name` falling back to `name`, an empty password and the
      role defaulting to "user". */
  function EditForm(row: UserRow): (f: UserForm)
    ensures row.fullName != "" ==> f.fullName == row.fullName
    ensures row.fullName == "" ==> f.fullName == row.name
    ensures f.groupName == row.groupName && f.email == row.email
    ensures f.password == ""
    ensures f.role != "" && (row.role != "" ==> f.role == row.role)
  {
    UserForm(
      if row.fullName != "" then row.fullName else row.name,
      row.groupName,
      row.email,
      "",
      if row.role != "" then row.role else "user")
  }

  datatype Mode = CreateMode | EditMode

  /** The body sent by `handleSave`; `password` is present only when one was typed. */
  datatype UserPayload = UserPayload(fullName: string, groupName: string, email: string, role: string, password: Option<string>)

  datatype UserRequest = CreateUser(payload: UserPayload) | UpdateUser(id: nat, payload: UserPayload)

  /** The checks before anything is sent: a name and an email, and a password when creating. */
  predicate Accepts(mode: Mode, form: UserForm) {
    !IsBlank(form.fullName) && !IsBlank(form.email) && (mode == CreateMode ==> !IsBlank(form.password))
  }

  /** The payload, trimmed, with the password only when its trimmed text is not empty. */
  function PayloadOf(form: UserForm): UserPayload {
    UserPayload(Trim(form.fullName), Trim(form.groupName), Trim(form.email), form.role,
                if IsBlank(form.password) then None else Some(Trim(form.password)))
  }

  /** `handleSave()`: silent return on a failed check, else a create or an update of `current.id`. */
  method HandleSave(mode: Mode, currentId: nat, form: UserForm) returns (request: Option<UserRequest>)
    ensures request.Some? <==> Accepts(mode, form)
    ensures request.Some? && mode == CreateMode ==> request.value == CreateUser(PayloadOf(form))
    ensures request.Some? && mode == EditMode ==> request.value == UpdateUser(currentId, PayloadOf(form))
  {
    TrimEmptyIffBlank(form.fullName);
    TrimEmptyIffBlank(form.email);
    TrimEmptyIffBlank(form.password);
    if Trim(form.fullName) == "" { return None; }
    if Trim(form.email) == "" { return None; }
    if mode == CreateMode && Trim(form.password) == "" { return None; }
    var payload := UserPayload(Trim(form.fullName), Trim(form.groupName), Trim(form.email), form.role, None);
    if Trim(form.password) != "" {
      payload := payload.(password := Some(Trim(form.password)));
    }
    if mode == CreateMode {
      request := Some(CreateUser(payload));
    } else {
      request := Some(UpdateUser(currentId, payload));
    }
  }

  /** The password travels exactly when one was typed, trimmed; a created user always gets one. */
  lemma PasswordSentIff(mode: Mode, form: UserForm)
    ensures PayloadOf(form).password.Some? <==> Trim(form.password) != ""
    ensures PayloadOf(form).password.Some? ==> PayloadOf(form).password.value == Trim(form.password)
    ensures Accepts(mode, form) && mode == CreateMode ==> PayloadOf(form).password.Some?
  {
    TrimEmptyIffBlank(form.password);
  }

  /** The sent texts are trimmed and the required ones are not empty; the role goes through unchanged. */
  lemma AcceptedPayloadClean(mode: Mode, form: UserForm)
    requires Accepts(mode, form)
    ensures var p := PayloadOf(form);
            && p.fullName != "" && Trim(p.fullName) == p.fullName
            && p.email != "" && Trim(p.email) == p.email
            && Trim(p.groupName) == p.groupName
            && p.role == form.role
  {
    TrimEmptyIffBlank(form.fullName);
    TrimEmptyIffBlank(form.email);
    TrimIdempotent(form.fullName);
    TrimIdempotent(form.email);
    TrimIdempotent(form.groupName);
  }

  /** Opening a user for editing and saving without changes resends the user's own tidy data and never
      touches the password. */
  lemma EditUnchangedRoundTrip(row: UserRow)
    requires !IsBlank(row.fullName) && Trim(row.fullName) == row.fullName
    requires !IsBlank(row.email) && Trim(row.email) == row.email
    requires Trim(row.groupName) == row.groupName
    ensures Accepts(EditMode, EditForm(row))
    ensures PayloadOf(EditForm(row)) ==
              UserPayload(row.fullName, row.groupName, row.email, if row.role != "" then row.role else "user", None)
  {
    assert IsBlank("");
  }

  /** For every row: the edit form never carries a password, so saving it never sends one and never asks
      for one; it is accepted exactly when the shown name (`full_name`, else `name`) and the email are
      not blank; the name sent is the trimmed `name` when `full_name` is missing. */
  lemma EditFormAnyRow(row: UserRow)
    ensures PayloadOf(EditForm(row)).password == None
    ensures PayloadOf(EditForm(row)).role != ""
    ensures Accepts(EditMode, EditForm(row)) <==>
              !IsBlank(if row.fullName != "" then row.fullName else row.name) && !IsBlank(row.email)
    ensures row.fullName == "" ==> PayloadOf(EditForm(row)).fullName == Trim(row.name)
    ensures row.fullName == "" && !IsBlank(row.name) && !IsBlank(row.email) ==> Accepts(EditMode, EditForm(row))
  {
    assert IsBlank("");
  }

  /** The role column: "admin" shows as administrator, anything else as user. */
  function RoleLabel(role: string): string {
    if role == "admin" then "Администратор" else "Пользователь"
  }

  /** The column's labels agree with the role selector's. */
  lemma RoleLabelMatchesOptions()
    ensures forall k :: 0 <= k < |Roles| ==> RoleLabel(Roles[k].value) == Roles[k].caption
  {
  }
}
