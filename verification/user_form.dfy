/**
 * The user modal of the client: the checks before saving a new or an edited
 * user, the e-mail pattern `^[^\s@]+@[^\s@]+\.[^\s@]+$`, the body it sends and
 * the avatar initial it shows.
 */
module UserForm {
  import opened Wrappers
  import Text
  import FormErrors

  datatype Form = Form(name: string, email: string, password: string, confirmation: string)

  const InitialForm := Form("", "", "", "")

  const NameMessage := "Имя обязательно"
  const EmailRequiredMessage := "Email обязателен"
  const EmailInvalidMessage := "Некорректный email"
  const PasswordRequiredMessage := "Пароль обязателен"
  const PasswordShortMessage := "Пароль должен содержать минимум 6 символов"
  const MismatchMessage := "Пароли не совпадают"

  /** The class `[^\\s@]`: neither JavaScript whitespace nor `@`. */
  predicate Plain(c: char) {
    !Text.IsJsSpace(c) && c != '@'
  }

  /**
   * `s` matches the pattern with its `@` at `i` and the separating `.` at `j`:
   * a non-empty run before the `@`, a non-empty run between it and the `.`,
   * a non-empty run after the `.`, and no other `@` or whitespace anywhere.
   */
  predicate EmailSplit(s: string, i: int, j: int) {
    && 0 < i && i + 1 < j && j + 1 < |s|
    && s[i] == '@' && s[j] == '.'
    && forall m :: 0 <= m < |s| && m != i ==> Plain(s[m])
  }

  /** The regular expression the modal tests the e-mail with; the regex backtracks over every split. */
  predicate EmailPattern(s: string) {
    exists i, j :: 0 < i < |s| && 0 < j < |s| && EmailSplit(s, i, j)
  }

  /** Whitespace anywhere rules the pattern out. */
  lemma SpaceRulesOut(s: string, k: int)
    requires 0 <= k < |s| && Text.IsJsSpace(s[k])
    ensures !EmailPattern(s)
  {
    forall i, j | 0 <= i < |s| && s[i] == '@'
      ensures !EmailSplit(s, i, j)
    {
      assert k != i;
    }
  }

  /** A second `@` rules the pattern out. */
  lemma SecondAtRulesOut(s: string, a: int, b: int)
    requires 0 <= a < b < |s| && s[a] == '@' && s[b] == '@'
    ensures !EmailPattern(s)
  {
    forall i, j | 0 <= i < |s|
      ensures !EmailSplit(s, i, j)
    {
      assert a != i || b != i;
    }
  }

  /**
   * After a whole scan without whitespace or a second `@`, the pattern holds
   * exactly when the `@` is not first and the first `.` past the character
   * after it is not last.
   */
  lemma ScanDecides(s: string, at: int, dot: int)
    requires 0 <= at < |s| && s[at] == '@'
    requires forall m :: 0 <= m < |s| && m != at ==> Plain(s[m])
    requires dot == -1 || (at + 1 < dot < |s| && s[dot] == '.')
    requires forall j :: at + 1 < j < |s| && (dot == -1 || j < dot) ==> s[j] != '.'
    ensures (0 < at && dot != -1 && dot + 1 < |s|) <==> EmailPattern(s)
  {
    if 0 < at && dot != -1 && dot + 1 < |s| {
      assert EmailSplit(s, at, dot);
    }
    if EmailPattern(s) {
      var i, j :| 0 < i < |s| && 0 < j < |s| && EmailSplit(s, i, j);
      assert !Plain(s[i]);
      assert i == at;
      assert dot != -1 && dot <= j;
    }
  }

  /** Without any `@` the pattern cannot hold. */
  lemma NoAtRulesOut(s: string)
    requires forall m :: 0 <= m < |s| ==> Plain(s[m])
    ensures !EmailPattern(s)
  {
    forall i, j | 0 <= i < |s|
      ensures !EmailSplit(s, i, j)
    {
      assert Plain(s[i]);
    }
  }

  /**
   * The pattern test in one left-to-right pass: remember the `@` and the first
   * `.` that can end the middle run, and stop at whitespace or a second `@`.
   */
  method CheckEmail(s: string) returns (ok: bool)
    ensures ok <==> EmailPattern(s)
  {
    var at := -1;
    var dot := -1;
    var k := 0;
    while k < |s|
      invariant 0 <= k <= |s|
      invariant at == -1 ==> dot == -1 && forall m :: 0 <= m < k ==> Plain(s[m])
      invariant at != -1 ==> 0 <= at < k && s[at] == '@' && forall m :: 0 <= m < k && m != at ==> Plain(s[m])
      invariant dot != -1 ==> at != -1 && at + 1 < dot < k && s[dot] == '.'
      invariant at != -1 ==> forall j :: at + 1 < j < k && (dot == -1 || j < dot) ==> s[j] != '.'
    {
      if Text.IsJsSpace(s[k]) {
        SpaceRulesOut(s, k);
        return false;
      }
      if s[k] == '@' {
        if at != -1 {
          SecondAtRulesOut(s, at, k);
          return false;
        }
        at := k;
      } else if s[k] == '.' && at != -1 && dot == -1 && at + 1 < k {
        dot := k;
      }
      k := k + 1;
    }
    if at == -1 {
      NoAtRulesOut(s);
      ok := false;
    } else {
      ScanDecides(s, at, dot);
      ok := 0 < at && dot != -1 && dot + 1 < |s|;
    }
  }

  /** An ordinary address matches; an empty run between the `@` and the `.` does not. */
  lemma EmailExamples()
    ensures EmailPattern("a@b.c")
    ensures !EmailPattern("a@.c")
  {
    assert EmailSplit("a@b.c", 1, 3);
  }

  /** A blank e-mail never matches, so the "required" message is the pattern's first case. */
  lemma BlankEmailFailsPattern(s: string)
    requires Text.Trim(s) == []
    ensures !EmailPattern(s)
  {
    Text.TrimEmptyIff(s);
    if s != [] {
      SpaceRulesOut(s, 0);
    }
  }

  /** The password checks run for a new user, and for an edited one only when a password is typed. */
  predicate PasswordChecked(f: Form, editing: bool) {
    !editing || f.password != ""
  }

  /** The e-mail's message: "required" when blank, "invalid" when it does not match, none otherwise. */
  function EmailMessage(email: string): (m: Option<string>)
    ensures m.None? <==> EmailPattern(email)
    ensures m.Some? ==> FormErrors.Shown(m.value)
    ensures m.Some? ==> m.value == if Text.Trim(email) == [] then EmailRequiredMessage else EmailInvalidMessage
  {
    if Text.Trim(email) == [] then
      BlankEmailFailsPattern(email);
      Some(EmailRequiredMessage)
    else if !EmailPattern(email) then Some(EmailInvalidMessage)
    else None
  }

  /** The password's message: missing for a new user, or shorter than 6 code units. */
  function PasswordMessage(f: Form, editing: bool): (m: Option<string>)
    ensures m.Some? <==> (!editing && f.password == "") || (f.password != "" && Text.Utf16Length(f.password) < 6)
    ensures m.Some? ==> FormErrors.Shown(m.value)
  {
    if !PasswordChecked(f, editing) then None
    else if f.password == "" then (if !editing then Some(PasswordRequiredMessage) else None)
    else if Text.Utf16Length(f.password) < 6 then Some(PasswordShortMessage)
    else None
  }

  /** The error object `validate` builds from the message, if any, of each field. */
  function Messages(name: Option<string>, email: Option<string>, password: Option<string>, confirmation: Option<string>)
    : (errors: FormErrors.Errors<string>)
    ensures "name" in errors <==> name.Some?
    ensures "email" in errors <==> email.Some?
    ensures "password" in errors <==> password.Some?
    ensures "password_confirmation" in errors <==> confirmation.Some?
    ensures email.Some? ==> errors["email"] == email.value
    ensures errors.Keys <= {"name", "email", "password", "password_confirmation"}
    ensures (&& (name.Some? ==> FormErrors.Shown(name.value)) && (email.Some? ==> FormErrors.Shown(email.value))
             && (password.Some? ==> FormErrors.Shown(password.value))
             && (confirmation.Some? ==> FormErrors.Shown(confirmation.value))) ==>
            forall k :: k in errors ==> FormErrors.Shown(errors[k])
  {
    var e1 := if name.Some? then map["name" := name.value] else map[];
    var e2 := if email.Some? then e1["email" := email.value] else e1;
    var e3 := if password.Some? then e2["password" := password.value] else e2;
    if confirmation.Some? then e3["password_confirmation" := confirmation.value] else e3
  }

  /**
   * `validate`: a blank name, a blank or malformed e-mail, a missing password
   * for a new user, a password shorter than 6 code units, and a confirmation
   * that differs while the password checks run.
   */
  function Validate(f: Form, editing: bool): (errors: FormErrors.Errors<string>)
    ensures "name" in errors <==> Text.Trim(f.name) == []
    ensures "email" in errors <==> !EmailPattern(f.email)
    ensures "email" in errors ==>
              errors["email"] == if Text.Trim(f.email) == [] then EmailRequiredMessage else EmailInvalidMessage
    ensures "password" in errors <==>
              (!editing && f.password == "") || (f.password != "" && Text.Utf16Length(f.password) < 6)
    ensures "password_confirmation" in errors <==> PasswordChecked(f, editing) && f.password != f.confirmation
    ensures errors.Keys <= {"name", "email", "password", "password_confirmation"}
    ensures forall k :: k in errors ==> FormErrors.Shown(errors[k])
  {
    var name := if Text.Trim(f.name) == [] then Some(NameMessage) else None;
    var email := EmailMessage(f.email);
    var password := PasswordMessage(f, editing);
    var confirmation := if PasswordChecked(f, editing) && f.password != f.confirmation then Some(MismatchMessage) else None;
    assert name.Some? ==> FormErrors.Shown(name.value);
    assert confirmation.Some? ==> FormErrors.Shown(confirmation.value);
    Messages(name, email, password, confirmation)
  }

  /** The form may be saved exactly when `validate` recorded no message. */
  function IsValid(f: Form, editing: bool): (ok: bool)
    ensures ok <==> (&& Text.Trim(f.name) != [] && EmailPattern(f.email)
                     && (PasswordChecked(f, editing) ==> Text.Utf16Length(f.password) >= 6 && f.password == f.confirmation))
  {
    Validate(f, editing) == map[]
  }

  /** Editing with an empty password skips every password check, even against a typed confirmation. */
  lemma EmptyPasswordSkipsChecksWhenEditing(f: Form)
    requires f.password == ""
    ensures "password" !in Validate(f, true) && "password_confirmation" !in Validate(f, true)
  {
  }

  /** The body `handleSubmit` sends: name and e-mail as typed, and both password fields only when a password is typed. */
  function Payload(f: Form): (body: map<string, string>)
    ensures "name" in body && body["name"] == f.name
    ensures "email" in body && body["email"] == f.email
    ensures "password" in body <==> f.password != ""
    ensures "password_confirmation" in body <==> f.password != ""
    ensures f.password != "" ==> body["password"] == f.password && body["password_confirmation"] == f.confirmation
    ensures forall k :: k in body ==> k in {"name", "email", "password", "password_confirmation"}
  {
    var body := map["name" := f.name, "email" := f.email];
    if f.password != "" then body["password" := f.password]["password_confirmation" := f.confirmation] else body
  }

  /** A new user that passes the checks is always sent with a password of at least 6 units and a matching confirmation. */
  lemma ValidNewUserSendsPassword(f: Form)
    requires IsValid(f, false)
    ensures var body := Payload(f);
            "password" in body && Text.Utf16Length(body["password"]) >= 6 &&
            body["password_confirmation"] == body["password"]
  {
  }

  /** An edited user saved with an empty password is sent without password fields, whatever the confirmation holds. */
  lemma EditWithoutPasswordSendsNoPassword(f: Form)
    requires f.password == ""
    ensures Payload(f).Keys == {"name", "email"}
  {
  }

  /** The form an edited user opens with: stored name and e-mail (missing ones empty), both password inputs empty. */
  function Prefill(name: Option<string>, email: Option<string>): (f: Form)
    ensures f.password == "" && f.confirmation == ""
    ensures f.name == (if name.Some? then name.value else "") && f.email == (if email.Some? then email.value else "")
  {
    Form(name.GetOr(""), email.GetOr(""), "", "")
  }

  /** Saving an opened user without touching the password raises no password message and sends no password. */
  lemma PrefilledUserKeepsPassword(name: Option<string>, email: Option<string>)
    ensures var f := Prefill(name, email);
            "password" !in Validate(f, true) && "password_confirmation" !in Validate(f, true) &&
            Payload(f).Keys == {"name", "email"}
  {
    var f := Prefill(name, email);
    EmptyPasswordSkipsChecksWhenEditing(f);
    EditWithoutPasswordSendsNoPassword(f);
  }

  /** A password of three characters outside the Basic Multilingual Plane is long enough: JavaScript counts six units. */
  lemma AstralPasswordCountsDouble()
    ensures "password" !in Validate(Form("a", "a@b.c", "\U{1F600}\U{1F600}\U{1F600}", "\U{1F600}\U{1F600}\U{1F600}"), false)
  {
    var p := "\U{1F600}\U{1F600}\U{1F600}";
    assert Text.Utf16Length(p[2..]) == 2;
    assert Text.Utf16Length(p[1..]) == 4;
  }

  /**
   * `getUserInitial`: the upper-cased first character of the name, else of
   * the e-mail, else `U`.
   */
  function Initial(f: Form): (c: char)
    ensures f.name != "" ==> c == Text.UpperChar(f.name[0])
    ensures f.name == "" && f.email != "" ==> c == Text.UpperChar(f.email[0])
    ensures f.name == "" && f.email == "" ==> c == 'U'
    ensures !('a' <= c <= 'z')
  {
    if f.name != "" then Text.UpperChar(f.name[0])
    else if f.email != "" then Text.UpperChar(f.email[0])
    else 'U'
  }

  /** The four inputs, by their `name` attribute. */
  datatype Field = NameField | EmailField | PasswordField | ConfirmationField {
    function Key(): string {
      match this
      case NameField => "name"
      case EmailField => "email"
      case PasswordField => "password"
      case ConfirmationField => "password_confirmation"
    }
  }

  function Get(f: Form, field: Field): string {
    match field
    case NameField => f.name
    case EmailField => f.email
    case PasswordField => f.password
    case ConfirmationField => f.confirmation
  }

  /** `handleChange`: store the typed text and blank that input's message. */
  function HandleChange(f: Form, errors: FormErrors.Errors<string>, field: Field, value: string)
    : (r: (Form, FormErrors.Errors<string>))
    ensures Get(r.0, field) == value
    ensures forall g: Field :: g != field ==> Get(r.0, g) == Get(f, g)
    ensures r.1.Keys == errors.Keys
    ensures FormErrors.Showing(r.1, FormErrors.Shown) == FormErrors.Showing(errors, FormErrors.Shown) - {field.Key()}
  {
    FormErrors.ClearErrorHidesOnlyThatField(errors, field.Key(), FormErrors.Shown, "");
    var g := match field
      case NameField => f.(name := value)
      case EmailField => f.(email := value)
      case PasswordField => f.(password := value)
      case ConfirmationField => f.(confirmation := value);
    (g, FormErrors.ClearError(errors, field.Key(), FormErrors.Shown, ""))
  }
}
