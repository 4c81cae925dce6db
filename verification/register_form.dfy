/**
 * The registration page of the client: its two password checks, the body it
 * posts, and how its error state reacts to edits. The page has the same four
 * inputs as the user modal, so it shares that modal's form record.
 *
 * Messages are lists, as the server sends them; editing an input sets its
 * entry to `null`, written `None` here.
 */
module RegisterForm {
  import opened Wrappers
  import Text
  import FormErrors
  import UserForm

  const MismatchMessage := "Пароли не совпадают"
  const ShortMessage := "Пароль должен содержать минимум 6 символов"

  /** `validateForm`: a confirmation that differs, and a password shorter than 6 code units; both can be reported at once. */
  function Validate(f: UserForm.Form): (errors: FormErrors.Errors<seq<string>>)
    ensures "password_confirmation" in errors <==> f.password != f.confirmation
    ensures "password" in errors <==> Text.Utf16Length(f.password) < 6
    ensures errors.Keys <= {"password", "password_confirmation"}
    ensures forall k :: k in errors ==> |errors[k]| == 1
  {
    var e1 := if f.password != f.confirmation then map["password_confirmation" := [MismatchMessage]] else map[];
    if Text.Utf16Length(f.password) < 6 then e1["password" := [ShortMessage]] else e1
  }

  /** The page registers exactly when `validateForm` recorded nothing. */
  function IsValid(f: UserForm.Form): (ok: bool)
    ensures ok <==> f.password == f.confirmation && Text.Utf16Length(f.password) >= 6
  {
    Validate(f) == map[]
  }

  /** A short, mismatched password is reported on both inputs at once. */
  lemma BothErrorsTogether()
    ensures Validate(UserForm.Form("", "", "abc", "abd")).Keys == {"password", "password_confirmation"}
  {
    assert Text.Utf16Length("abc") == 3 by {
      assert "abc"[1..] == "bc" && "bc"[1..] == "c" && "c"[1..] == "";
    }
  }

  /** For a new user the page and the user modal raise the same password messages' keys. */
  lemma AgreesWithNewUserOnPasswords(f: UserForm.Form)
    ensures ("password" in Validate(f)) == ("password" in UserForm.Validate(f, false))
    ensures ("password_confirmation" in Validate(f)) == ("password_confirmation" in UserForm.Validate(f, false))
  {
  }

  /** The page leaves name and e-mail to the server: a blank name and a bare word as e-mail pass its checks. */
  lemma NameAndEmailUnchecked()
    ensures IsValid(UserForm.Form("", "x", "secret", "secret"))
    ensures !UserForm.IsValid(UserForm.Form("", "x", "secret", "secret"), false)
  {
    var p := "secret";
    assert Text.Utf16Length(p[5..]) == 1;
    assert Text.Utf16Length(p[4..]) == 2;
    assert Text.Utf16Length(p[3..]) == 3;
    assert Text.Utf16Length(p[2..]) == 4;
    assert Text.Utf16Length(p[1..]) == 5;
  }

  /** The body posted to the register endpoint: name, e-mail and password; the confirmation is never sent. */
  function Payload(f: UserForm.Form): (body: map<string, string>)
    ensures body.Keys == {"name", "email", "password"}
    ensures body["name"] == f.name && body["email"] == f.email && body["password"] == f.password
  {
    map["name" := f.name, "email" := f.email, "password" := f.password]
  }

  /** The error state after `validateForm`: each message list, present. */
  function Reported(errors: FormErrors.Errors<seq<string>>): (r: FormErrors.Errors<Option<seq<string>>>)
    ensures r.Keys == errors.Keys
    ensures forall k :: k in r ==> r[k] == Some(errors[k])
  {
    map k | k in errors :: Some(errors[k])
  }

  /** A present list, even an empty one, is truthy. */
  predicate Present(m: Option<seq<string>>) {
    m.Some?
  }

  /** `handleChange`: store the typed text and null that input's messages. */
  function HandleChange(f: UserForm.Form, errors: FormErrors.Errors<Option<seq<string>>>, field: UserForm.Field, value: string)
    : (r: (UserForm.Form, FormErrors.Errors<Option<seq<string>>>))
    ensures UserForm.Get(r.0, field) == value
    ensures forall g: UserForm.Field :: g != field ==> UserForm.Get(r.0, g) == UserForm.Get(f, g)
    ensures FormErrors.Showing(r.1, Present) == FormErrors.Showing(errors, Present) - {field.Key()}
    ensures r.1.Keys == errors.Keys
  {
    var cleared := FormErrors.ClearError(errors, field.Key(), Present, None);
    FormErrors.ClearErrorHidesOnlyThatField(errors, field.Key(), Present, None);
    (UserForm.HandleChange(f, map[], field, value).0, cleared)
  }

  /** After a failed check, editing the password hides its message and keeps the confirmation's. */
  lemma EditingPasswordKeepsMismatchShown(f: UserForm.Form, value: string)
    requires f.password != f.confirmation
    ensures "password_confirmation" in FormErrors.Showing(HandleChange(f, Reported(Validate(f)), UserForm.PasswordField, value).1, Present)
  {
  }
}
