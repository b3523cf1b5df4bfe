/**
 The login form (`Login`): two fields, the non-empty checks of `validateForm`, and
 `handleChange`.
 */
module Login {
  import opened Strings
  import opened Forms

  /** The form's state. */
  datatype LoginForm = LoginForm(username: string, password: string)

  /** The two inputs, by their `name` attribute. */
  datatype Field = Username | Password

  function Key(f: Field): string {
    match f
    case Username => "username"
    case Password => "password"
  }

  /** The outcome of `validateForm`: the error map it stores and the value it returns. */
  datatype Validation = Validation(errors: Errors, valid: bool)

  /**
   `validateForm`: the username is required unless something but whitespace is typed,
   the password unless it is non-empty; valid exactly when the map stays empty.
   */
  function ValidateForm(f: LoginForm): (v: Validation)
    ensures v.errors.Keys <= {"username", "password"}
    ensures "username" in v.errors <==> Trim(f.username) == ""
    ensures "password" in v.errors <==> f.password == ""
    ensures "username" in v.errors ==> v.errors["username"] == UsernameRequired
    ensures "password" in v.errors ==> v.errors["password"] == PasswordRequired
    ensures v.valid <==> |v.errors| == 0
  {
    var e1: Errors := if Trim(f.username) == "" then map["username" := UsernameRequired] else map[];
    var e2 := if f.password == "" then e1["password" := PasswordRequired] else e1;
    Validation(e2, |e2| == 0)
  }

  /**
   The form validates exactly when the username has a non-whitespace character and the
   password is not empty; there is no length or character check, so a password of
   spaces is accepted.
   */
  lemma ValidIff(f: LoginForm)
    ensures ValidateForm(f).valid <==> !AllWhitespace(f.username) && f.password != ""
  {
    var e := ValidateForm(f).errors;
    if |e| == 0 {
      assert "username" !in e && "password" !in e;
    } else {
      var k :| k in e;
    }
  }

  /** The form and its error map. */
  datatype LoginState = LoginState(form: LoginForm, errors: Errors)

  /** `handleChange`: the edited field takes the new value and its shown error is cleared. */
  function HandleChange(s: LoginState, field: Field, value: string): (r: LoginState)
    ensures field == Username ==> r.form == s.form.(username := value)
    ensures field == Password ==> r.form == s.form.(password := value)
    ensures !Shown(r.errors, Key(field)) && r.errors.Keys == s.errors.Keys
    ensures forall k | k in s.errors && k != Key(field) :: r.errors[k] == s.errors[k]
  {
    var form := match field
      case Username => s.form.(username := value)
      case Password => s.form.(password := value);
    LoginState(form, ClearError(s.errors, Key(field)))
  }

  /** After a failed validation, editing a field hides its error while the other field's error stays. */
  lemma EditHidesOnlyItsError(f: LoginForm, field: Field, value: string)
    requires !ValidateForm(f).valid
    ensures var r := HandleChange(LoginState(f, ValidateForm(f).errors), field, value);
      && !Shown(r.errors, Key(field))
      && forall k | k in {"username", "password"} && k != Key(field) ::
           Shown(r.errors, k) <==> Shown(ValidateForm(f).errors, k)
  {
  }
}
