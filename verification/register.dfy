/**
 The registration form (`Register`): its three fields, the prioritised per-field rules
 of `validateForm`, and `handleChange`.
 */
module Register {
  import opened Wrappers
  import opened Strings
  import opened Forms

  /** The form's state. */
  datatype RegisterForm = RegisterForm(username: string, password: string, confirmPassword: string)

  /** The three inputs, by their `name` attribute. */
  datatype Field = Username | Password | ConfirmPassword

  function Key(f: Field): string {
    match f
    case Username => "username"
    case Password => "password"
    case ConfirmPassword => "confirmPassword"
  }

  const UsernameTooShort: string := "A felhasználónév legalább 3 karakter hosszú legyen"
  const UsernameBadChars: string := "A felhasználónév csak betűket, számokat és aláhúzást tartalmazhat"
  const PasswordTooShort: string := "A jelszó legalább 6 karakter hosszú legyen"
  const ConfirmRequired: string := "Kérjük, erősítse meg a jelszavát"
  const ConfirmMismatch: string := "A jelszavak nem egyeznek"

  const MinUsernameLength: nat := 3
  const MinPasswordLength: nat := 6

  /** The character class `[a-zA-Z0-9_]`. */
  predicate IsUsernameChar(c: char) {
    ('a' <= c <= 'z') || ('A' <= c <= 'Z') || ('0' <= c <= '9') || c == '_'
  }

  /** `/^[a-zA-Z0-9_]+$/.test(u)`. */
  predicate MatchesUsernamePattern(u: string) {
    |u| > 0 && forall i | 0 <= i < |u| :: IsUsernameChar(u[i])
  }

  /** A name made of pattern characters has nothing for `trim` to remove. */
  lemma PatternNotBlank(u: string)
    ensures MatchesUsernamePattern(u) ==> Trim(u) != ""
  {
    if MatchesUsernamePattern(u) {
      assert !IsJsWhitespace(u[0]);
    }
  }

  /**
   The username rule: required when blank after trimming, else too short under three
   characters, else rejected when a character is outside the pattern. It passes exactly
   when the name has at least three characters, all in `[a-zA-Z0-9_]`.
   */
  function UsernameError(u: string): (r: Option<string>)
    ensures r == Some(UsernameRequired) <==> Trim(u) == ""
    ensures r == Some(UsernameTooShort) <==> Trim(u) != "" && |u| < MinUsernameLength
    ensures r == Some(UsernameBadChars) <==> Trim(u) != "" && |u| >= MinUsernameLength && !MatchesUsernamePattern(u)
    ensures r == None <==> |u| >= MinUsernameLength && MatchesUsernamePattern(u)
  {
    PatternNotBlank(u);
    if Trim(u) == "" then Some(UsernameRequired)
    else if |u| < MinUsernameLength then Some(UsernameTooShort)
    else if !MatchesUsernamePattern(u) then Some(UsernameBadChars)
    else None
  }

  /** The password rule: required when empty, else too short under six characters. */
  function PasswordError(p: string): (r: Option<string>)
    ensures r == Some(PasswordRequired) <==> p == ""
    ensures r == Some(PasswordTooShort) <==> 0 < |p| < MinPasswordLength
    ensures r == None <==> |p| >= MinPasswordLength
  {
    if p == "" then Some(PasswordRequired)
    else if |p| < MinPasswordLength then Some(PasswordTooShort)
    else None
  }

  /** The confirmation rule: required when empty, else it must equal the password. */
  function ConfirmError(p: string, c: string): (r: Option<string>)
    ensures r == Some(ConfirmRequired) <==> c == ""
    ensures r == Some(ConfirmMismatch) <==> c != "" && c != p
    ensures r == None <==> c == p && p != ""
  {
    if c == "" then Some(ConfirmRequired)
    else if p != c then Some(ConfirmMismatch)
    else None
  }

  /** Adds `key: message` when there is a message. */
  function Put(errors: Errors, key: string, e: Option<string>): (r: Errors)
    ensures key in r <==> key in errors || e.Some?
    ensures e.Some? ==> r[key] == e.value
    ensures forall k | k in errors && k != key :: k in r && r[k] == errors[k]
    ensures forall k | k in r && k != key :: k in errors
  {
    if e.Some? then errors[key := e.value] else errors
  }

  /** The outcome of `validateForm`: the error map it stores and the value it returns. */
  datatype Validation = Validation(errors: Errors, valid: bool)

  /** `validateForm`: one entry per failing field, and valid exactly when there is none. */
  function ValidateForm(f: RegisterForm): (v: Validation)
    ensures v.errors.Keys <= {"username", "password", "confirmPassword"}
    ensures "username" in v.errors <==> UsernameError(f.username).Some?
    ensures "password" in v.errors <==> PasswordError(f.password).Some?
    ensures "confirmPassword" in v.errors <==> ConfirmError(f.password, f.confirmPassword).Some?
    ensures UsernameError(f.username).Some? ==> v.errors["username"] == UsernameError(f.username).value
    ensures PasswordError(f.password).Some? ==> v.errors["password"] == PasswordError(f.password).value
    ensures ConfirmError(f.password, f.confirmPassword).Some? ==>
      v.errors["confirmPassword"] == ConfirmError(f.password, f.confirmPassword).value
    ensures v.valid <==> |v.errors| == 0
  {
    var e1 := Put(map[], "username", UsernameError(f.username));
    var e2 := Put(e1, "password", PasswordError(f.password));
    var e3 := Put(e2, "confirmPassword", ConfirmError(f.password, f.confirmPassword));
    Validation(e3, |e3| == 0)
  }

  /**
   The form validates exactly when the username has at least three characters, all
   letters, digits or underscores, the password has at least six characters, and the
   confirmation repeats it.
   */
  lemma ValidIff(f: RegisterForm)
    ensures ValidateForm(f).valid <==>
      && |f.username| >= MinUsernameLength && MatchesUsernamePattern(f.username)
      && |f.password| >= MinPasswordLength
      && f.confirmPassword == f.password
  {
    var e := ValidateForm(f).errors;
    if |e| == 0 {
      assert "username" !in e && "password" !in e && "confirmPassword" !in e;
    } else {
      var k :| k in e;
    }
  }

  /**
   Each error depends only on its own inputs: the username's on the username, the
   password's on the password, the confirmation's on the password and the confirmation.
   */
  lemma ErrorsIndependent(f: RegisterForm, g: RegisterForm)
    ensures f.username == g.username ==> SameEntry(ValidateForm(f).errors, ValidateForm(g).errors, "username")
    ensures f.password == g.password ==> SameEntry(ValidateForm(f).errors, ValidateForm(g).errors, "password")
    ensures f.password == g.password && f.confirmPassword == g.confirmPassword ==>
      SameEntry(ValidateForm(f).errors, ValidateForm(g).errors, "confirmPassword")
  {
  }

  /** Two error maps agree on one key: both lack it, or both hold the same message. */
  predicate SameEntry(a: Errors, b: Errors, key: string) {
    (key in a <==> key in b) && (key in a ==> a[key] == b[key])
  }

  /** The form and its error map. */
  datatype RegisterState = RegisterState(form: RegisterForm, errors: Errors)

  /** `handleChange`: the edited field takes the new value and its shown error is cleared. */
  function HandleChange(s: RegisterState, field: Field, value: string): (r: RegisterState)
    ensures field == Username ==> r.form == s.form.(username := value)
    ensures field == Password ==> r.form == s.form.(password := value)
    ensures field == ConfirmPassword ==> r.form == s.form.(confirmPassword := value)
    ensures !Shown(r.errors, Key(field)) && r.errors.Keys == s.errors.Keys
    ensures forall k | k in s.errors && k != Key(field) :: r.errors[k] == s.errors[k]
  {
    var form := match field
      case Username => s.form.(username := value)
      case Password => s.form.(password := value)
      case ConfirmPassword => s.form.(confirmPassword := value);
    RegisterState(form, ClearError(s.errors, Key(field)))
  }
}
