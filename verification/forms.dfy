/**
 The error map the authentication forms keep (`{[key: string]: string}`) and the way
 their `handleChange` clears the error of the field being edited.
 */
module Forms {

  /** Field name to message; an empty message is stored but shows nothing. */
  type Errors = map<string, string>

  /** Messages both forms use. */
  const UsernameRequired: string := "A felhasználónév megadása kötelező"
  const PasswordRequired: string := "A jelszó megadása kötelező"

  /** `errors[key]` is truthy: the key is present with a non-empty message. */
  predicate Shown(errors: Errors, key: string) {
    key in errors && errors[key] != ""
  }

  /**
   The error half of `handleChange`: a shown error of the edited field is overwritten by
   the empty message (the key stays); every other entry, and a field without a shown
   error, is left as it was.
   */
  function ClearError(errors: Errors, key: string): (r: Errors)
    ensures !Shown(r, key)
    ensures r.Keys == errors.Keys
    ensures forall k | k in errors && k != key :: r[k] == errors[k]
    ensures !Shown(errors, key) ==> r == errors
  {
    if Shown(errors, key) then errors[key := ""] else errors
  }

  /** Clearing is idempotent, and clearing one field never hides or shows another field's error. */
  lemma ClearErrorIdempotent(errors: Errors, key: string, other: string)
    requires other != key
    ensures ClearError(ClearError(errors, key), key) == ClearError(errors, key)
    ensures Shown(ClearError(errors, key), other) <==> Shown(errors, other)
  {
  }
}
