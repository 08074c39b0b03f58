/** The checks `handleRegister` makes on the teacher registration form
    before it sends the request. */
module Registration {
  import opened Text

  const MinPasswordLength: nat := 6

  /** "Passwords do not match!", "Password must be at least 6 characters",
      or the request to `/teacher/register` with these fields. */
  datatype RegisterStep =
    | PasswordsDoNotMatch
    | PasswordTooShort
    | RegisterRequest(name: string, email: string, password: string)

  /** `handleRegister` up to the request. */
  function HandleRegister(name: string, email: string, password: string, confirmPassword: string): (r: RegisterStep)
    ensures r.PasswordsDoNotMatch? <==> password != confirmPassword
    ensures r.PasswordTooShort? <==> password == confirmPassword && JsLength(password) < MinPasswordLength
    ensures r.RegisterRequest? <==> password == confirmPassword && JsLength(password) >= MinPasswordLength
    ensures r.RegisterRequest? ==> r == RegisterRequest(name, email, password)
  {
    if password != confirmPassword then PasswordsDoNotMatch
    else if JsLength(password) < MinPasswordLength then PasswordTooShort
    else RegisterRequest(name, email, password)
  }

  /** The mismatch check comes first: a short pair that does not match is
      reported as a mismatch. */
  lemma MismatchTakesPrecedence(name: string, email: string, password: string, confirmPassword: string)
    requires password != confirmPassword
    requires JsLength(password) < MinPasswordLength
    ensures HandleRegister(name, email, password, confirmPassword) == PasswordsDoNotMatch
  {
  }

  /** Any matching password of six or more characters passes, whatever the
      characters are. */
  lemma SixCharactersSuffice(name: string, email: string, password: string)
    requires |password| >= 6
    ensures HandleRegister(name, email, password, password).RegisterRequest?
  {
  }
}
