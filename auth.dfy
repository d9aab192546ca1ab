/**
 * The early-return checks of the sign-up and sign-in form handlers, and
 * what each handler then does: show an error toast, or hand the form to
 * the auth provider.
 */
module Auth {
  import opened Wrappers
  import opened Text

  /** `formData`. */
  datatype Form = Form(email: string, password: string, displayName: string)

  const FillInAllFields: string := "Please fill in all fields"
  const PasswordTooShort: string := "Password must be at least 6 characters"
  const MinPasswordLength: nat := 6

  /** What a submit ends in: a toast with a message, or a call to the auth provider. */
  datatype Outcome =
    | Toast(message: string)
    | CallSignUp(email: string, password: string, displayName: string)
    | CallSignIn(email: string, password: string)

  /**
   * The sign-up checks, in order: both email and password present, then a
   * password of at least six UTF-16 code units. `None` means the form passes.
   * The display name is not looked at.
   */
  function ValidateSignUp(f: Form): (err: Option<string>)
    ensures err.None? <==> f.email != "" && Utf16Length(f.password) >= MinPasswordLength
    ensures err.Some? && (f.email == "" || f.password == "") ==> err.value == FillInAllFields
    ensures err.Some? && f.email != "" && f.password != "" ==> err.value == PasswordTooShort
  {
    if f.email == "" || f.password == "" then Some(FillInAllFields)
    else if Utf16Length(f.password) < MinPasswordLength then Some(PasswordTooShort)
    else None
  }

  /** The sign-in check: both fields present, with no rule on the password's length. */
  function ValidateSignIn(f: Form): (err: Option<string>)
    ensures err.None? <==> f.email != "" && f.password != ""
    ensures err.Some? ==> err.value == FillInAllFields
  {
    if f.email == "" || f.password == "" then Some(FillInAllFields) else None
  }

  /** `handleSignUp`: a failed check shows its message; a passing form goes to `signUp`. */
  function HandleSignUp(f: Form): (o: Outcome)
    ensures o.Toast? <==> ValidateSignUp(f).Some?
    ensures o.Toast? ==> o.message == ValidateSignUp(f).value
    ensures !o.Toast? ==> o == CallSignUp(f.email, f.password, f.displayName)
  {
    match ValidateSignUp(f)
    case Some(message) => Toast(message)
    case None => CallSignUp(f.email, f.password, f.displayName)
  }

  /** `handleSignIn`: a failed check shows its message; a passing form goes to `signIn`. */
  function HandleSignIn(f: Form): (o: Outcome)
    ensures o.Toast? <==> ValidateSignIn(f).Some?
    ensures o.Toast? ==> o.message == ValidateSignIn(f).value
    ensures !o.Toast? ==> o == CallSignIn(f.email, f.password)
  {
    match ValidateSignIn(f)
    case Some(message) => Toast(message)
    case None => CallSignIn(f.email, f.password)
  }

  /** A missing field is reported as such, even when the password is also too short. */
  lemma EmptyFieldTakesPrecedence(f: Form)
    requires f.email == "" || f.password == ""
    ensures HandleSignUp(f) == Toast(FillInAllFields)
    ensures HandleSignIn(f) == Toast(FillInAllFields)
  {
  }

  /** A password of exactly six characters, none above U+FFFF, is long enough. */
  lemma SixCharactersAreEnough(f: Form)
    requires f.email != "" && |f.password| == 6
    requires forall i :: 0 <= i < |f.password| ==> f.password[i] as int < 0x1_0000
    ensures HandleSignUp(f) == CallSignUp(f.email, f.password, f.displayName)
  {
    Utf16LengthBmp(f.password);
  }

  /** Fewer than six code units are refused with the length message. */
  lemma ShortPasswordRefused(f: Form)
    requires f.email != "" && f.password != "" && Utf16Length(f.password) < MinPasswordLength
    ensures HandleSignUp(f) == Toast(PasswordTooShort)
  {
  }

  /** The display name never decides the outcome, and may be empty. */
  lemma DisplayNameIgnored(f: Form, name: string)
    ensures ValidateSignUp(f.(displayName := name)) == ValidateSignUp(f)
    ensures HandleSignUp(f.(displayName := name)).Toast? == HandleSignUp(f).Toast?
  {
  }

  /** Sign-in has no length rule: any non-empty password gets through. */
  lemma SignInHasNoLengthRule(f: Form)
    requires f.email != "" && f.password != ""
    ensures HandleSignIn(f) == CallSignIn(f.email, f.password)
  {
  }

  /** Whatever sign-up accepts, sign-in accepts too. */
  lemma SignUpStricterThanSignIn(f: Form)
    ensures ValidateSignUp(f).None? ==> ValidateSignIn(f).None?
  {
  }

  /** Only complete forms reach the provider, with exactly the fields that were checked. */
  lemma OnlyValidFormsReachProvider(f: Form)
    ensures HandleSignUp(f).CallSignUp? ==> f.email != "" && f.password != "" && Utf16Length(f.password) >= 6
    ensures HandleSignIn(f).CallSignIn? ==> f.email != "" && f.password != ""
  {
  }
}
