/** The registration form's checks before it calls `register`. */
module RegisterPage {
  import UsersService

  datatype Form = Form(username: string, email: string, password: string, confirmPassword: string)

  /** What submitting the form does: show an error and stop, or call `register`. */
  datatype Outcome = Rejected(message: string) | Register(name: string, email: string, password: string)

  const FillAllFields: string := "Please fill in all fields"
  const PasswordsDiffer: string := "Passwords do not match"
  const PasswordTooShort: string := "Password must be at least 6 characters"

  /** The shortest password the form accepts, in UTF-16 code units. */
  const MinPasswordLength: nat := 6

  /** JavaScript's `length` of a string: its UTF-16 code units, two for a character above
      U+FFFF (a surrogate pair) and one for any other. */
  function Utf16Length(s: string): (n: nat)
    ensures s == [] <==> n == 0
  {
    if s == [] then 0 else Utf16Length(s[..|s| - 1]) + (if s[|s| - 1] as int > 0xFFFF then 2 else 1)
  }

  /** A string has at least as many UTF-16 code units as characters. */
  lemma {:induction false} CharactersBoundUtf16(s: string)
    ensures |s| <= Utf16Length(s) <= 2 * |s|
  {
    if s != [] {
      CharactersBoundUtf16(s[..|s| - 1]);
    }
  }

  /** `handleSubmit`: the first failing check, in the order emptiness, confirmation, length,
      decides the message; `register` is called only when all three pass. */
  function HandleSubmit(f: Form): (o: Outcome)
    ensures (f.username == "" || f.email == "" || f.password == "" || f.confirmPassword == "") ==>
      o == Rejected(FillAllFields)
    ensures (f.username != "" && f.email != "" && f.password != "" && f.confirmPassword != "" &&
             f.password != f.confirmPassword) ==> o == Rejected(PasswordsDiffer)
    ensures (f.username != "" && f.email != "" && f.password != "" && f.password == f.confirmPassword &&
             Utf16Length(f.password) < MinPasswordLength) ==> o == Rejected(PasswordTooShort)
    ensures o.Register? <==>
      f.username != "" && f.email != "" && f.password == f.confirmPassword && Utf16Length(f.password) >= MinPasswordLength
    ensures o.Register? ==> o == Register(f.username, f.email, f.password)
  {
    if f.username == "" || f.email == "" || f.password == "" || f.confirmPassword == "" then
      Rejected(FillAllFields)
    else if f.password != f.confirmPassword then
      Rejected(PasswordsDiffer)
    else if Utf16Length(f.password) < MinPasswordLength then
      Rejected(PasswordTooShort)
    else
      Register(f.username, f.email, f.password)
  }

  /** The backend's minimum (6 characters, where `MinLength` counts a surrogate pair once and
      leaves out the variation selectors U+FE0E and U+FE0F, so `|s|` bounds its count from above)
      is never refused by the form: a password the backend accepts passes the form's length
      check too. */
  lemma BackendMinimumPassesForm(f: Form)
    requires f.username != "" && f.email != "" && f.password == f.confirmPassword
    requires |f.password| >= UsersService.MinPasswordLength
    ensures HandleSubmit(f) == Register(f.username, f.email, f.password)
  {
    CharactersBoundUtf16(f.password);
  }

  /** The converse fails: three characters above U+FFFF make six UTF-16 code units, so the form
      submits a password of three characters, which the backend's minimum of six refuses. */
  lemma FormAdmitsShortPassword()
    ensures var f := Form("u", "e", "\U{1F600}\U{1F600}\U{1F600}", "\U{1F600}\U{1F600}\U{1F600}");
      HandleSubmit(f).Register? && |HandleSubmit(f).password| < UsersService.MinPasswordLength
  {
    var p := "\U{1F600}\U{1F600}\U{1F600}";
    assert p[..2][..1] == p[..1];
    assert Utf16Length(p) == 6;
  }
}
