/** The validation chain of the registration screen (`handleRegister`): four
    checks run in order and the first failing one is reported; when all pass,
    sign-up receives the trimmed username and e-mail and the password as
    typed. The alert dialogs and the asynchronous sign-up call are outside the
    model: the outcome names the message shown or the arguments passed. */
module RegisterScreen {
  import opened Text

  const MinUsernameLength: nat := 3
  const MinPasswordLength: nat := 8

  datatype RegisterError =
    | MissingFields     // "Por favor completa todos los campos"
    | ShortUsername     // "El username debe tener al menos 3 caracteres"
    | PasswordMismatch  // "Las contraseñas no coinciden"
    | ShortPassword     // "La contraseña debe tener al menos 8 caracteres"

  datatype RegisterOutcome =
    | Rejected(error: RegisterError)
    | SignUp(username: string, email: string, password: string)

  /** A field counts as filled when something other than white space was typed. */
  predicate Filled(field: string) {
    Trim(field) != ""
  }

  /** The four checks, each read on its own. */
  predicate AllFilled(username: string, email: string, password: string, confirmation: string) {
    Filled(username) && Filled(email) && Filled(password) && Filled(confirmation)
  }

  predicate UsernameLongEnough(username: string) {
    Utf16Length(Trim(username)) >= MinUsernameLength
  }

  predicate PasswordLongEnough(password: string) {
    Utf16Length(password) >= MinPasswordLength
  }

  /** `handleRegister`: the first failing check, or the sign-up arguments. */
  function HandleRegister(username: string, email: string, password: string, confirmation: string): (r: RegisterOutcome)
    ensures r.SignUp? <==>
      && AllFilled(username, email, password, confirmation)
      && UsernameLongEnough(username)
      && password == confirmation
      && PasswordLongEnough(password)
    ensures r.SignUp? ==> r == SignUp(Trim(username), Trim(email), password)
  {
    if !Filled(username) || !Filled(email) || !Filled(password) || !Filled(confirmation) then Rejected(MissingFields)
    else if Utf16Length(Trim(username)) < MinUsernameLength then Rejected(ShortUsername)
    else if password != confirmation then Rejected(PasswordMismatch)
    else if Utf16Length(password) < MinPasswordLength then Rejected(ShortPassword)
    else SignUp(Trim(username), Trim(email), password)
  }

  /** The reported error is the first check that fails: each error is shown
      exactly when its own check fails and every earlier check passes. */
  lemma FirstFailureWins(username: string, email: string, password: string, confirmation: string)
    ensures var r := HandleRegister(username, email, password, confirmation);
      && (r == Rejected(MissingFields) <==> !AllFilled(username, email, password, confirmation))
      && (r == Rejected(ShortUsername) <==>
            AllFilled(username, email, password, confirmation) && !UsernameLongEnough(username))
      && (r == Rejected(PasswordMismatch) <==>
            AllFilled(username, email, password, confirmation) && UsernameLongEnough(username)
            && password != confirmation)
      && (r == Rejected(ShortPassword) <==>
            AllFilled(username, email, password, confirmation) && UsernameLongEnough(username)
            && password == confirmation && !PasswordLongEnough(password))
  {
  }

  /** What a successful sign-up receives: a username of at least three UTF-16
      units with no white space at its ends, a non-blank trimmed e-mail, and a
      password of at least eight units that is the confirmation verbatim and
      is not all white space. */
  lemma SignUpArguments(username: string, email: string, password: string, confirmation: string)
    requires HandleRegister(username, email, password, confirmation).SignUp?
    ensures var r := HandleRegister(username, email, password, confirmation);
      && IsTrimmed(r.username) && Utf16Length(r.username) >= MinUsernameLength
      && IsTrimmed(r.email) && r.email != ""
      && r.password == confirmation && Utf16Length(r.password) >= MinPasswordLength
      && !AllSpace(r.password)
  {
    var r := HandleRegister(username, email, password, confirmation);
    if AllSpace(password) {
      TrimRemovesSpace(password);
      TrimAllSpace(password);
    }
  }

  /** A string of white space trims to the empty string. */
  lemma TrimAllSpace(s: string)
    requires AllSpace(s)
    ensures Trim(s) == ""
  {
  }

  /** The username length is read after trimming but the password length is
      not: white space in front rescues a short password, never a short
      username. */
  lemma TrimmingAppliesToUsernameOnly(pad: string, name: string, username: string, email: string, password: string)
    requires AllSpace(pad) && |pad| >= MinPasswordLength
    requires IsTrimmed(name) && name != "" && Utf16Length(name) < MinUsernameLength
    requires Filled(username) && UsernameLongEnough(username) && Filled(email)
    requires IsTrimmed(password) && password != ""
    ensures HandleRegister(pad + name, email, pad + password, pad + password) == Rejected(ShortUsername)
    ensures HandleRegister(username, email, pad + password, pad + password).SignUp?
  {
    TrimAfterSpace(pad, name);
    TrimAfterSpace(pad, password);
    Utf16Append(pad, password);
  }

  lemma {:induction false} Utf16Append(a: string, b: string)
    ensures Utf16Length(a + b) == Utf16Length(a) + Utf16Length(b)
  {
    if |a| > 0 {
      assert (a + b)[1..] == a[1..] + b;
      Utf16Append(a[1..], b);
    } else {
      assert a + b == b;
    }
  }
}
