/** The input and credential checks of the authentication routes: register,
    login and refresh. The users table is a sequence of rows; password
    hashing and comparison (bcrypt) and token verification (JWT) are opaque
    parameters, and token issuing is not modelled. */
module AuthRoutes {
  import opened Wrappers
  import opened Text
  import opened JsValues

  const MinPasswordLength: nat := 8

  /** A row of the users table as far as the routes read it. */
  datatype User = User(id: int, email: string, passwordHash: string,
                       refreshToken: Option<string>, refreshExpires: Option<int>)

  datatype Reason = MissingCredentials | InvalidEmail | ShortPassword | EmailTaken | MissingToken

  datatype AuthResponse =
    | BadRequest(reason: Reason)   // 400
    | Unauthorized                 // 401, one message for every credential failure
    | ServerError                  // 500, any exception caught by the handler
    | Created(email: string, password: string)  // 201: the row inserted, before hashing
    | LoggedIn(userId: int)
    | Refreshed(userId: int)

  // ---------------------------------------------------------------------------
  // The e-mail pattern /^[^\s@]+@[^\s@]+\.[^\s@]+$/
  // ---------------------------------------------------------------------------

  /** A non-empty run of the class `[^\s@]`. */
  predicate Plain(s: string) {
    s != [] && forall i :: 0 <= i < |s| ==> !IsSpace(s[i]) && s[i] != '@'
  }

  /** The regular expression read as a language: a plain local part, '@', a
      plain run, a dot and another plain run. */
  ghost predicate EmailPatternMatches(s: string) {
    exists a, b, c :: Plain(a) && Plain(b) && Plain(c) && s == a + "@" + b + "." + c
  }

  predicate NoSpace(s: string) {
    forall i :: 0 <= i < |s| ==> !IsSpace(s[i])
  }

  /** The same test stated on the parts: no white space at all, exactly one
      '@' with something in front of it, and a domain holding a dot that is
      neither its first nor its last character. */
  predicate EmailShape(s: string) {
    var parts := Split(s, '@');
    && NoSpace(s)
    && |parts| == 2
    && parts[0] != ""
    && |parts[1]| >= 3
    && '.' in parts[1][1..|parts[1]| - 1]
  }

  lemma PlainConcat(a: string, b: string)
    ensures NoSpace(a + b) ==> NoSpace(a) && NoSpace(b)
    ensures NoSpace(a) && NoSpace(b) ==> NoSpace(a + b)
  {
    if NoSpace(a + b) {
      assert forall i :: 0 <= i < |a| ==> a[i] == (a + b)[i];
      assert forall i :: 0 <= i < |b| ==> b[i] == (a + b)[|a| + i];
    }
    if NoSpace(a) && NoSpace(b) {
      assert forall i :: 0 <= i < |a + b| ==> (a + b)[i] == if i < |a| then a[i] else b[i - |a|];
    }
  }

  /** The part after the '@' of a match: no '@', no white space, and a dot
      strictly inside it. */
  lemma DomainOfMatch(b: string, c: string)
    requires Plain(b) && Plain(c)
    ensures var d := b + "." + c;
      '@' !in d && NoSpace(d) && |d| >= 3 && '.' in d[1..|d| - 1]
  {
    var d := b + "." + c;
    assert forall i :: 0 <= i < |d| ==> d[i] == if i < |b| then b[i] else if i == |b| then '.' else c[i - |b| - 1];
    assert d[1..|d| - 1][|b| - 1] == '.';
  }

  /** A match of the pattern has the shape. */
  lemma MatchHasShape(s: string, a: string, b: string, c: string)
    requires Plain(a) && Plain(b) && Plain(c) && s == a + "@" + b + "." + c
    ensures EmailShape(s)
  {
    var d := b + "." + c;
    DomainOfMatch(b, c);
    assert '@' !in a by {
      assert forall i :: 0 <= i < |a| ==> a[i] != '@';
    }
    assert s == a + ['@'] + d;
    assert Split(s, '@') == [a, d] by {
      SplitAtDelimiter(a, d, '@');
      SplitWithoutDelimiter(d, '@');
    }
    assert NoSpace(s) by {
      PlainConcat(a, "@");
      PlainConcat(a + "@", d);
    }
  }

  /** A domain of the shape splits at a dot strictly inside it into two
      plain runs. */
  lemma DomainHasParts(d: string) returns (b: string, c: string)
    requires '@' !in d && NoSpace(d) && |d| >= 3 && '.' in d[1..|d| - 1]
    ensures Plain(b) && Plain(c) && d == b + "." + c
  {
    var q :| 0 <= q < |d| - 2 && d[1..|d| - 1][q] == '.';
    assert d[q + 1] == '.';
    b, c := d[..q + 1], d[q + 2..];
    assert d == b + "." + c;
    PlainConcat(b + ".", c);
    PlainConcat(b, ".");
    assert forall i :: 0 <= i < |b| ==> b[i] == d[i];
    assert forall i :: 0 <= i < |c| ==> c[i] == d[q + 2 + i];
  }

  /** A string of the shape matches the pattern. */
  lemma ShapeMatches(s: string)
    requires EmailShape(s)
    ensures EmailPatternMatches(s)
  {
    var parts := Split(s, '@');
    var a, d := parts[0], parts[1];
    JoinSplit(s, '@');
    assert s == a + "@" + d by {
      assert parts == [a] + [d];
      JoinCons(a, [d], "@");
    }
    PlainConcat(a + "@", d);
    PlainConcat(a, "@");
    assert Plain(a);
    var b, c := DomainHasParts(d);
    assert s == a + "@" + b + "." + c;
  }

  /** The shape is exactly the language of the regular expression. */
  lemma EmailShapeIsPattern(s: string)
    ensures EmailShape(s) <==> EmailPatternMatches(s)
  {
    if EmailPatternMatches(s) {
      var a, b, c :| Plain(a) && Plain(b) && Plain(c) && s == a + "@" + b + "." + c;
      MatchHasShape(s, a, b, c);
    }
    if EmailShape(s) {
      ShapeMatches(s);
    }
  }

  // ---------------------------------------------------------------------------
  // POST /register
  // ---------------------------------------------------------------------------

  /** A row already stored under the given e-mail. */
  predicate Registered(users: seq<User>, email: string) {
    exists i :: 0 <= i < |users| && users[i].email == email
  }

  /** `POST /register`. `RegExp.prototype.test` converts its argument to a
      string; `password.length` is undefined (and `undefined < 8` false) for
      values other than strings and arrays; `toLowerCase` on a non-string and
      `bcrypt.hash` of a non-string throw, which the handler answers with 500.
      The duplicate lookup and the inserted row use the lower-cased e-mail. */
  function Register(email: JsValue, password: JsValue, users: seq<User>, render: real -> string): (r: AuthResponse)
    ensures r.Created? <==>
      && Truthy(email) && Truthy(password) && email.Str? && password.Str?
      && EmailPatternMatches(email.s)
      && Utf16Length(password.s) >= MinPasswordLength
      && !Registered(users, ToLower(email.s))
    ensures r.Created? ==> r == Created(ToLower(email.s), password.s)
  {
    EmailShapeIsPattern(ToJsString(email, render));
    if !Truthy(email) || !Truthy(password) then BadRequest(MissingCredentials)
    else if !EmailShape(ToJsString(email, render)) then BadRequest(InvalidEmail)
    else if LengthOf(password).Some? && LengthOf(password).value < MinPasswordLength then BadRequest(ShortPassword)
    else if !email.Str? then ServerError
    else if Registered(users, ToLower(email.s)) then BadRequest(EmailTaken)
    else if !password.Str? then ServerError
    else Created(ToLower(email.s), password.s)
  }

  /** The 400 answers come in order: missing credentials, then the e-mail
      format, then the password length, then an e-mail already registered;
      each is given exactly when its check fails and the earlier ones pass.
      The duplicate lookup needs a string e-mail: any other value throws in
      `toLowerCase` first. */
  lemma RegisterChecksInOrder(email: JsValue, password: JsValue, users: seq<User>, render: real -> string)
    ensures var r := Register(email, password, users, render);
      && (r == BadRequest(MissingCredentials) <==> !Truthy(email) || !Truthy(password))
      && (r == BadRequest(InvalidEmail) <==>
            Truthy(email) && Truthy(password) && !EmailPatternMatches(ToJsString(email, render)))
      && (r == BadRequest(ShortPassword) <==>
            Truthy(email) && Truthy(password) && EmailPatternMatches(ToJsString(email, render))
            && LengthOf(password).Some? && LengthOf(password).value < MinPasswordLength)
      && (r == BadRequest(EmailTaken) <==>
            Truthy(email) && Truthy(password) && EmailPatternMatches(ToJsString(email, render))
            && !(LengthOf(password).Some? && LengthOf(password).value < MinPasswordLength)
            && email.Str? && Registered(users, ToLower(email.s)))
  {
    EmailShapeIsPattern(ToJsString(email, render));
  }

  /** Duplicate detection ignores case: once an e-mail is stored, every
      spelling of it that differs only in case is refused, and the stored
      spelling is its own lower-case form. */
  lemma DuplicateIsCaseInsensitive(email: string, other: string, password: JsValue,
                                   users: seq<User>, id: int, hash: string, render: real -> string)
    requires Register(Str(email), password, users, render).Created?
    requires ToLower(other) == ToLower(email)
    requires EmailPatternMatches(other)
    ensures var stored := Register(Str(email), password, users, render).email;
      && ToLower(stored) == stored
      && Register(Str(other), password, users + [User(id, stored, hash, None, None)], render) == BadRequest(EmailTaken)
  {
    var stored := ToLower(email);
    ToLowerIdempotent(email);
    var users' := users + [User(id, stored, hash, None, None)];
    assert Registered(users', ToLower(other)) by {
      assert users'[|users|].email == ToLower(other);
    }
    EmailShapeIsPattern(other);
    assert other != "";
    assert Truthy(password) && ToJsString(Str(other), render) == other;
  }

  // ---------------------------------------------------------------------------
  // POST /login
  // ---------------------------------------------------------------------------

  /** The first row stored under the e-mail. */
  function FindByEmail(users: seq<User>, email: string): (r: Option<User>)
    ensures r.None? <==> !Registered(users, email)
    ensures r.Some? ==> r.value in users && r.value.email == email
  {
    if |users| == 0 then None
    else if users[0].email == email then Some(users[0])
    else
      var rest := FindByEmail(users[1..], email);
      assert forall i :: 1 <= i < |users| ==> users[i] == users[1..][i - 1];
      rest
  }

  /** `POST /login`, with `matches(password, hash)` standing for
      `bcrypt.compare`, which rejects a non-string password. */
  function Login(email: JsValue, password: JsValue, users: seq<User>,
                 matches: (string, string) -> bool): (r: AuthResponse)
    ensures r.LoggedIn? <==>
      && Truthy(email) && Truthy(password) && email.Str? && password.Str?
      && FindByEmail(users, ToLower(email.s)).Some?
      && matches(password.s, FindByEmail(users, ToLower(email.s)).value.passwordHash)
    ensures r.LoggedIn? ==> exists i :: 0 <= i < |users| && users[i].id == r.userId && users[i].email == ToLower(email.s)
    ensures r.BadRequest? <==> !Truthy(email) || !Truthy(password)
  {
    if !Truthy(email) || !Truthy(password) then BadRequest(MissingCredentials)
    else if !email.Str? then ServerError
    else match FindByEmail(users, ToLower(email.s))
      case None => Unauthorized
      case Some(user) =>
        if !password.Str? then ServerError
        else if !matches(password.s, user.passwordHash) then Unauthorized
        else LoggedIn(user.id)
  }

  /** An unknown e-mail and a wrong password give the same answer, so the
      response does not reveal which of the two was wrong. */
  lemma LoginFailuresIndistinguishable(unknown: string, known: string, password: string,
                                       users: seq<User>, matches: (string, string) -> bool)
    requires unknown != "" && known != "" && password != ""
    requires !Registered(users, ToLower(unknown))
    requires Registered(users, ToLower(known))
    requires !matches(password, FindByEmail(users, ToLower(known)).value.passwordHash)
    ensures Login(Str(unknown), Str(password), users, matches) == Unauthorized
    ensures Login(Str(unknown), Str(password), users, matches) == Login(Str(known), Str(password), users, matches)
  {
  }

  // ---------------------------------------------------------------------------
  // POST /refresh
  // ---------------------------------------------------------------------------

  /** The refresh query: a row of the token's user holding this very token
      with an expiry still in the future. */
  predicate HoldsLiveToken(users: seq<User>, id: int, token: string, now: int) {
    exists i :: 0 <= i < |users| && users[i].id == id && users[i].refreshToken == Some(token)
      && users[i].refreshExpires.Some? && users[i].refreshExpires.value > now
  }

  /** `POST /refresh`, with `verify(token)` standing for `jwt.verify`: the user
      id of a valid, unexpired token, `None` when verification throws (as it
      does for a token that is not a string). */
  function Refresh(token: JsValue, verify: string -> Option<int>, users: seq<User>, now: int): (r: AuthResponse)
    ensures r.BadRequest? <==> !Truthy(token)
    ensures r.Refreshed? <==>
      && Truthy(token) && token.Str? && verify(token.s).Some?
      && HoldsLiveToken(users, verify(token.s).value, token.s, now)
    ensures r.Refreshed? ==> r.userId == verify(token.s).value
    ensures Truthy(token) && !r.Refreshed? ==> r == Unauthorized
  {
    if !Truthy(token) then BadRequest(MissingToken)
    else if !token.Str? then Unauthorized
    else match verify(token.s)
      case None => Unauthorized
      case Some(id) => if HoldsLiveToken(users, id, token.s, now) then Refreshed(id) else Unauthorized
  }

  /** A token that verifies is still refused once the stored copy is replaced
      or has expired: the signature alone is not enough. */
  lemma RefreshNeedsStoredToken(token: string, verify: string -> Option<int>, users: seq<User>, now: int)
    requires token != "" && verify(token).Some?
    requires forall i :: 0 <= i < |users| ==> users[i].refreshToken != Some(token)
    ensures Refresh(Str(token), verify, users, now) == Unauthorized
  {
  }
}
