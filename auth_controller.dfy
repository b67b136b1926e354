/** `AuthController`: how each endpoint turns the authentication service's
    outcome (its return value or the exception it threw) into an HTTP status,
    headers and body. The service is either given as that outcome or, where the
    controller decides whether to call it at all, as a function. */
module AuthController {
  import opened Base
  import opened AuthService

  const StatusOk: int := 200
  const StatusBadRequest: int := 400
  const StatusUnauthorized: int := 401
  const StatusInternalServerError: int := 500

  datatype Header = Header(name: string, value: string)

  /** A plain text body, no body at all (`body(null)`), or the `{valid, error?}`
      map of the token endpoint. */
  datatype Body = Text(text: string) | NoBody | Validity(valid: bool, error: Option<string>)

  /** `body(message)` for a message that may be null. */
  function MessageBody(message: Option<string>): (b: Body)
    ensures message.Some? ==> b == Text(message.value)
    ensures message.None? ==> b == NoBody
  {
    match message
    case Some(text) => Text(text)
    case None => NoBody
  }

  datatype Response = Response(status: int, headers: seq<Header>, body: Body)

  /** `jwt.chars().filter(ch -> ch == '.').count()` */
  function DotCount(s: string): (n: nat)
    ensures n <= |s|
  {
    if s == [] then 0 else (if s[0] == '.' then 1 else 0) + DotCount(s[1..])
  }

  /** The shape test the controller puts every generated token through. */
  predicate IsWellFormedJwt(jwt: string) {
    DotCount(jwt) == 2
  }

  lemma {:induction false} DotCountConcat(a: string, b: string)
    ensures DotCount(a + b) == DotCount(a) + DotCount(b)
  {
    if a == [] {
      assert a + b == b;
    } else {
      assert (a + b)[1..] == a[1..] + b;
      DotCountConcat(a[1..], b);
    }
  }

  lemma {:induction false} DotCountZero(s: string)
    ensures DotCount(s) == 0 <==> '.' !in s
  {
    if s != [] {
      DotCountZero(s[1..]);
      assert forall i :: 1 <= i < |s| ==> s[i] == s[1..][i - 1];
      assert '.' in s[1..] ==> '.' in s;
    }
  }

  /** The index of the first dot of a string that has one. */
  function FirstDot(s: string): (i: nat)
    requires DotCount(s) > 0
    ensures i < |s| && s[i] == '.' && DotCount(s[..i]) == 0
  {
    if s[0] == '.' then 0
    else
      var j := FirstDot(s[1..]);
      assert s[..j + 1] == [s[0]] + s[1..][..j];
      DotCountConcat([s[0]], s[1..][..j]);
      j + 1
  }

  /** A token passes the shape test exactly when it is three dot-free segments
      joined by dots: this direction builds one. */
  lemma WellFormedFromSegments(a: string, b: string, c: string)
    requires '.' !in a && '.' !in b && '.' !in c
    ensures IsWellFormedJwt(a + "." + b + "." + c)
  {
    DotCountZero(a);
    DotCountZero(b);
    DotCountZero(c);
    DotCountConcat(a, ".");
    DotCountConcat(a + ".", b);
    DotCountConcat(a + "." + b, ".");
    DotCountConcat(a + "." + b + ".", c);
  }

  /** Splits a string at its first dot. */
  lemma SplitAtFirstDot(s: string) returns (before: string, after: string)
    requires DotCount(s) > 0
    ensures s == before + "." + after
    ensures '.' !in before && DotCount(after) == DotCount(s) - 1
  {
    var i := FirstDot(s);
    before, after := s[..i], s[i + 1..];
    assert s == before + ("." + after);
    assert DotCount(".") == 1;
    DotCountConcat(before, "." + after);
    DotCountConcat(".", after);
    DotCountZero(before);
  }

  /** ... and this direction splits one. */
  lemma WellFormedSegments(jwt: string) returns (a: string, b: string, c: string)
    requires IsWellFormedJwt(jwt)
    ensures jwt == a + "." + b + "." + c
    ensures '.' !in a && '.' !in b && '.' !in c
  {
    var rest;
    a, rest := SplitAtFirstDot(jwt);
    b, c := SplitAtFirstDot(rest);
    DotCountZero(c);
  }

  /** The header a successful register or login sends. */
  function AuthorizationHeader(jwt: string): Header {
    Header("Authorization", "Bearer " + jwt)
  }

  /** `register`: a malformed token is thrown as an IllegalArgumentException,
      and every IllegalArgumentException (a taken username among them) is a
      400 carrying its message (no body for a null one). Other exceptions are not caught and leave the
      handler (`Err`). */
  function Register(outcome: Result<string>): (r: Result<Response>)
    ensures r.Ok? && r.value.status == StatusOk <==> outcome.Ok? && IsWellFormedJwt(outcome.value)
    ensures r.Ok? && r.value.status == StatusOk ==>
              r.value == Response(StatusOk, [AuthorizationHeader(outcome.value)], Text(outcome.value))
    ensures outcome.Ok? && !IsWellFormedJwt(outcome.value) ==>
              r == Ok(Response(StatusBadRequest, [], Text("Invalid JWT token")))
    ensures outcome.Err? && outcome.error.IllegalArgument? ==>
              r == Ok(Response(StatusBadRequest, [], MessageBody(outcome.error.message)))
    ensures outcome.Err? && !outcome.error.IllegalArgument? ==> r == Err(outcome.error)
  {
    match outcome
    case Ok(jwt) =>
      if IsWellFormedJwt(jwt) then Ok(Response(StatusOk, [AuthorizationHeader(jwt)], Text(jwt)))
      else Ok(Response(StatusBadRequest, [], Text("Invalid JWT token")))
    case Err(e) =>
      if e.IllegalArgument? then Ok(Response(StatusBadRequest, [], MessageBody(e.message))) else Err(e)
  }

  /** `login`: every IllegalArgumentException, the malformed-token one
      included, is a 401 with one fixed message; any other exception is a 500. */
  function Login(outcome: Result<string>): (r: Response)
    ensures r.status == StatusOk <==> outcome.Ok? && IsWellFormedJwt(outcome.value)
    ensures r.status == StatusOk ==> r == Response(StatusOk, [AuthorizationHeader(outcome.value)], Text(outcome.value))
    ensures r.status == StatusUnauthorized <==>
              (outcome.Ok? && !IsWellFormedJwt(outcome.value)) || (outcome.Err? && outcome.error.IllegalArgument?)
    ensures r.status == StatusUnauthorized ==> r == Response(StatusUnauthorized, [], Text("Invalid username or password"))
    ensures outcome.Err? && !outcome.error.IllegalArgument? ==>
              r == Response(StatusInternalServerError, [], Text("An unexpected error occurred"))
  {
    match outcome
    case Ok(jwt) =>
      if IsWellFormedJwt(jwt) then Response(StatusOk, [AuthorizationHeader(jwt)], Text(jwt))
      else Response(StatusUnauthorized, [], Text("Invalid username or password"))
    case Err(e) =>
      if e.IllegalArgument? then Response(StatusUnauthorized, [], Text("Invalid username or password"))
      else Response(StatusInternalServerError, [], Text("An unexpected error occurred"))
  }

  /** Drops a leading "Bearer " (7 characters) when it is there; any other
      header value is passed on unchanged. */
  function StripBearer(header: string): (token: string)
    ensures "Bearer " <= header ==> "Bearer " + token == header
    ensures !("Bearer " <= header) ==> token == header
  {
    if |header| >= 7 && header[..7] == "Bearer " then header[7..] else header
  }

  /** The header register and login send carries the token back to `validateToken`. */
  lemma BearerRoundTrip(jwt: string)
    ensures StripBearer(AuthorizationHeader(jwt).value) == jwt
  {
  }

  /** `validateToken`: 200 `{valid: true}` exactly when the service says true
      for the stripped token; a false is 401 `{valid: false}`; an exception
      with a message is 401 `{valid: false, error}`. An exception without one
      makes `Map.of` in the handler throw a NullPointerException, which leaves
      the handler (`Err`). */
  function ValidateToken(header: string, validate: string -> Result<bool>): (r: Result<Response>)
    ensures r.Ok? && r.value.status == StatusOk <==> validate(StripBearer(header)) == Ok(true)
    ensures r.Ok? ==> r.value.status == StatusOk || r.value.status == StatusUnauthorized
    ensures r.Err? <==> validate(StripBearer(header)).Err? && validate(StripBearer(header)).error.message.None?
    ensures r.Err? ==> r.error.NullPointer?
    ensures validate(StripBearer(header)) == Ok(true) ==> r == Ok(Response(StatusOk, [], Validity(true, None)))
    ensures validate(StripBearer(header)) == Ok(false) ==> r == Ok(Response(StatusUnauthorized, [], Validity(false, None)))
    ensures validate(StripBearer(header)).Err? && validate(StripBearer(header)).error.message.Some? ==>
              r == Ok(Response(StatusUnauthorized, [], Validity(false, validate(StripBearer(header)).error.message)))
  {
    match validate(StripBearer(header))
    case Ok(valid) =>
      if valid then Ok(Response(StatusOk, [], Validity(true, None)))
      else Ok(Response(StatusUnauthorized, [], Validity(false, None)))
    case Err(e) =>
      if e.message.Some? then Ok(Response(StatusUnauthorized, [], Validity(false, e.message)))
      else Err(NullPointer(None))
  }

  /** The body of a failed password change: Java's string concatenation
      writes a null message as "null". */
  function UpdateFailureText(message: Option<string>): string {
    "Error updating password: " + message.GetOr("null")
  }

  /** `updatePassword`: a missing or empty "newPassword" is a 400 decided
      without the service; any other value goes to the service, whose success
      is a 200 and whose exception is a 500 carrying its message. */
  function UpdatePassword(newPassword: Option<string>, update: string -> Result<()>): (r: Response)
    ensures newPassword.None? || newPassword.value == "" ==>
              r == Response(StatusBadRequest, [], Text("New password is required"))
    ensures newPassword.Some? && newPassword.value != "" && update(newPassword.value).Ok? ==>
              r == Response(StatusOk, [], Text("Password updated successfully"))
    ensures newPassword.Some? && newPassword.value != "" && update(newPassword.value).Err? ==>
              r == Response(StatusInternalServerError, [], Text(UpdateFailureText(update(newPassword.value).error.message)))
  {
    if newPassword.None? || newPassword.value == "" then
      Response(StatusBadRequest, [], Text("New password is required"))
    else
      match update(newPassword.value)
      case Ok(_) => Response(StatusOk, [], Text("Password updated successfully"))
      case Err(e) => Response(StatusInternalServerError, [], Text(UpdateFailureText(e.message)))
  }

  /** The service call `updatePassword` makes for the authenticated user, as a
      function of the new password. */
  function PasswordService(users: map<string, User>, encode: string -> string, username: string): string -> Result<()> {
    p => match UpdatedUser(users, encode, username, Some(p))
         case Ok(_) => Ok(())
         case Err(e) => Err(e)
  }

  /** A whitespace-only password passes the controller's emptiness test, is
      refused by the service, and so ends in a 500; for an unknown user the
      user lookup fails first. */
  lemma WhitespacePasswordReachesService(users: map<string, User>, encode: string -> string, username: string, password: string)
    requires password != "" && forall i :: 0 <= i < |password| ==> IsTrimmed(password[i])
    ensures username in users ==>
              UpdatePassword(Some(password), PasswordService(users, encode, username)) ==
              Response(StatusInternalServerError, [], Text(UpdateFailureText(Some(BlankPasswordMessage))))
    ensures username !in users ==>
              UpdatePassword(Some(password), PasswordService(users, encode, username)) ==
              Response(StatusInternalServerError, [], Text(UpdateFailureText(Some(UserNotFoundMessage(username)))))
  {
    TrimEmptyIff(password);
  }
}
