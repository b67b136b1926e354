/** `AuthenticationService`: registration, login, token validation and password
    change over the user repository, read here as a map from username to user.

    The password encoder, the JWT service and Spring's AuthenticationManager
    are foreign: they are uninterpreted function constants of the service. */
module AuthService {
  import opened Base

  /** The user entity: a repository id, the username and the encoded password. */
  datatype User = User(id: nat, username: string, password: string)

  /** `JwtService` (not part of this model): token generation, username
      extraction (which may fail on a malformed token) and validation. */
  datatype JwtService = JwtService(
    generateToken: User -> string,
    extractUsername: string -> Result<Option<string>>,
    isTokenValid: (string, User) -> Result<bool>)

  /** Java's `String.trim()` drops every leading and trailing character whose
      code is at most U+0020. */
  predicate IsTrimmed(c: char) {
    c <= ' '
  }

  function TrimStart(s: string): string {
    if |s| > 0 && IsTrimmed(s[0]) then TrimStart(s[1..]) else s
  }

  function TrimEnd(s: string): string {
    if |s| > 0 && IsTrimmed(s[|s| - 1]) then TrimEnd(s[..|s| - 1]) else s
  }

  function Trim(s: string): string {
    TrimEnd(TrimStart(s))
  }

  /** `newPassword == null || newPassword.trim().isEmpty()` */
  predicate IsBlank(newPassword: Option<string>) {
    newPassword.None? || Trim(newPassword.value) == ""
  }

  lemma {:induction false} TrimStartEmptyIff(s: string)
    ensures TrimStart(s) == "" <==> forall i :: 0 <= i < |s| ==> IsTrimmed(s[i])
    ensures TrimStart(s) != "" ==> !IsTrimmed(TrimStart(s)[0])
  {
    if |s| > 0 && IsTrimmed(s[0]) {
      TrimStartEmptyIff(s[1..]);
      assert forall i :: 1 <= i < |s| ==> s[i] == s[1..][i - 1];
    }
  }

  lemma {:induction false} TrimEndKeepsFirst(s: string)
    requires |s| > 0 && !IsTrimmed(s[0])
    ensures TrimEnd(s) != ""
  {
    if IsTrimmed(s[|s| - 1]) {
      assert |s| > 1;
      TrimEndKeepsFirst(s[..|s| - 1]);
    }
  }

  /** A string trims to nothing exactly when every character of it is at most
      U+0020: a whitespace-only password is blank, any other is not. */
  lemma TrimEmptyIff(s: string)
    ensures Trim(s) == "" <==> forall i :: 0 <= i < |s| ==> IsTrimmed(s[i])
  {
    TrimStartEmptyIff(s);
    if TrimStart(s) != "" {
      TrimEndKeepsFirst(TrimStart(s));
    }
  }

  const BlankPasswordMessage := "New password cannot be null or empty"

  function UserNotFoundMessage(username: string): string {
    "User not found: " + username
  }

  /** The outcome of `updatePassword` on a user table: the user as it is saved
      afterwards, or the exception thrown. The user is looked up before the
      password is looked at. */
  function UpdatedUser(users: map<string, User>, encode: string -> string,
                       username: string, newPassword: Option<string>): Result<User>
  {
    if username !in users then Err(UsernameNotFound(Some(UserNotFoundMessage(username))))
    else if IsBlank(newPassword) then Err(IllegalArgument(Some(BlankPasswordMessage)))
    else Ok(users[username].(password := encode(newPassword.value)))
  }

  /** What `updatePassword` decides: an unknown user is reported whatever the
      password; a known user with a null or whitespace-only password gets an
      `IllegalArgumentException`; otherwise only the password changes, to the
      encoding of the new one. */
  lemma UpdatedUserDecision(users: map<string, User>, encode: string -> string,
                            username: string, newPassword: Option<string>)
    ensures username !in users ==>
              UpdatedUser(users, encode, username, newPassword) == Err(UsernameNotFound(Some(UserNotFoundMessage(username))))
    ensures username in users && (newPassword.None? || forall i :: 0 <= i < |newPassword.value| ==> IsTrimmed(newPassword.value[i])) ==>
              UpdatedUser(users, encode, username, newPassword) == Err(IllegalArgument(Some(BlankPasswordMessage)))
    ensures UpdatedUser(users, encode, username, newPassword).Ok? <==>
              username in users && newPassword.Some? && exists i :: 0 <= i < |newPassword.value| && !IsTrimmed(newPassword.value[i])
    ensures UpdatedUser(users, encode, username, newPassword).Ok? ==>
              var user := UpdatedUser(users, encode, username, newPassword).value;
              user.id == users[username].id && user.username == users[username].username &&
              user.password == encode(newPassword.value)
  {
    if newPassword.Some? {
      TrimEmptyIff(newPassword.value);
    }
  }

  class AuthenticationService {
    const passwordEncoder: string -> string
    const jwtService: JwtService
    /** `AuthenticationManager.authenticate(username, password)`: returns or throws. */
    const authenticate: (string, string) -> Result<()>

    /** The user repository, by username. */
    var users: map<string, User>
    /** The id the repository gives the next user it saves. */
    var nextId: nat

    /** Every user is stored under its own username and has an id already
        handed out that no other user has. */
    ghost predicate Valid()
      reads this
    {
      && (forall u :: u in users ==> users[u].username == u && users[u].id < nextId)
      && (forall u, v :: u in users && v in users && users[u].id == users[v].id ==> u == v)
    }

    constructor (passwordEncoder: string -> string, jwtService: JwtService, authenticate: (string, string) -> Result<()>)
      ensures Valid()
      ensures this.passwordEncoder == passwordEncoder && this.jwtService == jwtService
      ensures this.authenticate == authenticate
      ensures users == map[] && nextId == 0
    {
      this.passwordEncoder := passwordEncoder;
      this.jwtService := jwtService;
      this.authenticate := authenticate;
      users := map[];
      nextId := 0;
    }

    /** `register`: a taken username is refused and nothing is saved; otherwise
        exactly one user is saved and the token generated for it returned. */
    method Register(username: string, password: string) returns (r: Result<string>)
      requires Valid()
      modifies this
      ensures Valid()
      ensures username in old(users) ==> r == Err(IllegalArgument(Some("Username already exists"))) && unchanged(this)
      ensures username !in old(users) ==>
        var user := User(old(nextId), username, passwordEncoder(password));
        && users == old(users)[username := user]
        && nextId == old(nextId) + 1
        && r == Ok(jwtService.generateToken(user))
    {
      if username in users {
        return Err(IllegalArgument(Some("Username already exists")));
      }
      var user := User(nextId, username, passwordEncoder(password));
      users := users[username := user];
      nextId := nextId + 1;
      r := Ok(jwtService.generateToken(user));
    }

    /** `login`: a token only after the AuthenticationManager accepts the
        credentials and the user is found; every AuthenticationException becomes
        the one `IllegalArgumentException` message, and any other exception
        (an empty `orElseThrow()` among them) passes through. */
    function Login(username: string, password: string): (r: Result<string>)
      reads this
      ensures r.Ok? <==> authenticate(username, password).Ok? && username in users
      ensures r.Ok? ==> r.value == jwtService.generateToken(users[username])
      ensures authenticate(username, password).Err? && IsAuthenticationException(authenticate(username, password).error) ==>
                r == Err(IllegalArgument(Some("Invalid username or password")))
      ensures authenticate(username, password).Err? && !IsAuthenticationException(authenticate(username, password).error) ==>
                r == Err(authenticate(username, password).error)
      ensures authenticate(username, password).Ok? && username !in users ==> r == Err(NoSuchElement(Some("No value present")))
    {
      match authenticate(username, password)
      case Err(e) =>
        if IsAuthenticationException(e) then Err(IllegalArgument(Some("Invalid username or password"))) else Err(e)
      case Ok(_) =>
        if username in users then Ok(jwtService.generateToken(users[username]))
        else Err(NoSuchElement(Some("No value present")))
    }

    /** `validateToken`: false when the token names no user or an unregistered
        one; otherwise the JWT service's verdict for that user. True only for a
        registered user whose token the JWT service accepts. */
    function ValidateToken(token: string): (r: Result<bool>)
      reads this
      ensures jwtService.extractUsername(token) == Ok(None) ==> r == Ok(false)
      ensures jwtService.extractUsername(token).Err? ==> r == Err(jwtService.extractUsername(token).error)
      ensures var e := jwtService.extractUsername(token);
              e.Ok? && e.value.Some? && e.value.value !in users ==> r == Ok(false)
      ensures var e := jwtService.extractUsername(token);
              e.Ok? && e.value.Some? && e.value.value in users ==> r == jwtService.isTokenValid(token, users[e.value.value])
      ensures r == Ok(true) ==>
              var e := jwtService.extractUsername(token);
              e.Ok? && e.value.Some? && e.value.value in users && jwtService.isTokenValid(token, users[e.value.value]) == Ok(true)
    {
      match jwtService.extractUsername(token)
      case Err(e) => Err(e)
      case Ok(None) => Ok(false)
      case Ok(Some(username)) =>
        if username in users then jwtService.isTokenValid(token, users[username]) else Ok(false)
    }

    /** `updatePassword`: the new table and the outcome are those of `UpdatedUser`. */
    method UpdatePassword(username: string, newPassword: Option<string>) returns (r: Result<()>)
      requires Valid()
      modifies this
      ensures Valid()
      ensures var outcome := UpdatedUser(old(users), passwordEncoder, username, newPassword);
              && (outcome.Err? ==> r == Err(outcome.error) && unchanged(this))
              && (outcome.Ok? ==> r == Ok(()) && users == old(users)[username := outcome.value] && nextId == old(nextId))
    {
      if username !in users {
        return Err(UsernameNotFound(Some(UserNotFoundMessage(username))));
      }
      var user := users[username];
      if newPassword.None? || Trim(newPassword.value) == "" {
        return Err(IllegalArgument(Some(BlankPasswordMessage)));
      }
      user := user.(password := passwordEncoder(newPassword.value));
      users := users[username := user];
      r := Ok(());
    }
  }
}
