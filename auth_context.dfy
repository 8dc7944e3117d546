/**
 * The session provider of the dashboard: the signed-in user, the API token,
 * the `loading` flag and the browser's `localStorage`, together with the
 * operations that change them. Every network exchange is an input: the
 * caller passes what the server answered (or what the request threw), and
 * each operation returns the request header it would have sent.
 */
module AuthContext {
  import opened Wrappers

  /** The user record the server returns. */
  datatype UserData = UserData(
    id: int,
    username: string,
    firstName: string,
    lastName: string,
    email: string,
    role: string,
    isActive: bool,
    dateJoined: string,
    lastLogin: Option<string>)

  /** A `localStorage` value: plain text, or the JSON text of a user record. */
  datatype Stored = Text(text: string) | UserJson(record: UserData)

  const AuthTokenKey := "authToken"
  const UserDataKey := "userData"

  const InvalidCredentialsMessage := "Credenciales inválidas"
  const UnknownErrorMessage := "Error desconocido"
  const SessionExpiredMessage := "Sesión expirada"

  const Unauthorized := 401

  /** What a failed request or a `throw` carries: an `Error` with its message,
      or any other value. */
  datatype Thrown = ErrorObject(message: string) | OtherValue

  /** The outcome of a `fetch`: it rejected, or the server answered. */
  datatype Fetched<B> = Threw(thrown: Thrown) | Responded(status: int, body: B)

  /** The body of a successful login. */
  datatype LoginBody = LoginBody(token: string, user: UserData)

  /** What `login` resolves to. */
  datatype LoginResult = LoginResult(success: bool, error: Option<string>)

  /** What `authenticatedFetch` settles to: the response, or a rejection. */
  datatype FetchResult<B> = Returned(status: int, body: B) | Rejected(reason: Thrown)

  /** `response.ok`. */
  predicate IsOk(status: int) { 200 <= status <= 299 }

  /** JavaScript truthiness of an optional string: present and non-empty. */
  predicate Truthy(s: Option<string>) { s.Some? && |s.value| > 0 }

  /** Truthiness of what `getItem` returns for a key. */
  predicate StoredTruthy(storage: map<string, Stored>, key: string) {
    key in storage && (storage[key].Text? ==> |storage[key].text| > 0)
  }

  /** A template literal shows a missing token as `null`. */
  function TokenText(token: Option<string>): string {
    if token.Some? then token.value else "null"
  }

  function BearerHeader(token: Option<string>): (r: string)
    ensures |r| >= 7 && r[..7] == "Bearer "
  {
    "Bearer " + TokenText(token)
  }

  /** The message a caught value turns into. */
  function ErrorMessage(e: Thrown): (r: string)
    ensures e.OtherValue? ==> r == UnknownErrorMessage
    ensures e.ErrorObject? ==> r == e.message
  {
    match e
    case ErrorObject(m) => m
    case OtherValue => UnknownErrorMessage
  }

  /** The headers `authenticatedFetch` sends: its two defaults, overridden by
      whatever the caller gave. */
  function RequestHeaders(token: Option<string>, callerHeaders: map<string, string>): (r: map<string, string>)
    ensures r.Keys == callerHeaders.Keys + {"Authorization", "Content-Type"}
    ensures forall k :: k in callerHeaders ==> r[k] == callerHeaders[k]
    ensures "Authorization" !in callerHeaders ==> r["Authorization"] == BearerHeader(token)
    ensures "Content-Type" !in callerHeaders ==> r["Content-Type"] == "application/json"
  {
    map["Authorization" := BearerHeader(token), "Content-Type" := "application/json"] + callerHeaders
  }

  /** `getItem` on the text entries: only text values count as a token. */
  predicate WellFormedStorage(storage: map<string, Stored>) {
    && (AuthTokenKey in storage ==> storage[AuthTokenKey].Text?)
    && (UserDataKey in storage ==> storage[UserDataKey].UserJson?)
  }

  /** The session a fresh provider would load from this storage: both entries
      when both are truthy, nothing otherwise. */
  function Restored(storage: map<string, Stored>): (r: (Option<string>, Option<UserData>))
    requires WellFormedStorage(storage)
    ensures r.0.Some? <==> r.1.Some?
    ensures r.0.Some? <==> StoredTruthy(storage, AuthTokenKey) && UserDataKey in storage
    ensures r.0.Some? ==> Truthy(r.0)
                          && storage[AuthTokenKey] == Text(r.0.value)
                          && storage[UserDataKey] == UserJson(r.1.value)
  {
    if StoredTruthy(storage, AuthTokenKey) && StoredTruthy(storage, UserDataKey) then
      (Some(storage[AuthTokenKey].text), Some(storage[UserDataKey].record))
    else
      (None, None)
  }

  /** The provider state is backed by storage: whatever session it holds is
      also what is stored under the two keys. */
  predicate Mirrored(token: Option<string>, user: Option<UserData>, storage: map<string, Stored>) {
    && (token.Some? <==> user.Some?)
    && (token.Some? ==> AuthTokenKey in storage && storage[AuthTokenKey] == Text(token.value))
    && (user.Some? ==> UserDataKey in storage && storage[UserDataKey] == UserJson(user.value))
  }

  /** A session with a non-empty token survives a page reload: the storage it
      left behind restores exactly that session. */
  lemma SessionSurvivesReload(token: Option<string>, user: Option<UserData>, storage: map<string, Stored>)
    requires WellFormedStorage(storage)
    requires Mirrored(token, user, storage)
    requires Truthy(token)
    ensures Restored(storage) == (token, user)
  {
    assert StoredTruthy(storage, AuthTokenKey);
    assert StoredTruthy(storage, UserDataKey);
  }

  /** A session whose token is empty is not restored on reload. */
  lemma EmptyTokenNotRestored(user: Option<UserData>, storage: map<string, Stored>)
    requires WellFormedStorage(storage)
    requires Mirrored(Some(""), user, storage)
    ensures Restored(storage) == (None, None)
  {
    assert !StoredTruthy(storage, AuthTokenKey);
  }

  /** `isAuthenticated`: `!!user`. */
  function IsAuthenticated(user: Option<UserData>): (r: bool)
    ensures r <==> user != None
  {
    user.Some?
  }

  /** `isAdmin`: an absent user has no role, so it is never an administrator. */
  function IsAdmin(user: Option<UserData>): (r: bool)
    ensures r ==> IsAuthenticated(user)
    ensures user == None ==> !r
  {
    user.Some? && user.value.role == "admin"
  }

  /** `isModerator`: moderators and administrators. */
  function IsModerator(user: Option<UserData>): (r: bool)
    ensures r ==> IsAuthenticated(user)
    ensures IsAdmin(user) ==> r
  {
    user.Some? && (user.value.role == "moderator" || user.value.role == "admin")
  }

  /** Administrators are moderators, and both flags need a signed-in user. */
  lemma FlagsNested(user: Option<UserData>)
    ensures IsAdmin(user) ==> IsModerator(user)
    ensures IsModerator(user) ==> IsAuthenticated(user)
    ensures IsModerator(user) && !IsAdmin(user) <==> user.Some? && user.value.role == "moderator"
  {
  }

  /** Which role raises which flag: `isAdmin` is role `admin`, `isModerator`
      is role `moderator` or `admin`, and neither holds without a user. */
  lemma FlagsByRole(user: Option<UserData>)
    ensures IsAdmin(user) <==> user.Some? && user.value.role == "admin"
    ensures IsModerator(user) <==> user.Some? && (user.value.role == "moderator" || user.value.role == "admin")
  {
  }

  class AuthProvider {
    var user: Option<UserData>
    var token: Option<string>
    var loading: bool
    var storage: map<string, Stored>

    predicate Valid()
      reads this
    {
      WellFormedStorage(storage) && Mirrored(token, user, storage)
    }

    /** The provider as first rendered: no session, still loading, and the
        storage the browser already holds. */
    constructor (persisted: map<string, Stored>)
      requires WellFormedStorage(persisted)
      ensures Valid()
      ensures user == None && token == None && loading
      ensures storage == persisted
    {
      user := None;
      token := None;
      loading := true;
      storage := persisted;
    }

    /** The mount effect: load the stored session when both entries are
        truthy, then stop loading. */
    method Restore()
      requires Valid()
      modifies this
      ensures Valid()
      ensures !loading
      ensures storage == old(storage)
      ensures var (t, u) := Restored(old(storage));
              if t.Some? then token == t && user == u
              else token == old(token) && user == old(user)
    {
      if StoredTruthy(storage, AuthTokenKey) && StoredTruthy(storage, UserDataKey) {
        token := Some(storage[AuthTokenKey].text);
        user := Some(storage[UserDataKey].record);
      }
      loading := false;
    }

    /** `login`: the request carries the current token in a `Token` header;
        an answer outside 2xx or a rejected request leaves everything as it
        was and reports the message, an ok answer installs and stores the
        session. */
    method Login(outcome: Fetched<LoginBody>) returns (authorization: string, result: LoginResult)
      requires Valid()
      modifies this
      ensures Valid()
      ensures authorization == "Token " + TokenText(old(token))
      ensures loading == old(loading)
      ensures result.success <==> outcome.Responded? && IsOk(outcome.status)
      ensures result.success ==>
                && result.error == None
                && token == Some(outcome.body.token)
                && user == Some(outcome.body.user)
                && storage == old(storage)[AuthTokenKey := Text(outcome.body.token)]
                                          [UserDataKey := UserJson(outcome.body.user)]
      ensures !result.success ==>
                && token == old(token) && user == old(user) && storage == old(storage)
                && result.error == Some(if outcome.Threw? then ErrorMessage(outcome.thrown)
                                        else InvalidCredentialsMessage)
    {
      authorization := "Token " + TokenText(token);
      match outcome {
        case Threw(e) =>
          result := LoginResult(false, Some(ErrorMessage(e)));
        case Responded(status, body) =>
          if !IsOk(status) {
            result := LoginResult(false, Some(ErrorMessage(ErrorObject(InvalidCredentialsMessage))));
          } else {
            token := Some(body.token);
            user := Some(body.user);
            storage := storage[AuthTokenKey := Text(body.token)];
            storage := storage[UserDataKey := UserJson(body.user)];
            result := LoginResult(true, None);
          }
      }
    }

    /** `logout`: tell the server only when a token is held, then clear the
        session and both keys whatever the server did. */
    method Logout() returns (request: Option<string>)
      requires Valid()
      modifies this
      ensures Valid()
      ensures request.Some? <==> Truthy(old(token))
      ensures request.Some? ==> request.value == BearerHeader(old(token))
      ensures user == None && token == None
      ensures storage == old(storage) - {AuthTokenKey, UserDataKey}
      ensures loading == old(loading)
    {
      if Truthy(token) {
        request := Some(BearerHeader(token));
      } else {
        request := None;
      }
      user := None;
      token := None;
      storage := storage - {AuthTokenKey, UserDataKey};
    }

    /** `refreshUserData`: without a token nothing happens; with one, an ok
        answer replaces the user and its stored copy, keeping the token, and
        any other outcome changes nothing. */
    method RefreshUserData(outcome: Fetched<UserData>) returns (request: Option<string>)
      requires Valid()
      modifies this
      ensures Valid()
      ensures request.Some? <==> Truthy(old(token))
      ensures request.Some? ==> request.value == BearerHeader(old(token))
      ensures token == old(token) && loading == old(loading)
      ensures if request.Some? && outcome.Responded? && IsOk(outcome.status)
              then user == Some(outcome.body)
                   && storage == old(storage)[UserDataKey := UserJson(outcome.body)]
              else user == old(user) && storage == old(storage)
    {
      if !Truthy(token) {
        return None;
      }
      request := Some(BearerHeader(token));
      if outcome.Responded? && IsOk(outcome.status) {
        user := Some(outcome.body);
        storage := storage[UserDataKey := UserJson(outcome.body)];
      }
    }

    /** `authenticatedFetch`: send the request with the default headers under
        the caller's; a 401 answer ends the session and rejects with the
        expiry message, any other answer comes back as it is. */
    method AuthenticatedFetch<B>(callerHeaders: map<string, string>, outcome: Fetched<B>)
      returns (sent: map<string, string>, logoutRequest: Option<string>, result: FetchResult<B>)
      requires Valid()
      modifies this
      ensures Valid()
      ensures sent == RequestHeaders(old(token), callerHeaders)
      ensures loading == old(loading)
      ensures outcome.Threw? ==> result == Rejected(outcome.thrown)
      ensures outcome.Responded? && outcome.status == Unauthorized ==>
                result == Rejected(ErrorObject(SessionExpiredMessage))
      ensures outcome.Responded? && outcome.status != Unauthorized ==>
                result == Returned(outcome.status, outcome.body)
      ensures if outcome.Responded? && outcome.status == Unauthorized
              then && user == None && token == None
                   && storage == old(storage) - {AuthTokenKey, UserDataKey}
                   && (logoutRequest.Some? <==> Truthy(old(token)))
                   && (logoutRequest.Some? ==> logoutRequest.value == BearerHeader(old(token)))
              else && user == old(user) && token == old(token) && storage == old(storage)
                   && logoutRequest == None
    {
      sent := RequestHeaders(token, callerHeaders);
      logoutRequest := None;
      match outcome {
        case Threw(e) =>
          result := Rejected(e);
        case Responded(status, body) =>
          if status == Unauthorized {
            logoutRequest := Logout();
            result := Rejected(ErrorObject(SessionExpiredMessage));
          } else {
            result := Returned(status, body);
          }
      }
    }
  }

  /** A login followed by a reload restores the same session when the server
      handed out a non-empty token. */
  method LoginSurvivesReload(persisted: map<string, Stored>, body: LoginBody)
    returns (before: (Option<string>, Option<UserData>), after: (Option<string>, Option<UserData>))
    requires WellFormedStorage(persisted)
    requires |body.token| > 0
    ensures before == (Some(body.token), Some(body.user))
    ensures after == before
  {
    var p := new AuthProvider(persisted);
    var _, result := p.Login(Responded(200, body));
    before := (p.token, p.user);
    var q := new AuthProvider(p.storage);
    q.Restore();
    after := (q.token, q.user);
  }
}
