/** The session check run before a protected handler (src/extractors.rs,
    `AuthenticatedUser::from_request_parts`).

    The signed cookie jar is a library this model does not contain: its
    outcome appears as `cookie`, the session token of a cookie whose
    signature already checked, or `None`. The clock (`Utc::now`) is the
    integer `now`. */
module Extractors {
  import opened Base
  import opened Auth
  import opened State

  datatype AuthenticatedUser = AuthenticatedUser(username: string, role: UserRole)

  /** The three rejections; each is an `UNAUTHORIZED` response. */
  datatype Rejection = NotSignedIn | InvalidSessionCookie | SessionExpired

  /** The text of each rejection. */
  function Message(r: Rejection): string
  {
    match r
    case NotSignedIn => "you are not signed in"
    case InvalidSessionCookie => "not a valid session cookie"
    case SessionExpired => "session expired"
  }

  /** A client can tell the three rejections apart by their text. */
  lemma MessagesDistinct(a: Rejection, b: Rejection)
    requires a != b
    ensures Message(a) != Message(b)
  {
  }

  /** What the code needs to look up the role without panicking: a session
      the cookie names belongs to a known user. */
  predicate RoleLookupSucceeds(cookie: Option<string>, sessions: map<string, UserSession>,
                               users: map<string, User>)
  {
    cookie.Some? && cookie.value in sessions ==> sessions[cookie.value].username in users
  }

  /** Cookie, then session, then role, then the expiration check. */
  function FromRequestParts(cookie: Option<string>, sessions: map<string, UserSession>,
                            users: map<string, User>, now: int): (r: Result<AuthenticatedUser, Rejection>)
    requires RoleLookupSucceeds(cookie, sessions, users)
    ensures r.Success? <==>
      cookie.Some? && cookie.value in sessions && sessions[cookie.value].expiration > now
    ensures r.Success? ==>
      && r.value.username == sessions[cookie.value].username
      && r.value.role == users[r.value.username].role
    ensures r == Failure(NotSignedIn) <==> cookie.None?
    ensures r == Failure(InvalidSessionCookie) <==> cookie.Some? && cookie.value !in sessions
    ensures r == Failure(SessionExpired) <==>
      cookie.Some? && cookie.value in sessions && sessions[cookie.value].expiration <= now
  {
    match cookie
    case None => Failure(NotSignedIn)
    case Some(token) =>
      if token !in sessions then Failure(InvalidSessionCookie)
      else
        var session := sessions[token];
        var role := users[session.username].role;
        if session.expiration > now then Success(AuthenticatedUser(session.username, role))
        else Failure(SessionExpired)
  }

  /** A session that is accepted at `now` was accepted at every earlier time,
      and one rejected as expired stays expired at every later time: time
      only moves a session from active to expired. */
  lemma ExpiryIsPermanent(token: string, sessions: map<string, UserSession>,
                          users: map<string, User>, now: int, later: int)
    requires RoleLookupSucceeds(Some(token), sessions, users)
    requires now <= later
    ensures FromRequestParts(Some(token), sessions, users, later).Success? ==>
            FromRequestParts(Some(token), sessions, users, now).Success?
    ensures FromRequestParts(Some(token), sessions, users, now) == Failure(SessionExpired) ==>
            FromRequestParts(Some(token), sessions, users, later) == Failure(SessionExpired)
  {
  }

  /** The state invariant covers every token, even those of expired
      sessions, so the role lookup never panics on a valid state. */
  lemma ValidStateHasRoles(app: AppState, cookie: Option<string>)
    requires app.Valid()
    ensures RoleLookupSucceeds(cookie, app.userSessions, app.users)
  {
  }
}
