/** The read-only resolvers over the user table. */
module Queries {
  import opened Outcomes
  import opened Accounts

  /** `followers(username)`: public, fails only for an unknown user. */
  function Followers(users: Table, username: Username): (r: Result<seq<Username>>)
    ensures r.Ok? <==> username in users
    ensures r.Ok? ==> r.value == users[username].followers
    ensures r.Err? ==> r.error == UserNotFound
  {
    if username !in users then Err(UserNotFound) else Ok(users[username].followers)
  }

  /** `following(username)`: public, fails only for an unknown user. */
  function Following(users: Table, username: Username): (r: Result<seq<Username>>)
    ensures r.Ok? <==> username in users
    ensures r.Ok? ==> r.value == users[username].following
    ensures r.Err? ==> r.error == UserNotFound
  {
    if username !in users then Err(UserNotFound) else Ok(users[username].following)
  }

  /** `pendingFollowRequests`: the caller's own inbound requests. */
  function PendingFollowRequests(users: Table, session: Session): (r: Result<seq<Username>>)
    ensures session.None? ==> r == Err(NotAuthenticated)
    ensures r.Ok? <==> session.Some? && session.value.id in users
    ensures r.Ok? ==> r.value == users[session.value.id].followRequests
    // a token whose account no longer exists: `me.followRequests` is read on null
    ensures session.Some? && session.value.id !in users ==> r == Err(NullRecord)
  {
    match session
    case None => Err(NotAuthenticated)
    case Some(c) => if c.id !in users then Err(NullRecord) else Ok(users[c.id].followRequests)
  }

  /** Which list of the target a gated read returns. */
  datatype MovieList = Watched | Saved

  function ListOf(u: User, which: MovieList): seq<MovieId>
  {
    match which
    case Watched => u.watchedMovies
    case Saved => u.savedMovies
  }

  /**
   * `userWatchedMovies` / `userSavedMovies`: the target's list, only for a viewer
   * who is among the target's approved followers; viewing oneself gets no exception.
   * The viewer is identified by the identity its session carries.
   */
  function GatedMovies(users: Table, session: Session, target: Username, which: MovieList): (r: Result<seq<MovieId>>)
    ensures session.None? ==> r == Err(NotAuthenticated)
    ensures session.Some? && target !in users ==> r == Err(UserNotFound)
    ensures r.Ok? <==> session.Some? && target in users && session.value.id in users[target].followers
    ensures r.Ok? ==> r.value == ListOf(users[target], which)
    ensures session.Some? && target in users && session.value.id !in users[target].followers ==>
      r == Err(NotApprovedFollower)
  {
    match session
    case None => Err(NotAuthenticated)
    case Some(c) =>
      if target !in users then Err(UserNotFound)
      else if c.id !in users[target].followers then Err(NotApprovedFollower)
      else Ok(ListOf(users[target], which))
  }

  function UserWatchedMovies(users: Table, session: Session, target: Username): (r: Result<seq<MovieId>>)
    ensures r.Ok? <==> session.Some? && target in users && session.value.id in users[target].followers
    ensures r.Ok? ==> r.value == users[target].watchedMovies
  {
    GatedMovies(users, session, target, Watched)
  }

  function UserSavedMovies(users: Table, session: Session, target: Username): (r: Result<seq<MovieId>>)
    ensures r.Ok? <==> session.Some? && target in users && session.value.id in users[target].followers
    ensures r.Ok? ==> r.value == users[target].savedMovies
  {
    GatedMovies(users, session, target, Saved)
  }

  /** An account that does not follow itself cannot read its own lists through the gated reads. */
  lemma NoSelfException(users: Table, name: Username, which: MovieList)
    requires name in users && SocialRecordOk(name, users[name])
    ensures GatedMovies(users, Some(Claims(name)), name, which) == Err(NotApprovedFollower)
  {
  }

  // ---- The gated reads as the source writes them ----

  /**
   * A property of the decoded token, as JavaScript reads it: the payload signed at
   * login holds `id` only, so any other property is undefined.
   */
  function ClaimsProperty(c: Claims, property: string): Option<string>
  {
    if property == "id" then Some(c.id) else None
  }

  /** `list.includes(value)` where the value may be undefined: lists of strings never include undefined. */
  function Includes(s: seq<Username>, value: Option<string>): bool
  {
    value.Some? && value.value in s
  }

  /** The gated read exactly as written: membership is tested for the session's `username` property. */
  function GatedMoviesAsWritten(users: Table, session: Session, target: Username, which: MovieList): Result<seq<MovieId>>
  {
    match session
    case None => Err(NotAuthenticated)
    case Some(c) =>
      if target !in users then Err(UserNotFound)
      else if !Includes(users[target].followers, ClaimsProperty(c, "username")) then Err(NotApprovedFollower)
      else Ok(ListOf(users[target], which))
  }

  /**
   * As written, no viewer ever passes the follower check: even an approved follower
   * of an existing target is refused.
   */
  lemma AsWrittenRefusesApprovedFollower(users: Table, viewer: Username, target: Username, which: MovieList)
    requires target in users && viewer in users[target].followers
    ensures GatedMovies(users, Some(Claims(viewer)), target, which).Ok?
    ensures GatedMoviesAsWritten(users, Some(Claims(viewer)), target, which) == Err(NotApprovedFollower)
  {
  }
}
