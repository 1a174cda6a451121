/** The user record, the user table, the session and the one-time-code rules shared by the resolvers. */
module Accounts {
  import opened Outcomes
  import opened Lists

  type Username = string
  type MovieId = int

  /** A one-time code is valid for ten minutes after it is issued (milliseconds). */
  const OtpLifetimeMs: int := 10 * 60 * 1000

  /**
   * One stored account. `password` is the bcrypt hash, absent for accounts created
   * through Google sign-in; `otpExpires` is a time in milliseconds.
   */
  datatype User = User(
    email: string,
    password: Option<string>,
    publicName: Option<string>,
    isVerified: bool,
    otp: Option<string>,
    otpExpires: Option<int>,
    savedMovies: seq<MovieId>,
    watchedMovies: seq<MovieId>,
    followers: seq<Username>,
    following: seq<Username>,
    followRequests: seq<Username>)

  /** The user collection, keyed by username (the key also stands for the document id). */
  type Table = map<Username, User>

  /** The decoded session token: it carries the account's identity and nothing else. */
  datatype Claims = Claims(id: Username)

  /** The request context: no claims when the bearer token is absent or invalid. */
  type Session = Option<Claims>

  /** Some account is registered with this email. */
  predicate EmailTaken(users: Table, email: string)
  {
    exists u :: u in users && users[u].email == email
  }

  /** No two accounts share an email (the collection has a unique index on it). */
  ghost predicate UniqueEmails(users: Table)
  {
    forall u, v :: u in users && v in users && users[u].email == users[v].email ==> u == v
  }

  /** The account registered with this email. */
  ghost function Owner(users: Table, email: string): (u: Username)
    requires EmailTaken(users, email)
    ensures u in users && users[u].email == email
  {
    var u :| u in users && users[u].email == email; u
  }

  /** `User.findOne({ email })`: the account with this email, if any. */
  method FindByEmail(users: Table, email: string) returns (found: Option<Username>)
    ensures found.None? <==> !EmailTaken(users, email)
    ensures found.Some? ==> found.value in users && users[found.value].email == email
    ensures found.Some? && UniqueEmails(users) ==> found.value == Owner(users, email)
  {
    if EmailTaken(users, email) {
      var u :| u in users && users[u].email == email;
      found := Some(u);
    } else {
      found := None;
    }
  }

  /** A date compared with `<` in JavaScript: a null expiry compares as time 0. */
  function ExpiryMillis(expires: Option<int>): int
  {
    match expires
    case None => 0
    case Some(t) => t
  }

  /**
   * The guard of verifyOTP and resetPassword: the code is refused when it differs
   * from the stored one (a cleared code never matches) or its expiry lies before now.
   */
  predicate OtpRejected(user: User, code: string, now: int)
  {
    user.otp != Some(code) || ExpiryMillis(user.otpExpires) < now
  }

  /** A code is accepted exactly when it is the stored one and has not expired. */
  lemma OtpAcceptedMeans(user: User, code: string, now: int)
    ensures !OtpRejected(user, code, now) <==>
      user.otp == Some(code) && now <= ExpiryMillis(user.otpExpires)
  {
  }

  /** The record `register` creates: unverified, with a fresh code and empty lists. */
  function Registered(email: string, hashed: string, publicName: Option<string>, code: string, now: int): (u: User)
    ensures u.email == email && u.password == Some(hashed) && !u.isVerified
    ensures !OtpRejected(u, code, now) && !OtpRejected(u, code, now + OtpLifetimeMs)
    ensures OtpRejected(u, code, now + OtpLifetimeMs + 1)
    ensures u.followers == u.following == u.followRequests == []
    ensures u.savedMovies == u.watchedMovies == []
  {
    User(email, Some(hashed), publicName, false, Some(code), Some(now + OtpLifetimeMs), [], [], [], [], [])
  }

  /** The record Google sign-in creates: verified, without password, code or lists. */
  function OAuthAccount(email: string): (u: User)
    ensures u.email == email && u.isVerified && u.password.None?
    ensures u.otp.None? && u.otpExpires.None?
    ensures u.followers == u.following == u.followRequests == []
    ensures u.savedMovies == u.watchedMovies == []
  {
    User(email, None, None, true, None, None, [], [], [], [], [])
  }

  /**
   * The follow-request bookkeeping every mutation keeps: no account lists itself,
   * a requester is pending at most once, and never both pending and approved.
   */
  ghost predicate SocialRecordOk(name: Username, u: User)
  {
    && name !in u.followers
    && name !in u.following
    && name !in u.followRequests
    && Distinct(u.followRequests)
    && forall v :: v in u.followRequests ==> v !in u.followers
  }

  ghost predicate SocialInvariant(users: Table)
  {
    forall u :: u in users ==> SocialRecordOk(u, users[u])
  }
}
