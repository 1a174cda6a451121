/**
 * The mutation resolvers. The user collection is the field `users` of a store
 * object; each resolver either fails, leaving the collection as it was, or
 * replaces the records it saves.
 */
module Mutations {
  import opened Outcomes
  import opened Lists
  import opened Accounts
  import opened Queries

  /** What `login` hands back: the signed session identity and the account. */
  datatype AuthPayload = AuthPayload(token: Claims, user: User)

  /** `login`: reads the collection and changes nothing. */
  method Login(users: Table, email: string, password: string, compare: (string, string) -> bool)
    returns (r: Result<AuthPayload>)
    requires UniqueEmails(users)
    ensures !EmailTaken(users, email) ==> r == Err(InvalidCredentialsOrNotVerified)
    ensures EmailTaken(users, email) ==>
      var u := users[Owner(users, email)];
      && (!u.isVerified ==> r == Err(InvalidCredentialsOrNotVerified))
      && (u.isVerified && u.password.None? ==> r == Err(IllegalArguments))
      && (u.isVerified && u.password.Some? && !compare(password, u.password.value) ==> r == Err(InvalidCredentials))
    ensures r.Ok? <==>
      EmailTaken(users, email) && users[Owner(users, email)].isVerified &&
      users[Owner(users, email)].password.Some? &&
      compare(password, users[Owner(users, email)].password.value)
    // the session identifies exactly the verified account whose hash matched
    ensures r.Ok? ==>
      && r.value.token.id in users
      && users[r.value.token.id] == r.value.user
      && r.value.user.email == email
      && r.value.user.isVerified
  {
    var found := FindByEmail(users, email);
    if found.None? || !users[found.value].isVerified {
      return Err(InvalidCredentialsOrNotVerified);
    }
    var u := users[found.value];
    if u.password.None? {
      return Err(IllegalArguments);
    }
    var valid := compare(password, u.password.value);
    if !valid {
      return Err(InvalidCredentials);
    }
    r := Ok(AuthPayload(Claims(found.value), u));
  }

  class UserStore {
    var users: Table

    /** The unique index on email. */
    ghost predicate Valid()
      reads this
    {
      UniqueEmails(users)
    }

    constructor ()
      ensures Valid() && users == map[]
    {
      users := map[];
    }

    /** Creates an unverified account; `hashed` is the password's hash, `code` the mailed code. */
    method Register(publicName: Option<string>, email: string, hashed: string, username: Username, code: string, now: int)
      returns (r: Result<bool>)
      requires Valid()
      modifies this
      ensures Valid()
      ensures EmailTaken(old(users), email) ==> r == Err(EmailAlreadyRegistered)
      ensures !EmailTaken(old(users), email) && username in old(users) ==> r == Err(UsernameAlreadyTaken)
      ensures r.Err? ==> users == old(users)
      ensures r.Ok? <==> !EmailTaken(old(users), email) && username !in old(users)
      ensures r.Ok? ==> r.value && users == old(users)[username := Registered(email, hashed, publicName, code, now)]
      ensures SocialInvariant(old(users)) ==> SocialInvariant(users)
    {
      var existing := FindByEmail(users, email);
      if existing.Some? {
        return Err(EmailAlreadyRegistered);
      }
      if username in users {
        return Err(UsernameAlreadyTaken);
      }
      users := users[username := Registered(email, hashed, publicName, code, now)];
      r := Ok(true);
    }

    /** Marks the account verified when the code matches; an already verified account passes unchecked. */
    method VerifyOtp(email: string, code: string, now: int) returns (r: Result<bool>)
      requires Valid()
      modifies this
      ensures Valid()
      ensures !EmailTaken(old(users), email) ==> r == Err(UserNotFound)
      ensures r.Err? || (EmailTaken(old(users), email) && old(users)[Owner(old(users), email)].isVerified) ==>
        users == old(users)
      ensures EmailTaken(old(users), email) ==>
        var name := Owner(old(users), email);
        var u := old(users)[name];
        && (u.isVerified ==> r == Ok(true))
        && (!u.isVerified && OtpRejected(u, code, now) ==> r == Err(InvalidOrExpiredOtp))
        && (!u.isVerified && !OtpRejected(u, code, now) ==>
              r == Ok(true) &&
              users == old(users)[name := u.(isVerified := true, otp := None, otpExpires := None)])
      ensures SocialInvariant(old(users)) ==> SocialInvariant(users)
    {
      var found := FindByEmail(users, email);
      if found.None? {
        return Err(UserNotFound);
      }
      var name := found.value;
      var u := users[name];
      if u.isVerified {
        return Ok(true);
      }
      if OtpRejected(u, code, now) {
        return Err(InvalidOrExpiredOtp);
      }
      u := u.(isVerified := true);
      u := u.(otp := None);
      u := u.(otpExpires := None);
      users := users[name := u];
      r := Ok(true);
    }

    /** Issues a new code for the account, valid for ten minutes from now. */
    method ForgotPassword(email: string, code: string, now: int) returns (r: Result<bool>)
      requires Valid()
      modifies this
      ensures Valid()
      ensures r.Ok? <==> EmailTaken(old(users), email)
      ensures r.Err? ==> r.error == UserNotFound && users == old(users)
      ensures r.Ok? ==>
        var name := Owner(old(users), email);
        var u := old(users)[name];
        r.value && users == old(users)[name := u.(otp := Some(code), otpExpires := Some(now + OtpLifetimeMs))]
      ensures SocialInvariant(old(users)) ==> SocialInvariant(users)
    {
      var found := FindByEmail(users, email);
      if found.None? {
        return Err(UserNotFound);
      }
      var name := found.value;
      var u := users[name];
      u := u.(otp := Some(code));
      u := u.(otpExpires := Some(now + OtpLifetimeMs));
      users := users[name := u];
      r := Ok(true);
    }

    /** Replaces the password hash when the code matches; `hashed` is the new password's hash. */
    method ResetPassword(email: string, code: string, hashed: string, now: int) returns (r: Result<bool>)
      requires Valid()
      modifies this
      ensures Valid()
      ensures !EmailTaken(old(users), email) ==> r == Err(UserNotFound)
      ensures r.Err? ==> users == old(users)
      ensures EmailTaken(old(users), email) ==>
        var name := Owner(old(users), email);
        var u := old(users)[name];
        && (OtpRejected(u, code, now) ==> r == Err(InvalidOrExpiredOtp))
        && (!OtpRejected(u, code, now) ==>
              r == Ok(true) &&
              users == old(users)[name := u.(password := Some(hashed), otp := None, otpExpires := None)])
      ensures SocialInvariant(old(users)) ==> SocialInvariant(users)
    {
      var found := FindByEmail(users, email);
      if found.None? {
        return Err(UserNotFound);
      }
      var name := found.value;
      var u := users[name];
      if OtpRejected(u, code, now) {
        return Err(InvalidOrExpiredOtp);
      }
      u := u.(password := Some(hashed));
      u := u.(otp := None);
      u := u.(otpExpires := None);
      users := users[name := u];
      r := Ok(true);
    }

    /** `$addToSet` on the caller's saved list; a token for a vanished account updates nothing. */
    method SaveForLater(session: Session, tmdbId: MovieId) returns (r: Result<bool>)
      requires Valid()
      modifies this
      ensures Valid()
      ensures session.None? ==> r == Err(NotAuthenticated) && users == old(users)
      ensures session.Some? ==> r == Ok(true)
      ensures session.Some? && session.value.id !in old(users) ==> users == old(users)
      ensures session.Some? && session.value.id in old(users) ==>
        var me := session.value.id;
        var u := old(users)[me];
        users == old(users)[me := u.(savedMovies := AddToSet(u.savedMovies, tmdbId))]
      ensures SocialInvariant(old(users)) ==> SocialInvariant(users)
    {
      if session.None? {
        return Err(NotAuthenticated);
      }
      var me := session.value.id;
      if me in users {
        users := users[me := users[me].(savedMovies := AddToSet(users[me].savedMovies, tmdbId))];
      }
      r := Ok(true);
    }

    /** `$addToSet` on the caller's watched list. */
    method MarkAsWatched(session: Session, tmdbId: MovieId) returns (r: Result<bool>)
      requires Valid()
      modifies this
      ensures Valid()
      ensures session.None? ==> r == Err(NotAuthenticated) && users == old(users)
      ensures session.Some? ==> r == Ok(true)
      ensures session.Some? && session.value.id !in old(users) ==> users == old(users)
      ensures session.Some? && session.value.id in old(users) ==>
        var me := session.value.id;
        var u := old(users)[me];
        users == old(users)[me := u.(watchedMovies := AddToSet(u.watchedMovies, tmdbId))]
      ensures SocialInvariant(old(users)) ==> SocialInvariant(users)
    {
      if session.None? {
        return Err(NotAuthenticated);
      }
      var me := session.value.id;
      if me in users {
        users := users[me := users[me].(watchedMovies := AddToSet(users[me].watchedMovies, tmdbId))];
      }
      r := Ok(true);
    }

    /** `$pull` on the caller's saved list. */
    method RemoveFromSaved(session: Session, tmdbId: MovieId) returns (r: Result<bool>)
      requires Valid()
      modifies this
      ensures Valid()
      ensures session.None? ==> r == Err(NotAuthenticated) && users == old(users)
      ensures session.Some? ==> r == Ok(true)
      ensures session.Some? && session.value.id !in old(users) ==> users == old(users)
      ensures session.Some? && session.value.id in old(users) ==>
        var me := session.value.id;
        var u := old(users)[me];
        users == old(users)[me := u.(savedMovies := Pull(u.savedMovies, tmdbId))]
      ensures SocialInvariant(old(users)) ==> SocialInvariant(users)
    {
      if session.None? {
        return Err(NotAuthenticated);
      }
      var me := session.value.id;
      if me in users {
        users := users[me := users[me].(savedMovies := Pull(users[me].savedMovies, tmdbId))];
      }
      r := Ok(true);
    }

    /** `$pull` on the caller's watched list. */
    method RemoveFromWatched(session: Session, tmdbId: MovieId) returns (r: Result<bool>)
      requires Valid()
      modifies this
      ensures Valid()
      ensures session.None? ==> r == Err(NotAuthenticated) && users == old(users)
      ensures session.Some? ==> r == Ok(true)
      ensures session.Some? && session.value.id !in old(users) ==> users == old(users)
      ensures session.Some? && session.value.id in old(users) ==>
        var me := session.value.id;
        var u := old(users)[me];
        users == old(users)[me := u.(watchedMovies := Pull(u.watchedMovies, tmdbId))]
      ensures SocialInvariant(old(users)) ==> SocialInvariant(users)
    {
      if session.None? {
        return Err(NotAuthenticated);
      }
      var me := session.value.id;
      if me in users {
        users := users[me := users[me].(watchedMovies := Pull(users[me].watchedMovies, tmdbId))];
      }
      r := Ok(true);
    }

    /**
     * Asks `username` to accept the caller as a follower. A request that is already
     * pending, or already approved, is a silent no-op answered with false.
     */
    method SendFollowRequest(session: Session, username: Username) returns (r: Result<bool>)
      requires Valid()
      modifies this
      ensures Valid()
      ensures session.None? ==> r == Err(NotAuthenticated)
      ensures session.Some? && session.value.id !in old(users) ==> r == Err(NullRecord)
      ensures session.Some? && session.value.id in old(users) && session.value.id == username ==>
        r == Err(CannotFollowYourself)
      ensures session.Some? && session.value.id in old(users) && session.value.id != username && username !in old(users) ==>
        r == Err(TargetNotFound)
      ensures r.Err? || r == Ok(false) ==> users == old(users)
      ensures r == Ok(false) <==>
        session.Some? && session.value.id in old(users) && session.value.id != username && username in old(users) &&
        (session.value.id in old(users)[username].followRequests || session.value.id in old(users)[username].followers)
      ensures r == Ok(true) <==>
        session.Some? && session.value.id in old(users) && session.value.id != username && username in old(users) &&
        session.value.id !in old(users)[username].followRequests && session.value.id !in old(users)[username].followers
      ensures r == Ok(true) ==> users == Sent(old(users), session.value.id, username)
      ensures SocialInvariant(old(users)) ==> SocialInvariant(users)
    {
      if session.None? {
        return Err(NotAuthenticated);
      }
      var me := session.value.id;
      if me !in users {
        return Err(NullRecord);
      }
      if me == username {
        return Err(CannotFollowYourself);
      }
      if username !in users {
        return Err(TargetNotFound);
      }
      var target := users[username];
      if me in target.followRequests || me in target.followers {
        return Ok(false);
      }
      target := target.(followRequests := target.followRequests + [me]);
      users := users[username := target];
      r := Ok(true);
      SendKeepsSocialInvariant(old(users), me, username);
    }

    /**
     * Approves the pending request of `username`: one occurrence leaves the caller's
     * requests, the requester joins the caller's followers and the caller joins the
     * requester's following. A missing requester record fails before anything is saved.
     */
    method AcceptFollowRequest(session: Session, username: Username) returns (r: Result<bool>)
      requires Valid()
      modifies this
      ensures Valid()
      ensures session.None? ==> r == Err(NotAuthenticated)
      ensures session.Some? && session.value.id !in old(users) ==> r == Err(NullRecord)
      ensures session.Some? && session.value.id in old(users) && username !in old(users)[session.value.id].followRequests ==>
        r == Err(NoSuchFollowRequest)
      ensures (session.Some? && session.value.id in old(users) && username !in old(users) &&
               username in old(users)[session.value.id].followRequests) ==> r == Err(NullRecord)
      ensures r.Err? ==> users == old(users)
      ensures r.Ok? <==>
        session.Some? && session.value.id in old(users) && username in old(users) &&
        username in old(users)[session.value.id].followRequests
      ensures r.Ok? ==> r.value && users == Accepted(old(users), session.value.id, username)
      ensures SocialInvariant(old(users)) ==> SocialInvariant(users)
    {
      if session.None? {
        return Err(NotAuthenticated);
      }
      var me := session.value.id;
      if me !in users {
        return Err(NullRecord);
      }
      var rec := users[me];
      var idx := IndexOf(rec.followRequests, username);
      if idx == -1 {
        return Err(NoSuchFollowRequest);
      }
      rec := rec.(followRequests := RemoveAt(rec.followRequests, idx));
      rec := rec.(followers := rec.followers + [username]);
      if username !in users {
        return Err(NullRecord);
      }
      var requester := users[username];
      requester := requester.(following := requester.following + [me]);
      // me.save(), then requester.save(), which writes only the path it changed
      ghost var before := users;
      users := users[me := rec];
      ghost var mid := users;
      assert mid[username].following + [me] == requester.following;
      users := users[username := users[username].(following := requester.following)];
      r := Ok(true);
      assert users == Accepted(before, me, username);
      AcceptKeepsSocialInvariant(before, me, username);
    }

    /** Drops the pending request of `username`; no follower or following list changes. */
    method RejectFollowRequest(session: Session, username: Username) returns (r: Result<bool>)
      requires Valid()
      modifies this
      ensures Valid()
      ensures session.None? ==> r == Err(NotAuthenticated)
      ensures session.Some? && session.value.id !in old(users) ==> r == Err(NullRecord)
      ensures session.Some? && session.value.id in old(users) && username !in old(users)[session.value.id].followRequests ==>
        r == Err(NoSuchFollowRequest)
      ensures r.Err? ==> users == old(users)
      ensures r.Ok? <==> session.Some? && session.value.id in old(users) && username in old(users)[session.value.id].followRequests
      ensures r.Ok? ==> r.value && users == Rejected(old(users), session.value.id, username)
      ensures SocialInvariant(old(users)) ==> SocialInvariant(users)
    {
      if session.None? {
        return Err(NotAuthenticated);
      }
      var me := session.value.id;
      if me !in users {
        return Err(NullRecord);
      }
      var rec := users[me];
      var idx := IndexOf(rec.followRequests, username);
      if idx == -1 {
        return Err(NoSuchFollowRequest);
      }
      rec := rec.(followRequests := RemoveAt(rec.followRequests, idx));
      users := users[me := rec];
      r := Ok(true);
      RejectKeepsSocialInvariant(old(users), me, username);
    }
  }

  // ---- The table after each successful follow-request mutation ----

  /** The table after `sendFollowRequest` succeeds: the caller is appended to the target's requests. */
  function Sent(users: Table, me: Username, target: Username): Table
    requires target in users
  {
    var t := users[target];
    users[target := t.(followRequests := t.followRequests + [me])]
  }

  /**
   * The table after `acceptFollowRequest` succeeds: the caller's record is saved with the
   * request spliced out and the follower pushed, then the requester's `following` path.
   */
  function Accepted(users: Table, me: Username, requester: Username): Table
    requires me in users && requester in users && requester in users[me].followRequests
  {
    var m := users[me];
    var mid := users[me := m.(followRequests := RemoveAt(m.followRequests, IndexOf(m.followRequests, requester)),
                              followers := m.followers + [requester])];
    mid[requester := mid[requester].(following := mid[requester].following + [me])]
  }

  /** The table after `rejectFollowRequest` succeeds: the request is spliced out. */
  function Rejected(users: Table, me: Username, requester: Username): Table
    requires me in users && requester in users[me].followRequests
  {
    var m := users[me];
    users[me := m.(followRequests := RemoveAt(m.followRequests, IndexOf(m.followRequests, requester)))]
  }

  /**
   * Accepting does three things and nothing else: one occurrence of the requester leaves
   * the caller's requests, the requester is appended to the caller's followers, and the
   * caller is appended to the requester's following.
   */
  lemma AcceptedEffects(users: Table, me: Username, requester: Username)
    requires me in users && requester in users && requester in users[me].followRequests
    requires requester != me
    ensures var after := Accepted(users, me, requester);
      && after.Keys == users.Keys
      && multiset(after[me].followRequests) + multiset{requester} == multiset(users[me].followRequests)
      && after[me].followers == users[me].followers + [requester]
      && after[me] == users[me].(followRequests := after[me].followRequests, followers := after[me].followers)
      && after[requester] == users[requester].(following := users[requester].following + [me])
      && forall u :: u in users && u != me && u != requester ==> after[u] == users[u]
  {
  }

  /** Rejecting removes one occurrence of the requester from the caller's requests and changes nothing else. */
  lemma RejectedEffects(users: Table, me: Username, requester: Username)
    requires me in users && requester in users[me].followRequests
    ensures var after := Rejected(users, me, requester);
      && after.Keys == users.Keys
      && multiset(after[me].followRequests) + multiset{requester} == multiset(users[me].followRequests)
      && after[me] == users[me].(followRequests := after[me].followRequests)
      && forall u :: u in users && u != me ==> after[u] == users[u]
  {
  }

  /** A request that was just appended is found at the end, and splicing it out restores the list. */
  lemma {:induction false} SpliceAppended(s: seq<Username>, x: Username)
    requires x !in s
    ensures IndexOf(s + [x], x) == |s|
    ensures RemoveAt(s + [x], |s|) == s
  {
    assert forall k :: 0 <= k < |s| ==> (s + [x])[k] == s[k];
    assert (s + [x])[..|s|] == s;
  }

  /** Rejecting a request that was just sent restores the table exactly. */
  lemma SendThenReject(users: Table, a: Username, b: Username)
    requires a != b && b in users
    requires a !in users[b].followRequests
    ensures b in Sent(users, a, b) && a in Sent(users, a, b)[b].followRequests
    ensures Rejected(Sent(users, a, b), b, a) == users
  {
    SpliceAppended(users[b].followRequests, a);
    var sent := Sent(users, a, b);
    assert sent[b].followRequests == users[b].followRequests + [a];
    assert Rejected(sent, b, a)[b] == users[b];
  }

  /**
   * A request sent and then accepted leaves the target's requests as they were and
   * records the pair on both sides.
   */
  lemma SendThenAccept(users: Table, a: Username, b: Username)
    requires a != b && a in users && b in users
    requires a !in users[b].followRequests
    ensures a in Sent(users, a, b) && b in Sent(users, a, b) && a in Sent(users, a, b)[b].followRequests
    ensures var after := Accepted(Sent(users, a, b), b, a);
      && after[b].followRequests == users[b].followRequests
      && after[b].followers == users[b].followers + [a]
      && after[a].following == users[a].following + [b]
  {
    SpliceAppended(users[b].followRequests, a);
  }

  /** Once accepted, the requester passes the follower check of the caller's gated reads. */
  lemma AcceptGrantsGatedReads(users: Table, me: Username, requester: Username, which: MovieList)
    requires me in users && requester in users && requester in users[me].followRequests
    requires requester != me
    ensures GatedMovies(Accepted(users, me, requester), Some(Claims(requester)), me, which) == Ok(ListOf(users[me], which))
  {
    AcceptedEffects(users, me, requester);
  }

  // ---- The follow-request bookkeeping each social mutation keeps ----

  lemma SendKeepsSocialInvariant(users: Table, me: Username, target: Username)
    requires me != target && target in users
    requires me !in users[target].followRequests && me !in users[target].followers
    ensures SocialInvariant(users) ==> SocialInvariant(Sent(users, me, target))
  {
  }

  /** The caller's record after accepting: the requester moves from the requests to the followers. */
  lemma AcceptRecordOk(me: Username, m: User, requester: Username)
    requires SocialRecordOk(me, m) && requester in m.followRequests
    ensures requester != me
    ensures SocialRecordOk(me, m.(followRequests := RemoveAt(m.followRequests, IndexOf(m.followRequests, requester)),
                                  followers := m.followers + [requester]))
  {
    var idx := IndexOf(m.followRequests, requester);
    RemoveAtDistinct(m.followRequests, idx);
  }

  lemma AcceptKeepsSocialInvariant(users: Table, me: Username, requester: Username)
    requires me in users && requester in users && requester in users[me].followRequests
    ensures SocialInvariant(users) ==> SocialInvariant(Accepted(users, me, requester))
  {
    if SocialInvariant(users) {
      var m := users[me];
      assert SocialRecordOk(me, m);
      AcceptRecordOk(me, m, requester);
      AcceptedEffects(users, me, requester);
      var after := Accepted(users, me, requester);
      assert SocialRecordOk(requester, users[requester]);
      forall u | u in after
        ensures SocialRecordOk(u, after[u])
      {
        if u != me && u != requester {
          assert after[u] == users[u];
        }
      }
    }
  }

  lemma RejectKeepsSocialInvariant(users: Table, me: Username, requester: Username)
    requires me in users && requester in users[me].followRequests
    ensures SocialInvariant(users) ==> SocialInvariant(Rejected(users, me, requester))
  {
  }
}
