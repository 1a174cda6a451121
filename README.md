# CineApp backend resolvers and Google sign-in, modelled in Dafny

This project models the GraphQL resolvers of the CineApp backend and the Google
sign-in verify callback. Both work over one in-memory user table: a map from username
to a user record. A record holds the email, password hash, verification flag, one-time
code and its expiry, the saved and watched movie-id lists, and the `followers`,
`following` and `followRequests` lists of usernames.

- `outcomes.dfy` (`Outcomes`): `Option`, `Result` and one `Error` constructor for each
  message a resolver throws.
- `lists.dfy` (`Lists`): the array operations the resolvers use. These are `indexOf`,
  `splice(i, 1)`, and MongoDB's `$addToSet` and `$pull`.
- `accounts.dfy` (`Accounts`): the user record, the table, the session, lookup by
  email, the one-time-code guard, the records that registration and Google sign-in
  create, and the follow-request invariant.
- `queries.dfy` (`Queries`): the read-only resolvers `followers`, `following`,
  `pendingFollowRequests`, `userWatchedMovies` and `userSavedMovies`, as functions of
  the table.
- `mutations.dfy` (`Mutations`): `login`, which reads the table only, and the class
  `UserStore`. `UserStore`'s field `users` is the collection. Its methods are the
  mutations `register`, `verifyOTP`, `forgotPassword`, `resetPassword`,
  `saveForLater`, `markAsWatched`, `removeFromSaved`, `removeFromWatched`,
  `sendFollowRequest`, `acceptFollowRequest` and `rejectFollowRequest`. Each one
  either returns an error and leaves `users` unchanged, or replaces the records it
  saves. Its `ensures` give the whole new table.
- `googleauth.dfy` (`GoogleAuth`): how a username is derived from a display name, the
  loop that searches for a free username, and the verify callback.

External pieces become parameters:
- The value of `bcrypt.hash` is the argument `hashed`.
- `bcrypt.compare` is the function argument `compare`.
- The mailed one-time code is the argument `code`.
- The clock is `now`, in milliseconds. A code expires at `now + 600000`.
- The session is the decoded token, `Claims(id)`. The table's key stands for the
  document id, so `User.findById(user.id)` is `users[id]`.

Every method of `UserStore` keeps `Valid()`, which says emails are unique. This models
the unique index on `email` in `backend/models/User.js`. Each method also states that
it preserves `SocialInvariant`:
- no account lists itself in its own `followers`, `following` or `followRequests`;
- a requester is pending at most once;
- a requester is never both pending and an approved follower.

The methods do not require this invariant. They behave as the source does whatever the
stored lists hold. The model claims nothing about duplicates in `followers` or
`following`, or about those two lists staying symmetric: `acceptFollowRequest` pushes
onto them without checking.

Where the code and the design description differ, the model follows the code:
- The gated reads make no exception for viewing oneself (`Queries.NoSelfException`).
- Usernames are compared exactly as stored, with no trimming or lowercasing.
- `sendFollowRequest` answers an already pending or approved pair with `false`, not an
  error.
- There is no `unfollow`, `removeFollower`, profile or user-search operation in these
  sources.

Two JavaScript details are modelled:
- A cleared expiry (`null`) compares like time 0 under `<` (`Accounts.ExpiryMillis`).
- Reading a field of a record that was not found is a thrown `TypeError`
  (`Error.NullRecord`). This happens when the token names an account that no longer
  exists, or when the requester in `acceptFollowRequest` is missing. In the add/pull
  mutations, `findByIdAndUpdate` on a missing id updates nothing and still returns
  `true`.

## Model

| member | source | states |
|---|---|---|
| Lists.IndexOf | backend/Schema/resolvers.js:211-212 | the result is -1 exactly when the name is absent; otherwise it is the position of its first occurrence |
| Lists.RemoveAt | backend/Schema/resolvers.js:214 | `splice(idx, 1)` drops exactly the element at idx: the elements before and after keep their order, and the multiset loses one copy |
| Lists.AddToSet | backend/Schema/resolvers.js:151-161 | `$addToSet` keeps the old list as a prefix, always contains the id, grows only when the id was absent, and keeps a duplicate-free list duplicate-free |
| Lists.Pull | backend/Schema/resolvers.js:163-173 | `$pull` removes every occurrence of the id and keeps every other element's count; it is a no-op when the id is absent |
| Lists.AddToSetIdempotent | backend/Schema/resolvers.js:153 | adding an id twice equals adding it once; adding a present id leaves the list unchanged |
| Lists.PullRemovesOnly | backend/Schema/resolvers.js:165 | after a pull the id is absent, every other id keeps its membership, and pulling again changes nothing |
| Lists.PullUndoesAdd | backend/Schema/resolvers.js:151-167 | removing from saved undoes saving an id that was not saved before |
| Lists.RemoveAtDistinct | backend/Schema/resolvers.js:211-214 | in a duplicate-free request list, splicing out the found occurrence removes that name entirely and keeps the others |
| Accounts.FindByEmail | backend/Schema/resolvers.js:110-111 | `findOne({ email })` returns nothing exactly when no account has the email; otherwise it returns an account with that email, the unique one under the email index |
| Accounts.OtpAcceptedMeans | backend/Schema/resolvers.js:113 | a code passes exactly when it equals the stored code and the expiry is not before now |
| Accounts.Registered | backend/Schema/resolvers.js:87-104 | a new registration is unverified, stores the hash, has empty lists, and its code is accepted until `now + 600000` and refused one millisecond later |
| Accounts.OAuthAccount | backend/utils/googleAuth.js:20-24 | an account created by Google sign-in carries the profile email, is verified, and has no password, no code and empty lists |
| Queries.Followers | backend/Schema/resolvers.js:37-41 | the user's followers list, or "User not found" exactly when the user is unknown |
| Queries.Following | backend/Schema/resolvers.js:43-47 | the user's following list, or "User not found" exactly when the user is unknown |
| Queries.PendingFollowRequests | backend/Schema/resolvers.js:49-53 | the caller's own followRequests; fails when unauthenticated, and with a null-record error when the token's account is gone |
| Queries.GatedMovies | backend/Schema/resolvers.js:54-76 | returns the target's list exactly when the viewer is in the target's followers; otherwise fails with "Not authenticated", "User not found" or "must be an approved follower" |
| Queries.UserWatchedMovies | backend/Schema/resolvers.js:54-64 | returns the target's watched list exactly when the viewer is an approved follower of the target |
| Queries.UserSavedMovies | backend/Schema/resolvers.js:66-76 | returns the target's saved list exactly when the viewer is an approved follower of the target |
| Queries.NoSelfException | backend/Schema/resolvers.js:59-62 | an account that is not its own follower is refused when it reads its own lists |
| Queries.AsWrittenRefusesApprovedFollower | backend/Schema/resolvers.js:60-61 | for an approved follower, the read that checks the token's `username` property is refused, while the read that checks the token's identity succeeds |
| Mutations.Login | backend/Schema/resolvers.js:121-128 | gives each error case; succeeds exactly for a verified account whose hash matches, and its token identifies that account |
| Mutations.UserStore.Register | backend/Schema/resolvers.js:80-107 | email taken, then username taken, fail with no change; otherwise adds exactly the new unverified record under the username |
| Mutations.UserStore.VerifyOtp | backend/Schema/resolvers.js:109-119 | unknown email fails; a verified account returns true unchanged without a code check; a wrong or expired code fails unchanged; otherwise sets isVerified, clears the code and expiry, and nothing else changes |
| Mutations.UserStore.ForgotPassword | backend/Schema/resolvers.js:130-138 | unknown email fails unchanged; otherwise stores the new code with expiry `now + 600000`, and nothing else changes |
| Mutations.UserStore.ResetPassword | backend/Schema/resolvers.js:140-149 | unknown email, or a wrong or expired code, fails unchanged; otherwise replaces the hash, clears the code and expiry, and nothing else changes |
| Mutations.UserStore.SaveForLater | backend/Schema/resolvers.js:151-155 | fails unauthenticated; otherwise true, with only the caller's saved list changed, by add-to-set |
| Mutations.UserStore.MarkAsWatched | backend/Schema/resolvers.js:157-161 | fails unauthenticated; otherwise true, with only the caller's watched list changed, by add-to-set |
| Mutations.UserStore.RemoveFromSaved | backend/Schema/resolvers.js:163-167 | fails unauthenticated; otherwise true, with only the caller's saved list changed, by pulling every occurrence |
| Mutations.UserStore.RemoveFromWatched | backend/Schema/resolvers.js:169-173 | fails unauthenticated; otherwise true, with only the caller's watched list changed, by pulling every occurrence |
| Mutations.UserStore.SendFollowRequest | backend/Schema/resolvers.js:188-205 | each error leaves the table unchanged: self-follow, unknown target, unauthenticated, vanished caller; false with no change exactly when already pending or approved; true exactly otherwise, appending the caller to the target's followRequests and changing nothing else |
| Mutations.UserStore.AcceptFollowRequest | backend/Schema/resolvers.js:207-223 | no pending request, or a missing requester record, fails unchanged; success removes one occurrence from the caller's requests, appends the requester to the caller's followers and the caller to the requester's following, and changes nothing else |
| Mutations.UserStore.RejectFollowRequest | backend/Schema/resolvers.js:225-235 | no pending request fails unchanged; success removes one occurrence from the caller's requests and changes nothing else |
| Mutations.AcceptedEffects | backend/Schema/resolvers.js:211-221 | when the requester is not the caller, accepting changes exactly three lists: one occurrence leaves the caller's followRequests, the requester is appended to the caller's followers, the caller is appended to the requester's following; every other field and user is unchanged |
| Mutations.RejectedEffects | backend/Schema/resolvers.js:229-233 | rejecting removes one occurrence from the caller's followRequests; every other field of the caller and every other user is unchanged |
| Mutations.SpliceAppended | backend/Schema/resolvers.js:202-214 | a request appended by a send is found at the end by `indexOf`, and splicing it out restores the earlier list |
| Mutations.SendThenReject | backend/Schema/resolvers.js:202-233 | rejecting a request that was just sent restores the whole table exactly |
| Mutations.SendThenAccept | backend/Schema/resolvers.js:202-221 | sending and then accepting leaves the target's requests as they were, appends the requester to the target's followers and the target to the requester's following |
| Mutations.AcceptGrantsGatedReads | backend/Schema/resolvers.js:60-63 | after an accept, the requester passes the target's gated reads and receives the target's list |
| Mutations.SendKeepsSocialInvariant | backend/Schema/resolvers.js:191-204 | a successful send keeps the invariant: no self entries, and requests duplicate-free and disjoint from followers; so repeated sends never add a second pending entry |
| Mutations.AcceptRecordOk | backend/Schema/resolvers.js:211-215 | accepting moves the requester entirely from the caller's requests to its followers, and the requester is never the caller |
| Mutations.AcceptKeepsSocialInvariant | backend/Schema/resolvers.js:211-221 | a successful accept keeps the follow-request invariant on both records |
| Mutations.RejectKeepsSocialInvariant | backend/Schema/resolvers.js:229-233 | a successful reject keeps the follow-request invariant |
| GoogleAuth.StripNonWord | backend/utils/googleAuth.js:14 | removing `\W` leaves only `[A-Za-z0-9_]`, never lengthens, and leaves an all-word string as it is |
| GoogleAuth.StripNonWordAppend | backend/utils/googleAuth.js:14 | stripping maps a concatenation to the concatenation of the stripped parts, so order is kept |
| GoogleAuth.StripNonWordCounts | backend/utils/googleAuth.js:14 | each word character keeps its count; every other character is removed |
| GoogleAuth.ToLower | backend/utils/googleAuth.js:14 | lowercasing keeps the length and maps each character to its lower-case form |
| GoogleAuth.BaseUsername | backend/utils/googleAuth.js:14 | the base username is no longer than the display name and holds only `[a-z0-9_]` |
| GoogleAuth.BaseUsernameIdempotent | backend/utils/googleAuth.js:14 | deriving a base username from a base username returns it unchanged |
| GoogleAuth.DecimalRoundTrip | backend/utils/googleAuth.js:18 | the numeral a template literal renders for the counter reads back as the counter |
| GoogleAuth.CandidateInjective | backend/utils/googleAuth.js:15-18 | distinct counters give distinct candidate usernames |
| GoogleAuth.FirstFreeUnique | backend/utils/googleAuth.js:15-19 | only one username is free while all earlier candidates are taken |
| GoogleAuth.DeriveUsername | backend/utils/googleAuth.js:15-19 | the chosen name is not taken; it is the base when the base is free, and otherwise the base followed by the smallest counter k >= 1 whose name is free |
| GoogleAuth.SignIn | backend/utils/googleAuth.js:12-26 | an existing email returns that account and changes nothing; otherwise adds exactly one verified account, with the email, under the first free candidate |

## Findings

| source | as written | input that shows it | evidently intended | confidence | as-written member | corrected member |
|---|---|---|---|---|---|---|
| backend/Schema/resolvers.js:60 | `userWatchedMovies` and `userSavedMovies` test `target.followers.includes(user.username)`. The context `user` is the decoded token, signed with `{ id }` only (resolvers.js:126). So `user.username` is undefined and the test always fails. | "bob" is in "alice"'s followers and calls `userWatchedMovies("alice")` with his own token: refused with "must be an approved follower". | Test the viewer's own identity against the followers list. | not executed | Queries.AsWrittenRefusesApprovedFollower | Queries.GatedMovies |

`Queries.GatedMoviesAsWritten` models the read as written. It looks up the property
`username` on the token, and that lookup yields undefined. The rest of the model uses
`Queries.GatedMovies`, which tests the identity the token carries: in this model, the
viewer's username.

## Left out

- Sending mail, bcrypt, JWT signing and verification, and the clock: the code, hashes,
  comparison result and time are parameters. A failure to send mail is not modelled.
- `login` returns the session identity as `AuthPayload.token`. The signing of that
  token, with its seven-day lifetime, is not modelled.
- Persistence order and concurrency: `acceptFollowRequest`'s two saves act on one
  table in one step. Interleavings of concurrent requests are not modelled.
- `acceptFollowRequest`'s two saves take effect in sequence. The second writes only the
  `following` path, as a Mongoose save of a modified path does. This matters only if a
  request list ever holds its own owner, which `SocialInvariant` excludes.
- The resolvers `me`, `myReviews`, `myWatchedMovies`, `mySavedMovies`,
  `reviewsForMovie` and `addReview`, and the `Review.user` field resolver, are not
  modelled: they are database lookups and creation with no further logic.
- Passport wiring, user serialisation and the OAuth routes in
  `backend/utils/googleAuth.js` are not modelled. A Google profile without an email or
  a display name (the callback then throws and passes the error to `done`) is not
  modelled: `Profile` always has both.
- The Mongoose schema in `backend/models/User.js` declares neither `username` nor the
  three social lists. The model has the fields the resolvers read and write, typed as
  in `backend/Schema/typeDefs.js`.
- The GraphQL schema names `register`'s argument `name`, while the resolver reads
  `publicName`. The model follows the resolver and takes `publicName`.
- Usernames are unique because the table is a map. `register` and the Google sign-in
  loop both check this before they insert.
- Lists.Pull: its contract gives the counts of the result, not that the elements left
  keep their order. The definition keeps the order, and `Lists.PullAppend` states it
  for concatenations.
- GoogleAuth.ToLower: it lowercases ASCII only. That is exact here because it is
  applied only after every non-ASCII character has been stripped.
- JavaScript strings are UTF-16 and Dafny's `char` is a Unicode scalar value. `\W`
  removes every non-ASCII unit either way, so the derived base username is the same.
