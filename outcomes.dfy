/** Results of resolver calls: a value, or the error the resolver throws. */
module Outcomes {

  datatype Option<+T> = None | Some(value: T)

  /** The errors the resolvers throw, one constructor per distinct message. */
  datatype Error =
    | NotAuthenticated
    | UserNotFound
    | TargetNotFound
    | CannotFollowYourself
    | NoSuchFollowRequest
    | NotApprovedFollower
    | InvalidOrExpiredOtp
    | EmailAlreadyRegistered
    | UsernameAlreadyTaken
    | InvalidCredentialsOrNotVerified
    | InvalidCredentials
      // `me.username` or `requester.following` read on a record that was not found
    | NullRecord
      // bcrypt.compare called with an account that has no password hash
    | IllegalArguments

  datatype Result<+T> = Ok(value: T) | Err(error: Error)

  /** The message text each error carries. */
  function Message(e: Error): string
  {
    match e
    case NotAuthenticated => "Not authenticated"
    case UserNotFound => "User not found"
    case TargetNotFound => "User not found."
    case CannotFollowYourself => "Cannot follow yourself."
    case NoSuchFollowRequest => "No such follow request."
    case NotApprovedFollower => "You must be an approved follower to view these movies."
    case InvalidOrExpiredOtp => "Invalid or expired OTP"
    case EmailAlreadyRegistered => "Email already registered"
    case UsernameAlreadyTaken => "Username already taken"
    case InvalidCredentialsOrNotVerified => "Invalid credentials or not verified"
    case InvalidCredentials => "Invalid credentials"
    case NullRecord => "Cannot read properties of null"
    case IllegalArguments => "Illegal arguments"
  }
}
