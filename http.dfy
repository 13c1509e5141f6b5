/** The shapes every handler answers with: an optional value (a nullable
    column or an absent request field) and a reply that is either the
    handler's success payload or the failure it reports. The HTTP status
    of a failure is a function of its reason, as the handlers' `res.status`
    calls fix it. */
module Http {

  datatype Option<+T> = None | Some(value: T)

  /** Why a handler refused. One constructor per distinct message the
      handlers send; the status code goes with it. */
  datatype Reason =
    // registration.controller.ts / registration.service.ts
    | MissingUserOrEvent
    | BlankUserName
    | EventNotFound
    | InvalidEventConfig
    | EventNotActive
    | RegistrationNotStarted
    | RegistrationEnded
    | AlreadyRegistered
    | RegistrationFull
    | TeamNameRequired
    | TeamNameLength
    | TeamNameInvalidChars
    | TeamNameTaken
    | UnexpectedEventType
    | MissingJoinFields
    | InvalidTeamCode
    | TeamNotFound
    | SoloEventJoin
    | CannotJoinOwnTeam
    | TeamFull
    // store errors surfacing from a failed statement (SQLSTATE 23505 and the rest)
    | UniqueViolation
    | ServerError
    // payment.controller.ts
    | MissingPaymentFields
    | RegistrationNotFound
    | FreeEvent
    | AlreadyPaid
    | PaymentNotFound
    | PaymentAlreadyVerified
    | InvalidSignature
    // password-reset.controller.ts
    | EmailRequired
    | TokenRequired
    | ResetFieldsRequired
    | PasswordMismatch
    | PasswordTooShort
    | InvalidResetToken
    | ResetTokenExpired
    // app.controller.ts, execom.controller.ts, leaderboard
    | RegIdRequired
    | UserNotFound
    | NoExecomMembers
    | LeaderboardFailed(details: string)

  /** The status code a handler sends with each reason. */
  function Status(reason: Reason): (code: int)
    ensures code in {400, 404, 500}
    ensures code == 404 <==> reason in {EventNotFound, TeamNotFound, RegistrationNotFound,
                                         PaymentNotFound, UserNotFound, NoExecomMembers}
    ensures code == 500 <==> reason.LeaderboardFailed? || reason in {UnexpectedEventType, ServerError}
  {
    match reason
    case EventNotFound | TeamNotFound | RegistrationNotFound | PaymentNotFound
       | UserNotFound | NoExecomMembers => 404
    case UnexpectedEventType | ServerError | LeaderboardFailed(_) => 500
    case _ => 400
  }

  datatype Reply<+T> = Ok(value: T) | Fail(reason: Reason)

  /** A string field of a request body that JavaScript's `!x` lets
      through: present and not the empty string. */
  predicate Given(s: Option<string>) {
    s.Some? && s.value != ""
  }
}
