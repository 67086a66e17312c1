/**
 * The failures of the user service and how exception/GlobalExceptionHandler.java turns
 * each exception into an HTTP status and a one-entry JSON body `{"mensaje": ...}`.
 */
module Errors {
  import opened Wrappers

  /** The failures the user service raises, one per exception class it throws. */
  datatype ServiceError =
    | InvalidEmail                     // InvalidEmailException
    | EmailAlreadyExists(email: string) // EmailAlreadyExistsException
    | InvalidPassword                  // InvalidPasswordException
    | UserNotFound(searched: Option<string>) // UserNotFoundException; the email may be null

  /** One field error of a failed request validation; the default message may be null. */
  datatype FieldError = FieldError(field: string, defaultMessage: Option<string>)

  /** The exceptions that reach the handler, one constructor per handler method. */
  datatype Exception =
    | ResponseStatus(status: int, reason: string)
    | ArgumentNotValid(fieldErrors: seq<FieldError>)
    | EmailAlreadyExistsException(email: string)
    | InvalidPasswordException(message: string)
    | UserNotFoundException(searched: Option<string>)
    | InvalidEmailException(message: string)
    | Unexpected(detail: string)

  /** An HTTP status and a JSON object body. */
  datatype ErrorResponse = ErrorResponse(status: int, body: map<string, string>)

  const MessageKey: string := "mensaje"
  const BadRequest: int := 400
  const NotFound: int := 404
  const Conflict: int := 409
  const InternalServerError: int := 500

  const ValidationFailedText: string := "Validación fallida"
  const InternalErrorText: string := "Error interno del servidor"

  /** The message of an EmailAlreadyExistsException. */
  function EmailAlreadyExistsMessage(email: string): string {
    "El correo " + email + " ya está registrado"
  }

  /** A string reference as Java string concatenation writes it: null as `null`. */
  function JavaText(s: Option<string>): string {
    if s.Some? then s.value else "null"
  }

  /** The message of a UserNotFoundException. */
  function UserNotFoundMessage(email: Option<string>): string {
    "No se encontró ningún usuario con el email: " + JavaText(email)
  }

  /** `field + ": " + defaultMessage` */
  function FieldErrorText(e: FieldError): string {
    e.field + ": " + JavaText(e.defaultMessage)
  }

  /**
   * The message of a failed request validation: the field errors rendered, the first of
   * them taken, `Validación fallida` when there is none.
   */
  function ValidationMessage(errors: seq<FieldError>): (m: string)
    ensures errors == [] ==> m == ValidationFailedText
    ensures errors != [] ==> m == FieldErrorText(errors[0])
  {
    var texts := seq(|errors|, i requires 0 <= i < |errors| => FieldErrorText(errors[i]));
    if |texts| > 0 then texts[0] else ValidationFailedText
  }

  /** A one-entry body. */
  function Body(message: string): map<string, string> {
    map[MessageKey := message]
  }

  /** The handler method Spring selects for `ex`, applied to `ex`. */
  function Handle(ex: Exception): (r: ErrorResponse)
    ensures r.body.Keys == {MessageKey}
    ensures ex.ResponseStatus? ==> r.status == ex.status && r.body[MessageKey] == ex.reason
    ensures ex.ArgumentNotValid? ==>
      r.status == BadRequest && r.body[MessageKey] == ValidationMessage(ex.fieldErrors)
    ensures ex.EmailAlreadyExistsException? ==>
      r.status == Conflict && r.body[MessageKey] == EmailAlreadyExistsMessage(ex.email)
    ensures ex.InvalidPasswordException? ==>
      r.status == BadRequest && r.body[MessageKey] == ex.message
    ensures ex.UserNotFoundException? ==>
      r.status == NotFound && r.body[MessageKey] == UserNotFoundMessage(ex.searched)
    ensures ex.InvalidEmailException? ==>
      r.status == BadRequest && r.body[MessageKey] == ex.message
    ensures ex.Unexpected? ==>
      r.status == InternalServerError && r.body[MessageKey] == InternalErrorText
  {
    match ex
    case ResponseStatus(status, reason) => ErrorResponse(status, Body(reason))
    case ArgumentNotValid(errors) => ErrorResponse(BadRequest, Body(ValidationMessage(errors)))
    case EmailAlreadyExistsException(email) =>
      ErrorResponse(Conflict, Body(EmailAlreadyExistsMessage(email)))
    case InvalidPasswordException(message) => ErrorResponse(BadRequest, Body(message))
    case UserNotFoundException(email) => ErrorResponse(NotFound, Body(UserNotFoundMessage(email)))
    case InvalidEmailException(message) => ErrorResponse(BadRequest, Body(message))
    case Unexpected(_) => ErrorResponse(InternalServerError, Body(InternalErrorText))
  }

  /** An unexpected failure exposes nothing of itself: every one gets the same response. */
  lemma UnexpectedHidesDetail(d1: string, d2: string)
    ensures Handle(Unexpected(d1)) == Handle(Unexpected(d2))
  {
  }

  /**
   * The exception the service throws for `e`. The messages of InvalidEmailException and
   * InvalidPasswordException are fixed by those classes and given here as parameters.
   */
  function Raise(e: ServiceError, invalidEmailText: string, invalidPasswordText: string): Exception {
    match e
    case InvalidEmail => InvalidEmailException(invalidEmailText)
    case EmailAlreadyExists(email) => EmailAlreadyExistsException(email)
    case InvalidPassword => InvalidPasswordException(invalidPasswordText)
    case UserNotFound(email) => UserNotFoundException(email)
  }

  /**
   * Every service failure is answered with a client error and a message of its own:
   * 400 for a bad email or password format, 409 for a taken email, 404 for an unknown
   * one; never the generic 500 text.
   */
  lemma ServiceErrorIsClientError(e: ServiceError, invalidEmailText: string, invalidPasswordText: string)
    ensures var r := Handle(Raise(e, invalidEmailText, invalidPasswordText));
      && 400 <= r.status < 500
      && (e.InvalidEmail? || e.InvalidPassword? ==> r.status == BadRequest)
      && (e.EmailAlreadyExists? ==> r.status == Conflict && r.body[MessageKey] == EmailAlreadyExistsMessage(e.email))
      && (e.UserNotFound? ==> r.status == NotFound && r.body[MessageKey] == UserNotFoundMessage(e.searched))
  {
  }
}
