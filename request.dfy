/**
 * The request body of POST and PUT (dto/request/UserRequestDTO.java): its declared field
 * constraints and its conversion to a `User`.
 */
module Request {
  import opened Wrappers
  import opened Model
  import opened Errors

  /** The request body; any field may be absent from the JSON (`None`). */
  datatype UserRequest = UserRequest(
    userId: Option<string>,
    name: Option<string>,
    email: Option<string>,
    password: Option<string>,
    phones: Option<seq<Phone>>)

  /** `@NotNull @NotEmpty` on a string field. */
  predicate PresentText(s: Option<string>) { s.Some? && |s.value| > 0 }

  /** `@NotNull @NotEmpty` on the phone list. */
  predicate PresentList(p: Option<seq<Phone>>) { p.Some? && |p.value| > 0 }

  /**
   * The request passes Bean Validation. `emailSyntax` is the `@Email` check, whose
   * grammar belongs to the validation library; `@Email` itself lets null through, so
   * it only applies to a present email.
   */
  predicate IsValid(req: UserRequest, emailSyntax: string -> bool) {
    && PresentText(req.name)
    && PresentText(req.email) && emailSyntax(req.email.value)
    && PresentText(req.password)
    && PresentList(req.phones)
  }

  /** The fields that draw a field error when the request is validated. */
  function ViolatedFields(req: UserRequest, emailSyntax: string -> bool): set<string> {
    (if PresentText(req.name) then {} else {"name"})
    + (if PresentText(req.email) && emailSyntax(req.email.value) then {} else {"email"})
    + (if PresentText(req.password) then {} else {"password"})
    + (if PresentList(req.phones) then {} else {"phones"})
  }

  /** A request is valid exactly when no field draws an error. */
  lemma ValidIffNoViolations(req: UserRequest, emailSyntax: string -> bool)
    ensures IsValid(req, emailSyntax) <==> ViolatedFields(req, emailSyntax) == {}
  {
    var v := ViolatedFields(req, emailSyntax);
    if !PresentText(req.name) { assert "name" in v; }
    if !(PresentText(req.email) && emailSyntax(req.email.value)) { assert "email" in v; }
    if !PresentText(req.password) { assert "password" in v; }
    if !PresentList(req.phones) { assert "phones" in v; }
  }

  /**
   * The field errors Bean Validation reports for `req`: each names a violated field, and
   * each violated field is named (possibly more than once, one per failed constraint).
   */
  predicate ReportsViolations(req: UserRequest, emailSyntax: string -> bool, errors: seq<FieldError>) {
    var violated := ViolatedFields(req, emailSyntax);
    && (forall e :: e in errors ==> e.field in violated)
    && (forall f :: f in violated ==> exists e :: e in errors && e.field == f)
  }

  /**
   * A request that fails validation never reaches the service: the handler answers 400
   * with the first reported error, which names one of the violated fields.
   */
  lemma RejectedRequestIsBadRequest(req: UserRequest, emailSyntax: string -> bool, errors: seq<FieldError>)
    requires !IsValid(req, emailSyntax)
    requires ReportsViolations(req, emailSyntax, errors)
    ensures errors != [] && errors[0].field in ViolatedFields(req, emailSyntax)
    ensures Handle(ArgumentNotValid(errors)) == ErrorResponse(BadRequest, Body(FieldErrorText(errors[0])))
  {
    ValidIffNoViolations(req, emailSyntax);
    var f :| f in ViolatedFields(req, emailSyntax);
    var e :| e in errors && e.field == f;
  }

  /**
   * The request as a `User`: the identifier, the name, the email, the plaintext
   * password and the phones carried over as they are; every other field left null.
   */
  function ToModel(req: UserRequest): (u: User)
    ensures u.id == req.userId
    ensures u.name == req.name && u.email == req.email && u.password == req.password
    ensures u.phones == req.phones
    ensures u.created.None? && u.modified.None? && u.lastLogin.None?
    ensures u.token.None? && u.isActive.None?
  {
    User(
      id := if req.userId.Some? then req.userId else None,
      name := req.name,
      email := req.email,
      password := req.password,
      phones := req.phones,
      created := None,
      modified := None,
      lastLogin := None,
      token := None,
      isActive := None)
  }

  /** No request field is lost in the conversion: distinct requests give distinct users. */
  lemma ToModelInjective(a: UserRequest, b: UserRequest)
    requires ToModel(a) == ToModel(b)
    ensures a == b
  {
  }
}
