# User registration service — a Dafny model

This project models the core of a small user-account web service: registering a user
(`saveUser`), updating one (`updateUser`), listing them (`getUsers`) and the response view
all three return (`setResponse`), together with the two validation policies the service is
configured with (an email syntax and a password policy, both regular expressions), the
token lifetime, the request body's field constraints and its conversion to a user, and the
mapping of every failure to an HTTP status and a `{"mensaje": ...}` body.

Modules, one per source component:

- `Wrappers` (wrappers.dfy): `Option` (a Java `null`) and `Result` (a thrown exception).
- `Constants` (constants.dfy): `EMAIL_REGEX` and `PWD_REGEX` as the predicates a whole-string
  match decides, each proved equal to an independent description (a one-pass scan of the
  email; the documented password policy); `EXPIRATION_TIME` computed in 32-bit `int`.
- `Model` (model.dfy): the user record (the model `User` and the entity `UserEntity` carry the
  same fields), phones, dates as day counts, the canonical UUID text.
- `Request` (request.dfy): the request body, its Bean Validation constraints and `toModel`.
- `Errors` (errors.dfy): service failures, the handled exceptions and the handler.
- `UserService` (service.dfy): the service as a class over a users table (`map` by id plus
  the order in which `findAll` lists them), the pure outcome of each operation, and the
  lemmas about them. The service's collaborators (both patterns, the password encoder, the
  token issuer) are a `Config` given to the constructor; the fresh id and today's date are
  method parameters.

Two behaviours of the code worth knowing:

- `saveUser` never touches `modified`: the stored value is the input's. Through the HTTP
  path the input comes from `toModel`, which leaves it null, so a new user has no `modified`
  (`UserService.RequestRegistration`).
- `updateUser` never sets `isActive`: the stored value is the input's. Through the HTTP path
  that is null, so an updated user's view reads `isActive == false`
  (`UserService.RequestUpdateClearsActive`).

## Model

| member | source | states |
|---|---|---|
| `Constants.EmailRegex` | src/main/java/com/nisum/exam/userapi/util/Constants.java:6 | the language a whole-string match of EMAIL_REGEX accepts, as a split `local "@" domain "." tld` with each part over its character class |
| `Constants.ScanEmailIsEmailRegex` | src/main/java/com/nisum/exam/userapi/util/Constants.java:6 | EMAIL_REGEX accepts exactly the strings `local "@" domain "." tld` (local over `[A-Za-z0-9._%+-]`, domain over `[A-Za-z0-9.-]`, both non-empty, tld two or more ASCII letters), and a single left-to-right scan decides the same language |
| `Constants.IndexOf` | src/main/java/com/nisum/exam/userapi/util/Constants.java:6 | the position found is the first `@`, or the end when the string has none |
| `Constants.TrailingLetters` | src/main/java/com/nisum/exam/userapi/util/Constants.java:6 | the suffix measured is all letters and is the longest such suffix |
| `Constants.EmailRegexHasOneAt` | src/main/java/com/nisum/exam/userapi/util/Constants.java:6 | every accepted email holds exactly one `@`, so any string without exactly one is rejected |
| `Constants.InvalidEmailRejected` | src/main/java/com/nisum/exam/userapi/util/Constants.java:6 | `invalid` is rejected |
| `Constants.DocumentedEmailAccepted` | src/main/java/com/nisum/exam/userapi/util/Constants.java:5-6 | the documented example `aaaaaaa@dominio.cl` is accepted |
| `Constants.PwdRegex` | src/main/java/com/nisum/exam/userapi/util/Constants.java:10 | the language a whole-string match of PWD_REGEX accepts: each lookahead finds its class after non-line-terminators, then 8 to 16 non-line-terminators |
| `Constants.PwdRegexIsPolicy` | src/main/java/com/nisum/exam/userapi/util/Constants.java:10 | PWD_REGEX (three lookaheads, then `.{8,16}`) accepts exactly the strings of 8 to 16 non-line-terminator characters with an ASCII digit, a lowercase and an uppercase ASCII letter |
| `Constants.PwdRegexRejectsLength` | src/main/java/com/nisum/exam/userapi/util/Constants.java:10 | a password shorter than 8 or longer than 16 characters is rejected whatever its characters |
| `Constants.ExamplePasswordsAccepted` | src/main/java/com/nisum/exam/userapi/util/Constants.java:8-10 | the documented `123Acb1234*` and the example `Abc123!@` are accepted |
| `Constants.ToInt32` | src/main/java/com/nisum/exam/userapi/util/Constants.java:12 | Java `int` arithmetic: the result is in the 32-bit range, congruent to the exact value, and equal to it when it fits |
| `Constants.ExpirationTimeIsTenHours` | src/main/java/com/nisum/exam/userapi/util/Constants.java:12 | the `int` product does not wrap: the token lifetime is 36,000,000 ms, ten hours |
| `Request.IsValid` | src/main/java/com/nisum/exam/userapi/dto/request/UserRequestDTO.java:23-38 | the request passes Bean Validation: name, email, password and phones present and non-empty, and the email of `@Email` syntax |
| `Request.ValidIffNoViolations` | src/main/java/com/nisum/exam/userapi/dto/request/UserRequestDTO.java:23-38 | a request is valid exactly when none of name, email, password, phones draws a field error |
| `Request.RejectedRequestIsBadRequest` | src/main/java/com/nisum/exam/userapi/exception/GlobalExceptionHandler.java:30-40 | a request that fails validation is answered 400 with its first field error, which names one of the violated fields |
| `Request.ToModel` | src/main/java/com/nisum/exam/userapi/dto/request/UserRequestDTO.java:40-48 | `userId` becomes `id` unchanged (the null-conditional is the identity); name, email, password and phones are copied; created, modified, lastLogin, token and isActive stay null |
| `Request.ToModelInjective` | src/main/java/com/nisum/exam/userapi/dto/request/UserRequestDTO.java:40-48 | no request field is lost: different requests give different users |
| `Errors.ValidationMessage` | src/main/java/com/nisum/exam/userapi/exception/GlobalExceptionHandler.java:30-40 | the message is `field: message` of the first field error, or `Validación fallida` when there is none |
| `Errors.Handle` | src/main/java/com/nisum/exam/userapi/exception/GlobalExceptionHandler.java:20-83 | every body has the single key `mensaje`; a status exception keeps its status and reason; validation failure 400; EmailAlreadyExists 409; InvalidEmail and InvalidPassword 400 with their messages; UserNotFound 404; anything else 500 with `Error interno del servidor` |
| `Errors.UnexpectedHidesDetail` | src/main/java/com/nisum/exam/userapi/exception/GlobalExceptionHandler.java:45-50 | an unexpected exception exposes nothing of itself: all get the same response |
| `Errors.Raise` | src/main/java/com/nisum/exam/userapi/service/impl/UserServiceInterfaceImpl.java:129-194 | each service failure is thrown as the exception of its kind, carrying the email (a taken one, or the one searched for, possibly null) |
| `Errors.ServiceErrorIsClientError` | src/main/java/com/nisum/exam/userapi/exception/GlobalExceptionHandler.java:54-83 | each service failure gets a 4xx status (400, 409, 404 as the kind says), with the exception's own message for a taken or unknown email |
| `UserService.ToResponse` | src/main/java/com/nisum/exam/userapi/service/impl/UserServiceInterfaceImpl.java:214-225 | the view copies id, name, email, password hash, created, modified and token; phones map 1:1 in order to (number, citycode, countrycode), none when the list is null; null isActive reads false; null lastLogin falls back to created |
| `UserService.SetResponse` | src/main/java/com/nisum/exam/userapi/service/impl/UserServiceInterfaceImpl.java:202-226 | the view built phone by phone in a loop is exactly `ToResponse` of the user |
| `UserService.FindAll` | src/main/java/com/nisum/exam/userapi/service/impl/UserServiceInterfaceImpl.java:71 | the rows are the stored users, one per listed id, in table order |
| `UserService.FindByEmail` | src/main/java/com/nisum/exam/userapi/service/impl/UserServiceInterfaceImpl.java:129 | a found row has the email (null looks for a null email); nothing is found exactly when no row has it |
| `UserService.FindByEmailInStore` | src/main/java/com/nisum/exam/userapi/service/impl/UserServiceInterfaceImpl.java:177-179 | on the table, `findByEmail` finds a user exactly when some stored user has the email, and finds it under its own id |
| `UserService.StoreSize` | src/main/java/com/nisum/exam/userapi/service/impl/UserServiceInterfaceImpl.java:70-76 | a well-formed table lists as many ids as it stores users, so `findAll` returns one row per user |
| `UserService.ValidateFormatEmail` | src/main/java/com/nisum/exam/userapi/service/impl/UserServiceInterfaceImpl.java:171-180 | passes exactly when the pattern matches and no row has the email; InvalidEmail exactly when the pattern fails; EmailAlreadyExists exactly when it matches and some row has the email |
| `UserService.ValidatePassword` | src/main/java/com/nisum/exam/userapi/service/impl/UserServiceInterfaceImpl.java:188-194 | passes exactly when the password pattern matches, and fails only with InvalidPassword |
| `UserService.SaveOutcome` | src/main/java/com/nisum/exam/userapi/service/impl/UserServiceInterfaceImpl.java:87-110 | what `saveUser` does with a user: the first failing check, or the user it stores; its properties are the `Save…` lemmas below |
| `UserService.SaveChecksInOrder` | src/main/java/com/nisum/exam/userapi/service/impl/UserServiceInterfaceImpl.java:171-194 | the first failing check decides: email pattern mismatch gives InvalidEmail, else a stored email gives EmailAlreadyExists, else password mismatch gives InvalidPassword; registration succeeds exactly when all three pass |
| `UserService.SaveRecord` | src/main/java/com/nisum/exam/userapi/service/impl/UserServiceInterfaceImpl.java:93-107 | the stored user has the fresh id, the input's name, email, phones and modified, the hashed password, created today, the supplied lastLogin or else created, the token issued for the email, and isActive true |
| `UserService.SavePreservesStoreInv` | src/main/java/com/nisum/exam/userapi/service/impl/UserServiceInterfaceImpl.java:177-179 | through the duplicate check, a registration keeps at most one user per email (and the table well formed) |
| `UserService.InsertKeepsUniqueEmails` | src/main/java/com/nisum/exam/userapi/service/impl/UserServiceInterfaceImpl.java:110 | inserting a user whose email is not stored keeps emails unique |
| `UserService.OverwriteKeepsUniqueEmails` | src/main/java/com/nisum/exam/userapi/service/impl/UserServiceInterfaceImpl.java:154 | overwriting a user with one of the same email keeps emails unique |
| `UserService.ValidRequestIsSaveDefined` | src/main/java/com/nisum/exam/userapi/dto/request/UserRequestDTO.java:23-48 | a request that passed validation, converted by `toModel`, never makes `saveUser` dereference a null |
| `UserService.RequestRegistration` | src/main/java/com/nisum/exam/userapi/service/impl/UserServiceInterfaceImpl.java:95-98 | a user registered from a valid request (through `toModel`) gets `lastLogin == created == today`, no modified, isActive true, and its view shows lastLogin today and active |
| `UserService.StandardRejectsInvalidEmail` | src/main/java/com/nisum/exam/userapi/service/impl/UserServiceInterfaceImpl.java:171-176 | with the standard patterns, email `invalid` fails registration with InvalidEmail before any write |
| `UserService.StandardRejectsBadPassword` | src/main/java/com/nisum/exam/userapi/service/impl/UserServiceInterfaceImpl.java:188-194 | with the standard patterns, password `bad` fails registration with InvalidPassword once the email passed |
| `UserService.UpdateOutcome` | src/main/java/com/nisum/exam/userapi/service/impl/UserServiceInterfaceImpl.java:126-154 | what `updateUser` does with a user: UserNotFound, or the user it stores; its properties are the `Update…` lemmas below |
| `UserService.UpdateNotFound` | src/main/java/com/nisum/exam/userapi/service/impl/UserServiceInterfaceImpl.java:129-133 | update fails exactly when no stored user has the email (a null one included), and then with UserNotFound for that email |
| `UserService.UpdateWithoutEmail` | src/main/java/com/nisum/exam/userapi/service/impl/UserServiceInterfaceImpl.java:129-133 | an update whose email is null finds nobody: it fails with UserNotFound and is answered 404 with `No se encontró ningún usuario con el email: null` |
| `UserService.UpdateRecord` | src/main/java/com/nisum/exam/userapi/service/impl/UserServiceInterfaceImpl.java:136-144 | the updated user keeps the stored id, email, created, lastLogin and token; takes name, phones and isActive from the input; stores the hash of the new password; modified is today |
| `UserService.UpdatePreservesStoreInv` | src/main/java/com/nisum/exam/userapi/service/impl/UserServiceInterfaceImpl.java:136-154 | update overwrites a stored user under its own id with the same email, so emails stay unique |
| `UserService.UpdateSkipsFormatChecks` | src/main/java/com/nisum/exam/userapi/service/impl/UserServiceInterfaceImpl.java:126-163 | update does no format validation: a password registration rejects is accepted by update of any stored email |
| `UserService.RequestUpdateClearsActive` | src/main/java/com/nisum/exam/userapi/service/impl/UserServiceInterfaceImpl.java:136-144 | an update from a request stores a null isActive, so its view reads inactive |
| `UserService.UserServiceImpl.constructor` | src/main/java/com/nisum/exam/userapi/service/impl/UserServiceInterfaceImpl.java:55-62 | the service holds its injected collaborators; the table starts empty and well formed |
| `UserService.UserServiceImpl.GetUsers` | src/main/java/com/nisum/exam/userapi/service/impl/UserServiceInterfaceImpl.java:70-77 | one view per stored user, in table order, each the view of that user; every stored user is listed |
| `UserService.UserServiceImpl.SaveUser` | src/main/java/com/nisum/exam/userapi/service/impl/UserServiceInterfaceImpl.java:87-117 | on a failed check the error is returned and the table is unchanged; otherwise exactly one user is added under the fresh id, listed last, the others untouched, and its view is returned; the table invariant is kept |
| `UserService.UserServiceImpl.UpdateUser` | src/main/java/com/nisum/exam/userapi/service/impl/UserServiceInterfaceImpl.java:126-163 | an unknown email returns UserNotFound and writes nothing; otherwise the stored user with that email is overwritten under its own id, the listing order unchanged, and the new view returned; the table invariant is kept |

## Left out

- Token issuance: `JwtUtil` signs with HS512 through a library that is not part of this model. The token is the `Config.generateToken` function of the email; signature checks, parsing and wall-clock expiry are not modelled.
- Password hashing, `UUID.randomUUID()` and `LocalDate.now()` are foreign or nondeterministic: the encoder is `Config.encode`, the fresh id and today's date are parameters. The claim that the stored password differs from the plaintext depends on the encoder and is not stated.
- UserService.UserServiceImpl.SaveUser: requires the fresh id not to be stored yet; a `UUID.randomUUID()` collision, which would overwrite a user, is not modelled.
- The Java regex engine and the email and password property classes: the service's two patterns are runtime configuration, modelled as `Config.emailPattern` and `Config.passwordPattern`; `StandardConfig` instantiates them with the two predicates of `Constants`.
- Repositories, JPA mapping, cascades, orphan removal and transactions: the table is an in-memory `map` by id, and each write replaces the user's phone list as a whole. The order in which `findAll` lists users is modelled as insertion order; a relational store promises no order.
- UserService.FindByEmail: returns the first user listed with the email; with duplicate emails Spring Data would fail instead, a case the table invariant rules out.
- The duplicate-email race between the existence check and the insert is a concurrency matter, outside this sequential model.
- Null dereferences are preconditions, not modelled exceptions: `saveUser` with a null email, password or phone list where it uses them (`SaveDefined`, which every validated request meets), and `updateUser` with a null password or phone list once the user is found (`UpdateDefined`). A null email on update is modelled: the lookup finds nobody.
- UserService.SetResponse: requires an id in canonical lowercase UUID form, the form the service itself generates; `UUID.fromString` also accepts and rewrites some other spellings, which is not modelled.
- `UserMapper`, `Phone`, `PhoneEntity`, the response DTOs, `InvalidEmailException`, `InvalidPasswordException` and `EmailProperties` are not part of this model: mapping is taken as a field-for-field copy, a phone as (number, citycode, countrycode), and the messages of the two format exceptions are parameters of `Errors.Raise`.
- Errors.Handle: a status exception's reason is taken as non-null; a null reason would put a null value in the body.
- The controller only routes (200 for GET and PUT, 201 for POST). The `@Email` grammar belongs to the validation library and is the `emailSyntax` parameter; the order of field errors and their default texts are also the library's.
- Strings are sequences of Unicode scalar values, as Java regular expressions see them.
