# Lessons summariser: a Dafny model of its core

The system turns lesson PDFs into per-page summaries. It has two services.

- **The API** (TypeScript, Express) registers and logs users in with an
  encrypted password and a pair of JSON Web Tokens. It guards routes with a
  bearer-token middleware, validates request bodies against JSON schemas, and
  lets each user list, read, create, update and delete their own summaries.
- **The worker** (Python) keeps a table of summary requests. Each request goes
  PENDING, EXTRACTING, FILTERING, then COMPLETED or FAILED. Extraction splits
  the uploaded PDF into one file per page and converts the pages to markdown in
  batches of `NB_THREADS` processes. The summariser sends every markdown page,
  in sorted file-name order, to a Mistral agent. Polling reports a request's
  state, its place in the queue and time estimates. The estimates come from a
  store of past durations, bucketed by page count.

Each source file is one Dafny module.

- Code that changes state in place is a class with `modifies` clauses:
  - the user and summary tables;
  - the request table;
  - the duration store;
  - the Express response, which logs every attempted write, so a handler that
    replies twice shows both attempts.
- Pure code is functions and lemmas: schemas, token claims, password strings,
  file names, sorting and queue arithmetic.
- Loops in the source are methods with loop invariants: request lookup,
  removal and update, the queue estimate, the PDF split, the batch loop and the
  result assembly.

Libraries and the outside world are inputs:

- the AES cipher and the JWT codec are function values, and ghost predicates
  state what the model assumes of them (decryption undoes encryption; a token
  decodes to what was signed);
- the clock, random IVs, database-assigned ids, the PDF reader's page count,
  the folder listing and each page's conversion or completion result are
  parameters.

## Model

| member | source | states |
|---|---|---|
| AjvService.Validate | app/src/services/ajv-service.ts:12-21 | returns `true` exactly when the schema accepts the data; otherwise raises `Invalid request body.` |
| Json.Valid | app/src/services/ajv-service.ts:13-14 | what the compiled schema accepts: `type`, `required`, `properties`, `additionalProperties: false`, `items` and `anyOf`, each as JSON Schema draft-07 defines it |
| AjvService.ValidateWithoutThrow | app/src/services/ajv-service.ts:23-31 | answers `true` exactly when the schema accepts the data, and never raises |
| AjvService.ValidateAgreesWithoutThrow | app/src/services/ajv-service.ts:12-31 | the throwing form returns normally exactly when the boolean form answers `true`, and then it returns `true` |
| RequestValidator.Decide | app/src/middlewares/request-validator.ts:9-16 | the request goes on exactly when the body is truthy and the schema accepts it; a falsy body gets `No body provided.`; an invalid body gets `Invalid request body.` |
| RequestValidator.Truthy | app/src/middlewares/request-validator.ts:9 | JavaScript truthiness of the parsed body: an absent body, `null`, `false`, `0` and `""` are falsy, every other value, objects and arrays included, is truthy |
| RequestValidator.Validator.constructor | app/src/middlewares/request-validator.ts:4-7 | the handler keeps the schema it was built with |
| RequestValidator.Validator.Handle | app/src/middlewares/request-validator.ts:7-22 | either one 400 carrying the decision's message and no `next`, or no write and `next` |
| RequestValidator.FalsyBodiesRefused | app/src/middlewares/request-validator.ts:9-12 | `undefined`, `null`, `false`, `0` and `""` are refused as missing, before any schema is consulted |
| RequestValidator.EmptyObjectReachesSchema | app/src/middlewares/request-validator.ts:9-16 | `{}` is truthy, so it reaches the schema and passes the permissive one, while `null` does not |
| AuthEntity.RegisterPropertyNames | app/src/entities/auth.ts:5-11 | the register schema lists exactly the five names, each typed string |
| AuthEntity.RegisterAcceptsShape | app/src/entities/auth.ts:3-14 | an object with exactly the five names, all strings, is accepted |
| AuthEntity.RegisterValidShape | app/src/entities/auth.ts:3-14 | an accepted body is an object with exactly the five names, all strings |
| AuthEntity.RegisterSchemaAccepts | app/src/entities/auth.ts:3-14 | a register body is accepted if and only if it holds the five names, all strings, and nothing else |
| AuthEntity.LoginPropertyNames | app/src/entities/auth.ts:20-24 | the login schema lists exactly username, email and password, each typed string |
| AuthEntity.LoginAcceptsShape | app/src/entities/auth.ts:18-27 | an object of strings with a password, a username or an email, and no other name, is accepted |
| AuthEntity.LoginValidShape | app/src/entities/auth.ts:18-27 | an accepted login body has a password, a username or an email, no other name, and only strings |
| AuthEntity.LoginSchemaAccepts | app/src/entities/auth.ts:18-27 | a login body is accepted if and only if it has that shape |
| AuthEntity.LoginFormsAccepted | app/src/entities/auth.ts:25 | `{email, password}`, `{username, password}` and all three together are accepted |
| AuthEntity.LoginWithoutPasswordRefused | app/src/entities/auth.ts:25 | any login body that is not an object, or has no `password`, is refused whatever else it holds |
| SummarizeEntity.StringArrayAccepts | app/src/entities/summarize.ts:6 | the content schema accepts exactly arrays of strings |
| SummarizeEntity.CreateSummarizeSchemaAccepts | app/src/entities/summarize.ts:3-13 | a create body is accepted if and only if it holds an array of strings `content`, a string `pdf_file`, and nothing else |
| SummarizeEntity.PollSummarizeSchemaAccepts | app/src/entities/summarize.ts:15-22 | a poll body is accepted if and only if it is `{requestId: <string>}` |
| SummarizeEntity.UpdateSummarizeSchemaAccepts | app/src/entities/summarize.ts:26-33 | an update body is accepted if and only if it is `{content: <array of strings>}` |
| SummarizeEntity.UpdateSummarizeRejectsNonString | app/src/entities/summarize.ts:26-33 | content holding a number is refused |
| UsersEntity.UpdatePropertyNames | app/src/entities/users.ts:7-11 | the update schema lists exactly username, firstName and lastName, each typed string |
| UsersEntity.UpdateAcceptsShape | app/src/entities/users.ts:5-14 | a non-empty object of strings among the three names is accepted |
| UsersEntity.UpdateValidShape | app/src/entities/users.ts:5-14 | an accepted update body is a non-empty object of strings among the three names |
| UsersEntity.UpdateUserSchemaAccepts | app/src/entities/users.ts:5-14 | an update body is accepted if and only if it is a non-empty object of strings among username, firstName and lastName; `{}`, an email or a password is refused |
| UsersEntity.UserTypeData | app/src/entities/users.ts:25-41 | the projection has the five public fields copied from the user, never email, password or `deletedAt`, and `nbSummarizes` (the number of summaries) exactly when summaries were included |
| Password.EncryptPassword | app/src/libs/password.ts:3-8 | the stored form is the 32-digit hex IV, a colon, then the ciphertext of the password |
| Password.VerifyPassword | app/src/libs/password.ts:10-16 | answers exactly when the stored string has a second colon-separated piece that decrypts, and answers true exactly when the decryption equals the candidate |
| Password.HexHasNoColon | app/src/libs/password.ts:6 | the hex IV never contains the separator |
| Password.SplitStored | app/src/libs/password.ts:6-11 | a stored string splits back into the hex IV and the ciphertext |
| Password.VerifyEncrypted | app/src/libs/password.ts:3-16 | a password verifies against its own stored form |
| Password.VerifyOtherRefused | app/src/libs/password.ts:3-16 | any other candidate is refused without raising |
| Password.VerifyIgnoresExtraPieces | app/src/libs/password.ts:11 | pieces after the second are ignored |
| Password.VerifyWithoutColonRaises | app/src/libs/password.ts:11-13 | a stored string with no colon raises instead of answering false |
| Password.DistinctIvsDistinctStrings | app/src/libs/password.ts:4-7 | two encryptions of one password under different IVs are stored differently |
| Password.StoredIvParses | app/src/libs/password.ts:6-12 | parsing the hex prefix of a stored string gives the IV back |
| Hex.HexChar | app/src/libs/password.ts:6 | each nibble becomes a lower-case hexadecimal digit |
| Hex.NibbleValue | app/src/libs/password.ts:12 | reading a digit gives a nibble that writes back to that digit |
| Hex.Encode | app/src/libs/password.ts:6 | the encoding has two hex digits per byte |
| Hex.Parse | app/src/libs/password.ts:12 | a successful parse gives one byte per two digits |
| Hex.ParseEncode | app/src/libs/password.ts:6-12 | parsing an encoding gives the bytes back |
| Hex.EncodeInjective | app/src/libs/password.ts:6 | different byte strings never share an encoding |
| JwtService.JwtService.constructor | app/src/services/jwt-service.ts:9-16 | a service holds a non-empty secret key |
| JwtService.JwtService.Create | app/src/services/jwt-service.ts:9-16 | an unset or empty `JWT_SECRET` fails with `JWT secret key not found`; otherwise the service keeps it as its key |
| JwtService.JwtService.SignToken | app/src/services/jwt-service.ts:18-26 | signs with a 24-hour lifetime unless one is given; fails, with the re-raised error text, exactly when the payload already has `exp` or carries an `iat`, `exp` or `nbf` that is not a number |
| JwtService.JwtService.SignTokenNoExpiration | app/src/services/jwt-service.ts:28-36 | signs without adding `exp`; fails, with the re-raised error text, exactly when an `iat`, `exp` or `nbf` of the payload is not a number |
| JwtService.JwtService.VerifyToken | app/src/services/jwt-service.ts:38-55 | a good token gives its payload and `tokenExpired = false`; an expired one gives no payload and `tokenExpired = true`; a token not yet active (`nbf`) and any other failure raise `Invalid token` |
| JwtService.NumericDates | app/src/services/jwt-service.ts:20-30 | the payload check `jwt.sign` makes first: `iat`, `exp` and `nbf`, when present, are numbers |
| JwtService.IssuedAt | app/src/services/jwt-service.ts:20 | the signing timestamp `payload.iat || now`: a non-zero numeric caller `iat`, else the clock |
| JwtService.InForce | app/src/services/jwt-service.ts:43 | the date checks of `jwt.verify`: a numeric `nbf` not after the clock and a numeric `exp` after it, each when present |
| JwtService.Claims | app/src/services/jwt-service.ts:18-31 | the signed payload carries `iat`: the caller's own when it is a non-zero number, the clock otherwise; with a lifetime, `exp` is that `iat` plus the lifetime |
| JwtService.Sign | app/src/services/jwt-service.ts:20-30 | the library signing call fails exactly when an `iat`, `exp` or `nbf` is not a number, or a lifetime is asked for a payload that has `exp`; otherwise the token serialises the stamped claims under the key |
| JwtService.LibraryVerify | app/src/services/jwt-service.ts:43-51 | the library verification decodes a token exactly when it parses, was signed with the key, and its `nbf` and `exp` are numbers with the clock at or after `nbf` and before `exp`; it reports expiry only for a numeric `exp` the clock has reached |
| JwtService.SignedTokenLifetime | app/src/services/jwt-service.ts:18-43 | signing with a lifetime succeeds exactly when the date claims are numbers and there is no `exp`; the token is then refused before its `nbf`, verifies with all its claims until the lifetime, counted from the caller's non-zero `iat` or else the clock, runs out, and is expired from then on |
| JwtService.UnlimitedTokenNeverExpires | app/src/services/jwt-service.ts:28-43 | for a payload without `exp`, signing without a lifetime succeeds exactly when the date claims are numbers, and the token then never expires: at any time it verifies, unless its `nbf` is still ahead |
| JwtService.ForeignKeyInvalid | app/src/services/jwt-service.ts:38-51 | a token signed under another key is invalid, never merely expired |
| JwtService.ClaimsKeepPayload | app/src/services/jwt-service.ts:18-31 | signing keeps every caller claim apart from `iat` and `exp`, and adds `iat`, plus `exp` when a lifetime is given |
| Http.Response.Send | app/src/middlewares/auth-middleware.ts:12 | every `res.status(code).json(body)` is logged in order; only the first write of a response is delivered |
| AuthMiddleware.Request.constructor | app/src/middlewares/auth-middleware.ts:8-9 | a request starts with its `Authorization` header and no user attached |
| AuthMiddleware.Decide | app/src/middlewares/auth-middleware.ts:8-39 | the middleware proceeds only with a stored user and a header that starts with `Bearer `; every refusal carries one of its four 401 messages |
| AuthMiddleware.IdClaim | app/src/middlewares/auth-middleware.ts:30 | `decoded.id` when it is a string; anything else makes the lookup by id fail |
| AuthMiddleware.Authenticate | app/src/middlewares/auth-middleware.ts:8-39 | on a refusal, exactly one 401 carrying the decision's message, no `next`, and no user attached; on success, no write, the found user attached and `next` called |
| AuthMiddleware.TokenIsSuffix | app/src/middlewares/auth-middleware.ts:16-21 | the token handed to verification is the header after its leading `Bearer ` |
| AuthMiddleware.MissingHeaderRefused | app/src/middlewares/auth-middleware.ts:11-14 | a missing or empty header gets `No token provided.` |
| AuthMiddleware.SchemeIsCaseSensitive | app/src/middlewares/auth-middleware.ts:16-19 | `bearer …` and `Token …` get `Invalid token format.` |
| AuthMiddleware.ExpiredNeedsNoLookup | app/src/middlewares/auth-middleware.ts:24-28 | an expired token gets `Token expired.` whatever the user table holds |
| AuthMiddleware.ForgedAndUnknownAlike | app/src/middlewares/auth-middleware.ts:24-37 | a forged token and a valid token for an absent user both get `Invalid token.` |
| AuthMiddleware.TypeClaimIgnored | app/src/middlewares/auth-middleware.ts:24-33 | an ACCESS and a REFRESH token that differ only in `type` are signed under the same condition and lead to the same outcome: the token type is never checked |
| AuthMiddleware.SameClaimsSameDecision | app/src/middlewares/auth-middleware.ts:21-33 | two bearer tokens with the same key, the same `nbf`, the same `exp` and the same `id` lead to the same outcome |
| AuthMiddleware.DeletedUserAuthenticates | app/src/middlewares/auth-middleware.ts:30-33 | a soft-deleted user still authenticates, because the lookup by id ignores `deletedAt` |
| AuthController.AccessPayload | app/src/controllers/auth-controller.ts:28-30 | the access payload is the user's public projection tagged `ACCESS`: it carries the id, and has no email, password or `exp` |
| AuthController.RefreshPayload | app/src/controllers/auth-controller.ts:31-35 | the refresh payload has exactly `id`, `email` and `type = REFRESH` |
| AuthController.AuthController.constructor | app/src/controllers/auth-controller.ts:13-15 | the controller keeps its user service; the JWT service, cipher and secret are passed in too |
| AuthController.AuthController.IssuedTokens | app/src/controllers/auth-controller.ts:30-37 | both tokens are signed with the secret key and the 24-hour lifetime, over the access and refresh payloads |
| AuthController.AuthController.LoginReply | app/src/controllers/auth-controller.ts:17-44 | the login answer is 200 or the fixed 404; 200 only for a stored user with the given email whose password verifies, and then with that user's two tokens |
| AuthController.AuthController.LoginUser | app/src/controllers/auth-controller.ts:17-44 | exactly one reply is written: 200 with both tokens when the email exists and the password verifies; one and the same 404 otherwise |
| AuthController.AuthController.Stored | app/src/controllers/auth-controller.ts:50 | the created row is the body with only its password replaced by its encryption |
| AuthController.AuthController.RegisterUser | app/src/controllers/auth-controller.ts:46-70 | a taken id, username or email leaves the table unchanged and gets one 500; otherwise the encrypted user is appended and 201 carries its tokens |
| AuthController.AuthController.UsernameOnlyRefused | app/src/controllers/auth-controller.ts:21-26 | a body with only a username never logs in, since the lookup uses the email alone |
| AuthController.AuthController.UnknownEmailAndWrongPasswordAlike | app/src/controllers/auth-controller.ts:21-42 | an unknown email and a wrong password get the identical 404 |
| AuthController.AuthController.RightPasswordLogsIn | app/src/controllers/auth-controller.ts:21-37 | a user whose stored password encrypts the given one logs in with their email and gets both tokens |
| AuthController.AuthController.IssuedTokensLifetime | app/src/controllers/auth-controller.ts:30-35 | both tokens expire together, 24 hours after issue; until then the access token decodes without email or password and the refresh token with the email; from then on both are expired |
| AuthController.AuthController.RegisteredUserLogsIn | app/src/controllers/auth-controller.ts:17-63 | a user who has just registered logs in with the email and plaintext password they registered with |
| UserService.IndexWhere | app/src/repositories/user-repository.ts:14-33 | the first row whose key holds the value, and `None` exactly when no row does |
| UserService.IndexWhereUnique | app/src/repositories/user-repository.ts:14-33 | with unique keys, the row found is the only one with that key |
| UserService.UserRepository.constructor | app/src/repositories/user-repository.ts:6 | the table starts empty, with unique keys |
| UserService.UserRepository.Find | app/src/repositories/user-repository.ts:14-33 | a stored row with that key, and nothing exactly when no stored row has it (where the ORM throws) |
| UserService.UserRepository.Create | app/src/repositories/user-repository.ts:35-39 | a repeated id, username or email is refused with the table unchanged; otherwise exactly the new row is appended; keys stay unique |
| UserService.UserRepository.Update | app/src/repositories/user-repository.ts:41-46 | a missing id raises `Record to update not found.`; a username held by another row is refused; otherwise only the given fields of that row change; keys stay unique |
| UserService.Updated | app/src/repositories/user-repository.ts:41-46 | the row after Prisma's `update`: each given field replaces the stored one, the others are kept |
| UserService.UserRepository.Delete | app/src/repositories/user-repository.ts:48-50 | a missing id raises; otherwise the row stays and only its `deletedAt` is stamped |
| UserService.DeletedUserStillFound | app/src/repositories/user-repository.ts:14-19 | after a soft delete the user is still found by id, carrying the stamp |
| UserService.UserService.constructor | app/src/services/user-service.ts:9-11 | the service keeps its repository |
| UserService.UserService.CreateUser | app/src/services/user-service.ts:29-53 | a username or email held by any stored user, deleted or not, gives `User already exists` with the table unchanged; a taken id is refused by the database; otherwise exactly the new row is appended |
| UserService.UserService.UpdateUser | app/src/services/user-service.ts:55-69 | `User already exists` exactly when a non-empty username is given that another user holds, and then nothing changes; otherwise the repository update decides: an unknown id fails with nothing changed, an empty username held by another user is a unique violation with nothing changed, and otherwise only that user's row is updated and returned |
| UserService.UserService.DeleteUser | app/src/services/user-service.ts:71-73 | the repository's soft delete, with its outcome |
| SummarizeController.ToNumber | app/src/controllers/summarize-controller.ts:28-35 | `Number` on a path segment never raises; a digit string gives a non-negative integer |
| SummarizeController.Lookup | app/src/controllers/summarize-controller.ts:38 | the row holding that integer id, and nothing exactly when the id is not an integer or no row holds it |
| SummarizeController.Owned | app/src/controllers/summarize-controller.ts:18 | exactly the rows whose owner is the user, never more than the table |
| SummarizeController.LookupUnique | app/src/controllers/summarize-controller.ts:38 | with unique ids, a row's own id finds that row |
| SummarizeController.SummaryStore.constructor | app/src/controllers/summarize-controller.ts:10-12 | the table starts empty and the first id is 1 |
| SummarizeController.SummaryStore.Create | app/src/controllers/summarize-controller.ts:61 | a body missing content or file adds nothing; otherwise one row owned by the user is appended with the next id; ids stay unique |
| SummarizeController.SummaryStore.Update | app/src/controllers/summarize-controller.ts:144 | an unknown id changes nothing; otherwise only that row's content is replaced |
| SummarizeController.SummaryStore.Delete | app/src/controllers/summarize-controller.ts:177 | an unknown id changes nothing; otherwise exactly that row is removed, the others keep their order |
| SummarizeController.SummarizeController.constructor | app/src/controllers/summarize-controller.ts:10-12 | the controller keeps its store |
| SummarizeController.SummarizeController.GetAllSummarizes | app/src/controllers/summarize-controller.ts:14-25 | one 200 carrying exactly the user's own summaries |
| SummarizeController.SummarizeController.GetSummarizeById | app/src/controllers/summarize-controller.ts:27-50 | 500 when the id finds no row, 403 `Unauthorized` for another user's summary, 200 with the summary for its owner |
| SummarizeController.SummarizeController.CreateSummarize | app/src/controllers/summarize-controller.ts:52-68 | a missing PDF file draws a 400 yet the row is still created, the 201 that follows fails and the handler rejects; with the file present, one 201 with the new row |
| SummarizeController.SummarizeController.UpdateSummarize | app/src/controllers/summarize-controller.ts:118-151 | 403 and no update for another user's summary; 200 with the new content for the owner; a failed lookup sends 404, still attempts the update, and rejects on the 500 |
| SummarizeController.SummarizeController.DeleteSummarize | app/src/controllers/summarize-controller.ts:153-184 | 403 and no deletion for another user's summary; 204 after the owner's deletion; a failed lookup sends 404, still attempts the deletion, and rejects on the 500 |
| SummarizeController.ToNumberOfId | app/src/controllers/summarize-controller.ts:30 | the decimal form of an id converts back to that id |
| SummarizeController.NonNumericIdNotFound | app/src/controllers/summarize-controller.ts:28-49 | a non-numeric id finds no summary, so the answer is 500 and never 400 |
| SummarizeController.UpdateThenRead | app/src/controllers/summarize-controller.ts:132-146 | after an owner's update, reading the id gives the new content and the same owner |
| SummarizeController.DeleteThenRead | app/src/controllers/summarize-controller.ts:165-177 | after a deletion the id is gone and every other row is still found |
| SummarizeController.OwnedBelongsToUser | app/src/controllers/summarize-controller.ts:18 | every listed summary belongs to the user, and the list is the whole table only when the user owns every row |
| SummarizeController.OwnedKeepsTableOrder | app/src/controllers/summarize-controller.ts:18 | listing keeps table order: for a table made of two parts, the user's summaries are those of the first part followed by those of the second |
| Estimation.FloorMean | src/utils/estimation_time.py:40 | `sum // len` is a whole number |
| Estimation.FloorMeanBounds | src/utils/estimation_time.py:40 | the floored mean times the count is at most the sum, and one more than it times the count exceeds the sum |
| Estimation.Recorded | src/utils/estimation_time.py:15-18 | the bucket of `str(nb_pages)` gains the duration at its end, and is created when missing; every other bucket is unchanged |
| Estimation.GetEstimationTime | src/utils/estimation_time.py:23-40 | -1 for a page count never recorded; otherwise a whole number |
| Estimation.EstimationStore.constructor | src/utils/estimation_time.py:12-13 | the store starts empty and has no empty bucket |
| Estimation.EstimationStore.AddEstimationTime | src/utils/estimation_time.py:3-21 | the new contents are the old ones with the duration recorded, and no bucket is empty |
| Estimation.EstimateIsFlooredMean | src/utils/estimation_time.py:37-40 | a known page count's estimate `r` satisfies `r * n <= sum < (r + 1) * n` over its `n` durations |
| Estimation.FirstDurationIsEstimate | src/utils/estimation_time.py:15-40 | after the first duration for a page count, its estimate is that duration rounded down |
| Estimation.RecordedNoEmptyBucket | src/utils/estimation_time.py:15-18 | recording a duration keeps every bucket non-empty |
| Estimation.OtherEstimatesKept | src/utils/estimation_time.py:15-18 | recording for one page count leaves every other page count's estimate unchanged |
| Estimation.EstimateWithinRange | src/utils/estimation_time.py:40 | the estimate is at most the longest recorded duration and more than the shortest minus one |
| Estimation.SumBounds | src/utils/estimation_time.py:40 | a sum of `n` durations between `lo` and `hi` lies between `n * lo` and `n * hi` |
| Estimation.Sum | src/utils/estimation_time.py:40 | Python `sum` of a bucket's durations |
| SummarizeManager.Status.Value | src/enums.py:3-9 | the five statuses take the values 1 to 5 |
| SummarizeManager.InProgressStatuses | src/models/summarize_manager.py:201 | in progress means EXTRACTING or FILTERING, and the queue estimate counts every request that is neither COMPLETED nor FAILED |
| SummarizeManager.IndexOf | src/models/summarize_manager.py:42-45 | the first request with that id, and nothing exactly when no request has it |
| SummarizeManager.FirstIndexOf | src/models/summarize_manager.py:234 | `list.index`: the first position holding an equal record, and nothing exactly when none does |
| SummarizeManager.Select | src/models/summarize_manager.py:200-201 | a filtered list is never longer than the table |
| SummarizeManager.WithStatus | src/models/summarize_manager.py:68-77 | only the status changes, plus the start time for EXTRACTING, the error text for FAILED and the results for COMPLETED |
| SummarizeManager.Processed | src/models/summarize_manager.py:126-136 | the worker ends COMPLETED exactly when extraction and summarising both succeed, FAILED exactly when either raises, with the start time of extraction |
| SummarizeManager.SummarizeManager.constructor | src/models/summarize_manager.py:17-25 | the table, the queue and the status history start empty, so request ids start unique |
| SummarizeManager.SummarizeManager.GetRequest | src/models/summarize_manager.py:32-45 | the first request with that id, or nothing when no request has it |
| SummarizeManager.SummarizeManager.RemoveRequest | src/models/summarize_manager.py:47-56 | exactly the first request with that id is removed, the others keep their order; an unknown id changes nothing |
| SummarizeManager.SummarizeManager.UpdateRequestStatus | src/models/summarize_manager.py:59-77 | only the first request with that id changes, as `WithStatus` says, and the change is logged; an unknown id changes nothing |
| SummarizeManager.SummarizeManager.CleanupRequest | src/models/summarize_manager.py:98-111 | the duration since the start is recorded for the request's page count unless it failed or is unknown |
| SummarizeManager.SummarizeManager.RunStages | src/models/summarize_manager.py:126-136 | the request ends as `Processed` says, after the statuses EXTRACTING, then FILTERING and COMPLETED, or FAILED at the step that raised |
| SummarizeManager.SummarizeManager.SummarizeWorker | src/models/summarize_manager.py:115-138 | an unknown id changes nothing; otherwise the request is processed, and its duration is recorded exactly when it completed |
| SummarizeManager.SummarizeManager.StartSummarize | src/models/summarize_manager.py:141-178 | for an id no request holds, an unreadable PDF adds nothing and gives no id; otherwise exactly one PENDING request with the page count is appended and its id queued; ids stay unique |
| SummarizeManager.SummarizeManager.PdfPath | src/models/summarize_manager.py:160 | the upload folder, the request id and `file.pdf`, joined by `/` |
| SummarizeManager.SummarizeManager.QueueEstimation | src/models/summarize_manager.py:192-209 | the sum of the pending requests' remaining times plus that of the requests in progress |
| SummarizeManager.SummarizeManager.Reply | src/models/summarize_manager.py:229-259 | a pending request gets its rank among the pending ones plus 1, the queue estimate minus its own and its own; one in progress gets its remaining time; a finished one gets neither |
| SummarizeManager.SummarizeManager.Poll | src/models/summarize_manager.py:211-259 | an unknown id gives `Request not found`; a COMPLETED request is removed as it is reported, so its id is no longer found, while a request in any other state, FAILED included, stays where it was; the reply is as `Reply` says for the request found; ids stay unique |
| SummarizeManager.SelectMembers | src/models/summarize_manager.py:200-201 | the filtered list holds exactly the requests whose status passes |
| SummarizeManager.StagesRecord | src/models/summarize_manager.py:126-136 | the worker's successive status updates leave the record as `Processed` says |
| SummarizeManager.PendingPosition | src/models/summarize_manager.py:233-234 | `list.index` finds a pending request at its rank among the pending ones |
| SummarizeManager.SelectAtRank | src/models/summarize_manager.py:233 | the pending list holds a pending request at its rank, after the pending requests before it |
| SummarizeManager.RankMonotone | src/models/summarize_manager.py:233-234 | ranks never decrease along the table, and grow past each pending request |
| SummarizeManager.QueuePositions | src/models/summarize_manager.py:233-234 | queue positions of pending requests grow in table order, lie between 1 and the number of pending requests, and each names the request itself |
| SummarizeManager.RankReached | src/models/summarize_manager.py:233-234 | every position below a rank is held by some pending request before it |
| SummarizeManager.SumRemainingAppend | src/models/summarize_manager.py:203-207 | summing remaining times over two lists adds up |
| SummarizeManager.QueueTotalIsActiveSum | src/models/summarize_manager.py:199-209 | the two loops count every pending or in-progress request exactly once and no finished one |
| SummarizeManager.FinishedNotCounted | src/models/summarize_manager.py:200-201 | a finished request does not change the queue estimate |
| SummarizeManager.RemainingAtLeastMinusOne | src/models/summarize_manager.py:190 | a started request's remaining time is never below -1 |
| SummarizeManager.RemainingTime | src/models/summarize_manager.py:180-190 | a pending request's remaining time is its whole estimate; a started one's is the estimate less the time since its start, floored at -1 |
| SummarizeManager.QueueTotal | src/models/summarize_manager.py:192-209 | the queue estimate is the remaining time summed over the pending requests, then over those in progress |
| SummarizeManager.RemovedNotFound | src/models/summarize_manager.py:226-227 | once a COMPLETED request has been polled, polling its id again finds nothing |
| PdfExtractor.PageNames | src/models/pdf_extractor.py:31-34 | one name per page, in page order, each the name `__split_pdf` writes for that page |
| PdfExtractor.PageFileName | src/models/pdf_extractor.py:34 | the file name `__split_pdf` gives a page: `page_`, a `0` before pages 1 to 9 and `False` from page 10 on, the page number and `.pdf` |
| PdfExtractor.Pad | src/models/pdf_extractor.py:34 | `i < 9 and '0'` interpolated: `0` for the 0-based pages 0 to 8, the text `False` from page index 9 on |
| PdfExtractor.PageStem | src/models/pdf_extractor.py:34 | the page file name without `.pdf`: `page_`, the padding and the 1-based page number |
| PdfExtractor.MarkdownName | src/models/pdf_extractor.py:73 | the markdown output of a page file is its name with every `.pdf` replaced by `.md` |
| PdfExtractor.MarkdownNames | src/models/pdf_extractor.py:73 | one markdown name per page |
| PdfExtractor.MarkdownNameAt | src/models/pdf_extractor.py:73 | the markdown name of page `i` is its stem followed by `.md` |
| PdfExtractor.MarkdownNamesAreRenamedPages | src/models/pdf_extractor.py:73 | the markdown names are the page file names with `.pdf` replaced by `.md` |
| PdfExtractor.StemHasNoDot | src/models/pdf_extractor.py:34 | a page stem holds no dot, so only the extension is ever renamed |
| PdfExtractor.PageFileNameExamples | src/models/pdf_extractor.py:34 | pages 1 and 9 are `page_01.pdf` and `page_09.pdf`, while pages 10 and 100 are `page_False10.pdf` and `page_False100.pdf`, because `i < 9 and '0'` prints `False` |
| PdfExtractor.PageFileNamesDistinct | src/models/pdf_extractor.py:34 | no two pages share a file name |
| PdfExtractor.FilterKeepsOnlyPages | src/models/pdf_extractor.py:112-115 | every page file passes the filter, while the uploaded `file.pdf` and every markdown output are left out |
| PdfExtractor.MarkdownOfPage | src/models/pdf_extractor.py:73 | renaming a page file gives its stem followed by `.md` |
| PdfExtractor.PagesOfFreshFolder | src/models/pdf_extractor.py:104-115 | in a folder holding the upload and then the split pages, the filter keeps exactly the pages in order |
| PdfExtractor.SplitPdf | src/models/pdf_extractor.py:17-40 | the page files are written in order; a failed write stops the split after the pages already written and gives -1, otherwise the page count |
| PdfExtractor.WorkerMessage | src/models/pdf_extractor.py:51-59 | a page's worker puts `Success` after a conversion and the extraction error text with the exception otherwise |
| PdfExtractor.RecordedError | src/models/pdf_extractor.py:83-88 | an empty result queue records `No result received from extraction process`, an extraction error is recorded as it is, anything else records nothing |
| PdfExtractor.Errors | src/models/pdf_extractor.py:83-136 | the error queue holds the recorded errors of the pages, in the order the pages ran |
| PdfExtractor.WorkerErrorRecorded | src/models/pdf_extractor.py:51-86 | a page's message is recorded as an error exactly when its conversion raised, and then unchanged |
| PdfExtractor.NoErrorsIffAllPagesOk | src/models/pdf_extractor.py:83-136 | the error queue stays empty exactly when every page reported a message that is not an extraction error |
| PdfExtractor.Interval | src/models/pdf_extractor.py:124 | the page indices from `lo` up to `hi`, in order |
| PdfExtractor.IntervalAppend | src/models/pdf_extractor.py:124-125 | two adjacent index ranges join into one |
| PdfExtractor.FlattenSnoc | src/models/pdf_extractor.py:124-125 | one more batch adds its indices at the end |
| PdfExtractor.ExtractAll | src/models/pdf_extractor.py:118-128 | every page is run once, in page order, in batches of `NB_THREADS` with only the last one smaller; the errors are those of all pages |
| PdfExtractor.ExtractBatch | src/models/pdf_extractor.py:125-128 | a batch runs exactly its range of pages and adds their errors |
| PdfExtractor.BatchOfPage | src/models/pdf_extractor.py:124-128 | every page lies in exactly one batch, at exactly one place |
| PdfExtractor.FlattenIndex | src/models/pdf_extractor.py:124-128 | a batch entry sits in the run order at its batch's offset plus its place |
| PdfExtractor.FlattenIndexInjective | src/models/pdf_extractor.py:124-128 | two batch entries at the same place in the run order are one entry |
| PdfExtractor.FlattenPosition | src/models/pdf_extractor.py:124-128 | every entry of the run order comes from some batch |
| PdfExtractor.PdfExtractor.constructor | src/models/pdf_extractor.py:14-15 | the extractor keeps its upload folder |
| PdfExtractor.PdfExtractor.ConvertPdfContentToMarkdown | src/models/pdf_extractor.py:90-136 | an unreadable PDF raises; a failed split answers false; `NB_THREADS` of 0 raises from `range`; a negative one runs no page and answers true; otherwise true exactly when no page of the split reported an error |
| LlmSummarize.StripResumeRemovesLabel | src/models/llm_summarize.py:71-76 | an answer starting with `Résumé: ` loses exactly that label; any other answer is kept whole |
| LlmSummarize.StripResume | src/models/llm_summarize.py:71-76 | an answer that starts with `Résumé: ` loses its first eight characters |
| LlmSummarize.MarkdownFiles | src/models/llm_summarize.py:96-97 | the files ending in `.md`, sorted, as a permutation of the listing's filtered names |
| LlmSummarize.MarkdownFilesMembers | src/models/llm_summarize.py:97 | a name is among the sorted files exactly when the listing holds it and it ends in `.md` |
| LlmSummarize.MarkdownFilesCount | src/models/llm_summarize.py:96-97 | each `.md` name occurs among the sorted files as often as in the listing, and no other name occurs |
| LlmSummarize.EntryLabelsOnlyFilteringErrors | src/models/llm_summarize.py:117-121 | the assembly changes a slot exactly when it starts with `Error during filtering`, and then keeps it at the end of the labelled text |
| LlmSummarize.Entry | src/models/llm_summarize.py:117-121 | the `i`-th result: a slot starting with `Error during filtering` is labelled with page `i + 1`, any other slot, empty included, is kept |
| LlmSummarize.AssembleResults | src/models/llm_summarize.py:117-123 | one result per slot, in slot order, each the slot as the assembly labels it |
| LlmSummarize.LlmSummarize.constructor | src/models/llm_summarize.py:22-24 | the summariser keeps the agent id it was configured with |
| LlmSummarize.LlmSummarize.WorkerSlot | src/models/llm_summarize.py:39-79 | an unconfigured worker leaves its slot as it was; otherwise the slot gets the no-response error, the raised error, or the answer without its `Résumé: ` label |
| LlmSummarize.LlmSummarize.WorkerErrorsNotRelabelled | src/models/llm_summarize.py:50-121 | the worker's own error texts and the empty slots of an unconfigured worker pass the assembly unchanged; an answer is labelled only when, stripped, it starts with `Error during filtering` |
| LlmSummarize.LlmSummarize.SummarizePage | src/models/llm_summarize.py:81-123 | one result per markdown file in sorted order, each that file's worker outcome as the assembly labels it |
| LlmSummarize.LessAtHead | src/models/llm_summarize.py:97 | strings compare by their first character when it differs |
| LlmSummarize.TwoDigitsOrdered | src/models/llm_summarize.py:97 | two-digit page numbers sort in numeric order |
| LlmSummarize.ConsecutivePagesOrdered | src/models/llm_summarize.py:97 | below page 100 each page's markdown name sorts before the next page's, across the switch from `page_09` to `page_False10` as well |
| LlmSummarize.PageOrderSorted | src/models/llm_summarize.py:97 | up to 99 pages, the markdown names in page order are already sorted |
| LlmSummarize.SortedFilesFollowPages | src/models/llm_summarize.py:96-97 | up to 99 pages, whatever order the directory lists them in, the sorted markdown files are the pages in page order |
| LlmSummarize.HundredSortsEarly | src/models/llm_summarize.py:97 | `page_False100.md` sorts before `page_False11.md`, and `page_False99.md` does not sort before it |
| LlmSummarize.LateNames | src/models/pdf_extractor.py:34-73 | pages 11, 99 and 100 are named `page_False11.md`, `page_False99.md` and `page_False100.md` |
| LlmSummarize.PageOrderBrokenFrom100 | src/models/llm_summarize.py:97 | from 100 pages on, page 100 sorts before page 11, so the results no longer follow page order |
| Strings.ReplaceFirstAtStart | app/src/middlewares/auth-middleware.ts:21 | replacing a leading pattern by nothing drops exactly that prefix |
| Strings.ReplaceFirst | app/src/middlewares/auth-middleware.ts:21 | `String.replace` with a string pattern: only the first occurrence is replaced |
| Strings.ReplaceAllSuffix | src/models/pdf_extractor.py:73 | when the pattern occurs only at the end, replacing all occurrences swaps just that ending |
| Strings.ReplaceAll | src/models/pdf_extractor.py:73 | Python's `str.replace`: every non-overlapping occurrence, from the left, is replaced |
| Strings.Split | app/src/libs/password.ts:11 | splitting always gives at least one piece |
| Strings.SplitNoSeparator | app/src/libs/password.ts:11 | a string without the separator splits into itself alone |
| Strings.SplitAfterFirst | app/src/libs/password.ts:11 | the first piece ends at the first separator, and the rest splits on its own |
| Strings.NatToString | src/utils/estimation_time.py:15 | `str(n)` for a natural number: its decimal digits, most significant first |
| Strings.NatToStringRoundTrip | src/utils/estimation_time.py:15 | `str(n)` is a non-empty digit string that reads back as `n` |
| Strings.NatToStringInjective | src/utils/estimation_time.py:15-18 | different page counts never share a bucket key |
| Strings.LessTotal | src/models/llm_summarize.py:97 | any two strings are ordered one way or the other, or equal |
| Strings.LessTransitive | src/models/llm_summarize.py:97 | string order is transitive |
| Strings.LessCommonPrefix | src/models/llm_summarize.py:97 | a shared prefix does not change how two strings compare |
| Strings.Sort | src/models/llm_summarize.py:97 | `sorted` gives an ordered permutation of its input |
| Strings.SortOfSorted | src/models/llm_summarize.py:97 | sorting an ordered list leaves it as it is |
| Strings.SortedUnique | src/models/llm_summarize.py:97 | two ordered permutations of the same names are the same list |
| Strings.Filter | src/models/pdf_extractor.py:112-115 | the filter keeps exactly the names that pass, and no name more often than the listing holds it |
| Strings.FilterCount | src/models/pdf_extractor.py:112-115 | a name that passes is kept as often as the listing holds it, and one that fails not at all |
| Strings.FilterKeepsAll | src/models/pdf_extractor.py:112-115 | a list whose every name passes is kept whole |

## Left out

- Cryptography: AES and crypto-js key derivation are not modelled. The model never claims that the hex IV written in front of the ciphertext takes part in decryption.
- Hex.Parse: only well-formed input is parsed. crypto-js's lenient parse of other input is not modelled, and its result does not affect verification anyway.
- JSON Web Token signatures: HMAC signing is not modelled. Tokens are values of a codec that is assumed to decode exactly what was signed under the same key. The clock is the `now` the caller passes, and date claims are integers. The lifetime is a number of seconds, so `'24h'` is 86400 and an unreadable timespan string is not modelled. Verification options the service never sets (audience, issuer, `maxAge`, clock tolerance) are left out.
- app/src/enums/tokens.ts is not part of this model. The token types are taken as the strings `ACCESS` and `REFRESH`.
- The database: Prisma repositories are in-memory tables. Unique-key lookups fail on absence, ids, usernames and emails are unique, and the summary id autoincrements. The plain pass-through methods of the user and summary services and repositories (`getAllUsers`, `getUserByUsername` and the like) are modelled only through the lookups above.
- SummarizeController.SummaryStore.Create: that the database refuses a summary without `content` or `pdf_file` is assumed, because no schema guards the create route.
- AuthController.AuthController.LoginUser: a body without an email gets the 404, because the ORM refuses an undefined unique key. A non-string password is not modelled, because the login schema admits only strings.
- app/src/controllers/user-controller.ts, the routers, app/src/global.ts, app/index.ts and src/main.py are wiring and are not part of this model. Two consequences of that wiring are not modelled: the user routes carry no auth middleware, and the create-summary route has no body validator.
- `startSummarizeExtraction` and `pollSummarizeExtraction`: these read the upload, build a multipart form and forward it to the worker over HTTP. File and network I/O are not modelled.
- HTTP servers (Express and the worker's server) and `next()` beyond its being called: `next` is assumed to return normally.
- SummarizeController.ToNumber: only digit strings are converted to integers. Every other path segment is treated as a value no integer id equals. JavaScript `Number` also reads forms such as `" 12"`, `"1e1"` or `"0x1f"` as integers, and those are not modelled.
- Concurrency:
  - the worker's processing thread, its queue, lock and `_process_queue` loop, including that loop's own FAILED update when the worker itself raises;
  - the extraction processes and their batch threads, of which only the batch partition and the per-page outcomes are kept;
  - the summariser's per-page threads and their three-second delays.
- The file system:
  - making, copying and removing folders and files;
  - `shutil.rmtree` in the clean-up;
  - reading the prompt file and the markdown pages;
  - the estimation JSON file, which is an in-memory map of buckets.
- PdfExtractor.SplitPdf: when a page write fails, the empty file `open` may have left behind is not modelled.
- The order of `os.listdir`: the folder listing is a parameter. `PagesOfFreshFolder` takes it in creation order; the summariser's result order does not depend on it, because the file names are sorted.
- PyPDF2, docling and the Mistral client: the page count, a failing page write, each page's conversion outcome, what each extraction process leaves on its queue and each completion reply are inputs.
- LlmSummarize.LlmSummarize.SummarizePage: the custom prompt is handed to the page worker, which never uses it, so it is not a parameter. The Mistral client object always exists, so only the agent id can make the worker skip its call.
- `NB_THREADS`: a non-numeric value makes `int()` raise when the module loads; this is not modelled. Zero and negative values are modelled.
- SummarizeManager.SummarizeManager.StartSummarize: requires an id that no request holds. The source draws it from `uuid4`, whose collisions are not modelled; the unique ids this keeps are what makes a polled COMPLETED request not found afterwards.
- Estimation.GetEstimationTime: requires that no bucket is empty. The store only ever creates a bucket with a first duration in it, and an empty bucket in a hand-edited file would divide by zero.
- JSON numbers are integers in the model. No request schema distinguishes integers from other numbers, and the date claims the library checks are whole seconds.
- Floating point: durations are exact reals, `//` is the floor of the exact quotient, and IEEE rounding is not modelled.
- The clock: `time()` is a parameter (`now`, `started`, `finished`).
- Logging: `console.error` and `print`.
