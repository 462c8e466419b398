# Decoupled web application template: a Dafny model of its core

This project models the decision logic of a Flask back end, an older Flask
server and a Next.js front end that together form a web-application
template with users, log-in by bearer token, a rate limiter and a Stripe
catalogue, along with two maintenance scripts. Every component is one
Dafny module; the shared data model is `Json` (the dictionaries handlers
exchange), `UserTable` (the `users` table as a map from primary key to
attributes, with a unique e-mail), `Jwt` (a decoded token), `HttpReply`
(a status code with a body) and `Wrappers` (optional values).

- Request hooks and guards: the rate limiters (`RateLimit`,
  `LegacyRateLimit`, classes over the `g.rate_limit` map), the CORS
  preflight, the response logger, the response envelope, the status-code
  table, and the two bearer-token guards (`TokenValidation`,
  `TokenRequired`).
- Services over the users table: `BackendUsers` and `ServerUsers` are
  classes holding the table. Their methods update it in place and are
  proved against pure functions from the table before to the result and
  the table after. `Manage` does the same for the `manage.py` commands.
- Handlers and routes: pure maps from schema checks and service results to
  replies (`Outcomes`, `BackendUserHandlers`, `ServerUserHandlers`,
  `ServerUserApi`, `BackendAuth`, `StripeHandlers`), and the older
  server's `UserSchema`.
- The catalogue: `Catalog` splits the fetched Stripe items into one-time
  products and recurring services. backend/server/services/product.py and
  backend/server/services/service.py repeat the functions of
  backend/server/services/stripe.py line for line, so the rows below cite
  stripe.py for all three.
- The front end: prices and their labels (`Pricing`), the store pages'
  fetch handlers, checkout, the sign-in record and role hook, the older
  log-in page, and the three tables with their sort configurations over a
  stable insertion sort (`Sorting`).
- The configuration importer of frontend/config.py and the two tree
  cleaners in scripts/.

Libraries the code calls are parameters of the functions that use them,
or abstract inputs:
- password hashing and checking, and `jwt.encode`/`jwt.decode`;
- the database's failures, as a `Fault`;
- marshmallow's parsers, `localeCompare`, `atob` with `JSON.parse`, and the regular-expression class `\w`;
- the Stripe fetches and the clock.

## Model

| member | source | states |
|---|---|---|
| ApiLogger.TruncationShape | server/middleware/api_logger.py:23-27 | the logged body is the first 500 bytes of the data (all of it when shorter), followed by "... [Truncated]" exactly when the data is longer |
| ApiLogger.ReturnsSameResponse | server/middleware/api_logger.py:17-46 | the response is returned unchanged; a non-Response value is logged as direct passthrough, unreadable data as not accessible |
| ApiLogger.LogResponse | server/middleware/api_logger.py:17-46 | the value is returned as given; a non-Response is logged as direct passthrough, unreadable data as not accessible, and readable data as its truncated body |
| Preflight.PreflightAnswersOptions | server/middlewares/preflight.py:5-13 | only an OPTIONS request is answered at once, with the four CORS headers (origin `*`, the three headers, GET/POST/OPTIONS, max age 3600), each once |
| Preflight.PreflightHandler | server/middlewares/preflight.py:3-13 | an OPTIONS request is answered at once with the four CORS headers; any other request goes on |
| HttpStatus.Hundred | server/utils/http_status_codes.py:1-73 | within each hundred the table holds exactly that hundred's codes, each with the category its first digit names |
| HttpStatus.KeysExact | server/utils/http_status_codes.py:1-73 | a code has an entry exactly when it is one of the listed keys, all between 100 and 511 |
| HttpStatus.CategoryFollowsHundreds | server/utils/http_status_codes.py:1-73 | every entry's category is informational, success, redirection, client error or server error by its hundreds digit |
| HttpStatus.KnownEntries | server/utils/http_status_codes.py:1-73 | 401, 403, 409, 418 ("I'm a teapot"), 429 and 500 map to their categories and reason phrases |
| HttpStatus.GapsAreAbsent | server/utils/http_status_codes.py:1-73 | the unassigned codes 306 and 509 have no entry |
| HttpStatus.Lookup | server/utils/http_status_codes.py:1-73 | the table's entry for a code, looked up within its hundred; none below 100 or from 600 |
| HttpReply.Behind | backend/server/middlewares/authorizer.py:58 | a guarded handler runs exactly when the guard admits, with the admitted value first and the arguments unchanged; a refusal is returned as it is |
| RateLimit.AppGlobals.constructor | server/middlewares/rate_limit.py:19-22 | before the first call `g` has no `rate_limit` map |
| RateLimit.AppGlobals.Check | server/middlewares/rate_limit.py:19-39 | one call as written: the map is created when absent, the entry re-seeded to (0, now) unless the key names an attribute of `g`, then decided and written back by the three-way rule |
| RateLimit.AppGlobals.CheckAsIntended | server/middlewares/rate_limit.py:19-39 | one call with the presence test on the map itself: only a missing entry is seeded |
| RateLimit.KeyIsNotRateLimit | server/middlewares/rate_limit.py:24 | a counter key is never the attribute name `rate_limit` |
| RateLimit.KeyInjective | server/middlewares/rate_limit.py:24 | distinct (endpoint, address) pairs never share a counter key when endpoint names hold no `:` |
| RateLimit.AsWrittenAlwaysAllows | server/middlewares/rate_limit.py:25-36 | as written, with at least one allowed request and a non-negative window, every call is allowed and the entry ends as (1, now), other entries kept |
| RateLimit.AsWrittenNeverLimits | server/middlewares/rate_limit.py:25-36 | as written, no sequence of calls on one key is ever rejected |
| RateLimit.AbortKeepsEntry | server/middlewares/rate_limit.py:31-34 | a call is aborted with 429 exactly when the window is open and the count has reached the limit, and the map is then left as seeded |
| RateLimit.RuleOnEntry | server/middlewares/rate_limit.py:28-36 | on an existing entry: an expired window restarts at (1, now), a full window aborts, otherwise the count grows by one and the window start is kept; no other entry changes |
| RateLimit.IntendedKeepsLimit | server/middlewares/rate_limit.py:26-36 | with the intended presence test and a map kept across requests (see "## Left out"), no stored count ever exceeds the maximum |
| RateLimit.IntendedBurst | server/middlewares/rate_limit.py:26-36 | with the intended test and a map kept across requests, a burst within one window is allowed exactly until the count reaches the maximum |
| RateLimit.IntendedLimitsBurst | server/middlewares/rate_limit.py:26-36 | with the intended test and a map kept across requests, from an empty map exactly the first `max_requests` calls within one window are allowed |
| RateLimit.Admit | server/middlewares/rate_limit.py:24-36 | after the optional re-seed with (0, now): a missing entry raises; a window older than `time_window` restarts at one request; a count at the limit is refused and nothing written; otherwise the count goes up by one |
| LegacyRateLimit.Check | server/handler/rate_limit.py:14-30 | one call of the older decorator: a missing `g.rate_limit` raises before the handler; otherwise the same re-seed and three-way rule |
| LegacyRateLimit.MissingMapRaises | server/handler/rate_limit.py:17-18 | without `g.rate_limit` every call raises and nothing is created |
| LegacyRateLimit.AgreesWithCurrent | server/handler/rate_limit.py:16-28 | with the map present the older decorator decides exactly as the newer one |
| LegacyRateLimit.LegacyAlwaysAllows | server/handler/rate_limit.py:17-28 | with the map present and the key not an attribute of `g`, every call is allowed and the entry ends as (1, now) |
| LegacyRateLimit.LegacyAdmit | server/handler/rate_limit.py:14-28 | an absent `g.rate_limit` raises before anything else; a present one is decided by the same rule as the current limiter |
| Jwt.NoSpaceUnindexable | backend/server/middlewares/authorizer.py:17 | reading the second space-separated word fails exactly when the header holds no space |
| Jwt.SchemeAndToken | backend/server/middlewares/authorizer.py:17 | `"<scheme> <token>"` yields the token |
| Jwt.BearerAloneIsEmpty | backend/server/middlewares/authorizer.py:17-19 | `"Bearer "` yields an empty token |
| Jwt.ReadToken | backend/server/middlewares/authorizer.py:17 | no header gives no token; a header without a space cannot be indexed; otherwise the second space-separated word |
| TokenValidation.MissingTokenRefused | backend/server/middlewares/authorizer.py:16-23 | no header or an empty token gives 401 "Token is missing!" before any decoding |
| TokenValidation.BearerAloneRefused | backend/server/middlewares/authorizer.py:17-23 | the header `"Bearer "` gives 401 "Token is missing!" |
| TokenValidation.NoSpaceRaises | backend/server/middlewares/authorizer.py:17 | a header without a space raises outside the `try`, so neither a 401 nor a 500 reply is produced |
| TokenValidation.DecodeFailures | backend/server/middlewares/authorizer.py:41-55 | an expired token gives 401 "Token has expired!", an invalid one 401 "Token is invalid!", any other decoding error 500 "Server error" |
| TokenValidation.UnknownUserBeforeRole | backend/server/middlewares/authorizer.py:27-39 | a failed or empty lookup gives 401 "User does not exist!" on both user and admin routes, never 403 |
| TokenValidation.AdmittedExactly | backend/server/middlewares/authorizer.py:14-58 | the guard admits a user exactly when the token decodes, its `user_id` finds that user, and the route does not need an administrator or the user is one |
| TokenValidation.NonAdminForbidden | backend/server/middlewares/authorizer.py:35-66 | a found non-administrator gets 403 "Not authorized!" from `admin_token_required` and is admitted by `user_token_required` |
| TokenValidation.RefusalCodes | backend/server/middlewares/authorizer.py:10-66 | every refusal is 401, 403 or 500, and 403 only where an administrator is required |
| TokenValidation.HandlerGetsUser | backend/server/middlewares/authorizer.py:58 | the handler runs exactly when the guard admits, with the user as its first argument and the other arguments unchanged |
| TokenValidation.Validate | backend/server/middlewares/authorizer.py:10-60 | in order: a header without a space raises, no token is 401, an expired, invalid or otherwise failing decode is 401/401/500, claims without `user_id` are 500, an unknown user is 401, a non-admin where admin is required is 403, and otherwise the user is admitted |
| TokenValidation.UserTokenRequired | backend/server/middlewares/authorizer.py:62-63 | the guard without the admin requirement |
| TokenValidation.AdminTokenRequired | backend/server/middlewares/authorizer.py:65-66 | the guard with the admin requirement |
| TokenRequired.MissingTokenRefused | server/middleware/authorizer.py:18-26 | no header or an empty token gives 401 "Token is missing!" before any decoding |
| TokenRequired.DecodeFailures | server/middleware/authorizer.py:51-65 | an expired token gives 401, an invalid one 401, any other error 500, each with this guard's own message |
| TokenRequired.ExpiryBoundary | server/middleware/authorizer.py:33-47 | against the fractional clock of `datetime.now().timestamp()`, an integer `exp` before now is refused as expired, so a whole-second `exp` is already expired once any fraction of that second has passed; an `exp` exactly equal to now passes, and the lookup then decides |
| TokenRequired.AdmitsFirstMatch | server/middleware/authorizer.py:28-49 | the guard admits an id exactly when the token decodes, has not expired and its `user_id` matches users, the first of whom has that id; there is no role check |
| TokenRequired.RefusalCodes | server/middleware/authorizer.py:11-67 | every refusal is 401 or 500, never 403 |
| TokenRequired.HandlerGetsUserId | server/middleware/authorizer.py:49-67 | on success the handler receives the user's id, not the user, first; otherwise it does not run |
| TokenRequired.Validate | server/middleware/authorizer.py:11-69 | in order: a header without a space raises, no token is 401, decode failures are 401/401/500, a missing or incomparable `exp` is 500, an `exp` before now is 401 expired, a missing `user_id` is 500, no user with that id is 401, and otherwise the first such user's id is admitted |
| Outcomes.ClassifierCodes | backend/server/handlers/global_functions.py:7-20 | every classified failure is 400, 409 or 500 and carries the message as `error_info` |
| Outcomes.MissingUserIs400 | backend/server/handlers/global_functions.py:8-10 | 400 exactly for the message "User does not exist" |
| Outcomes.ConflictExactly | backend/server/handlers/global_functions.py:12-15 | 409 exactly when the message contains the duplicate-email text |
| Outcomes.DuplicateAnywhereIs409 | backend/server/handlers/global_functions.py:12-15 | the duplicate-email text anywhere in a message gives 409 with that message |
| Outcomes.NearMissIs500 | backend/server/handlers/global_functions.py:8-18 | "User does not exist!" (with the guard's `!`) is a 500, not a 400 |
| Outcomes.PlainMessageIs500 | backend/server/handlers/global_functions.py:16-18 | a message without a colon other than "User does not exist" is a 500 |
| Outcomes.ShortMessageIs500 | backend/server/handlers/global_functions.py:16-18 | a message shorter than the duplicate-email text other than "User does not exist" is a 500 |
| Outcomes.SuccessKeepsCode | backend/server/handlers/user.py:23-27 | on success the code is kept and the data used, or `{info: message}` when it is empty |
| Outcomes.FailureIgnoresCode | backend/server/handlers/user.py:28-31 | on failure the code and data passed in are ignored and the classifier decides |
| Outcomes.ValidationMessages | backend/server/handlers/user.py:12-19 | no schema errors gives the loaded data; otherwise one "field: e1, e2" message per failing field, in order |
| Outcomes.SingleErrorMessage | backend/server/handlers/user.py:16 | a field with one error reads "field: error" |
| Outcomes.Classify | backend/server/handlers/global_functions.py:7-20 | "User does not exist" is 400, a message containing the duplicate-email text is 409, any other is 500, each with the message as `error_info` |
| Outcomes.UnifiedResponse | backend/server/handlers/user.py:23-31 | success replies with the given code and the data, or with the message as `info` when there is no data; failure is classified and the code ignored |
| Outcomes.ValidateSchema | backend/server/handlers/user.py:12-22 | no schema errors gives the loaded data; otherwise one "field: error, error" message per failing field, in order |
| BackendUserHandlers.CreateOutcomes | backend/server/handlers/user.py:34-40 | invalid data is a 500 (the 400 passed in is ignored) and the service is not called; success is 201 with `{info: message}`; a failure is classified |
| BackendUserHandlers.GetUsersOutcomes | backend/server/handlers/user.py:43-49 | a non-administrator gets `None`; an administrator gets 200 with the users or the classified failure |
| BackendUserHandlers.GetUserNotFound | backend/server/handlers/user.py:52-54 | a value that is not a user gives "User not found" with 500, not the 404 passed in |
| BackendUserHandlers.GetUserByIdOutcomes | backend/server/handlers/user.py:59-63 | a stored id gives 200 with the user; an unknown id makes the lookup succeed with no user, and the handler raises |
| BackendUserHandlers.UpdateRejections | backend/server/handlers/user.py:66-86 | a request naming "password" and data failing the schema are both 500, whatever the service does |
| BackendUserHandlers.FailedUpdateThrows | backend/server/handlers/user.py:75-76 | a failed update of the current user raises instead of replying; a successful one is 200 with the user |
| BackendUserHandlers.UnknownIdUpdateIs400 | backend/server/handlers/user.py:88-90 | updating an unknown id gives 400 "User does not exist" |
| BackendUserHandlers.DeleteUserAlwaysThrows | backend/server/handlers/user.py:95-96 | as written, deleting the current user always raises after the service has run |
| BackendUserHandlers.IntendedDeleteReplies | backend/server/handlers/user.py:95-99 | with the pair unpacked as returned, deletion replies 200 with `{info: message}` or the classified failure |
| BackendUserHandlers.DeleteByIdOutcomes | backend/server/handlers/user.py:102-106 | deleting by id: an unknown id is 400, a success 200 with `{info: message}`, a store failure 500 |
| BackendUserHandlers.HandleCreateUser | backend/server/handlers/user.py:34-40 | invalid data is 500 with "Failed to create user. Provided data was not valid." as `error_info`: `unified_response(False, …)` drops the code 400 and the schema messages passed to it, and the classifier finds neither test true; otherwise the service's message, 201 on success and the classifier's code on failure |
| BackendUserHandlers.HandleGetUsers | backend/server/handlers/user.py:43-49 | a non-admin caller gets no reply at all (the function falls off its end); an admin gets the user list with 200, or the failure classified |
| BackendUserHandlers.HandleGetUser | backend/server/handlers/user.py:52-56 | a user gives 200 with that user; anything else is 500 with "User not found", since the failure path drops the code 404 it is passed and the classifier answers 500 for that message |
| BackendUserHandlers.HandleGetUserById | backend/server/handlers/user.py:59-63 | a failed lookup is classified; a found user is 200 with the user; a missing one raises, since `None.to_dict()` is evaluated |
| BackendUserHandlers.HandleUpdateUser | backend/server/handlers/user.py:66-76 | a password in the request and invalid data are both refused with 500 and their fixed messages: the failure path drops the code 400 (and the schema messages) passed to it, and the classifier answers 500; otherwise a service result without a user raises, and one with a user replies with it |
| BackendUserHandlers.HandleUpdateUserById | backend/server/handlers/user.py:79-92 | the same 500 refusals as `handle_update_user` (the code 400 passed is dropped on the failure path); a failed update is classified, a successful one without a user raises, one with a user replies 200 with it |
| BackendUserHandlers.HandleDeleteUser | backend/server/handlers/user.py:95-99 | as written, the handler unpacks three values from the service's pair and so always raises |
| BackendUserHandlers.HandleDeleteUserAsIntended | backend/server/handlers/user.py:95-99 | with the pair unpacked: success is 200 with the message, failure is classified |
| BackendUserHandlers.HandleDeleteUserById | backend/server/handlers/user.py:102-106 | success is 200 with the message, failure is classified |
| UserTable.FirstWithEmail | server/services/user.py:65 | the key found lies in the range, holds the email and no smaller key in the range does; none found means no key in the range holds it |
| UserTable.FindByEmailExact | server/services/user.py:65-91 | in a valid table `filter_by(email=...).first()` finds a user exactly when some row holds the email, and for a non-null email that row is the only one |
| UserTable.PutKeepsUnique | backend/server/services/user.py:35-41 | writing a row whose email no other row holds keeps the unique-email constraint |
| UserTable.FindByEmail | server/services/user.py:65 | the first user, by key, whose e-mail is the one given, or none |
| BackendUsers.Users.constructor | backend/server/services/user.py:9-207 | the table starts empty, next key 1, invariant established |
| BackendUsers.Users.Create | backend/server/services/user.py:9-46 | `create_user` in place: flag, message and new table are those of the creation rule; the key counter advances only on success; the table invariant is kept |
| BackendUsers.Users.Update | backend/server/services/user.py:83-117 | `update_user` in place, its `setattr` loop included: result and new table as the update rule says, invariant kept |
| BackendUsers.Users.UpdateById | backend/server/services/user.py:119-157 | `update_user_by_id` in place: result and new table as the rule says, invariant kept |
| BackendUsers.Users.Delete | backend/server/services/user.py:160-180 | `delete_user` in place: result and new table as the rule says, invariant kept |
| BackendUsers.Users.DeleteById | backend/server/services/user.py:183-207 | `delete_user_by_id` in place: result and new table as the rule says, invariant kept |
| BackendUsers.CreateKeepsTableValid | backend/server/services/user.py:19-46 | creation succeeds exactly when the commit goes through and the email is unused; the user is then added under a fresh key and nothing else changes; the invariant holds either way |
| BackendUsers.DuplicateCreateIsConflict | backend/server/services/user.py:35-40 | a duplicate email yields the "already exists" message, table unchanged, which the classifier maps to 409 |
| BackendUsers.FailuresLeaveTableUnchanged | backend/server/services/user.py:35-46 | every failed create, update or delete rolls back: the table is as before and no user is returned (also lines 146-157, 204-207) |
| BackendUsers.AssignedLastWins | backend/server/services/user.py:97-98 | after the `setattr` loop an attribute holds the value of its last assignment |
| BackendUsers.AssignedUntouched | backend/server/services/user.py:97-98 | an attribute the dict does not name keeps its value, or stays absent |
| BackendUsers.UpdateKeepsTableValid | backend/server/services/user.py:95-117 | an update succeeds exactly when the commit goes through and no other user holds the resulting email; then only that user's row changes, to the assigned attributes; the invariant holds either way |
| BackendUsers.EmptyUpdateSucceeds | backend/server/services/user.py:95-104 | an update with an empty dict succeeds and changes nothing |
| BackendUsers.UnknownIdRejected | backend/server/services/user.py:132-196 | an unknown id gives "User does not exist" for update and delete, changes nothing, and classifies as 400 |
| BackendUsers.DeleteRemovesExactly | backend/server/services/user.py:193-202 | delete by id succeeds exactly when the user exists and the commit goes through, and then removes only that key |
| BackendUsers.LookupByIdResults | backend/server/services/user.py:64-80 | an unknown id is a success with no user, a known one returns its row, a failing query gives the error message |
| ServerUsers.Users.constructor | server/services/user.py:9-120 | the table starts empty, next key 1, invariant established |
| ServerUsers.Users.Register | server/services/user.py:9-50 | `register_user` in place: flag, message and new table as the registration rule says; the key counter advances only on success; invariant kept |
| ServerUsers.Users.Delete | server/services/user.py:53-75 | `delete_user` in place: result and new table as the rule says, invariant kept |
| ServerUsers.Users.Update | server/services/user.py:78-120 | `update_user` in place: result and new table as the rule says, invariant kept |
| ServerUsers.RegisterKeepsTableValid | server/services/user.py:19-50 | registration succeeds exactly when the commit goes through and the email is unused; the user is then added under a fresh key, otherwise the table is unchanged; the invariant holds either way |
| ServerUsers.DuplicateRegisterIsConflict | server/services/user.py:39-44 | a duplicate email gives the "already exists" message, table unchanged, classified as 409 |
| ServerUsers.HeightAndWeightKeys | server/services/user.py:24-25 | the stored height and weight come from the keys "height" and "weight", so input under `height_cm`/`weight_kg` alone stores null |
| ServerUsers.DeleteByEmail | server/services/user.py:63-71 | an email no user holds gives "User does not exist" and removes nothing; a success removes exactly the one user holding the email |
| ServerUsers.NewEmailReplacesEmail | server/services/user.py:96-97 | a present `new_email` becomes `email` and is removed as a key, other keys kept; without it the dict is unchanged |
| ServerUsers.UpdateByEmail | server/services/user.py:88-120 | an update finds the user by the old email; unknown gives "User does not exist"; success changes only that user, to its fields overwritten by the request's; failures change nothing; the invariant holds |
| ServerUsers.DetailsResults | server/services/user.py:141-159 | an unknown key gives "User does not exist" and no data; a stored key gives its row |
| ServerUsers.RegisterUser | server/services/user.py:9-50 | the row built from the request (height and weight read from the keys "height" and "weight") goes in under the next key on success; an unexpected error, a held e-mail or another integrity error gives failure and the table unchanged |
| ServerUsers.DeleteUser | server/services/user.py:53-75 | the user holding the request's e-mail is removed on success; no such user is "User does not exist", an error is failure, both with the table unchanged |
| ServerUsers.UpdateUser | server/services/user.py:78-120 | the user found by the request's e-mail gets the request's fields, `new_email` becoming the e-mail; no such user, an unexpected error, an e-mail another user holds or an integrity error leaves the table unchanged |
| ServerUsers.GetUserDetails | server/services/user.py:141-162 | the row of that id on success; an unknown id is "User does not exist", a failed query is failure |
| ServerUsers.RenameNewEmail | server/services/user.py:96-97 | a present `new_email` replaces `email` and is itself removed; without one the request is unchanged |
| ServerUserHandlers.RegisterOutcomes | server/handlers/user.py:18-37 | schema errors give 400 carrying them, whatever the service would do; otherwise success is 201 with `{info: message}` and a failure is classified |
| ServerUserHandlers.DuplicateRegisterIs409 | server/handlers/user.py:29-36 | a valid registration whose email is taken is answered 409 with the duplicate-email message |
| ServerUserHandlers.AuthorizeOutcomes | server/handlers/user.py:40-82 | a missing or empty email or password is 400 before the table is read; an unknown email and a wrong password give the same 401; the matching user gets a token for its id, or 500 when encoding fails |
| ServerUserHandlers.ClaimsContents | server/handlers/user.py:56-58 | the token names the user and expires exactly one hour after issue |
| ServerUserHandlers.DeleteOutcomes | server/handlers/user.py:85-104 | deletion success is 201 and every failure 409, "User does not exist" included |
| ServerUserHandlers.UpdateOutcomes | server/handlers/user.py:107-134 | a failed update is 409 exactly when its message holds the duplicate-email text, otherwise 500 |
| ServerUserHandlers.DetailsOutcomes | server/handlers/user.py:137-164 | details: an exception is 500 "Internal server error"; a failure is 400 exactly for "User does not exist", otherwise 500 |
| ServerUserHandlers.HandleRegisterUser | server/handlers/user.py:18-37 | schema errors are 400 with the error dict; otherwise the service's success is 201 with its message and its failure is classified |
| ServerUserHandlers.HandleAuthorizeUser | server/handlers/user.py:40-82 | a missing e-mail or password is 400; a known user with a matching password gets 200 and a token for one hour, or 500 when encoding fails; anything else is 401 |
| ServerUserHandlers.HandleDeleteUser | server/handlers/user.py:85-104 | schema errors are 400; the service's success is 201, its failure 409 with its message |
| ServerUserHandlers.HandleUpdateUser | server/handlers/user.py:107-134 | partial-schema errors are 400; success is 201, a failure whose message holds the duplicate-email text is 409 and any other failure 500 |
| ServerUserHandlers.HandleUserDetails | server/handlers/user.py:137-164 | success is 200 with the details; "User does not exist" is 400; any other failure, or a raising service, is 500 |
| ServerUserApi.RegisterOutcomes | server/api/user.py:82-106 | the `/register` body: schema errors 400, success 201, a failure 409 exactly when its message holds the duplicate-email text, otherwise 500 |
| ServerUserApi.RegisterAgainstHandler | server/api/user.py:96-104 | the route and the handler differ only on a failure whose message is exactly "User does not exist" |
| ServerUserApi.BodiesAgreeWithHandlers | server/api/user.py:142-344 | log-in, delete, update and details bodies reply exactly as the handlers do |
| ServerUserApi.MissingTableCrashes | server/api/user.py:20-22 | without `g.rate_limit` each of the five rate-limited routes, `/register`, `/authorize`, `/delete`, `/update` and `/user-details`, raises before its body; `/user-details` gets that far only when its token is admitted (also lines 108-110, 176-179, 228-231, 292-295) |
| ServerUserApi.CreatedMapRunsBodies | server/middlewares/rate_limit.py:20-22 | with the map created when absent, as the newer limiter does, `/register` and `/authorize` run their bodies and record the request as (1, now), and `/delete` and `/update` reach the token guard |
| ServerUserApi.DeleteAndUpdateNeverRun | server/api/user.py:176-231 | `/delete` and `/update` never run their bodies; a request both guards admit raises `TypeError` |
| ServerUserApi.IntendedStackRunsBody | server/api/user.py:176-231 | with routes that accept the injected id, an admitted request runs the body, and only then; the rate table changes the same way |
| ServerUserApi.DecoratorOrder | server/api/user.py:176-179 | `/delete` counts every request in the rate table; `/user-details` touches it only for an admitted token and then passes on that user's id (also lines 292-295) |
| ServerUserApi.LimiterAlwaysAdmits | server/handler/rate_limit.py:14-30 | with the table present and the key not an attribute of `g`, the limiter re-seeds the entry and admits every request |
| ServerUserApi.Register | server/api/user.py:22-106 | the `/register` body: schema errors are 400; success is 201; a failure is 409 when its message holds the duplicate-email text and 500 otherwise |
| ServerUserApi.Authorize | server/api/user.py:110-173 | the `/authorize` body: a missing e-mail or password is 400; a known user with a matching password gets 200 and a one-hour token, or 500 when encoding fails; otherwise 401 |
| ServerUserApi.Delete | server/api/user.py:179-225 | the `/delete` body: schema errors are 400; success is 201 and failure 409 |
| ServerUserApi.Update | server/api/user.py:231-289 | the `/update` body: partial-schema errors are 400; success is 201; a duplicate-email failure is 409 and any other 500 |
| ServerUserApi.UserDetails | server/api/user.py:295-344 | the `/user-details` body: 200 with the details, 400 for an unknown user, 500 for any other failure or a raising service |
| ServerUserApi.RegisterRoute | server/api/user.py:20-106 | the older limiter runs first and the body only when it admits; a refusal is 429 and a missing `g.rate_limit` a crash |
| ServerUserApi.AuthorizeRoute | server/api/user.py:108-110 | `/authorize`: the older limiter first, then the log-in body; 429 when refused, a crash when `g.rate_limit` is missing |
| ServerUserApi.DeleteRoute | server/api/user.py:176-225 | after the limiter, `token_required` replies its refusals, and an admitted request crashes because the body takes no user id |
| ServerUserApi.UpdateRoute | server/api/user.py:228-289 | stacked and failing exactly as `/delete` |
| ServerUserApi.DeleteRouteAsIntended | server/api/user.py:176-225 | with a body that accepts the injected id: the limiter, then the token guard, then the `/delete` body |
| ServerUserApi.UpdateRouteAsIntended | server/api/user.py:228-289 | with a body that accepts the injected id: the limiter, then the token guard, then the `/update` body |
| ServerUserApi.UserDetailsRoute | server/api/user.py:292-344 | the token guard runs first; an admitted id passes the limiter and reaches the body as its argument |
| UserSchema.Errors | server/schema/user.py:4-13 | a key has an error entry exactly when it is given or declared and marshmallow reports a problem for it |
| UserSchema.DeclaredNames | server/schema/user.py:5-13 | the declared fields are the nine names, and all but `new_email` are required |
| UserSchema.RequiredFields | server/schema/user.py:5-12 | the whole schema reports each absent required field as missing, and never `new_email` |
| UserSchema.MinimumLengths | server/schema/user.py:5-12 | first and last name need one character, gender four and password six; a shorter string is an error and a long enough one is not |
| UserSchema.PartialReportsOnlyGivenKeys | server/handlers/user.py:108-109 | with `partial=True` only given keys can be errors |
| UserSchema.UndeclaredKeysRejected | server/schema/user.py:4 | a key the schema does not declare is an "Unknown field." error |
| UserSchema.EmailOnlyAccepts | server/handlers/user.py:86-87 | `UserSchema(only=["email"])` accepts exactly a dict holding one valid email under "email" |
| BackendAuth.LoginSuccess | backend/server/services/auth.py:15-29 | a successful login comes from a stored user whose password matches and whose role resolves, with the token encoding its id, role and expiry; every failure carries the empty token and a failure message |
| BackendAuth.ClaimsContents | backend/server/services/auth.py:19-24 | the claims are the user id, the role name and an expiry exactly one day after issue |
| BackendAuth.LoginFailures | backend/server/services/auth.py:15-40 | as written, an unknown email gives "Unexpected error occurred" and never "User does not exist"; a wrong password gives "Password is invalid"; an unresolved role is unexpected |
| BackendAuth.IntendedLoginReportsMissingUser | backend/server/services/auth.py:30-37 | with the missing user checked first, an unknown email is exactly when "User does not exist" is reported; for a known email both versions agree |
| BackendAuth.LoginReplies | backend/server/handlers/auth.py:16-36 | missing credentials are 400 without calling the service; success is 200 with message and token; every service failure is 401 with its message |
| BackendAuth.UnknownEmailLogin | backend/server/handlers/auth.py:27-36 | so an unknown email gets 401 "Unexpected error occurred" |
| BackendAuth.StubsReturnNone | backend/server/handlers/auth.py:39-51 | logout, forgot-password and reset-password return nothing for every request |
| BackendAuth.LoginUser | backend/server/services/auth.py:13-40 | as written: a known user with the right password gets a one-day token whose claims carry the id and the role name; a wrong password is "Password is invalid"; an unknown e-mail, a missing role or a failing encoder is "Unexpected error occurred" |
| BackendAuth.LoginUserAsIntended | backend/server/services/auth.py:30-37 | with the branches in the intended order: an unknown e-mail is "User does not exist", a wrong password "Password is invalid", then the role and the token as written |
| BackendAuth.HandleLogin | backend/server/handlers/auth.py:16-36 | a missing e-mail or password is 400 without consulting the service; success is 200 with the message and the token; failure is 401 with the service's message |
| BackendAuth.HandleLogout | backend/server/handlers/auth.py:39-41 | a stub that returns nothing |
| BackendAuth.HandleForgotPassword | backend/server/handlers/auth.py:44-46 | a stub that returns nothing |
| BackendAuth.HandleResetPassword | backend/server/handlers/auth.py:49-51 | a stub that returns nothing |
| StripeHandlers.CatalogueReplies | backend/server/handlers/stripe.py:21-43 | a successful fetch is 200 with the items under "products" or "services"; a failure is classified, an exception in the service giving 500 "Unexpected error occurred" |
| StripeHandlers.SessionAccess | backend/server/handlers/stripe.py:46-64 | a session reply is 200 exactly when the lookup succeeds and the user is an administrator or the session's customer, and then carries the session |
| StripeHandlers.ForeignSessionIs500 | backend/server/handlers/stripe.py:59-61 | someone else's session is refused with 500 (the classifier ignores the 404 passed in); a missing session is 500 too |
| StripeHandlers.HandleGetProducts | backend/server/handlers/stripe.py:32-36 | a failed fetch is classified; otherwise 200 with the products list |
| StripeHandlers.HandleGetServices | backend/server/handlers/stripe.py:39-43 | a failed fetch is classified; otherwise 200 with the services list |
| StripeHandlers.HandleGetSessionById | backend/server/handlers/stripe.py:46-63 | a failed lookup is classified; an admin always sees the session with 200; anyone else sees it only when its customer e-mail is theirs, and otherwise gets "Unauthorised to access this session" classified as 500 |
| Catalog.FetchCatalog | backend/server/services/stripe.py:6-39 | the two loops of `get_products`/`get_services` compute exactly the catalogue result: flag, message and kept items |
| Catalog.PriceAll | backend/server/services/stripe.py:10-11 | the first loop gives every item its fetched `display_price`, or fails as a whole when one lookup raises |
| Catalog.FilterKind | backend/server/services/stripe.py:14-17 | the second loop keeps the items of the wanted type that are active, in order, or fails when a test raises |
| Catalog.PricedAborts | backend/server/services/stripe.py:10-11 | once a prefix fails to price, the whole list does |
| Catalog.FilteredAborts | backend/server/services/stripe.py:15-17 | once a prefix fails its test, the whole filter does |
| Catalog.FilteredExactly | backend/server/services/stripe.py:14-18 | the kept items are exactly the passing items of the input, in their input order and with their multiplicity (the selection of the input by the test's flags); every test succeeded |
| Catalog.PricedExactly | backend/server/services/stripe.py:10-11 | pricing keeps the length and sets only `display_price` of each item, to the price fetched for it |
| Catalog.KindsDisjoint | backend/server/services/stripe.py:16-34 | no item is both a one-time product and a recurring service |
| Catalog.ProductsAndServices | backend/server/services/stripe.py:6-39 | from one fetch, products and services pass the fetch's flag and message through and share no item |
| Catalog.ExceptionsGiveNothing | backend/server/services/stripe.py:19-39 | an exception in the fetch or a price lookup gives failure, "Unexpected error occurred" and no items |
| Catalog.SessionLookup | backend/server/services/stripe.py:42-52 | a session is found exactly when the lookup returns a non-empty one, and then it is returned; an empty one is "Session not found" |
| Catalog.GetItems | backend/server/services/stripe.py:6-39 | the fetched items priced one by one, then kept when their price type is the kind asked for and they are active, in order; the fetch, a price lookup or a test that raises gives failure, "Unexpected error occurred" and no items |
| Catalog.GetSessionById | backend/server/services/stripe.py:42-52 | a non-empty session is success with it; an empty one is "Session not found"; a raising lookup is failure with the unexpected-error message |
| Catalog.Priced | backend/server/services/stripe.py:10-11 | every item with `display_price` set to its fetched price, in order; nothing when a lookup raises |
| Catalog.Filtered | backend/server/services/stripe.py:14-17 | the items of the kind asked for that are active, in order; nothing when a test raises |
| ResponseEnvelope.Response.constructor | server/middleware/response_manipulator.py:14 | a response starts with its code and body, no status text, message, metadata or headers |
| ResponseEnvelope.MeasureResponseTime | server/middleware/response_manipulator.py:19-22 | the time is "Unavailable" exactly when no start time was recorded |
| ResponseEnvelope.ResponseManipulator | server/middleware/response_manipulator.py:14-88 | a Flask response is changed in place: status and message resolved, code and body kept, metadata and the two headers set; any other value gives a fresh 500 response whose JSON body carries status, message and metadata, with only the status code and the two headers set on the response itself |
| ResponseEnvelope.ResolutionRules | server/middleware/response_manipulator.py:47-54 | a present status or message is kept; an absent one comes from the status table, or the fixed fallback for a code the table lacks |
| ResponseEnvelope.TeapotResolved | server/middleware/response_manipulator.py:47-54 | a 418 response without status text reads "client error" / "I'm a teapot" |
| ResponseEnvelope.ErrorEnvelopeContents | server/middleware/response_manipulator.py:69-80 | the fallback envelope reads "server error" / "Internal Server Error" and carries the metadata |
| ResponseEnvelope.ResolveStatus | server/middleware/response_manipulator.py:47-49 | the present status is kept; otherwise the table's status for the code, or "Couldn't obtain status" |
| ResponseEnvelope.ResolveMessage | server/middleware/response_manipulator.py:52-54 | the present message is kept; otherwise the table's message for the code, or "Couldn't obtain message" |
| ResponseEnvelope.ErrorBody | server/middleware/response_manipulator.py:69-80 | the status and message the table gives 500 (with "An unexpected error occurred" as the message fallback) and the metadata with the timestamp and the response time |
| Manage.StripLeadingBrackets | manage.py:228 | `lstrip("[]")` leaves a suffix whose first character is no bracket, having removed only brackets |
| Manage.StripTrailingBrackets | manage.py:228 | `rstrip("[]")` leaves a prefix whose last character is no bracket, having removed only brackets |
| Manage.Database.constructor | manage.py:60-236 | the database starts with no users, next key 1 and no roles |
| Manage.Database.Setup | manage.py:60-85 | `setup_general` in place: the roles gain those inserted, the users become what the set-up rule gives, the table stays valid |
| Manage.Database.Register | manage.py:156-171 | `register_user` in place: users, key counter and raised flag as the registration rule gives, table valid |
| Manage.Database.Delete | manage.py:178-186 | `delete_user` in place: users as the deletion rule gives, table valid |
| Manage.Database.Update | manage.py:198-236 | `update_user` in place: users and raised flag as the update rule gives, including the refused commit of an e-mail another user holds; the table stays valid |
| Manage.AddKeepsTableValid | manage.py:66-84 | adding a user unless the email is held keeps the table valid, keeps every row, and leaves the email held |
| Manage.SetupKeepsTableValid | manage.py:60-85 | the set-up keeps the table valid |
| Manage.AddPresentIsNoOp | manage.py:66-77 | adding for an email already held changes nothing |
| Manage.SetupIdempotent | manage.py:60-85 | running the set-up a second time changes nothing: the administrator and the fake user are each added at most once |
| Manage.NoOps | manage.py:160-203 | registering a held email, or deleting or updating an email nobody holds, changes nothing |
| Manage.RegisterKeepsTableValid | manage.py:159-171 | registration keeps the table valid; it raises exactly when the email ends up unheld, and then changes nothing |
| Manage.DeleteRemovesHolder | manage.py:180-186 | deletion keeps the table valid and removes exactly the user holding the email |
| Manage.UpdateChangesOneAttribute | manage.py:200-236 | an 'n' to the password prompt changes nothing; any change is to the one attribute of the one user holding the email, set to the coerced value; a valid table stays valid with the same next key; changing the e-mail to one another user holds raises with nothing written |
| Manage.BoolCoercion | manage.py:213-220 | for a boolean attribute, text containing 'false' (any case) gives False, else text containing 'true' gives True, else the update is abandoned |
| Manage.TrueFalseIsFalse | manage.py:214-215 | "truefalse" gives False |
| Manage.ListCoercion | manage.py:227-228 | for a list attribute the items are the comma-separated pieces, none holding a space or comma |
| Manage.ListExample | manage.py:228 | "[a, b]" gives the items "a" and "b" |
| Manage.SplitPiecesFrom | manage.py:228 | no piece of a split holds a character the whole text lacks |
| Manage.SetupGeneral | manage.py:60-92 | the admin account is added when the Administrator role exists and the fake account when the User role exists, each only if no user holds its e-mail |
| Manage.RegisterUser | manage.py:156-171 | an e-mail already held leaves the table as it was; a role id that is not an integer raises; otherwise the confirmed user goes in under the next key |
| Manage.DeleteUser | manage.py:178-186 | the user holding the e-mail is removed; with no such user nothing changes |
| Manage.Coerce | manage.py:212-232 | the text becomes a boolean ("false" anywhere, then "true" anywhere, case-insensitively), an integer or a float by the parsers, the comma pieces of the text with its outer brackets and all spaces removed, a dict by the JSON parser, or stays text; a failed coercion gives nothing |
| Manage.UpdateUser | manage.py:198-236 | no user with the e-mail, an 'n' to the password prompt and a failed coercion change nothing; an attribute the user does not have raises; a new value that makes the user's e-mail one another user holds raises at the commit with nothing written; otherwise the one attribute is set |
| Manage.UpdateKeepsTableValid | manage.py:234-236 | an update commits only when no other user holds the row's e-mail, so a valid table stays valid and the next key is kept |
| Manage.DuplicateEmailRefused | manage.py:234-236 | setting a user's e-mail to one another user holds raises at the commit, with the table as it was |
| FrontendConfig.Environment.constructor | frontend/config.py:11-22 | the environment starts as the process environment given |
| FrontendConfig.Environment.ImportFile | frontend/config.py:12-22 | with `config.env` present the environment and the raised flag are those of importing its lines in order; without it, unchanged and nothing raised |
| FrontendConfig.Environment.ImportLines | frontend/config.py:15-18 | the loop over the lines leaves exactly the environment of importing them in order, and returns raised exactly when `os.environ[...] = ...` refused a line (an empty key, or NUL in key or value), with the lines before it applied |
| FrontendConfig.AssignmentShape | frontend/config.py:16-18 | a line sets a variable exactly when its stripped text holds one '='; the key is the text before it and the value the text after it without quotes |
| FrontendConfig.RemoveAllConcat | frontend/config.py:18 | removing quotes from a concatenation removes them from each part |
| FrontendConfig.NonAssignmentsIgnored | frontend/config.py:17 | a line without exactly one '=' changes nothing |
| FrontendConfig.SpacesAroundEqualsKept | frontend/config.py:16-18 | only the line's ends are stripped, so "A = b" sets "A " to " b" |
| FrontendConfig.UnassignedKeyKept | frontend/config.py:15-18 | a key no line assigns keeps its value or its absence, whether or not the import raised |
| FrontendConfig.ImportRaisesExactly | frontend/config.py:15-18 | the import raises exactly when some line's assignment is one `os.environ` refuses, and then it stops at such a line with only the earlier lines applied |
| FrontendConfig.EmptyKeyRaises | frontend/config.py:16-18 | the line "=v" passes `len(var) == 2` but names the empty variable, so the import raises and sets nothing |
| FrontendConfig.LastAssignmentWins | frontend/config.py:15-18 | when the import does not raise, a key's value is the one from the last line that assigns it |
| FrontendConfig.SecretKeyFallback | frontend/config.py:27-30 | the secret key falls back to the marker exactly when the variable is unset or empty; an unoverridden `config.env` assignment is what is read once the import has gone through |
| FrontendConfig.DefaultIsDevelopment | frontend/config.py:55-115 | `default` names the development class, with debugging on, `DEBUG` logging and its own database file by default; only the five names are configurations |
| FrontendConfig.Defaults | frontend/config.py:25-48 | every class defaults the application name and administrator email, reads the same secret key, and only production refuses to start without one (also lines 96-106) |
| FrontendConfig.Imported | frontend/config.py:15-18 | each line, stripped, that splits at `=` into exactly two pieces sets the first piece to the second with every `"` removed, in file order; other lines are skipped; an empty key or a NUL in key or value raises and ends the import there |
| FrontendConfig.Base | frontend/config.py:25-48 | the base class's attributes read from the environment with their defaults; the secret key is the set, non-empty variable or the not-set marker |
| FrontendConfig.ConfigFor | frontend/config.py:55-101 | each subclass sets its environment name and flags, the development logging default, and its own database URL variable with a SQLite file under the project root as fallback |
| FrontendConfig.Named | frontend/config.py:109-115 | "development" and "default" are the development class; "testing", "production" and "unittesting" their own; any other name has none |
| CleanTreeLinux.MarkerFrom | scripts/clean_tree_linux.py:46-49 | the position found is the first `├──`/`└──` marker at or after the start; none found means no marker there |
| CleanTreeLinux.Step | scripts/clean_tree_linux.py:39-100 | one pass of the loop body keeps the loop's variables consistent: lines are ignored only once a level has been set |
| CleanTreeLinux.Run | scripts/clean_tree_linux.py:34-100 | the loop decides one write flag per line and keeps its variables consistent |
| CleanTreeLinux.ProcessTree | scripts/clean_tree_linux.py:23-100 | the loop writes exactly the lines the cleaning rule keeps |
| CleanTreeLinux.Iterate | scripts/clean_tree_linux.py:34-100 | one pass of the loop continues the run over the lines before: its variables and the lines written so far are those of the rule on one more line |
| CleanTreeLinux.JudgeLine | scripts/clean_tree_linux.py:39-95 | the body for one line computes the new variables and the write decision of the rule |
| CleanTreeLinux.CleanedIsSubsequence | scripts/clean_tree_linux.py:95-97 | the output is the input with lines left out, each unchanged and in order |
| CleanTreeLinux.MarkerAndLevel | scripts/clean_tree_linux.py:46-54 | a line without a marker is never written and keeps the previous level; a line with one sets the level to the marker's position divided by four |
| CleanTreeLinux.IgnoringRule | scripts/clean_tree_linux.py:59-64 | while ignoring, a deeper line is dropped and the ignoring goes on; a line not deeper ends it and is judged afresh |
| CleanTreeLinux.MatchStartsIgnoring | scripts/clean_tree_linux.py:73-91 | a listed name or one holding a fragment is dropped and starts ignoring at its level; a keep-without-children name is written and starts ignoring; any other is written |
| CleanTreeLinux.DeeperLinesDropped | scripts/clean_tree_linux.py:59-61 | a run of lines all deeper than the ignored entry is dropped and the ignoring continues at the same level |
| CleanTreeLinux.RunSplits | scripts/clean_tree_linux.py:34 | the loop over two blocks is the loop over the first, then the second from where it stopped |
| CleanTreeLinux.MatchedEntryDropsDescendants | scripts/clean_tree_linux.py:73-97 | a matched entry is dropped with every deeper line after it; a keep-without-children folder is written, its deeper lines not |
| CleanTreeLinux.NameIsLastToken | scripts/clean_tree_linux.py:69 | the name is the stripped line's text after its last space and holds no space |
| CleanTreeLinux.JoinEndsWithLast | scripts/clean_tree_linux.py:69 | a join ends with its last part, after a separator when there are several |
| CleanTreeLinux.Cleaned | scripts/clean_tree_linux.py:23-100 | the lines written are the input lines whose flag the loop's run sets, in their input order |
| CleanTreeWindows.NameCharFrom | scripts/clean_tree_windows.py:22-24 | the position found is the first word character, '.', '-' or '_' at or after the start; none means there is none |
| CleanTreeWindows.WithoutNul | scripts/clean_tree_windows.py:10 | the line with NULs removed holds no NUL |
| CleanTreeWindows.Run | scripts/clean_tree_windows.py:8-52 | the loop decides one write flag per line |
| CleanTreeWindows.AllWithoutNul | scripts/clean_tree_windows.py:10 | every line, NULs removed, in order |
| CleanTreeWindows.ProcessTree | scripts/clean_tree_windows.py:4-53 | the loop writes exactly the lines the cleaning rule keeps, then the trailer |
| CleanTreeWindows.JudgeLine | scripts/clean_tree_windows.py:9-50 | the body for one line computes the new variables and the write decision of the rule |
| CleanTreeWindows.CleanedShape | scripts/clean_tree_windows.py:8-53 | the output is some input lines, NULs removed, in order, followed by exactly `+---venv`; nothing written holds a NUL |
| CleanTreeWindows.NotAnEntry | scripts/clean_tree_windows.py:16-27 | a line with neither `---` nor `\|`, or with no name character, is dropped and changes nothing |
| CleanTreeWindows.IgnoringRule | scripts/clean_tree_windows.py:22-35 | while ignoring, a deeper entry is dropped; an entry not deeper ends the ignoring and is judged afresh |
| CleanTreeWindows.MatchRule | scripts/clean_tree_windows.py:39-50 | an entry whose name holds a listed word is dropped and, when a folder, starts ignoring at its level; any other is written and ends the ignoring |
| CleanTreeWindows.DeeperLinesDropped | scripts/clean_tree_windows.py:32-33 | a run of entries all deeper than the ignored folder is dropped and the state stays |
| CleanTreeWindows.RunSplits | scripts/clean_tree_windows.py:8 | the loop over two blocks is the loop over the first, then the second from where it stopped |
| CleanTreeWindows.MatchedFolderDropsDescendants | scripts/clean_tree_windows.py:32-47 | a matched folder is dropped together with every deeper line after it |
| CleanTreeWindows.Step | scripts/clean_tree_windows.py:9-50 | a line that is neither a folder (`---`) nor holds `|`, or has no name character, is dropped; a line deeper than the ignored folder is dropped; otherwise ignoring stops, and a name holding a word is dropped (a folder starts ignoring at its level) while any other line is written |
| CleanTreeWindows.Cleaned | scripts/clean_tree_windows.py:4-53 | the NUL-free lines whose flag the loop's run sets, in order, followed by the fixed trailer `+---venv` |
| Sorting.Insert | frontend/src/components/Tables/DatabaseDynamicTable.tsx:28 | inserting adds exactly the one element |
| Sorting.Sort | frontend/src/components/Tables/DatabaseDynamicTable.tsx:28 | the sorted copy holds the same elements as the input |
| Sorting.InsertSorted | frontend/src/components/Tables/DatabaseDynamicTable.tsx:28 | inserting into a sorted sequence keeps it sorted under a consistent comparator |
| Sorting.SortSorted | frontend/src/components/Tables/DatabaseDynamicTable.tsx:28 | a consistent comparator sorts the copy |
| Sorting.SortIsPermutation | frontend/src/components/Tables/DatabaseDynamicTable.tsx:28 | `[...data].sort(cmp)` is a permutation of the data whatever the comparator, and sorted under it when the comparator is consistent |
| TableCells.CellOrder | frontend/src/components/Tables/DatabaseDynamicTable.tsx:38-39 | JavaScript's `<` on cells is never true both ways, is total between two values of one kind, and is transitive |
| DynamicTable.Column | frontend/src/components/Tables/DatabaseDynamicTable.tsx:29-32 | the column holds each row's string at the key, in row order |
| DynamicTable.SortedDataShape | frontend/src/components/Tables/DatabaseDynamicTable.tsx:25-42 | the rows shown are a permutation of the data, the data itself without a key, and a `null` direction sorts as descending |
| DynamicTable.NumbersSorted | frontend/src/components/Tables/DatabaseDynamicTable.tsx:38-40 | a column of numbers comes out non-decreasing when ascending and non-increasing otherwise |
| DynamicTable.StringComparatorConsistent | frontend/src/components/Tables/DatabaseDynamicTable.tsx:32-36 | on a column of strings a consistent `localeCompare` makes the comparator consistent in either direction |
| DynamicTable.StringsSorted | frontend/src/components/Tables/DatabaseDynamicTable.tsx:32-36 | a column of strings comes out in `localeCompare` order, reversed unless ascending |
| DynamicTable.SortedData | frontend/src/components/Tables/DatabaseDynamicTable.tsx:25-42 | without a key the data itself; otherwise the copy sorted by that field, strings by `localeCompare` and other values by `<`, reversed when descending |
| DynamicTable.Compare | frontend/src/components/Tables/DatabaseDynamicTable.tsx:28-40 | two strings compare by `localeCompare`, other values by `<` and `>`, the sign flipped when descending |
| UsersTable.HandleSortToggles | frontend/src/components/Tables/DatabaseUsersTable.tsx:8-36 | after a click the key is the one clicked; the direction turns descending exactly when that column was ascending, so two clicks return to ascending and the key never returns to `null` |
| UsersTable.HandleSort | frontend/src/components/Tables/DatabaseUsersTable.tsx:31-36 | the key becomes the clicked one; the direction turns descending when that key was ascending, and ascending otherwise |
| UsersTableOld.RequestSortCycle | frontend/src/components/Tables/DatabaseUsersTableOld.tsx:20-68 | a new column sorts ascending, ascending turns descending, descending returns to unsorted, so three clicks give back the initial state |
| UsersTableOld.ComparatorConsistent | frontend/src/components/Tables/DatabaseUsersTableOld.tsx:76-97 | the lower-casing comparator is consistent on a column of one kind |
| UsersTableOld.SortedUsersOrder | frontend/src/components/Tables/DatabaseUsersTableOld.tsx:72-100 | the rows shown are a permutation of the users, unsorted without a key, absent (a throw) with a key and no users, and in lower-cased order on a column of one kind |
| UsersTableOld.RequestSort | frontend/src/components/Tables/DatabaseUsersTableOld.tsx:57-68 | a click on the descending key resets to no key, ascending; a click on the ascending key turns it descending; any other click sorts that key ascending |
| UsersTableOld.SortedUsers | frontend/src/components/Tables/DatabaseUsersTableOld.tsx:72-100 | without a key the users as they are; with a key and no users the page throws on `users[0]`; when the first user has the key, the copy sorted by the lower-cased values in the chosen direction; otherwise the users as they are |
| UsersTableOld.Compare | frontend/src/components/Tables/DatabaseUsersTableOld.tsx:76-96 | the lower-cased values compare by `<` and `>`, the sign flipped when descending, 0 when neither is less |
| Pricing.DigitsHaveNoDot | frontend/src/utils/stripe.tsx:12 | a run of digits holds no '.' and does not start with '-' |
| Pricing.ReadDecimal | frontend/src/utils/stripe.tsx:12 | `$` followed by the rendering of any whole number of cents reads back as that number, negative ones included |
| Pricing.FormatPriceReadsBack | frontend/src/utils/stripe.tsx:10-15 | a label is "Price not available" exactly when the price or its amount is absent or zero; otherwise it reads back as the amount, so no two amounts share a label |
| Pricing.PriceLabelShows | frontend/src/components/Cards/ItemCard.tsx:11-28 | a card shows its display price when it has one and its default price otherwise, and the label reads back as that price's amount |
| Pricing.ButtonBuysShownPrice | frontend/src/components/Cards/ItemCard.tsx:28-32 | the button passes the shown price's id and the item's id, and works exactly when there is a display price |
| Pricing.FormatPrice | frontend/src/utils/stripe.tsx:10-15 | a price with a non-zero amount is `$`, then the amount in dollars with two digits of cents; anything else is "Price not available" |
| Pricing.ButtonArgs | frontend/src/components/Cards/ItemCard.tsx:30-33 | a click passes the display price's id and the item's id; without a display price the click throws |
| Pricing.PriceLabel | frontend/src/components/Cards/ItemCard.tsx:28 | the display price formatted when there is one, else the default price formatted |
| StorePages.ProductsFetch | frontend/src/pages/products.tsx:10-26 | a non-200 response or one without data leaves the products as they were; otherwise they become the fetched list |
| StorePages.ByAmountConsistent | frontend/src/pages/services.tsx:19-23 | on priced services the difference of amounts is a consistent comparison |
| StorePages.ServicesFetch | frontend/src/pages/services.tsx:10-31 | the services change only on a 200 with data and then to a permutation of those fetched; when all have amounts they are in ascending order of amount |
| StorePages.FetchedProducts | frontend/src/pages/products.tsx:10-26 | a 200 response with data replaces the products with those returned; anything else leaves them as they were |
| StorePages.FetchedServices | frontend/src/pages/services.tsx:10-31 | a 200 response with data replaces the services with the returned ones sorted by shown amount, unless the comparator throws on an item with neither price; anything else leaves them as they were |
| StorePages.ByAmount | frontend/src/pages/services.tsx:19-23 | the difference of the two shown amounts, and 0 (from `NaN`) when either is missing |
| Checkout.SuccessUrlCarriesItem | frontend/src/utils/stripe.tsx:64 | the item id is the success URL's last parameter, whatever the base URL and path |
| Checkout.CancelUrlByMode | frontend/src/utils/stripe.tsx:65 | the cancel URL lies under the base URL and differs between payment and subscription |
| Checkout.ItemActionOutcomes | frontend/src/utils/stripe.tsx:36-78 | a signed-out user always goes to the login page and never to checkout; checkout happens exactly with the user record and Stripe loaded, for one unit of the price, in the mode, billed to the fetched email |
| Checkout.ItemAction | frontend/src/utils/stripe.tsx:36-78 | an unauthenticated user is sent to the log-in page; a failed user fetch or Stripe not loaded stops; otherwise a redirect to checkout with one unit of the price, the mode, the success and cancel URLs and the user's e-mail |
| Checkout.SuccessUrl | frontend/src/utils/stripe.tsx:64 | the site URL, the success path, the session placeholder and the item id as the last query parameter |
| Checkout.CancelUrl | frontend/src/utils/stripe.tsx:65 | the products page for a payment, the services page for a subscription |
| AuthContext.AuthProvider.constructor | frontend/src/contexts/AuthContext.tsx:20 | the provider starts with the stored record, or signed out |
| AuthContext.AuthProvider.Login | frontend/src/contexts/AuthContext.tsx:22-32 | after `login(token, role)` the record is exactly that, authenticated exactly when the token is non-empty |
| AuthContext.AuthProvider.Logout | frontend/src/contexts/AuthContext.tsx:26-32 | after `logout` the record is signed out and not authenticated |
| AuthContext.UseAuthOutcomes | frontend/src/contexts/AuthContext.tsx:41-59 | `useAuth` throws exactly in a browser without a provider; `isAuthenticated` agrees with the record; on the server it is always signed out |
| AuthContext.UseAuth | frontend/src/contexts/AuthContext.tsx:41-60 | on the server the signed-out default; in the browser outside a provider an error; otherwise the provider's value |
| CheckRole.RoleClassification | frontend/src/hooks/useCheckRole.tsx:10-21 | the check completes; a role is granted exactly when the token is non-empty and a role is set, and it is that role |
| CheckRole.RoleAfterLogin | frontend/src/hooks/useCheckRole.tsx:7-19 | after login with a non-empty token the role is the one given; after logout and on the server there is none |
| CheckRole.CheckUserRole | frontend/src/hooks/useCheckRole.tsx:11-21 | a signed-in record with the Administrator or the User role gives that role; any other record gives none; loading is cleared when `checkUserRole` completes |
| LoginOld.ToBase64All | frontend/src/pages/loginold.tsx:23 | the full translation replaces every `-` and `_` and nothing else |
| LoginOld.ToBase64Url | frontend/src/pages/loginold.tsx:23 | the reverse translation replaces every `+` and `/` and nothing else |
| LoginOld.ParseJwtSegments | frontend/src/pages/loginold.tsx:20-25 | an empty token gives `undefined`, a token without `.` throws, a three-part token is decoded from its middle part |
| LoginOld.ToBase64FirstOnly | frontend/src/pages/loginold.tsx:23 | only the first `-` and first `_` are translated; every other character is kept |
| LoginOld.SecondDashKept | frontend/src/pages/loginold.tsx:23 | "ab-c-d" becomes "ab+c-d": the second `-` reaches `atob` |
| LoginOld.IntendedTranslationIsBase64 | frontend/src/pages/loginold.tsx:23 | the full translation leaves no `-` or `_`, and translating back restores any URL-safe segment |
| LoginOld.SubmitOutcomes | frontend/src/pages/loginold.tsx:27-65 | an ok reply stores its token; a role is stored exactly when the app moves on to `/`, which is exactly when no alert is shown; a failed reply shows "Login failed: " and its message |
| LoginOld.ParseJwt | frontend/src/pages/loginold.tsx:20-25 | an empty token gives `undefined`; a token without a `.` throws; otherwise the second segment, with its first `-` and first `_` translated, is decoded, and a failed decode throws |
| LoginOld.ParseJwtIntended | frontend/src/pages/loginold.tsx:20-25 | as `parseJwt`, with every `-` and every `_` of the segment translated |
| LoginOld.HandleSubmit | frontend/src/pages/loginold.tsx:27-65 | a failed fetch shows the error alert; a response that is not ok shows "Login failed: " and the message; an ok one stores the token, then stores the role and goes home when the token decodes to a non-null payload, and otherwise shows the error alert with the token left stored |
| Text.Split | frontend/config.py:16 | splitting gives one more piece than separators, none holding the separator |
| Text.JoinSplit | frontend/config.py:16 | joining the pieces of a split with the separator gives back the text |
| Text.SplitJoin | frontend/config.py:16 | splitting a join of separator-free pieces gives back the pieces |
| BackendUsers.ListUsersResults | backend/server/services/user.py:49-62 | listing gives every stored user with "Success"; a failing query gives "Unexpected error occurred" and no users |
| BackendUsers.CreateUser | backend/server/services/user.py:9-46 | a new row from the names, the e-mail and the hashed password goes in under the next key on success; an unexpected error, an e-mail already held (the duplicate message) or another integrity error gives failure with its message and the table unchanged |
| BackendUsers.UpdateUser | backend/server/services/user.py:83-117 | the request's fields are set on the user in order; an unexpected error, an e-mail another user holds or another integrity error gives failure and the table unchanged, otherwise success writes the updated row and returns it |
| BackendUsers.UpdateUserById | backend/server/services/user.py:119-157 | an unknown id is "User does not exist" with the table unchanged; a known one is updated as `update_user` does |
| BackendUsers.DeleteUser | backend/server/services/user.py:160-180 | success removes exactly that user; any error gives failure with the table unchanged |
| BackendUsers.DeleteUserById | backend/server/services/user.py:183-207 | an unknown id is "User does not exist" with the table unchanged; a known one is deleted as `delete_user` does |
| BackendUsers.GetUserById | backend/server/services/user.py:64-80 | a failed query gives failure and no user; otherwise success with the row of that id, or with no user when the id is unknown |
| BackendUsers.GetUsers | backend/server/services/user.py:49-62 | every user on success, none when the query fails |
| BackendUsers.Assigned | backend/server/services/user.py:97-98 | the request's fields set on the row one after another, so a later value for a key wins |

## Left out

- Input and output are not modelled: log lines, `print`, the file reads and writes of the tree cleaners and of frontend/config.py, the console prompt of manage.py (an `answer` parameter), and the network calls of the front end and of the Stripe integration.
- Cryptography: JWT signing and verification and password hashing are parameters; a decoded token arrives as an outcome (claims, expired, invalid, other error).
- Clocks are an integer parameter `now`, read once per call. The source reads `time()` or `datetime.utcnow()` up to three times in one call.
- Floating point: prices are whole cents. `(n / 100).toFixed(2)` is rendered exactly; its exponent form above 1e21 is not modelled.
- Floating point: the response time is whole milliseconds, not a formatted float. `float()`, `int()` and `json.loads` in manage.py are parameters.
- A `null` `unit_amount` is not modelled; only a missing one is. `null` coerces to 0 in the services page's subtraction.
- UTF-8 decoding of the logged body is left out; the logged bytes are modelled.
- `handle_status_code` is not part of this model: a handler's result is the pair of code and data.
- SQLAlchemy is an in-memory map with a unique e-mail, where a commit applies a change and a rollback leaves the table as it was. Query text, sessions and flushing are not modelled.
- The raw SQL filter `get_users(search_column, search_value)` of server/services/user.py is left out: its result depends on SQL text evaluation. The older guard sees it only through the ids it returns.
- ServerUsers.UpdateUser: `User(**user_dict)` followed by `session.merge` is modelled as writing the request's fields over the user found by e-mail. The instance has no primary key, so the merge would insert a new row; that insert is not modelled.
- ResponseEnvelope.ResponseManipulator: the status text comes from the table only when the response has none. A werkzeug response always has a `status` attribute (its status line), so in the source the `hasattr` test always keeps it; the model lets the attribute be absent so that both branches are reachable.
- Manage.RegisterUser: `register_user` declares `arb_email_alerts` and `posEV_email_alerts`, which have no command-line option, so the command as written cannot be called. The model takes the function as called with them supplied; they are not stored.
- server/models is not part of this model. A user is the row of attributes its constructor is given; `Role.insert_roles()` is the set of role names it leaves.
- server/handlers/global_functions.py is not part of this model. The older register handler uses the newer server's classifier, `Outcomes.Classify`.
- Marshmallow: schemas reject unknown keys, the default. Type and length errors carry abstract messages, and `schema.load` returns the validated data unchanged, with no date or float conversion.
- `abort(429, "Too many requests.")` is modelled as the reply 429 with that text under `error_info`; the abort page's formatting is not modelled.
- JavaScript's `sort` is a stable insertion sort that compares every element when there are two or more. The in-place sort of the fetched services array is modelled on values; aliasing of the table's rows is not modelled.
- A string compared with a number in a table is neither less nor greater; numeric strings are not coerced. Table numbers are whole numbers.
- Lower-casing is ASCII only.
- RateLimit.AppGlobals: the map `g.rate_limit` is modelled as persisting across requests, because the class is one object shared by all calls. In Flask `g` belongs to the application context, which is created afresh for each request, so as deployed every request starts without the map. The as-written lemmas hold either way (every call is allowed). RateLimit.IntendedKeepsLimit, IntendedBurst and IntendedLimitsBurst hold only for storage that outlives the request.
- FrontendConfig.Settable: the refused assignments are those CPython's `putenv` refuses on POSIX and on Windows alike, an empty key or a NUL in key or value; platform-specific limits, such as the length bound on Windows, are not modelled.
- TableCells.Less: two strings are ordered by `Text.LexLess`, code point by code point. JavaScript's `<` compares UTF-16 code units, and the two orders differ when a character above U+FFFF meets one in U+E000-U+FFFF: the first is encoded with a surrogate in U+D800-U+DFFF, so JavaScript puts it first.
- Text.Strip, Text.LastWord: whitespace is the ASCII set (space, tab to carriage return, and 0x1C-0x1F). Python's `str.strip()` and `str.split()` also remove Unicode spaces such as U+00A0 and U+2003, which the model keeps as ordinary characters.
- `os.path.join` is `root + "/" + name`. The search for the project root (frontend/config.py, scripts/clean_tree_linux.py) is left out.
- The Linux cleaner's unused `is_folder` is left out.
- The stored sign-in record is a parameter of the `AuthProvider` constructor: useLocalStorage is not part of this model, and local storage's conversion of the role to text is not modelled.
- Checkout.ItemAction: `useAuth()` (frontend/src/utils/stripe.tsx:38) and `useFetchData()` (line 49) are React hooks called inside an async function after `await stripePromise`, outside any component render, where React refuses a hook call by throwing. The model assumes both calls return normally, so its outcomes are those the function would have if the hooks' results were passed in.
- ItemActionOutcomes: states the outcomes under the same assumption that the two hook calls return normally; the rejected promise React's hook check causes is not modelled.
- `handleItemAction`: the user fetch is the `userEmail` parameter, Stripe's redirect error is left out, and the argument of `isAuthenticated('User')` is ignored, as the function ignores it.
- `handleFetchItems` in frontend/src/utils/stripe.tsx is left out: a network fetch with the same rule for the list as the products page.
- An ok log-in response on the older log-in page is taken to carry `data.user_token` as a string.
- Framework wiring, logger set-up, UI rendering and timer-driven UI state are left out, as are manage.py's `format`, `test`, `recreate_db` and `drop_table` (subprocesses and the filesystem).

## Findings

| source | as written | input that shows it | evidently intended | confidence | as-written member | corrected member |
|---|---|---|---|---|---|---|
| server/middlewares/rate_limit.py:25 | `key not in g` tests the attributes of `g`, not the `g.rate_limit` map, so every call re-seeds the window with one request | any number of requests from one address to one endpoint within the window: none is refused | `key not in g.rate_limit`, so that a burst over the limit is refused with 429; since Flask makes a new `g` for every request, this also needs the map kept in storage that outlives the request (the corrected member assumes such storage) | high; not executed | RateLimit.AsWrittenNeverLimits | RateLimit.IntendedLimitsBurst |
| backend/server/handlers/user.py:95-96 | `success, message, data = delete_user(user)` unpacks three values from the pair `delete_user` returns | any delete request that reaches the handler raises `ValueError` | unpack two values and reply with the classified outcome | high; not executed | BackendUserHandlers.DeleteUserAlwaysThrows | BackendUserHandlers.IntendedDeleteReplies |
| server/api/user.py:176-179,228-231 | `token_required` calls the route with the user id, but `delete()` and `update()` take no argument | any admitted request to `/delete` or `/update` raises `TypeError` | routes that accept the injected id and run their bodies | high; not executed | ServerUserApi.DeleteAndUpdateNeverRun | ServerUserApi.IntendedStackRunsBody |
| backend/server/services/auth.py:30 | `user.password_hash` is read before the `if not user` test, so an unknown e-mail raises, and the `except` turns it into the unexpected-error result instead of "User does not exist" | a log-in with an e-mail no user holds | test for a missing user first and report "User does not exist" | high; not executed | BackendAuth.LoginFailures | BackendAuth.IntendedLoginReportsMissingUser |
| frontend/src/pages/loginold.tsx:23 | `replace('-', '+')` and `replace('_', '/')` with string patterns change only the first occurrence | the payload segment "ab-c-d" becomes "ab+c-d" | translate every '-' and '_' (regular expressions with the global flag) | high; not executed | LoginOld.SecondDashKept | LoginOld.IntendedTranslationIsBase64 |
| server/handler/rate_limit.py:17-18 | the older limiter writes to and reads `g.rate_limit` but never creates it, and nothing else in the server does (server/__init__.py:70-73 sets only `g.start_time`) | any request to `/register` or `/authorize`, or to `/delete` or `/update`, raises `AttributeError` before the route runs, and so does a token-admitted request to `/user-details` | create the map when it is absent, as server/middlewares/rate_limit.py:21-22 does | high; not executed | ServerUserApi.MissingTableCrashes | ServerUserApi.CreatedMapRunsBodies |
