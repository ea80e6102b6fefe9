# xstack task API: a verified Dafny model

This project models the logic at the core of the xstack monorepo:

- **Tenant-scoped task API.** The task entity, its patch and its list query. The repository contract, with its database realisation and the in-memory repository of the use-case tests. The use cases.
- **Error handling.** The error taxonomy and envelopes, the global error handler, and request-id propagation.
- **Bearer-token guard and JWT verifier.** The guard and the Supabase JWT verifier.
- **Runtime configuration.**
- **Client side.**
  - The SDK's error-envelope parser.
  - The web app's error pipeline: message choice, fingerprints and toast de-duplication.
  - The query client's meta normalisation.
  - Language normalisation.
- **The superseded `/api/todos` module.** Its service, its error body and hook, and its authentication.

It then proves properties of that model. Foreign code is passed in as parameters:

- the clock (milliseconds as `int`);
- the id generator (a fresh id);
- `toISOString` (an `int -> string` function);
- `Number()` parsing;
- jose's `decodeProtectedHeader` and `jwtVerify` (functions returning `Option`);
- the translation catalogue (a map from existing keys to their string translations).

Stateful parts are classes whose methods are proved against specification functions or predicates:

- the repositories' row tables (`map<string, Row>` plus the physical row order);
- the framework's response settings;
- the verifier's memoised key-set client;
- the toast de-duplication map.

Shared pieces:

- `Wrappers`: `Option` and `Result`.
- `Text`: ASCII case mapping, JavaScript `trim`, `split` and `join`, decimal strings, code-point order.
- `Json`: the JavaScript values the code inspects (`undefined`, `null`, booleans, numbers, strings, arrays, records, and a fetch `Headers` object).

## Model

| member | source | states |
|---|---|---|
| TaskDomain.WithTaskListDefaults | packages/api/src/modules/tasks/domain/task.ts:47-61 | each supplied field is kept; each missing one independently becomes page 1, pageSize 10, createdAt, desc, all |
| TaskDomain.WithTaskListDefaultsIdempotent | packages/api/src/modules/tasks/domain/task.ts:55-61 | a fully specified query is unchanged, so defaulting twice equals defaulting once; the empty query gives the default query |
| TaskDomain.ToTaskDtoFaithful | packages/api/src/modules/tasks/domain/task.ts:93-99 | the DTO keeps id, title and isDone; with an injective ISO serialisation, equal DTOs come from equal tasks |
| TaskDomain.MapToTaskDto | packages/api/src/modules/tasks/domain/task.ts:101-103 | items are mapped one for one, in order |
| TaskDomain.ToTaskListPageDto | packages/api/src/modules/tasks/domain/task.ts:101-110 | items mapped one for one in order; total, page, pageSize, totalPages, sortBy, sortOrder and status copied unchanged |
| TaskDomain.Rename | packages/api/src/modules/tasks/domain/task.ts:119-125 | the result differs from the task only in title and updatedAt |
| TaskDomain.MarkDone | packages/api/src/modules/tasks/domain/task.ts:127-133 | the result differs only in isDone (now true) and updatedAt |
| TaskDomain.MarkTodo | packages/api/src/modules/tasks/domain/task.ts:135-141 | the result differs only in isDone (now false) and updatedAt |
| TaskDomain.TaskModelTransitions | packages/api/src/modules/tasks/domain/task.ts:119-141 | the last rename or status change wins; renaming and marking touch separate fields; marking a task with its own status at its own update time changes nothing |
| TaskDomain.ApplyPatchEffect | packages/api/src/modules/tasks/domain/task.ts:143-155 | supplied fields are taken and the others kept; id and createdAt never change; the empty patch returns the task unchanged, updatedAt included |
| TaskDomain.ApplyPatchOwnValues | packages/api/src/modules/tasks/domain/task.ts:113-164 | a patch with the task's own values, at its own update time, returns the task unchanged |
| TaskDomain.EmptyPatchAcceptedAsWritten | packages/api/src/modules/tasks/presentation/http/schemas.ts:16-19 | the update schema as written accepts `{}` |
| TaskDomain.ValidPatchIsNotEmpty | packages/api/test/tasks.integration.test.ts:156-179 | a body with at least one valid field passes the schema and is not empty; `updatedAt` becomes the last clock reading, so with readings later than the last update it strictly increases and the task changes |
| TaskListing.Selection | packages/api/src/modules/tasks/infrastructure/prisma-task-repository.ts:37-45 | exactly the caller's rows with the requested status, in the given order; distinct input gives distinct output |
| TaskListing.SortRows | packages/api/test/tasks.use-cases.unit.test.ts:39-51 | a permutation (same length, multiset and ids) sorted by the key in the requested direction |
| TaskListing.Window | packages/api/test/tasks.use-cases.unit.test.ts:53-55 | at most `take` rows, starting at `skip`, in order; empty past the end |
| TaskListing.TotalPages | packages/api/src/modules/tasks/infrastructure/prisma-task-repository.ts:66 | `max(1, ceil(total/pageSize))`: at least one page, and the fewest pages that hold `total` rows |
| TaskListing.PagesCoverListing | packages/api/test/tasks.integration.test.ts:207-214 | every row index of the listing falls on a page numbered at most `totalPages` |
| TaskListing.ListingGuarantees | packages/api/src/modules/tasks/infrastructure/prisma-task-repository.ts:54-77 | a correct page holds only the caller's rows with that status, sorted, at most pageSize of them; total counts every match; the query is echoed |
| TaskListing.ListingTotalIndependent | packages/api/src/modules/tasks/infrastructure/prisma-task-repository.ts:56-64 | two correct listings with the same status and page size report the same total and page count, whatever the sort and page |
| TaskListing.ListingOfEnumeration | packages/api/test/tasks.use-cases.unit.test.ts:30-66 | filtering any enumeration of the table and stably sorting it gives a correct listing |
| TaskListing.ListingOfOrder | packages/api/src/modules/tasks/infrastructure/prisma-task-repository.ts:56-64 | the listing of a table read in any valid stored order is correct |
| TaskListing.InOrder | packages/api/test/tasks.use-cases.unit.test.ts:31 | the rows the iteration order names, one for each key in it, in that order |
| TaskListing.RemoveId | packages/api/test/tasks.use-cases.unit.test.ts:104 | the iteration order without the deleted key; distinct ids stay distinct |
| TaskListing.OrderAfterChange | packages/api/test/tasks.use-cases.unit.test.ts:80-104 | set of a new key, set of an existing key and delete all keep the iteration order valid |
| TaskRepository.TenantIsolation | packages/api/src/modules/tasks/infrastructure/prisma-task-repository.ts:98-119 | no create, update or delete by one user changes, removes or adds another user's rows, and each keeps every row stored under its own id |
| TaskRepository.ListingCountsFollowChanges | packages/api/test/tasks.integration.test.ts:261-287 | a create adds exactly its row to the creator's matches and a delete removes exactly its row; no create, update or delete by one user changes the rows another user's listing covers, for any status filter |
| TaskRepository.BuildWhere | packages/api/src/modules/tasks/infrastructure/prisma-task-repository.ts:37-45 | `done` adds isDone true, `todo` isDone false, `all` no status condition; the owner is always in the filter |
| TaskRepository.WhereIsSelection | packages/api/src/modules/tasks/infrastructure/prisma-task-repository.ts:37-59 | filtering by the built `where` is exactly the owner-and-status selection |
| TaskRepository.PatchData | packages/api/src/modules/tasks/infrastructure/prisma-task-repository.ts:103-106 | the supplied fields and the clock; id and createdAt kept |
| TaskRepository.PatchDataAgreesWithApplyPatch | packages/api/src/modules/tasks/infrastructure/prisma-task-repository.ts:96-106 | for a non-empty patch the database write equals the task model's applyPatch; for an empty one it still moves updatedAt |
| TaskRepository.PrismaTaskRepository.ListByUser | packages/api/src/modules/tasks/infrastructure/prisma-task-repository.ts:27-78 | count and page read under the same `where` give a correct listing |
| TaskRepository.PrismaTaskRepository.Create | packages/api/src/modules/tasks/infrastructure/prisma-task-repository.ts:80-89 | one new row under the fresh id, open, created and updated at the same instant |
| TaskRepository.PrismaTaskRepository.UpdateForUser | packages/api/src/modules/tasks/infrastructure/prisma-task-repository.ts:91-110 | true exactly when the caller owns the row; then only that row changes, to the patch data; otherwise nothing changes |
| TaskRepository.PrismaTaskRepository.DeleteForUser | packages/api/src/modules/tasks/infrastructure/prisma-task-repository.ts:112-121 | true exactly when the caller owns the row, which is then removed; otherwise nothing changes |
| InMemoryTaskRepository.TaskIdsDiffer | packages/api/test/tasks.use-cases.unit.test.ts:69-70 | ids made from different counter values differ, whoever the users are |
| InMemoryTaskRepository.InMemoryRepository.ListByUser | packages/api/test/tasks.use-cases.unit.test.ts:30-67 | the filter, sort and slice of the stored records is a correct listing |
| InMemoryTaskRepository.InMemoryRepository.Create | packages/api/test/tasks.use-cases.unit.test.ts:68-83 | the id takes the counter, which then grows by one; the new id is unused; the task is created strictly after every stored one |
| InMemoryTaskRepository.InMemoryRepository.UpdateForUser | packages/api/test/tasks.use-cases.unit.test.ts:84-97 | a missing or foreign record is refused with nothing changed; otherwise only the supplied fields change and updatedAt grows by 1000 |
| InMemoryTaskRepository.InMemoryRepository.DeleteForUser | packages/api/test/tasks.use-cases.unit.test.ts:98-106 | the record is removed only if the caller owns it, and the answer says whether it was |
| InMemoryTaskRepository.ListRecords | packages/api/test/tasks.use-cases.unit.test.ts:30-67 | the page is the stable-sorted selection's window, and a correct listing |
| InMemoryTaskRepository.FilterStatus | packages/api/test/tasks.use-cases.unit.test.ts:33-37 | `todo` keeps open records, `done` finished ones, `all` every one |
| InMemoryTaskRepository.FilterOwned | packages/api/test/tasks.use-cases.unit.test.ts:31 | keeps exactly the caller's records, in order |
| InMemoryTaskRepository.StableSort | packages/api/test/tasks.use-cases.unit.test.ts:40-51 | the insertion loop computes the stable sort |
| TaskUseCases.ValidateUpdateBodyAsWritten | packages/api/src/modules/tasks/presentation/http/schemas.ts:16-19 | the schema as written: accepted exactly when the given fields are valid, otherwise 400 VALIDATION_ERROR |
| TaskUseCases.ValidateUpdateBody | packages/api/test/tasks.integration.test.ts:156-179 | accepted exactly when at least one field is given and all are valid; never the empty patch |
| TaskUseCases.EmptyBodyValidation | packages/api/test/tasks.integration.test.ts:156-179 | `{}` passes the schema as written and is refused with 400 VALIDATION_ERROR by the corrected check |
| TaskUseCases.TaskUseCases.List | packages/api/src/modules/tasks/application/use-cases/index.ts:14-20 | the repository's page for userId and query, mapped to DTOs; a correct listing |
| TaskUseCases.UndefinedQueryFailure | packages/api/src/modules/tasks/infrastructure/prisma-task-repository.ts:41 | the `TypeError` from reading `query.status` of an undefined query is answered with 500 INTERNAL_ERROR 'Internal server error', no details, the request id in the body |
| TaskUseCases.TaskUseCases.ListWithQuery | packages/api/src/modules/tasks/application/use-cases/index.ts:14-20 | an undefined query fails with that 500; a given one yields the DTO of a correct listing |
| TaskUseCases.TaskUseCases.ListRouteAsWritten | packages/api/src/modules/tasks/presentation/http/routes.ts:24-27 | GET /todos as routed passes no query, so every listing fails with 500 INTERNAL_ERROR |
| TaskUseCases.TaskUseCases.ListRoute | packages/api/test/tasks.integration.test.ts:121-129 | with the query's defaults applied first the listing succeeds, meets the listing contract, counts every match, and an empty query gives page 1 of 10 rows, newest first |
| TaskUseCases.TaskUseCases.Create | packages/api/src/modules/tasks/application/use-cases/index.ts:22-25 | the created task as a DTO; the table gains exactly that row |
| TaskUseCases.TaskUseCases.Update | packages/api/src/modules/tasks/application/use-cases/index.ts:27-43 | ok exactly when the caller owns the task; otherwise TASK_NOT_FOUND 404 'Task not found'; one repository call with the patch unmodified, so on success the row holds the patched fields and `updatedAt` is now |
| TaskUseCases.TaskUseCases.Delete | packages/api/src/modules/tasks/application/use-cases/index.ts:45-56 | ok exactly when the caller owns the task, which is removed; otherwise TASK_NOT_FOUND 404 |
| TaskUseCases.TaskUseCases.Patch | packages/api/test/tasks.integration.test.ts:156-179 | a body without a valid field is refused with 400 and the table is untouched; otherwise the update runs and, on success, `updatedAt` is now |
| HttpErrors.CodeFromName | packages/api/src/core/http/errors.ts:1-13 | a name found in the enumeration is that code's wire name |
| HttpErrors.CodeNameRoundTrip | packages/api/src/core/http/errors.ts:1-13 | each of the nine codes is found again from its wire name |
| HttpErrors.CodeNameInjective | packages/api/src/core/http/errors.ts:1-13 | no two codes share a wire name |
| HttpErrors.AsErrorLike | packages/api/src/core/http/errors.ts:106-113 | non-objects have no view; an AppError shows name 'AppError' and its code |
| HttpErrors.DatabaseUnavailableExactly | packages/api/src/core/http/errors.ts:106-125 | a connection fault exactly when an object is named PrismaClientInitializationError or has code P1001 |
| HttpErrors.DatabaseErrorExactly | packages/api/src/core/http/errors.ts:127-143 | connection faults are database errors; otherwise exactly the four Prisma names; an AppError never is |
| HttpErrors.CreateErrorEnvelope | packages/api/src/core/http/errors.ts:52-66 | code, message and requestId copied verbatim; details present exactly when not undefined |
| HttpErrors.EnvelopeJsonFields | packages/api/src/core/http/errors.ts:15-22 | the serialised envelope reads back its code name, message and requestId under `error` |
| HttpErrors.EnvelopeDetailsKey | packages/api/src/core/http/errors.ts:61-63 | the serialised envelope has a `details` key exactly when details were given |
| HttpErrors.MapFrameworkError | packages/api/src/core/http/errors.ts:74-103 | VALIDATION gives 400 VALIDATION_ERROR, PARSE 400 PARSE_ERROR, NOT_FOUND 404 ROUTE_NOT_FOUND, anything else 500 INTERNAL_ERROR, each with its fixed message, in both directions |
| HttpErrors.MappingStatusFollowsCode | packages/api/src/core/http/errors.ts:74-103 | the mapping yields only four codes, and the status is determined by the code |
| Envelope.SuccessEnvelopeShape | packages/api/src/core/http/envelope.ts:5-35 | the data is unchanged under `data`, the request id under `meta.requestId`, and there are no other keys |
| Envelope.EnvelopesMatchSchema | packages/api/src/core/http/envelope.ts:22-29 | every built error envelope matches the error schema; a success envelope never does |
| ErrorHandler.OnError | packages/api/src/core/plugins/error-handler.ts:28-94 | the answer of a plugin that has its logger: AppError first, then DB-unavailable 503, then DB error 500, then the framework mapping; fixed text, status from code, and error-level logging iff 5xx for non-AppErrors; request id or 'unknown' in every branch |
| ErrorHandler.OnlyAppErrorsChooseCode | packages/api/src/core/plugins/error-handler.ts:47-94 | only an AppError can produce an authentication or not-found code, or a message of its own |
| RequestContext.ResolveRequestId | packages/api/src/core/plugins/request-context.ts:5-12 | a non-empty caller id is reused verbatim; otherwise the fresh id |
| RequestContext.ResolveStable | packages/api/src/core/plugins/request-context.ts:5-12 | resolving the resolved id again gives the same id, whatever fresh id is drawn |
| RequestContext.ResponseSet.ApplyRequestIdHeader | packages/api/src/core/plugins/request-context.ts:14-20 | the header map is created if absent; only x-request-id is set; other headers and the status are unchanged |
| RequestContext.BeforeHandle | packages/api/src/core/plugins/request-context.ts:31-33 | the header is written before handling |
| RequestContext.MapResponse | packages/api/src/core/plugins/request-context.ts:34-40 | the header is written on `set` and on a returned `Response` |
| RequestContext.ErrorPathRequestId | packages/api/src/core/plugins/request-context.ts:41-45 | the derived id if non-empty, otherwise the id resolved again |
| RequestContext.OnError | packages/api/src/core/plugins/request-context.ts:41-46 | the error path writes that id into the header |
| ErrorHandler.RunErrorHook | packages/api/src/core/plugins/error-handler.ts:27-94 | a plugin created without a logger throws a TypeError in every branch, whatever the error, before any envelope is returned; one created with a logger answers as OnError |
| ResponsePipeline.ServeAsWired | packages/api/src/app.ts:56-69 | with both plugins created without a logger, a success is answered with 200 and matching header and body ids, while every failure ends with the error hook throwing after the x-request-id header was written, so no failure gets an error envelope |
| ResponsePipeline.ServeWithLogger | packages/api/src/bootstrap/create-container.ts:27-30 | with the container's logger given to both plugins: header and body ids agree on success and on failures after derive; a failure before derive gets 'unknown' in the body |
| ResponsePipeline.HeaderBodyMismatchBeforeDerive | packages/api/src/core/plugins/error-handler.ts:30 | with no caller id, a failure before derive sends the fresh id in the header and 'unknown' in the body |
| ResponsePipeline.Serve | packages/api/test/tasks.integration.test.ts:85-119 | with both plugins given the logger and the handler reading the error hook's id, the header always equals the body's requestId, and a caller id is echoed |
| ResponsePipeline.ErrorBodyRequestId | packages/api/src/core/http/errors.ts:15-22 | an error body's request id is the envelope's |
| AuthGuard.ExtractBearerTokenExactly | packages/api/src/core/plugins/auth-guard.ts:9-24 | a token is extracted exactly when the header is 'bearer' in any case, one space, a non-empty space-free token, then the end or a space; the legacy `getBearerToken` in packages/api/src/auth.ts:30-46 is the same code |
| AuthGuard.BearerSchemeHasNoSpace | packages/api/src/core/plugins/auth-guard.ts:19-21 | a scheme that lower-cases to 'bearer' is six characters with no space |
| AuthGuard.Resolve | packages/api/src/core/plugins/auth-guard.ts:35-53 | no token: AUTH_MISSING_TOKEN 401 without calling the verifier; verifier failure: AUTH_INVALID_TOKEN 401; success: the principal unchanged |
| AuthGuard.GuardOutcome | packages/api/src/core/plugins/auth-guard.ts:35-53 | both failures are 401s, told apart by code in both directions; an accepted token's principal is the verifier's |
| SupabaseAuth.StripTrailingSlash | packages/api/src/modules/auth/infrastructure/supabase-auth-provider.ts:31 | at most one trailing '/' is removed |
| SupabaseAuth.ResolvedJwksUrl | packages/api/src/modules/auth/infrastructure/supabase-auth-provider.ts:22-32 | a non-empty override wins; with no issuer there is no URL; otherwise the issuer's `/.well-known/jwks.json` |
| SupabaseAuth.JwksUrlIgnoresTrailingSlash | packages/api/src/modules/auth/infrastructure/supabase-auth-provider.ts:31 | an issuer with or without its trailing slash gives the same URL |
| SupabaseAuth.CheckClaims | packages/api/src/modules/auth/infrastructure/supabase-auth-provider.ts:71-86 | accepted exactly when sub is a non-empty string and role is 'authenticated'; the principal is {sub, 'authenticated', token} |
| SupabaseAuth.VerdictMeaning | packages/api/src/modules/auth/infrastructure/supabase-auth-provider.ts:48-86 | no alg means rejection before any check; acceptance means jwtVerify accepted with the secret (HS) or key set (others) under the configured issuer |
| SupabaseAuth.SupabaseAuthProvider.GetRemoteJwks | packages/api/src/modules/auth/infrastructure/supabase-auth-provider.ts:34-46 | the client is built at most once, for the resolved URL, and reused; with no URL the call fails and nothing is stored |
| SupabaseAuth.SupabaseAuthProvider.VerifyBearerToken | packages/api/src/modules/auth/infrastructure/supabase-auth-provider.ts:60-87 | the verdict function's answer; the memo is touched only on the key-set route |
| RuntimeConfig.ParseNodeEnv | packages/api/src/core/config/runtime-config.ts:36-42 | production and test kept, anything else development, in both directions |
| RuntimeConfig.ParsePort | packages/api/src/core/config/runtime-config.ts:44-55 | absent or empty gives 54545; otherwise a positive integer is taken and anything else rejected |
| RuntimeConfig.OptionalEnv | packages/api/src/core/config/runtime-config.ts:57-65 | the trimmed value when it is present and not blank |
| RuntimeConfig.OptionalEnvExactly | packages/api/src/core/config/runtime-config.ts:57-65 | null exactly for absent or blank values; the result is already trimmed |
| RuntimeConfig.MissingRequired | packages/api/src/core/config/runtime-config.ts:74-85 | exactly the required names whose value is absent or blank |
| RuntimeConfig.LoadRuntimeConfig | packages/api/src/core/config/runtime-config.ts:67-104 | missing names reported together; otherwise the port error; otherwise a config of trimmed values |
| RuntimeConfig.BothMissingReportedTogether | packages/api/src/core/config/runtime-config.ts:86-88 | both missing names in one message, DATABASE_URL first |
| SdkErrors.IsRecord | packages/sdk/src/errors.ts:27-28 | a record is a non-null, non-array object |
| SdkErrors.FindHeader | packages/sdk/src/errors.ts:39-41 | the first entry whose key matches the name case-insensitively |
| SdkErrors.GetHeader | packages/sdk/src/errors.ts:30-42 | no headers gives undefined; a Headers object answers `get`; a record gives its first case-insensitive match |
| SdkErrors.FindHeaderIgnoresCase | packages/sdk/src/errors.ts:39-41 | lookup depends on the name only up to case |
| SdkErrors.GetHeaderIgnoresCase | packages/sdk/src/errors.ts:30-42 | header values do not depend on the case of the name asked for |
| SdkErrors.NormalizeInput | packages/sdk/src/errors.ts:44-55 | a record with body, status or headers is a wrapper; otherwise the input is the body; a non-number status is dropped |
| SdkErrors.RequestIdOf | packages/sdk/src/errors.ts:59-62 | the body's string requestId first, else the x-request-id header |
| SdkErrors.ParseErrorEnvelope | packages/sdk/src/errors.ts:57-90 | a nested `{error: {code, message}}` first, then a flat `{error, message}` with statusCode preferred, else null |
| SdkErrors.ParseWithoutErrorKey | packages/sdk/src/errors.ts:89 | a body without an `error` key gives null |
| SdkErrors.ParseApiResponse | packages/sdk/src/errors.ts:57-76 | the SDK reads back the API's error response: code, message, details, status, the header's request id and the raw body |
| SdkErrors.BareEnvelopeLosesRequestId | packages/sdk/src/errors.ts:59-62 | from the API's envelope body alone the parser as written gets no request id |
| SdkErrors.RequestIdOfCorrected | packages/sdk/src/errors.ts:59-62 | the top-level id, then the API's nested `error.requestId`, then the header |
| SdkErrors.ParseErrorEnvelopeCorrected | packages/sdk/src/errors.ts:57-90 | the parser with the corrected request id; otherwise the same result |
| SdkErrors.BareEnvelopeKeepsRequestId | packages/sdk/src/errors.ts:64-76 | with the correction the bare body gives its request id and code back |
| SdkErrors.CorrectedAgreesOnApiResponse | packages/sdk/src/errors.ts:57-76 | with the header present the correction changes nothing |
| ErrorPipeline.Translate | apps/app/src/lib/error-pipeline.ts:51-58 | the translation when there is one, else the fallback |
| ErrorPipeline.ResolveFallbackMessage | apps/app/src/lib/error-pipeline.ts:60-71 | a message exactly for a non-empty key with a non-empty translation |
| ErrorPipeline.AsString | apps/app/src/lib/error-pipeline.ts:45-46 | a non-empty string, else null |
| ErrorPipeline.IsNetworkMessage | apps/app/src/lib/error-pipeline.ts:73-85 | false for null or empty; otherwise true exactly when the lower-cased text contains one of the four phrases |
| ErrorPipeline.NetworkMessageIgnoresCase | apps/app/src/lib/error-pipeline.ts:78 | a message and its lower-cased form are judged alike |
| ErrorPipeline.FetchFailedIsNetwork | apps/app/src/lib/error-pipeline.ts:83 | 'fetch failed' is a network message |
| ErrorPipeline.MessageChainAsWritten | apps/app/src/lib/error-pipeline.ts:110-114 | the chain as written: the preferred text, else the message, else network text, else the unknown text |
| ErrorPipeline.NetworkFallbackUnreachable | apps/app/src/lib/error-pipeline.ts:112-113 | the network step never decides the message as written |
| ErrorPipeline.MessageChain | apps/app/src/lib/error-pipeline.ts:110-114 | the corrected chain: preferred text, then network text for a network failure, then the message, then the unknown text |
| ErrorPipeline.NetworkFallbackExample | apps/app/src/lib/error-pipeline.ts:139-142 | 'fetch failed' is shown raw as written and as 'Network error' when corrected |
| ErrorPipeline.MessageChainAgrees | apps/app/src/lib/error-pipeline.ts:139-142 | the two chains differ only on network failures |
| ErrorPipeline.MappedKey | apps/app/src/lib/error-pipeline.ts:25-35 | a key exactly for one of the nine code names, namely 'errors.codes.' + code |
| ErrorPipeline.MappedMessage | apps/app/src/lib/error-pipeline.ts:101-103 | the mapped key's translation exactly when it exists and is non-empty |
| ErrorPipeline.ToUiError | apps/app/src/lib/error-pipeline.ts:96-156 | `toUiError` as written: unauthorized exactly by the API or the generic rule; the session text when unauthorized, otherwise the message chain as written; fingerprints from code, status, request id and that message |
| ErrorPipeline.ToUiErrorCorrected | apps/app/src/lib/error-pipeline.ts:96-156 | the corrected `toUiError`: the same title, flag and fingerprint rule; an authorised network failure without a preferred text shows the network text |
| ErrorPipeline.RawNetworkOnlyWithOwnMessage | apps/app/src/lib/error-pipeline.ts:112-113 | the raw message is a network failure only when it is also the error's own non-empty message |
| ErrorPipeline.ToUiErrorCorrectedAgrees | apps/app/src/lib/error-pipeline.ts:108-142 | the correction changes nothing for an error whose message is not a network failure |
| ErrorPipeline.ToastMessagePrecedence | apps/app/src/lib/error-pipeline.ts:108-114 | as written, an authorised error shows the code's text first, then the fallback key's, then its own message, then the unknown text, never the network text; corrected, the network test comes before its own message |
| ErrorPipeline.ToastMessageNonEmpty | apps/app/src/lib/error-pipeline.ts:108-142 | with non-empty built-in texts, every toast message is non-empty, as written and corrected |
| ErrorPipeline.SplitOfFingerprint | apps/app/src/lib/error-pipeline.ts:115-121 | the first part of a joined fingerprint is its kind |
| ErrorPipeline.FingerprintKindsDiffer | apps/app/src/lib/error-pipeline.ts:115-148 | an API error and any other error never share a fingerprint, as written and corrected |
| ErrorPipeline.FingerprintKind | apps/app/src/lib/error-pipeline.ts:115-148 | the first part of a fingerprint is 'api' for an API error and 'generic' otherwise |
| ErrorPipeline.ApiFingerprintInjective | apps/app/src/lib/error-pipeline.ts:115-121 | equal API fingerprints mean equal code, status, request id and message, if the message has no '&#124;' |
| ErrorPipeline.StatusTextNoSeparator | apps/app/src/lib/error-pipeline.ts:118 | a status in a fingerprint contains no separator |
| ErrorPipeline.Pruned | apps/app/src/lib/error-pipeline.ts:161-165 | exactly the entries at most 2000 ms old, with their stamps |
| ErrorPipeline.ToastStep | apps/app/src/lib/error-pipeline.ts:158-174 | skipped exactly when seen within the window at a non-zero time; a skip keeps the old stamp; otherwise now is recorded |
| ErrorPipeline.EntrySurvives | apps/app/src/lib/error-pipeline.ts:161-172 | an entry outlives other toasts while it stays within the window |
| ErrorPipeline.DedupWindow | apps/app/src/lib/error-pipeline.ts:158-174 | a toast shown at a non-zero time suppresses the same fingerprint for 2000 ms, whatever other toasts come between |
| ErrorPipeline.ToastDeduper.ShouldSkipToast | apps/app/src/lib/error-pipeline.ts:158-174 | the delete-while-iterating loop computes the decision and the pruned map |
| ErrorPipeline.ToastDeduper.ShowErrorToast | apps/app/src/lib/error-pipeline.ts:176-187 | shown exactly when not de-duplicated |
| ErrorPipeline.ToastDeduper.HandleUiError | apps/app/src/lib/error-pipeline.ts:213-225 | nothing when suppressed; unauthorized errors go to the sign-out flow; others to a plain toast; the message and fingerprint are `toUiError`'s as written |
| QueryClient.AsErrorMeta | apps/app/src/lib/query-client.ts:6-22 | `{}` for a non-object; the fallback key only when a non-empty string; suppress only for exactly `true` |
| QueryClient.AsErrorMetaReadsTwoKeys | apps/app/src/lib/query-client.ts:18-21 | metas that agree on the two keys give the same options |
| QueryClient.AsErrorMetaOfMeta | apps/app/src/lib/query-client.ts:6-22 | options written as meta come back unchanged, except an empty fallback key |
| I18n.NormalizeLanguage | apps/app/src/i18n.ts:11-21 | always a supported tag; zh-CN exactly when the lower-cased value starts with 'zh' |
| I18n.NormalizeLanguageIdempotent | apps/app/src/i18n.ts:11-21 | a supported tag normalises to itself, so normalising is idempotent |
| I18n.DetectInitialLanguage | apps/app/src/i18n.ts:23-34 | 'en' without a window; a non-empty stored value first; else the browser language |
| I18n.StoredPreferenceWins | apps/app/src/i18n.ts:28-31 | with a stored preference the browser language plays no part |
| LegacyErrors.LegacyCodeFromName | packages/api/src/schemas/error.ts:3-13 | a name found in the legacy enumeration is that code's wire name |
| LegacyErrors.LegacyCodeNameRoundTrip | packages/api/src/schemas/error.ts:3-13 | each of the seven codes is found again from its name |
| LegacyErrors.BuildError | packages/api/src/schemas/error.ts:21-29 | exactly the three keys error, code and requestId, copied from the arguments |
| LegacyErrors.ToErrorResult | packages/api/src/plugins/error.ts:11-25 | VALIDATION, PARSE, NOT_FOUND and anything else map to their fixed text and code, in both directions |
| LegacyErrors.StatusChainAgrees | packages/api/src/plugins/error.ts:50-58 | the if-chain's status is always the one `toErrorResult`'s code stands for, and the new API's status and message |
| LegacyErrors.RequestIdOrUnknown | packages/api/src/plugins/error.ts:36 | the derived id, or 'unknown' |
| LegacyErrors.LegacyOnError | packages/api/src/plugins/error.ts:33-60 | an AppError gives its own status, code and message; anything else the status chain and `toErrorResult` |
| LegacyErrors.LegacyOnErrorShape | packages/api/src/plugins/error.ts:33-60 | every body carries the request id; non-AppErrors give 400, 404 or 500 with fixed codes and text |
| LegacyErrors.OnError | packages/api/src/plugins/error.ts:33-60 | the hook writes the decided status on `set` and returns the decided body; headers untouched |
| LegacyAuth.GetJwtSecret | packages/api/src/auth.ts:7-13 | an unset or empty secret throws; otherwise the secret |
| LegacyAuth.GetJwtIssuer | packages/api/src/auth.ts:15-22 | the issuer exactly when it is set and non-empty |
| LegacyAuth.JwksUrlAgrees | packages/api/src/auth.ts:50-62 | the legacy URL rule is the new provider's rule fed from the raw environment |
| LegacyAuth.LegacyVerdictAgrees | packages/api/src/auth.ts:88-116 | with a secret and no client yet, the legacy verdict is the new verifier's; without a secret an HS token is refused before any signature check |
| LegacyAuth.LegacyAuthModule.GetRemoteJwks | packages/api/src/auth.ts:64-76 | the first client built is kept for good, even when the environment later names another URL; with no URL it throws |
| LegacyAuth.LegacyAuthModule.VerifySupabaseJwt | packages/api/src/auth.ts:78-116 | the legacy verdict; only the key-set route touches the memo |
| LegacyAuth.LegacyAuthModule.Derive | packages/api/src/plugins/auth.ts:13-25 | no token gives null without verifying; otherwise the principal exactly when verification succeeds |
| LegacyAuth.DeriveAuth | packages/api/src/plugins/auth.ts:13-25 | a principal exactly when there is a token and it was accepted |
| LegacyAuth.Guard | packages/api/src/plugins/auth.ts:28-35 | without auth the status becomes 401 and the body `{error: 'Unauthorized'}`; with it nothing changes |
| LegacyAuth.MissingAndInvalidLookAlike | packages/api/src/plugins/auth.ts:19-24 | missing and refused tokens both derive null, while the new guard tells them apart by code |
| LegacyTodos.LegacyListingGuarantees | packages/api/src/modules/todos/repo.ts:4-8 | a correct legacy listing holds each of the caller's rows once, as stored, newest first |
| LegacyTodos.TodoStore.ListByUser | packages/api/src/modules/todos/repo.ts:4-8 | `where {userId}` ordered by createdAt descending is a correct legacy listing |
| LegacyTodos.TodoStore.Create | packages/api/src/modules/todos/repo.ts:9-12 | one new open row under the fresh id |
| LegacyTodos.TodoStore.FindById | packages/api/src/modules/todos/repo.ts:13-16 | a row exactly when the caller owns it |
| LegacyTodos.TodoStore.Update | packages/api/src/modules/todos/repo.ts:17-21 | keyed by id alone: any row with that id is written, whoever owns it; a missing row throws |
| LegacyTodos.TodoStore.DeleteById | packages/api/src/modules/todos/repo.ts:22-25 | count 1 and the row removed exactly when the caller owns it; otherwise 0 and nothing changes |
| LegacyTodos.ReadPatch | packages/api/src/modules/todos/service.ts:44-50 | the title only if it is a string, isDone only if it is a boolean |
| LegacyTodos.ReadPatchOfPatchJson | packages/api/src/modules/todos/service.ts:44-50 | reading a patch's own body gives the patch back |
| LegacyTodos.UpdateOutcome | packages/api/src/modules/todos/service.ts:30-62 | not owned: TODO_NOT_FOUND before the body is read; no field: NO_UPDATES; otherwise the write by id, which throws if the row is gone |
| LegacyTodos.UpdateWithoutInterleaving | packages/api/src/modules/todos/service.ts:35-60 | with nothing between check and write, success meets the repository's update contract, and a non-empty patch succeeds exactly when the new use case does |
| LegacyTodos.DeletedBetweenCheckAndWrite | packages/api/src/modules/todos/service.ts:35-60 | a row deleted between the two store calls makes the write throw, answered with 500 rather than 404 |
| LegacyTodos.EmptyBodyRefused | packages/api/src/modules/todos/service.ts:52-58 | `{}` is refused with NO_UPDATES when the row is the caller's, and with TODO_NOT_FOUND first otherwise |
| LegacyTodos.List | packages/api/src/modules/todos/service.ts:22-25 | every listed row through `formatTodo`, in order |
| LegacyTodos.Create | packages/api/src/modules/todos/service.ts:26-29 | the created todo, formatted; the table gains exactly that row |
| LegacyTodos.Update | packages/api/src/modules/todos/service.ts:30-62 | the update outcome, and on success the formatted todo; failures change nothing |
| LegacyTodos.Delete | packages/api/src/modules/todos/service.ts:63-74 | ok exactly when the caller owned the row, which is removed; otherwise TODO_NOT_FOUND |

## Left out

- Case mapping covers ASCII letters only (`toLowerCase` and `toUpperCase` on other characters are left as they are). `trim` strips the full ECMAScript set of white space and line terminators.
- Title order is lexicographic by Unicode code point, which differs from UTF-16 code-unit order only for characters outside the Basic Multilingual Plane. `localeCompare` and the database collation are not modelled; any total order would serve the proofs.
- JavaScript numbers are integers, and every number is taken as finite. `Number()` parsing is a parameter.
- The `new URL(...)` parsing of the key-set URL is not modelled; a URL is a string.
- I/O is not modelled: logging, notifications, navigation, `signOut`, localStorage and document writes, and env-file loading.
- The request-context plugin's after-response hook (packages/api/src/core/plugins/request-context.ts:46-57) is not modelled. As wired it calls `logger.info` on an undefined logger after each response is sent; the response is unaffected.
- TaskUseCases.UndefinedQueryFailure: the 500 INTERNAL_ERROR envelope is the answer of an error plugin that has its logger (ErrorHandler.OnError). As wired, the hook throws instead (see "## Findings").
- TaskUseCases.TaskUseCases.ListRouteAsWritten: the 500 answer it states is, as for UndefinedQueryFailure, that of an error plugin that has its logger.
- A JSON object is a list of fields, and `Json.Get` reads the first field with the key. Distinct keys are not enforced, but no member builds an object with a repeated key, so the difference from JavaScript's last-wins `JSON.parse` never shows.
- Concurrency is not modelled. Each request is handled alone.
- ErrorPipeline.ToastDeduper.HandleUiError: the single-flight `runUnauthorizedFlow` promise is not modelled. Every unauthorized error is reported as starting the flow, whose toast goes through the same de-duplication.
- Thread-safety of the memoised key-set clients is not modelled.
- RuntimeConfig.LoadRuntimeConfig takes the environment explicitly; the `process.env` default and env-file loading are not modelled.
- SupabaseAuth.Verdict merges a header that `decodeProtectedHeader` cannot decode with a header without `alg`. Both reject the token before any signature check.
- The clock is read once per operation. The two reads in `applyPatch` are separate parameters; the one read in the database update is a single parameter.
- The listing requires `page >= 1` and `pageSize >= 1`. Nothing shown enforces them, and the `pageSize <= 100` bound appears nowhere in the code.
- The database leaves the order of ties open. The listing contract allows any tie order; the database model takes the physical row order.
- Fresh ids are a precondition: a generated id is not yet in the table.
- Title lengths count characters, not UTF-16 code units.
- The class of the API client's errors is not part of this model. Its fields (code, status, request id, message) are taken from their use in apps/app/src/lib/error-pipeline.ts.
- SdkErrors.GetHeader: `Object.entries` of a headers value that is a string or an array is not modelled; such headers give no value.
- ErrorPipeline.Translate: a translation that is not a string counts as absent.
- The `ERROR_CODE_TO_I18N_KEY` lookup ignores inherited object keys such as `constructor`.
- LegacyAuth.LegacyAuthModule.GetRemoteJwks: a client built for one environment is kept when the environment changes, as in the source. The model states this but does not treat it as a fault.
- LegacyTodos.UpdateOutcome: the interleaving between the check and the write is given as a second table state. Other requests running in between are not modelled.
- The request-body schemas of the legacy routes (packages/api/src/modules/todos/schema.ts) are the framework's; the service is modelled on any JSON body.
- The legacy and the new repositories both use the database's `todo` table. They are modelled as two separate stores.

## Findings

| source | as written | input that shows it | evidently intended | confidence | as-written member | corrected member |
|---|---|---|---|---|---|---|
| packages/api/src/modules/tasks/presentation/http/schemas.ts:16-19 | the update schema makes both fields optional, so `{}` is accepted, and the update still moves `updatedAt` and returns ok | PATCH with body `{}` on an owned task | refused with 400 VALIDATION_ERROR, as packages/api/test/tasks.integration.test.ts:156-179 expects | high, not executed | TaskUseCases.EmptyBodyValidation | TaskUseCases.TaskUseCases.Patch |
| apps/app/src/lib/error-pipeline.ts:110-114 | `asString(error.message)` comes before the network test, so any non-empty message is shown raw and the network text is never chosen (also lines 139-142) | an error with message 'fetch failed' and no mapped or fallback text | 'Network error' for network failures | high, not executed | ErrorPipeline.NetworkFallbackUnreachable | ErrorPipeline.ToUiErrorCorrected |
| packages/api/src/app.ts:56-69 | both plugins are created without the logger their factories require (packages/api/src/core/plugins/request-context.ts:22, packages/api/src/core/plugins/error-handler.ts:27); every branch of the error hook calls `logger.warn` or `logger.error` before returning (lines 33, 49, 62, 77, 83), so it throws a `TypeError` and no failure gets the error envelope | any failing request, such as GET /api/v1/todos without a token | the container's logger (packages/api/src/bootstrap/create-container.ts:27-30) passed to both plugins, so that each failure gets its envelope | high, not executed | ResponsePipeline.ServeAsWired | ResponsePipeline.ServeWithLogger |
| packages/api/src/core/plugins/error-handler.ts:30 | once the plugin has its logger (see the row above), a failure before derive puts 'unknown' in the body while the request-context error hook writes a fresh id into the header | a malformed body with no x-request-id header | the header's x-request-id equals the body's requestId, as packages/api/test/tasks.integration.test.ts:85-119 checks | medium, not executed | ResponsePipeline.HeaderBodyMismatchBeforeDerive | ResponsePipeline.Serve |
| packages/sdk/src/errors.ts:59-62 | the request id is read from the body's top level, while the API nests it in `error.requestId` (packages/api/src/core/http/errors.ts:15-22) | a bare API error body `{error: {code, message, requestId}}` without headers | the body's nested request id is returned | medium, not executed | SdkErrors.BareEnvelopeLosesRequestId | SdkErrors.ParseErrorEnvelopeCorrected |
| packages/api/src/modules/tasks/presentation/http/routes.ts:24-27 | the route calls `list(auth.userId)` without a query; `list` passes it on as undefined (packages/api/src/modules/tasks/application/use-cases/index.ts:14-18) and the repository's read of `query.status` (packages/api/src/modules/tasks/infrastructure/prisma-task-repository.ts:41) throws a `TypeError`, answered with 500 once the error plugin has its logger | GET /api/v1/todos with a valid token | the query's defaults applied, giving page 1 of 10 rows as packages/api/test/tasks.integration.test.ts:121-129 expects | medium, not executed | TaskUseCases.TaskUseCases.ListRouteAsWritten | TaskUseCases.TaskUseCases.ListRoute |
