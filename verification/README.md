# A verified model of the MassaCorp backend's stateful parts

MassaCorp is a multi-tenant SaaS backend (FastAPI, SQLAlchemy, PostgreSQL,
Redis) with an ETL for supplier invoices. This project models the parts of it
whose correctness depends on more than one function at a time, and proves in
Dafny what they promise over every input, every run and every interleaving.
`dafny verify dfyconfig.toml` checks everything.

| files | what they model |
|---|---|
| `ImportCycles` | the depth-first search for circular imports |
| `SlidingWindow`, `RateLimit` | the memory and Redis rate limiters, and the window theorem they share with the lockout and the reset quota |
| `LoginAttempts`, `Lockout` | failure counting, the identifier encoding, and the lockout of `login` inside the request's transaction |
| `PasswordReset` | single-use reset tokens and their hourly quota |
| `TenantRepository`, `Pagination` | tenant isolation and pages |
| `AuthStore`, `AuthRuns`, `TokenChains`, `TokenCleanup` | sessions, refresh tokens, their rotation and cleanup |
| `Blacklist` | revoked tokens, with the rollback of failed flushes |
| `Rbac` | roles and permissions with expiry |
| `Shutdown` | counting and draining requests |
| `Prices`, `Amounts`, `Ean` | the ETL's parsing, rounding and check digits, in Python and in PL/pgSQL |
| `Ranking`, `Rapprochement` | linking ingredients to their best supplier products |
| `LogSanitizer` | concealing sensitive values in logs |
| `Numerals`, `Text`, `Wrappers` | shared vocabulary |

Code that changes state is a class or a method with loops, proved equal to a
specification function; the theorems are about that function. Instants are real
numbers of seconds; clocks, fresh identifiers, hashes, search results and the
scheduler are inputs. A database is its committed rows and its current ones,
and a rollback restores the former.

## Where the code does not do what it says

The model follows the code. Where a promise fails, a lemma gives an input and
another says exactly when it holds.

- The login endpoint raises an exception for every wrong sign-in, and the
  request's database session is then rolled back with the attempt just recorded
  (app/api/v1/endpoints/auth.py:162-170, app/core/dependencies.py:81-89). So no
  account is ever locked (`NeverLocked`) and any number of wrong sign-ins gets
  through (`Unlimited`); the promised limit holds of every run exactly if wrong
  sign-ins commit (`ProtectedIff`).
- The refresh flow answers a replayed token by revoking all tokens of the user
  (app/services/auth.py:680-698), but an earlier check has already refused every
  used token, so that branch is never taken (`ReplayBranchIsDead`, `ReuseIsRefused`).
- `add_to_blacklist` is documented as idempotent. Adding a token twice in one
  transaction rolls both additions back (`AddTwiceUnrevokes`, `AddRevokesIff`).
- `bulk_add` counts tokens its own fallback has rolled back (`BulkAddCountIff`);
  a list that repeats one new token reports one revocation and makes none
  (`RepeatLosesToken`, `BulkAddRevokesAllIff`).
- `store_token` rolls the caller's transaction back on a duplicate, and with it
  a logout not yet committed (`LogoutUndoneByConflict`, `SessionRevivesIff`).
- The all-tenant failure count takes the email for a LIKE pattern: failures of
  john.doe@x.com count for john_doe@x.com (`JohnDoe`). It is the sum of the
  tenants' counts exactly if no other email's failure matches, and for an email
  with a backslash, whose own failures the pattern can miss, exactly if as many
  are missed as are strangers (`AllTenantCountIff`).
- The rate limiter's key is ambiguous exactly for client addresses containing
  `:/` (`KeyCollidesIff`). A clock that steps back can break its bound
  (`ClockStepBackBreaksBound`); an answer counts its true window exactly if
  nothing in it was cut before (`HoldsWindowIff`), and then the bound holds
  (`SteadyWindowBound`). The Redis version counts requests of the same instant
  once (`SameInstantSeparates`): it parts from the memory limiter over a request
  exactly if the limit lies between the distinct instants of the arrivals seen
  and the requests accepted among them (`LimitersPartIff`), and a window can
  exceed the limit only by equal instants (`RedisInstantBound`). Its EXPIRE shows exactly when a key expires
  on the server's clock before its window has passed on the middleware's
  (`ExpireUnobservableIff`, `EarlyExpiryAdmits`).
- Purging revoked sessions can be observed: storing a token for a purged session
  fails, and the rollback can undo a logout (`CleanupUndoesLogout`). Nothing a
  caller sees changes exactly if no token is stored for a session that a cleanup
  has removed (`SessionCleanupUnobservableIff`); the services store tokens for
  live sessions only (`OrderlyNeverDiverges`).
- Cleaning expired role assignments can be observed: renewing a lapsed
  assignment without an expiry is void before the cleanup and permanent after
  it (`AssignSeesCleanupIff`), and no other event shows one
  (`Rbac.CleanupUnobservableIff`). Cleaning the blacklist can be observed exactly by
  an add that rolls an unexpired token back with the cleanup only or without it
  only (`AddSeesCleanupIff`, `Blacklist.CleanupUnobservableIff`, `LateRevocationSeesCleanup`).
- Thousands separated by dots are read as decimals when no comma follows
  (`DottedInteger`).
- Python rounds ties to even and PostgreSQL away from zero, so the two invoice
  computations differ (`SqlAgainstPython`, `TwoCentsApart`).
- Strings in a list are logged in full even under a sensitive key
  (`PlainListsAreLogged`).
- The linking run swallows a refused insert, which aborts the PostgreSQL
  transaction: the run keeps its whole plan if no name is blank and no insert is
  refused, and otherwise nothing (`CommitsIff`, `AllOrNothing`), even when it
  prints links created (`PrintsLostLink`).

## Model

| member | source | states |
|---|---|---|
| ImportCycles.FindCycles | scripts/check_imports.py:113-140 | the answer is empty if and only if the graph is acyclic; every list reported is a simple cycle; no edge closes two of them; every cycle of the graph goes through a reported closing edge; each node is entered once and left once |
| ImportCycles.CycleFinder.constructor | scripts/check_imports.py:113-117 | the search starts with an empty path, no cycles and its invariant |
| ImportCycles.CycleFinder.Dfs | scripts/check_imports.py:119-134 | a call finishes its node, restores the path, withdraws nothing recorded, reports no cycle closed by a node visited before, and terminates on every finite graph |
| ImportCycles.CycleFinder.Follow | scripts/check_imports.py:124-131 | each successor ends up finished or closing a reported cycle |
| ImportCycles.CycleFinder.Enter | scripts/check_imports.py:120-122 | the node joins visited, rec_stack and path, which stay in step |
| ImportCycles.CycleFinder.ReportCycle | scripts/check_imports.py:127-131 | exactly one report is added, closed by this edge |
| ImportCycles.CycleFinder.Leave | scripts/check_imports.py:133-134 | the node leaves path and rec_stack, last in the finishing order |
| ImportCycles.PathCloses | scripts/check_imports.py:127-131 | the path from the first occurrence of a neighbour, closed by it, is a simple cycle |
| ImportCycles.CycleIsCaught | scripts/check_imports.py:119-138 | a finishing order in which every edge leads to an earlier node or closes a report leaves no cycle unreported |
| ImportCycles.PositionsDecrease | scripts/check_imports.py:119-138 | along a walk that avoids closing edges the finishing position falls at every step |
| ImportCycles.CompleteSearch | scripts/check_imports.py:136-140 | a search started from all keys also reaches the nodes that are no keys, and catches every cycle |
| SlidingWindow.WindowBound | app/middleware/rate_limit.py:208-229 | if every instant was admitted by looking back one window, no window anywhere holds more than the limit |
| SlidingWindow.SinceSince | app/middleware/rate_limit.py:213-216 | pruning early does not show through a later cut |
| SlidingWindow.WindowInOrder | app/middleware/rate_limit.py:208-216 | a window is the instants inside it, in order, the edge in or out as given |
| RateLimit.MemoryLimiter.Check | app/middleware/rate_limit.py:193-229 | store and answer (allowed, remaining, reset) are those of the specification step |
| RateLimit.StoreIsHistory | app/middleware/rate_limit.py:208-229 | the pruned list and the full history of accepted requests agree on the window |
| RateLimit.AnswerIsWindowCount | app/middleware/rate_limit.py:218-229 | every answer is determined by the count of accepted requests in the window of the unpruned history |
| RateLimit.HistoryIsStoreAndLost | app/middleware/rate_limit.py:208-229 | on any clock, the accepted history of a window is what the store still holds and what earlier requests cut |
| RateLimit.HoldsWindowIff | app/middleware/rate_limit.py:208-229 | on any clock, the store holds the true window exactly if no request of the key read a clock a whole window past an instant of it |
| RateLimit.AnswerCountsHeld | app/middleware/rate_limit.py:218-229 | on any clock an answer compares the limit with what the store holds of the window |
| RateLimit.SteadyWindowBound | app/middleware/rate_limit.py:193-229 | if every answer counts its true window, no window holds more accepted requests than the limit |
| RateLimit.NonDecreasingIsSteady | app/middleware/rate_limit.py:208-229 | under a clock that does not go back every answer does |
| RateLimit.MemoryWindowBound | app/middleware/rate_limit.py:193-229 | so no window of such a run holds more accepted requests of a key than its limit |
| RateLimit.RefusedOnlyWhenFull | app/middleware/rate_limit.py:218-229 | a request is refused if and only if exactly `limit` accepted ones are in its window |
| RateLimit.MemoryAnswerSays | app/middleware/rate_limit.py:218-229 | `remaining` is what the limit leaves after the accepted requests in the window and this one, never below zero |
| RateLimit.ResetsAfterWindow | app/middleware/rate_limit.py:180-229 | both limiters give the whole second in which the window from now ends |
| RateLimit.ClockStepBackBreaksBound | app/middleware/rate_limit.py:208-229 | with a clock that steps back, a run exceeds the limit |
| RateLimit.RedisLimiter.Check | app/middleware/rate_limit.py:153-191 | the pipeline's effect on the sorted set, its expiry on the server's clock, and the answer |
| RateLimit.RunsStayValid | app/middleware/rate_limit.py:168-183 | in every run scores equal members, and the last request of a key left its latest member and set its deadline |
| RateLimit.ExpiredIsPrunedIff | app/middleware/rate_limit.py:168-183 | one request counts the same with and without EXPIRE exactly if the key has not expired on the server before its window passed on the middleware's clock |
| RateLimit.StoresAgree | app/middleware/rate_limit.py:168-183 | runs that count the same leave the same store with and without EXPIRE |
| RateLimit.ExpireUnobservableIff | app/middleware/rate_limit.py:168-191 | over a run with a server clock of its own, EXPIRE is unobservable if and only if no key expires before its window has passed on the middleware's clock |
| RateLimit.ExpireUnobservable | app/middleware/rate_limit.py:168-191 | then it changes no store and no answer |
| RateLimit.ConstantLatencyCovers | app/middleware/rate_limit.py:168-191 | equal latencies are enough for that |
| RateLimit.EarlyExpiryAdmits | app/middleware/rate_limit.py:168-191 | with varying latency a key expires early and a second request passes a limit of one |
| RateLimit.MembersAreArrivals | app/middleware/rate_limit.py:168-183 | a key's members are the distinct instants of all its arrivals in the window, refused ones included |
| RateLimit.RedisAnswerIsArrivalCount | app/middleware/rate_limit.py:180-191 | a request is allowed if and only if fewer distinct arrival instants than the limit precede it in the window |
| RateLimit.CountedAreArrivals | app/middleware/rate_limit.py:168-183 | what a request counts is the instants of the arrivals before it in its window |
| RateLimit.RedisAnswerSays | app/middleware/rate_limit.py:180-191 | `remaining` is what the limit leaves after those instants and this request, never below zero |
| RateLimit.DistinctIff | app/middleware/rate_limit.py:174-178 | counting instants counts arrivals exactly if none share an instant |
| RateLimit.LimitersPartIff | app/middleware/rate_limit.py:153-229 | each limiter alone admits a request exactly if its limit lies between the distinct instants of the arrivals in the window and the requests accepted among them |
| RateLimit.RedisAdmitsLess | app/middleware/rate_limit.py:153-229 | where the arrivals of the key in the window came at different instants, whatever Redis admits the memory limiter admits |
| RateLimit.RedisInstantBound | app/middleware/rate_limit.py:153-191 | on every run no window holds more distinct instants of requests admitted by Redis than the limit |
| RateLimit.AdmittedAreListed | app/middleware/rate_limit.py:153-191 | the history these bounds speak of lists every admitted request of the key |
| RateLimit.RedisWindowBound | app/middleware/rate_limit.py:153-191 | so no window in which they are admitted at different instants holds more of them |
| RateLimit.SameInstantSeparates | app/middleware/rate_limit.py:174-178 | three simultaneous requests pass a Redis limit of two; the memory limiter refuses the third |
| RateLimit.KeyInjective | app/middleware/rate_limit.py:245-246 | keys of addresses without ":/" determine address and path |
| RateLimit.KeyCollidesIff | app/middleware/rate_limit.py:245-246 | another, shorter address shares a key exactly if the address contains ":/" |
| RateLimit.RateLimitMiddleware.CheckRateLimit | app/middleware/rate_limit.py:231-259 | the memory check under the path's limit and key |
| RateLimit.EndpointBound | app/middleware/rate_limit.py:141-259 | no window gives one address more answers from an endpoint than the limit the configuration names for its path, or the default |
| RateLimit.HitsOfKey | app/middleware/rate_limit.py:141-151 | all requests of one address for one path are checked under the limit its path is given, or the default |
| RateLimit.EndpointRefusesIff | app/middleware/rate_limit.py:141-259 | a request is refused if and only if as many accepted ones as its path's configured limit are in its window |
| RateLimit.ApplicationBounds | app/middleware/rate_limit.py:82-94 | as the application configures it, a minute gives an address 3, 5, 30 or 60 answers, path by path |
| TenantRepository.TenantAwareRepository.Create | app/repositories/base.py:404-423 | the new row is appended with the repository's tenant, whatever the data say; unknown columns are refused |
| TenantRepository.TenantAwareRepository.Update | app/repositories/base.py:425-459 | only the tenant's row of this id changes, never its tenant |
| TenantRepository.TenantAwareRepository.SetAttributes | app/repositories/base.py:450-455 | the loop in any order sets exactly the known columns |
| TenantRepository.TenantAwareRepository.Delete | app/repositories/base.py:461-477 | only the tenant's row of this id goes, and the answer tells whether there was one |
| TenantRepository.TenantAwareRepository.Locate | app/repositories/base.py:356-376 | finds the first row of the tenant with the id, if any |
| TenantRepository.GetAnswers | app/repositories/base.py:366-498 | get answers with the first row of this tenant and id, or with nothing exactly if there is none; exists says which |
| TenantRepository.GetAllAnswers | app/repositories/base.py:382-402 | get_all answers with the tenant's rows in table order from skip on, limit of them at most; a negative argument is a database error |
| TenantRepository.PaginateAnswers | app/repositories/base.py:479-550 | count counts the tenant's rows, and paginate answers with the page's slice of them, or refuses the page or its size |
| TenantRepository.FilterByAnswers | app/repositories/base.py:569-599 | filter_by answers with exactly the tenant's rows that match every known criterion, in order, and first_by with the first of them |
| TenantRepository.CreateReadsBack | app/repositories/base.py:404-423 | a created row is answered and found under its id with the data given and Null elsewhere; unknown columns change nothing; other ids are found as before; the count grows by one |
| TenantRepository.UpdateReadsBack | app/repositories/base.py:425-459 | an updated row is answered and found with the new values, old ones elsewhere; other ids as before; same count |
| TenantRepository.UpdateOfNone | app/repositories/base.py:425-459 | an update of an id the tenant does not have changes nothing and answers None |
| TenantRepository.DeleteReadsBack | app/repositories/base.py:461-477 | a deleted id is gone and the answer says whether it was there; other ids as before, the count drops by one if there was a row |
| TenantRepository.StepOnOwnRows | app/repositories/base.py:356-599 | each of the ten operations answers and changes from the tenant's rows alone |
| TenantRepository.StepByOther | app/repositories/base.py:404-477 | no operation of one tenant adds, removes or alters a row of another |
| TenantRepository.Noninterference | app/repositories/base.py:356-599 | in every interleaving a tenant's answers and rows are those of the run with all other tenants removed |
| TenantRepository.StepOwners | app/repositories/base.py:404-477 | after one operation every row has its old owner or was just created by this tenant |
| TenantRepository.OwnersNeverChange | app/repositories/base.py:404-459 | over whole runs no row moves to another tenant |
| Pagination.FirstPagesArePrefix | app/repositories/base.py:252-282 | the first n pages, put together, are the first n times page_size rows |
| Pagination.TotalPagesCover | app/repositories/base.py:52-55 | total_pages is the least number of pages covering the total |
| Pagination.PagesPartition | app/repositories/base.py:52-65 | pages 1 to total_pages yield every row exactly once, in order |
| Pagination.HasNextIffMore | app/repositories/base.py:57-65 | has_next holds exactly when the next page is not empty, and then this page is full; has_prev exactly when the previous page can be asked for |
| Pagination.LaterPagesEmpty | app/repositories/base.py:52-65 | pages past the last are empty |
| AuthStore.Repositories.CreateSession | app/repositories/session.py:46-99 | the session stored, with its absolute expiry; a duplicate rolls back |
| AuthStore.Repositories.InvalidateSession | app/repositories/session.py:158-209 | exactly the session named is revoked, if it exists and belongs to the user |
| AuthStore.Repositories.RevokeToken | app/repositories/refresh_token.py:150-173 | exactly this token is marked used |
| AuthStore.Repositories.RevokeAllForUser | app/repositories/refresh_token.py:175-222 | all unused tokens of the user's sessions are marked, and counted |
| AuthStore.Repositories.StoreToken | app/repositories/refresh_token.py:38-113 | invalid arguments change nothing; a duplicate or missing session rolls the transaction back; otherwise the token is stored unused |
| AuthStore.Repositories.Refresh | app/services/auth.py:613-777 | checks, rotation and storing as the flow composes them; the replay branch is unreachable |
| AuthRuns.RefreshConflictsIff | app/services/auth.py:671-761 | a refresh ends in an integrity error, rolling back, exactly if it passes every check and its new identifier is taken |
| AuthRuns.SessionRevivesIff | app/models/session.py:147-162 | one step makes a dead session active if and only if it rolls back to committed rows in which it is |
| AuthRuns.TokenRevivesIff | app/models/session.py:299-308 | likewise for a token |
| AuthRuns.SessionDeathIsFinal | app/repositories/session.py:158-249 | over every run a session once inactive stays so: for ever once committed, until a rollback otherwise |
| AuthRuns.TokenDeathIsFinal | app/repositories/refresh_token.py:115-222 | over every run a token used, revoked or expired is never valid again, under the same proviso |
| AuthRuns.RevokeTokenKills | app/repositories/refresh_token.py:150-173 | a revoked token is invalid at every later instant and its refresh refused; the answer says whether it was stored; nothing else changes |
| AuthRuns.InvalidatedSessionDies | app/repositories/session.py:158-209 | an invalidated session is dead; the answer is true exactly if it exists and is the owner's; nothing else changes |
| AuthRuns.CreatedSessionLives | app/repositories/session.py:46-99 | a created session is valid and listed, dies of itself at its absolute expiry and not before, and changes no other |
| AuthRuns.StoredTokenLives | app/repositories/refresh_token.py:38-113 | when store_token raises ValueError, when it rolls back, and otherwise that its token is valid exactly until its expiry |
| AuthRuns.QueriesOfUser | app/repositories/session.py:101-127 | get_active_sessions lists the user's unrevoked sessions, and get_by_user_id the tokens of all of them, or the valid ones |
| AuthRuns.LogoutUndoneByConflict | app/repositories/refresh_token.py:98-113 | a run in which a duplicate token undoes a logout |
| AuthRuns.RevokeAllLeavesNothing | app/repositories/refresh_token.py:175-222 | afterwards every token of the user's sessions, in the tenant if given, is dead, get_by_user_id is empty, and no other token, session or committed row is touched |
| AuthRuns.InvalidateAllLeavesExcepted | app/repositories/session.py:211-249 | the user keeps the excepted session at most, which stays as it was; other users' sessions, tokens and earlier revocations are untouched |
| AuthRuns.StepKeepsIntegrity | app/models/session.py:213-293 | every token keeps belonging to an existing session, through cascades and rollbacks |
| AuthRuns.StaysLoggedOut | app/repositories/refresh_token.py:175-308 | a user whose tokens were all revoked has none, through any run, until a token is stored for one of their sessions |
| AuthRuns.ReplayBranchIsDead | app/services/auth.py:671-700 | a token that passes is_token_revoked is never detected as replayed |
| AuthRuns.ReuseIsRefused | app/services/auth.py:671-682 | presenting a used token is refused and changes nothing |
| AuthRuns.NoRefreshAfterAbsoluteExpiry | app/services/auth.py:703-721 | through any chain of rotations no refresh succeeds at or after the session's absolute expiry |
| AuthRuns.RefreshSucceeds | app/services/auth.py:723-777 | a successful refresh uses up exactly the old token, names its successor and stores it in the same session with the given hash, until its own expiry or 30 days, whichever comes first |
| AuthRuns.SessionCleanupDeletes | app/repositories/session.py:345-377 | the cleanup deletes exactly the sessions revoked more than so many days ago, in the tenant if given, with their tokens |
| AuthRuns.StepsStayPruned | app/repositories/session.py:345-377 | a step with or without session cleanups before it leaves tables that differ in revoked sessions and their tokens only, with the same answer, unless it stores a token for a purged session |
| AuthRuns.SessionCleanupUnobservableIff | app/repositories/session.py:345-377 | with new identifiers, cleanups change no result of store_token or refresh and no answer about sessions, after any event, if and only if no token is stored for a session a cleanup has removed |
| AuthRuns.OrderlyNeverDiverges | app/repositories/refresh_token.py:87-113 | none is when tokens are stored for unrevoked sessions only |
| AuthRuns.SessionCleanupUnobservable | app/repositories/session.py:345-377 | so there session cleanups change no answer of get_active_sessions, is_session_valid or the refresh flow |
| AuthRuns.CleanupUndoesLogout | app/repositories/refresh_token.py:98-113 | a run in which a cleanup makes a store fail, whose rollback undoes a logout |
| TokenChains.StepStaysChained | app/models/session.py:316-326 | every operation keeps each session's tokens on one chain linked by replaced_by_jti |
| TokenChains.RunsStayChained | app/models/session.py:220-238 | so does every run, with commits and rollbacks |
| TokenChains.ReachableIsChained | app/models/session.py:220-238 | every reachable table is so chained |
| TokenChains.OneUnusedToken | app/models/session.py:220-238 | a session has at most one unused token |
| TokenChains.TrailsTerminate | app/models/session.py:316-326 | following replaced_by_jti never repeats a token and ends within the number of tokens issued for the session |
| TokenChains.RotatingIff | app/models/session.py:316-326 | what the chain theorems ask of a run: each session has one token stored and rotated ever after, under new identifiers |
| TokenCleanup.RunsLackExpired | app/repositories/refresh_token.py:224-242 | a run with token cleanups is the run without them minus expired tokens |
| TokenCleanup.TokenCleanupUnobservable | app/repositories/refresh_token.py:115-308 | token cleanups change no answer of is_valid, of get_by_user_id without revoked, or of the refresh flow |
| AuthRuns.TokenCleanupDeletes | app/repositories/refresh_token.py:224-242 | the token cleanup deletes exactly the expired tokens |
| Blacklist.RevokedTokenRepository.TryFlush | app/repositories/revoked_token.py:58-71 | one add and flush, undone with the whole transaction on a duplicate |
| Blacklist.RevokedTokenRepository.AddToBlacklist | app/repositories/revoked_token.py:38-71 | always answers normally, whatever was rolled back |
| Blacklist.RevokedTokenRepository.BulkAdd | app/repositories/revoked_token.py:116-161 | the rows and the count after one flush, or after the rollback and the one-by-one fallback |
| Blacklist.ConflictsIffFewer | app/repositories/revoked_token.py:139-147 | a flush conflicts exactly if it would leave fewer keys than there were rows and entries |
| Blacklist.RevokedTokenRepository.Cleanup | app/repositories/revoked_token.py:96-114 | exactly the expired rows go, and are counted |
| Blacklist.CleanupForgets | app/repositories/revoked_token.py:96-114 | a cleanup makes is_revoked forget exactly the tokens that have expired |
| Blacklist.AddRevokesIff | app/repositories/revoked_token.py:38-71 | the token ends up revoked if and only if it was new or already committed |
| Blacklist.AddKeepsOthersIff | app/repositories/revoked_token.py:58-71 | another revoked token survives if and only if there is no duplicate or it was committed |
| Blacklist.AddTwiceUnrevokes | app/repositories/revoked_token.py:38-71 | adding a new token twice in one transaction leaves it unrevoked |
| Blacklist.BulkAddRevokesAllIff | app/repositories/revoked_token.py:116-161 | all tokens of any list end up revoked exactly if the flush went through, or each is committed or in the tail the fallback keeps |
| Blacklist.FallbackKeeps | app/repositories/revoked_token.py:139-161 | the fallback keeps the committed rows and the entries since the last one that was committed or repeats a kept one, no others |
| Blacklist.FallbackSize | app/repositories/revoked_token.py:139-161 | and nothing in that tail repeats |
| Blacklist.BulkAddCountIff | app/repositories/revoked_token.py:139-161 | the count is never below the rows added, and equal to them exactly for committed tokens followed by new, pairwise different ones |
| Blacklist.RepeatLosesToken | app/repositories/revoked_token.py:139-161 | a new token listed twice is counted once and not revoked |
| Blacklist.AddLeaves | app/repositories/revoked_token.py:38-161 | what one or many adds leave revoked, in terms of the rows before |
| Blacklist.AddSeesCleanupIff | app/repositories/revoked_token.py:58-114 | by another token, an add shows whether a cleanup ran just before exactly if it repeats an expired row and the other is uncommitted |
| Blacklist.StepAgreesIff | app/repositories/revoked_token.py:38-161 | two databases alike on unexpired tokens answer alike after an event exactly if it rolls no unexpired token back in one of them only |
| Blacklist.CleanupUnobservableIff | app/repositories/revoked_token.py:73-114 | cleanups change no answer about unexpired tokens at any point of a run if and only if no add of it does that |
| Blacklist.TimelyNeverDiverges | app/repositories/revoked_token.py:38-114 | none does when tokens are revoked before they expire |
| Blacklist.CleanupUnobservable | app/repositories/revoked_token.py:73-114 | so there cleanups change no answer of is_revoked about an unexpired token |
| Blacklist.LateRevocationSeesCleanup | app/repositories/revoked_token.py:58-114 | a run in which a cleanup decides whether another token is revoked |
| Shutdown.ShutdownHandler.InitiateShutdown | app/core/shutdown.py:76-79 | only the flag is raised |
| Shutdown.ShutdownHandler.Arrive | app/middleware/shutdown.py:54-83 | which requests pass uncounted, get 503, or go on to be counted |
| Shutdown.ShutdownHandler.IncrementRequests | app/core/shutdown.py:96-98 | the request past the test becomes counted |
| Shutdown.ShutdownHandler.DecrementRequests | app/core/shutdown.py:100-102 | the finished request leaves the count |
| Shutdown.ShutdownHandler.DrainConnections | app/core/shutdown.py:104-127 | a drain ends at zero or at the timeout with requests left, having seen requests and time at each earlier poll; after the signal, ending at zero is final |
| Shutdown.ReplyIff | app/middleware/shutdown.py:54-83 | 503 answers exactly the HTTP requests after the signal that are no health check |
| Shutdown.CountAndFinish | app/core/shutdown.py:96-102 | counting adds the one request past the test and finishing removes one, each together with the counter |
| Shutdown.ClampsAtZero | app/core/shutdown.py:100-102 | the decrement is the larger of zero and one less |
| Shutdown.SignalOnlyFlags | app/core/shutdown.py:76-79 | the signal changes neither counter nor requests, and a poll nothing |
| Shutdown.EnabledIff | app/middleware/shutdown.py:62-93 | the interleavings: between test and increment nothing but the signal comes, since nothing is awaited there |
| Shutdown.StepAccurate | app/core/shutdown.py:96-102 | every step keeps the counter equal to the counted requests, and the clamp at zero never acts |
| Shutdown.CounterIsAccurate | app/middleware/shutdown.py:62-93 | in every interleaving the counter equals the requests in flight |
| Shutdown.NoNewRequests | app/middleware/shutdown.py:62-93 | after the signal only requests already past the test are ever counted |
| Shutdown.AtMostOneLate | app/middleware/shutdown.py:62-93 | at most one request is counted after the signal |
| Shutdown.DrainIsFinalIff | app/core/shutdown.py:104-127 | once the counter is zero no request is ever counted again, if and only if the shutdown was signalled |
| Prices.FrenchRoundTrip | etl/normalization.py:251-268 | an amount printed ungrouped, dot- or space-grouped with comma decimals and any euro marks reads back as exactly itself up to 100000, and as None above |
| Prices.DottedInteger | etl/normalization.py:256-268 | a dot-grouped whole amount reads right exactly below 1000, a thousand times too small below a million, and as None from there |
| Prices.CleanedWhole | etl/normalization.py:252-253 | the two substitutions remove every space grouping and keep dots |
| Prices.DotsRemoved | etl/normalization.py:256-257 | the thousands pattern is found whenever there are dots, and ungrouping is harmless otherwise |
| Prices.ParsePlain | etl/normalization.py:261 | digits, a dot and digits denote the number they spell |
| Prices.DottedThousandIff | etl/normalization.py:256-257 | the thousands pattern is found exactly in texts that hold a digit, a dot, three digits and a comma in a row |
| Prices.SignedWhole | etl/normalization.py:259-268 | a plus sign is dropped and an amount below zero refused; minus zero is kept |
| Prices.EuroMarksAre | etl/normalization.py:252-254 | the characters removed besides white space: the euro sign and the letters of EUR, in either case |
| Prices.NoDigitsNoAmount | etl/normalization.py:251-268 | a text of such characters, with a comma or not, is no amount |
| Amounts.SqlCalculateMontants | alembic/versions/u1b28o4t6p8r_add_etl_staging_normalization.py:411-433 | NULL amounts exactly for a missing price or quantity; otherwise both roundings half away from zero, the rate defaulting to 20 |
| Amounts.RoundingsNearest | etl/normalization.py:439-443 | both roundings give a nearest cent |
| Amounts.RoundingsDiffer | etl/normalization.py:439-443 | on amounts not negative the roundings differ, by one cent, exactly on ties above an even cent |
| Amounts.TiesEvenAndAway | etl/normalization.py:439-443 | on ties Python's rounding gives the even neighbour and PostgreSQL's the one away from zero |
| Amounts.DefaultRateAndTotals | etl/normalization.py:433-451 | a missing rate means 20, a missing price or quantity no amounts, and the total is the exact sum of its parts |
| Amounts.LineError | etl/normalization.py:433-451 | a line's total is within 0.5 * (1 + rate/100) + 0.5 cents of the exact one, in both versions |
| Amounts.InvoiceError | etl/normalization.py:433-451 | an invoice's total is within the sum of its lines' bounds |
| Amounts.SqlAgainstPython | alembic/versions/u1b28o4t6p8r_add_etl_staging_normalization.py:411-433 | both give amounts for the same arguments; SQL never charges less; one cent more before tax exactly on even ties, at most one more of tax and two in all below 100 %; the totals agree exactly without even ties |
| Amounts.TwoCentsApart | alembic/versions/u1b28o4t6p8r_add_etl_staging_normalization.py:411-433 | the two cents are reached |
| Ean.SqlNormalizeEan | alembic/versions/u1b28o4t6p8r_add_etl_staging_normalization.py:223-267 | returns what the Python function returns, and warns exactly if the Python checksum differs |
| Ean.NormalizeEan | etl/normalization.py:145-178 | a code returned has exactly 13 digits |
| Ean.AcceptedIff | etl/normalization.py:145-178 | a code is accepted exactly if its digits are 8, 13, or 14 after a zero, and then keeps their number |
| Ean.DigitsInOrder | etl/normalization.py:154-158 | the cleaning keeps the digits, in order, and nothing else |
| Ean.NoShortChecksum | etl/normalization.py:134-142 | there is no check digit exactly below twelve digits |
| Ean.NormalizeEanIdempotent | etl/normalization.py:145-178 | normalizing twice is normalizing once |
| Ean.ChecksumIsGtinRule | etl/normalization.py:134-142 | on 13 digits the comparison is the check-digit rule of section 7.9 of the GS1 General Specifications |
| Ean.NormalizeKeepsValidity | etl/normalization.py:145-178 | padding an EAN-8 and stripping a 14-digit code keep check-digit validity |
| Ean.SingleErrorDetected | etl/normalization.py:134-142 | every single wrong digit breaks a valid code |
| Ean.SwapUndetectedIff | etl/normalization.py:134-142 | swapping unequal neighbours goes unnoticed exactly if they differ by five |
| LoginAttempts.LoginAttemptRepository.RecordAttempt | app/repositories/login_attempt.py:38-77 | one row is appended under the normalized email's identifier |
| LoginAttempts.NormalizeTrims | app/repositories/login_attempt.py:60-67 | a normalized email is the email in lower case without the spaces around it |
| LoginAttempts.LoginAttemptRepository.CleanupOldAttempts | app/repositories/login_attempt.py:167-188 | exactly the rows older than the retention go, and are counted |
| LoginAttempts.KeepSinceInOrder | app/repositories/login_attempt.py:167-188 | a cleanup keeps the attempts from the cutoff on, in order |
| LoginAttempts.IdentifierInjective | app/repositories/login_attempt.py:63-67 | an identifier determines email and tenant, for any emails |
| LoginAttempts.LikeFits | app/repositories/login_attempt.py:208-214 | a LIKE pattern without percent sign and backslash, ended by %, matches exactly the texts that begin like it off its underscores |
| LoginAttempts.MarkedFitsIff | app/repositories/login_attempt.py:208-214 | an identifier fits `email@tenant:` exactly if its email has the same length and fits, or fits with a mark of its own |
| LoginAttempts.AllTenantCount | app/repositories/login_attempt.py:190-220 | for every email, count_recent_failed and the own failures its pattern misses make up the tenants' counts and the matching failures of other emails |
| LoginAttempts.AllTenantCountIff | app/repositories/login_attempt.py:190-220 | the counts agree exactly if as many failures are missed as are strangers; without a backslash, exactly if no failure of another email matches |
| LoginAttempts.NothingMissed | app/repositories/login_attempt.py:208-214 | an email without a backslash always matches its own failures |
| LoginAttempts.StrangerIff | app/repositories/login_attempt.py:208-214 | for an email without percent sign and backslash the strangers are the other emails of its length that agree off its underscores, and those continuing such an agreement with the mark |
| LoginAttempts.PlainCountsAgree | app/repositories/login_attempt.py:190-220 | so for emails free of metacharacters, among emails free of the mark, the count is the sum |
| LoginAttempts.UnderscoreMatches | app/repositories/login_attempt.py:208-214 | an email with an underscore matches every email that differs from it there only |
| LoginAttempts.JohnDoe | app/repositories/login_attempt.py:190-220 | one failure of john.doe@x.com counts for john_doe@x.com, and in no tenant |
| LoginAttempts.BackslashMisses | app/repositories/login_attempt.py:208-214 | a backslash escapes what follows, and the pattern misses the email it was made of |
| LoginAttempts.EscapeMatches | app/repositories/login_attempt.py:208-214 | an escaped character of a LIKE pattern matches itself only |
| LoginAttempts.CountsAgree | app/repositories/login_attempt.py:167-188 | cleanups that spare a window change no count over it, in any run |
| LoginAttempts.CleanupUnobservable | app/repositories/login_attempt.py:114-188 | such cleanups change no answer of is_locked_out |
| LoginAttempts.CleanupUnobservableIff | app/repositories/login_attempt.py:114-188 | a cleanup is invisible on every table exactly if it retains the window |
| Lockout.Login | app/services/auth.py:225-268 | within a request: a locked account is refused without a trace, otherwise the outcome is recorded under the same identifier |
| Lockout.LoginEndpoint.Post | app/api/v1/endpoints/auth.py:152-170 | the committed rows after a request change only for a right sign-in to an account that is not locked |
| Lockout.StoredIsHistory | app/repositories/login_attempt.py:79-112 | the table, cleaned or not, shows the window as the full history of committed failures does |
| Lockout.WrongSignInsSplit | app/core/dependencies.py:81-89 | every wrong sign-in let through was recorded or rolled back |
| Lockout.LockoutBound | app/services/auth.py:225-268 | in every run thirty minutes hold at most five wrong sign-ins of one email and tenant, and those rolled back |
| Lockout.LockedIffFull | app/repositories/login_attempt.py:114-137 | an account is locked exactly when its last thirty minutes hold five wrong sign-ins that committed |
| Lockout.NeverLocked | app/core/dependencies.py:81-89 | as requests commit, no run of the endpoint ever locks an account |
| Lockout.Unlimited | app/api/v1/endpoints/auth.py:152-170 | any number of wrong sign-ins gets through at one instant |
| Lockout.ProtectedIff | app/services/auth.py:225-268 | thirty minutes hold at most five wrong sign-ins in every run if and only if wrong sign-ins commit |
| Lockout.LockoutsAreSeparate | app/repositories/login_attempt.py:79-137 | removing all sign-ins of other emails and tenants from a run changes no answer |
| PasswordReset.PasswordResetRepository.RequestReset | app/services/password_reset.py:129-149 | a token is added exactly if the quota allows |
| PasswordReset.PasswordResetRepository.UseToken | app/repositories/password_reset.py:145-167 | exactly the unused token of this id is marked; the answer tells whether there was one |
| PasswordReset.ValidateIff | app/repositories/password_reset.py:119-143 | validate_token answers with the first row of this hash, exactly if that is unused and unexpired |
| PasswordReset.GrantedTokenLives | app/repositories/password_reset.py:68-101 | a granted token is returned by validate_token exactly until its hours, one by default, are over |
| PasswordReset.MarkUsesIff | app/repositories/password_reset.py:145-194 | marking uses exactly the token of this id, or all of this user, and leaves earlier uses their instant |
| PasswordReset.PasswordResetRepository.CleanupExpired | app/repositories/password_reset.py:256-281 | exactly the tokens expired or used before the cutoff go |
| PasswordReset.PurgeInOrder | app/repositories/password_reset.py:256-281 | a purge keeps, in order, the tokens neither expired nor used before the cutoff |
| PasswordReset.RunsStayPruned | app/repositories/password_reset.py:256-281 | a run with cleanups is the run without them minus tokens out of the quota's window and no longer valid |
| PasswordReset.CleanupUnobservable | app/repositories/password_reset.py:119-281 | cleanups change no answer of can_request_reset or validate_token |
| PasswordReset.RetentionIff | app/repositories/password_reset.py:217-281 | a cleanup leaves every quota count alone exactly if it retains the hour |
| PasswordReset.GrantedAreCreations | app/repositories/password_reset.py:217-254 | the requests granted in a run, purged or not, are those the unpurged table holds |
| PasswordReset.AtMostThreePerHour | app/repositories/password_reset.py:243-254 | in every run no hour grants a user more than three resets |
| PasswordReset.RefusedIffThree | app/repositories/password_reset.py:243-254 | a reset is refused if and only if exactly three were granted to the user in the last hour |
| PasswordReset.SingleUse | app/repositories/password_reset.py:119-194 | a token used, alone or with all of its user's, is never returned by validate_token again, in any run with fresh hashes |
| Rbac.UserRoleRepository.GetUserPermissionCodes | app/repositories/rbac.py:398-419 | the nested loops collect the codes of the user's unexpired assignments through active roles and permissions |
| Rbac.UserRoleRepository.UserHasAnyPermission | app/repositories/rbac.py:435-451 | true exactly if the user has one of the codes |
| Rbac.UserRoleRepository.UserHasAllPermissions | app/repositories/rbac.py:453-469 | true exactly if the user has all of them |
| Rbac.UserRoleRepository.AssignRole | app/repositories/rbac.py:471-515 | an existing assignment changes only if an expiry is given |
| Rbac.AssignGives | app/repositories/rbac.py:471-515 | an assigned role lasts exactly until the expiry given, for ever if new without one, and as before otherwise; no other role changes |
| Rbac.RoleIff | app/repositories/rbac.py:365-396 | a role is the user's exactly through an assignment without expiry or with one still to come |
| Rbac.HasCodeIff | app/repositories/rbac.py:365-419 | a user has a code exactly through one unexpired assignment, active role and active permission |
| Rbac.RightsOnlyLapse | app/repositories/rbac.py:517-631 | nobody gains a right by waiting, or by any run of revocations, removals and cleanups |
| Rbac.RevokeTakesRole | app/repositories/rbac.py:517-541 | revoking a role takes from its user what that role alone carried, and nothing from others |
| Rbac.RevokeAllTakes | app/repositories/rbac.py:543-559 | revoke_all_roles leaves the user no role at any later instant, and others theirs |
| Rbac.GrantsAfter | app/repositories/rbac.py:255-338 | which permissions each role has after adding, removing or replacing them |
| Rbac.CleanupDeletes | app/repositories/rbac.py:615-631 | the cleanup deletes exactly the assignments whose expiry is past |
| Rbac.CleanupUnobservableIff | app/repositories/rbac.py:398-631 | cleanups change no roles after any event of a run, nor later, if and only if no lapsed assignment that a cleanup has removed is renewed without an expiry |
| Rbac.CleanupUnobservable | app/repositories/rbac.py:398-631 | in such runs cleanups change no user's codes |
| Rbac.AssignSeesCleanupIff | app/repositories/rbac.py:471-515 | an assignment shows whether a cleanup ran before it if and only if it renews a lapsed row without expiry |
| Ranking.SortIsStable | scripts/auto_rapprochement.py:230 | the sort descends and keeps the order of equal scores |
| Ranking.StableSortIsUnique | scripts/auto_rapprochement.py:230 | those two facts determine the sorted list |
| Ranking.DedupeWithScore | scripts/auto_rapprochement.py:287-293 | removing duplicates commutes with picking one score |
| Ranking.BestFive | scripts/auto_rapprochement.py:287-305 | the first five of the ranking are distinct pairs, as many as there are up to five, in strict order, and beat every pair left out |
| Rapprochement.FindBestMatches | scripts/auto_rapprochement.py:184-231 | the products reaching the threshold, supplier by supplier, sorted |
| Rapprochement.Examine | scripts/auto_rapprochement.py:273-296 | search and sort give the ranking of all matches, or raise in an aborted transaction |
| Rapprochement.Deduplicate | scripts/auto_rapprochement.py:286-293 | the loop keeps the first match of each pair |
| Rapprochement.CreateLinks | scripts/auto_rapprochement.py:303-322 | the link loop is the specification's round |
| Rapprochement.CreateLink | scripts/auto_rapprochement.py:163-181 | an insert is taken or, refused, aborts the transaction |
| Rapprochement.LinkIngredients | scripts/auto_rapprochement.py:254-340 | the counters printed, and the links left in the database: all inserted, or none after an exception or a refusal |
| Rapprochement.TermsOfWords | scripts/auto_rapprochement.py:263-270 | a name of several words, however spaced, is searched by its first two words and by its first |
| Rapprochement.TermsOfOneWord | scripts/auto_rapprochement.py:263-270 | a name of one word is searched by it, and a blank one has no term |
| Rapprochement.ServeRaisesIff | scripts/auto_rapprochement.py:273-284 | an ingredient raises exactly if the transaction is aborted and one of its terms has three letters or more |
| Rapprochement.SearchOrderDecides | scripts/auto_rapprochement.py:230-296 | the sort inside each search never changes the candidates |
| Rapprochement.UnionMembers | scripts/auto_rapprochement.py:273-284 | a pair is considered exactly if a term of three letters or more finds it and it is similar enough |
| Rapprochement.ExaminedAreBest | scripts/auto_rapprochement.py:273-305 | the candidates are the five best distinct pairs of all that the searches find, ties in search order |
| Rapprochement.RunFollows | scripts/auto_rapprochement.py:254-324 | up to its first refused insert a run makes the links of its plan, in order |
| Rapprochement.CommitsIff | scripts/auto_rapprochement.py:254-340 | the run commits if and only if no ingredient has a blank name and no insert of its plan is refused |
| Rapprochement.AllOrNothing | scripts/auto_rapprochement.py:254-340 | it then leaves its whole plan, and otherwise no link |
| Rapprochement.PrintsLostLink | scripts/auto_rapprochement.py:163-181 | a run that prints one link created and leaves none |
| Rapprochement.RunLinksOnce | scripts/auto_rapprochement.py:303-322 | no triple is linked twice or relinked; created is the number of inserts and the growth of existing_links, and the number of links kept exactly if the run commits or made none |
| Rapprochement.RoundRows | scripts/auto_rapprochement.py:303-322 | an ingredient's new rows link its five best only, the best one alone as primary |
| Rapprochement.PrimaryIff | scripts/auto_rapprochement.py:312 | a primary link is made exactly if the best match was not linked and its insert is taken, none having been refused |
| Rapprochement.OnePrimaryEach | scripts/auto_rapprochement.py:303-322 | a run gives each ingredient at most one new primary link |
| Rapprochement.CountersAddUp | scripts/auto_rapprochement.py:298-322 | every examined match is skipped or tried, no_match counts the ingredients without any, and fewer are created than tried exactly if all are lost |
| Rapprochement.SecondRunIsIdle | scripts/auto_rapprochement.py:254-322 | after a run that commits, a second one tries nothing and skips everything |
| LogSanitizer.SanitizeDictLoop | app/core/logging.py:95-120 | the loop and recursion compute the specification |
| LogSanitizer.SanitizeList | app/core/logging.py:113-116 | only the dicts of a list are sanitized |
| LogSanitizer.SensitiveIff | app/core/logging.py:33-72 | a key is sensitive exactly if it contains, in any case, one of the listed words |
| LogSanitizer.LoggedLeaf | app/core/logging.py:58-120 | what is logged of a leaf: all of it under plain keys, four characters of a long sensitive string, nothing of any other |
| LogSanitizer.LogsAlikeIff | app/core/logging.py:58-120 | two values log alike if and only if they agree on shape, keys, plain leaves and the first four characters of long sensitive strings |
| LogSanitizer.PlainListsAreLogged | app/core/logging.py:113-116 | a list without dicts is logged unchanged under any key |
| LogSanitizer.SecondPass | app/core/logging.py:58-120 | a second pass changes the log exactly if the original had a sensitive leaf that was short or no string |
| LogSanitizer.ThirdPassIsIdle | app/core/logging.py:58-120 | a third pass never changes the result of the second |
| LogSanitizer.ShapePreserved | app/core/logging.py:95-120 | nesting, keys and their order are kept |

## Left out

- AuthStore.Repositories.Refresh: the JWT's validity, the user lookup and the new token's identifier, expiry and hash are inputs; a token without a jti or a flow without token service is not modelled.
- RateLimit.RateLimitMiddleware.CheckRateLimit: without Redis at construction; the fallback to memory when Redis fails at run time is not modelled.
- PasswordReset.PasswordResetRepository.UseToken: takes the uniqueness of primary keys as given.
- Shutdown.ShutdownHandler.DrainConnections: assumes the elapsed time eventually reaches the timeout; log lines and run_cleanup_tasks, close_db_pool and shutdown, which run after it, are not modelled.
- Lockout.LoginEndpoint.Post: one request at a time. Two-factor login, CAPTCHA, unverified emails, and the test environment, which disables the lockout, are not modelled.
- Rapprochement.LinkIngredients: similarity, ratio and the SQL searches are functions that do not change during a run, and a search raises only in an aborted transaction.
- Instants set by the database and instants read by Python are taken from one clock, except the Redis server's.
- Session identifiers are parsed: one that is no UUID counts as missing, as both make store_token raise ValueError.
- The answers of invalidate_session, revoke_token and revoke_all_for_user about rows already dead can show that a cleanup removed them.
- Each repository operation is modelled as flushed. The ORM's identity map, autoflush settings and objects left stale by bulk updates are not modelled.
- Updates of primary keys and assignments of relationships; a table returns its rows in a stable order.
- `rotate_refresh_token_complete`, which reads a column refresh tokens do not have; the flow of `refresh_tokens` is modelled instead.
- Amounts are exact: the 28-digit context of Python's decimals and overflow of NUMERIC columns are not modelled.
- `normalize_prix` of numbers and of None, and EAN codes that are no strings.
- Text is compared as ASCII: lower-casing and digits of other scripts are not modelled. White space is Unicode.
- Python's recursion limit in the import search, and its parsing of source files.
- Regular-expression normalization of designations and categories, dates, quantities, supplier names and whole lines: easy members, or without an invariant.
- Login counts per IP address, last successful login, and the audit log: queries of the same form as those modelled.
- Middleware headers, routing, health endpoints, configuration, migrations and seed scripts: no state invariant.
- Cryptography: hashes, tokens and UUIDs are abstract values.
