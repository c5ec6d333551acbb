# Verified model of the identity and session core

The backend keeps its state in PostgreSQL and Redis and changes it with separate reads and writes that can interleave.
This project models the parts of it that are protocols over that state, and the loops and text builders around them,
and proves what they promise.

Conventions used throughout:

- PostgreSQL is a set of tables whose single statements are atomic; a transaction is atomic as a whole, except in
  `ResetRaces`, where its reads and its COMMIT are separate steps. Redis is a map with expiry times, one command at a
  time. Time is a non-decreasing clock in nanoseconds. Statements and commands succeed unless a constraint fails them;
  "Left out" names the constraints that are not modelled.
- Each protocol has three layers: functions for single statements; classes and methods in the source's own shape, whose
  contracts equate the new state with those functions; and, where handlers overlap, a step machine (`State`, `Step`,
  `Next`, `Run`) in which any handler may stand between any two of its statements. A lemma or the method's own contract
  says that a handler nothing overlaps is exactly its steps in a row.
- A result about runs quantifies over every sequence of steps, so over every interleaving.
- What an operation answers and writes is stated of the rows' and arguments' own fields, with the literal values, beside
  the equation with its function: in the method's contract, or in a lemma about that function.
- Hashes (SHA-256 fingerprints) are injective functions, HMAC-SHA1 is an arbitrary function with 20-byte results, and
  random bytes are parameters.
- Fields that record what happened (`origin`, `redeemed`, `replies`, `evaluated`, `atLock`, `resets`, `unmarked`)
  influence no other field; of the cache's `history` a step reads only the last moment, the present one.

## What is modelled

| file | part of the system |
|---|---|
| `RefreshTokens`, `RefreshProtocol`, `RefreshLineage`, `RefreshHandler`, `RefreshAnswers`, `RefreshCleanup`, `RefreshRaces` | refresh-token rotation, reuse detection, logout, session revocation, cleanup |
| `AuthCache`, `AuthCacheFreshness`, `AuthCacheHandlers`, `CacheKeys`, `Decimal` | the 15-minute auth cache beside the database, its keys and patterns, its fills and invalidations |
| `Lockout`, `LockoutInterleaved` | login lockout after five failures |
| `Redis`, `RateLimit`, `RateLimitInterleaved` | the fixed-window limiter |
| `Blacklist` | token and user revocation marks in Redis |
| `TimeoutMiddleware` | the handler goroutine and the timeout branch |
| `Totp` | HOTP and TOTP (section 5.3 of RFC 4226, section 4.2 of RFC 6238) |
| `ResetTokens`, `ResetRaces`, `BackupCodes` | one-time secrets, and password resets that overlap |
| `RoleAssignments`, `Seeder` | permission and role seeding, and the role screen |
| `KnowledgeChunks` | cutting articles into chunks, and embedding them in batches |
| `SqlText`, `UserUpdate`, `FailedRecords` | statements built with numbered placeholders |
| `Dates` | working days and months |

Where the code and what it is meant to do part:

- `chunkText` never returns for a text longer than one chunk when chunks overlap: its `start` settles at
  `len - overlap` (or, for overlaps above half a chunk, can also fall below zero, where the slice fails). The only call
  passes an overlap of 200 with chunks of 2000, and the article at internal/chat/knowledge_seeder.go:202 is 2195 bytes
  long. Stopping when `end` reaches the end repairs it.
- A backup code is stored hashed with its dash and looked up without it, so none ever validates. Hashing one normal
  form gives codes that validate exactly once.
- After the timeout branch has sent 503 a late handler can still send its own status, because that branch does not set
  `wroteHeader`. Also, a panic before any status leaves the recover branch waiting for a mutex it already holds, so that
  request hangs and a timeout can no longer answer it. With the flag set by both branches, and the recover branch
  writing without locking again, at most one status is sent, and exactly one once the timeout branch has run. As
  written, two are sent exactly when the handler forwards after the 503 (`TwoStatusesExactly`), and a handler that has
  panicked can close its channel exactly when a status had been forwarded before (`PanicIsAnsweredExactly`).
- Two refresh tokens of one user generated in the same second are the same string. The second INSERT then fails on the
  unique fingerprint, id 0 is used as the replacement, the foreign key refuses it, and the old token stays live: the
  answer carries a string that was already stored. Rotation lemmas say what holds in both cases.
- Two refreshes of one token that are both admitted before either links it can leave two live tokens, whatever the
  token (`AnyAcceptedTokenCanFork`), also when one of them has already stored its successor
  (`StoredThenAdmittedForks`).
- Reuse detection and logout end every session, but a refresh of the same user that was admitted before can still
  store a new one. Nothing else brings a session back without a login (`SessionsReturnExactly`).
- A handler that links its successor more than 30 days late can find it deleted by cleanup, and leaves its own token's
  row live. Without overlap this is the only step after which a lineage can have two (`SecondSeatExactly`,
  `OldRowsCanStayLive`). That token's JWT expired long before.
- A password reset validates its token, writes the password and only then marks the token, and ignores a mark that
  fails. Two resets overlapping between these steps both succeed with one token; so does a reset after a failed mark
  (`SecondResetExactly`).
- Two creations of reset tokens for one user whose transactions overlap leave two unused tokens: at the default
  isolation level neither UPDATE meets the other's row (`SecondUnusedExactly`).
- Looking up a refresh token compares the error of a missing row with `sql.ErrNoRows`, which pgx v4 does not use
  (internal/auth/reset_token.go:140 compares with `pgx.ErrNoRows`). An unknown token is therefore answered as a failed
  lookup, status 500, and the branch that answers 401 for it is not reached.
- A cache fill reads user, role, permissions and organisation in four statements. Each field is a value the database
  held, but the role name can be one the user's role never had (`ServedRoleNameWasNeverTheUsers`). A fill that spans a
  write restores the earlier answer after the sweep (`SpanningFillServesOld`).
- Assigning an empty list of permissions clears a role on the role screen and leaves it alone in the seeder
  (`SeederAgreesWithScreenExactly`).

## Model

| member | source | states |
|---|---|---|
| RefreshProtocol.InvNext | api/handler/auth_handler.go:487-618 | every step of every handler keeps: ids unique and already handed out, rows matching the user and second of their token, no revocation time in the future, a replaced row revoked with a smaller id than its replacement, and every handler in flight matching the table |
| RefreshProtocol.RevocationIsPermanent | internal/auth/refresh_token_repository.go:117-148 | a revoked token is neither live nor accepted after any further steps, also when cleanup deletes its row, because its string can no longer be generated |
| RefreshProtocol.ReplacedRowsAreRevoked | api/handler/auth_handler.go:578-612 | in every interleaving a row with a replacement is revoked and its own id is smaller than the replacement's |
| RefreshProtocol.FollowingReplacementsTerminates | internal/auth/refresh_token_repository.go:117-134 | a chain of replacements never repeats a token, is shorter than the number of ids handed out, and only its end can be live |
| RefreshProtocol.ReuseTerminatesTheUser | api/handler/auth_handler.go:519-531 | the statement that reuse detection runs leaves its user no live token, and nothing the user held is accepted in any continuation |
| RefreshProtocol.RowExpiryNeverAnswers | api/handler/auth_handler.go:533-537 | the stored-row expiry check never answers: the JWT of a stored token has expired first |
| RefreshLineage.OneLiveTokenPerLineage | api/handler/auth_handler.go:578-612 | when refreshes of one token do not overlap and no handler links its live token to a successor that cleanup has deleted, with everything else and cleanup interleaved, two live tokens of any age descend from one login only while a handler stands between its INSERT and its link |
| RefreshLineage.OneRecentTokenPerLineage | api/handler/auth_handler.go:578-612 | without overlap, such late links included, the same holds of two tokens issued within the last 30 days |
| RefreshLineage.SecondSeatExactly | internal/auth/refresh_token_repository.go:117-134 | from every state of the protocol in which each lineage has at most one token live or being refreshed (tokens between INSERT and link apart), a step gives a lineage a second if and only if it is a late link while another token of that lineage is live or being refreshed |
| RefreshLineage.SeatedOnceExactly | api/handler/auth_handler.go:578-612 | so a run without overlap keeps one such token a lineage at every moment if and only if no step of it is such a link |
| RefreshLineage.RedeemedAtMostOnce | api/handler/auth_handler.go:578-612 | in every run without overlap no token is exchanged for a stored successor twice, and every row belongs to a login's lineage |
| RefreshLineage.OldRowsCanStayLive | internal/auth/refresh_token_repository.go:178-192 | a run without overlap that ends with a late link and two live rows of one lineage, one of them older than 30 days |
| RefreshHandler.RefreshTokenRepository.StoreRefreshToken | internal/auth/refresh_token_repository.go:38-68 | inserts the row, or stores nothing and returns id 0 when the fingerprint exists |
| RefreshHandler.RefreshTokenRepository.GetRefreshToken | internal/auth/refresh_token_repository.go:71-114 | the row of a fingerprint, or an error for a missing row, since the driver never reports the error the code takes for not found |
| RefreshHandler.RefreshTokenRepository.RevokeToken | internal/auth/refresh_token_repository.go:117-134 | marks the row revoked and replaced unless the replacement id violates the foreign key |
| RefreshHandler.RefreshTokenRepository.RevokeAllUserTokens | internal/auth/refresh_token_repository.go:137-148 | revokes exactly the user's live rows |
| RefreshHandler.RefreshTokenRepository.RevokeSessionByID | internal/auth/refresh_token_repository.go:263-283 | revokes that user's live row of that id, and reports whether there was one |
| RefreshHandler.RefreshTokenRepository.RevokeOtherSessions | internal/auth/refresh_token_repository.go:286-302 | revokes the user's live rows but the current one and counts them |
| RefreshHandler.RefreshTokenRepository.CleanupExpiredTokens | internal/auth/refresh_token_repository.go:179-192 | deletes exactly the rows expired or revoked over 30 days ago, clears references to them, and counts them |
| RefreshHandler.RefreshTokenRepository.GetSessionCount | internal/auth/refresh_token_repository.go:357-369 | the number of rows the session list shows |
| RefreshHandler.RefreshTokenHandler | api/handler/auth_handler.go:481-618 | the handler's table and answer are those of the machine's four steps run without interruption, for every token, account state and table |
| RefreshHandler.LogoutHandler | api/handler/auth_handler.go:748-753 | is the machine's logout step, after which the user has no live token |
| RefreshHandler.RefreshSwapsOneSession | api/handler/auth_handler.go:572-612 | an accepted refresh swaps the presented session for the new one, or, meeting its own second's token, changes nothing |
| RefreshHandler.RefreshConservesSessionCounts | api/handler/auth_handler.go:572-612 | an accepted refresh leaves every user's number of active sessions as it was |
| RefreshHandler.OtherUsersUntouched | api/handler/auth_handler.go:572-612 | a refresh changes no other user's sessions |
| RefreshHandler.ReplayRevokesAll | api/handler/auth_handler.go:519-531 | presenting a replaced token answers reuse detected and revokes every row of its user |
| RefreshHandler.ReplayEndsAllSessions | api/handler/auth_handler.go:519-531 | and no token of that user stored before is accepted after any further steps |
| RefreshAnswers.AnswersExactly | api/handler/auth_handler.go:481-618 | each answer of an undisturbed refresh exactly, from the token's age, its row's fields and the account; a new token has the presented one's user and organisation and the current second |
| RefreshAnswers.RefreshWrites | api/handler/auth_handler.go:572-612 | an accepted refresh inserts the new token's live row, revokes the presented row in favour of it and leaves every other row, or changes nothing if that string is stored |
| RefreshAnswers.RefusalsWrite | api/handler/auth_handler.go:519-531 | reuse detection revokes exactly the live rows of the token's user; every other refusal writes nothing |
| RefreshAnswers.MintStoresItsOwn | api/handler/auth_handler.go:572-586 | in every interleaving a refresh stores a token of the user and organisation of the one presented |
| RefreshAnswers.LoginStoresItsOwn | pkg/auth/jwt.go:112-130 | a login stores a live token of its own user and organisation, the first of a new lineage, unless that string is stored |
| RefreshAnswers.LineagesHaveOneOwner | api/handler/auth_handler.go:572-612 | in every run all tokens descended from one login have the same user and organisation |
| RefreshAnswers.SessionsEndExactly | internal/auth/refresh_token_repository.go:263-302 | logging out, revoking a session and revoking the others end exactly the addressed live rows |
| RefreshRaces.OverlappingRefreshesFork | api/handler/auth_handler.go:500-612 | from every state, two handlers admitted with one token have a continuation that leaves two distinct live tokens of its lineage |
| RefreshRaces.StoredThenAdmittedForks | api/handler/auth_handler.go:578-612 | in every reachable state in which one handler has stored a live successor and not linked it, and another is admitted with the same token, a continuation leaves that successor and a second live token of the lineage |
| RefreshRaces.AnyAcceptedTokenCanFork | api/handler/auth_handler.go:500-612 | in every reachable state every accepted token, presented twice before either handler goes on, can do so |
| RefreshRaces.EndingSessions | internal/auth/refresh_token_repository.go:137-148 | logout and reuse detection leave the user without a live token |
| RefreshRaces.SessionsReturnExactly | api/handler/auth_handler.go:519-612 | after that, without a new login, the user can have a live token again exactly when a refresh of that user admitted before is still in flight |
| RefreshCleanup.CleanupIsInvisible | internal/auth/refresh_token_repository.go:178-192 | a run with cleanup steps anywhere gives the same refresh answers and the same active sessions as the run without them |
| AuthCache.InvRun | api/middleware/jwt.go:85-130 | in every interleaving of fills, writers and evictions each field of each entry is what its own query read at its own moment, in order, and the user was active and unlocked |
| AuthCache.HitsAreRecent | api/middleware/jwt.go:42-83 | every field served on a hit is a value the database held at a moment less than 15 minutes plus that fill's read-to-SET delay before the hit, writers that do not invalidate included; the account read was active and unlocked |
| AuthCache.HitFields | api/middleware/jwt.go:42-130 | a hit of any run was read, in order, from the user's row of that organisation, active and unlocked, the name of its role and of the organisation, each at its own moment, and is served for 15 minutes after its SET |
| AuthCache.HitPermissions | api/middleware/jwt.go:113-125 | the permissions of a hit are the names of those the role had at their moment, one by one and in order, or none if the role had no row |
| AuthCache.RoleNameIsTheUsers | internal/user/repository.go:180-213 | the role name served is the user's at the moment it was read, if the user still had the role by then |
| AuthCacheFreshness.PatternSelectsItsScope | pkg/cache/cache.go:117-127 | the glob pattern or key a use case deletes matches exactly the keys of its organisation, its user, or its one key |
| AuthCacheFreshness.FreshAfterInvalidation | internal/role/usecase.go:214-219 | after a write that no fill of the scope spans and a sweep that meets the SCAN guarantee, every later hit in the scope was read after the write |
| AuthCacheFreshness.RolePermissionsAreServed | internal/role/usecase.go:198-221 | once a role's permissions are written and its organisation swept, every hit of a holder serves their names, one by one and in order, if all holders belong to that organisation |
| AuthCacheFreshness.ExcludedUserIsRefused | internal/user/usecase.go:198-207 | once a user is deactivated, locked or gone and the key is deleted, the user gets no hit while that lasts |
| AuthCacheFreshness.SpanningFillServesOld | api/middleware/jwt.go:85-130 | any fill in flight at the write can put the earlier answer back after the sweep, so the no-spanning condition is needed |
| AuthCacheFreshness.SweepIsExact | internal/role/usecase.go:218-219 | an undisturbed sweep ends the hits of its scope and no others: a holder from another organisation, or a user's entry under a former organisation, is still served |
| AuthCacheFreshness.ServedRoleNameWasNeverTheUsers | internal/user/repository.go:180-213 | a run after which a hit serves a role name the user had at no moment |
| AuthCacheHandlers.Cache.Get | pkg/cache/cache.go:32-47 | the unexpired entry, or a miss |
| AuthCacheHandlers.Cache.Set | pkg/cache/cache.go:51-60 | stores the entry with its time to live |
| AuthCacheHandlers.Cache.Del | pkg/cache/cache.go:64-71 | removes exactly the given keys |
| AuthCacheHandlers.Cache.DelByPattern | pkg/cache/cache.go:76-113 | the cursor loop removes only keys the pattern matches, among them all that were there before and are readable still at its last clock reading |
| AuthCacheHandlers.JWTMiddleware | api/middleware/jwt.go:40-153 | a request answers from the hit, or from the database and fills the cache, exactly as the machine's fill does |
| AuthCacheHandlers.MissAnswers | api/middleware/jwt.go:85-130 | a miss is answered from the rows alone: not found, deactivated, locked, or the names of the role's permissions, one by one and in order |
| AuthCacheHandlers.MissCaches | api/middleware/jwt.go:113-130 | and exactly that list, with the user, role and organisation as read, is cached for 15 minutes |
| AuthCacheHandlers.HitsAreServed | api/middleware/jwt.go:44-64 | in every reachable state the two 403 branches of the hit path are not taken |
| AuthCacheHandlers.UpdateUserStatus | internal/user/usecase.go:198-207 | toggles the addressed user and then deletes that user's key: the machine's write and sweep |
| AuthCacheHandlers.AssignPermissionsToRole | internal/role/usecase.go:198-221 | refuses a role of another organisation, stops without sweeping when the assignment fails, else writes and sweeps the organisation's pattern |
| AuthCacheHandlers.UpdatePassword | internal/user/usecase.go:245-252 | writes the password of a user not deleted and sweeps the user's pattern, or fails and does neither |
| AuthCacheHandlers.UseCaseMakesHitsFresh | internal/user/usecase.go:198-252 | after a use case's write and sweep, whatever runs later, hits in its scope were read after the write |
| CacheKeys.OrgPatternSelectsItsOrg | pkg/cache/cache.go:121-123 | over all decimal ids the organisation pattern matches a user's key exactly when the key is of that organisation |
| CacheKeys.UserPatternSelectsItsUser | pkg/cache/cache.go:125-127 | over all decimal ids the user pattern matches exactly that user's keys |
| CacheKeys.KeysAreDistinct | pkg/cache/cache.go:117-119 | different users or organisations have different keys |
| Decimal.PrintReadsBack | pkg/cache/cache.go:117-127 | integers printed with %d read back |
| Decimal.PrintedDigits | pkg/cache/cache.go:117-127 | a printed number ends in its last decimal digit, after what its other digits print, with a minus sign first |
| Lockout.UserRepository.IncrementFailedAttempts | internal/user/repository.go:909-925 | adds one to that row and returns the new count |
| Lockout.UserRepository.ResetFailedAttempts | internal/user/repository.go:928-942 | zeroes that row's count and nothing else |
| Lockout.UserRepository.LockAccount | internal/user/repository.go:945-960 | locks that row and nothing else |
| Lockout.UserRepository.UnlockAccount | internal/user/repository.go:963-979 | unlocks that row and zeroes its count |
| Lockout.LoginHandler | api/handler/auth_handler.go:303-374 | an undisturbed attempt changes the row and answers as the attempt rule says; each answer exactly, on the row's own fields: logged in if and only if the row exists, is active and unlocked and the password is right |
| Lockout.LockedExactlyAfterFiveFailures | api/handler/auth_handler.go:335-374 | since its last unlock an account is locked exactly when five wrong passwords came in a row |
| LockoutInterleaved.FiveFailuresAreBeingLocked | api/handler/auth_handler.go:335-347 | with overlapping handlers, five or more failures on an unlocked row mean some handler is about to lock it |
| LockoutInterleaved.GuessesAreBounded | api/handler/auth_handler.go:311-374 | until the next reset at most 4 + k wrong passwords are compared, k being the handlers in flight when the lock landed |
| LockoutInterleaved.LockHoldsUntilUnlocked | internal/user/repository.go:945-979 | only UnlockAccount lifts a lock |
| LockoutInterleaved.AloneIsAttempt | api/handler/auth_handler.go:303-374 | a handler nothing overlaps changes the row and answers as one attempt |
| LockoutInterleaved.LoggedInWasAdmitted | api/handler/auth_handler.go:303-374 | in every interleaving LoggedIn is answered only to a handler that began on an active, unlocked row and whose password was then compared and right |
| LockoutInterleaved.NobodyLogsInWhileLocked | api/handler/auth_handler.go:311-325 | from every state with a locked row, until it is unlocked, a handler that begins is refused at once and none that was not in flight already is ever answered LoggedIn |
| RateLimit.CheckRateLimit | api/middleware/rate_limit.go:87-151 | admits exactly without a live counter or with one below the limit, then counts, with the expiry set as the commands set it, writes nothing when it denies, and leaves other keys alone |
| RateLimit.ClearRateLimit | api/middleware/rate_limit.go:180-182 | the key is gone and others are not touched |
| RateLimit.EpochsLastOneToTwoWindows | api/middleware/rate_limit.go:103-150 | a counting epoch lasts at least one window and less than two, and a denied request leaves epoch, count and expiry as they are |
| RateLimit.WindowBound | api/middleware/rate_limit.go:87-151 | no interval of one window's length admits more than 2M - 2 requests for a limit M of two or more, or one otherwise |
| RateLimit.BoundIsReached | api/middleware/rate_limit.go:87-151 | for every limit some history reaches that bound |
| RateLimitInterleaved.CountersExpire | api/middleware/rate_limit.go:103-150 | in every interleaving a counter of two or more has an expiry or some request is about to run EXPIRE, also when the key expires between GET and INCR |
| RateLimitInterleaved.NobodyIsBlockedForever | api/middleware/rate_limit.go:103-150 | unless some request is about to run EXPIRE, a client that waits one window is admitted |
| RateLimitInterleaved.AloneIsCheck | api/middleware/rate_limit.go:87-151 | commands no other request falls between are one check |
| Blacklist.IssuedTokensAreLawful | pkg/auth/jwt.go:88-175 | no issued token of any of the three kinds outlives its issue by more than the seven days of a user mark; the kinds last 30 minutes, seven days and five minutes |
| Blacklist.TokenBlacklist.BlacklistToken | pkg/auth/blacklist.go:20-38 | marks the token until an hour past its expiry, or does nothing when that has passed |
| Blacklist.TokenBlacklist.BlacklistUserTokens | pkg/auth/blacklist.go:67-79 | sets or overwrites the user's mark with the current second for seven days |
| Blacklist.TokenBlacklist.ValidateTokenWithBlacklist | pkg/auth/jwt.go:58-86 | accepts exactly an unexpired token with neither mark; a user's mark covers tokens issued in an earlier second |
| Blacklist.BlacklistRefinesLedger | pkg/auth/jwt.go:58-86 | over every run, expiring marks accept and reject exactly as revocation records that never expire |
| Blacklist.RevokedNeverReturns | pkg/auth/blacklist.go:20-104 | a blacklisted token, or one issued in an earlier second than its user's mark, never validates again, across any number of later marks, until explicitly restored |
| TimeoutMiddleware.InvRun | api/middleware/timeout.go:92-145 | in every interleaving the mutex is held by whoever is inside it, and the flag and the statuses sent agree |
| TimeoutMiddleware.StatusesAsWritten | api/middleware/timeout.go:92-145 | the 503 goes out only before any handler status; at most one of each is sent; a timeout that ran to its end has left an answer |
| TimeoutMiddleware.NothingAfterTheHandler | api/middleware/timeout.go:124-143 | once a handler status was forwarded the timeout branch sends nothing |
| TimeoutMiddleware.StatusesAreTheirOwn | api/middleware/timeout.go:118-198 | in every interleaving the timeout branch sends 503 and nothing else, and the handler's thread only statuses it was given |
| TimeoutMiddleware.InPeace | api/middleware/timeout.go:92-145 | an undisturbed handler's status goes out and it is seen to be done; one that never writes is answered for with 503 |
| TimeoutMiddleware.TwoStatusesExactly | api/middleware/timeout.go:124-187 | as written, over every run two statuses go out if and only if at some step the handler forwards with the flag unset after the timeout branch has ended |
| TimeoutMiddleware.OneStatusUnlessEnteredLate | api/middleware/timeout.go:124-198 | a handler that does not enter WriteHeader or Write after the timeout branch has ended leaves one status at most |
| TimeoutMiddleware.EnteringLateSendsASecond | api/middleware/timeout.go:124-187 | from every reachable state after a 503 alone, entering and forwarding sends the second status |
| TimeoutMiddleware.TwoStatusesAsWritten | api/middleware/timeout.go:124-143 | a run from the start that sends 503 and then the handler's status |
| TimeoutMiddleware.OneStatusWhenCorrected | api/middleware/timeout.go:92-145 | with the flag set by both branches at most one status is sent, and exactly one after a timeout |
| TimeoutMiddleware.PanicBeforeHeaderHangs | api/middleware/timeout.go:100-114 | as written, a panic before any status leaves the handler stuck for ever, and an unfinished timeout branch never answers |
| TimeoutMiddleware.PanicIsAnsweredExactly | api/middleware/timeout.go:102-116 | as written, from every state in which the handler has panicked, some continuation closes its channel if and only if a status had been forwarded before |
| TimeoutMiddleware.PanicCanComeFirst | api/middleware/timeout.go:102-116 | a run that stands in the recover branch with no status forwarded |
| TimeoutMiddleware.PanicIsAnsweredWhenCorrected | api/middleware/timeout.go:102-116 | corrected, a panic before any status is answered with 500 and the handler returns |
| TimeoutMiddleware.TimeoutResponseWriter.WriteHeader | api/middleware/timeout.go:178-187 | forwards the first status only |
| TimeoutMiddleware.TimeoutResponseWriter.Write | api/middleware/timeout.go:189-198 | forwards 200 when no status was forwarded |
| TimeoutMiddleware.TimeoutForRoute | api/middleware/timeout.go:151-169 | the exact route, else the longest matching prefix, else the default, in whatever order the map is walked |
| TimeoutMiddleware.LongestPrefixIsUnique | api/middleware/timeout.go:159-166 | so the answer does not depend on that order |
| Totp.Truncated | internal/auth/totp.go:129-131 | for every 20-byte MAC the masked big-endian word is the number of section 5.3 of RFC 4226, without leaving the MAC |
| Totp.MasksAreRemainders | internal/auth/totp.go:130-131 | the two masks are remainders on 32-bit words, as Truncated takes them |
| Totp.GenerateHOTP | internal/auth/totp.go:119-140 | the truncated number modulo ten to the sixth |
| Totp.GenerateTOTP | internal/auth/totp.go:86-100 | the six-digit code of the period's counter, or an error for an undecodable secret |
| Totp.ValidateTOTP | internal/auth/totp.go:103-116 | accepts exactly the codes of the three neighbouring periods, and nothing for an undecodable secret |
| Totp.CounterIsTheFloor | internal/auth/totp.go:93-94 | the counter is the number of whole periods since the epoch, as section 4.2 of RFC 6238 has it |
| Totp.CounterWraps | internal/auth/totp.go:93-94 | before the epoch the conversion to an unsigned number adds two to the 64th |
| Totp.CounterBytesAreInjective | internal/auth/totp.go:120-122 | different counters are different messages to the MAC |
| Totp.CounterMessage | internal/auth/totp.go:120-122 | the message is the counter's eight bytes, the most significant first |
| Totp.SixDigits | internal/auth/totp.go:99-99 | every code is printed as exactly six digits that read back as the code |
| Totp.CodeIs | internal/auth/totp.go:119-140 | the printed code reads as the four bytes at the offset of the MAC of the counter's message, without the top bit, modulo a million |
| Totp.CheckedExactlyInWindow | internal/auth/totp.go:103-116 | counter c is checked exactly from second 30(c-1) up to 30(c+2), over all 64-bit times |
| Totp.AcceptedExactlyInWindow | internal/auth/totp.go:103-116 | a counter's code is accepted exactly in that time, or when another checked counter has the same code |
| Totp.CodesCollideExactly | internal/auth/totp.go:119-140 | two MACs print the same code exactly when their truncations agree modulo a million |
| ResetTokens.ResetTokenService.CreateResetToken | internal/auth/reset_token.go:66-120 | supersedes the user's unused tokens and inserts the new one, or changes nothing on a duplicate hash |
| ResetTokens.ResetTokenService.ValidateResetToken | internal/auth/reset_token.go:123-158 | the user of an unused, unexpired row, else which error |
| ResetTokens.ResetTokenService.MarkTokenAsUsed | internal/auth/reset_token.go:161-179 | marks the row used, and reports whether it was unused |
| ResetTokens.ResetTokenService.CleanupExpiredTokens | internal/auth/reset_token.go:182-194 | deletes exactly the rows expired before the cutoff and counts them |
| ResetTokens.ResetTokensRefineLedger | internal/auth/reset_token.go:88-179 | over every run a token validates for a user exactly when it is that user's latest, not marked used and unexpired |
| ResetTokens.OneUnusedTokenPerUser | internal/auth/reset_token.go:88-120 | no user ever has two unused tokens, if creations take effect one after another |
| ResetTokens.ConsumedNeverValidatesAgain | internal/auth/reset_token.go:123-179 | a used or superseded token validates at no later time |
| ResetRaces.InvNext | api/handler/password_reset_handler.go:269-306 | every step of creations and resets keeps: a redeemed token with an unused row is about to be marked or its mark has failed, and a pending creation's token is nowhere yet |
| ResetRaces.SecondResetExactly | api/handler/password_reset_handler.go:269-306 | from every reachable state, a token that has changed a password changes one again in some continuation if and only if a handler admitted with it is in flight or its row still validates, its user not being deleted; and its row still validates only between a handler's write and its mark, or after a failed mark |
| ResetRaces.MarkedIsSpent | internal/auth/reset_token.go:161-179 | once every handler of a redeemed token has finished and marked it, it changes no password in any continuation |
| ResetRaces.OverlappingResetsBothSucceed | api/handler/password_reset_handler.go:269-306 | from every state, two handlers admitted with one validating token both change the password, and the later one stands |
| ResetRaces.ResetAtMostOnce | api/handler/password_reset_handler.go:269-306 | when handlers of one token do not overlap and no mark fails, no token changes a password twice in any run |
| ResetRaces.ResetPasswordHandler | api/handler/password_reset_handler.go:241-306 | a handler nothing overlaps is the machine's three steps; it reports success exactly when the token validates and its user is not deleted, also when the mark fails |
| ResetRaces.UserRepository.UpdatePassword | internal/user/repository.go:627-640 | writes the password of a user not deleted, or reports that there is none |
| ResetRaces.AloneIsCreated | internal/auth/reset_token.go:88-120 | a creation nothing overlaps is the transaction that ResetTokens takes it for |
| ResetRaces.SecondUnusedExactly | internal/auth/reset_token.go:88-120 | from every state with one unused token a user, a step leaves some user two if and only if it commits a creation whose UPDATE did not meet an unused token of its user |
| ResetRaces.OneUnusedWhenSerial | internal/auth/reset_token.go:88-120 | when creations of one user do not overlap no user has two unused tokens in any run |
| ResetRaces.OverlappingCreatesLeaveTwo | internal/auth/reset_token.go:88-120 | from every reachable state, two overlapping creations of one user leave exactly their two tokens unused |
| BackupCodes.GenerateBackupCode | internal/auth/totp.go:270-285 | four characters, a dash and four characters of the charset, chosen by the random bytes |
| BackupCodes.BackupCodeTable.GenerateBackupCodes | internal/auth/totp.go:228-267 | replaces the user's rows by ten new ones and returns their codes |
| BackupCodes.GeneratedRows | internal/auth/totp.go:228-267 | exactly the other users' rows stay, followed by one unused row for each code with its hash |
| BackupCodes.BackupCodeTable.ValidateBackupCode | internal/auth/totp.go:288-305 | the loop over the rows succeeds exactly when an unused row of the user has the hash of the dashless input; afterwards no spelling of that input validates for the user, and no other row has changed |
| BackupCodes.BackupCodeTable.DeleteBackupCodes | internal/auth/totp.go:197-201 | exactly the other users' rows remain, so no input validates for the user |
| BackupCodes.NoCodeEverValidatesAsWritten | internal/auth/totp.go:228-305 | with an injective hash no input validates for any user in any reachable state |
| BackupCodes.EitherSpelling | internal/auth/totp.go:284-291 | a code typed with or without its dash has one normal form |
| BackupCodes.EachCodeValidatesOnceWhenCorrected | internal/auth/totp.go:228-305 | when the normal form is hashed, an input validates exactly when it spells one of the user's latest codes and no spelling of it was validated since |
| RoleAssignments.ReplacementsAgree | internal/role/repostory.go:316-342 | diffing, clearing then inserting, and deleting extras then inserting leave the role exactly the wanted permissions and every other role its own |
| RoleAssignments.SeederAgreesWithScreenExactly | internal/seeder/role_permissions.go:99-102 | seeder and role screen differ exactly on emptying a role that holds something |
| RoleAssignments.ReplacedHolds | internal/seeder/role_permissions.go:150-179 | by name, the role then holds exactly the wanted names |
| RoleAssignments.PermissionsConverge | internal/seeder/permissions.go:158-227 | from any database the permissions become exactly the declared ones with their descriptions, kept ones keep their ids, and each role loses exactly the obsolete ones |
| RoleAssignments.PermissionsSeededTwice | internal/seeder/permissions.go:158-227 | a second run changes no row |
| RoleAssignments.AutoSeedConverges | internal/seeder/auto.go:17-36 | from any database, system roles of the listed organisations hold exactly the declared names of their prefix, other roles what they held less obsolete permissions, and no role row is lost or changed |
| RoleAssignments.SystemRolesHold | internal/seeder/role_permissions.go:24-41 | after start-up seeding, in each organisation listed SuperAdmin holds a permission exactly when it is declared and begins with "admin.", OrgsAdmin exactly when it is declared and begins with "tenant."; an older role keeps what it held if no declared name begins so |
| RoleAssignments.DescribedAsDeclared | internal/seeder/permissions.go:158-227 | each permission row is described as the last declaration of its name says |
| RoleAssignments.AutoSeedTwice | internal/seeder/auto.go:17-36 | a second start changes no row of any table |
| RoleAssignments.NewOrganisationIsSeededAlike | internal/seeder/org_defaults.go:24-105 | for an organisation without system roles the new-organisation seeder leaves the same database as SeedRoles and a succeeding SeedRolePermissions if and only if the permission rows of the two prefixes are the declared ones |
| RoleAssignments.DeclaredRowsSeedAlike | internal/seeder/org_defaults.go:24-105 | so the two agree once the permissions have been seeded |
| RoleAssignments.DefaultsHold | internal/seeder/org_defaults.go:24-105 | in any database the new-organisation seeder gives SuperAdmin every permission row that begins with "admin." and OrgsAdmin every one that begins with "tenant.", on top of what they held, and changes no other role or assignment |
| Seeder.SeedManager.SeedPermissions | internal/seeder/permissions.go:158-227 | computes the seeded permissions, in whatever order the map of existing names is walked |
| Seeder.SeedManager.SeedRoles | internal/seeder/roles.go:24-71 | adds exactly the missing system roles |
| Seeder.SeedManager.UpdateRolePermissions | internal/seeder/role_permissions.go:99-182 | succeeds exactly when the list is empty or role and names exist, replaces the role's permissions in whatever order maps are walked, and counts what it added and removed; a failure has added only wanted permissions, to that role only |
| Seeder.SeedManager.AssignPermissionsToRole | internal/seeder/role_permissions.go:54-96 | the same by clearing first; a missing name leaves the role cleared |
| Seeder.SeedManager.SeedRolePermissions | internal/seeder/role_permissions.go:12-51 | sorts the declared names by prefix and updates both roles in either order; succeeds exactly when each role with names to hold exists and the names have rows; a failure leaves the first role updated or partly added to, and at most the second partly added to |
| Seeder.SeedManager.SeedOrgDefaults | internal/seeder/org_defaults.go:24-105 | creates or resets the two roles and grants each every permission row of its prefix |
| Seeder.SeedManager.AutoSeed | internal/seeder/auto.go:17-36 | always succeeds and leaves the seeded database |
| Seeder.RolesSeedInAnyOrder | internal/seeder/role_permissions.go:37-41 | the order in which the two roles are updated does not matter |
| Seeder.RoleRepository.AssignPermissionsToRole | internal/role/repostory.go:287-345 | ignores ids of zero or less and repeats; then all wanted ids or, if the role or any permission is missing, no change at all |
| KnowledgeChunks.ChunkText | internal/chat/knowledge_seeder.go:66-92 | as written, under exactly the condition that its loop ends, returns the chunks of the text |
| KnowledgeChunks.LoopEndsExactlyWithoutOverlap | internal/chat/knowledge_seeder.go:72-90 | on a longer text the written loop ends exactly when there is no overlap, for overlaps of any size |
| KnowledgeChunks.StuckBeforeTheEnd | internal/chat/knowledge_seeder.go:72-90 | with an overlap of at most half a chunk its start settles at len - overlap for ever |
| KnowledgeChunks.ChunkTextCorrected | internal/chat/knowledge_seeder.go:66-92 | stopping at the end of the text, the loop ends for every overlap up to half a chunk |
| KnowledgeChunks.ChunksAreSized | internal/chat/knowledge_seeder.go:72-90 | no chunk is too long, none but the last is at most half as long, and each begins with the end of the one before |
| KnowledgeChunks.ChunksRebuildTheText | internal/chat/knowledge_seeder.go:72-90 | dropping each later chunk's overlap gives the text back |
| KnowledgeChunks.ChunksEndAtSentences | internal/chat/knowledge_seeder.go:78-84 | a chunk that is not the last ends at the last sentence end in the second half of its window, if there is one |
| KnowledgeChunks.ChunksEndAtTheLimit | internal/chat/knowledge_seeder.go:78-84 | and if there is none it has the full length |
| KnowledgeChunks.ChunksAreUnique | internal/chat/knowledge_seeder.go:66-92 | the text determines its chunks |
| KnowledgeChunks.SeedGlobalKnowledge | internal/chat/knowledge_seeder.go:18-63 | as written, when it returns: every article's chunks are inserted in order with their indices, each with the embedding of its own text, whatever the batches |
| KnowledgeChunks.SeedGlobalKnowledgeCorrected | internal/chat/knowledge_seeder.go:18-63 | the same for articles of any length, with the corrected chunking |
| KnowledgeChunks.RowsAreTheChunks | internal/chat/knowledge_seeder.go:24-40 | each chunk of each article is one row, in order, with the article's title and category, the chunk and its number |
| KnowledgeChunks.SeedingReturnsExactly | internal/chat/knowledge_seeder.go:24-25 | the written chunking of every article ends if and only if every article fits in one chunk |
| KnowledgeChunks.EmbedInBatches | internal/chat/knowledge_seeder.go:42-55 | batches of 50 give every text its own embedding |
| SqlText.ScanNext | internal/importlog/repository.go:64-65 | reading generated text finds each placeholder, its number and the text before it |
| UserUpdate.UserTable.UpdateUserPartial | internal/user/repository.go:642-727 | executing the generated text with its arguments sets exactly the supplied columns and updated_at on the addressed row; the four errors, each exactly characterised, change nothing |
| UserUpdate.ViolatesExactly | db/migrations/000007_create_users_table.up.sql:4-17 | the updated table keeps its constraints exactly when the new e-mail address is no other row's and the new role and organisation exist |
| UserUpdate.UpdatedRow | internal/user/repository.go:647-692 | column by column the updated row has the caller's value where one was given and the old one otherwise, `updated_at` is the time of the update, and every other column is as it was |
| UserUpdate.QueryUpdatesFields | internal/user/repository.go:694-704 | interpreting the statement's text and arguments assigns each clause's column its own argument, on the row of the last one |
| UserUpdate.SuppliedExactly | internal/user/repository.go:647-681 | a column is written exactly when the caller supplied it |
| FailedRecords.ImportLog.CreateFailedRecords | internal/importlog/repository.go:51-88 | for any number of records the placeholders are 1 to 9n, each once and in order, and the statement inserts the records' columns in order, or inserts nothing; it succeeds exactly when there are at most 7281 records and each names an existing session and organisation |
| FailedRecords.ScanRows | internal/importlog/repository.go:62-65 | the placeholders read from the joined row texts |
| FailedRecords.RowsReadBack | internal/importlog/repository.go:66-77 | decoding the placeholders with the arguments gives the records in order |
| FailedRecords.RowsAreTheRecords | internal/importlog/repository.go:66-82 | a record's row holds its nine values in the order of the statement's column list, NULL for an empty column name or value and for no existing record |
| Dates.WorkingDaysBetween | pkg/customdatatype/date.go:101-120 | the day-by-day count is the number of working days in the half-open interval, with its closed form |
| Dates.WholeWeeks | pkg/customdatatype/date.go:101-120 | any whole number of weeks holds five working days each |
| Dates.MonthsBetween | pkg/customdatatype/date.go:144-161 | orders the dates first and counts months |
| Dates.MonthsAreWhole | pkg/customdatatype/date.go:144-161 | the count is the greatest number of whole months that does not pass the later date, is never negative, and does not depend on which date comes first |

## Left out

- HTTP parsing, JSON, routing, e-mail, exports, uploads, OpenAI and the frontend: wrappers over libraries.
- Cryptography, randomness and base32: parameters, as said above.
- Database and Redis failures other than violated constraints and a failing mark of a reset token, the circuit breaker and the retry package. The limiter and the blacklist then answer with an error; the code's own fallbacks are not modelled.
- Refresh tokens: checking the JWT and reading its row is one step, and so is generating a token and inserting its row; each statement reads the clock when it runs. `UpdateSessionActivity` has no caller. Deleting a user's row deletes the user's refresh tokens (db/migrations/000012_create_refresh_tokens.up.sql, ON DELETE CASCADE); that is not a step of RefreshProtocol.
- RefreshCleanup.CleanupIsInvisible: covers refresh answers and session lists; the row counts that session revocation reports can see that a row was deleted.
- RateLimit.WindowBound: takes a positive window; with a window of zero Redis keeps the counter for ever.
- AuthCacheHandlers.Cache.DelByPattern: nothing else changes the keys during its loop, and a slot of the key space is scanned as one batch; overlapping deletions and fills are covered by the machine, which assumes only that a key readable throughout a sweep is in some batch.
- AuthCacheHandlers.AssignPermissionsToRole: the repository's transaction is modelled by Seeder.RoleRepository.AssignPermissionsToRole; here its outcome is a parameter. Audit records are not modelled.
- Soft deletion sets a column that a cache fill does not read, so for the auth cache it is no change at all.
- The blacklist's statistics and its empty cleanup function.
- OTP codes by e-mail and SMS: the same pattern as reset tokens, per user and method.
- ResetTokens.OneUnusedTokenPerUser: assumes that creations are serialised, which the default isolation level of the transaction does not give; ResetRaces.SecondUnusedExactly says exactly when two tokens stay unused.
- ResetTokens.ResetTokensRefineLedger: creations are single steps, as there; tokens are taken to be issued once each, as 256 random bits are, and cleanup to be given a non-negative age.
- KnowledgeChunks.RowsAreTheChunks: a row's source id, a slug of the title, is not modelled.
- KnowledgeChunks.ChunkText: chunk sizes below one, for which the source loops or fails, and negative overlaps, which skip text, are excluded.
- KnowledgeChunks.ChunkTextCorrected: overlaps above half a chunk are excluded; the repaired loop need not advance then.
- ResetRaces: row locks, which only delay a step; deleting a user's row, which also deletes the user's reset tokens; the foreign key of a creation's user, whom the callers have just read; the test of the password's strength and its hashing, which are parameters.
- UserUpdate.UserTable.UpdateUserPartial: white space and the RETURNING list of the statement, and column types and lengths, are not modelled.
- FailedRecords.ImportLog.CreateFailedRecords: the table's generated id column and column lengths are not modelled. The statement names a column existing_employee_id that no migration in the repository declares (db/migrations/000026_create_import_logs.up.sql); the table is taken to have it, without a foreign key.
- Seeder, Lockout, Blacklist and BackupCodes: foreign keys to users and organisations, whose rows the callers have just read.
- Seeder: the default organisation and user, and the log output. Role and permission rows carry no timestamps.
- Dates: no time zones; `DifferenceInDays` is a subtraction.
- Plain lookups, page counts, status helpers and similar: easy members only.
