# Token authority of the vault daemon, verified

The vault daemon decides who may decrypt what. Its token authority is an
in-memory store of tokens and roles with two redundant token indexes, a cache
of per-user rate limiters derived from role text, and a debounced protocol that
writes the store to two files. The RPC handlers on top of it select the best
scores and open metadata envelopes. This project models that authority and
proves what it promises, or exactly when it keeps the promise.

How the files fit together:

- `Strings`, `Dates`, `RateText`: sorted key enumeration, date and lifetime
  arithmetic, and the rate-limit text.
- `TokenStore` gives each operation as a function on the store's value, with the
  store invariant; `StoreRuns` runs them in any sequence (a locked section holds
  the store's mutex, so a concurrent run is such a sequence); `StoreEffects`
  composes them with a later validation; `Documents` loads and persists.
- `SlidingWindow` says what the limiter decides and compares it with a reference
  that never forgets; `Limiter` is the limiter object over Go slices (a backing
  array and a length, shared by no two clients and no two limiters); `Store` is
  the store object, whose methods are proved equal to the functions of
  `TokenStore`, `StoreRuns` and `Documents`.
- `PersistControl` is the timer control object; `PersistProtocol` the
  small-step system of mutators, timers, callbacks, `Flush` and `Shutdown`;
  `Restart` joins it with the store's operations and the documents.
- `Admission` splits validation at its unlock and bounds what can be disclosed
  while other operations interleave; `DisclosureExact` shows when that bound
  covers the requests already in flight, and that it fails otherwise.
- `TopK`, `Base64`, `Metadata`, `Handlers`: score selection, the envelope codec
  and the two decrypting handlers.

Assumptions, stated once:

- A generated token string is new to the process (`Legal`, `FreshGens`). The
  generator's outcome, the clocks, file contents, decrypted score matrices and
  the random IV are arguments.
- Records handed to callers are not changed outside the store. Role objects are
  shared, and an edit shows through them.
- The limiter's clock is read before its mutex is taken. Where a claim needs
  calls in time order it says so (`Nondecreasing`); `DecisionForAnyClock` says
  what happens without it, `DisagreesExactly` when that departs from the rule,
  and `OutOfOrderExceeds` that it can on every valid window.

Where the code falls short of its comments, the model follows the code:

- `Flush` says it forces any pending persist to run. It does exactly under the
  condition of `FlushCompleteIff`; a late callback can clear a newer timer's
  handle and `Flush` then returns with changes unread (`FlushCanReturnEarly`).
- `Shutdown` says it waits for in-flight writes. A callback past its closed
  check but not yet counted writes after `Shutdown` has returned
  (`ShutdownCanReturnEarly`); `ShutdownCompleteIff` says when that cannot happen.
- Overlapping `doPersist` calls can leave an older state in the files
  (`OverlapKeepsOldState`); `SettlesIff` says when they do not.
- A rotation whose generation fails has already dropped the record, and this is
  the one change that schedules no persist (`UnscheduledChange`). After a
  quiescent moment with successful writes that did not overlap it is the only
  thing a restart gets wrong (`RestartFindsCurrentState`, `LostRotationRevived`).
- A rate-limit window above 9223372036 seconds passes validation and wraps, at
  first to a negative one, which switches the limiter off (`RateRoundTrip`,
  `WrappedTextAdmitsAll`).
- An expiry past year 9999 prints but does not parse: the token never expires
  and its next rotation blanks the field (`LostExpiry`).
- With no capacity the retry hint is 0 seconds and never right
  (`NoCapacityNeverAdmits`).
- A request in flight across a rotation keeps the old limiter
  (`InFlightOutlivesReset`) and the role object it was given, edited in place or
  deleted. `DisclosureBound` therefore says from which request on it counts, and
  `DisclosureExact` when it can count them all.

## Model

| member | source | states |
|---|---|---|
| StoreRuns.ReachableInv | vault/internal/tokens/store.go:158-434 | In every state any sequence of store operations reaches, the two token indexes are mutual inverses, keys match record fields, both default roles exist and every cached limiter belongs to a live token and carries its role's current limit |
| StoreRuns.LookupIgnoresCache | vault/internal/tokens/store.go:158-206 | In a reachable state the locked part of Validate grants exactly live, unexpired tokens on an existing role with parsable text, with that text's limit, as if there were no limiter cache |
| StoreRuns.WhatKillsAToken | vault/internal/tokens/store.go:208-296 | A live token string becomes unknown exactly by revoking or rotating its owner |
| StoreRuns.DeadTokensStayDead | vault/internal/tokens/store.go:158-316 | A token string once removed is refused as not found by every later Validate of the process |
| StoreRuns.RoleReferencesNeverDangle | vault/internal/tokens/store.go:362-434 | If every token's role exists, no run leaves a token of either index naming a missing role, and admin and member stay |
| StoreRuns.DeleteRoleNeedsAgreement | vault/internal/tokens/store.go:415-434 | With a record in one index only, DeleteRole can remove a role that a valid token names |
| StoreRuns.OtherRecordsUntouched | vault/internal/tokens/store.go:158-434 | No operation changes the record or token string of a user it is not about |
| StoreRuns.CacheResets | vault/internal/tokens/store.go:208-434 | A revocation or rotation drops exactly its user's limiter, also when generation fails; a rate-limit edit that goes through exactly those of the role's holders; any other administrative operation none |
| StoreRuns.UnscheduledChange | vault/internal/tokens/store.go:208-434 | A persistent change goes unscheduled exactly when a rotation drops a record and then fails to generate |
| StoreRuns.ScheduledChange | vault/internal/tokens/store.go:208-434 | An operation that schedules a persist went through and, apart from a role edit, changed what is persisted |
| StoreRuns.RotateEachState | vault/internal/tokens/store.go:298-316 | Whichever generation fails first: only that user loses its record, users not reached keep record and limiter, roles of users stay, exactly the reached limiters go |
| StoreRuns.RotateEachReturns | vault/internal/tokens/store.go:298-316 | The returned records are those of the rotated users in order, each now the user's record with its old role, and the error is set exactly on an early stop |
| StoreRuns.RotateAllComplete | vault/internal/tokens/store.go:298-316 | Undisturbed and with generation succeeding: one record per user in ascending order, same user-to-role map, every earlier token string unknown, no limiter left |
| StoreEffects.IssuedTokenValidates | vault/internal/tokens/store.go:208-236 | An added token validates as its user and role through its last day and never after, unless its expiry year has more than four digits |
| StoreEffects.AddedRoleUsable | vault/internal/tokens/store.go:362-376 | AddRole succeeds exactly on a parsable limit and a free name and adds only that role; a token issued under it validates at once with the scope, TopK and limit given |
| StoreEffects.RotatedTokenValidates | vault/internal/tokens/store.go:256-296 | After a rotation the old string is unknown, and the new one validates as the same user and role exactly while the role exists with a parsable limit and the carried lifetime, counted from the rotation, lasts |
| StoreEffects.RotateTokenKeepsLifetime | vault/internal/tokens/store.go:263-290 | Rotation keeps the lifetime, clamped to 106751 days, exactly when the new expiry has a four-digit year |
| StoreEffects.EditedRoleSeen | vault/internal/tokens/store.go:384-413 | After a rate-limit edit every holder's next validation sees the edited record and a fresh limiter with the new limit |
| StoreEffects.DeleteRoleExact | vault/internal/tokens/store.go:415-434 | DeleteRole succeeds exactly on an existing, non-default role that no token of either index names |
| StoreEffects.RefusalIs | vault/internal/tokens/store.go:158-206 | Which error each token string gets in a reachable state: expired, unknown or on a missing role, or on an unparsable limit |
| StoreEffects.AddTokenIs | vault/internal/tokens/store.go:208-236 | AddToken succeeds exactly for an existing role, a user without a token and a generated string, else changes nothing; the record has today's issue date and the lifetime asked for |
| StoreEffects.IssuedThenRotated | vault/internal/tokens/store.go:208-296 | A token issued for n days has, after a rotation, that day's issue date and n days again, up to 106751 |
| StoreEffects.RevokeTokenIs | vault/internal/tokens/store.go:238-254 | RevokeToken answers whether the user had a token and removes exactly that record from both indexes |
| StoreEffects.RotateTokenIs | vault/internal/tokens/store.go:256-296 | RotateToken succeeds exactly for a user with a token and a generated string; the record keeps user and role and has today's issue date, and no expiry if its lifetime was unreadable |
| StoreEffects.UpdateRoleIs | vault/internal/tokens/store.go:384-413 | UpdateRole succeeds exactly on an existing role with a parsable new limit, sets the given fields, keeps the others and touches nothing else |
| TokenStore.DefaultsAllow | vault/internal/tokens/role.go:45-62 | The default roles allow 150 and 30 requests a minute and 50 and 10 entries |
| TokenStore.DefaultsAre | vault/internal/tokens/role.go:45-66 | The default roles are exactly admin and member, under their own names |
| TokenStore.DefaultScopes | vault/internal/tokens/role.go:45-62 | A member may make every call an admin may, except managing tokens |
| Store.Store.AddToken | vault/internal/tokens/store.go:208-236 | The object's new state and result are those of the specification, and one persist is scheduled on success |
| Store.Store.RevokeToken | vault/internal/tokens/store.go:238-254 | As specified; the dropped limiter has forgotten the user |
| Store.Store.RotateToken | vault/internal/tokens/store.go:256-296 | As specified, including the branch where generation fails after the record is gone |
| Store.Store.RotateAllTokens | vault/internal/tokens/store.go:298-316 | The loop over the sorted snapshot equals RotateEach on the ascending users |
| Store.Store.Validate | vault/internal/tokens/store.go:158-184 | Refusals as specified use no slot; otherwise the limiter's decision, one slot exactly on acceptance, the retry hint on denial, acceptance exactly when history allows on calls in time order, and no other user's limiter touched |
| Store.Store.UpdateRole | vault/internal/tokens/store.go:384-413 | The role object is edited in place and its holders' limiters dropped, as specified |
| Store.Store.DeleteRole | vault/internal/tokens/store.go:415-434 | As specified; the user in the message is a holder |
| Store.Store.LoadFromFiles | vault/internal/tokens/store.go:47-138 | The loaded state, success and scheduling are those of the specification for every combination of missing, unreadable and unparsable files |
| Store.Store.BuildDocuments | vault/internal/tokens/store.go:512-556 | The documents doPersist builds from the maps, independent of map iteration order |
| Strings.SortedKeys | vault/internal/tokens/store.go:299-305 | Keys collected in any iteration order and sorted give one sequence |
| Strings.AscendingUnique | vault/internal/tokens/store.go:300-305 | Two ascending sequences of the same strings are equal |
| Strings.LessIs | vault/internal/tokens/store.go:300-305 | One string is before another exactly when they share a prefix after which the first ends or has the smaller character |
| Documents.LoadedInvIff | vault/internal/tokens/store.go:90-131 | A freshly loaded store satisfies the invariant exactly when each entry is the last with its token string iff it is the last with its user |
| Documents.LoadOutcome | vault/internal/tokens/store.go:47-138 | A load fails exactly on an unreadable or unparsable file, and a successful one schedules a persist exactly when a file was missing; a failing roles file changes nothing, a missing one puts the default roles in place |
| Documents.LoadedRecord | vault/internal/tokens/store.go:97-121 | A loaded entry is found under its token string and its user, with `issued_at` as issue date where it has one and `created` where it has not |
| Documents.PersistThenLoad | vault/internal/tokens/store.go:45-138 | Loading what doPersist wrote gives the same records under both indexes and the same roles up to the stated defaults |
| Documents.RestartIdempotent | vault/internal/tokens/store.go:508-564 | The normalisation keeps the invariant and a second restart changes nothing |
| Documents.PersistedDistinct | vault/internal/tokens/store.go:535-555 | The persisted entries have distinct users and distinct token strings |
| Documents.PersistedEntries | vault/internal/tokens/store.go:531-556 | The tokens document has each user once, in ascending order, each field of the record under its own name |
| Documents.PersistedRolesDoc | vault/internal/tokens/store.go:512-529 | The roles document has exactly the store's roles with their fields unchanged |
| Dates.CarriedIsClamped | vault/internal/tokens/store.go:263-271 | The saturating subtraction and truncation carry the lifetime clamped to 106751 days either way |
| Dates.RotationsKeepLifetime | vault/internal/tokens/store.go:256-296 | Any number of rotations leave the once-clamped lifetime as long as every expiry written has a four-digit year, and none from the first that has not |
| Dates.LostExpiry | vault/internal/tokens/token.go:19-29 | Past that year the token never expires and the next rotation blanks the expiry |
| Dates.ExpiredIs | vault/internal/tokens/token.go:19-29 | A token is expired exactly when its field is a four-digit-year date before today |
| Dates.UnreadableExpiry | vault/internal/tokens/store.go:263-290 | A field that is no such date never expires, and a rotation blanks it |
| RateText.MatchExact | vault/internal/tokens/role.go:17-25 | The pattern's submatches are found exactly when the text is digits, slash, digits, s, and are unique |
| RateText.ValidatedIffParsable | vault/internal/tokens/role.go:38-43 | validateRateLimit accepts exactly the texts RateLimitParsed parses |
| RateText.RateRoundTrip | vault/internal/tokens/role.go:19-27 | Printing and parsing a limit returns it exactly when the count is below 2^63 and the window at most 9223372036 seconds |
| RateText.DecimalIs | vault/internal/tokens/role.go:24-25 | The digits are read as decimal notation, leading zeros included |
| SlidingWindow.LimiterRefinesHistory | vault/internal/tokens/ratelimit.go:26-45 | On calls in time order the pruned list gives the answers of a reference that keeps every acceptance, storing at most max timestamps |
| SlidingWindow.EveryWindowBounded | vault/internal/tokens/ratelimit.go:26-45 | No half-open interval of one window's length ever holds more than max acceptances |
| SlidingWindow.DecisionForAnyClock | vault/internal/tokens/ratelimit.go:26-45 | For any timestamps: a call is accepted exactly when fewer than max accepted calls survived every cutoff since |
| SlidingWindow.DisagreesExactly | vault/internal/tokens/ratelimit.go:26-45 | For any timestamps the code departs from the rule exactly when max acceptances lie in the last window but fewer survived every cutoff since |
| SlidingWindow.OutOfOrderExceeds | vault/internal/tokens/ratelimit.go:27-31 | On every window from 1 to 9223372036 seconds, calls entering out of order are accepted beyond the limit |
| SlidingWindow.NoWindowAdmitsAll | vault/internal/tokens/ratelimit.go:26-45 | Without a positive window every call in time order is admitted |
| SlidingWindow.WrappedTextAdmitsAll | vault/internal/tokens/role.go:19-43 | A text whose window wraps negative passes validation and switches the limiter off |
| SlidingWindow.RetryExact | vault/internal/tokens/ratelimit.go:47-66 | After a denial the hint is exact up to truncation: before it denied, a second past it admitted, and oldest plus window is the least instant that admits |
| SlidingWindow.NoCapacityNeverAdmits | vault/internal/tokens/ratelimit.go:47-54 | With no capacity the hint is 0 and no attempt is ever admitted |
| Limiter.Compact | vault/internal/tokens/ratelimit.go:33-38 | Filtering into the array being read loses no unread entry and keeps exactly the later timestamps in order |
| Limiter.RateLimiter.IsAllowed | vault/internal/tokens/ratelimit.go:26-45 | The new list is the specified one, other clients' lists are unchanged, a denial means the full history denies, and on calls in order the answer is the history's |
| Limiter.RateLimiter.RetryAfter | vault/internal/tokens/ratelimit.go:47-66 | The minimum-finding loop and the truncation compute the specified hint |
| Limiter.RateLimiter.Remove | vault/internal/tokens/ratelimit.go:68-72 | Forgets one client and keeps the others |
| Limiter.AskOne | vault/internal/tokens/store.go:175-183 | Asking one user's limiter leaves every other limiter's lists and history unchanged and all of them consistent |
| PersistControl.Control.SchedulePersist | vault/internal/tokens/store.go:484-506 | Stops an armed timer and arms a new one, or does nothing when closed or without paths |
| PersistControl.Control.FlushLock | vault/internal/tokens/store.go:468-477 | Clears the handle and reports pending exactly when it stopped an armed timer |
| PersistControl.Control.ShutdownLock | vault/internal/tokens/store.go:455-462 | Closes, stops the timer behind the handle and clears it |
| PersistControl.ScheduleIs | vault/internal/tokens/store.go:484-506 | With the store open and both paths set one new armed timer takes the handle and the armed one it had, no other, is stopped; else nothing changes |
| PersistControl.CancelIs | vault/internal/tokens/store.go:455-477 | Flush and Shutdown stop exactly the armed timer behind the handle and clear the handle; only Shutdown closes |
| PersistControl.CallbackIs | vault/internal/tokens/store.go:496-505 | A callback ends its own timer and clears the handle, whichever timer that names |
| PersistProtocol.NoPathsNoPersist | vault/internal/tokens/store.go:484-506 | A store without both paths never arms a timer, never persists and never writes, in any run |
| PersistProtocol.NoMutationForgotten | vault/internal/tokens/store.go:468-564 | In every interleaving, while open, each scheduled version has been read or a live timer or unread doPersist still owes it |
| PersistProtocol.MutationSurvives | vault/internal/tokens/store.go:484-506 | The same for one mutator, from its schedulePersist on |
| PersistProtocol.QuiescentFiles | vault/internal/tokens/store.go:508-564 | Without overlap and with successful writes, a quiescent store's files both hold one version no older than any loaded or scheduled |
| PersistProtocol.QuiescentFilesCurrent | vault/internal/tokens/store.go:508-564 | If every mutation scheduled, that version is the current one |
| PersistProtocol.SettlesIff | vault/internal/tokens/store.go:508-564 | Whatever follows without another doPersist or a failing write leaves both files at the newest snapshot exactly when nothing runs and they hold it, or the one call that runs has yet to read, or all that run hold it and the roles file holds it or is still to be written |
| PersistProtocol.OverlapKeepsOldState | vault/internal/tokens/store.go:508-564 | Two overlapping doPersist calls can leave the older state in both files |
| PersistProtocol.ClosedBegins | vault/internal/tokens/store.go:455-506 | After closing, the doPersist calls that begin are exactly drawn from those already due, each at most once |
| PersistProtocol.FilesFinalIff | vault/internal/tokens/store.go:453-464 | After closing, no file write can follow exactly when no doPersist is due or running |
| PersistProtocol.ShutdownCompleteIff | vault/internal/tokens/store.go:453-464 | Shutdown returns only after the last file write, in every continuation, exactly when at its call no callback past its closed check and no Flush caller that stopped a timer has yet to begin persisting |
| PersistProtocol.ShutdownCanReturnEarly | vault/internal/tokens/store.go:453-464 | Shutdown can return before a write that still happens |
| PersistProtocol.FlushCompleteIff | vault/internal/tokens/store.go:466-482 | Flush returns only after everything scheduled was read, in every continuation, exactly when it was read before, the handle's timer is armed, or a doPersist has begun and not read |
| PersistProtocol.FlushCompletesPunctual | vault/internal/tokens/store.go:466-506 | With no callback ever late and none on its way, Flush keeps its promise |
| PersistProtocol.FlushCanReturnEarly | vault/internal/tokens/store.go:466-506 | A late callback makes Flush return with everything scheduled still unread |
| PersistProtocol.CanReturn | vault/internal/tokens/store.go:453-482 | From every state a Flush or Shutdown call can return once its own doPersist and those that run have finished, without waiting for any other |
| PersistProtocol.FilesChange | vault/internal/tokens/store.go:558-564 | A file changes only by a write that succeeds, to the version its doPersist read |
| PersistProtocol.FailingWritesKeep | vault/internal/tokens/store.go:558-564 | A run in which every write fails leaves both files as they were |
| Restart.RestartFindsCurrentState | vault/internal/tokens/store.go:45-564 | After a load and any quiescent run of store operations, validations and refused calls included, without overlap and with successful writes, the files hold one version, and loading them gives the current state, normalised, exactly when no rotation lost its record after it |
| Restart.LostRotationRevived | vault/internal/tokens/store.go:256-296 | On a store loaded from its files, a rotation whose generation fails removes the user, nothing is written, and a restart brings the old token back |
| Admission.ReachableSysInv | vault/internal/tokens/store.go:158-206 | With validations split at their unlock, every reachable state keeps the store invariant, unshared limiters and limiters within their window bound |
| Admission.ResetForgets | vault/internal/tokens/store.go:238-296 | Of all administrative operations only a revocation or rotation touches a limiter, its user's, which then admits the next call at any time |
| Admission.DisclosureBound | vault/internal/server/grpc.go:157-248 | Between resets of a user's limiter, entries returned to the user's requests from a given serial number on, admitted within one window of the span, number at most max requests times the largest TopK the user's role had, as long as those already in flight are contained |
| Admission.LoadedDisclosureBound | vault/internal/server/grpc.go:157-248 | From a freshly loaded store whose files leave the indexes in agreement, every run keeps the invariants, and without a reset of the user's limiter the bound covers all the user's requests |
| DisclosureExact.DisclosureExact | vault/internal/tokens/store.go:158-206 | With a valid token and a positive window, the bound covers all the user's requests in every run without a reset exactly when each one in flight has its slot, or a limiter that admits nothing, or a deleted role that allows nothing, or the user's current limiter |
| DisclosureExact.InFlightOutlivesReset | vault/internal/tokens/store.go:175-183 | Whatever the state, after a rotation with an unanswered request of the user in flight there is a run, without a further reset, that discloses more than max requests times the TopK in one window |
| TopK.TopKUnique | vault/internal/server/grpc.go:217-248 | The specification (k best in order, ties by position, every omitted entry losing to each returned) has exactly one solution, and the selection is it |
| TopK.TopKPrefix | vault/internal/server/grpc.go:236-247 | The result for k is a prefix of the result for k+1 |
| TopK.TopKConserves | vault/internal/server/grpc.go:225-247 | Asking for everything returns each entry as often as it was scored |
| TopK.TopKFromShards | vault/internal/server/grpc.go:220-248 | Flattening, in-place stable sort and truncation compute that selection, with int32 truncation of indexes |
| TopK.FlattenIs | vault/internal/server/grpc.go:225-234 | Every score of the matrix is at its place in the flattened list, with the given shard index of its row, or the row number where none is given |
| TopK.AnswerIs | vault/internal/server/grpc.go:217-248 | The answer is min(k, number of scores) different cells of the matrix, best first with ties in reading order, each with its score, column and shard index, and every other cell loses to each |
| TopK.Int32Is | vault/internal/server/grpc.go:227-232 | Indexes are reduced modulo 2^32 to the range of int32 |
| Metadata.MetadataRoundTrip | vault/internal/crypto/metadata.go:62-107 | For every plaintext, 32-byte key and 16-byte IV, decrypting the envelope gives the plaintext |
| Metadata.CountersDistinct | vault/internal/crypto/metadata.go:77 | No counter block repeats within 2^128 blocks |
| Metadata.XorIs | vault/internal/crypto/metadata.go:77 | A bit of the combined byte is set exactly when it is set in one of the two |
| Metadata.StreamIs | vault/internal/crypto/metadata.go:76-77 | Byte i of the stream is the data combined with byte i % 16 of the cipher on the one block whose big-endian value is the IV's plus i / 16, modulo 2^128 |
| Metadata.ValueConcat | vault/internal/crypto/metadata.go:77 | The value of a block is big-endian |
| Metadata.EnvelopeIs | vault/internal/crypto/metadata.go:62-82 | The envelope decodes to the IV followed by the stream, or there is an error exactly for a wrong key length or no randomness |
| Metadata.OpeningIs | vault/internal/crypto/metadata.go:87-107 | A text opens exactly with a 32-byte key, decodable and at least 16 bytes long, to what the stream turns into its rest; each other case has its own error |
| Metadata.XorKeyStream | vault/internal/crypto/metadata.go:76-77 | The buffer filled block by block is the counter-mode stream |
| Metadata.DecryptMetadata | vault/internal/crypto/metadata.go:87-107 | Errors on a wrong key length, bad base64 and short input, else the stream over the rest |
| Base64.RoundTrip | vault/internal/crypto/metadata.go:81-91 | Decoding an encoded byte string gives it back |
| Base64.EncodeIs | vault/internal/crypto/metadata.go:81 | Each character encodes its six bits of the three-byte group from the high end, or is padding where the data has none |
| Base64.AlphabetIs | vault/internal/crypto/metadata.go:81 | The standard alphabet of RFC 4648 |
| Base64.DecodesIff | vault/internal/crypto/metadata.go:91 | A text decodes exactly when, without its line breaks, it is whole quanta of the alphabet with at most two padding characters at the end |
| Base64.SkipBreaksIs | vault/internal/crypto/metadata.go:91 | Carriage returns and newlines are dropped anywhere, nothing else is |
| Handlers.ScoresAnswerBounded | vault/internal/server/grpc.go:178-214 | A successful answer needs the scope, stays within the request and the role's TopK, is the top-k of the scores, and has as many entries as the disclosure bound counts |
| Handlers.ScoresAnswerIs | vault/internal/server/grpc.go:178-214 | Success exactly with the scope, a request within the role's TopK and decrypted scores; each refusal's code and audit status exactly when it applies |
| Handlers.RefusalCodes | vault/internal/server/grpc.go:325-362 | Only a rate-limited token gets ResourceExhausted, every other refusal Unauthenticated; unknown, expired and rate-limited tokens are audited as denied, others as errors |
| Handlers.DecryptScores | vault/internal/server/grpc.go:157-215 | Refused or denied tokens get their mapped code and use no slot; a granted one uses exactly one; the audit count is the number of entries |
| Handlers.OpenAllExact | vault/internal/server/grpc.go:292-318 | All elements in order, or the error of the first that fails |
| Handlers.OpenOneIs | vault/internal/server/grpc.go:293-316 | An element opens exactly when it is JSON, the secret is set, its agent's key has 32 bytes and its text decodes to at least 16; a JSON error is the caller's, any other internal |
| Handlers.MetadataAnswerIs | vault/internal/server/grpc.go:279-318 | Refused exactly without the decrypt_metadata scope, whatever the list; answered exactly when the secret is set and every element opens, with the plaintexts in order, else with the first error |
| Handlers.EnvelopesRoundTrip | vault/internal/server/grpc.go:292-318 | Envelopes under mixed agent keys open to the plaintexts in order |
| Handlers.DecryptMetadata | vault/internal/server/grpc.go:259-319 | As DecryptScores, with the all-or-nothing list |

## Left out

- Limiter.RateLimiter.IsAllowed: time is an unbounded integer of nanoseconds; wrap-around of time arithmetic at the ends of the int64 range is not modelled.
- Limiter.RateLimiter.RetryAfter: the seconds are an exact floor; the floating-point step agrees with it for remaining times below 2^24 seconds and can round up beyond, which is not modelled.
- TopK.TopKFromShards: scores are reals, so NaN and rounding are not modelled; sort.SliceStable is represented by an in-place stable insertion sort.
- Metadata.MetadataRoundTrip: the block cipher is any function; nothing is claimed about secrecy, key derivation or randomness.
- Dates.RotationsKeepLifetime: the calendar is a day number; printing and parsing are exact inverses on four-digit years and parsing fails elsewhere.
- PersistProtocol.QuiescentFiles: temp files, rename and fsync are one atomic write per file; the two files do not change together.
- Crash and restart in the middle of a run; token claims are per process.
- YAML and JSON text: documents and envelopes are values.
- ListTokens, ListRoles, GetUsername's lock and LoadDefaultsWithDemoToken: simple readers and a demo seed.
- GetAgentManifest: the same gating as the two handlers modelled, around key files.
- gRPC, admin HTTP, CLI, audit sinks, configuration, FHE decryption and installers: thin wrappers or foreign code.
