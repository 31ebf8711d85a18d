# Tyrako: verified model of the stateful core

Tyrako redeems TrueMoney gift vouchers over HTTP. This project models the parts
of it that keep state across requests and proves what they guarantee over whole
runs, interleavings and failures.

* **Rate limiting.** `Window` is one fixed-window counter seen alone.
  `MemoryLimiter` is the bounded in-memory table of such counters, as a class and
  as runs of requests. `RedisLimiter` is the distributed form: one shared counter
  script and a private in-memory fallback in each of `n` processes.
  `RateLimitMiddleware` chooses bucket and limiter and computes `Retry-After`.
  The central step is a projection: whatever the table does with other keys, one
  key sees a single counter that is never purged and loses its state only when it
  is itself evicted. The exact decision per window, the sliding bound, the
  refinement of the plain limiter, isolation between keys and `Retry-After`
  follow from it. `Tightness` builds
  runs that attain the bounds.
* **Statistics.** `Stats` is the memory store, with its int64 wrap-around, and
  the exact ledger it stands for. `CountOnce` is the PostgreSQL protocol at
  READ COMMITTED: uncommitted inserts block, the totals row is locked until the
  transaction ends, an update writes a row version computed when it ran, and any
  call may abort anywhere.
* **Redemption.** `Redemption` has the service method and the state machine of
  many concurrent redemptions through singleflight. `Money` parses amounts.
* **Keys.** `KeyStore` is the two-index store (a class whose records point to
  scope slices in memory), `KeyService` the service and the Auth decision,
  `KeyRuns` any interleaving of service calls and requests at the granularity of
  the store's locks.
* **Migrations.** `Migrate` is the runner as a protocol of replicas that may
  fail or crash, with a session-level advisory lock, and the single-replica loop.

A protocol is a state, an `Enabled` predicate and a `Do` function. A run is any
sequence of steps; a step that is not enabled changes nothing (its call waits).
Theorems hold for every run.

Where code and documentation disagree the model follows the code:

* `docs/architecture.md` says migrations are never applied twice because of the
  advisory lock. The lock keeps replicas apart exactly as long as the session it
  was taken on lives: while no session dies with the lock of a replica at work,
  at most one replica is inside (`Migrate.LockExcludes`), and a second one gets
  in beside it if and only if that session ends
  (`Migrate.SecondEntryIffLockLost`). Order and uniqueness of migrations do not
  depend on it: `Migrate.MigrationSafe` rests on the primary key of the version
  row.
* The doc comment of `Bootstrap` says a random key is generated only when the
  store is empty. Two callers can both find it empty, and then both seed a key;
  there is one key exactly if nobody else stood between listing and creating
  when the first key was created (`KeyRuns.GeneratedSeeds`).
* `evictOldest` is meant to bound memory. It uses the empty key for "none so
  far", so a bucket of the empty key can make it drop nothing. The table stays
  within its limit exactly if the empty key is not used, or all keys fit
  (`MemoryLimiter.BoundedIff`); the middleware only uses non-empty names.
* `RotateKey` never looks at `RevokedAt`: rotating a revoked key issues a live
  replacement (`KeyService.RevokedKeyRotatesLive`).
* A second `Revoke` overwrites the timestamp, so permanence is stated as "revoked
  stays revoked".
* The `Limiter` interface calls the returned duration the time to wait before
  retrying. The Redis limiter returns the TTL, which Redis rounds to the nearest
  second, so `Retry-After` can be up to half a second short: waiting is enough
  exactly if the time to expiry was not rounded down
  (`RateLimitMiddleware.SharedRetryIff`, `SharedRetryTooEarly`). The in-memory
  limiter's wait is exact (`RateLimitMiddleware.RetryAfterSound`).
* A flight whose voucher has an empty ref is counted once per caller
  (`Redemption.FlightAccounting`).

## Model

| member | source | states |
|---|---|---|
| Window.SlidingBound | internal/ratelimit/limiter.go:59-68 | on one counter, any interval no longer than a window admits fewer than (2 + drops in it) full budgets, for every monotone trace |
| Window.SlidingBoundIsTight | internal/ratelimit/limiter.go:59-68 | that bound is exact: for every budget and drop count a trace admits (2 + drops) * max - 1 |
| Window.OpenWindowCounts | internal/ratelimit/limiter.go:59-64 | a window counts every request from the one that opens it, and ends exactly one window length later |
| Window.AdmittedIff | internal/ratelimit/limiter.go:59-68 | on every trace a request is admitted if and only if it opens a window within a budget or is among the first max requests since the last opening |
| Tightness.SlidingLimitAttained | internal/ratelimit/limiter.go:42-94 | a run of the limiter, for every budget, table size and number of real evictions, that allows (2 + evictions) * max - 1 requests in one window |
| Tightness.MultiProcessLimitAttained | internal/ratelimit/redislimit/limiter.go:34-68 | a run of any number of processes that grants (n+1)(2 * max - 1) requests in one window |
| MemoryLimiter.MemoryLimiter.constructor | internal/ratelimit/limiter.go:32-40 | an empty table limited to 10000 buckets |
| MemoryLimiter.MemoryLimiter.Allow | internal/ratelimit/limiter.go:42-69 | for every key, new table, answer and wait equal the value-level step; a refused caller is told the time from the second clock reading to its bucket's reset, an allowed one zero |
| MemoryLimiter.MemoryLimiter.MakeRoom | internal/ratelimit/limiter.go:48-54 | a full table is purged, and scanned for a bucket to drop only if it is still full |
| MemoryLimiter.MemoryLimiter.Purge | internal/ratelimit/limiter.go:72-78 | in any iteration order exactly the strictly expired buckets go |
| MemoryLimiter.MemoryLimiter.EvictOldest | internal/ratelimit/limiter.go:82-94 | exactly which buckets the sentinel scan can drop in some iteration order, the empty key's part in it included |
| MemoryLimiter.BucketsBounded | internal/ratelimit/limiter.go:47-57 | no run over non-empty keys ever holds more buckets than the limit |
| MemoryLimiter.BoundedIff | internal/ratelimit/limiter.go:80-94 | the runs over a set of keys stay within the limit if and only if the empty key is not among them or they all fit |
| MemoryLimiter.EvictionTakesTheOldest | internal/ratelimit/limiter.go:80-94 | on every run over non-empty keys an eviction removes one bucket, the earliest to reset of the whole table, and purging removed none |
| MemoryLimiter.BucketIsItsCounter | internal/ratelimit/limiter.go:42-94 | projection: the bounded, purging table behaves on each key as one counter that only evictions of that key reset |
| MemoryLimiter.DecisionFromProjection | internal/ratelimit/limiter.go:42-69 | the answer to a request depends only on the projection of the run to its own key |
| MemoryLimiter.AllowedInWindowIff | internal/ratelimit/limiter.go:42-69 | on every run, from a request that opens a key's window a request is allowed if and only if at most max requests for the key came since, and after the window's own length the count starts again; the bucket must not be evicted meanwhile |
| MemoryLimiter.SlidingLimit | internal/ratelimit/limiter.go:42-94 | over every run, an interval of one window allows fewer than (2 + evictions of the key in it) * max requests for a key |
| MemoryLimiter.BoundedIsUnbounded | internal/ratelimit/limiter.go:42-78 | without evictions the table is the never-deleting one minus expired counters, with equal answers |
| MemoryLimiter.RefinesUnbounded | internal/ratelimit/limiter.go:42-78 | while fewer than maxBuckets other windows are open at each request, nothing is evicted and all answers equal those of the limiter that never deletes |
| MemoryLimiter.FewKeysRefine | internal/ratelimit/limiter.go:42-78 | in particular on every run over at most maxBuckets distinct keys |
| RedisLimiter.Redis.Eval | internal/ratelimit/redislimit/limiter.go:26-32 | the script: increment, expire a new key, report count and TTL |
| RedisLimiter.Limiter.constructor | internal/ratelimit/redislimit/limiter.go:38-46 | same budget and window for Redis and for a fresh private fallback |
| RedisLimiter.Limiter.Allow | internal/ratelimit/redislimit/limiter.go:48-68 | the shared count decides if the pair arrives, any other reply admits, and on an error the fallback decides even if the script ran |
| RedisLimiter.TtlOfWindow | internal/ratelimit/redislimit/limiter.go:49-52 | the expiry is the window rounded down to whole seconds, and one second for shorter windows |
| RedisLimiter.SharedCounter | internal/ratelimit/redislimit/limiter.go:26-32 | across all processes the Redis key is the fixed-window counter its own trace describes, lost replies included |
| RedisLimiter.EveryKeyExpires | internal/ratelimit/redislimit/limiter.go:26-32 | every key left by any run begins with rl: and has an expiry at most one TTL ahead |
| RedisLimiter.SharedWaitNear | internal/ratelimit/redislimit/limiter.go:62-66 | the wait reported from Redis is within half a second of the time to expiry and at most the TTL |
| RedisLimiter.GrantedInWindowIff | internal/ratelimit/redislimit/limiter.go:26-68 | across all processes, from the script that opens a key's window a served request is granted if and only if at most max scripts for the key ran since, lost replies included; this lasts more than the configured window less one second and no longer than the window |
| RedisLimiter.RefusedUntilExpiry | internal/ratelimit/redislimit/limiter.go:26-68 | after a refusal by the shared counter the next served request is granted exactly from the expiry on |
| RedisLimiter.GrantsAddUp | internal/ratelimit/redislimit/limiter.go:48-68 | conservation: grants of the system are those of the shared counter, of the n fallbacks, and one per reply not understood |
| RedisLimiter.MultiProcessLimit | internal/ratelimit/redislimit/limiter.go:34-68 | n processes with errors anywhere grant at most (2(n+1) + evictions) * max - (n+1) requests for a key in any interval within window and TTL, plus one per reply not understood |
| RedisLimiter.WholeSecondLimit | internal/ratelimit/redislimit/limiter.go:34-68 | with a window of at least 1s, no eviction of the key and well-formed replies, a truncated TTL, which is more than the window less one second, grants at most 2 * max * (n+1) |
| RateLimitMiddleware.BucketNamesDistinct | internal/middleware/ratelimit.go:24-33 | bucket names carry the prefix key: or ip: and are equal exactly for the same key id or the same address |
| RateLimitMiddleware.RateLimit | internal/middleware/ratelimit.go:20-44 | over in-memory limiters, keys of rank admin pass uncharged, keys of rank partner are charged to their own bucket in the partner limiter only, everyone else in the member limiter only, and a rejection carries Retry-After |
| RateLimitMiddleware.RateLimitShared | internal/middleware/ratelimit.go:20-44 | the same three cases over Redis-backed limiters, whichever way the trip to Redis ends |
| RateLimitMiddleware.RoutedByRank | internal/middleware/ratelimit.go:23-36 | in a run, an admin visit reaches no limiter, a partner visit the partner limiter only, any other visit the member limiter only |
| RateLimitMiddleware.KeyIsAlone | internal/middleware/ratelimit.go:20-44 | a key whose bucket is kept gets the answers of a limiter serving it alone |
| RateLimitMiddleware.PerKeyIsolation | internal/middleware/ratelimit.go:20-44 | two runs with the same request times of a key answer it alike, whatever else they hold |
| RateLimitMiddleware.RetryAfterBounded | internal/middleware/ratelimit.go:67-74 | Retry-After (section 10.2.3 of RFC 9110) is at least 1, and if more then less than one second above the window |
| RateLimitMiddleware.RetryAfterSound | internal/middleware/ratelimit.go:67-74 | after a rejection the next request is allowed if and only if it comes after the reported wait; waiting the advertised seconds is enough, and one second less is not |
| RateLimitMiddleware.SharedRetryIff | internal/ratelimit/redislimit/limiter.go:62-66 | on the Redis path a retry that waited the advertised seconds is granted if and only if the time to expiry was not rounded down, and the advice is off by at most half a second below and one above |
| RateLimitMiddleware.SharedRetryTooEarly | internal/ratelimit/redislimit/limiter.go:62-66 | for every budget and window of at least two seconds a run in which the advice is too early |
| Decimal.FormatIntInjective | internal/middleware/ratelimit.go:33 | decimal ids are printed without collisions |
| Money.ParseCentsExact | internal/money/money.go:13-41 | ParseCents succeeds exactly on the grammar with exact value at most 2^63-1 and returns that value; the arithmetic is checked to stay in int64 |
| Money.MissingDigitsAreZeros | internal/money/money.go:22-28 | a missing or one-digit fraction equals its zero-padded form |
| Money.ParsePrintRoundTrip | internal/money/money.go:15-41 | ParseCents inverts the canonical printer on 0..2^63-1 and rejects everything above |
| Stats.StatsStore.constructor | internal/repository/memory/stats.go:20-24 | an empty store |
| Stats.StatsStore.RecordTw | internal/repository/memory/stats.go:28-40 | a ref that was counted changes nothing; otherwise the count grows by one and the total by the amount, modulo 2^64, and the ref is remembered |
| Stats.StatsStore.RecordTwError | internal/repository/memory/stats.go:44-49 | every call adds one error and nothing else |
| Stats.StoreIsLedger | internal/repository/memory/stats.go:28-49 | after any calls the counters are, modulo 2^64, the number of counted calls, the sum of their amounts and the number of errors, read off the calls by their places; every call is an error, counted or suppressed |
| Stats.OncePerRef | internal/repository/memory/stats.go:31-36 | a non-empty ref is counted at its first occurrence and nowhere else |
| Stats.WrapExact | internal/repository/memory/stats.go:37-38 | the counters hold the one int64 that is congruent to the exact value modulo 2^64 |
| CountOnce.InvariantKept | internal/repository/postgres/stats.go:34-64 | every statement, commit and abort of every call keeps the protocol invariant |
| CountOnce.Serializable | internal/repository/postgres/stats.go:24-64 | after any interleaving and aborts the committed tables equal the memory store after the committed calls in commit order, and the row is their exact count, sum and errors |
| CountOnce.LogIsCommits | internal/repository/postgres/stats.go:34-54 | each call commits at most once, and a nil return means it did |
| CountOnce.ExactlyOnce | internal/repository/postgres/stats.go:31-54 | of all committed calls with a ref one and only one is in the totals |
| CountOnce.NoDeadlock | internal/repository/postgres/stats.go:34-54 | in every run, while a call has not ended, some call can take its next step towards commit, unless its UPDATE is out of range |
| CountOnce.FirstCommits | internal/repository/postgres/stats.go:35-53 | an unblocked call with a new ref, without a ref, or of an error commits, and adds exactly itself to the row |
| CountOnce.RepeatCommits | internal/repository/postgres/stats.go:44-53 | a call whose ref is committed already still commits with nil, and adds nothing |
| CountOnce.ErrorNeedsFault | internal/repository/postgres/stats.go:34-54 | a caller gets an error only if its call was aborted or its commit not acknowledged |
| Redemption.TwService.Redeem | internal/service/tw_service.go:29-41 | result and recording by validation and upstream outcome; a missing store is tolerated |
| Redemption.TwService.RecordVoucher | internal/service/tw_service.go:57-77 | records the voucher's own ref with the exact cents of its amount, or zero if the amount is missing, malformed or above 2^63-1 cents |
| Redemption.TwService.RecordError | internal/service/tw_service.go:44-53 | one error per failed attempt |
| Redemption.CentsOf | internal/service/tw_service.go:61-71 | the recorded amount is the exact value in cents when the amount is in the grammar and fits int64, else zero |
| Redemption.ValidPhoneIff | internal/validator/validator.go:13 | a valid phone is a zero followed by nine digits |
| Redemption.PreimageInjective | internal/service/coalesced_tw.go:47-50 | on validated phones the coalescing preimage determines phone and gift |
| Redemption.PreimageCollision | internal/service/coalesced_tw.go:47-50 | on all requests two preimages collide exactly if a separator can move between phone and gift |
| Redemption.InvariantKept | internal/service/coalesced_tw.go:30-45 | every join, completion, return and recording keeps the invariant of table, flights, calls and log |
| Redemption.CallGoesOn | internal/service/coalesced_tw.go:30-45 | in every run an unfinished call can go on, or waits for its own open upstream call, which may end with any answer |
| Redemption.OneCallInFlight | internal/service/coalesced_tw.go:15-16 | two upstream calls in flight are never for the same phone and gift |
| Redemption.OwnResultOnly | internal/service/coalesced_tw.go:30-50 | a call only ever gets the result of a flight for its own phone and gift |
| Redemption.NoStaleResult | internal/service/coalesced_tw.go:17-20 | a call that begins after some caller of a flight has its answer never gets that flight's result |
| Redemption.EveryCallAccounted | internal/service/tw_service.go:29-77 | in every interleaving completed calls = errors + counted + suppressed, the store holds those counts and the sum of counted amounts, and the calls outside any flight are exactly those validation refused |
| Redemption.FlightAccounting | internal/service/tw_service.go:29-77 | k callers of a flight make k entries with the flight's own ref and the exact cents of its amount: k errors if it failed, at most one counted success with a ref, all counted with an empty ref |
| KeyStore.KeyStore.constructor | internal/repository/memory/keystore.go:19-25 | an empty store with first id 1 |
| KeyStore.KeyStore.Create | internal/repository/memory/keystore.go:27-46 | conflict or exactly one new record under the next id, backed by a private slice |
| KeyStore.KeyStore.GetByHash | internal/repository/memory/keystore.go:48-59 | a copy of the record with a fresh slice, or not found |
| KeyStore.KeyStore.List | internal/repository/memory/keystore.go:61-73 | whatever the map order, fresh copies of all records by ascending id |
| KeyStore.KeyStore.Revoke | internal/repository/memory/keystore.go:75-86 | only the revocation time of that id changes |
| KeyStore.KeyStore.Touch | internal/repository/memory/keystore.go:88-100 | only last use and request count of that id change |
| KeyStore.WriteHeldSlice | internal/repository/memory/keystore.go:41-42 | writing to a slice that callers hold never changes the store |
| KeyStore.CreatedConsistent | internal/repository/memory/keystore.go:31-45 | creation keeps ids exactly 1..nextID-1 and the two indexes inverse |
| KeyStore.RevokedConsistent | internal/repository/memory/keystore.go:79-85 | so does revocation |
| KeyStore.TouchedConsistent | internal/repository/memory/keystore.go:92-99 | so does touching |
| KeyStore.ListingComplete | internal/repository/memory/keystore.go:61-73 | the listing is strictly ascending and holds every record exactly once |
| KeyService.KeyService.Validate | internal/service/key_service.go:44-74 | the first failing field, over all scopes |
| KeyService.KeyService.CreateKey | internal/service/key_service.go:43-92 | a rejected input leaves the store alone, an accepted one adds its record, and the caller's slices stay its own |
| KeyService.KeyService.RotateKey | internal/service/key_service.go:114-143 | store and result equal the specified rotation, the final revoke cannot miss, and held slices stay outside the store |
| KeyService.KeyService.Bootstrap | internal/service/key_service.go:148-180 | a fixed key is registered unless present, a generated one only into an empty store, and held slices stay outside the store |
| KeyService.CreationEffect | internal/service/key_service.go:43-92 | which field is reported for which input, exactly when creation succeeds, and the record it stores: the given name, scopes and expiry, the given rank or member, live, under the next id |
| KeyService.CreatedKeyAccepted | internal/service/key_service.go:76-91 | a new key authenticates with its record until its expiry |
| KeyService.SeedAccepted | internal/service/key_service.go:163-180 | a fixed seed that was absent authenticates at any time with rank admin and scopes tw and admin; one that was present is left alone |
| KeyService.RotationEffect | internal/service/key_service.go:114-143 | success adds exactly one live twin under a fresh id and hash, revokes the old key and changes nothing else; failure changes nothing |
| KeyService.RotationSucceedsIff | internal/service/key_service.go:119-135 | a well-formed key can be rotated exactly if it is unexpired, randomness works and the hash is unused |
| KeyService.RevokedKeyRotatesLive | internal/service/key_service.go:119-142 | rotating a revoked key yields a replacement that Auth accepts exactly until the expiry, while the old one stays revoked |
| KeyService.Auth | internal/middleware/auth.go:27-43 | the verdict on the store as it is at the lookup |
| KeyService.AuthThenTouch | internal/middleware/auth.go:27-58 | acceptance touches exactly the accepted record, a refusal nothing |
| KeyService.AcceptedIff | internal/middleware/auth.go:27-43 | exactly which request is told missing, invalid, revoked-or-expired or accepted; acceptance yields the stored record, and the hash comparison never rejects a stored key |
| KeyRuns.RunEvolves | internal/repository/memory/keystore.go:27-100 | no run unbinds a hash or id, changes a profile or undoes a revocation |
| KeyRuns.RevokedForever | internal/repository/memory/keystore.go:75-86 | a revoked record stays bound to its hash and id and stays revoked through any further steps |
| KeyRuns.SuccessDelivers | internal/service/key_service.go:43-143 | in any interleaving a returned creation has stored what was asked for, and a returned revocation or rotation has left its key revoked |
| KeyRuns.KeyIsFound | internal/service/key_service.go:107-142 | revoking or rotating a key that existed at the start never reports not-found |
| KeyRuns.RevokedRecordNeverPasses | internal/middleware/auth.go:34-47 | a request with a revoked record whose lookup is yet to come is refused for it |
| KeyRuns.RevokedNeverPasses | internal/middleware/auth.go:34-47 | once a Revoke or a rotation of a key has returned without error, a request whose lookup comes afterwards never passes, whatever runs in between |
| KeyRuns.VisitPassesIff | internal/middleware/auth.go:27-46 | in every run a request passes at its lookup if and only if its key is then stored, unrevoked and unexpired, and otherwise gets the refusal that fits |
| KeyRuns.CreateSucceedsIff | internal/service/key_service.go:43-92 | in every run a creation succeeds if and only if its input is acceptable, randomness works and the hash is unused then; a failure changes nothing |
| KeyRuns.FinishesInThree | internal/service/key_service.go:107-180 | whatever the others do, a task is finished after three store operations of its own at most |
| KeyRuns.RequestsCounted | internal/repository/memory/keystore.go:88-100 | in any interleaving the request count of a key grows by exactly the requests served with it |
| KeyRuns.InvariantHolds | internal/service/key_service.go:43-180 | every reachable store has agreeing indexes and only keys with a name of 1..64 characters, an allowed rank and allowed scopes |
| KeyRuns.RotationInterleaved | internal/service/key_service.go:114-143 | in any interleaving a rotation finds an existing key, creates the replacement if and only if the key is unexpired, randomness works and the hash is unused, its final revoke finds the key, and a finished rotation left a twin of a revoked key |
| KeyRuns.IssuedKeysDistinct | internal/service/key_service.go:81-91 | in any interleaving the creations and rotations that succeeded have issued pairwise distinct keys |
| KeyRuns.ConcurrentBootstrap | internal/service/key_service.go:163-180 | replicas seeding one fixed key all return nil and leave exactly one record with its hash, a live unlimited admin key if it is new, all earlier records untouched |
| KeyRuns.GeneratedSeeds | internal/service/key_service.go:149-180 | callers with generated keys leave exactly the keys of those that had listed the empty store when the first key was created; one key if and only if that was one caller |
| KeyRuns.OverlapReachable | internal/service/key_service.go:149-162 | any two callers can both list the empty store |
| Migrate.InvariantKept | internal/repository/postgres/migrate.go:23-85 | every statement, failure, crash and lost session keeps the protocol invariant |
| Migrate.MigrationSafe | internal/repository/postgres/migrate.go:21-85 | from any prefix and in any run the applied versions are a growing prefix without repetition, the schema is its fold, and nil means everything is applied |
| Migrate.LockExcludes | internal/repository/postgres/migrate.go:24-29 | while no session dies with the lock of a replica at work, at most one replica is ever inside |
| Migrate.EntersIffFree | internal/repository/postgres/migrate.go:24-26 | in every run a waiting replica gets in, on a session of its own, if and only if nobody holds the lock |
| Migrate.SecondEntryIffLockLost | internal/repository/postgres/migrate.go:24-29 | with one replica inside, a step lets a second one in beside it if and only if it ends the session holding the lock |
| Migrate.LockLossReachable | internal/repository/postgres/migrate.go:24-29 | for any two replicas and sessions such a loss is reachable |
| Migrate.UnlockFreesIfHolder | internal/repository/postgres/migrate.go:27-29 | in every run an unlock frees the lock exactly if it lands on the session that holds it |
| Migrate.OnlyLockersUnlock | internal/repository/postgres/migrate.go:24-29 | only a replica that took the lock works or unlocks; one whose lock fails returns at once |
| Migrate.CheckSkipsApplied | internal/repository/postgres/migrate.go:47-54 | in every run the check skips exactly the applied migrations |
| Migrate.NeverStuck | internal/repository/postgres/migrate.go:47-85 | in every run a replica inside, or the one whose transaction it waits for, can do its next statement, unless the script it is about to run fails |
| Migrate.ErrorNeedsFault | internal/repository/postgres/migrate.go:23-85 | a replica returns an error only if one of its statements failed or a replica at work lost its lock session |
| Migrate.Database.Apply | internal/repository/postgres/migrate.go:77-85 | script and version row commit together or not at all; a version that is there already rolls back |
| Migrate.Database.Migrate | internal/repository/postgres/migrate.go:47-65 | the loop extends the prefix in order, and returns nil if and only if no script fails and the statements suffice for one check per migration and one transaction per missing one |

## Left out

- HTTP handlers, JSON, response envelopes, CORS, security headers, logging, panic recovery and wiring: plumbing.
- `ListKeys` and `viewFrom`: a field-by-field copy of the listing.
- `clientIP`, `RateLimitIP`: the address is a parameter, and the IP limiter is the anonymous case of `RateLimit`.
- The TrueMoney client and everything resting on `net/url.Parse`: the provider is an arbitrary result-or-error, the verdict on a gift an arbitrary predicate.
- SHA-256, random generation and constant-time comparison: the hash is a function parameter; its injectivity is used only in `Redemption.OwnResultOnly`.
- Floating point: amounts are integer cents, Retry-After is an exact integer ceiling of nanoseconds, and the TTL an exact truncation to seconds.
- Counters of requests, ids and migrations are unbounded integers, as are times; only the statistics and `ParseCents` model int64. A string is a sequence of characters, each standing for one byte of a Go string.
- Panics inside a singleflight call, and `Forget`, which the code does not use.
- Fair scheduling and context timeouts: progress is stated as a step that is enabled, not as eventual completion.
- The PostgreSQL key store and the contents of the migration scripts, which are opaque functions on a schema.
- MemoryLimiter.MemoryLimiter.Allow: buckets are values in the map rather than shared entries, which never escape.
- RedisLimiter.Redis.Eval: TTL is rounded to the nearest second at nanosecond precision, where Redis counts milliseconds.
- RedisLimiter.Limiter.Allow: a reply that is not a pair is taken to come from a script that ran; how such a reply arises is not modelled.
- RedisLimiter.MultiProcessLimit: all processes and Redis read one clock, and Redis keeps keys until they expire.
- KeyRuns.RequestsCounted: a request is served once its touch has happened; a touch that never runs is a request that stays admitted.
- KeyStore.KeyStore.Revoke: records are values in the map; the pointers of the original never leave the store.
- Migrate.LockExcludes: an error reported for a lock that was in fact granted is not modelled.
