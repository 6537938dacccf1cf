# Sigvault: a verified model

Sigvault issues and checks post-quantum tokens. This project models the state machines and codecs that the rest of the
server relies on, and proves what they promise:

* the mutation chain: a SHA3 ratchet kept in a file log behind a stealable lease, or in a Postgres table shared by
  several writers, and the requests that advance it (`Ratchet`, `ChainLog`, `PgChainStore`, `IssueClaims`, `IssueRequest`,
  `MultiWriter`, `IssueCompletion`, `WriterLock`, `FencedWriter`, `LeaseRuns`);
* the token-bucket rate limiter (`LimiterModel`, `LimiterLevels`, `LimiterRuns`, `LimiterTheorems`, `LimiterConfig`,
  `RateLimit`);
* the verify pool and its 32-bit hash (`Bits`, `Murmur`, `MurmurVectors`, `PoolModel`, `PoolOutcomes`, `VerifyPool`);
* the Postgres stream client and its error decoder (`PgStream`, `PgError`, `PgWire`), the token and claims codecs (`Token`,
  `Claims`), issuing and verifying (`Issuance`, `TokenVerify`, `TokenAcceptance`), base64 (`Base64`, `Base64Table`), address
  text and ranges (`Parts`, `Ipv4`, `Ipv6`, `Cidr`, `AddressText`);
* crash safety on disk: durable writes, master-key rotation and the start after it, audit-log rotation (`Durable`,
  `RotateMaster`, `Restart`, `Audit`).

How the parts fit. A component whose methods update fields is a class; every method is proved equal to a function of the
old state (`State()`, `Model()`, `At()`), and the properties over whole runs are lemmas about that function. What each function
computes is in turn fixed by lemmas over plain fields, literal bytes and runs. Components
that several processes share are step machines: `Next` is one synchronous call of one process, `Run` any sequence of them.

Cryptography is uninterpreted. SHA3 is the parameter `sha`; signatures, the payload cipher and the keystore cipher are
records of functions whose laws (`Signs`, `Seals`, `Opens`, `Binds`, `WrongKey`) are stated and required where they are used. Clocks,
random bytes, hash-map iteration order and UTF-8 validity are parameters.

Where the code and its documentation differ, the model follows the code:

* the ratchet is deterministic; the salt of `docs/story/06-mutation-chain.md:34-37` is not in the code;
* the fence number does not only grow: it does exactly while the lease file is there with a readable fence
  (`FenceGrowsIff`); releasing deletes the file and the count restarts (`FenceRestarts`);
* an interrupted master rotation cannot simply be run again: the tool refuses while a live file is missing
  (`RerunRefusedBetween`), although the header of `rotate-master.mjs` calls it idempotent; and once the server has been
  started in between, it finds a master that opens nothing (`RestartAfterCrash`, `RerunAfterRestart`).

Properties that hold only under a condition are stated with it, and the condition is shown to be the right one:

* sweeping the limiter is unobservable, and the rate bound holds, exactly when the idle window is at least 60 seconds or
  the limiter may hold no entries at all (`SweepsInvisibleIff`, `RateBoundedIff`);
* a quota snapshot is honest exactly when the key is known or there is room for it (`QuotaHonestIff`);
* the per-worker share of the queue stays within `queueMax + size - 1` exactly when `queueMax >= 1` (`ShareBound`);
* a token reads back from its bytes exactly when its payload is shorter than 2^32 bytes and it is signed (`RoundTripIff`);
* an append keeps a file log loadable exactly when it is the next link (`AppendKeepsLogIff`), and the issue route advances
  the chain before it builds the token and checks the fence. So one request decides: the chain stays loadable in every
  continuation exactly when the request is sound, the lease can be read at the check and (in a file) the whole record is
  written, or the process no longer writes, or, with several writers, another one fills the gap (`MultiWriter.IssueSafeIff`,
  `FencedWriter.IssueSafeIff`). Sound means that the claims are within the wire format's caps and the lifetime has a number
  (`BuildsIffSound`). Sixteen claims, which the structural check of `claims.mjs` lets through, are one witness, and a
  lifetime that is an object with a member called "toString", which nothing checks, is another;
* a failed fence check is final exactly when the lease could be read or was lost (`FailedCheckFinalIff`);
* an error message from the database is decoded in finitely many steps exactly when its fields are terminated
  (`DecodeEndsIff`); otherwise the client hangs exactly when a query waits for it (`HangsIff`);
* an address text with "::" has the form of its grammar exactly when there is one "::" with fewer than eight groups around
  it; a second one and everything after it is ignored (`GrammaticalIff`, `ReadableIff`);
* the counter in the issue route's reply is the token's exactly when the process began no other issue of the key before
  its INSERT was answered (`EchoedCounterIff`);
* a failed INSERT on a live connection is harmless exactly when it was a duplicate anyway (`SpuriousFailureHarmlessIff`);
* no token's expiry sum overflows 64 bits exactly when the clock is far enough from its end (`ExpirySumFitsIff`).

`dafny verify dfyconfig.toml` checks everything.

## Model

| member | source | states |
|---|---|---|
| Ratchet.AdvancedOnChain | qv-core/src/mutation.rs:25-32 | one advance from a position on the chain of a seed is on that chain, for every seed |
| Ratchet.NextStateIsHash | qv-core/src/mutation.rs:25-32 | the next state is the hash of the one 40-byte string that is the old state and then the counter before the step, most significant byte first, for every counter, the last included; the loaders hash the same bytes |
| Ratchet.MutationChain.Advance | qv-core/src/mutation.rs:25-32 | the object steps to exactly the next ratchet position, the counter wrapping at 2^64, and returns the new state as the tag |
| ChainLog.LoadRowsExact | qv-server/chain-log.mjs:74-107 | the linkage check returns a verdict if and only if that verdict is true of the records: all genuine, or the first bad record and what is wrong with it |
| ChainLog.LoadFileIff | qv-server/chain-log.mjs:59-107 | a byte string loads to (n, s) if and only if it is the log of ratchet records 1..n of the seed and s is state n |
| ChainLog.LogPrefixLoads | qv-server/chain-log.mjs:59-107 | of a good log every record-aligned prefix loads to the earlier position and every other cut is refused as corrupt |
| ChainLog.LogLayout | qv-server/chain-store.mjs:59-71 | what stands at which offset of a log: record i is its counter in eight bytes and then the state after that issue |
| ChainLog.AppendKeepsLogIff | qv-server/chain-store.mjs:55-71 | one more record of the chain keeps a log loadable if and only if its counter is the next one; otherwise the loader names that record |
| ChainLog.RowsPlusOne | qv-server/chain-log.mjs:78-100 | the verdict on a genuine chain followed by one more record, whatever that record is: loaded, a counter that is not the next, or a state that is not the ratchet's |
| ChainLog.VerifyAndLoadChainLog | qv-server/chain-log.mjs:59-107 | the record loop computes the load verdict, missing and empty files included |
| ChainLog.FileChainStore.Load | qv-server/chain-store.mjs:55-57 | a key's load is the verdict on that key's log |
| ChainLog.FileChainStore.Append | qv-server/chain-store.mjs:59-71 | the log of the key, and no other, grows by one 40-byte record |
| ChainLog.AppendThenLoad | qv-server/chain-store.mjs:55-71 | a log that reloads to a position reloads to the advanced position after that issue is appended |
| ChainLog.TornLoads | qv-server/chain-log.mjs:59-107 | a good log followed by any part of its next record loads if and only if that part is none or all of it; otherwise it is refused as corrupt |
| IssueClaims.EncodesIffWithinCaps | qv-sdk/src/index.mjs:202-252 | a request's claims encode if and only if there are at most 15, none is nested and no key or value exceeds 255 bytes |
| IssueClaims.SameAsCore | qv-sdk/src/index.mjs:202-252 | on maps of strings the JavaScript encoder and the Rust core accept the same claims and write the same bytes |
| IssueRequest.ConvertsIff | qv-sdk/src/index.mjs:282-291 | writing the lifetime into the header comes to an end if and only if no object it meets has a member called "toString" and arrays are not nested deeper than the host allows |
| IssueRequest.BuildsIffSound | qv-sdk/src/index.mjs:377-414 | what runs between the advance and the fence check comes to an end if and only if the claims are within the caps and the lifetime has a number |
| PgChainStore.InsertKeepsMembers | qv-server/chain-store-postgres.mjs:128-145 | an accepted insert adds its row and loses none |
| PgChainStore.InsertKeepsChainIff | qv-server/chain-store-postgres.mjs:95-145 | a free counter keeps the table a ratchet chain if and only if the row is the next link; otherwise a load names the gap |
| PgChainStore.ChainTable.Load | qv-server/chain-store-postgres.mjs:95-126 | the row loop returns the same verdict as the file loader on the same records |
| PgChainStore.ChainTable.Append | qv-server/chain-store-postgres.mjs:128-145 | a taken counter is a conflict and changes nothing; otherwise the key's rows gain the record in counter order |
| MultiWriter.FrontInsert | qv-server/chain-store-postgres.mjs:128-145 | in every state that satisfies the invariant, and so in every state a clean run reaches, the insert the database takes next is either a duplicate or the exact next link |
| MultiWriter.TableAlwaysLinked | qv-server/chain-store-postgres.mjs:95-145 | over every interleaving of any number of writers whose requests are sound, whose leases can be read at the fence checks until they are lost for good, and whose inserts fail only as duplicates or with their connection, each key's table is counters 1..M with the ratchet states, so a boot at any moment loads it |
| MultiWriter.IssuedCountersDistinct | qv-server/server-sovereign.mjs:626-632 | over those runs no two completed issues of any processes hold the same counter of a key; which ones are completed, the next rows say |
| IssueCompletion.RowsCompleteOnce | qv-server/server-sovereign.mjs:626-650 | over those runs every row of every table is there for exactly one request; that request is completed, with the row's key and counter, if and only if its process has read the answer; it is completed once, and nothing else is |
| IssueCompletion.ReadCompletesIff | qv-server/server-sovereign.mjs:626-650 | in every state of those runs, reading the next answer completes its request at that moment if and only if the insert was accepted, and completes nobody else's |
| IssueCompletion.FailedInsertCompletesNothing | qv-server/chain-store-postgres.mjs:128-145 | an insert that fails on a live connection changes no table, is answered in its turn, and completes nothing when its answer is read |
| IssueCompletion.FirstIssueCompletes | qv-server/server-sovereign.mjs:626-650 | one process, one key, one ordinary request, its insert taken and its answer read: the history is that one completed issue with counter 1 |
| IssueCompletion.LoadTakesUpIff | qv-server/chain-store-postgres.mjs:95-126 | a boot takes up a key, at the end of its rows, if and only if they are the chain of its seed; otherwise the process is over |
| IssueCompletion.MemoryCountsIssues | qv-server/server-sovereign.mjs:626-632 | over any steps a process's own chain moves by exactly its own issues of the key, whether they insert, complete, lose the race or fail |
| IssueCompletion.EchoedCounterIff | qv-server/server-sovereign.mjs:626-644 | the counter that the reply echoes after the insert is the token's if and only if the process began no other issue of the key in between; otherwise it is a later one |
| IssueCompletion.LossSilences | qv-server/postgres.mjs:94-158 | after a lost connection or lock a process never puts another insert on its connection; after a lost connection none of its requests completes, and without inserts in flight it gets no row |
| MultiWriter.LosersKeepLinking | qv-server/chain-store-postgres.mjs:95-145 | over those runs a writer that lost races stays on the ratchet without a refresh and its next insert is accepted exactly when it is one past the table |
| MultiWriter.TablesOnlyGrow | qv-server/chain-store-postgres.mjs:128-145 | over those runs an earlier table is a prefix of every later one |
| MultiWriter.SpuriousFailureHarmlessIff | qv-server/chain-store-postgres.mjs:128-145 | an insert that fails for another reason while the next one succeeds leaves the table loadable if and only if it was a duplicate |
| MultiWriter.IssueSafeIff | qv-server/server-sovereign.mjs:417-425 | in every good state and for every request that reaches the issuer: all continuations keep every table loadable if and only if the request is sound and the lease can be read at the check, or the process has lost its connection or its lock, or the counter that the issue burns is in the table or on the way there |
| MultiWriter.SixteenClaimsBreakTable | qv-server/server-sovereign.mjs:626-650 | one process, one key, one request with sixteen claims and an ordinary one: the next boot is refused the table at its first record |
| MultiWriter.OddTtlBreaksTable | qv-sdk/src/index.mjs:282-291 | the same with no claims and the lifetime {"toString":0} |
| MultiWriter.UnreadLeaseBreaksTable | qv-server/server-sovereign.mjs:417-425 | the same with two ordinary requests, the lease unreadable at the first check only |
| WriterLock.Lock.AcquireLease | qv-server/writer-lock.mjs:73-126 | with permission to steal a fence is handed out if and only if the file is missing or unreadable or its holder is not alive (no date or one that is past, another host, a dead pid), without it only if the file is missing or unreadable; the new lease carries this holder, host, pid, expiry and the next fence, which is 1 after a lease that does not read; a refusal leaves the file alone |
| WriterLock.Lock.CheckFence | qv-server/writer-lock.mjs:146-169 | the check succeeds exactly when the lock is not released and the file still names this holder and fence |
| WriterLock.Lock.Renew | qv-server/writer-lock.mjs:171-184 | renewing rewrites only an own lease, keeps its fence, and never turns a lost lock into a good one |
| WriterLock.Lock.Release | qv-server/writer-lock.mjs:186-193 | releasing is idempotent, ends all successful checks, and deletes the file only while it carries this holder |
| LeaseRuns.BootAdmittedIff | qv-server/writer-lock.mjs:73-126 | over the fields of the file: a boot that may steal is admitted if and only if there is no readable lease, or it has no date or is past it, or names another host or a dead pid; one that may not steal only in the first case; what either leaves in the file |
| LeaseRuns.NextBootAdmittedIff | qv-server/writer-lock.mjs:73-184 | after an admitted boot or a renewal, the next boot that may steal is admitted if and only if the lifetime is over, it comes from another host, or the holder is dead |
| LeaseRuns.HealthyHolderStays | qv-server/writer-lock.mjs:73-194 | over every run in which the holder lives and does not release, its lease is not damaged and every boot comes from its host before the lease, renewed or not, runs out: no boot is handed a fence, the file keeps naming the holder with its fence, and it is the only process that passes |
| LeaseRuns.EndsForGood | qv-server/writer-lock.mjs:146-193 | release, death, a crash in an append and damage to the file end the successful checks of a process in every continuation |
| LeaseRuns.ReleaseFreesCrashDoesNot | qv-server/writer-lock.mjs:186-193 | after the holder's release any boot is admitted with fence 1; after its death one is if and only if it may steal and finds the holder not alive |
| LeaseRuns.LoadTakesUpIff | qv-server/server-sovereign.mjs:359-370 | a boot takes up a key at the end of its log if and only if the log verifies; otherwise the process is over |
| LeaseRuns.MemoryCountsIssues | qv-server/server-sovereign.mjs:626-632 | as long as a process lives its own chain moves by exactly its own issues of the key, whatever becomes of them |
| FencedWriter.AtMostOnePasses | qv-server/writer-lock.mjs:146-169 | in every state at most one process passes the fence check |
| FencedWriter.FailedCheckFinalIff | qv-server/writer-lock.mjs:146-169 | after a fence check fails, every later check of that process fails in every continuation, if and only if the lease could be read at that check or the process had lost it |
| FencedWriter.LossIsFinalFrom | qv-server/writer-lock.mjs:73-194 | a process that has released its lock, or that the lease file does not name with its fence, never passes again, whatever happens later |
| FencedWriter.FenceIsExclusive | qv-server/writer-lock.mjs:73-194 | once another process passes, a process that had booted is shut out now and in every continuation |
| FencedWriter.IssueAppendsNextLink | qv-server/server-sovereign.mjs:417-425 | an issue appends nothing without the lease and exactly the next link with it, touching no other log |
| FencedWriter.LogFollowsHolder | qv-server/server-sovereign.mjs:417-425 | over every run of boots, steals, loads, sound issues with a readable lease and a whole record, renewals, releases, lease damage, and crashes that leave whole records, each log verifies, and its length and state are what the passing process holds in memory |
| FencedWriter.IssueSafeIff | qv-server/server-sovereign.mjs:417-425 | in every good state and for every request that reaches the issuer: all continuations keep every log loadable if and only if the request is sound, the lease can be read and the whole record is written, or the process has lost the lease anyway |
| FencedWriter.UnreadLeaseBreaksLogIff | qv-server/server-sovereign.mjs:417-425 | a sound issue whose lease is unreadable at the check, followed by a sound one, leaves a gap in the log if and only if the process held the lease and the key, and leaves the log as it was otherwise |
| FencedWriter.TornAppendLoadsIff | qv-server/server-sovereign.mjs:417-425 | a crash in the middle of an append leaves a loadable log if and only if none or all of the record was written; otherwise it is corrupt |
| FencedWriter.FailedAppendThenIssue | qv-server/chain-store.mjs:59-71 | an append that fails after some bytes while the process lives on, then a good issue: a gap after none, a corrupt log after a part, a good log after the whole record |
| FencedWriter.SixteenClaimsBreakLog | qv-server/server-sovereign.mjs:626-650 | one boot, one request with sixteen claims and an ordinary one: the log is refused at its first record |
| FencedWriter.OddTtlBreaksLog | qv-sdk/src/index.mjs:282-291 | the same with no claims and the lifetime {"toString":0} |
| FencedWriter.FenceGrowsIff | qv-server/writer-lock.mjs:73-126 | over every run the next successful boot gets a larger fence than the last one handed out if and only if none was handed out yet or the lease file is there with a readable fence |
| FencedWriter.FencesDistinctWhileLeaseStays | qv-server/writer-lock.mjs:73-126 | while the lease file is never removed or damaged no two processes share a fence number |
| FencedWriter.FenceRestarts | qv-server/writer-lock.mjs:73-194 | with the default lease of 30 seconds: after a steal and a release a stalled process meets its own fence number again, and only its holder id keeps it out |
| LimiterLevels.DrawByLevel | qv-server/ratelimit.mjs:155-224 | refill and draw answer from the refilled level alone and leave it one token lower, or as it was |
| LimiterLevels.DrawIpByLevel | qv-server/ratelimit.mjs:177-239 | a check or failed-login count moves the level of its own (address, category) slot and of no other |
| LimiterLevels.CheckKeyByLevel | qv-server/ratelimit.mjs:252-287 | the same for a key's slot, whose limit never changes between calls |
| LimiterLevels.SweepByLevel | qv-server/ratelimit.mjs:289-299 | with an idle window of a minute or more a sweep drops only slots that are full again |
| LimiterRuns.AlikeStep | qv-server/ratelimit.mjs:197-287 | two limiters with equal levels answer an admitted call alike and stay alike |
| LimiterRuns.SweptRunAlike | qv-server/ratelimit.mjs:197-346 | over whole call sequences a limiter swept at arbitrary times simulates one that never is, for all four categories and all keys |
| LimiterTheorems.SweepsInvisibleIff | qv-server/ratelimit.mjs:151-299 | below the caps replies never reveal a sweep, if and only if the idle window is at least 60 seconds or the cap is 0 |
| LimiterTheorems.RateBoundedIff | qv-server/ratelimit.mjs:151-299 | in every window of every run a slot grants at most rpm + rpm * minutes, if and only if the same condition holds |
| LimiterTheorems.SlotRateBound | qv-server/ratelimit.mjs:197-239 | the rate bound for one (address, category) slot, sweeps included |
| LimiterTheorems.KeyRateBound | qv-server/ratelimit.mjs:252-287 | the rate bound for one key |
| LimiterTheorems.ReachableSound | qv-server/ratelimit.mjs:151-299 | every limiter that a run with a forward clock can reach is sound, which is all that the exactness lemmas below ask of it |
| LimiterTheorems.TokensBounded | qv-server/ratelimit.mjs:151-183 | after any run tokens lie between 0 and capacity, capacity is the rate, and neither map exceeds its cap |
| LimiterTheorems.RetryIsExact | qv-server/ratelimit.mjs:222-224 | after a rate denial the announced wait is enough and one second less is not |
| LimiterTheorems.ResetIsExact | qv-server/ratelimit.mjs:214-220 | an allowed verdict's reset is the least whole number of seconds after which the slot is full |
| LimiterTheorems.KeyRetryIsExact | qv-server/ratelimit.mjs:285-286 | the exact wait after a denial for a key |
| LimiterTheorems.KeyResetIsExact | qv-server/ratelimit.mjs:278-283 | the exact reset of an allowed verdict for a key |
| LimiterTheorems.QuotaIsExact | qv-server/ratelimit.mjs:310-346 | a snapshot of k tokens means that exactly the next k immediate key checks succeed and the one after fails |
| LimiterTheorems.QuotaHonestIff | qv-server/ratelimit.mjs:310-346 | the snapshot predicts the next check if and only if the key is known or there is room for it |
| LimiterConfig.KeyCallsFollowConfig | qv-server/ratelimit.mjs:252-346 | a key call is waved through without a trace, and has no quota, if and only if the limiter is off, the key's override is 0, or it has none and the operation is not issuing or has no default; otherwise verdict and quota name the override, or the issue default |
| LimiterConfig.KeyGrantsFollowConfig | qv-server/ratelimit.mjs:252-287 | in every window of every run a key is granted at most r + r * minutes, r being its override, or the issue default if it has none |
| LimiterConfig.UnlimitedKeysLeaveNoEntry | qv-server/ratelimit.mjs:252-263 | a key that nothing limits never has an entry, over every run |
| LimiterConfig.FirstBurstFollowsConfig | qv-server/ratelimit.mjs:252-287 | a new key with limit r gets exactly r calls at one moment, and the next is told to wait 60 / r seconds, rounded up |
| LimiterConfig.ChangedLimit | qv-server/ratelimit.mjs:270-286 | after its configured limit has changed a key's bucket is cut down to the new one if it holds more, and gains nothing |
| LimiterConfig.OverrideBeatsDefault | qv-server/ratelimit.mjs:252-346 | default 60 and override 1: the second call at one moment is refused for 60 seconds with limit 1, still refused at 59999 ms and served at 60000; another key gets 60 |
| LimiterConfig.AddressCallsFollowConfig | qv-server/ratelimit.mjs:197-239 | each category's verdicts name its own configured limit; off means waved through without a trace; at the cap a new address is refused for a minute without one; a failed login is counted even when limits are off |
| LimiterConfig.AddressGrantsFollowConfig | qv-server/ratelimit.mjs:197-239 | in every window of every run an address is granted at most r + r * minutes of a category, r being that category's configured limit |
| RateLimit.RateLimiter.Check | qv-server/ratelimit.mjs:197-225 | the in-place check yields the specified verdict and maps |
| RateLimit.RateLimiter.RecordAuthFail | qv-server/ratelimit.mjs:227-239 | the in-place failed-login count yields the specified verdict and maps, also when limits are disabled |
| RateLimit.RateLimiter.CheckKey | qv-server/ratelimit.mjs:252-287 | the in-place key check yields the specified verdict and maps, which `LimiterConfig` ties to the overrides and the issue default |
| RateLimit.RateLimiter.Sweep | qv-server/ratelimit.mjs:289-299 | the two deletion loops keep exactly the entries seen since the cutoff and count the others |
| RateLimit.RateLimiter.QuotaSnapshot | qv-server/ratelimit.mjs:310-346 | the snapshot reads the specified tokens and capacity, the configured limit, and changes nothing |
| Murmur.Imul32Exact | qv-server/verify-pool.mjs:36-40 | the 16-bit-limb product is multiplication mod 2^32, for operands of either sign |
| Murmur.LimbProductsExactInDoubles | qv-server/verify-pool.mjs:36-40 | every intermediate of the limb product is below 2^33, so doubles hold it exactly |
| Murmur.Rotl32Exact | qv-server/verify-pool.mjs:35-35 | shift, shift, or is the rotation of the 32-bit word |
| Murmur.TailWord | qv-server/verify-pool.mjs:41-73 | the exclusive-or of shifted tail bytes is their little-endian value |
| Murmur.Murmur3_32 | qv-server/verify-pool.mjs:41-73 | for every byte string and seed: no hash if the low 32 bits of the length reach 2^31 + 4, and otherwise the MurmurHash3_x86_32 recurrence on the bytes within reach of 32-bit offsets |
| Murmur.SeenWhole | qv-server/verify-pool.mjs:41-73 | up to 2^31 bytes everything is within reach, so the hash is that of the whole input |
| MurmurVectors.HelloSeedZero | qv-server/verify-pool.mjs:34-73 | the recurrence gives "hello" with seed 0 the published value 0x248bfa47 |
| MurmurVectors.NoBytesSeedOne | qv-server/verify-pool.mjs:34-73 | the recurrence gives no bytes with seed 1 the published value 0x514e28b7 |
| PoolModel.WorkerForKey | qv-server/verify-pool.mjs:199-207 | a key is always sent to one index below the pool size |
| PoolModel.ExactlyOnePlace | qv-server/verify-pool.mjs:97-264 | after any run in either mode each submitted job is queued, pending or settled, never two of these, and its promise is settled exactly once or not yet |
| PoolModel.OutcomesAreFinal | qv-server/verify-pool.mjs:97-264 | a settled promise keeps its outcome whatever happens later |
| PoolModel.WorkersServeOneJob | qv-server/verify-pool.mjs:175-264 | a worker has at most one pending job, an idle one none, and a job waits only while no worker it may use is idle |
| PoolModel.DispatchedInOrder | qv-server/verify-pool.mjs:175-264 | jobs of one queue reach workers in submission order and no waiting job is overtaken |
| PoolModel.ShareBound | qv-server/verify-pool.mjs:99-99 | the rounded-up shares add up to at most queueMax + size - 1 if and only if queueMax is at least 1 |
| PoolModel.DepthIsBounded | qv-server/verify-pool.mjs:209-243 | total queue depth is at most queueMax, or queueMax + size - 1 under affinity, or size when queueMax is 0 |
| PoolOutcomes.OutcomeIff | qv-server/verify-pool.mjs:146-264 | over every run in either mode: a job has outcome o if and only if an event settled it whose outcome o is, and only one ever does: a reply to its own pending id with that reply, an error of its worker or of the worker it waits for with WORKER_ERROR, the shutdown with POOL_SHUTDOWN, its own run with POOL_OVERLOADED exactly when its slot was gone, or no worker it may use was free and its queue held its share of the configured maximum |
| PoolOutcomes.NoWorkerIsLost | qv-server/verify-pool.mjs:154-195 | after any run a slot is marked busy exactly while a job is pending on it, and in round-robin mode every worker is idle, works, or has failed |
| PoolOutcomes.KeysStayOnTheirWorker | qv-server/verify-pool.mjs:199-243 | over every run under affinity the jobs of a key id wait for, run on and are posted to its own worker only |
| PoolOutcomes.SlotOfHello | qv-server/verify-pool.mjs:199-207 | slot 0 without a key id, and for "hello" the slot of its published hash with seed 0 |
| PoolOutcomes.RejectsAreCounted | qv-server/verify-pool.mjs:209-243 | the counters are the numbers of jobs turned away, in all and by the slot of their key id |
| VerifyPool.VerifyPool.RunJob | qv-server/verify-pool.mjs:209-243 | the object's run, in both dispatch modes, is the specified submission |
| VerifyPool.VerifyPool.OnMessage | qv-server/verify-pool.mjs:146-153 | a worker's reply resolves the promise of its own pending job with that reply, no other promise, and hands the worker the next job as specified |
| VerifyPool.VerifyPool.OnError | qv-server/verify-pool.mjs:154-171 | a worker error settles exactly that worker's job and, under affinity, its queue |
| VerifyPool.VerifyPool.ShutdownPool | qv-server/verify-pool.mjs:245-264 | shutdown settles everything queued and pending once and leaves no worker |
| PgError.DecodeEndsIff | qv-server/postgres.mjs:455-471 | the field walk of an error message ends if and only if the payload is fields, each a non-zero tag and a zero-terminated value, up to its end or to a zero tag |
| PgError.LoneTagHangs | qv-server/postgres.mjs:455-471 | a payload of one tag and nothing else makes the walk start over for ever |
| PgError.FieldsReadBack | qv-server/postgres.mjs:455-471 | what the walk reads out of a payload made of fields is those fields |
| PgError.DecodeError | qv-server/postgres.mjs:455-471 | on the payloads on which it ends the loop yields the last value of each of the five known tags |
| PgStream.SplitAppend | qv-server/postgres.mjs:103-113 | frames and residue depend on the concatenation of the bytes, never on chunk boundaries |
| PgStream.SentFramesParseBack | qv-server/postgres.mjs:130-141 | a sent frame parses back to its tag and body, whatever follows it |
| PgStream.PgClient.Enqueue | qv-server/postgres.mjs:143-158 | a query joins the back of the queue, or is rejected at once after a fatal error |
| PgStream.PgClient.DispatchFrame | qv-server/postgres.mjs:115-128 | a frame acts on the front query only, and is dropped when none waits; an endless error message leaves the client hung |
| PgStream.PgClient.OnData | qv-server/postgres.mjs:103-113 | for every length field the loop dispatches exactly the complete frames and keeps the rest, unless a handler hangs |
| PgStream.HangsIff | qv-server/postgres.mjs:103-128 | a chunk's frames hang the client if and only if one of them is an error message whose field walk does not end and that finds a query waiting |
| PgStream.LoneTagHangsClient | qv-server/postgres.mjs:103-128 | one query outstanding and the six bytes 45 00 00 00 05 53: the query is never settled, nor is anything after it |
| PgStream.PgClient.Fail | qv-server/postgres.mjs:94-101 | a fatal error rejects every outstanding query in order |
| PgStream.SettledInOrder | qv-server/postgres.mjs:94-158 | over any events up to a hang, settled queries followed by waiting ones are exactly the queries sent, in order |
| PgStream.GoesOn | qv-server/postgres.mjs:103-158 | a run in which no endless error message arrives never hangs, and its buffer is what is left of all bytes received |
| PgStream.CollectsResponse | qv-server/postgres.mjs:361-425 | a fresh query given one response, its error messages with terminated fields, is settled at its ReadyForQuery, with all its rows or its last error |
| PgStream.EachQueryItsResponse | qv-server/postgres.mjs:361-425 | the i-th outstanding query gets exactly the i-th response, also after errors |
| PgStream.RunNormalForm | qv-server/postgres.mjs:103-158 | any interleaving of sends and chunks that does not hang ends as if all queries were sent first and all bytes came at once, if only notices and parameter messages arrive while nothing is outstanding |
| PgStream.PipelineMatchesResponses | qv-server/postgres.mjs:103-158 | over a whole pipelined connection, however the bytes were cut, the first k queries are settled from the k responses received, and the next one has collected what has come of its own |
| PgStream.DataRowRoundTrip | qv-server/postgres.mjs:361-425 | a row of up to 65535 columns decodes to the values it was made of, nulls included |
| PgWire.ReactByLetter | qv-server/postgres.mjs:361-425 | by message letter: D adds its row, E replaces the error so far, Z ends the query, T and C I n 1 2 s N S change nothing, and everything else, or what does not decode, rejects the query |
| PgWire.ErrorByLetter | qv-server/postgres.mjs:455-471 | S, C, M, D and H are severity, code, message, detail and hint |
| PgWire.FrameBytes | qv-server/postgres.mjs:130-141 | a frame is its letter, four bytes of length that count themselves, and the body; without a letter just the rest |
| PgWire.RowOfTwo | qv-server/postgres.mjs:379-392 | the bytes of a row of "a" and null decode to them |
| PgWire.SliceMeans | qv-server/postgres.mjs:379-392 | a value is the slice of the message up to its end, a negative end counted from the back and an end beyond the message cut |
| PgWire.TwosComplement | qv-server/postgres.mjs:379-392 | a length field is read as a signed number in two's complement |
| PgWire.BrokenRejectsForGood | qv-server/postgres.mjs:94-158 | when a connection breaks, in any run, every waiting query is rejected in order; whatever happens later, every further query is rejected and nothing else is settled |
| Base64.Encode | qv-cli/src/main.rs:290-309 | the text has 4 * ceil(n/3) characters, digits then padding, and its digits are the data's number with zero bits appended |
| Base64.Accept | qv-cli/src/main.rs:316-333 | one digit keeps the buffer below 2^bits with bits below 8, loses nothing out of the 32 bits, and moves at most one octet out |
| Base64.Decode | qv-cli/src/main.rs:312-336 | the bytes are the digits' number without its last incomplete octet, or the error is the first unreadable character |
| Base64.RoundTrip | qv-cli/src/main.rs:290-336 | any decoding of an encoded text is the data |
| Base64.DecodingUnique | qv-cli/src/main.rs:312-336 | a text has only one decoding |
| Base64.EncodeThenDecode | qv-cli/src/main.rs:290-336 | decoding the encoding returns the data for every byte string |
| Base64Table.ReadByTable | qv-cli/src/main.rs:290-336 | a character is digit v if and only if it is letter v of the 64-letter table or its URL-safe form; exactly padding and four kinds of white space are passed over; the encoder's letters are the table's |
| Base64Table.EncodingUnique | qv-cli/src/main.rs:290-309 | data has only one encoded text |
| Base64Table.FoIsZm8 | qv-cli/src/main.rs:290-309 | "fo" is encoded as "Zm8=" and as nothing else, as in section 10 of RFC 4648 |
| Token.SuiteFrom | qv-core/src/crypto/suite.rs:20-33 | a suite byte is accepted exactly when it is some suite's byte, and reads as that suite |
| Token.TypeFrom | qv-core/src/token.rs:13-23 | the same for the token type byte |
| Token.ToBytes | qv-core/src/token.rs:65-83 | the pushes produce the signed bytes followed by the signature |
| Token.SignedBytes | qv-core/src/token.rs:133-149 | the pushes produce header, payload and counter, all that the signature covers |
| Token.FromBytesIff | qv-core/src/token.rs:86-130 | bytes parse to a token if and only if they are its serialisation, its payload is below 2^32 bytes and it is signed |
| Token.RoundTripIff | qv-core/src/token.rs:65-130 | a token reads back as itself exactly under those two conditions |
| Token.LongPayloadIsCut | qv-core/src/token.rs:65-130 | a payload of 2^32 bytes or more comes back cut short without an error |
| Token.SignedInjective | qv-core/src/token.rs:133-149 | equal signed bytes mean equal header and payload, for payloads of any length |
| TokenAcceptance.SignedLayout | qv-core/src/token.rs:133-149 | the signed bytes by offset: "QVLT", version 3.0, suite, type, issue time, lifetime, nonce, fingerprint, payload length modulo 2^32, payload, counter; the signature follows them on the wire |
| TokenAcceptance.FromBytesFault | qv-core/src/token.rs:86-130 | bytes that do not parse are told the first check of the layout that they fail |
| TokenAcceptance.SuiteAndTypeBytes | qv-core/src/crypto/suite.rs:9-33 | the five suite bytes and the three type bytes |
| Claims.Encode | qv-core/src/claims.rs:30-41 | the loop encodes the map in whatever order it is walked, or names the first cap it breaks |
| Claims.EncodesIff | qv-core/src/claims.rs:30-77 | claims encode exactly when there are at most 15 and no string exceeds 255 bytes |
| Claims.DecodeStr | qv-core/src/claims.rs:80-101 | a decoded string lies inside the buffer, which the cursor never leaves |
| Claims.Decode | qv-core/src/claims.rs:44-63 | the loop terminates on arbitrary bytes with its cursor inside the buffer and returns the specified map or error |
| Claims.RoundTrip | qv-core/src/claims.rs:30-101 | encoded claims decode to themselves, for every iteration order and whatever bytes follow |
| Claims.DecodedReencodes | qv-core/src/claims.rs:30-101 | whatever decodes can be encoded again in any order and decodes to the same claims |
| Claims.OneClaimBytes | qv-core/src/claims.rs:30-77 | a claim is its key and then its value, each after its own header, behind the map's tag |
| Claims.DecodeStrIff | qv-core/src/claims.rs:80-101 | exactly what is read as a string from the front of a buffer: either header, the long one also for short strings, and valid UTF-8 |
| Claims.LastValueWins | qv-core/src/claims.rs:44-63 | a key that comes twice has its last value |
| Issuance.CertifyEntropy | qv-core/src/mutation.rs:51-68 | accepts exactly when at least 85 of 100 four-byte windows are distinct, and short inputs |
| Issuance.IssueToken | qv-core/src/issuance.rs:25-71 | the chain advances before everything that can fail except the entropy check, also at the last counter; the token carries the advanced counter |
| Issuance.ChainOnlyAdvances | qv-core/src/issuance.rs:37-71 | over any run of issues, failures included, the chain only moves forward and stays on its ratchet |
| Issuance.CountersIncrease | qv-core/src/issuance.rs:37-71 | issued counters strictly increase, also across issues that failed after the advance |
| TokenAcceptance.IssuesIff | qv-core/src/issuance.rs:25-71 | a token is issued if and only if the nonce is certified, the claims are within the caps, and cipher and signer do their part; otherwise the first failure is named; the chain advances by one unless it was the nonce |
| TokenAcceptance.IssuedCarries | qv-core/src/issuance.rs:37-71 | an issued token carries what was asked for, the given fingerprint or without one the hash of the nonce, and the advanced counter; its payload is the sealed claims, its signature the signer's of exactly these bytes |
| TokenVerify.ExpirySumFitsIff | qv-core/src/verify.rs:35-47 | because future dates are refused first, the expiry sum fits 64 bits for every token exactly when the clock is this far from its end |
| TokenVerify.OrdersAcceptTheSame | qv-core/src/verify.rs:25-134 | the ML-DSA and Falcon layer orders accept the same tokens of their suite with the same output; which ones, `TokenAcceptance.AcceptsIff` says |
| TokenAcceptance.AcceptsIff | qv-core/src/verify.rs:25-134 | for every token: either order answers Ok(o) if and only if the public key accepts the signature of its bytes, the nonce is certified, the time lies in the lifetime, the counter is beyond the verifier's, the cipher opens the payload, and o is the claims decoded from there with the header's fields; the Falcon order also wants its own suite |
| TokenAcceptance.ForgedIsRefused | qv-core/src/verify.rs:25-134 | a token whose signature the public key does not accept is refused on both orders, whatever else it holds |
| TokenAcceptance.FaultIsFirstFailure | qv-core/src/verify.rs:25-134 | which fault is told: the first layer, in the order of the path, that the token fails |
| TokenVerify.IssuedTravels | qv-core/src/issuance.rs:25-136 | an issued token survives serialising and parsing, its signature verifies and its payload opens |
| TokenVerify.IssuedVerifiesIff | qv-core/src/verify.rs:25-134 | an issued, serialised, parsed token verified in its lifetime yields exactly the issued claims if its counter exceeds the verifier's, and is a replay otherwise, on both orders |
| TokenVerify.IssuedExpires | qv-core/src/verify.rs:35-134 | outside its lifetime it is refused on both orders whatever its counter, as not yet valid before it and as expired after it |
| TokenVerify.RunVerifies | qv-core/src/verify.rs:25-134 | over a run of issues a verifier that has seen one token accepts exactly the later ones, on both orders |
| Durable.DurablePrefix | qv-server/durable.mjs:25-57 | what is on disk after each step of a durable write, path by path |
| Durable.OldOrNew | qv-server/durable.mjs:25-57 | a crash at any point leaves all old or all new bytes and nothing else changed; after the directory sync the new bytes stay |
| Durable.FileSystem.WriteFileDurable | qv-server/durable.mjs:25-57 | the calls are exactly temporary, write, sync, rename, directory sync |
| Durable.FileSystem.CleanupStaleTmp | qv-server/durable.mjs:63-68 | only a leftover temporary is removed |
| RotateMaster.ResealedSameKeys | qv-server/rotate-master.mjs:136-175 | the new keystore opens under the new master to the same keys for every key id, legacy entries included, and is sealed throughout |
| RotateMaster.BoundToPlace | qv-server/rotate-master.mjs:69-90 | a sealed entry opens only under its own key id, each blob only for its own purpose, if what is sealed for one purpose does not open for another |
| RotateMaster.OpenEntries | qv-server/rotate-master.mjs:136-159 | the first pass opens every entry or names the first that does not open |
| RotateMaster.SealEntries | qv-server/rotate-master.mjs:162-175 | the second pass seals exactly the opened entries |
| RotateMaster.Rotate | qv-server/rotate-master.mjs:121-200 | rotation succeeds exactly when both files exist and every entry opens; otherwise the error names the missing file or the first entry that stays shut, and then, as on a dry run, no file but a stale temporary changes |
| RotateMaster.Replace | qv-server/rotate-master.mjs:182-197 | the tool performs exactly the operations, in the order, whose every prefix the crash lemmas cover |
| RotateMaster.StageReached | qv-server/rotate-master.mjs:182-197 | which of the four files hold what after every prefix of the disk operations |
| RotateMaster.CrashRecoverable | qv-server/rotate-master.mjs:182-197 | wherever a crash cuts the rotation a pair that opens to the original keys is on disk, and two live files always match |
| RotateMaster.FinishedStays | qv-server/rotate-master.mjs:182-197 | a finished rotation survives any crash with the new master live and the old pair backed up |
| RotateMaster.RerunRefusedBetween | qv-server/rotate-master.mjs:126-127 | a second run gets past the existence checks exactly when nothing was moved or everything was written |
| Restart.LoadMasterKey | qv-server/master-key.mjs:64-82 | the file provider returns the 32 bytes on disk, refuses a file of another size, and writes a generated key when there is none |
| Restart.LoadKeystore | qv-server/server-sovereign.mjs:330-377 | the keys are those of the entries that open, each with the end of its verified chain; a chain that does not verify ends the start; the file is saved anew exactly when it had a legacy entry, and then holds just those keys |
| Restart.MasterFileOf32 | qv-server/master-key.mjs:64-82 | the master file is used exactly if it holds 32 bytes; without one a key is made and is on disk, synced, before it is used |
| Restart.MigrationSaves | qv-server/server-sovereign.mjs:330-397 | a start whose chains verify has the keys of the entries that open; if any entry is in the clear the file is written anew with just these, all sealed, so that an entry that did not open is gone; otherwise the file stays as it is |
| Restart.RestartAfterCrash | qv-server/server-sovereign.mjs:330-377 | wherever a rotation is cut and the server started again: a pair that opens to the original keys is on disk still; with both live files there all keys are loaded unless a chain does not verify, and none otherwise; the live pair opens to them exactly if both were there or the keystore was there and is empty |
| Restart.RerunAfterRestart | qv-server/rotate-master.mjs:121-159 | once a start has generated a master beside the new keystore, another run of the tool passes its existence checks, opens everything when given the new master as the old one, and with any wrong key names the first entry |
| Audit.Auditor.OpenLog | qv-server/audit.mjs:90-94 | opening creates a missing live file and takes its size |
| Audit.Auditor.Rotate | qv-server/audit.mjs:109-131 | for every directory, with gaps or with archives beyond the retention: the descending renames leave exactly the specified directory |
| Audit.Auditor.Event | qv-server/audit.mjs:148-172 | a line is appended and counted and may rotate; a failed write silences the file for good |
| Audit.EventMoves | qv-server/audit.mjs:109-172 | an event adds its line at the end of the live file; exactly if that file has then reached the limit, and there are archives, it becomes archive 1 and a new one starts; after a failed write no file changes any more |
| Audit.RotationDropsOldest | qv-server/audit.mjs:109-131 | one rotation loses at most the last archive of the retention, and exactly when that name and the one before it are both taken; archives beyond the retention stay |
| Audit.KeepsSuffix | qv-server/audit.mjs:109-172 | over any run from any directory: what the retention holds, oldest first, is a suffix of what it held and everything logged, archives beyond it are untouched, and the byte count is right |
| Audit.NothingLostEarly | qv-server/audit.mjs:109-172 | as long as no rotation has overwritten an archive, nothing is lost |
| Audit.ArchivesGrow | qv-server/audit.mjs:109-172 | from a gapless start the archives stay gapless and number min(before + rotations, keep), and exactly the rotations beyond that overwrite one each |
| Audit.LiveStaysSmall | qv-server/audit.mjs:161-168 | with archives and a limit the live file is below the limit after every event |
| Cidr.InRange | qv-server/cidr.mjs:96-106 | the byte-mask loop compares exactly the bits under the mask and never reads past the address |
| Cidr.AgreeIffSameNetwork | qv-server/cidr.mjs:96-106 | those bits agree if and only if the two numbers without their host bits are equal |
| Cidr.ParseCidr | qv-server/cidr.mjs:72-82 | an entry is accepted if and only if it stands for an address and a mask that fits it |
| Cidr.ParseAll | qv-server/cidr.mjs:88-89 | the entries parse to their ranges in order, or to the first one that is not accepted |
| Cidr.LoadCidrList | qv-server/cidr.mjs:84-90 | a list text loads if and only if every piece between its commas is blank or, trimmed, an accepted entry; the ranges are those of the entries in order, the error the first that is refused |
| Cidr.EntriesOfJoin | qv-server/cidr.mjs:84-88 | comma-free pieces joined by commas are read back, the blank ones dropped |
| Parts.TrimIff | qv-server/cidr.mjs:87-87 | trimming yields exactly the text between the outer spaces |
| Parts.SpaceCodes | qv-server/cidr.mjs:87-87 | the 25 characters that trimming removes |
| Cidr.MatchesAny | qv-server/cidr.mjs:63-108 | an address text passes if and only if the list is empty or the text, its zone cut off, denotes an address and some range of its family has its network |
| AddressText.CutAtFirstZone | qv-server/cidr.mjs:63-67 | a text is cut at its first percent sign that no line end follows, and not at all without one |
| AddressText.DottedText | qv-server/cidr.mjs:18-70 | a text without a colon, with or without a zone, stands for an IPv4 address if and only if it is four parts between dots that read as octets, and for those |
| AddressText.ColonText | qv-server/cidr.mjs:30-70 | a text with a colon that is not an IPv4-mapped one in dots stands for an IPv6 address if and only if its eight groups read as words, and for those in order |
| AddressText.MappedText | qv-server/cidr.mjs:30-70 | "::ffff:" and four runs of digits stand for ten zero bytes, two of 255 and the four octets |
| AddressText.EntryText | qv-server/cidr.mjs:72-82 | an entry without a slash is its one address with all 32 or 128 bits; with one, the mask is the number after it |
| AddressText.FullAndEmptyMasks | qv-server/cidr.mjs:96-108 | a range with all bits holds its one address, one with none every address of its family |
| Ipv4.ParseV4 | qv-server/cidr.mjs:18-28 | the loop yields the four parts as octets, or refuses the text |
| Ipv4.DottedDenotes | qv-server/cidr.mjs:18-28 | a text denotes four octets if and only if it is four dot-free parts that read as those numbers |
| Ipv6.ParseV6 | qv-server/cidr.mjs:30-61 | the sixteen bytes are the prefix and octets of an IPv4-mapped text, or the eight expanded groups as words, or the text is refused |
| Ipv6.AbbreviationDenotes | qv-server/cidr.mjs:43-52 | "::" between plain groups stands for exactly the missing zero groups; too many groups are refused |
| Ipv6.FullFormDenotes | qv-server/cidr.mjs:51-52 | a text without "::" is its groups and must have eight |
| Ipv6.SecondPairDropped | qv-server/cidr.mjs:43-50 | a second "::" is accepted and everything from it on is ignored |
| Ipv6.ReadableIff | qv-server/cidr.mjs:42-53 | exactly the texts that read as eight non-empty groups: eight plain groups, or at most eight around "::", possibly followed by a second "::" and anything |
| Ipv6.GrammaticalIff | qv-server/cidr.mjs:42-53 | of those, exactly the ones with no second "::" and fewer than eight groups around the first have the form of section 2.2 of RFC 4291 |
| Ipv6.MappedAsGroups | qv-server/cidr.mjs:31-41 | the dotted form of an IPv4-mapped address and its form in groups have the same bytes |
| Ipv6.WordsInOrder | qv-server/cidr.mjs:54-59 | each group becomes its two bytes in order |

## Left out

- Ratchet.MutationChain.Advance: the counter wraps as in a release build; a debug build stops instead.
- Issuance.CountersIncrease: stated for runs that stay below 2^64 issues of a key.
- FencedWriter.LogFollowsHolder: stated for clean runs; `IssueSafeIff`, `FailedAppendThenIssue` and `TornAppendLoadsIff` say exactly what each of the other steps does. The writer lock is on, as by default. Check and append are one step, as in the synchronous file backend; a steal by another host between the two system calls is not modelled.
- FencedWriter.IssueSafeIff: for counters at least two below 2^64, so that the next records can be written.
- FencedWriter.LossIsFinalFrom: holder ids are fresh UUIDs, so no process is ever given one that was used before.
- MultiWriter.TableAlwaysLinked: stated for clean runs; `IssueSafeIff` and `SpuriousFailureHarmlessIff` say exactly when the other steps are harmless. The lease is reduced to the outcomes of the checks: unreadable once, or lost for good. The 2^63 limit of a bigint column is not modelled.
- IssueClaims.EncodesIffWithinCaps: numbers, booleans and null arrive as the text they are turned into.
- IssueRequest.BuildsIffSound: for requests that the route's own checks let through; those it turns away do not advance the chain. How deep arrays may be nested before the host gives up is a parameter. Compression at its default, encryption and signing are taken to succeed, since the request does not reach them.
- LimiterTheorems.SweepsInvisibleIff: replies are the verdicts and the snapshot's tokens and capacity; the snapshot's `firstSeen` and `lastSeenAgoMs` do reveal a sweep and are not modelled.
- LimiterTheorems.RateBoundedIff: over real numbers, a clock that does not run backwards and a fixed configuration; checks that a disabled limiter waves through are not counted.
- RateLimit.RateLimiter.Check: the bucket objects in the maps are modelled as values stored back into the maps; unknown categories, which throw, cannot be expressed.
- PoolModel.ExactlyOnePlace: workers answer only their own jobs, an error event after shutdown does not occur, and respawning and liveness are not modelled.
- VerifyPool.VerifyPool.RunJob: a key id is the UTF-8 form of a JavaScript string and so shorter than 2^31 bytes.
- PgStream.PipelineMatchesResponses: stated for connections that do not break and on which only notices and parameter messages arrive while nothing is outstanding; `SettledInOrder` has no such condition. Column names, command tags and transaction status are not decoded; the handshake's own message loop is left out; timeouts are connection failures.
- PgError.DecodeError: values stay bytes; the composed text of the error is not modelled.
- TokenVerify.IssuedVerifiesIff: for clocks more than about 136 years before the end of 64-bit microseconds.
- Issuance.CertifyEntropy: the ratio is a real number; rounding is not modelled.
- Durable.OldOrNew: directory changes reach the disk in order, and a rename replaces its target in one step.
- RotateMaster.CrashRecoverable: file contents are parsed values, so JSON text and base64 are not modelled; the writer-lock check and argument parsing of the tool are left out.
- Restart.RestartAfterCrash: for the file provider of the master key with generation on; the chain store's verdict on each key is a parameter, and revocations and the verifying keys that a start also loads are left out.
- Audit.KeepsSuffix: renames and deletions succeed. A rename that fails is ignored by the source and can cost the file it would have moved. Partial writes, stdout and the sink are left out.
- Cidr.MatchesAny: the host's `Number` and its `parseInt` with radix 16 are parameters, as in Ipv4.ParseV4 and Ipv6.ParseV6.
- Ipv6.GrammaticalIff: about the groups and the "::"; which texts a single group may have is the host's `parseInt`.
- qv-sdk/src/index.mjs: of issuing, the claims encoder and the lifetime's way into the header, both after the advance, are modelled; the server's own chain object is taken to be the ratchet of the Rust core.
- Cryptographic internals, randomness, HTTP routing, authentication headers, telemetry, the Falcon bridge, signal handling, the language clients and the bindings.
- LeaseRuns.HealthyHolderStays: boots from other hosts, which may steal at any time, are excluded.
- RotateMaster.BoundToPlace: for ciphers that refuse other associated data, which AES-256-GCM is taken to do.
- Revocations, metrics, tracing and the JavaScript claims validator would only add easy members.
