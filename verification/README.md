# A verified model of the low-latency HSM proxy

The proxy puts a gRPC service in front of a PKCS#11 token: a bounded worker pool with one
session per thread, per-session handle caches, a public key cache with in-process
verification, a circuit breaker, and certificate-based authorization. This project models
those components in Dafny and proves what they promise over whole runs.

| file | what it holds |
|---|---|
| `Basics.dfy`, `Jobs.dfy` | shared values; jobs, answers and errors of the pool |
| `PoolProtocol.dfy` | the pool as a small-step system and the invariants of every step |
| `PoolRuns.dfy` | conservation, counters and replies over whole runs |
| `PoolSchedule.dfy`, `PoolTight.dfy` | the queueing bound, and when a timeout can fire; that the bound is attained |
| `PoolDrain.dfy` | shutdown |
| `Pool.dfy` | the pool object |
| `HandleCache.dfy`, `Worker.dfy` | a worker's session, handle cache and recovery; the worker object |
| `Breaker.dfy`, `CircuitBreaker.dfy` | the breaker's timed state machine; the breaker object |
| `KeyCache.dfy` | the public key cache over a single-flight loading map |
| `Crypto.dfy` | signing input, DigestInfo, in-process verification, the EC point unwrap |
| `Policy.dfy`, `Identity.dfy` | policy compilation; identity extraction and its memo |
| `Service.dfy` | admission, status mapping, what the breaker is told |
| `Authorization.dfy` | the server as a whole: only authorized requests cause work |
| `Backends.dfy` | the pooled backend against the one-session backend, request after request |
| `Overlap.dfy` | the same for requests that overlap in the pool and the cache |

`dafny verify dfyconfig.toml` checks everything.

How to read it. Components that update state in place are classes whose methods are single
critical sections and single steps of a state machine; the theorems are about runs of those
machines. The breaker and the worker keep their history, so that the theorems are stated again
on the objects. Concurrency is interleaving of atomic steps: `allow` is its
unlocked load and its locked section, `submit` is counting, offering, waiting and giving up,
`identify` is a read section and a write section, `get_or_load` is a probe, a lookup, the end
of a load and the accounting. The clock is monotone; a locked section of the breaker may read
it up to three times. The failure ratio is an exact real. SHA-256, the signature equations,
SPKI encoding, X.509 parsing, what each PKCS#11 call returns and every random draw are
parameters that range over everything allowed by the stated laws. The queue is a FIFO, a reply
channel delivers at most once, and the loading map runs one load per key and hands its outcome
to all who joined.

Where code and commentary part ways, the model follows the code:

- A failed session reopen is said to be tried again on the next failure
  (`proxy/src/pkcs11/worker.rs:294`). A lookup error is `Internal` and never resets a session,
  so while lookups fail on the old session nothing is retried: `HandleCache.DeadSessionNeverRecovers`, with the
  exact condition in `HandleCache.ReopensAgainExactly`.
- Overload is said not to count against the token (`proxy/src/grpc/pooled.rs:147-149`). On the
  public key path every loader error becomes `Internal` and counts. `Service.OverloadBurstOpens`
  gives a burst that opens the circuit, twenty requests by default, and
  `Service.OverloadCanTripExactly` the configurations in which overload alone can trip: those
  with a ratio of at most one that need one outcome only or have a window of some width.
- Half-open is described as letting a limited number of requests through
  (`proxy/src/resilience/breaker.rs:23`); the code admits all of them.
  `Breaker.HalfOpenAdmitsAll` shows it, and `Breaker.HalfOpenLimitedExactly` that a limit exists
  exactly in the configurations that can never open.
- The admission comment lists the rate limiter before authorization
  (`proxy/src/grpc/pooled.rs:61-64`); the code consults it after, which is what
  `Service.AdmitsExactly` and `Authorization.AuthorizedWorkOnly` state.
- The one-session backend rejects a malformed Verify as an invalid argument, the pooled one
  does not, and a key the proxy cannot encode can be used by the token only:
  `Backends.ServeAgreesExactly` gives the exact set of requests on which they agree.

## Model

| member | source | states |
|---|---|---|
| PoolProtocol.InitialInv | proxy/src/pkcs11/pool.rs:87-153 | a started pool satisfies every invariant for any number of workers, none included |
| PoolProtocol.StepAccounted | proxy/src/pkcs11/pool.rs:168-196 | every step of a caller, a worker or the clock keeps each job in exactly one place, the counters equal to what happened, and callers matched to accepted jobs |
| PoolProtocol.StepLively | proxy/src/pkcs11/pool.rs:92 | the queue never exceeds its depth; a worker exits only after the close with the queue empty; nobody waits on a closed pool |
| PoolRuns.PoolConservation | proxy/src/pkcs11/pool.rs:168-196 | in every interleaving each job is in exactly one of submitting, shed, refused, queued, running, done; queued plus running is at most depth plus workers; at rest hits plus misses equal completed jobs and submissions split into shed, refused and completed |
| PoolRuns.CountersAreHistory | proxy/src/pkcs11/metrics.rs:10-21 | every counter of the pool equals the number of such events in the run's history: submissions, offers to a full queue, timeouts, executions, and executions that failed, hit, missed or reset |
| PoolRuns.RefusedOnlyWithoutWorkers | proxy/src/pkcs11/pool.rs:179-185 | a submission is refused as disconnected only in a pool without workers, and such a pool never accepts or sheds |
| PoolRuns.AcceptedExactly | proxy/src/pkcs11/pool.rs:179-185 | a job offered to the queue is accepted exactly if there are workers and room, and is then last in the queue with a waiting caller; shed exactly if there are workers and no room; refused exactly without workers |
| PoolRuns.WorkersStayCoherent | proxy/src/pkcs11/worker.rs:74-82 | in every run every worker's cached handles belong to the session it now holds |
| PoolRuns.NoCrossedReplies | proxy/src/pkcs11/pool.rs:187-190 | a caller that gets an answer gets the result of executing its own request on a worker that took its job, in the variant its request calls for |
| PoolRuns.ReplyDelivers | proxy/src/pkcs11/worker.rs:142-144 | the reply to a caller that still waits is its job's result |
| PoolRuns.CallsEndRight | proxy/src/pkcs11/pool.rs:187-195 | in every run the call behind an accepted job has timed out exactly if its timer fired, was dropped exactly if it was dropped, holds an answer exactly if its job is done and neither happened, and otherwise waits |
| PoolRuns.WaitingIsAnswered | proxy/src/pkcs11/pool.rs:187-190 | a waiting caller that neither times out nor is dropped holds, once its job is done, the result of executing its own request |
| PoolRuns.CallerOutcomeIsFinal | proxy/src/pkcs11/worker.rs:142-144 | once a caller was answered, timed out or left, that never changes again |
| PoolRuns.ExecutedOnce | proxy/src/pkcs11/worker.rs:108-145 | no job is executed twice in any run |
| PoolSchedule.StartsWithinBound | proxy/src/pkcs11/pool.rs:42-45 | with workers that take queued jobs at once and jobs of bounded service time, every accepted job that a worker takes from the queue is taken within ceil(depth / workers) service times of acceptance |
| PoolTight.BoundIsTight | proxy/src/pkcs11/pool.rs:42-45 | for every positive number of workers and depth and every service time some run under the same assumptions starts a job exactly at the bound, two service times at the default depth |
| PoolSchedule.DefaultDepthWaitsTwoServiceTimes | proxy/src/pkcs11/pool.rs:42-45 | under the same assumptions, at the default depth of two per worker the wait is at most two service times |
| PoolSchedule.AcceptedIsFollowed | proxy/src/pkcs11/pool.rs:179-185 | under the same assumptions, at every moment after acceptance a job is done, held by a worker that took it within the bound, or still queued with the bound not yet over |
| PoolSchedule.WaitIsBounded | proxy/src/pkcs11/pool.rs:187-195 | under the same assumptions, a caller still waiting on a pool with workers has waited at most the bound plus one service time |
| PoolSchedule.NoSpuriousTimeouts | proxy/src/pkcs11/pool.rs:191-194 | under the same assumptions, if the job timeout exceeds the bound plus one service time, no caller of a pool with workers ever times out |
| PoolDrain.DrainStep | proxy/src/pkcs11/pool.rs:199-206 | after the close no job is added, no caller changes, and every step but the clock's lowers the remaining work |
| PoolDrain.EveryWorkerCanMove | proxy/src/pkcs11/worker.rs:105-149 | after the close every worker that has not exited has an enabled step of its own |
| PoolDrain.NobodyIsStuck | proxy/src/pkcs11/worker.rs:105-145 | open or closed: a counted job can be offered, an idle worker can take a queued job, a busy one can finish and reply, a caller whose time is up can stop |
| PoolDrain.DrainTerminates | proxy/src/pkcs11/pool.rs:199-206 | however the workers are scheduled, the steps after the close are bounded by the work that was left |
| PoolDrain.JoinedExactlyWhenDrained | proxy/src/pkcs11/pool.rs:198-206 | all workers can be joined exactly when every accepted job has been executed and its reply attempted, abandoned jobs included |
| Pools.WorkerPool.constructor | proxy/src/pkcs11/pool.rs:87-153 | a started pool is the protocol's initial state |
| Pools.WorkerPool.Submit | proxy/src/pkcs11/pool.rs:168-185 | counting then offering: the new state, and the error the caller gets when the pool has no workers, or its queue is full and no receiver waits at depth zero |
| Pools.WorkerPool.Offer | proxy/src/pkcs11/pool.rs:179-185 | the new state and the caller's result for each case of `try_send`: no workers, a waiting receiver at depth zero, room, full |
| Pools.WorkerPool.GiveUp | proxy/src/pkcs11/pool.rs:191-194 | a timeout changes the caller and its counter and leaves the job where it is |
| Pools.WorkerPool.Receive | proxy/src/pkcs11/worker.rs:108 | the worker takes the oldest queued job |
| Pools.WorkerPool.ExecuteJob | proxy/src/pkcs11/worker.rs:109-140 | the worker runs its job on its own session and counts the outcome |
| Pools.WorkerPool.CountOutcome | proxy/src/pkcs11/worker.rs:134-140 | which counters one execution moves |
| Pools.WorkerPool.Respond | proxy/src/pkcs11/worker.rs:142-144 | the job is done and the worker idle; a caller that still waits holds the result, any other is left as it is |
| Pools.WorkerPool.Leave | proxy/src/pkcs11/worker.rs:147-148 | a worker leaves its receive loop |
| Pools.WorkerPool.Shutdown | proxy/src/pkcs11/pool.rs:199-206 | terminates with every worker exited, the queue empty, and every accepted job executed and its reply attempted, whichever worker moves next and whatever the token does at each move |
| HandleCache.ExecuteKeepsCoherence | proxy/src/pkcs11/worker.rs:262-299 | after any job, with any errors and reopen outcome, each cached handle is what the current session would find for that class and label |
| HandleCache.RememberExact | proxy/src/pkcs11/worker.rs:46-62 | storing a handle changes its own class and label and no other |
| HandleCache.CacheRefinesUncached | proxy/src/pkcs11/worker.rs:151-170 | over every job sequence and failure pattern the worker answers as one without a cache, which sees lookup errors exactly where the cached one looked up |
| HandleCache.CacheIsTransparent | proxy/src/pkcs11/worker.rs:262-280 | without lookup errors the two give the same answers on the same session history |
| HandleCache.OneLookupPerReset | proxy/src/pkcs11/worker.rs:9-12 | two successful lookups of the same class and label are always separated by a session reset |
| HandleCache.VariantMatches | proxy/src/pkcs11/worker.rs:172-259 | a success has the response variant of its request, so the wrong-variant arms are unreachable |
| HandleCache.ResetsExactly | proxy/src/pkcs11/errors.rs:49-62 | a job resets the session exactly if its PKCS#11 call was made and returned one of six codes; the session it then holds for each way the reopen can go, with the cache emptied |
| HandleCache.ReopensAgainExactly | proxy/src/pkcs11/worker.rs:284-299 | after a reopen that failed the worker tries again exactly if a later lookup on the old session works and an operation on that key fails fatally |
| HandleCache.DeadSessionNeverRecovers | proxy/src/pkcs11/worker.rs:293-297 | after a reopen that failed, while lookups error every job answers `Internal` and the worker never resets again |
| Workers.Worker.constructor | proxy/src/pkcs11/worker.rs:85-102 | a new worker holds its session, an empty cache and an empty history |
| Workers.Worker.ResolveHandle | proxy/src/pkcs11/worker.rs:262-280 | the handle, the updated cache, and exactly one of the hit and miss counters |
| Workers.Worker.ReopenSession | proxy/src/pkcs11/worker.rs:284-299 | the cache is emptied, the reset counted, and the session replaced only if the reopen succeeds |
| Workers.Worker.Execute | proxy/src/pkcs11/worker.rs:151-170 | one job with recovery: the answer and the session are those of a worker without a cache after the same history, session, cache and counters stay what the history makes them, cached handles belong to the held session, and a key looked up again was preceded by a reset |
| Breaker.ReachableSound | proxy/src/resilience/breaker.rs:147-242 | in every interleaving: not closed implies `opened_at` is set, within a cooldown of it the state is Open, and half-open holds fewer probes than the quorum |
| Breaker.NoAdmissionDuringCooldown | proxy/src/resilience/breaker.rs:147-170 | after an opening at time u no call of `allow` returns true before u plus the cooldown, whenever its load happened and however failures re-arm it |
| Breaker.LockedDecision | proxy/src/resilience/breaker.rs:151-168 | a load that saw Open finds `opened_at` set under the lock, and is admitted exactly if the latest opening is a cooldown old |
| Breaker.WindowIsSlice | proxy/src/resilience/breaker.rs:232-242 | the counters always equal the outcomes recorded outside half-open in one suffix of the history, which began with the breaker, with a closing, or with an outcome that found the window before it as old as its width, and in which no later outcome did and no closing happened |
| Breaker.WindowStep | proxy/src/resilience/breaker.rs:178-242 | from every reachable state: a closing empties the window, an outcome that finds it as old as its width starts it again with itself alone, an earlier one keeps its start and adds one to one counter, nothing else touches it |
| Breaker.WindowLastsItsWidth | proxy/src/resilience/breaker.rs:232-236 | over any stretch of a run without a closing and with every counted outcome within the window's width, the start stays and the counters grow by exactly the outcomes of the stretch |
| Breaker.EnoughWithinWidthTrips | proxy/src/resilience/breaker.rs:212-230 | enough counted outcomes within one width with the required share of failures always trip on the last failure |
| Breaker.TripJustified | proxy/src/resilience/breaker.rs:212-230 | `trips` grows exactly on a failure outside half-open whose window has enough outcomes and a large enough share of failures |
| Breaker.TripOpensOnFreshWindow | proxy/src/resilience/breaker.rs:212-236 | a trip opens the circuit at that time, and its window is younger than the configured width or began with that outcome |
| Breaker.HalfOpenCountsProbes | proxy/src/resilience/breaker.rs:153-186 | in half-open the probe counter is the number of successes since the latest entry, with no failure since |
| Breaker.ClosingJustified | proxy/src/resilience/breaker.rs:178-186 | half-open closes only on the quorum-th success since the latest entry with no failure between, and leaves an empty window |
| Breaker.Recovers | proxy/src/resilience/breaker.rs:151-192 | from every reachable open state, waiting the cooldown, one call and a quorum of successes closes the circuit with an empty window |
| Breaker.NoFailureNoTrip | proxy/src/resilience/breaker.rs:326-334 | without a recorded failure no configuration and no interleaving leaves Closed |
| Breaker.OpensExactly | proxy/src/resilience/breaker.rs:212-242 | a run that opens the circuit, and one that reaches half-open, exist exactly if the ratio is at most one and either one outcome suffices or the window has some width |
| Breaker.EnoughFailuresOpen | proxy/src/resilience/breaker.rs:212-230 | in each of those configurations the required number of failures, at any instant, opens a new circuit |
| Breaker.FirstFailureTrips | proxy/src/resilience/breaker.rs:212-230 | under a configuration with one required outcome and a ratio of at most zero, or of at most one with a window of width zero, a run trips exactly if it records a failure |
| Breaker.DilutedDoesNotTrip | proxy/src/resilience/breaker.rs:218-230 | under every other configuration some run with a failure does not trip |
| Breaker.HalfOpenAdmitsAll | proxy/src/resilience/breaker.rs:148-150 | from every reachable half-open state any number of further calls by any callers is admitted, each of them, and the circuit stays as it was |
| Breaker.HalfOpenLimitedExactly | proxy/src/resilience/breaker.rs:22-24 | some number bounds the calls a half-open phase lets through, over all runs, exactly in the configurations that can never open |
| CircuitBreakers.CircuitBreaker.constructor | proxy/src/resilience/breaker.rs:123-137 | a new breaker has an empty history: closed with an empty window |
| CircuitBreakers.CircuitBreaker.LoadForAllow | proxy/src/resilience/breaker.rs:148-150 | it answers true exactly if the load admits the call, and then every opening in the history is a cooldown old; otherwise the caller is left waiting for the lock |
| CircuitBreakers.CircuitBreaker.AllowUnderLock | proxy/src/resilience/breaker.rs:151-168 | admits exactly if the latest opening is a cooldown old, and then every opening in the history is; the new state, and the fields stay what the history makes them |
| CircuitBreakers.CircuitBreaker.RecordSuccess | proxy/src/resilience/breaker.rs:172-192 | the fields stay what the history makes them; outside half-open the success is added to the window or, if that is as old as its width, begins a new one; the state changes only from half-open to closed, on a quorum of successes since entry without a failure, with an empty window |
| CircuitBreakers.CircuitBreaker.RecordFailure | proxy/src/resilience/breaker.rs:197-230 | the fields stay what the history makes them; outside half-open the failure is added to the window or begins a new one, as a success does; `trips` grows exactly if the failure is outside half-open and its window warrants it; the circuit opens then and from half-open, and otherwise keeps its state |
| CircuitBreakers.CircuitBreaker.RollIfStale | proxy/src/resilience/breaker.rs:232-236 | exactly a window as old as its width is replaced by an empty one, any other is left as it is |
| CircuitBreakers.CircuitBreaker.ResetWindow | proxy/src/resilience/breaker.rs:238-242 | a new window is empty and starts now |
| KeyCache.AnswersAreFresh | proxy/src/cache/mod.rs:130-158 | whatever a call is answered with, a load of its key returned exactly that, at that instant or less than the time-to-live ago, the negative one for a missing key |
| KeyCache.WaitersGetTheLoad | proxy/src/cache/mod.rs:146-157 | every call that waits for a key when a load of it succeeds is answered with what the load returned, and keeps that answer |
| KeyCache.LiveEntryAnswers | proxy/src/cache/mod.rs:146-157 | a lookup that finds a live entry is answered with it, for good |
| KeyCache.FailedExactly | proxy/src/cache/mod.rs:146 | a call has failed exactly if a load of its key erred while it waited, or it led a load and was cancelled |
| KeyCache.EveryCallCanMove | proxy/src/cache/mod.rs:130-158 | in every reachable state a call can look up, has a load in flight that any outcome can end, or can be accounted for |
| KeyCache.InvalidatedStaysGone | proxy/src/cache/mod.rs:160-163 | an invalidated key is not served until it is loaded again |
| KeyCache.ErrorsAreNotStored | proxy/src/cache/mod.rs:146 | every remembered entry is the outcome of a successful load |
| KeyCache.CountersAreCalls | proxy/src/cache/mod.rs:148-155 | each counter is the number of settled calls of its kind; hits and misses add up to the successful calls |
| KeyCache.FlagIsTheProbe | proxy/src/cache/mod.rs:142-144 | the served-from-cache flag is the liveness of the key at the probe, whatever happens before the lookup |
| KeyCache.LoadsSpacedByTtl | proxy/src/cache/mod.rs:124-127 | after a successful load the token is not asked again for that key until its time-to-live is over, unless the entry was invalidated or evicted |
| KeyCache.OneLoadInFlight | proxy/src/cache/mod.rs:124-127 | two loads of one key never overlap: between their starts the first has ended or was abandoned |
| Crypto.PrefixIsDer | proxy/src/crypto.rs:13-22 | the constant prefix followed by any 32-octet digest is the DER encoding of the SHA-256 DigestInfo of section 9.2 of RFC 8017 |
| Crypto.DigestRoundTrip | proxy/src/crypto.rs:283-310 | undoing `prepare` yields the digest of the caller's input for every accepted request |
| Crypto.StripAcceptsExactlyDigestInfo | proxy/src/crypto.rs:299-308 | a raw RSA payload is accepted back exactly when it is the DigestInfo of the digest returned |
| Crypto.MessageAndDigestSignAlike | proxy/src/crypto.rs:110-124 | for PKCS#1 v1.5 the message form and its digest form put the same padded block under the key, for every modulus length |
| Crypto.PrepareAcceptsExactly | proxy/src/crypto.rs:323-359 | signing and in-process verification reject the same (mechanism, input) pairs for the same reason, whatever the key and signature |
| Crypto.PrepareOkExactly | proxy/src/crypto.rs:86-149 | `prepare` accepts exactly the three mechanisms on a message or a 32-octet digest, with the algorithm and payload of each number and input form; each other request has its own error |
| Crypto.VerifyAgreesWithToken | proxy/src/crypto.rs:323-359 | on a key whose SPKI decodes to a supported kind, in-process verification gives the token's answer for every accepted request |
| Crypto.InputFormsVerifyAlike | proxy/src/crypto.rs:337-369 | a message and its digest verify alike under every mechanism |
| Crypto.UnwrapAcceptsExactly | proxy/src/crypto.rs:251-275 | the unwrap returns r exactly for a bare point r, or for input that starts with an OCTET STRING of r |
| Crypto.UnwrapInvertsDer | proxy/src/crypto.rs:251-275 | the unwrap undoes DER exactly for payloads of at most 255 octets other than 63 |
| Crypto.BareAndWrappedPointsAgree | proxy/src/crypto.rs:249-256 | the bare and the wrapped form of any 65-octet uncompressed point give the same octets |
| Policy.Compile | proxy/src/authz/policy.rs:71-86 | the nested loops compute the compiled policy |
| Policy.CompilationIsExact | proxy/src/authz/policy.rs:88-97 | an operation is allowed exactly if some entry grants it, and identities and keys are present exactly if some entry names them |
| Policy.MeaningDetermines | proxy/src/authz/policy.rs:74-83 | sources that name the same identities, keys and grants compile to equal policies |
| Policy.OrderIsIrrelevant | proxy/src/authz/policy.rs:74-83 | reordering entries changes nothing |
| Policy.SplittingIsIrrelevant | proxy/src/authz/policy.rs:74-83 | splitting an entry into two of the same identity changes nothing |
| Policy.GrantCount | proxy/src/authz/policy.rs:103-109 | the sum of the operation sets' sizes is the number of distinct (identity, key, operation) triples |
| Policy.CountedExactly | proxy/src/authz/policy.rs:103-109 | a triple is counted exactly if some entry grants it |
| Identity.IdentityOf | proxy/src/authz/identity.rs:79-102 | the nested loops compute the identity in the certificate |
| Identity.UriIsAuthoritative | proxy/src/authz/identity.rs:67-102 | the first URI name in order is the identity whatever the common names are; without any, the first common name if it decodes; otherwise none |
| Identity.IdentityExtractor.Identify | proxy/src/authz/identity.rs:36-65 | a call returns the identity in the leaf certificate, nothing without a certificate, and keeps the memo sound and bounded |
| Identity.IdentityExtractor.Peek | proxy/src/authz/identity.rs:46-53 | in a sound memo a hit is the identity that parsing the certificate would give |
| Identity.IdentityExtractor.Insert | proxy/src/authz/identity.rs:57-62 | the section under the write lock: the entry is added, to an empty memo if 1024 were held |
| Identity.MemoIsTransparent | proxy/src/authz/identity.rs:36-65 | in every interleaving each call returns the identity in its own certificate, only successes are stored, and the memo holds at most 1024 entries |
| Service.AdmitsExactly | proxy/src/grpc/pooled.rs:65-97 | with an authorizer admission succeeds exactly for an identified caller whom the policy source grants the request, with circuit and share allowing it; each refusal has its own code; only granted requests are charged; without one only the circuit refuses |
| Service.FailuresExactly | proxy/src/grpc/pooled.rs:140-188 | which pool answers count as failures on the direct and on the public key path |
| Service.CallerFaultsNeverTrip | proxy/src/grpc/pooled.rs:135-153 | in every configuration and interleaving, caller faults and overload on Sign, Encrypt and Decrypt leave the circuit closed with no failure counted |
| Service.OverloadTripsOnlyByKeys | proxy/src/grpc/pooled.rs:140-153 | in every configuration and interleaving, overload alone leaves the circuit closed unless a request took the public key path |
| Service.OverloadBurstOpens | proxy/src/grpc/pooled.rs:163-187 | under every configuration that can open, the default included, as many overloaded public key requests as failures would be needed, at one instant, open a new circuit |
| Service.OverloadCanTripExactly | proxy/src/grpc/pooled.rs:163-187 | some run of nothing but overloaded requests trips exactly under the configurations that can open |
| Service.OverloadTripsExactly | proxy/src/grpc/pooled.rs:163-187 | every run of overloaded requests, with calls interleaved, trips if and only if one took the public key path: this holds exactly under the configurations of `Breaker.FirstFailureTrips` |
| Authorization.AuthorizedWorkOnly | proxy/src/grpc/pooled.rs:65-97 | in every run every job is the one its request's handler submits, and every job, cache use and rate-limit token belongs to a request that the policy source grants to the identity in its certificate: Sign jobs the sign operation, Encrypt and Decrypt theirs, public key jobs and cache calls verify or get-public-key as the request is |
| Authorization.AdmittedExactly | proxy/src/grpc/pooled.rs:65-97 | in every run a request is let in exactly if its certificate names someone whom the policy source grants its own operation, while circuit and share allow it; exactly permitted requests are charged; each refusal has its own code |
| Authorization.AdmittedCanProceed | proxy/src/grpc/pooled.rs:249-397 | an admitted valid request can submit its job or ask the cache, and the leader of a load can submit the loader's job |
| Authorization.PartsAreRuns | proxy/src/grpc/pooled.rs:155-188 | what a server run does to its pool is a run of the pool, and what it does to its cache a run of the cache, step for step |
| Authorization.RefusedLeavesNoTrace | proxy/src/grpc/pooled.rs:59-97 | a request refused at admission changes neither pool nor cache in that step, and never has a job or a cache call after |
| Authorization.CacheHitCausesNoJob | proxy/src/grpc/pooled.rs:155-188 | a Verify or GetPublicKey whose lookup finds its key cached never causes a job; only the call that leads a load submits one |
| Backends.JobIsPlain | proxy/src/grpc/pooled.rs:259-267 | a job through any worker answers as the token would without a cache, and the caches stay true |
| Backends.WorkerAnswersExactly | proxy/src/pkcs11/worker.rs:172-259 | on every session, cache and reopen a worker answers with what the token does on the object of that label: private for signing, public for verifying and exporting, secret for encrypting and decrypting; not found without it; each error as classified |
| Backends.SingleIsExpected | proxy/src/grpc/service.rs:102-251 | on every session the one-session backend returns the response given in terms of the token's objects and the protocol's numbers alone |
| Backends.ServesAsPromised | proxy/src/grpc/pooled.rs:249-397 | the pooled backend returns that response exactly on the equivalent requests |
| Backends.NotFoundExactly | proxy/src/grpc/pooled.rs:196-217 | both backends say not found to a valid request exactly if the token lacks the private key for Sign, the secret key for Encrypt and Decrypt, the public key for Verify and GetPublicKey |
| Backends.LookupIsTrue | proxy/src/grpc/pooled.rs:159-188 | a public key lookup yields exactly what the token has, and fails as internal exactly on keys that cannot be encoded |
| Backends.VerifyAgrees | proxy/src/grpc/pooled.rs:288-305 | in-process verification of a well-formed request returns the one-session backend's status and payload |
| Backends.ServeAgreesExactly | proxy/src/grpc/pooled.rs:249-397 | for any cache contents, worker, eviction and reopen, the pooled response equals the one-session response exactly on the equivalent requests |
| Backends.PooledRefinesSingle | proxy/src/grpc/service.rs:102-251 | request sequences get equal responses from both backends exactly when every request is equivalent |
| Overlap.OverlappingRefinesSingle | proxy/src/grpc/pooled.rs:155-397 | on a token whose objects do not change, over every run of overlapping requests, with any worker schedule, evictions, resets, timeouts and cancelled callers: a complete response is the one-session backend's exactly on the equivalent requests; a direct request not completed is overloaded exactly if shed, unavailable exactly if refused, out of time exactly if its timer fired; a public key request not completed is internal, and then it or the leader of its load gave up in the run, or the key cannot be encoded |
| Overlap.FailureHasCause | proxy/src/grpc/pooled.rs:163-187 | a cache call fails only if its request led the load and was cancelled, the leader's job was shed, refused or timed out, or the key cannot be encoded |
| Overlap.DirectRequestsComplete | proxy/src/grpc/pooled.rs:249-374 | a direct request whose job is done is complete, unless its timer fired or it was dropped |
| Overlap.LoadsComplete | proxy/src/grpc/pooled.rs:163-182 | a load whose job is done can end, unless its leader timed out or was dropped, and for a key that can be encoded everyone waiting is then answered with what the token has |
| Overlap.AnsweredLookupsComplete | proxy/src/grpc/pooled.rs:280-306 | a public key request whose lookup was answered is complete, for good and with that answer |

## Left out

- Real cryptography, X.509 and SPKI encoding, PKCS#11 itself: parameters with stated laws.
- `ec_spki`, `rsa_spki`: thin calls into encoding libraries; only the point unwrap is modelled.
- The rate limiter's buckets and the cache's eviction policy: they live in libraries; the limiter is a yes/no answer and eviction may drop any entry at any time.
- TLS, transport limits, `main.rs`, environment and TOML parsing, telemetry: plumbing with no property of this kind.
- Worker panics, poisoned locks, weak-memory effects of relaxed atomics, 64-bit counter overflow and floating-point rounding of the ratio.
- Module loading and partial startup failures: a pool starts with all its sessions open.
- Rotation of keys on the token: objects are stable within a session.
- Leave: does not model the session logout at the end of a worker, because login state is the token's and the model leaves it to the oracle; a logout may fail another worker's last job, so drained jobs are shown to be executed and answered, not to succeed.
- Error texts: errors carry their class, the label for a missing key, and the PKCS#11 code.
- Each counter is updated together with the action it follows, in one step.
- KeyCache: a state machine over values instead of a class, because every call is suspended between its parts.
- OverlappingRefinesSingle: a call whose request was cancelled is treated like one whose load failed, although nobody receives its response.
- StartsWithinBound: like the other results of `PoolSchedule.dfy`, assumes that an idle worker takes a queued job without delay and that service times are bounded.
- AuthorizedWorkOnly: for a server with an authorizer; without one every request is admitted by design.
- ReopensAgainExactly: a session finds the same handle for a label as long as it lives, unless the lookup errors.
