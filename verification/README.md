# Screengram: a verified model of licensing, limiters and command delivery

Screengram is a digital-signage back end. A self-hosted installation keeps one licence row, asks an
operator's registry whether that licence is valid, and enforces the answer on every API request. Around
that sit several protocols that live in a key-value cache with timeouts (replay protection, rate limits,
lockout) and three smaller machines: the life of a screen command, refresh-token rotation, and bulk
operations. This project models them in Dafny and proves what they guarantee over whole runs.

To verify: `dafny verify dfyconfig.toml`, with Dafny 4.11.

## How it is built

Time is a real number of seconds that never goes back. `TtlCache` is the shared cache: an entry is live
strictly before its expiry, and setting a key replaces value and expiry. Objects that the Python code
updates in place are classes, and each of their methods is proved equal to a pure step function or to an
exact statement about a ghost history; the theorems are then proved about these functions for every run. What a
function computes is in turn pinned by lemmas that say it in the request, the stored row and the reply alone.

| files | what they hold |
|---|---|
| `LicenseState`, `LicenseService`, `LicenseRuns` | the licence row, its partial saves, validation, activation, heartbeat; every reachable row and cached decision |
| `LicenseReceipts`, `LicenseAnswers` | what the row knows from the gateway; what each operation answers and writes, in terms of row and reply |
| `Registry`, `RegistryRuns`, `RegistryEffects` | the operator's tables, token rotation, suspicious siblings; the effect of each operation on the rows |
| `Suspension` | client and registry composed |
| `DomainTokens`, `Middleware` | host normalisation, domain-binding tokens, enforcement on a request |
| `SlidingCounter`, `ScreenSecurity`, `RegistryGate`, `Lockout` | the counter whose timeout is renewed, and its three users |
| `RateLimiter`, `LimiterKeys`, `BulkLimiter`, `ConnectionWindow` | aligned buckets and who shares them, recurring keys, a restarted window |
| `Commands`, `CommandEffects`, `Sessions`, `BulkEngine`, `BulkEffects`, `Versions` | the secondary machines |
| `Basics`, `TtlCache`, `Text` | shared types, the cache, Python string operations |

The network, the hash functions, the signatures and the marketplace are arbitrary: a call yields any answer or
any error, `hmac` and `sha` are any functions. Where a result needs more, it says so in its requirements
(`CollisionFree`, `TokensFresh`, `FreshIds`). What `isdigit` and `int` make of a character outside ASCII is an
arbitrary table, in which a superscript two is a digit that `int` refuses (`Sound`). A domain token decodes
only when this installation signed it. Each call is one atomic step at one instant.

## What the code turned out to do

These are theorems about the code as it is, where a reader of the names or comments could expect more.

- A refusal by the licence server does not end the offline grace period: a later outage is allowed while
  the earlier success is recent enough (`RefusalThenOutage`). When grace has run out, its end is reported
  but not saved (`ClosedGraceIsNotWrittenBack`).
- A suspended installation that keeps its token and whose gateway is out of reach lives on through its grace hours
  and one cache timeout, and not longer (`SuspensionOutlastsOutages`, `OutageReachesTheBound`).
- A suspended installation gets around the suspension by failing to activate: the failed attempt drops the token, and
  from then on the purchase code is validated, without a look at the suspension (`FailedAttemptEscapesSuspension`).
  An attempt leaves the token alone exactly when the code is malformed (`FailedAttemptKeepsTokenIff`).
- Grace belongs to the row, not to what was accepted: without the gateway, activating during an outage runs in the
  grace of an earlier acceptance under any well-formed code and any domain (`ActivationInOutageBindsAnyDomain`).
- `normalize_domain` is not idempotent: `"a :80"` becomes `"a "` and then `"a"`. It is idempotent exactly when the
  host name, without surrounding space and port, ends neither in a space nor in a space followed by dots
  (`NormalizeIdempotentIff`). Verification normalises the stored claim again, so an admitted host equals the
  licensed domain normalised twice, which is its own normal form under exactly that condition.
- The request limiter is documented as a sliding window; it counts the windows of the clock. Over a sliding window
  the limit holds exactly when that window is one of the clock's, or the limit is zero (`SlidingLimitHoldsIff`);
  over any other twice the limit can pass, and never more (`TwiceTheLimitIsReached`, `AtMostTwiceInAnyWindow`).
- Two requests of the limiter's combined strategy can share their counters although address and endpoint differ,
  when one address spells out the other request's endpoint (`CombinedCallersShareIff`, `EveryCallerCanBeImitated`).
- The renewed counter is a true sliding bound for half-open windows. With both ends included twice the limit is the
  bound, and it is reached (`ClosedWindowBound`, `ClosedWindowReachesTwice`).
- Retrying a command dispatches at most two executions, not three, because the execution and its failure
  both count as attempts; an operator's reset in between raises this to three, and both bounds are reached.
- From its expiry on a command changes only by an update through the API that gives it a new expiry or none, after
  which it can be retried and run (`ExpiredRowsAreFrozenIff`, `RevivedCommandRunsAgain`). The "Command expired"
  failure that `execute` prepares is never stored.
- Reading a version raises on digits that `isdigit` knows and `int` does not, such as a superscript two, and on more
  than 4300 of them, in any part (`FourComponentsIff`, `SuperscriptRaises`). An activation that reports such a version
  is rolled back, and a client that reports one is not told that it is suspended: it runs on while grace lasts
  (`UnreadableVersionIsAnOutage`).
- A signed message whose timestamp is NaN is never too old, and is accepted again once its nonce is forgotten
  (`NaNIsReplayed`).
- De-duplication in bulk operations happens before whitespace is stripped, so a valid identifier can be
  processed twice, exactly when two inputs differ only in surrounding whitespace (`ValidIdsRepeatIff`).
- A bulk item's outcome is recorded before its transaction is committed. When the commit fails the item has two
  results, and one that was rolled back can be counted as a success (`OneResultIffCommitHolds`,
  `RolledBackItemIsCountedAsSuccess`).

## Model

| member | source | states |
|---|---|---|
| LicenseState.State.TouchSignature | app/licensing/models.py:78-99 | signing changes the signature column only, to the keyed hash of the six signed values, with a 16-character token prefix and second 0 for no success |
| LicenseState.State.ApplyDomainBinding | app/licensing/service.py:44-52 | a licensed row with a non-blank domain gets a token for that domain and plan, any other row none; nothing else changes |
| LicenseState.State.MergeGatewayPayload | app/licensing/service.py:96-110 | contact time, a recognised plan, and features given as table or list are taken over, anything else is kept, and the row is re-signed |
| LicenseState.SigningCommutesWithBinding | app/licensing/service.py:416-418 | binding and signing can be done in either order, and binding never spoils a current signature |
| LicenseService.Service.ValidateLicense | app/licensing/service.py:304-510 | stored row, cached decision and returned decision of one validation, for every branch, under partial saves |
| LicenseService.Service.RefuseLocally | app/licensing/service.py:318-386 | without credentials, or with a malformed code, only status, error, time, token and signature are written and the answer is a denial |
| LicenseService.Service.HandleAnswer | app/licensing/service.py:401-438 | an acceptance opens the grace window and keeps an already set domain, a refusal keeps the last success; both rows are bound, signed and saved whole |
| LicenseService.Service.HandleOutage | app/licensing/service.py:440-510 | an outage within the grace hours of the last success allows and saves the window's end; otherwise it denies, saves no window, and reports rate limiting with the server's retry time or sixty seconds |
| LicenseService.Service.ActivateLicense | app/licensing/service.py:162-251 | outcome of an activation with and without a gateway, including malformed code, gateway error, missing token, and the validation that follows success |
| LicenseService.Service.ApplyHeartbeat | app/licensing/service.py:113-128 | a heartbeat answer that is not ok changes nothing; any other merges plan and features, rebinds, re-signs and drops the cached decision |
| LicenseService.Service.OverrideProductId | app/licensing/views.py:90-100 | the override is stored stripped and signed, and a forced validation follows |
| LicenseRuns.RefreshIsSound | app/licensing/service.py:313-510 | every validation that is not served from the cache leaves a bound and signed row whose status the decision repeats, allows exactly when licensed, and moves the last success exactly on an accepted answer |
| LicenseRuns.StepKeepsConsistent | app/licensing/service.py:113-510 | any single operation keeps row, signature, binding token and cached decision in agreement |
| LicenseRuns.EveryRunIsConsistent | app/licensing/service.py:304-510 | after every operation of every run the row carries its own signature, holds a token for its own domain exactly when licensed with a domain, and a cached decision has its status and allows exactly when it is licensed |
| LicenseRuns.LastSuccessIsLastAccepted | app/licensing/service.py:406-414 | in every run the stored time of the last success is the time of the last operation the server accepted, and a cached allow expires within the cache time of it (active) or the grace hours plus the cache time (grace) |
| LicenseRuns.EveryAllowIsBacked | app/licensing/service.py:304-510 | every allow returned in any run is backed by an earlier acceptance: at that moment or younger than the cache time when active, within grace plus cache time when in grace; unless there was an activation since, the acceptance was for the row's credentials and for its domain, or for none yet |
| LicenseRuns.StepKeepsIdentity | app/licensing/service.py:113-510 | only an activation changes the credentials, and besides it only an acceptance fills in a missing domain |
| LicenseRuns.ActivationInOutageBindsAnyDomain | app/licensing/service.py:247-251 | without the gateway, an activation in an outage within the grace hours of an earlier success allows under any well-formed code, and issues a binding token for any domain |
| LicenseRuns.FreshAllowIff | app/licensing/service.py:318-510 | a validation that asks allows exactly when there are usable credentials and the server accepts or, unanswered, the last success is within the grace hours |
| LicenseRuns.UnaskedStep | app/licensing/service.py:308-311 | an operation that does not reach the server keeps the last success and allows only by a cached decision that is still live |
| LicenseRuns.AbortedActivation | app/licensing/service.py:176-236 | an activation that fails at the gateway denies, keeps the last success, and leaves a bound, signed row with nothing cached |
| LicenseRuns.RefusalThenOutage | app/licensing/service.py:413-454 | after acceptance and refusal an outage is allowed exactly while the acceptance is within its grace hours |
| LicenseRuns.ClosedGraceIsNotWrittenBack | app/licensing/service.py:450-491 | an outage past the grace hours reports the window's end and leaves the stored end unchanged |
| LicenseReceipts.CodeShapeIff | app/licensing/service.py:21-23 | a purchase code is well-formed exactly when its stripped text is five groups of 8, 4, 4, 4 and 12 hexadecimal digits with hyphens between them |
| LicenseReceipts.AcceptsIff | app/licensing/service.py:308-411 | an operation is accepted exactly when no live decision serves it, an address and usable credentials are there, activating brought a token if a gateway is configured, and the server answers that the licence is valid |
| LicenseReceipts.RowsKnowTheirReceipts | app/licensing/service.py:96-128 | in every run the last contact is the time of the last acceptance, gateway token or ok heartbeat, none before the first; the plan is the last one told that reads basic or saas, and the features are the last table or list told |
| LicenseAnswers.FreshStatus | app/licensing/service.py:304-510 | status and error code of every validation that is not served from the cache, each exactly when, in terms of credentials, answer, rate limit and grace |
| LicenseAnswers.FreshDetails | app/licensing/service.py:388-510 | its retry time, a minute when the server names none, the end of grace and the message |
| LicenseAnswers.FreshValidationWrites | app/licensing/service.py:313-510 | it writes the time of asking, keeps the credentials, and writes last success, missing domain, grace end and error only as the answer says; the decision is cached for the cache time whatever it is |
| LicenseAnswers.ActivationAllowsIff | app/licensing/service.py:162-251 | an activation allows exactly when the code is well-formed, the gateway, if any, brought a token, and the server accepts or, unanswered, grace lasts; afterwards the row holds the token alone or the code alone, unless a malformed code was turned away at home |
| LicenseAnswers.AbortedAnswer | app/licensing/service.py:176-236 | an activation that stops at the gateway leaves an inactive row with the reason and nothing cached, and tells a turned-away client when to try again |
| LicenseAnswers.HeartbeatWrites | app/licensing/service.py:113-128 | a heartbeat answer that is not ok changes nothing; any other writes five columns and drops the cached decision |
| LicenseAnswers.OverrideDecidesNothing | app/licensing/views.py:90-100 | overriding the product id stores it stripped and answers what a forced validation without it would |
| LicenseAnswers.InvalidationMakesAsk | app/licensing/service.py:40-41 | dropping the cached decision makes the next validation ask, as a forced one would |
| LicenseAnswers.SignatureProtects | app/licensing/models.py:78-99 | with an injective keyed hash a change to the row breaks its signature exactly when it changes code, domain, status, override, second of last success or one of the first sixteen characters of the token |
| Registry.LicenseRegistry.MarkSuspiciousSiblings | app/licensing/registry_service.py:211-214 | when the purchase is installed on another domain all its installations become suspicious, otherwise none changes |
| Registry.LicenseRegistry.ActivateInstallation | app/licensing/registry_service.py:217-332 | an activation is done exactly when the settings, the domain, the sale, its item, the product id and the version allow it, and otherwise refused for the first of these in source order without touching the tables; done, it upserts the purchase, marks siblings, and rotates the token and lifts suspension on the pair's row, created clean if new |
| Registry.CrashesIff | app/licensing/registry_service.py:95-114 | comparing a version with the latest one raises exactly when neither is blank and a part of one of them cannot be read |
| Registry.LicenseRegistry.RecordHeartbeat | app/licensing/registry_service.py:335-377 | a beat is refused exactly when the registry is off or no row has the token; otherwise the row gets the contact time and version, and a beat from another domain makes it suspicious along with its siblings |
| Registry.LicenseRegistry.Suspend | app/licensing/registry_admin_views.py:133-143 | suspending sets flag and reason, with a default reason, on that row alone |
| Registry.LicenseRegistry.Reactivate | app/licensing/registry_admin_views.py:146-155 | reactivating clears flag and reason on that row alone |
| RegistryRuns.EveryRunIsWellKept | app/licensing/registry_service.py:217-377 | in every run: one purchase per fingerprint, one installation per purchase and domain, every installation has its purchase, and of two installations of one purchase the older is suspicious |
| RegistryRuns.ActivationKeepsRows | app/licensing/registry_service.py:266-332 | an activation removes no row, keeps every pair, lifts no suspicion, and adds at most one row, whose older siblings are then suspicious |
| RegistryRuns.OnlyTheNewestIsUnsuspected | app/licensing/registry_service.py:211-310 | an unsuspected installation with siblings is the newest of them, and all the others are suspicious |
| RegistryRuns.PurchaseRowPerCode | app/licensing/registry_service.py:29-31 | with a collision-free hash two codes share a purchase row exactly when they are equal after stripping and lower-casing |
| RegistryRuns.RowsFollowLastActivation | app/licensing/registry_service.py:266-332 | each row carries the hash of the token of the last activation of its pair, and every activated pair has a row |
| RegistryRuns.TokenResolvesUntilNextActivation | app/licensing/registry_service.py:217-396 | with fresh tokens and a collision-free hash an issued token resolves to its own installation exactly until the next activation of the same pair |
| RegistryRuns.ValidByTokenIff | app/licensing/registry_service.py:380-428 | a token validates exactly when its row exists, the version can be read, the row is not suspended, stands on the domain told, and has beaten recently enough |
| RegistryEffects.SucceedsIff | app/licensing/registry_service.py:233-253 | an activation takes effect exactly for an enabled and configured registry, a domain, a sale of a permitted item that matches the product id told, and a version that can be read |
| RegistryEffects.ActivationEffect | app/licensing/registry_service.py:266-310 | row by row: the pair's row gets the token hash, version and contact time and is unsuspended, or is created clean; rows of a purchase that is installed elsewhere become suspicious; all others stay; without effect nothing changes |
| RegistryEffects.ActivationEffectOnPurchases | app/licensing/registry_service.py:255-271 | the purchase of the code carries item and plan of this sale, created if new, and no other purchase changes |
| RegistryEffects.HeartbeatEffect | app/licensing/registry_service.py:346-369 | row by row: after a beat from another domain the token's row and all rows of its purchase are suspicious, after any other no suspicion changes; the row gets the contact time, and the version if one is told |
| RegistryEffects.UnknownBeatIsIgnored | app/licensing/registry_service.py:346-350 | a beat with an unknown token changes nothing |
| RegistryEffects.OperatorEffect | app/licensing/registry_admin_views.py:133-155 | suspending and reactivating write flag and reason of one existing row, a blank reason giving the default one, and reactivating undoes the suspension |
| RegistryEffects.ShownStatus | app/licensing/registry_service.py:456-469 | an accepted token is shown as suspicious if its row is, and otherwise as pending, active or inactive by its last contact |
| RegistryEffects.RejectedTokenIff | app/licensing/registry_service.py:380-416 | each refusal of a token exactly when it applies: the server error of an unreadable version before the suspension, and both before the domain and the age of the last contact |
| Suspension.SuspendedTokenReadsInvalid | app/licensing/client.py:84-89 | the answer about a suspended installation is read as invalid by the client, whichever field it looks at, unless the client's version makes the registry crash |
| Suspension.StepKeepsCutOff | app/licensing/service.py:162-510 | after a suspension every step of client, registry or network in which the client keeps its token leaves the token unresolvable and the last success where it was; a decision denies when it is forced or no old allow is left, and the gateway answers or the grace hours are over |
| Suspension.SuspensionTakesHold | app/licensing/registry_admin_views.py:133-155 | from any histories of client and registry: after a suspension, while the gateway answers and can read the client's version, nobody reactivates and the client keeps its token, every decision returned a cache timeout later denies, and every forced one denies immediately |
| Suspension.SuspensionOutlastsOutages | app/licensing/service.py:440-510 | from the same histories, whether the gateway answers or not, while nobody reactivates and the client keeps its token: every decision returned the grace hours and a cache timeout later denies, and every forced one once the grace hours are over |
| Suspension.FailedAttemptKeepsTokenIff | app/licensing/service.py:175-236 | a failed activation leaves the registry alone, and the client keeps its token exactly when the code was malformed; otherwise the token is dropped and the code stored |
| Suspension.FailedAttemptEscapesSuspension | app/licensing/registry_views.py:184-192 | after a failed activation with a well-formed code, an answer that the code is valid makes the suspended client active, the suspension untouched |
| Suspension.OutageReachesTheBound | app/licensing/service.py:450-477 | a client whose last success was at the suspension can be allowed, by outage and cache, at every moment from the last instant of grace to just before that bound |
| Suspension.SuspendedClientLosesContact | app/licensing/registry_views.py:140-159 | a beat reaches the row of its token, and counts as contact for the client exactly when the row is not suspended and the version can be read |
| Suspension.UnreadableVersionIsAnOutage | app/licensing/registry_service.py:396-399 | validating a known token with a version that cannot be read counts as an outage, suspended or not, and allows exactly while grace lasts |
| Suspension.TokenHashesDiffer | app/licensing/registry_service.py:266-310 | with fresh tokens no two installations share a token hash |
| Suspension.IssuedTokenReadsValid | app/licensing/registry_service.py:380-428 | right after an activation, on any tables, the new token validates on its domain with the version that was reported |
| Suspension.ActivationTakesHold | app/licensing/service.py:162-245 | whatever the states of client and registry, an accepted activation, which includes a version that can be read, followed by the client's own validation ends active, with the issued token stored and the purchase code dropped |
| Middleware.VerifyDomainBinding | app/licensing/middleware.py:17-50 | outcome and new row of the binding check, with at most one re-validation per request when the token has expired |
| Middleware.ProcessRequest | app/licensing/middleware.py:67-151 | outcome, new row and request marks of enforcement for every branch |
| Middleware.TokenNeverMissing | app/licensing/middleware.py:28-37 | in a row the licence operations left behind, the branch that issues a missing token never has one to issue |
| Middleware.CheckBindingIsSound | app/licensing/middleware.py:39-50 | the check passes exactly when the token stored afterwards verifies on the host, also after a re-issue |
| Middleware.AdmittedHostIsTheLicensedDomain | app/licensing/middleware.py:67-132 | after any history a gated request is admitted only on a non-empty host that normalises to the row's own domain normalised twice, also when the token was re-issued during the request; that is the domain's own normal form exactly when the domain exposes no space |
| Middleware.LicensedHostIsBlockedOnlyByDenial | app/licensing/middleware.py:39-50 | on a host that normalises to the licensed domain, as verification normalises it, the check fails only when the token has expired and validating again denies |
| Middleware.GatedIff | app/licensing/middleware.py:54-82 | enforcement looks exactly at authenticated requests to the API outside the ten prefixes |
| Middleware.OthersPassUntouched | app/licensing/middleware.py:67-82 | any other request, and every one without enforcement, is admitted with row, cache and headers unchanged |
| Middleware.ExpiredTokenAsksOnce | app/licensing/middleware.py:39-50 | the binding check validates again exactly for an expired token and not a second time in one request |
| Middleware.AdmittedIff | app/licensing/middleware.py:67-151 | after any history a gated request is admitted exactly when the decision allows, the token the row then holds verifies on the host, and the gateway contact is recent enough for its method and user; otherwise the first of these that fails is the reason |
| Middleware.MarkedIff | app/licensing/middleware.py:101-107 | a request is marked exactly on admission, for a grace decision or for an aged contact |
| Middleware.StaleContactLimits | app/licensing/service.py:131-152 | behind an active licence writes need a contact within the warning limit or a developer past the read-only limit, and everybody else one within either limit |
| DomainTokens.NormalizeIdempotentIff | app/licensing/jwt_tokens.py:28-33 | normalising twice changes nothing exactly when the input, stripped and cut at its port, ends neither in a space nor in a space followed by dots |
| DomainTokens.NormalizeIdempotent | app/licensing/jwt_tokens.py:28-33 | normalisation is idempotent on hosts without spaces |
| DomainTokens.SpaceBeforePortBreaksIdempotence | app/licensing/jwt_tokens.py:28-33 | a concrete host that two passes normalise differently from one |
| DomainTokens.NormalizeIsACut | app/licensing/jwt_tokens.py:28-33 | the normal form is a prefix of the stripped lower-case host, ends in no dot, and keeps a colon only inside a bracketed address |
| DomainTokens.PortIsCut | app/licensing/jwt_tokens.py:28-33 | from the first colon on a host that does not begin with a bracket is cut off, and what is left is its lower-case text without the dots at its end |
| DomainTokens.NothingIsCut | app/licensing/jwt_tokens.py:28-33 | a host without a colon, or a bracketed address, loses nothing but case and the dots at its end |
| DomainTokens.VerifyIff | app/licensing/jwt_tokens.py:48-66 | a token verifies exactly when it was signed here, has not expired, and its claim has the non-empty normal form of the host |
| DomainTokens.IssuedTokenRoundTrip | app/licensing/jwt_tokens.py:36-66 | on any host that normalises like the domain, a token for it verifies exactly before its expiry second, for a non-empty normal form and a domain that exposes no space |
| DomainTokens.IssuedTokenNamesItsDomain | app/licensing/jwt_tokens.py:36-66 | a token for a domain that exposes no space verifies only on hosts that normalise like it |
| DomainTokens.IssuedTokenLifetime | app/licensing/jwt_tokens.py:36-66 | on the hosts it is for, a token verifies for all its hours but the last second and is expired from the end on |
| SlidingCounter.RenewalExtendsChain | app/commands/security.py:161-187 | storing the read value plus one with the full timeout makes the entry the chain of admissions with gaps below the timeout |
| SlidingCounter.SlidingWindowBound | app/commands/security.py:161-187 | admissions made while fewer than N were chained never exceed N in a half-open window as long as the timeout |
| SlidingCounter.ClosedWindowBound | app/commands/security.py:161-187 | with both ends included a window as long as the timeout holds at most twice the limit |
| SlidingCounter.ClosedWindowReachesTwice | app/commands/security.py:161-187 | for every limit, timeout and start, a history the counter admits holds exactly twice the limit in the closed window |
| ScreenSecurity.ReplayFreeIff | app/commands/security.py:110-159 | replays of messages whose timestamp is a number are impossible in all histories exactly when twice the timestamp tolerance is below the nonce timeout |
| ScreenSecurity.NaNIsReplayed | app/commands/security.py:125-159 | a message with the timestamp NaN is accepted, and again exactly from the nonce timeout on |
| ScreenSecurity.Security.CheckNonce | app/commands/security.py:135-159 | a nonce is refused exactly while its entry is live and is remembered for the full timeout otherwise |
| ScreenSecurity.Security.CheckRateLimit | app/commands/security.py:161-187 | a message is counted exactly when the live counter is below the limit, renewing its timeout |
| ScreenSecurity.Security.ValidateMessage | app/commands/security.py:189-226 | the verdict in terms of all earlier messages: signature, then tolerance, then remembered nonces, then the chained acceptances; a rate-limited message has spent its nonce, and a wrongly signed one nothing |
| ScreenSecurity.AcceptedIff | app/commands/security.py:105-187 | a message is accepted exactly when its signature is right, its timestamp is within three hundred seconds or NaN, its nonce was not spent on that screen within the last hour, and fewer than sixty acceptances are chained |
| ScreenSecurity.RefusedIff | app/commands/security.py:189-226 | each refusal exactly when its condition is the first to fail |
| ScreenSecurity.Security.NoReplay | app/commands/security.py:110-226 | in every reachable state no two accepted messages share screen, timestamp and nonce, though nonces are forgotten after an hour, unless the timestamp is NaN |
| ScreenSecurity.Security.AtMostSixtyPerMinute | app/commands/security.py:161-187 | in every reachable state each half-open minute holds at most sixty accepted messages of a screen, and each minute with both ends at most a hundred and twenty |
| RegistryGate.Gate.RateAllow | app/licensing/registry_views.py:40-47 | a caller is let through exactly when its chained admissions on that route are below the limit; other callers are unaffected |
| RegistryGate.Gate.AtMostLimitPerWindow | app/licensing/registry_views.py:40-47 | in every reachable state each half-open window of a route holds at most its limit per address |
| Lockout.AccountLockoutManager.RecordFailedAttempt | app/accounts/security.py:39-74 | a failure during a lock changes nothing; any other is counted, locks when the chained failures reach the maximum, and reports how many are left |
| Lockout.AccountLockoutManager.ClearFailedAttempts | app/accounts/security.py:76-88 | clearing forgets the failures and lock of that identifier only |
| Lockout.AccountLockoutManager.IsLocked | app/accounts/security.py:90-97 | locked exactly while the failures chained up to now have reached the maximum |
| Lockout.AccountLockoutManager.GetRemainingLockoutTime | app/accounts/security.py:99-118 | zero when unlocked, otherwise within one second of the time left since the last counted failure |
| Lockout.FailureKeepsExact | app/accounts/security.py:54-74 | after a counted failure attempt counter, lock and lock expiry are live exactly when the chained failures say so |
| Lockout.LockLastsItsDuration | app/accounts/security.py:39-74 | a lock lasts exactly its duration, after which the count is gone and the next failure is the first |
| Lockout.AtMostMaxFailures | app/accounts/security.py:39-74 | without a clear every half-open window of the lockout duration holds at most the maximum of counted failures |
| RateLimiter.KeyDeterminesBucket | app/core/rate_limiting.py:70-101 | cache keys with different prefixes, windows or buckets differ, colons in prefixes notwithstanding |
| LimiterKeys.CombinedCallersShareIff | app/core/rate_limiting.py:98-168 | two requests of the combined strategy share their counters exactly when user, address and endpoint agree, or the longer address is the shorter one followed by what the other request's endpoint adds |
| LimiterKeys.UnmarkedCallersAreApart | app/core/rate_limiting.py:98-168 | addresses that do not contain the endpoint mark keep users, addresses and endpoints apart |
| LimiterKeys.EveryCallerCanBeImitated | app/core/rate_limiting.py:49-168 | every request with an endpoint shares its counters with one without, from an address that spells the endpoint out |
| LimiterKeys.EndpointsCanBeImitated | app/core/rate_limiting.py:49-168 | two requests that both name an endpoint collide when one endpoint ends in the mark and the other one twice, and the rest moves into the address |
| LimiterKeys.ImitatedAddress | app/core/rate_limiting.py:49-168 | a concrete pair of addresses that share their counters, one request naming no endpoint |
| LimiterKeys.ImitatedEndpoint | app/core/rate_limiting.py:49-168 | a concrete pair of requests with two endpoints that share their counters |
| LimiterKeys.SimpleCallersAreApart | app/core/rate_limiting.py:98-150 | the other strategies keep apart whom they identify, and no two strategies share a counter |
| LimiterKeys.SimpleStrategyShareIff | app/core/rate_limiting.py:98-168 | under every other strategy two requests share their counters exactly when they have the same user, role, endpoint or address; nobody is limited only without a user or role |
| RateLimiter.Limiter.CountWindows | app/core/rate_limiting.py:170-201 | the loop counts the call in all three windows whether or not it is denied, allows exactly when every window had room, and reports what was left before the call |
| RateLimiter.Limiter.CheckRateLimit | app/core/rate_limiting.py:103-201 | a call passes exactly when in each current bucket fewer checks than the limit, denied ones included, were made; without anyone to limit nothing is counted |
| RateLimiter.CheckKeepsExact | app/core/rate_limiting.py:170-201 | the counter of each live bucket equals the checks made in it |
| RateLimiter.LeftIsWhatPasses | app/core/rate_limiting.py:180-201 | what is reported as left is exactly how many more checks at that moment pass |
| RateLimiter.BucketsAreTheClocks | app/core/rate_limiting.py:70-101 | buckets are the minutes, hours and days of the clock, each with the limit of its name |
| RateLimiter.AtMostLimitPerBucket | app/core/rate_limiting.py:170-201 | at most the limit passes per aligned minute, hour and day |
| RateLimiter.AtMostTwiceInAnyWindow | app/core/rate_limiting.py:70-201 | at most twice the limit passes in any sliding window of that length |
| RateLimiter.TwiceTheLimitIsReached | app/core/rate_limiting.py:70-201 | for every window length, caller and limit, and from every start that is not a boundary of the clock, a run of the limiter in which twice the limit passes |
| RateLimiter.SlidingLimitHoldsIff | app/core/rate_limiting.py:70-201 | over a sliding window the limit holds in every run exactly when the window starts at a boundary of the clock, or the limit is zero |
| BulkLimiter.Limiter.CheckRateLimit | app/bulk_operations/utils.py:147-190 | a batch is admitted exactly when neither the current clock minute nor the current clock hour would exceed its limit, and a refusal counts nothing |
| BulkLimiter.AdmissionKeepsExact | app/bulk_operations/utils.py:166-190 | although the keys recur every hour and every day, each read equals the items admitted in the current absolute minute or hour |
| BulkLimiter.MinuteStaysExact | app/bulk_operations/utils.py:167-189 | the minute counter is exact again after an admission, for every user, operation and later moment |
| BulkLimiter.HourStaysExact | app/bulk_operations/utils.py:168-190 | the hour counter is exact again after an admission, for every user, operation and later moment |
| BulkLimiter.Limiter.NeverMoreThanTheLimits | app/bulk_operations/utils.py:147-190 | in every reachable state each clock minute and each clock hour holds at most its limit, for any limits that the calls in it brought along |
| ConnectionWindow.Connection.CheckMessageRateLimit | app/commands/consumers.py:363-376 | the window restarts exactly after more than a minute, and a message passes exactly while its window holds fewer than one hundred |
| ConnectionWindow.Connection.NeverMoreThanTwoWindowsPerMinute | app/commands/consumers.py:363-376 | in every reachable state any minute, ends included, holds at most two hundred admitted messages |
| ConnectionWindow.AtMostTwiceInAnyMinute | app/commands/consumers.py:363-376 | windows that follow each other by more than a minute meet any closed minute at most twice |
| ConnectionWindow.TwoHundredInAMinute | app/commands/consumers.py:363-376 | from a fresh connection, the run of checks that admits two hundred messages within one minute |
| Commands.Command.Save | app/commands/models.py:151-192 | a row is stored exactly when its payload suits its type and its expiry is still ahead; otherwise nothing is stored |
| Commands.Command.MarkDone | app/commands/models.py:194-201 | done with the first completion time kept, or nothing if the save is refused |
| Commands.Command.MarkFailed | app/commands/models.py:203-217 | failed with one more attempt, an empty error not overwriting the old one and the first completion time kept, or nothing |
| Commands.Command.ResetStatus | app/commands/models.py:254-258 | pending with the last attempt forgotten and the attempt count kept, or nothing |
| Commands.Command.BeginExecution | app/commands/models.py:296-366 | an execution starts exactly when the row is unexpired, the screen online and the row saves; an expired one raises, an offline one leaves the row alone |
| Commands.Command.FinishExecution | app/commands/models.py:368-409 | how a started execution is recorded, including an error while recording |
| Commands.Command.BeginRetry | app/commands/views.py:316-337 | a retry resets and starts exactly when the row may be retried and saves |
| Commands.Command.UpdateCommandStatus | app/commands/consumers.py:628-634 | a report of done or failed is recorded, unless the save is refused |
| Commands.Command.ReceiveCommand | app/commands/views.py:508-511 | a received command is executing, without counting an attempt |
| Commands.Command.PullCommand | app/signage/views.py:283-299 | pulling a pending command counts an attempt and leaves it pending |
| Commands.EveryRunIsAccounted | app/commands/models.py:194-409 | in every run attempts equal executions started plus failures saved plus pulls, finished rows have a completion time, and at most three retries dispatch |
| Commands.AtMostTwoRetriesDispatch | app/commands/models.py:267-294 | unless an operator resets the row, retries dispatch at most two executions, each retry having cost two attempts by the time the row can be retried again |
| Commands.RetryBoundsAreReached | app/commands/views.py:316-337 | runs that dispatch two retries, and three with operator resets |
| Commands.RetryEffect | app/commands/views.py:316-337 | an allowed retry of a valid row starts it when the screen is online and queues it otherwise, but does nothing at the very instant of expiry |
| Commands.CompletionIsWrittenOnce | app/commands/models.py:198-215 | a stored completion time never changes in any run |
| CommandEffects.PayloadRefusedIff | app/commands/models.py:151-182 | validation objects exactly to a payload that is not empty and lacks what its type needs |
| CommandEffects.EndIsStored | app/commands/models.py:194-217 | an unexpired valid command ends done, without another attempt, or failed, with one more and the error; any other stays as it is |
| CommandEffects.RetryRunsIff | app/commands/views.py:316-337 | a retry runs exactly an unexpired valid command, pending or failed, with fewer than three attempts, on a screen that is online |
| CommandEffects.MoveIsStored | app/commands/views.py:91-107 | what receiving, pulling, resetting and updating store, and when |
| CommandEffects.SentCommandEnds | app/commands/models.py:296-409 | a command sent to an online screen before its expiry ends done after one attempt when delivered, and failed after two otherwise |
| CommandEffects.UnsentCommandStays | app/commands/models.py:296-366 | sending changes the row exactly for an unexpired valid command and an online screen |
| Commands.Command.UpdateCommand | app/commands/views.py:91-107 | an update through the API is stored exactly for a pending or failed command whose new payload and expiry are valid |
| Commands.ExpiredRowsAreFrozenIff | app/commands/models.py:183-192 | from its expiry on a row stays as it is in a run exactly when no update gives it a valid payload and a new expiry or none; no expiry failure is ever stored |
| Commands.RevivedCommandRunsAgain | app/commands/views.py:91-107 | an expired failed command cannot be retried, and after an update that removes its expiry it is retried and runs |
| Sessions.SessionStore.OpenSession | app/accounts/tokens.py:16-34 | a login adds a live token of a new session |
| Sessions.SessionStore.Refresh | app/accounts/serializers.py:457-488 | a presented token is rotated exactly when it is known, unexpired, not blacklisted and its user may log in: it is blacklisted and its successor continues the session |
| Sessions.SessionStore.BlacklistOutstandingId | app/accounts/jwt_sessions.py:141-158 | succeeds exactly for a live token of that user and blacklists it alone |
| Sessions.SessionStore.BlacklistAll | app/accounts/jwt_sessions.py:161-175 | blacklists every unexpired token of the user, returns how many were live, and leaves the user's listing empty |
| Sessions.SessionStore.ListRefreshSessions | app/accounts/jwt_sessions.py:45-92 | the user's live tokens, newest first |
| Sessions.SessionStore.ActiveSessionStatsByTenant | app/accounts/jwt_sessions.py:95-138 | one pass yields, for exactly the tenants with live tokens, their number and the number of distinct users |
| Sessions.EveryRunIsSound | app/accounts/serializers.py:457-488 | in every run token ids are unique, a session has one user, and all its tokens but the newest are blacklisted |
| Sessions.AtMostOneLivePerSession | app/accounts/serializers.py:457-488 | in every run a session has at most one live refresh token |
| Sessions.RotatedTokenIsSpent | app/accounts/serializers.py:476-486 | a rotated token is never accepted again, whatever follows |
| Sessions.RotationAcceptedIff | app/accounts/serializers.py:457-488 | a rotation issues a token exactly for a user who may log in with a known, unexpired token that is not blacklisted, and otherwise changes nothing |
| Sessions.EveryTokenIsIssued | app/accounts/serializers.py:457-488 | in every run each token was issued for seven days by a login, or by rotating a live token of its user and session while the user may log in |
| Sessions.RevokedUserStaysOut | app/accounts/jwt_sessions.py:161-175 | after revoking everything, no token of the user is live in any continuation without a new login |
| Sessions.OthersAreUntouched | app/accounts/jwt_sessions.py:161-175 | revoking one user's sessions changes nobody else's tokens |
| Sessions.ListingIsExactlyTheLiveTokens | app/accounts/jwt_sessions.py:59-73 | a token is listed exactly when it is the user's and live |
| Sessions.ListingIsNewestFirst | app/accounts/jwt_sessions.py:59-59 | of two listed tokens the earlier listed was issued later |
| Sessions.TenantCountIsTheSumOfListings | app/accounts/jwt_sessions.py:95-138 | a tenant's session count is the sum of the listings of its users |
| BulkEngine.ValidateItemIds | app/bulk_operations/utils.py:92-144 | empty and oversized requests are refused; otherwise the loops yield the accepted stripped identifiers and the rejected ones of the distinct inputs |
| BulkEngine.DistinctKeepsEachOnce | app/bulk_operations/utils.py:112-118 | de-duplication keeps each input exactly once |
| BulkEngine.DistinctKeepsOrder | app/bulk_operations/utils.py:112-118 | de-duplication keeps the order of first occurrence |
| BulkEngine.PositionsPartition | app/bulk_operations/utils.py:124-144 | every distinct input is accepted or rejected, never both |
| BulkEngine.ScreenedListsFollowPositions | app/bulk_operations/utils.py:124-144 | the two lists name the accepted inputs, stripped, and the rejected ones, in input order |
| BulkEngine.ValidIdsRepeatIff | app/bulk_operations/utils.py:112-144 | accepted identifiers repeat exactly when two different acceptable inputs differ only in surrounding whitespace |
| BulkEffects.ScreenedIff | app/bulk_operations/utils.py:92-144 | exactly empty requests and those over a thousand entries are refused; an identifier is valid exactly when some entry strips to it with 8 to 128 characters and none of the nine suspicious ones, and every other entry is reported by name |
| BulkEngine.Response.AddResult | app/bulk_operations/utils.py:61-68 | total is the number of results and splits into successes and failures |
| BulkEngine.Engine.ApplyOne | app/bulk_operations/utils.py:315-353 | one item: a raise or a failing commit is undone in a transaction, a raise kept without one, and the outcome is recorded before the commit, so that a failing commit adds a second result |
| BulkEngine.Engine.ApplyToAll | app/bulk_operations/utils.py:312-353 | the loop over the items refines the recursive run, stopping right after an abort unless told to continue |
| BulkEngine.Engine.Execute | app/bulk_operations/utils.py:245-376 | store, results and limiter record of a whole bulk call, refused, limited or run |
| BulkEngine.RaisingItemsAreSkippedWhole | app/bulk_operations/utils.py:313-333 | with transactions and continue-on-error the final store is the left fold over the items that neither raised nor failed to commit |
| BulkEffects.WithTransactionsTheCommittedStay | app/bulk_operations/utils.py:313-333 | also when an abort ends the run early, the store is the fold over the processed items that were committed |
| BulkEffects.WithoutTransactionsEverythingStays | app/bulk_operations/utils.py:334-353 | without transactions the store is the fold over all processed items, those that raised included |
| BulkEffects.ResultsTellTheOutcome | app/bulk_operations/utils.py:315-353 | the first result of an item is the operation's own outcome, and the second, if there is one, the failed commit |
| BulkEffects.FailuresSayWhy | app/bulk_operations/utils.py:261-311 | every failure that is not the operation's names its entry and says why: too many entries, a bad format, or the limit |
| BulkEngine.StoreIsTheFoldOfCommitted | app/bulk_operations/utils.py:245-376 | the store after a whole call is that fold for an admitted request and unchanged otherwise |
| BulkEngine.CommittedRunsClean | app/bulk_operations/utils.py:313-333 | the committed items run by themselves neither raise nor fail to commit |
| BulkEngine.ResultsFollowItems | app/bulk_operations/utils.py:313-353 | the results are those of the processed items in order, all items are processed with continue-on-error, and an early end follows an abort |
| BulkEngine.OneResultIffCommitHolds | app/bulk_operations/utils.py:315-333 | the results of each processed item stand together, and there is exactly one unless its commit failed |
| BulkEngine.ResultsAreCounted | app/bulk_operations/utils.py:315-333 | there is one result per processed item and one more per failed commit |
| BulkEngine.TransactionsOnlyMatterWhenRaising | app/bulk_operations/utils.py:313-353 | when no item raises or fails to commit, transactions change neither store nor results |
| BulkEngine.OneResultPerEntry | app/bulk_operations/utils.py:245-376 | a refused request fails every entry, repeats included, and a limited one every distinct input; a run gives one result per rejected and per processed input and one more per failed commit, and processes all unless an abort ended it |
| BulkEngine.SuccessesAreTheOperations | app/bulk_operations/utils.py:282-353 | refused and limited calls succeed nowhere and leave the store alone; a run counts the successes that were kept and, besides, those whose commit failed |
| BulkEngine.RolledBackItemIsCountedAsSuccess | app/bulk_operations/utils.py:315-331 | an item whose commit fails is rolled back and counted as a success and as a failure |
| Versions.VersionTuple | app/licensing/registry_service.py:95-106 | the two accumulator loops compute the padded leading numbers of the dotted parts, or raise on the first part that `int` does not take |
| Versions.LeadingRun | app/licensing/registry_service.py:98-103 | the inner loop collects the longest leading run of characters that are digits to `isdigit` |
| Versions.ToInt | app/licensing/registry_service.py:104-104 | a run converts exactly when `int` takes each of its digits and there are at most 4300 |
| Versions.FourComponentsIff | app/licensing/registry_service.py:95-106 | a version has its four components exactly when the leading digits of every part are all taken by `int` and at most 4300 |
| Versions.SuperscriptRaises | app/licensing/registry_service.py:100-104 | two inputs with a superscript two that have no components |
| Versions.TagIsIgnoredIff | app/licensing/registry_service.py:97-104 | text after the number of a part is ignored exactly when it does not begin with a digit that `int` refuses and the number is not too long; otherwise reading raises |
| Versions.DottedRoundTrip | app/licensing/registry_service.py:95-106 | printing any numbers with dots and reading gives back the first four, padded with zeros, exactly when none is too long; four come back unchanged |
| Versions.TrailingZeroIsIgnored | app/licensing/registry_service.py:95-106 | appending a zero component to any non-blank version changes nothing, whether or not it can be read |
| Versions.FifthComponentIsDropped | app/licensing/registry_service.py:97-106 | a component past the fourth is read and dropped: the version is unchanged when it can be read, and raises otherwise |
| Versions.LessIsAStrictTotalOrder | app/licensing/registry_service.py:109-114 | tuple comparison is a strict total order |
| Versions.LessIff | app/licensing/registry_service.py:109-114 | of two tuples of one length the smaller is the one with the smaller number where they first differ |
| Versions.PrintedUpdateIff | app/licensing/registry_service.py:109-114 | between two printed versions an update is available exactly when the installed one is smaller where they first differ |
| Versions.UpdateIsAnsweredIff | app/licensing/registry_service.py:109-114 | the question is answered exactly when one version is blank or both can be read |
| Versions.UpdateIsAStrictOrder | app/licensing/registry_service.py:109-114 | "an update is available" is irreflexive, asymmetric and transitive, and two non-blank readable versions neither of which updates the other have the same four components |

## Left out

- Sessions.SessionStore.ListRefreshSessions: does not show device, address, activity and current-session fields, which are display data read from the stored token text.
- Commands.Command.BeginExecution: does not model a missing screen, because the column cannot be empty.
- Races inside one call and between the two saves of an execution's start: each start, finish, retry check and cache read-modify-write is one atomic step.
- Cache eviction and cache exceptions, including the branch of the request limiter that lets everything through when the cache fails.
- HTTP, WebSocket, Celery, marketplace and registry transport: any answer or error; the gateway answers of `Suspension` are those of the registry model.
- Hashing, signing and token encoding: arbitrary functions, or ideal tokens that only this installation can issue.
- The "|"-joined text under the row signature is a tuple of its six values, and cache keys other than those of the request limiter are constructors instead of formatted strings.
- The Unicode part of lower-casing: only ASCII letters change.
- Screen messages whose timestamp is not a number at all, which make the original raise, are not modelled; an infinite one is a number far away.
- Deletion of commands, and the name, priority and screen that an update of one can also change.
- Message texts are named values, except the server's own; automatic update stamps, the product id lookup, and column lengths the code does not cut to are not modelled.
- Telemetry columns, heartbeat log rows, plan payloads and the legacy purchase-code validation of the registry.
- Where limits come from in the request limiter (settings, roles, decorators): every call brings its own.
- The operator's toggle of the suspicious flag, and edits of rows through admin forms.
- Execution and audit logs, broadcasts, acknowledgements and connection counting of the screen consumer.
- The refresh-token library itself is not part of this model: its tables are a list of tokens and a set of blacklisted ids, and drawn identifiers are fresh.
- Items of a bulk request that are not strings are known only by their truth value and printed form; unhashable ones, which make the original raise, are not modelled.
- Analytics, backups, email, deployment hooks, content validation, templates, schedules, screens and tickets: database queries, foreign calls or single-branch code.
