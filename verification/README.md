# Verified model of r0semi

A Dafny model of the stateful parts of r0semi and proofs about it: the OAuth token engine, the
component runtime, the credential vault, source bindings, and three self-contained algorithms.
`dafny verify dfyconfig.toml` checks everything.

## What is modelled

**The token engine** (`oauth/`). `Engine.dfy` turns code exchange, refresh, device poll, device decision,
token revocation and grant revocation into threads with program counters over one shared store. Every store
call, epoch access and lock operation is one atomic step, any store call may fail without effect, and
threads interleave with the clock, sweeps and bulk revocation. `EngineInv.dfy` shows what every step keeps,
`EngineSafety.dfy` what holds between threads, and `EngineTheorems.dfy` states the guarantees over whole
runs. `EngineRequests.dfy` says what each request does in terms of the stored records,
`EngineRevocation.dfy` decides what a revocation leaves of an issuance it meets, and `EngineRuns.dfy` shows
the runs in which something is left. `TokenStore.dfy` and `DeviceStore.dfy` are the two in-memory stores,
updated in place and proved against the same functions the threads use. `LockTable.dfy` is the
reference-counted lock table, shown to behave as the plain mutex per key that the engine uses.
`ConsentChecks.dfy` holds the checks before a grant, `Sweep.dfy` the endpoints called one at a time, with
and without a sweep, and `Endpoints.dfy` what each of these answers and what it means for the next.

**The component runtime** (`internal/core`). `Runtime.dfy` is the transition function of one fiber and the
theory of its fixpoints; `RuntimeApp.dfy` is the `App` object with its store, fibers and flags updated in
place, from `Use` and `Remove` down to one `step`. `RemovalRace.dfy` interleaves a removal with an
activation in flight, `Shutdown.dfy` is the teardown order, and `Composition.dfy` the depth-first search of
`Check`.

**The vault** (`vault/`). `Envelope.dfy` is the associated data and the two-layer envelope over an abstract
AEAD, `VaultRepo.dfy` the table with its ordered index, `VaultRotate.dfy` a rotation run alone, and
`Vault.dfy` enrolment, use, revocation, erasure and the single steps of rotations beside one another,
across services that may disagree about their keys. `VaultRequests.dfy` says what each request stores,
removes and counts.

**Bindings** (`internal/federation`). `BindingStore.dfy` is the doubly indexed table, `BindProtocol.dfy`
binding beside removal and refresh in several processes, `BindRequests.dfy` what each answer there means,
`BindRuns.dfy` two of its runs, `KillSwitch.dfy` the paged removal of every binding, and `Cooldown.dfy` the
bounded rejection counter. `Ordered.dfy` is what the vault and the binding table share: ordered indexes,
keyset pages and page walks.

**Algorithms.** `Prefixes.dfy` decides whether prefixes cover an address family. `Compress.dfy` is the
deferred-decision response writer and `Negotiate.dfy` content-coding negotiation (section 12.5.3 of RFC
9110), with the ASCII string functions of `Ascii.dfy`.

## Assumptions

- Opaque values, rotation families and bind-flow ids are drawn fresh, and a value is drawn when it is saved, so nobody presents it before. `TokenHash` is injective.
- Grant epochs are unbounded naturals: the wrap-around of a 64-bit counter after 2^64 revocations is not modelled. Binding generations never repeat.
- A sealed value opens exactly under the key and associated data it was sealed with. Nothing is assumed about nonces, and wraps may repeat.
- (game, source) to the vault's provider string is injective, and users and games contain no `|`. No stored key is the empty cursor.
- A component either publishes what it declares or fails after publishing some of it, the same way every time.

## Where code and documentation differ

- `vault/service.go:184` says the counts of a rotation always add up. They do unless the run stops at a record, which is then scanned and not accounted for: `VaultRotate.Rotate` and `Vault.CountsAddUp` give the exact condition.
- `oauth/as.go:508-512` argues that the check after issuing is complete. It is not. `RevocationDecides` says exactly what a revocation leaves of an issuance for the same grant, when nobody else interferes: a record is live at the end if and only if the epoch was captured after the bump and the record saved after the delete. `LateCaptureOutruns` is a run that leaves the whole pair, and `SplitSaveOutruns` one that leaves only the refresh record because the delete falls between the two saves. `ApprovalOutlivesRevocation` is a run in which a device approval given before the revocation is polled after it has answered and mints a live pair: RevokeGrant touches no device record.
- `internal/federation/bind.go:261-266` says a completed removal cannot be undone by a flow that was already under way. That holds for flows begun against a live binding (`BoundFlowNeedsItsRow`). A flow begun while nothing was bound undoes the last removal exactly when nothing has written the row since (`UnboundFlowUndoesRemoval`), and `RemovalIsUndone` is such a run.
- `oauth/device.go:164-166` says redeeming refuses an expired record. The in-memory store does not look at the deadline. Every poll that mints has read the record before its deadline, and it redeems an expired one exactly when the deadline passed between that read and the redemption (`ExpiredRedemption`); `ExpiredIsRedeemed` is such a run.
- A secret in the vault implies a binding row for every binding whose critical sections run in one process (`SecretHasRow`). With two processes they may overlap, and `TwoProcessesStrand` is a run that leaves a secret without a row behind a bind and a removal that both answer success.

## Model

| member | source | states |
|---|---|---|
| `ConsentChecks.Resolve` | oauth/scope.go:246-267 | succeeds iff every scope is registered and open to the client; the result is the asked scopes without repeats |
| `ConsentChecks.AllowsAll` | oauth/as.go:166-170 | true iff the client is registered for every scope |
| `ConsentChecks.CheckExplicit` | oauth/device.go:639-652 | true iff every scope that needs it was ticked by itself |
| `ConsentChecks.ValidChallenge` | oauth/as.go:673-686 | true iff the challenge has the shape of an unpadded base64url SHA-256 digest |
| `ConsentChecks.CheckConsent` | oauth/as.go:162-213 | grants exactly the proper consents, refuses the scope exactly when one is unknown, closed to the client or not registered for it |
| `ConsentChecks.Authorize` | oauth/as.go:151-213 | grants exactly the well-formed requests with a proper consent; each refusal has its exact condition: client, then redirect URI and S256 challenge, then scopes, then consent |
| `ConsentChecks.Decide` | oauth/device.go:472-542 | approves exactly the proper consents within the requested scopes; an explicit empty choice grants nothing |
| `TokenStore.Prune` | oauth/tokens.go:362-392 | one deletion loop keeps exactly the entries that do not match and counts the others |
| `TokenStore.ClaimedOnce` | oauth/tokens.go:533-559 | a live value is claimed once; from then until its deadline presenting it is a reuse of its family by its owner, then nothing is known of it, and no other value notices |
| `TokenStore.DeletedIsForgotten` | oauth/tokens.go:565-572 | a deleted refresh value is not known any more, not even as spent |
| `TokenStore.RevokeTokensIsExact` | oauth/grants.go:239-271 | a record goes if and only if each filter field that is not empty is its own |
| `TokenStore.GrantDeleteIsExact` | oauth/grants.go:200-231 | a record, tombstone or code goes if and only if it is of that subject and that client |
| `TokenStore.FamilyRevocationIsExact` | oauth/tokens.go:578-607 | a record or tombstone goes if and only if it is of that family, and the empty family is nobody's |
| `TokenStore.SweepIsExact` | oauth/tokens.go:362-392 | an entry goes if and only if its deadline has come |
| `TokenStore.MemoryStore.ConsumeCode` | oauth/tokens.go:419-431 | hands a code out once |
| `TokenStore.MemoryStore.ConsumeRefresh` | oauth/tokens.go:533-559 | claims a live value leaving its tombstone, reports a reuse while the tombstone lasts, and otherwise knows nothing |
| `TokenStore.MemoryStore.DeleteRefresh` | oauth/tokens.go:565-572 | the value goes with its tombstone |
| `TokenStore.MemoryStore.RevokeRefreshFamily` | oauth/tokens.go:578-607 | every record and tombstone of the family goes, the count is of records, the empty family matches nothing |
| `TokenStore.MemoryStore.DeleteBySubjectClient` | oauth/grants.go:200-231 | everything of one subject and client goes, unspent codes included |
| `TokenStore.MemoryStore.RevokeTokens` | oauth/grants.go:239-271 | everything that matches the filter goes, the count is of tokens |
| `TokenStore.MemoryStore.SweepExpired` | oauth/tokens.go:362-392 | exactly the expired entries of the four maps go and are counted |
| `EngineInv.PerformKeepsStore` | oauth/tokens.go:323-335 | every operation keeps the store consistent: records are never changed or saved twice, values are known, families have a consent |
| `EngineInv.ExtendsKeepsThread` | oauth/as.go:215-401 | what a thread has read stays true or becomes moot whatever the other threads do |
| `EngineInv.ClaimGrantOK` | oauth/as.go:251-271 | the claim of a code or approval carries exactly what was granted into the mint |
| `EngineRequests.JobWasWon` | oauth/as.go:215-401 | whatever a request mints it has won at one of its own steps, from a record that fitted the request there and then, and client, subject, scopes, family and epoch are what record and request say |
| `EngineRequests.JobStays` | oauth/as.go:215-605 | what a request has won is in its answer, issued or not |
| `EngineRequests.CodeWasProved` | oauth/as.go:283-297 | a code is spent only by an exchange with its client, its redirect URI and a verifier of its challenge, before its deadline |
| `EngineRequests.ExchangeIsJudged` | oauth/as.go:230-243 | an exchange goes on if and only if its code fits, and the code stays where it is |
| `EngineRequests.ExchangeIsClaimed` | oauth/as.go:254-271 | the claim takes the code and mints from it if and only if it fits |
| `EngineRequests.PollIsJudged` | oauth/device.go:381-424 | a poll is refused, told to wait or goes on exactly as the record's client, deadline, status and last poll say |
| `EngineRequests.PollIsStamped` | oauth/device.go:237-247 | a poll that was in time leaves its stamp and nothing else |
| `EngineRequests.PollIsClaimed` | oauth/device.go:425-440 | an approved request is redeemed by the poll that removes it |
| `EngineRequests.RefreshIsJudged` | oauth/as.go:317-323 | a refresh of what is live for another client is refused, and nothing else is |
| `EngineRequests.RefreshIsLookedUp` | oauth/as.go:329-332 | the epoch it captures is that of the subject whose record it presents |
| `EngineRequests.RefreshGoesForItsLock` | oauth/as.go:346-350 | it goes on for the lock of the family of its value, live or spent, or of the value itself |
| `EngineRequests.RefreshTakesItsLock` | oauth/as.go:350-351 | it waits while that lock is taken and takes it when it is free |
| `EngineRequests.RefreshIsClaimed` | oauth/as.go:353-400 | a live value is rotated if and only if it fits, with the asked scopes if any are asked; a spent one is a reuse until its deadline; nothing else happens |
| `EngineRequests.PairWasSaved` | oauth/as.go:552-605 | the two records of a pair have the job's client, subject and scopes, the times of their saves, fresh values, and one family: the spent value's or a new one |
| `EngineRequests.FailedSaveIsUndone` | oauth/as.go:585-600 | an access record whose refresh record could not be saved is gone for good |
| `EngineRequests.ReuseIsExact` | oauth/as.go:355-376 | a detected reuse takes exactly the records and tombstones of its family |
| `EngineRequests.RevokedIsGone` | oauth/as.go:403-446 | a client that revokes a value of its own, live or spent, and is told so has nothing of it left, ever again |
| `EngineRequests.ForeignRevocationTouchesNothing` | oauth/as.go:403-446 | a revocation of anything else is told the same and changes nothing |
| `EngineRequests.GrantDeleteIsExact` | oauth/grants.go:128-141 | the delete of a grant takes exactly what is of that subject and client, and no device request |
| `EngineRequests.UpkeepIsExact` | oauth/grants.go:239-271 | beside the requests a sweep takes exactly what has expired and a bulk revocation exactly what its filter names |
| `EngineRequests.DecisionTakesEffect` | oauth/device.go:251-264 | a decision takes effect exactly on a pending record, with the subject and scopes decided |
| `EngineInv.ClaimRefreshOK` | oauth/as.go:353-400 | the claim of a refresh value carries its family, client, subject and no wider scopes into the mint |
| `EngineInv.KeyForOK` | oauth/as.go:754-779 | the lock key names the family of the value, live or spent, or the value can never be claimed |
| `EngineInv.ActOK` | oauth/as.go:215-605 | each step of each request is well founded and leaves its thread well founded |
| `EngineInv.DoKeepsOK` | oauth/as.go:215-605 | every event keeps the store and all threads consistent, and only extends history |
| `EngineSafety.DoKeepsLocks` | oauth/as.go:346-351 | a thread between claim and answer holds its family's lock |
| `EngineSafety.DoKeepsFamilies` | oauth/as.go:346-400 | one live refresh record or one minting thread per family, never both |
| `EngineSafety.ReuserIsAlone` | oauth/as.go:355-376 | while a reuse is being answered nobody mints into that family |
| `EngineSafety.DoKeepsDead` | oauth/as.go:355-376 | a family revoked for reuse stays empty at every step |
| `EngineSafety.DoKeepsOrigins` | oauth/as.go:251-271 | two threads never hold claims on the same code, approval or refresh value |
| `EngineSafety.DeleteGrantKills` | oauth/grants.go:128-141 | the revocation's delete removes a pair of that grant that has been saved |
| `EngineSafety.OvertakenIsDead` | oauth/as.go:523-541 | a pair issued under an epoch that a finished revocation has passed is not live |
| `EngineSafety.DoKeepsEpochs` | oauth/as.go:501-541 | every event keeps that |
| `EngineSafety.RunKeepsInvariant` | oauth/as.go:215-605 | all of it holds in every state of every run |
| `EngineTheorems.OneLiveRefreshPerFamily` | oauth/as.go:346-400 | in every reachable state a family has at most one live refresh record |
| `EngineTheorems.SpentValueIsReuse` | oauth/tokens.go:533-559 | presenting a spent value within its lifetime is detected as a reuse of its family |
| `EngineTheorems.ReuseKillsFamilyForGood` | oauth/as.go:355-376 | after the detected reuse no access record, refresh record or tombstone of the family ever exists again (section 4.14.2 of RFC 9700) |
| `EngineTheorems.RecordsStayWithinConsent` | oauth/as.go:384-400 | every record and tombstone has the client and subject of one proper consent and no wider scopes |
| `EngineTheorems.ConsentIsFixed` | oauth/as.go:552-605 | the consent behind a family never changes |
| `EngineTheorems.OneMintPerGrant` | oauth/as.go:251-271 | a code, an approval or a refresh value is spent by at most one request, ever |
| `EngineTheorems.StepsRunOut` | oauth/as.go:215-605 | a request that is not waiting for a lock comes closer to its answer with each of its steps, whatever the others do |
| `EngineTheorems.NobodyWaitsOnAWaiter` | oauth/as.go:346-351 | whoever a request waits for is not waiting itself and releases the lock within seven of its own steps |
| `EngineTheorems.OnlyTheOwnerSpends` | oauth/as.go:221-241 | whoever presents a value, nobody spends or revokes a code, approval, token or tombstone issued to another client |
| `EngineInv.OwnsOK` | oauth/as.go:451-463 | the client that a value resolves to owns everything the value names |
| `EngineTheorems.DecisionIsFinal` | oauth/device.go:237-264 | a device request leaves pending at most once and its decision is never revised, by polls or by other decisions |
| `EngineTheorems.ApprovalMintsTheDecision` | oauth/device.go:381-440 | what a poll mints has exactly the subject, scopes and client that were decided |
| `EngineTheorems.PollWasReadInTime` | oauth/device.go:386-400 | a poll on its way to redeem a record has read it, approved, before its deadline |
| `EngineTheorems.ExpiredRedemption` | oauth/device.go:164-166 | whatever was minted from a device request was read in time by that poll, and was redeemed expired if and only if the deadline passed between the read and the redemption |
| `EngineRuns.ExpiredIsRedeemed` | oauth/device.go:269-284 | a run in which it does |
| `EngineRevocation.RunCarriesEpoch` | oauth/as.go:249-271 | an issuance carries the epoch it captured, for the client and subject it captured it for, to its answer |
| `EngineRevocation.RunRevokes` | oauth/grants.go:128-141 | a revocation past its bump deletes that grant under that bump, or reports an error |
| `EngineRevocation.RevocationIsNotOutrun` | oauth/as.go:501-541 | if the epoch was captured before the bump, then once both have answered neither token is live |
| `EngineRevocation.SavedFirstIsDeleted` | oauth/grants.go:128-141 | a pair whose two records are saved when the revocation deletes is gone for good, wherever its issuance is by then and whenever its epoch was captured |
| `EngineRevocation.SavedAccessIsDeleted` | oauth/grants.go:128-141 | so is an access record whose refresh record is still to be saved |
| `EngineRevocation.StaysGone` | oauth/tokens.go:434-470 | deleted values stay deleted |
| `EngineRevocation.CheckPasses` | oauth/as.go:523-530 | an issuance that captured after the bump passes its check when nobody else bumps in between |
| `EngineRevocation.LateIsLeft` | oauth/as.go:501-541 | what it saves after the delete is then still live at the end |
| `EngineRevocation.RevocationDecides` | oauth/as.go:501-541 | in every run where an issuance and a revocation of its grant meet and nobody else interferes, each record is live at the end if and only if capture followed bump and save followed delete |
| `EngineRuns.LateCaptureOutruns` | oauth/as.go:508-541 | a run that leaves a live pair behind a revocation that answered success |
| `EngineRuns.SplitSaveOutruns` | oauth/as.go:508-541 | a run with the delete between the two saves, which leaves the refresh record only |
| `EngineRuns.ApprovalOutlivesRevocation` | oauth/device.go:381-440 | a run in which an approval given before a revocation mints a live pair after it has answered |
| `LockTable.DoKeeps` | oauth/as.go:731-752 | every step keeps counts equal to callers, entries distinct and holders exact |
| `LockTable.MutualExclusion` | oauth/as.go:731-752 | callers with one key have one lock object and at most one holds it, in every interleaving |
| `LockTable.EntryIffUsed` | internal/federation/refresh.go:231-254 | the table has an entry exactly while some caller holds, awaits or is leaving it |
| `LockTable.RefinesMutex` | oauth/as.go:731-752 | taking, unlocking, registering and deregistering are acquire, release and nothing on a plain mutex per key |
| `LockTable.ExitIsQuiet` | internal/federation/refresh.go:245-252 | the entry the last caller deletes is held by nobody |
| `DeviceStore.MemoryDeviceStore.SaveDevice` | oauth/device.go:193-208 | refused exactly for a stored device code or a user code that normalizes to a stored one |
| `DeviceStore.NormalizeAlike` | oauth/device.go:674-676 | two user codes are taken for the same if and only if they differ in case, dashes and surrounding space at most |
| `DeviceStore.MemoryDeviceStore.GetDeviceByUserCode` | oauth/device.go:222-234 | finds the record whose user code normalizes alike, or there is none |
| `DeviceStore.MemoryDeviceStore.RecordPoll` | oauth/device.go:237-247 | stamps the poll and nothing else |
| `DeviceStore.MemoryDeviceStore.RecordDecision` | oauth/device.go:251-264 | applies exactly to a pending record |
| `DeviceStore.MemoryDeviceStore.ConsumeDevice` | oauth/device.go:269-284 | hands out exactly an approved record and drops it with its index entry |
| `DeviceStore.MemoryDeviceStore.SweepExpired` | oauth/device.go:302-318 | drops exactly the expired records, keeping the index their inverse |
| `DeviceStore.SetKeepsInverse` | oauth/device.go:237-264 | polls and decisions leave the user-code index the exact inverse of the records |
| `Sweep.CollectGrants` | oauth/grants.go:66-91 | the fold gives each client all its live scopes, earliest issue, latest expiry and renewability, whatever the order of the rows |
| `Sweep.GrantsAreUnique` | oauth/grants.go:66-91 | there is one such list |
| `Sweep.RowsOfSubject` | oauth/grants.go:167-189 | lists exactly the subject's rows |
| `Sweep.ListGrants` | oauth/grants.go:57-109 | the grants are those of the live records |
| `Endpoints.IntrospectIsExact` | oauth/as.go:465-495 | introspection tells subject, client, scopes and deadline of a live access record of a registered client, and of nothing else |
| `Endpoints.AuthorizeIsExact` | oauth/as.go:198-213 | an authorization stores the code as granted and touches nothing else |
| `Endpoints.ExchangeIsExact` | oauth/as.go:215-297 | an exchange issues if and only if the code fits; the code is gone, the pair is stored, and nothing else changes |
| `Endpoints.RotateIsExact` | oauth/as.go:299-401 | a refresh of a live value spends it and issues what is asked if that is granted, or all that is granted if nothing is asked |
| `Endpoints.SpentRotateIsExact` | oauth/as.go:353-376 | presenting a spent value takes its family while the tombstone lasts |
| `Endpoints.ForeignRotateIsRefused` | oauth/as.go:317-323 | a refresh by the wrong client changes nothing |
| `Endpoints.RevokeIsExact` | oauth/as.go:403-446 | revocation removes a value of one's own, live or spent, and nothing else |
| `Endpoints.GrantsAreExact` | oauth/grants.go:57-109 | a client is listed if and only if the subject has a live record of it |
| `Endpoints.ExchangeOnce` | oauth/as.go:251-271 | a second exchange of a code is refused, and the pair of the first introspects as what was granted until it expires |
| `Endpoints.ReuseEndsTheFamily` | oauth/as.go:355-376 | after a rotation the spent value presented again is refused and takes the new pair with it |
| `Endpoints.RevokedIsInactive` | oauth/as.go:403-495 | a token its client has revoked, or whose grant has been, does not introspect |
| `Sweep.ClaimAlike` | oauth/as.go:353-400 | claiming a refresh value answers alike on swept and unswept stores, which stay alike |
| `Sweep.RespondAlike` | oauth/as.go:215-495 | so does every call |
| `Sweep.SweepIsUnobservable` | oauth/tokens.go:362-392 | for every later sequence of calls the answers are those of the unswept store |
| `Runtime.StepKeepsValid` | internal/core/app.go:297-389 | a step keeps the store equal to the bindings of the live scopes, and changes nothing exactly when the fiber is not due |
| `Runtime.GrowStep` | internal/core/app.go:297-389 | after a registration steps only load, and nothing available is lost |
| `Runtime.ShrinkStep` | internal/core/app.go:297-389 | after a removal steps only unload |
| `Runtime.StepProgress` | internal/core/app.go:260-295 | every transition shrinks the number of unsettled or active fibers |
| `Runtime.GrowKeepsGood` | internal/core/app.go:297-389 | loading activates only what is forced to be active, and only components that fail by themselves fail |
| `Runtime.LoadSucceeds` | internal/core/app.go:315-368 | a component that does not fail by itself finds its keys free |
| `Runtime.ShrinkKeepsGrounded` | internal/core/app.go:84-111 | what a removal leaves active is still forced to be |
| `Runtime.RestIsLeast` | internal/core/app.go:260-410 | at rest the active set is the least set closed under "does not fail and every injected key is provided" |
| `Runtime.RestIsSettled` | internal/core/app.go:297-315 | at rest a component is inactive only for want of a provider, active only with all of them, and otherwise was last tried with exactly the providers there are |
| `Runtime.ActiveSetIsOrderIndependent` | internal/core/app.go:260-410 | it depends on what is registered, not on the order or history |
| `Runtime.CycleStaysInactive` | internal/core/app.go:150-152 | components that need each other's keys never become active |
| `RuntimeApp.App.Withdraw` | internal/core/app.go:234-242 | withdraws a binding only while it is still this provider's |
| `RuntimeApp.App.Dispose` | internal/core/scope.go:49-63 | withdraws the whole scope, last published first, from inside or outside a reconciliation |
| `RuntimeApp.PopIsPartly` | internal/core/scope.go:49-63 | each inverse run is one step of that |
| `RuntimeApp.App.RequestReconcile` | internal/core/app.go:245-256 | ends at a fixpoint, and changes nothing at one |
| `RuntimeApp.App.Reconcile` | internal/core/app.go:260-280 | terminates with every fiber stable, having only progressed within its phase |
| `RuntimeApp.App.Pass` | internal/core/app.go:282-294 | reports no change exactly when every fiber was stable |
| `RuntimeApp.App.Step` | internal/core/app.go:297-389 | is the transition function of one fiber |
| `RuntimeApp.App.Load` | internal/core/app.go:315-368 | disposes, applies and rolls back as one transition |
| `RuntimeApp.App.Unload` | internal/core/app.go:370-384 | withdraws everything the fiber published |
| `RuntimeApp.App.ResolveTarget` | internal/core/app.go:394-410 | the current provider of every injected key, or that one is missing |
| `RuntimeApp.App.Bind` | internal/core/app.go:223-233 | refuses a key that is taken |
| `RuntimeApp.App.Apply` | internal/core/context.go:71-81 | publishes the declared keys up to the failure, and succeeds exactly when there is none |
| `RuntimeApp.App.Use` | internal/core/app.go:64-80 | ends at rest with the component registered, and at the least fixpoint if providers are unique |
| `RuntimeApp.App.Remove` | internal/core/app.go:84-111 | ends at rest with the fiber gone and inert and nothing newly active, and keeps the least fixpoint |
| `RuntimeApp.App.ForceUnload` | internal/core/app.go:413-433 | withdraws what is left of a retired fiber without waking anybody |
| `RuntimeApp.App.RootProvide` | internal/core/app.go:223-233 | a root binding is refused when taken, and otherwise ends at rest |
| `RuntimeApp.App.RootWithdraw` | internal/core/app.go:234-242 | withdrawing one ends at rest and keeps the least fixpoint |
| `RuntimeApp.NobodyDepends` | internal/core/app.go:84-111 | once a removal is reconciled nothing active injects a key of the removed fiber |
| `RuntimeApp.Drive` | internal/core/app.go:64-111 | after every sequence of registrations and removals without a clash the active set is the least fixpoint of what is registered |
| `RemovalRace.RunKeepsInvariant` | internal/core/app.go:297-389 | beside a removal every effect of every activation is reverted or its inverse is held, open scopes are current or about to be disposed, and an inactive component's scope is disposed |
| `RemovalRace.RemovedIsNeverActive` | internal/core/app.go:344-360 | once removed a component is never active again, whatever was in flight |
| `RemovalRace.RemovedIsTornDown` | internal/core/app.go:84-111 | when the removal has answered and no activation is in flight, the component is inactive and every effect it ever performed has been reverted |
| `RemovalRace.ActiveIsOpen` | internal/core/app.go:361-368 | a registered component that is active has an open scope |
| `RemovalRace.LoadOpensAScope` | internal/core/app.go:315-340 | a load opens a new scope after the old one is torn down |
| `RemovalRace.EffectIsRecorded` | internal/core/scope.go:26-38 | an effect's inverse is recorded, or run at once when the scope is disposed |
| `RemovalRace.ActivationConcludes` | internal/core/app.go:361-368 | an activation that succeeds is in force and one that fails is not |
| `RemovalRace.UnloadGoesAhead` | internal/core/app.go:370-378 | an unload that is due goes on to tear down the scope in force |
| `RemovalRace.InactiveIsTornDown` | internal/core/app.go:370-384 | whenever nobody is at work on an inactive component every effect it ever performed has been reverted |
| `RemovalRace.RevertsInReverse` | internal/core/scope.go:49-63 | a teardown works from the last effect to the first, whatever the other thread does meanwhile |
| `Shutdown.Search.Visit` | internal/core/app.go:442-455 | lists a component with all it uses, providers first when there is no cycle |
| `Shutdown.UnloadOrder` | internal/core/app.go:436-464 | lists every registered component once, dependents before their providers if and only if the bindings in place have no cycle |
| `Shutdown.RestIsAcyclic` | internal/core/app.go:435-464 | at a fixpoint they have none |
| `Composition.Providers` | internal/core/app.go:157-164 | who declares each key, and how often it is declared |
| `Composition.Duplicates` | internal/core/app.go:168-173 | exactly the keys declared more than once |
| `Composition.Search.Dfs` | internal/core/app.go:184-207 | turns a component black with everything it depends on, or a cycle has been reported |
| `Composition.Search.Visit` | internal/core/app.go:189-202 | descends, reports the closed path on the stack, or skips |
| `Composition.ClosesCycle` | internal/core/app.go:193-200 | what is reported is a dependency cycle |
| `Composition.NoCycleInOrder` | internal/core/app.go:205-212 | finishing in dependency order leaves no cycle |
| `Composition.Check` | internal/core/app.go:153-220 | reports exactly the keys declared twice, only real cycles, and nothing exactly when there is none |
| `Envelope.UvarintRoundTrip` | vault/envelope.go:148-156 | a length prefix reads back with what follows it |
| `Envelope.AADRoundTrip` | vault/envelope.go:148-156 | the associated data reads back as version, subject and provider |
| `Envelope.AADIsInjective` | vault/envelope.go:138-156 | no two identities or versions share associated data |
| `Envelope.EnvelopeIsBound` | vault/envelope.go:24-35 | an envelope or payload moved to another identity does not open |
| `VaultRepo.MemoryRepo.Put` | vault/repo.go:209-217 | replaces or inserts, keeping the index sorted and equal to the key set |
| `VaultRepo.MemoryRepo.Delete` | vault/repo.go:250-259 | removes exactly that record |
| `VaultRepo.MemoryRepo.RewrapIfUnchanged` | vault/repo.go:221-236 | replaces the envelope only, exactly while the row has the one that was read |
| `VaultRepo.MemoryRepo.ListPage` | vault/repo.go:293-316 | the smallest records after the cursor, in order, or all of them when the page is short |
| `VaultRepo.CursorAgrees` | vault/repo.go:321-329 | the cursor comparison is the order of the index |
| `VaultRepo.MemoryRepo.DeleteSubject` | vault/repo.go:332-350 | removes exactly the subject's records, which are one contiguous block of the index |
| `VaultRepo.BlockRemoved` | vault/repo.go:338-349 | bisection and the scan from there find exactly that block |
| `VaultRotate.RotateRecord` | vault/rotate.go:109-172 | each outcome of one record, with what it does to the table |
| `VaultRotate.RotateRecords` | vault/rotate.go:107-174 | a page is re-wrapped up to the first record that does not unwrap; the records that were on the current key are counted as such and the others as re-wrapped |
| `VaultRotate.RotatePage` | vault/rotate.go:42-60 | one turn of the page loop advances over the index without a gap |
| `VaultRotate.Rotate` | vault/rotate.go:34-103 | succeeds iff every record unwraps, then all are on the current key with payloads untouched, and the counts are the number of records that were on the current key and of those that were not; counts add up exactly when it succeeds |
| `VaultRotate.CurrentKeySuffices` | vault/rotate.go:14-33 | afterwards every secret reads as before with the current key alone |
| `Vault.RunKeepsInvariant` | vault/service.go:219-367 | every stored record is bound to its identity and sealed under the key its envelope wraps |
| `Vault.StepRefines` | vault/rotate.go:147-172 | every step is an enrolment, a removal or nothing on the map from identity to secret; a re-wrap is nothing |
| `Vault.VaultRefinesMap` | vault/service.go:219-388 | at every moment of every run the table stands for that map |
| `Vault.UseIsExact` | vault/service.go:285-367 | a successful use hands over the last enrolled, unrevoked secret as of its read; a missing one was missing then |
| `Vault.OpensExactlyWithTheKey` | vault/service.go:316-350 | a row that was read opens exactly when the service holds the key that wrapped it |
| `Vault.CountsAddUp` | vault/service.go:169-186 | the counts of a rotation add up unless it stopped at a record |
| `VaultRequests.CountsAreSteps` | vault/rotate.go:107-172 | beside whatever else goes on, a rotation's counts are the numbers of its own steps that found the envelope as read, found it replaced, and found the record on the current key |
| `VaultRequests.CompletionIsAudited` | vault/rotate.go:78-99 | a rotation reports success only when its counts have been audited |
| `VaultRequests.StoredMeansWritten` | vault/service.go:219-283 | an enrolment that answers has written, for the identity it was given, a record on the current key that opens to the secret it was given, and nothing else |
| `VaultRequests.EnrolmentIsJudged` | vault/service.go:219-223 | an enrolment goes on if and only if subject and provider are set and at most 1024 bytes long |
| `VaultRequests.UseIsJudged` | vault/service.go:285-316 | so does a use, which then reads the record or reports that there is none |
| `VaultRequests.CreationIsKept` | vault/service.go:258-276 | a new record carries the creation time of the one it replaces, as far as it could be read |
| `VaultRequests.RevocationIsExact` | vault/service.go:369-388 | a revocation removes exactly its record, and reports an error if the call or the audit entry fails |
| `Vault.RotationReaches` | vault/rotate.go:42-60 | a rotation has put a row on its key or has yet to reach it, whatever happens beside it |
| `Vault.RotationCompletes` | vault/rotate.go:34-60 | when it completes every row is on its key that nobody rewrote under another key meanwhile |
| `Ordered.LessIsStrict` | vault/repo.go:280-285 | comparing strings is a strict total order |
| `Ordered.Search` | vault/repo.go:184-190 | bisection finds the first position |
| `Ordered.IndexOf` | vault/repo.go:184-190 | where a key is or must be inserted |
| `Ordered.SortedIsUnique` | internal/federation/binding.go:350-361 | two sorted lists of the same keys are the same list |
| `Ordered.PageAfter` | internal/federation/binding.go:387-410 | a page is the run of the index after the cursor |
| `Ordered.Walk` | internal/federation/killswitch.go:56-74 | over a table that changes between reads, a walk visits nothing twice, only what was there, and everything that was there at every read |
| `BindingStore.KeyOrder` | internal/federation/binding.go:431-440 | (user, game, source) order is strict and total |
| `BindingStore.JoinedIsInjective` | internal/federation/binding.go:363-365 | the joined key names one binding when users and games have no bar |
| `BindingStore.JoinedCollides` | internal/federation/binding.go:363-365 | some other binding has the same joined key if and only if a bar occurs in user, game or source |
| `BindingStore.MemoryBindingStore.Get` | internal/federation/binding.go:273-281 | the row of that key or nothing |
| `BindingStore.MemoryBindingStore.Put` | internal/federation/binding.go:284-295 | replaces or inserts, keeping both indexes |
| `BindingStore.MemoryBindingStore.PutIfVersion` | internal/federation/binding.go:300-310 | writes exactly over the expected version |
| `BindingStore.MemoryBindingStore.Create` | internal/federation/binding.go:314-326 | writes exactly while the key is absent |
| `BindingStore.MemoryBindingStore.Delete` | internal/federation/binding.go:330-341 | removes exactly that row from table and indexes |
| `BindingStore.MemoryBindingStore.InsertUserIndex` | internal/federation/binding.go:238-246 | an account's list stays its share of the keys, in order |
| `BindingStore.MemoryBindingStore.RemoveUserIndex` | internal/federation/binding.go:250-262 | so on removal, and an account without bindings has no list |
| `BindingStore.MemoryBindingStore.ListAll` | internal/federation/binding.go:369-379 | every row once, in order |
| `BindingStore.MemoryBindingStore.List` | internal/federation/binding.go:350-361 | the account's rows, equal to the whole listing filtered by account |
| `BindingStore.MemoryBindingStore.ListAllPage` | internal/federation/binding.go:387-410 | the smallest rows after the cursor, in order, or all of them when the page is short |
| `BindProtocol.RunMovesRows` | internal/federation/bind.go:250-272 | what replaces a row has a version no row ever had |
| `BindProtocol.BoundFlowNeedsItsRow` | internal/federation/bind.go:261-280 | a flow begun against a live binding wins only if that very row has been in place ever since, across processes |
| `BindRequests.BoundFlowNeedsTheRowItSaw` | internal/federation/bind.go:178-187 | the row is the one that was there when the flow was begun, and it has been there ever since |
| `BindRequests.FlowsRemember` | internal/federation/bind.go:178-187 | every flow holds the row that was there when it was begun, or that there was none |
| `BindRequests.CompletionActsForItsUser` | internal/federation/bind.go:199-233 | a completion works, if at all, on a binding of the account it was called for |
| `BindRequests.ForeignFlowIsPutBack` | internal/federation/bind.go:204-218 | a completion with another account's flow touches no row and no secret, and says so if and only if it could put the flow back |
| `BindRequests.OwnFlowIsTaken` | internal/federation/bind.go:199-232 | a completion with one's own flow takes it and goes on |
| `BindRequests.AnswersAreEarned` | internal/federation/bind.go:225-305 | bound means the row was claimed and then the secret stored, refreshed that it was renewed and stored or another's left alone, removed that there was no row or that secret and then row went, superseded that nothing was touched, failed that a call failed |
| `BindRequests.FailedStoreIsUndone` | internal/federation/bind.go:285-304 | a bind whose store failed takes the secret back |
| `BindRequests.UpkeepIsExact` | vault/repo.go:332-350 | an account erasure takes exactly that account's secrets, and the end of a flow exactly that flow |
| `BindProtocol.LostClaimTouchesNothing` | internal/federation/bind.go:273-280 | otherwise it fails with rows and vault untouched |
| `BindProtocol.UnboundFlowUndoesRemoval` | internal/federation/bind.go:261-272 | in every run, a flow begun while nothing was bound writes the row again after its last removal if and only if no step in between wrote it |
| `BindRuns.RemovalIsUndone` | internal/federation/bind.go:261-272 | a run in which it does: another flow binds, a removal answers, and the first flow answers that the source is bound |
| `BindProtocol.DoKeepsLocks` | internal/federation/bind.go:231-232 | whoever is inside a binding's section holds that process's lock of it |
| `BindProtocol.DoKeepsSecret` | internal/federation/killswitch.go:200-208 | while a binding's critical sections do not overlap every step keeps: its secret has its row, and the row is deleted only after the secret |
| `BindProtocol.OneProcessIsExclusive` | internal/federation/refresh.go:231-254 | critical sections of one binding in one process do not overlap |
| `BindProtocol.SecretHasRow` | internal/federation/bind.go:225-305 | at every step of every run, a secret of a binding whose critical sections run in one process has its row, whatever processes other bindings use |
| `BindRuns.TwoProcessesStrand` | internal/federation/bind.go:225-305 | a run of two processes in which a bind and a removal both answer success and leave a secret without a row |
| `KillSwitch.RevokeBindings` | internal/federation/killswitch.go:119-155 | a page is removed but for the bindings that fail, each counted once |
| `KillSwitch.RevokeAllBindings` | internal/federation/killswitch.go:41-75 | a sweep that deletes as it pages ends, counts every binding there was once, and leaves exactly those whose removal failed |
| `Cooldown.Configured` | internal/federation/binding_cooldown.go:112-133 | positive settings are kept and the others become the defaults, so all are positive |
| `Cooldown.RunIsValid` | internal/federation/binding_cooldown.go:137-211 | after every history the list holds each key of the table once and the table is within its limit |
| `Cooldown.AdmittedIsValid` | internal/federation/binding_cooldown.go:165-182 | a newcomer is never the one evicted, and nobody is while there is room |
| `Cooldown.EntriesAreEarned` | internal/federation/binding_cooldown.go:137-211 | an entry never counts more than its own rejections since the last reset |
| `Cooldown.TallyCountsRejections` | internal/federation/binding_cooldown.go:137-204 | the tally of a key is the number of its rejections since whatever last forgot it, and the time of the last of them |
| `Cooldown.CounterIsTally` | internal/federation/binding_cooldown.go:165-190 | the unbounded counter is that tally |
| `Cooldown.CoolingIsExact` | internal/federation/binding_cooldown.go:137-190 | with no more counters than the limit all along, a key is cooling if and only if its tally reaches the threshold and the window after the last rejection is not over |
| `Cooldown.EvictedIsLeastRecent` | internal/federation/binding_cooldown.go:165-182 | whoever is evicted was used longest ago, and only a full table evicts for a newcomer |
| `Cooldown.CoolingIsEarned` | internal/federation/binding_cooldown.go:137-160 | cooling is reported only after threshold consecutive rejections with the latest inside the window |
| `Cooldown.BoundIsInvisible` | internal/federation/binding_cooldown.go:165-190 | the table agrees with unbounded counters all along exactly when these never outnumber the limit |
| `Cooldown.BindingCooldown.Asks` | internal/federation/binding_cooldown.go:137-160 | answers from the entry and drops a lapsed one |
| `Cooldown.BindingCooldown.Rejects` | internal/federation/binding_cooldown.go:165-190 | counts the rejection, evicts when full, and answers whether the key is now cooling |
| `Cooldown.BindingCooldown.Resets` | internal/federation/binding_cooldown.go:195-204 | forgets the key |
| `Prefixes.MergeKeepsCoverage` | cmd/re0auth/config.go:1364-1373 | the merged prefix contains exactly what the two halves contain |
| `Prefixes.HalvesMerge` | cmd/re0auth/config.go:1364-1373 | prefixes that differ in their last bit only do merge |
| `Prefixes.FindPair` | cmd/re0auth/config.go:1336-1349 | finds a pair that merges, or the list is unmergeable |
| `Prefixes.FreePath` | cmd/re0auth/config.go:1334-1353 | in an unmergeable list without a /0 one of two children is always free |
| `Prefixes.GapRemains` | cmd/re0auth/config.go:1334-1360 | such a list leaves an address uncovered |
| `Prefixes.HasUniversalPrefix` | cmd/re0auth/config.go:1326-1360 | terminates, and is true iff the given prefixes cover every address of some family |
| `Compress.HasNoTransform` | internal/compress/compress.go:489-496 | true iff some directive of the list is no-transform, in any case |
| `Compress.ResponseWriter.WriteHeader` | internal/compress/compress.go:330-371 | the first final status decides, with the headers as they are then; informational ones pass |
| `Compress.ResponseWriter.StartCompress` | internal/compress/compress.go:405-413 | one header, then one encoder |
| `Compress.ResponseWriter.Write` | internal/compress/compress.go:373-401 | the bytes are sent or held so that what is sent and held is what was written |
| `Compress.ResponseWriter.Flush` | internal/compress/compress.go:418-435 | ends the waiting: what may be encoded is, from here on |
| `Compress.ResponseWriter.Finish` | internal/compress/compress.go:439-456 | the response is complete |
| `Compress.ResponseWriter.Abandon` | internal/compress/compress.go:463-469 | after a panic the encoder goes back and nothing more is sent |
| `Compress.Serve` | internal/compress/compress.go:137-176 | for every sequence of calls: one header with the first final status before all of the body, the body is all writes, one sink, encoded iff flushed or large enough and nothing forbids it, every encoder released once |
| `Compress.FirstCallDecides` | internal/compress/compress.go:330-371 | the first call that is not an informational status decides: its status or 200, and whether the headers there and then forbid encoding |
| `Compress.EncodesExactly` | internal/compress/compress.go:348-401 | a response is encoded if and only if its status has a body, nothing forbids it, and it is large enough or flushed |
| `Negotiate.ReadQuality` | internal/compress/compress.go:268-286 | a quality in [0, 1]: zero if any q-value is malformed, else the last one, clamped, else one |
| `Negotiate.ParseAcceptEncoding` | internal/compress/compress.go:256-294 | a coding is named iff some part names it, with the quality of the last part that does, and so for the wildcard |
| `Negotiate.MeaningIsUnique` | internal/compress/compress.go:256-294 | a header has exactly one such meaning |
| `Negotiate.QualitiesFromHeader` | internal/compress/compress.go:213-250 | a coding has the quality of its last mention, else the wildcard's, else none, and identity likewise except that it is wanted by default |
| `Negotiate.PartReads` | internal/compress/compress.go:262-286 | a coding with a q-value reads as written, clamped, in either case and with space around it |
| `Negotiate.BareMeaning` | internal/compress/compress.go:187-209 | a bare list gives every coding it names, in any case, full quality and nothing else any |
| `Negotiate.ChooseByQuality` | internal/compress/compress.go:213-250 | the first of the best codings on offer, or identity, refused exactly when nothing is acceptable |
| `Negotiate.Choose` | internal/compress/compress.go:181-251 | for every header, the bare-list shortcut included |

## Left out

- HTTP handlers, redirects, sessions, cookies and the frontend: transport around what is modelled.
- Real cryptography, hashing and randomness: an abstract AEAD, an injective hash and drawn values.
- Postgres stores: their SQL is not part of this model; the in-memory stores are.
- Audit records, metrics, logs and error descriptions: no state modelled here depends on them, except that a failing audit write is one of the ways a vault call fails.
- Client secrets, and which of a client's registered redirect URIs have a scheme that may be used: the usable URIs are a parameter of `ConsentChecks.Authorize`.
- The retry loops that draw a free user code, `DescribeDeviceAuthorization` and `DescribeAuthorization`: reads without effect.
- Calls into the runtime from several goroutines at once, except a removal beside activations of the same component.
- RuntimeApp.App.Step: the branch that meets a removal while Apply runs is in `RemovalRace.dfy`, because `App` is called by one goroutine at a time.
- RuntimeApp.App.Load: likewise.
- Shutdown.UnloadOrder: the order only; the unloading of each component is `RuntimeApp.App.ForceUnload`. A Shutdown while a component is loading is left out.
- `Capabilities` and component callbacks that themselves call `Use` or `Remove`.
- Effects other than bindings in `RuntimeApp.dfy`, and panics inside `Apply`, which the runtime turns into errors.
- The upstream calls of bind, refresh, unbind and cascade: only their outcomes.
- KillSwitch.RevokeAllBindings: alone and one binding after another; its worker pool, the sources' answers and their counters are left out.
- Record metadata and the buffers that are scrubbed in the vault.
- Ordered.Walk: the page reads of a walk are given as the states of the index at each read, so it says nothing of walks that never end because keys keep being added behind the cursor. A walk that deletes is `KillSwitch.RevokeAllBindings`.
- Sweep.SweepIsUnobservable: device polls are not among the calls; the device store has its own sweep in `DeviceStore.dfy`.
- DeviceStore.MemoryDeviceStore.SaveDevice: user codes are normalized over ASCII only.
- Negotiate.Choose: header values are ASCII, and numbers are reals where the source has floating point.
- Compress.ResponseWriter.WriteHeader: whether the content type is one to encode is a field of the headers; the default list of types is left out.
- The rewriting of `Vary`, `Content-Encoding`, `Content-Length` and `ETag`.
- Erasing an account removes its secrets here; removing its binding rows and flows is left out.
