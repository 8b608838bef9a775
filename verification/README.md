# ParkShield: verified model of the stateful cores

ParkShield is a parking-safety service with mobile clients. This project models
the parts of it that keep state under concurrency, faults or repetition, and
proves what they promise over all inputs and all runs. `dafny verify
dfyconfig.toml` checks everything.

- `AuditChain`, `AuditTrail`: the hash-chained log of administrative actions, and
  the lock, read, insert and commit protocol that any number of transactions
  follow to extend it. The hash is a parameter; that it does not collide and
  never yields the genesis value is a hypothesis about the texts actually hashed.
- `SessionController`, `MobileSession`: single-flight token refresh on the phone,
  as a machine over all interleavings of callers, and as an object whose
  uninterrupted methods are runs of that machine.
- `TokenRotation`, `SessionRepositories`: single-use refresh tokens on the server,
  with logins, refreshes and password resets that interleave between their steps,
  and the two session stores.
- `LoginLimits`, `SlidingWindowLimiter`, `FixedWindowLimiter`: the two login rate
  limiters, with the bounds that hold in every run and runs that meet them.
- `Billing`, `BillingMemory`: purchases delivered out of order and repeatedly into
  a table where the last verification wins, and its in-memory twin.
- `Timestamps`, `ParkingRules`, `ParkingDecision`, `RuleStorage`: local-time
  parking rules, the decision over a schedule, and their way through storage
  with concrete printing and parsing.
- `Intake`, `FeedConnectors`, `Ingestion`: municipal feeds, from partition of the
  records to replay by digest and keyed upserts.
- `Evidence`, `EvidencePurge`, `PurgeBacklog`, `CommunityReporting`,
  `AccountErasure`, `PrivacyServicing`: report photos in a table and an object store
  whose calls can fail, the purge of expired ones, and account deletion beside
  uploads, rejections and purges that interleave with it step by step.
- `Sorting`, `Ranking`: recommendation scores and the best few of the candidates.

Integers model instants in microseconds unless a file says otherwise; the
limiters and the ranking use reals. Clocks, random identifiers, answers of the
network and of the object store are parameters of each step.

Some results say where the code falls short of what one would expect, and exactly
when.

- A refresh presents a token again exactly when the stored token is stranded: by a
  fault, a lost reply for instance (`SessionController.ResendsIffStranded`), or
  because the process died between sending it and settling the answer
  (`SessionController.ResendsAfterRestartIff`).
- A completed password reset ends the logins that checked an earlier password,
  unless the account is still there and such a login, or a refresh of its token, is
  halfway (`TokenRotation.ResetEndsLoginsIff`).
- The in-memory limiter advises too short a wait unless the rest of the lock is
  whole or at most a second (`SlidingWindowLimiter.AdviceMayFallShort`).
- The outcome of a parking schedule depends on its order exactly when it holds a
  raising and a malformed rule (`ParkingDecision.OrderMattersIff`). The deciding
  rule that is reported beside the outcome depends on it also when there is neither kind
  and two of the most restrictive active rules differ in identifier
  (`ParkingDecision.OrderShowsIff`).
- A GeoJSON record is lost exactly when the first record of its id has bad temporal
  rules (`FeedConnectors.ZoneIsLostIff`).
- With distinct deadlines, repeated purges reach a photo that can be deleted exactly
  when fewer undeletable ones than the limit are due before it
  (`PurgeBacklog.PhotoIsReachedIff`).
- Of the stored photos of a deleted account, those of finished submissions stay
  exactly when their row was saved after the deletion listed the photos
  (`AccountErasure.RemovalErasesAllButLate`).
- An upload that is stored although the store reports a failure is never discarded;
  such objects are a class of their own in `AccountErasure.EvidenceIsAccountedFor`.

## Model

| member | source | states |
|---|---|---|
| AuditChain.VerifyChain | backend/app/modules/admin/audit.py:35-50 | the replay loop accepts exactly the sequences in which every record names the hash before it and carries the hash of its own content |
| AuditChain.JoinInjective | backend/app/modules/admin/audit.py:22-32 | five fields joined by a bar can be told apart although the second may contain bars itself |
| AuditChain.MaterialInjective | backend/app/modules/admin/audit.py:22-32 | the hashed text determines actor, action, subject, time and previous hash |
| AuditChain.ChainBinding | backend/app/modules/admin/audit.py:35-50 | if no hash met in the replay collides or equals the genesis value, two accepted sequences with the same last hash have equal length and agree in every hashed field |
| AuditChain.CutIsDetected | backend/app/modules/admin/audit.py:35-50 | a sequence with a stretch of records removed before its last record is rejected under the same hypothesis |
| AuditTrail.IntegrityAlwaysHolds | backend/app/modules/admin/sql_audit.py:17-59 | after any interleaving of lock, tail read, insert, commit and rollback steps of any number of transactions the committed rows in sequence order pass verification |
| AuditTrail.StepKeepsInv | backend/app/modules/admin/sql_audit.py:17-41 | committed rows plus the rows of the lock holder form one chain, only the holder has done anything, and its tail reading is current: every step keeps this |
| AuditTrail.CommittedIsAppendOnly | backend/app/modules/admin/sql_audit.py:17-41 | what is committed stays in place in every later run |
| AuditTrail.TableHoldsPublished | backend/app/modules/admin/sql_audit.py:17-41 | in every run exactly those rows are in the table that some transaction inserted with the fields of its entry, and committed before it rolled back |
| AuditTrail.RowsComeFromDistinctSteps | backend/app/modules/admin/sql_audit.py:31-41 | two different rows come from two insertions |
| AuditTrail.HolderIsAlone | backend/app/modules/admin/sql_audit.py:21-41 | until the holder ends, no other transaction commits a row or takes the lock |
| AuditTrail.AppendContinuesLog | backend/app/modules/admin/sql_audit.py:17-41 | a granted append adds one record to the log, and that record names the tip of the log |
| AuditTrail.AppendAlone | backend/app/modules/admin/sql_audit.py:17-41 | an append without interruption is its three protocol steps, with their exact combined effect |
| AuditTrail.AuditDatabase.TryLock | backend/app/modules/admin/sql_audit.py:21-21 | the lock is granted exactly when nobody else holds it |
| AuditTrail.AuditDatabase.Append | backend/app/modules/admin/sql_audit.py:17-41 | the in-place append reaches the state of the protocol run; the record it returns carries the fields of the entry, names the newest hash its session sees and is hashed over both; a refusal and a clash of identifier, hash or length are told apart |
| AuditTrail.AuditDatabase.Insert | backend/app/modules/admin/sql_audit.py:22-41 | the holder of the lock appends a record with the fields of the entry that continues what its session sees, unless the row does not fit |
| AuditTrail.AuditDatabase.VerifyIntegrity | backend/app/modules/admin/sql_audit.py:43-59 | verification of the table is verification of its committed rows in sequence order |
| AuditTrail.SequenceOrderSorts | backend/app/modules/admin/sql_audit.py:43-46 | verification reads all rows of the table by ascending sequence, whatever their order |
| SessionController.SingleFlight | apps/android/app/src/main/kotlin/ai/parkshield/android/feature/auth/data/SessionController.kt:31-55 | in every interleaving of refresh, restore, login and logout calls at most one caller waits for the refresh endpoint |
| SessionController.NoTokenSentTwice | apps/android/app/src/main/kotlin/ai/parkshield/android/feature/auth/data/SessionController.kt:68-86 | without exceptions inside a refresh and failed removals of its refresh token no refresh token is ever sent twice |
| SessionController.ResentOnlyIfStranded | apps/android/app/src/main/kotlin/ai/parkshield/android/feature/auth/data/SessionController.kt:31-86 | whatever the faults, a token is sent again only if an earlier flight that sent it ended with it still stored |
| SessionController.ResendsIffStranded | apps/android/app/src/main/kotlin/ai/parkshield/android/feature/auth/data/SessionController.kt:31-86 | in every run, with no flight open, the next refresh sends the stored token, and that token was sent before exactly when it is stranded |
| SessionController.StrandedGrowsIff | apps/android/app/src/main/kotlin/ai/parkshield/android/feature/auth/data/SessionController.kt:41-86 | a step strands a token exactly when it is a fault of a refresh whose token the store still holds |
| SessionController.ResendsInAnyLifeIff | apps/android/app/src/main/kotlin/ai/parkshield/android/feature/auth/data/SessionController.kt:31-86 | the same over any number of processes, each killed at any moment: only stranded tokens were ever sent twice, and the next refresh resends exactly a stranded one |
| SessionController.ResendsAfterRestartIff | apps/android/app/src/main/kotlin/ai/parkshield/android/feature/auth/data/SessionController.kt:31-86 | the first refresh after a restart sends the stored token, which some process had sent before exactly when it was stranded or a flight that had sent it was still deciding its fate |
| SessionController.LostFlight | apps/android/app/src/main/kotlin/ai/parkshield/android/feature/auth/data/SessionController.kt:41-49 | a flight that loses the reply sends the stored token once and ends with that token stored |
| SessionController.LostReplyResends | apps/android/app/src/main/kotlin/ai/parkshield/android/feature/auth/data/SessionController.kt:41-49 | one lost reply makes the next refresh send the same token: the fault hypothesis is needed |
| SessionController.NextRefreshSendsStored | apps/android/app/src/main/kotlin/ai/parkshield/android/feature/auth/data/SessionController.kt:68-72 | with no flight open the next refresh sends exactly what the store holds |
| SessionController.SharedOutcome | apps/android/app/src/main/kotlin/ai/parkshield/android/feature/auth/data/SessionController.kt:31-55 | every caller that took part in a flight returned the result of that flight |
| SessionController.FlightEndsAsSettled | apps/android/app/src/main/kotlin/ai/parkshield/android/feature/auth/data/SessionController.kt:41-86 | in every run the result of a completed flight is exactly what the read, reply or write of its leader settled: signed in after both writes, signed out without a token or when the server calls it invalid, failed with the error of the server, of the store or of the transport otherwise |
| SessionController.ResultIsFinal | apps/android/app/src/main/kotlin/ai/parkshield/android/feature/auth/data/SessionController.kt:41-54 | no later step changes the result of a completed flight |
| SessionController.IdleSlotIsEmpty | apps/android/app/src/main/kotlin/ai/parkshield/android/feature/auth/data/SessionController.kt:49-53 | when no refresh is active the in-flight slot is empty |
| SessionController.LeaderAdvances | apps/android/app/src/main/kotlin/ai/parkshield/android/feature/auth/data/SessionController.kt:41-54 | every step of the leader brings the release of the flight closer, whatever store and server answer |
| SessionController.LeaderIsNeverBlocked | apps/ios/Sources/ParkShieldFoundation/Feature/Auth/Data/SessionController.swift:13 | an open flight always has a step its leader can take |
| SessionController.JoinedCallerReturns | apps/ios/Sources/ParkShieldFoundation/Feature/Auth/Data/SessionController.swift:13 | a caller that joined a released flight can return, with the result of that flight |
| SessionController.StepKeepsFlightInv | apps/android/app/src/main/kotlin/ai/parkshield/android/feature/auth/data/SessionController.kt:31-55 | every step keeps the slot led by exactly one caller and only the current flight incomplete |
| SessionController.StepKeepsTokenInv | apps/android/app/src/main/kotlin/ai/parkshield/android/feature/auth/data/SessionController.kt:57-86 | every step keeps a stored token unsent, stranded, or under decision by the flight that sent it |
| MobileSession.SaveTearsIff | apps/android/app/src/main/kotlin/ai/parkshield/android/feature/auth/data/SecureSessionStore.kt:9-14 | a save leaves an access token beside a foreign or missing refresh token exactly when the old access token survives a partly failed save |
| MobileSession.Controller.Refresh | apps/android/app/src/main/kotlin/ai/parkshield/android/feature/auth/data/SessionController.kt:31-55 | a caller that finds a flight open joins it and waits; otherwise its uninterrupted refresh is a run of the interleaving machine that empties the slot, with session state and slots stated for each answer of store and server |
| MobileSession.Controller.RefreshInternal | apps/android/app/src/main/kotlin/ai/parkshield/android/feature/auth/data/SessionController.kt:68-81 | the read, send and store or clear part is a run of the machine, exceptions included, with its outcome and its slots for each answer |
| MobileSession.Controller.Persist | apps/android/app/src/main/kotlin/ai/parkshield/android/feature/auth/data/SessionController.kt:83-86 | storing a pair is a run of the machine with the exact slots left by each failure |
| MobileSession.Controller.ClearAndSet | apps/android/app/src/main/kotlin/ai/parkshield/android/feature/auth/data/SecureSessionStore.kt:22 | both removals are attempted whatever the first does |
| MobileSession.Controller.Login | apps/android/app/src/main/kotlin/ai/parkshield/android/feature/auth/data/SessionController.kt:26-29 | an uninterrupted login is a run of the machine; a refused login fails with the error of the server and leaves the stored tokens alone, an exception leaves the state alone |
| MobileSession.Controller.Logout | apps/android/app/src/main/kotlin/ai/parkshield/android/feature/auth/data/SessionController.kt:57-63 | an uninterrupted logout is a run of the machine; it ends signed out unless an exception escapes before the clearing |
| TokenRotation.FamilyHasOneHolder | backend/app/modules/identity/service.py:127-138 | under any interleaving of logins, refreshes, resets, revocations and lost calls a login has at most one stored token or call about to store the next |
| TokenRotation.TokenIsConsumedOnce | backend/app/modules/identity/service.py:132-133 | at most one refresh call per token gets past its consuming step |
| TokenRotation.TokenHasOneSuccessor | backend/app/modules/identity/service.py:166-174 | a token yields at most one successor, of the same user and login, and none while it is stored |
| TokenRotation.OneTokenPerGeneration | backend/app/modules/identity/service.py:127-138 | the tokens of a login form one chain: two of them equally far from the login are the same |
| TokenRotation.StoredTokenIsNewest | backend/app/modules/identity/service.py:127-138 | the stored token of a login comes after all its other tokens |
| TokenRotation.TokenIsAcceptedIff | backend/app/modules/identity/service.py:99-133 | a refresh or reset gets past its token exactly while the session of the token is stored, unexpired and of the same user |
| TokenRotation.AcceptedBeforeExpiry | backend/app/modules/identity/service.py:127-133 | in every run an accepted token was stored by an earlier step with an expiry that has not come |
| TokenRotation.EndedTokenIsRefused | backend/app/modules/identity/service.py:127-145 | in every run a token is refused ever after its use, its logout or the removal of its account |
| TokenRotation.ResetEndsLoginsIff | backend/app/modules/identity/service.py:94-138 | after a completed reset no session of the user is stored; a login that checked an earlier password can have one stored again exactly when the account is still there and such a login was between check and storing, or a refresh of its token between consuming and issuing |
| TokenRotation.LoginSurvivesReset | backend/app/modules/identity/service.py:94-124 | a run in which a login checks the password before a reset and stores its session after it |
| TokenRotation.RefreshSurvivesReset | backend/app/modules/identity/service.py:94-138 | a run in which a refresh consumes its token before a reset and stores the successor after it |
| TokenRotation.StepKeepsInv | backend/app/modules/identity/service.py:94-174 | every step keeps the seven facts the rotation rests on |
| SessionRepositories.RepositoriesAgree | backend/app/modules/identity/sql_repositories.py:121-133 | after any calls under a monotone clock, with identifiers used once, both repositories hold the same live sessions and answer every consume alike |
| SessionRepositories.RevocationsDifferOnlyOnExpired | backend/app/modules/identity/repositories.py:96-102 | a revocation by its owner is answered differently exactly when only the table still has the expired row |
| SessionRepositories.SecondAddTellsApart | backend/app/modules/identity/repositories.py:64-66 | an identifier added twice is overwritten by one repository and refused by the other |
| SessionRepositories.InMemorySessionRepository.Consume | backend/app/modules/identity/repositories.py:68-73 | returns the user exactly of a session that is stored and expires later, and drops the session, expired or not |
| SessionRepositories.InMemorySessionRepository.RevokeAll | backend/app/modules/identity/repositories.py:79-85 | a session remains exactly when it was there for another user, unchanged |
| SessionRepositories.InMemorySessionRepository.RevokeForUser | backend/app/modules/identity/repositories.py:96-102 | removes the session if it belongs to the user, and changes nothing otherwise |
| SessionRepositories.SqlSessionRepository.Consume | backend/app/modules/identity/sql_repositories.py:121-127 | returns the user exactly of a row that is stored and expires later; that row goes, an expired one stays |
| SessionRepositories.SqlSessionRepository.Add | backend/app/modules/identity/sql_repositories.py:110-119 | adds the row unless its identifier is taken |
| SessionRepositories.SqlSessionRepository.RevokeForUser | backend/app/modules/identity/sql_repositories.py:146-152 | removes the row if it belongs to the user, expired or not, and changes nothing otherwise |
| SlidingWindowLimiter.FailuresAreSpaced | backend/app/modules/identity/abuse.py:46-72 | in every run any max_failures + 1 consecutive failed serial logins on a key span at least the smaller of window and lock |
| SlidingWindowLimiter.SpacingIsTight | backend/app/modules/identity/abuse.py:57-68 | max_failures of them fit into one moment |
| SlidingWindowLimiter.LockLastsExactly | backend/app/modules/identity/abuse.py:46-68 | a failure that locks a key locks it for exactly the time of the lock, whatever is called on other keys and however often this one is checked |
| SlidingWindowLimiter.RecentCounts | backend/app/modules/identity/abuse.py:60-64 | pruning keeps exactly the failures after the cutoff, each as often as it was there |
| SlidingWindowLimiter.AdviceMayFallShort | backend/app/modules/identity/abuse.py:52-53 | waiting the advised seconds suffices exactly when the rest of the lock is whole or at most a second |
| SlidingWindowLimiter.AdviceFallsShort | backend/app/modules/identity/abuse.py:52-53 | a run that locks a key and is then refused twice, the second time after the advised wait |
| SlidingWindowLimiter.InMemoryLoginRateLimiter.CheckKey | backend/app/modules/identity/abuse.py:46-55 | refuses exactly while the lock runs, advises the whole seconds left but at least one, and drops a state whose lock is over |
| SlidingWindowLimiter.InMemoryLoginRateLimiter.RecordFailure | backend/app/modules/identity/abuse.py:57-68 | keeps exactly the failures inside the window and the new one, and locks at the limit |
| FixedWindowLimiter.FailuresAreSpaced | backend/app/modules/identity/sql_abuse.py:29-77 | in every run any 2m - 1 consecutive failed serial logins on a key span at least the smaller of window and lock, m being the limit or two |
| FixedWindowLimiter.SpacingIsTight | backend/app/modules/identity/sql_abuse.py:40-72 | a run in which 2m - 2 of them span exactly any chosen fraction of that bound, or nothing when m is two |
| FixedWindowLimiter.LockLastsExactly | backend/app/modules/identity/sql_abuse.py:28-77 | a failure that locks a key locks it for exactly the time of the lock, deletion of stale rows included |
| FixedWindowLimiter.RetentionIsTransparent | backend/app/modules/identity/sql_abuse.py:40-72 | deleting stale rows changes no answer, for any key and any later calls under a monotone clock |
| FixedWindowLimiter.LoginIsSerial | backend/app/modules/identity/service.py:109-125 | logins that run one after the other make the serial calls the spacing asks for |
| FixedWindowLimiter.AdviceSuffices | backend/app/modules/identity/sql_abuse.py:29-38 | waiting the advised seconds always gets past the lock |
| FixedWindowLimiter.SqlLoginRateLimiter.CheckKey | backend/app/modules/identity/sql_abuse.py:29-38 | refuses exactly while the lock runs, advises the seconds left rounded up, and deletes a row whose lock is over |
| FixedWindowLimiter.SqlLoginRateLimiter.RecordFailure | backend/app/modules/identity/sql_abuse.py:40-72 | opens a window, or counts in the open one and locks at the limit, and deletes exactly the other rows untouched for twice the longer of window and lock |
| Billing.RowsAreWinners | backend/app/modules/billing/sql_repository.py:52-109 | after any deliveries the row of a key is the last delivered purchase among those verified latest, under the identifier it was first stored with |
| Billing.Convergence | backend/app/modules/billing/sql_repository.py:52-109 | two delivery sequences with the same purchases and no ties leave the same row contents, whatever the order and repetition |
| Billing.EventsAreFirstReports | backend/app/modules/billing/sql_repository.py:95-109 | in every run exactly the delivered references have events, each that of its first delivery and naming a row of the table |
| Billing.NewestVerificationDecides | backend/app/modules/billing/service.py:67-89 | if every key belongs to one user, the current row is the newest verification of the user; premium is granted exactly for an active or graced one that has not expired, and an expired one is reported as expired |
| Billing.TierIsThatOfNewestWinner | backend/app/modules/billing/service.py:65-91 | after any deliveries a user for whom none won a key is on the free tier; any other is premium exactly when a newest of the winning deliveries is active or graced and unexpired |
| Billing.UserHasCurrentIff | backend/app/modules/billing/sql_repository.py:43-109 | in every run a user has a current subscription exactly when a delivery for the user won its key |
| Billing.DeliveredUserHasCurrent | backend/app/modules/billing/sql_repository.py:43-109 | if no key changes users, every user with a delivery has a current subscription |
| Billing.ReassignedKeyLosesFirstUser | backend/app/modules/billing/sql_repository.py:52-109 | after any deliveries, a key delivered for a second user, no older than before, takes the subscription from a user who had no other |
| Billing.SqlBillingRepository.Reconcile | backend/app/modules/billing/sql_repository.py:52-109 | updates the row only for a verification that is not older, and records the event once |
| BillingMemory.MemoryRefinesLedger | backend/app/modules/billing/repositories.py:19-44 | after any regular deliveries the memory and the table hold the same subscriptions, identifiers aside, and the same event references |
| BillingMemory.RedeliveryTellsApart | backend/app/modules/billing/repositories.py:19-44 | after any regular deliveries, a known event reference that comes back leaves the two in agreement exactly when its verification is older than the row or says the same |
| BillingMemory.FindMeaning | backend/app/modules/billing/repositories.py:19-44 | the search by key finds a stored subscription if and only if there is one |
| BillingMemory.InMemoryBillingRepository.Reconcile | backend/app/modules/billing/repositories.py:19-44 | ignores known events, replaces an older subscription of the key, keeps a newer one, and returns the kept or the delivered one accordingly |
| BillingMemory.InMemoryBillingRepository.Current | backend/app/modules/billing/repositories.py:15-17 | returns the first of the subscriptions of the user that was verified latest |
| ParkingRules.WindowIsArc | backend/app/modules/parking/service.py:235-236 | membership in a window is membership in the arc of the day from its start to its end |
| ParkingRules.WindowsSplitDay | backend/app/modules/parking/service.py:235-236 | a window and its reverse split the day |
| ParkingRules.AnyContainsMeaning | backend/app/modules/parking/service.py:198-202 | the search over exempt windows stops at the first hit or the first window it cannot compare |
| ParkingRules.ActiveIff | backend/app/modules/parking/service.py:152-202 | a rule is active exactly when it is complete and in force, the local day is one of its weekdays and no exception, and the local time is on the arc of its window and of no exempt one |
| ParkingRules.InactiveOutside | backend/app/modules/parking/service.py:182-189 | outside its validity, its weekdays or on an exception a complete rule is inactive, whatever its windows |
| ParkingRules.RaisesIff | backend/app/modules/parking/service.py:190-202 | a rule in force raises exactly when it meets a window with an aware bound before it is exempt |
| ParkingRules.IncompleteIff | backend/app/modules/parking/service.py:150-173 | an unknown zone cannot be verified, and a rule is incomplete in exactly eight ways |
| ParkingRules.SameTimeIsSameMoment | backend/app/modules/parking/service.py:162-162 | naive window bounds are equal if they read the same, aware ones if they meet in time |
| ParkingDecision.ScheduleMeaning | backend/app/modules/parking/service.py:136-232 | a non-empty schedule raises exactly when a raising rule comes before any malformed one; otherwise it is indeterminate exactly when some rule is malformed or none is active; else it is a ban, a caution or a permit according to the strictest active rule, stated by effect |
| ParkingDecision.OutcomeIgnoresOrderAndIdleRules | backend/app/modules/parking/service.py:136-232 | where no rule raises, or none is malformed, two non-empty schedules with the same rules, inactive ones aside, have the same outcome |
| ParkingDecision.OrderMattersWhenRaising | backend/app/modules/parking/service.py:136-232 | in any schedule, moving a raising rule to the front makes it raise, and moving a malformed one there makes it indeterminate |
| ParkingDecision.OrderMattersIff | backend/app/modules/parking/service.py:136-232 | some reordering of a schedule has another outcome exactly when it holds a raising rule and a malformed one |
| ParkingDecision.OrderShowsIff | backend/app/modules/parking/service.py:205-232 | some reordering has another verdict, the identifier of the deciding rule included, exactly when one has another outcome or, with no raising or malformed rule present, two of the most restrictive active rules differ in identifier |
| ParkingDecision.TemporalDecision | backend/app/modules/parking/service.py:136-150 | an empty schedule has no say, or is indeterminate when the zone requires one |
| ParkingDecision.EvaluateRules | backend/app/modules/parking/service.py:150-232 | the loop over the rules returns a verdict with that meaning; the identifier is that of the first active rule with the strictest effect |
| ParkingDecision.MostRestrictive | backend/app/modules/parking/service.py:205-232 | the first of the active rules with the strictest effect: a ban if there is one, no permit beside a caution |
| ParkingDecision.Evaluate | backend/app/modules/parking/service.py:71-133 | without consent, precision, a recent position and a verified zone the answer is indeterminate; a schedule decides by the effects of its active rules; without one the zone type, a towing hotspot and the score decide |
| Timestamps.TimeRoundTrip | backend/app/modules/ingestion/sql_repository.py:56-59 | a time of day, with any offset, reads back as printed |
| Timestamps.DateRoundTrip | backend/app/modules/ingestion/sql_repository.py:63-63 | a date reads back as printed |
| Timestamps.DateTimeRoundTrip | backend/app/modules/ingestion/sql_repository.py:61-62 | a timestamp, aware or naive, reads back as printed |
| Timestamps.ZuluReadsAsUtc | backend/app/modules/parking/sql_repository.py:20-45 | a timestamp of UTC reads the same with a final Z |
| Timestamps.DateReadsAsMidnight | backend/app/modules/parking/sql_repository.py:20-45 | a date alone reads as its midnight, without an offset |
| Timestamps.PrintDateTimeInjective | backend/app/modules/admin/audit.py:22-32 | different timestamps print differently |
| Timestamps.OrdinalCountsDays | backend/app/modules/parking/service.py:168-180 | instants count days: each next day of the calendar, leap days included, is one more |
| Timestamps.MonthLengths | backend/app/modules/ingestion/sql_repository.py:63-63 | seven months have a thirty-first day, and all but February a thirtieth |
| Timestamps.LeapYearSamples | backend/app/modules/ingestion/sql_repository.py:63-63 | the extra day of February in a leap year, a common year and two centuries |
| Timestamps.FirstDay | backend/app/modules/parking/service.py:168-180 | the count of days starts at one |
| Timestamps.AheadIsEarlier | backend/app/modules/parking/service.py:168-180 | a clock ahead of UTC shows a reading earlier by its offset |
| Timestamps.LaterReadsLater | backend/app/modules/parking/service.py:168-180 | at one offset later readings are later instants, within a day by as much as the clock says |
| Timestamps.ZoneSamples | backend/app/modules/parking/sql_repository.py:20-45 | a final Z is UTC, and a day or more is no offset |
| Timestamps.PrintSample | backend/app/modules/ingestion/sql_repository.py:56-63 | the text of one timestamp with fraction and negative offset |
| RuleStorage.RuleRoundTrip | backend/app/modules/parking/sql_repository.py:20-45 | every rule reads back from its stored form unchanged |
| RuleStorage.ScheduleRoundTrip | backend/app/modules/ingestion/connectors.py:138-183 | a schedule the connector read from a feed reads back from storage rule by rule, so decisions are made on the rules of the feed |
| RuleStorage.StoredFormIsCanonical | backend/app/modules/parking/sql_repository.py:20-45 | what was read once is written and read without further change |
| RuleStorage.EffectNames | backend/app/modules/parking/domain.py:65-68 | the three effect names, and no other text, read as their effects |
| RuleStorage.StoredSample | backend/app/modules/ingestion/sql_repository.py:51-70 | one rule in storage, field by field |
| RuleStorage.ImporterReaderDropsExemptions | backend/app/modules/ingestion/sql_repository.py:29-48 | the unused reader of the importer gives a rule back exactly when it has no exempt windows |
| RuleStorage.ConnectorRulesAreIncompleteOnlyIf | backend/app/modules/ingestion/connectors.py:163-169 | a rule the connector accepts is incomplete for the service in four ways only |
| RuleStorage.AcceptedRuleCanRaise | backend/app/modules/parking/service.py:190-197 | a rule with an aware window start that the connector accepts and that raises while it is valid |
| RuleStorage.AcceptedScheduleDependsOnOrder | backend/app/modules/parking/service.py:150-202 | two rules that the connector accepts and whose order decides between an error and an indeterminate answer |
| Intake.EachRecordOnce | backend/app/modules/ingestion/connectors.py:93-135 | every record is accepted or rejected exactly once, and the accepted ones keep the order of the feed |
| Intake.AcceptedFromTaken | backend/app/modules/ingestion/connectors.py:93-135 | each accepted record is what became of the record at its position |
| Intake.AcceptedIdsAreDistinct | backend/app/modules/ingestion/connectors.py:96-105 | no two accepted records carry the same id |
| Intake.IdIsAcceptedIff | backend/app/modules/ingestion/connectors.py:93-135 | an id is accepted exactly when the first record that claims it can be built |
| FeedConnectors.ParseZones | backend/app/modules/ingestion/connectors.py:72-135 | the connector computes the import that its partition of the features defines, and each refusal has its code |
| FeedConnectors.ReadFeatures | backend/app/modules/ingestion/connectors.py:93-135 | the loop over the features computes that partition, taking the id before the temporal rules are read |
| FeedConnectors.ParseFacilities | backend/app/modules/ingestion/connectors.py:215-270 | the same for encoding, headers and rows of a CSV feed |
| FeedConnectors.ReadRows | backend/app/modules/ingestion/connectors.py:251-270 | the loop over the rows takes the id only once the whole row has been read |
| FeedConnectors.ImportsAreBalanced | backend/app/modules/ingestion/connectors.py:71-270 | in every import of either connector accepted and rejected records sum up to the input and no id is accepted twice |
| FeedConnectors.FacilityIsServedIff | backend/app/modules/ingestion/connectors.py:251-270 | a facility is served under exactly the ids that some readable row carries |
| FeedConnectors.ZoneIsLostIff | backend/app/modules/ingestion/connectors.py:96-134 | a complete zone record leaves no zone under its id exactly when the first record to claim the id has unreadable temporal rules |
| FeedConnectors.BadRulesShadowLaterRecord | backend/app/modules/ingestion/connectors.py:96-134 | a two-record feed in which that happens |
| FeedConnectors.AcceptedFacilitiesAreInBounds | backend/app/modules/ingestion/connectors.py:273-310 | every accepted facility has its score, rates, prices and spaces within bounds and aware, ordered timestamps |
| FeedConnectors.RowIsReadableIff | backend/app/modules/ingestion/connectors.py:251-345 | a row is read exactly when its texts, numbers and times meet the stated bounds |
| FeedConnectors.FacilitiesComeFromRows | backend/app/modules/ingestion/connectors.py:251-310 | every accepted facility says column by column what some row says |
| FeedConnectors.FeatureClaimsIff | backend/app/modules/ingestion/connectors.py:96-118 | a feature claims its id exactly when kind, fields, rings and times are in order, whatever its rules are |
| FeedConnectors.ZonesComeFromFeatures | backend/app/modules/ingestion/connectors.py:96-134 | every accepted zone has fields, rings and rules of some feature |
| Ingestion.MunicipalIngestionRepository.FindBatch | backend/app/modules/ingestion/sql_repository.py:139-146 | finds the batch of the source with the digest, if any |
| Ingestion.MunicipalIngestionRepository.CommitImport | backend/app/modules/ingestion/sql_repository.py:148-244 | adds the batch, its rejections one by one and a row for every accepted record, and nothing else |
| Ingestion.MunicipalIngestionService.ImportPayload | backend/app/modules/ingestion/service.py:87-125 | each refusal has its exact condition and changes nothing; known bytes return a stored batch and change nothing; new ones add one batch with the given identifier and times |
| Ingestion.BatchByDigestMeaning | backend/app/modules/ingestion/sql_repository.py:139-146 | the lookup finds a matching batch if and only if there is one |
| Ingestion.BatchesAreTruthful | backend/app/modules/ingestion/service.py:103-125 | in every run the counts of a batch sum to its input, its rejected count is its rows in quarantine, its status tells the outcomes apart, and no source has two batches with one digest |
| Ingestion.WiredBatchesAreTruthful | backend/app/modules/ingestion/service.py:103-125 | the same without hypotheses on the connectors, for the two that the service is wired with |
| Ingestion.CommitsOncePerDigest | backend/app/modules/ingestion/service.py:97-100 | a source holds a batch of a digest exactly when some event of the run committed one |
| Ingestion.ReplayChangesNothing | backend/app/modules/ingestion/service.py:97-100 | after any further events, importing a payload with the same digest returns the first batch and changes nothing |
| Ingestion.RowIsLastWritten | backend/app/modules/ingestion/sql_repository.py:181-244 | in every run the row of a source and id is the record of the last import that accepted the id; a key nothing wrote keeps its row |
| Ingestion.RowsAreSourced | backend/app/modules/ingestion/sql_repository.py:148-244 | in every run each row was brought by a batch of its own source and carries the trust put in that source |
| Ingestion.WrittenIsAccepted | backend/app/modules/ingestion/sql_repository.py:181-244 | what an import writes under a key is a record with that id that its connector accepted |
| Evidence.SubmissionLeavesNoOrphans | backend/app/modules/community/service.py:59-106 | whatever upload, saving and discarding answer, every stored object is held by a report, or was stored by an upload that reported a failure, or could not be discarded |
| Evidence.DeletionLeavesNoOrphans | backend/app/modules/community/media.py:119-129 | so does deleting a photo, confirmed or not |
| CommunityReporting.CommunityReports.Submit | backend/app/modules/community/service.py:59-106 | uploads first, saves second, discards on failure, with the exact table and store after each failure |
| CommunityReporting.CommunityReports.DeleteReportPhoto | backend/app/modules/community/media.py:119-129 | marks the photo deleted exactly when the store confirmed the deletion |
| CommunityReporting.CommunityReports.Moderate | backend/app/modules/community/service.py:108-120 | a rejection changes the status and then deletes the photo; an approval only changes the status |
| CommunityReporting.CommunityReports.ExpiredMedia | backend/app/modules/community/repositories.py:91-106 | returns an oldest batch of the expired photos, in deadline order |
| CommunityReporting.CommunityReports.PurgeExpired | backend/app/modules/community/media.py:154-170 | scanned is deleted plus failed, exactly the confirmed photos are marked and exactly the released objects are gone |
| CommunityReporting.CommunityReports.DeletePhotos | backend/app/modules/community/media.py:163-170 | the loop goes on after a failure and counts both outcomes |
| EvidencePurge.PurgeProgress | backend/app/modules/community/media.py:154-170 | a purge takes exactly its confirmed deletions, all of them expired, off the backlog and touches no other report or object |
| EvidencePurge.PurgesDrain | backend/app/modules/community/media.py:154-170 | k clean purges with limit L leave max(0, n - kL) expired photos, those with the latest deadlines, and the objects of the others are gone |
| EvidencePurge.FailingHeadBlocksPurges | backend/app/modules/community/repositories.py:91-106 | while the store refuses the L photos due first, no purge with limit L gets past them |
| PurgeBacklog.PhotoIsReachedIff | backend/app/modules/community/media.py:154-170 | with distinct deadlines and a store that answers alike each time, enough purges mark a photo exactly when the store lets it go and fewer refused photos than the limit are due before it |
| PurgeBacklog.PurgesReachRefused | backend/app/modules/community/media.py:154-170 | if fewer photos are refused than the limit, each purge takes at least the difference, until just the refused ones are left |
| PurgeBacklog.MarkedOnlyIf | backend/app/modules/community/repositories.py:91-106 | a purge marks a photo only if the store lets it go and fewer refused photos than the limit are due before it, ties or not |
| PurgeBacklog.BlockedBacklog | backend/app/modules/community/repositories.py:91-106 | a backlog whose first photo keeps a deletable second one waiting |
| EvidencePurge.HeadIsOldestBatch | backend/app/modules/community/repositories.py:91-106 | sorting the expired rows and cutting at the limit gives an oldest batch |
| AccountErasure.EvidenceIsAccountedFor | backend/app/modules/community/service.py:59-106 | in every run of interleaved uploads, saves, discards, deletions, marks and erasures, any of them cut off, every stored object is held by a report with its photo, belongs to a submission that has not finished, was stored by an upload that reported a failure, could not be discarded, was left by a submission that was cut off, or outlived its account |
| AccountErasure.RemovalErasesAllButLate | backend/app/modules/privacy/service.py:106-139 | when an account goes, exactly its reports go, and of its objects that no submission is busy with or gave up on exactly those stay whose row was saved after the photos were listed |
| AccountErasure.LateMeansSavedSince | backend/app/modules/privacy/service.py:109-109 | the late photos of an erasure are exactly those whose row some step has saved for the user since the listing |
| AccountErasure.RemovalLeavesNoEvents | backend/app/modules/observability/analytics.py:63-69 | no analytics event of the user is left unless one was tracked after the analytics forgot the user |
| AccountErasure.TrackedMeansTrackedSince | backend/app/modules/observability/analytics.py:63-69 | an erasure counts its user as tracked again exactly when some step has tracked an event of the user since the analytics forgot the user |
| AccountErasure.EventsLeftWereTrackedSince | backend/app/modules/privacy/service.py:125-138 | in every run, if an event of the user is left when the account goes, one was tracked between the forgetting and the removal |
| AccountErasure.AccountsLeaveOnlyErased | backend/app/modules/privacy/service.py:115-138 | an account disappears only by the last step of an erasure whose deletions were all confirmed |
| AccountErasure.ErasedUsersLeaveNothing | backend/app/modules/privacy/service.py:106-139 | in runs where no row is saved behind a listing, every stored object that no submission is busy with or gave up on belongs to a current user |
| AccountErasure.LatePhotoOutlivesAccount | backend/app/modules/privacy/service.py:106-139 | a run in which a photo uploaded before the listing and saved after it outlives the account: the condition is needed |
| AccountErasure.PublishedKeepsNewest | backend/app/modules/observability/analytics.py:57-61 | the analytics buffer holds the newest events, at most so many |
| AccountErasure.StepKeepsInv | backend/app/modules/privacy/service.py:106-139 | every step keeps each object accounted for, each row owned, and each running erasure covered by its list or by what was saved late |
| AccountErasure.SubmissionIsItsSteps | backend/app/modules/community/service.py:59-106 | upload, save and discard without interruption do what the submission specification says |
| AccountErasure.DeletionIsItsSteps | backend/app/modules/community/media.py:119-129 | deleting a photo and marking it without interruption do what the deletion specification says |
| PrivacyServicing.PrivacyService.DeleteAccount | backend/app/modules/privacy/service.py:86-139 | succeeds exactly when the claim is permitted, every deletion was confirmed and the account exists; any failure leaves account and reports in place |
| PrivacyServicing.PrivacyService.EraseExternalData | backend/app/modules/privacy/service.py:109-134 | photos first, events only once all photos are confirmed gone; every failure leaves the events alone |
| PrivacyServicing.PrivacyService.ActiveMediaKeys | backend/app/modules/privacy/sql_repository.py:303-311 | lists exactly the objects of the reports of the user that still have their photo |
| PrivacyServicing.PrivacyService.DeleteObjects | backend/app/modules/privacy/service.py:115-123 | stops at the first deletion that is not confirmed and leaves all objects after it alone |
| Ranking.ScoreNeedsNoClamp | backend/app/modules/recommendations/service.py:69-93 | for a facility within bounds the weighted sum and the availability are shares already, and the score is between 0 and 100 |
| Ranking.PlainScore | backend/app/modules/recommendations/service.py:46-93 | with everything known and within reference the score is forty points for safety, twenty for distance, fifteen each for price and towing, five each for rating and availability, rounded |
| Ranking.UnknownOrBeyond | backend/app/modules/recommendations/service.py:49-67 | an unknown factor counts half, one beyond its reference nothing |
| Ranking.ScoreIsMonotone | backend/app/modules/recommendations/service.py:46-93 | a candidate that is no worse in safety, distance, known price, towing, rating and availability scores no lower |
| Ranking.AnswerIsTheBest | backend/app/modules/recommendations/service.py:28-43 | the answer and the rest are a reordering of the qualifying candidates; the answer is cut at the limit and goes by score, then distance, then name, and so do answer and rest |
| Ranking.AnswersAreAffordable | backend/app/modules/recommendations/service.py:28-34 | with a price limit every returned facility has a known price within it |
| Ranking.ReturnedUnlessFull | backend/app/modules/recommendations/service.py:28-43 | a candidate within the price limit is returned unless the answer is full |
| Ranking.AllAreRankedWithoutLimit | backend/app/modules/recommendations/service.py:28-43 | without a price limit as many candidates are returned as there are, up to the limit |
| Ranking.TextLeqMeaning | backend/app/modules/recommendations/service.py:35-42 | names go by their first difference, and a name comes before its continuations |
| Ranking.BetterCandidateIsReturned | backend/app/modules/recommendations/service.py:28-43 | a qualifying candidate that dominates a returned one and differs from it in score or rounded distance is returned too |
| Ranking.PrecedesIsTotalPreorder | backend/app/modules/recommendations/service.py:35-42 | the sort key is a total preorder |
| Ranking.RoundIsNearest | backend/app/modules/recommendations/service.py:91-92 | rounding is to the nearest integer with ties to even |
| Sorting.SortOrders | backend/app/modules/recommendations/service.py:35-42 | sorting leaves no element before one that precedes it |
| Sorting.SortKeepsElements | backend/app/modules/recommendations/service.py:35-42 | sorting is a permutation |
| Sorting.SortIsStable | backend/app/modules/recommendations/service.py:35-42 | elements that tie keep their order |

## Left out

- HTTP routes, request schemas, middleware, the S3, SMTP, push and store gateway clients, the user interfaces and migrations: wiring over libraries.
- Password hashing, signing of tokens, the hash function, HMAC and UUID generation: parameters, with freshness or collision hypotheses where a result needs them. `TokenRotation` lets in only tokens the server signed.
- Whether an error raised to the web framework rolls back what a repository call did: each repository call is taken as committed, except in `AuditTrail`, where commit and rollback are steps. There a transaction commits only between appends.
- Cancellation of a Kotlin refresh, and any claim that a logout is final: a refresh that finishes after it may sign back in. Kotlin and Swift share one machine; exceptions other than storage failures exist only in Kotlin.
- `MobileSession.Controller` runs without interruption; interleavings are the business of `SessionController`.
- The two limiters answer serial logins per key in the spacing results: check and record are separate critical sections, so overlapping logins may record more failures.
- The timezone database is a function from zone name and instant to local weekday, date and time; a zone name it cannot even look up raises.
- `Timestamps` parses the extended ISO 8601 forms that the printer produces and a final `Z`, not every form the runtime library accepts.
- JSON objects with missing or mistyped fields: a stored rule has all its fields, and a feature with a mistyped field is `Unreadable`. Cells of a CSV row arrive trimmed and converted or marked as not convertible. Not-a-number coordinates and the hash of a rejected record are not modelled.
- The primary keys of imported rows, which are derived from source and external id, and the geometry conversion.
- `AccountErasure.Config`: rows other than users, reports and analytics events that the database removes with an account, such as sessions and consents.
- Appeals, reputations, the duplicate check and the checks on the description and on the type, size and checksum of a photo; access grants for photos: single-branch facts that change no evidence.
- `CommunityReporting` and `PrivacyServicing` run their methods one at a time; how their steps interleave is the business of `AccountErasure`, where a purge is any run of deletions and marks. Purge results in `PurgeBacklog` take the answers of the store to one key to be the same each time.
- Verification of store receipts and the consistency checks on a verified purchase before it is delivered.
- The explanatory texts of a recommendation, and the distance query that yields its candidates and cuts them off at the nearest few before prices are considered.
- Floating-point rounding: scores, coordinates and limiter times are reals.
- Order of listed sessions and batches, which only affects display.
- Two imports of one payload at a time: in `Ingestion` imports run one after the other, so no two of them look up a digest before either commits.
