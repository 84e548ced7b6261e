# x424 protocol model

x424 lets a protected resource answer "a unique human is required", lets a verifier check a
provider's proof of that, and lets the client retry with the signed result. This project models
the parts of the repository whose correctness spans many steps, and proves what they promise.

- **Brokered handoff** (`HandoffRecords`, `Broker`, `BrokerSafety`, `BrokerTheorems`,
  `BrokerProgress`). Every
  start, poll and cancel is cut at each `await`; any number of them interleave under one
  non-decreasing clock, replies may be lost, records may reach the end of their time to live. The
  provider adapter may answer anything at any time.
- **Its stores** (`HandoffStores`, `HandoffDocuments`, `RedisHandoffs`, `RedisDeployment`,
  `StoreSteps`). The in-memory and PostgreSQL stores as classes, the Redis store as its two scripts
  over text keys with a time to live. Every run of the broker over Redis is a run of the broker.
- **Single use** (`SingleUse`, `MemoryStores`, `NonceRuns`, `RedisResults`, `Policy`, `Evaluation`,
  `Verifier`, `Issuance`, `RequestDigests`, `RequestShape`, `ProtectedResource`, `ResourceTheorems`,
  `ResourceProgress`). One nonce gives at most one call of
  the provider adapter, that at most one result, and that at most one accepted operation.
- **All of it together** (`SystemRun`). The three machines run side by side and meet where tokens
  pass from one to the next.
- **Codecs and framing** (`CanonicalJson`, `CanonicalJsonLaws`, `CanonicalJsonText`,
  `CanonicalJsonShape`, `CanonicalBytes`, `KeyOrder`, `Decimal`, `JsonObjects`, `Base64Url`,
  `Base64Digits`, `Transport`, `Framing`, `AgentSignature`, `AgentVerification`).
- **Rates and paths** (`RateLimits`, `RateAnswers`, `PathGrants`, `PathText`).

A machine is a total function `Apply`: an event that is not enabled changes nothing. `Run` folds
it over a list of events, and a theorem about all lists of events is a theorem about all
interleavings. A process that dies is an operation that takes no further step.

Safety is stated over runs. What each operation answers and stores is stated beside it, from every
world that some run reaches, on record fields, numbers and characters (`BrokerProgress`, `Issuance`,
`Evaluation`, `ResourceProgress`, `RateAnswers`, `NonceRuns`, and the modules of texts).

What is assumed: encryption is a pair of inverse functions; a token that a resource sees was
signed by the verifier, and signing tells results apart; random identifiers (handoff, dependency
and result IDs) are not drawn twice, except where a theorem says otherwise; hashes are arbitrary
functions, and a theorem that needs more either names it (`Sha256Like`) or offers the collision as
its other outcome.

## Findings

- A gate that forgets is only as good as its clock. `acceptHumanProof` takes the time once, when
  the request begins (`src/middleware/resource.ts:410`), and passes it to the replay or acceptance
  store later. A request that stalls until its token has expired still presents the earlier time,
  and a Redis key that has expired no longer blocks it, so the token passes a second time. This
  happens exactly when the later gate is reached at or after the token's expiry
  (`SecondReadPassesExactlyLate`, `OtherKeyPassesExactlyLate`, `LateGateAcceptsTwice`). Over
  PostgreSQL, which keeps its rows, it never happens (`PermanentStoreAcceptsOnce`).
- A poll whose claim was taken back answers "failed" although the store may hold a completion
  (`FailedViewIsNotStable`); the answer is the store's exactly when its last write was accepted
  (`FailedViewHoldsExactlyWhenAccepted`). `completed`, and a cancel that answered true, are final.
- `update` never looks at the current status. An accepted update leaves the index exact if and only
  if it starts from an unfinished record, or finishes a finished one that no other handoff has
  followed (`UpdateKeepsIndexExactly`); otherwise a finished record revives unindexed
  (`UpdateIgnoresStatus`) or another handoff loses its index entry (`UpdateDropsAnother`). The
  service is safe because every write it has in flight starts from an unfinished record
  (`WritesInFlight`).
- The byte decoder drops a leading byte order mark (`src/encoding.ts:74`), and only the decoded
  text is compared with the canonical one. So every requirement that fits has a second accepted
  header, the same bytes after EF BB BF (`MarkedHeaderAccepted`), and no third
  (`AcceptedHeaderIsCanonical`, `HeadersDetermine`).
- A method that requires the empty assurance label yields results that are never satisfied, and so
  does a verifier whose result lifetime is not positive (`IssuedExactly`, `EmptyLabelExample`,
  `UselessLifetime`). The wire schema refuses an empty label (`src/schemas.ts:36`), so only a caller
  of the library that passes a requirement directly meets the first.
- A member named `__proto__` does not survive canonicalization: `{"a":1}` and
  `{"a":1,"__proto__":{}}` have one text and one digest without any collision
  (`ProtoMemberUnseen`). A body is kept whole exactly when no object in it has such a member
  (`WholeExactly`), and then its digest determines it whole (`WholeBodiesAgree`).
- A cancel that lands while a poll waits for its provider wins: the poll answers failed although the
  provider's proof has been verified and its token issued, and the nonce is spent
  (`CancelBeatsCompletion`, `NonceBeforeProvider`). A completion whose store reply is lost ends the
  same way, beside a stored completion (`LostReplyKeepsCompletion`).
- The Redis limiter allows at most `2 * maxRequests - 1` requests in any window, one less than
  twice its maximum (`FixedWindowHolds`). Windows of two milliseconds or more reach that bound for
  every maximum (`FixedWindowIsTight`); a window of one millisecond allows no more than the maximum
  (`OneMillisecondWindow`).
- The signature base lowercases the method, where section 2.2.1 of RFC 9421 keeps its case; so two
  requests share a base when their methods differ only in case, and only then
  (`MethodCaseIsLost`).
- The signer escapes quotes and backslashes in key IDs and nonces, but the parser does not undo it;
  they come back unchanged exactly when they hold neither (`SignedParametersRecovered`).

## Model

| member | source | states |
|---|---|---|
| BrokerTheorems.HistoryIsAChain | src/handoff.ts:223-269 | In every run, a record's versions are 1, 2, 3, ... with all identity, expiry and session fields fixed; completed and failed follow only polling, by the poll that claimed; expired only after the expiry; nothing follows a terminal version. |
| BrokerTheorems.LeasesAreShort | src/handoff.ts:446-457 | Every claim in every history has a lease that ends by the handoff's expiry and within 30 seconds. |
| BrokerTheorems.ClaimsExclude | src/handoff.ts:424-460 | Of two polls past a claim of one handoff, the earlier claim was given up before the later one was made: by another operation after its lease had run out, or by its own holder, which then lost the store's reply. |
| BrokerTheorems.OneHolderCanWrite | src/handoff.ts:251-264 | Of all polls past a claim of one handoff, the version check lets at most one write. |
| BrokerTheorems.NoReplyLost | src/handoff.ts:466-516 | The second case of ClaimsExclude needs a lost store reply: a run without one severs no operation. |
| BrokerTheorems.VersionFixesTheRecord | src/handoff.ts:255-263 | For every write in flight, the version-and-token compare succeeds exactly when the whole live record equals the one read. |
| BrokerTheorems.OneActiveHandoff | src/handoff.ts:209-221 | At most one non-terminal record per dependency, and the index names it. |
| BrokerTheorems.AnswersAgree | src/handoff.ts:548-586 | All polls of a handoff that complete answer with one token, and then no cancel of it answers true. |
| BrokerTheorems.CompletedIsFinal | src/handoff.ts:496-546 | After a poll answered with a token, every poll begun later answers with it or finds no record, and every cancel begun later answers false. |
| BrokerTheorems.CancelledIsFinal | src/handoff.ts:518-546 | After a cancel answered true, no poll of that handoff ever answers with a token. |
| BrokerTheorems.FailedViewIsNotStable | src/handoff.ts:504-515 | A run in which one poll answers failed and another completes the same handoff. |
| BrokerTheorems.FailedViewHoldsExactlyWhenAccepted | src/handoff.ts:597-613 | A failing poll answers with its code always, and the newest version agrees if and only if its compare-and-swap is accepted, lost replies or not. |
| BrokerProgress.PendingPoll | src/handoff.ts:466-477 | From every reachable state, an undisturbed poll whose provider is still pending answers pending, and leaves the record pending, without a claim, two versions on and indexed. |
| BrokerProgress.FailedPoll | src/handoff.ts:477-514 | One whose provider fails answers failed with the provider's code, of which capitals, digits and underscores and at most 100 characters are kept; the code is stored and the dependency freed. A missing adapter, a missing requirement and an exception are such codes. |
| BrokerProgress.CompletedPoll | src/handoff.ts:446-516 | One with a verified proof claims until min(expiry, now + max(10 s, three poll intervals)), answers with the token, stores it sealed and frees the dependency. |
| BrokerProgress.LaterPollCompletes | src/handoff.ts:466-516 | After a poll that answered pending, a poll at any later time before the expiry can still complete the handoff. |
| BrokerProgress.LiveLeaseIsRespected | src/handoff.ts:424-431 | While a lease lives, another poll answers pending and writes nothing. |
| BrokerProgress.LapsedLeaseIsReclaimed | src/handoff.ts:432-445 | Once it has lapsed, the next poll takes the claim back, one version on, and goes on to claim. |
| BrokerProgress.DeadPollIsReplaced | src/handoff.ts:424-516 | So a handoff whose poll died is completed by the next poll after the lease. |
| BrokerProgress.FinishedIsAnswered | src/handoff.ts:548-586 | A finished record is answered as it stands, and nothing is written: its token, its code, expired or cancelled. |
| BrokerProgress.CancelCancels | src/handoff.ts:518-546 | From every reachable state, an undisturbed cancel of an unfinished handoff answers true, stores it and frees the dependency. |
| BrokerProgress.CancelTwice | src/handoff.ts:524-532 | Repeated, it answers true and writes nothing. |
| BrokerProgress.CancelOfFinished | src/handoff.ts:524-532 | A cancel of a finished record answers true exactly when it was cancelled. |
| BrokerProgress.OverdueExpires | src/handoff.ts:231-247 | An unfinished record at or past its expiry is expired by the next call that reads it: a poll answers expired, a cancel false. |
| BrokerProgress.WrongTokenSeesNothing | src/handoff.ts:411-421 | Without the record's token a poll is refused and a cancel answers false; nothing is read or written. |
| BrokerProgress.StartAccepts | src/handoff.ts:396-398 | A start with a new ID is accepted exactly when its dependency has no handoff in progress. |
| BrokerProgress.SecondClaimLoses | src/handoff.ts:455-457 | Of two polls that read one pending record, the second to write answers pending and writes nothing. |
| BrokerProgress.SupersededPollFails | src/handoff.ts:504-515 | A poll whose claim has been superseded answers failed, even with a proof in hand, and writes nothing. |
| BrokerProgress.SupersededPollWaits | src/handoff.ts:438-476 | One that only wanted to take back, claim or release answers pending. |
| BrokerProgress.CancelBeatsCompletion | src/handoff.ts:504-546 | A cancel that lands while a poll waits for its provider wins. |
| BrokerProgress.CompletionBeatsCancel | src/handoff.ts:504-546 | A cancel that lands after the completion answers false and changes nothing. |
| BrokerProgress.LostReplyKeepsCompletion | src/handoff.ts:504-515 | A completion whose reply is lost stays stored, and its poll answers failed. |
| BrokerProgress.LostReplyKeepsRelease | src/handoff.ts:474-514 | A release whose reply is lost leaves the record pending, and its poll answers failed. |
| BrokerProgress.LostReplyThrows | src/handoff.ts:438-546 | Any other write whose reply is lost rejects its call, whether or not it landed. |
| BrokerSafety.WritesInFlight | src/handoff.ts:411-546 | Every write the service ever has in flight starts from the unfinished record it read, which version and token single out, keeps its identity and raises the version by one. |
| BrokerSafety.RunKeepsInv | src/handoff.ts:346-546 | Every step of every interleaving keeps the broker's invariant: chained histories, live records newest, exact index, and what each operation in flight may rely on. |
| HandoffRecords.UnprotectProtect | src/handoff.ts:74-77 | Opening a sealed token gives the token back, as the protector interface promises. |
| HandoffRecords.ComparesAgree | src/redis.ts:619-638 | The version-and-token compare and the whole-record compare accept alike exactly when version and token single out the live record. |
| HandoffRecords.UpdateKeepsIndexExactly | src/handoff.ts:251-269 | Over every store with an exact index, an accepted update leaves it exact if and only if it starts from an unfinished record, or finishes a finished one that no other handoff has followed. |
| HandoffStores.InMemoryHandoffStore.Create | src/handoff.ts:211-221 | Accepts and stores exactly as the store contract says, indexing the dependency. |
| HandoffStores.InMemoryHandoffStore.GetAuthorized | src/handoff.ts:223-249 | Answers the record to its token only, and expires an overdue one in the same step. |
| HandoffStores.InMemoryHandoffStore.Update | src/handoff.ts:251-269 | Compare-and-swap on version and token digest; a terminal version leaves the index. |
| HandoffStores.PostgresHandoffStore.Create | src/postgres/store.ts:467-486 | For every record and every store that the rows stand for, the insert and the partial unique index refuse exactly what the contract refuses. |
| HandoffStores.PostgresHandoffStore.Select | src/postgres/store.ts:488-514 | Reads a row as the contract's read, before the expiry compare-and-swap, for every store that the rows stand for. |
| HandoffStores.PostgresHandoffStore.Update | src/postgres/store.ts:516-539 | For every pair of records, the row update matches as the contract's compare does, and it succeeds and stands for the contract's update if and only if the write fits: same columns, and the row's active mark moves as the index does. |
| HandoffStores.RowsConflict | src/postgres/store.ts:467-486 | A row conflict, by primary key or by active dependency, is exactly a refusal by the contract. |
| HandoffStores.RowsUpdated | src/postgres/store.ts:516-539 | The row update stands for the contract's update if and only if it fits. |
| HandoffStores.UpdateIgnoresStatus | src/handoff.ts:251-269 | An instance: a finished record made pending again is indexed nowhere. |
| HandoffStores.UpdateDropsAnother | src/handoff.ts:265-267 | An instance: a second finish of an old handoff deletes the index entry of the one that follows it. |
| StoreSteps.PostgresTakesEveryWrite | src/postgres/store.ts:516-539 | Every write the service ever has in flight fits the rows. |
| StoreSteps.InMemoryReadIsTwoSteps | src/handoff.ts:223-249 | The in-memory read is the broker's read followed at once by an expiring write that succeeds. |
| HandoffDocuments.DocumentRoundTrip | src/handoff.ts:164-205 | A stored record reads back from its canonical text as itself, its version up to the largest safe integer. |
| HandoffDocuments.DocumentInjective | src/redis.ts:619-638 | Comparing stored texts is comparing records. |
| RedisHandoffs.KeysApart | src/redis.ts:641-647 | Record keys and dependency keys determine their IDs and never meet. |
| RedisHandoffs.CreateFollows | src/redis.ts:123-129 | The create script accepts exactly as the contract and leaves keys that stand for the created store. |
| RedisHandoffs.UpdateFollows | src/redis.ts:131-141 | The whole-text compare accepts exactly when the live record is the one read, and the keys then stand for the updated store whenever that store has an exact index. |
| RedisHandoffs.TimePasses | src/redis.ts:575-590 | When time passes, a record and its dependency key vanish at the same instant and never before the record's expiry. |
| RedisHandoffs.RedisHandoffStore.Create | src/redis.ts:575-590 | The contract's create, refused once the expiry has passed on the caller's clock. |
| RedisHandoffs.RedisHandoffStore.Update | src/redis.ts:619-639 | The contract's update under the whole-record compare; the key lives until the expiry or one second from now, whichever is later. |
| RedisDeployment.Simulate | src/redis.ts:566-648 | One step of the broker over Redis is some steps of the broker. The caller's clock is free where it decides whether a create is refused and how long an updated key lives; reads, lease checks and lease ends use the server's. |
| RedisDeployment.RedisIsABroker | src/redis.ts:566-648 | Every run over Redis, of up to 2^53 - 1 steps, is a run of the broker with the same clock, operations and answers. |
| RedisDeployment.UpdatedKeyLives | src/redis.ts:619-638 | After an accepted update the key holds the new text until the record's expiry, and at least for a second from the caller's time. |
| RedisDeployment.RedisCompletedIsFinal | src/redis.ts:592-617 | Over Redis, a token once answered is the answer of every later poll that finds the record, and every later cancel answers false. |
| RedisDeployment.RedisCancelledIsFinal | src/redis.ts:592-617 | Over Redis, after a cancel answered true no poll of that handoff answers with a token. |
| RedisDeployment.RedisDependencyKey | src/redis.ts:575-590 | Over Redis, the dependency key of a live unfinished record names it and expires at the same instant. |
| RedisDeployment.RedisNeverOverwrites | src/redis.ts:131-141 | Over Redis, whenever the update script is accepted, the dependency key it sets or deletes names the same handoff. |
| SingleUse.AgreeExactly | src/nonce-store.ts:65-109 | Under a clock that does not go back and one expiry per result, a store that forgets answers a run as one that never forgets if and only if no call is stale. |
| SingleUse.OwnClockIsNeverStale | src/nonce-store.ts:125-157 | A store whose clock is the caller's time never meets a stale call. |
| SingleUse.AtMostOneFresh | src/nonce-store.ts:145-156 | An ID that was new once is never new again under its scoped or its legacy name. |
| SingleUse.FreshExactly | src/nonce-store.ts:125-157 | A call is answered new exactly when its arguments pass, the store starts without its names, and no earlier call was new under one of them. |
| SingleUse.SameOperationRepeats | src/nonce-store.ts:145-156 | Every answer same_operation repeats the operation and digest of an earlier new one. |
| SingleUse.PruningIsSafe | src/nonce-store.ts:142-195 | The pruning stores keep both guarantees. |
| SingleUse.TimeGoingBackAcceptsTwice | src/nonce-store.ts:142-144 | With times that go back, a pruning store accepts one result as new twice. |
| SingleUse.TableIsStricter | src/postgres/store.ts:316-399 | Without legacy IDs, a table that keeps expired rows answers new exactly where the reference does and repeats no other operation. |
| SingleUse.TableWithLegacy | src/postgres/store.ts:332-456 | With them, under one expiry per result, the legacy-aware SQL answers new exactly where the reference does, and every operation it repeats was accepted as new before. |
| MemoryStores.NonceOnce | src/nonce-store.ts:24-55 | Of all consumptions of one dependency ID in any run, and even over repeated registration, at most one succeeds. |
| MemoryStores.DurableNonceOnce | src/redis.ts:79-86 | Where consuming deletes, two successes have a new registration of that ID between them. |
| NonceRuns.ConsumedExactly | src/nonce-store.ts:39-55 | Over any run, in memory and durable, a consumption succeeds exactly when this very nonce was registered under the ID, nothing has consumed it since (nor, where keys lapse, has it lapsed), and its expiry is ahead. |
| NonceRuns.RegisteredExactly | src/nonce-store.ts:24-37 | A registration succeeds exactly when it is complete and the ID was never registered, or, in a durable store, is no longer. |
| MemoryStores.AcceptTakes | src/nonce-store.ts:129-141 | The acceptance stores take result and legacy IDs of 1 to 200 characters, operation IDs of 1 to 512, sha256: digests of 43 base64url characters and an expiry ahead, and nothing else. |
| MemoryStores.InMemoryNonceStore.Put | src/nonce-store.ts:24-37 | The nonce store's put, with the cases in which it throws. |
| MemoryStores.InMemoryNonceStore.Consume | src/nonce-store.ts:39-55 | Its consume: known, unused, same nonce, not expired; then marked used. |
| MemoryStores.InMemoryResultAcceptanceStore.Prune | src/nonce-store.ts:142-144 | The loop removes exactly the entries that have expired. |
| MemoryStores.InMemoryResultAcceptanceStore.Accept | src/nonce-store.ts:125-157 | Answers and new entries are those of the forgetting reference. |
| MemoryStores.InMemoryResultAcceptanceStore.AcceptWithLegacy | src/nonce-store.ts:159-195 | The same, with the legacy ID looked up first. |
| MemoryStores.InMemoryResultReplayStore.Consume | src/nonce-store.ts:65-84 | True exactly where the forgetting reference answers new. |
| MemoryStores.InMemoryResultReplayStore.ConsumeWithLegacy | src/nonce-store.ts:86-109 | The same, with the legacy ID blocking too. |
| MemoryStores.InMemoryProviderReplayStore.Consume | src/nonce-store.ts:202-221 | True exactly for a complete entry whose joined key was not used before. |
| MemoryStores.SubjectOnce | src/redis.ts:302-327 | Of the entries that satisfy presents, exactly the first of each provider, method, scope and subject digest is accepted, in memory and in Redis. |
| RedisResults.OperationTextInjective | src/redis.ts:477-480 | The stored text of an acceptance determines operation and digest. |
| RedisResults.RedisResultStore.AcceptResult | src/redis.ts:462-528 | The accept scripts, with and without a legacy key, answer as the forgetting reference on the server's clock. |
| RedisResults.RedisResultStore.ConsumeResult | src/redis.ts:418-460 | So do the consume commands. |
| Policy.IssuedExactly | src/service.ts:257-301 | A result that satisfy issued is judged satisfied at a time if and only if that is not before its issue, and before the requirement's expiry, the verifier's lifetime after issue and the provider's expiry where there is one, and the method's age limit holds, and the required label is not empty. |
| Policy.ResultEnds | src/service.ts:257-264 | The result's expiry is at most each of those three ends and equal to one of them. |
| Policy.UsefulLifetime | src/service.ts:257-264 | With a positive lifetime and no empty label, every result is satisfied at its issue. |
| Policy.UselessLifetime | src/service.ts:257-264 | With a lifetime that is not positive, no result ever is. |
| Policy.EmptyLabelExample | src/service.ts:287-291 | A concrete issued result that is satisfied at no time. |
| Policy.EvaluateHumanResult | src/policy.ts:37-188 | The failures reported are exactly those due, in order; satisfied means that none is due. |
| Evaluation.SatisfiedExactly | src/policy.ts:37-188 | A result is satisfied exactly when it repeats the requirement's dependency, purpose, audience, digest and binding, meets the first accepted entry for its method and the enabled descriptor in version, scope, mode, label, claim and non-claims, and its times are in order. |
| Evaluation.RequestFailures | src/policy.ts:47-82 | Whatever else is broken, each fact about the request and the method's name is reported exactly when it is broken. |
| Evaluation.MethodFailures | src/policy.ts:83-146 | So is each fact compared with the accepted entry or the descriptor. |
| Evaluation.UnknownMethodFailures | src/policy.ts:70-146 | A method neither accepted nor known is compared with nothing of either. |
| Evaluation.TimeFailures | src/policy.ts:148-179 | So is each of the three time checks. |
| Evaluation.OtherDependency | src/policy.ts:47-51 | From a satisfied result, another dependency is reported as itself and nothing else. |
| Evaluation.OtherUse | src/policy.ts:52-57 | So are another purpose and another audience. |
| Evaluation.OtherRequest | src/policy.ts:58-68 | So are another request digest and another binding. |
| Evaluation.NoLongerAccepted | src/policy.ts:70-78 | So is a requirement that no longer lists the method. |
| Evaluation.CatalogMovedOn | src/policy.ts:80-97 | So are a method gone from the catalog, one disabled there, and one of another version. |
| Evaluation.OtherClaims | src/policy.ts:135-143 | So are another descriptor version and another claim or list of non-claims. |
| Evaluation.OtherScope | src/policy.ts:98-107 | So is a scope not allowed by the requirement or by the catalog. |
| Evaluation.OtherMode | src/policy.ts:108-120 | So is a verification mode not allowed by either. |
| Evaluation.OtherLabel | src/policy.ts:121-133 | So is an assurance label not allowed by either. |
| Evaluation.OtherMoment | src/policy.ts:150-186 | Before its issue the result is from the future, from its expiry on expired, past its age limit stale, and expired and stale when both. |
| Evaluation.OtherWindow | src/policy.ts:161-179 | A requirement whose window does not enclose the result's has an invalid time window, and nothing else. |
| Policy.NothingDue | src/policy.ts:187-188 | No failure is reported exactly when no failure condition holds. |
| Verifier.OneAttemptPerDependency | src/service.ts:210-228 | Over all interleavings of register, direct verification and handoff completion, at most one verification of a dependency reaches the provider adapter. |
| Verifier.OneResult | src/service.ts:232-254 | At most one result per dependency, per result ID and, under verifier replay, per provider subject. |
| Verifier.EveryResultIsGood | src/service.ts:257-301 | Every result ever issued binds its requirement's dependency, digest and binding, ends with the first of the requirement, the verifier's lifetime and the provider's proof, and is satisfied until then. |
| Issuance.RefusedBeforeTheNonce | src/service.ts:190-216 | A proof goes on to the nonce store exactly when the challenge is complete and open and the proof answers it by an accepted, enabled method of the same version that has an adapter; otherwise it is refused and the nonce untouched. |
| Issuance.NonceBeforeProvider | src/service.ts:214-229 | The provider is called exactly when the nonce is unspent, and it is spent from then on. |
| Issuance.ThrowingSpendsTheNonce | src/service.ts:214-229 | After a provider that throws, no later verification of the dependency reaches the provider, in any run. |
| Issuance.IssuesExactly | src/service.ts:44-96 | Of an admitted proof, an adapter output becomes a result exactly when it is about that proof, within what descriptor and requirement allow, complete, verified by now, not ended and not too old, and the challenge is still open. |
| Issuance.OutputIsJudged | src/service.ts:225-254 | Any other output ends the verification; under verifier replay a good one goes through the replay store first. |
| Issuance.SubjectIsRecorded | src/service.ts:232-254 | There it goes on exactly when the digest and the scope are well formed and the subject is new. |
| Issuance.EveryResultSaysWhatWasVerified | src/service.ts:265-301 | Every result ever issued says, field by field, what its requirement fixes and what the adapter returned for an admitted proof, under a pairwise ID of the fixed shape. |
| Verifier.UndisturbedSatisfyIssues | src/service.ts:189-312 | From every reachable state, an admitted proof for an unspent nonce, with an adapter output that stands the checks and a fresh provider subject, is issued a result. |
| Verifier.RunKeepsInv | src/service.ts:145-312 | Every step of every interleaving keeps nonces spent, subjects recorded and operations apart. |
| RequestDigests.DigestDetermines | src/canonical.ts:59-77 | Request digests are equal exactly when uppercased method, URI and body digest are, or the hash collides. |
| RequestDigests.BodyDigestExactly | src/canonical.ts:24-57 | Absent, empty and zero-byte bodies have no digest; streams, JSON other than plain objects and arrays, and ill-formed precomputed digests are refused; nothing else. |
| RequestShape.UpperText | src/canonical.ts:72 | Uppercasing takes each small letter to its capital and leaves every other character. |
| RequestShape.RequestText | src/canonical.ts:70-77 | The hashed text is the object of body digest or null, uppercased method and URI, in this order. |
| RequestDigests.JsonBodiesAgree | src/canonical.ts:24-57 | Digests of JSON bodies are equal exactly when the bodies are, up to member order and members named __proto__, or the hash collides. |
| RequestDigests.WholeBodiesAgree | src/canonical.ts:24-57 | For bodies without such members, equal digests mean equal bodies up to member order, or a collision. |
| RequestDigests.WholeExactly | src/canonical-json.ts:7-35 | Canonicalization keeps a body whole exactly when no object in it, at any depth, has such a member. |
| RequestDigests.ProtoMemberUnseen | src/canonical-json.ts:30 | Two bodies that differ by one such member share text and digest. |
| ProtectedResource.RunKeepsInv | src/middleware/resource.ts:399-484 | Every interleaving of requests keeps what the gates remember of the requests that passed. |
| ProtectedResource.GateKeeps | src/redis.ts:95-110 | A gate forgets nothing unexpired, records what it lets through, and never calls a remembered result new. |
| ResourceTheorems.PassedWasSatisfied | src/middleware/resource.ts:427-464 | A request that passed presented an issued result, satisfied for its stored requirement when it began. |
| ResourceTheorems.PassedShareTheRequest | src/middleware/resource.ts:361-397 | All requests ever accepted for a dependency share token, method, URI and binding with the stored requirement, and the body digest up to a collision. |
| ResourceTheorems.PassedOnce | src/middleware/resource.ts:446-476 | Two accepted requests of a dependency are one mutation under one idempotency key, or, over a store that forgets, one passed its gate after the token expired. |
| ResourceTheorems.PermanentStoreAcceptsOnce | src/postgres/store.ts:316-399 | Over a store that keeps its rows: a read at most once, a mutation under one key, in every run. |
| ResourceTheorems.TimelyGatesAcceptOnce | src/redis.ts:418-492 | Over a store that forgets, the same for every run whose gates land before the token expires. |
| ResourceTheorems.SecondReadPassesExactlyLate | src/redis.ts:418-434 | There a second read passes if and only if the store's clock has reached the token's expiry. |
| ResourceTheorems.OtherKeyPassesExactlyLate | src/redis.ts:462-492 | There a mutation under another key passes if and only if the store's clock has reached the expiry. |
| ResourceTheorems.SameKeyRetryPasses | src/middleware/resource.ts:462-480 | A retry of an accepted mutation under its own key passes at any time before the token expires. |
| ResourceProgress.TakenUpExactly | src/middleware/resource.ts:410-426 | A request is taken up exactly when its token was issued and, unless it is a read, it carries a key. |
| ResourceProgress.FetchedExactly | src/middleware/resource.ts:427-464 | It gets to the gate exactly when its requirement is stored, unexpired, for this request in every field, and satisfied; otherwise it is rejected. |
| ResourceProgress.UndisturbedReadPasses | src/middleware/resource.ts:399-484 | From every state, a matching, satisfied and unconsumed read passes and is consumed. |
| ResourceProgress.UndisturbedMutationPasses | src/middleware/resource.ts:462-484 | So does a first mutation; its key is recorded with its digest, and its requirement stays stored. |
| ResourceProgress.MutationRetryPasses | src/middleware/resource.ts:477-482 | After a mutation passed, a matching request under its key that begins at any later time passes too, whatever happened in between, as long as the requirement was neither withdrawn nor expired and the token has not expired. |
| ResourceProgress.ReadEndsItsDependency | src/middleware/resource.ts:480-482 | Once the delete after an accepted read has landed, the requirement is gone for good, and no request of that dependency not fetched by then ever passes, over either kind of store. |
| ResourceTheorems.LateGateAcceptsTwice | src/middleware/resource.ts:410 | There every acceptable read, at whatever time it becomes acceptable, has a run in which it passes twice. |
| SystemRun.OneTokenPerDependency | src/handoff.ts:495-516 | Over all handoffs, polls and protected requests of the whole system, a dependency yields one token: every completed poll answers it and every accepted request presented it. |
| SystemRun.PassedGoesBackToOneAttempt | src/service.ts:210-228 | Every accepted request goes back to one call of the provider adapter, the only one ever made for its dependency, and made for that request's digest, binding, purpose and audience. |
| SystemRun.EveryIssuedResultIsGrantable | src/middleware/resource.ts:427-434 | What the resource assumes of the verifier holds of it in every run. |
| SystemRun.SameTokenSameDependency | src/handoff.ts:486-503 | Handoffs that complete with one token belong to one dependency. |
| SystemRun.RunKeepsInv | src/handoff.ts:486-503 | Every stored completion seals a token issued for its dependency. |
| CanonicalJson.Normalize | src/canonical-json.ts:7-35 | The key loop builds the sorted normal form, or fails where the source throws. |
| CanonicalJsonLaws.NormalFormMeans | src/canonical-json.ts:7-35 | normalize succeeds exactly on plain values, gives a normal form and keeps the meaning. |
| CanonicalJsonText.ParseCanonicalText | src/canonical-json.ts:59-83 | Parsing a canonical text gives back the value's meaning and, printed again, the same text. |
| CanonicalJsonText.CanonicalTextIsMeaning | src/canonical-json.ts:59-61 | Two values have one canonical text exactly when they are equal up to member order, undefined members and members named __proto__. |
| CanonicalJsonText.AcceptsExactlyCanonical | src/canonical-json.ts:74-83 | Once decoded, exactly the canonical texts are accepted. |
| CanonicalBytes.DecodesExactly | src/encoding.ts:72-78 | A text is decoded from its own encoding, bare or after one byte order mark, and from nothing else. |
| CanonicalBytes.AcceptsExactlyCanonicalBytes | src/canonical-json.ts:68-83 | The byte parser accepts exactly the encodings of canonical texts, bare or after one byte order mark. |
| CanonicalJsonShape.EscapedText | src/canonical-json.ts:59-61 | How each character is written in a string: after a backslash, by a letter, as \u00 and two lowercase digits, or as itself. |
| CanonicalJsonShape.StringText | src/canonical-json.ts:59-61 | A string is its characters so written, between quotes. |
| CanonicalJsonShape.ValueText | src/canonical-json.ts:59-61 | Literals, numbers, and arrays and objects with single commas between brackets or braces and no spaces. |
| CanonicalJsonShape.KeysInOrder | src/canonical-json.ts:24-33 | Array indices come first, by value; the other keys by UTF-16 code unit. |
| KeyOrder.KeyLessIsStrictTotal | src/canonical-json.ts:59-61 | The order in which printed keys appear, array indices first (section 10.1.11 of ECMA-262), is a strict total order, as the laws require. |
| JsonObjects.PrintedDetermines | src/canonical-json.ts:59-61 | The canonical text of an object determines each of its fields. |
| Base64Url.EncodeStrict | src/encoding.ts:48-57 | The encoding loop writes the unpadded base64url of the bytes. |
| Base64Url.DecodeStrict | src/encoding.ts:17-46 | The decoding loop returns the bytes or rejects, as the codec says. |
| Base64Digits.EncodedText | src/encoding.ts:48-57 | The text has one character for every six bits, the last ones padded with zeros, and each is the letter of its six bits in the URL-safe alphabet. |
| Base64Url.DecodeEncode | src/encoding.ts:17-58 | Decoding undoes encoding of every non-empty byte string. |
| Base64Url.EncodeDecode | src/encoding.ts:17-46 | A text is accepted exactly when it is non-empty, in the alphabet, not of length 1 modulo 4 and without stray trailing bits; and encoding undoes decoding. |
| Base64Url.DigestPayload | src/encoding.ts:60-70 | An accepted sha256 digest has exactly 43 payload characters and is the only text for its bytes. |
| Base64Url.DigestOfBytes | src/encoding.ts:60-70 | Encoded bytes are an accepted digest exactly when there are 32 of them. |
| Transport.ChallengeRoundTrip | src/http.ts:77-129 | Every valid requirement comes back from its own challenge; it travels in the header exactly up to 8,192 characters; above 65,536 there is no challenge. |
| Transport.AcceptedHeaderIsCanonical | src/http-client.ts:64-88 | A header that a client accepts is the encoding of the requirement it yields, bare or after a byte order mark. |
| Transport.HeadersDetermine | src/http-client.ts:64-88 | Two headers accepted as one requirement are equal if and only if both or neither carry the mark. |
| Transport.MarkedHeaderAccepted | src/encoding.ts:72-78 | Every valid requirement has a second, marked header, accepted exactly while its own is at most 8,188 characters long. |
| Transport.ConflictRefused | src/http-client.ts:79-88 | With a header, a body is tolerated exactly when it is a valid header-mode problem about the same dependency. |
| Framing.JoinedInjective | src/nonce-store.ts:203-209 | Colon- or NUL-joined provider keys determine all five parts, though scope IDs may contain the separator. |
| Framing.RedisProviderKeyInjective | src/redis.ts:302-327 | So does the whole Redis key. |
| Framing.FreeLengthDigestsCollide | src/service.ts:241-243 | Without the digest's fixed shape two entries would share a key. |
| Framing.ScopedStateIdInjective | src/api/router.ts:286-296 | A scoped state ID determines the tenant's issuer and subject and the state ID. |
| Framing.TenantsAndStatesApart | src/api/router.ts:286-296 | A tenant ID is never a scoped state ID. |
| AgentSignature.SignedParametersRecovered | src/agent.ts:161-211 | The parser recovers what was signed, even past text like ;name= inside values, if and only if key ID and nonce hold no quote or backslash. |
| AgentSignature.FoundInParams | src/agent.ts:178-194 | The regular-expression searches find exactly what stands between the quotes of each field. |
| AgentSignature.BaseDetermines | src/agent.ts:95-105 | Equal signature bases have equal components, values and serialized parameters. |
| AgentSignature.SerializedDetermines | src/agent.ts:140-142 | The serialized parameters determine times, key ID, algorithm and nonce, quotes and backslashes included. |
| AgentSignature.SignatureFitsOneRequest | src/agent.ts:117-159 | For every key ID and nonce the signer accepts, equal bases of signed requests mean equal lowercased method, target URI, covered headers, key ID, algorithm, nonce, second of creation and lifetime. |
| AgentSignature.MethodCaseIsLost | src/agent.ts:85-86 | Two requests that differ only in their method share a base if and only if the methods differ only in case. |
| AgentVerification.SignedText | src/agent.ts:140-152 | The signer writes exactly this parameter text, for lifetimes of 1 to 60 seconds and printable key IDs and nonces, and throws otherwise. |
| AgentVerification.LowerText | src/agent.ts:86 | Lowercasing takes each capital to its small letter and leaves every other character. |
| AgentVerification.EscapeText | src/agent.ts:69-74 | A quote or backslash is written after a backslash, every other character as itself. |
| AgentVerification.PlainBaseText | src/agent.ts:95-105 | The base of a request without body or covered headers, line by line. |
| AgentVerification.SignedVerifies | src/agent.ts:220-277 | What was signed verifies as the signer's key ID exactly within its lifetime, give or take the skew, under its nonce, for key IDs and nonces without quotes and backslashes. |
| AgentVerification.VerifiedWasSigned | src/agent.ts:220-277 | With a key that accepts one signed base only, an accepted request is the signed one up to the case of its method, with the same covered values, within the signed time and with its nonce. |
| AgentVerification.CoversWhatMatters | src/agent.ts:107-115 | Requests with the same covered components and values have the same proof and payment headers, present or absent, and both or neither a body, with one content digest. |
| PathGrants.NormalizeAuthorizedPath | src/auth/issuance.ts:267-283 | The loop accepts exactly the clean paths and rebuilds them from their segments. |
| PathGrants.NormalizationIsStable | src/auth/issuance.ts:267-283 | Normalization is idempotent and keeps the segments. |
| PathGrants.NormalizedDetermines | src/auth/issuance.ts:267-283 | Clean paths normalize alike exactly when their segments agree. |
| PathGrants.TextPrefixIsCover | src/auth/issuance.ts:320-326 | Comparing text with the boundary slash is comparing segment lists. |
| PathGrants.ResourceUriAuthorized | src/auth/issuance.ts:285-329 | True exactly when some usable https grant has the URI's origin and its segments begin the URI's. |
| PathText.AcceptedExactly | src/auth/issuance.ts:267-283 | A path is accepted exactly when it begins with a slash and holds at no position a percent sign, a backslash, a NUL, two slashes in a row, or a segment of one or two dots. |
| PathText.NormalizedText | src/auth/issuance.ts:279-282 | An accepted path only loses a slash at its end; the root stays. |
| PathText.AuthorizedExactly | src/auth/issuance.ts:285-329 | A URI is authorized exactly when it is https without credentials, its path is accepted, and it goes on from the prefix of a grant for its origin with a slash or not at all. |
| RateLimits.MemoryRateLimiter.Consume | src/ops/limits.ts:26-41 | One key slides its window and answers; all other keys stay as they are. |
| RateLimits.SlidingWindowHolds | src/ops/limits.ts:26-41 | No half-open window of windowMs ever holds more than maxRequests allowed requests. |
| RateLimits.DeniedUntilReset | src/ops/limits.ts:29-33 | After a denial, every request before resetAt is denied and the first at or after it is allowed. |
| RateLimits.RedisRateLimiter.Consume | src/redis.ts:172-196 | The script's counter and the answer for one key; a key with control separators is refused and changes nothing. |
| RateLimits.FixedWindowHolds | src/redis.ts:88-93 | No half-open window of windowMs holds more than 2 * maxRequests - 1 requests that were answered allowed. |
| RateLimits.FixedWindowIsTight | src/redis.ts:88-93 | For every window of at least two milliseconds and every maximum, a run that reaches the bound. |
| RateAnswers.SlidingRemaining | src/ops/limits.ts:26-41 | Of the requests that follow an answer before the oldest remembered one leaves the window, exactly the first `remaining` are allowed. |
| RateAnswers.WholeAgainAtReset | src/ops/limits.ts:36-40 | After an allowed answer, the whole quota is back exactly from its resetAt on. |
| RateAnswers.FixedRemaining | src/redis.ts:172-196 | Of the requests that follow an answer before its resetAt, exactly the first `remaining` are allowed, and none after a denial. |
| RateAnswers.FixedReset | src/redis.ts:172-196 | A denied key is denied until its resetAt and allowed from then on, and any window's whole quota is back exactly then, on the server's clock. |
| RateLimits.OneMillisecondWindow | src/redis.ts:88-93 | A window of one millisecond never holds more than the maximum. |

## Left out

- HandoffRecords.UnprotectProtect: sealing is a fixed prefix that stands for any pair of inverse functions; AES-GCM's random IV, tag and framing are not modelled.
- RedisHandoffs.RedisHandoffStore.Update: stated for writes that keep the identity and, when accepted, an exact index (WritesInFlight shows that all the service's do), because the keys stand for a store only while its index is exact.
- RedisDeployment.RedisIsABroker: versions are JSON numbers, read and printed exactly only up to 2^53 - 1, so a run is bounded by that many steps.
- RequestDigests.JsonBodiesAgree: opaque and precomputed bodies carry no structure to compare; a precomputed digest is trusted as given.
- ISO timestamp text: a stored time is written by decimal milliseconds, standing for any injective text.
- Optional fields of a stored handoff whose JSON type is wrong are rejected here by the reader's field checks; the remaining Zod bounds (lengths, URL forms) are not modelled.
- Lone surrogates: strings are sequences of Unicode scalar values, so unpaired UTF-16 halves, their escapes and the replacement done by UTF-8 encoders are outside the model; string lengths count scalars.
- Number printing and reading: any reader whose results are number texts read back as themselves, and, where records are stored, that reads natural numbers up to 2^53 - 1 as themselves; that ECMAScript's is one is not proved. Negative zero is zero.
- Object members are kept as a list with distinct keys; array holes, getters and prototypes other than plain objects are the one value Opaque.
- Letter case: methods are mapped letter by letter from a to z, as HTTP method names are; other letters' mappings are not modelled.
- Regular expressions are written out as the leftmost searches they denote.
- AgentVerification.Verify: the signature itself and the content digest are given as answers of the key and of the comparison.
- Cryptography (AES-GCM, HMAC, SHA-256, Ed25519, EIP-191, ERC-1271), key sets and key status, and the JWS wrapping of tokens.
- World ID and IDKit calls, provider request validation in register, adapter conformance and the constructor's catalog checks.
- Express, Next and Fetch plumbing, CORS, redirects, the managed client, presenters, CLIs, the MCP server, x402, circuit breaker and telemetry.
- URL parsing (parsed URLs are inputs), header normalization by Headers, and UTF-8 itself (an encoder and a strict decoder that undo each other, of which only the bytes of the byte order mark are spelled out).
- The dev-local profile of the resource middleware, where the state stores may be missing or in memory.
- The requirement stores' tenant views, capacity and pruning; the protected resource keeps only which requirements can still be read.
- The grant lists for purposes, audiences and methods in authorizeIssuance, settled by reading one branch each.
- Redis internals and persistence: a script is one atomic step over keys with expiry times.
