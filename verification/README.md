# Overgent: verified core

Overgent coordinates coding agents that work on shared Projects. A device observes local
repositories, queues what it sees, publishes it to one or more backends, and injects corrections
into the turns of agent sessions. This project models the parts of Overgent whose correctness
depends on whole runs, interleavings, arithmetic or text surgery, and proves what they promise.

`dafny verify dfyconfig.toml` (Dafny 4.11) covers the whole project. Code that updates state is
modelled by classes and loops proved against specification functions; the promises are then proved
of those functions for all inputs, all runs and all reachable states. `FlushEvidence`,
`FlushOffers`, `InjectionText`, `EmbeddingRows`, `TextParagraphs`, `ConfigFiles`, `ContractText`,
`Sha256Constants` and `RegistryEffects` tell what those functions come to, in terms of replies,
words, rows, lines and records alone.

## The pieces

**The publish queue** (`QueueLog`, `FlushPass`, `FlushLaws`, `FlushInterference`, `FlushEvidence`,
`FlushOffers`, `QueueRuns`, `PublishService`). The queue is an append-only log of events enqueued,
batches offered with the backend's reply, and settlements. A log is *legal* when every step was
justified by the steps before it. Every run of enqueues and publish passes, against backends and a
store that answer arbitrarily, produces a legal log; conservation, evidence for every settlement,
and per-workspace order are theorems about legal logs. `PublishService` holds the loops of the pass
and shows that they take exactly the steps the specification takes; `FlushEvidence` and
`FlushOffers` tell what those steps are from the backends' replies.

**Injection of corrections** (`Injection`, `InjectionText`, `InjectionHooks`, `InjectionFocus`,
`InjectionService`). Hooks of concurrent agent sessions interleave at the steps check, fetch, read,
claim. The invariant gives at-most-once delivery, that whatever is marked delivered is in some
hook's payload, and the size limit; focus and draining are settled exactly.

**The hand-written SHA-256 and the manifest encoding** (`Sha256Standard`, `Sha256Constants`,
`JsNumbers`, `Sha256Hex`, `Utf8`, `Manifests`, `ManifestSharing`). `Sha256Standard` transcribes FIPS
180-4, `Sha256Constants` derives its constants, and `JsNumbers` models the 32-bit operators and
double-precision sums of JavaScript; the program is proved to compute the standard digest. The
manifest pre-image is proved injective on NUL-free manifests and the same on device and service, and
what the validator lets through besides is settled.

**Intelligence mutations** (`EmbeddingMigration`, `EmbeddingRows`, `EmbeddingSwitches`,
`JudgmentBudget`, `Verdicts`). A self-rescheduling page walk over an index it rewrites, overtaken by
switches of model, a fixed-window budget, and revision-guarded verdicts.

**Text processing** (`EditDistance`, `TextLayout`, `TextParagraphs`, `MarkedText`, `Quoting`,
`ManagedBlock`, `ConfigSplice`, `ConfigFiles`, `Contracts`, `ContractText`). The two-row edit
distance, greedy wrapping, the managed block of a Codex config file, and contract fingerprints.

**The profile registry** (`Registry`, `RegistryEffects`, `RegistryService`). Backends, Projects and
repositories under upsert, binding, moving and cascading removal.

`Collections` and `Text` hold what several of these share.

## Where the code does not do what one would expect

The model keeps the code as it is. Each expectation below fails for some input; the named lemma says
exactly when it holds, and the one in brackets gives an input.

- `EditDistance.CorrectExactlyWhen`: against an empty left side the first row is sized by bytes
  (`EmptyLeftMiscounts`).
- `EmbeddingMigration.PassKeysMatchExactlyWhen`: a row whose object lives in another scope ends under
  the composite key of the scope it left (`StrayKey`).
- `ManifestSharing.SharedExactlyWhen`: the validator admits a NUL in a path, so two neighbouring
  entries and one with a longer path share a pre-image wherever that path keeps within the limit
  (`NulCollision`). The condition is exact for manifests without renames and copies; with them,
  `ManifestSharing.MergedShares` and `ManifestSharing.ShortIsAlone` bound it from both sides.
- `InjectionFocus.FocusHoldsExactlyWhen`: focus is read once per hook, so a hook already on its way
  may still deliver to a session focused since (`Interrupt`). The comment on the handler says only
  that a focused session is skipped.
- `InjectionFocus.UnreadableFocusProtectsNobody`: a hook that fails to read the focus goes on as if
  there were none, so where reads may fail focus protects no session.
- `InjectionHooks.DrainsExactlyWhen`: a correction that fits neither in full nor compacted is never
  delivered (`UndeliverableWitness`).
- `ConfigSplice.RestoredExactlyWhen`: setup then remove restores the file exactly when it was empty
  or ended its last line, and can still be read (`UnendedNotRestored`).
- `ManagedBlock.ParsePrinted`: the block is printed with Go escapes but its argument list is read as
  JSON, so a profile path does not parse back when it holds a control character JSON escapes
  otherwise, or an unprintable character beyond U+FFFF, such as the tag characters of some flags
  (`UnreadableProfiles`).
- `ConfigSplice.FailureRestoresExactlyWhen`: both files are said to be restored when a rebind fails,
  but an adopt-only run whose hook inspection fails leaves the block rewritten
  (`HalfReboundWitness`).
- `Registry.FoundByOriginExactlyWhen`: cleaning an origin is not idempotent, and an origin that
  needs two cleanings is not found again (`InnerSpaceIsLost`).

Two weaknesses are out of reach of any input. Over arbitrary snapshots backends could interfere
(`FlushInterference.InterferesExactlyWhen`), but the store queues only payloads it encoded itself, and
then they do not (`FlushInterference.BackendsDoNotInterfere`). Over arbitrary lists of symbols the text
that is hashed could be shared (`Contracts.SharedTextExactlyWhen`), but extracted names are single lines,
and then it determines names and hashes (`Contracts.ExtractedDetermines`).

## Model

| member | source | states |
|---|---|---|
| QueueLog.SettledInOrder | internal/app/app.go:402-453 | in every legal log the settled events of a workspace are a prefix of those it enqueued, and the rest are what is pending |
| QueueLog.ExactlyOneState | internal/app/app.go:349-512 | an enqueued event is in exactly one of pending, acknowledged, quarantined, and nothing else is in any |
| QueueLog.SettlementsEvidenced | internal/app/app.go:480-512 | an acknowledgement follows a reply whose verdict is acceptance of a batch holding the event, a quarantine one whose verdict is permanent for the event sent alone, and each settles the oldest pending event; FlushEvidence.VerdictMeans says which replies those are |
| QueueLog.NoOvertaking | internal/app/app.go:402-453 | no event is settled before an earlier one of its workspace |
| QueueLog.LegalPrefix | internal/app/app.go:349-464 | legality holds at every moment of a run, so the four laws above do too |
| QueueLog.EnqueuedWellFormed | internal/store/store.go:949-972 | only encoded payloads are ever queued |
| FlushPass.DrainGroupLegal | internal/app/app.go:402-453 | draining one workspace in windows of 100, with one-by-one retry, settles its next n events in order and keeps the log legal, whatever the backend and the store answer |
| FlushPass.DrainAllLegal | internal/app/app.go:384-454 | every visited workspace has a prefix of its group settled, all of it if the pass is healthy, and no other workspace is touched |
| FlushPass.FlushGuarantee | internal/app/app.go:349-464 | one pass keeps the log legal, settles nothing of a paused workspace, a prefix of any other, and everything of every unpaused one if it reports success |
| FlushLaws.FlushSucceedsExactlyWhen | internal/app/app.go:386-464 | from what a legal log has pending, success exactly when every unpaused workspace with work has a sender, no offer failed transiently and every settlement was written; permanent refusals do not matter |
| FlushLaws.PassSucceedsExactlyWhen | internal/app/app.go:386-464 | over arbitrary snapshots, the same with payloads that can be batched |
| FlushLaws.SnapshotWellFormed | internal/store/store.go:1033-1053 | whatever a legal log has pending can be batched |
| FlushLaws.OfferedAtMostTwice | internal/app/app.go:402-453 | no event is offered more than twice in one pass |
| FlushInterference.BackendsDoNotInterfere | internal/app/app.go:381-454 | from what a legal log has pending, two passes that differ only in what other backends answer offer this backend the same batches and settle its workspaces identically |
| FlushInterference.InterferesExactlyWhen | internal/app/app.go:384-454 | over arbitrary snapshots such passes can differ exactly when an unbatchable workspace of another backend comes before one of this backend whose first window can be sent, with no unbatchable workspace of this backend before it |
| FlushEvidence.LegalEvidence | internal/app/app.go:412-512 | in every legal log an event is acknowledged only after an acknowledgement with a cursor that lists every event of a batch holding it, and quarantined only after it was sent alone and refused with a status from 400 to 499 other than 401, 408 and 429, marked not retryable |
| FlushEvidence.PassEvidence | internal/app/app.go:412-512 | in every pass, over any snapshot, that reply lies within the pass |
| FlushEvidence.VerdictMeans | internal/app/app.go:466-489 | a reply settles, quarantines or stops exactly by its cursor, its list of events, its status and its retryable mark |
| FlushEvidence.TemporaryFailuresSettleNothing | internal/app/app.go:466-489 | a pass that meets only expired credentials, timeouts, rate limits, server errors, retryable refusals and transport errors settles nothing, and reports no success where it had work |
| FlushEvidence.SucceedsExactlyWhen | internal/app/app.go:386-464 | success exactly when every unpaused workspace with work has a sender, every write worked, and every offer was acknowledged in full or refused for good, told from the replies |
| FlushOffers.OffersAreWindows | internal/app/app.go:402-512 | every batch offered is the next hundred events of a workspace, or its last ones, or one event on its own after a batch holding it was refused for good |
| FlushOffers.FailedBackendIsLeftAlone | internal/app/app.go:384-454 | after an offer to a backend fails for now, the pass offers that backend nothing more |
| FlushOffers.HealthyBackendDrains | internal/app/app.go:381-454 | a backend no offer to which fails for now, with senders and a working store, has everything waiting for it settled, whatever happens to the others |
| FlushOffers.OffersInOrder | internal/app/app.go:371-384 | workspaces are drained one after the other in the visiting order |
| FlushOffers.FirstMentionedFirst | internal/app/app.go:371-384 | and that is the order in which the snapshot first mentions them |
| QueueRuns.SnapshotIs | internal/store/store.go:1055-1070 | the pending query lists exactly the unsettled events, by workspace and in sequence |
| QueueRuns.EnqueuedExactlyWhen | internal/store/store.go:949-972 | an enqueue adds its event exactly when the payload encodes and the id is new, numbered one more than the workspace's last |
| QueueRuns.EveryRunIsLegal | internal/app/app.go:349-512 | every run of enqueues and passes, enqueues landing inside passes included, is legal |
| QueueRuns.PassAmidArrivals | internal/app/app.go:349-464 | what a pass settles does not depend on enqueues that land while it runs |
| PublishService.Send | internal/app/hosted_sender.go:46-76 | no error exactly when the batch is nonempty and the acknowledgement lists every event and carries a cursor; a refusal is passed on unchanged |
| PublishService.PublishQueue.Enqueue | internal/store/store.go:949-972 | assigns the next sequence number of the workspace and keeps the tables in step with the log |
| PublishService.PublishQueue.Pending | internal/store/store.go:1055-1070 | returns the snapshot of the log |
| PublishService.PublishQueue.Ack | internal/store/store.go:1071-1089 | moves one event, or records that the write failed |
| PublishService.PublishQueue.Quarantine | internal/store/store.go:1095-1098 | sets one event aside, or records that the write failed |
| PublishService.PublishQueue.RetryIndividually | internal/app/app.go:491-512 | the one-by-one loop takes exactly the specified steps |
| PublishService.PublishQueue.DrainWorkspace | internal/app/app.go:402-453 | the window loop takes exactly the specified steps |
| PublishService.PublishQueue.DrainOrder | internal/app/app.go:384-454 | the workspace loop, with its set of failed backends, takes exactly the specified steps |
| PublishService.PublishQueue.Flush | internal/app/app.go:349-464 | the whole pass appends the specified steps and returns their verdict, or changes nothing when the queue or the workspaces cannot be read |
| PublishService.IndexWorkspaces | internal/app/app.go:365-370 | the pause and backend maps answer for listed and unlisted workspaces alike |
| PublishService.EnvTold | internal/app/app.go:365-370 | a listed workspace is paused and bound as its row says, an unlisted one is not paused and has the empty backend |
| PublishService.GroupPending | internal/app/app.go:371-380 | groups are the unpaused events of each workspace, in order of first appearance |
| Injection.SelectIsPrefix | internal/app/app.go:979-1003 | the selection is by identity a prefix of the pending items, each in full or compacted, within the limit, and stops only where nothing more fits |
| Injection.RenderedWithinLimit | internal/app/app.go:967-1014 | whatever part of a selection is claimed, its rendering keeps the byte limit, header included |
| Injection.SelectInjectionItems | internal/app/app.go:979-1003 | the accumulating loop computes the specified selection |
| Injection.RenderInjection | internal/app/app.go:967-977 | the builder loop computes the text of InjectionText.RenderReadsBack |
| InjectionText.RenderReadsBack | internal/app/app.go:967-1014 | the text of a nonempty list splits into the header, one line per item in order, and nothing after the last line end; a line's words are a dash, the item's text, its reason after Reason: if it has one, and its action after Action: and closed by a full stop if it has one, with single spaces between them |
| InjectionText.SelectedExactly | internal/app/app.go:979-1003 | each pending item is taken as it is if the rendered text with it takes at most 3200 bytes, shortened to its identity with a fixed reason and action if only that fits, and otherwise the selection ends |
| InjectionHooks.InjectionSafety | internal/app/app.go:859-965 | over every interleaving each (session, item, revision) is in at most one payload, is marked delivered exactly when some payload carries it or it was before, and payloads keep the limit, come from their brief, name mid-turn only items that required coordination, and repeat only what the brief repeats |
| InjectionHooks.NextKeeps | internal/app/app.go:859-965 | every single step of every hook keeps that invariant |
| InjectionHooks.PayloadsAreFinal | internal/app/app.go:945-964 | a finished hook's payload never changes |
| InjectionHooks.DeliveriesOnlyGrow | internal/store/store.go:240-270 | no delivery is ever taken back |
| InjectionHooks.FocusedHookClaimsNothing | internal/app/app.go:884-891 | a hook that finds its session focused claims nothing, whatever happens later |
| InjectionFocus.FocusHoldsExactlyWhen | internal/app/app.go:884-948 | while hooks can read the focus and it lasts, some continuation delivers to the session exactly when one of its hooks is past its check, or fetched a brief whose first pending item fits, or selected a valid item nobody claimed |
| InjectionFocus.UnreadableFocusProtectsNobody | internal/app/app.go:889-891 | where a focus read may fail, some continuation delivers to every session with a name, focused or not |
| InjectionHooks.DrainsExactlyWhen | internal/app/app.go:889-965 | as many turns as a brief has items deliver all of it, exactly when it was delivered already or all identities are valid and each outstanding item fits, compacted if need be |
| InjectionHooks.UndeliverableWitness | internal/app/app.go:979-1003 | a correction with a long word for its text and for its id is delivered by no number of turns |
| InjectionService.DeliveryStore.UndeliveredInjectionItems | internal/store/store.go:275-295 | exactly the identities not recorded for the session; one invalid identity fails the read |
| InjectionService.DeliveryStore.ClaimInjectionDeliveries | internal/store/store.go:240-270 | claims exactly the identities nobody claimed, once each, all or nothing |
| InjectionService.PendingItems | internal/app/app.go:906-930 | the read stage: in the brief's order, what is undelivered and, mid-turn, requires coordination, or nothing where an identity is invalid |
| InjectionService.Deliver | internal/app/app.go:932-964 | the claim stage: what this hook was the first to claim, nothing where the store fails or an identity is invalid, and its rendered text |
| InjectionService.FetchLimiter.ClaimMidTurnFetch | internal/app/app.go:837-849 | grants unless the last grant of the workstream is less than a window ago |
| InjectionService.GrantsAreApart | internal/app/app.go:834-849 | over every run of requests the j-th grant of a workstream is at least j windows after the first |
| InjectionService.GrantedExactlyWhen | internal/app/app.go:834-849 | over every run of requests, one is granted exactly when every earlier grant to its workstream is at least 20 seconds back |
| Sha256Hex.PackAndPad | convex/src/domain.ts:595-600 | the sparse array packed and padded in place is the padding of section 5.1.1 of FIPS 180-4, in whole blocks |
| Sha256Hex.Rotate | convex/src/domain.ts:629-631 | the rotation of section 3.2 of FIPS 180-4, signed operands included |
| Sha256Hex.Expand | convex/src/domain.ts:604-612 | the message schedule of section 6.2.2 |
| Sha256Hex.RoundJs | convex/src/domain.ts:615-621 | one round of section 6.2.2, in signed arithmetic over double-precision sums that stay exact |
| Sha256Hex.Compress | convex/src/domain.ts:613-625 | one block of section 6.2.2 |
| Sha256Hex.HexJs | convex/src/domain.ts:626 | eight hexadecimal digits of the unsigned word, zero-padded |
| Sha256Hex.Sha256Of | convex/src/domain.ts:594-627 | the result is the standard digest |
| Sha256Constants.RoundConstants | convex/src/domain.ts:633-642 | the round constants are the first 32 bits of the fractional parts of the cube roots of the first sixty-four primes |
| Sha256Constants.InitialValue | convex/src/domain.ts:602 | the initial hash value is made of those of the square roots of the first eight |
| Sha256Constants.ChoiceAndMajority | convex/src/domain.ts:615-621 | choice takes its second word's bits where the first has ones and the third's elsewhere, and the majority goes with any two that agree |
| Sha256Constants.SingleBits | convex/src/domain.ts:607-621 | where the four mixing functions send a single bit |
| Utf8.EncodeIsInjective | convex/src/domain.ts:581-588 | encoding is injective and byte order is code-point order |
| Utf8.EncodingReadsBack | convex/src/domain.ts:581-588 | a character is read back from its bytes as RFC 3629 has it, and no shorter form would do |
| Utf8.EncodeSpelledOut | convex/src/domain.ts:581-588 | text is encoded character by character |
| Utf8.LessSpelledOut | convex/src/domain.ts:581-588 | at the first difference the smaller byte, or the end, comes first |
| Manifests.CompareUtf8 | convex/src/domain.ts:581-588 | the sign of the result is the byte order, zero exactly on equal text |
| Manifests.AssertCanonicalOrder | convex/src/domain.ts:523-529 | accepts exactly the manifests whose neighbours are strictly ordered |
| Manifests.CanonicalPairwise | convex/src/domain.ts:523-529 | the neighbour check orders every pair |
| Manifests.ServicePreimage | convex/src/domain.ts:512-521 | the joined text is the pre-image |
| Manifests.DevicePreimage | internal/git/git.go:280-299 | the device writes the same pre-image, and refuses exactly what is out of order |
| Manifests.EntrySpelledOut | convex/src/domain.ts:512-521 | an entry adds its path and then, of baseline, index and working tree in that order, the layer's name, its status and its old path, or nothing where there is none |
| Manifests.FieldSpelledOut | convex/src/domain.ts:512-521 | each closed by a NUL |
| Manifests.PreimageInjective | convex/src/domain.ts:451-472 | NUL-free manifests have equal pre-images exactly when they are equal |
| Manifests.SamePreimageSameEntries | convex/src/domain.ts:512-529 | accepted NUL-free manifests have equal pre-images, as text and as bytes, exactly when they hold the same set of entries |
| ManifestSharing.NulCollision | convex/src/domain.ts:451-472 | the witness: two short manifests, accepted within the limit of 512 on paths, with one pre-image |
| ManifestSharing.ShortIsAlone | convex/src/domain.ts:451-529 | whatever the limit on paths, an accepted NUL-free manifest of at most one entry shares its pre-image with no other |
| ManifestSharing.MergedShares | convex/src/domain.ts:451-529 | where the path that swallows an entry keeps within the limit, another accepted manifest has the same pre-image |
| ManifestSharing.SharedExactlyWhen | convex/src/domain.ts:451-529 | without renames and copies, and for any limit, an accepted NUL-free manifest shares its pre-image with another accepted one exactly when some two neighbours can be merged within the limit |
| ManifestSharing.LongIsAlone | convex/src/domain.ts:451-529 | so one whose paths all have full length is alone, however many entries it has |
| EmbeddingMigration.ScopeModelKeyInjective | convex/functions/intelligence.ts:133-135 | the length-prefixed key determines scope and model |
| EmbeddingMigration.PageIsStretch | convex/functions/intelligence.ts:323-325 | a page is exactly the stretch of the index between the old and the new cursor |
| EmbeddingMigration.PageShrinks | convex/functions/intelligence.ts:318-370 | every page lowers (foreign rows ahead, rows ahead) although it moves rows in the index it walks |
| EmbeddingMigration.MigrationExactly | convex/functions/intelligence.ts:318-370 | for any target model, any page sizes and any finite sequence of harmless writes by others between pages, each place of the table ends with the last of those writes, or else with its row converged if it was of the scope, or as it was |
| EmbeddingMigration.WorkExactly | convex/functions/intelligence.ts:351-359 | from any place in the index on, the undisturbed pass schedules each piece of work as often as rows ahead are due it; EmbeddingRows.PassAsks says what they are due |
| EmbeddingRows.PassAsks | convex/functions/intelligence.ts:351-359 | an undisturbed pass asks for an object at a revision once for each row of the scope at another model whose object is active and has that identifier and revision, and with the fallback model it asks for nothing |
| EmbeddingRows.PassTold | convex/functions/intelligence.ts:318-370 | for any model, each row of the scope at the model is only re-keyed, an orphan at another model deleted, any other at another model re-embedded from its object for the fallback model and left as it is otherwise; nothing else changes |
| EmbeddingRows.PageTold | convex/functions/intelligence.ts:318-370 | the same of one page, whose work lists in the page's order what its rows need, and whose count is the rows it re-embedded or asked for |
| EmbeddingRows.AskedOfObjects | convex/functions/intelligence.ts:298-370 | over every run of switches, passes and writes, what stands as asked for a row was asked by a page that met it at another model, and names its object's identifier and revision of that moment, or nothing if it was inactive |
| EmbeddingRows.KeyExample | convex/functions/intelligence.ts:133-135 | the composite key spelled out |
| EmbeddingMigration.MigrationConverges | convex/functions/intelligence.ts:318-370 | with the fallback model no row appears, rows of other scopes stay, exactly the foreign orphans go, and every other row of the scope ends at that model under the scope's key, foreign ones with their object's scope, revision and vector |
| EmbeddingMigration.DisturbOwes | convex/functions/intelligence.ts:277-296 | a write between pages that puts a row of the scope at the target changes what the pass leaves at no other place |
| EmbeddingMigration.KeyMatchesExactlyWhen | convex/functions/intelligence.ts:340-350 | one re-embedded row's key matches its own scope exactly when its object is still in the scope being converged |
| EmbeddingMigration.PassKeysMatchExactlyWhen | convex/functions/intelligence.ts:318-370 | the whole pass leaves every row that began in the scope under the key of its own scope exactly when no foreign row has its live object elsewhere |
| EmbeddingMigration.StrayKey | convex/functions/intelligence.ts:340-350 | a row of a moved object ends under a key of the scope it left |
| EmbeddingSwitches.LastSwitchConverges | convex/functions/intelligence.ts:153-165 | over any interleaving of pages of any passes, stale ones of the same model included, of harmless writes and of changing objects, once a pass begun since the last switch of model has run its last page every row of the scope is at the model or the provider was asked for it |
| EmbeddingSwitches.FallbackConverges | convex/functions/intelligence.ts:298-370 | with the fallback model every row of the scope is then at that model under the scope's key |
| EmbeddingSwitches.PassEnds | convex/functions/intelligence.ts:318-370 | however pages of other passes interleave, a pass of the current model that runs more pages than it had to go has ended |
| EmbeddingMigration.EmbeddingStore.ConvergeEmbedding | convex/functions/intelligence.ts:328-360 | one row: re-keyed, deleted, re-embedded, or scheduled |
| EmbeddingMigration.EmbeddingStore.Converge | convex/functions/intelligence.ts:318-370 | one page and its successor; a page queued for a superseded model changes nothing |
| JudgmentBudget.LessThanTwiceTheBudget | convex/functions/intelligence.ts:480-498 | no half-open hour holds more than 119 grants, one short of twice the hourly budget |
| JudgmentBudget.BoundIsReached | convex/functions/intelligence.ts:480-498 | and a run of claims reaches that bound |
| JudgmentBudget.ClaimedByTheRule | convex/functions/intelligence.ts:480-498 | over every run of claims and sweeps, a claim is granted exactly when the last grant's hour is over, which starts a new one, or has granted fewer than sixty; it reports the end of the hour it fell in; an inactive project's claim is refused and changes nothing |
| JudgmentBudget.SweepsAreInvisible | convex/functions/intelligence.ts:480-498 | deleting rows at or after their expiry never changes which claims are granted |
| JudgmentBudget.RefusalIsLifted | convex/functions/intelligence.ts:480-498 | the first active claim at or after the reported recovery time is granted |
| JudgmentBudget.RefusedUntilThen | convex/functions/intelligence.ts:480-498 | and every claim before it is refused |
| JudgmentBudget.RateLimits.ClaimJudgmentBudget | convex/functions/intelligence.ts:480-498 | one claim on the table of limits, other projects untouched |
| Verdicts.RevisionNeverDecreases | convex/functions/intelligence.ts:500-518 | over any interleaving a finding's revision never decreases |
| Verdicts.OneVerdictPerRevision | convex/functions/intelligence.ts:500-518 | two verdicts that take effect expected different revisions |
| Verdicts.VerdictsOnlyRefine | convex/functions/intelligence.ts:500-518 | a finding no longer open is untouched, and one shown is never silenced |
| Verdicts.FirstVerdictWins | convex/functions/intelligence.ts:471-518 | of verdicts that read the same revision the first that changes something decides |
| Verdicts.LastVerdictShows | convex/functions/intelligence.ts:500-518 | after any number of verdicts a finding carries the severity, reason, provider, time and delivery of the last one that met its revision with something new, one revision on, where silence keeps the delivery it had or the dashboard; it is as it was if there was none |
| Verdicts.Findings.JudgmentInput | convex/functions/intelligence.ts:471-478 | answers exactly for a finding open at the expected revision |
| Verdicts.Findings.ApplyJudgmentVerdict | convex/functions/intelligence.ts:500-518 | applies exactly when the finding is open at the expected revision and the verdict says something new, carries over what it says, and touches that finding only |
| EditDistance.Compute | cmd/overgent/cli_surface.go:415-435 | the two-row program computes the recursive distance for every nonempty left side, and the byte length of the right side otherwise |
| EditDistance.NextRow | cmd/overgent/cli_surface.go:420-433 | one row of distances from the row above |
| EditDistance.CorrectExactlyWhen | cmd/overgent/cli_surface.go:415-435 | so it is right exactly when the left side is nonempty or the right side is single-byte |
| EditDistance.EmptyLeftMiscounts | cmd/overgent/cli_surface.go:415-419 | one accented letter against nothing counts as two |
| EditDistance.ZeroExactlyWhenEqual | cmd/overgent/cli_surface.go:415-435 | the distance is zero exactly on equal strings |
| EditDistance.Symmetric | cmd/overgent/cli_surface.go:415-435 | the distance is symmetric |
| EditDistance.Triangle | cmd/overgent/cli_surface.go:415-435 | the distance obeys the triangle inequality |
| EditDistance.NoShorterEdits | cmd/overgent/cli_surface.go:415-435 | no sequence of single-character edits is shorter than the distance |
| EditDistance.EditsExist | cmd/overgent/cli_surface.go:415-435 | and some sequence is exactly as long |
| EditDistance.Suggest | cmd/overgent/cli_surface.go:395-413 | the suggestion is the first that minimises the score over every other command, made exactly when the name is longer than a byte and the score near enough |
| EditDistance.ScoreTold | cmd/overgent/cli_surface.go:395-413 | near enough means three edits, or four characters missing at the end; a candidate that completes the name beats one that does not unless it is two edits further |
| EditDistance.CompletionDistance | cmd/overgent/cli_surface.go:395-413 | completing a name is as far as the rest is long |
| TextLayout.TextWidth | internal/cliui/layout.go:122-130 | the columns of a text, marks counting none |
| TextParagraphs.WidthSpelledOut | internal/cliui/layout.go:122-130 | marks take no room and every other character one column |
| TextLayout.SplitWidth | internal/cliui/layout.go:96-120 | hard splitting as specified |
| TextLayout.WrapWords | internal/cliui/layout.go:72-88 | the filling loops build the greedy layout |
| TextLayout.Wrap | internal/cliui/layout.go:61-94 | the whole program computes the lines that the laws of TextParagraphs determine |
| TextLayout.GreedyIsFewest | internal/cliui/layout.go:72-88 | no layout of the same pieces in order has fewer lines |
| TextLayout.ParagraphGuarantee | internal/cliui/layout.go:66-89 | a paragraph keeps its pieces in order, every line fits, and no layout in order has fewer lines |
| TextLayout.WordsThatFit | internal/cliui/layout.go:96-99 | when every word fits, the pieces are the words |
| TextLayout.WrapGuarantee | internal/cliui/layout.go:61-94 | the non-space characters survive in order and every line fits |
| TextParagraphs.LineEndsSeparate | internal/cliui/layout.go:61-71 | the texts before and after a line end, plain or Windows, are wrapped each on its own |
| TextParagraphs.BlankLineStays | internal/cliui/layout.go:66-71 | a line of white space stays as one empty line |
| TextParagraphs.OneParagraphLaidOut | internal/cliui/layout.go:66-89 | a text without line ends but with words becomes lines of its words' pieces in order, each with single spaces, within the width, and without room for the next line's first piece |
| TextParagraphs.WordsLaidOut | internal/cliui/layout.go:66-89 | when every word fits, the pieces are the words |
| TextParagraphs.LongWordsAreCut | internal/cliui/layout.go:96-120 | a word that does not fit is cut into parts that fill a line each, but for the last |
| MarkedText.CountSeam | internal/codexsetup/setup.go:439-445 | marker counts add up across a line end or the start of a block |
| MarkedText.BlockLocated | internal/codexsetup/setup.go:446-451 | a block between marker-free texts is counted once and found where it stands |
| MarkedText.OutsideIsClean | internal/codexsetup/setup.go:439-451 | one marker of each kind around a block leaves none outside |
| Quoting.QuoteRoundTrip | internal/codexsetup/setup.go:493-499 | whatever characters are printable, unquoting recovers every quoted string, which holds no newline |
| Quoting.JsonReadsArray | internal/codexsetup/setup.go:476-479 | a printed argument list is read back whole exactly when no element holds a control character that JSON escapes otherwise or an unprintable character beyond U+FFFF, and is rejected otherwise |
| ConfigFiles.EscapesSpelledOut | internal/codexsetup/setup.go:493-499 | which letter or number each other character becomes |
| ConfigFiles.HexSpelledOut | internal/codexsetup/setup.go:493-499 | the digits of such a number, in lower case |
| ConfigFiles.PlainQuoted | internal/codexsetup/setup.go:493-499 | printable text stands between its quotes as it is |
| ManagedBlock.CleanPathIsStable | internal/codexsetup/setup.go:490 | cleaning an absolute path twice is cleaning it once |
| ConfigFiles.CleanPathSpelledOut | internal/codexsetup/setup.go:490 | empty segments and single dots go, and a double dot takes the segment before it |
| ManagedBlock.ParsePrinted | internal/codexsetup/setup.go:430-491 | a printed block parses exactly when its profile path is safe for JSON, and gives back directory, profile and executable |
| ConfigFiles.ParseExactly | internal/codexsetup/setup.go:465-491 | a text reads as a block exactly when its nine lines are those of one, its directory is absolute, and it calls the portable command, or an absolute one with an absolute profile |
| ManagedBlock.UnreadableProfiles | internal/codexsetup/setup.go:430-491 | two profile paths that do not come back |
| ManagedBlock.PrintedIsFramed | internal/codexsetup/setup.go:430-434 | a printed block has its two markers and none in between |
| ConfigFiles.BlockSpelledOut | internal/codexsetup/setup.go:417-434 | the lines of a printed block, portable or not |
| ManagedBlock.ParsedIsFramed | internal/codexsetup/setup.go:465-491 | so has whatever the parser accepts |
| ConfigSplice.RestoredExactlyWhen | internal/codexsetup/setup.go:92-109 | setup then remove restores marker-free text exactly when it was empty or ended its last line, and the file with the block can still be read |
| ConfigSplice.SetupEditRemove | internal/codexsetup/setup.go:330-339 | text added after the block survives removal, exactly when the file can still be read, and a second setup changes nothing |
| ConfigSplice.UnendedNotRestored | internal/codexsetup/setup.go:99-106 | otherwise one newline stays, or the file is refused when its last line completes to a marker |
| ConfigSplice.RemoveCuts | internal/codexsetup/setup.go:330-339 | removal takes the block and at most one newline before it |
| ConfigSplice.RebindRoundTrip | internal/codexsetup/setup.go:268-287 | rebinding keeps every byte outside the block, leaves it current, and rebinding back restores the file exactly when it can still be read |
| ConfigSplice.RecognisedExactlyWhen | internal/codexsetup/setup.go:438-461 | another profile's block is recognised, and named, exactly when it serves the same directory and both profile paths are readable; anything else is refused |
| ConfigSplice.CodexFiles.Setup | internal/codexsetup/setup.go:77-116 | takes the files where ConfigFiles.SetupAppends and ConfigFiles.SetupElsewhere say, through every refusal and failure |
| ConfigSplice.FailedSetupLeavesBlockExactlyWhen | internal/codexsetup/setup.go:92-116 | a failed setup leaves the new block behind exactly when the file had none, could be read and written, and held no table of that name |
| ConfigSplice.CodexFiles.Rebind | internal/codexsetup/setup.go:243-315 | takes the files where ConfigFiles.RebindingTold and ConfigFiles.RebindingElsewhere say, through every failure of naming, capturing, writing, inspecting and restoring |
| ConfigSplice.FailureRestoresExactlyWhen | internal/codexsetup/setup.go:238-309 | where files can be put back, a failed rebind leaves the hooks alone, and both files as they were exactly when it is not an adopt-only run that found another profile's block, could rewrite it and could not inspect the hooks; then the block is the new one |
| ConfigSplice.HalfReboundWitness | internal/codexsetup/setup.go:290-298 | such a file and run |
| ConfigSplice.CodexFiles.Remove | internal/codexsetup/setup.go:317-348 | takes the files where ConfigFiles.RemovalTold and ConfigFiles.RemovalElsewhere say |
| ConfigFiles.InspectExactly | internal/codexsetup/setup.go:438-461 | a text is unmanaged exactly when it holds no marker, current exactly when it is the block between marker-free texts, another profile's exactly when it is a block for the same directory between such texts, and refused otherwise |
| ConfigFiles.RemovalTold | internal/codexsetup/setup.go:317-348 | removal leaves what stood before the block, less one of two newlines, and what stood behind it, and the hooks; it changes nothing where the file is over a mebibyte or cannot be written |
| ConfigFiles.RemovalElsewhere | internal/codexsetup/setup.go:317-348 | any other file it leaves alone, with success exactly when the hooks can be named and the file is missing, marker-free or another profile's |
| ConfigFiles.SetupAppends | internal/codexsetup/setup.go:92-116 | on a marker-free file setup appends a blank line and the block and then installs the hooks, unless a table of that name stands there or the file cannot be written |
| ConfigFiles.SetupElsewhere | internal/codexsetup/setup.go:77-116 | with the block in place it installs the hooks only, and any other file it refuses and leaves alone |
| ConfigFiles.SetupThenRemoval | internal/codexsetup/setup.go:92-348 | setup and then removal give a marker-free file that ended its last line back, with the hooks installed, if the file with the block can still be read |
| ConfigFiles.RebindingTold | internal/codexsetup/setup.go:243-315 | rebinding another profile's block puts the expected one in its place between what stood around it, and leaves the hooks the call left; if that call fails each file is put back or is what the failed restore left |
| ConfigFiles.RebindingElsewhere | internal/codexsetup/setup.go:243-315 | elsewhere only a full run on a marker-free file writes the block; a current file follows the hooks, and any other is refused |
| Contracts.FilterInPlace | internal/contract/contract.go:105-112 | the front of the buffer holds exactly the undenied symbols, in order |
| Contracts.KeptExactly | internal/contract/contract.go:105-112 | the gate keeps every undenied symbol as often as it was there, and no denied one |
| Contracts.OrderIsIrrelevant | internal/contract/contract.go:105-141 | reordering declarations changes neither the published keys nor the hashed text, whichever sort is used and even where the bound cuts |
| Contracts.PreimageDetermines | internal/contract/contract.go:135-141 | for newline-free names and full-length hashes the hashed text determines the list of names and hashes |
| Contracts.NewlineCollision | internal/contract/contract.go:135-141 | over arbitrary lists, a name with a newline imitates any two symbols |
| Contracts.SharedTextExactlyWhen | internal/contract/contract.go:113-141 | over arbitrary sorted and bounded lists, the text of a newline-free one is also that of another exactly when it has two symbols or more |
| Contracts.NamesAreNewlineFree | internal/contract/golang.go:47-163 | every extracted name, be it declared, qualified or the printed form of an embedded type, is a single line |
| Contracts.ExtractedDetermines | internal/contract/typescript.go:417-437 | so the text hashed determines the names and hashes of whatever was extracted, TypeScript names included |
| Contracts.FileContractText | internal/contract/contract.go:135-141 | the loop feeds the digest exactly the pre-image |
| Contracts.Extract | internal/contract/contract.go:105-128 | publishes a bounded sorting of the kept symbols and the text of its own hash |
| ContractText.PublishedExactly | internal/contract/contract.go:105-128 | what is published is the first two hundred undenied symbols by name, kind and hash in byte order, or all if fewer, each as often as found, and what is left out precedes none of them |
| ContractText.TextSpelledOut | internal/contract/contract.go:135-141 | the hashed text has a line per symbol: its name, a colon, its signature's hash |
| Contracts.NormalizeIsStable | internal/contract/contract.go:153-161 | a normalised signature is single-spaced, within the bound, and normalising it again changes nothing |
| Contracts.SameSignatureExactlyWhen | internal/contract/contract.go:150-161 | unless the bound cuts, signatures agree exactly when the declarations have the same words |
| ContractText.SignatureTold | internal/contract/contract.go:150-161 | a signature keeps its words in order up to five hundred characters, and beyond keeps 499 of them and an ellipsis |
| Registry.EveryRunIsConsistent | internal/config/config.go:203-355 | any run of operations that binds only to known backends keeps identifiers unique, every Project on a known backend, every repository on a known Project, and none registered twice |
| Registry.RegisterKeeps | internal/app/app.go:1945-1980 | a successful registration keeps all of that |
| Registry.EveryWorkspaceResolves | internal/config/config.go:170-184 | in a consistent registry every repository resolves to the one backend its Project names |
| Registry.RemoveBackendCascade | internal/config/config.go:328-355 | removing a backend clears exactly the repositories that published to it, and the others publish where they did |
| Registry.RemoveProjectCascade | internal/config/config.go:303-323 | removing a Project clears exactly its repositories, and the others publish where they did |
| Collections.FilterInOrder | internal/config/config.go:303-355 | what a removal keeps stays in order |
| Registry.RebindMovesOne | internal/config/config.go:260-280 | moving a Project moves its own repositories and no others |
| Registry.MigratedExactlyWhen | internal/config/config.go:124-135 | a migrated version 1 profile resolves every repository to its one backend exactly when it has an origin, a device and a Project for each |
| Registry.FoundByOriginExactlyWhen | internal/config/config.go:112-155 | in any registry, a backend just enrolled is what its origin finds exactly when one cleaning of the origin suffices |
| Registry.InnerSpaceIsLost | internal/config/config.go:117-119 | an origin with a space before its last slash needs two |
| RegistryEffects.CanonicalTold | internal/config/config.go:117-119 | cleaning an origin takes white space off both ends and then all slashes off the end |
| RegistryEffects.UpsertTold | internal/config/config.go:203-226 | enrolling succeeds exactly with an origin, a device, and no other device recorded under the same identifier; its record replaces the one of that identifier and nothing else changes |
| RegistryEffects.BindTold | internal/config/config.go:231-245 | binding sets one Project's backend, if both are named |
| RegistryEffects.RebindTold | internal/config/config.go:260-280 | moving succeeds exactly for a Project known to be on another backend and a known backend, and moves that Project only |
| RegistryEffects.RemovalsTold | internal/config/config.go:303-355 | the records that a removal keeps |
| RegistryEffects.RegisterTold | internal/app/app.go:1945-1980 | registration succeeds exactly when the repository names a Project, the origin can be enrolled, the Project is on no other backend, and neither identifier nor directory is taken; the repository comes last and publishes to that backend |
| RegistryService.UpsertBackend | internal/config/config.go:203-226 | the loop computes the specified upsert, and the record returned is the one found |
| RegistryService.BindProject | internal/config/config.go:231-245 | the loop computes the specified binding |
| RegistryService.RebindProject | internal/config/config.go:260-280 | the loop computes the specified move, with its four refusals |
| RegistryService.ForgetProject | internal/config/config.go:303-323 | the loops compute the specified removal and return exactly the cleared repositories, in order |
| RegistryService.ForgetBackend | internal/config/config.go:328-355 | the loops compute the specified cascade and count what it cleared |

## Left out

- Sha256Hex.Sha256Of: states the digest only for messages whose bit length plus 64 is below 2^31, because the code's signed shifts go wrong beyond it.
- Sha256Hex.PackAndPad: has the same bound, for the same reason.
- PublishService.PublishQueue.Quarantine: does not model the retention and deletion of rows, nor the rows dropped when a repository is unregistered or rebound.
- PublishService.PublishQueue.Ack: does not model the per-workspace cursor of the last acknowledged sequence.
- EditDistance.Suggest: requires that no command name is empty, which holds of the fixed catalogue; the code uses the empty name to mean none yet.
- EmbeddingMigration.MigrationExactly: takes the scope's model and the objects as fixed during the pass, and the writes of others as finite and harmless; EmbeddingSwitches drops all but the last of these.
- EmbeddingSwitches.LastSwitchConverges: concerns one scope; a pass of another scope that moves a row into this one under its own key is the case of EmbeddingMigration.StrayKey.
- Contracts.Extract: models the library sort by an insertion sort; Contracts.OrderIsIrrelevant covers any sort.
- ManagedBlock.ParsedIsFramed: the reader also accepts octal and high hexadecimal escapes, raw strings and character literals, and JSON accepts null elements, all of which only a hand-edited block could hold and which the model rejects.
- ManifestSharing.SharedExactlyWhen: is exact without renames and copies only; with them an old path can swallow fields too.
- ConfigSplice.CodexFiles.Setup: starts after the adoption of abandoned bindings, which depends on what is on disk, and takes the outcome of each hook-file call and of each write as given, as do the other two methods.
- Registry.RegisterKeeps: takes the repository root as already resolved and reduces the identifier patterns to a nonempty Project.
- Utf8.EncodeIsInjective: text is a sequence of code points; JavaScript strings may hold lone surrogates, which its encoder maps to one replacement, so manifests that differ only there hash alike.
- Manifests.CompareUtf8: the same; strings that differ only in lone surrogates compare as equal.
- Manifests.SamePreimageSameEntries: the same for its statement about bytes.
- JavaScript's UTF-16 indexing and Go's handling of invalid UTF-8 are not modelled.
- The brief is whatever the backend sends; that it holds the right corrections is outside this model.
- Time, jitter, back-off between passes, publish-error reporting and restarting the loopback backend.
- A manifest's symbols and dependencies, which are not hashed, and the other upper bounds on its fields.
- Language extractors: contract fingerprints start from an arbitrary list of symbols.
- SHA-256's collision resistance: claims about hashes are stated on what is hashed, and backend identifiers for an arbitrary digest.
- Installing hooks, trust reports, credentials, transcripts, the desktop shell, the command line's help text and the remaining service calls: input, output and formatting that would only add easy members.
