# Verification portal: a model of its protocols

A Dafny model of the stateful parts of the biometric verification portal, with proofs about whole runs.
The database is modelled as maps and sets; every SQL statement, or explicit transaction, is one step;
a handler that reads and later writes is a call in flight, and any number of calls may interleave.
Where the source updates something in place, a class does too, and its methods are proved against the
same step functions the run theorems are about.

| module | what it models |
|---|---|
| `RegisterLimiter` | the sliding-window limiter behind every rate limit, with its map, in-place compaction, prune and soft cap |
| `WalletCredit` | payment webhooks, the browser's verify call, charges and manual credits on one ledger |
| `OperatorStreak` | the three-denials lockout of a verification agent and who may lift it |
| `Applications`, `Registration`, `KycLifecycle` | the application table, new registrations, and every writer of an application's status |
| `OrgProvisioning` | creating the organisation and its admin from both planes |
| `SubscriptionTables`, `BulkDecisions`, `SubscriptionRuns` | exam subscriptions, grants, operator assignments, bulk and CSV decisions |
| `DelimiterSniff` | the CSV delimiter guess |
| `BlinkDetector` | the frame loop of the face guide |
| `HistoryPaging` | cursor paging over an operator's verifications |
| `BiometricIndex` | the in-memory biometric flags against the disk scan and the database |
| `DownloadCache` | the shared hash cache and the choice of install bundle |
| `FingerprintRecord` | the fingerprint record parser and the uncompressed preview |
| `Wrappers`, `Text` | an option type and ASCII text helpers |

## Where the code keeps less than its comments promise

The model follows the code. Each entry names the
lemmas: the exact condition, over every step or run, and where it helps a concrete run.

- An automatic lock is said to yield only to a superadmin or reviewer. A manual disable overwrites the reason, after
  which the institute's own enable works: `LockEscapesExactlyBy`.
- The lockout mail is meant to go out once. It also goes out when the guarded update hit no row: `MailWithoutTrip`,
  `MailsCountLocksExactly`, `TwoMailsOneLock`.
- `PATCH` of a rejected application is said to refuse values another row owns. The indexes leave drafts out:
  `PatchKeepsUniqueExactly`, over runs `KeysStayUniqueExactly`, `PatchTakesADraftsEmail`.
- `rejectApplication` ignores its row count and can answer "rejected" for an application that is approved or gone:
  `RejectAnswerIsTrueExactly`, `BothDecisionsReported`.
- A mode change is meant to move the pending applications to the new mode's queue. Its sweep is a second statement, and
  two mode changes can cross: `SweepQueuesExactly`, `CrossedSweeps`.
- A submit reconcile that arrives after the decision does not record the Control Plane id: `EpochSettles`.
- An organisation's application link is emptied when a new registration replaces the application
  (`ON DELETE SET NULL`): `LinkChangesExactly`, `LinkHoldsExactly`, `RelinkedAfterDeletion`.
- The precheck before provisioning is meant to keep an organisation to one admin. It gets a second one exactly when a
  transaction commits whose precheck found nobody and by then there is an admin: `OneAdminExactly`, over runs
  `OneAdminExactlyIfNoneOvertaken`, without interleaving `SerialSecondAdminExactly`, and `TwoPayloadsTwoAdmins`.
- Retries of one provisioning message are meant to get the same ids. After the admin's deletion they get another's:
  `RetriesAgreeExactly`, `DroppedMeansNewId`.
- A debit of the system or of a deleted user is meant to go through uncounted. The ledger's foreign key on the actor
  refuses both, and the debit is rolled back: `DebitLandsExactly`, `UnknownActorsNeverCharge`.
- An operator is meant never to spend past the cap; a PATCH may set it below what is spent: `CapsHoldExactly`.
- Deleting a user is said to clear only nullable references. An order's actor is not nullable, so a user who once created
  an order cannot be deleted: `PayersAreNeverDeleted`.
- The comment in `setOperatorExams` allows several exams per operator; the later migration's unique index allows
  one: `SetExamsExactly`.
- Reject, reset, a stale access request and a stale upload can leave an operator on an exam without an approved
  subscription: `NextKeepsExactly`, `StaleRequestUnbacks`.
- A granted organisation is meant to be approved for every exam its client creates from then on. Exams from a CSV have
  no fan-out and a failed fan-out is only logged: `NewExamReachesExactly`, `CsvExamMissesGrants`.
- A CSV of decisions needs no header row, and codes may have the stored form "AISHE_...". Such a code in the first record
  is taken for a header, and its decision is lost: `FirstRecordDroppedExactly`, `StoredCodeTakenForHeader`.
- Blanket approval of a rejected or revoked row answers "approved" and leaves the row: `BlanketClickAnswersTrueExactly`.
- Rebuilding the index after a single upload forgets flags only the database has: `ScannedSyncedExactly`, over runs of
  all uploads `SyncedExactlyIfNeverParted`, `RefreshForgetsUploads`.
- A file whose content changes between its stat and its read leaves a wrong hash in the cache: `NextSoundExactly`,
  over runs `SoundExactlyIfUnchanged`, `LateReadPoisons`.

## Model

| member | source | states |
|---|---|---|
| RegisterLimiter.WindowBound | backend/internal/api/onboarding_register_handlers.go:137-169 | in any log the limiter can produce, one key's admissions in any window are at most max times one plus its evictions in that window |
| RegisterLimiter.EvictionAdmitsMore | backend/internal/api/onboarding_register_handlers.go:137-169 | the factor is needed: one eviction lets a second request through a limit of one |
| RegisterLimiter.NoEvictionExact | backend/internal/api/onboarding_register_handlers.go:137-169 | without evictions in the window the live stamps are exactly the logged admissions |
| RegisterLimiter.PlainLogVerdict | backend/internal/api/onboarding_register_handlers.go:137-169 | so the verdict is that of a limiter that keeps a plain log of all admissions |
| RegisterLimiter.CompactInPlace | backend/internal/api/onboarding_register_handlers.go:143-149 | overwriting the slice while reading it leaves exactly the stamps later than the cutoff, in order |
| RegisterLimiter.Limiter.Allow | backend/internal/api/onboarding_register_handlers.go:137-169 | admits exactly when fewer than max stamps are live in the window, logs what it admitted and evicted, and keeps the map in agreement with the log |
| RegisterLimiter.Limiter.PruneExpired | backend/internal/api/onboarding_register_handlers.go:175-190 | the background prune changes no future verdict: map and log still agree |
| RegisterLimiter.LatestStamp | backend/internal/api/onboarding_register_handlers.go:180-185 | the prune loop finds the latest stamp, or the zero time |
| WalletCredit.RunKeepsSound | backend/internal/api/razorpay_webhook.go:127-221 | over every interleaving of deliveries, browser calls, charges, PATCHes, deletions and faults: at most one ledger row per payment, at most one fresh "credited" per payment, "credited" or "replayed" only with the row in place, and orders only name users and organisations there are |
| WalletCredit.BalanceIsOrderAmounts | backend/internal/api/razorpay_webhook.go:127-221 | a balance moves by the order amounts of the payments credited, never the webhook's amounts, plus charges and manual credits |
| WalletCredit.RedeliveryIsHarmless | backend/internal/api/razorpay_webhook.go:186-221 | a delivery that loses the race changes nothing and recovers to "replayed" |
| WalletCredit.DeliveryLands | backend/internal/api/razorpay_webhook.go:127-221 | a well-formed delivery for a known order ends with the payment in the ledger and the balance moved by the order's amount unless it was there before |
| WalletCredit.CreditKeepsSound | backend/internal/wallet/wallet.go:346-409 | on sound books a credit appends exactly one row with its amount and moves the balance by it, for a payment not there before, or moves nothing; a refused duplicate has its row already |
| WalletCredit.CreditPostsExactly | backend/internal/wallet/wallet.go:346-409 | on any books it commits exactly for a positive amount, an existing organisation and an unseen payment; no other balance, order or user changes |
| WalletCredit.BrowserStepIsSound | backend/internal/api/wallet_handlers.go:433-560 | each step of the competing browser call keeps the same invariants; "credited" and "replayed" only for a payment of the caller's own organisation |
| WalletCredit.BrowserAnswersExactly | backend/internal/api/wallet_handlers.go:433-560 | alone, a browser call is credited exactly if its signature verifies, its order is known and its own organisation's, and the payment is new; "replayed" and "forbidden" under their exact conditions; no other answer moves anything |
| WalletCredit.DeliveryAnswersExactly | backend/internal/api/razorpay_webhook.go:127-221 | alone, a delivery gets each of its answers exactly under that answer's condition, and only "credited" moves anything |
| WalletCredit.FalseCallsMoveNothing | backend/internal/api/wallet_handlers.go:502-508 | at every step, an unsigned browser call or an uncaptured delivery moves nothing and is never answered "credited" |
| WalletCredit.DepositsAreVouchedFor | backend/internal/api/wallet_handlers.go:464-511 | over every run, each deposit added was asked for by a captured delivery or a signed browser call of the run, for that payment and that order and, from the browser, by the organisation it goes to |
| WalletCredit.ServedAtOnce | backend/internal/api/razorpay_webhook.go:127-221 | in any run, a request that arrives and is served at once gets exactly the answer and books of the lone handler, and no other call moves |
| WalletCredit.FailuresMoveNothing | backend/internal/api/razorpay_webhook.go:141-221 | a failed read or write moves nothing, is never reported a success, and after a failed credit leads to the last look |
| WalletCredit.LostAnswersAreRechecked | backend/internal/api/razorpay_webhook.go:186-203 | a lost answer is never reported a success; a credit whose answer is lost is looked up again |
| WalletCredit.RecoversExactly | backend/internal/api/wallet_handlers.go:519-534 | the last look answers "replayed" exactly if the payment is in the ledger, from the browser for its own organisation |
| WalletCredit.DebitKeepsSound | backend/internal/wallet/wallet.go:199-330 | charges keep balances equal to the ledger sums and never negative |
| WalletCredit.DebitLandsExactly | backend/internal/wallet/wallet.go:199-330 | in a run a charge lands exactly when the balance covers it, the actor is a user and the actor's cap covers it, and then moves balance, ledger and counter together; otherwise nothing moves |
| WalletCredit.UnknownActorsNeverCharge | backend/internal/db/schema.sql:275 | so a debit of the system or of a deleted user, which the code means to let through uncounted, never lands |
| WalletCredit.CapsHoldExactly | backend/internal/api/admin_operators_v2_handlers.go:1174-1191 | over every run of charges, credits, PATCHes and deletions nobody is past the cap at any time exactly when no PATCH sets one below what is already spent without resetting that |
| WalletCredit.AccountsWrite | backend/internal/api/admin_operators_v2_handlers.go:1174-1191 | a new user starts at zero under the given cap; a PATCH resets the counter only when asked to, keeps, clears or sets the cap, and touches nobody else |
| WalletCredit.ParametersTakeEffect | backend/internal/wallet/orders.go:56-70 | an order is stored exactly for known parties, a positive amount and a new id, and kept as it was; a manual credit lands exactly for a known organisation |
| WalletCredit.PayersAreNeverDeleted | backend/internal/db/schema.sql:295 | a user who created an order stays over every run; the deletion succeeds exactly for users who created none |
| WalletCredit.Store.Debit | backend/internal/wallet/wallet.go:199-330 | the transaction, rolled back when the ledger refuses the actor or the cap refuses the amount; "charged" exactly under the condition above |
| WalletCredit.Store.FindByPaymentId | backend/internal/wallet/wallet.go:414-448 | finds a row exactly when the payment is in the ledger |
| WalletCredit.Store.CreditWallet | backend/internal/wallet/wallet.go:346-409 | the balance update is rolled back when the unique index refuses the row |
| WalletCredit.Store.HandlePaymentCaptured | backend/internal/api/razorpay_webhook.go:127-221 | the handler run alone is the step machine the run theorems speak of |
| OperatorStreak.RunKeepsBounded | backend/internal/api/operator_streak_handlers.go:53-122 | with any number of half-done denies in flight the counter never passes three, nor two while the account is enabled |
| OperatorStreak.SerialCounts | backend/internal/api/operator_streak_handlers.go:53-122 | one request at a time, the counter is the denies since the last approve or enable, the lock comes exactly on the third, and there is one mail per lock |
| OperatorStreak.LockLiftedOnlyByEntitled | backend/internal/api/operator_streak_handlers.go:271-282 | one step lifts an automatic lock exactly when it is a superadmin's or in-scope reviewer's enable, which zeroes the counter |
| OperatorStreak.LockHolds | backend/internal/api/admin_operators_v2_handlers.go:1327-1372 | no sequence of verdicts, stale writes and institute enables lifts an automatic lock |
| OperatorStreak.LockEscapesExactlyBy | backend/internal/api/admin_operators_v2_handlers.go:1327-1372 | without an entitled enable the account opens exactly in runs where a manual disable is followed by an institute enable |
| OperatorStreak.OpensExactly | backend/internal/api/operator_streak_handlers.go:421-462 | a disabled account, whatever the reason, opens exactly by an entitled enable or, after a manual disable, by the institute's own, and then starts afresh |
| OperatorStreak.ClosesExactly | backend/internal/api/operator_streak_handlers.go:53-122 | an enabled account closes exactly by a manual disable or the write of a third deny, each with its own reason |
| OperatorStreak.LostWritesNothing | backend/internal/api/operator_streak_handlers.go:53-122 | a deny whose write never happens changes nothing but the denies in flight |
| OperatorStreak.MailWithoutTrip | backend/internal/api/operator_streak_handlers.go:93-122 | a step mails exactly when it trips the lock or writes a third deny that was read before another writer disabled the row |
| OperatorStreak.MailsCountLocksExactly | backend/internal/api/operator_streak_handlers.go:93-122 | over every run there are as many mails as locks exactly when there was no such late write, and more otherwise |
| OperatorStreak.TwoMailsOneLock | backend/internal/api/operator_streak_handlers.go:96-122 | a run with one lock and two mails |
| OperatorStreak.AgentRow.Bump | backend/internal/api/operator_streak_handlers.go:53-122 | the uninterrupted handler is the serial step, and mails exactly on the third deny of an enabled account |
| OperatorStreak.AgentRow.SetDisabled | backend/internal/api/admin_operators_v2_handlers.go:1315-1378 | answers "auto-locked" exactly for an enable of an automatic lock, and touches no other organisation's agent |
| OperatorStreak.AgentRow.Enable | backend/internal/api/operator_streak_handlers.go:421-462 | lifts exactly for a superadmin or a reviewer whose client approved the agent's organisation |
| Applications.PutSameIdentity | backend/internal/db/migrate.go:838-866 | on a table with no shared identity no status change is refused by an index |
| Applications.ClashExactly | backend/internal/db/migrate.go:838-863 | absent values never clash; any shared value does, but in the indexes a draft's only by its AISHE code |
| Registration.ApplicationTable.RegisterInit | backend/internal/api/onboarding_register_handlers.go:543-753 | a refusal changes nothing; a success has all four values present and no enabled user with the e-mail, removes only clashing rows that are draft or rejected, keeps every live row, and adds one draft with the request's identity and board |
| Registration.RegisterKeepsUnique | backend/internal/api/onboarding_register_handlers.go:543-753 | registration keeps the four keys unique over all rows and never deletes an approved or pending row |
| Registration.FreeIdentity | backend/internal/api/onboarding_register_handlers.go:543-700 | the four delete-or-refuse checks in order remove exactly the clashing rows, or refuse because a live row clashes or an enabled user has the e-mail |
| Registration.PatchKeepsUniqueExactly | backend/internal/api/admin_kyc_resubmit_handlers.go:287-311 | PATCH keeps all keys unique exactly when no draft is party to a shared value or an index refuses anyway |
| Registration.PatchTakesADraftsEmail | backend/internal/api/admin_kyc_resubmit_handlers.go:291-311 | a rejected applicant takes a draft's e-mail |
| KycLifecycle.KeysStayUniqueExactly | backend/internal/api/onboarding_register_handlers.go:543-753 | over every run of registrations and all status writers, no two applications share an identity value exactly when no PATCH slips past the indexes |
| KycLifecycle.ApprovedAbsorbs | backend/internal/api/application_review_shared.go:280-307 | over every run of all status writers an approved application stays approved and is never deleted |
| KycLifecycle.RejectedLeavesOnlyBy | backend/internal/api/admin_kyc_resubmit_handlers.go:485-497 | the only ways out of rejected are a resubmission's write, a revoke, and replacement by a registration |
| KycLifecycle.RejectedPersists | backend/internal/api/internal_handlers.go:1447-1456 | so in a run without those three a rejected application stays rejected |
| KycLifecycle.StatusMovesOnlyBy | backend/internal/api/application_review_shared.go:280-307 | of all status changes only six happen, each by its own cause: which submit, delivery, reviewer's write, revoke or resubmission |
| KycLifecycle.ReviewersStayOnTheirBoard | backend/internal/api/application_review_shared.go:417-448 | over every run no statement of a reviewer of one board changes a row of another, nor does any such call report success for one, whatever happens between its reads and its write |
| KycLifecycle.FlipAnswersExactly | backend/internal/api/application_review_shared.go:280-307 | the guarded flip succeeds exactly for a row still pending and on the reviewer's board; who lost the race changes nothing and gets the right refusal |
| KycLifecycle.RefusesExactly | backend/internal/api/application_review_shared.go:229-268 | which refusal the reads give, in order: the portal, the row, its board, its status |
| KycLifecycle.ServedAtOnce | backend/internal/api/application_review_shared.go:229-307 | in any run, a call that arrives and is served at once does what the lone handler does, and no other call moves |
| KycLifecycle.RegistersExactly | backend/internal/api/onboarding_register_handlers.go:543-753 | in a run, a registration succeeds exactly if the four values are there, no enabled user has the e-mail and no live application clashes; the clashing rows give way to one draft of the request |
| KycLifecycle.RowsLeaveOnlyBy | backend/internal/api/onboarding_register_handlers.go:543-720 | a row disappears only when a registration sharing a value with it replaces it, and never while pending or approved |
| KycLifecycle.RevokeReopens | backend/internal/api/internal_handlers.go:1434-1462 | a revoke puts a rejected row back to pending in the client's queue, and touches no other row |
| KycLifecycle.DeliveryCloses | backend/internal/api/internal_handlers.go:1350-1416 | a Control Plane decision closes a pending row as decided, keeps an earlier note if it brings none, and touches no other row |
| KycLifecycle.BadNumbersDoNothing | backend/internal/api/internal_handlers.go:1440-1443 | a delivery without a positive application number does nothing |
| KycLifecycle.CallsEndOnce | backend/internal/api/application_review_shared.go:229-307 | an ended call stays as it is, and a failing one touches neither the table nor another call |
| KycLifecycle.SweepQueuesExactly | backend/internal/api/superadmin_exam_catalog_handlers.go:287-329 | the sweep after a mode change puts all the board's pending rows, and no other, where a resubmission would now be sent exactly if the board's mode still sends them to the queue swept into |
| KycLifecycle.CrossedSweeps | backend/internal/api/superadmin_exam_catalog_handlers.go:287-329 | a concrete run: two mode changes whose sweeps cross leave the rows in the other queue |
| KycLifecycle.ResubmitAnswersExactly | backend/internal/api/admin_kyc_resubmit_handlers.go:435-500 | alone, a resubmission goes through exactly for a rejected row with its documents on file; the row is then pending, in the client's queue exactly if its board reviews alone |
| KycLifecycle.SuperRejectAnswersExactly | backend/internal/api/onboarding_review_handlers.go:659-708 | alone, a superadmin rejects exactly a pending row of a board that does not review alone, with a note |
| KycLifecycle.AtMostOneApproval | backend/internal/api/application_review_shared.go:280-307 | however approvals interleave, at most one call per application reports success, and then the row is approved |
| KycLifecycle.RejectAnswerIsTrueExactly | backend/internal/api/application_review_shared.go:433-448 | a reject that passed its reads answers "rejected" always, and truly exactly when the row is still there and was pending or rejected at the write |
| KycLifecycle.BothDecisionsReported | backend/internal/api/application_review_shared.go:433-448 | an approve and a reject that both report success |
| KycLifecycle.TwoStageNeedsTheClient | backend/internal/api/onboarding_review_handlers.go:459-497 | repeated superadmin approvals of a two-stage application never by themselves reach approved |
| KycLifecycle.EpochSettles | backend/internal/api/reverse_proxy_kyc.go:267-284 | within one decision epoch, whatever happens to other applications, once a delivery has landed the status is that decision for good, whatever duplicates and late reconciles follow; the recorded Control Plane id is that of the last reconcile before it |
| KycLifecycle.EpochStep | backend/internal/api/internal_handlers.go:1350-1416 | what each reconcile, delivery and foreign action does to the row's status and id in the epoch |
| KycLifecycle.ReviewDesk.ApproveApplication | backend/internal/api/application_review_shared.go:229-307 | approves exactly a pending row, by a superadmin or by its own board's reviewer while the portal is on, if provisioning succeeds; writes only that row; the uninterrupted handler is the three-statement call of the run theorems |
| KycLifecycle.ReviewDesk.RejectApplication | backend/internal/api/application_review_shared.go:392-448 | rejects under the same condition and with a note; a row of another board is never changed or answered "rejected" |
| KycLifecycle.ReviewDesk.SuperadminApprove | backend/internal/api/onboarding_review_handlers.go:459-530 | a two-stage board's row keeps its status and is handed to the client's queue exactly when pending and not there yet; any other row gets the full approval |
| OrgProvisioning.SlugIsAUsername | backend/internal/api/onboarding_review_handlers.go:710-729 | any name gives one to 32 characters of a-z, 0-9 and underscore, not starting with an underscore |
| OrgProvisioning.SlugKeepsSlugs | backend/internal/api/onboarding_review_handlers.go:710-729 | a name that is such a text already stays as it is |
| OrgProvisioning.SlugIgnoresCase | backend/internal/api/onboarding_review_handlers.go:710-729 | case does not matter, anywhere in the name |
| OrgProvisioning.SlugJoinsWords | backend/internal/api/onboarding_review_handlers.go:710-729 | blanks and dashes count as underscores |
| OrgProvisioning.SlugDropsOthers | backend/internal/api/onboarding_review_handlers.go:710-729 | any other character counts as nothing |
| OrgProvisioning.SlugTrims | backend/internal/api/onboarding_review_handlers.go:710-729 | underscores at either end do not matter |
| OrgProvisioning.WhatIsThereExactly | backend/internal/api/internal_handlers.go:829-896 | applications, clients and users are there after a step exactly as the actions named after them and the commits say |
| OrgProvisioning.CallsAdvance | backend/internal/api/internal_handlers.go:253-389 | no call changes its payload, goes back or is answered twice; a precheck misses exactly if nobody is there |
| OrgProvisioning.OneAdminExactly | backend/internal/api/internal_handlers.go:253-389 | over all payloads and both paths, one step gives an organisation a second admin exactly when a transaction the database accepts (its link is to an existing application, its user name free, its client known) had a precheck that found nobody and an admin is there by then |
| OrgProvisioning.OneAdminExactlyIfNoneOvertaken | backend/internal/api/application_review_shared.go:79-177 | over every run of messages and local calls an organisation keeps one admin throughout exactly when there is no such commit |
| OrgProvisioning.SerialSecondAdminExactly | backend/internal/api/application_review_shared.go:79-177 | without interleaving only a local call can add a second admin, exactly when the organisation of its code has one under another link and the database accepts the call |
| OrgProvisioning.SoleAdminExactly | backend/internal/api/internal_handlers.go:356-379 | a payload's admin stays the only one exactly until a call with another user name commits for its code |
| OrgProvisioning.RetriesAgreeExactly | backend/internal/api/internal_handlers.go:253-389 | retries of one payload, interleaved with calls for other organisations and deletions of users, clients and applications, never produce a second admin, and all successful answers carry its ids throughout exactly when that admin is never deleted after an answer |
| OrgProvisioning.SameIds | backend/internal/api/internal_handlers.go:253-389 | while they agree, any two successful answers for one payload carry the same organisation, user and username |
| OrgProvisioning.DroppedMeansNewId | backend/internal/api/internal_handlers.go:829-896 | a concrete run: the admin is deleted between two messages and the second answer has another user id |
| OrgProvisioning.LinkHoldsExactly | backend/internal/api/application_review_shared.go:129-145 | across all calls of both planes a set application link holds throughout exactly when its application row is never deleted |
| OrgProvisioning.LinkChangesExactly | backend/internal/db/migrate.go:838-841 | a set link changes exactly when its application is deleted; an organisation's id never |
| OrgProvisioning.RunLinksLive | backend/internal/db/migrate.go:838-841 | over every run no organisation is linked to an application that is not there |
| OrgProvisioning.RelinkedAfterDeletion | backend/internal/db/migrate.go:838-841 | after that deletion the next call links the organisation to another application |
| OrgProvisioning.TwoPayloadsTwoAdmins | backend/internal/api/internal_handlers.go:253-389 | a concrete run: two payloads with one AISHE code, both past the precheck, whatever their e-mails |
| OrgProvisioning.LocalRetryAnswersExactly | backend/internal/api/application_review_shared.go:79-177 | after a local call a retry finds the admin exactly when the organisation carries this application's link |
| OrgProvisioning.GrantsExactly | backend/internal/api/internal_handlers.go:392-434 | after any step an organisation has a client's grant exactly if the step commits a payload naming the client for it, or it had the grant and the client was not deleted |
| OrgProvisioning.GrantHoldsExactly | backend/internal/db/schema.sql:202-211 | a grant holds throughout a run exactly if its client is never deleted |
| OrgProvisioning.GrantsComeFromCommits | backend/internal/api/internal_handlers.go:392-434 | over every run a grant comes only from a committed payload that named its client |
| OrgProvisioning.TransactionAnswersExactly | backend/internal/api/internal_handlers.go:307-439 | the transaction is refused exactly for a link to be written to a missing application, a taken user name or a missing client, each with its answer; it changes something exactly when it succeeds |
| OrgProvisioning.ServedExactly | backend/internal/api/internal_handlers.go:253-439 | in any run, a call served at once is answered by an admin that is there, or does its transaction unless it is broken, and is told so unless the answer is lost |
| OrgProvisioning.Provisioner.Provision | backend/internal/api/internal_handlers.go:253-439 | answers from an existing admin without touching anything, or commits organisation, admin and grant together, or changes nothing, as for a link to an unknown application |
| OrgProvisioning.FreshIsSettled | backend/internal/api/internal_handlers.go:253-389 | any desk that has not seen the payload's code or application is a start for those runs |
| OrgProvisioning.Provisioner.InternalOrgsCreate | backend/internal/api/internal_handlers.go:226-439 | a message with a missing field or a failed answer changes nothing; a fresh success adds exactly the admin with the message's e-mail and derived name, the organisation under the message's code with its name and, if it had none, the message's application link, and the client's grant; a repeated one names the admin that is there |
| OrgProvisioning.Provisioner.ProvisionOrgAndAdmin | backend/internal/api/application_review_shared.go:74-177 | an application already provisioned answers with its admin and changes nothing, even when its row is gone; otherwise "no application" exactly for a missing row; a fresh success adds exactly the admin and the organisation or its link, and no grant |
| OrgProvisioning.Provisioner.ProvisionTwice | backend/internal/api/internal_handlers.go:246-297 | a repeated message gets the first one's ids and changes nothing |
| SubscriptionTables.CountingCheck | backend/internal/api/admin_catalog_handlers.go:450-467 | the COUNT over the IN list equals its length exactly for duplicate-free lists of approved exams |
| SubscriptionTables.UploadExactly | backend/internal/api/exam_operators_handlers.go:242-319 | the upload transaction succeeds exactly when no new user is refused, no named operator holds another exam, and the exam still exists if anybody is to be linked; it then links exactly the organisation's own and new users, and otherwise changes nothing |
| SubscriptionTables.ClicksWrite | backend/internal/api/client_review_handlers.go:1074-1330 | what one click leaves in its row: approved one by one, rejected, or pending again, with the earlier kind kept by the last two; only under the client's own exams, and no other row |
| SubscriptionTables.BlanketClickWrites | backend/internal/api/client_review_handlers.go:1121-1190 | a blanket click grants the catalogue and approves exactly the organisation's pending rows under the client and the clicked row if it was missing |
| SubscriptionTables.RequestLeavesPending | backend/internal/api/admin_catalog_handlers.go:292-356 | an access request leaves its row pending, whatever it was |
| SubscriptionTables.UnsubscribeRemoves | backend/internal/api/admin_catalog_handlers.go:358-410 | an unsubscription removes the row and frees exactly the organisation's operators on the exam |
| SubscriptionRuns.NextDecidesExactly | backend/internal/api/client_review_handlers.go:1074-1650 | one step of any writer approves a row, or ends its approval, exactly when it is one of the listed rulings, fan-outs, withdrawals or deletions for it |
| SubscriptionRuns.ApprovedExactlyIfLast | backend/internal/api/client_review_handlers.go:1074-1950 | over every run a row ends up approved exactly if the last of those steps for it was an approval |
| SubscriptionRuns.RejectedExactlyBy | backend/internal/api/client_review_handlers.go:1845-2191 | a row becomes rejected exactly by its client's single or bulk rejection or by the first CSV line for its organisation |
| SubscriptionRuns.RequestServed | backend/internal/api/admin_catalog_handlers.go:238-340 | served alone, an access request changes its row exactly for an open exam with no approved or pending row yet |
| SubscriptionRuns.RevokeServed | backend/internal/api/client_review_handlers.go:1472-1574 | served alone, a revoke revokes exactly an approved row of the client's own exam |
| SubscriptionRuns.UploadServed | backend/internal/api/exam_operators_handlers.go:184-326 | served alone, an upload links exactly the organisation's named users, for an approved subscription only |
| SubscriptionRuns.ServedOnce | backend/internal/api/exam_operators_handlers.go:184-326 | a call served alone is then over, and no other call has moved |
| SubscriptionRuns.GrantsExactly | backend/internal/api/client_review_handlers.go:1121-1150 | an organisation has a client's grant after a step exactly if the step makes it, or it was there and the client is |
| SubscriptionRuns.PartiesExactly | backend/internal/api/superadmin_exam_catalog_handlers.go:340-376 | clients and organisations come and go exactly by the changes named after them; a client with exams stays |
| SubscriptionRuns.ExamsExactly | backend/internal/api/superadmin_exam_catalog_handlers.go:1077-1117 | so do exams; opening or closing changes nothing else |
| SubscriptionRuns.CatalogueKept | backend/internal/api/client_review_handlers.go:1074-2205 | no ruling, request, upload, revoke or assignment touches clients, organisations or exams |
| SubscriptionRuns.UsersExactly | backend/internal/api/internal_handlers.go:829-896 | users never change organisation; one goes only by deletion, with the assignment |
| SubscriptionRuns.NextKeepsExactly | backend/internal/api/client_review_handlers.go:1074-1650 | if every assignment is backed by an approved subscription, one step of any writer of these tables, grants, new and deleted clients, organisations, exams and users included, breaks that exactly when it is one of the named harmful steps |
| SubscriptionRuns.BackedExactlyIfHarmless | backend/internal/api/admin_catalog_handlers.go:238-482 | a run stays backed throughout exactly when none of its steps is harmful |
| SubscriptionRuns.StaleRequestUnbacks | backend/internal/api/admin_catalog_handlers.go:292-340 | an access request checked before an approval and written after an assignment leaves the operator on a pending exam |
| SubscriptionRuns.StampKeepsExactly | backend/internal/api/client_review_handlers.go:1300-1312 | reject and reset break the backing exactly when an operator of the organisation holds the exam |
| SubscriptionRuns.RevokeKeeps | backend/internal/api/client_review_handlers.go:1539-1574 | revoke, with its cascade, keeps it whatever happened since its status check |
| SubscriptionRuns.UploadKeepsExactly | backend/internal/api/exam_operators_handlers.go:198-319 | an upload keeps it exactly unless the subscription checked earlier is gone, the transaction goes through and somebody is linked |
| SubscriptionRuns.UploadAfterDeletion | backend/internal/db/schema.sql:213-217 | an upload checked before its exam was deleted links nobody, and the backing holds |
| SubscriptionRuns.SetExamsExactly | backend/internal/db/migrate.go:446-470 | with the unique index on the operator, an assignment succeeds exactly for one approved exam of the operator's own organisation |
| SubscriptionRuns.BlanketClickAnswersTrueExactly | backend/internal/api/client_review_handlers.go:1121-1190 | a blanket click leaves its row approved exactly unless it was rejected or revoked |
| SubscriptionRuns.NewExamReachesExactly | backend/internal/api/internal_handlers.go:1216-1262 | after any run an organisation is approved for the next exam exactly when its fan-out landed and the client had granted the organisation; no existing row changes |
| SubscriptionRuns.CsvExamMissesGrants | backend/internal/api/superadmin_exam_catalog_handlers.go:821-866 | an exam from a CSV reaches no granted organisation, nor does a later fan-out make up for it |
| SubscriptionRuns.RunKeyed | backend/internal/db/schema.sql:184-217 | over every run the foreign keys hold: exams on clients, subscriptions and grants on exams, clients and organisations, assignments on users and exams |
| SubscriptionRuns.RulingsStayInScope | backend/internal/api/client_review_handlers.go:1669-1806 | an approve, reject, reset, bulk or CSV ruling changes no row or grant of another client, and no assignment |
| SubscriptionRuns.RevokeStaysInScope | backend/internal/api/client_review_handlers.go:1539-1574 | the write of a revoke, whatever happened since its check: the client's own row, if still there, is revoked and keeps its kind, exactly the organisation's operators on the exam are freed, and nothing else changes |
| SubscriptionRuns.InstituteDesk.SetOperatorExams | backend/internal/api/admin_catalog_handlers.go:421-482 | delete and re-insert, rolled back when the second insert is refused |
| SubscriptionRuns.InstituteDesk.UploadExamOperators | backend/internal/api/exam_operators_handlers.go:184-326 | all or nothing, with the exact final tables, created counting exactly the new names, and the counts adding up to the file's lines |
| BulkDecisions.ReviewerDesk.UpdateReturning | backend/internal/api/client_review_handlers.go:1766-1801 | one UPDATE changes exactly the pending rows it selects and returns each once |
| BulkDecisions.ReviewerDesk.BulkDecide | backend/internal/api/client_review_handlers.go:1725-1806 | over any lists, with duplicates and non-positive ids: exactly the pending rows of the listed organisations under the client change, each listed once; a grant refused for a missing client or organisation rolls everything back |
| BulkDecisions.ReviewerDesk.BulkApprove | backend/internal/api/client_review_handlers.go:1693-1843 | exactly the listed rows become approved, with the mode's kind; the grants of a blanket approval; restricted to the listed exams only in per-exam mode with a list; fails as a whole exactly for a missing client or organisation |
| BulkDecisions.ReviewerDesk.BulkReject | backend/internal/api/client_review_handlers.go:1845-1950 | exactly the listed rows become rejected and keep their kind, with no grant; needs a note |
| BulkDecisions.BulkRunsOnce | backend/internal/api/client_review_handlers.go:1669-1690 | repeating a bulk request changes nothing and lists nothing to mail |
| BulkDecisions.BlanketClearsTheQueue | backend/internal/api/client_review_handlers.go:1751-1764 | after a blanket decision no request of a listed organisation is pending under the client, whatever exam list was sent |
| BulkDecisions.FirstLineSettles | backend/internal/api/client_review_handlers.go:2081-2191 | each pending request is settled by the first line with a recognised decision whose code, bare or prefixed, resolves to its organisation; nothing else changes |
| BulkDecisions.LaterLinesReportNothing | backend/internal/api/client_review_handlers.go:2168-2185 | later lines for the same organisation report zero and are skipped |
| BulkDecisions.CountsMatchTheQueue | backend/internal/api/client_review_handlers.go:2168-2185 | the per-line counts add up to the requests that left pending |
| BulkDecisions.DecisionTokens | backend/internal/api/client_review_handlers.go:2219-2227 | which tokens approve and which reject, in any case and with blanks around them |
| BulkDecisions.LineReads | backend/internal/api/client_review_handlers.go:2082-2117 | a line is its first and third column: the code as it stands and prefixed, and the decision |
| BulkDecisions.ShortLine | backend/internal/api/client_review_handlers.go:2096-2105 | a line of fewer than three columns decides nothing |
| BulkDecisions.ResolvesExactly | backend/internal/api/client_review_handlers.go:2115-2139 | a code names an organisation as it stands or else prefixed, the bare one first |
| BulkDecisions.ReportsExactly | backend/internal/api/client_review_handlers.go:2081-2190 | what the answer says of one line: nothing for a blank code, "skipped" for an undecided or unknown one, else its organisation, how many rows it had pending, and "skipped" exactly if none |
| BulkDecisions.FirstRecordDroppedExactly | backend/internal/api/client_review_handlers.go:2049-2057 | the first record is dropped exactly when its first cell looks like a header; every other record is read in order |
| BulkDecisions.StoredCodeTakenForHeader | backend/internal/api/client_review_handlers.go:2049-2057 | a first record whose code has the stored form is always dropped |
| BulkDecisions.ReviewerDesk.DecideCsv | backend/internal/api/client_review_handlers.go:1984-2205 | each pending row under the client ends approved or rejected as its organisation's first settling line says, every other row is as before; the reports and tallies of those lines |
| DelimiterSniff.SniffDelimiter | backend/internal/api/client_review_handlers.go:2239-2277 | the most frequent unquoted candidate of the first line; comma wins every tie, tab wins against semicolon |
| DelimiterSniff.FirstLineIsUnique | backend/internal/api/client_review_handlers.go:2246-2266 | the first line the score is taken over is determined by the sample |
| DelimiterSniff.ScoreOfPrefix | backend/internal/api/client_review_handlers.go:2239-2277 | what follows the first line does not matter |
| BlinkDetector.Detector.Process | frontend/public/face_guide.js:63-112 | the counters fire exactly at a frame that completes a blink in the history of frames |
| BlinkDetector.Watch | frontend/public/face_guide.js:51-112 | one start fires at most once, at the first such frame, and does fire if there is one |
| BlinkDetector.FiresExactly | frontend/public/face_guide.js:86-109 | the firing test on counters equals the history predicate: open eyes, three framed frames, one to twelve closed-eye frames since the last open-eyed or faceless one |
| HistoryPaging.ListMyVerifications | backend/internal/api/agent_history_handlers.go:51-139 | a page holds the newest thirty rows below the cursor, all of them the operator's own with a verdict, with a next cursor exactly when more remain; every such row is on the page or below that cursor |
| HistoryPaging.WalkFromTheTop | backend/internal/api/agent_history_handlers.go:57-139 | following the cursor, with newer rows inserted meanwhile, ends after one page per thirty rows and lists the rows present at the start, descending, each once |
| HistoryPaging.WalkLists | backend/internal/api/agent_history_handlers.go:57-139 | the same from any cursor |
| BiometricIndex.Restart | backend/internal/api/superadmin_bulk_upload_handlers.go:386-411 | hydration builds the disk scan OR-ed with the database flags over all exams |
| BiometricIndex.SyncedIsUnique | backend/cmd/server/main.go:70-76 | there is only one such index |
| BiometricIndex.ParseRollExactly | backend/internal/api/superadmin_bulk_upload_handlers.go:464-478 | a file name is accepted exactly when it is a roll, a dot and a dotless extension |
| BiometricIndex.Server.BulkUpload | backend/internal/api/superadmin_bulk_upload_handlers.go:232-365 | total is uploaded plus skipped plus errors and the length of the per-file list; the index and, if the flip commits, the database gain the flag for exactly the stored rolls |
| BiometricIndex.UploadsStaySynced | backend/internal/api/superadmin_bulk_upload_handlers.go:232-437 | after any sequence of committed uploads the index equals a rebuild and no flag is lost |
| BiometricIndex.FlagsOnlyGrow | backend/internal/data/index.go:94-115 | an upload adds its flag to the stored rolls and clears nothing |
| BiometricIndex.JudgedExactly | backend/internal/api/superadmin_bulk_upload_handlers.go:269-345 | a file is passed over exactly if its name is no enrolled roll with an extension of the modality, and stored exactly if it can be read, is below the limit and storing works |
| BiometricIndex.FlippedExactly | backend/internal/api/superadmin_bulk_upload_handlers.go:415-437 | a flag update sets this flag in the rows of this exam and these rolls, and nothing else |
| BiometricIndex.EnrolledExactly | backend/internal/api/superadmin_bulk_upload_handlers.go:439-458 | a roll is on the roster exactly if the exam has a row for it |
| BiometricIndex.SingleWrites | backend/internal/api/superadmin_biometrics_handlers.go:140-224 | a single upload writes the file's flag on disk and, for a mirrored photo whose update works, that candidate's database flag |
| BiometricIndex.Server.SingleUpload | backend/internal/api/superadmin_biometrics_handlers.go:140-224 | file, rescan, and for a mirrored photo its flag and Upsert; afterwards the index equals a rebuild exactly under the stated condition on disk and database before, whether or not the rescan succeeds |
| BiometricIndex.FailedFlipSyncedExactly | backend/internal/api/superadmin_bulk_upload_handlers.go:347-363 | when the flag update fails, index and rebuild agree exactly if every stored file was on record already |
| BiometricIndex.ScannedSyncedExactly | backend/internal/data/index.go:124-134 | with a successful rescan, exactly if the old disk knew every flag of the database but the one just uploaded |
| BiometricIndex.UnscannedSyncedExactly | backend/internal/api/superadmin_biometrics_handlers.go:177-224 | with a failed rescan, exactly if the flag was known or the photo branch put it into the index |
| BiometricIndex.SyncedExactlyIfNeverParted | backend/internal/api/superadmin_bulk_upload_handlers.go:232-437 | over any sequence of archive and single uploads, with whatever failures, the index equals a rebuild throughout exactly when no upload meets one of those conditions |
| BiometricIndex.RefreshForgetsUploads | backend/internal/api/superadmin_biometrics_handlers.go:172-181 | a bulk-uploaded photo disappears from the index after another candidate's upload |
| DownloadCache.AnswersAreTrue | backend/internal/api/download_handlers.go:73-94 | if stats tell versions apart and no file changes between stat and read, every answer in every interleaving is the hash of the file at that request's stat, and of the current file while its stat is the same |
| DownloadCache.NextSoundExactly | backend/internal/api/download_handlers.go:73-94 | one action spoils the cache exactly when it is a read that finds other content than the file had at the request's stat |
| DownloadCache.SoundExactlyIfUnchanged | backend/internal/api/download_handlers.go:73-94 | over every interleaving, cache and requests stay sound throughout exactly when every read finds unchanged content |
| DownloadCache.ReadAnswersTrueExactly | backend/internal/api/download_handlers.go:80-94 | the request that reads answers truly exactly then, and stores its answer for others |
| DownloadCache.FailsExactly | backend/internal/api/download_handlers.go:73-94 | a request fails exactly at a stat or read of a path without a file; other requests and finished ones stay, and only the last step touches the cache |
| DownloadCache.FilesExactly | backend/internal/api/download_handlers.go:73-94 | files come, change and go exactly as published and removed |
| DownloadCache.LateReadPoisons | backend/internal/api/download_handlers.go:73-94 | a concrete run: the wrong hash is served to a request whose file never changed |
| DownloadCache.HashCache.CachedSHA256 | backend/internal/api/download_handlers.go:73-94 | hit or miss, the answer is the file's hash and the stored entry can be trusted again |
| DownloadCache.FindBundle | backend/internal/api/download_handlers.go:126-170 | picks, of the first pattern with a usable match, a newest file, the first of equals |
| DownloadCache.MatchesExactly | backend/internal/api/download_handlers.go:102-107 | a pattern matches exactly the names that are its prefix, anything, and its suffix |
| DownloadCache.PickIsUnique | backend/internal/api/download_handlers.go:126-170 | the directory determines the pick |
| DownloadCache.FourthPatternIsIdle | backend/internal/api/download_handlers.go:102-107 | the last pattern never decides |
| FingerprintRecord.ParseUndoesEncode | backend/pdf-template/fp_preview.py:50-76 | parsing gives back the encoded first view, for any skipped bytes and any trailing views |
| FingerprintRecord.EncodeUndoesParse | backend/pdf-template/fp_preview.py:50-76 | every accepted buffer is the encoding of what was returned, and the image is a slice of the buffer |
| FingerprintRecord.AcceptedExactly | backend/pdf-template/fp_preview.py:50-76 | a buffer is accepted exactly when it encodes some view |
| FingerprintRecord.RefusedExactly | backend/pdf-template/fp_preview.py:50-76 | which refusal a buffer gets: the first of the checks it fails, in terms of its bytes |
| FingerprintRecord.KindsExactly | backend/pdf-template/fp_preview.py:79-97 | kinds 2 to 5 go to the library as they are, 0 and 1 are raw, no other kind is shown |
| FingerprintRecord.PixelAt | backend/pdf-template/fp_preview.py:91-96 | the pixel in row y and column x is the byte at width times y plus x |
| FingerprintRecord.PreviewOfUncompressed | backend/pdf-template/fp_preview.py:79-97 | the uncompressed preview has exactly width by height pixels, each at its place in the record, and is refused exactly for another depth or a short view |

## Left out

- HTTP decoding, sessions, timeouts, mail and SMS texts, audit rows and magic links; a mail appears only where its trigger is counted.
- The Control Plane's own handlers: it is an environment that may send any message at any time.
- Trimming, case folding and mobile prefixes of identity values: the model starts from normalised values.
- RegisterLimiter.Limiter: `time.Now` is a parameter assumed not to run backwards, and the mutex makes each call one step.
- RegisterLimiter.Limiter.Allow: which other key the soft cap throws out is left open, as Go's map order leaves it.
- Registration.ApplicationTable.RegisterInit: one serial transaction; concurrent registrations are ordered by the database. The exam board's being open and the OTP proofs are checked before it.
- KycLifecycle.EpochSettles: local calls on the same row, its revoke and its replacement end the epoch; the run lemmas beside it cover them.
- KycLifecycle.Next: provisioning inside an approval is the separate module; here its failure ends the call.
- A resubmission whose Control Plane call fails: the local row has already left rejected, so nothing is promised there.
- OrgProvisioning.Next: admins added by other routes; only these calls create admins in the model. What a local call reads from its application row is fixed when it arrives.
- OrgProvisioning.Slug: non-ASCII letters, which Go's lower-casing could map into a-z, are dropped.
- Text.Trim: only blank, tab, newline and carriage return count as space.
- SubscriptionRuns.Next: an exam's client never changes after creation, so its check and the write are one step, and so are the two reads of an access request; no statement deletes an organisation. A signed-in reviewer deleted in mid-request is not modelled.
- BulkDecisions.ReviewerDesk.DecideCsv: starts from the parsed records; the CSV reader is a library.
- BlinkDetector.Frame: the bounding box of the landmarks is given by its height and centre offsets; throttled and failed frames are not processed and so do not appear.
- BlinkDetector.Watch: one start; two loops left running by a second start are not modelled.
- HistoryPaging.WalkFromTheTop: rows that commit late with a smaller id are not "newer rows".
- BiometricIndex.Server.BulkUpload: candidate rows deleted between the roster read and the flag update.
- BiometricIndex.Server: the directory scan itself is the map `disk`.
- BiometricIndex.Server.SingleUpload: an upload that removes an older file of another extension and then fails to write its own.
- DownloadCache.Next: reading and hashing a file is one step, and SHA-256 is ideal.
- FingerprintRecord.Decode: WSQ, JPEG, JPEG 2000 and PNG images go to the image library, as do whole BMP, PNG or JPEG files in place of a record; conformance to ISO/IEC 19794-4 is not claimed.
- WalletCredit.CapsHoldExactly: the PATCH's other checks (a cap at least the lookup fee, and within the wallet's balance); a cap is any positive amount.
- WalletCredit.Credit: the signed-in user behind a browser call being deleted meanwhile is a failed step; who made a manual credit is not recorded.
- Dashboards, statistics, CSV exports and report rendering: what they show of these tables is not stated.
- parseOperatorsCSV, parseBulkOperatorsCSV, parseBulkExamsCSV and parseCandidateCSV: which files they accept, and their line-by-line errors.
- Date windows of exams and operators: parsing, and the check that one lies inside the other.
- The bulk application action in client_review_handlers.go, which no route reaches, and the seed and reset commands.
