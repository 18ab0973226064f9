# AcaSocial, modelled and proved in Dafny

AcaSocial is a question-and-answer platform for a university: NestJS services behind a Go gateway, with PostgreSQL,
Redis and NATS JetStream. This project models the parts whose guarantees span many operations, and proves these
guarantees for every run. `dafny verify dfyconfig.toml` checks everything.

Each service method is a Dafny method that changes its state step by step. Its contract equates the new state and the
answer, error cases included, with a specification function of the old state; the theorems are about runs of these
functions, over every sequence of operations by every user. What an operation does is stated a second time in terms of the
request alone, without the specification function (`LifecycleEffects`, `AccessRules`, `DeliveryEffects`, `TagEffects`,
`LoginGuarantees`, `MembershipGuarantees`): exactly when it succeeds, what it changes and what it leaves as it was.

| files | part of the system |
|---|---|
| `Content`, `Discussions`, `ModerationReviews`, `Answers`, `Comments`, `Lifecycle`, `LifecycleGuarantees`, `LifecycleEffects`, `AccessRules`, `AcceptanceRules`, `LifecycleExamples` | posts with drafts, revisions, moderation, acceptance and status: fifteen operations of four services on the same rows |
| `Delivery`, `DeliveryGuarantees`, `DeliveryServices`, `DeliveryProgress`, `DeliveryEffects` | outbox workers, the JetStream stream, consumers with an inbox; steps with crashes, lost acknowledgements, duplicates and reordering |
| `SlidingWindow`, `LocalLimiter`, `RedisLimiter` | the rate limiter of the gateway: full history, in-place queue with cleanup, Redis script |
| `Counters`, `CounterGuarantees`, `Votes` | counters of answers, comments and votes written by interleaved transactions |
| `Tags`, `TagGuarantees`, `TagEffects` | cached usage counts and merging of tags |
| `Sessions`, `SessionGuarantees`, `LoginGuarantees`, `AdminGuarantees` | passwords, access and refresh tokens, revocation, blacklist, role changes and administrators |
| `Otp` | one-time codes with expiring failure counters and locks |
| `Rooms`, `RoomGuarantees`, `MembershipGuarantees`, `RoomsAndPosts` | owners, memberships, bans, policy lock, audit log, versioned rules, permission to post, and rooms and posts running together |
| `EventStream`, `EventLayouts`, `PathRewrite`, `Strings` | the notification stream parser of the frontend and the path rewriting of the gateway |
| `Wrappers` | options, results and checks |

## What the proofs rest on

- A transaction is one step, except in `Delivery` and `Counters`, and for role changes in `Sessions`, where the interleaving
  of its steps is modelled.
- Random identifiers are parameters. Where the database has a uniqueness constraint the collision is modelled; event
  ids and token identifiers (`jti`) are taken never to repeat. SHA-256 is taken to be injective, password hashes are
  compared by the password itself.
- Redis keeps a key strictly before the end of its time to live. Clocks do not run backwards.
- Calls to the media, academic and identity services, and the content of notifications, are parameters that say
  whether they succeed.
- Lock holders crash or roll back at any moment; what they wrote is visible only after they commit.

## Where the code differs from what is said about it

- `docs/academic-foundation.md:140` says that only approved questions may have an accepted answer. The code asks only
  that the question is shown, and an edit that becomes a draft makes an accepted question pending again.
  `AcceptanceRules.ApprovalRuleBrokenIff` and `AcceptanceRules.ApprovalRuleThroughoutIff` say exactly which steps break
  the rule; `LifecycleExamples.AcceptedWhilePending` and `LifecycleExamples.EditedButStillAccepted` are such runs.
- `docs/academic-foundation.md:141` says that editing a post revokes acceptance. It does exactly when the edit does
  not become a draft: `LifecycleGuarantees.EditEndsAcceptanceUnlessDrafted`, `LifecycleExamples.EditedButStillAccepted`.
- An edit that names only the anonymity of a post is ignored when it repeats the published one while a pending draft
  differs in it (`services/discussion-service/src/discussions/discussions.service.ts:267-275`):
  `LifecycleEffects.EditSetsAnonymityIff`. An edit of a hidden post whose draft was kept starts from the published text
  again and drops the draft: `LifecycleEffects.EditKeepsTheRest`, `LifecycleEffects.EditTakesEffect`.
- A question can be open although something on it is accepted. Seven operations do that, reopening among them:
  `AcceptanceRules.OpenRuleBrokenIff`, `LifecycleGuarantees.ReopeningForgetsAnswers`,
  `LifecycleExamples.ReopenedButStillAccepted`, `LifecycleExamples.UnacceptedButStillAccepted`.
- The acceptance ledger can name a draft that readers never saw: `LifecycleGuarantees.LedgerNamesShownText`,
  `LifecycleExamples.LedgerNamesDraft`.
- `services/identity-service/src/otp/otp.service.ts:10-13` describes a lock after five wrong guesses. The failure
  counter expires after 300 seconds, so this holds exactly for lifetimes up to 300 seconds; reset codes live 600
  seconds and stand nine wrong guesses: `Otp.FiveGuessesOnlyWithinOneWindow`, `Otp.BoundIsReached`.
- A password reset is said to refuse every access token issued before it. Tokens signed in the same second stay
  valid: `SessionGuarantees.ChangeRefusesEarlierSeconds`, `AdminGuarantees.SameSecondSurvives`.
- The cached usage count of a tag counts deleted posts after a merge: `TagGuarantees.MergeIsExactIff`,
  `TagGuarantees.MergeCountsDeletedPost`.
- `services/identity-service/src/users/users.service.ts:88-91` means to retain at least one administrator. The check is
  what saves the last one when another request comes between the guard and the transaction
  (`AdminGuarantees.LastAdminCheckDecides`, `AdminGuarantees.LastAdminCheckFires`), and it is enough when transactions do
  not overlap (`AdminGuarantees.CountedThenWritten`). It is not when two transactions count before either writes
  (`AdminGuarantees.AdminsDemoteEachOther`), and deleting the account of a sole administrator is not refused
  (`AdminGuarantees.SoleAdminDeletes`). These are the only two ways: `AdminGuarantees.AdminsVanishIff`,
  `AdminGuarantees.AdminsRemain`.

## Model

| member | source | states |
|---|---|---|
| `Discussions.DiscussionsService.Create` | services/discussion-service/src/discussions/discussions.service.ts:47-124 | the first failing check, the fit of the selected course with the room among them, decides the error and nothing changes; otherwise a pending post with revision 1 exists, held exactly when the room asks for approval |
| `Discussions.DiscussionsService.Update` | services/discussion-service/src/discussions/discussions.service.ts:245-387 | the whole edit: a visible post under approval, or with a draft, only changes its draft; any other change publishes at once, renews the moderation state and ends every acceptance |
| `Discussions.DiscussionsService.Remove` | services/discussion-service/src/discussions/discussions.service.ts:389-411 | deletion under the post lock; all logs stay |
| `Discussions.DiscussionsService.AcceptAnswer` | services/discussion-service/src/discussions/discussions.service.ts:412-438 | accepting a top-level comment of somebody else on an open, shown question; an accepted answer is left in place |
| `Discussions.DiscussionsService.RemoveAcceptedAnswer` | services/discussion-service/src/discussions/discussions.service.ts:439-450 | clearing the accepted comment reopens the question |
| `Discussions.DiscussionsService.SetStatus` | services/discussion-service/src/discussions/discussions.service.ts:451-468 | reopening looks only at the accepted comment |
| `ModerationReviews.ModerationService.Review` | services/discussion-service/src/moderation/moderation.service.ts:138-253 | a review fails on stale version, status or text; allow promotes the draft and revokes acceptance, hide and hold act as in the source; one review row is appended |
| `Answers.AnswersService.Create` | services/discussion-service/src/answers/answers.service.ts:40-76 | an answer with revision 1 on an open, shown question |
| `Answers.AnswersService.Update` | services/discussion-service/src/answers/answers.service.ts:98-124 | optimistic version check; a semantic edit of the accepted answer revokes its acceptance, an editorial one does not |
| `Answers.AnswersService.Remove` | services/discussion-service/src/answers/answers.service.ts:126-142 | removing the accepted answer revokes its acceptance first |
| `Answers.AnswersService.Accept` | services/discussion-service/src/answers/answers.service.ts:144-185 | revokes the previous acceptance and appends a ledger row with both versions |
| `Answers.AnswersService.RemoveAcceptance` | services/discussion-service/src/answers/answers.service.ts:187-196 | also works on closed questions |
| `Comments.CommentsService.Create` | services/discussion-service/src/comments/comments.service.ts:38-79 | a parent must be a live comment of the same discussion |
| `Comments.CommentsService.Update` | services/discussion-service/src/comments/comments.service.ts:164-186 | rewording the accepted comment ends its acceptance and reopens the question |
| `Comments.CommentsService.Remove` | services/discussion-service/src/comments/comments.service.ts:187-202 | removing the accepted comment ends its acceptance and reopens the question |
| `Lifecycle.EveryStepIsGood` | services/discussion-service/src/discussions/discussions.service.ts:245-462 | each of the fifteen operations of the four services, from any state satisfying the invariant, keeps revision numbering, moderation coherence, ledger agreement and the fit of whatever is accepted, and only extends the logs |
| `LifecycleGuarantees.NothingUnapprovedIsShown` | services/discussion-service/src/moderation/moderation.service.ts:150-253 | if every creation and edit of a post was refused or needed approval, then whenever it is shown, its title and content are those of a revision with an allow review |
| `RoomsAndPosts.ReviewedRoomShowsOnlyAllowedText` | services/discussion-service/src/rooms/rooms.service.ts:522-540 | rooms and posts run together: in a room with a locked review policy and no personal exceptions, until an administrator steps in, every post it shows has the text of a revision with an allow review |
| `LifecycleGuarantees.RevisionLogIsComplete` | services/discussion-service/src/discussions/discussions.service.ts:287-312 | revisions are numbered 1..contentVersion without gaps, and the last is the draft if there is one and the published text otherwise |
| `LifecycleGuarantees.DecidedOncePerVersion` | services/discussion-service/src/moderation/moderation.service.ts:154-161 | two successful reviews from pending, with any run between them, never judged the same version |
| `LifecycleGuarantees.LedgerMatchesQuestion` | services/discussion-service/src/answers/answers.service.ts:164-178 | at most one unrevoked ledger row; there is one if and only if an answer is accepted, and it names that live answer of this question |
| `LifecycleGuarantees.RevokedStaysRevoked` | services/discussion-service/src/answers/answers.service.ts:202-217 | ledger rows keep their place and content and are never reactivated |
| `LifecycleGuarantees.AcceptedTextStaysPublished` | services/discussion-service/src/discussions/discussions.service.ts:343-383 | while something stays accepted, the question is shown with the title and content it had when the run began |
| `LifecycleGuarantees.AcceptedCommentStaysTheSame` | services/discussion-service/src/comments/comments.service.ts:170-178 | while a comment stays accepted its text is unchanged and it is live |
| `LifecycleGuarantees.AcceptedAnswerOnlyEditorial` | services/discussion-service/src/answers/answers.service.ts:119-121 | every revision of the accepted answer after the accepted version is editorial |
| `LifecycleGuarantees.SolvedMeansAccepted` | services/discussion-service/src/discussions/discussions.service.ts:412-462 | a solved question has an accepted answer or comment |
| `LifecycleGuarantees.ReopeningForgetsAnswers` | services/discussion-service/src/discussions/discussions.service.ts:459-464 | after reopening, solved agrees with having an acceptance if and only if it was not the case that only an answer was accepted |
| `LifecycleGuarantees.EditEndsAcceptanceUnlessDrafted` | services/discussion-service/src/discussions/discussions.service.ts:282-383 | a changing edit keeps the acceptance if and only if it becomes a draft |
| `LifecycleGuarantees.LedgerNamesShownText` | services/discussion-service/src/answers/answers.service.ts:164-174 | while an answer stays accepted, the question version in its ledger row names the displayed text if and only if no draft with another text was pending when it was accepted |
| `LifecycleEffects.CreateTakesEffect` | services/discussion-service/src/discussions/discussions.service.ts:85-124 | a new post says what was asked, in the name of who asked, open and pending, and is shown if and only if the room lets posts through directly |
| `LifecycleEffects.EditSaysWhatWasAsked` | services/discussion-service/src/discussions/discussions.service.ts:282-342 | after a successful edit the newest version has the title, content, tags and media of the request, whether it became a draft or was published |
| `LifecycleEffects.EditSetsAnonymityIff` | services/discussion-service/src/discussions/discussions.service.ts:267-291 | the newest version has the requested anonymity if and only if the request did not merely repeat the published one while a draft differed |
| `LifecycleEffects.EditKeepsTheRest` | services/discussion-service/src/discussions/discussions.service.ts:287-342 | what a request does not mention keeps the value of the draft or published text; a hidden post starts from its published text |
| `LifecycleEffects.EditTakesEffect` | services/discussion-service/src/discussions/discussions.service.ts:276-362 | a changing edit makes one new pending version, recorded with its editor and kind; it waits if and only if the post is shown and the room wants approval or a draft is pending, and otherwise replaces the text |
| `LifecycleEffects.EditMakesVersionIff` | services/discussion-service/src/discussions/discussions.service.ts:267-275 | an edit changes anything if and only if it names tags, media, a published field differently, or title or content beside a draft |
| `LifecycleEffects.EditLeavesStatus` | services/discussion-service/src/discussions/discussions.service.ts:345-383 | a waiting edit leaves status and acceptance alone; one that replaces the text opens the question if and only if something was accepted |
| `LifecycleEffects.AllowTakesEffect` | services/discussion-service/src/moderation/moderation.service.ts:172-217 | allowing shows exactly the text the verdict repeats, with the draft under review published, and ends acceptance if and only if a draft was |
| `LifecycleEffects.RejectionTakesEffect` | services/discussion-service/src/moderation/moderation.service.ts:218-238 | hide and hold reject and hide the post if and only if it was not a shown post with a pending draft, which stays shown and approved |
| `LifecycleEffects.ReviewIsRecorded` | services/discussion-service/src/moderation/moderation.service.ts:239-253 | one review row with version, decision, note and reviewer |
| `LifecycleEffects.ReviewLeavesStatus` | services/discussion-service/src/moderation/moderation.service.ts:225-238 | a review opens a solved question if and only if it ends its acceptance; a closed one stays closed, and nothing else changes |
| `LifecycleEffects.HiddenUntilAllowed` | services/discussion-service/src/moderation/moderation.service.ts:216-224 | in every run, a post that is not shown is shown again only after a review that allows it |
| `LifecycleEffects.AcceptAnswerTakesEffect` | services/discussion-service/src/answers/answers.service.ts:164-184 | the requested answer is accepted, alone; the new ledger row names both versions and the actor, and every older row is revoked |
| `LifecycleEffects.RevokeTakesEffect` | services/discussion-service/src/answers/answers.service.ts:198-217 | no answer is accepted afterwards and no ledger row is active; the question opens if and only if one was |
| `LifecycleEffects.DeletionIsFinal` | services/discussion-service/src/discussions/discussions.service.ts:389-411 | a deleted post never changes again in any run |
| `LifecycleEffects.ReplyTakesEffect` | services/discussion-service/src/answers/answers.service.ts:62-124 | answers and comments are created, changed and deleted as asked, in the name of who asked, with one revision for each changed answer |
| `LifecycleEffects.ReplyEndsItsAcceptance` | services/discussion-service/src/comments/comments.service.ts:164-202 | a changed or deleted reply ends acceptance if and only if it is the accepted one and, for answers, the change is semantic |
| `AccessRules.SucceedsIffPermitted` | services/discussion-service/src/common/content-policy.ts:13-64 | each of the fifteen operations succeeds if and only if one table permits it: actor, state of the post, consent of the room, versions seen, and the request itself |
| `AccessRules.RefusalNamesReason` | services/discussion-service/src/common/content-policy.ts:13-64 | the error of a refused operation names a rule of the table that it breaks; who may moderate nothing does not learn whether a post exists |
| `AccessRules.OthersStay` | services/discussion-service/src/common/content-policy.ts:44-64 | an operation leaves every post, answer and comment it is not about as it was |
| `AccessRules.StrangersCannotTouchPost` | services/discussion-service/src/common/content-policy.ts:29-39 | however many people act who are neither staff, author nor manager of the room, a post keeps its text, draft, moderation and logs and is not deleted |
| `AccessRules.StrangersLeavePosts` | services/discussion-service/src/common/content-policy.ts:29-39 | the only effect such a person has on a post is to end the acceptance of an answer or comment of their own |
| `AccessRules.StrangersLeaveAnswer` | services/discussion-service/src/common/content-policy.ts:29-39 | an answer is changed and deleted by its author and staff only |
| `AccessRules.StrangersLeaveComment` | services/discussion-service/src/common/content-policy.ts:29-39 | a comment is changed and deleted by its author and staff only |
| `AcceptanceRules.ApprovalRuleBrokenIff` | services/discussion-service/src/answers/answers.service.ts:144-178 | a step of any of the fifteen operations breaks accepted-means-approved if and only if it succeeds and accepts an answer or comment on a question that is not approved, or turns an edit of an accepted question into a draft |
| `AcceptanceRules.ApprovalRuleThroughoutIff` | services/discussion-service/src/discussions/discussions.service.ts:282-312 | accepted-means-approved holds all through a run if and only if no step of the run is one of these |
| `AcceptanceRules.OpenRuleBrokenIff` | services/discussion-service/src/discussions/discussions.service.ts:439-466 | a step leaves a question open with something accepted if and only if it succeeds and is one of seven: reopening without an accepted comment, unaccepting a comment beside an accepted answer, or ending one of two acceptances through its answer or comment |
| `AcceptanceRules.OpenRuleThroughoutIff` | services/discussion-service/src/answers/answers.service.ts:202-217 | a question with something accepted is solved or closed all through a run if and only if no step of the run is one of these |
| `LifecycleExamples.AcceptedWhilePending` | services/discussion-service/src/answers/answers.service.ts:144-178 | a run in which a question nobody approved has an accepted answer |
| `LifecycleExamples.EditedButStillAccepted` | services/discussion-service/src/discussions/discussions.service.ts:282-312 | a run in which an edit keeps the acceptance and leaves the question unapproved |
| `LifecycleExamples.ReopenedButStillAccepted` | services/discussion-service/src/discussions/discussions.service.ts:459-464 | a run that ends with an open question whose answer is still accepted |
| `LifecycleExamples.UnacceptedButStillAccepted` | services/discussion-service/src/discussions/discussions.service.ts:439-450 | another one, by unaccepting a comment that was never accepted |
| `LifecycleExamples.LedgerNamesDraft` | services/discussion-service/src/answers/answers.service.ts:165-174 | a run in which the ledger names a version that is not displayed |
| `DeliveryServices.Deployment.Deliver` | services/discussion-service/src/events/outbox.worker.ts:33-53 | one pass of the worker equals a run of protocol steps: select and lock, publish each row, commit the marks |
| `DeliveryServices.Deployment.Consume` | services/notification-service/src/notifications/nats.consumer.ts:61-84 | the message loop equals a run of protocol steps, with acknowledgement, postponement and termination as in the source |
| `DeliveryServices.Deployment.ProcessEvent` | services/notification-service/src/notifications/notifications.service.ts:32-95 | precheck, lookup and atomic claim with its one notification |
| `Delivery.RunKeepsInv` | services/discussion-service/src/events/outbox.worker.ts:33-53 | locks are disjoint, delivered rows are on the stream, messages under outbox ids are authentic, claims and notifications correspond, for every interleaving with crashes, lost acknowledgements and redelivery |
| `DeliveryGuarantees.ExactlyOnce` | services/notification-service/src/notifications/notifications.service.ts:68-94 | at most one notification per event id, one if and only if the id is in the inbox, and at most one push |
| `DeliveryGuarantees.OutboxLosesNothing` | services/discussion-service/src/events/outbox.worker.ts:34-51 | a committed delivered mark implies the event is on the stream, and no two workers hold the same row |
| `DeliveryGuarantees.SettledMeansProcessed` | services/notification-service/src/notifications/nats.consumer.ts:72-81 | an acknowledged message is in the inbox or has nobody to notify; a terminated one was malformed, which a sound event of the outbox never is |
| `DeliveryGuarantees.NotificationIsTheRows` | services/discussion-service/src/common/nats/nats.publisher.ts:81-93 | a notification under an outbox id is for the recipient and of the type of that row |
| `DeliveryGuarantees.DrainedMeansNotified` | services/notification-service/src/notifications/notifications.service.ts:32-95 | once a row is delivered and its messages are settled, its recipient has exactly one notification |
| `DeliveryProgress.CommittedCanBeNotified` | services/discussion-service/src/events/outbox.worker.ts:33-53 | from every reachable state every committed event with a recipient can still reach the inbox: locks are released, batches of the oldest rows are published, and the message is consumed |
| `DeliveryEffects.EnqueuedEventIsKept` | services/discussion-service/src/events/outbox.worker.ts:35-37 | a committed event is due at once and its row keeps it through every run |
| `DeliveryEffects.OldestDueRowsFirst` | services/discussion-service/src/events/outbox.worker.ts:35-37 | a batch has at most twenty rows, all due and held by nobody, and a due row is left out only if the batch is full of rows no younger |
| `DeliveryEffects.PublicationTakesEffect` | services/discussion-service/src/events/outbox.worker.ts:39-50 | what one publication puts on the stream, and what is noted for the row, for each of its three outcomes |
| `DeliveryEffects.FailureIsRetriedInTime` | services/discussion-service/src/events/outbox.worker.ts:45-50 | whatever happens before the commit, a row whose publication failed or whose acknowledgement was lost is due again exactly five seconds after the time of the attempt, with one more attempt counted; a published one never again |
| `DeliveryEffects.CrashLosesNothing` | services/discussion-service/src/events/outbox.worker.ts:34-51 | a crash of the worker changes no row, and each it held is due as before |
| `DeliveryEffects.TerminatedExactly` | services/notification-service/src/notifications/nats.consumer.ts:67-81 | a settled message is terminated if and only if it is no envelope, has no type, a bad recipient or another subject; every notification stems from a sound message for that recipient |
| `DeliveryEffects.HandlingTakesEffect` | services/notification-service/src/notifications/nats.consumer.ts:61-84 | one message handed to an idle consumer: terminated, acknowledged, left alone, or one notification and one push, by exact cases |
| `SlidingWindow.AtMostLimitPerKey` | gateway/internal/middleware/ratelimit.go:67-89 | every half-open window admits at most the limit under each key |
| `SlidingWindow.WaitIsLeast` | gateway/internal/middleware/ratelimit.go:84-88 | the answered wait is exact: a retry is admitted if and only if it comes no earlier, unless others are admitted meanwhile |
| `LocalLimiter.RejectedVisitIsInvisible` | gateway/internal/middleware/ratelimit.go:69-89 | a rejected request prunes the queue and moves the time of the last visit, which cleanup reads, yet no later answer changes |
| `LocalLimiter.RejectedIsInvisible` | gateway/internal/middleware/ratelimit.go:46-89 | in any run with any sweeps, taking a rejected request out leaves all other answers as they were |
| `RedisLimiter.RejectedVisitIsInvisible` | gateway/internal/middleware/ratelimit.go:93-115 | a rejected call prunes the set and uses up a member number, yet no later answer of any instance changes |
| `RedisLimiter.RejectedIsInvisible` | gateway/internal/middleware/ratelimit.go:93-115 | in any run, taking a rejected call out leaves all other answers as they were |
| `SlidingWindow.RetryAfter` | gateway/internal/middleware/ratelimit.go:145-147 | a whole number of seconds covers the wait if and only if it is at least the header |
| `SlidingWindow.ObeyingTheHeader` | gateway/internal/middleware/ratelimit.go:145-147 | in nanoseconds of the local queue and milliseconds of the script alike, a retry after some whole number of seconds is admitted if and only if that number is at least the header, unless others are admitted meanwhile |
| `SlidingWindow.AdmittedIffFewerInWindow` | gateway/internal/middleware/ratelimit.go:67-89 | a request is admitted if and only if fewer than its limit were admitted under its key in the window ending now |
| `LocalLimiter.AdmittedIffFewerInAMinute` | gateway/internal/middleware/ratelimit.go:67-89 | the same of the in-place queues with cleanup, for sixty seconds |
| `LocalLimiter.CleanupKeepsTheActive` | gateway/internal/middleware/ratelimit.go:46-65 | after any run a cleanup keeps exactly the visitors that asked, admitted or not, in the last ten minutes |
| `RedisLimiter.AdmittedIffFewerInAMinute` | gateway/internal/middleware/ratelimit.go:93-115 | the same of the script under any number of gateway instances, for sixty seconds |
| `LocalLimiter.Limiter.RateLimitWait` | gateway/internal/middleware/ratelimit.go:69-89 | the in-place pruned queue gives the specified answer and new queue |
| `LocalLimiter.Limiter.CleanupVisitors` | gateway/internal/middleware/ratelimit.go:46-65 | exactly the visitors idle for more than ten minutes are removed |
| `LocalLimiter.LocalLimiterRefinesWindow` | gateway/internal/middleware/ratelimit.go:46-89 | pruning and cleanup give, for any interleaving of keys and sweeps, the answers of the full admission history |
| `RedisLimiter.Redis.RateLimitWait` | gateway/internal/middleware/ratelimit.go:93-115 | the script command by command gives the specified answer and sorted set |
| `RedisLimiter.ScriptRefinesWindow` | gateway/internal/middleware/ratelimit.go:93-115 | pruning, key expiry and members of several gateway instances give the answers of the full admission history |
| `RedisLimiter.LowerBoundIsIdle` | gateway/internal/middleware/ratelimit.go:102-105 | the lower bound of one millisecond never changes a wait |
| `Votes.VotesService.SetVote` | services/discussion-service/src/votes/votes.service.ts:28-77 | the first failing check decides the error; otherwise row and recounted totals change as one indivisible operation |
| `Counters.SerialIsConsistent` | services/discussion-service/src/common/content-policy.ts:44-64 | operations executed one at a time keep every counter equal to its live rows and every total to its vote rows |
| `CounterGuarantees.InterleavingIsSerial` | services/discussion-service/src/common/content-policy.ts:44-64 | every interleaving of unlocked find, post lock, re-read, computation, commit and rollback leaves the rows of the committed operations executed one after the other |
| `CounterGuarantees.CountersEqualRows` | services/discussion-service/src/answers/answers.service.ts:63-65 | at every moment of every interleaving the committed counters equal the live rows and the totals equal the vote rows |
| `CounterGuarantees.ClampIsNeverReached` | services/discussion-service/src/comments/comments.service.ts:192-199 | a removal about to write never starts from a zero counter |
| `CounterGuarantees.LocksExclude` | services/discussion-service/src/common/content-policy.ts:46-56 | no two threads are inside the locked section of one post |
| `CounterGuarantees.DeletedOnce` | services/discussion-service/src/answers/answers.service.ts:219-228 | of any number of concurrent deletions of one row at most one commits; the row is gone if and only if one did |
| `CounterGuarantees.OnlyLastVotesCount` | services/discussion-service/src/votes/votes.service.ts:55-69 | runs that agree on the last committed request of each user have the same votes and totals |
| `CounterGuarantees.TotalsCountVoters` | services/discussion-service/src/votes/votes.service.ts:61-69 | in every interleaving the upvotes shown are the users whose last committed request was an upvote, the downvotes those whose last was a downvote |
| `CounterGuarantees.CountersFollowLog` | services/discussion-service/src/common/content-policy.ts:44-64 | in every interleaving a counter is the number of children added to the post and never removed, and a post is live if and only if it was created and not removed |
| `Votes.AcceptedIff` | services/discussion-service/src/votes/votes.service.ts:36-54 | a vote is accepted if and only if its target is there, open, approved, readable and by somebody else; the error names what is missing |
| `Votes.RequestTakesEffect` | services/discussion-service/src/votes/votes.service.ts:55-75 | the vote of the user becomes the one requested, the totals count both kinds, and nothing else changes |
| `Votes.RepeatedRequestChangesNothing` | services/discussion-service/src/votes/votes.service.ts:57-60 | repeating a vote, or clearing none, changes neither rows nor totals |
| `Tags.TagsService.TagCounts` | services/discussion-service/src/discussions/discussions.service.ts:486-492 | the loop of updates bumps exactly the listed tags, cut off at zero |
| `Tags.TagsService.Retag` | services/discussion-service/src/discussions/discussions.service.ts:313-339 | decrement then increment equals one recount by difference |
| `Tags.TagsService.PromoteTags` | services/discussion-service/src/moderation/moderation.service.ts:172-203 | the single pass of the review equals the same recount |
| `Tags.TagsService.Remove` | services/discussion-service/src/tags/tags.service.ts:119-138 | refused while a live post carries the tag or a merged tag points to it |
| `Tags.TagsService.SetStatus` | services/discussion-service/src/tags/tags.service.ts:140-146 | a merged tag is never reactivated |
| `Tags.TagsService.Merge` | services/discussion-service/src/tags/tags.service.ts:148-168 | two link statements amount to replacing source by target in every post; the target is recounted |
| `TagGuarantees.OnlyMergesDrift` | services/discussion-service/src/tags/tags.service.ts:157-165 | the distance between the cached count and the live posts changes only by a merge, which sets it to the number of deleted posts that carry the target |
| `TagGuarantees.UsageIsExactWithoutMerges` | services/discussion-service/src/discussions/discussions.service.ts:398-408 | without merges the count is exactly the number of live posts that carry the tag |
| `TagGuarantees.UsageCoversLivePosts` | services/discussion-service/src/tags/tags.service.ts:163-164 | with merges the count is never below that number |
| `TagGuarantees.NeverTruncated` | services/discussion-service/src/discussions/discussions.service.ts:486-492 | so no decrement is ever cut off at zero |
| `TagGuarantees.MergeIsExactIff` | services/discussion-service/src/tags/tags.service.ts:157-165 | a merge leaves the count exact if and only if no deleted post carries either tag |
| `TagGuarantees.MergeCountsDeletedPost` | services/discussion-service/src/tags/tags.service.ts:157-165 | a run in which the target of a merge is counted once and carried by no live post |
| `TagGuarantees.MergesFormAForest` | services/discussion-service/src/events/trust-governance.migration.ts:22-25 | following mergedInto ends at an unmerged tag, and no post carries a merged or missing tag |
| `TagGuarantees.LinksFollowMerges` | services/discussion-service/src/tags/tags.service.ts:157-160 | an unedited live post carries, after any run, exactly what its tags were merged into |
| `TagGuarantees.RecordAgreesWithLinks` | services/discussion-service/src/tags/tags.service.ts:161-162 | following the recorded merges from an existing tag ends where its links went |
| `TagEffects.AddPostTakesEffect` | services/discussion-service/src/discussions/discussions.service.ts:85-124 | a new post gets exactly the active tags it asks for, each counted once more |
| `TagEffects.RetagTakesEffect` | services/discussion-service/src/discussions/discussions.service.ts:315-339 | an edited live post has exactly the active tags asked for; lost ones count one less, gained ones one more |
| `TagEffects.RemovePostTakesEffect` | services/discussion-service/src/discussions/discussions.service.ts:398-408 | a deleted post keeps its links, and its tags each count one less |
| `TagEffects.RemoveTakesEffect` | services/discussion-service/src/tags/tags.service.ts:119-138 | a tag is removed if and only if no live post carries it and none was merged into it; its links go with it |
| `TagEffects.SetStatusTakesEffect` | services/discussion-service/src/tags/tags.service.ts:140-146 | the status is set if and only if the tag exists and is not merged |
| `TagEffects.MergeTakesEffect` | services/discussion-service/src/tags/tags.service.ts:148-168 | exactly when a merge succeeds; whoever carried either tag then carries the target and not the source, and the target counts these posts |
| `TagEffects.LastRequestThenMerges` | services/discussion-service/src/tags/tags.service.ts:157-160 | in every run a live post carries what its last request asked for, renamed by the merges since |
| `Sessions.AuthService.Login` | services/identity-service/src/auth/auth.service.ts:140-159 | refused for unknown, unverified or wrong password; otherwise one new pair |
| `Sessions.AuthService.RefreshToken` | services/identity-service/src/auth/auth.service.ts:177-211 | rotation, and revocation of all tokens of the user when a revoked one is presented |
| `Sessions.AuthService.Logout` | services/identity-service/src/auth/auth.service.ts:220-230 | revokes all tokens of the user and blacklists the presented one |
| `Sessions.AuthService.ResetPassword` | services/identity-service/src/auth/auth.service.ts:256-273 | new password, new change time, all tokens revoked |
| `Sessions.UsersService.ChangeRole` | services/identity-service/src/users/users.service.ts:81-102 | guard, checks in order, early return for the same role; otherwise role, change time, revocation and one audit row |
| `Sessions.UsersService.ChangePassword` | services/identity-service/src/users/users.service.ts:133-160 | new password, change time, revocation and blacklist entry |
| `Sessions.UsersService.DeleteAccount` | services/identity-service/src/users/users.service.ts:227-245 | revocation, blacklist entry and soft deletion |
| `SessionGuarantees.NewPairWorks` | services/identity-service/src/auth/auth.service.ts:281-304 | left alone, the access token of a login is accepted exactly until its lifetime is over and its refresh token is redeemable exactly until its own |
| `SessionGuarantees.EachTokenRedeemedOnce` | services/identity-service/src/auth/auth.service.ts:190-210 | over every run no refresh token is redeemed twice |
| `SessionGuarantees.OneOpenTokenPerLogin` | services/identity-service/src/auth/auth.service.ts:206-210 | of the tokens descending from one login only the newest can be unrevoked |
| `SessionGuarantees.EndedSessionsStayEnded` | services/identity-service/src/auth/auth.service.ts:190-198 | a token that existed at a logout, reset, password change, written role change, deletion or detected reuse is never redeemable again |
| `SessionGuarantees.PresentedTokenIsBarred` | services/identity-service/src/users/users.service.ts:154-157 | the access token presented to a logout, password change or deletion is refused at every later moment of every later run |
| `SessionGuarantees.EntryOutlivesToken` | services/identity-service/src/auth/auth.service.ts:226-227 | the time to live of the entry covers the token until its expiry |
| `SessionGuarantees.ChangeRefusesEarlierSeconds` | services/identity-service/src/auth/strategies/jwt.strategy.ts:58-63 | a reset or role change refuses an accepted token if and only if it was signed in an earlier second |
| `AdminGuarantees.SameSecondSurvives` | services/identity-service/src/auth/strategies/jwt.strategy.ts:58-63 | a run in which the token of a login survives a reset in the same second |
| `SessionGuarantees.OutdatedStaysRefused` | services/identity-service/src/auth/strategies/jwt.strategy.ts:53-63 | a token refused for its age or because its user is deleted is refused ever after |
| `LoginGuarantees.LoginSucceedsIff` | services/identity-service/src/auth/auth.service.ts:140-159 | a pair is issued if and only if the account exists, is not deleted, is verified and has this password, and the drawn token is new; its contents |
| `LoginGuarantees.RefreshSucceedsIff` | services/identity-service/src/auth/auth.service.ts:177-211 | a refresh token is redeemed if and only if it is stored, unrevoked and unexpired and its account exists; which rows each refusal changes |
| `LoginGuarantees.ResetSucceedsIff` | services/identity-service/src/auth/auth.service.ts:256-273 | a reset succeeds if and only if the account exists and the code is right; then password, change time and this account alone are changed |
| `LoginGuarantees.ChangePasswordSucceedsIff` | services/identity-service/src/users/users.service.ts:133-160 | a change succeeds if and only if the token is accepted, the current password right and the new one repeated; the token is refused afterwards |
| `LoginGuarantees.DeleteSucceedsIff` | services/identity-service/src/users/users.service.ts:227-245 | a deletion succeeds if and only if the token is accepted and the password right; the token is refused afterwards |
| `LoginGuarantees.LogoutSucceedsIff` | services/identity-service/src/auth/auth.service.ts:220-230 | a logout succeeds if and only if the token is accepted, which is refused afterwards, and ends the sessions of this account alone |
| `LoginGuarantees.SuccessIsRecorded` | services/identity-service/src/auth/auth.service.ts:177-211 | the history of a run holds every redemption and every signed token, and each new refresh token follows the redeemed one |
| `LoginGuarantees.RedeemedTokenIsDead` | services/identity-service/src/auth/auth.service.ts:190-206 | a redeemed token presented at any later time of any later run is taken for theft |
| `LoginGuarantees.NewestPasswordOpens` | services/identity-service/src/auth/auth.service.ts:146-152 | after any run a login succeeds if and only if the account was not deleted, is verified, and the password is the one set last |
| `LoginGuarantees.OldPasswordIsDead` | services/identity-service/src/auth/auth.service.ts:256-273 | once a password is set, until the next one is, no login with another succeeds |
| `LoginGuarantees.SessionsSurviveOthers` | services/identity-service/src/auth/auth.service.ts:190-198 | whatever other users do, or have done to them, an account left alone keeps its sessions: the same tokens are accepted and redeemed |
| `AdminGuarantees.ThreeStepsAreOneCall` | services/identity-service/src/users/admin-users.controller.ts:23-30 | guard, locked check and write without interruption are the method |
| `AdminGuarantees.LastAdminCheckDecides` | services/identity-service/src/users/users.service.ts:88-91 | the count refuses a demotion if and only if the account is the only administrator left, and then whoever asked is none any more |
| `AdminGuarantees.LastAdminCheckFires` | services/identity-service/src/users/users.service.ts:88-91 | a run in which the count refuses a request whose guard has passed |
| `AdminGuarantees.CountedThenWritten` | services/identity-service/src/users/users.service.ts:88-95 | a demotion written right after its count leaves an administrator |
| `AdminGuarantees.AdminsVanishIff` | services/identity-service/src/users/users.service.ts:81-102 | a step takes the last administrator away if and only if it deletes the account of a sole administrator or writes a counted demotion of one |
| `AdminGuarantees.AdminsRemain` | services/identity-service/src/users/users.service.ts:227-245 | with guards, checks and writes interleaved, there is an administrator all through a run if and only if no step is one of these |
| `AdminGuarantees.SoleAdminDeletes` | services/identity-service/src/users/users.service.ts:227-245 | a run in which a sole administrator deletes the account |
| `AdminGuarantees.AdminsDemoteEachOther` | services/identity-service/src/users/users.service.ts:81-102 | a run in which two administrators count before either writes, and none is left |
| `AdminGuarantees.RolesFollowAudits` | services/identity-service/src/users/users.service.ts:96-100 | replaying the audit rows gives every role, and each row records the role that the earlier rows lead to |
| `AdminGuarantees.RoleChangeSucceedsIff` | services/identity-service/src/users/users.service.ts:81-102 | an uninterrupted change succeeds if and only if an administrator asks, the account exists and is not demoted by itself: the count then never refuses |
| `AdminGuarantees.RolesAreWrittenByAdmins` | services/identity-service/src/users/admin-users.controller.ts:23-30 | in every interleaving each audit row names as its author somebody who was an administrator at some moment of the run, and none demotes its own author |
| `Otp.OtpService.CreateOtp` | services/identity-service/src/otp/otp.service.ts:36-46 | code with its lifetime; counter and lock gone; other keys untouched |
| `Otp.OtpService.VerifyOtp` | services/identity-service/src/otp/otp.service.ts:60-106 | answer and new keys for every state of lock, code and counter; other keys untouched |
| `Otp.WrongGuessesAreBounded` | services/identity-service/src/otp/otp.service.ts:77-96 | at most 4 * ceil(ttl/300) + 1 wrong guesses are compared with one issued code |
| `Otp.BoundIsReached` | services/identity-service/src/otp/otp.service.ts:77-96 | for every lifetime and every wrong text a run of guesses reaches that bound |
| `Otp.FiveGuessesOnlyWithinOneWindow` | services/identity-service/src/otp/otp.service.ts:10-13 | five wrong guesses always suffice to lock if and only if the code lives at most 300 seconds |
| `Otp.AcceptedAtMostOnce` | services/identity-service/src/otp/otp.service.ts:99-105 | a code is accepted at most once |
| `Otp.LockExcludesCode` | services/identity-service/src/otp/otp.service.ts:84-90 | a lock and a code are never held together |
| `Otp.LockoutAnswers` | services/identity-service/src/otp/otp.service.ts:62-75 | after the locking guess every guess, right or wrong, is refused, with the error exactly for the lockout |
| `Otp.AnswersExactly` | services/identity-service/src/otp/otp.service.ts:60-106 | right if and only if not locked, held, unexpired and equal; each other answer and the new keys by exact conditions |
| `Otp.RightCodeIsAcceptedIff` | services/identity-service/src/otp/otp.service.ts:77-105 | after any number of wrong guesses the right code is accepted if and only if it comes in time and none of them locked |
| `Otp.FourGuessesAreForgiven` | services/identity-service/src/otp/otp.service.ts:83-96 | up to four wrong guesses never cost the holder the code |
| `Otp.FiveQuickGuessesLock` | services/identity-service/src/otp/otp.service.ts:79-95 | five wrong guesses, each within 300 seconds of the one before, do |
| `Rooms.RoomsService.Create` | services/discussion-service/src/rooms/rooms.service.ts:41-190 | checks of role, dates, parent and manager in order, then a room with its creator as active owner, a draft exactly for an event that starts later |
| `Rooms.RoomsService.Join` | services/discussion-service/src/rooms/rooms.service.ts:275-299 | re-joining keeps the personal permission |
| `Rooms.RoomsService.AssertCanPost` | services/discussion-service/src/rooms/rooms.service.ts:301-363 | the decision, and the membership created by posting |
| `Rooms.RoomsService.AddRule` | services/discussion-service/src/rooms/rooms.service.ts:394-427 | retires the active rule with the code and appends the next version |
| `Rooms.RoomsService.UpdateMembership` | services/discussion-service/src/rooms/rooms.service.ts:429-508 | owner, permission, last-owner and lock checks in order, one audit row |
| `Rooms.RoomsService.UpdatePolicy` | services/discussion-service/src/rooms/rooms.service.ts:602-634 | owner and lock checks in order, one audit row |
| `Rooms.RoomsService.UpdateStatus` | services/discussion-service/src/rooms/rooms.service.ts:510-520 | managers only |
| `RoomGuarantees.OwnerRemains` | services/discussion-service/src/rooms/rooms.service.ts:463-478 | every room has an active owner at every moment after its creation |
| `RoomGuarantees.LockHolds` | services/discussion-service/src/rooms/rooms.service.ts:479-486 | while the policy is locked no run by others than administrators changes policy, lock or any personal permission |
| `RoomGuarantees.AuditLogExplains` | services/discussion-service/src/rooms/rooms.service.ts:618-630 | replaying the audit rows gives the policy and all permissions, and each row records what the earlier rows lead to |
| `RoomGuarantees.RulesStayVersioned` | services/discussion-service/src/rooms/rooms.service.ts:402-420 | versions of each code are 1, 2, 3, ... with exactly the newest active; the room version counts all additions |
| `RoomGuarantees.GateAgreesWithPermission` | services/discussion-service/src/rooms/rooms.service.ts:522-540 | whoever may post is not shown as blocked, and needs approval if and only if shown so |
| `RoomGuarantees.LockedReviewAppliesToAll` | services/discussion-service/src/rooms/rooms.service.ts:320-362 | in a locked room with review and no personal exceptions nobody posts directly until an administrator acts |
| `MembershipGuarantees.CreateTakesEffect` | services/discussion-service/src/rooms/rooms.service.ts:41-190 | exactly when a room is created, and its fields, status and single active owner |
| `MembershipGuarantees.JoinTakesEffect` | services/discussion-service/src/rooms/rooms.service.ts:275-299 | exactly when joining succeeds; who never was or no longer is a member becomes a participant, with the permission kept, and nobody else changes |
| `MembershipGuarantees.MemberEditSucceedsIff` | services/discussion-service/src/rooms/rooms.service.ts:429-491 | an edit succeeds if and only if a manager asks, an owner where owners or permissions are concerned, another active owner remains, and an administrator where the lock binds |
| `MembershipGuarantees.MemberEditRefusals` | services/discussion-service/src/rooms/rooms.service.ts:435-491 | the error of a refused edit names the rule it breaks |
| `MembershipGuarantees.MemberEditTakesEffect` | services/discussion-service/src/rooms/rooms.service.ts:492-506 | the member has the role and status of the request and the permission it names; the audit row, and nothing else |
| `MembershipGuarantees.BannedCannotPost` | services/discussion-service/src/rooms/rooms.service.ts:332-337 | a banned or muted member is refused at every moment and shown as blocked |
| `MembershipGuarantees.BanHoldsUntilEdited` | services/discussion-service/src/rooms/rooms.service.ts:497-498 | after a ban or mute, through every run, that member cannot post and joining changes nothing, until a manager edits the membership |
| `MembershipGuarantees.MayPostIff` | services/discussion-service/src/rooms/rooms.service.ts:301-363 | posting is let through if and only if a table by posting policy and membership says so, directly or for approval by the own permission before the policy |
| `MembershipGuarantees.PostingChanges` | services/discussion-service/src/rooms/rooms.service.ts:305-329 | asking changes nothing but making a newcomer a member of an open public room for members |
| `MembershipGuarantees.AuditLogExplainsStanding` | services/discussion-service/src/rooms/rooms.service.ts:492-506 | in every run role and status of each member are what the last audit row set, and each row names the standing it replaced, up to joins by people who were not members or had left |
| `MembershipGuarantees.OutsidersOnlyJoin` | services/discussion-service/src/rooms/rooms.service.ts:380-392 | in every run, people who do not manage a room can change nothing about it but their own joining |
| `MembershipGuarantees.PolicyTakesEffect` | services/discussion-service/src/rooms/rooms.service.ts:602-634 | exactly when the policy is changed, and to what |
| `MembershipGuarantees.RuleTakesEffect` | services/discussion-service/src/rooms/rooms.service.ts:394-427 | exactly when a rule is added; it is the one active rule with its code, and all other texts and versions stay |
| `MembershipGuarantees.StatusTakesEffect` | services/discussion-service/src/rooms/rooms.service.ts:510-520 | exactly when the status is changed, and to what |
| `EventStream.ConsumeNotificationStream` | frontend/src/lib/notifications/stream.ts:2-27 | the nested loops emit exactly the messages of the whole text and keep its unfinished rest |
| `EventStream.ChunksDoNotMatter` | frontend/src/lib/notifications/stream.ts:10-23 | two ways of cutting a text into chunks give the same messages and the same rest |
| `EventStream.FramesRebuildInput` | frontend/src/lib/notifications/stream.ts:14-16 | frames, separators and rest put together again are the input |
| `EventStream.FramesAreClean` | frontend/src/lib/notifications/stream.ts:14-16 | no frame contains a separator and every separator is exactly one |
| `EventStream.ParsePrinted` | frontend/src/lib/notifications/stream.ts:17-22 | parsing printed messages gives them back with an empty rest |
| `EventLayouts.ParseWritten` | frontend/src/lib/notifications/stream.ts:14-23 | for every layout of a stream, data fields with or without a space, other lines, both line breaks in any mixture, the messages are the data of its blocks and an unfinished rest stays |
| `EventLayouts.ValueOfLine` | frontend/src/lib/notifications/stream.ts:17-22 | a line is data if and only if it begins with data:, and one space after the colon is dropped |
| `PathRewrite.RewritePath` | gateway/internal/proxy/reverse_proxy.go:143-180 | the loops compute the rewriting |
| `PathRewrite.ExtractParams` | gateway/internal/proxy/reverse_proxy.go:153-166 | a result if and only if the path fits the pattern, and then the values of its parameters |
| `PathRewrite.SplitOfJoin` | gateway/internal/proxy/reverse_proxy.go:179-188 | joining segments and splitting gives them back |
| `PathRewrite.JoinOfSplit` | gateway/internal/proxy/reverse_proxy.go:182-188 | splitting gives segments, and joining them the path without the slashes around it |
| `PathRewrite.RewriteInverts` | gateway/internal/proxy/reverse_proxy.go:143-180 | the rewritten path fits the other pattern with the same values, and rewriting back restores the path |
| `PathRewrite.RewriteMeaning` | gateway/internal/proxy/reverse_proxy.go:143-180 | segment by segment: without a match the bare backend pattern; with one, each known parameter is replaced by what stands in its last place, and everything else stays literally |

## Left out

- HTTP, TypeORM, SMTP, Cloudinary, ClamAV, bcrypt and JWT signing are not part of this model.
- Outbox rows written by the lifecycle operations, mentions and presentation of content: the delivery protocol starts from a committed row.
- Answer, comment and vote counters and tag counts are not fields of the lifecycle rows; they are modelled in `Counters` and `Tags`.
- Search, sorting, pagination, view counts, slugs and profile edits: easy, or without a kept invariant.
- Registration and change of e-mail addresses: the accounts of a run of `Sessions` exist when it starts.
- Names, slugs and descriptions of tags, and reading, listing and searching rooms.
- Academic catalogue, migrations and seed data, apart from the constraint on merged tags.
- Marking notifications read, and titles, bodies and priorities of notifications.
- The circuit breaker, round-robin choice of a backend, CORS and header middleware of the gateway.
- Switching between Redis and the local queue when Redis fails: each limiter is compared with the full history on its own.
- LocalLimiter.Limiter.CleanupVisitors: looking a visitor up and locking it is one step, so the race of the cleanup with a request that has loaded but not locked its visitor is not modelled.
- RedisLimiter.Redis.RateLimitWait: members with equal scores keep their order of insertion; Redis orders them by name, which no answer depends on, because only scores are read.
- Otp.OtpService.VerifyOtp: one call is one step; guesses racing between its Redis commands are not modelled.
- Sessions.AuthService.RefreshToken: one call is one step; the code takes no lock between reading and revoking the token.
- AdminGuarantees.AdminsRemain: does not promise an administrator for every run, because the code does not; it says exactly for which runs there is one.
- Sessions.UsersService.ChangePassword: the guard reads the account and the method saves it in one step; a role written in between, which saving the older copy could undo, is not modelled. The same holds for the account read by a reset.
- Rooms.RoomsService.Join: one call is one step, as is the insertion made by posting.
- Rooms.RoomsService.AssertCanPost: a missing room and every refusal by membership are one answer, so the services that ask report them alike as forbidden.
- Rooms.RoomsService.Create: the checks against the academic service and existing bindings are one parameter, and the binding itself is not stored.
- Rooms.RoomsService.UpdateStatus: reading and saving the room are one step; the code has no transaction or lock there, and a policy lock set in between could be overwritten, which `RoomGuarantees.LockHolds` does not cover.
- Discussions.DiscussionsService.Create: the academic fields of a post are checked but not stored, and the outbox event is not written.
- Tags.TagsService.SetStatus: reading and saving are one step; the code uses no transaction there.
- DeliveryProgress.CommittedCanBeNotified: states that delivery stays possible, not that a scheduler brings it about.
- EventStream.ParsePrinted: messages with a carriage return before a line feed or at the end are excluded; the parser itself is modelled on all text.
