# Verification of a learning game backend

This project models the server side of a small learning game and proves what its rules keep true. Players
solve programming and SQL problems; submissions are graded by a pool of workers; correct ones earn coins;
coins buy furniture and random draws; friends compete in battle rooms. Each database transaction is one
atomic step on the tables, an error is a step that changes nothing, and the state-changing services are
classes whose methods work on the tables in place and are proved equal to step functions. The main
theorems are about every run of those steps.

| files | what they cover |
|---|---|
| `Attempts`, `Grading`, `GradingService`, `Fencing`, `Progress`, `GradingRewards`, `Verdicts`, `Submissions` | the grading lease protocol: exclusive leases, fencing tokens, progress, what stored results mean, coins paid, which submissions are taken |
| `Battle`, `BattleService`, `BattleRuns`, `RoomEntry` | battle rooms: who gets in, when they finish, what scores mean |
| `TaskOrder`, `RoundRobin`, `Recommendation`, `PageOrder` | the daily scheduler: rotated positions, mutating round-robin, four-pass filler, and what comes before what |
| `SqlGate`, `SqlForms` | the SQL scanner with its six states, the forms it skips, and the checks built on it |
| `Ledger`, `EconomyRuns`, `Commands`, `AssetSession`, `Economy`, `Rewards` | idempotent purchases, draws and consumption, what each asks and gives, and the session overlay under them |
| `RateLimit` | tumbling windows and blocks of the login limiter |
| `Grid`, `Housing`, `RoomSafety` | furniture on the room grid |
| `CatMemory`, `Attendance` | bounded distinct memories; streaks and what they pay |
| `Common`, `FiniteSets` | optional values, trimming, products of finite sets |

`dafny verify dfyconfig.toml` checks everything.

Three results differ from what one would first expect of the code:

- The login limiter reads its first clock before it is granted the row lock, so that reading may be older than
  the failure recorded last. For every setting and limit, any interval of length min(window, block) holds at
  most 2·limit recorded failures in all runs whose readings are at most `lag` old exactly when
  lag ≤ max(0, window − block) (`RateLimit.BoundHoldsIff`). One microsecond more, and some run records 2·limit + 1
  (`RateLimit.WaitingForTheLockAddsOne`), which no serialised run exceeds (`RateLimit.SerialBound`).
- A block that outlasts the window of its bucket ends with the window, as the refresh clears both: the bucket
  asks for a wait exactly while the block is on and the window open, so it may let a login pass before the
  Retry-After value it gave is over (`RateLimit.WaitIsExact`).
- `recommended_tasks` compares the page length with the limit only after adding, so a limit below one returns
  every eligible problem: a page stays within its limit exactly when the limit is one or more, or nothing is
  eligible (`Recommendation.PageWithinLimit`).

## Model

| member | source | states |
|---|---|---|
| Fencing.PersistedOnceByLastToken | app/modules/grading/service.py:175-272 | in every run, with any workers, re-claims and stale results, a result is persisted only with the token issued last for its attempt, at most once, and nothing happens to the attempt afterwards |
| Fencing.TokenIffRunning | app/modules/grading/service.py:225-231 | in every reachable state an attempt has a lease token exactly when it is RUNNING, and it is the token issued last |
| Fencing.GradedIsFinal | app/modules/grading/service.py:409-432 | a COMPLETED or FAILED attempt never changes again in any field, whatever happens |
| Fencing.StaleLeaseChangesNothing | app/modules/grading/service.py:419-429 | a lease that is no longer current changes nothing, now and after any further run |
| Fencing.LeasedAgainFencesOlder | app/modules/grading/service.py:194-272 | once an attempt is leased again, no result under an earlier lease of it is accepted or changes anything, after any further run |
| Fencing.LeaseIsExclusive | app/modules/grading/service.py:211-231 | in every run two leases on one attempt are issued more than one lease time apart, by the clocks their claims read: a lease that still runs is never taken over |
| Fencing.ClaimNextExactly | app/modules/grading/service.py:175-231 | a claim finds nothing exactly when every attempt nobody has locked is graded or under a lease that still runs; otherwise it leases the oldest of the others and changes nothing else |
| Fencing.ClaimOneExactly | app/modules/grading/service.py:194-222 | one named attempt is leased exactly when it is not graded and no lease on it still runs |
| Verdicts.CorrectIffAccepted | app/modules/grading/service.py:427-430 | in every reachable state an attempt is correct exactly when its stored verdict is ACCEPTED, has no correctness exactly when it is ungraded or a system failure, is FAILED exactly for a system failure and COMPLETED exactly for any other verdict |
| Verdicts.StartedIffRunning | app/modules/grading/service.py:225-231 | in every reachable state an attempt has a lease time exactly while it is RUNNING |
| Verdicts.StoredIffReported | app/modules/grading/service.py:409-432 | in every run an attempt holds a verdict exactly when a result with that verdict was reported under a lease and accepted |
| Verdicts.FirstIsPaid | app/modules/grading/service.py:434-471 | told from the events of a run: an accepted result pays the reward exactly when it reports ACCEPTED for an attempt made since the reset on record and no earlier event earned the same user's problem on the same game date |
| Submissions.TakenExactly | app/modules/grading/service.py:68-166 | a submission under a new request id is taken exactly when problem, tier, presentation, form of the answer, daily task, battle room and user all fit, and then becomes one PENDING attempt |
| Submissions.AttemptsFit | app/modules/grading/service.py:82-128 | in every reachable state every attempt fits its rows: the day and owner of its daily task, the room and problem of its battle task, the form and options of what its user was shown |
| Submissions.ClosedExactly | app/modules/grading/service.py:475-483 | daily tasks are closed exactly by solving them and reopened exactly by a reset of their user; presentations are closed exactly by solving them |
| Submissions.SolvedTakesNoMore | app/modules/grading/service.py:82-115 | in every run, what was solved takes no further attempt of anybody: a presentation for good, a daily task until its user is reset |
| Submissions.MidnightInSeoul | app/core/time.py:10-18 | two moments have the same game date exactly when no midnight in Seoul lies between them |
| Fencing.SubmissionsStay | app/modules/grading/service.py:115-166 | attempts are never removed and what was submitted never changes |
| Fencing.SubmittingAgain | app/modules/grading/service.py:58-66 | in every reachable state a known request id replays its own attempt for the same user and submission, conflicts otherwise, and changes nothing |
| Attempts.OldestIsLeast | app/modules/grading/service.py:180-188 | a claim takes the least (attempted_at, id) among the claimable attempts nobody has locked, and finds none exactly when there is none |
| Progress.AcceptedIffCurrent | app/modules/grading/service.py:409-488 | in every reachable state a result is accepted exactly when its lease is current: the missing-row errors cannot occur |
| Progress.PersistDrops | app/modules/grading/service.py:266-272 | every accepted result leaves exactly one attempt less to grade |
| Progress.ReachableDrains | app/modules/grading/worker.py:25-39 | from any reachable state, with a clock read for each claim and every reading more than one lease time after the last lease: each round grades one attempt, and as many rounds as there are ungraded attempts grade them all |
| GradingService.Service.CreateAttempt | app/modules/grading/service.py:58-166 | submission row by row: replay or conflict for a known request id, each refusal in the order of the code (task, tier, presentation, content, daily task, battle), otherwise a PENDING attempt and a new state version |
| GradingService.Service.ClaimNextAttempt | app/modules/grading/service.py:175-191 | the claim leases the oldest unlocked claimable attempt under a fresh token, or nothing |
| GradingService.Service.ClaimAttempt | app/modules/grading/service.py:194-208 | one named attempt is leased only if it can be claimed |
| GradingService.Service.PersistResult | app/modules/grading/service.py:409-488 | the field-by-field write, with rollback on any missing row, has exactly the effect of the atomic persist step |
| GradingService.Service.GradeClaimedAttempt | app/modules/grading/service.py:234-272 | a missing task is a system failure, and a lease that is not current leaves everything alone |
| GradingService.Service.RunWorker | app/modules/grading/worker.py:25-39 | claiming and grading in turn, with the clock read for each claim, equals the rounds of the draining theorem, and the accepted results account exactly for the drop in ungraded attempts |
| GradingService.Service.ResetLearningProgress | app/modules/game/commands.py:241-264 | a reset stamps the user and reopens all daily tasks of that user only |
| GradingRewards.RewardsAreConserved | app/modules/grading/service.py:427-471 | over every run and per user, coins on attempts, coins on completions and the balance gained from grading are the same number |
| GradingRewards.PaidOncePerDay | app/modules/grading/service.py:447-468 | completion keys are distinct, and of two attempts of one user on one problem and game date at most one ever holds coins |
| GradingRewards.NothingForOldAttempts | app/modules/grading/service.py:434-447 | an attempt made before the reset on record when it is graded never holds coins, in any later state either |
| GradingRewards.ResetIsFinal | app/modules/game/commands.py:241-264 | after a learning reset no older attempt of the user is ever paid, however late it is graded |
| BattleRuns.FinishedIffAllDone | app/modules/battle/service.py:110-131 | in every run a started room is FINISHED exactly when every participant has a COMPLETED attempt on every room task, though the code compares two counts |
| BattleRuns.CountDecides | app/modules/battle/service.py:119-131 | the count of distinct pairs reaches participants times tasks exactly when every pair has a completed attempt |
| BattleRuns.ScoreIsSolvedTasks | app/modules/battle/service.py:134-161 | in every run a score is the configured points times the number of distinct room tasks solved, whatever the order of grading |
| Verdicts.ScoreCountsAccepted | app/modules/battle/service.py:134-161 | in every run a score is the configured points times the number of room tasks on which an accepted result of the participant reported ACCEPTED |
| Verdicts.FinishedIffAllAnswered | app/modules/battle/service.py:110-131 | in every run a started room is FINISHED exactly when every participant has, on every room task, an accepted result that is not a system failure |
| RoomEntry.StartsExactly | app/modules/battle/service.py:69-95 | a room starts exactly when scoring is configured, its host asks while it waits, two or more take part and all are ready, and the problems are some, different and active; then it runs with one row for each |
| RoomEntry.JoinsExactly | app/modules/battle/service.py:33-52 | joining succeeds exactly while the room waits, for those inside and for others while there is a place |
| RoomEntry.CreatesAndReadiesExactly | app/modules/battle/service.py:23-66 | a room starts out waiting with its host ready in it; readiness changes only for participants while it waits |
| RoomEntry.StartedAreReady | app/modules/battle/service.py:75-80 | in every reachable state the host takes part, and everybody in a started room is ready |
| RoomEntry.ParticipantsStay | app/modules/battle/service.py:33-52 | once a room was started its participants stay the same along every run |
| BattleRuns.RoomSizes | app/modules/battle/service.py:33-52 | participants never exceed the maximum; a waiting room has no tasks, a started one at least two participants and one task |
| BattleRuns.RoomsOnlyGoForward | app/modules/battle/service.py:69-131 | along every run from any state a room's status stays or moves to the next of WAITING, RUNNING, FINISHED |
| BattleService.BattleRooms.StartRoom | app/modules/battle/service.py:69-95 | starting row by row: every refusal, then one new row per room task and the new status |
| BattleService.BattleRooms.JoinRoom | app/modules/battle/service.py:33-52 | joining twice changes nothing, a full or started room refuses |
| BattleService.BattleRooms.RecordAttemptResult | app/modules/battle/service.py:134-161 | points for the first correct attempt only, then the finish check; nothing changes when a row is missing |
| TaskOrder.OrderIsLatinSquare | app/modules/learning/proficiency.py:282-304 | over any L consecutive dates a problem of an unchanged group of size L stands in each of the group's L positions of its concept's order on exactly one date |
| TaskOrder.StandsByRanking | app/modules/learning/proficiency.py:282-304 | closed form: a problem with i of its difficulty before it in the user's own ranking stands at (i − date − user − concept) modulo their number, behind all easier ones |
| TaskOrder.SameProblem | app/modules/learning/proficiency.py:265-274 | two rows pose the same problem exactly when they are one row or variants of one story of the same concept and difficulty |
| TaskOrder.OrderRespectsRank | app/modules/learning/proficiency.py:282-304 | the positions of a concept are a permutation of its problems that never puts a harder one before an easier one |
| RoundRobin.RotatedTaskPositions | app/modules/learning/proficiency.py:282-304 | the loops that number the rotated groups give every problem its index in that order |
| RoundRobin.DiversifyDailyTasks | app/modules/learning/proficiency.py:209-262 | the round-robin that mutates its candidate lists returns the column-major reading of the per-concept lists, cut at the limit |
| RoundRobin.RoundsAreFair | app/modules/learning/proficiency.py:237-262 | after r full rounds every concept has contributed the first min(r, length) entries of its own list |
| RoundRobin.ColumnIsOrdered | app/modules/learning/proficiency.py:243-256 | within a concept no problem key repeats and difficulty never decreases |
| RoundRobin.DiversifiedCovers | app/modules/learning/proficiency.py:209-262 | the uncut reading covers the key of every input problem |
| RoundRobin.DiversifiedFrom | app/modules/learning/proficiency.py:209-262 | the reading holds only input problems |
| PageOrder.TurnsInOrder | app/modules/learning/proficiency.py:237-262 | of two problems of the daily order, the later one's concept had more turns before, or as many and a later place among the concepts |
| PageOrder.WeakConceptsFirst | app/modules/learning/proficiency.py:222-228 | before a weak concept stand only weaker ones, for up to 999 weak concepts |
| PageOrder.EasierFirst | app/modules/learning/proficiency.py:243-256 | within a concept no harder problem stands before an easier one |
| Recommendation.RecommendedTasks | app/modules/learning/proficiency.py:150-206 | the four passes with their early return equal first occurrences by key of the four candidate lists in order, cut at the limit |
| PageOrder.PageInOrder | app/modules/learning/proficiency.py:194-206 | on a page, problems not attempted recently stand before those that were, those of weak concepts before the others of either kind, and a problem posed by several rows is posed by one of the best class |
| PageOrder.PageHolds | app/modules/learning/proficiency.py:169-176 | a page holds only active rows of the domain and difficulties asked for; one that is not cut poses all their problems |
| PageOrder.RowsInOrder | app/modules/learning/proficiency.py:178-188 | the rows of a pass come by weak concept, weaker first, and by difficulty within a concept |
| Recommendation.PageIsDistinct | app/modules/learning/proficiency.py:191-206 | a page repeats no problem key and holds only eligible rows |
| Recommendation.LargerPageExtends | app/modules/learning/proficiency.py:191-206 | for limits from one up, the page of a smaller limit is a prefix of the page of a larger one |
| Recommendation.PageWithinLimit | app/modules/learning/proficiency.py:150-206 | a page stays within its limit exactly when the limit is one or more or no problem is eligible |
| Recommendation.ShortPageCovers | app/modules/learning/proficiency.py:191-206 | a page shorter than its limit, and any page for a limit below one, covers the key of every eligible problem |
| Recommendation.CandidatesCover | app/modules/learning/proficiency.py:169-189 | one candidate list holds only rows of its pass and covers the keys of all of them |
| SqlGate.TokensAndSemicolons | app/modules/grading/sql_sandbox.py:57-132 | the scanning loop returns what the recursive scan of the statement gives: tokens, semicolon positions, or unterminated |
| SqlGate.ScrubIdempotent | app/modules/grading/sql_sandbox.py:57-132 | the blanked text of any statement scans to itself, and lexing it never fails and gives the same tokens and semicolons |
| SqlForms.ScanJoin | app/modules/grading/sql_sandbox.py:57-130 | texts laid end to end are scanned one after the other when the first ends in the normal state and nothing that opens a form straddles the seam |
| SqlForms.PlainIsCopied | app/modules/grading/sql_sandbox.py:67-95 | text is copied unchanged exactly when no quote, comment or dollar tag opens in it, and then every semicolon of it counts |
| SqlForms.LexAroundForm | app/modules/grading/sql_sandbox.py:67-132 | a literal, a quoted name, a comment to the end of the line, a block comment or dollar-quoted text leaves no token and no semicolon: the tokens around it are kept, and later semicolons move by its width |
| SqlForms.UnclosedForm | app/modules/grading/sql_sandbox.py:130-132 | a statement that ends inside a form is unterminated, except inside a comment to the end of the line |
| SqlForms.EveryStatement | app/modules/grading/sql_sandbox.py:57-132 | every statement is plain text, or plain text before a form and a rest, or plain text before a form never closed, and lexes accordingly: the laws of the forms determine the lexer |
| SqlForms.WordIsToken | app/modules/grading/sql_sandbox.py:132 | every word is one token in upper case, and the texts around it have the tokens they have alone |
| SqlForms.SealedAgainstForms | app/modules/grading/sql_sandbox.py:67-93 | nothing straddles the seam before a form, except a dash before a line comment and an open dollar tag before dollar-quoted text |
| SqlForms.NoWords | app/modules/grading/sql_sandbox.py:132 | text without letters and underscores has no token |
| SqlForms.TagsAre | app/modules/grading/sql_sandbox.py:86-93 | two dollar signs with a word or nothing between them open dollar-quoted text |
| SqlForms.OnlyTags | app/modules/grading/sql_sandbox.py:86-93 | nothing else opens it |
| SqlForms.VerdictIgnoresForms | app/modules/grading/sql_sandbox.py:135-149 | the gate judges a statement alike whatever form stands at a place and whatever it says |
| SqlForms.GateAccepts | app/modules/grading/sql_sandbox.py:135-149 | a statement passes exactly when it lexes, its first word is one of the mode's, none of its words is forbidden in the mode, a schema statement names an object it may change, and only whitespace follows its first semicolon |
| SqlForms.OneModeOnly | app/modules/grading/sql_sandbox.py:45-51 | no statement passes in two modes |
| SqlGate.ScrubKeepsAcceptance | app/modules/grading/sql_sandbox.py:135-149 | the blanked text of an accepted statement is accepted |
| EconomyRuns.TablesAreFold | app/db/repositories.py:341-404 | in any interleaving of commands, failures, retries and incoming coins, the tables are the fold of the committed executions from their stored costs and results, the log is exactly those, request ids are distinct, balances, mileage and quantities stay in bounds, all are COMPLETED with a result |
| EconomyRuns.StepIsEffect | app/modules/shop/service.py:37-101 | a command either changes nothing or logs one execution whose stored data alone determines the change; the no-result-data error cannot occur |
| Commands.PurchaseExactly | app/modules/shop/service.py:64-99 | a purchase goes through exactly when the item exists, is not a wallpaper the user has, its price is not negative and price times quantity is within the balance; the balance falls and the quantity rises by exactly that, and the log says so |
| Commands.PurchaseRefusals | app/modules/shop/service.py:64-76 | a refused purchase reports the first of the reasons |
| Commands.ConsumeExactly | app/modules/shop/consumables.py:70-97 | consumption goes through exactly for a consumable with an effect, an owned cat and one left; then one is gone and nothing else changes |
| Commands.CatDrawExactly | app/modules/gacha/service.py:64-117 | a cat draw goes through exactly when its cost is not negative and within the balance and the policy gave as many known cats without negative mileage; balance and mileage change by exactly that |
| Commands.GameDrawExactly | app/modules/game/gacha.py:115-175 | with every reward in the catalogue a game draw goes through exactly when the balance covers 30 for one or 300 for eleven; draw i gives the reward in whose share the i-th random value falls, and each repeated cat gives 15 coins back |
| Commands.LoggedIsPriced | app/modules/shop/service.py:72-96 | every execution a run has logged costs and gives what its request says: price times quantity, 30 or 300, the policy's cost, or nothing |
| EconomyRuns.ReplayReturnsStored | app/modules/shop/service.py:57-62 | once a command went through, the same request returns the stored result and changes nothing after any further run, whatever the random source would say |
| EconomyRuns.OtherRequestConflicts | app/db/repositories.py:371-381 | the same request id with another user, operation or payload conflicts after any further run |
| EconomyRuns.CoinsAreConserved | app/modules/game/gacha.py:97-175 | a balance is the start plus coins received minus logged costs plus logged refunds, and never negative |
| EconomyRuns.ItemsAreConserved | app/db/repositories.py:156-187 | a quantity is the start plus what the log says was bought and drawn minus what was used |
| EconomyRuns.ElevenDraws | app/modules/game/gacha.py:124-175 | eleven draws end at balance - 300 + 15 per repeated cat, and a cat counts as repeated exactly when owned before or drawn earlier in the same draw |
| EconomyRuns.CatDrawsExact | app/modules/gacha/service.py:87-117 | a cat draw grants each new cat once and pays the policy's mileage exactly for the repeats |
| AssetSession.Assets.GetAsset | app/db/repositories.py:110-154 | pending-first lookup answers as a plain map of what will be owned |
| AssetSession.Assets.AddItemQuantity | app/db/repositories.py:156-177 | adding refuses a quantity that is not positive and otherwise adds on the plain map, pending or stored |
| AssetSession.Assets.GrantCat | app/db/repositories.py:205-221 | granting adds a cat once on the plain map |
| AssetSession.Assets.ConsumeItemQuantity | app/db/repositories.py:179-187 | consuming takes one away on the plain map and removes the last, or reports why not |
| AssetSession.Assets.Flush | app/db/repositories.py:189-203 | the flush writes exactly the plain map and never two rows for one user and item or one user and cat |
| Economy.UnitOfWork.Execute | app/db/unit_of_work.py:39-48 | every command, run statement by statement in a session that commits or rolls back, equals its atomic step on plain maps |
| Economy.UnitOfWork.SpendPurchase | app/modules/shop/service.py:64-88 | purchase: missing item, wallpaper owned already, too little balance, then cost and quantity as the outcome says |
| Economy.UnitOfWork.SpendCatDraw | app/modules/gacha/service.py:64-117 | cat draw: the policy's answers are refused as the code refuses them, and the loop grants and awards as the outcome says |
| Economy.UnitOfWork.SpendGameDraw | app/modules/game/gacha.py:115-159 | game draw: the loop over balance, assets and rewards ends as the outcome says or with the first missing catalogue row |
| Economy.UnitOfWork.SpendConsume | app/modules/shop/consumables.py:70-84 | consumption: each refusal in order, then one item less |
| Economy.UnitOfWork.ClaimExecution | app/db/repositories.py:341-389 | claiming inserts an unfinished execution once and tells new, finished and conflicting requests apart |
| Rewards.DrawReward | app/modules/game/gacha.py:178-185 | the accumulating loop picks the first reward whose boundary is past the clamped value |
| Rewards.ChosenExactly | app/modules/game/gacha.py:178-185 | a reward is chosen exactly when the value falls in its own share of the interval |
| Rewards.ChancesAddUp | app/modules/game/gacha.py:30-58 | with every group filled the weights are positive and add up to one, so the fallback is never needed |
| Rewards.OddsOf | app/modules/game/gacha.py:30-58 | every furniture item is in the pool with its kinds' budget shared equally by the items of these kinds |
| Rewards.PoolHolds | app/modules/game/gacha.py:38-45 | the pool holds the six cats, ink at one in twenty and each other at one in a hundred, and catalogue items only |
| Rewards.CatOneInTen | app/modules/game/gacha.py:30-58 | with every group filled a draw gives a cat exactly for values below one tenth |
| RateLimit.AuthRateLimit.Login | app/modules/identity/router.py:131-166 | check, then record: a failure is counted only when the check asked for no wait |
| RateLimit.BlockedRetryAfter | app/modules/identity/rate_limit.py:77-95 | every row is checked and the longest wait is returned, none when no row asks for one |
| RateLimit.RecordFailedAttempts | app/modules/identity/rate_limit.py:98-113 | every row counts one failure, and a block is reported exactly when some row reaches the limit |
| RateLimit.RateTable.LockRateBuckets | app/modules/identity/rate_limit.py:24-74 | one row per distinct hash, missing ones created, each refreshed, all others untouched |
| RateLimit.CheckOnlyReports | app/modules/identity/rate_limit.py:77-95 | in a reachable login bucket the check never starts a block itself, and lets a login pass exactly when no block is on |
| RateLimit.SerialBound | app/modules/identity/rate_limit.py:77-147 | over any serialised logins the counter stays within the limit and any half-open interval of length min(window, block) holds at most 2·limit + 1 recorded failures |
| RateLimit.BoundHoldsIff | app/modules/identity/rate_limit.py:31-147 | for any setting, limit and lag: every half-open interval of length min(window, block) holds at most 2·limit recorded failures in every run whose first clock readings are at most lag old, exactly when lag ≤ max(0, window − block) |
| RateLimit.SlidingBound | app/modules/identity/rate_limit.py:77-147 | the if-part, run by run: 2·limit failures at most while the readings are no older than the allowed lag |
| RateLimit.WaitingForTheLockAddsOne | app/modules/identity/rate_limit.py:31-73 | the only-if-part: for every setting and limit a run, one microsecond beyond the allowed lag, that records 2·limit + 1 failures in one interval |
| RateLimit.LongestWaitSuffices | app/modules/identity/rate_limit.py:84-95 | after waiting out the returned Retry-After value no bucket of the call asks for a wait, if nothing else touches them |
| RateLimit.WaitIsExact | app/modules/identity/rate_limit.py:77-147 | the wait is the time to the end of the block in whole seconds rounded up; the bucket asks again exactly while the block is on and the window open |
| RateLimit.RegistrationsInWindow | app/modules/identity/rate_limit.py:77-121 | a bucket lets exactly the limit of registrations through in one window, and asks the next one to wait for a block |
| RateLimit.UniqueInOrder | app/modules/identity/rate_limit.py:32 | hashes are taken once, in the order of their first occurrences |
| RoomSafety.RoomsAreSafe | app/modules/housing/service.py:80-267 | after any run, for every user, catalogued furniture has disjoint cell sets inside the 10 by 8 grid, takes at most 80 cells, and no item is placed more often than owned |
| RoomSafety.PlacedIffFree | app/modules/housing/service.py:103-141 | under a new id a placement succeeds exactly when one more is owned than placed and its cells are free and inside |
| RoomSafety.TroubleIsExact | app/modules/housing/service.py:217-267 | the scan finds no trouble exactly when the place is whole, inside, and shares no cell with any other object of the user |
| RoomSafety.FreeMeans | app/modules/housing/service.py:217-267 | a place is free exactly when coordinates are whole, the turn is none or a quarter, the object, turned, lies between the walls, and no cell of it lies under another object of the user |
| RoomSafety.PlaceRefusals | app/modules/housing/service.py:88-132 | a placement under a new id is refused for the first of its reasons, and changes nothing then |
| RoomSafety.TakenIdDecides | app/modules/housing/service.py:103-114 | under a taken id the same owner, item and position replay, and anything else conflicts |
| RoomSafety.MovedIffFree | app/modules/housing/service.py:152-191 | an object is moved exactly when the new place is free of the others, and nothing else changes |
| RoomSafety.OthersMayNot | app/modules/housing/service.py:160-208 | only the owner moves or removes an object |
| RoomSafety.StartedExactly | app/modules/game/bootstrap.py:25-109 | the starter pack goes to a known user once: fixed quantities only where there is no such item, the five of the layout only to who has placed nothing |
| RoomSafety.PlacingAgain | app/modules/housing/service.py:103-114 | a placement that went through, sent again under its id after anything any user tried meanwhile, changes nothing as long as the owner neither moved nor removed the object |
| RoomSafety.MovingNowhere | app/modules/housing/service.py:175-183 | an object may always be moved to where it is |
| RoomSafety.RemovedMayReturn | app/modules/housing/service.py:194-214 | removing leaves exactly the other objects, and the removed one may be placed again under its id |
| RoomSafety.StarterLayoutOk | app/modules/game/catalog.py:352-361 | the starter layout lies on the grid without overlaps |
| Grid.OverlapIffSharedCell | app/modules/housing/service.py:259-265 | the four comparisons hold exactly when the two rectangles share a cell |
| Grid.AreaFits | app/modules/game/catalog.py:360-361 | disjoint rectangles on the grid never cover more than 80 cells |
| Housing.EnsurePlacementFree | app/modules/housing/service.py:217-267 | the scanning loop reports the first trouble in insertion order, skipping the excluded and the uncatalogued |
| Housing.RoomService.PlaceFurniture | app/modules/housing/service.py:80-149 | placing row by row: replay, conflict, every refusal, or one new row |
| Housing.RoomService.UpdateFurniturePlacement | app/modules/housing/service.py:152-191 | moving changes one row's position or nothing |
| Housing.RoomService.BootstrapStarterPack | app/modules/game/bootstrap.py:25-109 | a known user gets the starter pack once: quantities only where missing, the layout only into an empty room |
| CatMemory.MemoryStore.StoreBounded | app/modules/cats/service.py:229-277 | the scans and removals leave the newest of each trimmed summary, the newest few of those, and the new one appended if it was not there; count and flags are exact |
| CatMemory.MemoryStore.Trim | app/modules/cats/service.py:245-260 | retained and removed memories partition the list, and the retained ones keep their order |
| CatMemory.KeptExactly | app/modules/cats/service.py:245-257 | a memory is kept exactly when its summary does not occur again later and fewer than the limit of different summaries do |
| CatMemory.StoredIsBounded | app/modules/cats/service.py:229-277 | after storing, summaries are distinct, at most the limit, and the new one is among them |
| CatMemory.StoredExactly | app/modules/cats/service.py:229-277 | a memory stays through storing exactly when its summary does not occur again later and there is room for it among the newest, one place less when the summary stored is new; a new one is added last |
| CatMemory.DeletesExactly | app/modules/cats/service.py:280-328 | deleting takes exactly one memory and keeps the order of the others |
| CatMemory.StoringAgain | app/modules/cats/service.py:262-271 | storing the same summary again, under any limit at least as large, changes nothing |
| CatMemory.RunStaysBounded | app/modules/cats/service.py:189-328 | after any run of add and delete commands summaries are distinct and never blank, and the number is within the largest limit used |
| Attendance.StreaksAreMaximalRuns | app/modules/game/commands.py:108-131 | in any run of claims, daily visits and rewards with days not going back, each streak is the length of the longest run of consecutive days ending there |
| Attendance.ClaimPaysByRun | app/modules/game/commands.py:115-133 | a claim succeeds exactly on a day without a row and pays 100, plus 150 or 500 by the run of days it completes |
| Attendance.ConsecutiveAwards | app/modules/game/commands.py:28-29 | n claims on consecutive days after a gap award 100n + 150⌊(n+4)/7⌋ + 500⌊n/7⌋ |
| Attendance.OnePaymentPerDay | app/modules/daily_mission/service.py:70-95 | a day pays at most once, by attendance or by mission reward, and exactly the claimed rows have paid |
| Attendance.RewardExactly | app/modules/daily_mission/service.py:70-95 | a mission reward pays its amount exactly when the day has an unpaid row and the mission is done, and marks that row alone |
| Attendance.CallsOnADay | app/modules/daily_mission/service.py:19-56 | with days in order a second claim is refused as claimed, and a visit finds the day's row or opens an unpaid one |
| Attendance.Player.ClaimAttendance | app/modules/game/commands.py:97-141 | the claim adds one row, its award to the balance and one state version, or changes nothing |
| Attendance.Player.GetOrCreateDaily | app/modules/daily_mission/service.py:19-56 | a daily visit returns the day's row or opens one with yesterday's streak plus one; too few problems undo it |

## Left out

- Routers, request schemas, sessions, CSRF, password hashing, the language model, the code and SQL sandboxes, migrations, analytics views and seeding scripts: input and output, or code of other libraries.
- Interleavings inside a transaction: each committed transaction is one step. In particular the battle finish check takes no room lock, so nothing is said about two persists interleaved statement by statement.
- Request hashes: modelled as the operation with its payload, that is, as an injective function. Random draws, rank digests, verdicts, generated ids and the gacha policy's answers are arbitrary inputs; lease tokens and generated room-task ids are fresh.
- RateLimit.BoundHoldsIff: about login attempts on one IP bucket, one after another under its row lock; the registration conflict path, which records without checking again, is not a step of these runs.
- RateLimit.RateTable.LockRateBuckets: returns the rows in the order of the requested hashes, where the query fixes none; of the two insert forms the one that looks for existing rows first is modelled.
- RateLimit.AuthRateLimit.Login: the account bucket of the login appears only through its outcome; resetting it is RateLimit.AuthRateLimit.ResetRateBucket.
- GradingService.Service.CreateAttempt: whether the task's tier is unlocked is an input, as the tier rows are not modelled; so is everything the runner does with the submission.
- GradingService.Service.PersistResult: the proficiency row and the tier are not modelled, and of the stored result detail only the verdict. The first read of a graded attempt is not a step of its own, as a lease that fails it can never become current again.
- GradingService.Service.ResetLearningProgress: the deleted proficiency and tier rows are not modelled.
- GradingService.Service.RunWorker: the polling wait, the heartbeat and the stop signal are not modelled.
- BattleService.BattleRooms.StartRoom: the order numbers of room tasks, team names and titles are not modelled; the configured score is not negative. Scores are not claimed to freeze when a room finishes, since late gradings still score.
- SqlGate.TokensAndSemicolons: about ASCII text and the code's own rules. PostgreSQL nests block comments and knows backslash escapes; the code does neither, and no agreement with PostgreSQL's own lexer is claimed.
- Recommendation.RecommendedTasks: the weak concepts and the recently attempted ids are inputs, and the prompt text inside a problem key is one abstract value. A number of weak concepts from 999 up, where the source's default rank collides, is as in the source.
- PageOrder.WeakConceptsFirst: for up to 999 weak concepts; from there on the source's default rank ties with real ones.
- TaskOrder.StandsByRanking: for a ranking without ties, as digests of different problems give it.
- Commands.GameDrawExactly: for a pool whose items and cats are all in the catalogue; a draw that meets a missing one is refused, as Economy.UnitOfWork.SpendGameDraw says.
- Rewards.DrawReward: weights and values are exact reals, not floating point numbers.
- Rewards.ChancesAddUp: exact in reals; the sum of the rounded weights is not modelled.
- Rewards.CatOneInTen: exact in reals; the rounded boundary is not modelled.
- Economy.UnitOfWork.SpendGameDraw: catalogue rows are given; the insertion of missing ones before a draw is not modelled.
- AssetSession.Assets: an asset deleted in a session is not looked up again in the same session, as no command does; object identity of loaded rows is modelled by their keys.
- Housing.RoomService.BootstrapStarterPack: the starter cats, the active cat and the error for an unseeded catalogue are not modelled.
- Housing.RoomService.PlaceFurniture: the state version is not modelled; a generated id that is taken already is refused, which the database does by its unique index.
- Housing.RoomService.UpdateFurniturePlacement: the state version is not modelled.
- Housing.RoomService: surfaces are not modelled; the coordinates stored as floats are reals here. Furniture without a size in the catalogue is placed without a grid check, as in the source, so the grid theorems are about catalogued furniture.
- CatMemory.MemoryStore: one cat's list; the user and ownership lookups around the commands and the chat that also stores memories are not modelled.
- Attendance.Player.GetOrCreateDaily: of the assigned problems only whether there are enough is modelled, not their rows.
- Attendance.StreaksAreMaximalRuns: claimed for days that do not go back, as the calendar supplies them; with an earlier date a claim can fail on the unique date or start at one again.
- Tier promotion, option shuffling, settings, active-cat selection and the daily reward keys: true but easy members.
