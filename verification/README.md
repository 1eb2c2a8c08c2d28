# Sahay matching core: a Dafny model

Sahay matches people at an event who need something (a *request*) with people nearby who have it (a *helper* with
an *inventory item*). The server asks one helper at a time by an *offer* that times out; an accepted offer becomes a
*match* that reserves stock until both sides confirm what changed hands. This project models that engine and the
background work around it, and proves what it promises over every input, every run and every interleaving.

`dafny verify dfyconfig.toml` checks the whole project. Automatic induction is off on every lemma
(`{:induction false}`), so each induction is one written out in a body.

## Files

| file | contents |
|---|---|
| `Domain.dfy` | rows, statuses, the permitted request transitions |
| `Ranking.dfy` | reliability arithmetic, score, stable sort, choice of the winner |
| `Transactions.dfy` | every database transaction on requests, offers, matches and stock, as a function on the tables |
| `Ledger.dfy`, `Invariants.dfy` | sums over matches; the invariant and its preservation by every transaction |
| `Interleaving.dfy` | the same transactions at the grain of row-lock acquisitions: refinement, safety, serializability |
| `Runs.dfy` | whole runs: nobody asked twice, bounded rounds, conservation of goods |
| `Wakeups.dfy` | job queues and after-commit effects: exactly when a wake-up is lost |
| `FineWakeups.dfy` | the same with transactions interleaved at their row locks |
| `Eligibility.dfy` | the eligibility query, optimality of the offer, progress, starvation, the search ring |
| `Expiry.dfy` | expiry over whole runs, the sweep behind it, and requests that cannot expire |
| `OfferLife.dfy` | the life of an offer: what closes it, what an answer does, which passes leave it alone, that it stands until its deadline |
| `RequestLife.dfy` | requests, matches and stock row by row, who may act, final states, what is owed, the two confirmations |
| `Scenarios.dfy` | concrete runs and tables for the states in which a promise of the code fails |
| `MatchWorker.dfy` | the match worker and its sweeps as methods that update tables and queue in place |
| `Deletion.dfy`, `DeletionWorker.dfy` | crash-safe account deletion: declarative goal, convergence of retries, the worker |
| `Retention.dfy` | time-driven sweeps against the readers that judge expiry themselves, and the sweeper |
| `Redaction.dfy` | digit-run redaction: a regular-expression scanner against a positional specification |
| `Reminders.dfy` | daily-start loop, the one-tick window, the reminder task and the delivery of its jobs |
| `PendingOps.dfy` | the offline queue and its flush loop |
| `RateLimit.dfy` | the fixed-window rate limiter |
| `Otp.dfy` | one-time codes, serially and with statements interleaved |

## How the proofs fit together

`Transactions` states each transaction as a function of the rows it locks. `Invariants.TransactionKeepsInv` proves the
invariant for all of them. `Interleaving` lets every transaction take its row locks one at a time, in any order, and
compute from the rows as it read them. A commit is shown to be the atomic function on the committed tables at that
moment (`CommitIsAtomic`), so every interleaving is a serial run and keeps the invariant. `Wakeups`, `Runs`,
`Eligibility` and `Expiry` then reason about serial runs, and `FineWakeups` carries the wake-up theorem back to
interleaved ones. The classes (`Worker`, `Accounts`, `Sweeper`, `ReminderTask`, `Device`,
`RateLimiter`, `Store`) update fields statement by statement as the source does, and each method ends in the state its
specification function gives.

The transactions are written one operation at a time, as the source has them. `OfferLife` and `RequestLife` describe the
same behaviour one row at a time, with conditions on the rows themselves, and prove the two descriptions equal. The
theorems about whole lives (`OfferStands`, `FinalForever`, `RunKeepsCredit`, `ConfirmationsCommute`) follow from there.

The clock, the rows a query returns, random draws, fresh identifiers and the answers of servers are inputs. What is
assumed of them is named: `Transactions.Legal` (fresh ids, true query answers), `Eligibility.IsShortlist` (the answer of
the eligibility query) and the preconditions of the lemmas.

## What the model shows about the code

- The comments that reliability "can never leapfrog a bucket" and that helpers without a location "always sort last"
  hold exactly under `Ranking.ProximityDecides`. Fairness can outweigh one or two buckets (`server/src/workers/matching.ts:46-62`).
- "Better helpers edge out peers in the same bucket" holds for every draw only from a difference of one half in
  reliability on (`Ranking.ReliabilityDecidesExactly`; `server/src/workers/matching.ts:52-54`); below that the jitter can
  put the less reliable helper first.
- Two branches of continuing a partly fulfilled request are never taken: nothing left to search for, and nothing received
  (`RequestLife.ContinueGoesThrough`; `server/src/modules/requests/service.ts:278-291`).
- Offers to a deleted account stay open until their deadline; only offers on its own requests are superseded
  (`DeletionWorker.DeletedOffer`; `server/src/workers/data-request.ts:225-248`).
- A prompt wake-up can be lost. No job is given a second attempt (`server/src/queues.ts:62-69`) and a failed one is only
  logged (`server/src/workers/index.ts:48-50`). When the winner's item is removed between the eligibility query and the
  offer, the foreign key refuses the offer and the pass throws. If its job was the only one, the searching request waits
  for its expiry. `Wakeups.NoLostWakeUp` and `FineWakeups.NoLostWakeUpInterleaved` say exactly when that happens, also for
  aborted transactions; `Scenarios.WakeUpIsLost` is such an interleaving.
- An `offering` request whose offers have all been purged cannot expire. The expiry pass asks for `no_match`, which
  `offering` does not permit, and throws each time (`Expiry.ExpiryCloses`, `StrandedForever`, `PurgeStrands`;
  `server/src/workers/matching.ts:171`, `server/src/modules/requests/transitions.ts:30`). It takes a request that is
  still offering when its event's retention ends, for want of a running worker since; its owner can still cancel it.
  `Scenarios.StrandedRun` is such a run.
- In a whole-unit category a helper with a whole unit is starved exactly when eight nearer helpers with less than one
  unit each fill the shortlist (`Eligibility.StarvedExactly`, with tables in `Scenarios.NinthIsStarved`). With
  whole-number stock this cannot happen (`WholeStockProgress`).
- The deletion step that says stock "collapses to qty_reserved (0)" leaves zero exactly when none of the items has an active
  match at that moment (`Deletion.ZeroedExactlyWhenIdle`; `server/src/workers/data-request.ts:256-257`).
  `Scenarios.ReservedStockRun` is a run in which it does not.
- A deletion stops where a match it selected has been closed meanwhile (`Deletion.StopsExactly`), and its job is not tried
  again. Any later undisturbed run finishes it (`Deletion.LastRunFinishes`).
- The rate limiter bounds the calls it answers with true. A failed command gives no answer, and the safety report takes
  that for permission (`server/src/modules/safety/service.ts:87-89`), so its reports are bounded only while Redis answers.
- A session reports a lapsed suspension as active at once. The matching query reads the raw status and keeps the helper
  out until the sweep (`Retention.LiftingSeenByMatching`).
- The end-of-event statement of the availability sweep is visible to matching: it takes eligibility from helpers of an
  event that has ended but is not yet completed (`Retention.EndSweepEligibility`).
- The lifecycle task absorbs earlier runs of itself except for a helper switched on at an event already completed: the
  row stays on exactly when a run archives the event while no other event completes (`Retention.LastRunDecides`,
  `Scenarios.RacedRowIsMissed`).
- A reminder of a suspended member is queued and then dropped, also when the suspension has lapsed but is not lifted yet
  (`Reminders.RemindedUnlessMuted`; `server/src/workers/notify.ts:70-75`).
- A later day's reminder is missed when one tick falls exactly on the preceding day's start and the next comes a full
  interval later, although the comment says the window covers the interval (`Reminders.LaterDayReachedExactly`).
- An operation enqueued while an upload is in flight is lost exactly when that upload ends in a counted rejection
  (`PendingOps.ArrivalSurvivesExactly`).
- A one-time code is single-use only between whole checks. Once a check has succeeded, another can succeed exactly when
  it is in flight at that moment (`Otp.SecondSuccessExactly`, with a run in `TwiceUsed`). At most five succeed
  (`AtMostFiveWhenPrompt`), unless checks stall until their code is swept an hour after its expiry: then each falls back
  on its own snapshot and there is no bound (`SweptCodeHasNoBound`; `server/src/modules/auth/service.ts:294`).

## Model

| member | source | states |
|---|---|---|
| Ranking.ReliabilityBounds | packages/shared/src/reliability.ts:28-51 | completion and ranking reliability lie strictly between 0 and 1, responsiveness within [0,1], for unbounded counters |
| Ranking.ReliabilityMonotone | packages/shared/src/reliability.ts:28-46 | a better record never lowers the completion score or the displayed label |
| Ranking.ResponsivenessOrder | packages/shared/src/reliability.ts:34-38 | responsiveness orders helpers by the share of offers answered, compared in integers; fewer than three offers count as 7/10 |
| Ranking.LabelExactly | packages/shared/src/reliability.ts:40-46 | each label in integer arithmetic: completed exchanges against a weighted count of failures |
| Ranking.ProximityDominates | server/src/workers/matching.ts:42-81 | if the fairness difference stays within the bucket gap, the nearer candidate scores lower for all records and jitters |
| Ranking.NearerBucketWins | server/src/workers/matching.ts:44-49 | a strictly nearer bucket wins when the nearer helper has no more capped recent offers |
| Ranking.ThreeBucketsWin | server/src/workers/matching.ts:42-81 | three buckets outweigh any fairness difference |
| Ranking.ProximityDecidesExactly | server/src/workers/matching.ts:48-62 | "never leapfrog" and "always last" hold if and only if the bound holds; past it two concrete records reverse the order |
| Ranking.DistanceDecidesExactly | server/src/workers/matching.ts:42-81 | distance alone decides, whatever else is known of the two, if and only if one is within 150 m and the other beyond 1000 m or unlocated, or one is within 400 m and the other unlocated |
| Ranking.DeservingFirst | server/src/workers/matching.ts:48-53 | a helper at least as near, asked no more often and with no worse a record never scores higher at the same draw, and scores lower if any of it tells |
| Ranking.ReliabilityDecidesExactly | server/src/workers/matching.ts:52-54 | between helpers of one bucket with as many recent offers the more reliable comes first for every draw if and only if the difference is at least one half |
| Ranking.FairnessDecidesExactly | server/src/workers/matching.ts:50-51 | between helpers equal otherwise the one asked less often comes first for every draw if and only if it is by two offers, of which at most five count |
| Ranking.CompletionDecidesExactly | packages/shared/src/reliability.ts:48-51 | a completion score makes the more reliable helper whatever offers the two have answered if and only if it is more than 3/7 higher |
| Ranking.InsertSorts | server/src/workers/matching.ts:84-89 | one stable insertion keeps the ranking ordered and adds exactly the new entry |
| Ranking.RankSorts | server/src/workers/matching.ts:84-89 | the ranking holds each scored candidate once, ordered by score and, within a score, by query order |
| Ranking.FirstGivingIsFirst | server/src/workers/matching.ts:291-294 | the loop takes the first ranked candidate whose clamped quantity is positive, none before it can give, and none is taken only if nobody can |
| Ranking.WinnerIsBest | server/src/workers/matching.ts:289-297 | the winner minimises the drawn score over the candidates that can give, and its quantity is the clamped one |
| Ranking.WinnerNotOutclassed | server/src/workers/matching.ts:78-89 | nobody who could give and drew no worse is better than the winner on every count |
| Ranking.OfferQtyIsLargest | server/src/workers/matching.ts:292-294 | the quantity asked for is the largest within need and stock that the category allows |
| Transactions.ActiveMatch | server/migrations/0001_init.sql:273 | an active match of the request, or none when the request has none |
| Transactions.ReserveQty | server/src/modules/offers/service.ts:32-41 | what is reserved never exceeds the offer, the open need or the free stock, and is never negative |
| Transactions.ReserveQtyIsLargest | server/src/modules/offers/service.ts:32-41 | what is reserved is the largest positive quantity within offer, need and free stock that the category allows |
| Invariants.AnswerKeepsInv | server/src/workers/matching.ts:384-390 | closing one open offer and returning its request to searching keeps the invariant |
| Invariants.OfferingKeepsInv | server/src/workers/matching.ts:296-311 | making an offer adds one row and one attempt and keeps the invariant |
| Invariants.PickNotAsked | server/src/workers/matching.ts:266-268 | the winner of a true shortlist was never asked for this request, and is asked for a positive quantity within the need |
| Invariants.PassKeepsInv | server/src/workers/matching.ts:139-361 | a match pass keeps at most one open offer, distinct helpers, exact attempts and backed offering requests |
| Invariants.AcceptedKeepsInv | server/src/modules/offers/service.ts:138-277 | acceptance reserves the same quantity on the item and in the match, within free stock and open need |
| Invariants.ClosingMatchKeepsInv | server/src/modules/matches/service.ts:305-387 | closing a match releases exactly its reservation and credits exactly what was delivered |
| Invariants.SettleKeepsInv | server/src/modules/matches/service.ts:305-387 | settling an active match is never refused by the transition table and keeps the invariant |
| Invariants.ConfirmKeepsInv | server/src/modules/matches/service.ts:389-457 | a confirmation by either side keeps the invariant |
| Invariants.AutoFinalizeKeepsInv | server/src/modules/matches/service.ts:459-500 | the finalize job never throws and keeps the invariant |
| Invariants.CancelKeepsInv | server/src/modules/matches/service.ts:502-645 | cancelling by either side or a moderator releases the reservation and keeps the invariant |
| Invariants.CloseOpenKeepsInv | server/src/modules/admin/service.ts:269-289 | closing a set of open requests with their offers keeps the invariant |
| Invariants.StockOpKeepsInv | server/src/modules/inventory/service.ts:64-219 | adding, editing and removing stock keep reserved within on hand and referenced items in place |
| Invariants.TransactionKeepsInv | server/src/workers/matching.ts:139-400 | every transaction keeps the invariant; all but the retention purge keep offering requests backed and attempts exact |
| Interleaving.CommitFramed | server/src/workers/matching.ts:144-157 | a transaction writes only rows it has locked, and new rows of requests it has locked, even when its first lock query found nothing |
| Interleaving.CommitIsAtomic | server/src/workers/matching.ts:141-359 | a commit computed from rows locked one by one equals the atomic transaction on the committed tables |
| Interleaving.OthersStayFresh | server/src/workers/matching.ts:144-157 | a commit leaves true everything any other running transaction has locked and read |
| Interleaving.StepRefines | server/src/workers/matching.ts:139-400 | each fine-grained step keeps the invariant and changes the tables by one legal atomic transaction or not at all |
| Interleaving.InterleavingsKeepInv | server/src/workers/matching.ts:139-400 | every state of every interleaving satisfies the invariant |
| Interleaving.OpenOfferSafety | server/src/workers/matching.ts:144-157 | in every interleaving a request has at most one open offer, and one only while it is offering |
| Interleaving.InterleavingsSerialize | server/src/workers/matching.ts:139-400 | the tables after any interleaving are those of a serial run |
| Runs.EmptyIsSound | server/migrations/0001_init.sql:234-245 | the empty database satisfies the invariant |
| Runs.RunKeepsInv | server/src/workers/matching.ts:139-400 | every legal run keeps the invariant; purge-free runs keep attempts exact |
| Runs.OfferMeansNotAskedBefore | server/src/workers/matching.ts:266-268 | a pass that makes an offer chose a helper never asked for the request and counts one attempt |
| Runs.AskedPersists | server/src/workers/matching.ts:266-268 | the record that a helper was asked survives every transaction that does not purge it |
| Runs.NeverAskedAgain | server/migrations/0001_init.sql:244 | over any run no helper is asked twice for one request while the record is kept |
| Runs.PurgedHelperAskedAgain | server/src/workers/retention.ts:131-137 | once a retention purge has deleted the record, the same helper is asked again |
| Runs.RoundsBounded | server/src/workers/matching.ts:309-311 | before any purge the attempt count equals the number of distinct helpers asked, so rounds are bounded by the helpers |
| Runs.SupplyConserved | server/src/modules/matches/service.ts:305-387 | stock on hand plus everything delivered from it is constant under every transaction that is not a stock edit |
| Runs.RunConservesSupply | server/src/modules/matches/service.ts:305-387 | the same over whole runs |
| Wakeups.OpCovered | server/src/workers/matching.ts:198-203 | whatever a transaction sets searching, opens or half-confirms, it also owes the job for |
| Wakeups.PassThrowsExactly | server/src/workers/matching.ts:159-308 | over true query answers a pass throws if and only if it is overdue on an offering request without offer rows, or it searches and the item of its winner has been removed |
| Wakeups.DeliveryKeepsWoken | server/src/workers/matching.ts:316-321 | a consumed job whose transaction commits is no longer needed or has been replaced |
| Wakeups.DeliveryWokenExactly | server/src/queues.ts:62-69 | a consumed job leaves everything woken if and only if it is not the only wake-up of a searching request whose pass throws for want of its winner's item |
| Wakeups.StepWokenExactly | server/src/workers/matching.ts:350-357 | a step of the queues, the clock or the transactions keeps every open request and offer woken if and only if it is not such a delivery |
| Wakeups.NoLostWakeUp | server/src/workers/matching.ts:392-397 | in a run without crashes and purges every state is woken if and only if no step loses a request in that way; each open request then has a pass due within 30 seconds, or an open offer whose timeout is pending, not early and at most half a second late |
| FineWakeups.EndIsAtomic | server/src/workers/matching.ts:141-361 | a transaction that ends with its effects owed is one delivery of its job in the atomic world, or an extra transaction when the job was delivered before |
| FineWakeups.CompletionWokenExactly | server/src/workers/matching.ts:283-361 | a completion keeps everything woken if and only if it is not a pass that throws for want of its winner's item while its job is the only wake-up of the request |
| FineWakeups.FailureWokenExactly | server/src/workers/index.ts:48-50 | an abort keeps everything woken if and only if the job it takes with it was not the only wake-up of its request, offer or match |
| FineWakeups.ReturnKeepsWoken | server/src/workers/matching.ts:192-214 | a transaction that finds nothing to write and returns without further locks keeps everything woken |
| FineWakeups.NoLostWakeUpInterleaved | server/src/workers/matching.ts:139-400 | with transactions interleaved at their row locks, jobs delivered more than once and aborts, every state is woken if and only if no abort and no throwing pass takes the only wake-up of its subject |
| Scenarios.WakeUpIsLost | server/src/modules/inventory/service.ts:187-219 | an interleaving from a woken start in which the helper removes the item between the query and the offer: the pass throws and the searching request has no prompt pass |
| FineWakeups.QuietStart | server/src/workers/matching.ts:139-400 | every woken world without running transactions is a start of such a run |
| FineWakeups.EmptyIsWoken | server/migrations/0001_init.sql:234-245 | the empty world is woken |
| Eligibility.ShortlistIsSound | server/src/workers/matching.ts:233-280 | the query's answer names only helpers not asked before, never the requester, each with an item of their own |
| Eligibility.EligibleExactly | server/src/workers/matching.ts:246-276 | who may be asked, read off the tables, if and only if: account, membership, availability, blocks either way, earlier offers, active matches, ring, unlocated helpers and free stock |
| Eligibility.ListedWithinRing | server/src/workers/matching.ts:271-275 | every listed distance is within the ring; an unlocated helper is listed only if the requester is unlocated too or the ring is at its maximum |
| Eligibility.OfferQualifies | server/src/workers/matching.ts:233-311 | an offer goes to a helper who meets all these conditions, on an item of theirs, for the largest quantity any single usable item of theirs could give |
| Eligibility.OfferIsOptimal | server/src/workers/matching.ts:233-308 | the winner minimises the drawn score over the listed helpers that can give, and no single usable item of it would give more |
| Eligibility.OfferedExactly | server/src/workers/matching.ts:283-311 | a searching pass makes an offer exactly when a listed helper can give |
| Eligibility.AfterOffer | server/src/workers/matching.ts:296-320 | after an offer it is the only open one, due after the event's response time with its timeout owed, and one more attempt is counted |
| Eligibility.AfterNoOffer | server/src/workers/matching.ts:339-357 | after no offer the request searches on: at once in twice the ring, or at the maximum in twenty seconds |
| Eligibility.WholeStockProgress | server/src/workers/matching.ts:233-311 | with whole-number stock and at least 1 needed, an offer is made exactly when an eligible helper exists |
| Eligibility.StarvedExactly | server/src/workers/matching.ts:278-294 | in a whole-unit category nobody is asked although an eligible helper has a unit, if and only if there is such a helper and eight helpers with less than a unit fill the shortlist |
| Eligibility.StarvedByNearer | server/src/workers/matching.ts:276-279 | those eight are no farther than the helper they starve |
| Scenarios.NinthIsStarved | server/src/workers/matching.ts:233-294 | nine eligible helpers, of whom the ninth alone has a unit: the query lists the other eight and nobody is asked |
| Eligibility.RingMonotone | server/src/workers/matching.ts:271-275 | a wider ring never drops an eligible helper |
| Eligibility.RingDoubles | server/src/workers/matching.ts:341-345 | the ring after k empty passes is the start times 2^k, capped at the maximum, and never shrinks |
| Eligibility.EmptyPassesReachMaximum | server/src/workers/matching.ts:339-357 | empty passes on the tables drive the ring along that sequence up to the event maximum |
| Expiry.ExpiryCloses | server/src/workers/matching.ts:159-190 | an overdue request is closed, as expired exactly when an offer row exists, unless it is offering without any offer row; only then the pass throws |
| Expiry.StrandedStep | server/src/modules/requests/transitions.ts:30 | a transaction leaves such an overdue request as it is unless it is the owner's cancel or closes it with others; a pass on it throws |
| Expiry.StrandedForever | server/src/workers/matching.ts:159-173 | through any legal run without those the request stays as it is |
| Expiry.PurgeStrands | server/src/workers/retention.ts:131-137 | a purge strands an offering request that has offers if and only if its event is past retention and no match refers to any of them |
| Scenarios.StrandedRun | server/src/workers/retention.ts:131-137 | a run from the empty tables, with its purge a day after the event's end, ends in a stranded request whose expiry pass throws |
| Scenarios.AskedAgainRun | server/src/workers/retention.ts:131-137 | a run from the empty tables in which, after a purge past retention and a renewal, a helper is asked a second time for one request |
| Expiry.PassClosesOverdue | server/src/workers/matching.ts:159-190 | after any legal purge-free run, a pass at or past a request's expiry leaves it not open: expired if an offer was ever made, else no_match |
| Expiry.SweptRequestsClose | server/src/workers/retention.ts:28-35 | every request overdue at the sweep has been closed by the time the enqueued pass has run, whatever other transactions ran in between, purges excepted |
| OfferLife.SearchesExactly | server/src/workers/matching.ts:143-228 | a pass searches if and only if its request is open and unexpired, its event active and not paused, and no open offer of it still has time |
| OfferLife.PassIdles | server/src/workers/matching.ts:192-215 | every other pass on a request that is not overdue changes nothing, and owes nothing but a retry in thirty seconds for an inactive event |
| OfferLife.OfferClosesExactly | server/src/workers/matching.ts:365-400 | what each transaction does to an open offer: closed, with which status, if and only if by deadline, by its helper in time, by its request's expiry or closing, or by a purge; otherwise it and its request stay as they are |
| OfferLife.OfferStands | server/src/workers/matching.ts:206-215 | over any run an open offer stands until its deadline unless its helper answers, its request expires or is closed, or its event is purged |
| OfferLife.ClosedOfferStays | server/src/modules/offers/service.ts:138-152 | a closed offer never changes again |
| OfferLife.PurgedExactly | server/src/workers/retention.ts:131-137 | a purge deletes an offer if and only if its event ended more than its retention ago and no match refers to it |
| OfferLife.AcceptedExactly | server/src/modules/offers/service.ts:138-277 | an acceptance goes through if and only if the offer is open, its helper's and in time; it matches with the largest possible reservation, or lets the offer lapse if none is possible |
| OfferLife.DeclinedExactly | server/src/modules/offers/service.ts:78-136 | a decline goes through if and only if the offer is open, its helper's and in time, and sends the request back to searching |
| OfferLife.TimedOutExactly | server/src/workers/matching.ts:365-400 | a timeout closes an open offer if and only if its deadline has come, and sends the request back to searching |
| RequestLife.RequestRowExactly | server/src/modules/requests/transitions.ts:11-44 | every transaction makes of every request what its row, its offer and its match prescribe: status, credit, ring, attempts and expiry |
| RequestLife.MatchRowExactly | server/src/modules/matches/service.ts:305-645 | every transaction makes of every match what its row prescribes: who calls it off with which status, what a confirmation records, and when it is completed, partly completed or disputed |
| RequestLife.ItemRowExactly | server/src/modules/inventory/service.ts:64-219 | every transaction makes of every item what its owner's edit, the acceptance or the closing match on it prescribes |
| RequestLife.NewItemExactly | server/src/modules/inventory/service.ts:64-153 | an item is added if and only if its quantity is positive; it is active with nothing reserved |
| RequestLife.StrangersAreRefused | server/src/modules/requests/service.ts:194-203 | an action on an offer, match, request or item by anybody but the user it names is refused like one on a row that does not exist |
| RequestLife.StatusFollowsTable | server/src/modules/requests/transitions.ts:28-40 | every change of a request's status is one the table permits |
| RequestLife.FinalStep | server/src/modules/requests/transitions.ts:23-24 | no transaction changes a fulfilled, disputed or moderated request, and a cancelled, expired or unmatched one changes if and only if its owner renews it |
| RequestLife.FinalForever | server/src/modules/requests/transitions.ts:23-24 | over any run a request in a final state keeps its row |
| RequestLife.ClosedMatchForever | server/src/modules/matches/service.ts:305-387 | over any run a match that is no longer active keeps its row |
| RequestLife.RunKeepsCredit | server/src/modules/matches/service.ts:336-365 | over any run a request that is not fulfilled still needs something, and a fulfilled or partly fulfilled one has received something |
| RequestLife.ContinueGoesThrough | server/src/modules/requests/service.ts:268-298 | in every run from the empty tables the owner of a partly fulfilled request is never refused: it searches on or becomes fulfilled |
| RequestLife.NewRequestExactly | server/src/modules/requests/service.ts:79-158 | a request is added if and only if one is created with a positive quantity; it is searching in the first ring with nothing received and no attempts |
| RequestLife.OwesPassExactly | server/src/workers/matching.ts:392-397 | a transaction owes a pass on a request if and only if it brings it to searching, searched for it in vain, or deferred it with its offer for an inactive event; at once unless it is a pass or begins a search |
| RequestLife.OwesTimeoutExactly | server/src/workers/matching.ts:316-321 | a timeout is owed if and only if the transaction makes that offer, and at its deadline |
| RequestLife.OwesFinalizeExactly | server/src/modules/matches/service.ts:421-425 | the finalize job is owed if and only if the transaction records the first confirmation of that match |
| RequestLife.SearchBeginsWithTwoPasses | server/src/modules/requests/service.ts:32-37 | a search begun by its owner gets one pass at once and one a second after it expires |
| RequestLife.ConfirmationsCommute | server/src/modules/matches/service.ts:389-450 | the two sides' confirmations have the same outcome in either order: the smaller quantity changes hands |
| RequestLife.ConfirmingTwiceIsOnce | server/src/modules/matches/service.ts:403-411 | repeating a first confirmation with the same quantity changes nothing and is no error |
| RequestLife.SilenceIsAssent | server/src/modules/matches/service.ts:453-500 | waiting out the other side leaves the requests, stock and match status that its confirming the same quantity would have left |
| MatchWorker.Worker.ChooseWinner | server/src/workers/matching.ts:291-294 | the loop returns the first ranked candidate that can give |
| MatchWorker.Worker.RunMatchPass | server/src/workers/matching.ts:139-361 | tables and queue after a pass are those of the pass as a transaction, which `OfferLife` and `RequestLife` describe row by row, with its effects queued in order; a throw changes nothing |
| MatchWorker.Worker.SearchAndCommit | server/src/workers/matching.ts:283-358 | the search half does the same on the transaction's own copies |
| MatchWorker.Worker.ExpireOffer | server/src/workers/matching.ts:365-400 | the timeout does the same, and is a no-op on closed, missing and early offers |
| MatchWorker.Worker.RunEffects | server/src/workers/matching.ts:360 | each after-commit effect queues its job, in order |
| MatchWorker.Worker.ExpireRequests | server/src/workers/retention.ts:28-35 | exactly one pass is queued per overdue request, and nothing else |
| MatchWorker.Worker.ExpireOffers | server/src/workers/retention.ts:38-46 | exactly one timeout is queued per open offer past its grace, and nothing else |
| Deletion.ModerationCancels | server/src/modules/matches/service.ts:681-695 | in a sound state the cancel of an active match goes through: match closed, reservation released, request moderated |
| Deletion.StepKeepsGoal | server/src/workers/data-request.ts:207-291 | every step, in any sound state, keeps the state sound and what a deleted account will look like unchanged |
| Deletion.FullRunReachesGoal | server/src/workers/data-request.ts:207-291 | an uninterrupted run, in any order of matches, reaches exactly that goal and leaves nothing to delete |
| Deletion.RetryConverges | server/src/workers/data-request.ts:293-300 | attempts cut short anywhere, any number of times, then one full run, reach the same tables as one uninterrupted run |
| Deletion.StopsExactly | server/src/modules/matches/service.ts:681-695 | a cancel of a selected match throws, and then changes nothing, if and only if the match has been closed meanwhile |
| Deletion.LastRunFinishes | server/src/workers/data-request.ts:207-300 | after any mixture of steps of earlier runs and transactions of others, one undisturbed run reaches the goal of the tables it starts from and leaves nothing to delete |
| Deletion.DeletedStockIsEmpty | server/src/workers/data-request.ts:256-265 | every item of the deleted user ends inactive with nothing on hand and nothing reserved |
| DeletionWorker.DeletedRequest | server/src/workers/data-request.ts:207-248 | what the goal makes of a request: moderated if an active match with the user is on it, else cancelled if it is the user's and open, else as it was |
| DeletionWorker.DeletedOffer | server/src/workers/data-request.ts:225-248 | of an offer: superseded if it is open on a request of the user, else as it was |
| DeletionWorker.DeletedMatch | server/src/workers/data-request.ts:207-265 | of a match and an item: active matches with the user are called off, their reservations given back, the user's stock is empty, other stock on hand is as it was |
| DeletionWorker.DeletedRows | server/src/workers/data-request.ts:250-290 | of the rest: the user's rows are gone, the account names nobody, all other rows are as they were |
| Deletion.ZeroedExactlyWhenIdle | server/src/workers/data-request.ts:256-265 | the zeroing step leaves zero on hand if and only if no match on the item is active then |
| Scenarios.ReservedStockRun | server/src/workers/data-request.ts:256-265 | an acceptance just before the zeroing step leaves one unit on hand |
| DeletionWorker.Accounts.CancelMatchForModeration | server/src/modules/matches/service.ts:681-695 | the tables are those of the moderation cancel; success exactly when it is permitted |
| DeletionWorker.Accounts.SelectActiveMatches | server/src/workers/data-request.ts:212-220 | every active match with the user on either side, each once |
| DeletionWorker.Accounts.CancelMatches | server/src/workers/data-request.ts:210-223 | no active match of the user is left, invariant and goal are kept |
| DeletionWorker.Accounts.CancelOpenRequests | server/src/workers/data-request.ts:225-248 | the loop closes exactly the user's open requests and their open offers |
| DeletionWorker.Accounts.DropEverything | server/src/workers/data-request.ts:250-290 | no row of the user is left in any table and every other row is as it was; the user's stock is inactive and holds only what is reserved; the account names nobody |
| DeletionWorker.Accounts.CloseAndDrop | server/src/workers/data-request.ts:225-290 | the fixed steps after the cancels, in order |
| DeletionWorker.Accounts.PerformAccountDeletion | server/src/workers/data-request.ts:207-291 | from any sound state the tables end exactly as the goal prescribes |
| DeletionWorker.Accounts.ProcessDelete | server/src/workers/data-request.ts:293-300 | a request already done changes nothing; otherwise the goal is reached and the request marked done |
| Retention.SweptEligibility | server/src/workers/retention.ts:20-22 | purging locations and switching off lapsed availability never changes who is eligible later |
| Retention.SweepKeepsShortlists | server/src/workers/retention.ts:49-54 | nor any possible answer of the eligibility query |
| Retention.EndSweepEligibility | server/src/workers/retention.ts:55-59 | the end-of-event sweep removes exactly the helpers whose event ended before it |
| Retention.LiftingInvisible | server/src/plugins/auth.ts:62-69 | lifting suspensions never changes the status a session reports later |
| Retention.LiftingSeenByMatching | server/src/workers/retention.ts:173-177 | matching gains exactly the helpers whose lapsed suspension was lifted |
| Retention.LifecycleAbsorbs | server/src/workers/retention.ts:150-200 | running the lifecycle at t1 and then t2 gives the statuses, suspensions and flags of running it at t2 only |
| Retention.LifecycleKeepsOff | server/src/workers/retention.ts:156-166 | if nobody is helping at an event that is over before a run, nobody is afterwards, also at the events the run completes |
| Retention.AvailabilityAbsorbsExactly | server/src/workers/retention.ts:156-170 | availability is absorbed too, unless a helper was switched on at a completed event that the first run archives while no event completes and the second sees one complete |
| Retention.LastRunDecides | server/src/workers/retention.ts:150-200 | after any number of runs statuses, suspensions and flags are those of the last run alone, and availability is exactly when no run misses such a row |
| Retention.NothingMissed | server/src/workers/retention.ts:156-170 | no row is missed as long as nobody helps at an event that is over |
| Scenarios.RacedRowIsMissed | server/src/workers/retention.ts:156-170 | concrete tables in which a row is missed |
| Retention.LifecycleMovesForward | server/src/workers/retention.ts:150-170 | event status only moves forward, an event is scheduled, active, completed or archived if and only if its own clock says so, and nothing else of it changes |
| Retention.UserRowExactly | server/src/workers/retention.ts:172-200 | a run lifts a suspension if and only if its end has passed, and gives rights back if and only if a restriction on the account has lapsed and none is in force |
| Retention.HelpingOffExactly | server/src/workers/retention.ts:156-166 | helping-now goes off if and only if some event completes in the run and the row's own event is or becomes completed |
| Retention.LiftedOnce | server/src/workers/retention.ts:172-183 | each lapsed suspension is lifted and audited by exactly one of two runs |
| RetentionWorker.Sweeper.PurgeLocations | server/src/workers/retention.ts:20-22 | exactly the unexpired locations remain |
| RetentionWorker.Sweeper.ExpireAvailability | server/src/workers/retention.ts:49-60 | a row stays on exactly when it was on, its chosen end has not passed and its event has not ended; nothing else changes |
| RetentionWorker.Sweeper.AdvanceEventRows | server/src/workers/retention.ts:152-170 | events advance, and helping-now goes off only in a run that completed some event |
| RetentionWorker.Sweeper.LiftLapsed | server/src/workers/retention.ts:172-183 | exactly the suspensions whose end has passed are lifted, one audit row each |
| RetentionWorker.Sweeper.EventLifecycle | server/src/workers/retention.ts:150-200 | all statements of the lifecycle run, in order; every account ends as `UserRowExactly` says, with one audit row per lifted suspension |
| Redaction.GroupsMeaning | server/src/lib/redact.ts:11 | the greedy repetition takes every digit reachable through separators, and counts the digits |
| Redaction.MatchIsMaximal | server/src/lib/redact.ts:11 | a match is a cluster of at least eight digits, and no such cluster overlapping it reaches further |
| Redaction.LongMeansMatch | server/src/lib/redact.ts:10-11 | a cluster of eight or more digits makes the pattern match at its start |
| Redaction.RedactMeetsSpec | server/src/lib/redact.ts:13-15 | exactly the maximal clusters become one placeholder each, all other text is kept in order |
| Redaction.RedactionIsComplete | server/src/lib/redact.ts:3-6 | no long cluster survives, redaction is idempotent, and it leaves text alone exactly when there is nothing to redact |
| Redaction.NoPhoneSurvives | server/src/lib/redact.ts:3-6 | nothing shown contains eight or more digits with only spaces and dashes between them |
| Redaction.FewDigitsAreKept | server/src/lib/redact.ts:10-11 | a text with at most seven digits is shown as it is |
| Redaction.RedactionIsLocal | server/src/lib/redact.ts:10-15 | a printable character other than a digit or a dash keeps the digits on its two sides apart: each side is redacted on its own |
| Reminders.NextStart | server/src/workers/attendance.ts:26-39 | the least daily start in [from, end], none exactly when there is none |
| Reminders.NextStartUnique | server/src/workers/attendance.ts:26-39 | that description has one solution |
| Reminders.NextDailyStart | server/src/workers/attendance.ts:30-39 | the day-by-day loop finds it, also when it gives up early |
| Reminders.HitWindow | server/src/workers/attendance.ts:41-45 | the ticks that remind of a day: a closed-left window for the first day, an open one for later days |
| Reminders.WindowIsHit | server/src/workers/schedule.ts:14 | ticks at most one interval apart always land in a window one interval long |
| Reminders.FirstDayReached | server/src/workers/attendance.ts:19-24 | the first day's reminder is never missed |
| Reminders.LaterDayReachedExactly | server/src/workers/attendance.ts:19-24 | a later day is missed if and only if one tick falls on the preceding start and the next a full interval after it |
| Reminders.AlignedTicksMiss | server/src/workers/attendance.ts:41-45 | a scheduler in step with the event's time of day misses its second day |
| Reminders.DaysHaveDistinctKeys | server/src/workers/attendance.ts:71-88 | two days of an event share a dedupe key only if they are the same day |
| Reminders.DueExactly | server/src/workers/attendance.ts:41-92 | a tick produces a reminder if and only if the event is scheduled or active, the user a member in it, and the tick within the five minutes a day before that start |
| Reminders.DeliveredExactly | server/src/workers/notify.ts:60-94 | over any run of ticks and deliveries nothing is stored twice; a reminder is stored exactly when a delivery found the account neither deleted nor suspended, and delivered or still waiting exactly when a tick produced it |
| Reminders.MemberReminded | server/src/workers/attendance.ts:47-92 | a member who stays has a reminder delivered for exactly the days some tick reaches, stored exactly when a delivery was heard |
| Reminders.RemindedUnlessMuted | server/src/workers/notify.ts:70-75 | with the account's standing unchanged, a day's reminder is stored if and only if some tick reaches the day and the account is not suspended |
| ReminderWorker.ReminderTask.Enqueue | server/src/workers/attendance.ts:74-88 | a job whose id waits or is remembered is not added again |
| ReminderWorker.ReminderTask.DeliverNotification | server/src/workers/notify.ts:60-94 | a delivery ends its job and stores one row if and only if the account exists, is neither deleted nor suspended, and the row is not there already |
| ReminderWorker.ReminderTask.RemindMembers | server/src/workers/attendance.ts:64-91 | exactly the members not left, not banned and not deleted get a job |
| ReminderWorker.ReminderTask.SendAttendanceReminders | server/src/workers/attendance.ts:47-92 | one tick queues exactly the reminders that are due and not remembered as finished |
| PendingOps.FlushIsOnePass | apps/mobile/src/pendingOps.ts:69-95 | the loop that keeps rewriting storage equals one pass over the snapshot followed by the surviving arrivals |
| PendingOps.OfflineLeavesTheRest | apps/mobile/src/pendingOps.ts:79 | an offline stop leaves the rest untouched and in order |
| PendingOps.LeavesExactly | apps/mobile/src/pendingOps.ts:70-94 | what a flush leaves of each operation: it stays after an offline upload, stays with one more attempt after a rejection with fewer than four before, and is gone after any other answer |
| PendingOps.RemovedExactly | apps/mobile/src/pendingOps.ts:44-48 | a removal takes every operation of the id and keeps every other as often as it was there |
| PendingOps.ArrivalSurvivesExactly | apps/mobile/src/pendingOps.ts:86-92 | an operation enqueued during an upload survives exactly when that upload is not rejected with fewer than four attempts before |
| PendingOps.WorkingIsStored | apps/mobile/src/pendingOps.ts:69-95 | the working copy is the stored queue, except for arrivals during a final offline upload |
| PendingOps.StepKeepsSound | apps/mobile/src/pendingOps.ts:80-93 | ids stay distinct and no stored operation has more than four failed attempts |
| PendingOps.AtMostFiveRejections | apps/mobile/src/pendingOps.ts:80-93 | no operation is rejected more than five times over any run of flushes and additions |
| PendingOps.StoredExactly | apps/mobile/src/pendingOps.ts:69-95 | over any run of flushes and additions a stored operation is still there, with every rejection counted, if and only if it was neither accepted nor answered with a conflict nor rejected five times |
| PendingQueue.Device.EnqueueInventoryOp | apps/mobile/src/pendingOps.ts:39-42 | the operation goes to the end of the stored queue |
| PendingQueue.Device.RemoveInventoryOp | apps/mobile/src/pendingOps.ts:44-48 | every operation of that id is gone from storage, and the new queue is returned |
| PendingQueue.Device.Flush | apps/mobile/src/pendingOps.ts:64-101 | storage and displayed list after a flush; nothing happens without a token or while a flush is running |
| RateLimit.CounterNeverExpires | server/src/lib/redis.ts:29-35 | a window's counter counts exactly its calls, cannot expire inside its own window and is gone by the end of the next, for every call sequence |
| RateLimit.AllowedExactly | server/src/lib/redis.ts:29-35 | a call answers true exactly when fewer than max calls came before it in its window and no command failed |
| RateLimit.WindowBound | server/src/lib/redis.ts:25-35 | at most max calls per window answer true |
| RateLimit.SpanBound | server/src/lib/redis.ts:29-35 | at most 2*max calls answer true in any half-open span of one window length |
| RateLimit.SpanBoundReached | server/src/lib/redis.ts:29-35 | that bound is reached by two bursts a millisecond apart |
| RateLimiterClass.RateLimiter.Incr | server/src/lib/redis.ts:32 | the counter grows by one, or restarts without expiry once expired |
| RateLimiterClass.RateLimiter.Check | server/src/lib/redis.ts:29-35 | counters and answer of one call; a failed expiry command is an error and leaves the counter |
| Otp.StepKeepsSerial | server/src/modules/auth/service.ts:77-87 | serially, an email has at most one unconsumed code, with fewer than five attempts |
| Otp.StepSpends | server/src/modules/auth/service.ts:289-306 | each check spends a try; a success, a newer code and a sweep only take tries away |
| Otp.SerialBounds | server/src/modules/auth/service.ts:273-306 | in every serial run a code is checked at most five times and succeeds at most once |
| Otp.EndedForever | server/src/modules/auth/service.ts:273-306 | after a success, the fifth try or a newer code, a code is never checked again |
| Otp.SucceedsExactly | server/src/modules/auth/service.ts:273-306 | a check succeeds exactly when the email has a live code and it is the one presented |
| Otp.FreshCodeWorks | server/src/modules/auth/service.ts:77-87 | a new code is the one selected and works until it expires |
| Otp.CheckExactly | server/src/modules/auth/service.ts:289-306 | a wrong check costs one attempt and changes no other row, the fifth also consumes the code and answers rate-limited; the right one consumes it |
| Otp.CodeWorksExactly | server/src/modules/auth/service.ts:273-306 | after any serial run a live code is still accepted if and only if fewer than five attempts were made on it, none with the code itself, no newer code was issued to its email and it has not expired |
| Otp.IssuedCodeWorksExactly | server/src/modules/auth/service.ts:60-87 | from its issue on: at most four wrong checks, no newer code and ten minutes leave it usable, nothing else does |
| Otp.MoveKeepsSound | server/src/modules/auth/service.ts:289-294 | under any interleaving of statements in which no held code is swept, checks of one code hold distinct attempt numbers |
| Otp.AtMostFiveSuccesses | server/src/modules/auth/service.ts:289-306 | however concurrent checks interleave, at most five succeed on one code, provided no sweep deletes a code between a check's select and its bump |
| Otp.StartIsSound | server/migrations/0001_init.sql:29-38 | the empty tables satisfy the invariants of the serial and the interleaved runs |
| Otp.PromptSpares | server/src/workers/retention.ts:104-107 | a sweep deletes a code an hour after its expiry, so a code held for less than an hour is never swept |
| Otp.AtMostFiveWhenPrompt | server/src/modules/auth/service.ts:275-306 | from the empty tables at most five checks succeed on one code as long as none takes an hour from its select to its bump |
| Otp.SweptCodeHasNoBound | server/src/modules/auth/service.ts:289-294 | without that proviso any number of stalled checks succeed, each falling back on its snapshot |
| Otp.MoveKeepsLived | server/src/modules/auth/service.ts:273-306 | under every interleaving a code some check succeeded on is consumed or gone for good |
| Otp.SecondSuccessExactly | server/src/modules/auth/service.ts:275-306 | once a check has succeeded on a code, another success can be reached if and only if a right check with a try left is in flight then |
| Otp.AloneIsSerial | server/src/modules/auth/service.ts:273-306 | statements run without interruption are the whole check |
| Otp.TwiceUsed | server/src/modules/auth/service.ts:275-306 | two interleaved checks both succeed on one code |
| OtpStore.Store.StartOtp | server/src/modules/auth/service.ts:60-87 | the new code is the only unconsumed one of the email, with all tries and its full lifetime; other rows are as they were or newly consumed; nothing changes when a rate limit refuses |
| OtpStore.Store.SelectNewest | server/src/modules/auth/service.ts:275-287 | the newest unconsumed, unexpired code of the email |
| OtpStore.Store.ConsumeOtp | server/src/modules/auth/service.ts:273-306 | table and answer of one whole check, which `CheckExactly` spells out |

## Left out

- Accept, decline, confirm, settle, cancel, renew, continue and inventory services (`server/src/modules`) are modelled
  as functions on values only: statement order inside them, message text, idempotency keys, quotas and permission
  checks are not.
- Interleaving.CommitIsAtomic: reads a transaction makes after its last lock are taken together with its commit; the
  lock order of the source is not enforced (any order is allowed) and deadlock freedom is not claimed. A deadlock
  victim ends without effect.
- Wakeups.NoLostWakeUp: excludes process crashes and the retention purge; after those only the sweeps wake a request
  (`Expiry.SweptRequestsClose`).
- Expiry.SweptRequestsClose: a lost sweep job is covered by the next sweep, which is not modelled.
- Runs.PurgedHelperAskedAgain: events and their end are not in the tables. A purge is given them as an input, so that an
  event is extended after a purge (`server/src/modules/admin/service.ts:605-628`) shows only in the pass's own input.
- Eligibility.OfferIsOptimal: the number of recent offers and the reliability counters of a candidate are taken as
  returned by the query; how reliability counters are written is not modelled.
- Deletion.RetryConverges: closing timestamps and the random avatar seed are not in the tables. Transactions of other
  users between attempts may change what the goal is; with them, `Deletion.LastRunFinishes` states where the last run ends.
- MatchWorker.Worker.RunMatchPass: realtime messages, notifications and audit rows are not modelled; the clock is read
  once per pass where the source reads it several times.
- Reminders.NextDailyStart: days are uniform 24-hour steps; daylight-saving shifts are not modelled.
- Reminders.DeliveredExactly: notification rows are kept forever, while the source deletes them after 30 days; push
  messages and their preferences are not modelled.
- PendingOps.FlushIsOnePass: each read and each write of storage, and a removal, is one atomic step; ids are distinct.
- PendingQueue.Device.Flush: flushes do not overlap. The source's guard is a captured render state, so two calls from one
  render can both pass it; that is not modelled.
- RateLimit.SpanBound: callers and the counter store share one clock; what a caller does when a command fails is its own.
- Otp.AtMostFiveSuccesses: issuing a code is one atomic step.
- Floating-point rounding: quantities, distances and scores are `real`.
- Distances: a given function on pairs of points; `haversineM` and `ST_Distance` are not part of this model.
- Item and offer identifiers are never reused.
- Cryptography, password hashing, sessions other than their reported status, and timing behaviour.
- Message and conversation expiry, notification purging and the export bundle: single-statement deletes and read-only mapping.
- Screens, routes, schemas, WebSocket delivery, seeds and migrations.
