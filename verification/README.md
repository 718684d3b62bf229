# Verified models of the shop assistant API

The API serves auto-repair shops: it answers calls and text messages, books visits, imports other systems' data, keeps
customers, vehicles and walk-in visits, and guards itself with sessions, one-time codes, policies and a gateway. This
project models the parts of it that are protocols, searches or arithmetic, and proves what they promise. Where the code
does not do what its comments or names say, the model follows the code and a lemma says exactly when the two part ways.

| File | What it models |
|---|---|
| RefreshRotation.dfy | refresh, logout and login as interleaved database steps with row locks, and the same calls one at a time |
| BookingMerge.dfy, BookingOutcomes.dfy | the merge of one turn's date and time with what earlier turns left, whole conversations, and what one merge makes of each kind of answer |
| ImportModels.dfy, DuplicateDetection.dfy | hash-grouped duplicate detection in a batch and against earlier imports |
| DuplicateResolution.dfy | what decisions about duplicates do to the rows of a batch |
| ImportJob.dfy, SqlImportJob.dfy | the life of an import job in the in-memory store, and over the SQL store |
| ImportCounts.dfy | the counters of an import, however single writes fail |
| Mileage.dfy | the scan for falling mileage |
| Vin.dfy | the VIN check digit (49 CFR 565.15(c)) |
| JobCodec.dfy | packing an import job into its row and reading it back |
| RateLimit.dfy, Gateway.dfy | the sliding minute, route matching, bucket names and authorization of the gateway |
| Otp.dfy | one-time codes over the in-memory store |
| Policies.dfy | policy evaluation with its early exit |
| Slug.dfy | shop slugs: slugifying, numbered candidates and the bounded search |
| ShopRecords.dfy, ShopOutcomes.dfy, WalkInDesk.dfy | the records of one shop that CRM and walk-ins share, what each operation comes to, and the services over them |
| Forecast.dfy | least squares over the last sixty points and the projection made from it |
| Characters.dfy, Decimals.dfy, Wrappers.dfy | white space; decimal digits; Option and Result |

Time is an integer or a real on a clock that does not run backwards; hashes and codes are compared as they are;
confidences are in hundredths; numbers that the program rounds for display are reals.

Places where code and promise differ, each with its lemma:

- Logout says it also ends a session that another tab is rotating; it misses a refresh that is past its revoke
  (`LogoutMissesARotationInFlight`), and only such refreshes (`LogoutLeavesOnlyRefreshesInFlight`).
- A soft time of day said while no day is known, or over a known clock time, makes the next clock answer complete on a
  day nobody named (`SoftTimeInventsADayExactlyWhen`). A call of times said, silence and first or last openings
  chosen is merged as it was meant exactly when it holds no such answer and no soft day over a full time
  (`HeardExactlyInSafeCalls`).
- MERGE drops the incoming row and never combines fields while a job's candidates are those detected in the batch that
  is applied, because the row to combine with then comes later (`NoDecisionCombinesRows`, `HistoriesCombineNothing`,
  `SqlHistoriesCombineNothing`). Candidates that outlive their batch can combine rows, exactly when one of them names an
  earlier row that lacks something (`DecisionsCombineRowsExactlyWhen`): after a validation that raised
  (`RaisingValidationMixesBatches`), and over SQL in a run that delivers the rows in another order
  (`ReorderedRunCombinesRows`).
- Over the SQL store a job is applied from the row last saved, without what the same call detected or decided. A run
  writes its whole batch exactly when no candidate saved before it leaves out a row of the batch
  (`RunWritesAllExactlyWhen`). So automatic runs drop no duplicate (`AutomaticRunsDropNothing`,
  `TwoOfAKindAreBothWritten`) until a run stops for resolution or a write raises, and then drop rows by the candidates
  saved there (`AutomaticRunWritesAllExactlyWhen`, `SavedCandidatesDropARow`). The stores agree exactly as
  `StoresAgreeOnARunExactlyWhen` says.
- Over the SQL store decisions posted with an apply are lost, and the job completes with candidates still open
  (`DecisionsAppliedAtOnceAreLost`, `SkipAppliedAtOnceIsLost`). The stores still agree exactly when the rows the last
  posted actions leave out are those the candidates left out before (`StoresAgreeOnDecisionsExactlyWhen`): for the first
  decisions, those with a candidate of confidence 0.9 or more (`StoresAgreeOnFirstDecisionsExactlyWhen`).
- A completed job can be applied a second time, by any resolve call that is asked to apply and knows its actions
  (`ResolvingACompletedJobWritesItAgain`).
- The merged and skipped counters count pairs of rows, not rows (`MergedPlusSkippedIsOff`, `ThreeOfAKindOvercounts`).
- A route prefix without a slash at its end also takes longer names (`BoundaryIsCrossedExactlyWhen`,
  `LongerNameIsTaken`). Two routes can share a bucket exactly when the id of one is the id of the other, a colon and
  more (`RoutesShareExactlyWhen`).
- The constant forecast's band is upside down for a negative value (`ConstantBandHoldsTheValueIffNotNegative`).
- A numbered slug candidate repeats the first one exactly for a base of 99 or 100 characters that ends in that number
  (`FirstCandidateIsRepeatedExactlyWhen`).
- Converting a walk-in hands over a car that another visit's customer has (`ConvertingTakesTheCar`,
  `SecondConversionTakesTheCar`).
- Attaching a car by its VIN and by its id leave different owners exactly when car and visit have different customers
  (`AttachingWaysAgreeExactlyWhen`, `AttachingByVinTakesTheCar`).

## Model

| member | source | states |
|---|---|---|
| RefreshRotation.StepKeepsLocks | apps/api/app/application/services.py:627-678 | in every interleaving each step keeps row locks sound: a locked row is live and its holder is an unfinished call |
| RefreshRotation.RotationKeepsChains | apps/api/app/application/services.py:636-666 | minting a successor of a live locked token keeps tokens in chains: place in a chain determines the token |
| RefreshRotation.StepKeepsChains | apps/api/app/application/services.py:627-678 | every step of logins, refreshes and logouts keeps the chain invariant |
| RefreshRotation.InvariantOverRuns | apps/api/app/application/services.py:627-678 | lock and chain invariants hold after every run of any number of concurrent calls |
| RefreshRotation.AtMostOneSuccessor | apps/api/app/application/services.py:638-640 | two tokens minted from the same token are the same token |
| RefreshRotation.TokensInheritUserAndShop | apps/api/app/application/services.py:642-665 | in every reachable state a token is for the user of the token it was minted from and for that token's shop or none |
| RefreshRotation.AncestorAt | apps/api/app/application/services.py:718-766 | every token has an ancestor at each earlier generation of its chain, and all but itself are revoked |
| RefreshRotation.OneLiveTokenPerLogin | apps/api/app/application/services.py:627-666 | of all tokens descending from one login at most one is live, in every reachable state |
| RefreshRotation.RevokedTokensNeverMint | apps/api/app/application/services.py:630-640 | over every run revocation is final and no new token has a parent that was already revoked |
| RefreshRotation.LogoutEndsExactlyTheSnapshot | apps/api/app/application/services.py:668-678 | when a logout commits, the live tokens of its user are exactly those inserted after its UPDATE began |
| RefreshRotation.LogoutEndsAllExactlyWhen | apps/api/app/application/services.py:668-678 | a logout leaves its user no session exactly when no token live just before its commit is newer than its UPDATE |
| RefreshRotation.LogoutLeavesOnlyRefreshesInFlight | apps/api/app/application/services.py:668-678 | a token of an older login still live after a logout descends from one that a refresh past its revoke minted while the logout was in its UPDATE |
| RefreshRotation.LogoutMissesARotationInFlight | apps/api/app/application/services.py:673-674 | the comment promises that a concurrent rotation is ended too: a run of eight steps where it is not |
| RefreshRotation.RefreshAloneMints | apps/api/app/application/services.py:627-666 | with nothing interleaving the three steps can be taken exactly for a live, unexpired token, and leave the rows the method leaves |
| RefreshRotation.AuthService.constructor | apps/api/app/application/services.py:768-789 | the service starts with an empty token table |
| RefreshRotation.AuthService.Revoke | apps/api/app/infrastructure/repositories.py:502-511 | compare-and-revoke: true exactly when the row was live, and only that row changes |
| RefreshRotation.AuthService.Refresh | apps/api/app/application/services.py:627-666 | mints exactly for a live token of an active account that is an allowlisted administrator, or a member of the token's existing shop; user, shop and expiry of the new row; any failure, also after the revoke, leaves the table as it was |
| RefreshRotation.AuthService.Logout | apps/api/app/application/services.py:668-678 | revokes all tokens of the token's user, changes no other row, and does nothing for an unknown token |
| BookingMerge.PickOfferedSlot | apps/api/app/agents/orchestrator.py:274-294 | binds a preference only to an opening with exactly that start, and a bare yes to the first opening that can be parsed |
| BookingMerge.ComposeAcrossTurns | apps/api/app/agents/orchestrator.py:387-506 | the branch-by-branch first half of the merge agrees with its specification |
| BookingMerge.MergeBookingContext | apps/api/app/agents/orchestrator.py:369-586 | the whole merge, assignment by assignment, is the specified function of turn, stash and openings; its result never has a missing date with clock precision |
| BookingMerge.StartHasASource | apps/api/app/agents/orchestrator.py:387-586 | the merged start was said, remembered, put together from the two, or offered: never invented |
| BookingMerge.ClockIsNeverMoved | apps/api/app/agents/orchestrator.py:274-294 | a start known to the clock is the merged start whatever is on offer |
| BookingMerge.SilenceKeepsTheStash | apps/api/app/agents/orchestrator.py:460-490 | silence keeps the remembered start exactly unless an opening is held and the stash is a whole clock time |
| BookingMerge.CompletedVisitLastsAnHour | apps/api/app/agents/orchestrator.py:387-441 | with nothing on offer a half answer completed this turn is a visit of one hour |
| BookingMerge.ClockAnswerCompletes | apps/api/app/agents/orchestrator.py:387-413 | exactly when a clock-only answer completes the booking, and with whose day, also while openings are on offer and none is chosen |
| BookingMerge.AnswerIsHeard | apps/api/app/agents/orchestrator.py:369-586 | one merge, with or without openings on offer, makes of an answer that chooses none what it says exactly when the answer is safe and is not silence over a full time while an opening is held; safe: no soft time without a known day or over a known clock, no soft day over a full time |
| BookingMerge.ChoiceSettlesOnAnOpening | apps/api/app/agents/orchestrator.py:528-566 | "first" and "last" settle on that opening whatever half is known; a bare yes on the first one if no half or both are known, and else only where an opening starts exactly there |
| BookingMerge.ExchangeIsHeard | apps/api/app/agents/orchestrator.py:369-586 | the same for an exchange that may also do nothing but choose the first or the last opening |
| BookingMerge.WriteStash | apps/api/app/voice/service.py:713-795 | the stash a call writes is the specified function of the merge and the scheduling verdict |
| BookingMerge.VerdictIsJudged | apps/api/app/voice/service.py:713-795 | the stash written stands for what is known after the verdict |
| BookingMerge.CallRemembersWhatIsSettled | apps/api/app/agents/orchestrator.py:379-586 | over every safe call of answers that say a time, keep silent or choose the first or last opening, whatever is on offer, the stash holds exactly what is settled, and a merge is complete exactly when day and clock are known |
| BookingMerge.HeardExactlyInSafeCalls | apps/api/app/agents/orchestrator.py:379-586 | every merge of such a call stands for what has been heard exactly when the call is safe |
| BookingMerge.LastDayAtLastClock | apps/api/app/agents/orchestrator.py:387-506 | day-only, clock-only and full answers, chosen openings, and silence while nothing is on offer, give in any order the last day at the last clock |
| BookingMerge.SoftTimeInventsADayExactlyWhen | apps/api/app/agents/orchestrator.py:387-400 | a soft time and then a clock answer are complete unless the verdict dropped the stash, on the known day only if no clock was known with it, else on a made-up one |
| BookingOutcomes.PlusIsLater | apps/api/app/agents/orchestrator.py:392 | adding minutes moves a moment by that much, over midnight too |
| BookingOutcomes.ClockOverStash | apps/api/app/agents/orchestrator.py:388-414 | a clock time over a known day, or over a known clock with its day, is that day at that time for an hour; else it stays as said |
| BookingOutcomes.DayOverStash | apps/api/app/agents/orchestrator.py:415-442 | a day over a known clock is that clock on the new day for an hour, unless it was a soft day over a clock that had one; else it stays as said |
| BookingOutcomes.SoftTimeOverStash | apps/api/app/agents/orchestrator.py:443-459 | a soft time over a known day keeps the day, till the known end on that day or for three hours; else it stays as said |
| BookingOutcomes.WholeOrFirstAnswerStands | apps/api/app/agents/orchestrator.py:369-586 | a whole answer, or any answer while nothing is known, stays as said |
| BookingOutcomes.NothingStaysNothing | apps/api/app/agents/orchestrator.py:369-586 | saying no time while nothing is known leaves nothing known |
| BookingOutcomes.SilenceOverStash | apps/api/app/agents/orchestrator.py:460-490 | saying no time carries over what is known, start, end and what is missing, unless it is a whole clock time and openings are held |
| BookingOutcomes.NameResumesTheFirstOpening | apps/api/app/agents/orchestrator.py:520-534 | a name given while openings are held takes up the first of them when no time is said and none, or a whole clock time, is known |
| BookingOutcomes.NameElseChangesNothing | apps/api/app/agents/orchestrator.py:520-534 | in every other case the merge is the same without the name |
| BookingOutcomes.NameOverAHalf | apps/api/app/agents/orchestrator.py:520-534 | so a name over a known half leaves that half known and the other asked for |
| BookingOutcomes.KnownClockOutweighsAChoice | apps/api/app/agents/orchestrator.py:535-546 | asking for the first or last opening is not heard where turn and stash come to a clock time |
| BookingOutcomes.ChoiceDecides | apps/api/app/agents/orchestrator.py:535-546 | where they do not, the opening asked for is the merged time, whatever else was said or known |
| BookingOutcomes.UnreadableChoice | apps/api/app/agents/orchestrator.py:535-546 | an opening whose start cannot be read leaves the start said and gives its end |
| BookingOutcomes.YesConfirmsExactlyWhen | apps/api/app/agents/orchestrator.py:509-519 | a yes confirms unless it only agrees to book a known service before any opening was read out |
| BookingOutcomes.YesSettles | apps/api/app/agents/orchestrator.py:547-567 | a yes settles on the opening at the time come to, on the first readable one if no time was come to, and else changes nothing |
| BookingOutcomes.RememberedExactly | apps/api/app/voice/service.py:713-795 | what is remembered: an incomplete result whole unless its day was refused, of a refused clock time the half that was not refused, of anything else nothing |
| DuplicateDetection.FiledIsGrouped | apps/api/app/import_engine/validation.py:180-190 | filing one more row keeps a dictionary of groups complete and in order |
| DuplicateDetection.CandidateByFields | apps/api/app/import_engine/validation.py:193-237 | two rows make a candidate exactly when they share phone, e-mail or normalised name, with confidence 0.95, 0.9, 0.7 without phones and 0.55; incoming, existing and suggestion as stated |
| DuplicateDetection.StoreCandidateByFields | apps/api/app/import_engine/validation.py:264-291 | a record is found by the phone or e-mail a row has, with confidence 0.92 |
| DuplicateDetection.IndexRows | apps/api/app/import_engine/validation.py:180-191 | one pass fills the phone, e-mail and name dictionaries with exactly the rows of each key |
| DuplicateDetection.Collector.AddPair | apps/api/app/import_engine/validation.py:193-218 | a pair is added once, whichever group brings it |
| DuplicateDetection.Collector.AddGroup | apps/api/app/import_engine/validation.py:220-237 | every member of a group is paired with every later one |
| DuplicateDetection.Collector.AddGroups | apps/api/app/import_engine/validation.py:220-237 | after a stage every two rows that share its key are paired |
| DuplicateDetection.DetectInBatch | apps/api/app/import_engine/validation.py:180-238 | grouping by hashes reports the pairs of comparing every row with every later one, each once, earlier row first, strongest match |
| DuplicateDetection.Find | apps/api/app/import_engine/store.py:87-94 | the store lookup filters the records by that field in lower case, in their order |
| DuplicateDetection.DetectRowAgainstStore | apps/api/app/import_engine/validation.py:264-291 | a row is matched with the records that share its phone or e-mail, each once |
| DuplicateDetection.DetectAgainstStore | apps/api/app/import_engine/validation.py:264-291 | the candidates against earlier imports are exactly the matches of every row |
| DuplicateResolution.PlanResolutions | apps/api/app/import_engine/service.py:255-278 | the sets of rows to leave out and the merge targets are those of the decisions, for customers and vehicles |
| DuplicateResolution.LeftOutExactlyWhen | apps/api/app/import_engine/service.py:262-278 | a row is left out exactly when a candidate about it is decided, or by confidence 0.9 counts as decided, otherwise than to keep the incoming row |
| DuplicateResolution.LastTargetCounts | apps/api/app/import_engine/service.py:272-278 | a row's merge target is the existing row of the last merging candidate about it, or itself |
| DuplicateResolution.MergeFillsGaps | apps/api/app/import_engine/validation.py:315-325 | merging keeps each field that holds something and fills each that does not |
| DuplicateResolution.WalkRows | apps/api/app/import_engine/service.py:295-331 | the dictionary walk keeps the rows not left out, in order, each with what it absorbed |
| DuplicateResolution.KeptAre | apps/api/app/import_engine/service.py:301-312 | the kept positions are exactly the ones not left out, rising |
| ImportModels.RefByFields | apps/api/app/import_engine/validation.py:28-29 | a row is referred to by its reference, else its external id, else its position |
| DuplicateResolution.TargetsComeLater | apps/api/app/import_engine/validation.py:207-216 | every merge target of a candidate is a later row of the batch or a record |
| DuplicateResolution.NothingIsAbsorbed | apps/api/app/import_engine/service.py:303-309 | a row whose left-out predecessors all point forward absorbs nothing |
| DuplicateResolution.NoDecisionCombinesRows | apps/api/app/import_engine/service.py:303-309 | whatever is decided about the candidates detected in a batch, every kept row of that batch is unchanged |
| DuplicateResolution.DetectedPointForward | apps/api/app/import_engine/service.py:255-278 | no candidate of a batch names, as the row that is there already, one before its incoming row |
| DuplicateResolution.DecisionsCombineRowsExactlyWhen | apps/api/app/import_engine/service.py:252-312 | of any batch and any candidates, some decisions change a kept row exactly when a candidate names an earlier row that lacks something the incoming row has |
| DuplicateResolution.ApplyToCustomers | apps/api/app/import_engine/service.py:252-312 | applying decisions to a batch's customers gives the kept rows in order |
| DuplicateResolution.AutoResolve | apps/api/app/import_engine/service.py:168-172 | the automatic setting decides every open candidate of confidence 0.7 or more, and no other |
| DuplicateResolution.AutoLeavesOut | apps/api/app/import_engine/service.py:168-172 | an automatic run leaves out the incoming row of every candidate of confidence 0.7 or more |
| DuplicateResolution.AutoDropsExactly | apps/api/app/import_engine/service.py:252-278 | a row is dropped exactly when a later row is like it or a record matches it |
| DuplicateResolution.AutoApply | apps/api/app/import_engine/service.py:252-312 | an automatic run keeps, unchanged and in order, exactly the rows that no later row is like and no record matches |
| DuplicateResolution.KeptRowsAreUnlike | apps/api/app/import_engine/validation.py:220-237 | no two kept rows share a phone, an e-mail, or a name with both phones missing |
| DuplicateResolution.DroppedRowsReachAKeptOne | apps/api/app/import_engine/service.py:252-312 | every row reaches a kept one, or one a record stands for, by a rising path of rows each like the next |
| ImportJobs.ImportJob.constructor | apps/api/app/import_engine/store.py:49-55 | a new job is pending, without batch or duplicates |
| ImportJobs.ImportJob.Apply | apps/api/app/import_engine/service.py:219-230 | applying without a batch raises and changes nothing; with one it writes the kept rows and completes, or raises and stays at APPLYING |
| ImportJobs.ImportJob.Run | apps/api/app/import_engine/service.py:134-190 | one run leaves the job as specified, for every outcome of extraction, validation and writing |
| ImportJobs.RunEnds | apps/api/app/import_engine/service.py:134-190 | for every job and outcome: the status a run ends in, by what it delivers, the automatic setting and whether writing breaks, and its batch, candidates and written rows |
| ImportJobs.PostDecisions | apps/api/app/import_engine/service.py:195-203 | the loop over posted decisions sets the last action posted for each candidate and stops at an unknown action |
| ImportJobs.ImportJob.ResolveDuplicates | apps/api/app/import_engine/service.py:187-217 | posted decisions, unknown ids, unknown actions and a write that raises leave the job and the error as specified |
| ImportJobs.ResolveEnds | apps/api/app/import_engine/service.py:187-217 | for every job and call: the status and the error a resolve call ends with, its candidates and written rows |
| ImportJobs.LastPostedCounts | apps/api/app/import_engine/service.py:195-203 | after decisions with known actions each candidate carries the last action posted for it, else the one it had, and is resolved if it was or one was posted |
| ImportJobs.FineExactlyWhen | apps/api/app/import_engine/service.py:195-203 | all decisions are taken exactly when none posted for a candidate that is there has an unknown action |
| ImportJobs.UnknownStops | apps/api/app/import_engine/service.py:195-203 | the decisions before the first unknown action count, those behind it do not |
| ImportJobs.ResolvingOnlyResolves | apps/api/app/import_engine/service.py:197-203 | posted decisions change only decisions, and never reopen one |
| ImportJobs.CompletedOnlyWhenResolved | apps/api/app/import_engine/service.py:134-230 | over every history of runs and decisions a completed job has nothing open of confidence 0.7 or more |
| ImportJobs.CompletedMeansDecided | apps/api/app/import_engine/service.py:157-217 | over every history, in a completed job every candidate of confidence 0.7 or more has an action |
| ImportJobs.DirectCompletionDropsNothing | apps/api/app/import_engine/service.py:157-174 | a run without the automatic setting that completes has written every customer row unchanged, and its candidates leave out no vehicle row |
| ImportJobs.ResolvingACompletedJobWritesItAgain | apps/api/app/import_engine/service.py:205-230 | a resolve call on a completed job writes its rows once more exactly when it is asked to apply, knows every action and writing does not raise |
| ImportJobs.HistoriesCombineNothing | apps/api/app/import_engine/service.py:134-230 | at every moment of every history in which validation does not raise, each apply wrote rows of one delivered batch, in order and unchanged |
| ImportJobs.RaisingValidationMixesBatches | apps/api/app/import_engine/service.py:147-155 | a run that stops, one whose validation raises on the same two rows in the other order, and a merge posted: one row with the fields of both is written |
| SqlImportJobs.SqlImportJob.constructor | apps/api/app/import_engine/sql_store.py:421-461 | a new job's row is pending, without batch or duplicates |
| SqlImportJobs.SqlImportJob.Load | apps/api/app/import_engine/sql_store.py:463-480 | a read gives a copy of the row |
| SqlImportJobs.SqlImportJob.Save | apps/api/app/import_engine/sql_store.py:501-545 | a save writes the copy to the row |
| SqlImportJobs.SqlImportJob.Apply | apps/api/app/import_engine/service.py:219-230 | applying works on the row as last saved |
| SqlImportJobs.SqlImportJob.Run | apps/api/app/import_engine/service.py:134-190 | one run leaves the row as specified, for every outcome of extraction, validation and writing |
| SqlImportJobs.SqlRunEnds | apps/api/app/import_engine/service.py:134-190 | the status of a run is the one in memory; what it detected is saved only if it stops or writing raises; a completing run writes under the candidates of before |
| SqlImportJobs.SqlImportJob.ResolveDuplicates | apps/api/app/import_engine/service.py:187-217 | posted decisions leave the row and the error as specified |
| SqlImportJobs.SqlResolveEnds | apps/api/app/import_engine/service.py:187-217 | status and error of a resolve call are those in memory; which calls save their decisions, and under which candidates an apply writes |
| SqlImportJobs.RunWritesAllExactlyWhen | apps/api/app/import_engine/service.py:147-174 | a run that applies writes its whole batch exactly when no candidate in the row before it leaves out a row of the batch, whatever it detected itself |
| SqlImportJobs.FreshRowDropsNothing | apps/api/app/import_engine/service.py:147-174 | so a run that applies on a row without candidates drops no row |
| SqlImportJobs.AutomaticRunWritesAllExactlyWhen | apps/api/app/import_engine/service.py:147-190 | after any automatic runs, the next writes its whole batch exactly when no open candidate of the last one whose writing raised is about a row of it |
| SqlImportJobs.AutomaticRunsDropNothing | apps/api/app/import_engine/service.py:147-174 | however many automatic runs follow each other, while no write raises none of them drops a row |
| SqlImportJobs.SavedCandidatesDropARow | apps/api/app/import_engine/service.py:144-174 | two rows with one phone, run automatically after a run that stopped for resolution or one whose writing raised: the first is dropped |
| SqlImportJobs.StoresAgreeOnARunExactlyWhen | apps/api/app/import_engine/service.py:157-174 | on any job a run keeps the positions it keeps in memory, and where rows differ and candidates point forward writes the same rows, exactly when the candidates of before leave out the rows its own open ones are about |
| SqlImportJobs.StoresAgreeOnAFirstRunExactlyWhen | apps/api/app/import_engine/service.py:168-174 | on a new job's automatic run the two stores write the same rows exactly when no open candidate is about a customer |
| SqlImportJobs.TwoOfAKindAreBothWritten | apps/api/app/import_engine/service.py:168-174 | two rows with one phone: over SQL a first automatic run writes both, in memory it does not |
| SqlImportJobs.StoresAgreeOnDecisionsExactlyWhen | apps/api/app/import_engine/service.py:187-217 | any resolve call applies the same positions, and where rows differ and candidates point forward writes the same rows, exactly when it writes nothing or the candidates left out before the rows they leave out with the last actions posted |
| SqlImportJobs.StoresAgreeOnFirstDecisionsExactlyWhen | apps/api/app/import_engine/service.py:187-217 | of what detection found, decisions applied at once write the same rows over both stores exactly when the rows some posted action leaves out are those some candidate of confidence 0.9 or more is about |
| SqlImportJobs.SkipAppliedAtOnceIsLost | apps/api/app/import_engine/service.py:187-217 | two rows with one name, a run that stops, SKIP posted with an apply: over SQL both rows are written and the job completes with an open candidate, in memory one row is written |
| SqlImportJobs.DecisionsAppliedAtOnceAreLost | apps/api/app/import_engine/service.py:197-217 | any two lists of decisions that settle everything, applied at once, leave the same row, completed with what was open still open |
| SqlImportJobs.DecisionsAppliedLaterCount | apps/api/app/import_engine/service.py:197-217 | decisions posted first and applied by a second call write what they write in memory |
| SqlImportJobs.SqlHistoriesCombineNothing | apps/api/app/import_engine/service.py:134-230 | over every history whose runs deliver the same rows, each apply wrote some of them, in order and unchanged |
| SqlImportJobs.ReorderedRunCombinesRows | apps/api/app/import_engine/service.py:134-174 | a run that stops and an automatic run on the same two rows in the other order write one row with the fields of both |
| ImportCounts.Writer.constructor | apps/api/app/import_engine/service.py:333-349 | every counter starts at zero |
| ImportCounts.Writer.Persist | apps/api/app/import_engine/service.py:350-374 | one write counts as imported or failed, never both and never neither |
| ImportCounts.Writer.PersistCustomers | apps/api/app/import_engine/service.py:388-422 | customers: each row once, imported exactly when it gets through |
| ImportCounts.Writer.PersistVehicles | apps/api/app/import_engine/service.py:424-471 | vehicles: each row once, and the links kept are those of the rows that got through |
| ImportCounts.Writer.PersistRepairs | apps/api/app/import_engine/service.py:473-518 | repairs: each row once, imported exactly when its vehicle is known and the write gets through |
| ImportCounts.Writer.PersistCommunications | apps/api/app/import_engine/service.py:525-540 | communications: each row once |
| ImportCounts.Writer.PersistBatch | apps/api/app/import_engine/service.py:333-545 | for every entity kind imported plus failed is the number of rows, and imported is the rows that get through |
| ImportCounts.GettingThrough | apps/api/app/import_engine/service.py:333-545 | which rows of each kind get through, by what CRM, record store, VIN, directory and links say |
| ImportCounts.LinksAre | apps/api/app/import_engine/service.py:370-413 | a batch knows the vehicles with a VIN that the CRM took, by VIN and external id |
| ImportCounts.LeftOutRowsAreAccountedFor | apps/api/app/import_engine/service.py:280-293 | kept rows plus rows left out is the original batch size |
| ImportCounts.MergedAndSkippedAreCounted | apps/api/app/import_engine/service.py:547-568 | the merged and skipped counters add up to the decided candidates |
| ImportCounts.MergedPlusSkippedIsOff | apps/api/app/import_engine/service.py:547-568 | merged plus skipped is the rows left out, plus the decided candidates that repeat a row, minus the rows left out undecided; so it is right exactly when those are equally many |
| ImportCounts.MergedPlusSkippedIsLeftOut | apps/api/app/import_engine/service.py:547-568 | with every candidate of confidence 0.9 or more decided, merged plus skipped is the number of rows left out exactly when no row is decided about twice, and otherwise more |
| ImportCounts.ThreeOfAKindOvercounts | apps/api/app/import_engine/service.py:547-568 | three rows with one phone: three counted as merged, two left out |
| Mileage.InsertKeepsOrder | apps/api/app/import_engine/validation.py:139-141 | inserting by date keeps the order, later rows after earlier ones of the same date |
| Mileage.SortIsInOrder | apps/api/app/import_engine/validation.py:139-141 | the sorted dated rows are in stable date order |
| Mileage.OrderGroup | apps/api/app/import_engine/validation.py:137-141 | dated rows by date, undated ones after them in row order |
| Mileage.ScanGroup | apps/api/app/import_engine/validation.py:142-156 | the scan flags exactly the rows below -1 or below an earlier reading, each once |
| Mileage.ValidateMileage | apps/api/app/import_engine/validation.py:130-156 | a repair is flagged exactly when it is inconsistent, each once |
| Mileage.FlagsAreInconsistencies | apps/api/app/import_engine/validation.py:130-156 | what the groups flag is what the definition over all repairs calls inconsistent |
| Mileage.InconsistentExactlyWhen | apps/api/app/import_engine/validation.py:130-156 | inconsistent by fields: another reading of the VIN, and a reading below -1 or below one of an earlier date, of the same date further up, or, without a date, of any date or further up |
| Mileage.NoFlagMeansNeverFalling | apps/api/app/import_engine/validation.py:142-156 | for readings not negative a VIN has no flag exactly when its ordered readings never fall |
| Vin.CheckDigit | apps/api/app/import_engine/vin.py:49-57 | the accumulated check digit is the weighted sum modulo 11, with an error for a character without a value or an eighteenth one |
| Vin.WeightsByRule | apps/api/app/import_engine/vin.py:35 | the weights are 8 to 2, 10, 0 and 9 to 2 |
| Vin.ValuesByRule | apps/api/app/import_engine/vin.py:9-34 | letters count 1 to 9 over and over, S begins at 2, I, O and Q have no value, digits are themselves |
| Vin.WellFormedExactlyWhen | apps/api/app/import_engine/vin.py:7-46 | well formed means seventeen characters that each have a value |
| Vin.TotalByRule | apps/api/app/import_engine/vin.py:49-57 | the sum grows by value times weight at each position |
| Vin.DigitByRule | apps/api/app/import_engine/vin.py:56-57 | the digit is the remainder, X for ten |
| Vin.ValidateVin | apps/api/app/import_engine/vin.py:60-70 | a VIN passes exactly when, cleaned up, it is well formed and carries its own check digit; the digit asked for would be accepted |
| Vin.ChangeInTotal | apps/api/app/import_engine/vin.py:49-57 | changing a character changes the sum by its weight times the change of value |
| Vin.CheckDigitIsUnique | apps/api/app/import_engine/vin.py:49-70 | one and only one check character is accepted for any other sixteen |
| Vin.SingleErrorsFound | apps/api/app/import_engine/vin.py:49-70 | a single wrong character goes unnoticed exactly when it is off position 9 and stands for the same number |
| Vin.ExchangesFound | apps/api/app/import_engine/vin.py:49-70 | exchanging any two characters off position 9 goes unnoticed exactly for equal numbers or equal weights |
| Vin.NeighbourExchangesFound | apps/api/app/import_engine/vin.py:49-70 | exchanging neighbours off position 9 goes unnoticed exactly when they stand for the same number |
| Vin.NormalizeIsIdempotent | apps/api/app/import_engine/vin.py:38-42 | cleaning up twice is cleaning up once |
| Vin.CleanedByCharacters | apps/api/app/import_engine/vin.py:38-42 | cleaning up drops spaces and hyphens and makes letters capital, character by character |
| Vin.NothingIsLeftExactlyWhen | apps/api/app/import_engine/vin.py:38-42 | a VIN counts as missing exactly when none was given or it is all spaces and hyphens |
| JobCodec.FieldRoundTrip | apps/api/app/import_engine/sql_store.py:49-111 | a field read back is the field written exactly when it survives, whatever way of reading it has |
| JobCodec.RecordRoundTrip | apps/api/app/import_engine/sql_store.py:114-301 | a record of any schema comes back as it was exactly when all its fields survive |
| JobCodec.AllRoundTrip | apps/api/app/import_engine/sql_store.py:186-241 | a list of records comes back whole and in order exactly when every record survives |
| JobCodec.TableRoundTrip | apps/api/app/import_engine/sql_store.py:280-288 | the counters by entity kind come back exactly when every record survives |
| JobCodec.RepairTexts | apps/api/app/import_engine/sql_store.py:145-161 | a repair survives exactly when its service type is not empty |
| JobCodec.InvoiceTexts | apps/api/app/import_engine/sql_store.py:164-183 | an invoice survives exactly when its status is not empty |
| JobCodec.EstimateTexts | apps/api/app/import_engine/sql_store.py:164-183 | an estimate survives exactly when its status is not empty |
| JobCodec.CommunicationTexts | apps/api/app/import_engine/sql_store.py:195-209 | a communication survives exactly when channel and direction are not empty |
| JobCodec.AppointmentTexts | apps/api/app/import_engine/sql_store.py:210-225 | an appointment survives exactly when type and status are not empty |
| JobCodec.RecommendationTexts | apps/api/app/import_engine/sql_store.py:226-239 | a recommendation survives exactly when priority and status are not empty |
| JobCodec.WhichListsCanLose | apps/api/app/import_engine/sql_store.py:186-241 | of a batch customers, vehicles and warnings always come back whole, and each of the six other lists has entities that do not |
| JobCodec.EngineKept | apps/api/app/import_engine/sql_store.py:304-315 | of the engine's part of the options only the batch can lose anything |
| JobCodec.OptionsRoundTrip | apps/api/app/import_engine/sql_store.py:304-325 | the options come back exactly when they do not use the engine's key, and the engine's part always does |
| JobCodec.JobRoundTrip | apps/api/app/import_engine/sql_store.py:304-362 | a job read back is the job written exactly when its options do not use the engine's key, progress names the status, and its batch survives |
| JobCodec.NormalizedBatchSurvives | apps/api/app/import_engine/normalize.py:124-219 | a batch the normalisers built loses nothing |
| JobCodec.NormalizedJobRoundTrip | apps/api/app/import_engine/sql_store.py:304-362 | so a job the program makes comes back exactly when its options do not use the engine's key and progress names the status |
| JobCodec.ReadJobRoundTrips | apps/api/app/import_engine/sql_store.py:304-362 | a job that was read from a row once comes back whole from then on |
| JobCodec.EmptyTextComesBackAs | apps/api/app/import_engine/sql_store.py:114-241 | an empty text comes back as the default its reader puts in |
| JobCodec.ReaderDefaults | apps/api/app/import_engine/sql_store.py:145-239 | the nine texts with defaults and what they are |
| JobCodec.EmptyServiceTypeComesBackAsGeneral | apps/api/app/import_engine/sql_store.py:145-161 | what the condition on texts keeps out: an empty service type would come back as "general" |
| RateLimit.Limiter.constructor | apps/api/app/enterprise/gateway.py:36-40 | the limiter starts without buckets |
| RateLimit.Limiter.RateLimit | apps/api/app/enterprise/gateway.py:137-143 | a call is admitted exactly when its key's admissions of the last 60 seconds are fewer than its limit; its bucket then holds the last minute's admissions and no other bucket changes |
| RateLimit.PruneLater | apps/api/app/enterprise/gateway.py:140 | pruning again later gives what is recent then: nothing pruned is missed |
| RateLimit.Prune | apps/api/app/enterprise/gateway.py:140 | the loop keeps exactly the entries younger than 60 seconds, in order |
| RateLimit.RecentAre | apps/api/app/enterprise/gateway.py:137-143 | what counts at a time is the admissions of that key less than sixty seconds old, in order |
| RateLimit.MinuteEndingAtAnAdmission | apps/api/app/enterprise/gateway.py:141-143 | the minute ending at an admission holds at most that call's limit of admissions |
| RateLimit.AnyMinute | apps/api/app/enterprise/gateway.py:137-143 | any sixty seconds hold at most as many admissions of a key as the largest limit admitted under |
| RateLimit.OnlyIsFair | apps/api/app/enterprise/gateway.py:137-143 | the calls of one key by themselves are decided fairly |
| RateLimit.RequestsDetermineVerdicts | apps/api/app/enterprise/gateway.py:137-143 | the same calls get the same verdicts |
| RateLimit.KeysDoNotInterfere | apps/api/app/enterprise/gateway.py:137-143 | what a key's calls are told does not depend on the calls of other keys |
| Gateway.MatchIsOnePrefixTest | apps/api/app/enterprise/gateway.py:133 | the three tests of a route come to one plain prefix test, so a prefix also takes longer names |
| Gateway.BoundaryIsCrossedExactlyWhen | apps/api/app/enterprise/gateway.py:133 | a route takes a path beyond its own segments exactly when its prefix has no slash at its end and the path goes on without one |
| Gateway.LongerNameIsTaken | apps/api/app/enterprise/gateway.py:133 | "/v1/agents" takes "/v1/agentsx" |
| Gateway.InsertedMatch | apps/api/app/enterprise/gateway.py:131-135 | what one more route changes about the first match in order of length |
| Gateway.MatchIsLongest | apps/api/app/enterprise/gateway.py:130-135 | the route found is the longest match, the first registered of its length; none exactly when none matches |
| Gateway.Match | apps/api/app/enterprise/gateway.py:130-135 | sorting and scanning finds that route |
| Gateway.BucketKeyCanBeRead | apps/api/app/enterprise/gateway.py:114 | without a colon in the route id a bucket name gives back route, client and organization |
| Gateway.RoutesShareExactlyWhen | apps/api/app/enterprise/gateway.py:114 | two routes can share a bucket exactly when the id of one is the id of the other, a colon and more |
| Gateway.BucketsAreApart | apps/api/app/enterprise/gateway.py:114 | where no route id extends another by a colon, calls share a bucket exactly when route, client and organization are the same |
| Gateway.ColonInARouteSharesABucket | apps/api/app/enterprise/gateway.py:114 | the calls that do: any route, any extension of its id, any client |
| Gateway.ApiGateway.constructor | apps/api/app/enterprise/gateway.py:36-40 | the gateway starts with its routes and an empty limiter |
| Gateway.ApiGateway.Authorize | apps/api/app/enterprise/gateway.py:78-128 | exactly the calls that pass every other test are counted, in their own bucket, against the smaller of the two limits |
| Gateway.FirstFailedTestDecides | apps/api/app/enterprise/gateway.py:87-114 | which refusal a call gets, and for a counted call its organization, the key's owner or the one given, and its limit, the smaller of two |
| Otp.FivePerCode | apps/api/app/auth/otp.py:264-273 | comparisons so far never exceed five for each code sent, less those the waiting code has left |
| Otp.SendingsArePaced | apps/api/app/auth/otp.py:188-196 | every code after the first took a cooldown or a success |
| Otp.GuessesAreBounded | apps/api/app/auth/otp.py:188-278 | comparisons on a key by any time are at most 5 (T / 45 s + 1 + successes), T since its first code |
| Otp.LiveWasSent | apps/api/app/auth/otp.py:52-74 | the waiting challenge is the last one sent to its key, with nothing since that replaced or used it |
| Otp.WaitingExactlyWhen | apps/api/app/auth/otp.py:52-74 | a code waits exactly while a sending has been followed by no other and by no success that used it up |
| Otp.AttemptsAreComparisons | apps/api/app/auth/otp.py:264-273 | the attempts counted are the codes compared since the waiting one was sent |
| Otp.SuccessIsForTheLastCode | apps/api/app/auth/otp.py:260-278 | a success is for the last code sent, entered exactly and within ten minutes |
| Otp.ConsumedAtMostOnce | apps/api/app/auth/otp.py:275-278 | no challenge is used up twice, on any keys |
| Otp.WaitingChallengesDiffer | apps/api/app/auth/otp.py:47-55 | different keys wait on different challenges |
| Otp.OtpService.constructor | apps/api/app/auth/otp.py:48-50 | the store starts empty |
| Otp.OtpService.ActiveIsWaiting | apps/api/app/auth/otp.py:52-74 | every index entry names an unconsumed challenge with that key |
| Otp.OtpService.SendOtp | apps/api/app/auth/otp.py:188-207 | sends exactly when no code waits or the waiting one is 45 seconds old, and tells the seconds left otherwise |
| Otp.OtpService.VerifyOtp | apps/api/app/auth/otp.py:260-278 | accepts exactly the waiting, unexpired, not exhausted code; each refusal has its reason and changes nothing |
| Policies.StrictestIsTheJoin | apps/api/app/enterprise/policies.py:47-55 | the outcome is at least as strict as every policy that fits, and one of them is as strict |
| Policies.MatchedAreThoseThatFit | apps/api/app/enterprise/policies.py:28-45 | the matched policies are the enabled ones that fit the request |
| Policies.MatchedExactlyWhen | apps/api/app/enterprise/policies.py:26-45 | a policy is matched exactly when enabled, for no location or the request's, and no rule is against it: intents, channels and every other key spelled out |
| Policies.MatchedKeepsOrder | apps/api/app/enterprise/policies.py:26-45 | matched policies come in the order of the policies |
| Policies.AddingNeverRelaxes | apps/api/app/enterprise/policies.py:27-55 | more policies never relax the outcome, and their order does not matter |
| Policies.OutcomeOfTheStrictest | apps/api/app/enterprise/policies.py:47-55 | denied exactly when a fitting policy denies; allowed exactly when all fitting ones allow |
| Policies.SayingMoreNeverTightens | apps/api/app/enterprise/policies.py:34-43 | supplying an intent, a channel or context values never tightens the outcome |
| Policies.NamingALocationNeverRelaxes | apps/api/app/enterprise/policies.py:29-32 | supplying a location never relaxes it |
| Policies.RulesHold | apps/api/app/enterprise/policies.py:39-45 | the loop over rules holds exactly when no context value contradicts one |
| Policies.FindMatched | apps/api/app/enterprise/policies.py:26-45 | the loop collects the policies that fit, in order |
| Policies.Decide | apps/api/app/enterprise/policies.py:47-55 | leaving at the first DENY gives the join, and the reasons up to the policy that decided |
| Policies.Evaluate | apps/api/app/enterprise/policies.py:17-63 | the evaluation returns the outcome, the matched policies and their reasons |
| Slug.CleanedIsDashed | apps/api/app/domain/slug.py:20-24 | cleaning leaves nothing, or letters and digits with single inner dashes |
| Slug.SlugifyIsSlug | apps/api/app/domain/slug.py:10-30 | every name in any script gets a slug of 2 to 100 letters, digits and single inner dashes |
| Slug.CleanedJoinsTheWords | apps/api/app/domain/slug.py:20-24 | cleaning gives the words of the text, in order, joined by single dashes |
| Slug.SlugifyJoinsTheWords | apps/api/app/domain/slug.py:10-30 | the slug of a name is its words joined by dashes, cut to a hundred characters without a dash at the cut; "shop" for a blank name, the digest for one with less than two characters to say |
| Slug.PlainNameKeepsItsWords | apps/api/app/domain/slug.py:10-30 | words with single spaces between them come back in order with dashes between them |
| Slug.LettersAndDigitsCount | apps/api/app/domain/slug.py:22 | the 36 characters a word is made of |
| Slug.SlugIsFixed | apps/api/app/domain/slug.py:10-30 | a slug is its own slug |
| Slug.AttemptCanBeRead | apps/api/app/domain/slug.py:33-39 | the attempt can be read off a candidate, also one cut to length |
| Slug.CandidateIsBaseAndNumber | apps/api/app/domain/slug.py:33-39 | a candidate is as much of the base as leaves room, without a dash at the cut, then a dash and the number |
| Slug.CandidatesDiffer | apps/api/app/domain/slug.py:33-39 | candidates of different attempts from 2 on differ |
| Slug.CandidateIsSlug | apps/api/app/domain/slug.py:33-39 | every candidate of a slug is a slug |
| Slug.FirstCandidateIsRepeatedExactlyWhen | apps/api/app/domain/slug.py:33-39 | a numbered candidate repeats the first one exactly when the base has 99 or 100 characters and ends in a dash and that number |
| Slug.FirstTwoMayCoincide | apps/api/app/domain/slug.py:33-39 | for one, any base of 100 characters that ends in "-2" and its second candidate |
| Slug.SuffixedAreMany | apps/api/app/application/services.py:102-110 | the candidates of attempts 2 to n are n - 1 different texts |
| Slug.SomeSuffixIsFree | apps/api/app/application/services.py:102-110 | with fewer than 49 slugs held by others one of the attempts 2 to 50 is free |
| Slug.Search | apps/api/app/application/services.py:102-112 | the search takes the first free candidate, and the random slug only when all fifty are taken |
| Slug.AllocateShopSlug | apps/api/app/application/services.py:77-112 | a free preferred slug is taken, a taken one is refused, or searched past on a rename |
| Slug.SearchSucceeds | apps/api/app/application/services.py:102-112 | a found slug is a slug and nobody else's; below 49 taken slugs the random one is never used |
| Decimals.DecimalRoundTrip | apps/api/app/domain/slug.py:37 | reading a number's digits gives the number back |
| ShopRecords.OperationIsGood | apps/api/app/application/walkin_service.py:34-365 | every operation, failed or not, keeps VINs unique and references whole, and treats visits as it should |
| ShopRecords.TakeInIsGood | apps/api/app/application/walkin_service.py:34-106 | taking a car in, known by VIN, by plate, or new |
| ShopRecords.ConvertIsGood | apps/api/app/application/walkin_service.py:126-185 | converting a visit |
| ShopRecords.AttachDescribedIsGood | apps/api/app/application/walkin_service.py:203-277 | attaching a car described by its VIN |
| ShopRecords.EditIsGood | apps/api/app/application/crm_service.py:286-356 | updating a vehicle, also its VIN |
| ShopRecords.AddVehicleIsGood | apps/api/app/application/crm_service.py:244-278 | creating a vehicle |
| ShopRecords.RemoveVehicleIsGood | apps/api/app/application/crm_service.py:358-370 | deleting a vehicle leaves no visit without its car |
| ShopRecords.RemoveCustomerIsGood | apps/api/app/infrastructure/repositories.py:605-765 | deleting a customer leaves no visit, car or repair that names what is gone |
| ShopRecords.RunIsGood | apps/api/app/application/walkin_service.py:34-365 | the invariants hold at every moment of every run |
| ShopRecords.VisitsOverRuns | apps/api/app/application/walkin_service.py:279-329 | between any two moments of any run ended visits are unchanged, a visit's customer is never replaced, no stage is left backwards and no id returns |
| ShopRecords.OpenWithCustomerNeverConverts | apps/api/app/application/walkin_service.py:137-140 | an open visit with a customer is never converted, however long the run |
| ShopRecords.IntakeIsForTheCarThatArrived | apps/api/app/application/walkin_service.py:34-106 | an intake is for the car with its VIN, else one with its plate, else a new one; that car keeps VIN and owner, and no other row changes |
| ShopRecords.OnlyTheNamedVisitChanges | apps/api/app/application/walkin_service.py:34-365 | apart from deleting a customer an operation writes no visit but the one it names |
| ShopRecords.ConvertingTakesTheCar | apps/api/app/application/walkin_service.py:154-169 | the car goes to the new customer; car and visits agree exactly when no other visit of the car had a customer |
| ShopRecords.SecondConversionTakesTheCar | apps/api/app/application/walkin_service.py:34-185 | a run of two intakes of one car and two conversions after which the first visit has its customer and the car belongs to the second |
| ShopRecords.AttachingWaysAgreeExactlyWhen | apps/api/app/application/walkin_service.py:203-277 | the owner each way of attaching leaves; the two agree exactly when visit or car has no customer or both have the same |
| ShopRecords.AttachingByVinTakesTheCar | apps/api/app/application/walkin_service.py:187-277 | a run after which attaching a car by its VIN gives it to the visit's customer, while by its id it stays with its owner |
| ShopOutcomes.PlateKeyKeepsOrder | apps/api/app/application/crm_service.py:35-42 | the characters of a plate count one by one, in order |
| ShopOutcomes.PlateKeyOfOne | apps/api/app/application/crm_service.py:35-42 | capital letters and digits count, other characters do not |
| ShopOutcomes.SpacedPlateIsTheSame | apps/api/app/infrastructure/repositories.py:871-889 | spacing a plate does not make it another plate |
| ShopOutcomes.IntakeSucceedsExactlyWhen | apps/api/app/application/walkin_service.py:34-90 | an intake fails only over complaint, VIN, year or mileage given |
| ShopOutcomes.IntakeFields | apps/api/app/application/walkin_service.py:57-89 | a known car takes over plate, make and model where they were given and keeps them where not; a new one is as it was told |
| ShopOutcomes.EndedVisitsAreLeftAlone | apps/api/app/application/walkin_service.py:367-375 | converting, attaching and repairing fail with a missing visit or a conflict for an ended one |
| ShopOutcomes.ConvertingSucceedsExactlyWhen | apps/api/app/application/walkin_service.py:137-185 | converting: when, with which failure otherwise, and every field it changes |
| ShopOutcomes.AttachingKnownLeaves | apps/api/app/application/walkin_service.py:187-277 | attaching by id fills in the missing customer of car or visit and changes nothing else of them |
| ShopOutcomes.AttachingDescribedLeaves | apps/api/app/application/walkin_service.py:207-277 | attaching by description: when, and every field of the car and the visit afterwards, for a known and for a new car |
| ShopOutcomes.EndingLeaves | apps/api/app/application/walkin_service.py:279-329 | closing and cancelling in every status: idempotent, refused after the other, and only the status changes |
| ShopOutcomes.RepairLeaves | apps/api/app/application/walkin_service.py:331-365 | a repair is for the visit's car and its customer, or the car's owner, at the given cost |
| ShopOutcomes.RemovingACustomerLeaves | apps/api/app/infrastructure/repositories.py:605-765 | deleting a customer takes along exactly the customer's cars and the visits and repairs of either |
| ShopOutcomes.CreatingAVehicleLeaves | apps/api/app/application/crm_service.py:244-278 | creating a vehicle: when, with which failure otherwise, and the row written |
| ShopOutcomes.UpdatingSucceedsExactlyWhen | apps/api/app/application/crm_service.py:286-341 | an update is refused as a whole exactly for a missing vehicle, a field set to nothing or to what is not allowed, or another vehicle's VIN |
| ShopOutcomes.UpdatingLeaves | apps/api/app/application/crm_service.py:314-356 | after an update each field set has the value given, each other field is unchanged, and no other row changes |
| ShopOutcomes.RemovingAVehicleLeaves | apps/api/app/application/crm_service.py:358-370 | a vehicle goes exactly when no visit names it, with its repairs and nothing else |
| ShopOutcomes.FailedLeavesTheRecords | apps/api/app/application/walkin_service.py:34-365 | a failed operation leaves the records as they were |
| WalkInDesk.Desk.constructor | apps/api/app/application/walkin_service.py:31-32 | a shop starts without records |
| WalkInDesk.Desk.GetByVin | apps/api/app/infrastructure/repositories.py:862-869 | the vehicle with a VIN, if there is one |
| WalkInDesk.Desk.GetByLicensePlate | apps/api/app/infrastructure/repositories.py:871-889 | a newest vehicle with the plate, spaces and dashes aside |
| WalkInDesk.Desk.Create | apps/api/app/application/walkin_service.py:34-106 | one unit of work with the specified outcome: new records or the failure |
| WalkInDesk.Desk.ConvertToCustomer | apps/api/app/application/walkin_service.py:126-185 | converts an open visit without customer, with the specified failures otherwise |
| WalkInDesk.Desk.FinishAttaching | apps/api/app/application/walkin_service.py:247-277 | owner and customer are filled in from each other |
| WalkInDesk.Desk.AttachVehicle | apps/api/app/application/walkin_service.py:203-206 | attaching by id |
| WalkInDesk.Desk.AttachDescribedVehicle | apps/api/app/application/walkin_service.py:207-277 | attaching by description, updating a known car |
| WalkInDesk.Desk.CloseVisit | apps/api/app/application/walkin_service.py:279-303 | closing is idempotent and refused after cancelling |
| WalkInDesk.Desk.CancelVisit | apps/api/app/application/walkin_service.py:305-329 | cancelling is idempotent and refused after closing |
| WalkInDesk.Desk.AttachRepairHistory | apps/api/app/application/walkin_service.py:331-365 | a repair is recorded for the visit's car and customer while the visit is not ended |
| WalkInDesk.Desk.DeleteCustomer | apps/api/app/infrastructure/repositories.py:605-765 | the customer goes with cars, visits and repairs |
| WalkInDesk.Desk.CreateVehicle | apps/api/app/application/crm_service.py:244-278 | a vehicle with a VIN nobody has, for a customer who exists |
| WalkInDesk.Desk.CheckVin | apps/api/app/application/crm_service.py:304-312 | the next VIN, unless it is no VIN or another vehicle's |
| WalkInDesk.Desk.CheckFields | apps/api/app/application/crm_service.py:314-341 | the other fields, each kept, set or refused |
| WalkInDesk.Desk.UpdateVehicle | apps/api/app/application/crm_service.py:286-356 | all of a change or nothing |
| WalkInDesk.Desk.DeleteVehicle | apps/api/app/application/crm_service.py:358-370 | refused while any visit names the vehicle |
| Forecast.DenominatorClosedForm | apps/api/app/analytics/forecast.py:79 | the denominator is n (n² - 1) / 12, positive from two points on, so its fallback is never taken |
| Forecast.NormalEquations | apps/api/app/analytics/forecast.py:79-82 | residuals cancel and are orthogonal to x whenever the slope is covariation over squared deviations |
| Forecast.ResidualsAreOrthogonal | apps/api/app/analytics/forecast.py:79-82 | the residuals of the fitted line sum to zero and are orthogonal to the positions |
| Forecast.ErrorSplits | apps/api/app/analytics/forecast.py:79-82 | any other line has the squared error of the fitted one plus the squared gap between the lines |
| Forecast.LeastSquares | apps/api/app/analytics/forecast.py:79-82 | no line fits better, and no other line fits as well |
| Forecast.PointsOnALine | apps/api/app/analytics/forecast.py:73-82 | points on a line are fitted by that very line |
| Forecast.SpreadSums | apps/api/app/analytics/forecast.py:79-80 | the two sums over deviations |
| Forecast.Line | apps/api/app/analytics/forecast.py:79-81 | slope and intercept, with the fallback for a zero denominator |
| Forecast.Residuals | apps/api/app/analytics/forecast.py:82 | the residuals of the line |
| Forecast.Fit | apps/api/app/analytics/forecast.py:73-82 | the regression of the last sixty points at most is the fitted line of those points |
| Forecast.Project | apps/api/app/analytics/forecast.py:85-102 | the projected points, weekends damped, clamped at zero, with their bands |
| Forecast.PredictedByDay | apps/api/app/analytics/forecast.py:87-92 | by number of the day: the line from Monday to Friday, six tenths of it on Saturday and Sunday, never below zero |
| Forecast.BandByNumber | apps/api/app/analytics/forecast.py:93-100 | the band reaches 1.64 standard errors or 8 percent, whichever is more, and not below zero |
| Forecast.ForecastSeries | apps/api/app/analytics/forecast.py:43-110 | the constant forecast below three points, the fitted one from three on |
| Forecast.ConstantByNumber | apps/api/app/analytics/forecast.py:54-64 | below three points the last value is held, ten percent to each side |
| Forecast.LastSixty | apps/api/app/analytics/forecast.py:73-74 | the fit sees the last sixty values, or all of fewer |
| Forecast.SigmaSquared | apps/api/app/analytics/forecast.py:82-83 | the squared standard error is the sum of squared residuals over the points less two |
| Forecast.BandHoldsTheValue | apps/api/app/analytics/forecast.py:92-100 | a projected value is not negative and lies in its band of at least 8% to each side |
| Forecast.ConstantBandHoldsTheValueIffNotNegative | apps/api/app/analytics/forecast.py:54-64 | the constant band holds its value exactly when the value is not negative |
| Forecast.WeekOnWeek | apps/api/app/analytics/forecast.py:87-92 | week on week the projection moves the way the slope points |

## Left out

- JSON text, timestamps and UUIDs as text, hashing, code generation and delivery, bcrypt and JWT: foreign calls; where a
  result depends on one it is a parameter.
- Threads inside one process: a call to the limiter, the code store or the job store runs to its end.
- The SQL store of one-time codes; of the SQL job store its cache of credentials and payloads, and what reading a
  foreign or damaged row gives.
- BookingMerge.CallRemembersWhatIsSettled: does not model answers that say yes or give a name while openings are on
  offer, or choose an opening and name a time at once, because they mean two things; a bare yes is
  `ChoiceSettlesOnAnOpening`.
- BookingMerge: the service fields carried over (`orchestrator.py` lines 306-367) and the same-time preference (lines
  589-618), which read other modules; seconds and changes of the clock for daylight saving.
- BookingMerge.MergeBookingContext: does not model the branch at `orchestrator.py` lines 491-506, because its
  condition contradicts that of the branch before it.
- Vehicle duplicates: grouping by VIN has one stage where customers have three; merging vehicles is the same walk with
  another way to combine two rows.
- ImportCounts.Writer.PersistBatch: does not model what is written to CRM, because only whether a write gets through
  reaches the counters.
- Mileage.ValidateMileage: does not model the checks on the vehicle's own odometer (`validation.py` lines 118-128 and
  158-177), because they compare single values.
- Connectors, and of normalisation all but the texts with defaults; row references, which come from there, are required
  to be distinct.
- Vin: letters outside ASCII.
- Policies: rule lists given as a bare string instead of a list.
- Gateway: audit entries, the scopes of API keys and the creation of keys.
- Otp: normalising phone numbers and e-mail addresses.
- Slug.AllocateShopSlug: does not model stripping and lower-casing the preferred slug, because both are library calls;
  a preferred slug is not slugified by the program and nothing is claimed about its form.
- ShopRecords: phone, e-mail and address of customers and the checks for equal ones; texts of nothing but white space;
  letters outside ASCII in plates; rows of other shops; other tables that deleting a customer empties.
- WalkInDesk.Desk.AttachRepairHistory: does not model the texts of a repair, because they are copied.
- Forecast.ForecastSeries: does not model rounding to cents and the summary sentence, because they are display.
- Routers, schemas, migrations, reports, dashboards, agents, marketing and the web client.
