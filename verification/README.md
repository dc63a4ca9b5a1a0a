# Verified model of the platform's replicated, counted and time-limited state

The backend keeps several kinds of state whose correctness is about whole runs rather than single calls: marks that
devices draw offline and merge later, a stock ledger that nothing may bypass, a chat whose sockets, tickets and cursors
race with each other, one-time codes and links, delegated permissions, and byte ranges of protected files. This project
models that state in Dafny and proves what every run of it keeps.

A service that changes rows step by step is a class whose methods are proved equal to a specification function; what the
service promises is then proved about that function, over every sequence of steps from the empty state. A method that
runs in one database transaction is one step: it commits or leaves the state as it was. Clocks, random
tokens, the answers of other services and database snapshots are parameters. Where the code reads or writes without a
lock, the separate reads and writes are separate steps: the handshake ticket, fetching annotations, editing a stock item,
sending a link again, saving a profile or account form. `dafny verify dfyconfig.toml` checks everything.

| Part | Modules | Main results |
|---|---|---|
| Annotation sync | `AnnotationGeometry`, `AnnotationSync`, `AnnotationService`, `AnnotationVersions`, `AnnotationConvergence`, `AnnotationRetry`, `AnnotationLimit`, `AnnotationEffects` | every push that is answered and every fetch leaves the device with exactly the server's marks, in every interleaving; a version is overwritten at most once; a batch whose reply was lost may be sent again; what a sender sends is what every device shows |
| Stock and payments | `StockLedger`, `StockConsumption`, `StockRuns`, `StockReport`, `StockEstimates`, `StockEffects`, `StockMonth`, `StockService`, `Payments` | every quantity is accounted for, by the ledger alone exactly when nothing was seeded or put back; consumption is charged once per order; the backwards report equals forward replay; payments never exceed the total |
| Group chat | `ChatTickets`, `ChatBucket`, `ChatConsumer`, `ChatReceipts` | a ticket is one-time exactly when two calls fit inside its lifetime; the frame limiter is exact; a revoked socket falls silent; receipts are confluent |
| Accounts | `Otp`, `Invitations`, `Permissions` | one live code and one open link at a time; a reset ends older sessions for good exactly when no form loaded before it is saved after it; delegation never escalates |
| Files | `ByteRange` | the range parser selects exactly the bytes of section 2.1 of RFC 7233, and the chunk loop emits them |

`Wrappers`, `Sums`, `Numbers`, `Text` and `Decimals` hold the optional values, the weighted totals, minimum and maximum, the
blank-stripping and the 28-digit arithmetic the others share.

## Where the code and its own description disagree

- `finance/models.py` says an item's quantity only ever changes through movements. The command that seeds default stock
  writes quantities directly, and editing or deleting an item saves the whole row as it was loaded, without a lock, so a
  movement or delivery in between is undone. `StockRuns.QuantityIsTheSumOfMovements` and `StockRuns.ConsumptionIsConserved`
  state exactly when the description is true, `StockRuns.AnUndisturbedEditIsFresh` which edits are harmless, and
  `StockRuns.SeededStockHasNoMovement` and `StockRuns.AStaleSaveUndoesAMovement` are runs that break it.
- `changes_since` reads the revision and the rows in two queries without a lock, so the reply can carry marks newer than its
  revision. `AnnotationConvergence.EveryFetchConverges` states what the device then holds and when it is in step.
- The monthly report computes its projections in 28-digit decimals, so on use that does not divide evenly the suggested
  purchase can be half a unit too much and the days left a day too few. `StockEstimates.SuggestionIsLeastUnlessRoundedUp` and
  `StockEstimates.DaysLeftAreWholeUnlessRoundedDown` state exactly when.
- A used reset link is meant to end every earlier session. The profile form saves the whole account row as it was loaded,
  without a lock, and can write an older session version back. `Invitations.AResetEndsEarlierSessions` proves that the
  earlier sessions are over for good exactly when no form that loaded the account before the reset is saved after it;
  `Invitations.AStaleProfileRevivesSessions` is the run that revives them.
- Sending a link again is described as leaving a set-up person's password working. It decides on the account as it was
  loaded, without a lock, so a person who accepts in between loses the new password.
  `Invitations.APasswordWorksUntilALinkIsUsed` is an equivalence, `Invitations.AStaleResendWipesThePassword` the run.
- `annotations/services.py` limits a document to 5000 live marks; bringing a deleted mark back is not counted.
  `AnnotationSync.LiveBoundIsKeptUnlessATombstoneReturns` gives the exact condition for one operation,
  `AnnotationLimit.LiveMarksOverARun` the bound over every run, and `AnnotationLimit.TheLiveLimitCanBePassed` a run that
  passes the limit.
- A handshake ticket is described as one-time; `ChatTickets.OneTimeIffTwoSpansFit` proves this is so exactly when twice
  the longest get-to-delete span is below the ticket's lifetime.
- A template is described as making the effective capabilities exactly its own; for the wildcard role it does not.
  `Permissions.TemplateIsExactIffNotWildcard` is an equivalence.
- `_parse_single_range` is described as parsing RFC 7233; it also takes signs, underscores and blanks, and refuses numerals
  of more than 4300 digits. `ByteRange.AcceptedIsInTheGrammarIffPlain` and `ByteRange.UnreadableNumeralsAreRefused` state
  this.
- `send_otp` marks its new code used when delivery fails, but the exception leaves the surrounding transaction, so that
  write, the new code and the retirement of the old one are all rolled back. `Otp.OtpService.SendOtp` does what happens.

## Model

| member | source | states |
|---|---|---|
| `AnnotationGeometry.Clean` | app/apps/annotations/services.py:49-76 | the loop over rectangles accepts and stores what the cleaning function says, for every kind of mark |
| `AnnotationGeometry.UnitIsNearest` | app/apps/annotations/services.py:42-46 | a stored coordinate is within half a step of the one sent |
| `AnnotationGeometry.AcceptedMarkIsOnThePage` | app/apps/annotations/services.py:42-72 | whatever is sent, an accepted mark lies on the page: rectangles end inside it, points and notes are in it |
| `AnnotationGeometry.CleanedMarkIsAFixedPoint` | app/apps/annotations/services.py:49-76 | with `1 - x` taken exactly, a mark read back from the server and sent again is stored unchanged; in floats a side clipped to the edge may lose its last bit once |
| `AnnotationGeometry.StoredGeometryIsWhatWasSent` | app/apps/annotations/services.py:42-76 | geometry is accepted and stored exactly when each coordinate is the nearest step to the one sent, sides are cut off at the page edge, the counts are within their limits and a note's text is the one sent without the blanks around it |
| `AnnotationSync.AppendKeeps` | app/apps/annotations/services.py:163-180 | creating a mark keeps unique ids, distinct revisions and the revision as the sum of versions, and disturbs no other row |
| `AnnotationSync.RewriteKeeps` | app/apps/annotations/services.py:185-208 | overwriting or deleting a mark keeps the same invariant |
| `AnnotationSync.SyncKeeps` | app/apps/annotations/services.py:131-216 | a sync keeps the invariant and every row, raises the revision by exactly the operations applied, and a refused one changes nothing |
| `AnnotationSync.ReachableStatesAreConsistent` | app/apps/annotations/services.py:111-216 | in every reachable document ids are unique, row revisions are distinct, the document's revision is their maximum (0 without rows) and counts every operation ever applied |
| `AnnotationSync.AVersionWinsAtMostOnce` | app/apps/annotations/services.py:181-198 | after an update naming a version was applied, every later update naming it changes nothing and reports the server's copy |
| `AnnotationVersions.AtMostOneUpdateWins` | app/apps/annotations/services.py:111-216 | over every run of batches, of all updates naming the same (client id, version) of an existing mark at most one is applied |
| `AnnotationSync.LiveBoundIsKeptUnlessATombstoneReturns` | app/apps/annotations/services.py:163-186 | from any document, an accepted upsert adds at most one live mark, and adds one beyond 5000 exactly when the document was full and it revives a deleted mark |
| `AnnotationLimit.ARequestExceedsByItsRevivals` | app/apps/annotations/services.py:131-208 | from any document, a whole request ends at most the number of its revivals in a full document above 5000, or above where it started |
| `AnnotationLimit.LiveMarksOverARun` | app/apps/annotations/services.py:111-216 | over every run of requests the live marks exceed 5000 by at most the deleted marks revived in a full document, so a run that revives none keeps the limit |
| `AnnotationSync.DeleteNeverAddsAMark` | app/apps/annotations/services.py:200-208 | deletes never raise the number of live marks |
| `AnnotationLimit.TheLiveLimitCanBePassed` | app/apps/annotations/services.py:163-186 | a run of accepted requests that ends with 5001 live marks |
| `AnnotationEffects.AnUpsertIsAcceptedIff` | app/apps/annotations/services.py:147-184 | an upsert is accepted exactly when its id, kind, page, colour, width and geometry are well-formed and its mark exists and it names a readable version, or it is new and fewer than 5000 are live |
| `AnnotationEffects.AnUpsertStoresWhatWasSent` | app/apps/annotations/services.py:162-198 | an accepted upsert that is new, names no version or names the current one leaves the row with the page, kind, colour, width and geometry sent, not deleted, at the next version and revision, and every other row as it was |
| `AnnotationEffects.AConflictingUpsertChangesNothing` | app/apps/annotations/services.py:181-184 | one naming another version changes no row and reports every field of the server's copy |
| `AnnotationEffects.ADeleteOnlyMarks` | app/apps/annotations/services.py:200-208 | a delete marks a live row and keeps what it shows; everything else it leaves alone |
| `AnnotationEffects.ARequestIsAcceptedIff` | app/apps/annotations/services.py:131-154 | a request is accepted exactly when it asks for at most 200 changes and each upsert is acceptable at its turn |
| `AnnotationEffects.TheLastUpsertStands` | app/apps/annotations/services.py:111-216 | after an accepted request each mark shows what the last upsert of its id sent, if that takes effect, and is deleted exactly when the request deletes it |
| `AnnotationEffects.AMarkNotUpserted` | app/apps/annotations/services.py:111-216 | a mark the request does not upsert keeps what it shows, is deleted exactly when it was or the request says so, and otherwise keeps its whole row; no mark appears unasked |
| `AnnotationEffects.AStaleUpsertIsAnswered` | app/apps/annotations/services.py:181-184 | a request's only upsert of a mark, naming another version, changes nothing shown and is answered with the server's copy |
| `AnnotationService.AnnotationDocument.LoadRows` | app/apps/annotations/services.py:138-139 | the dictionary finds exactly the rows by client id and the counter is the number of live ones |
| `AnnotationService.AnnotationDocument.PutOne` | app/apps/annotations/services.py:162-198 | one upsert creates, conflicts, overwrites or is refused as specified, and the running live counter stays true |
| `AnnotationService.AnnotationDocument.DeleteOne` | app/apps/annotations/services.py:200-208 | one delete marks a live row and leaves anything else alone |
| `AnnotationService.AnnotationDocument.UpsertAll` | app/apps/annotations/services.py:147-198 | the upsert loop applies all operations or stops at the first refused one, the live counter true at every step |
| `AnnotationService.AnnotationDocument.DeleteAll` | app/apps/annotations/services.py:200-208 | the delete loop applies all deletes and counts those that changed something |
| `AnnotationService.AnnotationDocument.SyncBatch` | app/apps/annotations/services.py:111-216 | the whole request leaves the specified document and reply, or, refused, the document untouched |
| `AnnotationService.AnnotationDocument.UpsertOne` | app/apps/annotations/services.py:147-198 | one operation is validated and then creates, conflicts, overwrites or is refused as specified |
| `AnnotationService.AnnotationDocument.ReadRows` | app/apps/annotations/services.py:104-109 | the second query of a fetch tells every field, the deleted flag included, of every row changed after the revision asked for, each once, oldest change first |
| `AnnotationConvergence.ChangesAreTheNewerRows` | app/apps/annotations/services.py:104-109 | a delta lists exactly the rows changed after the revision asked for, each once, oldest change first |
| `AnnotationConvergence.DeltaCompletesTheReplica` | app/apps/annotations/services.py:213-215 | laying the delta since a consistent replica's revision over it gives the server's marks, deleted ones included |
| `AnnotationConvergence.MergeCompletes` | app/apps/annotations/services.py:104-109 | the same for a delta sent back with any older revision, after which the replica is still consistent |
| `AnnotationConvergence.StepKeepsTheSystem` | app/apps/annotations/services.py:104-216 | every push, answered or not, and each of the two reads of a fetch keep every replica consistent and lose nothing on the server |
| `AnnotationConvergence.EveryAnsweredDeviceConverges` | app/apps/annotations/services.py:111-216 | in every interleaving of any number of devices, a device whose push is accepted and answered then holds exactly the server's marks at the server's revision |
| `AnnotationConvergence.EveryFetchConverges` | app/apps/annotations/services.py:104-109 | whatever anyone does between the two reads of a fetch, the device ends with exactly the server's marks of the second read and the server's revision of the first, never ahead of its marks; it is in step exactly when nothing was applied in between |
| `AnnotationConvergence.ALateReplyIsConsistent` | app/apps/annotations/services.py:111-216 | a reply that arrives after other devices' pushes still gives the device exactly the server's marks and revision of its own commit, every replica stays consistent, and it is in step exactly when nothing was applied in between |
| `AnnotationConvergence.QuiescentReplicasAgree` | app/apps/annotations/services.py:104-109 | once nothing is applied any more, every device that then starts and completes a fetch is in step from there on, however the reads interleave |
| `AnnotationConvergence.ChainedDeltasEqualOneFetch` | app/apps/annotations/services.py:104-109 | a chain of deltas tells a device what one delta from revision 0 would |
| `AnnotationEffects.ADeviceInStepKnowsEveryRow` | app/apps/annotations/services.py:79-109 | in every run a device in step has, for every row, a mark with its deleted flag, page, kind, colour, width, geometry and version, and no other mark |
| `AnnotationEffects.EveryAnswerTellsEveryRow` | app/apps/annotations/services.py:79-216 | in every run a device that completes a fetch, or whose push is answered, has the same of every row the server then has |
| `AnnotationEffects.ADeleteReachesEveryDevice` | app/apps/annotations/services.py:79-216 | after an accepted delete and anything not mentioning the mark again, every device that completes a fetch holds it as deleted |
| `AnnotationEffects.AnEditReachesEveryDevice` | app/apps/annotations/services.py:79-216 | after an accepted upsert that takes effect and anything not mentioning the mark again, every device that completes a fetch holds the page, kind, colour, width and geometry the sender sent |
| `AnnotationRetry.UpsertsActPointwise` | app/apps/annotations/services.py:147-198 | an accepted list of upserts naming no version leaves under each id exactly what its own operations say, whatever else the document holds |
| `AnnotationRetry.DeletesActPointwise` | app/apps/annotations/services.py:200-208 | so does a list of deletes |
| `AnnotationRetry.RetryIsSafe` | app/apps/annotations/services.py:111-216 | an accepted batch naming no version, sent again, is accepted, creates no row and leaves every mark's content and deleted flag as they were |
| `AnnotationRetry.ALostPushMayBeSentAgain` | app/apps/annotations/services.py:111-216 | a device whose accepted push was never answered may send it again at any later time: it is accepted, creates no row and leaves the device in step, and if nothing was applied in between everything is drawn as before |
| `StockLedger.MovedIsSound` | app/apps/finance/services.py:111-167 | an accepted movement keeps every quantity the base plus its signed movements, every `quantity_after` a prefix sum, and no prefix negative |
| `StockEffects.AMovementDoesWhatIsAsked` | app/apps/finance/services.py:126-167 | a movement is accepted exactly when it asks for something in the right sign of an item with enough; purchases and adjustments are added and uses and wastes taken off the quantity, the new row says the same, a purchase's price is taken over, and nothing else changes |
| `StockEffects.ARecordDoesWhatIsAsked` | app/apps/finance/services.py:126-167 | a movement recorded by hand is carried out like that or changes nothing |
| `StockEffects.AnAlertIsACrossing` | app/apps/finance/services.py:65-76 | an alert is raised exactly when an active item other than ink is emptied, or taken from above its level to it or below |
| `StockLedger.ACrossingIsReported` | app/apps/finance/services.py:65-76 | a stretch of the ledger that starts above the reorder level and ends at or below it raises an alert |
| `StockLedger.RunningOutIsReported` | app/apps/finance/services.py:65-76 | a stretch that starts with stock and ends with none reports that the item ran out, even with the level switched off |
| `StockLedger.LowStockIsReArmedOnlyAboveTheLevel` | app/apps/finance/services.py:56-76 | between two low-stock alerts the stock was above the level |
| `StockLedger.FallingStockAlertsAtMostTwice` | app/apps/finance/services.py:65-76 | without an increase each kind of alert is raised at most once, and not before its threshold is passed |
| `StockConsumption.UsesAreTotals` | app/apps/finance/services.py:185-212 | each key's use is the sum over the order's lines, an order counts once, and sheets are the paper of all sizes |
| `StockConsumption.UsesHoldWhatIsMentioned` | app/apps/finance/services.py:185-212 | the dictionary has a key exactly when some line mentions it: paper by its size, a binding by the snapshot or else the line, wire on spirals |
| `StockConsumption.ChargeSettlesWholeHundredths` | app/apps/finance/services.py:231-257 | what left the shelf plus what is owed is what was owed before plus the use; the debt is below 0.01 exactly when the shelf covered the whole hundredths, and otherwise the shelf is empty |
| `StockConsumption.ChargeIsSound` | app/apps/finance/services.py:231-257 | a charge keeps the ledger sound and nothing negative |
| `StockConsumption.DeductIsConserved` | app/apps/finance/services.py:214-264 | delivering an order adds exactly its uses times the rate to what each item was charged; delivering it again changes nothing |
| `StockConsumption.DeductKeepsOrdersApart` | app/apps/finance/services.py:214-264 | the ledger never holds two automatic movements for one order and item, so the unique constraint is never what stops a delivery |
| `StockEffects.ADeliveryTakesWhatWasUsed` | app/apps/finance/services.py:214-264 | a delivery takes from each active, metered item standing for something used the whole hundredths of its debt and use, as far as the shelf has them, in one movement for the order; the rest stays owed, and every other item is left alone |
| `StockEffects.ADeliveryIsReported` | app/apps/finance/services.py:223-264 | the report has each key used once, with its uses, what left the shelf of the item standing for it, and what it was short of |
| `StockRuns.RunKeeps` | app/apps/finance/services.py:111-264 | over every run of creations, seeding, movements, deliveries and edits, overlapping ones included, nothing is negative, no order is charged twice to an item and each key names one live item |
| `StockRuns.LedgerStaysSound` | app/apps/finance/services.py:111-167 | over every run without a stale save each quantity is the seeded stock plus the signed movements, each `quantity_after` a prefix sum, and no prefix negative |
| `StockRuns.QuantityIsTheSumOfMovements` | app/apps/finance/models.py:82-83 | in every reachable shop a quantity is its signed movements plus what was seeded plus what saves put back, so it is the sum of the movements exactly when those two cancel |
| `StockRuns.FreshSavesPutNothingBack` | app/apps/common/viewsets.py:45-67 | in a run whose saves each find the quantity and debt they loaded, nothing is put back |
| `StockEffects.QuantityIsWhatWasAskedFor` | app/apps/finance/services.py:111-264 | over every run a quantity is what was opened, bought and adjusted less what was used, wasted and delivered, in the quantities asked for, plus what was seeded and put back |
| `StockEffects.ANewItemOpensInTheLedger` | app/apps/finance/serializers.py:98-109 | an item is created exactly when no live item has its key, with its opening balance as its only movement |
| `StockEffects.ASeededItemHasNoMovement` | app/apps/finance/management/commands/seed_print_finance_defaults.py:131-145 | seeding adds the item with its stock and no movement |
| `StockEffects.ASaveWritesTheLoadedRow` | app/apps/common/viewsets.py:45-67 | whatever happens between load and save, the save writes the edited columns with the quantity and debt as loaded, exactly when the key is free |
| `StockRuns.AnUndisturbedEditIsFresh` | app/apps/common/viewsets.py:45-67 | an edit whose item is not moved, charged for a delivery or saved by another between its load and its save puts nothing back |
| `StockRuns.SeededStockHasNoMovement` | app/apps/finance/management/commands/seed_print_finance_defaults.py:131-145 | a seeded item with stock and an empty ledger |
| `StockRuns.AStaleSaveUndoesAMovement` | app/apps/audit/mixins.py:75-99 | a run in which an edit loaded before a movement and saved after it leaves 10 on the shelf and 7 in the ledger |
| `StockRuns.TimelyRunsAreChronological` | app/apps/finance/services.py:153-165 | when the actions that move an item come in time order, so do its movements in the ledger |
| `StockRuns.KeyNamesOneItem` | app/apps/finance/services.py:223-227 | the item charged for a key is the only one that stands for it |
| `StockRuns.ConsumptionIsConserved` | app/apps/finance/services.py:185-264 | over every run, stock taken automatically plus stock still owed is the uses times the rate summed over the distinct orders delivered, plus the debt saves put back, and so conserved exactly when that is nothing |
| `StockRuns.RepeatedDeliveryIsInert` | app/apps/finance/services.py:217-220 | whatever happened in between, deducting an order again changes nothing |
| `StockReport.ReportIsForwardReplay` | app/apps/finance/services.py:380-455 | the opening and closing balances, computed backwards from today, are what the shelf held at the two ends of the period |
| `StockReport.ATornReportIsOffByWhatItMissed` | app/apps/finance/services.py:384-418 | when movements are recorded after the aggregates were read and before the items are, each balance is off by exactly the missed movements of that time or later |
| `StockReport.RowAddsUp` | app/apps/finance/services.py:413-448 | opening + purchased - used - waste + adjustment = closing; use by hand is the usage without an order; the waste reasons sum to the waste |
| `StockReport.MonthsAreContinuous` | app/apps/finance/services.py:380-455 | one month closes where the next one opens |
| `StockMonth.ARecordShowsInItsColumn` | app/apps/finance/services.py:380-447 | a recorded movement raises exactly its own column of its item by the quantity asked for, waste also under its reason, in the month it falls in, and moves the openings and closings after it |
| `StockMonth.ADeliveryShowsAsUse` | app/apps/finance/services.py:380-447 | a delivery raises use and use by orders by what it took, and nothing else |
| `StockMonth.AQuietItemShowsItsStock` | app/apps/finance/services.py:409-448 | an item without movements shows its quantity at both ends and zeros between |
| `StockMonth.WhatTheRowSaysOfToday` | app/apps/finance/services.py:423-453 | an item is low exactly when active, with a level, and at or below it; estimates are given exactly after three days with some use |
| `StockEstimates.LeastPurchaseIsLeast` | app/apps/finance/services.py:424-429 | what the suggestion should be: the least number of half units that covers the next 30 days at the month's rate |
| `StockEstimates.SuggestionIsLeastUnlessRoundedUp` | app/apps/finance/services.py:424-429 | the suggestion, in 28-digit decimals, is that number, or half a unit more exactly when the exact need is a whole number of half units and the decimals came out above it |
| `StockEstimates.DaysLeftAreWholeUnlessRoundedDown` | app/apps/finance/services.py:425-427 | the days left are the whole days the balance lasts, or one less exactly when it lasts a whole number of days and the decimals came out below it |
| `StockEstimates.OnlyARateRoundedUpIsOff` | app/apps/finance/services.py:424-429 | neither estimate is off unless the 28-digit daily rate itself came out too high |
| `StockEstimates.ATerminatingRateIsExact` | app/apps/finance/services.py:424-429 | both are exact when the daily rate terminates within ten decimals of a hundredth |
| `StockEstimates.ThirdsSuggestTooMuch` | app/apps/finance/services.py:428-429 | 5 units used in 3 days with 20 left: 30.50 suggested where 30 cover |
| `StockEstimates.ThirdsLastTooShort` | app/apps/finance/services.py:427 | 5 units used in 3 days with 5 left: two days reported where three are covered |
| `StockReport.Monthly` | app/apps/finance/services.py:410-455 | an item has a row exactly when it is not deleted and is active or moved in the period; the rows come in item order, one each, and are those the other lemmas describe |
| `StockService.CountUses` | app/apps/finance/services.py:185-212 | the loop over the lines fills the dictionary of uses |
| `StockService.StockRoom.RecordMovement` | app/apps/finance/services.py:111-167 | a movement is refused with nothing changed, or updates the row, appends its ledger row and returns the alert its crossing calls for |
| `StockService.StockRoom.ChargeOne` | app/apps/finance/services.py:222-260 | one pass of the deduction loop takes what the shelf can give, keeps the rest owed and reports both |
| `StockService.StockRoom.DeductForOrder` | app/apps/finance/services.py:214-264 | every key used is charged once in order, the order is marked, and a marked order is left alone |
| `StockService.StockRoom.CreateItem` | app/apps/finance/serializers.py:98-109 | a new item's opening balance goes through the ledger |
| `StockService.StockRoom.SaveItem` | app/apps/common/viewsets.py:45-67 | an edit writes the whole loaded row back, quantity and debt included, unless its key is taken |
| `Payments.MoneyIsNearest` | app/apps/finance/services.py:42-43 | rounding is off by at most 0.005 and leaves whole cents alone |
| `Payments.PoundsSurviveTheRoundTrip` | app/apps/finance/services.py:334-343 | SYP to USD and back is off by at most 0.005 * rate + 0.005 |
| `Payments.DollarsSurviveTheRoundTrip` | app/apps/finance/services.py:334-343 | USD to SYP and back is off by at most 0.005 / rate + 0.005 |
| `Payments.TotalIn` | app/apps/finance/services.py:346-349 | there is no total exactly when a part cannot be converted; otherwise it is within half a cent per part of the exact one |
| `Payments.CollectedNeverExceedsTheTotal` | app/apps/finance/services.py:270-293 | over any run of payments and voids live payments stay between 0 and the total, due is exactly the difference, and paid means nothing is due |
| `Payments.PaymentsAreTakenUpToTheDue` | app/apps/finance/services.py:270-293 | in every reachable account a payment is taken exactly when positive, on an open order and at most what is due to the cent; paying exactly the due settles the order |
| `Payments.VoidUndoesARecord` | app/apps/finance/views.py:284-303 | voiding a payment just recorded restores what was due |
| `Payments.OrderAccount.RecordPayment` | app/apps/finance/services.py:275-293 | a payment is refused for the stated reason or appended, rounded to the cent |
| `Payments.OrderAccount.VoidPayment` | app/apps/finance/views.py:284-303 | a live payment is marked void; a voided or unknown one is refused |
| `ChatTickets.StepKeepsTheRace` | app/apps/chat/services.py:144-165 | each single cache operation, wait, failure or lost reply keeps the reservation outliving every call that can still act on it |
| `ChatTickets.OneTimeIffTwoSpansFit` | app/apps/chat/services.py:119-170 | at most one call per ticket returns claims in every interleaving exactly when twice the longest get-to-delete span is below the lifetime |
| `ChatTickets.AnUndisturbedCallIsServed` | app/apps/chat/services.py:144-170 | a live ticket is handed over, with the claims issued, to a call for its own group; a call for another group gets nothing and leaves the ticket |
| `ChatTickets.ATicketLastsItsLifetime` | app/apps/chat/services.py:117-152 | a call for its group reads a ticket exactly while it is younger than its lifetime |
| `ChatTickets.AcceptedSocketIsTheIssuedUser` | app/apps/chat/services.py:144-182 | returned claims are those issued, and a socket is accepted with them exactly for that group, live and open to that active user at an unchanged session version |
| `ChatBucket.TokensStayInRange` | app/apps/chat/consumers.py:71-81 | tokens stay between 0 and 30, whatever the frames |
| `ChatBucket.AcceptedFramesAreBounded` | app/apps/chat/consumers.py:36-81 | at most 30 + 15 * (t - s) frames are accepted in every window [s, t] |
| `ChatBucket.NothingIsDroppedIffTheTrafficConforms` | app/apps/chat/consumers.py:71-81 | every frame is accepted exactly when every stretch of frames fits 30 + 15 times its duration |
| `ChatBucket.AFrameIsAcceptedIffItFits` | app/apps/chat/consumers.py:71-81 | whatever was dropped before, a frame is accepted exactly when with the frames accepted so far it fits 30 + 15 times the duration of every stretch ending with it |
| `ChatBucket.APacedFrameIsAccepted` | app/apps/chat/consumers.py:71-81 | a frame a fifteenth of a second after the previous one is accepted, whatever came before |
| `ChatConsumer.OnlyACheckPrimesTheCache` | app/apps/chat/consumers.py:83-93 | only a check of the database moves the cached expiry, to a full lifetime when granted and to never when refused |
| `ChatConsumer.TheCloseCodeSaysWhy` | app/apps/chat/consumers.py:237-257 | a check finds 4401 for an account missing, inactive or of another session version, 4403 for a recognised one without access, and nothing exactly when both are in order |
| `ChatConsumer.WhatAFrameComesTo` | app/apps/chat/consumers.py:95-198 | each effect of a frame, messages created or rejected, every error and every close, comes from exactly the stated situation |
| `ChatConsumer.WhatConnectingAndPushesComeTo` | app/apps/chat/consumers.py:46-209 | a socket opens exactly when its check succeeds, a push passes exactly with a live or new grant, and otherwise the socket closes with the reason |
| `ChatConsumer.StalenessIsBounded` | app/apps/chat/consumers.py:83-227 | every effect and delivery follows a granted check by at most 20 seconds plus the two latencies, and a message a check in its own frame |
| `ChatConsumer.RevocationTakesEffect` | app/apps/chat/consumers.py:83-227 | after a permanent revocation at R a message is only created if its own check came before R, hence before R plus the latency of acting, and none of the gated effects happens later than R + 20 plus the latencies |
| `ChatConsumer.RevokedSocketIsClosed` | app/apps/chat/consumers.py:27-32 | the first thing a revoked socket asks for after its cached grant ran out closes it with the code of the rule that fails |
| `ChatConsumer.AFloodStopsAtTheLimiter` | app/apps/chat/consumers.py:95-102 | over any life of a socket at most 30 + 15 * (t - s) frames of a window get past the limiter |
| `ChatConsumer.RefusalsAreAnsweredOnceASecond` | app/apps/chat/consumers.py:34-102 | two refused frames that are answered are at least a second apart |
| `ChatConsumer.GroupChatConsumer.Connect` | app/apps/chat/consumers.py:46-63 | connecting fills the bucket and runs a check |
| `ChatConsumer.GroupChatConsumer.TakeFrameToken` | app/apps/chat/consumers.py:71-81 | the bucket is refilled for the time passed, capped, and a token taken when there is one |
| `ChatConsumer.GroupChatConsumer.RefreshAuthorization` | app/apps/chat/consumers.py:83-87 | a check sets the expiry according to its result |
| `ChatConsumer.GroupChatConsumer.CachedAuthorization` | app/apps/chat/consumers.py:89-93 | the database is read only when the cached grant has run out |
| `ChatConsumer.GroupChatConsumer.Receive` | app/apps/chat/consumers.py:95-169 | a frame goes through limiter, shape, quota and authorization in that order and has the specified effect |
| `ChatConsumer.GroupChatConsumer.HandleReadFrame` | app/apps/chat/consumers.py:171-198 | a receipt or presence frame acts only within its quota and with a cached grant |
| `ChatConsumer.GroupChatConsumer.Deliverable` | app/apps/chat/consumers.py:203-209 | a push is delivered only with a cached grant, and otherwise closes the socket |
| `ChatReceipts.ReachableCursorsAreOrdered` | app/apps/chat/receipts.py:41-57 | in every reachable chat each member has one row with 0 <= read <= delivered <= the latest message id |
| `ChatReceipts.LatestIsTheMaximum` | app/apps/chat/receipts.py:37-38 | the latest id is the largest message id, deleted messages included, and 0 in an empty chat |
| `ChatReceipts.AReceiptMovesExactlyAsFar` | app/apps/chat/receipts.py:46-51 | a claim at or below the cursor leaves it, one within the chat moves it to exactly that message, one beyond to the latest; delivered follows the later of the two claims |
| `ChatReceipts.AReceiptMovesItsMember` | app/apps/chat/receipts.py:41-57 | in every reachable chat a receipt moves only its member's cursors, exactly that far, and without access nothing |
| `ChatReceipts.AReceiptReadsUpToItsMessage` | app/apps/chat/receipts.py:41-57 | messages up to the one named are read afterwards, and those after it are as unread as before |
| `ChatReceipts.ReceiptsJoin` | app/apps/chat/receipts.py:46-51 | a member's receipts move the cursor to the least one as far as each of them says or as the chat goes |
| `ChatReceipts.ReceiptsAreConfluent` | app/apps/chat/receipts.py:46-51 | the same receipts in any order and repetition give the same cursors |
| `ChatReceipts.InterleavedReceiptsAreConfluent` | app/apps/chat/receipts.py:41-57 | and so they do when all members' receipts interleave |
| `ChatReceipts.TicksMeanWhatTheyShow` | app/apps/chat/receipts.py:69-74 | read count <= delivered count; read is shown exactly when another member read the message, and a tick beyond sent exactly when another member has it |
| `ChatReceipts.CountsAreExact` | app/apps/chat/receipts.py:69-74 | the counts are exactly the other members who have, and who have read, the message |
| `ChatReceipts.TicksNeverGoBack` | app/apps/chat/receipts.py:33-74 | whatever happens, a message's tick and both counts never go back |
| `ChatReceipts.ReceiptsSettleTheUnreadCount` | app/apps/chat/receipts.py:77-99 | a receipt takes off the unread counter exactly the others' live messages it passes, all of them at the latest message |
| `ChatReceipts.UnreadIsExact` | app/apps/chat/receipts.py:77-99 | the counter is exactly the others' live messages after the cursor |
| `ChatReceipts.GroupReadState.Update` | app/apps/chat/receipts.py:46-57 | the row moves to the specified cursor and is written exactly when that changes it |
| `Otp.AtMostOneUnusedCode` | app/apps/accounts/services.py:103-205 | in every reachable state each (identifier, purpose, channel) has at most one unused code |
| `Otp.AcceptsExactlyTheLiveCode` | app/apps/accounts/services.py:168-205 | an attempt is accepted exactly when its key has a code that is not used, expired or locked and this is that code |
| `Otp.DeadCodesNeverVerify` | app/apps/accounts/models.py:205-224 | a code that was used, replaced, expired or locked never verifies afterwards |
| `Otp.AcceptanceAndReplacementKill` | app/apps/accounts/services.py:136-194 | accepting a code spends it and a delivered new code retires every older one of its key |
| `Otp.ADeliveredCodeIsTheOnlyOne` | app/apps/accounts/services.py:124-165 | a request during the cooldown changes nothing; any other delivered code is at once the only one its key accepts |
| `Otp.ADeliveredCodeLastsItsExpiry` | app/apps/accounts/services.py:130-143 | left alone a code is accepted exactly while younger than its expiry, and blocks a new one exactly while younger than the cooldown too |
| `Otp.GuessesAreLimited` | app/apps/accounts/models.py:205-217 | over any run at most OTP_MAX_ATTEMPTS guesses are compared with one code |
| `Otp.AcceptedWhileGuessesRemain` | app/apps/accounts/models.py:205-217 | a key's unused, unexpired code is accepted exactly while fewer than OTP_MAX_ATTEMPTS guesses were compared with it |
| `Otp.AMissIsCounted` | app/apps/accounts/services.py:168-205 | a wrong guess is counted against its code alone and told to be the last exactly when it was or none was left |
| `Otp.TheWaitIsExact` | app/apps/accounts/services.py:129-133 | a request told to wait goes through after exactly that many seconds |
| `Otp.AFailedRequestChangesNothing` | app/apps/accounts/services.py:103-165 | a request without identifier, or whose delivery fails, leaves every code as it was |
| `Otp.OtpService.SendOtp` | app/apps/accounts/services.py:103-165 | sending refuses, rolls back on a delivery failure, or replaces the key's code |
| `Otp.OtpService.VerifyOtp` | app/apps/accounts/services.py:168-205 | verifying reports the failure the row calls for, counts a miss, and consumes the row on success |
| `Otp.OtpService.VerifyCode` | app/apps/accounts/models.py:205-214 | one comparison: a miss is counted and the last one locks the row |
| `Invitations.AtMostOneOpenLink` | app/apps/accounts/staff_onboarding.py:157-172 | in every reachable state only a user's newest link can be open, and no link is both accepted and revoked |
| `Invitations.AcceptsExactlyTheNewestLink` | app/apps/accounts/staff_onboarding.py:353-434 | a token sets a password exactly when it is that of its user's newest link, open and unexpired, the account is active and the password acceptable |
| `Invitations.FinishedLinksStayFinished` | app/apps/accounts/models.py:303-318 | accepted, revoked and expired links never become valid again |
| `Invitations.TheStateSaysWhy` | app/apps/accounts/staff_onboarding.py:360-369 | in every reachable state a link is accepted, revoked, expired or valid for exactly the stated reasons |
| `Invitations.ALinkLastsItsLifetime` | app/apps/accounts/staff_onboarding.py:163-172 | left alone a new link of an active account works exactly while younger than its lifetime |
| `Invitations.IssuingKillsOlderLinks` | app/apps/accounts/staff_onboarding.py:157-172 | issuing a link ends every older link of its user for good |
| `Invitations.ATokenWorksAtMostOnce` | app/apps/accounts/staff_onboarding.py:393-434 | over any run each token sets a password at most once |
| `Invitations.APasswordWorksUntilALinkIsUsed` | app/apps/accounts/staff_onboarding.py:281-328 | until a link is used or another service sets a column, someone who is set up keeps their account and password, however many reset links are sent, exactly when no profile form saves a differing copy loaded before and no link is sent again on a copy loaded before they were set up |
| `Invitations.AStaleResendWipesThePassword` | app/apps/accounts/staff_views.py:173-185 | a run in which a person accepts while a resend is under way and the resend makes the new password unusable |
| `Invitations.HowAnAccountStarts` | app/apps/accounts/staff_onboarding.py:229-280 | a new account is active, either with one invitation and no password or with a temporary password that must be changed |
| `Invitations.HowALinkIsSentAgain` | app/apps/accounts/staff_onboarding.py:298-313 | a resend is refused for the stated reasons, or replaces the open links by one: a reset leaving the account alone, or an invitation leaving it without a password, by the account as loaded |
| `Invitations.UsingALinkSetsTheAccountUp` | app/apps/accounts/staff_onboarding.py:281-434 | using a link sets up exactly its account, raising its session version by one exactly for a reset; whoever then loads the account sends an invitation before and a reset link afterwards |
| `Invitations.PastForGoodIffNoStaleSave` | app/apps/accounts/models.py:59-75 | over every run an account stays past a session version exactly when no copy of it already loaded at that version or before is saved |
| `Invitations.AResetEndsEarlierSessions` | app/apps/accounts/staff_onboarding.py:422-425 | after a reset no earlier ticket is accepted and earlier sockets are closed as unauthenticated in every later state, exactly when no account form that loaded the account before the reset, at its version then or an earlier one, is saved after it |
| `Invitations.AStaleProfileRevivesSessions` | app/apps/accounts/views.py:191-196 | a profile form that loads an active account before the reset and is saved after it makes the earlier sessions valid again |
| `Invitations.AResetSilencesOpenSockets` | app/apps/accounts/staff_onboarding.py:422-425 | a socket opened before the reset creates a message only if its check came before the reset, and is silent 20 seconds plus the latencies later, as long as no form that loaded the account before the reset is saved after it |
| `Invitations.InvitationService.IssueLink` | app/apps/accounts/staff_onboarding.py:156-172 | open links are revoked and one new link is added |
| `Invitations.InvitationService.CreateAccount` | app/apps/accounts/staff_onboarding.py:229-280 | an account starts unusable with a link, or with a temporary password that must be changed |
| `Invitations.InvitationService.ResendLink` | app/apps/accounts/staff_onboarding.py:298-316 | a refused resend changes nothing; otherwise the purpose follows from whether the account, as loaded before, was set up |
| `Invitations.InvitationService.Revoke` | app/apps/accounts/staff_onboarding.py:337-350 | exactly the open links of the user are revoked and counted |
| `Invitations.InvitationService.AcceptLink` | app/apps/accounts/staff_onboarding.py:393-434 | a link is refused with its state, or sets the password, is marked accepted and, for a reset, ends the sessions |
| `Permissions.RolesNestBelowTheAdministrator` | app/apps/accounts/permissions.py:31-64 | by role alone an administrator holds every capability but system.manage, and every other role but IT Support a part of that |
| `Permissions.WhoHoldsWhat` | app/apps/accounts/permissions.py:31-64 | the role table read by capability: which roles hold each one |
| `Permissions.HasFollowsTheLastOverride` | app/apps/accounts/permissions.py:67-86 | an active user holds a capability exactly when the last updated, unexpired override allows it or, without one, the role does |
| `Permissions.PermissionStore.GrantedAmong` | app/apps/accounts/permissions.py:87-108 | the batched answer agrees with `has` code by code |
| `Permissions.LastInOrderDecides` | app/apps/accounts/permissions.py:69-103 | the last override in update order is the one `has` decides by |
| `Permissions.PermissionStore.ApplyTemplate` | app/apps/accounts/staff_onboarding.py:116-136 | the user's overrides become exactly the differences between role and template, and nobody else's change |
| `Permissions.TemplateIsExactIffNotWildcard` | app/apps/accounts/staff_onboarding.py:117-136 | an active user's capabilities become exactly the template's just when the role is not the wildcard one |
| `Permissions.ApplyLeavesOthersAlone` | app/apps/accounts/staff_onboarding.py:117-136 | nobody else's capabilities move |
| `Permissions.WhoMayHire` | app/apps/accounts/staff_onboarding.py:106-113 | only IT Support and administrators create accounts, administrators only below their rank and with what they hold, system.manage never |
| `Permissions.HireSpreadsNothing` | app/apps/accounts/staff_onboarding.py:106-113 | an account created by someone who is not IT Support ranks below them and holds only what they held, never system.manage |
| `Permissions.DelegationNeverEscalates` | app/apps/accounts/permissions.py:127-133 | over any chain of such creations no capability appears that nobody held at the start, and system.manage never spreads |
| `ByteRange.ParseSingleRange` | app/apps/files/views.py:55-79 | an accepted range lies inside the file, and only the empty header asks for none |
| `ByteRange.ReadsEveryRfcRange` | app/apps/files/views.py:55-79 | for every header of the grammar and every file size the parser returns exactly the selected bytes and refuses exactly when none is selected |
| `ByteRange.UnreadableNumeralsAreRefused` | app/apps/files/views.py:65-76 | a numeral of more than 4300 digits is refused |
| `ByteRange.AcceptedIsInTheGrammarIffPlain` | app/apps/files/views.py:55-76 | an accepted header is in the grammar exactly when it has only digits around its dash |
| `ByteRange.APlusSignIsAccepted` | app/apps/files/views.py:65-68 | a header outside the grammar that is accepted |
| `ByteRange.TheServedRangeReadsBack` | app/apps/files/views.py:351-360 | printing the served range and parsing it again gives it back |
| `ByteRange.RangeChunks` | app/apps/files/views.py:82-92 | the loop ends, its chunks are non-empty, at most 64 KiB, join to exactly the slice (shorter only at the end of the file), and the file is closed |
| `ByteRange.Serve` | app/apps/files/views.py:343-361 | a refused header gives 416, none the whole file, and any other exactly the announced bytes |

## Left out

- Concurrency between database transactions: each atomic method is one step. The second look `accept` takes after locking its link is therefore the same as the first, and two first code requests or two links for one user at the same instant, which have no row to lock, are serialised. What runs without a transaction is modelled step by step, as said above.
- The queries of one monthly report other than the last, which reads the items, are one snapshot.
- Floating point: chat clocks and token counts are exact reals, and `1 - x` in a rectangle is exact.
- Database column widths: `Decimal` quantities, money and consumption are unbounded integers in hundredths and millionths; overflow of a column is not modelled.
- Rows as objects: table rows are values held in a sequence field of the service class, so aliasing between two loaded copies of a row is not captured.
- A device that overlaps its own requests: replies reach it at once or, in `AnnotationConvergence.ALateReplyIsConsistent`, while it waits; what it would make of replies that overtake each other is the device's code, which is not part of this repository.
- Annotation documents of many users: one document is modelled; its creation on first sync and the per-user lookup are not. `text`, `updated_at` and `deleted_at` are not part of what a device is told.
- Text that becomes a number or a string: `int` is modelled on ASCII text, and a value it refuses is one case of the input type; the string forms of arbitrary JSON values are not modelled.
- Order of report rows, item names, units, `purchase_cost`, daily usage as a printed decimal and the delivered-sheet total of the monthly report.
- `printed` page counters in `uses`: the code computes them and uses them for nothing. An item that still carries an ink key stands for no key here, because no order uses one.
- The wire weight of a spiral line: a missing or falsy weight is None; other texts that convert to zero still count as zero grams.
- The projections are proved for quantities up to a hundred times a column's capacity; the float between `math.ceil` and the result is exact in that range.
- Notes, expenses, notifications, audit rows, e-mail, SMS, Celery and channel-layer broadcasts: effects with no property here. A stock alert is a returned value.
- The exchange rate is a parameter and positive, as its validator demands; the order total is fixed during a run of payments, as the due amount is only promised then.
- Group access (`can_access_group_chat`) is a set of allowed pairs; membership, verification and the permission to send are not modelled. An exception while storing a message or a receipt is an input of the frame.
- The shared per-user frame quotas (`consume_rate_limit`) are an input: whether a frame is within them, not how they count.
- Outbound `typing_event` frames are sent without any check, so they are not among the deliveries whose staleness is bounded.
- ChatConsumer.StalenessIsBounded: states the 20 seconds plus two latencies, because the code reads the clock after the database check and acts after consulting the cache; with both latencies 0 it is the 20 seconds promised.
- Purging of old codes, the choice of the delivery channel and the normalisation of identifiers. Hashing is an injective function and tokens never repeat.
- The garbage filter of invitation tokens and the personal data shown for a link; the template an invitation carries.
- Deletion of overrides, users or templates outside `apply`, and roles outside the enumeration. `is_authenticated` is true of every stored user.
- Multi-range requests and conditional headers of RFC 7233; the client abandoning a response half way; storage errors. The file does not change while it is served.
- `IdempotencyService`, printing, lectures, universities, product, feedback, announcements, search, filters, statistics, enrolment and login lockout: tables and queries, or single-branch rules.
