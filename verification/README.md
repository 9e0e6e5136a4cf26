# A verified model of the trade journal, the candle cache and the snapshot store

The repository keeps a journal of a broker account, a cache of price candles, and a store of
versioned analysis snapshots. This project models the stateful parts of that code in Dafny and
proves what they promise.

* **The journal.** The broker's transaction log only grows. The history service reads it past a
  stored watermark or by time windows, normalizes each transaction into events, upserts the events
  by id, projects a record for each trade, repairs close reasons, and moves the watermark last. A
  poller writes the same records from the broker's list of open trades. Stores hold a budget of
  document writes; when it is used up the next write raises, so every method is specified for an
  abort after any write. `JournalRuns` interleaves growth, syncs, backfills and polls over whole
  runs; `JournalSettlement` shows how records come to agree with the event table and stay so;
  `JournalRecovery` compares interrupted and chunked imports with one clean import, also when the
  log has grown in between; `ProfitAndLoss` follows the money from the log to the reports;
  `RecordMeaning` says what a projected record means in the fields of the trade's events.
* **The candle cache.** Memory, CSV and metadata are compared with the broker's true series of one
  frame. Histories contain lookups, failed metadata and CSV writes, crashes between writes and
  restarts. `CandlePolicy` has the boundary arithmetic over any increasing sequence of daily
  anchors.
* **The snapshot store, the runtime lock and the numeric loops.** Versioned histories with pinned
  trackers, lock reference counting, commission allocation, excursion throttling, maximum drawdown
  and chunked range fetching.

Classes and methods follow the code that updates state; each is tied by its `ensures` to functions
and predicates over values, and the lemmas prove what those functions mean. Money, prices and pips
are exact reals, commissions are integers in their own quantum, instants are integers.

Some claims one would like to make are false of the code. Each is stated with its exact condition:

* A finished backfill can move the watermark past a transaction it never saw: one from before its
  window (`BackfillCanLeaveAGap`), or one that came in after its own chunk was requested and before a
  later one was (`GrowthBetweenChunksCanLeaveAGap`). It leaves no gap if and only if every such
  transaction was journaled already (`BackfillLeavesNoGapIff`).
* The last commission part takes the residue and can be negative. For a given number of legs that
  never happens if and only if there are at most three (`NoNegativePartIffAtMostThreeLegs`).
* The daily candle floor is the 17:00 anchor if and only if less than 24 hours have passed since it;
  on a 25-hour day the last hour floors to anchor + 24h (`DailyFloorIsTheAnchorIff`,
  `LastHourOfALongDay`).
* A stale cache entry refreshed by appending gives the newest candles if and only if one broker page
  reaches the newest closed candle and the held run reaches back far enough
  (`StaleLookupIsTheNewestIff`, `StaleRefreshCanBeShort`).
* A refresh asks the broker from one frame after the last held candle. Weekly candles start only 167
  hours apart in the week the clocks go forward, so there the next candle is already under way. The
  request does not say whether the candle under way is to be sent. If the broker sends it nothing is
  lost; if it does not, the rows are gap-free if and only if the next candle starts late enough
  (`RefreshLeavesNoGapIff`, `CoveringRefreshLeavesNoGap`, `ShortWeekRefresh`).
* A comment at providers/cache.py:252-254 promises the held rows when a weekend brings no new candle.
  The code raises before that when no candle is under way or has started since, or when what is
  complete there is not over; `StaleLookupAnswersIff` says exactly when a stale lookup answers, and
  `LookupInAPauseRaises` is one that does not.
* A request for exactly 5000 candles cannot ask for the one that is forming as well. A fetch returns
  the newest candles in full if and only if fewer are asked for, no more than 5000 have started, or
  none is forming (`ReplacementIsTheNewestIff`, `LargestRequestCanBeShort`).
* A closed record is reopened if and only if a poll reaches the trade whose open-trades answer still
  lists it (`StepReopensIff`, `StalePollReopens`).
* A polling cycle that was aborted and run again leaves the records of one clean cycle if and only if
  every trade whose time the broker does not give was reached by a cycle with the clean cycle's clock
  (`InterruptedCycleRecoversIff`); `MissingTimesLeaveATrace` is a failing cycle.
* Projecting a trade whose table holds no final close writes an OPEN record even over a CLOSED one
  (`ProjectionReopensWithoutACloseLeg`).
* Redelivering a batch reports no insert and no update if and only if equal ids in it carry equal
  events (`RedeliveryIsQuietIffConsistent`, `ContradictingBatchIsNotQuiet`).
* A fill that opened, closed and reduced nothing loses its commission: money is conserved if and only
  if there is a leg or the commission is zero (`FillConservesMoneyIff`,
  `FillWithoutLegsLosesItsCommission`).
* Zero-padded keys order transaction ids numerically up to a bound if and only if the bound has at
  most twenty digits (`SortKeysAgreeIffIdsFit`).

## Model

| member | source | states |
|---|---|---|
| JournalRuns.EveryRunStaysGood | journal/trade_history_service.py:107-131 | At every point of every run of log growth, syncs, polls and backfills that reach back to the watermark and request each chunk but the last when it is over, the log growing between their requests, each aborted after any write: the tables hold only what the log makes, and every requested transaction between the first and the current watermark has its raw row and all its events in the tables |
| JournalRuns.EveryReachedTransactionIsCovered | journal/trade_history_service.py:107-242 | In every run, everything between the first and the current watermark and everything any finished backfill was sent, also before the first watermark, is in the tables, for good |
| JournalRuns.EveryCoherentRunShowsCloses | journal/trade_history_service.py:502-565 | When no poll is answered from before a close, no trade closed up to the watermark is shown OPEN at any point of the run |
| JournalRuns.ClosedStaysClosed | journal/trade_history_service.py:502-565 | Along every run, a record that is not OPEN and whose CLOSE leg is in the table stays so through later projections, repairs and polls, as long as no poll lists the trade |
| JournalRuns.StepReopensIff | background/poller_task.py:84-117 | A step shows a closed trade OPEN again exactly when it is a poll that reaches the trade and whose answer lists it |
| JournalRuns.StalePollReopens | background/poller_task.py:84-117 | A closed record next to its CLOSE leg that a poll opens again |
| JournalRuns.ClosingIsFinalInCoherentRuns | journal/trade_history_service.py:502-565 | When polls are never answered from before a close, closing is final |
| JournalRuns.RejectedTransactionBlocksTheWatermark | journal/trade_history_service.py:115-131 | In every run the watermark stays below a requested transaction that cannot be normalized |
| JournalRuns.WatermarkNeverFalls | journal/trade_history_service.py:636-647 | Along every run, whose steps follow one another, the watermark never goes back, whatever is aborted |
| JournalRuns.OverlappingSyncKeepsNoGap | journal/trade_history_service.py:107-131 | A sync that commits an older fetch after another has moved on leaves no gap, and lowers the watermark exactly when its last id is smaller |
| JournalRuns.TableIsTheNormalizedLog | journal/trade_history_service.py:107-131 | Once every requested transaction is covered, by watermark or backfill, the event table holds exactly the events of the log, however they were delivered |
| JournalRuns.BackfillOfTheLogCompletes | journal/trade_history_service.py:191-242 | A finished backfill of a window that holds the whole log covers every requested transaction of it, as it was when the backfill began, whatever the watermark |
| JournalRuns.BackfillLeavesNoGapIff | journal/trade_history_service.py:191-242 | A finished backfill, its log growing from request to request, leaves no gap exactly when the requested transactions between the watermarks that lie before its window or came in after their own chunk was requested were already journaled |
| JournalRuns.MissedIff | journal/trade_history_service.py:191-201 | Of the transactions up to the largest id seen, the answers of the chunks miss exactly those from before the window and those that came in after their own chunk was requested, under either reading of a window's end |
| JournalRuns.BackfillCanLeaveAGap | journal/trade_history_service.py:191-242 | A concrete log and window for which a finished backfill passes a transaction it never journals |
| JournalRuns.GrowthBetweenChunksCanLeaveAGap | journal/trade_history_service.py:191-242 | A concrete log that grows between two chunk requests of a window that reaches back, for which the finished backfill passes a transaction it never journals |
| JournalRuns.SyncKeepsGood | journal/trade_history_service.py:63-131 | A sync, finished or aborted at any write, keeps the run invariant |
| JournalRuns.BackfillKeepsGood | journal/trade_history_service.py:157-242 | A backfill whose window reaches back to the watermark, and whose chunks but the last are over when requested, keeps the run invariant, finished or aborted, while the log grows |
| JournalRuns.PollKeepsGood | background/poller_task.py:70-210 | A polling cycle, finished or aborted, keeps the run invariant; it also keeps closes shown when its answer lists no trade the log has closed |
| JournalRecovery.InterruptedImportRecovers | journal/trade_history_service.py:111-123 | An import aborted at any write and run again leaves the raw rows, the event contents and every trade record of one clean import |
| JournalRecovery.InterruptedSyncRecovers | journal/trade_history_service.py:107-131 | A sync aborted anywhere, also before its last write, and run again on the same log leaves the journal and the watermark of one clean sync |
| JournalRecovery.InterruptedImportRecoversLater | journal/trade_history_service.py:111-123 | An import aborted at any write and run again with transactions that came in since leaves the raw rows, event contents and records of one clean import of all of them |
| JournalRecovery.InterruptedSyncRecoversLater | journal/trade_history_service.py:107-131 | A sync aborted anywhere and run again when the log has grown leaves the journal of one clean sync of the grown log |
| JournalRecovery.ChunksDeliverTheSame | providers/oanda_history.py:53-135 | Under either reading of a window's end, also when neighbouring chunks then overlap, the delivery of the chunks of one log leaves the contents of one unchunked delivery |
| JournalRecovery.ChunksHoldOneWindow | providers/oanda_history.py:95-135 | On one log the chunks hold exactly the transactions of one window |
| JournalRecovery.BackfillIsOneDelivery | journal/trade_history_service.py:191-216 | A finished backfill leaves the raw rows and the event table of one delivery of all its answers in order |
| JournalRecovery.PrefixThenAll | data/persistence/trade_store.py:587-605 | Delivering a prefix of a batch and then all of it leaves the contents of one delivery, even for a batch that contradicts itself |
| JournalSettlement.FinishedImportSettles | journal/trade_history_service.py:107-123 | The finished sync or backfill that takes a trade's CLOSE leg leaves the trade's record, if it has one, as the projection of the table |
| JournalSettlement.ImportKeepsSettled | journal/trade_history_service.py:467-588 | A settled trade stays settled through every finished import, and through an interrupted one that brings nothing new about it |
| JournalSettlement.SettledStaysSettled | journal/trade_history_service.py:467-588 | Along every run a settled closed trade stays settled, unless a poll still lists it or an import is interrupted while events of it are missing |
| TradeHistory.TradeHistoryService.IncrementalSync | journal/trade_history_service.py:63-131 | Without a watermark only the watermark is stored; otherwise everything past it is imported and the watermark moves last; on an abort it has not moved; it fails only for a failed write, a missing last id, a transaction it cannot normalize or a record that does not validate |
| TradeHistory.TradeHistoryService.BackfillHistory | journal/trade_history_service.py:176-242 | Requests and imports the window chunk by chunk, each from the log of its time, and then raises the watermark to the largest id seen, never lowering it; an abort leaves a prefix of the chunks and the old watermark |
| TradeHistory.TradeHistoryService.AdvanceSyncState | journal/trade_history_service.py:636-647 | Raises the watermark to an id when its key is larger, and never lowers it |
| TradeHistory.TradeHistoryService.ImportBatch | journal/trade_history_service.py:111-123 | Raw rows, events, projections and repairs, in this order; any abort leaves a prefix; finished means every touched trade is settled and nothing is left to repair |
| TradeHistory.TradeHistoryService.ProjectTradeRecord | journal/trade_history_service.py:484-565 | Writes at most this trade's record, as the projection of its events; what such a record says is in `RecordMeaning.SettledRecordSays` and `RecordMeaning.ProjectionKeepsOpening`, and when there is none in `RecordMeaning.SkipsIff` and `RecordMeaning.RaisesIff` |
| RecordMeaning.ProjectedCloseSays | journal/trade_history_service.py:529-563 | A record projected to a close has the price of the trade's last closing event, or its opening price where that event gives none or zero; that event's time; the reason that follows from what the event says and from that price against the record's stops; pips that times the closed units are the sum over all closing events of (price - opening price) / pip size * units, negated for a short; and their net as profit |
| RecordMeaning.SettledRecordSays | journal/trade_history_service.py:484-565 | The same of the stored record of every settled trade with a CLOSE event, over the events in the table |
| RecordMeaning.OneLastClosing | journal/trade_history_service.py:500-529 | A trade with a CLOSE event has exactly one closing event that comes after all its others |
| RecordMeaning.ProjectionKeepsOpening | journal/trade_history_service.py:484-527 | Projection keeps the instrument, units, opening price and time, notes and stops of a stored record; a new record has them from the trade's first OPEN event, without stops and notes |
| RecordMeaning.SkipsIff | journal/trade_history_service.py:484-500 | A trade is passed over exactly when it has no events, or neither a record nor an OPEN event that gives a price |
| RecordMeaning.RaisesIff | journal/trade_history_service.py:502-565 | Projecting a trade with a valid record raises exactly when it has a CLOSE event and its last closing event gives a negative price or a time before the opening, or its instrument has no pip size |
| RecordMeaning.NewRecordRaisesIff | journal/trade_history_service.py:488-565 | Projecting a trade without a record raises exactly when its first OPEN event makes no valid record, or then for the same reasons |
| RecordMeaning.ImportKeepsOpening | journal/trade_history_service.py:111-123 | An import, finished or aborted at any write, changes nothing about how any recorded trade was opened, nor its stops and notes |
| RecordMeaning.RunsKeepOpenings | journal/trade_history_service.py:484-527 | Along every run of syncs, backfills and polls, a recorded trade keeps its instrument, units, opening price and time, notes and stops as long as no poll lists it |
| RecordMeaning.ClosedRecordsSay | journal/trade_history_service.py:529-563 | Along every run, the closed record of a trade that a finished import settled says what its closing events say, as long as no step can unsettle it |
| TradeHistory.TradeHistoryService.ProjectTradeRecords | journal/trade_history_service.py:467-482 | The projected trades are settled and all other records untouched; finished means all trades of the batch |
| TradeHistory.TradeHistoryService.RepairManualMitCloses | journal/trade_history_service.py:567-588 | Repairs exactly the closed records that read MANUAL under market-if-touched evidence, counts them, and leaves none |
| RecordMeaning.RepairableIff | journal/trade_history_service.py:567-585 | A record is repaired exactly when it is closed as MANUAL and the trade's last closing event reads as market-if-touched at the record's price and stops |
| TradeHistory.SecondRepairIsQuiet | journal/trade_history_service.py:567-588 | A second repair pass repairs nothing and changes no record |
| TradeHistory.SettledWithACloseLegIsClosed | journal/trade_history_service.py:502-565 | A settled record is CLOSED as soon as a CLOSE leg is in the table |
| TradeHistory.SplitUtcWindow | journal/trade_history_service.py:656-665 | The cursor loop ends and yields the chunks of the window |
| TradeHistory.ChunksTileTheWindow | journal/trade_history_service.py:656-665 | The chunks tile [start, end) without gap or overlap, none longer than the chunk size |
| TradeHistory.ChunksMakeOneWindow | journal/trade_history_service.py:191-201 | When the log does not grow and a window's end is outside, the answers of the chunks, one after the other, are that of one unchunked request |
| TradeHistory.LargestTransactionId | journal/trade_history_service.py:202-212 | Comparing padded keys finds the numerically largest id of a batch |
| TradeHistory.LargestIdIsTheLargest | journal/trade_history_service.py:202-212 | That id is one of the batch and no other exceeds it, and there is none exactly for an empty batch |
| TradeHistory.FinishedBackfillRaisesTheWatermark | journal/trade_history_service.py:202-242 | After a finished backfill the watermark is at or above everything it was answered and what it was before, and is one of these ids |
| TradeProjection.ProjectionIsAFixedPoint | journal/trade_history_service.py:484-565 | Projecting a trade twice is projecting it once |
| TradeProjection.ProjectedStateFollowsTheLegs | journal/trade_history_service.py:502-538 | The projected record is CLOSED exactly when the table holds a CLOSE leg |
| TradeProjection.ProjectionReopensWithoutACloseLeg | journal/trade_history_service.py:502-527 | Without a CLOSE leg a CLOSED record is overwritten by the same record reopened |
| TradeProjection.ComputeWeightedClosePips | journal/trade_history_service.py:590-615 | The loop computes the unit-weighted pips, none without a pip size |
| TradeProjection.WeightedPipsIsAnAverage | journal/trade_history_service.py:605-615 | The weighted pips lie between the worst and the best leg, for both directions |
| TradeProjection.PipSizeSays | journal/trade_history_service.py:617-634 | A registered pip size counts first; else XAU_ and XAG_ pairs have 0.01 and 0.0001, JPY and HUF quotes 0.01, all other pairs 0.0001, and a name without an underscore none |
| CloseReasons.CollectEvidence | journal/close_reasons.py:37-60 | The recursive collector with its loops |
| CloseReasons.CollectorFindsExactlyWhatIsSaid | journal/close_reasons.py:37-60 | The collector finds a text exactly when the payload says it at the top, in a list, under an evidence key, or inside a container under any key |
| CloseReasons.ReasonFollowsWhatIsSaid | journal/close_reasons.py:14-34 | Each of the four reasons is inferred exactly under its condition on what the payloads say and on whether the price is near the stop or take-profit level |
| CloseReasons.LevelIsAnInterval | journal/close_reasons.py:74-78 | A price matches a level exactly when it lies within a millionth of itself on either side, or within a millionth of one where it is smaller than one |
| CloseReasons.ContainsIff | journal/close_reasons.py:28-34 | A text contains a part exactly when it is the part with something before and after it |
| TradeNormalizer.NormalizeOrderFill | journal/trade_normalizer.py:64-163 | The loops turn a fill into its legs' events with allocated commissions, or reject it; `FillEventsSay`, `FillEventsShareTheCommission` and `AcceptedIff` say in the fill's own fields which and when |
| TradeNormalizer.FillEventsSay | journal/trade_normalizer.py:81-163 | An accepted fill has one OPEN event for its opened trade, one CLOSE event for each closed trade and one PARTIAL_CLOSE event for its reduced trade, in this order, and no others; each has its trade's id, units, side, realized profit and financing, none of both for the opened one, its price or the fill's where that is missing or zero, and the fill's id, time, instrument, reason and payload |
| TradeNormalizer.FillEventsShareTheCommission | journal/trade_normalizer.py:126-163 | Each event has its part of the fill's commission, allocated over the units the events record, and its net is profit + financing - commission |
| TradeNormalizer.AcceptedIff | journal/trade_normalizer.py:64-210 | In the fields of the transaction, exactly when a fill or financing is accepted: time, account and instrument there, every trade with an id and units other than zero, of either sign, and a well-formed instrument where there is an event to record it |
| TradeNormalizer.NormalizeDailyFinancing | journal/trade_normalizer.py:166-210 | One event for each financed position, or one for the account; rejected for a missing time or account or a malformed instrument |
| TradeNormalizer.FinancingEventsSay | journal/trade_normalizer.py:166-210 | Each financed position has one event with its own financing, about its instrument or the account; without positions there is one with the account's financing |
| TradeNormalizer.NormalizeTransactions | journal/trade_normalizer.py:14-39 | The batch loop computes the normalization of the batch |
| TradeNormalizer.BatchIsItsTransactions | journal/trade_normalizer.py:14-39 | A batch normalizes exactly when each transaction does, and then holds exactly the events its transactions make |
| TradeNormalizer.NormalizedAllConcat | journal/trade_normalizer.py:14-24 | Normalizing batch by batch gives the same events in the same order as all at once |
| TradeNormalizer.EventIdSaysWhatItIs | journal/trade_normalizer.py:141-157 | Every event carries its transaction's id and time, and an id made of transaction, label and subject |
| TradeNormalizer.EventIdsSeparateTransactions | journal/trade_normalizer.py:141-147 | Equal event ids mean the same transaction, label and subject |
| IdOrder.EventIdsAreUnambiguous | journal/trade_normalizer.py:141 | The parts of an event id can be read back from it |
| IdOrder.SortKeysAgreeIffIdsFit | journal/trade_history_service.py:667-672 | Padded string comparison agrees with numeric order for all ids up to a bound exactly when the bound is below 10^20 |
| IdOrder.PaddedOrder | data/persistence/trade_store.py:1607-1614 | Padding to a fixed width keeps order and identity of the numbers that fit |
| BrokerLog.WindowsJoin | providers/oanda_history.py:95-135 | Adjacent windows hold the transactions of the joined window, whether the broker counts a window's end as inside or not |
| BrokerLog.OpenWindowsJoin | providers/oanda_history.py:95-135 | When it does not, they are those of the joined window in order, each once |
| Commission.AllocateCommission | journal/trade_normalizer.py:213-235 | The running-total loop computes the allocation, for all unit signs and for none at all; what the parts are is in `AllocationIsNearlyProportional` and `AllocationIsExact` |
| Commission.AllocationIsExact | journal/trade_normalizer.py:226-235 | The parts, integers in the commission's quantum, sum exactly to the total |
| Commission.AllocationIsNearlyProportional | journal/trade_normalizer.py:226-235 | In whole units: each part but the last, times the sum of all sizes, differs from the total times its own size by at most half that sum; the last one, which takes the residue, by at most (n-1)/2 times that sum |
| Commission.NineToOne | journal/trade_normalizer.py:226-235 | A commission of 0.10 over 9000 and -1000 units is 0.09 and 0.01 |
| Commission.NoNegativePartIffAtMostThreeLegs | journal/trade_normalizer.py:229-233 | No commission and no nonzero legs ever give a negative part exactly when there are at most three legs |
| Commission.ManyLegsCanGoNegative | journal/trade_normalizer.py:229-233 | For every n of at least four, the commission and n equal legs whose last part is negative |
| TradeStores.TradeStore.UpsertTradeHistoryEvents | data/persistence/trade_store.py:581-605 | The new table, and the seen, inserted and updated counts, where inserted is the table's growth; an abort leaves the table of a prefix |
| TradeStores.TradeStore.UpsertRawTransactions | data/persistence/trade_store.py:534-579 | Raw rows by transaction id, inserted is the table's growth; an abort leaves a prefix |
| TradeStores.LastTransactionCounts | data/persistence/trade_store.py:540-577 | An id ends with the last transaction of the batch that has it |
| TradeStores.TradeStore.UpsertTrade | data/persistence/trade_store.py:440-455 | Stores a record that validates, and nothing else |
| TradeStores.TradeStore.UpsertSyncState | data/persistence/trade_store.py:705-719 | Stores the watermark, and nothing else |
| EventTable.LookupAfterDelivery | data/persistence/trade_store.py:587-605 | After any delivery an id maps to the last event written under it, and ids stay distinct |
| EventTable.DeliveryOrderDoesNotMatter | data/persistence/trade_store.py:587-605 | Deliveries of the same consistent events, in any order, number and repetition, give tables with the same contents |
| EventTable.RedeliveryIsQuietIffConsistent | data/persistence/trade_store.py:587-605 | Redelivering a batch inserts and updates nothing exactly when equal ids in it carry equal events |
| EventTable.ContradictingBatchIsNotQuiet | data/persistence/trade_store.py:587-605 | A batch with two events under one id that is not quiet when delivered again |
| EventTable.ListRecords | data/persistence/trade_store.py:607-653 | The listing method computes filter, including event types, and sort, ascending or descending |
| EventTable.DescendingIsReversed | data/persistence/trade_store.py:643-653 | A descending listing is the ascending one backwards |
| EventTable.ListingIsTheMatchesInOrder | data/persistence/trade_store.py:607-653 | The listing is in strictly increasing order and holds exactly the matching events, windows being half-open |
| EventTable.FiltersSay | data/persistence/trade_store.py:625-643 | What each filter alone lets through, in the events' own fields: the instrument a trade event names or financing is about, the trade, the half-open window's start and end, and the kind whatever its case |
| EventTable.FiltersCombine | data/persistence/trade_store.py:625-643 | Filters given together let through exactly what each of them does alone |
| EventTable.KindsCombine | data/persistence/trade_store.py:635-636 | Several kinds let through exactly what any of them does |
| EventTable.ListingGoesByTimeAndTransaction | data/persistence/trade_store.py:643-651 | A listing never goes back in time, nor within one instant in transaction ids of at most twenty digits |
| EventTable.ListingIgnoresInsertionOrder | data/persistence/trade_store.py:643-653 | Tables with the same contents have the same listing |
| ProfitAndLoss.ComputeRealizedPnl | journal/trade_history_service.py:328-373 | The accumulating loop computes gross, financing, commission and net of the period's records |
| ProfitAndLoss.PeriodsJoin | data/persistence/trade_store.py:625-653 | The listing of a window is the listings of its two halves, one after the other |
| ProfitAndLoss.NetIsAdditive | journal/trade_history_service.py:343-373 | Net profit is additive over adjacent half-open windows |
| ProfitAndLoss.FillConservesMoneyIff | journal/trade_normalizer.py:81-163 | A fill's events net to the broker's profit + financing - commission exactly when it has a leg or no commission |
| ProfitAndLoss.FillChargesItsCommissionIff | journal/trade_normalizer.py:126-163 | A fill's events carry its commission to the last digit exactly when it opened, closed or reduced a trade, or has no commission |
| ProfitAndLoss.FillWithoutLegsLosesItsCommission | journal/trade_normalizer.py:81-163 | A fill without legs and with a commission makes no event, so the commission is lost |
| ProfitAndLoss.TransactionConservesMoney | journal/trade_normalizer.py:64-210 | The gross profit, the financing, the commission and the net of a chargeable transaction's events are each what the broker's own fields of it say |
| ProfitAndLoss.MoneyIsConserved | journal/trade_history_service.py:343-373 | In every run, for any half-open period whose transactions the run has reached, by watermark or backfill: gross profit, financing, commission and net are each the sum of the broker's own fields over those transactions |
| ProfitAndLoss.PeriodConservesMoney | journal/trade_history_service.py:343-373 | The same for any sound journal that covers the transactions of the period |
| ProfitAndLoss.AllTimeConservesMoney | journal/trade_history_service.py:343-373 | When every requested transaction is covered, the four all-time figures are each the sum over the whole log |
| ProfitAndLoss.RecordedPnlOfOne | journal/trade_history_service.py:529-565 | The recorded profit of a settled closed trade is the net of its closing legs in the table |
| ProfitAndLoss.RecordsReconcile | journal/trade_history_service.py:353-372 | The recorded profits sum to the all-time net minus daily financing plus the commission charged on OPEN legs |
| ProfitAndLoss.RunsReconcile | journal/trade_history_service.py:353-372 | That holds along runs, once finished imports took the closes of the trades and nothing could unsettle them since |
| TradePollers.TradePoller.PollOnce | background/poller_task.py:56-219 | The records after the cycle, one announcement for each record written, the deferrals as last error, and where an abort can leave it; `FinishedCycleFollows`, `PolledFollows` and `AnnouncementsSay` say what the records and announcements are |
| TradePollers.TradePoller.HandleTrade | journal/journal_service.py:41-106 | One trade: opened, modified, closed, deferred, or failed without a change; `FinishedCycleFollows` says what is written in the broker's own fields, `FailsIff` when it fails |
| TradePollers.FinishedCycleFollows | background/poller_task.py:84-187 | After a cycle each trade is as the broker's answers say: a listed one that was not locally OPEN has the listed instrument, units, price, stops, guaranteed stop and open time, else now, the old notes and no closing; a listed one that was differs at most in stop-loss and take-profit; an unlisted OPEN one with a detail keeps all that and closes at the first given price, with pips * pip size the move in its direction, the broker's profit or zero, its close time or now, and the reason that follows from what is said; every other record stays |
| TradePollers.PolledFollows | background/poller_task.py:84-187 | A cycle that stopped early left every trade either so or as it was |
| TradePollers.FailsIff | background/poller_task.py:84-187 | Exactly when a trade stops the cycle, in the fields of the listing, the detail and the stored record |
| TradePollers.AnnouncementsSay | background/poller_task.py:84-208 | A cycle announces exactly the trades whose records it changed: OPEN for one listed and not locally OPEN, MODIFY for one listed and OPEN, CLOSE for one no longer listed |
| TradePollers.OpenTradesConverge | background/poller_task.py:70-208 | After a cycle a trade is locally OPEN exactly when the broker has it open or its close was deferred |
| TradePollers.StopsConverge | background/poller_task.py:119-148 | After a cycle every trade open at the broker has the broker's stop-loss and take-profit |
| TradePollers.SecondCycleIsQuiet | background/poller_task.py:84-208 | A second cycle on the same broker state announces and changes nothing |
| TradePollers.InterruptedCycleRecovers | background/poller_task.py:84-208 | Aborting a cycle anywhere and running it again at any time reaches the same journal as one clean cycle, when the broker gives the times the cycle needs |
| TradePollers.InterruptedCycleRecoversIff | background/poller_task.py:84-208 | It does exactly when every trade that needs the clock was reached by a cycle with the clean cycle's clock |
| TradePollers.TwoClocksAgreeIff | background/poller_task.py:96-187 | Clean cycles at two times agree exactly when each listed trade that is not locally OPEN has an open time and each unlisted one that is, and has a detail, a close time |
| TradePollers.MissingTimesLeaveATrace | background/poller_task.py:96 | A cycle aborted between two trades without open times and run again later leaves records that no clean cycle leaves |
| CandlePolicy.DayAlignedFloor | core/candle_policy.py:329-335 | For any anchors, the floor is the day's anchor plus a whole number of deltas, floor(t) <= t < floor(t) + delta, and idempotent |
| CandlePolicy.DayAlignedFloorMonotone | core/candle_policy.py:329-335 | The day-aligned floor is monotone across anchors |
| CandlePolicy.DailyFloorIsTheAnchorIff | core/candle_policy.py:329-335 | The daily floor is the anchor exactly during the first 24 hours after it |
| CandlePolicy.LastHourOfALongDay | core/candle_policy.py:329-335 | An instant in the last hour of a 25-hour day whose daily floor is 24 hours after the anchor |
| CandlePolicy.WeeklyFloorIsTheLastFriday | core/candle_policy.py:338-345 | The weekly floor is a Friday's anchor, at most t, and no later Friday's anchor is at most t |
| CandlePolicy.FloorIsTheLastBoundary | core/candle_policy.py:225-236 | Of every frame the floor is a boundary, not after the instant, and no later boundary is not after it either; boundaries being multiples of a fixed frame, whole steps within a day from its anchor, or Friday anchors |
| CandlePolicy.FreshIffNoLaterBoundary | core/candle_policy.py:268-280 | Staleness is zero exactly when no boundary lies after the last candle's end and not after now; otherwise it is how far that end lies behind the last boundary |
| CandlePolicy.FixedFreshIff | core/candle_policy.py:268-280 | For a fixed frame that is exactly until the candle after the last one is over |
| CandlePolicy.FloorIsUnique | core/candle_policy.py:225-236 | The fixed-frame floor is the one boundary within a delta below t |
| CandlePolicy.FloorMonotone | core/candle_policy.py:225-236 | The floor of fixed frames is monotone |
| CandlePolicy.ClosedIffNotAfterLastCompleted | core/candle_policy.py:179-192 | For aligned starts of fixed frames, closed means not after the last completed start |
| CandleCaches.CandleCache.GetCandles | providers/cache.py:70-115 | The three levels of the requested key after the lookup, its answer, and all other keys untouched, for every combination of failures; what the answers are is in `FreshHitEqualsAnUncachedFetch`, `ReplacementAnswersFrom`, `StaleLookupAnswersTheLongerRun` and `AnswersAreKept` |
| CandleCaches.CandleCache.AppendRefresh | providers/cache.py:229-276 | The stale path: appends, deduplicates, persists, or returns what is held; `StaleLookupAnswersTheLongerRun` says which rows that are |
| CandleCaches.CandleCache.ReplaceFromApi | providers/cache.py:190-227 | The replace path: persists and returns what was fetched, or changes nothing |
| CandleCaches.CandleCache.LoadCsvEntry | providers/cache.py:278-318 | The entry of a CSV file and the metadata bootstrapped beside it |
| CandleCaches.CandleCache.PersistEntry | providers/cache.py:320-372 | CSV, metadata and memory in write order, with either write failing |
| CandleCaches.EveryHistoryStaysGood | providers/cache.py:278-372 | In every history of the lookups the provider lets through, failed writes, crashes and restarts, for frames of any kind whose candles start at least one delta apart, each level holds a run of the true closed series, and metadata count <= entry count <= rows held |
| CandleCaches.LookupKeepsGood | providers/cache.py:91-115 | One lookup the provider lets through, whatever fails in it, keeps that invariant |
| CandleCaches.LookupKeepsGoodIff | providers/cache.py:91-115 | A lookup of any count keeps it exactly unless a fresh entry is replaced by fewer rows than the metadata claims and the metadata write fails |
| CandleCaches.AcceptedCountsNeverOverstate | providers/oanda.py:50-65 | With a count the provider lets through that never happens |
| CandleCaches.MarketDataProvider.GetCandles | providers/oanda.py:39-65 | Counts below one or beyond the broker's maximum are refused and touch nothing, all others reach the cache |
| CandleCaches.CrashKeepsGood | providers/cache.py:341-372 | A crash after any prefix of the writes keeps it |
| CandleCaches.FreshHitEqualsAnUncachedFetch | providers/cache.py:91-99 | A fresh hit returns exactly `count` rows, the newest closed candles, and what an uncached fetch would exactly when that request reaches them; weekly candles are complete no earlier than the next Friday anchor |
| CandleCaches.ReplacementIsTheNewestIff | providers/cache.py:190-227 | A replacing fetch of any count fails exactly when nothing is closed, and returns the newest closed candles exactly when the request reaches them |
| CandleCaches.LargestRequestCanBeShort | providers/oanda.py:265-270 | With 5000 candles closed and one forming, a request for 5000 returns fewer |
| CandleCaches.RefreshLeavesNoGapIff | providers/cache.py:237-262 | For any ordered series, a refresh that brings rows leaves no gap exactly when the next candle starts at least one delta after the last held one, or is still under way then and the broker sends the candle under way |
| CandleCaches.CoveringRefreshLeavesNoGap | providers/cache.py:237-262 | When the broker sends the candle under way and two neighbours always outlast a frame, a refresh leaves no gap |
| CandleCaches.ShortWeekRefresh | providers/oanda.py:255-270 | A refresh after a week of 167 hours leaves a gap exactly when the broker does not send the candle under way |
| CandleCaches.RefreshExtendsTheRun | providers/cache.py:237-262 | Appending to a run from where it ends gives the longer run: nothing lost, doubled or skipped, also when the last held candle is sent again |
| CandleCaches.StaleRefreshIsTheNewestIff | providers/cache.py:229-276 | The rows that appending leaves are the newest exactly when one page reaches the newest closed candle and the run reaches back far enough |
| CandleCaches.StaleLookupAnswersTheLongerRun | providers/cache.py:229-276 | The answer of a stale lookup that finds the run [i..j) is the newest rows of [i..k), k being where the broker's page ended, which is j when nothing new came; these rows are then in memory and in the CSV file |
| CandleCaches.StaleLookupIsTheNewestIff | providers/cache.py:229-276 | That answer is the newest closed candles, as many as asked for, exactly when the page reaches the newest one and the run reaches back far enough |
| CandleCaches.AnswersAreKept | providers/cache.py:220-276 | Whatever path a lookup takes, its answer is the newest of the rows it leaves in memory and in the CSV file |
| CandleCaches.ReplacementAnswersFrom | providers/cache.py:190-227 | A replacing lookup answers from, and stores, the run from its request's first candle to the newest closed one |
| CandleCaches.StaleRefreshCanBeShort | providers/cache.py:229-276 | With 201 closed hourly candles, a stale lookup for three that answers the newest two |
| CandleCaches.StaleLookupAnswersIff | providers/cache.py:237-276 | A stale lookup fails exactly when the broker does not answer, no candle is under way or has started since, what is complete there is not over, or new rows cannot be written |
| CandleCaches.LookupInAPauseRaises | providers/cache.py:250-260 | A stale lookup that raises although it holds rows, because nothing has started since |
| CandleCaches.FailedFetchChangesNothing | providers/cache.py:190-276 | When the broker does not answer, no level changes beyond loading the CSV |
| CandleCaches.Feed.FreshMeansNewest | core/candle_policy.py:268-280 | A staleness of zero means that nothing newer is closed |
| MarketState.MarketStateStore.PublishSnapshot | core/market_state.py:34-60 | The next version number, the whole history published so far, and the invariant: the newest retention + 1 versions are kept, in order, and every pin of a tracker was published |
| MarketState.MarketStateStore.GetSnapshotVersion | core/market_state.py:69-82 | Returns what was published as that version exactly while it is among the newest retention + 1, and nothing otherwise |
| MarketState.MarketStateStore.GetSnapshot | core/market_state.py:62-67 | Returns the last snapshot published for the key |
| MarketState.MarketStateStore.PublishOrderBlockTracker | core/market_state.py:127-152 | Publishes the next tracker version exactly when all its pins resolve, otherwise changes nothing |
| MarketState.VersionsResolveUntilEvicted | core/market_state.py:49-51 | After any further publications a version resolves to the same snapshot exactly as long as those of its own key fit in the retention |
| MarketState.RunsOnlyAppend | core/market_state.py:41-47 | Publications of other keys leave a key alone, its own extend it by one version each |
| Excursions.ExcursionTracker.ProcessTick | tracking/excursion_tracker.py:32-48 | A tick adds the samples of the open trades it concerns, stores some of them, and can be aborted at any insert |
| Excursions.ExcursionTracker.ProcessTrade | tracking/excursion_tracker.py:34-47 | One trade: the sample is stored, and becomes what was last written, exactly when nothing was written for the trade yet or one of its sides moved by at least the minimum since; otherwise nothing is |
| Excursions.ExcursionTracker.GetTradeMaeMfe | data/persistence/trade_store.py:777-790 | The reported extremes never exceed the true ones and understate them by less than the minimum move, across restarts |
| Excursions.ThrottlingLosesLessThanOneMove | tracking/excursion_tracker.py:66-75 | Stored extremes <= true extremes < stored extremes + minimum move, for both sides |
| Excursions.SampleIsTheSignedMove | tracking/excursion_tracker.py:50-64 | The two sides of a sample are the negative and the positive part of the signed move |
| Drawdown.MaxDrawdown | journal/trade_stats_service.py:209-222 | The one-pass loop returns the largest fall between an earlier and a later balance |
| RangeFetch.FetchRange | providers/account_client.py:454-502 | The chunk loop refuses bad chunk sizes, ends, and returns the table of one unbounded request, whether or not chunks share their border candle |
| RangeFetch.OneRequestIsTheWindow | providers/account_client.py:878-924 | One request gives exactly the complete two-sided candles of the window in strictly increasing time |
| RangeFetch.RowsShowTheQuotes | providers/account_client.py:895-914 | A row stands in the table exactly when a complete quote of its time inside the window has the row's bid as its bid, its ask as its ask, and its volume |
| RangeFetch.ChunksFitTheRequest | providers/account_client.py:472-477 | A chunk asks for at most the maximum count of candles, one more when the broker counts the end as inside |
| ProcessLock.Process.Open | data/persistence/trade_store.py:194-222 | Ready, lock unavailable or storage failed; only a ready store owns its lock, any other outcome leaves everything as it was |
| ProcessLock.Process.Acquire | data/persistence/trade_store.py:55-75 | Succeeds exactly when this process already holds the path or no other process does |
| ProcessLock.Process.Close | data/persistence/trade_store.py:1437-1461 | Gives up the lock once, unlocking it when it was the last owner; closing again changes nothing |
| ProcessLock.LockedExactlyWhileOwned | data/persistence/trade_store.py:55-90 | In every state the path is held exactly while a store owns it, its count is the number of owners, and lock calls exceed unlock calls by one exactly then |

## Left out

- Broker clients, HTTP, paging of history requests, the MCP server, the web page, charts and logging: input, output and presentation; a broker read is a function of the broker's log, series or answers.
- Document encoding (JSON, CSV, TinyDB files, atomic replace): a table is a map or a sequence of documents and each document write is one step; reads of the database do not fail.
- Several accounts: there is one account, so storing the first watermark under an account id the broker resolved is not distinguished from storing it under the configured one.
- Fields that are only carried along (local time, batch id, order id, currencies, journal time zone): they take part in no decision.
- Period selectors, row view filters and the state of the background task: they add only easy claims.
- Binary floats and the 28-digit decimal context: money, prices and pips are exact reals.
- Real time zones: daily anchors are any increasing sequence of instants with their dates.
- Text case and white space beyond ASCII in close-reason evidence.
- TradeHistory.TradeHistoryService.ProjectTradeRecords: visits the trades of a batch in any order, where the code sorts their ids; the result is proved for every order. Repair and polling do the same.
- TradePollers.TradePoller.PollOnce: the broker's answers during one cycle are one consistent view, and a payload that cannot be parsed counts as a failed validation.
- JournalRuns.EveryRunStaysGood: backfills in a run reach back to the first requested transaction past the watermark and request their chunks, but for the last, when these are over; `BackfillLeavesNoGapIff` says what happens otherwise. Transaction ids and times increase together and ids have at most twenty digits.
- JournalRuns.WatermarkNeverFalls: the steps of a run follow one another, although reads start syncs without waiting for each other; `OverlappingSyncKeepsNoGap` covers one sync that commits late, writes of two imports that alternate are not modelled.
- JournalRecovery.InterruptedSyncRecoversLater: nothing but growth of the log comes between the aborted sync and the next one.
- TradeNormalizer.NormalizeTransactions: a transaction always has an id, as the log orders transactions by it; decimals always parse.
- CandleCaches.CandleCache.GetCandles: an existing CSV file is not empty, as the code never writes an empty one and raises on reading one; the fetched-at and source fields of an entry are not modelled, and a sequence of calls is, not threads.
- CandleCaches.EveryHistoryStaysGood: candles start at least one delta apart, which weekly candles do not in the week the clocks go forward, nor day-aligned ones of an instrument that trades through the night of the change; `RefreshLeavesNoGapIff` says what happens then.
- MarketState.MarketStateStore.PublishSnapshot: deep copies are values, so aliasing between caller and store is not modelled; the content of a snapshot is opaque.
- Assembling a tracker from records and pins: it builds the value and publishes it through the modelled check.
- ProcessLock.Process.Close: a store's lock path is an entry of a map in its process instead of a field of a store object.
- RangeFetch.FetchRange: prices are exact reals and a broker answer is the filter of its candles by the window, in the order it keeps them.
- Drawdown.MaxDrawdown: takes the net results in the order in which the service sorts its trades; the statistics around it are simple comprehensions.
- Excursions.ExcursionTracker.GetTradeMaeMfe: the sample count and the last sampling time are not modelled.
- Price, indicator and time alerts, sessions and runtime configuration in the store: create, read, update and delete only.
- Indicator and structure analysis through foreign numeric libraries.
