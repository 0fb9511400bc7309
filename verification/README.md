# Execution lifecycle: a verified model

This project models how the trading agent keeps its local book consistent with a broker whose order and position
endpoints settle at different times, and proves the guarantees its code states in comments. It covers the
execution protocol of `agent/execution_lifecycle.py`, the entry pass that feeds it, idempotent submission, the
learning outbox, the allocator, the ATR recursion and the report that reads the journal back.

Quantities and prices are reals, so rounding to twelve digits is the identity; `1e-9` stays an explicit tolerance.
One write of the runtime state is one atomic step; inserting a journal row is insert-if-new on its key.
Broker behaviour, crashes, prices and answers are chosen nondeterministically within stated bounds.

| file | what it holds |
|---|---|
| Basics.dfy | option type, tolerance, order statuses |
| Evidence.dfy | order evidence as a monotone lattice |
| ExitProtocol.dfy | bracket legs, closes, re-arming: no reversal over whole runs |
| StopReplacement.dfy | crash-safe replacement of a protective stop |
| EntryFills.dfy | entry fills and incremental open rows |
| EntryBook.dfy | adoption of ambiguously submitted entries |
| CloseJournal.dfy | journalling of close fills: conservation over runs, repeated snapshots |
| CloseReplay.dfy | crashes between the journal and the book |
| Exposures.dfy | successive exposures over one order book |
| Settlement.dfy | which rows close a trade, what they account for, whether it stays |
| ExitBars.dfy | completed bars fed to the exit transition |
| Outbox.dfy | learning outbox and evidence ledger |
| EntryPass.dfy | durable risk tally, nested entry loop, portfolio caps |
| Submission.dfy | idempotent submission across retries and restarts |
| Allocation.dfy, Correlation.dfy | greedy allocation and its correlation estimate |
| Atr.dfy | Wilder's average true range |
| Report.dfy | the journal reader |
| RoundTrip.dfy | from fills through journal and settlement to the report |

## What the guarantees rest on

- One exposure per symbol at a time; one journal setup id per exposure.
- ExitProtocol: a reconciliation sees an atomic snapshot; submit outcomes are definite; no crash falls between a
  close submission and its state write; the broker refuses to amend a partly filled stop (without that,
  `DroppedPartialFillOversizesRearm`).
- CloseJournal, CloseReplay: the close fills that any one snapshot reports for an exposure fit its entry (without
  that, `LateGrowthOverbooks`). Results about booked money also take the trade's entry fill, price and fee as fixed
  over the run; results about quantities of one pass and about whose orders are booked do not.
- Settlement: the entry fill may grow in any snapshot. `NoExposureIsLost` is about trades whose named closing order
  is bound to them (without that, `StrayRowClosesWholeTrade` and `FallbackOverwritesIffNamedElsewhere`), whose
  cumulative entry fill is recorded (without that, `UnknownFillIsLost`), and whose positions never exceed what was
  bought. A reconciliation that raises writes nothing and is not a step.
- EntryPass: `NextTallyIsWithinCapIff` takes the rest of the book as it was; its bound takes fills that keep to their
  limit and near their stop.
- Submission: the lookup by client order id sees every order already accepted, and the broker echoes requests.
- StopReplacement: a listing may omit stops or links but says nothing untrue; final entry evidence and recorded
  close rows are there to stay.
- ExitBars: bars open on whole minutes. Times are whole microseconds, below which the code's tolerance lies.
- Correlation: the square root is a parameter with the defining property of one.

## Where the code does less than its comments say

Each is a proved condition, with a concrete run where one helps.

- An entry fill journalled just before a crash is journalled again (`JournalIsExactIffCrashesWereIdle`).
- A close fill whose quantity or average changes between a crash and the pass that records its progress is
  journalled wrongly (`RunIsExactIffEvidenceStays`, `ChangedEvidenceIsMisbooked`).
- An entry fill that grows in a snapshot which omits the position is journalled but does not reach the book: the
  copy saved before it is written back, and closing later stops short (`NoExposureIsLost`, `LateFillIsMissed`).
- A position known only from the broker takes every old close of its symbol for its own; one that covers it removes
  it from the book on the first snapshot that omits it (`EntriesAreOwn`, `OldCloseCoversEnteredElsewhere`).
- The late growth of an old close is booked for a position of its symbol that is known only from the broker, and
  such a close settles it (`ExposuresNeverMixIffClean`, `OldCloseGrowsIntoAnother`, `OldCloseSettlesAnother`). The
  other two guards of that result need a trade that names a closing order of no entry, which a position without an
  entry leaves behind (`NamedCloseIsBookedByName`), or of another entry, which nothing here writes while there is
  one exposure per symbol (`FallbackTakesOver`).
- A close order's fill that finds only part of itself left of the entry is journalled in part and recorded as whole
  (`PassStaysBookedIff`, `CutBookingIsRecordedWhole`).
- A removed trade comes back whole when its entry row is activated again; close rows settle it again, but after a
  local close nothing does (`RemovedComesBackIff`, `LocalCloseComesBack`).
- The settlement charges the whole fee as soon as the entry is covered within the tolerance, the journal only the
  share that was closed (`NetsAgreeIffFeeIsCharged`).
- A partly filled entry counts twice in the next tally, with its plan as pending and its fill as open
  (`NextTallyIsWithinCapIff`, `HalfFilledEntryIsCountedTwice`).
- A limit order does not bound the risk of a fill far past the stop, or of an option whose candidate names a debit
  below its ask (`LimitBoundsRiskIff`).
- A never-confirmed trade closed by its own leg is settled and removed but its close is never journalled
  (`SettledIsJournalledIffAttempts`).
- A trade without a recorded entry fill loses exposure after repeated partial closes
  (`ResidualKeepsEntryIffFillKnown`, `UnknownFillIsLost`).
- A filled entry whose order was cut short is never removed without a named closing order, even when its close
  rows cover it (`LeavesIffAccountedFor`).
- A recovered stop replacement is not written while an entry whose order was cut short keeps an omitted position; it
  stays recoverable (`FreshCopyWinsIff`, `CanceledEntryKeepsOldStop`).
- An outcome without an explicit proof run is learned twice when a re-proof falls between two deliveries
  (`RedeliveryIsIdleIffEpochKnown`, `ReproofBooksTwice`).
- A request with other protective prices is answered with the old bracket after a restart
  (`VerifiedIsIdenticalIff`).
- The report's relative tolerance closes entries the book keeps open (`ReportAgreesIff`).

## Model

| member | source | states |
|---|---|---|
| Evidence.MergeView | agent/execution_lifecycle.py:2489-2532 | Merging one broker view into an order row gives exactly the lattice step: the larger fill, a status that never steps back, a price that a lagging view does not replace, and a local `not_found` after the third miss. |
| Evidence.EvidenceIsMonotone | agent/execution_lifecycle.py:2503-2532 | Over any sequence of views the fill is the largest ever seen, a final status never changes, and `partially_filled` only ever becomes final. |
| Evidence.RunSplits | agent/execution_lifecycle.py:2489-2532 | A run of views can be cut anywhere, so monotonicity holds between any two points of a run. |
| Evidence.LaggingViewsKeepTheAverage | agent/execution_lifecycle.py:2509-2526 | A saved nonzero average survives any run of views that lag the saved fill or name no price. |
| Evidence.LastPricedViewDecides | agent/execution_lifecycle.py:2509-2529 | After any run the average is the one named by the last view that reached the largest fill seen before it. |
| Evidence.UnpricedViewsKeepTheAverage | agent/execution_lifecycle.py:2509-2529 | Without such a view the row keeps its own average; a row without one stays without as long as no view names a price. |
| Evidence.FirstPriceIsTaken | agent/execution_lifecycle.py:2509-2529 | A row without an average takes the first one any view names, until a view reaches the largest fill. |
| Evidence.LastStatusStands | agent/execution_lifecycle.py:2503-2520 | After any run the status is the one its last telling view named, except that a final row keeps its own and a partly filled one does not go back to working. |
| Evidence.MissesCount | agent/execution_lifecycle.py:2490-2502 | The miss counter of a row that is not final is exactly the number of complete listings without the order since it was last seen, and is below three. |
| Evidence.ThreeMissesAreFinal | agent/execution_lifecycle.py:2490-2502 | After three complete listings in a row without the order its row is final: as it was, or `not_found`. |
| Evidence.NotFoundNeedsThreeMisses | agent/execution_lifecycle.py:2490-2502 | `not_found` arises only from three consecutive complete listings without the order, or from a broker view that says so. |
| ExitProtocol.EvolutionKeepsNoReversal | agent/execution_lifecycle.py:1241-1249 | Whatever the broker does by itself, filled plus working exits (a bracket pair counted once) never come to exceed the entry fill. |
| ExitProtocol.NoReversalKeepsPosition | agent/execution_lifecycle.py:1241-1249 | Under that invariant the position is never negative. |
| ExitProtocol.SubmissionIsSafeIffUncommitted | agent/execution_lifecycle.py:1241-1249 | One more standalone exit keeps the invariant exactly when it fits what is not yet committed. |
| ExitProtocol.SubmissionIsSafeIffItFits | agent/execution_lifecycle.py:2148-2202 | With every exit final, an order keeps the invariant exactly when it is at most the true position. |
| ExitProtocol.CloseOverWorkingExitReverses | agent/execution_lifecycle.py:1241-1249 | A whole-position close while any exit still has something left breaks the invariant: why the legs must be proven gone first. |
| ExitProtocol.CancelledLegsAreFinal | agent/execution_lifecycle.py:1344-1395 | When every live leg was shown final and unfilled, nothing works at the broker and nothing has filled since the reconciliation. |
| ExitProtocol.VerdictIsUnfilled | agent/execution_lifecycle.py:1344-1351 | With complete listings, the recorded verdict on the legs is that of the broker, in both directions. |
| ExitProtocol.Broker.ReplaceStop | agent/alpaca_provider.py:671-711 | Replacing a live bracket stop ends it and works a successor for the rest; the no-reversal invariant survives. |
| ExitProtocol.Engine.RefreshLegs | agent/execution_lifecycle.py:2438-2472 | Every leg takes the broker's status; the first filled leg becomes the closing order, with a close row, unless one is on record. |
| ExitProtocol.Engine.Reconcile | agent/execution_lifecycle.py:2434-2532 | After a reconciliation every live or filled exit is on record, in step with the snapshot; each leg has the broker's status, and no close row of an order the broker ended still counts as working. |
| ExitProtocol.Engine.PollLegs | agent/execution_lifecycle.py:1305-1338 | One poll marks fills and final statuses and reports whether every leg asked about is final and unfilled. |
| ExitProtocol.Engine.RequestCancels | agent/execution_lifecycle.py:1272-1280 | Every live leg is asked to cancel, in order; the responses prove nothing: only broker activity happens, and the record stays in step. |
| ExitProtocol.Engine.RequestCancel | agent/execution_lifecycle.py:1272-1280 | One request is sent and the broker may act on it or not; the record stays in step. |
| ExitProtocol.Engine.PollOnce | agent/execution_lifecycle.py:1287-1305 | One poll after time passed changes a leg only on broker evidence; a complete listing settles every leg asked about and says exactly whether all of them are final and unfilled. |
| ExitProtocol.Engine.AwaitCancels | agent/execution_lifecycle.py:1286-1342 | At most three polls, and with complete listings fewer only once every leg is final and unfilled; each recorded change is broker evidence, and complete listings decide every leg. |
| ExitProtocol.Engine.CancelLegs | agent/execution_lifecycle.py:1241-1395 | Every live leg is asked to cancel. True only when every exit at the broker is final and nothing filled since the snapshot; with complete listings and durable writes, true exactly when every live leg ended unfilled, and otherwise the first filled leg becomes the closing order unless one is on record. |
| ExitProtocol.Engine.MarkFill | agent/execution_lifecycle.py:1352-1376 | The first leg found filled becomes the closing order unless one is recorded. |
| ExitProtocol.Engine.Rearm | agent/execution_lifecycle.py:1636-1780 | A re-armed stop is placed only for exactly the true remaining position, whatever the position endpoint answers; when nothing works, the view agrees and the broker accepts, it is placed. |
| ExitProtocol.Engine.PlaceStop | agent/execution_lifecycle.py:1738-1768 | The stop is sent for the whole true position and recorded as a leg. |
| ExitProtocol.Engine.AttachStop | agent/execution_lifecycle.py:1548-1573 | Recording the stop adds one leg, clears the failed close, and keeps every live or filled exit on record. |
| ExitProtocol.Engine.OnlyLiveStop | agent/execution_lifecycle.py:1801-1806 | Finds the single live stop leg, or reports that there is none or more than one. |
| ExitProtocol.Engine.MoveStop | agent/execution_lifecycle.py:1798-1886 | Amending the stop keeps the invariant and swaps exactly the one live stop for its successor; it fails only when there is not exactly one live stop, or it is dead or partly filled at the broker; a successor that came back filled is the exit; after a failed call the same legs are on record, and in step with the broker once the reconciliation can be read. |
| ExitProtocol.Engine.AfterFailure | agent/execution_lifecycle.py:1837-1847 | After a failed amendment the book is reconciled whenever the broker can be read: the same leg orders, and no recorded close is dropped. |
| ExitProtocol.Engine.AmendStop | agent/execution_lifecycle.py:1834-1881 | A stop no longer working, or partly filled, and no other, is refused and the book reconciled instead; otherwise the successor replaces it on record. |
| ExitProtocol.Engine.SwapStop | agent/execution_lifecycle.py:1835-1868 | The broker call and the record of its answer together keep every live or filled exit recorded. |
| ExitProtocol.Engine.CloseOn | agent/execution_lifecycle.py:1872-1877 | A leg that turns out filled becomes the closing order. |
| ExitProtocol.Engine.SubmitClose | agent/execution_lifecycle.py:2148-2202 | The close is sent for exactly the true position and recorded as the closing order. |
| ExitProtocol.Engine.RecordClose | agent/execution_lifecycle.py:2186-2202 | Recording the close keeps every live or filled exit on record. |
| ExitProtocol.Engine.Monitor | agent/execution_lifecycle.py:1965-2202 | One monitor pass keeps the invariant, does nothing while a close is working or a leg is recorded filled, and after completed bars does not close over a recorded closing order. Otherwise, given a reason to close, complete listings and durable writes, and any stop to move moved, it closes exactly when the broker accepts and every live leg ended unfilled; the close is for the held position. |
| ExitProtocol.Engine.Close | agent/execution_lifecycle.py:2148-2202 | Every live leg is asked to cancel first; with complete listings the close is sent exactly when all of them ended unfilled and the broker accepts; a refused close of a stripped bracket is followed by a stop for the whole position once the view agrees; the invariant holds on every path. |
| ExitProtocol.Engine.Cycle | agent/execution_lifecycle.py:1956-2202 | One cycle - reconciliation and monitor pass - works on the entry fill reported by then; with a reason to close that nothing sound stands against, it ends with the exposure sold, a close working that was sent now or had not ended at the broker before, or a leg that has filled or still works. |
| ExitProtocol.Engine.Run | agent/execution_lifecycle.py:1956-2263 | Over any number of cycles, with the broker acting in between, every exit ever sent was within the true position and exactly it once the entry fill was known; after a cycle with a reason to close that nothing sound stands against, the exits sold the recorded entry fill, or a close is working, or a leg has filled or still works. |
| ExitProtocol.FreshBracketIsSafe | agent/execution_lifecycle.py:147-162 | A filled bracket entry with its two working legs starts inside the invariant. |
| ExitProtocol.RearmSizeIsExactIffFillsAreBound | agent/execution_lifecycle.py:1588-1627 | Entry fill less bound exit fills is the true position exactly when every exit that filled is still bound, and otherwise too large. |
| ExitProtocol.DroppedPartialFillOversizesRearm | agent/execution_lifecycle.py:1864-1866 | If a partly filled stop could be amended, its fill would leave the record and a later re-arm would be oversized: a concrete run. |
| StopReplacement.AttachingClosesTheGap | agent/execution_lifecycle.py:1934-1945 | Attaching the successor leaves exactly one recorded stop, the broker's head, at its price. |
| StopReplacement.OthersStay | agent/execution_lifecycle.py:1934-1945 | Attaching drops the predecessor and no other leg. |
| StopReplacement.FindSuccessor | agent/execution_lifecycle.py:1900-1909 | Finds a listed successor by recorded id, by the predecessor's forward link or by a backward link, and misses none. |
| StopReplacement.Recover | agent/execution_lifecycle.py:1888-1954 | Recovery succeeds exactly when the listing shows how the replacement went, then leaves the record in step; a listed successor of another type, or at another price, is refused, and a truthful listing never leads there. |
| StopReplacement.FreshCopyWinsIff | agent/execution_lifecycle.py:2704-2866 | Only the fresh copy is written exactly when an unconfirmed trade has no close rows, or its cut-short entry keeps the exposure; once a position showed the trade, only the second is left. |
| StopReplacement.WhollyFilledIff | agent/execution_lifecycle.py:1990-1995 | An entry is wholly filled when it falls short of its request by at most the thousand-millionth part. |
| StopReplacement.CanceledEntryKeepsOldStop | agent/execution_lifecycle.py:1990-1995 | A canceled entry whose fill has grown to the whole request passes the test for moving a stop, and the copy without the recovered stop is written: a concrete case of the guard left. |
| StopReplacement.MarkStays | agent/execution_lifecycle.py:2698-2919 | A trade that a position once showed counts as unconfirmed only once it has close rows. |
| StopReplacement.Engine.Reconcile | agent/execution_lifecycle.py:2434-2866 | A reconciliation fails exactly when the listing hides how the replacement went or the entry changed after a stop was moved; one that returns leaves the record in step, exactly unless the entry was cut short while the position is missing - always when the entry is recorded as filled, or the successor has filled. The written stops carry the status the listing gives them, `not_found` exactly when it omits them, and under a listing that shows the head the recorded stop has the broker's status and price. |
| StopReplacement.Engine.WriteBack | agent/execution_lifecycle.py:2618-2866 | One of the two copies is written, as the settling decision has it, and the trade evolves as in the settlement. |
| StopReplacement.Engine.MoveStop | agent/execution_lifecycle.py:1798-1886 | With a crash possible after each of the three writes, the record is in step with the chain or one recoverable step behind it; it reports a moved stop exactly when the trade allows it, the process goes on and the broker answered, and then the one recorded stop is the new head at the price asked for, an outstanding request first; a successor that came back filled is the closing order; exactly a call without an answer is followed by a reconciliation. |
| StopReplacement.Engine.Run | agent/execution_lifecycle.py:1798-1954 | Over any interleaving of moves, crashes, broker events and reconciliations of the trade, the record is in step with the chain or one recoverable step behind it. |
| StopReplacement.Broker.Replace | agent/alpaca_provider.py:671-711 | The call is refused, or extends the chain by one with its response possibly lost. |
| EntryFills.ReconcileEntry | agent/execution_lifecycle.py:2503-2542 | Merging a view and activating a fill gives exactly the specified row, trade and journal growth, or refuses once exits progressed on another entry. |
| EntryFills.PassTelescopes | agent/execution_lifecycle.py:682-722 | One pass keeps open-row quantity and value equal to the logged fill at its average, less corrections. |
| EntryFills.GrowthTelescopes | agent/execution_lifecycle.py:711-722 | A row priced at the implied increment moves quantity and value exactly to the new totals. |
| EntryFills.CorrectionTelescopes | agent/execution_lifecycle.py:1060-1066 | An average change without growth writes no row and moves only the baseline. |
| EntryFills.RefusedIffEntryMoved | agent/execution_lifecycle.py:698-706 | A reconciliation is refused exactly when completed bars have driven the exit and the entry's quantity or named price moved by more than the tolerance. |
| EntryFills.UnpricedGrowthKeepsTheTradePrice | agent/execution_lifecycle.py:685-722 | Growth for which the broker names no price is booked at the trade's own. |
| EntryFills.UnrecordedBaselineIsTheTradePrice | agent/execution_lifecycle.py:685-722 | Where the journalled average was never recorded, growth is priced against the price the trade was opened at. |
| EntryFills.RepeatedViewIsIdle | agent/execution_lifecycle.py:2533-2542 | The same view again records nothing. |
| EntryFills.OpenRowsTelescope | agent/execution_lifecycle.py:1010-1065 | Over any sequence of snapshots, lagging ones included, open rows add up to the largest fill seen; their value with the average-only corrections is that fill times the average named by the last view that reached the largest fill before it, within the price tolerance. |
| EntryFills.TwoFillsAreTwoRows | agent/execution_lifecycle.py:682-722 | A fill that grows from one quantity and average to another leaves two rows, the second for the growth, at the price that makes both worth the whole at the new average. |
| EntryFills.EvidenceFollowsRun | agent/execution_lifecycle.py:2503-2532 | The row's evidence along a run of passes is the lattice run of the same views. |
| EntryFills.OrphansIffNotIdle | agent/execution_lifecycle.py:2533-2542 | A crashed pass leaves journal rows behind exactly when its row is planned, not moved, and the fill it saw was beyond the logged one. |
| EntryFills.JournalIsExactIffCrashesWereIdle | agent/execution_lifecycle.py:1010-1059 | Open rows carry no replay key: with crashes between journal and book the journal equals the accounted fill exactly when every crashed pass was idle, and then its value telescopes as if the crashes had not been. |
| EntryFills.IdleCrashesLeaveNoTrace | agent/execution_lifecycle.py:1010-1059 | A run whose crashes were idle ends in the state of its completed passes alone. |
| EntryFills.CrashRepeatsAnOpenRow | agent/execution_lifecycle.py:1013-1017 | The smallest such run: ten shares filled, twenty journalled. |
| EntryBook.PlanIsValid | agent/execution_lifecycle.py:458-498 | Adoptions move rows one-to-one, each to a broker id that no row held. |
| EntryBook.Book.Reconcile | agent/execution_lifecycle.py:2480-2542 | The loop and the final merge leave exactly the planned book and journal growth; it is written exactly when no kept row's activation is refused and no crash falls before. |
| EntryBook.Book.ReconcileRow | agent/execution_lifecycle.py:2480-2542 | One row's turn keeps, moves or drops it as planned, and journals its fill under its new key. |
| EntryBook.Book.PlaceRow | agent/execution_lifecycle.py:458-498 | An adopted row leaves its client-id key and appears under the broker's id. |
| EntryBook.Book.DecideFate | agent/execution_lifecycle.py:458-498 | An unresolved row stays, moves to the broker's id, or is dropped when a row is already there - as decided against the book as it was. |
| EntryBook.TargetIsTakenIffItWas | agent/execution_lifecycle.py:466-480 | While rows are being re-keyed in place, the target key is taken exactly when it was at the start, in any iteration order. |
| EntryBook.LastMerge | agent/execution_lifecycle.py:3140-3145 | The final merge never brings a retired key back. |
| EntryBook.ReconciledIsAfter | agent/execution_lifecycle.py:3140-3145 | The book a reconciliation writes is the value the results about whole runs speak of. |
| EntryBook.ReconcileKeepsBook | agent/execution_lifecycle.py:2480-2489 | A reconciliation keeps every resolved row under the broker id of its client id. |
| EntryBook.SightedOrderHasOneRow | agent/execution_lifecycle.py:458-498 | After a reconciliation that lists an order, at most one row names it, resolved and under the broker's id. |
| EntryBook.SightedOrderKeepsARow | agent/execution_lifecycle.py:458-498 | An order that some row named still has a row. |
| EntryBook.RunKeepsBook | agent/execution_lifecycle.py:3140-3145 | The book's invariants hold over any run of sightings, submissions and older copies written back. |
| EntryBook.AdoptionIsExactlyOnce | agent/execution_lifecycle.py:458-498 | From every reachable book, a reconciliation that lists an order leaves exactly one row for it if any row named it, and none otherwise. |
| EntryBook.NamedBefore | agent/execution_lifecycle.py:458-498 | A row that names a listed order after a reconciliation named it before, whatever its fate. |
| EntryBook.FillsComeFromOneRow | agent/execution_lifecycle.py:2533-2542 | The evidence of a listed order reaches one row only, the one under the broker's id, by exactly one pass over the order's own view, and exactly what that pass adds is journalled. |
| EntryBook.UnlistedRowCountsAMiss | agent/execution_lifecycle.py:2489-2502 | A row that no listed order stands for stays where it is and counts one more miss. |
| EntryBook.AdoptedRowCarriesTheLegs | agent/execution_lifecycle.py:458-498 | An adopted row carries the legs nested in the listing, else those of the exact lookup; a bracket without either keeps its own and stays marked for another lookup. |
| CloseJournal.Journal.LogTrade | agent/execution_lifecycle.py:2968-2973 | Inserting a journal row whose key is present changes nothing. |
| CloseJournal.Journal.JournalFill | agent/execution_lifecycle.py:2815-2832 | One new quantity is journalled under its first or increment key, at the implied price, with its gross result and fee share. |
| CloseJournal.Journal.BookOrder | agent/execution_lifecycle.py:2791-2836 | One close order's turn is the specified one: filters, caps, replay key, progress on the row. |
| CloseJournal.Journal.JournalCloses | agent/execution_lifecycle.py:2777-2836 | The loop over a trade's close orders is the specified pass. |
| CloseJournal.TurnBooksGrowth | agent/execution_lifecycle.py:2803-2836 | A turn with room books exactly the growth of the order's fill, under a key never used before. |
| CloseJournal.TurnBooksMoney | agent/execution_lifecycle.py:2814-2836 | The same turn moves value, gross result and pro-rated fee to the new quantity at the new average. |
| CloseJournal.BookingMoney | agent/execution_lifecycle.py:2265-2296 | One booking's value, gross result and fee share are linear in its quantity and price. |
| CloseJournal.GrossIsGained | agent/execution_lifecycle.py:2265-2296 | A measurable close gains the multiplier times exit value less entry value for a long and the negation for a short: with a positive multiplier a long gains exactly when it sells above its entry, a short exactly when it buys below. |
| CloseJournal.MoneyIsGained | agent/execution_lifecycle.py:2265-2296 | The gross a quantity and value account for is that gain. |
| CloseJournal.BookingIsGained | agent/execution_lifecycle.py:2281-2296 | The journal row of a booking carries that gain, at the row's own quantity and price. |
| CloseJournal.PassBooks | agent/execution_lifecycle.py:2777-2836 | When the reported fills fit the entry, one pass books every order's growth, whatever the order of the rows. |
| CloseJournal.PassBooksMoney | agent/execution_lifecycle.py:2777-2836 | The same pass keeps every order's booked money equal to closing its quantity at its average. |
| CloseJournal.TurnKeepsOthers | agent/execution_lifecycle.py:2825-2832 | A turn changes nothing booked for another order or exposure. |
| CloseJournal.RepeatBooksNothing | agent/execution_lifecycle.py:2803-2836 | Repeating a snapshot journals nothing and changes no row, for all rows and journals. |
| CloseJournal.PassNeverOverbooks | agent/execution_lifecycle.py:2789-2836 | One pass never journals more than the entry quantity and allots exactly the smaller of entry and reported fills. |
| CloseJournal.RunConserves | agent/execution_lifecycle.py:2777-2836 | Over any run of plausible snapshots each close order's journal rows add up to its booked quantity, and value, gross and fees to closing that quantity at its booked average. |
| CloseJournal.LastSnapshotIsBooked | agent/execution_lifecycle.py:2777-2836 | After the last snapshot the journal holds each eligible order's cumulative fill, as that snapshot reported it. |
| CloseJournal.LateGrowthOverbooks | agent/execution_lifecycle.py:2789-2836 | The cap is per pass: a concrete run in which late growth journals 16 of an entry of 10. |
| CloseJournal.PassStaysBookedIff | agent/execution_lifecycle.py:2789-2836 | From a booked state one pass leaves the journal at what the rows say is booked exactly when every new fill fits what the earlier orders left of the entry, or finds nothing left. |
| CloseJournal.CutBookingIsRecordedWhole | agent/execution_lifecycle.py:2809-2833 | Orders of 6 and 10 for an entry of 10 journal 6 and 4 while the second row records 10: the smallest cut. |
| CloseJournal.TurnStaysInItsExposure | agent/execution_lifecycle.py:2825-2832 | What a turn writes for one exposure depends only on that exposure's journal rows. |
| CloseJournal.JournalsAreSeparate | agent/execution_lifecycle.py:2825-2832 | Over any run of passes the journal rows of one exposure are what its own passes alone would have written. |
| CloseJournal.CreditedFill | agent/execution_lifecycle.py:2803-2808 | A row is credited with its reported fill, up to the entry and to what it asked for; a filled row that reports no quantity counts as wholly filled. |
| CloseJournal.FeeIsItsShare | agent/execution_lifecycle.py:2284-2296 | The fee of a measured close is its share of the trade's explicit fee by quantity, never negative and never more than the whole. |
| CloseReplay.KeysOfAttempts | agent/execution_lifecycle.py:2825-2832 | Across passes that all start from the same row, a replay key is taken exactly when one of them journalled a fill with that key. |
| CloseReplay.OrderReplay | agent/execution_lifecycle.py:2803-2836 | Crashed passes and the one that completes leave one order's journal exact in quantity exactly when every fill a crashed pass added is the one its progress is written with. |
| CloseReplay.OrderReplayMoney | agent/execution_lifecycle.py:2814-2836 | With those fills unchanged it is exact in value, gross result and fees exactly when their averages are unchanged too. |
| CloseReplay.PassOfOrder | agent/execution_lifecycle.py:2777-2836 | A pass with room for every reported fill takes each order's turn as if that order were alone. |
| CloseReplay.ReplayIsExactIffFillsStay | agent/execution_lifecycle.py:2777-2836 | A whole pass after any number of crashed ones is exact in quantity exactly when no journalled fill of any order has changed. |
| CloseReplay.ReplayKeepsMoneyIffAveragesStay | agent/execution_lifecycle.py:2777-2836 | ... and in money exactly when no average of a journalled fill has changed. |
| CloseReplay.RunIsExactIffEvidenceStays | agent/execution_lifecycle.py:2777-2836 | Over any run with any crashes between journal and book, the journal is exact after every completed pass exactly when no fill journalled by a crashed pass changed in quantity or average before its progress was written. |
| CloseReplay.ChangedEvidenceIsMisbooked | agent/execution_lifecycle.py:2825-2836 | The smallest failures: a fill of six that grows to ten stays booked as six; one repriced from six to seven keeps its old value under the new baseline. |
| Exposures.PassAppends | agent/execution_lifecycle.py:2777-2836 | A pass only appends: what it adds belongs to orders with a new fill and room in the entry, and each such order has a booking. |
| Exposures.PassKeepsOwnIff | agent/execution_lifecycle.py:2712-2836 | In a book that keeps the rows of earlier exposures, every booking still comes from its own entry's orders after a pass exactly when it neither books a row that is not the trade's nor overwrites a row that another entry booked. |
| Exposures.FallbackKeepsOwnIff | agent/execution_lifecycle.py:2742-2764 | Writing a broker-only fallback row keeps that exactly when it does not overwrite a row booked under another entry. |
| Exposures.StepIsOwnIffClean | agent/execution_lifecycle.py:2712-2912 | One step - a close sent, evidence, a journalling or a settling pass - keeps every booking with its own entry and settles own rows only, exactly when it is clean: decided beforehand from book, journal and trade. |
| Exposures.ExposuresNeverMixIffClean | agent/execution_lifecycle.py:2712-2912 | Over any run of such steps for successive trades, with old rows still in the book, every journalled quantity is booked under its own entry in every state and every settlement is added up from own rows, exactly when every step is clean. |
| Exposures.WellNamedIsClean | agent/execution_lifecycle.py:2724-2743 | A step for a trade that has its entry's id and names only closing orders recorded for it is clean. |
| Exposures.ExposuresNeverMix | agent/execution_lifecycle.py:2724-2743 | As long as every trade has its entry's id and names only its own closing orders, no run ever mixes the journalled or settled quantities of two exposures. |
| Exposures.OldCloseGrowsIntoAnother | agent/execution_lifecycle.py:2724-2743 | A position known only from the broker: the late growth of an old close of its symbol is booked for it. |
| Exposures.OldCloseSettlesAnother | agent/execution_lifecycle.py:2724-2743 | The same position, gone from a snapshot, is settled by that close. |
| Exposures.NamedCloseIsBookedByName | agent/execution_lifecycle.py:2186-2190 | A close sent for a position without an entry is booked for the entry whose trade comes to name it. |
| Exposures.FallbackTakesOver | agent/execution_lifecycle.py:2744-2764 | A trade that named another entry's close, listed by the broker, would have it rewritten as its own. |
| Exposures.Accounts.RecordClose | agent/execution_lifecycle.py:2186-2202 | Recording a close order is the step the runs speak of. |
| Exposures.Accounts.ObserveOrder | agent/execution_lifecycle.py:2503-2532 | New evidence for an order is the step the runs speak of. |
| Exposures.Accounts.JournalPass | agent/execution_lifecycle.py:2777-2836 | The journalling loop for one trade over the shared book works on exactly the bound rows, and writes book and journal as that step does. |
| Exposures.Accounts.SettleUp | agent/execution_lifecycle.py:2838-2912 | The settled totals are those of exactly the bound rows; the book changes as that step does. |
| Exposures.Accounts.Proceed | agent/execution_lifecycle.py:2712-2912 | Any of these operations is an enabled step from the state before it to the state after it. |
| Exposures.Accounts.Proceeds | agent/execution_lifecycle.py:2712-2912 | Any number of them is a legal run of as many steps, ending in the present book and journal. |
| Settlement.Orders.CloseEntries | agent/execution_lifecycle.py:2712-2771 | Returns exactly the bound close rows, each once, in attempt order, after writing a broker-only fallback row to the book. |
| Settlement.Orders.Gather | agent/execution_lifecycle.py:2712-2743 | Collects exactly the rows bound to a trade, in any iteration order of the book. |
| Settlement.Place | agent/execution_lifecycle.py:2765-2771 | Inserts one row into attempt order without losing or repeating any. |
| Settlement.AttemptsComeInOrder | agent/execution_lifecycle.py:2765-2771 | The order is total and goes by attempt, a missing one counting as zero, then by time. |
| Settlement.EntriesAreDetermined | agent/execution_lifecycle.py:2712-2771 | Two enumerations of a trade's rows are the same sequence, so the order of the book does not matter. |
| Settlement.FallbackIsUnbooked | agent/execution_lifecycle.py:2742-2764 | A fallback row is bound to the trade, reports what the broker does, has nothing booked and counts as an explicit attempt. |
| Settlement.AddRow | agent/execution_lifecycle.py:2888-2912 | One row's contribution is capped by its request, its fill and what is left of the entry. |
| Settlement.SettledIsGained | agent/execution_lifecycle.py:2880-2912 | The settled gross of a measurable trade is multiplier times exit value less entry value for a long, and the negation for a short. |
| Settlement.AddUp | agent/execution_lifecycle.py:2871-2912 | The settling loop computes the specified totals. |
| Settlement.AccountedIsCapped | agent/execution_lifecycle.py:2882-2912 | The accounted quantity is everything reported, capped at the entry. |
| Settlement.Settle | agent/execution_lifecycle.py:2838-3016 | The decision whether a trade stays, keeps a residual or leaves is the specified one, branch by branch. |
| Settlement.LeavesIffAccountedFor | agent/execution_lifecycle.py:2838-2955 | An exposure leaves exactly when bound rows report its whole entry, or nothing is bound and an explicit local close says so, which then answers for the whole quantity; a residual is the entry less everything reported. |
| Settlement.StrayRowClosesWholeTrade | agent/execution_lifecycle.py:2975-3016 | A named closing row bound elsewhere closes the whole trade on any fill, in exactly the stated case, answering for the smaller of its quantity and that fill. |
| Settlement.TurnIsCurrentIff | agent/execution_lifecycle.py:2618-2919 | One reconciliation leaves the book answering for the largest entry fill reported exactly when it writes the saved copy without growth, or the fresh one while current or freshly activated. |
| Settlement.TurnIsSound | agent/execution_lifecycle.py:2838-2955 | Whatever a reconciliation decides, the exposure answers for no more than was bought and leaves only accounted for. |
| Settlement.TurnCoversIff | agent/execution_lifecycle.py:2618-2919 | The quantity the settling code answers for, fill or position, reaches the largest fill reported after one reconciliation exactly in the stated cases. |
| Settlement.NoExposureIsLost | agent/execution_lifecycle.py:2382-2955 | Over any run of snapshots, growing entry fills, omitted positions and removed trades that come back included, an exposure leaves only accounted for; its recorded entry fill is the largest one reported exactly when every growth reported while the saved copy was written was activated again later, and then it answers for all of it. |
| Settlement.RemovedComesBackIff | agent/execution_lifecycle.py:2533-2542 | A removed exposure comes back exactly when its entry's fill is reported larger or newly priced, with the whole fill, or with the position when one is shown. |
| Settlement.RegainedIsSettledAgain | agent/execution_lifecycle.py:2838-2919 | It leaves again, or keeps what the growth added, by the close rows that removed it; without any it stays. |
| Settlement.LocalCloseComesBack | agent/execution_lifecycle.py:2533-2542 | Ten shares closed locally come back when their average entry price is corrected, and stay: a concrete run. |
| Settlement.LocalCloseIsJournalledOnceIff | agent/execution_lifecycle.py:2956-3006 | However often crashes make it replay, a local close is journalled once, as first tried, exactly when the closing order it names stays the same. |
| Settlement.LocalCloseIsJournalledWhole | agent/execution_lifecycle.py:2956-3010 | A local close leaves a journal row exactly in the stated case, for the whole exposure or for a stray order's part of it, under the key of the named order's first booking, of the entry or of the opening. |
| Settlement.LateFillIsMissed | agent/execution_lifecycle.py:2908-2919 | The smallest miss: an entry of ten grows to fifteen in a snapshot without its position, the book keeps ten, and once ten are closed the trade is removed. |
| Settlement.ResidualKeepsEntryIffFillKnown | agent/execution_lifecycle.py:2868-2919 | A residual still answers for the entry exactly when the cumulative entry fill was recorded. |
| Settlement.UnknownFillIsLost | agent/execution_lifecycle.py:2868-2919 | Without it, one close of four out of ten is counted three times and the trade is dropped: a concrete run. |
| Settlement.JournalMatchesSettlement | agent/execution_lifecycle.py:2868-2940 | Booked quantity, value and gross equal the settlement's totals, and booked fees are the trade's fee in proportion - all of it when the entry is covered. |
| Settlement.NetsAgreeIffFeeIsCharged | agent/execution_lifecycle.py:2926-2940 | The settlement charges the whole fee: its net is the journal's exactly when there is no fee or the entry is covered to the last share, and within the tolerance they differ by at most the fee's share of it. |
| Settlement.PassMatchesSettlement | agent/execution_lifecycle.py:2777-2940 | One pass over final, priced rows brings the journal into agreement with the settlement. |
| Settlement.SettledIsJournalledIffAttempts | agent/execution_lifecycle.py:2796-2804 | What a reconciliation settles it also journals exactly when no filled row without an attempt mark belongs to a trade still listed; an unconfirmed trade closed by its leg is settled and never journalled. |
| Settlement.EntriesAreOwn | agent/execution_lifecycle.py:2724-2743 | Every bound row belongs to the trade's own entry, exactly unless the named row carries no entry, or the trade has no entry order and the book holds a close of its symbol. |
| Settlement.OldCloseCoversEnteredElsewhere | agent/execution_lifecycle.py:2724-2743 | A position of ten known only from the broker is settled by an old close of ten of the same symbol, and nothing is journalled: the smallest case. |
| Settlement.NoSharedRows | agent/execution_lifecycle.py:2730-2743 | Two exposures of one symbol share no close row once every row names its entry. |
| Settlement.FallbackOverwritesIffNamedElsewhere | agent/execution_lifecycle.py:2742-2764 | The fallback overwrites a booked row exactly when the trade names one bound elsewhere that the broker lists. |
| RoundTrip.SumsAreRestricted | agent/execution_lifecycle.py:2825-2832 | Sums over an exposure's close orders are sums over its own journal rows. |
| RoundTrip.StoredQuantities | agent/execution_lifecycle.py:1010-1017 | In any row order, the report's open and close quantities are what was booked. |
| RoundTrip.Reading | report.py:240-308 | The report returns a stored exposure exactly when its closes reach its entry, with booked gross, and net of booked fees. |
| RoundTrip.ReportReturnsWhatWasSettled | report.py:240-308 | From fills to report: the parent is returned exactly when the settled quantity reaches the entry, with the settlement's own gross and net of exactly the pro-rated fee. |
| RoundTrip.SmallestCase | agent/execution_lifecycle.py:2777-2836 | Ten shares bought and sold through one close order: the premises of the result above can be met, with exactly one close row journalled. |
| ExitBars.Prepare | agent/execution_lifecycle.py:1513-1532 | Keeps exactly the admissible bars, sorted by opening time. |
| ExitBars.CompletedBars | agent/execution_lifecycle.py:1489-1546 | Returns the longest contiguous run from the first admissible bar, or nothing when it opens late, and flags a gap exactly when bars are left. |
| ExitBars.Run | agent/execution_lifecycle.py:1533-1546 | From sorted bars: nothing and a gap when the first opens late, else the longest contiguous run and whether bars are left. |
| ExitBars.PassIsExact | agent/execution_lifecycle.py:1533-1546 | With aligned bars it returns exactly the minutes from the next one due up to the first missing or repeated minute; admissible are exactly the bars that open no earlier than the next minute due and are over by now and by the deadline. |
| ExitBars.AdmittedIffDue | agent/execution_lifecycle.py:1513-1532 | For whole minutes the four tests of a bar ask exactly that it opens no earlier than the next minute due and is over by now and by the deadline. |
| ExitBars.ConsumedBarsAreRefused | agent/execution_lifecycle.py:2029-2049 | A bar consumed before is refused: the last one as a duplicate, any earlier one as out of order. |
| ExitBars.NextBarIsTaken | agent/execution_lifecycle.py:2029-2049 | The minute after the consumed ones is taken and extends the sequence. |
| ExitBars.Consume | agent/execution_lifecycle.py:2029-2049 | Fed in order, no returned bar is ever a duplicate or out of order for the transition, up to the bar on which the exit fires. |
| ExitBars.Consumer.Pass | agent/execution_lifecycle.py:2017-2049 | Over every pass the bars consumed stay a gap-free, duplicate-free minute sequence from the first full minute at or after entry, and grow by exactly the returned bars up to the exit; without a gap every bar that is due is consumed. |
| ExitBars.FirstMinute | agent/execution_lifecycle.py:1533-1537 | The first full minute at or after the entry. |
| Outbox.BookingIsSound | research/edge_ledger.py:811-840 | Ingestion removes nothing, leaves a row for the opportunity, and keeps one row per opportunity and epoch. |
| Outbox.OneRowPerEpoch | research/edge_ledger.py:811-840 | Two ledger rows of one opportunity and one epoch are the same row. |
| Outbox.EpochIsNamedOrCurrent | research/edge_ledger.py:774-810 | An outcome is booked under the run it names, else under the one proven by now; without a name it is refused in quarantine. |
| Outbox.FirstOutcomeWins | research/edge_ledger.py:811-840 | The ledger ends up with this very outcome exactly when none was there for its epoch, or it was there already. |
| Outbox.RedeliveryIsIdleIffEpochKnown | research/edge_ledger.py:774-832 | Whatever the ledger holds, a redelivery changes nothing exactly when it is booked under the same epoch, under none, or under one for which the ledger already has an outcome of that opportunity; otherwise this outcome is added. |
| Outbox.ReproofBooksTwice | research/edge_ledger.py:774-832 | The smallest failure: an outcome delivered before and after a re-proof is in the ledger twice. |
| Outbox.ExplicitProofIsBookedOnce | research/edge_ledger.py:774-832 | An outcome that names its proof run is booked at most once whatever happens between deliveries. |
| Outbox.Queue | agent/execution_lifecycle.py:3292-3304 | Merging adds each id once and leaves what is queued untouched. |
| Outbox.Prune | agent/execution_lifecycle.py:3374-3387 | Pruning removes exactly the settled ids, and changes nothing else but the attempt count of deferred rows. |
| Outbox.Engine.Record | agent/execution_lifecycle.py:3264-3282 | A close's outcome waits, under the id the ledger keys on, for the next write. |
| Outbox.Engine.Commit | agent/execution_lifecycle.py:3136-3153 | The write that removes trades queues their outcomes; nothing pending is dropped before it is durable. |
| Outbox.Engine.Deliver | research/edge_ledger.py:755-845 | A delivery that reports success booked the outcome under its epoch; it is refused when the candidate is quarantined and names no proof run; a failed one may have booked it too; earlier rows never change. |
| Outbox.Engine.DeliverAll | agent/execution_lifecycle.py:3344-3369 | Every settled id is in the ledger or journalled as rejected, and nothing else is rejected, wherever the process stops; when it does not stop, every row is settled or deferred with one more attempt. |
| Outbox.Engine.DeliverRow | agent/execution_lifecycle.py:3344-3369 | A row that cannot be read is rejected without a delivery; any other is delivered once, settled exactly when the ledger took it, rejected exactly when the ledger refused it, and deferred with one more attempt exactly when the call failed. |
| Outbox.LeftoversAreDeferred | agent/execution_lifecycle.py:3374-3387 | What is still queued of the rows just delivered is deferred, with one more attempt. |
| Outbox.Engine.Drain | agent/execution_lifecycle.py:3326-3390 | No id is queued twice, every durably closed outcome stays in the outbox, the ledger or the rejected set, and rows queued meanwhile survive pruning; a delivery that completes leaves the pruned book as the next one's view. |
| Outbox.Engine.Run | agent/execution_lifecycle.py:3326-3390 | The same over any interleaving of closes, writes, deliveries and crashes. |
| EntryPass.TallyBook | agent/engine_cycle.py:744-791 | The durable tally is the sum over open trades and working entry orders, and fails closed exactly when a row is malformed or negative. |
| EntryPass.CountsByStatus | agent/engine_cycle.py:757-775 | Which rows count: entries still working, partly filled, or in one of the three states that may reopen; never a final one. |
| EntryPass.TallyTrades | agent/engine_cycle.py:746-756 | The open-risk loop fails exactly on a malformed or negative trade. |
| EntryPass.SoundIff | agent/engine_cycle.py:746-788 | Which rows and trades are usable: all numbers there, none negative, and an underlying named. |
| EntryPass.TallyAddsUp | agent/engine_cycle.py:757-788 | Pending risk and notional add up over the rows of a sound book and are never negative. |
| EntryPass.OneRowTally | agent/engine_cycle.py:757-788 | One row adds what it plans if it counts, and nothing otherwise. |
| EntryPass.GrossAddsUp | agent/engine_cycle.py:709-737 | Gross exposure adds up over positions, each at the size of its value, long or short. |
| EntryPass.Prepare | agent/engine_cycle.py:709-801 | What stands before the pass: gross exposure, tally, and pending positions not yet held. |
| EntryPass.Resolve | agent/engine_cycle.py:447-486 | A failed submit is recovered exactly when the order is found, and unresolved exactly when the outcome is ambiguous or the lookup failed. |
| EntryPass.Cycle.Consider | agent/engine_cycle.py:1033-1100 | One edge's turn at one symbol sends its sized entry exactly when no order for the underlying is pending or may exist, the risk is usable, the log so far plus the request is within every cap, and no order under its client id is working; it fails closed exactly on an unusable risk. |
| EntryPass.Cycle.Send | agent/engine_cycle.py:1101-1127 | A request within every cap is logged, counted exactly unless it was definitely refused, recorded with the status and fill of the order answered or found, and halts the pass exactly when nobody can tell what became of it; the pass ends exactly when a request that may exist cannot be recorded. |
| EntryPass.Cycle.Count | agent/engine_cycle.py:1101-1127 | Counting a request that may exist keeps the counters in step with the log and every request within the caps. |
| EntryPass.Cycle.Run | agent/engine_cycle.py:805-1127 | At every submission of the nested loop open, pending and planned risk, gross exposure and positions were within their caps, with one entry per underlying, however the pass ends; unless a write fails the book has grown by exactly a row for every request that may exist and a trade for every fill; unless the pass halts or fails, what was considered is every edge's proposal for every symbol, in order. |
| EntryPass.Cycle.RunEdge | agent/engine_cycle.py:805-1127 | One edge proposes for every symbol in turn, until the pass is halted or fails. |
| EntryPass.CapsHold | agent/engine_cycle.py:1074-1096 | A request extends the log of submissions within the caps exactly when it passes the three checks. |
| EntryPass.CapsArePercentages | agent/engine_cycle.py:1080-1096 | A configured cap admits what is at most its percentage of equity, up to the tolerance. |
| EntryPass.PlanIsPerUnit | agent/market_entry_risk.py:605-836 | Planned risk is quantity times the way to the stop, or times the debit of an option with its multiplier; notional is quantity times price. |
| EntryPass.KnownIsWhatFilled | agent/execution_lifecycle.py:526-531 | Only fill statuses open a trade, for the quantity reported; a filled order without one counts as wholly filled. |
| EntryPass.PlannedIsWithinCaps | agent/engine_cycle.py:1074-1096 | What a pass planned altogether is within the caps, an ambiguous submission included. |
| EntryPass.LimitBoundsRiskIff | agent/market_entry_risk.py:605-836 | Within its limit price a fill risks no more a unit than was sized exactly when it is not past the stop by more than the distance sized, or, for an option, costs at most the debit. |
| EntryPass.DeliversAtMostThePlan | agent/execution_lifecycle.py:408-419 | Such a fill delivers at most its share of the planned risk, and never more than all of it. |
| EntryPass.NextRiskIs | agent/engine_cycle.py:744-788 | The next tally is what stood before plus the plans, with fills of rows that still count on top and less what finished rows fell short. |
| EntryPass.NextTallyIsWithinCapIff | agent/engine_cycle.py:744-788 | The next tally is within the risk cap exactly when the delivered risk of rows that still count fits the room left and what finished rows fell short; fills within limit and near the stop exceed it by no more than that, and not at all without a partly filled row. |
| EntryPass.HalfFilledEntryIsCountedTwice | agent/engine_cycle.py:744-788 | A request for all the cap allows, half filled exactly as planned, is tallied at one and a half times the cap: the smallest excess. |
| EntryPass.FillPastTheStopCostsMore | agent/market_entry_risk.py:816-836 | The limit does not bound a better price: bought far past its stop, an entry risks more than was sized. |
| EntryPass.AskAboveDebitCostsMore | agent/risk.py:493-542 | An option candidate that names a debit below its ask is sized from the debit and may be filled at the ask, above its planned risk. |
| Submission.VerificationIsAgreement | agent/alpaca_provider.py:552-589 | For orders that echo a request, verification is agreement on symbol, quantity, side, type, time in force, limit, stop, class and intent; an absent limit of a market order is not compared. |
| Submission.VerifiedIsIdenticalIff | agent/alpaca_provider.py:552-589 | A verified order is the very order requested exactly when its protective prices, extended-hours flag and unused market limit agree as well; none of them is compared. |
| Submission.ChangedStopPassesVerification | agent/alpaca_provider.py:552-589 | After a restart a bracket request with another stop is answered with the old bracket. |
| Submission.Provider.Orders | agent/alpaca_provider.py:379-404 | The exact lookup asks once, reports absence only when no order has the id, and a conflict exactly for an order with another id. |
| Submission.Provider.SubmitOrder | agent/alpaca_provider.py:591-661 | A new day order is looked up exactly once: a missing id leads to exactly one submission and the broker's answer, a found order is returned exactly when it carries the id and verifies and is a conflict otherwise, an unreadable answer is a failure. Every success is remembered and repeated without asking the broker; a reused id with another request is refused. |
| Submission.Provider.Restart | agent/alpaca_provider.py:591-607 | Losing both caches loses no guarantee. |
| Submission.Provider.Run | agent/alpaca_provider.py:591-661 | Any run of submissions and restarts leaves at most one broker order per client order id. |
| Allocation.RankIsTotal | agent/allocation.py:69-97 | The evidence rank is a strict total order. |
| Allocation.UnmeasuredNeverOutranks | agent/allocation.py:69-97 | Erasing a metric never improves a rank: unmeasured evidence never outranks measured evidence. |
| Allocation.BetterEvidenceOutranks | agent/allocation.py:69-97 | What decides a rank: the lower bound, then the smaller drawdown, then more whole trades, then the point estimate, then the ids; a negative drawdown or count is as good as none. |
| Allocation.Sort | agent/allocation.py:189-189 | Candidates are a permutation of the input, best evidence first. |
| Allocation.SortingForgetsOrder | agent/allocation.py:189-189 | Without ties every permutation of the input sorts to the same sequence. |
| Allocation.GreedyIsFeasible | agent/allocation.py:214-246 | What is admitted fits the slots, pairwise below the correlation threshold and in distinct frozen clusters. |
| Allocation.AdmittedAreIndependent | agent/allocation.py:220-242 | No two admitted families share a cluster of a verified policy, and none is correlated with a better one at one half or more; nothing else keeps two candidates apart. |
| Allocation.GreedyWinsAtTheFirstDifference | agent/allocation.py:214-246 | At the first rank where a feasible set differs from the greedy one, the greedy one holds the candidate. |
| Allocation.GreedyIsLexicographicallyBest | agent/allocation.py:179-246 | Every feasible set first differs from the admitted one at a candidate the admitted one holds. |
| Allocation.WorstPeer | agent/allocation.py:231-242 | Reports the strongest admitted correlation at or above the threshold, or that there is none. |
| Allocation.Consider | agent/allocation.py:215-242 | A candidate is refused exactly when no slot is free or something admitted represents it, with a reason that holds. |
| Allocation.Admit | agent/allocation.py:210-246 | Admitted and rejected partition the candidates, admitted is the greedy choice, and every reason holds of the final admissions. |
| Allocation.Allocate | agent/allocation.py:176-251 | The same from unranked input. |
| Allocation.AllocateAgain | agent/allocation.py:183-188 | Two runs over the same candidates in any order admit the same sequence when no two tie. |
| Correlation.CorrelationIsSymmetric | agent/allocation.py:145-173 | Correlation is symmetric, unknown cases included. |
| Correlation.CauchySchwarz | agent/allocation.py:163-167 | The squared covariance is at most the product of the variances. |
| Correlation.UpperClampNeverBinds | agent/allocation.py:163-173 | The result lies in [0,1], and an estimate already is at most one: only the lower clamp ever binds. |
| Correlation.EstimateIsTheCosine | agent/allocation.py:163-167 | The estimate times the root of the two variances is the covariance. |
| Correlation.DeviationsCancel | agent/allocation.py:159-162 | Deviations are taken from the mean: they add up to zero. |
| Correlation.NoEvidenceIsFullCorrelation | agent/allocation.py:154-166 | Fewer than ten shared sessions, or a series that does not vary over them, count as full correlation. |
| Correlation.SelfIsFullyCorrelated | agent/allocation.py:145-173 | A series is fully correlated with itself. |
| Correlation.RescalingChangesNothing | agent/allocation.py:145-173 | Scaling either series by a positive factor and shifting it changes nothing. |
| Atr.WilderAtr | agent/market.py:53-82 | The loop computes the recursive definition at every bar, and refuses a non-positive period. |
| Atr.ValueNeedsAWholeWindow | agent/market.py:62-74 | A value exists exactly after a whole window of bars with all three prices, none upside down. |
| Atr.SeedIsTheMean | agent/market.py:73-77 | The first estimate is the mean of the first full window of true ranges. |
| Atr.SmoothingIsWilders | agent/market.py:78-80 | Every later one moves from the one before by one period's share of the distance to the true range. |
| Atr.WindowSum | agent/market.py:73-75 | The window is summed exactly when its true ranges all exist. |
| Atr.TrueRange | agent/market.py:67-71 | A true range exists exactly for a valid bar and is not negative. |
| Atr.TrueRangeIsASpan | agent/market.py:70-71 | The three-way maximum is the span of the bar and the previous close. |
| Atr.NoLookAhead | agent/market.py:32-35 | Every value is decided by the bars up to its own. |
| Atr.AtrWithin | agent/market.py:67-81 | Every value lies between the least and the greatest true range seen. |
| Atr.GapKeepsTheEstimate | agent/market.py:67-81 | A malformed bar suspends the output without restarting the estimate: the next value continues from before the gap. |
| Report.Group | report.py:247-253 | Rows are grouped by parent identity in journal order, and exactly the parents with a close row are listed. |
| Report.NamedParents | report.py:92-103 | Rows that name a parent share it exactly when they name the same, by the first of the three identities they carry. |
| Report.LegacyParents | report.py:104-123 | Older rows share a parent exactly when they belong to the same entry order - an open and the closes of all its retries do - else by trade id, else by order id; a row without any stands alone. |
| Report.QuantityIsTheFirstPositive | report.py:136-141 | A row counts with the first of its two quantities that is positive. |
| Report.ExplicitMarkCloses | report.py:166-176 | An explicit mark closes a parent whatever the quantities say. |
| Report.CloseOnlyCompleteIff | report.py:182-195 | Without a mark or an open row a parent is complete when its closes reach every request; if none asks, when all say how much filled and one filled wholly; else when none is marked partial. |
| Report.ResultsAreNotInvented | report.py:198-237 | Recorded results are taken as they are; a missing gross or net is filled in only from known fees where nothing but fees lies between them. |
| Report.ClosedParents | report.py:240-308 | Returns each complete parent with a close row once, with the totals of its close rows. |
| Report.CompleteIffReached | report.py:166-185 | An opened exposure the lifecycle wrote is complete exactly when its close rows reach its open rows. |
| Report.ReportAgreesIff | report.py:180-181 | Report and lifecycle agree on what is closed exactly unless the shortfall is above the absolute and within the relative tolerance. |
| Report.WholeUnitsAgree | report.py:180-181 | In whole units below a thousand million both say closed exactly when everything was closed. |
| Report.TolerancesDiffer | report.py:180-181 | An entry of two units short by one and a half tolerances is open on the book and closed in the report. |
| Report.UnknownSpreads | report.py:262-264 | A total is unknown exactly when one close row's value is. |
| Report.RowOrderDoesNotMatter | report.py:240-308 | An exposure reads the same in whatever order its rows come. |
| Report.ParentsAreTheClosedExposures | report.py:240-308 | For a journal the lifecycle wrote, exactly the exposures whose closes reach their entry are returned, with the sums of their close rows. |

## Left out

- ExitProtocol.Engine.RefreshLegs: every leg is in the snapshot, so the branch that marks an unlisted leg
  `not_found` is never taken; the guarantees of this module rest on complete snapshots.
- ExitProtocol.Engine.Reconcile: the snapshot is complete and atomic, so no order is missed; counting misses is in
  Evidence.
- ExitProtocol.Engine.Rearm: looking the stop up by its close client id and retrying a reused id, at most three
  times, are folded into whether the broker accepts it; submission under one id is in Submission.
- ExitProtocol.Engine.Monitor: a pass without completed bars that retries a pending stop move and gets the successor
  back filled ends there; the code goes on to its close (`agent/execution_lifecycle.py` 1997-2014), which then rests
  on the provider's own read of the position (`agent/alpaca_provider.py` 726-770).
- ExitProtocol.Engine.AmendStop: a partly filled stop is always refused, which the code leaves to the broker;
  `DroppedPartialFillOversizesRearm` is what happens otherwise.
- StopReplacement.Engine.Reconcile: after a stop was moved any change of the entry fill or its average is refused;
  the code lets a change within 1e-9 pass and then rebuilds the trade without its replacement mark.
- Settlement.NoExposureIsLost: a position that a snapshot shows for a removed trade whose entry row is not activated
  starts another exposure, without an entry order, which is outside the run.
- Exposures.Accounts.Proceed: one trade's pass at a time; trades of different symbols share no rows.
- Option take-profits, option profiles and their legs: the same leg and cancel machinery as equities.
- The flatten loop and live-mode force-flat: they reuse the close protocol and its row binding.
- Positions known only to the broker in the exit protocol: they are sized from the snapshot, with no entry fill to
  compare against; their settlement is covered by `ResidualKeepsEntryIffFillKnown`.
- The rolling-upgrade branch for rows that carry only a boolean fill mark, and the merge of a pending order into a
  position that has no trade.
- Configured per-fill cost models: an explicit trade-level fee is pro-rated, any other cost is outside the model.
- Slippage, provenance, telemetry, notification and heartbeat fields: copied values.
- Held-out session sums and their ledger queries: series are taken as given.
- Paper-trial outcomes: they go through their own runtime, which is not part of this model.
- Signal generation, planning, sizing and the LLM gate of the entry pass: a proposal per edge and symbol is given.
- Exit decisions of the bar transition other than advancing its clock: whether the exit fires is a free choice.
- Trades without an entry bar time: bars are then consumed from whatever minute comes first.
- Text order of ids, parsing of journal keys and truncation of cumulative fills in them: ids are abstract and keys
  injective.
- Floating-point rounding, wall clock, sleeps, timeouts and SQLite mechanics.
- Broker listings, submissions and their failures are environment steps with stated contracts, not the SDK's code.
- Parent risk, funding, slippage totals and provenance in the report: sums and picks of copied fields.
