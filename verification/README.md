# The warehouse and money core, proved

A Dafny model of the part of `apps/api/src` that keeps a shop's books: stock rows and their movement
ledger, shelves and batches, counts, holds and orders, marking codes, refunds, payments and debts, the
idempotency protocol in front of all of them, the text form of second-factor secrets, and the demand
estimate behind automatic ordering. `dafny verify dfyconfig.toml` checks everything.

## How it is built

- One module per source component. `Lists`, `Greedy`, `JsText`, `JsMap` and `Bits` hold what several
  share: `sort` (stable), `filter`, `reduce`, the loop every allocator runs, UTF-16 text, an
  insertion-ordered `Map`, digits and bits.
- A source loop is a method with a loop, proved equal to a function of its inputs; the theorems are about
  that function. Rows that are updated in place are fields of a class (`Stock.StockTable`,
  `Batches.BatchTable`) or arrays (`Payments.RefundSplit`, `Replenishment`).
- Quantities, and the shares a refund is split by, are exact rationals (`real`); tenge and points are
  integers; `Math.round(x)` is the floor of `x + 1/2`. The Base 32 accumulator wraps at 32 bits as the
  original's does.
- An `UPDATE ... WHERE` is one atomic step that either changes its row or affects none. A transaction
  commits as a whole or not at all; the unique indexes refuse a second row with one key.
- A theorem over runs quantifies over every finite sequence of operations: interleaved transactions on
  stale reads for the ledger (`StockRuns`), concurrent attempts that fail anywhere for idempotency, and
  transactions one after another, each deciding on rows it reads itself, for holds (`Promises`), batches
  (`BatchRuns`) and codes (`MarkingRuns`).

## Where the code does not do what its text promises

- Rounding on returns can cost more than half a tenge a return when lines are rounded too:
  `Returns.WeighedReturnsOverpay` gives the sale. `Returns.HalfATengeIff` says on the requests alone exactly
  when the half tenge holds, for any sale, and `Returns.UndiscountedIff` what that is without discounts;
  `Returns.HalfATengeAReturn` and `Returns.OneRoundedLineAReturn` give guards, and
  `Returns.RoundingIsBounded` bounds every sale: half a tenge a return and half a tenge a rounded line.
- `refundSplit` rounds each refund by itself, so over several refunds a way of paying can give back more than
  it took although the sale is not exceeded. No way ever does exactly when the sale was paid one way
  (`Payments.NoWayOverdrawnIff`), and any sale paid several ways can be returned so that all its money goes
  back by one of them (`RefundRuns.ReturnsWithinPaymentsIff`). `Payments.ThreeRefundsDrift` gives a case and
  `Payments.RefundHistoryStaysNear` bounds the drift.
- `marking.ts:61-63` promises to cut a serial at the next known identifier; the loop at
  `marking.ts:92-96` cuts at a separator or the end only (`Marking.SerialIsCutOnlyAtSeparator`,
  `Marking.WithoutSeparatorTheTailIsSerial`).
- `marking-incoming.ts:51-55` promises a duplicate check over the whole delivery; the check sees each
  product alone. `MarkingEntry.DeliveryRepeatsNothingIff` says on the lines sent when nothing repeats, and
  `MarkingEntry.OnePackTwoProductsPasses` gives the delivery that does. The unique index still refuses the
  write (`MarkingRuns`).
- `reconciliation.ts:236-237` says codes can never outnumber packs. That holds over every run for the goods
  sold only by code and for no others (`MarkingRuns.BoundedIffSoldOnlyByCode`); while the flag itself is
  switched, exactly when each switch finds the product within its goods
  (`MarkingRuns.FlagsKeepCodesWithinGoodsIff`), which `routes/pos.ts:2910` does not ask
  (`MarkingRuns.FlagMayComeTooLate`).
- A demand window narrowed to what was read can be short on its last day, whatever the limit of the read
  (`Replenishment.LastDayMayBeShort`). `Replenishment.NarrowedWindowIsTruthful` says when it is not, and
  `Replenishment.LastDayIsWholeIff` that for sales this is exact.

## Model

| member | source | states |
|---|---|---|
| Bins.AllocateFromBins | apps/api/src/bins.ts:79-104 | the filter, sort and loop are the greedy draw over the comparator's order, for which the next three rows hold |
| Bins.AllocationIsExact | apps/api/src/bins.ts:79-104 | exactly the required amount leaves, no bin gives more than it has, and it is refused just when the free stock falls short, naming what was free |
| Bins.UnplacedIsDrawnLast | apps/api/src/bins.ts:62-104 | the unplaced pile is touched only when every usable shelf is emptied |
| Bins.SmallerShelfIsDrawnFirst | apps/api/src/bins.ts:84-92 | of two shelves the one that holds less is emptied first, and of two that hold the same the one whose code comes first |
| Bins.AllocationEmptiesMostShelves | apps/api/src/bins.ts:62-104 | no other way of taking the same amount empties more addressed bins |
| Bins.AllocateRelease | apps/api/src/bins.ts:127-143 | the loop is the same draw over holds, largest first, for which the next two rows hold |
| Bins.ReleaseIsExact | apps/api/src/bins.ts:106-143 | min(required, held in total) is released, no row gives back more than it holds, no row twice |
| Bins.ReleaseTouchesFewestRows | apps/api/src/bins.ts:106-143 | no other release of the same amount touches fewer rows |
| BinAddresses.CodesHaveNoColon | apps/api/src/bins.ts:9-46 | an accepted address has a code of letters, digits and dashes, so the colon of a shelf key is never in it |
| BinAddresses.OneCodeOnePlace | apps/api/src/bins.ts:9-46 | two accepted addresses have one code exactly when they are the same place level by level, up to case |
| BinAddresses.AddressIff | apps/api/src/bins.ts:23-46 | missing exactly without a zone; accepted exactly when every level named is one to eight letters or digits, Latin or Cyrillic, and has the level above it |
| BinAddresses.CodeReads | apps/api/src/bins.ts:9-15 | the code is the levels in capitals from the zone inwards, a dash between two |
| CountHolds.TrimTakesTheOverhang | apps/api/src/count-holds.ts:43-59 | exactly the overhang comes off, and a reservation is cut only after all quarantine is |
| Stock.AllPartsApply | apps/api/src/stock.ts:253-278 | when every part's condition holds on its row the whole loop of updates goes through and each row ends as its own part leaves it |
| Stock.ColumnMoves | apps/api/src/stock.ts:253-278 | a column of the table moves by the sum of what the parts do to it |
| Stock.StockTable.ApplyStockDelta | apps/api/src/stock.ts:166-206 | the guarded delta and its movement happen together or not at all, the movement carrying the delta and the shelf of the row read; on every shelf the row stays the sum of its movements |
| Stock.StockTable.ApplyParts | apps/api/src/stock.ts:253-278 | the loop applies parts in order, each written as a movement of minus its amount on its own shelf, and stops at the first that no longer fits; on every shelf the row stays the sum of its movements |
| Stock.StockTable.DeductAcrossBins | apps/api/src/stock.ts:253-278 | allocation decided on the rows read, then written part by part against the rows as they are now; a deduction that succeeds keeps every row the sum of its movements and takes exactly what was required |
| Stock.DeductedInFull | apps/api/src/stock.ts:253-278 | a deduction that succeeded has applied every part and written exactly its movements |
| Stock.DeltaEffect | apps/api/src/stock.ts:166-206 | when a delta goes through, reason by reason, and what it leaves column by column |
| Stock.HoldEffect | apps/api/src/stock.ts:283-345 | when a reservation or quarantine is taken or given up, and what it leaves column by column |
| Stock.DeltaKeepsBooks | apps/api/src/stock.ts:166-206 | a delta with its movement keeps every shelf the sum of its ledger |
| Stock.PartsKeepBooks | apps/api/src/stock.ts:253-278 | so do any parts taken, each with its movement |
| Stock.HoldsMoveNothing | apps/api/src/stock.ts:283-406 | statements that move holds change the goods on no shelf |
| Stock.BooksAgreeRowByRow | apps/api/src/stock.ts:166-206 | that law on the rows: each quantity is the sum of its shelf's movements, and a shelf without a row has none in all |
| Stock.StockTable.UpdateAll | apps/api/src/stock.ts:347-406 | one statement per part, stopping at the first that affects no row |
| Stock.StockTable.ReserveAcrossBins | apps/api/src/stock.ts:327-362 | the hold is spread as goods would be taken; refused when the free stock or a row falls short |
| Stock.StockTable.ReleaseAcrossBins | apps/api/src/stock.ts:373-381 | the hold comes off the rows that carry it, most first |
| Stock.StockTable.ReleaseBlockedAcrossBins | apps/api/src/stock.ts:398-406 | quarantine comes off the rows that carry it, most first |
| Stock.StockTable.TrimHoldsToStock | apps/api/src/stock.ts:425-450 | every named row is brought down to what lies on it, and the report lists exactly what came off |
| Stock.TrimReportsAreTrue | apps/api/src/stock.ts:425-450 | the report names exactly the rows the trim changed, each with both amounts that came off it |
| Stock.StockTable.CreateStockWithMovement | apps/api/src/stock.ts:579-621 | first goods on a shelf: a row and a movement of as much on that shelf, so the row is the sum of its movements; refused when the shelf has a row |
| Promises.ReserveRowsEffect | apps/api/src/stock.ts:347-362 | on rows whose holds fit, reserving goes through exactly when that much is free and holds exactly that much |
| Promises.ReleaseRowsEffect | apps/api/src/stock.ts:373-381 | releasing always goes through and frees min(asked, reserved) |
| Promises.ReleaseBlockedRowsEffect | apps/api/src/stock.ts:398-406 | taking goods out of quarantine always goes through and takes out min(asked, blocked) |
| Promises.DeductRowsEffect | apps/api/src/stock.ts:253-278 | a removal that respects holds goes through exactly when that much is free, and keeps every hold inside its row |
| Promises.StepKeepsInv | apps/api/src/stock.ts:253-381 | placing, cancelling, shipping, selling, receiving, blocking, unblocking: holds fit on every row and add up to the open orders |
| Promises.StepMeans | apps/api/src/stock.ts:253-381 | an order is placed, and goods are sold, exactly when that much is free; cancelling gives up the whole hold |
| Promises.RunKeepsInv | apps/api/src/stock.ts:253-381 | the same over any run |
| Promises.ShippingIsNeverRefused | apps/api/src/routes/pos.ts:8440-8475 | in any such state, shipping any part of an open order succeeds: its hold comes off whole and the picked units leave |
| Promises.PromiseCanBeKept | apps/api/src/stock.ts:347-381 | from rows with nothing held: whatever was done before, an open order can be shipped |
| Promises.ShipOrderLine | apps/api/src/routes/pos.ts:8440-8475 | release, read again, deduct: the transaction itself succeeds and moves goods and hold by exactly the picked and the ordered amount |
| Reconciliation.ShelfKeyInjective | apps/api/src/reconciliation.ts:35-50 | two shelves share a key only if they are one shelf and one product |
| Reconciliation.ReconcileBalances | apps/api/src/reconciliation.ts:35-93 | the indexes, the two passes and the sort report one list of findings, true and complete by the next three rows |
| Reconciliation.FindingsAreTrue | apps/api/src/reconciliation.ts:35-93 | every finding names a real disagreement with both figures, their difference, and whether a row is missing, orphaned or drifted |
| Reconciliation.FindingsAreComplete | apps/api/src/reconciliation.ts:35-93 | every disagreement is found |
| Reconciliation.FindingsAreInOrder | apps/api/src/reconciliation.ts:35-93 | the largest disagreement comes first, whichever way it goes |
| Reconciliation.EmptyReportMeansAgreement | apps/api/src/reconciliation.ts:35-93 | the report is empty exactly when ledger and cache agree on every shelf, an absent row read as zero |
| Reconciliation.StuckHoldsAreExact | apps/api/src/reconciliation.ts:199-204 | the report lists exactly the rows that hold back more than they have, with the excess, the largest first |
| Reconciliation.TrimmedRowFacts | apps/api/src/count-holds.ts:43-59 | a trimmed row loses exactly its overhang, goods untouched; trimming again changes nothing |
| Reconciliation.TrimAllTwice | apps/api/src/stock.ts:425-450 | trimming is idempotent and moves no goods |
| Reconciliation.TrimClearsStuckHolds | apps/api/src/stock.ts:425-450 | after trimming its rows the hold report is empty |
| Reconciliation.TotalIsHonest | apps/api/src/stock.ts:222-224 | the total on screen never exceeds what the shelves can hand out, and equals it exactly when no hold is stuck |
| Reconciliation.ShortfallApplies | apps/api/src/stock.ts:253-278 | a shortfall that ignores holds goes through exactly when the goods are there |
| Reconciliation.TakeShortfall | apps/api/src/routes/pos.ts:6990-7035 | shortfall taken, then trimmed: goods drop by exactly it, no hold is stuck, and what may be sold is what can be handed out |
| StockRuns.StepKeepsInv | apps/api/src/stock.ts:166-206 | one statement of any open transaction, commit or rollback: cached figure = sum of movements, never below zero |
| StockRuns.RunKeepsInv | apps/api/src/stock.ts:166-206 | the same over every interleaving, stale reads included |
| StockRuns.ReconciliationStaysEmpty | apps/api/src/reconciliation.ts:35-93 | from an empty shop, after any interleaving, reconciliation of any location reports nothing |
| StockRuns.PromisesStayOnTheShelf | apps/api/src/stock.ts:83-110 | over every interleaving of transactions on stale reads, no shelf has more reserved than lies on it, until goods leave for a reason that may take promised ones |
| StockRuns.ReasonKeepsPromisesIff | apps/api/src/stock.ts:83-110 | sale, order, transfer out, production out, table order and supplier return are exactly the reasons whose removals keep every promise |
| Counts.BalancesAtTime | apps/api/src/counts.ts:185-213 | today's rows with later movements undone, as the map loops compute them |
| Counts.ComputeBinCountAdjustments | apps/api/src/counts.ts:107-156 | adding up, comparing and looking for the missing yield adjustments that mean what AdjustmentsMean says, shelf by shelf |
| Counts.RewoundFigure | apps/api/src/counts.ts:185-213 | each shelf's rewound figure is today's less everything that moved since |
| Counts.AdjustmentsMean | apps/api/src/counts.ts:107-156 | on a walked or named shelf the adjustment is counted (or zero) less system, elsewhere nothing |
| Counts.AdjustmentsAreTrue | apps/api/src/counts.ts:107-156 | every adjustment shows both figures of its shelf and their difference, never nothing, and speaks of a shelf the count speaks about |
| Counts.LateCountLandsRight | apps/api/src/counts.ts:107-213 | a late count leaves a shelf it speaks about at counted plus moved since, every other at today's figure |
| Counts.LateEqualsOnTime | apps/api/src/counts.ts:107-213 | applied late or on the spot, a count ends the same |
| Counts.LateCountApplies | apps/api/src/routes/pos.ts:6955-7030 | writing the late adjustment is refused exactly when more left the shelf since than was counted |
| Requests.AggregateRequestedQuantities | apps/api/src/stock.ts:33-44 | the loop over the map leaves the lines the next three rows describe |
| Requests.EachProductIsSummed | apps/api/src/stock.ts:33-44 | under each product stands its first item with the sum of what all its items ask for |
| Requests.AggregationKeepsEachProduct | apps/api/src/stock.ts:33-44 | one line a product, each with its product's sum, no product lost or added |
| Requests.AggregationKeepsTheTotal | apps/api/src/stock.ts:33-44 | all that was asked for, added up, stays the same |
| Picking.ResolvePick | apps/api/src/picking.ts:88-134 | the two request loops refuse at the first objection in order, else resolve every line of the order |
| Picking.PickAcceptedIff | apps/api/src/picking.ts:88-134 | accepted exactly when something was written down, nothing negative, and every product named is on the order with no more than was ordered and than lies on the shelf |
| Picking.RefusalIsTrue | apps/api/src/picking.ts:88-134 | every refusal says something true of the request: which product, and why |
| Picking.PickStepRecords | apps/api/src/picking.ts:88-134 | an accepted pick writes what it names and leaves every other line as earlier picks left it; a refused one writes nothing |
| Picking.PickReports | apps/api/src/picking.ts:88-134 | line by line what is picked so far and what is short, and whether the order is complete |
| Picking.PickStepStaysWithin | apps/api/src/picking.ts:88-134 | with one line per product a pick never records more than was ordered |
| Picking.PickRunStaysWithin | apps/api/src/picking.ts:88-134 | the same over any series of picks |
| Picking.ShippedAndReleased | apps/api/src/picking.ts:149-161 | shipped and released add up to the order exactly when no line holds more picked than ordered |
| Picking.ShipmentMeans | apps/api/src/picking.ts:149-161 | the shipment takes exactly the lines something was found for, and there is none exactly when nothing was |
| Picking.NothingIsLost | apps/api/src/picking.ts:88-161 | with one line per product, after any picks everything ordered either ships or stops being held |
| Picking.NoStoredOrderLosesAnything | apps/api/src/routes/supply.ts:273-325 | whatever a customer asks for, repeated or not, the order as stored either ships or releases all of it after any picks |
| Picking.PickIsRecordedOnceIff | apps/api/src/picking.ts:88-134 | the lines of a product together record what was picked of it exactly when it has one line or none was picked |
| Picking.TwoLinesShipTooMuch | apps/api/src/picking.ts:88-134 | what resolvePick alone would make of two lines of one product, which no stored order has |
| CanonicalJson.UnescapeToken | apps/api/src/idempotency.ts:44-55 | a printed string token is read back, whatever follows it |
| CanonicalJson.QuotedInjective | apps/api/src/idempotency.ts:44-55 | string tokens that begin the same text are the same string |
| CanonicalJson.Injective | apps/api/src/idempotency.ts:44-55 | texts that agree come from values that say the same: unique decodability of the nested printer |
| CanonicalJson.SamePrints | apps/api/src/idempotency.ts:44-55 | values equal up to key order print the same |
| CanonicalJson.CanonicalText | apps/api/src/idempotency.ts:44-62 | two values print the same exactly when equal up to the order of object keys at every depth |
| CanonicalJson.KeyLessIff | apps/api/src/idempotency.ts:44-55 | keys are ordered by their first differing unit, a prefix first |
| CanonicalJson.NotationIs | apps/api/src/idempotency.ts:44-55 | the words, brackets, colons and commas of the text; what is not there is null in a list and left out of an object |
| Idempotency.StepKeepsInv | apps/api/src/idempotency.ts:114-162 | any single action of any attempt keeps: a key row is there exactly as often as its work committed and not pruned, rows and answers record executions, claims are exclusive |
| Idempotency.RunKeepsInv | apps/api/src/idempotency.ts:114-162 | the same over every interleaving |
| Idempotency.CommitsAtMostOnce | apps/api/src/idempotency.ts:114-162 | while a key is not pruned its work commits at most once, and the row is there exactly when it did |
| Idempotency.SameKeySameAnswer | apps/api/src/idempotency.ts:114-162 | callers answered under one key asked the same request and got the same body and status |
| Idempotency.LookupTells | apps/api/src/idempotency.ts:114-162 | after any run, a caller whose key is taken gets the committed body and status, replayed, exactly when it asked the same route for the same thing as the caller that executed, and a conflict exactly otherwise |
| Idempotency.NothingToReplay | apps/api/src/idempotency.ts:114-162 | with no committed work under the key there is nothing to replay, and the error stands |
| Idempotency.OnlyExecutionsHaveEffects | apps/api/src/idempotency.ts:114-162 | conflicts, errors and replays have no effect |
| Idempotency.NothingPruned | apps/api/src/idempotency.ts:100-110 | within one retention period pruning removes no key |
| Idempotency.RetriesWithinRetention | apps/api/src/idempotency.ts:93-110 | so no key executes twice within it |
| Idempotency.FreeKeyExecutes | apps/api/src/idempotency.ts:114-162 | an attempt on a free key, followed through, executes once, answers its caller and leaves the row of that answer |
| Idempotency.TakenKeyDoesNotExecute | apps/api/src/idempotency.ts:114-162 | an attempt on a taken key, followed through, changes nothing but that it has to look the answer up |
| Idempotency.HeldKeyWaits | apps/api/src/idempotency.ts:114-162 | while another transaction holds the key, a claim waits |
| Idempotency.RetryIsAnswered | apps/api/src/idempotency.ts:114-162 | executed, then asked again: the same thing gets the same answer without being done again, anything else a conflict |
| Idempotency.RetryExecutesAgainIffExpired | apps/api/src/idempotency.ts:100-162 | after pruning, a retry executes again if and only if its row was older than the retention |
| Returns.ResolveReturn | apps/api/src/returns.ts:76-123 | the loop adds up lines that name one sold item and refuses at the first objection; otherwise the lines and the refund of the next rows |
| Returns.ReturnAcceptedIff | apps/api/src/returns.ts:76-123 | accepted exactly when something is asked for, each line of it is on the sale with a quantity, and repeats added up never exceed what is left |
| Returns.FirstObjectionDecides | apps/api/src/returns.ts:76-123 | the first line that cannot come back decides the refusal and says why |
| Returns.ReturnedLinesMean | apps/api/src/returns.ts:76-123 | one line for each sold item asked for, with the sum asked and its own product, batch and price |
| Returns.FullReturnIff | apps/api/src/returns.ts:110-123 | a return completes the sale exactly when nothing is left of any line |
| Returns.OneReturnRefunds | apps/api/src/returns.ts:125-160 | the completing return gives all that is left of list price less discount and points; any other its share of that, to the nearest whole |
| Returns.StepRecords | apps/api/src/routes/pos.ts:1540-1604 | each line is left with what was asked of it and the sums given with what this return gave; a refused return changes nothing |
| Returns.StepKeepsLines | apps/api/src/returns.ts:76-123 | no return takes a line beyond what it sold |
| Returns.StepKeepsMoney | apps/api/src/returns.ts:76-160 | one return keeps: an open sale has given its partial refunds, each within its share and half a unit a return; a closed one is settled |
| Returns.RunKeepsMoney | apps/api/src/returns.ts:76-160 | the same over any series of returns |
| Returns.RunKeepsGross | apps/api/src/returns.ts:76-160 | over any series the gross of the partial returns is the list price of what came back, to half a tenge for each line rounded |
| Returns.ReturnsSettleTheSale | apps/api/src/returns.ts:76-160 | over any series no line gives back more than sold; after the last unit each sum given is the larger of what the sale took, its lines at list price less discount and points, and the partial refunds |
| Returns.RoundingIsBounded | apps/api/src/returns.ts:125-160 | weighed or not, each sum exceeds what the sale took by at most half a unit per partial return plus its share of half a tenge per rounded line |
| Returns.HalfATengeIff | apps/api/src/returns.ts:76-160 | for any sale and any requests, half a unit per partial return is enough exactly when the rounded shares of the partial returns exceed the sum by no more |
| Returns.HalfATengeAReturn | apps/api/src/returns.ts:125-160 | while the partial returns these requests lead to add up to no more than the sale at list price, half a tenge, or half a point, each |
| Returns.UndiscountedIff | apps/api/src/returns.ts:76-160 | without discounts those shares are the list prices of the partial returns, line by line |
| Returns.OneRoundedLineAReturn | apps/api/src/returns.ts:76-160 | without discounts, whole-priced lines sold and at most one line a request that is not whole keep it within half a tenge per partial return |
| Returns.WholePricesCostHalfATenge | apps/api/src/returns.ts:125-160 | where every line comes to whole tenge, half a tenge, or half a point, per partial return |
| Returns.PiecesCostHalfATenge | apps/api/src/returns.ts:125-160 | the same for goods sold and returned by the piece, at any prices |
| Returns.WeighedReturnsOverpay | apps/api/src/returns.ts:76-160 | the sale of weighed goods where the excess is larger |
| Payments.ResolveSalePayments | apps/api/src/payments.ts:57-131 | refused at the first unreadable, repeated or empty part, on debt mixed with money or a wrong sum; otherwise as the next rows say |
| Payments.PaidIff | apps/api/src/payments.ts:57-131 | accepted exactly when every line names a way with an amount, none twice, they add up to the sale and debt stands alone; recorded as sent, and stamped with its one way or as mixed |
| Payments.PaymentRefusalIsTrue | apps/api/src/payments.ts:57-131 | every refusal says something true of what was sent |
| Payments.OldRegistersAndFreeSales | apps/api/src/payments.ts:57-131 | one way without amounts pays everything that way, nothing sent is refused, and a sale of nothing records nothing |
| Payments.AcceptedPayments | apps/api/src/payments.ts:57-131 | an accepted list adds up to the sale, uses each way once, never mixes debt with money: at most three parts |
| Payments.RefundSplit | apps/api/src/payments.ts:187-208 | each share is rounded, the biggest part is overwritten in place with the rest, empty parts are dropped |
| Payments.FindBiggest | apps/api/src/payments.ts:187-208 | the loop finds the first of the biggest payments |
| Payments.PatchedParts | apps/api/src/payments.ts:187-208 | up to three parts are never negative, add up to the refund, and within the sale none exceeds what it paid |
| Payments.BiggestTakesTheRest | apps/api/src/payments.ts:187-208 | the remainder fits into the biggest part |
| Payments.RefundIsConserved | apps/api/src/payments.ts:57-208 | on every accepted list a refund splits into positive parts that sum exactly to it, each by a way paid, none above it when refund is within the sale |
| Payments.SplitAddsUpIff | apps/api/src/payments.ts:187-208 | with any number of parts the split adds up to the refund exactly when the rounded shares of all but the biggest do not exceed it |
| Payments.FourPartsDoNotAddUp | apps/api/src/payments.ts:187-208 | four equal parts lose money, so the bound of three, which every accepted sale meets, matters |
| Payments.RefundHistoryStaysNear | apps/api/src/routes/pos.ts:1582-1604 | over any refunds of one sale a way returns its exact share to half a tenge a refund, the remainder's part to half a tenge a refund and other part, and so at most that much more than it took |
| Payments.SeveralWaysOverdraw | apps/api/src/payments.ts:187-208 | on several ways of paying, refunds of one tenge each send the whole sale back by one way |
| Payments.NoWayOverdrawnIff | apps/api/src/routes/pos.ts:1588-1604 | over every history of refunds within an accepted sale no way returns more than it took, exactly when it was paid one way |
| Payments.ThreeRefundsDrift | apps/api/src/routes/pos.ts:1588-1604 | an accepted sale paid 100, 100 and 100 that returns 102 in cash after three refunds of 100 |
| RefundRuns.ReturnsWithinPaymentsIff | apps/api/src/routes/pos.ts:1540-1604 | the same over every series of returns of every sale of that money: with several ways, a sale of units at a tenge each, returned one by one, goes back by one way |
| Settlements.AllocatePayment | apps/api/src/settlements.ts:60-80 | filtering open charges, sorting and walking them is the greedy draw over all charges in date order |
| Settlements.PaymentIsAccountedFor | apps/api/src/settlements.ts:60-80 | allocations plus unapplied equal the payment, nothing beyond what is owed, and money stays over only when nothing is left to close |
| Settlements.AllocationsAreReal | apps/api/src/settlements.ts:60-80 | a payment is allocated to open documents only, a positive amount to each; without money nothing is allocated and nothing left over |
| Settlements.OlderDebtsCloseFirst | apps/api/src/settlements.ts:60-80 | money reaches a charge only when every older one is closed |
| Settlements.TwoPaymentsAreOne | apps/api/src/settlements.ts:60-80 | paying a then b leaves every charge and the money over as paying a + b |
| Settlements.BuildAging | apps/api/src/settlements.ts:95-109 | the loop files every charge, with the buckets of the next row |
| Settlements.EachBucketIsItsAge | apps/api/src/settlements.ts:84-109 | each bucket is the sum of the open debts whose age is under 8 days, 8 to 30, 31 to 60, or 61 days and more |
| Settlements.BalanceMeans | apps/api/src/settlements.ts:33-43 | all that was charged, all that was paid with the money not applied, their difference, and how many documents are still open |
| Settlements.BalanceMeetsAging | apps/api/src/settlements.ts:33-109 | balance equals the aging total less unapplied exactly when no charge is over-settled |
| Settlements.PaymentKeepsTheBooks | apps/api/src/settlements.ts:33-109 | a payment lowers the balance by its whole amount, over-settles nothing and keeps balance and aging meeting |
| Base32.Base32Encode | apps/api/src/totp.ts:34-48 | the accumulator that wraps at 32 bits writes the encoding of the whole number |
| Base32.Base32Decode | apps/api/src/totp.ts:50-69 | stripping, upper-casing and the wrapping accumulator read the number back, or refuse a foreign symbol |
| Base32.EncodingIsTheBitStream | apps/api/src/totp.ts:34-48 | bit by bit the encoding is the bytes in groups of five, zero-filled: section 6 of RFC 4648 |
| Base32.WordSeesWindow | apps/api/src/totp.ts:38-45 | the five or eight bits read lie inside the word, so the bits shifted out are never missed |
| Base32.RoundTrip | apps/api/src/totp.ts:34-69 | decoding the encoding of any bytes gives them back, and so does any text that cleans to it |
| Base32.LowerCaseDecodes | apps/api/src/totp.ts:50-69 | a secret typed in lower case is the same secret |
| Base32.DecodesIff | apps/api/src/totp.ts:50-69 | a text is refused exactly for a unit that is no letter, no digit from 2 to 7, no separator and no letter that upper-cases into the alphabet |
| Base32.SeparatorsDoNotMatter | apps/api/src/totp.ts:50-54 | spaces, hyphens and = may be inserted anywhere |
| Base32.CanonicalIff | apps/api/src/totp.ts:50-69 | a text that decodes is the encoding of its bytes exactly when its unused bits are zero and fewer than five |
| Marking.ParseMarkedCode | apps/api/src/marking.ts:65-109 | the scan terminates and gives the verdict on the elements of the text |
| Marking.ScanInvertsPrint | apps/api/src/marking.ts:72-97 | reading inverts printing for any list of well-formed elements |
| Marking.PrintInvertsScan | apps/api/src/marking.ts:72-97 | whatever was read is what the text prints |
| Marking.ParsesIff | apps/api/src/marking.ts:65-109 | the parse accepts exactly the texts that print fields naming a pack, and says which pack |
| Marking.RefusalSays | apps/api/src/marking.ts:65-109 | why a text is refused: nothing in it, no fields, no GTIN, no serial, or one too long |
| Marking.FieldsInAnyOrder | apps/api/src/marking.ts:65-109 | one GTIN and one serial of 1 to 20 characters are found whatever the order, number and tail of the fields |
| Marking.CleanedShown | apps/api/src/marking.ts:67-69 | white space around a code and brackets inside it change nothing |
| Marking.BracketsComeOff | apps/api/src/marking.ts:67-68 | the bracketed form printed for people reads as the plain one |
| Marking.SerialIsCutOnlyAtSeparator | apps/api/src/marking.ts:92-96 | a serial is read as it is exactly when a separator or the end of the text follows |
| Marking.WithoutSeparatorTheTailIsSerial | apps/api/src/marking.ts:92-106 | without a separator the fields after it become part of the serial, or the code is refused above twenty characters |
| Marking.KeyInjective | apps/api/src/marking.ts:117-119 | parsed packs share a key exactly when they are the same pack |
| MarkingService.ReadLineCodes | apps/api/src/marking-service.ts:93-107 | the loop reads every text or stops at the first unreadable |
| MarkingService.ReadLineIff | apps/api/src/marking-service.ts:93-107 | a line is accepted exactly when every text is a code and there are as many as goods |
| MarkingService.ReadLineRefusal | apps/api/src/marking-service.ts:93-107 | the first text that is no code is the refusal; when all are, the count is |
| MarkingService.FindDuplicate | apps/api/src/marking-service.ts:116-124 | the first code that repeats an earlier one is found, and none exactly when there is none |
| MarkingPick.PickCodes | apps/api/src/marking-pick.ts:91-129 | refused at the first unreadable, repeated or foreign scan, in that order per scan; otherwise the plan of the next two rows |
| MarkingPick.PickIff | apps/api/src/marking-pick.ts:91-129 | when a pick is accepted: nothing to pick, or as many different outstanding codes as goods, or everything left |
| MarkingPick.PickRefused | apps/api/src/marking-pick.ts:91-129 | what refuses a pick and with what figures; of the scans, the first that is no code, repeats one or is no code of these goods |
| MarkingPick.PickMeans | apps/api/src/marking-pick.ts:91-129 | an accepted pick names the rows of its scans, or all there are without scans: different outstanding rows, as many as the goods unless no code is known |
| MarkingPick.PlanDocumentCodes | apps/api/src/marking-pick.ts:233-260 | lines of one product are picked as one, products in order of first appearance, the first refusal refuses the document |
| MarkingPick.DocumentIff | apps/api/src/marking-pick.ts:233-260 | a document is accepted exactly when nothing is outstanding or every product it names, its lines together, may be picked |
| MarkingPick.DocumentTakesTheScanned | apps/api/src/marking-pick.ts:233-260 | of every product it names it takes the codes that were scanned, or all there are when none was |
| MarkingPick.DocumentTakesWhatItMoves | apps/api/src/marking-pick.ts:233-260 | a document takes no code twice, under one product or several, and takes as many codes of each product as goods |
| MarkingSale.ResolveSaleCodes | apps/api/src/marking-sale.ts:48-126 | refused at the first objection, product by product and code by code; accepted, and refused for what, as the next rows say |
| MarkingSale.SaleIff | apps/api/src/marking-sale.ts:48-126 | accepted exactly when the scans of every scanned product are different codes of packs in stock here as that product, as many as are sold of it, and every product sold only by code is scanned in full |
| MarkingSale.SaleSpendsWhatWasScanned | apps/api/src/marking-sale.ts:48-126 | it spends the rows of the codes scanned under their products, and no others |
| MarkingSale.FirstProductDecides | apps/api/src/marking-sale.ts:48-126 | the first scanned product that may not be sold refuses the sale with its own verdict |
| MarkingSale.ProductRefusal | apps/api/src/marking-sale.ts:74-81 | unreadable, then miscounted, then repeated scans refuse a product before any code is looked up |
| MarkingSale.FirstBadCodeDecides | apps/api/src/marking-sale.ts:83-101 | the first code that may not be sold decides, and each state of a row has its own refusal |
| MarkingSale.SaleMeans | apps/api/src/marking-sale.ts:48-126 | an accepted sale spends different codes that lie here under their own products, one a unit for goods sold only by code |
| MarkingEntry.ResolveIncomingCodes | apps/api/src/marking-incoming.ts:38-80 | refused at the first unreadable line, repeated code or uncovered product, in that order; otherwise as IncomingMeans says |
| MarkingEntry.IncomingIff | apps/api/src/marking-incoming.ts:38-80 | accepted exactly when every line with scans brings a readable one a unit, no product repeats a code, and every product sold only by code brings as many as units |
| MarkingEntry.IncomingRefusal | apps/api/src/marking-incoming.ts:38-80 | refused for the first line that does not read, then for a repeated code, then for the first product sold only by code that is not covered |
| MarkingEntry.IncomingMeans | apps/api/src/marking-incoming.ts:38-80 | goods sold only by code arrive with exactly one code a unit, others with no more codes than units, none twice in a product |
| MarkingEntry.DeliveryRepeatsNothingIff | apps/api/src/marking-incoming.ts:38-80 | the codes of an accepted delivery are all different exactly when no two lines of different products carry scans of one code |
| MarkingEntry.OnePackTwoProductsPasses | apps/api/src/marking-incoming.ts:51-61 | one pack scanned as two products passes the check and stands twice among the codes to write |
| MarkingEntry.ResolveStockCodes | apps/api/src/marking-stock.ts:26-75 | the checks in their order; accepted exactly as StockCodesIff says |
| MarkingEntry.StockCodesIff | apps/api/src/marking-stock.ts:26-75 | shelf goods are marked exactly when the scans are different unknown codes and there are uncoded units for all of them |
| MarkingEntry.StockCodesRefusal | apps/api/src/marking-stock.ts:26-75 | otherwise refused for the first of: nothing scanned, an unreadable scan, a repeated one, a code on record, more codes than units without one |
| MarkingRuns.StepKeepsInv | apps/api/src/routes/pos.ts:1235-1247 | receiving, marking, selling, returning, removing: for goods sold only by code, codes in stock never exceed units on hand; no pack has two rows; sold codes know where they were sold |
| MarkingRuns.KnownIff | apps/api/src/routes/pos.ts:8032-8060 | a serial is reported as known exactly when a code on record is among the scans |
| MarkingRuns.ReturnKeepsInv | apps/api/src/routes/pos.ts:1612-1650 | a return brings back no more codes than goods, at the place of sale |
| MarkingRuns.RemovalKeepsInv | apps/api/src/marking-pick.ts:233-260 | a removal takes the codes of what it removes |
| MarkingRuns.MarkingKeepsInv | apps/api/src/routes/pos.ts:8032-8060 | marking shelf goods adds codes only for units on hand |
| MarkingSteps.ReturnMeans | apps/api/src/routes/pos.ts:1612-1650 | a return goes through exactly when its codes may be picked; goods come back to the place of sale, with the codes scanned or all that are left, and nothing else changes |
| MarkingSteps.RemovalMeans | apps/api/src/marking-pick.ts:233-260 | a removal goes through exactly when its goods are there and its codes may be picked; they leave together |
| MarkingSteps.SaleMeans | apps/api/src/routes/pos.ts:1235-1247 | a sale goes through exactly when its goods are there and its scans may be sold; the goods leave and the scanned codes are the document's |
| MarkingSteps.ReceiveMeans | apps/api/src/marking-incoming.ts:38-80 | a delivery that is accepted brings its goods and a row in stock for every code scanned |
| MarkingSteps.MarkingMeans | apps/api/src/routes/pos.ts:8032-8060 | shelf goods are marked exactly when the scans are different codes, none on record, with uncoded units for all; each code gets a row and no goods move |
| MarkingRuns.RunKeepsInv | apps/api/src/marking-pick.ts:3-14 | the same over any run |
| MarkingRuns.CodesNeverExceedGoods | apps/api/src/reconciliation.ts:222-251 | from an empty shop, after any operations, at every location |
| MarkingRuns.BoundedIffSoldOnlyByCode | apps/api/src/reconciliation.ts:236-237 | codes stay within goods over every run and everywhere exactly for the products sold only by code |
| MarkingRuns.OtherGoodsOutliveTheirStock | apps/api/src/reconciliation.ts:236-237 | a coded unit of any other product, sold without a scan, leaves its code on an empty shelf |
| MarkingRuns.ShopRunKeepsInv | apps/api/src/routes/pos.ts:2900-2912 | with the flag switched during the run, what the runs keep stays, if each switch to "only by code" finds the product within its goods |
| MarkingRuns.FlagsKeepCodesWithinGoodsIff | apps/api/src/routes/pos.ts:2900-2912 | from an empty shop, codes stay within goods at every moment exactly when each such switch does |
| MarkingRuns.FlagMayComeTooLate | apps/api/src/routes/pos.ts:2900-2912 | a coded unit sold without a scan before its product is switched leaves a code without goods |
| Batches.AllocateFefo | apps/api/src/batches.ts:31-49 | unexpired batches are drawn soonest first, and the shortage is what the request leaves after them |
| Batches.AllocateForRemoval | apps/api/src/batches.ts:70-86 | all batches are drawn soonest first, expired ones included |
| Batches.ExpiredIsNeverSold | apps/api/src/batches.ts:31-49 | a sale is never given an expired batch |
| Batches.SoonestGoesFirst | apps/api/src/batches.ts:31-49 | a batch is touched only when every unexpired one that expires sooner is empty |
| Batches.RemovalGoesInOrder | apps/api/src/batches.ts:70-86 | a removal touches a batch only when every one that expires sooner is empty, expired ones first |
| Batches.SellableCanBeServed | apps/api/src/batches.ts:98-161 | what the till offers can be handed over: any shortage in batches is stock no batch covers, and zero for a pharmacy |
| Batches.SellableIsAllButExpired | apps/api/src/batches.ts:98-161 | a shop may sell everything but what has expired and what is held back; a pharmacy only what fresh batches cover |
| Batches.BatchTable.RemoveFromBatches | apps/api/src/stock.ts:509-560 | the query, the map of remaining quantities and the loops leave the rows the lines, one after another, leave |
| Batches.SeveralLinesAreOne | apps/api/src/stock.ts:533-559 | however a product is split into lines, its batches end as one line for the whole would leave them |
| Batches.BatchedAfter | apps/api/src/stock.ts:509-560 | what a line takes from the batches of its product by either rule, and nothing from any other |
| BatchRuns.ReportIsExact | apps/api/src/reconciliation.ts:155-167 | the report holds exactly the products whose batches exceed the stock, with the difference |
| BatchRuns.StockForIsLastRow | apps/api/src/reconciliation.ts:155-167 | the stock a product is compared with is its row's quantity, and zero without a row |
| BatchRuns.ReportIsInOrder | apps/api/src/reconciliation.ts:155-167 | the largest excess comes first |
| BatchRuns.StepKeepsInv | apps/api/src/batches.ts:149-161 | deliveries, sales the till admits by batches or by free stock, returns into a batch and removals of goods on hand keep batches within stock |
| BatchRuns.ArrivalMeans | apps/api/src/routes/pos.ts:1731-1750 | goods that arrive or come back raise the stock of their product at their place, and its batches when they have one, and nothing else |
| BatchRuns.DepartureMeans | apps/api/src/stock.ts:509-560 | goods that leave lower the stock by what the lines take, and the batches by as much of it as these hold: unexpired ones for a sale, all for a removal |
| BatchRuns.AdmittedFits | apps/api/src/routes/pos.ts:1069-1092 | what an admitted sale takes beyond the unexpired batches is stock no batch covers, whether or not the product has batches |
| BatchRuns.OfferIsWhatMayBeSold | apps/api/src/routes/pos.ts:1069-1092 | what the till offers: the free stock when no batch has goods, otherwise all that has not expired, for a pharmacy what fresh batches hold |
| BatchRuns.ReturnKeepsInv | apps/api/src/routes/pos.ts:1731-1750 | goods returned into the batch they left, with the stock, keep batches within stock |
| BatchRuns.BatchesNeverExceedStock | apps/api/src/reconciliation.ts:134-167 | from an empty shop, over any run, batches never exceed stock and the report is empty |
| Replenishment.BuildDailyClosingBalances | apps/api/src/replenishment.ts:33-52 | the closing balance of a day is today's less everything that moved on the days after it |
| Replenishment.EstimateDailyDemand | apps/api/src/replenishment.ts:58-99 | sales less returns by day, summed over the days the goods could be bought; the rate is their quotient, never negative, and every figure as the next row says |
| Replenishment.EstimateMeans | apps/api/src/replenishment.ts:58-99 | the days counted are those that end with something on the shelf or with something net sold, what was sold is summed over them, and the rate is one over the other |
| Replenishment.EmptyDaysRaiseTheRate | apps/api/src/replenishment.ts:58-99 | each day with an empty shelf and no net sale raises the rate above sales over the calendar |
| Replenishment.DemandIsNeverUnderstated | apps/api/src/replenishment.ts:58-99 | the rate is never below sales over the whole window, is the quotient of the figures shown, and is unknown only when nothing net was sold |
| Replenishment.WindowReachesWhatWasRead | apps/api/src/replenishment.ts:247-265 | the window is as asked when nothing was cut; otherwise it ends with the day of the oldest row read, never wider than asked and never less than a day |
| Replenishment.NarrowedWindowIsTruthful | apps/api/src/replenishment.ts:229-265 | over the narrowed window a cut read gives the balances of the whole ledger, and its sales on every day but possibly the last |
| Replenishment.LastDayIsWholeIff | apps/api/src/replenishment.ts:229-265 | when the rows beyond the limit are sales, a day's figure is whole exactly when it is not the last day, nothing was cut, or the cut falls between two days |
| Replenishment.LastDayMayBeShort | apps/api/src/replenishment.ts:229-265 | at any limit, the ledger whose last day is read in part |

## Left out

- `routes/`: requests, rights, tariffs and error texts; only the order in which routes call the functions above is used, as the runs state it.
- Floating-point error: shares and quantities are exact; the original computes with doubles.
- Movement details that no figure depends on: document, author and time of a movement, and the bin code repeated in an allocation.
- The branch of `runIdempotent` without a key: it runs the work once and guards nothing.
- Hash collisions, and JSON values a request body cannot hold (`NaN`, `toJSON`): the hash stands for its canonical text.
- Holds under stale reads: the guards at `stock.ts:179-184` and `stock.ts:332-334` do not mention `blocked`, so `Promises` speaks of transactions that read their own rows; `StockRuns` covers stale reads for quantity, reservations and ledger.
- Two bins with one code and one amount: the comparator of `bins.ts:84-92` answers 1 both ways; here they keep their order.
- Product-level counts (`counts.ts:40-61`): the same arithmetic without shelves.
- `reconcileCodes` (`reconciliation.ts:239-251`): the same comparison as `reconcileBatches`; what it checks is `MarkingRuns.CodesNeverExceedGoods`.
- Quarantine of codes, receipt of transfers and count shortfalls of coded goods: codes stay where they are there, or move together with goods, by routes not modelled.
- A split the register sends along with a return (`routes/pos.ts:1588-1594`): it is checked like the payments of a sale and taken as sent.
- Two shelf markings, or two returns of one sale, deciding on the same stale rows: `MarkingRuns` runs transactions one after another, and a history of returns is one return at a time.
- A scan that is not text (`parseMarkedCode` answers `empty` for it).
- Base32.Base32Decode: does not carry the offending symbol in the refusal; letters outside ASCII that upper-case into the alphabet are modelled, any other is refused as itself.
- Payments.ResolveSalePayments: the untyped body is read as optional text and an optional number; other JavaScript types are not told apart.
- Marking.ParseMarkedCode: says nothing about the GTIN's characters, because the code checks its length only.
- `recommendOrder`, `splitOnOrder`, `classifyExpiry`, `untrackedPolicy`, `validatePutaway`, `findStockShortages`, `cashPortion`, `totalsByMethod`, `resolveCreditSale`, `verifyCode`: one-branch rules and sums.
- Negative first quantities in `createStockWithMovement`: no caller passes one, and `StockRuns` does not.
