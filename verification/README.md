# GRIDGO API: verified core

A Dafny 4.11 model of the parts of the GRIDGO print marketplace API where a small slip costs money or
misleads a client: the shop calendar that dates are promised from, the decoders that inspect uploaded
artwork, the order money that the database itself enforces, the approval decisions, and the dependency
audit. `dafny verify dfyconfig.toml` checks everything.

| files | what they model |
|---|---|
| `Calendar`, `OpenTime`, `Projection` | opening hours as a set of milliseconds; the bounded day walk and its consumers; the projected dates |
| `PngFilters`, `PngPredictor`, `Adam7`, `PngRows` | the two PNG unfilters, the interlace passes, the streaming two-line row reader |
| `Ascii85`, `PngChunks`, `PageBoxes` | the PDF text filter, the chunk walks and their table checksum, the one-pass page-box scan |
| `ServiceFee`, `OrderMoney`, `RefundFunds`, `Sums` | progressive fees, the money of a committed order, collections, refunds and shop payouts over whole runs of transactions; sums over sets of rows |
| `ApprovalCases`, `AuditCheck` | the versioned, idempotent approval decisions; the memoised audit search |

How it is built. Code that works in steps is a method with loops or a class whose methods reassign its
fields, proved equal to a specification function or predicate; what the system promises is then proved
of that specification. Specifications are independent of the algorithms: open time is counted in a set
of instants, a fee is a sum over single centavos, a checksum feeds single bits, a decoded row is the
only row that satisfies the filter equations, a box owner is an innermost enclosing dictionary, a severe
advisory is reached along a path. Where a specification function carries a rule of the source (what a
closure closes, what counts as paid, where a decision moves a case), a lemma beside it states the rule
again from the data alone, so that the rule does not rest on the function that computes it. Instants are integers of milliseconds, days are day numbers, money is
an unbounded integer with the stated bounds. A database transaction is a list of row changes that its
guards may refuse, with the deferred checks at commit.

Two things the proofs brought out:

- `addWorkingDays` says it gives the end of the nth open day; the code gives the close of the first
  window of that day that is still to come (`src/availability.js:296-310`). That is the day's last close
  exactly when one window of the day still closes after the start, which on any later day means that the
  day has one window (`OpenTime.DayEndExactlyWhen`). On a day open from 8 to 12 and from 13 to 17 the
  result is noon (`OpenTime.SplitDayEndsEarly`).
- `checkAudit` keys advisories by package, address and severity joined with colons
  (`scripts/audit-check.js:43`), and keeps the last set under each key. A package named after an excepted
  package with `:https` appended can have an advisory with the excepted one's key, and a report then
  passes although one of its severe advisories has no exception (`AuditCheck.PassesUncovered`). The
  verdict is wrong exactly when some severe advisory has no exception and each such one is followed, in
  the order of the search, by a covered one with its key (`AuditCheck.WrongExactlyWhen`). A package name
  on npm holds no colon, so this is a report that `checkAudit` accepts as JSON, not one the registry
  publishes.

## Model

| member | source | states |
|---|---|---|
| `Calendar.WindowsOrdered` | src/availability.js:168-182 | Whatever the schedule, closures and extension included, the windows of a day are non-empty stretches, sorted and disjoint. |
| `Calendar.OpenMeaning` | src/availability.js:161-227 | The shop is open at an instant exactly when no closure holds its local day, both ends included, and the minute is in a weekly window, or in the day's extension after every regular window has ended. |
| `Calendar.ClosedThroughout` | src/availability.js:161-169 | From the local midnight a closure starts on to the one after its last day the shop is never open, and no open millisecond is counted. |
| `Calendar.ScheduleMeaning` | src/availability.js:70-132 | A schedule is accepted exactly when its offset is within 14 hours, it has windows, each a stretch of one weekday, no minute lies in two of them, closures are not reversed, and the extension is a stretch that ends by 23:59. |
| `OpenTime.WalkOpenTime` | src/availability.js:191-217 | The bounded day walk, with its early exits, hands its consumer exactly the stretches of open time from the starting minute over 366 days, in order, up to the consumer's verdict. |
| `OpenTime.WalkCovered` | src/availability.js:191-217 | Cut at the starting instant, the stretches handed over are exactly the open milliseconds up to the walk's horizon. |
| `OpenTime.HorizonMeaning` | src/availability.js:191-217 | The walk ends at the local midnight 366 days after the one its starting day began at. |
| `OpenTime.RefusedInputs` | src/availability.js:235-311 | Each operation refuses exactly a bad amount first and a bad schedule next, and an end at or before the start counts nothing. |
| `OpenTime.OpeningMillisecondsBetween` | src/availability.js:279-294 | For every valid schedule and every two instants, the result is the number of open milliseconds between them. |
| `OpenTime.AddOpeningMillisecondsByWalk` | src/availability.js:251-262 | The stateful consumer computes the function that the opening-time lemmas are about, errors included. |
| `OpenTime.AddOpeningExact` | src/availability.js:251-262 | Adding a duration fails exactly when the walk holds fewer open milliseconds than max(duration, 1), and otherwise gives the least instant with that many open milliseconds before it (the next open instant for zero). |
| `OpenTime.AddOpeningComposes` | src/availability.js:251-262 | If adding a + b succeeds then adding a and then b gives the same instant. |
| `OpenTime.AddOpeningMonotone` | src/availability.js:251-262 | A later start or a longer duration never finishes earlier. |
| `OpenTime.AddWorkingMinutesByWalk` | src/availability.js:235-248 | The minute consumer computes the function that the minute lemmas are about, errors included. |
| `OpenTime.WorkingMinutesAreOpeningTime` | src/availability.js:235-248 | Adding minutes is adding that opening time, rounded up to a minute, from the start of the current minute. |
| `OpenTime.AddWorkingMinutesMonotone` | src/availability.js:235-248 | A later start or more minutes never finish earlier. |
| `OpenTime.AddWorkingMinutesAdvances` | src/availability.js:235-248 | A positive amount of work ends after it starts. |
| `OpenTime.WorkingMinutesBetweenByWalk` | src/availability.js:265-276 | The counting consumer computes the function that the inverse lemma is about, errors included. |
| `OpenTime.WorkingMinutesMeaning` | src/availability.js:265-276 | The minutes between are the open milliseconds from the start of the first minute, rounded half up; it fails exactly when the walk holds no open instant from the last millisecond before the end on. |
| `OpenTime.WorkingMinutesBetweenMonotone` | src/availability.js:265-276 | A later end never counts fewer minutes. |
| `OpenTime.WorkingMinutesInverse` | src/availability.js:235-276 | Whenever minutes can be added, from any start, seconds included, counting back to the result finds exactly those minutes rounded up to a whole number. |
| `OpenTime.WholeMinutesAgree` | src/availability.js:235-262 | On a whole-minute start and whole minutes the minute form and the millisecond form agree, failures included. |
| `OpenTime.AddWorkingDaysByWalk` | src/availability.js:297-311 | The day-counting consumer computes the function that the working-day lemmas are about, errors included. |
| `OpenTime.AddWorkingDaysExact` | src/availability.js:297-311 | Adding n working days gives the first remaining close of the open day with exactly n open days before it, and fails exactly when the walk holds at most n open days. |
| `OpenTime.DayEndExactlyWhen` | src/availability.js:296-310 | The result is the last close of its open day exactly when one window of that day still closes after the start; on a day after the first, exactly when the day has one window. |
| `OpenTime.SplitDayEndsEarly` | src/availability.js:296-310 | On a day open from 8 to 12 and from 13 to 17 the result is noon, five hours before the end of the day. |
| `OpenTime.AddWorkingDaysMonotone` | src/availability.js:297-311 | A later start or more days never finish earlier. |
| `Projection.FinishOrdered` | src/availability.js:327-372 | Work starts before it is ready and the promise is never before the ready date, later exactly when there is an allowance. |
| `Projection.FinishMeaning` | src/availability.js:327-372 | By the start the queue is worked off; by the ready date the shop has been open for the turnaround and has reached the open day the units need, one of the two at that very instant; the promise adds the allowance in opening time. |
| `Projection.CapacityDaysFewest` | src/availability.js:350-353 | The open days needed are the fewest whose daily capacity holds every unit, and one fewer than that are added to the first. |
| `Projection.CapacityUnknown` | src/availability.js:350-353 | Without a positive whole count of units and of daily capacity no day is added. |
| `Projection.ProjectionRefused` | src/availability.js:327-348 | A turnaround that is not positive or a negative queue is refused, and no other duration within safe milliseconds is. |
| `Projection.CapacityDaysGrow` | src/availability.js:327-372 | More units or less daily capacity never need fewer extra days. |
| `Projection.FinishMonotone` | src/availability.js:327-372 | None of the three dates moves earlier when now, queue, turnaround, units or allowance grow. |
| `Projection.MissesStayMissed` | src/availability.js:381-386 | A job that misses a deadline still misses it, or an earlier one, when any of these grow. |
| `Projection.DeadlineMeaning` | src/availability.js:375-386 | A shop fits a deadline exactly when nothing else blocks it and the allowance fits in its opening time between the ready date and the deadline; the ready date alone is not enough. |
| `PngFilters.FilteredDecodes` | src/artwork-colors.js:624-645 | A raw row satisfies the decoding equations of its own filtered form, under every filter. |
| `PngFilters.DecodesOnce` | src/artwork-colors.js:624-645 | No other row satisfies them. |
| `PngFilters.UnfilterInvertsFilter` | src/artwork-colors.js:624-645 | Decoding a filtered row gives back the raw row, for every filter, pixel width and row above. |
| `PngFilters.PaethFormsAgree` | src/artwork-inspection.js:557-565 | The in-place decoder's comparison of distances and the separate predictor pick the same neighbour. |
| `PngFilters.PredictionCases` | src/artwork-colors.js:624-645 | The in-place decoder's special case for the first pixel is the general prediction with absent neighbours read as zero; the average is half the sum of both neighbours. |
| `PngFilters.Unfilter` | src/artwork-colors.js:624-645 | Decoding in place leaves, byte by byte, the sum modulo 256 of the stored byte and nothing, the left byte, the upper byte, half the sum of both, or the neighbour nearest to left + up - upLeft with ties in that order; the filter byte and the row above stay. |
| `PngFilters.DecodedPlain` | src/artwork-inspection.js:530-565 | The decoded row satisfies these plain sums for every filter. |
| `PngPredictor.DecodeRow` | src/artwork-inspection.js:530-555 | Decoding one row into a fresh buffer gives the same row as decoding in place, in the same plain sums. |
| `PngPredictor.UndoPngPredictor` | src/artwork-inspection.js:530-555 | The whole rows of a stream are cut and decoded, each against the row above it; input shorter than one row comes back untouched. |
| `PngPredictor.PredictorInvertsFilters` | src/artwork-inspection.js:530-555 | Every image comes back from its filtered rows, whatever filter each row used. |
| `Adam7.CellIsPixel` | src/artwork-colors.js:755-757 | Each cell of a pass is a pixel of the image, and the pixel fixes the pass, the column and the row. |
| `Adam7.PixelHasCell` | src/artwork-colors.js:755-757 | Each pixel has a cell in its pass. |
| `Adam7.PassesPartition` | src/artwork-colors.js:648 | For every width and height each pixel lies in exactly one cell of exactly one of the seven passes. |
| `Adam7.PassesHoldEveryPixel` | src/artwork-colors.js:755-758 | The pixels of the passes that are kept add up to width times height, interlaced or not. |
| `Adam7.FirstPassKept` | src/artwork-colors.js:755-758 | An image with a pixel always has a first pass to start. |
| `Adam7.PassesInOrder` | src/artwork-colors.js:755-758 | The passes kept are the numbered passes that have a cell, in rising order, each exactly as wide and as high as its cells; an image that is not interlaced is one pass, or none when it is empty. |
| `PngRows.RowSizes` | src/artwork-colors.js:755-770 | A line is one filter byte and the fewest bytes that hold its pixels, and a pixel counts as the fewest bytes that hold it. |
| `PngRows.RowReader.StartPass` | src/artwork-colors.js:766-774 | A pass begins with two fresh, different lines of its stride and a row of zeros above. |
| `PngRows.RowReader.FinishRow` | src/artwork-colors.js:776-791 | One row joins the finished rows, and the two lines change places or are replaced, so the line being filled is never the row above. |
| `PngRows.RowReader.Fill` | src/artwork-colors.js:804-812 | Copying bytes into the line being filled leaves the row above as it was. |
| `PngRows.RowReader.Data` | src/artwork-colors.js:804-815 | A chunk is taken in whole until the last pass is complete, and what follows is ignored. |
| `PngRows.InStepFinish` | src/artwork-colors.js:776-791 | Whatever bytes come later, finishing a line keeps the rows done and the rows to come those of all the bytes fed. |
| `PngRows.ReadRows` | src/artwork-colors.js:755-815 | However the inflated bytes are cut into chunks, the rows counted are those of cutting the bytes by each pass's stride and decoding each against the row above it. |
| `PngRows.ReadingInvertsWriting` | src/artwork-colors.js:755-815 | Every image, whole or interlaced and under any choice of filters, is read back row for row. |
| `PngRows.ReadBack` | src/artwork-colors.js:755-815 | For every size, interlaced or not, an image written pass by pass and inflated in any chunks gives its own rows to the reader. |
| `Ascii85.DecodeStream` | src/artwork-colors.js:213-246 | The loop gives the decoded bytes or the fault met first, and never more bytes than the limit. |
| `Ascii85.WordKeeps` | src/artwork-colors.js:213-246 | The kept bytes of a partial group survive anything smaller than what the missing bytes can hold. |
| `Ascii85.PaddedValue` | src/artwork-colors.js:213-246 | Padding with digit 84 never lowers a group's value and adds less than the missing bytes can hold. |
| `Ascii85.PartialGroup` | src/artwork-colors.js:213-246 | A last group of n + 1 characters gives back exactly its n bytes. |
| `Ascii85.DecodeInvertsEncode` | src/artwork-colors.js:213-246 | Decoding an encoding gives back the bytes when they fit and the too-large fault when they do not, z groups and partial groups included. |
| `Ascii85.StreamRoundTrip` | src/artwork-colors.js:213-246 | The same for whole streams, with whitespace anywhere, an optional start marker, and anything after the end marker. |
| `Ascii85.SpaceIgnored` | src/artwork-colors.js:213-246 | Dropping a byte changes nothing exactly when it is one of the white space characters, wherever it stands. |
| `Ascii85.KnownGroups` | src/artwork-colors.js:213-246 | "Man " is written 9jqo^ and four zero bytes z, and both are read back. |
| `Ascii85.RefusedCharacters` | src/artwork-colors.js:213-246 | A body with a character outside ! to u other than z is refused, and one made only of ! to u is never refused as not being ASCII85. |
| `PngChunks.FeedConcat` | src/artwork-file-check.js:11-14 | The checksum register is built up over the parts of a message. |
| `PngChunks.TableStep` | src/artwork-file-check.js:6-14 | One table lookup equals feeding eight bits one at a time. |
| `PngChunks.BuildTable` | src/artwork-file-check.js:6-10 | The table holds eight shift rounds for each of its 256 values. |
| `PngChunks.CrcUpdate` | src/artwork-file-check.js:11-14 | The table form equals the bitwise definition of section 3.4 of RFC 2083. |
| `PngChunks.PngChunksInMemory` | src/artwork-file-check.js:15-28 | A file is accepted exactly when it is one complete run of sound chunks with image data, ended by an empty end chunk and nothing after it. |
| `PngChunks.StreamCrc` | src/artwork-file-check.js:106-131 | Reading a chunk in bounded pieces gives the register of the whole chunk. |
| `PngChunks.PngChunksStreamed` | src/artwork-file-check.js:106-131 | The streamed check accepts exactly such files of at most 100,000 chunks. |
| `PngChunks.WalkMeaning` | src/artwork-file-check.js:15-28 | The walk accepts exactly the files that decompose into a complete run within its chunk budget. |
| `PngChunks.RunUnique` | src/artwork-file-check.js:15-28 | A file decomposes in at most one way. |
| `PngChunks.ChunkFields` | src/artwork-file-check.js:15-28 | A chunk is sound exactly when its length and its checksum, most significant byte first, are those of its data and of its kind and data. |
| `PngChunks.KnownChecksum` | src/artwork-file-check.js:6-14 | The checksum of an empty end chunk is AE426082. |
| `PngChunks.ChecksAgree` | src/artwork-file-check.js:15-131 | Streaming never accepts what the in-memory walk refuses, and the two agree up to 100,000 chunks. |
| `PageBoxes.StackHolds` | src/artwork-inspection.js:312-337 | Below the nesting limit the stack holds exactly the enclosing dictionaries, outermost first. |
| `PageBoxes.TopIsInnermost` | src/artwork-inspection.js:312-337 | Its top is the innermost enclosing dictionary. |
| `PageBoxes.PoppedGone` | src/artwork-inspection.js:332-336 | A dictionary that was closed never comes back. |
| `PageBoxes.JudgedIsInherited` | src/artwork-inspection.js:281-342 | The scan's judgement of a box equals the simple definition: its innermost dictionary closes and directly holds a page-tree mark. |
| `PageBoxes.NestingShallow` | src/artwork-inspection.js:331-333 | While fewer than 4,096 dictionaries are open around every opening, none is dropped from the stack. |
| `PageBoxes.DeepOpensDropped` | src/artwork-inspection.js:331-333 | Of dictionaries opened one in another only the outermost 4,096 are kept on the stack. |
| `PageBoxes.LimitsMeant` | src/artwork-inspection.js:281-302 | The limits are those plain counts: nesting below 4,096 and at most 2,000 page-tree marks. |
| `PageBoxes.FindFirst` | src/artwork-inspection.js:282-298 | Repeated matching finds the first matches in order, as many as there is room for. |
| `PageBoxes.Scan.TakeDelimiter` | src/artwork-inspection.js:318-337 | One turn of the scan keeps every box met in exactly one place: with its open dictionary, a leaf, or inherited. |
| `PageBoxes.Scan.Classify` | src/artwork-inspection.js:304-311 | At its close a dictionary hands all its boxes to the one right list. |
| `PageBoxes.CollectPageBoxes` | src/artwork-inspection.js:281-342 | Each list grows by the sizes, width first, of its boxes; the boxes taken are the first ones without a zero side, up to 2,000 in all, each in exactly one list; and within the limits a box joins the inherited list exactly when the simple definition says so, while boxes in dictionaries that never close are leaves. |
| `ServiceFee.GridgoServiceFee` | migrations/1792037400000_service_fee_brackets.js:4-42 | Computed band by band and rounded once, the fee is the half-up rounding of the sum of what each centavo pays, and is refused for the same schedules, principals and totals. |
| `ServiceFee.BandTurn` | migrations/1792037400000_service_fee_brackets.js:25-37 | One turn of the loop adds exactly what the centavos of that band pay. |
| `ServiceFee.FeeMonotone` | migrations/1792037400000_service_fee_brackets.js:4-42 | The fee never falls as the principal grows and never grows faster than it. |
| `ServiceFee.FeeWithinPrincipal` | migrations/1792037400000_service_fee_brackets.js:4-42 | A fee is between nothing and the principal. |
| `ServiceFee.FeeDefined` | migrations/1792037400000_service_fee_brackets.js:4-42 | A fee exists exactly for a valid schedule, a principal in range and a total within the safe range. |
| `ServiceFee.ScheduleMeaning` | migrations/1792037400000_service_fee_brackets.js:4-37 | A stored schedule is valid exactly when it is a flat rate of at most 100 percent, or one to twenty bands rounded half up once, from zero on without gaps, the last one open-ended, at rates of at most 100 percent. |
| `ServiceFee.FeeNearest` | migrations/1792037400000_service_fee_brackets.js:25-42 | The fee is within half a centavo of what the centavos pay together, halves up. |
| `ServiceFee.SplitBandSameFee` | migrations/1792037400000_service_fee_brackets.js:25-37 | Cutting a band in two at the same rate changes no fee. |
| `ServiceFee.IncrementalFeeBounds` | migrations/1792056000000_order_change_requests.js:57-59 | A change's incremental fee is never negative and at most the extra principal. |
| `ServiceFee.IncrementalFeesTelescope` | migrations/1792056000000_order_change_requests.js:57-59 | The fees of successive changes add up to the fee of one change of their total, and are all defined when it is. |
| `OrderMoney.StagesForced` | migrations/1793620000000_substitute_shop_pricing.js:27-65 | The check accepts a set of payout stages exactly when, before deductions and price adjustments, it is the plan's one split of the payout. |
| `OrderMoney.StagesMeaning` | migrations/1793620000000_substitute_shop_pricing.js:14-65 | In plain figures: the named shares of the payout to the nearest centavo, the remainder in the last stage, deductions and adjustments within the gross, and no other stage. |
| `OrderMoney.SplitNonNegative` | migrations/1787000400000_escrow_payout_plan.js:31-81 | Under both plans every share of every payout, the remainder included, is between nothing and the payout. |
| `OrderMoney.ConversionAccepted` | migrations/1786953600000_a_shop_is_paid_across_four_stages.js:16-54 | A converted order passes the four-stage check, and an order with released money keeps its rows. |
| `OrderMoney.ConversionMeaning` | migrations/1786953600000_a_shop_is_paid_across_four_stages.js:16-54 | Exactly the orders with an old stage and no released one are converted, to pending stages that split the payout without deductions. |
| `OrderMoney.MoneyConserved` | migrations/1792037400000_service_fee_brackets.js:95-163 | Under each payment plan a committed order collects exactly its gross payout stages, net service fee and delivery fee, payment by payment and component by component. |
| `OrderMoney.SnapshotMeaning` | migrations/1792037400000_service_fee_brackets.js:95-163 | The snapshot checks accept exactly the snapshots that add up under their plan, and they force the downpayment. |
| `OrderMoney.CommitForced` | migrations/1792037400000_service_fee_brackets.js:95-163 | A committed order is accepted exactly when its snapshot adds up, its payments and allocations are those its plan calls for and no others, its stages are the plan's split, and what was released is within the confirmed principal. |
| `OrderMoney.DiscountFromFeeOnly` | migrations/1792037400000_service_fee_brackets.js:164-190 | An organization discount comes out of the service fee alone and never makes it negative. |
| `OrderMoney.DiscountMeaning` | migrations/1792037400000_service_fee_brackets.js:164-190 | The discount let through is the nearest share of the subtotal, or the whole gross fee when that is less, and the totals follow from it. |
| `RefundFunds.OtherOrders` | migrations/1790553600000_client_refunds.js:236-250 | A change that does not queue an order for the check leaves every figure the check reads for it as it was. |
| `RefundFunds.UnqueuedStillOk` | migrations/1790553600000_client_refunds.js:236-250 | Within a transaction an order that is never queued still passes if it passed before. |
| `RefundFunds.CommitKeepsSolvent` | migrations/1793620000000_substitute_shop_pricing.js:86-119 | Every committed transaction keeps every order within what was collected for it. |
| `RefundFunds.EveryRunSolvent` | migrations/1793620000000_substitute_shop_pricing.js:86-119 | After any run of committed transactions, in sums over rows: refunded principal and fee stay within the allocations whose payment is confirmed plus change payments, refunded delivery within confirmed delivery plus pin payments and leaving room for every rider entitlement; and once an order has a terminal settlement, refunded principal plus released stages, change payouts and pending or released shop payouts stays within paid principal plus top-up. |
| `RefundFunds.FundsOkMeaning` | migrations/1793620000000_substitute_shop_pricing.js:86-119 | The check at commit passes exactly when these sums over the rows hold; top-up counts a confirmed payment, or one not required while the initial payment is confirmed. |
| `RefundFunds.NothingConfirmed` | migrations/1793620000000_substitute_shop_pricing.js:86-119 | After any run, an order with no confirmed payment and no change payment has no principal and no fee refunded, and delivery refunded only up to its pin payments. |
| `RefundFunds.CommitMeaning` | migrations/1790553600000_client_refunds.js:236-250 | From such a state a transaction takes effect exactly when no change is refused on the way and every order is still within what was collected, queued or not; otherwise nothing changes. |
| `RefundFunds.ApplyWrites` | migrations/1790553600000_client_refunds.js:122-167 | Each change writes its own row, or removes it, deleting a payment's allocations with it, and leaves every other row of every table. |
| `RefundFunds.GuardsMeaning` | migrations/1790553600000_client_refunds.js:122-167 | A change is refused exactly when its effect would break an append-only table, a held stage, a settlement's figures or sequence, a shop payout, or a sign; an update or delete of ledger rows is let through only when it changes nothing. |
| `RefundFunds.TerminalFound` | migrations/1793620000000_substitute_shop_pricing.js:111-112 | The entitlement is that of a non-adjustment settlement of the order with the highest sequence, and there is one exactly when there is such a settlement. |
| `RefundFunds.LastTerminalMeans` | migrations/1793620000000_substitute_shop_pricing.js:111-112 | The settlement the check reads is the cancelling or fulfilling one of the order with the highest sequence, and there is none to read exactly when the order has none. |
| `RefundFunds.ChangePreserves` | migrations/1790553600000_client_refunds.js:122-167 | No single change, an update or delete of a whole table included, alters a settlement, a shop payout that is not pending, or a released or superseded stage of a settled order. |
| `RefundFunds.SettledStaysSettled` | migrations/1793620000000_substitute_shop_pricing.js:67-84 | The same over whatever transactions follow. |
| `ApprovalCases.Deduplicated` | src/approval-cases.js:121-127 | The ids a restore names are kept, each once. |
| `ApprovalCases.DeduplicatedInOrder` | src/approval-cases.js:121-127 | They stay in the order first named. |
| `ApprovalCases.Store.SuspendServices` | src/approval-cases.js:283-298 | Every live line of the supplier is tagged and taken down, no other line changes, and the ids returned are those lines in order. |
| `ApprovalCases.Store.PublishServices` | src/approval-cases.js:300-316 | The selected lines go live, no other line changes, and the ids returned are those lines in order. |
| `ApprovalCases.Store.RestoreServices` | src/approval-cases.js:243-281 | The named lines return to their state before, no other line changes. |
| `ApprovalCases.Store.Decide` | src/approval-cases.js:318-511 | A decision answers a replay, checks in the order the code does and refuses at the first check that fails, or changes the case, the lines and the event log together. |
| `ApprovalCases.DecisionMade` | src/approval-cases.js:19-24 | An approval moves a pending case to approved, a rejection a pending one to rejected, a suspension an approved one to suspended, a restore a suspended one to approved, one version on, with the time, the approver and the one reason that belongs to it; the event tells both statuses and the lines named, and nothing else changes but lines. |
| `ApprovalCases.MadeExactlyWhen` | src/approval-cases.js:47-88 | A decision is made exactly when no event carries its request, the case exists at the status its action needs and at the expected version, the applicant is still a supplier, an approval lacks nothing on the checklist, and every line to restore went down with the account. |
| `ApprovalCases.RefusalExplained` | src/approval-cases.js:328-406 | Each refusal has its exact condition in the order the code checks, changes nothing, and lists exactly what is missing, in checklist order, or cannot come back, in request order. |
| `ApprovalCases.RestorableMeans` | src/approval-cases.js:213-241 | A line can come back exactly when it is the supplier's, is down, and is tagged with the case, or is untagged and has the legacy reason or matches the approver, reason and moment, within five seconds, of a suspension or rejection of the case. |
| `ApprovalCases.LogReproducesCase` | src/approval-cases.js:19-24 | Over every run of decisions a case's events follow the transition table without a gap from its first status and version to its last, and the version grows by exactly the number of decisions made. |
| `ApprovalCases.ReplayChangesNothing` | src/approval-cases.js:328-344 | Sending a decided request again, after any further decisions, changes nothing and gives the same event and lines with the case as it now is; using it for another case or action is refused. |
| `ApprovalCases.OnlyOwnLines` | src/approval-cases.js:243-316 | A decision only changes lines of the supplier whose case it decides. |
| `ApprovalCases.SuspensionTakesDown` | src/approval-cases.js:283-298 | A suspension tags and takes down every live line of the supplier, field by field, names exactly those, and leaves every other line. |
| `ApprovalCases.ApprovalPublishes` | src/approval-cases.js:47-88 | An approval publishes, field by field, every line of the supplier that is pending with an active category, a price, a rate of zero or more and a positive turnaround, names exactly those, and leaves every other line. |
| `ApprovalCases.NamedInTableOrder` | src/approval-cases.js:283-316 | The lines a decision names are in table order. |
| `ApprovalCases.RejectionLeavesLines` | src/approval-cases.js:416-424 | A rejection leaves every line as it is. |
| `ApprovalCases.RunKeepsDown` | src/approval-cases.js:318-511 | In every run of decisions a suspended supplier has no live line. |
| `ApprovalCases.RestoreBringsBackItsOwn` | src/approval-cases.js:225-281 | A restore changes exactly the lines it names, each of which went down with the account, to the state they had or to live, with every trace of the suspension cleared. |
| `ApprovalCases.SuspendThenRestore` | src/approval-cases.js:243-298 | Suspend, let any decisions on other cases follow, then restore exactly the lines named: the restore is accepted and every line of the supplier is in the state it had. |
| `AuditCheck.MemoIsReachability` | scripts/audit-check.js:28-49 | An entry's memoised answer is true exactly when a severe advisory can be reached from it. |
| `AuditCheck.MemoHasNoCycle` | scripts/audit-check.js:30-31 | No resolved entry lies on a dependency cycle. |
| `AuditCheck.Collector.Collect` | scripts/audit-check.js:28-49 | The search ends on every report, gives an entry's reachability answer, sets advisories in the specified order, and raises only a fault the report really has: a missing dependency, a cycle, an invalid entry or advisory, or a severity nothing explains. |
| `AuditCheck.Collector.CollectAll` | scripts/audit-check.js:50 | Searching from every entry resolves them all and sets the advisories in the specified order, or raises a fault the report really has. |
| `AuditCheck.SettingOrderComplete` | scripts/audit-check.js:28-50 | With dependencies shared or not, the advisories set are exactly those the report lists. |
| `AuditCheck.NestedOrder` | scripts/audit-check.js:28-50 | An entry's reasons are taken in order, and a dependency's advisories where it is first met. |
| `AuditCheck.ResolvedIsSound` | scripts/audit-check.js:28-50 | A report whose every entry is resolved has none of these faults. |
| `AuditCheck.CheckAudit` | scripts/audit-check.js:22-59 | The audit is refused exactly for a report with a fault, naming a fault it has; otherwise its answer is the specified verdict on the advisories in setting order. |
| `AuditCheck.JudgeAdvisories` | scripts/audit-check.js:51-57 | The kept advisories are sorted, in map order, into those blocked and those excepted. |
| `AuditCheck.VerdictJudges` | scripts/audit-check.js:51-58 | The verdict blocks only severe advisories without an exception, excepts only those with one, each under an exception that covers it, and judges every key of a severe advisory. |
| `AuditCheck.VerdictInOrder` | scripts/audit-check.js:51-58 | Blocked and excepted advisories are listed in the order their keys were first set. |
| `AuditCheck.NamedByAddress` | scripts/audit-check.js:42 | An advisory has an id only when its address is that of the advisory pages followed by GHSA and three groups of four lower-case letters or digits. |
| `AuditCheck.AddressNames` | scripts/audit-check.js:42 | Every such address gives its id. |
| `AuditCheck.ExceptionsExpire` | scripts/audit-check.js:4-15 | The exceptions cover exactly two advisories of one package, and nothing from 15 November 2026 on. |
| `AuditCheck.PassesExactlyWhen` | scripts/audit-check.js:43-58 | In any setting order the verdict passes exactly when each severe advisory without an exception is followed by a covered one with its key. |
| `AuditCheck.WrongExactlyWhen` | scripts/audit-check.js:22-59 | For every accepted report, dependencies included, the verdict differs from "every severe advisory has an exception" exactly when some has none and each such is followed by a covered one with its key; it never blocks a report whose advisories are all covered. |
| `AuditCheck.FindException` | scripts/audit-check.js:54 | The exception found is the first that matches the advisory and package and has not expired. |
| `AuditCheck.PassesUnlessMixed` | scripts/audit-check.js:43-58 | When severe advisories that share a key are covered together or not at all, the audit passes exactly when every severe advisory has an exception. |
| `AuditCheck.PassesWhenCovered` | scripts/audit-check.js:51-59 | So it does whenever no package is named after an excepted one with `:https` appended. |
| `AuditCheck.KeysCollide` | scripts/audit-check.js:43 | An advisory of such a package without an exception has the key of an excepted one. |
| `AuditCheck.PassesUncovered` | scripts/audit-check.js:22-59 | A concrete report is accepted and its verdict passes although one of its severe advisories has no exception. |

## Left out

Calendar and dates:

- ISO date strings, the range of `Date` and invalid-instant errors: days and instants are integers, a closure is a range of days.
- `NaN` and infinite durations, and JSON numbers that are not finite: durations are reals or integers.
- The rounding of `Math.ceil(units / capacity)` in floating point: the quotient is exact here.

Artwork:

- zlib, file handles, regex tokenising, the colour histogram and colour spaces: the models start from bytes or tokens.
- Stopping a PNG at the byte limit: rows are those of the bytes consumed.
- A line shorter than one pixel: the row reader never makes one, and writes past a buffer's end are not modelled.
- `prior` as a view into `spare`: it is byte 1 on of the spare line.
- The order in which boxes of dictionaries that never close join the leaves: they join in some order.
- `pageBoxesOf`, WebP, PSD and JPEG checks: they would only add easy members.

Order money:

- PostgreSQL's own machinery: a transaction is one atomic step, and an update that changes a row's order is excluded, because the check runs only for the new order.
- Orders of model 3 and their matching, voucher splits, basket shares, rider commission, and one-line immutability triggers.
- Orders that store no fee schedule: the discount rate is bounded by 100 percent, not by such an order's own fee rate.
- Matching a refund, pin payment, change payment or change payout to its request: those checks only refuse more transactions.
- Holding stages that are deleted and inserted again: the guard is on updates and deletions, so only stages already released or superseded are claimed to stay.
- The conversion to four stages is modelled on values: the temporary table and the order of deletion and insertion are not.

Approval and audit:

- Client and rider cases, the validation of decision requests beyond the named lines, the audit log, notifications and the legacy user fields.
- Untrimmed text: reasons are kept as the trimmed text that the comparisons use, and ids are non-empty.
- Running `npm audit`, and dates as text: an expiry is a number that orders like the date.
