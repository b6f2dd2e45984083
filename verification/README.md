# Limit-order protocol, collateral and matching arithmetic

This project models the exact integer and state logic of the Archer SDK and proves
properties of it. Five parts share one vocabulary of machine integers, orders and
level ops.

* **The compare-and-set limit-order protocol.** A client keeps a `LocalBook`, a list
  of resting orders edited in place; every change returns the `LevelOp` that makes
  the chain agree. The chain is a map of resting sizes changed by ops and by fills in
  any interleaving. `LocalBook` is proved to refine a machine on maps
  (`ClientMachine`), whose runs are proved to be accepted by the chain
  (`ChainBook`). `DiffPlan` and `DiffSafety` prove what a `diff_to` plan does under
  every interleaving of fills.
* **Actions.** `Actions` cuts a plan into instructions of at most 32 ops while
  tracking sequence numbers and registry seating; `Builders` are the place, modify,
  cancel and replace-all actions; `Seating` is the registry rule, with a
  nondeterministic eviction; `Landing` runs every action against the program;
  `SplitRecovery` proves the recovery from a refused plan.
* **Collateral.** `MakerBooks` holds the program's reserve, in its closed form and
  its per-level ceiling form; `BidCollateral` proves them equal and proves the
  deferred mid moves; `ClientCollateral` is the client's own arithmetic, proved
  against the program's; `MarginEstimate` compares the margin estimate with it;
  `Quoting` builds a book update and its estimates.
* **Matching arithmetic.** `Markets`, `Engine` and `Settlement`: market validation,
  lot conversions, fills against locked collateral, fees against a budget, pro-rata.
* **Wire formats.** `LevelOpsWire` and `UpdateBookWire`, over the little-endian
  integers of `Bytes`.

Machine integers are `int` subsets with explicit bounds (`u64`, `u128`, `i64`), and
checked arithmetic is a `Result`, so the theorems say exactly when an operation
fails. `seq += 1` is modelled as a release build wraps it.

## Where the code and its documentation differ

* `CancelMode` and `diff_to` promise that no filled lot is written back. A strict
  resize of a level observed at exactly `u64::MAX` carries the wildcard as its guard,
  so it is not checked. `DiffSafety.NoFillResurrectedIff` proves the promise holds
  exactly when no such resize is planned.
* `quote_lots_ceil` is documented to match the program's ceiling exactly, and
  `compute_required_collateral` never to under-count. The config holds the unreduced
  pair in `u128`, and on accepted markets with a large pair the saturating products lose
  quote: `ClientCollateral.QuoteLotsCeilIsClamped` says exactly when, and
  `ClientCollateral.CeilingCanFallShort` gives such a market and bid. The client then
  asks for less than the reserve, and only then (`ClientCollateral.ClientMatchesReserve`).
* `estimate_required_quote_margin` is documented as conservative. Its saturating
  `u64` product loses a level's fee above `raw * fee_ppm` = 18 446 744 073 709 000 000.
  The estimate covers the required collateral exactly when what is lost does not exceed
  what per-level rounding overcharges (`MarginEstimate.EstimateCoversIff`): for one bid
  exactly up to that figure (`MarginEstimate.SingleBidCoversIff`), and for any number
  never once one level is above it by a million for each of the others
  (`MarginEstimate.LargeLevelFallsShort`).
* `remaining_bid_quote_lots` is documented as the exact figure on both paths. The two
  paths differ on a book with a mid above `i64::MAX` and no active bid, and with a
  zero numerator on a notional beyond `u128`
  (`BidCollateral.ClosedFormRefinesCeilingSum`, and one book of each kind in
  `BidCollateral.PathsDifferOnLargeMid` and `BidCollateral.PathsDifferOnZeroConversion`).
* `base_to_quote_lots` is documented to round a bid up, so that the taker pays the
  ceiling. The quote atoms are floored before the lots are rounded up, and the taker
  can pay one lot less; `Engine.BidPaysTheCeilingIff` says exactly when. On an accepted
  market both roundings are exact (`Engine.ConversionIsExact`).
* `build_book_update` validates that the best bid price is below the best ask price,
  and the two may still round to one tick. They rest apart exactly when a tick starts
  between the scaled prices (`Quoting.BestTicksApartIff`), which a caller who keeps them
  a tick apart is sure of (`Quoting.SpacedQuoteNeverTouches`).
* The documentation of `next_sequence_number` says callers taking their numbers from
  the field the actions return need no window check. The field holds the last number
  written, which the window refuses as the next one (`Landing.ReturnedNumberIsStale`).
* `push_level_ops` adds the book to the registry it predicts as soon as a chunk is marked
  as placing. A resize of a level observed at `u64::MAX` is marked and can only shrink, and
  a call that places or grows nothing seats nothing. The prediction holds for every run
  exactly when no later placing chunk rests on such marks alone
  (`Seating.SeatingAcceptedIff`).
* After `RegistryFullSplitRequired` the caller is told to send the first chunk alone.
  The builders return the error without the instructions already pushed, so the caller
  makes that chunk itself. The recovery then works and is not refused a second time
  (`SplitRecovery.SplitRecovers`).

## Model

| member | source | states |
|---|---|---|
| LevelOps.MaySeatMeaning | src/onchain/level_op.rs:128-130 | a chunk may seat exactly when some op in it places or grows a level |
| ChainBook.ApplyOpEffect | src/onchain/instruction.rs:339-346 | an accepted op sets its own level to the new size, has seen the size it expected, and touches no other level |
| ChainBook.GrowsWhenMarked | src/onchain/level_op.rs:89-93 | an accepted op that is not marked as placing or growing never grows its level, and under a live guard a marked one always does |
| ChainBook.MarksAreExact | src/onchain/level_op.rs:89-93 | an op is marked as placing or growing just when it grows its level on some book, and both marked and guarded just when it does so on every book that accepts it |
| ChainBook.UntouchedConserves | src/onchain/instruction.rs:339-346 | over any trace that never writes a level, what rests there plus what was filled there is constant |
| ChainBook.OneWriteConserves | src/onchain/instruction.rs:336-346 | over any trace that writes a level once under a live guard, resting plus filled equals the size written |
| ChainBook.LastWriter | src/onchain/instruction.rs:336-346 | whatever rests after a trace was last written with a positive size, or rested from the start |
| ChainBook.ChainStaysLegal | src/onchain/instruction.rs:373-374 | whatever ops and fills are accepted in whatever order, a side never holds more than 16 levels and no level rests nothing |
| ChainBook.SideFullIff | src/onchain/instruction.rs:373-374 | on a legal book room is missing exactly for a new level on a side of 16 whose op expects none there or checks nothing |
| ChainBook.FillsAcceptedIff | src/limit_order/book.rs:4-9 | a level fills in any positive pieces exactly up to what rests; the pieces take their sum from it and nothing elsewhere |
| Snapshot.WellFormedIsLegal | src/limit_order/book.rs:22-25 | a list with distinct ids is well-formed exactly when the map it stands for is a legal book |
| LocalBooks.LocalBook.FromMakerBook | src/limit_order/book.rs:36-51 | a snapshot holds exactly the active levels at absolute prices, and fails exactly when one has none |
| LocalBooks.LocalBook.SideOrders | src/limit_order/book.rs:38-48 | one side's scan returns the active orders in order or the first unrepresentable price's error |
| LocalBooks.SnapshotWellFormed | src/limit_order/book.rs:36-51 | a snapshot of a 16-slot book is well-formed exactly when no side repeats an active price |
| LocalBooks.LocalBook.SizeOf | src/limit_order/book.rs:54-56 | the size at an id is the map's entry, if any |
| LocalBooks.BestBid | src/limit_order/book.rs:69-83 | the best bid is the highest resting bid price, absent exactly when no bid rests |
| LocalBooks.BestAsk | src/limit_order/book.rs:69-83 | the best ask is the lowest resting ask price, absent exactly when no ask rests |
| LocalBooks.LocalBook.CheckNotCrossed | src/limit_order/book.rs:87-97 | succeeds exactly when every bid rests below every ask |
| LocalBooks.LocalBook.Place | src/limit_order/book.rs:102-120 | succeeds exactly on a positive size and price, a free id and a side below 16; keeps the list well-formed and does what the map machine does, errors included |
| LocalBooks.LocalBook.Cancel | src/limit_order/book.rs:122-132 | succeeds exactly when the id rests and removes its first entry and nothing else; on every chain book the op of the lenient mode removes whatever rests, and that of the strict mode exactly the observed size |
| LocalBooks.LocalBook.Resize | src/limit_order/book.rs:138-153 | changes the size of the id's first entry and nothing else under a strict guard; zero is a strict cancel |
| LocalBooks.LocalBook.Remove | src/limit_order/book.rs:207-217 | removes exactly the id's first entry and returns its size, or leaves the list alone |
| LocalBooks.LocalBook.DiffTo | src/limit_order/book.rs:161-205 | from a well-formed snapshot it succeeds exactly when the target is well-formed; the book then equals the target and the ops are the cancel, resize and place plan; an error is the target scan's or the first order's that cannot be placed |
| LocalBooks.LocalBook.CancelMissing | src/limit_order/book.rs:180-188 | the first loop leaves exactly the snapshot's orders that the target names |
| LocalBooks.LocalBook.ResizeDiffering | src/limit_order/book.rs:190-196 | the second loop sets every kept order to its target size and emits only the differing ones |
| LocalBooks.LocalBook.PlaceMissing | src/limit_order/book.rs:198-202 | the third loop reaches the target exactly when it is well-formed, and otherwise reports the first order that cannot be placed |
| LocalBooks.TargetErrorKinds | src/limit_order/book.rs:102-120 | a target of distinct ids and positive sizes can only fail on a zero price or a full side, in that order |
| ClientMachine.StepSimulates | src/limit_order/book.rs:102-153 | one successful place, cancel or resize keeps the book legal, and its op does the same to an equal chain book |
| ClientMachine.SessionSimulatesChain | src/limit_order/book.rs:102-153 | every run of successful calls keeps the book legal; replaying its ops on an equal chain book passes every guard and ends at the same map |
| ClientMachine.SessionUnderFills | src/limit_order/book.rs:4-9 | with any fills interleaved, what rests plus what was filled since the last write is what the client's book says |
| ClientMachine.PositiveWriteHasSeenEveryFill | src/limit_order/book.rs:134-137 | an accepted write of a positive size has seen every fill at its level, unless the client's own figure there was the wildcard |
| DiffPlan.TargetErrorMeaning | src/limit_order/book.rs:166-176 | the target scan passes exactly distinct ids with positive sizes |
| DiffPlan.CancelIdsMeaning | src/limit_order/book.rs:180-185 | the collected ids are the snapshot's ids outside the target, each once |
| DiffPlan.OneOpPerDifference | src/limit_order/book.rs:155-160 | the plan has exactly one op per id on which the maps differ, the right one, and none elsewhere |
| DiffPlan.PlanOrder | src/limit_order/book.rs:155-160 | cancels, then resizes, then places, and how many of each at most |
| DiffPlan.ReplayPlan | src/limit_order/book.rs:161-205 | on any chain book that agrees with the snapshot wherever a guard is live, the whole plan is accepted and its final map is given |
| DiffPlan.PlanReachesDesired | src/limit_order/book.rs:161-205 | replayed on the snapshot, the plan passes every guard and yields exactly the target |
| DiffSafety.NoFillResurrectedIff | src/limit_order/book.rs:4-9 | in every accepted interleaving with fills each target order ends at its size less the lots filled there and nothing else rests, exactly when no level observed at the wildcard size is resized |
| DiffSafety.WildcardResizeResurrects | src/onchain/level_op.rs:14-15 | when such a level is resized, a one-lot fill before the plan is written back although every guard passes |
| DiffSafety.RestingBeforeWrites | src/limit_order/book.rs:155-160 | while only cancels are in, nothing rests that the snapshot did not hold |
| DiffSafety.RestingAfterCancels | src/limit_order/book.rs:155-160 | once the cancels are in, nothing rests that the target does not hold |
| DiffSafety.EveryIntermediateStateIsLegal | src/limit_order/book.rs:155-160 | after every prefix of the plan, with any fills interleaved, each side has at most 16 levels and the book is not crossed |
| DiffSafety.NextOpAcceptedIff | src/limit_order/book.rs:4-9 | wherever a run of the plan stands, with any fills interleaved, the next op is accepted exactly when its guard is the wildcard or nothing was filled at its level since the snapshot, and is otherwise refused with the size mismatch |
| DiffSafety.NextCancelAcceptedIff | src/limit_order/book.rs:122-132 | under the lenient mode no cancel of a plan is refused in any interleaving; under the strict one it is exactly when its level was filled, unless observed at the wildcard size |
| Seating.ChunksLoseNothing | src/limit_order/actions.rs:495 | the chunks concatenate back to the ops, hold 1 to 32 each and are as few as possible |
| Seating.SequenceWindow | src/accounts.rs:140-165 | the window is exactly the 65535 numbers after the book's; the next number passes below the u64 limit and is the least that does, and every other number has the stale or the too-far error |
| Seating.SequencesPassIff | src/limit_order/actions.rs:497-508 | the chunks' numbers, each checked against the book as updated so far, all pass exactly when the counter stays within u64 |
| Seating.RegistryDuringRun | src/onchain/instruction.rs:356-366 | while nothing has placed the registry is the given one, and while no eviction is possible it is the predicted one or, with nothing surely seated yet, still the given one |
| Seating.SeatingIsAccepted | src/limit_order/actions.rs:467-482 | unless a split is required or the prediction rests on a guess, whatever was evicted, the next chunk carries exactly the registry as it stands if it may seat, and no books otherwise |
| Seating.GuessCanFail | src/onchain/instruction.rs:356-370 | a chunk that guesses is refused when no earlier call turned out to place or grow a level |
| Seating.SeatingAcceptedIff | src/limit_order/actions.rs:467-482 | every run of a plan that needs no split is accepted exactly when no chunk guesses |
| Seating.NoListSurvivesEviction | src/limit_order/actions.rs:477-482 | after a placing chunk of an unseated book on a full registry, no list of books is right for every outcome: the refusal is needed |
| Actions.SeatingStep | src/limit_order/actions.rs:512-522 | one turn of the seating loop keeps what it knows about the registry, or meets the split |
| Actions.PushLevelOps | src/limit_order/actions.rs:483-525 | fails exactly when a split is required, after the first placing chunk; otherwise pushes the planned instructions and returns the last number written |
| Builders.OpenBook | src/limit_order/actions.rs:106-113 | an absent book is an empty list; a present one is its snapshot |
| Builders.Finish | src/limit_order/actions.rs:134-142 | a plan of 1 to 32 ops is always one instruction and never needs a split; longer plans are the planned chunks |
| Builders.PlaceAll | src/limit_order/actions.rs:115-121 | the place loop succeeds exactly when every order resolves and the grown book is well-formed, and otherwise reports the first order that does not |
| Builders.BuildPlace | src/limit_order/actions.rs:92-149 | succeeds exactly on a non-empty, resolvable batch whose book is well-formed and not crossed; initialises exactly when there is no book, deposits once exactly when any figure is positive, then writes once, numbered one past the book's number or 1 on a new book; names the orders in input order; an error is the first failing order's own or the crossing |
| Builders.ReplacementFits | src/limit_order/actions.rs:186-193 | cancelling an order always leaves room for its replacement |
| Builders.ModifyLands | src/limit_order/actions.rs:181-194 | a modify's plan is accepted on the snapshot and leaves the old order gone, the new one resting and the book legal |
| Builders.BuildModify | src/limit_order/actions.rs:160-215 | succeeds exactly when the order rests, the new slot is free and the result is not crossed; always one instruction, numbered one past the book's number; every refusal has its own error |
| Builders.CancelAll | src/limit_order/actions.rs:240-244 | the cancel loop succeeds exactly when the ids are distinct and all rest, and removes exactly them; otherwise it names the first that does not rest |
| Builders.CancelsNeverSeat | src/limit_order/actions.rs:217-219 | no batch of cancels may seat the book |
| Builders.BuildCancel | src/limit_order/actions.rs:225-272 | succeeds exactly on a non-empty list of distinct resting ids; one instruction without books, then a withdrawal exactly when any figure is positive |
| Builders.ResolveAll | src/limit_order/actions.rs:341-344 | the target is every order resolved, or the first error |
| Builders.AtMostTwoChunks | src/limit_order/actions.rs:345-346 | a replace-all plan between well-formed books fits two instructions |
| Builders.BuildReplaceAll | src/limit_order/actions.rs:317-375 | succeeds exactly when the target is well-formed and not crossed and no split is forced; initialises and deposits as a place does, then writes the diff plan in at most two chunks that count on from the book's number; names the orders in input order; every failure has its own error |
| Landing.PlanLands | src/limit_order/actions.rs:467-525 | however the program seats the book, a pushed plan without guesses never gets stuck: each instruction passes the window, the registry, the guards and the crossing check; the last of any plan leaves the plan's book and number |
| Landing.PlanIsPredictable | src/limit_order/actions.rs:467-482 | a replace-all that resizes no level observed at the wildcard size guesses nothing |
| Landing.ReplaceAllReplays | src/limit_order/book.rs:155-160 | every prefix of a replace-all plan replays to an uncrossed book, and the whole plan to exactly the target |
| Landing.PlacesReplay | src/limit_order/actions.rs:115-121 | a place batch replays to the old orders plus the new ones and always carries the registry |
| Landing.CancelsReplay | src/limit_order/actions.rs:240-244 | a cancel batch replays to the snapshot without those ids |
| Landing.PlacesReplayable | src/limit_order/actions.rs:115-122 | every prefix of a place batch replays to an uncrossed book |
| Landing.ModifyReplayable | src/limit_order/actions.rs:181-195 | every prefix of a modify replays to an uncrossed book |
| Landing.CancelsReplayable | src/limit_order/actions.rs:240-244 | every prefix of a cancel batch replays to an uncrossed book |
| Landing.PlaceLands | src/limit_order/actions.rs:92-149 | the write of a place lands and leaves the old orders with the new ones |
| Landing.ModifyWriteLands | src/limit_order/actions.rs:160-215 | the write of a modify lands and leaves the modified book |
| Landing.CancelLands | src/limit_order/actions.rs:225-272 | the write of a cancel lands without the registered books and leaves the snapshot without the ids |
| Landing.ReplaceAllLands | src/limit_order/actions.rs:317-375 | the writes of a replace-all without guesses land one after the other however the book is seated, and leave exactly the target |
| Landing.ReturnedNumberIsStale | src/accounts.rs:145-148 | after a landed plan the number the builders returned is refused as the next one |
| SplitRecovery.PlanSize | src/limit_order/book.rs:155-160 | a plan has exactly as many ops as there are ids to change |
| SplitRecovery.SplitStopsAfterFirstChunk | src/limit_order/actions.rs:512-519 | a refused plan has two chunks, and what was pushed holds its first 32 ops |
| SplitRecovery.SplitRecovers | src/limit_order/actions.rs:477-482 | once the first chunk has landed alone, the plan rebuilt from the book fits one instruction, reaches the same target without crossing and is not refused, whatever the registry has become |
| SplitRecovery.RefusalNeedsManyDifferences | src/limit_order/actions.rs:477-482 | after anything else, fills included, a rebuild is refused only for an unseated book on a full registry with more than 32 levels to change |
| MakerBooks.PricesAreOffsets | src/onchain/state/maker_book.rs:86-94 | around any mid an i64 can hold, every price up to the i64 limit is read back by exactly one offset, and prices keep the order of their offsets |
| MakerBooks.ComputeRemainingBidQuoteLots | src/onchain/state/maker_book.rs:375-406 | the closed-form loop returns the specified figure, each overflow included |
| MakerBooks.ComputeRemainingBidQuoteLotsCeiling | src/onchain/state/maker_book.rs:408-423 | the per-level ceiling loop returns the specified figure, each overflow included |
| MakerBooks.ComputeTotalAskSize | src/onchain/state/maker_book.rs:629-637 | the loop returns the exact sum of the ask sizes, refused exactly beyond u64 |
| MakerBooks.LotsAreTheSum | src/onchain/state/maker_book.rs:629-637 | the total moves by exactly the size of a level added and by exactly the change of a level resized |
| BidCollateral.CeilingExact | src/onchain/state/maker_book.rs:335-356 | the ceiling is refused exactly when the denominator is zero or the exact result leaves u64, each with its own error: no u128 step decides |
| BidCollateral.CeilingTotalExact | src/onchain/state/maker_book.rs:408-423 | the ceiling sum is exact, and refused exactly on an invalid price or a sum beyond u64, with the error of one that holds |
| BidCollateral.WeightedTotalExact | src/onchain/state/maker_book.rs:382-400 | the weighted sum is exact, and refused exactly on an invalid price or a notional beyond u128, with the error of one that holds |
| BidCollateral.ClosedFormRefinesCeilingSum | src/onchain/state/maker_book.rs:358-423 | on every book the figure is the per-level ceiling sum, failures included, unless the closed form is taken and either the mid exceeds i64 with no active bid, or the numerator is zero and the notional exceeds u128 |
| BidCollateral.PathsDifferOnLargeMid | src/onchain/state/maker_book.rs:380 | a book with a mid one past the i64 limit and no bids: the closed form fails, the ceiling sum is zero |
| BidCollateral.PathsDifferOnZeroConversion | src/onchain/state/maker_book.rs:394-404 | a book with a zero numerator and sixteen full levels: the closed form overflows, the ceiling sum is zero |
| BidCollateral.RemainingBidsExact | src/onchain/state/maker_book.rs:370-374 | on either path the bids are worth the exact sum of ceilings, refused exactly on an invalid price or a sum beyond u64 and with the error of one that holds |
| BidCollateral.FeeBufferExact | src/onchain/state/maker_book.rs:429-446 | the reserve adds the exact ceiling of a positive fee and nothing for a rebate; only its u64 result can overflow |
| BidCollateral.MovesAreTheLastMove | src/onchain/state/maker_book.rs:233-240 | a run of deferred mid moves is its last move |
| BidCollateral.DeferredMovesConserveQuote | src/onchain/state/maker_book.rs:463-481 | over any run of mid moves, the empty one included, every projection keeps locked plus free and depends on the final mid alone |
| BidCollateral.DeferredProjectionIff | src/onchain/state/maker_book.rs:448-481 | a run of mid moves, the empty one included, that ends at the anchor leaves the stored balances; any other locks exactly the reserve at the final mid, or fails with the overflow of a sum or with insufficient balance, exactly then |
| BidCollateral.RemainingBidsFallWithTheMid | src/onchain/state/maker_book.rs:375-423 | at a lower mid the bids can be valued exactly when their prices stay positive, and are worth no more |
| BidCollateral.LowerMidStaysFunded | src/onchain/state/maker_book.rs:463-481 | away from the anchor a projection that succeeds does so at a lower mid exactly when active bids stay positive, with no more locked and the same total |
| Markets.AcceptedMarketMeaning | src/onchain/state/market_state.rs:309-353 | a market is accepted exactly when a lot-tick is a positive whole number of quote lots and the largest fill fits u128 |
| Markets.RefusedMarketMeaning | src/onchain/state/market_state.rs:309-333 | a refused market is refused for its parameters exactly when its unit fits and a lot-tick is less than an atom or no whole number of quote lots; any other refusal is an overflow |
| Markets.ComputeGcd | src/onchain/state/market_state.rs:442-449 | the loop computes Euclid's function |
| Markets.GcdIsGreatestCommonDivisor | src/onchain/state/market_state.rs:442-449 | its result divides both numbers and every common divisor divides it |
| Markets.ValidateRawBaseUnits | src/onchain/state/market_state.rs:280-307 | accepts exactly the powers of ten up to the base decimals, when that bound fits u64; only a power of ten meets the overflow of the bound, everything else is an invalid parameter |
| Engine.AskPaysTheFloor | src/math/engine.rs:20-58 | the ask side's two nested floors are one floor of the exact ratio |
| Engine.BidPaysTheCeilingIff | src/math/engine.rs:37-47 | the bid side is the ceiling of the exact ratio, or one lot less, and exactly when: the atoms were whole or do not fill whole lots |
| Engine.BidCanPayLessThanTheCeiling | src/math/engine.rs:207-217 | a concrete market, fill and price for which the taker pays one lot less than the ceiling |
| Engine.BaseToQuoteFailsIff | src/math/engine.rs:20-59 | on any market the conversion of a fill fails exactly when the unit is zero or leaves u128, a product leaves u128, the whole atoms leave u64 or a quote lot has no atoms, and always with the same error |
| Engine.QuoteBuysExactly | src/math/engine.rs:60-111 | on any market rounding down buys the most lots the quote pays for, and rounding up the fewest that use it up |
| Engine.QuoteToBaseFailsIff | src/math/engine.rs:62-111 | on any market the conversion fails exactly when an exact quantity leaves its width or the denominator is zero: no intermediate product decides, each with its own error |
| Engine.ConversionIsExact | src/math/engine.rs:20-58 | on an accepted market both sides convert to the same whole multiple of lots times ticks, refused exactly when the atoms leave their width |
| Engine.QuoteConvertsBack | src/math/engine.rs:62-111 | on an accepted market converting back by rounding down cannot fail and returns the original lots; rounding up returns the same whenever it succeeds |
| Engine.CollateralIsTheConversion | src/onchain/state/maker_book.rs:332-356 | on an accepted market a fill costs exactly the ceiling locked for it, whatever pair of the market's ratio the book caches |
| Settlement.CollateralSurvivesFills | src/onchain/state/maker_book.rs:332-356 | after every run of partial fills paid at the taker's floor, what stays locked is at least the ceiling for what still rests, which still computes |
| Settlement.FillsPayAsOne | src/math/engine.rs:20-59 | on an accepted market a bid fills in any pieces exactly up to its size, and they pay together what one fill of their sum would |
| Settlement.FeeExact | src/math/engine.rs:117-141 | a charge is the exact ceiling and a rebate truncates toward zero, for every fee; only the i64 result can overflow, and never within the fee limits |
| Settlement.BudgetIsTheFloor | src/math/engine.rs:173-197 | the budget never fails or wraps and is the amount scaled down by the fees, floored |
| Settlement.BudgetPaysItsFees | src/math/engine.rs:165-197 | budget plus taker fee plus builder fee stay within the amount, and neither fee fails |
| Settlement.BuilderFeeExact | src/onchain/swap_types.rs:102-118 | the builder fee is the exact floor; only its u64 result can overflow |
| Settlement.BudgetIsLargest | src/math/engine.rs:165-197 | for a non-negative taker fee nothing larger is affordable without a builder fee, and nothing two lots larger with one |
| Settlement.OneMoreCanBeAffordable | src/math/engine.rs:165-197 | the second lot is needed: with a builder fee one more lot can be affordable |
| Settlement.ProRataConserves | src/math/engine.rs:143-163 | over any shares no call fails, the parts sum to at most the total and to more than the total less the number of shares, and no part exceeds its share when the total does not exceed all shares |
| Settlement.PartExact | src/math/engine.rs:143-163 | a part is the exact floor, refused exactly on a zero divisor or a result beyond u64, and never for a share within the total |
| ClientCollateral.ConfigPairIsExact | src/config.rs:130-135 | on an accepted market the config's saturating products are exact |
| ClientCollateral.QuoteLotsCeilIsClamped | src/config.rs:180-190 | for every pair the client's ceiling is at most the exact one clamped at u64, and equals it exactly when the shifted numerator fits u128 or the u128 limit still divides to at least that figure; a zero denominator gives zero |
| ClientCollateral.SmallPairLosesNothing | src/config.rs:176-190 | a denominator a book can hold never loses anything |
| ClientCollateral.CeilingCanFallShort | src/config.rs:176-190 | an accepted market, size and price for which the client's ceiling is a third of what the program locks |
| ClientCollateral.ComputeRequiredCollateral | src/limit_order/actions.rs:425-465 | the loop returns the exact sums clamped at u64 with the fee buffer on top, or the first unresolved order's error; the base figure is the clamped total ask size of every book that carries the orders' asks |
| ClientCollateral.BackingOfPermutation | src/onchain/state/maker_book.rs:408-423 | backing does not depend on the order of the bids |
| ClientCollateral.ClientMatchesReserve | src/limit_order/actions.rs:412-424 | for pairs of one ratio the client never asks for more than the reserve, and for exactly the reserve just when nothing is lost of any bid; when nothing is lost and the reserve overflows it is the u64 limit without a fee and an error with one |
| ClientCollateral.OrdersAreBackedExactly | src/limit_order/actions.rs:412-424 | every set of at most 16 bids at i64 prices is carried by a mid-0 book, where the two figures agree just when nothing is lost |
| MarginEstimate.EstimateRequiredQuoteLots | src/math/fees.rs:80-103 | the margin loop returns the exact sum of its per-level charges clamped at u64, or the first conversion error, sizes before prices |
| MarginEstimate.LevelFeeCoversIff | src/math/fees.rs:94-98 | a level is never charged more than its exact fee, and exactly that up to the saturation limit |
| MarginEstimate.MarginEstimateIsConservative | src/math/fees.rs:76-103 | while no level is above the limit the sum is at least the backing with the fee on the total, and at most one lot more per further level |
| MarginEstimate.MarginVersusCollateral | src/math/fees.rs:76-103 | while no level is above the limit the estimate covers the required collateral of the same bids, with less than one lot per bid to spare |
| MarginEstimate.EstimateCoversIff | src/math/fees.rs:76-103 | for any bids the estimate covers the required collateral exactly when the fee lots saturation loses do not exceed those per-level rounding overcharges |
| MarginEstimate.SingleBidCoversIff | src/math/fees.rs:94-98 | one bid is covered exactly when its raw lots times the fee stay within the limit |
| MarginEstimate.LargeLevelFallsShort | src/math/fees.rs:94-98 | for any number of bids, one level above the limit by a million per other bid puts the estimate below the required collateral |
| MarginEstimate.MarginEstimateCanFallShort | src/math/fees.rs:94-98 | a concrete bid and fee for which the estimate is below the required collateral |
| Quoting.PriceToTicksIsMonotone | src/math/ticks.rs:16-37 | on exact reals the price-to-tick rounding is monotone |
| Quoting.PriceToTicksExact | src/math/ticks.rs:16-37 | on exact reals a positive price rounds to its nearest tick, halves up; below half a tick, past 2^64 and at no positive price it has its own error |
| Quoting.ValidateQuoteStructure | src/math/levels.rs:219-262 | accepts exactly the ordered, uncrossed quotes of at most 16 plausible levels a side, and otherwise reports the first complaint in the order of the checks |
| Quoting.BuildBids | src/math/levels.rs:54-82 | the bid loop succeeds exactly when every price and size converts and the ticks strictly fall; the levels carry the quotes and the estimate is the clamped sum; an error is the first failing bid's |
| Quoting.BuildAsks | src/math/levels.rs:84-108 | the ask loop succeeds exactly when every price and size converts and the ticks strictly rise; the base estimate is the clamped sum; an error is the first failing ask's |
| Quoting.BuildBookUpdate | src/math/levels.rs:45-118 | succeeds exactly on a non-empty structured quote that converts around the midpoint, or the best price of its one side, without sharing a tick; mid plus offset then recovers every tick; every failure has its own error |
| Quoting.BidsAtOrBelowAsks | src/math/levels.rs:264-281 | under any monotone conversion every bid sits at or below the mid and every ask at or above it; a one-sided quote's best level sits at the mid |
| Quoting.MidIsCentred | src/math/levels.rs:264-281 | the best bid and ask lie equally far from the mid, up to one tick of rounding |
| Quoting.RoundApartIff | src/math/ticks.rs:31 | two tick figures round apart exactly when a tick starts between them |
| Quoting.BestTicksApartIff | src/math/levels.rs:242-249 | an accepted quote rests with its best bid tick below its best ask tick exactly when a tick starts between the scaled prices |
| Quoting.SpacedQuoteNeverTouches | src/math/levels.rs:242-249 | prices a tick apart rest apart exactly short of the last tick |
| Quoting.TouchingQuoteIsAccepted | src/math/levels.rs:242-249 | a concrete uncrossed quote is accepted with both sides on one tick |
| Quoting.EstimateIsBacking | src/math/levels.rs:73-76 | for every pair the quote estimate is the exact backing of the levels clamped at u64 when nothing is lost of any level, and below the backing otherwise |
| Quoting.EstimateMatchesProgram | src/math/levels.rs:73-76 | for pairs of one ratio the estimate is never above what the program values the resting bids at, and equals it just when nothing is lost; it is the u64 limit when only the sum overflows |
| Bytes.FromToLe | src/onchain/level_op.rs:99-105 | little-endian bytes read back the number |
| Bytes.ToFromLe | src/onchain/level_op.rs:99-105 | a number read from bytes writes back those bytes |
| Bytes.OffsetReadsBack | src/onchain/builders/maker.rs:207 | a signed offset reads back through two's complement |
| LevelOpsWire.Encode | src/onchain/level_op.rs:118-125 | filling the 25-byte buffer slice by slice gives the documented side byte and three little-endian words |
| LevelOpsWire.DecodeUndoesEncode | src/onchain/level_op.rs:95-125 | decoding an encoded op returns it exactly when its side byte is valid |
| LevelOpsWire.EncodeUndoesDecode | src/onchain/level_op.rs:95-125 | decoding succeeds exactly on at least 25 bytes with a valid side, and encoding returns the first 25; anything else is invalid data |
| LevelOpsWire.EncodeLevelOps | src/onchain/instruction.rs:373-384 | the push loop builds the documented payload byte by byte: discriminator, policy, sequence, count, and for each op side byte 0 for a bid and 1 for an ask and its three words |
| LevelOpsWire.ParseUndoesEncode | src/onchain/instruction.rs:375-384 | parsing a payload by the documented layout returns its policy, sequence and ops |
| LevelOpsWire.EncodeUndoesParse | src/onchain/instruction.rs:375-384 | whatever parses is the encoding of what it parses to |
| UpdateBookWire.EncodeUpdateBookData | src/onchain/builders/maker.rs:190-217 | filling the zeroed buffer in place gives the layout byte by byte: the header words and counts, each level's size and two's-complement offset at its slot, and zeros elsewhere |
| UpdateBookWire.WriteLevels | src/onchain/builders/maker.rs:203-216 | one side's loop writes its levels from the side's offset on and nothing else |
| UpdateBookWire.AccessorsUndoEncode | src/onchain/state/maker_book.rs:97-146 | the accessors read back the exact sequence, mid, bids and asks for any 0 to 16 levels a side, negative offsets included |

## Left out

- IEEE floating point: prices and sizes of `Quoting` are reals, the limit-order actions start from resolved orders, and the margin estimate stops before its last multiplication. Non-finite inputs are not modelled.
- The on-chain program's seat scoring and choice of eviction: the evicted seat is nondeterministic.
- The program's post-only check against other makers and fill matching across books; their source is not part of this model.
- RPC, account fetching and caching, PDA derivation, account metas, discriminators and alignment: an instruction is its kind, sequence, ops and books.
- `build_cancel_all` and `build_close_book`: fixed instruction lists around `ClearBook`.
- `build_book_from_spread` and `build_one_sided_book`: they only prepare a quote for `build_book_update`.
- The lot-size, quote-lot-size, tick-size and fee-range validators, status enums, getters and ladder display.
- Error payloads that only describe the input: float values and the `i64` casts of a crossed book's prices.
- The `u64` overflow of `seq += 1`: it wraps here, as in a release build; a debug build panics.
- `10u128.pow` in `from_header` beyond u128: the config is modelled only where the power fits, as on every accepted market.
- LocalBooks.LocalBook.DiffTo: says nothing of a snapshot that repeats a price on a side, because the program keeps a side's levels sorted and distinct.
- LocalBooks.LocalBook.CancelMissing: says nothing of such a list, for the same reason.
- LocalBooks.LocalBook.ResizeDiffering: is promised only from the state the cancel loop leaves on a well-formed snapshot.
- LocalBooks.LocalBook.PlaceMissing: is promised only from the state the resize loop leaves on a well-formed snapshot.
- Builders.PlaceAll: the exact success condition is promised for a list without repeated ids; the new list and the ops for every list.
- Builders.CancelAll: is promised for a list without repeated ids.
- Builders.BuildPlace: says nothing exact of a snapshot that repeats a price on a side.
- Builders.BuildModify: says nothing of such a snapshot.
- Builders.BuildCancel: says nothing exact of such a snapshot.
- Builders.BuildReplaceAll: says nothing exact of such a snapshot.
- Quoting.PriceToTicksExact: is about exact reals, for the same reason as the next line.
- Quoting.PriceToTicksIsMonotone: is about exact reals, because IEEE rounding of the product is not modelled.
- Quoting.ValidateQuoteStructure: has no non-finite prices and sizes, which reals do not hold.
