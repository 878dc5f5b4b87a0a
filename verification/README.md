# A model of the deadmkt node: matching, money and batch protocol

deadmkt is a commit/reveal batch auction in which every node matches the same revealed orders by itself, without a
coordinator. Nodes that disagree on the matches are on different networks, and a node that admits an order it cannot
pay for fails at settlement. This project models the parts of one node on which that depends and proves what they
promise, for all inputs, all runs and all orders of delivery.

| file | what it models |
|---|---|
| `Basics.dfy`, `Sorting.dfy`, `Sums.dfy` | orders, matches, u64 arithmetic; stable sorting and uniqueness of a sorted arrangement; sums |
| `Engine.dfy`, `EngineFacts.dfy`, `Reference.dfy` | the two-index walk over the sorted books of one symbol, with its self-trade and dust skips; a second reading of it on two shrinking lists |
| `RunMatching.dfy`, `RunFacts.dfy`, `Priority.dfy` | the run over all symbols: grouping, lookup, sorting, concatenation; price and hash priority over a run |
| `Escrow.dfy` | the escrow tracker: reservations, expected inflows, confirmations, earmarks |
| `Decimal.dfy`, `Convert.dfy` | the decimal parser and the balance printer; conversion and admission of strategy orders |
| `Solvency.dfy`, `EndToEnd.dfy`, `NodePath.dfy` | the money path: admission, sealing, commit, matching and registration as one statement |
| `Clock.dfy`, `Poller.dfy` | block height to batch and phase across parameter changes; the block poller's event stream |
| `BatchState.dfy`, `Orchestrator.dfy` | commits and reveals of a batch; the phase handlers and agreement between nodes |
| `Tradables.dfy`, `Counterparties.dfy`, `Withholding.dfy`, `WithheldDust.dfy` | which committed orders a node may keep back without splitting its pool |
| `Unsigned.dfy` | runs on the same orders under different signatures |
| `RunGossip.dfy`, `GateAgreement.dfy`, `QuotaGossip.dfy` | the run loop's gossip gate, and two such gates side by side; the per-batch validator with quota and evidence |
| `ActiveCache.dfy` | the `is_active` cache with eviction and expiry |

Objects the source updates in place are classes. Each method is proved equal to a function of the state before it, and
the theorems are about that function: `GenerateMatches` computes `MatchesOf(... Fills ...)`, `RunMatching` computes
`Matches`, every `EscrowTracker` method is one `Step`. Arithmetic is that of a release build: u64 additions and sums wrap
(`Wrap`), casts from u128 to u64 cut, saturating operations saturate.

## What was found

- Every match of the pool is registered on the node's own tracker, and a node that is not the buyer is taken for the
  seller (src/run.rs:2142-2166, crates/settlement/src/lib.rs:830-834). A match between two other nodes therefore reserves
  this node's balance and can starve the node's own match (`EndToEnd.ThirdPartyStarves`). A match the node pays gas for is
  released again when the cache has a party as inactive (src/run.rs:2171-2195), which makes room
  (`EndToEnd.SkipMakesRoom`). Nothing in the swap loop fails exactly when every match fits beside the unskipped ones before
  it (`Solvency.RegisterAllExact`); it is enough that the base quantities of the foreign matches and the own reservations fit
  the projection per token, and where nothing is skipped that is needed too (`EndToEnd.SwapLoopExact`). One given match fails
  exactly when it does not fit beside those still registered before it (`Solvency.FailsExactly`). The own matches alone
  always fit.
- The no-stranding property that the engine's tests look for (crates/matching/src/lib.rs:688-700) fails
  when an order is below the market minimum, since the self-trade scan ignores quantities: `EngineFacts.DustStrands`. Given
  books strand a viable pair exactly when a self-trade skip drops the last viable order before any fill
  (`EngineFacts.StrandsExactly`). The property holds when no order is below the minimum, or no NFT is
  on both sides (`EngineFacts.NoStranding`), and for all books exactly in markets without a minimum
  (`EngineFacts.StrandingNeedsMinimum`).
- The settlement price is computed from a u64 sum that wraps: it lies between the limits exactly when the two prices
  together stay below 2^64 (`EngineFacts.MidpointBetweenLimits`).
- The admission total wraps too: two sales of 2^63 pass on a balance of 2^63 (`Convert.WrappedTotalAdmits`). The admitted
  orders are covered exactly when, with exact sums, no running total passes 2^64 and comes back under the balance
  (`Convert.CoveredExactly`); that is so whenever what is asked of each token stays below 2^64 (`Convert.ModestDemand`).
- Admission and settlement split a pair into tokens differently; they agree exactly on pairs with one slash
  (`Convert.TokensAgree`).
- A balance printed with zero decimals does not parse back, nor one printed with a power of ten that wraps unless the power
  exceeds the balance (`Decimal.DisplayRoundTrip`). The parser means what is written exactly when its factor is a true power
  of ten or at least 2^64 (`Decimal.ParseMeaning`).
- `confirm_settlement` credits the inflow but does not debit the outflow; the debit waits for the next chain reading
  (`Escrow.ApplyRoundTrip`, `Escrow.SetConfirmedExact`, `Escrow.ConfirmedExact`).
- An executed earmark release larger than the earmark can uncover reservations (`Escrow.ExecutedReleaseExact`).
- A node matches all its committed orders, revealed or not, so keeping one back can split the pool
  (`Orchestrator.WithheldRevealSplits`). It agrees with the rest, whatever the others reveal, exactly when all it keeps back
  is idle: undecodable, of no known side, or of an unlisted symbol (`Withholding.WithholdingExact`). For commits the
  admission let through that means revealing every one (`Withholding.AdmittedMustReveal`). The others may be limited to one
  order each. Orders below the minimum of their market can be in no match and still steer the self-trade scan and the dust
  skip, so keeping one back splits the pool as well (`WithheldDust.IsolatedDustExact`).
- The limit of ten messages refuses by order of arrival: two gates let the same reveals through in every order exactly when
  no sender runs into the limit with them (`GateAgreement.GatesAgreeExactly`).
- Nodes that hold the same orders under different signatures still agree on every fill, price and match hash
  (`Unsigned.SignaturesDecideNothing`).
- A rate-limited commit stays in the dedup set while a rate-limited reveal is taken out
  (`RunGossip.RejectedCommitRemembered`, `RunGossip.RejectedRevealLeavesNoTrace`).
- The quota tracker keeps its first `commits_per_batch` across resets, whatever the new context says
  (`QuotaGossip.GossipValidator.ResetForNewBatch`).

## Model

| member | source | states |
|---|---|---|
| Engine.SortOrders | crates/matching/src/lib.rs:128-144 | both books are rearranged in place into priority order, losing and inventing nothing |
| Engine.GenerateMatches | crates/matching/src/lib.rs:153-288 | the two-index loop, with all its skips and partial fills, yields exactly the matches of the fills of the abstract walk |
| Engine.WalkFits | crates/matching/src/lib.rs:172-220 | a walk only names positions that exist and quantities that fit a u64 |
| EngineFacts.WalkAccounting | crates/matching/src/lib.rs:174-285 | from any state of the loop: every fill is sound, positions only advance, and there are fewer fills than orders left |
| EngineFacts.FillAccounting | crates/matching/src/lib.rs:153-288 | at most buys + sells - 1 fills; no pair of positions twice; each fill crosses, is no self-trade and meets the minimum |
| EngineFacts.MidpointBetweenLimits | crates/matching/src/lib.rs:239-241 | the settlement price lies between the two limits if and only if their sum does not wrap |
| EngineFacts.WalkConserves | crates/matching/src/lib.rs:172-285 | for any weight that splitting never increases, the fills weigh no more than the books held, skips included |
| EngineFacts.NoOverfill | crates/matching/src/lib.rs:272-284 | no order, buy or sell, is filled past its quantity over the whole run |
| EngineFacts.SingleStraddlingPrice | crates/matching/src/lib.rs:172-285 | one price suits every matched buyer and seller, and the volume stays within what that price allows |
| EngineFacts.ClearingVolumeExists | crates/matching/src/lib.rs:147-152 | every pair of books has exactly one clearing volume, the maximum over prices of min(demand, supply) |
| EngineFacts.VolumeNeverExceedsClearing | crates/matching/src/lib.rs:172-285 | with any skips the volume never exceeds the clearing volume of the full books |
| EngineFacts.WalkReaches | crates/matching/src/lib.rs:172-285 | without shared NFTs and minimum, from any state the walk trades all that any single price still allows |
| EngineFacts.ClearingVolume | crates/matching/src/lib.rs:147-285 | without shared NFTs and minimum, the volume is the maximum over all prices of min(demand, supply) |
| EngineFacts.RankedBeforeLastAreFull | crates/matching/src/lib.rs:126-144 | without shared NFTs and minimum, every order ranked before the last one filled is filled completely |
| EngineFacts.WalkFindsViable | crates/matching/src/lib.rs:178-218 | the scan-based self-trade skip never walks past the last viable pair of dust-free books |
| EngineFacts.WalkOnlyViable | crates/matching/src/lib.rs:174-222 | a walk that fills anything starts from a viable pair |
| EngineFacts.NoStranding | crates/matching/src/lib.rs:178-218 | on dust-free books, or without shared NFTs, the result is empty if and only if no viable pair exists |
| EngineFacts.DustStrands | crates/matching/src/lib.rs:198-218 | for every positive minimum, books on which a dust alternative loses the only viable pair |
| EngineFacts.StrandsExactly | crates/matching/src/lib.rs:178-218 | given books strand a viable pair if and only if a self-trade skip drops the last viable order before any fill |
| EngineFacts.StrandingNeedsMinimum | crates/matching/src/lib.rs:198-237 | a market never strands a viable pair, on any books, if and only if its minimum is zero |
| Reference.WalkIsDeals | crates/matching/src/lib.rs:172-285 | from any state of the loop the fills are the deals of what rests in the two books, read as lists that only lose their first order |
| Reference.MatchesAreDeals | crates/matching/src/lib.rs:153-288 | the matches of a symbol are the deals of its sorted books: every skip, self-trade choice, dust tie, partial fill and removal |
| RunMatching.BuildMarketMap | crates/matching/src/lib.rs:68-72 | the lookup table, of two entries for a symbol the later one |
| RunMatching.LastListingCounts | crates/matching/src/lib.rs:68-72 | the last listing of a symbol gives its minimum |
| RunMatching.GroupBySymbol | crates/matching/src/lib.rs:75-81 | each reveal is in the group of its symbol, in order of arrival, and there are no other groups |
| RunMatching.SortedKeys | crates/matching/src/lib.rs:84-85 | whatever order the hash map lists its keys in, the sorted symbols are the same |
| RunMatching.MatchGroup | crates/matching/src/lib.rs:95-120 | one group is split into sides, sorted and walked |
| RunMatching.RunMatching | crates/matching/src/lib.rs:66-124 | the whole run computes the specified match list, symbol by symbol |
| RunMatching.BooksCanonical | crates/matching/src/lib.rs:95-110 | the sorted books of a symbol depend only on which reveals there are |
| RunMatching.SymbolIsolation | crates/matching/src/lib.rs:7-8 | the matches of a symbol depend only on the reveals and the market of that symbol |
| RunMatching.OrderIndependence | crates/matching/src/lib.rs:3-5 | the same reveals in any order give the identical match list |
| RunMatching.MarketOrderIndependence | crates/matching/src/lib.rs:66-124 | so do the same reveals and the same distinct markets, both in any order |
| RunFacts.BooksSorted | crates/matching/src/lib.rs:126-144 | the books a run walks are sorted, so the facts about sorted books apply to it |
| RunFacts.PriceAndPayer | crates/matching/src/lib.rs:239-264 | halfway between the limits, rounded down, with the exact loss when the u64 sum wraps; gas is paid by the lower order hash, the seller on a tie; the match hash commits to batch, buyer, seller and fill |
| RunFacts.MatchesSound | crates/matching/src/lib.rs:66-124 | every match is between a revealed buy and a revealed sell of its symbol and of different NFTs, crosses, meets the minimum, and has the price, payer and hash of `PriceAndPayer` |
| RunFacts.MatchHashesDistinct | crates/matching/src/lib.rs:243-251 | over all symbols no match hash occurs twice, if the order hashes are distinct |
| RunFacts.MatchesInOrder | crates/matching/src/lib.rs:84-90 | the match list runs through the symbols in byte order: at the first difference the earlier symbol has the smaller character or has ended |
| Priority.BuyPriority | crates/matching/src/lib.rs:126-144 | without shared NFTs and at a minimum of at most 1, a buy is served only if every buy of its symbol with a higher price, or the same price and a lower hash, is filled completely |
| Priority.SellPriority | crates/matching/src/lib.rs:126-144 | likewise, a sell is served only if every sell with a lower price, or the same price and a lower hash, is filled completely |
| Escrow.SumValues | crates/escrow_tracker/src/lib.rs:80-81 | the pending total is the sum of the values modulo 2^64, in whatever order the map is read |
| Escrow.EscrowTracker.ProjectedOf | crates/escrow_tracker/src/lib.rs:79-85 | the projected balance of a token |
| Escrow.EscrowTracker.SetConfirmed | crates/escrow_tracker/src/lib.rs:118-123 | only the confirmed amount of one token changes |
| Escrow.EscrowTracker.ReserveOutflow | crates/escrow_tracker/src/lib.rs:127-150 | duplicate first, then the balance check, then the reservation; a failure leaves at most an empty entry |
| Escrow.EscrowTracker.TrackInflow | crates/escrow_tracker/src/lib.rs:154-168 | the inflow is noted once per match hash |
| Escrow.EscrowTracker.ConfirmSettlement | crates/escrow_tracker/src/lib.rs:173-193 | on every token the pending entries of a hash go and the inflow is credited, without a debit |
| Escrow.EscrowTracker.ReleasePending | crates/escrow_tracker/src/lib.rs:196-215 | on every token the pending entries of a hash go; an unknown hash is an error |
| Escrow.EscrowTracker.EarmarkWithdrawal | crates/escrow_tracker/src/lib.rs:218-234 | an earmark is taken only from the projected balance |
| Escrow.EscrowTracker.ReleaseEarmark | crates/escrow_tracker/src/lib.rs:239-255 | the earmark shrinks, with it the confirmed balance if the withdrawal was executed |
| Escrow.EscrowTracker.ApplyMatch | crates/escrow_tracker/src/lib.rs:287-322 | the worst-case outflow is reserved, then the inflow tracked, per side |
| Escrow.ReservedSolvent | crates/escrow_tracker/src/lib.rs:127-150 | a reservation within the projected balance stays covered |
| Escrow.StepSolvent | crates/escrow_tracker/src/lib.rs:118-255 | every admissible operation keeps reservations plus earmark within the confirmed balance |
| Escrow.RunSolvent | crates/escrow_tracker/src/lib.rs:118-255 | so does every run of them |
| Escrow.RunProjectedExact | crates/escrow_tracker/src/lib.rs:79-85 | over every admissible run projected + pending + earmarked is the confirmed balance: nothing clips or wraps |
| Escrow.SetConfirmedExact | crates/escrow_tracker/src/lib.rs:118-123 | a chain reading keeps the tracker covered if and only if it is at least what is held |
| Escrow.ExecutedReleaseExact | crates/escrow_tracker/src/lib.rs:239-255 | exactly which executed releases keep the tracker covered |
| Escrow.ConfirmedExact | crates/escrow_tracker/src/lib.rs:173-193 | a confirmation leaves the tracker covered if and only if each credited balance, as it wraps, covers what stays held |
| Escrow.AppliedOutcome | crates/escrow_tracker/src/lib.rs:287-322 | a new match succeeds if and only if its outflow is within the projected balance, and a failure changes nothing |
| Escrow.AppliedAmounts | crates/escrow_tracker/src/lib.rs:287-322 | a buy reserves the v with v * 10^(base + 8) <= fill * buyer price * 10^quote < (v + 1) * 10^(base + 8), a sell expects the same at the settlement price, each cut to u64; the base side is the fill |
| Escrow.ReserveRefused | crates/escrow_tracker/src/lib.rs:127-150 | each refusal has its reason: a duplicate, or the amount wanted and what is free; it changes no balance |
| Escrow.ReserveTaken | crates/escrow_tracker/src/lib.rs:127-150 | else the reservation takes exactly its amount from what is free of exactly its token |
| Escrow.TrackExact | crates/escrow_tracker/src/lib.rs:154-168 | an expected inflow is refused only as a duplicate and moves nothing that is free |
| Escrow.UnknownHash | crates/escrow_tracker/src/lib.rs:173-215 | confirming or releasing a hash that nothing is pending under is an error and changes nothing |
| Escrow.EarmarkRefused | crates/escrow_tracker/src/lib.rs:218-234 | an earmark is refused exactly when it exceeds what is free, and changes nothing then |
| Escrow.EarmarkTaken | crates/escrow_tracker/src/lib.rs:218-234 | else what is free of its token falls by its amount and no other token moves |
| Escrow.EarmarkRoundTrip | crates/escrow_tracker/src/lib.rs:218-255 | a cancelled earmark gives its amount back; an executed one takes it from the confirmed balance too |
| Escrow.UnseenToken | crates/escrow_tracker/src/lib.rs:239-255 | a release of an earmark on a token never seen is an error |
| Escrow.ApplyRoundTrip | crates/escrow_tracker/src/lib.rs:173-215 | release after apply restores every token; confirm after apply changes one confirmed balance, by the inflow |
| Decimal.ParseExact | crates/strategy/src/convert.rs:61-112 | exactly which texts parse, to which value, at any number of decimals, with the factor as it wraps |
| Decimal.ParseMeaning | crates/strategy/src/convert.rs:61-112 | for every text the parser yields v just when v is the written number times 10^d rounded down, if and only if its factor is a true power of ten or at least 2^64 |
| Decimal.FitIsFloor | crates/strategy/src/convert.rs:85-104 | padding or cutting the fraction is rounding down at d digits |
| Decimal.TrimMeaning | crates/strategy/src/convert.rs:62-65 | the text is the trimmed one between white space, and the trimmed one has none at its ends |
| Decimal.SplitMeaning | crates/strategy/src/convert.rs:67-72 | the whole part is what stands before the first dot, the fraction what follows it |
| Decimal.ErrorMeaning | crates/strategy/src/convert.rs:61-112 | which error a text is refused with, in the order of the checks |
| Decimal.ScaleMeaning | crates/strategy/src/convert.rs:183-190 | dividing by the scale of a pair turns base units at a price of 8 decimals into quote units, rounded down |
| Decimal.DisplayParts | crates/gas_manager/src/lib.rs:106-111 | a printed balance is a well-formed decimal of the quotient and the remainder by the factor |
| Decimal.DisplayRoundTrip | crates/gas_manager/src/lib.rs:106-111 | parsing a printed balance returns it if and only if at least one decimal is printed and the factor fits a u64 or exceeds the balance |
| Convert.TokensAgree | crates/strategy/src/convert.rs:165-172 | admission and settlement read the same two tokens off a pair if and only if it has one slash |
| Convert.TokensNamed | crates/strategy/src/convert.rs:165-172 | the base is the part before the first slash, the quote the part from there to the next, empty without a slash |
| Convert.ConvertMeaning | crates/strategy/src/convert.rs:120-158 | an order has the pair of its spec, side 1 for "buy" and 0 for "sell", the price at 8 decimals and the quantity at those of the base token, 5 if unlisted; else the error names the first text that cannot be read |
| Convert.OutflowMeaning | crates/strategy/src/convert.rs:176-195 | a buy is charged its quote units rounded down on the quote token, at any base and quote decimals; a sale its quantity on the base token |
| Convert.Consider | crates/strategy/src/convert.rs:225-275 | one spec ends as one order or one warning: conversion, then the checks in their order |
| Convert.Decide | crates/strategy/src/convert.rs:238-261 | active pair, then price, then minimum, then the balance check |
| Convert.CheckBalance | crates/strategy/src/convert.rs:262-275 | the wrapped running total against the projected balance of the token |
| Convert.ValidateOrders | crates/strategy/src/convert.rs:205-283 | the admission loop yields exactly the orders and warnings of the specified ledger |
| Convert.AdmittedFromSpecs | crates/strategy/src/convert.rs:205-283 | the admitted orders are those of specs picked in order, each saying what its spec says; every other spec has its warning, and every warning is true of its texts |
| Convert.AdmittedExactly | crates/strategy/src/convert.rs:262-275 | while no total slips, a spec is admitted if and only if it reaches the balance check and the exact total with it stays within the projected balance |
| Convert.ValidatedAccounted | crates/strategy/src/convert.rs:205-283 | after any input the running total is the true outflow modulo 2^64 and within the projected balance |
| Convert.CandidateOf | crates/strategy/src/convert.rs:225-261 | which specs reach the balance check does not depend on the nonce drawn for them |
| Convert.LedgerExact | crates/strategy/src/convert.rs:262-275 | while no total slips, the source's running totals are the exact sums of what it admitted |
| Convert.SlipOverruns | crates/strategy/src/convert.rs:265-271 | the first total that slips leaves its token overrun for the rest of the batch |
| Convert.CoveredExactly | crates/strategy/src/convert.rs:205-283 | the projected balances pay for all admitted orders together if and only if, summed exactly, no running total passes 2^64 and comes back under the balance |
| Convert.ModestDemand | crates/strategy/src/convert.rs:262-271 | no total slips if what the specs ask of each token stays below 2^64 |
| Convert.WrappedTotalAdmits | crates/strategy/src/convert.rs:265-271 | two orders are admitted that the balance cannot cover |
| Convert.ValidatedQuota | crates/strategy/src/convert.rs:212-222 | at most the quota is admitted, and without warnings nothing was dropped |
| Solvency.RegisterMatch | crates/settlement/src/lib.rs:817-848 | one match is applied to the tracker on the side the node is taken for |
| Solvency.PartyInactive | src/run.rs:2175-2183 | both parties are looked up in the cache; one known as inactive is enough |
| Solvency.InactiveExactly | src/run.rs:2171-2183 | a match is skipped if and only if the node pays gas and the last observation held of a party, still fresh, was that it is inactive |
| Solvency.RegisterMatches | src/run.rs:2142-2195 | the swap loop registers match by match, passes over those that fail and releases those it skips |
| Solvency.RegisterExact | crates/settlement/src/lib.rs:817-848 | one registration succeeds if and only if its reservation is affordable, and takes just that from the projection; a failure moves nothing |
| Solvency.ReleasedUnmoved | crates/settlement/src/lib.rs:788-803 | a registration that is skipped leaves nothing a later one could see |
| Solvency.TurnExact | src/run.rs:2142-2195 | a match that fits stays registered or is skipped, one that does not fails, and only the first changes the projection |
| Solvency.RegisterAllSettles | src/run.rs:2142-2195 | after any list the tracker is solvent and its projection is down by exactly what is still registered |
| Solvency.RegisterAllExact | src/run.rs:2142-2195 | nothing in a list fails if and only if every match fits beside the unskipped ones before it |
| Solvency.AffordableFits | src/run.rs:2142-2195 | reservations that fit all together fit in turn, whatever is skipped |
| Solvency.UnskippedExact | src/run.rs:2142-2169 | where nothing is skipped: if and only if per token all reservations together fit |
| Solvency.FailsExactly | src/run.rs:2142-2195 | a given match of the list fails if and only if it does not fit beside those still registered before it |
| EndToEnd.FloorsAdd | crates/escrow_tracker/src/lib.rs:287-322 | the outflows of partial fills, each rounded down, never exceed the outflow of the whole |
| EndToEnd.SymbolCost | crates/matching/src/lib.rs:153-288 | on one symbol the own fills reserve at most what the own orders may cost |
| EndToEnd.RunCost | crates/matching/src/lib.rs:66-124 | over all symbols the own fills reserve at most the outflow of the own orders in the pool |
| EndToEnd.OwnMatchesAffordable | crates/strategy/src/convert.rs:205-283 | what was admitted covers every own match of a run, and no reservation is cut |
| EndToEnd.ForeignAndOwn | src/run.rs:2142-2166 | what a list reserves is the base of the foreign matches plus what the own ones need |
| EndToEnd.SwapLoopExact | src/run.rs:2142-2195 | nothing fails if and only if every match fits beside the unskipped ones before it; foreign base and own reservations fitting together is enough, and needed where nothing is skipped |
| EndToEnd.EndToEndSolvency | crates/strategy/src/convert.rs:205-283 | orders admitted against the tracker can be reserved in full, in any pool and with any skips; the swap loop's whole list behaves as `SwapLoopExact` says |
| EndToEnd.ThirdPartyStarves | src/run.rs:2142-2166 | registering a match between two other nodes makes the registration of the own match fail |
| EndToEnd.SkipMakesRoom | src/run.rs:2171-2195 | two matches that do not fit together are both registered, the first being skipped |
| EndToEnd.SaleSkipped | src/run.rs:2171-2183 | a cached inactive buyer has the node skip the match it pays gas for, and not the one another pays for |
| NodePath.ReadProjected | src/run.rs:3410-3418 | the admission context holds the projected balance of every tracked token |
| NodePath.ReadMarkets | src/run.rs:3402-3408 | the admission context holds the symbols and minimums of the configured markets |
| NodePath.ConvertStrategyOrders | src/run.rs:3391-3470 | the committed orders are the admitted ones, each sealed with its hash, bytes and signature |
| NodePath.SealedDecoded | crates/orchestrator/src/lib.rs:253-266 | decoding the own commits for matching gives back the admitted orders |
| NodePath.CommitsOpen | src/run.rs:3452-3470 | every commit of a sealed order opens with the reveal of the same index: the bytes decode to the order whose hash was committed, under its signature |
| NodePath.SealedForBatch | src/run.rs:3420-3445 | what is sealed is for the own NFT and the current batch, in a configured symbol, at a positive price and its minimum |
| NodePath.OwnOrdersAdmitted | crates/orchestrator/src/lib.rs:172-192 | whichever commits go out, the own orders in the pool are the published ones, all of them admitted |
| NodePath.EndToEndApplies | src/run.rs:2142-2169 | a concrete case of the solvency theorem in which an own match exists and is registered |
| NodePath.StrategyToSettlement | src/run.rs:2005-2195 | from any strategy input through the swap loop: the own matches of the batch fit, and the whole list behaves as `SwapLoopExact` says |
| Clock.StepPosition | crates/chain/src/batch.rs:36-65 | each block stays in its phase or enters the next one; batch ids rise by at most one |
| Clock.BoundaryIsStep | crates/chain/src/batch.rs:68-75 | a phase boundary between consecutive blocks is exactly a step of the position |
| Clock.PositionMonotone | crates/chain/src/batch.rs:36-65 | higher blocks never have earlier positions |
| Clock.PhaseBlocks | crates/chain/src/batch.rs:36-65 | of the blocks of a batch the first are Commit, then Reveal, then Match, as many as configured, and the rest Swap |
| Clock.BeforeAnchor | crates/chain/src/batch.rs:36-65 | blocks before the anchor count as its first block |
| Clock.AnchorSeam | crates/chain/src/batch.rs:79-89 | a new anchor starts the Commit phase of its batch right after the Swap phase of the batch before |
| Clock.ChainContinuity | crates/chain/src/batch.rs:36-89 | across any chain of parameter changes no block jumps back, skips a phase or skips a batch |
| Clock.ChangeStartsCommit | crates/chain/src/batch.rs:79-89 | each change takes effect at the start of exactly the batch it was announced for |
| Clock.BatchStateBridge.constructor | src/run.rs:369-423 | the bridge starts at its anchor |
| Clock.BatchStateBridge.AdvanceToBlock | src/run.rs:369-423 | following the chain never moves the position back |
| Poller.RunBlockPoller | crates/chain/src/poller.rs:65-144 | the loop computes the specified trace of states and events, for any heights and failures and any poll limit |
| Poller.TurnOnTrack | crates/chain/src/poller.rs:83-141 | one poll keeps the poller at the highest block seen and its event positions increasing |
| Poller.PollerStream | crates/chain/src/poller.rs:83-141 | for any polls: state as computed at the highest height, truthful events, strictly increasing positions |
| Poller.PauseExact | crates/chain/src/poller.rs:93-103 | a pause is sent by exactly those polls that end a run of at least threshold failures |
| Poller.EventsExactly | crates/chain/src/poller.rs:93-141 | each poll sends one new-batch event if the highest block entered another batch, else one phase event if it entered another phase, a pause after enough failures, and otherwise nothing |
| Poller.ChainPollerStream | crates/chain/src/poller.rs:74-141 | the same in terms of the batch arithmetic |
| BatchState.CollectValues | crates/batch_state/src/lib.rs:208-225 | the collected values of a map are its values along some listing of its keys |
| BatchState.AnyReadingOrder | crates/batch_state/src/lib.rs:208-225 | the run is the same whatever order the two maps are read in |
| BatchState.BatchState.AddCommit | crates/batch_state/src/lib.rs:132-154 | commits are taken in the Commit phase only |
| BatchState.BatchState.AddReveal | crates/batch_state/src/lib.rs:162-190 | reveals are taken in the Reveal phase only, and only of committed orders |
| BatchState.BatchState.TransitionTo | crates/batch_state/src/lib.rs:197-205 | entering Match runs the matching once |
| BatchState.BatchState.RunMatchingOnce | crates/batch_state/src/lib.rs:208-225 | the matches are those of the held reveals and markets |
| BatchState.BatchState.ResetForNewBatch | crates/batch_state/src/lib.rs:278-298 | a reset leaves no trace of the old batch |
| BatchState.BatchState.constructor | crates/batch_state/src/lib.rs:98-124 | a new batch is empty and unmatched |
| BatchState.RevealsHold | crates/batch_state/src/lib.rs:162-190 | after any deliveries exactly the committed and delivered orders are held, each under its hash |
| BatchState.RefusedChangesNothing | crates/batch_state/src/lib.rs:132-190 | what is refused changes nothing |
| BatchState.BatchRecords | crates/batch_state/src/lib.rs:132-190 | after a batch every record is as announced, and marked as shown exactly when its order was delivered |
| BatchState.BatchMatches | crates/batch_state/src/lib.rs:208-225 | the matches carry the id and pool of the batch and are between held orders, at the minimum of the market table |
| BatchState.ConfigMapLast | crates/batch_state/src/lib.rs:98-124 | the table holds the configuration listed last for each symbol |
| BatchState.DeliveryOrderIndependence | crates/batch_state/src/lib.rs:132-225 | the same commits and reveals in any order, with repetitions, give the same reveals and the same matches |
| BatchState.MatchesFrozen | crates/batch_state/src/lib.rs:197-225 | once matched, nothing short of a reset changes the matches |
| BatchState.NoMatchesBefore | crates/batch_state/src/lib.rs:197-225 | a run has matched if and only if it entered the Match phase |
| Orchestrator.Orchestrator.OnCommitPhase | crates/orchestrator/src/lib.rs:153-192 | exactly the orders whose commit was published are kept, under the current batch and pool |
| Orchestrator.Orchestrator.OnRevealPhase | crates/orchestrator/src/lib.rs:196-239 | the chosen reveals go out, all of them when the strategy is silent |
| Orchestrator.Orchestrator.OnMatchPhase | crates/orchestrator/src/lib.rs:243-314 | the matches are those of the own committed orders and the received reveals together |
| Orchestrator.Orchestrator.OnSwapPhase | crates/orchestrator/src/lib.rs:318-320 | the number of current matches |
| Orchestrator.Orchestrator.TakeMatches | crates/orchestrator/src/lib.rs:324-326 | the matches are handed out once |
| Orchestrator.OneSidedPool | crates/orchestrator/src/lib.rs:282-285 | a pool without buys or without sells, the empty one included, has no matches |
| Orchestrator.DecodedPermuted | crates/orchestrator/src/lib.rs:253-280 | decoding, with undecodable entries dropped, does not depend on the order of the entries |
| Orchestrator.NodeAgreement | crates/orchestrator/src/lib.rs:243-314 | nodes whose own and received entries make up the same pool compute the same matches |
| Orchestrator.OrchestratorsAgree | crates/orchestrator/src/lib.rs:243-314 | the same for two orchestrator objects, each listing its own orders first |
| Orchestrator.PoolAgreement | crates/orchestrator/src/lib.rs:253-280 | if every node reveals all it committed, any two nodes of the pool agree |
| Orchestrator.SilenceRevealsAll | crates/orchestrator/src/lib.rs:205-213 | the timeout default reveals every committed order, bytes and signature unchanged |
| Orchestrator.PlaceholderReveal | crates/orchestrator/src/lib.rs:217-225 | an index beyond the committed orders sends its low byte under 64 zero bytes |
| Orchestrator.WithheldRevealSplits | crates/orchestrator/src/lib.rs:253-266 | withholding either of two crossing orders, in any batch, pool and markets that admit them, makes the two nodes compute different matches |
| Tradables.TradableDecide | crates/matching/src/lib.rs:66-124 | two pools with the same buys and sells of listed symbols have the same matches, whatever else they hold |
| Counterparties.WalkMeetsBuy | crates/matching/src/lib.rs:172-285 | enough counter-offers at its price fill any buy of a node that meets the minimum, past its other orders, skips and dust |
| Counterparties.WalkMeetsSell | crates/matching/src/lib.rs:172-285 | the same for a sell |
| Counterparties.OrderMatched | crates/matching/src/lib.rs:66-124 | a pool with one counter-order more than the node has orders matches the order |
| Withholding.IdleAgrees | crates/orchestrator/src/lib.rs:253-280 | keeping back what no match can involve leaves the node in agreement with every split of the rest of the pool |
| Withholding.TradableSplits | crates/orchestrator/src/lib.rs:253-266 | keeping back a tradable order splits the pool for some reveals of the others |
| Withholding.WithholdingExact | crates/orchestrator/src/lib.rs:243-314 | a node agrees with the rest of its pool, whatever the others reveal within any limit per NFT, if and only if all it keeps back is idle |
| Withholding.AdmittedMustReveal | crates/orchestrator/src/lib.rs:243-314 | for commits the admission let through: if and only if it keeps back none |
| WithheldDust.WithheldDustSplits | crates/matching/src/lib.rs:198-237 | keeping back a buy or sell below the minimum, away from the node's other orders, splits the pool for some reveals of the others |
| WithheldDust.IsolatedDustExact | crates/orchestrator/src/lib.rs:243-314 | a node with orders of any quantity, those below the minimum away from its others, agrees with the rest if and only if all it keeps back is idle |
| Unsigned.MatchesBare | crates/matching/src/lib.rs:66-124 | a run without the signatures is the run, without the signatures |
| Unsigned.SignaturesDecideNothing | crates/matching/src/lib.rs:3-5 | the same orders under different signatures give the same fills, prices, payers and match hashes |
| RunGossip.GossipValidator.constructor | src/run.rs:178-194 | the gate starts empty at the given batch |
| RunGossip.GossipValidator.CheckRateLimit | src/run.rs:207-215 | ten messages per NFT and batch pass |
| RunGossip.GossipValidator.AcceptCommit | src/run.rs:218-239 | window, then dedup, then rate, with what each refusal leaves behind |
| RunGossip.GossipValidator.AcceptReveal | src/run.rs:243-295 | window, dedup, rate, signature, with the rollback of each refusal |
| RunGossip.GossipValidator.UpdateBatch | src/run.rs:298-302 | the current batch only moves forward |
| RunGossip.GossipValidator.ExpireOldBatches | src/run.rs:305-314 | counters below the window go, content hashes are cleared periodically |
| RunGossip.GossipValidator.CachePubkey | src/run.rs:317-320 | a cached key makes its NFT known |
| RunGossip.RateBound | src/run.rs:197-314 | over any run at most ten messages are accepted for one NFT and batch, expiry notwithstanding |
| RunGossip.RevealPassesExactly | src/run.rs:243-295 | after any run a reveal passes if and only if its batch is in the window of the highest batch announced, its content is not held, fewer than ten messages of its sender and batch passed, and the key cached last for the sender verifies these bytes and this signature |
| RunGossip.CommitPassesExactly | src/run.rs:218-239 | the same for a commit, of which only hashes of 32 bytes are held and no signature is checked |
| RunGossip.GateRemembers | src/run.rs:218-320 | what a gate knows is read off its events: highest batch, last key per NFT, contents accepted and hashes seen since they were last forgotten |
| RunGossip.PassedVerified | src/run.rs:268-288 | every reveal accepted in a run verified under the key cached at that moment |
| RunGossip.UnknownExactly | src/run.rs:286-320 | an NFT is noted as unknown exactly by a reveal that only the missing key keeps out, until its key is cached |
| RunGossip.ExpiryForgets | src/run.rs:305-314 | an expiry forgets the counters more than five batches back and no others |
| RunGossip.RejectedRevealLeavesNoTrace | src/run.rs:243-295 | a rejected reveal leaves the dedup sets and every effective count as they were |
| RunGossip.RejectedCommitRemembered | src/run.rs:218-239 | a rejected commit is remembered if and only if the rate limit refused it |
| RunGossip.ExpiredNeverReturns | src/run.rs:197-204 | a batch below the window is refused for the rest of any run |
| GateAgreement.PassIsKept | src/run.rs:197-295 | of genuine reveals the gate lets through exactly the first ones of every sender, as many as it has room for |
| GateAgreement.GatesAgreeExactly | src/run.rs:207-215 | two gates let the same reveals through in every order of arrival if and only if no sender runs into the limit |
| GateAgreement.ArrivalDecidesNothing | crates/orchestrator/src/lib.rs:243-280 | within the limit the matches of a node do not depend on the order in which reveals reach its gate |
| QuotaGossip.CommitQuotaTracker.CheckAndRecord | crates/gossip_validation/src/lib.rs:157-187 | evidence of every commit, a counter that stops at the limit |
| QuotaGossip.CommitQuotaTracker.GetReportableEvidence | crates/gossip_validation/src/lib.rs:190-195 | exactly the NFTs past the limit, with their evidence |
| QuotaGossip.CommitQuotaTracker.Reset | crates/gossip_validation/src/lib.rs:198-201 | counters and evidence go, the limit stays |
| QuotaGossip.GossipValidator.ValidateCommit | crates/gossip_validation/src/lib.rs:235-315 | the reasons for refusal in their order, and what each leaves recorded |
| QuotaGossip.GossipValidator.ValidateReveal | crates/gossip_validation/src/lib.rs:318-373 | a reveal needs its pending commit, the same NFT and a signature, and is taken once |
| QuotaGossip.GossipValidator.ValidateBatchComplete | crates/gossip_validation/src/lib.rs:376-429 | a completion report needs the batch, the sender's pool and a signature, and is taken once |
| QuotaGossip.GossipValidator.ResetForNewBatch | crates/gossip_validation/src/lib.rs:432-438 | everything goes but the quota limit |
| QuotaGossip.QuotaChain | crates/gossip_validation/src/lib.rs:157-373 | over any run: accepted reveals <= pending commits <= counter = min(evidence, limit); revealed set = flagged commits |
| QuotaGossip.ReportableExactly | crates/gossip_validation/src/lib.rs:190-195 | an NFT can be reported if and only if one of its commits was refused over quota |
| QuotaGossip.ObjectionMeaning | crates/gossip_validation/src/lib.rs:235-290 | the reason a commit is refused with before the quota is the first check it fails |
| QuotaGossip.EvidenceExactly | crates/gossip_validation/src/lib.rs:157-187 | over any run the evidence of an NFT lists exactly its commits that passed those checks, in order, with their signatures |
| QuotaGossip.CommitAcceptedExactly | crates/gossip_validation/src/lib.rs:235-315 | after any run a commit is accepted if and only if it passes the checks, its NFT has sent fewer such commits than the limit, and none of its hash was accepted |
| QuotaGossip.RevealAcceptedExactly | crates/gossip_validation/src/lib.rs:318-373 | after any run a reveal is answered as its batch, its pending commit, earlier acceptance, NFT and signature demand, in that order |
| QuotaGossip.OverQuotaAtLimit | crates/gossip_validation/src/lib.rs:157-187 | once an NFT was refused over quota its counter stands at the limit |
| QuotaGossip.CommitsKept | crates/gossip_validation/src/lib.rs:235-373 | a pending commit stays pending under its NFT, and revealed once revealed, until the reset |
| QuotaGossip.ReportsOncePerMarket | crates/gossip_validation/src/lib.rs:376-429 | keying by sender and symbol keeps reports unique per pool and symbol: exactly the first genuine one passes |
| QuotaGossip.CompleteMeaning | crates/gossip_validation/src/lib.rs:376-429 | a report is refused for the first of its checks that fails |
| ActiveCache.IsActiveCache.constructor | crates/escrow_tracker/src/is_active_cache.rs:26-32 | an empty cache with room for at least one entry |
| ActiveCache.IsActiveCache.Get | crates/escrow_tracker/src/is_active_cache.rs:35-42 | the cached value if it is there and younger than the time to live |
| ActiveCache.IsActiveCache.FindOldest | crates/escrow_tracker/src/is_active_cache.rs:46-52 | some entry fetched no later than any other |
| ActiveCache.IsActiveCache.Insert | crates/escrow_tracker/src/is_active_cache.rs:45-60 | the entry is written, an oldest one evicted only for a new key at capacity |
| ActiveCache.IsActiveCache.Invalidate | crates/escrow_tracker/src/is_active_cache.rs:63-65 | the key goes |
| ActiveCache.IsActiveCache.LiveCounts | crates/escrow_tracker/src/is_active_cache.rs:76-84 | the numbers of active and inactive hits at that moment |
| ActiveCache.CacheRefinesHistory | crates/escrow_tracker/src/is_active_cache.rs:45-65 | over any history every entry is the latest write of its key since its last invalidation, within capacity |
| ActiveCache.HitIsLatest | crates/escrow_tracker/src/is_active_cache.rs:35-42 | a look-up answers b if and only if the key is held and its latest write was b, less than the time to live ago |
| ActiveCache.HoldsMostRecent | crates/escrow_tracker/src/is_active_cache.rs:45-60 | with a rising clock and no invalidation a key is held if and only if fewer other keys than the capacity were written since |

## Left out

- The asynchronous run loop, libp2p, the WebSocket server, HTTP, CLI, setup, keystore and status JSON: input and output.
- SHA-256, Ed25519 and BCS bytes: order hashes are numbers compared as big-endian bytes, match hashes a free constructor, hashing, encoding, decoding and signature checking parameters.
- `SettlementManager` beyond `register_match`, the submitter and `AbortCode`: the pending map, retries and backstops.
- `Orchestrator::on_chain_event`, chain-event JSON, `NodeStateMachine`, gas thresholds and status: only easy members.
- `BatchStateBridge.set_num_pools` and `reload_params`: plain setters.
- Rejection counters, `take_unknown_nfts`, `should_fetch_pubkeys` and logging of the gossip gate: diagnostics and scheduling.
- At-most-once acceptance in the gossip gate across the periodic clearing of its content hashes: the source does not promise it.
- `create_own_commit`, `mark_own_revealed`, `unrevealed_own_commits` and the quota tracker field of `BatchState`: bookkeeping that nothing modelled here reads.
- Overflow of block heights, batch ids, counters and stall counts: unbounded naturals; prices, quantities and balances are u64 with wrap-around.
- Convert.ValidateOrders: the scale of a pair must not be zero for a buy that reaches the balance check, where the source divides by zero and stops; the scale itself wraps as in a release build.
- Escrow.EscrowTracker.ApplyMatch: the scale must not be zero, for the same reason.
- Escrow.AppliedAmounts: base + 8 - quote decimals lies between 0 and 38; elsewhere the scale wraps and stands for no power of ten.
- Convert.OutflowMeaning: the same range.
- Withholding.WithholdingExact: hashing is free of collisions, decoding inverts encoding, and a node holds fewer than 2^64 - 1 entries.
- WithheldDust.IsolatedDustExact: an order below the minimum is decided only if the node's other orders in the symbol bid less than its price and offer above it by more than one (for a buy) or four (for a sell), and not at the end of the price range nor for a sell of nothing; closer orders can hide it from the others, and whether they do depends on how hashes and quantities fall.
- Decimal.BalanceDisplay: the wrapped power of ten must not be zero, where the source divides by zero and stops.
- Convert.Validated: nonces are a function of the position, where the source draws them at random; `CanonicalOrder` has the fields of `Order` and shares its type.
- Engine.SortOrders: the library's `sort_by` is the stable insertion sort `Sorting.Sort`, written back into the arrays.
- ActiveCache.IsActiveCache.Get: the clock is a parameter of each call.
- ActiveCache.IsActiveCache.FindOldest: which of several oldest entries is found is left open, as the map's iteration order is.
- Orchestrator.Orchestrator.OnRevealPhase: indices and the commit count are naturals, where the source has u32.
- NodePath.ConvertStrategyOrders: symbols are strings throughout, where the source reads bytes as lossy UTF-8.
- Floating-point balances and the Python strategies: outside exact arithmetic.
