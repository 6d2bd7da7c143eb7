# A verified model of an exchange prover

This Dafny project models five components of a zero-knowledge exchange and proves what they are for.
Circuit builder functions are read as the relation they constrain: assertions become acceptance conditions,
selections become conditionals. Hashes are free constructors, so a hash determines what was hashed.

- **Jump protocol** (`Goldilocks`, `Jump`, `JumpRuns`, `JumpSoundness`, `BlockChunks`, `JumpCompleteness`). The
  transactions of a block are split into a heavy and a light chain that are proved separately. Each chain folds a
  jump state of the runs it covers and the gaps it claims the other chain fills. Main results:
  `BlockIsOneExecution` (soundness) and `LoadedBlockIsAcceptedIff` (completeness with its exact condition).
- **Sparse Merkle tree** (`SparseTree`, `ParallelMark`, `ParallelClimb`, `ParallelRuns`, `SequentialSet`,
  `MerkleOpenings`, `SparseMerkle`). A parallel multi-set is a step relation over all interleavings of its workers.
  Main results: `EveryInterleavingUpdates`, `ParallelEqualsSequential`, and openings that are unique.
- **Trade arithmetic** (`Numbers`, `Totals`, `PerpsTrade`, `PerpsLedger`, `BinaryOptions`, `SpotTrade`,
  `Liquidation`). Main results: `RunConserves`, `SidesAreFair` of perpetuals and of binary options,
  `SettlementIsExact`, `RunKeepsEntries`, `OpeningsBookTheCap`, `FillDebitsLockedAsset`, `ZeroQuoteIsTheLimit`,
  `ZeroPriceIsTheLimit`.
- **Matching engine and order book** (`BookTree`, `ImpactPrice`, `LockedBalance`, `LockedLedger`, `Matching`,
  `MatchingProgress`, `MatchingVerdict`, `MatchingEffects`, `MatchingRuns`, `MatchingPrices`, `MatchingExamples`,
  `MatchingLight`, `MatchingLocks`, `MatchingLedger`, `MatchingInPlace`, `NotionalCap`). Main results:
  `DeltaPathIsRebuiltPath`, `QuoteIsBetterOrders`, `ImpactPriceIsDetermined` and `ImpactPriceIsAverage`,
  `StepTakesVerdict` and `AcceptedIff` (what a step decides and when it is accepted), `ProgressIff`,
  `ReachableStepMakesProgress`, `RunIsBounded`, `TradeTakesTheBest`, `LimitRunNoWorse`, `AveragePriceNoWorse`,
  `ExecuteMatchingLight`, `StepLocksExactly`, `RunsKeepBalance`.
- **Published deltas** (`PubdataStream`, `PubdataFields`, `PubdataDeltas`, `PubdataDecoding`). Main result:
  `RoundTrip`.

`Options`, `Constants` and `Shifts` are shared by all of them. `dafny verify dfyconfig.toml` checks everything.

## Reading the model

- Numbers are unbounded integers except where the source relies on a modulus: jump indices are Goldilocks field
  elements with the sentinel -1 = p - 1, and the decoder's conversions to 16 and 64 bits are written out.
- A method that the source writes as a loop or as in-place updates is a method here too. It is proved against a
  specification function, and the properties are proved about that function.
- Quotient gadgets give zero for a zero divisor; the comment on the ceiling division that promises the dividend is
  not what its code does.
- A balance, risk, fee or account check whose formula is not part of the model is a function of the traded base
  amount in `Matching.Env`; every theorem holds for all of them.
- A perpetual position that another market left behind in the same slot is worth nothing and is re-initialized
  before use. The value of an account is therefore counted over positions of the market at hand.
- Reduce-only orders exist in perpetual markets only, stated as `ReduceOnlyInPerps`: order creation refuses them
  elsewhere (`l2_create_order.rs:614-624`, `l1_create_order.rs:222-224`, `l2_create_grouped_orders.rs:670-671`,
  `internal_liquidate_spot.rs:93`), and the engine relies on it.
- That the presented resting order is on the other side is not asserted anywhere: the engine checks that no better
  order of the other side exists, that prices cross and that leaf and account order agree in price and nonce. So no
  theorem assumes it except those that say so, through `OppositeSides` or `MeetsOpposite`; "## Findings" has what
  differs without it.
- That the open interest notional is within its maximum, stated as `WithinCap`, is proved for every perpetual market
  reached by engine steps, oracle updates, deleveraging and exits from a state within the cap
  (`ReachableStepMakesProgress`) and for the other markets (`OtherMarketsWithinCap`); `ProgressIff` says exactly what
  happens without it.
- That the presented accounts are the ones the orders name is checked outside the engine: the taker's when its order
  is claimed (`internal_claim_order.rs:67-71`), the resting order's owner by the tree its leaf is opened in
  (`tx_constraints.rs:2504-2560`). `MatchingLedger.Shows` states both.

## Model

| member | source | states |
|---|---|---|
| Jump.DefineTxLoop | circuit/src/block_tx_constraints.rs:445-675 | the loop over a group is the fold of `Run`: the state after the last step, or rejection at the first step whose assertions fail |
| Jump.ChainIsOneFold | circuit/src/block_tx_chain_constraints.rs:454-667 | a verified recursion of any depth, whatever public inputs its prover claims for earlier steps, is one uninterrupted fold from the initial jump state over all its groups |
| JumpRuns.AcceptedIndexDoesNotWrap | circuit/src/block_tx_constraints.rs:580-675 | with the sum of accepted gaps below the modulus, an accepted active step moves the field index forward by at most 2^32 and never around |
| JumpRuns.ActiveExtends | circuit/src/block_tx_constraints.rs:580-675 | an active step keeps a jump state in correspondence with the list of active transactions: heads, open run, coverage and claim chains |
| JumpRuns.RunRepresents | circuit/src/block_tx_constraints.rs:445-675 | with fewer than 2^32 active steps every reachable jump state stands for the active transactions of the list, in ascending index order |
| JumpRuns.ChainDeterminesRecords | circuit/src/block_tx_constraints.rs:590-660 | a hash chain determines its list of records |
| JumpRuns.FinalizeMeans | circuit/src/block_constraints.rs:513-562 | closing a jump state gives the chains of all runs and of all gaps below the total |
| JumpSoundness.PeelLastRun | circuit/src/block_constraints.rs:564-633 | two chains whose records agree up to a total still agree, with roles swapped, below the last run of the chain at the end |
| JumpSoundness.Unwind | circuit/src/block_constraints.rs:564-633 | records that agree force the two lists to merge into one root-linked sequence of indices 0 to total - 1 |
| JumpSoundness.BlockIsOneExecution | circuit/src/block_constraints.rs:463-633 | soundness: verified chains with shared initial roots that pass the jump checks merge into indices 0 to total - 1, each exactly once, with roots linked from the initial to the exposed final ones; with any active transaction exactly one chain is at the end |
| BlockChunks.FromJson | circuit/src/block.rs:240-298 | loading fails exactly without a trailing empty transaction or with one inside; otherwise the chunks feed both chains with the numbered active transactions and padding that repeats the last index of its type, tightly, or of an empty block with the fewest groups for each count |
| BlockChunks.ChunkTxs | circuit/src/block.rs:329-388 | each type gets at least one group, all groups are full, order within a type is kept, nothing is lost or duplicated, and no more is padded than the last group needs |
| BlockChunks.EmptyTxChunks | circuit/src/block.rs:301-327 | a block of nothing but padding gives both chains full groups that cover the requested counts |
| JumpCompleteness.OwnListRuns | circuit/src/block_tx_constraints.rs:580-675 | a linked ascending list of one type satisfies every step assertion exactly when no gap exceeds 2^32 |
| JumpCompleteness.SplitIsDual | circuit/src/block_constraints.rs:513-633 | splitting a linked block by type makes the runs of each list the gaps of the other |
| JumpCompleteness.LoadedBlockIsAcceptedIff | circuit/src/block.rs:240-388 | completeness: the chunks of a root-linked block can be proved exactly when no chain skips more than 2^32 indices at once; every way of proving them passes the jump checks and exposes the count and final roots of the block |
| JumpCompleteness.ShortBlocksFit | circuit/src/block_tx_constraints.rs:580-675 | blocks of at most 2^32 active transactions always meet that condition |
| JumpCompleteness.MergingTheSplitGivesTheBlock | circuit/src/block.rs:329-388 | merging the two lists by index gives the block back |
| SparseTree.NilHashMeansNoLeaves | desertexit/witness/smt.go:36-45 | a subtree hash equals the nil hash of its depth exactly when no leaf below is active |
| SparseTree.KeyPathInjective | desertexit/witness/smt.go:101-108 | distinct keys reach distinct leaves |
| SparseTree.CleanSubtreeKept | desertexit/witness/smt.go:146-193 | subtrees above no updated key keep their hash and activity |
| SparseTree.UpdateIsDetermined | desertexit/witness/tree_node.go:94-125 | the contract of an update fixes every node, its hash, activity and version included |
| SparseTree.UpdatesCompose | desertexit/witness/smt.go:116-139 | two updates at one version are one update |
| ParallelMark.MarkStepKeepsInv | desertexit/witness/tree_node.go:127-132 | one locked mark-and-extend or leaf update keeps marks and nodes equal to the paths visited so far |
| ParallelMark.MarkedTreeCanClimb | desertexit/witness/smt.go:195-214 | when all workers are done the marks are exactly those the climb relies on |
| ParallelClimb.AttemptSucceeds | desertexit/witness/tree_node.go:134-181 | a climbing worker never meets an empty mark mask or a nil child: it reports and stops, or reports and rehashes |
| ParallelClimb.PrunedNodeIsChildless | desertexit/witness/tree_node.go:142-146 | a pruned child has no children of its own |
| ParallelClimb.RehashIsCorrect | desertexit/witness/tree_node.go:152-180 | when both children have reported, rehashing prunes nothing more and yields the hash of the flat map |
| ParallelClimb.StepKeepsInv | desertexit/witness/smt.go:216-227 | every step of every worker keeps the invariant that ties marks, hashes, positions and the rehash log |
| ParallelClimb.ScheduleKeepsInv | desertexit/witness/smt.go:173-193 | over a whole schedule the steps taken and the marks left add up to the marks set, so every schedule is finite |
| ParallelClimb.FinishedClimb | desertexit/witness/smt.go:173-193 | with no worker left no mark is left, and the tree is the update of the flat map |
| ParallelRuns.EveryMarkingIsComplete | desertexit/witness/smt.go:146-214 | in every interleaving of the first phase unfinished workers can move, and the finished phase allows the climb |
| ParallelRuns.EveryInterleavingUpdates | desertexit/witness/smt.go:146-227 | in every interleaving of both phases no step fails or returns early, and the end state is the update of the flat map with each marked inner node rehashed once, after its marked children |
| ParallelRuns.ParallelEqualsSequential | desertexit/witness/smt.go:116-193 | the parallel result equals, node for node, what sequential sets of the same items build in any order |
| SequentialSet.RehashesOneLevel | desertexit/witness/tree_node.go:94-125 | one round of sequential rehashing moves the border of correct nodes up by one level |
| MerkleOpenings.RecalculateRoot | circuit/src/merkle_helpers.rs:144-157 | the leaf-to-root loop computes the fold of swapped hashes |
| MerkleOpenings.OpeningIsUnique | circuit/src/merkle_helpers.rs:94-157 | a hash and a proof open the root exactly when both are the tree's own |
| MerkleOpenings.RecalculatedRootIsUpdate | circuit/src/merkle_helpers.rs:144-157 | recomputing with another leaf and the old siblings gives the root after setting only that leaf |
| SparseMerkle.SparseMerkleTree.constructor | desertexit/witness/smt.go:57-81 | a new tree is settled for the empty map |
| SparseMerkle.SparseMerkleTree.NewSparseMerkleTree | desertexit/witness/smt.go:57-81 | depth zero is refused, any other depth gives the empty tree |
| SparseMerkle.SparseMerkleTree.RootOf | desertexit/witness/smt.go:234-237 | the root is the hash of the flat map |
| SparseMerkle.SparseMerkleTree.IsEmpty | desertexit/witness/smt.go:229-232 | empty means no active leaf |
| SparseMerkle.SparseMerkleTree.Get | desertexit/witness/smt.go:83-114 | the leaf of the flat map or its nil hash, with all error cases in order |
| SparseMerkle.SparseMerkleTree.SetWithVersion | desertexit/witness/smt.go:116-139 | all error cases; otherwise the flat map changes at one key and every node is hashed, pruned and versioned accordingly |
| SparseMerkle.SparseMerkleTree.MultiSetWithVersion | desertexit/witness/smt.go:146-193 | accepts exactly lists of distinct valid keys and then updates the flat map, whatever the order of worker steps; an error names the first bad item and leaves the root hash |
| SparseMerkle.SparseMerkleTree.GetProof | desertexit/witness/smt.go:239-274 | the sibling hashes of the flat map from the leaf up, for empty and pruned subtrees too |
| SparseMerkle.SparseMerkleTree.VerifyProof | desertexit/witness/smt.go:276-314 | accepts exactly the tree's own sibling list of a valid key |
| SparseMerkle.SparseMerkleTree.CommitWithNewVersion | desertexit/witness/smt.go:340-349 | sets the version and keeps the content |
| PerpsTrade.ApplyPerpsTrade | circuit/src/apply_trade.rs:203-666 | the step by step update of both sides equals `PerpsTrade`, or is refused when total fees are negative |
| PerpsTrade.SidePosition | circuit/src/apply_trade.rs:203-798 | collateral and margin of a side together grow by funding, realized profit and fee, whatever margin moves between them |
| PerpsTrade.SideValue | circuit/src/apply_trade.rs:203-798 | for every mark price and funding prefix sum a side's value changes by the notional it takes on, the quote it pays and its fee, despite floor-rounded entry quotes; a closed position books no entry quote |
| PerpsLedger.TradeConserves | circuit/src/apply_trade.rs:203-666 | one fill leaves the total value of taker, maker, fee account and all others unchanged, at every mark price and prefix sum |
| PerpsLedger.RunConserves | circuit/src/apply_trade.rs:203-666 | so does every run of fills, and open interest stays the sum of position sizes |
| PerpsLedger.SidesAreFair | circuit/src/apply_trade.rs:424-446 | who pays what: at every mark price and prefix sum the buyer's worth moves by notional less quote and by funding, the seller's the opposite way, each less its own fee, and the fees collected are the two together |
| PerpsLedger.TradeSetsMode | circuit/src/apply_trade.rs:668-798 | a first trade opens in the market's default mode, for pools cross, and a trade stores the larger of the least margin fraction and the position's own or the default |
| PerpsLedger.MarketValueIsValue | circuit/src/apply_trade.rs:857-905 | the worth margin is measured by is the position's value at the mark price with funding settled |
| PerpsLedger.EmptyFillConservesIff | circuit/src/apply_trade.rs:668-798 | with base zero a side's value changes by its fee, and by the quote exactly when it holds no position and the quote is positive |
| PerpsLedger.InterestCovers | circuit/src/apply_trade.rs:630-645 | open interest is at least the positions of any two accounts together, so trades and exits never take it below zero |
| PerpsLedger.ReducedEntryIsProRata | circuit/src/apply_trade.rs:733-764 | reducing keeps the entry quote pro rata, rounded down by less than one |
| PerpsLedger.OpenedEntryIsAtWholePrice | circuit/src/apply_trade.rs:717-764 | what is opened is booked at the greatest whole price within the quote, and at nothing for a quote that is not positive |
| PerpsLedger.OpenedEntryIsAtPrice | circuit/src/apply_trade.rs:717-764 | at a quote of base times price, opening, adding and flipping book exactly the price of what is opened |
| PerpsLedger.ClosingReleasesMargin | circuit/src/apply_trade.rs:857-873 | closing an isolated position pays margin, funding, profit and fee out to the account when their sum is positive and keeps a loss with the position |
| PerpsLedger.FlippingMeetsRequirement | circuit/src/apply_trade.rs:906-925 | after a trade that flips an isolated position, the position is worth exactly size times mark price times its stored margin fraction |
| PerpsLedger.ReducingKeepsTarget | circuit/src/apply_trade.rs:964-1070 | a trade that reduces an isolated position moves out margin only while the requirement and the old value's share are kept, never more than there is, and then all it may |
| PerpsLedger.AddingIsFunded | circuit/src/apply_trade.rs:927-962 | opening at a multiple of the base, or adding at any positive quote, realizes nothing, raises the value by at least the requirement of the addition, and moves margin in only up to exactly that |
| BinaryOptions.EntryStaysBounded | circuit/src/apply_trade.rs:1109-1202 | through close, open and flip at a price within the cap the entry quote stays between zero and cap times size, and taking the absolute value loses no sign |
| BinaryOptions.ClosedPartIsProRata | circuit/src/apply_trade.rs:1131-1146 | closing keeps the entry quote of what is left pro rata, rounded up by less than one |
| BinaryOptions.FullCloseLeavesNothing | circuit/src/apply_trade.rs:1109-1202 | closing everything leaves size and entry quote zero |
| BinaryOptions.AboveTheCapSignsAreLost | circuit/src/apply_trade.rs:1159-1178 | above the cap a sign is lost: a concrete share |
| BinaryOptions.OpenSignKeptIff | circuit/src/apply_trade.rs:1140-1165 | an opening NO trade keeps the sign exactly when its quote is within cap times base |
| BinaryOptions.OpeningBooksExactly | circuit/src/apply_trade.rs:1109-1202 | with nothing to close a buyer books exactly the quote, a seller exactly cap times base less the quote, and the trade is valid exactly within 56 bits |
| BinaryOptions.OpeningsBookTheCap | circuit/src/apply_trade.rs:1109-1202 | two opening sides of one trade together book the cap of every share |
| BinaryOptions.ReducingBooksProRata | circuit/src/apply_trade.rs:1131-1146 | a trade that closes part of a position keeps its entry quote pro rata, rounded up by less than one |
| BinaryOptions.FlippingBooksProRata | circuit/src/apply_trade.rs:1109-1202 | a flip closes everything and books the opened part pro rata, a buyer's rounded down and a seller's up by less than one |
| BinaryOptions.TradeIsFunded | circuit/src/apply_trade.rs:1208-1390 | balances of both sides and the fee account move against the escrow of the NO exposure, sizes cancel, open interest moves with the sizes |
| BinaryOptions.DisabledMovesNothing | circuit/src/apply_trade.rs:1343-1390 | where no binary options trade happens, positions, balances and interest stay and everything is valid |
| BinaryOptions.TradeIsAdmittedIff | circuit/src/apply_trade.rs:1343-1390 | a trade is refused exactly for a negative quote or taker fee, and open interest may grow only within the market's limit |
| BinaryOptions.TradeKeepsSound | circuit/src/apply_trade.rs:1208-1390 | an accepted trade keeps sizes summing to zero, open interest, and balances plus escrow |
| BinaryOptions.RunKeepsSound | circuit/src/apply_trade.rs:1208-1390 | so does every run of accepted trades |
| BinaryOptions.RunKeepsEntries | circuit/src/apply_trade.rs:1109-1202 | within the cap every reachable position books at most cap times size |
| BinaryOptions.SettlementIsExact | desertexit/witness/utils.go:475-499 | solvency: after any run and at every settlement price within the cap, all payouts together equal the escrow exactly |
| BinaryOptions.SidesAreFair | circuit/src/apply_trade.rs:1208-1340 | valued at any settlement price the buyer gains the price of the shares less the quote, the seller loses as much, and each side pays its own fee to the fee account |
| SpotTrade.SpotTradeConserves | circuit/src/apply_trade.rs:53-201 | no amount of either asset is created or lost, whoever collects the fees |
| SpotTrade.SpotSidesAreFair | circuit/src/apply_trade.rs:53-201 | the buyer pays the quote and the seller the base, each its own fee in the asset it receives, and the fee account collects both |
| SpotTrade.SpotRefusedIff | circuit/src/apply_trade.rs:71-76 | a trade is refused exactly for a negative quote or fee |
| SpotTrade.FillTakesWhatWasLocked | circuit/src/apply_trade.rs:53-201 | a fill at the resting price debits a maker exactly the amount the engine unlocks, which goes by the order's own side, when the order is on the other side than the taker; with fees of at most the whole, only then or in an empty fill |
| SpotTrade.FillDebitsLockedAsset | circuit/src/matching_engine.rs:3145-3173 | the asset a fill unlocks is the one the maker is debited in, by the unlocked amount, and the only one |
| Liquidation.QuotientIsTight | circuit/src/liquidation.rs:232-247 | the rounding picks the least integer quotient on the long side and the greatest on the short side |
| Liquidation.ClosingImprovesIff | circuit/src/liquidation.rs:182-250 | before any margin moves, closing at a quote keeps the ratio exactly when the quote is on the right side of the true quotient |
| Liquidation.TradingIsClosing | circuit/src/apply_trade.rs:964-1070 | the perpetual trade, with the margin it moves out of an isolated position, improves the ratio exactly when closing does, in both margin modes |
| Liquidation.ZeroQuoteIsTheLimit | circuit/src/liquidation.rs:182-250 | closing any part at a quote keeps or improves the ratio of threshold to maintenance margin exactly when the quote is at least as good as the zero quote: for a cross position against its account, for an isolated one against itself with the margin the trade moves |
| Liquidation.ZeroPriceKeepsRatioIff | circuit/src/liquidation.rs:100-179 | closing at the zero price keeps the ratio, in both margin modes, except for a long cut to the largest price and a short raised to one |
| Liquidation.ZeroPriceIsTheLimit | circuit/src/liquidation.rs:100-179 | among all order prices a long's zero price is the least that keeps the ratio, or the largest price when none does, a short's the greatest, or one |
| NotionalCap.OracleAcceptsIff | circuit/src/block_pre_execution_constraints.rs:642-672 | the two nested floor divisions accept exactly the mark prices that keep the notional within the cap |
| NotionalCap.StepMovesInterest | circuit/src/matching_engine.rs:2083-2188 | an engine step on a perps market leaves open interest where it was or at the traded value, within the cap either way |
| NotionalCap.DeleverageShrinks | circuit/src/transactions/internal_deleverage.rs:280-390 | deleveraging, which has no notional test, never raises open interest nor takes it below zero |
| NotionalCap.NextKeepsCap | circuit/src/matching_engine.rs:2083-2188 | engine steps, oracle updates, deleveraging and exits each keep the cap |
| NotionalCap.ReachableStepMakesProgress | circuit/src/matching_engine.rs:216-1567 | after every run of those events the cap holds, and an accepted engine step from there pops the taker or removes the resting order exactly when its fill does not stall; on an order of the other side it always does |
| NotionalCap.OtherMarketsWithinCap | circuit/src/tx_constraints.rs:2605-2627 | spot and binary options markets read empty market details, so their notional is zero and every step makes progress |
| BookTree.RecalculateOrderBookTreeRoot | circuit/src/order_book_tree_helpers.rs:51-66 | the loop computes the fold of child hashes and sums |
| BookTree.BookOpeningIsUnique | circuit/src/order_book_tree_helpers.rs:33-49 | a presented order and path pass the root check exactly when they are the book's own, sums included |
| BookTree.GetOrderBookPathDelta | circuit/src/matching_engine.rs:52-145 | every node on the new path holds the old sums with the old order replaced; it is accepted exactly when the four top sums have 63 bits |
| BookTree.TopBoundsEveryNode | circuit/src/matching_engine.rs:127-142 | checking the top is enough: when the root's sums are in range, every node's are |
| BookTree.DeltaPathIsRebuiltPath | circuit/src/matching_engine.rs:52-145 | that path and its root are those of the book rebuilt with the one order replaced, at any depth |
| BookTree.GetQuote | circuit/src/matching_engine.rs:148-206 | the loop computes the sum over the levels that lie on the better side |
| BookTree.QuoteIsBetterOrders | circuit/src/matching_engine.rs:147-206 | the quote is exactly the flat sum over all opposite orders of strictly better priority |
| BookTree.ZeroQuoteIsBest | circuit/src/matching_engine.rs:410-420 | a zero base sum holds exactly when no better index holds an opposite order |
| BookTree.PathOfPriceAndNonce | circuit/src/order_book_tree_helpers.rs:17-31 | the bits of nonce and price are the tree path of the combined index |
| BookTree.IndexOrder | circuit/src/order_book_tree_helpers.rs:17-31 | indices order by price first and nonce second |
| ImpactPrice.MarginalIsUnique | circuit/src/matching_engine.rs:3564-3580 | at most one leaf of a priced side passes both range assertions |
| ImpactPrice.MarginalExists | circuit/src/matching_engine.rs:3560-3580 | some leaf passes them whenever the side holds the notional |
| ImpactPrice.ImpactPriceIsFlat | circuit/src/matching_engine.rs:3538-3610 | what the assertions and the result mean for the flat book |
| ImpactPrice.ImpactPriceOfBook | circuit/src/matching_engine.rs:3538-3610 | a price results exactly for the marginal leaf, and lies between the best price and the leaf's own |
| ImpactPrice.AcceptedIsMarginal | circuit/src/matching_engine.rs:3538-3610 | with the price bits of the index as price: an accepted leaf is the book's own marginal one, path included, and its impact price lies between the best price and the leaf's own |
| ImpactPrice.ImpactPriceIsAverage | circuit/src/matching_engine.rs:3582-3607 | with the better orders taken whole and as few units of the leaf as reach the notional, an ask's impact price is the least integer that covers all of it, a bid's the greatest within it |
| ImpactPrice.ImpactPriceIsDetermined | circuit/src/tx_constraints.rs:2763-2800 | any two leaves that open the root and pass the assertions yield the same price, and are the same leaf when the side holds the notional |
| ImpactPrice.ImpactPriceExists | circuit/src/matching_engine.rs:3560-3580 | for every positive notional some leaf is accepted |
| ImpactPrice.UpdateKeepsPriced | circuit/src/matching_engine.rs:1362-1372 | writing a leaf whose quote is base times the price of its index keeps every quote of the book that way |
| ImpactPrice.WrittenBookIsPriced | circuit/src/matching_engine.rs:1362-1372 | so every book built by such writes has quotes of base times price |
| Matching.SlippagePaysFor | circuit/src/matching_engine.rs:813-865 | no fill costs more than the slippage budget |
| MatchingProgress.DecidedMeans | circuit/src/matching_engine.rs:320-781 | whatever the cascade decides, it is either undecided on a resting order with both reductions in the right direction, or has exactly one kind of decision; the order may be on either side |
| MatchingProgress.TradesIff | circuit/src/matching_engine.rs:320-1155 | the cases, read off the input and the outcomes of the checks, in which the engine trades |
| MatchingProgress.TradeFinishesIff | circuit/src/matching_engine.rs:782-1416 | a trade finishes the taker or the maker in every clipping case but one: a fill cut to the position that an order of the taker's own side may only reduce, with a taker that goes on |
| MatchingProgress.StepMakesProgressIff | circuit/src/matching_engine.rs:216-1567 | under the notional cap an accepted step with the matching flag pops the taker or removes the resting order exactly when it is not such a fill, whichever side is presented |
| MatchingProgress.StepMakesProgress | circuit/src/matching_engine.rs:216-1567 | in particular every such step on an order of the other side, and every one outside perps markets |
| MatchingProgress.CancelsOnlyTakerIff | circuit/src/matching_engine.rs:325-865 | the cases, read off the pending order, the presented order and the settings, in which the cascade cancels the taker and leaves the resting order alone |
| MatchingProgress.ProgressIff | circuit/src/matching_engine.rs:2148-2188 | a step makes progress exactly when its fill does not stall and, above the cap, the cascade had not decided to cancel only the taker |
| MatchingProgress.NoProgressAboveTheCap | circuit/src/matching_engine.rs:2148-2188 | such a step: an immediate-or-cancel order on an empty book above the cap |
| MatchingProgress.StepKeepsCap | circuit/src/matching_engine.rs:2083-2188 | a step on any market that starts within the cap ends within it |
| MatchingProgress.DecisionsTakeEffect | circuit/src/matching_engine.rs:1546-1715 | a finished taker leaves the register stack, a removed maker leaves an empty leaf |
| MatchingRuns.TurnRemovesOne | circuit/src/matching_engine.rs:216-1727 | a step that does not finish the taker removes the one resting order it met, of either side, or leaves all orders in place, and never raises the pending size |
| MatchingRuns.MovingIsBounded | circuit/src/matching_engine.rs:216-1727 | in any run of accepted steps at most one step more makes progress than there are resting orders |
| MatchingRuns.RunIsBounded | circuit/src/matching_engine.rs:216-1727 | within the cap a taker finishes within the resting orders of both sides plus the units of its size plus one steps, whatever is presented |
| MatchingRuns.RunWithoutStalls | circuit/src/matching_engine.rs:216-1727 | without stalled fills it finishes within the resting orders of both sides plus one steps |
| MatchingRuns.OppositeRunIsBounded | circuit/src/matching_engine.rs:216-1727 | presented with orders of the other side it finishes within those plus one steps |
| MatchingRuns.BudgetNeverNegative | circuit/src/matching_engine.rs:813-865 | over every run of accepted steps the start value plus all price improvements never goes negative |
| MatchingRuns.AveragePriceNoWorse | circuit/src/matching_engine.rs:1300-1333 | from a zero start the average fill price of every run of accepted steps is never worse than the order's price, for asks and bids |
| MatchingVerdict.StepTakesVerdict | circuit/src/matching_engine.rs:216-1567 | within the cap the cascade of flags takes exactly the decision of a decision list over its input: rest, drop taker, maker or both, reduce both, or trade, and then which orders are finished |
| MatchingVerdict.TradeAmountIsLargest | circuit/src/matching_engine.rs:782-865 | the traded amount is the largest both orders have, reduce-only positions allow and the slippage budget pays for |
| MatchingVerdict.EndsIff | circuit/src/matching_engine.rs:1370-1416 | a traded order is finished exactly when it is filled, has nothing left to reduce, could trade more but for its budget, or is a liquidation no longer needed |
| MatchingEffects.StepMovesOrders | circuit/src/matching_engine.rs:1300-1715 | a step takes one amount off both orders and changes nothing else of them but the slippage budget; an inserted order rests as it was asked for, a removed one is empty |
| MatchingEffects.StepMovesPositions | circuit/src/matching_engine.rs:1155-1335 | positions move by what was traded, in opposite ways, and open interest by what their sizes grow; nothing else moves either |
| MatchingEffects.ReduceOnlyReduces | circuit/src/matching_engine.rs:763-812 | a reduce-only order only reduces: what it trades comes off its position, whose sign stays; for the resting order on the other side |
| MatchingEffects.StepTells | circuit/src/matching_engine.rs:1615-1980 | children of ended orders are cancelled or triggered with what was filled, tied orders of a flipped position cancelled, fees passed on |
| MatchingEffects.InsertCounts | circuit/src/matching_engine.rs:3012-3082 | all order counts of the taker go up together for an inserted order |
| MatchingEffects.RemovalCounts | circuit/src/matching_engine.rs:3084-3143 | all order counts of the owner go down together for a removed one |
| MatchingPrices.OpeningOkIff | circuit/src/matching_engine.rs:325-482 | the opening's assertions hold exactly when an empty leaf is the taker's own, a frozen book is only rested in, the leaf has no better one, and prices cross |
| MatchingPrices.AcceptedIff | circuit/src/matching_engine.rs:216-1727 | a step is accepted exactly when those hold, the presented maker is the owner, locks can be released and made, fees are accepted and a finished taker was queued: prices that cross are never the reason for a refusal |
| MatchingPrices.LimitPriceHolds | circuit/src/matching_engine.rs:429-482 | an accepted trade is at a price the taker's limit allows, and at the resting order's own price |
| MatchingPrices.TradeTakesTheBest | circuit/src/matching_engine.rs:410-420 | no order of the other side in the book has a better index than the one a step trades with |
| MatchingPrices.LimitRunNoWorse | circuit/src/matching_engine.rs:429-450 | over every run a limit order sells for at least, or buys for at most, its price times the base traded, in total and in every fill |
| MatchingExamples.OwnSideStall | circuit/src/matching_engine.rs:451-474 | a stalled fill: a bid of 10 in front of a resting reduce-only bid of 10 whose owner is short 5 |
| MatchingExamples.OwnSideRun | circuit/src/matching_engine.rs:451-474 | a run of two steps on a book without asks: a bid of 20 takes a resting bid of 10 and comes to rest |
| MatchingRuns.StepKeepsAgreement | circuit/src/matching_engine.rs:1335-1372 | after every step the book leaf and the account order agree: remaining amount, inserted order, or both empty; an order inserted to wait for its trigger leaves the leaf alone |
| MatchingLight.ExecuteMatchingLight | circuit/src/matching_engine.rs:3612-3836 | whatever the light engine accepts the full one accepts under the notional cap, with the same state: leaf, account order, stack, instructions, counts and locked balances |
| MatchingLight.Decide | circuit/src/matching_engine.rs:3612-3764 | the light cascade takes the full engine's decision |
| MatchingInPlace.TxState.Execute | circuit/src/matching_engine.rs:216-1727 | the in-place form of the engine, stage by stage, computes `ExecuteMatching` |
| MatchingInPlace.TxState.Admit | circuit/src/matching_engine.rs:325-400 | flag by flag: orders that wait for a trigger, reduce in the wrong direction or come to a frozen book |
| MatchingInPlace.TxState.Face | circuit/src/matching_engine.rs:421-482 | flag by flag: orders that find nothing to cross, and what the presented order must match |
| MatchingInPlace.TxState.Screen | circuit/src/matching_engine.rs:670-781 | flag by flag: expired orders, accounts of one master, post-only takers, makers that reduce in the wrong direction |
| MatchingInPlace.TxState.Amount | circuit/src/matching_engine.rs:782-865 | the traded amount, cut to both sizes, to reducing positions and to the slippage budget |
| MatchingInPlace.TxState.Remove | circuit/src/matching_engine.rs:1569-1650 | the in-place removal computes `RemoveMaker` |
| MatchingInPlace.TxState.Insert | circuit/src/matching_engine.rs:1685-1727 | the in-place insertion computes `InsertTaker` |
| MatchingInPlace.TxState.ApplySelfTradeReduce | circuit/src/matching_engine.rs:2855-2952 | the in-place self-trade reduction computes `SelfTradeReduce` |
| MatchingInPlace.TxState.HandleSelfTrades | circuit/src/matching_engine.rs:557-668 | the in-place self-trade cases compute `SelfTrades` |
| MatchingInPlace.TxState.Trade | circuit/src/matching_engine.rs:1155-1416 | the in-place application of a trade computes `ApplyTrade` |
| MatchingInPlace.TxState.Finish | circuit/src/matching_engine.rs:1546-1715 | the in-place ending computes `Conclude` |
| MatchingLocks.StepLocksExactly | circuit/src/matching_engine.rs:1341-1360 | over one engine step in any market locked balances move by exactly what the resting order no longer needs, for its owner and in its asset, and by what an inserted order needs: fills, trades with oneself, removals and inserts |
| MatchingLocks.MiddleTakes | circuit/src/matching_engine.rs:2855-2952 | up to the conclusion a step takes one amount off the resting order and releases its lock to the owner, once |
| MatchingLocks.CountsFollowDecisions | circuit/src/matching_engine.rs:3012-3143 | order counts of market and accounts go up with an insert of the taker and down with a removal, at the owner |
| LockedBalance.ChangeLockedBalance | circuit/src/matching_engine.rs:3175-3274 | the walk over asset slots changes the first matching one, or fails without a slot, below zero or above 96 bits |
| LockedLedger.AdjustMovesOne | circuit/src/matching_engine.rs:3175-3274 | a change moves one asset and no other |
| LockedLedger.EventMovesOwnAsset | circuit/src/matching_engine.rs:3145-3274 | inserts, takes and cancels of an ask move only its owner's slot of the market's base asset, those of a bid only that of the quote asset, by base times the side's multiplier |
| LockedLedger.LockSucceedsIff | circuit/src/matching_engine.rs:3175-3274 | locking succeeds exactly with a slot of that asset and room below 2^96, releasing exactly with as much locked |
| LockedLedger.RunKeepsBalance | circuit/src/matching_engine.rs:3012-3274 | after any run of inserts, takes and cancels each non-insurance account has locked exactly what its resting orders need, counts are the numbers of resting orders, and no take or cancel underflows |
| MatchingLedger.StepIsEvents | circuit/src/matching_engine.rs:216-1727 | every accepted engine step writes back what a run of at most a take and a cancel, or an insert, makes of the ledger: right order, owner, asset, amount and counts |
| MatchingLedger.RunsKeepBalance | circuit/src/matching_engine.rs:3012-3274 | over any run of engine steps mixed with other inserts, fills and cancels, locked balances are exactly what the resting orders need and counts their numbers |
| MatchingLedger.ReleaseNeverFails | circuit/src/matching_engine.rs:3209-3274 | so after any run no release of the engine underflows |
| PubdataStream.GetLimbs | desertexit/witness/pub_data_decoder.go:34-43 | the loop splits bytes into limbs, low nibble first |
| PubdataStream.LimbsOfPack | desertexit/witness/pub_data_decoder.go:34-43 | unpacking packed limbs gives them back |
| PubdataStream.PubdataDecoder.DecompressTarget | desertexit/witness/pub_data_decoder.go:23-32 | reads the target at the front of what remains |
| PubdataStream.ReadFirst | desertexit/witness/pub_data_decoder.go:23-32 | reading returns the target that was written first and leaves the rest |
| PubdataFields.PositionRoundTrip | desertexit/witness/utils.go:186-204 | market index, funding of up to 63 bits and size survive packing, signs included |
| PubdataFields.OrIsBitwise | desertexit/witness/utils.go:194 | a bit of the funding rate is set exactly when the carry or the low field sets it |
| PubdataFields.Int64Wraps | desertexit/witness/utils.go:196-197 | the conversion to 64 bits gives the one number of that range congruent to the pattern |
| PubdataFields.Int16Wraps | desertexit/witness/utils.go:212 | the conversion to 16 bits gives the one number of that range congruent to the pattern |
| PubdataFields.OptionRoundTrip | desertexit/witness/utils.go:207-219 | binary options positions survive packing |
| PubdataFields.AssetRoundTrip | desertexit/witness/utils.go:221-233 | balances survive the 48-bit split |
| PubdataFields.ShareRoundTrip | desertexit/witness/utils.go:235-253 | shares and reversed pool indices survive packing |
| PubdataFields.PoolRoundTrip | desertexit/witness/utils.go:169-184 | pool totals survive packing |
| PubdataFields.AddressRoundTrip | desertexit/witness/utils.go:157-168 | addresses survive the reversed 7, 7 and 6 byte chunks |
| PubdataFields.MarketRoundTrip | desertexit/witness/utils.go:118-138 | market entries of both versions survive packing |
| PubdataDeltas.BodyRoundTrip | desertexit/witness/utils.go:147-250 | an account of any shape is read back and nothing behind it is touched |
| PubdataDeltas.AccountsRoundTrip | desertexit/witness/utils.go:139-257 | a sorted list of accounts is read back, and reading stops at the padding |
| PubdataDeltas.RoundTrip | desertexit/README.md:17-98 | round trip: any market deltas and any non-empty sorted list of accounts, encoded, packed and zero padded, decode to the same deltas |
| PubdataDeltas.DeltasHoldAll | desertexit/witness/utils.go:255-256 | the decoded map holds every published account and no other |
| PubdataDeltas.EmptyStreamIsAccountZero | desertexit/witness/utils.go:142-150 | an empty stream decodes to one empty account 0 |
| PubdataDeltas.SortSharesSorts | desertexit/witness/utils.go:250-253 | the final order of shares is a sorted permutation |
| PubdataDecoding.BytesToDeltas | desertexit/witness/utils.go:113-260 | the decoder object with its loops computes `Decode` of the bytes |

## Findings

Properties that fail, each with an input and the exact condition under which they hold.

| property | fails on | holds exactly when |
|---|---|---|
| a step within the cap finishes the taker or removes the resting order | `MatchingExamples.OwnSideStall`: a resting reduce-only bid in front of a bid | `MatchingProgress.StepMakesProgressIff`: the fill is not cut for a reduce-only order of the taker's own side, or it finishes the taker |
| a taker finishes within the resting orders of the other side plus one steps | `MatchingExamples.OwnSideRun`: a book without asks | holds when those are presented (`OppositeRunIsBounded`); in general `RunIsBounded`, without stalls `RunWithoutStalls` |
| a step makes progress above the notional cap | `MatchingProgress.NoProgressAboveTheCap`: an immediate-or-cancel order on an empty book | `MatchingProgress.ProgressIff`: the cascade had not decided to cancel only the taker |
| a spot fill debits what the engine unlocks | an order of the taker's own side | `SpotTrade.FillTakesWhatWasLocked`: the sides differ, or nothing is locked |
| closing at the zero price keeps the ratio | a long cut to the largest price, a short raised to one | `Liquidation.ZeroPriceKeepsRatioIff` |
| a fill of base zero conserves value | an empty position and a positive quote | `PerpsLedger.EmptyFillConservesIff` |
| an opening NO trade keeps the sign of its entry quote | `BinaryOptions.AboveTheCapSignsAreLost` | `BinaryOptions.OpenSignKeptIff` |

## Left out

- Proving, gates, witness seeding, serialization, timing and public-input slicing: plumbing.
- Signatures and hash internals: hashes are free constructors, signatures do not occur.
- On-chain public data, priority operations and message selection of the chain circuit: counters settled by one branch.
- Risk parameter formulas, balance checks and fee curves in front of a trade: parameters of the engine, see above.
- `OrderBookTree::insert_leaf`: the witness-side tree; the circuit-side update is modelled for all four sums.
- PerpsTrade.ApplyPerpsTrade: only the form with a set flag; the new risk infos are given for the traded side in
  `Liquidation`, and a position's order-count fields in `Matching`.
- SparseMerkle.SparseMerkleTree.VerifyProof: a stored leaf of zero bytes, which the original reads as a nil leaf, is
  not represented, because leaves are digests.
- SparseMerkle.SparseMerkleTree.MultiSetWithVersion: on an error it promises the root hash only, because workers of
  accepted items may still be running and leave marks and leaves behind.
- SparseMerkle.SparseMerkleTree.NewSparseMerkleTree: a goroutine pool that cannot be created is not modelled.
- SparseMerkle.SparseMerkleTree.SetWithVersion: the pointer graph is a map from paths to nodes, so aliasing of nodes
  is not represented; pruned nodes are shown to be childless instead.
- NotionalCap.NextKeepsCap: the product of open interest and price is an integer here; the circuit computes it in the
  field and relies on its bit widths.
- MatchingRuns.RunIsBounded: it follows one taker without the instructions that its steps push in front of it.
- MatchingInPlace.TxState.Trade: collateral, margins and asset balances move in `PerpsTrade`, `SpotTrade` and
  `BinaryOptions`; here a trade moves sizes, positions, open interest, slippage and locks.
- MatchingLedger.RunsKeepBalance: an account's slots are those of all its assets; that a transaction loads only the
  two of its market and writes them back is not represented.
- PubdataFields.AddressRoundTrip: the address is kept as bytes; its hexadecimal form is not part of this model.
- PubdataDeltas.RoundTrip: the fixed market sections of a blob are not part of this model.
- Funding clamps and premium sampling of the pre-execution circuit: only the mark-price cap is modelled.
