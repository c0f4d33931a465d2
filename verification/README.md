# Call auction verification

A Dafny 4.11 model of the call-auction stack and of two data structures under it, with proofs over
every input, every book and every run. `dafny verify dfyconfig.toml` checks the whole project.

The stack has three layers, and each layer's theorems rest on those below.

1. **Clearing and allocation** (`src/auction.rs`). `Clearing` holds the price ranking, `Discovery`
   the interval sweep and its brute-force specification, `MulDiv` the bit-serial multiply and
   divide, `Allocation` price-time and tiered pro-rata fills.
2. **Collection book** (`src/auction_book.rs`). `AbstractBook` is the book as a plain map of orders
   with the verdict and effect of every operation. `Chains` describes intrusive doubly linked lists
   declaratively, as nearest neighbours, and `RestingIndex` the two lists every order is in.
   `AuctionBook` is the book as it runs: a class whose methods update nodes, queues, lanes and
   counters in place and are proved to do what `AbstractBook` says. `BookInterest`, `Pairing`,
   `Preparing`, `Uncross`, `UncrossLaws` and `UncrossSteps` cover the two-phase uncross.
   `AdmissionLaws` says bound by bound what the book accepts and why it refuses, `PriorityLaws` who is
   served before whom. `CrossingCycle` is a client that discovers, crosses and discovers again,
   `BookAudit` the book's own audit and `BookRestoration` rebuilding a book from unchecked saved parts.
3. **Sequenced engine** (`src/auction_engine.rs`). `EngineTypes` and `EngineModel` define commands,
   decisions, events and one committed step, `EngineRuns` whole runs; `DecisionLaws` states every
   decision with its exact condition. `RunLaws` proves sequencing, idempotent retries and the two
   protected lanes, `LaneLaws` restates them on commands, and `StarvingRun` shows where the event lane
   ends; `PhaseAudit` is the independent controller audit and `EngineAudit` the engine's own;
   `ReportGrammar` and `GrammarLaws` the report grammar; `Projection`, `UncrossProjection`,
   `ProjectionLaws`, `Checkpoint`, `Restoration` and `RestoredEngines` checkpoints. `AuctionEngine`
   is the engine as it runs, proved to take exactly the modelled steps.

`BoundedHash` (`src/bounded_hash.rs`) is the linear-probing index with backward-shift deletion, and
`Magnitudes` (`src/ledger_magnitude.rs`) multi-limb addition, comparison and decimal printing.
`Domain`, `Arithmetic`, `Sums`, `SetSums`, `Ascending` and `ReportCache` are shared definitions.

## Main results

- `UncrossLaws.UncrossReallyUncrosses`: committing an uncross at the discovered price leaves no
  on-grid price of the band with interest on both sides, so rediscovery finds nothing.
- `Restoration.RestoringIsABisimulation`: a restored engine answers every later command sequence
  like the original; `RestoredEngines.RestoredIsWellFormed`: whatever checkpoint restores, captured
  or not, is a well-formed engine, and `RestoredEngines.CaptureOfRestored` is the other round trip.
- `Checkpoint.EventsDetermineState` and `PhaseAudit.EveryRunPassesTheAudit`: two independent replays
  of the retained history end in the live state, on every run.
- `Discovery.DiscoverBoundedClearingPrice`: the sweep is the brute-force search, and its answer is the
  best state in demand and supply alone (`Discovery.DiscoveryMeans`).
- `PriorityLaws`: who executes before whom, at the level of the book, under both allocation policies;
  `UncrossSteps.UncrossedByPolicy`: which orders rest after an uncross.
- `DecisionLaws.DecisionExactly`: every rejection, failure and action of the engine has its exact
  condition, the book's bounds included (`AdmissionLaws`).
- `AuctionBook.CallAuctionBook`: every operation on the linked structure is the operation on a plain
  map, keeps every invariant, and its internal checks cannot fail; `BookAudit.SoundExactly` says what
  the book's audit does and does not establish, and it accepts every book any operation leaves.
- `RunLaws.TerminalCommandsNeverStarve`, `RunLaws.TerminalEventsNeverStarve`,
  `RunLaws.EveryRunIsSequenced`, `RunLaws.RetriesReplay`: safety of whole runs; `LaneLaws` names the
  commands the reserve is for and proves it on them.
- `EngineAudit.EveryReachableEnginePasses`: the engine's own audit, the book's inside it, accepts every
  state any run reaches, from genesis or from any checkpoint that restores.
- `StarvingRun.EventLaneHoldsExactly`: exactly which order bounds keep room for every terminal event.
- `BoundedHash.BoundedHashMap` refines a finite map; `Magnitudes` is exact and canonical.

## How the source is read

- Machine integers are subset types of `int`, so every assignment carries the proof that it fits. A
  checked operation whose failure the source reports is a branch of the method; where the contract
  shows no such error, that the branch is unreachable is part of the proof.
- `PriceRules::validate` means on the zero-anchored tick grid and inside the collar;
  `QuantityRules::validate` a multiple of the increment within the order sizes; `validate_leaves` the
  same without the minimum (`src/auction_book.rs:501`).
- The risk gate is an arbitrary rejection input, limited to what `commit_with_gate` lets it say. Book
  and engine instance identities and the number of free leases are plain values.
- Tokens (indicatives, preparations, prepared commands) cannot be forged: the classes keep the set of
  tokens they handed out as ghost state, and a method that takes a token of its own instance requires
  it to be one of those.
- A rule that both a method and its specification use is also stated without it: `Clearing.RankingMeans`,
  `Allocation.InPriorityMeans`, `AdmissionLaws`, `LaneLaws` and `DecisionLaws` are those statements.
- Where the source re-checks what cannot fail, the method as a rule has the check as a branch, and its
  contract says that it passes.

## Findings

- The ranking is total but not transitive on arbitrary candidates: under the pressure rule three
  states can outrank one another in a circle (`Clearing.RankingCyclesOffMarket`). `Clearing.CyclesExactly`
  and `Clearing.TransitiveExactly` say for which states, from the states alone. On one market, which
  is all the sweep compares, it is transitive (`Clearing.RankingIsTransitive`).
- The protected event lane is not a promise for every policy. A pro-rata crossing can trade with many
  orders and fill one; for every order bound from four, short of the 64-bit edge, a run from genesis ends in a mass cancellation
  refused for want of retained events (`StarvingRun.SomeRunStarves`). With three orders at most it
  never happens (`StarvingRun.EventLaneHoldsExactly`), nor in runs whose uncrosses allocate by price
  and time (`RunLaws.TerminalEventsNeverStarve`).
- The book audit has no check for three things the operations keep: distinct priority sequences
  across queues, no empty price level, and priority order inside account lanes. A book with an empty
  level passes (`BookAudit.EmptyLevelPasses`); an audited book is sound exactly when it has these
  three (`BookAudit.SoundExactly`).
- Checkpoint validation by itself does not establish that leaves are on the increment, because an
  uncross report may trade an odd quantity (`MisalignedCheckpoint.ValidationMissesTheIncrement`). It
  is the only rule of the book it misses, so a validated checkpoint holds a valid book exactly when
  its leaves fit (`RestoredEngines.SavedBookIsValid`), and the book audit that follows checks them.
- Re-checking a preparation before a commit compares everything in a trade but its instrument binding
  (`Preparing.ValidatePreparedTrades`).

## Model

| member | source | states |
|---|---|---|
| Clearing.RankingIsAsymmetric | src/auction.rs:748-779 | no candidate outranks itself and no two outrank each other, for every reference and policy |
| Clearing.RankingIsTotal | src/auction.rs:748-779 | of any two candidates at different prices one outranks the other |
| Clearing.RankingIsTransitive | src/auction.rs:748-779 | on states that can lie on one market (demand falls, supply rises) the ranking is transitive, pressure rule included |
| Clearing.RankingCyclesOffMarket | src/auction.rs:748-779 | off one market the pressure rule cycles: three concrete states, each outranking the next |
| Clearing.CyclesExactly | src/auction.rs:748-779 | three states outrank one another in a circle under some reference and policy exactly when, in some rotation, two of equal volume and imbalance lean to one side, the first further along, and the third leans to the other, behind the first and not at the second |
| Clearing.TransitiveExactly | src/auction.rs:748-779 | three states rank transitively under every reference and policy exactly when they have no cycle shape and no opposed state stands at the very price of the one it would have to outrank |
| Clearing.RankingMeans | src/auction.rs:748-779 | in demand and supply alone: one price outranks another exactly when it trades more; at equal volume leaves less over; at equal volume and remainder, under the pressure rule with the same side left over, lies further along that side; and otherwise lies nearer the reference, equal distances settled towards the lower or the higher price as the final rule says |
| Discovery.ValidateLevels | src/auction.rs:1635-1658 | accepts exactly strictly best-to-worst on-grid levels whose total fits, with that total; otherwise names the first offending level |
| Discovery.IntervalCandidateWins | src/auction.rs:1669-1686 | the chosen price lies in the interval and outranks every other price of it under the same demand and supply |
| Discovery.EvaluateInterval | src/auction.rs:967-998 | one interval evaluated: the incumbent stays the best of everything swept so far, and the next transition is the next price at which the market moves |
| Discovery.CrossTransition | src/auction.rs:999-1021 | crossing a transition moves exactly the asks and bids that change there, never underflows, and leaves fewer bids plus asks |
| Discovery.Sweep | src/auction.rs:940-1022 | the interval sweep returns what trying every on-grid price of the band and keeping the best crossing one returns |
| Discovery.DiscoverBoundedClearingPrice | src/auction.rs:918-1022 | succeeds exactly on valid inputs, never reports an underflow, names the failed check otherwise; its answer is the brute-force answer and, in demand and supply alone, the best state of the market: no on-grid price of the band where both sides have interest trades more, or at equal volume leaves less over, or at equal remainder lies better for the pressure and reference rules, and none means no such price |
| Discovery.DiscoverClearingPrice | src/auction.rs:879-895 | the unbounded form is discovery over the full band without market interest, with the same best state in demand and supply |
| Discovery.FullBand | src/auction.rs:108-113 | the full band is aligned and contains every on-grid price |
| Discovery.DiscoveryIsUnique | src/auction.rs:918-1022 | the brute-force specification has one answer |
| Discovery.DiscoveryMeans | src/auction.rs:748-779 | the brute-force answer by the ranking is exactly the best state in demand and supply: traded volume, remainder, pressure and distance compared directly |
| MulDiv.ExactMulDivFloor | src/auction.rs:1580-1598 | for every multiplier below the divisor the result is the exact floor of factor times multiplier over divisor, with no overflow and no spurious none; otherwise none |
| MulDiv.ModularDouble | src/auction.rs:1600-1607 | value and carry represent the double exactly, below the modulus, inside 128 bits |
| MulDiv.ModularAdd | src/auction.rs:1609-1616 | value and carry represent the sum exactly, below the modulus, inside 128 bits |
| Allocation.PrecedesIsTransitive | src/auction.rs:1344-1366 | execution priority is transitive |
| Allocation.InPriorityMeans | src/auction.rs:1344-1366 | a list is in execution priority exactly when each order comes before the later ones by kind, better limit, lower class, then earlier sequence |
| Allocation.EligibilityIsPrefix | src/auction.rs:1344-1384 | whoever precedes an eligible order is eligible, so eligible orders are a prefix |
| Allocation.ValidateAllocationOrders | src/auction.rs:1313-1338 | accepts exactly on-grid sides in which market comes before limit, better limits before worse, lower classes before higher and earlier sequences before later, and whose eligible total fits, with that total; otherwise names the first offending order |
| Allocation.RequiredFillCount | src/auction.rs:1386-1401 | the counting walk predicts the emitted fills |
| Allocation.AppendFills | src/auction.rs:1403-1428 | appends exactly the price-time shares and reports a shortfall exactly when they miss the executable quantity |
| Allocation.PriceTimeIsAllocation | src/auction.rs:1403-1428 | price-time shares stay within leaves, go to eligible orders only, sum to the executable quantity, and nobody fills before an earlier order is full |
| Allocation.AllocatedQuanta | src/auction.rs:1535-1546 | the first pass sums the floored shares exactly, each by the bit-serial division |
| Allocation.MarginalFills | src/auction.rs:1547-1570 | the second pass emits the floor of each order and one residual quantum for the first ones |
| Allocation.ResidualFitsTier | src/auction.rs:1485-1574 | the residual is non-negative and smaller than the tier, so one pass of single quanta exhausts it |
| Allocation.MarginalIsExact | src/auction.rs:1485-1574 | marginal shares sum exactly to the remaining quanta and never exceed an order |
| Allocation.ProRataIsExact | src/auction.rs:1485-1574 | earlier tiers fill, every order of the marginal tier gets its floored proportional share or one quantum more, extra quanta go to a prefix in time order, later orders get nothing, the total is exact |
| Allocation.ProRataIsAllocation | src/auction.rs:1485-1574 | pro-rata shares are an allocation: within leaves, eligible, exact, and short in one tier only |
| Allocation.SharesAreAligned | src/auction.rs:1451-1574 | under either policy every share is a whole number of allocation quanta |
| Allocation.WalkProRataFills | src/auction.rs:1485-1574 | on a ready side the walk cannot fail and counts, and when emitting appends, exactly the pro-rata shares |
| Allocation.ValidateAllocationQuantum | src/auction.rs:1430-1449 | accepts exactly a positive quantum dividing every quantity; otherwise names the first misaligned order |
| Allocation.ValidateAllocationRequest | src/auction.rs:1224-1259 | accepts exactly a request whose sides are ready and whose clearing totals are the eligible totals, with the fill counts; otherwise names the failed check |
| Allocation.ValidatePolicyAllocationRequest | src/auction.rs:1188-1222 | accepts exactly the requests that can be allocated, and predicts the fill counts of either policy |
| Allocation.AppendPolicyFills | src/auction.rs:1451-1483 | appends exactly the shares of the selected policy |
| Allocation.AllocateClearing | src/auction.rs:1137-1186 | succeeds exactly when the request can be allocated, its sides then running by kind, limit, class and sequence, with a plan that carries exactly both sides' shares |
| Allocation.CanAllocateIsReady | src/auction.rs:1137-1222 | a validated request yields an allocation of both sides, strict under price-time |
| Chains.LinksMirror | src/auction_book.rs:4627-4667 | next and previous links mirror each other |
| Chains.AppendKeepsLinks | src/auction_book.rs:4543-4667 | linking a last-ranked node at a tail keeps every link of every list the nearest neighbour |
| Chains.AppendDescribes | src/auction_book.rs:4543-4667 | and the grown head, tail, count and total describe the grown list |
| Chains.UnlinkKeepsLinks | src/auction_book.rs:4597-4708 | closing a list over any node keeps every link |
| Chains.UnlinkDescribes | src/auction_book.rs:4597-4708 | and the shrunk head, tail, count and total describe the shrunk list |
| Chains.ReduceDescribes | src/auction_book.rs:4510-4541 | reducing one node changes its list's total by exactly the reduction |
| Chains.WalkContinues | src/auction_book.rs:4710-4761 | following next visits exactly one more member, whose previous link is where the walk came from |
| Chains.WalkEnds | src/auction_book.rs:4710-4761 | a walk is past the end exactly when it has counted every member, and then stood at the tail |
| Chains.LinksAreDetermined | src/auction_book.rs:2014-2085 | links are a function of keys and ranks |
| Chains.QueueIsDetermined | src/auction_book.rs:2014-2085 | head, tail, count and total are a function of the list |
| AbstractBook.AdmitKeepsValid | src/auction_book.rs:2960-3023 | a successful preflight predicts the snapshot, and admitting it keeps every rule of the book |
| AbstractBook.RemoveKeepsValid | src/auction_book.rs:3045-3063 | removing orders under one revision keeps every rule |
| AbstractBook.AmendKeepsValid | src/auction_book.rs:3103-3149 | an allowed amendment keeps every rule |
| AbstractBook.ReplaceIsAdmitAfterRemove | src/auction_book.rs:3226-3332 | the replacement preflight is the admission verdict on the book its target has left, so a saturated book can replace |
| AbstractBook.ReplaceKeepsValid | src/auction_book.rs:3190-3224 | a replacement keeps every rule and the number of orders |
| AbstractBook.MassCancelKeepsValid | src/auction_book.rs:2878-2897 | a mass cancellation keeps every rule and leaves nothing selected |
| BookInterest.SortLists | src/auction_book.rs:4860-4879 | sorting collected orders gives the canonical list of a side, market first, then better limit, lower class, earlier sequence |
| BookInterest.ListIsUnique | src/auction_book.rs:4860-4879 | a side has one canonical list |
| BookInterest.BookDiscovery | src/auction_book.rs:3402-3428 | the brute-force best clearing state of a book over a band exists |
| BookInterest.SweepFindsBest | src/auction_book.rs:3402-3428 | sweeping the aggregate levels finds exactly that state |
| BookInterest.BookDiscoveryMeans | src/auction_book.rs:3402-3428 | that state is the best one in the interest of the active orders alone, price by price |
| PriorityLaws.PriceTimeServesInOrder | src/auction.rs:1344-1428 | of two active orders on one side the one that comes first, market before limit, better limit, lower class, earlier sequence, is executed in full before the other gets anything under price-time |
| PriorityLaws.TiersAreServedInOrder | src/auction.rs:1344-1574 | under either policy an order of an earlier tier, by kind, limit or class, is executed in full before a later tier gets anything |
| PriorityLaws.ProRataAtBook | src/auction.rs:1485-1574 | at the level of the book, in totals over sets of active orders: an order gets its leaves when its tier is filled, its floored proportion of what reaches the tier plus at most one quantum when the tier is short, nothing later, and of one tier the extra quanta go to the earlier sequences |
| AdmissionLaws.PriceVerdict | src/instrument.rs:636-647 | a price passes exactly inside the collar on the tick grid; the refusal says which it misses, the collar first |
| AdmissionLaws.QuantityVerdict | src/instrument.rs:710-740 | a new quantity passes exactly between minimum and maximum on the lot grid; leaves need only the maximum and the grid |
| AdmissionLaws.AdmissionExactly | src/auction_book.rs:2960-3023 | admission accepts, or refuses for a reason, exactly when that reason is the first bound missed: instrument and version, sizes, lot grid, collar, tick grid, identity, capacities, levels, counters |
| AdmissionLaws.CancellationExactly | src/auction_book.rs:3065-3082 | an absent target is unknown, another account's is a mismatch, and an own one is accepted unless the revision is exhausted |
| AdmissionLaws.AmendmentExactly | src/auction_book.rs:3151-3176 | absent, foreign, too large, off the lot grid, not reduced, exhausted or accepted, each exactly under its own condition |
| AdmissionLaws.ReplacementExactly | src/auction_book.rs:3226-3332 | every answer to a replacement exactly under its own condition: the target first, then the bounds of the new order on the book the target has left |
| AuctionBook.CallAuctionBook.constructor | src/auction_book.rs:1841-1939 | a new book is sound and empty, with all its leases |
| AuctionBook.CallAuctionBook.LinkLast | src/auction_book.rs:4543-4667 | linking a last-ranked order at both tails keeps both indexes exact |
| AuctionBook.CallAuctionBook.InsertPreflighted | src/auction_book.rs:4543-4595 | consumes one identity, one priority and one revision, joins both lists, keeps the book sound |
| AuctionBook.CallAuctionBook.RemoveActiveOrder | src/auction_book.rs:4597-4625 | unlinks one order from both lists and forgets it, keeps the book sound |
| AuctionBook.CallAuctionBook.ReduceOrder | src/auction_book.rs:4527-4541 | reduces one order in place, links and priority unchanged, keeps the book sound |
| AuctionBook.CallAuctionBook.Relink | src/auction_book.rs:2031-2079 | the relinking loop: both lists of every order, lowest priority first |
| AuctionBook.CallAuctionBook.PreflightAdmission | src/auction_book.rs:2960-3023 | answers the modelled admission verdict, spelled out bound by bound in `AdmissionLaws.AdmissionExactly`; aggregate overflow is unreachable |
| AuctionBook.CallAuctionBook.Admit | src/auction_book.rs:2941-2958 | admits at both tails exactly when the preflight allows, else changes nothing; the book stays valid |
| AuctionBook.CallAuctionBook.PreflightCancel | src/auction_book.rs:3065-3082 | answers the modelled cancellation verdict |
| AuctionBook.CallAuctionBook.Cancel | src/auction_book.rs:3045-3063 | removes exactly the named order under one revision, or changes nothing |
| AuctionBook.CallAuctionBook.PreflightAmend | src/auction_book.rs:3151-3176 | answers the modelled amendment verdict |
| AuctionBook.CallAuctionBook.Amend | src/auction_book.rs:3103-3149 | reduces the named order at its priority under one revision, or changes nothing |
| AuctionBook.CallAuctionBook.PreflightReplacementLevel | src/auction_book.rs:3353-3390 | refuses exactly when the replacement needs a level the side will not have, counting the level its target empties |
| AuctionBook.CallAuctionBook.PreflightReplacementAggregates | src/auction_book.rs:3270-3330 | the queue and lane a replacement joins can never overflow |
| AuctionBook.CallAuctionBook.PreflightReplace | src/auction_book.rs:3226-3332 | answers the modelled replacement verdict |
| AuctionBook.CallAuctionBook.Replace | src/auction_book.rs:3190-3224 | removes the target and admits the replacement under one revision, or changes nothing |
| AuctionBook.CallAuctionBook.PreflightMassCancel | src/auction_book.rs:2741-2766 | counts and totals the selection from the lanes' caches exactly |
| AuctionBook.CallAuctionBook.AppendAccountSideValues | src/auction_book.rs:4710-4761 | walks one lane, finds every link and total right, and yields each of its orders once |
| AuctionBook.CallAuctionBook.PreflightMassCancelInto | src/auction_book.rs:2780-2861 | materializes exactly the selection in ascending identity order, or leaves the output alone; re-validating the sorted selection cannot fail |
| AuctionBook.CallAuctionBook.SelectionIsValid | src/auction_book.rs:2835-2859 | accepts exactly selections without an identity twice in a row whose snapshots are active orders of the account and scope with the announced total |
| AuctionBook.CallAuctionBook.MassCancelInto | src/auction_book.rs:2878-2897 | removes exactly the selection under one revision, or nothing at all |
| AuctionBook.CallAuctionBook.RebuildLevels | src/auction_book.rs:4846-4858 | reads every occupied level, best first, with its exact total |
| AuctionBook.CallAuctionBook.IndicativeClearing | src/auction_book.rs:3402-3428 | answers, bound to book and revision, the best state in the interest of the active orders: no on-grid price of the band with interest on both sides trades more, leaves less over, or lies better for pressure and reference; only the band and the reference can be refused |
| AuctionBook.CallAuctionBook.AppendQueueOrders | src/auction_book.rs:5066-5090 | walks one price queue and yields each of its orders once |
| AuctionBook.CallAuctionBook.RebuildOrders | src/auction_book.rs:4860-4879 | yields the canonical list of a side: every active order of it once, market first, then better limit, lower class, earlier sequence |
| AuctionBook.CallAuctionBook.PrepareUncross | src/auction_book.rs:3486-3548 | from an indicative of this book fails only as stale, for want of a lease, a revision or a trade identity, or by the self-trade abort; takes one lease exactly on success |
| AuctionBook.CallAuctionBook.PrepareSettlement | src/auction_book.rs:3514-3547 | allocation, pairing and remainder selection at a clearing state yield exactly the modelled preparation |
| AuctionBook.CallAuctionBook.ApplyFill | src/auction_book.rs:4510-4541 | a complete fill removes its order, a partial one reduces it |
| AuctionBook.CallAuctionBook.ApplyFills | src/auction_book.rs:3574-3579 | applies one side's fills in turn |
| AuctionBook.CallAuctionBook.RemoveCancelled | src/auction_book.rs:3580-3586 | removes every cancelled remainder; each is still active when its turn comes |
| AuctionBook.CallAuctionBook.ValidateUncrossPreparation | src/auction_book.rs:4293-4508 | re-deriving every part of a current preparation from the book always succeeds |
| AuctionBook.CallAuctionBook.Release | src/auction_book.rs:1315-1367 | dropping a preparation gives its lease back and changes nothing else |
| AuctionBook.CallAuctionBook.CommitUncross | src/auction_book.rs:3560-3594 | refuses a foreign or stale preparation before anything changes, else leaves exactly the uncrossed book |
| AuctionBook.IndexesAreDetermined | src/auction_book.rs:2014-2085 | two sound books with the same contents have the same links, queues and lanes |
| BookAudit.ValidateQueue | src/auction_book.rs:4881-4955 | accepts exactly the queues that a walk from head to tail describes: linked both ways, rising in priority, within one level, with exact tail, count and total |
| BookAudit.ValidateLane | src/auction_book.rs:4084-4151 | accepts exactly the lanes that such a walk describes, in any order |
| BookAudit.ValidateQueues | src/auction_book.rs:3630-3664 | accepts exactly the price indexes whose queues all walk and together list every order |
| BookAudit.ValidateAccounts | src/auction_book.rs:4076-4160 | accepts exactly the account indexes whose lanes all walk, together list every order and belong to no empty account |
| BookAudit.ValidateActiveOrders | src/auction_book.rs:3743-3779 | accepts exactly when every active order obeys the rules and its owner is indexed |
| BookAudit.Validate | src/auction_book.rs:3627-3741 | the whole audit accepts exactly the audited books |
| BookAudit.SoundExactly | src/auction_book.rs:3627-4160 | a book is sound exactly when it is audited, its limits are valid, and the three things the audit does not look at hold: distinct priorities across queues, no empty level, lanes in priority order |
| BookAudit.EmptyLevelPasses | src/auction_book.rs:3627-4160 | a concrete book with an empty price level passes the audit and is not sound |
| BookRestoration.FromCheckpointState | src/auction_book.rs:2014-2085 | restores exactly when no identity repeats and the saved parts are those of a valid book, into exactly that book; otherwise says which check refused |
| CrossingCycle.Cross | src/auction_book.rs:3402-3594 | discovering, preparing and committing over a band leaves exactly the book uncrossed at the best state when there is one that can be prepared, and otherwise changes nothing |
| CrossingCycle.CrossAndRediscover | src/auction_book.rs:3402-3594 | after a crossing the linked book answers every later discovery over the band with none |
| CrossingCycle.PrepareDropPrepare | src/auction_book.rs:1315-1367 | preparing, dropping and preparing again answers the same, however few leases there are |
| Uncross.BookAllocates | src/auction_book.rs:3514-3531 | a book that crosses can always be allocated: no allocation check can fail |
| Uncross.ResidueMeansDepth | src/auction.rs:1403-1574 | an order left short is deeper than everything that traded: at any price it accepts more interest than the executable quantity is eligible |
| Uncross.ExecutedIsShare | src/auction_book.rs:3486-3548 | an order executes its share, within its leaves and only at a price it accepts |
| Uncross.TokensAge | src/auction_book.rs:3500-3507 | a later revision makes every earlier token stale |
| UncrossLaws.UncrossReallyUncrosses | src/auction_book.rs:3486-3594 | after committing at the discovered price of a band no on-grid price of the band has interest on both sides, under every allocation, remainder and price policy |
| UncrossLaws.RediscoveryFindsNothing | src/auction_book.rs:3486-3594 | rediscovery over the band answers none under every later reference and policy |
| UncrossLaws.UncrossKeepsValid | src/auction_book.rs:3560-3594 | the uncrossed book obeys every rule |
| UncrossLaws.LeavesStayAligned | src/auction_book.rs:4510-4541 | what is left of an order is still within the maximum and on the increment |
| UncrossLaws.TradesCarryExecutions | src/auction_book.rs:4162-4254 | the trades hand each order exactly what it executes |
| UncrossLaws.TradesAreContiguous | src/auction_book.rs:4162-4254 | trades follow the pairs in order, numbered consecutively, at one price |
| UncrossLaws.QuantityIsConserved | src/auction_book.rs:4162-4291 | for every order, quantity before is traded plus cancelled plus remaining |
| UncrossLaws.OnePartialFill | src/auction.rs:1403-1428 | price-time leaves at most one order of a side partly filled |
| UncrossLaws.TradesAreBounded | src/auction_book.rs:4162-4291 | orders are filled, cancelled or kept; trades stay below the orders, some order always fills completely, and under price-time trades never outnumber the filled orders |
| UncrossSteps.StepsReachUncrossed | src/auction_book.rs:3560-3594 | applying every fill and then every cancellation leaves exactly the uncrossed orders |
| UncrossSteps.CancelledIs | src/auction_book.rs:5004-5043 | the cancelled orders are exactly the short ones whose remainder the policy cancels |
| UncrossSteps.CancelledByPolicy | src/auction_book.rs:919-926 | the cancellations name, each for its own quantities, under cancel-all exactly the active orders left short, under cancel-market exactly the short market orders, under retain-all none |
| UncrossSteps.UncrossedByPolicy | src/auction_book.rs:3560-3594 | after the uncross exactly these rest, each with what it did not execute: every short order under retain-all, the short limit orders under cancel-market, none under cancel-all |
| Uncross.RemaindersBySelection | src/auction_book.rs:5004-5043 | the remainders of any prefix of a list are the orders the policy names there |
| UncrossSteps.CancellationsAreSound | src/auction_book.rs:4256-4291 | each cancellation is of a distinct active order, for exactly what it did not execute |
| Pairing.PairingConserves | src/auction_book.rs:4162-4254 | pairing consumes both lists order by order, in positive pairs that number at most buys plus sells minus one |
| Pairing.RequiredPairCount | src/auction_book.rs:4958-4986 | counts the pairs of balanced lists without building them |
| Preparing.PrepareTradePairs | src/auction_book.rs:4162-4254 | yields exactly the canonical trades, or exhaustion of identities, or the first self trade under abort |
| Preparing.FillQuantityForSource | src/auction_book.rs:5045-5064 | the forward cursor reads exactly the share of each source |
| Preparing.AppendRemainderCancellations | src/auction_book.rs:5004-5043 | appends exactly the positive remainders the policy selects, in source order: none, those of market orders, or all |
| Preparing.ValidatePreparedFills | src/auction_book.rs:4476-4508 | accepts exactly fills in list order that each name a listed order, still active on its side with the listed terms, within its leaves |
| Preparing.ValidatePreparedTrades | src/auction_book.rs:4315-4402 | for a balanced plan accepts exactly the canonical trades between the same accounts, numbered from the current identity, for the whole executable quantity; the instrument binding is not compared |
| Preparing.ValidatePreparedSideCancellations | src/auction_book.rs:4429-4474 | accepts exactly when the selected remainders of the side stand at the index reached so far, and moves the index past them |
| EngineTypes.NewEngineLimits | src/auction_engine.rs:174-235 | limits are accepted exactly when both reserves and the report bound cover the active orders |
| EngineTypes.EngineLimitsAreConstructed | src/auction_engine.rs:174-235 | the valid engine limits are exactly those the constructor yields from their own numbers |
| AbstractBook.BookLimitsAreConstructed | src/auction_book.rs:127-152 | the valid book limits are exactly those the constructor accepts |
| AbstractBook.InstrumentsAreConstructed | src/instrument.rs:579-684 | the valid instruments are exactly those whose price and quantity rules the constructors accept |
| EngineRuns.CommitKeepsWellFormed | src/auction_engine.rs:5606-5685 | every committable action leaves a well-formed engine |
| EngineRuns.ReadyIsCommittable | src/auction_engine.rs:5024-5070 | whatever preparation hands out can be committed, gated or not |
| EngineRuns.StepIs | src/auction_engine.rs:5606-5754 | a step leaves the state alone or commits its one action, and only for a new identity within capacity |
| EngineLaws.PreparationShape | src/auction_engine.rs:3846-3868 | a prepared uncross trades at least once, and its trades and cancellations are fewer than twice the active orders |
| DecidedActions.StepFits | src/auction_engine.rs:6077-6162 | every committed action is the one its own command asks for |
| DecisionLaws.DecisionExactly | src/auction_engine.rs:6077-6162 | every decision on every command, each rejection, failure and action, is given exactly under its own stated condition on the command, the book and the cycle |
| DecisionLaws.RoutingVerdict | src/auction_engine.rs:6515-6527 | a command is routed by the instrument it names, orders by the one they carry; the wrong instrument is reported before the wrong version |
| DecisionLaws.PhaseExactly | src/auction_engine.rs:6352-6444 | a closed engine opens exactly the next auction, an open one freezes, reopens or closes exactly its active one, and every other request is refused for the first thing wrong with it |
| DecisionLaws.SubmitExactly | src/auction_engine.rs:6083-6114 | a submission is accepted or refused for the first thing wrong with its cycle, then with the order, then with the book |
| DecisionLaws.CancelExactly | src/auction_engine.rs:6116-6138 | a cancellation of an absent order is an unknown order, of another account's a missing ownership; otherwise it is accepted unless the revision is exhausted |
| DecisionLaws.MassCancelExactly | src/auction_engine.rs:6139-6155 | a mass cancellation is never rejected and counts and totals the active orders of the account on the sides in scope |
| DecisionLaws.AmendExactly | src/auction_engine.rs:6232-6275 | an amendment is refused as unknown, not owned, out of the rules or not reduced, each exactly under its own condition |
| DecisionLaws.ReplaceExactly | src/auction_engine.rs:6277-6324 | a replacement is refused as unknown for an absent target, as not owned for another account's target or a new order of another account, or by the rules of the new order |
| DecisionLaws.IndicativeExactly | src/auction_engine.rs:6164-6230 | a publication is refused for its cycle or the first price out of the rules, fails for its band, or carries the best state of the book in interest alone |
| DecisionLaws.UncrossExactly | src/auction_engine.rs:6446-6513 | an uncross is refused for its cycle, for want of a price with interest on both sides or for a forbidden self trade, fails for its band or a named exhaustion, or carries the one preparation at the best state |
| DecisionLaws.IndicationVerdict | src/auction_engine.rs:1711-1729 | an indication is valid exactly when its phase had begun, its clearing executes inside its band, and every price it names is inside the collar on the tick grid |
| DecisionLaws.GateMeans | src/auction_engine.rs:6985-6999 | the gate is heard on exactly submissions and replacements with exactly the ten risk reasons, and its refusal replaces the action unless the engine had already rejected it |
| RunLaws.EveryRunIsSequenced | src/auction_engine.rs:6643-6771 | on every run commands and events are numbered without gap from one and the reports tile the event sequence in order |
| RunLaws.ChronicleAt | src/auction_engine.rs:6643-6689 | report i owns its range of events and its identity leads back to it |
| RunLaws.RunOnlyAppends | src/auction_engine.rs:5606-5685 | retained reports and events never change |
| RunLaws.RetriesReplay | src/auction_engine.rs:5024-5070 | at any later time an exact retry returns the original report marked replayed and changes nothing; a reused identity collides |
| RunLaws.TerminalWindsDown | src/auction_engine.rs:3870-3886 | every terminal action lowers active orders plus phase rank; under price-time, and under every policy among three orders at most, it also pays for its events |
| RunLaws.TerminalCommandsNeverStarve | src/auction_engine.rs:6529-6547 | on every run, under every policy, a terminal command is never refused for command history |
| RunLaws.TerminalEventsNeverStarve | src/auction_engine.rs:6529-6572 | on every run whose uncrosses allocate by price and time, and under every policy when the order bound is three or less, a terminal command is refused only for an exhausted 64-bit sequence |
| LaneLaws.ReserveIsForWindingDown | src/auction_engine.rs:3870-3886 | the reserve is for exactly the commands that wind the engine down: a cancellation, a mass cancellation that selects something, a move to frozen or closed, an uncross |
| LaneLaws.WindingCommandsFindSlots | src/auction_engine.rs:6529-6547 | on every run, under every policy, none of these commands is refused for command history |
| LaneLaws.WindingCommandsFindEvents | src/auction_engine.rs:6529-6572 | on every run by price and time, and under every policy when the order bound is three or less, one of these commands is refused only for an exhausted 64-bit sequence |
| LaneLaws.OthersKeepToTheOrdinaryPart | src/auction_engine.rs:6529-6572 | every other command is refused once retained commands less the reserve are used, and never takes a reserved event |
| StarvingRun.SomeRunStarves | src/auction_engine.rs:6529-6572 | for every order bound from four whose event limits leave 64-bit room, a run from genesis whose next mass cancellation is refused for want of retained events: one pro-rata crossing trades with every buyer and fills only the seller |
| StarvingRun.BuyerShares | src/auction.rs:1485-1574 | any number of orders of two lots sharing half their lots get one each |
| StarvingRun.EventLaneHoldsExactly | src/auction_engine.rs:6529-6572 | no run under any limits with an order bound lacks retained events for a terminal command exactly when the bound is three or less, or leaves no 64-bit event limit that could be exceeded |
| RunLaws.ReportsAreBounded | src/auction_engine.rs:3846-3868 | whatever the policy, no decision needs more than twice the active-order bound plus one events in its report |
| ReportGrammar.MassCancelGrammarIsValid | src/auction_engine.rs:6931-6983 | accepts exactly selected cancellations in ascending identity order closed by their count and total |
| ReportGrammar.UncrossGrammarIsValid | src/auction_engine.rs:7001-7065 | accepts exactly consecutive trades that sum to the executable quantity, then remainders, then the completion |
| ReportGrammar.CachedReportGrammarIsValid | src/auction_engine.rs:6774-6871 | accepts exactly the reports that answer their command |
| GrammarLaws.CommitIsGrammatical | src/auction_engine.rs:6774-6871 | the report of every committed action is grammatical |
| PhaseAudit.CallAuctionPhaseAudit.ApplyAccepted | src/auction_engine.rs:7357-7441 | moves phase, cycle and indication as the report says, or reports a contradiction |
| PhaseAudit.CallAuctionPhaseAudit.Observe | src/auction_engine.rs:7084-7143 | replays one report exactly as the audit specification does |
| PhaseAudit.ControlAgrees | src/auction_engine.rs:7303-7355 | the controller's verdict on a phase change is the engine's own |
| PhaseAudit.PreflightAgrees | src/auction_engine.rs:7145-7234 | for every command the recomputed routing, phase and cycle verdict is exactly the engine's, and what it allows only the book or the gate may reject |
| PhaseAudit.StepIsObserved | src/auction_engine.rs:6515-6527 | the audit accepts the report of every step and follows the engine |
| PhaseAudit.EveryRunPassesTheAudit | src/auction_engine.rs:6691-6771 | on every run the audit ends in the engine's own phase, revision, cycle identities and indication |
| PhaseAudit.ReplayHistory | src/auction_engine.rs:4659-4669 | replays a whole history as the audit specification does, or finds the report that contradicts the controller |
| UncrossProjection.ReduceProjectedOrder | src/auction_engine.rs:3417-3455 | reduces a named order of the right account and side at a price it accepts, by no more than it has, or finds the contradiction |
| UncrossProjection.ProjectTrade | src/auction_engine.rs:3331-3358 | projects both halves of one trade |
| UncrossProjection.ProjectRemainder | src/auction_engine.rs:3359-3384 | removes an order whose cancellation agrees with what it held and had executed |
| UncrossProjection.ProjectCheckpointUncross | src/auction_engine.rs:3323-3392 | one pass over an uncross report projects its trades and remainders, or finds the contradiction |
| UncrossProjection.UncrossProjects | src/auction_engine.rs:3323-3392 | projecting the events of an uncross leaves exactly the uncrossed orders |
| Projection.ValidateCheckpointAuctionOrder | src/auction_engine.rs:3289-3321 | accepts exactly snapshots that restate their command and obey the instrument |
| Projection.ProjectJoin | src/auction_engine.rs:2973-3009 | projects an acceptance: the next priority, an identity never seen before |
| Projection.ProjectAmend | src/auction_engine.rs:3010-3059 | projects an amendment of an own order to its new, smaller quantity under the next revision |
| Projection.ProjectReplace | src/auction_engine.rs:3060-3115 | projects both halves of a replacement under one revision |
| Projection.ProjectIndicative | src/auction_engine.rs:3116-3139 | accepts a publication only at the projected revision |
| Projection.ProjectMassCancel | src/auction_engine.rs:3164-3210 | removes every cancelled order, each as it stood, and checks the revision |
| Projection.ProjectUncross | src/auction_engine.rs:3211-3237 | projects a whole uncross and checks its book revision |
| Projection.ProjectAccepted | src/auction_engine.rs:2970-3239 | projects one accepted report of any kind |
| Projection.AdvanceSequences | src/auction_engine.rs:2941-2969 | accepts exactly bound, contiguous events and contiguous trade identities |
| ProjectionLaws.CommitProjects | src/auction_engine.rs:2970-3239 | every committed report projects onto the book it left |
| Checkpoint.EventsDetermineState | src/auction_engine.rs:2876-3286 | on every run the projection of the history is the live state: orders, identities, phase, revision and every next sequence |
| Checkpoint.StrictlyIncreasingOrderIds | src/auction_engine.rs:3457-3459 | accepts exactly strictly increasing identities |
| Checkpoint.StrictlyIncreasingOrders | src/auction_engine.rs:3461-3465 | accepts exactly orders in strictly increasing identity |
| Checkpoint.IdsMatch | src/auction_engine.rs:3248-3258 | accepts exactly the accepted identities, each once, in order |
| Checkpoint.OrdersMatch | src/auction_engine.rs:3259-3269 | accepts exactly the projected orders, each once, in order |
| Checkpoint.Validate | src/auction_engine.rs:2876-3286 | accepts exactly the checkpoints whose log position closes their history and whose direct state is what the history projects to |
| Restoration.CapturedValidatesAtItsBoundary | src/auction_engine.rs:4561-4600 | a checkpoint captured from any run validates exactly at its own log boundary |
| Restoration.ValidateCapacity | src/auction_engine.rs:3467-3541 | accepts exactly the checkpoints within the selected limits |
| Restoration.CapturedFits | src/auction_engine.rs:3467-3541 | a captured checkpoint fits the limits it was captured under |
| Restoration.RestoringIsExact | src/auction_engine.rs:4622-4701 | restoring a captured checkpoint gives exactly the engine it was captured from |
| Restoration.RestoringIsABisimulation | src/auction_engine.rs:4622-4701 | the restored engine answers every later command sequence, exact retries included, with the same reports, whichever book instance serves it |
| RestoredEngines.ScannedIsSound | src/auction_engine.rs:2876-3286 | any history that replays is the chronicle of its own events and replays to a sound controller, book and indication |
| RestoredEngines.SavedBookIsValid | src/auction_book.rs:2014-2085 | a saved book that replays and fits is valid exactly when its leaves fit the increment, the one rule replaying cannot establish |
| MisalignedCheckpoint.ValidationMissesTheIncrement | src/auction_engine.rs:2876-3286 | a concrete history of five reports that validates and projects leaves of three lots where lots come in twos |
| RestoredEngines.RestorableExactly | src/auction_engine.rs:4622-4701 | exactly the fitting, validating checkpoints with aligned leaves restore |
| RestoredEngines.RestoredIsWellFormed | src/auction_engine.rs:4622-4701 | whatever restores, captured or not, is a well-formed engine with a proper chronicle |
| RestoredEngines.CaptureOfRestored | src/auction_engine.rs:4561-4600 | capturing a restored engine gives the checkpoint back |
| EngineAudit.ValidateEventCapacity | src/auction_engine.rs:6643-6689 | accepts exactly when the reports tile the arena without gap or overlap within the report and event limits |
| EngineAudit.ValidateReportHistory | src/auction_engine.rs:6691-6771 | accepts exactly the histories whose keys, identities, numbers and grammar are in order and whose replay ends in the live phase, cycle identities and indication |
| EngineAudit.Validate | src/auction_engine.rs:6606-6771 | the whole engine audit, nested book audit included, accepts exactly the audited engines |
| EngineAudit.EveryReachableEnginePasses | src/auction_engine.rs:6606-6771 | the audit holds in every state a run reaches from genesis |
| EngineAudit.EveryRestoredEnginePasses | src/auction_engine.rs:6606-6771 | and in every state a run reaches from any checkpoint that restores |
| ReportCache.LookupIsRetained | src/auction_engine.rs:5606-5685 | looking an identity up in the index of arena ranges finds its retained entry |
| ReportCache.CacheGrows | src/auction_engine.rs:5606-5685 | a new report takes the next arena range and leaves every other report as it was |
| AuctionEngine.CallAuctionEngine.constructor | src/auction_engine.rs:4394-4424 | a new engine is the modelled genesis |
| EngineAudit.FromCheckpointWithLimits | src/auction_engine.rs:4622-4701 | restores exactly the restorable checkpoints, into exactly the modelled state, which passes the closing engine audit; otherwise names the stage that refused |
| AuctionEngine.CallAuctionEngine.PushEvent | src/auction_engine.rs:6574-6591 | numbers and binds one event |
| AuctionEngine.CallAuctionEngine.ApplySubmit | src/auction_engine.rs:5783-5821 | admits the order and announces it; no internal check can fail |
| AuctionEngine.CallAuctionEngine.ApplyCancel | src/auction_engine.rs:5823-5853 | cancels the order and announces it; no internal check can fail |
| AuctionEngine.CallAuctionEngine.ApplyAmend | src/auction_engine.rs:5875-5916 | amends the order and announces it; no internal check can fail |
| AuctionEngine.CallAuctionEngine.ApplyReplace | src/auction_engine.rs:5918-5979 | replaces the order and announces both halves; no internal check can fail |
| AuctionEngine.CallAuctionEngine.ApplyMassCancel | src/auction_engine.rs:5981-6030 | removes the selection and announces each order and the completion; no internal check can fail |
| AuctionEngine.CallAuctionEngine.ApplyIndicative | src/auction_engine.rs:5855-5873 | publishes the indication; no internal check can fail |
| AuctionEngine.CallAuctionEngine.ApplyPhaseControl | src/auction_engine.rs:5756-5781 | moves the phase and announces it; no internal check can fail |
| AuctionEngine.CallAuctionEngine.ApplyUncross | src/auction_engine.rs:6032-6075 | uncrosses the book, closes the cycle and announces trades, remainders and completion; no internal check can fail |
| AuctionEngine.CallAuctionEngine.ApplyPreparedAction | src/auction_engine.rs:5687-5754 | carries out any committable action with exactly the modelled book, phase, indication and events |
| AuctionEngine.CallAuctionEngine.PrepareIndicative | src/auction_engine.rs:6164-6230 | decides an indication as modelled |
| AuctionEngine.CallAuctionEngine.PrepareUncrossCommand | src/auction_engine.rs:6446-6513 | decides an uncross as modelled |
| AuctionEngine.CallAuctionEngine.PrepareAction | src/auction_engine.rs:6077-6162 | decides every command as modelled, changing nothing a report depends on |
| AuctionEngine.CallAuctionEngine.CheckCapacity | src/auction_engine.rs:6529-6572 | answers the modelled capacity verdict |
| AuctionEngine.CallAuctionEngine.Prepare | src/auction_engine.rs:5024-5070 | an exact retry replays before any capacity check, a reused identity collides, else the decision becomes a token; the state stays |
| AuctionEngine.CallAuctionEngine.CommitReady | src/auction_engine.rs:5655-5685 | applies an action and retains its report in the next arena range |
| AuctionEngine.CallAuctionEngine.CommitWithGate | src/auction_engine.rs:5606-5685 | commits a current token under the gate's verdict exactly as modelled; foreign and stale tokens are refused |
| AuctionEngine.PrepareThenCommitIsAStep | src/auction_engine.rs:5024-5070 | preparing and committing is one modelled step |
| AuctionEngine.TokensGoStale | src/auction_engine.rs:5606-5685 | a token is refused as stale once any other command has been retained |
| BoundedHash.BucketCount | src/bounded_hash.rs:515-522 | a power of two, at least twice and under four times the maximum |
| BoundedHash.ProbeDistance | src/bounded_hash.rs:506-508 | the number of steps a probe takes, wrapping once |
| BoundedHash.SomeBucketIsEmpty | src/bounded_hash.rs:338-358 | fewer entries than buckets leave an empty bucket, so every probe stops |
| BoundedHash.InsertKeepsLayout | src/bounded_hash.rs:178-205 | filling the empty bucket a probe stopped at keeps every entry reachable |
| BoundedHash.ShiftStarts | src/bounded_hash.rs:360-377 | emptying a bucket leaves one hole, and every probe needs at most it |
| BoundedHash.ShiftSkips | src/bounded_hash.rs:360-377 | a bucket whose probe never passes the hole stays |
| BoundedHash.ShiftMoves | src/bounded_hash.rs:360-377 | a bucket whose probe passes the hole moves into it and leaves the next hole |
| BoundedHash.ShiftStops | src/bounded_hash.rs:360-377 | at an empty bucket nothing needs the hole any more |
| BoundedHash.SwapRemoveDropsKey | src/bounded_hash.rs:214-237 | moving the last entry over the removed one drops exactly its key |
| BoundedHash.SwapRemoveLinks | src/bounded_hash.rs:214-237 | and re-aiming the moved entry's bucket restores the bijection |
| BoundedHash.BoundedHashMap.constructor | src/bounded_hash.rs:108-125 | a new index is empty |
| BoundedHash.BoundedHashMap.Search | src/bounded_hash.rs:338-358 | finds the key's entry, or an empty bucket with every bucket before it taken by other keys |
| BoundedHash.BoundedHashMap.Get | src/bounded_hash.rs:164-167 | is the lookup of the finite map |
| BoundedHash.BoundedHashMap.TryInsert | src/bounded_hash.rs:178-205 | inserts or replaces as the finite map does; only a new key can find it full, and it joins after every other entry |
| BoundedHash.BoundedHashMap.EraseBucket | src/bounded_hash.rs:360-377 | backward-shift deletion restores reachability cyclically and terminates |
| BoundedHash.BoundedHashMap.Remove | src/bounded_hash.rs:214-237 | removes exactly the key of the finite map |
| BoundedHash.BoundedHashMap.Clear | src/bounded_hash.rs:240-245 | empties the finite map |
| Magnitudes.CanonicalIsUnique | src/ledger_magnitude.rs:19-23 | equal values have equal canonical representations |
| Magnitudes.AddInlineValues | src/ledger_magnitude.rs:152-160 | two inline values that overflow give their exact sum as three limbs |
| Magnitudes.AddToWide | src/ledger_magnitude.rs:162-181 | adds exactly, carries included, and keeps a non-zero top limb |
| Magnitudes.CompareMagnitudes | src/ledger_magnitude.rs:100-110 | the order of representations is the order of integers |
| Magnitudes.DecimalRoundTrips | src/ledger_magnitude.rs:120-149 | a decimal numeral parses back to its number and has no leading zero |
| Magnitudes.BlockAppends | src/ledger_magnitude.rs:120-149 | a zero-padded block appends its digits |
| Magnitudes.DivideByDecimalBase | src/ledger_magnitude.rs:130-135 | schoolbook division in place is exact division with remainder |
| Magnitudes.DecimalBlocks | src/ledger_magnitude.rs:127-140 | repeated division yields the number in base ten to the nineteenth, without a zero top block |
| Magnitudes.Format | src/ledger_magnitude.rs:120-149 | prints exactly the decimal numeral of the value |
| Magnitudes.LedgerMagnitude.constructor | src/ledger_magnitude.rs:31-35 | starts canonical at the given value |
| Magnitudes.LedgerMagnitude.AddU128 | src/ledger_magnitude.rs:70-84 | adds exactly and stays canonical, inline or wide |

## Left out

- Durable storage, the write-ahead log, codecs, snapshots and their error types. A checkpoint is an in-memory value with its two log positions.
- Continuous matching, risk, market data, the ledger beyond its magnitude, calendars, history views and the instrument catalogue: only what the auction stack calls is modelled, as plain data.
- Error formatting, accessors, depth and observation queries, telemetry, resource status and allocation failures: no order, price or report depends on them.
- The fail-closed query paths for deliberately corrupted private state and the conditional-observation commands, which re-check one prepared command before the same commit.
- The indexed AVL trees are finite maps read in key order, and inside the book and the engine the hash index is a finite map; `BoundedHash` proves that refinement on its own.
- The trace arena is the sequence of retained events; reports are ranges of it.
- The atomic instance counters, the shared ownership and the lock around the uncross pool. The book lends and takes back leases (`AuctionBook.CallAuctionBook.Release`); the engine does not drop its tokens by itself, so runs offer the number of free leases as an input to each step.
- The per-action copies of book and phase revisions kept inside prepared commands: a token is bound to the retained history, and an unchanged history means an unchanged state.
- AuctionBook.CallAuctionBook.FromParts: assumes parts gathered from distinct orders of distinct priorities, and AuctionEngine.CallAuctionEngine.FromParts parts of a checkpoint that restores; `BookRestoration.FromCheckpointState` and `EngineAudit.FromCheckpointWithLimits` are the operations, which check first.
- BookRestoration.FromCheckpointState: assumes no two saved orders share a priority sequence, which checkpoint validation establishes; how the library sort would order two that do is not modelled.
- EngineAudit.Validate: does not audit the storage layout of the index and the arena or the reserved capacities.
- BookAudit.Validate: does not audit the layout of the AVL trees, the hash index or the reserved capacities.
- BoundedHash.BoundedHashMap.constructor: the hash function is an arbitrary fixed function, and `hash & mask` is the remainder by the power-of-two bucket count, which it equals.
- BoundedHash.BoundedHashMap.TryInsert: allocation inside the reserved capacity cannot fail here; `validate_layout`, iteration and the set wrapper are not modelled.
- Magnitudes.Format: an inline value prints through the standard library, modelled as its decimal numeral.
- `significant_bits` of the ledger magnitude and the accounting built on it.
- `required_cancellation_count`, which repeats the selection of `append_remainder_cancellations` to reserve room.
