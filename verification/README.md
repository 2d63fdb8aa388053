# Verified models of the action engine, the migration planner and two text refinements

Dafny 4.11 models of four parts of the service, with proofs. Run `dafny verify dfyconfig.toml` in this directory.

**The bubble engine (`pkg/bath`).** `fromTrace` turns a blockchain trace into a tree of mutable bubbles, each with a
ledger of what its transactions did to every account. Mergers then rewrite the tree in place until none applies: patterns
of tree checks (`Straw`) and two hand-written mergers for multi-hop swaps. What is left becomes the list of actions and the
flow of funds. The model keeps the heap: `class Bubble` and `class ValueFlow` are updated in place, and every method carries
a ghost value tree (`Bubbles.Tree`) that says what the heap holds before and after. What a merge computes is a function or a
relation on such trees, the methods are proved to compute it, and the laws are proved about it.

* `Ledger` the ledger; `Bubbles` the heap, the tree it represents and sums over trees; `Sorting` insertion sort.
* `Patterns`, `Embeddings` the greedy search and the declarative embedding it decides; `Clusters`, `Merges` which bubbles a
  merge consumes, what it makes of them and what it keeps; `Matcher` the code on the heap; `Premises` why the premises below
  are needed; `Jettons`, `Transfers` the jetton transfer patterns and the one user of a straw that leaves its bubble in
  place, and what their bubbles say; `Listings` which accounts are listed after a merge.
* `StonfiRoutes`, `Gathering`, `StonfiMerges`, `StonfiMerger` and `DedustRoutes`, `DedustMerges`, `DedustMerger`: the two
  hand-written mergers, in the same three layers; `StonfiSwaps`, `DedustSwaps` what their swaps say, told by the bubbles.
* `Fixpoint`, `MergeAll` runs of a list of mergers; `Traces`, `TraceTrees`, `FromTrace` traces, the trees that depict them
  and the code that makes those; `Actions`, `Collecting`, `FindActions` the result end to end; `NoZeros` why no result depends
  on an order in which maps and sets are visited; `Intentions` the messages that nobody received.

**The migration planner (`pkg/api/migration_handlers.go`).** `MigrationPlan` batches, chunks and the gas cap; `Gasless` the
jetton transfers and the bounded pricing of the relay's commission; `MigrationRun` the loop over the batches on an
over-funded wallet. The emulator and the relay are arbitrary: every proof is for all sequences of their answers.

**Refinements.** `AddressSearch` the prefix search by bisection and the ranking built on it; `JsonKeys` the token automaton
that rewrites JSON keys with its container stack packed into an int64, against a recursive rewrite of JSON values.

## Premises

Everything about merging holds for every tree, trace and list of mergers under these three premises, which the source meets
or leaves to its callers. `Premises` and `DedustMerges` show by example what happens without them.

1. No straw with `NotMergeBubble` sits directly under another one (`Patterns.NoNested`): the filter at
   pkg/bath/matcher.go:129-133 looks one level down only. For a single match the exact condition is in
   `Clusters.ConservesIffHolds`.
2. A builder does not fail on a bubble that its checks accept. The exit at pkg/bath/matcher.go:102-106 leaves marks that the
   filter of a later merge acts on. The model stops there (`Stuck`, `strayed`); every other path restores "no bubble of the
   tree is marked".
3. A Dedust merge does not take the payout bubble twice (pkg/bath/dedust.go:101). `DedustMerges.DedustExactIff` shows that
   this is exactly when every bubble is accounted for once. The model stops there as well.

## Model

| member | source | states |
|---|---|---|
| Ledger.ValueFlow.AddTons | pkg/bath/value_flow.go:32-38 | only the account's Gram changes, by the amount, whether or not the account was there |
| Ledger.ValueFlow.AddFee | pkg/bath/value_flow.go:40-47 | the fee is added to the account's Fees and taken from its Gram |
| Ledger.ValueFlow.SubJettons | pkg/bath/value_flow.go:48-52 | adding the negated amount |
| Ledger.ValueFlow.AddJettons | pkg/bath/value_flow.go:54-70 | one jetton entry of one account changes by the amount and is not stored when it comes out at zero |
| Ledger.ValueFlow.Merge | pkg/bath/value_flow.go:72-86 | in whatever order the maps yield accounts and jettons, the flow becomes the sum of both flows, entry by entry; the other flow does not change |
| Ledger.AddedJettonsNoZero | pkg/bath/value_flow.go:54-70 | a flow without stored zeros keeps having none |
| Ledger.MergedAmount | pkg/bath/value_flow.go:72-86 | every number of the merged flow is the sum of the two numbers |
| Ledger.MergedCommutes | pkg/bath/value_flow.go:72-86 | merging is commutative on flows without stored zeros |
| Ledger.MergedAssociates | pkg/bath/value_flow.go:72-86 | merging is associative on flows without stored zeros |
| Ledger.FoldedInAnyOrder | pkg/bath/value_flow.go:72-86 | folding any permutation of the flows gives the same flow |
| Sorting.Sort | pkg/bath/bubble.go:121-126 | a permutation, sorted wherever the comparison is an order on the elements |
| Patterns.MatchHits | pkg/bath/matcher.go:23-78 | every mapped bubble is an unmarked bubble of the tree that passes the checks of its straw; a straw that leaves its bubble in place never maps the root |
| Patterns.MatchDistinct | pkg/bath/matcher.go:23-78 | no bubble is mapped twice |
| Embeddings.MatchSound | pkg/bath/matcher.go:23-78 | a match is an embedding: straws on different siblings below the right parent, all checks passed, only optional straws left out |
| Embeddings.MatchIffEmbeds | pkg/bath/matcher.go:23-78 | with pairwise exclusive sibling straws the greedy search matches exactly when an embedding exists |
| Embeddings.GreedyMisses | pkg/bath/matcher.go:54-70 | a concrete straw and tree where siblings overlap, an embedding exists and the greedy search fails |
| Matcher.MatchBubble | pkg/bath/matcher.go:23-78 | on the heap, the search returns the mapping of the declarative search, in its order, and changes nothing |
| Matcher.Merge | pkg/bath/matcher.go:80-150 | no match leaves the tree alone; a success overwrites the root so that the heap holds the merged tree, with new objects only for copies and the new flow, no object twice and no mark; otherwise one builder failed, exactly the bubbles folded before it are marked, and they list their own accounts and those their builders added |
| Matcher.ApplyUpdater | pkg/bath/matcher.go:137-139 | applying an updater adds its jetton changes to the flow and nothing else |
| Clusters.ConservesIffHolds | pkg/bath/matcher.go:109-134 | every sum over bubbles (each number of the flows, each object, each record, the count) is kept if and only if no two unmapped bubbles in a row lead to a mapped one; without nested straws that leave their bubbles in place this always holds |
| Merges.CollapseConserves | pkg/bath/matcher.go:96-134 | the subtrees handed to the new bubble and the mapped bubbles make up the old tree, each bubble exactly once |
| Merges.MergeKeepsOthers | pkg/bath/matcher.go:80-150 | all but the new bubble is what was not mapped, and no mark is left |
| Merges.MergeKeepsFlow | pkg/bath/matcher.go:80-150 | every number of the tree's flow changes by exactly what the updater did, and Gram, fees and NFT counts do not change |
| Merges.MergeKeepsHashes | pkg/bath/matcher.go:80-150 | a transaction is listed in the tree after the merge if and only if it was before |
| Merges.OneUpdater | pkg/bath/matcher.go:100-110 | exactly one updater is applied, the earliest of the post-order mapping, on the info that all builders made |
| Merges.MergeDistinct | pkg/bath/matcher.go:125-149 | the merged tree is a tree again: no object occurs twice, no mark is left |
| Listings.MergeAsksBuilders | pkg/bath/matcher.go:100-107 | a merge succeeds if and only if no builder fails, and the new bubble says what the builders said, asked one after another, the root's first |
| Listings.NewBubbleLists | pkg/bath/matcher.go:90-114 | the new bubble lists exactly the accounts and transactions of the mapped bubbles and the accounts that their builders append; nothing of a root that stays in place |
| Listings.MergeKeepsAccounts | pkg/bath/matcher.go:80-150 | an account is listed in the tree after a merge if and only if it was before or a builder appended it |
| Listings.MergeKeepsListings | pkg/bath/matcher.go:80-150 | an account and a transaction that one bubble lists together are listed together by a bubble after the merge |
| Premises.NestedKeepersDuplicate | pkg/bath/matcher.go:125-134 | with two straws in a row that leave their bubbles in place, the bubble below them is counted twice |
| Premises.StaleMarkLosesSubtree | pkg/bath/matcher.go:102-134 | a mark left by a failed merge makes the next merge above it drop the marked bubble with its whole subtree |
| Jettons.RecordsSuccess | pkg/bath/straws.go:127-309 | a merge of either transfer pattern moves jettons if and only if the new bubble is a success, whichever of the two updaters wins |
| Jettons.MergeAddsNet | pkg/bath/straws.go:156-300 | over all accounts, the sum of one master changes by received less sent of a successful transfer of that master, and not at all otherwise |
| Jettons.ClassicIsHonest | pkg/bath/straws.go:127-205 | the classic pattern meets the premises, makes progress, and only an internal transfer or a notification makes it a success |
| Jettons.FlawedIsHonest | pkg/bath/straws.go:207-309 | the same for the flawed pattern, whose check compares sent and received amounts |
| Transfers.ClassicTakesTransfers | pkg/bath/straws.go:127-205 | the classic pattern takes every unmarked transfer on a jetton wallet and nothing else |
| Transfers.FlawedTakesLosses | pkg/bath/straws.go:207-240 | the flawed pattern takes those with a child that carries an internal transfer of another amount |
| Jettons.ClassicKeepsSupplyIff | pkg/bath/straws.go:127-205 | a classic transfer keeps every master's sum if and only if it failed, moves nothing, or knows both ends or none |
| Transfers.ClassicTells | pkg/bath/straws.go:127-205 | what a merged transfer says, field by field, from its bubbles: master from the sender's wallet or else the recipient's; amount and payload as notified, else as sent; who sent, who received, and success from the notification or else from the recipient's wallet |
| Transfers.FlawedTells | pkg/bath/straws.go:207-309 | the same for the flawed pattern, with the amount sent and the amount received |
| Transfers.DestinationIsListed | pkg/bath/straws.go:127-309 | the merged bubble lists the account that the transfer goes to, even if nothing of it was merged |
| Jettons.DepositIsInScope | pkg/bath/staking.go:210-263 | the one pattern with a straw that leaves its bubble in place meets the premises, and each merge makes the tree smaller |
| Transfers.DepositTells | pkg/bath/staking.go:210-263 | the deposit names the transfer's sender, recipient, master and amount, and succeeded if the vault's position did |
| StonfiMerger.ProcessSingleRouterSwaps | pkg/bath/stonfi.go:665-726 | the swaps over one router, the bubble after them and the used bubbles, also those added before a failure |
| StonfiMerger.ProcessMultipleRouterSwaps | pkg/bath/stonfi.go:570-663 | the hops over several routers as read off the tree; the heap does not change |
| StonfiMerger.MergeValueFlowAndTXs | pkg/bath/stonfi.go:526-535 | in whatever order the set yields them, each used bubble is gathered exactly once into the root or a new bubble |
| StonfiMerger.RescueOrphanedChildren | pkg/bath/stonfi.go:514-524 | in whatever order, exactly the children that no hop consumed |
| StonfiMerger.RunHops | pkg/bath/stonfi.go:475-503 | successful hops extend the swap until one has failed; from then on every hop gets a bubble of its own |
| StonfiMerger.Merge | pkg/bath/stonfi.go:431-512 | it applies exactly when there are hops that pay the sender; then the heap holds the swap's tree for some visiting orders, otherwise the old tree |
| StonfiRoutes.HopsPartition | pkg/bath/stonfi.go:570-726 | the hops consume pairwise disjoint sets of bubbles that together form a connected region with the root |
| StonfiMerges.StonfiSum | pkg/bath/stonfi.go:431-535 | every consumed bubble goes to exactly one of the swap and the failed hops, and every other subtree is kept exactly once: each sum over bubbles adds up |
| StonfiMerges.StonfiKeepsFlow | pkg/bath/stonfi.go:431-535 | no number of the tree's flow changes, for any visiting order |
| StonfiMerges.StonfiKeepsHashes | pkg/bath/stonfi.go:431-535 | the same transactions are listed before and after |
| StonfiMerges.StonfiProgress | pkg/bath/stonfi.go:484-502 | the bubbles that are not swaps become fewer, although a failed hop adds a bubble |
| StonfiMerges.StonfiDistinct | pkg/bath/stonfi.go:431-535 | the result is a tree again: no object occurs twice |
| StonfiMerges.StonfiNoMarks | pkg/bath/stonfi.go:431-535 | no marks appear |
| StonfiSwaps.StonfiTakesEverySwap | pkg/bath/stonfi.go:431-442 | the merger applies if and only if there are legs from the bubble on and the last one ends at the account that the first one starts from |
| StonfiSwaps.StonfiTellsTheSwap | pkg/bath/stonfi.go:431-663 | the swap takes the paid legs up to the first one that is not: what went in is the first transfer, what came out is the last taken leg's final transfer, from the wallet of the token that the pool paid out, or the least asked for if it was not paid; exactly the bubbles of these legs are gathered |
| StonfiSwaps.StonfiTellsTheFailed | pkg/bath/stonfi.go:484-503 | every later leg is a failed swap of its own, in order, that says what this leg says and gathers exactly its bubbles |
| Listings.StonfiKeepsAccounts | pkg/bath/stonfi.go:431-535 | exactly the accounts listed before are listed after |
| Listings.StonfiKeepsListings | pkg/bath/stonfi.go:431-535 | an account and a transaction that were listed together are listed together after |
| DedustMerger.RecursiveProcessSteps | pkg/bath/dedust.go:158-175 | the number of steps and failed steps, the pool bubbles from the last to the first and the bubble after them |
| DedustMerger.FindPlan | pkg/bath/dedust.go:13-129 | all checks of the merger, the bubbles to merge in order and the swap they make |
| DedustMerger.Merge | pkg/bath/dedust.go:13-156 | it applies exactly when there is a plan; the heap then holds the merged tree, and is a tree without marks unless the plan takes the payout twice |
| DedustMerger.RepeatsIffTwice | pkg/bath/dedust.go:96-129 | the list to merge has a duplicate exactly in the branch that swaps the payout's children |
| DedustRoutes.PlanShape | pkg/bath/dedust.go:40-129 | the bubbles to merge, each once, form a connected region below the root |
| DedustMerges.DedustExactIff | pkg/bath/dedust.go:96-143 | every bubble is accounted for exactly once if and only if the payout's first child is a transaction bubble whenever a referral splits a jetton payout |
| DedustMerges.PayoutTakenTwice | pkg/bath/dedust.go:96-143 | the failing side is reached: a concrete swap whose payout is split by a referral and counted a second time |
| DedustMerges.DedustFlow | pkg/bath/dedust.go:128-143 | the flow changes by exactly the second share of a payout that is taken twice |
| DedustMerges.DedustKeepsHashes | pkg/bath/dedust.go:128-143 | without a duplicate the same transactions are listed before and after |
| DedustMerges.DedustProgress | pkg/bath/dedust.go:128-155 | without a duplicate the bubbles that are not swaps become fewer |
| DedustMerges.DedustValid | pkg/bath/dedust.go:128-155 | without a duplicate the result is a tree without marks, made of old objects |
| DedustSwaps.DedustTellsTheSwap | pkg/bath/dedust.go:13-154 | whenever the merger applies, the swap is told by bubbles: somebody asks for n steps and pays in, n pools report a swap, a command follows, and a payout pays exactly what the swap says came out to the one who asked; exactly these bubbles are merged |
| DedustSwaps.DedustTakesEverySwap | pkg/bath/dedust.go:13-154 | and wherever there are such bubbles the merger applies and says just that |
| Listings.DedustKeepsAccounts | pkg/bath/dedust.go:128-143 | without a duplicate exactly the accounts listed before are listed after |
| Listings.DedustKeepsListings | pkg/bath/dedust.go:128-143 | without a duplicate an account and a transaction that were listed together are listed together after |
| Fixpoint.GenericProgress | pkg/bath/matcher.go:77-150 | a straw that consumes a required child, or rules out the kind it builds, makes its measure smaller with every merge |
| Fixpoint.RewritesKeeps | pkg/bath/bath.go:84-95 | one success anywhere in the tree keeps all amounts but jettons, the set of transactions, and which transactions are listed with each account, and makes the measure of the whole tree smaller |
| Fixpoint.RunIsShort | pkg/bath/bath.go:72-82 | a merger succeeds at most as often as its measure of the first tree says |
| Fixpoint.SettledKeeps | pkg/bath/bath.go:72-82 | a whole run of any list of mergers changes jetton amounts only, and none if all mergers are hand-written; no transaction is lost or made up, and each is still listed with every account it was listed with |
| Fixpoint.StraysOnlyIfUnclean | pkg/bath/bath.go:72-95 | a run stops early only at a bubble of the tree it has reached at which a builder fails or a payout is taken twice |
| Fixpoint.NeverStuck | pkg/bath/matcher.go:100-106 | if every builder accepts what its checks let through, every match is merged |
| Fixpoint.NoProgressNoEnd | pkg/bath/bath.go:72-82 | a straw that makes no progress applies again to the tree it leaves: the loop would not end |
| MergeAll.RecursiveMerge | pkg/bath/bath.go:84-95 | exactly the first bubble in pre-order that the merger takes is merged, all else stays in place; without a success no bubble is taken and nothing changed; it stops early only at a bubble of this tree that breaks a premise |
| MergeAll.RunToEnd | pkg/bath/bath.go:74-80 | the loop ends; the trees it passes through form a run from the given tree, and either no bubble of the last one is taken or one of its bubbles breaks a premise |
| MergeAll.MergeAllBubbles | pkg/bath/bath.go:72-82 | every merger of the list has run to its end in turn, on a tree without marks and shared objects; or the mergers before the last run have, and a bubble of the last tree of that run is named that breaks a premise |
| MergeAll.StraysOnlyOnDuplicates | pkg/bath/bath.go:72-82 | with builders that accept what their checks let through, a run stops early only in the Dedust merger, at a bubble of the tree it has reached whose payout would be taken twice |
| Traces.Telescopes | pkg/bath/bubble.go:92-167 | over all transactions Gram is what the root was credited, less what nobody received, less all fees, plus the gaps between credits and deliveries |
| Traces.Balances | pkg/bath/bubble.go:92-167 | without the last term if and only if the gaps add up to nothing, as they do when each credit is the delivered value with its enabled IHR fee |
| Traces.FeesAgreeIffNoIhr | pkg/api/migration_handlers.go:1366-1378 | traceFees equals the fees that bubbles carry if and only if no delivered message pays an IHR fee |
| Traces.AccountsAddUp | pkg/bath/bubble.go:92-167 | the sums per account add up to the sum over all transactions |
| FromTrace.SortByCreatedLt | pkg/bath/bubble.go:121-126 | the children in order of creation if all were delivered, the same children in any case |
| TraceTrees.DepictsCarries | pkg/bath/bubble.go:56-169 | the tree of a trace carries, for every account, the Gram and Fees of its transactions, no jettons, and exactly the trace's transactions |
| TraceTrees.DepictsListings | pkg/bath/bubble.go:56-169 | every transaction is listed together with its account, the sender of its message, and the extensions its wallet is asked to change |
| TraceTrees.DepictsReadsBack | pkg/bath/bubble.go:56-169 | the tree of a trace tells back the transaction, the message it received, whether it deployed its contract, and the wallet's extension actions in order |
| FromTrace.FromTrace | pkg/bath/bubble.go:56-169 | a fresh tree without marks and shared objects that is the tree of the trace: its own bubble, below it the trees of the children in order of creation, then the contract deployments and the wallet's extension actions |
| Actions.Extra | pkg/bath/bath.go:97-105 | the account's Gram less what the actions explain |
| Actions.ContributionIsBalance | pkg/bath/actions.go:365-458 | a successful action explains exactly the payments it stands for: all that an account gets less all it pays; a failed one explains nothing |
| Actions.DirectionsCancel | pkg/bath/actions.go:365-375 | a payment's contributions cancel out over all accounts |
| Actions.ActionsCancel | pkg/bath/actions.go:377-458 | over all accounts every kind of action cancels out, except a relay and a swap, which have one side |
| Actions.ExtrasAddUp | pkg/bath/bath.go:97-105 | all extras together are all Gram changes together less the one-sided actions |
| Collecting.Tidy | pkg/bath/actions.go:346-352 | an action lists exactly its bubble's transactions, in order of their first eight bytes, no two neighbours equal |
| Collecting.TidyIsUnique | pkg/bath/actions.go:346-352 | none is listed twice if different transactions differ in their first eight bytes |
| Collecting.FlowOfAmount | pkg/bath/actions.go:355-362 | every number of the collected flow is the sum over all bubbles |
| Collecting.ShownExactly | pkg/bath/actions.go:343-354 | a bubble is shown if and only if its info makes an action and it lists the account that is asked for |
| Collecting.ShownOnce | pkg/bath/actions.go:343-360 | no bubble is shown twice |
| Collecting.CollectActionsAndValueFlow | pkg/bath/actions.go:343-363 | one action for each bubble that is shown, in pre-order, with that bubble's transactions, and the flow of the whole tree |
| NoZeros.SettledNoZeros | pkg/bath/bath.go:72-82 | no flow of the tree of a trace, nor of what any list of mergers makes of it, stores a zero |
| NoZeros.CollectedInAnyOrder | pkg/bath/actions.go:355-362 | the collected flow is that of all bubbles merged in any order |
| NoZeros.GatheredInAnyOrder | pkg/bath/stonfi.go:526-535 | the flow that a swap gathers does not depend on the order in which the set of used bubbles is visited |
| FindActions.FindActions | pkg/bath/bath.go:52-70 | for every trace and list of mergers, each account's Gram and Fees equal the sums over the trace, the flow stores no zero, and actions list only transactions of the trace, all of them if every bubble becomes an action, and for one account every transaction that involves it; it stops early only at a bubble of a tree that the run from the trace's tree has reached, and never if no builder fails and no tree reached has a payout that would be taken twice |
| FindActions.ReportedGramBalances | pkg/bath/bath.go:52-70 | whatever was merged, the reported Gram of all accounts is root credit less undelivered values less reported fees if and only if the credits add up |
| FindActions.ReportedFeesAgree | pkg/api/migration_handlers.go:1366-1378 | whatever was merged, the reported fees of all accounts equal traceFees if and only if no delivered message pays an IHR fee |
| FindActions.ExtrasOfATrace | pkg/bath/bath.go:97-105 | what the actions leave unexplained over all accounts, from the trace alone and the one-sided actions |
| Intentions.ExtractIntentions | pkg/bath/intentions.go:43-63 | all messages of all wallets in pre-order, and how many messages were received |
| Intentions.RemoveMatchedIntentions | pkg/bath/intentions.go:65-90 | exactly the messages that no transaction below the root received, in order |
| Intentions.MatchesIff | pkg/bath/intentions.go:92-145 | a message was received if and only if destination, value and body agree; a message that sends a part of the balance may arrive with any value, a bare cell also as no body |
| Intentions.ByTransactions | pkg/bath/intentions.go:43-90 | what is wanted is what the transactions were told to send, in their order; received are the messages of all but the first; delivered is what one of these received |
| Intentions.InsertAction | pkg/bath/intentions.go:26-38 | after the first action that lists the transaction, or at the end |
| Intentions.EnrichWithIntentions | pkg/bath/intentions.go:20-41 | every undelivered message is inserted, one after another, unless as many messages were received as were meant to be sent |
| Intentions.KeepsActions | pkg/bath/intentions.go:20-41 | the original actions stay in order, and each added message is exactly one failed action at a place of its own |
| Intentions.KeepsContributions | pkg/bath/bath.go:97-105 | no account's extra changes |
| MigrationPlan.MinGramBalanceRequired | pkg/api/migration_handlers.go:317-335 | the gas of all gas-funded messages of batches that no relay pays for |
| MigrationPlan.MinGramCounts | pkg/api/migration_handlers.go:317-335 | the minimum is the gas of all messages that no relay pays for and that do not empty the wallet |
| MigrationPlan.Chunk | pkg/api/migration_handlers.go:307-315 | full pieces in order and a shorter last one, each with the batch's sponsor; nothing of an empty batch |
| MigrationPlan.ChunksKeep | pkg/api/migration_handlers.go:307-315 | the pieces of a batch hold its messages in order, each with its sponsor, and all but the last are full |
| MigrationPlan.ChunkMigrationPlan | pkg/api/migration_handlers.go:726-739 | all batches cut at what the wallet takes, or at the relay's gas cap, with a place kept for a commission |
| MigrationPlan.ChunkSizeIsLargest | pkg/api/migration_handlers.go:726-735 | one message more would not fit the wallet or the relay's gas cap |
| MigrationPlan.ChunkedPlanKeeps | pkg/api/migration_handlers.go:307-335 | chunking keeps every message, its order and its sponsor, and the minimum Gram; no piece is empty or over the limit |
| MigrationPlan.WithinGasCap | pkg/api/migration_handlers.go:66-75 | a relay-funded batch with its commission fits the wallet and the gas cap |
| MigrationPlan.AssembledHandsOver | pkg/api/migration_handlers.go:741-795 | all assets come first, in order and with one sponsor; above the fee only the last message sends what is left, to the relay if the sweep is sponsored and else to the owner, and a sponsored sweep first sends the owner exactly the balance and nobody else a fixed amount; up to the fee no Gram is sent |
| MigrationPlan.PlanHandsOver | pkg/api/migration_handlers.go:726-795 | the same of the chunked plan |
| MigrationPlan.OnlyTheLastSweeps | pkg/api/migration_handlers.go:758-795 | only the last batch of the chunked plan empties the wallet |
| Gasless.PrepareJettonTransfers | pkg/api/migration_handlers.go:915-949 | full balances in order, the gas jetton last and less the reserve; which error, and exactly when |
| Gasless.TransfersInOrder | pkg/api/migration_handlers.go:915-949 | each other wallet's whole balance is sent from it, in the wallets' order, and at last the balance less the reserve from the last wallet of the gas jetton |
| Gasless.TransfersOkIff | pkg/api/migration_handlers.go:915-949 | the transfers can be made if and only if every wallet of the gas jetton holds more than is kept back and there is one if a gas jetton is named; what is missing decides the error |
| Gasless.BuildPlan | pkg/api/migration_handlers.go:582-609 | transfers, batches and chunks for a reserve, or the transfers' error |
| Gasless.BuiltHandsOver | pkg/api/migration_handlers.go:582-609 | whatever is kept back, the built plan hands over all assets and the Gram, each to whom it belongs |
| Gasless.ReserveKeepsShape | pkg/api/migration_handlers.go:582-628 | another accepted reserve keeps the number of batches, their sizes and who pays for them |
| Gasless.PriceCommission | pkg/api/migration_handlers.go:1020-1052 | at most three estimates; success is the first price that does not grow, on the plan built for the price before it; exactly which answers were used |
| Gasless.EmbedGaslessCommission | pkg/api/migration_handlers.go:1007-1069 | every sponsored batch of that plan gets the relay's last message and the commission, other batches stay as they are |
| Gasless.WalletOutflow | pkg/api/migration_handlers.go:915-949 | from every wallet the plan takes all of an ordinary one, all but the reserve of the gas jetton's last one, and nothing of its other ones |
| Gasless.AllMovedIffOneGasWallet | pkg/api/migration_handlers.go:915-949 | every wallet's balance, less the reserve for the gas jetton, is moved if and only if the gas jetton has at most one wallet |
| Gasless.GasOutflow | pkg/api/migration_handlers.go:915-949 | the plan takes exactly the balance less the reserve, which is positive, from the wallet that pays for gas |
| Gasless.NeverOverspent | pkg/api/migration_handlers.go:1007-1069 | whenever pricing and embedding succeed, what the priced plan takes from the wallet that pays for gas and the commissions of all batches of the final plan together are at most its balance |
| Gasless.CommissionFits | pkg/api/migration_handlers.go:1064-1067 | a sponsored batch with its commission appended fits the wallet and the gas cap |
| Gasless.TwoGasWalletsLeaveOneBehind | pkg/api/migration_handlers.go:919-933 | with two wallets of the gas jetton the built plan takes nothing from the first one |
| MigrationRun.WorstIsTheLargest | pkg/api/migration_handlers.go:1299-1312 | a shortfall is known if and only if some observation is not covered, and it is the largest observation |
| MigrationRun.ObservedAreLosses | pkg/api/migration_handlers.go:521-532 | what is observed is the plan's minimum and then what the source has lost after a batch that is no sweep |
| MigrationRun.LossesAreObserved | pkg/api/migration_handlers.go:521-532 | no batch on the over-funded wallet is overlooked |
| MigrationRun.DeductGramBalance | pkg/api/migration_handlers.go:1333-1345 | it fails exactly if the account is missing, not active or holds less, and otherwise takes the amount from this account only |
| MigrationRun.DropOverfundBalances | pkg/api/migration_handlers.go:1347-1357 | every end balance of the source in the trace is lowered by the over-funding but not below zero, nobody else's changes |
| MigrationRun.ShownBalancesAreReal | pkg/api/migration_handlers.go:521-534 | every shown trace is the emulated one with the over-funding taken out of each end balance of the source, not below zero; other accounts' balances and all outcomes are unchanged |
| MigrationRun.EndTime | pkg/api/migration_handlers.go:1206-1213 | in whatever order the map yields the accounts, the latest of the start and the last payments |
| MigrationRun.TakeBack | pkg/api/migration_handlers.go:484-495 | before a sweep without a shortfall the deduction never fails and leaves exactly the real balance less what was spent |
| MigrationRun.FailsIff | pkg/api/migration_handlers.go:490-553 | a batch fails if and only if it cannot be encoded, emulated, measured or previewed or its trace did not succeed, and the reply tells these apart |
| MigrationRun.FirstIsFunded | pkg/api/migration_handlers.go:439-451 | the first batch is emulated on the wallet as it is, with the plan's minimum and five Gram on top if the plan needs any Gram and the wallet exists |
| MigrationRun.RunBatch | pkg/api/migration_handlers.go:468-554 | one round for any answer of the emulator: what it was given, what was observed, the trace that is shown without the over-funding, and a failure only as the shortfall if there is one |
| MigrationRun.PrepareMigration | pkg/api/migration_handlers.go:439-561 | all or nothing: a short source that cannot be over-funded is answered with the bare shortfall before anything is emulated; a plan comes with one transaction per batch, consecutive seqnos and clocks, and without a shortfall the first sweep gets the real balance less what was spent; any shortfall is the worst of the plan's minimum and every spend observed, none means all were covered, and a failure after a shortfall reports just that |
| MigrationRun.DeadlinesGrow | pkg/api/migration_handlers.go:469-482 | deadlines never go back and are at least a lifetime from the start |
| AddressSearch.FindIndexes | pkg/addressbook/attached_accounts.go:98-130 | on every sorted list: -1 and -1 if and only if nothing has the prefix, otherwise exactly the first and last match, and all between match |
| AddressSearch.SearchAttachedAccounts | pkg/addressbook/addressbook.go:305-323 | the same accounts in the same order as a linear filter |
| AddressSearch.RefreshAddresses | pkg/addressbook/addressbook.go:387-390 | the same accounts, sorted by name |
| AddressSearch.AddFound | pkg/addressbook/addressbook.go:139-150 | one account per wallet and name: the first whitelisted one of all sources, or else the first |
| AddressSearch.BoostRanks | pkg/addressbook/addressbook.go:151-169 | against an account of the same trust a full match counts a hundredfold, against one that matches as well a verified account fiftyfold, and between equals nothing changes |
| AddressSearch.Deduplicate | pkg/addressbook/addressbook.go:170-179 | one account per wallet, and none that was left out is better than the one kept for its wallet |
| AddressSearch.SearchAttachedAccountsByPrefix | pkg/addressbook/addressbook.go:133-186 | at most 70 accounts, one per wallet, best first; whatever is missing is no better than what is returned, and nothing is missing below the limit |
| AddressSearch.FoundIsRepresented | pkg/addressbook/addressbook.go:133-186 | every account found in any source is answered by one of its wallet, unless the limit is full |
| JsonKeys.ChangeJsonKeys | internal/g/camel_snake.go:28-90 | the loop writes what the automaton writes on all tokens, and nothing is rewritten if the decoder fails |
| JsonKeys.ChangesExactlyTheKeys | internal/g/camel_snake.go:28-90 | on the tokens of any JSON value nested at most 64 deep the automaton writes the rendering of the value with every key at every depth rewritten and all else in place |
| JsonKeys.IdentityReproduces | internal/g/camel_snake.go:28-90 | with nothing to rewrite the value itself comes out |
| JsonKeys.SecondPassChangesNothing | internal/g/camel_snake.go:28-90 | if rewriting every key twice is rewriting it once, a second pass changes nothing |
| JsonKeys.PushAgrees | internal/g/camel_snake.go:46-58 | a bit pushed out of the int64 is not missed while at most 64 containers are open |
| JsonKeys.TooDeepFails | internal/g/camel_snake.go:46-64 | at 65 the outermost object is forgotten: its next key is taken for a value, whatever the rewriting |
| JsonKeys.CamelToSnake | internal/g/camel_snake.go:12-26 | the loop computes the conversion character by character |
| JsonKeys.SnakeReadsBack | internal/g/camel_snake.go:12-26 | a name of ASCII letters and digits that does not start with a capital can be read back, so no two of them become the same |
| JsonKeys.SnakeSettlesIff | internal/g/camel_snake.go:12-26 | a second conversion changes nothing if and only if every character is safe or becomes safe |
| JsonKeys.AsciiNamesSettle | internal/g/camel_snake.go:12-26 | as it is for names of ASCII letters, digits, underscores, hyphens and colons |

## Left out

- MergeAll.MergeAllBubbles: does not go on after a builder failed or after a Dedust merge took its payout bubble twice; the source goes on, on a tree for which conservation no longer holds (`Premises`, `DedustMerges.DedustExactIff`).
- Ledger.ValueFlow: an account's entry is a value, so sharing one entry between two flows and writing to a missing map are not modelled.
- Actions.ActionsCancel: actions are grouped by what they say about Gram; the unknown action type, at which the source panics, does not exist in the model, and prices in other currencies are actions without extra.
- Jettons.DepositIsInScope: a missing sender, on which the source would crash, counts as a failed builder.
- Jettons.RecordsSuccess: a notification without a sender address leaves the sender unknown, where the source would crash.
- DedustMerger.FindPlan: a missing decoded body counts as a body of another kind, where the source would crash.
- FromTrace.FromTrace: the extension actions decoded from a wallet's message are given with the trace; bubbles without a flow have an empty one.
- Collecting.Tidy: equal keys of different hashes may come in any order, so a repeated hash between them may stay; the source does the same.
- Intentions.EnrichWithIntentions: decoding a wallet's message into out messages, and how an out message is described, are parameters.
- Gasless.EmbedGaslessCommission: the request to the relay (encoding, public key, balance flag) is not modelled, only its answers.
- MigrationRun.PrepareMigration: encoding, emulation and the preview are arbitrary answers per batch; storage lookups, wallet inference and request parsing before the loop are left out.
- JsonKeys.ChangeJsonKeys: tokens instead of bytes; escaping of strings and several JSON values in one input are left out.
- JsonKeys.CamelToSnake: code points are unbounded numbers, so the replacement character for invalid ones does not appear.
- AddressSearch.SearchAttachedAccountsByPrefix: the normalisation of the prefix is a parameter; locking is left out.
- Sorting: the Go library uses insertion sort for up to twelve elements; longer lists are sorted by another algorithm with the same contract, except for the order of ties.
- Checks and builders look at a bubble's info and its children's infos, as all of the repository's do; a builder may append accounts to its bubble.
- Growing a slice in place, and slices that share their backing array, are modelled as values.
- int64 overflow of amounts: amounts are unbounded integers.
- The other protocol patterns (bids, staking pools, subscriptions, auctions, oracles, payments): they are data for the engine.
- Bounced messages, contract interfaces beyond those named, transaction types and extra currencies: not looked at by the modelled code paths.
- HTTP handlers, converters, translation, images, fiat previews and rates: field copying and floating point.
- Storage, caches, chain state and metrics: I/O around the modelled logic.
