# A verified model of the gilt-chain node's core

This project models the parts of the `gilt-chain` node in which several redundant pieces of state must agree, and proves
that they do for every input, every run or every interleaving.

| file | what it models |
|---|---|
| `Common.dfy` | vocabulary shared by the models |
| `Chain.dfy` | the block store; ancestor paths, total difficulties and transaction lookups, each defined once from the parent links |
| `ForkChoice.dfy` | fork choice as an order, and runs of arriving blocks |
| `HeaderChain.dfy` | header import, header reorganisation, rewinding and ancestor lookup over the canonical index |
| `BlockChain.dfy` | block writes, reorganisation with transaction lookups, side chains |
| `Rewind.dfy` | the two backward searches for a block with available state |
| `TrieGc.dfy` | the garbage-collection queue of in-memory tries |
| `HashLookup.dfy` | the caching block-hash closure |
| `Ledger.dfy`, `GasRules.dfy`, `StateTransition.dfy`, `Execution.dfy` | one message with gas paid in any enabled native token |
| `Payments.dfy`, `Authorizations.dfy` | a message account by account, in its own terms and in numbers |
| `StateProcessor.dfy` | the transaction loop of a block |
| `TxIndexer.dfy` | the sliding-window transaction indexer |
| `IndexBridge.dfy` | the block chain's view of the lookups against the indexer's |
| `GiltBarrier.dfy`, `GiltFates.dfy` | the peer set's gilt extension barrier as a transition system, and what becomes of everyone at it |
| `DerivationPath.dfy` | the wallet derivation path parser and printer |

How it is put together:

- The database is a handful of finite maps. A hash identifies a block, so hashes are injective. `Chain.Closed` says that
  every stored block other than the genesis has its parent stored one number below. The genesis hash and the empty hash are
  fixed constants.
- Code that changes state step by step is a class or a method with loops, proved against a function or predicate of the old
  state; the theorems are then about those. Writes the node collects in a batch while it reads the old database are
  collected in a batch here too.
- The EVM call is an arbitrary function that gives back no more gas than it got (`GasBounded`). What else a theorem needs is
  a hypothesis on the calls actually made, one message at a time: that the call conserves every token's total and leaves the
  gas token's rate and enable flag alone, that it lowers no nonce, or that it takes no nonce past the limit. A call that
  burns tokens, such as a self-destruct in favour of itself, only takes its own message and block out of the conservation
  results.
- Each message of a block ends with the finalisation of the world: self-destructed and empty accounts are deleted, with
  their nonces and default balances, and the token manager's account with all other balances. What that destroys is part of
  the block results. An account that exists and is empty counts as touched, which is so after the first finalisation.
- The conservation results also suppose that the total supply of each token fits a balance word (`Total(w, t) < w.word`,
  `Fits`), so that a credit cannot wrap.
- The 256-bit balance word and the 64-bit limit are parameters (`World.word`, `Env.maxUint64`). The node's values are two to
  the 256 and two to the 64 less one; the results hold for any size.
- The random draw between equally heavy blocks of different validators, the interrupt signals, the order in which decoding
  threads deliver blocks, and whether a batch is full are parameters, so the results hold for every outcome.

Some results say that the code does not always do what one might expect, and exactly when it does:

- A terminal total difficulty makes two headers displace each other (`ForkChoice.MutualDisplacement`, an if and only if,
  with `ForkChoice.DisplacementExample`).
- A rewind to a target the head has already reached leaves headers stored above the head in place
  (`HeaderChains.HeaderChain.SetHead` gives both cases exactly, `HeaderChains.IdleRewind` is such a run).
- Asked for an ancestor of the empty hash at a number above the head, `GetAncestor` answers with a canonical hash
  (`HeaderChains.EmptyHashAncestor`).
- A reorganisation indexes every block that joins, so a fork below the index tail leaves entries below the tail; the window
  survives if and only if no such block has a transaction (`BlockChains.WindowSurvives`, `TxIndexers.SwitchCovers`, with
  `TxIndexers.ForkExample`).
- A rewind of the chain deletes no lookups; the table has no wrong entry afterwards if and only if none points past the new
  head (`TxIndexers.CutCovers`, with `TxIndexers.RewindExample`).
- An index without a tail keeps stray entries below its window; it is exact if and only if there were none
  (`TxIndexers.TxIndexer.Start`, `TxIndexers.StrayExample`).
- An indexing task reaches its bound if and only if a limited window's tail is at most one above the head, or an unlimited
  one's is not below the cutoff (`TxIndexers.TxIndexer.Run`). Otherwise it touches nothing: after the chain has fallen below
  the tail of a limited window, the table keeps whatever it held, and the blocks the window should now hold are not brought
  back until the head is again at most one below the tail (`TxIndexers.StalledBelowTail`); an unlimited window that reaches
  below the cutoff keeps its entries there until the node restarts (`TxIndexers.StalledBelowCutoff`).
- The progress report says that nothing remains when the tail lies more than one block above the head
  (`TxIndexers.ReportMatchesBound`, an if and only if, with `TxIndexers.ReportExample`).
- During shutdown the gilt barrier can deadlock: a blocked registration can still be received if and only if its waiter has
  not taken the shutdown branch (`GiltBarrier.SenderFate`, `GiltBarrier.ShutdownDeadlock`).

## Model

| member | source | states |
|---|---|---|
| `Chain.TdIsPathSum` | gilt-chain/core/headerchain.go:227-279 | a table that adds each block's difficulty to its parent's is the sum of difficulties along the path to genesis |
| `Chain.LookupExact` | gilt-chain/core/blockchain.go:1508-1518 | with transactions unique along a chain, the lookup table maps a transaction to a number exactly when the canonical block of that number holds it |
| `Chain.LookupSplit` | gilt-chain/core/blockchain.go:3075-3124 | a chain's lookup table splits at any ancestor into two disjoint parts |
| `Chain.MeetBelow` | gilt-chain/core/blockchain.go:2993-3014 | two chains that share a block share everything below it |
| `ForkChoice.DecisionIsOrder` | gilt-chain/core/forkchoice.go:76-151 | without a terminal total difficulty the nested comparisons decide by one lexicographic order, and by the draw exactly on a tie between different coinbases |
| `ForkChoice.FinalityDecides` | gilt-chain/core/forkchoice.go:129-151 | from the Plato block on the engine's justified numbers decide first, a header before it counting as zero, and equal ones leave it to the difficulties |
| `ForkChoice.NoFinality` | gilt-chain/core/forkchoice.go:129-135 | without such an engine or without a Plato block only the difficulties count |
| `ForkChoice.ReorgExact` | gilt-chain/core/forkchoice.go:76-126 | the comparison of difficulties in the headers' own terms, its two errors and the terminal total difficulty included |
| `ForkChoice.OrderIsStrictTotal` | gilt-chain/core/forkchoice.go:76-151 | that order is irreflexive, asymmetric, transitive and total on headers with distinct hashes |
| `ForkChoice.MutualDisplacement` | gilt-chain/core/forkchoice.go:91-96 | two untied headers displace each other if and only if their justified numbers agree and both reached the terminal total difficulty |
| `ForkChoice.DisplacementExample` | gilt-chain/core/forkchoice.go:91-96 | two concrete headers past a terminal total difficulty that displace each other |
| `ForkChoice.HeadNeverDrops` | gilt-chain/core/blockchain.go:2080-2116 | over any parent-first run of block writes, whatever the draws, the head's justified number never drops, nor its total difficulty while the justified number stays |
| `ForkChoice.JustifiedNeverDrops` | gilt-chain/core/blockchain.go:2080-2116 | past the Plato block the engine's own justified number of the head never drops along a run, nor its total difficulty while that stays |
| `ForkChoice.RunEndsOnTop` | gilt-chain/core/blockchain.go:2080-2116 | without ties a run ends on the block preferred to every other it has seen |
| `ForkChoice.ArrivalOrderIsIrrelevant` | gilt-chain/core/blockchain.go:2080-2116 | any two parent-first arrival orders of the same blocks end with the same store, difficulties and head |
| `ForkChoice.ArriveWrites` | gilt-chain/core/blockchain.go:2080-2101 | with the parent's difficulty known the fork choice never fails and the block is written; otherwise nothing changes |
| `HeaderChains.HeaderChain.WriteHeaders` | gilt-chain/core/headerchain.go:227-279 | the store becomes the old one with the headers added, every difficulty obeys the law, the headers stored before are exactly the skipped prefix, and unknown ancestors or an interrupt change nothing |
| `HeaderChains.HeaderChain.CollectHeaders` | gilt-chain/core/headerchain.go:235-268 | the skip-known shortcut loses nothing: the pending view is the whole import |
| `HeaderChains.ImportStep` | gilt-chain/core/headerchain.go:241-268 | one turn of the import keeps closure and the difficulty law, and changes nothing for a header stored before |
| `HeaderChains.HeaderChain.Reorg` | gilt-chain/core/headerchain.go:157-221 | for a contiguous list of stored headers the canonical index becomes exactly the ancestor path of the last one; it never fails on a closed store |
| `HeaderChains.HeaderChain.OverwriteBack` | gilt-chain/core/headerchain.go:180-198 | the backward overwrite terminates at a true cross link, or below genesis, with the right hash at every number in between |
| `HeaderChains.HeaderChain.DeleteAbove` | gilt-chain/core/headerchain.go:172-179 | deletes exactly the entries up to the first gap |
| `HeaderChains.HeaderChain.ReorgBatch` | gilt-chain/core/headerchain.go:171-210 | the batch, collected from reads of the old index only, turns it into the new head's path when flushed |
| `HeaderChains.FlushIsPath` | gilt-chain/core/headerchain.go:157-221 | a batch right wherever it writes, and writing wherever the chains differ, turns one path into the other |
| `HeaderChains.ReorgFlush` | gilt-chain/core/headerchain.go:171-210 | the deletions, the backward and the forward writes of a reorganisation together are such a batch |
| `HeaderChains.SpanIsAncestry` | gilt-chain/core/headerchain.go:199-210 | a contiguous stored list is a stretch of its last header's ancestry |
| `HeaderChains.HeaderChain.WriteHeadersAndSetHead` | gilt-chain/core/headerchain.go:289-325 | the invariant is kept, the head becomes the last header exactly when the fork choice prefers it and it is not canonical already, and the number imported is that of the headers not stored before |
| `HeaderChains.HeaderChain.SetHead` | gilt-chain/core/headerchain.go:619-750 | stops exactly at the target number, or at the highest block no later than the target time, or not at all; cuts the canonical index exactly there, and when the head moves drops every header and difficulty above it on every fork |
| `HeaderChains.HeaderChain.LevelsAbove` | gilt-chain/core/headerchain.go:680-688 | the upward sweep to the first empty level finds every number above that carries a header |
| `HeaderChains.FinishRewind` | gilt-chain/core/headerchain.go:644-718 | flushing the collected deletions leaves a closed store, the difficulty law and the new head's path |
| `HeaderChains.IdleRewind` | gilt-chain/core/headerchain.go:638-644 | a run in which a rewind to the current head leaves a header stored above it |
| `HeaderChains.HeaderChain.GetAncestor` | gilt-chain/core/headerchain.go:438-470 | the answer is the parent-link ancestor, or empty exactly when more non-canonical links than allowed would have to be followed, with the exact budget left; an unknown block has no ancestors, except that the empty hash above the head gets the canonical hash lower down |
| `HeaderChains.EmptyHashAncestor` | gilt-chain/core/headerchain.go:438-470 | a fresh chain, asked for the second ancestor of the empty hash at number two, answers with the genesis |
| `BlockChains.BlockChain.WriteHeadBlock` | gilt-chain/core/blockchain.go:1492-1531 | the index, the lookups and all head markers after marking a head |
| `BlockChains.BlockChain.FindFork` | gilt-chain/core/blockchain.go:2975-3014 | finds the last common block of two chains with both sides listed; fails only on a store that is not closed |
| `BlockChains.ForkTop` | gilt-chain/core/blockchain.go:3125-3131 | what the found fork says about the block a reorganisation stops at, for forks, extensions and rewinds to an ancestor |
| `BlockChains.BlockChain.ApplyNew` | gilt-chain/core/blockchain.go:3092-3112 | after writing all new blocks but the newest, index and lookups are the old ones with that stretch over them |
| `BlockChains.BlockChain.Reorg` | gilt-chain/core/blockchain.go:2969-3152 | the index becomes exactly that of the block below the new head, or of the ancestor itself in a rewind; whatever the lookup table held, exactly the blocks above the fork are switched in it |
| `BlockChains.BlockChain.DropStale` | gilt-chain/core/blockchain.go:3116-3144 | deleting what did not come back, and the index above, leaves exactly the new chain's index and the switched table |
| `BlockChains.SwitchIndex` | gilt-chain/core/blockchain.go:3092-3144 | overwriting above the meeting point and deleting up to the first gap gives the new chain's index |
| `BlockChains.SwitchLookup` | gilt-chain/core/blockchain.go:3075-3124 | switching the blocks above the fork turns a whole chain's lookups into the new chain's |
| `BlockChains.WindowSwitch` | gilt-chain/core/blockchain.go:3075-3124 | switching a table that holds only a window leaves the blocks above the lower of its tail and the fork |
| `BlockChains.WindowSurvives` | gilt-chain/core/blockchain.go:3092-3124 | a window survives a reorganisation if and only if the fork does not lie below it or no block that joined below it has a transaction |
| `BlockChains.HashDifference` | gilt-chain/core/types/transaction.go:708-723 | keeps exactly the hashes of the first list that are not in the second |
| `BlockChains.BlockChain.SwitchHead` | gilt-chain/core/blockchain.go:2102-2116 | reorganisation plus head write keep the full invariant for any stored block, whether it is a fork, an extension or an ancestor |
| `BlockChains.BlockChain.WriteKnownBlock` | gilt-chain/core/blockchain.go:1929-1938 | keeps the full invariant and makes the block the head without asking the fork choice |
| `BlockChains.BlockChain.WriteBlockWithState` | gilt-chain/core/blockchain.go:1942-1976 | stores the block with its parent's difficulty plus its own, and fails exactly for an unknown parent |
| `BlockChains.BlockChain.WriteBlockAndSetHead` | gilt-chain/core/blockchain.go:2080-2149 | keeps the full invariant and is one step of the abstract run of arrivals, with the right status |
| `BlockChains.BlockChain.InsertBlocks` | gilt-chain/core/blockchain.go:2362-2476 | importing blocks one by one, known ones included, keeps the full invariant and is the abstract import of exactly those before the stop or the missing parent, all of which are stored |
| `BlockChains.ImportedIsRun` | gilt-chain/core/blockchain.go:2362-2476 | an import without known blocks is a run of arrivals, so the fork-choice theorems apply to it |
| `BlockChains.BlockChain.InsertHeaders` | gilt-chain/core/headerchain.go:227-279 | a header batch keeps everything block writes need |
| `BlockChains.BlockChain.InsertSideChain` | gilt-chain/core/blockchain.go:2751-2807 | side blocks and re-imported canonical ones all get the lawful difficulty, which is carried on from block to block; the store is the old one with the handled blocks; it stops if and only if some block off the canonical chain carries the canonical block's state root, and at the first such block |
| `BlockChains.BlockChain.InsertSideBlock` | gilt-chain/core/blockchain.go:2762-2807 | one turn keeps the invariant and hands on the block's own total difficulty; it reports an attack if and only if the block is off the canonical chain and carries the canonical block's state root |
| `BlockChains.BlockChain.WriteAll` | gilt-chain/core/headerchain.go:227-279 | any run of header batches, block imports and side-chain writes, in any order, takes the abstract step of each write in turn; the full invariant holds and every stored block's total difficulty is its parent's plus its own and the sum along its path |
| `BlockChains.StoreKeepsLookups` | gilt-chain/core/blockchain.go:1955-1976 | storing a block changes nothing in the head's lookup table |
| `Rewinds.Rewinder.RewindHashHead` | gilt-chain/core/blockchain.go:991-1064 | returns the highest suitable ancestor-or-self within the search limit, or genesis; the root number returned is that of the highest block carrying the root, if the search gets to it, and zero otherwise |
| `Rewinds.Rewinder.RewindPathHead` | gilt-chain/core/blockchain.go:1067-1139 | returns the highest ancestor-or-self not below the pivot whose state is there or recoverable, with the requested root passed or given up, and makes its state available, whatever else the recovery loses; or genesis; the root number returned is where the search meets the root before giving it up, and zero if it does not |
| `TrieGc.Collector.Write` | gilt-chain/core/blockchain.go:2003-2062 | references held equal the queued roots, and the queue follows the retention rule |
| `TrieGc.Collector.Release` | gilt-chain/core/blockchain.go:2050-2062 | releases exactly the roots numbered at or below the limit |
| `TrieGc.QueueIsSurvivors` | gilt-chain/core/blockchain.go:2003-2062 | over any run of writes, block numbers going down included, a root is queued exactly when no later write lies a retention window above it |
| `TrieGc.AliveInNumbers` | gilt-chain/core/blockchain.go:2007-2021 | the retention window is 128 blocks, and a write numbered 128 or less releases nothing |
| `TrieGc.WriteRun` | gilt-chain/core/blockchain.go:2003-2062 | a run on a fresh collector ends with references for exactly those survivors |
| `HashLookups.HashFn.Get` | gilt-chain/core/evm.go:108-144 | the caching closure answers like the uncached parent walk and only extends its cache |
| `HashLookups.GetAll` | gilt-chain/core/evm.go:108-144 | any sequence of calls answers like the uncached walk, call by call |
| `HashLookups.HashAtIsAncestor` | gilt-chain/core/evm.go:108-144 | for a stored block the uncached walk gives its ancestor of that number |
| `Ledger.ConvertSplit` | gilt-chain/core/native_token_manager.go:28-45 | converting a sum gains at most one unit against converting its two parts, and never loses |
| `Ledger.ConvertMono` | gilt-chain/core/native_token_manager.go:28-45 | conversion keeps order |
| `Ledger.Debit` | gilt-chain/core/state_transition.go:340-345 | a covered debit takes exactly the amount out of that token's total and out of no other |
| `Ledger.Credit` | gilt-chain/core/state_transition.go:722-738 | a credit the total has room for adds exactly the amount and does not wrap |
| `Ledger.FinalisedTotal` | gilt-chain/core/state/statedb.go:921-959 | finalisation takes exactly what it destroys out of every total: the default balances of self-destructed accounts, and the other tokens' books if the token manager's account goes |
| `Ledger.FinalisedNonce` | gilt-chain/core/state/statedb.go:921-959 | finalisation resets the nonces of self-destructed accounts and of no others |
| `Ledger.FinalisedAccount` | gilt-chain/core/state/statedb.go:921-959 | finalisation account by account: balances, code, existence, and the token manager's rates and flags |
| `GasRules.TransactionToMessage` | gilt-chain/core/state_transition.go:181-217 | the effective price is the smaller of fee cap and tip plus base fee, and every other field is the transaction's |
| `GasRules.DataGasExact` | gilt-chain/core/state_transition.go:74-109 | the stepwise overflow checks refuse exactly when the whole data cost, given in numbers, does not fit 64 bits |
| `GasRules.IntrinsicExact` | gilt-chain/core/state_transition.go:74-120 | intrinsic gas in numbers, refused exactly when start and data do not fit 64 bits and wrapping in the lists and authorizations |
| `GasRules.ZerosCount` | gilt-chain/core/state_transition.go:84-86 | the zero bytes are counted |
| `GasRules.FloorDataGas` | gilt-chain/core/state_transition.go:123-135 | forty gas per non-zero byte, ten per zero byte and the base, refused exactly on overflow |
| `GasRules.CalcRefund` | gilt-chain/core/state_transition.go:702-718 | the refund is the largest one within the counter and within half of the gas used, or a fifth after London |
| `GasRules.GasUsage` | gilt-chain/core/state_transition.go:573-592 | gas used is at least the data floor after Prague and at least peak less a fifth after London, at most the recorded maximum, and adds up with the gas returned to the limit |
| `GasRules.GasUsageExact` | gilt-chain/core/state_transition.go:573-592 | gas used in numbers: the peak less the smaller of the counter and a half, or a fifth after London, and after Prague no less than the floor |
| `StateTransitions.ChecksBoundPrices` | gilt-chain/core/state_transition.go:379-437 | passing the checks with fee checks active bounds the charged prices by the caps and the base fee by the price |
| `StateTransitions.ChecksExact` | gilt-chain/core/state_transition.go:348-448 | the checks before the purchase pass if and only if the message's own fields meet every clause |
| `StateTransitions.CheckErrors` | gilt-chain/core/state_transition.go:351-403 | which nonce, sender or fee error a message gets: that of the first clause it fails |
| `StateTransitions.BlobErrors` | gilt-chain/core/state_transition.go:404-446 | which blob or authorization error it gets after those |
| `StateTransitions.AffordableExact` | gilt-chain/core/state_transition.go:280-332 | what the sender must hold, in numbers: the gas at the fee cap and the blobs at the blob fee cap in the gas token at its rate, and the value in its own token |
| `StateTransitions.Solvency` | gilt-chain/core/state_transition.go:280-346 | the up-front debit is covered and fits a word despite the ignored overflow flag, and the sender still holds the whole value, in the same token or another |
| `StateTransitions.AuthsSpend` | gilt-chain/core/state_transition.go:641-699 | each (authority, nonce) takes effect at most once, no nonce passes the 64-bit limit, and code changes only between no code and a delegation |
| `Authorizations.AuthsLeave` | gilt-chain/core/state_transition.go:641-699 | after a list of authorizations an account's code, nonce and existence are those the last of its authorizations to take effect names, with validity spelt out, and unchanged if none does |
| `Authorizations.LastNamingIsLast` | gilt-chain/core/state_transition.go:641-699 | that authorization takes effect for the account, and no later one does |
| `Authorizations.AuthsRefund` | gilt-chain/core/state_transition.go:681-685 | the refund counter grows by 12500 for each authorization that takes effect on an existing account |
| `Authorizations.PreparedLeaves` | gilt-chain/core/state_transition.go:546-558 | a call's authorizations take effect after the sender's nonce has gone up by one, and a creation changes no code or nonce before it runs |
| `StateTransitions.PreparedSpends` | gilt-chain/core/state_transition.go:549-558 | preparing a nonce-checked call spends the sender's nonce and those of the valid authorizations, all different |
| `StateTransitions.PreparedGuards` | gilt-chain/core/state_transition.go:348-364 | preparing any nonce-checked message takes no nonce past the 64-bit limit and changes code only between no code and a delegation |
| `StateTransitions.SpendsCompose` | gilt-chain/core/state_transition.go:348-364 | a nonce spent in one step cannot be spent in a later one |
| `StateTransitions.Dust` | gilt-chain/core/native_token_manager.go:28-45 | converting four parts separately loses at most three units against converting their sum |
| `StateTransitions.SettlementTotals` | gilt-chain/core/state_transition.go:594-622 | after any call that keeps the totals the payments go through without wrapping and the totals fall by what is burnt |
| `StateTransitions.Conservation` | gilt-chain/core/state_transition.go:460-638 | for every affordable message whose own call conserves, the gas token's total falls by the converted burnt cost plus at most three units, and no other total changes |
| `Execution.GasPool.AddGas` | gilt-chain/core/gaspool.go:29-35 | adds the gas; every call made here meets the bound whose violation panics |
| `Execution.GasPool.SubGas` | gilt-chain/core/gaspool.go:39-45 | takes the gas if it is there and refuses otherwise |
| `Execution.StateTransition.BuyGas` | gilt-chain/core/state_transition.go:280-346 | succeeds if and only if the sender can afford it and the pool has it; failure changes nothing, and its error is that of the first clause that fails |
| `Execution.StateTransition.PreCheck` | gilt-chain/core/state_transition.go:348-448 | succeeds if and only if all checks pass and the gas can be bought; failure changes nothing, and its error is the first |
| `Execution.StateTransition.Admit` | gilt-chain/core/state_transition.go:472-535 | a message gets to its call if and only if every clause holds, with the world, the pool and the gas left at that point; otherwise the error is that of the first clause that fails |
| `Execution.GasErrors` | gilt-chain/core/state_transition.go:492-509 | which error the gas checks give, in numbers: intrinsic gas before the data floor |
| `Execution.AdmittedExact` | gilt-chain/core/state_transition.go:472-535 | a message gets to its call if and only if the clauses in its own terms hold |
| `Execution.StateTransition.ApplyAuthorization` | gilt-chain/core/state_transition.go:675-699 | applies an authorization exactly when it is valid, leaving the world `Authorizations.AuthsLeave` describes |
| `Execution.StateTransition.ReturnGas` | gilt-chain/core/state_transition.go:722-738 | unused gas goes back to the pool and, as `Payments.ReturnedBalance` says, to the sender |
| `Execution.StateTransition.Settle` | gilt-chain/core/state_transition.go:573-622 | refund, floor, returned gas and fees, with the gas and the world they leave |
| `Execution.StateTransition.Execute` | gilt-chain/core/state_transition.go:460-638 | a message goes through if and only if every check passes and its fees can still be converted after the call; then it is accepted in the sense of the lemmas below and the pool loses exactly the gas used; a message within its caps never fails for want of its value |
| `Execution.AcceptedBounds` | gilt-chain/core/state_transition.go:573-592 | gas used lies between the floor, or the peak less its capped refund, and the recorded maximum |
| `Execution.AcceptedFalls` | gilt-chain/core/state_transition.go:460-638 | accepting a priced message whose own call conserves burns its base fee and conserves everything else |
| `Execution.AdmittedSettles` | gilt-chain/core/state_transition.go:592-622 | a priced message that gets as far as a call that conserves never fails afterwards |
| `Execution.GiltBurns` | gilt-chain/core/state_transition.go:594-622 | on GILT after London the default token falls by exactly gas used times base fee, a converted one by its conversion plus at most three units, no other at all |
| `Payments.ReturnedBalance` | gilt-chain/core/state_transition.go:722-738 | unused gas goes back to the sender, at its price and rate, and nobody else's balance changes |
| `Payments.GasCostExact` | gilt-chain/core/native_token_manager.go:28-45 | a cost can be paid in a token exactly when it is nothing, or the token is the default one or enabled with a rate, and then at that rate |
| `Payments.WritesMake` | gilt-chain/core/state/statedb.go:525-560 | setting a nonce or code makes the account, and a payment of nothing changes nothing |
| `Payments.PreparedBalance` | gilt-chain/core/state_transition.go:280-346 | before the call the sender, and nobody else, has paid the gas limit at the effective price and the blob fee |
| `Payments.SettledBalance` | gilt-chain/core/state_transition.go:592-630 | settlement account by account: the return to the sender, the tip and on GILT the blob fee to the system address or the block's beneficiary, and nothing else |
| `Payments.AcceptedBalances` | gilt-chain/core/state_transition.go:460-638 | every account's balance in every token before the call and after an accepted message, and the gas the call runs on |
| `Payments.AcceptedUsage` | gilt-chain/core/state_transition.go:573-592 | the gas an accepted message pays for in numbers, from what its call used, the refund counter it left and the data floor |
| `Execution.AcceptedSpends` | gilt-chain/core/state_transition.go:348-364 | an accepted call message whose own call lowers no nonce uses each of its nonces for the first and only time |
| `Execution.AcceptedGuards` | gilt-chain/core/state_transition.go:641-699 | an accepted message whose own call keeps nonces within 64 bits keeps them there, and sets or clears delegations on accounts without contract code only |
| `StateProcessor.Process` | gilt-chain/core/state_processor.go:123-160 | the block is a trace of accepted and finalised messages, pool gas plus gas used is the initial pool, and the receipts are the trace's; or processing stops at the first transaction that no result could accept, or that follows a system transaction after Cancun |
| `StateProcessor.ApplyTransaction` | gilt-chain/core/state_processor.go:204-246 | one accepted message, paid from the pool, and the world finalised after it |
| `StateProcessor.ReceiptAt` | gilt-chain/core/state_processor.go:226-280 | each receipt carries its own gas and the sum up to and including it |
| `StateProcessor.BlockGas` | gilt-chain/core/state_processor.go:123-160 | the gas used never exceeds the pool |
| `StateProcessor.ProcessedArePriced` | gilt-chain/core/state_processor.go:146-152 | what block processing executes is priced by its caps and the base fee, and nonce-checked |
| `StateProcessor.BlockConserves` | gilt-chain/core/state_processor.go:123-160 | through a whole block whose calls conserve no total rises; the default token falls by exactly what its payers burnt and what finalisation destroyed, any other by that plus at most three units for each payer |
| `StateProcessor.DefaultHasNoDust` | gilt-chain/core/native_token_manager.go:28-34 | the default token loses nothing to rounding |
| `StateProcessor.BlockSpends` | gilt-chain/core/state_transition.go:549-558 | through a whole block of call transactions whose calls lower no nonce, nonces fall only on accounts that self-destruct, and no (sender, nonce) or (authority, nonce) of any other account is spent twice, in whatever combination |
| `StateProcessor.BlockKeepsLimit` | gilt-chain/core/state_transition.go:348-364 | through a whole block of nonce-checked messages whose calls keep nonces within 64 bits, no nonce ever passes the limit |
| `StateProcessor.BlockGuards` | gilt-chain/core/state_transition.go:641-699 | in every block each message's preparation sets or clears delegations on accounts without contract code only |
| `TxIndexers.TxIndexer.IndexTransactions` | gilt-chain/core/rawdb/chain_iterator.go:189-264 | in whatever order blocks are delivered, exactly the gapless range from the top is indexed, and the tail says so after every flush |
| `TxIndexers.TxIndexer.UnindexTransactions` | gilt-chain/core/rawdb/chain_iterator.go:288-363 | likewise from the bottom up for removal |
| `TxIndexers.TxIndexer.Run` | gilt-chain/core/txindexer.go:105-152 | a tail that described the table describes it again, interrupted or not and after every flush; uninterrupted it ends on the bound if and only if a limited window's tail is at most one above the head, or an unlimited one's is not below the cutoff, and otherwise nothing is touched |
| `TxIndexers.StalledBelowTail` | gilt-chain/core/txindexer.go:141-151 | a limited window with the tail two above the head: the task changes nothing and the head's transaction stays out |
| `TxIndexers.StalledBelowCutoff` | gilt-chain/core/txindexer.go:128-140 | an unlimited window with the tail below the cutoff: the task changes nothing and the block below the cutoff stays indexed |
| `TxIndexers.TxIndexer.Repair` | gilt-chain/core/txindexer.go:159-216 | purges, drops exactly the entries below the cutoff or keeps, so that a remaining tail describes the table |
| `TxIndexers.TxIndexer.Start` | gilt-chain/core/txindexer.go:263-273 | repair and an uninterrupted run end on the bound, and leave exactly the configured window, from an index whose tail described it, if and only if a table without a tail had no strays |
| `TxIndexers.TxIndexer.Follow` | gilt-chain/core/txindexer.go:274-287 | over any run of head events, reorganisations and rewinds alike, every block from the tail on is indexed; while no rewind removes a block with a transaction every entry is right as well, and while besides no fork lies below the windows seen so far the tail describes the table exactly and every event that starts a task leaves exactly the window |
| `TxIndexers.SwitchCovers` | gilt-chain/core/blockchain.go:3075-3124 | a change of chain keeps every entry right and every block from the tail on indexed; the tail goes on describing the table if and only if no block that joined below it has a transaction |
| `TxIndexers.ForkExample` | gilt-chain/core/blockchain.go:3092-3124 | a fork below the tail that leaves an entry below the tail |
| `TxIndexers.CutCovers` | gilt-chain/core/blockchain.go:1304-1323 | a rewind, which deletes no lookup, keeps every block from the tail on indexed; every entry is right, and the tail describes the table, if and only if no entry points past the new head |
| `TxIndexers.RewindExample` | gilt-chain/core/blockchain.go:944-963 | a rewind by one block that leaves its transaction in the table |
| `IndexBridge.SwitchIsReplaced` | gilt-chain/core/blockchain.go:2969-3152 | a reorganisation as the block chain performs it, with the new head written, is the change of chain the indexer follows, on any table and from the number above the fork on |
| `IndexBridge.RewindIsReplaced` | gilt-chain/core/blockchain.go:3125-3144 | likewise for a reorganisation to an ancestor of the head, from its number on |
| `IndexBridge.AboveIsHome` | gilt-chain/core/blockchain.go:1508-1518 | the lookups above a number are exactly the transactions whose block in the list of bodies lies above it |
| `TxIndexers.StraysStay` | gilt-chain/core/txindexer.go:118-130 | writing a range over a table gives exactly that range if and only if the table had no strays |
| `TxIndexers.StrayExample` | gilt-chain/core/txindexer.go:118-130 | a two-block chain on which the first task leaves a stray |
| `TxIndexers.ReportMatchesBound` | gilt-chain/core/txindexer.go:304-337 | what remains is the tail's distance from the bound; it is zero if and only if the tail is at or below the bound, or more than one above the head |
| `TxIndexers.ReportExample` | gilt-chain/core/txindexer.go:304-337 | a report with the tail two above the head that says nothing remains |
| `GiltBarrier.RunKeeps` | gilt-chain/eth/peerset.go:137-321 | the invariant holds after every interleaving |
| `GiltBarrier.KeepRemove` | gilt-chain/eth/peerset.go:248-266 | a waiter that gives up deletes its own entry and no other |
| `GiltBarrier.KeepMeet` | gilt-chain/eth/peerset.go:155-158 | a hand-over keeps the invariant |
| `GiltBarrier.BarrierIsSafe` | gilt-chain/eth/peerset.go:137-321 | no id is ever both waiting and pending, each extension reaches at most one waiter and each waiter gets at most one, and snap peers are counted |
| `GiltFates.NothingIsLost` | gilt-chain/eth/peerset.go:137-162 | along every interleaving a registration past the lock that was not refused is blocked on its send, pending under its id, or received |
| `GiltFates.WaitersAreServed` | gilt-chain/eth/peerset.go:215-276 | along every interleaving a waiter past the lock that was not refused waits for its id, has given up, or has received an extension |
| `GiltFates.OneWaiter` | gilt-chain/eth/peerset.go:227-230 | at most one goroutine waits for an id |
| `GiltFates.PendingIsDelivered` | gilt-chain/eth/peerset.go:160-236 | an extension registered before its waiter goes to the next waiter of its id, who keeps it |
| `GiltFates.Registers` | gilt-chain/eth/peerset.go:144-161 | a registration is refused exactly for a registered or pending id; otherwise it goes to the waiter if there is one and is pending if not |
| `GiltFates.WaitsRefused` | gilt-chain/eth/peerset.go:221-230 | a wait is refused exactly for a registered or waited-for id, and then changes nothing |
| `GiltFates.Waits` | gilt-chain/eth/peerset.go:231-242 | otherwise it takes and keeps the pending extension if there is one, and waits if not |
| `GiltFates.Members` | gilt-chain/eth/peerset.go:280-321 | joining, leaving and closing do to the peers what they should and leave the barrier alone |
| `GiltFates.TimeoutGivesUp` | gilt-chain/eth/peerset.go:248-266 | a timed-out waiter that finds the lock free gives up at once and takes its entry away |
| `GiltFates.ShutdownGivesUp` | gilt-chain/eth/peerset.go:270-274 | so does a waiter that sees the shutdown while the lock is free |
| `GiltFates.ReadersExclude` | gilt-chain/eth/peerset.go:325-337 | a reader gets in exactly when no goroutine has the lock, keeps writers out, and leaves the state as it was |
| `GiltBarrier.BlockedSenderIsReceived` | gilt-chain/eth/peerset.go:137-268 | before shutdown the waiter of a blocked registration never waits for the lock, and the extension can be received within two steps, and is kept exactly if the waiter has not timed out |
| `GiltBarrier.SenderFate` | gilt-chain/eth/peerset.go:269-275 | a blocked registration can still be received if and only if its waiter has not taken the shutdown branch |
| `GiltBarrier.StuckForever` | gilt-chain/eth/peerset.go:269-275 | once it has, both stay blocked and the lock stays held in every continuation |
| `GiltBarrier.ShutdownDeadlock` | gilt-chain/eth/peerset.go:269-275 | such a state is reachable, for every id |
| `DerivationPaths.ParseDerivationPath` | gilt-chain/accounts/hd.go:68-118 | the loop computes the specification `Parse`, the error of the first bad component included |
| `DerivationPaths.ToString` | gilt-chain/accounts/hd.go:122-136 | the loop computes the specification `Print` |
| `DerivationPaths.ScanInBase` | gilt-chain/accounts/hd.go:100-104 | the scanner reads the digits of a number in any base from 2 to 16 back to the number |
| `DerivationPaths.PrefixesParse` | gilt-chain/accounts/hd.go:100-104 | binary, octal and hexadecimal numbers parse by their prefixes |
| `DerivationPaths.UnderscoreBetween` | gilt-chain/accounts/hd.go:100-104 | a single underscore between digits changes nothing |
| `DerivationPaths.UnderscoreMisplaced` | gilt-chain/accounts/hd.go:100-104 | an underscore after anything but a digit is misplaced |
| `DerivationPaths.BadNumbers` | gilt-chain/accounts/hd.go:100-104 | a trailing underscore and a sign without digits are refused |
| `DerivationPaths.SignsParse` | gilt-chain/accounts/hd.go:100-104 | a number may carry a sign |
| `DerivationPaths.NumbersExact` | gilt-chain/accounts/hd.go:100-104 | which texts without a sign are numbers and which number each is: figures of the base its prefix names, either case, at least one, grouped by single underscores |
| `DerivationPaths.SignsExact` | gilt-chain/accounts/hd.go:100-104 | one sign may come before a number, and nothing else |
| `DerivationPaths.OutOfRangeExact` | gilt-chain/accounts/hd.go:105-112 | a component is accepted if and only if its number is not negative and fits 32 bits, or 31 when hardened |
| `DerivationPaths.TextParses` | gilt-chain/accounts/hd.go:91-112 | every 32-bit component parses back from its text, hardened or not |
| `DerivationPaths.SplitSnoc` | gilt-chain/accounts/hd.go:72 | a slash and a piece without one add exactly one piece |
| `DerivationPaths.SplitJoin` | gilt-chain/accounts/hd.go:72 | a slash joins the pieces on either side |
| `DerivationPaths.RoundTrip` | gilt-chain/accounts/hd.go:68-133 | a printed path parses back to itself exactly when it is not empty |
| `DerivationPaths.AppendedText` | gilt-chain/accounts/hd.go:68-118 | a text after a printed path parses as its components appended to the path, errors included |
| `DerivationPaths.RelativeIsBelowRoot` | gilt-chain/accounts/hd.go:83-85 | a relative path parses as the same text does after the default root's text |
| `DerivationPaths.RootText` | gilt-chain/accounts/hd.go:31 | the default root prints as m/44'/60'/0'/0 |
| `DerivationPaths.ParseErrors` | gilt-chain/accounts/hd.go:73-89 | a blank first piece is ambiguous and the bare mark is empty |
| `DerivationPaths.ParsedPathsReparse` | gilt-chain/accounts/hd.go:68-133 | whatever text a path came from, its printed form parses to the same path |
| `DerivationPaths.PaddingIsIgnored` | gilt-chain/accounts/hd.go:91-98 | white space around a component changes nothing |
| `DerivationPaths.QuoteHardens` | gilt-chain/accounts/hd.go:95-99 | a quote at the end hardens the component, white space before it or not |
| `DerivationPaths.SpacesExact` | gilt-chain/accounts/hd.go:91-98 | what counts as white space |

## Left out

- Snap-sync and cutoff insertion, the freezer and every ancient-store path: dominated by freezer semantics; they also set the head header without its hash, outside the invariant proved here.
- `writeHeadersAndSetHead` between block writes: it moves the head header without the head block, as snap sync does; it keeps the header chain's invariant, not the block chain's.
- Callbacks of `setHead`, and the critical exit when a time lies before genesis, which appears as a precondition.
- Event feeds, metrics, logging, tracers, caches and prefetchers: no effect on what is stated.
- Database write failures: the node exits on them.
- Header and body validation: its outcome (a contiguous list that attaches to the store, transactions unique along a chain) is a precondition.
- Consensus engine internals: the justified number is an arbitrary function of the header; system transactions are only set aside, and finalisation, withdrawals and requests are not modelled.
- Reading a block number below zero, which wraps in the node, is the number -1 here; no block carries either.
- `insertSideChain` after its first loop: re-executing the side chain's pruned ancestors, and interruption of its writes.
- Trie flushing by size and time, archive mode and path mode of `writeBlockWithState`: they take and release no metadata references.
- The priority queues are a sequence or a set with a search for the next item.
- The EVM interpreter, the state database beyond balances, nonces, code and the token manager's slots, and the call's value transfer, which belongs to the call step.
- Messages with fee checks disabled (`NoBaseFee`) in the solvency and conservation theorems.
- Blocks before Byzantium, whose transactions end with an intermediate root instead of a finalisation.
- Logs, blooms, contract addresses and other receipt fields beyond gas and status.
- Block processing stops at a rejected transaction; what it leaves in the state then is discarded by the caller and not stated.
- Nonces raised by the call itself: that calls lower none and take none past the 64-bit limit is a hypothesis on each call.
- The lower end of the freezer (`db.Tail`) in the indexer is taken to be zero, and a chain change while a task is under way takes effect before or after it.
- The snap extension barrier, read-only peer queries beyond their read locks, and the capability checks before the barrier.
- Text that is not valid UTF-8, and the account iterators, in derivation paths.
- Bridge log folding, gas limit calculation, sender caching, incremental snapshots, data availability checks and RPC back ends: plumbing or easy members.
