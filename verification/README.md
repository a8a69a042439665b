# A verified model of the block tree, the coin database and their codecs

This project models the stateful cores of a Bitcoin Core 0.11 fork whose proof of work is a pattern search, and
proves what they promise for every input and every run. It is written in Dafny 4.11; `dafny verify dfyconfig.toml`
checks all of it.

The model follows the form of the program: what the program updates in place is a class whose methods update its
fields, loops are loops with invariants, and each such method is proved against a specification on values about which
the theorems are lemmas.

| files | what they model |
|---|---|
| BlockIndex, ActiveChain, Locator | the skip list, `chainActive`, forks and locators (`src/chain.cpp`) |
| BlockTree, BlockTreeSteps, BestChain, Tracking, Invalidation, ChainState, FirstSeen, BlockTreeLimits, IndexWalk, IndexMeaning | headers and block data in any order, unlinked blocks, candidates, reorganisation, invalidation, `CheckBlockIndex` (`src/main.cpp`) |
| CheckQueue, CheckQueueRuns | the parallel check queue as an interleaving of its critical sections (`src/checkqueue.h`) |
| Coins, BlockUndo, Outputs, CoinsCache, BlockCoins, CoinsRuns | connecting and disconnecting blocks on the unspent outputs, over the stack of write-back caches (`src/coins.*`, `src/main.cpp`, `src/txdb.cpp`) |
| VarInts, VarIntForm, Amounts, ScriptCodec, CoinsCodec, KnownValues | the stream form of stored coins, byte by byte (`src/coins.h`, `src/compressor.*`, `src/serialize.h`) |
| AddrTables, AddrMan, AddrNews, AddrManCheck, AddrManFile, AddrManLoad | the address manager, its consistency check and its file (`src/addrman.*`) |
| MerkleProof, PartialMerkleTree, MerkleBinding, MerkleLimits | partial Merkle trees (`src/merkleblock.*`) |
| Limbs, Arith256, CompactTarget | 256-bit arithmetic on eight limbs and compact targets (`src/arith_uint256.*`) |
| Digits, Base58 | Base58 with its digit buffers (`src/base58.cpp`) |
| PatternSearch, PatternWalk, SearchRanges | the scratchpad and the three computations of a slice (`src/patternsearch.cpp`, `src/aes.cpp`) |

## What the proofs found in the code

Where a promise does not hold of the code as it is, the code is modelled as it is; a lemma gives the input and another
the exact condition.

- `CheckBlockIndex` can fail between two turns of `ActivateBestChain`. In every reachable state in which no block was
  lost track of (see below) it passes if and only if every fully received block without a failed ancestor that does not
  sort below the tip is a candidate (`CheckBlockIndexIff`). A reorganisation refused at its first block ends its turn on
  the fork, below the old tip, and there it fails (`RefusedReorganisationFailsCheck`, `RefusedTurn`; `ForkedIsRefused`
  is such a tree). As long as no block is linked between the turns, it passes if and only if the tip does not sort
  below the highest tip fallen back from (`CheckBlockIndexIffTipAtFloor`); the turns themselves keep what that needs
  (`ActivateBestChainIteration`). Once `ActivateBestChain` returns it passes.
- `InvalidateBlock` leaves a state that `CheckBlockIndex` passes, whatever the block. But on a block that holds data and
  waits for an ancestor it can make the node lose track of blocks: data that arrives on top of a failed block is not
  entered in `mapBlocksUnlinked`, so it is not linked when the ancestor arrives. No block is ever lost so if and only if
  the invalidated block is linked, or has no data, or stands on a block that failed before its data came, or has no
  child header that still waits for data without being failed (`InvalidateKeepsCompleteIff`); from every other
  invalidation, arrivals of data lead to a state that `CheckBlockIndex` rejects (`StrandChild`, and
  `InvalidatedUnlinkedStrandsChildren` on four blocks). No other call loses track of a block (`Run`).
- Without the BIP 30 check, disconnecting a block restores the coins if and only if no transaction of the block
  overwrites one that is still unspent (`DisconnectRestoresIff`); the check suffices (`Bip30Suffices`).
- `src/merkleblock.h` promises at most `2*N-1` flag bits for `N` hashes. A tree has `2*N-1` and one for each level on
  the right edge whose last node has a single child and a match below it, so the promise is kept if and only if there is
  no such level (`BitPromiseIff`). It also promises a size of at most `10 + ceil(32.25*N)` bytes, which is kept if and
  only if the flag bytes are fewer than 253 or at most `ceil(N/4)` (`StatedSizeIff`); 16385 transactions, all matched,
  take one byte more (`StatedSizeExceeded`).
- A partial tree that claims another number of transactions can have another height. For distinct txids every accepted
  proof is sound if and only if the claimed number is refused outright (0 or too large for a block) or gives a height
  not below the real one (`SoundIffNotLower`); at any lower height a proof passes off an inner node as a transaction
  (`LowerIsUnsound`, `OtherHeightIsUnsound` on three transactions).
- The comment above the variable-length integers states the bytes of nine numbers rightly and those of 16511 and 65535
  wrongly: what it gives is read as 32895 and 65407 (`Examples`, `WrongExamples`).
- The last thread of a search also visits a remainder of slices, but that is taken from the number of chunks. The
  threads visit exactly the slices of the scratchpad if and only if their number leaves the same remainder of both
  (`DividedIff`); five threads leave out three slices, ten go two beyond the end (`DividedWrongly`). The search by lanes
  visits each slice exactly once if and only if the number of threads divides the slices into whole groups of eight
  (`GroupsIff`).
- A version or height is written as a signed number of variable length: it comes back if and only if it is not negative
  (`SignedRead`, `StoredCoinsRead`). `DisconnectBlock` allows for that by comparing outputs without such a version.
- `a *= a` on the limbs of `arith_uint256` gives 0, since the product is collected in the operand that was cleared
  (`MulAssign`); for operands that are not shared it is the product modulo 2^256.
- `Add_` answers that an address is new also when its slot was taken and the entry is dropped again: the answer is
  whether it was routable and not known before (`Add_`).

## Model

| member | source | states |
|---|---|---|
| BlockIndex.GetSkipHeightGoesBack | src/chain.cpp:61-73 | the height jumped to is never negative and strictly below its argument, for every height of at least 1 |
| BlockIndex.AndSet | src/chain.cpp:62 | a bit of n & m is set if and only if it is in both |
| BlockIndex.InvertLowestOneIs | src/chain.cpp:61-62 | n & (n - 1) takes the lowest bit off: an odd multiple of 2^j loses 2^j |
| BlockIndex.SkipHeightIs | src/chain.cpp:65-73 | from an even height, an odd multiple of 2^j, the skip goes 2^j down; from the odd height above it also over the next bit |
| BlockIndex.GetAncestor | src/chain.cpp:75-97 | the walk over skip and parent links ends and gives the block of that height on the path of parents; nothing for a height below 0 or above the block |
| BlockIndex.NewHeader | src/chain.cpp:104-108 | an entry built on a parent is one higher, has the added work, and its skip link is the ancestor at the skip height, so the index with it is again well formed and no path changes |
| BlockIndex.SkipsExtend | src/chain.cpp:104-108 | one more entry with its skip link keeps all skip links right and all paths as they were |
| ActiveChain.Chain.SetTip | src/chain.cpp:13-23 | although the loop stops at the first entry that is already right, the chain is then exactly the path from genesis to the new tip; empty for no tip |
| ActiveChain.Chain.FindFork | src/chain.cpp:53-59 | the block of the chain at the greatest height at which the chain and the path of the given block agree |
| ActiveChain.InChainIffMember | src/chain.h:391-394 | comparing the entry at the block's own height decides membership in the chain |
| Locator.GetLocator | src/chain.cpp:25-51 | the entries are the ancestors at the start's height less 0, 1, ..., 11, 13, 17, ... (steps doubling after the eleventh), ending at genesis |
| Locator.LocatorShape | src/chain.cpp:25-51 | a locator starts at its block, ends at genesis, strictly descends and has at most 12 + ceil(log2 height) entries |
| Locator.FindForkInGlobalIndex | src/main.cpp:529-542 | the first entry that is known and in the chain, else genesis |
| Locator.EntrySharedIff | src/main.cpp:529-542 | an entry is found on the other chain if and only if its height is at most that of the true fork |
| Locator.LocatorFindsFork | src/main.cpp:529-542 | the block found is a common ancestor, d behind the start for a fork d <= 11 behind, and less than 2d behind otherwise |
| Locator.LocatorMeets | src/main.cpp:529-542 | some entry is always found, as both chains start at the same genesis |
| BlockTree.ComparatorIsStrictTotalOrder | src/main.cpp:96-117 | the comparator is a strict total order on blocks, so the candidate set never merges two; which of two sorts last is FirstSeen.BestIsHeaviest |
| BlockTree.LinkedIffAllData | src/main.cpp:3678-3680 | in a state of the invariant in which no block was lost track of, nChainTx is nonzero exactly when the block and all its ancestors have data |
| BlockTree.ChainTxIsSum | src/main.cpp:2606-2615 | nChainTx of a linked block is the sum of nTx over its path from genesis |
| BlockTree.CandidateAssertions | src/main.cpp:3692-3707 | in any state of the invariant in which no usable block from the tip up is missing among the candidates, a block is one if it is fully received, has no failed ancestor and does not sort below the tip, and is none if it sorts below it or is not fully received |
| BlockTree.UnlinkedRegistered | src/main.cpp:3708-3724 | each block with data that is not linked and has no failed ancestor stands under its parent in mapBlocksUnlinked, and only unlinked blocks with data do |
| BlockTree.ActiveIsUsable | src/main.cpp:2506-2507 | no block of the active chain is flagged or below a flagged one, and all are fully received |
| BlockTree.EntryPassesCheck | src/main.cpp:3660-3741 | in such a state every assertion CheckBlockIndex makes about any block holds |
| BlockTree.CheckBlockIndexIff | src/main.cpp:3607-3790 | in every state of the invariant in which no block was lost track of, CheckBlockIndex passes if and only if no usable block from the tip up is missing among the candidates |
| BlockTree.CheckBlockIndexAtRest | src/main.cpp:3607-3790 | CheckBlockIndex passes whenever no reorganisation is under way and no block was lost track of; that this is what its walk finds is IndexWalk.CheckBlockIndex |
| BlockTree.CheckBlockIndexIffTipAtFloor | src/main.cpp:3692-3707 | as long as no candidate was added below the highest tip fallen back from, it passes if and only if the tip does not sort below that one |
| IndexMeaning.SomeNext | src/main.cpp:3645-3658 | what CheckBlockIndex carries along a path changes from a block to its child only by that child |
| IndexMeaning.NextSays | src/main.cpp:3678-3691 | so its assertions about a path hold of a block whose parent they hold of exactly if the block is linked if and only if it has transactions and a linked parent, and is valid as far only as its parent is |
| IndexMeaning.CheckMeans | src/main.cpp:3660-3741 | CheckBlockIndex passes if and only if every block's fields agree, it fits its parent, and it is filed where it belongs: failed flags below a failed block, the candidates exactly the usable blocks not below the tip, mapBlocksUnlinked exactly the blocks with data that wait |
| IndexWalk.BuildForward | src/main.cpp:3624-3635 | the map from parents to children lists every block once, under its parent, and has as many entries as the block index |
| IndexWalk.FirstIsLowest | src/main.cpp:3645-3659 | the block a variable pindexFirst... names is the lowest on the path that has the property, and it is set if any has |
| IndexWalk.WalkDown | src/main.cpp:3745-3752 | going to the first child keeps the place of the walk: on the way from genesis exactly the earlier siblings are visited, and all other visited blocks with all that is below them |
| IndexWalk.WalkOn | src/main.cpp:3765-3778 | so does going on to the next sibling |
| IndexWalk.WalkUp | src/main.cpp:3765-3784 | so does going up to the parent after the last sibling |
| IndexWalk.WalkEnds | src/main.cpp:3755-3790 | back at genesis every block has been visited |
| IndexWalk.MoveUp | src/main.cpp:3755-3786 | the loop that moves up restores the first blocks with each property for the sibling it stops at, or has left genesis with every block visited |
| IndexWalk.AllPassIff | src/main.cpp:3660-3741 | the assertions about single blocks, with the two first blocks compared as pointers, hold of all blocks if and only if CheckBlockIndex as defined in BlockTree does |
| IndexWalk.CheckBlockIndex | src/main.cpp:3607-3790 | the depth-first walk ends, visits every block exactly once (so its closing assertion holds), and finds no assertion violated if and only if CheckBlockIndex as defined in BlockTree holds |
| BlockTreeSteps.HeaderPreserves | src/main.cpp:2560-2592 | a new header keeps the invariant |
| BlockTreeSteps.DataQueued | src/main.cpp:2595-2612 | data whose parent is linked leaves the invariant with that block still to be linked |
| BlockTreeSteps.DataRegistered | src/main.cpp:2632-2636 | data whose parent is not linked keeps the invariant, the block being entered under its parent in mapBlocksUnlinked |
| BlockTreeSteps.LinkPreserves | src/main.cpp:2613-2631 | linking one queued block and queueing those that waited for it keeps the invariant |
| BlockTreeSteps.FlaggingPreserves | src/main.cpp:2338-2349 | failed flags put below a failed block, with the candidates they rule out, keep the invariant |
| BlockTreeSteps.ConnectPreserves | src/main.cpp:2238-2295 | connecting a block and pruning the candidates below it keeps the invariant |
| BlockTreeSteps.DisconnectPreserves | src/main.cpp:2188-2226 | falling back by one block keeps the invariant, the old tip staying a candidate |
| BestChain.EndsExist | src/main.cpp:2305-2312 | a nonempty candidate set has a last and a first element under the comparator |
| BestChain.FailedChainPreserves | src/main.cpp:2326-2347 | flagging the rest of a candidate's path above a failed block and dropping it keeps the invariant |
| BestChain.FailedChainShrinks | src/main.cpp:2326-2347 | each such turn leaves fewer candidates and loses no block that could still be connected |
| BestChain.RejectedPreserves | src/main.cpp:1398-1415 | marking a block that failed to connect and taking it out of the candidates keeps the invariant |
| BestChain.RejectedProgress | src/main.cpp:1398-1415 | and leaves fewer blocks unflagged, none of them one that connects on valid ancestors |
| BestChain.BestIsUnique | src/main.cpp:2440-2491 | there is at most one best block among those fully received, without failed ancestor and connectable |
| BestChain.RestingOnBest | src/main.cpp:2440-2491 | a tip at rest that is the last candidate is that best block of the state the call started from |
| BestChain.BestNotBelowTip | src/main.cpp:2440-2491 | the best block never sorts below the tip nor below a tip fallen back from |
| Tracking.FlagsKeepComplete | src/main.cpp:2338-2349 | failed flags that are set on blocks that are linked, without data, never to be linked, or without children that wait for data, lose track of no block |
| Tracking.HeaderKeepsComplete | src/main.cpp:2560-2592 | a new header, which is never put on a failed block, loses track of none |
| Tracking.DataQueuedTracked | src/main.cpp:2595-2612 | nor does data below a linked parent, its block being queued |
| Tracking.DataRegisteredComplete | src/main.cpp:2632-2636 | nor data below an unlinked parent, entered in mapBlocksUnlinked unless the parent is failed |
| Tracking.FailedParentIsDead | src/main.cpp:2632-2636 | a block refused there stands on a block that failed before its data came, so it can never be linked |
| Tracking.LinkKeepsTracked | src/main.cpp:2613-2631 | linking a queued block keeps every waiting block linked, queued or registered |
| Tracking.ProgressKeepsComplete | src/main.cpp:2440-2491 | activating a better chain loses track of no block |
| Invalidation.InvalidatedPreserves | src/main.cpp:2493-2525 | what InvalidateBlock leaves, for any block but genesis, satisfies the invariant at rest |
| Invalidation.InvalidatedIs | src/main.cpp:2493-2510 | only the block gets FAILED_VALID and only the blocks disconnected FAILED_CHILD; the chain ends just below the block, or stays |
| Invalidation.InvalidatedPassesCheck | src/main.cpp:2493-2525 | CheckBlockIndex passes right after InvalidateBlock, for any block |
| Invalidation.InvalidateKeepsCompleteIff | src/main.cpp:2493-2525 | no block is lost track of, then or later, if and only if the block is linked, has no data, stands on a block that failed before its data came, or has no child that waits for data without being failed |
| ChainState.ChainState.AddToBlockIndex | src/main.cpp:2560-2592 | exactly one entry more, without data, on its parent, with the added work; the invariant kept |
| ChainState.ChainState.AcceptBlockHeader | src/main.cpp:2873-2915 | the answer is the first rule that applies, and the state changes only when the header is added |
| ChainState.ChainState.ReceivedBlockTransactions | src/main.cpp:2595-2638 | the block has its data, blocks linked by it get their counts, a new sequence id and their place among the candidates, blocks linked before are as they were, and the invariant holds |
| ChainState.ChainState.LinkQueue | src/main.cpp:2611-2631 | the queue loop ends, and then no block with data whose parent is linked is left unlinked |
| ChainState.ChainState.LinkOne | src/main.cpp:2613-2631 | one turn of that loop: counts, sequence id, candidate if not below the tip, and the blocks that waited for it taken out of mapBlocksUnlinked |
| ChainState.ChainState.AcceptBlock | src/main.cpp:2917-2975 | the outcome for a block's data is decided by its header, what is held already, whether it was asked for, its work and height, and its checks; each outcome states the whole new state |
| ChainState.TakenIff | src/main.cpp:2931-2962 | data is taken if and only if the header stands, it is not held yet, its contents pass and it was asked for or has more work than the tip and is at most 720 blocks above it; and when it marks the block as failed or is refused |
| ChainState.HeaderAddedIff | src/main.cpp:2873-2915 | a header is added if and only if it is new, passes its checks and hangs below a known block not marked failed |
| ChainState.ChainState.FindMostWorkChain | src/main.cpp:2301-2350 | the result is a candidate with no failed block above the active chain, and no remaining candidate sorts above it; on the way candidates are only dropped and flags only added, no new FAILED_VALID among them |
| ChainState.ChainState.FailChain | src/main.cpp:2326-2347 | the walk from a candidate down to a failed block flags exactly the blocks between and erases them |
| ChainState.ChainState.PruneBlockIndexCandidates | src/main.cpp:2356-2365 | exactly the candidates that do not sort before the tip are left, at least one of them |
| ChainState.ChainState.DisconnectTip | src/main.cpp:2188-2226 | the chain is the path of the tip's parent and nothing else changes |
| ChainState.ChainState.ConnectTip | src/main.cpp:2238-2295 | accepted, the chain is the path of the block, now valid to its scripts with undo data; refused, the block is flagged and no candidate, and nothing else changes |
| ChainState.ChainState.ActivateBestChainStep | src/main.cpp:2371-2434 | from the fork up in batches: either an invalid block was found and fewer blocks are unflagged, or the chain is at the goal or has more work than before; the invariant kept |
| ChainState.ChainState.FallBackToFork | src/main.cpp:2371-2381 | the chain is cut back to its fork with the path of the candidate, and nothing else changes |
| ChainState.ChainState.ActivateBestChainIteration | src/main.cpp:2450-2475 | one turn either ends on the last candidate or comes closer, by blocks left unflagged and then by work; it adds no candidate below the highest tip fallen back from, loses track of no block, and ends on the fork if the first block above it on the way to the most work is refused |
| ChainState.ChainState.ActivateBestChain | src/main.cpp:2440-2491 | always ends; in the state it leaves no fully received block without a failed ancestor sorts above the tip, which is one; of the blocks of the state it started from that connect with all their ancestors the tip is the best, and does not sort below the tip at entry; CheckBlockIndex passes if no block was lost track of before |
| FirstSeen.LinkedSince | src/main.cpp:2616-2619 | whatever gets linked when data arrives has a later sequence id than the tip, and linked blocks keep theirs |
| FirstSeen.BestIsHeaviest | src/main.cpp:96-117 | the best block is the eligible one with the most work and, among those with as much, the one linked first |
| FirstSeen.BestIsTipOrHeavier | src/main.cpp:2440-2491 | in every state reached from rest by arrivals the best block is the tip or has strictly more work |
| FirstSeen.FirstReceivedStays | src/main.cpp:2595-2638 | at rest on the last candidate, the arrival of a block's data makes a block other than the tip the best only if it has strictly more work |
| FirstSeen.Receive | src/main.cpp:2873-2975 | whatever header or block arrives and however it is received, no block of no more work than the tip sorts above it |
| FirstSeen.Activate | src/main.cpp:2440-2491 | the tip stays or moves to strictly more work, to the heaviest of the eligible blocks and of those to the one linked first |
| FirstSeen.Run | src/main.cpp:2440-2491 | over any sequence of headers, blocks and activations the tip only ever moves to strictly more work: of chains of equal work the one received first stays |
| ChainState.ChainState.InvalidateBlock | src/main.cpp:2493-2525 | the whole state it leaves, at rest; if no block was lost track of before, CheckBlockIndex passes, and none is lost if and only if the block was harmless in the sense of InvalidateKeepsCompleteIff |
| ChainState.ChainState.FallBack | src/main.cpp:2493-2510 | the active chain ends just below the block, every block disconnected on the way being flagged as its child and no candidate |
| ChainState.ChainState.ReaddCandidates | src/main.cpp:2512-2520 | exactly the valid linked blocks that do not sort before the tip are added to the candidates |
| ChainState.ChainState.Run | src/main.cpp:3607-3790 | in every state of every sequence of headers, blocks, activation turns, activations and invalidations the invariant holds; a call loses track of a block if and only if it is an invalidation that is not harmless; and until then CheckBlockIndex passes if and only if no usable block from the tip up is missing among the candidates, so always when the tip is not below the highest tip fallen back from |
| BlockTreeLimits.RefusedReorganisationFailsCheck | src/main.cpp:2440-2491 | at rest, with the most work in a chain whose first block above the fork is refused below the tip: the state on the fork with that block flagged is one that CheckBlockIndex rejects |
| BlockTreeLimits.RefusedTurn | src/main.cpp:2450-2475 | one turn from such a state ends on the fork, and CheckBlockIndex fails there |
| BlockTreeLimits.ForkedIsRefused | src/main.cpp:2440-2491 | genesis with two children, the tip and a heavier one that is refused, is such a state |
| BlockTreeLimits.InvalidatedUnlinkedStrandsChildren | src/main.cpp:2493-2525 | four blocks, the third invalidated while it waits for the second: CheckBlockIndex passes; then the data of the fourth arrives and is not registered, then that of the second, and when all is linked that can be the fourth is not, and CheckBlockIndex fails |
| BlockTreeLimits.StrandChild | src/main.cpp:2493-2525 | after the invalidation of any block that is not harmless, calls that bring the data of one child and of the ancestors lead to a state that CheckBlockIndex rejects |
| BlockTreeLimits.WaitingIsAtRest | src/main.cpp:2493-2525 | the state that story starts from satisfies the invariant, and no block was lost track of in it |
| CheckQueue.Queue.Add | src/checkqueue.h:146-158 | the checks are queued, nTodo counts them, one worker is woken for one check and all for more |
| CheckQueue.Queue.CriticalSection | src/checkqueue.h:77-120 | one pass under the lock: clean-up of the last batch, notification of the master, then return, sleep or a batch as the state requires |
| CheckQueue.BatchFits | src/checkqueue.h:105-110 | a batch is never empty nor larger than the queue; unless a single check it is at most nBatchSize and at most an equal share of the queue, and the largest such |
| CheckQueue.Execute | src/checkqueue.h:121-125 | the batch's verdict is the verdict so far and that of every check in it, although checks after a failure are skipped |
| CheckQueueRuns.StepPreserves | src/checkqueue.h:69-170 | every step of the master or a worker keeps the invariant of the queue |
| CheckQueueRuns.RunKeepsInvariant | src/checkqueue.h:69-170 | so it holds at every point of every interleaving, for any number of workers |
| CheckQueueRuns.WaitIsExact | src/checkqueue.h:140-143 | every Wait of every run returns true exactly when every check added since the last one evaluates to true |
| CheckQueueRuns.CountersCountBatches | src/checkqueue.h:46-60 | whenever the mutex is free nTotal - nIdle is the number of threads holding a batch and nTodo the number of checks queued or in hand |
| CheckQueueRuns.IdleBetweenWaits | src/checkqueue.h:184-191 | IsIdle holds between one Wait and the next Add, so the assertion of the next controller never fires |
| CheckQueueRuns.SleepingMasterHasWorker | src/checkqueue.h:91-104 | a master asleep and not notified waits for a worker that holds an unfinished batch |
| CheckQueueRuns.SomeStepPossible | src/checkqueue.h:69-127 | while Wait has not returned some thread can take a step that is not a spurious wake-up |
| CheckQueueRuns.StepUsesEffort | src/checkqueue.h:69-127 | each such step uses up effort and spurious wake-ups add none |
| CheckQueueRuns.WaitReturns | src/checkqueue.h:140-143 | so Wait returns within a number of steps known from the state, whatever the order of the threads |
| Coins.TrimUnique | src/coins.h:111-117 | a prefix that does not end in a null and leaves out only nulls is what Cleanup leaves |
| Coins.Cleanup | src/coins.h:111-117 | exactly the null outputs at the end are dropped |
| Coins.FromTx | src/coins.h:88-94 | unspendable outputs become null and nulls at the end are dropped; which outputs that leaves is Outputs.AddedHeld |
| Coins.Spend | src/coins.cpp:35-42 | false and nothing changed unless the output is there; else it is null and the rest cleaned up |
| Coins.RestoreUndoesSpend | src/main.cpp:1646-1670 | restoring the output just spent gives back the very map, without complaint |
| Coins.SpendUndoesRestore | src/main.cpp:1646-1670 | a restore without complaint is undone by spending, so it is the only map that could have been spent from |
| BlockUndo.InputsAreThere | src/main.cpp:1417-1442 | inputs that are distinct and available can all be spent one after the other, so the assertion of UpdateCoins is not reached |
| BlockUndo.RestoreAllUndoes | src/main.cpp:1714-1728 | restoring a transaction's inputs backwards gives back the map they were spent from |
| BlockUndo.SpendAllUndoes | src/main.cpp:1714-1728 | and conversely inputs restored without complaint are spent again with the same outcome |
| BlockUndo.OutputsTakenOut | src/main.cpp:1690-1712 | the outputs found are those written, and taking them out gives the map before if and only if nothing was overwritten |
| BlockUndo.Bip30Suffices | src/main.cpp:1876-1883 | with the BIP 30 check on the block's txids, and these distinct, no transaction overwrites unspent outputs |
| BlockUndo.DisconnectGoesBack | src/main.cpp:1672-1738 | disconnecting after any number of a block's transactions, spends within the block included, gives back the map before it and reports clean |
| BlockUndo.CleanDisconnectFrom | src/main.cpp:1672-1738 | a disconnect that is clean and gives a map m was of a map that connecting to m gives, up to versions of transactions, and nothing was overwritten |
| BlockUndo.DisconnectRestoresIff | src/main.cpp:1672-1738 | disconnecting the block just connected restores the map and reports clean if and only if no transaction overwrote unspent outputs |
| BlockUndo.DisconnectRestores | src/main.cpp:1672-1738 | for a block that passed BIP 30 it always does |
| Outputs.AddedHeld | src/coins.h:88-94 | after the outputs of a transaction are added, output n of it is there exactly if the transaction has it, it is not null and its script does not begin with OP_RETURN, and then with its value, script, height, version and coinbase flag; all others as before |
| Outputs.SpendAllHeld | src/main.cpp:1422-1430 | spending inputs takes away exactly the outputs they name |
| Outputs.SpendAllIff | src/main.cpp:1422-1437 | inputs can be spent if and only if each names an output that is there and none is named twice; the undo data hold those outputs |
| Outputs.UndoRecord | src/main.cpp:1429-1436 | the undo record of an output has height, version and coinbase flag exactly if it was the last of its transaction |
| Outputs.UpdatedHeld | src/main.cpp:1417-1442 | after a transaction output n of x is there exactly if the transaction created it, or it was there before and the transaction, no coinbase, does not spend it |
| Outputs.UpdatesIff | src/main.cpp:1417-1442 | a transaction connects if and only if it is a coinbase or its inputs are there, each named once |
| Outputs.BlockHeld | src/main.cpp:1915-1965 | after the first k transactions of a block output n of x is as the last of them with that hash created it, or as before the block, unless one since has spent it |
| Outputs.BlockConnectsIff | src/main.cpp:1915-1965 | a block connects if and only if every input of every transaction but a coinbase is there when its turn comes |
| Outputs.OutsCleanIff | src/main.cpp:1695-1709 | the outputs found when a transaction is disconnected are as expected if and only if exactly those it created are there, with height and coinbase flag, and the version unless that is negative |
| CoinsCache.CoinsViews.FetchCoins | src/coins.cpp:72-88 | the answer is that of the map the stack up to there stands for; entries pulled in are FRESH exactly if pruned, usage is counted, and no view changes |
| CoinsCache.CoinsViews.AccessCoins | src/coins.cpp:120-127 | like a lookup in one flat map, pruned meaning absent |
| CoinsCache.CoinsViews.HaveCoins | src/coins.cpp:129-136 | like membership in one flat map |
| CoinsCache.CoinsViews.HaveInputs | src/coins.cpp:222-234 | true exactly when every input is available in the flat map, or for a coinbase |
| CoinsCache.CoinsViews.ModifyCoins | src/coins.cpp:99-118 | hands out the coins of the flat map, the entry being dirty and FRESH exactly if the parent has nothing |
| CoinsCache.CoinsViews.Release | src/coins.cpp:258-270 | the top map has the coins as modified and cleaned, absent if pruned; cached usage is again the exact sum |
| CoinsCache.CoinsViews.WriteEntry | src/coins.cpp:148-184 | one entry of a batch moved into its parent; the FRESH assertion never fires and usage stays the sum |
| CoinsCache.CoinsViews.BatchWrite | src/coins.cpp:148-186 | the parent's map becomes the child's |
| CoinsCache.CoinsViews.DbBatchWrite | src/txdb.cpp:60-78 | the database becomes the child's map, only dirty entries being written |
| CoinsCache.CoinsViews.Flush | src/coins.cpp:188-193 | the map of the parent becomes that of the top, which is left empty with usage 0 |
| CoinsCache.CoinsViews.Push | src/coins.cpp:61 | a cache on top starts with the same map |
| CoinsCache.CoinsViews.Pop | src/coins.cpp:63-66 | a cache dropped without flushing leaves the map below it untouched |
| CoinsCache.SumRemove | src/coins.cpp:68-70 | the sum of usages does not depend on the order of the entries |
| CoinsCache.WrittenKeeps | src/coins.cpp:148-184 | a dirty entry moved to the parent leaves it right about the layer below it: FRESH only if that has nothing, clean only if equal |
| CoinsRuns.Step | src/coins.cpp:72-193 | each operation on the stack acts and answers as on the flat maps |
| CoinsRuns.Run | src/coins.cpp:72-193 | so does every sequence of reads, modifications, flushes, pushes and pops |
| CoinsRuns.DrainReachesDatabase | src/coins.cpp:188-193 | flushing and dropping all caches leaves the database with the top map |
| BlockCoins.UpdateCoins | src/main.cpp:1417-1442 | acts on the top map as UpdateCoinsValue, whose effect on each output is Outputs.UpdatedHeld, and gives its undo data |
| BlockCoins.CheckBip30 | src/main.cpp:1876-1883 | true exactly when no txid of the block has unspent outputs |
| BlockCoins.ConnectBlock | src/main.cpp:1876-1965 | accepts exactly the blocks whose transactions pass their checks in turn, and then the top map is that of connecting them one by one |
| BlockCoins.ApplyTxInUndo | src/main.cpp:1646-1670 | reports exactly the three complaints, and without them restores the output |
| BlockCoins.RestoreInputs | src/main.cpp:1714-1728 | reports clean exactly when every restore is, and then the map is that of restoring them all |
| BlockCoins.RemoveOutputs | src/main.cpp:1690-1712 | the transaction's outputs are gone, and a mismatch with those it should have is reported |
| BlockCoins.DisconnectBlock | src/main.cpp:1672-1738 | fails exactly on undo data of the wrong shape; clean, the map is that of undoing transaction by transaction |
| BlockCoins.ConnectTip | src/main.cpp:2254-2266 | a block that fails leaves every map as it was, one that passes is flushed into the tip |
| BlockCoins.DisconnectTip | src/main.cpp:2197-2203 | flushed only if clean, else nothing changes |
| BlockCoins.ConnectThenDisconnect | src/main.cpp:2188-2295 | a tip connected and disconnected again succeeds and leaves every map of the stack as it was |
| VarInts.WriteVarInt | src/serialize.h:343-358 | the bytes of the number, its temporary buffer being large enough for every number of its width |
| VarInts.ReadVarInt | src/serialize.h:360-372 | the number read, wrapped to its type, and what follows it; nothing if the stream ends |
| VarInts.GetSizeOfVarInt | src/serialize.h:330-341 | the number of bytes written |
| VarInts.VarIntRead | src/serialize.h:306-372 | every number that fits is read back, whatever follows |
| VarInts.SignedRead | src/serialize.h:343-372 | a signed number is read back if and only if it is not negative; else its lowest seven bits are |
| VarIntForm.WrittenForm | src/serialize.h:306-314 | the bytes of a number all but the last have bit 128 set, and by the sum stated they denote the number |
| VarIntForm.FormUnique | src/serialize.h:315-320 | every number has exactly one encoding of that form |
| VarIntForm.Sizes | src/serialize.h:316 | the sizes stated for one, two and three bytes |
| VarIntForm.Examples | src/serialize.h:322-327 | nine of the examples stated |
| VarIntForm.WrongExamples | src/serialize.h:325-326 | the other two: what is stated there stands for other numbers |
| Amounts.CompressAmount | src/compressor.cpp:142-159 | the code of the amount, no 64-bit operation wrapping up to MAX_MONEY |
| Amounts.DecompressAmount | src/compressor.cpp:161-185 | the amount the code stands for, modulo 2^64 |
| Amounts.DecompressCode | src/compressor.cpp:133-185 | the amount comes back from its code, for every number |
| Amounts.CodeDecompressed | src/compressor.cpp:133-185 | every number is the code of the amount it decodes to |
| Amounts.CodesAreUnique | src/compressor.cpp:133-140 | an amount has one code and a code one amount |
| Amounts.CodeBound | src/compressor.cpp:133-159 | a code is at most nine times the amount, so below 2^63 up to MAX_MONEY |
| KnownValues.AmountCodes | src/test/compress_tests.cpp:42-47 | the codes the tests state for 0, 1, a cent, a coin, 50 and 21000000 coins |
| ScriptCodec.SpecialForms | src/compressor.cpp:48-81 | what each of the five special forms of scripts is compressed to |
| ScriptCodec.OnlySpecialForms | src/compressor.cpp:12-81 | no other script is compressed |
| ScriptCodec.DecompressCompressed | src/compressor.cpp:12-131 | each of the special scripts is restored from its 21 or 33 bytes, given that the curve finds a valid key again |
| ScriptCodec.ScriptRead | src/compressor.h:66-91 | every script is read back from its stream form, special or not, and no more is consumed |
| ScriptCodec.TxOutRead | src/compressor.h:108-120 | every output with an amount in range is read back |
| ScriptCodec.SerializeScript | src/compressor.h:66-76 | writes the stream form |
| ScriptCodec.UnserializeScript | src/compressor.h:78-91 | reads it, failing exactly at the end of the stream |
| CoinsCodec.CalcMaskSize | src/coins.cpp:17-33 | the number of mask bytes up to the last one that is not zero, and how many are not zero |
| CoinsCodec.MaskRead | src/coins.h:218-228 | counting nonzero bytes makes the reader stop at the last used byte |
| CoinsCodec.BitOfByte | src/coins.h:190-225 | each availability flag is read back from its bit |
| CoinsCodec.CodeMakesSense | src/coins.h:183 | the assertion of Serialize holds for coins that are not pruned |
| CoinsCodec.CodeTakenApart | src/coins.h:184-217 | coinbase, first two outputs and mask count, less one where it can be, are read back from the header code |
| CoinsCodec.CoinsRead | src/coins.h:177-238 | reading what was written gives the coins cleaned, and consumes exactly what was written |
| CoinsCodec.StoredCoinsRead | src/coins.h:177-238 | coins as the coin set stores them come back identical if and only if version and height are not negative |
| CoinsCodec.Serialize | src/coins.h:177-204 | appends the stream form; its header code fits 32 bits |
| CoinsCodec.Unserialize | src/coins.h:206-238 | reads it, failing exactly where the stream ends |
| CoinsCodec.GetSerializeSize | src/coins.h:154-175 | the length of the stream form |
| KnownValues.FirstExample | src/coins.h:38-50 | the bytes stated for coins with output 1 unspent, for any key hash |
| KnownValues.SecondExample | src/coins.h:53-70 | the bytes stated for a coinbase with outputs 4 and 16 unspent, for any key hashes |
| AddrTables.GetTriedBucket | src/addrman.cpp:13-18 | a bucket in range, one of at most 8 for a group |
| AddrTables.GetNewBucket | src/addrman.cpp:20-26 | a bucket in range, one of at most 64 for a source group |
| AddrTables.CreateKeeps | src/addrman.cpp:89-99 | a created entry keeps the invariant, up to its missing reference |
| AddrTables.SwapKeeps | src/addrman.cpp:101-119 | swapping two positions keeps vRandom a permutation indexed by nRandomPos |
| AddrTables.UnslotKeeps | src/addrman.cpp:135-148 | a cleared slot of the new table lowers exactly its entry's reference count |
| AddrTables.SlotKeeps | src/addrman.cpp:290-312 | a filled slot of the new table raises exactly its entry's reference count |
| AddrTables.UntryKeeps | src/addrman.cpp:163-178 | an evicted tried entry leaves its slot empty and has no references |
| AddrTables.TryKeeps | src/addrman.cpp:190-196 | a tried entry owns exactly its canonical slot |
| AddrMan.CAddrMan.Create | src/addrman.cpp:89-99 | the new entry's id, place in vRandom and address index |
| AddrMan.CAddrMan.SwapRandom | src/addrman.cpp:101-119 | the two positions exchanged, in the list and in both entries |
| AddrMan.CAddrMan.Delete | src/addrman.cpp:121-133 | its assertions hold wherever it is called; entry, address and place are gone, the rest as before up to the order of vRandom |
| AddrMan.CAddrMan.ClearNew | src/addrman.cpp:135-148 | the slot is empty, its entry referred to once less, or gone if that was the last reference |
| AddrMan.CAddrMan.MakeTried | src/addrman.cpp:150-196 | its assertions hold; the entry is in its tried slot and no new slot, and the one evicted is in a new slot |
| AddrMan.CAddrMan.Good_ | src/addrman.cpp:198-245 | what becomes of a known address, all checks of the invariant kept through eviction |
| AddrMan.CAddrMan.Attempt_ | src/addrman.cpp:315-332 | time and count of the attempt for a known address, nothing else |
| AddrMan.CAddrMan.Connected_ | src/addrman.cpp:472-490 | the time of a known address, if more than 20 minutes old |
| AddrMan.CAddrMan.Add_ | src/addrman.cpp:247-313 | what becomes of tables, entry and statistics in each case, with the draw a ghost result, and an answer that is whether the address was routable and unknown |
| AddrMan.CAddrMan.GetAddr_ | src/addrman.cpp:451-470 | at most 23 per cent and 2500 addresses, none twice and none terrible, and all that are not terrible if fewer; entries change only their places in vRandom |
| AddrMan.AddedKeeps | src/addrman.cpp:247-313 | adding deletes no tried entry, no address that was known but the one whose last reference was the slot the added one wanted, and never the one added if it was known before |
| AddrMan.GoodKeeps | src/addrman.cpp:198-245 | marking an address good deletes no tried entry: one that loses its slot becomes a new entry again |
| AddrNews.RefreshedTime | src/addrman.cpp:256-260 | the time of an entry never goes back, and moves to the announced time less the penalty exactly if that is more than an hour newer, or a day if the announcement is older than a day |
| AddrNews.RefreshedServices | src/addrman.cpp:263 | services are only added, and nothing but time and services changes |
| AddrNews.NoNewsNoChange | src/addrman.cpp:265-275 | a known address announced with no time or none newer than it has, or that is tried or in eight buckets, leaves both tables and every count of references as they were |
| AddrNews.NewsPlaced | src/addrman.cpp:277-312 | otherwise, of the 2^n draws for an entry in n buckets exactly one enters it into the bucket of the source, if it is not there and the slot is free or its entry terrible; the others change no table |
| AddrNews.NewAddressPlaced | src/addrman.cpp:283-312 | an unknown address gets an entry of its own in the slot of its source, if that is free or its entry terrible or in another bucket too, and else stays unknown |
| AddrNews.BucketsReached | src/addrman.cpp:15-28 | a source group reaches each of its 64 new buckets by the group of the address, a group each of its 8 tried ones by the address |
| AddrNews.GoodMeans | src/addrman.cpp:198-245 | a known address marked good is tried, in its slot, without failed attempts and not terrible, and the entry that had the slot is new again in one bucket; any other address changes nothing |
| AddrNews.SelectionMeans | src/addrman.cpp:451-470 | at most 2500 addresses and 23 per cent, none twice, none terrible, and all that are not terrible if one more would have been allowed |
| AddrNews.TerribleIff | src/addrman.cpp:34-52 | when an entry is terrible: not tried within a minute, and of unknown time, ten minutes ahead, thirty days old, three times tried without ever a success, or ten times since a success a week ago |
| AddrManCheck.Check_ | src/addrman.cpp:374-448 | in a state of the invariant the check finds nothing but a null key |
| AddrManCheck.Run | src/addrman.cpp:374-448 | from any valid manager with a key, after every operation of any sequence, with any arguments, draws and positive times, the check answers 0 |
| AddrManFile.Serialize | src/addrman.h:278-325 | writes every entry once, new before tried, and each bucket's entries by their numbers |
| AddrManFile.NumbersAreUnique | src/addrman.h:296-325 | the numbers written are distinct and count the entries |
| AddrManFile.RenamedCount | src/addrman.h:313-325 | renumbering keeps the number of slots of each entry |
| AddrManFile.RenumberedOk | src/addrman.h:278-325 | the manager renumbered so satisfies the invariant again |
| AddrManLoad.PartNextTried | src/addrman.h:365-385 | when a saved tried entry is read its slot is free, so none is lost |
| AddrManLoad.RestoreNext | src/addrman.h:387-404 | each saved new slot is entered again |
| AddrManLoad.PruneNew | src/addrman.h:406-417 | new entries without a slot are removed, and of a valid manager none |
| AddrManLoad.Unserialize | src/addrman.h:327-423 | loading what was saved into a new manager gives the saved one renumbered, with nLost and nLostUnk 0 |
| AddrManLoad.SaveAndLoad | src/addrman.h:277-423 | saving and loading loses nothing: the same entries, statistics, key and slots up to numbering |
| MerkleProof.InWidth | src/merkleblock.h:65-68 | the width of a level counts exactly the positions with a leaf below them |
| MerkleProof.ChildrenDiffer | src/merkleblock.cpp:98-132 | distinct txids never give equal left and right children, so the check on equal branches does not reject a tree as built |
| MerkleProof.ExtractBuilt | src/merkleblock.cpp:80-132 | extraction of a subtree as built consumes exactly its bits and hashes and gives its hash and its matches in order |
| MerkleProof.ExtractSound | src/merkleblock.cpp:98-132 | whatever bits and hashes are extracted, if the hash is that of a subtree of a list the matches are a subsequence of its part of the list |
| MerkleProof.HashBounds | src/merkleblock.h:34-40 | a subtree stores at most as many hashes as it has leaves, and at most one and its height for each match |
| MerkleProof.BitsBound | src/merkleblock.h:46-48 | its bits are below twice its hashes, and by at most its height more on the right edge |
| PartialMerkleTree.CPartialMerkleTree.CalcHeight | src/merkleblock.cpp:138-141 | the least height at which the tree is one node wide |
| PartialMerkleTree.CPartialMerkleTree.TraverseAndBuild | src/merkleblock.cpp:80-96 | appends the bits and hashes of the subtree |
| PartialMerkleTree.CPartialMerkleTree.TraverseAndExtract | src/merkleblock.cpp:98-132 | counters, matches and the bad flag as extraction of the subtree defines them, on arbitrary data |
| PartialMerkleTree.CPartialMerkleTree.ExtractMatches | src/merkleblock.cpp:150-181 | each of the checks in turn, then the root and the matches; what the checks on consumed data are for is MerkleBinding |
| PartialMerkleTree.PackBits | src/merkleblock.h:99-104 | bit p of the tree is bit p % 8 of byte p / 8, padding bits are 0 |
| PartialMerkleTree.UnpackBits | src/merkleblock.h:92-98 | and is read from there |
| PartialMerkleTree.ExtractionIsSound | src/merkleblock.cpp:150-181 | if extraction of an arbitrary tree gives the Merkle root of a list of as many txids, or of distinct ones with a tree as high, the matches are a subsequence of the list |
| PartialMerkleTree.ExtractionIsComplete | src/merkleblock.cpp:134-181 | extraction of a tree as built, also with padded bits, gives the root and exactly the masked txids in order |
| PartialMerkleTree.SendAndExtract | src/merkleblock.h:84-105 | build, pack, send, unpack and extract gives the same |
| MerkleBinding.NothingCanBeAppended | src/merkleblock.cpp:172-180 | an accepted tree is accepted with more data exactly if that is only bits up to the end of its last byte |
| MerkleBinding.HashesAreBound | src/merkleblock.cpp:150-181 | the number of transactions, the bits and the root determine the hashes and the matches of an accepted tree |
| MerkleLimits.BitsAre | src/merkleblock.h:46-48 | a subtree stores one bit for each hash, one for each node that joins two subtrees and one for each stored parent with a single child |
| MerkleLimits.BitPromiseIff | src/merkleblock.h:46-48 | the tree has 2*N-1 bits and one for each level whose last node has a single child and a match below; the promise of 2*N-1 is kept if and only if there is no such level |
| MerkleLimits.SizeBounds | src/merkleblock.h:31-48 | the stated bounds on the number of hashes; the stated bound on the size below 253 hashes and up to two bytes above it otherwise |
| MerkleLimits.StatedSizeIff | src/merkleblock.h:31-48 | the stated bound on the size is kept if and only if the flag bytes are fewer than 253 or at most a quarter of the hashes, rounded up |
| MerkleLimits.StatedSizeExceeded | src/merkleblock.h:31-48 | 16385 transactions, all matched, exceed the stated size by one byte and the stated number of bits |
| MerkleLimits.HigherMatchesNothing | src/merkleblock.cpp:98-132 | extraction of a tree claimed to be higher than it is reports no match |
| MerkleLimits.PathExtracted | src/merkleblock.cpp:98-132 | in a tree claimed to be lower the leftmost path with its siblings stored passes for the root, the inner node it ends at being the match |
| MerkleLimits.LowerIsUnsound | src/merkleblock.cpp:150-181 | for distinct txids and every lower claimed height there is an accepted proof of something that is no transaction of the list |
| MerkleLimits.NotLowerIsSound | src/merkleblock.cpp:150-181 | for distinct txids and a claimed height not below the real one every accepted proof is sound |
| MerkleLimits.SoundIffNotLower | src/merkleblock.cpp:150-181 | for distinct txids, every accepted proof claiming a number of transactions is sound if and only if the number is refused outright or gives a height not below the real one |
| MerkleLimits.OtherHeightIsUnsound | src/merkleblock.cpp:150-181 | a tree claiming two transactions for the root of three passes off an inner node as a match |
| Arith256.ArithUint256.AddAssign | src/arith_uint256.h:135-145 | the sum modulo 2^256 |
| Arith256.ArithUint256.SubAssign | src/arith_uint256.h:147-151 | the difference modulo 2^256, also from itself |
| Arith256.ArithUint256.Negate | src/arith_uint256.h:77-86 | the complement modulo 2^256, the operand unchanged |
| Arith256.ArithUint256.Increment | src/arith_uint256.h:173-180 | one more modulo 2^256 |
| Arith256.ArithUint256.Decrement | src/arith_uint256.h:190-197 | one less modulo 2^256 |
| Arith256.ArithUint256.CompareTo | src/arith_uint256.cpp:109-119 | the order of the values |
| Arith256.ArithUint256.MulAssign32 | src/arith_uint256.cpp:55-65 | the product modulo 2^256, no carry exceeding 64 bits |
| Arith256.ArithUint256.MulAssign | src/arith_uint256.cpp:67-81 | the product modulo 2^256 of operands not shared, 0 of an operand with itself |
| Arith256.RowNext | src/arith_uint256.cpp:72-78 | no intermediate sum of the product loop exceeds 64 bits |
| Arith256.ArithUint256.ShiftLeftAssign | src/arith_uint256.cpp:21-36 | the value times 2^shift modulo 2^256, for every shift |
| Arith256.ArithUint256.ShiftRightAssign | src/arith_uint256.cpp:38-53 | the value divided by 2^shift, for every shift |
| Arith256.ArithUint256.Bits | src/arith_uint256.cpp:171-184 | one more than the place of the highest bit, 0 for 0 |
| Arith256.ArithUint256.DivAssign | src/arith_uint256.cpp:83-107 | the floor of the quotient; for a divisor of 0 an error that leaves 0 |
| Arith256.ArithUint256.DivideTurn | src/arith_uint256.cpp:97-105 | one turn of the shift-and-subtract loop keeps quotient * b + num equal to the dividend and num below the shifted divisor |
| Arith256.ArithUint256.GetLow64 | src/arith_uint256.h:245-249 | the value modulo 2^64 |
| CompactTarget.SetCompact | src/arith_uint256.cpp:203-222 | the value, sign and overflow flags of a compact number |
| CompactTarget.OverflowIff | src/arith_uint256.cpp:218-220 | the size test raises the overflow flag exactly when mantissa * 256^(size-3) is at least 2^256 |
| CompactTarget.GetCompact | src/arith_uint256.cpp:224-245 | mantissa and size of the shortest form whose sign bit is free |
| CompactTarget.DecodeEncode | src/arith_uint256.cpp:203-245 | decoding the compact form of a value gives the value rounded down, never negative |
| CompactTarget.ThroughCompact | src/arith_uint256.cpp:203-245 | GetCompact and then SetCompact: the value rounded down, negative exactly if it was asked for and the value is not zero, never an overflow |
| CompactTarget.RoundingError | src/arith_uint256.cpp:203-245 | the rounded value is at most the value, by less than one part in 2^15 |
| CompactTarget.RoundedMonotone | src/arith_uint256.cpp:203-245 | rounding keeps the order of targets |
| CompactTarget.ReencodeSame | src/arith_uint256.cpp:203-245 | encoding what was decoded gives the same compact form |
| KnownValues.CompactNumbers | src/test/arith_uint256_tests.cpp:412-533 | values and compact forms the tests state |
| Digits.EncodeBufferSuffices | src/base58.cpp:75-76 | 256^n <= 58^(138n/100 + 1) for every n |
| Digits.DecodeBufferSuffices | src/base58.cpp:32-33 | 58^n <= 256^(733n/1000 + 1) for every n |
| Digits.DigitsUnique | src/base58.cpp:55-64 | digits without leading zero are determined by their value |
| Base58.IndexOfLetter | src/base58.cpp:18-19 | the alphabet has no letter twice, so a letter is found where it stands |
| Base58.AlphabetIs | src/base58.cpp:18-19 | the alphabet is exactly the digits and letters without 0, O, I and l, in the order of their codes |
| Base58.MultiplyAdd | src/base58.cpp:79-86 | the carry loop multiplies the buffer and adds, and the carry left is 0, so the assertion after it holds |
| Base58.EncodeBase58 | src/base58.cpp:67-100 | the number of the bytes in base 58 with a 1 for each leading zero byte |
| Base58.DecodeBase58 | src/base58.cpp:21-65 | accepts exactly letters with spaces around them, and then gives the number in bytes with a zero for each leading 1; else the output is as it was |
| Base58.DecodeBase58String | src/base58.cpp:107-110 | the same of the characters before the first null |
| Base58.ConvertBack | src/base58.cpp:21-100 | a digit sequence converted to another base and back is the same, leading zeros included |
| Base58.DecodeEncode | src/base58.cpp:21-100 | bytes encoded and decoded come back |
| Base58.EncodeDecode | src/base58.cpp:21-100 | letters without spaces decoded and encoded come back |
| Base58.DecodeInjective | src/base58.cpp:21-65 | accepted strings of one meaning differ only in the spaces around them |
| KnownValues.Base58Texts | src/test/data/base58_encode_decode.json:4-5 | two of the texts stated |
| KnownValues.Base58Zeros | src/test/data/base58_encode_decode.json:13 | zero bytes are encoded as so many ones |
| PatternSearch.OneThreadEach | src/patternsearch.cpp:43-59 | for any number of threads every chunk is filled by exactly one |
| PatternSearch.SHA512Filler | src/patternsearch.cpp:43-67 | a thread fills all its chunks and no other |
| PatternSearch.FillAll | src/patternsearch.cpp:220-229 | whatever the order of the threads, the scratchpad is then filled with the digest of every chunk |
| PatternSearch.SliceOfFilled | src/patternsearch.cpp:111-112 | a slice of the filled scratchpad is what hashing its 64 chunks gives |
| PatternSearch.XorWordSet | src/patternsearch.cpp:116 | a bit of the words mixed is set if and only if it is in exactly one of the two |
| PatternSearch.XorWordUndone | src/patternsearch.cpp:116 | mixing a word in twice undoes it |
| PatternSearch.CbcBlocks | src/patternsearch.cpp:118-119 | each block is enciphered after the one before it, the first after the vector, is mixed in |
| PatternSearch.RoundBlocks | src/patternsearch.cpp:115-120 | a round: the two slices mixed, block by block enciphered under the last eight words of that, from its last four on |
| PatternSearch.WalkMixes | src/patternsearch.cpp:111-116 | a slice is 64 digests, and what is mixed in next is the slice named by its last word |
| PatternSearch.HitMeans | src/patternsearch.cpp:330-340 | a hit is a slice below 2^18 that after fifteen rounds names one of the first 1000 slices, with its last word but one as the proof |
| PatternWalk.EncryptUpdate | src/patternsearch.cpp:118-120 | chaining of the blocks, in place or from another buffer |
| PatternWalk.AesSearch | src/patternsearch.cpp:94-130 | the results are exactly the hits of the slices visited, in order |
| PatternWalk.AES256CBC | src/aes.cpp:125-147 | block by block over all lanes with the mixing fused in: the same as mixing first and chaining each lane by itself |
| PatternWalk.MaskOfSlices | src/patternsearch.cpp:161-163 | the mask of the lanes picks the slice the remainder of the plain search picks |
| PatternWalk.RoundOfLanes | src/patternsearch.cpp:157-177 | key and vector computed before the mixing give each lane the round of the plain search |
| PatternWalk.AesSearchAESNI | src/patternsearch.cpp:132-193 | the results are exactly the hits of the slices visited, in whole groups of eight |
| PatternWalk.PatternVerify | src/patternsearch.cpp:253-344 | true exactly for the hits, every slice being hashed again when it is needed |
| PatternWalk.HitsAreHits | src/patternsearch.cpp:94-344 | a pair is reported for a slice that was visited if and only if it verifies |
| SearchRanges.VisitedOnce | src/patternsearch.cpp:100-111 | no slice is visited by two threads of a plain search |
| SearchRanges.DividedIff | src/patternsearch.cpp:100-111 | they visit exactly the slices of the scratchpad if and only if their number leaves the same remainder of the slices as of the chunks |
| SearchRanges.DividedWrongly | src/patternsearch.cpp:100-111 | five threads leave out three slices, ten go two beyond the end |
| SearchRanges.FoundTogether | src/patternsearch.cpp:200-252 | with such a number of threads their results together are exactly the hits of the whole scratchpad |
| SearchRanges.GroupsIff | src/patternsearch.cpp:153-158 | the search by lanes visits each slice exactly once, and nothing beyond, if and only if the number of threads divides the slices into whole groups of eight |

## Left out

Around the block tree:

- ChainState.ChainState.ConnectTip: does not model ConnectBlock's verdict, which is a fixed answer for each block on its ancestors, never "corruption possible", nor the system errors that end the node.
- ChainState.ChainState.AcceptBlock: does not write block files; proof of work, timestamps and the content checks are its arguments.
- BlockIndex.GetAncestor: block index entries are values in a map of fixed headers and one of changing status, so aliasing of pointers is not captured.
- ChainState.ChainState.InvalidateBlock: is for blocks other than genesis, below which there is nothing to fall back to.
- IndexWalk.CheckBlockIndex: takes a node that never pruned, with an active chain, and entries that form a tree; pointers are ids.
- Pruning of block files, ReconsiderBlock, LoadBlockIndexDB; runs start with the genesis block connected.
- pindexBestHeader, pindexBestInvalid, setDirtyBlockIndex, mapBlockSource, notifications and the check for forks.
- 32-bit wrap-around of nSequenceId, nChainTx and heights, 256-bit wrap-around of chain work.

The check queue:

- fQuit, which nothing sets, and what happens to threads at shutdown.

Coins:

- BlockCoins.ConnectBlock: does not evaluate scripts, signature counts, fees and rewards; whether a transaction passes those is an argument.
- CoinsCache.CoinsViews.Flush: does not model the best block hash and statistics; layers are a sequence, not objects holding a pointer to their base.
- Reading and writing undo data and blocks is the identity; the database is a map.
- GetValueIn, GetPriority and the monetary bounds.

Stream forms:

- ScriptCodec.DecompressCompressed: takes from secp256k1 that a valid key is found from its x coordinate and the parity of y.
- VarInts.ReadVarInt: wraps signed types too, where the language leaves an overflow undefined.
- CoinsCodec.Unserialize: works on values of streams and coins, so a partly read object after the end of a stream is not captured.

The address manager:

- AddrManLoad.Unserialize: is stated for data that Serialize wrote, not for files of other versions, other bucket counts or damaged ones.
- AddrMan.CAddrMan.GetAddr_: the draws are arbitrary, so nothing is said about their distribution.
- Select_ and GetChance (floating point and a loop that ends only with probability one), Clear on a used manager, the mutex, 32-bit wrap-around of nIdCount.

Partial Merkle trees:

- PartialMerkleTree.CPartialMerkleTree.ExtractMatches: does not wrap counts at 32 bits; hashes are a free pairing, so they are injective.
- CMerkleBlock, bloom filters, and the Merkle root of a block with its check for mutation.

Numbers:

- Arith256.ArithUint256.DivAssign: gives an answer instead of raising uint_error.
- getdouble, hexadecimal forms, the bitwise operators, Base58Check and the address types on top of it.

The pattern search:

- PatternWalk.AesSearch: is stated for a range of slices inside the scratchpad; SearchRanges says when a thread's range is one.
- PatternWalk.AesSearchAESNI: likewise, for whole groups of eight slices inside the scratchpad.
- SHA-512 and the AES block cipher with its key expansion are parameters; the AVX2 filler, the stop flag and the lock around the results.
