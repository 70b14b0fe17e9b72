# Verified models of the chain core

The repository is a node of a block chain whose blocks also carry claims to names. This project
models seven parts of it and proves what they are for.

- **The claim trie** (`ClaimTypes`, `NameTree`, `PathOps`, `Overlay`, `Flushing`, `ClaimMap`, `TrieHash`,
  `ClaimTries`, `ClaimTrieCaches`, `ClaimTrieCases`, `ClaimProofs`, `ClaimProofSoundness`, `ClaimRuns`, `ClaimOrder`,
  `ClaimNumerals`, `ClaimHashCases`, `ClaimProofCases`). Names are paths
  in a trie; a node holds the claims to its name, the controlling one in front. A cache of copied nodes is laid
  over the base trie, its Merkle hashes are recomputed where marked as dirty, and it is flushed into the base. The base is
  a map from path to node, a child pointer is the path of the child, and what a walk sees is the cached node where there
  is one. Hash function and `make_heap` are parameters.
- **The claim queues** (`ClaimLedger`, `ClaimMoves`, `ClaimUndo`, `ClaimQueues`, `ClaimTracks`, `ClaimBlocks`,
  `ClaimBlockCases`). Claims wait in queues indexed by height and by name until they are due, and expire later; a block
  moves them, lets names change hands, and records what undoes it. A ghost ledger says where every claim is; the invariant
  is that all rows list what it says.
- **Chains of blocks** (`ClaimHoldings`, `ClaimTrails`, `ClaimDelays`, `ClaimChains`, `ClaimDisconnects`): block after
  block on a new cache each, flushed into the base the next one starts from, against a plain map of the claims held; and
  the last block taken back, again from a new cache.
- **The address manager** (`AddrState`, `AddrSteps`, `AddrCheck`, `AddrDisk`, `AddrRestore`, `AddrManager`, `AddrRuns`,
  `AddrCases`, `Sizes`): two bucket tables, maps, a shuffled vector with back-pointers, counters, eviction, and its form
  on disk. Hash, address groups, clock and random choices are parameters or arbitrary.
- **The check queue** (`CheckQueues`, `CheckQueueProofs`): the critical sections of master and workers, as methods of a
  class and as steps of a system of threads that take the mutex in any order.
- **Numbers** (`Limbs`, `LimbShifts`, `ArithUint`, `Compact`, `Radix`, `Base58`): limb arithmetic in place, the compact
  form of targets, and base 58.
- **Chains, trees and filters** (`Chain`, `MerkleTree`, `Bloom`): links back over many blocks and the chain of the best
  branch, the reference form of the Merkle tree, and the filter of recently seen keys.

`dafny verify dfyconfig.toml` checks everything.

## Findings

Where the code does not do what its callers or comments suggest, the model follows the code, and states exactly when it
does.

- The hash of an empty trie is not always 1: with nodes in the cache, all empty, and nothing marked, the value stored
  before is returned (`GetMerkleHash` says exactly when; `ZeroHashOfEmptyTrie` reaches it).
- A flush fails if and only if a hash or takeover height was kept for a name that was pruned since (`Flush`,
  `FlushAfterPruning` reaches it). Without a hash taken it cannot fail (`RunThenFlush`), nor at the end of a block, where
  `main.cpp:3703` asserts it (`ConnectBlock`).
- A removal that finds nothing, as of a claim that expired, reorders the claims and marks nothing; `main.cpp:3170` passes
  it over. The stored hashes stay right, and no change of hands is missed, only because the controlling claim was in front
  already, which needs unique ids and outpoints (`FailedRemoveKeepsHashes`, `FailedRemoveWatched`, `RemoveClaim`).
- A proof compares the unsigned character of a child with a plain `char` of the name. Where `char` is signed, names with
  bytes of 128 or more never get a proof of their claim (`ProvesExactly`; `HighByteUnproved` is such a name).
- A proof of a value is accepted for every prefix of the path it spells (`AcceptedForPrefixesOf`).
- Undoing a block restores everything if and only if no claim was promoted ahead of its height by a takeover: the
  promotion overwrites the height at which the claim would have become valid (`RewoundExactly`, `ConnectAndDisconnect`;
  `EarlyPromotion` is such a block). The root hash is restored in any case, as the comparison in `main.cpp:2634`, which is
  commented out, expects.
- `removeFromExpirationQueue` uses an iterator that is not set if the row does not exist; if the row exists without the
  claim, nothing happens (`RemoveFromExpirationQueue`). Callers that pass the height of the claim itself never get there
  (`RemoveClaim`).
- `Add_` returns true for a new address even if it finds no slot and is forgotten at once (`Add_`, `PlaceNew`;
  `AddedAndForgotten` is such an addition).
- `Check_` looks addresses up in a way that inserts a missing one with id 0, so it may accept and change a state whose
  address map is incomplete; hence the condition of `PassesConsistent` (`Check_`; `CheckMends` is such a state).
- `Clear` does not empty the two maps, so `Unserialize` restores only into a new manager.
- `x *= x` yields zero, and `/=` by zero clears the number before it throws (`Mul`, `Div`).
- `DecodeBase58` of a string sees only what is before its first zero character (`DecodeBase58`).

## Model

| member | source | states |
|---|---|---|
| `ClaimTypes.BytesLessTotal` | Blockchain/claimtrie.h:55-70 | Byte strings, and with them the outpoints that break ties between claims, are totally ordered. |
| `ClaimTypes.ReorderClaims` | Blockchain/claimtrie.cpp:135-157 | The loops over claims and supports credit each support to the first claim it names, and then make a heap: the result is the reordered list of the specification. |
| `ClaimTypes.ReorderedControls` | Blockchain/claimtrie.cpp:135-157 | Reordering keeps the claims as a bag and their number. With unique ids and outpoints the claim in front is the maximum by amount plus supports, then least height, then least outpoint; `ClaimOrder.FrontInNumbers` says what that is in numbers. |
| `ClaimTypes.FrontUnique` | Blockchain/claimtrie.h:55-75 | Whatever order the same claims are kept in, the controlling claim in front is the same one. |
| `ClaimOrder.BytesLessIs` | Blockchain/uint256.h:49-49 | Byte strings of one length are ordered as the numbers they spell in base 256, most significant byte first. |
| `ClaimOrder.OutPointLessIs` | Blockchain/primitives/transaction.h:35-38 | Outpoints are ordered by the number their hash spells, and then by their index. |
| `ClaimOrder.FrontInNumbers` | Blockchain/claimtrie.h:55-70 | After reordering the claim in front has more amount and supports than any other; or the same and less height; or the same of both and a hash that spells a smaller number; or the same hash and a smaller index. |
| `ClaimOrder.FrontByEachRule` | Blockchain/claimtrie.cpp:135-157 | Five pairs of claims, each decided by another one of these rules: which claim the loops put in front. |
| `ClaimOrder.ChangeMeans` | Blockchain/claimtrie.cpp:1415-1425 | Another claim is in front if it differs in outpoint, id, amount, height or the height it is valid from, or if there was or is none. |
| `NameTree.ViewClosed` | Blockchain/claimtrie.h:275-277 | What is reachable from the root of base and cache laid over each other is a tree: every node but the root is the child of a node in it, and every child pointer leads to a node. |
| `Overlay.CopyNode` | Blockchain/claimtrie.cpp:1309-1322 | Copying a base node into the cache changes nothing of the trie that shows through. |
| `Overlay.CopyAndCut` | Blockchain/claimtrie.cpp:1561-1598 | Cutting an empty node off its parent, copied into the cache first where needed, takes exactly that node out of the trie that shows through, whatever the base still holds below. |
| `PathOps.GrowPathAt` | Blockchain/claimtrie.cpp:1334-1398 | Growing the path to a name adds its missing prefixes as blank nodes and touches no claims, hashes or takeover heights. |
| `PathOps.PruneToPruned` | Blockchain/claimtrie.cpp:1527-1600 | Pruning a path leaves no empty node on it below where it started. |
| `PathOps.NodesArePrefixes` | Blockchain/claimtrie.cpp:1527-1600 | A pruned trie consists of the root and exactly the prefixes of names that hold claims. |
| `ClaimMap.InsertRefines` | Blockchain/claimtrie.cpp:1334-1427 | An insertion adds one claim to the plain map from names to bags of claims, and does nothing else to it. |
| `ClaimMap.RemoveRefines` | Blockchain/claimtrie.cpp:1429-1525 | A removal takes one claim with the outpoint out of the plain map, or changes nothing if there is none. |
| `ClaimMap.RunRefines` | Blockchain/claimtrie.cpp:1334-1600 | Every run of insertions and removals acts on the trie as a run of the same operations on a plain map. |
| `ClaimMap.RunPruned` | Blockchain/claimtrie.cpp:1527-1600 | After every run the nodes are the root and the prefixes of names that hold claims: no empty leaf is left. |
| `ClaimMap.StepControls` | Blockchain/claimtrie.cpp:1399-1425 | Each operation, even a removal that fails, leaves the controlling claim of every name in front, if ids and outpoints stay unique. |
| `ClaimMap.RunControls` | Blockchain/claimtrie.cpp:1399-1519 | After every such run the front claim of each name is the one that controls it. |
| `ClaimTrieCaches.ClaimTrieCache.constructor` | Blockchain/claimtrie.h:444-450 | A new cache shows the base trie. |
| `ClaimTrieCaches.ClaimTrieCache.CacheName` | Blockchain/claimtrie.cpp:1339-1398 | The walk of an insertion creates exactly the missing prefixes, ends at a cached node, and leaves the base alone. |
| `ClaimTrieCaches.ClaimTrieCache.InsertClaimIntoTrie` | Blockchain/claimtrie.cpp:1334-1427 | The trie that shows through becomes the one after the insertion, dirty marks and names to check grow by exactly what a changed front claim asks for, stale hashes stay marked, and the originals of the block start stay known. |
| `ClaimTrieCaches.ClaimTrieCache.RemoveClaimFromTrie` | Blockchain/claimtrie.cpp:1429-1525 | It succeeds exactly if a claim with the outpoint is there, and returns the first such claim. The trie becomes the one after the removal, the others reordered. Hashes stay right, after a failed removal provided that the claim in front controlled. |
| `ClaimTrieCaches.ClaimTrieCache.RecursivePruneName` | Blockchain/claimtrie.cpp:1527-1600 | It never fails and cuts off exactly the empty nodes at the end of the path; it reports and drops a node exactly if that became empty. |
| `ClaimTrieCaches.ClaimTrieCache.FindName` | Blockchain/claimtrie.cpp:1432-1481 | The walk finds a name exactly if it is in the trie that shows through, in the cached copy where there is one. |
| `ClaimTrieCaches.TakeClaim` | Blockchain/claimtrie.cpp:82-110 | The first claim with the outpoint is taken out of the list, if there is one. |
| `TrieHash.NodeHashFrame` | Blockchain/claimtrie.cpp:1219-1280 | A node hash depends on the children and controlling claims below it and on nothing else. |
| `ClaimNumerals.HeightNumeral` | Blockchain/claimtrie.cpp:28-41 | The eight bytes hashed for a height spell it, most significant byte first, modulo 2 to the 32. |
| `ClaimNumerals.DecimalNumeral` | Blockchain/claimtrie.cpp:49-54 | The bytes hashed for the index of an outpoint are characters from 0 to 9, without a zero in front, and spell it in decimal. |
| `ClaimHashCases.RootHashOfOneClaim` | Blockchain/claimtrie.cpp:1219-1280 | The root hash after the first block of a new trie, with one claim to a name of one character, is this combination of hashes of these bytes, for every hash function. |
| `ClaimHashCases.RootHashOfThreeClaims` | Blockchain/claimtrie.cpp:1219-1280 | So is the root hash of a cache with claims to a, to ab and to b: children in the order of their characters, each as character and hash, then the value of the node. |
| `ClaimHashCases.EmptyHashIsOne` | Blockchain/claimtrie.cpp:1282-1287 | The hash of the empty trie is the number one, the null hash zero. |
| `TrieHash.MarkedChange` | Blockchain/claimtrie.cpp:1415-1425 | If a change is confined to a path and the whole path is marked, every unmarked hash is still the one computed from scratch. |
| `TrieHash.FailedRemoveKeepsHashes` | Blockchain/claimtrie.cpp:1483-1509 | A failed removal reorders claims without marking anything; hashes stay right as the controlling claim was in front before. |
| `TrieHash.ProgressStep` | Blockchain/claimtrie.cpp:1227-1262 | Hashing one child settles what lies below it and leaves what is due at its siblings. |
| `ClaimTrieCaches.ClaimTrieCache.RecursiveComputeMerkleHash` | Blockchain/claimtrie.cpp:1219-1280 | It settles every hash at and below a node, touches no others, and gives the root of an empty trie the hash 1. |
| `ClaimTrieCaches.ClaimTrieCache.GetMerkleHash` | Blockchain/claimtrie.cpp:1282-1302 | With takeover heights known, the result is the root hash computed from scratch and nothing stays marked, except in the one state where an empty trie is not marked and an older value, which is named, is read. |
| `ClaimTrieCases.ZeroHashOfEmptyTrie` | Blockchain/claimtrie.cpp:1282-1302 | That state is reachable: after a failed removal from a new cache the hash of the empty trie is zero, not one. |
| `ClaimTries.FirstName` | Blockchain/claimtrie.h:168-176 | Among any names there is a first one in the order by length and then bytes. |
| `Flushing.WriteNext` | Blockchain/claimtrie.cpp:900-947 | Taking names in that order, the node to write or its parent is always there, and writing it gives the next of the specified intermediate tries. |
| `Flushing.WrittenAll` | Blockchain/claimtrie.cpp:842-968 | Once all cached nodes are written, the base has the nodes, children and claims that showed through the cache, and the hashes and heights of before. |
| `ClaimTries.ClaimTrie.RecursiveNullify` | Blockchain/claimtrie.cpp:949-968 | Nullifying takes out a node with everything below it, and nothing else. |
| `ClaimTries.ClaimTrie.UpdateName` | Blockchain/claimtrie.cpp:900-947 | It succeeds exactly if the node or its parent is there; the claims are taken over and the children that are gone are cut off with all below. |
| `ClaimTries.ClaimTrie.UpdateHash` | Blockchain/claimtrie.cpp:970-988 | It succeeds exactly if the name is there, and sets its hash. |
| `ClaimTries.ClaimTrie.UpdateTakeoverHeight` | Blockchain/claimtrie.cpp:990-1008 | It succeeds exactly if the name is there, and sets its takeover height. |
| `ClaimTries.ClaimTrie.Update` | Blockchain/claimtrie.cpp:842-858 | It succeeds exactly if every hash and takeover height to write belongs to a node of the new trie, and then the base is that trie with them. |
| `ClaimTries.ClaimTrie.CheckConsistency` | Blockchain/claimtrie.cpp:581-619 | True exactly if the trie is empty or every stored hash is the one computed from scratch. |
| `ClaimTries.ClaimTrie.UpdateQueues` | Blockchain/claimtrie.cpp:859-889 | Every cached row of the three indexes takes the place of the row in the base, all other rows stay, and the base takes over the height. |
| `ClaimTries.FlushedHeights` | Blockchain/claimtrie.cpp:990-1008 | The takeover heights of the base after a flush are the cached ones where there are any, else those it had, else zero. |
| `ClaimTries.FlushedHashes` | Blockchain/claimtrie.cpp:842-890 | A flush of a cache in which nothing is marked leaves only right hashes in the base. |
| `ClaimTrieCaches.ClaimTrieCache.Flush` | Blockchain/claimtrie.cpp:2641-2651 | It fails exactly if a hash or takeover height was kept for a name that is no longer in the trie. If it succeeds the base is what showed through, takeover heights included, all its hashes are right if they were, and it is consistent. |
| `ClaimTrieCases.FlushAfterPruning` | Blockchain/claimtrie.cpp:2641-2651 | The failing case is reachable: insert, take the hash, remove, flush. |
| `ClaimRuns.ApplyAll` | Blockchain/claimtrie.cpp:1334-1525 | On a cache, any run acts on the trie that shows through as specified, leaves the base alone, and keeps unmarked hashes right if ids and outpoints stay unique per name. |
| `ClaimRuns.RunThenFlush` | Blockchain/claimtrie.cpp:1334-1600 | A run flushed without a hash taken always succeeds, and the base ends as the same run on a plain map does. |
| `ClaimRuns.RunThenHash` | Blockchain/claimtrie.cpp:581-619 | After any run the hash is the one computed from scratch for what the run leaves, one if that is nothing; only if the trie is empty and the run marked nothing is it the hash the base root had. The flush succeeds and the consistency check is true. |
| `ClaimProofs.VerifyProof` | Blockchain-Test/claimtrie_tests.cpp:915-1006 | The loop from the last node to the first accepts exactly what the recursive specification of an acceptable proof does. |
| `ClaimProofs.ScanChildren` | Blockchain-Test/claimtrie_tests.cpp:925-952 | The scan of one node fills in at most one blank hash, with the hash from below, and fails on anything else. |
| `ClaimTrieCaches.ClaimTrieCache.GetProofForName` | Blockchain/claimtrie.cpp:2653-2729 | For a trie that holds something the result is the proof of the specification: the nodes along the name, with their hashes, and the controlling claim if the walk ends at the name and finds one. |
| `ClaimProofs.ProofAccepted` | Blockchain/claimtrie.cpp:2653-2729 | For a trie that holds something and hashes that are never zero, the proof for any name, present or absent, is accepted against the root hash. |
| `ClaimProofs.ProvesExactly` | Blockchain/claimtrie.cpp:2668-2729 | A proof comes with a claim exactly if the name holds one and, where char is signed, has no byte of 128 or more. |
| `ClaimRuns.ProveAndVerify` | Blockchain-Test/claimtrie_tests.cpp:915-1006 | Proof and verification together: the proof of any name is accepted; it has a value exactly if the name holds a claim and, where char is signed, has no byte of 128 or more, and then names the claim in front and its takeover height. |
| `ClaimTrieCases.HighByteUnproved` | Blockchain/claimtrie.cpp:2668-2729 | The failing name exists: a name of one byte of 128 or more that holds a claim is proved where char is unsigned and not where it is signed. |
| `ClaimProofCases.ProofWrittenOut` | Blockchain/claimtrie.cpp:2653-2729 | The proof of the claim to ab where a, ab and b hold claims, node by node. |
| `ClaimProofSoundness.FlattenReads` | Blockchain/claimtrie.cpp:1219-1280 | What is hashed for a node, entries of 33 bytes and a value of 32 bytes or none, can be read in one way only. |
| `ClaimProofSoundness.AcceptedValue` | Blockchain-Test/claimtrie_tests.cpp:915-1006 | Unless it comes with a hash collision, an accepted proof of a value gives the controlling claim and takeover height at the path its blank hashes spell, and the name asked for is a prefix of that path. |
| `ClaimProofs.AcceptedForPrefixesOf` | Blockchain-Test/claimtrie_tests.cpp:985-1006 | It proves no more than that: the proof of a claim to a name is accepted for exactly the prefixes of that name. |
| `ClaimMoves.OnePlace` | Blockchain/claimtrie.cpp:1691-1776 | Where the books hold, a claim is known exactly if it is in the trie or queued, and never both. |
| `ClaimMoves.IndexesAgree` | Blockchain/claimtrie.cpp:1691-1744 | The index by height and the index by name list the same claims at the same heights, each once. |
| `ClaimMoves.SameBooks` | Blockchain/claimtrie.cpp:2482-2537 | Books for the same ledger have the same rows and the same claims, up to order. |
| `ClaimMoves.HoldsEnqueued` | Blockchain/claimtrie.cpp:1691-1702 | Entering a claim in both queues and in its expiration row keeps the books in step with the ledger. |
| `ClaimMoves.HoldsPromoted` | Blockchain/claimtrie.cpp:2198-2237 | Moving a claim from both queues into the trie keeps the books in step with the ledger. |
| `ClaimMoves.HoldsSpentFromTrie` | Blockchain/claimtrie.cpp:1757-1776 | Removing a claim from the trie and its expiration row keeps the books in step. |
| `ClaimMoves.UniqueInTrie` | Blockchain/claimtrie.cpp:1324-1332 | If ids are unique per name among all known claims, the claims of each name in the trie have different ids and outpoints. |
| `ClaimTracks.FreshView` | Blockchain/claimtrie.h:444-450 | A new cache on any base knows what every name held, and has seen every change; its hashes are right if those of the base are. |
| `ClaimTracks.InsertCarries` | Blockchain/claimtrie.cpp:1399-1425 | An insertion into the trie keeps all the block has to know: originals, names to look at, marks and front claims. |
| `ClaimTracks.RemoveTracks` | Blockchain/claimtrie.cpp:1483-1509 | A removal, whether it finds something or not, keeps the originals known and the names to look at in the cache. |
| `ClaimTracks.RemoveCarries` | Blockchain/claimtrie.cpp:1483-1509 | A removal that finds its claim keeps everything the block has to know, and so does one that finds nothing where the front claim controls. |
| `ClaimTracks.FailedRemoveWatched` | Blockchain/claimtrie.cpp:1483-1509 | Where the front claim controls, the reordering by a removal that finds nothing puts no other claim in front, so no change of hands goes unseen. |
| `ClaimTracks.StampHashed` | Blockchain/claimtrie.cpp:2460-2464 | Setting the takeover height of a name that is to be looked at leaves every unmarked hash right, because the whole path of the name is marked. |
| `ClaimUndo.NothingOverdue` | Blockchain/claimtrie.cpp:2192-2254 | No queue row and no expiration row below the current height holds anything. |
| `ClaimBlocks.ClaimQueueCache.constructor` | Blockchain/claimtrie.h:444-450 | A cache over a base whose books are in order starts in order, knows what every name held, has seen every change, and has right hashes if the base does. |
| `ClaimBlocks.ClaimQueueCache.AddClaimToQueues` | Blockchain/claimtrie.cpp:1691-1702 | The claim is queued for the height it becomes valid at, under its name and in its expiration row. |
| `ClaimBlocks.ClaimQueueCache.GetOriginalInfoForName` | Blockchain/claimtrie.cpp:1324-1332 | It returns the claim that controlled the name when the block began, if any did. |
| `ClaimBlocks.ClaimQueueCache.GetDelayForName` | Blockchain/claimtrie.cpp:2569-2602 | Zero if the cached node, or the node of the base if none is cached, has no claims, or heights are not required. Else the blocks since the last takeover of the name, divided by the factor and rounded down, but at most 4032. |
| `ClaimBlocks.ClaimQueueCache.AddClaim` | Blockchain/claimtrie.cpp:1651-1673 | A new claim is queued with no delay if it keeps the controlling id, else with the delay of its name. What that is by the base is in `ClaimChains.DelayIs` and `ClaimDelays.FirstAdded`. |
| `ClaimBlocks.ClaimQueueCache.RemoveClaimFromQueue` | Blockchain/claimtrie.cpp:1704-1744 | It finds a claim exactly if it is queued, takes it out of both indexes, and otherwise changes nothing. |
| `ClaimBlocks.ClaimQueueCache.RemoveFromExpirationQueue` | Blockchain/claimtrie.cpp:1784-1801 | Given a row that exists, it takes out the one entry of the claim if that is listed, and else leaves every row as it is. |
| `ClaimBlocks.ClaimQueueCache.RemoveClaim` | Blockchain/claimtrie.cpp:1746-1776 | It succeeds exactly if the claim is known, given its own height, and takes it out of all indexes, leaving all others. What a block needs to be applied is kept in any case, found or not; that every change of hands is seen is kept too if ids are unique and front claims control. |
| `ClaimBlocks.ClaimQueueCache.UndoSpendClaim` | Blockchain/claimtrie.cpp:1675-1689 | A spent claim comes back into the trie if it had become valid, else into the queues. |
| `ClaimBlocks.ClaimQueueCache.MatureRow` | Blockchain/claimtrie.cpp:2195-2239 | No error is possible: exactly the claims that are due move into the trie, and the undo data records them. |
| `ClaimBlocks.ClaimQueueCache.ExpireRow` | Blockchain/claimtrie.cpp:2240-2254 | No error is possible: exactly the claims whose time is up leave the trie, and the undo data records them. |
| `ClaimBlocks.ClaimQueueCache.TakeoverHappened` | Blockchain/claimtrie.cpp:2318-2360 | The outcome of the comparison: another claim id controls than when the block began, or none did, or none does. |
| `ClaimBlocks.ClaimQueueCache.DrainName` | Blockchain/claimtrie.cpp:2361-2406 | All queued claims of the name enter the trie, with what undoes that recorded; no other name changes. |
| `ClaimBlocks.ClaimQueueCache.TakeOverNames` | Blockchain/claimtrie.cpp:2318-2466 | Exactly the names to check that change hands are drained, have their takeover height set to the block height if they hold claims, and have the old one recorded if they had a controlling claim. |
| `ClaimBlocks.ClaimQueueCache.IncrementBlock` | Blockchain/claimtrie.cpp:2192-2480 | It succeeds, also after spends that found nothing; no claim is lost but those that expire; the queues lose exactly what is due and what belongs to names taken over. If every change was seen, a name with a claim in front before and after what is due has come and what expired has gone is taken over exactly if the ids of the two differ, and so is any name that had a claim in front only before or only after; any other keeps its queued claims and its takeover height. Names taken over have this height; the undo data is complete; unmarked hashes stay right and front claims stay in control. |
| `ClaimBlocks.TakenByFront` | Blockchain/claimtrie.cpp:2340-2360 | Which names are taken over, by the ids of their front claims. |
| `ClaimBlocks.ClaimQueueCache.Flush` | Blockchain/claimtrie.cpp:2641-2651 | It succeeds exactly if every hash and takeover height belongs to a name in the trie; then nodes, heights and all rows are in the base, whose books hold for the same claims. |
| `ClaimUndo.RewoundExactly` | Blockchain/claimtrie.cpp:2386-2389 | The undo data leads back to the ledger of the block start if and only if no claim left the queue ahead of its height. |
| `ClaimBlocks.ClaimQueueCache.UnexpireAll` | Blockchain/claimtrie.cpp:2509-2517 | Expired claims come back into the trie and the row they expired in. |
| `ClaimBlocks.ClaimQueueCache.UninsertAll` | Blockchain/claimtrie.cpp:2518-2531 | Claims that left the queue leave the trie and go back to both indexes. |
| `ClaimBlocks.ClaimQueueCache.DecrementBlock` | Blockchain/claimtrie.cpp:2482-2537 | On undo data that leads to a ledger it succeeds and brings the books to that ledger, the height back by one, and the recorded takeover heights back. |
| `ClaimBlocks.ApplyAndUndo` | Blockchain/claimtrie.cpp:2192-2537 | A block, with spends that found nothing or without, applied and undone in one cache: the ledger is the one before if and only if no claim was promoted ahead of its height; which claims are known and which are queued until when comes back in any case, and so do the takeover heights of names that had a controlling claim. |
| `ClaimBlockCases.EarlyPromotion` | Blockchain/claimtrie.cpp:2386-2389 | The failing block exists: the fourth from a new trie spends the claim in the trie, and the one that waits for height 5 takes the name at height 4; once it is taken back, the base lists that claim for height 5, valid from height 4. |
| `ClaimBlockCases.TakenWhenDue` | Blockchain/claimtrie.cpp:2318-2466 | A block without transactions in which a larger claim is due: it takes over the name, held since height 1, at height 5, and a third claim that was due at 7 comes along; name and height before, and the claim with its 7, are in the undo data. |
| `ClaimChains.DelayIs` | Blockchain/claimtrie.cpp:2569-2602 | The delay that the cache computes for an addition, by the base of the block and the ledger so far: none if the name had no claim or one with that id in front; none if the block took its last claim and its node stays, because it is the root or a longer name has a claim; else by the takeover height of the base. |
| `ClaimDelays.CopyEmptied` | Blockchain/claimtrie.cpp:2575-2590 | The cached copy of a name that had claims has none left exactly if the ledger has none of its claims in the trie and the node is the root or leads to a longer name with one. |
| `ClaimDelays.FirstAdded` | Blockchain/claimtrie.cpp:1651-1673 | The first claim that a block adds to a name it has not touched is due at the height of the block plus the blocks since the takeover height of the base, divided by the factor and rounded down, 4032 at most; at the height of the block if the name had no claim, or one with that id in front. |
| `ClaimHoldings.HeldExactly` | Blockchain/main.cpp:3690-3703 | The plain map after a chain of blocks from a new trie: a claim is held exactly if the last transaction about it added it and no block has come with the height of the addition plus the lifetime. |
| `ClaimChains.ApplyTx` | Blockchain/main.cpp:3170-3205 | One spend or addition acts on the books as on a plain map of claims, a spend that finds nothing is passed over, and all that the block needs is kept. |
| `ClaimChains.ApplyTxs` | Blockchain/main.cpp:3141-3240 | So does any sequence of them. |
| `ClaimChains.ConnectBlock` | Blockchain/main.cpp:3690-3703 | A block on a new cache, closed and flushed: both succeed, the base is in order for the claims held before plus added less spent less expired, and what takes the block back is returned. Taken over are exactly the names whose front claim has another id than in the base, and those that had one or have one only: they have the height of the block, all others keep theirs and what they have queued. Every addition is due after the delay of `ClaimDelays.DelayIn`. The root hash is the one computed from scratch, and for an empty trie it is one unless the trie was empty before and nothing changed. |
| `ClaimChains.ConnectBlocks` | Blockchain/main.cpp:3690-3703 | So does any chain of blocks, each applied to the base the one before left. |
| `ClaimChains.HeldOnce` | Blockchain/claimtrie.cpp:1691-1776 | In a base in order exactly the claims held are in its trie or in its queue, never in both, those in the trie as they were added. |
| `ClaimChains.FrontOfEach` | Blockchain/claimtrie.cpp:135-157 | In a base in order the front claim of every name is the one that controls. |
| `ClaimChains.NewBaseInOrder` | Blockchain/claimtrie.cpp:159-165 | A new trie is in order and holds nothing. |
| `ClaimChains.ConnectFromStart` | Blockchain/main.cpp:3690-3703 | From a new trie any chain of blocks succeeds: every claim added and neither spent nor expired is in exactly one place as it was added, no other is anywhere, front claims control, the consistency check is true, and the last root hash is the one computed from scratch, zero or one if nothing is left. |
| `ClaimTracks.InsertUndoes` | Blockchain/claimtrie.cpp:1399-1425 | An insertion that asks for no takeover check, as undoing makes it, keeps unmarked hashes right and every changed front claim noticed. |
| `ClaimTracks.RemoveUndoes` | Blockchain/claimtrie.cpp:1483-1509 | So does such a removal, whether it finds its claim or not. |
| `ClaimTracks.OtherHeights` | Blockchain/claimtrie.cpp:2532-2536 | Takeover heights restored for names whose whole path is marked leave every unmarked hash right. |
| `ClaimTrails.StaysGone` | Blockchain/main.cpp:3141-3240 | What a block spends does not come back within the block. |
| `ClaimTrails.StillHeld` | Blockchain/main.cpp:3141-3240 | A claim that was held before a block and still is after some of its transactions is as it was, and queued as it was. |
| `ClaimTrails.HeldPromotion` | Blockchain/claimtrie.cpp:2386-2389 | A claim held before a block that leaves the queue at its end is recorded with the height it was due at before. |
| `ClaimTrails.AlteredFirst` | Blockchain/claimtrie.cpp:2386-2389 | Taken back to before its first transaction, a block leads to the claims held, each queued as it was, and to the ledger of before if and only if no claim held before was recorded with another height than that of the block. |
| `ClaimDisconnects.TakenFront` | Blockchain/claimtrie.cpp:2318-2466 | A name that a block took over, and that held claims before, ends with another claim in front, or with none. |
| `ClaimDisconnects.UndoTx` | Blockchain/main.cpp:2545-2631 | One transaction taken back: an addition is removed, and a spend that found its claim enters it again with the stored height, in the trie or the queue. |
| `ClaimDisconnects.UndoTxs` | Blockchain/main.cpp:2500-2631 | All transactions taken back, from the last to the first, lead to the ledger before the first one. |
| `ClaimDisconnects.SameShapes` | Blockchain/claimtrie.cpp:1527-1600 | Two pruned tries with the same claims in front have the same nodes and children. |
| `ClaimDisconnects.SameRoot` | Blockchain/claimtrie.cpp:1219-1280 | Two pruned tries with the same claims in front and the same takeover heights of names with claims have the same root hash. |
| `ClaimDisconnects.DisconnectBlock` | Blockchain/main.cpp:2468-2652 | The last block taken back in a new cache over the base it was flushed to, with decrementBlock, all its additions and spends, and a flush: no step fails, and all that `ConnectAndDisconnect` states of it comes back. |
| `ClaimDisconnects.ConnectAndDisconnect` | Blockchain/main.cpp:3603-3626 | Any proper block connected, flushed, and disconnected from a new cache: every claim is in the trie or queued for the height it was queued for, as it was added; every name that holds claims has the takeover height it had; the nodes and the root hash are those of before and all stored hashes right; exactly the claims that left the queue now say that they are valid from the height of the block. The base is in order again, with all claims the same, if and only if none that was held before was promoted ahead of its height. |
| `AddrState.GroupHasFewTriedBuckets` | Blockchain/addrman.h:123-125 | All addresses of one group together can be in no more than 8 buckets of the tried table. |
| `AddrState.SourceHasFewNewBuckets` | Blockchain/addrman.h:116-118 | All addresses heard of from one group of sources together can be in no more than 64 buckets of the new table. |
| `AddrState.SamePlaceSameSlots` | Blockchain/addrman.cpp:11-30 | Only the address, the port and the source select slots; statistics do not. |
| `AddrManager.AddrMan.constructor` | Blockchain/addrman.h:453-456 | A new manager is consistent and holds nothing. |
| `AddrManager.AddrMan.Clear` | Blockchain/addrman.h:433-451 | Tables, vector and counters are emptied. The two maps are not. |
| `AddrManager.AddrMan.Find` | Blockchain/addrman.cpp:74-85 | The id of an address, if it is known. |
| `AddrManager.AddrMan.Create` | Blockchain/addrman.cpp:87-97 | A new entry with the next id is known by its address and at the end of the vector, and in no table yet. |
| `AddrManager.AddrMan.SwapRandom` | Blockchain/addrman.cpp:99-117 | Two places of the vector are exchanged together with the back-pointers, which keep inverting it. |
| `AddrManager.AddrMan.Delete` | Blockchain/addrman.cpp:119-131 | An entry that is swapped to the end leaves maps, vector and counter. |
| `AddrManager.AddrMan.ClearNew` | Blockchain/addrman.cpp:133-146 | A slot is emptied, and the entry in it loses one reference, or is forgotten if that was its last; all indexes and counters agree again. |
| `AddrManager.AddrMan.MakeTried` | Blockchain/addrman.cpp:148-194 | An untried entry leaves all its new slots and takes its tried slot; an entry evicted from there takes its own new slot, and what was there loses one reference. Nothing else changes, and everything agrees. |
| `AddrManager.AddrMan.Good_` | Blockchain/addrman.cpp:196-243 | An unknown service changes nothing; a known one has its times set and, if untried, moves to the tried table. |
| `AddrManager.AddrMan.Add_` | Blockchain/addrman.cpp:245-311 | The exact outcome for an unroutable, a new and a known address, given the random number drawn: which entry is created or refreshed, when another slot is taken, whose it was, and what is returned. A holder is displaced exactly if it is not worth keeping, or has other slots while the entry has none. |
| `AddrManager.AddrMan.PlaceNew` | Blockchain/addrman.cpp:289-310 | The slot goes to the entry if it is free or its holder may be displaced; otherwise an entry without references is forgotten. |
| `AddrManager.AddrMan.Attempt_` | Blockchain/addrman.cpp:313-330 | A known service has its last try set and one more attempt counted; nothing else changes. |
| `AddrManager.AddrMan.Connected_` | Blockchain/addrman.cpp:478-496 | A known service has its time moved on if the last one is more than twenty minutes old. |
| `AddrManager.AddrMan.GetAddr_` | Blockchain/addrman.cpp:457-476 | The vector is permuted, back-pointers included. Handed out, in order, are the addresses of its first entries, each exactly if the entry was tried within the last minute, or was seen within 30 days and at most ten minutes ahead of time, has less than 3 attempts if never reached, and less than 10 if not reached for over 7 days (`AddrState.Fit`). There are no more than 23 percent of all or 2500, and fewer only once the vector is exhausted. |
| `AddrState.TerribleIsUnfit` | Blockchain/addrman.cpp:36-53 | The tests of the source leave exactly the entries that are worth keeping in these terms. |
| `AddrSteps.ListedIfFit` | Blockchain/addrman.cpp:457-476 | The address of an entry is among those of the entries worth keeping exactly if that entry is. |
| `AddrCases.TerribleOrNot` | Blockchain/addrman.cpp:36-53 | The outcome on both sides of each limit. |
| `AddrCases.Contend` | Blockchain/addrman.cpp:289-310 | An address tried some times, when another one maps to its slot: kept exactly if tried within the last minute, or seen within 30 days and tried less than three times. |
| `AddrCases.SlotGivenUp` | Blockchain/addrman.cpp:289-310 | An entry with two slots gives one up to a new address that has none, and both are known. |
| `AddrCases.SeenAgain` | Blockchain/addrman.cpp:254-263 | When the time of a known entry moves on, and to what. |
| `AddrCases.FirstSeen` | Blockchain/addrman.cpp:284-287 | The time of a new entry. |
| `AddrCases.EvictedBack` | Blockchain/addrman.cpp:148-194 | Two addresses reached in turn, of one slot in the tried table: the first is back in the new table, with one slot. |
| `AddrCases.OtherPort` | Blockchain/addrman.cpp:313-330 | Under another port of a known address nothing is noted. |
| `AddrCases.SlotsWrittenOut` | Blockchain/addrman.cpp:11-30 | What is hashed for the slots of an address, item by item and byte by byte. |
| `AddrCases.StreamWrittenOut` | Blockchain/addrman.h:281-328 | The stream of a manager that knows one address, token by token. |
| `AddrCases.StreamOfTried` | Blockchain/addrman.h:281-328 | And the one of a manager whose one address is in the tried table. |
| `AddrManager.AddrMan.Check_` | Blockchain/addrman.cpp:380-455 | Whatever the entries, maps, vector and counters are, it returns zero exactly if the state passes all it is meant to check, and then every entry is in the address map, put there if it was missing; a consistent manager passes and is left as it is. |
| `AddrCases.CheckMends` | Blockchain/addrman.cpp:380-455 | A state whose address map lacks its one address passes the check, which enters it. |
| `AddrCases.AddedAndForgotten` | Blockchain/addrman.cpp:245-311 | An addition returns true and leaves the address unknown: its slot is held by an entry that may not be displaced. |
| `AddrCheck.ConsistentPasses` | Blockchain/addrman.cpp:380-455 | A consistent state passes the check: reference counts are numbers of slots, slots are those the hashes give, maps and vector correspond, counters are sizes. |
| `AddrCheck.PassesConsistent` | Blockchain/addrman.cpp:380-455 | And the other way round: a state that passes is consistent, if the address map lists the addresses of entries and no others. |
| `AddrRuns.CheckedAfterRun` | Blockchain/addrman.cpp:196-496 | From a new manager with a nonzero key, after any run of additions, successes, attempts, connections and requests, successes at positive times and attempts at times not negative, the check returns zero; and so it does after the manager was written and read into a new one. |
| `AddrDisk.RecordCounts` | Blockchain/addrman.h:293-311 | As many new and tried entries are written as the counters announce, so the assertions on them hold. |
| `AddrDisk.Flip30Twice` | Blockchain/addrman.h:286-289 | The bucket count is recovered from its disguised form. |
| `AddrManager.AddrMan.Serialize` | Blockchain/addrman.h:281-328 | What is written is the specified stream: header, new entries, tried entries, and for each bucket the numbers of its entries. |
| `AddrRestore.AllLoaded` | Blockchain/addrman.h:331-426 | When all rows were read nothing is loose, and entries, slots, reference counts and counters are those written, up to numbering. |
| `AddrManager.AddrMan.Unserialize` | Blockchain/addrman.h:331-426 | Read into a new manager, what a consistent one wrote restores it up to numbering, nothing lost or pruned. Reading anything leaves the vector and its back-pointers matched; a wrong key size is refused. |
| `CheckQueues.BatchSize` | Blockchain/checkqueue.h:104-109 | At least one check is taken, never more than are queued, no more than the maximum if that is positive, and otherwise as many as are queued for each thread and idle thread and one more, rounded down. |
| `CheckQueues.CheckQueue.LoopTop` | Blockchain/checkqueue.h:90-118 | The part of the loop under the mutex, from the test of the queue on: leave, wait, or take a batch from the back. |
| `CheckQueues.CheckQueue.Begin` | Blockchain/checkqueue.h:73-90 | A thread that enters the loop is counted, and then leaves, waits or takes a batch. |
| `CheckQueues.CheckQueue.Resume` | Blockchain/checkqueue.h:91-118 | A thread that is woken is no longer idle, and then leaves, waits or takes a batch. |
| `CheckQueues.CheckQueue.Finish` | Blockchain/checkqueue.h:77-119 | What a thread gives back after a batch, and when it notifies the master. |
| `CheckQueues.CheckQueue.Work` | Blockchain/checkqueue.h:120-126 | Checks are verified until one fails. |
| `CheckQueues.CheckQueue.Add` | Blockchain/checkqueue.h:147-159 | Checks are appended and counted. |
| `CheckQueues.CheckQueue.IsIdle` | Blockchain/checkqueue.h:165-169 | Idle means that all started threads wait, nothing is to be done, and no failure is remembered. |
| `CheckQueueProofs.StepInv` | Blockchain/checkqueue.h:68-170 | Every critical section of every thread, with any wake-ups, keeps the invariant: nTodo is what is queued and in the hands of threads, the counters count started and waiting threads, and the flag tells whether something failed. |
| `CheckQueueProofs.RunInv` | Blockchain/checkqueue.h:68-170 | The invariant holds in every state of every interleaving. |
| `CheckQueueProofs.EachCheckOnce` | Blockchain/checkqueue.h:68-128 | In every run each check that was added is in one place: queued, in the hands of one thread, or done. |
| `CheckQueueProofs.WaitReturnsAll` | Blockchain/checkqueue.h:141-144 | In every run Wait returns true if and only if all checks added since the last Wait verify. |
| `CheckQueueProofs.BlockedMasterHasWorker` | Blockchain/checkqueue.h:79-102 | In every run, while the master waits without having been notified, some worker holds a batch that is not empty. |
| `CheckQueueProofs.IdleBetweenRounds` | Blockchain/checkqueue.h:165-169 | In every run, from when Wait has returned until the next Add, the queue is idle and every thread is outside the loop or waits. |
| `Limbs.AddIsSum` | Blockchain/arith_uint256.h:135-145 | Adding limbs with carries is addition modulo the range. |
| `Limbs.MulRowsIs` | Blockchain/arith_uint256.cpp:66-80 | Multiplying row by row with carries is multiplication modulo the range. |
| `LimbShifts.ShiftedUpValue` | Blockchain/arith_uint256.cpp:20-35 | Shifting up is multiplication by a power of two modulo the range. |
| `LimbShifts.ShiftedDownValue` | Blockchain/arith_uint256.cpp:37-52 | Shifting down is division by a power of two, rounded down. |
| `LimbShifts.CompareSplit` | Blockchain/arith_uint256.cpp:108-118 | The highest limb that differs decides the order of the numbers. |
| `ArithUint.NoOverflow` | Blockchain/arith_uint256.cpp:73-77 | One step of a product, with what is there and what is carried, fits 64 bits, and its carry fits 32. |
| `ArithUint.BaseUint.AddIn` | Blockchain/arith_uint256.h:135-145 | The sum modulo the range, with no 64-bit overflow, also if a number is added to itself. |
| `ArithUint.BaseUint.Negated` | Blockchain/arith_uint256.h:77-84 | The number whose sum with this one is zero. |
| `ArithUint.BaseUint.Sub` | Blockchain/arith_uint256.h:147-151 | The difference modulo the range. |
| `ArithUint.BaseUint.Increment` | Blockchain/arith_uint256.h:173-180 | One more modulo the range. |
| `ArithUint.BaseUint.Decrement` | Blockchain/arith_uint256.h:190-197 | One less modulo the range. |
| `ArithUint.BaseUint.Set64` | Blockchain/arith_uint256.h:51-57 | The number is the 64-bit value. |
| `ArithUint.BaseUint.MulLimb` | Blockchain/arith_uint256.cpp:54-64 | The product with one limb modulo the range. |
| `ArithUint.BaseUint.Mul` | Blockchain/arith_uint256.cpp:66-80 | The product modulo the range; but zero if a number is multiplied by itself in place. |
| `ArithUint.BaseUint.ShiftLeft` | Blockchain/arith_uint256.cpp:20-35 | The limb loop multiplies by the power of two modulo the range. |
| `ArithUint.BaseUint.ShiftRight` | Blockchain/arith_uint256.cpp:37-52 | The limb loop divides by the power of two, rounding down. |
| `ArithUint.BaseUint.CompareTo` | Blockchain/arith_uint256.cpp:108-118 | The comparison is the numeric one. |
| `ArithUint.BaseUint.Bits` | Blockchain/arith_uint256.cpp:170-183 | The bit length: zero for zero, else n with 2 to the n - 1 at most the number and 2 to the n greater. |
| `ArithUint.BaseUint.DivideBit` | Blockchain/arith_uint256.cpp:96-103 | One round of the division keeps the dividend as quotient times divisor plus rest, the rest below the shifted divisor. |
| `ArithUint.BaseUint.Div` | Blockchain/arith_uint256.cpp:82-106 | The floor of the quotient, also of a number by itself; it fails exactly on a zero divisor, and then has already cleared the number. |
| `ArithUint.BaseUint.GetLow64` | Blockchain/arith_uint256.h:245-249 | The number modulo 2 to the 64. |
| `Compact.SetCompact` | Blockchain/arith_uint256.cpp:203-221 | The number is mantissa times a power of 256, modulo 2 to the 256. The overflow flag is set exactly if that is 2 to the 256 or more, the sign flag exactly if it is not zero and the sign bit is set. |
| `Compact.GetCompact` | Blockchain/arith_uint256.cpp:223-244 | The form returned is the one compact form of the number with that sign; neither assertion can fail. |
| `Compact.EncodingIsUnique` | Blockchain/arith_uint256.cpp:223-244 | There is one compact form of each number and sign. |
| `Compact.EncodingIsMonotone` | Blockchain/arith_uint256.cpp:223-244 | A larger number never has a smaller unsigned form. |
| `Compact.DecodeThenEncode` | Blockchain/arith_uint256.cpp:203-244 | Decoding a canonical form that fits and encoding the number gives the form back. |
| `Compact.EncodeThenDecode` | Blockchain/arith_uint256.cpp:203-244 | Encoding a number and decoding the form gives at most the number and less than one step of the mantissa below, without overflow. |
| `Compact.FormsWrittenOut` | Blockchain-Test/arith_uint256_tests.cpp:451-530 | What single compact forms denote, and their signs. |
| `Compact.NumbersWrittenOut` | Blockchain-Test/arith_uint256_tests.cpp:451-530 | The compact forms of single numbers. |
| `Compact.WrittenAndRead` | Blockchain-Test/arith_uint256_tests.cpp:451-520 | Four forms decoded and encoded again, with their flags. |
| `Radix.SameNumeral` | Blockchain/base58.cpp:21-100 | Digits are determined by their number and the zeros in front. |
| `Radix.DigitsForBytes` | Blockchain/base58.cpp:76-76 | The buffer of 138 digits for 100 bytes, and one more, is enough for every length. |
| `Radix.BytesForDigits` | Blockchain/base58.cpp:33-33 | The buffer of 733 bytes for 1000 digits, and one more, is enough for every length. |
| `Base58.MultiplyAdd` | Blockchain/base58.cpp:81-85 | The carry loop multiplies the number in the buffer and adds a digit; what does not fit is the carry that is left. |
| `Base58.TakeDigit` | Blockchain/base58.cpp:77-88 | In a buffer as large as that nothing is carried out: the assertion holds. |
| `Base58.EncodeBase58` | Blockchain/base58.cpp:67-100 | The result is a word with the number of the bytes and a leading 1 for each leading zero byte. |
| `Base58.DecodeBase58` | Blockchain/base58.cpp:21-65 | It succeeds exactly if the text, up to a zero character and without the spaces around it, is a word of the alphabet, and then gives bytes that the word represents. |
| `Base58.OneWord` | Blockchain/base58.cpp:67-100 | One word represents given bytes. |
| `Base58.OneValue` | Blockchain/base58.cpp:21-65 | A word represents one sequence of bytes. |
| `Base58.EncodeThenDecode` | Blockchain/base58.cpp:21-110 | Decoding what was encoded gives the bytes back, for all bytes. |
| `Base58.DecodeThenEncode` | Blockchain/base58.cpp:21-110 | Encoding what was decoded gives back the text, up to a zero character and without the spaces around it. |
| `Base58.AlphabetIs` | Blockchain/base58.cpp:18-18 | The alphabet has the digits but zero, and the letters but I, O and l. |
| `Base58.WordsWrittenOut` | Blockchain/base58.cpp:67-100 | The words of one byte and of three bytes. |
| `MerkleTree.BlockBuildMerkleTree` | Blockchain-Test/merkle_tests.cpp:13-38 | The loops over the flat list build the levels of the specification, their root and the flag. |
| `MerkleTree.BlockGetMerkleBranch` | Blockchain-Test/merkle_tests.cpp:41-51 | The branch is read from the flat list, for every index. |
| `MerkleTree.ThreeLeaves` | Blockchain-Test/merkle_tests.cpp:13-51 | Root, flat list, flag and branches of three leaves, written out. |
| `MerkleTree.BranchLeadsToRoot` | Blockchain-Test/merkle_tests.cpp:41-51 | Folding any leaf with its branch, sides chosen by the bits of the index, gives the root. |
| `MerkleTree.BranchIsBinding` | Blockchain-Test/merkle_tests.cpp:41-51 | Unless hashes collide, a branch of the right length leads from a value to the root if and only if the value is the leaf at the index and the branch is its branch. |
| `MerkleTree.RepeatingKeepsRoot` | Blockchain-Test/merkle_tests.cpp:64-114 | Repeating the last 2 to the k of m times 2 to the k leaves, m odd and at least 3, keeps the root and sets the flag. |
| `MerkleTree.RepeatingAll` | Blockchain-Test/merkle_tests.cpp:68-70 | Repeating all leaves of a full tree adds a level instead, and also sets the flag. |
| `MerkleTree.DistinctIsNotMutated` | Blockchain-Test/merkle_tests.cpp:78-89 | Unless hashes collide, different leaves never set the flag. |
| `MerkleTree.OneListWithoutMutation` | Blockchain-Test/merkle_tests.cpp:13-38 | Unless hashes collide, two lists with trees of one depth and the same root are the same, or the flag is set for one of them. |
| `MerkleTree.Ctz` | Blockchain-Test/merkle_tests.cpp:53-61 | The number of low zero bits, and zero for zero. |
| `Chain.LowestOneInverted` | Blockchain/chain.cpp:63-64 | The lowest one bit is cleared and the others stay. |
| `Chain.GetSkipHeight` | Blockchain/chain.cpp:66-75 | The height a block links back to is below its own, except for height zero. |
| `Chain.SkipOfEven` | Blockchain/chain.cpp:66-75 | From an even height the link clears the lowest one bit. |
| `Chain.SkipOfOdd` | Blockchain/chain.cpp:66-75 | From an odd height with three one bits or more it clears the two lowest above the last. |
| `Chain.SkipOfOddWithTwo` | Blockchain/chain.cpp:66-75 | From an odd height with two it leads to height one. |
| `Chain.SkipIsAbove` | Blockchain/chain.cpp:84-98 | From a block above the wanted height both parent and link lead on to the wanted ancestor, if the link does not lead below it. |
| `Chain.BlockIndex.GetAncestor` | Blockchain/chain.cpp:77-101 | Exactly the block reached by that many parent steps, or none if the height is out of range, in every tree and whichever links were built. |
| `Chain.BlockIndex.BuildSkip` | Blockchain/chain.cpp:108-112 | The link leads to the ancestor at the skip height, and every link stays right. |
| `Chain.AddBlock` | Blockchain/chain.cpp:108-112 | A new block linked back leaves a tree in which all links are right. |
| `Chain.ActiveChain.SetTip` | Blockchain/chain.cpp:13-23 | From any earlier chain, every height up to the tip ends up with the ancestor of the tip there, although the loop stops early. |
| `Chain.ActiveChain.FindFork` | Blockchain/chain.cpp:53-61 | The highest block that is an ancestor and in the chain, or none if there is no such block. |
| `Chain.ActiveChain.Lookup` | Blockchain/chain.cpp:40-46 | The index of the chain and the links give the same ancestor. |
| `Chain.ActiveChain.GetLocator` | Blockchain/chain.cpp:25-51 | The hashes of the start block, or else the tip, and its ancestors at the locator heights; nothing for an empty chain. |
| `Chain.LocatorDescends` | Blockchain/chain.cpp:33-49 | The heights descend strictly and end with zero, and only there. |
| `Chain.LocatorIsShort` | Blockchain/chain.cpp:33-49 | More than 12 entries, n, mean that 2 to the n - 12 is below the height less 9: at most 13 plus the binary logarithm of the height plus one. |
| `Chain.LocatorAt` | Blockchain/chain.cpp:25-51 | The entry i is i below the start up to the entry 11, and 9 plus 2 to the i - 10 below it from there on, but not below zero. |
| `Bloom.OneBitSet` | Blockchain/bloom.cpp:66-67 | Setting one bit of the bytes leaves all others. |
| `Bloom.BloomFilter.Insert` | Blockchain/bloom.cpp:59-70 | The bits are exactly those of the keys so far and of the new key. |
| `Bloom.BloomFilter.Contains` | Blockchain/bloom.cpp:86-100 | True exactly if a key was inserted since the last clear and every bit of the key asked for is a bit of one of those. |
| `Bloom.BloomFilter.Clear` | Blockchain/bloom.cpp:116-121 | Nothing is remembered. |
| `Bloom.RollingBloomFilter.constructor` | Blockchain/bloom.cpp:217-228 | Two filters in one state, nothing inserted. |
| `Bloom.RollingBloomFilter.Insert` | Blockchain/bloom.cpp:230-242 | One more key is remembered, through every clear and wrap of the counter. |
| `Bloom.RollingBloomFilter.Contains` | Blockchain/bloom.cpp:250-256 | True for each of the last n keys since the last reset; and true exactly if the bits of the key are among those of the last n + (total mod n) keys. |
| `Bloom.RollingBloomFilter.Reset` | Blockchain/bloom.cpp:264-270 | Nothing is remembered, under a new tweak. |
| `Bloom.SeedsWrittenOut` | Blockchain/bloom.cpp:53-57 | The seeds of the first hash functions. |
| `Bloom.FilterWrittenOut` | Blockchain/bloom.cpp:59-70 | The bytes of a small filter after one key. |
| `Bloom.ContainedOrNot` | Blockchain/bloom.cpp:86-100 | Of three keys the one inserted is contained, and two that share one bit with it each are not. |
| `Bloom.MasksWrittenOut` | Blockchain/bloom.cpp:66-67 | Bits count from the lowest. |

## Left out

- Supports: their map, queues, expiry and undo. Supports of a name are fixed during a run, and blocks carry claims only.
- The database behind the base trie: the rows of a base are one map, in memory or on disk. Streams other than the token
  stream of the address manager, and logging.
- State after a flush that fails: the code has then updated a part of the base and swapped some claim lists.
- Several blocks in one cache that is not flushed in between, and a change of the expiration time during a run. The
  expiration time is at least the largest delay.
- The undo data of a block is a value that is passed on; reading it from disk, and the checks on that, are left out.
- The scripts and transactions that claims come in: a block is a sequence of additions and spends. Additions bring an
  outpoint that is not in use and an id that no other claim to the name has, and spends know id, amount
  and height of the output they spend. Where a block is taken back, the outputs of the block are new to it.
  `main.cpp:3300` has the comparison of the root hash with that of the block commented out; the hash stated is the one
  that the flush computes.
- The address, name and alias fields of a claim, which nothing but storage uses.
- getEffectiveAmountForClaim, whose loop body ends after the first claim, and the other read-only reports of the trie.
- Names of the trie as strings of C++: a name is a sequence of bytes, and the signedness of `char` is a parameter.
- Pointers and memory: a child pointer is the path of the child, so aliasing between the nodes of base and cache is not
  part of the model.
- `Select_` and `GetChance` of the address manager, which are probabilistic and use floating point, and its locks.
- The width of counters: ids, `nTodo`, heights, times and amounts are unbounded. Limbs, bytes, the 32-bit compact form and
  hash seeds have their widths.
- `ClaimBlocks.ClaimQueueCache.RemoveFromExpirationQueue`: asks that the row exists, because without it the code uses an
  iterator that is not set; `RemoveClaim` shows that this never happens.
- `AddrManager.AddrMan.Good_`: asks for a positive time, since zero stands for never having been reached.
- `AddrManager.AddrMan.Attempt_`: asks for a time that is not negative.
- `AddrManager.AddrMan.Unserialize`: for streams not written by a consistent manager only the vector and its
  back-pointers are stated, and that a wrong key size is refused.
- The object around the check queue that waits when it is destroyed, and shutting down; lost wake-ups of condition
  variables that the standard rules out.
- Hex strings, bitwise operators and `getdouble` of the numbers. Widths other than 256 bits need no separate proof: limbs
  are any number.
- Checksums, addresses and keys in base 58, and locale in `isspace`, which is the one of the C locale.
- `Bloom.RollingBloomFilter.constructor`: takes the size of the bit arrays and the number of hash functions as parameters,
  because their formulas use floating point, and less than 2 to the 31 elements, since twice that number wraps around.
- The newer Merkle root of `consensus/merkle.h` is not part of this model; its reference in the tests is.
- Block status, work, median time and storage positions in the block index.
