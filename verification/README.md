# Vcash node: storage, chain, codecs, pool

A model, with proofs, of the parts of the node on which everything else rests.

**Storage.** A Merkle mountain range keeps a hash for every position and data for every leaf. On disk it is
two flat files from which whole subtrees are removed. A prune list keeps the roots of what was removed and
turns positions into file offsets by summing weights; a leaf set keeps the unspent leaves. The model goes from
the bit arithmetic of positions up to the output set of a chain. `Contents` is everything ever appended, and
the files are always the entries of `Contents` that are not compacted. Every reader, rewind, commit, rollback,
compaction, reopening and Merkle proof is stated against that, and `OutputRuns.Run` puts them in any order.

**Chain.** Headers and blocks form a tree. The header range and the block state are moved from branch to branch
by rewinding to the fork point and applying again. A block is accepted exactly when it follows its own branch,
whatever branch the head is on, but for one check: the bits of a block that opens a difficulty window are
compared with what the header range of the moment asks for. Headers also come in bulk, over a range of their own.
Blocks that come too early wait in a bounded pool and are accepted when their branch has arrived.

**Codecs.** Base58 and Base58Check, and the packing of entropy into 11-bit word indexes.

**Pool and supply.** Two transaction pools that have to stay jointly valid and never create an output twice,
aggregation with cut-through, and the halving supply.

Files follow the program: `Binary` to `Pruning` are positions and trees; `Ranks`, `PruneList`, `CompactFiles`,
`RemovalClimb` are pruning; `Chunks`, `SizeIndex`, `FixedFile`, `VariableFile`, `LeafSet` are the files;
`BackendState`, `Backend`, `Merkle`, `MerkleProof`, `Pmmr`, `History`, `OutputSet`, `ForkState`, `OutputRun` are the
range built on them and `OutputPos` the index beside it; `ChainTree`, `Difficulty`, `ForkSwitch`, `BlockRules`,
`BlockPipe`, `ChainState`, `HeaderSync`, `AcceptedBranch`, `ChainWitnesses`, `OrphanIndex`, `Orphans`, `OrphanDrain`
and `KernelSearch` are the chain; `Numerals`, `Base58`, `Base58Check`, `BitPacking`, `Mnemonic`, `Words`,
`MnemonicText` are the codecs; `Aggregation`, `CutThrough`, `Pool`, `PoolOutputs`, `TransactionPool`, `PoolRun`,
`Supply` the rest.

Hash functions, proof of work, difficulty, signature and balance checks are parameters: every result holds
whatever they are. Time and the answers of the network are parameters too.

Where the code and its documentation part, the code is followed:

- A rejected block can leave the header range moved (`chain/src/pipe.rs:338-349`). `ProcessBlock` says exactly
  when, and that nothing else has changed. If the header it moved to is not stored, the range stays there
  whatever blocks and single headers come, and no block is accepted; `RejectedBlockHalts` is such a history.
  Headers in bulk are the way out: `SyncBlockHeaders` ends it exactly when that header comes to be stored.
- Of headers in bulk only those on the way to the last one have their roots checked (`chain/src/pipe.rs:299-303`).
  `SyncChunk` says for which chunks all stored headers stay sound; a chunk that is one chain is among them,
  `UncheckedRoot` is one that is not.
- A size file is built anew if its sizes do not add up to the length of the data (`store/src/types.rs:224-234`).
  `VariableFile.Open` says exactly when the file is whole afterwards; `SwappedSizesAddUp` is a size file that is
  wrong and adds up.
- The header that opened the last difficulty window is looked up in the current header range, not on the
  branch of the header checked (`chain/src/pipe.rs:95-103`). `AcceptedOnOwnBranch` and `RangeDecidesAsBranch`
  say when that makes no difference, `RangeJudgesFork` shows where it does.
- The kernel search does not end for a kernel outside the range searched; `EndsExactlyWhenFindable` gives the
  condition, both ways.
- Aggregating part of a list first can succeed where aggregating the whole list fails on a repeated output
  (`ReusedOutput`). `AggregateOverPool` gives the condition, both ways. The two pools always meet it: under rules
  that ask for unspent inputs, unused outputs and cut-through transactions, `AddToStempool`, `AddToTxpool`,
  `AddToPool`, `ReconcileReorgCache` and `ReconcileBlock` never let an output be created twice in a run without
  eviction (`PoolRuns.Run`), and an eviction creates none.
- Rewinding a block that spends its own output leaves that output in the index (`RewindUndoes`). Such a block
  is refused before it is applied, by the check that a body is cut through.
- The comment that eviction takes a transaction no other depends on (`pool/src/transaction_pool.rs:191-192`) is
  not relied on: joint validity is promised for every step except one that evicts.

## Model

| member | source | states |
|---|---|---|
| `Mmr.Family` | core/src/core/pmmr/pmmr.rs:520-528 | Parent and sibling arithmetic describes a binary forest in post order: siblings are mutual, share one parent that is one higher and comes right after the right one, and their subtrees are adjacent. |
| `Mmr.UnderClosed` | core/src/core/pmmr/pmmr.rs:583-591 | Subtrees are nested: with a node below another go its parent and its sibling, unless it is the top itself. |
| `Navigation.PeakMapHeight` | core/src/core/pmmr/pmmr.rs:483-498 | The greedy decomposition of a size finds the coordinates, leaf and height, of the position that comes next. |
| `Navigation.BintreePostorderHeight` | core/src/core/pmmr/pmmr.rs:503-508 | The height of every position, zero for none. |
| `Navigation.LeafTest` | core/src/core/pmmr/pmmr.rs:514-516 | Is a leaf if and only if its height is zero. |
| `Navigation.FamilyOf` | core/src/core/pmmr/pmmr.rs:520-528 | Computes the parent and the sibling of the tree. |
| `Navigation.Path` | core/src/core/pmmr/pmmr.rs:541-552 | One peak bitmap read at rising bits steers the whole climb: the result is the chain of parents inside the range. |
| `Navigation.PeakSizesHeight` | core/src/core/pmmr/pmmr.rs:455-470 | The tree sizes add up to the leaves before the next position and the rest is its height. |
| `Navigation.NLeaves` | core/src/core/pmmr/pmmr.rs:430-438 | The number of leaves among the first positions. |
| `Navigation.LeafCountSpec` | core/src/core/pmmr/pmmr.rs:430-438 | The leaf count is exact: leaf `k` lies within a size if and only if `k` is below the count. |
| `Navigation.InsertionToPmmrIndex` | core/src/core/pmmr/pmmr.rs:441-448 | The position of the n-th leaf: a leaf, up to which there are n leaves. |
| `Pruning.FullParent` | store/src/prune_list.rs:234-251 | A parent has all its leaves pruned if and only if both children have. |
| `Pruning.CompactedIsPrunedNotRoot` | store/src/pmmr.rs:287-299 | The test of the backend, pruned but not a root, means strictly below a fully pruned node. |
| `Pruning.RootsApart` | store/src/prune_list.rs:164-183 | Two roots have disjoint subtrees, in the order of the roots. |
| `Ranks.GoneBefore` | store/src/prune_list.rs:164-183 | The weights of the roots up to a kept position add up to the number of entries compacted before it, for nodes and for leaves. |
| `Ranks.ShiftedRank` | store/src/prune_list.rs:143-162 | Position minus summed weights is the rank among kept positions. |
| `Ranks.KeptToMonotone` | store/src/prune_list.rs:143-203 | The translation of positions to file entries is strictly increasing on kept positions. |
| `PruneLists.ClimbUp` | store/src/prune_list.rs:234-251 | One step of the climb absorbs the sibling and keeps roots and cache those of the leaves, but for the way climbed. |
| `PruneLists.ClimbEnd` | store/src/prune_list.rs:234-251 | Where the climb stops, bitmap and cache are the roots and the full nodes of the enlarged set of leaves. |
| `PruneLists.PruneList.Add` | store/src/prune_list.rs:234-251 | Adding any leaf, in any order, leaves as bitmap the maximal fully pruned nodes and as cache all fully pruned nodes; the climb ends. |
| `PruneLists.Canonical` | store/src/prune_list.rs:234-251 | The bitmap is an antichain and the cache is exactly what lies under it. |
| `PruneLists.OneState` | store/src/prune_list.rs:234-289 | Bitmap and cache are fixed by the set of pruned leaves alone, so the order of pruning and the rebuilding of the cache do not matter. |
| `PruneLists.PathMeetsRoot` | store/src/prune_list.rs:275-289 | A position is fully pruned if and only if the climb from it meets a root. |
| `PruneLists.PruneList.BuildPrunedCache` | store/src/prune_list.rs:275-289 | The cache built from the bitmap by testing every position equals the one kept step by step. |
| `PruneLists.PruneList.BuildShiftCache` | store/src/prune_list.rs:164-183 | The cache becomes the prefix sums of the node weights of the roots. |
| `PruneLists.PruneList.BuildLeafShiftCache` | store/src/prune_list.rs:205-229 | The cache becomes the prefix sums of the leaf weights of the roots. |
| `PruneLists.LookupIsRank` | store/src/prune_list.rs:143-203 | With fresh caches, count minus looked-up shift is the naive rank among kept nodes, or leaves, for every kept position. |
| `PruneLists.TotalLookup` | store/src/prune_list.rs:131-141 | The total shift is the number of all entries compacted, up to any size that holds the roots. |
| `PruneLists.PruneList.Open` | store/src/prune_list.rs:74-99 | A saved bitmap opens to the state of the prune list that saved it, caches included. |
| `PruneLists.PruneList.Flush` | store/src/prune_list.rs:111-129 | Writes the bitmap and leaves all caches fresh. |
| `CompactFiles.StoredAt` | store/src/pmmr.rs:91-109 | The rank of a kept position is where its entry stands in the file. |
| `CompactFiles.StoredPrefix` | store/src/pmmr.rs:181-197 | Cutting the file at the rank of a size gives the file of that size. |
| `CompactFiles.DropIsCompaction` | store/src/pmmr.rs:363-388 | Dropping the entries of the newly compacted positions turns the file of the old prune list into that of the new one. |
| `RemovalClimb.ExpandFrom` | store/src/pmmr.rs:414-444 | The climb from one leaf marks exactly the nodes that become full and the old roots they absorb. |
| `RemovalClimb.Expand` | store/src/pmmr.rs:414-444 | The same for all leaves to be removed, in ascending order. |
| `RemovalClimb.RemovedExclRoots` | store/src/pmmr.rs:449-457 | Keeps the marked positions whose parent is marked. |
| `RemovalClimb.MarksAreNewlyCompacted` | store/src/pmmr.rs:414-457 | The two independent climbs agree: the marks without their roots are what the new prune list compacts and the old one did not. |
| `RemovalClimb.PosToRm` | store/src/pmmr.rs:414-444 | Returns exactly the newly compacted positions. |
| `SizeIndex.EntryRoundTrip` | store/src/types.rs:46-61 | An offset of 64 bits and a size of 16 bits read back as written. |
| `SizeIndex.IndexReads` | store/src/types.rs:314-323 | The size file gives for each element the sum of the lengths before it, and its length. |
| `FixedFiles.FixedFile.Append` | store/src/types.rs:292-309 | The working sequence grows by the element; the file does not change. |
| `FixedFiles.FixedFile.Rewind` | store/src/types.rs:328-337 | The working sequence becomes a prefix of the committed one. |
| `FixedFiles.FixedFile.Flush` | store/src/types.rs:341-394 | What was working is committed, byte for byte, after any rewind and appends. |
| `FixedFiles.FixedFile.Discard` | store/src/types.rs:397-410 | The working sequence is the committed one again. |
| `FixedFiles.FixedFile.Read` | store/src/types.rs:416-451 | Reads the working element, from file or buffer, and nothing beyond the end. |
| `FixedFiles.FixedFile.SizeUnsyncInElmts` | store/src/types.rs:273-280 | The length of the working sequence. |
| `FixedFiles.FixedFile.SavePrune` | store/src/types.rs:481-523 | The file becomes the elements not dropped, in order. |
| `VariableFiles.VariableFile.OffsetAndSize` | store/src/types.rs:314-323 | The size file has the exact entry of each working element. |
| `VariableFiles.VariableFile.Append` | store/src/types.rs:292-309 | The element is appended and the size file keeps its prefix sums; it never fails. |
| `FixedFiles.FixedFile.Open` | store/src/types.rs:201-262 | The bytes on disk open to the elements they are made of, if and only if they are made of whole ones. |
| `VariableFiles.VariableFile.Open` | store/src/types.rs:201-262 | A size file whose sizes do not add up to the length of the data is built anew from the data; so the file is whole if and only if they do not add up or it is the right one. |
| `SizeIndex.SumSizes` | store/src/types.rs:185-193 | The sizes of all whole entries, summed. |
| `SizeIndex.SumIsLength` | store/src/types.rs:185-193 | The sizes of a right size file add up to the length of the data. |
| `SizeIndex.SwappedSizesAddUp` | store/src/types.rs:224-234 | A wrong size file whose sizes add up, so that it is not built anew. |
| `VariableFiles.VariableFile.Rewind` | store/src/types.rs:328-337 | Data and size file are cut to the same elements. |
| `VariableFiles.VariableFile.Flush` | store/src/types.rs:341-394 | Both files commit the working sequence; truncation finds the right byte from the size file. |
| `VariableFiles.VariableFile.Discard` | store/src/types.rs:397-410 | Both files go back to the committed sequence. |
| `VariableFiles.VariableFile.Read` | store/src/types.rs:416-451 | Reads the working element whatever the lengths. |
| `VariableFiles.VariableFile.SavePrune` | store/src/types.rs:481-523 | The elements not dropped are left, and the size file rebuilt from them indexes them. |
| `VariableFiles.StreamIndex` | store/src/types.rs:525-566 | Streaming over the data alone rebuilds the prefix sums. |
| `LeafSets.LeafSet.UnprunedPreCutoff` | store/src/leaf_set.rs:97-102 | The leaves up to the cutoff that are not pruned. |
| `LeafSets.LeafSet.RemovedPreCutoff` | store/src/leaf_set.rs:107-128 | Exactly the leaves up to the cutoff, not pruned yet, that are spent and that a rewind to the cutoff would not bring back. |
| `LeafSets.LeafSet.Rewind` | store/src/leaf_set.rs:133-142 | What lies past the cutoff goes, what was removed since comes back. |
| `BackendState.RewoundFiles` | store/src/pmmr.rs:181-197 | Both files cut at their own ranks hold the contents cut at the size. |
| `BackendState.AppendedFiles` | store/src/pmmr.rs:69-89 | Whatever has been pruned, new entries go to the end of both files. |
| `BackendState.CompactedFiles` | store/src/pmmr.rs:363-394 | After both rewrites the files hold the same contents under the new prune list. |
| `Backends.PMMRBackend.GetFromFile` | store/src/pmmr.rs:91-97 | Reads the hash of the plain map for every position not compacted, none for the others. |
| `Backends.PMMRBackend.GetDataFromFile` | store/src/pmmr.rs:99-109 | Reads the data of the plain map for every leaf not compacted. |
| `Backends.PMMRBackend.GetHash` | store/src/pmmr.rs:114-119 | As above, with removed leaves hidden. |
| `Backends.PMMRBackend.GetData` | store/src/pmmr.rs:123-131 | As above, for data. |
| `Backends.PMMRBackend.UnprunedSize` | store/src/pmmr.rs:301-303 | Hash file length plus total shift is the size of the range, over any run. |
| `Backends.PMMRBackend.Open` | store/src/pmmr.rs:235-277 | Files, leaf set and prune list on disk open to the range they were written for. |
| `Backends.Reopen` | store/src/pmmr.rs:235-277 | What a range leaves on disk at any time opens to the range of the last sync, with a size file lost or cut off built anew. |
| `Backends.PMMRBackend.Append` | store/src/pmmr.rs:69-89 | The position put into the leaf set, computed from data file length and leaf shift, is that of the new leaf. |
| `Backends.NewLeaf` | store/src/pmmr.rs:69-89 | Data file length plus total leaf shift is the leaf count, so the inverse of leaf counting gives the new position. |
| `Backends.PMMRBackend.Rewind` | store/src/pmmr.rs:181-197 | The contents are cut at the position and the leaf set is rewound, through shifts that survive pruning. |
| `Backends.PMMRBackend.Remove` | store/src/pmmr.rs:200-204 | Only the leaf set changes, by that position. |
| `Backends.PMMRBackend.Sync` | store/src/pmmr.rs:319-338 | What was in memory is what is saved. |
| `Backends.PMMRBackend.Discard` | store/src/pmmr.rs:341-345 | Files and leaf set are as last saved. |
| `Backends.PMMRBackend.HashIndices` | store/src/pmmr.rs:363-371 | The shifted positions are, in ascending order, the file indices of the positions to drop. |
| `Backends.PMMRBackend.DataIndices` | store/src/pmmr.rs:373-388 | The same for the leaves among them, in the data file. |
| `Backends.PMMRBackend.PruneAll` | store/src/pmmr.rs:390-396 | Adding the removed leaves one by one prunes their union with those pruned before. |
| `Backends.PMMRBackend.CheckCompact` | store/src/pmmr.rs:356-406 | Compaction is invisible, for any cutoff and rewind bitmap: every position still not compacted reads the same hash and data, though files, offsets and prune list changed; exactly the leaves no rewind to the cutoff restores are pruned. The range stays appendable if and only if no leaf past its end was pruned, which a cutoff past the end decides. |
| `Backends.PrunedInside` | store/src/leaf_set.rs:107-128 | Nothing past the end is pruned if and only if every leaf from there to the cutoff would be put back. |
| `Merkle.Peaks` | core/src/core/pmmr/pmmr.rs:407-427 | The peaks, ascending: the nodes whose parent is not in the range; none for a size that is not whole. |
| `Merkle.PeakIsKept` | core/src/core/pmmr/pmmr.rs:93-103 | A peak is never compacted, whatever is pruned. |
| `Merkle.PushedIsHashed` | core/src/core/pmmr/pmmr.rs:191-220 | The hashes computed for a new leaf keep every node the hash of its children. |
| `Merkle.RootDetermined` | core/src/core/pmmr/pmmr.rs:143-155 | The leaf data fixes all hashes and the root, whatever was pushed, rewound or pruned on the way. |
| `MerkleProofs.FamilyBranch` | core/src/core/pmmr/pmmr.rs:557-580 | Parents and siblings from a node to its peak, steered by one bitmap. |
| `MerkleProofs.IsLeftSibling` | core/src/core/pmmr/pmmr.rs:531-535 | Tells left children from right ones. |
| `MerkleProofs.BranchTop` | core/src/core/pmmr/pmmr.rs:179-182 | The branch of a node ends at the peak above it. |
| `MerkleProofs.Verify` | core/src/core/merkle_proof.rs:95-155 | Accepts if and only if the path leads to the root given; the order of hashing is that of the tree below a peak and of the bagging above. |
| `MerkleProofs.RightPathVerifies` | core/src/core/merkle_proof.rs:95-155 | The siblings below the peak and what bags the peak lead to the root, for every node of every range. |
| `MerkleProofs.ProvesOnlyLeaves` | core/src/core/merkle_proof.rs:95-155 | Whatever its length, a path that leads to the root does so for a leaf of the range and its own data; or something hashed while it is followed has the hash of another thing, hashed for the range or its root. |
| `MerkleProofs.OnlyOwnHash` | core/src/core/merkle_proof.rs:111-155 | Without such a clash between path and range, at each position of the range only the hash there leads to the root. |
| `MerkleProofs.RightPathHashesRange` | core/src/core/merkle_proof.rs:95-155 | Following a right path hashes only what was hashed for the range and its root, so it clashes with nothing unless the range holds a collision itself. |
| `MerkleProofs.OtherHashDoesNotClash` | core/src/core/merkle_proof.rs:95-155 | A clash does not come for free: data with another hash does not clash with a range of one leaf, whatever the hash function. |
| `Pmmrs.PMMR.Push` | core/src/core/pmmr/pmmr.rs:191-220 | Never fails for a missing sibling, extends the range by the leaf at the returned position and keeps all hashes right. |
| `Pmmrs.PMMR.PushHashes` | core/src/core/pmmr/pmmr.rs:199-214 | The siblings needed are peaks and so readable; the new hashes complete a whole range. |
| `Pmmrs.PMMR.Rewind` | core/src/core/pmmr/pmmr.rs:234-246 | Goes to the first whole size from the position on; contents and leaf set are those of that size. |
| `Pmmrs.WholeFrom` | core/src/core/pmmr/pmmr.rs:238-242 | Stepping over inner nodes ends at the first whole size. |
| `Pmmrs.PMMR.Prune` | core/src/core/pmmr/pmmr.rs:252-263 | Fails on inner nodes, is true exactly for a leaf that was there, and removes it alone. |
| `Pmmrs.PMMR.PeakHashes` | core/src/core/pmmr/pmmr.rs:88-103 | The hashes of all peaks, from left to right. |
| `Pmmrs.PMMR.Root` | core/src/core/pmmr/pmmr.rs:143-155 | The root read through the pruned files is the root of everything ever appended. |
| `Pmmrs.PMMR.ReadPeaks` | core/src/core/pmmr/pmmr.rs:93-103 | Filtering out unreadable peaks filters out none. |
| `Pmmrs.PMMR.BagAll` | core/src/core/pmmr/pmmr.rs:124-138 | Peaks are hashed together from right to left. |
| `Pmmrs.PMMR.PathOfPeak` | core/src/core/pmmr/pmmr.rs:105-118 | The path above a peak, no hash left out: the peaks right of it as one, then those left of it. |
| `Pmmrs.PMMR.ReadBranch` | core/src/core/pmmr/pmmr.rs:171-182 | However much is compacted, all siblings of a leaf that is not pruned are readable. |
| `Pmmrs.PMMR.ProofOf` | core/src/core/pmmr/pmmr.rs:158-189 | A proof for exactly the leaves that are there, and it leads to the root of everything ever appended. |
| `History.UnspentThen` | chain/src/txhashset/txhashset.rs:2491-2506 | Below an old size, what was unspent then is what is unspent now or spent since. |
| `History.RewindOneBlock` | chain/src/txhashset/txhashset.rs:1744-1848 | Rewinding the leaf set by what a block spent gives the unspent set before it. |
| `History.PruneIsSafe` | chain/src/txhashset/txhashset.rs:568-608 | Pruning what no rewind to a later horizon restores never prunes an output unspent at any block from there on. |
| `History.PrunedIsDead` | chain/src/txhashset/txhashset.rs:568-608 | What no rewind to a height restores, with what was pruned before, is exactly what was spent by that height. |
| `History.ExtendIsSafe` | chain/src/txhashset/txhashset.rs:1361-1418 | New blocks keep that so. |
| `OutputSets.OutputSet.GetUnspent` | chain/src/txhashset/utxo_view.rs:175-183 | After any run of apply, rewind, commit, rollback and compact, exactly the unspent outputs are readable, with the data their block gave them. |
| `OutputSets.OutputSet.ProveUnspent` | chain/src/txhashset/txhashset.rs:549-554 | Exactly the unspent outputs have a Merkle proof, after any compaction, and it leads from the output to the root. |
| `OutputSets.OutputSet.Reopen` | store/src/pmmr.rs:235-277 | Opened anew at any time, the output set is as of the last commit. |
| `OutputSets.OutputSet.RewindSingleBlock` | chain/src/txhashset/txhashset.rs:1744-1848 | The state is that of one block fewer, also after compaction. |
| `OutputSets.OutputSet.RewindTo` | chain/src/txhashset/txhashset.rs:1694-1738 | The state is that of the first blocks, for any height from the horizon on. |
| `OutputSets.OutputSet.ApplyBlock` | chain/src/txhashset/txhashset.rs:1361-1418 | Succeeds if and only if the inputs are distinct unspent outputs; then the state is that of one block more. |
| `OutputSets.OutputSet.PushAll` | chain/src/txhashset/txhashset.rs:1361-1372 | The range grows by the outputs and the leaf set by exactly the new leaves. |
| `OutputSets.OutputSet.SpendAll` | chain/src/txhashset/txhashset.rs:1436-1461 | Succeeds if and only if the positions are distinct and unspent, and removes them. |
| `OutputSets.OutputSet.Commit` | chain/src/txhashset/txhashset.rs:920-1018 | The present state is what a rollback goes back to. |
| `OutputSets.OutputSet.Rollback` | chain/src/txhashset/txhashset.rs:920-1018 | Undoes everything since the last commit, also a block that failed halfway. |
| `OutputSets.OutputSet.InputPosToRewind` | chain/src/txhashset/txhashset.rs:2491-2506 | All positions spent after a height. |
| `OutputSets.OutputSet.Compact` | chain/src/txhashset/txhashset.rs:568-608 | Pruned are exactly the leaves spent by the new horizon; the state stays that of all blocks and can still be rewound to it. |
| `ForkState.SwitchBranch` | chain/src/pipe.rs:630-681 | Rewinding to a fork point from the horizon on and applying the other branch succeeds if and only if each of its blocks spends what is unspent on that branch; then the state is that of the branch. |
| `ForkState.AtFork` | chain/src/pipe.rs:640-654 | Two branches have one history up to their fork point. |
| `ForkState.FileBytes` | store/src/types.rs:292-309 | The data file never holds more bytes than everything appended, so a branch whose outputs fit can be written. |
| `AcceptedBranch.AcceptedFollows` | chain/src/pipe.rs:655-678 | On a branch of accepted blocks each one spends distinct outputs unspent before it, on that branch. |
| `AcceptedBranch.SwitchToAccepted` | chain/src/pipe.rs:630-681 | The files and bitmaps of the output set can be moved from the chain of any accepted block to that of any other; it never fails. |
| `OutputRuns.Run` | chain/src/txhashset/txhashset.rs:920-1018 | From an empty output set through any run of blocks, rewinds, commits, rollbacks, compactions and restarts, files and bitmaps hold exactly the blocks applied and not undone, and what the last commit saved; pruned, and so missing in the files, is exactly what was spent by the horizon. |
| `OutputRuns.Perform` | chain/src/txhashset/txhashset.rs:920-1018 | Each step does to files and bitmaps what it does to the plain list of blocks. |
| `OutputRuns.FilesOf` | store/src/pmmr.rs:356-406 | After any run both files are, entry by entry, those of the blocks without what was spent by the horizon. |
| `OutputRuns.Restarted` | store/src/pmmr.rs:235-277 | A restart at any time, the size file lost or not, is a rollback to the last commit. |
| `OutputRuns.BytesHeld` | store/src/types.rs:292-309 | No run holds more bytes than its blocks have brought. |
| `OutputPos.AppliedIndexed` | chain/src/txhashset/txhashset.rs:1361-1383 | A block that applies leaves the index listing exactly the unspent outputs, each under its commitment. |
| `OutputPos.UnspentDiffer` | chain/src/txhashset/txhashset.rs:1498-1507 | No two unspent outputs have the same commitment. |
| `OutputPos.OutputIndex.ApplyOutput` | chain/src/txhashset/txhashset.rs:1498-1520 | Refused if and only if the commitment is that of an unspent output. |
| `OutputPos.OutputIndex.ApplyInput` | chain/src/txhashset/txhashset.rs:1436-1461 | Spends the output found by commitment if it is unspent and as named. |
| `OutputPos.OutputIndex.ApplyBlock` | chain/src/txhashset/txhashset.rs:1361-1383 | Succeeds if and only if the outputs are new and distinct and the inputs distinct and unspent; remembers where the inputs were. |
| `OutputPos.OutputIndex.RewindSingleBlock` | chain/src/txhashset/txhashset.rs:1744-1848 | The entries of the outputs go and those of the inputs come back, in the order of the code. |
| `OutputPos.RewindUndoes` | chain/src/txhashset/txhashset.rs:1744-1848 | Rewinding restores data, unspent set and index, commitments used again included, if and only if the block spends none of its own outputs. |
| `OutputPos.OwnOutputSpent` | chain/src/txhashset/txhashset.rs:1361-1383 | Applying alone does not refuse a block that spends its own output. |
| `OutputPos.OutputIndex.RewindTo` | chain/src/txhashset/txhashset.rs:1694-1738 | Over any run, rewinding leads back to exactly the state at any height passed. |
| `OutputPos.HistoryGrows` | chain/src/txhashset/txhashset.rs:1361-1383 | The history a rewind goes back along grows by every block that applies, spends none of its own outputs and has a hash not used before. |
| `ChainTree.AgreeUpTo` | chain/src/txhashset/txhashset.rs:1126-1148 | Chains with the same hash at a height are the same up to it. |
| `ForkSwitch.CollectFork` | chain/src/pipe.rs:602-611 | The walk back ends at the deepest common ancestor and has collected the hashes past it in order. |
| `ForkSwitch.OnChain` | chain/src/txhashset/txhashset.rs:1126-1140 | The test against the header range is membership in the chain to its tip. |
| `ForkSwitch.RewindAndApplyHeaderFork` | chain/src/pipe.rs:596-624 | From any branch the range becomes the chain to the header, applying only what lies past the fork; it fails if and only if one of those headers does not commit to the chain below it. |
| `BlockRules.AddBlock` | chain/src/pipe.rs:504-528 | Storing a block that follows its parent keeps every stored block and every stored sum right for its own branch. |
| `BlockRules.AddHeader` | chain/src/pipe.rs:313-352 | Storing a header changes no chain to a stored header. |
| `BlockPipe.NextFollows` | chain/src/pipe.rs:655-678 | The next block of a stored branch passes all checks again and finds the sums of its parent. |
| `BlockPipe.RewindAndApplyFork` | chain/src/pipe.rs:630-681 | From the state of the head to any stored branch, ancestors of the head included; it never fails, and sums a losing branch had given up are there again afterwards. |
| `BlockPipe.ApplyFork` | chain/src/pipe.rs:655-678 | Applying the stored blocks past the fork gives the state of the branch and its sums. |
| `BlockPipe.HashesAfter` | chain/src/pipe.rs:655-661 | The hashes of the branch past the fork point, in order. |
| `ChainState.Chain.AddHeader` | chain/src/pipe.rs:313-352 | Accepted if and only if the header follows its parent and has the bits asked for by the range it is checked in, or is stored and no higher. The range moves if and only if the header is higher and commits to the chain below it, whatever else is wrong with it. |
| `ChainState.Chain.ProcessBlockHeader` | chain/src/pipe.rs:313-352 | The same for a header alone; a known one is accepted, a refused one stores nothing. The range moves if and only if the parent is stored, the block is not known and the header is higher with a right root. |
| `ChainState.Chain.CheckBlock` | chain/src/pipe.rs:123-185 | Known, proof of work, orphan: in this order, each with its own error, before anything is touched. |
| `ChainState.Chain.KnownMeans` | chain/src/pipe.rs:357-386 | Known is what is stored, and for a chain of genesis alone the hash genesis names as its parent. |
| `ChainState.Chain.Extend` | chain/src/pipe.rs:206-242 | The checks on the block's own branch pass if and only if the block follows that branch, whatever the state they start from. |
| `ChainState.Chain.ProcessBlock` | chain/src/pipe.rs:156-265 | Accepted if and only if the block passes the early checks, its header passes in the range it is checked in, and the rest follows its own branch. Over any run, rejected blocks included: stored blocks are closed under parents, the head is the first accepted block of greatest height, the state is the head's, the sums along it are stored. A rejected block moves the range if and only if it gets as far as its header and the header moves it; if that header is not stored, no block is accepted as long as only blocks and single headers come. |
| `ChainState.Chain.StoreIfFollows` | chain/src/pipe.rs:202-265 | Past its header, a block is stored if and only if it follows its own branch, whatever branch head and range are on. |
| `ChainState.Chain.AcceptedOnOwnBranch` | chain/src/pipe.rs:89-116 | Acceptance is the verdict of the block's own branch if it opens no difficulty window, or is checked after the range moved to it, or range and branch hold the same header where the last window was opened. |
| `Difficulty.RangeDecidesAsBranch` | chain/src/pipe.rs:89-116 | For all bits, range and branch decide alike if and only if no window starts or the two openings give the same bits. |
| `Difficulty.SameStart` | chain/src/pipe.rs:95-103 | Only the header where the last window was opened matters of a range. |
| `Difficulty.BitsMean` | chain/src/pipe.rs:89-116 | Every 2016th header has the bits computed from its parent and the time of the header 2015 below that one in the range; every other has those of its parent. |
| `Difficulty.SameWhateverArithmetic` | chain/src/pipe.rs:89-116 | Whatever the arithmetic of targets, a range demands what the branch does if and only if no window starts or the last one was opened at the same time on both. |
| `ChainWitnesses.RangeJudgesFork` | chain/src/pipe.rs:89-116 | A history of two windows on two branches after which the block that follows its branch is rejected and one that does not is acceptable. |
| `ChainWitnesses.RejectedBlockHalts` | chain/src/pipe.rs:322-349 | A rejected block after which a good block is rejected that is accepted without it. |
| `ChainWitnesses.UncheckedRoot` | chain/src/pipe.rs:293-304 | A chunk of two headers, not one chain, that is taken and stores a header whose root is wrong. |
| `ChainState.NextInLog` | chain/src/pipe.rs:591-593 | Replacing the head only for a greater height keeps it the first of greatest height. |
| `HeaderSync.SyncRange.SyncChunk` | chain/src/pipe.rs:269-307 | A chunk of headers is taken, all or none, if and only if each passes after those before it, by height, parent and, where a window of 2016 opens, the bits computed from the header 2015 below its parent in the sync range, and those past the fork commit to the chain below. Nothing is asked of the header range, which is whole afterwards if and only if its last header is stored. The store stays sound if and only if all of the chunk commits. |
| `HeaderSync.SyncRange.SyncBlockHeaders` | chain/src/chain.rs:409-431 | Succeeds if and only if the chunk is taken or known and its last header is, in the header range, known, no higher, or of the bits its own branch asks for. The header range moves to that header if and only if it is higher, and never to one that is not stored; a range that is there leaves it exactly when its header comes to be stored. |
| `HeaderSync.SyncRange.TakeAll` | chain/src/pipe.rs:293-298 | Every header of the chunk is stored with its parent, one lower, if and only if each passes in turn, the bits of a new window included. |
| `HeaderSync.ValidMeans` | chain/src/pipe.rs:404-436 | The checks of a header amount to one more in height, the rules against its parent and the bits demanded, said with heights and times. |
| `HeaderSync.SyncRange.MoveTo` | chain/src/pipe.rs:300-304 | The sync range becomes the chain to the last header, or stays; it fails if and only if a root past the fork is wrong. |
| `HeaderSync.RootsChecked` | chain/src/pipe.rs:300-304 | In a chunk that is one chain the roots checked past the fork are all there are to check, since what lies before it was stored. |
| `HeaderSync.ChunkIsSound` | chain/src/pipe.rs:293-298 | With the chunk stored, all headers commit to the chain below them if and only if those of the chunk do. |
| `HeaderSync.StoreHeaders` | chain/src/pipe.rs:322-330 | With more headers stored, a range that was ahead of the store is a chain of it again if and only if its last header is among them. |
| `Orphans.OrphanBlockPool.Add` | chain/src/chain.rs:88-125 | Never more than 200 held, each under its height, held plus evicted plus handed out equals inserted; when too many, what is kept are those less than 300 seconds old below the highest cut that leaves room. |
| `Orphans.OrphanBlockPool.TrimHeights` | chain/src/chain.rs:101-117 | Whole heights go from the top, no more than needed. |
| `Orphans.OrphanBlockPool.RemoveByHeight` | chain/src/chain.rs:129-135 | Hands out each orphan held at the height and no other. |
| `OrphanIndex.TakeAll` | chain/src/chain.rs:129-135 | Each listed orphan that is held comes out once, though the index may list it twice. |
| `OrphanDrain.ProcessHeld` | chain/src/chain.rs:476-497 | A block with proof of work that is not stored, its parent neither, is back in the pool at its height; what the pool holds there was held and is not stored; all other heights are as before. Every block that follows its branch is accepted, unless the header range is stuck. |
| `OrphanDrain.CheckOrphans` | chain/src/chain.rs:461-513 | Ends although orphans are put back; every height passed had a block accepted that was held at the start. Held blocks that follow one another from what is stored are all accepted, whatever else is held, unless a refused block leaves the header range stuck; it cannot if the headers came first. What still waits for its parent is in the pool, at its height. |
| `OrphanDrain.NextIsFine` | chain/src/pipe.rs:156-265 | A block that follows those before it on a branch follows them still when they are stored with anything else besides. |
| `OrphanDrain.FollowsLater` | chain/src/pipe.rs:206-242 | Storing more headers and blocks changes no verdict on a branch. |
| `OrphanDrain.ReadyIsAcceptable` | chain/src/pipe.rs:156-265 | A new block that follows its branch and opens no difficulty window is acceptable wherever head and range are. |
| `OrphanDrain.DoneAt` | chain/src/chain.rs:476-504 | With one height more worked off, the blocks of that height are stored on every branch that has got so far; if none was accepted, no branch goes further. |
| `OrphanDrain.BackDone` | chain/src/chain.rs:337-345 | With one height more worked off, what waits is in the pool at every height passed, and nothing else but what was held and is not stored. |
| `Orphans.MeasureFalls` | chain/src/chain.rs:461-513 | The orphans held from the current height on become strictly fewer with each height passed. |
| `KernelSearch.OneHeight` | chain/src/chain.rs:1541-1575 | A kernel lies in one block only. |
| `KernelSearch.Ends` | chain/src/chain.rs:1541-1575 | The search ends for a kernel within the range searched. |
| `KernelSearch.NeverEnds` | chain/src/chain.rs:1541-1575 | It ends for no other kernel, after any number of turns. |
| `KernelSearch.EndsExactlyWhenFindable` | chain/src/chain.rs:1541-1575 | Both directions, as a condition a caller can check. |
| `KernelSearch.GenesisKernelNotFindable` | chain/src/chain.rs:1541-1575 | The family of failing calls that start from genesis. |
| `KernelSearch.GetHeaderForKernelIndex` | chain/src/chain.rs:1541-1575 | Returns the one height whose block holds the kernel. |
| `Numerals.NumeralOf` | keychain/src/base58.rs:264-273 | A digit string is its leading zeros and the canonical digits of its value. |
| `Numerals.ConversionRoundTrip` | keychain/src/base58.rs:242-334 | Writing a number in another base and back, leading zeros kept, is the identity. |
| `Base58.DecodeEncoded` | keychain/src/base58.rs:242-334 | Every byte string is read back from its text. |
| `Base58.EncodeDecoded` | keychain/src/base58.rs:242-334 | Every valid text is written again from its bytes. |
| `Base58.Alphabet` | keychain/src/base58.rs:108-239 | The character of each digit, one by one in the order of the alphabet; no other character is a digit. |
| `Base58.ScratchSuffices` | keychain/src/base58.rs:243-244 | The scratch bytes hold every number a text of that length can spell; rests on 58^15 < 256^11. |
| `Base58.ScratchMultiplyAdd` | keychain/src/base58.rs:257-261 | The carry loop multiplies the number in the bytes by 58 and adds a digit, up to the carry. |
| `Base58.From` | keychain/src/base58.rs:242-274 | Reads every valid text, with no carry ever left over; reports the first character outside the alphabet. |
| `Base58.MultiplyAdd` | keychain/src/base58.rs:315-319 | The loop over the digits multiplies by 256 and adds a byte, up to the carry; a leading digit leaves a carry. |
| `Base58.PushCarry` | keychain/src/base58.rs:320-323 | The pushed digits are worth the carry and end in a digit that is not zero. |
| `Base58.EncodeIterUtf8` | keychain/src/base58.rs:294-334 | Writes the text of any bytes, leading zero bytes included. |
| `Base58Check.Le32Means` | keychain/src/base58.rs:50-52 | Four bytes are a number to base 256, the least significant first. |
| `Base58Check.LowHalf` | keychain/src/base58.rs:50-52 | Eight bytes truncated to 32 bits are the first four. |
| `Base58Check.CheckRoundTrip` | keychain/src/base58.rs:277-292 | For any hash, what was written with a checksum is read back. |
| `Base58Check.AcceptedIsWritten` | keychain/src/base58.rs:277-292 | For any hash, only texts that are written for their payload are accepted. |
| `Base58Check.FromCheck` | keychain/src/base58.rs:277-292 | All outcomes: payload, bad character, too short, wrong checksum with both values. |
| `Base58Check.CheckEncodeSlice` | keychain/src/base58.rs:360-363 | Writes data and checksum. |
| `BitPacking.HoldsMore` | keychain/src/mnemonic.rs:89-94 | Setting one more bit at either end of those set changes no other bit. |
| `BitPacking.SameWords` | keychain/src/mnemonic.rs:135-147 | Words with the same bits are the same. |
| `Mnemonic.PacksOne` | keychain/src/mnemonic.rs:66-112 | An index list spells one entropy and one checksum. |
| `Mnemonic.PackedOnce` | keychain/src/mnemonic.rs:115-153 | Entropy and checksum are spelled by one list. |
| `Mnemonic.SpelledDigest` | keychain/src/mnemonic.rs:105-130 | Which bits of the digest byte the last word ends in. |
| `Mnemonic.PutIndexBit` | keychain/src/mnemonic.rs:138-139 | The front-to-back step of the packing. |
| `Mnemonic.PutEntropyBit` | keychain/src/mnemonic.rs:91-92 | The back-to-front step of the unpacking. |
| `Mnemonic.FromEntropy` | keychain/src/mnemonic.rs:115-147 | For any hash, every entropy of an allowed length is written as the one index list that spells it, and the last word ends in the top bits of the digest byte, one for every four bytes; other lengths are refused. |
| `Mnemonic.ToEntropy` | keychain/src/mnemonic.rs:69-112 | For any hash, an index list is accepted if and only if it spells an entropy with its checksum, the top bits of the digest byte, and gives that entropy; otherwise both checksums are reported. |
| `Words.Search` | keychain/src/mnemonic.rs:57-63 | Finds a word in a sorted list if and only if it is there. |
| `Words.LessMeans` | keychain/src/mnemonic.rs:57-63 | The order of words: where they part, the lesser has ended or has the lesser character. |
| `Words.SplitJoin` | keychain/src/mnemonic.rs:67-151 | Words joined by blanks split into the same words. |
| `Words.JoinMeans` | keychain/src/mnemonic.rs:151 | One blank between two words, and nothing else. |
| `Words.SplitIntoWords` | keychain/src/mnemonic.rs:66-67 | Splitting leaves no empty word and no space in a word. |
| `Words.SplitKeepsAll` | keychain/src/mnemonic.rs:66-67 | All characters but the spaces are in the words, in their order. |
| `MnemonicText.ListFromFile` | keychain/src/mnemonic.rs:25-28 | A file of 2048 words in strict order, split at spaces, is a list for which reading and writing work. |
| `MnemonicText.SearchAll` | keychain/src/mnemonic.rs:75-78 | All words are looked up; the first unknown one is reported. |
| `MnemonicText.FromEntropyText` | keychain/src/mnemonic.rs:115-153 | For any sorted list of 2048 different words, the text spells the entropy with single blanks, and every text that does spell it has the same words. |
| `MnemonicText.ToEntropyText` | keychain/src/mnemonic.rs:66-112 | A text is accepted if and only if its words spell an entropy, and gives that one; the errors in the order of the code. |
| `Aggregation.NetOfOneAndMore` | core/src/core/transaction.rs:2040-2116 | Replacing some transactions by their aggregate does not change what all come to. |
| `Aggregation.AggregateOverPool` | core/src/core/transaction.rs:2040-2116 | Where aggregating over the aggregate of a pool succeeds, aggregating over its transactions does if and only if no output the pool created and spent is created again; for a pool of one always. |
| `Aggregation.AggregateKeeps` | core/src/core/transaction.rs:2040-2116 | An aggregate has each kernel as often as all its transactions together, the sum of their offsets, and inputs and outputs that balance as theirs do, with nothing on both sides. |
| `Aggregation.AggregateFails` | core/src/core/transaction.rs:1972-1976 | It fails if and only if an output occurs twice in more than one transaction. |
| `Aggregation.ReusedOutput` | core/src/core/transaction.rs:1972-1976 | Three transactions for which the one succeeds and the other fails. |
| `Aggregation.AggregateSwaps` | core/src/core/transaction.rs:2040-2116 | Aggregation succeeds and fails alike in any order. |
| `Aggregation.NetSwaps` | core/src/core/transaction.rs:2040-2116 | What transactions come to together does not depend on their order. |
| `Aggregation.CutFirst` | core/src/core/transaction.rs:1966-2000 | Cutting a part first leaves the same after cutting the whole. |
| `CutThrough.CutThroughSorted` | core/src/core/transaction.rs:1966-2000 | The in-place merge leaves of both lists what is not common, with multiplicity and in order; it fails if and only if an output is repeated. |
| `CutThrough.CutThroughIsCut` | core/src/core/transaction.rs:1966-2000 | That is the cut-through of aggregation, with the same failures. |
| `CutThrough.CutThroughLists` | core/src/core/transaction.rs:1966-1998 | For lists in any order: what is left is the cut of aggregation, sorted; it fails if and only if an output is repeated. |
| `Pools.Pool.AddToPool` | pool/src/pool.rs:166-201 | An entry joins if and only if it is new and all together are valid; otherwise nothing changes. |
| `Pools.Pool.Reconcile` | pool/src/pool.rs:305-323 | Leaves the entries that could join again in turn. |
| `Pools.KeptIsSubsequence` | pool/src/pool.rs:305-323 | What is kept is a subsequence. |
| `Pools.KeptIsValid` | pool/src/pool.rs:305-323 | What is kept is valid together with what was counted in. |
| `Pools.KeptStays` | pool/src/pool.rs:305-323 | Reconciling again in the same state changes nothing. |
| `Pools.Retained` | pool/src/pool.rs:448-468 | Exactly the entries no kernel and no input of which is in the block stay. |
| `Pools.Pool.ValidateRawTxs` | pool/src/pool.rs:241-268 | Picks greedily; a failing aggregation ends it. |
| `Pools.PickedIsValid` | pool/src/pool.rs:122-140 | What is picked for mining keeps the order and is valid and light enough as one transaction. |
| `Pools.Pool.AllTransactionsAggregate` | pool/src/pool.rs:149-161 | None for an empty pool, else the aggregate if it is sound, with all kernels and the sum of the offsets. |
| `Aggregation.NetWithAggregate` | pool/src/transaction_pool.rs:117-121 | The aggregate of the public pool stands for all its transactions. |
| `TransactionPools.StemIsValid` | pool/src/transaction_pool.rs:117-121 | A stem pool reconciled over the aggregate is jointly valid with the public pool: what both come to is valid, and both as one list are if and only if the stem pool creates nothing again that the public pool created and spent. |
| `TransactionPools.StemJoinIsValid` | pool/src/transaction_pool.rs:78-82 | A transaction joining the stem pool over the public transactions leaves both valid as one list. |
| `PoolOutputs.NetAt` | core/src/core/transaction.rs:1486-1500 | What valid transactions come to: no commitment is spent twice, what is spent more often than created is unspent in the state, what is created more often is not. |
| `PoolOutputs.NotCreatedAgain` | pool/src/transaction_pool.rs:117-121 | A stem transaction that creates again what the public pool spends, and a newcomer to it creates, is not kept. |
| `PoolOutputs.StemGrows` | pool/src/transaction_pool.rs:78-82 | A transaction that joins the stem pool leaves all outputs of both pools different and each part of the stem pool valid over the public pool. |
| `PoolOutputs.PoolGrows` | pool/src/transaction_pool.rs:96-123 | So does one that joins the public pool, with what is kept of the stem pool. |
| `PoolOutputs.PartsAreApart` | pool/src/transaction_pool.rs:236-249 | And so do parts of both pools let in again in any new state. |
| `PoolOutputs.ApartIsTogether` | pool/src/transaction_pool.rs:117-121 | Such pools are valid as one list of transactions. |
| `TransactionPools.EvictedDiffers` | pool/src/transaction_pool.rs:193-205 | Giving a transaction up creates no output twice. |
| `TransactionPools.TransactionPool.AddToStempool` | pool/src/transaction_pool.rs:78-82 | Joint validity is kept; added if and only if valid over both pools. No output comes to be created twice. |
| `TransactionPools.TransactionPool.ReconcileStempool` | pool/src/transaction_pool.rs:117-121 | The aggregate never fails here, and joint validity, the one-list condition included, is restored by dropping stem entries only. |
| `TransactionPools.TransactionPool.AddToTxpool` | pool/src/transaction_pool.rs:96-123 | The public pool grows by the, possibly split, transaction, and the pools are jointly valid then, whatever they were before; or nothing changes. No output comes to be created twice, though the stem pool is checked against the aggregate only. |
| `TransactionPools.TransactionPool.AddToPool` | pool/src/transaction_pool.rs:127-189 | Succeeds if and only if the transaction is new where it has to be, finds room or something is given up for it, pays enough, is admissible, and joins the stem pool or the public pool. Taken as public it is remembered for a replay. The pools stay jointly valid unless something is evicted; no output comes to be created twice in any case. |
| `TransactionPools.TransactionPool.ReconcileReorgCache` | pool/src/transaction_pool.rs:217-234 | Each remembered entry that is valid over the public pool in its turn is let in. Joint validity is kept, nothing public is dropped, nothing added to the stem pool, and no output comes to be created twice. |
| `TransactionPools.ReplayLetsIn` | pool/src/transaction_pool.rs:217-234 | An entry valid in its turn is in the public pool after the replay. |
| `TransactionPools.TransactionPool.ReconcileBlock` | pool/src/transaction_pool.rs:236-249 | Whatever the pools were before, they are jointly valid for the new state and share nothing with the block; if no output was created twice, none is. |
| `PoolRuns.Run` | pool/src/transaction_pool.rs:127-249 | From empty pools through any run of transactions, blocks and replays over changing chain states: the pools hold exactly what the plain rules for entries give, step by step; without eviction they are jointly valid and no output in them is created twice; with no more steps than the pool has room for, and no replay, nothing is evicted. |
| `PoolRuns.Perform` | pool/src/transaction_pool.rs:127-249 | Each step keeps that and leaves exactly the entries the rules give; a block right after an eviction restores it. |
| `PoolRuns.SureIsTogether` | pool/src/transaction_pool.rs:117-121 | In such pools all transactions are valid as one list. |
| `Supply.HalvedBound` | core/src/consensus.rs:48-57 | The halved rewards never add up to twice the first, truncation included. |
| `Supply.IssuedClosed` | core/src/consensus.rs:60-74 | The sum block by block equals the sum interval by interval, at every height below 64 halvings. |
| `Supply.TotalReward` | core/src/consensus.rs:60-74 | Computes that sum, with or without the first reward, below twice an interval of first rewards, with no value on the way beyond 64 bits; it overflows if and only if 64 halvings have passed. |
| `Supply.BothIntervalsFit` | core/src/global.rs:203-209 | The interval of the main chain and that of the test chains both meet the bound. |
| `Supply.RewardMeans` | core/src/consensus.rs:48-57 | The reward of a block: 50 coins divided by two to the number of intervals passed, none after 64, and the fees, at most what 64 bits hold. |

## Left out

- Memory maps, temporary files, syncing to disk, the key-value store: a file is a sequence of bytes, a batch a map that is kept or dropped.
- Positions are unbounded; the bitmaps of the program hold 32 bits.
- FixedFiles.FixedFile.Rewind: only on an empty buffer, as the program documents.
- VariableFiles.VariableFile.Open: the data is made of whole elements, as a flush leaves it.
- VariableFiles.VariableFile.Rewind: only on an empty buffer, as the program documents.
- VariableFiles.VariableFile.Append: elements shorter than 65536 bytes and offsets below 2^64, since the size entry truncates them; element types are those whose streaming reader reports the bytes it read.
- Backends.PMMRBackend.Rewind: to whole sizes not below a pruned leaf; below, the data is gone.
- Pmmrs.PMMR.Rewind: not below a pruned leaf, for the same reason.
- PruneLists.PruneList.Add: for leaves, which is all the backend adds.
- Backends.PMMRBackend: the hash file has elements of fixed size and the data file of variable size; a data file of fixed-size elements is not instantiated.
- OutputSets.OutputSet.GetUnspent: the output range without the range proofs, which are kept in a second range of the same shape.
- OutputSets.OutputSet.RewindSingleBlock: the output range alone of the ranges rewound; the index is in `OutputPos`, over leaf numbers and values.
- OutputSets.OutputSet.RewindTo: the output range alone; the bitmap accumulator is not modelled.
- OutputSets.OutputSet.ApplyBlock: inputs are positions in the range before the block; finding them by commitment is in `OutputPos`. A block that spends its own output is refused before it is applied.
- OutputSets.OutputSet.PushAll: the output range alone.
- OutputSets.OutputSet.SpendAll: positions, not commitments.
- OutputSets.OutputSet.Commit: the output range alone of the ranges synced.
- OutputSets.OutputSet.Rollback: the output range alone of the ranges discarded.
- OutputSets.OutputSet.Compact: the output range alone of the ranges compacted.
- OutputPos.OutputIndex.ApplyOutput: the range is a list of outputs with a set of unspent leaf numbers, as `OutputSet` shows it to be; the range proof appended beside the output is left out.
- OutputPos.OutputIndex.ApplyInput: the same list; the range proof pruned beside the output is left out.
- OutputPos.OutputIndex.ApplyBlock: the same list; kernels, the bitmap accumulator and roots are left out.
- OutputPos.OutputIndex.RewindSingleBlock: the same list; older blocks without a list of what they spent are not modelled.
- OutputPos.OutputIndex.RewindTo: the same list, output range and index alone.
- OutputPos.HistoryGrows: two blocks with the same hash are the same block, so a hash is not used again.
- ForkState.SwitchBranch: the output range alone; the sums, maturity and root checks of the switch are parameters of `BlockPipe.ApplyFork`.
- AcceptedBranch.SwitchToAccepted: for fork points from the horizon on and outputs that fit in the file.
- OutputRuns.Perform: the output range alone of the ranges of a chain state.
- OutputRuns.Restarted: a crash in the middle of a sync is not modelled.
- OutputRuns.Run: the output range alone; outputs are shorter than 65536 bytes and 2^64 in all, and delimited by the reader.
- OutputSets.OutputSet.ProveUnspent: by position; finding it by commitment is in `OutputPos`.
- Pmmrs.PMMR.ReadBranch: for leaves that are not pruned.
- Pmmrs.PMMR.ProofOf: for leaves that are not pruned, as all unspent outputs are; for others a sibling may be missing.
- Backends.PMMRBackend.Open: the snapshot of the leaf set for a given header is left out.
- Backends.Reopen: the size file is lost, cut off or as written; with sizes swapped in place it would be taken as it is (`SwappedSizesAddUp`). A crash in the middle of a sync is not modelled.
- OutputSets.OutputSet.Reopen: the same; snapshots of the leaf set are left out.
- BlockPipe.RewindAndApplyFork: the block state is the list of applied hashes; what it means for the outputs is `ForkState.SwitchBranch`.
- BlockPipe.ApplyFork: the block state is the list of applied hashes.
- Tokens, kernels, validation of a whole range, snapshots and zip archives.
- The tail of the chain, fast sync, the option that skips proof of work; timestamps, versions and the older difficulty rules are one parameter of a header and its parent, proof of work another, the arithmetic of compact targets a third.
- ChainState.Chain.ProcessBlock: two headers with the same hash are the same header; the size, weight and signature checks of a block are one parameter, those against the unspent outputs another.
- HeaderSync.SyncRange.SyncBlockHeaders: for chunks that are one chain; resetting the sync range to the header range is left out.
- ChainState.Chain.AcceptedOnOwnBranch: a stored header that opens a window and is no higher than the range was judged by the range of its own time, so nothing is claimed for its block.
- OrphanDrain.CheckOrphans: blocks that open a difficulty window are not promised, since the range of the moment judges their bits; a held block stored already by another way is refused as known and ends the drain. Two blocks with the same hash are the same block.
- OrphanDrain.ProcessHeld: the same.
- KernelSearch.GetHeaderForKernelIndex: for heights that have a header and kernels within the range searched, since for others the loop does not end; the search over token kernels, whose counts may repeat.
- Base58.From: the text is taken to be UTF-8, as its type demands; without that the byte 128 would pass the guard and miss the table.
- Words.Search: the standard library's search is any binary search.
- Aggregation.NetOfOneAndMore: whether the aggregations succeed is `AggregateOverPool`; tokens are left out, and offsets add as integers.
- Aggregation.AggregateOverPool: the same; splitting a transaction is a parameter.
- CutThrough.CutThroughSorted: the merge on sorted lists; `CutThroughLists` sorts first, by any sort.
- TransactionPools.TransactionPool.AddToPool: joint validity is not promised for a step that evicts, nor after it until the next block; which transaction is evicted, and the buckets behind it, is a parameter.
- Supply.TotalReward: the shift is checked, as in a build with overflow checks; without them it wraps.
- Locks, timeouts, logging, the API, the network and the command line.
