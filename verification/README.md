# Btrfs core, modelled and proved in Dafny

The project models the parts of btrfs whose correctness rests on invariants that no single function shows:
the copy-on-write B-tree, the ordered work queue, space accounting and reservations, free-space loading,
back-reference walking, the radix sort of the compression heuristic and the copy-out of decompressed data.
`dafny verify dfyconfig.toml` checks everything.

| module | what it models |
|---|---|
| `WorkQueue` | the ordered work queue as a state machine: any number of workers, every locked section, bit operation and callback one step |
| `CowRefs` | copy-on-write of tree blocks with the back references in the extent tree: path walks, rewrites of held blocks, snapshots, commits, write-out, over whole runs |
| `Pinning` | the same runs on a device whose places are used again: freeing, pinning, allocation, writing |
| `Ctree` | keys, items, blocks, rows of children |
| `TreePath` | the held nodes of a path above the blocks being changed: carrying a new first key upwards |
| `SearchLocks` | the locks of a descent: read and write locks, restarts for more write locks, unlocking from above |
| `LeafPath` | the leaves under one level-1 node and a path into them: pushing items to neighbours, splitting, inserting, deleting |
| `NodePath` | the inner nodes under one parent and a path into them: pushing pointers, balancing, splitting |
| `BTree` | the whole tree: search, insertion and deletion as descents that use the two modules above |
| `LeafLayout` | the bytes of a leaf: headers, data areas, memmoves |
| `LeafBytes` | the leaves of `LeafPath` as blocks of `LeafLayout` |
| `BlockRsv` | block reserves and `bytes_may_use` |
| `Delalloc` | an inode's metadata reservation for delayed allocation |
| `BlockGroups` | the counters of a `space_info` against its block groups |
| `FreeSpace` | building the free-space set of a block group from the extent tree |
| `PrelimRefs` | preliminary references, merged on insertion, with the running share count |
| `RootWalk` | collecting all roots that reach an extent |
| `RadixSort` | the two-array radix sort with reversed four-bit digits |
| `Decompress` | copying decompressed buffers into the pages of a read |
| `Common`, `Errno` | a few definitions and error codes that several modules share |

One property that looks plausible is false of the code and has its exact condition. `RadixSort.SortedExactly`: the
sort leaves every array with maximum m in descending order exactly when m is 0 or the number of its top bit is not a
multiple of 8, because `ALIGN` leaves a multiple of 8 alone and the top bit is then not looked at; for every other m
there is an array whose only possible result is ascending. Two more results give the exact condition the code relies
on. `Delalloc.AlignmentExactly`: reserving an aligned length and releasing the unaligned one count the same extents
for every length exactly when the maximum extent size is a multiple of the sector size, which the file system sees to.
`BlockGroups.SpaceInfo.RemoveGroup`: removing a block group keeps the accounts exactly when nothing of it is left to
account for.

Unbounded integers stand for the kernel's fixed widths except where the width is the point: `(u64)-1` and the
wrapping subtraction in `BlockRsv`, `ALIGN` of an all-ones `ilog2` in `RadixSort`, and the 64-bit and 32-bit
truncation of offsets in `Decompress`. Results of code that is not modelled (did a space reservation succeed, may
metadata be overcommitted, is the file system closing, where do leaves of the extent tree end) are parameters or
nondeterministic choices.

## Model

| member | source | states |
|---|---|---|
| WorkQueue.StepKeepsInv | btrfs-devel/async-thread.c:209-352 | Every atomic step of queueing or of any worker keeps the invariant that ties the list, the two bits, the claim on the list head and the memory of each item together |
| WorkQueue.AddressIsIdentity | btrfs-devel/async-thread.c:250-290 | Comparing the address of the work just handled with the worker's own address decides identity although memory of freed items is reused |
| WorkQueue.RunInv | btrfs-devel/async-thread.c:209-352 | The invariant holds in every state of every run |
| WorkQueue.OrderedInQueueOrder | btrfs-devel/async-thread.c:209-290 | In every run the ordered functions are entered in queue order, at most once each, never before the item's own function returned and never two at a time |
| WorkQueue.NoUseAfterFree | btrfs-devel/async-thread.c:209-327 | No enabled step of any run reads or writes an item whose memory has been given back |
| WorkQueue.FreedAtMostOnce | btrfs-devel/async-thread.c:250-290 | The freeing call runs at most once per item and only after the item left the list |
| WorkQueue.Quiescent | btrfs-devel/async-thread.c:292-352 | Once all workers have returned the list is empty and every queued item has been run in order and freed |
| WorkQueue.NoDeadlock | btrfs-devel/async-thread.c:292-327 | While some worker has not returned, some worker can take a step |
| WorkQueue.RunDecreases | btrfs-devel/async-thread.c:209-327 | Every step of any worker, the loop over the list included, leaves less work |
| WorkQueue.WorkBoundsRun | btrfs-devel/async-thread.c:209-327 | While nothing new is queued, a run takes no more steps than there is work |
| WorkQueue.StuckIsQuiescent | btrfs-devel/async-thread.c:292-352 | A run in which no worker can go on has run every queued item in order and freed it |
| WorkQueue.Drains | btrfs-devel/async-thread.c:209-352 | Any run, left to its workers, gets there |
| CowRefs.NotSharedIsExclusive | btrfs-devel/ctree.c:311-346 | Where the code skips the extent tree, the block has exactly one reference, by its own root, and no full back references |
| CowRefs.CreateThenGrow | btrfs-devel/ctree.c:2857-2916 | A subvolume created in the running transaction can grow so that its commit root becomes a child of its root block |
| CowRefs.CommitRootIsShared | btrfs-devel/ctree.c:332-343 | After a snapshot of such a subvolume two trees refer to its commit root, the next change of it reaches that block as a child, and the generation test is what makes the code look its references up |
| CowRefs.LookupIsTrue | btrfs-devel/ctree.c:348-400 | Whatever branch is taken, the reference count used by the COW is the true one and at least one |
| CowRefs.UpdateCounts | btrfs-devel/ctree.c:400-450 | The references added and dropped for a copied block are exactly the change in what its pointers count as |
| CowRefs.CowExactAt | btrfs-devel/ctree.c:464-600 | After a child is copied, the recorded references of every extent equal its live pointers again |
| CowRefs.CowChildKeepsInv | btrfs-devel/ctree.c:464-600 | Copying a child of a held block keeps the whole invariant |
| CowRefs.CowRootKeepsInv | btrfs-devel/ctree.c:503-560 | So does copying a root block |
| CowRefs.TouchKeepsHeld | btrfs-devel/ctree.c:602-639 | A block that should_cow_block says may be changed in place belongs to the running transaction, to this tree alone, and is not written out |
| CowRefs.TouchRootKeepsHeld | btrfs-devel/ctree.c:602-639 | The same for a root block |
| CowRefs.PushIsBalanced | btrfs-devel/ctree.c:2703-2772 | Moving pointers between held siblings is a rewrite that changes no reference count |
| CowRefs.ShareIsBalanced | btrfs-devel/ctree.c:2703-2848 | So is any other sharing out of the pointers of two held blocks of one level |
| CowRefs.PushRightIsBalanced | btrfs-devel/ctree.c:2783-2848 | So is moving them the other way |
| CowRefs.SplitIsBalanced | btrfs-devel/ctree.c:2984-3071 | Splitting a held block and pointing the parent at the new one is a rewrite that adds exactly the new block's reference |
| CowRefs.NewLeafIsBalanced | btrfs-devel/ctree.c:3780-3817 | Pointing the parent at a new empty leaf is a rewrite that adds exactly the leaf's reference |
| CowRefs.NewRootIsBalanced | btrfs-devel/ctree.c:2857-2916 | A new root block above the old one takes over the tree's own reference and refers to the old one instead |
| CowRefs.PromoteIsBalanced | btrfs-devel/ctree.c:867-917 | A root block with one pointer is freed and its child inherits the tree's own reference |
| CowRefs.DropIsBalanced | btrfs-devel/ctree.c:4381-4462 | Deleting the pointer to an emptied block and freeing the block takes away exactly its reference |
| CowRefs.TreeOpIsBalanced | btrfs-devel/ctree.c:2703-4462 | Every way in which the tree code changes the blocks of a path, whatever it does to keys and items, is a rewrite that needs no reference update beyond those of the blocks it allocates or frees |
| CowRefs.RestructureKeepsInv | btrfs-devel/ctree.c:2703-3071 | Any such rewrite of the held blocks keeps references exact and the invariant |
| CowRefs.AddDataKeepsInv | btrfs-devel/file.c:700-710 | A held leaf gains a pointer to a data extent and the extent a reference; the invariant is kept |
| CowRefs.DropDataKeepsInv | btrfs-devel/file.c:415-435 | A held leaf loses such a pointer together with its reference; the invariant is kept |
| CowRefs.CreateKeepsInv | btrfs-devel/ioctl.c:574-600 | A new subvolume keeps the invariant |
| CowRefs.SnapshotKeepsInv | btrfs-devel/ctree.c:242-306 | Copying a root for a snapshot keeps the invariant; last_snapshot and FORCE_COW are set as transaction.c does |
| CowRefs.CommitKeepsInv | btrfs-devel/ctree.c:602-639 | A commit, which makes every current root the commit root, keeps the invariant |
| CowRefs.StepKeepsInv | btrfs-devel/ctree.c:242-639 | Every step of the state machine keeps the invariant |
| CowRefs.RunInv | btrfs-devel/ctree.c:242-639 | The invariant holds in every state of every run |
| CowRefs.ReferencesStayExact | btrfs-devel/ctree.c:348-450 | In every run, for every extent and every kind of reference, the recorded count equals the live pointers of that kind plus the tree root |
| CowRefs.OwnerStillRefers | btrfs-devel/ctree.c:348-450 | In every run a live block without full back references is still pointed at from its owner's tree |
| CowRefs.LookupNeverFindsZero | btrfs-devel/ctree.c:378-395 | In every run a COW that looks up a block's references finds at least one, so the corruption exit is not taken |
| CowRefs.CommitRootsAreOld | btrfs-devel/ctree.c:602-639 | When a transaction begins, the commit root of every tree is older than it |
| CowRefs.CommittedTreeIsStable | btrfs-devel/ctree.c:602-639 | From the beginning of a transaction to its end the tree below the commit root of every tree there was reads the same, byte for byte and to any depth, whatever happens to the running trees |
| Pinning.RefMeansLive | btrfs-devel/extent-tree.c:3617-3694 | A tree block that anything refers to has not been freed |
| Pinning.StepClosed | btrfs-devel/ctree.c:242-639 | No step leaves a live block that points at a freed one, or a node that points at data |
| Pinning.TreeOpIsTyped | btrfs-devel/ctree.c:2703-4462 | The ways the tree code changes the blocks of a path keep block pointers and data pointers apart |
| Pinning.StaysBusy | btrfs-devel/extent-tree.c:3617-3694 | What an earlier transaction left and this one frees is not handed out before the commit |
| Pinning.StepKeepsDevice | btrfs-devel/extent-tree.c:3617-3694 | Wherever the allocator puts new blocks and data among the free places, everything in use or pinned keeps a place of its own, and every live block and every pinned one of an earlier transaction is on the device as it should be |
| Pinning.CommittedTreeIsNotOverwritten | btrfs-devel/extent-tree.c:2979-3030 | From the beginning of a transaction to its end a reader who follows places from a commit root sees the same tree, to any depth, although the places of freed blocks are used again |
| Ctree.CompKeysIsTotalOrder | btrfs-devel/ctree.c:702-717 | Key comparison is a total order |
| TreePath.ClimbIsRight | btrfs-devel/ctree.c:2566-2588 | Storing a new first key upwards, and on only from slot 0, makes every key on the path right again and touches nothing above a node left through another slot |
| TreePath.FixupLowKeys | btrfs-devel/ctree.c:2566-2588 | The loop does exactly that |
| TreePath.ClimbIsNeeded | btrfs-devel/ctree.c:2566-2588 | Without a climb the path is right exactly if the first key below did not change |
| SearchLocks.Search.UnlockUp | btrfs-devel/ctree.c:1416-1458 | Locks are dropped from above, with keep_locks or without, never one that a change of the first key on this level, or on a level that may not be unlocked, could climb to; write_lock_level only falls, and not below the search |
| SearchLocks.Search.CowBlock | btrfs-devel/ctree.c:2085-2119 | A block is copied only under write locks on it and on its parent; otherwise the search starts over with a higher write_lock_level |
| SearchLocks.Search.SetupNodes | btrfs-devel/ctree.c:1627-1671 | The same for splitting and balancing; the path stays able to carry a new first key upwards, also under a new root |
| SearchLocks.Search.LeaveNode | btrfs-devel/ctree.c:2191-2226 | Unlocking and locking the child keep every lock a climb would need |
| SearchLocks.Search.AtLeaf | btrfs-devel/ctree.c:2149-2157 | At the leaf the early unlocking of the parents is safe: no climb follows it |
| SearchLocks.Search.Descend | btrfs-devel/ctree.c:2079-2226 | A pass from the root ends with all locks held that the change needs, or starts over with more write locks, unless the root went away |
| SearchLocks.SearchSlot | btrfs-devel/ctree.c:2006-2246 | Whatever the passes meet, every block copied, split or balanced was write locked together with its parent, the path returned is locked for its change, and apart from roots that go away there are at most as many restarts as levels |
| SearchLocks.LeftmostStays | btrfs-devel/ctree.c:1627-1671 | Splitting and balancing keep a path leftmost exactly if it was |
| SearchLocks.StoresAreLocked | btrfs-devel/ctree.c:2566-2588 | Every node that fixup_low_keys changes is then write locked |
| LeafPath.Path.FixupLowKeys | btrfs-devel/ctree.c:2566-2588 | From the level-1 node on: only a key in slot 0 goes further up |
| LeafPath.CountPushRight | btrfs-devel/ctree.c:3139-3174 | The loop counts exactly the items that may follow one another out of the end of the leaf |
| LeafPath.PushRightIsFirstStop | btrfs-devel/ctree.c:3139-3174 | That count stops at the first item that the space, the minimum slot or the path's place forbids, and not before |
| LeafPath.PushRightFits | btrfs-devel/ctree.c:3139-3174 | What is counted fits the neighbour, and a leaf that fits as a whole is taken as a whole when it may be emptied |
| LeafPath.CountPushLeft | btrfs-devel/ctree.c:3350-3377 | The same for the front of the leaf |
| LeafPath.PushLeftIsFirstStop | btrfs-devel/ctree.c:3350-3377 | It stops at the first item that may not follow, and not before |
| LeafPath.PushLeftFits | btrfs-devel/ctree.c:3350-3377 | What is counted fits the left neighbour |
| LeafPath.SiblingKeysOrdered | btrfs-devel/ctree.c:2661-2692 | Neighbouring leaves of an ordered tree never trip the sibling key check |
| LeafPath.Path.PushLeafRight | btrfs-devel/ctree.c:3119-3321 | Exactly the counted items move to the right neighbour, or the path alone when it stands behind them all; item sequence and logical place of the path are kept; asked to, it empties the leaf or does nothing; no key above the level-1 node changes |
| LeafPath.Path.PushLeafLeft | btrfs-devel/ctree.c:3331-3526 | Exactly the counted items move to the left; the new first key goes no higher than the level-1 node |
| LeafPath.Path.CopyForSplit | btrfs-devel/ctree.c:3532-3587 | The leaf splits at the given item; sequence and place are kept |
| LeafPath.Path.PushForDoubleSplit | btrfs-devel/ctree.c:3599-3651 | The pushes before a double split keep sequence and place and leave no leaf empty |
| LeafPath.Path.ChooseSplit | btrfs-devel/ctree.c:3716-3757 | The choice of split and middle, with what each choice guarantees about the room on either side |
| LeafPath.Path.SplitAgain | btrfs-devel/ctree.c:3716-3842 | The jumps back to the choice end after at most two new leaves, and the check against a second double split is never hit |
| LeafPath.Path.SplitLeaf | btrfs-devel/ctree.c:3659-3842 | Success leaves the asked-for space in the path's leaf, keeps the item sequence and the path's place, allocates at most two leaves; EOVERFLOW exactly for an item too big to extend |
| LeafPath.Path.InsertItems | btrfs-devel/ctree.c:4171-4255 | The batch, whatever its keys, appears at the path's place, and every ancestor's key is kept right |
| LeafPath.Path.SetItem | btrfs-devel/ctree.c:2596-2639 | One item gets another key and other bytes, as in cutting its front: every ancestor's key is kept right, and the order is kept exactly if the key lies between its neighbours |
| LeafPath.SetInOrder | btrfs-devel/ctree.c:2596-2639 | The two comparisons with the neighbours decide whether the whole sequence stays in order |
| LeafPath.Path.SplitAndInsert | btrfs-devel/ctree.c:1848-1941 | Room is made if there is none, and the batch inserted unless its first key is there; EOVERFLOW exactly if that key's item could not take the batch's bytes |
| LeafPath.Path.MergeSmallLeaf | btrfs-devel/ctree.c:4519-4584 | A leaf left a third full is offered to both neighbours and dropped if it ends empty; no item is lost |
| LeafPath.Path.DelItems | btrfs-devel/ctree.c:4470-4592 | Exactly the nr items from the path's place on go; no leaf stays empty; at most one leaf is dropped; every ancestor's key is kept right |
| NodePath.PushNodeLeft | btrfs-devel/ctree.c:2703-2772 | How many pointers move left, when none do, and that the sequence is kept |
| NodePath.BalanceNodeRight | btrfs-devel/ctree.c:2783-2848 | The same to the right; the source is not emptied |
| NodePath.Path.BalanceMoves | btrfs-devel/ctree.c:960-1075 | The moves of balancing; the assertion that the last push succeeds holds |
| NodePath.Path.BalanceLevel | btrfs-devel/ctree.c:924-1143 | Pointer sequence and the path's child are kept; the path's node ends with two pointers or more; the parent's first key stays, so no climb is missing; EUCLEAN exactly for a lone node with a lone pointer |
| NodePath.Path.PushNodesForInsert | btrfs-devel/ctree.c:1149-1294 | Pushing to a sibling before a split keeps sequence and place |
| NodePath.Path.SplitNode | btrfs-devel/ctree.c:2984-3071 | Afterwards the path's node has room, sequence and place are kept, the parent gained at most one pointer and kept its first key |
| BTree.BinSearch | btrfs-devel/ctree.c:733-799 | Found means equal at the slot; not found means all before are smaller and all from the slot on bigger |
| BTree.SearchForKeySlot | btrfs-devel/ctree.c:1827-1846 | The shortcut after an exact match in the parent gives the same answer |
| BTree.SearchLeaf | btrfs-devel/ctree.c:1848-1941 | With or without the first-key shortcut: whether the key is in the leaf, and the only slot that keeps the order |
| BTree.KidSlot | btrfs-devel/ctree.c:2159-2168 | At an inner node: the last child whose key is not above the key, or the first |
| BTree.BelowIsAround | btrfs-devel/ctree.c:2159-2168 | Everything left of that child is smaller and everything right of it bigger than the key |
| BTree.Descend | btrfs-devel/ctree.c:2079-2210 | One level down keeps track of all items left and right of the block reached |
| BTree.SearchSlot | btrfs-devel/ctree.c:2006-2246 | Returns 0 exactly when the key is in the tree, and a path to the only place where it is or belongs |
| BTree.SlotIsUnique | btrfs-devel/ctree.c:1999-2000 | There is only one such place |
| BTree.RoomInChild | btrfs-devel/ctree.c:1636-1648 | The child on an insertion path is split when it has fewer than four free slots; the parent always has room for the new pointer |
| BTree.ChoiceSurvives | btrfs-devel/ctree.c:2984-3071 | The search's choice stays the choice, in the node and in its parent, however pointers are regrouped |
| BTree.PlugWf | btrfs-devel/ctree.c:2566-2588 | If every key on the held path is the first key below it, the whole tree is well formed |
| BTree.Regrouped | btrfs-devel/ctree.c:1636-1670 | Splitting or balancing below a held node needs no climb |
| BTree.HoldsBelow | btrfs-devel/ctree.c:2079-2210 | Going one level down keeps the keys on the path right and all other items on their side of the key |
| BTree.InsertInLeaf | btrfs-devel/ctree.c:1848-1941 | The leaf end of an insertion adds at most two pointers to its parent and leaves every key on the path right |
| BTree.InsertStep | btrfs-devel/ctree.c:2079-2210 | One turn of the search loop for an insertion |
| BTree.InsertBelow | btrfs-devel/ctree.c:2006-2246 | An insertion into a node with four free slots never meets a full node below, double splits included; the climbs made leave a well-formed tree |
| BTree.InsertedInOrder | btrfs-devel/ctree.c:4290-4311 | Only the first key is looked up; the items are in order afterwards exactly if the batch is in order and no key of the tree lies inside it |
| BTree.InsertItems | btrfs-devel/ctree.c:4290-4311 | The new tree is shaped right, it is in order exactly if the batch was and its range was clear, and it holds the old items and the batch in its place; EEXIST or EOVERFLOW exactly when the first key was there, EOVERFLOW exactly when its item could not take the bytes, with the same items |
| BTree.FillChild | btrfs-devel/ctree.c:1649-1670 | On a deletion path the child ends with two pointers or more; balancing does not fail and the check after it is not hit |
| BTree.DeleteStep | btrfs-devel/ctree.c:2079-2210 | One turn of the search loop for a deletion |
| BTree.DeleteBelow | btrfs-devel/ctree.c:2006-2246 | A deletion below a node with two pointers leaves at least one; the climbs made leave a well-formed tree |
| BTree.DemoteRoot | btrfs-devel/ctree.c:867-917 | A root with one pointer gives way to its child; the items stay |
| BTree.DeleteItems | btrfs-devel/ctree.c:4470-4592 | The new tree is well formed and holds all items but those from the key on, as many as asked for and in the key's leaf; 1 exactly when the key was absent |
| BTree.InsertedBinds | btrfs-devel/ctree.c:4290-4311 | As a map: the new keys are bound, every other binding stays |
| BTree.DeletedBinds | btrfs-devel/ctree.c:4470-4592 | As a map: the deleted keys are unbound, every other binding stays |
| BTree.DeleteUndoesInsert | btrfs-devel/ctree.c:4290-4592 | Deleting what was just inserted restores the items |
| LeafLayout.UsedIsLayout | btrfs-devel/ctree.c:3078-3091 | What the items take is headers plus the distance from the end of the leaf to the last data area |
| LeafLayout.Memmove | btrfs-devel/ctree.c:66-73 | Overlapping moves inside a leaf, in either direction |
| LeafLayout.Leaf.SpaceUsed | btrfs-devel/ctree.c:3078-3091 | The offset arithmetic gives the space of any stretch of items |
| LeafLayout.Leaf.LeafFreeSpace | btrfs-devel/ctree.c:3098-3113 | Free space is the gap between headers and data |
| LeafLayout.Leaf.SetupItems | btrfs-devel/ctree.c:4171-4255 | A batch of items with the given keys and sizes appears at the slot; all other items keep their bytes |
| LeafLayout.Leaf.InsertItems | btrfs-devel/ctree.c:4171-4255 | With the bytes written, the leaf holds the old items and the batch |
| LeafLayout.Leaf.DelItems | btrfs-devel/ctree.c:4480-4504 | The range of items goes; all others keep their bytes |
| LeafLayout.Leaf.ExtendItem | btrfs-devel/ctree.c:4104-4158 | One item grows behind its bytes; all others are untouched |
| LeafLayout.Leaf.TruncateItemEnd | btrfs-devel/ctree.c:4014-4057 | One item keeps its first bytes; all others are untouched |
| LeafLayout.Leaf.TruncateItemFront | btrfs-devel/ctree.c:4058-4099 | One item keeps its last bytes under a moved key, an inline extent its header too; all others are untouched |
| LeafLayout.Leaf.SplitItem | btrfs-devel/ctree.c:3911-3976 | One item becomes two that share its bytes; ENOSPC exactly when a header does not fit |
| LeafLayout.PushRight | btrfs-devel/ctree.c:3181-3214 | The last items of one leaf appear in front of those of the other |
| LeafLayout.PushLeft | btrfs-devel/ctree.c:3384-3431 | The first items of one leaf appear behind those of the other |
| LeafLayout.CopyForSplit | btrfs-devel/ctree.c:3545-3565 | A leaf's items are divided between it and a new leaf |
| LeafBytes.PushRight | btrfs-devel/ctree.c:3181-3214 | On blocks of bytes the push to the right does what LeafPath does to its rows |
| LeafBytes.PushLeft | btrfs-devel/ctree.c:3384-3431 | So does the push to the left |
| LeafBytes.CopyForSplit | btrfs-devel/ctree.c:3532-3587 | So does the split into a new block |
| LeafBytes.InsertItems | btrfs-devel/ctree.c:4171-4255 | So does the insertion of a batch |
| LeafBytes.DelItems | btrfs-devel/ctree.c:4480-4504 | So does the deletion of a run of items |
| LeafBytes.TruncateFront | btrfs-devel/ctree.c:4058-4099 | So does cutting an item's front |
| LeafBytes.Replay | btrfs-devel/ctree.c:3119-4592 | For any sequence of changes that LeafPath makes to its rows, the blocks changed along with them hold the same items |
| BlockRsv.NoWrap | btrfs-devel/block-rsv.c:140-150 | A release target takes exactly what it lacks, up to what is offered: the subtraction does not wrap |
| BlockRsv.Reserves.UseBytes | btrfs-devel/block-rsv.c:293-308 | Bytes leave the reserve exactly when it holds enough |
| BlockRsv.Reserves.Add | btrfs-devel/block-rsv.c:212-226 | Reserve and bytes_may_use grow together |
| BlockRsv.Reserves.Refill | btrfs-devel/block-rsv.c:242-268 | The reserve ends with at least the asked-for bytes; bytes_may_use grows by what was missing |
| BlockRsv.Reserves.Migrate | btrfs-devel/block-rsv.c:160-172 | Bytes change reserve; nothing else changes |
| BlockRsv.Reserves.Release | btrfs-devel/block-rsv.c:104-291 | What the reserve lets go of goes to the target first and out of bytes_may_use otherwise; slack is unchanged and no counter is clamped |
| BlockRsv.Reserves.UpdateGlobal | btrfs-devel/block-rsv.c:376-398 | The global reserve is full at its new size and bytes_may_use follows |
| BlockRsv.Reserves.UseBlockRsv | btrfs-devel/block-rsv.c:497-568 | Success raises the slack by one block, failure leaves it; failure exactly when no way of charging the block is open |
| BlockRsv.Reserves.UnuseBlockRsv | btrfs-devel/block-rsv.h:96-102 | The slack falls by one block |
| BlockRsv.Reserves.UpdateDelayedRefs | btrfs-devel/delayed-ref.c:88-129 | The delayed refs reserve grows, backed by the local one; together they hold what they held |
| BlockRsv.Reserves.GrowDelayed | btrfs-devel/delayed-ref.c:135-183 | Clearing the full flag unseen is safe |
| BlockRsv.Reserves.RefillDelayed | btrfs-devel/delayed-ref.c:210-266 | The reserve moves towards its size by at most the limit |
| BlockRsv.Reserves.SetSize | btrfs-devel/delalloc-space.c:284-287 | A reserve whose owner sets its size outright leaves the others and bytes_may_use covered |
| BlockRsv.Reserves.Alloc | btrfs-devel/block-rsv.c:174-201 | A new reserve is empty and leaves every account as it is |
| BlockRsv.Reserves.Free | btrfs-devel/block-rsv.c:203-210 | A freed reserve is empty, so nothing is lost with it |
| Delalloc.CeilSubadditive | btrfs-devel/fs.h:1015-1022 | Rounding up two amounts covers the rounded-up sum |
| Delalloc.AlignmentExactly | btrfs-devel/fs.h:1056-1064 | Aligning a length does not change its extent count, for all lengths, if and only if an extent is a whole number of sectors |
| Delalloc.ReservationSuffices | btrfs-devel/delalloc-space.c:250-313 | What one reservation brings is at least what it adds to the inode's need |
| Delalloc.Inode.ReserveMetadata | btrfs-devel/delalloc-space.c:315-392 | Counters, size and reservation after a reservation; the reserve still covers its size |
| Delalloc.Inode.ReleaseMetadata | btrfs-devel/delalloc-space.c:405-424 | Checksum bytes go down by the aligned length; the reserve holds exactly its size |
| Delalloc.Inode.ReleaseExtents | btrfs-devel/delalloc-space.c:438-453 | Outstanding extents go down by those of the unaligned length; the reserve holds exactly its size |
| Delalloc.Inode.ShrinkExtents | btrfs-devel/delalloc-space.c:455-473 | A reservation shrinks in place |
| Delalloc.Inode.AllReleased | btrfs-devel/delalloc-space.c:250-473 | In whatever order reservations, shrinks and releases came: when all are released, every counter and the reservation are zero |
| BlockGroups.LeftOver | btrfs-devel/space-info.h:261-271 | What the counters leave over of the total is exactly the free space of the writable groups |
| BlockGroups.SpaceInfo.AddGroup | btrfs-devel/space-info.c:373-404 | A group joins and the counters are its and the others' sums |
| BlockGroups.SpaceInfo.IncRo | btrfs-devel/block-group.c:1410-1468 | Read-only nests; the first time, the group's free space becomes read-only bytes; each error exactly in its case |
| BlockGroups.SpaceInfo.DecRo | btrfs-devel/block-group.c:3185-3208 | The last time, the free space comes back, whatever was freed meanwhile |
| BlockGroups.SpaceInfo.AddReserved | btrfs-devel/block-group.c:3927-3972 | EAGAIN exactly for a read-only group; otherwise group and counter grow alike; the group stays within its length exactly if the bytes were free |
| BlockGroups.SpaceInfo.FreeReserved | btrfs-devel/block-group.c:3987-4013 | Reserved bytes go back, as read-only ones in a read-only group |
| BlockGroups.SpaceInfo.Update | btrfs-devel/block-group.c:3845-3879 | Reserved becomes used, used becomes pinned |
| BlockGroups.SpaceInfo.Unpin | btrfs-devel/extent-tree.c:2881-2901 | Pinned bytes become free, or read-only in a read-only group |
| BlockGroups.SpaceInfo.FoldPinned | btrfs-devel/block-group.c:1737-1746 | Pinned bytes of an unused group become read-only bytes |
| BlockGroups.SpaceInfo.RemoveGroup | btrfs-devel/block-group.c:1088-1104 | The accounts stay right if and only if the group is empty and read-only, or nothing but superblock copies |
| FreeSpace.FindFirst | btrfs-devel/extent-io-tree.c:860-929 | The first excluded range that ends behind the start |
| FreeSpace.AddNewFreeSpace | btrfs-devel/block-group.c:530-573 | Exactly the bytes of the range that are not excluded are added, in ascending disjoint pieces, and the total is right |
| FreeSpace.SkipsNoExtent | btrfs-devel/block-group.c:814-820 | Searching again from the end of an extent skips back references and never an extent, and moves on |
| FreeSpace.LoadExtentTreeFree | btrfs-devel/block-group.c:721-857 | The free set is exactly the group from the superblock offset on, minus all extents, minus all excluded ranges, unless the file system closes; then it is part of that; the scan with all its re-searches ends |
| PrelimRefs.CompareIsTotalOrder | btrfs-devel/backref.c:222-250 | Reference comparison is a total order |
| PrelimRefs.InsertOk | btrfs-devel/backref.c:252-264 | Insertion with the arguments of the comparison exchanged keeps the tree in descending order and merges into the one entry |
| PrelimRefs.InsertHolds | btrfs-devel/backref.c:290-329 | Each class holds the sum of its counts and the chain of its inode lists |
| PrelimRefs.ShareStepIsRight | btrfs-devel/backref.c:268-277 | The step of share_count is the change in the number of classes with a positive count |
| PrelimRefs.Walk.InsertRef | btrfs-devel/backref.c:290-329 | Trees, entry counts and share_count stay what the references inserted so far amount to; self_ref_count grows by the reference's count exactly for the checked file's own references that lift or change a class |
| PrelimRefs.Walk.Rebalance | btrfs-devel/backref.c:290-329 | Whatever shape the red-black tree takes with the same contents in order, it still stands for the references inserted |
| PrelimRefs.Walk.AddPrelimRef | btrfs-devel/backref.c:387-415 | Sharing is reported exactly when more than one class counts |
| PrelimRefs.Walk.IsSharedDataBackref | btrfs-devel/backref.c:442-465 | The hand-written descent finds a direct reference exactly when one was inserted |
| PrelimRefs.OrderIndependent | btrfs-devel/backref.c:290-329 | The same references in any order leave the same classes, counts and number of positive classes |
| RootWalk.Ctx.FindAllRoots | btrfs-devel/backref.c:1744-1796 | Success exactly when no reachable block fails; the roots are those given and those of reachable blocks; each block is listed once; the context is restored |
| RootWalk.Ctx.Walk | btrfs-devel/backref.c:1771-1788 | The growing list ends as the set of reachable blocks, and the loop ends |
| RootWalk.Complete | btrfs-devel/backref.c:1771-1788 | With the whole list walked nothing reachable is missing |
| RadixSort.Pass | btrfs-devel/compression.c:1365-1383 | One pass takes every element to its place in the stable order of one digit |
| RadixSort.PositionsOrdered | btrfs-devel/compression.c:1365-1383 | The places computed from the counters order elements by digit, then by age |
| RadixSort.NextDigit | btrfs-devel/compression.c:1363-1414 | A stable pass over the next digit of something sorted by the digits below sorts by both |
| RadixSort.Sort | btrfs-devel/compression.c:1339-1415 | Stably descending by the low bits that the maximum selects |
| RadixSort.Permutes | btrfs-devel/compression.c:1339-1415 | The result is a permutation of the input |
| RadixSort.DescendingLow | btrfs-devel/compression.c:1339-1415 | The result descends in those low bits |
| RadixSort.SortsFully | btrfs-devel/compression.c:1339-1415 | If the maximum lies below those bits the whole numbers descend |
| RadixSort.StableUnique | btrfs-devel/compression.c:1339-1415 | The input determines the result |
| RadixSort.NotSorted | btrfs-devel/compression.c:1360-1361 | For every maximum whose top bit is the first of a byte, an array whose only possible result is ascending |
| RadixSort.SortedExactly | btrfs-devel/compression.c:1339-1415 | All arrays with a given maximum come out descending if and only if it is 0 or the number of its top bit is not a multiple of eight; otherwise some array cannot come out descending |
| Decompress.OffsetInExtent | btrfs-devel/compression.c:1228-1236 | The offset in the extent is right although the extent's file offset wrapped below zero |
| Decompress.Bio.Buf2Page | btrfs-devel/compression.c:1213-1263 | One buffer fills exactly the wanted bytes it holds; bytes behind them stay; 0 exactly when the read is complete; both assertions hold |
| Decompress.ReadExtent | btrfs-devel/compression.c:1213-1263 | However the extent is cut into buffers, the pages end up with exactly the bytes they want |

## Left out

- Update in place of the tree as a whole: `BTree` passes the held path and the blocks below it as values from one
  level to the next; only the leaves under one node and the nodes under one parent are updated in place (`LeafPath`,
  `NodePath`, `LeafLayout`).
- The connection of `BTree` and `CowRefs`: the first has no block addresses, the second sees blocks as pointers and
  opaque bytes. What the tree code does to pointers is proved there to be a rewrite that keeps references exact; that
  it does so only to blocks of the path is how a step is defined.
- BTRFS_MAX_LEVEL in `BTree`, memory and I/O errors, readahead, the tree mod log, old-slot search.
- SearchLocks.SearchSlot: what a pass meets (which blocks must be copied, where the key's slots are, what is split or
  balanced) is given, within what the tree code allows; nowait, skip_locking, search_for_split, a lowest_level above 0,
  restarts for a block that had to be read, and the other tasks behind the locks are not modelled.
- LeafBytes.Replay: which changes a `LeafPath` method makes is read off its contract; the two classes do not call each
  other.
- Relocation, log trees, pre-mixed back references, zoned mode, remap trees, discard, size classes.
- Transaction commit in `CowRefs` is one step in which every current root becomes the commit root; a snapshot made in
  a transaction is not modified before that transaction commits.
- CowRefs.CommittedTreeIsStable: every block has an address of its own there; `Pinning` is where places are used again.
- CowRefs.AddDataKeepsInv: a data reference is counted per tree or parent block; the inode and file offset that the
  extent tree also records are dropped.
- CowRefs.DropDataKeepsInv: likewise.
- Pinning.StepKeepsDevice: a changed block is on the device at once, which is the worst case for the committed trees;
  block groups, extent sizes and the order of writes are not modelled, and unpinning is part of the commit step.
- The kernel workqueue behind `WorkQueue` (thresholds, maximum active) beyond running each item once and never two
  items of one address at a time.
- LeafLayout.Leaf.SetupItems: the headers are a sequence beside the byte array; that they do not run into the data is
  proved, their own byte encoding is not modelled.
- LeafLayout.Leaf.TruncateItemFront: the key offset does not wrap at 64 bits.
- BlockRsv.Reserves.Release: each exported function is one step; interleavings between the two locked sections of a
  release, or of an unuse and a concurrent growth of the delayed refs reserve, are not modelled.
- BlockRsv.Reserves.UpdateGlobal: the sum over the tree sizes is a parameter.
- Waking and granting of reservation tickets, async reclaim, overcommit arithmetic.
- Delalloc.Inode.ReserveMetadata: counts do not wrap at 32 bits; use of the inode's reserve by its own transactions,
  which takes bytes out of it, is not part of the runs.
- FreeSpace.LoadExtentTreeFree: the extent tree does not change during the scan; failures to add a range are not
  modelled; extents neither overlap nor reach across the start of the scan.
- PrelimRefs.Walk.InsertRef: of self_ref_count only each step is stated, because its final value depends on the order
  of insertion; rebalancing is any change of shape with the same contents.
- RootWalk.Ctx.FindAllRoots: what find_parent_nodes finds for each block is given; how it finds it is not modelled.
- Compression codecs, bio submission, the entropy heuristic around the sort.
