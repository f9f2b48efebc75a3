# libhashish, verified

A model in Dafny of the core of libhashish, a hash table library with
exchangeable collision engines, and of the hash functions and generators it
carries. The files follow the source:

- `Keys`, `Counters`, `Entries`: keys, data, comparators and return codes, 32-bit
  counters, and sequences of entries as finite maps.
- `RbShape`, `RbHeap`, `RbInsert`, `RbErase`, `RbTree`: the red-black tree
  engine on a heap of nodes with parent links. A zipper (`Ctx`) describes the
  path from the root to the place where the code works.
- `ListEngine`, `ArrayEngine`: the list engines, plain and move-to-front, and
  the array engine with holes.
- `TableSpec`, `Tables`, `HandleOps`, `Runs`: a table of buckets as one finite map,
  the dispatch layer, the iterator, rehashing, and whole runs.
- `SearchTree`, `Locking`: the locks of insert and remove in the tree engine, as
  steps of any number of threads; every run is safe and serial. `TreeSteps` ties
  the steps that change a tree to what the code does on the heap.
- `Words`: 32-bit words and bytes, which the hash functions share.
- `Sha1Spec`, `Sha1`; `SkeinSpec`, `Skein256`: SHA-1 against FIPS 180-1, and
  Skein-256 against Threefish-256 and UBI.
- `Murmur`, `Jenkins`, `MersenneTwister`, `CubeHash`, `Bloom`: MurmurHash2,
  lookup3, MT19937, the CubeHash transformation and the bloom filter.
- `Sha1Known`, `SkeinKnown`, `JenkinsKnown`, `CubeHashKnown`: proofs of known
  answers, as literals. A code and its specification may name the same function
  or constant; an answer that is written out fixes those as well. The known
  answers of MurmurHash2 and MT19937 are in their own modules.

Keys are values, because insert copies them; two keys compare equal exactly when
they are the same value, and so hash equally. The tree engine needs a comparator
that is a strict total order. A hash function is any function. Counters of 32
bits are numbers that wrap modulo 2^32; words of the hash functions are bit
vectors of their C width, `unsigned long` in SHA-1 with 64 bits. Words are read
as a little-endian machine reads them.

Where the source repeats itself, the model does not: the search loop of the tree
engine is one method for get, insert and remove; the search of an array bucket
is one for get and remove; the eighty lines of a SHA-1 block and the rounds of
Skein are loops over groups of lines; the three loops of lookup3 are one loop
whose reads depend on the alignment; the two halves of a CubeHash round are one
method with three constants. The `done` result of the erase repair stands for
the `break` of the loop. Long methods are split where the proof needs it.

What the code does that its documentation does not say, or that differs from
what a caller would expect, is kept and stated exactly:

- The snapshot of an array bucket looks at the first `slot_size` slots only, so
  it is complete exactly when there is no hole among them
  (`ArrayEngine.SnapshotIff`). Inserts make no holes; a remove makes one exactly
  when it frees another slot than the last allocated one
  (`ArrayEngine.VacatedGapless`), and two inserts and a remove are enough
  (`ArrayEngine.ReachHole`).
- The snapshot of a tree bucket is sized by a 32-bit counter, so it is complete
  exactly below 2^32 entries (`RbTree.RbBucket.ToArray`).
- SHA-1 of a key of 2^31 bytes or more is the hash of the empty message
  (`Sha1.HashSha1`), and Skein hashes only the length modulo 2^29 bytes of a key
  (`Skein256.HashSkein`).
- hi_rehash of an empty table leaves its size alone and reports HI_ERR_NODATA
  (`HandleOps.Handle.Rehash`).
- An insert that is refused as a duplicate still doubles an overloaded table of
  the tree and array engines; the list engines look the key up first
  (`HandleOps.Handle.Insert`).
- A reset of an iterator on a table that has become empty frees the snapshot but
  not its count, so the iterator may be used further exactly if the count was
  zero (`HandleOps.Iterator.Reset`).

Verify with `dafny verify dfyconfig.toml --resource-limit 2000000
--verification-time-limit 0`.

## Model

| member | source | states |
|---|---|---|
| RbShape.GoodPlug | lib/hi_rbtree.c:118-180 | A subtree of the right black count and colours can be put back into its context: the whole tree is then a red-black tree (no red node with a red child, equal black counts) |
| RbShape.SiblingExists | lib/hi_rbtree.c:189-192 | A short side that is not at the root has a sibling, so the unchecked dereference in the repair loop of erase is safe |
| RbHeap.RotLOrder | lib/hi_rbtree.c:71-92 | A left rotation keeps the in-order sequence and the set of nodes |
| RbHeap.RotROrder | lib/hi_rbtree.c:94-115 | A right rotation keeps the in-order sequence and the set of nodes |
| RbHeap.RbRoot.RotateLeft | lib/hi_rbtree.c:71-92 | The pointer assignments of the rotation, field by field, with every other link unchanged |
| RbHeap.RbRoot.RotateLeftAt | lib/hi_rbtree.c:71-92 | On a heap that represents a tree in its context, the rotation leaves the heap representing the rotated tree in the same context |
| RbHeap.RbRoot.RotateRight | lib/hi_rbtree.c:94-115 | The mirrored pointer assignments, with every other link unchanged |
| RbHeap.RbRoot.RotateRightAt | lib/hi_rbtree.c:94-115 | The heap represents the tree rotated right in the same context |
| RbHeap.RbRoot.SetColor | include/rbtree.h:45-55 | Recolouring a node changes that node's colour in the represented tree and nothing else |
| RbHeap.RbRoot.LinkNode | include/rbtree.h:72-79 | A new red leaf takes the empty place that the search found, in the represented tree |
| RbHeap.RbRoot.SpliceLinks | lib/hi_rbtree.c:316-329 | The links of the parent, the root and the child when a node with at most one child goes, and no other link changes |
| RbHeap.RbRoot.Splice | lib/hi_rbtree.c:316-329 | The heap represents the context with the child in place of the removed node |
| RbHeap.RbRoot.UnlinkMin | lib/hi_rbtree.c:285-295 | The heap represents the context without the in-order successor, whose right child takes its place |
| RbHeap.RbRoot.TakePlace | lib/hi_rbtree.c:297-312 | The successor stands where the removed node stood, with its links and colour |
| RbInsert.SetBlack | lib/hi_rbtree.c:131-132 | Parent and uncle turn black in the represented subtrees, whichever of the two comes first |
| RbInsert.Recolour | lib/hi_rbtree.c:127-137 | The red-uncle case recolours parent, uncle and grandparent of the represented tree |
| RbInsert.RecolouredKeeps | lib/hi_rbtree.c:127-137 | After the red-uncle case the only possible fault is a red grandparent under a red parent, two levels further up |
| RbInsert.LiftedLOrder | lib/hi_rbtree.c:139-150 | One or two rotations at a left parent keep the in-order sequence and the nodes |
| RbInsert.LiftedLColours | lib/hi_rbtree.c:139-150 | One or two rotations at a left parent end with a red-black tree |
| RbInsert.LiftLeft | lib/hi_rbtree.c:139-150 | The code of the black-uncle case at a left parent produces exactly that tree on the heap |
| RbInsert.FixLeft | lib/hi_rbtree.c:125-150 | One turn of the loop at a left parent: either the tree is red-black or the fault is nearer to the root |
| RbInsert.LiftedROrder | lib/hi_rbtree.c:164-175 | The same at a right parent: order and nodes are kept |
| RbInsert.LiftedRColours | lib/hi_rbtree.c:164-175 | The same at a right parent: the result is a red-black tree |
| RbInsert.LiftRight | lib/hi_rbtree.c:164-175 | The code of the black-uncle case at a right parent produces that tree on the heap |
| RbInsert.FixRight | lib/hi_rbtree.c:151-176 | One turn of the loop at a right parent |
| RbInsert.InsertColor | lib/hi_rbtree.c:118-180 | The repair loop ends with a red-black tree with a black root, the same in-order sequence and the same nodes; the grandparent is never null |
| RbErase.RedSibLOrder | lib/hi_rbtree.c:192-198 | The red-sibling case on the left keeps the in-order sequence and the nodes |
| RbErase.RedSibLColours | lib/hi_rbtree.c:192-198 | The red-sibling case moves the short side one level down, under a red parent, and keeps what is short about it |
| RbErase.RotateRedSibL | lib/hi_rbtree.c:192-198 | The code of that case on the heap |
| RbErase.BothBlackLKeeps | lib/hi_rbtree.c:199-205 | With two black nephews the sibling turns red and the shortage moves to the parent |
| RbErase.MendedLOrder | lib/hi_rbtree.c:206-225 | The two nephew cases keep the in-order sequence and the nodes |
| RbErase.MendedLColours | lib/hi_rbtree.c:206-225 | The two nephew cases end the shortage: the tree is red-black apart from its root |
| RbErase.MendL | lib/hi_rbtree.c:206-225 | The code of the nephew cases, with one or two rotations, produces that tree on the heap |
| RbErase.EraseLeft | lib/hi_rbtree.c:189-225 | One turn of the loop on the left side: done, or short one level up, with the red-sibling case inside; no dereference of a null sibling |
| RbErase.RedSibRColours | lib/hi_rbtree.c:229-235 | The mirrored red-sibling case |
| RbErase.BothBlackRKeeps | lib/hi_rbtree.c:236-242 | The mirrored two-black-nephews case |
| RbErase.MendedROrder | lib/hi_rbtree.c:243-262 | The mirrored nephew cases keep order and nodes |
| RbErase.MendedRColours | lib/hi_rbtree.c:243-262 | The mirrored nephew cases end the shortage |
| RbErase.MendR | lib/hi_rbtree.c:243-262 | The code of the mirrored nephew cases on the heap |
| RbErase.EraseRight | lib/hi_rbtree.c:226-263 | One turn of the loop on the right side |
| RbErase.ClimbShort | lib/hi_rbtree.c:187-263 | The loop terminates, although the red-sibling case moves the node down, and leaves a tree that at most a black node at the place reached completes |
| RbErase.EraseColor | lib/hi_rbtree.c:182-266 | The repair after an erase ends with a red-black tree, the same in-order sequence and the same nodes |
| RbErase.Successor | lib/hi_rbtree.c:280-284 | The loop to the left finds the in-order successor inside the right subtree |
| RbErase.Replaced | lib/hi_rbtree.c:278-313 | Putting the successor in the place of the removed node keeps the order of the others and leaves at most one side short |
| RbErase.ReplaceBySuccessor | lib/hi_rbtree.c:278-313 | The branch with two children, on the heap, with the parent, child and colour it hands to the repair |
| RbErase.RemoveOuter | lib/hi_rbtree.c:274-277 | The branch with at most one child, on the heap |
| RbErase.Erase | lib/hi_rbtree.c:269-334 | Erasing a node leaves a red-black tree whose in-order sequence and nodes are the old ones without exactly that node |
| RbTree.GoRight | lib/hi_rbtree.c:368-369 | A negative comparison goes right: in a tree ordered in this mirrored way the key can only be there |
| RbTree.GoLeft | lib/hi_rbtree.c:370-371 | A positive comparison goes left |
| RbTree.PathsOf | lib/hi_rbtree.c:355-372 | A subtree of black count h has at least 2^h - 1 nodes and height at most 2h + 1 |
| RbTree.HeightBound | lib/hi_rbtree.c:355-372 | A tree of n nodes has a height h with 2^(h/2) <= n + 1 |
| RbTree.Join | lib/hi_rbtree.c:514-515 | A new node linked at the empty place and repaired: a red-black tree whose in-order sequence has exactly that node in addition, at that place |
| RbTree.RbBucket.Search | lib/hi_rbtree.c:355-372 | The search loop ends at the node of the key, or at the empty place where the key belongs, within as many comparisons as the tree is high |
| RbTree.RbBucket.Get | lib/hi_rbtree.c:347-375 | The code and data of the map; with c comparisons, 2^(c/2) <= n + 1 |
| RbTree.RbBucket.Insert | lib/hi_rbtree.c:480-526 | A new key gives the old map plus that key in a red-black tree; a duplicate gives ErrDupKey and changes neither tree nor counter |
| RbTree.RbBucket.Remove | lib/hi_rbtree.c:431-472 | Removing a key gives the old map minus that key in a red-black tree; a missing key gives ErrNoKey and changes nothing |
| RbTree.RbBucket.constructor | lib/lib_init.c:221-244 | A fresh bucket is a valid empty tree |
| RbTree.PreorderPermutes | lib/hi_rbtree.c:378-399 | The pre-order of a tree has the entries of its in-order, in another order |
| RbTree.RbBucket.Traverse | lib/hi_rbtree.c:378-399 | The recursion fills exactly the slots from pos to pos plus the size of the subtree, in pre-order, and no other slot |
| RbTree.RbBucket.ToArray | lib/hi_rbtree.c:402-427 | The snapshot has as many slots as the 32-bit counter says and is complete if and only if the tree has less than 2^32 entries; ErrNoData when the counter is zero |
| ListEngine.FrontPermutes | lib/hi_list.c:247-251 | Moving a node to the front only permutes the bucket |
| ListEngine.ListBucket.Lookup | lib/hi_list.c:92-101 | Success exactly for a key of the map |
| ListEngine.ListBucket.Get | lib/hi_list.c:214-227 | The code and data of the map, with the list unchanged |
| ListEngine.ListBucket.Find | lib/hi_list.c:244-256 | The node of the key and the node before it, or no node when the key is missing |
| ListEngine.ListBucket.GetMoveToFront | lib/hi_list.c:237-259 | The code and data of the map; the map stays the same although the list is spliced |
| ListEngine.ListBucket.Insert | lib/hi_list.c:339-350 | A new first node: the map gains exactly that pair |
| ListEngine.ListBucket.Remove | lib/hi_list.c:130-196 | The node of the key is unlinked: the map loses exactly that key, a missing key changes nothing |
| ListEngine.ListBucket.ToArray | lib/hi_list.c:25-73 | The snapshot has a slot for each entry and holds each entry once; ErrNoData when the 32-bit counter is zero |
| ArrayEngine.AllocatedBound | lib/hi_array.c:60-64 | As many slots are allocated as there are slots exactly when no slot is free |
| ArrayEngine.FreeOne | lib/hi_array.c:155-163 | Freeing a slot takes exactly its key from the map and one from the count of allocated slots |
| ArrayEngine.UseOne | lib/hi_array.c:276-297 | Filling a free slot adds exactly its pair to the map |
| ArrayEngine.VacatedAt | lib/hi_array.c:155-163 | Marking the slot of a key as free is the same as marking every slot with that key: there is only one |
| ArrayEngine.OccupiedGapless | lib/hi_array.c:250-297 | An insert into a bucket without holes makes no hole, whether or not the array doubles |
| ArrayEngine.VacatedGapless | lib/hi_array.c:155-163 | A remove from a bucket without holes makes a hole if and only if it does not free the last allocated slot |
| ArrayEngine.ArrayBucket.Find | lib/hi_array.c:49-86 | The search that stops after slot_size allocated slots never misses a key, however the holes lie |
| ArrayEngine.ArrayBucket.Get | lib/hi_array.c:37-103 | The code and data of the map |
| ArrayEngine.ArrayBucket.Remove | lib/hi_array.c:114-189 | The map loses exactly that key, and only its slot changes; slot_size stays the number of allocated slots; a bucket without holes stays so exactly when its last slot was freed |
| ArrayEngine.ArrayBucket.Grow | lib/hi_array.c:250-275 | Doubling adds free slots behind the old ones and keeps all entries, and afterwards a slot is free |
| ArrayEngine.ArrayBucket.FreeSlot | lib/hi_array.c:279-280 | The loop stops at the first free slot |
| ArrayEngine.ArrayBucket.Insert | lib/hi_array.c:230-306 | The map gains exactly that pair or keeps its duplicate; the pair goes to the first free slot, after a doubling if there is none; a bucket without holes stays so; the return that should never happen does not happen |
| ArrayEngine.ArrayBucket.RoomToGrow | lib/hi_array.c:250-263 | A bucket of less than 2^31 entries doubles without overflow |
| ArrayEngine.ArrayBucket.constructor | lib/lib_init.c:247-295 | A bucket of positive capacity starts valid and empty, with all slots free |
| ArrayEngine.SnapshotComplete | lib/hi_array.c:207-218 | The first slot_size slots hold all allocated entries if and only if there is no hole among them |
| ArrayEngine.SnapshotIff | lib/hi_array.c:207-218 | The snapshot of the loop is complete if and only if there is no hole among the first slot_size slots |
| ArrayEngine.ReachHole | lib/hi_array.c:114-306 | Two inserts and a remove of the first key reach a bucket whose snapshot lacks the key that is left |
| ArrayEngine.ArrayBucket.ToArray | lib/hi_array.c:192-222 | The loop as written; its snapshot is complete exactly for a bucket without such holes |
| TableSpec.LookupHome | lib/hi_operations.c:67-93 | When every key is in the bucket of its hash, a key is in the table exactly when it is in its own bucket |
| TableSpec.InsertHome | lib/hi_operations.c:152-182 | A pair put into the bucket of its hash is added to the map of the table, which stays placed |
| TableSpec.RemoveHome | lib/hi_operations.c:104-129 | A key taken from the bucket of its hash is taken from the map of the table |
| TableSpec.UnionSize | lib/hi_operations.c:132-143 | The size of the map is the sum of the bucket sizes |
| TableSpec.BucketBound | lib/hi_operations.c:132-143 | No bucket is larger than the table |
| HandleOps.Handle.Get | lib/hi_operations.c:67-93 | hi_get answers as the map does, for each engine, and changes no bucket's map and makes no hole |
| HandleOps.Handle.Remove | lib/hi_operations.c:104-129 | hi_remove answers as the map does and leaves the map without the key; no_objects counts it modulo 2^32 |
| HandleOps.Handle.Lookup | lib/hi_operations.c:32-56 | hi_lookup succeeds exactly on a key of a list engine's table; the other engines always report failure, and find duplicates on insert |
| HandleOps.Handle.InsertHere | lib/hi_operations.c:161-181 | The dispatch of hi_insert answers as the map does and adds exactly the new pair |
| HandleOps.Handle.Insert | lib/hi_operations.c:152-182 | hi_insert, with the rehash it may cause, answers as the map does; the table size doubles exactly in an overloaded table that is not empty, unless a list engine finds the key first: a duplicate that a tree or an array refuses doubles the table too |
| HandleOps.Handle.DoRehash | lib/hi_operations.c:132-143 | Rehashing happens exactly above the threshold, doubles the table size of a table that is not empty and keeps map, no_objects and settings |
| HandleOps.Handle.Rehash | lib/lib_init.c:381-487 | A rehash to any positive size keeps the map, no_objects and all settings, with every key in the bucket of its hash modulo the new size, for lists, trees, and arrays without holes, which get none; an empty table is left alone with ErrNoData |
| HandleOps.Handle.Fill | lib/lib_init.c:459-472 | Rehashing of the new table is off while it is filled, and then as before |
| HandleOps.Handle.Refill | lib/lib_init.c:461-471 | The loop that inserts what the iterator returns ends with every entry in the new table and no insert refused |
| HandleOps.Handle.Adopt | lib/lib_init.c:482-484 | The old handle takes over all fields of the new one |
| HandleOps.Handle.RoomToGrow | lib/hi_array.c:250-263 | In a table of less than 2^31 entries no bucket overflows when it doubles |
| HandleOps.Iterator.Scan | lib/hi_iterator.c:77-117 | The next bucket with an entry is found with a complete snapshot, or there is none and nothing is left |
| HandleOps.Iterator.Take | lib/hi_iterator.c:77-117 | The iterator takes over the next snapshot; without one the old snapshot is gone but its count of slots stays |
| HandleOps.Iterator.Create | lib/hi_iterator.c:120-154 | An iterator over a non-empty table has the whole table before it; ErrNoData for an empty one |
| HandleOps.Iterator.Reset | lib/hi_iterator.c:156-182 | A reset starts a full pass over the table as it is now; ErrNoData for a table that has become empty, and then the iterator is usable if and only if its last snapshot was used up |
| HandleOps.Iterator.GetNext | lib/hi_iterator.c:185-224 | Each call returns one entry of what is left and leaves the rest; with nothing left it returns ErrNoData, and again on every later call |
| HandleOps.PendingWithout | lib/hi_iterator.c:185-224 | Taking an entry from the snapshot takes exactly that entry from what is left |
| Runs.Create | lib/lib_init.c:84-151 | The sanity checks: a table size of zero, a missing comparator or hash function, and an array capacity of zero give ErrNoData; otherwise the handle is valid and empty, without holes |
| Runs.OverloadedWhen | lib/hi_operations.c:139-142 | With a threshold in [0, 1), such as the default, the integer load factor exceeds it exactly when there are as many objects as buckets |
| Runs.RoomToInsert | lib/hi_operations.c:132-182 | While less than 2^31 entries, or few enough doublings, are to come, no insert overflows a 32-bit capacity or table size |
| Runs.Apply | lib/hi_operations.c:67-182 | One operation answers as the map does, no_objects <= table_size is kept in a table that rehashes itself, and only a remove makes holes |
| Runs.Run | lib/hi_operations.c:67-182 | Any sequence of inserts, gets and removes gets the answers of the finite map, for every engine, hash function and table size, rehashing or not; the load bound holds throughout, and without removes no array gets a hole |
| Runs.SameAnswers | lib/hi_operations.c:67-182 | Two tables with the same contents give the same answers to the same operations, whatever their engines |
| Runs.Pass | lib/hi_iterator.c:185-224 | A full pass returns every entry exactly once and then ErrNoData |
| Runs.PassAll | lib/hi_iterator.c:120-224 | A new iterator and a full pass return every entry of a table without holes exactly once, for every engine |
| Runs.PutAndPass | lib/hi_iterator.c:120-224 | After any inserts and gets on such a table, of any engine, a pass returns exactly what the finite map holds after them |
| SearchTree.NoDuplicates | lib/hi_rbtree.c:493-507 | An ordered tree holds one entry with a key at most, and holds it once |
| SearchTree.FindToward | lib/hi_rbtree.c:500-507 | A comparison finds the key, or leaves what the tree holds for the key in view |
| SearchTree.WithinToward | lib/hi_rbtree.c:500-507 | The search stays within the tree as it is |
| SearchTree.FindLinked | lib/hi_rbtree.c:514-515 | Linking a new entry changes what the tree holds for its key and for no other |
| SearchTree.FindUnlinked | lib/hi_rbtree.c:452-453 | Unlinking an entry takes what the tree holds for its key and for no other |
| TreeSteps.SeenOrdered | lib/hi_rbtree.c:493-507 | A tree of nodes whose in-order sequence is in order is an ordered search tree |
| TreeSteps.SeenFind | lib/hi_rbtree.c:493-507 | What a search finds in it is what the map of its entries holds |
| TreeSteps.InsertLinks | lib/hi_rbtree.c:493-516 | lhi_insert_rbtree on the heap succeeds exactly for a key that the search does not find; its answer is the Reply of the threads and its change of the tree is their step Linked |
| TreeSteps.RemoveUnlinks | lib/hi_rbtree.c:444-456 | lhi_remove_rbtree on the heap hands out the data that the search finds; its answer is the Reply of the threads and its change of the tree is their step Unlinked |
| TreeSteps.AtomicCalls | lib/hi_rbtree.c:431-526 | Reply and Effect of the threads are, on every finite map, the answer and the change of the atomic insert and remove that the sequential tables are proved against |
| Locking.KeepsOthers | lib/hi_rbtree.c:443-525 | The lock of a tree keeps other threads out: what one thread knows about its tree and counters stays true while another moves |
| Locking.KeepsTrees | lib/hi_rbtree.c:443-516 | Every step keeps every tree ordered and every key in the tree of its hash |
| Locking.KeepsSize | lib/hi_rbtree.c:456-516 | Every step keeps bucket_size equal to the number of keys up to the change in progress, although it is read and written in separate steps |
| Locking.KeepsCount | lib/hi_rbtree.c:456-524 | Every step keeps no_objects plus increments minus decrements that are due equal to the sum of bucket_size modulo 2^32 |
| Locking.StepKeeps | lib/hi_rbtree.c:431-526 | Every step of every thread keeps the whole invariant |
| Locking.RunKeeps | lib/hi_rbtree.c:431-526 | In every interleaving of any number of threads the invariant holds at the end of every run |
| Locking.Safe | lib/hi_rbtree.c:431-526 | The trees together hold one entry with a key at most, each in the tree of its hash modulo their number, no two threads hold the same lock, and the counters agree up to what is due |
| Locking.AgreeWhenIdle | lib/hi_rbtree.c:431-526 | With all threads idle, no_objects is the sum of the bucket sizes and each of those the number of keys of its tree, modulo 2^32 |
| Locking.CallsAreAtomic | lib/hi_rbtree.c:443-525 | Each call decides its return value and data pointer, and changes the map of keys to data pointers, in one single step, as the atomic operation on that map would |
| Locking.RunIsSerial | lib/hi_rbtree.c:431-526 | Every run of any number of threads is serial: its calls, in the order in which they took effect, get the return values and data pointers of calls made one after the other, and leave the same map |
| Locking.EveryRunIsSafe | lib/hi_rbtree.c:431-526 | Safety and agreement of the counters in every run from any sound table |
| Sha1.LowRot | lib/hash_func_sha1.c:112-112 | The rotation macro is right on the low 32 bits of an unmasked 64-bit word |
| Sha1.LowF | lib/hash_func_sha1.c:132-210 | The rewritten round functions equal those of section 5 of FIPS 180-1 on the low 32 bits |
| Sha1.LowNext | lib/hash_func_sha1.c:121-124 | The sum of the macro P is TEMP of section 7 on the low 32 bits, whatever the high bits hold |
| Sha1.SlideWord | lib/hash_func_sha1.c:114-119 | The word that the macro R computes from the circular buffer is the next word of the 80-word schedule |
| Sha1.Slide | lib/hash_func_sha1.c:114-119 | Replacing the oldest word keeps the buffer equal to the last sixteen words of the schedule |
| Sha1.P | lib/hash_func_sha1.c:121-124 | One line with renamed registers is one round of section 7 |
| Sha1.WordAt | lib/hash_func_sha1.c:135-234 | Line t takes word t of the schedule |
| Sha1.Lines | lib/hash_func_sha1.c:135-234 | The eighty lines are the eighty rounds |
| Sha1.Context.Process | lib/hash_func_sha1.c:91-245 | Processing a block is the compression function of section 7 |
| Sha1.Context.Absorb | lib/hash_func_sha1.c:267-289 | The buffered update leaves the state of all whole blocks and the rest of the message in the buffer |
| Sha1.Context.Update | lib/hash_func_sha1.c:250-289 | An update appends its bytes to the message that the context stands for; a count that is not positive appends nothing |
| Sha1.Carry | lib/hash_func_sha1.c:261-265 | The two 32-bit totals, with the carry, hold the length modulo 2^64 |
| Sha1.LengthWords | lib/hash_func_sha1.c:308-310 | The length words joined with a bitwise or are the sums and products that LengthBytes speaks of |
| Sha1.LengthBytes | lib/hash_func_sha1.c:308-313 | The two length words are the length field of the padding; LengthWorth says what its bytes are worth |
| Sha1.LengthWorth | lib/hash_func_sha1.c:308-313 | The bytes of the length field, read as a number with the highest byte first, are worth the length in bits modulo 2^64 |
| Sha1.WordWorth | lib/hash_func_sha1.c:67-73 | The four bytes that PUT_ULONG_BE writes are worth the number written |
| Sha1.WordBytesWorth | lib/hash_func_sha1.c:67-73 | Reading the four bytes of a word back with the highest byte first gives the word |
| Sha1.Context.Ending | lib/hash_func_sha1.c:308-316 | The eight length bytes, read as a number with the highest byte first, are the length in bits modulo 2^64, and the padding count is the fewest zeros plus one, so that the message ends on a block boundary |
| Sha1.Context.Finish | lib/hash_func_sha1.c:302-326 | The result is the digest of FIPS 180-1 of everything given before |
| Sha1.Sum160 | lib/hash_func_sha1.c:331-340 | One call hashes its input |
| Sha1.InParts | lib/hash_func_sha1.c:250-326 | However a message is split into updates, the digest is that of the whole message |
| Sha1.HashSha1 | lib/hash_func_sha1.c:343-349 | A key of less than 2^31 bytes gets the first word of its digest; a longer one gets that of the empty message, because its length turns negative |
| Sha1Spec.FewestZeros | lib/hash_func_sha1.c:315-318 | The padding that ends on a block boundary has the fewest zeros |
| Sha1Known.DigestOfAbc | lib/hash_func_sha1.c:91-326 | A known answer: the digest of abc, as twenty literal bytes; it fixes the constants, the rotations, the round functions and the byte order that code and standard share |
| Sha1Known.Answers | lib/hash_func_sha1.c:331-349 | sha1 of abc is that digest, and lhi_hash_sha1 of abc is 0x363E99A9 |
| Murmur.SpliceBytes | lib/hash_func_murmur.c:54-64 | The carried word shifted right and the next word shifted left give the bytes of both in order, for every alignment |
| Murmur.Carries | lib/hash_func_murmur.c:63-63 | An aligned word carries over its last bytes |
| Murmur.CarriesFirst | lib/hash_func_murmur.c:39-48 | The bytes before the first aligned word are carried the same way |
| Murmur.HashUnaligned | lib/hash_func_murmur.c:33-99 | For every key of at least four bytes and every alignment 1 to 3 the unaligned path computes the hash of the bytes, in both tail branches |
| Murmur.TailBytes | lib/hash_func_murmur.c:122-127 | The tail switch mixes in the last bytes as one word |
| Murmur.Hash2 | lib/hash_func_murmur.c:102-129 | The hash depends on the bytes of the key and not on its address |
| Murmur.MagicInverts | lib/hash_func_murmur.c:15-31 | Multiplying by 0xE59B19BD undoes the multiplication by the magic number |
| Murmur.Answers | lib/hash_func_murmur.c:102-129 | Known answers at every alignment: 0x92685F5E for a and 0x26873021 for abcd with seed 0, 0x0AFA6525 for abcdefg with seed 1 |
| MersenneTwister.NewWordIs | localhash/mt.c:54-57 | mixBits, the shift and the low bit of s1 are the multiplication by the matrix of MT19937 |
| MersenneTwister.NextTerm | localhash/mt.c:144-150 | The word stored in place of term n is term n + 624 of the recurrence |
| MersenneTwister.Recurrence | localhash/mt.c:144-150 | The recurrence in numerals: term i + 624 is term i + 397 combined with the high bit of term i and the low bits of term i + 1, shifted, and with 0x9908B0DF when term i + 1 is odd |
| MersenneTwister.Generator.SeedMt | localhash/mt.c:112-116 | Seeding fills the state with the terms of Knuth's generator from an odd start |
| MersenneTwister.SeededTerms | localhash/mt.c:112-116 | The first term is the seed made odd, and multiplying each further term of the first 624 by 2783094533, the inverse of 69069, gives the term before it |
| MersenneTwister.Generator.Refill | localhash/mt.c:144-150 | The three-part reload in place turns each batch into the next one and never uses an overwritten word for an old one |
| MersenneTwister.Generator.ReloadMt | localhash/mt.c:134-155 | A reload seeds a generator that was never seeded with 4357 and returns the first tempered term of the new batch |
| MersenneTwister.Generator.RandomMt | localhash/mt.c:158-170 | Number k drawn after seeding is the tempered term 624 + k, and the counters stay in step |
| MersenneTwister.Draw | localhash/mt.c:64-170 | The first count numbers after a seed are the tempered terms 624, 625, ... |
| MersenneTwister.FirstDraw | localhash/mt.c:134-170 | A known answer: the first number after seeding with 4357 is 3510405877, and so is that of a generator that was never seeded |
| MersenneTwister.TemperingInverts | localhash/mt.c:166-169 | Tempering loses nothing: it has an explicit inverse |
| Jenkins.LineInverts | lib/hash_func_jenkins3.c:113-121 | Each line of mix is undone by an explicit inverse |
| Jenkins.MixIsReversible | lib/hash_func_jenkins3.c:71-121 | mix is a bijection, as its comment claims, by an explicit inverse on both sides |
| Jenkins.Mixed | lib/hash_func_jenkins3.c:113-121 | The eighteen assignments are the six lines with turned registers |
| Jenkins.StirInverts | lib/hash_func_jenkins3.c:148-157 | Each line of final is undone by an explicit inverse |
| Jenkins.FinalIsReversible | lib/hash_func_jenkins3.c:148-157 | final is a bijection of the three registers, by an explicit inverse on both sides |
| Jenkins.Finished | lib/hash_func_jenkins3.c:148-157 | The fourteen assignments of final, one by one, are the seven lines with turned registers |
| Jenkins.AddFour | lib/hash_func_jenkins3.c:202-204 | A block word added in one 32-bit chunk, two 16-bit chunks or four bytes is the same word |
| Jenkins.AddLast | lib/hash_func_jenkins3.c:240-255 | Each case of the switch over the last block, with what it falls through to, adds the bytes of a zero-padded word |
| Jenkins.LastBlock | lib/hash_func_jenkins3.c:275-303 | All thirteen tail lengths add the same zero-padded block |
| Jenkins.HashLittle | lib/hash_func_jenkins3.c:186-350 | The 32-bit, 16-bit and byte-wise paths compute the same hash of the bytes for every key and length |
| JenkinsKnown.Answers | lib/hash_func_jenkins3.c:186-350 | Known answers at every address: 0xDEADBEEF for the empty key, 0x58D68708 for a, 0x17770551 for Four score and seven years ago with initval 0, and 0xCD628161 with initval 1 |
| SkeinSpec.MixInverts | lib/hash_func_skein256.c:896-898 | A round is undone by an explicit inverse |
| SkeinSpec.ThreefishIsBijective | lib/hash_func_skein256.c:885-990 | For every key and tweak the 72 rounds with their injections are a bijection, by an explicit inverse on both sides |
| SkeinSpec.KeyParity | lib/hash_func_skein256.c:873-877 | The first four key words are the chaining words, and the exclusive or of all five is 0x5555555555555555 |
| Skein256.Round256 | lib/hash_func_skein256.c:896-898 | The round macro with renamed registers is a round of Threefish-256 with its permutation |
| Skein256.I256 | lib/hash_func_skein256.c:905-910 | The injection macro adds subkey R + 1 |
| Skein256.FourRounds | lib/hash_func_skein256.c:929-938 | Four rounds and an injection are four rounds of Threefish-256 |
| Skein256.Cipher | lib/hash_func_skein256.c:885-985 | The code between load and feed-forward is Threefish-256 |
| Skein256.NumAdd | lib/hash_func_skein256.c:870-870 | The position in the tweak adds up the byte counts modulo 2^64 |
| Skein256.FlagsChange | lib/hash_func_skein256.c:998-998 | Clearing the first flag and setting the final flag give the tweak flags of UBI |
| Skein256.StepsAre | lib/hash_func_skein256.c:868-1000 | Blocks processed one after another are the chain of UBI |
| Skein256.Context.OneBlock | lib/hash_func_skein256.c:868-998 | One turn of the block loop, with tweak and feed-forward |
| Skein256.Context.ProcessBlock | lib/hash_func_skein256.c:831-1003 | The block loop |
| Skein256.Context.AllButLast | lib/hash_func_skein256.c:1141-1166 | The last block is always held back, full or not |
| Skein256.Context.Update | lib/hash_func_skein256.c:1134-1176 | An update appends its bytes to the message that the context stands for |
| Skein256.SameMessage | lib/hash_func_skein256.c:1134-1176 | Contexts given the same bytes in any parts agree on chaining words, tweak, byte count and live buffer, and hold back a block |
| Skein256.Context.ZeroPad | lib/hash_func_skein256.c:1188-1190 | The unused part of the buffer is filled with zeros and the rest kept |
| Skein256.Context.Final | lib/hash_func_skein256.c:1180-1214 | The result depends on the whole message alone: it is the output of UBI |
| Skein256.InParts | lib/hash_func_skein256.c:1134-1214 | However a message is split into updates, the hash is that of the whole |
| Skein256.HashSkein | lib/hash_func_skein256.c:1304-1315 | The hash of a key of less than 2^29 bytes; of a longer key only its length modulo 2^29 bytes are hashed, because the bit length is a 32-bit product |
| SkeinKnown.StartValue | lib/hash_func_skein256.c:664-669 | The stored start value is what UBI makes of the configuration block from zero chaining words: the schema SHA3 with version 1, 256 bits of output, sequential tree |
| SkeinKnown.HashIs | lib/hash_func_skein256.c:1180-1214 | A known answer: the 256-bit hash of the one byte 0xFF, as 32 literal bytes; it fixes the tweak, the rotations, the key words and the byte order |
| SkeinKnown.Answers | lib/hash_func_skein256.c:1304-1315 | lhi_hash_skein256 of the one byte 0xFF returns the bytes A4 7B E7 1A |
| Bloom.TestSet | lib/hi_bloom_filter.c:92-95 | Setting a bit of a byte sets that bit and no other |
| Bloom.Digits | lib/hi_bloom_filter.c:92-95 | A byte is the sum of the powers of two of the bits that Test finds set, so bit i is the bit of the mask 1 << i |
| Bloom.MapsAfter | lib/hi_bloom_filter.c:91-95 | Byte bit / 8 and mask bit & 7 are the place of the bit: setting it adds exactly that bit to the set the map stands for |
| Bloom.Filter.SetOne | lib/hi_bloom_filter.c:89-95 | Either the bit is new, or a collision is counted; no bit is cleared |
| Bloom.Filter.Add | lib/hi_bloom_filter.c:78-97 | Exactly the bits of the key are set in addition, and n and bit_collision count modulo 2^32 |
| Bloom.Filter.Check | lib/hi_bloom_filter.c:112-129 | The answer is yes exactly when all bits of the key are set, and so for every key that was added |
| Bloom.Filter.Accounting | lib/hi_bloom_filter.c:78-97 | The number of set bits plus bit_collision is k times n modulo 2^32 after any run of adds |
| Bloom.Create | lib/hi_bloom_filter.c:228-259 | The range checks on the number of bits and of hash functions; a new filter has no bit set |
| CubeHash.HalfRoundInverts | lib/hash_func_cube.c:30-35 | Half a round is undone by an explicit inverse |
| CubeHash.TransformIsBijective | lib/hash_func_cube.c:23-43 | The transformation is a bijection for any number of rounds, by an explicit inverse on both sides |
| CubeHash.SpreadLoop | lib/hash_func_cube.c:31-31 | The loop that scatters to y[i ^ m] exchanges words without losing one |
| CubeHash.SixLoops | lib/hash_func_cube.c:30-35 | Six loops in place are half a round |
| CubeHash.Transform | lib/hash_func_cube.c:23-43 | The loops in place are 8 rounds, and the old state can be computed back from the new one |
| CubeHashKnown.KnownRound | lib/hash_func_cube.c:23-43 | A known answer: one round on the words 0 to 31, with all 32 words of the result written out; it fixes the order of the six steps, the rotations by 7 and 11 and the exchanges |

## Left out

- The LIST_HASH and LIST_MTF_HASH engines: insert never stores the second hash,
  the move-to-front variant tests it for inequality, and lookup falls through to
  a missing key (lib/hi_list.c:102-115, 278-301, 339-341), so these engines do
  not implement a map.
- ARRAY_HASH, ARRAY_DYN and ARRAY_DYN_HASH: get and remove are unfinished
  (lib/hi_array.c:88-96).
- Iteration over, and rehashing of, ARRAY tables with holes among the first
  slots, beyond the exact condition above: slots of such a snapshot are never
  written, and what the iterator then returns is whatever the memory holds.
- The `keys_length` slots of snapshots, which the array engine writes at a
  different index (lib/hi_array.c:216), and key lengths in general: a key is one
  value. The parallel arrays of a snapshot are one array of optional entries.
- Failing allocation, freeing memory, finalisers, error strings and the set-up
  of locks. HI_ERR_SYSTEM stands for FAILURE where hi_lookup returns it.
- Locks in the sequential model; the move-to-front get unlocks a mutex that it
  did not lock (lib/hi_list.c:237-258).
- Locking: get of the tree engine reads the root before it locks
  (lib/hi_rbtree.c:351-354), insert of the list engines looks up and inserts
  under separate locks (lib/hi_operations.c:156-166), and rehashing is not
  protected; these are not among the modelled threads. The rebalancing of a tree
  is one step under its lock, and a searching thread sees the tree as a value,
  which no other thread changes while it holds the lock.
- Per-bucket fields that the source keeps in parallel arrays are grouped into
  one object for each bucket.
- The 32-bit comparators of lib/cmp_funcs.c as orders: their subtraction wraps.
- The threshold of automatic rehashing is a real number, and the load factor the
  integer quotient; rounding of large quotients to `float` is not modelled.
- HandleOps.Handle.Insert: asks that a table that is overloaded can be rehashed,
  as below, and that doubling its size, or a full array bucket, stays within 32
  bits, because the code does not check its doublings.
- HandleOps.Handle.DoRehash: asks the same of an overloaded table.
- HandleOps.Handle.Rehash: asks for buckets of less than 2^32 entries, and for an
  ARRAY table for no hole and less than 2^31 entries: otherwise snapshots are
  incomplete, or a bucket of the new table may double beyond 32 bits.
- HandleOps.Handle.Fill: asks the same of the table that is copied.
- HandleOps.Iterator.Create: asks for buckets whose snapshots are complete: less
  than 2^32 entries, and no hole in an array.
- HandleOps.Iterator.Reset: asks the same.
- Runs.Run: asks that the operations to come cannot double a 32-bit capacity or
  table size beyond its range, and for no hole and no remove in an ARRAY table
  that rehashes itself; `Room` states it before the run.
- ListEngine.ListBucket.ToArray: asks for less than 2^32 entries or a multiple of
  2^32; with a wrapped counter that is not zero the loop writes beyond the
  snapshot.
- Bloom.Filter.Add: asks for a filter of at least one bit if there is a hash
  function; initialisation accepts zero bits, and the code would then divide by
  zero. hi_bloom_bit_get and the floating-point probabilities are not part of
  this model.
- Bloom.Filter.Check: asks the same.
- Skein: keyed and tree modes, partial bytes, start values for other output
  lengths, and the 512 and 1024-bit variants.
- Mersenne Twister: seeding from the operating system and Gaussian numbers.
- CubeHash: initialisation, update and output around the transformation.
- The simple byte-loop hashes, the Goulburn tables, the typed key wrappers, and
  everything under analysis/ and tests/.
