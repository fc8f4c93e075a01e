# Gateway components, modelled and verified

A Dafny model of five parts of a gateway's C code, with proofs about it.

* **The intrusive hash table** (`inc/uthash.h`). Every item sits in a doubly linked list in
  application order and in the chain of one bucket. `UtHash.HashTable` is the table, a class over
  heap nodes (`Entries.Entry`); `MergeSort`, `AppList` and `Buckets` are the in-place algorithms it
  uses; `StableSorting`, `Chains`, `Lookups`, `KeyMaps` and `Bits` say what these mean. `Valid()` is
  the double-structure invariant: both structures properly linked, the same items in both, each
  once and in the bucket its hash value selects, counts and tail right, the growth policy's bound on
  every chain, the Bloom filter's bits set. Every operation keeps it; additions, deletions,
  replacements, the sort and the clearing state the whole table state they leave, and exactly when
  memory runs out. `TableRuns` lifts this to whole runs.
* **The sub-device address table** (`subdev_address_hash.c`). `Subdev` is its sequential form over
  the hash table, with the mark-and-sweep comparison. `SubdevSystem` is its concurrent form: one
  device thread that adds and deletes, looking entries up before it locks and freeing them after it
  has unlocked, one cloud thread that marks and sweeps, and any number of threads that look up and
  list, one step at a time in any interleaving. `SubdevSafety` and `SubdevRuns` prove every run
  safe and linearizable, `SubdevProgress` that calls fail only when refused something and can always
  be finished, `SubdevMaps` reads the sequential operations as map operations, and
  `SubdevSpec` proves that the form over the hash table implements those same operations, over any
  run; `SubdevReplay` joins the two: it answers as the threads of any interleaving were answered.
  `SubdevDuplicates` follows an address that is too long through an expansion.
* **The persistent key-value file** (`mapfile.c`). `KvFile.KvStore` is the file, byte by byte;
  `KvRows` the two-slot rows and the three scans; `KvRuns` what runs of operations mean as a map
  and where the file stops being one; `KvPrefixes` the exact conditions for keys of which one is a
  prefix of another; `KvHash` what the key hash computes.
* **The dispatcher** (`dispatch.c`). `Routing` is the protocol as a state machine with what every
  run of it keeps, `RoutingOrder` the order in time, `RoutingLedger` what a run amounts to read from
  its events alone, `RoutingDelivery` whom a message goes to, and `Dispatch.Dispatcher` the table of
  channels and the scan loop, each operation of which is a step of the protocol.
* **The bounded log** (`log_util.c`). `LogUtil.LogFile` is the file, its offset and the rewind.

## Results that are not plain confirmations

* `mapfile.c`: deleting the first of two keys of a row hides the second (`KvRuns.HoleRun`,
  `KvRuns.HoleExample`); the exact condition is `KvRuns.RmRefines`. Keys are compared as prefixes
  (`KvRuns.PrefixRun`, `KvRuns.PrefixExample`); the exact conditions are in `KvPrefixes`.
* `dispatch.c`: messages can be read out of order when a channel is deleted without its local
  descriptor and registered again (`RoutingOrder.CarelessOutOfOrder`); the exact condition is
  `RoutingOrder.InOrderIff`, and closing the old end rules it out (`RoutingOrder.CarefulInOrder`).
* `subdev_address_hash.c`: an address of more than 16 characters is stored cut and never found
  again (`SubdevSpec.AddedIsFoundIff`, `SubdevSpec.LongAddressExample`).
* `inc/uthash.h`: an expansion turns every chain round, so a lookup of a key that is held more than
  once answers another item afterwards (`SubdevDuplicates.LookupChanges`, with an address of 17
  characters); the exact condition is `Lookups.ExpansionKeepsLookupIff`.
* `log_util.c`: with a size limit below 1024 a single record may exceed it; the exact condition is
  in `LogUtil.LogFile.LogPrintf` (and see `LogUtil.SmallLimitExample`).
* `inc/uthash.h`: a replacement that runs out of memory has already removed the old item
  (`TableRuns.LostInReplacement`); the exact condition is in `UtHash.HashTable.Replace`.
  The merge count of a sorting pass is n / (2 * insize), rounded up.
* `dispatch.c:54` uses `MODULE_ID_MAIN_CONSOLE`, which `inc/dispatch.h` does not declare; the model
  takes the first module as a parameter. `inc/dispatch.h:35` gives the result of a registration as
  `>= 0`; descriptor 0 means "none" in the code, so descriptors are positive here.

## Model

| member | source | states |
|---|---|---|
| StableSorting.MergeInsert | inc/uthash.h:923-963 | Merging two runs commutes with inserting one more item into the right one; it needs a total preorder, not sorted runs. This is why merging with ties taken from the left is stable. |
| StableSorting.MergeIsSort | inc/uthash.h:923-963 | Merging two sorted neighbouring blocks gives the stable sort of their concatenation. |
| StableSorting.PassDoubles | inc/uthash.h:906-965 | One pass over blocks of n sorted items leaves blocks of 2n sorted items: the pass invariant of the bottom-up sort. |
| StableSorting.StableSortIsStable | inc/uthash.h:892-978 | The reference sort is sorted, a permutation, and keeps every group of ties in its old order. |
| StableSorting.StableSortUnique | inc/uthash.h:892-978 | A list is the result of the sort if and only if it is sorted and orders every group of ties as the input does, so the contract of the sort determines its result. |
| MergeSort.TakeNext | inc/uthash.h:924-962 | One iteration of the merge loop moves exactly the next item of the merge to the output and keeps the three partial lists linked and apart, in each of its four branches. |
| MergeSort.MergeRuns | inc/uthash.h:923-963 | The merge loop relinks two runs in place into their merge and leaves the rest of the list reachable. |
| MergeSort.CutRun | inc/uthash.h:912-921 | Stepping over a run stops after insize items or at the end of the list, with the right count. |
| MergeSort.MergePair | inc/uthash.h:911-964 | One round of a pass cuts off two runs and appends their merge to the output. |
| MergeSort.Pass | inc/uthash.h:906-968 | A pass relinks the list into the merge of its neighbouring runs, `prev`, `next` and tail included, and counts the pairs it merged. |
| MergeSort.PairsIsCeil | inc/uthash.h:909-911 | The count of merges of a pass is n / (2 * insize) rounded up; so it is at most one exactly when the list is one sorted block afterwards. |
| MergeSort.SortList | inc/uthash.h:901-975 | The sort terminates and leaves the same items, properly doubly linked with head and tail right, in the order of the stable sort, changing only `prev` and `next`. |
| Bits.MaskIsMod | inc/uthash.h:434-437 | Masking a hash value with num_buckets - 1 is its remainder, because num_buckets is a power of two. |
| Bits.IdealIsCeil | inc/uthash.h:821-838 | The ideal chain length by shift and mask is the number of items over the number of buckets, rounded up. |
| Bits.CeilDivBounds | inc/uthash.h:821-838 | The rounded-up quotient is the least number of items per bucket that holds all of them. |
| Bits.SplitBucket | inc/uthash.h:859-861 | An item of bucket i of n buckets belongs to bucket i or i + n of 2n buckets. |
| Chains.PlacedAdd | inc/uthash.h:773-782 | Putting an item at the head of its bucket and anywhere in the list keeps list and chains holding the same items, each once, each in the bucket its hash value selects. |
| Chains.PlacedRemove | inc/uthash.h:795-808 | Removing an item from both structures keeps that correspondence. |
| Chains.PlacedPermuted | inc/uthash.h:896-978 | Reordering the list keeps it, so a sort does not touch the chains. |
| Chains.TotalIsListLength | inc/uthash.h:540-549 | The chain lengths add up to the number of listed items. |
| Chains.RedistributedStep | inc/uthash.h:857-875 | One item moved is one item pushed to the front of its new chain. |
| Chains.PlacedRedistributed | inc/uthash.h:855-876 | Doubling the buckets keeps every item, in the bucket where a search looks for it. |
| Lookups.ExpansionFinds | inc/uthash.h:855-876 | The expansion turns every chain round: a search afterwards finds, of the items under its key, the one that was last in the old chain. |
| Lookups.FirstIsOldestIff | inc/uthash.h:751-770 | In one chain the first and the last item under a key are the same if and only if it holds the key at most once. |
| Lookups.HeldOnceInChain | inc/uthash.h:157-177 | The table holds a key at most once if and only if the one chain that is searched for it does. |
| Lookups.ExpansionKeepsLookupIff | inc/uthash.h:855-876 | An expansion leaves the result of a search as it is if and only if at most one item of the table has the key. |
| Chains.ExcessUpdate | inc/uthash.h:862-863 | Counting one more item changes the number of nonideal items exactly when its new chain is beyond the ideal length. |
| Chains.ExpandMultStep | inc/uthash.h:862-866 | The step-by-step expand_mult of the loop equals a closed form of the chain length. |
| Chains.ExpandMultRange | inc/uthash.h:862-866 | expand_mult is 0 for chains up to the ideal length and otherwise between ceil(count/ideal) - 1 and ceil(count/ideal). |
| Buckets.PushFront | inc/uthash.h:777-782 | Linking an item in at the head of a bucket keeps every chain doubly linked and every other bucket as it is. |
| Buckets.DelInBkt | inc/uthash.h:795-808 | Removes an item from its chain; an item with null links that is in no chain, as the rollback leaves it, only costs one count. |
| Buckets.MoveNext | inc/uthash.h:858-874 | Moving one item breaks no link that the loop still has to follow. |
| Buckets.MoveChain | inc/uthash.h:857-875 | The inner loop moves one whole old chain. |
| Buckets.MoveAll | inc/uthash.h:855-876 | The expansion loops leave the chains of the doubled table, with counts, multipliers and the number of nonideal items as specified for them. |
| AppList.Append | inc/uthash.h:282-288 | Appending behind the tail yields the doubly linked list with the item at the end. |
| AppList.FindPlace | inc/uthash.h:290-297 | The walk stops at the first item the comparator puts after the new one. |
| AppList.PlaceIsInsert | inc/uthash.h:290-297 | Inserting there is one step of the stable sort. |
| AppList.InsertBefore | inc/uthash.h:371-378 | Linking in front of an item, in the middle or at the head, yields the doubly linked list with the item there and the right head. |
| AppList.Unlink | inc/uthash.h:465-475 | Unlinking yields the doubly linked list without the item, with head and tail right in all four cases. |
| KeyMaps.AddUpdates | inc/uthash.h:400-419 | Adding an item under a new key, wherever it goes in the list, updates the map from keys to items at that key. |
| KeyMaps.RemoveErases | inc/uthash.h:454-481 | Removing an item removes exactly its key from the map. |
| UtHash.HashTable.constructor | inc/uthash.h:251-263 | A null head pointer is the valid empty table. |
| UtHash.HashTable.ExpandBuckets | inc/uthash.h:839-889 | Doubles the buckets with the exact growth counters, every item in the bucket that a search for it looks at; a search then finds the item that was last in its chain under the key; a failed allocation changes nothing. |
| UtHash.HashTable.IdealChainLength | inc/uthash.h:852-854 | Computes the rounded-up quotient for the doubled table. |
| UtHash.HashTable.Adopt | inc/uthash.h:877-888 | Sets num_buckets = 2^log2_num_buckets to the double and inhibits growth after two ineffective expansions. |
| UtHash.HashTable.AddToBkt | inc/uthash.h:773-792 | Adds to the bucket; expands exactly when the threshold is reached and growth is not inhibited; on a failed expansion the table, its counts and links included, is as before. |
| UtHash.HashTable.RollbackBkt | inc/uthash.h:142-150 | Prepares a rolled-back item so that deleting it is harmless to its bucket. |
| UtHash.HashTable.UnlinkInList | inc/uthash.h:465-475 | The list half of a deletion. |
| UtHash.HashTable.UnlinkInBucket | inc/uthash.h:476-478 | The bucket half of a deletion, of a chained or a rolled-back item. |
| UtHash.HashTable.DeleteHH | inc/uthash.h:454-481 | Frees the table exactly when the item is alone in it; otherwise states the whole new state. |
| UtHash.HashTable.UndoAdd | inc/uthash.h:324-328 | After a failed expansion the rollback and deletion restore list, tail, chains, counts and number of items; the table is not freed. |
| UtHash.HashTable.LoneItemFits | inc/uthash.h:783-785 | The first item of a table never triggers an expansion, which is why the undo path never frees the table. |
| UtHash.HashTable.PolicyKept | inc/uthash.h:783-785 | An addition keeps the bound on every chain while growth is not inhibited: count < 10 * (expand_mult + 1) or count <= (expand_mult + 1) * ideal_chain_maxlen. |
| UtHash.HashTable.GrowsIffCrowded | inc/uthash.h:783-785 | How long growth is delayed: an addition doubles the buckets, and needs memory for that, exactly if its bucket then holds at least 10 * (expand_mult + 1) items and growth is not inhibited. |
| UtHash.HashTable.InhibitedIff | inc/uthash.h:877-888 | Growth is inhibited for good exactly when two expansions in a row have left more than half of the items beyond the ideal chain length. |
| UtHash.HashTable.NewTableIs | inc/uthash.h:216-246 | After its first item a table has 32 buckets, one item, and all growth counters at zero. |
| UtHash.HashTable.BloomAdd | inc/uthash.h:199-203 | Sets the bit of the new item and changes no other. |
| UtHash.HashTable.AddToTable | inc/uthash.h:317-337 | The bucket half of an addition: a valid table, or on failure the state without the item. |
| UtHash.HashTable.MakeTable | inc/uthash.h:216-246 | Makes the empty table record of 32 buckets; each of the three allocations may fail, and then nothing is changed. |
| UtHash.HashTable.StartList | inc/uthash.h:406-412 | The first item: the head pointer is set only when the table could be made. |
| UtHash.HashTable.AppendItem | inc/uthash.h:282-288 | The list half of an appending addition. |
| UtHash.HashTable.PlaceItem | inc/uthash.h:368-381 | The list half of an in-order addition, in its front, middle and append cases. |
| UtHash.HashTable.Add | inc/uthash.h:400-419 | Keeps the double-structure invariant and appends the item; fails exactly when memory is short, and then the whole table state is as before; otherwise chains, buckets, every counter and the filter are those of the present table, or of a new one for a null head pointer, with the item entered and the table grown exactly when that was due, never once growth is inhibited. |
| UtHash.HashTable.AddInorder | inc/uthash.h:354-385 | The same for an in-order addition, to a table or to a null head pointer: the list is the stable insertion into the old one. |
| UtHash.HashTable.TableAfterDelete | inc/uthash.h:464-479 | Deleting from both structures and the counters leaves a table in order, Bloom filter and growth policy included. |
| UtHash.HashTable.Delete | inc/uthash.h:451-481 | Keeps the invariant and leaves exactly the old state without the item: its own chain loses it, its bucket one count, and all other buckets, expand_mult values and growth counters stay; deleting the last item, and only that, returns to the null head pointer. |
| UtHash.HashTable.Resorted | inc/uthash.h:896-978 | Reordering the list keeps the rest of the table in order. |
| UtHash.HashTable.Sort | inc/uthash.h:896-978 | The list becomes its stable sort; chains, buckets, counters and filter are unchanged, and the table stays valid. |
| UtHash.HashTable.Clear | inc/uthash.h:1043-1052 | Frees the table without touching the items: the head becomes null, list, chains, buckets and filter are gone, and the table can be added to again. |
| UtHash.HashTable.BloomTest | inc/uthash.h:205-206 | The filter lets every search through whose key is in the table; without a filter it lets all through. |
| UtHash.HashTable.FindInBkt | inc/uthash.h:751-770 | Returns the first item of the chain with the key, although it compares keys only when hash value and length agree. |
| UtHash.HashTable.FoundIsMember | inc/uthash.h:157-177 | The one chain that is searched decides about the whole table; under unique keys the result is the lookup in the map from keys to items. |
| UtHash.HashTable.AdditionFinds | inc/uthash.h:400-419 | What a search finds after an addition: without growth the new item under its own key and what it found before under any other; with growth the result for another key stays if and only if at most one item has that key, and the new item is found if and only if its key is new. |
| UtHash.HashTable.Find | inc/uthash.h:157-177 | With and without the Bloom filter the result is the same: the first match, null if and only if no item has the key, and the map lookup under unique keys. |
| UtHash.HashTable.CheckChain | inc/uthash.h:529-539 | The integrity check accepts every properly linked chain. |
| UtHash.HashTable.CheckList | inc/uthash.h:550-561 | The integrity check accepts every properly linked list. |
| UtHash.HashTable.Fsck | inc/uthash.h:520-567 | The table's own integrity check never finds fault with a valid table. |
| UtHash.HashTable.Replace | inc/uthash.h:258-273 | Takes out the item under the same key, if any, and appends the new one, with the whole state left; fails exactly when the addition that follows is short of memory, each case by its guard (nothing to take out, the only item taken out, a full bucket that loses one and gains one); a failed replacement leaves the list as it was if and only if it had nothing to take out. |
| UtHash.HashTable.ReplaceInorder | inc/uthash.h:248-256 | The same with the new item placed by the comparator. |
| UtHash.HashTable.RemovedFits | inc/uthash.h:258-273 | The guards that decide about a replacement, read before it, are those of the addition after the deletion. |
| TableRuns.LostInReplacement | inc/uthash.h:258-273 | A replacement of the only item for which a new table cannot be made, whichever of its allocations fails: it fails, and the table has lost the old item. |
| UtHash.HashTable.Links | inc/uthash.h:1066-1068 | What iteration relies on: the list can be followed from the head pointer to the end. |
| TableRuns.OnListRefines | inc/uthash.h:248-273 | Each operation on the list of items, in-order replacement included, is one operation on the map from keys to items, and keeps the keys unique. |
| TableRuns.RunRefines | inc/uthash.h:248-419 | So does every run of additions, replacements, both also in order, deletions, sorts and clearings, with any failures of memory. |
| TableRuns.Perform | inc/uthash.h:354-481 | For every operation in every valid state, the table does to its list what the list semantics says, fails exactly when memory is short, and leaves exactly the state the operation should: links, chains, buckets, counters and filter. |
| TableRuns.PerformAll | inc/uthash.h:354-481 | Every run from an empty head pointer keeps the double-structure invariant, leaves the list of the run and stands for the map of the run; every operation of it moves the whole state as it should and fails exactly when memory is short, so none fails while memory lasts. |
| TableRuns.MoveInhibited | inc/uthash.h:783-785 | No single operation that leaves a table changes the number of buckets once growth is inhibited, replacements included, and growth stays inhibited. |
| TableRuns.StaysInhibited | inc/uthash.h:877-889 | Over every run: once noexpand is set, num_buckets stays until an operation takes out the only item, or clears the table, and so frees it. |
| TableRuns.InOrderIsAppendThenSort | inc/uthash.h:354-385 | A list built by in-order additions is the list built by appending the same items and sorting. |
| TableRuns.BuildInOrder | inc/uthash.h:354-385 | Items added in order to an empty table while memory lasts leave exactly their stable sort as the list of the table. |
| TableRuns.BuildThenSort | inc/uthash.h:896-978 | So do items that are appended and then sorted. |
| Subdev.MarkedMeans | subdev_address_hash.c:168-232 | An entry counts as marked if and only if some successful find_ex of it came after its insertion and after the last sweep. |
| Subdev.SubdevHash.FindEx | subdev_address_hash.c:168-200 | Answers the device type or 65535, marks exactly the entry found, and changes nothing else. |
| Subdev.SubdevHash.Find | subdev_address_hash.c:80-111 | Answers the device type of the entry found, or 65535, and changes nothing. |
| Subdev.SubdevHash.Add | subdev_address_hash.c:22-76 | Updates the device type of an entry that is found, or appends one entry with the stored address; says exactly when it succeeds, and that every other entry keeps its type. |
| Subdev.SubdevHash.Delete | subdev_address_hash.c:114-145 | Removes and frees exactly the entry found; a failed call leaves the table as it is; the table can be used again afterwards. |
| Subdev.SubdevHash.DeleteAll | subdev_address_hash.c:148-165 | Frees every entry exactly once, front to back, and ends with a null head pointer, to which entries can be added again; terminates. |
| Subdev.SubdevHash.FreeFirst | subdev_address_hash.c:157-161 | After deleting the current entry the saved successor is still the first member of a valid table. |
| Subdev.SubdevHash.Iterator | subdev_address_hash.c:202-232 | Reports exactly the unmarked entries, once each, in application order, and leaves no entry marked. |
| Subdev.SweepList | subdev_address_hash.c:214-228 | The loop of the sweep over the linked list reports the unmarked addresses in order and clears every mark. |
| Subdev.SubdevHash.GetKeys | subdev_address_hash.c:236-276 | Copies the first `rows` addresses of a device type in application order, and says how many; the 17th byte of a row is never written, so a row holds its address as a C string unless the address has 16 characters and the byte was not zero before. |
| SubdevSpec.FoundWhere | subdev_address_hash.c:34-34 | The hash table finds an address where it stands in the list of addresses and types. |
| SubdevSpec.PerformAdd | subdev_address_hash.c:22-76 | With the memory it needs, add does to the contents what the sequential operation says, and keeps addresses unique. |
| SubdevSpec.PerformDelete | subdev_address_hash.c:114-145 | So does delete, with the same answer. |
| SubdevSpec.PerformFind | subdev_address_hash.c:80-111 | So does find. |
| SubdevSpec.PerformMark | subdev_address_hash.c:168-200 | So does find_ex: exactly the entry found is marked. |
| SubdevSpec.PerformSweep | subdev_address_hash.c:202-232 | So does the iterator: what it reports and clears is what the marks in the table say. |
| SubdevSpec.PerformKeys | subdev_address_hash.c:236-276 | So does get_keys. |
| SubdevSpec.Perform | subdev_address_hash.c:22-276 | The table over the hash table implements each of the seven sequential operations that interleaved runs are explained by. |
| SubdevSpec.PerformAll | subdev_address_hash.c:22-276 | So it does over every run: the contents are those of the sequential operations one after another, and every answer is the one for the contents before it. |
| SubdevSpec.AddedIsFoundIff | subdev_address_hash.c:44-46 | An address that has been added is found again if and only if it has at most 16 characters. |
| SubdevSpec.AddKeepsUniqueIff | subdev_address_hash.c:44-46 | Adding an address that was not found keeps the stored addresses unique if and only if what is stored of it is not there yet, as is always so up to 16 characters. |
| SubdevSpec.LongAddressExample | subdev_address_hash.c:44-46 | A concrete address of 17 characters: added, not found, and added again, so that its first 16 characters are stored twice. |
| SubdevDuplicates.PileFills | inc/uthash.h:783-785 | Of items that share one key the tenth makes the table expand, and none before it. |
| SubdevDuplicates.PileFound | inc/uthash.h:751-770 | Until then the latest of them is found, and the first is last in their chain. |
| SubdevDuplicates.LookupChanges | subdev_address_hash.c:22-76 | An address of 17 characters added ten times with types 1 to 10: a lookup of its first 16 characters answers type 9 after nine additions and type 1 after the tenth. |
| SubdevRuns.WalkInv | subdev_address_hash.c:34-34 | The device thread's lookup without a lock never meets freed memory or half-written links. |
| SubdevRuns.MallocInv | subdev_address_hash.c:37-48 | A new entry is unknown to every other thread until it is linked. |
| SubdevRuns.AcquireInv | subdev_address_hash.c:49-54 | What the unlocked lookup found still holds when the write lock has been taken; a lock that cannot be had ends the call without effect. |
| SubdevRuns.LinkInv | subdev_address_hash.c:56-57 | Linking happens with no reader inside, and is where add takes effect. |
| SubdevRuns.StoreInv | subdev_address_hash.c:60-71 | The entry found before the lock was taken is still the one to store the type in. |
| SubdevRuns.MissInv | subdev_address_hash.c:124-129 | A delete that finds nothing answers -1 without ever taking the lock, as if run alone at that moment. |
| SubdevRuns.UnlinkInv | subdev_address_hash.c:131-138 | The entry found before the lock was taken is still in the table, and is unlinked with no reader inside. |
| SubdevRuns.FreedIsUnheld | subdev_address_hash.c:139-142 | No other thread holds a pointer to an entry that is about to be freed, although the lock has been released already. |
| SubdevRuns.FreeInv | subdev_address_hash.c:139-144 | Freeing after unlocking is safe, and happens once. |
| SubdevRuns.DeleteNextInv | subdev_address_hash.c:157-161 | Each round of delete_all frees an entry no one holds and keeps the saved successor valid. |
| SubdevRuns.EnterInv | subdev_address_hash.c:86-92 | A reader enters only while nobody writes. |
| SubdevRuns.LookInv | subdev_address_hash.c:93-93 | A reader's walk along a chain stays on entries of the table. |
| SubdevRuns.LookEndInv | subdev_address_hash.c:93-109 | A lookup takes effect while the read lock is held, and answers as if run alone. |
| SubdevRuns.MarkInv | subdev_address_hash.c:184-190 | Marking an entry under the read lock disturbs no other thread, and takes effect at that moment. |
| SubdevRuns.SweepInv | subdev_address_hash.c:214-228 | Each round of the sweep, with its saved successor, stays on entries of the table; what it has reported is what was unmarked among the entries it has passed. |
| SubdevRuns.SweepEndInv | subdev_address_hash.c:214-231 | A sweep takes effect as a whole when it ends: it has reported exactly the unmarked addresses in order, and has cleared every mark, whatever lookups ran beside it. |
| SubdevRuns.ListInv | subdev_address_hash.c:250-268 | A list of the addresses of a type, complete or stopped when the array is full, is the one of the moment at which it ends. |
| SubdevSafety.RemarkedPc | subdev_address_hash.c:186-186 | A change of a mark means nothing to the place of any other thread, the device thread with its unlocked lookups included. |
| SubdevRuns.StepInv | subdev_address_hash.c:14-276 | Every step of every thread keeps the invariant. |
| SubdevRuns.EveryRunIsSafe | subdev_address_hash.c:14-19 | In every interleaving: no use of freed memory or half-written links, writer and readers exclude each other, every pointer held is to allocated memory, and those of other threads are to entries in the table. |
| SubdevRuns.EveryRunIsLinearizable | subdev_address_hash.c:14-276 | In every interleaving the calls take effect one after another, each between its beginning and its answer, each with the answer it would give alone; a failed call has no effect. |
| SubdevProgress.StepResponds | subdev_address_hash.c:22-276 | A step ends no call but its own thread's, and as a failure only if a lock or an allocation is refused to it in that step. |
| SubdevProgress.FailedIsRefused | subdev_address_hash.c:22-276 | After every run: a call that failed was refused a lock or an allocation, in the very step that ended it. |
| SubdevProgress.GoesOn | subdev_address_hash.c:22-276 | A thread that nobody is in the way of, and that is refused nothing, comes nearer to its answer with every step. |
| SubdevProgress.Finishes | subdev_address_hash.c:22-276 | So it is answered after finitely many steps of its own, with what its place in the log says. |
| SubdevProgress.SoloCall | subdev_address_hash.c:22-276 | After every run that has left nobody in a call: every operation that a thread may make, made alone and refused nothing, is answered with the answer of the sequential operation and leaves its contents. |
| SubdevProgress.EveryRunCanFinish | subdev_address_hash.c:14-276 | No deadlock: after every run all calls under way can be finished, none of them failing. |
| SubdevReplay.RunFits | subdev_address_hash.c:14-276 | Every call of an interleaved run is one that the table over the hash table accepts. |
| SubdevReplay.SameAnswers | subdev_address_hash.c:14-276 | A run of the logged calls with the answers of the sequential operations has the logged answers and contents. |
| SubdevReplay.Reenact | subdev_address_hash.c:14-276 | After every run in every interleaving: an empty table over the hash table that performs the logged calls one after another gives each its logged answer, and ends with the contents of the shared table when nobody is in a call. |
| SubdevMaps.ApplyIsMapOperation | subdev_address_hash.c:22-165 | The sequential operations are map update, removal, clearing and lookup of device types by address; marks are nothing to that map. |
| SubdevMaps.ReplayUnique | subdev_address_hash.c:34-36 | The contents have unique addresses at any time of any run. |
| SubdevMaps.CanLink | subdev_address_hash.c:56-56 | A link step is always possible: pushing the entry to the front of its chain is a permitted rewrite. |
| SubdevMaps.CanUnlink | subdev_address_hash.c:138-138 | So is an unlink step: taking the entry out of its chain is a permitted rewrite. |
| KvRows.RowRoundTrip | mapfile.c:193-239 | Reading a row back yields the row that was written. |
| KvRows.RowBytesRoundTrip | mapfile.c:296-341 | Writing back a row as read leaves its bytes alone. |
| KvRows.SlotLayout | mapfile.c:296-341 | Where a slot is in the file: byte 456 * row + 228 * slot on, 96 bytes of key, 128 of value, and the length in four, lowest first. |
| KvRows.OverwriteFrame | mapfile.c:314-331 | Rows tile the file: writing one changes its bytes only. |
| KvRows.MatchesIsPrefix | mapfile.c:68-68 | The key comparison of the scans holds if and only if the sought key is a prefix of the stored one. |
| KvRows.PutRowOk | mapfile.c:66-89 | Set keeps every slot empty or well formed. |
| KvRows.GetAfterPut | mapfile.c:36-147 | From every reachable row, holes and prefixes included: what set stored, get returns. |
| KvRows.GetAfterRm | mapfile.c:101-191 | From every reachable row: after a del, get of that key fails. |
| KvRows.RmKeepsMissing | mapfile.c:175-183 | From every reachable row: a del of any key leaves keys that get does not find not found. |
| KvRuns.StaysDeleted | mapfile.c:101-191 | From every file and over every run: a deleted key is not found until some key is set into its row, whatever else is set, deleted or emptied. |
| KvRuns.PutRefines | mapfile.c:64-89 | Among prefix-free keys set is map update, and fails if and only if two other keys fill the row. |
| KvRuns.GetRefines | mapfile.c:130-146 | Among prefix-free keys get is map lookup. |
| KvRuns.RmRefines | mapfile.c:173-183 | Del is map removal, and leaves a row that scans still read as a map if and only if it does not empty the first slot in front of an occupied second one. |
| KvRuns.DelHidesIffHole | mapfile.c:173-183 | All other keys of the row stay readable if and only if del leaves no such hole. |
| KvRuns.StepRefines | mapfile.c:490-542 | One permitted operation on the file is that operation on a map with room for two keys per row. |
| KvRuns.AnswersRefine | mapfile.c:430-504 | Get answers from the map, and set fails if and only if two other keys fill the row. |
| KvRuns.RunRefines | mapfile.c:490-542 | Over every run of set, del of a row's last key, and emptying, the file stands for the map of the run. |
| KvRuns.EmptyRefines | mapfile.c:506-542 | An emptied file stands for the empty map. |
| KvRuns.SameRow | mapfile.c:26-33 | There are different keys with the same hash, none a prefix of another, and some with one a prefix of the other. |
| KvRuns.HoleRun | mapfile.c:150-191 | A run after which a key that was set and never deleted is not found. |
| KvRuns.HoleExample | mapfile.c:150-191 | Such a run with concrete keys. |
| KvRuns.PrefixOverwrites | mapfile.c:66-73 | Set under a proper prefix of a stored key overwrites that key's value. |
| KvRuns.PrefixRun | mapfile.c:66-73 | A run in which setting a key changes what get returns for a longer key that begins with it. |
| KvRuns.PrefixExample | mapfile.c:66-73 | Such a run from the empty file with concrete keys. |
| KvPrefixes.GetIsFirstExtension | mapfile.c:130-146 | For any keys and every reachable row: get returns the value of the first stored key that begins with the key asked for, and finds nothing behind a hole. |
| KvPrefixes.GetIsLookupIff | mapfile.c:130-146 | For any keys and every reachable row: get is map lookup if and only if the first stored key it meets that begins with the key is the key itself and the key is not behind a hole, or two slots happen to hold the same value. |
| KvPrefixes.SetIsUpdateIff | mapfile.c:66-89 | For any keys and every reachable row: set is map update, or a correct failure, for every value if and only if the first stored key it meets that begins with the key is the key itself. |
| KvPrefixes.SetKeepsGood | mapfile.c:75-89 | Set never makes a hole; it fills one, and then stores one key twice if and only if the key is the one behind the hole. |
| KvPrefixes.DelRemovesExtensions | mapfile.c:175-183 | For any keys and every reachable row: del removes every key of the row that begins with the key, and nothing behind a hole. |
| KvPrefixes.DelIsRemovalIff | mapfile.c:175-183 | So it removes the key alone if and only if no other stored key begins with it or, in a row with a hole, the key is not stored. |
| KvFile.KvStore.constructor | mapfile.c:343-373 | A new file holds zeros, or nothing when it cannot be extended. |
| KvFile.KvStore.ReadRow | mapfile.c:193-239 | Reads the two slots of a row into a buffer. |
| KvFile.KvStore.WriteRow | mapfile.c:296-341 | Writes one row and leaves the bytes of every other and the length of the file alone. |
| KvFile.KvStore.Set | mapfile.c:36-98 | Changes only the row of the key, as the row laws say; says exactly when it succeeds, and that a failure leaves the file as it was. |
| KvFile.KvStore.PutInto | mapfile.c:64-89 | The scan in the buffer does what the row law says of set. |
| KvFile.KvStore.Get | mapfile.c:101-147 | Returns the stored value cut to the caller's buffer, exactly when there is one. |
| KvFile.KvStore.Del | mapfile.c:150-191 | Changes only the row of the key, as the row law says. |
| KvFile.KvStore.RmFrom | mapfile.c:173-183 | The scan in the buffer does what the row law says of del. |
| KvFile.KvStore.Empty | mapfile.c:506-542 | Empties the file, or leaves it as it was or truncated, depending on what fails. |
| KvHash.HashIsSum | mapfile.c:26-33 | The hash of the rest of a key, from any value on, is that value times a power of 33 plus the power sum of its characters, modulo 2^32. |
| KvHash.RowIsPowerSum | mapfile.c:26-33 | The row of a key is the sum over its characters of 33 to the distance from the end times the character's signed value, modulo 2^32 and then 384. |
| KvHash.OneCharacter | mapfile.c:26-33 | A key of one character below 128 lies in the row of that number. |
| KvHash.TwoCharacters | mapfile.c:26-33 | The row of a key of two characters of which the first is 128 or more: that character counts as negative, and a sum below zero wraps around. |
| KvHash.SetSingles | mapfile.c:36-147 | Any different keys of one such character, set into an emptied file, are all stored, and get finds every one of them with its value. |
| Routing.RegisterInv | dispatch.c:49-80 | Registering keeps the protocol invariant. |
| Routing.CloseDispatchEndInv | dispatch.c:94-99 | Closing the dispatcher's end, with what is waiting in it, keeps it. |
| Routing.CloseLocalEndInv | dispatch.c:102-105 | Closing a module's end keeps it. |
| Routing.SendInv | dispatch.c:158-177 | A message that is sent is younger than all its origin sent before. |
| Routing.ListenersFacts | dispatch.c:325-338 | A broadcast goes to exactly the registered modules, other than the claimed source, that are set to receive, each once. |
| Routing.ForwardInv | dispatch.c:242-251 | Handing the oldest waiting message to one module keeps the order of that module's messages. |
| Routing.ForwardAllInv | dispatch.c:242-251 | So does handing it to all targets, whichever of the sends fail. |
| Routing.DispatchInv | dispatch.c:226-253 | Reading one message and passing it on keeps the invariant. |
| Routing.ReceiveInv | dispatch.c:180-218 | A module's read keeps it. |
| Routing.StepInv | dispatch.c:49-428 | Every step of modules and dispatcher keeps the invariant. |
| Routing.RunInv | dispatch.c:49-428 | So does every run. |
| Routing.InOrder | dispatch.c:49-428 | After every run, what a module reads from its channels in the order it made them is, per origin, a subsequence of what the origin sent, despite failed sends, deletions and registrations. |
| Routing.ReadOnce | dispatch.c:226-253 | After every run, what a module has read was sent to it, or was broadcast under another claimed source while it was registered to receive; and it has read nothing twice, through one channel or several. |
| RoutingLedger.StepMatches | dispatch.c:49-253 | Every event changes channels, registrations, modes and sent messages as a ledger kept from the events alone says. |
| RoutingLedger.RegisteredAsAsked | dispatch.c:49-106 | After every run a module is registered exactly as the events say, with the mode asked for when its channel was made. |
| RoutingLedger.SentAsAsked | dispatch.c:118-177 | After every run what a module has sent is, message by message, the claimed source, destination and content that its successful sends were asked to carry. |
| RoutingLedger.ReadAsAsked | dispatch.c:180-253 | After every run what a module reads was asked to be sent to it, or to all under another source by a send while its channel was made for receiving; a channel made for sending only delivers nothing but messages that name its module. |
| RoutingDelivery.TargetsIff | dispatch.c:293-348 | The targets of a message are exactly the registered module it names, whatever its mode, or for a broadcast the registered modules that receive, other than the claimed source; each once. |
| RoutingDelivery.DispatchDelivers | dispatch.c:226-253 | A message that the dispatcher reads goes once to every module it is meant for whose end is open, unless a send fails, and to nobody else. |
| RoutingOrder.SentFirst | dispatch.c:179-218 | Of two messages of one origin that a module reads, the first one read was sent first if and only if it did not come from the newer channel. |
| RoutingOrder.LeftInOrder | dispatch.c:179-218 | What is a subsequence of the log of sent messages is in the order of sending. |
| RoutingOrder.InOrderIff | dispatch.c:83-106 | After every run: what a module has read from an origin, in order of time, is a subsequence of what that origin sent if and only if the module never went back to an older channel between two of those messages. |
| RoutingOrder.NeverBackInOrder | dispatch.c:83-106 | In particular, a module reads every origin in order as long as it never goes back to an older channel. |
| RoutingOrder.CarefulInOrder | dispatch.c:83-106 | A module that has closed its end of the old channel whenever it registers again reads every origin in order. |
| RoutingOrder.DelClosesEnd | dispatch.c:83-106 | Deleting a channel with the descriptor that registration returned leaves the module without an open end. |
| RoutingOrder.CarelessOutOfOrder | dispatch.c:83-106 | Deleting with descriptor 0, registering again and reading the new channel first reads the second message before the first. |
| Dispatch.ScanTakesOne | dispatch.c:394-418 | A round of the scan takes exactly one message from every ready module that has one, and none from any other. |
| Dispatch.Dispatcher.constructor | dispatch.c:34-34 | No module is registered at first. |
| Dispatch.Dispatcher.RegisterChannel | dispatch.c:49-80 | Makes a channel exactly for a module in range without one, and records its descriptor and the mode asked for in its row, no other row; every failure changes nothing. |
| Dispatch.Dispatcher.DelChannel | dispatch.c:83-106 | Frees the table row and closes both ends; an id out of range changes nothing, the descriptor included. |
| Dispatch.Dispatcher.TrySend | dispatch.c:118-153 | Succeeds if and only if one of the first three tries does with only interruptions before it. |
| Dispatch.Dispatcher.SendMsg | dispatch.c:158-166 | Queues one message with source 0, as one event with the destination and content asked for, or answers -1 and changes nothing. |
| Dispatch.Dispatcher.SendMultimsg | dispatch.c:169-177 | Queues one broadcast, as one event with the claimed source and content asked for, or answers -1 and changes nothing. |
| Dispatch.Dispatcher.RecvMsg | dispatch.c:180-218 | Reads the next message of the channel, whose content some module had asked to have sent to this one, or answers -1 and changes nothing. |
| Dispatch.Dispatcher.GetFd | dispatch.c:293-348 | The descriptors of the targets, and failure exactly when there are none: point to point it is the one of the destination whatever its mode, a broadcast heeds the modes. |
| Dispatch.Dispatcher.GetListeners | dispatch.c:325-338 | The loop collects the descriptors of the listeners in order. |
| Dispatch.Dispatcher.TransferMsg | dispatch.c:226-253 | Sends to every target even when some sends fail; the result is that of the last send. |
| Dispatch.Dispatcher.Serve | dispatch.c:396-415 | One module's turn: reads at most one message and passes it on. |
| Dispatch.Dispatcher.Scan | dispatch.c:394-418 | A round serves the modules in turn; with the recorded history, every state of the object is the state after a run of the protocol. |
| LogUtil.LogFile.constructor | log_util.c:98-101 | Logging starts behind what the file held before. |
| LogUtil.WriteMore | log_util.c:137-145 | Writing a record piece by piece is writing it at once. |
| LogUtil.LogFile.FullPwrite | log_util.c:129-150 | Whatever pieces are accepted and whatever interrupts them, the file is as if the accepted first part of the record had been written at once; on completion that part is the whole record. |
| LogUtil.ProgressIs | log_util.c:129-150 | A write gets as far as the pieces accepted before the first failure add up to; interruptions do not matter. |
| LogUtil.LogFile.WriteRecord | log_util.c:238-254 | Starts at 0 exactly when the record does not end before the limit, and right behind the last complete record otherwise; a failed write does not advance. |
| LogUtil.LogFile.LogPrintf | log_util.c:159-268 | A record that ends before the limit goes behind the cycle and changes nothing before it; any other begins a new cycle at 0; a call that is not to be logged changes nothing. No byte is ever written at or above the limit; the cycle is the concatenation of its complete records; a record goes beyond the configured size if and only if it is itself longer. |
| LogUtil.LogAll | log_util.c:159-268 | Any records of the four levels that fit the limit together leave the file as its old content with all of them behind it, in order. |
| LogUtil.SmallLimitExample | log_util.c:159-268 | A concrete record that is longer than the configured size and is written whole. |
| LogUtil.CycleKept | log_util.c:246-254 | Writing behind the cycle leaves the records before it alone. |

## Left out

- `HASH_SELECT` (`inc/uthash.h:985-1041`): not used by this repository.
- The bit mixing of the hash functions: a hash is any function from keys to natural numbers, read
  through the mask; signatures, emitted keys and the offset arithmetic between items and handles.
- Wrap-around of the table's unsigned counters: item counts are taken to be below 2^31.
- Each handle's pointer back to the table record: the head pointer and the record are one object,
  and a null head means that the record has been freed. The key of an item is constant while the
  item exists, as the table requires.
- The Bloom filter's bytes: bits are modelled one by one. Storage of freed arrays is not tracked.
- Comparators are functions of the two items for the duration of a call and do not change them.
- Allocation failure follows the `HASH_NONFATAL_OOM` build; the other build ends the process.
- `UtHash.HashTable.Sort`: requires a total preorder on the items, as C's sorting contract does.
- `TableRuns.Perform`: additions look their key up first, as the clients of the table do.
- `SubdevSystem`: a walk reads one entry per step; the rewriting of the table's links is one step
  bracketed by a flag that makes every concurrent read an error, with any rewritten chains that
  satisfy what `UtHash` proves of them. A call that gets no lock or no memory is answered as failed;
  in C a failed lookup answers 65535, as one that finds nothing does. An entry whose lock call fails
  after its allocation is never freed, as in the code.
- `SubdevRuns.EveryRunIsSafe`: does not cover a second thread that adds or deletes, which the source
  rules out, a second thread that marks or sweeps, or an unlocked lookup from any thread but the
  device thread.
- `Subdev.SubdevHash.Iterator`: the callback gets the addresses and does not change the table.
- `SubdevSpec.Perform`, and with it runs: with memory and locks available; `Subdev.SubdevHash.Add` has the failures.
- Keys of more than 95 bytes and values with a negative length in `mapfile.c`; crashes between
  writing and syncing; the second row reader `read_kv_item_`; opening, locking and closing of the
  file. A row is read and written as one action.
- `KvRuns.RunRefines`: keys of one row are not proper prefixes of each other, and only the last
  occupied slot of a row is deleted; `KvPrefixes` and `KvRuns.DelHidesIffHole` say exactly what
  happens otherwise.
- Real sockets, time limits, sleeps and reuse of descriptor numbers in `dispatch.c`: channels are
  queues, descriptors are fresh, and any send may fail. Looking up the targets of one message and
  sending to them is one step; a channel deleted in between is a failed send.
- `Dispatch.Dispatcher.DelChannel`: closing a descriptor that is not a module's end of a channel has
  no effect in the model.
- `LogUtil.LogFile.FullPwrite`: the answers of `pwrite` are a finite list; a loop that is never
  given a final answer is reported as still pending, its partial effect included.
- Formatting, time stamps, standard output and setting the log up again in `log_util.c`: a record is
  given as the bytes that formatting yields.
- `protocol_convert.c`, `json_api.c`, `gw_misc.c`, `example.c` and `inc/cJSON.h`: straight-line
  input and output, flags and declarations.
