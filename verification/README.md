# Verified model of the flow store's indexes

The repository stores network flows and indexes them by field. This Dafny project models the index structures and what
has to agree with them, and proves what they are for.

- **Trie in memory** (`Trie.dfy`, `TrieNode.dfy`, `TrieQuery.dfy`, `TrieLevels.dfy`, `TriePaths.dfy`, `TrieWalk.dfy`):
  a 256-way radix trie on heap nodes, for keys of any number of bytes (the repository uses 1, 2 and 4). Its meaning is a
  log of (key, value) pairs. `NodeIds` says which nodes a log gives rise to; a ghost map from ids to nodes ties the heap
  to it. Range queries narrow the trie level by level; the queue of a level is a function of the log.
- **Nodes, bitmaps and lists** (`Bitmap.dfy`, `Words.dfy`, `Enumerate.dfy`, `Radix.dfy`, `LinkList.dfy`, `FlowLog.dfy`):
  32-bit words are naturals with explicit wrap-around and bitwise operators.
- **Trie on disk** (`Bytes.dfy`, `ListFile.dfy`, `NodeFile.dfy`, `TrieImage.dfy`, `TrieWrite.dfy`, `TrieRead.dfy`):
  the file is a byte sequence with a cursor. The writer's invariant ties recorded offsets to actual positions.
- **Filters** (`OffsetsResult.dfy`, `IpPattern.dfy`, `Index.dfy`, `Filter.dfy`, `Storage.dfy`): answers built from the
  six indexes against a predicate over the stored records.
- **Pointer-level lists** (`ListIntersection.dfy`, `SkipList.dfy`), the **write-flag protocol** (`WriteFlags.dfy`), the
  **flow table** (`HashTable.dfy`) and **B-tree insertion** (`BTreeNode.dfy`, `BTree.dfy`, `BTreeRun.dfy`).
- `Failure.dfy` has inputs on which the code fails, for the conditions below.

`dafny verify dfyconfig.toml` checks the whole project.

Where the code does not do what one would expect, the model follows the code, and the exact condition is proved unless
the item says otherwise:

- A node lists its slots on first use and never renews the list (Util/trie_node.h:89-98). Queries and writes therefore
  require that no list is out of date (`Shaped`, `Ready`). This holds for every run of inserts followed by queries or a
  write (`TrieQueries.Load`). `Tries.Trie.AddItem` says when an insert keeps it (no new slot in a node that has listed its
  slots) and when it is lost (a new slot in front of a listed one). A new slot behind all listed ones makes the node read
  a cell of the list that was never set; whether the list is right then depends on what the cell happens to hold, and is
  left open.
- A query of the file seeks to a leaf's lists relative to the cursor, which stands behind the header read last
  (Util/trie.cpp:449); where no key of the leaf is large enough, it seeks by the number behind the leaf's offset
  array, whatever that is, which is a parameter of the model. With at most one leaf in reach the answer is right
  whatever that number. With more, and no logged key before begin in begin's leaf, every leaf reads on from the lists
  of the last one, which gives that leaf's first values in place of those in range; for increasing offsets that is
  always wrong (`TrieReads.FileQueryIsRight`). Three cases stay open, all with another leaf in reach. If there are
  more keys in range than the last leaf has and keys are logged behind it, the answer begins with all of that leaf's
  values, and what follows depends on the bytes of the file. If begin's leaf has keys on both sides of begin, the
  answer depends on the bytes of the file. If it has keys before begin only, it depends on the number: with 0 the
  answer is as in the first case or exactly known, with a number as large as the file nothing is read, and in between
  it depends on the bytes of the file.
- A list's size in a file is a 32-bit product, so of a list of 2^29 values or more only a part is written and read
  (`ListFiles.RestoredExactly`).
- `OffsetsResult::merge` drops the tail of the longer input (`OffsetsResults.MergeIsUnion`), so that a filter with OR
  misses flows (`Filters.OrIsComplete`).
- An empty filter never becomes the result (`Filters.ParseCommand`).
- A number that does not fit a port or a protocol is cut to the key type and selects other records
  (`Filters.ExactAtoms`); an asterisk in front of a number makes an address range too large (`IpPatterns.ExactPatterns`).
- `merge` of the singly linked list does not move the tail (`SkipLists.MergedLast`).
- A request to write that arrives between a thread's write and its reset is cleared without a write
  (`WriteFlags.RequestHonoured`).
- `storeFlowRecords` passes an integer where a value with an offset is expected; the flow's number is taken as the offset
  and the packet count as 0.

## Model

| member | source | states |
|---|---|---|
| `TrieQueries.LoadAndQuery` | Util/trie.cpp:76-274 | any run of addItem calls followed by queryFromMem on an empty vector: a permutation of exactly the values whose key is in range; if offsets never decreased, sorted by offset, and of values with equal offsets those of larger keys first and of one key in insertion order; in the order they were logged if offsets increased; a false return means that there are none |
| `TrieQueries.QueryFromMem` | Util/trie.cpp:165-274 | into any vector: the lists of the keys in range merged in, in key order; true exactly if a leaf is in reach; the trie still represents the same log |
| `TrieQueries.QueryAnswer` | Util/trie.cpp:165-274 | what those merged lists are: same values as the range of the log, sorted if the log is in order, equal to it with increasing offsets |
| `TrieQueries.ProcessLevel` | Util/trie.cpp:184-269 | given a queue of exactly the nodes of level i between the prefixes of begin and end, ascending, draining it leaves exactly those of level i+1, or at the leaves the answer |
| `TrieLevels.ProgressGap` | Util/trie.cpp:184-269 | prefixes without a node contribute neither nodes to the next level nor values to the answer |
| `TrieLevels.ProgressEnd` | Util/trie.cpp:184-269 | once no node is left in a level, the next queue is the whole next level in reach, and the answer after the leaves is complete |
| `TrieLevels.PathInReach` | Util/trie.cpp:184-193 | every node on the path of a logged key in range is in the queue of its level |
| `TrieLevels.OutOfReach` | Util/trie.cpp:193-193 | an empty queue at any level means that no logged key is in range and no leaf is in reach |
| `TrieQueries.CollectLeaf` | Util/trie.cpp:198-245 | a leaf merges exactly the lists of its keys in range, in key order |
| `TrieQueries.Expand` | Util/trie.cpp:246-265 | an inner node queues exactly its children in range, with their prefixes, ascending |
| `TrieQueries.NextChild` | Util/trie.cpp:255-264 | the child in a listed slot is never null, so the continue that skips the increment of pos is never taken |
| `TriePaths.LevelMembers` | Util/trie.cpp:184-269 | the queue of a level is strictly ascending and holds exactly the node prefixes in its range |
| `Radix.ShiftFits` | Util/trie.cpp:196-196 | shifting a node's prefix left by a byte and adding a slot stays within the key type, so the shift never truncates |
| `Tries.Trie.constructor` | Util/trie.h:50-58 | a new trie is a leaf for one-byte keys, an inner node otherwise, holds nothing, and counts one node |
| `Tries.Trie.AddItem` | Util/trie.cpp:76-102 | appends the pair to the log the trie represents, for keys of any number of bytes; position lists stay right if the key takes no new slot in a node that has listed its slots, and one becomes wrong if the key takes a new slot in front of a listed one |
| `Tries.GrowthSpoils` | Util/trie_node.h:89-98 | a node that grows a child in front of a listed one leaves a position list out of date, whatever the rest of the insertion does |
| `Failures.StaleList` | Util/trie_node.h:89-98 | a leaf that lists its slots and then takes an earlier one answers with the old list |
| `Tries.Trie.Descend` | Util/trie.cpp:82-97 | one level: the child on the key's path exists afterwards, a new one is counted, nothing stored changes |
| `Tries.Trie.GrowChild` | Util/trie.cpp:84-92 | a missing child is linked under its byte, is a leaf exactly on the last level, and is counted |
| `Tries.Trie.Store` | Util/trie.cpp:98-101 | the value ends up in the list of the key's last byte and the new log is represented |
| `Tries.GrowthKeepsValues` | Util/trie.cpp:84-92 | growing a node changes no key's values, because nothing is logged below a node that did not exist |
| `Tries.StoredIsLogged` | Util/trie.cpp:98-101 | appending to one slot makes every leaf hold the values of the extended log |
| `Tries.GrowthKeepsLists` | Util/trie_node.h:89-98 | growing a node that has not listed its slots leaves no position list out of date |
| `Radix.RestStep` | Util/trie.cpp:82-97 | the top byte of the shifted key is the next byte of the key, and shifting by a byte drops just that one |
| `TriePaths.NodesAreRootAndPrefixes` | Util/trie.cpp:42-102 | the number of nodes is one plus the number of distinct proper non-empty byte prefixes of the inserted keys |
| `TriePaths.AncestorInRange` | Util/trie.cpp:186-187 | a prefix in range has all its shorter prefixes in range |
| `TrieNodes.TrieNode.constructor` | Util/trie_node.h:40-45 | a new node has no taken slot and all pointers null |
| `TrieNodes.TrieNode.AddChild` | Util/trie_node.cpp:61-71 | sets the pointer and the bit of one slot and counts it; a full node refuses; a kept position list becomes wrong if a later slot was listed |
| `TrieNodes.TrieNode.AddValue` | Util/trie_node.cpp:106-119 | appends to the slot's list, creating it first if needed; elemCount, bits and non-null slots keep agreeing |
| `TrieNodes.TrieNode.HasChildren` | Util/trie_node.h:74-77 | true exactly if the slot is taken |
| `TrieNodes.TrieNode.GetOnePosition` | Util/trie_node.h:89-93 | the idx-th taken slot in ascending order, from a list made on first use; if the list is out of date, what the old list has in that place |
| `TrieNodes.TrieNode.GetBitPosition` | Util/trie_node.h:95-98 | lists the slots anew |
| `TrieNodes.SpoiledList` | Util/trie_node.h:89-98 | a list of positions made before a slot was taken is not the list afterwards if a later slot was taken already |
| `TrieNodes.LeafLists` | Util/trie_node.cpp:121-125 | a leaf has a list exactly in its taken slots |
| `TrieWalks.Destroy` | Util/trie.cpp:42-72 | the breadth-first destructor deletes every node exactly once and ends with nodeCount 0 |
| `TrieWalks.Visit` | Util/trie.cpp:47-50 | the node taken off the queue has not been visited, none of its children has been queued, and it comes behind all visited ones in breadth-first order |
| `TrieWalks.QueueChild` | Util/trie.cpp:52-54 | queueing the next child keeps all queued and visited nodes distinct |
| `TrieWalks.AllVisited` | Util/trie.cpp:47-66 | when the queue is empty every node has been visited |
| `Bitmaps.Bitmap.constructor` | Util/bitmap.cpp:47-58 | all bits clear, the size rounded up to whole words |
| `Bitmaps.Bitmap.SetBit` | Util/bitmap.h:33-40 | adds the position to the set bits; positions outside are ignored |
| `Bitmaps.Bitmap.GetBit` | Util/bitmap.h:42-50 | true exactly for set bits; false outside |
| `Bitmaps.Bitmap.GetOnePosition` | Util/bitmap.cpp:194-204 | for any contents, writes exactly the set positions in ascending order |
| `Bitmaps.Bitmap.WordPositions` | Util/bitmap.cpp:199-202 | the loop over one word, whose measure is the bits above the last one found |
| `Enumerate.AscendingIsSortedEnumeration` | Util/bitmap.cpp:194-204 | that listing is strictly ascending and holds exactly the set positions |
| `Words.IsolateLowBit` | Util/bitmap.cpp:200-201 | tmp&(-tmp) on 32 bits is the power of two of the least set bit |
| `Words.Num2Pos` | Util/bitmap.cpp:18-45 | num2pos returns k for every power 2^k |
| `LinkLists.LinkNode.AddElement` | Util/linklist.h:59-64 | appends to the chunk unless it is full |
| `LinkLists.LinkList.AddElement` | Util/linklist.h:159-191 | appends to the list; element k is in slot k mod 8 of chunk k/8, nodeCount is the total, all chunks but the last are full |
| `ListFiles.MergeList` | Util/trie.cpp:218-239 | the two-way merge of a list's chunks into a vector |
| `FlowLog.MergeMultiset` | Util/linklist.h:437-461 | merging loses and duplicates nothing |
| `FlowLog.MergeSorted` | Util/linklist.h:437-461 | merging a sorted list into a sorted vector gives a sorted vector |
| `FlowLog.AbsorbMultiset` | Util/trie.cpp:206-244 | merging the lists of a key range adds exactly the values whose key is in range |
| `FlowLog.AbsorbSorted` | Util/trie.cpp:206-244 | and keeps the vector sorted when offsets never decrease |
| `FlowLog.AbsorbTies` | Util/trie.cpp:206-244 | and puts, of values with equal offsets, those of larger keys first |
| `FlowLog.AbsorbIsInRange` | Util/trie.cpp:206-244 | with increasing offsets the result is the matching values in the order they were logged |
| `ListFiles.WriteList` | Util/linklist.h:381-412 | writes the count and as many values as the 32-bit product of count and size covers, each as four bytes of offset, two of packet count and two more, least significant byte first; frees every chunk once in order, and leaves the list empty |
| `ListFiles.ListLaidOut` | Util/trie_node.h:26-29 | the layout of a list in bytes: where the count and the offset and packet count of every value stand |
| `ListFiles.ReadList` | Util/linklist.h:415-434 | appends the list at the cursor; at a list's image all values that are in the file, exactly the list if it has fewer than 2^29, leaving the cursor behind it |
| `ListFiles.WriteAndRead` | Util/linklist.h:381-434 | reading back what was written restores the written values, and the sequence if it has fewer than 2^29 elements |
| `ListFiles.RestoredExactly` | Util/linklist.h:381-434 | what is written for a list of n values determines it, so that any reader can restore it, exactly if n is less than 2^29 |
| `ListFiles.ValueRoundTrip` | Util/trie_node.h:26-29 | a value's eight bytes determine it |
| `TrieWriters.WriteToFile` | Util/trie.cpp:105-142 | the file holds the image of every node, each at its recorded place, the root's first, one behind the other and nothing else, the last node in breadth-first order at the end; the trie keeps its nodes |
| `TrieWriters.ImageBound` | Util/trie.cpp:105-142 | the size of the file is bounded by the number of pairs logged, so that a caller can tell beforehand that it stays below 4 GiB |
| `TrieWriters.OffsetsExact` | Util/trie.cpp:127-136 | in a file of less than 4 GiB every recorded child offset is the exact position where that child's image begins |
| `TrieWriters.WriteNext` | Util/trie.cpp:117-138 | one round keeps pos equal to the bytes written plus the sizes of the queued nodes, modulo 2^32, and every queued node's place equal to where it will be written |
| `TrieWriters.PlaceChild` | Util/trie.cpp:127-132 | a child is queued, its position noted, and pos advanced by its size |
| `TrieWriters.PendingPop` | Util/trie.cpp:119-119 | the node at the head of the queue is due exactly at the end of the file |
| `TrieImages.ScheduledPush` | Util/trie.cpp:127-132 | a node appended to the queue will be written behind all nodes queued before it |
| `TrieImages.RecordedPush` | Util/trie.cpp:127-132 | giving a new node a place disturbs no image already written |
| `TrieImages.InnerImage` | Util/trie_node.cpp:21-35 | an inner node's bytes are its image and as many as its size |
| `TrieImages.LeafImage` | Util/trie_node.cpp:140-177 | a leaf's bytes are its image, lists included, and as many as its size |
| `NodeFiles.SizeOfFile` | Util/trie_node.cpp:53-238 | for every node, dense or sparse, getSizeOfFile is the size of its image modulo 2^32 |
| `NodeFiles.DenseSize` | Util/trie_node.cpp:223-228 | the branch over listed positions sums the list sizes |
| `NodeFiles.SparseSize` | Util/trie_node.cpp:229-235 | the branch over all bits gives the same sum |
| `NodeFiles.WriteLeaf` | Util/trie_node.cpp:140-177 | writes header, list offsets and lists, and leaves the lists empty |
| `NodeFiles.WriteOffsets` | Util/trie_node.cpp:154-167 | the k-th offset is the distance from the first list to the k-th |
| `NodeFiles.WriteInner` | Util/trie_node.cpp:21-35 | writes header and noted offsets and forgets the offset array |
| `NodeFiles.ReadNode` | Util/trie.cpp:147-162 | reading at an image gives a node of its kind with its slots and offsets, and leaves the cursor behind the offsets |
| `NodeFiles.ReadBitmap` | Util/bitmap.cpp:178-192 | reading what dump2file wrote restores the bitmap |
| `NodeFiles.DumpBitmap` | Util/bitmap.cpp:167-175 | writes the number of words and the words |
| `NodeFiles.NodeIsLaidOut` | Util/trie_node.cpp:21-58 | the layout of a node in bytes: kind, number of slots, number of words, the words with their bits, and the offsets |
| `TrieReads.FileLayout` | Util/trie.cpp:105-142 | what stands in a written file for every node, byte by byte, and behind the offsets of a leaf for every one of its lists |
| `TrieReads.QueryBoth` | Util/trie.cpp:76-509 | any run of inserts, queried from memory and from the file written from it: with at most one leaf in reach the file gives the values key by key, the same multiset as memory; for a single key the same sequence; with more leaves, unless begin's leaf has a key before begin, exactly the values of the last leaf's first keys, as many as there are keys in range, if that leaf has as many or no key is logged behind it; and so, for increasing offsets, it is right only with at most one leaf in reach |
| `TrieReads.QueryFromFile` | Util/trie.cpp:393-509 | on a file of a trie, with any number behind an offset array: correct with at most one leaf in reach; with n keys in range and several leaves in reach, as long as no seek leads elsewhere, the values of the last leaf's first n keys, or of all its keys if there are fewer and none is logged behind it, or else an answer that begins with these; nothing if the number leads behind the end of the file |
| `TrieReads.FileQueryIsRight` | Util/trie.cpp:449-451 | the exact answer over several leaves, if begin straddles no leaf and no number but 0 is read behind an offset array: the values of the last leaf's first n keys, n being the number of keys in range; right with at most one leaf in reach; for increasing offsets, unless begin's leaf has a logged key before begin, right only then; with such keys and none from begin on, it depends on the number behind the offset array, of which the cases 0 and at least the file's size are decided |
| `TrieReads.SlotValuesAre` | Util/trie.cpp:455-467 | the values of a leaf's first keys are those of its keys up to a bound, key by key |
| `TrieReads.AllKeysRead` | Util/trie.cpp:440-468 | all leaves in reach together read as many lists as there are distinct logged keys in range |
| `TrieReads.TailOf` | Util/trie.cpp:105-142 | a leaf behind which no key is logged ends the file, so that reading on behind its lists finds nothing |
| `Failures.QueryThreeKeys` | Util/trie.cpp:440-468 | three keys below two leaves, of which the file answers the two of the last leaf |
| `TrieReads.FromLeafStart` | Util/trie.cpp:449-451 | a range that starts with a leaf's first key has no key before begin in its leaf |
| `TrieReads.NoKeyBefore` | Util/trie.cpp:421-496 | without a key before begin in its leaf, all keys in range are in the last leaf in reach exactly if no other leaf is in reach |
| `TrieReads.OnlyBefore` | Util/trie.cpp:443-451 | of several leaves in reach only begin's can be without a key from begin on, so that at most one seek goes by the number behind an offset array |
| `Failures.QueryTwoLeaves` | Util/trie.cpp:449-451 | a log of two keys below different leaves that memory answers and the file does not, whatever stands behind an offset array |
| `Failures.QueryOneBefore` | Util/trie.cpp:443-451 | a log of two keys, the first before the range but in begin's leaf, for which the same query of the file is right or wrong depending on the number behind an offset array |
| `TrieReads.OneLeafReach` | Util/trie.cpp:421-496 | a range with begin>>8 == end>>8 reaches at most one leaf |
| `TrieReads.SingleKey` | Util/trie.cpp:393-509 | a single key is answered from the file as from memory |
| `TrieReads.ReadLevel` | Util/trie.cpp:421-496 | one level read from the file: the nodes in reach, ascending, each read from its exact place, the cursor behind the last header |
| `TrieReads.ReadLeaf` | Util/trie.cpp:440-468 | a leaf's lists are read correctly where the cursor is behind its own header; a leaf without a key from begin on reads nothing and moves the cursor by the number behind its offset array; from among another leaf's lists, a leaf that begin does not straddle reads as many of those as it has keys in range; behind the end of the file nothing is read |
| `TrieReads.LeafRunStep` | Util/trie.cpp:440-468 | how the answer, the cursor and the number of lists read develop over the leaves in reach |
| `TrieReads.ReadChildren` | Util/trie.cpp:469-489 | an inner node read from the file queues exactly its children in range |
| `TrieReads.ListOfSlot` | Util/trie_node.cpp:154-176 | behind a leaf's header its k-th offset leads to its k-th list |
| `FlowLog.ByKeyMultiset` | Util/trie.cpp:455-467 | key order and log order hold the same values |
| `OffsetsResults.OffsetsResult.Intersection` | storage/index.h:105-123 | the offsets become those of the two-pointer walk |
| `OffsetsResults.CommonMeaning` | storage/index.h:105-123 | on ascending inputs: exactly the values whose offset both have, ascending |
| `OffsetsResults.OffsetsResult.Merge` | storage/index.h:124-142 | the offsets become those of the two-pointer walk, which stops when either input ends |
| `OffsetsResults.BlendMeaning` | storage/index.h:124-142 | on ascending inputs: exactly the values of the union up to the smaller of the two last offsets, ascending; nothing if either input is empty |
| `OffsetsResults.MergeIsUnion` | storage/index.h:124-142 | merge gives the whole union exactly if both last offsets are equal or both inputs are empty |
| `IpPatterns.ToRange` | query/command_parser.yy:275-286 | the bounds the loop over the four parts computes, with shifts and ORs on 32 bits |
| `IpPatterns.AssembleBits` | query/command_parser.yy:275-286 | the bounds by bits, for any numbers: every part shifted by a byte for each part behind it, overlapping bits joined, and what leaves 32 bits dropped |
| `IpPatterns.RangeCovers` | query/command_parser.yy:275-286 | every address that fits a pattern is in its range |
| `IpPatterns.ExactPatterns` | query/command_parser.yy:275-286 | the range is exactly the fitting addresses if and only if all numbers are bytes and the asterisks trail |
| `Filters.Eval` | query/command_parser.yy:236-273 | the AND, OR and parenthesis actions compute the filter's answer, the left answer changed in place |
| `Filters.EvalAtom` | query/command_parser.yy:274-379 | an atom's action asks its index for its range, numbers cut to the key type |
| `Filters.FilterMeaning` | query/command_parser.yy:236-379 | for every filter, however AND and OR are nested: the answer is strictly ascending and holds exactly the flows the filter finds, where AND finds what both sides find and OR what either side finds up to the smaller of the two last ones |
| `Filters.FoundIsSelected` | query/command_parser.yy:236-379 | a filter finds selected flows only, and without OR all of them |
| `Filters.OrIsComplete` | query/command_parser.yy:236-273 | if both sides of an OR find all they select, the OR does exactly if the last flow that one side selects is the last that the other selects, or neither selects any |
| `Failures.SecondFlow` | query/command_parser.yy:236-273 | two flows with ports 1 and 2 of which the filter for either port finds the first only |
| `Filters.ExactAtoms` | query/command_parser.yy:274-379 | an atom selects exactly the records that have what it says if and only if it is well formed: trailing asterisks and bytes, ports of 16 bits, protocols of 8 |
| `Filters.WellFormedFilter` | query/command_parser.yy:236-379 | a filter of well-formed atoms selects exactly the records it describes |
| `Filters.AtomCovers` | query/command_parser.yy:274-379 | no atom misses a record that has what it says |
| `Filters.ParseCommand` | query/command_parser.yy:205-235 | an empty filter leaves the result null; any other gives the filter's answer |
| `Indexes.IndexBase.AddItem` | storage/index.h:188-194 | stages the pair behind those staged before |
| `Indexes.IndexBase.InsertRecords` | storage/index.h:196-203 | what the trie holds followed by what is staged is unchanged, and nothing stays staged |
| `Indexes.IndexBase.QueryFromMem` | storage/index.h:238-242 | a new answer from the trie |
| `Indexes.Index.constructor` | storage/index.cpp:75-181 | six empty indexes with keys of 4, 4, 2, 2, 1 and 4 bytes that share nothing |
| `Indexes.Index.AddRecord` | storage/index.cpp:218-226 | the six indexes stage the source and destination address, the ports, the protocol and the start time of the record, each with the flow's value |
| `Indexes.Index.BuildIndex` | storage/index.cpp:204-215 | drains one index and leaves the others alone |
| `Indexes.Index.QueryFromMem` | storage/index.cpp:244-256 | asks the index of the code with bounds cut to its key type |
| `Storages.TraceFile.WriteFlowRecord` | storage/trace_file.cpp:93-100 | flows are numbered 1, 2, 3, ... and the file's times span those of its flows |
| `Storages.StoreFlowRecord` | storage/storage.cpp:31-34 | the flow's number becomes its offset in every index |
| `Storages.StoreAndFilter` | query/command_parser.yy:205-379 | any batch of records stored, indexed, drained and filtered: a strictly ascending list of exactly the numbers of the records the filter finds, all of them selected; all selected ones if the filter has no OR; with an OR of complete sides all selected ones exactly if both sides end with the same record |
| `Storages.StoreAndAskTime` | storage/index.cpp:218-256 | any batch of records stored, indexed, drained and asked for a span of start times: ascending, exactly the numbers of the records whose start time is in the span |
| `ListIntersections.Intersection` | Util/linklist.h:308-362 | leaves the common elements in new chunks, empties the other list, and frees every old chunk of both once |
| `ListIntersections.WalkChunks` | Util/linklist.h:322-350 | the outer loop terminates with one list used up and the common elements kept |
| `ListIntersections.IntersectionMeaning` | Util/linklist.h:308-362 | on strictly ascending lists exactly the common elements, in order, all chunks but the last full; with none in common an empty chunk is left |
| `SkipLists.SkipList.AddElement` | Util/linklist2.h:123-146 | appends a node; every node's skip pointer leads 200 nodes ahead |
| `SkipLists.SkipList.Merge` | Util/linklist2.h:187-255 | relinks the nodes of both lists into one acyclic chain, adds the counts, empties the other list, and leaves the tail where it was |
| `SkipLists.Relink` | Util/linklist2.h:224-249 | the relinking loop ends with the chain it should build |
| `SkipLists.MergedBag` | Util/linklist2.h:187-255 | every node of both lists is in the merged chain once |
| `SkipLists.MergedSorted` | Util/linklist2.h:187-255 | sorted lists merge into a sorted chain |
| `SkipLists.MergedAscends` | Util/linklist2.h:187-255 | strictly ascending lists without common values merge into a strictly ascending chain |
| `SkipLists.MergedTies` | Util/linklist2.h:187-255 | the order of nodes with equal values: first the head of the list with the smaller head, then those of the other list, then the rest of that one's |
| `SkipLists.MergedLast` | Util/linklist2.h:187-255 | the tail, which merge does not move, is the last node exactly if the other list ends before it |
| `Failures.LeftTail` | Util/linklist2.h:187-255 | the tail of a list of 1 is not moved when a list of 2 is merged into it |
| `SkipLists.SkipList.Intersection` | Util/linklist2.h:265-309 | keeps nodes in place, deletes the others, and counts the kept ones |
| `SkipLists.SiftedMeaning` | Util/linklist2.h:265-309 | on ascending lists exactly the nodes whose value the other list has are kept, in order |
| `WriteFlags.ResetClears` | storage/index.h:308-312 | in every reachable state a thread's XOR finds its own bit set, clears it, and changes no other |
| `WriteFlags.OnlyResetClears` | storage/index.cpp:47-55 | a bit is cleared only by its own thread after that thread's write |
| `WriteFlags.RunSafe` | storage/index.cpp:47-62 | the invariant holds in every state of every interleaving |
| `WriteFlags.SwapLoses` | storage/index.cpp:47-55 | between swaps the drained pairs followed by the staged ones are those added, in order; a swap loses what is staged |
| `WriteFlags.SwapWrites` | storage/index.cpp:47-55 | in every run, a write loses exactly what was added behind the thread's last drain, and writes all else that was added behind its last write |
| `WriteFlags.RequestHonoured` | storage/index.h:302-312 | the bit that a request sets is never cleared without a write of that index after the request, exactly if its thread does not stand between its write and its reset |
| `WriteFlags.CheckDecides` | storage/index.cpp:49-55 | a thread that checks its bit writes next, in every run, if the bit is set, and otherwise drains next |
| `Failures.LostRequest` | storage/index.h:302-312 | a run from the start to a state in which a request is lost, and what was staged is lost |
| `HashTables.EveryRun` | main.cpp:78-95 | for every run of arrivals and exports and every five-tuple: what was exported followed by what its live flow holds is what arrived, in order |
| `HashTables.RunTable` | main.cpp:78-95 | the same for every run of arrivals and table scans, with any clock and timeouts, on the table object |
| `HashTables.TableScanKeeps` | main.cpp:78-95 | a scan of all buckets keeps that partition |
| `HashTables.HashTable.Scan` | main.cpp:78-95 | a scan visits every bucket and exports what is due, bucket by bucket: every exported flow's last packet came more than timeout seconds before now, and no flow left in any bucket has such a last packet |
| `HashTables.ArriveKeeps` | hash_bucket.cpp:15-31 | an arrival keeps that partition |
| `HashTables.ExportKeeps` | main.cpp:83-92 | an export keeps that partition |
| `HashTables.OneFlowEach` | hash_bucket.cpp:15-31 | no two live flows share a five-tuple |
| `HashTables.EachPacketOnce` | main.cpp:78-95 | every packet is in the exported flows or the live one as often as it arrived |
| `HashTables.HashBucket.AddPacket` | hash_bucket.cpp:15-31 | the first flow with the packet's five-tuple takes it at its end, or a new flow behind all others does |
| `HashTables.HashBucket.DeleteItem` | hash_bucket.cpp:33-51 | exactly one flow leaves the bucket |
| `HashTables.HashBucket.Scan` | main.cpp:83-92 | the flows whose last packet came more than timeout seconds before now are exported and deleted, the others stay in order |
| `HashTables.ScanInOrder` | main.cpp:83-92 | a scan goes flow by flow in the order of the bucket |
| `HashTables.ScanSplits` | main.cpp:83-92 | a scan splits the packets of every five-tuple between what leaves and what stays |
| `HashTables.HashTable.AddPacket` | hash_table.cpp:18-22 | a packet goes to the bucket of its hash code and no other bucket changes |
| `HashTables.HashBits` | Capture/packet.cpp:55-57 | every bit of the hash code is the parity of that bit of the five fields |
| `HashTables.PacketsItem.AddPacket` | Capture/packet.h:353-358 | packets are kept in arrival order; the first gives the five-tuple |
| `BTreeNodes.LeafNode.FindPosition` | Util/btree_node.h:47-67 | the binary search gives the first key not below the given one, or -1 |
| `BTreeNodes.LeafNode.AddItem` | Util/btree_node.h:296-337 | the value joins its key's list or gets a new sorted place; -1 and no change if a new key has no room |
| `BTreeNodes.LeafNode.CopyItems` | Util/btree_node.h:340-346 | the given keys go behind the leaf's own as far as they fit, their lists to the front; an empty leaf, as splitNode makes it, gets the given part of the other |
| `BTreeNodes.LeafNode.CopyKeys` | Util/btree_node.h:78-82 | as many of the given keys as there is room for go behind the own ones |
| `BTreeNodes.LeafNode.Split` | Util/btree.h:141-152 | the larger half moves to a new leaf and the value goes where its key belongs |
| `BTrees.SplitIsRight` | Util/btree.h:141-152 | the halves together hold the entries and the new one, and the middle key stays the last of the smaller half |
| `BTrees.MidPosition` | Util/btree.h:157-168 | the parent takes the smaller half in right before the larger one |
| `BTrees.AddItemIsRight` | Util/btree.h:101-197 | an insertion goes through exactly if the tree is empty, its root is a leaf, or the leaf the key leads to or the node above it has room; then all leaves stay at one depth, keys strictly ascend, inner keys are the largest below them, and exactly the new entry is added |
| `BTreeRuns.AddedMeaning` | Util/btree_node.h:296-337 | an insertion appends to the list of its key and leaves every other list alone |
| `BTreeRuns.FilledHasRoom` | Util/btree.h:141-197 | with leaves at least half full below the root and fewer than 8256 keys there is room for any key |
| `BTreeRuns.FilledStays` | Util/btree.h:141-197 | insertions keep the leaves below the root at least half full |
| `BTreeRuns.AddAll` | Util/btree.h:101-197 | any run of insertions with at most 8256 distinct keys into an empty tree goes through, and the tree has exactly these keys, each with its values in order |
| `BTreeRuns.AddAscending` | Util/btree.h:101-197 | that bound is sharp: after 8256 ascending keys the next larger key needs an inner node split |

## Left out

- TrieNode: inner and leaf nodes are one class with a constant kind, where the source has two subclasses; file reading and writing of nodes, and trie queries, walks and writing, are module-level methods on the objects.
- QueryFromFile: with another leaf in reach, the answer is left open in three cases: there are more keys in range than the last leaf in reach has and keys are logged behind that leaf (the answer then begins with all of that leaf's values, and goes on with what the next node's bytes give); begin's leaf has logged keys on both sides of begin (what is read then depends on the bytes behind the first list of the last leaf, which may be the middle of a value); or it has keys before begin only and the number that stands in memory behind its offset array is neither 0 nor at least the size of the file.
- SizeOfFile: the source adds up the size as a signed 32-bit number, which overflows for a node of 2 GiB or more; the sum is taken modulo 2^32.
- QueryFromMem: on a trie with a list that is out of date; the query then reads pointers in slots that need not be taken, or a cell that was never set.
- WriteToFile: likewise, on a trie with a list that is out of date.
- Destroy: likewise.
- QueryBoth: the file is queried only if it has less than 2^32 bytes, beyond which recorded offsets wrap and lead elsewhere, and if no key has 2^29 values, beyond which a list is not written whole.
- StoreAndFilter: what the answer means is stated for fewer than 2^32 flows, because offsets have 32 bits.
- ReadList: where the file is too short, missing values are arbitrary, and a count cut short is read as a smaller number.
- WriteList: the list's 32-bit nodeCount is not made to wrap; padding bytes of a value are written as 0.
- WriteAndRead: for lists of fewer than 2^32 elements, the range of the count in the file; of 2^29 elements or more, only the values that are written are restored.
- AddItem: allocation failure and the printing of errors.
- Eval: the branch on a request's index files, and a null query object; only the in-memory branch is modelled. The generated scanner and parser tables are not part of this model: a filter is its parse tree, with AND and OR on one left-associative level.
- ToRange: the splitting of the address text into its four parts; a part is an asterisk or the number atoi returns for it.
- Intersection: elements are compared by offset; releasing memory is recorded as the sequence of freed nodes.
- ListIntersections.Intersection: what a later merge would read from the empty chunk that an empty result leaves.
- SkipList: elements are natural numbers; skip pointers are stated for addElement only, because merge and intersection leave them as they are.
- WriteFlags.SwapLoses: the contents of the swapped index are values; no claim that a dump loses nothing, because it does lose what was staged since the last drain.
- WriteFlags.RunSafe: the exit signal that ends an index thread; the threads run on.
- HashTables.EveryRun: arrivals and exports are atomic steps; the mutexes, the clock and the packet bytes are not modelled, and table size 0 is excluded because the source would divide by it.
- BTrees.Add: the tree is a value, so sharing and update in place above the leaves are not captured; the leaves' arrays are modelled in place. Splitting an inner node is left out: the source loses its separator key there.
- AddItemIsRight: says when an insertion needs an inner node split, but not what the source's split makes of the tree.
- Trie::readFromFile and LinkList::readFromFile: the list loop does not advance for a non-empty list, so no reload round trip holds.
- The disabled merges and the non-vector readFromFileAndMerge of linklist.h.
- The query that reads B-tree files.
- saveMatchedFlowsToFile and saveMatchedPacketsToFile.
- Node pools, Bitmap::clear, merge and copy, the resource pool, string hashes and the bloom filter.
- MySQL, logging, configuration, packet capture, sockets, terminal output, file names and local time; file-system errors (reads and writes are total operations on bytes).
- Debug assertions: release-mode behaviour is modelled.
