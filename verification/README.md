# Verified model of the device framework's data structures and protocols

The project models five components of the repository in Dafny and proves what they promise.

**The hash table** (`khash.h`, `hash.c`): open addressing with double hashing, two-bit bucket states
packed into words, tombstones, a schedule of prime sizes and an in-place rehash that evicts entries
which have not moved yet. `Map` is a class over arrays of keys, values and flag words, with an arbitrary
hash function. `Rehash` states what holds at every step of the rehash, `TableInvariant` what holds between
operations, `RehashCost` how the counters move and what that
costs, and `HashRun` that every run refines a finite map at a bounded rehashing cost. The sizes
are proved prime in `PrimeTable`; the probe sequence, which has no exit test in the rehash, ends because
of that. `n * 0.77 + 0.5` is modelled as `(77 * n + 50) / 100`, which is the same for these sizes.

**The list and the registry** (`list.c`, `notify.c`): a doubly linked list reached through cursors, pointers
to the pointer that leads to a node, counted from either end, and an iterator that keeps only a negative
index. The nodes are heap objects. The registry is two levels of this list and refines a multimap.

**Argument marshalling** (`rpc_helper.h`, `module.c`): the four loops that pack, unpack, repack and copy
back. The transport is a copy of the bytes. A remote call meets the contract of a local call.

**NMEA sentences** (`minmea.c`): the checksum and framing of sections 5.2.3 and 5.3 of NMEA 0183, and the
scanner that reads fields as a format directs, all directives of it. `NmeaMeaning` says byte for byte what each
directive makes of a field, and `NmeaRoundTrip` that a sentence written for any values is accepted and scanned
back to them.

**Strings and the byte queue** (`str.c`, `ringbuf.c`): count, split and replace over buffers that grow, and a
byte queue around a buffer of 1024 bytes.

Methods follow the loops and assignments of the source and are proved against functions on values; what
the source promises is proved about those functions. A C object that a function replaces by a new one, as
`str_resize` does, is one object whose fields are replaced.

Where the code does not do what its documentation or name suggests, the model follows the code:

- the two largest table sizes are not usable, because the index plus the stride can exceed 32 bits;
- removing the only node of a list does not keep the list well formed, from either end;
- a ring buffer that is full can never be read again, because a read takes at most as many bytes as are free;
- the scale of a fractional field leaves 32 bits when ten of its fraction digits fit the value, as in
  0.0000000001;
- an integer field that is blank can be read from the next line of the input, on sentences that
  `minmea_check` refuses.

Each of these has a lemma or contract with the exact condition.

## Model

| member | source | states |
|---|---|---|
| `PrimeTable.ScheduleIsPrime` | framework/include/common/khash.h:95-104 | each of the 29 bucket counts from 3 to 1610612741 is prime; nothing is assumed, every entry carries a checked certificate |
| `Primes.PocklingtonOne` | framework/include/common/khash.h:95-104 | the criterion behind the certificates: a base of full order for one prime power above the square root makes the number prime |
| `Primes.PocklingtonTwo` | framework/include/common/khash.h:95-104 | the same criterion with two primes |
| `Probing.AdvanceIsModular` | framework/include/common/khash.h:148-149 | stepping by a stride and subtracting, in 32 bits, is addition modulo the bucket count if and only if index plus stride stays below 2^32 |
| `Probing.AdvanceOverflows` | framework/include/common/khash.h:102 | at the next larger count, 3221225473, a concrete index and stride overflow and the step goes to the wrong bucket |
| `Probing.ProbeIs` | framework/include/common/khash.h:145-149 | the j-th probe is (h % n + j * (1 + h % (n - 1))) % n |
| `Probing.ProbeCovers` | framework/include/common/khash.h:145-151 | for a prime count every bucket is met within the first n probes, from any hash value |
| `Probing.ProbeDistinct` | framework/include/common/khash.h:145-151 | no bucket is met twice within the first n probes |
| `Probing.ProbeReturnsHome` | framework/include/common/khash.h:146-150 | within the first n steps the probe is back home exactly after n, so an i == last test only fires when all n buckets were seen |
| `BucketFlags.ShiftIsDoubled` | framework/include/common/khash.h:106 | the shift (i & 0xf) << 1 is twice the place of the bucket in its word |
| `BucketFlags.TestsReadBucket` | framework/include/common/khash.h:106-108 | the three tests tell exactly whether bucket i is empty, deleted, or either |
| `BucketFlags.MacrosChangeOneBucket` | framework/include/common/khash.h:109-112 | each of the four setters changes the state of bucket i as named and of no other bucket |
| `BucketFlags.FillIsEmpty` | framework/include/common/khash.h:165-166 | (n >> 4) + 1 words of 0xaa describe n empty buckets |
| `BucketFlags.EmptyAt` | framework/include/common/khash.h:106 | the word test agrees with the bucket array |
| `BucketFlags.DelAt` | framework/include/common/khash.h:107 | the word test agrees with the bucket array |
| `BucketFlags.EitherAt` | framework/include/common/khash.h:108 | the word test says the bucket is not live |
| `BucketFlags.NewFlags` | framework/include/common/khash.h:165-166 | new flag words, all n buckets empty |
| `BucketFlags.FillFlags` | framework/include/common/khash.h:137 | the same in place |
| `BucketFlags.MarkNotEmpty` | framework/include/common/khash.h:190 | one bucket loses its empty bit, all others keep their state |
| `BucketFlags.MarkLive` | framework/include/common/khash.h:242 | one bucket becomes live, all others keep their state |
| `BucketFlags.MarkDeleted` | framework/include/common/khash.h:180 | one bucket gets its deleted bit, all others keep their state |
| `HashTable.EmptyAhead` | framework/include/common/khash.h:147-151 | while some bucket is not in use, a search from any home meets an empty bucket before it has gone round |
| `HashTable.SearchStarts` | framework/include/common/khash.h:145-146 | a search starts at the home bucket with nothing missed |
| `HashTable.SearchStep` | framework/include/common/khash.h:147-151 | passing a deleted or foreign bucket misses no occurrence of the key, moves to the next probe and is not back home |
| `HashTable.SearchEnds` | framework/include/common/khash.h:152 | where the search stops, an empty bucket means the key is absent and any other is the bucket of the key with its value |
| `HashTable.PassedBelongs` | framework/include/common/khash.h:229-237 | the last tombstone passed, or else the empty bucket the search ends at, is where a new key belongs |
| `HashTable.BelongsLast` | framework/include/common/khash.h:229-237 | no tombstone of the search lies behind the one where a new key belongs, and without any it belongs in the empty bucket at the end |
| `HashTable.InsertRepresents` | framework/include/common/khash.h:240-249 | writing a new key into a free bucket its search ends at gives a table of the map with the pair added |
| `HashTable.UpdateRepresents` | framework/common/hash.c:21-22 | overwriting the value of a present key updates the map |
| `HashTable.DeleteRepresents` | framework/include/common/khash.h:255-258 | a tombstone on a live bucket gives a table of the map without its key, all other keys still findable |
| `HashTable.EmptyRepresents` | framework/include/common/khash.h:136-138 | all buckets empty is a table of the empty map |
| `HashTable.LiveCount` | framework/include/common/khash.h:243-258 | live buckets and keys are equally many, and a tombstone leaves the map strictly smaller than the buckets in use |
| `HashTable.VisitedAll` | framework/include/common/hash.h:56-65 | a pass over all buckets that skips the others lists every pair of the map once and nothing else |
| `Rehash.Start` | framework/include/common/khash.h:174-175 | before the loop the pending entries are exactly the entries of the map |
| `Rehash.PickUp` | framework/include/common/khash.h:176-180 | taking a pending entry in hand keeps placed, pending and in-hand entries together exactly the map |
| `Rehash.FreeBucket` | framework/include/common/khash.h:183-189 | the new layout has an empty bucket on the probe path of the key in hand |
| `Rehash.Place` | framework/include/common/khash.h:190-198 | putting the entry in hand into a bucket nobody needs keeps that invariant, and the key is findable from its home |
| `Rehash.Evict` | framework/include/common/khash.h:190-194 | exchanging it with the still pending entry of that bucket keeps it too, with the evicted entry in hand |
| `Rehash.Finish` | framework/include/common/khash.h:208-212 | with nothing pending and nothing in hand the new layout is a table of the original map, without tombstones |
| `Sizing.NextSize` | framework/include/common/khash.h:160-162 | for every request below the last size the schedule loop finds the smallest size above it, never reading outside the table |
| `Sizing.SizeIsGood` | framework/include/common/khash.h:95-104 | every size of the model is prime and within the probing bound |
| `Sizing.UpperBoundRounds` | framework/include/common/khash.h:163 | the load limit is within one half of 0.77 n |
| `Sizing.UpperBoundBelow` | framework/include/common/khash.h:212 | the load limit is at least 2 and below the bucket count |
| `Sizing.RequestedTier` | framework/include/common/khash.h:219-220 | a request of one less than the count keeps the size, of one more moves to the next size |
| `Sizing.SameSizeHeadroom` | framework/include/common/khash.h:163 | rehashing at the same size passes the load test and leaves a quarter of the buckets as headroom |
| `Sizing.GrowHeadroom` | framework/include/common/khash.h:163 | growing passes the load test and leaves a quarter of the new buckets as headroom |
| `Sizing.GrowthRate` | framework/include/common/khash.h:161-163 | the load limit of the next size exceeds the present one by at least a quarter of the next size |
| `Sizing.PutRequestFits` | framework/include/common/khash.h:218-221 | the size a put requests lies inside the schedule |
| `Sizing.PutRequestPasses` | framework/include/common/khash.h:163-221 | every rehash a put triggers passes the load test, so it really happens, with a quarter of the new size free |
| `TableInvariant.LoadInvariant` | framework/include/common/khash.h:117-122 | in every sound table size <= n_occupied <= upper_bound < n_buckets, size counts the map, n_occupied counts live and deleted buckets |
| `TableInvariant.NewSound` | framework/include/common/khash.h:123-125 | the zeroed table is sound for the empty map |
| `TableInvariant.ClearSound` | framework/include/common/khash.h:134-140 | clearing keeps it sound, for the empty map |
| `TableInvariant.InsertSound` | framework/include/common/khash.h:240-249 | inserting into an empty bucket or over a tombstone, with its counter updates, keeps it sound |
| `TableInvariant.UpdateSound` | framework/common/hash.c:21-22 | storing a value keeps it sound |
| `TableInvariant.DeleteSound` | framework/include/common/khash.h:255-258 | deleting, which lowers size but not n_occupied, keeps it sound |
| `TableInvariant.StartSound` | framework/include/common/khash.h:163-175 | a sound table that passes the load test can start the rehash |
| `TableInvariant.FinishSound` | framework/include/common/khash.h:209-212 | the counters set at the end of a rehash make the new layout sound for the same map |
| `KHash.Widen` | framework/include/common/khash.h:167-171 | growing the key and value arrays keeps their contents |
| `KHash.Shrink` | framework/include/common/khash.h:203-207 | cutting them off afterwards keeps the part in use |
| `KHash.FindFree` | framework/include/common/khash.h:183-189 | the loop without an exit test ends, at an empty bucket the key is findable at |
| `KHash.Displace` | framework/include/common/khash.h:181-199 | the inner loop ends and leaves nothing in hand; all entries still are exactly the map |
| `KHash.MoveEntries` | framework/include/common/khash.h:175-202 | the outer loop leaves nothing pending and scans each old bucket once |
| `RehashCost.RoomLeft` | framework/include/common/khash.h:160-221 | whenever the counters are at the limit, the size a put asks for leaves a quarter of its buckets as headroom, whether it keeps the count or grows |
| `RehashCost.PutMoves` | framework/include/common/khash.h:215-252 | what a put does to each counter by its return code; the table grows if and only if the limit is reached with at least half the buckets live, to the next size |
| `RehashCost.PutPaid` | framework/include/common/khash.h:215-252 | whatever a put does to the counters, four buckets a put pay for all buckets scanned so far and for the next rehash |
| `RehashCost.LessPaid` | framework/include/common/khash.h:134-140 | clearing and deleting keep that account |
| `KMap.Map.constructor` | framework/include/common/khash.h:123-125 | a new table is the empty map with nothing scanned |
| `KMap.Map.Clear` | framework/include/common/khash.h:134-140 | afterwards the map is empty at the same bucket count |
| `KMap.Map.Get` | framework/include/common/khash.h:141-154 | the bucket of the key with its value, or n_buckets if and only if the key is absent; the i == last exit is never taken |
| `KMap.Map.FindSlot` | framework/include/common/khash.h:222-239 | the bucket of the key if present, else the last tombstone on its probe path or, if there is none, the empty bucket at its end; the i == last exit is never taken |
| `KMap.Map.Resize` | framework/include/common/khash.h:155-214 | for every requested size: the map is unchanged, and whenever the load test passes the table has the requested size and no tombstones |
| `KMap.Map.Rebuild` | framework/include/common/khash.h:174-213 | the rehash itself: same map, no tombstones, and the scanned count grows by the turns of the loop, one for each old bucket |
| `KMap.Map.MakeRoom` | framework/include/common/khash.h:218-221 | at the limit the table is rehashed once, scanning every old bucket, to exactly the count kept or the next one; below it nothing is done; afterwards the limit is not reached and the map is the same |
| `KMap.Map.Put` | framework/include/common/khash.h:215-252 | the key is in the map afterwards, with its old value if it had one; the return code tells present, empty bucket and tombstone apart; the counters and the buckets scanned are exact |
| `KMap.Map.Store` | framework/include/common/khash.h:240-251 | the same without the rehash, with the counters exact |
| `KMap.Map.Del` | framework/include/common/khash.h:253-259 | removes the key of a live bucket and does nothing at another |
| `KMap.Map.SetKey` | framework/common/hash.c:18-23 | the map gets the pair; the buckets scanned grow by the old count exactly when the limit was reached |
| `KMap.Map.GetKey` | framework/common/hash.c:29-33 | the value of the map, or null |
| `KMap.Map.HasKey` | framework/common/hash.c:39-43 | whether the map has the key |
| `KMap.Map.DelKey` | framework/common/hash.c:49-53 | the map loses the key |
| `KMap.Map.SizeOf` | framework/include/common/hash.h:43 | the number of keys of the map |
| `KMap.Map.Each` | framework/include/common/hash.h:56-65 | every pair of the map exactly once, in bucket order |
| `HashRun.Step` | framework/common/hash.c:18-53 | a set adds the pair, a delete drops the key, a clear drops all, and each answer is that of the finite map; the counters move as stated and old buckets are scanned only for a set at the limit |
| `HashRun.MapAfterIs` | framework/common/hash.c:18-53 | a run leaves exactly the keys that were set and neither deleted nor cleared afterwards, each with the value of its last set |
| `HashRun.CostBound` | framework/include/common/khash.h:155-252 | along any course of the counters from a new table, whatever the operations and their return codes, the rehashes scan at most four old buckets for each set |
| `HashRun.Run` | framework/common/hash.c:18-53 | any sequence of operations from a new table, with any hash function, is answered as by a finite map; the counters read off after each operation move as stated, and the buckets the table has scanned are the cost of that course, so at most four for each set |
| `LinkedList.InsertPlacesAgree` | framework/include/common/list.h:6-12 | inserting at i and at i - size - 1 names the same gap, for every i from 0 to size |
| `LinkedList.List.constructor` | framework/common/list.c:5-9 | a new list is empty and well formed |
| `LinkedList.List.CursorAt` | framework/common/list.c:21-51 | from the head, index i gives the field that leads to node i: head, or next of node i - 1; from the tail, -k gives tail or the prev of the node behind; one step further than either end, none |
| `LinkedList.List.Get` | framework/common/list.c:128-141 | node index for 0 <= index < size, node size + index for -size <= index < 0, null for any other |
| `LinkedList.List.Insert` | framework/common/list.c:67-119 | index from 0 to size puts the data before that place, -1 to -size - 1 behind the place counted from the tail; next, prev, head, tail and size stay consistent, and an index out of range changes nothing |
| `LinkedList.List.SpliceAtNode` | framework/common/list.c:82-94 | the four pointer updates bridge exactly the two new gaps, whichever cursor kind is written through |
| `LinkedList.List.SpliceAtNull` | framework/common/list.c:95-111 | the same at either end |
| `LinkedList.List.Bypass` | framework/common/list.c:175-191 | the updates bridge the gap on lists of two or more nodes; on the only node, counting from the head follows a null pointer and counting from the tail leaves tail behind |
| `LinkedList.List.Remove` | framework/common/list.c:158-195 | returns node index, or size + index for a negative index, or null out of range, and removes just it from the sequence; the list stays well formed if and only if it had at least two nodes or nothing was removed |
| `ListIter.Iter.constructor` | framework/common/list.c:276-287 | the iterator stands before the head |
| `ListIter.Iter.HasNext` | framework/common/list.c:289-301 | true exactly when an element follows the current one |
| `ListIter.Iter.Next` | framework/common/list.c:303-312 | the index goes up by one and names the node there; before the last element that is the next one |
| `ListIter.Iter.Prepend` | framework/common/list.c:314-317 | inserts before the current element, which stays current; without one it does nothing |
| `ListIter.Iter.Append` | framework/common/list.c:319-322 | inserts behind the current element and makes the inserted one current |
| `ListIter.Iter.Remove` | framework/common/list.c:324-332 | removes the current element, and its predecessor becomes current; without one it does nothing; the list stays well formed unless that was its only element |
| `ListIter.GetData` | framework/common/list.c:143-156 | the first node whose data compare equal, or null when there is none |
| `ListTraversal.Do` | framework/common/list.c:314-332 | each call acts on the elements up to the current one alone, so nothing still to be visited changes |
| `ListTraversal.Visit` | framework/common/list.c:289-332 | one turn, of any calls, takes the next of the original nodes and leaves those behind it |
| `ListTraversal.TurnInOrder` | framework/common/list.c:314-332 | a turn that prepends, keeps or removes its element and appends leaves the inserted elements in order around its place |
| `ListTraversal.ResultInOrder` | framework/common/list.c:276-332 | a whole traversal of such turns leaves exactly the kept and the inserted elements, in order |
| `ListTraversal.Traverse` | framework/common/list.c:276-332 | a loop that prepends, appends and removes at will, in any order and number, visits every original node once, from head to tail, and no inserted one, and leaves exactly what its calls make of the sequence, unless it removes the only node |
| `ListRun.Run` | framework/common/list.c:67-195 | any sequence of insertions, removals and look-ups at any indices is answered as by a sequence, to its end if and only if none removes the only element |
| `ListRun.Step` | framework/common/list.c:67-195 | one operation acts and answers as on a sequence, and breaks the list if and only if it removes the only element |
| `ListRun.InsertThenLookup` | framework/include/common/list.h:6-15 | an element inserted at either index of a gap is found at its index from either end, and every other element keeps its place before or behind it |
| `ListRun.InsertThenRemove` | framework/common/list.c:67-195 | removing at the index inserted at, from either end, gives the sequence back |
| `ListRun.RemoveThenInsert` | framework/common/list.c:67-195 | inserting again what was removed gives it back, and out of range neither does anything |
| `Notify.Registry.constructor` | framework/common/notify.c:6-12 | a registry starts as the empty multimap |
| `Notify.Registry.Find` | framework/common/notify.c:61 | finds the entry of a name if and only if the name is registered |
| `Notify.Registry.AddNotify` | framework/common/notify.c:20-29 | a new name gets one entry, without handlers, behind the others |
| `Notify.Registry.AddHandler` | framework/common/notify.c:36-46 | the entry gains the handler at its end; no other entry changes |
| `Notify.Registry.Add` | framework/common/notify.c:56-68 | the multimap gains the handler under the name |
| `Notify.Registry.GetHandlers` | framework/common/notify.c:70-75 | the handlers of a registered name; for any other name the code follows a null pointer |
| `Notify.RegistryIsMultimap` | framework/common/notify.c:56-75 | after any registrations a name is present exactly when something was registered under it, with exactly those handlers in order |
| `Notify.Run` | framework/common/notify.c:56-68 | a run of registrations leaves a registry of that multimap, one entry a name |
| `RingBuf.RingFront` | framework/common/ringbuf.c:118-127 | the bytes up to n and the bytes from the moved read cursor on are the queue, around the end of the buffer |
| `RingBuf.RingBack` | framework/common/ringbuf.c:164-173 | bytes written at the write cursor into free space append to the queue |
| `RingBuf.RingBuffer.constructor` | framework/common/ringbuf.c:4-10 | a new buffer is the empty queue |
| `RingBuf.RingBuffer.Find` | framework/common/ringbuf.c:80-94 | the first place of the byte in the queue, or -1 if and only if it is not there |
| `RingBuf.RingBuffer.Read` | framework/common/ringbuf.c:96-134 | delivers the front of the queue in order: the least of the bytes asked for, held and free, none for a request of zero or less |
| `RingBuf.RingBuffer.Write` | framework/common/ringbuf.c:136-181 | appends a prefix of the data: all of it, or as much as fills the 1024 bytes; nothing for a size of zero or less |
| `RingRun.Conservation` | framework/common/ringbuf.c:96-181 | over any run of reads and of writes below 1024 bytes, what was read followed by what is held is what was accepted: nothing lost, doubled or made up |
| `RingRun.ReadBlocked` | framework/common/ringbuf.c:111-116 | a read of a non-empty buffer delivers nothing if and only if the buffer is full |
| `RingRun.MovesMost` | framework/common/ringbuf.c:96-181 | the same of the operations of the queue: a write takes all or fills it, a read gives the least of asked, held and free |
| `RingRun.FullIsStuck` | framework/common/ringbuf.c:111-116 | a full buffer stays exactly as it is whatever reads and writes below 1024 bytes follow |
| `RingRun.FullIsReachable` | framework/common/ringbuf.c:160-173 | two writes suffice to get there |
| `RingRun.Step` | framework/common/ringbuf.c:96-181 | one operation of the buffer is that of the queue, in what it holds, delivers and returns |
| `RingRun.Run` | framework/common/ringbuf.c:96-181 | every operation of a run delivers and returns what that of the queue does, and the buffer satisfies the conservation law |
| `RpcWire.WordRoundTrip` | framework/include/common/rpc_helper.h:206-212 | an 8-byte word is read back as it was written |
| `RpcWire.ReadArgument` | framework/include/common/rpc_helper.h:221-228 | the length, reference and bytes of an argument are read back from any place that holds it |
| `RpcWire.ArgumentAt` | framework/include/common/rpc_helper.h:206-253 | the i-th argument of a message lies at the offset every one of the four loops computes, and ends where the next begins |
| `RpcWire.MessageConcat` | framework/include/common/rpc_helper.h:203-212 | the message of arguments followed by others is their messages in this order |
| `RpcWire.MessageUpdate` | framework/include/common/rpc_helper.h:248-251 | changing one argument without changing its length changes just its bytes of the message and no offset |
| `RpcCall.TotalLength` | framework/include/common/rpc_helper.h:183-192 | the length added up is that of the packed message |
| `RpcCall.Parts` | framework/include/common/rpc_helper.h:175-192 | each argument is sent with its address, a sized one with the bytes of its buffer, an out one with none |
| `RpcCall.Datas` | framework/include/common/rpc_helper.h:44-145 | what the function is handed at each place is the bytes of the argument there |
| `RpcCall.Pack` | framework/include/common/rpc_helper.h:201-212 | the request is the message of the arguments |
| `RpcCall.Unpack` | framework/include/common/rpc_helper.h:242-253 | each slot points to its argument, and the reference of an out-sized one becomes the address of its slot |
| `RpcCall.ArgMalloc` | framework/common/module.c:429-441 | for an out-sized argument exactly its slot is replaced by new memory of the requested length; for any other nothing happens |
| `RpcCall.ServeSized` | framework/include/common/rpc_helper.h:242-253 | the handler writes a sized argument in place |
| `RpcCall.ServeOut` | framework/common/module.c:429-441 | the handler fills an out argument in the memory it asked for |
| `RpcCall.Invoke` | framework/include/common/rpc_helper.h:242-260 | the function is called on exactly the bytes received for each argument, and afterwards every slot holds the answer of its argument |
| `RpcCall.Repack` | framework/include/common/rpc_helper.h:255-270 | the reply is the message of the answers |
| `RpcCall.CopyBack` | framework/include/common/rpc_helper.h:218-234 | each caller buffer gets the bytes of its answer, an out pointer gets new memory with them, and a sized answer of the wrong length is left alone |
| `RpcCall.RemoteCall` | framework/include/common/rpc_helper.h:175-272 | for any arguments and any function that keeps sizes: it is handed the bytes of each sized buffer and nothing for an out argument, and every caller buffer and out pointer ends up with the bytes it returned for that argument |
| `RpcCall.LocalCall` | framework/include/common/rpc_helper.h:123-154 | calling the function directly meets the same postcondition, on the same arguments, so the remote call refines it |
| `NmeaFrame.Checksum` | hardware/gps/minmea.c:31-44 | the XOR of exactly the bytes between an optional $ and the first * or the end |
| `NmeaFrame.XorConcat` | hardware/gps/minmea.c:37-41 | the XOR of nothing is 0, of one byte that byte, of two texts the XOR of theirs |
| `NmeaFrame.CoversText` | hardware/gps/minmea.c:33-41 | a text is covered alike with and without a $ before it and a * and anything behind it |
| `NmeaFrame.HexToIntIs` | hardware/gps/minmea.c:20-29 | a byte reads as n exactly when it is the n-th upper-case or lower-case digit |
| `NmeaFrame.XorChanges` | hardware/gps/minmea.c:60 | changing any one byte changes the XOR |
| `NmeaFrame.CheckEnd` | hardware/gps/minmea.c:62-86 | accepts exactly a matching two-digit field and a line end, or in lax mode a line end alone |
| `NmeaFrame.Check` | hardware/gps/minmea.c:46-87 | true if and only if the sentence is $, a printable star-free body, a checksum field that matches (optional in lax mode) and at most a line end, in 83 bytes |
| `NmeaFrame.FieldIs` | hardware/gps/minmea.c:66-77 | a checksum field is good exactly when its two digits, of either case, are those of the sum |
| `NmeaFrame.FieldDecides` | hardware/gps/minmea.c:46-87 | $, a printable star-free body, * and a field pass, in either mode, if and only if the field is good, only a line end follows and all has at most 83 bytes |
| `NmeaFrame.BareDecides` | hardware/gps/minmea.c:78-84 | without a field they pass in lax mode alone, under the same conditions |
| `NmeaFrame.NotASentence` | hardware/gps/minmea.c:50-56 | nothing longer, and nothing that does not begin with $, passes |
| `NmeaFrame.BodyByte` | hardware/gps/minmea.c:59-60 | a body may hold any byte from 0x20 to 0x7e but *, and no other |
| `NmeaFrame.Examples` | hardware/gps/minmea.c:46-87 | "$A*41" passes, and "$J*4a" and "$J*4A" with a line end; "$A*42" does not |
| `NmeaFrame.FramingRoundTrip` | hardware/gps/minmea.c:31-87 | a body framed with its checksum passes both modes if and only if it fits the length limit, and the checksum covers just the body |
| `NmeaFrame.SingleErrorDetected` | hardware/gps/minmea.c:46-87 | replacing any one byte of the body of an accepted sentence by another legal one makes both modes reject it |
| `NmeaFloat.GuardIsExact` | hardware/gps/minmea.c:175 | the guard in 32-bit integers is exactly the test for the next digit not fitting |
| `NmeaFloat.Scan` | hardware/gps/minmea.c:160-217 | the pointer loop computes the reading of its field |
| `NmeaFloat.KeepIsLongest` | hardware/gps/minmea.c:175-187 | the fraction digits kept are the longest prefix with which the number fits 32 bits |
| `NmeaFloat.ReadDecimal` | hardware/gps/minmea.c:160-217 | every decimal, with spaces, sign and point, reads as its meaning: digits kept, scale, sign, or error |
| `NmeaFloat.ReadRoundsDown` | hardware/gps/minmea.c:160-217 | the exact magnitude is |value| / scale or above it by less than 1 / scale, and both fit 32 bits |
| `NmeaFloat.WholeOverflowIsBad` | hardware/gps/minmea.c:180-183 | a decimal with digits is rejected if and only if its whole part does not fit 32 bits |
| `NmeaFloat.ScaleOverflows` | hardware/gps/minmea.c:186-187 | the scale leaves 32 bits if and only if ten fraction digits fit the value; never with a nonzero whole part or up to nine fraction digits |
| `NmeaFloat.TinyOverflows` | hardware/gps/minmea.c:186-187 | on 0.0000000001 the scale leaves 32 bits |
| `NmeaFloat.NinesFit` | hardware/gps/minmea.c:175-187 | on 0.9999999999 it does not, as the tenth digit no longer fits the value |
| `NmeaInteger.ReadsNumber` | hardware/gps/minmea.c:219-229 | a number behind spaces reads as itself whenever an int holds it |
| `NmeaInteger.AcceptsNumbers` | hardware/gps/minmea.c:219-229 | a field is accepted if and only if it is empty or spaces, an optional sign and digits alone |
| `NmeaInteger.ReadsField` | hardware/gps/minmea.c:219-229 | strtol sees only its field, exactly unless the field is blank and a number follows behind other white space |
| `NmeaFields.SuffixesAreFields` | hardware/gps/minmea.c:100-113 | stepping over field bytes and commas finds every comma-separated field of the text, each in its place, and no more |
| `NmeaFields.JoinsBack` | hardware/gps/minmea.c:100-113 | the fields hold no comma and join to the text |
| `NmeaRoundTrip.SplitsBack` | hardware/gps/minmea.c:100-113 | fields that hold no comma, joined by commas, are the fields of the text |
| `NmeaRoundTrip.ReachIs` | hardware/gps/minmea.c:104-112 | a scan gets as far as the first byte a text cannot hold |
| `NmeaScan.ReadChar` | hardware/gps/minmea.c:130-137 | the first byte of the field, or zero |
| `NmeaScan.ReadDirection` | hardware/gps/minmea.c:139-158 | 1 for a field that begins with N or E, -1 for S or W, 0 for an empty one, rejected for any other |
| `NmeaScan.ReadText` | hardware/gps/minmea.c:232-241 | exactly the bytes of the field |
| `NmeaScan.ReadTalker` | hardware/gps/minmea.c:243-257 | the five bytes behind $, rejected when the field is shorter |
| `NmeaScan.ReadDate` | hardware/gps/minmea.c:259-281 | day, month and year, in this order, from the first six bytes, all digits; -1 each for an empty field, and rejected for any other |
| `NmeaScan.ReadTime` | hardware/gps/minmea.c:283-320 | hours, minutes and seconds likewise, and microseconds from the digits behind a point, 0 without one |
| `NmeaScan.MicrosRoundDown` | hardware/gps/minmea.c:303-310 | the microseconds are the fraction of a second rounded down, whatever its length |
| `NmeaMeaning.CharAndText` | hardware/gps/minmea.c:130-241 | c stores the first byte of a field, or zero for an empty one; s all of it; _ nothing |
| `NmeaMeaning.DirectionMeans` | hardware/gps/minmea.c:139-158 | by its first byte a field is 1 for N and E and -1 for S and W, 0 when empty, and rejected for any other letter |
| `NmeaMeaning.TalkerMeans` | hardware/gps/minmea.c:243-257 | $ and five bytes are stored whatever follows; a shorter field or one without $ is rejected |
| `NmeaMeaning.DateMeans` | hardware/gps/minmea.c:259-281 | any day, month and year below 100, written in this order with two digits each, are stored in this order; an empty field is -1 each |
| `NmeaMeaning.TimeMeans` | hardware/gps/minmea.c:283-320 | the same for hours, minutes and seconds; microseconds are read behind a point, and are 0 without one |
| `NmeaMeaning.SixDigitsNeeded` | hardware/gps/minmea.c:266-291 | both reject a field that is not empty and does not begin with six digits |
| `NmeaMeaning.MicrosAreDigits` | hardware/gps/minmea.c:303-310 | up to six digits behind the point are microseconds, filled up with zeros |
| `NmeaMeaning.IntMeans` | hardware/gps/minmea.c:219-229 | any 32-bit number in decimal, behind spaces and with its sign, is stored; an empty field is 0 |
| `NmeaMeaning.IntWraps` | hardware/gps/minmea.c:219-229 | any other number a long holds is stored modulo 2^32, one above as -1 and one below as 0 |
| `NmeaMeaning.FractionMeans` | hardware/gps/minmea.c:160-217 | any value of 31 bits and sign, written behind spaces with k fraction digits, k up to 9, is stored as that value and scale 10^k; an empty field is 0 and 0 |
| `NmeaMeaning.UnknownDirective` | hardware/gps/minmea.c:325-327 | any other directive is an error |
| `NmeaScan.NextField` | hardware/gps/minmea.c:101-113 | the field pointer moves to the next field, or to none and stays there |
| `NmeaScan.Scan` | hardware/gps/minmea.c:93-338 | the scan reads one view per directive, the k-th directive other than ; the k-th view |
| `NmeaAlignment.SeesItsField` | hardware/gps/minmea.c:129-328 | a directive reads its own field and nothing behind it, except exactly an i whose number runs on |
| `NmeaAlignment.Aligned` | hardware/gps/minmea.c:93-338 | for every sentence and format the scan is that of the comma-separated fields, if and only if no i directive it reaches runs on |
| `NmeaAlignment.SuccessIff` | hardware/gps/minmea.c:115-333 | a scan succeeds if and only if each directive accepts the field of its rank, or has none and stands behind a ; |
| `NmeaAlignment.StoresItsField` | hardware/gps/minmea.c:115-333 | each directive then has stored what it sees of the field of its rank |
| `NmeaAlignment.StopsAt` | hardware/gps/minmea.c:115-336 | a scan that fails has stored what the directives before the first unsatisfied one have, and reports a parse error unless that is an f whose scale overflows |
| `NmeaAlignment.CheckedIsAligned` | hardware/gps/minmea.c:46-338 | on every sentence `minmea_check` accepts, in either mode, every scan is aligned |
| `NmeaAlignment.MisreadExample` | hardware/gps/minmea.c:219-229 | a sentence `minmea_check` refuses on which an empty field reads as the 7 of the next line |
| `NmeaRoundTrip.PrintedIsSeen` | hardware/gps/minmea.c:129-328 | every value of every directive, written as a field, is read back by its directive |
| `NmeaRoundTrip.ScanRoundTrip` | hardware/gps/minmea.c:93-338 | the text of any list of values, scanned with their format, gives exactly them back, whatever follows the text |
| `NmeaRoundTrip.SentenceRoundTrip` | hardware/gps/minmea.c:31-338 | the framed sentence of a talker and any values passes the check, in either mode, if and only if it fits and only a line end follows, and scans back to exactly these values |
| `Strings.SplitThenJoin` | framework/common/str.c:158-198 | splitting gives count + 1 parts, none containing the separator, whose join is the string |
| `Strings.JoinThenSplit` | framework/common/str.c:175-198 | splitting a join by a character no part holds gives the parts back |
| `Strings.SplitsExactly` | framework/common/str.c:175-198 | for any separator, splitting a join gives the parts back if and only if in each part but the last the separator behind it is the first one, and the last part has none |
| `Strings.ReplacedSize` | framework/common/str.c:324-328 | the size computed in advance is the length of the result |
| `Strings.ReplacedStep` | framework/common/str.c:322-350 | the leftmost occurrence is replaced and the rest behind it likewise |
| `Strings.ReplaceAndBack` | framework/common/str.c:322-350 | replacing by a character absent from the string and then replacing back restores it |
| `Strings.ReplaceSame` | framework/common/str.c:322-350 | replacing a pattern by itself, or one that does not occur, changes nothing |
| `StrBuf.StrBuf.WithLength` | framework/common/str.c:14-27 | an empty string with room for at least 64 characters |
| `StrBuf.StrBuf.FromPrefix` | framework/common/str.c:38-50 | holds the first len characters, or the whole string when it is shorter |
| `StrBuf.StrBuf.Realloc` | framework/common/str.c:235-249 | a larger buffer with the same contents, or no change |
| `StrBuf.StrBuf.Resize` | framework/common/str.c:221-233 | exactly which bytes a shorter or longer string has, in place or in a new buffer |
| `StrBuf.StrBuf.Append` | framework/common/str.c:262-286 | the contents followed by all arguments in order; a new buffer exactly when they do not fit |
| `StrBuf.ConcatIs` | framework/common/str.c:274-281 | nothing appends nothing, one argument itself, more of them one behind the other |
| `StrBuf.StrBuf.Insert` | framework/common/str.c:302-320 | the contents with the argument put in at the index, or no change when it lies behind the end |
| `StrBuf.StrBuf.Replace` | framework/common/str.c:322-350 | the contents become the join of their parts with the replacement |
| `StrBuf.StrBuf.WriteParts` | framework/common/str.c:330-342 | the loop writes the whole join and stops at its computed size |
| `StrBuf.Count` | framework/common/str.c:158-173 | the number of occurrences without overlap, 0 for an empty pattern, -1 for a null argument |
| `StrBuf.PartEnd` | framework/common/str.c:187-195 | the end of the next part; no separator is found exactly in the last iteration |
| `StrBuf.Split` | framework/common/str.c:175-198 | new strings holding the parts, one empty part for an empty separator, and null for a null argument |

## Left out

- HashRun.Run: stated for fewer than 805306371 sets, so that no put asks for table size 3221225473 or 4294967291, where `Probing.AdvanceOverflows` shows the step going wrong.
- Sizing.NextSize: not for requests of 4294967291 and above, for which the code reads behind the table.
- KMap.Map.Resize: not for requests of 1610612741 and above, which lead to the two largest sizes.
- KMap.Map.MakeRoom: not for a table of 1610612741 buckets more than half live, which would grow to them.
- KMap.Map.Put: not for such a table either.
- KMap.Map.SetKey: not for such a table either.
- HashRun.Step: not for 805306371 keys or more, so that no table gets there.
- Key lifetime, failing allocation and the X31 string hash: keys are values, and every property holds for any hash function.
- The null flags of a table without buckets: an array of no words.
- `kh_destroy`, `hash_each_key` and `hash_each_val`: nothing beyond `hash_each`.
- `list_concat`, `list_free`, `list_remove__node`, `list_remove__data`, `list_insert__clone`: their pointer updates do not match the list picture, or they add a copy of data.
- LinkedList.List.Remove: after removing the only node the contract says that the list is not well formed, and `Bypass` what head and tail are; nothing is said of later operations on it, and `ListRun.Run` stops there.
- ListTraversal.Traverse: not for a body that removes the only element.
- Strings with a zero among their characters, which `str_resize` can leave behind: str functions that search require none.
- Null list, iterator, buffer and handler arguments, which log and return.
- RingRun.Step: its writes are below 1024 bytes.
- RingBuf.RingBuffer.Write: not for 1024 bytes or more, which overwrite the buffer and leave the read cursor null.
- `ringbuf_reset`: it leaves both cursors null.
- The log output of the registry, and a look-up of an unregistered name beyond the fact that it faults.
- The bus transport, message headers, `NO_REPLY`, the integer a remote function returns, and null arguments.
- RpcCall.ArgMalloc: does not model the store of the new buffer's address through `pbuf`, which points directly behind the argument's header in the received message; for a last argument of size 0 that is past the end of the message.
- RpcCall.LocalCall: for an out argument it stands for what a caller would want, new memory with the bytes; a direct call has no header for `rpc_arg_malloc` to read.
- RpcCall.RemoteCall: not for out-sized arguments before the last place, whose store through `pbuf` would hit the next header, nor for messages of 2^31 bytes or more, where the int offsets of two of the loops overflow.
- NmeaFloat.ReadDecimal: fields that are not decimals are covered by `NmeaFloat.Scan`, without a closed form; bytes behind the last digit that fits are not looked at there.
- NmeaInteger.ReadsField: long is taken to have 64 bits, and isprint, isdigit and isspace are those of the C locale.
- The sentence parsers, `minmea_rescale`, coordinates in floating point and `minmea_gettime`.
- The advance of the local field pointer inside a directive: each directive gets the pointer by value, as `next_field` overwrites it.
- StrBuf.StrBuf.Insert: not for negative indices, for which the size of its first copy is negative.
- StrBuf.StrBuf.Replace: not for the empty pattern, for which the replacement is written over the string.
- C string arguments that alias the string.
- `str_trim`, `str_substr`, `str_char`, `str_scan`, `str_prepend`, `str_copy`, comparison and formatting: library behaviour, or one copy.
- `timer.c`, loaders, launcher, module dispatch, installer, power, location and hardware plumbing, sockets, files and signals: foreign calls or no invariant of their own.
