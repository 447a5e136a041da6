# blktrace: a verified model of its data structures and protocols

A Dafny model of the parts of the blktrace tool set, and of the disk-introspection add-on beside it, that
carry the hard properties: the red-black tree that several tools share and two of its users in btt, the
two-thread protocol and the iteration barrier of btreplay, the semi-blocking queue, the block cache, the
buffer pipeline and the mapped output of blktrace, the stream merge of blkparse, the bunching of btrecord,
the journal replay for ext3, and the trace matching of blkiomon.

How it is put together:

* Structures that the programs change in place are classes. `RbShape`, `RbColor`, `RbTree`, `RbErase` and
  `RbSet` hold the red-black tree: nodes with parent, colour and child links on the heap, a ghost tree that
  the links spell out, and contexts that describe everything around the node an algorithm looks at.
  `rb_parent_color` is kept as two fields. Lemmas speak of snapshots of the nodes, not of the heap.
* `PLive` and `Dip` are built on `RbSet`; `Live` and `DipQuery` say on values what they compute.
  `LruCache`, `ListFile`, `MergeStreams`, `Btrecord`, `Journal`, `Window` and `Blkiomon` have the other
  classes, each proved against functions on values in `LruSpec`, `Records`, `Merge`, `Bunches`,
  `JournalSpec` and `JournalData`, or in the same file. `Words`, `Wrappers`, `Sums` and `Seqs` hold what
  several of them need.
* `Replay`, `Barrier`, `CasQueue` and `Entries` are state machines: one action is one critical section, or
  one load, store or compare-and-swap outside of one. Their results hold in every state of every run, with
  any number of threads where the program has any number.

Six results say that the code does not do what one might expect, and exactly when it does:

* btreplay's reaper can wait for ever after the sender is through, because `send_done` is set without a
  signal (`Replay.StrandingRun`); it ends otherwise (`Replay.ReaperEnds`, `Replay.FinishDecides`).
* Where assertions are compiled in, a signal makes the assertion `0 < ntodo` fail (`Replay.AbortingRun`,
  `Replay.AssertionFails`).
* One iteration of btreplay does not replay every file once when there are two or more files and two or more
  iterations, because a quick thread may take a second token (`Barrier.FairIff`); over all iterations each
  file is replayed as often as asked for.
* The pruned walk of btt over queued I/Os can miss some when I/Os are nested (`DipQuery.WalkIsFullIff`,
  with a case in `Dip.NestedMissed`).
* blktrace's new window may have no room for the next read when pages are large and buffers are small
  (`Window.NoRoom`; `Window.MmapInfo.Receive` says exactly when).
* A block that was escaped in the journal is replayed with a wrong first word (`JournalData.EscapeUndoneIff`,
  `JournalData.RestoredIff`); the others are replayed as they
  were.

In addition the file header of btrecord does not count the last bunch (`Btrecord.Process`).

btreplay and btrecord are built with `-DNDEBUG` (`btreplay/Makefile:11`), so that their assertions are compiled
out. `Replay` and `Btrecord` have a flag `asserts` for it, and their results hold for both values where they do
not say otherwise: without assertions a signal only ends the bunch, and btrecord also records traces that are
out of order, cut into bunches in the same way.

## Model

| member | source | states |
|---|---|---|
| `RbTree.RotateLeftLinks` | blktrace-userspace/rbtree.c:25-46 | The pointer writes of a left rotation are exactly those that the tree-level rotation needs, for every shape of the surroundings (root, left child, right child, missing inner subtree) |
| `RbTree.RotateLeft` | blktrace-userspace/rbtree.c:25-46 | A left rotation anywhere in a linked tree leaves a linked tree, with consistent parent links, in which only the rotated position has changed |
| `RbTree.RotateRightLinks` | blktrace-userspace/rbtree.c:48-69 | The pointer writes of a right rotation |
| `RbTree.RotateRight` | blktrace-userspace/rbtree.c:48-69 | A right rotation anywhere in a linked tree |
| `RbTree.SetColor` | blktrace-userspace/rbtree.h:135-138 | Painting one node changes the colour at that position and no link |
| `RbTree.PushBlack` | blktrace-userspace/rbtree.c:83-90 | Red uncle: parent and uncle become black and the grandparent red; the order of the nodes stays |
| `RbTree.InsertStepLeft` | blktrace-userspace/rbtree.c:79-104 | One turn of the loop for a parent that is a left child: either the tree is red-black afterwards or the same problem is nearer to the root |
| `RbTree.InsertStepRight` | blktrace-userspace/rbtree.c:105-130 | The mirror image for a parent that is a right child |
| `RbTree.InsertColor` | blktrace-userspace/rbtree.c:71-134 | rb_insert_color on a tree with one red-red conflict at the given node ends with a red-black tree of the same nodes in the same order |
| `RbColor.PushedOk` | blktrace-userspace/rbtree.c:83-90 | Recolouring below the grandparent keeps the equal black count on every path and moves the only possible red-red conflict up |
| `RbColor.OuterLeftOk` | blktrace-userspace/rbtree.c:102-104 | Painting and rotating at the grandparent ends the conflict |
| `RbColor.OuterRightOk` | blktrace-userspace/rbtree.c:127-129 | The mirror image |
| `RbTree.BlackenSiblingLeft` | blktrace-userspace/rbtree.c:145-152 | After the red-sibling case the sibling is black, the position is still one black node short, and the order is unchanged |
| `RbTree.BlackenSiblingRight` | blktrace-userspace/rbtree.c:182-189 | The mirror image |
| `RbTree.ErasePaintLeft` | blktrace-userspace/rbtree.c:153-159 | A black sibling without red children: painting it moves the missing black node one level up |
| `RbTree.ErasePaintRight` | blktrace-userspace/rbtree.c:190-196 | The mirror image |
| `RbTree.EraseRotateLeft` | blktrace-userspace/rbtree.c:160-178 | A black sibling with a red child: one or two rotations give a red-black tree |
| `RbTree.EraseRotateRight` | blktrace-userspace/rbtree.c:197-215 | The mirror image |
| `RbTree.EraseStepLeft` | blktrace-userspace/rbtree.c:143-179 | One turn of the fix-up loop, position on the left: done with a red-black tree, or the position moves so that the measure Turns falls |
| `RbTree.EraseStepRight` | blktrace-userspace/rbtree.c:180-216 | The mirror image |
| `RbTree.EraseColor` | blktrace-userspace/rbtree.c:136-220 | __rb_erase_color terminates and repairs a tree in which one part is one black node short, without changing the order of the nodes |
| `RbErase.LinkWrites` | blktrace-userspace/rbtree.h:156-163 | rb_link_node makes the new node a red leaf and writes the one link that leads to it |
| `RbErase.LinkNode` | blktrace-userspace/rbtree.h:156-163 | Linking at an empty position of a linked tree gives the tree with a red leaf there |
| `RbErase.Insert` | blktrace-userspace/rbtree.c:71-134 | Linking and rb_insert_color together: a red-black tree whose sequence has the new node at the chosen place |
| `RbErase.Leftmost` | blktrace-userspace/rbtree.c:235-237 | The search for the successor ends at the leftmost node of the right subtree |
| `RbErase.Splice` | blktrace-userspace/rbtree.c:269-282 | Unlinking a node with at most one child puts the child in its place |
| `RbErase.Replace` | blktrace-userspace/rbtree.c:250-265 | The successor takes over links, colour and place of the erased node |
| `RbErase.EraseTwo` | blktrace-userspace/rbtree.c:231-267 | Erasing a node with two children: the successor is unlinked and put in its place, whichever of the two nested cases applies |
| `RbErase.EraseAt` | blktrace-userspace/rbtree.c:222-287 | rb_erase at a known position gives a red-black tree of the other nodes in the same order |
| `RbSet.Erase` | blktrace-userspace/rbtree.c:222-287 | Erasing any node of any valid tree leaves a valid tree whose sequence is the old one without exactly that node |
| `RbSet.InsertAt` | blktrace-userspace/rbtree.c:71-134 | Inserting at any empty position of a valid tree leaves a valid tree with the node at that place in the sequence |
| `RbSet.LogHeight` | blktrace-userspace/rbtree.c:71-134 | A red-black tree of n nodes has height at most 2 * log2(n + 1), as Pow2(height) <= (n + 1) * (n + 1) |
| `RbSet.Locate` | blktrace-userspace/rbtree.c:222-287 | Every node of a valid tree can be reached as the focus of an erasure |
| `PLive.LiveSet.Search` | blktrace-userspace/btt/p_live.c:81-97 | The descent ends at an interval that the new one meets, or at the empty place between the last one before it and the first one after it |
| `PLive.LiveSet.TakeOut` | blktrace-userspace/btt/p_live.c:85-87 | Erasing an interval that the new one meets and adding the hull later comes to the same as adding the new one now; the tree shrinks |
| `PLive.LiveSet.Merge` | blktrace-userspace/btt/p_live.c:85-91 | Erase, then add the hull |
| `PLive.LiveSet.Add` | blktrace-userspace/btt/p_live.c:75-106 | __p_live_add terminates and turns the sorted list of intervals into Added(list, new one), in a valid red-black tree |
| `PLive.LiveSet.Visit` | blktrace-userspace/btt/p_live.c:125-154 | The walk counts the intervals below a node and adds up their lengths |
| `PLive.LiveSet.Sums` | blktrace-userspace/btt/p_live.c:144-145 | nlives and tot_live are the number and the total length of the intervals |
| `PLive.Narrow` | blktrace-userspace/btt/p_live.c:93-96 | Each step of the descent keeps all earlier intervals on one side and all later ones on the other |
| `Live.AddedSeparated` | blktrace-userspace/btt/p_live.c:75-106 | Adding keeps the intervals sorted and strictly apart |
| `Live.AddedLive` | blktrace-userspace/btt/p_live.c:75-106 | A point in time is covered after adding exactly if it was before or the new interval covers it |
| `Live.Absorb` | blktrace-userspace/btt/p_live.c:85-91 | Whichever met interval is absorbed first, the result is the same |
| `Live.AddedBetween` | blktrace-userspace/btt/p_live.c:99-105 | An interval that meets nothing goes in between |
| `Live.Stretch` | blktrace-userspace/btt/p_live.c:64-73 | Each interval of the set is a maximal stretch of covered time |
| `Live.LiveDetermines` | blktrace-userspace/btt/p_live.c:75-106 | A separated list is determined by the time it covers |
| `Live.RunLive` | blktrace-userspace/btt/p_live.c:119-123 | After any run of additions the set is separated and covers exactly what the added intervals cover |
| `Live.GroupsAreParts` | blktrace-userspace/btt/p_live.c:64-106 | Two added intervals lie in the same interval of the set if and only if a chain of added intervals, each meeting the next one, leads from one to the other |
| `Live.HullOfGroup` | blktrace-userspace/btt/p_live.c:88 | Each interval of the set is the hull of its group of added intervals |
| `Live.OrderDoesNotMatter` | blktrace-userspace/btt/p_live.c:119-123 | Two runs that add the same intervals in any order, with any repetitions, end with the same set |
| `Live.TotalLiveTime` | blktrace-userspace/btt/p_live.c:144-145 | After any run the total length is the time that some added interval reaches over |
| `Replay.StepKeepsInv` | blktrace-userspace/btreplay/btreplay.c:1025-1311 | Every step of the sender, the reaper, the kernel and the signal handler keeps the invariant over lists, counters, wait flags and places in the code |
| `Replay.Safe` | blktrace-userspace/btreplay/btreplay.c:1029-1041 | In every interleaving naios_free + naios_out + (taken but not counted) = naios, each control block is in exactly one list, a blocked thread still has a false wait condition, a wait flag is only set while its thread waits or has just been woken by nobody (or, for the sender, after a signal), the two threads are never both blocked, and an assertion of process_bunch fails only after a signal, and only where assertions are compiled in |
| `Replay.SignalReachesTheRightThread` | blktrace-userspace/btreplay/btreplay.c:1092-1095 | pthread_cond_signal is only called when the one waiting thread is the one it is meant for, and then wakes it |
| `Replay.CompletionsAreDue` | blktrace-userspace/btreplay/btreplay.c:1057-1070 | io_getevents is only called for at most as many completions as are still to come |
| `Replay.AllReturned` | blktrace-userspace/btreplay/btreplay.c:1109-1122 | When the reaper has ended every control block is back on the free list |
| `Replay.ServiceIsPossible` | blktrace-userspace/btreplay/btreplay.c:1170-1186 | While the sender waits for a free block, the reaper or the kernel can always take a step |
| `Replay.ServiceEnds` | blktrace-userspace/btreplay/btreplay.c:1170-1186 | and each such step brings the wake-up of the sender nearer |
| `Replay.ReclaimGoesOn` | blktrace-userspace/btreplay/btreplay.c:1085-1102 | reclaim_ios ends exactly when nothing is outstanding any more, and otherwise asks for at most what is |
| `Replay.StrandedForever` | blktrace-userspace/btreplay/btreplay.c:1375 | send_done is set without a signal: a reaper past its test then never ends |
| `Replay.NeverStranded` | blktrace-userspace/btreplay/btreplay.c:1025-1122 | Once the sender is through, a reaper outside that window does not get into it any more |
| `Replay.EndComesNearer` | blktrace-userspace/btreplay/btreplay.c:1052-1103 | and each of its steps, and each completion, brings its end nearer, while no other step moves it away |
| `Replay.ServiceIsBounded` | blktrace-userspace/btreplay/btreplay.c:1052-1122 | In every continuation of such a state the number of these steps is bounded, and one is possible until the reaper has ended |
| `Replay.ReaperEnds` | blktrace-userspace/btreplay/btreplay.c:1025-1122 | Once the sender is through, whatever is still outstanding, the reaper can end if and only if it is not in that window, and then it ends within EndToGo(s) steps of its own and of the kernel in any order |
| `Replay.FinishDecides` | blktrace-userspace/btreplay/btreplay.c:1375 | Which of the two it is, is settled when send_done is set: the reaper is lost exactly if nothing is outstanding then and it is between its first test and its reading of naios_out |
| `Replay.StrandingRun` | blktrace-userspace/btreplay/btreplay.c:1366-1376 | A concrete run that strands the reaper |
| `Replay.AssertionFails` | blktrace-userspace/btreplay/btreplay.c:1279-1281 | With assertions compiled in, after nfree_current returns the assertion 0 < ntodo fails if and only if a signal has arrived; without them, as the Makefile has it, the sender then goes back to its loop test with nothing changed |
| `Replay.AbortingRun` | blktrace-userspace/btreplay/btreplay.c:1277-1281 | A concrete run that fails it: a bunch is read, the loop test passes, the signal arrives, nfree_current returns 0 |
| `Replay.BunchComesNearer` | blktrace-userspace/btreplay/btreplay.c:1271-1311 | While a bunch is sent, every step of the sender, the reaper and the kernel brings its end nearer, with assertions or without, and a spurious wake-up costs at most three of them |
| `Replay.BunchGoesOn` | blktrace-userspace/btreplay/btreplay.c:1277 | Until all packets of the bunch are submitted, a signal has ended it or an assertion has failed, such a step is possible |
| `Replay.BunchEnds` | blktrace-userspace/btreplay/btreplay.c:1271-1311 | So in every run the number of these steps is bounded, and when none is possible any more all packets of the bunch have gone to io_submit or a signal has arrived |
| `Replay.BunchSubmitted` | blktrace-userspace/btreplay/btreplay.c:1277-1309 | The packets of a bunch go to io_submit in order and each once: at any time a first part of the bunch, and all of it when the sender is done with it without a signal |
| `Replay.AllSubmitted` | blktrace-userspace/btreplay/btreplay.c:1366-1376 | In every run what has gone to io_submit is a first part of what the bunches read have, and all of it when the sender is between bunches or through without a signal |
| `Replay.AsManyAsFree` | blktrace-userspace/btreplay/btreplay.c:1170-1186 | Without a signal each call of io_submit takes as many packets as there were free blocks when nfree_current looked, or all that are left |
| `Barrier.StepKeepsInv` | blktrace-userspace/btreplay/btreplay.c:390-492 | Every step of the main thread and of any number of replay threads keeps the token invariant |
| `Barrier.Safe` | blktrace-userspace/btreplay/btreplay.c:390-492 | No assertion of the barrier fails, tokens + replaying + reported = nfiles in every round, start_iter always finds iter_start = 0, and while tokens are left some thread has iterations left |
| `Barrier.NoDeadlock` | blktrace-userspace/btreplay/btreplay.c:1636-1646 | Until the main thread is through, some thread can take a step |
| `Barrier.Progress` | blktrace-userspace/btreplay/btreplay.c:1636-1646 | Every step but a spurious wake-up brings the end nearer |
| `Barrier.RunEnds` | blktrace-userspace/btreplay/btreplay.c:1636-1646 | A run has a bounded number of steps but for spurious wake-ups, so with NoDeadlock the main thread gets through |
| `Barrier.EachFileReplayed` | blktrace-userspace/btreplay/btreplay.c:1366-1374 | In the end every file has been replayed exactly as often as asked for |
| `Barrier.FairIff` | blktrace-userspace/btreplay/btreplay.c:472-492 | A round replays every file exactly once in all interleavings if and only if there is at most one file or at most one iteration |
| `Barrier.UnfairRound` | blktrace-userspace/btreplay/btreplay.c:1366-1374 | With two or more files and iterations, a reachable round in which one thread takes two tokens and another none |
| `CasQueue.StepKeepsInv` | blktrace-userspace/stat/queue-semiblocking.c:40-85 | Every single load, store and compare-and-swap, by any number of threads, keeps the shape of both lists |
| `CasQueue.StepRefines` | blktrace-userspace/stat/queue-semiblocking.c:40-85 | Every step refines the abstract queue out_queue ++ rest being reversed ++ reverse(in_queue): a put takes effect at its compare-and-swap, a get when it takes the first node, and an empty answer when in_queue is seen empty |
| `CasQueue.Fifo` | blktrace-userspace/stat/queue-semiblocking.c:40-85 | At every point of every interleaving the nodes put are the nodes got, in order, followed by the contents; nothing is lost or doubled |
| `CasQueue.RunKeepsInv` | blktrace-userspace/stat/queue-semiblocking.c:40-85 | The invariant holds throughout every run, also when a node that was got is put again and an old head pointer reappears |
| `CasQueue.KeepPutCas` | blktrace-userspace/stat/queue-semiblocking.c:45-49 | A successful swap links the new node to the present head, whatever happened since the head was read |
| `CasQueue.KeepSteal` | blktrace-userspace/stat/queue-semiblocking.c:61-65 | Stealing the whole stack leaves each node in exactly one list |
| `CasQueue.MutexHolder` | blktrace-userspace/stat/queue-semiblocking.c:51-85 | In every reachable state the mutex is taken by a thread if and only if that thread is between lock and unlock |
| `CasQueue.GoesOn` | blktrace-userspace/stat/queue-semiblocking.c:40-85 | A thread that does not wait for the mutex, the holder of it in particular, always has a step to take |
| `CasQueue.MutexComesFree` | blktrace-userspace/stat/queue-semiblocking.c:51-85 | However the threads take turns, the holder gives the mutex back within a number of its own steps that is bounded but for its failed swaps and the nodes put meanwhile, on every way out of queue_get |
| `CasQueue.FailureIsProgress` | blktrace-userspace/stat/queue-semiblocking.c:45-65 | Between the reading of in_queue and a swap that fails, a swap of another thread has succeeded |
| `LruCache.CacheSet.constructor` | blktrace-userspace/stat/base-cache.c:20-49 | All entries start on the free list, in array order, with correct back links |
| `LruCache.CacheSet.RemoveEntry` | blktrace-userspace/stat/base-cache.c:79-98 | The entry goes from its place in the used list to the front of the free list |
| `LruCache.CacheSet.InsertEntry` | blktrace-userspace/stat/base-cache.c:100-124 | The first free entry goes to the front of the used list; null exactly if there is none |
| `LruCache.CacheSet.FrontEntry` | blktrace-userspace/stat/base-cache.c:155-169 | A used entry goes to the front |
| `LruCache.CacheSet.Lookup` | blktrace-userspace/stat/base-cache.c:126-136 | Finds the entry of an index exactly if the set holds it, and changes nothing |
| `LruCache.CacheSet.Encache` | blktrace-userspace/stat/base-cache.c:138-172 | The set as a list of items becomes Encached(list, link, item): move to front, dropping the last one when full; it counts a thrash exactly if something was dropped |
| `LruCache.CacheSet.Decache` | blktrace-userspace/stat/base-cache.c:199-207 | The item of the index goes, and its entry is the next to be used |
| `LruSpec.EncachedDistinct` | blktrace-userspace/stat/base-cache.c:138-172 | No index is held twice and the set never holds more than link items |
| `LruSpec.RunIsRecent` | blktrace-userspace/stat/base-cache.c:138-172 | After any run of encache calls the set holds the link most recently encached items, most recent first |
| `LruSpec.Hits` | blktrace-userspace/stat/base-cache.c:126-172 | An index hits, with the data last stored for it, if and only if fewer than link other indices of its set were encached since |
| `LruSpec.Misses` | blktrace-userspace/stat/base-cache.c:126-136 | An index that was never encached misses |
| `Records.PassedIsLongest` | blktrace-userspace/blktrace.c:1376-1391 | The scan passes exactly the longest part from the start that is made of whole records |
| `Records.Resume` | blktrace-userspace/blktrace.c:1368-1391 | Scanning the rest together with further bytes picks up where the first scan stopped |
| `Records.CutsDoNotMatter` | blktrace-userspace/blktrace.c:1353-1416 | However the stream is cut into buffers, what is written, counted and carried over is the same |
| `Records.CallsDoNotMatter` | blktrace-userspace/blktrace.c:1353-1416 | nor does it matter how the buffers are grouped into calls |
| `Records.Reframed` | blktrace-userspace/blktrace.c:1353-1416 | The bytes written are the longest whole-record prefix of all bytes read, the event count is its record count, and the carried buffer is exactly the rest |
| `Records.WrittenPassed` | blktrace-userspace/blktrace_api.h:99-114 | A stream of records written field by field, followed by no whole record, is passed record by record up to the last whole one |
| `Records.CutOff` | blktrace-userspace/blktrace.c:1381-1383 | A record that is cut off anywhere is no whole record |
| `Records.WrittenReframed` | blktrace-userspace/blktrace.c:1353-1416 | However such a stream with a cut-off last record is cut into buffers, the whole records are written as they were and counted, and the cut-off one is carried over |
| `ListFile.TbCombine` | blktrace-userspace/blktrace.c:1328-1351 | The result holds the bytes of both buffers, and its capacity suffices and is never below buf_size |
| `ListFile.Scan` | blktrace-userspace/blktrace.c:1376-1391 | The loop computes the length and the number of whole records |
| `ListFile.Shift` | blktrace-userspace/blktrace.c:1400-1407 | memmove leaves the bytes after the whole records at the start of the buffer |
| `ListFile.HandleBuf` | blktrace-userspace/blktrace.c:1361-1411 | One buffer through the loop body is one Step |
| `ListFile.HandleListFile` | blktrace-userspace/blktrace.c:1353-1416 | The whole list in place is Steps: written bytes, event count and carried buffer; every buffer is counted in the return value |
| `Entries.StepKeepsInv` | blktrace-userspace/blktrace.c:1191-1461 | Every step of the tracers and the main thread keeps the accounting, the order on each list, and the wake-up invariant |
| `Entries.Safe` | blktrace-userspace/blktrace.c:1206-1230 | dp_entries = buffers listed + in hand + handled but not subtracted - added but not announced; each added buffer is in exactly one place, in order; an unsignalled waiting main thread has nothing announced to do |
| `Entries.AnnouncingSignals` | blktrace-userspace/blktrace.c:1206-1213 | incr_entries signals whenever the main thread waits |
| `Entries.CleanCounts` | blktrace-userspace/blktrace.c:1453-1461 | With all tracers gone dp_entries is what is left to handle or subtract |
| `Entries.CleanGoesOn` | blktrace-userspace/blktrace.c:1418-1461 | clean_trace_bufs can always go on until it returns |
| `Entries.CleanEnds` | blktrace-userspace/blktrace.c:1453-1461 | and every step brings it nearer to its end |
| `Entries.AllHandled` | blktrace-userspace/blktrace.c:1931-1952 | When it returns every buffer was handled once in list order, and each output is the longest whole-record prefix of what its tracer read |
| `Entries.PassHandlesAll` | blktrace-userspace/blktrace.c:1418-1445 | In any pass over the heads, also while tracers run, every buffer that was on a list when the pass came to its head has been handled at the end of the pass |
| `Entries.PassComesNearer` | blktrace-userspace/blktrace.c:1418-1445 | Each step of a pass brings its end nearer, and a buffer added on the way costs at most two steps more |
| `Entries.ClosingGoesOn` | blktrace-userspace/blktrace.c:1447-1461 | Once done is set and the tracers have left, the main thread always has a step to take until clean_trace_bufs has returned |
| `Entries.ClosingComesNearer` | blktrace-userspace/blktrace.c:1447-1461 | and each of these steps brings that nearer, wherever the main thread was |
| `Window.MmapInfo.SetupMmap` | blktrace-userspace/blktrace.c:745-781 | The window starts on a page, base + fs_off = fs_size, its end is within the file, nothing written is lost; there is room for maxlen bytes if and only if there was before or twice the offset in the page plus maxlen fits the window |
| `Window.MmapInfo.Receive` | blktrace-userspace/blktrace.c:1704-1715 | What was read is appended at file position fs_size across any number of remaps; it fits if and only if there was room for maxlen bytes or the new window has room for it, in particular whenever 2 * (pagesize - 1) + maxlen is at most the window; fs_size, fs_off and fs_buf_len afterwards |
| `Window.NoRoom` | blktrace-userspace/blktrace.c:750-759 | A concrete run in which it does not: pages of 64 KiB, buffers of 4 KiB, and the next byte after 61441 |
| `Window.MmapInfo.Close` | blktrace-userspace/blktrace.c:1584-1597 | The closed file is exactly what was received |
| `Merge.PlaceOrdered` | blktrace-userspace/blkparse.c:2355-2373 | ms_sort keeps the list ordered by next time, for equal times too |
| `Merge.DeqKept` | blktrace-userspace/blkparse.c:2331-2353 | Dequeueing keeps the list ordered, its streams distinct and none of them exhausted |
| `Merge.DeqPending` | blktrace-userspace/blkparse.c:2340-2353 | It takes one trace from its own stream and leaves the others as they are |
| `Merge.Interleaving` | blktrace-userspace/blkparse.c:2600-2609 | The traces handled are an interleaving: each stream in its own order, nothing lost or made up |
| `Merge.ComesOutInTime` | blktrace-userspace/blkparse.c:2600-2609 | From sorted streams the traces come out in non-decreasing time |
| `Merge.NothingLost` | blktrace-userspace/blkparse.c:2534-2536 | Stopping at the first trace past stopwatch_end leaves only traces past it |
| `Merge.MergedFiles` | blktrace-userspace/blkparse.c:2575-2612 | From sorted files exactly the traces up to the end of the window, counted from the earliest trace of all, come out, in time order, for each file a prefix |
| `Merge.InOrderIff` | blktrace-userspace/blkparse.c:2600-2609 | Without a window the output is in time order if and only if every file is |
| `Merge.GenesisIsFirst` | blktrace-userspace/blkparse.c:2599-2603 | For any files times are counted from the first trace of some file, and no file starts earlier |
| `Merge.GenesisIsEarliest` | blktrace-userspace/blkparse.c:2599-2603 | For sorted files that are not all empty this is the earliest time of all traces of all files |
| `Merge.ShownSorted` | blktrace-userspace/blkparse.c:2522-2555 | From sorted files what is shown is in time order |
| `Merge.ShownPerFile` | blktrace-userspace/blkparse.c:2522-2555 | and of each file it is exactly the wanted traces at least stopwatch_start and at most stopwatch_end after the earliest trace of all files, in their order, each once, with times counted from that trace |
| `Merge.ShownWhich` | blktrace-userspace/blkparse.c:2531-2543 | For any traces handled, in whatever order: an event is among those shown exactly if it is one of them with its time counted from the first one, passes the mask and is not before stopwatch_start |
| `MergeStreams.Stream.Prime` | blktrace-userspace/blkparse.c:2375-2454 | A batch goes from the file to the queue; what is to come stays the same |
| `MergeStreams.Streams.FindSpot` | blktrace-userspace/blkparse.c:2366-2368 | The loop over next finds the place that Spot says |
| `MergeStreams.Streams.Sort` | blktrace-userspace/blkparse.c:2355-2373 | The linked list becomes Place(list, stream), with next links and distinct streams kept |
| `MergeStreams.Streams.Resort` | blktrace-userspace/blkparse.c:2331-2338 | The first stream moves on if a later one is due before it |
| `MergeStreams.Streams.Deq` | blktrace-userspace/blkparse.c:2340-2353 | The linked list becomes Deq(list), refilling from the file or dropping an exhausted stream |
| `MergeStreams.Streams.Alloc` | blktrace-userspace/blkparse.c:2463-2476 | An empty file gets no place in the list |
| `MergeStreams.Streams.Handle` | blktrace-userspace/blkparse.c:2522-2555 | One trace is rebased, shown or not, and dequeued, or ends the loop |
| `MergeStreams.DoFile` | blktrace-userspace/blkparse.c:2575-2612 | do_file shows exactly Shown(Handled(all files)); when the files are sorted, in time order, and of each file the wanted traces of the window that is counted from the earliest trace of all files, each once |
| `Bunches.GreedyPartitions` | blktrace-userspace/btreplay/btrecord.c:646-673 | The bunches cut the events in order, none is empty, and each respects the packet and the time limit |
| `Bunches.ExtendIsLongest` | blktrace-userspace/btreplay/btrecord.c:646-655 | A bunch is as long as the limits allow |
| `Bunches.FewerForLess` | blktrace-userspace/btreplay/btrecord.c:646-673 | Leaving out the beginning of a trace never needs more bunches |
| `Bunches.GreedyIsBest` | blktrace-userspace/btreplay/btrecord.c:646-673 | No order-preserving partition within the limits of a time-ordered trace has fewer bunches |
| `Bunches.GreedyAddAll` | blktrace-userspace/btreplay/btrecord.c:662-673 | Deciding event by event comes to the same as cutting greedily |
| `Btrecord.IoStream.IoBunchAdd` | blktrace-userspace/btreplay/btrecord.c:270-285 | The packet goes into the next slot of the array, for events in any order; fails exactly if assertions are compiled in and the event is before the last one |
| `Btrecord.IoStream.StreamFlush` | blktrace-userspace/btreplay/btrecord.c:624-639 | A bunch with packets is written and counted |
| `Btrecord.IoStream.StreamAddIo` | blktrace-userspace/btreplay/btrecord.c:662-673 | The stream in memory and in the file follows Add, for events in any order; it fails exactly if assertions are compiled in and the event is before the last one |
| `Btrecord.Process` | blktrace-userspace/btreplay/btrecord.c:728-773 | With assertions compiled in a file is recorded if and only if its events are in time order, without them if and only if none is before the first time; and then as the greedy bunches, which have the packets of the events in order and each the time of the first of its own events; the header misses exactly the last bunch |
| `Btrecord.OneMore` | blktrace-userspace/btreplay/btrecord.c:544-554 | next_io and io_bunch_add, event by event, let pass exactly the traces that are to be recorded: none is before the first time that is not 0, and with assertions none is before the one before it |
| `Btrecord.RecordableIff` | blktrace-userspace/btreplay/btrecord.c:544-554 | With assertions the comparison with the first time adds nothing, and the traces recorded are those in time order |
| `Btrecord.DisorderRecorded` | blktrace-userspace/btreplay/btrecord.c:544-554 | A concrete trace out of order that is recorded without them |
| `Btrecord.NoPktLost` | blktrace-userspace/btreplay/btrecord.c:600-640 | The packets of the recorded bunches put together are those of the events |
| `Btrecord.GreedyDescribes` | blktrace-userspace/btreplay/btrecord.c:600-655 | The k-th packet of the bunches put together is that of the k-th event, and each bunch has the time of the event of its first packet |
| `JournalSpec.TagsRoundTrip` | blktrace-userspace/stat/ext-journal.c:39-55 | Tags written one after the other, the last one marked, are read back whatever follows them in the block |
| `JournalSpec.FlagBits` | blktrace-userspace/stat/ext-journal.h:33-36 | What the bits of the flags mean to the walk over the tags and to the replay |
| `JournalSpec.CircularPosition` | blktrace-userspace/stat/ext-generic.c:915-921 | The k-th tag goes with journal block (pos + k) mod (n - 1) + 1 |
| `JournalSpec.DistinctPositions` | blktrace-userspace/stat/ext-generic.c:915-921 | Up to n - 1 tags go with different journal blocks |
| `JournalSpec.ReplaySorted` | blktrace-userspace/stat/ext-generic.c:962-982 | The replay goes class by class |
| `JournalSpec.ReplayStable` | blktrace-userspace/stat/ext-generic.c:923-937 | Within a class it keeps the order of the tags |
| `JournalSpec.ReplayOnce` | blktrace-userspace/stat/ext-generic.c:912-982 | It has every classified tag exactly once and no other |
| `JournalSpec.ReplayOrder` | blktrace-userspace/stat/ext-generic.c:852-982 | Bitmaps are replayed before data blocks without an inode, these before indirect blocks, these before inode tables, and these before the other data blocks; blocks of one kind in the order of their tags; each as often as it has tags, and blocks of no known kind not at all |
| `Journal.Replayer.Enlist` | blktrace-userspace/stat/ext-generic.c:923-948 | A classified tag takes the first free item and goes to the end of the list of its class; fails exactly if the pool is empty |
| `Journal.Replayer.Collect` | blktrace-userspace/stat/ext-generic.c:908-960 | The walk reads inside the block only and spreads all tags; it succeeds if and only if the pool has an item for every classified tag |
| `Journal.PoolSuffices` | blktrace-userspace/stat/ext-generic.c:122-126 | A block of at most 4096 bytes has at most 510 tags, so 1024 items suffice |
| `Journal.Replayer.ReplayAll` | blktrace-userspace/stat/ext-generic.c:962-982 | The lists are replayed class by class with the data of the journal, an escaped block with a first word put in, which is 0 again afterwards; all items are back in the pool |
| `JournalData.ReplayJoin` | blktrace-userspace/stat/ext-generic.c:962-982 | Replaying one list after another is replaying them as one, the copies changing on the way |
| `JournalData.SettledWords` | blktrace-userspace/stat/ext-generic.c:965-974 | After a replay the journal blocks of escaped tags begin with 0 and all others are as before |
| `JournalData.EachPatched` | blktrace-userspace/stat/ext-generic.c:965-974 | As long as entries with one copy agree on the escape flag, each block is replayed as it was before the commit but for its own escaped word |
| `JournalData.EscapeUndoneIff` | blktrace-userspace/stat/ext-generic.c:965-968 | A block that is logged, with its first word 0 and the escape flag when it begins with the signature of the journal, is replayed as it was if and only if it did not begin so: the word put in, 0x98c93bc0, is not the signature |
| `JournalData.RestoredIff` | blktrace-userspace/stat/ext-generic.c:965-971 | So in a whole transaction each block is replayed as it was before it was logged if and only if it was not escaped |
| `Journal.Replayer.Commit` | blktrace-userspace/stat/ext-generic.c:899-989 | Nothing without an open transaction, an error for another sequence number, and otherwise what is pending in the order of the kinds of blocks, with the data that the journal holds; the pool of 1024 items is complete afterwards |
| `Journal.HeaderRead` | blktrace-userspace/stat/ext-journal.c:15-37 | A block is taken for what the signature, the type and the sequence number written in its first twelve bytes say |
| `Journal.Replayer.Begin` | blktrace-userspace/stat/ext-journal.c:220-231 | A second open transaction is refused; otherwise, whatever tags the descriptor block was written with are pending, each with its block of the journal |
| `Journal.Replayer.Copy` | blktrace-userspace/stat/ext-generic.c:886-887 | Copying any other block leaves what is pending as it is |
| `Journal.Replayer.Write` | blktrace-userspace/stat/ext-generic.c:869-998 | Each kind of block, told by its signature and header, has its effect on the transaction, on the journal block it copies and on what is replayed; errors exactly for a bad type, a second descriptor, or the commit of another transaction |
| `Journal.WholeTransaction` | blktrace-userspace/stat/ext-generic.c:869-998 | A descriptor block written with tags, any copies of other blocks, and the commit block: exactly these tags are replayed, kind of block by kind of block, whatever was in the journal before; when the copies were written to the positions of their tags, each tag with its own copy |
| `DipQuery.WalkIsFullIff` | blktrace-userspace/btt/dip_rb.c:67-86 | The pruned walk equals the full scan for every query if and only if no I/O ends as late as one in its right subtree |
| `DipQuery.Missed` | blktrace-userspace/btt/dip_rb.c:80-84 | Otherwise the walk for the range of some queued I/O leaves that I/O out |
| `Dip.NestedMissed` | blktrace-userspace/btt/dip_rb.c:80-84 | A concrete case: two queue traces, the second I/O inside the first, and the completion of the second, which does not release it |
| `DipQuery.NothingMissed` | blktrace-userspace/btt/dip_rb.c:67-86 | Under that condition nothing is missed and the order is the same |
| `DipQuery.DisjointRises` | blktrace-userspace/btt/dip_rb.c:67-86 | Disjoint I/Os of at least a sector, in tree order, have rising starts and ends |
| `DipQuery.EndsRiseCovers` | blktrace-userspace/btt/dip_rb.c:67-86 | Rising ends meet the condition whatever the shape of the tree |
| `DipQuery.ApartDisjoint` | blktrace-userspace/btt/globals.h:41-42 | I/Os of whole sectors without a common byte are disjoint in tree order, whatever the tree |
| `DipQuery.WalkOnce` | blktrace-userspace/btt/dip_rb.c:67-86 | The walk lists no I/O twice |
| `Dip.IoTree.Insert` | blktrace-userspace/btt/dip_rb.c:24-47 | The I/O is linked in the order of the starts, unless one with the same start is there |
| `Dip.IoTree.FindSec` | blktrace-userspace/btt/dip_rb.c:49-65 | What it finds has all bytes of the sector; when the ends rise it finds an I/O exactly if one has |
| `Dip.IoTree.Foreach` | blktrace-userspace/btt/dip_rb.c:67-86 | The recursion over the linked nodes lists Walk |
| `Dip.Device.TraceQueue` | blktrace-userspace/btt/trace_queue.c:44-53 | Accepted if and only if it has bytes and no linked I/O has the same start; counted then |
| `Dip.Device.TraceComplete` | blktrace-userspace/btt/trace_complete.c:68-104 | The I/Os of the walk are each counted once and unlinked; for I/Os of whole sectors without a common byte these are exactly those whose bytes are all in the completed range; accepted = linked + released throughout |
| `Blkiomon.Conservation` | blktrace-userspace/blkiomon.c:394-429 | Over any run events = stored + 2 * match + mismatch, and under each key waits exactly the latest trace since its last match |
| `Blkiomon.StepKept` | blktrace-userspace/blkiomon.c:394-429 | After one more trace, under each key still waits exactly the latest trace since its last match |
| `Blkiomon.Monitor.FetchTrace` | blktrace-userspace/blkiomon.c:374-392 | Finds and unchains the trace of the same device, sector and masked action, exactly if there is one |
| `Blkiomon.Monitor.StoreTrace` | blktrace-userspace/blkiomon.c:366-372 | The trace goes to the front of its chain |
| `Blkiomon.Monitor.DoTrace` | blktrace-userspace/blkiomon.c:394-429 | With the waiting trace of the same device, sector and masked action: a match, and none waits any more, if and only if the earlier one is a D trace and the later one a C trace, equal times counting as the waiting one being later; otherwise a mismatch, and the later one waits; with no such trace the new one waits |
| `Blkiomon.StepMoves` | blktrace-userspace/blkiomon.c:394-429 | The same of the map with one trace per key that the hash table refines |

## Left out

- Sockets, poll, sendfile, the mmap, mlock and ioctl calls, option parsing, file naming, printing, plotting: input and output only. Reads are sequences that come in, and io_submit and io_getevents are steps of the environment.
- Memory allocation failures and failed writes: assumed not to happen. When write_data fails, handle_list_file drops the rest of the buffer, which the model does not show.
- Integer widths: times, sectors and lengths are unbounded, except the 64-bit difference in blkparse's handle and in btrecord's bunch_done, which is modelled with its wrap-around, and the 32-bit words of the journal tags.
- Replay.StepKeepsInv: io_submit takes all blocks it is given and event results are those asked for, as the program aborts otherwise; the stall before submission takes no part, nor what iocb_setup makes of a packet and asserts about it.
- Barrier.Safe: its assertions are shown never to fail, so that it does not matter whether they are compiled in; signals, and the counters of finished reclaim threads, take no part.
- CasQueue.StepKeepsInv: memory is sequentially consistent, and a put is only made of a node that is in no queue and no other thread's hands.
- LruCache.CacheSet.Encache: is one set; choosing the set by idx % ncache and the shared counters would add nothing but an index. At least two entries per set are required, as init_cache_header addresses ch[1] and ch[link - 2].
- fast_decache: it may unlink an entry that is already free, so the lists need not survive it.
- PLive.LiveSet.Add: keeps the tree of one device; the list of all p_live records and the second tree for the whole system would repeat it.
- PLive.LiveSet.Visit: counts and adds up; the plot file, t_start and t_end are left out.
- PLive.LiveSet.Sums: t_start, t_end and the averages of p_live_get are left out; t_start is an unsigned number that starts at 0 and never changes.
- ListFile.HandleListFile: writes succeed; after a failed one the program drops the rest of the buffer. pdu_len is read in little-endian order; the network variant handle_list_net, which does not reframe, is left out.
- Entries.StepKeepsInv: any tracer may add to any list, which includes what the program does; the timed wait is a wait that may end at any time.
- Window.MmapInfo.Receive: when what was read does not fit, as in Window.NoRoom, it only says so; what a read past the window does is not modelled.
- MergeStreams.Stream.Prime: is a source of batches of good traces; traces of a wrong CPU, notify traces and broken records, which ms_prime skips or stops at, take no part.
- MergeStreams.DoFile: starts from the traces of the files; naming and opening files per device, and the signal that ends the loop early, take no part.
- Merge.ShownWhich: speaks of membership for files in any order; order and multiplicity for sorted files are in Merge.ShownSorted and Merge.ShownPerFile.
- trace_rb_find, skip lists and the per-device trees of blkparse: left out; the skip splitting overwrites an end before it uses it, so that no set-of-missing-numbers property holds.
- Btrecord.Process: reading and classifying the input traces is left out.
- Journal.Replayer.Commit: the pool of 16 transactions, of which one at most is in use, and what the replay of a block does are left out. Escaped words are stored as on a little-endian machine. The block size of the file system and of the journal are the same.
- block numbering in ext: children are numbered differently in two places and the remapping tolerates dangling links, so that there is no invariant to keep.
- Dip.Device.TraceQueue: keeps the tree and n_qs; the seek, region and q2q statistics and n_act_q are left out.
- Dip.Device.TraceComplete: the tree of completions, which is empty between calls, the averages other than the count of q2c, and the other trace types are left out.
- Blkiomon.Monitor.DoTrace: the list of vacant traces and the statistics of a match are left out; chains are sequences, so pointers between traces are not shown.
- The kernel module, the seek median, floating-point statistics, byte-order conversion and hashing helpers: not part of this model.
