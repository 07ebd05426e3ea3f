# Verified models of nginx core structures

Dafny models of the data structures, locks, parsers and codecs in the core of nginx 1.10.1, with
proofs of what they promise. `dafny verify dfyconfig.toml` checks all of it.

- **Slab allocator** (`Slab*`, `Rings`): the page array, the linked free and slot lists with tagged back
  links, the three bitmap layouts, splitting and coalescing of page runs, and a pool with allocation and
  release by byte offset. One invariant says how the page array is tiled; the results about live blocks
  follow from it.
- **Red-black trees** (`Rb*`) with parent links and a shared sentinel whose parent field is written by
  deletion; the **event timers** and the **string trees** built on them.
- **Locks and the thread pool** (`ShmMutex`, `RwLock`, `ThreadPool`): atomic steps of any number of
  processes, with invariants of every reachable state.
- **Indexes**: the radix tree against longest-prefix match, the packed hash table against a list of names,
  the wildcard hash against the longest pattern, and the open file cache with its counts and descriptors.
- **Text and arithmetic**: the configuration tokenizer with its refilled buffer and the texts it accepts,
  calendar dates and HTTP-dates, IPv4 and IPv6 text, base64, URI escaping, CRC-32 and streaming MD5.

Where the program changes things in place the model does too, by methods that are proved against functions
on values. Linked nodes are kept in maps and sequences indexed by node numbers; the abstract tree, list or
message that they stand for is ghost.

## Model

| member | source | states |
|---|---|---|
| `SlabPages.AllocPages` | src/core/ngx_slab.c:651-702 | First fit: it takes the first run in list order that is long enough, with all runs before it on the list shorter; the list keeps its order with the remainder in the place of the run. Failure means that every free run is shorter and changes nothing. |
| `SlabPages.FindRun` | src/core/ngx_slab.c:653-656 | The first run on the free list with enough pages; none only if all free runs are shorter. |
| `SlabPages.TakeRun` | src/core/ngx_slab.c:656-696 | Taking `n` pages from a given run keeps the invariant and gives the tiling with the first `n` pages a block; the free list is the old one with the remainder in the place of the run, or without the run. |
| `SlabPages.FreePages` | src/core/ngx_slab.c:705-783 | A released block coalesces with the free run on its left and the one on its right; the invariant (no two adjacent runs, each on the free list once, back link at the end of each run) holds again for the joined tiling, and the joined run is at the head of the free list, the others in their order. |
| `SlabPages.JoinRight` | src/core/ngx_slab.c:724-744 | The run that begins after the block, and only that, is taken off the free list and joined. |
| `SlabPages.JoinLeft` | src/core/ngx_slab.c:746-771 | The run that ends before the block is found through its last descriptor and joined; the new start is the head of that run. |
| `SlabBits.TakeSmall` | src/core/ngx_slab.c:199-250 | The lowest free chunk of an in-page bitmap is marked; the result says whether the page is now full. |
| `SlabBits.ClearSmall` | src/core/ngx_slab.c:493-511 | A chunk is cleared in the in-page bitmap; the result says whether the page is now unused, the bits of the bitmap itself left aside. |
| `SlabChunks.TakeChunk` | src/core/ngx_slab.c:198-327 | The first page of the slot list gives its lowest free chunk in each of the three layouts, leaves the list exactly when it becomes full, and no other page or list is touched. |
| `SlabChunks.CutPage` | src/core/ngx_slab.c:332-395 | A fresh page becomes a chunk page alone on its slot list, with the chunks of its own bitmap reserved and the first chunk after them given out. |
| `SlabChunks.ReleaseChunk` | src/core/ngx_slab.c:466-593 | A chunk is released: a full page returns to the head of its slot list, an emptied page is handed back and coalesces, and otherwise only the bit changes. |
| `Slab.SizeClass` | src/core/ngx_slab.c:182-191 | The class of a size is the smallest power of two from 8 up that is large enough. |
| `Slab.ListedIffPartly` | src/core/ngx_slab.c:195-198 | A slot list is non-empty exactly if some page of its class is partly used. |
| `Slab.Geometry` | src/core/ngx_slab.c:93-132 | The page area is page-aligned, inside the segment, and clear of the header, the slots and one descriptor for each page. |
| `Slab.InitialInv` | src/core/ngx_slab.c:98-130 | A fresh pool of any number of pages satisfies the invariant. |
| `Slab.Pool.constructor` | src/core/ngx_slab.c:72-136 | A pool starts with one free run of all its pages and nothing live. |
| `Slab.Pool.Alloc` | src/core/ngx_slab.c:155-399 | Exactly one block becomes live: for a large size the pages of the first run that is long enough, otherwise the lowest free chunk of the first page on the slot list of the class, or of a page from the first free run if the list is empty. All lists are given exactly; failure changes nothing and happens only if there is no partly used page of the class and no free run that is long enough. |
| `Slab.Pool.Free` | src/core/ngx_slab.c:442-648 | Exactly the block at the address stops being live, and the lists are given exactly; any other address is refused and changes nothing, but for those of `Slab.CheckIff`. |
| `Slab.CheckIff` | src/core/ngx_slab.c:451-611 | The tests before a release accept exactly the starts of live blocks, the first page of a free run, and the chunks of an in-page bitmap. |
| `Slab.FreePagePasses` | src/core/ngx_slab.c:595-611 | In every fresh pool, releasing the first page passes the tests though nothing is live. |
| `Slab.BitmapPasses` | src/core/ngx_slab.c:466-486 | In every state, releasing the start of a page with its bitmap there passes the tests though no block starts there. |
| `Slab.BitmapReached` | src/core/ngx_slab.c:332-361 | Such a page exists after the first allocation of 8 bytes. |
| `Slab.StoreKeepsInv` | src/core/ngx_slab.c:155-399 | Whatever a caller writes into a live block, the allocator invariant still holds: no bitmap lies inside a live block. |
| `SlabBlocks.LiveInPool` | src/core/ngx_slab.c:155-399 | Every live block ends inside the page area. |
| `SlabBlocks.LiveDisjoint` | src/core/ngx_slab.c:155-399 | Two live blocks never overlap. |
| `SlabBlocks.LiveAligned` | src/core/ngx_slab.c:155-399 | A live block is aligned to its class, or to a page. |
| `SlabBlocks.LiveClearOfBitmap` | src/core/ngx_slab.c:334-361 | A live chunk starts after the bitmap in its page. |
| `SlabBlocks.LocAtIff` | src/core/ngx_slab.c:457-475 | The block found for an address is the live block that starts there. |
| `SlabBlocks.NothingLive` | src/core/ngx_slab.c:442-783 | When nothing is live, after whatever run, the pool is one free run of all its pages. |
| `RbRotate.Rotate` | src/core/ngx_rbtree.c:323-379 | A rotation in either direction gives the rotated subtree in place, links and parent links of all nodes around it included. |
| `RbInsert.Descend` | src/core/ngx_rbtree.c:96-117 | The empty place found for a node lies between the nodes that are not above it and those that are not below it in the order. |
| `RbInsert.Rebalance` | src/core/ngx_rbtree.c:47-91 | The loop ends and gives a tree without red-red edges and with equal black heights, with the same nodes in the same order. |
| `RbInsert.Insert` | src/core/ngx_rbtree.c:24-92 | The result is a red-black tree; its in-order sequence is the old one with the node put in at one place, and stays sorted if the order is a weak order on the nodes. |
| `RbDelete.Min` | src/core/ngx_rbtree.h:71-79 | The leftmost node is the first of the in-order sequence. |
| `RbDelete.RemoveSimple` | src/core/ngx_rbtree.c:167-209 | A node with at most one child is replaced by that child. |
| `RbDelete.RemoveInner` | src/core/ngx_rbtree.c:175-243 | A node with two children is replaced by its successor, whose own right subtree takes its place; the sentinel, too, gets the right parent. |
| `RbFixup.Repair` | src/core/ngx_rbtree.c:255-319 | The loop ends and restores equal black heights and no red-red edges, with the same nodes in the same order. |
| `RbFixup.Delete` | src/core/ngx_rbtree.c:156-319 | The result is a red-black tree whose in-order sequence is the old one without exactly that node. |
| `StrTree.LessOrder` | src/core/ngx_string.c:1847-1884 | Hash, then length, then bytes is a strict total order. |
| `StrTree.Strings.InsertStr` | src/core/ngx_string.c:1847-1884 | A node is added, and the tree stays ordered and red-black. |
| `StrTree.Strings.DeleteStr` | src/core/ngx_rbtree.c:156-319 | Exactly that node is gone. |
| `StrTree.Strings.Lookup` | src/core/ngx_string.c:1887-1927 | Finds a node with the string exactly if there is one in the tree. |
| `EventTimer.WindowOrder` | src/core/ngx_rbtree.c:121-153 | Within half the range of the counter, the signed difference orders the deadlines as their distance from a base does, wrap-around included. |
| `EventTimer.FirstIsLeast` | src/event/ngx_event_timer.c:45-49 | The first timer of an ordered tree has the least remaining time. |
| `EventTimer.Timers.FindTimer` | src/event/ngx_event_timer.c:32-50 | The least remaining time, 0 if a timer is overdue, all ones without timers. |
| `EventTimer.Timers.DelTimer` | src/event/ngx_event_timer.h:31-47 | The timer is gone and the others keep their deadlines and their order. |
| `EventTimer.Timers.PutTimer` | src/event/ngx_event_timer.h:78-86 | The timer is added, and the tree is ordered when the deadlines lie in half the range. |
| `EventTimer.Timers.AddTimer` | src/event/ngx_event_timer.h:50-87 | The event has a timer less than 300 ms from the deadline asked for, exactly that deadline if it had none before; other timers are unchanged. |
| `EventTimer.Timers.ExpireTimers` | src/event/ngx_event_timer.c:53-96 | With deadlines and time in half the range, exactly the due events are fired, in the order of their deadlines. |
| `ShmMutex.StepInv` | src/core/ngx_shmtx.c:62-196 | Every atomic step of every process keeps exclusion, the count of waiters and the wake-up to come. |
| `ShmMutex.RunInv` | src/core/ngx_shmtx.c:62-196 | These hold in every state of every run of any number of processes. |
| `ShmMutex.MutualExclusion` | src/core/ngx_shmtx.c:69-146 | In every run at most one process holds the lock. |
| `ShmMutex.WaitersConserved` | src/core/ngx_shmtx.c:101-190 | Wait counter plus semaphore plus wakers about to post equals the lockers that counted themselves in and have not come back. |
| `ShmMutex.NeverStuck` | src/core/ngx_shmtx.c:69-196 | In every reachable state with the lock free and a process blocked, steps of the processes inside the lock functions alone lead to somebody having the lock. |
| `ShmMutex.TryLockTakes` | src/core/ngx_shmtx.c:62-66 | A process that tries the free lock and is not interrupted has it after two steps, under its own number. |
| `ShmMutex.TryLockFails` | src/core/ngx_shmtx.c:62-66 | If the lock is taken the attempt ends without changing anything. |
| `ShmMutex.LockTakes` | src/core/ngx_shmtx.c:69-78 | The same for the lock function on a free lock. |
| `ShmMutex.WaiterTakes` | src/core/ngx_shmtx.c:101-111 | A process about to wait looks once more: on a free lock it takes itself out of the count of waiters and has the lock. |
| `ShmMutex.WaiterBlocks` | src/core/ngx_shmtx.c:101-129 | On a taken lock it is counted as a waiter and blocks. |
| `ShmMutex.UnlockFrees` | src/core/ngx_shmtx.c:136-146 | In every run a holder that unlocks frees the lock and goes on to wake a waiter. |
| `ShmMutex.WakesOne` | src/core/ngx_shmtx.c:164-196 | With waiters, waking takes exactly one off the count and posts the semaphore once; without, it does nothing. |
| `ShmMutex.ForcedUnlock` | src/core/ngx_shmtx.c:149-161 | Unlocking for a dead process frees the lock exactly if that process holds it. |
| `RwLock.StepInv` | src/core/ngx_rwlock.c:19-109 | Every atomic step keeps: the word is the writer value with exactly one writer and no readers, and otherwise the number of readers. |
| `RwLock.RunInv` | src/core/ngx_rwlock.c:19-109 | This holds in every state of every run. |
| `RwLock.ReaderNeverSeesWriter` | src/core/ngx_rwlock.c:89-109 | While a process reads, the retry loop of its unlock never sees the writer value, nor 0. |
| `RwLock.WriterTakes` | src/core/ngx_rwlock.c:19-48 | A writer that finds the lock free and is not interrupted has it after two steps. |
| `RwLock.ReaderEnters` | src/core/ngx_rwlock.c:51-86 | In every run a reader that finds no writer and is not interrupted is counted after two steps. |
| `RwLock.Turned` | src/core/ngx_rwlock.c:19-86 | A writer on a taken lock and a reader on a writer's lock change nothing. |
| `RwLock.WriterLeaves` | src/core/ngx_rwlock.c:89-98 | A writer that unlocks leaves the lock free. |
| `RwLock.ReaderLeaves` | src/core/ngx_rwlock.c:89-109 | A reader that unlocks takes exactly one off the count. |
| `ThreadPool.PostInv` | src/core/ngx_thread_pool.c:223-266 | Posting, refused when the queue is full, keeps the invariant. |
| `ThreadPool.PostAccepted` | src/core/ngx_thread_pool.c:223-266 | Posting is always possible: a task is queued exactly if it is not active and fewer than the limit are waiting. |
| `ThreadPool.PostOnly` | src/core/ngx_thread_pool.c:223-266 | It does nothing else: a refused task changes nothing, an accepted one is put behind the queue. |
| `ThreadPool.WorkInv` | src/core/ngx_thread_pool.c:299-353 | Every step of a worker keeps it. |
| `ThreadPool.CollectInv` | src/core/ngx_thread_pool.c:365-373 | So does taking the finished tasks over in one go. |
| `ThreadPool.DeliverInv` | src/core/ngx_thread_pool.c:375-386 | So does delivering one of them. |
| `ThreadPool.RunInv` | src/core/ngx_thread_pool.c:223-387 | In every run each active task is in exactly one of queue, worker, done list and batch, the waiting counter is the queue length less the workers about to take, and no task is forgotten by sleeping workers. |
| `ThreadPool.Conservation` | src/core/ngx_thread_pool.c:223-387 | A task has been posted as often as it was delivered, once more if it is active. |
| `ThreadPool.QueueBound` | src/core/ngx_thread_pool.c:236-243 | The queue is never longer than its limit plus the number of workers. |
| `ThreadPool.FirstInFirstTaken` | src/core/ngx_thread_pool.c:255-386 | Tasks are started in the order in which they were posted, and delivered in the order in which they finished. |
| `ThreadPool.ComesToRest` | src/core/ngx_thread_pool.c:270-387 | Without new posts every run has a bounded number of further steps. |
| `ThreadPool.RestMeansDelivered` | src/core/ngx_thread_pool.c:270-387 | When no step is possible, every posted task has been delivered. |
| `RadixShape.BestIsLongest` | src/core/ngx_radix_tree.c:236-262 | What a search is proved to return is the value of the longest stored prefix of the key, or none. |
| `Radix.Tree.Find` | src/core/ngx_radix_tree.c:236-262 | The search returns it, for every tree that insertions, deletions and preallocation leave. |
| `Radix.Tree.AddNode` | src/core/ngx_radix_tree.c:463-488 | A node comes from the free list or from new memory; tree and free list stay disjoint and together have every node once. |
| `Radix.Tree.Insert` | src/core/ngx_radix_tree.c:108-170 | Busy exactly if the prefix has a value; success stores exactly that prefix; failure stores nothing and happens only when the memory does not suffice. |
| `Radix.Tree.Prune` | src/core/ngx_radix_tree.c:206-230 | The leaf and the valueless childless nodes above it go to the free list; nothing else is lost. |
| `Radix.Tree.Delete` | src/core/ngx_radix_tree.c:173-232 | Only that prefix is lost; success exactly if it was stored or its node is a leaf; after proper insertions and deletions only, exactly if it was stored. |
| `Radix.DeletesNothing` | src/core/ngx_radix_tree.c:193-232 | A leaf made in advance: its deletion succeeds though nothing is stored. |
| `Radix.Tree.FillLevel` | src/core/ngx_radix_tree.c:86-99 | Counting the key up to its wrap-around makes the nodes for all strings of one length, unless memory runs out. |
| `Radix.Tree.Preallocate` | src/core/ngx_radix_tree.c:81-104 | Afterwards all strings of up to `n` bits have nodes and still nothing is stored; it fails only with no memory left. |
| `HashLayout.Stride` | src/core/ngx_hash.c:43-45 | The step of the finder from one element to the next is the size with which the builder placed it. |
| `HashTable.Walk` | src/core/ngx_hash.c:28-46 | The search in one bucket finds the first live element with the name. |
| `HashTable.Find` | src/core/ngx_hash.c:12-49 | Finds the value of the first live name equal to the wanted one, nothing if there is none. |
| `HashTable.PickMember` | src/core/ngx_hash.c:12-49 | That value belongs to a live name with this key, and without a result there is no such name. |
| `HashInit.FitTest` | src/core/ngx_hash.c:295-316 | The fit test, with its 16-bit counters, passes exactly if every bucket holds its elements and the terminator. |
| `HashInit.ChooseSize` | src/core/ngx_hash.c:284-330 | The smallest size from the start on that passes; none passes if the largest one is taken. |
| `HashInit.FitNoOverflow` | src/core/ngx_hash.c:334-358 | After a size passed, the 16-bit counters of the placing pass do not wrap. |
| `HashInit.Apart` | src/core/ngx_hash.c:347-394 | The memory of two buckets does not overlap. |
| `HashInit.InRoom` | src/core/ngx_hash.c:334-394 | Each bucket holds its elements and the terminator, inside the memory that was asked for. |
| `HashInit.Fill` | src/core/ngx_hash.c:396-414 | Every live name is stored in its bucket, after those before it, and is not written over. |
| `HashInit.Finish` | src/core/ngx_hash.c:416-424 | Every bucket ends with an empty pointer, and the elements are unchanged. |
| `HashInit.Init` | src/core/ngx_hash.c:251-462 | Refused exactly for a name too long for a bucket or a size of 0; otherwise the table represents the names, so that `HashTable.Find` agrees with them on every string. |
| `Wildcard.Build` | src/core/ngx_hash.c:465-607 | The recursive construction gives a hash in which every first label has exactly the entry of the names that begin with it. |
| `Wildcard.CollectRun` | src/core/ngx_hash.c:521-572 | The names with the same first label are the run that follows, and their rests are collected in order. |
| `WildcardFind.LookupAnswers` | src/core/ngx_hash.c:52-207 | In a hash built from good names the search gives the value of the longest matching name. |
| `WildcardHosts.FindHead` | src/core/ngx_hash.c:52-143 | The recursion on the characters of a host is the search on its labels, the last one first. |
| `WildcardHosts.FindTail` | src/core/ngx_hash.c:146-207 | The same with the first label first and one further label needed. |
| `WildcardHosts.Convert` | src/core/ngx_hash.c:883-935 | A written pattern is kept with its labels reversed, with a dot at the end for a star. |
| `WildcardHosts.DotPattern` | src/core/ngx_hash.c:113-120 | ".x" as it is kept matches x and the names below x, and no others. |
| `WildcardHosts.StarPattern` | src/core/ngx_hash.c:84-108 | "*.x" as it is kept matches the names below x, and no others. |
| `WildcardHosts.TailPattern` | src/core/ngx_hash.c:146-207 | "x.*" matches what begins with x and a dot. |
| `WildcardSearch.SearchHead` | src/core/ngx_hash.c:52-143 | For patterns as they are written, the search gives the value of the longest one that covers the host, 0 if none does. |
| `WildcardSearch.SearchTail` | src/core/ngx_hash.c:146-207 | The same for patterns with the star at the end. |
| `FileCache.OpenCached` | src/core/ngx_open_file_cache.c:143-486 | For every answer of the file system: counter = tree = queue <= max, each record counts its handles, records outside the tree are held by handles, and the result is that of the record or of the file system. The descriptors stay in order (each record has its own open one, each handle reads from an open one) if and only if the number of the file held open does not come back for a directory; and then none is lost if and only if the file is not gone for stat() and back for open(). |
| `FileCache.ClosedButKept` | src/core/ngx_open_file_cache.c:853-854 | At one input: the number of the open file comes back for a directory, the descriptor is closed and stays in the record. |
| `FileCache.ClosedWhileRead` | src/core/ngx_open_file_cache.c:343-372 | At one input: the same with a reader and no memory for a new record closes the descriptor under the reader. |
| `FileCache.OpenForever` | src/core/ngx_open_file_cache.c:309-317 | At one input: the file is gone for stat() and back for open(), and its first descriptor stays open with no record that has it. |
| `FileCache.LostHasNoRecord` | src/core/ngx_open_file_cache.c:397-399 | No record has a lost descriptor, so nothing ever closes it. |
| `FileCache.CloseCached` | src/core/ngx_open_file_cache.c:1031-1074 | The exact effect: a record in the tree moves to the head of the queue and is closed if used too little; one outside is closed and freed with its last handle; descriptors stay in order. |
| `FileCache.Expire` | src/core/ngx_open_file_cache.c:1094-1142 | Records are dropped from the end of the queue only: a forced call drops the last one, then up to the number allowed those that were not used for longer than the time of inactivity, stopping at the first that was. No handle is affected, no name is added, and the books and the descriptors stay in order. |
| `FileCache.LeastRecentlyUsed` | src/core/ngx_open_file_cache.c:1094-1142 | With the queue in the order of use, which every call keeps, no dropped record was used later than one that is kept. |
| `FileCache.Retest` | src/core/ngx_open_file_cache.c:265-375 | A retested record is updated, renewed, or replaced when handles still read from it. |
| `FileCache.Fail` | src/core/ngx_open_file_cache.c:453-476 | The record of a failed call leaves the tree, and is closed and freed unless handles are left. |
| `FileCache.ReleaseHandle` | src/core/ngx_open_file_cache.c:1017-1028 | Giving a handle back keeps the books, and the descriptors in order. |
| `FileCache.HeldIsOpen` | src/core/ngx_open_file_cache.c:143-486 | While a handle is out, its descriptor is open and its record counts it. |
| `FileCacheSteps.NobodyReads` | src/core/ngx_open_file_cache.c:1054-1066 | A descriptor that is closed because its record has no handles is open, the record's own, and nobody reads from it. |
| `FileCache.NothingLeft` | src/core/ngx_open_file_cache.c:1017-1142 | With all handles back, only records of the tree are left, and every open descriptor that is not lost is one of theirs. |
| `FileCache.Cache.constructor` | src/core/ngx_open_file_cache.c:56-85 | An empty cache, with all in order. |
| `FileCache.Cache.Open` | src/core/ngx_open_file_cache.c:143-486 | The same as `FileCache.OpenCached` for the cache object. |
| `FileCache.Cache.Release` | src/core/ngx_open_file_cache.c:1017-1028 | The same as `FileCache.ReleaseHandle`. |
| `ConfToken.LimitOnly` | src/core/ngx_conf_file.c:519-541 | A limit on the length of a word makes no difference but for the error. |
| `ConfToken.NoLimit` | src/core/ngx_conf_file.c:519-541 | With a limit above the length of the text the error does not occur. |
| `ConfToken.LikeWhole` | src/core/ngx_conf_file.c:466-775 | Whenever the error is not raised, the end, words, line and position are those of reading the whole text at once. |
| `ConfFile.Reader.Refill` | src/core/ngx_conf_file.c:543-570 | The current word moves to the front of the buffer and the rest is filled from the file; the position in the file is kept. |
| `ConfFile.Reader.ReadToken` | src/core/ngx_conf_file.c:466-775 | Through the 4096-byte buffer: code, words, line and position of the reading with that limit, and, unless a word was too long, of reading the whole text at once. |
| `ConfWords.Unescaped` | src/core/ngx_conf_file.c:729-760 | Copying a word replaces the escapes of quotation marks, backslash, t, r and n, and keeps every other character. |
| `ConfDirective.ReadDirective` | src/core/ngx_conf_file.c:466-775 | Any directive is read as its words: bare, in quotation marks of both sorts, with escapes and variables in braces, with a second word that starts with a closing parenthesis; with any blanks and comments before and between; ended by a semicolon or a brace right behind the last word. |
| `ConfDirective.ReadEnd` | src/core/ngx_conf_file.c:622-644 | A semicolon or brace after blanks or comments ends a directive that has words, and is an error without words. |
| `ConfDirective.ReadClose` | src/core/ngx_conf_file.c:646-653 | A closing brace ends a block exactly if no words are before it. |
| `ConfDirective.ReadTextEnd` | src/core/ngx_conf_file.c:501-516 | A text may end where a directive could start, and not after a word. |
| `ConfDirective.ReadUnfinished` | src/core/ngx_conf_file.c:501-516 | It may end in a comment, and not in a word or inside quotation marks. |
| `ConfDirective.ReadBehind` | src/core/ngx_conf_file.c:596-620 | Behind a closing quotation mark nothing but a blank, the end of the directive or a closing parenthesis is accepted. |
| `ConfDirective.LineCount` | src/core/ngx_conf_file.c:579-585 | The line is the one in which reading started and one more for each line end read. |
| `ConfDirective.TooLongLine` | src/core/ngx_conf_file.c:519-541 | For a word that is too long it is the line in which the word starts. |
| `ConfDirective.ReadPlain` | src/core/ngx_conf_file.c:711-716 | Plain words with any blanks between them are read back, ended by a semicolon or a brace with or without blanks before it. |
| `ConfDirective.ReadBack` | src/core/ngx_conf_file.c:466-775 | Any words, written in quotation marks of either sort, are read back as these words, whatever follows. |
| `ConfDirective.LeadingVariable` | src/core/ngx_conf_file.c:676-686 | A bare word that starts with "${" is cut there, and a block starts. |
| `Civil.DateNumber` | src/core/ngx_times.c:299-389 | The formula of Gauss numbers the days from January 1, 1970, counted one after the other. |
| `Civil.NumberOnly` | src/core/ngx_times.c:299-389 | Only one date has a given number. |
| `Gmtime.Estimate` | src/core/ngx_times.c:336-338 | The estimated year is right or one too late. |
| `Gmtime.YearDayOk` | src/core/ngx_times.c:336-344 | After the correction the day lies in its year. |
| `Gmtime.MonthOk` | src/core/ngx_times.c:354-380 | The month is the one that has the day. |
| `Gmtime.GmTimeIs` | src/core/ngx_times.c:299-389 | For every time the date is the one that counting days gives, with its weekday and time of day. |
| `HttpDate.ParseHttpTime` | src/core/ngx_parse_time.c:14-276 | The parser over positions gives what the formats say, errors included. |
| `HttpDateProofs.SecondsOk` | src/core/ngx_parse_time.c:235-265 | The seconds of every date up to year 9999, the day 0 of a month being the last one of the month before. |
| `HttpDateProofs.ReadRfc822` | src/core/ngx_parse_time.c:14-276 | A date in the first format of section 7.1.1.1 of RFC 7231, with any two digits for each number, is read as its time, and is refused exactly for a day behind the end of its month, an hour from 24, and a minute or second from 60 on. |
| `HttpDateProofs.ReadRfc850` | src/core/ngx_parse_time.c:138-146 | The same for the format with two digits for the year. |
| `HttpDateProofs.ReadAsciiTime` | src/core/ngx_parse_time.c:148-220 | The same for the format of asctime(). |
| `HttpDateProofs.HttpTimeIs` | src/core/ngx_times.c:254-269 | What is printed for a time is its date in the first format. |
| `HttpDateProofs.ReadPrinted` | src/core/ngx_parse_time.c:14-276 | For every time up to the end of year 9999, parsing the printed date gives the time back. |
| `Inet.InetAddr` | src/core/ngx_inet.c:17-57 | The loop over the characters gives the value that `InetTexts.InetIs` describes, all ones for any other text. |
| `Inet.Inet6Addr` | src/core/ngx_inet.c:62-175 | The parser with its moving of bytes over the gap succeeds exactly on the texts that `InetTexts.Inet6Is` describes, and gives their bytes. |
| `InetTexts.InetIs` | src/core/ngx_inet.c:17-57 | Exactly the texts with four parts between dots, each of digits that make at most 255, are IPv4 addresses, and what they stand for. |
| `InetTexts.Inet6Is` | src/core/ngx_inet.c:62-175 | Exactly which texts are IPv6 addresses, by their parts between colons, and their bytes: groups of up to four digits, one "::", an IPv4 address at the end. |
| `InetTexts.ReadGapAtEnd` | src/core/ngx_inet.c:149-175 | Groups with "::" behind them are read if and only if there are fewer than seven. |
| `InetPrint.FindRun` | src/core/ngx_inet.c:300-326 | The longest run of at least two zero groups, and the first one of that length. |
| `InetPrint.LowerHex` | src/core/ngx_inet.c:351 | Groups are printed in small letters without zeros in front. |
| `InetPrint.Inet6Ntop` | src/core/ngx_inet.c:289-363 | The text around that run, with an IPv4 ending in the mapped and compatible forms. |
| `InetProofs.RoundTrip` | src/core/ngx_inet.c:62-363 | The text around any run of zeros is read back, unless it ends with an IPv4 address of all ones. |
| `InetProofs.Exceptions` | src/core/ngx_inet.c:62-363 | With the run that the printer takes, that happens for exactly two addresses. |
| `InetProofs.PrintedRead` | src/core/ngx_inet.c:62-363 | The text printed for an address is refused for ::255.255.255.255 and ::ffff:255.255.255.255 and read back as the address for every other one. |
| `InetProofs.PrintAndRead` | src/core/ngx_inet.c:62-363 | Printing and then reading into a buffer gives the address, exactly but for the two. |
| `InetProofs.BroadcastFails` | src/core/ngx_inet.c:113-121 | "::255.255.255.255" is what is printed for its address, and it is refused. |
| `Base64.Encode` | src/core/ngx_string.c:1141-1182 | Both alphabets, with and without padding. |
| `Base64.Alphabet` | src/core/ngx_string.c:1121-1239 | The letters are those of tables 1 and 2 of RFC 4648, and every other character is refused. |
| `Base64.Decode` | src/core/ngx_string.c:1239-1282 | Fails exactly for a bad character before the padding or a single left-over character. |
| `Base64.RoundTrip` | src/core/ngx_string.c:1121-1282 | Decoding undoes encoding for every byte string, in both alphabets (sections 4 and 5 of RFC 4648). |
| `UriEscape.Growth` | src/core/ngx_string.c:1559-1589 | The counting pass gives exactly the growth of the text by twice its result. |
| `UriSets.EscapeSet` | src/core/ngx_string.c:1436-1557 | For each kind exactly the set of characters that are escaped. |
| `UriSets.UpperHex` | src/core/ngx_string.c:1429 | The digits written are capitals. |
| `UriEscape.CountEscapes` | src/core/ngx_string.c:1559-1574 | The pass without a destination counts the characters to be escaped. |
| `UriEscape.Escape` | src/core/ngx_string.c:1576-1589 | Exactly these are written with a percent sign and two digits. |
| `UriEscape.Unescape` | src/core/ngx_string.c:1593-1720 | The text that the state machine gives, and exactly where it stops. |
| `UriReading.ReadText` | src/core/ngx_string.c:1593-1720 | For each setting of the flags, what any text gives: characters, escapes with two digits, incomplete ones, and the end at a question mark, escaped or not. |
| `UriReading.TakenApart` | src/core/ngx_string.c:1593-1720 | Every text is made of these. |
| `UriEscape.PercentSpecial` | src/core/ngx_string.c:1436-1557 | All kinds but one escape the percent sign. |
| `UriRefresh.SurvivesIff` | src/core/ngx_string.c:1424-1720 | Unescaping gives back a text if and only if the kind is not that one or the text has no percent sign. |
| `UriRefresh.SafeKinds` | src/core/ngx_string.c:1424-1720 | A kind is safe for all texts if and only if it is not that one. |
| `Crc32.Table16Is` | src/core/ngx_crc32.c:26-31 | The 16 entries are four steps bit by bit. |
| `Crc32.Table256Is` | src/core/ngx_crc32.c:34-99 | The 256 entries are eight steps bit by bit. |
| `Crc32.TablesOk` | src/core/ngx_crc32.c:26-99 | Four steps on any register are a table entry for the low bits and a shift of the rest. |
| `Crc32.Short` | src/core/ngx_crc32.h:20-35 | The checksum with the table for half bytes is that of section 8 of RFC 1952, bit by bit. |
| `Crc32.Long` | src/core/ngx_crc32.h:38-50 | So is the one with the table for bytes. |
| `Crc32.Update` | src/core/ngx_crc32.h:57-69 | An update gives the register after the bytes, bit by bit. |
| `Crc32.RunningConcat` | src/core/ngx_crc32.h:57-69 | Updates over two pieces are one over both. |
| `Md5Body.RoundFunctions` | src/core/ngx_md5.c:126-129 | The four functions are those of section 3.4 of RFC 1321. |
| `Md5Body.StepIs` | src/core/ngx_md5.c:135-138 | Every step is that of section 3.4: the sum with the function of the round, turned and added. |
| `Md5Body.IndexIs` | src/core/ngx_md5.c:198-270 | Each round takes every word of the block once, in the order of the RFC. |
| `Md5Vectors.EmptyMessage` | src/core/ngx_md5.c:173-287 | The digest of the empty message is that of appendix A.5 of RFC 1321. |
| `Md5Vectors.AbcMessage` | src/core/ngx_md5.c:173-287 | So is the digest of "abc". |
| `Md5Stream.BlocksConcat` | src/core/ngx_md5.c:173-287 | Folding over two pieces of full blocks is folding over both. |
| `Md5Stream.BlocksMore` | src/core/ngx_md5.c:34-62 | Further bytes are taken up after the tail of the message so far. |
| `Md5Stream.PaddedLength` | src/core/ngx_md5.c:65-95 | The padding brings the length to 56 modulo 64, and the length brings it to a multiple of 64 (sections 3.1 and 3.2 of RFC 1321). |
| `Md5Stream.EightBytesValue` | src/core/ngx_md5.c:84-92 | The eight bytes of the length stand for it, the lowest one first. |
| `Md5.Body` | src/core/ngx_md5.c:173-287 | The loop over blocks folds the transformation over them. |
| `Md5.Context.constructor` | src/core/ngx_md5.c:22-31 | The initial registers, for the empty message. |
| `Md5.Context.Update` | src/core/ngx_md5.c:34-62 | Whatever the sizes of the pieces, registers and buffer are those of the full blocks and the tail of the whole message. |
| `Md5.Context.Final` | src/core/ngx_md5.c:65-114 | The digest is that of the padded message, whichever way it was cut into updates. |
| `Md5.RegBytesRead` | src/core/ngx_md5.c:97-112 | The bytes written for a register are read back as the register. |

## Findings

Properties that the code does not have, each with the condition under which it does:

- Slab release: an address that is not a live block can pass the tests. Exactly which ones is `Slab.CheckIff`;
  `Slab.FreePagePasses` and `Slab.BitmapReached` show one of each sort in a reachable state.
- Open file cache, descriptors in order: false if and only if a retest finds the number of the file it holds
  open on a directory (`FileCache.OpenCached`). `FileCache.ClosedButKept` and `FileCache.ClosedWhileRead` are
  inputs; the number is only that of the inode, so another device can give such an answer.
- Open file cache, no descriptor lost: false if and only if the file held open is gone for stat() and back for
  open() (`FileCache.OpenCached`). `FileCache.OpenForever` is an input.
- IPv6 text: two addresses are not read back (`InetProofs.PrintedRead`); `InetProofs.BroadcastFails` is one.
- URI escaping for a refresh header does not escape percent signs, and no text with a percent sign is given back
  (`UriRefresh.SurvivesIff`).
- IPv6 text: "::" at the end is refused behind seven groups, though section 2.2 of RFC 4291 allows it for a single
  group (`InetTexts.ReadGapAtEnd`). A single colon in front, and one at the end after "::", are accepted
  (`InetTexts.Inet6Is`).
- Configuration words: without quotation marks a word cannot start with a variable in braces; it can have one
  anywhere else (`ConfDirective.LeadingVariable`, `ConfDirective.ReadDirective`).
- HTTP-dates: the day 0 of a month is accepted (`HttpDateProofs.ReadRfc822`).
- URI escaping for arguments also escapes the semicolon, which its comment does not list (`UriSets.EscapeSet`).
- Radix tree: deletion of a leaf without a value is reported as done (`Radix.Tree.Delete`);
  `Radix.DeletesNothing` is an input.

## Left out

- Slab.Pool.Free: is stated for addresses that `Slab.CheckIff` tells from live blocks; releasing one of the others
  damages the lists. Addresses between the last page and the end of the segment, for which there is no descriptor,
  are left out as well.
- Slab: addresses are offsets from the page-aligned start, link words are values with a tag, words are sequences of 64 bits,
  pages have 4096 bytes, and the smallest chunk is 8 bytes; the mutex, calloc, filling with junk and the log are not modelled.
- Red-black trees: the two mirrored halves of each loop are written once with a direction; nodes are numbers in a map.
- EventTimer.Timers.ExpireTimers: the handlers set no timers; cancelling of timers at exit is not modelled.
- ShmMutex: a process dies only outside the functions or while it holds the lock; spinning is a repeated test, and
  semaphore calls do not fail. Fairness is not claimed: `ShmMutex.NeverStuck` says that a way to the lock exists.
- ThreadPool: a critical section is one step, condition variables may wake without need, and calls do not fail; creating
  and destroying pools is not modelled.
- Radix.Tree.Delete: the zero-length prefix on a childless root is excluded, since the code follows the root's
  missing parent there. The width of keys is a parameter; the 128-bit functions are not modelled separately.
- HashInit.Init: bucket sizes are from 24, below which the code divides by zero, to 32767 and, if no size fits and the largest one is taken anyway, its buckets do
  not overflow the 16-bit counters; memory does not run out. `HashTable.Find` takes the hash of a name as given.
- Wildcard: the tables of one level are maps (their packed form is `HashTable`), tag bits are a datatype, values are not
  zero, and the names come sorted; sorting and the search for conflicting names are not modelled.
- FileCache: vnode events, walking of symbolic links, read-ahead and direct I/O, and the use without a cache are not modelled;
  a new descriptor is one that is not open. The time of a call is a parameter.
- ConfFile: reading errors, the parameter of the command line and the limit of 2048 shown characters in the message are not modelled.
- Gmtime.GmTimeIs: is stated for times from 0 on; the branch for a 32-bit time type is not modelled.
- HttpDateProofs.ReadRfc822, ReadRfc850 and ReadAsciiTime: year 0 is left out, since the code's year before it wraps.
- HttpDateProofs.ReadRfc850: two-digit years stand for 1970 to 2069, as the parser reads them.
- Inet: addresses with ports, names and CIDR blocks are not modelled.
- Base64 and UriEscape: buffers are values; overlapping source and destination are not modelled.
- Md5: the 64 constants are not derived from the sine function; the two digests depend on all of them.
- Resolver, connections, event loops, logging, output chains, regular expressions, OpenSSL and the configuration
  slot setters are not modelled; they are input and output, or would add only easy members.
