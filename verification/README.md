# Verified model of the Dmf-FrameWork server core

A Dafny model of the stateful parts of the Dmf-FrameWork C web server, with proofs of what they are for.
Each component is modelled in the form of its C code (classes and loops for code that updates in place,
transition systems for code under a mutex) and tied to an independent definition of what it should do.

| file | component |
|---|---|
| `SlicePool.dfy`, `LostSlices.dfy`, `NodeRelease.dfy`, `PoolTree.dfy` | the hierarchical memory pool: slices, tags, free list; pools of several nodes and when a node is given back; the tree of pools and its recursive destruction |
| `RequestParser.dfy`, `RequestPrinter.dfy`, `RequestOutcomes.dfy`, `HashMap.dfy` | the HTTP request parser, the request format it undoes, what becomes of bodies and malformed texts, and the chained hash map it fills |
| `ThreadPool.dfy`, `ConnectionPool.dfy`, `BlockPool.dfy` | the three pools guarded by a mutex and a condition variable; `Waiting.dfy` and `Holdings.dfy` are what they share |
| `TimerHeap.dfy` | the timer min-heap and its event loop |
| `SessionStore.dfy` | the two-level session table |
| `Template.dfy`, `TemplateMeaning.dfy`, `TemplateText.dfy` | the template renderer; what templates mean and when it gives that; the text that slots and blocks render to |
| `RateLimiter.dfy` | the fixed-window limiter per address slot |
| `WebSocket.dfy`, `Base64.dfy` | the codecs |
| `Wrappers.dfy`, `Lists.dfy`, `Spans.dfy`, `CString.dfy` | what several of them share |

`dafny verify dfyconfig.toml` checks the whole project.

How to read the model:

- A critical section is one atomic step. A thread in `pthread_cond_wait` is asleep until a signal or a
  spurious wake-up makes it woken, and a woken thread competes for the lock with every other thread.
- Clocks, random session strings, hash functions and the addresses `malloc` returns are parameters; the
  results hold for all of them.
- In the memory pool, the hash map, the thread pool and the connection pool, pointers are indices or
  addresses into a map or sequence that the methods update; the ghost list or tree the pointers stand for
  is tied to them by `Valid()`. The session table's chains and the block pool's list, which is never
  relinked, are sequences.
- In the parser, `Done` is a state of its own; the C code writes it as the number 1.

Where the code does not do what its users would expect, the model follows the code, and the exact
condition is proved:

- A pool that outgrows its first node can lose a slice: the refinement holds while the outstanding slices
  fit one node, and from every full node on it fails (`TwoNodesLoseASlice`, `NeverReturned`).
- A POST request with an empty body never reaches Done; `DoneIff` says exactly which requests do.
- A second filled list block in a template repeats the first one's text (`RendersMeaningIff`,
  `TwoBlocksEcho`), and a slot or block text of 64 characters or more can be read with stale characters
  behind it; `ReadsIff` says exactly on which templates, `ShorterSlotMisread` gives the failing family.
- The blocking connection call and the block pool's allocation can return NULL: they are safe under every
  schedule exactly when something is free at the call (`BlockingGetSafeIff`, `AllocSafeIff`).
- A double free breaks the block pool's count for good (`FreeKeepsCountIff`, `DoubleFreeForGood`).
- A frame built from more than 125 bytes does not parse back (`ParseBuilt`).
- The limiter counts offences but never bans: the assignment meant to ban an address stores 0
  (`NeverBanned`). Only the Windows branch of `ip_check_valid` has a body, so that is the one modelled.

## Model

| member | source | states |
|---|---|---|
| `Slices.TakeRefines` | Src/elr_mpl/elr_mpl.c:451-510 | on a pool whose slices all come from one node, the pointer code of an allocation is `Arena.Take`: the slice free longest, or a newly carved one at the next address, with links, counters and tags as the arena says |
| `Slices.FreeRefines` | Src/elr_mpl/elr_mpl.c:265-302 | freeing is `Arena.Give`: the slice goes to the tail of the doubly linked FIFO, its tag changes, `using` plus free stays the number carved, and the node is not released |
| `Slices.TagsGrow` | Src/elr_mpl/elr_mpl.c:275-276 | over any legal history of takes and frees no tag ever decreases and every state is valid (no slice free twice, even tag exactly when in use) |
| `Slices.StaleHandleNeverRevives` | Src/elr_mpl/elr_mpl.c:215-233 | once a slice's tag differs from the one a handle was issued with, no later history of any length makes them equal again |
| `Slices.NodeGeometry` | Src/elr_mpl/elr_mpl.c:175-184 | for every object size, the largest included: a node holds 1 to 64 slices, each with room for header and object, each inside `node_size` behind the node's header, and no two overlap |
| `Slices.SliceSizes` | Src/elr_mpl/elr_mpl.c:175-184 | in figures, for every object size: a slice is 32 bytes and the object rounded up to 4; one slice to a node from 32768 bytes on, and below that the count n with (64 - n) * 32768 <= 63 * size < (65 - n) * 32768; a node is its slices and 64 bytes |
| `Slices.OldestFirst` | Src/elr_mpl/elr_mpl.c:451-510 | over any legal history of takes and frees slices are handed out again in the order in which they were given back |
| `LostSlices.TwoNodesLoseASlice` | Src/elr_mpl/elr_mpl.c:277-297 | the bound of one node is exact for every capacity: from every full one-node pool, one allocation more, freeing slice 0 and the new slice, and taking and freeing the new slice again leaves it free by its tag and counter but linked to itself, the free list holding only slice 0 |
| `LostSlices.NeverReturned` | Src/elr_mpl/elr_mpl.c:476-510 | after that, no later legal history over any number of nodes returns the slice: never with one slice per node, and otherwise not before its node has been released |
| `LostSlices.StaysLost` | Src/elr_mpl/elr_mpl.c:265-302 | every allocation and free, in any number of nodes, keeps a slice that is cut off from the free list cut off while its node stands |
| `LostSlices.ComesBackReleased` | Src/elr_mpl/elr_mpl.c:409-449 | with more slices per node three further calls release the second node and make the next allocation return the slice out of it |
| `LostSlices.RemoveKeepsList` | Src/elr_mpl/elr_mpl.c:409-429 | when the free slices of an unused node stand together in the free list, and are not all of it, releasing the node takes exactly them out and leaves the others linked in both directions |
| `LostSlices.DropKeepsNodes` | Src/elr_mpl/elr_mpl.c:431-445 | releasing a node, wherever it stands, takes exactly it out of the doubly linked list of nodes |
| `NodeRelease.ReleasedIff` | Src/elr_mpl/elr_mpl.c:265-302 | in any store of any number of nodes, freeing a slice releases its node if and only if the node's counter says it was the last one in use, and the node's free slices have one of another node beside them; no other node is released |
| `NodeRelease.InUseStands` | Src/elr_mpl/elr_mpl.c:409-449 | over any history in any number of nodes whose takes find free slices in the free list: a slice in use that is not freed keeps its tag and its node, is not handed out again, and its node is not released |
| `NodeRelease.FreeAccounts` | Src/elr_mpl/elr_mpl.c:265-302 | every free keeps each node's counter equal to its slices in use, also after a slice was lost |
| `NodeRelease.TakeAccounts` | Src/elr_mpl/elr_mpl.c:476-510 | so does every allocation that reuses a free slice or carves one |
| `NodeRelease.OneNodeAccounts` | Src/elr_mpl/elr_mpl.c:476-510 | a pool within its first node is such a store |
| `Slices.SlicePool.SliceFromPool` | Src/elr_mpl/elr_mpl.c:476-510 | the in-place update equals the specification for any number of nodes, and takes the arena's next slice while one node suffices |
| `Slices.SlicePool.Free` | Src/elr_mpl/elr_mpl.c:265-302 | the in-place update equals the specification for any number of nodes, and gives the slice back to the arena while there is one node |
| `PoolTree.Allocator.Destroy` | Src/elr_mpl/elr_mpl.c:307-351 | for every tree shape: exactly the handles into the destroyed subtree become unavailable and every other handle keeps its availability; the tree becomes the old one without the subtree, links, node lists, tags and slots in use agreeing with it; the caller's handle is cleared |
| `PoolTree.Allocator.InterDestroy` | Src/elr_mpl/elr_mpl.c:513-570 | the recursive destroy terminates, frees the nodes and slots of exactly the pools of the subtree, children first, and leaves every other pool's record untouched |
| `PoolTree.Allocator.DestroyChildren` | Src/elr_mpl/elr_mpl.c:525-535 | the loop over the children destroys exactly the subtrees below the pool, leaving it without children |
| `PoolTree.Allocator.FreeNodes` | Src/elr_mpl/elr_mpl.c:537-560 | the loop frees every node the pool owns, each once, and no other |
| `PoolTree.Allocator.Create` | Src/elr_mpl/elr_mpl.c:146-208 | the new pool is the first child of its parent, in a slot no live pool has; slots in use keep their tags; its handle is available; the whole invariant is kept |
| `PoolTree.Allocator.AddNode` | Src/elr_mpl/elr_mpl.c:379-406 | a new node becomes the first of its pool's doubly linked list and of no other, and the one to carve from; the whole invariant is kept |
| `PoolTree.Allocator.constructor` | Src/elr_mpl/elr_mpl.c:104-140 | initially only the root pool, satisfying the invariant |
| `PoolTree.Allocator.Replay` | Src/elr_mpl/elr_mpl.c:146-233 | over any sequence of creates, destroys and new nodes, on any state: the invariant holds throughout, each call whose demands are met does to the tree what `CallMade` says and any other changes nothing, a handle that is unavailable at some point is unavailable at every later point, whatever its slot is reused for, and no handle is issued twice |
| `PoolTree.Allocator.Perform` | Src/elr_mpl/elr_mpl.c:146-233 | one call: a new pool stands under the parent that was named, in front of its other children, with a handle that is available and was never issued before; a destroy takes exactly the subtree and the handles into it; tags only grow, and no other call makes any handle unavailable or moves any pool |
| `PoolTree.ChildEndsWithParent` | Src/elr_mpl/elr_mpl.c:307-351 | in every run: a pool under another one, at any depth and whatever is created, destroyed or grown in between, ends no later than the other; from the moment the other is destroyed its handle is unavailable |
| `PoolTree.CreatedChildEnds` | Src/elr_mpl/elr_mpl.c:146-208 | in particular the pool that was created under the destroyed one's handle |
| `PoolTree.StaysUnder` | Src/elr_mpl/elr_mpl.c:307-351 | as long as a handle lasts, no call moves its pool out from under any of its ancestors |
| `PoolTree.NewHandle` | Src/elr_mpl/elr_mpl.c:159-205 | the tag of a reused slot differs from every tag it had before |
| `PoolTree.DestroyWF` | Src/elr_mpl/elr_mpl.c:307-351 | cutting a pool out of its siblings and destroying its subtree keeps every survivor's child list in both directions, its nodes and its tag, and leaks no slot or node |
| `PoolTree.GraftWF` | Src/elr_mpl/elr_mpl.c:195-199 | linking a pool in front of its siblings keeps the links, tags and node lists of every pool |
| `PoolTree.GoneHandles` | Src/elr_mpl/elr_mpl.c:215-233 | what freeing the slots of a set of pools does to every handle in the program |
| `PoolTree.WholeSubtree` | Src/elr_mpl/elr_mpl.c:525-535 | the subtrees of the children and the pool itself are its whole subtree, without overlap |
| `ThreadPool.TaskList.Add` | Src/utility/dm_thread_pool.c:183-193 | walking the `next` pointers and linking behind the tail appends to the list |
| `ThreadPool.TaskList.Take` | Src/utility/dm_thread_pool.c:97-99 | taking the head off leaves the rest, still correctly linked |
| `ThreadPool.TaskList.Discard` | Src/utility/dm_thread_pool.c:225-230 | the last loop of destroy frees every task left exactly once, in order |
| `ThreadPool.LinksHold` | Src/utility/dm_thread_pool.c:97-99 | in every interleaving the `next` pointers spell the queue; no step is stopped by what the list code demands |
| `ThreadPool.RunInv` | Src/utility/dm_thread_pool.c:80-242 | order, conservation, no lost wake-up and clean shutdown hold in every state of every interleaving, spurious wake-ups included |
| `ThreadPool.StepNoLostWakeup` | Src/utility/dm_thread_pool.c:85-95 | every step keeps: with a worker asleep, queued tasks are at most the woken workers |
| `ThreadPool.StepConserved` | Src/utility/dm_thread_pool.c:97-109 | every step keeps: what was dispatched is running or finished, once |
| `ThreadPool.StepCleanShutdown` | Src/utility/dm_thread_pool.c:211-223 | every step keeps: after shutdown nobody sleeps, workers exit only then, and nobody is left once destroy has returned |
| `ThreadPool.ExactlyOnePlace` | Src/utility/dm_thread_pool.c:97-109 | each submitted task is in exactly one of queued, running, finished and discarded, with multiplicity one, and no other task is anywhere |
| `ThreadPool.NotTwice` | Src/utility/dm_thread_pool.c:97-109 | no two workers run the same task |
| `ThreadPool.DispatchedIsPrefix` | Src/utility/dm_thread_pool.c:183-196 | the dispatched sequence is always a prefix of the submitted sequence |
| `ThreadPool.NobodySleepsOnWork` | Src/utility/dm_thread_pool.c:85-95 | in every reachable state a sleeping worker means no shutdown and a woken worker able to move for every queued task |
| `ThreadPool.LockTakes` | Src/utility/dm_thread_pool.c:97-107 | in every reachable state before shutdown with tasks queued, a worker that gets the lock runs the first task not yet dispatched, and the queue is one shorter |
| `ThreadPool.WorkIsBounded` | Src/utility/dm_thread_pool.c:85-109 | left to themselves before shutdown the workers take exactly as many steps as a measure on queue and workers falls, so the queue is worked off in a bounded number of steps in whatever order they get the lock |
| `ThreadPool.StillMeansDone` | Src/utility/dm_thread_pool.c:85-109 | when no worker can move any more, before shutdown, the queue is empty and every task ever submitted has been run to its end |
| `ThreadPool.RunRecorded` | Src/utility/dm_thread_pool.c:171-242 | the state counts its run: tasks submitted and finished, whether shutdown has begun and whether destroy has returned |
| `ThreadPool.AfterDestroy` | Src/utility/dm_thread_pool.c:211-242 | once destroy returns every submitted task was finished or discarded, never both, the queue is empty and all workers have exited, also if nothing was ever submitted |
| `ThreadPool.ShutdownEnds` | Src/utility/dm_thread_pool.c:218-223 | after shutdown the workers take a bounded number of further steps, whatever is submitted meanwhile |
| `ThreadPool.ShutdownMoves` | Src/utility/dm_thread_pool.c:218-223 | after shutdown, until all have exited, some worker can move |
| `ConnectionPool.FreeList.Push` | Src/cpool.c:70-85 | appends to the doubly linked list, `prev` undoing `next`, and `free_connections` stays its length |
| `ConnectionPool.FreeList.Pop` | Src/cpool.c:119-132 | takes the head off, or returns NULL from the empty list, keeping links and counter |
| `ConnectionPool.FreeList.Release` | Src/cpool.c:164-169 | clears the connection's stale links and appends it |
| `ConnectionPool.StepNoLostWakeup` | Src/cpool.c:146-175 | every step keeps: while a waiter sleeps, free connections are at most the woken waiters |
| `ConnectionPool.StepCounters` | Src/cpool.c:146-175 | every step keeps `free_connections` equal to the list length and `is_idle_block` equal to the number of waiters |
| `ConnectionPool.StepCopies` | Src/cpool.c:136-175 | every step moves connections between list and threads without losing or copying one |
| `ConnectionPool.GetHandsOut` | Src/cpool.c:136-160 | with a free connection both calls and a woken waiter hand out the first one; without any the caller gets nothing and only the blocking call goes to sleep |
| `ConnectionPool.ReleaseGivesBack` | Src/cpool.c:164-175 | a released connection leaves its holder and goes to the end of the list, and one sleeping waiter, if there is any, is woken |
| `ConnectionPool.FirstReleasedFirst` | Src/cpool.c:119-175 | over every run connections are handed out in the order in which they became free: those handed out followed by those still free are those free at first followed by those released |
| `ConnectionPool.Reachable` | Src/cpool.c:136-175 | the three facts in every reachable state, for any list of distinct connections, any number of threads and any interleaving with spurious wake-ups and barging |
| `ConnectionPool.OneOwner` | Src/cpool.c:136-175 | a connection that any thread holds is held once, by no other thread, and is not in the list |
| `ConnectionPool.SleepersMeanEmpty` | Src/cpool.c:146-160 | with nobody on the way back from the wait, a sleeper means that no connection is free |
| `ConnectionPool.LinksHoldFromStart` | Src/cpool.c:70-85 | in every interleaving, from any pool, the `prev` and `next` links spell the list of free connections and `free_connections` is its length; no release finds its connection already in the list |
| `ConnectionPool.StepLinked` | Src/cpool.c:119-175 | every step keeps that |
| `ConnectionPool.BlockingGetSafeIff` | Src/cpool.c:146-160 | the blocking call hands out a connection under every schedule if and only if one is free at the call |
| `ConnectionPool.BlockingGetAtOnce` | Src/cpool.c:148-159 | with a free connection it returns the first one at once, under every schedule |
| `ConnectionPool.BlockingGetCanFail` | Src/cpool.c:146-175 | from the initial pool, of any size, with three threads or more, a run without spurious wake-ups ends with a signalled waiter returning NULL because another thread took the connection first |
| `BlockPool.Pool.constructor` | Src/mpool.c:31-53 | the list of blocks, last address first, all unused, with `count` their number |
| `BlockPool.CarvedDisjoint` | Src/mpool.c:42-52 | for all block and total sizes every block lies inside the allocation and no two overlap |
| `BlockPool.Pool.Take` | Src/mpool.c:80-97 | hands out the first unused block, or nothing when there is none |
| `BlockPool.Pool.Give` | Src/mpool.c:105-120 | marks the block unused; an address that is no block changes nothing |
| `BlockPool.StepInv` | Src/mpool.c:70-124 | every step of every interleaving keeps ownership, the count and the wake-up condition |
| `BlockPool.AllocHandsOut` | Src/mpool.c:74-97 | an allocation and a woken allocator alike mark the first unused block and hand just that one out; with the count at zero nothing is handed out, a call sleeps and a woken allocator returns |
| `BlockPool.FreeGivesBack` | Src/mpool.c:101-124 | freeing a block the thread holds makes that block unused, takes it from its holder, raises the count by one, changes no other block or holder, and wakes one sleeping allocator if there is any |
| `BlockPool.FreeThenAlloc` | Src/mpool.c:70-124 | with no other block left, the next allocation by any thread hands out the block just freed |
| `BlockPool.Reachable` | Src/mpool.c:70-124 | in every reachable state, also of a pool without blocks: the count is the number of unused nodes and not negative, a sleeper means unused blocks are at most the woken allocators, and every used block has exactly one owner |
| `BlockPool.AllocSafeIff` | Src/mpool.c:74-97 | pool_alloc hands out a block under every schedule if and only if the count is not zero at the call |
| `BlockPool.FreeKeepsCountIff` | Src/mpool.c:119-120 | freeing keeps the count right if and only if the block was in use |
| `BlockPool.DoubleFreeForGood` | Src/mpool.c:101-124 | after a free of a block that is not in use, in every later state of every run the count is one more than the unused blocks, and an allocation that finds no block left returns NULL without waiting |
| `TimerHeap.MinHeap.Push` | Src/utility/dm_timer.c:30-39 | keeps heap order and adds exactly the event |
| `TimerHeap.MinHeap.SiftUp` | Src/utility/dm_timer.c:31-38 | moving the hole up from the end restores heap order and keeps the multiset |
| `TimerHeap.MinHeap.SiftDown` | Src/utility/dm_timer.c:46-55 | moving the hole down from the root restores heap order and keeps the multiset |
| `TimerHeap.MinHeap.Pop` | Src/utility/dm_timer.c:41-56 | removes exactly the root, which is an earliest event of all stored, and keeps heap order |
| `TimerHeap.MinHeap.Play` | Src/utility/dm_timer.c:30-56 | over any sequence of pushes and pops, however long, whose every push finds a free place in the array (`FitsIn`): the stored multiset is exactly what was pushed less what was popped, and every pop returns an earliest of the events stored at that point |
| `TimerHeap.MinHeap.HandleEvents` | Src/utility/dm_timer.c:58-66 | fires exactly the events due at the sampled time, each once, in non-decreasing order, leaves exactly the later ones in a valid heap, and terminates |
| `TimerHeap.MinHeap.AddTimer` | Src/utility/dm_timer.c:68-73 | adds the event with its timeout counted from the time read |
| `TimerHeap.RootIsMin` | Src/utility/dm_timer.c:41-43 | the root of an ordered heap is the earliest of all events |
| `TimerHeap.SiftUpStep` | Src/utility/dm_timer.c:33-36 | one move of the hole up keeps the order everywhere but at the hole |
| `TimerHeap.SiftDownStep` | Src/utility/dm_timer.c:49-53 | one move of the hole down keeps the order everywhere but at the hole |
| `SessionStore.Store.Get` | Src/session.c:275-311 | returns the data of the last call that wrote this key of this session, if it has not expired, for every history of calls and every hash function |
| `SessionStore.Store.Create` | Src/session.c:221-257 | the table answers for the history extended by this call |
| `SessionStore.Store.Add` | Src/session.c:334-369 | the same, and the result is 1 exactly when the session was created before, else -2 |
| `SessionStore.Store.Update` | Src/session.c:389-425 | the same, and the result is 1 exactly when the key was written before, expired or not |
| `SessionStore.OthersDoNotMatter` | Src/session.c:275-311 | calls about another session string or key never change the answer |
| `SessionStore.WriteIsSeen` | Src/session.c:221-425 | a call that takes effect is seen for 300 seconds and no longer: creating always, adding when the session was created before, updating when the key was brought in before; any other call changes nothing |
| `SessionStore.WrittenIff` | Src/session.c:389-425 | a key has a value exactly when some call brought it in: overwriting alone never does |
| `SessionStore.Search` | Src/session.c:288-310 | the nested loops stop at the first match of the newest-first concatenation of the session's lists, or there is none |
| `SessionStore.OneBucketChanges` | Src/session.c:389-425 | a bucket that tells the extended history of its own session strings may replace the old one: the strings of all other buckets are told as before |
| `SessionStore.TellsUpdate` | Src/session.c:407-415 | overwriting the entry found changes the answer for this key and no other |
| `HashMap.Map.Insert` | Src/utility/dm_map.c:46-54 | linking the node at the head of its chain pushes on the key's stack of bindings; the stacks of all other keys are unchanged, under any hash function |
| `HashMap.Map.Get` | Src/utility/dm_map.c:57-69 | returns the top of the key's stack, NULL when it is empty |
| `HashMap.Map.Remove` | Src/utility/dm_map.c:72-94 | pops one binding and uncovers the one before, -1 when there is none; other keys unaffected; the `next` links of every chain keep spelling its bindings |
| `HashMap.UnlinkLinked` | Src/utility/dm_map.c:79-84 | unlinking a node, at the head or behind another, keeps the rest of its chain linked in order |
| `HashMap.ChainsApart` | Src/utility/dm_map.c:46-51 | chains of different buckets share no node |
| `HashMap.Walk` | Src/utility/dm_map.c:60-66 | the walk along the `next` links stops at the first node of the key, with the node before it |
| `HashMap.PutPushes` | Src/utility/dm_map.c:46-54 | the same for the functional form the parser uses |
| `HashMap.LookupLast` | Src/utility/dm_map.c:57-69 | after inserting pairs one by one a lookup finds the last pair with the key |
| `HashMap.LastAt` | Src/utility/dm_map.c:57-69 | the last value of a key is that of the pair with the key that no later pair with it follows |
| `HashMap.Unlinked` | Src/utility/dm_map.c:78-91 | unlinking the first node of a key pops its values and leaves those of other keys |
| `RequestParser.Parser.Feed` | Src/request.c:266-452 | one turn of the loop, in place, is the step function; a multipart body and a copy from outside the text end the run in states of their own |
| `RequestParser.Parser.Parse` | Src/request.c:238-459 | the loop, in place, is the run of the step function up to NUL, end of text or Done |
| `RequestParser.AtoiDecimal` | Src/request.c:421-421 | `atoi` reads back a printed length |
| `RequestPrinter.RoundTrip` | Src/request.c:266-459 | for every well-formed request whose POST body is not multipart, parsing its printed text ends in Done with the original verb, path, protocol, version and body, and every query and header lookup returns the last occurrence in the request |
| `RequestPrinter.DoneIff` | Src/request.c:407-459 | the parser finishes a well-formed request if and only if it is no POST, or its body is not empty, its Content-Length does not reach outside the text and it is not multipart |
| `RequestPrinter.ParsePrint` | Src/request.c:266-459 | for every well-formed request, whatever its headers and body: the parts come back, and the last Content-Length and Content-Type decide the state and the body it ends with |
| `RequestOutcomes.PostBody` | Src/request.c:417-445 | for every well-formed POST and every Content-Length: a number up to 1048576 that the text meets takes exactly that many characters as the body, whatever follows in the buffer; a larger one leaves the body unset; a negative one or one beyond the text makes the copy leave the text; a multipart type hands the body on |
| `RequestOutcomes.PostPrinted` | Src/request.c:417-445 | in particular a printed length n ends in Done with the first n characters as the body |
| `RequestOutcomes.PostNoLength` | Src/request.c:419-445 | without a Content-Length the body stays unset |
| `RequestOutcomes.AtoiNextDigit` | Src/request.c:421-421 | one more digit multiplies by ten and adds it |
| `RequestOutcomes.AtoiAround` | Src/request.c:421-421 | blanks and a plus sign before the digits and anything after them do not count, a minus sign negates |
| `RequestOutcomes.BadVerb` | Src/request.c:269-276 | a text that starts with neither G nor P is invalid and fills in nothing |
| `RequestOutcomes.BadPath` | Src/request.c:287-294 | a target that does not start with a slash is invalid, with only the verb read |
| `RequestOutcomes.BadQuery` | Src/request.c:311-327 | a query ending in a key without '=' is invalid, after any number of whole pairs |
| `RequestOutcomes.LooseHeader` | Src/request.c:371-405 | characters before a header name's first capital letter are dropped, and any character may stand for the blank after the colon |
| `RequestOutcomes.Sample` | Src/request.c:266-459 | one request spelled out as text, read to the end with its parts and both tables |
| `RequestPrinter.ParsePairs` | Src/request.c:311-348 | the printed query list is inserted pair by pair, in order |
| `RequestPrinter.ParseHeaders` | Src/request.c:371-405 | the printed headers are inserted one by one, in order |
| `RequestPrinter.Scan` | Src/request.c:446-452 | a field without terminators is collected in the scratch buffer as it stands |
| `Template.ParseContext` | Src/template.c:88-215 | the loop is the run of the step function; None stands for following a null pointer |
| `Template.ParseDec` | Src/template.c:71-85 | appends the text around the first `{{item}}` once per item, in order; what that text is, `TemplateText.ItemStands` says |
| `Template.FillBlock` | Src/template.c:158-180 | the loop over the entries, lists and callbacks, with the accumulated `parsed_str` and the wiped block string |
| `Template.FillSlot` | Src/template.c:142-149 | appends the values of all matching scalar entries in order |
| `TemplateText.ExpandLaw` | Src/template.c:71-85 | behind any text p without `{{item}}` and before any text q: the empty list gives nothing, and one more item x appends p, x and q |
| `TemplateText.ItemStands` | Src/template.c:71-85 | block i of the output stands behind the lengths of the blocks before it and is p, item i and q; the output's length is the sum of all |
| `TemplateText.RendersItems` | Src/template.c:158-180 | the same of the whole renderer, for a block of any name and inner text, wherever its list stands among other entries |
| `TemplateText.RendersCallbacks` | Src/template.c:158-180 | a callback gets no accumulated text and the inner text of the block; a second one of the same name gets what the first one made and an empty block, and both outputs are shown |
| `TemplateText.RendersSlot` | Src/template.c:142-149 | every scalar entry of the slot's name adds its value at the end, and no other entry adds anything |
| `TemplateText.RendersText` | Src/template.c:112-211 | text without a bracket is copied, and a slot or block that does not end shows nothing |
| `TemplateText.FirstPlace` | Src/template.c:74-74 | behind a text that does not contain it, the item is found just there |
| `Template.RendersPieces` | Src/template.c:112-211 | for every template, the one-pass machine renders the pieces found by searching for delimiters, with the exact contents of the scratch buffer |
| `TemplateMeaning.RendersMeaningIff` | Src/template.c:112-211 | for every template whose texts are read as collected (`Undisturbed`): the code fails exactly where the meaning is undefined; it gives the compositional meaning when no filled block follows one that left visible text, callbacks included; and without callbacks if and only if that is so |
| `TemplateMeaning.RendersWritten` | Src/template.c:112-211 | for text, slots with names under 64 characters and at most one list block of any length, written out as a template, the output is the compositional meaning |
| `TemplateMeaning.PiecesOfPrint` | Src/template.c:114-187 | reading a template written from well-formed pieces gives back the pieces |
| `TemplateMeaning.FailsIff` | Src/template.c:158-180 | for every template read as collected, without callbacks: the code follows a null pointer if and only if some block has no `@`, or is filled by a list and has no `{{item}}`, or has two lists of its name |
| `TemplateMeaning.EchoIff` | Src/template.c:172-179 | with lists only, rendering with a `parsed_str` that is never emptied equals the meaning if and only if no filled block repeats an earlier one |
| `TemplateMeaning.NoEchoMeaning` | Src/template.c:163-180 | with callbacks too, rendering without such a repetition equals the meaning |
| `TemplateMeaning.ReadsIff` | Src/template.c:194-199 | for every template: all texts looked up are the texts collected if and only if every text of 64 characters or more that is shorter than an earlier one has just the length at which the last longer one, a block, had its `@` |
| `TemplateMeaning.ReadRendered` | Src/template.c:194-199 | when all texts are read as collected the scratch buffer does not show in the output |
| `TemplateMeaning.ShorterSlotMisread` | Src/template.c:194-199 | on every template of two slots of 64 characters or more, the second shorter, the second is misread and its value is missing from the output |
| `TemplateMeaning.TwoBlocksEcho` | Src/template.c:105-105 | a concrete template text with two blocks whose output is not its meaning |
| `TemplateMeaning.TwiceEchoes` | Src/template.c:172-179 | for every list block written twice the output shows its text three times, its meaning twice |
| `RateLimiter.IpLimit.Call` | Src/mdb/mdb_operate.c:240-268 | the critical section in place is `Check` |
| `RateLimiter.BurstIsRejectedInRun` | Src/mdb/mdb_operate.c:247-265 | after any past, any 2001 consecutive calls on a slot spanning less than 60 seconds include a rejection |
| `RateLimiter.BurstBoundIsTight` | Src/mdb/mdb_operate.c:247-265 | the bound is exact: from every slot, 2000 calls less those already counted can pass within two seconds |
| `RateLimiter.RejectionsApart` | Src/mdb/mdb_operate.c:252-262 | two rejections on a slot are at least 1000 calls apart |
| `RateLimiter.RejectionIsJustified` | Src/mdb/mdb_operate.c:252-262 | a rejected call is at least the 1001st, and the call 1000 before it was less than 60 seconds earlier |
| `RateLimiter.EveryThousandth` | Src/mdb/mdb_operate.c:247-265 | of calls that all come at one moment exactly every thousandth after the first is rejected |
| `RateLimiter.RejectionOpensWindow` | Src/mdb/mdb_operate.c:252-262 | a rejection opens a window of its own and counts in it: 59 seconds later 999 calls pass and the next is rejected |
| `RateLimiter.NeverBanned` | Src/mdb/mdb_operate.c:240-260 | the ban result 3 is never returned, however many calls were rejected |
| `WebSocket.ParseFrame` | Src/ws.c:98-151 | the method with its unmasking loop is `Parse`, results -1, -100 and 0 included |
| `WebSocket.ParseEncode` | Src/ws.c:98-151 | any masked or unmasked frame with a 7-bit or 16-bit length, followed by anything, parses to its payload, except the two-byte close frame, which closes |
| `WebSocket.XorBit` | Src/ws.c:140-140 | a bit of the result is set exactly when the two bits differ |
| `WebSocket.MaskedBit` | Src/ws.c:139-141 | bit j of byte i of a masked text is set exactly when bit j of data[i] and of key[i % 4] differ |
| `WebSocket.ParseWire` | Src/ws.c:98-151 | from the literal header bytes of the format: the data comes out as it is, or unmasked bit by bit, unless it is the two-byte frame with opcode 8; whatever follows |
| `WebSocket.PartRejected` | Src/ws.c:100-126 | no strict part of those bytes is accepted |
| `WebSocket.Hello` | Src/ws.c:98-151 | the masked frame of section 5.7 of RFC 6455 gives the bytes of Hello |
| `WebSocket.PrefixRejected` | Src/ws.c:100-126 | every strict prefix of a frame is rejected |
| `WebSocket.AcceptedIff` | Src/ws.c:98-151 | data is accepted if and only if it starts with the encoding of a frame, and the result is what that frame says |
| `WebSocket.Unambiguous` | Src/ws.c:98-151 | no data starts with the encodings of two different frames |
| `WebSocket.AppendKeeps` | Src/ws.c:98-151 | appending bytes never changes an accepted result |
| `WebSocket.BuildFrame` | Src/ws.c:80-92 | the loop builds the two header bytes and the data |
| `WebSocket.ParseBuilt` | Src/ws.c:80-92 | a built frame parses back to its data if and only if the data has at most 125 bytes |
| `WebSocket.BuiltReceived` | Src/ws.c:80-92 | what a receiver makes of data of every length: the prefix that the 7-bit length leaves; rejection for a remainder of 127 modulo 128; and for 126 what the first two data bytes, taken for a length, select |
| `WebSocket.BuiltTruncates` | Src/ws.c:86-86 | for a remainder up to 125 the frame is that of the prefix, followed by the rest of the data |
| `Base64.Encode` | Src/utility/base64.c:21-61 | the buffer holds the encoding of the C string and a terminator, whatever lies beyond the input's terminator; which letters those are, `Base64.EncodedSpells` says |
| `Base64.Decode` | Src/utility/base64.c:63-107 | the buffer holds the decoded groups, and a terminator where no group overwrites it; what they are, `Base64.DigitInTable` and `Base64.UnpackNumber` say |
| `Base64.LetterInTable` | Src/utility/base64.c:28-28 | the letter of a digit is the character at that place of the literal table of section 4 of RFC 4648 |
| `Base64.DigitInTable` | Src/utility/base64.c:66-78 | the character at a place of that table is read as the number of the place |
| `Base64.EncodedSpells` | Src/utility/base64.c:41-47 | the characters of every whole group are those of the table at the four 6-bit parts of its 24 bits |
| `Base64.EncodedEnds` | Src/utility/base64.c:49-58 | the same for a last group of one or two bytes, zero-filled, with the character '=' for each part without a given bit |
| `Base64.UnpackNumber` | Src/utility/base64.c:100-102 | four digits are put together to the 24 bits of three bytes |
| `Base64.Man` | Src/utility/base64.c:43-46 | the bytes of Man are encoded as TWFu |
| `Base64.RoundTrip` | Src/utility/base64.c:63-107 | decoding the encoding of any NUL-free string yields that string, its terminator and the right length |
| `Base64.EncodedShape` | Src/utility/base64.c:31-58 | length, alphabet and padding of every encoding |
| `Base64.GroupNumber` | Src/utility/base64.c:43-46 | the four digits of a group are its 24 bits cut into four |
| `Base64.EncodedInjective` | Src/utility/base64.c:21-61 | different strings have different encodings |
| `Base64.EncodedDecodable` | Src/utility/base64.c:84-95 | every encoding satisfies what the decoder demands, and its computed length is the string's |

## Left out

- Slices.TakeRefines: for pools of one node only; beyond that the statement is false, as `LostSlices.TwoNodesLoseASlice` shows.
- Slices.FreeRefines: for pools of one node only, for the same reason.
- NodeRelease.InUseStands: for histories whose takes find a free slice at the head of the free list (`HeadFree`, always so within one node); whether the list can come to start with a slice in use after a slice was lost is left open.
- PoolTree.Allocator.Create: the root pool's slots come from one node (`HasRoom`), the range in which the slice pool is proved to be an arena.
- PoolTree.Allocator.AddNode: `newly_alloc_node` is set as in the code; that carving clears it when the node is used up is part of the slice pool's model, not of the tree's.
- Template.ParseContext: a callback is a function of `parsed_str` and the block string; the fixed sizes of the result, `temp` and `parsed_str` buffers are not modelled.
- Template.ParseDec: the array of items has at most 20 elements and the pointer after the last one is taken to be null.
- TemplateMeaning.EchoIff: for entries without callbacks, whose output can depend on the accumulated text in any way; with callbacks the condition is proved sufficient (`TemplateMeaning.NoEchoMeaning`).
- RequestParser.Parser.Parse: what follows once a body is handed on as multipart, or once a Content-Length has made the code copy memory outside the text, is not modelled: the run ends there, in the state MultiPart or Overrun. The 512-byte scratch buffer and the fields of the request (5 bytes for the method and the protocol, 4 for the version, 512 for the path), which a longer verb such as PATCH overruns, are unbounded.
- RequestParser.Parser.Feed: the same two states end the model's run.
- Base64.Decode: the output buffer is modelled in whole groups; the C code allocates only the computed length and a terminator, which is up to one byte less than is written for an encoding and can be more for a malformed text.
- WebSocket.BuildFrame: the 1024-byte frame buffer is unbounded.
- TimerHeap.MinHeap.HandleEvents: the callbacks are taken not to touch the heap.
- SessionStore.Store.Create: the chains are sequences; their `next` pointers are not modelled.
- RateLimiter.IpLimit.Call: one slot at a time; which addresses share a slot is not modelled.
- ThreadPool.LinksHold: a task's address is its submission number; reuse of addresses by `malloc` is not modelled.
- Multipart bodies (Src/request.c:36-228): no general round trip holds.
- `elr_mpl_finalize`, the threaded build of the allocator and `malloc` failure anywhere.
- Sockets, epoll, IOCP, SSL, process supervision, the mdb client and server, MySQL, JWT and XML configuration: plumbing over other libraries.
- `log.c` and `dm_stack.c`: the guarantees one would want do not hold of them.
- `dm_queue.c`, `dm_list.c`, `dm_string.c`, `utility.c` and the router: they would only add easy members.
- The WebSocket handshake, SHA-1 and the session cookie text.
- Deleting session data and destroying hash maps and pools other than the ones above.
- 32-bit overflow of tags, counters and sizes.
