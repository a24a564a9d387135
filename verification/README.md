# A verified model of the static file server's core

The server answers GET and HEAD requests for static files. Worker threads drive non-blocking connections with
`pselect`, an LRU cache keeps file contents in memory, and a pool of reader threads fills the cache. This project
models that core in Dafny and proves what its parts promise each other.

| files | what they model |
|---|---|
| `CBytes`, `Collections`, `Hash` | C strings, two shared notions, and the djb2 hash that picks a bucket |
| `Association`, `EvictionPlan`, `BorrowedKeys`, `CacheModel`, `CacheRuns`, `Cache`, `CacheThreads` | `src/cache/cache.c`: the chained hash table, reference-counted handles, memory and entry limits, planned LRU eviction |
| `Serving`, `SendResponse`, `Requests` | a GET request on the cache in `src/server/worker.c`, from its lookup to the end of its response |
| `PoolModel`, `PoolInvariant`, `PoolTheorems`, `PoolService`, `ReaderPool` | `src/reader/reader.c`: the reader pool, as a labelled transition system and as a class whose methods are its steps |
| `WorkerModel`, `WorkerInvariant`, `WorkerTheorems`, `WorkerSweep`, `WorkerService`, `WorkerExit`, `Worker` | `src/server/worker.c`: the server worker, in the same two forms, and its sweep over the request list |
| `Strutils`, `DynamicStrings`, `RequestReader` | the bounded search, the growable buffer and incremental reading |
| `HttpText`, `HttpParser`, `HttpRoundTrip`, `HttpFraming` | the in-place request parser, printing and parsing, finding the end of a head |
| `Response`, `ResponseWriter` | printing a response head and writing a response in pieces |

`dafny verify dfyconfig.toml` checks everything.

## How to read it

**Cache.** `CacheManager` holds the chains of the source. A ghost sequence `order` lists the buffers by creation, and
`Valid()` says that chain `h` is exactly the part of `order` whose keys hash to `h`, that the counters and limits agree
with `order`, that each reference count is the number of outstanding handles, and that `order` is the ghost `history` of
all creations, in its order, without the buffers that have been evicted. Every operation is specified on `order`.
Releases by other threads may happen between any two deletions of an eviction, since `ReleaseBuffer` does not take the
manager mutex. They are a parameter, so every contract holds for all of them.

Keys may repeat, as `src/cache/test_cache.c:184-197` requires. A plan then holds keys that may denote a buffer other than
the planned one. `CacheModel` says on values what an eviction and a creation do on every cache, turn by turn, and the
methods are proved to do just that. `ExactEviction` gives the exact condition under which deleting by key removes what was
planned: `Unshadowed`, which holds in particular when all keys differ. `CreateBuffer` is all-or-nothing under that
condition. Without it too the counters, limits and handles stay right, no buffer with a handle that stays out goes, the
survivors keep their order, so that a lookup still finds the oldest creation that is left, and a request that cannot be
met is refused and changes nothing.

**Runs of the cache.** `CacheRuns` is a transition system on values: the buffers in the table, the handles of one request,
those of all other threads, and whether the mutex is held for good. An event is a call with what it met with. `Goes` says
that events lead from one state to another and that those of other threads are what comes of a given list of operations.
The theorems speak of all such runs. `CacheThreads` performs the operations as code, and `Requests.ServeRequest` a whole
request with other threads at work between any two of its calls: its contract lists the calls of the request and says that
all events together are a run that ends in the present state of the cache.

**Reader pool and worker.** Each critical section is one step of a transition system with enough history (callbacks made,
ids accepted, sockets closed) to state what callers observe. Invariants are kept by every step, so they hold in every
reachable state, and the theorems speak of all runs. The classes restate the same critical sections imperatively; their
contracts say which step each method performs, and their `Interleave` methods perform any enabled sequence of steps.
`PoolService` and `WorkerService` say what each step does for a request: who is admitted, what is taken next, and where
every outcome leads; in runs in which nothing goes wrong every file is read and every connection answered.

**HTTP.** Text is bytes. The parser works in place on the receive buffer, writing NULs as `strtok_r` does, and is
specified by `ParseText` on the C string that the memory block held. `HeadText` prints requests as in sections 2.1, 3 and 5 of
RFC 9112. `ReceivedRequestParses` joins reading, framing and parsing.

## Findings

- Cancelling a request that is still queued calls its callback and leaves it queued, because `_CancelFile` takes the
  success code 0 of `_SendCancel` for a failure (`src/reader/reader.c:208-211`, `222-225`). `ExactlyOnce` shows that every
  accepted request is called back exactly once if and only if no cancel found its request queued;
  `QueuedCancelCallsTwice` is the smallest run with two callbacks.
- A worker marks a request as waiting for its file only after `QueueFile` has returned (`src/server/worker.c:602-612`),
  without a lock that the callback takes. If the callback runs in between, the mark overwrites its result.
  `ForwardStep` shows that this is the only step that ever takes a request backwards, `StuckStep` that it is the only way
  for a request to wait for nothing, and `StuckForever` that such a request is never closed and keeps the worker from
  ever leaving on a graceful shutdown. `CallbackOvertakes` is a concrete run. `ShutdownCanEnd` shows that, short of a
  failed `pselect`, nothing else keeps a worker from leaving.
- Two leading empty lines are taken for a complete head, so reading stops too early (`TwoEmptyLines`); `RequestFraming`
  shows that framing is exact if and only if there is at most one.
- `docs/src/states.puml` shows an arrow from WRITE to ERROR when writing fails and one from waiting to ERROR when the
  file cannot be read. The code has neither: `_WriteRequest` ignores write errors, and an unreadable file is answered
  with 403. The model follows the code.
- End of data and would-block share a result code (18 for reading, 20 for writing, `inc/server/errors.h:27-31`). The
  contracts of `ReadRequest` and `WriteRequest` say so, and completion is claimed only where no call would block.
- A request line with a missing word makes the parser read through a null pointer, because the wrong variable is
  compared with `NULL` (`src/server/request.c:179-213`). The model gives such inputs the outcome `NullToken`.
  `NullTokenInRequest` gives the exact condition: the first line that is not empty has no word, or starts with GET or
  HEAD and has fewer than three words. `NullTokenIsReceivable` shows that "GET /" and an empty line is such a request and
  is reported as complete; `NoVersion` gives the whole family.
- When a file cannot be read, `_ReadFileCallback` keeps its write handle and lock (`src/server/worker.c:426-432`).
  `ServeRequest` shows that this handle is left behind, and that the buffer then stays in the table with a reference to
  it, whatever other threads do later.
- A new buffer has no handle until its creator has looked it up (`src/server/worker.c:545-566`). Another worker's creation
  may evict it in between; then `GetWriteBuffer` misses and keeps the manager mutex (`src/cache/cache.c:521-533`).
  `EvictedBeforeHeld` is a concrete run; `LockedForGood` shows that from then on nobody creates or finds a buffer;
  `ServeRequest` shows that, unless the pool refuses its read, a request is in error after its creation in no other way.
  Of the two lookups only this one can miss (`TryLookup`, `HeldIsFound`).
- A request that misses fills the oldest buffer of its path, which need not be the one that it has created: another
  worker may have created one before. `ServeMiss` says which buffer it is, and that it is the request's own if nobody else
  calls.
- On a hit the head announces the length of the file as it is now, and the body is what the last fill brought
  (`src/server/worker.c:517`, `533-541`, `src/server/request.c:256`). `ServeRequest`, with `SendOk` and `AnnouncedLength`,
  shows that a complete response announces the length of its body exactly when the two agree: a file that has grown or shrunk
  in between is answered with a wrong Content-Length until its buffer is evicted. The same holds for a read that brings
  fewer bytes than `stat` said.
- When the reader pool refuses a read, the buffer created for it stays in the table, empty (`src/server/worker.c:602-608`).
  `MissRefused` shows that the path then leads to it, and `StaleHit` that the next request for the file gets a complete
  head with the length of the file and no body.
- An eviction plan points to keys that live inside the buffers it deletes (`src/cache/cache.c:284`). `BorrowedKeysLive`
  gives the exact condition under which no plan gets to an entry whose buffer, and with it the key, has been freed: two
  unreferenced buffers with one key, the older of which is not shadowed by a referenced one, were last used in the order
  of their creation. It holds on unshadowed caches, even with releases by other threads in between
  (`FaithfulTurn`); `OutOfOrderReads` finds the freed key in the other ones.

## Hypotheses

- Cache: `max_entries > 0`; `max_memory + max_buffer_size` fits in 64 bits, so `used + size` does not wrap; allocation
  succeeds; the deletion loop can still read a key whose buffer it has freed, which on unshadowed caches never happens
  (see the findings); `_last_reference_time` is arbitrary on creation, as it is never set there; the sort breaks ties in any
  order; the two scans that build a plan see one state.
- Reader pool: request ids are fresh; `worker_count <= max_requests`, as the slot array has one cell for each allowed
  request (`src/reader/reader.c:90`); allocation succeeds. A slot keeps its stale pointer after the error paths, as in
  the source.
- Worker: a new connection's descriptor is not that of a listed, hence open, one; `pselect` leaves subsets of the sets
  it was given.
- Parser: there is a NUL somewhere in the memory block of the buffer, as `strtok_r` needs (the source does not write
  one). `ParseHttpRequest` covers every block with a NUL, whatever lies behind the received bytes; `ReceivedRequestParses`
  is about a NUL directly behind them.
- Plain `char` is signed and `unsigned long` has 64 bits.

## Model

| member | source | states |
|---|---|---|
| `Hash.Djb2` | src/utils/hash.c:3-12 | word arithmetic at every step of the loop computes the djb2 polynomial of the whole key, reduced once to a word and once to the table |
| `Hash.HashOfNext` | src/utils/hash.c:3-12 | one more byte multiplies the word by 33 and adds the byte as a signed char, modulo 2^64 |
| `Hash.HashToTable` | src/utils/hash.c:3-12 | the hash starts from 5381, and the bucket is the word reduced to the table |
| `Association.DeleteInBuckets` | src/cache/cache.c:199-239 | deleting a key changes the chain of its own hash only, and there it removes the first node with that key |
| `Association.DeleteKeepsOtherLookups` | src/cache/cache.c:199-239 | deleting one key disturbs no other key's lookup, not even in the same chain |
| `Association.RepresentsLookup` | src/cache/cache.c:464-476 | walking the chain of a key's hash finds the oldest buffer created under that key, and misses only when there is none |
| `Association.LookupOldestLeft` | src/cache/cache.c:464-476 | looking a key up among the buffers that are left finds the oldest creation under that key that has not been evicted |
| `Association.ThinnedKeepsFirst` | src/cache/cache.c:299-370 | evicting other buffers, same-key ones included, does not change what a key leads to |
| `Association.RepresentsDelete` | src/cache/cache.c:199-239 | unlinking the first match in one chain keeps table and association in step |
| `Association.ChainsAccount` | src/cache/cache.c:199-239 | entry count and memory over all chains are those of the association |
| `Association.MinusAccounts` | src/cache/cache.c:353-361 | removing a set of buffers lowers memory by exactly the sum of their sizes |
| `EvictionPlan.ExactEviction` | src/cache/cache.c:299-370 | deleting the planned keys removes exactly the planned buffers, for every tie-breaking and every length, if and only if no unreferenced buffer is shadowed by a same-key one |
| `EvictionPlan.PlanIsFaithful` | src/cache/cache.c:258-297 | without shadowing, each planned key denotes its planned buffer when its turn comes |
| `EvictionPlan.YoungestFirstIsPlan` | src/cache/cache.c:248-256 | a plan always exists, with ties broken against creation order |
| `EvictionPlan.ShadowedPlanMisses` | src/cache/cache.c:309-322 | a plan that lists a shadowed buffer before the one that shadows it goes wrong at some length |
| `EvictionPlan.DistinctKeysAreUnshadowed` | src/cache/cache.c:258-297 | distinct keys meet the condition of exact eviction |
| `EvictionPlan.PrefixIsLeastRecentlyUsed` | src/cache/cache.c:248-297 | every prefix of a plan is least recently used: no survivor was used earlier than a victim |
| `EvictionPlan.PlanMemory` | src/cache/cache.c:328-351 | a plan holds all unreferenced memory |
| `Cache.CacheManager.constructor` | src/cache/cache.c:149-179 | an empty cache is valid |
| `Cache.CacheManager.LookupIsOldest` | src/cache/cache.c:464-486 | in every valid state the buffer that a key leads to is the oldest creation under it that has not been evicted, and there is none exactly when all have been |
| `Cache.CacheManager.FindNode` | src/cache/cache.c:464-486 | the walk yields the oldest creation of the key that has not been evicted, and null exactly when there is none |
| `Cache.CacheManager.GetBuffer` | src/cache/cache.c:464-486 | a hit adds one handle to the oldest buffer of the key and touches no other; the mutex is given back |
| `Cache.CacheManager.GetWriteBuffer` | src/cache/cache.c:521-543 | the same, but a miss returns with the manager mutex held |
| `Cache.CacheManager.ReleaseBuffer` | src/cache/cache.c:488-496 | one handle less, one reference less, nothing else changes |
| `Cache.CacheManager.Interference` | src/cache/cache.c:545-552 | releases by other threads take away exactly the handles that they give back, also while the mutex is held |
| `Cache.CacheManager.DeleteBuffer` | src/cache/cache.c:199-239 | the oldest buffer of the key goes unless it is referenced; the three results tell which case it was |
| `Cache.CacheManager.FindNotUsedLruEntries` | src/cache/cache.c:258-297 | the result lists exactly the unreferenced buffers, once each, oldest reference first |
| `Cache.CacheManager.SortByLastReference` | src/cache/cache.c:248-256 | a sorted permutation by last reference time |
| `Cache.CacheManager.DeletePlanned` | src/cache/cache.c:309-322 | whatever other threads give back between two deletions and whether or not keys repeat, the loop leaves what the model's eviction leaves: it stops when the goal is met or the plan has ended, the survivors keep their order; when keys denote their buffers it removes exactly the planned prefix, and when nothing is given back it is the undisturbed run of the plan |
| `CacheModel.FaithfulTurn` | src/cache/cache.c:309-322 | at its turn the buffer that owns a borrowed key is still in the table, and the turn deletes it, when keys denote their buffers |
| `CacheModel.FaithfulEvict` | src/cache/cache.c:309-322 | when keys denote their buffers, releases by others change nothing: exactly the planned prefix goes |
| `CacheModel.EvictFacts` | src/cache/cache.c:299-370 | on every cache, with any releases in between, an eviction keeps the order of what it leaves and every buffer with a handle that stays out, removes no more than its goal, and less only if the plan has ended |
| `CacheModel.UndisturbedEvict` | src/cache/cache.c:309-322 | without releases an eviction is the run of a prefix of the plan, on every cache |
| `CacheModel.CreationIsExact` | src/cache/cache.c:374-438 | on unshadowed caches the answer is the one that the limits and the idle buffers call for, an error changes nothing, and success evicts exactly the needed least recently used buffers |
| `CacheModel.RefusalIsFinal` | src/cache/cache.c:374-398 | on every cache a request that cannot be met is refused and changes nothing |
| `CacheModel.VerdictIsRoom` | src/cache/cache.c:374-398 | the verdict is Ok exactly when the size is allowed and some choice of buffers without a handle leaves room for it in memory and entries; it blames the memory exactly when no choice frees enough of it |
| `CacheModel.NeededIsLeast` | src/cache/cache.c:328-398 | the victims of a success are a list that makes room while no shorter part of it does, and every such list is as long as needed |
| `CacheModel.CreationFacts` | src/cache/cache.c:374-438 | on every cache a creation keeps the order of the survivors and every buffer with a handle that stays out |
| `BorrowedKeys.BorrowedKeysLive` | src/cache/cache.c:280-322 | no turn of any plan reads a key whose buffer an earlier turn has deleted, if and only if same-key unreferenced buffers that deletions can get to were used in the order of their creation |
| `BorrowedKeys.OutOfOrderReads` | src/cache/cache.c:280-322 | a plan that lists the younger of two such buffers first reads a freed key at some turn |
| `Cache.CacheManager.FreeLruBuffersMemory` | src/cache/cache.c:328-370 | on every cache it carries out the shortest prefix of a least-recently-used plan that is large enough, with any releases in between, and succeeds exactly if as many buffers go as that prefix has; fails and changes nothing when the idle memory does not suffice; on unshadowed caches it succeeds exactly when it does, and exactly that prefix goes |
| `Cache.CacheManager.FreeLruBuffersCount` | src/cache/cache.c:299-326 | on every cache it carries out a least-recently-used plan until that many buffers have gone, with any releases in between, and succeeds exactly if they have; fails and changes nothing when too few buffers are idle; on unshadowed caches it succeeds exactly when enough are, and exactly the least recently used ones go |
| `Cache.CacheManager.CreateBuffer` | src/cache/cache.c:374-438 | on every cache, with any releases in between, the answer and what stays are those of the model's creation for some least-recently-used plan, and the new buffer comes last; a request that cannot be met is refused and changes nothing; on unshadowed caches all-or-nothing: the answer follows from the limits and from what was idle on entry, an error leaves every entry in place, success removes exactly the needed least recently used entries |
| `CacheRuns.RunKeepsHandles` | src/cache/cache.c:299-552 | over every run of one request and any other threads, and whether or not keys repeat, no buffer goes while somebody has a handle on it |
| `CacheRuns.HeldIsFound` | src/cache/cache.c:464-486 | while a request has a handle on the buffer that its key leads to, the key leads there, whatever others do |
| `CacheRuns.LockedForGood` | src/cache/cache.c:521-543 | once a lookup for writing has missed, nobody creates or finds a buffer any more, in any run |
| `CacheRuns.EvictedBeforeHeld` | src/server/worker.c:545-559 | a concrete run in which another thread evicts a new buffer before its creator has a handle on it, so that the creator's lookup for writing misses |
| `CacheThreads.Interleave` | src/cache/cache.c:374-552 | every sequence of calls by other threads, as code, is a run of the model: table, owners of handles and mutex end as the events say, and the events are what comes of the operations, one by one; a buffer with a handle of the request stays |
| `Serving.TryLookup` | src/server/worker.c:561-566 | the lookup for reading finds the buffer that the write handle is on: of the two lookups behind a creation only the one for writing can miss |
| `Serving.ServeMiss` | src/server/worker.c:543-580 | with any calls by others between its own, the miss path ends with two handles on the buffer that its path leads to, with one if that is filled in completely, or with none; which of its calls were made follows; it is stuck, or in error after a creation, only with the mutex held for good; if nobody else calls, the buffer is the new one and the answer is that of the creation |
| `Serving.ServeFile` | src/server/worker.c:532-580 | the first lookup decides: a hit takes the oldest buffer of the path, whatever the file's size is now, and a miss goes the miss path; a miss goes on whenever the creation succeeds if nobody else calls |
| `Requests.FinishFill` | src/server/worker.c:419-445 | a successful fill stores the bytes and gives one handle back, whoever else has handles; a refused one gives it back too; a failed one gives nothing back |
| `Requests.MissRefused` | src/server/worker.c:552-608 | after a miss whose read the pool refuses, the path leads to an empty buffer |
| `Requests.FirstRequest` | src/server/worker.c:499-613 | the first request for a file, when nobody else calls: its calls one by one, the handle that only a failed read leaves behind, and the response, which carries what the read brought |
| `Requests.StaleHit` | src/server/worker.c:517-608 | the next request for that file, from end to end: its complete response announces the length of the file and has no body |
| `SendResponse.SendOk` | src/server/request.c:281-377 | the head announces the size of the file and the body is what the buffer holds; a complete response announces the length of its body if and only if the two agree |
| `SendResponse.SendForbidden` | src/server/request.c:379-407 | the response to a failed read starts with HTTP/1.1 403 and has no body |
| `Requests.FinishRequest` | src/server/worker.c:419-445 | from its handles to their return, with any calls by others in between: what it sends is what its own read brought, or what the fills during its wait have left; all handles go back but the write handle of a failed read |
| `Requests.ServeRequest` | src/server/worker.c:499-613 | from lookup to the end of the response, with any calls by others between its own and later: the whole is a run of the model whose events of the request are the calls listed and whose other events are what comes of the operations of others; the request ends without a handle, except the write handle of a failed read or of a lookup that is stuck, whose buffer stays; alone, it gives back exactly what it took; body and announced length of its response agree exactly when the filled bytes are as many as the file has |
| `PoolInvariant.InvStep` | src/reader/reader.c:271-511 | every critical section keeps accounting, conservation of requests, wakeups and ownership of slots |
| `PoolInvariant.AccountingStep` | src/reader/reader.c:285-310 | total = completed + failed + canceled + pending, pending = queued + in flight, and the count is the list length within its limit |
| `PoolInvariant.ConservedStep` | src/reader/reader.c:411-511 | each accepted request is queued, in flight or reported, once; only a queued cancel reports it again |
| `PoolTheorems.NoLostWakeup` | src/reader/reader.c:312-409 | a sleeping worker has an empty list and no shutdown, although only the empty-to-nonempty transition is broadcast |
| `PoolTheorems.EntryIsThere` | src/reader/reader.c:411-416 | the empty-entry branch is unreachable |
| `PoolTheorems.StatsAddUp` | src/reader/reader.c:338-348 | the published counters add up to the number of accepted requests, and pending is queued plus in flight |
| `PoolTheorems.DrainBound` | src/reader/reader.c:167-178 | after shutdown, the worker steps of any run are bounded by a measure over queued, in-flight and live workers |
| `PoolTheorems.DrainProgress` | src/reader/reader.c:387-427 | after shutdown some worker can step until all have left |
| `PoolTheorems.GracefulShutdownDrains` | src/reader/reader.c:167-178 | every run after shutdown that can go no further has drained: no queue, nothing pending, nothing in flight |
| `PoolTheorems.ExactlyOnce` | src/reader/reader.c:202-238 | once drained, every accepted request was called back exactly once if and only if no cancel found its request queued |
| `PoolTheorems.CallbackCount` | src/reader/reader.c:438-511 | the exact number of callbacks of every request, in every drained run |
| `PoolTheorems.QueuedCancelCallsTwice` | src/reader/reader.c:202-238 | a concrete run in which a cancelled request is called back twice |
| `PoolTheorems.CanceledInFlight` | src/reader/reader.c:240-253 | a request cancelled in flight never receives an OK callback, and has received another one once the pool has drained |
| `PoolService.Admission` | src/reader/reader.c:271-321 | a request is admitted exactly when it is valid, there is no shutdown and the list is not full; it then heads the list and nobody sleeps, and otherwise nothing changes |
| `PoolService.Refusals` | src/reader/reader.c:271-290 | which of the codes a caller gets: bad parameter first, then shutdown, then full list |
| `PoolService.ShutdownRefuses` | src/reader/reader.c:167-178 | after a graceful shutdown no run admits or cancels anything, and nobody sleeps |
| `PoolService.TakesNewest` | src/reader/reader.c:411-436 | a worker takes the newest request off the list and reads it, or reports it as not found when its file cannot be opened |
| `PoolService.LastInFirstOut` | src/reader/reader.c:298-436 | the request that was admitted last is read first |
| `PoolService.ReadEnds` | src/reader/reader.c:438-511 | each outcome of stat and read has its callback and its counter; cancelled are exactly the bad descriptor and the successful read of a marked request; the slot is cleared after a read and keeps its pointer after an error before it |
| `PoolService.CancelFinds` | src/reader/reader.c:202-336 | a cancel succeeds exactly for a queued request, which is called back and stays queued, or one that a slot points to, which is marked and not called back |
| `PoolService.EveryFileIsRead` | src/reader/reader.c:271-511 | in every run from the start without cancels and file errors all callbacks report success and completed counts them; once drained every accepted file has been read, once |
| `ReaderPool.FileReaderPool.QueueFile` | src/reader/reader.c:271-321 | performs the queue step: each check in order, push at the head, broadcast only from empty; PoolService.Admission and Refusals say what that step is |
| `ReaderPool.FileReaderPool.CancelFile` | src/reader/reader.c:323-336 | performs the cancel step, by the list walk and then the slot scan |
| `ReaderPool.FileReaderPool.GetStats` | src/reader/reader.c:338-348 | the snapshot balances |
| `ReaderPool.FileReaderPool.TakeRequest` | src/reader/reader.c:390-436 | performs the take step: leave, sleep, or extract the newest request and open its file |
| `ReaderPool.FileReaderPool.FinishRequest` | src/reader/reader.c:438-511 | performs the finish step: one callback and one counter for every outcome of stat and read |
| `ReaderPool.FileReaderPool.Interleave` | src/reader/reader.c:271-511 | every interleaving of the critical sections, as code, is a run of the model and keeps its invariant |
| `WorkerInvariant.InvStep` | src/server/worker.c:210-387 | every step keeps the bookkeeping, the wakeups, the registration of sockets and the link between file reads and requests |
| `WorkerTheorems.NoLostWakeup` | src/server/worker.c:251-303 | a sleeping worker has no request and no shutdown to serve, a worker that left served all, and the count is the list length within its limit |
| `WorkerTheorems.ClosedOnce` | src/server/worker.c:631-670 | every accepted connection is listed and open, or was closed exactly once |
| `WorkerTheorems.CallbackFindsItsRequest` | src/server/worker.c:419-445 | a callback's request is still listed, so it has not been freed |
| `WorkerTheorems.ClosingStep` | src/server/worker.c:349-376 | a connection is closed only by the sweep, exactly when it is in error or its response went out on a writable socket |
| `WorkerTheorems.WholeSweep` | src/server/worker.c:345-379 | whatever callbacks run in between, a sweep gets to every listed request once and in order; those it closes are missing afterwards, the others are there in their old order |
| `WorkerTheorems.ForwardStep` | src/server/worker.c:311-629 | every step takes every request forward along the life cycle, if and only if it is not the assignment of WAITING that a callback has overtaken |
| `WorkerTheorems.OvertakenStep` | src/server/worker.c:601-613 | the assignment is overtaken exactly by a callback that runs between QueueFile and it |
| `WorkerTheorems.ForwardRun` | src/server/worker.c:389-629 | over any run without such a callback, a request that is still listed has only moved forward |
| `WorkerTheorems.StuckStep` | src/server/worker.c:601-613 | a request comes to wait for a callback that is already over in exactly that way |
| `WorkerTheorems.StuckForever` | src/server/worker.c:284-309 | from then on, in every run, it is never answered or closed and the worker never leaves |
| `WorkerTheorems.CallbackOvertakes` | src/server/worker.c:601-613 | a concrete run that leaves a request stuck |
| `WorkerService.Admission` | src/server/worker.c:210-257 | a connection is admitted exactly when there is no shutdown and the list is not full; it then heads the list as new and the worker does not sleep, and otherwise nothing changes |
| `WorkerService.Refusals` | src/server/worker.c:210-235 | which code a refused connection gets |
| `WorkerService.ShutdownRefuses` | src/server/worker.c:154-176 | after a graceful shutdown no run admits a connection, and the worker does not sleep |
| `WorkerService.Watches` | src/server/worker.c:311-340 | the read set are the sockets of exactly the requests that were reading, the write set of those that are writing; a new connection starts to read but is watched from the next round on |
| `WorkerService.WakesToNothing` | src/server/worker.c:293-303 | a worker that wakes up without a request leaves on shutdown and else waits in pselect on no socket |
| `WorkerService.SelectMoves` | src/server/worker.c:342-351 | a sweep starts at the first request and finds every ready socket in the state that it was watched for; an interrupted pselect starts over, a failed one ends the worker |
| `WorkerService.ReadMoves` | src/server/worker.c:355-613 | a request is moved only if its socket is readable: to ERROR exactly by a failure, to WRITE exactly by an answer, and only a file fetch starts a file read |
| `WorkerService.MarkMoves` | src/server/worker.c:602-613 | after QueueFile the request waits, and its file read is under way unless the callback has overtaken the assignment |
| `WorkerService.WriteMoves` | src/server/worker.c:360-376 | the current request is closed and taken off exactly in error or after a complete write to a writable socket, and stays as it is otherwise |
| `WorkerService.CallbackMoves` | src/server/worker.c:419-445 | the end of a file read takes its request, and no other, to WRITE, or to ERROR when no response could be prepared |
| `WorkerService.SmoothStep` | src/server/worker.c:284-445 | a request gets into error only by a failed read of its socket or a response that could not be prepared |
| `WorkerService.EveryRequestIsAnswered` | src/server/worker.c:284-445 | in every run from the start without such failures each close is the complete write of the response of a request in WRITE on a writable socket; when the worker has left, every admitted connection was answered that way |
| `WorkerExit.ShutdownCanEnd` | src/server/worker.c:284-387 | from any state after the shutdown some run leads the worker out, if and only if no request is stuck or about to be and pselect has not failed |
| `WorkerSweep.SweepConserves` | src/server/worker.c:349-376 | a sweep keeps or closes every entry, and once |
| `WorkerSweep.SweepAround` | src/server/worker.c:349-376 | each entry stays in its place as its visit left it, unless it has ended, and then it is closed instead |
| `WorkerSweep.WalkSweeps` | src/server/worker.c:349-376 | visiting entry by entry, with deletions on the way, computes the sweep of the whole list |
| `WorkerSweep.SweepRun` | src/server/worker.c:349-376 | the steps of a sweep that no callback interrupts do the same |
| `WorkerSweep.VisitsWhatIsLeft` | src/server/worker.c:349-376 | any part of a sweep, callbacks included, visits what it takes off the rest of the list, once and in order |
| `WorkerSweep.VisitsAreDealt` | src/server/worker.c:349-376 | what it visits it deals out, in order, to the entries that it keeps and to those that it closes |
| `WorkerSweep.SweepIsRun` | src/server/worker.c:345-379 | the critical section after `pselect`, when no callback runs during it, is one run of the model, whose effect is the sweep of the list |
| `ServerWorker.Worker.AddRequest` | src/server/worker.c:210-257 | performs the add step: shutdown, limit, push at the head, signal for the first request only |
| `ServerWorker.Worker.LoopTop` | src/server/worker.c:284-342 | performs the loop head: leave, sleep, or connect new requests and register the sockets of those that read or write |
| `ServerWorker.Worker.ConnectRequests` | src/server/worker.c:317-340 | new requests start reading, and the two sets are exactly the sockets of requests that read and that write |
| `ServerWorker.Worker.Selected` | src/server/worker.c:342-351 | performs the step after `pselect`: sweep, try again, or stop |
| `ServerWorker.Worker.ReadCurrent` | src/server/worker.c:355-358 | performs the read test of the current entry, up to the call of QueueFile |
| `ServerWorker.Worker.WriteCurrent` | src/server/worker.c:360-376 | performs the write test of the current entry and its removal from the list |
| `ServerWorker.Worker.DeleteRequest` | src/server/worker.c:631-670 | closes the socket once and unlinks that entry only |
| `ServerWorker.Worker.Sweep` | src/server/worker.c:345-379 | when no callback runs during it, the walk with deletion leaves exactly the requests that have not ended, in order, closes the others once each, and the count follows; it is a run of the model |
| `ServerWorker.Worker.ReadFileCallback` | src/server/worker.c:418-445 | performs the callback step, which WorkerService.CallbackMoves characterises |
| `ServerWorker.Worker.Interleave` | src/server/worker.c:210-445 | every interleaving of these critical sections and callbacks, as code, is a run of the model and keeps its invariant |
| `Strutils.Strnstr` | src/utils/strutils.c:7-23 | the first occurrence wholly within the first `slen` bytes and before any NUL, and none exactly when there is none |
| `DynamicStrings.DynamicString.Expand` | src/utils/string.c:39-47 | a larger block with the same bytes |
| `DynamicStrings.DynamicString.Append` | src/utils/string.c:49-59 | the text followed by the new bytes, terminated |
| `DynamicStrings.DynamicString.Set` | src/utils/string.c:69-81 | the new text, terminated |
| `DynamicStrings.DynamicString.Prefix` | src/utils/string.c:87-102 | the prefix followed by the text, moved up in place |
| `RequestReader.ReadRequest` | src/server/request.c:513-543 | the bytes are appended, a full buffer is doubled first, and the end is reported exactly for a would-block or when a blank line lies in the received bytes |
| `RequestReader.ReceiveHead` | src/server/request.c:513-543 | for every partition of the incoming bytes: size and capacity of the buffer follow from the reads made, its contents are the bytes delivered, its capacity the initial size times a power of two; the end is reported by the first read after which any prefix holds a complete head, otherwise all reads are made; reads that each get a byte receive every complete head; if the reads may be as long as pieces that make up the wire and fit, the contents are the first pieces, and a complete wire is reported |
| `RequestReader.PiecesArrive` | src/server/request.c:513-543 | when the wire comes in pieces for each of which the buffer has room at its turn, each read gets its whole piece |
| `RequestReader.ShortHeadArrives` | src/server/request.c:513-543 | for a wire of up to 3192 bytes every way of cutting it into pieces is of that kind |
| `HttpParser.StrtokR` | src/server/request.c:171-229 | in place, one NUL at most is written; token and continuation are those of the text |
| `HttpParser.ParseHttpRequest` | src/server/request.c:157-242 | the in-place parser computes ParseText of the C string that the memory block held |
| `HttpText.NullTokenIsMissingWord` | src/server/request.c:179-213 | a line makes the parser read through a null pointer exactly when it has no word, or starts with GET or HEAD and has fewer than three |
| `HttpText.NullTokenInRequest` | src/server/request.c:171-213 | the same for a whole request: only its first line that is not empty counts |
| `HttpRoundTrip.ParseUndoesPrint` | src/server/request.c:157-242 | parsing a printed GET or HEAD request gives back method, path, Host and User-Agent, for any header order and any number of leading empty lines |
| `HttpRoundTrip.RefusedRequests` | src/server/request.c:180-208 | methods that do not start with GET or HEAD and versions that do not start with HTTP/1. are refused, and only those |
| `HttpRoundTrip.AcceptedRequests` | src/server/request.c:157-242 | in bytes, for every method, path, version and header lines: the outcome of a printed request is decided by GET or HEAD in front of the method and HTTP/1. in front of the version |
| `HttpRoundTrip.OrdinaryRequest` | src/server/request.c:179-213 | HTTP/1.1 and HTTP/1.0 are accepted with GET and HEAD |
| `HttpRoundTrip.LastLineCounts` | src/server/request.c:214-242 | of several Host or User-Agent lines the last one counts |
| `HttpRoundTrip.PlainGet` | src/server/request.c:157-242 | the bytes of an ordinary GET request with a Host and a User-Agent line give all four fields, for every path, host and agent |
| `HttpRoundTrip.PrintedNullToken` | src/server/request.c:171-213 | of printed requests exactly those with a missing word make the parser fail |
| `HttpRoundTrip.NoVersion` | src/server/request.c:179-213 | a GET or HEAD line without a version is such a request, whatever its path and header lines |
| `HttpFraming.RequestFraming` | src/server/request.c:535-538 | reading stops exactly at the end of the head, however the bytes arrive, if and only if at most one empty line comes first |
| `HttpFraming.TwoEmptyLines` | src/server/request.c:535-538 | two empty lines are taken for a complete head |
| `HttpFraming.NullTokenIsReceivable` | src/server/request.c:157-213 | such a request, nine bytes long, is reported as a complete head |
| `HttpFraming.ReceivedRequestParses` | src/server/request.c:157-242 | what ReadRequest reports as complete parses into what was printed |
| `HttpFraming.PlainGetIsReceived` | src/server/request.c:535-538 | such a request is reported as complete with its last byte and not before |
| `Response.PrepareOk` | src/server/request.c:281-377 | the head is the status line, the four fields and the blank line, each of which reads back as what was put in |
| `Response.PrepareError` | src/server/request.c:379-465 | the head is the status line and the blank line |
| `Response.ContentLengthReadsBack` | src/server/request.c:281-377 | the Content-Length field of the printed head, found line by line, reads back as the length |
| `Response.ContentTypeReadsBack` | src/server/request.c:301-313 | the field Content-Type of the printed head reads back as the content type |
| `Response.DateReadsBack` | src/server/request.c:329-349 | the field Date reads back as the date |
| `Response.LastModifiedReadsBack` | src/server/request.c:329-349 | the field Last-Modified reads back as the time of the last change |
| `Response.OkStarts` | src/server/request.c:281-377 | a response with a body starts with the bytes of HTTP/1.1 200 OK |
| `Response.ForbiddenHead` | src/server/request.c:379-407 | the bytes of the whole 403 response |
| `Response.NotFoundHead` | src/server/request.c:409-437 | the bytes of the whole 404 response |
| `Response.UnsupportedMethodHead` | src/server/request.c:439-465 | the bytes of the whole 405 response |
| `Response.AnnouncedLength` | src/server/request.c:244-377 | the length in front of the first blank line of a complete response is that of what lies behind it, if and only if the length put in is that of the body |
| `Response.OkFraming` | src/server/request.c:281-377 | a receiver that splits at the first blank line gets the printed head and the whole body, whatever the body contains |
| `Response.ErrorFraming` | src/server/request.c:379-465 | the same for the three error heads |
| `ResponseWriter.RawResponse.WriteRequest` | src/server/request.c:569-629 | the bytes on the socket are a prefix of head and body, longer by what was written; the end is reported exactly for a complete response or a would-block |
| `ResponseWriter.RawResponse.WriteUntilDone` | src/server/worker.c:616-629 | over every sequence of partial writes the wire is the prefix of the response that the accepted writes add up to; the worker stops at the first call that finds everything out or would block, and nowhere else; positive writes get everything out within the number of bytes |

## Left out

- EvictionPlan.DistinctKeysAreUnshadowed: immediate from the definitions; it is there to say which caches meet the condition.
- ServerWorker.Worker.Sweep: no callback runs during this method; a sweep with callbacks in between is WorkerTheorems.WholeSweep, and as code ServerWorker.Worker.Interleave.
- WorkerSweep.SweepIsRun: no callback runs in this run; see WorkerTheorems.WholeSweep.
- ServerWorker.Worker.ReadFileCallback: the bytes that it stores and the handle that it gives back are in Requests.FinishFill; the read-write lock of the buffer is not modelled.
- HttpParser.ParseHttpRequest: without any NUL in the memory block `strtok_r` reads past its end, which is not modelled.
- ServerWorker.Worker.ReadRequest: the parse, stat and cache decisions of `_ProcessRequest` come in as one of four outcomes; the cache side of these decisions is Serving.ServeFile.
- Serving.ServeMiss: the read-write lock of a buffer, which the source takes twice before a read (`src/server/worker.c:569`, `601`), is not modelled; a request waits for it while others do what they like. The size of the block that a read goes to is not compared with the bytes that it brings.
- Serving.ServeFile: as Serving.ServeMiss.
- Requests.ServeRequest: as Serving.ServeMiss. `stat` and the read come in as sizes and outcomes. The body is taken as it is when the response is prepared; a second fill of the buffer while the response goes out is not modelled.
- Requests.FirstRequest: no other thread makes a call; a request among others is Requests.ServeRequest.
- CacheThreads.Interleave: what a particular other thread does next is not tied to what it did before; its handles are one list with those of all others.
- CacheRuns.EvictedBeforeHeld: the plan of an event lists the idle buffers; that it is least recently used is in the contract of Cache.CacheManager.CreateBuffer.
- BorrowedKeys.BorrowedKeysLive: the run is undisturbed; on caches that are not unshadowed, which freed keys are read when other threads release handles between the deletions is not characterised.
- PoolModel.Step: file paths, buffers and byte counts of requests are not part of the state; stat and read are outcomes.
- HttpText.ParseText: bytes after the blank line are read as further header lines, as in the source; pipelined requests are not modelled.
- `ShutdownFileReaderPool`, `ShutdownWorker` and `ShutdownServer`: no caller uses them; signals lead to the graceful functions only.
- Real threads, mutexes, condition variables and read-write locks: critical sections are atomic steps and a sleeping thread is a phase. Allocation failure is not modelled.
- Fairness: that an enabled worker step eventually happens is assumed nowhere and proved nowhere; draining is stated as a bound on worker steps and the absence of deadlock.
- `qsort`: replaced by a verified insertion sort; only its order and contents are used.
- `src/server/server.c`, `src/main.c`, logging, dates, content types, `stat` and sockets: input and output, or finite tables. They appear as parameters and outcomes.
- `AddPathPrefix` and `ReplacePath`: one call each of the string operations.
