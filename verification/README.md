# A Dafny model of the document service

The repository is a small document service: uploads are stored on disk and in SQLite, listed, searched, edited and
deleted by their owners, served through a cache, and indexed by a pool of background workers; sessions guard the
API and a token bucket limits each client. This project models the parts of it that carry state, interleaving or
arithmetic, and proves what they promise. `dafny verify dfyconfig.toml` checks everything.

## How it is modelled

Objects that change in place are classes whose methods have the code's own branches. The methods of the limiter, the
documents table, the cache, the service, the sessions and the migrations are proved equal to step functions, and the
theorems are about those functions over every run; what each call answers and leaves is also stated outright, on the
method or over every run, without those functions; the methods of the queue are linked to its machine by lemmas
(`Worker.EnqueueIsAtomic`, `CloseIsAtomic`, `LoopIsRun`), and those of the blob store state their whole effect in their
contracts. Where the point is interleaving, a component is a machine over atomic steps, and the theorems hold for every
sequence of enabled steps. Clock readings, generated ids, the password check, the token hash, the digest and the success
of each database statement are parameters of the calls, so that every theorem holds for all of their values.

| file | models |
|---|---|
| `RateLimit.dfy` | the token bucket of `internal/httpx/ratelimit.go`: refill, cap, rejection, eviction |
| `Worker.dfy` | queue, read-write lock, workers and shutdown of `internal/worker/indexer.go`, step by step |
| `Lifecycle.dfy` | one process run: startup scan, uploads, workers, edits and shutdown together |
| `Patching.dfy` | edits inside such a run: when a PATCH does what it means to |
| `Requeue.dfy`, `StartupScan.dfy` | the startup scan that pages by offset while rows leave, alone and inside such a run |
| `Paging.dfy`, `Search.dfy`, `DocumentTable.dfy` | the documents table: listing order, pages, LIKE, column-wise writes |
| `DocumentService.dfy`, `TtlCache.dfy` | the service and its cache as classes, whole operations |
| `ServiceEffects.dfy` | runs of whole operations: what each one answers and does to the documents |
| `CacheRefinement.dfy`, `OwnerSeparation.dfy` | runs of whole operations: the cache and the other users are invisible |
| `CacheCoherence.dfy`, `CacheHistory.dfy` | the cache when the steps of reads and writes interleave, and what it then holds and serves |
| `CrashSafety.dfy`, `StoredContents.dfy` | files and rows under failures and crashes, and what the files then contain |
| `Upload.dfy`, `Paths.dfy` | the bytes of an upload; path containment |
| `Auth.dfy`, `Accounts.dfy` | accounts and sessions; what registering and logging in answer over every run |
| `Migrations.dfy` | schema migrations over any sequence of starts |
| `UrlEscape.dfy` | percent-encoding of download names |
| `Documents.dfy`, `Wrappers.dfy`, `Basics.dfy` | the document entity and shared definitions |

## Where the code is weaker, or stronger, than its comments

- `RequeuePending` says it pages through the whole backlog. Rows that leave the pending set between two pages move the
  later ones up, past the next offset. `Requeue.ScanMissesFew` bounds what is missed, `StartupScan.ScanInRunMissesFew`
  says the same of whole process runs. `Requeue.ScanCompleteExactly` and, for process runs,
  `StartupScan.ScanInRunCompleteExactly` show that the scan is sure to reach everything exactly when the backlog fits its
  first page.
- A reader that reads a row before a commit and fills the cache after the invalidation leaves a stale entry until its
  time to live is over (`CacheCoherence.SlowReaderLeavesStaleEntry`). With no write pending, an entry is stale exactly
  when the last commit between its read and its Set left another row (`CacheHistory.StaleExactly`); in any case it holds
  the row as it was read (`CacheHistory.EntriesArePastRows`, `HitsArePastRows`).
- A PATCH writes both text columns from the copy it read, so of two overlapping PATCHes one can be lost
  (`Patching.OverlappingPatchesLoseOne`). A PATCH during which no other PATCH of the document writes is faithful, whatever
  else happens (`Patching.UndisturbedPatchFaithful`); a PATCH is faithful in every run exactly when it names both fields
  (`Patching.AlwaysFaithfulExactly`).
- Evicting idle buckets is invisible only if the three minutes suffice to refill a bucket, that is if 180 * rps is at
  least burst; the configuration accepts less (`RateLimit.EvictionInvisibleExactly`).
- The limiter reads the clock before taking its lock. The exact rejection rule and the window bound hold all the same
  whatever the order of the readings.
- `resolve` refuses every saved file when the root cleans to `/` or `.`, and lets a request climb when the cleaned root
  ends in `..` (`Paths.SavedResolvesExactly`, `Paths.ContainedExactly`).
- A cache hit answers a Get whose read would fail; in whole operations this is exactly when the cache shows
  (`CacheRefinement.CacheInvisible`, `HitOutlivesDatabase`). The hit may stem from another user's refused Get
  (`OwnerSeparation.ForeignGetHelps`); other users show exactly at such failing reads, when they make the difference
  between a hit and a miss (`OwnerSeparation.ToldExactly`).
- An overlong upload is removed again through `resolve`, so below a root that cleans to `/` or `.` its file stays
  (`Upload.Local.Receive`).
- `Authenticate` reports every failure to look its user up as a missing session: `Auth.AuthenticatesExactly` says when,
  and `Auth.FailedLookupHidesSession` is a run in which a good token is told so.

## Model

| member | source | states |
|---|---|---|
| RateLimit.Limiter.constructor | internal/httpx/ratelimit.go:22-27 | A new limiter has no buckets. |
| RateLimit.Limiter.Allow | internal/httpx/ratelimit.go:55-80 | One request: the verdict and the whole new bucket map; only the caller's bucket changes, and no two IPs ever share one. |
| RateLimit.Limiter.Cleanup | internal/httpx/ratelimit.go:83-96 | One sweep keeps exactly the buckets used within the last 180 seconds, untouched. |
| RateLimit.Isolation | internal/httpx/ratelimit.go:61-79 | An IP's verdicts and bucket depend on its own requests and the sweeps only, over every run. |
| RateLimit.TokensWithinBurst | internal/httpx/ratelimit.go:64-72 | Tokens never exceed burst, whatever the clock readings. |
| RateLimit.ExactRejection | internal/httpx/ratelimit.go:61-79 | A request is rejected if and only if some earlier admitted request i has (admissions since i) + 1 > burst + rps * (t - t_i); times in any order. |
| RateLimit.ExactRejectionInRun | internal/httpx/ratelimit.go:55-79 | The same inside a run with other IPs and with sweeps that do not evict this IP. |
| RateLimit.RejectedLeaveNoTrace | internal/httpx/ratelimit.go:75-79 | Deleting any rejected requests from one IP's requests changes no other verdict. |
| RateLimit.RejectedLeaveNoTraceInRun | internal/httpx/ratelimit.go:55-79 | The same in runs with other IPs and sweeps: deleting rejected requests of any IPs changes no other verdict of an IP that no sweep evicts; times in any order. |
| RateLimit.RejectedLeaveNoTraceSwept | internal/httpx/ratelimit.go:55-95 | The same for every IP of an ordered run with whatever sweeps, if 180 * rps >= burst. |
| RateLimit.WindowBound | internal/httpx/ratelimit.go:55-79 | Between two requests of one IP with no eviction in between, the second admitted, at most burst + rps * elapsed are admitted, even if time runs backwards in lock order. |
| RateLimit.TrimmedRun | internal/httpx/ratelimit.go:83-95 | With 180 * rps >= burst and times in order, sweeping only drops buckets that have refilled, and no verdict changes. |
| RateLimit.SlowRefillExposesEviction | internal/httpx/ratelimit.go:83-95 | With 180 * rps < burst, some ordered run gets a different verdict because of a sweep. |
| RateLimit.EvictionInvisibleExactly | internal/httpx/ratelimit.go:83-95 | Sweeps are invisible over all ordered runs if and only if 180 * rps >= burst, for any limits the configuration accepts. |
| Worker.Indexer.constructor | internal/worker/indexer.go:44-46 | An open, empty queue of the given capacity. |
| Worker.Indexer.Enqueue | internal/worker/indexer.go:52-64 | A whole call: says yes if and only if the queue is open and holds fewer than its capacity, and then appends the id at the back; otherwise changes nothing. |
| Worker.Indexer.Close | internal/worker/indexer.go:117-122 | Afterwards closed, and flag and channel agree, however often it is called. |
| Worker.Indexer.Loop | internal/worker/indexer.go:83-100 | A worker ranging over the channel while nobody sends finishes everything queued, in order, and its range ends exactly if the channel is closed. |
| Worker.EnqueueIsAtomic | internal/worker/indexer.go:52-64 | The single steps of an undisturbed Enqueue call add up to the whole call. |
| Worker.EnqueueLinearises | internal/worker/indexer.go:52-64 | In every interleaving, the step that answers an Enqueue call answers and changes the queue as the whole call would in that state, and nothing else enters the queue. |
| Worker.CloseIsAtomic | internal/worker/indexer.go:116-122 | The single steps of an undisturbed Shutdown call, up to its wait, close flag and channel once, however often it is called. |
| Worker.LoopIsRun | internal/worker/indexer.go:83-100 | The single steps of an undisturbed worker take and finish everything queued, in order; its range can then end exactly if the channel is closed. |
| Worker.RunKeepsInv | internal/worker/indexer.go:52-135 | The invariant of lock, flag, channel, queue, answers and pool holds in every reachable state. |
| Worker.SafeAlways | internal/worker/indexer.go:52-122 | In every interleaving: no send on a closed channel, at most one close, at most cap queued, dequeued in the order accepted, and accepted = queued + in flight + finished as multisets. |
| Worker.SettledRun | internal/worker/indexer.go:116-122 | Once the channel is closed nothing more is accepted, and a returned Shutdown stays returned. |
| Worker.NilMeansDrained | internal/worker/indexer.go:116-135 | After any Shutdown returned nil, in every continuation: every accepted id is finished, also every id whose Enqueue said yes, and nothing more is accepted. |
| Worker.DrainEnds | internal/worker/indexer.go:69-100 | After the close, the number of further worker steps is bounded by the work left. |
| Worker.DrainNeverStuck | internal/worker/indexer.go:83-135 | After the close, until all workers have left one of them can move; then every waiting Shutdown can return, and returns nil. |
| Paging.BeforeTotal | internal/db/repo.go:80-83 | (created_at DESC, id DESC) is a strict total order on keys. |
| Paging.LessExact | internal/db/repo.go:83 | Ids are ordered lexicographically: the first differing character decides, or the end of the shorter one. |
| Paging.OrderUnique | internal/db/repo.go:80-83 | There is only one listing of given rows in that order. |
| Paging.RankIsIndex | internal/db/repo.go:80-83 | A row's position is the number of rows before it. |
| Paging.RankShrinks | internal/db/repo.go:80-83 | When other rows leave, a row only moves forward. |
| Paging.PageRank | internal/db/repo.go:83 | LIMIT n OFFSET o yields rows of rank o to o + n - 1. |
| Paging.PagesTile | internal/db/repo.go:80-83 | Consecutive pages of a frozen listing concatenate to the listing. |
| Search.EscapedMatchesPrefix | internal/db/repo.go:149-151 | An escaped query followed by % matches exactly the texts that start with the query, up to ASCII case. |
| Search.SearchIsSubstring | internal/db/repo.go:56-61 | For every query, also one containing or ending in a backslash, % or _: LIKE on the escaped pattern holds if and only if the query occurs in the text, up to ASCII case. |
| Search.FoldExact | internal/db/repo.go:58 | Two characters are alike to LIKE if and only if they are equal or the two cases of one ASCII letter. |
| Search.TrimExact | internal/document/service.go:161-162 | Trimming removes the spaces at both ends, all of them and nothing else; the result is unique. |
| DocumentTable.SearchFindsSubstrings | internal/db/repo.go:53-69 | The filter selects exactly the documents whose title or summary contains the trimmed query, up to ASCII case, if it is not empty, and that have the owner and the status asked for, if any. |
| DocumentTable.TotalExact | internal/db/repo.go:75-78 | The total is the number of matching documents, whatever limit and offset are. |
| DocumentTable.ListingExact | internal/db/repo.go:75-83 | There is exactly one listing of all matching ids, each once, newest first and ties by descending id; the total is its length and the page is its part from the offset on, at most limit long. |
| DocumentTable.PagingStable | internal/db/repo.go:80-84 | Page after page of an unchanged table yields the full listing, nothing twice or missing. |
| DocumentTable.ColumnsDisjoint | internal/db/repo.go:105-135 | A text write and a status write of one row commute, updated_at apart, and the text write never changes the status. |
| DocumentTable.CondsAreFilter | internal/db/repo.go:54-73 | The conditions that List builds hold exactly of the documents the filter asks for. |
| DocumentTable.DocumentRepo.constructor | internal/db/repo.go:22 | A repository over the given table. |
| DocumentTable.DocumentRepo.Create | internal/db/repo.go:27-38 | Inserts with times in seconds; a taken id or a failing statement is an error and changes nothing. |
| DocumentTable.DocumentRepo.List | internal/db/repo.go:53-103 | The total is the number of rows whose document passes the filter; the page holds, from the offset on and at most limit, the rows of the listing of all of them, newest first and ties by descending id; the conditions and the row loop are the code's. |
| DocumentTable.DocumentRepo.ReadRows | internal/db/repo.go:90-97 | The row loop returns the rows of the page in order. |
| DocumentTable.DocumentRepo.Update | internal/db/repo.go:108-122 | Writes title, summary and updated_at in whole seconds of one row and nothing else; a missing row is an error. |
| DocumentTable.DocumentRepo.SetStatus | internal/db/repo.go:125-135 | Writes status and updated_at in whole seconds of one row and nothing else; a missing row is an error. |
| DocumentTable.DocumentRepo.Delete | internal/db/repo.go:137-146 | Removes one row; a missing row is an error. |
| TtlCache.TTL.constructor | internal/cache/ttl.go:38-40 | An empty cache with the given time to live. |
| TtlCache.TTL.Get | internal/cache/ttl.go:44-54 | The stored value exactly up to its expiry; reading changes nothing. |
| TtlCache.TTL.Set | internal/cache/ttl.go:57-61 | Stores the value until now + ttl. |
| TtlCache.TTL.Delete | internal/cache/ttl.go:64-68 | Removes one key. |
| TtlCache.TTL.Purge | internal/cache/ttl.go:71-75 | Empties the cache. |
| TtlCache.TTL.Sweep | internal/cache/ttl.go:83-93 | One janitor pass keeps exactly the unexpired entries. |
| TtlCache.SweepInvisible | internal/cache/ttl.go:77-93 | A sweep changes no later lookup. |
| DocumentService.Service.constructor | internal/document/service.go:92-97 | Wires repository, cache and size limit. |
| Documents.BaseExact | internal/document/service.go:163 | The stored file name is the last element of the client's path, without directories and trailing slashes. |
| DocumentService.Service.FetchRow | internal/db/repo.go:40-51 | A fresh object holding the row; a missing row or a failure is an error. |
| DocumentService.Service.Get | internal/document/service.go:191-205 | Does what the specified cached Get does, and changes no Document object. |
| DocumentService.Service.List | internal/document/service.go:208-216 | A limit outside 1 to 100 is 20, a negative offset 0; the total counts all matching rows, the page is that part of their listing; changes nothing. |
| DocumentService.Service.Create | internal/document/service.go:110-186 | Answers Ok if and only if title, summary and file name are valid, the size is within the limit, the insertion works and the id is new; every column of the answer and of the new row; otherwise the table is unchanged. The cache is untouched. |
| DocumentService.Service.EditFields | internal/document/service.go:233-238 | Replaces exactly the named fields by their trimmed values. |
| DocumentService.Service.Draft | internal/document/service.go:226-242 | The edited document is a fresh copy of the row; missing, foreign and invalid documents are errors. |
| DocumentService.Service.Update | internal/document/service.go:225-248 | Ok replaces exactly the named fields by their trimmed values and the time; an error leaves the table unchanged. Invalidates as specified, mutating no Document object that existed before. |
| DocumentService.Service.Delete | internal/document/service.go:251-262 | Answers Ok if and only if both statements work and the row exists and belongs to the caller or the system asks; then exactly this row is gone, and its cache entry; an error leaves the table unchanged. |
| DocumentService.Service.MarkStatus | internal/document/service.go:272-278 | Answers Ok if and only if the statement works and the row exists; then the row has that status and the time, all else is unchanged, and the cache entry is gone. |
| DocumentService.Service.Sweep | internal/cache/ttl.go:83-93 | A janitor pass of the service's cache. |
| CacheRefinement.RowsKept | internal/document/service.go:225-278 | A call changes no existing row but the one whose cache entry it invalidates. |
| CacheRefinement.AnswerStep | internal/document/service.go:191-205 | With a coherent cache an answer differs from the uncached one if and only if an unexpired entry answers a Get whose read fails; it is then what the read would have found. |
| CacheRefinement.CacheStaysCoherent | internal/document/service.go:191-278 | Over every sequence of calls, clock readings, sweeps and failures, every cached document equals its row and the table is the uncached service's. |
| CacheRefinement.CacheInvisible | internal/document/service.go:191-278 | Over every run, an answer differs from the uncached service's if and only if it is a Get whose read fails while the cache holds an unexpired entry; it is then the current document. |
| CacheRefinement.CacheInvisibleWhileUp | internal/document/service.go:191-278 | If no read of a Get fails, every answer of every run is the uncached service's. |
| CacheRefinement.HitOutlivesDatabase | internal/document/service.go:191-205 | After one Get a second one is answered although its read would fail. |
| ServiceEffects.GetEffect | internal/document/service.go:191-205 | In every run, a Get that can read answers the row as it is, or that it is not found if it is missing or another user's; one that cannot read fails, or a hit gives the same answer; no row changes. |
| ServiceEffects.ListEffect | internal/document/service.go:208-216 | In every run, a listing counts all matching documents and gives the page asked for, limit and offset clamped; no row changes. |
| ServiceEffects.CreateEffect | internal/document/service.go:110-186 | In every run, a Create answered Ok adds exactly one row, pending, each column told in terms of the upload; each refusal and its condition, leaving the table as it was. |
| ServiceEffects.UpdateEffect | internal/document/service.go:225-248 | In every run, an Update answered Ok replaces exactly the fields it names; each refusal and its condition, leaving the table as it was. |
| ServiceEffects.DeleteEffect | internal/document/service.go:251-262 | In every run, a Delete answered Ok removes its row and no other; each refusal and its condition, leaving the table as it was. |
| ServiceEffects.MarkStatusEffect | internal/document/service.go:272-278 | In every run, a MarkStatus answered Ok gives its row that status; each refusal and its condition, leaving the table as it was. |
| ServiceEffects.GetShowsLastWrite | internal/document/service.go:191-278 | Over every run, a Get that can read answers the row as the last successful write of it left it, whatever was called, cached, swept or failed in between. |
| ServiceEffects.DeletedIsGone | internal/document/service.go:251-262 | Over every run, after a Delete answered Ok and until the id is created again: it is in no table, and every Get of it says not found, or fails if it cannot read. |
| OwnerSeparation.SameToOwner | internal/document/service.go:191-267 | Two states that agree on u's rows answer every call by u alike. |
| OwnerSeparation.AgreeStep | internal/document/service.go:110-278 | They still agree after the same call by u or by the system in both. |
| OwnerSeparation.ForeignStep | internal/document/service.go:68 | They still agree after a call by another user in one of them only. |
| OwnerSeparation.RunsAgree | internal/document/service.go:68 | Leaving other users' calls out of a run changes none of u's rows. |
| OwnerSeparation.AnswerDiffersExactly | internal/document/service.go:191-267 | In every run, an answer to u differs from the one u would have got without the other users' earlier calls if and only if it is a Get whose read fails and just one of the two caches holds its document unexpired. |
| OwnerSeparation.ToldExactly | internal/document/service.go:191-267 | What the cached service tells u over a run is what it would tell u had no other user called, if and only if this happens at none of u's calls. |
| OwnerSeparation.OthersInvisible | internal/document/service.go:191-205 | While no read of u's own Gets fails, everything the cached service tells u over a run is what it would tell u had no other user called. |
| OwnerSeparation.ForeignGetHelps | internal/document/service.go:191-205 | The condition is needed: another user's refused Get fills the cache and so answers u's next Get whose read fails. |
| CacheCoherence.RunKeepsInv | internal/document/service.go:191-278 | The coherence invariant holds in every reachable state of interleaved reads and writes. |
| CacheCoherence.StaleEntriesExplained | internal/document/service.go:191-205 | In every interleaving, a cached document that differs from its row is explained by a write that has not invalidated yet or by a filler that read before a commit preceding its Set. |
| CacheCoherence.HitsAreRecent | internal/cache/ttl.go:44-61 | Whatever is served from the cache was set at most ttl before. |
| CacheCoherence.LogIsRun | internal/document/service.go:191-278 | The step numbers in those explanations are positions in the run. |
| CacheCoherence.SlowReaderLeavesStaleEntry | internal/document/service.go:192-199 | A run that ends with a stale unexpired entry although every write has invalidated. |
| CacheCoherence.LookupExact | internal/cache/ttl.go:44-54 | From every state, an undisturbed lookup serves the cached document exactly up to its expiry and is a miss after it. |
| CacheCoherence.FillExact | internal/document/service.go:194-200 | From every state, an undisturbed miss caches the row as it is for the time to live and changes nothing else in the cache. |
| CacheHistory.EntriesArePastRows | internal/document/service.go:191-200 | In every interleaving, each cached document is the row of its id in the state in which its filler read it; read step, Set step and expiry are the real ones. |
| CacheHistory.HitsArePastRows | internal/cache/ttl.go:44-61 | Everything ever served from the cache is such a past row, set at most ttl before it was served. |
| CacheHistory.StaleExactly | internal/document/service.go:191-278 | With no write of its id pending, a cached document differs from its row if and only if the last commit between its filler's read and its Set left a different row. |
| CrashSafety.RunKeepsInv | internal/document/service.go:146-267 | The invariant of rows, files and running operations holds in every reachable state. |
| CrashSafety.CrashSafe | internal/storage/local.go:66-95 | In every interleaving of uploads and deletions with failures and crashes at any step: every row names a completely stored file, no two rows share one, and orphans number at most the operations in flight or crashed plus the failed removals. |
| CrashSafety.UploadCompletes | internal/document/service.go:146-186 | From every reachable state, an undisturbed upload within the limit ends with one row more, naming its whole file. |
| CrashSafety.DeletionCompletes | internal/document/service.go:251-267 | An undisturbed deletion ends without the row and without its file. |
| StoredContents.RunKeepsDisk | internal/storage/local.go:66-100 | The invariant of files, contents, counts and records holds in every reachable state. |
| StoredContents.RowsDescribeFiles | internal/document/service.go:146-174 | In every interleaving of uploads and deletions with failures and power cuts at any moment: a row's size and checksum are those of the bytes its path names, and the size is within the limit. |
| StoredContents.UploadRecorded | internal/document/service.go:146-174 | From every reachable state, an undisturbed upload ends with its bytes under its row's path and their size and checksum recorded. |
| Requeue.RequeuePending | internal/document/service.go:287-309 | The loop terminates; what it offers is the concatenation of the pages it read, and it ends at the first short page or failing List. |
| Requeue.ScanMissesFew | internal/document/service.go:280-304 | However rows leave between pages: nothing is offered twice, and rows still pending but never offered number at most those that left. |
| Requeue.FailedScanSafe | internal/document/service.go:292-295 | A scan cut short by a failing List offers nothing twice. |
| Requeue.FrozenScanIsComplete | internal/document/service.go:284-304 | With a frozen table the offers are exactly the sorted pending list. |
| Requeue.ScanCompleteExactly | internal/document/service.go:284-304 | The scan reaches every row still pending, however others leave, if and only if the backlog holds at most 500 rows. |
| StartupScan.RunFollows | internal/document/service.go:287-304 | In every process run, with or without a failing List, the scan offers the pages of its listings in order, the listings only shrink within the backlog, and it ends at a short page or at the failure. |
| StartupScan.ScanInRunMissesFew | cmd/api/main.go:94-97 | In every process run whose scan has ended without a failing List: nothing is offered twice, and the documents of the starting backlog still pending but never offered number at most those no longer pending. |
| StartupScan.OfferedOnce | internal/document/service.go:287-304 | In every process run, at every moment and also after a failing List: nothing is offered twice, and nothing that was not pending at the start. |
| StartupScan.LargeBacklogPassedBy | internal/document/service.go:284-304 | For every start with more than 500 pending documents: a run in which the newest is processed between two pages and the scan passes a pending one by. |
| StartupScan.ScanInRunCompleteExactly | internal/document/service.go:284-304 | For every start and a queue of at least one place: the scan reaches everything still pending in all process runs if and only if at most 500 documents are pending. |
| Lifecycle.RunKeepsInv | cmd/api/main.go:94-97 | The invariant of scan, queue, workers and uploads holds in every reachable state of a process run, shutdown included. |
| Lifecycle.AcceptedOnce | internal/document/service.go:182-304 | The queue accepts no document twice, although the scan overlaps the workers. |
| Lifecycle.StatusStep | internal/worker/indexer.go:84-109 | No step takes a status back to pending or from ready to failed or the reverse. |
| Lifecycle.DisjointColumns | internal/db/repo.go:105-135 | PATCHes never change a status and status writes never change text, however stale the PATCH's copy; nothing changes created_at. |
| Lifecycle.OneTerminalStatus | internal/worker/indexer.go:84-109 | Over a whole run a status changes at most once, from pending, and is then final. |
| Lifecycle.MarkExact | internal/worker/indexer.go:84-109 | A worker's mark writes Ready, or Failed, and the time into its document's row and nothing else; without a row it goes on to mark it failed, or gives up. |
| Lifecycle.MarkIsFinal | internal/worker/indexer.go:84-109 | From every reachable state and whatever follows: a document marked ready is ready as long as it exists, one marked failed is failed. |
| Lifecycle.RowsExact | internal/document/service.go:176-262 | What uploads, removals and PATCHes write to the rows; no other step than these and the marks changes any. |
| Lifecycle.WorkExact | internal/worker/indexer.go:83-100 | A worker takes the first queued document, and marks it failed after a failure to mark it ready. |
| Lifecycle.OfferExact | internal/document/service.go:182-303 | What scan and uploads offer is accepted at the queue's end if it is open and not full, and else dropped. |
| Patching.PatchFaithfulExactly | internal/document/service.go:226-243 | One write replaces exactly the fields its PATCH names if and only if the others are as it read them. |
| Patching.FaithfulInRunExactly | internal/document/service.go:226-243 | In every run, a PATCH is faithful if and only if each field it does not name has, when it writes, the value it had in the table when it read. |
| Patching.UndisturbedPatchFaithful | internal/document/service.go:225-248 | In every run, a PATCH during which no other PATCH of its document writes replaces exactly the fields it names, whatever scan, worker, upload, removal and shutdown steps interleave. |
| Patching.AlwaysFaithfulExactly | internal/document/service.go:225-248 | A PATCH is faithful in every run if and only if it names both title and summary. |
| Patching.OverlappingPatchesLoseOne | internal/document/service.go:226-243 | Two overlapping PATCHes of different fields: a run in which the first edit is lost. |
| Auth.Service.constructor | internal/auth/service.go:48-50 | No accounts and no sessions. |
| Auth.Service.Register | internal/auth/service.go:53-74 | Opens an account, under the trimmed and lower-cased email, if and only if that has an @, the password has 8 characters or more and 72 bytes or less, hashing and insertion work and neither email nor id is taken; otherwise no account changes. An invalid email, a weak password, a failure and a taken email are told apart, in that order. |
| Auth.Service.Login | internal/auth/service.go:77-105 | Answers Ok if and only if both statements work, there is an account under the trimmed and lower-cased email, the password fits its hash and the token is new; then the user is that account's and one session is stored, expiring at now + ttl in whole seconds; otherwise no session changes. Bad credentials and failures are told apart. |
| Auth.Service.Logout | internal/auth/service.go:108-110 | Removes the token's session, if any, exactly when the statement works. |
| Auth.Service.Authenticate | internal/auth/service.go:114-132 | The user of a session up to its second, exactly when both lookups work; a session past it is removed, if that works, and reported missing. |
| Auth.Service.PurgeExpired | internal/db/auth_repo.go:158-165 | Keeps exactly the sessions whose expiry is not before the current second, and returns how many it removed. |
| Auth.AccountsUnique | internal/auth/service.go:53-74 | Over every run no email has two accounts, however it is spelled: accounts and email index mirror each other. |
| Accounts.AccountsFromCalls | internal/auth/service.go:53-74 | Over every run, the stored accounts and the email index are exactly those the registrations answered Ok opened, with their normalised emails, ids and hashes. |
| Accounts.RegistersExactly | internal/auth/service.go:53-74 | The answer to every registration of every run, in terms of the earlier calls and answers: email, password, failure, taken, else the new user. |
| Accounts.LoginsExactly | internal/auth/service.go:77-105 | Over every run: a login is answered Ok if and only if its statements work and an earlier registration answered Ok has the same normalised email and a hash that fits the password; the user is the registered one; with no such registration the credentials are bad, and all else is a failure. |
| Auth.BytesOfParts | internal/auth/service.go:60 | The password's length in bytes is that of its UTF-8 encoding, character by character. |
| Auth.LifetimeExact | internal/db/auth_repo.go:118-145 | A session lives longer than ttl - 1 s and at most ttl. |
| Auth.PurgeStands | internal/db/auth_repo.go:158-165 | A sweep only removes sessions that no longer authenticate. |
| Auth.SessionsRefine | internal/auth/service.go:94-137 | With a clock that does not run backwards and fresh tokens, every call of every run answers as an ideal service that never expires or sweeps anything and only compares times. |
| Auth.AuthenticatesExactly | internal/auth/service.go:114-132 | For every token and every failure: Authenticate names a user if and only if an earlier successful login issued the token, no logout of it followed, the time is at most the issue time plus ttl rounded down to the second, and both lookups work; the user is the one that login named; else the error is a missing session, or the failure of the session lookup. |
| Auth.FailedLookupHidesSession | internal/auth/service.go:127-130 | A run in which a good token is reported as a missing session because its user cannot be looked up. |
| Migrations.Database.constructor | internal/db/sqlite.go:61-63 | A database before its first start. |
| Migrations.Database.Migrate | internal/db/sqlite.go:51-103 | One start, interrupted at any statement or not at all: it succeeds if and only if there are files, the table can be made and every file passes; then the record holds the old entries and the unrecorded files in order, and the schema is the old one after their scripts. |
| Migrations.StartSucceedsExactly | internal/db/sqlite.go:51-103 | Every start: it succeeds if and only if files are found, the table can be made, each recorded file's check works and each unrecorded file meets no fault and its script succeeds after those before it; on success exactly the old record and the unrecorded files, in file order, are recorded and applied. |
| Migrations.StoppedStartKeeps | internal/db/sqlite.go:67-101 | A start stopped at its d-th file keeps all unrecorded files before it, that one too if only the crash came after its commit, and nothing else. |
| Migrations.ExactlyOnce | internal/db/sqlite.go:45-50 | Over any sequence of starts: the schema is the fold of the recorded scripts, none recorded twice, and records are never lost. |
| Migrations.AppliedInOrder | internal/db/sqlite.go:59-101 | If new files only sort last, the record is always a prefix of the sorted files, and all of them after success. |
| Migrations.RerunChangesNothing | internal/db/sqlite.go:70-77 | Over recorded files a start changes nothing whatever goes wrong, and succeeds if no check fails. |
| Migrations.RerunAfterSuccess | internal/db/sqlite.go:45-51 | A second start after a successful one changes nothing. |
| UrlEscape.Escape | internal/document/handler.go:176-188 | The loop computes the specified encoding. |
| UrlEscape.EscapedExact | internal/document/handler.go:176-188 | Byte by byte: letters, digits, '.', '-' and '_' stay, every other byte becomes % and its two hexadecimal digits in upper case. |
| UrlEscape.RoundTrip | internal/document/handler.go:176-188 | Percent-decoding the encoding gives the name back, for every byte string. |
| UrlEscape.EscapeInjective | internal/document/handler.go:176-188 | Distinct names have distinct encodings. |
| UrlEscape.EscapedIsValueChars | internal/document/handler.go:176-188 | The encoding always matches value-chars of section 3.2.1 of RFC 5987. |
| Upload.UploadExact | internal/document/service.go:135-142 | For every length and limit: what is stored is the input cut off after max(limit + 1, 513) bytes; it is more than the limit if and only if the input is, and otherwise all of it. |
| Upload.AbsorbChunks | internal/storage/local.go:77-80 | Digesting chunk by chunk is digesting the whole. |
| Upload.Reader.Read | internal/document/service.go:104 | An input stream may hand out its bytes in any portions and break at any point. |
| Upload.Reader.constructor | internal/document/service.go:104 | A stream at its beginning. |
| Upload.ReadFull | internal/document/service.go:120-125 | Reads 512 bytes or all there are, whatever the portions; fails exactly if the stream breaks before that. |
| Upload.Local.Stream | internal/storage/local.go:77-83 | Copies at most the limit to the file and the digest in one pass; fails exactly if the stream breaks or the disk is full before that. |
| Upload.Local.Stage | internal/storage/local.go:66-83 | The staging file holds prefix and limited rest, with their size and digest; no other file is touched. |
| Upload.Local.Save | internal/storage/local.go:55-101 | Succeeds exactly if nothing breaks; then the stored file, size and checksum are those of prefix and limited rest, under the reported path; otherwise at most the staging file stays, and only if its removal fails. |
| Upload.Local.Discard | internal/storage/local.go:71-75 | The deferred removal of the staging file. |
| Upload.NamePlain | internal/storage/local.go:92 | A generated id with an extension is a plain file name. |
| Upload.Local.Delete | internal/storage/local.go:114-125 | Removes the file the path resolves to; refuses an escaping path; a missing file is no error. |
| Upload.Local.Receive | internal/document/service.go:119-156 | The outcome in the order of the checks, Ok exactly if the stream holds, the type is accepted, everything is saved and the input is within the limit, a refused type exactly if the first 512 bytes can be read and sniff to none; what each outcome leaves on disk; at most max(limit + 1, 513) bytes are ever written. |
| Upload.ReceivedExactly | internal/document/service.go:119-156 | For every input, limit and fault: one equivalence for success and for each error in terms of the input and the faults alone, and the path, size and checksum reported. |
| Paths.JoinWalks | internal/storage/local.go:130 | The cleaned join is the root's path followed component by component by the request. |
| Paths.CleanRules | internal/storage/local.go:130 | How a path is cleaned, element by element: names are appended, empty elements and '.' dropped, '..' takes the last name away or stays in front of a relative path; these rules determine it. |
| Paths.PrefixDirIsBelow | internal/storage/local.go:138-143 | The byte-prefix test on cleaned paths holds if and only if the path lies strictly below a root other than / and . in the tree. |
| Paths.ResolveExact | internal/storage/local.go:129-136 | For every root and request: accepted if and only if the cleaned join is the root or, for a root other than / and ., starts with the root's components. |
| Paths.ContainedExactly | internal/storage/local.go:127-136 | No accepted request climbs above the root, for all requests, if and only if the cleaned root does not end in .. |
| Paths.FinalPath | internal/storage/local.go:61-92 | Save puts its file at the root's path followed by year, month, day and file name. |
| Paths.SavedResolvesExactly | internal/storage/local.go:92-100 | The path Save returns resolves to the very file it created if and only if the root does not clean to / or .; otherwise it is refused. |

## Left out

- HTTP handlers, cookies, JSON and multipart decoding, CORS, logging, request ids, timeouts and the web page: plumbing.
- Configuration parsing, logger set-up and the health check: only the accepted ranges of the settings are used.
- bcrypt, SHA-256 and random ids: unspecified functions or parameters; hashes of tokens are injective and ids fresh.
- The limiter's floating-point rounding: tokens and times are real numbers.
- SQLite itself: each statement is one atomic step on a map, as the single connection (internal/db/sqlite.go:33) suggests, and a failing statement commits nothing. Migration scripts contain no transaction control.
- LIKE's length limit on patterns and its stop at NUL characters; text that is not valid UTF-8.
- Directory creation and permissions, syncing of directories, and leftover staging files after a restart: a rename is atomic, a sync makes the content durable, and temporary names are not reused.
- filepath.Clean, Join, Base and Rel are modelled by their documented rules on path components, Rel only for targets below the base; Windows paths are not.
- A queue of capacity 0, which the configuration refuses: a send would hand over directly to a waiting worker.
- The contexts' deadlines in workers and Shutdown: a deadline may strike at any moment.
- Serialisability of overlapping PATCHes: not true of the code, see above.
- DocumentTable.DocumentRepo.List: the count and the page are two statements in the code and one step here.
- DocumentTable.ColumnsDisjoint: updated_at is excepted, since both writes set it.
- DocumentService.Service.Create: starts when the bytes are stored; reading, type detection and storing are in Upload and CrashSafety, the Enqueue in Lifecycle.
- DocumentService.Service.Delete: the removal of the file after the row is in CrashSafety.
- Rows change only through the service, as in the code.
- Lifecycle.RunKeepsInv: a PATCH may write any text and edits may come before serving starts, more than the code allows; trimming and validation are in DocumentService.
- Auth.Service.Login: the dummy comparison for unknown accounts has no effect on the answer and is not modelled.
- Auth.Service.Register: a password that is not valid UTF-8 has no counterpart here.
- Upload.Local.Receive: validation of the metadata comes before it, in DocumentService, and the row after it, in CrashSafety.
- TtlCache.TTL.Get: each operation is atomic here; the separate lookup and age check are in CacheCoherence.
