# A verified model of the 115 share indexer

The program registers 115 cloud-drive shares, crawls each share's directory tree page by page
into SQLite, and builds a search index from the stored rows. This project models its logic in
Dafny and proves what it is meant to guarantee.

- **The resumable crawl** (`Snapshots`, `CrawlRun`, `CrawlInvariant`, `CrawlTheorems`,
  `Checkpoints`, `CrawlAnswers`, `Crawler`, `CrawlHistory`, `CrawlLoss`). A share is an immutable snapshot, so the lister is a
  finite table. `CrawlRun` is the uninterrupted breadth-first crawl, one page or one skipped queue
  entry a step; `Crawler.Crawler.CrawlShare` is the program's loop over a store it updates in
  place, where every store call, lister call, pause check and context check may end the call.
  Their answers are parameters, and `CrawlAnswers` tells from them how a call ends, step by step
  along the run; every call is proved to end so, and to fetch what is told there.
  Each call is proved to follow the run, and whatever it leaves in the database is proved to be a
  state of the run or one whose page in hand is already stored. `CrawlLoss` says what becomes of a
  crawl whose stored rows were deleted.
- **The fleet** (`Shares`, `Backoff`, `Lifecycle`, `Fleet`, `FleetLife`, `FleetRetry`,
  `FleetOrphans`, `FleetComplete`, `FleetLosses`, `Scheduler`). `Fleet` is a machine whose events are single
  store calls: those of a scheduler cycle (`PurgeIfOrphan` and `RecordShareFailure` are two calls
  each) and those of administrators, which may come between any two. The theorems are about every
  list of events. `Scheduler.Scheduler.RunOnce` is the program's cycle; its calls are proved to be
  such a list (`Fleet.TraceIsRun`), with others interfering between them and `CrawlShare` run
  on the share's data. What each cycle listed, crawled, recorded and renamed is kept in a book, which
  says of the calls what they say themselves (`Scheduler.BookIsTrace`); the cycle is proved against it.
- **The search documents** (`Lexical`, `SearchDocs`, `SearchNames`, `DocPlanner`, `Indexer`). `SearchDocs`
  says which document a row belongs to and what it carries, `SearchNames` what names that makes a plan
  hold, told from the columns; `DocPlanner` is the one-pass planner, `Indexer` the batched write.
- **Three planners over the share table** (`Titles`, `SizeDedup`, `Groups`).
- **The proxy pool and the retrying client** (`Proxies`, `Client`).

## Where the code does less than it says, or than one would expect

- A crawl of a finished share is a no-op, because its checkpoint has the root visited: resetting a
  COMPLETED share to ACTIVE re-fetches nothing (`CrawlHistory.FinishedCrawlIsNoop`), though the program's own
  README.md, lines 67-71, and cmd/115-indexer/crawl.go lines 19-21 speak of a re-crawl.
- A checkpoint names its active directory by id and takes an empty id for none. Interruption is
  invisible exactly for shares in which no reachable directory has an empty id
  (`CrawlHistory.InvisibleIffIdsNonempty`).
- `backoffSeconds` doubles in 64 bits before it caps. It is min(3600, 60*2^(n-1)) up to the 58th
  failure and not positive from the 59th on (`Backoff.DelayExact`).
- COMPLETED does not always mean complete. Rows never steer a crawl, so one whose rows are deleted
  under it goes on, and ends with the rows of the pages still to come and no others
  (`CrawlLoss.LossExact`). `FleetComplete.StepSound` names the calls that do harm, exactly: the
  share gets a row again while its data, or the crawl in hand, has lost rows; or the rows of a
  registered share are deleted although they are needed. Each is shown by runs, for every share
  and page: registered again under its crawl (`FleetLosses.ReRegisteredUnderCrawl`); after a
  crawl that ended before it was purged (`FleetLosses.AbandonedCrawl`); after a crawl that was
  settled as a DUPLICATE, an ordinary branch of the cycle, which skips the purge
  (`FleetLosses.DuplicateUnpurged`); dropped by the clean-up by size, which keeps the checkpoint
  (`FleetLosses.DroppedBySize`); registered again between the look and the deletes of the purge
  itself (`FleetLosses.PurgedWhenRegistered`).
- A deleted share can come back without anyone registering it. A crawl still on its first page
  stores the share's title and size, and that call inserts the row again as ACTIVE
  (`FleetOrphans.ReturnsWhenDescribed`). For a share with nothing
  stored yet no rows are lost by it, and `FleetComplete.Gentle` allows it.
- A share reset between being listed and being shelved ends in QUARANTINE with no failures
  (`FleetLife.ResetBeforeShelving`); nothing else parts status from failure count
  (`FleetLife.StepKeepsLife`).
- An orphan survives exactly when a cycle ends, by a store error or with the process, between the
  crawl's writes and the purge (`FleetOrphans.StepTidy`).
- A cycle in which every share turned out a duplicate asks for the proxy backoff as if all had
  failed at their proxies (`Scheduler.Scheduler.RunOnce`).
- Two files can have one document id. Some files of two shares do exactly when one share code
  followed by '-' begins the other (`Indexer.CodesCollideIff`).

## Model

| member | source | states |
|---|---|---|
| CrawlRun.Progress | internal/crawler/crawler.go:116-248 | Every step from a state with a fresh cursor lowers (unvisited directories, remaining pages, queue). |
| CrawlRun.Terminates | internal/crawler/crawler.go:116-248 | From any state, such as any resumed checkpoint, the crawl of a finite snapshot ends, cycles and shared folders included. |
| CrawlRun.DoneUnique | internal/crawler/crawler.go:116-248 | All lengths at which the run is done give the same state and the same fetches. |
| CrawlInvariant.RunGood | internal/crawler/crawler.go:98-248 | In every state of the uninterrupted run: every discovered directory is visited, queued or active; the queue is in breadth-first order; every row is of a listed page and every page behind the cursor is stored. |
| CrawlInvariant.NearerVisited | internal/crawler/crawler.go:116-133 | Once a directory at depth d is taken up, every reachable directory nearer to the root has been visited. |
| CrawlInvariant.HeadDistance | internal/crawler/crawler.go:116-133 | An unvisited directory at the head of the queue carries its shortest distance from the root. |
| CrawlTheorems.VisitedIsReachable | internal/crawler/crawler.go:116-248 | The finished crawl visited exactly the directories reachable from RootCID. |
| CrawlTheorems.RowsAreListed | internal/crawler/crawler.go:195-221 | The finished crawl stored exactly the ids of the directories and media files listed on the pages of the reachable directories. |
| CrawlTheorems.RowDepthIsDistance | internal/crawler/crawler.go:195-221 | A stored row repeats an entry of its parent's listing, and its depth is the parent's shortest distance from the root plus one. |
| CrawlTheorems.EachPageOnce | internal/crawler/crawler.go:134-248 | The uninterrupted run fetches no page twice, and at its end has fetched every page of every reachable directory. |
| Crawler.UpsertAddsPageRows | internal/store/sqlite.go:489-522 | Stamping, filtering and upserting a page row by row equals adding the page's indexable rows to the table, whatever was there. |
| Crawler.CrawlStore.UpsertFiles | internal/store/sqlite.go:489-522 | The whole batch is upserted in order, or nothing changes. |
| Crawler.CrawlStore.SaveCheckpoint | internal/store/sqlite.go:569-589 | The share's one checkpoint is replaced, or nothing changes. |
| Crawler.CrawlStore.LoadCheckpoint | internal/store/sqlite.go:591-610 | The saved checkpoint, none if there is none, or an error. |
| Crawler.FilterIndexableFiles | internal/crawler/crawler.go:274-282 | Keeps, in order, exactly the directories and the media files. |
| Crawler.Crawler.constructor | internal/crawler/crawler.go:73-81 | A retry count that is not positive becomes 2. |
| Crawler.Crawler.FetchPage | internal/crawler/crawler.go:155-164 | The attempt that decides is the first to serve the page or to fail for good, or else the last of retries+1: its answer is returned, and every attempt before it failed in a way worth retrying. |
| Crawler.Crawler.OpenPage | internal/crawler/crawler.go:141-189 | Up to the metadata: whether the call goes on, and if not how it ends, is decided by the first answer that is against it, of the checkpoint, the lister, the duplicate query where it is asked, and the metadata; the database changes only by the pre-page checkpoint and the metadata. |
| Crawler.Crawler.StorePage | internal/crawler/crawler.go:195-242 | The page's rows are stored before the checkpoint moves past them, and that checkpoint has the directory visited when the page was its last. |
| Crawler.Crawler.CrawlPage | internal/crawler/crawler.go:134-247 | One page is one step of the run, or leaves the database around that page. |
| Crawler.Crawler.CrawlDirectory | internal/crawler/crawler.go:134-247 | A directory's pages are steps of the run in sequence, ending with the directory visited, or the call stops around one of them. |
| Crawler.Crawler.Begin | internal/crawler/crawler.go:87-114 | The queue, visited set and cursor taken up from a checkpoint; an active directory already visited is dropped and an exhausted checkpoint queues the root. |
| Crawler.Crawler.CrawlShare | internal/crawler/crawler.go:83-264 | How the call ends and what it fetched are what its answers make of the run it resumed, and nothing else. A call that returns nil leaves the end of that run; any other leaves the database as it was or around a page of it; a duplicate writes no file; title and size are written at most once, and only for a share that had no title. |
| CrawlAnswers.GateDecides | internal/crawler/crawler.go:166-178 | Once a call has fetched a page of a share at least as large as a positive threshold, a duplicate answer ends it at once as that duplicate, an error as that error, and only the answer that there is none lets it go on; no other share is declared a duplicate. |
| CrawlAnswers.EndsOneWay | internal/crawler/crawler.go:83-264 | The answers of store, lister, pause and context leave one way for a call to end and one list of pages fetched. |
| CrawlAnswers.AllWellDrains | internal/crawler/crawler.go:83-264 | A call to which nothing goes wrong returns nil, unless its share is a duplicate. |
| CrawlHistory.ReplayIdempotent | internal/crawler/crawler.go:211-242 | Fetching again a page whose rows are already stored gives the same next state. |
| CrawlHistory.ResumedRun | internal/crawler/crawler.go:98-133 | A resumed call goes through the states of the uninterrupted run from where the checkpoint stands. |
| CrawlHistory.InterruptedOnRun | internal/crawler/crawler.go:141-152 | Whatever an interrupted call leaves resumes the run where it stood or further on, at the price of at most one repeated fetch. |
| CrawlHistory.CompletedAtEnd | internal/crawler/crawler.go:250-263 | A call that returns nil, from any point of the run, leaves what one uninterrupted crawl leaves, having fetched exactly the pages left. |
| CrawlHistory.InterruptionInvisible | internal/crawler/crawler.go:87-261 | Any number of calls cut off anywhere and then one returning nil leave the visited set, checkpoint and rows of one uninterrupted call; k-1 interruptions cost at most k-1 extra fetches. |
| CrawlHistory.InvisibleIffIdsNonempty | internal/crawler/crawler.go:101-105 | Interruption is invisible in every history if and only if no reachable directory has an empty id. |
| CrawlHistory.EveryCheckpointSafe | internal/crawler/crawler.go:211-242 | After any interrupted calls, the checkpoint found forgets no discovered directory, keeps the breadth-first order and depths, and has every page behind it stored; every row stored is an entry of its parent's listing, under its own id, one level below its parent's shortest distance. |
| CrawlHistory.EveryFetchAtDistance | internal/crawler/crawler.go:98-133 | Every call of a history, interrupted or not, fetches each page at its directory's shortest distance from the root. |
| CrawlHistory.FinishedCrawlIsNoop | internal/crawler/crawler.go:250-258 | A call on a finished share fetches nothing and changes nothing. |
| CrawlLoss.RowsNeverSteer | internal/crawler/crawler.go:116-248 | The rows stored beforehand change neither the steps of a crawl nor its fetches, and its rows are added to them. |
| CrawlLoss.LossExact | internal/crawler/crawler.go:87-114 | A crawl resumed from any data at step n of the run that returns nil ends with the rows it found and those of the pages from step n on. |
| CrawlLoss.MendableExact | internal/crawler/crawler.go:87-114 | So it leaves the whole snapshot if and only if those two make it up. |
| CrawlLoss.InterruptedLoss | internal/crawler/crawler.go:141-152 | An interrupted call, from data with rows missing or not, changes nothing in what is stored plus what is still to come. |
| Backoff.BackoffSeconds | internal/store/sqlite.go:893-902 | The doubling loop in 64-bit arithmetic gives the wrapped value of 60*2^(n-1), capped at an hour. |
| Backoff.DelayExact | internal/store/sqlite.go:893-902 | That equals min(3600, 60*2^(n-1)) if and only if n is at most 58; from 59 on it is not positive. |
| Backoff.DelayTable | internal/store/sqlite.go:893-902 | In seconds: 60 up to the first failure, then 120, 240, 480, 960 and 1920, and 3600 from the seventh to the 58th. |
| Lifecycle.ListingExact | internal/store/sqlite.go:809-831 | The listing holds each due row as often as the table, ordered by last crawl and then id. |
| Lifecycle.ListedIffDue | internal/store/sqlite.go:809-831 | A row is listed if and only if it is ACTIVE, STALE or QUARANTINE and its retry time has come. |
| Lifecycle.ListingFields | internal/store/sqlite.go:809-831 | On the columns: every ACTIVE, STALE or QUARANTINE row with its retry time at or before now is listed as often as the table has it, no other is, and each was last crawled before the next, or at the same time with no larger id. |
| Fleet.RowOrigin | internal/store/sqlite.go:662-679 | After any call each row is one just created, or an earlier row of the same code rewritten as the call says. |
| Fleet.FailuresNewest | internal/store/sqlite.go:739-753 | The failures read for a code are those of its row with the largest id. |
| FleetLife.StepKeepsLife | internal/store/share_status.go:19-63 | A call keeps statuses and failure counts in agreement if and only if it is not the shelving of a share whose row has fewer than three failures. |
| FleetLife.LifecycleInvariant | internal/scheduler/scheduler.go:79-133 | In every run in which no share listed with three failures is reset before its outcome is recorded: ACTIVE, COMPLETED and DUPLICATE mean no failures and no retry time, STALE one or two, QUARANTINE three or more. |
| FleetLife.ResetBeforeShelving | internal/scheduler/scheduler.go:112-124 | With such a reset it fails: the run that shows it. |
| FleetRetry.ParkedNeverListed | internal/store/sqlite.go:809-818 | A COMPLETED, DEAD or DUPLICATE share is not listed again in any run until it is registered or reactivated. |
| FleetRetry.EmptyDataBound | internal/scheduler/scheduler.go:112-126 | Between resets at most three empty-data failures of a share are recorded; a crawl that ends in the fourth can only be shelved. |
| FleetRetry.NotListedEarly | internal/store/sqlite.go:851-875 | A failed or shelved share keeps its recorded retry time and is not listed before it, unless it is reset or settled. |
| FleetOrphans.StepTidy | internal/store/share_race.go:13-39 | Every call keeps orphan files confined to the share in flight, if and only if it does not abandon an orphan before its purge. |
| FleetOrphans.NoOrphansSurvive | internal/scheduler/scheduler.go:74-95 | In every run, with deletions and registrations at any point: only the share in flight can have files without a row, and none has once its outcome is being recorded. |
| FleetOrphans.ReturnsWhenDescribed | internal/store/sqlite.go:729-737 | A deleted share that nobody registers has a row again if and only if its title and size were stored since. |
| FleetComplete.StepSound | internal/scheduler/scheduler.go:68-99 | A call of a cycle, a crawl or an administrator keeps every registered share completable and every COMPLETED one complete, if and only if it is not one that registers a share over lost rows or deletes rows of a registered share that are needed. |
| FleetComplete.CompletedIsSound | internal/store/sqlite.go:839-849 | Over every run from an empty database without such a call, with interruptions, registrations, reactivations and deletions at any point, a COMPLETED share stores exactly what its snapshot lists. |
| FleetComplete.GentleRunsComplete | internal/store/share_delete.go:14-40 | In particular when nobody deletes stored files of a share while its crawl runs, drops files by size, or registers a share between its crawl's return and the recording; then no share loses anything. |
| FleetLosses.ReRegisteredUnderCrawl | internal/scheduler/scheduler.go:92-99 | For every share and page: deleted and registered again while the crawl is at that page, the share ends COMPLETED with the rows of the pages from there on. |
| FleetLosses.AbandonedCrawl | internal/store/share_race.go:13-39 | The same when the crawl of the deleted share ends before it is purged and the share is registered later. |
| FleetLosses.DuplicateUnpurged | internal/scheduler/scheduler.go:81-90 | The same when that crawl finds a duplicate, which is settled without a purge. |
| FleetLosses.DroppedBySize | internal/store/dedup.go:87-94 | The same when the size clean-up drops the files of a share still being crawled and it is reactivated. |
| FleetLosses.PurgedWhenRegistered | internal/store/share_race.go:13-39 | Registered again between the purge's look and its deletes, the share ends COMPLETED with nothing stored. |
| FleetLosses.SecondPageLoses | internal/crawler/crawler.go:211-242 | Such a loss is real: of two files on two pages, the first has nowhere to come from once its page is behind. |
| Fleet.TraceIsRun | internal/scheduler/scheduler.go:68-148 | What cycles do is a run of the fleet in which every crawl behaves as CrawlShare, so the theorems above apply to it. |
| Scheduler.BookIsTrace | internal/scheduler/scheduler.go:68-148 | What the book says of the present cycle and of the finished ones is what the calls of the run say. |
| Scheduler.CyclesCompleteSoundly | internal/scheduler/scheduler.go:68-148 | A share that cycles marked COMPLETED stores its whole snapshot, unless one of the calls named above was made. |
| Scheduler.Scheduler.ListSharesForCrawl | internal/store/sqlite.go:809-831 | The rows due at the given time, in order, told by their columns; or an error and no change. |
| Scheduler.Scheduler.UpsertShare | internal/store/sqlite.go:662-679 | Resets the row of that pair of codes, or appends a new ACTIVE one. |
| Scheduler.Scheduler.UpdateShareMeta | internal/store/sqlite.go:729-737 | Sets title and size and nothing else of the row of that pair of codes, or appends a new ACTIVE one. |
| Scheduler.Scheduler.DeleteShare | internal/store/share_delete.go:14-40 | Removes every row of the code together with its files and checkpoint. |
| Scheduler.Scheduler.ReactivateShare | internal/store/share_status.go:47-63 | Resets every row of the code and leaves its checkpoint and files. |
| Scheduler.Scheduler.MarkShareCrawled | internal/store/sqlite.go:839-849 | Parks every row of the code as COMPLETED, or fails and changes nothing. |
| Scheduler.Scheduler.MarkShareDead | internal/store/sqlite.go:877-884 | Parks every row of the code as DEAD, keeping its failure count. |
| Scheduler.Scheduler.MarkShareDuplicate | internal/store/share_status.go:37-45 | Parks every row of the code as DUPLICATE. |
| Scheduler.Scheduler.MarkShareShelved | internal/store/share_status.go:19-26 | QUARANTINE for ten years, with the failure count kept. |
| Scheduler.Scheduler.RecordShareFailure | internal/store/sqlite.go:851-875 | Reads the newest row's failures and, others interfering, writes one more with its status and retry time; a share that is gone is an error. |
| Scheduler.Scheduler.PurgeIfOrphan | internal/store/share_race.go:13-39 | Two calls with others in between: the crawl is left to be recorded, or the cycle ends in an error. |
| Scheduler.Scheduler.CallCrawler | internal/scheduler/scheduler.go:78-78 | CrawlShare with the listed title, over what is stored for the share: it ends as its answers say, and leaves the end of its run or a place where it can be interrupted; the rows are the same if it found a duplicate; title and size are stored for a share listed without title. |
| Scheduler.Scheduler.RecordOutcome | internal/scheduler/scheduler.go:95-138 | Every outcome but a duplicate is recorded by its own call, a drained crawl at the cycle's time and a failure at the clock's, or ends the cycle in a pause or an error as its calls were answered; only a recorded proxy failure leaves the proxy flag. |
| Scheduler.Scheduler.Settle | internal/scheduler/scheduler.go:79-138 | A duplicate is marked without a purge and leaves the proxy flag; any other outcome is recorded after the purge. |
| Scheduler.Scheduler.TakeTurn | internal/scheduler/scheduler.go:73-138 | A pause ends the cycle before the share is taken up; otherwise it is crawled, its crawl ends as CrawlShare does on its answers, and the cycle goes on exactly if its store calls worked and no pause stood when a failure was to be recorded; then it was taken up as listed and its outcome recorded once. |
| Scheduler.Scheduler.DedupeShareTitles | internal/scheduler/scheduler.go:139-146 | The plan of Titles for the share table as it was at some time in the cycle, applied up to the first rename that fails. |
| Scheduler.Scheduler.RunOnce | internal/scheduler/scheduler.go:68-148 | The first call lists what is due at the given time, or fails. A cycle that comes to its end took up every listed share in order, each crawled and recorded once at that time, and then renamed by plan; otherwise it took them up to the one whose answers ended it. It returns true if and only if it listed a share and every outcome was a duplicate or a proxy failure. |
| Scheduler.Scheduler.RunLoop | internal/scheduler/scheduler.go:150-193 | A turn of the loop parks exactly while paused and otherwise runs a cycle at its own time; a store error ends the loop at once; one sleep after each cycle that came to its end, set by how many in a row went unanswered; a paused cycle neither sleeps nor counts. |
| Scheduler.SleepsGrow | internal/scheduler/scheduler.go:202-213 | Unanswered cycles are followed by 5, 15 and 30 minutes and then an hour each; one answer returns the sleep to the interval, a minute if that is not positive. |
| SearchDocs.DocOfUnique | internal/searchindex/dedupe.go:135-229 | A row has one document. |
| SearchDocs.SharedDocIffSameContent | internal/searchindex/dedupe.go:183-215 | Two unsuppressed real-hash files share a document if and only if sha1 and size agree and either the names are equal or neither is an episode. |
| SearchDocs.PlanUnique | internal/searchindex/dedupe.go:135-229 | A set of rows has one plan. |
| SearchNames.LoneFile | internal/searchindex/dedupe.go:43-48 | In any plan a file without a usable hash, outside containers, has a document of its own by one name: what stands before a dot and its extension, or its whole name if it does not end so or has no extension. |
| SearchNames.PlainFolder | internal/searchindex/dedupe.go:175-180 | A folder that is no container has a document by its name, extension or not. |
| SearchNames.ContainerIff | internal/searchindex/dedupe.go:70-84 | The container rule, with the size of 10 GiB in bytes. |
| SearchNames.ContainerNames | internal/searchindex/dedupe.go:96-119 | A container has a document by its own name and those of the files directly in it, without extension and with a space for every dot, of which those with at least 255 before them are left out. |
| SearchNames.ContentNames | internal/searchindex/dedupe.go:183-227 | A file with a usable hash, outside containers, has a document by the extensionless names of all files of its content and no others, filed under the first of them by share code and id. |
| SearchNames.SharedDocIff | internal/searchindex/dedupe.go:201-204 | On the columns: two such files have one document if and only if hash and size agree and the names are equal, or both are over 10 GiB and neither is marked as an episode. |
| Lexical.BelowIff | internal/searchindex/dedupe.go:212-214 | The order of codes, ids and names: at the first difference the smaller character, or the end. |
| DocPlanner.Partition | internal/searchindex/dedupe.go:148-157 | Each directory once, and each file exactly under its share and parent. |
| DocPlanner.CountsAsContainer | internal/searchindex/dedupe.go:70-84 | True if and only if at least five children are marked, or at least five, three fifths of them small and at most one large. |
| DocPlanner.FolderNames | internal/searchindex/dedupe.go:96-119 | In order: the folder's own name and the 255 smallest distinct child stems. |
| DocPlanner.FolderDocs | internal/searchindex/dedupe.go:161-181 | One document for each directory, and exactly the children of containers suppressed. |
| DocPlanner.FileDocs | internal/searchindex/dedupe.go:183-215 | Unhashed files alone, the rest grouped by content with all their stems and the smallest key as representative. |
| DocPlanner.GroupDocs | internal/searchindex/dedupe.go:216-227 | One document for each group, its names sorted. |
| DocPlanner.PlanDocs | internal/searchindex/dedupe.go:135-229 | The one-pass planner computes the plan: every row in exactly one document, every document owned, no two with one key. |
| DocPlanner.OrderIndependent | internal/searchindex/dedupe.go:135-229 | Permuting the rows never changes the set of documents. |
| Indexer.CodesCollideIff | internal/searchindex/indexer.go:52-54 | Some file of one share and some file of another have one doc id if and only if one share code followed by '-' begins the other. |
| Indexer.DocIDInjective | internal/searchindex/indexer.go:52-54 | Between two codes of which neither, followed by '-', begins the other, equal doc ids mean equal share and file. |
| Indexer.IndexExact | internal/searchindex/indexer.go:101-116 | Over distinct ids the written map holds every planned document with its names. |
| Indexer.WriteAll | internal/searchindex/indexer.go:84-120 | For any batch size: documents divided by it, rounded up, batches are written in turn, and the call succeeds exactly if all of them are; then the index holds the plan's map, each id written once, and no more than a batch was ever held. |
| Indexer.Rebuild | internal/searchindex/indexer.go:56-120 | From the rows to an index equal to their plan, each document under its own id, when no share code followed by '-' begins another and every batch is written. |
| Titles.ItoaInjective | internal/store/dedupe.go:54-54 | Decimal suffixes of different numbers differ. |
| Titles.ItoaDecimal | internal/store/dedupe.go:54-54 | The suffix of a number is that number in decimal digits, without leading zeros. |
| Titles.TrimmedIff | internal/store/dedupe.go:21-21 | A trimmed title is what is left between the white space at both ends, and nothing else is removed. |
| Titles.Pigeonhole | internal/store/dedupe.go:52-65 | If the first n-1 candidates are all used then n exceeds the used titles by at most one, which bounds the search. |
| Titles.FreeCandidate | internal/store/dedupe.go:52-65 | The search ends with the smallest free suffix. |
| Titles.TurnsAreRepeats | internal/store/dedupe.go:45-51 | The shares whose turn comes are exactly those repeating an earlier non-blank trimmed title, each once. |
| Titles.PlanShareRenames | internal/store/dedupe.go:18-69 | Each repeating share in group order gets the smallest suffix free at its turn. |
| Titles.NumberedTitle | internal/store/dedupe.go:50-65 | A new title is the share's own, trimmed, followed by the least number from 1 up, in decimal, that makes it no share's trimmed title and no earlier new one. |
| Titles.PlanMakesDistinct | internal/store/dedupe.go:109-124 | With unique codes, applying the plan makes all non-blank trimmed titles pairwise distinct. |
| Titles.FirstKeepsTitle | internal/store/dedupe.go:50-51 | A row is unchanged if and only if it does not repeat an earlier title. |
| Titles.DistinctPlansNothing | internal/store/dedupe.go:18-69 | A second plan is empty. |
| Titles.TitleTable.DedupeShareTitles | internal/store/dedupe.go:109-124 | Succeeds exactly if the listing and every rename work; then the whole plan is applied, else the renames before the first that fails; a dry run changes nothing. |
| SizeDedup.FindDuplicateShare | internal/store/dedup.go:15-35 | The oldest crawlable share of that size, unless it is the one asked about or the size is below the minimum. |
| SizeDedup.AnswerIff | internal/store/dedup.go:15-35 | On the columns: of the ACTIVE, STALE and QUARANTINE shares of a positive size that reaches the minimum, the answer is the one last crawled first, by id among equals, unless that is the share asked about. |
| SizeDedup.QueryAgrees | internal/store/dedup.go:15-96 | A crawlable share loses in the bulk clean-up if and only if the query on its size names another share, the same canonical. |
| SizeDedup.PlanBySize | internal/store/dedup.go:49-83 | Exactly the losers, each once with its canonical and file count, whatever order the map of sizes is walked in. |
| SizeDedup.DedupedUnique | internal/store/dedup.go:87-94 | Every walking order gives the same tables. |
| SizeDedup.OnePerSize | internal/store/dedup.go:44-48 | Afterwards a row is eligible if and only if it was the oldest of its size, and files go exactly with the losers. |
| SizeDedup.KeptIff | internal/store/dedup.go:44-96 | On the columns: after an applied run such a share is still crawlable if and only if every other of its size was last crawled later, or at the same time with a larger id; the others are DUPLICATE of that one, and every other row is as it was. |
| SizeDedup.FilesKeptIff | internal/store/dedup.go:87-94 | A file goes if and only if a share of its code was marked. |
| SizeDedup.SecondRunPlansNothing | internal/store/dedup.go:49-96 | A second run plans nothing. |
| SizeDedup.SizeTable.DedupeSharesBySize | internal/store/dedup.go:49-96 | Succeeds exactly if the scan and every statement of the plan work; then the tables are those; a dry run changes nothing; otherwise it stops at the first action that fails, before its mark or between its mark and its deletion. |
| Groups.RemoveFirst | internal/shares/groups.go:83-90 | Drops the first occurrence and nothing else, and keeps the order of the rest. |
| Groups.EntryChanges | internal/shares/groups.go:66-75 | How one entry changes the codes of every section. |
| Groups.MembersExact | internal/shares/groups.go:36-41 | A code is in the last section naming it, once, and in no other. |
| Groups.OwnerIsLast | internal/shares/groups.go:64-75 | In lines that can be read, a code stands in the section of its latest mention. |
| Groups.SectionHeader | internal/shares/groups.go:53-57 | A section has the name of the last header above its lines. |
| Groups.MembersInOrder | internal/shares/groups.go:74-74 | The codes of a section come in the order of the lines that first mention them there. |
| Groups.MovesAreMoves | internal/shares/groups.go:66-73 | The duplicates reported are, in order, the codes of the lines whose code was last mentioned above another header. |
| Groups.ParseGroups | internal/shares/groups.go:42-81 | Succeeds if and only if every line can be read and the input did not break off; then each section with its codes in order of first mention there, one duplicate for each move; otherwise the error of the first line that cannot be read, or else of the input. |
| Groups.ParsedDisjoint | internal/shares/groups.go:36-41 | No code is in two sections, nor twice in one. |
| Groups.DormantExact | internal/store/sqlite.go:706-717 | A code is reported as dormant if and only if some group has it and no share does. |
| Groups.GroupTable.ApplyGroups | internal/store/sqlite.go:687-723 | Succeeds exactly if every statement and the commit work; then all groups and assignments are made at once, and the codes no share has are returned; else nothing changes. |
| Groups.OverlayDecides | internal/store/sqlite.go:687-723 | After reading and applying an overlay each share's group is one plus the index of the last section naming it, or none, whatever it was before. |
| Proxies.RunCoherent | internal/proxy/manager.go:92-120 | In every run the pool is stopped exactly when the threshold of consecutive replacements is reached, and then holds no proxy. |
| Proxies.StaysStopped | internal/proxy/manager.go:66-68 | Once stopped, no later sequence of calls makes Acquire succeed. |
| Proxies.ChosenIsFirstValid | internal/proxy/manager.go:76-89 | Acquire takes the first offer that passes validation, and none if a fetch fails before it. |
| Proxies.GrantsWhatItCan | internal/proxy/manager.go:62-90 | On the fields: unless the pool has stopped, a proxy in hand that is ACTIVE and before its deadline is granted, or else the first offer to pass validation with no failed fetch before it. |
| Proxies.RefusedIff | internal/proxy/manager.go:62-90 | Nothing is granted if and only if the pool has stopped, or there is neither such a proxy nor such an offer. |
| Proxies.StopsAfterBudget | internal/proxy/manager.go:92-109 | With fresh, lasting proxies and no success, the pool is stopped exactly when (F - replacements)*T - failures more failures were counted. |
| Proxies.FreshBudget | internal/proxy/manager.go:92-109 | For a new pool, exactly at F*T. |
| Proxies.Manager.constructor | internal/proxy/manager.go:52-60 | A failure threshold that is not positive becomes 3. |
| Proxies.Manager.Acquire | internal/proxy/manager.go:62-90 | The proxy in use while it is active and not expired, otherwise the first valid offer; nothing once stopped. |
| Proxies.Manager.RecordFailure | internal/proxy/manager.go:92-109 | Counts against the proxy in use only, replaces it at the threshold, and stops the pool at the fatal one. |
| Proxies.Manager.RecordSuccess | internal/proxy/manager.go:111-120 | Clears both counts, for the proxy in use only. |
| Client.TurnBudget | internal/api115/snap.go:164-203 | A charged failure takes one of the failures left, a success refills them, and a request needs some left. |
| Client.SteadyLeft | internal/api115/snap.go:164-203 | A steady pool has (F - replacements)*T - failures left, at most T*F. |
| Client.ListClient.List | internal/api115/snap.go:157-204 | Turn by turn, each request goes through the proxy that Acquire grants in the pool the earlier ones left, with the cookies they left, and every one but the last failed at its proxy. The call ends with a request that did not, or else at a turn that is cancelled, or at which nothing is granted; and it returns the last reply, the cancellation, or an exhausted pool if nothing was ever sent. Under fresh, lasting proxies at most the failures left are sent. |
| Client.CallGoesOneWay | internal/api115/snap.go:157-204 | The answers leave one list of requests, one result and one pool. |
| Client.UsesWhatItCanGet | internal/api115/snap.go:164-194 | No turn is given up that could be used: a turn reached with every request failed and not cancelled, in a pool that has not stopped and holds a good proxy or is offered a valid one, sends its request through that proxy. |
| Client.CookieTrail | internal/api115/snap.go:177-186 | No cookie follows to another proxy; to the same one go those the store has just been given, or else the same as before. |

## Left out

- HTTP, JSON, cookies on the wire, SQL, Bleve, the file system, configuration, logging, the admin server and metrics: I/O. What a lister, provider, validator or store call answers is a parameter; only what others do to the store meanwhile is left open.
- Crawler.Crawler.CrawlShare: errors are told apart by class only, and those of the store are one class; page size and the pages themselves are fixed for a share. The duplicate query's answer is a parameter, because it reads other shares' rows; the query itself is SizeDedup.FindDuplicateShare.
- CrawlHistory.InterruptionInvisible: says nothing of crawl times, which do change; Crawler.Crawler.CrawlShare states which rows are stamped.
- FleetRetry.EmptyDataBound: one receive code for each share code, so that the WHERE clauses on the share code meet one row.
- FleetLife.LifecycleInvariant: likewise, and without resets of shares listed with three failures before their outcome is recorded; FleetLife.StepKeepsLife has the exact condition.
- Fleet.TraceIsRun: a crawl's calls between two checkpoints may be one event, and so may be the two statements per share of the size clean-up.
- Scheduler.Scheduler.UpsertShare: registers a share as ACTIVE with nothing recorded, as every caller does; the statement itself would write other values too.
- Scheduler.Scheduler.RunOnce: others interfere between its own store calls, but not inside CrawlShare's calls on one share; the machine in Fleet has no such limit.
- Scheduler.Scheduler.RunLoop: runs for a given number of turns in place of a context; sleeping and parking take no time.
- Client.ListClient.List: without fresh, lasting proxies and a fatal threshold its loop ends only with the context, so such a call is given a turn at which the context ends.
- SizeDedup.PlanBySize: counting a loser's files always works; the program takes a count that fails for zero.
- Titles.PlanMakesDistinct: share codes unique, as renames match on the code alone; so also the theorems of SizeDedup.
- DocPlanner.PlanDocs: share and file id identify a row, the primary key of the file table; the episode marker is any predicate on names, but not true of the empty name, as in its regular expression.
- Media extensions, share identifiers in URLs, and SQL's TRIM where it differs from Go's: a predicate, a parsed code, and one trim.
- Which share a duplicate repeats is recorded by the scheduler but nothing more is proved about it there; an upsert does not clear it.
- Export, pruning, migrations, orphan clean-up on demand, the manifest and the shell tooling: they would add only easy members.
