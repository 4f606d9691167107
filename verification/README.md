# A verified model of the board mirror, its protocol and its analyst

The system mirrors a web board, answers queries about the mirrored articles over a hand-written binary protocol, and
recommends articles. Its parts are an L2 miner (store, cache, crawler) in Python, an analysis server in C++, and a
Python client. This project models the parts where correctness is hard and proves what they promise.

* **Miner.** `Urls` and `UrlText` say how addresses are ordered and how stub addresses are made up; numbers are doubled,
  because a stub counts half a unit less than the address it is made from. `MinerStore` is the store, `CacheWindow` and
  `DocumentCache` the sliding-window cache with its address index, `CacheInterleaving` the same cache and store under
  any schedule of atomic steps of any number of threads, `RealBackend` the range queries, and `MinerQueries` these
  queries from the store to what a C++ client loads. `BoardSearch`, `BoardMirror` and `BoardListener` search the paged
  listing, hand out addresses and ids, and fill the store; `MirrorRace` lets two mirroring threads, of one round or of
  two, and the refresher write at the same time, and `MirrorFailures` has boards on which a round goes wrong.
  `RefreshSchedule` is the schedule of re-fetching.
* **Options.** `OptionTree`, `OptionIterator`, `OptionNames`: the iterator with an explicit stack against a recursive
  flattening, and dotted names against look-up.
* **Protocol.** `Utf8`, `Wire`, `Messages`, `MessageRoundTrip`, `CppDumps` for both codecs, `MessageLayout` for what
  stands where in the bytes, `Framing` for packages over streams that are cut anywhere, for the two servers and the client; `Conversation` has both sides take turns, one step at
  a time.
* **Analyst.** `Sanitizer`, `TermCounts`, `Recommendation`, `ContentAnalysis`.
* **Arguments.** `ArgumentParser`.

Objects that change in place are classes or methods over arrays, proved against functions on values; what the system
promises is then proved about those functions. The listing of a board is a fixed sequence of pages of addresses, the
store a map from ids to documents, the web a function from an address and a fetch number to an article (so two fetches
may differ), handlers and backends functions of what has happened before. `draws` are the random choices of the page
search and `cut` decides where a stream is cut; every result holds for all of them.

Some promises fail for the code as it is. For these the project states exactly when the code keeps them, and gives an
input on which it does not:

* The listener fills old documents from the last page although it has found page p
  (`src/miner/modules/l2_miner/board_listener.py:165`): `BoardMirror.StartingFromLastPageIff`, and
  `MirrorFailures.OldestStoredAgain` for a board of two pages.
* A generator that runs out repeats one stub, so two documents can share an address:
  `BoardMirror.FetchNewKeepsOwnAddressesIff`, `MirrorFailures.SharedStub`. Emptying cache slots can then fail at
  `src/miner/modules/l2_miner/cache.py:183`, in a flush or in a look-up: `CacheWindow.FlushSucceedsIff`,
  `CacheWindow.InsertSucceedsIff`, `CacheWindow.SharedStubFails`. What does not depend on addresses of one's own, that
  the cache agrees with the store, is proved without them.
* An over-estimate when nothing is newer fills the new ids with an address that has no number:
  `BoardListener.NoNewerStoresUnnamed`, `MirrorFailures.NumberlessDocuments`.
* Filling a gap can break the order that the look-up by address relies on: `BoardListener.FillRunKeepsOrderIff`,
  `BoardListener.ProperFillKeepsOrderIff`, `MinerStore.ScanIsExhaustiveIff`, `MirrorFailures.GapFilledOutOfOrder`.
* A look-up by address can answer differently with the cache than without it, on a store that is out of order:
  `DocumentCache.DirectFindsIff` and the contract of `DocumentCache.Cache.GetIdByUrl` say exactly when they agree,
  `DocumentCache.IndexKnowsMore` has a store of two documents.
* A new round starts threads while those of an earlier one still run
  (`src/miner/modules/l2_miner/board_listener.py:105-119`, `src/miner/modules/l2_miner/board_listener.py:182-194`), and
  looking whether an id is free and writing it are separate steps. A stored id can then change its address:
  `MirrorRace.AddressChangesIff`, `MirrorRace.AlwaysSequentialIff`, `MirrorRace.TwoFirstDocuments`, and
  `MirrorRace.OverlappingRounds` for two rounds on a board of three pages.
* The estimate of newer addresses can fall short when pages hold more than twenty; then only the newest of them are
  stored: `BoardListener.FetchRun`, `BoardListener.AllStoredIff`.
* A board whose name occurs in the server's address or in `/bbs/` has no readable numbers:
  `UrlText.CompareNumReadsIff`, `UrlText.BbsIsUnreadable`.
* The documents of an author are answered by an iterator that has no length
  (`src/miner/modules/l2_miner/real_backend.py:48`), and packing takes its length
  (`src/miner/modules/protocol/net.py:88`): queries of type 0x400 to this backend raise and are never answered,
  `MinerQueries.AuthorQueryIsUnanswered`. What the iterator would yield is `RealBackend.GetDocMetaDataOfAuthor`.
* A look-up's read and its insertion are separate steps, so a flushed version can come back and stay:
  `CacheInterleaving.EveryRunIsFreshIff`, `CacheInterleaving.StaleVersionCanStay`.
* The query for documents after a time stops at the first older one: `RealBackend.AfterTimeIsCompleteIff`,
  `RealBackend.AfterTimeMisses`.
* Look-up of a dotted name takes every segment from the beginning of the name
  (`src/article_analysis/utils/options.h:282`): `OptionNames.GetOptionFindsIff`, `OptionNames.DeepNameIsLost`.
* Times are unsigned in Python and signed in C++: `MessageRoundTrip.TimeIsKeptIff`. The times the crawler stores are all
  kept (`MessageRoundTrip.CrawledTimeIsKept`); the time in a C++ client's query is read as itself exactly when it is not
  negative (`MessageRoundTrip.QueryTimeIff`).
* A handler that is not to be called for an unset option is not called either when the default value is given
  outright, which the documentation does not say: `ArgumentParser.HandlerUncalledIff`,
  `ArgumentParser.DefaultGivenOutright`.

A page search can end one past the last page (`src/miner/modules/l2_miner/board_listener.py:254`); that page is treated
as empty.

## Model

| member | source | states |
|---|---|---|
| RefreshSchedule.WindowIsLargestPowerDividing | src/miner/modules/l2_miner/cache.py:59 | `a & -a` is at least 2^k exactly when 2^k divides a, so it is the largest power of two dividing a |
| RefreshSchedule.WideWindowExactly | src/miner/modules/l2_miner/cache.py:54-59 | over endless passes, wrapping included, wake-up t asks for at least 2^k periods exactly when 2^k divides t + 1 |
| RefreshSchedule.ExactlyOneWideWindow | src/miner/modules/l2_miner/cache.py:54-59 | any 2^k consecutive wake-ups contain exactly one that asks for at least 2^k periods |
| RefreshSchedule.PassCost | src/miner/modules/l2_miner/cache.py:56-59 | one pass of 2^n wake-ups requests 2^(n-1)(n+2) periods in all |
| RefreshSchedule.PassOfTheNotifier | src/miner/modules/l2_miner/cache.py:42-59 | the running notifier's pass of 1024 wake-ups requests 6144 periods |
| RefreshSchedule.CacheUpdateNotifier.Run | src/miner/modules/l2_miner/cache.py:54-59 | whenever it is stopped, there is one new callback for each wake-up so far: for a power of two periods, in wake-up t for at least 2^k of them exactly when 2^k divides t + 1, and for 6144 periods in any 1024 wake-ups |
| Urls.StubIsOlder | src/miner/modules/l2_miner/board_listener.py:47-55 | a stub's number is below the number of the address it is made from, by half a unit for an article's address |
| UrlText.CompareNumReadsIff | src/miner/modules/l2_miner/board_listener.py:131-138 | from the text of any article or stub address, with or without the server, the listener reads the number that orders it exactly when the board's name does not occur earlier in the text; otherwise it reads none |
| UrlText.BbsIsUnreadable | src/miner/modules/l2_miner/board_listener.py:131-138 | no address of a board named `bbs` can be read |
| UrlText.StubTextIsStub | src/miner/modules/l2_miner/board_listener.py:47-52 | cutting eleven characters and appending the mark gives the text of the stub, also for the stub of a stub |
| MinerStore.Storage.NewestDoc | src/miner/modules/l2_miner/storage.py:38-41 | no stored document has a larger id than the one answered; there is none exactly for an empty store |
| MinerStore.Storage.OldestDoc | src/miner/modules/l2_miner/storage.py:43-55 | the first document of the unbroken run of ids that ends at the newest; none exactly when no id is missing |
| MinerStore.Storage.AddDoc | src/miner/modules/l2_miner/storage.py:61-66 | stores a fresh fetch under a free id and changes nothing else; the document has, field by field, the text, replies, title, author, time, board and counters fetched from its address, and the id; refuses exactly a taken id, without fetching |
| MinerStore.Storage.UpdateDoc | src/miner/modules/l2_miner/storage.py:120-134 | one fetch, stored under the id field by field, with the largest id kept up to date |
| MinerStore.Storage.UpdateAfterTime | src/miner/modules/l2_miner/storage.py:68-87 | exactly the documents above the newest too-old one are fetched again, each holds a fetch from its own address field by field, the others are as they were, and the interval answered covers all re-fetched ones |
| MinerStore.Storage.GetDocByUrl | src/miner/modules/l2_miner/storage.py:104-118 | the loop is the early-exit scan from the newest id down |
| MinerStore.ScanIsExhaustiveIff | src/miner/modules/l2_miner/storage.py:104-118 | the early exit gives the exhaustive answer exactly when no smaller number lies above the newest document with the number |
| MinerStore.ScanOnSortedStore | src/miner/modules/l2_miner/storage.py:104-118 | on a store whose numbers do not decrease with the id, holes allowed, every stored number is found |
| CacheWindow.CleanEntryKeeps | src/miner/modules/l2_miner/cache.py:180-184 | emptying a slot keeps window and index in order and forgets only that slot; it does not fail when ids have addresses of their own |
| CacheWindow.ShrinkKeeps | src/miner/modules/l2_miner/cache.py:174-178 | shrinking drops the oldest slots only, down to the size |
| CacheWindow.FlushKeeps | src/miner/modules/l2_miner/cache.py:129-132 | a flush forgets exactly the ids of the interval and cannot fail when no two ids share an address |
| CacheWindow.InsertKeeps | src/miner/modules/l2_miner/cache.py:149-172 | caching keeps length, slots and index right, never invents a document, always caches an id less than the cache size below the newest, and otherwise leaves the cache as it was |
| CacheWindow.InverseFromDistinct | src/miner/modules/l2_miner/cache.py:171-183 | with one address per id, a sound and complete index is the exact inverse of the filled slots |
| CacheWindow.CleanRangeSucceedsIff | src/miner/modules/l2_miner/cache.py:130-132 | emptying a range of slots succeeds exactly when their addresses are indexed and pairwise different |
| CacheWindow.ShrinkSucceedsIff | src/miner/modules/l2_miner/cache.py:174-178 | dropping the oldest slots succeeds exactly when those dropped can be emptied |
| CacheWindow.InsertSucceedsIff | src/miner/modules/l2_miner/cache.py:149-172 | caching fails exactly when a move forward gives up slots that cannot be emptied |
| CacheWindow.FlushSucceedsIff | src/miner/modules/l2_miner/cache.py:129-132 | a flush fails exactly when the slots of its interval cannot be emptied |
| CacheWindow.SharedStubFails | src/miner/modules/l2_miner/cache.py:180-184 | three documents, two under one address: flushing the two fails, and so does a later look-up |
| DocumentCache.Cache.ShrinkCacheSize | src/miner/modules/l2_miner/cache.py:174-178 | the loop is the shrinking of the window |
| DocumentCache.Cache.CacheDocIfOk | src/miner/modules/l2_miner/cache.py:149-172 | the method is the insertion into the window, also where it fails half-way |
| DocumentCache.Cache.FlushInterval | src/miner/modules/l2_miner/cache.py:129-132 | the loop is the flush of the window |
| DocumentCache.Cache.SafeGetDocById | src/miner/modules/l2_miner/cache.py:134-147 | as long as the cache agrees with the store a read by id gives the stored document up to the board and the agreement lasts, whether or not documents share an address; the read fails exactly when caching gives up slots that cannot be emptied, never on a healthy cache |
| DocumentCache.Cache.GetIdByUrl | src/miner/modules/l2_miner/cache.py:112-121 | agreement lasts; an address in the index is that of the id answered, and that answer is the store's own exactly when the document is the newest with its number and none above it has a smaller one; an address not in the index is answered as by the store |
| DocumentCache.DirectFindsIff | src/miner/modules/l2_miner/storage.py:104-118 | the store finds a document's own id by its address exactly on that condition |
| DocumentCache.IndexKnowsMore | src/miner/modules/l2_miner/cache.py:112-121 | two documents with distinct numbers out of order: the index of a cache in agreement leads to the first, the store finds nothing |
| DocumentCache.DirectFinds | src/miner/modules/l2_miner/storage.py:104-118 | on a sorted store with distinct numbers, looking an address up finds its own id |
| DocumentCache.Cache.UpdateNearestDocs | src/miner/modules/l2_miner/cache.py:123-132 | re-fetches exactly the documents above the cut and flushes an interval that covers them, so if the flush does not fail agreement lasts; it fails exactly when slots of the interval cannot be emptied |
| DocumentCache.Cache.AddDoc | src/miner/modules/l2_miner/cache.py:89-90 | storing a document leaves the cache alone and in agreement, whatever its address; healthy when the address is new |
| DocumentCache.Cache.SetBoard | src/miner/modules/l2_miner/real_backend.py:79-81 | writing the board into a cached document keeps agreement and health and changes nothing else |
| CacheInterleaving.StepKeeps | src/miner/modules/l2_miner/cache.py:112-172 | every atomic step of every thread, the index miss and the start of the scan being two, keeps the invariant of window, index, pending reads and answers |
| CacheInterleaving.EveryInterleavingIsSound | src/miner/modules/l2_miner/cache.py:112-172 | in every interleaving the window is well formed, the index is its exact inverse when ids have addresses of their own, a document returned has the id and address asked for and is a version the store held, a located id has the number asked for, an address is missed only if nothing stored at the call had its number, and errors come from shared addresses only |
| CacheInterleaving.StepFreshIff | src/miner/modules/l2_miner/cache.py:112-172 | a step keeps everything current or still to be flushed exactly when it is not a flush that succeeds while an outdated version of a flushed id is still to be inserted |
| CacheInterleaving.FreshThroughoutIff | src/miner/modules/l2_miner/cache.py:123-147 | from any such state, the cache and all calls hold only versions current or still to be flushed throughout a schedule exactly when every step of it is harmless |
| CacheInterleaving.EveryRunIsFreshIff | src/miner/modules/l2_miner/cache.py:123-147 | the same for every run of the program from its start |
| CacheInterleaving.StaleVersionCanStay | src/miner/modules/l2_miner/cache.py:134-147 | a schedule after which the store holds a new version, nothing is pending, and the cache serves the old one |
| CacheInterleaving.LoneRead | src/miner/modules/l2_miner/cache.py:134-147 | with no other thread in between, the steps of a call by id leave the window and give the answer of the sequential cache |
| CacheInterleaving.LoneLookUp | src/miner/modules/l2_miner/cache.py:112-121 | so do those of a call by address, scan included |
| CacheInterleaving.BackgroundSteps | src/miner/modules/l2_miner/real_backend.py:79-81 | a write stores the article under the id field by field, a board goes into one cached document, and nothing else changes |
| RealBackend.GetDocMetaDataAfterId | src/miner/modules/l2_miner/real_backend.py:28-35 | the metadata of all documents from the id on, oldest first, with the board filled in, whatever is cached and whatever addresses are shared; an error exactly when the look-up of the newest document fails |
| RealBackend.GetDocMetaDataAfterTime | src/miner/modules/l2_miner/real_backend.py:37-44 | the metadata above the newest document posted before the time, oldest first; an error exactly when the look-up of the newest document fails |
| RealBackend.GetDocMetaDataOfAuthor | src/miner/modules/l2_miner/real_backend.py:46-48 | what the iterator it returns would yield: the metadata of the author's documents, oldest first; an error exactly when the look-up of the newest document fails |
| RealBackend.MetasBetweenAt | src/miner/modules/l2_miner/real_backend.py:28-44 | such an answer has consecutive ids, each with its stored metadata and the board asked for |
| RealBackend.AuthorsDocuments | src/miner/modules/l2_miner/real_backend.py:46-48 | what an author's query selects are exactly the stored documents with that author, by increasing id |
| RealBackend.AfterTimeIsCompleteIff | src/miner/modules/l2_miner/real_backend.py:37-44 | the answer holds exactly the documents posted since the time if and only if nothing below the newest too-old one was posted since |
| RealBackend.AfterTimeMisses | src/miner/modules/l2_miner/real_backend.py:37-44 | two documents with post times out of order: one posted since the time is not answered |
| MinerQueries.HandleMetaDataQuery | src/miner/modules/server.py:84-98 | the delegator in front of a board's cache answers a metadata query as the delegator in front of the store does, unless the look-up of the newest document fails |
| MinerQueries.MetasAreLoaded | src/article_analysis/miner/miner.cc:172-190 | the client accepts the packed answer and loads the metadata packed |
| MinerQueries.MetaDataComesBack | src/miner/modules/server.py:84-98 | over both streams, a C++ client loads from the k-th reply exactly the documents selected from the store as it was at the k-th query, in order, with the stored title, author, ids, time and counters and the board asked for |
| MinerQueries.EachSelectedDocument | src/miner/modules/l2_miner/real_backend.py:28-44 | the i-th of them has the title and author of the i-th document selected in UTF-8, the board asked for, and the stored ids, time and counters where these are in range |
| MinerQueries.AuthorQueryIsUnanswered | src/miner/modules/server.py:100-106 | a well-formed query for an author's documents gets no reply, nor does anything after it |
| BoardSearch.GetPageContainUrlNum | src/miner/modules/l2_miner/board_listener.py:228-257 | for any holes and any probes, the page found has only older addresses before it and only newer ones after it, and is the page that holds the target if one does; the search ends without choices when there are no holes, and with choices of 0 always |
| BoardSearch.EstimateIsExactOrSafe | src/miner/modules/l2_miner/board_listener.py:216-226 | within fifty pages of the end the estimate is the number of newer addresses; further away it exceeds it by exactly the room left on the pages, so it is safe when pages hold at most twenty |
| BoardSearch.EstimateNumUrlsBetween | src/miner/modules/l2_miner/board_listener.py:216-226 | the method's estimate is that of the page found, exact within fifty pages of the end and safe on small pages |
| BoardSearch.GetMaxPageIdx | src/miner/modules/l2_miner/board_listener.py:202-214 | finds the last of N available pages with exactly 2 floor(log2 N) + 2 checks, and one check when there is none |
| BoardMirror.UrlGenerator.Next | src/miner/modules/l2_miner/board_listener.py:43-55 | each call hands out the next address of the listing read from the end, or the stub, over empty pages |
| BoardMirror.HandedIsNewerThenStubs | src/miner/modules/l2_miner/board_listener.py:43-55 | when newer addresses come first, exactly they are handed out in order, then one constant stub for ever |
| BoardMirror.BoardSplits | src/miner/modules/l2_miner/board_listener.py:43-55 | a sorted board read from the end is descending, and the newer addresses are its first ones, as many as are counted page by page |
| BoardMirror.UpdateThread.Run | src/miner/modules/l2_miner/board_listener.py:71-82 | a lone run stores what the generator hands out under falling ids until an id is taken or ids run out |
| BoardMirror.StoreDownFills | src/miner/modules/l2_miner/board_listener.py:71-82 | such a run fills exactly the free ids below its start, in turn, and touches nothing else |
| BoardMirror.FetchNewStores | src/miner/modules/l2_miner/board_listener.py:140-155 | with newer addresses and an estimate n, the newest n of them get the top ids in order, the ids below, if there are fewer, the stub, and old ids are unchanged |
| BoardMirror.FetchNewKeepsOrder | src/miner/modules/l2_miner/board_listener.py:140-155 | afterwards stored numbers still do not decrease with the id |
| BoardMirror.FetchNewKeepsOwnAddressesIff | src/miner/modules/l2_miner/board_listener.py:43-52 | no two documents share an address afterwards exactly when no stub was used, or one stub that was new |
| BoardMirror.OldPendingIsAllOlder | src/miner/modules/l2_miner/board_listener.py:157-165 | started from the page found, the generator has before it every address older than the oldest document, newest first |
| BoardMirror.StartingFromLastPageIff | src/miner/modules/l2_miner/board_listener.py:162-165 | started from the last page instead, as the code does, that holds exactly when all pages in between are empty |
| BoardListener.RunFetchNewDocs | src/miner/modules/l2_miner/board_listener.py:140-155 | with p the page found, the estimate is the number of newer addresses when p is within fifty pages of the end, and safe on small pages; the store is what the run from the last page makes of it, unchanged when nothing is to be fetched |
| BoardListener.FetchRun | src/miner/modules/l2_miner/board_listener.py:140-155 | that store has ids d+1 to d+n, with the newest n of the newer addresses on top in order and stubs below, and is still sorted; addresses without numbers when nothing is newer |
| BoardListener.AllStoredIff | src/miner/modules/l2_miner/board_listener.py:216-226 | newer addresses that differ from each other are all stored exactly when the estimate is not below their number |
| BoardListener.NoNewerStoresUnnamed | src/miner/modules/l2_miner/board_listener.py:47-52 | an over-estimate with nothing newer stores an address without a number under every new id |
| BoardListener.RunFillOldDocs | src/miner/modules/l2_miner/board_listener.py:157-167 | fills below the oldest document of the newest unbroken run, exactly when an id is missing, with a separating page found |
| BoardListener.FillRun | src/miner/modules/l2_miner/board_listener.py:157-167 | the run fills every free id below the oldest document, with what is older on page p, then the pages below the last one, then one stub for ever; that is every older address, newest first, exactly when the pages in between are empty |
| BoardListener.FillKeepsOrderIff | src/miner/modules/l2_miner/board_listener.py:157-167 | a fill keeps every number readable and in order exactly when the addresses handed out have numbers, do not get newer on the way down, and the last is not older than the document below the gap |
| BoardListener.FillRunKeepsOrderIff | src/miner/modules/l2_miner/board_listener.py:157-167 | the same for the store the program leaves, in terms of the listing and the store before the run |
| BoardListener.ProperFillKeepsOrderIff | src/miner/modules/l2_miner/board_listener.py:157-167 | with nothing between page p and the last page, that store is in order exactly when the stub, if one is used, has a number and the last address is not older than the document below the gap |
| MirrorFailures.NumberlessDocuments | src/miner/modules/l2_miner/board_listener.py:216-226 | a board that ends in more than fifty deserted pages: nothing is newer, and twenty documents a page are stored without a number |
| MirrorFailures.SharedStub | src/miner/modules/l2_miner/board_listener.py:43-52 | the same board with one newer address: documents 1 and 2 get the same stub |
| MirrorFailures.OldestStoredAgain | src/miner/modules/l2_miner/board_listener.py:162-165 | a board of two pages on which filling stores the oldest stored address a second time |
| MirrorFailures.GapFilledOutOfOrder | src/miner/modules/l2_miner/board_listener.py:157-167 | a store with one id missing that a fill leaves out of order |
| MirrorRace.EveryRaceStores | src/miner/modules/l2_miner/board_listener.py:71-82 | two threads with any ids to fill, an id check and a write of their own each, and the refresher, in any interleaving: once both have stopped, exactly the ids they were to fill are filled, each under an address one of them had for it, and older ones are unchanged |
| MirrorRace.AddressChangesIff | src/miner/modules/l2_miner/storage.py:61-66 | in some run the address stored under an id changes, exactly when both threads are to fill it, under different addresses |
| MirrorRace.EveryRaceIsSequential | src/miner/modules/l2_miner/board_listener.py:71-82 | when no id is to be filled by both under different addresses, every complete run leaves the addresses of the two threads run one after the other |
| MirrorRace.AlwaysSequentialIff | src/miner/modules/l2_miner/board_listener.py:71-82 | and only then does every complete run do so |
| MirrorRace.EveryRaceEnds | src/miner/modules/l2_miner/board_listener.py:71-82 | whatever ids they share, a thread that has not stopped can always go on, and the two take at most three steps a document and two more each |
| MirrorRace.RoundIsSequential | src/miner/modules/l2_miner/board_listener.py:107-113 | the two threads of one round share no id, so at work together they leave the addresses of a run that fetches first and then fills |
| MirrorRace.TwoFirstDocuments | src/miner/modules/l2_miner/storage.py:61-66 | two threads at id 0 of an empty store: five steps store one address, the sixth replaces it by the other |
| MirrorRace.OverlappingRounds | src/miner/modules/l2_miner/board_listener.py:105-119 | a board of three pages on which a round that begins while another fetches fills the same id under another address |
| OptionIterator.NextStateKeeps | src/article_analysis/utils/options.cc:132-166 | a change of state either leaves the rest of the walk as it is and comes closer to the end, or rests at the next node; the top is then never iterating collections |
| OptionIterator.Iterator.constructor | src/article_analysis/utils/options.cc:48-52 | a new iterator shows the first value of the flattened tree |
| OptionIterator.Iterator.Advance | src/article_analysis/utils/options.cc:91-97 | advancing ends and shows the next of the values left, or the end |
| OptionIterator.Iterator.GoNextStateIfNeed | src/article_analysis/utils/options.cc:132-166 | the method is one change of state |
| OptionIterator.Iterator.SetupCurrValue | src/article_analysis/utils/options.cc:168-190 | shows the dotted name and node of the top entry, or the end |
| OptionIterator.Visit | src/article_analysis/utils/options.cc:91-190 | a range loop visits exactly the recursive flattening, in order, with or without the collections |
| OptionNames.ResolveFinds | src/article_analysis/utils/options.h:278-300 | segment by segment, every yielded name leads back to its node, at any depth |
| OptionNames.YieldedIff | src/article_analysis/utils/options.cc:91-190 | what the iterator yields are exactly the nodes segment-wise look-up finds, under the names by which it finds them |
| OptionNames.LeavesOnlyAreLeaves | src/article_analysis/utils/options.cc:132-166 | without the collections, exactly the leaves are yielded, in the same order |
| OptionNames.OptionsComeFirst | src/article_analysis/utils/options.cc:132-166 | the options of a collection come first, in the order of their map |
| OptionNames.ContentsFollow | src/article_analysis/utils/options.cc:132-166 | then its sub-collections in order, each followed at once by everything below it |
| OptionNames.NamesAreDistinct | src/article_analysis/utils/options.cc:15-17 | all names yielded are different |
| OptionNames.GetOptionIsResolveIff | src/article_analysis/utils/options.h:278-300 | the look-up as written is segment-wise for at most one dot and finds nothing for more |
| OptionNames.GetOptionFindsIff | src/article_analysis/utils/options.h:278-300 | a yielded name is found again as written exactly when it has at most one dot |
| OptionNames.DeepNameIsLost | src/article_analysis/utils/options.h:278-300 | a tree of three levels whose leaf is yielded as `a.b.c` and not found |
| OptionNames.EnsureNameValid | src/article_analysis/utils/options.h:302-307 | accepts exactly non-empty names of letters, digits and underscores |
| OptionNames.AOptionCollection.AddOption | src/article_analysis/utils/options.h:250-272 | adds exactly a valid free name; it is then found, other names as before, and names stay valid and unique |
| Utf8.DecodeEncode | src/miner/modules/protocol/net.py:68-81 | decoding undoes encoding, for every text without surrogates |
| Utf8.EncodeDecode | src/miner/modules/protocol/net.py:75-81 | whatever decodes is the encoding of the result, so overlong forms, surrogates and stray bytes are refused |
| Wire.FromToLE | src/miner/modules/protocol/net.py:103-129 | a number in range is read back from its little-endian bytes |
| Wire.ToFromLE | src/article_analysis/protocol/net.h:91-109 | bytes are the only encoding of the number read from them |
| Wire.StringWhereRead | src/miner/modules/protocol/net.py:75-81 | where Python reads a string, its packing stands |
| Wire.ArrayReadsBack | src/miner/modules/protocol/net.py:84-100 | an array of elements that read back reads back, at any offset in any buffer |
| Wire.UnpackArray | src/article_analysis/protocol/net.h:256-269 | the loop reads the count and then that many elements, or fails |
| MessageRoundTrip.IdentityReadsBack | src/miner/modules/protocol/types.py:85-94 | a packed identity is read back by Python as itself and by C++ field for field, with the offset just past it |
| MessageRoundTrip.ReplyReadsBack | src/article_analysis/protocol/types.h:138-151 | a reply message packed by Python is loaded by C++ field for field |
| MessageRoundTrip.MetaDataReadsBack | src/article_analysis/protocol/types.h:190-195 | metadata packed by Python is loaded by C++ field for field |
| MessageRoundTrip.TimeIsKeptIff | src/article_analysis/protocol/types.h:190-195 | the time C++ loads from packed metadata is the one packed exactly when that is below 2^63 |
| MessageRoundTrip.CrawledTimeIsKept | src/miner/modules/l2_miner/crewer.py:20-60 | every time the crawler stores, at most 2^60, is loaded as it is |
| MessageRoundTrip.QueryTimeIff | src/article_analysis/miner/miner.cc:83-87 | a C++ query by time is accepted by the miner, which reads the board as it is and the time as itself exactly when it is not negative |
| MessageRoundTrip.RealDataReadsBack | src/article_analysis/protocol/types.h:215-217 | content and replies packed by Python are loaded by C++ through nested arrays and strings |
| MessageRoundTrip.MetaDataArrayReadsBack | src/article_analysis/protocol/net.h:245-270 | the array that answers a metadata query is loaded whole by C++ |
| MessageRoundTrip.RelInfoReadsBack | src/miner/modules/protocol/types.py:113-133 | the analyst's answer packed by Python is read back by both sides |
| MessageRoundTrip.CppAcceptsIff | src/article_analysis/server/server.cc:82-87 | C++ accepts a query body exactly when it is the dump of the identity it yields |
| MessageRoundTrip.ArgumentsAcceptedIff | src/miner/modules/server.py:56-76 | an argument buffer is accepted exactly when it is the packing of the arguments it yields: truncated and over-long ones are refused and the encoding is canonical |
| MessageRoundTrip.UnpackArgsBuf | src/miner/modules/server.py:56-76 | the loop reads the arguments up to the very end of the buffer, or fails |
| MessageLayout.LittleEndianByte | src/miner/modules/protocol/net.py:103-129 | byte i of a packed number is its digit i to the base 256 |
| MessageLayout.EncodedExamples | src/miner/modules/protocol/net.py:68-81 | the encodings of four characters of one to four bytes, which are examples of section 7 of RFC 3629 |
| MessageLayout.StringLayout | src/miner/modules/protocol/net.py:68-73 | a packed string is its length in eight bytes, then its UTF-8 |
| MessageLayout.FrameLayout | src/miner/modules/protocol/net.py:48-65 | a framed package is its type in four bytes, the length of its body in eight, then the body |
| MessageLayout.IdentityLayout | src/miner/modules/protocol/types.py:85-88 | board, then id |
| MessageLayout.ReplyLayout | src/miner/modules/protocol/types.py:29-32 | mode, user, message |
| MessageLayout.MetaDataLayout | src/miner/modules/protocol/types.py:63-71 | id, previous id, title, author, time, board and the three counters, to the end of the bytes |
| MessageLayout.RelInfoLayout | src/miner/modules/protocol/types.py:120-123 | the positive, then the negative, then the neutral identities |
| MessageLayout.ReplyFields | src/article_analysis/protocol/types.h:138-151 | C++ has the mode, and user and message in UTF-8, each in its field |
| MessageLayout.RealDataFields | src/article_analysis/protocol/types.h:215-217 | C++ has the content in UTF-8 and every reply in order, field by field |
| MessageLayout.RelInfoFields | src/article_analysis/protocol/types.h:124-126 | C++ has each of the three lists, board and id of every identity |
| CppDumps.DumpVector | src/article_analysis/protocol/net.h:247-254 | the loop appends the count and the elements' dumps in order |
| CppDumps.SameRelInfo | src/article_analysis/protocol/types.h:124-126 | C++ dumps exactly the bytes Python packs for the same answer |
| CppDumps.AnswerReachesPython | src/miner/modules/protocol/types.py:125-133 | an answer dumped by C++ is read by Python as the answer it stands for, anywhere in any buffer |
| Framing.NextPackageReadsBack | src/miner/modules/protocol/net.py:48-65 | a framed package is read back whatever follows it |
| Framing.PackagesReadBack | src/miner/modules/server.py:212-239 | the packages read from a stream are the packages written, also while the next one is incomplete |
| Framing.Connection.RecvAll | src/article_analysis/server/server.cc:131-150 | receives exactly the bytes wanted however the stream is cut; fails exactly when the stream is shorter |
| Framing.Connection.SendAll | src/article_analysis/server/server.cc:152-162 | all bytes are sent in order however few each send takes |
| Framing.Connection.RecvPackage | src/miner/modules/server.py:212-239 | receives the next package of the stream and leaves the rest; fails at the end of the stream, and waits for ever exactly when the stream ends inside a body |
| Framing.Connection.SendPackage | src/miner/modules/server.py:241-255 | sends the framed package whole |
| Framing.RunHandler | src/miner/modules/server.py:188-206 | wherever the stream is cut and ends, the connection sends exactly the framed replies to its packages, up to the first that cannot be handled |
| Framing.ReceiveReply | src/app_server/modules/proxy_client.py:59-84 | header, then body: the next package, or an error when it is incomplete |
| Framing.AskAll | src/app_server/modules/proxy_client.py:37-84 | a client that asks one query after the other reads the packages of its stream in order and sends all its queries framed |
| Framing.HandledIff | src/miner/modules/server.py:41-76 | a query is answered with r exactly when its body is the packing of arguments of the kinds its type takes, the backend answers them with the body of r, and r has the query's type with the reply bit set |
| MessageLayout.DispatchedIff | src/miner/modules/server.py:41-148 | the same type by type: which arguments each of the eight query types takes, and no other type is answered |
| Framing.MinerAnswersComeBack | src/miner/modules/server.py:41-255 | a client of the miner reads, for its k-th query, the backend's answer to exactly that query and its arguments, under the query's type with the reply bit set |
| Framing.AnalystAnswersIff | src/article_analysis/server/server.cc:71-91 | the C++ server answers exactly the queries whose type is right and whose body is the dump of an identity |
| Framing.ServeAnalyst | src/article_analysis/server/server.cc:56-97 | a connection of the C++ server sends exactly the framed replies to its stream up to the first error, also when the stream ends inside a body |
| Framing.RepliesReachTheClient | src/miner/modules/server.py:188-255 | over both streams, the k-th reply the client reads is the handler's answer to its k-th query |
| Framing.AnswersComeBack | src/app_server/modules/proxy_client.py:37-84 | a Python client that asks the C++ server about documents reads, for the k-th of them, the answer for exactly that document |
| Conversation.StepKeeps | src/app_server/modules/proxy_client.py:37-84 | every step of client, server and network keeps this: what is on its way to each side, at whatever stage, are the framed queries not yet answered and the framed replies not yet taken |
| Conversation.EveryReplyIsDue | src/miner/modules/server.py:188-255 | at every moment of every run the k-th reply the client has taken is the handler's answer to its k-th query |
| Conversation.EveryRunFinishes | src/miner/modules/server.py:188-255 | no run goes on for ever, and one that cannot go on has given the client the answer to every query, or to every one before the first that cannot be handled |
| Sanitizer.SanitizeContent | src/article_analysis/analyst/impl_/tf_idf_analyst_content.cc:288-304 | in place, the front of the text becomes the cleaned text |
| Sanitizer.SanitizeByLines | src/article_analysis/analyst/impl_/tf_idf_analyst_content.cc:288-304 | lines are cleaned one by one; a line with a colon loses everything from it on, its end included |
| Sanitizer.SanitizeLastLine | src/article_analysis/analyst/impl_/tf_idf_analyst_content.cc:298-300 | so does a last line without an end |
| Sanitizer.UnchangedIffClean | src/article_analysis/analyst/impl_/tf_idf_analyst_content.cc:288-304 | a text is left as it is exactly when it has no skipped character and no colon |
| Sanitizer.SanitizeTwice | src/article_analysis/analyst/impl_/tf_idf_analyst_content.cc:288-304 | cleaning twice is cleaning once |
| TermCounts.CountAll | src/article_analysis/analyst/impl_/tf_idf_analyst_content.cc:122-170 | after the first pass the word map is a bijection onto 0 to n-1 over exactly the words that occur, with each word's total and document frequency at its number |
| TermCounts.CountWords | src/article_analysis/analyst/impl_/tf_idf_analyst_content.cc:141-154 | one article's words are added to the table, and the marks are exactly its words |
| TermCounts.RemoveStopWords | src/article_analysis/analyst/impl_/tf_idf_analyst_content.cc:173-181 | exactly the words in more than 2 and fewer than 20 articles remain, numbered anew one to one, with their counts |
| TermCounts.SelectedExactly | src/article_analysis/analyst/impl_/tf_idf_analyst_content.cc:173-181 | a word remains exactly when 3 to 19 files have it, with its number of occurrences in the text of all files and its number of files |
| TermCounts.CountRow | src/article_analysis/analyst/impl_/tf_idf_analyst_content.cc:202-215 | an article's row counts each selected word in it |
| TermCounts.CountFiles | src/article_analysis/analyst/impl_/tf_idf_analyst_content.cc:188-221 | the table has a right row for every article and the largest count of every column |
| TermCounts.ColumnsAddUp | src/article_analysis/analyst/impl_/tf_idf_analyst_content.cc:198-215 | a column that counts a word file by file adds up to its total and has as many non-zero rows as its document frequency |
| TermCounts.CountTerms | src/article_analysis/analyst/impl_/tf_idf_analyst_content.cc:122-221 | the passes agree: each column adds up to the first pass's count and is non-zero in as many rows as the first pass's document frequency |
| Recommendation.InsertLast | src/article_analysis/analyst/impl_/tf_idf_analyst_content.cc:270-276 | by swaps from the end the new index is put where the order wants it, under either rule for ties |
| Recommendation.SelectBest | src/article_analysis/analyst/impl_/tf_idf_analyst_content.cc:265-281 | the result is the ordered list of the first min(3, number of others) articles: scores do not increase along it, of equal scores the earlier index comes first (the later one for the title analyst), and no other article has a higher score than a listed one |
| Recommendation.RankIff | src/article_analysis/analyst/impl_/tf_idf_analyst_content.cc:265-281 | an article is the k-th of the result exactly when k others are preferred to it |
| Recommendation.TiesAlone | src/article_analysis/analyst/impl_/tf_idf_analyst_title.cc:242-257 | with pairwise different scores the title analyst's rule chooses the same articles as the content analyst's |
| ContentAnalysis.InAccountIff | src/article_analysis/analyst/impl_/tf_idf_analyst_content.cc:125-127 | an article counts exactly when it has more good than bad replies, unless the counters differ by 2^31 or more |
| ContentAnalysis.ReadAll | src/article_analysis/analyst/impl_/tf_idf_analyst_content.cc:122-170 | an article with a positive difference of counters is cleaned, converted and cut, with the length of what is cut; any other is empty and of length 0 |
| ContentAnalysis.PartGrows | src/article_analysis/analyst/impl_/tf_idf_analyst_content.cc:253-256 | an absent word adds nothing to a score; of a word with positive weight more occurrences add strictly more |
| ContentAnalysis.ScoreAgainst | src/article_analysis/analyst/impl_/tf_idf_analyst_content.cc:246-263 | the nested loops compute scores in which, of equal counts, the shorter article scores strictly higher; more of one shared word of positive weight scores strictly higher; and for one word the score is weight * fw * 2.5 / (fw + 1.5 * (0.25 + 0.75 * length / average)) |
| ContentAnalysis.EqualLengthsAverage | src/article_analysis/analyst/impl_/tf_idf_analyst_content.cc:231-235 | when all articles in the account have one length that is the average, whatever the others are |
| ContentAnalysis.NothingSharedNoScore | src/article_analysis/analyst/impl_/tf_idf_analyst_content.cc:246-263 | articles that share no selected word have score 0 against each other |
| ContentAnalysis.RunStudy | src/article_analysis/analyst/impl_/tf_idf_analyst_content.cc:85-235 | reading, both passes, weights and mean length fit together, and the mean length is never 0 when there is a word to score by |
| ContentAnalysis.ContentAnalyst.constructor | src/article_analysis/analyst/impl_/tf_idf_analyst_content.cc:85-286 | after the whole algorithm every article in the account has its best articles by score, any other none |
| ContentAnalysis.ContentAnalyst.GetDocRelInfo | src/article_analysis/analyst/impl_/tf_idf_analyst_content.cc:67-82 | the answer lists, under their ids, the best articles for the article asked about; nothing for other boards, unknown ids and articles outside the account |
| ArgumentParser.ItemizeIff | src/article_analysis/arg_parser/arg_parser.cc:80-137 | an argument list reads as items in one way at most: reading undoes writing, both ways |
| ArgumentParser.ScanRendered | src/article_analysis/arg_parser/arg_parser.cc:80-137 | for any items the scan leaves plain and escaped arguments in order, handles exactly the names set and makes exactly their calls; it fails exactly when a handler refuses one |
| ArgumentParser.CallsByName | src/article_analysis/arg_parser/arg_parser.cc:75-166 | after a successful parse the calls for a name are exactly these, in order: true for each time a flag is set, or one false when it is not and is called then; each value given for a mandatory option; each value given for an optional one, or its default, without defaults where it is not called for them |
| ArgumentParser.WhyScanFails | src/article_analysis/arg_parser/arg_parser.cc:80-137 | a failing scan has gone through items whose calls were all accepted and then met a dangling escape, an option without value, or an item whose handler refused, and the error names it |
| ArgumentParser.WhyParseFails | src/article_analysis/arg_parser/arg_parser.cc:138-160 | a parse that fails after its scan names a flag not set that refused false, a mandatory option not given, or an option not given that refused its default |
| ArgumentParser.EscapedSurvive | src/article_analysis/arg_parser/arg_parser.cc:81-88 | whatever the arguments, each one behind `--` survives and no handler is called |
| ArgumentParser.ParsesIff | src/article_analysis/arg_parser/arg_parser.cc:75-166 | parsing succeeds exactly when the arguments read as items, every mandatory option is among them and the handlers accept the items' calls, then false for each unset flag, then the default for each unset optional option; these are all calls made |
| ArgumentParser.HandlerUncalledIff | src/article_analysis/arg_parser/arg_parser.cc:57-166 | a successful parse leaves the handler of an optional option uncalled exactly when the option is not to be called when not set and every value given for it is the default |
| ArgumentParser.DefaultGivenOutright | src/article_analysis/arg_parser/arg_parser.cc:57-63 | given outright with its default value such an option is handled without a call |
| ArgumentParser.ArgParser.AddFlag | src/article_analysis/arg_parser/arg_parser.cc:26-39 | the name becomes that flag, every other name means what it meant, wherever the map puts it, and names stay registered once |
| ArgumentParser.ArgParser.AddOpt | src/article_analysis/arg_parser/arg_parser.cc:41-50 | the name becomes a mandatory option, every other name means what it meant, and names stay registered once |
| ArgumentParser.ArgParser.AddOptionalOpt | src/article_analysis/arg_parser/arg_parser.cc:52-73 | the name becomes that optional option, every other name means what it meant, and names stay registered once |
| ArgumentParser.ArgParser.ScanArgs | src/article_analysis/arg_parser/arg_parser.cc:77-137 | the loop is the recursive scan, its error included |
| ArgumentParser.ArgParser.CallUnset | src/article_analysis/arg_parser/arg_parser.cc:138-160 | the loops over flags, options and optional options call what was not set, in order, or fail |
| ArgumentParser.ArgParser.Parse | src/article_analysis/arg_parser/arg_parser.cc:75-166 | on success the list behind the program's name is what was left, and nothing behind it has changed; on failure list and count are as they were |

## Left out

- HTTP fetching, HTML parsing, pickle files, sockets, logging and sleeping: given functions, maps and chunked streams.
- A page that does not exist is empty here; the program would keep asking for it.
- The board does not change during a round. `BoardListener` runs a round's threads one after the other; `MirrorRace` takes two threads at a time, of whatever rounds.
- CacheInterleaving.EveryInterleavingIsSound: an id gets one address for good, which is an assumption; the program breaks it when overlapping rounds contend for an id (`MirrorRace.AddressChangesIff`).
- Starting, stopping and joining threads, stop flags, exceptions of the crawler, and waiting for a document that is not stored yet: ids that are read are stored.
- BoardSearch.GetPageContainUrlNum: the random re-probe may go on for ever; here its choices are a finite list, and the search answers None when they run out.
- Framing.RunHandler: waiting for ever ends the method here; timeouts and failing sends are left out.
- Framing.AskAll: reconnecting after a failed send is left out, and what the server will send is in the stream from the start; `Conversation` has both sides.
- The accept loop of the C++ server and its debug type that stops it; one connection is modelled.
- Framing.HandledIff: the miner's backend is a function of the query and its position in the connection.
- Documents are values, so a caller that changes one does not change the cached copy; the one change the program makes, the board, is a step of its own.
- MinerQueries.MetaDataComesBack: every id up to the newest is stored, so no query waits; strings of the store are Dafny strings, which have no surrogates.
- RealBackend.GetDocMetaDataAfterId: creating workers, destroying them and looking boards up in an address are left out.
- UrlText.CompareNumReadsIff: an address of None and addresses that are neither an article's nor a stub's are left out.
- OptionNames.GetOptionFindsIff: the caller's type is only leaf or collection here; values of options and their conversion from text are left out.
- C++ `Dump` of reply messages (it falls to the raw-bytes converter), of metadata and of documents, and the `std::wstring` converter.
- Messages.CppLoadString: a length that wraps the 64-bit sum ends in failure here, where the program throws.
- C++ numbers are taken to be little-endian, as the raw copies assume.
- MinerStore.Storage.UpdateAfterTime: the program reads the clock to get the time; here it is a parameter.
- ContentAnalysis.RunStudy: scores are reals, so rounding and NaN are left out; word cutting, text conversion and the logarithm are given functions, an empty text has no words.
- ContentAnalysis.ContentAnalyst.constructor: without any article the program reads the first element of an empty list; here there is at least one, and ids are consecutive, as the metadata query answers them.
- TermCounts.CountAll: the document frequencies are floats in the program, exact in this range.
- The title analyst's counting loop increments the wrong variable and its scores are not reset between articles; only its rule for ties is modelled.
- The list caches of the client application, the metadata scan with its offsets, the variant type, the web handler and the browser extension would only add easier claims of the same kinds.
- ArgumentParser.ArgParser.Parse: texts of error messages and usage are left out; errors are values.
