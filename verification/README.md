# plex-exporter: a verified model

plex-exporter polls a Plex media server and publishes aggregates to Prometheus. Its I/O is
thin; what can go wrong lies in four stateful algorithms, and this project models those in
Dafny and proves what they are for.

**The watch history and the library walk.** One goroutine keeps, in a map, when each item was
last played: a full read rebuilds it, then overlapping, capped and resumable increments follow the
history, and a daily catch-up re-reads a month. Another goroutine walks the libraries, asks the
map about every item and marks what it saw, stamps each library's figures with the history
generation seen at both ends of its walk, and prunes what a whole pass did not see. A scrape
publishes watch figures only when stamp and generation agree.

- `History.dfy`: the store's locked regions as functions on its state, and the class that performs them.
- `StoreRuns.dfy`: what any sequence of locked regions leaves in the store.
- `Follower.dfy`: a history that grows while it is read page by page and row by row; drains lose nothing.
- `Refinement.dfy`: what the followed map answers against what a full read would; increments refine the full read.
- `LateRow.dfy`: runs of a small history that show what the conditions there are needed for.
- `Walks.dfy`: the passes of the walk loop and what they store.
- `Catalog.dfy`: what a scrape publishes of the walks and the history.
- `Protocol.dfy`: the goroutines, the signal channel and the scrape, interleaved; the statements about published figures and pruning hold in every interleaving.
- `PruneRun.dfy`: a run that shows what the conditions of its pruning are needed for.
- `Gates.dfy`: which walks succeeded, which passes are over, which rebuilds are owed a signal, and when exactly figures and flags are out, told by the events of a run alone.
- `EndToEnd.dfy`: the server's history, its follower, the walk and the scrape as one system.

**The one-pass aggregation.** One loop over a library's rows computes checked byte totals per
bucket, top-ten lists and per-show totals, deduplicating on a hybrid list/bitmap set.

- `Sequences.dfy`, `Ranking.dfy`, `KeySets.dfy`: sums and sorting, the top-ten lists, the key set.
- `LibStats.dfy`: a declarative account of the figures over the first row of each rating key.
- `LibStatsLaws.dfy`: what follows from that account alone: order, repeats, conservation.
- `FieldLaws.dfy`: the account read back in terms of the rows' own fields.
- `Aggregator.dfy`: the loop, proved to publish exactly that account or to report an overflow exactly when there is one.

**The session tracker.** A bounded map of playing sessions with play-time counters, a metadata
cache and timed pruning, fed by a poll.

- `Tracker.dfy`: the tracker and its runs.
- `SessionPoll.dfy`: the poll, as methods and as the tracker events it makes.

**The request pacer and the bandwidth counter.** `Pacer.dfy` and `Bandwidth.dfy`.

`Ints.dfy` holds the fixed-width integers as subsets of the mathematical ones.

Each locked region, channel operation or row is one atomic step. Clocks are integers passed into
each step. What the server sends, what fails and when are inputs, unconstrained unless a lemma
says otherwise. Methods of a class are proved against a function or a predicate, and the laws are
proved about those.

Claims that hold only under a condition, with the condition that decides them:

- A prune's cutoff protects every play at or after it exactly while the cutoff fits 32 bits, in
  which play times are stored (`StoreRuns.CutoffProtectsNewPlays`).
- A row that arrives while a window of the history is open is handed on by it exactly when a
  page is still to be requested at or before the row's place, as long as no page fails, the cap
  is not reached and nothing pushes the row back (`Follower.HandedOnIffInWindow`); a failed page
  or a later row before it can still bring it in (`LateRow.FailedPageReachesLateRow`,
  `LateRow.LaterRowPushesItOn`). So lateness is tolerated between increments, and behind the
  last page of a window that one read covers; at any other time of a read or a drain
  in-order arrival is enough and lateness is not (`Refinement.ArrivalRulesSuffice`,
  `LateRow.LateRowDuringAReadIsMissed`). What a read has handed on when it ends is the history
  as of its last page request (`Refinement.IncrementsRefineFullRead`).
- The published play time of a session is read off a copy at a later clock reading. It is exact
  exactly when the session stayed in or out of play as it was copied, and it can fall from one
  scrape to the next (`Tracking.CounterCanFall`) exactly when a session copied playing was out of
  play before the reading for longer than it has played since
  (`Tracking.CounterDoesNotFallIff`). What the tracker keeps is always exact
  (`Tracking.PlayTimeIsConserved`).
- A prune takes only what its pass did not see in the map and was last played before the pass
  started (`Protocol.PruneIsSafe`), which is not quite what is no longer in any library: a visited
  item goes too when it was not in the map yet and an older play of it is folded behind the visit
  (`PruneRun.VisitedItemCanBePruned`). No published figure rests on what a prune took
  (`Protocol.PublishedFiguresAreCurrent`).
- The library labels of a session name the library of its present item exactly when they were
  still empty or named it already (`SessionPoll.LabelsFollowTheItemIff`), so a resolved session
  can carry another library's labels (`SessionPoll.LabelsCanNameAnotherLibrary`).
- The transmitted-bytes counter has each sample of the server's log once if and only if no read
  missed one between its two watermarks (`Bandwidth.CountsTheLogIff`), which a server keeps to
  whose answers reach back to the last one and whose log only grows past what it has answered
  (`Bandwidth.ServedLogIsCounted`), and one whose window scrolls on does not
  (`Bandwidth.ScrolledPastIsMissed`).
- A show's title is that of its first-read episode, so it is the one thing in the lists that the
  order of the rows can change (`LibStatsLaws.StatsIgnoreOrder` compares lists without it).

## Model

| member | source | states |
|---|---|---|
| History.Store.GetView | internal/history/history.go:123-134 | history is current exactly when the last full read completed and a read succeeded less than an hour ago; the counts are the sizes of the two row sets |
| History.Store.Visit | internal/history/history.go:138-147 | answers the newest play held for a key, 0 when there is none; marks a key already in the map with the pass and never adds one; pass 0 changes nothing |
| History.Store.Prune | internal/history/history.go:153-167 | deletes exactly the keys unmarked by the pass and last played before the cutoff, nothing at all after a rebuild or for pass 0, and returns how many |
| History.Store.FoldOne | internal/history/history.go:214-223 | one row joins the current maps, or nothing happens when they are gone |
| History.Store.MergeRead | internal/history/history.go:326-337 | a capped read folds precisely the rows below the cap, in order, and reports their newest time, their number and whether a row past the cap came |
| History.Store.ReadAll | internal/history/history.go:246-255 | a full read builds tables of its own from exactly the rows up to the limit |
| History.Store.Bootstrap | internal/history/history.go:246-277 | a complete read replaces the maps, the cursor and any drain; any other discards them all; the generation moves either way |
| History.Store.Incremental | internal/history/history.go:283-308 | a failure keeps cursor and drain; the cap opens or extends a drain that repeats the same time at the next row; the end of the window closes it |
| History.Store.Catchup | internal/history/history.go:312-321 | folds the last 30 days and moves neither cursor, drain, generation nor last success |
| History.Store.BootstrapOnce | internal/history/history.go:361-382 | which full reads signal a rebuild, which report an error, and how long each waits before the next |
| StoreRuns.FullReadInv | internal/history/history.go:246-277 | the tables of a full read are those of its rows folded one at a time |
| StoreRuns.RunInv | internal/history/history.go:138-337 | after any sequence of folds, visits, prunes and read ends, every entry is the exact maximum of the plays folded since its key was last pruned, and every play a prune dropped lies below a cutoff used |
| StoreRuns.VisitAnswersNewestPlay | internal/history/history.go:136-147 | a visit answers the newest recorded play of a key since it was last pruned, over every run |
| StoreRuns.CountsPublishTheFoldedRows | internal/history/history.go:107-134 | while the last full read is complete, unmatched is the number of distinct rows folded since it began whose item is named but not by a number, or that carry no time, and deleted that of rows without an item, up to 250000 each; unmatched is 0 exactly when there was no such row, whatever the identity function |
| StoreRuns.CurrentMeans | internal/history/history.go:118-133 | over any run, history is current if and only if a completed full read is the latest one and less than an hour has passed since some read ended well |
| StoreRuns.ViewMeans | internal/history/history.go:105-134 | and the rest of the view: the time of the newest read that ended well, whether the last full read completed, and the number of full reads ended |
| StoreRuns.CursorMeans | internal/history/history.go:323-325 | the cursor is the newest time handed on since the last full read, and never goes back |
| StoreRuns.FullReadEnds | internal/history/history.go:255-261 | a full read is complete, over the limit or failed by the number of rows and the error the history delivers, the limit being 250000 and a deadline counting as one |
| StoreRuns.RecentPlaysSurvivePruning | internal/history/history.go:149-167 | no prune loses a play at or after every cutoff a prune has used |
| StoreRuns.CutoffProtectsNewPlays | internal/history/history.go:64-73 | 32-bit play times keep a cutoff meaningful if and only if the cutoff fits 32 bits too |
| StoreRuns.GenCountsFullReads | internal/history/history.go:263-266 | the generation counts the full reads that ended |
| StoreRuns.EqualGenerationsBracket | internal/history/history.go:119-122 | two equal generations bracket a span with no full read ended, and only then |
| StoreRuns.IncrementalIsARun | internal/history/history.go:283-308 | an uninterrupted increment is its rows folded one by one and one closing region |
| StoreRuns.BackoffDoubles | internal/history/history.go:341-382 | after any history of read ends the next wait is five minutes doubled once per failed read, at most six hours |
| StoreRuns.WaitsMean | internal/history/history.go:361-382 | the wait after each way a full read can end, in seconds, after any number of failures |
| Follower.DueKept | internal/history/history.go:279-308 | a row the window still has to hand on stays so through failures, the cap, insertions anywhere, prunes, visits and catch-ups |
| Follower.DueExactlyInWindow | internal/history/history.go:81-88 | at the moment a new row arrives, some page still to be requested would reach it if and only if its place in the selection is at or behind where the next page starts |
| Follower.HandedOnIffInWindow | internal/history/history.go:55-58 | over any run from a new row's arrival to the end of the window with no failed page, no cap reached and nothing pushing the row back, the row is handed on if and only if a page was still to be requested at or before its place in the selection |
| LateRow.FailedPageReachesLateRow | internal/history/history.go:279-308 | a run in which a row in front of the page to come is handed on after all, because a page failed and the window was read again |
| LateRow.LaterRowPushesItOn | internal/history/history.go:55-58 | and one in which no page failed, because another row came in before it |
| Follower.WindowFoldsEveryRow | internal/history/history.go:81-88 | drain completeness: every row selected when a window opens is folded when it closes, over any run of capped, failed and resumed reads with rows inserted meanwhile |
| Refinement.WholeReadIsBootstrap | internal/history/history.go:246-277 | a full read page by page, with rows arriving during it, leaves the store as Bootstrap does with the rows handed on |
| Refinement.NeverAheadOfFullRead | internal/history/history.go:323-337 | the followed map never answers more than a full read made now would |
| Refinement.IncrementsRefineFullRead | internal/history/history.go:246-308 | after a full read the history grew under, if plays arrive in time, then whenever a read hands on its last row every key not pruned answers exactly as a full read of the source as it stood when the last page was requested |
| Refinement.ArrivalRulesSuffice | internal/history/history.go:279-308 | enough for that: lateness of five minutes between increments and behind the last page of a window that one read covers, in-order arrival at any other time |
| LateRow.LateRowDuringAReadIsMissed | internal/history/history.go:279-308 | a run in which a play 200 s late comes in before the end of a page already requested and is not answered when the increment ends |
| Refinement.IncrementalIsARead | internal/history/history.go:283-308 | the store's own Incremental is the page-by-page machine run without interruption, whatever sizes the pages have |
| Refinement.BootstrapIsARead | internal/history/history.go:246-277 | so is its Bootstrap, of a history within the row limit |
| Refinement.BootstrapAnswers | internal/history/history.go:246-277 | a full read made now answers what the histories above are compared with, and nothing when the history is past 250000 rows |
| Follower.CatchupRecoversLatePlays | internal/history/history.go:310-321 | after a catch-up that reaches its end every play of the source from the last 30 days is answered, no answer has fallen, and none has risen but to a play of the source |
| Follower.CatchupFoldsItsWindow | internal/history/history.go:310-321 | page by page, with rows arriving, visits and prunes meanwhile, a catch-up that ends with its last row has folded every row its selection held when it started |
| Follower.AnswersNeverFall | internal/history/history.go:323-337 | over any run no answer falls but for pruning |
| Follower.WindowClosesOnTime | internal/history/history.go:283-308 | a window of n rows nothing is inserted in closes with exactly its max(1, ceil(n/10000))-th successful read, whatever attempts fail in between |
| Walks.WalkableLibraries | internal/server/walk.go:52-68 | the video libraries in section id order, cut at 32; none is skipped exactly when there are no more |
| Walks.WalkableMeans | internal/server/walk.go:50-68 | movies, shows and home videos in section id order, all of them or 32, none left out coming before one walked |
| Walks.WalkState.WalkLibrary | internal/server/walk.go:179-228 | a success replaces a library's entry and stamps it with the generation seen at both ends; a failure keeps figures and stamp |
| Walks.WalkState.WalkEach | internal/server/walk.go:146-155 | walks the libraries in order, a stale-only pass only those not at its generation, up to the first that finds the context ended |
| Walks.WalkState.WalkPass | internal/server/walk.go:134-175 | numbering, forgetting of libraries gone, completion, and that a prune is asked for exactly after a full pass that skipped no library and failed on none |
| Walks.StalePassStampsEveryLibrary | internal/server/walk.go:130-151 | after a stale-only pass made while history stayed at its generation, every walkable library is at that generation |
| Walks.StampsComeFromBothEnds | internal/server/walk.go:222-227 | over a pass a stamp is the old one or a generation one attempt saw at both its ends |
| Catalog.EmitLibraryWalk | internal/server/collect_catalog.go:107-139 | the exact samples of one library; the last plays and watch ages only when it is vouched for |
| Catalog.EmitLibraries | internal/server/collect_catalog.go:82-105 | all libraries' samples, the newest ten items over all of them, and the two flags as for-all statements over the libraries |
| Catalog.CollectCatalog | internal/server/collect_catalog.go:45-61 | the walks are complete exactly when a pass has finished, no video library is past the limit and every one's last walk succeeded; watch ages exactly when moreover history is current, nothing is unmatched and every one publishes at the current generation |
| Catalog.PublishedBuckets | internal/server/collect_catalog.go:132-138 | a vouched library publishes exactly one value per watch bucket, 0 for an empty one |
| Catalog.PublishedItems | internal/server/collect_catalog.go:125-131 | a size is published of each listed item of a walked library, its last play too when the library publishes watch figures, and no other |
| Catalog.NewestOfAllLibraries | internal/server/collect_catalog.go:100-103 | lists that each are the top ten of a library merge into the top ten of all of them together |
| Protocol.HistoryEvent | internal/history/history.go:246-337 | a row folded, an increment ended or a full read ended, at any point of a walk, keeps all that the walk relies on |
| Protocol.VisitEvent | internal/server/walk.go:184-189 | a visit keeps it: the answer is of one generation, lies at or above the map the walk began with, and the seen key is marked |
| Protocol.WalkStoredEvent | internal/server/walk.go:197-227 | storing a walk keeps it: stamped figures are of one generation even when a rebuild ends just before the store |
| Protocol.PruneEvent | internal/server/walk.go:161-174 | a prune keeps it: it comes only after a full pass has replaced every library's figures, so none rests on an answer it takes back |
| Protocol.RunInv | internal/server/walk.go:114-228 | the protocol invariant holds after every interleaving of history reads, signals, passes, visits and prunes |
| Protocol.PublishedFiguresAreCurrent | internal/server/walk.go:179-228 | in every interleaving, prunes included, published watch figures are the aggregation of one walk's rows, every question of which was answered at the generation current at the scrape, with an answer at least the map's at the start of the walk and at most the map's now |
| Protocol.EveryWatchSampleIsCurrent | internal/server/collect_catalog.go:39-44 | in every interleaving no watch figure is published, of whatever library, that rests on an answer of another generation than the current one |
| Protocol.PublishedNewestIsOfAll | internal/server/collect_catalog.go:100-103 | in every interleaving the published newest items are the newest ten among everything the last walks of all walked libraries could list, though each kept only its own ten |
| Protocol.RebuildWithdrawsFigures | internal/server/collect_catalog.go:94 | as soon as a full read ends, however it ends, no library publishes watch figures |
| Protocol.RebuildRepublishes | internal/server/walk.go:114-151 | once a signalled rebuild is served by a stale-only pass whose every walk succeeds while history stays current and no full read ends, every walkable library publishes its watch figures again |
| Protocol.WatchAgesAreBracketed | internal/server/collect_catalog.go:135-138 | in every interleaving the published watch ages, in all their buckets, are none staler than the map at the start of the walk and none fresher than the map now would give; so the items last played at or after any time |
| Protocol.AnswersAreTheStores | internal/server/walk.go:179-189 | in every interleaving each answer of a walk is what the store answered at that moment, and the walk began with the map of its first |
| Gates.CompletenessNeverLies | internal/server/collect_catalog.go:45-61 | in every interleaving, while watch ages are said to be complete no video library is left out, the last walk of each succeeded, shutdowns aside, all their answers are of the generation current now, and no row folded since the last full read may be an unnoticed play |
| Gates.WatchFiguresAreOutIff | internal/server/collect_catalog.go:39-44 | over any run, a library's watch figures are out if and only if a stored walk of it is stamped with the generation history is at now, the last full read completed, a read ended well within the hour, and no row folded since may be an unnoticed play |
| Gates.WalksAreCompleteIff | internal/server/collect_catalog.go:79-105 | the walks are reported complete if and only if a full pass has ended, at most 32 video libraries are listed, and the last walk of each succeeded, shutdowns aside |
| Gates.WatchAgesAreCompleteIff | internal/server/collect_catalog.go:45-61 | and watch ages if and only if moreover history vouches for itself and every one of them is stamped with the generation it is at now |
| Gates.EntryMeans | internal/server/walk.go:199-227 | over any run, an entry is there when its library has been walked since it was last forgotten, holds figures when a walk succeeded, and is marked failed if and only if the last walk that shutting down did not break off failed |
| Gates.StampMeans | internal/server/walk.go:36-38 | a stored walk is stamped only when history was current at that generation both when it began and when its visits were over |
| Gates.StoredAsWalked | internal/server/walk.go:179-227 | over any run a library's stored lists and figures are those of one walk of its kind, as of the time it began, under the library's own id and type |
| Gates.NewestCoverEveryLibrary | internal/server/collect_catalog.go:100-103 | whatever the last walk of any walked library could list as new is published or led by ten that are |
| Gates.PruneIsAskedIff | internal/server/walk.go:130-174 | a prune is asked for if and only if a full pass ends that skipped no library and all of whose walks succeeded |
| Gates.PassMeans | internal/server/walk.go:146-155 | in every interleaving a pass under way counts as failed exactly when one of its walks failed, and has stopped at the first that found the exporter shutting down |
| Gates.StalePassLeavesFreshOnes | internal/server/walk.go:146-149 | a stale-only pass never walks a library stamped with the generation it took already |
| Protocol.PruneIsSafe | internal/server/walk.go:130-175 | a prune follows only a full pass over every walkable library; it deletes nothing the pass saw in the map, nothing played at or after its start, nothing after a rebuild, and, until pass numbers go round, everything else |
| Protocol.VisitedKeySurvivesPrune | internal/server/walk.go:130-175 | along any run, a key in the map when a full pass visited it survives that pass's prune, whatever was folded, walked or rebuilt in between |
| PruneRun.VisitedItemCanBePruned | internal/server/walk.go:130-133 | a run in which the prune takes an item that its pass has visited in a library, because a play older than the pass was folded behind the visit |
| Protocol.NoRebuildForgotten | internal/server/walk.go:87-128 | with a channel of capacity one no rebuild signal is lost: it is pending, or a stale-only pass took a generation no older |
| Gates.RebuildsAreSignalled | internal/history/history.go:339-371 | over any run every completed full read owes the walk loop a signal: it is still to be sent, or one of a generation no older has been |
| Gates.NoRebuildUnserved | internal/server/walk.go:87-128 | while the loop waits with the channel empty and no signal on its way, a stale-only pass has taken a generation no older than the last completed full read |
| Gates.StalePassesAreOwed | internal/server/walk.go:87-128 | over any run the stale-only passes begun and the signals on their way are no more than the full reads completed |
| Protocol.StoreRunsUnchanged | internal/history/history.go:138-337 | every interleaving is a run of the store's locked regions, so what holds of those runs holds here |
| EndToEnd.NoFresherThanTheHistory | internal/server/walk.go:179-228 | server, follower, walk and scrape together: the published watch ages are none fresher than a full read of the history made now would give, whatever has been pruned |
| EndToEnd.NoStalerThanTheHistory | internal/server/walk.go:179-228 | and none staler than a full read would give of the history as of the last page of any read that was over, with every play in time, when the walk began, unless something it was to ask about had been pruned by then |
| EndToEnd.WalkBeganAt | internal/server/walk.go:180-182 | the moment the walk began, which that is stated at, is one of the joint run's |
| Ranking.InsertTop | internal/libstats/libstats.go:306-320 | if the list is the first ten of a full sort by value and rating key, it still is with one more entry |
| Ranking.MergeRecent | internal/libstats/libstats.go:322-331 | the result is the first ten of a full sort of all the lists' entries |
| Ranking.SplitTop | internal/libstats/libstats.go:306-320 | an entry is dropped only past ten, and then outranks no listed one |
| Ranking.TopUnique | internal/libstats/libstats.go:298-320 | without ties there is one possible list, so the order of arrival cannot matter |
| Ranking.TruncatingFirstLosesNothing | internal/libstats/libstats.go:322-331 | merging the libraries' ten-entry lists gives the top ten of all their items together |
| KeySets.BinarySearch | internal/libstats/keyset.go:45 | the place of a value in a sorted list, found exactly when it is there |
| KeySets.KeyGroup.SetBitOf | internal/libstats/keyset.go:37-43 | setting one bit of the bitmap adds one low half and no other |
| KeySets.KeyGroup.ToBitmap | internal/libstats/keyset.go:53-57 | the switch to the bitmap loses and adds nothing |
| KeySets.KeyGroup.Insert | internal/libstats/keyset.go:36-59 | refines insertion in a set of 16-bit halves, the group staying a strictly sorted list of at most 4096 or a bitmap |
| KeySets.KeySet.Insert | internal/libstats/keyset.go:26-34 | refines insertion in a set of 64-bit keys: true exactly when the key was never inserted, and it alone is added |
| LibStats.NewestEpisode | internal/libstats/libstats.go:185-190 | the episode of greatest known added time, ties to the smaller key, or none when no added time is known |
| LibStats.FirstRows | internal/libstats/libstats.go:136-143 | keeps one row of each parsable rating key and no other |
| LibStatsLaws.FirstRowsAreFirst | internal/libstats/libstats.go:136-143 | a row counts if and only if it is the first read with its parsable rating key |
| LibStatsLaws.StatsUnique | internal/libstats/libstats.go:80-99 | two results that both meet the account of the same distinct rows are equal |
| LibStatsLaws.RepeatsChangeNothing | internal/libstats/libstats.go:83-85 | rows of keys read before, inserted anywhere behind them, leave the counted rows as they were |
| LibStatsLaws.FiguresIgnoreOrder | internal/libstats/libstats.go:136-261 | no count and no byte total depends on the order of the rows |
| LibStatsLaws.StatsIgnoreOrder | internal/libstats/libstats.go:87-273 | permuting distinct rows changes no figure and no ranked list, show titles apart |
| LibStatsLaws.ShowLastPlayMeans | internal/libstats/libstats.go:174-184 | a show's last play is the greatest over its own key and its episodes |
| LibStatsLaws.WatchBucketsConserve | internal/libstats/libstats.go:148-154 | the watch-age items add up to the distinct items and the watch-age bytes to the sized bytes, sized and unsized items making up all |
| LibStatsLaws.AgesAreCounts | internal/libstats/libstats.go:203-216 | the buckets of 90 days, of a year and of never are counts of the items last played at or after a time |
| LibStatsLaws.ExtraVersionsWithinTotal | internal/libstats/libstats.go:234-247 | extra-version bytes never exceed the total |
| LibStatsLaws.LabelsConserve | internal/libstats/libstats.go:236-242 | resolution bytes and codec bytes each add up to the total bytes of sized items |
| LibStatsLaws.PublishedLabelsConserve | internal/libstats/libstats.go:236-251 | the published maps themselves do |
| LibStatsLaws.TotalGrows | internal/libstats/libstats.go:253-261 | reading on never lowers a byte total, so one that passed int64 stays past it |
| Aggregator.ItemBytes | internal/libstats/libstats.go:275-296 | an item is sized exactly when every part of every version has a positive size and the sum fits; then the sizes are exact |
| Aggregator.Accumulator.CheckedAdd | internal/libstats/libstats.go:253-261 | adds, or marks the walk failed exactly when the sum does not fit int64 |
| Aggregator.Accumulator.CountMedia | internal/libstats/libstats.go:234-247 | a sized item's versions reach their labels exactly, all but the largest count as extra, or the figure that no longer fits is named |
| Aggregator.Accumulator.Tally | internal/libstats/libstats.go:144-154 | every figure stays the exact sum over the rows read, or one of them has passed int64 |
| Aggregator.Accumulator.LastPlayed | internal/libstats/libstats.go:193-201 | the newer of the recorded play and the owner's own state, never negative |
| FieldLaws.LastPlayMeans | internal/libstats/libstats.go:193-201 | the last play is the greatest of the recorded one, the owner's date when the view count is positive, and 0 |
| FieldLaws.UnviewedDatesChangeNothing | internal/libstats/libstats.go:193-201 | rows that differ only in a view date without a positive view count publish the same |
| FieldLaws.PublishedCounts | internal/libstats/libstats.go:218-247 | unsized, several versions, added within a day or a week and newest added, by the fields of the rows |
| FieldLaws.PublishedWatchAges | internal/libstats/libstats.go:144-154 | the items and the file bytes of every watch bucket, never being no recorded and no own play, the others by days since the last one |
| FieldLaws.PublishedLabels | internal/libstats/libstats.go:234-242 | the bytes of a resolution and of a codec are those of the versions that carry it, of items with a known size |
| FieldLaws.ExtraVersionsMean | internal/libstats/libstats.go:234-247 | an item of several versions adds all but its largest version to the extra bytes |
| FieldLaws.NoExtraVersions | internal/libstats/libstats.go:234-247 | an item of one version, or without a known size, adds none |
| FieldLaws.ListedLargestVideos | internal/libstats/libstats.go:156-160 | the largest videos, field by field: at most ten, in order, each of known size, and any other such video led by ten |
| FieldLaws.ListedNewestVideos | internal/libstats/libstats.go:161-163 | the newest videos likewise |
| FieldLaws.ListedShows | internal/libstats/libstats.go:263-267 | the largest shows, field by field: a show is ranked if and only if every episode has a known size and all fit int64 together, and then listed or led by ten |
| FieldLaws.ListedNewestShows | internal/libstats/libstats.go:185-190 | the newest shows, each by its newest episode under its season and number |
| Aggregator.Accumulator.AddEpisode | internal/libstats/libstats.go:169-191 | every show stays the exact account of its episodes read, its own key asked once |
| Aggregator.Accumulator.Add | internal/libstats/libstats.go:136-167 | a row counts exactly when its key parses and was not read before; all figures and lists stay exact |
| Aggregator.Accumulator.Finish | internal/libstats/libstats.go:263-273 | ranks the shows in whatever order the map yields them and publishes exactly the account of the rows |
| Aggregator.Accumulator.Play | internal/libstats/libstats.go:193-196 | one question to the watched map, which must not have been put before |
| Aggregator.Aggregate | internal/libstats/libstats.go:80-99 | fails with an overflow if and only if some checked total of the distinct rows exceeds int64, with the walk's error if it has one, and otherwise publishes exactly the figures and lists of the distinct rows; it has then put one question to the watched map for each item key and, in a show library, each show key |
| Tracking.ChangeState | internal/sessions/tracker.go:147-191 | leaving the playing state banks the open interval, entering it opens one, anything else keeps both |
| Tracking.Tracker.Update | internal/sessions/tracker.go:155-194 | updates a tracked session, adds a new one while fewer than 256 are tracked, and refuses it otherwise |
| Tracking.UpdateMeans | internal/sessions/tracker.go:155-194 | an update is taken if and only if the session is tracked or fewer than 256 are, leaves the state, time and metadata that came, and touches no other session |
| Tracking.Tracker.MarkAbsentStopped | internal/sessions/tracker.go:196-225 | stops exactly the sessions not listed and not stopped before, leaving the rest as they were |
| Tracking.Tracker.Prune | internal/sessions/tracker.go:227-255 | removes exactly the sessions stopped over a minute or otherwise silent over five |
| Tracking.Tracker.UpdateLibraryLabels | internal/sessions/tracker.go:114-124 | changes a tracked session and never adds one |
| Tracking.Tracker.MediaResolved | internal/sessions/tracker.go:133-145 | true exactly when metadata of this rating key and a library name are held |
| Tracking.NeverMoreThan256 | internal/sessions/tracker.go:52-60 | over every run at most 256 sessions are tracked |
| Tracking.PlayTimeIsConserved | internal/sessions/tracker.go:147-225 | over every run the banked time and the open interval are exactly the time the entry has spent playing since it was created |
| Tracking.ShownAgainstPlayTime | internal/server/collect.go:79-102 | a published play time is too high by the time the session was out of play between copy and clock reading when copied playing, too low by the time it played when not, so exact if and only if there was none |
| Tracking.CounterDoesNotFallIff | internal/server/collect.go:79-102 | from one scrape to the next the published play time does not fall if and only if the session was not copied playing, or was out of play before its reading for no longer than it has played since |
| Tracking.PromptScrapesNeverFall | internal/sessions/tracker.go:147-153 | scrapes that read the clock before the session changes publish its exact play time, and it never falls |
| Tracking.CounterCanFall | internal/server/collect.go:79-102 | a run of two scrapes that publish 12 and then 11 |
| Tracking.StoppedUntilSwept | internal/sessions/tracker.go:227-255 | a session stopped at t and not updated is removed by the first sweep that finds it more than a minute old and by nothing else |
| Tracking.StoppedIsRemovedInTime | internal/sessions/tracker.go:42-50 | given a sweep each minute such a session is gone strictly after t + 60 s and no later than t + 120 s, for good |
| Tracking.VanishedIsRemovedInTime | internal/sessions/tracker.go:196-225 | a stream that vanishes from the poll at a time is gone from the tracker strictly after 60 s and no later than 120 s, given a sweep each minute |
| Tracking.SilentUntilSwept | internal/sessions/tracker.go:44-47 | a session that has not stopped, and that no poll updates or misses, stays for five minutes and is removed by the first sweep that looks later and by nothing else |
| Tracking.SilentIsRemovedInTime | internal/sessions/tracker.go:44-50 | given a sweep each minute it is gone strictly after 300 s and no later than 360 s, for good |
| Tracking.UpdatedIsKept | internal/sessions/tracker.go:227-255 | a session updated within the last minute is never removed |
| Tracking.UpdateKeepsForAMinute | internal/sessions/tracker.go:155-194 | an update that is not refused keeps its session through every sweep of the following minute |
| SessionPoll.FindSection | internal/server/server.go:641-649 | the first listed library with the item's section id |
| SessionPoll.Poller.BuildSessionWork | internal/server/server.go:542-564 | keeps the sessions with a key and a numeric rating key, in order, and counts those dropped for their rating key |
| SessionPoll.WorkMeans | internal/server/server.go:542-564 | what a poll works on: every listed session with a key and a numeric rating key, playing, stopped or paused just as its player says |
| SessionPoll.Poller.FetchSessionMedia | internal/server/server.go:566-594 | fetches exactly what is not resolved; a failed fetch leaves its place empty |
| SessionPoll.Poller.ApplySessionUpdate | internal/server/server.go:596-633 | one session is updated, then named after the fetched item's library, then classified - just these tracker calls |
| SessionPoll.Poller.RefreshSessions | internal/server/server.go:502-540 | a failed read changes no session; otherwise the poll is its tracker events in order, fed only with what was fetched for each session's rating key |
| SessionPoll.PollMeans | internal/server/server.go:502-540 | after a poll a tracked session it does not list is stopped, and one it works on is in the state the poll last found it in |
| SessionPoll.PollEventsFetched | internal/server/server.go:566-608 | every metadata a poll stores was fetched for the rating key stored with it |
| SessionPoll.PollIsClocked | internal/server/server.go:502-540 | a poll reads the clock in order, so the tracker's run results hold of polls |
| SessionPoll.ResolvedHoldsItsItem | internal/sessions/tracker.go:133-145 | over every run of polls, prunes and scrapes a resolved session holds the item fetched for exactly that rating key |
| SessionPoll.StaysResolvedOverRun | internal/server/server.go:566-594 | a resolved session stays so over a run, and is not fetched again, until it is pruned or brought another item's metadata |
| SessionPoll.OnlyFetchesResolve | internal/sessions/tracker.go:133-145 | over every run a resolved session holds the item one of its updates brought together with that very rating key |
| SessionPoll.FetchedIsResolved | internal/server/server.go:596-608 | a fetched item is what is stored, and resolves the session exactly when a library name was known or the item's library is listed with one |
| SessionPoll.TranscodeIsShown | internal/server/server.go:610-633 | after an update a session is shown as transcoded the way the poll found it, or as before but without video when it found none |
| SessionPoll.LabelsFollowTheItemIff | internal/server/server.go:635-650 | the labels are those of the item's library if and only if they were empty or already so |
| SessionPoll.LabelsCanNameAnotherLibrary | internal/server/server.go:635-650 | from an empty tracker, a session seen with a film and then with an episode is resolved while its labels name the film's library |
| Pacing.Pacer.Wait | internal/pacer/pacer.go:27-51 | every call takes the next slot of its history of calls, a cancelled one too; a slot already due is refused only when the context has ended |
| Pacing.SlotIsGreatestBound | internal/pacer/pacer.go:29-37 | slot n is the maximum over i <= n of call i's time plus n - i intervals |
| Pacing.SlotsApart | internal/pacer/pacer.go:16-18 | no slot precedes its call, and slots i and j are at least j - i intervals apart |
| Pacing.WindowHoldsAtMost | internal/pacer/pacer.go:13-18 | any half-open window of m intervals holds at most m slots |
| Bandwidth.Meter.RefreshBandwidth | internal/server/server.go:441-472 | adds exactly the samples newer than the watermark whatever their order, moves the watermark to the newest, and does nothing on a failed read |
| Bandwidth.MarkMeans | internal/server/server.go:462-471 | the watermark never goes back and is the newest time seen |
| Bandwidth.ReadsAddApart | internal/server/server.go:455-460 | what a later read adds is newer than all an earlier one added, so no sample counts twice |
| Bandwidth.CountsTheLogIff | internal/server/server.go:455-460 | the counter has every sample of the server's log up to the watermark exactly once if and only if no read missed one between its watermarks |
| Bandwidth.CounterIsTheLogSum | internal/server/server.go:441-472 | then it is the log's own sum from the start to the watermark |
| Bandwidth.ServedLogIsCounted | internal/server/server.go:455-460 | that much of a server whose every answer reaches back to the newest time answered before and whose log gains nothing at or below what it has answered |
| Bandwidth.ScrolledPastIsMissed | internal/server/server.go:455-460 | two reads between which a sample scrolls past, and the counter without it |

## Left out

- HTTP, JSON, TLS, the API client, command line and the polling loops' tickers: rows, items, samples and errors come in as inputs; a read may fail at any row.
- Label emission, descriptors and the gauges that only copy a field: of the scrape, the samples of the ranked items and the watch figures are modelled.
- Session kind and codec classification, resolution buckets, codec names, library counts, activities and update state: short tables and folds, taken as arbitrary functions or inputs.
- Parsing and cutting of strings: a rating key is an optional 64-bit number, a session key's normalisation an arbitrary function, an episode label a pair of numbers.
- The hash behind a history row's identity: an arbitrary function, so the row counts count distinct identities.
- The show's year lookup after a walk (fillShowYears): it changes one label of listed shows.
- History.Store.GetView: the generation is unbounded; in the source it wraps after 2^64 full reads.
- History.Store.Incremental: taken as one call; its interleavings with prunes, visits and arriving rows are in Follower, Refinement and Protocol, row by row.
- Follower.WindowFoldsEveryRow: the client's paging is not part of this model; a read is taken to end when a page leaves nothing of the total it came with, and a page to hold at least one row until then.
- Refinement.IncrementsRefineFullRead: the full read it compares with is one without the row limit; past 250000 rows the source's would discard all and answer nothing (Refinement.BootstrapAnswers).
- Follower.CatchupRecoversLatePlays: the store's own call, on a history that stands still; Follower.CatchupFoldsItsWindow lets it grow.
- Refinement.WholeReadIsBootstrap: a full read over the limit or failed discards everything (History.Store.Bootstrap) and starts no run here.
- History.Store.BootstrapOnce: the waits it returns are not slept through; the loop around it is not modelled.
- Tracking.Tracker.Update: elapsed times are unbounded where the source saturates at 292 years; other clock readings between the two modelled ones have no effect.
- Aggregator.Aggregate: item counts are unbounded, as the walk stops at 500000 rows; the owner's watch time is an int64; times before 1970 for the walk itself are not special.
- Aggregator.Accumulator.AddEpisode: shows are values in the map where the source keeps pointers; the map is the only holder of them.
- KeySets.KeyGroup.SetBitOf: 1 << n on a word is n single shifts.
- Walks.WalkState.WalkPass: what history answers at the ends of a library's walk and what the aggregation returned come in with each attempt; Protocol joins them to the store and the aggregation.
- Protocol.PublishedFiguresAreCurrent: the scrape is one instant, since the source reads history while it holds the lock on the walks.
- SessionPoll.Poller.FetchSessionMedia: the concurrent fetches are made in order; each fills its own place, so the order does not show.
- Bandwidth.Meter.RefreshBandwidth: byte counts are exact integers where the source adds floats, and the sort's comparison does not wrap.
- Wall-clock changes: clocks do not go back within a run.
- Mutexes and the scheduler: a locked region is one step.
