# Rats Search: a verified model

This project models, in Dafny, the parts of Rats Search that move and transform
data, and proves what they promise.

- **The native index** (`text.dfy`, `json.dfy`, `json_printer.dfy`, `torrent.dfy`,
  `torrent_codec.dfy`, `filter_policy.dfy`, `index_row.dfy`, `groonga_index.dfy`): a
  torrent as wire JSON and as index columns, the filter policy rule by rule, and the
  commands that write the index, down to the columns an update leaves out.
- **Its offline commands** (`sweep.dfy`, `cleanup.dfy`, `transfer.dfy`,
  `reimport.dfy`, `sums.dfy`): cleanup deletes while it pages, export writes JSON
  Lines, import filters and counts. The main result relates all three: importing
  an export under a policy is cleaning up in place.
- **The live indexer** (`indexer.dfy`): the record cap and its prune tasks, under
  every interleaving with discoveries.
- **The legacy classifier** (`content_words.dfy`, `content_vote.dfy`,
  `content_shares.dfy`, `content_classifier.dfy`): a size-weighted vote and an
  early-exit word scan, both proved against descriptions without loops.
- **The legacy client** (`client_socket.dfy`, `listeners.dfy`, `peer_totals.dfy`,
  `auto_scroll.dfy`, `rating.dfy`) and the **migration progress bar**
  (`migration_progress.dfy`): step functions over arbitrary event sequences, with
  invariants of whole runs.

What a library outside the repository does enters as a parameter: the JSON
printer and parser (`JsonText`, used under `Faithful`), the regular-expression
engine (`Pcre`), JavaScript's `toLowerCase`, the extension table and the word
lists (`Lexicon`), clocks, random ids, and the choice the lowest-value query makes
among ties. Everything is proved for all of them. `JsonPrinter.FaithfulPrinter`
shows that a compact printer meets `Faithful`. A random id is taken to be fresh
where a statement says so (`FreshIds`, `FreshRun`).

Some members are named by what the code does rather than what its comments say:

- `native/index/search_index.h:54` promises that an upsert updates every column.
  The record it loads leaves out `trackers_checked`, `info` and `trackers` when
  the torrent does not carry them, and a load keeps the columns it is not given
  (`native/index/groonga_index.cpp:448-460` relies on that to change the counters
  alone). `UpsertReplaces` and `UpsertTrackersInSync` give the exact conditions,
  `StaleCheckSurvives` and `StaleTrackersSurvive` concrete records.
- `docs/M5-PLAN.md:153-155` offers export and import as a migration path, and
  `docs/M5-PLAN.md:267-269` expects `--no-filter` to import everything. Every
  record does arrive, but a torrent without a time stamp comes back stamped with
  the time of import, and empty extras without files come back as none;
  `Portable` is exactly the rest.
- `docs/M5-PLAN.md:275-277` expects an index above its cap to converge. Pruning is
  only started by an addition: `OpenedIsBoundedIff` and `ConvergesUnderInflow` say
  when and how fast, `OversizedOpeningStays` gives the start that waits.
- A loader's wrapper that is called under two ids is counted down twice:
  `LoaderCountExact` says when the count is right.
- `legacy/app/content.js:287` says the extension is removed. When the last dot is
  in a directory name, the file name goes with it (`StemDropsExtension`).

## Model

| member | source | states |
|---|---|---|
| Reimport.ReimportIsCleanup | native/main.cpp:740-883 | Exporting any index and importing the stream into an empty one under a policy keeps the same hashes as cleaning up in place; each torrent is the one the stream carried, stamped if need be with the time its line was read; the two indexes hold the same torrents if and only if every kept torrent is portable. With or without files, with or without the filter. |
| Reimport.ReimportSyncsTrackers | native/index/groonga_index.cpp:369-393 | The searchable tracker names of a reimported record always agree with its extras, so they are those of the cleaned index exactly where those agreed. |
| Reimport.UnfilteredReimportIsIdentity | native/main.cpp:759-820 | With `--no-filter` the reimported index has the original hashes, and the original torrents if and only if all are portable. |
| Reimport.ReimportCounts | native/main.cpp:790-826 | Reimporting an export reports as imported what cleanup keeps, as rejected what cleanup matches, and nothing as malformed. |
| Reimport.ReimportBuckets | native/main.cpp:790-828 | Under any configuration the bucket of a rule holds the number of index records that break that rule first, and exists only if there are any. |
| Reimport.ConfiguredSetting | native/main.cpp:190-204 | The results hold for the policy of every configuration and every index whose keys are info-hashes. |
| Reimport.CarriedUnchanged | native/domain/torrent_codec.cpp:51-134 | A stored torrent comes out of export, import and the index unchanged exactly when it is stamped, exported with its files, and not an empty extras object without files. |
| Reimport.UnstampedIsStamped | native/domain/torrent_codec.cpp:115-116 | A concrete stored torrent the round trip changes. |
| Reimport.ReceivedSameForPolicy | native/main.cpp:805-813 | The stream changes nothing the policy looks at, even without files. |
| Reimport.StreamRoundTrip | native/main.cpp:743-798 | Reading the export back with getline gives exactly the lines written, in order. |
| Reimport.LastRecordWins | native/main.cpp:795-821 | After an import the row of a hash is its last accepted record written over what the row held when that line was read. |
| Reimport.ImportLeavesOthers | native/main.cpp:795-821 | Hashes without an accepted record keep their row, or stay absent. |
| Reimport.ExportLineFate | native/main.cpp:795-821 | The exported line of a record is imported when the policy accepts the stored torrent, and otherwise counted under the rule that rejects it. |
| Transfer.CmdExport | native/main.cpp:740-755 | For every page size export writes one line per record in ascending id order, none lost or repeated, and counts them. |
| Transfer.CmdImport | native/main.cpp:758-831 | Import leaves the index and the counters of the line-by-line specification; the rejected total is the sum of the buckets. |
| Transfer.ReadLines | native/main.cpp:790-821 | The reading loop computes the specification of all the lines of the stream. |
| Transfer.ImportLine | native/main.cpp:797-820 | One line changes the index only when it is imported, and then by one upsert. |
| Transfer.FateMeans | native/main.cpp:797-819 | Exactly which lines are skipped, malformed, rejected under which category, and imported. |
| Transfer.ImportConservesLines | native/main.cpp:790-826 | Imported plus malformed plus the sum of the buckets is the number of non-empty lines. |
| Transfer.ImportTallies | native/main.cpp:797-828 | Imported and malformed are the numbers of lines that came to that end, and there is a bucket for exactly the categories some line was rejected under, holding the number of those lines. |
| Transfer.SumCounts | native/main.cpp:823-825 | The summing loop over the buckets, in any order of the hash map. |
| Transfer.GetLine | native/main.cpp:795 | Each getline takes the first of the remaining lines. |
| Text.LinesOfUnlines | native/main.cpp:748-798 | Lines without a raw newline survive writing with newlines and reading with getline. |
| Text.UnlinesOfLines | native/main.cpp:795 | The lines getline returns of any text, written again, are the text, with the newline its last line may have lacked. |
| Cleanup.SweepIndex | native/main.cpp:865-885 | Although it deletes while paging, the sweep scans every record once, keeps exactly the accepted ones and counts the others, for every page size; a dry run reports the same and changes nothing. It terminates because the records not yet seen get fewer. |
| Cleanup.CmdCleanup | native/main.cpp:837-888 | Cleanup stops before it touches the index exactly when there is a pattern that does not compile; otherwise the report and the index are those of the sweep. |
| Cleanup.CleanupKeepsAccepted | native/main.cpp:873-881 | After cleanup a hash is present exactly when its stored torrent is accepted, and its row is untouched. |
| Cleanup.CleanupKeepsUnbroken | native/main.cpp:845-881 | Under any configuration a hash is left exactly when its stored torrent breaks none of the eleven rules. |
| Sweep.UnseenAfterCursor | native/main.cpp:863-873 | Whatever was deleted so far, the records above the cursor are exactly those not yet seen. |
| Sweep.SweepStep | native/main.cpp:874-880 | Removing a rejected record leaves what one more step of the specification leaves. |
| Sweep.KeptTwice | native/main.cpp:863-885 | A second cleanup under the same policy matches nothing and changes nothing. |
| FilterPolicy.RejectionNamesFirstBrokenRule | native/domain/filter_policy.cpp:117-262 | Under any configuration a torrent is accepted exactly when it breaks none of the eleven rules, each stated over the settings, the pattern engine and the torrent; otherwise its message falls into the bucket of the first rule it breaks. |
| FilterPolicy.BucketOfRule | native/main.cpp:692-700 | The bucket of a rule gets exactly the torrents that break it first. |
| FilterPolicy.NumbersShown | native/domain/filter_policy.cpp:148-162 | A message about size or file count shows the torrent's number and then the limit, in decimal. |
| FilterPolicy.SplitCsvIs | native/domain/filter_policy.cpp:47-61 | The tokens of a type list are its non-empty slices between commas. |
| FilterPolicy.TrimIs | native/domain/filter_policy.cpp:33-40 | Trimming leaves the slice from the first to the last character that is not blank. |
| FilterPolicy.FirstKeywordFinds | native/domain/filter_policy.cpp:169-174 | The keyword shown is the first of the list that occurs in the name. |
| FilterPolicy.FirstDeniedFinds | native/domain/filter_policy.cpp:244-249 | The tracker shown is the torrent's first that is denied. |
| FilterPolicy.CategoryOfRule | native/main.cpp:692-700 | Every message of one rule falls into one bucket, whatever its numbers, names and patterns are. |
| FilterPolicy.LabelsDistinct | native/main.cpp:692-700 | Different rules never share a bucket. |
| FilterPolicy.SameForPolicySameReason | native/domain/filter_policy.cpp:131-262 | The message depends only on name, size, file count, type, category and tracker names. |
| FilterPolicy.InvalidPatternFiltersNothing | native/domain/filter_policy.cpp:117-193 | A pattern that does not compile has the effect of no pattern. |
| TorrentCodec.WireIsReceived | native/domain/torrent_codec.cpp:51-134 | Reading what toJson writes gives the torrent with a lower-case hash, a time stamp, its file count filled in, and no empty extras. |
| TorrentCodec.WireRoundTrip | native/domain/torrent_codec.cpp:51-134 | The exact torrents that survive the wire unchanged. |
| TorrentCodec.BareObject | native/domain/torrent_codec.cpp:95-134 | What is read of an object that says nothing. |
| TorrentCodec.FileMembers | native/domain/torrent_codec.cpp:24-49 | A file is read from the members path and size. |
| TorrentCodec.OlderNamesRead | native/domain/torrent_codec.cpp:101-128 | The older member names of hash and file list are read when the current ones are missing, and only then. |
| Torrents.InfoHashIs | native/domain/torrent.cpp:30-39 | A hash is valid exactly when it is forty hexadecimal digits. |
| Torrents.TrackerNamesAre | native/domain/filter_policy.cpp:231-239 | The tracker names are the lower-cased texts in the list, if there is a list. |
| Torrents.ReadFromOwnName | native/domain/content.cpp:68-118 | A type or category is read from its own name in any case, and everything else is unknown. |
| IndexRow.InsertThenRead | native/index/groonga_index.cpp:347-418 | Reading back a torrent upserted as a new record. |
| IndexRow.RoundsToNearest | native/index/groonga_index.cpp:626-644 | Times are read to the nearest millisecond, ties away from zero. |
| IndexRow.ColumnsAreMembers | native/index/groonga_index.cpp:616-627 | A reader finds the columns in the members of their names, and the time of adding, stored in seconds, in milliseconds. |
| IndexRow.InfoColumnRead | native/index/groonga_index.cpp:645-660 | An info column that holds no object reads as no extras and no files; of an object, filesList is the file list and the rest the extras; a missing file count is the length of that list. |
| IndexRow.UpsertReplaces | native/index/groonga_index.cpp:352-401 | An upsert over an existing record reads back as the new torrent exactly when it carries the check time and extras, or the record had none. |
| IndexRow.StaleCheckSurvives | native/index/groonga_index.cpp:366-367 | A concrete upsert that does not reach every column. |
| IndexRow.UpsertTrackersInSync | native/index/groonga_index.cpp:369-393 | Exactly when the searchable tracker column agrees with the extras after an upsert. |
| IndexRow.StaleTrackersSurvive | native/index/groonga_index.cpp:373-382 | A concrete upsert after which it does not. |
| GroongaIndex.Index.Load | native/index/groonga_index.cpp:395-401 | A load rewrites the one record under its key, creating it if it has to, keeps ids and keys distinct and touches no other record. |
| GroongaIndex.Index.Upsert | native/index/groonga_index.cpp:347-418 | Upsert refuses what is not an info-hash and otherwise writes one record. |
| GroongaIndex.Index.Remove | native/index/groonga_index.cpp:426-433 | Remove deletes the record of the lower-cased hash and keeps the order of the rest. |
| GroongaIndex.Index.UpdateStats | native/index/groonga_index.cpp:435-463 | A scrape result changes an existing record only. |
| GroongaIndex.Index.UpdateVotes | native/index/groonga_index.cpp:465-481 | A vote is written whether or not the record exists. |
| GroongaIndex.Index.MergeInfo | native/index/groonga_index.cpp:509-555 | Merging extras changes an existing record only. |
| GroongaIndex.Index.PageAfterId | native/index/groonga_index.cpp:889-926 | A page is the first records above the cursor, in id order, read back as torrents. |
| GroongaIndex.Index.LowestValueHashes | native/index/groonga_index.cpp:928-952 | The query answers as many keys as it can; one that is listed has fewer seeders than one left out, or as many and was added no later. |
| GroongaIndex.UpsertReadsBack | native/index/groonga_index.cpp:347-418 | A valid torrent is what a reader sees after its upsert if it is new, and exactly under the condition of `UpsertReplaces` if it is not; an invalid one changes nothing. |
| GroongaIndex.OthersUntouched | native/index/groonga_index.cpp:347-555 | A command leaves all records of other hashes as they are. |
| GroongaIndex.StatsReadBack | native/index/groonga_index.cpp:435-463 | After a scrape result a reader sees the new counters and check time and nothing else changed. |
| GroongaIndex.VotesReadBack | native/index/groonga_index.cpp:465-481 | After a vote a reader sees the new votes and nothing else changed; without a record, one that holds nothing but the votes. |
| GroongaIndex.MergeReadsBack | native/index/groonga_index.cpp:509-555 | The merge is shallow: new members replace their namesakes, the others and all other columns stay; search sees the trackers of the merged extras if these list any, and otherwise the old ones. |
| GroongaIndex.CreatedBy | native/index/groonga_index.cpp:347-515 | Only a valid upsert or a vote creates a record. |
| GroongaIndex.StepKeepsHashKeysIff | native/index/groonga_index.cpp:347-555 | A write command keeps all keys lower-case info-hashes exactly unless it is a vote for an unknown hash that is not an info-hash. |
| GroongaIndex.RunKeepsHashKeys | native/index/groonga_index.cpp:347-555 | So does any run of commands without such a vote. |
| Indexer.RunKeepsBounded | native/engine/indexer.cpp:21-87 | In every interleaving of discoveries and prune tasks, from an index of any size, the counter is the number of records; and while no prune is queued the index is at most a hundred records or a fiftieth of the cap over it exactly when it was so at the start or a record was added since. |
| Indexer.OpenedIsBoundedIff | native/engine/indexer.cpp:11-87 | The same from the moment the indexer is made. |
| Indexer.OversizedOpeningStays | native/engine/indexer.cpp:11-58 | An index opened over cap and slack stays there, with no prune queued, when the discovered torrent is rejected. |
| Indexer.ConvergesUnderInflow | native/engine/indexer.cpp:21-87 | In any interleaving, n prune tasks bring the count down by 500 each towards the cap, give or take the records added, and never below the cap or the start. |
| Indexer.PruningConverges | native/engine/indexer.cpp:60-87 | Left alone, each task removes 500 records until exactly the cap is left, and then no task is queued. |
| Indexer.PruneDropsLowest | native/engine/indexer.cpp:70-76 | What a batch removes has fewer seeders than anything it keeps, or as many and was added no later, and it changes nothing it keeps. |
| Indexer.RunPrunesLowest | native/engine/indexer.cpp:21-87 | The same in any run: only prune tasks remove records, and only these. |
| Indexer.DiscoveryIsUpsert | native/engine/indexer.cpp:21-37 | An admitted discovery is then in the index as an upsert writes it, other records stay, and one that is not admitted changes nothing. |
| Indexer.LiveIndexer.HandleDiscovered | native/engine/indexer.cpp:21-58 | A discovery takes the step of the specification and says whether the record is new. |
| Indexer.LiveIndexer.RunPruneBatch | native/engine/indexer.cpp:60-87 | A prune task removes the keys of the lowest-value query and requeues itself as specified. |
| ContentClassifier.TorrentRecord.TorrentTypeDetect | legacy/app/content.js:310-332 | The voting loop, sort and scan give the declarative type and category, and return each recognised type's part of the torrent size. |
| ContentClassifier.OutcomeMeans | legacy/app/content.js:274-332 | That type is the winner of the vote, or without one the earlier type, unless it is video, pictures or archive and a very bad word occurs; the category is xxx in these cases when a block word comes first, and stays otherwise. |
| ContentClassifier.TorrentRecord.DetectSubCategory | legacy/app/content.js:274-296 | For the scanned types the early-exit scan sets bad exactly when a slice between separators of the lower-cased name, or of a stem, is very bad, and xxx exactly when such a slice is a block word and comes before every very bad one. |
| ContentClassifier.StreamSays | legacy/app/content.js:278-294 | The word lists of the scan find exactly what these slices say. |
| ContentClassifier.TextsAre | legacy/app/content.js:275-294 | A very bad word counts in the lower-cased name and in the stem of every lower-cased path; where there is none, every block word counts. |
| ContentClassifier.TorrentRecord.BlockBadName | legacy/app/content.js:261-272 | The same for one name; a torrent that is already bad stops after the first word. |
| ContentClassifier.ClassifyTwice | legacy/app/content.js:274-332 | Classifying a classified torrent again changes neither type nor category, also when no file is recognised. |
| ContentClassifier.SortedHeadWins | legacy/app/content.js:313-328 | The first sorted key is a type with the most bytes, ties going to the type whose first file comes first; dividing by the torrent size plays no part. |
| ContentClassifier.ScanStopsAt | legacy/app/content.js:282-293 | Once a very bad word was met, the words after it decide nothing. |
| ContentWords.ScanConcat | legacy/app/content.js:263-271 | Scanning one word list and then, unless stopped, the next is scanning both. |
| ContentWords.WordsAre | legacy/app/content.js:262 | A text is a word of a name exactly when it is a slice without separators that reaches from one separator or end to the next. |
| ContentWords.WordsGlued | legacy/app/content.js:262 | The words in their order, with the separators between them, give the name back. |
| ContentWords.StemIsPrefix | legacy/app/content.js:285-288 | Split, pop and join leave what stands before the last dot of the path. |
| ContentWords.StemDropsExtension | legacy/app/content.js:285-288 | The stem is the path without its file's extension exactly when the last dot is in the file name. |
| ContentWords.DotInDirectoryHidesName | legacy/app/content.js:285-288 | A concrete path whose file name is not scanned. |
| ContentWords.FileTypeIsExtensionType | legacy/app/content.js:298-308 | The type depends only on what follows the last dot of the file name; a name without a dot is its own extension. |
| ContentVote.OneWinner | legacy/app/content.js:324-328 | The vote has at most one winner. |
| ContentVote.SortIsStable | legacy/app/content.js:324-326 | The modelled sort has the same keys, is ordered by the comparator, and keeps the order of keys that compare equal (section 23.1.3.30 of ECMA-262, 2023). |
| ContentVote.SortedHead | legacy/app/content.js:324-328 | The first sorted key is the earliest with the largest total. |
| ContentShares.BytesOfPermutation | legacy/app/content.js:313-323 | The totals do not depend on the order of the files. |
| ContentShares.BytesOfParts | legacy/app/content.js:313-323 | Splitting a file into parts of the same type leaves every total alone. |
| ContentShares.TypesShareKnownBytes | legacy/app/content.js:313-323 | The totals of distinct types add up to at most the recognised bytes, and to exactly them when every type is listed. |
| ContentShares.PartsSumToAtMostOne | legacy/app/content.js:313-331 | The values of the returned map sum to the recognised bytes over the torrent size, so to at most one when that is the sum of the file sizes. |
| ContentShares.MajorityWins | legacy/app/content.js:324-328 | A type with more than half of the recognised bytes always wins. |
| ClientSocket.EmitsAreServed | legacy/app/app.js:64-84 | Read off the events of any run with fresh ids: a callback handed to an emit, at top level or in the body of a served reply, is in the table until a reply names its id and has been called from then on; nothing else is in the table or was called. |
| ClientSocket.CallbacksRunOnce | legacy/app/app.js:64-84 | In every such run, with re-entrant emits and duplicate, unknown and late replies, each callback runs at most once and only for its own id, and exactly the answered ids were called. |
| ClientSocket.TraceMakes | legacy/app/app.js:123-141 | The loaders made are those the events make, and the client is mounted exactly when their last word on it says so. |
| ClientSocket.LoaderCountExact | legacy/app/app.js:123-137 | With no rule on how wrappers are handed out, the counter is the loaders made less the wrapper calls; it is the number of outstanding loaders exactly when no wrapper was called under two ids, and too small otherwise. |
| ClientSocket.ReplyKeepsCountIff | legacy/app/app.js:75-84 | A reply spoils a right count exactly when its callback is a wrapper that was called before. |
| ClientSocket.LoadersCounted | legacy/app/app.js:123-141 | When each wrapper is handed to one emit, the counter is the number of loaders made and not finished between any two handlers, never negative, and the client is ready exactly when mounted with none outstanding. |
| ClientSocket.WrapperHandedTwice | legacy/app/app.js:130-136 | A concrete run in which handing one wrapper to two emits drives the counter below zero. |
| ClientSocket.Client.EmitTo | legacy/app/app.js:64-74 | An emit with a callback keeps it under the drawn id and returns that id. |
| ClientSocket.Client.MakeLoader | legacy/app/app.js:125-137 | A loader is counted when it is made. |
| ClientSocket.Client.OnCallback | legacy/app/app.js:75-84 | A reply runs the callback and whatever it does, then forgets the id, known or not. |
| ClientSocket.Client.IsReady | legacy/app/app.js:139-141 | It answers true exactly when the client is mounted and the counter is zero. |
| Listeners.ReachableListed | legacy/app/app.js:40-63 | In every reachable state every live listener has its registry entry, if `off` names the event its function is on. |
| Listeners.RunKeepsListed | legacy/app/app.js:40-63 | The same from any state in which it holds. |
| Listeners.OffKeepsListedIff | legacy/app/app.js:50-63 | `off` keeps that invariant exactly when it names that event. |
| Listeners.OffSilencesIff | legacy/app/app.js:50-63 | After `off` no event reaches the function exactly when the registration it finds was its only live one, on the named event. |
| Listeners.OffKeepsOthers | legacy/app/app.js:50-63 | All other functions still get every event, in the same order. |
| Listeners.OffAfterAnyRun | legacy/app/app.js:40-63 | Both hold after every run with fresh ids, also one in which `off` named wrong events. |
| Listeners.OnThenOffSilences | legacy/app/app.js:40-63 | A silent function registered once and then taken off its event is silent again, whatever happened to other functions between. |
| Listeners.DeliveredInOrder | legacy/app/app.js:40-63 | After any run an event reaches the functions on it in the order in which they were registered. |
| Listeners.StaysSilent | legacy/app/app.js:40-63 | A silenced function stays silent until it is registered again. |
| Listeners.RegisteredTwiceStaysLive | legacy/app/app.js:46-61 | A concrete run: a function registered twice stays live after two `off` calls. |
| Listeners.Registry.Add | legacy/app/app.js:40-49 | `on` takes the step of the specification. |
| Listeners.Registry.Remove | legacy/app/app.js:54-62 | `off` with a function takes the step of the specification. |
| Listeners.Registry.RemoveAll | legacy/app/app.js:51-52 | `off` without a function clears the event. |
| PeerTotals.TotalsFollowServer | legacy/app/app.js:160-177 | After a snapshot that is believed, any run of joins and leaves keeps the peer count right, and the torrent total right exactly when the leaving peers' reports are off by nothing in all. |
| PeerTotals.SteadyPeersDoNotDrift | legacy/app/app.js:161-168 | Peers that leave with the count they joined with never put the total off. |
| PeerTotals.RunMovesDrift | legacy/app/app.js:161-168 | How far the total is off after any run is the sum of the leaving peers' differences. |
| PeerTotals.SnapshotSyncs | legacy/app/app.js:170-177 | A snapshot makes the totals right exactly when it is not empty, the client counted one peer, or they were right; an empty one that is not believed changes nothing. |
| PeerTotals.PeerPanel.PeerMessage | legacy/app/app.js:161-168 | A message with more peers than before adds its torrents, any other subtracts them, and its peer count becomes the new one. |
| PeerTotals.PeerPanel.PeersReply | legacy/app/app.js:170-177 | A snapshot replaces both totals if it is not empty or one peer was counted, and otherwise changes nothing. |
| MigrationProgress.MigrationDraws | src/main.cpp:185-204 | Between a start and its finish, with one positive total and progress that does not go back, the drawn percentages strictly increase and there are at most 101 bars. |
| MigrationProgress.ReportDefined | src/main.cpp:193-203 | A report is defined exactly when the smaller number is at most (2^63 - 1) / 100, and every bar has thirty cells, the filled ones being the rounded-down share. |
| MigrationProgress.PercentIsShare | src/main.cpp:196-201 | The percentage is the rounded-down share of the total, capped at 100 and reaching it only at the end. |
| MigrationProgress.FirstReportDraws | src/main.cpp:185-204 | The first report after a start is drawn, also with no progress. |
| MigrationProgress.FinishBreaksLine | src/main.cpp:185-211 | The finish breaks the line exactly when a bar was drawn since the start, and nothing is drawn after it. |
| MigrationProgress.NegativeReport | src/main.cpp:193-203 | Negative progress draws an empty bar down to minus three percent, and asks for one of negative length below. |
| MigrationProgress.NothingWhenInactive | src/main.cpp:194-195 | Outside a migration nothing is drawn. |
| MigrationProgress.ConsoleReporter.OnStarted | src/main.cpp:186-190 | A start activates the drawing and forgets the last percentage, so that the first report draws. |
| MigrationProgress.ConsoleReporter.OnProgress | src/main.cpp:193-204 | The progress handler takes the step of the specification. |
| MigrationProgress.ConsoleReporter.OnFinished | src/main.cpp:206-211 | The finish handler breaks the line exactly when a bar was drawn. |
| AutoScroll.FiresExactly | legacy/app/auto-scrollable.js:9-28 | In every run, the first scroll event within the last sixth of the document since its height last changed asks for more; after it, at that height, exactly those do whose window ends a whole pixel below the document. |
| AutoScroll.FiringsPerHeight | legacy/app/auto-scrollable.js:9-28 | Over any run the page asks at most once more often than the height changed, besides the events that end a whole pixel below the document. |
| AutoScroll.RefiresBelowDocument | legacy/app/auto-scrollable.js:24-27 | A concrete run that asks twice at one height. |
| AutoScroll.Scrollable.Scroll | legacy/app/auto-scrollable.js:11-28 | The scroll listener takes the step of the specification. |
| Rating.ClosedForm | legacy/app/rating.js:1-15 | The rating is (good + 4.05) / (good + bad + 9), and zero without votes. |
| Rating.VotesMoveRating | legacy/app/rating.js:1-15 | Another good vote strictly raises it, another bad one strictly lowers it. |
| Rating.PulledTowardsPrior | legacy/app/rating.js:1-15 | It lies between the share of good votes and 0.45, away from the share by 9 times the distance over n + 9. |

## Left out

- GroongaIndex.Index.Load: does not model a command the database refuses; a failed upsert would count as malformed and a failed page would end a sweep early.
- GroongaIndex.Index.Upsert: does not model the Files table that indexes file paths for search, nor the unsigned width of the number columns.
- GroongaIndex.Index.Remove: does not model the Files table, nor a delete the database refuses.
- Indexer.LiveIndexer.RunPruneBatch: does not model a remove that fails, which the original does not count.
- IndexRow.InsertThenRead: times are exact seconds; the rounding of a double to microseconds is not modelled.
- TorrentCodec.WireIsReceived: a member of the wrong JSON kind reads as its default; what the JSON library does then is not part of this model.
- Transfer.CmdImport: the counters are unbounded, not 32-bit.
- MigrationProgress.MigrationDraws: assumes progress that is not negative and does not go back, and a product in 64-bit range, as the migration service reports it; `Progressed` itself is total.
- ContentClassifier.TorrentRecord.TorrentTypeDetect: requires a positive torrent size, where the original divides by it, and uses exact reals.
- ClientSocket.Client.OnCallback: the delivered data, and exceptions thrown by callbacks.
- The scan loops inside the filter policy are modelled as functions, not as methods.
- Object keys that look like array indexes, which JavaScript would order first; type names do not.
- Full-text search, top and random queries, and what the native classifier decides before the indexer sees a torrent.
- `extractDataDir` and the flag helpers: easy.
- The web client's own emit, React components, translations, and start-up and shutdown wiring.
- Several processes on one index.
