# Vivy: a verified model

Vivy is a vector engine written in Rust (`vec/`) with a durable memory store for agents on top of it (`ltm/`). This
project models its four hard parts in Dafny and proves what they promise. `dafny verify dfyconfig.toml` checks
everything.

**The graph and its oracle** (`TopK`, `CandidateHeap`, `HnswGraph`, `LayerSearch`, `Descent`, `Linking`, `Hnsw`,
`Pools`, `Flat`, `Filter`, `VivyIndex`). `Hnsw.HnswIndex` is the multi-layer graph with the fields of the original: a
flat vector buffer, ids, levels, adjacency lists, entry node and top level. The level that an insertion draws is a
parameter. What an insertion and a search do is fixed on graphs of any size: where the descent through the layers ends,
which nodes a beam visits and where it stops (`Descent.DescentEndIsDetermined`, `LayerSearch.ExplorationIsDetermined`,
`Hnsw.HnswIndex.AnswerIsDetermined`). Every insertion keeps the structural invariant, and as long as the index holds at
most 33 nodes the base layer is a complete graph, so that every search, filtered or not, is exact. "Exact" is
`TopK.IsTopK`: sorted, a sub-multiset of the pool of everything stored that passes the filter, of size min(k, pool), and
nothing left out is nearer. `Flat` proves that an exact answer shows the distances that the brute-force oracle shows
over the passing entries. `VivyIndex` merges the answers of eight shards and the scans of the sealed segments, and its
compaction preserves the stored multiset and makes every search exact.

**Files and crashes** (`Bytes`, `Wal`, `Segments`, `Manifest`, `Crash`, `Mirror`, `Durability`, `Losses`, `Races`). The
formats are byte (or character) sequences; writers are methods, readers are functions and loops over the bytes. `Crash`
is a machine over those bytes: appending, flushing, draining a shard, creating the segment file, any part of its first
pass, any part of its table patched, the manifest, the log reset, publication, a compaction that returns an error at any
file operation, a crash with the log cut at any byte, and reopening. `Mirror` ties disk and memory together, and the
theorems of `Durability` speak about every run; `Losses` is a run on which a failed compaction costs a committed pair.
`Races` lets insertions and the compactor interleave, over sets of pairs.

**The journal** (`Repository`, `Adapter`, `Journal`, `Recovery`, `Visibility`, `Runs`, `Moments`, `Interleavings`,
`Clients`, `Agreement`, `Coordinator`, `Store`, `Serving`, `Opening`). The two tables are maps with primary keys; each
transaction is a function on them and a method of `Repository.Repository`. An operation of the store is a list of
effects, each one transaction or one call of the index; `Coordinator.JournalCoordinator` is the code, proved to perform
exactly those lists in that order (its ghost `history` holds the world after every effect, so it lists what a crash
could leave behind). `Runs` covers every sequential run with crashes, index errors and recoveries anywhere; `Moments`
says what holds between two effects and what a cut there costs; `Interleavings` covers every order of any effects, and
`Clients` any number of operations and recoveries at once, each running its own list in order until it ends or is cut.
`Agreement` says when the index shows exactly the Active rows although operations interleave. `Adapter` holds the plain
map that specifies an index and the adapter over the graph engine, whose ghost field `model` is that map; `Serving` puts
the adapter in the place of the plain map.

**Recall** (`Distance`, `Ranking`, `Recall`, `Retrieval`). The distances over the reals with Cauchy-Schwarz, the MMR
loop as a trade-off of score against similarity and against the stable sort, the rows that recall may return, and recall
from the adapter's search to the answer.

## Where the code and its own words differ

The model follows the code.

- The comment at `vec/src/hnsw.rs:167` speaks of a min-heap of candidates; both heaps hand out the farthest first.
  `Hnsw.HnswIndex.EfSearch` pops the farthest candidate, and what it promises holds all the same.
- `cosine` is documented as 0 for identical directions. The product of the lengths is clamped at 2^-23, and
  `Distance.CosineIsZero` shows what holds: the distance is 0 exactly if the directions are identical and the product
  of the lengths reaches the clamp. For b = c * a that product is c times the squared length of a
  (`Distance.CosineOfSameDirection`).
- With a limit of 0 the adapter's search returns every live hit it fetched. `Adapter.LimitHolds` and
  `Adapter.ZeroLimitIsNoLimit` say exactly when the limit is kept: always from 1 on; at 0, with an exact engine and at
  most nine wasted versions, only if nothing is stored. `Adapter.TenWastedHideALiveId` shows that nine is the bound.
- The adapter's batch is all or nothing, the specification index stops at the first wrong dimension
  (`Adapter.BatchesAgree`, `Adapter.BatchesDiffer`).
- An update request can name a kind, but no update writes it (`Store.UpdateMerges`).
- Forgetting an id under a foreign scope takes an Active row out of the index until the next rebuild
  (`Visibility.ForgetKeepsVisible`, `Visibility.ForeignForgetHidesAnActiveRow`).
- A remember without an operation id that is cut between its insertion and its activation leaves its row Pending, and
  no recovery will activate it (`Moments.CutRememberRecovers`); `Moments.OnlyAnonymousRowsStrand` says that nothing
  else leaves such a row.
- With concurrent clients a row forgotten while its remember is under way can end Active
  (`Interleavings.ForgetDuringRemember`). `Clients.DeletedBeforeActivation` says exactly when, and
  `Clients.ForgetAfterReplyIsFinal` what a client can do about it.
- Two updates of one row, or an update and a forget, that overlap can leave a stale or a deleted vector in the index
  until the next rebuild (`Agreement.OverlappingUpdatesLeaveStaleVector`, `Agreement.UpdateDuringForgetKeepsVector`).
  `Agreement.VisibleExactly` says exactly when the index is right, and `Agreement.OrderlyClientsStayVisible` that it
  is whenever operations on one id do not overlap.
- A compaction that returns an error after draining has dropped its entries from memory, and the log reset of the next
  one wipes them: `Losses.FailedCompactionLosesAPair` is such a run. `Durability.LostExactly` says exactly which
  committed pairs are lost, and `Durability.NothingIsLost` that none are as long as no compaction fails.
- An insertion that is published after a running compaction drained its shard, or not at all before the log reset, is
  off the disk after that reset: `Races.ResetExposes` and `Races.CommittedUnlessExposed` say exactly when, and
  `Races.InsertionDuringCompactionIsLost` is a run on which a restart loses such a pair.
- A log vector of 2^32 components or more is not read back (`Wal.ReplayIsIdentity`), nor is a segment name with
  Unicode white space at an end or a line break (`Manifest.ManifestReadsBack`, `Manifest.LeadingSpaceIsLost`).

## Model

| member | source | states |
|---|---|---|
| `Hnsw.HnswIndex.EfSearch` | vec/src/hnsw.rs:172-217 | terminates; the hits are sorted, distinct, at most ef, the ef nearest of the nodes visited; all visited nodes are reachable, all of them if at most ef are; it stops only when every node visited was expanded or dropped for ef nearer ones, or some node still queued is farther than every hit; visited nodes and hits are those of the run from the start |
| `Hnsw.HnswIndex.Expand` | vec/src/hnsw.rs:194-209 | afterwards every neighbour of the expanded node has been seen, and the search invariant holds |
| `Hnsw.HnswIndex.Offer` | vec/src/hnsw.rs:196-206 | a neighbour is taken in once, measured, queued and admitted as the search invariant demands |
| `CandidateHeap.Push` | vec/src/hnsw.rs:53-59 | the heap keeps its members and its order, the nearest first and the farthest on top |
| `CandidateHeap.Pop` | vec/src/hnsw.rs:53-59 | removes exactly the farthest member |
| `LayerSearch.Meet` | vec/src/hnsw.rs:195-206 | meeting an unseen neighbour keeps the search invariant: seen nodes reachable, results the ef nearest seen, results still queued or expanded |
| `LayerSearch.Take` | vec/src/hnsw.rs:189-193 | popping the farthest candidate to expand it keeps the search invariant |
| `LayerSearch.Exhausted` | vec/src/hnsw.rs:189-217 | an empty worklist means everything reachable was visited, if at most ef nodes are reachable |
| `LayerSearch.StoppedEarly` | vec/src/hnsw.rs:190-193 | the early exit cannot lose anything in that case either |
| `LayerSearch.NothingDropped` | vec/src/hnsw.rs:200-206 | while at most ef nodes are reachable no visited node is ever evicted |
| `LayerSearch.ExplorationIsDetermined` | vec/src/hnsw.rs:172-217 | graph, distances, start and ef determine the nodes visited and the hits |
| `Hnsw.HnswIndex.GreedyDown` | vec/src/hnsw.rs:148-164 | the walk from the start that always goes to the first nearest of the links while that is strictly closer; it terminates at a reachable local minimum, no farther than the start |
| `Descent.DescentIsDetermined` | vec/src/hnsw.rs:148-164 | where such a walk ends is determined by where it starts |
| `Descent.DescentReaches` | vec/src/hnsw.rs:148-164 | its end is reachable in the layer and no farther |
| `Descent.DescentEndIsDetermined` | vec/src/hnsw.rs:118-120 | so is the end of the walks through a range of layers, each beginning where the one above ended |
| `Hnsw.HnswIndex.Trim` | vec/src/hnsw.rs:221-234 | the list becomes the closest 32 of its edges |
| `Hnsw.HnswIndex.LinkBack` | vec/src/hnsw.rs:131-134 | one back link, trimmed only on overflow; every other list is untouched |
| `Hnsw.HnswIndex.Connect` | vec/src/hnsw.rs:128-136 | both directions of one edge; lists stay duplicate-free, loop-free, in range, on nodes of sufficient level and at most 32 long, so the level test never fails |
| `Hnsw.HnswIndex.LinkLayer` | vec/src/hnsw.rs:123-139 | one layer of an insertion: searched from the given start, connected to the closest found, other layers as before; the next start is a nearest one of the nodes chosen, or the same if none was |
| `Linking.FirstIsNearest` | vec/src/hnsw.rs:137-138 | the first node chosen is a nearest one of those chosen |
| `Hnsw.HnswIndex.Choose` | vec/src/hnsw.rs:124-126 | the chosen neighbours are the closest of what the construction search found, 32 at the base layer and 16 above |
| `Hnsw.HnswIndex.ConnectAll` | vec/src/hnsw.rs:128-136 | one layer now differs by exactly the links between the new node and the chosen ones, up to trimming |
| `Hnsw.HnswIndex.Append` | vec/src/hnsw.rs:103-108 | all four arrays grow by one unlinked node |
| `Hnsw.HnswIndex.Descend` | vec/src/hnsw.rs:118-120 | ends where the walks through the layers above those to be linked end, from the old entry on down; that is another node and has the first layer to be linked |
| `Hnsw.HnswIndex.LinkEverywhere` | vec/src/hnsw.rs:116-139 | every layer from the top shared one down to the base is linked once, the top one from where the descent ended, each further one from a nearest node chosen in the layer above |
| `Hnsw.HnswIndex.Insert` | vec/src/hnsw.rs:102-145 | for every level drawn: the structural invariant holds again, exactly one pair is appended, the entry moves exactly if the level is a new top; each shared layer changed as its linking prescribes, the top one linked from the end of the descent from the old entry, each lower one from a nearest node chosen above |
| `Linking.SmallBaseStaysComplete` | vec/src/hnsw.rs:123-139 | while at most 33 nodes are stored, an insertion keeps the base layer the complete graph |
| `Linking.AllRecommended` | vec/src/hnsw.rs:124-126 | in that regime the insertion search recommends every other node |
| `HnswGraph.CompleteIsConnected` | vec/src/hnsw.rs:102-145 | a complete base layer is reachable from every node |
| `Hnsw.HnswIndex.SmallIsExact` | vec/src/hnsw.rs:274-311 | every index of at most 33 nodes answers every query exactly |
| `Hnsw.HnswIndex.SearchFiltered` | vec/src/hnsw.rs:274-311 | the ef-doubling loop terminates; it starts where the walks from the entry through all upper layers end, and answers with the last of the beams from there; the answer is sorted, at most k, drawn from the passing pairs, and not empty for k >= 1 without a filter; if no more nodes are reachable from that start than the first beam holds, or the answer is short and no more than the widest beam of 1000, it is the k nearest of the passing pairs among exactly those nodes; so it is exact over everything when the base layer is connected and fits the beam |
| `Hnsw.HnswIndex.DescendToBase` | vec/src/hnsw.rs:286-288 | the loop over the upper layers ends where the walks from the entry through layers `maxLevel` to 1 end |
| `Hnsw.HnswIndex.Descended` | vec/src/hnsw.rs:286-311 | each beam is twice as wide as the one before, up to 1000; the last one, and no earlier one, has k passing hits or is the widest |
| `Hnsw.HnswIndex.AnswerIsDetermined` | vec/src/hnsw.rs:274-311 | graph, query, k and filter determine the answer and where the descent ends |
| `Hnsw.HnswIndex.ReplyIsExact` | vec/src/hnsw.rs:274-311 | it is the exact answer if the base layer is connected and fits the first beam, or the widest one and the answer is short |
| `Hnsw.HnswIndex.Round` | vec/src/hnsw.rs:294-302 | one beam yields passing pairs only, sorted; if at most ef nodes are reachable from its start, exactly the passing pairs among them |
| `Hnsw.HnswIndex.Search` | vec/src/hnsw.rs:266-268 | the same without a filter |
| `Hnsw.HnswIndex.Drain` | vec/src/hnsw.rs:254-263 | hands out exactly the stored pairs and leaves an empty valid index |
| `Hnsw.ClosestN` | vec/src/hnsw.rs:315-320 | the n nearest of the candidates |
| `TopK.TruncatedSortIsTopK` | vec/src/flat.rs:47-49 | sorting a pool and truncating it gives its k nearest items |
| `TopK.TopKDistancesUnique` | vec/src/flat.rs:40-50 | two exact answers to one query show the same distances, position by position |
| `TopK.MergedAnswer` | vec/src/concurrent.rs:304-335 | the k nearest of what stands for all pools is the k nearest of everything |
| `TopK.AnswerStandsForPool` | vec/src/concurrent.rs:307-310 | an exact per-shard answer may stand for the whole shard in a merge |
| `Flat.FlatIndex.Search` | vec/src/flat.rs:40-50 | the exact k nearest of everything stored |
| `Flat.ExactAnswerMatchesOracle` | vec/src/flat.rs:40-50 | under a symmetric metric an exact filtered answer shows the oracle's distances over the passing entries |
| `Filter.FilterIndex.Insert` | vec/src/filter.rs:44-50 | exactly one (id, field, value) fact is added |
| `Filter.FilterIndex.Evaluate` | vec/src/filter.rs:53-92 | the set returned is exactly the ids that satisfy the expression under a per-id meaning (an empty conjunction matches nothing, negation is relative to ids with metadata) |
| `Filter.FilterIndex.AllIds` | vec/src/filter.rs:105-113 | exactly the ids with some metadata |
| `VivyIndex.VivyIndex.Insert` | vec/src/concurrent.rs:156-174 | one pair is added to its shard under the counter's id, which no stored id equals while ids lie below the 64-bit maximum; the counter goes on by one, wrapping; a wrong dimension changes nothing |
| `VivyIndex.VivyIndex.InsertWithId` | vec/src/concurrent.rs:177-194 | one pair is added to its shard and the counter becomes the greater of itself and the id plus one, so automatic ids stay fresh |
| `VivyIndex.VivyIndex.Publish` | vec/src/concurrent.rs:171-172 | the pair becomes the last of the shard its id is hashed to, the other shards stay as they were, and the stored multiset grows by it |
| `VivyIndex.ScanSegment` | vec/src/concurrent.rs:316-331 | the scan yields every passing pair of the segment with its distance |
| `VivyIndex.VivyIndex.AskShards` | vec/src/concurrent.rs:304-312 | every shard is asked and gives one answer that its own search may give; together they stand for everything in the shards if each is exact for the first beam, or if there are fewer than k and each fits the widest beam |
| `VivyIndex.VivyIndex.AskSegments` | vec/src/concurrent.rs:314-331 | adds exactly the scans of all segments, so that the results stand for everything stored under those conditions |
| `VivyIndex.VivyIndex.MergeAnswers` | vec/src/concurrent.rs:304-335 | the merged answer is the k nearest of the eight shards' answers and all segment scans, and the k nearest of everything under the same conditions |
| `VivyIndex.VivyIndex.Search` | vec/src/concurrent.rs:339-368 | the k nearest of the eight shards' answers and all segment scans, not empty if k >= 1 and anything is stored; exact over all stored pairs whenever the shards are, and whenever it gives fewer than k and no shard exceeds the widest beam |
| `VivyIndex.VivyIndex.SearchFiltered` | vec/src/concurrent.rs:280-336 | the same over the pairs whose ids satisfy the expression; an expression nothing satisfies gives an empty answer |
| `VivyIndex.VivyIndex.MergeIsDetermined` | vec/src/concurrent.rs:304-335 | the stored graphs, query, k and filter determine the distances of the merged answer, position by position |
| `VivyIndex.VivyIndex.UnfilteredMergeFindsSome` | vec/src/concurrent.rs:339-368 | an unfiltered merge of an index that holds anything is not empty |
| `VivyIndex.VivyIndex.RunCompaction` | vec/src/concurrent.rs:466-509 | the stored multiset is unchanged, the new segment holds exactly what the shards held, the shards are empty and every search is exact afterwards |
| `VivyIndex.VivyIndex.DrainAll` | vec/src/concurrent.rs:466-474 | the entries are those of all shards, in order, and every shard is empty |
| `Bytes.ReadsBack` | vec/src/storage/wal.rs:48-50 | a number that fits its little-endian field is read back |
| `Bytes.WordsReadBack` | vec/src/storage/wal.rs:51-52 | so is a vector of 32-bit words |
| `Bytes.DigitAt` | vec/src/storage/wal.rs:48-50 | byte i of a field is digit i of the number to the base 256, the least significant first |
| `Wal.WalWriter.Append` | vec/src/storage/wal.rs:45-54 | the entry's encoding is appended to the buffer |
| `Wal.WalWriter.Commit` | vec/src/storage/wal.rs:56-61 | the file alone holds everything appended so far, and if that is the log of some entries it replays them if and only if every dimension fits |
| `Wal.ReplayFile` | vec/src/storage/wal.rs:77-118 | the loop computes the replay function: entries delivered, and a clean, torn or unknown-tag end |
| `Wal.EntryReadsBack` | vec/src/storage/wal.rs:45-54 | an entry whose dimension fits is read back from the front of any bytes |
| `Wal.PrefixReplay` | vec/src/storage/wal.rs:77-118 | a log cut at any byte replays exactly the entries wholly before the cut, and cleanly if and only if the cut is an entry boundary |
| `Wal.SomeBoundary` | vec/src/storage/wal.rs:77-118 | every cut lies between two consecutive boundaries |
| `Wal.ReplayIsIdentity` | vec/src/storage/wal.rs:45-118 | replaying the whole log gives the entries back if and only if every dimension fits 32 bits |
| `Segments.SegmentWriter.Push` | vec/src/storage/segments.rs:278-284 | a node of the right dimension is collected, another one refused |
| `Segments.SegmentWriter.FirstPass` | vec/src/storage/segments.rs:290-317 | the file after the first pass, and the true offset of every node |
| `Segments.SegmentWriter.Write` | vec/src/storage/segments.rs:290-326 | after the second pass the table holds the offsets and nothing else changed |
| `Segments.SegmentReadsBack` | vec/src/storage/segments.rs:74-121 | every node's id, level, neighbour lists and vector come back through all three readers; no read is truncated or misaligned |
| `Segments.BodyAligned` | vec/src/storage/segments.rs:221-248 | node data always starts on a multiple of four, as the cast to floats requires |
| `Segments.FirstPassReadsFirstNode` | vec/src/storage/segments.rs:135-142 | a file abandoned between the passes opens, and every index shows its first node |
| `Segments.SkipLayers` | vec/src/storage/segments.rs:221-248 | the cursor loop ends behind the neighbour lists, or reports truncation exactly if they are cut short |
| `Segments.VectorBytes` | vec/src/storage/segments.rs:221-248 | the reader built on that loop computes `vector_at`: the vector, truncation, or a panic on a bad offset or alignment |
| `Segments.ReadLists` | vec/src/storage/segments.rs:173-181 | the loop collects the neighbour lists, or finds them cut short |
| `Segments.NodeRecord` | vec/src/storage/segments.rs:154-198 | the reader built on it computes `read_node` |
| `Segments.WrittenFileShowsAll` | vec/src/storage/segments.rs:212-248 | the scan of a finished file yields exactly the pairs written |
| `Segments.AbandonedFileShowsFirst` | vec/src/storage/segments.rs:135-142 | the scan of an abandoned file yields the first pair and nothing foreign |
| `Segments.PrefixShowsLess` | vec/src/storage/segments.rs:212-248 | a file cut at any byte shows nothing that the whole file does not show |
| `Segments.PatchedFileShows` | vec/src/storage/segments.rs:320-323 | a file abandoned after any number of table entries shows the nodes patched so far and the first one, nothing foreign |
| `Manifest.Load` | vec/src/storage/manifest.rs:34-66 | the loop computes the parse of the lines |
| `Manifest.ManifestReadsBack` | vec/src/storage/manifest.rs:34-90 | loading what was saved gives the same names if and only if no name is empty, contains a line break or begins or ends with Unicode white space |
| `Manifest.ManifestTrims` | vec/src/storage/manifest.rs:55-62 | names on one line each come back trimmed, and blank ones do not come back |
| `Manifest.LeadingSpaceIsLost` | vec/src/storage/manifest.rs:58 | a plain name behind any white space comes back without it |
| `Durability.InvKept` | vec/src/concurrent.rs:458-517 | every step of every operation, partial file writes included, keeps the invariant that ties log, files, manifest and memory |
| `Durability.CrashSafety` | vec/src/concurrent.rs:44-139 | after any run, failed compactions included, and a crash with the log cut anywhere, the next open succeeds if and only if the cut is an entry boundary; it then shows exactly the pairs of the log up to the cut and of the listed files: every committed pair that no log reset wiped, and only appended pairs |
| `Durability.OpensAtBoundary` | vec/src/concurrent.rs:57-68 | a torn log fails the open; a log that ends on an entry boundary does not |
| `Durability.OpenShowsStored` | vec/src/concurrent.rs:77-124 | log replay and segment discovery together show exactly the replayed pairs and those of the listed files, the flushed log among them |
| `Durability.LostExactly` | vec/src/concurrent.rs:467-498 | a committed pair is on disk, in the flushed log or in a listed file, unless and only unless a log reset came while a failed compaction had dropped it and no listed file held it, and it has not reached the flushed log since |
| `Durability.StoredStays` | vec/src/concurrent.rs:483-498 | step by step: a stored pair stays stored if and only if the step is not such a reset |
| `Durability.CommittedStaysVisible` | vec/src/concurrent.rs:458-517 | between operations a committed pair that was not wiped is searchable if and only if no failed compaction dropped it; nothing else than appended pairs is |
| `Durability.NothingIsLost` | vec/src/concurrent.rs:458-517 | in a run without a failed compaction every committed pair is searchable between operations |
| `Losses.FailedCompactionLosesAPair` | vec/src/concurrent.rs:467-498 | insert, a compaction that fails after draining, insert, a compaction that succeeds: a run after which a committed pair is neither in the log nor in a listed file |
| `Races.ResetExposes` | vec/src/concurrent.rs:467-498 | with insertions and the compactor interleaving, a step takes a stored pair off the disk if and only if it is a log reset and the pair is in a shard, or not yet published, and in no listed file |
| `Races.CommittedUnlessExposed` | vec/src/concurrent.rs:163-172 | in every such run a committed pair is off the disk if and only if a log reset exposed it and neither a later compaction nor a later commit has stored it since |
| `Races.UndisturbedCompactionExposesNothing` | vec/src/concurrent.rs:467-498 | a compaction that begins with nothing on its way and sees no commit before its log reset exposes nothing |
| `Races.RestartShowsStored` | vec/src/concurrent.rs:55-124 | a restart shows exactly what the log and the listed files hold |
| `Races.InsertionDuringCompactionIsLost` | vec/src/concurrent.rs:467-498 | a pair committed and published while a compaction writes its file is lost by a restart after the log reset |
| `Durability.AutomaticIdsAreFresh` | vec/src/concurrent.rs:239-243 | in every run of automatic, explicit and batch insertions, compactions and reopenings, a drawn id differs from every id in a shard, the log or an opened segment |
| `Crash.ReopenGives` | vec/src/concurrent.rs:55-124 | what reopening rebuilds from the surviving files |
| `Repository.InsertedBatch` | ltm/src/repository.rs:359-464 | an accepted batch inserts exactly its rows and journal entries, none of which existed |
| `Repository.BatchCommits` | ltm/src/repository.rs:359-464 | a batch is accepted if and only if its row ids and its operation ids are fresh and distinct |
| `Repository.BatchKeysDistinct` | ltm/src/repository.rs:406-455 | no two entries of an accepted batch share a row id or an operation id |
| `Repository.UsedOperationRejectsBatch` | ltm/src/repository.rs:442-454 | a batch naming a used operation id, or one twice, is rejected |
| `Repository.Repository.InsertPendingMemories` | ltm/src/repository.rs:266-464 | the loop with its rollback is the all-or-nothing transaction |
| `Repository.Repository.SetStatuses` | ltm/src/repository.rs:574-618 | exactly the existing rows named get the status |
| `Repository.Repository.MarkOperationsApplied` | ltm/src/repository.rs:636-680 | exactly the existing operations named become applied |
| `Repository.Repository.UpdateRow` | ltm/src/repository.rs:922-1030 | the statements of the transaction are the compare-and-set: found in scope, not deleted, at the expected revision, columns and journal entry written together or not at all |
| `Repository.Repository.DeleteRows` | ltm/src/repository.rs:1032-1146 | the loop with its rollback is the all-or-nothing tombstoning |
| `Repository.Repository.Vacuum` | ltm/src/repository.rs:1262-1293 | purges min(batch, eligible) eligible rows |
| `Adapter.InMemoryIndex.Upsert` | ltm/src/index_adapter.rs:296-308 | one id changes, or nothing on a wrong dimension |
| `Adapter.InMemoryIndex.Remove` | ltm/src/index_adapter.rs:310-313 | one id goes |
| `Adapter.InMemoryIndex.UpsertBatch` | ltm/src/index_adapter.rs:28-33 | upserts up to the first wrong dimension; succeeds if and only if there is none |
| `Adapter.InMemoryIndex.Rebuild` | ltm/src/index_adapter.rs:338-347 | the map of the records of the right dimension |
| `Adapter.VivyVectorIndex.Upsert` | ltm/src/index_adapter.rs:91-121 | keeps the id maps mutually inverse below the counter and changes the specified map at one id |
| `Adapter.VivyVectorIndex.Number` | ltm/src/index_adapter.rs:100-109 | an id keeps its number or gets the next one; the maps stay mutually inverse |
| `Adapter.VivyVectorIndex.MapAll` | ltm/src/index_adapter.rs:134-147 | all ids of a batch are numbered, old numbers kept |
| `Adapter.VivyVectorIndex.AddVersions` | ltm/src/index_adapter.rs:156-163 | every vector of the batch is stored under its id's number |
| `Adapter.VivyVectorIndex.UpsertBatch` | ltm/src/index_adapter.rs:123-166 | the three loops together change the specified map by the whole batch, or by nothing |
| `Adapter.VivyVectorIndex.Remove` | ltm/src/index_adapter.rs:168-173 | the tombstone removes the id from the specified map |
| `Adapter.VivyVectorIndex.Rebuild` | ltm/src/index_adapter.rs:227-263 | new engine, new maps, no tombstones; the specified map is that of the records |
| `Adapter.VivyVectorIndex.Search` | ltm/src/index_adapter.rs:183-225 | the first versions of live ids, up to the limit, in an answer of the engine to 3 * limit + 10: only ids of the specified map, each once, nearest first; with an exact engine and at most 2 * limit + 10 wasted versions, the nearest min(limit, live) ids by best stored version; with at most nine wasted the limit is kept if and only if it is at least 1 or nothing is stored |
| `Adapter.VivyVectorIndex.FilterLoop` | ltm/src/index_adapter.rs:205-224 | the loop keeps first versions of live ids and stops at the limit |
| `Adapter.UpsertTracks` | ltm/src/index_adapter.rs:100-118 | after an upsert the mapped ids without tombstones are again the keys of the specified map, each with its vector stored |
| `Adapter.OverfetchSuffices` | ltm/src/index_adapter.rs:192-224 | the overfetch bound, for every limit from 1 on |
| `Adapter.MissedIdsAreOutside` | ltm/src/index_adapter.rs:208-222 | the live ids that the loop does not report are no more than the versions not fetched |
| `Adapter.LiveIsCovered` | ltm/src/index_adapter.rs:211-218 | a live id among the fetched versions is reported, at no greater distance |
| `Adapter.ZeroLimitIsNoLimit` | ltm/src/index_adapter.rs:192-221 | at limit 0 an exact engine's ten versions give a hit each but for the wasted ones; all live ids if everything was fetched; none, if at most nine are wasted, only if there is no live id |
| `Adapter.LimitHolds` | ltm/src/index_adapter.rs:205-224 | the answer keeps to the limit if and only if that is at least 1 or nothing live was fetched; at 0 everything live is reported |
| `Adapter.TenWastedHideALiveId` | ltm/src/index_adapter.rs:192-221 | ten nearer versions of a removed id leave the answer empty although an id is live |
| `Adapter.BatchesAgree` | ltm/src/index_adapter.rs:28-33 | the two batches have the same effect if and only if every dimension is right or what precedes the first wrong one changes nothing |
| `Adapter.BatchesDiffer` | ltm/src/index_adapter.rs:123-132 | a batch on which they differ |
| `Journal.TraceListsCuts` | ltm/src/journal.rs:37-54 | the worlds a run passes through are what its cuts leave behind |
| `Journal.RunSplit` | ltm/src/journal.rs:37-54 | a run of two lists is the run of the second after the first, unless that failed |
| `Coordinator.JournalCoordinator.Remember` | ltm/src/journal.rs:21-55 | performs insert, upsert, activate, mark in that order up to the first failure; a known operation id does nothing and answers with its first row |
| `Coordinator.JournalCoordinator.RememberBatch` | ltm/src/journal.rs:61-101 | performs the batch effects in order up to the first failure |
| `Coordinator.JournalCoordinator.Update` | ltm/src/journal.rs:104-136 | performs update, upsert, mark in order, or nothing if the operation id is known for this row |
| `Coordinator.JournalCoordinator.Forget` | ltm/src/journal.rs:139-176 | performs the tombstoning and then the removal |
| `Coordinator.JournalCoordinator.RecoverStartup` | ltm/src/journal.rs:179-217 | performs the recovery of all pending operations, in some order, and the rebuild, world by world |
| `Coordinator.JournalCoordinator.RecoverOne` | ltm/src/journal.rs:183-210 | the effects of one pending operation, by its kind and its row |
| `Coordinator.JournalCoordinator.PendingList` | ltm/src/repository.rs:682-706 | exactly the unapplied operations, each once |
| `Coordinator.JournalCoordinator.ActiveList` | ltm/src/repository.rs:812-830 | exactly the Active rows with their embeddings, each once |
| `Coordinator.JournalCoordinator.RebuildIndex` | ltm/src/lib.rs:468-471 | the index becomes the Active rows that fit |
| `Coordinator.JournalCoordinator.RecoverRow` | ltm/src/journal.rs:186-199 | upsert if Pending or Active, activation if Pending, then the mark |
| `Coordinator.RebuiltFits` | ltm/src/index_adapter.rs:338-347 | rebuilding from the Active rows in any order gives the map of those that fit |
| `Recovery.RecoverAllResult` | ltm/src/journal.rs:179-217 | recovery fails if and only if the index refuses a row; otherwise the tables reach one target, whatever the order, and the index is rebuilt from it |
| `Recovery.RecoveryRestores` | ltm/src/journal.rs:179-217 | from any state, recovery leaves the index holding exactly the embeddings of the Active rows |
| `Recovery.AfterRecovery` | ltm/src/journal.rs:184-209 | an operation stays pending if and only if its row is gone; a row changes only from Pending to Active, and only if an unapplied operation names it |
| `Recovery.EveryRecoveryWorldKeepsTarget` | ltm/src/journal.rs:183-210 | every state a recovery passes through has the same target |
| `Recovery.CrashedRecoveryIsHarmless` | ltm/src/journal.rs:179-217 | a crash at any effect of a recovery, any index left behind and a rerun in another order reach the same world |
| `Recovery.RecoveryIsIdempotent` | ltm/src/journal.rs:179-217 | recovering what was recovered changes nothing |
| `Visibility.RememberKeepsVisible` | ltm/src/journal.rs:61-101 | a batch happens wholly or not at all, and the index goes on equalling the Active rows |
| `Visibility.RememberedRows` | ltm/src/journal.rs:77-98 | the new rows are Active, old rows as before, the operations applied under their rows' ids |
| `Visibility.UpdateKeepsVisible` | ltm/src/journal.rs:104-136 | a rejected update changes nothing, a retry succeeds without effect, a committed one keeps the index equal to the Active rows and leaves its operation applied under the row's id |
| `Visibility.UpdatedRow` | ltm/src/repository.rs:935-996 | a committed update found the row in scope, not deleted and at the expected revision, and changes that row only |
| `Visibility.UpdateIsJournaled` | ltm/src/repository.rs:922-1030 | an update commits if and only if its row is in scope, not deleted and at the expected revision and its operation id is new; it then journals that id, unapplied, under the row; otherwise the error is NotFound, RevisionConflict or a violated key, in that order |
| `Visibility.DeletedRows` | ltm/src/repository.rs:1082-1146 | exactly the named rows in scope become Deleted; no existing journal entry changes |
| `Visibility.DeletionIsJournaled` | ltm/src/repository.rs:1032-1146 | a deletion commits if and only if its operation ids are new and distinct, and journals each as the applied deletion of its row, and nothing else |
| `Visibility.ForgetKeepsVisible` | ltm/src/journal.rs:139-176 | a forget happens wholly or not at all; its operation ids are journaled as applied deletions; the index goes on equalling the Active rows if and only if every named row that is Active lies in the scope |
| `Visibility.ForeignForgetHidesAnActiveRow` | ltm/src/journal.rs:150-152 | under a foreign scope an Active row leaves the index |
| `Visibility.VacuumMakesVisible` | ltm/src/lib.rs:450-465 | any purge leaves the index equal to the remaining Active rows |
| `Moments.RememberMoment` | ltm/src/journal.rs:80-98 | between any two effects of a remember every Active row is in the index with its embedding, and the index holds nothing else but rows of the batch: the vector goes in before the row becomes Active |
| `Moments.UpdateMoment` | ltm/src/journal.rs:121-135 | the same of an update, but for the updated row between its two steps |
| `Moments.ForgetMoment` | ltm/src/journal.rs:150-153 | the same of a forget in its rows' scope: a row is tombstoned before its vector goes |
| `Moments.VacuumMoment` | ltm/src/lib.rs:450-465 | the same of a vacuum; the rebuild takes the purged rows out of the index |
| `Moments.CutRememberRecovers` | ltm/src/journal.rs:76-98 | a row whose remember was cut: none before the insertion; after a recovery Active if the activation had run or the row came with an operation id, and Pending for good otherwise |
| `Moments.CutUpdateRecovers` | ltm/src/journal.rs:104-136 | an update cut anywhere after its transaction is in force after a recovery, and its operation is applied |
| `Moments.OnlyAnonymousRowsStrand` | ltm/src/journal.rs:61-101 | in every run with crashes, index errors and recoveries anywhere a row is beyond recovery only if it was so at the start or its remember had no operation id and was cut |
| `Moments.NamedRowsAreNeverLost` | ltm/src/journal.rs:179-217 | so if clients name every operation, the startup after any run leaves no row Pending |
| `Runs.DeletedNeverReturns` | ltm/src/repository.rs:936-951 | in every sequential run with crashes, index errors and recoveries a row once deleted stays deleted until purged, and its id never comes back |
| `Runs.StartupAfterAnyRun` | ltm/src/journal.rs:179-217 | after any such run, cut anywhere, `recover_startup` succeeds, the index equals the Active rows and only operations without a row stay pending |
| `Opening.StoreOpensAtBoundary` | ltm/src/lib.rs:41-68 | after any run of the index files and of the tables, opening the store succeeds if and only if the index log was cut on an entry boundary, and then the index equals the Active rows |
| `Runs.CompletedRunsStayVisible` | ltm/src/journal.rs:41-52 | after every completed operation, forgets using their rows' scope, the index equals the Active rows |
| `Runs.RunKeepsSound` | ltm/src/journal.rs:21-154 | all through a run every embedding fits and every row has an id that was drawn |
| `Interleavings.OperationActsOnce` | ltm/src/repository.rs:47-55 | under every interleaving at most one row is created per operation id, and a retried remember does nothing and returns that row's id |
| `Interleavings.UpdateActsOnce` | ltm/src/journal.rs:113-119 | under every interleaving, once an update has committed under an operation id, that id names its row for ever, a retry does nothing and succeeds, and no second update commits under it |
| `Interleavings.UsedIdStopsBatch` | ltm/src/journal.rs:76-78 | a batch with a used operation id changes neither tables nor index |
| `Interleavings.RevisionChain` | ltm/src/repository.rs:953-996 | under every interleaving committed updates consume a row's revisions one after the other, none twice, and the revision counts them |
| `Interleavings.RevisionFromInsertion` | ltm/src/lib.rs:105 | from its insertion on a row's revision is 1 plus its committed updates |
| `Interleavings.ExecStatus` | ltm/src/repository.rs:574-1293 | what each transaction does to a row it does not insert: purged, activated, tombstoned if in scope and committed, updated if committed, or as before |
| `Interleavings.ForgetDuringRemember` | ltm/src/journal.rs:30-35 | a retry that learns the id early and forgets it: the row ends Active and is not in the index |
| `Clients.RunsKeepProvenance` | ltm/src/journal.rs:21-217 | with any number of clients, recoveries, cuts and crashes: no row has two remembers, insertions and activations still to run are their own operation's, and an operation yet to insert has brought no row |
| `Clients.ActivationsHaveAnOrigin` | ltm/src/journal.rs:47-48 | every activation of a row still to run is its one remember's, or that of a recovery that read the row Pending |
| `Clients.ActivationWasUnderWay` | ltm/src/journal.rs:184-193 | an activation that runs after a deletion was already under way at the deletion |
| `Clients.DeletedAfterActivationIsFinal` | ltm/src/journal.rs:139-154 | a row deleted with no such activation under way is never anything but Deleted again until purged |
| `Clients.ForgetAfterReplyIsFinal` | ltm/src/journal.rs:139-154 | in particular after its remember has replied and with no recovery at work |
| `Clients.DeletedBeforeActivation` | ltm/src/journal.rs:41-48 | otherwise it ends Active if and only if it is not purged, its remember or such a recovery gets to the activation before it is cut, and no deletion follows that |
| `Agreement.VisibleExactly` | ltm/src/journal.rs:21-217 | after any effects in any order the index shows exactly the Active rows if and only if, for every id, what the last index effect on it gave is what the last transaction on its row owes |
| `Agreement.OrderlyClientsStayVisible` | ltm/src/journal.rs:21-176 | any number of clients at once, none cut, no two at work on one id, forgets in their rows' scope: at every moment the index agrees with the row of every id that nobody is at work on, and whenever all are done it shows exactly the Active rows |
| `Agreement.WholeSettles` | ltm/src/journal.rs:41-154 | an operation whose transaction commits where index and row agree leaves them in agreement at that id, whatever the rest of the index is like |
| `Agreement.OverlappingUpdatesLeaveStaleVector` | ltm/src/journal.rs:121-128 | two updates that commit in one order and reach the index in the other leave the row with the second embedding and the index with the first |
| `Agreement.UpdateDuringForgetKeepsVector` | ltm/src/journal.rs:121-152 | a forget between the two effects of an update leaves the row Deleted and its vector in the index |
| `Store.UpdateMerges` | ltm/src/lib.rs:354-407 | a committed update has each field that was asked for and keeps each that was not, patches exactly the metadata keys named, and keeps the row's kind |
| `Store.MemoryStore.Update` | ltm/src/lib.rs:354-407 | a wrong dimension, an importance outside [0, 1] and an unknown row are errors without effect; otherwise the merged record goes through the journal |
| `Store.MemoryStore.VacuumTombstones` | ltm/src/lib.rs:450-465 | purges min(batch, eligible) rows and rebuilds the index exactly if it purged any |
| `Store.VacuumRemovesTheDead` | ltm/src/repository.rs:1269-1281 | a call removes min(batch, eligible) rows, each deleted or expired, all of those if they fit the batch; none is recallable then or later; every other row and the journal stay as they were |
| `Store.EligibleLeft` | ltm/src/lib.rs:449-465 | after n calls at one time all but n * batch eligible rows are left |
| `Store.VacuumTerminates` | ltm/src/lib.rs:449-465 | call number k purges something if and only if k is below eligible / batch rounded up |
| `Serving.Perform` | ltm/src/index_adapter.rs:90-263 | any index effect of the journal, carried out by the adapter: its map becomes the index of the specification; a batch with a wrong dimension is refused without effect |
| `Serving.RemoveAll` | ltm/src/index_adapter.rs:175-181 | the batch removal takes exactly the named ids out of the specified map |
| `Serving.SearchRows` | ltm/src/index_adapter.rs:183-225 | the adapter's search; where it stands for an index that shows the Active rows it returns Active rows only, and all of them if the limit is large enough, the engine exact and the waste within bounds |
| `Distance.L2Squared` | vec/src/distance.rs:41-48 | the loop computes the sum of squared differences over the shorter length |
| `Distance.CosineDistance` | vec/src/distance.rs:54-64 | the loop computes the clamped cosine distance |
| `Distance.NegativeDot` | vec/src/distance.rs:70-76 | the loop computes the negated inner product |
| `Distance.CauchySchwarz` | vec/src/distance.rs:54-64 | the squared inner product is at most the product of the squared lengths |
| `Distance.CosineInRange` | vec/src/distance.rs:50-64 | the cosine distance lies in [0, 2], zero vectors included |
| `Distance.FullDot` | vec/src/distance.rs:54-64 | the equality case: the inner product is the product of the lengths if and only if the vectors point along one line, the same way |
| `Distance.CosineIsZero` | vec/src/distance.rs:50-64 | the distance is 0 if and only if the directions are identical and the product of the lengths reaches the clamp |
| `Distance.CosineOfSameDirection` | vec/src/distance.rs:51-52 | for b = c * a with c > 0: if and only if c times the squared length of a reaches it |
| `Distance.CosineToItself` | vec/src/distance.rs:51-52 | a vector is at distance 0 from itself if and only if its squared length reaches the clamp |
| `Distance.CosineIsOne` | vec/src/distance.rs:51-52 | the distance is 1 if and only if the vectors are orthogonal |
| `Distance.CosineAtLeastOne` | vec/src/distance.rs:54-64 | and at least 1 if and only if the inner product is not positive |
| `Distance.CosineOfOpposite` | vec/src/distance.rs:51-52 | turning one vector round turns a distance of d into 2 - d, so 0 into 2 |
| `Distance.MetricsAreSymmetric` | vec/src/distance.rs:30-76 | all three metrics are symmetric, as the comparison with the oracle needs |
| `Distance.UnitVectorsRankAlike` | vec/src/distance.rs:66-68 | on unit vectors the three metrics differ by constants and a factor |
| `Ranking.MaxSimilarity` | ltm/src/lib.rs:312-323 | the greatest clamped similarity to what is selected, from zero up |
| `Ranking.RedundancyIsGreatest` | ltm/src/lib.rs:312-323 | it is the least bound from zero up on the similarities to what is selected |
| `Ranking.SimilarityEnds` | ltm/src/lib.rs:318 | a similarity is 1 if and only if the cosine distance is 0, and 0 if and only if the inner product is not positive |
| `Ranking.BestIndex` | ltm/src/lib.rs:305-331 | the position found is worth taking before every other one: lambda times the difference in score is at least (1 - lambda) times the difference in greatest similarity, and more for those before it |
| `Ranking.Mmr` | ltm/src/lib.rs:300-335 | min(limit, items) items, none twice; by that trade-off each pick is worth taking before everything that remained |
| `Ranking.GreedyIsBalanced` | ltm/src/lib.rs:305-331 | picking the first strict maximum of the MMR score each time is the same as that trade-off |
| `Ranking.LambdaZeroPicksLeastSimilar` | ltm/src/lib.rs:326 | at lambda 0 each pick is a least similar one of what remained |
| `Ranking.EqualScoresPickLessSimilar` | ltm/src/lib.rs:326 | below 1, of two items with equal scores the strictly more similar one is not picked before the other |
| `Ranking.FirstPickScoresBest` | ltm/src/lib.rs:304-333 | at a positive lambda the first pick has the greatest score |
| `Ranking.GreedyIsUnique` | ltm/src/lib.rs:304-335 | that description determines the answer |
| `Ranking.SortDescending` | ltm/src/lib.rs:343 | a permutation, descending by score, ties in the original order |
| `Ranking.MmrIsSortAtLambdaOne` | ltm/src/lib.rs:326-344 | with lambda 1 the MMR loop gives the prefix of the stable sort, ties included |
| `Recall.ScoreInRange` | ltm/src/lib.rs:256-269 | the similarity needs no clamp, and the weighted total lies in [0, 1] |
| `Recall.ScoreParts` | ltm/src/lib.rs:256-269 | what each part of the score is worth: 0.15 for a unit of importance, 0.35 for a unit of cosine distance, 0.10 for a unit of recency, 0.005 for each of the first ten accesses |
| `Recall.PerfectScore` | ltm/src/lib.rs:256-269 | the score is 1 if and only if the distance is 0, the importance at least 1, the recency curve at 1 and the row accessed ten times |
| `Recall.AdmittedRow` | ltm/src/lib.rs:216-250 | column by column, which rows may be returned |
| `Recall.ScoreCandidates` | ltm/src/lib.rs:216-297 | one item for each candidate that is in scope, Active, unexpired and past the filters, and for no other |
| `Recall.Rank` | ltm/src/lib.rs:299-350 | min(limit, items) items by the path that the request names |
| `Recall.Recall` | ltm/src/lib.rs:170-351 | an invalid request gives none; otherwise every row returned may be returned, once, with its score, and is not one a vacuum may take; without lambda the answer is descending, and an admitted candidate is missing only if the answer is full of rows that score at least as well |
| `Retrieval.Retrieve` | ltm/src/lib.rs:170-351 | recall over the adapter: the candidates are what the adapter's search for three times the limit and the text search found, the answer is picked from them; where the index shows the Active rows, the engine is exact and the candidates cover those rows, no row of the whole store that may be returned is left out for a worse one |
| `Retrieval.Combine` | ltm/src/lib.rs:183-203 | every id that one of the two searches found, once |
| `Recall.LambdaOneIsNoLambda` | ltm/src/lib.rs:299-350 | lambda 1 and no lambda give the same answer |

## Left out

- Floating point: distances and scores are reals, graph metrics any function to the reals; rounding, NaN and
  infinities are not modelled.
- SQLite itself, FTS5 and its query syntax: the text search is one source of the candidate list that recall is given.
- The order of candidates by reciprocal rank fusion, which decides ties only, and the explanation strings.
- The exponential recency curve and square roots: both are functions given to the model, the roots with their defining
  property.
- Randomness, hashing, clocks and UUIDs: levels, the shard function, times and new ids are parameters; new ids are
  fresh.
- Threads, locks, the compactor's polling, `ArcSwap`, memory mapping, fsync and power loss. In the crash machine one
  operation runs at a time and file names are new; insertions beside a compaction are modelled in `Races` alone, where
  files are sets of pairs and no compaction fails.
- Errors of the operating system while the log is written or an index is opened; a compaction may fail at any of its
  file operations (`Crash.MayFail`).
- A compaction of 2^32 entries or more, whose count the code cuts to 32 bits: the machine's `Segments.Storable` lets
  it only fail.
- A write call of the operating system that a crash leaves half done; the manifest is replaced at once by its rename.
- Discarding appended but uncommitted bytes when the log is reset; the writer's buffer is empty there in every
  operation.
- An insertion with an id equal to the 64-bit maximum, which leaves the counter where automatic ids collide.
- Batch insertion on the in-memory index object; the crash machine has it. A batch with a wrong dimension only spends
  ids.
- Filter selectivity, `distance_to`, and the alignment of the buffer that the log reader casts.
- The product-quantisation branch of segments, which the writer never enables.
- Row timestamps, content hashes, sources and embedding model names; trimming and emptiness checks of request strings;
  the number that recovery returns.
- Backup, health, telemetry, key providers, configuration, schema migration, context formatting, the Python bindings
  and the simulator.
- Agent and user in a scope: they are stored but select nothing, as in the code.
- Adapter.VivyVectorIndex.Upsert: while fewer than 2^64 numbers have been given out; the counter's wrap-around is not
  modelled.
- Adapter.VivyVectorIndex.UpsertBatch: likewise.
- Adapter.VivyVectorIndex.MapAll: likewise.
- Adapter.VivyVectorIndex.Rebuild: for records with distinct ids, which the primary key provides.
- Hnsw.HnswIndex.Append: for vectors of the index's dimension; all callers refuse others first.
- Hnsw.HnswIndex.Insert: likewise.
- Moments.CutRememberRecovers: for a new row id that no unapplied operation names already, as drawn ids are.
- Retrieval.Retrieve: for rows stored under their own ids.
- Recall.Recall: for candidates without repetition, as the keys of a map are, and rows stored under their own ids.
- Wal.WalWriter.Reset: for an empty buffer, as compaction calls it between operations.
- Durability.AutomaticIdsAreFresh: while ids stay below the 64-bit maximum, where the counter saturates or wraps.
