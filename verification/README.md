# Verified models of gmeow's stateful core

gmeow keeps content-addressed objects, resolves contact claims to entities, analyses stored objects
with external analyzers, and serves mail and contacts. This project models the parts of it that keep
state, and proves what they promise for every input, every run and every reachable state. Nothing here
is executable against the original; each model follows the branches, constants and error paths of the
cited lines.

## What is modelled

**Content-addressed chunk store.** `Chunking` and `FastCdc` are content-defined chunking: the cut
search, whole-buffer chunking, and the streaming form that refills and shifts one buffer. `PackStore`
is the disk: append-only packs with a synced length and a durable or volatile name, the chunk index and
the object recipes. `CommitProtocol` runs any number of batched Puts at once, one append, reuse, sync
or metadata commit per step, with torn writes, failed syncs and a crash at any point. `StoreRequests`
is what callers ask of it, files and compound objects, over whole runs. `ChunkStore` is the store
object itself, whose methods keep the same invariant, and `RecipeReader` the verifying reader over an
object's recipe. Main results: `CommitProtocol.RunSafe`, `ReadsBack`; `StoreRequests.StaysReadable`,
`ContentAddressed`, `DigestKeptExactly`, `DigestKeptInTurn`; `Chunking.CutExact`, `StreamChunks`,
`SharedPrefixSharesChunks`; `FastCdc.BoundaryMoves`; `RecipeReader.ReadWith`.

**Entity resolution.** `UnionFind`, `Linkage` and `Clustering` are the constrained linkage of the repair
pass; `Ledger` the claim sets with their derived indexes; `Merging`, `Resolution`, `ObservationKeys`
and `Repair` the folding of entities, the idempotency memo with its keys and the repair rounds;
`Evidence`, `IdDiff`, `CompareParts` and `Scoring` the signed comparison of two claim graphs and the
choice of an entity; `NameOrder`, `NameTies` and `CompareOrder` when the order of claims can show in it;
`EntityGraphs` and `RepairGraphs` the resolver and the repair round on the ledger's own claims, with the
memo of claim graphs; `Codec`, `Snapshot` and `StateService` the persisted state; `EntityIndex` the index
maps under a repair; `Embedding` the batching client and the vector cache. Main results:
`Linkage.LinkageSound`, `Clustering.LinkedStrongest`, `Repair.Repair`, `Merging.OrderShowsOnlyInTexts`,
`NameOrder.OrderIrrelevantExactly`, `OrdersIrrelevantExactly`; `NameTies.TiesShowExactly`;
`CompareOrder.CompareSteadyExactly`, `CompareSteadyBothExactly`;
`EntityGraphs.Matcher.ResolveRecord`, `DecisionSteady`; `RepairGraphs.ScoresOnce`, `RepairOnce`;
`ObservationKeys.MistakableExactly`, `IdDiff.EvidenceBounds`, `CompareParts.CompareSums`,
`Resolution.ResolvedShares`, `Scoring.JoinNeedsAnchor`,
`Snapshot.RoundTrip`, `EntityIndex.Index.ApplyMerges`, `Embedding.Resolver.VectorsForNamespace`.

**Caches.** `Recency` says what a least-recently-used cache is as a plain sequence; `Chain` is the
doubly linked list both caches use and `Caches` the two caches over it, each operation refining the
operation on the sequence. `RecencyRuns` is what that means over whole runs: `OrderedByUse`, `EvictsOldest`.

**Workers.** `BackendPool`, `KeyLocks`, `Worker`, `WorkerPaths`, `WorkerReports` and `WorkerCache` are
protocols over
any number of threads, one atomic step at a time in any order; `CircuitBreaker` is an object whose
record per key is tied to the key's whole history. Main results: `BackendPool.RunKeeps`, `LiveBound`,
`SendNeverBlocks`; `KeyLocks.MutualExclusion`, `DomainExact`; `CircuitBreaker.AskedGood`, `FailedGood`,
`Breaker.Allow`, `AtMostOneProbe`; `Worker.SettledExactlyOnce`; `WorkerCache.AckedSoundly`,
`MistakenExactly`; `WorkerReports.ReportedOnce`.

**Mailbox tree.** `Mailboxes` is the batch mutation of the JMAP mailbox catalog (sections 2 and 2.5 of
RFC 8621): `UpdateMailboxes` keeps the catalog a forest with unique sibling names, and
`HasParentCycle` answers exactly.

**vCard.** `VCardText`, `VCard`, `VCardParser`, `VCardRoundTrip`, `VCardContents`, `VCardFolding`,
`VCardHeads` and `VCardRecords` are the printer and the parser (sections 3.2 and 3.4 of RFC 6350):
`VCardRoundTrip.RoundTrip`, `VCardContents.ExportSays`, `VCardFolding.FoldedExport`,
`VCardHeads.HeadBack`; for arbitrary logical lines
`VCardRecords.RecordsIndependent`; for arbitrary text `OutcomePerRecord` and `TextIndependentExactly`.

## Where the code does not keep a promise unconditionally

- Folding entities in map order shows in claim texts: the text of the member folded last wins. The
  outcome is the same for every order if and only if members of one canonical agree on the text of every
  hash they share (`Merging.OrderShowsOnlyInTexts`, with the failing orders in `Merging.DisagreeingOrders`).
- The worker's positive cache joins digest, analyzer name and version with NUL. A job can be acknowledged
  although its object was not found missing and its own annotation was neither seen nor written if and
  only if it is accepted, not forced, and a different registered annotation with a valid digest spells
  the same key (`WorkerCache.MistakenExactly`; the failing run in `MistakenRun`, one such job in
  `MistakenExample`). Jobs without NUL, and all jobs under a registry without NUL, are safe
  (`NeverMistaken`).
- A compound object is filed under the hash of "compound:" and its id, and only it looks for a recipe
  first, without a lock. A digest keeps its content in every run that serves a set of requests if and
  only if all requests for that digest offer the same content (`StoreRequests.DigestKeptExactly`; the
  failing run in `Overwritten`, its inputs in `NotAgreed`). When callers wait for each other the guard
  holds, and the digest keeps its content if and only if no file is stored that spells the prefixed id of
  a compound object (`DigestKeptInTurn`, failing run in `OverwrittenInTurn`).
- A vCard record without its END must not affect the next one. On logical lines it never does
  (`VCardRecords.RecordsIndependent`). On text, a text of whole lines leaves all records that follow it
  alone if and only if it does not end in a quoted-printable line with a soft break
  (`TextIndependentExactly`); `SoftBreakMerges` is such a text, after which two records come out as one.
- Folding a line must not change it. A printed line broken at one place reads back if and only if the place
  is after its first character and does not follow a carriage return, which the reader takes for a line
  ending (`VCardFolding.BreakExactly`).
- The idempotency memo joins claim keys with newlines and NULs. An observation whose hashes hold no
  separator and whose bounds hold no newline is never taken for one with other hashes if and only if all
  its claims carry one hash (`ObservationKeys.MistakableExactly`); `AnsweredForAnother` drives the resolver
  to the wrong answer for any other. Where no bound ever holds a newline, every memo hit is right
  (`HitHolds`).
- Resolution and repair are to be deterministic, yet an entity's claims come from a map and name tokens
  are matched greedily. A comparison is the same for every order of the candidate's claims if and only if
  its name evidence is the same however ties among the heaviest free tokens are broken
  (`CompareOrder.CompareSteadyExactly`, for both sides `CompareSteadyBothExactly`). No tie is enough
  (`TieFreeSame`, `EntityGraphs.DecisionSteady`); with no rivals either, both orders are free
  (`RivalFreeSame`, `RepairGraphs.ScoresOnce`). Among full tokens a tie is also enough for some name to show
  the order (`NameTies.TiesShowExactly`). `EntityGraphs.OrderExample` is a record that one order of an
  entity's claims joins to it and the other does not.
- The memo of claim graphs is to be dropped when an entity gains a claim. A repair round that cannot pool
  a centroid stops before it reaches the remaining canonicals; the memo is current afterwards if and only
  if every one of them that is still memoized scores as before (`RepairGraphs.RepairOnce`), which one that
  took in a new hash never does (`OutgrowsMemo`).

## Modelling decisions

- Outside functions are parameters: content hash, compression, the gear, cosine, claim weights, text
  splitting, trimming and case folding where Unicode tables matter, the embedding model. Each assumption on
  them is a named predicate (`PackStore.Sound`, `Evidence.Sane`, `Embedding.HashOk`, `VCardRoundTrip.RulesOk`, `VCardRecords.Fair`);
  `PackStore.SoundMet`, `Embedding.HashOkMet` and `VCardRecords.FairMet` give functions that meet them.
- I/O outcomes, clocks, generated ids and the answers of other services are parameters or steps; every
  outcome the code distinguishes is possible.
- Go map iteration is an arbitrary choice in a loop, so a result that is proved to be a function of the
  state does not depend on it.
- Weights and scores are reals. 32-bit counts, 64-bit lengths and durations are modelled with their width.
- A lock-protected method of a shared object is one atomic step.
- Strings are sequences of characters; in the snapshot codec a character stands for one byte.

## Model

| member | source | states |
|---|---|---|
| `Chunking.NextCut` | internal/filestore/chunkstore.go:809-833 | a cut is within the data and 65536, positive on non-empty data, and at least 2048 unless it takes everything |
| `Chunking.NextChunkCut` | internal/filestore/chunkstore.go:809-833 | the two rolling-hash loops return the first place from 2048 on whose rolled hash passes the early mask below 8192 or the late mask from there, or else the end of the data or 65536 |
| `Chunking.CutExact` | internal/filestore/chunkstore.go:809-833 | a place is the cut if and only if it is the first boundary from the minimum on, or the end of the data or the maximum when no boundary comes before it |
| `FastCdc.Window` | internal/filestore/chunkstore.go:819-829 | a 64-bit hash that shifts by one per byte keeps nothing of what came before the last 64 bytes |
| `FastCdc.BoundaryMoves` | internal/filestore/chunkstore.go:819-833 | with the gear table and both masks of the code, the same 64 bytes are a boundary in one content exactly when they are in another, beyond the minimum and on the same side of the average |
| `Chunking.CutLocal` | internal/filestore/chunkstore.go:809-833 | the first cut depends on nothing beyond the first 65536 bytes |
| `Chunking.ChunkContent` | internal/filestore/chunkstore.go:793-807 | the chunking loop computes the list of chunks |
| `Chunking.ChunksConcat` | internal/filestore/chunkstore.go:793-807 | the chunks of any content concatenate to it |
| `Chunking.ChunkSizes` | internal/filestore/chunkstore.go:793-833 | every chunk is non-empty and at most 65536 bytes, and all but the last are at least 2048 |
| `Chunking.SharedPrefixSharesChunks` | internal/filestore/chunkstore.go:793-833 | two contents agreeing on p + 65536 bytes share every chunk that starts at or before p |
| `Chunking.ReadInto` | internal/filestore/chunkstore.go:173-181 | one read of any size moves bytes from the stream to the buffer and loses none, whether it ends, fails or goes on |
| `Chunking.Fill` | internal/filestore/chunkstore.go:172-182 | refilling keeps held bytes plus stream unchanged, stays below twice the maximum chunk, and stops only at the end, on failure or with a full chunk's worth held |
| `Chunking.Shift` | internal/filestore/chunkstore.go:192-193 | the in-place shift leaves exactly the bytes after the cut |
| `Chunking.CutOfHeld` | internal/filestore/chunkstore.go:187-187 | cutting the held part gives the cut of everything that is still to come |
| `Chunking.TakeChunk` | internal/filestore/chunkstore.go:187-193 | taking a chunk yields the next chunk of the remaining stream and leaves the rest of it |
| `Chunking.PullChunk` | internal/filestore/chunkstore.go:171-194 | one turn of the streaming loop yields the next chunk, or reports exhaustion or failure truthfully |
| `Chunking.StreamChunks` | internal/filestore/chunkstore.go:160-195 | for every content and every fragmentation by the reader, what is emitted is a prefix of the whole-buffer chunking, all of it exactly when the stream ends cleanly and every chunk is accepted, and the reported size is the bytes emitted |
| `PackStore.ReadAt` | internal/filestore/chunkstore.go:582-611 | a chunk that is returned has the hash that was asked for |
| `PackStore.ReadBack` | internal/filestore/chunkstore.go:379-397 | reading the hashes of indexed chunks yields the concatenation of the chunks |
| `PackStore.SoundMet` | internal/filestore/chunkstore.go:582-611 | there are a hash and a compression of the kind the store is proved for |
| `PackStore.RotateOffset` | internal/filestore/chunkstore.go:672-679 | an append goes to the highest pack while that is below 256 MiB and to the one after it otherwise, at its end |
| `PackStore.AppendSeals` | internal/filestore/chunkstore.go:672-679 | an append leaves every pack of at least 256 MiB as it is, and begins a pack only when the highest one has reached that size |
| `PackStore.WriteActive` | internal/filestore/chunkstore.go:664-702 | appending keeps the active pack active with its size exact, also when it creates the pack |
| `PackStore.WriteReads` | internal/filestore/chunkstore.go:582-611 | an appended chunk reads back from the entry recorded for it |
| `PackStore.WriteGrows` | internal/filestore/chunkstore.go:664-702 | appending only extends packs and never touches synced bytes |
| `PackStore.GrowsReadable` | internal/filestore/chunkstore.go:582-611 | whatever was readable stays readable while packs grow |
| `PackStore.GrowsDurable` | internal/filestore/chunkstore.go:712-733 | whatever was durable stays durable while packs grow |
| `CommitProtocol.KeepsAppend` | internal/filestore/chunkstore.go:462-526 | appending a new chunk under any interleaving keeps the invariant: readable entries, exact active pack, pinned touched packs |
| `CommitProtocol.KeepsReuse` | internal/filestore/chunkstore.go:475-487 | reusing a chunk seen in the batch or already indexed keeps the invariant |
| `CommitProtocol.KeepsTorn` | internal/filestore/chunkstore.go:688-693 | a torn write leaves only unreferenced bytes and forgets the cached active pack |
| `CommitProtocol.KeepsRecipe` | internal/filestore/commit_batch.go:87-94 | buffering a recipe keeps the batch coherent: it names only chunks the batch or the index has |
| `CommitProtocol.KeepsCheck` | internal/filestore/store.go:744-766 | the guard of a compound Put only reads the recipes |
| `CommitProtocol.KeepsSyncPack` | internal/filestore/chunkstore.go:717-730 | syncing one touched pack, with others appending to it meanwhile, keeps the invariant |
| `CommitProtocol.KeepsSyncFails` | internal/filestore/chunkstore.go:718-729 | a failed sync, whatever part of the pack it reached, keeps the invariant |
| `CommitProtocol.KeepsSyncDir` | internal/filestore/chunkstore.go:732-732 | syncing the directory makes the names of the batch's packs durable and the batch ready |
| `CommitProtocol.CommitDurable` | internal/filestore/commit_batch.go:100-110 | when a batch may commit, every entry it carries lies inside the synced prefix of a durably named pack |
| `CommitProtocol.KeepsCommit` | internal/filestore/commit_batch.go:104-110 | committing a ready batch keeps the invariant for the disk and for every other batch |
| `CommitProtocol.DurableSurvives` | internal/filestore/chunkstore.go:712-733 | a durable entry survives any crash and decodes to the same bytes |
| `CommitProtocol.KeepsCrash` | internal/filestore/commit_batch.go:100-122 | a crash that cuts packs back to any length at or above their synced length, drops unlinked packs and loses every uncommitted batch keeps the invariant |
| `CommitProtocol.KeepsStep` | internal/filestore/chunkstore.go:462-526 | every step of every Put, abort, forget and crash keeps the invariant |
| `CommitProtocol.RunSafe` | internal/filestore/chunkstore.go:664-752 | in every state every run reaches, durable index entries point at durable bytes that decode to their chunk and durable recipes name only durably indexed chunks |
| `CommitProtocol.SealedForever` | internal/filestore/chunkstore.go:672-679 | in every interleaving, a pack that has reached 256 MiB keeps exactly its bytes for as long as there is no crash |
| `CommitProtocol.ObjectReads` | internal/filestore/chunkstore.go:379-397 | in a state keeping the invariant, reading a digest yields exactly the committed content, and nothing for a digest never committed |
| `CommitProtocol.ReadsBack` | internal/filestore/chunkstore.go:379-397 | in every run, every committed object reads back exactly |
| `StoreRequests.StaysReadable` | internal/filestore/chunkstore.go:379-397 | an object stays readable with the same content through later Puts, also of the same content, rotation and crashes, until other content is committed under its digest |
| `StoreRequests.ContentAddressed` | internal/filestore/store.go:90-165 | in every run without a compound object of this digest, whatever else is stored and stored again, the object keeps its content and its digest is the hash of it |
| `StoreRequests.CommitChanges` | internal/filestore/commit_batch.go:104-110 | a commit changes what a digest reads as if and only if it commits other content under it |
| `StoreRequests.RunBacked` | internal/filestore/store.go:90-328 | in every run, what is stored under a digest is the content some request offered for it |
| `StoreRequests.AgreedKeeps` | internal/filestore/store.go:90-328 | a digest whose requests all offer one content reads the same ever after, under every interleaving and crash |
| `StoreRequests.Finish` | internal/filestore/chunkstore.go:124-195 | from any state, a Put that may store runs to its commit on its own, chunk by chunk, sync by sync, and files exactly its object |
| `StoreRequests.Overwritten` | internal/filestore/store.go:238-328 | for any two requests of one digest there is a run from the empty store in which both pass the guard, both store, and the digest reads first as one content and then as the other |
| `StoreRequests.DigestKeptExactly` | internal/filestore/store.go:238-328 | a digest keeps its content in every run that serves the requests if and only if all of them that store under it offer the same content |
| `StoreRequests.NotAgreed` | internal/filestore/store.go:260-260 | two envelopes for one object id, and a file that spells a prefixed object id, are requests that disagree |
| `StoreRequests.RunOwn` | internal/filestore/store.go:744-766 | when callers wait for each other, a compound object that passed its guard finds its digest still free |
| `StoreRequests.OverwrittenInTurn` | internal/filestore/store.go:90-165 | a file stored after a compound object whose prefixed id it spells takes its place, without any overlap |
| `StoreRequests.DigestKeptInTurn` | internal/filestore/store.go:744-766 | when callers wait for each other, a digest keeps its content if and only if no file takes the digest of a compound object with another content |
| `ChunkStore.CommitBatch.Reuse` | internal/filestore/chunkstore.go:475-487 | records a chunk that needs no write: it joins the content and the batch's dedup set, nothing is buffered |
| `ChunkStore.CommitBatch.Record` | internal/filestore/chunkstore.go:511-523 | records an appended chunk: its entry is buffered, its pack marked touched, its hash seen |
| `ChunkStore.FilesystemStore.ActivePack` | internal/filestore/chunkstore.go:756-789 | scanning the directory finds the newest pack and its size, in whatever order it lists them |
| `ChunkStore.FilesystemStore.CachedActivePack` | internal/filestore/chunkstore.go:738-752 | the cached active pack is what a scan would find, and is remembered |
| `ChunkStore.FilesystemStore.AppendToActivePackNoSync` | internal/filestore/chunkstore.go:664-702 | appends at the end of the pack that is to take the bytes, the highest below 256 MiB or else a new one, and updates the cached size; a failed write leaves its prefix and forgets the cache |
| `ChunkStore.FilesystemStore.SyncPack` | internal/filestore/chunkstore.go:718-729 | syncing makes all bytes of the pack durable and changes no byte |
| `ChunkStore.FilesystemStore.SyncDirectory` | internal/filestore/chunkstore.go:732-732 | syncing the directory makes every pack name durable |
| `ChunkStore.FilesystemStore.SyncTouchedPacks` | internal/filestore/chunkstore.go:712-733 | on success every given pack is fully synced and durably named, on failure nothing but durability has grown |
| `ChunkStore.FilesystemStore.AppendChunk` | internal/filestore/chunkstore.go:489-526 | a new chunk is compressed, appended and recorded in the batch, or the batch is as it was |
| `ChunkStore.FilesystemStore.StoreChunkBatched` | internal/filestore/chunkstore.go:462-526 | a chunk already in the batch or the index is never written again; a new one is appended and recorded |
| `ChunkStore.FilesystemStore.SetRecipe` | internal/filestore/chunkstore.go:280-287 | buffering the recipe of the chunks stored so far keeps the batch coherent |
| `ChunkStore.FilesystemStore.Commit` | internal/filestore/commit_batch.go:104-110 | only when all syncs succeeded is the batch applied, whole or not at all; a reported error of the metadata write may be either, and the store stays valid |
| `ChunkStore.FilesystemStore.StoreBlobContentBatched` | internal/filestore/chunkstore.go:124-153 | a batched store of in-memory content records exactly its chunking under the given digest |
| `ChunkStore.FilesystemStore.StoreBlobReaderBatched` | internal/filestore/chunkstore.go:249-290 | a batched store of a stream records exactly the chunking of what the reader delivered, under its hash, with its size |
| `ChunkStore.FilesystemStore.Put` | internal/filestore/store.go:90-140 | a successful Put adds exactly its object under the hash of its content, readable at once; a failed one adds nothing unless its metadata was applied before the error |
| `ChunkStore.FilesystemStore.AppendToActivePack` | internal/filestore/chunkstore.go:641-656 | the unbatched append leaves a durable entry that reads back as the chunk |
| `ChunkStore.FilesystemStore.StoreChunk` | internal/filestore/chunkstore.go:400-451 | a new chunk is appended, synced and indexed, nothing else is; a chunk the index has writes nothing; a failing index write keeps the store valid |
| `ChunkStore.FilesystemStore.PutRecipe` | internal/filestore/chunkstore.go:117-117 | the recipe of indexed chunks is written, or not when the write fails, and the store stays valid |
| `ChunkStore.FilesystemStore.StoreBlobContent` | internal/filestore/chunkstore.go:90-118 | stores every chunk durably and then the recipe, so the content reads back; whatever write fails, no half-stored object appears |
| `ChunkStore.FilesystemStore.FetchChunk` | internal/filestore/chunkstore.go:538-553 | the chunk cache never changes an answer, whatever it keeps |
| `ChunkStore.FilesystemStore.ReadBlobContent` | internal/filestore/chunkstore.go:379-397 | the reading loop returns exactly the stored content, or nothing for an unknown digest |
| `ChunkStore.StoredReads` | internal/filestore/chunkstore.go:90-118 | an object recorded as the chunking of a content reads back as that content |
| `RecipeReader.ChunkRecipeReader.constructor` | internal/filestore/chunkstore.go:298-321 | opening a stored object starts at its beginning with nothing delivered |
| `RecipeReader.OpenBlobReader` | internal/filestore/chunkstore.go:298-313 | opens a reader exactly when the digest is stored, on exactly the content that reading the object gives |
| `RecipeReader.ChunkRecipeReader.NextChunk` | internal/filestore/chunkstore.go:342-350 | the next chunk is loaded and hashed, exactly in recipe order |
| `RecipeReader.ChunkRecipeReader.Read` | internal/filestore/chunkstore.go:325-357 | a read hands over the next bytes of the content; end and mismatch come only after all of it, and the end of a verifying reader only if the content has the digest |
| `RecipeReader.ReadWith` | internal/filestore/chunkstore.go:325-357 | with any sequence of buffer sizes the bytes read are a prefix of the content, all of it at the end or at a mismatch, with progress for every non-empty buffer |
| `UnionFind.HalvedRoot` | internal/embedding/repair.go:308-316 | halving a path changes no element's root |
| `UnionFind.Halve` | internal/embedding/repair.go:308-316 | one turn of find keeps the classes and moves to a strictly smaller element, so find terminates |
| `UnionFind.JoinRoots` | internal/embedding/repair.go:318-329 | hanging the larger root under the smaller merges exactly the two classes |
| `UnionFind.Sets.constructor` | internal/embedding/repair.go:299-306 | every entity starts as its own class |
| `UnionFind.Sets.Find` | internal/embedding/repair.go:308-316 | returns the root of the element's class and changes no class, though it rewrites parents |
| `UnionFind.Sets.Union` | internal/embedding/repair.go:318-329 | merges exactly the two classes under the smaller of their roots |
| `Linkage.OrderedKeySymmetric` | internal/embedding/repair.go:118-124 | an edge key does not depend on the order of its ends |
| `Linkage.LinkEdgeKeeps` | internal/embedding/repair.go:198-211 | linking one edge keeps roots minimal, cannot-link pairs apart and clusters connected by positive edges |
| `Linkage.LinkageSound` | internal/embedding/repair.go:164-222 | after all edges: a partition with minimal roots, no cluster holds a cannot-link pair, every cluster is connected by positive edges inside it, and every positive edge between two clusters is explained by a cannot-link pair across them |
| `Clustering.SortEdges` | internal/embedding/repair.go:175-184 | ordering the edges keeps exactly the edges given |
| `Clustering.RankedUnique` | internal/embedding/repair.go:175-184 | the processing order is decided by the edges alone |
| `Clustering.CannotMerge` | internal/embedding/repair.go:186-196 | the scan finds a forbidden pair exactly when there is one across the two member lists |
| `Clustering.LinkOne` | internal/embedding/repair.go:198-211 | one turn of the loop updates union-find and member table together, exactly as linking the edge does |
| `Clustering.ListClusters` | internal/embedding/repair.go:213-221 | the clusters are listed sorted, each led by its minimum and its root |
| `Clustering.ListingUnique` | internal/embedding/repair.go:213-221 | the listing is decided by the partition, not by map order |
| `Clustering.ListingPartitions` | internal/embedding/repair.go:213-221 | every entity is in exactly one listed cluster, once |
| `Clustering.ClusterByConstrainedLinkage` | internal/embedding/repair.go:164-222 | the method lists exactly the constrained linkage of its edges; every edge left between two clusters is forbidden by a cannot-link between what the edges at least as strong had already joined |
| `Clustering.SortStrongest` | internal/embedding/repair.go:175-185 | edges are taken strongest first, ties by their ends |
| `Clustering.StrongLinkage` | internal/embedding/repair.go:175-211 | when the linkage comes to the edges below a weight, it has made exactly the linkage of those at or above it |
| `Clustering.LinkedStrongest` | internal/embedding/repair.go:175-211 | an edge between two clusters of the result has a cannot-link pair between its two sides in the linkage of the edges at least as strong as it |
| `Clustering.StrongerIsFiner` | internal/embedding/repair.go:175-211 | what the edges at or above a weight join stays joined in the whole linkage |
| `Clustering.OrderIrrelevant` | internal/embedding/repair.go:164-222 | the result does not depend on the order of entities or edges |
| `Ledger.BoundsJoin` | internal/embedding/resolve.go:157-176 | the joined bounds are one of the two and include both; an empty bound is unbounded |
| `Ledger.BoundsTransitive` | internal/embedding/resolve.go:157-176 | including an interval end is transitive |
| `Ledger.BoundsAntisymmetric` | internal/embedding/resolve.go:157-176 | two bounds including each other are equal |
| `Ledger.AddAllKeys` | internal/embedding/resolve.go:113-137 | adding claims adds exactly their hashes |
| `Ledger.AddAllSpans` | internal/embedding/resolve.go:113-137 | a held claim's validity includes every interval it was ever offered with |
| `Ledger.AddAllTexts` | internal/embedding/resolve.go:120-136 | a hash that was held keeps its text, and a new hash has the text of the first claim presented with it |
| `Ledger.AddAllOffered` | internal/embedding/resolve.go:120-136 | each bound of an entry is one of those offered for its hash |
| `Ledger.NoBlankKeys` | internal/embedding/resolve.go:194-213 | the blocking index lists nobody under a blank identifier value |
| `Ledger.IdentKeyInjective` | internal/embedding/resolve.go:181-189 | an identifier key decides concept and value |
| `Ledger.DfAdd` | internal/embedding/resolve.go:113-137 | counting a new hash keeps document frequencies equal to the number of holders |
| `Ledger.IdentAdd` | internal/embedding/resolve.go:181-189 | filing a new claim keeps the identifier index equal to what the claim sets say, with multiplicity |
| `Ledger.ReboundKeeps` | internal/embedding/resolve.go:113-137 | widening a held claim's validity disturbs neither index |
| `Ledger.EntityLedger.AddClaim` | internal/embedding/resolve.go:120-136 | one claim is filed with its own text and bounds or its interval widened, nothing else changes, and both derived indexes still match the claim sets |
| `Ledger.EntityLedger.Add` | internal/embedding/resolve.go:113-137 | folds all claims into the entity's set and leaves every other set; both derived indexes still match the claim sets, so `AddAllTexts`, `AddAllOffered` and `AddAllSpans` are about its result |
| `Ledger.EntityLedger.Observe` | internal/embedding/resolve.go:143-153 | one observation is counted and each distinct non-empty hash in it once |
| `Ledger.EntityLedger.Rebuild` | internal/embedding/resolve.go:225-234 | from any index contents, rebuilding yields what the claim sets say, in whatever order they are visited |
| `Ledger.EntityLedger.SeedObservationStats` | internal/embedding/resolve.go:240-249 | without stored counts, every entity counts as one observation and every hash once per holder |
| `Ledger.EntityLedger.IdentifierCandidates` | internal/embedding/resolve.go:194-213 | returns exactly the entities sharing an identifier value with the incoming claims, sorted and each once |
| `Merging.FoldOneMerges` | internal/embedding/repair.go:241-258 | folding one member gives its canonical the union of both sets with joined bounds and removes the member |
| `Merging.FoldAllMerges` | internal/embedding/repair.go:240-258 | after folding all members in any order each canonical holds exactly the union of its cluster, every entry with the joined bounds and a text some holder had |
| `Merging.ConservesHashes` | internal/embedding/repair.go:240-258 | a claim hash is somewhere after the fold if and only if it was somewhere before |
| `Merging.ConservesCount` | internal/embedding/repair.go:240-258 | every assigned member is one entity fewer |
| `Merging.Bystander` | internal/embedding/repair.go:240-258 | entities outside the assignment are untouched |
| `Merging.LastWins` | internal/embedding/repair.go:249-255 | the text of a hash is the one of the member folded last |
| `Merging.DisagreeingOrders` | internal/embedding/repair.go:240-258 | two members of one canonical with different texts for a hash give two map orders with different results |
| `Merging.OrderShowsOnlyInTexts` | internal/embedding/repair.go:240-258 | the result is the same for every map order if and only if members of one canonical agree on the texts of shared hashes |
| `Resolution.PermutationSameKey` | internal/embedding/resolve.go:562-574 | any permutation of an observation has its key and its hashes |
| `ObservationKeys.KeyDecidesHashes` | internal/embedding/resolve.go:562-574 | observations of plain claims (no separator in hashes, no newline in bounds) that share a memo key hold the same hashes |
| `ObservationKeys.KeyDecidesKeys` | internal/embedding/resolve.go:562-574 | they even hold the same claim keys, however often each |
| `ObservationKeys.KeyDecidesBounds` | internal/embedding/resolve.go:562-574 | if their lower bounds hold no NUL either, they hold the same hashes with the same bounds |
| `ObservationKeys.HitHolds` | internal/embedding/resolve.go:562-574 | where all observations are plain, a memo hit names an entity that holds every hash of the observation presented now |
| `ObservationKeys.SplicedCollides` | internal/embedding/resolve.go:566-573 | a claim whose upper bound runs on into the key of another collides with the two of them |
| `ObservationKeys.OneHashEnough` | internal/embedding/resolve.go:562-574 | a plain observation under one hash shares its key only with observations of that hash, whatever their bounds hold |
| `ObservationKeys.Engulfed` | internal/embedding/resolve.go:562-574 | every observation has the key of a single claim, whose upper bound holds all the other keys |
| `ObservationKeys.MistakableExactly` | internal/embedding/resolve.go:562-574 | a plain observation is never taken for one with other hashes if and only if all its claims carry one hash |
| `ObservationKeys.OneHashHolds` | internal/embedding/resolve.go:289-298 | a memo hit for a plain observation under one hash is right, whatever bounds were memoized before |
| `ObservationKeys.AnsweredForAnother` | internal/embedding/resolve.go:278-384 | any observation under two hashes can be answered as a NOOP at an entity that lacks one of them |
| `Resolution.CountsStep` | internal/embedding/resolve.go:143-153 | a newly memoized observation keeps `observations` equal to the memo size and `occurrences` equal to the number of memoized observations holding each hash |
| `Resolution.MemoGrows` | internal/embedding/resolve.go:343-363 | growing claim sets unsettle no memoized observation |
| `Resolution.MemoStep` | internal/embedding/resolve.go:343-343 | memoizing a decision whose entity holds the observation keeps the memo sound |
| `Resolution.MemoMerges` | internal/embedding/repair.go:262-267 | merging entities and re-pointing the memo keeps every memoized observation covered by its entity |
| `Resolution.MissingCovers` | internal/embedding/resolve.go:350-355 | what an entity holds together with the claims it is missing covers the observation |
| `Resolution.MissingParts` | internal/embedding/resolve.go:350-355 | each claim is judged by itself and their order kept: an observation in two parts lacks what the parts lack |
| `Resolution.ResolvedKeeps` | internal/embedding/resolve.go:350-363 | after a resolution the entity holds every presented hash and no entity holds less |
| `Resolution.ResolvedTexts` | internal/embedding/resolve.go:350-363 | a resolution leaves every other entity and every entry held before as they were, adds exactly the presented hashes, and each new one has the text of the first claim presented with it |
| `Resolution.ResolvedShares` | internal/embedding/resolve.go:350-363 | every presented claim with a non-empty identifier value under a new hash makes its entity a candidate for that value |
| `Resolution.Service.Resolve` | internal/embedding/resolve.go:278-384 | a known observation is a NOOP at its entity that changes nothing; a new one is memoized, counted and its missing claims added; errors leave everything unchanged up to the final index update; the memo invariant holds in every state from an empty start |
| `Repair.RepairEdges` | internal/embedding/repair.go:128-159 | every veto becomes a cannot-link pair and every distinct pair at or above the threshold one positive edge, whatever the order of scores |
| `Repair.AssignmentFlat` | internal/embedding/repair.go:95-106 | assigning members to their minimum never assigns a canonical |
| `Repair.AssignCluster` | internal/embedding/repair.go:101-105 | every member of a cluster but its first is assigned to the first |
| `Repair.Assignments` | internal/embedding/repair.go:95-106 | the assignment is exactly members to minima over all clusters; the count is the number of clusters with a second member, and is zero exactly when nothing is assigned |
| `Repair.MergeClaims` | internal/embedding/repair.go:244-255 | merging one member's claims, in any hash order, is the union with joined bounds |
| `Repair.Repoint` | internal/embedding/repair.go:262-267 | the memo is re-pointed from every assigned member to its canonical and otherwise unchanged |
| `Repair.FoldMembers` | internal/embedding/repair.go:240-258 | folding all members in any order leaves each canonical with the union of its cluster |
| `Repair.ApplyAssignments` | internal/embedding/repair.go:229-282 | folding, rebuilding and re-pointing keep the ledger indexed, the memo sound and the counts exact |
| `Repair.EntityIDs` | internal/embedding/repair.go:285-293 | lists exactly the entities, sorted |
| `Repair.RoundClusters` | internal/embedding/repair.go:86-93 | a round's clusters are the constrained linkage of its scores, strongest first: vetoed pairs apart, everything kept apart explained by evidence at least as strong |
| `Repair.RepairRound` | internal/embedding/repair.go:82-113 | one round folds exactly its clusters and reports exactly how many members and clusters it folded |
| `Repair.RoundConserves` | internal/embedding/repair.go:82-113 | a round loses and invents no claim hash and removes one entity per merge |
| `Repair.Repair` | internal/embedding/repair.go:46-80 | over all rounds no claim hash is lost or invented and every memoized observation stays covered, also when scoring or pooling fails midway; on success EntitiesBefore = EntitiesAfter + Merges |
| `Evidence.BestSharedBounds` | internal/embedding/iddiff.go:171-182 | an incoming claim's best set match is between zero and its own weight and positive only on a value match |
| `Evidence.SharedMassBounds` | internal/embedding/iddiff.go:167-191 | shared set mass is at most the incoming weight, however large the candidate, and positive only on a value match |
| `Evidence.FunctionalBounds` | internal/embedding/iddiff.go:204-230 | functional evidence is non-negative both ways, positive only on a co-valid match, and vetoes exactly when two co-valid values too far apart, neither the successor of the other, have one heavy enough among them |
| `Evidence.OverlapsExactly` | internal/embedding/claim.go:42-52 | two windows that are not empty are contemporaneous exactly when some time lies in both |
| `Evidence.PairAdds` | internal/embedding/iddiff.go:212-227 | a co-valid match counts the incoming weight, a co-valid unlicensed mismatch the heavier of the two and a veto if that is enough, any other pair nothing |
| `Evidence.FunctionalPairwise` | internal/embedding/iddiff.go:204-230 | every pair of claims is counted exactly once: the evidence is additive on either side, and for one pair it is that of the pair |
| `Evidence.InitialExactly` | internal/embedding/iddiff.go:326-338 | an initial matches exactly the tokens that begin with it, on either side |
| `Evidence.ContextBounds` | internal/embedding/iddiff.go:375-395 | contextual mass is at most the incoming weight |
| `Evidence.PickPartner` | internal/embedding/iddiff.go:262-273 | the chosen partner is free, co-valid and matching, and its mass is the smaller weight |
| `Evidence.MatchBounds` | internal/embedding/iddiff.go:251-280 | name matching is one-to-one, so shared mass is at most the matched weight of either side |
| `Evidence.NameBounds` | internal/embedding/iddiff.go:251-295 | name evidence is bounded by the weight of both names, and positive only if some token matches |
| `NameOrder.PickFirst` | internal/embedding/iddiff.go:251-275 | the loop picks the first of the heaviest free tokens that suit |
| `NameOrder.LoopFollows` | internal/embedding/iddiff.go:251-275 | the loop follows a course: each incoming token takes one of the heaviest free tokens or none suits it |
| `NameOrder.MassOfCourse` | internal/embedding/iddiff.go:251-295 | name evidence is a function of the course alone, without positions |
| `NameOrder.Reached` | internal/embedding/iddiff.go:251-275 | whatever course the matching may take, some order of the candidate tokens makes the loop take it |
| `NameOrder.OrderIrrelevantExactly` | internal/embedding/iddiff.go:251-295 | name evidence is the same for every order of the candidate tokens if and only if it is the same however ties are broken |
| `NameOrder.OrdersIrrelevantExactly` | internal/embedding/iddiff.go:251-295 | the same for both sides: in whatever order incoming tokens choose and however ties are broken |
| `NameTies.NoTiesSteady` | internal/embedding/iddiff.go:260-275 | when no incoming token suits two candidate tokens with the same weight, the order of the candidate does not show |
| `NameTies.NoRivalsSteady` | internal/embedding/iddiff.go:251-295 | when moreover no candidate token suits two incoming ones, neither order shows |
| `NameTies.TieShows` | internal/embedding/iddiff.go:251-295 | for every tie among full tokens there is an incoming name against which their order shows |
| `NameTies.TiesShowExactly` | internal/embedding/iddiff.go:251-295 | full tokens give the same evidence in every order against every incoming name if and only if no token suits two of them with the same weight |
| `NameTies.NameOrderMatters` | internal/embedding/iddiff.go:251-295 | two tokens against two: one order of the candidate tokens matches both, the other is a divergence |
| `IdDiff.GroupsWithin` | internal/embedding/iddiff.go:456-463 | grouping by attribute counts no claim twice |
| `IdDiff.DedupWeight` | internal/embedding/iddiff.go:436-454 | deduplicating by source only drops weight |
| `IdDiff.FrontierWeight` | internal/embedding/iddiff.go:411-431 | dropping superseded claims only drops weight |
| `IdDiff.AttrBounds` | internal/embedding/iddiff.go:73-101 | one attribute's evidence is balanced, its soft part bounded by the incoming weight, its anchor part positive only on a match of names, of single values or of values of an identifying set, its veto exact |
| `IdDiff.SetEvidence` | internal/embedding/iddiff.go:73-84 | set overlap counts exactly when a weighty co-valid value is shared, as an anchor exactly for accounts, identifiers and e-mail, phone and URL locators; two sets of several values that share none count against, between entities only |
| `IdDiff.KindEvidence` | internal/embedding/iddiff.go:85-101 | single values and names support, anchor and contradict with their own evidence, only single values veto, and context only supports |
| `IdDiff.SetMassExact` | internal/embedding/iddiff.go:104-113 | overlap counts in full, or by its share of the incoming weight when something contradicts |
| `IdDiff.AnchorMassBounds` | internal/embedding/iddiff.go:104-113 | anchor mass is part of the evidence, also when contradicted overlap is scaled down, and positive exactly when some anchor evidence is |
| `IdDiff.AttributesUnique` | internal/embedding/iddiff.go:465-483 | the attributes are compared in one order, whatever order the maps give them in |
| `IdDiff.EvidenceBounds` | internal/embedding/iddiff.go:57-199 | evidence for and against is non-negative, anchor mass at most the evidence for, and set, name and contextual mass together at most the incoming claims' own weight |
| `IdDiff.ScoreExact` | internal/embedding/iddiff.go:115-125 | the score is the evidence for less lambda times the evidence against, and zero at ingest without an anchor |
| `CompareParts.SideExactly` | internal/embedding/iddiff.go:411-463 | of an attribute exactly those claims are compared that no claim of the graph supersedes and that are the first of their source and hash, each once and in order |
| `CompareParts.AttributesAbout` | internal/embedding/iddiff.go:465-483 | the attributes compared are exactly those some current claim of either graph is about, each once |
| `CompareParts.CompareSums` | internal/embedding/iddiff.go:57-127 | evidence for and against are the sums of the attributes' evidence, shared set values counted in full or by their share |
| `IdDiff.AnchorNeeded` | internal/embedding/iddiff.go:115-118 | at ingest a positive score needs an attribute on which an anchoring pair matches |
| `IdDiff.VetoExact` | internal/embedding/iddiff.go:86-93 | a veto fires exactly when some single-valued attribute holds a co-valid, unlicensed mismatch with a claim of at least the veto mass |
| `CompareOrder.AttrSame` | internal/embedding/iddiff.go:57-103 | the evidence of sets, single values and context is the same for every order of the claims of both sides |
| `CompareOrder.CompareSame` | internal/embedding/iddiff.go:57-125 | two graphs compare the same in every order in which their names give the same evidence |
| `CompareOrder.TieFreeSame` | internal/embedding/iddiff.go:57-125 | without ties a record compares the same with every order of a candidate |
| `CompareOrder.RivalFreeSame` | internal/embedding/iddiff.go:57-125 | without ties and rivals two entities compare the same in every order of both |
| `CompareOrder.ComparesAsNames` | internal/embedding/iddiff.go:57-125 | with one attribute of names, two orders compare the same if and only if their name evidence is the same |
| `CompareOrder.CompareSteadyExactly` | internal/embedding/iddiff.go:57-125 | a record compares the same with every order of a candidate if and only if its name tokens meet those of the candidate with the same evidence however ties are broken |
| `CompareOrder.CompareSteadyBothExactly` | internal/embedding/iddiff.go:57-125 | the same for two entities whose claims both come in any order |
| `Scoring.SetOverlapMass` | internal/embedding/iddiff.go:167-191 | the nested loops compute shared mass and incoming weight |
| `Scoring.FunctionalScore` | internal/embedding/iddiff.go:204-230 | the nested loops compute the functional evidence that `PairAdds` and `FunctionalPairwise` characterise pair by pair |
| `Scoring.MatchTokens` | internal/embedding/iddiff.go:251-280 | the flag arrays end up as the greedy matching |
| `Scoring.NameScore` | internal/embedding/iddiff.go:251-295 | the name loops compute the name evidence, including mutual divergence and licensed changes |
| `Scoring.ContextualMass` | internal/embedding/iddiff.go:375-395 | the nested loops compute the contextual mass |
| `Scoring.DropSuperseded` | internal/embedding/iddiff.go:411-431 | returns exactly the claims no other claim supersedes, in order |
| `Scoring.DedupBySource` | internal/embedding/iddiff.go:436-454 | keeps the first claim of each source and hash, and every claim without a source |
| `Scoring.GroupByAttr` | internal/embedding/iddiff.go:456-463 | groups exactly the claims of each attribute, in order |
| `Scoring.UnionAttrs` | internal/embedding/iddiff.go:465-483 | lists the attributes of either side, sorted and once |
| `Scoring.ScoreAttr` | internal/embedding/iddiff.go:73-101 | scores one attribute by its kind |
| `Scoring.ComputeIdDiff` | internal/embedding/iddiff.go:57-127 | the whole loop computes the comparison that `EvidenceBounds`, `CompareSums`, `ScoreExact` and `VetoExact` are about |
| `Scoring.Candidates` | internal/embedding/resolve.go:409-423 | the candidates are the named entities of both recall channels, each once, sorted |
| `Scoring.ResolveEntity` | internal/embedding/resolve.go:390-449 | in whatever order each candidate's claims come, joins the best-scoring candidate without veto that clears the gate, the last among equals, else mints; a failing recall decides nothing |
| `Scoring.DecidedOnce` | internal/embedding/resolve.go:390-449 | two ways to order the candidates' claims that give the same comparisons lead to the same decision |
| `EntityGraphs.GraphsPermute` | internal/embedding/resolve.go:514-544 | any two graphs of a claim set are orders of the same claims |
| `EntityGraphs.DecisionSteady` | internal/embedding/resolve.go:390-449 | without ties a record is decided the same in whatever order the candidates' claims come from the ledger |
| `EntityGraphs.EdgesSteady` | internal/embedding/service.go:198-256 | without ties and rivals the edges of an entity are the same in whatever order all claims come |
| `EntityGraphs.ScoresDiffer` | internal/embedding/iddiff.go:57-125 | two orders of one candidate, one of which scores for it and the other does not, at ingest and at repair |
| `EntityGraphs.DecisionOrderMatters` | internal/embedding/resolve.go:390-449 | for every such pair and every gate between: one order mints a new entity, the other joins |
| `EntityGraphs.OrderExample` | internal/embedding/resolve.go:390-449 | a concrete record and a concrete claim set with two of its graphs and the two decisions |
| `EntityGraphs.ListGraph` | internal/embedding/resolve.go:519-539 | lists every claim of a set once, in any order |
| `EntityGraphs.Matcher.EntityScoredClaims` | internal/embedding/resolve.go:514-544 | a graph of what the entity holds now, the memoized one if there is one |
| `EntityGraphs.Matcher.ResolveRecord` | internal/embedding/resolve.go:278-384 | one record start to end on the ledger's own claims and identifier index: a known observation is a NOOP, any other goes to the entity the comparison decides on, which then holds all its hashes, and the memo of graphs stays current |
| `EntityGraphs.Matcher.ScoreEdges` | internal/embedding/service.go:198-256 | the edges to exactly the neighbours of both recall channels, sorted, each the comparison of graphs of both entities |
| `EntityGraphs.EdgesExactly` | internal/embedding/service.go:198-256 | an entity has exactly one edge to each other neighbour, in order of their ids, with the score and veto of the pair |
| `EntityGraphs.GraphSays` | internal/embedding/resolve.go:514-542 | an entity's graph has one claim for each hash it holds, with the concept, value, kind, role and validity of the held entry |
| `EntityGraphs.SharedFound` | internal/embedding/resolve.go:194-213 | an entity that holds an identifier value a record presents is a candidate, whatever was recalled |
| `EntityGraphs.ScoreAll` | internal/embedding/service.go:245-252 | the scoring loop computes those edges |
| `RepairGraphs.RoundScores` | internal/embedding/repair.go:128-160 | the scores of a round are the edges of every entity in order |
| `RepairGraphs.ScoresOnce` | internal/embedding/repair.go:128-160 | without ties and rivals a round has one list of scores, whatever order any claims come in |
| `RepairGraphs.LeftCurrentExactly` | internal/embedding/resolve.go:514-544 | a memoized graph stays right if and only if the same hashes score as they did |
| `RepairGraphs.OutgrowsMemo` | internal/embedding/repair.go:240-258 | a canonical that takes in a hash it lacked outgrows the graph it had |
| `RepairGraphs.DropMerged` | internal/embedding/repair.go:256-277 | the graphs of members and of the canonicals reached before the first pooling failure are dropped, no others |
| `RepairGraphs.MemoAfterExactly` | internal/embedding/repair.go:229-282 | after the fold the memo is current if and only if all that was left of canonicals scores as before |
| `RepairGraphs.RepairOnce` | internal/embedding/repair.go:82-113 | one round on the ledger's own graphs: scores, clusters, fold and memo, with the exact condition under which the memo is current, also when pooling fails |
| `Scoring.JoinNeedsAnchor` | internal/embedding/resolve.go:431-446 | with a positive gate a record joins an entity only on a match of names, of single values or of values of an identifying set, and with no vetoing contradiction |
| `Codec.LittleInverse` | internal/embedding/artifact.go:42-63 | a little-endian number that fits its width reads back |
| `Codec.U32Inverse` | internal/embedding/artifact.go:42-63 | a 32-bit count reads back and leaves what follows |
| `Codec.U32Bytes` | internal/embedding/artifact.go:42-63 | a 32-bit count is written low byte first |
| `Codec.BlobInverse` | internal/embedding/artifact.go:65-100 | a length-prefixed payload of at most 512 MiB reads back and leaves what follows |
| `Codec.RowInverse` | internal/embedding/state.go:268-281 | values that read back one by one read back in a row |
| `Codec.KeysUnique` | internal/embedding/state.go:160-165 | the keys written are the sorted keys, decided by the map alone |
| `Codec.TableInverse` | internal/embedding/state.go:153-204 | a map reads back exactly whenever its keys and values do |
| `Snapshot.VectorInverse` | internal/embedding/state.go:459-496 | a vector of at most 65536 components reads back bit for bit |
| `Snapshot.ClaimInverse` | internal/embedding/state.go:397-420 | a claim entry reads back with its text and both bounds |
| `Snapshot.DimsStable` | internal/embedding/index.go:54-71 | loading settles on the dimensions the index was built with; sensible ones are kept, a missing full one is 768, a missing or too large coarse one 128 |
| `Snapshot.IndexInverse` | internal/embedding/index.go:334-453 | the index maps and dimensions read back |
| `Snapshot.BookInverse` | internal/embedding/state.go:286-457 | claim sets and observation counts read back; from an artifact without counts the claim sets do |
| `Snapshot.RoundTrip` | internal/embedding/state.go:30-149 | within the readers' limits, loading a saved state restores cache, index, claim sets, counts and memo exactly |
| `Snapshot.PreviousRead` | internal/embedding/state.go:81-149 | an artifact of the previous version restores cache, index, claim sets and memo and has no counts, which `StateService.State.LoadState` then seeds from the claim sets |
| `Snapshot.SaveInjective` | internal/embedding/state.go:30-76 | different states never serialize to the same bytes |
| `StateService.CollectKeys` | internal/embedding/state.go:160-165 | collecting keys in any order and sorting gives the sorted keys |
| `StateService.WriteTable` | internal/embedding/state.go:153-178 | the writing loop produces the map's one serialization, whatever order the map is walked in |
| `StateService.ReadTable` | internal/embedding/state.go:180-204 | the reading loop accepts and returns exactly what the format says, and fails exactly otherwise |
| `StateService.WriteEntityIndex` | internal/embedding/index.go:334-393 | writes the index's one serialization |
| `StateService.LoadEntityIndex` | internal/embedding/index.go:397-453 | reads an index artifact or rejects it |
| `StateService.EncodeLedger` | internal/embedding/state.go:286-373 | writes the ledger's one serialization |
| `StateService.DecodeLedger` | internal/embedding/state.go:375-457 | reads a ledger of either version, rebuilds its derived indexes, and seeds counts the old version lacks |
| `StateService.State.SnapshotState` | internal/embedding/state.go:30-76 | equal states serialize to equal bytes |
| `StateService.State.LoadState` | internal/embedding/state.go:81-149 | a bad artifact changes nothing; a good one replaces cache, index, ledger and memo with exactly what was saved |
| `StateService.DerivedSame` | internal/embedding/state.go:451-451 | recomputed document frequencies equal the originals and blocking lists hold the same entities |
| `EntityIndex.FoldConserves` | internal/embedding/index.go:160-171 | folding a member's names into its canonical makes and loses no name vector |
| `EntityIndex.SettledStep` | internal/embedding/index.go:160-172 | one more canonical taking in its members keeps the account of where all names are |
| `EntityIndex.Index.FoldMembers` | internal/embedding/index.go:160-171 | the canonical holds its own names and then each member's once, members hold none and lose their centroids, all others stay, and no name vector is lost or made |
| `EntityIndex.Index.ApplyMerges` | internal/embedding/index.go:153-180 | in any order, no name vector is lost or made; an entity that is no canonical keeps its names or, when taken in, has none; separate merges leave each canonical its own and its members' names; a centroid is there exactly when recomputed and usable, or old and its entity not taken in |
| `Embedding.AnsweredOnce` | internal/embedding/embedder.go:311-340 | as many answers as inputs and every input answered means no input is answered twice |
| `Embedding.PlaceByIndex` | internal/embedding/embedder.go:311-340 | succeeds exactly on a complete response, and then every slot holds the answer its index names |
| `Embedding.TruncatedExactly` | internal/embedding/embedder.go:155-202 | a text is sent whole up to 1600 characters and as its first 1600 beyond that |
| `Embedding.Embed` | internal/embedding/embedder.go:155-202 | the batches concatenate to the truncated texts, each is within both limits unless it is a single text and was full when the next began, and the answer is each text's own embedding in order |
| `Embedding.KeyDecidesText` | internal/embedding/embedding.go:52-77 | a cache key decides its text, whatever the namespaces |
| `Embedding.KeyExactly` | internal/embedding/embedding.go:52-77 | two cache keys are equal exactly when they are for the same text in the same namespace, blank ones being that of contact claims |
| `Embedding.HashOkMet` | internal/embedding/embedding.go:52-77 | there is a hash of the kind the vector cache is proved for |
| `Embedding.SoundPut` | internal/embedding/embedder.go:432-435 | caching a fresh vector keeps every cached vector the vector of its text |
| `Embedding.MissCount` | internal/embedding/embedder.go:399-420 | the texts sent are as many as the distinct uncached keys |
| `Embedding.Resolver.LookUp` | internal/embedding/embedder.go:401-418 | cached texts are answered, and every other key is listed once with its first text and position |
| `Embedding.Resolver.StoreVectors` | internal/embedding/embedder.go:427-436 | fresh vectors reach the cache and the slots that asked for them |
| `Embedding.Resolver.FillDuplicates` | internal/embedding/embedder.go:438-445 | repeated texts are answered from what was just cached |
| `Embedding.Resolver.VectorsForNamespace` | internal/embedding/embedder.go:385-448 | each output is the embedding of its own text, in order; one text per distinct uncached key is embedded, which is the miss count; a failure leaves the cache as it was |
| `Recency.WithoutLookup` | internal/cache/lru.go:101-112 | removing a key forgets it and nothing else |
| `Recency.PrefixLookup` | internal/cache/lru.go:163-171 | cutting off the least recent entries changes no other answer |
| `Recency.FitLongest` | internal/cache/sized.go:111-115 | eviction removes the shortest sufficient suffix: every longer prefix is too large |
| `Recency.PutSizedLookup` | internal/cache/sized.go:56-86 | the entry just put survives eviction, and an oversized value leaves no stale one |
| `Recency.PutSizedOthers` | internal/cache/sized.go:56-86 | a put leaves every other key as it was or evicted |
| `Recency.AddNeverOverwrites` | internal/cache/lru.go:81-98 | adding never overwrites, and on an absent key does what putting does |
| `RecencyRuns.OrderedByUse` | internal/cache/lru.go:41-112 | in every run of either cache the entries stand in the order of their last use, each with the value last stored |
| `RecencyRuns.EvictsOldest` | internal/cache/lru.go:58-76 | whatever an operation evicts was last used before everything that stays |
| `RecencyRuns.CountedCuts` | internal/cache/lru.go:58-98 | the count-bounded cache evicts only what is beyond its capacity |
| `RecencyRuns.SizedCuts` | internal/cache/sized.go:56-115 | the byte-bounded cache evicts only what does not fit, and an oversized value only removes its key |
| `Chain.List.PushFront` | internal/cache/lru.go:122-135 | pushing relinks the list to the entry in front of the old nodes, in both directions |
| `Chain.List.Bridge` | internal/cache/lru.go:146-161 | unlinking redirects exactly the two neighbours, the head and the tail |
| `Chain.List.Unlink` | internal/cache/lru.go:146-161 | unlinking leaves the list of the other nodes, in both directions |
| `Chain.List.MoveToFront` | internal/cache/lru.go:137-144 | moving to the front keeps the nodes and the order of the others |
| `Caches.FiledCount` | internal/cache/lru.go:73-75 | the map has as many keys as the list has nodes |
| `Caches.Found` | internal/cache/lru.go:45-54 | looking a key up in the map finds what looking it up in the recency sequence finds |
| `Caches.LRU.constructor` | internal/cache/lru.go:29-38 | a new cache is empty with capacity at least one |
| `Caches.LRU.Get` | internal/cache/lru.go:41-55 | returns what the sequence holds and makes it the most recent |
| `Caches.LRU.Put` | internal/cache/lru.go:58-76 | puts in front and keeps the most recent entries up to capacity |
| `Caches.LRU.Add` | internal/cache/lru.go:81-98 | inserts only if absent, refreshes otherwise, within capacity |
| `Caches.LRU.Remove` | internal/cache/lru.go:101-112 | removes exactly the key |
| `Caches.LRU.RemoveTail` | internal/cache/lru.go:163-171 | drops exactly the least recent entry from list and map |
| `Caches.LRU.Len` | internal/cache/lru.go:115-120 | reports the number of entries, never above capacity |
| `Caches.BytesMove` | internal/cache/sized.go:111-167 | moving an entry moves no bytes, taking it out takes its own |
| `Caches.SizedLRU.constructor` | internal/cache/sized.go:27-36 | a new cache is empty with a budget of at least one byte |
| `Caches.SizedLRU.Get` | internal/cache/sized.go:39-51 | returns what the sequence holds and makes it the most recent |
| `Caches.SizedLRU.Drop` | internal/cache/sized.go:158-167 | list, map and byte count lose exactly the entry |
| `Caches.SizedLRU.EvictToFit` | internal/cache/sized.go:111-115 | evicts least recent entries until the rest fits, and no more |
| `Caches.SizedLRU.Put` | internal/cache/sized.go:56-86 | after a put the list is well formed, map and list hold the same nodes, the byte count is exact and within budget, and the contents are the byte-bounded put on the sequence |
| `Caches.SizedLRU.Remove` | internal/cache/sized.go:89-101 | removes exactly the key and its bytes |
| `Caches.SizedLRU.TotalBytes` | internal/cache/sized.go:104-109 | the reported size is the sum of value lengths, within budget |
| `BackendPool.KeepsTokens` | internal/analysis/backend.go:190-300 | every step moves capacity between slots, idle and threads and makes or loses none |
| `BackendPool.PlacesStep` | internal/analysis/backend.go:207-356 | a step moves a backend, places a new one or closes one; no other changes place |
| `BackendPool.KeepsPlaces` | internal/analysis/backend.go:207-356 | every step keeps each backend in at most one place and each live process in exactly one |
| `BackendPool.KeepsStep` | internal/analysis/backend.go:190-356 | every step of every thread keeps capacity and places |
| `BackendPool.RunKeeps` | internal/analysis/backend.go:190-356 | in every state every interleaving reaches, free slots, idle, held, spawning, discarding and set-aside backends add up to MaxInstances |
| `BackendPool.SendNeverBlocks` | internal/analysis/backend.go:237-246 | a thread that has to return a slot always can |
| `BackendPool.OverflowUnreachable` | internal/analysis/backend.go:256-261 | the defensive branches of release and reap cannot be taken |
| `BackendPool.OfferNeverBlocks` | internal/analysis/backend.go:293-299 | a backend that is released or set aside always fits into idle |
| `BackendPool.NeverShared` | internal/analysis/backend.go:177-188 | two threads never have the same backend, and none has an idle one |
| `BackendPool.LiveBound` | internal/analysis/backend.go:177-188 | live processes never exceed MaxInstances less the free slots |
| `BackendPool.Quiescent` | internal/analysis/backend.go:177-188 | in every run, when every thread is done all capacity is in the two channels |
| `BackendPool.RunEmptyHanded` | internal/analysis/backend.go:264-300 | in every run only a thread in the middle of a reap has backends set aside |
| `BackendPool.ReapEnds` | internal/analysis/backend.go:264-300 | a reap ends only when it has put back or closed everything it set aside |
| `CircuitBreaker.BackoffFor` | internal/analysis/circuitbreaker.go:130-143 | the n-th window is exactly min(base * 2^(n-1), max), computed in 64 bits without overflow |
| `CircuitBreaker.AskedGood` | internal/analysis/circuitbreaker.go:69-89 | asking keeps the record true to the history |
| `CircuitBreaker.FailedGood` | internal/analysis/circuitbreaker.go:98-114 | recording a failure keeps the record true to the history: failures since the last success, window of the last failure |
| `CircuitBreaker.AllowExact` | internal/analysis/circuitbreaker.go:69-89 | the record admits exactly when the history does: fewer than threshold failures, or the window is over and nobody was admitted since the last result |
| `CircuitBreaker.Breaker.Allow` | internal/analysis/circuitbreaker.go:69-89 | admits exactly the calls the key's history lets in and disturbs no other key |
| `CircuitBreaker.Breaker.RecordSuccess` | internal/analysis/circuitbreaker.go:91-96 | a success closes the circuit of its key and of no other |
| `CircuitBreaker.Breaker.RecordFailure` | internal/analysis/circuitbreaker.go:98-114 | a failure is counted and, from the threshold on, opens the next window |
| `CircuitBreaker.Breaker.IsOpen` | internal/analysis/circuitbreaker.go:118-128 | open exactly when tripped and inside the window of the last failure |
| `CircuitBreaker.AtMostOneProbe` | internal/analysis/circuitbreaker.go:80-88 | once tripped, at most one call is admitted between consecutive results, over every run |
| `CircuitBreaker.NoneBeforeWindow` | internal/analysis/circuitbreaker.go:77-79 | once tripped, nobody is admitted before the window is over, over every run |
| `CircuitBreaker.NeverBlockedBelow` | internal/analysis/circuitbreaker.go:73-76 | fewer than threshold failures never block, over every run |
| `Worker.KeepsSettled` | internal/analysis/worker.go:201-287 | every step keeps handled deliveries unsettled and finished ones settled once if they returned success |
| `Worker.KeepsCache` | internal/analysis/worker.go:325-367 | what a step puts into the positive cache was seen or written at that moment, and eviction changes nothing |
| `Worker.KeepsAcks` | internal/analysis/worker.go:201-287 | every step keeps every acknowledgement backed by an earlier event |
| `Worker.KeepsStep` | internal/analysis/worker.go:201-380 | every step of every handler keeps all of this |
| `Worker.RunKeeps` | internal/analysis/worker.go:201-380 | every run keeps all of this |
| `Worker.SettledExactlyOnce` | internal/analysis/worker.go:201-287 | in every run a handler that returned success settled its delivery exactly once, any other never |
| `WorkerPaths.AckedDuly` | internal/analysis/worker.go:201-287 | in every run an acknowledged job was of a known schema version, without blank parts and for a registered analyzer, and a forced one had its annotation written or its object found missing, whatever the cache or the store held |
| `WorkerPaths.NeverStuck` | internal/analysis/worker.go:201-380 | in every state some answer moves a busy handler on |
| `WorkerPaths.RoutedDuly` | internal/analysis/worker.go:201-380 | a reported failure is parked while the circuit is open or the backend unavailable and retried otherwise |
| `WorkerCache.AckedSoundly` | internal/analysis/worker.go:305-380 | in every run an acknowledged job had its object found missing, or its own annotation seen or written, at an earlier step, also when served from the cache, unless another storable annotation spells its key |
| `WorkerCache.KeepsOwned` | internal/analysis/worker.go:305-367 | every step keeps what a handler knows its job's own or its cache's answer, and logs only storable annotations |
| `WorkerCache.MistakenRun` | internal/analysis/worker.go:325-331 | for every rival of a job there is a run from an empty worker: the rival is seen, noted and acknowledged, then the job hits the cache and is acknowledged without evidence of its own |
| `WorkerCache.MistakenExactly` | internal/analysis/worker.go:305-380 | a job can be acknowledged without evidence of its own if and only if it is accepted, not forced and has a rival |
| `WorkerCache.MistakenExample` | internal/analysis/worker.go:376-380 | such a job, with two registered analyzers, one of which holds a NUL in its name |
| `WorkerCache.NeverMistaken` | internal/analysis/worker.go:376-380 | a job without NUL is never mistaken, and under a registry without NUL no job is |
| `WorkerReports.OwnTold` | internal/analysis/worker.go:201-287 | at every point of a handler the breaker has been told exactly what that point asks for |
| `WorkerReports.KeepsTold` | internal/analysis/worker.go:201-287 | every step of every handler keeps the reports to the breaker in order, and no handler reports for another's delivery |
| `WorkerReports.ReportedOnce` | internal/analysis/worker.go:201-287 | in every run an acknowledged delivery reported one success, or nothing because its object is missing; a retried one reported one failure; a parked one was refused and reported nothing, or reported one failure |
| `KeyLocks.KeepsKey` | internal/filestore/key_lock.go:6-31 | every step keeps a key's reference count equal to its registered threads, its lock taken exactly when someone is inside, and its entry there exactly when someone is registered |
| `KeyLocks.KeepsShared` | internal/filestore/key_lock.go:6-31 | a thread's lock stays the one in the map for as long as the thread is registered |
| `KeyLocks.KeepsTaken` | internal/filestore/key_lock.go:19-30 | a taken lock always belongs to a key in the map |
| `KeyLocks.KeepsStep` | internal/filestore/key_lock.go:6-31 | every step of every thread keeps the invariant |
| `KeyLocks.RunKeeps` | internal/filestore/key_lock.go:6-31 | every interleaving keeps the invariant |
| `KeyLocks.MutualExclusion` | internal/filestore/key_lock.go:19-22 | at most one thread is inside a key, also across deletion and re-creation of its lock |
| `KeyLocks.OneLockPerKey` | internal/filestore/key_lock.go:11-16 | all registered threads of a key share the one lock in the map |
| `KeyLocks.DomainExact` | internal/filestore/key_lock.go:24-29 | the map's domain is exactly the keys with registered threads |
| `KeyLocks.LeavingNeverStuck` | internal/filestore/key_lock.go:21-30 | a thread that has unlocked can always deregister |
| `Mailboxes.Acyclic` | internal/appsvc/services.go:1425-1444 | in a forest no mailbox is its own ancestor |
| `Mailboxes.ParentClosed` | internal/appsvc/services.go:1380-1393 | in a forest every parent is the top level or in the catalog |
| `Mailboxes.RehungExactly` | internal/appsvc/services.go:1425-1444 | hanging a mailbox under a new parent keeps the forest if and only if it is not above that parent |
| `Mailboxes.HasParentCycle` | internal/appsvc/services.go:1425-1444 | the walk ends on every catalog, and on a forest answers true exactly when the new parent would close a loop |
| `Mailboxes.NameAvailable` | internal/appsvc/services.go:1395-1410 | true exactly when no other live sibling has the name up to case |
| `Mailboxes.HasChild` | internal/appsvc/services.go:1412-1423 | true exactly when a live mailbox has the given parent |
| `Mailboxes.CreatedGood` | internal/appsvc/services.go:804-820 | filing a new mailbox under an existing parent and a free name keeps the catalog good |
| `Mailboxes.DestroyedGood` | internal/appsvc/services.go:865-885 | removing a childless mailbox keeps the catalog good |
| `Mailboxes.CreateOne` | internal/appsvc/services.go:804-820 | a create goes through exactly when it is valid, its parent exists and its name is free, and then files exactly the trimmed mailbox |
| `Mailboxes.CreatableExactly` | internal/appsvc/services.go:804-820 | a create is acceptable exactly when id and name are not blank, the parent is the top level or a live mailbox, and no live sibling has the name up to case |
| `Mailboxes.CreateAll` | internal/appsvc/services.go:804-820 | in some order every create is done as asked exactly when the catalog it meets allows it, else refused; the good catalog stays good and nothing else changes |
| `Mailboxes.UpdateOne` | internal/appsvc/services.go:822-863 | a patch goes through exactly when the result is a valid custom mailbox that keeps the catalog good |
| `Mailboxes.PatchableExactly` | internal/appsvc/services.go:822-863 | a patch is acceptable exactly when the mailbox is a custom one without a role, its name, old or new, is not blank and free beside its parent, the parent is there and no cycle arises |
| `Mailboxes.UpdateAll` | internal/appsvc/services.go:822-863 | in some order every patch is done exactly when the catalog it meets allows it, else refused; the good catalog stays good and all others are as they were |
| `Mailboxes.DestroyAll` | internal/appsvc/services.go:865-885 | every id goes exactly when it is there, custom, childless and empty at its turn, else it is refused; children go before parents, nothing else is gone or changed, the catalog stays good, and an id gets one outcome unless it is repeated |
| `Mailboxes.Undestroyable` | internal/appsvc/services.go:866-881 | refuses for the first reason that applies, and only for cause |
| `Mailboxes.UpdateMailboxes` | internal/appsvc/services.go:786-885 | every batch creates, patches and destroys exactly what the catalog allows at each turn, keeps the catalog live, parent-closed, acyclic and uniquely named, never changes or removes a system mailbox, and gives every create and update one outcome and every destroy one unless its id is repeated |
| `Mailboxes.BatchBoxes` | internal/appsvc/services.go:804-863 | field by field, every mailbox after a batch is one from before or one that was asked for, with the fields its patch names replaced and all others kept |
| `VCardText.TrimTrims` | internal/contactio/contactio.go:1437-1437 | a trimmed value has no white space at either end |
| `VCardText.TrimExact` | internal/contactio/contactio.go:1437-1437 | trimming takes away white space at the two ends and nothing else |
| `VCardText.EscapeInverse` | internal/contactio/contactio.go:1448-1452 | unescaping undoes escaping, whatever the value holds |
| `VCardText.UnescapePieces` | internal/contactio/import_vcard.go:737-752 | unescaping reads any text piece by piece: a backslash with n or N is a newline, with comma, semicolon or backslash that character, and with anything else both stay |
| `VCardText.EscapeOneLine` | internal/contactio/contactio.go:1448-1452 | an escaped value stays on its line |
| `VCardText.SplitJoined` | internal/contactio/import_vcard.go:678-681 | text made of framed lines splits into exactly those lines |
| `VCard.WriteLine` | internal/contactio/contactio.go:1436-1446 | appends the property with its trimmed, escaped value, or nothing for a blank one |
| `VCard.WriteFacts` | internal/contactio/contactio.go:422-456 | appends a line for exactly the facts that are printed, in order; `VCardContents.FactsSaid` says which those are |
| `VCard.ExportVCard` | internal/contactio/contactio.go:405-420 | writes one framed card per contact, in order; `VCardContents.ExportSays` says what its reader finds |
| `VCardParser.UnfoldLines` | internal/contactio/import_vcard.go:678-705 | the unfolding loop computes the logical lines, with folded and quoted-printable continuations |
| `VCardParser.ParseVCards` | internal/contactio/import_vcard.go:144-238 | the scanning loop computes cards and rejections, and the values of each card grouped by name |
| `VCardParser.GroupedExactly` | internal/contactio/import_vcard.go:219-219 | grouping keeps every value, in order, under its own name |
| `VCardRoundTrip.PlainHead` | internal/contactio/import_vcard.go:754-790 | a printed property head reads back as its name without parameters |
| `VCardRoundTrip.ValueBack` | internal/contactio/import_vcard.go:716-752 | a printed value reads back as it was |
| `VCardRoundTrip.LineBack` | internal/contactio/import_vcard.go:176-227 | a printed line reads back as its property, whatever its value holds |
| `VCardRoundTrip.LineSolid` | internal/contactio/import_vcard.go:678-705 | a printed line cannot be folded, continued or split |
| `VCardRoundTrip.LinesBack` | internal/contactio/import_vcard.go:678-705 | printed text unfolds into exactly the printed lines |
| `VCardRoundTrip.CardBack` | internal/contactio/import_vcard.go:176-228 | a printed card reads back as exactly its version and properties |
| `VCardRoundTrip.RoundTrip` | internal/contactio/import_vcard.go:144-238 | for any contacts, parsing what was printed gives no rejections and one card per contact, in order, with exactly the property names and trimmed values written, which `VCardContents.CardSays` gives fact by fact |
| `VCardContents.FactsSaid` | internal/contactio/contactio.go:422-456 | under each vCard name stand exactly the trimmed non-blank values of the facts it is for, in fact order: TEL phones, EMAIL current addresses, NICKNAME aliases and names other than the display name, ADR, ORG, NOTE, TITLE and URL their kinds, and nothing else |
| `VCardContents.CardSays` | internal/contactio/contactio.go:405-456 | a card says its version, the display name or else the id as FN, and under every other name the values of the facts |
| `VCardContents.ExportSays` | internal/contactio/contactio.go:405-456 | parsing any export rejects nothing and gives one such card per contact, in order |
| `VCardFolding.FoldedExport` | internal/contactio/import_vcard.go:678-705 | an export whose lines are folded any number of times, at any places after the first character that no carriage return precedes, reads back as the same cards |
| `VCardFolding.BreakExactly` | internal/contactio/import_vcard.go:678-705 | between other lines, a printed line broken at any one place reads back if and only if the place is after its first character and no carriage return precedes it |
| `VCardFolding.ReturnsRead` | internal/contactio/import_vcard.go:679-679 | lines that end in CRLF read as the same lines ended in LF |
| `VCardFolding.SoftBack` | internal/contactio/import_vcard.go:690-702 | a quoted-printable line in any number of softly broken pieces unfolds to the pieces joined |
| `VCardHeads.HeadBack` | internal/contactio/import_vcard.go:754-790 | a head written with any group, a name and known parameters in capitals and items free of separators and outer space reads back as the name and, under each parameter, its items in order; an item without a key is a type |
| `VCardHeads.LineReads` | internal/contactio/import_vcard.go:144-238 | in a healthy card a property line adds its name, parameters and value, quoted-printable values decoded where they can be; standard, X- and listed names are kept, any other spoils the card, a blank value is passed over |
| `VCardRecords.OutcomePerRecord` | internal/contactio/import_vcard.go:139-238 | for every text, as many cards and rejections come out as its logical lines have BEGIN:VCARD, counted apart from the scanner |
| `VCardRecords.FirstReason` | internal/contactio/import_vcard.go:144-238 | a damaged record is rejected for the first thing wrong with it, whatever lines follow |
| `VCardRecords.RecordsIndependent` | internal/contactio/import_vcard.go:139-143 | lines that begin with a record are read as if they stood alone, whatever came before: a damaged or unterminated record takes no other card with it |
| `VCardRecords.TextsIndependent` | internal/contactio/import_vcard.go:139-143 | after a text of whole lines without a pending soft break, the records of the next text come out as they would alone |
| `VCardRecords.PendingSwallows` | internal/contactio/import_vcard.go:678-705 | after a pending soft break, the BEGIN:VCARD line that follows becomes part of the pending line |
| `VCardRecords.PendingLoses` | internal/contactio/import_vcard.go:678-705 | a pending soft break loses a record of whatever printed records follow |
| `VCardRecords.TextIndependentExactly` | internal/contactio/import_vcard.go:139-238 | a text of whole lines leaves all records that follow it alone if and only if no soft break is pending at its end |
| `VCardRecords.SoftBreakMerges` | internal/contactio/import_vcard.go:678-705 | a card without END whose note ends in a soft break and the card after it come out as one |
| `VCardRecords.FairMet` | internal/contactio/import_vcard.go:716-752 | there are decoding and folding rules of the kind this is proved for |

## Left out

- Garbage collection, repack, verification, delete and import of the object store, and the read retry that exists for repack.
- Chunk and recipe metadata beyond what reading needs, and the manifests, sidecars and source indexes that share a Put's batch.
- StoreRequests.DigestKeptExactly: the envelope of a compound object comes with the request, and object ids come trimmed; how the envelope is built from parts and provenance is not modelled.
- ChunkStore.FilesystemStore.Put: errors of metadata reads, which end a Put like a failed chunk write.
- RecipeReader.ChunkRecipeReader.Read: after a digest mismatch later reads report the end, so verification is stated for the first terminal result.
- RecipeReader.ChunkRecipeReader.constructor: takes a stored digest; `RecipeReader.OpenBlobReader` answers for any other.
- Resolution.Service.Resolve: what candidate scoring decides is a parameter here; `EntityGraphs.Matcher.ResolveRecord` puts the two together. Entity vectors, the residual basis and the similarity reported with a decision are not modelled.
- EntityGraphs.Matcher.ResolveRecord: weights and cosines are parameters, fixed for one record; the vectors behind them and the residual basis, whose rebuild drops the memo of graphs, are not modelled.
- CompareOrder.CompareSteadyExactly: the names of a record stand under one attribute, as the extractor files them; with more, differences could cancel, and `CompareOrder.CompareSame` gives one direction.
- ObservationKeys.MistakableExactly: observations with a newline in a bound are not characterised beyond needing one hash (`Engulfed`).
- RepairGraphs.RepairOnce: the index is taken to recall entities of the ledger only.
- Scoring.ComputeIdDiff: the confidence (a sigmoid of the score) is not modelled, and scores are reals without rounding.
- Widening of validity by re-observing a claim an entity already holds: `Resolve` passes only missing claims on, so the interval join is proved for `Ledger.EntityLedger.Add` and for merges.
- Repair.Repair: candidate pairs and their scores come from a parameter here; `RepairGraphs.RepairOnce` takes them from the ledger's graphs for one round. Centroids and the entity index are updated in `EntityIndex` only.
- StateService.State.LoadState: search graphs rebuilt from centroids are external; a cache of another kind than the in-memory one, which is not persisted, is not modelled.
- Snapshot.RoundTrip: an artifact of the previous version is read (`Snapshot.PreviousRead`) but never written by the program.
- EntityIndex.Index.ApplyMerges: normalizing and judging vectors are parameters.
- Embedding.Embed: retries, pacing and the HTTP exchange are a failing or succeeding request per batch.
- BackendPool.RunKeeps: the request and response exchange with a backend, and closing the whole pool, are a process that may die at any step; which idle backends have expired is any choice.
- CircuitBreaker.Breaker.Allow: recovery as a liveness claim; a probe whose object is missing is acknowledged without recording a result.
- Worker.RunKeeps: the breaker's answers are any answers, and the JSON annotation itself is not modelled.
- Mailboxes.UpdateMailboxes: writing the new catalog back, and its order by sort order and id.
- VCard.ExportVCard: facts come in export order; sorting them is not modelled.
- VCardParser.ParseVCards: the card's subject, a hash of its grouped values, quoted-printable decoding, vendor and legacy property tables, and text that is not valid UTF-8.
- Other formats of contact import and export, IRI encoding, command line, configuration, servers, queues, metrics and SQL: plumbing or tables with only easy facts.
