/**
 The store as its callers drive it: mutable pack, index and recipe tables with a cached belief about
 the active pack, the commit batch, the write paths for blobs and the read paths back. Every method
 keeps `Valid`, which is the invariant of `CommitProtocol` on the store's tables.
 */
module ChunkStore {
  import opened Options
  import opened Sequences
  import opened Chunking
  import opened PackStore
  import opened CommitProtocol

  /** The buffered metadata of one Put. `chunks` and `objects` are its history, as in the protocol. */
  class CommitBatch {
    var index: Index
    var recipes: map<string, Recipe>
    var touchedPacks: set<nat>
    var seen: set<string>
    ghost var chunks: seq<Bytes>
    ghost var objects: map<string, seq<Bytes>>

    ghost function View(): Batch
      reads this
    {
      Batch(Phase.Filling, index, recipes, touchedPacks, seen, chunks, objects)
    }

    constructor ()
      ensures View() == EMPTY
    {
      index, recipes, touchedPacks, seen := map[], map[], {}, {};
      chunks, objects := [], map[];
    }

    /** The chunk is already stored: name it again. */
    method Reuse(hash: string, ghost chunk: Bytes)
      modifies this
      ensures View() == Reused(old(View()), hash, chunk)
    {
      seen := seen + {hash};
      chunks := chunks + [chunk];
    }

    /** The chunk was appended to a pack: buffer its index entry and remember to sync the pack. */
    method Record(hash: string, e: Entry, ghost chunk: Bytes)
      modifies this
      ensures View() == Appended(old(View()), hash, chunk, e)
    {
      index := index[hash := e];
      touchedPacks := touchedPacks + {e.packID};
      seen := seen + {hash};
      chunks := chunks + [chunk];
    }
  }

  /** How one file write went: everything written, or an error after some of the bytes. */
  datatype WriteOutcome = WriteOk | WriteError(written: nat)

  /** How an fsync pass went: it succeeds, or stops with an error after `after` of its syncs. */
  datatype SyncOutcome = SyncOk | SyncError(after: nat)

  /** How a metadata write went: applied, or an error that may have come before or after applying it. */
  datatype MetaOutcome = MetaOk | MetaError(applied: bool)
  {
    predicate Applies() {
      MetaOk? || applied
    }
  }

  class FilesystemStore {
    const codec: Codec
    var packs: Packs
    var index: Index
    var recipes: map<string, Recipe>
    var activePackKnown: bool
    var activePackID: nat
    var activePackSize: nat
    var chunkCache: map<string, Bytes>
    ghost var objects: map<string, seq<Bytes>>

    ghost function View(): State
      reads this
    {
      State(
        Disk(packs, index, recipes),
        if activePackKnown then Known(activePackID, activePackSize) else Unknown,
        map[],
        objects,
        map[])
    }

    /** The decompressed-chunk cache only holds chunks of the index, filed under their own hash. */
    ghost predicate CacheOk()
      reads this
    {
      forall h :: h in chunkCache ==> h in index && codec.hash(chunkCache[h]) == h
    }

    ghost predicate Valid()
      reads this
    {
      Sound(codec) && Inv(codec, View()) && CacheOk()
    }

    /** A batch that may be committed to this store. */
    ghost predicate Fits(cb: CommitBatch)
      reads this, cb
    {
      BatchOk(codec, Disk(packs, index, recipes), cb.View())
    }

    constructor (codec: Codec)
      requires Sound(codec)
      ensures Valid() && this.codec == codec && objects == map[]
    {
      this.codec := codec;
      packs, index, recipes, chunkCache := map[], map[], map[], map[];
      activePackKnown, activePackID, activePackSize := false, 0, 0;
      objects := map[];
    }

    // -----------------------------------------------------------------------------------------
    // The active pack
    // -----------------------------------------------------------------------------------------

    /** Lists the pack directory, in no particular order. */
    method ReadDir() returns (listing: seq<nat>)
      ensures forall k :: k in listing <==> k in packs
    {
      var todo := packs.Keys;
      listing := [];
      while todo != {}
        invariant todo <= packs.Keys
        invariant forall k :: k in listing <==> k in packs.Keys - todo
        decreases |todo|
      {
        var k :| k in todo;
        listing, todo := listing + [k], todo - {k};
      }
    }

    /** Scans a directory listing, given in any order, for the highest pack id and its size. */
    method ActivePack(listing: seq<nat>) returns (id: nat, size: nat)
      requires forall k :: k in listing <==> k in packs
      ensures IsActive(packs, id, size)
    {
      var found := false;
      id := 0;
      for i := 0 to |listing|
        invariant found == (i > 0)
        invariant found ==> id in packs
        invariant forall j :: 0 <= j < i ==> listing[j] <= id
      {
        if !found || listing[i] > id {
          id, found := listing[i], true;
        }
      }
      if !found {
        assert packs.Keys == {} by {
          assert forall k :: k in packs ==> k in listing;
        }
        return 0, 0;
      }
      size := |packs[id].bytes|;
      forall k | k in packs ensures k <= id {
        assert k in listing;
      }
    }

    method CachedActivePack() returns (id: nat, size: nat)
      requires Valid()
      modifies `activePackKnown, `activePackID, `activePackSize
      ensures Valid() && activePackKnown && id == activePackID && size == activePackSize
      ensures Locates(old(View()), Known(id, size))
    {
      if !activePackKnown {
        var listing := ReadDir();
        id, size := ActivePack(listing);
        activePackKnown, activePackID, activePackSize := true, id, size;
      }
      return activePackID, activePackSize;
    }

    /**
     Appends to the active pack, rotating a full one, without syncing. On success the store is in the
     state the protocol's append leads to and the bytes start at `offset`; a failed write leaves the
     bytes that got through and forgets the active pack.
     */
    method AppendToActivePackNoSync(data: Bytes, outcome: WriteOutcome)
      returns (ok: bool, id: nat, offset: nat)
      requires Valid()
      modifies `packs, `activePackKnown, `activePackID, `activePackSize
      ensures Valid() && ok == outcome.WriteOk?
      ensures packs == Write(old(packs), id, if ok then data else data[..Min(outcome.written, |data|)])
      ensures AppendsTo(old(packs), id)
      ensures ok ==> offset == |BytesOf(old(packs), id)|
      ensures ok ==> View().active == Known(id, offset + |data|)
      ensures !ok ==> !activePackKnown
    {
      hide Inv;
      ghost var s := View();
      var size;
      id, size := CachedActivePack();
      ghost var at := Known(id, size);
      var target := Rotate(id, size);
      id, offset := target.0, target.1;
      ok := outcome.WriteOk?;
      if ok {
        AppendKeeps(codec, s, data, at);
        packs := Write(packs, id, data);
        activePackKnown, activePackID, activePackSize := true, id, offset + |data|;
      } else {
        AppendKeeps(codec, s, data[..Min(outcome.written, |data|)], at);
        InvForget(codec, AppendAt(s, data[..Min(outcome.written, |data|)], at).0);
        packs := Write(packs, id, data[..Min(outcome.written, |data|)]);
        activePackKnown := false;
      }
    }

    // -----------------------------------------------------------------------------------------
    // Syncing
    // -----------------------------------------------------------------------------------------

    /** One file sync. */
    method SyncPack(id: nat)
      requires Valid() && id in packs
      modifies `packs
      ensures Valid() && packs == SyncedTo(old(packs), id, |old(packs)[id].bytes|)
      ensures Grows(old(packs), packs)
    {
      SyncGrows(packs, id, |packs[id].bytes|);
      InvSync(codec, View(), SyncedTo(packs, id, |packs[id].bytes|));
      packs := SyncedTo(packs, id, |packs[id].bytes|);
    }

    method SyncDirectory()
      requires Valid()
      modifies `packs
      ensures Valid() && packs == AllLinked(old(packs)) && Grows(old(packs), packs)
    {
      LinkGrows(packs);
      InvSync(codec, View(), AllLinked(packs));
      packs := AllLinked(packs);
    }

    /**
     Syncs every touched pack and then the directory; each pack keeps its bytes, and on success every
     touched pack is synced to its full length and durably named.
     */
    method SyncTouchedPacks(ids: set<nat>, outcome: SyncOutcome) returns (ok: bool)
      requires Valid()
      modifies `packs
      ensures Valid() && Grows(old(packs), packs) && View().active == old(View().active)
      ensures ok ==> forall id :: id in ids ==>
                id in packs && packs[id].linked && packs[id].synced == |packs[id].bytes|
      ensures !ok ==> ids != {} && (outcome.SyncError? || !(ids <= packs.Keys))
    {
      hide Inv;
      if ids == {} {
        return true;
      }
      var todo, count := ids, 0;
      while todo != {}
        invariant Valid() && Grows(old(packs), packs)
        invariant todo <= ids && packs.Keys == old(packs).Keys
        invariant forall id :: id in ids && id !in todo ==> id in packs && packs[id].synced == |packs[id].bytes|
        decreases |todo|
      {
        if outcome.SyncError? && outcome.after <= count {
          return false;
        }
        var id :| id in todo;
        if id !in packs {
          return false;
        }
        SyncPack(id);
        todo, count := todo - {id}, count + 1;
      }
      if outcome.SyncError? {
        return false;
      }
      SyncDirectory();
      ok := true;
    }

    // -----------------------------------------------------------------------------------------
    // Storing chunks
    // -----------------------------------------------------------------------------------------

    /** Appends a chunk neither the batch nor the index has. */
    method AppendChunk(cb: CommitBatch, chunk: Bytes, dict: string, outcome: WriteOutcome) returns (ok: bool)
      requires Valid() && Fits(cb)
      modifies `packs, `activePackKnown, `activePackID, `activePackSize, cb
      ensures Valid() && Fits(cb) && ok == outcome.WriteOk?
      ensures ok ==> cb.chunks == old(cb.chunks) + [chunk]
      ensures cb.recipes == old(cb.recipes) && cb.objects == old(cb.objects)
      ensures !ok ==> cb.View() == old(cb.View())
    {
      ghost var disk, b := View().disk, cb.View();
      var data := codec.compress(dict, chunk);
      var id, offset;
      ok, id, offset := AppendToActivePackNoSync(data, outcome);
      WriteGrows(disk.packs, id, if ok then data else data[..Min(outcome.written, |data|)]);
      BatchOkGrows(codec, disk, packs, b);
      if ok {
        ghost var e := Entry(dict, id, offset, |data|);
        WriteReads(codec, disk.packs, id, dict, chunk);
        BatchOkAppended(codec, View().disk, b, chunk, e);
        cb.Record(codec.hash(chunk), Entry(dict, id, offset, |data|), chunk);
      }
    }

    /**
     Stores one chunk into a batch, deduplicating against the batch and against the index. On success
     the batch spells one more chunk; an error changes neither the batch nor what is readable.
     */
    method StoreChunkBatched(cb: CommitBatch, chunk: Bytes, dict: string, outcome: WriteOutcome)
      returns (ok: bool, hash: string)
      requires Valid() && Fits(cb)
      modifies `packs, `activePackKnown, `activePackID, `activePackSize, cb
      ensures Valid() && Fits(cb)
      ensures hash == codec.hash(chunk)
      ensures ok ==> cb.chunks == old(cb.chunks) + [chunk]
      ensures cb.recipes == old(cb.recipes) && cb.objects == old(cb.objects)
      ensures !ok ==> cb.View() == old(cb.View()) && outcome.WriteError?
      ensures hash in old(cb.seen) || hash in index ==> ok && packs == old(packs) && cb.index == old(cb.index)
    {
      hash := codec.hash(chunk);
      if hash in cb.seen || hash in index {
        BatchOkReused(codec, View().disk, cb.View(), chunk);
        cb.Reuse(hash, chunk);
        return true, hash;
      }
      ok := AppendChunk(cb, chunk, dict, outcome);
    }

    /** Buffers the recipe for the chunks the batch has stored. */
    method SetRecipe(cb: CommitBatch, digest: string, hashes: seq<string>, contentBytes: nat)
      requires Valid() && Fits(cb)
      requires hashes == HashAll(codec, cb.chunks) && contentBytes == |Concat(cb.chunks)|
      modifies cb
      ensures Fits(cb) && cb.objects == old(cb.objects)[digest := cb.chunks] && cb.chunks == old(cb.chunks)
    {
      BatchOkRecipe(codec, View().disk, cb.View(), digest);
      cb.recipes := cb.recipes[digest := Recipe(hashes, contentBytes)];
      cb.objects := cb.objects[digest := cb.chunks];
    }

    // -----------------------------------------------------------------------------------------
    // Committing
    // -----------------------------------------------------------------------------------------

    /**
     Syncs the packs the batch appended to, then applies its metadata in one step. Only a commit whose
     syncs all succeeded changes the index, the recipes or what any object reads as, and it applies
     the whole batch or nothing; when the metadata write reports an error, it may be either.
     */
    method Commit(cb: CommitBatch, outcome: SyncOutcome, meta: MetaOutcome) returns (ok: bool)
      requires Valid() && Fits(cb)
      modifies `packs, `index, `recipes, `objects
      ensures Valid() && (ok ==> meta.MetaOk?)
      ensures ok ==> Applied(old(index), old(recipes), old(objects), cb)
      ensures !ok ==>
                || (index == old(index) && recipes == old(recipes) && objects == old(objects))
                || (meta == MetaError(true) && Applied(old(index), old(recipes), old(objects), cb))
    {
      hide Inv, BatchOk;
      ghost var disk, b := View().disk, cb.View();
      ok := SyncTouchedPacks(cb.touchedPacks, outcome);
      if ok {
        BatchOkGrows(codec, disk, packs, b);
        SyncedIsDurable(codec, View().disk, b);
        CommittedInv(codec, View(), b);
        if meta.Applies() {
          index := index + cb.index;
          recipes := recipes + cb.recipes;
          objects := objects + cb.objects;
        }
        ok := meta.MetaOk?;
      }
    }

    /** The store's tables are the given ones with the batch merged in. */
    ghost predicate Applied(index: Index, recipes: map<string, Recipe>, objects: map<string, seq<Bytes>>,
                            cb: CommitBatch)
      reads this, cb
    {
      && this.index == index + cb.index && this.recipes == recipes + cb.recipes
      && this.objects == objects + cb.objects
    }

    // -----------------------------------------------------------------------------------------
    // Storing blobs
    // -----------------------------------------------------------------------------------------

    /** Chunks in-memory content into a batch and buffers its recipe under a given digest. */
    method StoreBlobContentBatched(gear: Gear, cb: CommitBatch, digest: string, content: Bytes, dict: string,
                                   faults: nat -> WriteOutcome)
      returns (ok: bool)
      requires Valid() && Fits(cb) && cb.chunks == []
      modifies `packs, `activePackKnown, `activePackID, `activePackSize, cb
      ensures Valid() && Fits(cb)
      ensures ok ==> cb.objects == old(cb.objects)[digest := Chunks(gear, content)]
    {
      hide Inv, BatchOk;
      var chunks := ChunkContent(gear, content);
      var hashes := [];
      for i := 0 to |chunks|
        invariant Valid() && Fits(cb)
        invariant cb.chunks == chunks[..i] && hashes == HashAll(codec, cb.chunks)
        invariant cb.objects == old(cb.objects)
      {
        var hash;
        ok, hash := StoreChunkBatched(cb, chunks[i], dict, faults(i));
        if !ok {
          return;
        }
        hashes := hashes + [hash];
      }
      assert chunks[..|chunks|] == chunks;
      ChunksConcat(gear, content);
      SetRecipe(cb, digest, hashes, |content|);
      ok := true;
    }

    /**
     Streams content from a reader into a batch without holding it in memory; its digest is the hash
     of the bytes that went by.
     */
    method StoreBlobReaderBatched(gear: Gear, cb: CommitBatch, reader: Reader, dict: string,
                                  faults: nat -> WriteOutcome)
      returns (ok: bool, digest: string, size: nat)
      requires Valid() && Fits(cb) && cb.chunks == [] && reader.Valid()
      modifies `packs, `activePackKnown, `activePackID, `activePackSize, cb, reader
      ensures Valid() && Fits(cb)
      ensures ok ==>
                var content := old(Delivered(reader.script));
                && digest == codec.hash(content) && size == |content|
                && cb.objects == old(cb.objects)[digest := Chunks(gear, content)]
    {
      hide Inv, BatchOk;
      ghost var content := Delivered(reader.script);
      var buffer := new byte[2 * CHUNK_MAX];
      var used: nat, atEOF := 0, false;
      var hashes, teed := [], [];
      ghost var rest := content;
      digest, size := "", 0;
      while true
        invariant Valid() && Fits(cb) && reader.Valid() && used < 2 * CHUNK_MAX
        invariant rest == Rest(buffer[..used], atEOF, reader.script)
        invariant Progress(codec, gear, content, cb.chunks, hashes, teed, rest)
        invariant cb.objects == old(cb.objects)
        decreases |rest|
      {
        var pull;
        pull, used, atEOF := PullChunk(gear, reader, buffer, used, atEOF);
        match pull {
          case Broken =>
            return false, "", 0;
          case Exhausted =>
            ProgressDone(codec, gear, content, cb.chunks, hashes, teed);
            digest, size := codec.hash(teed), |teed|;
            SetRecipe(cb, digest, hashes, size);
            return true, digest, size;
          case Pulled(chunk) =>
            ProgressStep(codec, gear, content, cb.chunks, hashes, teed, rest);
            var hash;
            ok, hash := StoreChunkBatched(cb, chunk, dict, faults(|hashes|));
            if !ok {
              return;
            }
            hashes, teed := hashes + [hash], teed + chunk;
            rest := rest[NextCut(gear, rest)..];
        }
      }
    }

    /**
     One streamed Put: a successful one adds exactly its object, filed under the hash of its content;
     a failed one adds nothing, unless its metadata was applied before the error was reported.
     */
    method Put(gear: Gear, reader: Reader, dict: string, faults: nat -> WriteOutcome, sync: SyncOutcome,
               meta: MetaOutcome)
      returns (ok: bool, digest: string, size: nat)
      requires Valid() && reader.Valid()
      modifies `packs, `index, `recipes, `objects, `activePackKnown, `activePackID, `activePackSize, reader
      ensures Valid()
      ensures !ok ==>
                || objects == old(objects)
                || (meta == MetaError(true) &&
                    var content := old(Delivered(reader.script));
                    objects == old(objects)[codec.hash(content) := Chunks(gear, content)])
      ensures ok ==>
                var content := old(Delivered(reader.script));
                && digest == codec.hash(content) && size == |content|
                && objects == old(objects)[digest := Chunks(gear, content)]
                && ReadObject(codec, View().disk, digest) == Some(content)
    {
      hide Inv, BatchOk;
      ghost var content := Delivered(reader.script);
      var cb := new CommitBatch();
      EmptyFits(codec, View().disk);
      ok, digest, size := StoreBlobReaderBatched(gear, cb, reader, dict, faults);
      if ok {
        ok := Commit(cb, sync, meta);
      }
      if ok {
        StoredReads(codec, gear, View(), digest, content);
      }
    }

    // -----------------------------------------------------------------------------------------
    // The unbatched path: every chunk is synced and indexed on its own
    // -----------------------------------------------------------------------------------------

    /** Appends and syncs; a failed sync forgets the active pack. */
    method AppendToActivePack(chunk: Bytes, dict: string, outcome: WriteOutcome, sync: SyncOutcome)
      returns (ok: bool, e: Entry)
      requires Valid()
      modifies `packs, `activePackKnown, `activePackID, `activePackSize
      ensures Valid()
      ensures ok ==> ReadAt(codec, packs, codec.hash(chunk), e) == Some(chunk) && Durable(packs, e)
    {
      hide Inv;
      var data := codec.compress(dict, chunk);
      ghost var before := packs;
      var id, offset;
      ok, id, offset := AppendToActivePackNoSync(data, outcome);
      e := Entry(dict, id, offset, |data|);
      if !ok {
        return;
      }
      WriteReads(codec, before, id, dict, chunk);
      ghost var unsynced := packs;
      ok := SyncTouchedPacks({id}, sync);
      if !ok {
        InvForget(codec, View());
        activePackKnown := false;
        return;
      }
      PrefixAgree(unsynced[id].bytes, packs[id].bytes, offset + |data|);
      ReadAtSame(codec, unsynced, packs, codec.hash(chunk), e);
    }

    /** Stores one chunk durably unless the index has it; a chunk the index has costs no write. */
    method StoreChunk(chunk: Bytes, dict: string, outcome: WriteOutcome, sync: SyncOutcome, meta: MetaOutcome)
      returns (ok: bool, hash: string)
      requires Valid()
      modifies `packs, `index, `activePackKnown, `activePackID, `activePackSize
      ensures Valid() && hash == codec.hash(chunk)
      ensures index == old(index) ||
              (hash !in old(index) && hash in index && index == old(index)[hash := index[hash]])
      ensures ok ==> hash in index
      ensures hash in old(index) ==>
                && ok && index == old(index) && packs == old(packs) && activePackKnown == old(activePackKnown)
                && activePackID == old(activePackID) && activePackSize == old(activePackSize)
    {
      hide Inv;
      hash := codec.hash(chunk);
      if hash in index {
        return true, hash;
      }
      var e;
      ok, e := AppendToActivePack(chunk, dict, outcome, sync);
      if ok {
        InvIndexOne(codec, View(), hash, e);
        if meta.Applies() {
          index := index[hash := e];
        }
        ok := meta.MetaOk?;
      }
    }

    /** Writes the recipe of an object whose chunks are all indexed. */
    method PutRecipe(digest: string, hashes: seq<string>, contentBytes: nat, meta: MetaOutcome,
                     ghost chunks: seq<Bytes>)
      returns (ok: bool)
      requires Valid() && Indexed(index, hashes)
      requires hashes == HashAll(codec, chunks) && contentBytes == |Concat(chunks)|
      modifies `recipes, `objects
      ensures Valid() && ok == meta.MetaOk?
      ensures objects == if meta.Applies() then old(objects)[digest := chunks] else old(objects)
    {
      hide Inv;
      InvRecipeOne(codec, View(), digest, chunks);
      if meta.Applies() {
        recipes := recipes[digest := Recipe(hashes, contentBytes)];
        objects := objects[digest := chunks];
      }
      ok := meta.MetaOk?;
    }

    /**
     Chunks in-memory content, stores each chunk durably and then writes the recipe. `metas` is how the
     index writes of the chunks go and, last, the write of the recipe.
     */
    method StoreBlobContent(gear: Gear, digest: string, content: Bytes, dict: string,
                            faults: nat -> WriteOutcome, syncs: nat -> SyncOutcome, metas: nat -> MetaOutcome)
      returns (ok: bool)
      requires Valid()
      modifies `packs, `index, `recipes, `objects, `activePackKnown, `activePackID, `activePackSize
      ensures Valid()
      ensures ok ==> objects == old(objects)[digest := Chunks(gear, content)]
      ensures !ok ==>
                || objects == old(objects)
                || (metas(|Chunks(gear, content)|) == MetaError(true) &&
                    objects == old(objects)[digest := Chunks(gear, content)])
      ensures ok ==> ReadObject(codec, View().disk, digest) == Some(content)
    {
      hide Inv;
      var chunks := ChunkContent(gear, content);
      var hashes := [];
      for i := 0 to |chunks|
        invariant Valid() && objects == old(objects)
        invariant hashes == HashAll(codec, chunks[..i]) && Indexed(index, hashes)
      {
        var hash;
        ok, hash := StoreChunk(chunks[i], dict, faults(i), syncs(i), metas(i));
        if !ok {
          return;
        }
        hashes := hashes + [hash];
      }
      assert chunks[..|chunks|] == chunks;
      ChunksConcat(gear, content);
      ok := PutRecipe(digest, hashes, |content|, metas(|chunks|), chunks);
      if ok {
        StoredReads(codec, gear, View(), digest, content);
      }
    }

    // -----------------------------------------------------------------------------------------
    // Reading
    // -----------------------------------------------------------------------------------------

    /**
     Reads one chunk through the cache. `keep` is what the bounded cache retains afterwards; whatever
     it is, the answer is what the disk would give.
     */
    method FetchChunk(hash: string, keep: set<string>) returns (r: Option<Bytes>)
      requires Valid()
      modifies `chunkCache
      ensures Valid() && r == ReadChunk(codec, View().disk, hash)
    {
      if hash in chunkCache {
        r := Some(chunkCache[hash]);
        assert ReadAt(codec, packs, hash, index[hash]).Some?;
        return;
      }
      if hash !in index {
        return None;
      }
      r := ReadAt(codec, packs, hash, index[hash]);
      if r.Some? {
        chunkCache := map h | h in chunkCache && h in keep :: chunkCache[h];
        chunkCache := chunkCache[hash := r.value];
      }
    }

    /** Reassembles an object: what was stored under the digest, or nothing if nothing was. */
    method ReadBlobContent(digest: string, keep: nat -> set<string>) returns (r: Option<Bytes>)
      requires Valid()
      modifies `chunkCache
      ensures Valid()
      ensures r == if digest in objects then Some(Concat(objects[digest])) else None
    {
      hide Inv;
      ObjectReads(codec, View(), digest);
      if digest !in recipes {
        return None;
      }
      var hashes, content := recipes[digest].chunkHashes, [];
      ghost var disk := View().disk;
      ReadsOnEnds(codec, disk, hashes, []);
      for i := 0 to |hashes|
        invariant Valid() && View().disk == disk && objects == old(objects)
        invariant ReadsOn(codec, disk, hashes, i, content)
      {
        var chunk := FetchChunk(hashes[i], keep(i));
        ReadsOnStep(codec, disk, hashes, i, content);
        if chunk.None? {
          return None;
        }
        content := content + chunk.value;
      }
      ReadsOnEnds(codec, disk, hashes, content);
      r := Some(content);
    }
  }

  /** Reading a recipe is what was read of its first `i` chunks followed by the rest. */
  ghost predicate ReadsOn(codec: Codec, disk: Disk, hashes: seq<string>, i: nat, content: Bytes)
    requires i <= |hashes|
  {
    var rest := ReadChunks(codec, disk, hashes[i..]);
    ReadChunks(codec, disk, hashes) == if rest.Some? then Some(content + rest.value) else None
  }

  lemma ReadsOnStep(codec: Codec, disk: Disk, hashes: seq<string>, i: nat, content: Bytes)
    requires i < |hashes| && ReadsOn(codec, disk, hashes, i, content)
    ensures var chunk := ReadChunk(codec, disk, hashes[i]);
            if chunk.Some? then ReadsOn(codec, disk, hashes, i + 1, content + chunk.value)
            else ReadChunks(codec, disk, hashes).None?
  {
    assert hashes[i..][1..] == hashes[i + 1..];
    var chunk, rest := ReadChunk(codec, disk, hashes[i]), ReadChunks(codec, disk, hashes[i + 1..]);
    if chunk.Some? && rest.Some? {
      assert content + (chunk.value + rest.value) == (content + chunk.value) + rest.value;
    }
  }

  lemma ReadsOnEnds(codec: Codec, disk: Disk, hashes: seq<string>, content: Bytes)
    ensures ReadsOn(codec, disk, hashes, 0, [])
    ensures ReadsOn(codec, disk, hashes, |hashes|, content) ==> ReadChunks(codec, disk, hashes) == Some(content)
  {
    assert hashes[0..] == hashes;
    var all := ReadChunks(codec, disk, hashes);
    if all.Some? {
      assert [] + all.value == all.value;
    }
    assert content + [] == content;
  }

  /** One more durable entry. */
  lemma InvIndexOne(codec: Codec, s: State, hash: string, e: Entry)
    requires Inv(codec, s) && s.puts == map[]
    requires ReadAt(codec, s.disk.packs, hash, e).Some? && Durable(s.disk.packs, e)
    ensures Inv(codec, s.(disk := s.disk.(index := s.disk.index[hash := e])))
  {
    var index := s.disk.index[hash := e];
    forall d | d in s.disk.recipes ensures Indexed(index, s.disk.recipes[d].chunkHashes) {
      assert Indexed(s.disk.index, s.disk.recipes[d].chunkHashes);
    }
  }

  /** One more recipe over indexed chunks. */
  lemma InvRecipeOne(codec: Codec, s: State, digest: string, chunks: seq<Bytes>)
    requires Inv(codec, s) && s.puts == map[] && Indexed(s.disk.index, HashAll(codec, chunks))
    ensures var recipe := Recipe(HashAll(codec, chunks), |Concat(chunks)|);
            var disk := s.disk.(recipes := s.disk.recipes[digest := recipe]);
            Inv(codec, s.(disk := disk, objects := s.objects[digest := chunks]))
  {
    var recipe := Recipe(HashAll(codec, chunks), |Concat(chunks)|);
    assert Spells(codec, s.disk.recipes[digest := recipe], s.objects[digest := chunks]);
  }

  /** An object stored as the chunks of its content reads back as that content. */
  lemma StoredReads(codec: Codec, gear: Gear, s: State, digest: string, content: Bytes)
    requires Sound(codec) && Inv(codec, s)
    requires digest in s.objects && s.objects[digest] == Chunks(gear, content)
    ensures ReadObject(codec, s.disk, digest) == Some(content)
  {
    ChunksConcat(gear, content);
    ObjectReads(codec, s, digest);
  }

  /** A streaming store: chunks stored so far, their hashes, the bytes that went by, what is to come. */
  ghost predicate Progress(codec: Codec, gear: Gear, content: Bytes, chunks: seq<Bytes>, hashes: seq<string>,
                           teed: Bytes, rest: Bytes) {
    Streamed(gear, content, chunks, rest) && hashes == HashAll(codec, chunks) && teed == Concat(chunks)
  }

  lemma ProgressStep(codec: Codec, gear: Gear, content: Bytes, chunks: seq<Bytes>, hashes: seq<string>,
                     teed: Bytes, rest: Bytes)
    requires Progress(codec, gear, content, chunks, hashes, teed, rest) && rest != []
    ensures var cut := NextCut(gear, rest);
            var chunk := rest[..cut];
            && 0 < cut
            && Progress(codec, gear, content, chunks + [chunk], hashes + [codec.hash(chunk)], teed + chunk, rest[cut..])
  {
    StreamedStep(gear, content, chunks, rest);
    ConcatPush(chunks, rest[..NextCut(gear, rest)]);
  }

  lemma ProgressDone(codec: Codec, gear: Gear, content: Bytes, chunks: seq<Bytes>, hashes: seq<string>, teed: Bytes)
    requires Progress(codec, gear, content, chunks, hashes, teed, [])
    ensures chunks == Chunks(gear, content) && teed == content
  {
  }

  /** Everything that was synced in full is durable. */
  lemma SyncedIsDurable(codec: Codec, disk: Disk, b: Batch)
    requires BatchOk(codec, disk, b)
    requires forall id :: id in b.touched ==>
               id in disk.packs && disk.packs[id].linked && disk.packs[id].synced == |disk.packs[id].bytes|
    ensures AllDurable(disk.packs, b.index)
  {
    var packs := disk.packs;
    forall h | h in b.index ensures Durable(packs, b.index[h]) {
      assert ReadAt(codec, packs, h, b.index[h]).Some?;
    }
  }
}
