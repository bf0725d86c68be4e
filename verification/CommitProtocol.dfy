/**
 Concurrent batched Puts over one store, as atomic steps under every interleaving, with torn writes,
 failed syncs and crashes. The main results are `RunSafe` (every durable index entry points into the
 synced prefix of a durably named pack, every durable recipe names only durable entries, in every
 reachable state) and `ReadsBack` (every committed object reads back exactly, crashes included).
 */
module CommitProtocol {
  import opened Options
  import opened Sequences
  import opened Chunking
  import opened PackStore

  /** The in-memory belief about the active pack. */
  datatype Active = Unknown | Known(id: nat, size: nat)

  /** Filling the batch; syncing its packs; packs and directory durable. */
  datatype Phase = Filling | Syncing(done: set<nat>) | Ready

  /**
   One Put in flight. `index` and `recipes` are the buffered metadata writes, `touched` the packs it
   appended to, `seen` its own dedup set and `chunks` the content streamed so far. `objects` records,
   for each buffered recipe, the chunks it stands for.
   */
  datatype Batch = Batch(
    phase: Phase,
    index: Index,
    recipes: map<string, Recipe>,
    touched: set<nat>,
    seen: set<string>,
    chunks: seq<Bytes>,
    objects: map<string, seq<Bytes>>)

  const EMPTY: Batch := Batch(Filling, map[], map[], {}, {}, [], map[])

  /**
   What a caller asks to store: a file's content, filed under its own hash, or the envelope of a
   compound object, filed under the hash of its (trimmed) object id behind a fixed prefix.
   */
  datatype Request =
    | PutFile(content: Bytes)
    | PutCompound(id: Bytes, envelope: Bytes)
  {
    function Content(): Bytes {
      if PutFile? then content else envelope
    }

    predicate Accepted() {
      PutCompound? ==> id != []
    }
  }

  /** The bytes of "compound:". */
  const COMPOUND: Bytes := [99, 111, 109, 112, 111, 117, 110, 100, 58]

  function DigestOf(codec: Codec, request: Request): string {
    codec.hash(if request.PutFile? then request.content else COMPOUND + request.id)
  }

  /** Only a compound Put asks whether its digest has a recipe: `Present` when it had one, else `Clear`. */
  datatype Guard = Unchecked | Clear | Present

  datatype Ask = Ask(request: Request, guard: Guard)

  /**
   `asks` holds the request behind each Put. `objects` is a history variable: what each committed
   recipe is supposed to spell.
   */
  datatype State = State(
    disk: Disk,
    active: Active,
    puts: map<nat, Batch>,
    objects: map<string, seq<Bytes>>,
    asks: map<nat, Ask>)

  const INIT: State := State(Disk(map[], map[], map[]), Unknown, map[], map[], map[])

  datatype Step =
    | Begin(t: nat, request: Request)
    | Check(t: nat)
    | ReuseSeen(t: nat, chunk: Bytes)
    | ReuseIndexed(t: nat, chunk: Bytes)
    | Append(t: nat, chunk: Bytes, dict: string, at: Active)
    | AppendTorn(t: nat, data: Bytes, at: Active)
    | SetRecipe(t: nat)
    | StartSync(t: nat)
    | SyncPack(t: nat, id: nat)
    | SyncPackFails(t: nat, id: nat, reached: nat)
    | SyncDir(t: nat)
    | Commit(t: nat)
    | Abort(t: nat)
    | Forget
    | Crash(survivors: Packs)

  // -------------------------------------------------------------------------------------------
  // What each step does
  // -------------------------------------------------------------------------------------------

  /** The active pack comes from memory if known, otherwise from a scan of the directory. */
  ghost predicate Locates(s: State, at: Active) {
    at.Known? && (if s.active.Known? then at == s.active else IsActive(s.disk.packs, at.id, at.size))
  }

  /** What a crash may leave: packs with an unsynced name may vanish, all others keep their synced bytes. */
  ghost predicate Survives(packs: Packs, after: Packs) {
    && after.Keys <= packs.Keys
    && forall id :: id in packs ==>
         && (packs[id].linked ==> id in after)
         && (id in after ==>
               && after[id].bytes <= packs[id].bytes && packs[id].synced <= |after[id].bytes|
               && after[id].synced == packs[id].synced && after[id].linked == packs[id].linked)
  }

  function MergedRecipe(codec: Codec, b: Batch): Recipe {
    Recipe(HashAll(codec, b.chunks), |Concat(b.chunks)|)
  }

  ghost predicate IsFilling(s: State, t: nat) {
    t in s.puts && t in s.asks && s.puts[t].phase.Filling?
  }

  /** A Put whose content is being stored: no guard, or the guard found no recipe. */
  ghost predicate IsStoring(s: State, t: nat) {
    IsFilling(s, t) && s.asks[t].guard.Clear? && s.puts[t].recipes == map[]
  }

  /** The next chunk continues the requested content, wherever it is cut. */
  ghost predicate Takes(s: State, t: nat, chunk: Bytes) {
    IsStoring(s, t) && Concat(s.puts[t].chunks) + chunk <= s.asks[t].request.Content()
  }

  /** All that the Put has to write is buffered: its recipe, or nothing when the object was there. */
  ghost predicate IsBuffered(s: State, t: nat) {
    IsFilling(s, t) && (s.asks[t].guard.Present? || s.puts[t].recipes != map[])
  }

  ghost predicate Enabled(codec: Codec, s: State, step: Step) {
    match step
    case Begin(t, request) => t !in s.puts && request.Accepted()
    case Check(t) => IsFilling(s, t) && s.asks[t].guard.Unchecked?
    case ReuseSeen(t, chunk) => Takes(s, t, chunk) && codec.hash(chunk) in s.puts[t].seen
    case ReuseIndexed(t, chunk) => Takes(s, t, chunk) && codec.hash(chunk) in s.disk.index
    case Append(t, chunk, dict, at) =>
      && Takes(s, t, chunk) && Locates(s, at)
      && codec.hash(chunk) !in s.puts[t].seen && codec.hash(chunk) !in s.disk.index
    case AppendTorn(t, data, at) => IsStoring(s, t) && Locates(s, at)
    case SetRecipe(t) => IsStoring(s, t) && Concat(s.puts[t].chunks) == s.asks[t].request.Content()
    case StartSync(t) => IsBuffered(s, t) && s.puts[t].touched != {}
    case SyncPack(t, id) =>
      t in s.puts && s.puts[t].phase.Syncing? && id in s.puts[t].touched && id in s.disk.packs
    case SyncPackFails(t, id, reached) =>
      && t in s.puts && s.puts[t].phase.Syncing? && id in s.disk.packs
      && s.disk.packs[id].synced <= reached <= |s.disk.packs[id].bytes|
    case SyncDir(t) => t in s.puts && s.puts[t].phase == Syncing(s.puts[t].touched)
    case Commit(t) => t in s.puts && (s.puts[t].phase.Ready? || (IsBuffered(s, t) && s.puts[t].touched == {}))
    case Abort(t) => t in s.puts
    case Forget => true
    case Crash(survivors) => Survives(s.disk.packs, survivors)
  }

  function WithBatch(s: State, t: nat, b: Batch): State {
    s.(puts := s.puts[t := b])
  }

  function Reused(b: Batch, hash: string, chunk: Bytes): Batch {
    b.(seen := b.seen + {hash}, chunks := b.chunks + [chunk])
  }

  function Appended(b: Batch, hash: string, chunk: Bytes, e: Entry): Batch {
    b.(index := b.index[hash := e], touched := b.touched + {e.packID},
       seen := b.seen + {hash}, chunks := b.chunks + [chunk])
  }

  function WithRecipe(codec: Codec, b: Batch, digest: string): Batch {
    b.(recipes := b.recipes[digest := MergedRecipe(codec, b)], objects := b.objects[digest := b.chunks])
  }

  function SyncedTo(packs: Packs, id: nat, reached: nat): Packs
    requires id in packs
  {
    packs[id := packs[id].(synced := reached)]
  }

  function AllLinked(packs: Packs): Packs {
    map id | id in packs :: packs[id].(linked := true)
  }

  /** An append of `data`: the packs, the new belief and the place it was written to. */
  function AppendAt(s: State, data: Bytes, at: Active): (State, nat, nat)
    requires at.Known?
  {
    var (id, offset) := Rotate(at.id, at.size);
    (s.(disk := s.disk.(packs := Write(s.disk.packs, id, data)), active := Known(id, offset + |data|)), id, offset)
  }

  /** A state with the batch's metadata applied. */
  function Committed(s: State, b: Batch): State {
    s.(disk := Disk(s.disk.packs, s.disk.index + b.index, s.disk.recipes + b.recipes), objects := s.objects + b.objects)
  }

  function Asked(s: State, t: nat, request: Request, guard: Guard): State {
    s.(asks := s.asks[t := Ask(request, guard)])
  }

  ghost function Apply(codec: Codec, s: State, step: Step): State
    requires Enabled(codec, s, step)
  {
    match step
    case Begin(t, request) => Asked(WithBatch(s, t, EMPTY), t, request, if request.PutFile? then Clear else Unchecked)
    case Check(t) =>
      var request := s.asks[t].request;
      Asked(s, t, request, if DigestOf(codec, request) in s.disk.recipes then Present else Clear)
    case ReuseSeen(t, chunk) => WithBatch(s, t, Reused(s.puts[t], codec.hash(chunk), chunk))
    case ReuseIndexed(t, chunk) => WithBatch(s, t, Reused(s.puts[t], codec.hash(chunk), chunk))
    case Append(t, chunk, dict, at) =>
      var data := codec.compress(dict, chunk);
      var (s', id, offset) := AppendAt(s, data, at);
      WithBatch(s', t, Appended(s.puts[t], codec.hash(chunk), chunk, Entry(dict, id, offset, |data|)))
    case AppendTorn(t, data, at) =>
      var (s', _, _) := AppendAt(s, data, at);
      s'.(active := Unknown, puts := s.puts - {t})
    case SetRecipe(t) => WithBatch(s, t, WithRecipe(codec, s.puts[t], DigestOf(codec, s.asks[t].request)))
    case StartSync(t) => WithBatch(s, t, s.puts[t].(phase := Syncing({})))
    case SyncPack(t, id) =>
      var s' := s.(disk := s.disk.(packs := SyncedTo(s.disk.packs, id, |s.disk.packs[id].bytes|)));
      WithBatch(s', t, s.puts[t].(phase := Syncing(s.puts[t].phase.done + {id})))
    case SyncPackFails(t, id, reached) =>
      s.(disk := s.disk.(packs := SyncedTo(s.disk.packs, id, reached)), puts := s.puts - {t})
    case SyncDir(t) =>
      WithBatch(s.(disk := s.disk.(packs := AllLinked(s.disk.packs))), t, s.puts[t].(phase := Ready))
    case Commit(t) =>
      Committed(s, s.puts[t]).(puts := s.puts - {t})
    case Abort(t) => s.(puts := s.puts - {t})
    case Forget => s.(active := Unknown)
    case Crash(survivors) => State(s.disk.(packs := survivors), Unknown, map[], s.objects, map[])
  }

  // -------------------------------------------------------------------------------------------
  // The invariant
  // -------------------------------------------------------------------------------------------

  /** The durable half: what a reader of the disk relies on. */
  ghost predicate DiskOk(codec: Codec, disk: Disk) {
    && WellSynced(disk.packs)
    && Readable(codec, disk.packs, disk.index)
    && AllDurable(disk.packs, disk.index)
    && forall d :: d in disk.recipes ==> Indexed(disk.index, disk.recipes[d].chunkHashes)
  }

  ghost predicate ActiveOk(s: State) {
    s.active.Known? ==> IsActive(s.disk.packs, s.active.id, s.active.size)
  }

  /** Recipes spell the objects they are recorded for. */
  ghost predicate Spells(codec: Codec, recipes: map<string, Recipe>, objects: map<string, seq<Bytes>>) {
    && recipes.Keys == objects.Keys
    && forall d :: d in recipes ==> recipes[d] == Recipe(HashAll(codec, objects[d]), |Concat(objects[d])|)
  }

  /** Everything a batch names is either durable already or in the batch itself. */
  ghost predicate Covered(disk: Disk, b: Batch) {
    && (forall h :: h in b.seen ==> h in disk.index || h in b.index)
    && (forall d, h :: d in b.recipes && h in b.recipes[d].chunkHashes ==> h in b.seen)
  }

  /** The buffered entries lie in packs the batch will sync; those it has synced are durable. */
  ghost predicate Pinned(packs: Packs, b: Batch) {
    && (forall h :: h in b.index ==> b.index[h].packID in b.touched)
    && (b.phase.Syncing? ==> forall h :: h in b.index && b.index[h].packID in b.phase.done ==>
          Flushed(packs, b.index[h]))
    && (b.phase.Ready? ==> AllDurable(packs, b.index))
  }

  ghost predicate Flushed(packs: Packs, e: Entry) {
    e.packID in packs && e.offset + e.length <= packs[e.packID].synced
  }

  ghost predicate BatchOk(codec: Codec, disk: Disk, b: Batch) {
    && Readable(codec, disk.packs, b.index)
    && Pinned(disk.packs, b)
    && Covered(disk, b)
    && Spells(codec, b.recipes, b.objects)
    && (forall i :: 0 <= i < |b.chunks| ==> codec.hash(b.chunks[i]) in b.seen)
  }

  ghost predicate Inv(codec: Codec, s: State) {
    && DiskOk(codec, s.disk)
    && ActiveOk(s)
    && Spells(codec, s.disk.recipes, s.objects)
    && forall t :: t in s.puts ==> BatchOk(codec, s.disk, s.puts[t])
  }

  // -------------------------------------------------------------------------------------------
  // Steps that only touch packs
  // -------------------------------------------------------------------------------------------

  lemma DiskOkGrows(codec: Codec, disk: Disk, packs: Packs)
    requires DiskOk(codec, disk) && Grows(disk.packs, packs) && WellSynced(packs)
    ensures DiskOk(codec, disk.(packs := packs))
  {
    GrowsReadable(codec, disk.packs, packs, disk.index);
    GrowsDurable(disk.packs, packs, disk.index);
  }

  lemma BatchOkGrows(codec: Codec, disk: Disk, packs: Packs, b: Batch)
    requires BatchOk(codec, disk, b) && Grows(disk.packs, packs)
    ensures BatchOk(codec, disk.(packs := packs), b)
  {
    GrowsReadable(codec, disk.packs, packs, b.index);
    if b.phase.Ready? {
      GrowsDurable(disk.packs, packs, b.index);
    }
  }

  /** Pack growth keeps the whole invariant, whatever becomes of the active-pack belief. */
  lemma InvGrows(codec: Codec, s: State, packs: Packs, active: Active)
    requires Inv(codec, s) && Grows(s.disk.packs, packs) && WellSynced(packs)
    requires active.Known? ==> IsActive(packs, active.id, active.size)
    ensures Inv(codec, s.(disk := s.disk.(packs := packs), active := active))
  {
    DiskOkGrows(codec, s.disk, packs);
    forall t | t in s.puts ensures BatchOk(codec, s.disk.(packs := packs), s.puts[t]) {
      BatchOkGrows(codec, s.disk, packs, s.puts[t]);
    }
  }

  lemma InvReplace(codec: Codec, s: State, t: nat, b: Batch)
    requires Inv(codec, s) && BatchOk(codec, s.disk, b)
    ensures Inv(codec, WithBatch(s, t, b))
  {
  }

  lemma EmptyFits(codec: Codec, disk: Disk)
    ensures BatchOk(codec, disk, EMPTY)
  {
  }

  lemma InvForget(codec: Codec, s: State)
    requires Inv(codec, s)
    ensures Inv(codec, s.(active := Unknown))
  {
  }

  lemma InvDrop(codec: Codec, s: State, t: nat)
    requires Inv(codec, s)
    ensures Inv(codec, s.(puts := s.puts - {t}))
  {
  }

  lemma ActiveOf(codec: Codec, s: State, at: Active)
    requires Inv(codec, s) && Locates(s, at)
    ensures IsActive(s.disk.packs, at.id, at.size)
  {
  }

  /** An append lands where it is recorded to, and the new belief about the active pack is right. */
  lemma AppendKeeps(codec: Codec, s: State, data: Bytes, at: Active)
    requires Inv(codec, s) && Locates(s, at)
    ensures var (s', id, offset) := AppendAt(s, data, at);
            && Inv(codec, s')
            && offset == |BytesOf(s.disk.packs, id)| && AppendsTo(s.disk.packs, id)
  {
    ActiveOf(codec, s, at);
    RotateOffset(s.disk.packs, at.id, at.size);
    var (id, offset) := Rotate(at.id, at.size);
    WriteActive(s.disk.packs, id, data);
    WriteGrows(s.disk.packs, id, data);
    InvGrows(codec, s, Write(s.disk.packs, id, data), Known(id, offset + |data|));
  }

  lemma SyncGrows(packs: Packs, id: nat, reached: nat)
    requires WellSynced(packs) && id in packs && packs[id].synced <= reached <= |packs[id].bytes|
    ensures Grows(packs, SyncedTo(packs, id, reached)) && WellSynced(SyncedTo(packs, id, reached))
  {
  }

  lemma LinkGrows(packs: Packs)
    requires WellSynced(packs)
    ensures Grows(packs, AllLinked(packs)) && WellSynced(AllLinked(packs))
  {
  }

  /** Neither a sync nor a directory sync moves the active pack. */
  lemma SameActive(p: Packs, q: Packs, id: nat, size: nat)
    requires IsActive(p, id, size) && p.Keys == q.Keys
    requires forall k :: k in p ==> p[k].bytes == q[k].bytes
    ensures IsActive(q, id, size)
  {
    if p == map[] {
      assert q.Keys == {};
      assert q == map[];
    } else {
      assert id in q.Keys;
    }
  }

  // -------------------------------------------------------------------------------------------
  // Each step keeps the invariant
  // -------------------------------------------------------------------------------------------

  /** Who asked for what is no concern of the disk. */
  lemma KeepsAsked(codec: Codec, s: State, t: nat, request: Request, guard: Guard)
    requires Inv(codec, s)
    ensures Inv(codec, Asked(s, t, request, guard))
  {
  }

  lemma KeepsBegin(codec: Codec, s: State, t: nat, request: Request)
    requires Inv(codec, s) && Enabled(codec, s, Begin(t, request))
    ensures Inv(codec, Apply(codec, s, Begin(t, request)))
  {
    EmptyFits(codec, s.disk);
    InvReplace(codec, s, t, EMPTY);
    KeepsAsked(codec, WithBatch(s, t, EMPTY), t, request, if request.PutFile? then Clear else Unchecked);
  }

  lemma KeepsCheck(codec: Codec, s: State, t: nat)
    requires Inv(codec, s) && Enabled(codec, s, Check(t))
    ensures Inv(codec, Apply(codec, s, Check(t)))
  {
    var request := s.asks[t].request;
    KeepsAsked(codec, s, t, request, if DigestOf(codec, request) in s.disk.recipes then Present else Clear);
  }

  lemma KeepsStartSync(codec: Codec, s: State, t: nat)
    requires Inv(codec, s) && IsFilling(s, t)
    ensures Inv(codec, WithBatch(s, t, s.puts[t].(phase := Syncing({}))))
  {
    InvReplace(codec, s, t, s.puts[t].(phase := Syncing({})));
  }

  lemma BatchOkReused(codec: Codec, disk: Disk, b: Batch, chunk: Bytes)
    requires BatchOk(codec, disk, b)
    requires codec.hash(chunk) in b.seen || codec.hash(chunk) in disk.index
    ensures BatchOk(codec, disk, Reused(b, codec.hash(chunk), chunk))
  {
    var b' := Reused(b, codec.hash(chunk), chunk);
    assert Pinned(disk.packs, b');
    assert Covered(disk, b');
  }

  lemma KeepsReuse(codec: Codec, s: State, t: nat, chunk: Bytes)
    requires Inv(codec, s) && IsFilling(s, t)
    requires codec.hash(chunk) in s.puts[t].seen || codec.hash(chunk) in s.disk.index
    ensures Inv(codec, WithBatch(s, t, Reused(s.puts[t], codec.hash(chunk), chunk)))
  {
    BatchOkReused(codec, s.disk, s.puts[t], chunk);
    InvReplace(codec, s, t, Reused(s.puts[t], codec.hash(chunk), chunk));
  }

  lemma KeepsAppend(codec: Codec, s: State, t: nat, chunk: Bytes, dict: string, at: Active)
    requires Sound(codec) && Inv(codec, s) && Enabled(codec, s, Append(t, chunk, dict, at))
    ensures Inv(codec, Apply(codec, s, Append(t, chunk, dict, at)))
  {
    var data := codec.compress(dict, chunk);
    var (s', id, offset) := AppendAt(s, data, at);
    AppendKeeps(codec, s, data, at);
    WriteReads(codec, s.disk.packs, id, dict, chunk);
    var b := s.puts[t];
    assert b == s'.puts[t];
    var e := Entry(dict, id, offset, |data|);
    BatchOkAppended(codec, s'.disk, b, chunk, e);
    InvReplace(codec, s', t, Appended(b, codec.hash(chunk), chunk, e));
  }

  lemma BatchOkAppended(codec: Codec, disk: Disk, b: Batch, chunk: Bytes, e: Entry)
    requires BatchOk(codec, disk, b) && b.phase.Filling?
    requires ReadAt(codec, disk.packs, codec.hash(chunk), e).Some?
    ensures BatchOk(codec, disk, Appended(b, codec.hash(chunk), chunk, e))
  {
    var b' := Appended(b, codec.hash(chunk), chunk, e);
    assert Readable(codec, disk.packs, b'.index);
    assert Pinned(disk.packs, b');
    assert Covered(disk, b');
  }

  lemma BatchOkRecipe(codec: Codec, disk: Disk, b: Batch, digest: string)
    requires BatchOk(codec, disk, b)
    ensures BatchOk(codec, disk, WithRecipe(codec, b, digest))
  {
    var b' := WithRecipe(codec, b, digest);
    assert Pinned(disk.packs, b');
    forall d, h | d in b'.recipes && h in b'.recipes[d].chunkHashes ensures h in b'.seen {
      if d == digest {
        var i :| 0 <= i < |b.chunks| && HashAll(codec, b.chunks)[i] == h;
      }
    }
  }

  lemma KeepsRecipe(codec: Codec, s: State, t: nat, digest: string)
    requires Inv(codec, s) && IsFilling(s, t)
    ensures Inv(codec, WithBatch(s, t, WithRecipe(codec, s.puts[t], digest)))
  {
    BatchOkRecipe(codec, s.disk, s.puts[t], digest);
    InvReplace(codec, s, t, WithRecipe(codec, s.puts[t], digest));
  }

  /** Syncing packs or the directory: everything grows, the active pack stays. */
  lemma InvSync(codec: Codec, s: State, packs: Packs)
    requires Inv(codec, s) && Grows(s.disk.packs, packs) && WellSynced(packs)
    requires packs.Keys == s.disk.packs.Keys && forall k :: k in packs ==> packs[k].bytes == s.disk.packs[k].bytes
    ensures Inv(codec, s.(disk := s.disk.(packs := packs)))
  {
    if s.active.Known? {
      SameActive(s.disk.packs, packs, s.active.id, s.active.size);
    }
    InvGrows(codec, s, packs, s.active);
  }

  /** A sync covers everything the batch had appended to that pack. */
  lemma BatchOkSynced(codec: Codec, disk: Disk, b: Batch, id: nat)
    requires BatchOk(codec, disk, b) && b.phase.Syncing? && WellSynced(disk.packs)
    requires id in disk.packs && disk.packs[id].synced == |disk.packs[id].bytes|
    ensures BatchOk(codec, disk, b.(phase := Syncing(b.phase.done + {id})))
  {
    forall h | h in b.index && b.index[h].packID == id ensures Flushed(disk.packs, b.index[h]) {
      assert ReadAt(codec, disk.packs, h, b.index[h]).Some?;
    }
    assert Pinned(disk.packs, b.(phase := Syncing(b.phase.done + {id})));
  }

  lemma KeepsSyncPack(codec: Codec, s: State, t: nat, id: nat)
    requires Inv(codec, s) && Enabled(codec, s, SyncPack(t, id))
    ensures Inv(codec, Apply(codec, s, SyncPack(t, id)))
  {
    var packs := SyncedTo(s.disk.packs, id, |s.disk.packs[id].bytes|);
    SyncGrows(s.disk.packs, id, |s.disk.packs[id].bytes|);
    InvSync(codec, s, packs);
    var s' := s.(disk := s.disk.(packs := packs));
    BatchOkSynced(codec, s'.disk, s'.puts[t], id);
    InvReplace(codec, s', t, s.puts[t].(phase := Syncing(s.puts[t].phase.done + {id})));
  }

  /** Once all its packs are synced, a sync of the directory makes the whole batch durable. */
  lemma BatchOkReady(codec: Codec, disk: Disk, b: Batch)
    requires BatchOk(codec, disk, b) && b.phase == Syncing(b.touched)
    requires forall id :: id in disk.packs ==> disk.packs[id].linked
    ensures BatchOk(codec, disk, b.(phase := Ready))
  {
    forall h | h in b.index ensures Durable(disk.packs, b.index[h]) {
      assert Flushed(disk.packs, b.index[h]);
    }
  }

  lemma KeepsSyncDir(codec: Codec, s: State, t: nat)
    requires Inv(codec, s) && Enabled(codec, s, SyncDir(t))
    ensures Inv(codec, Apply(codec, s, SyncDir(t)))
  {
    LinkGrows(s.disk.packs);
    InvSync(codec, s, AllLinked(s.disk.packs));
    var s' := s.(disk := s.disk.(packs := AllLinked(s.disk.packs)));
    BatchOkReady(codec, s'.disk, s'.puts[t]);
    InvReplace(codec, s', t, s.puts[t].(phase := Ready));
  }

  /** The ordering rule: a batch commits only when every entry it adds is already durable. */
  lemma CommitDurable(codec: Codec, s: State, t: nat)
    requires Inv(codec, s) && Enabled(codec, s, Commit(t))
    ensures AllDurable(s.disk.packs, s.puts[t].index)
  {
  }

  lemma CommitDiskOk(codec: Codec, disk: Disk, b: Batch)
    requires DiskOk(codec, disk) && BatchOk(codec, disk, b) && AllDurable(disk.packs, b.index)
    ensures DiskOk(codec, Disk(disk.packs, disk.index + b.index, disk.recipes + b.recipes))
  {
    var index, recipes := disk.index + b.index, disk.recipes + b.recipes;
    forall h | h in index ensures ReadAt(codec, disk.packs, h, index[h]).Some? && Durable(disk.packs, index[h]) {
      assert h in b.index || h in disk.index;
    }
    forall d | d in recipes ensures Indexed(index, recipes[d].chunkHashes) {
      if d in b.recipes {
        forall i | 0 <= i < |recipes[d].chunkHashes| ensures recipes[d].chunkHashes[i] in index {
          assert recipes[d].chunkHashes[i] in b.seen;
        }
      } else {
        assert Indexed(disk.index, disk.recipes[d].chunkHashes);
      }
    }
  }

  /** Another Put's commit only adds entries, so a batch in flight stays covered. */
  lemma BatchOkIndexGrows(codec: Codec, disk: Disk, index: Index, recipes: map<string, Recipe>, b: Batch)
    requires BatchOk(codec, disk, b) && disk.index.Keys <= index.Keys
    ensures BatchOk(codec, Disk(disk.packs, index, recipes), b)
  {
    forall h | h in b.seen ensures h in index || h in b.index {
      assert h in disk.index.Keys || h in b.index;
    }
  }

  lemma CommittedInv(codec: Codec, s: State, b: Batch)
    requires Inv(codec, s) && BatchOk(codec, s.disk, b) && AllDurable(s.disk.packs, b.index)
    ensures Inv(codec, Committed(s, b))
  {
    CommitDiskOk(codec, s.disk, b);
    var s' := Committed(s, b);
    forall u | u in s'.puts ensures BatchOk(codec, s'.disk, s'.puts[u]) {
      BatchOkIndexGrows(codec, s.disk, s'.disk.index, s'.disk.recipes, s.puts[u]);
    }
    SpellsMerge(codec, s.disk.recipes, s.objects, b.recipes, b.objects);
  }

  lemma KeepsCommit(codec: Codec, s: State, t: nat)
    requires Inv(codec, s) && Enabled(codec, s, Commit(t))
    ensures Inv(codec, Apply(codec, s, Commit(t)))
  {
    CommitDurable(codec, s, t);
    CommittedInv(codec, s, s.puts[t]);
    InvDrop(codec, Committed(s, s.puts[t]), t);
  }

  lemma SpellsMerge(codec: Codec, r: map<string, Recipe>, o: map<string, seq<Bytes>>,
                    r': map<string, Recipe>, o': map<string, seq<Bytes>>)
    requires Spells(codec, r, o) && Spells(codec, r', o')
    ensures Spells(codec, r + r', o + o')
  {
    assert (r + r').Keys == r.Keys + r'.Keys;
    assert (o + o').Keys == o.Keys + o'.Keys;
    forall d | d in r + r' ensures (r + r')[d] == Recipe(HashAll(codec, (o + o')[d]), |Concat((o + o')[d])|) {
      assert d in r' <==> d in o';
    }
  }

  /** Whatever a crash cuts away, no durable entry loses a byte. */
  lemma DurableSurvives(codec: Codec, packs: Packs, survivors: Packs, hash: string, e: Entry)
    requires WellSynced(packs) && Survives(packs, survivors) && Durable(packs, e)
    ensures Durable(survivors, e)
    ensures ReadAt(codec, survivors, hash, e) == ReadAt(codec, packs, hash, e)
  {
    PrefixAgree(survivors[e.packID].bytes, packs[e.packID].bytes, e.offset + e.length);
    ReadAtSame(codec, packs, survivors, hash, e);
  }

  lemma KeepsCrash(codec: Codec, s: State, survivors: Packs)
    requires Inv(codec, s) && Survives(s.disk.packs, survivors)
    ensures Inv(codec, Apply(codec, s, Crash(survivors)))
  {
    forall h | h in s.disk.index
      ensures ReadAt(codec, survivors, h, s.disk.index[h]).Some? && Durable(survivors, s.disk.index[h])
    {
      DurableSurvives(codec, s.disk.packs, survivors, h, s.disk.index[h]);
    }
    forall id | id in survivors ensures survivors[id].synced <= |survivors[id].bytes| {
      assert id in s.disk.packs.Keys;
    }
    assert DiskOk(codec, s.disk.(packs := survivors));
  }

  lemma KeepsTorn(codec: Codec, s: State, t: nat, data: Bytes, at: Active)
    requires Inv(codec, s) && Enabled(codec, s, AppendTorn(t, data, at))
    ensures Inv(codec, Apply(codec, s, AppendTorn(t, data, at)))
  {
    AppendKeeps(codec, s, data, at);
    var (s', _, _) := AppendAt(s, data, at);
    InvDrop(codec, s', t);
  }

  lemma KeepsSyncFails(codec: Codec, s: State, t: nat, id: nat, reached: nat)
    requires Inv(codec, s) && Enabled(codec, s, SyncPackFails(t, id, reached))
    ensures Inv(codec, Apply(codec, s, SyncPackFails(t, id, reached)))
  {
    var packs := SyncedTo(s.disk.packs, id, reached);
    SyncGrows(s.disk.packs, id, reached);
    InvSync(codec, s, packs);
    InvDrop(codec, s.(disk := s.disk.(packs := packs)), t);
  }

  lemma KeepsStep(codec: Codec, s: State, step: Step)
    requires Sound(codec) && Inv(codec, s) && Enabled(codec, s, step)
    ensures Inv(codec, Apply(codec, s, step))
  {
    hide Inv;
    match step
    case Begin(t, request) => KeepsBegin(codec, s, t, request);
    case Check(t) => KeepsCheck(codec, s, t);
    case ReuseSeen(t, chunk) => KeepsReuse(codec, s, t, chunk);
    case ReuseIndexed(t, chunk) => KeepsReuse(codec, s, t, chunk);
    case Append(t, chunk, dict, at) => KeepsAppend(codec, s, t, chunk, dict, at);
    case AppendTorn(t, data, at) => KeepsTorn(codec, s, t, data, at);
    case SetRecipe(t) => KeepsRecipe(codec, s, t, DigestOf(codec, s.asks[t].request));
    case StartSync(t) => KeepsStartSync(codec, s, t);
    case SyncPack(t, id) => KeepsSyncPack(codec, s, t, id);
    case SyncPackFails(t, id, reached) => KeepsSyncFails(codec, s, t, id, reached);
    case SyncDir(t) => KeepsSyncDir(codec, s, t);
    case Commit(t) => KeepsCommit(codec, s, t);
    case Abort(t) => InvDrop(codec, s, t);
    case Forget => InvForget(codec, s);
    case Crash(survivors) => KeepsCrash(codec, s, survivors);
  }

  // -------------------------------------------------------------------------------------------
  // Whole runs
  // -------------------------------------------------------------------------------------------

  ghost predicate IsRun(codec: Codec, run: seq<State>, steps: seq<Step>) {
    && |run| == |steps| + 1
    && run[0] == INIT
    && forall i :: 0 <= i < |steps| ==> Enabled(codec, run[i], steps[i]) && run[i + 1] == Apply(codec, run[i], steps[i])
  }

  /** Crash safety: the invariant holds after every step of every interleaving. */
  lemma {:induction false} RunSafe(codec: Codec, run: seq<State>, steps: seq<Step>, i: nat)
    requires Sound(codec) && IsRun(codec, run, steps) && i < |run|
    ensures Inv(codec, run[i])
    decreases i
  {
    if i > 0 {
      RunSafe(codec, run, steps, i - 1);
      KeepsStep(codec, run[i - 1], steps[i - 1]);
    }
  }

  /** No step but a crash touches the bytes of a pack that has reached its target size. */
  lemma SealedStays(codec: Codec, s: State, step: Step, id: nat)
    requires Inv(codec, s) && Enabled(codec, s, step) && !step.Crash?
    requires id in s.disk.packs && |s.disk.packs[id].bytes| >= PACK_TARGET
    ensures var after := Apply(codec, s, step).disk.packs; id in after && after[id].bytes == s.disk.packs[id].bytes
  {
    hide Inv;
    match step
    case Append(t, chunk, dict, at) =>
      ActiveOf(codec, s, at);
      AppendSeals(s.disk.packs, at.id, at.size, codec.compress(dict, chunk));
    case AppendTorn(t, data, at) =>
      ActiveOf(codec, s, at);
      AppendSeals(s.disk.packs, at.id, at.size, data);
    case _ =>
  }

  /** In every run without crashes, a sealed pack stays as it is to the end. */
  lemma {:induction false} SealedForever(codec: Codec, run: seq<State>, steps: seq<Step>, i: nat, j: nat, id: nat)
    requires Sound(codec) && IsRun(codec, run, steps) && i <= j < |run| && forall k :: i <= k < j ==> !steps[k].Crash?
    requires id in run[i].disk.packs && |run[i].disk.packs[id].bytes| >= PACK_TARGET
    ensures id in run[j].disk.packs && run[j].disk.packs[id].bytes == run[i].disk.packs[id].bytes
  {
    hide Inv, Enabled, Apply;
    if i < j {
      SealedForever(codec, run, steps, i, j - 1, id);
      RunSafe(codec, run, steps, j - 1);
      SealedStays(codec, run[j - 1], steps[j - 1], id);
    }
  }

  /** In a state that meets the invariant, every object reads as what was stored under its digest. */
  lemma ObjectReads(codec: Codec, s: State, digest: string)
    requires Sound(codec) && Inv(codec, s)
    ensures ReadObject(codec, s.disk, digest) == if digest in s.objects then Some(Concat(s.objects[digest])) else None
  {
    if digest in s.objects {
      assert digest in s.disk.recipes;
      ReadBack(codec, s.disk, s.objects[digest]);
    }
  }

  /** Every committed object reads back as exactly the chunks it was stored from. */
  lemma ReadsBack(codec: Codec, run: seq<State>, steps: seq<Step>, i: nat, digest: string)
    requires Sound(codec) && IsRun(codec, run, steps) && i < |run|
    requires digest in run[i].objects
    ensures ReadObject(codec, run[i].disk, digest) == Some(Concat(run[i].objects[digest]))
  {
    RunSafe(codec, run, steps, i);
    ObjectReads(codec, run[i], digest);
  }
}
