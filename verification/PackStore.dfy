/**
 The content-addressed store on disk: append-only packs, the chunk index and the object recipes,
 and what reading a chunk or an object back from them yields.
 */
module PackStore {
  import opened Options
  import opened Sequences
  import opened Chunking

  /**
   The external primitives. `hash` is the hex content hash; `compress` and `decompress` are keyed by
   a dictionary id. Decompressing may fail on bytes that no `compress` produced.
   */
  datatype Codec = Codec(
    hash: Bytes -> string,
    compress: (string, Bytes) -> Bytes,
    decompress: (string, Bytes) -> Option<Bytes>)

  ghost predicate Sound(codec: Codec) {
    && (forall a, b :: codec.hash(a) == codec.hash(b) ==> a == b)
    && (forall dict, chunk :: codec.decompress(dict, codec.compress(dict, chunk)) == Some(chunk))
  }

  /** Such primitives exist: a hash that spells the bytes out and a compression that does nothing. */
  lemma SoundMet() returns (codec: Codec)
    ensures Sound(codec)
  {
    codec := Codec(
      (data: Bytes) => seq(|data|, i requires 0 <= i < |data| => data[i] as int as char),
      (dict: string, data: Bytes) => data,
      (dict: string, data: Bytes) => Some(data));
    forall a: Bytes, b: Bytes | codec.hash(a) == codec.hash(b) ensures a == b {
      assert |a| == |codec.hash(a)| == |b|;
      forall i | 0 <= i < |a| ensures a[i] == b[i] {
        assert codec.hash(a)[i] == codec.hash(b)[i];
      }
    }
  }

  const PACK_TARGET: nat := 256 * 1024 * 1024

  /**
   A pack file: its bytes, how many of them an fsync has made durable, and whether an fsync of the
   directory has made the file's name durable.
   */
  datatype Pack = Pack(bytes: Bytes, synced: nat, linked: bool)

  type Packs = map<nat, Pack>

  datatype Entry = Entry(dictID: string, packID: nat, offset: nat, length: nat)

  type Index = map<string, Entry>

  datatype Recipe = Recipe(chunkHashes: seq<string>, contentBytes: nat)

  datatype Disk = Disk(packs: Packs, index: Index, recipes: map<string, Recipe>)

  // -------------------------------------------------------------------------------------------
  // Reading
  // -------------------------------------------------------------------------------------------

  /** Positioned read, decompression and content verification of one chunk. */
  function ReadAt(codec: Codec, packs: Packs, hash: string, e: Entry): (r: Option<Bytes>)
    ensures r.Some? ==> codec.hash(r.value) == hash
  {
    if e.packID !in packs || |packs[e.packID].bytes| < e.offset + e.length then None
    else
      var raw := packs[e.packID].bytes[e.offset..e.offset + e.length];
      var chunk := codec.decompress(e.dictID, raw);
      if chunk.Some? && codec.hash(chunk.value) == hash then chunk else None
  }

  function ReadChunk(codec: Codec, disk: Disk, hash: string): Option<Bytes> {
    if hash in disk.index then ReadAt(codec, disk.packs, hash, disk.index[hash]) else None
  }

  /** The chunks a recipe names, in order; None as soon as one of them cannot be read. */
  function ReadChunks(codec: Codec, disk: Disk, hashes: seq<string>): Option<Bytes> {
    if hashes == [] then Some([])
    else
      var head := ReadChunk(codec, disk, hashes[0]);
      var tail := ReadChunks(codec, disk, hashes[1..]);
      if head.Some? && tail.Some? then Some(head.value + tail.value) else None
  }

  function ReadObject(codec: Codec, disk: Disk, digest: string): Option<Bytes> {
    if digest in disk.recipes then ReadChunks(codec, disk, disk.recipes[digest].chunkHashes) else None
  }

  function HashAll(codec: Codec, chunks: seq<Bytes>): (hashes: seq<string>)
    ensures |hashes| == |chunks|
    ensures forall i :: 0 <= i < |chunks| ==> hashes[i] == codec.hash(chunks[i])
  {
    seq(|chunks|, i requires 0 <= i < |chunks| => codec.hash(chunks[i]))
  }

  /** Every index entry decodes to a chunk with the hash it is filed under. */
  ghost predicate Readable(codec: Codec, packs: Packs, index: Index) {
    forall h :: h in index ==> ReadAt(codec, packs, h, index[h]).Some?
  }

  ghost predicate Indexed(index: Index, hashes: seq<string>) {
    forall i :: 0 <= i < |hashes| ==> hashes[i] in index
  }

  /**
   Whatever entries the index holds, a list of chunks whose hashes are all indexed reads back as
   exactly those chunks: the hash decides the content.
   */
  lemma {:induction false} ReadBack(codec: Codec, disk: Disk, chunks: seq<Bytes>)
    requires Sound(codec) && Readable(codec, disk.packs, disk.index)
    requires Indexed(disk.index, HashAll(codec, chunks))
    ensures ReadChunks(codec, disk, HashAll(codec, chunks)) == Some(Concat(chunks))
  {
    if chunks != [] {
      var hashes := HashAll(codec, chunks);
      assert hashes[0] in disk.index;
      assert hashes[1..] == HashAll(codec, chunks[1..]);
      forall i | 0 <= i < |chunks[1..]| ensures HashAll(codec, chunks[1..])[i] in disk.index {
        assert hashes[i + 1] in disk.index;
      }
      ReadBack(codec, disk, chunks[1..]);
      var got := ReadChunk(codec, disk, hashes[0]);
      assert codec.hash(got.value) == codec.hash(chunks[0]);
    }
  }

  // -------------------------------------------------------------------------------------------
  // Appending
  // -------------------------------------------------------------------------------------------

  /** The highest-numbered pack and its size, or (0, 0) when there is no pack. */
  ghost predicate IsActive(packs: Packs, id: nat, size: nat) {
    if packs == map[] then id == 0 && size == 0
    else id in packs && size == |packs[id].bytes| && forall k :: k in packs ==> k <= id
  }

  /** A full pack is sealed: the next append goes to a new pack. */
  function Rotate(id: nat, size: nat): (nat, nat) {
    if size >= PACK_TARGET then (id + 1, 0) else (id, size)
  }

  function BytesOf(packs: Packs, id: nat): Bytes {
    if id in packs then packs[id].bytes else []
  }

  /** Appending to a pack file, creating it if need be; nothing is synced. */
  function Write(packs: Packs, id: nat, data: Bytes): Packs {
    packs[id := if id in packs then packs[id].(bytes := packs[id].bytes + data) else Pack(data, 0, false)]
  }

  /** Where the next bytes belong: in the highest pack while it is below the target size, else in the one after it. */
  ghost predicate AppendsTo(packs: Packs, id: nat) {
    && (packs == map[] ==> id == 0)
    && forall h :: h in packs && (forall k :: k in packs ==> k <= h) ==>
                     id == if |packs[h].bytes| < PACK_TARGET then h else h + 1
  }

  /** The offset recorded for an append is where the bytes really land. */
  lemma RotateOffset(packs: Packs, id: nat, size: nat)
    requires IsActive(packs, id, size)
    ensures var (to, offset) := Rotate(id, size);
            && offset == |BytesOf(packs, to)|
            && AppendsTo(packs, to)
            && forall k :: k in packs ==> k <= to
  {
  }

  /** A pack at its target size is sealed, and a pack is begun only when the highest one is sealed. */
  lemma AppendSeals(packs: Packs, id: nat, size: nat, data: Bytes)
    requires IsActive(packs, id, size)
    ensures var after := Write(packs, Rotate(id, size).0, data);
            && (forall k :: k in packs && |packs[k].bytes| >= PACK_TARGET ==> k in after && after[k] == packs[k])
            && (forall k, h :: k in after && k !in packs && h in packs && (forall j :: j in packs ==> j <= h) ==>
                  |packs[h].bytes| >= PACK_TARGET)
  {
  }

  lemma WriteActive(packs: Packs, id: nat, data: Bytes)
    requires forall k :: k in packs ==> k <= id
    ensures IsActive(Write(packs, id, data), id, |BytesOf(packs, id)| + |data|)
    ensures BytesOf(Write(packs, id, data), id) == BytesOf(packs, id) + data
  {
    assert id in Write(packs, id, data);
  }

  /** `later` still has everything `earlier` has: no byte, sync or name is lost. */
  ghost predicate Grows(earlier: Packs, later: Packs) {
    forall id :: id in earlier ==>
      && id in later
      && earlier[id].bytes <= later[id].bytes
      && earlier[id].synced <= later[id].synced
      && (earlier[id].linked ==> later[id].linked)
  }

  ghost predicate WellSynced(packs: Packs) {
    forall id :: id in packs ==> packs[id].synced <= |packs[id].bytes|
  }

  /** An entry whose bytes lie in a synced prefix of a durably named pack. */
  ghost predicate Durable(packs: Packs, e: Entry) {
    e.packID in packs && packs[e.packID].linked && e.offset + e.length <= packs[e.packID].synced
  }

  ghost predicate AllDurable(packs: Packs, index: Index) {
    forall h :: h in index ==> Durable(packs, index[h])
  }

  /** A chunk read depends only on the bytes its entry points at. */
  lemma ReadAtSame(codec: Codec, p: Packs, q: Packs, hash: string, e: Entry)
    requires e.packID in p && e.packID in q
    requires e.offset + e.length <= |p[e.packID].bytes| && e.offset + e.length <= |q[e.packID].bytes|
    requires p[e.packID].bytes[..e.offset + e.length] == q[e.packID].bytes[..e.offset + e.length]
    ensures ReadAt(codec, p, hash, e) == ReadAt(codec, q, hash, e)
  {
    var a, b := p[e.packID].bytes, q[e.packID].bytes;
    assert a[e.offset..e.offset + e.length] == a[..e.offset + e.length][e.offset..];
    assert b[e.offset..e.offset + e.length] == b[..e.offset + e.length][e.offset..];
  }

  lemma GrowsReadable(codec: Codec, p: Packs, q: Packs, index: Index)
    requires Grows(p, q) && Readable(codec, p, index)
    ensures Readable(codec, q, index)
  {
    forall h | h in index ensures ReadAt(codec, q, h, index[h]).Some? {
      var e := index[h];
      assert ReadAt(codec, p, h, e).Some?;
      PrefixAgree(p[e.packID].bytes, q[e.packID].bytes, e.offset + e.length);
      ReadAtSame(codec, p, q, h, e);
    }
  }

  lemma PrefixAgree(a: Bytes, b: Bytes, n: nat)
    requires a <= b && n <= |a|
    ensures a[..n] == b[..n]
  {
  }

  lemma GrowsDurable(p: Packs, q: Packs, index: Index)
    requires Grows(p, q) && AllDurable(p, index)
    ensures AllDurable(q, index)
  {
    forall h | h in index ensures Durable(q, index[h]) {
      assert Durable(p, index[h]);
    }
  }

  /** The bytes just appended decode to the chunk that was compressed. */
  lemma WriteReads(codec: Codec, packs: Packs, id: nat, dict: string, chunk: Bytes)
    requires Sound(codec)
    ensures var data := codec.compress(dict, chunk);
            var e := Entry(dict, id, |BytesOf(packs, id)|, |data|);
            ReadAt(codec, Write(packs, id, data), codec.hash(chunk), e) == Some(chunk)
  {
    var data := codec.compress(dict, chunk);
    var before := BytesOf(packs, id);
    assert Write(packs, id, data)[id].bytes == before + data;
    assert (before + data)[|before|..|before| + |data|] == data;
  }

  lemma WriteGrows(packs: Packs, id: nat, data: Bytes)
    ensures Grows(packs, Write(packs, id, data))
    ensures WellSynced(packs) ==> WellSynced(Write(packs, id, data))
  {
  }
}
