/**
 The streaming reader over an object's recipe. Whatever buffer sizes the caller reads with, it hands
 over the object's content in order, and it reports the end only after all of it and, when asked to
 verify, only if the content hashes to the digest.
 */
module RecipeReader {
  import opened Options
  import opened Sequences
  import opened Chunking
  import opened PackStore
  import opened CommitProtocol
  import opened ChunkStore

  datatype Status = Got | End | Mismatch | ReadError

  class ChunkRecipeReader {
    const store: FilesystemStore
    const hashes: seq<string>
    const verifyDigest: string
    var index: nat
    var pending: Bytes
    var hashed: Bytes
    var verified: bool
    ghost const chunks: seq<Bytes>
    ghost var delivered: Bytes

    /** The object's whole content. */
    ghost function Content(): Bytes { Concat(chunks) }

    ghost predicate Valid()
      reads this, store
    {
      && store.Valid()
      && hashes == HashAll(store.codec, chunks) && Indexed(store.index, hashes)
      && index <= |chunks|
      && delivered + pending == Concat(chunks[..index])
      && (verifyDigest != "" ==> hashed == Concat(chunks[..index]))
    }

    /** Opens the reader on a stored object; with an empty digest nothing is verified at the end. */
    constructor (store: FilesystemStore, digest: string, verifyDigest: string)
      requires store.Valid() && digest in store.objects
      ensures Valid() && this.store == store && this.verifyDigest == verifyDigest
      ensures Content() == Concat(store.objects[digest]) && delivered == [] && !verified
    {
      ghost var stored := store.objects[digest];
      assert digest in store.recipes;
      this.store, this.verifyDigest := store, verifyDigest;
      hashes := store.recipes[digest].chunkHashes;
      chunks := stored;
      index, pending, hashed, verified := 0, [], [], false;
      delivered := [];
      new;
      assert chunks[..0] == [];
    }

    /** Loads the next chunk into `pending`; in a valid store this cannot fail. */
    method NextChunk(keep: set<string>) returns (ok: bool)
      requires Valid() && pending == [] && index < |hashes|
      modifies this, store`chunkCache
      ensures Valid() && ok && index == old(index) + 1
      ensures delivered == old(delivered) && verified == old(verified)
      ensures pending == chunks[old(index)]
    {
      hide Inv;
      ghost var i := index;
      ChunkReads(store.codec, store.View(), chunks, i);
      var chunk := store.FetchChunk(hashes[index], keep);
      ok := chunk.Some?;
      if ok {
        NextPrefix(chunks, i);
        assert delivered + [] == delivered;
        index := index + 1;
        if verifyDigest != "" {
          hashed := hashed + chunk.value;
        }
        pending := chunk.value;
      }
    }

    /** One Read into a buffer of `size` bytes. */
    method Read(size: nat, keep: set<string>) returns (data: Bytes, status: Status)
      requires Valid()
      modifies this, store`chunkCache
      ensures Valid() && delivered == old(delivered) + data && |data| <= size
      ensures status.Got? ==> (size > 0 ==> data != []) && verified == old(verified)
      ensures status.End? || status.Mismatch? ==> delivered == Content() && data == []
      ensures !old(verified) && status.End? ==> verifyDigest == "" || store.codec.hash(Content()) == verifyDigest
      ensures status.Mismatch? ==> verifyDigest != "" && store.codec.hash(Content()) != verifyDigest
      ensures !status.ReadError?
    {
      hide Inv;
      data := [];
      while pending == []
        invariant Valid() && delivered == old(delivered) && verified == old(verified)
        decreases |hashes| - index
      {
        if index >= |hashes| {
          assert chunks[..index] == chunks;
          status := End;
          if verifyDigest != "" && !verified {
            verified := true;
            if store.codec.hash(hashed) != verifyDigest {
              status := Mismatch;
            }
          }
          return;
        }
        var ok := NextChunk(keep);
        if !ok {
          return [], ReadError;
        }
      }
      var n := Min(size, |pending|);
      data := pending[..n];
      assert delivered + pending == (delivered + pending[..n]) + pending[n..];
      pending := pending[n..];
      delivered := delivered + data;
      status := Got;
    }
  }

  /** Opens an object for reading, or reports that nothing is stored under the digest. */
  method OpenBlobReader(store: FilesystemStore, digest: string, verifyDigest: string)
    returns (reader: ChunkRecipeReader?, ok: bool)
    requires store.Valid()
    ensures ok <==> reader != null
    ensures ok <==> digest in store.objects
    ensures ok ==> ReadObject(store.codec, store.View().disk, digest) == Some(reader.Content())
    ensures !ok ==> ReadObject(store.codec, store.View().disk, digest) == None
    ensures ok ==> reader.Valid() && reader.store == store && reader.verifyDigest == verifyDigest
    ensures ok ==> fresh(reader) && reader.delivered == [] && !reader.verified
  {
    ObjectReads(store.codec, store.View(), digest);
    if digest !in store.recipes {
      return null, false;
    }
    reader := new ChunkRecipeReader(store, digest, verifyDigest);
    ok := true;
  }

  /** A chunk whose hash is indexed reads back as itself. */
  lemma ChunkReads(codec: Codec, s: State, chunks: seq<Bytes>, i: nat)
    requires Sound(codec) && Inv(codec, s)
    requires i < |chunks| && Indexed(s.disk.index, HashAll(codec, chunks))
    ensures ReadChunk(codec, s.disk, HashAll(codec, chunks)[i]) == Some(chunks[i])
  {
    var disk := s.disk;
    var h := HashAll(codec, chunks)[i];
    assert h in disk.index;
    assert ReadAt(codec, disk.packs, h, disk.index[h]).Some?;
  }

  lemma NextPrefix(chunks: seq<Bytes>, i: nat)
    requires i < |chunks|
    ensures Concat(chunks[..i + 1]) == Concat(chunks[..i]) + chunks[i]
  {
    assert chunks[..i + 1] == chunks[..i] + [chunks[i]];
    ConcatPush(chunks[..i], chunks[i]);
  }

  /** How many of the sizes are positive. */
  function Positive(sizes: seq<nat>): nat {
    if sizes == [] then 0 else (if sizes[0] > 0 then 1 else 0) + Positive(sizes[1..])
  }

  lemma {:induction false} PositivePush(sizes: seq<nat>, n: nat)
    ensures Positive(sizes + [n]) == Positive(sizes) + (if n > 0 then 1 else 0)
  {
    if sizes == [] {
      assert sizes + [n] == [n];
    } else {
      assert (sizes + [n])[1..] == sizes[1..] + [n];
      PositivePush(sizes[1..], n);
    }
  }

  /**
   Reads with any sequence of buffer sizes. What comes back is always the front of the content; each
   positive size brings at least one byte, so enough of them reach the end, where everything has been
   delivered and the digest, if asked for, has been checked.
   */
  method ReadWith(reader: ChunkRecipeReader, sizes: seq<nat>, keep: nat -> set<string>)
    returns (data: Bytes, status: Status)
    requires reader.Valid() && reader.delivered == [] && !reader.verified
    modifies reader, reader.store`chunkCache
    ensures data <= reader.Content()
    ensures status.Got? ==> |data| >= Positive(sizes)
    ensures status.End? ==>
              && data == reader.Content()
              && (reader.verifyDigest == "" || reader.store.codec.hash(data) == reader.verifyDigest)
    ensures status.Mismatch? ==>
              && data == reader.Content()
              && reader.verifyDigest != "" && reader.store.codec.hash(data) != reader.verifyDigest
    ensures !status.ReadError?
  {
    hide Inv;
    data, status := [], Got;
    for i := 0 to |sizes|
      invariant reader.Valid() && !reader.verified && status.Got?
      invariant data == reader.delivered && |data| >= Positive(sizes[..i])
    {
      var got;
      got, status := reader.Read(sizes[i], keep(i));
      data := data + got;
      if !status.Got? {
        return;
      }
      assert sizes[..i + 1] == sizes[..i] + [sizes[i]];
      PositivePush(sizes[..i], sizes[i]);
    }
    assert sizes[..|sizes|] == sizes;
    DeliveredIsPrefix(reader.delivered, reader.pending, reader.chunks, reader.index);
  }

  lemma DeliveredIsPrefix(delivered: Bytes, pending: Bytes, chunks: seq<Bytes>, index: nat)
    requires index <= |chunks| && delivered + pending == Concat(chunks[..index])
    ensures delivered <= Concat(chunks)
  {
    assert chunks == chunks[..index] + chunks[index..];
    ConcatAppend(chunks[..index], chunks[index..]);
    var tail := Concat(chunks[index..]);
    assert Concat(chunks) == delivered + (pending + tail);
  }
}
