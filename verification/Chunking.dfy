/**
 Content-defined chunking: the whole-buffer splitter `ChunkContent`, the streaming splitter
 `StreamChunks`, and the proof that the second refines the first for every way a reader may
 fragment its input.
 */
module Chunking {
  import opened Sequences

  newtype byte = x: int | 0 <= x < 256

  type Bytes = seq<byte>

  /**
   A rolling hash with its two boundary tests: `strict` below the average chunk size, `loose` above
   it. Every result of this module holds for every such hash; `FastCdc` gives the one in use.
   */
  datatype Gear = Gear(roll: (nat, byte) -> nat, strict: nat -> bool, loose: nat -> bool)

  const CHUNK_MIN: nat := 2 * 1024
  const CHUNK_AVG: nat := 8 * 1024
  const CHUNK_MAX: nat := 64 * 1024

  function Min(a: nat, b: nat): nat { if a <= b then a else b }

  // -------------------------------------------------------------------------------------------
  // Choosing one cut
  // -------------------------------------------------------------------------------------------

  /** The first position in `[i, n)` whose rolled hash clears its mask, or `n`. */
  function Scan(gear: Gear, data: Bytes, i: nat, normal: nat, n: nat, hash: nat): (cut: nat)
    requires i <= n <= |data|
    ensures i <= cut <= n
    decreases n - i
  {
    if i == n then n
    else
      var h := gear.roll(hash, data[i]);
      if (if i < normal then gear.strict(h) else gear.loose(h)) then i
      else Scan(gear, data, i + 1, normal, n, h)
  }

  /** Where the next chunk of `data` ends. */
  function NextCut(gear: Gear, data: Bytes): (cut: nat)
    ensures cut <= |data| && cut <= CHUNK_MAX
    ensures data != [] ==> cut > 0
    ensures CHUNK_MIN < |data| ==> CHUNK_MIN <= cut
    ensures cut < |data| ==> CHUNK_MIN <= cut
  {
    if |data| <= CHUNK_MIN then |data|
    else
      var n := Min(|data|, CHUNK_MAX);
      Scan(gear, data, CHUNK_MIN, Min(CHUNK_AVG, n), n, 0)
  }

  /** The hash after rolling some bytes in, from zero. */
  function Rolled(gear: Gear, bytes: Bytes): nat {
    if bytes == [] then 0 else gear.roll(Rolled(gear, bytes[..|bytes| - 1]), bytes[|bytes| - 1])
  }

  /** The hash of the bytes from CHUNK_MIN up to and with position `i` passes the test for that position. */
  predicate Boundary(gear: Gear, data: Bytes, i: nat)
    requires CHUNK_MIN <= i < |data|
  {
    var hash := Rolled(gear, data[CHUNK_MIN..i + 1]);
    if i < CHUNK_AVG then gear.strict(hash) else gear.loose(hash)
  }

  /**
   A chunk ends at the first boundary, at the end of the data or at CHUNK_MAX, whichever comes first;
   nothing shorter than CHUNK_MIN is cut off.
   */
  ghost predicate IsCut(gear: Gear, data: Bytes, cut: nat) {
    if |data| <= CHUNK_MIN then cut == |data|
    else
      && CHUNK_MIN <= cut <= |data| && cut <= CHUNK_MAX
      && (forall i :: CHUNK_MIN <= i < cut ==> !Boundary(gear, data, i))
      && (cut == |data| || cut == CHUNK_MAX || Boundary(gear, data, cut))
  }

  lemma RolledMore(gear: Gear, data: Bytes, i: nat)
    requires CHUNK_MIN <= i < |data|
    ensures Rolled(gear, data[CHUNK_MIN..i + 1]) == gear.roll(Rolled(gear, data[CHUNK_MIN..i]), data[i])
  {
    var bytes := data[CHUNK_MIN..i + 1];
    assert bytes[..|bytes| - 1] == data[CHUNK_MIN..i] && bytes[|bytes| - 1] == data[i];
  }

  lemma {:induction false} ScanFinds(gear: Gear, data: Bytes, i: nat, normal: nat, n: nat, hash: nat)
    requires CHUNK_MIN <= i <= n <= |data| && normal == Min(CHUNK_AVG, n)
    requires hash == Rolled(gear, data[CHUNK_MIN..i])
    ensures var cut := Scan(gear, data, i, normal, n, hash);
            && (forall k :: i <= k < cut ==> !Boundary(gear, data, k))
            && (cut < n ==> Boundary(gear, data, cut))
    decreases n - i
  {
    if i < n {
      RolledMore(gear, data, i);
      var h := gear.roll(hash, data[i]);
      if !(if i < normal then gear.strict(h) else gear.loose(h)) {
        ScanFinds(gear, data, i + 1, normal, n, h);
      }
    }
  }

  /** The cut is the first boundary, and there is no other such place. */
  lemma CutExact(gear: Gear, data: Bytes, cut: nat)
    ensures IsCut(gear, data, cut) <==> cut == NextCut(gear, data)
  {
    hide Scan, Rolled;
    if |data| > CHUNK_MIN {
      var n := Min(|data|, CHUNK_MAX);
      assert data[CHUNK_MIN..CHUNK_MIN] == [];
      NothingRolled(gear);
      ScanFinds(gear, data, CHUNK_MIN, Min(CHUNK_AVG, n), n, 0);
    }
  }

  lemma NothingRolled(gear: Gear)
    ensures Rolled(gear, []) == 0
  {
  }

  /** The two scanning loops: one mask below the average size, a looser one above it. */
  method NextChunkCut(gear: Gear, data: Bytes) returns (cut: nat)
    ensures cut == NextCut(gear, data) && cut <= |data| && IsCut(gear, data, cut)
  {
    CutExact(gear, data, NextCut(gear, data));
    if |data| <= CHUNK_MIN {
      return |data|;
    }
    var n := Min(|data|, CHUNK_MAX);
    var normal := Min(CHUNK_AVG, n);
    var hash := 0;
    var i := CHUNK_MIN;
    while i < normal
      invariant CHUNK_MIN <= i <= normal
      invariant NextCut(gear, data) == Scan(gear, data, i, normal, n, hash)
    {
      hash := gear.roll(hash, data[i]);
      if gear.strict(hash) {
        return i;
      }
      i := i + 1;
    }
    while i < n
      invariant normal <= i <= n
      invariant NextCut(gear, data) == Scan(gear, data, i, normal, n, hash)
    {
      hash := gear.roll(hash, data[i]);
      if gear.loose(hash) {
        return i;
      }
      i := i + 1;
    }
    return n;
  }

  /** A scan looks only at the bytes below its upper limit. */
  lemma {:induction false} ScanLocal(gear: Gear, a: Bytes, b: Bytes, i: nat, normal: nat, n: nat, hash: nat)
    requires i <= n <= |a| && n <= |b|
    requires a[..n] == b[..n]
    ensures Scan(gear, a, i, normal, n, hash) == Scan(gear, b, i, normal, n, hash)
    decreases n - i
  {
    if i < n {
      assert a[i] == a[..n][i] == b[..n][i] == b[i];
      ScanLocal(gear, a, b, i + 1, normal, n, gear.roll(hash, a[i]));
    }
  }

  /** A cut is decided by the first CHUNK_MAX bytes alone. */
  lemma CutLocal(gear: Gear, a: Bytes, b: Bytes)
    requires CHUNK_MAX <= |a| && CHUNK_MAX <= |b|
    requires a[..CHUNK_MAX] == b[..CHUNK_MAX]
    ensures NextCut(gear, a) == NextCut(gear, b)
  {
    ScanLocal(gear, a, b, CHUNK_MIN, CHUNK_AVG, CHUNK_MAX, 0);
  }

  // -------------------------------------------------------------------------------------------
  // Whole-buffer chunking
  // -------------------------------------------------------------------------------------------

  function Chunks(gear: Gear, data: Bytes): (chunks: seq<Bytes>)
    decreases |data|
  {
    if data == [] then []
    else
      var cut := NextCut(gear, data);
      [data[..cut]] + Chunks(gear, data[cut..])
  }

  /** The byte offset at which the k-th part starts. */
  function Start(parts: seq<Bytes>, k: nat): nat
    requires k <= |parts|
  {
    |Concat(parts[..k])|
  }

  method ChunkContent(gear: Gear, content: Bytes) returns (chunks: seq<Bytes>)
    ensures chunks == Chunks(gear, content)
  {
    chunks := [];
    var data := content;
    while data != []
      invariant chunks + Chunks(gear, data) == Chunks(gear, content)
      decreases |data|
    {
      var cut := NextChunkCut(gear, data);
      chunks := chunks + [data[..cut]];
      data := data[cut..];
    }
  }

  /** Splitting loses nothing and duplicates nothing. */
  lemma {:induction false} ChunksConcat(gear: Gear, data: Bytes)
    ensures Concat(Chunks(gear, data)) == data
    decreases |data|
  {
    if data != [] {
      var cut := NextCut(gear, data);
      ChunksConcat(gear, data[cut..]);
      assert data == data[..cut] + data[cut..];
      assert Chunks(gear, data)[1..] == Chunks(gear, data[cut..]);
    }
  }

  /** Every chunk is non-empty and at most CHUNK_MAX long; all but the last reach CHUNK_MIN. */
  lemma {:induction false} ChunkSizes(gear: Gear, data: Bytes, k: nat)
    requires k < |Chunks(gear, data)|
    ensures 0 < |Chunks(gear, data)[k]| <= CHUNK_MAX
    ensures k + 1 < |Chunks(gear, data)| ==> CHUNK_MIN <= |Chunks(gear, data)[k]|
    decreases |data|
  {
    var cut := NextCut(gear, data);
    if k > 0 {
      ChunkSizes(gear, data[cut..], k - 1);
    } else if 1 < |Chunks(gear, data)| {
      assert data[cut..] != [];
    }
  }

  /** Contents that agree on CHUNK_MAX bytes share their first chunk. */
  lemma SharedFirstChunk(gear: Gear, a: Bytes, b: Bytes, q: nat)
    requires CHUNK_MAX <= q && Agree(a, b, q)
    ensures NextCut(gear, a) == NextCut(gear, b)
    ensures a[..NextCut(gear, a)] == b[..NextCut(gear, a)]
    ensures Agree(a[NextCut(gear, a)..], b[NextCut(gear, a)..], q - NextCut(gear, a))
  {
    assert a[..CHUNK_MAX] == b[..CHUNK_MAX];
    CutLocal(gear, a, b);
  }

  ghost predicate Agree(a: Bytes, b: Bytes, q: int) {
    0 <= q <= |a| && q <= |b| && forall i :: 0 <= i < q ==> a[i] == b[i]
  }

  /** Dropping the first part moves every later start back by its length. */
  lemma StartTail(parts: seq<Bytes>, k: nat)
    requires 0 < k <= |parts|
    ensures Start(parts, k) == |parts[0]| + Start(parts[1..], k - 1)
  {
    assert parts[..k][1..] == parts[1..][..k - 1];
  }

  lemma EqualPrefixes(x: seq<Bytes>, y: seq<Bytes>, k: nat)
    requires k < |x| && 0 < |y| && x[0] == y[0]
    requires k <= |y[1..]| && x[1..][..k] == y[1..][..k]
    ensures x[..k + 1] == y[..k + 1]
  {
    assert x[..k + 1] == [x[0]] + x[1..][..k];
    assert y[..k + 1] == [y[0]] + y[1..][..k];
  }

  lemma ChunksStep(gear: Gear, data: Bytes)
    requires data != []
    ensures var chunks := Chunks(gear, data);
            && chunks != [] && chunks[0] == data[..NextCut(gear, data)]
            && chunks[1..] == Chunks(gear, data[NextCut(gear, data)..])
  {
  }

  /**
   Two contents that agree on their first `p + CHUNK_MAX` bytes have the same chunks as far as every
   chunk that starts at or before `p`.
   */
  lemma {:induction false} SharedPrefixSharesChunks(gear: Gear, a: Bytes, b: Bytes, p: nat, k: nat)
    requires Agree(a, b, p + CHUNK_MAX)
    requires k < |Chunks(gear, a)| && Start(Chunks(gear, a), k) <= p
    ensures k < |Chunks(gear, b)|
    ensures Chunks(gear, a)[..k + 1] == Chunks(gear, b)[..k + 1]
    decreases k
  {
    SharedFirstChunk(gear, a, b, p + CHUNK_MAX);
    var cut := NextCut(gear, a);
    ChunksStep(gear, a);
    ChunksStep(gear, b);
    if k > 0 {
      StartTail(Chunks(gear, a), k);
      SharedPrefixSharesChunks(gear, a[cut..], b[cut..], p - cut, k - 1);
    }
    EqualPrefixes(Chunks(gear, a), Chunks(gear, b), k);
  }

  // -------------------------------------------------------------------------------------------
  // Streaming
  // -------------------------------------------------------------------------------------------

  /** One `Read`: the bytes it returned, and whether it also reported the end or an error. */
  datatype ReadStatus = More | EOF | Failed
  datatype ReadEvent = ReadEvent(bytes: Bytes, status: ReadStatus)

  /** A reader that plays back any finite script of reads and reports EOF after the last. */
  class Reader {
    var script: seq<ReadEvent>

    ghost predicate Valid()
      reads this
    {
      forall i :: 0 <= i < |script| ==> |script[i].bytes| <= CHUNK_MAX
    }

    constructor (events: seq<ReadEvent>)
      requires forall i :: 0 <= i < |events| ==> |events[i].bytes| <= CHUNK_MAX
      ensures Valid() && script == events
    {
      script := events;
    }

    method Read() returns (event: ReadEvent)
      requires Valid()
      modifies this
      ensures Valid() && |event.bytes| <= CHUNK_MAX
      ensures old(script) == [] ==> event == ReadEvent([], EOF) && script == []
      ensures old(script) != [] ==> event == old(script)[0] && script == old(script)[1..]
    {
      if script == [] {
        return ReadEvent([], EOF);
      }
      event := script[0];
      script := script[1..];
    }
  }

  /** Everything a script delivers up to and including its first EOF or error. */
  ghost function Delivered(script: seq<ReadEvent>): Bytes {
    if script == [] then []
    else if script[0].status.More? then script[0].bytes + Delivered(script[1..])
    else script[0].bytes
  }

  ghost predicate EndsCleanly(script: seq<ReadEvent>) {
    script == [] || script[0].status.EOF? || (script[0].status.More? && EndsCleanly(script[1..]))
  }

  datatype StreamResult = Done | ReadFailed | Refused

  /** What is still to be consumed by a streaming run. */
  ghost function Rest(held: Bytes, atEOF: bool, script: seq<ReadEvent>): Bytes {
    held + (if atEOF then [] else Delivered(script))
  }

  /** One read appended to the buffer behind the `used` valid bytes. */
  method ReadInto(reader: Reader, buffer: array<byte>, used0: nat) returns (used: nat, status: ReadStatus)
    requires reader.Valid() && used0 + CHUNK_MAX <= buffer.Length
    modifies reader, buffer
    ensures reader.Valid() && used0 <= used <= used0 + CHUNK_MAX
    ensures Rest(buffer[..used], !status.More?, reader.script) == old(Rest(buffer[..used0], false, reader.script))
    ensures status.More? ==> |reader.script| < old(|reader.script|)
    ensures status.More? ==> EndsCleanly(reader.script) == old(EndsCleanly(reader.script))
    ensures !status.More? ==> status.EOF? == old(EndsCleanly(reader.script))
  {
    ghost var held, before := buffer[..used0], reader.script;
    var event := reader.Read();
    forall i | 0 <= i < |event.bytes| {
      buffer[used0 + i] := event.bytes[i];
    }
    used, status := used0 + |event.bytes|, event.status;
    assert buffer[..used] == held + event.bytes;
    assert Delivered(before) == event.bytes + (if status.More? then Delivered(reader.script) else []);
  }

  /** Tops the buffer up to CHUNK_MAX bytes or to the end of the input; it never overflows. */
  method Fill(reader: Reader, buffer: array<byte>, used0: nat, atEOF0: bool)
    returns (used: nat, atEOF: bool, failed: bool)
    requires reader.Valid()
    requires buffer.Length == 2 * CHUNK_MAX && used0 < 2 * CHUNK_MAX
    modifies reader, buffer
    ensures reader.Valid() && used < 2 * CHUNK_MAX
    ensures Rest(buffer[..used], atEOF || failed, reader.script) == old(Rest(buffer[..used0], atEOF0, reader.script))
    ensures !failed ==> atEOF || CHUNK_MAX <= used
    ensures atEOF0 ==> atEOF && !failed
    ensures !atEOF0 ==> old(EndsCleanly(reader.script)) == (!failed && (atEOF || EndsCleanly(reader.script)))
  {
    used, atEOF, failed := used0, atEOF0, false;
    while used < CHUNK_MAX && !atEOF
      invariant reader.Valid() && used < 2 * CHUNK_MAX
      invariant Rest(buffer[..used], atEOF, reader.script) == old(Rest(buffer[..used0], atEOF0, reader.script))
      invariant atEOF0 ==> atEOF
      invariant !atEOF0 ==> old(EndsCleanly(reader.script)) == (atEOF || EndsCleanly(reader.script))
      decreases !atEOF, |reader.script|
    {
      var status;
      used, status := ReadInto(reader, buffer, used);
      if status.EOF? {
        atEOF := true;
      } else if status.Failed? {
        failed := true;
        return;
      }
    }
  }

  /** Shifts the unconsumed bytes to the front of the buffer. */
  method Shift(buffer: array<byte>, cut: nat, used: nat)
    requires cut <= used <= buffer.Length
    modifies buffer
    ensures buffer[..used - cut] == old(buffer[cut..used])
  {
    var i := 0;
    while i < used - cut
      invariant 0 <= i <= used - cut
      invariant forall j :: 0 <= j < i ==> buffer[j] == old(buffer[cut + j])
      invariant forall j :: cut + i <= j < used ==> buffer[j] == old(buffer[j])
    {
      buffer[i] := buffer[cut + i];
      i := i + 1;
    }
  }

  /** Where a streaming run stands: `chunks` handed over, `rest` still to come. */
  ghost predicate Streamed(gear: Gear, content: Bytes, chunks: seq<Bytes>, rest: Bytes) {
    && Concat(chunks) + rest == content
    && chunks + Chunks(gear, rest) == Chunks(gear, content)
  }

  /** Cutting what is buffered is cutting everything that is left. */
  lemma CutOfHeld(gear: Gear, held: Bytes, rest: Bytes, atEOF: bool)
    requires held <= rest
    requires if atEOF then held == rest else CHUNK_MAX <= |held|
    ensures NextCut(gear, held) == NextCut(gear, rest)
  {
    if !atEOF {
      assert held[..CHUNK_MAX] == rest[..CHUNK_MAX];
      CutLocal(gear, held, rest);
    }
  }

  lemma StreamedStep(gear: Gear, content: Bytes, chunks: seq<Bytes>, rest: Bytes)
    requires Streamed(gear, content, chunks, rest) && rest != []
    ensures var cut := NextCut(gear, rest);
            && 0 < cut <= |rest|
            && Streamed(gear, content, chunks + [rest[..cut]], rest[cut..])
            && chunks < Chunks(gear, content) && Chunks(gear, content)[|chunks|] == rest[..cut]
            && |Concat(chunks + [rest[..cut]])| == |Concat(chunks)| + cut
  {
    var cut := NextCut(gear, rest);
    var chunk, tail := rest[..cut], Chunks(gear, rest[cut..]);
    ConcatPush(chunks, chunk);
    MoveSlice(Concat(chunks), rest, cut);
    MoveOne(chunks, chunk, tail);
  }

  ghost predicate AllAccepted(accept: Bytes -> bool, chunks: seq<Bytes>) {
    forall i :: 0 <= i < |chunks| ==> accept(chunks[i])
  }

  lemma RestAfterCut(held: Bytes, cut: nat, atEOF: bool, script: seq<ReadEvent>)
    requires cut <= |held|
    ensures Rest(held, atEOF, script)[..cut] == held[..cut]
    ensures Rest(held, atEOF, script)[cut..] == Rest(held[cut..], atEOF, script)
  {
  }

  /** Takes the next chunk of what is left off the front of the buffer. */
  method TakeChunk(gear: Gear, buffer: array<byte>, used0: nat, atEOF: bool, ghost script: seq<ReadEvent>)
    returns (chunk: Bytes, used: nat)
    requires 0 < used0 <= buffer.Length && (atEOF || CHUNK_MAX <= used0)
    modifies buffer
    ensures var rest := old(Rest(buffer[..used0], atEOF, script));
            && rest != []
            && chunk == rest[..NextCut(gear, rest)]
            && used <= used0
            && Rest(buffer[..used], atEOF, script) == rest[NextCut(gear, rest)..]
  {
    ghost var held := buffer[..used0];
    ghost var rest := Rest(held, atEOF, script);
    var cut := NextChunkCut(gear, buffer[..used0]);
    CutOfHeld(gear, held, rest, atEOF);
    RestAfterCut(held, cut, atEOF, script);
    chunk := buffer[..cut];
    assert chunk == held[..cut];
    Shift(buffer, cut, used0);
    used := used0 - cut;
  }

  datatype Pull = Pulled(chunk: Bytes) | Exhausted | Broken

  /** One round of the streaming loop: top up, then take the next chunk of everything left. */
  method PullChunk(gear: Gear, reader: Reader, buffer: array<byte>, used0: nat, atEOF0: bool)
    returns (pull: Pull, used: nat, atEOF: bool)
    requires reader.Valid() && buffer.Length == 2 * CHUNK_MAX && used0 < 2 * CHUNK_MAX
    modifies reader, buffer
    ensures reader.Valid() && used < 2 * CHUNK_MAX
    ensures pull.Exhausted? ==> old(Rest(buffer[..used0], atEOF0, reader.script)) == []
    ensures pull.Pulled? ==>
              var rest := old(Rest(buffer[..used0], atEOF0, reader.script));
              && rest != []
              && pull.chunk == rest[..NextCut(gear, rest)]
              && Rest(buffer[..used], atEOF, reader.script) == rest[NextCut(gear, rest)..]
    ensures old(atEOF0 || EndsCleanly(reader.script)) == (!pull.Broken? && (atEOF || EndsCleanly(reader.script)))
    ensures pull.Exhausted? ==> atEOF
  {
    var failed;
    used, atEOF, failed := Fill(reader, buffer, used0, atEOF0);
    if failed {
      pull := Broken;
    } else if used == 0 {
      pull := Exhausted;
    } else {
      var chunk;
      chunk, used := TakeChunk(gear, buffer, used, atEOF, reader.script);
      pull := Pulled(chunk);
    }
  }

  /**
   Splits what the reader delivers, handing each chunk to `accept` and stopping at the first chunk
   it refuses. Whatever the fragmentation, the chunks handed over are a prefix of the whole-buffer
   chunks of the delivered bytes; on success they are exactly those chunks, and `total` their size.
   */
  method StreamChunks(gear: Gear, reader: Reader, accept: Bytes -> bool)
    returns (chunks: seq<Bytes>, total: nat, result: StreamResult)
    requires reader.Valid()
    modifies reader
    ensures total == |Concat(chunks)|
    ensures chunks <= Chunks(gear, old(Delivered(reader.script)))
    ensures result.Done? ==> chunks == Chunks(gear, old(Delivered(reader.script)))
    ensures result.Refused? ==>
              var all := Chunks(gear, old(Delivered(reader.script)));
              |chunks| < |all| && !accept(all[|chunks|])
    ensures result.Done? ==> old(EndsCleanly(reader.script))
    ensures result.ReadFailed? ==> old(!EndsCleanly(reader.script))
    ensures AllAccepted(accept, chunks)
  {
    ghost var content, clean := Delivered(reader.script), EndsCleanly(reader.script);
    var buffer := new byte[2 * CHUNK_MAX];
    var used: nat, atEOF := 0, false;
    chunks, total := [], 0;
    ghost var rest := content;
    while true
      invariant reader.Valid() && used < 2 * CHUNK_MAX
      invariant rest == Rest(buffer[..used], atEOF, reader.script)
      invariant Streamed(gear, content, chunks, rest)
      invariant total == |Concat(chunks)|
      invariant clean == (atEOF || EndsCleanly(reader.script))
      invariant AllAccepted(accept, chunks)
      decreases |rest|
    {
      var pull;
      pull, used, atEOF := PullChunk(gear, reader, buffer, used, atEOF);
      match pull {
        case Broken =>
          return chunks, total, ReadFailed;
        case Exhausted =>
          return chunks, total, Done;
        case Pulled(chunk) =>
          StreamedStep(gear, content, chunks, rest);
          if !accept(chunk) {
            return chunks, total, Refused;
          }
          chunks, total := chunks + [chunk], total + |chunk|;
          rest := rest[NextCut(gear, rest)..];
      }
    }
  }
}
