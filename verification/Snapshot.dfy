/**
 The resolution-state artifact: claim-vector cache, entity index, ledger and observation memo. `RoundTrip`
 says that loading a saved state restores all of it, within the limits the readers enforce.
 */
module Snapshot {
  import opened Ordering
  import opened Codec
  import opened Ledger

  const MAGIC: Bytes := "GMEOWSTATE4"
  const PREVIOUS_MAGIC: Bytes := "GMEOWSTATE3"
  const INDEX_MAGIC: Bytes := "GMEOWHNSW1"
  const FULL_DIM: nat := 768
  const COARSE_DIM: nat := 128

  /** A 32-bit float, by its bit pattern. */
  type Float32 = x: nat | x < LIMIT32

  type Vector = seq<Float32>

  /** The authoritative part of the entity index. */
  datatype Index = Index(dim: nat, dimC: nat, names: map<string, seq<Vector>>, centroids: map<string, Vector>)

  /** The serialized part of the ledger. */
  datatype Book = Book(claims: Claims, observations: nat, occurrences: map<string, nat>)

  datatype Image = Image(cache: map<string, Vector>, index: Index, book: Book, memo: map<string, string>)

  // -------------------------------------------------------------------------------------------
  // The parts
  // -------------------------------------------------------------------------------------------

  function WriteFloat(x: Float32): Bytes { Little(x, 4) }

  function ReadFloat(data: Bytes): Parsed<Float32> {
    match ParseU32(data)
    case Bad => Bad
    case Good(n, rest) => if n < LIMIT32 then Good(n, rest) else Bad
  }

  function WriteVector(v: Vector): Bytes { List(v, WriteFloat) }

  function ReadVector(data: Bytes): Parsed<Vector> {
    match ParseU32(data)
    case Bad => Bad
    case Good(dim, rest) => if dim > MAX_DIM then Bad else ParseRow(dim, ReadFloat, rest)
  }

  predicate FitsVector(v: Vector) { |v| <= MAX_DIM }

  lemma FloatInverse()
    ensures Inverse(WriteFloat, ReadFloat, (x: Float32) => true)
  {
    hide Little, ParseU32;
    forall x: Float32, rest ensures ReadFloat(WriteFloat(x) + rest) == Good(x, rest) {
      U32Inverse(x, rest);
    }
  }

  lemma VectorInverse()
    ensures Inverse(WriteVector, ReadVector, FitsVector)
  {
    hide ParseU32, Row, ParseRow, Little;
    FloatInverse();
    forall v: Vector, rest | FitsVector(v) ensures ReadVector(WriteVector(v) + rest) == Good(v, rest) {
      U32Inverse(|v|, Row(v, WriteFloat) + rest);
      assert WriteVector(v) + rest == U32(|v|) + (Row(v, WriteFloat) + rest);
      RowInverse(v, WriteFloat, ReadFloat, (x: Float32) => true, rest);
    }
  }

  function WriteVectors(vs: seq<Vector>): Bytes { List(vs, WriteVector) }

  function ReadVectors(data: Bytes): Parsed<seq<Vector>> { ParseList(ReadVector, data) }

  predicate FitsVectors(vs: seq<Vector>) { |vs| < LIMIT32 && forall v :: v in vs ==> FitsVector(v) }

  lemma VectorsInverse()
    ensures Inverse(WriteVectors, ReadVectors, FitsVectors)
  {
    hide List, ParseList, FitsVector;
    VectorInverse();
    forall vs: seq<Vector>, rest | FitsVectors(vs) ensures ReadVectors(WriteVectors(vs) + rest) == Good(vs, rest) {
      ListInverse(vs, WriteVector, ReadVector, FitsVector, rest);
    }
  }

  function WriteClaim(c: ClaimEntry): Bytes { Blob(c.text) + (Blob(c.validFrom) + Blob(c.validUntil)) }

  function ReadClaim(data: Bytes): Parsed<ClaimEntry> {
    match ParseBlob(data)
    case Bad => Bad
    case Good(text, d) =>
      match ParseBlob(d)
      case Bad => Bad
      case Good(from, e) =>
        match ParseBlob(e)
        case Bad => Bad
        case Good(until, rest) => Good(ClaimEntry(text, from, until), rest)
  }

  predicate FitsClaim(c: ClaimEntry) { Short(c.text) && Short(c.validFrom) && Short(c.validUntil) }

  lemma ClaimInverse()
    ensures Inverse(WriteClaim, ReadClaim, FitsClaim)
  {
    hide Blob, ParseBlob, Short;
    forall c: ClaimEntry, rest | FitsClaim(c) ensures ReadClaim(WriteClaim(c) + rest) == Good(c, rest) {
      BlobInverse(c.text, Blob(c.validFrom) + (Blob(c.validUntil) + rest));
      BlobInverse(c.validFrom, Blob(c.validUntil) + rest);
      BlobInverse(c.validUntil, rest);
      assert WriteClaim(c) + rest == Blob(c.text) + (Blob(c.validFrom) + (Blob(c.validUntil) + rest));
    }
  }

  lemma TextInverse()
    ensures Inverse(Blob, ParseBlob, Short)
  {
    hide Blob, ParseBlob, Short;
    forall b: Bytes, rest | Short(b) ensures ParseBlob(Blob(b) + rest) == Good(b, rest) {
      BlobInverse(b, rest);
    }
  }

  predicate FitsCount(n: nat) { n < LIMIT32 }

  lemma CountInverse()
    ensures Inverse(U32, ParseU32, FitsCount)
  {
    hide U32, ParseU32;
    forall n: nat, rest | FitsCount(n) ensures ParseU32(U32(n) + rest) == Good(n, rest) {
      U32Inverse(n, rest);
    }
  }

  // -------------------------------------------------------------------------------------------
  // Index and ledger
  // -------------------------------------------------------------------------------------------

  /** The dimensions a new index settles on. */
  function Dims(dim: nat, dimC: nat): (nat, nat) {
    var full := if dim == 0 then FULL_DIM else dim;
    (full, if dimC == 0 || dimC > full then COARSE_DIM else dimC)
  }

  function WriteIndex(x: Index): Bytes {
    INDEX_MAGIC + (U32(x.dim) + (U32(x.dimC) + (Table(x.names, WriteVectors) + Table(x.centroids, WriteVector))))
  }

  function ReadIndex(data: Bytes): Parsed<Index> {
    if |data| < |INDEX_MAGIC| || data[..|INDEX_MAGIC|] != INDEX_MAGIC then Bad
    else
      match ParseU32(data[|INDEX_MAGIC|..])
      case Bad => Bad
      case Good(dim, d) =>
        match ParseU32(d)
        case Bad => Bad
        case Good(dimC, e) =>
          match ParseTable(ReadVectors, e)
          case Bad => Bad
          case Good(names, f) =>
            match ParseTable(ReadVector, f)
            case Bad => Bad
            case Good(centroids, rest) => Good(Index(Dims(dim, dimC).0, Dims(dim, dimC).1, names, centroids), rest)
  }

  /** What every index built by the program satisfies, within the readers' limits. */
  predicate FitsIndex(x: Index) {
    && x.dim < LIMIT32 && x.dimC < LIMIT32 && Dims(x.dim, x.dimC) == (x.dim, x.dimC)
    && FitsTable(FitsVectors)(x.names) && FitsTable(FitsVector)(x.centroids)
  }

  /** Loading settles on the dimensions the index was built with; given ones are kept where they make sense. */
  lemma DimsStable(dim: nat, dimC: nat)
    ensures var (a, b) := Dims(dim, dimC); Dims(a, b) == (a, b)
    ensures 0 < dimC <= dim ==> Dims(dim, dimC) == (dim, dimC)
    ensures dim == 0 ==> Dims(dim, dimC).0 == 768
    ensures dimC == 0 || dimC > Dims(dim, dimC).0 ==> Dims(dim, dimC).1 == 128
  {
  }

  lemma TableBack<V(!new)>(m: map<string, V>, enc: V -> Bytes, dec: Bytes -> Parsed<V>, fits: V -> bool, rest: Bytes)
    requires Inverse(enc, dec, fits) && FitsTable(fits)(m)
    ensures ParseTable(dec, Table(m, enc) + rest) == Good(m, rest)
  {
    hide Table, ParseTable, FitsTable;
    TableInverse(enc, dec, fits);
    assert TableDecoder(dec)(TableEncoder(enc)(m) + rest) == Good(m, rest);
  }

  lemma IndexInverse(x: Index, rest: Bytes)
    requires FitsIndex(x)
    ensures ReadIndex(WriteIndex(x) + rest) == Good(x, rest)
  {
    hide U32, ParseU32, Table, ParseTable, FitsTable, FitsVector, FitsVectors, Dims;
    var names, centroids := Table(x.names, WriteVectors), Table(x.centroids, WriteVector);
    VectorInverse();
    VectorsInverse();
    TableBack(x.centroids, WriteVector, ReadVector, FitsVector, rest);
    TableBack(x.names, WriteVectors, ReadVectors, FitsVectors, centroids + rest);
    U32Inverse(x.dimC, names + (centroids + rest));
    U32Inverse(x.dim, U32(x.dimC) + (names + (centroids + rest)));
    assert WriteIndex(x) + rest == INDEX_MAGIC + (U32(x.dim) + (U32(x.dimC) + (names + (centroids + rest))));
    assert (WriteIndex(x) + rest)[|INDEX_MAGIC|..] == U32(x.dim) + (U32(x.dimC) + (names + (centroids + rest)));
    assert (WriteIndex(x) + rest)[..|INDEX_MAGIC|] == INDEX_MAGIC;
  }

  function WriteClaims(c: ClaimSet): Bytes { Table(c, WriteClaim) }

  function ReadClaims(data: Bytes): Parsed<ClaimSet> { ParseTable(ReadClaim, data) }

  predicate FitsClaims(c: ClaimSet) { FitsTable(FitsClaim)(c) }

  lemma ClaimsInverse()
    ensures Inverse(WriteClaims, ReadClaims, FitsClaims)
  {
    hide Table, ParseTable, FitsTable, FitsClaim;
    ClaimInverse();
    forall c: ClaimSet, rest | FitsClaims(c) ensures ReadClaims(WriteClaims(c) + rest) == Good(c, rest) {
      TableBack(c, WriteClaim, ReadClaim, FitsClaim, rest);
    }
  }

  /** The claim sets, and unless it is an old artifact the observation counts. */
  function WriteBook(b: Book): Bytes {
    Table(b.claims, WriteClaims) + (U32(b.observations) + Table(b.occurrences, U32))
  }

  datatype Stats = Stats(observations: nat, occurrences: map<string, nat>) | NoStats

  function ReadStats(data: Bytes): Parsed<Stats> {
    match ParseU32(data)
    case Bad => Bad
    case Good(n, d) =>
      match ParseTable(ParseU32, d)
      case Bad => Bad
      case Good(occurrences, rest) => Good(Stats(n, occurrences), rest)
  }

  function ReadBook(data: Bytes, hasStats: bool): Parsed<(Claims, Stats)> {
    match ParseTable(ReadClaims, data)
    case Bad => Bad
    case Good(claims, d) =>
      if !hasStats then Good((claims, NoStats), d)
      else
        match ReadStats(d)
        case Bad => Bad
        case Good(stats, rest) => Good((claims, stats), rest)
  }

  predicate FitsBook(b: Book) {
    FitsTable(FitsClaims)(b.claims) && FitsCount(b.observations) && FitsTable(FitsCount)(b.occurrences)
  }

  lemma BookInverse(b: Book, rest: Bytes)
    requires FitsBook(b)
    ensures ReadBook(WriteBook(b) + rest, true) == Good((b.claims, Stats(b.observations, b.occurrences)), rest)
    ensures ReadBook(Table(b.claims, WriteClaims) + rest, false) == Good((b.claims, NoStats), rest)
  {
    hide U32, ParseU32, Table, ParseTable, FitsTable, FitsClaims, FitsCount;
    var claims, counts := Table(b.claims, WriteClaims), Table(b.occurrences, U32);
    ClaimsInverse();
    CountInverse();
    TableBack(b.occurrences, U32, ParseU32, FitsCount, rest);
    CountBack(b.observations, counts + rest);
    TableBack(b.claims, WriteClaims, ReadClaims, FitsClaims, U32(b.observations) + (counts + rest));
    TableBack(b.claims, WriteClaims, ReadClaims, FitsClaims, rest);
    assert WriteBook(b) + rest == claims + (U32(b.observations) + (counts + rest));
  }

  lemma CountBack(n: nat, rest: Bytes)
    requires FitsCount(n)
    ensures ParseU32(U32(n) + rest) == Good(n, rest)
  {
    U32Inverse(n, rest);
  }

  // -------------------------------------------------------------------------------------------
  // The whole artifact
  // -------------------------------------------------------------------------------------------

  function Save(s: Image): Bytes {
    MAGIC + (Blob(Table(s.cache, WriteVector)) +
             (Blob(WriteIndex(s.index)) + (Blob(WriteBook(s.book)) + Blob(Table(s.memo, Blob)))))
  }

  datatype Loaded = Loaded(
    cache: map<string, Vector>, index: Index, claims: Claims, stats: Stats, memo: map<string, string>)

  /** What follows the magic. */
  function LoadBody(data: Bytes, hasStats: bool): Parsed<Loaded> {
    match ParseBlob(data)
    case Bad => Bad
    case Good(cacheBlob, d) =>
      match ParseTable(ReadVector, cacheBlob)
      case Bad => Bad
      case Good(cache, _) =>
        match ParseBlob(d)
        case Bad => Bad
        case Good(indexBlob, e) =>
          match ReadIndex(indexBlob)
          case Bad => Bad
          case Good(index, _) =>
            match ParseBlob(e)
            case Bad => Bad
            case Good(bookBlob, f) =>
              match ReadBook(bookBlob, hasStats)
              case Bad => Bad
              case Good(book, _) =>
                match ParseBlob(f)
                case Bad => Bad
                case Good(memoBlob, rest) =>
                  match ParseTable(ParseBlob, memoBlob)
                  case Bad => Bad
                  case Good(memo, _) => Good(Loaded(cache, index, book.0, book.1, memo), rest)
  }

  function Load(data: Bytes): Parsed<Loaded> {
    if |data| < |MAGIC| || (data[..|MAGIC|] != MAGIC && data[..|MAGIC|] != PREVIOUS_MAGIC) then Bad
    else LoadBody(data[|MAGIC|..], data[..|MAGIC|] == MAGIC)
  }

  /** Within the limits the readers enforce. */
  predicate Fits(s: Image) {
    && FitsTable(FitsVector)(s.cache) && Short(Table(s.cache, WriteVector))
    && FitsIndex(s.index) && Short(WriteIndex(s.index))
    && FitsBook(s.book) && Short(WriteBook(s.book))
    && FitsTable(Short)(s.memo) && Short(Table(s.memo, Blob))
  }

  lemma TableWhole<V(!new)>(m: map<string, V>, enc: V -> Bytes, dec: Bytes -> Parsed<V>, fits: V -> bool)
    requires Inverse(enc, dec, fits) && FitsTable(fits)(m)
    ensures ParseTable(dec, Table(m, enc)) == Good(m, [])
  {
    hide Table, ParseTable, FitsTable;
    TableBack(m, enc, dec, fits, []);
    assert Table(m, enc) + [] == Table(m, enc);
  }

  /** Loading a saved state restores the cache, the index, the claim sets, the counts and the memo. */
  lemma RoundTrip(s: Image)
    requires Fits(s)
    ensures var stats := Stats(s.book.observations, s.book.occurrences);
            Load(Save(s)) == Good(Loaded(s.cache, s.index, s.book.claims, stats, s.memo), [])
  {
    hide Table, ParseTable, FitsTable, Blob, ParseBlob, Short, WriteIndex, ReadIndex, FitsIndex, WriteBook, ReadBook,
         FitsBook, FitsVector;
    var cache, index := Table(s.cache, WriteVector), WriteIndex(s.index);
    var book, memo := WriteBook(s.book), Table(s.memo, Blob);
    VectorInverse();
    TextInverse();
    TableWhole(s.cache, WriteVector, ReadVector, FitsVector);
    TableWhole(s.memo, Blob, ParseBlob, Short);
    IndexInverse(s.index, []);
    BookInverse(s.book, []);
    assert index + [] == index && book + [] == book && Blob(memo) + [] == Blob(memo);
    BlobInverse(cache, Blob(index) + (Blob(book) + Blob(memo)));
    BlobInverse(index, Blob(book) + Blob(memo));
    BlobInverse(book, Blob(memo));
    BlobInverse(memo, []);
    assert Save(s)[..|MAGIC|] == MAGIC;
    assert Save(s)[|MAGIC|..] == Blob(cache) + (Blob(index) + (Blob(book) + Blob(memo)));
  }

  /** The artifact of the version before, which has no observation counts. */
  function SavePrevious(cache: map<string, Vector>, index: Index, claims: Claims, memo: map<string, string>): Bytes {
    PREVIOUS_MAGIC + (Blob(Table(cache, WriteVector)) +
                      (Blob(WriteIndex(index)) + (Blob(Table(claims, WriteClaims)) + Blob(Table(memo, Blob)))))
  }

  predicate FitsPrevious(cache: map<string, Vector>, index: Index, claims: Claims, memo: map<string, string>) {
    && FitsTable(FitsVector)(cache) && Short(Table(cache, WriteVector)) && FitsIndex(index) && Short(WriteIndex(index))
    && FitsTable(FitsClaims)(claims) && Short(Table(claims, WriteClaims))
    && FitsTable(Short)(memo) && Short(Table(memo, Blob))
  }

  /** An artifact of the version before restores everything but the counts, and leaves those to be seeded. */
  lemma PreviousRead(cache: map<string, Vector>, index: Index, claims: Claims, memo: map<string, string>)
    requires FitsPrevious(cache, index, claims, memo)
    ensures Load(SavePrevious(cache, index, claims, memo)) == Good(Loaded(cache, index, claims, NoStats, memo), [])
  {
    hide Table, ParseTable, FitsTable, Blob, ParseBlob, Short, WriteIndex, ReadIndex, FitsIndex, FitsVector, FitsClaims;
    var a, b, c, d := Table(cache, WriteVector), WriteIndex(index), Table(claims, WriteClaims), Table(memo, Blob);
    VectorInverse();
    TextInverse();
    ClaimsInverse();
    TableWhole(cache, WriteVector, ReadVector, FitsVector);
    TableWhole(memo, Blob, ParseBlob, Short);
    TableWhole(claims, WriteClaims, ReadClaims, FitsClaims);
    IndexInverse(index, []);
    assert b + [] == b && Blob(d) + [] == Blob(d);
    BlobInverse(a, Blob(b) + (Blob(c) + Blob(d)));
    BlobInverse(b, Blob(c) + Blob(d));
    BlobInverse(c, Blob(d));
    BlobInverse(d, []);
    var data := SavePrevious(cache, index, claims, memo);
    assert data[..|MAGIC|] == PREVIOUS_MAGIC && PREVIOUS_MAGIC[10] != MAGIC[10];
    assert data[|MAGIC|..] == Blob(a) + (Blob(b) + (Blob(c) + Blob(d)));
  }

  /** Different states never serialize to the same bytes. */
  lemma SaveInjective(s: Image, t: Image)
    requires Fits(s) && Fits(t) && Save(s) == Save(t)
    ensures s == t
  {
    hide Save, Load, Fits;
    RoundTrip(s);
    RoundTrip(t);
  }
}
