/**
 Writing and loading the resolution state. Maps are walked in any order; what is written is decided by the
 state alone. A load that fails changes nothing; one that succeeds replaces everything and recomputes the
 indexes that are not stored.
 */
module StateService {
  import opened Ordering
  import opened Codec
  import opened Ledger
  import opened Snapshot

  // -------------------------------------------------------------------------------------------
  // Maps
  // -------------------------------------------------------------------------------------------

  lemma {:induction false} RowPush<V>(vs: seq<V>, v: V, enc: V -> Bytes)
    ensures Row(vs + [v], enc) == Row(vs, enc) + enc(v)
  {
    if vs == [] {
      assert vs + [v] == [v];
      assert [v][1..] == [];
    } else {
      RowPush(vs[1..], v, enc);
      assert (vs + [v])[1..] == vs[1..] + [v];
    }
  }

  /** The keys of a map, collected in any order and sorted. */
  method CollectKeys<V>(m: map<string, V>) returns (keys: seq<string>)
    ensures keys == SortedKeys(m.Keys)
  {
    hide SortedKeys;
    var todo := m.Keys;
    var found: seq<string> := [];
    while todo != {}
      invariant Distinct(found) && Elements(found) + todo == m.Keys && Elements(found) !! todo
    {
      var k :| k in todo;
      assert k !in Elements(found);
      assert Elements(found + [k]) == Elements(found) + {k};
      found := found + [k];
      todo := todo - {k};
    }
    SortSorts(found);
    keys := Sort(found);
    KeysUnique(m.Keys, keys);
  }

  method WriteTable<V>(m: map<string, V>, enc: V -> Bytes) returns (out: Bytes)
    ensures out == Table(m, enc)
  {
    hide SortedKeys, Row, U32, Blob;
    var keys := CollectKeys(m);
    out := U32(|keys|);
    ghost var pairs := Pairs(m, keys);
    RowNone(Entry(enc));
    for i := 0 to |keys|
      invariant out == U32(|keys|) + Row(pairs[..i], Entry(enc))
    {
      assert pairs[..i + 1] == pairs[..i] + [pairs[i]];
      RowPush(pairs[..i], pairs[i], Entry(enc));
      out := out + Blob(keys[i]) + enc(m[keys[i]]);
    }
    assert pairs[..|keys|] == pairs;
  }

  lemma RowNone<V>(enc: V -> Bytes)
    ensures Row([], enc) == []
  {
  }

  /** What reading the rest of a row adds to what was read already. */
  ghost function Continued<V>(done: seq<V>, r: Parsed<seq<V>>): Parsed<seq<V>> {
    match r
    case Bad => Bad
    case Good(vs, rest) => Good(done + vs, rest)
  }

  method ReadTable<V>(dec: Bytes -> Parsed<V>, data: Bytes) returns (r: Parsed<map<string, V>>)
    ensures r == ParseTable(dec, data)
  {
    hide ParseU32, ParseBlob;
    var count := ParseU32(data);
    if count.Bad? {
      return Bad;
    }
    var rest := count.rest;
    var m: map<string, V> := map[];
    ghost var done: seq<(string, V)> := [];
    ghost var whole := ParseRow(count.value, ParseEntry(dec), rest);
    ContinuedNone(whole);
    for i := 0 to count.value
      invariant whole == Continued(done, ParseRow(count.value - i, ParseEntry(dec), rest))
      invariant m == FromPairs(done)
    {
      var key := ParseBlob(rest);
      if key.Bad? {
        return Bad;
      }
      var value := dec(key.rest);
      if value.Bad? {
        return Bad;
      }
      ghost var pair := (key.value, value.value);
      assert ParseEntry(dec)(rest) == Good(pair, value.rest);
      ContinuedStep(done, pair, ParseRow(count.value - i - 1, ParseEntry(dec), value.rest));
      assert (done + [pair])[..|done|] == done;
      done := done + [pair];
      m := m[key.value := value.value];
      rest := value.rest;
    }
    assert done + [] == done;
    r := Good(m, rest);
  }

  lemma ContinuedNone<V>(r: Parsed<seq<V>>)
    ensures Continued([], r) == r
  {
    if r.Good? {
      assert [] + r.value == r.value;
    }
  }

  lemma ContinuedStep<V>(done: seq<V>, v: V, r: Parsed<seq<V>>)
    ensures Continued(done, Continued([v], r)) == Continued(done + [v], r)
  {
    if r.Good? {
      assert done + ([v] + r.value) == (done + [v]) + r.value;
    }
  }

  // -------------------------------------------------------------------------------------------
  // The parts of the artifact
  // -------------------------------------------------------------------------------------------

  method WriteEntityIndex(x: Index) returns (out: Bytes)
    ensures out == WriteIndex(x)
  {
    hide Table, U32;
    var names := WriteTable(x.names, WriteVectors);
    var centroids := WriteTable(x.centroids, WriteVector);
    out := INDEX_MAGIC + (U32(x.dim) + (U32(x.dimC) + (names + centroids)));
  }

  method LoadEntityIndex(data: Bytes) returns (r: Parsed<Index>)
    ensures r == ReadIndex(data)
  {
    hide ParseTable, ParseU32;
    if |data| < |INDEX_MAGIC| || data[..|INDEX_MAGIC|] != INDEX_MAGIC {
      return Bad;
    }
    var dim := ParseU32(data[|INDEX_MAGIC|..]);
    if dim.Bad? {
      return Bad;
    }
    var dimC := ParseU32(dim.rest);
    if dimC.Bad? {
      return Bad;
    }
    var names := ReadTable(ReadVectors, dimC.rest);
    if names.Bad? {
      return Bad;
    }
    var centroids := ReadTable(ReadVector, names.rest);
    if centroids.Bad? {
      return Bad;
    }
    var dims := Dims(dim.value, dimC.value);
    r := Good(Index(dims.0, dims.1, names.value, centroids.value), centroids.rest);
  }

  method EncodeLedger(ledger: EntityLedger) returns (out: Bytes)
    ensures out == WriteBook(Book(ledger.claims, ledger.observations, ledger.occurrences))
  {
    hide Table, U32;
    var claims := WriteTable(ledger.claims, WriteClaims);
    var counts := WriteTable(ledger.occurrences, U32);
    out := claims + (U32(ledger.observations) + counts);
  }

  method DecodeLedger(split: Splitter, data: Bytes, hasStats: bool) returns (ok: bool, ledger: EntityLedger)
    ensures ok <==> ReadBook(data, hasStats).Good?
    ensures fresh(ledger) && ledger.split == split
    ensures ok ==> ledger.Indexed() && Holds(ledger, ReadBook(data, hasStats).value)
  {
    hide ParseTable, ParseU32, DfOk, IdentOk;
    ledger := new EntityLedger(split);
    var claims := ReadTable(ReadClaims, data);
    if claims.Bad? {
      return false, ledger;
    }
    ledger.claims := claims.value;
    if hasStats {
      var observations := ParseU32(claims.rest);
      if observations.Bad? {
        return false, ledger;
      }
      ledger.observations := observations.value;
      var occurrences := ReadTable(ParseU32, observations.rest);
      if occurrences.Bad? {
        return false, ledger;
      }
      ledger.occurrences := occurrences.value;
    }
    ledger.Rebuild();
    if !hasStats {
      ledger.SeedObservationStats();
    }
    ok := true;
  }

  /** The ledger holds what was read; an old artifact's counts are seeded from the claim sets. */
  ghost predicate Holds(ledger: EntityLedger, book: (Claims, Stats))
    reads ledger
  {
    && ledger.claims == book.0
    && match book.1
       case Stats(n, occurrences) => ledger.observations == n && ledger.occurrences == occurrences
       case NoStats => ledger.observations == |book.0.Keys| && DfOk(ledger.occurrences, book.0)
  }

  // -------------------------------------------------------------------------------------------
  // The service's state
  // -------------------------------------------------------------------------------------------

  class State {
    var cache: map<string, Vector>
    var index: Index
    var ledger: EntityLedger
    var seenObs: map<string, string>

    ghost function Image(): Image
      reads this, ledger
    {
      Snapshot.Image(cache, index, Book(ledger.claims, ledger.observations, ledger.occurrences), seenObs)
    }

    constructor (split: Splitter, dim: nat, dimC: nat)
      ensures fresh(ledger) && ledger.Indexed()
    {
      cache, seenObs := map[], map[];
      index := Index(Dims(dim, dimC).0, Dims(dim, dimC).1, map[], map[]);
      ledger := new EntityLedger(split);
    }

    /** Equal states serialize to equal bytes, whatever order the maps are walked in. */
    method SnapshotState() returns (out: Bytes)
      ensures out == Save(Image())
    {
      hide Table, Blob, WriteIndex, WriteBook;
      var cacheBlob := WriteTable(cache, WriteVector);
      var indexBlob := WriteEntityIndex(index);
      var ledgerBlob := EncodeLedger(ledger);
      var memoBlob := WriteTable(seenObs, Blob);
      out := MAGIC + (Blob(cacheBlob) + (Blob(indexBlob) + (Blob(ledgerBlob) + Blob(memoBlob))));
    }

    method LoadState(data: Bytes) returns (ok: bool)
      modifies this
      ensures ok <==> Load(data).Good?
      ensures !ok ==> cache == old(cache) && index == old(index) && ledger == old(ledger) && seenObs == old(seenObs)
      ensures ok ==>
                var l := Load(data).value;
                && cache == l.cache && index == l.index && seenObs == l.memo
                && fresh(ledger) && ledger.split == old(ledger).split && ledger.Indexed()
                && Holds(ledger, (l.claims, l.stats))
    {
      hide ParseTable, ParseBlob, ReadIndex, ReadBook, DfOk, IdentOk, Holds;
      if |data| < |MAGIC| {
        return false;
      }
      var magic := data[..|MAGIC|];
      if magic != MAGIC && magic != PREVIOUS_MAGIC {
        return false;
      }
      var cacheBlob := ParseBlob(data[|MAGIC|..]);
      if cacheBlob.Bad? {
        return false;
      }
      var entries := ReadTable(ReadVector, cacheBlob.value);
      if entries.Bad? {
        return false;
      }
      var indexBlob := ParseBlob(cacheBlob.rest);
      if indexBlob.Bad? {
        return false;
      }
      var loaded := LoadEntityIndex(indexBlob.value);
      if loaded.Bad? {
        return false;
      }
      var ledgerBlob := ParseBlob(indexBlob.rest);
      if ledgerBlob.Bad? {
        return false;
      }
      var decoded, book := DecodeLedger(ledger.split, ledgerBlob.value, magic == MAGIC);
      if !decoded {
        return false;
      }
      var memoBlob := ParseBlob(ledgerBlob.rest);
      if memoBlob.Bad? {
        return false;
      }
      var memo := ReadTable(ParseBlob, memoBlob.value);
      if memo.Bad? {
        return false;
      }
      cache, index, ledger, seenObs := entries.value, loaded.value, book, memo.value;
      ok := true;
    }
  }

  /** What is recomputed is what was there: the counts are equal and the blocking lists hold the same entities. */
  lemma DerivedSame(split: Splitter, claims: Claims, df: map<string, nat>, ident: map<string, seq<string>>,
                    df': map<string, nat>, ident': map<string, seq<string>>, key: string)
    requires DfOk(df, claims) && IdentOk(split, ident, claims)
    requires DfOk(df', claims) && IdentOk(split, ident', claims)
    ensures df == df' && multiset(Listed(ident, key)) == multiset(Listed(ident', key))
  {
    assert df.Keys == df'.Keys;
    var a, b := multiset(Listed(ident, key)), multiset(Listed(ident', key));
    forall e ensures a[e] == b[e] {
      assert a[e] == |FiledUnder(split, Held(claims, e), key)|;
    }
  }
}
