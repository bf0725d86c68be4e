/**
 Length-prefixed little-endian framing. A Go string is a byte sequence; here each character of a string
 stands for one byte, so text and artifacts are both strings. An encoder and a decoder are inverse when
 decoding what was encoded, whatever follows it, gives back the value and leaves what follows.
 */
module Codec {
  import opened Ordering

  type Bytes = string

  datatype Parsed<+T> = Bad | Good(value: T, rest: Bytes)

  // -------------------------------------------------------------------------------------------
  // Numbers
  // -------------------------------------------------------------------------------------------

  /** The low `k` bytes of a number, least significant first. */
  function Little(n: nat, k: nat): (r: Bytes)
    ensures |r| == k
    decreases k
  {
    if k == 0 then [] else [(n % 256) as char] + Little(n / 256, k - 1)
  }

  function FromLittle(data: Bytes): nat {
    if data == [] then 0 else data[0] as nat + 256 * FromLittle(data[1..])
  }

  function Pow256(k: nat): nat {
    if k == 0 then 1 else 256 * Pow256(k - 1)
  }

  lemma {:induction false} LittleInverse(n: nat, k: nat)
    requires n < Pow256(k)
    ensures FromLittle(Little(n, k)) == n
    decreases k
  {
    if k > 0 {
      LittleInverse(n / 256, k - 1);
    }
  }

  const LIMIT32: nat := 0x1_0000_0000
  const LIMIT64: nat := 0x1_0000_0000_0000_0000
  const MAX_BLOB: nat := 512 * 1024 * 1024
  const MAX_DIM: nat := 65536

  function U32(n: nat): Bytes { Little(n, 4) }

  function ParseU32(data: Bytes): Parsed<nat> {
    if |data| < 4 then Bad else Good(FromLittle(data[..4]), data[4..])
  }

  lemma Limits()
    ensures Pow256(4) == LIMIT32 && Pow256(8) == LIMIT64
  {
  }

  /** Little-endian: a 32-bit number is written low byte first. */
  lemma U32Bytes(a: nat, b: nat, c: nat, d: nat)
    requires a < 256 && b < 256 && c < 256 && d < 256
    ensures U32(a + 0x100 * b + 0x1_0000 * c + 0x100_0000 * d) == [a as char, b as char, c as char, d as char]
  {
    var n := a + 0x100 * b + 0x1_0000 * c + 0x100_0000 * d;
    assert n == a + 256 * (b + 0x100 * c + 0x1_0000 * d);
    assert n / 256 == b + 0x100 * c + 0x1_0000 * d;
    LittleStep(n, 4);
    LittleStep(n / 256, 3);
    LittleStep(c + 0x100 * d, 2);
    LittleStep(d, 1);
  }

  lemma LittleStep(n: nat, k: nat)
    requires k > 0
    ensures Little(n, k) == [(n % 256) as char] + Little(n / 256, k - 1)
  {
  }

  lemma U32Inverse(n: nat, rest: Bytes)
    requires n < LIMIT32
    ensures ParseU32(U32(n) + rest) == Good(n, rest)
  {
    hide Little, FromLittle, Pow256;
    Limits();
    LittleInverse(n, 4);
    assert (U32(n) + rest)[..4] == U32(n);
  }

  // -------------------------------------------------------------------------------------------
  // Length-prefixed bytes
  // -------------------------------------------------------------------------------------------

  function Blob(b: Bytes): Bytes { Little(|b|, 8) + b }

  function ParseBlob(data: Bytes): Parsed<Bytes> {
    if |data| < 8 then Bad
    else
      var n, rest := FromLittle(data[..8]), data[8..];
      if n > MAX_BLOB || |rest| < n then Bad else Good(rest[..n], rest[n..])
  }

  /** Short enough to be read back. */
  predicate Short(b: Bytes) { |b| <= MAX_BLOB }

  lemma BlobInverse(b: Bytes, rest: Bytes)
    requires Short(b)
    ensures ParseBlob(Blob(b) + rest) == Good(b, rest)
  {
    hide Little, FromLittle, Pow256;
    Limits();
    LittleInverse(|b|, 8);
    assert (Blob(b) + rest)[..8] == Little(|b|, 8);
    assert (Blob(b) + rest)[8..] == b + rest;
  }

  // -------------------------------------------------------------------------------------------
  // Values in a row
  // -------------------------------------------------------------------------------------------

  ghost predicate Inverse<V(!new)>(enc: V -> Bytes, dec: Bytes -> Parsed<V>, fits: V -> bool) {
    forall v, rest :: fits(v) ==> dec(enc(v) + rest) == Good(v, rest)
  }

  function Row<V>(vs: seq<V>, enc: V -> Bytes): Bytes {
    if vs == [] then [] else enc(vs[0]) + Row(vs[1..], enc)
  }

  function ParseRow<V>(n: nat, dec: Bytes -> Parsed<V>, data: Bytes): (r: Parsed<seq<V>>)
    ensures r.Good? ==> |r.value| == n
  {
    if n == 0 then Good([], data)
    else
      match dec(data)
      case Bad => Bad
      case Good(v, rest) =>
        match ParseRow(n - 1, dec, rest)
        case Bad => Bad
        case Good(vs, end) => Good([v] + vs, end)
  }

  lemma {:induction false} RowInverse<V(!new)>(vs: seq<V>, enc: V -> Bytes, dec: Bytes -> Parsed<V>, fits: V -> bool,
                                               rest: Bytes)
    requires Inverse(enc, dec, fits) && forall v :: v in vs ==> fits(v)
    ensures ParseRow(|vs|, dec, Row(vs, enc) + rest) == Good(vs, rest)
  {
    if vs == [] {
      assert Row(vs, enc) + rest == rest;
    } else {
      RowInverse(vs[1..], enc, dec, fits, rest);
      assert Row(vs, enc) + rest == enc(vs[0]) + (Row(vs[1..], enc) + rest);
      assert vs == [vs[0]] + vs[1..];
    }
  }

  /** A counted list. */
  function List<V>(vs: seq<V>, enc: V -> Bytes): Bytes { U32(|vs|) + Row(vs, enc) }

  function ParseList<V>(dec: Bytes -> Parsed<V>, data: Bytes): Parsed<seq<V>> {
    match ParseU32(data)
    case Bad => Bad
    case Good(n, rest) => ParseRow(n, dec, rest)
  }

  lemma ListInverse<V(!new)>(vs: seq<V>, enc: V -> Bytes, dec: Bytes -> Parsed<V>, fits: V -> bool, rest: Bytes)
    requires Inverse(enc, dec, fits) && |vs| < LIMIT32 && forall v :: v in vs ==> fits(v)
    ensures ParseList(dec, List(vs, enc) + rest) == Good(vs, rest)
  {
    U32Inverse(|vs|, Row(vs, enc) + rest);
    assert List(vs, enc) + rest == U32(|vs|) + (Row(vs, enc) + rest);
    RowInverse(vs, enc, dec, fits, rest);
  }

  // -------------------------------------------------------------------------------------------
  // Maps, sorted by key
  // -------------------------------------------------------------------------------------------

  predicate IsLeast(s: set<string>, x: string) {
    x in s && forall y :: y in s && y != x ==> Less(x, y)
  }

  lemma LeastOnly(s: set<string>)
    ensures forall x, z :: IsLeast(s, x) && IsLeast(s, z) ==> x == z
  {
    hide Less;
    forall x, z | IsLeast(s, x) && IsLeast(s, z) ensures x == z {
      if x != z {
        LessAsymmetric(x, z);
      }
    }
  }

  lemma {:induction false} LeastExists(s: set<string>)
    requires s != {}
    ensures exists x :: IsLeast(s, x)
  {
    hide Less;
    var z :| z in s;
    var others := s - {z};
    if others == {} {
      assert s == {z} + others;
      assert IsLeast(s, z);
    } else {
      LeastExists(others);
      var x :| IsLeast(others, x);
      LessTotal(x, z);
      if Less(x, z) {
        assert IsLeast(s, x);
      } else {
        forall y | y in s && y != z && y != x ensures Less(z, y) {
          LessTransitive(z, x, y);
        }
        assert IsLeast(s, z);
      }
    }
  }

  function Least(s: set<string>): (x: string)
    requires s != {}
    ensures IsLeast(s, x)
  {
    LeastExists(s);
    LeastOnly(s);
    var x :| IsLeast(s, x);
    x
  }

  function SortedKeys(s: set<string>): (keys: seq<string>)
    ensures |keys| == |s| && forall k :: k in keys <==> k in s
  {
    if s == {} then [] else [Least(s)] + SortedKeys(s - {Least(s)})
  }

  lemma SortedCons(x: string, rest: seq<string>)
    requires Sorted(rest) && forall k :: k in rest ==> Less(x, k)
    ensures Sorted([x] + rest)
  {
    hide Less;
  }

  lemma {:induction false} SortedKeysSorted(s: set<string>)
    ensures Sorted(SortedKeys(s))
  {
    hide Less;
    if s != {} {
      var x := Least(s);
      var rest := SortedKeys(s - {x});
      SortedKeysSorted(s - {x});
      SortedCons(x, rest);
      assert SortedKeys(s) == [x] + rest;
    }
  }

  /** Any sorted listing of the keys is the one written. */
  lemma KeysUnique(s: set<string>, keys: seq<string>)
    requires Sorted(keys) && Elements(keys) == s
    ensures keys == SortedKeys(s)
  {
    SortedKeysSorted(s);
    SortedUnique(keys, SortedKeys(s));
  }

  function Pairs<V>(m: map<string, V>, keys: seq<string>): (r: seq<(string, V)>)
    requires forall k :: k in keys ==> k in m
    ensures |r| == |keys| && forall i :: 0 <= i < |keys| ==> r[i] == (keys[i], m[keys[i]])
  {
    seq(|keys|, i requires 0 <= i < |keys| => (keys[i], m[keys[i]]))
  }

  function Entry<V>(enc: V -> Bytes): ((string, V)) -> Bytes {
    (p: (string, V)) => Blob(p.0) + enc(p.1)
  }

  function ParseEntry<V>(dec: Bytes -> Parsed<V>): Bytes -> Parsed<(string, V)> {
    (data: Bytes) =>
      match ParseBlob(data)
      case Bad => Bad
      case Good(k, rest) =>
        match dec(rest)
        case Bad => Bad
        case Good(v, end) => Good((k, v), end)
  }

  function FitsEntry<V>(fits: V -> bool): ((string, V)) -> bool {
    (p: (string, V)) => Short(p.0) && fits(p.1)
  }

  lemma EntryInverse<V(!new)>(enc: V -> Bytes, dec: Bytes -> Parsed<V>, fits: V -> bool)
    requires Inverse(enc, dec, fits)
    ensures Inverse(Entry(enc), ParseEntry(dec), FitsEntry(fits))
  {
    hide Blob, ParseBlob, Short;
    forall p: (string, V), rest | FitsEntry(fits)(p) ensures ParseEntry(dec)(Entry(enc)(p) + rest) == Good(p, rest) {
      BlobInverse(p.0, enc(p.1) + rest);
      assert Entry(enc)(p) + rest == Blob(p.0) + (enc(p.1) + rest);
    }
  }

  function FromPairs<V>(pairs: seq<(string, V)>): map<string, V> {
    if pairs == [] then map[] else FromPairs(pairs[..|pairs| - 1])[pairs[|pairs| - 1].0 := pairs[|pairs| - 1].1]
  }

  lemma {:induction false} FromPairsKeys<V>(m: map<string, V>, keys: seq<string>)
    requires forall k :: k in keys ==> k in m
    ensures FromPairs(Pairs(m, keys)) == map k | k in keys :: m[k]
  {
    if keys != [] {
      var front, last := keys[..|keys| - 1], keys[|keys| - 1];
      FromPairsKeys(m, front);
      assert Pairs(m, keys)[..|keys| - 1] == Pairs(m, front);
      assert keys == front + [last];
    }
  }

  /** A map as its number of entries and the entries in key order. */
  function Table<V>(m: map<string, V>, enc: V -> Bytes): Bytes {
    var keys := SortedKeys(m.Keys);
    List(Pairs(m, keys), Entry(enc))
  }

  function ParseTable<V>(dec: Bytes -> Parsed<V>, data: Bytes): Parsed<map<string, V>> {
    match ParseList(ParseEntry(dec), data)
    case Bad => Bad
    case Good(pairs, rest) => Good(FromPairs(pairs), rest)
  }

  function FitsTable<V>(fits: V -> bool): map<string, V> -> bool {
    (m: map<string, V>) => |m.Keys| < LIMIT32 && forall k :: k in m ==> Short(k) && fits(m[k])
  }

  function TableEncoder<V>(enc: V -> Bytes): map<string, V> -> Bytes { (m: map<string, V>) => Table(m, enc) }

  function TableDecoder<V>(dec: Bytes -> Parsed<V>): Bytes -> Parsed<map<string, V>> {
    (data: Bytes) => ParseTable(dec, data)
  }

  /** Reading a written map gives the map back, whenever its values can be read back. */
  lemma TableInverse<V(!new)>(enc: V -> Bytes, dec: Bytes -> Parsed<V>, fits: V -> bool)
    requires Inverse(enc, dec, fits)
    ensures Inverse(TableEncoder(enc), TableDecoder(dec), FitsTable(fits))
  {
    hide List, ParseList, Short, SortedKeys, Pairs, FromPairs;
    EntryInverse(enc, dec, fits);
    forall m: map<string, V>, rest | FitsTable(fits)(m) ensures ParseTable(dec, Table(m, enc) + rest) == Good(m, rest) {
      var keys := SortedKeys(m.Keys);
      var pairs := Pairs(m, keys);
      ListInverse(pairs, Entry(enc), ParseEntry(dec), FitsEntry(fits), rest);
      FromPairsKeys(m, keys);
      assert (map k | k in keys :: m[k]) == m;
    }
  }
}
