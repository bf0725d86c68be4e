/**
 What a least-recently-used cache is, as a plain sequence of entries, most recent first: looking up,
 touching, inserting, and cutting the sequence back to a count or to a number of bytes.
 */
module Recency {
  import opened Options

  datatype Entry<K, V> = Entry(key: K, value: V)

  ghost predicate Unique<K, V>(s: seq<Entry<K, V>>) {
    forall i, j :: 0 <= i < j < |s| ==> s[i].key != s[j].key
  }

  ghost function Removed<T>(s: seq<T>, at: nat): (r: seq<T>)
    requires at < |s|
    ensures |r| == |s| - 1
    ensures forall i :: 0 <= i < |r| ==> r[i] == if i < at then s[i] else s[i + 1]
  {
    s[..at] + s[at + 1..]
  }

  function Lookup<K(==), V>(s: seq<Entry<K, V>>, key: K): Option<V> {
    if s == [] then None else if s[0].key == key then Some(s[0].value) else Lookup(s[1..], key)
  }

  /** The entries other than the one for `key`. */
  function Without<K(==), V>(s: seq<Entry<K, V>>, key: K): (r: seq<Entry<K, V>>)
    ensures |r| <= |s|
  {
    if s == [] then [] else if s[0].key == key then s[1..] else [s[0]] + Without(s[1..], key)
  }

  function Touch<K(==), V>(s: seq<Entry<K, V>>, key: K): seq<Entry<K, V>> {
    match Lookup(s, key)
    case None => s
    case Some(v) => [Entry(key, v)] + Without(s, key)
  }

  function Replace<K(==), V>(s: seq<Entry<K, V>>, key: K, value: V): seq<Entry<K, V>> {
    [Entry(key, value)] + Without(s, key)
  }

  function Take<T>(s: seq<T>, n: nat): seq<T> {
    if |s| <= n then s else s[..n]
  }

  /** Inserts unless present; either way the key becomes the most recent. */
  function Ensure<K(==), V>(s: seq<Entry<K, V>>, key: K, value: V): seq<Entry<K, V>> {
    if Lookup(s, key).Some? then Touch(s, key) else [Entry(key, value)] + s
  }

  // -------------------------------------------------------------------------------------------
  // Looking up after an update
  // -------------------------------------------------------------------------------------------

  lemma {:induction false} LookupAt<K, V>(s: seq<Entry<K, V>>, i: nat)
    requires Unique(s) && i < |s|
    ensures Lookup(s, s[i].key) == Some(s[i].value)
    ensures Without(s, s[i].key) == Removed(s, i)
  {
    if i > 0 {
      LookupAt(s[1..], i - 1);
      assert s == [s[0]] + s[1..];
    }
  }

  lemma {:induction false} LookupNone<K, V>(s: seq<Entry<K, V>>, key: K)
    requires forall i :: 0 <= i < |s| ==> s[i].key != key
    ensures Lookup(s, key) == None && Without(s, key) == s
  {
    if s != [] {
      LookupNone(s[1..], key);
    }
  }

  /** Removing a key forgets it and nothing else. */
  lemma {:induction false} WithoutLookup<K, V>(s: seq<Entry<K, V>>, key: K, other: K)
    requires Unique(s)
    ensures Lookup(Without(s, key), other) == if other == key then None else Lookup(s, other)
  {
    if s != [] {
      if s[0].key == key {
        if other == key {
          LookupNone(s[1..], key);
        }
      } else {
        WithoutLookup(s[1..], key, other);
      }
    }
  }

  lemma {:induction false} WithoutUnique<K, V>(s: seq<Entry<K, V>>, key: K)
    requires Unique(s)
    ensures Unique(Without(s, key))
    ensures forall e :: e in Without(s, key) ==> e in s && e.key != key
  {
    if s != [] && s[0].key != key {
      WithoutUnique(s[1..], key);
    }
  }

  /** A cut keeps the most recent entries: what it still finds is unchanged, what it forgets was cut off. */
  lemma {:induction false} PrefixLookup<K, V>(s: seq<Entry<K, V>>, n: nat, key: K)
    requires n <= |s| && Unique(s)
    ensures Lookup(s[..n], key) == if exists i :: 0 <= i < n && s[i].key == key then Lookup(s, key) else None
  {
    if n > 0 {
      if s[0].key != key {
        PrefixLookup(s[1..], n - 1, key);
        assert s[..n][1..] == s[1..][..n - 1];
        assert forall i :: 0 <= i < n - 1 ==> s[1..][i] == s[i + 1];
        if i :| 0 <= i < n && s[i].key == key {
          assert s[1..][i - 1].key == key;
        }
      }
    }
  }

  lemma ReplaceUnique<K, V>(s: seq<Entry<K, V>>, key: K, value: V)
    requires Unique(s)
    ensures Unique(Replace(s, key, value))
  {
    hide Without;
    WithoutUnique(s, key);
    var rest := Without(s, key);
    assert forall j :: 0 <= j < |rest| ==> rest[j] in rest;
  }

  // -------------------------------------------------------------------------------------------
  // Cutting back to a number of bytes
  // -------------------------------------------------------------------------------------------

  type Payloads<K> = seq<Entry<K, seq<bv8>>>

  function Bytes<K>(s: Payloads<K>): nat {
    if s == [] then 0 else Bytes(s[..|s| - 1]) + |s[|s| - 1].value|
  }

  /** Drops least recent entries while the rest is too large. */
  function Fit<K>(s: Payloads<K>, max: nat): (r: Payloads<K>)
    ensures r <= s && Bytes(r) <= max
  {
    if Bytes(s) <= max then s else Fit(s[..|s| - 1], max)
  }

  /** Nothing is evicted that could have stayed: every longer prefix is too large. */
  lemma {:induction false} FitLongest<K>(s: Payloads<K>, max: nat, n: nat)
    requires |Fit(s, max)| < n <= |s|
    ensures Bytes(s[..n]) > max
  {
    if Bytes(s) > max {
      if n == |s| {
        assert s[..n] == s;
      } else {
        FitLongest(s[..|s| - 1], max, n);
        assert s[..|s| - 1][..n] == s[..n];
      }
    }
  }

  lemma {:induction false} BytesAppend<K>(a: Payloads<K>, b: Payloads<K>)
    ensures Bytes(a + b) == Bytes(a) + Bytes(b)
    decreases |b|
  {
    if b == [] {
      assert a + b == a;
    } else {
      BytesAppend(a, b[..|b| - 1]);
      assert (a + b)[..|a + b| - 1] == a + b[..|b| - 1];
    }
  }

  lemma BytesOne<K>(e: Entry<K, seq<bv8>>)
    ensures Bytes([e]) == |e.value|
  {
    assert [e][..0] == [];
  }

  /** What a byte-bounded put leaves. */
  function PutSized<K(==)>(s: Payloads<K>, max: nat, key: K, value: seq<bv8>): Payloads<K> {
    if |value| > max then Without(s, key) else Fit(Replace(s, key, value), max)
  }

  /** The entry just put survives eviction; a value too large for the cache leaves no stale one behind. */
  lemma PutSizedLookup<K>(s: Payloads<K>, max: nat, key: K, value: seq<bv8>)
    requires Unique(s)
    ensures Lookup(PutSized(s, max, key, value), key) == if |value| > max then None else Some(value)
  {
    if |value| > max {
      WithoutLookup(s, key, key);
    } else {
      var r := Replace(s, key, value);
      BytesOne(Entry(key, value));
      assert r[..1] == [Entry(key, value)];
      if |Fit(r, max)| < 1 {
        FitLongest(r, max, 1);
      }
    }
  }

  /** A put never brings back or changes another key: it is either untouched or evicted. */
  lemma PutSizedOthers<K>(s: Payloads<K>, max: nat, key: K, value: seq<bv8>, other: K)
    requires Unique(s) && other != key
    ensures Lookup(PutSized(s, max, key, value), other) in {None, Lookup(s, other)}
    ensures Unique(PutSized(s, max, key, value))
  {
    hide Without, Fit, Bytes;
    WithoutLookup(s, key, other);
    WithoutUnique(s, key);
    if |value| <= max {
      var r := Replace(s, key, value);
      assert r[1..] == Without(s, key);
      ReplaceUnique(s, key, value);
      PrefixLookup(r, |Fit(r, max)|, other);
      assert Fit(r, max) == r[..|Fit(r, max)|];
    }
  }

  /** Put on a count-bounded cache. */
  function PutCounted<K(==), V>(s: seq<Entry<K, V>>, capacity: nat, key: K, value: V): seq<Entry<K, V>> {
    Take(Replace(s, key, value), capacity)
  }

  function AddCounted<K(==), V>(s: seq<Entry<K, V>>, capacity: nat, key: K, value: V): seq<Entry<K, V>> {
    Take(Ensure(s, key, value), capacity)
  }

  /** Adding never overwrites, and when the key was absent it does what putting does. */
  lemma AddNeverOverwrites<K, V>(s: seq<Entry<K, V>>, capacity: nat, key: K, value: V)
    requires Unique(s) && capacity >= 1
    ensures Lookup(AddCounted(s, capacity, key, value), key)
            == Some(if Lookup(s, key).Some? then Lookup(s, key).value else value)
    ensures Lookup(s, key).None? ==> AddCounted(s, capacity, key, value) == PutCounted(s, capacity, key, value)
  {
    if Lookup(s, key).None? {
      WithoutAbsent(s, key);
    }
  }

  lemma {:induction false} WithoutAbsent<K, V>(s: seq<Entry<K, V>>, key: K)
    requires Lookup(s, key).None?
    ensures Without(s, key) == s
  {
    if s != [] {
      WithoutAbsent(s[1..], key);
    }
  }
}
