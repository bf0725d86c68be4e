/**
 What "least recently used" means over whole runs of either cache: entries stand in the order of their last
 use, whatever is evicted was used before everything that stays, and a found value is the last one stored.
 */
module RecencyRuns {
  import opened Options
  import opened Recency

  datatype Op<K, V> = Get(key: K) | Put(key: K, value: V) | Add(key: K, value: V) | Remove(key: K)

  /** A cache and its operations from the start, eviction being a cut at the end. */
  datatype Run<K, V> = Run(states: seq<seq<Entry<K, V>>>, ops: seq<Op<K, V>>)

  ghost predicate Has<K, V>(s: seq<Entry<K, V>>, key: K) {
    exists i :: 0 <= i < |s| && s[i].key == key
  }

  /** The contents after an operation, before anything is evicted. */
  function Moved<K(==), V>(s: seq<Entry<K, V>>, op: Op<K, V>): seq<Entry<K, V>> {
    match op
    case Get(key) => Touch(s, key)
    case Put(key, value) => Replace(s, key, value)
    case Add(key, value) => Ensure(s, key, value)
    case Remove(key) => Without(s, key)
  }

  ghost predicate IsRun<K(!new), V>(run: Run<K, V>) {
    && |run.states| == |run.ops| + 1 && run.states[0] == []
    && forall i :: 0 <= i < |run.ops| ==> run.states[i + 1] <= Moved(run.states[i], run.ops[i])
  }

  /** A key is used when it is stored, added or found. */
  ghost predicate Uses<K, V>(s: seq<Entry<K, V>>, op: Op<K, V>, key: K) {
    op.key == key && (op.Put? || op.Add? || (op.Get? && Has(s, key)))
  }

  /** When a key was last used within the first `n` operations; zero if never. */
  ghost function LastUse<K(!new), V>(run: Run<K, V>, n: nat, key: K): nat
    requires n <= |run.ops| && |run.states| == |run.ops| + 1
  {
    if n == 0 then 0
    else if Uses(run.states[n - 1], run.ops[n - 1], key) then n
    else LastUse(run, n - 1, key)
  }

  /** What was last stored under a key: by a put, or by an add that did not find it. */
  ghost function Stored<K(!new), V>(run: Run<K, V>, n: nat, key: K): Option<V>
    requires n <= |run.ops| && |run.states| == |run.ops| + 1
  {
    if n == 0 then None
    else
      var s, op := run.states[n - 1], run.ops[n - 1];
      if op.key == key && (op.Put? || (op.Add? && !Has(s, key))) then Some(op.value) else Stored(run, n - 1, key)
  }

  /** Entries in the order of their last use, most recent first, each with the value last stored. */
  ghost predicate InOrder<K(!new), V>(run: Run<K, V>, n: nat, s: seq<Entry<K, V>>)
    requires n <= |run.ops| && |run.states| == |run.ops| + 1
  {
    && (forall i, j :: 0 <= i < j < |s| ==> LastUse(run, n, s[i].key) > LastUse(run, n, s[j].key))
    && (forall i :: 0 <= i < |s| ==> 0 < LastUse(run, n, s[i].key) <= n)
    && forall i :: 0 <= i < |s| ==> Stored(run, n, s[i].key) == Some(s[i].value)
  }

  lemma {:induction false} Find<K, V>(s: seq<Entry<K, V>>, key: K) returns (i: nat)
    requires Unique(s)
    ensures Has(s, key) <==> Lookup(s, key).Some?
    ensures if Has(s, key) then i < |s| && s[i].key == key && Lookup(s, key) == Some(s[i].value) &&
                                Without(s, key) == Removed(s, i)
            else Without(s, key) == s
  {
    i := 0;
    if Has(s, key) {
      i :| 0 <= i < |s| && s[i].key == key;
      LookupAt(s, i);
    } else {
      LookupNone(s, key);
    }
  }

  /** The entries an operation leaves where they are, in their order. */
  ghost predicate Apart<K, V>(s: seq<Entry<K, V>>, key: K, rest: seq<Entry<K, V>>) {
    if Has(s, key) then exists i :: 0 <= i < |s| && s[i].key == key && rest == Removed(s, i) else rest == s
  }

  /** The value an operation leaves under the key it uses. */
  ghost function Left<K, V>(s: seq<Entry<K, V>>, op: Op<K, V>): Option<V> {
    if op.Put? || (op.Add? && !Has(s, op.key)) then Some(op.value) else Lookup(s, op.key)
  }

  /** An operation puts the key it uses in front and leaves the order of the others. */
  lemma MovedShape<K, V>(s: seq<Entry<K, V>>, op: Op<K, V>) returns (rest: seq<Entry<K, V>>)
    requires Unique(s)
    ensures Apart(s, op.key, rest)
    ensures Uses(s, op, op.key) ==> Left(s, op).Some? && Moved(s, op) == [Entry(op.key, Left(s, op).value)] + rest
    ensures !Uses(s, op, op.key) ==> Moved(s, op) == rest
  {
    var i := Find(s, op.key);
    rest := if Has(s, op.key) then Removed(s, i) else s;
  }

  lemma UniqueOrder<K(!new), V>(run: Run<K, V>, n: nat, s: seq<Entry<K, V>>)
    requires n <= |run.ops| && |run.states| == |run.ops| + 1 && InOrder(run, n, s)
    ensures Unique(s)
  {
    forall i, j | 0 <= i < j < |s| ensures s[i].key != s[j].key {
      assert LastUse(run, n, s[i].key) > LastUse(run, n, s[j].key);
    }
  }

  /** Other keys keep their last use and their value. */
  lemma OthersKeep<K(!new), V>(run: Run<K, V>, n: nat, key: K)
    requires n < |run.ops| && |run.states| == |run.ops| + 1 && !Uses(run.states[n], run.ops[n], key)
    ensures LastUse(run, n + 1, key) == LastUse(run, n, key) && Stored(run, n + 1, key) == Stored(run, n, key)
  {
  }

  lemma ApartInOrder<K(!new), V>(run: Run<K, V>, n: nat, s: seq<Entry<K, V>>, key: K, rest: seq<Entry<K, V>>)
    requires n <= |run.ops| && |run.states| == |run.ops| + 1 && InOrder(run, n, s) && Apart(s, key, rest)
    ensures InOrder(run, n, rest) && forall i :: 0 <= i < |rest| ==> rest[i].key != key
  {
    hide LastUse, Stored;
    UniqueOrder(run, n, s);
    if Has(s, key) {
      var at :| 0 <= at < |s| && s[at].key == key && rest == Removed(s, at);
      RemovedInOrder(run, n, s, at);
    }
  }

  lemma RemovedInOrder<K(!new), V>(run: Run<K, V>, n: nat, s: seq<Entry<K, V>>, at: nat)
    requires n <= |run.ops| && |run.states| == |run.ops| + 1 && InOrder(run, n, s) && at < |s|
    ensures InOrder(run, n, Removed(s, at))
  {
    hide LastUse, Stored;
    var rest := Removed(s, at);
    forall i, j | 0 <= i < j < |rest| ensures LastUse(run, n, rest[i].key) > LastUse(run, n, rest[j].key) {
      var k, l := if i < at then i else i + 1, if j < at then j else j + 1;
      assert rest[i] == s[k] && rest[j] == s[l] && k < l;
    }
  }

  lemma RestInOrder<K(!new), V>(run: Run<K, V>, n: nat, rest: seq<Entry<K, V>>)
    requires n < |run.ops| && |run.states| == |run.ops| + 1 && InOrder(run, n, rest)
    requires forall i :: 0 <= i < |rest| ==> rest[i].key != run.ops[n].key
    ensures InOrder(run, n + 1, rest)
  {
    hide LastUse, Stored, Uses;
    forall i | 0 <= i < |rest|
      ensures LastUse(run, n + 1, rest[i].key) == LastUse(run, n, rest[i].key)
      ensures Stored(run, n + 1, rest[i].key) == Stored(run, n, rest[i].key)
    {
      OtherUnused(run.states[n], run.ops[n], rest[i].key);
      OthersKeep(run, n, rest[i].key);
    }
  }

  lemma OtherUnused<K, V>(s: seq<Entry<K, V>>, op: Op<K, V>, key: K)
    requires key != op.key
    ensures !Uses(s, op, key)
  {
  }

  /** The used key is now the most recent one. */
  lemma UsedNow<K(!new), V>(run: Run<K, V>, n: nat)
    requires n < |run.ops| && |run.states| == |run.ops| + 1 && InOrder(run, n, run.states[n])
    requires Uses(run.states[n], run.ops[n], run.ops[n].key)
    ensures LastUse(run, n + 1, run.ops[n].key) == n + 1
    ensures Stored(run, n + 1, run.ops[n].key) == Left(run.states[n], run.ops[n])
  {
    UniqueOrder(run, n, run.states[n]);
    var i := Find(run.states[n], run.ops[n].key);
  }

  lemma MovedInOrder<K(!new), V>(run: Run<K, V>, n: nat)
    requires n < |run.ops| && |run.states| == |run.ops| + 1 && InOrder(run, n, run.states[n])
    ensures InOrder(run, n + 1, Moved(run.states[n], run.ops[n]))
  {
    hide LastUse, Stored, Uses, Left, Moved, Apart;
    var s, op := run.states[n], run.ops[n];
    UniqueOrder(run, n, s);
    var rest := MovedShape(s, op);
    ApartInOrder(run, n, s, op.key, rest);
    FrontInOrder(run, n, rest);
    RestInOrder(run, n, rest);
    if Uses(s, op, op.key) {
      UsedNow(run, n);
    }
  }

  lemma FrontInOrder<K(!new), V>(run: Run<K, V>, n: nat, rest: seq<Entry<K, V>>)
    requires n < |run.ops| && |run.states| == |run.ops| + 1 && InOrder(run, n, rest)
    requires forall i :: 0 <= i < |rest| ==> rest[i].key != run.ops[n].key
    ensures forall i :: 0 <= i < |rest| ==> LastUse(run, n + 1, rest[i].key) <= n
  {
    hide LastUse, Stored, Uses;
    forall i | 0 <= i < |rest| ensures LastUse(run, n + 1, rest[i].key) <= n {
      OtherUnused(run.states[n], run.ops[n], rest[i].key);
      OthersKeep(run, n, rest[i].key);
    }
  }

  lemma CutInOrder<K(!new), V>(run: Run<K, V>, n: nat, s: seq<Entry<K, V>>, cut: seq<Entry<K, V>>)
    requires n <= |run.ops| && |run.states| == |run.ops| + 1 && InOrder(run, n, s) && cut <= s
    ensures InOrder(run, n, cut)
  {
    hide LastUse, Stored;
    assert forall i :: 0 <= i < |cut| ==> cut[i] == s[i];
  }

  /** In every run, a cache holds its entries in the order of their last use, with the values last stored. */
  lemma {:induction false} OrderedByUse<K(!new), V>(run: Run<K, V>, n: nat)
    requires IsRun(run) && n <= |run.ops|
    ensures InOrder(run, n, run.states[n]) && Unique(run.states[n])
  {
    hide InOrder, Moved;
    if n == 0 {
      NothingInOrder(run);
    } else {
      OrderedByUse(run, n - 1);
      MovedInOrder(run, n - 1);
      CutInOrder(run, n, Moved(run.states[n - 1], run.ops[n - 1]), run.states[n]);
    }
    UniqueOrder(run, n, run.states[n]);
  }

  lemma NothingInOrder<K(!new), V>(run: Run<K, V>)
    requires |run.states| == |run.ops| + 1
    ensures InOrder(run, 0, [])
  {
  }

  /** What an operation evicts was last used before everything that stays. */
  lemma EvictsOldest<K(!new), V>(run: Run<K, V>, n: nat, key: K, other: K)
    requires IsRun(run) && n < |run.ops| && run.ops[n] != Op.Remove(key)
    requires Has(run.states[n], key) && !Has(run.states[n + 1], key) && Has(run.states[n + 1], other)
    ensures LastUse(run, n + 1, key) < LastUse(run, n + 1, other)
  {
    hide LastUse, Stored, Uses, Left, Moved, Removed;
    var s, op, after := run.states[n], run.ops[n], run.states[n + 1];
    OrderedByUse(run, n);
    MovedInOrder(run, n);
    var all := Moved(s, op);
    StillThere(s, op, key);
    var i :| 0 <= i < |all| && all[i].key == key;
    var j :| 0 <= j < |after| && after[j].key == other;
    assert after[j] == all[j];
    CutHas(all, after, i);
  }

  lemma CutHas<K, V>(s: seq<Entry<K, V>>, cut: seq<Entry<K, V>>, i: nat)
    requires cut <= s && i < |s|
    ensures i < |cut| ==> Has(cut, s[i].key)
  {
    assert i < |cut| ==> cut[i] == s[i];
  }

  lemma ApartKeeps<K, V>(s: seq<Entry<K, V>>, key: K, rest: seq<Entry<K, V>>, other: K)
    requires Apart(s, key, rest) && Has(s, other) && other != key
    ensures Has(rest, other)
  {
    var i :| 0 <= i < |s| && s[i].key == other;
    if Has(s, key) {
      var at :| 0 <= at < |s| && s[at].key == key && rest == Removed(s, at);
      assert rest[if i < at then i else i - 1] == s[i];
    }
  }

  lemma HasBehind<K, V>(e: Entry<K, V>, rest: seq<Entry<K, V>>, key: K)
    requires Has(rest, key)
    ensures Has([e] + rest, key)
  {
    var i :| 0 <= i < |rest| && rest[i].key == key;
    assert ([e] + rest)[i + 1] == rest[i];
  }

  /** Nothing but a removal takes a key out before eviction. */
  lemma StillThere<K, V>(s: seq<Entry<K, V>>, op: Op<K, V>, key: K)
    requires Unique(s) && Has(s, key) && op != Op.Remove(key)
    ensures Has(Moved(s, op), key)
  {
    hide Moved, Apart, Left;
    var rest := MovedShape(s, op);
    if key == op.key {
      assert Uses(s, op, op.key) && Moved(s, op)[0].key == key;
    } else {
      ApartKeeps(s, op.key, rest, key);
      if Uses(s, op, op.key) {
        HasBehind(Entry(op.key, Left(s, op).value), rest, key);
      }
    }
  }

  // -------------------------------------------------------------------------------------------
  // The two caches
  // -------------------------------------------------------------------------------------------

  /** One operation on a count-bounded cache. */
  function CountedStep<K(==), V>(s: seq<Entry<K, V>>, capacity: nat, op: Op<K, V>): seq<Entry<K, V>> {
    match op
    case Get(key) => Touch(s, key)
    case Put(key, value) => PutCounted(s, capacity, key, value)
    case Add(key, value) => AddCounted(s, capacity, key, value)
    case Remove(key) => Without(s, key)
  }

  /** It cuts only what is beyond the capacity. */
  lemma CountedCuts<K, V>(s: seq<Entry<K, V>>, capacity: nat, op: Op<K, V>)
    requires Unique(s) && |s| <= capacity
    ensures CountedStep(s, capacity, op) <= Moved(s, op) && |CountedStep(s, capacity, op)| <= capacity
    ensures CountedStep(s, capacity, op) != Moved(s, op) ==> |CountedStep(s, capacity, op)| == capacity
  {
    hide Touch, Replace, Ensure, Without;
    MovedFits(s, op);
  }

  lemma MovedFits<K, V>(s: seq<Entry<K, V>>, op: Op<K, V>)
    requires Unique(s)
    ensures |Moved(s, op)| <= |s| + 1 && (op.Get? || op.Remove? ==> |Moved(s, op)| <= |s|)
  {
    var i := Find(s, op.key);
  }

  /** A byte-bounded cache does the same, except that a value too large for it removes its key. */
  lemma SizedCuts<K>(s: Payloads<K>, max: nat, key: K, value: seq<bv8>)
    ensures var after := PutSized(s, max, key, value);
            var op := if |value| > max then Op.Remove(key) else Op.Put(key, value);
            && after <= Moved(s, op)
            && forall n :: |after| < n <= |Moved(s, op)| && op.Put? ==> Bytes(Moved(s, op)[..n]) > max
  {
    if |value| <= max {
      var moved := Replace(s, key, value);
      forall n | |Fit(moved, max)| < n <= |moved| ensures Bytes(moved[..n]) > max {
        FitLongest(moved, max, n);
      }
    }
  }
}
