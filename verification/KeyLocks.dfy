/**
 Per-key locks that exist only while someone is registered for the key. Any number of threads register,
 lock, unlock and deregister in any order; entries are deleted and created again under the same key.
 */
module KeyLocks {
  import opened Threads

  type Lock = nat

  datatype Thread =
    | Out
    | Waiting(key: string, lock: Lock)    // registered, not yet inside
    | Holding(key: string, lock: Lock)    // inside
    | Leaving(key: string, lock: Lock)    // unlocked, still registered

  /** The lock map, each lock object's reference count and whether its mutex is taken. */
  datatype State = State(
    keyLocks: map<string, Lock>, refs: map<Lock, int>, taken: set<Lock>, threads: seq<Thread>, next: Lock)

  datatype Event = Register(key: string) | Acquire | Unlock | Deregister

  predicate Enabled(s: State, t: Thread, e: Event) {
    match e
    case Register(_) => t.Out?
    case Acquire => t.Waiting? && t.lock !in s.taken
    case Unlock => t.Holding?
    case Deregister => t.Leaving? && t.lock in s.refs
  }

  function Counted(refs: map<Lock, int>, lock: Lock): int { if lock in refs then refs[lock] else 0 }

  /** The lock a registering thread finds or creates. */
  function LockFor(s: State, key: string): Lock {
    if key in s.keyLocks then s.keyLocks[key] else s.next
  }

  function Apply(s: State, t: Thread, e: Event): (State, Thread)
    requires Enabled(s, t, e)
  {
    match e
    case Register(key) =>
      var lock := LockFor(s, key);
      (s.(keyLocks := s.keyLocks[key := lock], refs := s.refs[lock := Counted(s.refs, lock) + 1],
          next := if key in s.keyLocks then s.next else s.next + 1),
       Waiting(key, lock))
    case Acquire => (s.(taken := s.taken + {t.lock}), Holding(t.key, t.lock))
    case Unlock => (s.(taken := s.taken - {t.lock}), Leaving(t.key, t.lock))
    case Deregister =>
      var left := s.refs[t.lock] - 1;
      (s.(refs := s.refs[t.lock := left], keyLocks := if left == 0 then s.keyLocks - {t.key} else s.keyLocks), Out)
  }

  ghost predicate Step(s: State, i: nat, e: Event, s': State) {
    && i < |s.threads|
    && Enabled(s, s.threads[i], e)
    && s' == Apply(s, s.threads[i], e).0.(threads := s.threads[i := Apply(s, s.threads[i], e).1])
  }

  predicate Registered(t: Thread, key: string) { !t.Out? && t.key == key }

  /** Whether a thread is registered for the key, as a number to be summed. */
  ghost function RegisteredOf(key: string): Thread -> nat {
    (t: Thread) => if Registered(t, key) then 1 else 0
  }

  ghost function HoldingOf(key: string): Thread -> nat {
    (t: Thread) => if t.Holding? && t.key == key then 1 else 0
  }

  ghost predicate Shared(s: State, t: Thread) {
    !t.Out? ==> t.key in s.keyLocks && s.keyLocks[t.key] == t.lock
  }

  /** Everything about one key. */
  ghost predicate KeyInv(s: State, key: string) {
    && (key in s.keyLocks <==> Total(s.threads, RegisteredOf(key)) > 0)
    && (key in s.keyLocks ==>
          && Counted(s.refs, s.keyLocks[key]) == Total(s.threads, RegisteredOf(key))
          && s.keyLocks[key] < s.next
          && Total(s.threads, HoldingOf(key)) == if s.keyLocks[key] in s.taken then 1 else 0)
    && (key !in s.keyLocks ==> Total(s.threads, HoldingOf(key)) == 0)
  }

  ghost predicate Inv(s: State) {
    && (forall key :: KeyInv(s, key))
    && (forall t :: t in s.threads ==> Shared(s, t))
    && (forall k, l :: k in s.keyLocks && l in s.keyLocks && k != l ==> s.keyLocks[k] != s.keyLocks[l])
    && (forall l :: l in s.refs || l in s.taken ==> l < s.next)
    && (forall l :: l in s.taken ==> exists k :: k in s.keyLocks && s.keyLocks[k] == l)
  }

  ghost predicate Initial(s: State) {
    s.keyLocks == map[] && s.refs == map[] && s.taken == {} && forall t :: t in s.threads ==> t.Out?
  }

  lemma InitialHolds(s: State)
    requires Initial(s)
    ensures Inv(s)
  {
    forall key ensures KeyInv(s, key) {
      assert forall i :: 0 <= i < |s.threads| ==> s.threads[i] in s.threads;
      TotalZero(s.threads, RegisteredOf(key));
      TotalZero(s.threads, HoldingOf(key));
    }
  }

  /** Registering threads are counted where they register and nowhere else. */
  lemma KeepsKey(s: State, i: nat, e: Event, s': State, key: string)
    requires Inv(s) && Step(s, i, e, s')
    ensures KeyInv(s', key)
  {
    hide Total;
    var t, t' := s.threads[i], s'.threads[i];
    assert t in s.threads;
    assert Shared(s, t);
    assert KeyInv(s, key);
    assert !t.Out? ==> KeyInv(s, t.key);
    TotalUpdate(s.threads, RegisteredOf(key), i, t');
    TotalUpdate(s.threads, HoldingOf(key), i, t');
    TotalAtLeast(s.threads, HoldingOf(key), i);
    HoldingWithin(s'.threads, key);
    match e
    case Register(k) =>
      assert KeyInv(s, k);
    case Acquire =>
    case Unlock =>
    case Deregister =>
  }

  /** Whoever holds a key is registered for it. */
  lemma {:induction false} HoldingWithin(ts: seq<Thread>, key: string)
    ensures Total(ts, HoldingOf(key)) <= Total(ts, RegisteredOf(key))
  {
    if ts != [] {
      HoldingWithin(ts[..|ts| - 1], key);
    }
  }

  /** A thread's lock stays the one in the map for as long as the thread is registered. */
  lemma KeepsShared(s: State, i: nat, e: Event, s': State, j: nat)
    requires Inv(s) && Step(s, i, e, s') && j < |s.threads|
    ensures Shared(s', s'.threads[j])
  {
    hide Total, KeyInv;
    var t, u := s.threads[i], s.threads[j];
    assert t in s.threads && u in s.threads;
    assert Shared(s, t) && Shared(s, u);
    if e.Deregister? && i != j && !u.Out? && u.key == t.key {
      OthersCounted(s, i, j);
    }
  }

  /** While another thread is registered for the key, leaving it does not drop the lock. */
  lemma OthersCounted(s: State, i: nat, j: nat)
    requires Inv(s) && i < |s.threads| && j < |s.threads| && i != j
    requires !s.threads[i].Out? && Registered(s.threads[j], s.threads[i].key)
    ensures Counted(s.refs, s.threads[i].lock) >= 2
  {
    var key := s.threads[i].key;
    assert s.threads[i] in s.threads && Shared(s, s.threads[i]) && KeyInv(s, key);
    if i < j {
      TotalAtLeastTwo(s.threads, RegisteredOf(key), i, j);
    } else {
      TotalAtLeastTwo(s.threads, RegisteredOf(key), j, i);
    }
  }

  /** Different keys never share a lock, and a lock name is never used twice. */
  lemma KeepsNames(s: State, i: nat, e: Event, s': State)
    requires Inv(s) && Step(s, i, e, s')
    ensures forall k, l :: k in s'.keyLocks && l in s'.keyLocks && k != l ==> s'.keyLocks[k] != s'.keyLocks[l]
    ensures forall l :: l in s'.refs || l in s'.taken ==> l < s'.next
  {
    hide Total;
    var t := s.threads[i];
    assert t in s.threads && Shared(s, t);
    forall k | k in s.keyLocks ensures s.keyLocks[k] < s.next {
      assert KeyInv(s, k);
    }
    assert !t.Out? ==> t.lock < s.next;
  }

  /** A taken mutex belongs to a key somebody holds. */
  lemma KeepsTaken(s: State, i: nat, e: Event, s': State, lock: Lock)
    requires Inv(s) && Step(s, i, e, s') && lock in s'.taken
    ensures exists k :: k in s'.keyLocks && s'.keyLocks[k] == lock
  {
    hide Total;
    var t := s.threads[i];
    assert t in s.threads && Shared(s, t);
    if e.Acquire? && lock == t.lock {
      assert s'.keyLocks[t.key] == lock;
    } else {
      var k :| k in s.keyLocks && s.keyLocks[k] == lock;
      if k in s'.keyLocks {
        assert s'.keyLocks[k] == lock;
      } else {
        assert KeyInv(s, k);
        KeepsKey(s, i, e, s', k);
        TotalUpdate(s.threads, HoldingOf(k), i, s'.threads[i]);
      }
    }
  }

  /** Every step of every thread keeps the invariant. */
  lemma KeepsStep(s: State, i: nat, e: Event, s': State)
    requires Inv(s) && Step(s, i, e, s')
    ensures Inv(s')
  {
    hide KeyInv, Shared, Step;
    forall key ensures KeyInv(s', key) {
      KeepsKey(s, i, e, s', key);
    }
    StepThreads(s, i, e, s');
    forall t | t in s'.threads ensures Shared(s', t) {
      var j :| 0 <= j < |s'.threads| && s'.threads[j] == t;
      KeepsShared(s, i, e, s', j);
    }
    KeepsNames(s, i, e, s');
    forall l | l in s'.taken ensures exists k :: k in s'.keyLocks && s'.keyLocks[k] == l {
      KeepsTaken(s, i, e, s', l);
    }
  }

  lemma StepThreads(s: State, i: nat, e: Event, s': State)
    requires Step(s, i, e, s')
    ensures |s'.threads| == |s.threads|
  {
  }

  datatype Move = Move(thread: nat, event: Event)

  ghost predicate Run(states: seq<State>, moves: seq<Move>) {
    && |states| == |moves| + 1
    && Initial(states[0])
    && forall k :: 0 <= k < |moves| ==> Step(states[k], moves[k].thread, moves[k].event, states[k + 1])
  }

  lemma {:induction false} RunKeeps(states: seq<State>, moves: seq<Move>, k: nat)
    requires Run(states, moves) && k < |states|
    ensures Inv(states[k])
  {
    hide Step, Inv, Initial;
    if k == 0 {
      InitialHolds(states[0]);
    } else {
      RunKeeps(states, moves, k - 1);
      KeepsStep(states[k - 1], moves[k - 1].thread, moves[k - 1].event, states[k]);
    }
  }

  // -------------------------------------------------------------------------------------------
  // What follows in every reachable state
  // -------------------------------------------------------------------------------------------

  /** At most one thread is inside a key, also across deletion and re-creation of its lock. */
  lemma MutualExclusion(s: State, i: nat, j: nat)
    requires Inv(s) && i < j < |s.threads| && s.threads[i].Holding? && s.threads[j].Holding?
    ensures s.threads[i].key != s.threads[j].key
  {
    var key := s.threads[i].key;
    if s.threads[j].key == key {
      assert KeyInv(s, key);
      TotalAtLeastTwo(s.threads, HoldingOf(key), i, j);
    }
  }

  /** All threads registered for a key use one lock, the one in the map. */
  lemma OneLockPerKey(s: State, i: nat, j: nat)
    requires Inv(s) && i < |s.threads| && j < |s.threads|
    requires !s.threads[i].Out? && !s.threads[j].Out? && s.threads[i].key == s.threads[j].key
    ensures s.threads[i].lock == s.threads[j].lock && s.threads[i].key in s.keyLocks
  {
    assert s.threads[i] in s.threads && s.threads[j] in s.threads;
    assert Shared(s, s.threads[i]) && Shared(s, s.threads[j]);
  }

  /** The map holds exactly the keys somebody is registered for: nothing leaks. */
  lemma DomainExact(s: State, key: string)
    requires Inv(s)
    ensures key in s.keyLocks <==> exists i :: 0 <= i < |s.threads| && Registered(s.threads[i], key)
  {
    assert KeyInv(s, key);
    TotalZero(s.threads, RegisteredOf(key));
    if i :| 0 <= i < |s.threads| && Registered(s.threads[i], key) {
      assert RegisteredOf(key)(s.threads[i]) == 1;
    }
  }

  /** A thread that has unlocked can always deregister. */
  lemma LeavingNeverStuck(s: State, i: nat)
    requires Inv(s) && i < |s.threads| && s.threads[i].Leaving?
    ensures Enabled(s, s.threads[i], Deregister)
  {
    var t := s.threads[i];
    assert t in s.threads && Shared(s, t) && KeyInv(s, t.key);
  }
}
