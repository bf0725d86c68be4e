/**
 The pool of analyzer backends as a protocol: any number of threads acquire, spawn, release, discard
 and reap at the same time, one channel operation or process event per step. `KeepsStep` says what
 every step keeps, `RunKeeps` what every run reaches.
 */
module BackendPool {
  import opened Threads

  type Backend = nat

  /** Where a thread returns to when it has discarded a backend. */
  datatype Resume = ToCaller | ToDrain | ToRefill

  datatype Phase =
    | Out                                // not using the pool
    | AskIdle | AskSlot | Wait           // the three selects of an acquire
    | Spawning                           // holds a slot token, no process yet
    | Starting(b: Backend)               // process started, not ready yet
    | Unready(b: Backend)                // start failed, process not closed yet
    | Holding(b: Backend)                // acquired
    | Releasing(b: Backend)              // about to offer the backend to `idle`
    | Discarding(b: Backend, back: Resume)  // about to close the process
    | Returning(back: Resume)            // process closed, about to give the slot back
    | Draining | Refilling               // the two loops of a reap

  /** A thread and the backends its reap has set aside. */
  datatype Thread = Thread(phase: Phase, keep: seq<Backend>)

  datatype State = State(idle: seq<Backend>, slots: nat, live: set<Backend>, threads: seq<Thread>, next: Backend)

  datatype Event =
    | Enter | TakeIdle | NoIdle | TakeSlot | NoSlot | Cancel
    | SpawnFails | Start | Ready | NotReady | CloseUnready
    | Release | Fail | Offer | Overflow
    | Close | ReturnSlot
    | Reap | Expire | SetAside | Drained | PutBack | PutBackOverflow | Refilled
    | Dies(b: Backend)

  predicate Enabled(max: nat, s: State, t: Thread, e: Event) {
    match e
    case Enter => t.phase.Out?
    case TakeIdle => (t.phase.AskIdle? || t.phase.Wait?) && s.idle != []
    case NoIdle => t.phase.AskIdle? && s.idle == []
    case TakeSlot => (t.phase.AskSlot? || t.phase.Wait?) && s.slots > 0
    case NoSlot => t.phase.AskSlot? && s.slots == 0
    case Cancel => t.phase.Wait? || t.phase.Out?
    case SpawnFails => t.phase.Spawning?
    case Start => t.phase.Spawning?
    case Ready => t.phase.Starting?
    case NotReady => t.phase.Starting?
    case CloseUnready => t.phase.Unready?
    case Release => t.phase.Holding?
    case Fail => t.phase.Holding?
    case Offer => t.phase.Releasing? && |s.idle| < max
    case Overflow => t.phase.Releasing? && |s.idle| == max
    case Close => t.phase.Discarding?
    case ReturnSlot => t.phase.Returning? && s.slots < max
    case Reap => t.phase.Out?
    case Expire => t.phase.Draining? && s.idle != []
    case SetAside => t.phase.Draining? && s.idle != []
    case Drained => t.phase.Draining? && s.idle == []
    case PutBack => t.phase.Refilling? && t.keep != [] && |s.idle| < max
    case PutBackOverflow => t.phase.Refilling? && t.keep != [] && |s.idle| == max
    case Refilled => t.phase.Refilling? && t.keep == []
    case Dies(_) => true
  }

  function Resumed(back: Resume): Phase {
    match back
    case ToCaller => Out
    case ToDrain => Draining
    case ToRefill => Refilling
  }

  /** What an enabled event makes of the thread and of the shared channels and processes. */
  function Apply(max: nat, s: State, t: Thread, e: Event): (State, Thread)
    requires Enabled(max, s, t, e)
  {
    match e
    case Enter => (s, t.(phase := AskIdle))
    case TakeIdle => (s.(idle := s.idle[1..]), t.(phase := Holding(s.idle[0])))
    case NoIdle => (s, t.(phase := AskSlot))
    case TakeSlot => (s.(slots := s.slots - 1), t.(phase := Spawning))
    case NoSlot => (s, t.(phase := Wait))
    case Cancel => (s, t.(phase := Out))
    case SpawnFails => (s, t.(phase := Returning(ToCaller)))
    case Start => (s.(live := s.live + {s.next}, next := s.next + 1), t.(phase := Starting(s.next)))
    case Ready => (s, t.(phase := Holding(t.phase.b)))
    case NotReady => (s, t.(phase := Unready(t.phase.b)))
    case CloseUnready => (s.(live := s.live - {t.phase.b}), t.(phase := Returning(ToCaller)))
    case Release => (s, t.(phase := Releasing(t.phase.b)))
    case Fail => (s, t.(phase := Discarding(t.phase.b, ToCaller)))
    case Offer => (s.(idle := s.idle + [t.phase.b]), t.(phase := Out))
    case Overflow => (s, t.(phase := Discarding(t.phase.b, ToCaller)))
    case Close => (s.(live := s.live - {t.phase.b}), t.(phase := Returning(t.phase.back)))
    case ReturnSlot => (s.(slots := s.slots + 1), t.(phase := Resumed(t.phase.back)))
    case Reap => (s, t.(phase := Draining))
    case Expire => (s.(idle := s.idle[1..]), t.(phase := Discarding(s.idle[0], ToDrain)))
    case SetAside => (s.(idle := s.idle[1..]), t.(keep := t.keep + [s.idle[0]]))
    case Drained => (s, t.(phase := Refilling))
    case PutBack => (s.(idle := s.idle + [t.keep[0]]), t.(keep := t.keep[1..]))
    case PutBackOverflow => (s, Thread(Discarding(t.keep[0], ToRefill), t.keep[1..]))
    case Refilled => (s, t.(phase := Out))
    case Dies(b) => (s.(live := s.live - {b}), t)
  }

  /** Thread `i` takes one step. */
  ghost predicate Step(max: nat, s: State, i: nat, e: Event, s': State) {
    && i < |s.threads|
    && Enabled(max, s, s.threads[i], e)
    && s' == Apply(max, s, s.threads[i], e).0.(threads := s.threads[i := Apply(max, s, s.threads[i], e).1])
  }

  // -------------------------------------------------------------------------------------------
  // Tokens and places
  // -------------------------------------------------------------------------------------------

  /** The capacity a thread stands for: a slot it took, a backend it has, and the ones it set aside. */
  function Tokens(t: Thread): nat {
    |t.keep| + match t.phase
               case Out => 0
               case AskIdle => 0
               case AskSlot => 0
               case Wait => 0
               case Draining => 0
               case Refilling => 0
               case _ => 1
  }

  function Occurrences(bs: seq<Backend>, b: Backend): nat { multiset(bs)[b] }

  predicate InHand(p: Phase, b: Backend) {
    (p.Starting? || p.Unready? || p.Holding? || p.Releasing? || p.Discarding?) && p.b == b
  }

  /** How often a thread has the backend. */
  function Has(t: Thread, b: Backend): nat {
    (if InHand(t.phase, b) then 1 else 0) + Occurrences(t.keep, b)
  }

  ghost function HasOf(b: Backend): Thread -> nat { (t: Thread) => Has(t, b) }

  /** In how many places a backend is. */
  ghost function Places(s: State, b: Backend): nat {
    Occurrences(s.idle, b) + Total(s.threads, HasOf(b))
  }

  ghost predicate Conserved(max: nat, s: State) {
    s.slots + |s.idle| + Total(s.threads, Tokens) == max
  }

  /** A process is where one thread or the idle channel has it; names of backends are never reused. */
  ghost predicate OnePlaceEach(s: State) {
    && (forall b :: Places(s, b) <= 1)
    && (forall b :: b >= s.next ==> Places(s, b) == 0)
    && (forall b :: b in s.live ==> Places(s, b) == 1)
  }

  ghost predicate Inv(max: nat, s: State) {
    Conserved(max, s) && OnePlaceEach(s)
  }

  /** A new pool: every capacity token is a free slot and nobody uses the pool. */
  ghost predicate Initial(max: nat, s: State) {
    s.idle == [] && s.slots == max && s.live == {} && forall t :: t in s.threads ==> t == Thread(Out, [])
  }

  lemma InitialHolds(max: nat, s: State)
    requires Initial(max, s)
    ensures Inv(max, s)
  {
    assert forall i :: 0 <= i < |s.threads| ==> s.threads[i] in s.threads;
    TotalZero(s.threads, Tokens);
    forall b ensures Places(s, b) == 0 {
      TotalZero(s.threads, HasOf(b));
    }
  }

  /** Capacity moves between the channels and the threads; no step makes or loses any. */
  lemma KeepsTokens(max: nat, s: State, i: nat, e: Event, s': State)
    requires Conserved(max, s) && Step(max, s, i, e, s')
    ensures Conserved(max, s')
  {
    hide Total;
    TotalUpdate(s.threads, Tokens, i, s'.threads[i]);
  }

  lemma FirstApart(bs: seq<Backend>, b: Backend)
    requires bs != []
    ensures Occurrences(bs, b) == Occurrences(bs[1..], b) + (if bs[0] == b then 1 else 0)
  {
    assert bs == [bs[0]] + bs[1..];
  }

  lemma LastApart(bs: seq<Backend>, x: Backend, b: Backend)
    ensures Occurrences(bs + [x], b) == Occurrences(bs, b) + (if x == b then 1 else 0)
  {
  }

  ghost predicate Closes(t: Thread, e: Event, b: Backend) {
    (e.Close? && t.phase.Discarding? && t.phase.b == b) || (e.CloseUnready? && t.phase.Unready? && t.phase.b == b)
  }

  /** A step moves a backend, places a new one, or closes one. */
  lemma PlacesStep(max: nat, s: State, i: nat, e: Event, s': State, b: Backend)
    requires Step(max, s, i, e, s')
    ensures Places(s', b) + (if Closes(s.threads[i], e, b) then 1 else 0)
            == Places(s, b) + (if e.Start? && b == s.next then 1 else 0)
  {
    hide Occurrences, Total;
    var t := s.threads[i];
    TotalUpdate(s.threads, HasOf(b), i, s'.threads[i]);
    if s.idle != [] {
      FirstApart(s.idle, b);
      LastApart(t.keep, s.idle[0], b);
    }
    if t.keep != [] {
      FirstApart(t.keep, b);
      LastApart(s.idle, t.keep[0], b);
    }
    if t.phase.Releasing? {
      LastApart(s.idle, t.phase.b, b);
    }
  }

  /** A process lives only from its start to its closing, and names move on with every start. */
  lemma LiveStep(max: nat, s: State, i: nat, e: Event, s': State, b: Backend)
    requires Step(max, s, i, e, s')
    ensures b in s'.live ==> (b in s.live || (e.Start? && b == s.next)) && !Closes(s.threads[i], e, b)
    ensures s'.next == if e.Start? then s.next + 1 else s.next
  {
  }

  lemma KeepsPlaces(max: nat, s: State, i: nat, e: Event, s': State)
    requires OnePlaceEach(s) && Step(max, s, i, e, s')
    ensures OnePlaceEach(s')
  {
    hide Step, Places;
    forall b: Backend
      ensures Places(s', b) <= 1 && (b >= s'.next ==> Places(s', b) == 0) && (b in s'.live ==> Places(s', b) == 1)
    {
      PlacesStep(max, s, i, e, s', b);
      LiveStep(max, s, i, e, s', b);
    }
  }

  /** Every step of every thread keeps the invariant. */
  lemma KeepsStep(max: nat, s: State, i: nat, e: Event, s': State)
    requires Inv(max, s) && Step(max, s, i, e, s')
    ensures Inv(max, s')
  {
    KeepsTokens(max, s, i, e, s');
    KeepsPlaces(max, s, i, e, s');
  }

  datatype Move = Move(thread: nat, event: Event)

  /** A run: states linked by moves of any threads in any order. */
  ghost predicate Run(max: nat, states: seq<State>, moves: seq<Move>) {
    && |states| == |moves| + 1
    && Initial(max, states[0])
    && forall k :: 0 <= k < |moves| ==> Step(max, states[k], moves[k].thread, moves[k].event, states[k + 1])
  }

  /** Every state every run reaches keeps capacity and places. */
  lemma {:induction false} RunKeeps(max: nat, states: seq<State>, moves: seq<Move>, k: nat)
    requires Run(max, states, moves) && k < |states|
    ensures Inv(max, states[k])
  {
    hide Step, Inv, Initial;
    if k == 0 {
      InitialHolds(max, states[0]);
    } else {
      RunKeeps(max, states, moves, k - 1);
      KeepsStep(max, states[k - 1], moves[k - 1].thread, moves[k - 1].event, states[k]);
    }
  }

  // -------------------------------------------------------------------------------------------
  // What follows in every reachable state
  // -------------------------------------------------------------------------------------------

  /** A thread that has to give a slot back always can: the send never blocks. */
  lemma SendNeverBlocks(max: nat, s: State, i: nat)
    requires Inv(max, s) && i < |s.threads| && s.threads[i].phase.Returning?
    ensures Enabled(max, s, s.threads[i], ReturnSlot)
  {
    TotalAtLeast(s.threads, Tokens, i);
  }

  /** The defensive branches of release and reap cannot be taken. */
  lemma OverflowUnreachable(max: nat, s: State, i: nat)
    requires Inv(max, s) && i < |s.threads|
    ensures !Enabled(max, s, s.threads[i], Overflow) && !Enabled(max, s, s.threads[i], PutBackOverflow)
  {
    TotalAtLeast(s.threads, Tokens, i);
  }

  /** No thread that wants to offer a backend is ever stuck. */
  lemma OfferNeverBlocks(max: nat, s: State, i: nat)
    requires Inv(max, s) && i < |s.threads|
    ensures s.threads[i].phase.Releasing? ==> Enabled(max, s, s.threads[i], Offer)
    ensures s.threads[i].phase.Refilling? && s.threads[i].keep != [] ==> Enabled(max, s, s.threads[i], PutBack)
  {
    TotalAtLeast(s.threads, Tokens, i);
  }

  /** Two threads never have the same backend, and no thread has one that is idle. */
  lemma NeverShared(max: nat, s: State, i: nat, j: nat, b: Backend)
    requires Inv(max, s) && i < j < |s.threads|
    ensures Has(s.threads[i], b) + Has(s.threads[j], b) + Occurrences(s.idle, b) <= 1
  {
    TotalAtLeastTwo(s.threads, HasOf(b), i, j);
    assert Places(s, b) <= 1;
  }

  /** The backends of a thread, collected. */
  function Mine(t: Thread): multiset<Backend> {
    (match t.phase
     case Starting(b) => multiset{b}
     case Unready(b) => multiset{b}
     case Holding(b) => multiset{b}
     case Releasing(b) => multiset{b}
     case Discarding(b, _) => multiset{b}
     case _ => multiset{})
    + multiset(t.keep)
  }

  lemma {:induction false} CollectedCount(ts: seq<Thread>, b: Backend)
    ensures Gather(ts, Mine)[b] == Total(ts, HasOf(b))
  {
    if ts != [] {
      CollectedCount(ts[..|ts| - 1], b);
    }
  }

  lemma {:induction false} SetWithin(live: set<Backend>, m: multiset<Backend>)
    requires forall b :: b in live ==> b in m
    ensures |live| <= |m|
  {
    if live != {} {
      var b :| b in live;
      SetWithin(live - {b}, m - multiset{b});
    }
  }

  /** There are never more processes than instances allowed. */
  lemma LiveBound(max: nat, s: State)
    requires Inv(max, s)
    ensures |s.live| <= max - s.slots
  {
    var all := multiset(s.idle) + Gather(s.threads, Mine);
    forall b | b in s.live ensures b in all {
      CollectedCount(s.threads, b);
      assert Places(s, b) == 1;
    }
    SetWithin(s.live, all);
    GatherSize(s.threads, Mine, Tokens);
  }

  /** Only a thread in the middle of a reap has backends set aside. */
  predicate Reaping(p: Phase) {
    || p.Draining? || p.Refilling?
    || (p.Discarding? && !p.back.ToCaller?) || (p.Returning? && !p.back.ToCaller?)
  }

  ghost predicate EmptyHanded(s: State) {
    forall i :: 0 <= i < |s.threads| && !Reaping(s.threads[i].phase) ==> s.threads[i].keep == []
  }

  lemma KeepsEmptyHanded(max: nat, s: State, i: nat, e: Event, s': State)
    requires EmptyHanded(s) && Step(max, s, i, e, s')
    ensures EmptyHanded(s')
  {
    assert !Reaping(s'.threads[i].phase) ==> s'.threads[i].keep == [];
  }

  /** In every run, a thread that is not reaping has set nothing aside: a reap puts back or closes all it took. */
  lemma {:induction false} RunEmptyHanded(max: nat, states: seq<State>, moves: seq<Move>, k: nat)
    requires Run(max, states, moves) && k < |states|
    ensures EmptyHanded(states[k])
  {
    hide Step;
    if k == 0 {
      assert forall i :: 0 <= i < |states[0].threads| ==> states[0].threads[i] in states[0].threads;
    } else {
      RunEmptyHanded(max, states, moves, k - 1);
      KeepsEmptyHanded(max, states[k - 1], moves[k - 1].thread, moves[k - 1].event, states[k]);
    }
  }

  /** A reap ends only after it has found the idle channel empty and put back all it set aside. */
  lemma ReapEnds(max: nat, s: State, i: nat, e: Event, s': State)
    requires Step(max, s, i, e, s') && Reaping(s.threads[i].phase) && !Reaping(s'.threads[i].phase)
    ensures s.threads[i] == Thread(Refilling, []) && s'.idle == s.idle
  {
  }

  lemma RefillsOnceDrained(max: nat, s: State, i: nat, e: Event, s': State)
    requires Step(max, s, i, e, s') && s.threads[i].phase.Draining? && s'.threads[i].phase.Refilling?
    ensures s.idle == []
  {
  }

  /** In every run, when every thread is done all capacity is in the two channels again. */
  lemma Quiescent(max: nat, states: seq<State>, moves: seq<Move>, k: nat)
    requires Run(max, states, moves) && k < |states| && forall t :: t in states[k].threads ==> t.phase.Out?
    ensures states[k].slots + |states[k].idle| == max
  {
    hide Run;
    RunKeeps(max, states, moves, k);
    RunEmptyHanded(max, states, moves, k);
    var s := states[k];
    assert forall i :: 0 <= i < |s.threads| ==> s.threads[i] in s.threads;
    TotalZero(s.threads, Tokens);
  }
}
