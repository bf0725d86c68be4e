/**
 The analysis worker as a protocol: any number of handlers work on deliveries at the same time, one
 store, cache or queue operation per step, every answer of the outside world possible. `RunKeeps` says
 what every run keeps: a handler that reports success has settled its delivery exactly once, and every
 acknowledged job had its object confirmed missing or its annotation seen or written before.
 */
module Worker {
  import opened Recency

  datatype Job = Job(schemaVersion: int, digest: string, name: string, version: string, forced: bool)

  const SCHEMA_PHASE00 := 1

  /** Which sentinel errors a failure wraps. */
  datatype Failure = Failure(notExist: bool, unavailable: bool)

  datatype Settlement = Ack | Retry | Park

  datatype Event =
    | Seen(digest: string, name: string, version: string)       // the store reported the annotation
    | Written(digest: string, name: string, version: string)    // the store accepted the annotation
    | Missing(digest: string)                                   // the store reported the object gone
    | Settled(how: Settlement, receipt: nat, job: Job)
    | Refused(receipt: nat)                                     // the breaker did not admit the delivery
    | Recorded(receipt: nat, success: bool)                     // result told to the breaker

  type Log = seq<Event>

  datatype Phase =
    | Asking                       // about to ask the breaker
    | Sleeping                     // circuit open, waiting before parking
    | Checking                     // validating and looking at the cache
    | Querying                     // asking the store for the annotation
    | Noting(again: bool)          // annotation known; about to cache that, perhaps analyzing all the same
    | Analyzing | Writing
    | Failing(failure: Failure)    // the job failed
    | Blaming(failure: Failure)    // not a missing object: about to tell the breaker
    | Routing(failure: Failure)
    | Succeeding
    | Settling(how: Settlement)

  datatype Handler = Free | Busy(receipt: nat, job: Job, phase: Phase)

  /** The shared positive cache, what has happened, how each finished delivery returned, the handlers. */
  datatype State = State(
    annotated: seq<Entry<string, ()>>, log: Log, finished: map<nat, bool>, handlers: seq<Handler>, next: nat)

  /** What identifies a written annotation. */
  function Key(digest: string, name: string, version: string): string {
    digest + "\0" + name + "\0" + version
  }

  function KeyOf(job: Job): string { Key(job.digest, job.name, job.version) }

  /** Trimming, and which analyzers the registry knows. */
  datatype World = World(trim: string -> string, registered: (string, string) -> bool)

  predicate IsHex(c: char) { '0' <= c <= '9' || 'a' <= c <= 'f' || 'A' <= c <= 'F' }

  /** What the store accepts as a digest. */
  predicate ValidDigest(digest: string) { |digest| == 64 && forall i :: 0 <= i < 64 ==> IsHex(digest[i]) }

  predicate ValidJob(w: World, job: Job) {
    && (job.schemaVersion == 0 || job.schemaVersion == SCHEMA_PHASE00)
    && w.trim(job.digest) != "" && w.trim(job.name) != "" && w.trim(job.version) != ""
  }

  /** A job that gets past validation and finds its analyzer. */
  predicate Accepted(w: World, job: Job) { ValidJob(w, job) && w.registered(job.name, job.version) }

  datatype Answer =
    | Begin(job: Job)
    | Allowed | Denied
    | Slept | SleepCancelled
    | Rejected                                  // invalid job or unregistered analyzer
    | CacheHit | CacheMiss
    | HasFails(failure: Failure) | Has | HasNot
    | Noted
    | AnalyzeFails(failure: Failure) | Analyzed
    | WriteFails(failure: Failure) | WriteOk
    | ManifestMissing | ManifestThere | NotAboutObject
    | Blame
    | RouteOpen | RouteClosed
    | Praise
    | SettleOk | SettleFails

  /** A failure that says the job's own object might be gone. */
  predicate Suspicious(p: Phase) { p.Failing? && p.failure.notExist }

  predicate Enabled(w: World, s: State, h: Handler, a: Answer) {
    match a
    case Begin(_) => h.Free?
    case Allowed => h.Busy? && h.phase.Asking?
    case Denied => h.Busy? && h.phase.Asking?
    case Slept => h.Busy? && h.phase.Sleeping?
    case SleepCancelled => h.Busy? && h.phase.Sleeping?
    case Rejected => h.Busy? && h.phase.Checking? && !Accepted(w, h.job)
    case CacheHit =>
      h.Busy? && h.phase.Checking? && Accepted(w, h.job) && !h.job.forced && Lookup(s.annotated, KeyOf(h.job)).Some?
    case CacheMiss =>
      h.Busy? && h.phase.Checking? && Accepted(w, h.job) && (h.job.forced || Lookup(s.annotated, KeyOf(h.job)).None?)
    case HasFails(_) => h.Busy? && h.phase.Querying?
    case Has => h.Busy? && h.phase.Querying? && ValidDigest(h.job.digest)
    case HasNot => h.Busy? && h.phase.Querying? && ValidDigest(h.job.digest)
    case Noted => h.Busy? && h.phase.Noting?
    case AnalyzeFails(_) => h.Busy? && h.phase.Analyzing?
    case Analyzed => h.Busy? && h.phase.Analyzing?
    case WriteFails(_) => h.Busy? && h.phase.Writing?
    case WriteOk => h.Busy? && h.phase.Writing? && ValidDigest(h.job.digest)
    case ManifestMissing => h.Busy? && Suspicious(h.phase) && ValidDigest(h.job.digest)
    case ManifestThere => h.Busy? && Suspicious(h.phase)
    case NotAboutObject => h.Busy? && h.phase.Failing? && !Suspicious(h.phase)
    case Blame => h.Busy? && h.phase.Blaming?
    case RouteOpen => h.Busy? && h.phase.Routing?
    case RouteClosed => h.Busy? && h.phase.Routing?
    case Praise => h.Busy? && h.phase.Succeeding?
    case SettleOk => h.Busy? && h.phase.Settling?
    case SettleFails => h.Busy? && h.phase.Settling?
  }

  function Logged(s: State, e: Event): State { s.(log := s.log + [e]) }

  function Finish(s: State, receipt: nat, ok: bool): State { s.(finished := s.finished[receipt := ok]) }

  function Apply(w: World, capacity: nat, s: State, h: Handler, a: Answer): (State, Handler)
    requires Enabled(w, s, h, a)
  {
    match a
    case Begin(job) => (s.(next := s.next + 1), Busy(s.next, job, Asking))
    case Allowed => (s, h.(phase := Checking))
    case Denied => (Logged(s, Refused(h.receipt)), h.(phase := Sleeping))
    case Slept => (s, h.(phase := Settling(Park)))
    case SleepCancelled => (Finish(s, h.receipt, false), Free)
    case Rejected => (s, h.(phase := Failing(Failure(false, false))))
    case CacheHit => (s.(annotated := Touch(s.annotated, KeyOf(h.job))), h.(phase := Succeeding))
    case CacheMiss => (s, h.(phase := Querying))
    case HasFails(f) => (s, h.(phase := Failing(f)))
    case Has => (Logged(s, Seen(h.job.digest, h.job.name, h.job.version)), h.(phase := Noting(h.job.forced)))
    case HasNot => (s, h.(phase := Analyzing))
    case Noted =>
      (s.(annotated := PutCounted(s.annotated, capacity, KeyOf(h.job), ())),
       h.(phase := if h.phase.again then Analyzing else Succeeding))
    case AnalyzeFails(f) => (s, h.(phase := Failing(f)))
    case Analyzed => (s, h.(phase := Writing))
    case WriteFails(f) => (s, h.(phase := Failing(f)))
    case WriteOk => (Logged(s, Written(h.job.digest, h.job.name, h.job.version)), h.(phase := Noting(false)))
    case ManifestMissing => (Logged(s, Missing(h.job.digest)), h.(phase := Settling(Ack)))
    case ManifestThere => (s, h.(phase := Blaming(h.phase.failure)))
    case NotAboutObject => (s, h.(phase := Blaming(h.phase.failure)))
    case Blame => (Logged(s, Recorded(h.receipt, false)), h.(phase := Routing(h.phase.failure)))
    case RouteOpen => (s, h.(phase := Settling(Park)))
    case RouteClosed => (s, h.(phase := Settling(if h.phase.failure.unavailable then Park else Retry)))
    case Praise => (Logged(s, Recorded(h.receipt, true)), h.(phase := Settling(Ack)))
    case SettleOk => (Finish(Logged(s, Settled(h.phase.how, h.receipt, h.job)), h.receipt, true), Free)
    case SettleFails => (Finish(s, h.receipt, false), Free)
  }

  ghost predicate Step(w: World, capacity: nat, s: State, i: nat, a: Answer, s': State) {
    && i < |s.handlers|
    && Enabled(w, s, s.handlers[i], a)
    && var (after, handler) := Apply(w, capacity, s, s.handlers[i], a);
       s' == after.(handlers := s.handlers[i := handler])
  }

  // -------------------------------------------------------------------------------------------
  // Settling exactly once
  // -------------------------------------------------------------------------------------------

  /** How often a delivery was settled. */
  function Settlements(log: Log, receipt: nat): nat {
    if log == [] then 0
    else Settlements(log[..|log| - 1], receipt) +
         if log[|log| - 1].Settled? && log[|log| - 1].receipt == receipt then 1 else 0
  }

  lemma SettlementsPush(log: Log, e: Event, receipt: nat)
    ensures Settlements(log + [e], receipt) ==
            Settlements(log, receipt) + if e.Settled? && e.receipt == receipt then 1 else 0
  {
    assert (log + [e])[..|log|] == log;
  }

  ghost predicate Active(s: State, r: nat) {
    exists i :: 0 <= i < |s.handlers| && s.handlers[i].Busy? && s.handlers[i].receipt == r
  }

  /** Deliveries being handled are unsettled; finished ones were settled once if they returned success. */
  ghost predicate SettledOnce(s: State) {
    && (forall i, j :: 0 <= i < j < |s.handlers| && s.handlers[i].Busy? && s.handlers[j].Busy? ==>
          s.handlers[i].receipt != s.handlers[j].receipt)
    && (forall i :: 0 <= i < |s.handlers| && s.handlers[i].Busy? ==>
          && s.handlers[i].receipt < s.next && s.handlers[i].receipt !in s.finished
          && Settlements(s.log, s.handlers[i].receipt) == 0)
    && (forall r :: r in s.finished ==> r < s.next && Settlements(s.log, r) == if s.finished[r] then 1 else 0)
    && (forall r: nat :: r >= s.next ==> Settlements(s.log, r) == 0)
  }

  /** What one step does to the settlements of a delivery. */
  lemma SettlementsStep(w: World, capacity: nat, s: State, i: nat, a: Answer, s': State, r: nat)
    requires Step(w, capacity, s, i, a, s')
    ensures Settlements(s'.log, r)
            == Settlements(s.log, r) + if a.SettleOk? && r == s.handlers[i].receipt then 1 else 0
  {
    hide Settlements, Touch, PutCounted, Lookup, ValidJob;
    if s'.log != s.log {
      var e := s'.log[|s.log|];
      assert s'.log == s.log + [e];
      SettlementsPush(s.log, e, r);
    }
  }

  /** Which delivery a step finishes, if any. */
  lemma FinishedStep(w: World, capacity: nat, s: State, i: nat, a: Answer, s': State)
    requires Step(w, capacity, s, i, a, s')
    ensures |s'.handlers| == |s.handlers|
    ensures forall j :: 0 <= j < |s.handlers| && j != i ==> s'.handlers[j] == s.handlers[j]
    ensures s'.next == if a.Begin? then s.next + 1 else s.next
    ensures s'.finished == if a.SettleOk? || a.SettleFails? || a.SleepCancelled?
                           then s.finished[s.handlers[i].receipt := a.SettleOk?] else s.finished
    ensures s.handlers[i].Free? <==> a.Begin?
    ensures s'.handlers[i].Free? <==> a.SettleOk? || a.SettleFails? || a.SleepCancelled?
    ensures s'.handlers[i].Busy? ==> s'.handlers[i].receipt == if a.Begin? then s.next else s.handlers[i].receipt
  {
    hide Settlements, Touch, PutCounted, Lookup, ValidJob;
  }

  lemma KeepsSettled(w: World, capacity: nat, s: State, i: nat, a: Answer, s': State)
    requires SettledOnce(s) && Step(w, capacity, s, i, a, s')
    ensures SettledOnce(s')
  {
    hide Settlements, Step;
    StepIndex(w, capacity, s, i, a, s');
    FinishedStep(w, capacity, s, i, a, s');
    forall r: nat ensures Settlements(s'.log, r)
                     == Settlements(s.log, r) + if a.SettleOk? && r == s.handlers[i].receipt then 1 else 0 {
      SettlementsStep(w, capacity, s, i, a, s', r);
    }
  }

  lemma StepIndex(w: World, capacity: nat, s: State, i: nat, a: Answer, s': State)
    requires Step(w, capacity, s, i, a, s')
    ensures i < |s.handlers| && (a.SettleOk? ==> s.handlers[i].Busy?)
  {
  }

  // -------------------------------------------------------------------------------------------
  // Acknowledged jobs
  // -------------------------------------------------------------------------------------------

  predicate Attests(e: Event, key: string) {
    (e.Seen? || e.Written?) && Key(e.digest, e.name, e.version) == key
  }

  /** An annotation filed under this key was seen or written. */
  ghost predicate Attested(log: Log, key: string) {
    exists k :: 0 <= k < |log| && Attests(log[k], key)
  }

  /** The job may be dropped: its object was found missing, or an annotation under its key is there. */
  ghost predicate Confirmed(log: Log, job: Job) {
    Attested(log, KeyOf(job)) || Missing(job.digest) in log
  }

  ghost predicate CacheBacked(s: State) {
    forall e :: e in s.annotated ==> Attested(s.log, e.key)
  }

  /** What a handler relies on at each point. */
  ghost predicate HandlerBacked(log: Log, h: Handler) {
    h.Busy? ==>
      && (h.phase.Noting? || h.phase.Succeeding? ==> Attested(log, KeyOf(h.job)))
      && (h.phase == Settling(Ack) ==> Confirmed(log, h.job))
  }

  /** Every acknowledgement in the log had its reason earlier in the log. */
  ghost predicate AcksBacked(log: Log) {
    forall i :: 0 <= i < |log| && log[i].Settled? && log[i].how.Ack? ==> Confirmed(log[..i], log[i].job)
  }

  ghost predicate Backed(s: State) {
    && CacheBacked(s)
    && (forall i :: 0 <= i < |s.handlers| ==> HandlerBacked(s.log, s.handlers[i]))
    && AcksBacked(s.log)
  }

  lemma AttestedGrows(log: Log, e: Event, key: string)
    requires Attested(log, key) || Attests(e, key)
    ensures Attested(log + [e], key)
  {
    if Attests(e, key) {
      assert Attests((log + [e])[|log|], key);
    } else {
      var k :| 0 <= k < |log| && Attests(log[k], key);
      assert Attests((log + [e])[k], key);
    }
  }

  lemma ConfirmedGrows(log: Log, e: Event, job: Job)
    requires Confirmed(log, job) || e == Missing(job.digest)
    ensures Confirmed(log + [e], job)
  {
    hide Attested;
    if Attested(log, KeyOf(job)) {
      AttestedGrows(log, e, KeyOf(job));
    }
  }

  lemma AcksGrow(log: Log, e: Event)
    requires AcksBacked(log) && (e.Settled? && e.how.Ack? ==> Confirmed(log, e.job))
    ensures AcksBacked(log + [e])
  {
    hide Confirmed;
    assert (log + [e])[..|log|] == log;
    forall i | 0 <= i < |log| ensures (log + [e])[..i] == log[..i] {
    }
  }

  /** The log a step leaves: as it was, or one event longer. */
  lemma LogStep(w: World, capacity: nat, s: State, i: nat, a: Answer, s': State)
    requires Step(w, capacity, s, i, a, s')
    ensures s'.log == s.log || (|s'.log| == |s.log| + 1 && s'.log == s.log + [s'.log[|s.log|]])
    ensures a.SettleOk? ==>
              var h := s.handlers[i];
              h.Busy? && h.phase.Settling? && s'.log == s.log + [Settled(h.phase.how, h.receipt, h.job)]
    ensures !a.SettleOk? && s'.log != s.log ==> !s'.log[|s.log|].Settled?
  {
    hide Touch, PutCounted, Lookup, ValidJob;
  }

  lemma KeepsAcks(w: World, capacity: nat, s: State, i: nat, a: Answer, s': State)
    requires Backed(s) && Step(w, capacity, s, i, a, s')
    ensures AcksBacked(s'.log)
  {
    hide Confirmed, Attested, Step, AcksBacked, CacheBacked;
    StepIndex(w, capacity, s, i, a, s');
    LogStep(w, capacity, s, i, a, s');
    assert HandlerBacked(s.log, s.handlers[i]);
    if a.SettleOk? {
      AcksGrow(s.log, Settled(s.handlers[i].phase.how, s.handlers[i].receipt, s.handlers[i].job));
    } else if s'.log != s.log {
      AcksGrow(s.log, s'.log[|s.log|]);
    }
  }

  /** Facts about the past stay. */
  lemma BackedLater(w: World, capacity: nat, s: State, i: nat, a: Answer, s': State, h: Handler)
    requires Step(w, capacity, s, i, a, s') && HandlerBacked(s.log, h)
    ensures HandlerBacked(s'.log, h)
  {
    hide Confirmed, Attested, Step;
    LogStep(w, capacity, s, i, a, s');
    if h.Busy? && s'.log != s.log {
      var e := s'.log[|s.log|];
      if Attested(s.log, KeyOf(h.job)) {
        AttestedGrows(s.log, e, KeyOf(h.job));
      }
      if Confirmed(s.log, h.job) {
        ConfirmedGrows(s.log, e, h.job);
      }
    }
  }

  lemma AttestedLater(w: World, capacity: nat, s: State, i: nat, a: Answer, s': State, key: string)
    requires Step(w, capacity, s, i, a, s') && Attested(s.log, key)
    ensures Attested(s'.log, key)
  {
    hide Attested, Step;
    LogStep(w, capacity, s, i, a, s');
    if s'.log != s.log {
      AttestedGrows(s.log, s'.log[|s.log|], key);
    }
  }

  lemma CachedAttested(s: State, key: string)
    requires CacheBacked(s) && Lookup(s.annotated, key).Some?
    ensures Attested(s.log, key)
  {
    hide Attested;
    LookupEntry(s.annotated, key);
  }

  lemma {:induction false} LookupEntry(c: seq<Entry<string, ()>>, key: string)
    requires Lookup(c, key).Some?
    ensures exists e :: e in c && e.key == key
  {
    if c[0].key != key {
      LookupEntry(c[1..], key);
    }
  }

  lemma {:induction false} WithoutWithin(c: seq<Entry<string, ()>>, key: string)
    ensures forall e :: e in Without(c, key) ==> e in c
  {
    if c != [] && c[0].key != key {
      WithoutWithin(c[1..], key);
    }
  }

  /** What a step puts into the cache is attested at that moment. */
  lemma KeepsCache(w: World, capacity: nat, s: State, i: nat, a: Answer, s': State)
    requires Backed(s) && Step(w, capacity, s, i, a, s')
    ensures CacheBacked(s')
  {
    hide Attested, Confirmed, AcksBacked, Lookup, Without, ValidJob, KeyOf;
    var h := s.handlers[i];
    assert HandlerBacked(s.log, h);
    if h.Busy? {
      WithoutWithin(s.annotated, KeyOf(h.job));
      if Lookup(s.annotated, KeyOf(h.job)).Some? {
        CachedAttested(s, KeyOf(h.job));
      }
    }
    forall e | e in s'.annotated ensures Attested(s'.log, e.key) {
      assert Attested(s.log, e.key);
      AttestedLater(w, capacity, s, i, a, s', e.key);
    }
  }

  /** What the stepping handler goes on to rely on is there. */
  lemma KeepsOwn(w: World, capacity: nat, s: State, i: nat, a: Answer, s': State)
    requires Backed(s) && Step(w, capacity, s, i, a, s')
    ensures HandlerBacked(s'.log, s'.handlers[i])
  {
    hide Attested, AcksBacked, Lookup, ValidJob, Touch, PutCounted;
    var h := s.handlers[i];
    assert HandlerBacked(s.log, h);
    match a
    case CacheHit =>
      CachedAttested(s, KeyOf(h.job));
    case Has =>
      AttestedGrows(s.log, Seen(h.job.digest, h.job.name, h.job.version), KeyOf(h.job));
    case WriteOk =>
      AttestedGrows(s.log, Written(h.job.digest, h.job.name, h.job.version), KeyOf(h.job));
    case ManifestMissing =>
      ConfirmedGrows(s.log, Missing(h.job.digest), h.job);
    case Praise =>
      AttestedGrows(s.log, Recorded(h.receipt, true), KeyOf(h.job));
    case _ =>
  }

  ghost predicate Inv(s: State) {
    SettledOnce(s) && Backed(s)
  }

  lemma KeepsStep(w: World, capacity: nat, s: State, i: nat, a: Answer, s': State)
    requires Inv(s) && Step(w, capacity, s, i, a, s')
    ensures Inv(s')
  {
    hide Step, SettledOnce, CacheBacked, AcksBacked, HandlerBacked;
    KeepsSettled(w, capacity, s, i, a, s');
    KeepsAcks(w, capacity, s, i, a, s');
    KeepsCache(w, capacity, s, i, a, s');
    FinishedStep(w, capacity, s, i, a, s');
    forall j | 0 <= j < |s'.handlers| ensures HandlerBacked(s'.log, s'.handlers[j]) {
      if j == i {
        KeepsOwn(w, capacity, s, i, a, s');
      } else {
        BackedLater(w, capacity, s, i, a, s', s.handlers[j]);
      }
    }
  }

  /** A worker that has just started: empty cache, nothing happened. */
  ghost predicate Initial(s: State) {
    s.annotated == [] && s.log == [] && s.finished == map[] && forall h :: h in s.handlers ==> h == Free
  }

  datatype Move = Move(handler: nat, answer: Answer)

  ghost predicate Run(w: World, capacity: nat, states: seq<State>, moves: seq<Move>) {
    && |states| == |moves| + 1
    && Initial(states[0])
    && forall k :: 0 <= k < |moves| ==> Step(w, capacity, states[k], moves[k].handler, moves[k].answer, states[k + 1])
  }

  lemma InitialHolds(s: State)
    requires Initial(s)
    ensures Inv(s)
  {
    assert forall i :: 0 <= i < |s.handlers| ==> s.handlers[i] in s.handlers;
  }

  lemma {:induction false} RunKeeps(w: World, capacity: nat, states: seq<State>, moves: seq<Move>, k: nat)
    requires Run(w, capacity, states, moves) && k < |states|
    ensures Inv(states[k])
  {
    hide Step, Inv, Initial;
    if k == 0 {
      InitialHolds(states[0]);
    } else {
      RunKeeps(w, capacity, states, moves, k - 1);
      KeepsStep(w, capacity, states[k - 1], moves[k - 1].handler, moves[k - 1].answer, states[k]);
    }
  }

  /** In every run, a handler that returned success settled its delivery exactly once, any other never. */
  lemma SettledExactlyOnce(w: World, capacity: nat, states: seq<State>, moves: seq<Move>, k: nat, r: nat)
    requires Run(w, capacity, states, moves) && k < |states|
    ensures r in states[k].finished ==> Settlements(states[k].log, r) == if states[k].finished[r] then 1 else 0
    ensures Active(states[k], r) ==> Settlements(states[k].log, r) == 0
  {
    hide Run, Backed;
    RunKeeps(w, capacity, states, moves, k);
  }
}
