/**
 When the positive cache may be believed. The cache files annotations under digest, name and version joined
 by NUL, so two jobs can share a key. `MistakenExactly` says when that matters: a job can be acknowledged
 although its object was not found missing and its own annotation neither seen nor written, if and only if a
 different annotation that the store and the registry admit has the job's key.
 */
module WorkerCache {
  import opened Recency
  import opened Worker

  /** The job's own evidence: its object is missing, or its own annotation was seen or written. */
  predicate Evident(log: Log, job: Job) {
    || Missing(job.digest) in log
    || Seen(job.digest, job.name, job.version) in log
    || Written(job.digest, job.name, job.version) in log
  }

  /** An annotation that can get into the store through a worker. */
  predicate Storable(w: World, digest: string, name: string, version: string) {
    && w.trim(digest) != "" && w.trim(name) != "" && w.trim(version) != ""
    && w.registered(name, version) && ValidDigest(digest)
  }

  /** Another annotation with the job's key. */
  predicate Rival(w: World, job: Job, digest: string, name: string, version: string) {
    && Storable(w, digest, name, version)
    && (digest, name, version) != (job.digest, job.name, job.version)
    && Key(digest, name, version) == KeyOf(job)
  }

  /** A job the cache is asked about and may be wrong about. */
  ghost predicate Mistakable(w: World, job: Job) {
    Accepted(w, job) && !job.forced && exists d, n, v :: Rival(w, job, d, n, v)
  }

  // -------------------------------------------------------------------------------------------
  // Otherwise every acknowledgement is the job's own
  // -------------------------------------------------------------------------------------------

  /** What a handler has settled about its job at each point. */
  ghost predicate HandlerOwn(w: World, log: Log, h: Handler) {
    h.Busy? ==>
      && (h.phase.Querying? || h.phase.Analyzing? || h.phase.Writing? || h.phase.Noting? ==> Accepted(w, h.job))
      && (h.phase.Noting? ==> Evident(log, h.job))
      && (h.phase.Succeeding? || h.phase == Settling(Ack) ==>
            Evident(log, h.job) || (Accepted(w, h.job) && !h.job.forced))
  }

  ghost predicate OnlyStorable(w: World, log: Log) {
    forall e :: e in log && (e.Seen? || e.Written?) ==> Storable(w, e.digest, e.name, e.version)
  }

  ghost predicate AcksOwn(w: World, log: Log) {
    forall i :: 0 <= i < |log| && log[i].Settled? && log[i].how.Ack? ==>
                  Evident(log[..i], log[i].job) || (Accepted(w, log[i].job) && !log[i].job.forced)
  }

  ghost predicate Owned(w: World, s: State) {
    && (forall i :: 0 <= i < |s.handlers| ==> HandlerOwn(w, s.log, s.handlers[i]))
    && OnlyStorable(w, s.log)
    && AcksOwn(w, s.log)
  }

  lemma EvidentStays(w: World, capacity: nat, s: State, i: nat, a: Answer, s': State, job: Job)
    requires Step(w, capacity, s, i, a, s') && Evident(s.log, job)
    ensures Evident(s'.log, job)
  {
    hide Step;
    LogStep(w, capacity, s, i, a, s');
  }

  lemma OwnStep(w: World, capacity: nat, s: State, i: nat, a: Answer, s': State)
    requires Owned(w, s) && Step(w, capacity, s, i, a, s')
    ensures HandlerOwn(w, s'.log, s'.handlers[i])
  {
    hide Lookup, Touch, PutCounted, Accepted, AcksOwn, OnlyStorable;
    var h := s.handlers[i];
    assert HandlerOwn(w, s.log, h);
    if h.Busy? && Evident(s.log, h.job) {
      EvidentStays(w, capacity, s, i, a, s', h.job);
    }
  }

  lemma StorableStep(w: World, capacity: nat, s: State, i: nat, a: Answer, s': State)
    requires Owned(w, s) && Step(w, capacity, s, i, a, s')
    ensures OnlyStorable(w, s'.log)
  {
    hide Lookup, Touch, PutCounted, ValidDigest, AcksOwn;
    assert HandlerOwn(w, s.log, s.handlers[i]);
  }

  lemma AcksMore(w: World, log: Log, e: Event)
    requires AcksOwn(w, log)
    requires e.Settled? && e.how.Ack? ==> Evident(log, e.job) || (Accepted(w, e.job) && !e.job.forced)
    ensures AcksOwn(w, log + [e])
  {
    hide Evident, Accepted;
    assert (log + [e])[..|log|] == log;
    forall i | 0 <= i < |log| ensures (log + [e])[..i] == log[..i] {
    }
  }

  lemma AcksStep(w: World, capacity: nat, s: State, i: nat, a: Answer, s': State)
    requires Owned(w, s) && Step(w, capacity, s, i, a, s')
    ensures AcksOwn(w, s'.log)
  {
    hide Evident, Accepted, Step, AcksOwn, OnlyStorable;
    StepIndex(w, capacity, s, i, a, s');
    LogStep(w, capacity, s, i, a, s');
    assert HandlerOwn(w, s.log, s.handlers[i]);
    if a.SettleOk? {
      AcksMore(w, s.log, Settled(s.handlers[i].phase.how, s.handlers[i].receipt, s.handlers[i].job));
    } else if s'.log != s.log {
      AcksMore(w, s.log, s'.log[|s.log|]);
    }
  }

  lemma OthersOwn(w: World, capacity: nat, s: State, i: nat, a: Answer, s': State, h: Handler)
    requires Step(w, capacity, s, i, a, s') && HandlerOwn(w, s.log, h)
    ensures HandlerOwn(w, s'.log, h)
  {
    hide Step, Evident, Accepted;
    if h.Busy? && Evident(s.log, h.job) {
      EvidentStays(w, capacity, s, i, a, s', h.job);
    }
  }

  lemma KeepsOwned(w: World, capacity: nat, s: State, i: nat, a: Answer, s': State)
    requires Owned(w, s) && Step(w, capacity, s, i, a, s')
    ensures Owned(w, s')
  {
    hide Step, HandlerOwn, OnlyStorable, AcksOwn;
    StorableStep(w, capacity, s, i, a, s');
    AcksStep(w, capacity, s, i, a, s');
    FinishedStep(w, capacity, s, i, a, s');
    forall j | 0 <= j < |s'.handlers| ensures HandlerOwn(w, s'.log, s'.handlers[j]) {
      if j == i {
        OwnStep(w, capacity, s, i, a, s');
      } else {
        OthersOwn(w, capacity, s, i, a, s', s.handlers[j]);
      }
    }
  }

  lemma NothingOwned(w: World, s: State)
    requires Initial(s)
    ensures Owned(w, s)
  {
    assert forall i :: 0 <= i < |s.handlers| ==> s.handlers[i] in s.handlers;
  }

  lemma {:induction false} RunOwned(w: World, capacity: nat, states: seq<State>, moves: seq<Move>, k: nat)
    requires Run(w, capacity, states, moves) && k < |states|
    ensures Owned(w, states[k])
  {
    hide Step, Owned, Initial;
    if k == 0 {
      NothingOwned(w, states[0]);
    } else {
      RunOwned(w, capacity, states, moves, k - 1);
      KeepsOwned(w, capacity, states[k - 1], moves[k - 1].handler, moves[k - 1].answer, states[k]);
    }
  }

  /** An attested key without evidence of the job's own is the key of a rival. */
  lemma RivalFound(w: World, log: Log, job: Job)
    requires Attested(log, KeyOf(job)) && OnlyStorable(w, log) && !Evident(log, job)
    ensures exists d, n, v :: Rival(w, job, d, n, v)
  {
    hide Key, Storable;
    var k :| 0 <= k < |log| && Attests(log[k], KeyOf(job));
    assert log[k] in log;
    assert Rival(w, job, log[k].digest, log[k].name, log[k].version);
  }

  /**
   In every run an acknowledged job had its object found missing, or its own annotation seen or written, at
   an earlier step, also when it was served from the cache, unless a rival has its key.
   */
  lemma AckedSoundly(w: World, capacity: nat, states: seq<State>, moves: seq<Move>, k: nat, i: nat)
    requires Run(w, capacity, states, moves) && k < |states| && i < |states[k].log|
    requires states[k].log[i].Settled? && states[k].log[i].how.Ack?
    ensures var job, log := states[k].log[i].job, states[k].log;
            Evident(log[..i], job) || Mistakable(w, job)
  {
    hide Run, SettledOnce, CacheBacked, HandlerBacked, HandlerOwn, Attested, Evident, Accepted, Rival, OnlyStorable;
    RunKeeps(w, capacity, states, moves, k);
    RunOwned(w, capacity, states, moves, k);
    var job, log := states[k].log[i].job, states[k].log;
    if !Evident(log[..i], job) {
      NotMissing(log[..i], job);
      StorablePrefix(w, log, i);
      RivalFound(w, log[..i], job);
    }
  }

  lemma NotMissing(log: Log, job: Job)
    requires !Evident(log, job)
    ensures Missing(job.digest) !in log
  {
  }

  lemma StorablePrefix(w: World, log: Log, i: nat)
    requires OnlyStorable(w, log) && i <= |log|
    ensures OnlyStorable(w, log[..i])
  {
    hide Storable;
  }

  // -------------------------------------------------------------------------------------------
  // A run that mistakes one annotation for another
  // -------------------------------------------------------------------------------------------

  /** In the run, entry `i` of the final log acknowledges the job without evidence of its own. */
  ghost predicate Mistaken(w: World, capacity: nat, states: seq<State>, moves: seq<Move>, i: nat, job: Job) {
    && Run(w, capacity, states, moves)
    && var log := states[|moves|].log;
       i < |log| && log[i].Settled? && log[i].how.Ack? && log[i].job == job && !Evident(log[..i], job)
  }

  ghost predicate CanBeMistaken(w: World, capacity: nat, job: Job) {
    exists states, moves, i: nat :: Mistaken(w, capacity, states, moves, i, job)
  }

  /** The rival is seen, noted and acknowledged. */
  function FirstHalf(rival: Job): seq<State> {
    var key, seen := KeyOf(rival), Seen(rival.digest, rival.name, rival.version);
    [State([], [], map[], [Free], 0),
     State([], [], map[], [Busy(0, rival, Asking)], 1),
     State([], [], map[], [Busy(0, rival, Checking)], 1),
     State([], [], map[], [Busy(0, rival, Querying)], 1),
     State([], [seen], map[], [Busy(0, rival, Noting(false))], 1),
     State([Entry(key, ())], [seen], map[], [Busy(0, rival, Succeeding)], 1),
     State([Entry(key, ())], [seen, Recorded(0, true)], map[], [Busy(0, rival, Settling(Ack))], 1)]
  }

  /** Then the job begins, hits the cache and is acknowledged. */
  function SecondHalf(rival: Job, job: Job): seq<State> {
    var cached := [Entry(KeyOf(rival), ())];
    var log := [Seen(rival.digest, rival.name, rival.version), Recorded(0, true), Settled(Ack, 0, rival)];
    var done := map[0 := true];
    [State(cached, log, done, [Free], 1),
     State(cached, log, done, [Busy(1, job, Asking)], 2),
     State(cached, log, done, [Busy(1, job, Checking)], 2),
     State(cached, log, done, [Busy(1, job, Succeeding)], 2),
     State(cached, log + [Recorded(1, true)], done, [Busy(1, job, Settling(Ack))], 2),
     State(cached, log + [Recorded(1, true)] + [Settled(Ack, 1, job)], done[1 := true], [Free], 2)]
  }

  function MovesFor(rival: Job, job: Job): seq<Move> {
    [Move(0, Begin(rival)), Move(0, Allowed), Move(0, CacheMiss), Move(0, Has), Move(0, Noted), Move(0, Praise),
     Move(0, SettleOk), Move(0, Begin(job)), Move(0, Allowed), Move(0, CacheHit), Move(0, Praise), Move(0, SettleOk)]
  }

  lemma FirstSteps(w: World, capacity: nat, rival: Job, k: nat)
    requires capacity >= 1 && Accepted(w, rival) && !rival.forced && ValidDigest(rival.digest) && k < 6
    ensures Step(w, capacity, FirstHalf(rival)[k], 0, MovesFor(rival, rival)[k].answer, FirstHalf(rival)[k + 1])
  {
    hide Key, Accepted, ValidDigest;
    var s := FirstHalf(rival)[k];
    assert s.handlers[0 := FirstHalf(rival)[k + 1].handlers[0]] == FirstHalf(rival)[k + 1].handlers;
  }

  lemma HandOver(w: World, capacity: nat, rival: Job, job: Job)
    ensures Step(w, capacity, FirstHalf(rival)[6], 0, SettleOk, SecondHalf(rival, job)[0])
  {
    hide Key, Accepted, ValidDigest;
    var s, s' := FirstHalf(rival)[6], SecondHalf(rival, job)[0];
    assert s.handlers[0 := Free] == s'.handlers;
    assert s.finished[0 := true] == s'.finished;
    assert s.log + [Settled(Ack, 0, rival)] == s'.log;
  }

  lemma SecondSteps(w: World, capacity: nat, rival: Job, job: Job, k: nat)
    requires Accepted(w, job) && !job.forced && KeyOf(rival) == KeyOf(job) && k < 5
    ensures var half := SecondHalf(rival, job);
            Step(w, capacity, half[k], 0, MovesFor(rival, job)[k + 7].answer, half[k + 1])
  {
    hide Key, Accepted, ValidDigest;
    var s, s' := SecondHalf(rival, job)[k], SecondHalf(rival, job)[k + 1];
    assert s.handlers[0 := s'.handlers[0]] == s'.handlers;
  }

  /** For every rival of a job there is a run from an empty worker in which the job is mistaken for it. */
  lemma MistakenRun(w: World, capacity: nat, job: Job, d: string, n: string, v: string)
    requires capacity >= 1 && Accepted(w, job) && !job.forced && Rival(w, job, d, n, v)
    ensures CanBeMistaken(w, capacity, job)
  {
    hide Step, Key, Accepted, FirstHalf, SecondHalf, ValidDigest, MovesFor;
    var rival := Job(0, d, n, v, false);
    RivalAccepted(w, job, d, n, v);
    HalvesSize(rival, job);
    var states, moves := FirstHalf(rival) + SecondHalf(rival, job), MovesFor(rival, job);
    forall k | 0 <= k < |moves| ensures Step(w, capacity, states[k], moves[k].handler, moves[k].answer, states[k + 1]) {
      if k < 6 {
        FirstSteps(w, capacity, rival, k);
      } else if k == 6 {
        HandOver(w, capacity, rival, job);
      } else {
        SecondSteps(w, capacity, rival, job, k - 7);
      }
    }
    Unbacked(rival, job);
    assert states[12] == SecondHalf(rival, job)[5];
    assert Mistaken(w, capacity, states, moves, 4, job);
  }

  lemma RivalAccepted(w: World, job: Job, d: string, n: string, v: string)
    requires Rival(w, job, d, n, v)
    ensures var rival := Job(0, d, n, v, false);
            && Accepted(w, rival) && ValidDigest(d) && KeyOf(rival) == KeyOf(job)
            && (d, n, v) != (job.digest, job.name, job.version)
  {
  }

  lemma HalvesSize(rival: Job, job: Job)
    ensures |FirstHalf(rival)| == 7 && |SecondHalf(rival, job)| == 6 && |MovesFor(rival, job)| == 12
    ensures FirstHalf(rival)[0] == State([], [], map[], [Free], 0)
    ensures forall k :: 0 <= k < 12 ==> MovesFor(rival, job)[k].handler == 0
    ensures forall k :: 0 <= k < 6 ==> MovesFor(rival, job)[k] == MovesFor(rival, rival)[k]
    ensures MovesFor(rival, job)[6].answer == SettleOk
  {
  }

  lemma Unbacked(rival: Job, job: Job)
    requires (rival.digest, rival.name, rival.version) != (job.digest, job.name, job.version)
    ensures |SecondHalf(rival, job)| == 6
    ensures var log := SecondHalf(rival, job)[5].log;
            |log| == 5 && log[4] == Settled(Ack, 1, job) && !Evident(log[..4], job)
  {
  }

  /** A job can be acknowledged without evidence of its own if and only if it is mistakable. */
  lemma MistakenExactly(w: World, capacity: nat, job: Job)
    requires capacity >= 1
    ensures CanBeMistaken(w, capacity, job) <==> Mistakable(w, job)
  {
    hide Run, Evident, Rival, Accepted;
    if CanBeMistaken(w, capacity, job) {
      var states, moves, i: nat :| Mistaken(w, capacity, states, moves, i, job);
      RunLength(w, capacity, states, moves);
      AckedSoundly(w, capacity, states, moves, |moves|, i);
    }
    if Mistakable(w, job) {
      var d, n, v :| Rival(w, job, d, n, v);
      MistakenRun(w, capacity, job, d, n, v);
    }
  }

  lemma RunLength(w: World, capacity: nat, states: seq<State>, moves: seq<Move>)
    requires Run(w, capacity, states, moves)
    ensures |states| == |moves| + 1
  {
  }

  const DIGEST: string := seq(64, _ => 'a')

  /** One such job: analyzers "m" and "n\0m" are both registered. */
  lemma MistakenExample(capacity: nat)
    requires capacity >= 1
    ensures var w := World(s => s, (n, v) => n in {"m", "n\0m"});
            CanBeMistaken(w, capacity, Job(0, DIGEST + "\0" + "n", "m", "v", false))
  {
    hide CanBeMistaken;
    var w, job := World(s => s, (n, v) => n in {"m", "n\0m"}), Job(0, DIGEST + "\0" + "n", "m", "v", false);
    assert Key(DIGEST, "n" + "\0" + "m", "v") == KeyOf(job);
    assert "n" + "\0" + "m" == "n\0m";
    MistakenRun(w, capacity, job, DIGEST, "n\0m", "v");
  }

  // -------------------------------------------------------------------------------------------
  // When nobody has a rival
  // -------------------------------------------------------------------------------------------

  predicate NulFree(s: string) { forall i :: 0 <= i < |s| ==> s[i] != '\0' }

  predicate Plain(digest: string, name: string, version: string) {
    NulFree(digest) && NulFree(name) && NulFree(version)
  }

  /** The first separator of a key is where its digest ends, the second where its name ends. */
  lemma KeyParts(d: string, n: string, v: string)
    ensures var k := Key(d, n, v);
            && |k| == |d| + |n| + |v| + 2
            && k[|d|] == '\0' && k[|d| + 1 + |n|] == '\0'
            && d == k[..|d|] && n == k[|d| + 1..|d| + 1 + |n|] && v == k[|d| + 2 + |n|..]
            && (Plain(d, n, v) ==> forall i :: 0 <= i < |k| && k[i] == '\0' ==> i == |d| || i == |d| + 1 + |n|)
  {
  }

  /** A key of parts without NUL has one reading. */
  lemma PlainUnique(d: string, n: string, v: string, digest: string, name: string, version: string)
    requires Plain(digest, name, version) && Key(d, n, v) == Key(digest, name, version)
    ensures d == digest && n == name && v == version
  {
    hide Plain, Key;
    KeyParts(d, n, v);
    KeyParts(digest, name, version);
  }

  /** A job without NUL is never mistaken, and with a registry of names and versions without NUL no job is. */
  lemma NeverMistaken(w: World, capacity: nat, job: Job)
    requires capacity >= 1
    requires Plain(job.digest, job.name, job.version)
             || forall n, v :: w.registered(n, v) ==> NulFree(n) && NulFree(v)
    ensures !CanBeMistaken(w, capacity, job)
  {
    hide Key, CanBeMistaken;
    MistakenExactly(w, capacity, job);
    forall d, n, v ensures !Rival(w, job, d, n, v) {
      if Rival(w, job, d, n, v) {
        if Plain(job.digest, job.name, job.version) {
          PlainUnique(d, n, v, job.digest, job.name, job.version);
        } else {
          PlainUnique(job.digest, job.name, job.version, d, n, v);
        }
      }
    }
  }
}
