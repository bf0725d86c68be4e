/**
 The ways through a handler. `AckedDuly` says what an acknowledged job has been through in every run,
 `NeverStuck` that some answer always moves a handler on, `RoutedDuly` how failures are routed.
 */
module WorkerPaths {
  import opened Recency
  import opened Worker
  import WorkerReports

  /** A job of a known schema version with no blank part, for a registered analyzer. */
  predicate Admissible(w: World, job: Job) {
    && job.schemaVersion in {0, 1}
    && w.trim(job.digest) != "" && w.trim(job.name) != "" && w.trim(job.version) != ""
    && w.registered(job.name, job.version)
  }

  /** A forced job is done when its annotation was written or its object is gone, not when one was there. */
  predicate Done(log: Log, job: Job) {
    job.forced ==> Written(job.digest, job.name, job.version) in log || Missing(job.digest) in log
  }

  ghost predicate HandlerDuly(w: World, log: Log, h: Handler) {
    h.Busy? ==>
      match h.phase
      case Querying => Admissible(w, h.job)
      case Analyzing => Admissible(w, h.job)
      case Writing => Admissible(w, h.job)
      case Noting(again) => Admissible(w, h.job) && (!again ==> Done(log, h.job))
      case Succeeding => Admissible(w, h.job) && Done(log, h.job)
      case Failing(f) => f.notExist ==> Admissible(w, h.job)
      case Settling(how) => how.Ack? ==> Admissible(w, h.job) && Done(log, h.job)
      case _ => true
  }

  ghost predicate AcksDuly(w: World, log: Log) {
    forall i :: 0 <= i < |log| && log[i].Settled? && log[i].how.Ack? ==>
                  Admissible(w, log[i].job) && Done(log[..i], log[i].job)
  }

  ghost predicate Duly(w: World, s: State) {
    (forall i :: 0 <= i < |s.handlers| ==> HandlerDuly(w, s.log, s.handlers[i])) && AcksDuly(w, s.log)
  }

  lemma DonePush(log: Log, es: seq<Event>, job: Job)
    requires Done(log, job)
    ensures Done(log + es, job)
  {
  }

  lemma AdmissibleExactly(w: World, job: Job)
    ensures Admissible(w, job) <==> Accepted(w, job)
  {
  }

  lemma OwnDuly(w: World, capacity: nat, s: State, i: nat, a: Answer, s': State)
    requires Step(w, capacity, s, i, a, s') && HandlerDuly(w, s.log, s.handlers[i])
    ensures HandlerDuly(w, s'.log, s'.handlers[i])
  {
    hide Lookup, Touch, PutCounted, Accepted, Admissible;
    var h := s.handlers[i];
    if h.Busy? {
      AdmissibleExactly(w, h.job);
    }
    match a
    case WriteOk =>
      assert s'.log[|s.log|] == Written(h.job.digest, h.job.name, h.job.version);
    case ManifestMissing =>
      assert s'.log[|s.log|] == Missing(h.job.digest);
    case Praise =>
      DonePush(s.log, [Recorded(h.receipt, true)], h.job);
    case _ =>
  }

  lemma OtherDuly(w: World, log: Log, es: seq<Event>, h: Handler)
    requires HandlerDuly(w, log, h)
    ensures HandlerDuly(w, log + es, h)
  {
    hide Admissible, Done;
    if h.Busy? && Done(log, h.job) {
      DonePush(log, es, h.job);
    }
  }

  lemma KeepsDuly(w: World, capacity: nat, s: State, i: nat, a: Answer, s': State)
    requires Duly(w, s) && Step(w, capacity, s, i, a, s')
    ensures Duly(w, s')
  {
    hide HandlerDuly;
    var es := WorkerReports.LoggedBy(s.handlers[i], a);
    WorkerReports.LogBy(w, capacity, s, i, a, s');
    forall j | 0 <= j < |s'.handlers| ensures HandlerDuly(w, s'.log, s'.handlers[j]) {
      if j == i {
        OwnDuly(w, capacity, s, i, a, s');
      } else {
        OtherDuly(w, s.log, es, s.handlers[j]);
      }
    }
    NewAckDuly(w, s, i, a);
    AcksPush(w, s.log, es);
  }

  lemma NewAckDuly(w: World, s: State, i: nat, a: Answer)
    requires i < |s.handlers| && HandlerDuly(w, s.log, s.handlers[i]) && Enabled(w, s, s.handlers[i], a)
    ensures var es := WorkerReports.LoggedBy(s.handlers[i], a);
            && |es| <= 1
            && forall e :: e in es && e.Settled? && e.how.Ack? ==> Admissible(w, e.job) && Done(s.log, e.job)
  {
    hide Admissible, Done, Lookup, Accepted;
  }

  lemma AcksPush(w: World, log: Log, es: seq<Event>)
    requires AcksDuly(w, log) && |es| <= 1
    requires forall e :: e in es && e.Settled? && e.how.Ack? ==> Admissible(w, e.job) && Done(log, e.job)
    ensures AcksDuly(w, log + es)
  {
    hide Admissible, Done;
    var after := log + es;
    forall i | 0 <= i < |after| && after[i].Settled? && after[i].how.Ack?
      ensures Admissible(w, after[i].job) && Done(after[..i], after[i].job)
    {
      if i < |log| {
        assert after[..i] == log[..i] && after[i] == log[i];
      } else {
        assert after[..i] == log && after[i] == es[0];
        assert es[0] in es;
      }
    }
  }

  lemma {:induction false} RunDuly(w: World, capacity: nat, states: seq<State>, moves: seq<Move>, k: nat)
    requires Run(w, capacity, states, moves) && k < |states|
    ensures Duly(w, states[k])
  {
    hide Step;
    if k == 0 {
      assert forall i :: 0 <= i < |states[0].handlers| ==> states[0].handlers[i] in states[0].handlers;
    } else {
      RunDuly(w, capacity, states, moves, k - 1);
      KeepsDuly(w, capacity, states[k - 1], moves[k - 1].handler, moves[k - 1].answer, states[k]);
    }
  }

  /**
   In every run, an acknowledged job was of a known schema version, without blank parts and for a registered
   analyzer, and a forced one had its annotation written or its object found missing before.
   */
  lemma AckedDuly(w: World, capacity: nat, states: seq<State>, moves: seq<Move>, k: nat, i: nat)
    requires Run(w, capacity, states, moves) && k < |states|
    requires i < |states[k].log| && states[k].log[i].Settled? && states[k].log[i].how.Ack?
    ensures Admissible(w, states[k].log[i].job) && Done(states[k].log[..i], states[k].log[i].job)
  {
    hide Run, Admissible, Done;
    RunDuly(w, capacity, states, moves, k);
  }

  /** Whatever the state of cache and registry, some answer moves a handler on. */
  lemma NeverStuck(w: World, s: State, h: Handler)
    requires h.Busy?
    ensures exists a :: Enabled(w, s, h, a)
  {
    hide Lookup, Accepted, ValidDigest;
    var a :=
      match h.phase
      case Asking => Allowed
      case Sleeping => Slept
      case Checking =>
        if !Accepted(w, h.job) then Rejected
        else if !h.job.forced && Lookup(s.annotated, KeyOf(h.job)).Some? then CacheHit else CacheMiss
      case Querying => HasFails(Failure(false, false))
      case Noting(_) => Noted
      case Analyzing => Analyzed
      case Writing => WriteFails(Failure(false, false))
      case Failing(f) => if f.notExist then ManifestThere else NotAboutObject
      case Blaming(_) => Blame
      case Routing(_) => RouteClosed
      case Succeeding => Praise
      case Settling(_) => SettleOk;
    assert Enabled(w, s, h, a);
  }

  /** A reported failure is parked while the circuit is open or the backend unavailable, and retried otherwise. */
  lemma RoutedDuly(w: World, capacity: nat, s: State, i: nat, a: Answer, s': State)
    requires Step(w, capacity, s, i, a, s') && s.handlers[i].Busy? && s.handlers[i].phase.Routing?
    ensures a.RouteOpen? || a.RouteClosed?
    ensures s'.log == s.log && s'.handlers[i].Busy? && s'.handlers[i].phase ==
            Settling(if a.RouteOpen? || s.handlers[i].phase.failure.unavailable then Park else Retry)
  {
    hide Lookup, Accepted, ValidDigest;
  }
}
