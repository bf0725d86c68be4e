/**
 What a handler tells the circuit breaker. `ReportedOnce` says, for every run: a settled delivery was refused
 and then only parked, or was dropped because its object is missing and reported nothing, or was admitted and
 reported exactly one result, the one its settlement stands for.
 */
module WorkerReports {
  import opened Recency
  import opened Worker

  /** How often a delivery was refused, and how often each result was reported for it. */
  datatype Tally = Tally(refused: nat, good: nat, bad: nat)

  const NONE: Tally := Tally(0, 0, 0)

  function TallyOf(log: Log, r: nat): Tally {
    Tally(multiset(log)[Refused(r)], multiset(log)[Recorded(r, true)], multiset(log)[Recorded(r, false)])
  }

  function Tallied(t: Tally, e: Event, r: nat): Tally {
    if e == Refused(r) then t.(refused := t.refused + 1)
    else if e == Recorded(r, true) then t.(good := t.good + 1)
    else if e == Recorded(r, false) then t.(bad := t.bad + 1)
    else t
  }

  lemma TallyPush(log: Log, e: Event, r: nat)
    ensures TallyOf(log + [e], r) == Tallied(TallyOf(log, r), e, r)
  {
  }

  /** What has to be reported before a delivery is settled this way. */
  predicate Warrants(t: Tally, gone: bool, how: Settlement) {
    match how
    case Ack => t == Tally(0, 1, 0) || (t == NONE && gone)
    case Retry => t == Tally(0, 0, 1)
    case Park => t == Tally(1, 0, 0) || t == Tally(0, 0, 1)
  }

  /** What has been reported at each point of a handler. */
  predicate Reported(t: Tally, gone: bool, p: Phase) {
    match p
    case Sleeping => t == Tally(1, 0, 0)
    case Routing(_) => t == Tally(0, 0, 1)
    case Settling(how) => Warrants(t, gone, how)
    case _ => t == NONE
  }

  predicate Gone(log: Log, job: Job) { Missing(job.digest) in log }

  ghost predicate HandlerTold(log: Log, h: Handler) {
    h.Busy? ==> Reported(TallyOf(log, h.receipt), Gone(log, h.job), h.phase)
  }

  ghost predicate SettledTold(log: Log) {
    forall i :: 0 <= i < |log| && log[i].Settled? ==>
                  Warrants(TallyOf(log[..i], log[i].receipt), Gone(log[..i], log[i].job), log[i].how)
  }

  ghost predicate Told(s: State) {
    && (forall i :: 0 <= i < |s.handlers| ==> HandlerTold(s.log, s.handlers[i]))
    && (forall r: nat :: r >= s.next ==> TallyOf(s.log, r) == NONE)
    && SettledTold(s.log)
  }

  /** The event a step logs, if any. */
  function LoggedBy(h: Handler, a: Answer): (r: seq<Event>) {
    if h.Free? then []
    else
      match a
      case Denied => [Refused(h.receipt)]
      case Has => [Seen(h.job.digest, h.job.name, h.job.version)]
      case WriteOk => [Written(h.job.digest, h.job.name, h.job.version)]
      case ManifestMissing => [Missing(h.job.digest)]
      case Blame => [Recorded(h.receipt, false)]
      case Praise => [Recorded(h.receipt, true)]
      case SettleOk => if h.phase.Settling? then [Settled(h.phase.how, h.receipt, h.job)] else []
      case _ => []
  }

  lemma LogBy(w: World, capacity: nat, s: State, i: nat, a: Answer, s': State)
    requires Step(w, capacity, s, i, a, s')
    ensures s'.log == s.log + LoggedBy(s.handlers[i], a)
  {
    hide ValidJob, Lookup, Touch, PutCounted;
  }

  /** Only a delivery's own handler refuses it or reports for it. */
  lemma OthersUntold(w: World, capacity: nat, s: State, i: nat, a: Answer, s': State, r: nat)
    requires Step(w, capacity, s, i, a, s') && (s.handlers[i].Busy? ==> s.handlers[i].receipt != r)
    ensures TallyOf(s'.log, r) == TallyOf(s.log, r)
  {
    hide Step, TallyOf;
    StepIndex(w, capacity, s, i, a, s');
    LogBy(w, capacity, s, i, a, s');
    var logged := LoggedBy(s.handlers[i], a);
    if logged != [] {
      TallyPush(s.log, logged[0], r);
      assert logged == [logged[0]];
    } else {
      assert s.log + [] == s.log;
    }
  }

  lemma GoneStays(w: World, capacity: nat, s: State, i: nat, a: Answer, s': State, job: Job)
    requires Step(w, capacity, s, i, a, s') && Gone(s.log, job)
    ensures Gone(s'.log, job)
  {
    hide Step;
    LogBy(w, capacity, s, i, a, s');
  }

  /** The stepping handler has reported what its next point asks for. */
  lemma OwnTold(w: World, capacity: nat, s: State, i: nat, a: Answer, s': State)
    requires Told(s) && Step(w, capacity, s, i, a, s')
    ensures HandlerTold(s'.log, s'.handlers[i])
  {
    hide TallyOf, ValidJob, SettledTold, Lookup, Touch, PutCounted;
    var h := s.handlers[i];
    assert HandlerTold(s.log, h);
    LogBy(w, capacity, s, i, a, s');
    if a.Begin? {
      assert s.log + [] == s.log;
    } else {
      var logged := LoggedBy(h, a);
      if logged != [] {
        TallyPush(s.log, logged[0], h.receipt);
        assert logged == [logged[0]];
      } else {
        assert s.log + [] == s.log;
      }
      if Gone(s.log, h.job) {
        GoneStays(w, capacity, s, i, a, s', h.job);
      }
    }
  }

  lemma SettledMore(log: Log, e: Event)
    requires SettledTold(log) && (e.Settled? ==> Warrants(TallyOf(log, e.receipt), Gone(log, e.job), e.how))
    ensures SettledTold(log + [e])
  {
    hide TallyOf, Warrants, Gone;
    assert (log + [e])[..|log|] == log;
    forall i | 0 <= i < |log| ensures (log + [e])[..i] == log[..i] {
    }
  }

  lemma KeepsSettledTold(w: World, capacity: nat, s: State, i: nat, a: Answer, s': State)
    requires Told(s) && Step(w, capacity, s, i, a, s')
    ensures SettledTold(s'.log)
  {
    hide TallyOf, Gone, Warrants, SettledTold, Step;
    StepIndex(w, capacity, s, i, a, s');
    LogBy(w, capacity, s, i, a, s');
    var logged := LoggedBy(s.handlers[i], a);
    assert HandlerTold(s.log, s.handlers[i]);
    if logged != [] {
      assert logged == [logged[0]];
      SettledMore(s.log, logged[0]);
    } else {
      assert s.log + [] == s.log;
    }
  }

  /** Every step of every handler keeps the reports in order. */
  lemma KeepsTold(w: World, capacity: nat, s: State, i: nat, a: Answer, s': State)
    requires Inv(s) && Told(s) && Step(w, capacity, s, i, a, s')
    ensures Told(s')
  {
    hide Step, TallyOf, SettledTold, Backed, Settlements, Reported;
    StepIndex(w, capacity, s, i, a, s');
    FinishedStep(w, capacity, s, i, a, s');
    KeepsSettledTold(w, capacity, s, i, a, s');
    forall j | 0 <= j < |s'.handlers| ensures HandlerTold(s'.log, s'.handlers[j]) {
      if j == i {
        OwnTold(w, capacity, s, i, a, s');
      } else {
        OtherTold(w, capacity, s, i, a, s', j);
      }
    }
    forall r: nat | r >= s'.next ensures TallyOf(s'.log, r) == NONE {
      OthersUntold(w, capacity, s, i, a, s', r);
    }
  }

  lemma OtherTold(w: World, capacity: nat, s: State, i: nat, a: Answer, s': State, j: nat)
    requires Inv(s) && Told(s) && Step(w, capacity, s, i, a, s') && j < |s.handlers| && j != i
    ensures HandlerTold(s'.log, s.handlers[j])
  {
    hide Step, TallyOf, SettledTold, Backed, Settlements;
    StepIndex(w, capacity, s, i, a, s');
    var h := s.handlers[j];
    assert HandlerTold(s.log, h);
    if h.Busy? {
      OthersUntold(w, capacity, s, i, a, s', h.receipt);
      if Gone(s.log, h.job) {
        GoneStays(w, capacity, s, i, a, s', h.job);
      }
    }
  }

  lemma {:induction false} RunTold(w: World, capacity: nat, states: seq<State>, moves: seq<Move>, k: nat)
    requires Run(w, capacity, states, moves) && k < |states|
    ensures Told(states[k])
  {
    hide Step, Inv, Told;
    if k == 0 {
      NothingTold(states[0]);
    } else {
      RunTold(w, capacity, states, moves, k - 1);
      RunKeeps(w, capacity, states, moves, k - 1);
      KeepsTold(w, capacity, states[k - 1], moves[k - 1].handler, moves[k - 1].answer, states[k]);
    }
  }

  lemma NothingTold(s: State)
    requires Initial(s)
    ensures Told(s)
  {
    assert forall i :: 0 <= i < |s.handlers| ==> s.handlers[i] in s.handlers;
  }

  /**
   In every run, at the moment a delivery is settled: an acknowledged one reported one success, or nothing
   because its object is missing; a retried one reported one failure; a parked one was refused and reported
   nothing, or reported one failure.
   */
  lemma ReportedOnce(w: World, capacity: nat, states: seq<State>, moves: seq<Move>, k: nat, i: nat)
    requires Run(w, capacity, states, moves) && k < |states| && i < |states[k].log| && states[k].log[i].Settled?
    ensures var e, before := states[k].log[i], states[k].log[..i];
            match e.how
            case Ack =>
              || TallyOf(before, e.receipt) == Tally(0, 1, 0)
              || (TallyOf(before, e.receipt) == NONE && Missing(e.job.digest) in before)
            case Retry => TallyOf(before, e.receipt) == Tally(0, 0, 1)
            case Park => TallyOf(before, e.receipt) in {Tally(1, 0, 0), Tally(0, 0, 1)}
  {
    hide Run, TallyOf, HandlerTold;
    RunTold(w, capacity, states, moves, k);
  }
}
