/**
 The per-analyzer circuit breaker. The object keeps a small record per key; `Explained` ties that record
 to the key's whole history of admissions and results, so that whether a call is admitted is decided by
 the history alone (`AllowExact`).
 */
module CircuitBreaker {
  import opened Options

  const TWO62: int := 0x4000_0000_0000_0000

  /** 64-bit two's complement. */
  function Wrap(x: int): int {
    (x + 2 * TWO62) % (4 * TWO62) - 2 * TWO62
  }

  lemma WrapSmall(x: int)
    requires 0 <= x < 2 * TWO62
    ensures Wrap(x) == x
  {
  }

  function Pow2(n: nat): nat {
    if n == 0 then 1 else 2 * Pow2(n - 1)
  }

  function Min(a: int, b: int): int { if a <= b then a else b }

  /** The n-th consecutive window. */
  function Window(base: int, max: int, n: nat): int
    requires n >= 1
  {
    Min(base * Pow2(n - 1), max)
  }

  datatype Config = Config(threshold: nat, base: int, max: int)

  const DEFAULTS: Config := Config(5, 15_000_000_000, 600_000_000_000)

  ghost predicate Sane(c: Config) {
    c.threshold >= 1 && 0 < c.base < TWO62 && 0 < c.max < TWO62
  }

  lemma {:induction false} Doubling(base: int, n: nat, m: nat)
    requires base > 0 && n <= m
    ensures base * Pow2(n) <= base * Pow2(m)
  {
    if n < m {
      Doubling(base, n, m - 1);
      assert base * Pow2(m) == 2 * (base * Pow2(m - 1));
    }
  }

  lemma DoubleOnce(base: int, n: nat)
    ensures base * Pow2(n + 1) == 2 * (base * Pow2(n))
  {
  }

  /** Doubles in 64-bit arithmetic and stops early; it never overflows and gives the exact window. */
  method BackoffFor(c: Config, sequence: nat) returns (backoff: int)
    requires Sane(c) && sequence >= 1
    ensures backoff == Window(c.base, c.max, sequence)
  {
    backoff := c.base;
    for k := 0 to sequence - 1
      invariant backoff == c.base * Pow2(k) && 0 < backoff < TWO62
    {
      DoubleOnce(c.base, k);
      WrapSmall(backoff * 2);
      backoff := Wrap(backoff * 2);
      if backoff >= c.max {
        Doubling(c.base, k + 1, sequence - 1);
        return c.max;
      }
    }
    if backoff > c.max {
      return c.max;
    }
  }

  // -------------------------------------------------------------------------------------------
  // One key's record and its history
  // -------------------------------------------------------------------------------------------

  datatype Record = Record(openUntil: int, failures: nat, openSequence: nat, halfOpen: bool)

  /** What happened to a key, at which time. */
  datatype Event = Admitted(now: int) | Denied(now: int) | Succeeded | Failed(now: int)

  type History = seq<Event>

  /** Failures since the last success. */
  function Failures(h: History): nat {
    if h == [] then 0
    else
      match h[|h| - 1]
      case Succeeded => 0
      case Failed(_) => Failures(h[..|h| - 1]) + 1
      case _ => Failures(h[..|h| - 1])
  }

  /** The time of the last failure. */
  function LastFailure(h: History): int {
    if h == [] then 0
    else if h[|h| - 1].Failed? then h[|h| - 1].now
    else LastFailure(h[..|h| - 1])
  }

  /** Admissions since the last recorded result. */
  function AdmittedSince(h: History): nat {
    if h == [] then 0
    else
      match h[|h| - 1]
      case Succeeded => 0
      case Failed(_) => 0
      case Admitted(_) => AdmittedSince(h[..|h| - 1]) + 1
      case Denied(_) => AdmittedSince(h[..|h| - 1])
  }

  /** The end of the window the last failure opened. */
  function OpenUntil(c: Config, h: History): int
    requires Failures(h) >= c.threshold >= 1
  {
    LastFailure(h) + Window(c.base, c.max, Failures(h) - c.threshold + 1)
  }

  /** Whether the history lets a call in. */
  predicate Admits(c: Config, h: History, now: int)
    requires c.threshold >= 1
  {
    Failures(h) < c.threshold || (now >= OpenUntil(c, h) && AdmittedSince(h) == 0)
  }

  /** The record says exactly what the history does. */
  ghost predicate Explained(c: Config, r: Option<Record>, h: History)
    requires c.threshold >= 1
  {
    match r
    case None => Failures(h) == 0
    case Some(s) =>
      && s.failures == Failures(h) >= 1
      && (s.failures < c.threshold ==> s.openSequence == 0 && !s.halfOpen)
      && (s.failures >= c.threshold ==>
            && s.openSequence == s.failures - c.threshold + 1
            && s.openUntil == OpenUntil(c, h)
            && (s.halfOpen <==> AdmittedSince(h) > 0))
  }

  /** Every admission in the history was one the history up to it let in. */
  ghost predicate Honest(c: Config, h: History)
    requires c.threshold >= 1
  {
    forall i :: 0 <= i < |h| ==>
                  && (h[i].Admitted? ==> Admits(c, h[..i], h[i].now))
                  && (h[i].Denied? ==> !Admits(c, h[..i], h[i].now))
  }

  lemma HonestStep(c: Config, h: History, e: Event)
    requires c.threshold >= 1 && Honest(c, h)
    requires (e.Admitted? ==> Admits(c, h, e.now)) && (e.Denied? ==> !Admits(c, h, e.now))
    ensures Honest(c, h + [e])
  {
    assert (h + [e])[..|h|] == h;
    assert forall i :: 0 <= i < |h| ==> (h + [e])[..i] == h[..i];
  }

  ghost predicate Good(c: Config, r: Option<Record>, h: History)
    requires c.threshold >= 1
  {
    Explained(c, r, h) && Honest(c, h)
  }

  lemma Extend(h: History, e: Event)
    ensures (h + [e])[..|h + [e]| - 1] == h && (h + [e])[|h + [e]| - 1] == e
  {
  }

  /** What asking leaves: a record that is tripped and lets someone in becomes half open. */
  function Asked(c: Config, r: Option<Record>, admitted: bool): Option<Record> {
    if r.Some? && r.value.failures >= c.threshold && admitted then Some(r.value.(halfOpen := true)) else r
  }

  lemma AskedGood(c: Config, r: Option<Record>, h: History, now: int)
    requires Sane(c) && Good(c, r, h)
    ensures var admitted := Admits(c, h, now);
            Good(c, Asked(c, r, admitted), h + [if admitted then Admitted(now) else Denied(now)])
  {
    var e := if Admits(c, h, now) then Admitted(now) else Denied(now);
    HonestStep(c, h, e);
    Extend(h, e);
  }

  lemma SucceededGood(c: Config, h: History)
    requires Sane(c) && Honest(c, h)
    ensures Good(c, None, h + [Succeeded])
  {
    HonestStep(c, h, Succeeded);
    Extend(h, Succeeded);
  }

  function FailedRecord(c: Config, r: Option<Record>, now: int): Record {
    var s := if r.Some? then r.value else Record(0, 0, 0, false);
    if s.halfOpen || s.failures + 1 >= c.threshold
    then Record(now + Window(c.base, c.max, s.openSequence + 1), s.failures + 1, s.openSequence + 1, false)
    else s.(failures := s.failures + 1)
  }

  lemma FailedGood(c: Config, r: Option<Record>, h: History, now: int)
    requires Sane(c) && Good(c, r, h)
    ensures Good(c, Some(FailedRecord(c, r, now)), h + [Failed(now)])
  {
    HonestStep(c, h, Failed(now));
    Extend(h, Failed(now));
  }

  lemma GoodHonest(c: Config, r: Option<Record>, h: History)
    requires c.threshold >= 1 && Good(c, r, h)
    ensures Honest(c, h)
  {
  }

  /** The record and the history agree on whether to admit. */
  lemma AllowExact(c: Config, r: Option<Record>, h: History, now: int)
    requires Sane(c) && Good(c, r, h)
    ensures Admits(c, h, now) <==>
              r.None? || r.value.failures < c.threshold || (now >= r.value.openUntil && !r.value.halfOpen)
  {
  }

  class Breaker {
    const config: Config
    var states: map<string, Record>
    ghost var history: map<string, History>

    ghost function Of(key: string): History
      reads this
    {
      if key in history then history[key] else []
    }

    function Get(key: string): Option<Record>
      reads this
    {
      if key in states then Some(states[key]) else None
    }

    ghost predicate Valid()
      reads this
    {
      Sane(config) && forall key :: Good(config, Get(key), Of(key))
    }

    constructor ()
      ensures Valid() && config == DEFAULTS && states == map[] && forall key :: Of(key) == []
    {
      config, states, history := DEFAULTS, map[], map[];
    }

    /** Admits exactly the calls the key's history lets in, and disturbs no other key. */
    method Allow(key: string, now: int) returns (admitted: bool)
      requires Valid()
      modifies this
      ensures Valid()
      ensures admitted == Admits(config, old(Of(key)), now)
      ensures Of(key) == old(Of(key)) + [if admitted then Admitted(now) else Denied(now)]
      ensures forall k :: k != key ==> Of(k) == old(Of(k)) && Get(k) == old(Get(k))
    {
      hide Good, Window;
      ghost var h := Of(key);
      AllowExact(config, Get(key), h, now);
      AskedGood(config, Get(key), h, now);
      if key !in states || states[key].failures < config.threshold {
        admitted := true;
      } else if now < states[key].openUntil {
        admitted := false;
      } else if states[key].halfOpen {
        admitted := false;
      } else {
        states := states[key := states[key].(halfOpen := true)];
        admitted := true;
      }
      history := history[key := h + [if admitted then Admitted(now) else Denied(now)]];
      forall k ensures Good(config, Get(k), Of(k)) {
        assert k != key ==> old(Good(config, Get(k), Of(k)));
      }
    }

    method RecordSuccess(key: string)
      requires Valid()
      modifies this
      ensures Valid() && Of(key) == old(Of(key)) + [Succeeded]
      ensures forall k :: k != key ==> Of(k) == old(Of(k)) && Get(k) == old(Get(k))
    {
      hide Good;
      ghost var h := Of(key);
      GoodHonest(config, Get(key), h);
      SucceededGood(config, h);
      states := states - {key};
      history := history[key := h + [Succeeded]];
      forall k ensures Good(config, Get(k), Of(k)) {
        assert k != key ==> old(Good(config, Get(k), Of(k)));
      }
    }

    method RecordFailure(key: string, now: int)
      requires Valid()
      modifies this
      ensures Valid() && Of(key) == old(Of(key)) + [Failed(now)]
      ensures forall k :: k != key ==> Of(k) == old(Of(k)) && Get(k) == old(Get(k))
    {
      hide Good, Window;
      ghost var h := Of(key);
      FailedGood(config, Get(key), h, now);
      var state := if key in states then states[key] else Record(0, 0, 0, false);
      state := state.(failures := state.failures + 1);
      if state.halfOpen || state.failures >= config.threshold {
        var window := BackoffFor(config, state.openSequence + 1);
        state := Record(now + window, state.failures, state.openSequence + 1, false);
      }
      states := states[key := state];
      history := history[key := h + [Failed(now)]];
      forall k ensures Good(config, Get(k), Of(k)) {
        assert k != key ==> old(Good(config, Get(k), Of(k)));
      }
    }

    method IsOpen(key: string, now: int) returns (open: bool)
      requires Valid()
      ensures open <==> Failures(Of(key)) >= config.threshold && now < OpenUntil(config, Of(key))
    {
      assert Good(config, Get(key), Of(key));
      if key !in states || states[key].failures < config.threshold {
        return false;
      }
      open := now < states[key].openUntil;
    }
  }

  // -------------------------------------------------------------------------------------------
  // What that means for runs
  // -------------------------------------------------------------------------------------------

  /** Once tripped, at most one call is admitted between consecutive results. */
  lemma {:induction false} AtMostOneProbe(c: Config, h: History)
    requires Sane(c) && Honest(c, h) && Failures(h) >= c.threshold
    ensures AdmittedSince(h) <= 1
  {
    if h != [] {
      var front, e := h[..|h| - 1], h[|h| - 1];
      assert forall i :: 0 <= i < |front| ==> front[..i] == h[..i] && front[i] == h[i];
      if !e.Failed? && !e.Succeeded? {
        AtMostOneProbe(c, front);
      }
    }
  }

  /** Once tripped, nobody is admitted before the window is over. */
  lemma NoneBeforeWindow(c: Config, h: History, i: nat)
    requires Sane(c) && Honest(c, h) && i < |h| && h[i].Admitted? && Failures(h[..i]) >= c.threshold
    ensures h[i].now >= LastFailure(h[..i]) + Window(c.base, c.max, Failures(h[..i]) - c.threshold + 1)
    ensures AdmittedSince(h[..i]) == 0
  {
    assert Admits(c, h[..i], h[i].now);
  }

  /** Fewer than threshold failures never block. */
  lemma NeverBlockedBelow(c: Config, h: History, i: nat)
    requires Sane(c) && Honest(c, h) && i < |h| && h[i].Denied?
    ensures Failures(h[..i]) >= c.threshold
  {
    assert !Admits(c, h[..i], h[i].now);
  }
}
