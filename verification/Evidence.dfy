/**
 The signed comparison of two claim graphs, as functions of the claims: what each attribute adds to
 the evidence for and against, how the parts combine into a score, and the bounds they keep for every
 pair of graphs. Weights are reals; the cosine and the weight function are parameters.
 */
module Evidence {

  datatype Kind = Contextual | Functional | Set | Name

  datatype Role =
    RoleNone | AgentType | Locator | Account | Relationship | OrgRole | Note | Identifier | Event | Provenance

  datatype Bound = Unbounded | At(time: int)

  datatype Interval = Interval(first: Bound, last: Bound)

  datatype Claim = Claim(
    attr: string, value: string, hash: string, kind: Kind, role: Role,
    valid: Interval, sourceKey: string, ulid: string, supersedes: seq<string>)

  datatype Params = Params(
    tauSet: real, tauFunc: real, tauCtx: real, tauName: real,
    lambda: real, setPenalty: real, vetoMass: real, observationMode: bool,
    w: Claim -> real, cosine: (Claim, Claim) -> real)

  /** Weights are never negative and cosines never exceed one. */
  ghost predicate Sane(p: Params) {
    && (forall c :: p.w(c) >= 0.0)
    && (forall a, b :: p.cosine(a, b) <= 1.0)
    && p.lambda >= 0.0 && p.setPenalty >= 0.0
  }

  function Min(a: real, b: real): real { if a <= b then a else b }

  function Max(a: real, b: real): real { if a >= b then a else b }

  /** Two validity windows are contemporaneous unless one starts after the other has ended. */
  predicate Overlaps(i: Interval, o: Interval) {
    && !(i.first.At? && o.last.At? && i.first.time > o.last.time)
    && !(o.first.At? && i.last.At? && o.first.time > i.last.time)
  }

  predicate ValidAt(i: Interval, time: int) {
    (i.first.At? ==> i.first.time <= time) && (i.last.At? ==> time <= i.last.time)
  }

  /** Windows that are not empty are contemporaneous exactly when some time lies in both. */
  lemma OverlapsExactly(i: Interval, o: Interval)
    requires i.first.At? && i.last.At? ==> i.first.time <= i.last.time
    requires o.first.At? && o.last.At? ==> o.first.time <= o.last.time
    ensures Overlaps(i, o) <==> exists t :: ValidAt(i, t) && ValidAt(o, t)
  {
    if Overlaps(i, o) {
      var t := if i.first.At? && o.first.At? then (if i.first.time >= o.first.time then i.first.time else o.first.time)
               else if i.first.At? then i.first.time
               else if o.first.At? then o.first.time
               else if i.last.At? && o.last.At? then (if i.last.time <= o.last.time then i.last.time else o.last.time)
               else if i.last.At? then i.last.time
               else if o.last.At? then o.last.time else 0;
      assert ValidAt(i, t) && ValidAt(o, t);
    }
  }

  predicate ValueMatch(p: Params, a: Claim, b: Claim, tau: real) {
    Overlaps(a.valid, b.valid) && p.cosine(a, b) >= tau
  }

  predicate Linked(a: Claim, b: Claim) {
    b.ulid in a.supersedes || a.ulid in b.supersedes
  }

  /** The total weight of some claims. */
  function Weight(p: Params, cs: seq<Claim>): real {
    if cs == [] then 0.0 else Weight(p, cs[..|cs| - 1]) + p.w(cs[|cs| - 1])
  }

  // -------------------------------------------------------------------------------------------
  // Set attributes
  // -------------------------------------------------------------------------------------------

  /** The best match of one incoming claim: the smaller of the two weights. */
  function BestShared(p: Params, a: Claim, bs: seq<Claim>): real {
    if bs == [] then 0.0
    else
      var best, b := BestShared(p, a, bs[..|bs| - 1]), bs[|bs| - 1];
      if ValueMatch(p, a, b, p.tauSet) && Min(p.w(a), p.w(b)) > best then Min(p.w(a), p.w(b)) else best
  }

  function SharedMass(p: Params, av: seq<Claim>, bv: seq<Claim>): real {
    if av == [] then 0.0 else SharedMass(p, av[..|av| - 1], bv) + BestShared(p, av[|av| - 1], bv)
  }

  lemma {:induction false} BestSharedBounds(p: Params, a: Claim, bs: seq<Claim>)
    requires Sane(p)
    ensures 0.0 <= BestShared(p, a, bs) <= p.w(a)
    ensures BestShared(p, a, bs) > 0.0 ==> exists j :: 0 <= j < |bs| && ValueMatch(p, a, bs[j], p.tauSet)
  {
    if bs != [] {
      var front := bs[..|bs| - 1];
      BestSharedBounds(p, a, front);
      if BestShared(p, a, front) > 0.0 {
        var j :| 0 <= j < |front| && ValueMatch(p, a, front[j], p.tauSet);
        assert bs[j] == front[j];
      }
    }
  }

  /** Shared mass reflects the newcomer's own weight, however large the candidate. */
  lemma {:induction false} SharedMassBounds(p: Params, av: seq<Claim>, bv: seq<Claim>)
    requires Sane(p)
    ensures 0.0 <= SharedMass(p, av, bv) <= Weight(p, av)
    ensures SharedMass(p, av, bv) > 0.0 ==>
              exists i, j :: 0 <= i < |av| && 0 <= j < |bv| && ValueMatch(p, av[i], bv[j], p.tauSet)
  {
    if av != [] {
      var front, a := av[..|av| - 1], av[|av| - 1];
      SharedMassBounds(p, front, bv);
      BestSharedBounds(p, a, bv);
      if SharedMass(p, front, bv) > 0.0 {
        var i, j :| 0 <= i < |front| && 0 <= j < |bv| && ValueMatch(p, front[i], bv[j], p.tauSet);
        assert av[i] == front[i];
      }
    }
  }

  // -------------------------------------------------------------------------------------------
  // Functional attributes
  // -------------------------------------------------------------------------------------------

  datatype Signed = Signed(ic: real, iac: real, veto: bool)

  function Plus(x: Signed, y: Signed): Signed {
    Signed(x.ic + y.ic, x.iac + y.iac, x.veto || y.veto)
  }

  const NEUTRAL: Signed := Signed(0.0, 0.0, false)

  /** A co-valid pair of single values: agreement, licensed succession, or contradiction. */
  function PairScore(p: Params, a: Claim, b: Claim): Signed {
    if !Overlaps(a.valid, b.valid) then NEUTRAL
    else if ValueMatch(p, a, b, p.tauFunc) then Signed(p.w(a), 0.0, false)
    else if Linked(a, b) then NEUTRAL
    else Signed(0.0, Max(p.w(a), p.w(b)), Max(p.w(a), p.w(b)) >= p.vetoMass)
  }

  /** Co-valid values that are as close as single values must be. */
  ghost predicate Agrees(p: Params, a: Claim, b: Claim) {
    Overlaps(a.valid, b.valid) && p.cosine(a, b) >= p.tauFunc
  }

  /** Co-valid values that are not, and neither of which is filed as the successor of the other. */
  ghost predicate Contradicts(p: Params, a: Claim, b: Claim) {
    && Overlaps(a.valid, b.valid) && p.cosine(a, b) < p.tauFunc
    && b.ulid !in a.supersedes && a.ulid !in b.supersedes
  }

  /**
   Agreement counts with the incoming weight, a contradiction with the heavier of the two and as a veto
   if either weighs enough; any other pair counts nothing.
   */
  lemma PairAdds(p: Params, a: Claim, b: Claim)
    ensures var s := PairScore(p, a, b);
            && s.ic == (if Agrees(p, a, b) then p.w(a) else 0.0)
            && (Contradicts(p, a, b) ==>
                  && s.iac >= p.w(a) && s.iac >= p.w(b) && (s.iac == p.w(a) || s.iac == p.w(b))
                  && (s.veto <==> p.w(a) >= p.vetoMass || p.w(b) >= p.vetoMass))
            && (!Contradicts(p, a, b) ==> s.iac == 0.0 && !s.veto)
  {
  }

  function RowScore(p: Params, a: Claim, bs: seq<Claim>): Signed {
    if bs == [] then NEUTRAL else Plus(RowScore(p, a, bs[..|bs| - 1]), PairScore(p, a, bs[|bs| - 1]))
  }

  function FunctionalMass(p: Params, av: seq<Claim>, bv: seq<Claim>): Signed {
    if av == [] then NEUTRAL else Plus(FunctionalMass(p, av[..|av| - 1], bv), RowScore(p, av[|av| - 1], bv))
  }

  lemma {:induction false} RowScoreBounds(p: Params, a: Claim, bs: seq<Claim>)
    requires Sane(p)
    ensures RowScore(p, a, bs).ic >= 0.0 && RowScore(p, a, bs).iac >= 0.0
    ensures RowScore(p, a, bs).ic > 0.0 ==> exists j :: 0 <= j < |bs| && ValueMatch(p, a, bs[j], p.tauFunc)
    ensures RowScore(p, a, bs).veto <==> exists j :: 0 <= j < |bs| && Vetoes(p, a, bs[j])
  {
    hide Contradicts;
    if bs != [] {
      var front, b := bs[..|bs| - 1], bs[|bs| - 1];
      RowScoreBounds(p, a, front);
      assert forall j :: 0 <= j < |front| ==> front[j] == bs[j];
      if RowScore(p, a, front).ic > 0.0 {
        var j :| 0 <= j < |front| && ValueMatch(p, a, front[j], p.tauFunc);
        assert ValueMatch(p, a, bs[j], p.tauFunc);
      }
      PairAdds(p, a, b);
      if j :| 0 <= j < |front| && Vetoes(p, a, front[j]) {
        assert Vetoes(p, a, bs[j]);
      }
    }
  }

  /** Two claims that contradict each other, one of them heavy enough for a veto. */
  ghost predicate Vetoes(p: Params, a: Claim, b: Claim) {
    Contradicts(p, a, b) && (p.w(a) >= p.vetoMass || p.w(b) >= p.vetoMass)
  }

  ghost predicate VetoPair(p: Params, av: seq<Claim>, bv: seq<Claim>) {
    exists i, j :: 0 <= i < |av| && 0 <= j < |bv| && Vetoes(p, av[i], bv[j])
  }

  /** Every pair is counted once: the evidence adds up over either side, and of one pair it is the pair's. */
  lemma FunctionalPairwise(p: Params, x: seq<Claim>, y: seq<Claim>, u: seq<Claim>, v: seq<Claim>, a: Claim, b: Claim)
    ensures FunctionalMass(p, [a], [b]) == PairScore(p, a, b)
    ensures FunctionalMass(p, x + y, u) == Plus(FunctionalMass(p, x, u), FunctionalMass(p, y, u))
    ensures FunctionalMass(p, x, u + v) == Plus(FunctionalMass(p, x, u), FunctionalMass(p, x, v))
  {
    hide PairScore;
    assert [a][..0] == [] && [b][..0] == [];
    assert RowScore(p, a, [b]) == Plus(NEUTRAL, PairScore(p, a, b));
    assert FunctionalMass(p, [a], [b]) == Plus(NEUTRAL, RowScore(p, a, [b]));
    RowsAdd(p, x, y, u);
    ColumnsAdd(p, x, u, v);
  }

  lemma {:induction false} RowsAdd(p: Params, x: seq<Claim>, y: seq<Claim>, u: seq<Claim>)
    ensures FunctionalMass(p, x + y, u) == Plus(FunctionalMass(p, x, u), FunctionalMass(p, y, u))
    decreases |y|
  {
    hide RowScore, Plus;
    if y == [] {
      assert x + y == x;
      PlusNone(FunctionalMass(p, x, u));
    } else {
      var front, a := y[..|y| - 1], y[|y| - 1];
      RowsAdd(p, x, front, u);
      assert (x + y)[..|x + y| - 1] == x + front && (x + y)[|x + y| - 1] == a;
      PlusRegroup(FunctionalMass(p, x, u), FunctionalMass(p, front, u), RowScore(p, a, u));
    }
  }

  lemma {:induction false} RowAdds(p: Params, a: Claim, u: seq<Claim>, v: seq<Claim>)
    ensures RowScore(p, a, u + v) == Plus(RowScore(p, a, u), RowScore(p, a, v))
    decreases |v|
  {
    hide PairScore, Plus;
    if v == [] {
      assert u + v == u;
      PlusNone(RowScore(p, a, u));
    } else {
      var front, b := v[..|v| - 1], v[|v| - 1];
      RowAdds(p, a, u, front);
      assert (u + v)[..|u + v| - 1] == u + front && (u + v)[|u + v| - 1] == b;
      PlusRegroup(RowScore(p, a, u), RowScore(p, a, front), PairScore(p, a, b));
    }
  }

  lemma PlusNone(x: Signed)
    ensures Plus(x, NEUTRAL) == x
  {
  }

  lemma PlusRegroup(x: Signed, y: Signed, z: Signed)
    ensures Plus(Plus(x, y), z) == Plus(x, Plus(y, z))
  {
  }

  lemma {:induction false} ColumnsAdd(p: Params, x: seq<Claim>, u: seq<Claim>, v: seq<Claim>)
    ensures FunctionalMass(p, x, u + v) == Plus(FunctionalMass(p, x, u), FunctionalMass(p, x, v))
    decreases |x|
  {
    hide RowScore;
    if x != [] {
      ColumnsAdd(p, x[..|x| - 1], u, v);
      RowAdds(p, x[|x| - 1], u, v);
    }
  }

  lemma {:induction false} FunctionalBounds(p: Params, av: seq<Claim>, bv: seq<Claim>)
    requires Sane(p)
    ensures FunctionalMass(p, av, bv).ic >= 0.0 && FunctionalMass(p, av, bv).iac >= 0.0
    ensures FunctionalMass(p, av, bv).ic > 0.0 ==>
              exists i, j :: 0 <= i < |av| && 0 <= j < |bv| && ValueMatch(p, av[i], bv[j], p.tauFunc)
    ensures FunctionalMass(p, av, bv).veto <==> VetoPair(p, av, bv)
  {
    if av != [] {
      var front, a := av[..|av| - 1], av[|av| - 1];
      FunctionalBounds(p, front, bv);
      RowScoreBounds(p, a, bv);
      assert forall i :: 0 <= i < |front| ==> front[i] == av[i];
      if FunctionalMass(p, front, bv).ic > 0.0 {
        var i, j :| 0 <= i < |front| && 0 <= j < |bv| && ValueMatch(p, front[i], bv[j], p.tauFunc);
        assert ValueMatch(p, av[i], bv[j], p.tauFunc);
      }
      if i, j :| 0 <= i < |front| && 0 <= j < |bv| && Vetoes(p, front[i], bv[j]) {
        assert Vetoes(p, av[i], bv[j]);
      }
    }
  }

  // -------------------------------------------------------------------------------------------
  // Contextual attributes
  // -------------------------------------------------------------------------------------------

  function Scaled(w: real, s: real): real { w * s }

  function BestContext(p: Params, a: Claim, bs: seq<Claim>): real {
    if bs == [] then 0.0
    else
      var best, b := BestContext(p, a, bs[..|bs| - 1]), bs[|bs| - 1];
      var mass := Scaled(p.w(a), p.cosine(a, b));
      if Overlaps(a.valid, b.valid) && p.cosine(a, b) >= p.tauCtx && mass > best then mass else best
  }

  function ContextMass(p: Params, av: seq<Claim>, bv: seq<Claim>): real {
    if av == [] then 0.0 else ContextMass(p, av[..|av| - 1], bv) + BestContext(p, av[|av| - 1], bv)
  }

  lemma ScaledDown(w: real, s: real)
    requires w >= 0.0 && s <= 1.0
    ensures Scaled(w, s) <= w
  {
    assert w * (1.0 - s) >= 0.0;
    assert w * (1.0 - s) == w - w * s;
  }

  lemma {:induction false} BestContextBounds(p: Params, a: Claim, bs: seq<Claim>)
    requires Sane(p)
    ensures 0.0 <= BestContext(p, a, bs) <= p.w(a)
  {
    hide Scaled;
    if bs != [] {
      BestContextBounds(p, a, bs[..|bs| - 1]);
      ScaledDown(p.w(a), p.cosine(a, bs[|bs| - 1]));
    }
  }

  lemma {:induction false} ContextBounds(p: Params, av: seq<Claim>, bv: seq<Claim>)
    requires Sane(p)
    ensures 0.0 <= ContextMass(p, av, bv) <= Weight(p, av)
  {
    if av != [] {
      ContextBounds(p, av[..|av| - 1], bv);
      BestContextBounds(p, av[|av| - 1], bv);
    }
  }

  // -------------------------------------------------------------------------------------------
  // Names: greedy one-to-one matching of tokens
  // -------------------------------------------------------------------------------------------

  predicate InitialMatch(a: string, b: string) {
    if |a| == 1 && |b| >= 1 then a[0] == b[0]
    else if |b| == 1 && |a| >= 1 then b[0] == a[0]
    else false
  }

  /** `short` is the initial of `token`. */
  predicate InitialOf(short: string, token: string) {
    |short| == 1 && short <= token
  }

  /** An initial stands for every token that begins with it, on either side. */
  lemma InitialExactly(a: string, b: string)
    ensures InitialMatch(a, b) <==> InitialOf(a, b) || InitialOf(b, a)
  {
  }

  predicate TokenMatch(p: Params, a: Claim, b: Claim) {
    a.value == b.value || InitialMatch(a.value, b.value) || p.cosine(a, b) >= p.tauName
  }

  /** A candidate token `b` may stand for `a`. */
  predicate Pairable(p: Params, a: Claim, b: Claim) {
    Overlaps(a.valid, b.valid) && TokenMatch(p, a, b)
  }

  datatype Pick = Pick(best: int, mass: real)

  /** The first heaviest free partner of `a` among the first `n` candidate tokens; -1 if none. */
  function PickPartner(p: Params, a: Claim, bv: seq<Claim>, taken: set<int>, n: nat): (r: Pick)
    requires n <= |bv|
    ensures -1 <= r.best < n
    ensures r.best >= 0 ==>
              r.best !in taken && Pairable(p, a, bv[r.best]) && r.mass == Min(p.w(a), p.w(bv[r.best])) > 0.0
    ensures r.best < 0 ==> r.mass == 0.0
  {
    if n == 0 then Pick(-1, 0.0)
    else
      var r, j := PickPartner(p, a, bv, taken, n - 1), n - 1;
      if j !in taken && Pairable(p, a, bv[j]) && Min(p.w(a), p.w(bv[j])) > r.mass
      then Pick(j, Min(p.w(a), p.w(bv[j]))) else r
  }

  /** Which tokens are matched on either side, and the mass they share. */
  datatype Matching = Matching(left: set<int>, right: set<int>, shared: real)

  function MatchNames(p: Params, av: seq<Claim>, bv: seq<Claim>, n: nat): Matching
    requires n <= |av|
  {
    if n == 0 then Matching({}, {}, 0.0)
    else
      var m := MatchNames(p, av, bv, n - 1);
      var pick := PickPartner(p, av[n - 1], bv, m.right, |bv|);
      if pick.best >= 0 then Matching(m.left + {n - 1}, m.right + {pick.best}, m.shared + pick.mass) else m
  }

  /** The weight of the tokens at the given positions. */
  function WeightAt(p: Params, cs: seq<Claim>, at: set<int>): real {
    if cs == [] then 0.0
    else WeightAt(p, cs[..|cs| - 1], at) + (if |cs| - 1 in at then p.w(cs[|cs| - 1]) else 0.0)
  }

  lemma {:induction false} WeightAtMost(p: Params, cs: seq<Claim>, at: set<int>)
    requires Sane(p)
    ensures 0.0 <= WeightAt(p, cs, at) <= Weight(p, cs)
  {
    if cs != [] {
      WeightAtMost(p, cs[..|cs| - 1], at);
    }
  }

  lemma {:induction false} WeightAtAdd(p: Params, cs: seq<Claim>, at: set<int>, i: int)
    requires i !in at
    ensures WeightAt(p, cs, at + {i}) == WeightAt(p, cs, at) + (if 0 <= i < |cs| then p.w(cs[i]) else 0.0)
  {
    if cs != [] {
      WeightAtAdd(p, cs[..|cs| - 1], at, i);
    }
  }

  /**
   The matching is one-to-one, so the shared mass is bounded by the matched weight of either side, and
   positive mass means some token really matched.
   */
  lemma {:induction false} MatchBounds(p: Params, av: seq<Claim>, bv: seq<Claim>, n: nat)
    requires Sane(p) && n <= |av|
    ensures var m := MatchNames(p, av, bv, n);
            && (forall i :: i in m.left ==> 0 <= i < n)
            && |m.left| == |m.right|
            && 0.0 <= m.shared <= WeightAt(p, av, m.left)
            && m.shared <= WeightAt(p, bv, m.right)
            && (m.left != {} ==> exists i, j :: 0 <= i < n && 0 <= j < |bv| && Pairable(p, av[i], bv[j]))
            && (m.left == {} ==> m.shared == 0.0)
  {
    if n == 0 {
      WeightAtMost(p, av, {});
      WeightAtMost(p, bv, {});
    } else {
      MatchBounds(p, av, bv, n - 1);
      var m := MatchNames(p, av, bv, n - 1);
      var pick := PickPartner(p, av[n - 1], bv, m.right, |bv|);
      if pick.best >= 0 {
        assert n - 1 !in m.left;
        WeightAtAdd(p, av, m.left, n - 1);
        WeightAtAdd(p, bv, m.right, pick.best);
        assert Pairable(p, av[n - 1], bv[pick.best]);
      }
    }
  }

  /** A side carries an unmatched token that is more than an initial. */
  predicate Divergent(cs: seq<Claim>, matched: set<int>) {
    exists i :: 0 <= i < |cs| && i !in matched && |cs[i].value| > 1
  }

  function HeaviestUnmatched(p: Params, cs: seq<Claim>, matched: set<int>): real {
    if cs == [] then 0.0
    else
      var best := HeaviestUnmatched(p, cs[..|cs| - 1], matched);
      if |cs| - 1 !in matched && p.w(cs[|cs| - 1]) > best then p.w(cs[|cs| - 1]) else best
  }

  predicate LinkedAcross(av: seq<Claim>, bv: seq<Claim>) {
    exists i, j :: 0 <= i < |av| && 0 <= j < |bv| && Linked(av[i], bv[j])
  }

  /** Shared tokens corroborate unless both sides diverge; a mutual divergence counts against. */
  function NameMass(p: Params, av: seq<Claim>, bv: seq<Claim>): Signed {
    var m := MatchNames(p, av, bv, |av|);
    if Divergent(av, m.left) && Divergent(bv, m.right) && !LinkedAcross(av, bv)
    then Signed(0.0, Min(HeaviestUnmatched(p, av, m.left), HeaviestUnmatched(p, bv, m.right)), false)
    else Signed(m.shared, 0.0, false)
  }

  lemma {:induction false} HeaviestNonNegative(p: Params, cs: seq<Claim>, matched: set<int>)
    ensures HeaviestUnmatched(p, cs, matched) >= 0.0
  {
    if cs != [] {
      HeaviestNonNegative(p, cs[..|cs| - 1], matched);
    }
  }

  /** Name evidence is bounded by the weight of both names. */
  lemma NameBounds(p: Params, av: seq<Claim>, bv: seq<Claim>)
    requires Sane(p)
    ensures var s := NameMass(p, av, bv);
            && 0.0 <= s.ic <= Weight(p, av) && s.ic <= Weight(p, bv) && s.iac >= 0.0 && !s.veto
            && (s.ic > 0.0 ==> exists i, j :: 0 <= i < |av| && 0 <= j < |bv| && Pairable(p, av[i], bv[j]))
  {
    var m := MatchNames(p, av, bv, |av|);
    MatchBounds(p, av, bv, |av|);
    WeightAtMost(p, av, m.left);
    WeightAtMost(p, bv, m.right);
    HeaviestNonNegative(p, av, m.left);
    HeaviestNonNegative(p, bv, m.right);
  }
}
