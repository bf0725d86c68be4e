/**
 The whole signed comparison: claims restricted to their current frontier, grouped by attribute and
 deduplicated by source, every shared attribute's evidence added up, and the sums combined into a
 score. `EvidenceBounds` bounds every part for every pair of graphs; `AnchorNeeded` says what a
 positive score at ingest rests on.
 */
module IdDiff {
  import opened Ordering
  import opened Evidence

  // -------------------------------------------------------------------------------------------
  // Selecting claims
  // -------------------------------------------------------------------------------------------

  /** The claims that satisfy a test, in order. */
  function Filter(cs: seq<Claim>, keep: Claim -> bool): (r: seq<Claim>)
    ensures forall c :: c in r ==> c in cs && keep(c)
  {
    if cs == [] then []
    else
      var front := Filter(cs[..|cs| - 1], keep);
      if keep(cs[|cs| - 1]) then front + [cs[|cs| - 1]] else front
  }

  lemma {:induction false} FilterWeight(p: Params, cs: seq<Claim>, keep: Claim -> bool)
    requires Sane(p)
    ensures Weight(p, Filter(cs, keep)) <= Weight(p, cs)
  {
    if cs != [] {
      FilterWeight(p, cs[..|cs| - 1], keep);
      var front, last := Filter(cs[..|cs| - 1], keep), cs[|cs| - 1];
      assert (front + [last])[..|front|] == front;
    }
  }

  function Superseded(cs: seq<Claim>): set<string> {
    set i, u | 0 <= i < |cs| && u in cs[i].supersedes :: u
  }

  /** The claims no other claim of the graph supersedes. */
  function Frontier(cs: seq<Claim>): seq<Claim> {
    var gone := Superseded(cs);
    Filter(cs, (c: Claim) => c.ulid == "" || c.ulid !in gone)
  }

  function Group(cs: seq<Claim>, attr: string): seq<Claim> {
    Filter(cs, (c: Claim) => c.attr == attr)
  }

  function Others(cs: seq<Claim>, attr: string): seq<Claim> {
    Filter(cs, (c: Claim) => c.attr != attr)
  }

  function SourceKey(c: Claim): string {
    c.sourceKey + "\0" + c.hash
  }

  /** An earlier claim came from the same source with the same hash. */
  predicate Repeated(cs: seq<Claim>, c: Claim) {
    c.sourceKey != "" && exists d :: d in cs && d.sourceKey != "" && SourceKey(d) == SourceKey(c)
  }

  function Deduped(cs: seq<Claim>): (r: seq<Claim>)
    ensures forall c :: c in r ==> c in cs
    ensures cs != [] ==> r != []
  {
    if cs == [] then []
    else
      var front := Deduped(cs[..|cs| - 1]);
      if Repeated(cs[..|cs| - 1], cs[|cs| - 1]) then
        front
      else front + [cs[|cs| - 1]]
  }

  lemma {:induction false} DedupWeight(p: Params, cs: seq<Claim>)
    requires Sane(p)
    ensures Weight(p, Deduped(cs)) <= Weight(p, cs)
  {
    if cs != [] {
      DedupWeight(p, cs[..|cs| - 1]);
      var front, last := Deduped(cs[..|cs| - 1]), cs[|cs| - 1];
      assert (front + [last])[..|front|] == front;
    }
  }

  /** The claims of one attribute that take part in the comparison. */
  function Side(cs: seq<Claim>, attr: string): seq<Claim> {
    Deduped(Group(Frontier(cs), attr))
  }

  // -------------------------------------------------------------------------------------------
  // Evidence of one attribute
  // -------------------------------------------------------------------------------------------

  /**
   Sums of evidence: `functional` and `soft` (names and context) correlation, contradiction `iac`, the
   part of the correlation that anchors identity, and the set overlap with the incoming weight it is
   measured against.
   */
  datatype Mass = Mass(
    functional: real, soft: real, iac: real, anchor: real,
    setRaw: real, setIncoming: real, anchorSet: real, veto: bool)

  const NOTHING: Mass := Mass(0.0, 0.0, 0.0, 0.0, 0.0, 0.0, 0.0, false)

  function Add(x: Mass, y: Mass): Mass {
    Mass(x.functional + y.functional, x.soft + y.soft, x.iac + y.iac, x.anchor + y.anchor,
         x.setRaw + y.setRaw, x.setIncoming + y.setIncoming, x.anchorSet + y.anchorSet, x.veto || y.veto)
  }

  /** Whether overlap on this attribute identifies a person by itself. */
  predicate IdentityAnchor(av: seq<Claim>)
    requires av != []
  {
    match av[0].kind
    case Name => true
    case Functional => true
    case Contextual => false
    case Set =>
      || av[0].role.Account? || av[0].role.Identifier?
      || (av[0].role.Locator? && av[0].attr in {"email", "phone", "url"})
  }

  function AttrMass(p: Params, av: seq<Claim>, bv: seq<Claim>): Mass {
    if av == [] || bv == [] then NOTHING
    else
      match av[0].kind
      case Set =>
        var raw := SharedMass(p, av, bv);
        var penalty := if raw <= 0.0 && !p.observationMode && |av| >= 2 && |bv| >= 2
                       then Scaled(p.setPenalty, Min(Weight(p, av), Weight(p, bv))) else 0.0;
        Mass(0.0, 0.0, penalty, 0.0, raw, Weight(p, av), if IdentityAnchor(av) then raw else 0.0, false)
      case Functional =>
        var s := FunctionalMass(p, av, bv);
        Mass(s.ic, 0.0, s.iac, s.ic, 0.0, 0.0, 0.0, s.veto)
      case Name =>
        var s := NameMass(p, av, bv);
        Mass(0.0, s.ic, s.iac, s.ic, 0.0, 0.0, 0.0, false)
      case Contextual =>
        Mass(0.0, ContextMass(p, av, bv), 0.0, 0.0, 0.0, 0.0, 0.0, false)
  }

  /** What every sum of attribute evidence keeps. */
  ghost predicate Balanced(m: Mass) {
    && m.functional >= 0.0 && m.soft >= 0.0 && m.iac >= 0.0
    && 0.0 <= m.anchor <= m.functional + m.soft
    && 0.0 <= m.anchorSet <= m.setRaw <= m.setIncoming
  }

  /** Accounts, identifiers and personal addresses identify; workplaces, relationships and the like do not. */
  predicate Identifying(c: Claim) {
    c.role == Account || c.role == Identifier || (c.role == Locator && c.attr in ["email", "phone", "url"])
  }

  /** Two claims with weight that share a value of a set. */
  ghost predicate SharedPair(p: Params, av: seq<Claim>, bv: seq<Claim>) {
    exists i, j :: 0 <= i < |av| && 0 <= j < |bv| && SharesValue(p, av[i], bv[j])
  }

  ghost predicate SharesValue(p: Params, a: Claim, b: Claim) {
    Overlaps(a.valid, b.valid) && p.cosine(a, b) >= p.tauSet && p.w(a) > 0.0 && p.w(b) > 0.0
  }

  lemma {:induction false} BestSharedPositive(p: Params, a: Claim, bs: seq<Claim>)
    requires Sane(p)
    ensures BestShared(p, a, bs) > 0.0 <==> exists j :: 0 <= j < |bs| && SharesValue(p, a, bs[j])
  {
    if bs != [] {
      var front := bs[..|bs| - 1];
      BestSharedPositive(p, a, front);
      BestSharedBounds(p, a, front);
      assert forall j :: 0 <= j < |front| ==> front[j] == bs[j];
    }
  }

  lemma {:induction false} SharedPositive(p: Params, av: seq<Claim>, bv: seq<Claim>)
    requires Sane(p)
    ensures SharedMass(p, av, bv) > 0.0 <==> SharedPair(p, av, bv)
  {
    hide SharesValue;
    if av != [] {
      var front := av[..|av| - 1];
      SharedPositive(p, front, bv);
      BestSharedPositive(p, av[|av| - 1], bv);
      SharedMassBounds(p, front, bv);
      BestSharedBounds(p, av[|av| - 1], bv);
      assert forall i :: 0 <= i < |front| ==> front[i] == av[i];
      if i, j :| 0 <= i < |front| && 0 <= j < |bv| && SharesValue(p, front[i], bv[j]) {
        assert SharesValue(p, av[i], bv[j]);
      }
    }
  }

  /**
   A set attribute: overlap counts exactly when some weighty value is shared, and as an anchor when the
   attribute identifies. Two populated sets that share nothing count against, between entities only.
   */
  lemma SetEvidence(p: Params, av: seq<Claim>, bv: seq<Claim>)
    requires Sane(p) && av != [] && bv != [] && av[0].kind.Set?
    ensures var m := AttrMass(p, av, bv);
            && (m.setRaw > 0.0 <==> SharedPair(p, av, bv))
            && m.setIncoming == Weight(p, av)
            && m.anchorSet == (if Identifying(av[0]) then m.setRaw else 0.0)
            && m.iac == (if !SharedPair(p, av, bv) && !p.observationMode && |av| > 1 && |bv| > 1
                         then p.setPenalty * Min(Weight(p, av), Weight(p, bv)) else 0.0)
            && m.functional == m.soft == m.anchor == 0.0 && !m.veto
  {
    hide SharedPair, Weight, Sane;
    SharedPositive(p, av, bv);
  }

  /** The other kinds: what supports also anchors, except context, and only single values and names contradict. */
  lemma KindEvidence(p: Params, av: seq<Claim>, bv: seq<Claim>)
    requires av != [] && bv != [] && !av[0].kind.Set?
    ensures var m := AttrMass(p, av, bv);
            && m.setRaw == m.setIncoming == m.anchorSet == 0.0
            && (av[0].kind.Functional? ==>
                  var s := FunctionalMass(p, av, bv);
                  m.functional == m.anchor == s.ic && m.iac == s.iac && m.veto == s.veto && m.soft == 0.0)
            && (av[0].kind.Name? ==>
                  var s := NameMass(p, av, bv);
                  m.soft == m.anchor == s.ic && m.iac == s.iac && !m.veto && m.functional == 0.0)
            && (av[0].kind.Contextual? ==>
                  m.soft == ContextMass(p, av, bv) && m.anchor == m.iac == m.functional == 0.0 && !m.veto)
  {
    hide FunctionalMass, NameMass, ContextMass;
  }

  /** A pair of claims that anchors identity: a functional or name match, or an anchoring set match. */
  ghost predicate AnchorPair(p: Params, av: seq<Claim>, i: int, b: Claim) {
    && 0 <= i < |av|
    && match av[0].kind
       case Functional => ValueMatch(p, av[i], b, p.tauFunc)
       case Name => Pairable(p, av[i], b)
       case Set => Identifying(av[0]) && ValueMatch(p, av[i], b, p.tauSet)
       case Contextual => false
  }

  ghost predicate Anchored(p: Params, av: seq<Claim>, bv: seq<Claim>) {
    exists i, j :: 0 <= j < |bv| && AnchorPair(p, av, i, bv[j])
  }

  /** A heavy enough contradiction on a single-valued attribute. */
  ghost predicate Vetoed(p: Params, av: seq<Claim>, bv: seq<Claim>) {
    av != [] && av[0].kind.Functional? && VetoPair(p, av, bv)
  }

  lemma AttrBounds(p: Params, av: seq<Claim>, bv: seq<Claim>)
    requires Sane(p)
    ensures var m := AttrMass(p, av, bv);
            && Balanced(m)
            && m.setRaw + m.soft <= Weight(p, av)
            && (m.anchor + m.anchorSet > 0.0 ==> Anchored(p, av, bv))
            && (m.veto <==> Vetoed(p, av, bv))
  {
    hide Scaled, SharedMass, FunctionalMass, NameMass, ContextMass, Sane;
    WeightNonNegative(p, av);
    WeightNonNegative(p, bv);
    if av != [] && bv != [] {
      match av[0].kind
      case Set =>
        SharedMassBounds(p, av, bv);
        ScaledNonNegative(p, Min(Weight(p, av), Weight(p, bv)));
        if SharedMass(p, av, bv) > 0.0 && IdentityAnchor(av) {
          var i, j :| 0 <= i < |av| && 0 <= j < |bv| && ValueMatch(p, av[i], bv[j], p.tauSet);
          assert AnchorPair(p, av, i, bv[j]);
        }
      case Functional =>
        FunctionalBounds(p, av, bv);
        if FunctionalMass(p, av, bv).ic > 0.0 {
          var i, j :| 0 <= i < |av| && 0 <= j < |bv| && ValueMatch(p, av[i], bv[j], p.tauFunc);
          assert AnchorPair(p, av, i, bv[j]);
        }
      case Name =>
        NameBounds(p, av, bv);
        if NameMass(p, av, bv).ic > 0.0 {
          var i, j :| 0 <= i < |av| && 0 <= j < |bv| && Pairable(p, av[i], bv[j]);
          assert AnchorPair(p, av, i, bv[j]);
        }
      case Contextual =>
        ContextBounds(p, av, bv);
    }
  }

  lemma {:induction false} WeightNonNegative(p: Params, cs: seq<Claim>)
    requires Sane(p)
    ensures Weight(p, cs) >= 0.0
  {
    if cs != [] {
      WeightNonNegative(p, cs[..|cs| - 1]);
    }
  }

  lemma ScaledNonNegative(p: Params, mass: real)
    requires Sane(p) && mass >= 0.0
    ensures Scaled(p.setPenalty, mass) >= 0.0
  {
  }

  // -------------------------------------------------------------------------------------------
  // All attributes
  // -------------------------------------------------------------------------------------------

  function AttrsOf(cs: seq<Claim>): set<string> {
    set c | c in cs :: c.attr
  }

  /** The evidence of the first `n` attributes. */
  function Total(p: Params, a: seq<Claim>, b: seq<Claim>, attrs: seq<string>, n: nat): Mass
    requires n <= |attrs|
  {
    if n == 0 then NOTHING
    else Add(Total(p, a, b, attrs, n - 1), AttrMass(p, Side(a, attrs[n - 1]), Side(b, attrs[n - 1])))
  }

  /** The weight of the groups of the first `n` attributes. */
  function GroupsWeight(p: Params, cs: seq<Claim>, attrs: seq<string>, n: nat): real
    requires n <= |attrs|
  {
    if n == 0 then 0.0 else GroupsWeight(p, cs, attrs, n - 1) + Weight(p, Group(cs, attrs[n - 1]))
  }

  lemma {:induction false} SplitWeight(p: Params, cs: seq<Claim>, attr: string)
    ensures Weight(p, cs) == Weight(p, Group(cs, attr)) + Weight(p, Others(cs, attr))
  {
    if cs != [] {
      var front, last := cs[..|cs| - 1], cs[|cs| - 1];
      SplitWeight(p, front, attr);
      assert (Group(front, attr) + [last])[..|Group(front, attr)|] == Group(front, attr);
      assert (Others(front, attr) + [last])[..|Others(front, attr)|] == Others(front, attr);
    }
  }

  lemma {:induction false} GroupOfOthers(cs: seq<Claim>, x: string, y: string)
    requires x != y
    ensures Group(Others(cs, x), y) == Group(cs, y)
  {
    if cs != [] {
      var front, last := cs[..|cs| - 1], cs[|cs| - 1];
      GroupOfOthers(front, x, y);
      if last.attr != x {
        assert Others(cs, x)[..|Others(cs, x)| - 1] == Others(front, x);
      }
    }
  }

  lemma {:induction false} GroupsOfOthers(p: Params, cs: seq<Claim>, attrs: seq<string>, n: nat, x: string)
    requires n <= |attrs| && x !in attrs[..n]
    ensures GroupsWeight(p, Others(cs, x), attrs, n) == GroupsWeight(p, cs, attrs, n)
  {
    if n > 0 {
      assert attrs[n - 1] == attrs[..n][n - 1];
      assert attrs[..n - 1] == attrs[..n][..n - 1];
      GroupsOfOthers(p, cs, attrs, n - 1, x);
      GroupOfOthers(cs, x, attrs[n - 1]);
    }
  }

  /** Grouping counts no claim twice. */
  lemma {:induction false} GroupsWithin(p: Params, cs: seq<Claim>, attrs: seq<string>, n: nat)
    requires Sane(p) && n <= |attrs| && Distinct(attrs)
    ensures GroupsWeight(p, cs, attrs, n) <= Weight(p, cs)
    decreases n
  {
    if n == 0 {
      WeightNonNegative(p, cs);
    } else {
      var x := attrs[n - 1];
      SplitWeight(p, cs, x);
      GroupsOfOthers(p, cs, attrs, n - 1, x);
      GroupsWithin(p, Others(cs, x), attrs, n - 1);
    }
  }

  lemma {:induction false} TotalBounds(p: Params, a: seq<Claim>, b: seq<Claim>, attrs: seq<string>, n: nat)
    requires Sane(p) && n <= |attrs|
    ensures var m := Total(p, a, b, attrs, n);
            && Balanced(m)
            && m.setRaw + m.soft <= GroupsWeight(p, Frontier(a), attrs, n)
            && (m.anchor + m.anchorSet > 0.0 ==>
                  exists k :: 0 <= k < n && Anchored(p, Side(a, attrs[k]), Side(b, attrs[k])))
            && (m.veto <==> exists k :: 0 <= k < n && Vetoed(p, Side(a, attrs[k]), Side(b, attrs[k])))
  {
    hide AttrMass, Sane, Frontier, Group, Deduped, Weight, Anchored, Vetoed;
    if n > 0 {
      TotalBounds(p, a, b, attrs, n - 1);
      AttrBounds(p, Side(a, attrs[n - 1]), Side(b, attrs[n - 1]));
      DedupWeight(p, Group(Frontier(a), attrs[n - 1]));
    }
  }

  // -------------------------------------------------------------------------------------------
  // The combined score
  // -------------------------------------------------------------------------------------------

  /** The raw overlap scaled by its share of the incoming weight. */
  function Proportional(shared: real, incoming: real): real {
    if incoming == 0.0 then 0.0 else Scaled(shared, shared / incoming)
  }

  lemma ProportionalBounds(shared: real, incoming: real)
    requires 0.0 <= shared <= incoming
    ensures 0.0 <= Proportional(shared, incoming) <= shared
    ensures Proportional(shared, incoming) == 0.0 <==> shared == 0.0
  {
    if incoming != 0.0 {
      var share := shared / incoming;
      assert 0.0 <= share <= 1.0;
      ScaledDown(shared, share);
      assert shared > 0.0 ==> share > 0.0;
      assert shared > 0.0 ==> Scaled(shared, share) > 0.0;
    }
  }

  datatype Diff = Diff(score: real, ic: real, iac: real, veto: bool)

  /** Contradicted overlap counts only in proportion; otherwise it counts in full. */
  function SetMass(m: Mass): real {
    if m.iac > 0.0 then Proportional(m.setRaw, m.setIncoming) else m.setRaw
  }

  function AnchorMass(m: Mass): real {
    m.anchor +
    (if m.iac <= 0.0 then m.anchorSet
     else if m.setRaw > 0.0 then Scaled(m.anchorSet, SetMass(m) / m.setRaw)
     else 0.0)
  }

  function Combine(p: Params, m: Mass): Diff {
    var ic := m.functional + m.soft + SetMass(m);
    var score := if p.observationMode && AnchorMass(m) == 0.0 then 0.0 else ic - Scaled(p.lambda, m.iac);
    Diff(score, ic, m.iac, m.veto)
  }

  /** Uncontradicted overlap counts in full, contradicted overlap by its share of the incoming weight. */
  lemma SetMassExact(m: Mass)
    requires Balanced(m)
    ensures m.iac == 0.0 ==> SetMass(m) == m.setRaw
    ensures m.iac > 0.0 ==> SetMass(m) * m.setIncoming == m.setRaw * m.setRaw
  {
    if m.iac > 0.0 && m.setIncoming != 0.0 {
      var share := m.setRaw / m.setIncoming;
      assert share * m.setIncoming == m.setRaw;
      assert SetMass(m) == m.setRaw * share;
      assert (m.setRaw * share) * m.setIncoming == m.setRaw * (share * m.setIncoming);
    }
  }

  lemma SetMassBounds(m: Mass)
    requires Balanced(m)
    ensures 0.0 <= SetMass(m) <= m.setRaw
    ensures SetMass(m) == 0.0 <==> m.setRaw == 0.0
  {
    ProportionalBounds(m.setRaw, m.setIncoming);
  }

  /** Anchor mass is part of the evidence, and is there exactly when some anchor evidence was. */
  lemma AnchorMassBounds(m: Mass)
    requires Balanced(m)
    ensures 0.0 <= AnchorMass(m) <= m.functional + m.soft + SetMass(m)
    ensures AnchorMass(m) > 0.0 <==> m.anchor + m.anchorSet > 0.0
  {
    SetMassBounds(m);
    if m.iac > 0.0 && m.setRaw > 0.0 {
      ShareOf(m.anchorSet, SetMass(m), m.setRaw);
    }
  }

  lemma ShareOf(part: real, mass: real, whole: real)
    requires 0.0 <= part <= whole && 0.0 < mass <= whole
    ensures 0.0 <= Scaled(part, mass / whole) <= mass
    ensures Scaled(part, mass / whole) > 0.0 <==> part > 0.0
  {
    var rate := mass / whole;
    assert 0.0 < rate && Scaled(whole, rate) == mass;
    assert (whole - part) * rate >= 0.0;
    assert part > 0.0 ==> part * rate > 0.0;
  }

  /** The attributes either side still claims, sorted. */
  function Attributes(a: seq<Claim>, b: seq<Claim>): seq<string> {
    Sort(AttrsOnce(Frontier(a) + Frontier(b)))
  }

  function AttrsOnce(cs: seq<Claim>): (r: seq<string>)
    ensures Distinct(r) && Elements(r) == AttrsOf(cs)
  {
    if cs == [] then []
    else
      var front, attr := AttrsOnce(cs[..|cs| - 1]), cs[|cs| - 1].attr;
      assert cs == cs[..|cs| - 1] + [cs[|cs| - 1]];
      assert AttrsOf(cs) == AttrsOf(cs[..|cs| - 1]) + {attr};
      if attr in front then
        assert attr in Elements(front);
        front
      else
        assert Elements(front + [attr]) == Elements(front) + {attr};
        front + [attr]
  }

  /** Any sorted listing of the attributes is the one compared along. */
  lemma AttributesUnique(a: seq<Claim>, b: seq<Claim>, attrs: seq<string>)
    requires Sorted(attrs) && Elements(attrs) == AttrsOf(Frontier(a)) + AttrsOf(Frontier(b))
    ensures attrs == Attributes(a, b)
  {
    var all := Frontier(a) + Frontier(b);
    assert AttrsOf(all) == AttrsOf(Frontier(a)) + AttrsOf(Frontier(b));
    SortSorts(AttrsOnce(all));
    SortedUnique(attrs, Attributes(a, b));
  }

  /** The signed comparison of an incoming graph `a` with a candidate `b`. */
  function Compare(p: Params, a: seq<Claim>, b: seq<Claim>): Diff {
    var attrs := Attributes(a, b);
    Combine(p, Total(p, a, b, attrs, |attrs|))
  }

  ghost predicate AnchorOn(p: Params, a: seq<Claim>, b: seq<Claim>, attr: string) {
    Anchored(p, Side(a, attr), Side(b, attr))
  }

  ghost predicate VetoOn(p: Params, a: seq<Claim>, b: seq<Claim>, attr: string) {
    Vetoed(p, Side(a, attr), Side(b, attr))
  }

  /** The part of the evidence from sets, names and context. */
  function SoftMass(p: Params, a: seq<Claim>, b: seq<Claim>): real {
    var attrs := Attributes(a, b);
    var m := Total(p, a, b, attrs, |attrs|);
    m.soft + SetMass(m)
  }

  function FunctionalPart(p: Params, a: seq<Claim>, b: seq<Claim>): real {
    var attrs := Attributes(a, b);
    Total(p, a, b, attrs, |attrs|).functional
  }

  function AnchorPart(p: Params, a: seq<Claim>, b: seq<Claim>): real {
    var attrs := Attributes(a, b);
    AnchorMass(Total(p, a, b, attrs, |attrs|))
  }

  lemma AttributesDistinct(a: seq<Claim>, b: seq<Claim>)
    ensures Distinct(Attributes(a, b))
  {
    SortSorts(AttrsOnce(Frontier(a) + Frontier(b)));
    SortedDistinct(Attributes(a, b));
  }

  /**
   For every pair of graphs: evidence for and against are non-negative, anchor mass is part of the
   evidence for, and all of it that comes from sets, names and context is bounded by the weight of the
   incoming claims alone, however many claims the candidate holds.
   */
  lemma EvidenceBounds(p: Params, a: seq<Claim>, b: seq<Claim>)
    requires Sane(p)
    ensures Compare(p, a, b).ic >= 0.0 && Compare(p, a, b).iac >= 0.0
    ensures Compare(p, a, b).ic == FunctionalPart(p, a, b) + SoftMass(p, a, b)
    ensures 0.0 <= AnchorPart(p, a, b) <= Compare(p, a, b).ic
    ensures 0.0 <= SoftMass(p, a, b) <= Weight(p, a)
  {
    hide Total, Attributes, Frontier, Sane, SetMass, AnchorMass;
    var attrs := Attributes(a, b);
    var m := Total(p, a, b, attrs, |attrs|);
    TotalBounds(p, a, b, attrs, |attrs|);
    SetMassBounds(m);
    AnchorMassBounds(m);
    AttributesDistinct(a, b);
    GroupsWithin(p, Frontier(a), attrs, |attrs|);
    FrontierWeight(p, a);
  }

  /** The score weighs what supports against what contradicts; at ingest it is nothing without an anchor. */
  lemma ScoreExact(p: Params, a: seq<Claim>, b: seq<Claim>)
    ensures var d := Compare(p, a, b);
            d.score == if p.observationMode && AnchorPart(p, a, b) == 0.0 then 0.0 else d.ic - p.lambda * d.iac
  {
    hide Total, Attributes, AnchorMass, SetMass;
  }

  lemma FrontierWeight(p: Params, cs: seq<Claim>)
    requires Sane(p)
    ensures Weight(p, Frontier(cs)) <= Weight(p, cs)
  {
    var gone := Superseded(cs);
    FilterWeight(p, cs, (c: Claim) => c.ulid == "" || c.ulid !in gone);
  }

  /** At ingest a positive score rests on an attribute that anchors identity. */
  lemma AnchorNeeded(p: Params, a: seq<Claim>, b: seq<Claim>)
    requires Sane(p) && p.observationMode && Compare(p, a, b).score > 0.0
    ensures exists attr :: attr in Attributes(a, b) && AnchorOn(p, a, b, attr)
  {
    hide Total, Attributes, Frontier, Sane, SetMass, AnchorMass, Anchored;
    var attrs := Attributes(a, b);
    var m := Total(p, a, b, attrs, |attrs|);
    TotalBounds(p, a, b, attrs, |attrs|);
    AnchorMassBounds(m);
    var k :| 0 <= k < |attrs| && Anchored(p, Side(a, attrs[k]), Side(b, attrs[k]));
    assert AnchorOn(p, a, b, attrs[k]);
  }

  /** A veto fires exactly when some single-valued attribute is contradicted heavily enough. */
  lemma VetoExact(p: Params, a: seq<Claim>, b: seq<Claim>)
    requires Sane(p)
    ensures Compare(p, a, b).veto <==> exists attr :: attr in Attributes(a, b) && VetoOn(p, a, b, attr)
  {
    hide Total, Attributes, Frontier, Sane, SetMass, AnchorMass, Vetoed;
    var attrs := Attributes(a, b);
    TotalBounds(p, a, b, attrs, |attrs|);
    if k :| 0 <= k < |attrs| && Vetoed(p, Side(a, attrs[k]), Side(b, attrs[k])) {
      assert VetoOn(p, a, b, attrs[k]);
    }
    if attr :| attr in attrs && VetoOn(p, a, b, attr) {
      var k :| 0 <= k < |attrs| && attrs[k] == attr;
    }
  }
}
