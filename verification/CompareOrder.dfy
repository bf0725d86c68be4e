/**
 When the order of claims can show in a comparison of two claim graphs. Sets, single values and context
 add up the same in every order, so only names can show it: `CompareSame` reduces the question to the
 name tokens, `TieFreeSame` and `RivalFreeSame` answer it from conditions on the claims alone.
 */
module CompareOrder {
  import opened Sequences
  import opened Ordering
  import opened Evidence
  import opened IdDiff
  import opened NameOrder
  import opened NameTies

  // -------------------------------------------------------------------------------------------
  // Sums and maxima forget the order
  // -------------------------------------------------------------------------------------------

  function SumOf(f: Claim -> Signed, cs: seq<Claim>): Signed {
    if cs == [] then NEUTRAL else Plus(SumOf(f, cs[..|cs| - 1]), f(cs[|cs| - 1]))
  }

  lemma PlusSwap(x: Signed, y: Signed, z: Signed)
    ensures Plus(Plus(x, y), z) == Plus(Plus(x, z), y)
  {
  }

  lemma {:induction false} SumMiddle(f: Claim -> Signed, u: seq<Claim>, c: Claim, v: seq<Claim>)
    ensures SumOf(f, (u + [c]) + v) == Plus(SumOf(f, u + v), f(c))
    decreases |v|
  {
    hide Plus;
    if v == [] {
      assert (u + [c]) + v == u + [c] && u + v == u;
      assert (u + [c])[..|u|] == u;
    } else {
      var w, d := v[..|v| - 1], v[|v| - 1];
      SumMiddle(f, u, c, w);
      assert ((u + [c]) + v)[..|u| + |v|] == (u + [c]) + w;
      assert (u + v)[..|u| + |v| - 1] == u + w;
      PlusSwap(SumOf(f, u + w), f(c), f(d));
    }
  }

  lemma {:induction false} SumSame(f: Claim -> Signed, v: seq<Claim>, w: seq<Claim>)
    requires multiset(v) == multiset(w)
    ensures SumOf(f, v) == SumOf(f, w)
    decreases |v|
  {
    hide Plus;
    assert |v| == |multiset(v)| == |multiset(w)| == |w|;
    if v != [] {
      var i := Relocate(v, w);
      SumSame(f, v[..|v| - 1], w[..i] + w[i + 1..]);
      SumMiddle(f, w[..i], w[i], w[i + 1..]);
    }
  }

  /** The largest value, or zero. */
  function MaxOf(f: Claim -> real, cs: seq<Claim>): real {
    if cs == [] then 0.0
    else
      var best, last := MaxOf(f, cs[..|cs| - 1]), f(cs[|cs| - 1]);
      if last > best then last else best
  }

  lemma {:induction false} MaxIs(f: Claim -> real, cs: seq<Claim>)
    ensures MaxOf(f, cs) >= 0.0 && forall c :: c in cs ==> f(c) <= MaxOf(f, cs)
    ensures MaxOf(f, cs) == 0.0 || exists c :: c in cs && f(c) == MaxOf(f, cs)
  {
    if cs != [] {
      var front, last := cs[..|cs| - 1], cs[|cs| - 1];
      MaxIs(f, front);
      assert cs == front + [last];
      assert last in cs;
    }
  }

  lemma MaxSame(f: Claim -> real, v: seq<Claim>, w: seq<Claim>)
    requires forall c :: c in v <==> c in w
    ensures MaxOf(f, v) == MaxOf(f, w)
  {
    MaxIs(f, v);
    MaxIs(f, w);
  }

  lemma SameElements(v: seq<Claim>, w: seq<Claim>)
    requires multiset(v) == multiset(w)
    ensures |v| == |w| && forall c :: c in v <==> c in w
  {
    assert |multiset(v)| == |v| && |multiset(w)| == |w|;
    forall c ensures c in v <==> c in w {
      assert c in v <==> c in multiset(v);
      assert c in w <==> c in multiset(w);
    }
  }

  // -------------------------------------------------------------------------------------------
  // The evidence of one attribute
  // -------------------------------------------------------------------------------------------

  lemma {:induction false} WeightIsSum(p: Params, cs: seq<Claim>, f: Claim -> Signed)
    requires forall c :: f(c) == Signed(p.w(c), 0.0, false)
    ensures Weight(p, cs) == SumOf(f, cs).ic
  {
    if cs != [] {
      WeightIsSum(p, cs[..|cs| - 1], f);
    }
  }

  lemma WeightSame(p: Params, v: seq<Claim>, w: seq<Claim>)
    requires multiset(v) == multiset(w)
    ensures Weight(p, v) == Weight(p, w)
  {
    var f := (c: Claim) => Signed(p.w(c), 0.0, false);
    WeightIsSum(p, v, f);
    WeightIsSum(p, w, f);
    SumSame(f, v, w);
  }

  function MatchGain(p: Params, a: Claim, b: Claim): real {
    if ValueMatch(p, a, b, p.tauSet) then Min(p.w(a), p.w(b)) else 0.0
  }

  lemma {:induction false} SharedIsMax(p: Params, a: Claim, bs: seq<Claim>, f: Claim -> real)
    requires forall b :: f(b) == MatchGain(p, a, b)
    ensures BestShared(p, a, bs) == MaxOf(f, bs)
  {
    if bs != [] {
      SharedIsMax(p, a, bs[..|bs| - 1], f);
      MaxIs(f, bs[..|bs| - 1]);
    }
  }

  lemma BestSharedSame(p: Params, a: Claim, v: seq<Claim>, w: seq<Claim>)
    requires multiset(v) == multiset(w)
    ensures BestShared(p, a, v) == BestShared(p, a, w)
  {
    hide MatchGain;
    var f := (b: Claim) => MatchGain(p, a, b);
    SharedIsMax(p, a, v, f);
    SharedIsMax(p, a, w, f);
    SameElements(v, w);
    MaxSame(f, v, w);
  }

  lemma {:induction false} SharedIsSum(p: Params, av: seq<Claim>, bv: seq<Claim>, f: Claim -> Signed)
    requires forall a :: f(a) == Signed(BestShared(p, a, bv), 0.0, false)
    ensures SharedMass(p, av, bv) == SumOf(f, av).ic
  {
    if av != [] {
      SharedIsSum(p, av[..|av| - 1], bv, f);
    }
  }

  lemma SharedSame(p: Params, av: seq<Claim>, bv: seq<Claim>, v: seq<Claim>, w: seq<Claim>)
    requires multiset(av) == multiset(v) && multiset(bv) == multiset(w)
    ensures SharedMass(p, av, bv) == SharedMass(p, v, w)
  {
    hide BestShared, SharedMass;
    var f := (a: Claim) => Signed(BestShared(p, a, bv), 0.0, false);
    forall a ensures f(a) == Signed(BestShared(p, a, w), 0.0, false) {
      BestSharedSame(p, a, bv, w);
    }
    SharedIsSum(p, av, bv, f);
    SharedIsSum(p, v, w, f);
    SumSame(f, av, v);
  }

  function ContextGain(p: Params, a: Claim, b: Claim): real {
    if Overlaps(a.valid, b.valid) && p.cosine(a, b) >= p.tauCtx then Scaled(p.w(a), p.cosine(a, b)) else 0.0
  }

  lemma {:induction false} ContextIsMax(p: Params, a: Claim, bs: seq<Claim>, f: Claim -> real)
    requires forall b :: f(b) == ContextGain(p, a, b)
    ensures BestContext(p, a, bs) == MaxOf(f, bs)
  {
    hide Scaled;
    if bs != [] {
      ContextIsMax(p, a, bs[..|bs| - 1], f);
      MaxIs(f, bs[..|bs| - 1]);
    }
  }

  lemma BestContextSame(p: Params, a: Claim, v: seq<Claim>, w: seq<Claim>)
    requires multiset(v) == multiset(w)
    ensures BestContext(p, a, v) == BestContext(p, a, w)
  {
    hide ContextGain;
    var f := (b: Claim) => ContextGain(p, a, b);
    ContextIsMax(p, a, v, f);
    ContextIsMax(p, a, w, f);
    SameElements(v, w);
    MaxSame(f, v, w);
  }

  lemma {:induction false} ContextIsSum(p: Params, av: seq<Claim>, bv: seq<Claim>, f: Claim -> Signed)
    requires forall a :: f(a) == Signed(BestContext(p, a, bv), 0.0, false)
    ensures ContextMass(p, av, bv) == SumOf(f, av).ic
  {
    if av != [] {
      ContextIsSum(p, av[..|av| - 1], bv, f);
    }
  }

  lemma ContextSame(p: Params, av: seq<Claim>, bv: seq<Claim>, v: seq<Claim>, w: seq<Claim>)
    requires multiset(av) == multiset(v) && multiset(bv) == multiset(w)
    ensures ContextMass(p, av, bv) == ContextMass(p, v, w)
  {
    hide BestContext, ContextMass;
    var f := (a: Claim) => Signed(BestContext(p, a, bv), 0.0, false);
    forall a ensures f(a) == Signed(BestContext(p, a, w), 0.0, false) {
      BestContextSame(p, a, bv, w);
    }
    ContextIsSum(p, av, bv, f);
    ContextIsSum(p, v, w, f);
    SumSame(f, av, v);
  }

  lemma {:induction false} RowIsSum(p: Params, a: Claim, bs: seq<Claim>, f: Claim -> Signed)
    requires forall b :: f(b) == PairScore(p, a, b)
    ensures RowScore(p, a, bs) == SumOf(f, bs)
  {
    hide PairScore;
    if bs != [] {
      RowIsSum(p, a, bs[..|bs| - 1], f);
    }
  }

  lemma RowSame(p: Params, a: Claim, v: seq<Claim>, w: seq<Claim>)
    requires multiset(v) == multiset(w)
    ensures RowScore(p, a, v) == RowScore(p, a, w)
  {
    hide PairScore;
    var f := (b: Claim) => PairScore(p, a, b);
    RowIsSum(p, a, v, f);
    RowIsSum(p, a, w, f);
    SumSame(f, v, w);
  }

  lemma {:induction false} FunctionalIsSum(p: Params, av: seq<Claim>, bv: seq<Claim>, f: Claim -> Signed)
    requires forall a :: f(a) == RowScore(p, a, bv)
    ensures FunctionalMass(p, av, bv) == SumOf(f, av)
  {
    hide RowScore;
    if av != [] {
      FunctionalIsSum(p, av[..|av| - 1], bv, f);
    }
  }

  lemma FunctionalSame(p: Params, av: seq<Claim>, bv: seq<Claim>, v: seq<Claim>, w: seq<Claim>)
    requires multiset(av) == multiset(v) && multiset(bv) == multiset(w)
    ensures FunctionalMass(p, av, bv) == FunctionalMass(p, v, w)
  {
    hide RowScore, FunctionalMass;
    var f := (a: Claim) => RowScore(p, a, bv);
    forall a ensures f(a) == RowScore(p, a, w) {
      RowSame(p, a, bv, w);
    }
    FunctionalIsSum(p, av, bv, f);
    FunctionalIsSum(p, v, w, f);
    SumSame(f, av, v);
  }

  /** Kind and role are decided by the attribute. */
  ghost predicate Typed(cs: seq<Claim>) {
    forall c, d :: c in cs && d in cs && c.attr == d.attr ==> c.kind == d.kind && c.role == d.role
  }

  ghost predicate OneAttr(cs: seq<Claim>) {
    forall c, d :: c in cs && d in cs ==> c.attr == d.attr && c.kind == d.kind && c.role == d.role
  }

  /** The evidence of one attribute is the same in every order if its name evidence is. */
  lemma AttrSame(p: Params, av: seq<Claim>, bv: seq<Claim>, v: seq<Claim>, w: seq<Claim>)
    requires multiset(av) == multiset(v) && multiset(bv) == multiset(w) && OneAttr(av)
    requires av != [] && av[0].kind.Name? ==> NameMass(p, av, bv) == NameMass(p, v, w)
    ensures AttrMass(p, av, bv) == AttrMass(p, v, w)
  {
    hide SharedMass, FunctionalMass, ContextMass, NameMass, Weight, Scaled;
    SameElements(av, v);
    SameElements(bv, w);
    SharedSame(p, av, bv, v, w);
    FunctionalSame(p, av, bv, v, w);
    ContextSame(p, av, bv, v, w);
    WeightSame(p, av, v);
    WeightSame(p, bv, w);
    if av != [] {
      assert av[0] in av && v[0] in av;
    }
  }

  // -------------------------------------------------------------------------------------------
  // The whole comparison
  // -------------------------------------------------------------------------------------------

  ghost predicate AllBare(cs: seq<Claim>) {
    forall c :: c in cs ==> Bare(c)
  }

  lemma {:induction false} FilterAll(cs: seq<Claim>, keep: Claim -> bool)
    requires forall c :: c in cs ==> keep(c)
    ensures Filter(cs, keep) == cs
  {
    if cs != [] {
      FilterAll(cs[..|cs| - 1], keep);
    }
  }

  lemma {:induction false} FilterCount(cs: seq<Claim>, keep: Claim -> bool, c: Claim)
    ensures multiset(Filter(cs, keep))[c] == if keep(c) then multiset(cs)[c] else 0
  {
    if cs != [] {
      FilterCount(cs[..|cs| - 1], keep, c);
      assert cs == cs[..|cs| - 1] + [cs[|cs| - 1]];
    }
  }

  lemma GroupSame(v: seq<Claim>, w: seq<Claim>, attr: string)
    requires multiset(v) == multiset(w)
    ensures multiset(Group(v, attr)) == multiset(Group(w, attr))
  {
    var keep := (c: Claim) => c.attr == attr;
    forall c ensures multiset(Filter(v, keep))[c] == multiset(Filter(w, keep))[c] {
      FilterCount(v, keep, c);
      FilterCount(w, keep, c);
    }
  }

  lemma BareFrontier(cs: seq<Claim>)
    requires AllBare(cs)
    ensures Frontier(cs) == cs
  {
    var gone := Superseded(cs);
    FilterAll(cs, (c: Claim) => c.ulid == "" || c.ulid !in gone);
  }

  lemma {:induction false} BareDeduped(cs: seq<Claim>)
    requires AllBare(cs)
    ensures Deduped(cs) == cs
  {
    if cs != [] {
      assert cs[|cs| - 1] in cs;
      BareDeduped(cs[..|cs| - 1]);
    }
  }

  /** Bare claims are compared as they are. */
  lemma BareSide(cs: seq<Claim>, attr: string)
    requires AllBare(cs)
    ensures Side(cs, attr) == Group(cs, attr)
  {
    hide Frontier, Deduped;
    BareFrontier(cs);
    BareDeduped(Group(cs, attr));
  }

  lemma BareSame(v: seq<Claim>, w: seq<Claim>)
    requires AllBare(v) && multiset(v) == multiset(w)
    ensures AllBare(w)
  {
    hide Bare;
    SameElements(v, w);
  }

  lemma AttributesSame(a: seq<Claim>, b: seq<Claim>, v: seq<Claim>, w: seq<Claim>)
    requires AllBare(a) && AllBare(b) && multiset(a) == multiset(v) && multiset(b) == multiset(w)
    ensures Attributes(v, w) == Attributes(a, b)
  {
    hide Frontier, AllBare, Attributes;
    BareSame(a, v);
    BareSame(b, w);
    BareFrontier(a);
    BareFrontier(b);
    BareFrontier(v);
    BareFrontier(w);
    SameElements(a, v);
    SameElements(b, w);
    AttributesSorted(a, b);
    assert AttrsOf(v) == AttrsOf(a) && AttrsOf(w) == AttrsOf(b);
    AttributesUnique(v, w, Attributes(a, b));
  }

  lemma AttributesSorted(a: seq<Claim>, b: seq<Claim>)
    ensures Sorted(Attributes(a, b)) && Elements(Attributes(a, b)) == AttrsOf(Frontier(a)) + AttrsOf(Frontier(b))
  {
    var all := Frontier(a) + Frontier(b);
    SortSorts(AttrsOnce(all));
    assert AttrsOf(all) == AttrsOf(Frontier(a)) + AttrsOf(Frontier(b));
  }

  /** On every attribute of names both pairs of graphs give the same name evidence. */
  ghost predicate NamesSame(p: Params, a: seq<Claim>, b: seq<Claim>, v: seq<Claim>, w: seq<Claim>) {
    forall attr :: OfNames(a, attr) ==>
      NameMass(p, Group(a, attr), Group(b, attr)) == NameMass(p, Group(v, attr), Group(w, attr))
  }

  ghost predicate OfNames(cs: seq<Claim>, attr: string) {
    exists c :: c in cs && c.attr == attr && c.kind.Name?
  }

  lemma GroupOneAttr(cs: seq<Claim>, attr: string)
    requires Typed(cs)
    ensures OneAttr(Group(cs, attr)) && forall c :: c in Group(cs, attr) ==> c in cs && c.attr == attr
  {
  }

  lemma SideSame(p: Params, a: seq<Claim>, b: seq<Claim>, v: seq<Claim>, w: seq<Claim>, attr: string)
    requires AllBare(a) && AllBare(b) && Typed(a)
    requires multiset(a) == multiset(v) && multiset(b) == multiset(w) && NamesSame(p, a, b, v, w)
    ensures AttrMass(p, Side(a, attr), Side(b, attr)) == AttrMass(p, Side(v, attr), Side(w, attr))
  {
    hide Side, Group, AllBare, Typed, AttrMass, NameMass, OneAttr;
    BareSame(a, v);
    BareSame(b, w);
    BareSide(a, attr);
    BareSide(b, attr);
    BareSide(v, attr);
    BareSide(w, attr);
    GroupSame(a, v, attr);
    GroupSame(b, w, attr);
    GroupOneAttr(a, attr);
    var av := Group(a, attr);
    if av != [] && av[0].kind.Name? {
      assert av[0] in av;
      assert OfNames(a, attr);
    }
    AttrSame(p, av, Group(b, attr), Group(v, attr), Group(w, attr));
  }

  lemma {:induction false} TotalSame(p: Params, a: seq<Claim>, b: seq<Claim>, v: seq<Claim>, w: seq<Claim>,
                                     attrs: seq<string>, n: nat)
    requires AllBare(a) && AllBare(b) && Typed(a) && n <= |attrs|
    requires multiset(a) == multiset(v) && multiset(b) == multiset(w) && NamesSame(p, a, b, v, w)
    ensures Total(p, a, b, attrs, n) == Total(p, v, w, attrs, n)
  {
    hide AttrMass, Side, AllBare, Typed, NamesSame, Add;
    if n > 0 {
      TotalSame(p, a, b, v, w, attrs, n - 1);
      SideSame(p, a, b, v, w, attrs[n - 1]);
    }
  }

  /** Two graphs compare the same in every order in which their names give the same evidence. */
  lemma CompareSame(p: Params, a: seq<Claim>, b: seq<Claim>, v: seq<Claim>, w: seq<Claim>)
    requires AllBare(a) && AllBare(b) && Typed(a)
    requires multiset(a) == multiset(v) && multiset(b) == multiset(w) && NamesSame(p, a, b, v, w)
    ensures Compare(p, a, b) == Compare(p, v, w)
  {
    hide Total, Attributes, AllBare, Typed, NamesSame, Combine;
    AttributesSame(a, b, v, w);
    TotalSame(p, a, b, v, w, Attributes(a, b), |Attributes(a, b)|);
  }

  // -------------------------------------------------------------------------------------------
  // Conditions on the claims alone
  // -------------------------------------------------------------------------------------------

  /** No incoming name token suits two different tokens of the candidate with the same weight. */
  ghost predicate TieFree(p: Params, a: seq<Claim>, b: seq<Claim>) {
    forall x, y, z :: x in a && y in b && z in b && x.kind.Name? && Suits(p, x, y) && Suits(p, x, z) ==>
      (x.attr == y.attr == z.attr && Joint(p, x, y) == Joint(p, x, z) ==> y == z)
  }

  /** No name token of the candidate suits two incoming ones. */
  ghost predicate RivalFree(p: Params, a: seq<Claim>, b: seq<Claim>) {
    forall x, y, z :: x in a && y in a && z in b && x.kind.Name? && Suits(p, x, z) && Suits(p, y, z) ==>
      (x.attr == y.attr == z.attr ==> x == y && multiset(a)[x] == 1)
  }

  lemma GroupHas(cs: seq<Claim>, attr: string, c: Claim)
    ensures c in multiset(Group(cs, attr)) <==> c in cs && c.attr == attr
    ensures c.attr == attr ==> multiset(Group(cs, attr))[c] == multiset(cs)[c]
  {
    var keep := (d: Claim) => d.attr == attr;
    FilterCount(cs, keep, c);
    assert c in cs <==> c in multiset(cs);
  }

  lemma GroupsTieFree(p: Params, a: seq<Claim>, b: seq<Claim>, attr: string)
    requires TieFree(p, a, b) && Typed(a) && OfNames(a, attr)
    ensures NoTies(p, multiset(Group(a, attr)), multiset(Group(b, attr)))
  {
    hide Suits, Joint, Group;
    forall x, y, z | && x in multiset(Group(a, attr)) && y in multiset(Group(b, attr)) && z in multiset(Group(b, attr))
                     && Suits(p, x, y) && Suits(p, x, z)
      ensures Joint(p, x, y) == Joint(p, x, z) ==> y == z
    {
      GroupHas(a, attr, x);
      GroupHas(b, attr, y);
      GroupHas(b, attr, z);
    }
  }

  lemma GroupsRivalFree(p: Params, a: seq<Claim>, b: seq<Claim>, attr: string)
    requires RivalFree(p, a, b) && Typed(a) && OfNames(a, attr)
    ensures NoRivals(p, multiset(Group(a, attr)), multiset(Group(b, attr)))
  {
    hide Suits, Group;
    forall x, y, z | && x in multiset(Group(a, attr)) && y in multiset(Group(a, attr)) && z in multiset(Group(b, attr))
                     && Suits(p, x, z) && Suits(p, y, z)
      ensures x == y && multiset(Group(a, attr))[x] == 1
    {
      GroupHas(a, attr, x);
      GroupHas(a, attr, y);
      GroupHas(b, attr, z);
    }
  }

  /** Without ties a record compares the same with every order of a candidate's claims. */
  lemma TieFreeSame(p: Params, a: seq<Claim>, b: seq<Claim>, w: seq<Claim>)
    requires AllBare(a) && AllBare(b) && Typed(a) && multiset(b) == multiset(w) && TieFree(p, a, b)
    ensures Compare(p, a, b) == Compare(p, a, w)
  {
    hide AllBare, Typed, TieFree, Compare, NameMass, OfNames, Group;
    forall attr | OfNames(a, attr)
      ensures NameMass(p, Group(a, attr), Group(b, attr)) == NameMass(p, Group(a, attr), Group(w, attr))
    {
      GroupsTieFree(p, a, b, attr);
      NoTiesSteady(p, Group(a, attr), Group(b, attr));
      GroupSame(b, w, attr);
    }
    CompareSame(p, a, b, a, w);
  }

  /** Without ties and rivals two entities compare the same in every order of their claims. */
  lemma RivalFreeSame(p: Params, a: seq<Claim>, b: seq<Claim>, v: seq<Claim>, w: seq<Claim>)
    requires AllBare(a) && AllBare(b) && Typed(a) && multiset(a) == multiset(v) && multiset(b) == multiset(w)
    requires TieFree(p, a, b) && RivalFree(p, a, b)
    ensures Compare(p, a, b) == Compare(p, v, w)
  {
    hide AllBare, Typed, TieFree, RivalFree, Compare, NameMass, OfNames, Group;
    forall attr | OfNames(a, attr)
      ensures NameMass(p, Group(a, attr), Group(b, attr)) == NameMass(p, Group(v, attr), Group(w, attr))
    {
      GroupsTieFree(p, a, b, attr);
      GroupsRivalFree(p, a, b, attr);
      NoRivalsSteady(p, Group(a, attr), Group(b, attr));
      GroupSame(a, v, attr);
      GroupSame(b, w, attr);
    }
    CompareSame(p, a, b, v, w);
  }

  // -------------------------------------------------------------------------------------------
  // Exactly when, with one attribute of names
  // -------------------------------------------------------------------------------------------

  /** All name tokens, and nothing else, stand under one attribute, as the extractor files them. */
  ghost predicate OneName(cs: seq<Claim>, name: string) {
    Typed(cs) && forall c :: c in cs ==> (c.kind.Name? <==> c.attr == name)
  }

  /** Evidence with other name evidence. */
  function Shifted(m: Mass, ic: real, iac: real): Mass {
    m.(soft := m.soft + ic, anchor := m.anchor + ic, iac := m.iac + iac)
  }

  lemma NoMatches(p: Params, av: seq<Claim>, bv: seq<Claim>)
    requires av == [] || bv == []
    ensures NameMass(p, av, bv) == NEUTRAL
  {
    NoneMatched(p, av, bv, |av|);
  }

  lemma {:induction false} NoneMatched(p: Params, av: seq<Claim>, bv: seq<Claim>, n: nat)
    requires n <= |av| && (av == [] || bv == [])
    ensures MatchNames(p, av, bv, n) == Matching({}, {}, 0.0)
  {
    if n > 0 {
      NoneMatched(p, av, bv, n - 1);
    }
  }

  /** Another order of the names shifts the evidence by the difference of the name evidence. */
  lemma NamesShift(p: Params, av: seq<Claim>, bv: seq<Claim>, v: seq<Claim>, w: seq<Claim>)
    requires multiset(av) == multiset(v) && multiset(bv) == multiset(w) && OneAttr(av)
    requires av != [] ==> av[0].kind.Name?
    ensures var s, t := NameMass(p, av, bv), NameMass(p, v, w);
            AttrMass(p, v, w) == Shifted(AttrMass(p, av, bv), t.ic - s.ic, t.iac - s.iac)
  {
    hide NameMass;
    SameElements(av, v);
    SameElements(bv, w);
    if av == [] || bv == [] {
      NoMatches(p, av, bv);
      NoMatches(p, v, w);
    } else {
      assert av[0] in av && v[0] in av;
    }
  }

  lemma {:induction false} TotalShift(p: Params, a: seq<Claim>, b: seq<Claim>, v: seq<Claim>, w: seq<Claim>,
                                      name: string, attrs: seq<string>, n: nat)
    requires AllBare(a) && AllBare(b) && OneName(a, name)
    requires multiset(a) == multiset(v) && multiset(b) == multiset(w) && n <= |attrs| && Distinct(attrs)
    ensures var s, t := NameMass(p, Group(a, name), Group(b, name)), NameMass(p, Group(v, name), Group(w, name));
            Total(p, v, w, attrs, n) ==
            if name in attrs[..n] then Shifted(Total(p, a, b, attrs, n), t.ic - s.ic, t.iac - s.iac)
            else Total(p, a, b, attrs, n)
  {
    hide AttrMass, Side, AllBare, OneName, NameMass, Group;
    if n > 0 {
      TotalShift(p, a, b, v, w, name, attrs, n - 1);
      assert attrs[..n] == attrs[..n - 1] + [attrs[n - 1]];
      AttrShift(p, a, b, v, w, name, attrs[n - 1]);
      assert attrs[n - 1] == name ==> name !in attrs[..n - 1];
    }
  }

  lemma AttrShift(p: Params, a: seq<Claim>, b: seq<Claim>, v: seq<Claim>, w: seq<Claim>, name: string, attr: string)
    requires AllBare(a) && AllBare(b) && OneName(a, name)
    requires multiset(a) == multiset(v) && multiset(b) == multiset(w)
    ensures var s, t := NameMass(p, Group(a, name), Group(b, name)), NameMass(p, Group(v, name), Group(w, name));
            AttrMass(p, Side(v, attr), Side(w, attr)) ==
            if attr == name then Shifted(AttrMass(p, Side(a, attr), Side(b, attr)), t.ic - s.ic, t.iac - s.iac)
            else AttrMass(p, Side(a, attr), Side(b, attr))
  {
    hide Side, Group, AllBare, AttrMass, NameMass, OneAttr;
    BareSame(a, v);
    BareSame(b, w);
    BareSide(a, attr);
    BareSide(b, attr);
    BareSide(v, attr);
    BareSide(w, attr);
    GroupSame(a, v, attr);
    GroupSame(b, w, attr);
    GroupOneAttr(a, attr);
    var av := Group(a, attr);
    if av != [] {
      assert av[0] in av;
    }
    if attr == name {
      NamesShift(p, av, Group(b, attr), Group(v, attr), Group(w, attr));
    } else {
      AttrSame(p, av, Group(b, attr), Group(v, attr), Group(w, attr));
    }
  }

  /** Combining tells name evidence apart. */
  lemma CombineShift(p: Params, m: Mass, ic: real, iac: real)
    requires Combine(p, Shifted(m, ic, iac)) == Combine(p, m)
    ensures ic == 0.0 && iac == 0.0
  {
    hide Scaled, AnchorMass, Proportional;
  }

  lemma NameUnlisted(p: Params, a: seq<Claim>, b: seq<Claim>, bv: seq<Claim>, name: string)
    requires AllBare(a) && name !in Attributes(a, b)
    ensures NameMass(p, Group(a, name), bv) == NEUTRAL
  {
    hide Attributes, Frontier, NameMass;
    BareFrontier(a);
    AttributesSorted(a, b);
    forall c | c in a ensures c.attr != name {
      assert c.attr in AttrsOf(Frontier(a));
      assert c.attr in Elements(Attributes(a, b));
    }
    GroupNone(a, name);
    NoMatches(p, Group(a, name), bv);
  }

  /** Two orders compare the same if and only if they give the same name evidence. */
  lemma ComparesAsNames(p: Params, a: seq<Claim>, b: seq<Claim>, v: seq<Claim>, w: seq<Claim>, name: string)
    requires AllBare(a) && AllBare(b) && OneName(a, name)
    requires multiset(a) == multiset(v) && multiset(b) == multiset(w)
    ensures Compare(p, a, b) == Compare(p, v, w) <==>
            NameMass(p, Group(a, name), Group(b, name)) == NameMass(p, Group(v, name), Group(w, name))
  {
    hide Total, Attributes, AllBare, NameMass, Combine, Group, Shifted;
    AttributesSame(a, b, v, w);
    var attrs := Attributes(a, b);
    AttributesDistinct(a, b);
    assert attrs[..|attrs|] == attrs;
    TotalShift(p, a, b, v, w, name, attrs, |attrs|);
    if name in attrs {
      var s, t := NameMass(p, Group(a, name), Group(b, name)), NameMass(p, Group(v, name), Group(w, name));
      NeverVetoes(p, Group(a, name), Group(b, name));
      NeverVetoes(p, Group(v, name), Group(w, name));
      var m := Total(p, a, b, attrs, |attrs|);
      ShiftNone(m);
      if Compare(p, a, b) == Compare(p, v, w) {
        CombineShift(p, m, t.ic - s.ic, t.iac - s.iac);
      }
    } else {
      BareSame(a, v);
      NameUnlisted(p, a, b, Group(b, name), name);
      NameUnlisted(p, v, w, Group(w, name), name);
    }
  }

  lemma NeverVetoes(p: Params, av: seq<Claim>, bv: seq<Claim>)
    ensures !NameMass(p, av, bv).veto
  {
  }

  lemma ShiftNone(m: Mass)
    ensures Shifted(m, 0.0, 0.0) == m
  {
  }

  /** Some order of the claims gives any order of one group. */
  lemma Arranged(cs: seq<Claim>, name: string, g: seq<Claim>) returns (v: seq<Claim>)
    requires multiset(g) == multiset(Group(cs, name))
    ensures multiset(v) == multiset(cs) && Group(v, name) == g
  {
    hide Group, Others;
    v := g + Others(cs, name);
    forall c ensures multiset(v)[c] == multiset(cs)[c] {
      GroupHas(cs, name, c);
      OthersHas(cs, name, c);
    }
    forall c ensures c in g ==> c.attr == name {
      assert c in g <==> c in multiset(g);
      GroupHas(cs, name, c);
    }
    forall c ensures c in Others(cs, name) ==> c.attr != name {
      assert c in Others(cs, name) <==> c in multiset(Others(cs, name));
      OthersHas(cs, name, c);
    }
    GroupAppend(g, Others(cs, name), name);
    GroupWhole(g, name);
    GroupNone(Others(cs, name), name);
    assert g + [] == g;
  }

  lemma OthersHas(cs: seq<Claim>, name: string, c: Claim)
    ensures multiset(Others(cs, name))[c] == if c.attr != name then multiset(cs)[c] else 0
    ensures multiset(Group(cs, name))[c] == if c.attr == name then multiset(cs)[c] else 0
  {
    FilterCount(cs, (d: Claim) => d.attr != name, c);
    FilterCount(cs, (d: Claim) => d.attr == name, c);
  }

  lemma {:induction false} GroupAppend(u: seq<Claim>, v: seq<Claim>, name: string)
    ensures Group(u + v, name) == Group(u, name) + Group(v, name)
    decreases |v|
  {
    if v == [] {
      assert u + v == u;
    } else {
      GroupAppend(u, v[..|v| - 1], name);
      assert (u + v)[..|u| + |v| - 1] == u + v[..|v| - 1];
    }
  }

  lemma GroupWhole(g: seq<Claim>, name: string)
    requires forall c :: c in g ==> c.attr == name
    ensures Group(g, name) == g
  {
    FilterAll(g, (c: Claim) => c.attr == name);
  }

  lemma {:induction false} FilterNone(cs: seq<Claim>, keep: Claim -> bool)
    requires forall c :: c in cs ==> !keep(c)
    ensures Filter(cs, keep) == []
  {
    if cs != [] {
      FilterNone(cs[..|cs| - 1], keep);
    }
  }

  lemma GroupNone(g: seq<Claim>, name: string)
    requires forall c :: c in g ==> c.attr != name
    ensures Group(g, name) == []
  {
    FilterNone(g, (c: Claim) => c.attr == name);
  }

  /**
   A record compares the same with every order of a candidate's claims if and only if its name tokens
   meet those of the candidate with the same evidence however ties are broken.
   */
  lemma CompareSteadyExactly(p: Params, a: seq<Claim>, b: seq<Claim>, name: string)
    requires AllBare(a) && AllBare(b) && OneName(a, name)
    ensures (forall w :: multiset(w) == multiset(b) ==> Compare(p, a, w) == Compare(p, a, b)) <==>
            Agreeing(p, Group(a, name), multiset(Group(b, name)))
  {
    hide Compare, Group, NameMass, AllBare, OneName, Agreeing;
    var av, bv := Group(a, name), Group(b, name);
    OrderIrrelevantExactly(p, av, bv);
    if Agreeing(p, av, multiset(bv)) {
      forall w | multiset(w) == multiset(b) ensures Compare(p, a, w) == Compare(p, a, b) {
        GroupSame(b, w, name);
        ComparesAsNames(p, a, b, a, w, name);
      }
    }
    if forall w :: multiset(w) == multiset(b) ==> Compare(p, a, w) == Compare(p, a, b) {
      forall cv | multiset(cv) == multiset(bv) ensures NameMass(p, av, cv) == NameMass(p, av, bv) {
        var w := Arranged(b, name, cv);
        ComparesAsNames(p, a, b, a, w, name);
      }
    }
  }

  /** The same for two entities whose claims both come in any order. */
  lemma CompareSteadyBothExactly(p: Params, a: seq<Claim>, b: seq<Claim>, name: string)
    requires AllBare(a) && AllBare(b) && OneName(a, name)
    ensures (forall v, w :: multiset(v) == multiset(a) && multiset(w) == multiset(b) ==>
               Compare(p, v, w) == Compare(p, a, b)) <==>
            AgreeingAll(p, multiset(Group(a, name)), multiset(Group(b, name)))
  {
    hide Compare, Group, NameMass, AllBare, OneName, AgreeingAll;
    var av, bv := Group(a, name), Group(b, name);
    OrdersIrrelevantExactly(p, av, bv);
    if AgreeingAll(p, multiset(av), multiset(bv)) {
      forall v, w | multiset(v) == multiset(a) && multiset(w) == multiset(b)
        ensures Compare(p, v, w) == Compare(p, a, b)
      {
        GroupSame(a, v, name);
        GroupSame(b, w, name);
        ComparesAsNames(p, a, b, v, w, name);
      }
    }
    if forall v, w :: multiset(v) == multiset(a) && multiset(w) == multiset(b) ==>
         Compare(p, v, w) == Compare(p, a, b)
    {
      forall x, y | multiset(x) == multiset(av) && multiset(y) == multiset(bv)
        ensures NameMass(p, x, y) == NameMass(p, av, bv)
      {
        var v := Arranged(a, name, x);
        var w := Arranged(b, name, y);
        ComparesAsNames(p, a, b, v, w, name);
      }
    }
  }
}
