/**
 Conditions on the tokens alone under which no order of them shows in name evidence. Without ties the
 candidate's order does not matter; without ties and rivals neither order does. `TiesShowExactly` says
 that among full tokens a tie is also enough for some incoming name to show the order.
 */
module NameTies {
  import opened Options
  import opened Sequences
  import opened Evidence
  import opened NameOrder

  // -------------------------------------------------------------------------------------------
  // Conditions on the tokens alone
  // -------------------------------------------------------------------------------------------

  /** No incoming token suits two different candidate tokens with the same weight. */
  ghost predicate NoTies(p: Params, ins: multiset<Claim>, bs: multiset<Claim>) {
    forall a, b, c :: a in ins && b in bs && c in bs && Suits(p, a, b) && Suits(p, a, c) ==>
      (Joint(p, a, b) == Joint(p, a, c) ==> b == c)
  }

  lemma ChosenOnce(p: Params, a: Claim, ins: multiset<Claim>, bs: multiset<Claim>, free: multiset<Claim>,
                   x: Option<Claim>, y: Option<Claim>)
    requires NoTies(p, ins, bs) && a in ins && free <= bs && Chosen(p, a, free, x) && Chosen(p, a, free, y)
    ensures x == y
  {
    hide Suits, Joint;
    if x.Some? && y.Some? {
      assert x.value in bs && y.value in bs;
      assert Joint(p, a, x.value) == Joint(p, a, y.value);
    }
  }

  /** Without ties there is one course. */
  lemma {:induction false} OneCourse(p: Params, av: seq<Claim>, bs: multiset<Claim>, x: Picks, y: Picks)
    requires NoTies(p, multiset(av), bs) && Course(p, av, bs, x) && Course(p, av, bs, y)
    ensures x == y
    decreases |av|
  {
    hide NoTies, Chosen, Free;
    if av != [] {
      var n := |av| - 1;
      CourseFront(p, av, bs, x, n);
      CourseFront(p, av, bs, y, n);
      FewerTies(p, av, bs, n);
      OneCourse(p, av[..n], bs, x[..n], y[..n]);
      assert x == x[..n] + [x[n]] && y == y[..n] + [y[n]];
      assert av[n] in multiset(av);
      FreeWithin(bs, x[..n]);
      ChosenOnce(p, av[n], multiset(av), bs, Free(bs, x[..n]), x[n], y[n]);
    }
  }

  lemma FreeWithin(bs: multiset<Claim>, picks: Picks)
    ensures Free(bs, picks) <= bs
  {
  }

  lemma FewerTies(p: Params, av: seq<Claim>, bs: multiset<Claim>, n: nat)
    requires NoTies(p, multiset(av), bs) && n <= |av|
    ensures NoTies(p, multiset(av[..n]), bs)
  {
    hide Suits, Joint;
    forall a | a in multiset(av[..n]) ensures a in multiset(av) {
      assert a in av[..n];
      assert a in av;
    }
  }

  /** Without ties the order of the candidate's tokens does not show. */
  lemma NoTiesSteady(p: Params, av: seq<Claim>, bv: seq<Claim>)
    requires NoTies(p, multiset(av), multiset(bv))
    ensures SteadyRight(p, av, bv)
  {
    hide NoTies, Course, CourseMass, NameMass;
    forall x, y ensures SameCourses(p, av, x, av, y, multiset(bv)) {
      if Course(p, av, multiset(bv), x) && Course(p, av, multiset(bv), y) {
        OneCourse(p, av, multiset(bv), x, y);
      }
    }
    OrderIrrelevantExactly(p, av, bv);
  }

  /** No candidate token suits two incoming ones. */
  ghost predicate NoRivals(p: Params, ins: multiset<Claim>, bs: multiset<Claim>) {
    forall a, c, b :: a in ins && c in ins && b in bs && Suits(p, a, b) && Suits(p, c, b) ==> a == c && ins[a] == 1
  }

  /** What a token takes when nobody else wants it. */
  ghost function Partner(p: Params, a: Claim, bs: multiset<Claim>): Option<Claim> {
    if exists b :: Heaviest(p, a, bs, b) then (var b :| Heaviest(p, a, bs, b); Some(b)) else None
  }

  lemma TwoOf(av: seq<Claim>, i: nat, j: nat)
    requires i < j < |av| && av[i] == av[j]
    ensures multiset(av)[av[i]] >= 2
  {
    assert av == av[..j] + av[j..];
    assert av[..j][i] == av[i] && av[j..][0] == av[j];
    assert av[i] in multiset(av[..j]) && av[i] in multiset(av[j..]);
  }

  lemma NotEarlier(p: Params, av: seq<Claim>, bs: multiset<Claim>, picks: Picks, i: nat, n: nat, c: Claim)
    requires Course(p, av, bs, picks) && NoRivals(p, multiset(av), bs) && i < n < |av|
    requires c in bs && Suits(p, av[n], c)
    ensures picks[i] != Some(c)
  {
    hide Suits, Joint, Free;
    assert Chosen(p, av[i], Free(bs, picks[..i]), picks[i]);
    assert picks[i] == Some(c) ==> Suits(p, av[i], c);
    assert av[i] in multiset(av) && av[n] in multiset(av);
    if av[i] == av[n] {
      TwoOf(av, i, n);
    }
  }

  lemma {:induction false} NoneTook(picks: Picks, c: Claim)
    requires forall i :: 0 <= i < |picks| ==> picks[i] != Some(c)
    ensures c !in Taken(picks)
  {
    if picks != [] {
      NoneTook(picks[..|picks| - 1], c);
    }
  }

  /** Without rivals, what suits a token is still free when it chooses. */
  lemma StillFree(p: Params, av: seq<Claim>, bs: multiset<Claim>, picks: Picks, n: nat, c: Claim)
    requires Course(p, av, bs, picks) && NoRivals(p, multiset(av), bs) && n < |av|
    requires c in bs && Suits(p, av[n], c)
    ensures c in Free(bs, picks[..n])
  {
    hide Suits, Course, NoRivals, Taken;
    CourseSize(p, av, bs, picks);
    forall i | 0 <= i < n ensures picks[..n][i] != Some(c) {
      NotEarlier(p, av, bs, picks, i, n, c);
    }
    NoneTook(picks[..n], c);
  }

  lemma ChosenOfAll(p: Params, av: seq<Claim>, bs: multiset<Claim>, picks: Picks, n: nat)
    requires Course(p, av, bs, picks) && NoRivals(p, multiset(av), bs) && n < |av|
    ensures Chosen(p, av[n], bs, picks[n])
  {
    hide Suits, Joint, NoRivals;
    assert Chosen(p, av[n], Free(bs, picks[..n]), picks[n]);
    forall c | c in bs && Suits(p, av[n], c) ensures c in Free(bs, picks[..n]) {
      StillFree(p, av, bs, picks, n, c);
    }
  }

  lemma SoloPick(p: Params, av: seq<Claim>, bs: multiset<Claim>, picks: Picks, n: nat)
    requires Course(p, av, bs, picks) && n < |av|
    requires NoRivals(p, multiset(av), bs) && NoTies(p, multiset(av), bs)
    ensures picks[n] == Partner(p, av[n], bs)
  {
    hide Suits, Joint, NoRivals, NoTies, Course;
    CourseSize(p, av, bs, picks);
    ChosenOfAll(p, av, bs, picks, n);
    assert av[n] in multiset(av);
    var b := Partner(p, av[n], bs);
    assert picks[n].Some? ==> Heaviest(p, av[n], bs, picks[n].value);
    assert Chosen(p, av[n], bs, b);
    ChosenOnce(p, av[n], multiset(av), bs, bs, picks[n], b);
  }

  /** What a course adds up to, whatever the order. */
  datatype Tally = Tally(shared: real, alone: multiset<Claim>, taken: multiset<Claim>)

  function Both(x: Tally, y: Tally): Tally {
    Tally(x.shared + y.shared, x.alone + y.alone, x.taken + y.taken)
  }

  ghost function TallyOne(p: Params, a: Claim, bs: multiset<Claim>): Tally {
    match Partner(p, a, bs)
    case None => Tally(0.0, multiset{a}, multiset{})
    case Some(b) => Tally(Joint(p, a, b), multiset{}, multiset{b})
  }

  ghost function TallyAll(p: Params, av: seq<Claim>, bs: multiset<Claim>): Tally {
    if av == [] then Tally(0.0, multiset{}, multiset{})
    else Both(TallyAll(p, av[..|av| - 1], bs), TallyOne(p, av[|av| - 1], bs))
  }

  lemma BothSwap(x: Tally, y: Tally, z: Tally)
    ensures Both(Both(x, y), z) == Both(Both(x, z), y)
  {
    assert x.alone + y.alone + z.alone == x.alone + z.alone + y.alone;
    assert x.taken + y.taken + z.taken == x.taken + z.taken + y.taken;
  }

  lemma {:induction false} TallyMiddle(p: Params, u: seq<Claim>, a: Claim, v: seq<Claim>, bs: multiset<Claim>)
    ensures TallyAll(p, (u + [a]) + v, bs) == Both(TallyAll(p, u + v, bs), TallyOne(p, a, bs))
    decreases |v|
  {
    hide TallyOne, Both;
    if v == [] {
      assert (u + [a]) + v == u + [a] && u + v == u;
      assert (u + [a])[..|u|] == u;
    } else {
      var w, b := v[..|v| - 1], v[|v| - 1];
      TallyMiddle(p, u, a, w, bs);
      assert ((u + [a]) + v)[..|u| + |v|] == (u + [a]) + w;
      assert (u + v)[..|u| + |v| - 1] == u + w;
      BothSwap(TallyAll(p, u + w, bs), TallyOne(p, a, bs), TallyOne(p, b, bs));
    }
  }

  lemma {:induction false} TallySame(p: Params, v: seq<Claim>, w: seq<Claim>, bs: multiset<Claim>)
    requires multiset(v) == multiset(w)
    ensures TallyAll(p, v, bs) == TallyAll(p, w, bs)
    decreases |v|
  {
    hide TallyOne, Both;
    assert |v| == |multiset(v)| == |multiset(w)| == |w|;
    if v != [] {
      var i := Relocate(v, w);
      TallySame(p, v[..|v| - 1], w[..i] + w[i + 1..], bs);
      TallyMiddle(p, w[..i], w[i], w[i + 1..], bs);
    }
  }

  lemma {:induction false} TallyIs(p: Params, av: seq<Claim>, bs: multiset<Claim>, picks: Picks)
    requires |picks| == |av| && forall i :: 0 <= i < |av| ==> picks[i] == Partner(p, av[i], bs)
    ensures TallyAll(p, av, bs) == Tally(SharedBy(p, av, picks), multiset(Alone(av, picks)), multiset(Taken(picks)))
    decreases |av|
  {
    hide Partner, Joint;
    if av != [] {
      TallyIs(p, av[..|av| - 1], bs, picks[..|av| - 1]);
    }
  }

  /** Without ties and rivals no order shows, on either side. */
  lemma NoRivalsSteady(p: Params, av: seq<Claim>, bv: seq<Claim>)
    requires NoTies(p, multiset(av), multiset(bv)) && NoRivals(p, multiset(av), multiset(bv))
    ensures Steady(p, av, bv)
  {
    hide NoTies, NoRivals, Course, NameMass;
    var ins, bs := multiset(av), multiset(bv);
    forall v, x, w, y | multiset(v) == ins && multiset(w) == ins ensures SameCourses(p, v, x, w, y, bs) {
      if Course(p, v, bs, x) && Course(p, w, bs, y) {
        SoloTally(p, v, bs, x);
        SoloTally(p, w, bs, y);
        TallySame(p, v, w, bs);
      }
    }
    OrdersIrrelevantExactly(p, av, bv);
  }

  lemma SoloTally(p: Params, av: seq<Claim>, bs: multiset<Claim>, picks: Picks)
    requires Course(p, av, bs, picks) && NoTies(p, multiset(av), bs) && NoRivals(p, multiset(av), bs)
    ensures |picks| == |av|
    ensures TallyAll(p, av, bs) == Tally(SharedBy(p, av, picks), multiset(Alone(av, picks)), multiset(Taken(picks)))
  {
    hide NoTies, NoRivals, Course, Partner;
    CourseSize(p, av, bs, picks);
    forall i: nat | i < |av| ensures picks[i] == Partner(p, av[i], bs) {
      SoloPick(p, av, bs, picks, i);
    }
    TallyIs(p, av, bs, picks);
  }

  // -------------------------------------------------------------------------------------------
  // Ties do show
  // -------------------------------------------------------------------------------------------

  /** A claim as the resolver builds it: no link to an earlier one and no source of its own. */
  predicate Bare(c: Claim) {
    c.ulid == "" && c.supersedes == [] && c.sourceKey == ""
  }

  /** Full tokens, each there once, that stand for themselves and for no other of them. */
  ghost predicate Apart(p: Params, bs: multiset<Claim>) {
    && (forall b :: b in bs ==> bs[b] == 1 && Bare(b) && |b.value| > 1 && Suits(p, b, b))
    && (forall b, c :: b in bs && c in bs && b != c ==> !Suits(p, b, c))
  }

  function Selves(cs: seq<Claim>): (picks: Picks)
    ensures |picks| == |cs|
  {
    if cs == [] then [] else Selves(cs[..|cs| - 1]) + [Some(cs[|cs| - 1])]
  }

  lemma {:induction false} SelfCourse(p: Params, cs: seq<Claim>, bs: multiset<Claim>)
    requires Apart(p, bs) && multiset(cs) <= bs
    ensures Course(p, cs, bs, Selves(cs)) && Taken(Selves(cs)) == cs
    ensures SharedBy(p, cs, Selves(cs)) >= 0.0 && Alone(cs, Selves(cs)) == []
  {
    if cs != [] {
      hide Course, Suits, Joint, Apart, Taken, Free, SharedBy, Alone;
      var front, c := cs[..|cs| - 1], cs[|cs| - 1];
      assert cs == front + [c];
      assert multiset(front) <= bs;
      SelfCourse(p, front, bs);
      SelfChosen(p, front, c, bs);
      CourseMore(p, front, bs, Selves(front), c, Some(c));
      TakenMore(Selves(front), Some(c));
      assert Alone(cs, Selves(cs)) == [] + [];
    }
  }

  lemma SelfChosen(p: Params, front: seq<Claim>, c: Claim, bs: multiset<Claim>)
    requires Apart(p, bs) && multiset(front + [c]) <= bs && Taken(Selves(front)) == front
    ensures Chosen(p, c, Free(bs, Selves(front)), Some(c)) && Joint(p, c, c) > 0.0
  {
    hide Suits, Joint, Bare;
    OneMore(front, c, bs);
    SuitsMass(p, c, c);
  }

  lemma OneMore(front: seq<Claim>, c: Claim, bs: multiset<Claim>)
    requires multiset(front + [c]) <= bs
    ensures c in bs && c in bs - multiset(front)
  {
    assert multiset(front + [c])[c] == multiset(front)[c] + 1;
  }

  lemma SuitsMass(p: Params, a: Claim, b: Claim)
    requires Suits(p, a, b)
    ensures Joint(p, a, b) > 0.0
  {
  }

  /** A token that suits two others equally, once everything else is taken. */
  ghost predicate Tied(p: Params, a: Claim, bs: multiset<Claim>, b: Claim, c: Claim) {
    && b in bs && c in bs && b != c && Suits(p, a, b) && Suits(p, a, c)
    && Joint(p, a, b) == Joint(p, a, c)
  }

  lemma PairLeft(bs: multiset<Claim>, cs: seq<Claim>, b: Claim, c: Claim)
    requires multiset(cs) == bs - multiset{b} - multiset{c} && b in bs && c in bs && b != c
    ensures bs - multiset(cs) == multiset{b, c} && multiset(cs) <= bs
  {
  }

  /** The two ways on from a tie: the second token is left with nothing, or both are served. */
  lemma TieCourses(p: Params, a: Claim, bs: multiset<Claim>, b: Claim, c: Claim, cs: seq<Claim>)
    requires Apart(p, bs) && Tied(p, a, bs, b, c) && multiset(cs) == bs - multiset{b} - multiset{c}
    ensures var av, x, y := cs + [a] + [b], Selves(cs) + [Some(b)] + [None], Selves(cs) + [Some(c)] + [Some(b)];
            && Course(p, av, bs, x) && Course(p, av, bs, y)
            && Alone(av, x) == [b] && Free(bs, x) == multiset{c}
            && Alone(av, y) == [] && SharedBy(p, av, y) > 0.0
  {
    hide Course, Suits, Joint, Chosen, Free, Taken, Alone, SharedBy, Apart;
    var s := Selves(cs);
    TieStart(p, bs, b, c, cs);
    SuitsMass(p, a, c);
    TieStep(p, cs, bs, s, a, b, c);
    TieStep(p, cs, bs, s, a, c, b);
    LastChosen(p, bs, b, c);
    CourseMore(p, cs + [a], bs, s + [Some(b)], b, None);
    CourseMore(p, cs + [a], bs, s + [Some(c)], b, Some(b));
    FreeStays(bs, s + [Some(b)]);
    assert [] + [b] == [b];
    var none: seq<Claim> := [];
    assert none + none == none;
  }

  lemma TieStart(p: Params, bs: multiset<Claim>, b: Claim, c: Claim, cs: seq<Claim>)
    requires Apart(p, bs) && b in bs && c in bs && b != c && multiset(cs) == bs - multiset{b} - multiset{c}
    ensures Course(p, cs, bs, Selves(cs)) && Free(bs, Selves(cs)) == multiset{b, c} == multiset{c, b}
    ensures SharedBy(p, cs, Selves(cs)) >= 0.0 && Alone(cs, Selves(cs)) == []
  {
    hide Course, Suits, Joint, Apart, Taken, SharedBy, Alone;
    OnceEach(p, bs, b, c);
    PairLeft(bs, cs, b, c);
    SelfCourse(p, cs, bs);
  }

  lemma OnceEach(p: Params, bs: multiset<Claim>, b: Claim, c: Claim)
    requires Apart(p, bs) && b in bs && c in bs
    ensures bs[b] == 1 && bs[c] == 1
  {
  }

  lemma LastChosen(p: Params, bs: multiset<Claim>, b: Claim, c: Claim)
    requires Apart(p, bs) && b in bs && c in bs && b != c
    ensures Chosen(p, b, multiset{c}, None) && Chosen(p, b, multiset{b}, Some(b)) && Joint(p, b, b) > 0.0
  {
    hide Suits, Joint, Bare;
    SuitsMass(p, b, b);
  }

  lemma FreeStays(bs: multiset<Claim>, picks: Picks)
    ensures Free(bs, picks + [None]) == Free(bs, picks)
  {
    hide Taken;
    TakenMore(picks, None);
    assert Taken(picks) + [] == Taken(picks);
  }

  lemma TieStep(p: Params, cs: seq<Claim>, bs: multiset<Claim>, s: Picks, a: Claim, b: Claim, c: Claim)
    requires Course(p, cs, bs, s) && Free(bs, s) == multiset{b, c} && b != c
    requires Suits(p, a, b) && Suits(p, a, c) && Joint(p, a, b) == Joint(p, a, c)
    ensures Course(p, cs + [a], bs, s + [Some(b)]) && Free(bs, s + [Some(b)]) == multiset{c}
    ensures Alone(cs + [a], s + [Some(b)]) == Alone(cs, s)
    ensures SharedBy(p, cs + [a], s + [Some(b)]) == SharedBy(p, cs, s) + Joint(p, a, b)
  {
    hide Course, Suits, Joint;
    CourseSize(p, cs, bs, s);
    assert Chosen(p, a, Free(bs, s), Some(b));
    CourseMore(p, cs, bs, s, a, Some(b));
    assert Alone(cs, s) + [] == Alone(cs, s);
    TakenMore(s, Some(b));
    FreeLess(bs, Taken(s), b);
  }

  lemma NoLicense(av: seq<Claim>, bs: multiset<Claim>)
    requires (forall a :: a in av ==> Bare(a)) && (forall b :: b in bs ==> Bare(b))
    ensures !Licensed(multiset(av), bs)
  {
    forall a | a in multiset(av) ensures Bare(a) {
      assert a in av;
    }
  }

  /** For every tie among full tokens there is an incoming name against which their order shows. */
  lemma TieShows(p: Params, a: Claim, bv: seq<Claim>, b: Claim, c: Claim) returns (av: seq<Claim>)
    requires Apart(p, multiset(bv)) && Tied(p, a, multiset(bv), b, c) && Bare(a)
    ensures (forall x :: x in av ==> Bare(x)) && !SteadyRight(p, av, bv)
  {
    hide Course, Suits, Joint, NameMass, Alone, SharedBy, Free, Selves, Listed, SteadyRight, Agreeing, Licensed;
    var bs := multiset(bv);
    var cs := Listed(bs - multiset{b} - multiset{c});
    av := cs + [a] + [b];
    forall x | x in av ensures Bare(x) {
      assert x in cs ==> x in multiset(cs);
      assert x in cs || x == a || x == b;
    }
    TieCourses(p, a, bs, b, c, cs);
    var x, y := Selves(cs) + [Some(b)] + [None], Selves(cs) + [Some(c)] + [Some(b)];
    NoLicense(av, bs);
    assert b in multiset([b]) && c in multiset{c};
    assert CourseMass(p, av, bs, x).ic == 0.0;
    assert !HasLong(multiset(Alone(av, y)));
    assert CourseMass(p, av, bs, y).ic > 0.0;
    NotAgreeing(p, av, bs, x, y);
    OrderIrrelevantExactly(p, av, bv);
  }

  lemma NotAgreeing(p: Params, av: seq<Claim>, bs: multiset<Claim>, x: Picks, y: Picks)
    requires |x| == |y| == |av| && Course(p, av, bs, x) && Course(p, av, bs, y)
    requires CourseMass(p, av, bs, x) != CourseMass(p, av, bs, y)
    ensures !Agreeing(p, av, bs)
  {
    hide Course, CourseMass;
    assert !SameCourses(p, av, x, av, y, bs);
  }

  /**
   A candidate's full tokens give the same evidence in every order, against every incoming name, if and
   only if no token suits two of them with the same weight.
   */
  lemma TiesShowExactly(p: Params, bv: seq<Claim>)
    requires Apart(p, multiset(bv))
    ensures (forall av :: (forall x :: x in av ==> Bare(x)) ==> SteadyRight(p, av, bv)) <==>
            !exists a, b, c :: Bare(a) && Tied(p, a, multiset(bv), b, c)
  {
    hide Suits, Joint, SteadyRight, Apart;
    if a, b, c :| Bare(a) && Tied(p, a, multiset(bv), b, c) {
      var av := TieShows(p, a, bv, b, c);
    } else {
      forall av | forall x :: x in av ==> Bare(x) ensures SteadyRight(p, av, bv) {
        forall a, b, c | a in multiset(av) && b in multiset(bv) && c in multiset(bv) && Suits(p, a, b) && Suits(p, a, c)
          ensures Joint(p, a, b) == Joint(p, a, c) ==> b == c
        {
          assert a in av;
          assert !Tied(p, a, multiset(bv), b, c);
        }
        NoTiesSteady(p, av, bv);
      }
    }
  }

  /** Two tokens against two: which candidate tokens the incoming ones take. */
  lemma MatchTwo(p: Params, a: Claim, a': Claim, b: Claim, b': Claim)
    requires p.w(a) == p.w(a') == p.w(b) == p.w(b') > 0.0 && Pairable(p, a, b)
    ensures MatchNames(p, [a, a'], [b, b'], 2) ==
            if Pairable(p, a', b') then Matching({0, 1}, {0, 1}, p.w(a) + p.w(a)) else Matching({0}, {0}, p.w(a))
  {
    hide Pairable;
    var av, bv, none: set<int> := [a, a'], [b, b'], {};
    assert PickPartner(p, a, bv, none, 1) == Pick(0, p.w(a));
    assert PickPartner(p, a, bv, none, 2) == Pick(0, p.w(a));
    assert none + {0} == {0} && {0} + {1} == {0, 1};
    assert MatchNames(p, av, bv, 1) == Matching({0}, {0}, p.w(a));
    assert PickPartner(p, a', bv, {0}, 1) == Pick(-1, 0.0);
  }

  lemma HeaviestOne(p: Params, c: Claim, c': Claim)
    requires p.w(c') > 0.0
    ensures HeaviestUnmatched(p, [c, c'], {0}) == p.w(c')
  {
    assert [c, c'][..1] == [c] && [c][..0] == [];
    assert HeaviestUnmatched(p, [c], {0}) == 0.0;
    assert 1 !in {0};
  }

  /**
   The matching is greedy, so the order in which a candidate's tokens come can decide the evidence: an
   incoming token that fits both takes the first, and the other may then be left with none.
   */
  lemma NameOrderMatters(p: Params, a: Claim, a': Claim, b: Claim, b': Claim)
    requires p.w(a) == p.w(a') == p.w(b) == p.w(b') > 0.0
    requires Pairable(p, a, b) && Pairable(p, a, b') && Pairable(p, a', b) && !Pairable(p, a', b')
    requires |a'.value| > 1 && |b'.value| > 1 && !LinkedAcross([a, a'], [b, b'])
    ensures NameMass(p, [a, a'], [b, b']) == Signed(0.0, p.w(a), false)
    ensures NameMass(p, [a, a'], [b', b]) == Signed(p.w(a) + p.w(a), 0.0, false)
  {
    hide Pairable, LinkedAcross;
    MatchTwo(p, a, a', b, b');
    MatchTwo(p, a, a', b', b);
    HeaviestOne(p, a, a');
    HeaviestOne(p, b, b');
    assert Divergent([a, a'], {0}) by { assert [a, a'][1] == a'; }
    assert Divergent([b, b'], {0}) by { assert [b, b'][1] == b'; }
  }
}
