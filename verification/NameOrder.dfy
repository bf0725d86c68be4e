/**
 When the order of name tokens can show in name evidence. The matching is greedy: each incoming token
 takes the heaviest free candidate token that it fits, the first in order among equals. A course is
 any way to break such ties; `OrderIrrelevantExactly` says that the evidence is the same for every
 order of the candidate's tokens if and only if all courses give the same evidence, and
 `OrdersIrrelevantExactly` says so for both sides.
 */
module NameOrder {
  import opened Options
  import opened Sequences
  import opened Evidence

  // -------------------------------------------------------------------------------------------
  // Courses of the matching, without positions
  // -------------------------------------------------------------------------------------------

  function Joint(p: Params, a: Claim, b: Claim): real { Min(p.w(a), p.w(b)) }

  /** `b` may be taken by `a`. */
  predicate Suits(p: Params, a: Claim, b: Claim) {
    Pairable(p, a, b) && Joint(p, a, b) > 0.0
  }

  ghost predicate Heaviest(p: Params, a: Claim, free: multiset<Claim>, b: Claim) {
    && b in free && Suits(p, a, b)
    && forall c :: c in free && Suits(p, a, c) ==> Joint(p, a, c) <= Joint(p, a, b)
  }

  type Picks = seq<Option<Claim>>

  ghost predicate Chosen(p: Params, a: Claim, free: multiset<Claim>, pick: Option<Claim>) {
    match pick
    case None => forall c :: c in free ==> !Suits(p, a, c)
    case Some(b) => Heaviest(p, a, free, b)
  }

  /** The candidate tokens that were taken, in the order they were taken. */
  function Taken(picks: Picks): seq<Claim> {
    if picks == [] then []
    else
      var last := picks[|picks| - 1];
      Taken(picks[..|picks| - 1]) + if last.Some? then [last.value] else []
  }

  ghost function Free(bs: multiset<Claim>, picks: Picks): multiset<Claim> {
    bs - multiset(Taken(picks))
  }

  /** Each incoming token, in order, takes one of the heaviest tokens still free, or none suits it. */
  ghost predicate Course(p: Params, av: seq<Claim>, bs: multiset<Claim>, picks: Picks) {
    |picks| == |av| && forall i :: 0 <= i < |av| ==> Chosen(p, av[i], Free(bs, picks[..i]), picks[i])
  }

  // -------------------------------------------------------------------------------------------
  // The evidence of a course
  // -------------------------------------------------------------------------------------------

  /** The incoming tokens that took nothing. */
  function Alone(av: seq<Claim>, picks: Picks): seq<Claim>
    requires |picks| == |av|
  {
    if av == [] then []
    else
      var n := |av| - 1;
      Alone(av[..n], picks[..n]) + if picks[n].None? then [av[n]] else []
  }

  function SharedBy(p: Params, av: seq<Claim>, picks: Picks): real
    requires |picks| == |av|
  {
    if av == [] then 0.0
    else
      var n := |av| - 1;
      SharedBy(p, av[..n], picks[..n]) + if picks[n].Some? then Joint(p, av[n], picks[n].value) else 0.0
  }

  ghost predicate HasLong(cs: multiset<Claim>) {
    exists c :: c in cs && |c.value| > 1
  }

  ghost predicate IsTop(p: Params, cs: multiset<Claim>, x: real) {
    && x >= 0.0 && (forall c :: c in cs ==> p.w(c) <= x)
    && (x == 0.0 || exists c :: c in cs && p.w(c) == x)
  }

  /** The largest weight among some tokens, or zero. */
  ghost function Top(p: Params, cs: multiset<Claim>): real {
    if exists x :: IsTop(p, cs, x) then (var x :| IsTop(p, cs, x); x) else 0.0
  }

  ghost predicate Licensed(av: multiset<Claim>, bs: multiset<Claim>) {
    exists a, b :: a in av && b in bs && Linked(a, b)
  }

  ghost function CourseMass(p: Params, av: seq<Claim>, bs: multiset<Claim>, picks: Picks): Signed
    requires |picks| == |av|
  {
    var alone, left := multiset(Alone(av, picks)), Free(bs, picks);
    if HasLong(alone) && HasLong(left) && !Licensed(multiset(av), bs)
    then Signed(0.0, Min(Top(p, alone), Top(p, left)), false)
    else Signed(SharedBy(p, av, picks), 0.0, false)
  }

  // -------------------------------------------------------------------------------------------
  // The greedy loop follows a course
  // -------------------------------------------------------------------------------------------

  /** The tokens at positions that are not taken. */
  function Rest(cs: seq<Claim>, taken: set<int>): seq<Claim> {
    if cs == [] then []
    else
      var n := |cs| - 1;
      Rest(cs[..n], taken) + if n in taken then [] else [cs[n]]
  }

  lemma {:induction false} RestHas(cs: seq<Claim>, taken: set<int>, c: Claim)
    ensures c in Rest(cs, taken) <==> exists j :: 0 <= j < |cs| && j !in taken && cs[j] == c
  {
    if cs != [] {
      var n := |cs| - 1;
      RestHas(cs[..n], taken, c);
      if j :| 0 <= j < |cs| && j !in taken && cs[j] == c {
        if j < n {
          assert cs[..n][j] == c;
        }
      }
    }
  }

  lemma RestUnfold(cs: seq<Claim>, taken: set<int>, c: Claim)
    requires cs != []
    ensures var n := |cs| - 1;
            multiset(Rest(cs, taken))[c] ==
            multiset(Rest(cs[..n], taken))[c] + if n !in taken && cs[n] == c then 1 else 0
  {
    var n := |cs| - 1;
    assert n !in taken ==> Rest(cs, taken) == Rest(cs[..n], taken) + [cs[n]];
    assert n in taken ==> Rest(cs, taken) == Rest(cs[..n], taken) + [];
  }

  lemma {:induction false} RestCount(cs: seq<Claim>, taken: set<int>, j: int, c: Claim)
    requires 0 <= j < |cs| && j !in taken
    ensures multiset(Rest(cs, taken))[c] == multiset(Rest(cs, taken + {j}))[c] + if cs[j] == c then 1 else 0
  {
    hide Rest;
    var n := |cs| - 1;
    RestUnfold(cs, taken, c);
    RestUnfold(cs, taken + {j}, c);
    if j < n {
      assert cs[..n][j] == cs[j];
      RestCount(cs[..n], taken, j, c);
    } else {
      RestSame(cs[..n], taken, taken + {j});
    }
  }

  lemma RestWithout(cs: seq<Claim>, taken: set<int>, j: int)
    requires 0 <= j < |cs| && j !in taken
    ensures multiset(Rest(cs, taken + {j})) == multiset(Rest(cs, taken)) - multiset{cs[j]}
  {
    hide Rest;
    forall c ensures multiset(Rest(cs, taken))[c] == multiset(Rest(cs, taken + {j}))[c] + if cs[j] == c then 1 else 0 {
      RestCount(cs, taken, j, c);
    }
  }

  lemma {:induction false} RestSame(cs: seq<Claim>, x: set<int>, y: set<int>)
    requires forall j :: 0 <= j < |cs| ==> (j in x <==> j in y)
    ensures Rest(cs, x) == Rest(cs, y)
  {
    if cs != [] {
      RestSame(cs[..|cs| - 1], x, y);
    }
  }

  lemma {:induction false} RestAll(cs: seq<Claim>)
    ensures Rest(cs, {}) == cs
  {
    if cs != [] {
      RestAll(cs[..|cs| - 1]);
    }
  }

  /** The pick is the first of the heaviest free tokens. */
  lemma {:induction false} PickFirst(p: Params, a: Claim, bv: seq<Claim>, taken: set<int>, n: nat)
    requires n <= |bv|
    ensures var r := PickPartner(p, a, bv, taken, n);
            && (forall j :: 0 <= j < n && j !in taken && Suits(p, a, bv[j]) ==>
                  r.best >= 0 && Joint(p, a, bv[j]) <= r.mass && (j < r.best ==> Joint(p, a, bv[j]) < r.mass))
            && (r.best >= 0 ==> Suits(p, a, bv[r.best]))
  {
    hide Pairable;
    if n > 0 {
      PickFirst(p, a, bv, taken, n - 1);
    }
  }

  function PickOf(p: Params, a: Claim, bv: seq<Claim>, taken: set<int>): Option<Claim> {
    var r := PickPartner(p, a, bv, taken, |bv|);
    if r.best >= 0 then Some(bv[r.best]) else None
  }

  lemma PickChosen(p: Params, a: Claim, bv: seq<Claim>, taken: set<int>)
    ensures Chosen(p, a, multiset(Rest(bv, taken)), PickOf(p, a, bv, taken))
  {
    hide Suits, Joint;
    var r := PickPartner(p, a, bv, taken, |bv|);
    PickFirst(p, a, bv, taken, |bv|);
    forall c ensures c in multiset(Rest(bv, taken)) <==> exists j :: 0 <= j < |bv| && j !in taken && bv[j] == c {
      RestHas(bv, taken, c);
    }
    if r.best >= 0 {
      assert r.mass == Joint(p, a, bv[r.best]) by { PickMass(p, a, bv, taken); }
    }
  }

  lemma PickMass(p: Params, a: Claim, bv: seq<Claim>, taken: set<int>)
    ensures var r := PickPartner(p, a, bv, taken, |bv|);
            r.best >= 0 ==> r.mass == Joint(p, a, bv[r.best])
  {
  }

  /** What each of the first `n` tokens takes. */
  function PicksOf(p: Params, av: seq<Claim>, bv: seq<Claim>, n: nat): (picks: Picks)
    requires n <= |av|
    ensures |picks| == n
  {
    if n == 0 then []
    else PicksOf(p, av, bv, n - 1) + [PickOf(p, av[n - 1], bv, MatchNames(p, av, bv, n - 1).right)]
  }

  /** The loop after `n` tokens, seen without positions. */
  ghost predicate Follows(p: Params, av: seq<Claim>, bv: seq<Claim>, n: nat)
    requires n <= |av|
  {
    var m, picks := MatchNames(p, av, bv, n), PicksOf(p, av, bv, n);
    && Course(p, av[..n], multiset(bv), picks)
    && multiset(Rest(bv, m.right)) == Free(multiset(bv), picks)
    && (forall i :: i in m.left <==> 0 <= i < n && picks[i].Some?)
    && m.shared == SharedBy(p, av[..n], picks)
  }

  lemma TakenMore(picks: Picks, pick: Option<Claim>)
    ensures Taken(picks + [pick]) == Taken(picks) + if pick.Some? then [pick.value] else []
  {
    assert (picks + [pick])[..|picks|] == picks;
  }

  lemma CourseMore(p: Params, av: seq<Claim>, bs: multiset<Claim>, picks: Picks, a: Claim, pick: Option<Claim>)
    requires Course(p, av, bs, picks) && Chosen(p, a, Free(bs, picks), pick)
    ensures Course(p, av + [a], bs, picks + [pick])
    ensures SharedBy(p, av + [a], picks + [pick]) ==
            SharedBy(p, av, picks) + if pick.Some? then Joint(p, a, pick.value) else 0.0
    ensures Alone(av + [a], picks + [pick]) == Alone(av, picks) + if pick.None? then [a] else []
  {
    hide Chosen, Free, Joint;
    var more, longer := av + [a], picks + [pick];
    assert more[..|av|] == av && longer[..|av|] == picks;
    forall i | 0 <= i < |more| ensures Chosen(p, more[i], Free(bs, longer[..i]), longer[i]) {
      if i < |av| {
        assert longer[..i] == picks[..i];
      }
    }
  }

  lemma {:induction false} LoopFollows(p: Params, av: seq<Claim>, bv: seq<Claim>, n: nat)
    requires n <= |av|
    ensures Follows(p, av, bv, n)
  {
    if n == 0 {
      RestAll(bv);
      assert Taken([]) == [];
    } else {
      LoopFollows(p, av, bv, n - 1);
      LoopStep(p, av, bv, n);
    }
  }

  lemma LoopStep(p: Params, av: seq<Claim>, bv: seq<Claim>, n: nat)
    requires 0 < n <= |av| && Follows(p, av, bv, n - 1)
    ensures Follows(p, av, bv, n)
  {
    hide Course, Chosen, Joint, Suits, Pairable, Free, Taken, SharedBy, Alone, Rest, PickPartner;
    var m, picks := MatchNames(p, av, bv, n - 1), PicksOf(p, av, bv, n - 1);
    var a, pick := av[n - 1], PickOf(p, av[n - 1], bv, m.right);
    PickChosen(p, a, bv, m.right);
    CourseMore(p, av[..n - 1], multiset(bv), picks, a, pick);
    assert av[..n] == av[..n - 1] + [a];
    PickMass(p, a, bv, m.right);
    FreeStep(bv, m.right, picks, PickPartner(p, a, bv, m.right, |bv|).best, pick);
  }

  lemma FreeStep(bv: seq<Claim>, right: set<int>, picks: Picks, best: int, pick: Option<Claim>)
    requires multiset(Rest(bv, right)) == Free(multiset(bv), picks)
    requires best < |bv| && (best >= 0 ==> best !in right && pick == Some(bv[best])) && (best < 0 ==> pick == None)
    ensures multiset(Rest(bv, if best >= 0 then right + {best} else right)) == Free(multiset(bv), picks + [pick])
  {
    hide Rest, Taken;
    TakenMore(picks, pick);
    if best >= 0 {
      RestWithout(bv, right, best);
      FreeLess(multiset(bv), Taken(picks), pick.value);
    } else {
      assert Taken(picks) + [] == Taken(picks);
    }
  }

  lemma FreeLess(bs: multiset<Claim>, taken: seq<Claim>, b: Claim)
    ensures bs - multiset(taken + [b]) == bs - multiset(taken) - multiset{b}
  {
  }

  lemma TopUnique(p: Params, cs: multiset<Claim>, x: real)
    requires IsTop(p, cs, x)
    ensures Top(p, cs) == x
  {
    var y := Top(p, cs);
    assert IsTop(p, cs, y);
  }

  lemma {:induction false} HeaviestIsTop(p: Params, cs: seq<Claim>, matched: set<int>)
    ensures IsTop(p, multiset(Rest(cs, matched)), HeaviestUnmatched(p, cs, matched))
  {
    if cs != [] {
      var n := |cs| - 1;
      HeaviestIsTop(p, cs[..n], matched);
      var before, x := multiset(Rest(cs[..n], matched)), HeaviestUnmatched(p, cs[..n], matched);
      assert forall c :: c in multiset(Rest(cs, matched)) <==> c in before || (n !in matched && c == cs[n]);
    }
  }

  lemma DivergentLong(cs: seq<Claim>, matched: set<int>)
    ensures Divergent(cs, matched) <==> HasLong(multiset(Rest(cs, matched)))
  {
    forall c ensures c in multiset(Rest(cs, matched)) <==> exists j :: 0 <= j < |cs| && j !in matched && cs[j] == c {
      RestHas(cs, matched, c);
    }
  }

  lemma {:induction false} AloneRest(av: seq<Claim>, picks: Picks, left: set<int>)
    requires |picks| == |av| && forall i :: 0 <= i < |av| ==> (i in left <==> picks[i].Some?)
    ensures Rest(av, left) == Alone(av, picks)
  {
    if av != [] {
      AloneRest(av[..|av| - 1], picks[..|av| - 1], left);
    }
  }

  lemma LinksSame(av: seq<Claim>, bv: seq<Claim>)
    ensures LinkedAcross(av, bv) <==> Licensed(multiset(av), multiset(bv))
  {
    hide Linked;
    if LinkedAcross(av, bv) {
      var i, j :| 0 <= i < |av| && 0 <= j < |bv| && Linked(av[i], bv[j]);
      assert av[i] in multiset(av) && bv[j] in multiset(bv);
    }
    if Licensed(multiset(av), multiset(bv)) {
      var a, b :| a in multiset(av) && b in multiset(bv) && Linked(a, b);
      assert a in av && b in bv;
    }
  }

  /** Name evidence is the evidence of the course that the loop follows. */
  lemma MassOfCourse(p: Params, av: seq<Claim>, bv: seq<Claim>)
    ensures Course(p, av, multiset(bv), PicksOf(p, av, bv, |av|))
    ensures NameMass(p, av, bv) == CourseMass(p, av, multiset(bv), PicksOf(p, av, bv, |av|))
  {
    hide Course, Divergent, HasLong, HeaviestUnmatched, LinkedAcross, Licensed, IsTop, Top;
    var n := |av|;
    LoopFollows(p, av, bv, n);
    assert av[..n] == av;
    var m, picks := MatchNames(p, av, bv, n), PicksOf(p, av, bv, n);
    AloneRest(av, picks, m.left);
    DivergentLong(av, m.left);
    DivergentLong(bv, m.right);
    HeaviestIsTop(p, av, m.left);
    HeaviestIsTop(p, bv, m.right);
    TopUnique(p, multiset(Alone(av, picks)), HeaviestUnmatched(p, av, m.left));
    TopUnique(p, Free(multiset(bv), picks), HeaviestUnmatched(p, bv, m.right));
    LinksSame(av, bv);
  }

  // -------------------------------------------------------------------------------------------
  // Every course is followed in some order
  // -------------------------------------------------------------------------------------------

  lemma {:induction false} TakenPrefix(picks: Picks, n: nat)
    requires n <= |picks|
    ensures Taken(picks[..n]) <= Taken(picks)
  {
    if n < |picks| {
      var k := |picks| - 1;
      TakenPrefix(picks[..k], n);
      assert picks[..k][..n] == picks[..n];
      assert Taken(picks[..k]) <= Taken(picks);
    } else {
      assert picks[..n] == picks;
    }
  }

  lemma CourseFront(p: Params, av: seq<Claim>, bs: multiset<Claim>, picks: Picks, n: nat)
    requires Course(p, av, bs, picks) && n <= |av|
    ensures Course(p, av[..n], bs, picks[..n])
  {
    hide Chosen, Free;
    forall i | 0 <= i < n ensures Chosen(p, av[..n][i], Free(bs, picks[..n][..i]), picks[..n][i]) {
      assert picks[..n][..i] == picks[..i];
    }
  }

  /** Only tokens of the candidate are taken, none more often than it is there. */
  lemma {:induction false} TakenWithin(p: Params, av: seq<Claim>, bs: multiset<Claim>, picks: Picks)
    requires Course(p, av, bs, picks)
    ensures multiset(Taken(picks)) <= bs
    decreases |av|
  {
    if av != [] {
      var n := |av| - 1;
      CourseFront(p, av, bs, picks, n);
      TakenWithin(p, av[..n], bs, picks[..n]);
      assert Chosen(p, av[n], Free(bs, picks[..n]), picks[n]);
    }
  }

  ghost function Listed(cs: multiset<Claim>): (r: seq<Claim>)
    ensures multiset(r) == cs
    decreases |cs|
  {
    if cs == multiset{} then []
    else
      var c :| c in cs;
      Listed(cs - multiset{c}) + [c]
  }

  function UpTo(k: nat): (r: set<int>)
    ensures forall j :: j in r <==> 0 <= j < k
  {
    if k == 0 then {} else UpTo(k - 1) + {k - 1}
  }

  lemma FreeTail(cv: seq<Claim>, k: nat)
    requires k <= |cv|
    ensures multiset(cv) - multiset(cv[..k]) == multiset(cv[k..])
  {
    assert cv == cv[..k] + cv[k..];
  }

  /** When the first free token is one of the heaviest, it is the pick. */
  lemma PickHead(p: Params, a: Claim, cv: seq<Claim>, k: nat, pick: Option<Claim>)
    requires k <= |cv| && Chosen(p, a, multiset(cv[k..]), pick)
    requires pick.Some? ==> k < |cv| && cv[k] == pick.value
    ensures PickPartner(p, a, cv, UpTo(k), |cv|).best == if pick.Some? then k else -1
  {
    hide Suits, Joint;
    var r := PickPartner(p, a, cv, UpTo(k), |cv|);
    PickFirst(p, a, cv, UpTo(k), |cv|);
    PickMass(p, a, cv, UpTo(k));
    forall j | k <= j < |cv| ensures cv[j] in multiset(cv[k..]) {
      assert cv[k..][j - k] == cv[j];
    }
  }

  lemma {:induction false} Realized(p: Params, av: seq<Claim>, cv: seq<Claim>, picks: Picks, n: nat)
    requires Course(p, av, multiset(cv), picks) && Taken(picks) <= cv && n <= |av|
    ensures PicksOf(p, av, cv, n) == picks[..n]
    ensures MatchNames(p, av, cv, n).right == UpTo(|Taken(picks[..n])|)
  {
    if n > 0 {
      Realized(p, av, cv, picks, n - 1);
      RealizedStep(p, av, cv, picks, n);
    }
  }

  /** What the next pick of a course looks like when the tokens taken stand in front. */
  lemma NextChosen(p: Params, av: seq<Claim>, cv: seq<Claim>, picks: Picks, n: nat)
    requires Course(p, av, multiset(cv), picks) && Taken(picks) <= cv && n < |av|
    ensures var k := |Taken(picks[..n])|;
            && k <= |cv| && Chosen(p, av[n], multiset(cv[k..]), picks[n])
            && |Taken(picks[..n + 1])| == (if picks[n].Some? then k + 1 else k)
            && (picks[n].Some? ==> k < |cv| && cv[k] == picks[n].value)
  {
    hide Chosen, Taken;
    var k := |Taken(picks[..n])|;
    assert picks[..n + 1] == picks[..n] + [picks[n]];
    TakenMore(picks[..n], picks[n]);
    TakenPrefix(picks, n);
    TakenPrefix(picks, n + 1);
    assert Taken(picks[..n]) == cv[..k];
    FreeTail(cv, k);
    assert Chosen(p, av[n], Free(multiset(cv), picks[..n]), picks[n]);
  }

  lemma RealizedStep(p: Params, av: seq<Claim>, cv: seq<Claim>, picks: Picks, n: nat)
    requires Course(p, av, multiset(cv), picks) && Taken(picks) <= cv && 0 < n <= |av|
    requires PicksOf(p, av, cv, n - 1) == picks[..n - 1]
    requires MatchNames(p, av, cv, n - 1).right == UpTo(|Taken(picks[..n - 1])|)
    ensures PicksOf(p, av, cv, n) == picks[..n]
    ensures MatchNames(p, av, cv, n).right == UpTo(|Taken(picks[..n])|)
  {
    hide Chosen, PickPartner, Taken, Course;
    CourseSize(p, av, multiset(cv), picks);
    var k := |Taken(picks[..n - 1])|;
    NextChosen(p, av, cv, picks, n - 1);
    PickHead(p, av[n - 1], cv, k, picks[n - 1]);
    assert picks[..n] == picks[..n - 1] + [picks[n - 1]];
  }

  /** Whatever course the matching may take, some order of the candidate's tokens makes it take that one. */
  lemma Reached(p: Params, av: seq<Claim>, bs: multiset<Claim>, picks: Picks) returns (cv: seq<Claim>)
    requires Course(p, av, bs, picks)
    ensures multiset(cv) == bs && PicksOf(p, av, cv, |av|) == picks
  {
    hide Course;
    TakenWithin(p, av, bs, picks);
    cv := Taken(picks) + Listed(bs - multiset(Taken(picks)));
    Completed(Taken(picks), bs);
    CourseSize(p, av, bs, picks);
    Realized(p, av, cv, picks, |av|);
    assert picks[..|av|] == picks;
  }

  lemma Completed(taken: seq<Claim>, bs: multiset<Claim>)
    requires multiset(taken) <= bs
    ensures multiset(taken + Listed(bs - multiset(taken))) == bs
  {
    hide Listed;
    var rest := Listed(bs - multiset(taken));
    assert multiset(taken + rest) == multiset(taken) + multiset(rest);
  }

  lemma CourseSize(p: Params, av: seq<Claim>, bs: multiset<Claim>, picks: Picks)
    requires Course(p, av, bs, picks)
    ensures |picks| == |av|
  {
  }

  // -------------------------------------------------------------------------------------------
  // Exactly when no order shows
  // -------------------------------------------------------------------------------------------

  ghost predicate SameCourses(p: Params, v: seq<Claim>, x: Picks, w: seq<Claim>, y: Picks, bs: multiset<Claim>) {
    Course(p, v, bs, x) && Course(p, w, bs, y) ==> CourseMass(p, v, bs, x) == CourseMass(p, w, bs, y)
  }

  /** However ties are broken, the evidence is the same. */
  ghost predicate Agreeing(p: Params, av: seq<Claim>, bs: multiset<Claim>) {
    forall x, y :: SameCourses(p, av, x, av, y, bs)
  }

  ghost predicate SteadyRight(p: Params, av: seq<Claim>, bv: seq<Claim>) {
    forall cv :: multiset(cv) == multiset(bv) ==> NameMass(p, av, cv) == NameMass(p, av, bv)
  }

  lemma CoursesCompared(p: Params, v: seq<Claim>, x: Picks, w: seq<Claim>, y: Picks, bs: multiset<Claim>)
    returns (cv: seq<Claim>, dv: seq<Claim>)
    requires Course(p, v, bs, x) && Course(p, w, bs, y)
    ensures multiset(cv) == multiset(dv) == bs
    ensures NameMass(p, v, cv) == CourseMass(p, v, bs, x) && NameMass(p, w, dv) == CourseMass(p, w, bs, y)
  {
    hide NameMass, CourseMass, Course;
    cv := Reached(p, v, bs, x);
    dv := Reached(p, w, bs, y);
    MassOfCourse(p, v, cv);
    MassOfCourse(p, w, dv);
  }

  /**
   Name evidence is the same for every order of the candidate's tokens if and only if it is the same
   however the greedy matching breaks ties among the heaviest free tokens.
   */
  lemma OrderIrrelevantExactly(p: Params, av: seq<Claim>, bv: seq<Claim>)
    ensures SteadyRight(p, av, bv) <==> Agreeing(p, av, multiset(bv))
  {
    hide NameMass, CourseMass, Course;
    var bs := multiset(bv);
    if SteadyRight(p, av, bv) {
      forall x, y ensures SameCourses(p, av, x, av, y, bs) {
        if Course(p, av, bs, x) && Course(p, av, bs, y) {
          var cv, dv := CoursesCompared(p, av, x, av, y, bs);
        }
      }
    }
    if Agreeing(p, av, bs) {
      forall cv | multiset(cv) == bs ensures NameMass(p, av, cv) == NameMass(p, av, bv) {
        MassOfCourse(p, av, cv);
        MassOfCourse(p, av, bv);
        assert SameCourses(p, av, PicksOf(p, av, cv, |av|), av, PicksOf(p, av, bv, |av|), bs);
      }
    }
  }

  /** In whatever order the incoming tokens choose and however ties are broken, the evidence is the same. */
  ghost predicate AgreeingAll(p: Params, ins: multiset<Claim>, bs: multiset<Claim>) {
    forall v, x, w, y :: multiset(v) == ins && multiset(w) == ins ==> SameCourses(p, v, x, w, y, bs)
  }

  ghost predicate Steady(p: Params, av: seq<Claim>, bv: seq<Claim>) {
    forall v, w :: multiset(v) == multiset(av) && multiset(w) == multiset(bv) ==>
      NameMass(p, v, w) == NameMass(p, av, bv)
  }

  /** The same for both sides, as the repair pass takes both from a map. */
  lemma OrdersIrrelevantExactly(p: Params, av: seq<Claim>, bv: seq<Claim>)
    ensures Steady(p, av, bv) <==> AgreeingAll(p, multiset(av), multiset(bv))
  {
    hide NameMass, CourseMass, Course;
    var ins, bs := multiset(av), multiset(bv);
    if Steady(p, av, bv) {
      forall v, x, w, y | multiset(v) == ins && multiset(w) == ins ensures SameCourses(p, v, x, w, y, bs) {
        if Course(p, v, bs, x) && Course(p, w, bs, y) {
          var cv, dv := CoursesCompared(p, v, x, w, y, bs);
        }
      }
    }
    if AgreeingAll(p, ins, bs) {
      forall v, w | multiset(v) == ins && multiset(w) == bs ensures NameMass(p, v, w) == NameMass(p, av, bv) {
        MassOfCourse(p, v, w);
        MassOfCourse(p, av, bv);
        assert SameCourses(p, v, PicksOf(p, v, w, |v|), av, PicksOf(p, av, bv, |av|), bs);
      }
    }
  }
}
