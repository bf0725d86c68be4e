/**
 Which claims a comparison looks at and what it adds up, said without following how it goes about it:
 `SideExactly` on the places of the claims, `CompareSums` on the attributes' own evidence.
 */
module CompareParts {
  import opened Ordering
  import opened Evidence
  import opened IdDiff

  // -------------------------------------------------------------------------------------------
  // The claims that take part
  // -------------------------------------------------------------------------------------------

  /** A claim that no claim of the graph supersedes. */
  ghost predicate Current(cs: seq<Claim>, i: int) {
    0 <= i < |cs| && (cs[i].ulid == "" || forall j :: 0 <= j < |cs| ==> cs[i].ulid !in cs[j].supersedes)
  }

  /** Two claims that one source made under one hash. */
  ghost predicate SameSource(c: Claim, d: Claim) {
    c.sourceKey != "" && d.sourceKey != "" && c.sourceKey + "\0" + c.hash == d.sourceKey + "\0" + d.hash
  }

  /** A current claim of the attribute that is the first of its source and hash. */
  ghost predicate TakesPart(cs: seq<Claim>, attr: string, i: int) {
    && Current(cs, i) && cs[i].attr == attr
    && forall j :: 0 <= j < i && Current(cs, j) && cs[j].attr == attr ==> !SameSource(cs[j], cs[i])
  }

  /** `out` lists the claims at some places, in order. */
  ghost predicate Picks(cs: seq<Claim>, places: seq<int>, out: seq<Claim>) {
    && |places| == |out|
    && (forall i, j :: 0 <= i < j < |places| ==> places[i] < places[j])
    && forall k :: 0 <= k < |places| ==> 0 <= places[k] < |cs| && out[k] == cs[places[k]]
  }

  lemma PicksMore(cs: seq<Claim>, places: seq<int>, out: seq<Claim>)
    requires cs != [] && Picks(cs[..|cs| - 1], places, out)
    ensures Picks(cs, places, out) && Picks(cs, places + [|cs| - 1], out + [cs[|cs| - 1]])
  {
    assert forall k :: 0 <= k < |places| ==> cs[..|cs| - 1][places[k]] == cs[places[k]];
  }

  lemma {:induction false} FilterPicks(cs: seq<Claim>, keep: Claim -> bool) returns (places: seq<int>)
    ensures Picks(cs, places, Filter(cs, keep))
    ensures forall i :: i in places <==> 0 <= i < |cs| && keep(cs[i])
  {
    places := [];
    if cs != [] {
      hide Picks;
      places := FilterPicks(cs[..|cs| - 1], keep);
      PicksMore(cs, places, Filter(cs[..|cs| - 1], keep));
      if keep(cs[|cs| - 1]) {
        places := places + [|cs| - 1];
      }
    }
  }

  ghost predicate FirstOfSource(cs: seq<Claim>, i: int) {
    0 <= i < |cs| && forall j :: 0 <= j < i ==> !SameSource(cs[j], cs[i])
  }

  lemma RepeatedExactly(cs: seq<Claim>, i: nat)
    requires i < |cs|
    ensures FirstOfSource(cs, i) <==> !Repeated(cs[..i], cs[i])
  {
    if d :| d in cs[..i] && cs[i].sourceKey != "" && d.sourceKey != "" && SourceKey(d) == SourceKey(cs[i]) {
      var j :| 0 <= j < i && cs[j] == d;
      assert SameSource(cs[j], cs[i]);
    }
    if j :| 0 <= j < i && SameSource(cs[j], cs[i]) {
      assert cs[j] in cs[..i];
    }
  }

  lemma FirstInFront(cs: seq<Claim>, i: int)
    requires cs != [] && i != |cs| - 1
    ensures FirstOfSource(cs, i) <==> FirstOfSource(cs[..|cs| - 1], i)
  {
    hide SameSource;
  }

  lemma {:induction false} DedupPicks(cs: seq<Claim>) returns (places: seq<int>)
    ensures Picks(cs, places, Deduped(cs))
    ensures forall i :: i in places <==> FirstOfSource(cs, i)
  {
    places := [];
    if cs != [] {
      hide Picks, Repeated, FirstOfSource;
      var front, last := cs[..|cs| - 1], |cs| - 1;
      places := DedupPicks(front);
      PicksMore(cs, places, Deduped(front));
      RepeatedExactly(cs, last);
      NotYet(front);
      forall i | i != last ensures i in places <==> FirstOfSource(cs, i) {
        FirstInFront(cs, i);
      }
      if !Repeated(front, cs[last]) {
        places := places + [last];
      }
    }
  }

  lemma NotYet(cs: seq<Claim>)
    ensures !FirstOfSource(cs, |cs|)
  {
  }

  /** Picking from what was picked. */
  lemma PicksThrough(a: seq<Claim>, outer: seq<int>, b: seq<Claim>, inner: seq<int>, c: seq<Claim>)
    returns (places: seq<int>)
    requires Picks(a, outer, b) && Picks(b, inner, c)
    ensures Picks(a, places, c)
    ensures |places| == |inner|
    ensures forall k :: 0 <= k < |inner| ==> 0 <= inner[k] < |outer| && places[k] == outer[inner[k]]
  {
    places := seq(|inner|, k requires 0 <= k < |inner| && 0 <= inner[k] < |outer| => outer[inner[k]]);
  }

  /** Filtering for the current claims and then for an attribute picks the current claims of the attribute. */
  lemma GroupPicks(cs: seq<Claim>, attr: string) returns (places: seq<int>)
    ensures Picks(cs, places, Group(Frontier(cs), attr))
    ensures forall i :: i in places <==> Current(cs, i) && cs[i].attr == attr
  {
    hide Filter, Picks;
    var gone := Superseded(cs);
    var outer := FilterPicks(cs, (c: Claim) => c.ulid == "" || c.ulid !in gone);
    forall i ensures i in outer <==> Current(cs, i) {
      SupersededExactly(cs, i);
    }
    var inner := FilterPicks(Frontier(cs), (c: Claim) => c.attr == attr);
    places := PicksThrough(cs, outer, Frontier(cs), inner, Group(Frontier(cs), attr));
    ThroughIn(cs, outer, Frontier(cs), inner, Group(Frontier(cs), attr), places, attr);
  }

  lemma SupersededExactly(cs: seq<Claim>, i: int)
    ensures Current(cs, i) <==> 0 <= i < |cs| && (cs[i].ulid == "" || cs[i].ulid !in Superseded(cs))
  {
  }

  lemma ThroughIn(cs: seq<Claim>, outer: seq<int>, mid: seq<Claim>, inner: seq<int>, out: seq<Claim>,
                  places: seq<int>, attr: string)
    requires Picks(cs, outer, mid) && Picks(mid, inner, out)
    requires |places| == |inner|
    requires forall k :: 0 <= k < |inner| ==> 0 <= inner[k] < |outer| && places[k] == outer[inner[k]]
    requires forall k :: k in inner <==> 0 <= k < |mid| && mid[k].attr == attr
    ensures forall i :: i in places <==> i in outer && 0 <= i < |cs| && cs[i].attr == attr
  {
    forall i ensures i in places <==> i in outer && 0 <= i < |cs| && cs[i].attr == attr {
      if i in places {
        var k :| 0 <= k < |places| && places[k] == i;
        assert inner[k] in inner && outer[inner[k]] == i;
      }
      if i in outer && cs[i].attr == attr {
        var m :| 0 <= m < |outer| && outer[m] == i;
        assert m in inner;
        var k :| 0 <= k < |inner| && inner[k] == m;
        assert places[k] == i;
      }
    }
  }

  /** A comparison looks at exactly the claims that take part, each once, in their order. */
  lemma SideExactly(cs: seq<Claim>, attr: string) returns (places: seq<int>)
    ensures Picks(cs, places, Side(cs, attr))
    ensures forall i :: i in places <==> TakesPart(cs, attr, i)
  {
    hide Frontier, Group, Deduped, TakesPart;
    var g := Group(Frontier(cs), attr);
    var outer := GroupPicks(cs, attr);
    var inner := DedupPicks(g);
    places := PicksThrough(cs, outer, g, inner, Deduped(g));
    forall i ensures i in places <==> TakesPart(cs, attr, i) {
      if i in places {
        var k :| 0 <= k < |places| && places[k] == i;
        assert inner[k] in inner;
        FirstTakesPart(cs, attr, outer, g, inner[k]);
      }
      if TakesPart(cs, attr, i) {
        PartOf(cs, attr, i);
        var m :| 0 <= m < |outer| && outer[m] == i;
        FirstTakesPart(cs, attr, outer, g, m);
        assert m in inner;
        var k :| 0 <= k < |inner| && inner[k] == m;
        assert places[k] == i;
      }
    }
  }

  lemma PartOf(cs: seq<Claim>, attr: string, i: int)
    requires TakesPart(cs, attr, i)
    ensures Current(cs, i) && cs[i].attr == attr
  {
  }

  /** Among the current claims of an attribute, the first of their source are those that take part. */
  lemma FirstTakesPart(cs: seq<Claim>, attr: string, outer: seq<int>, g: seq<Claim>, m: int)
    requires Picks(cs, outer, g) && 0 <= m < |outer|
    requires forall i :: i in outer <==> Current(cs, i) && cs[i].attr == attr
    ensures FirstOfSource(g, m) <==> TakesPart(cs, attr, outer[m])
  {
    hide Current, SameSource;
    var i := outer[m];
    assert i in outer;
    if FirstOfSource(g, m) {
      forall j | 0 <= j < i && Current(cs, j) && cs[j].attr == attr ensures !SameSource(cs[j], cs[i]) {
        assert j in outer;
        var n :| 0 <= n < |outer| && outer[n] == j;
        assert n < m && g[n] == cs[j];
      }
    }
    if TakesPart(cs, attr, i) {
      forall n | 0 <= n < m ensures !SameSource(g[n], g[m]) {
        assert outer[n] in outer && outer[n] < i;
      }
    }
  }

  // -------------------------------------------------------------------------------------------
  // What is added up
  // -------------------------------------------------------------------------------------------

  datatype Part = Single | Soft | Against | Anchor | Shared | Presented | AnchorShared

  function Of(part: Part, m: Mass): real {
    match part
    case Single => m.functional
    case Soft => m.soft
    case Against => m.iac
    case Anchor => m.anchor
    case Shared => m.setRaw
    case Presented => m.setIncoming
    case AnchorShared => m.anchorSet
  }

  /** One part of the evidence of each attribute, added up. */
  function Sum(p: Params, a: seq<Claim>, b: seq<Claim>, attrs: seq<string>, part: Part): real {
    if attrs == [] then 0.0
    else Of(part, AttrMass(p, Side(a, attrs[0]), Side(b, attrs[0]))) + Sum(p, a, b, attrs[1..], part)
  }

  lemma {:induction false} SumPush(p: Params, a: seq<Claim>, b: seq<Claim>, attrs: seq<string>, x: string, part: Part)
    ensures Sum(p, a, b, attrs + [x], part) ==
            Sum(p, a, b, attrs, part) + Of(part, AttrMass(p, Side(a, x), Side(b, x)))
  {
    hide AttrMass, Side, Of;
    if attrs == [] {
      assert attrs + [x] == [x] && [x][1..] == [];
    } else {
      SumPush(p, a, b, attrs[1..], x, part);
      assert (attrs + [x])[1..] == attrs[1..] + [x];
    }
  }

  lemma {:induction false} TotalSums(p: Params, a: seq<Claim>, b: seq<Claim>, attrs: seq<string>, n: nat, part: Part)
    requires n <= |attrs|
    ensures Of(part, Total(p, a, b, attrs, n)) == Sum(p, a, b, attrs[..n], part)
  {
    hide AttrMass, Side;
    if n > 0 {
      TotalSums(p, a, b, attrs, n - 1, part);
      SumPush(p, a, b, attrs[..n - 1], attrs[n - 1], part);
      assert attrs[..n] == attrs[..n - 1] + [attrs[n - 1]];
    }
  }

  /** Some current claim is about the attribute. */
  ghost predicate About(cs: seq<Claim>, attr: string) {
    exists i :: Current(cs, i) && cs[i].attr == attr
  }

  lemma FrontierAbout(cs: seq<Claim>, attr: string)
    ensures attr in AttrsOf(Frontier(cs)) <==> About(cs, attr)
  {
    hide Current;
    var places := GroupPicks(cs, attr);
    var g := Group(Frontier(cs), attr);
    if c :| c in Frontier(cs) && c.attr == attr {
      GroupHas(Frontier(cs), attr, c);
      var k :| 0 <= k < |g| && g[k] == c;
      assert places[k] in places;
    }
    if About(cs, attr) {
      InRange(cs, attr);
      var i :| Current(cs, i) && 0 <= i < |cs| && cs[i].attr == attr;
      assert i in places;
      var k :| 0 <= k < |places| && places[k] == i;
      assert g[k] in g && g[k] in Frontier(cs);
    }
  }

  lemma InRange(cs: seq<Claim>, attr: string)
    requires About(cs, attr)
    ensures exists i :: Current(cs, i) && 0 <= i < |cs| && cs[i].attr == attr
  {
  }

  lemma GroupHas(cs: seq<Claim>, attr: string, c: Claim)
    requires c in cs && c.attr == attr
    ensures c in Group(cs, attr)
  {
    var places := FilterPicks(cs, (d: Claim) => d.attr == attr);
    var i :| 0 <= i < |cs| && cs[i] == c;
    assert i in places;
    var k :| 0 <= k < |places| && places[k] == i;
    assert Group(cs, attr)[k] == c;
  }

  /** The attributes compared are those that some current claim of either graph is about, each once. */
  lemma AttributesAbout(a: seq<Claim>, b: seq<Claim>)
    ensures Distinct(Attributes(a, b))
    ensures forall x :: x in Attributes(a, b) <==> About(a, x) || About(b, x)
  {
    hide Frontier, About;
    AttributesDistinct(a, b);
    var all := Frontier(a) + Frontier(b);
    SortSorts(AttrsOnce(all));
    assert AttrsOf(all) == AttrsOf(Frontier(a)) + AttrsOf(Frontier(b));
    forall x ensures x in Attributes(a, b) <==> About(a, x) || About(b, x) {
      FrontierAbout(a, x);
      FrontierAbout(b, x);
      assert x in Attributes(a, b) <==> x in Elements(Attributes(a, b));
    }
  }

  lemma WholeSum(p: Params, a: seq<Claim>, b: seq<Claim>, part: Part)
    ensures var attrs := Attributes(a, b);
            Of(part, Total(p, a, b, attrs, |attrs|)) == Sum(p, a, b, attrs, part)
  {
    hide Total, Sum, Of;
    var attrs := Attributes(a, b);
    TotalSums(p, a, b, attrs, |attrs|, part);
    assert attrs[..|attrs|] == attrs;
  }

  /** What overlap counts for: in full, or by its share of the presented weight when something contradicts. */
  ghost predicate Counts(against: real, shared: real, presented: real, sets: real) {
    && (against == 0.0 ==> sets == shared)
    && (against > 0.0 ==> sets * presented == shared * shared)
  }

  lemma SetsCount(m: Mass)
    requires Balanced(m)
    ensures Counts(m.iac, m.setRaw, m.setIncoming, SetMass(m))
  {
    SetMassExact(m);
  }

  /** What supports and what contradicts are sums over the attributes compared. */
  lemma CompareSums(p: Params, a: seq<Claim>, b: seq<Claim>) returns (sets: real)
    requires Sane(p)
    ensures var d, attrs := Compare(p, a, b), Attributes(a, b);
            && d.iac == Sum(p, a, b, attrs, Against)
            && d.ic == Sum(p, a, b, attrs, Single) + Sum(p, a, b, attrs, Soft) + sets
            && Counts(d.iac, Sum(p, a, b, attrs, Shared), Sum(p, a, b, attrs, Presented), sets)
  {
    hide Attributes, Sane, Total, SetMass, Sum, AnchorMass, Counts;
    var attrs := Attributes(a, b);
    var m := Total(p, a, b, attrs, |attrs|);
    TotalBounds(p, a, b, attrs, |attrs|);
    SetsCount(m);
    WholeSum(p, a, b, Single);
    WholeSum(p, a, b, Soft);
    WholeSum(p, a, b, Against);
    WholeSum(p, a, b, Shared);
    WholeSum(p, a, b, Presented);
    sets := SetMass(m);
  }
}
