/**
 The clustering pass itself: edges sorted strongest first, a union-find over the entities, a table of
 members per root merged in place, and the clusters listed in canonical order.
 */
module Clustering {
  import opened Ordering
  import opened UnionFind
  import opened Linkage

  // -------------------------------------------------------------------------------------------
  // Edges, strongest first
  // -------------------------------------------------------------------------------------------

  predicate Before(e: Edge, f: Edge) {
    || e.weight > f.weight
    || (e.weight == f.weight && (Less(e.a, f.a) || (e.a == f.a && Less(e.b, f.b))))
  }

  lemma BeforeTransitive(e: Edge, f: Edge, g: Edge)
    requires Before(e, f) && Before(f, g)
    ensures Before(e, g)
  {
    if e.weight == f.weight == g.weight {
      if Less(e.a, f.a) && Less(f.a, g.a) {
        LessTransitive(e.a, f.a, g.a);
      } else if e.a == f.a == g.a {
        LessTransitive(e.b, f.b, g.b);
      }
    }
  }

  lemma BeforeTotal(e: Edge, f: Edge)
    ensures e == f || Before(e, f) || Before(f, e)
  {
    LessTotal(e.a, f.a);
    LessTotal(e.b, f.b);
  }

  lemma BeforeAsymmetric(e: Edge, f: Edge)
    requires Before(e, f)
    ensures !Before(f, e)
  {
    if Less(e.a, f.a) {
      LessAsymmetric(e.a, f.a);
    }
    if Less(e.b, f.b) {
      LessAsymmetric(e.b, f.b);
    }
    LessIrreflexive(e.a);
  }

  ghost predicate Ranked(s: seq<Edge>) {
    forall i, j :: 0 <= i < j < |s| ==> !Before(s[j], s[i])
  }

  function InsertEdge(s: seq<Edge>, e: Edge): (r: seq<Edge>)
    ensures multiset(r) == multiset(s) + multiset{e}
  {
    if s == [] || Before(e, s[0]) then [e] + s
    else
      assert s == [s[0]] + s[1..];
      [s[0]] + InsertEdge(s[1..], e)
  }

  lemma {:induction false} InsertRanked(s: seq<Edge>, e: Edge)
    requires Ranked(s)
    ensures Ranked(InsertEdge(s, e))
  {
    if s != [] {
      if Before(e, s[0]) {
        forall j | 0 <= j < |s| ensures !Before(s[j], e) {
          if Before(s[j], e) {
            BeforeTransitive(s[j], e, s[0]);
            BeforeAsymmetric(e, s[0]);
          }
        }
      } else {
        InsertRanked(s[1..], e);
        var r := InsertEdge(s[1..], e);
        forall j | 0 <= j < |r| ensures !Before(r[j], s[0]) {
          assert r[j] in multiset(r);
          if r[j] != e {
            assert r[j] in s[1..];
          }
        }
      }
    }
  }

  function SortEdges(s: seq<Edge>): (r: seq<Edge>)
    ensures multiset(r) == multiset(s)
  {
    if s == [] then []
    else
      assert s == s[..|s| - 1] + [s[|s| - 1]];
      InsertEdge(SortEdges(s[..|s| - 1]), s[|s| - 1])
  }

  lemma {:induction false} SortRanked(s: seq<Edge>)
    ensures Ranked(SortEdges(s))
  {
    if s != [] {
      SortRanked(s[..|s| - 1]);
      InsertRanked(SortEdges(s[..|s| - 1]), s[|s| - 1]);
    }
  }

  lemma RankedFirst(a: seq<Edge>, b: seq<Edge>)
    requires Ranked(a) && multiset(a) == multiset(b) && a != [] && b != []
    ensures !Before(b[0], a[0])
  {
    BeforeIrreflexive(a[0]);
    assert b[0] in multiset(a);
    var i :| 0 <= i < |a| && a[i] == b[0];
  }

  lemma BeforeIrreflexive(e: Edge)
    ensures !Before(e, e)
  {
    LessIrreflexive(e.a);
    LessIrreflexive(e.b);
  }

  /** A ranked listing is decided by the edges it ranks. */
  lemma {:induction false} RankedUnique(a: seq<Edge>, b: seq<Edge>)
    requires Ranked(a) && Ranked(b) && multiset(a) == multiset(b)
    ensures a == b
    decreases |a|
  {
    assert |a| == |multiset(a)| == |multiset(b)| == |b|;
    if a != [] {
      RankedFirst(a, b);
      RankedFirst(b, a);
      BeforeTotal(a[0], b[0]);
      MultisetTail(a);
      MultisetTail(b);
      RankedUnique(a[1..], b[1..]);
    }
  }

  // -------------------------------------------------------------------------------------------
  // Listing the clusters
  // -------------------------------------------------------------------------------------------

  ghost function ClassOf(c: Partition, r: string): set<string> {
    set x | x in c && c[x] == r
  }

  ghost function Roots(c: Partition): set<string> {
    set r | r in c && c[r] == r
  }

  function Heads(out: seq<seq<string>>): seq<string>
    requires forall i :: 0 <= i < |out| ==> out[i] != []
  {
    seq(|out|, i requires 0 <= i < |out| => out[i][0])
  }

  /** Each class once, its members in increasing order, the classes in the order of their minima. */
  ghost predicate Listing(out: seq<seq<string>>, c: Partition) {
    && (forall i :: 0 <= i < |out| ==> out[i] != [] && Sorted(out[i]) && Elements(out[i]) == ClassOf(c, out[i][0]))
    && Sorted(Heads(out))
    && Elements(Heads(out)) == Roots(c)
  }

  /** The listing is decided by the partition: no map iteration order shows in it. */
  lemma ListingUnique(a: seq<seq<string>>, b: seq<seq<string>>, c: Partition)
    requires Listing(a, c) && Listing(b, c)
    ensures a == b
  {
    SortedUnique(Heads(a), Heads(b));
    assert |a| == |Heads(a)| == |Heads(b)| == |b|;
    forall i | 0 <= i < |a| ensures a[i] == b[i] {
      assert a[i][0] == Heads(a)[i] == Heads(b)[i] == b[i][0];
      SortedUnique(a[i], b[i]);
    }
  }

  ghost predicate At(out: seq<seq<string>>, i: int, j: int, x: string) {
    0 <= i < |out| && 0 <= j < |out[i]| && out[i][j] == x
  }

  /** Every entity is in exactly one place of the listing. */
  lemma ListingPartitions(out: seq<seq<string>>, c: Partition, x: string)
    requires Listing(out, c) && MinRooted(c) && x in c
    ensures exists i, j :: At(out, i, j, x)
    ensures forall i, j, k, l :: At(out, i, j, x) && At(out, k, l, x) ==> i == k && j == l
  {
    RootFixed(c, x);
    assert c[x] in Elements(Heads(out));
    var i :| 0 <= i < |Heads(out)| && Heads(out)[i] == c[x];
    assert x in Elements(out[i]);
    var j :| 0 <= j < |out[i]| && out[i][j] == x;
    assert At(out, i, j, x);
    forall i, j, k, l | At(out, i, j, x) && At(out, k, l, x) ensures i == k && j == l {
      InOneCluster(out, c, x, i, j);
      InOneCluster(out, c, x, k, l);
      SortedDistinct(Heads(out));
      assert Heads(out)[i] == Heads(out)[k];
      SortedDistinct(out[i]);
    }
  }

  lemma InOneCluster(out: seq<seq<string>>, c: Partition, x: string, i: nat, j: nat)
    requires Listing(out, c) && i < |out| && j < |out[i]| && out[i][j] == x && x in c
    ensures out[i][0] == c[x]
  {
    assert x in Elements(out[i]);
  }

  /** Inserts a cluster before the first one with a larger minimum. */
  function InsertCluster(out: seq<seq<string>>, m: seq<string>): (r: seq<seq<string>>)
    requires m != [] && forall i :: 0 <= i < |out| ==> out[i] != []
    ensures forall i :: 0 <= i < |r| ==> r[i] != []
  {
    if out == [] || Less(m[0], out[0][0]) then [m] + out
    else [out[0]] + InsertCluster(out[1..], m)
  }

  lemma HeadsCons(m: seq<string>, out: seq<seq<string>>)
    requires m != [] && forall i :: 0 <= i < |out| ==> out[i] != []
    ensures Heads([m] + out) == [m[0]] + Heads(out)
  {
  }

  lemma {:induction false} InsertClusterHeads(out: seq<seq<string>>, m: seq<string>)
    requires m != [] && forall i :: 0 <= i < |out| ==> out[i] != []
    ensures Heads(InsertCluster(out, m)) == Insert(Heads(out), m[0])
  {
    hide Less;
    if out == [] || Less(m[0], out[0][0]) {
      HeadsCons(m, out);
    } else {
      InsertClusterHeads(out[1..], m);
      assert out == [out[0]] + out[1..];
      HeadsCons(out[0], out[1..]);
      HeadsCons(out[0], InsertCluster(out[1..], m));
    }
  }

  lemma {:induction false} InsertClusterElements(out: seq<seq<string>>, m: seq<string>)
    requires m != [] && forall i :: 0 <= i < |out| ==> out[i] != []
    ensures Elements(InsertCluster(out, m)) == Elements(out) + {m}
  {
    hide Less;
    if out != [] && !Less(m[0], out[0][0]) {
      InsertClusterElements(out[1..], m);
      var r := InsertCluster(out[1..], m);
      assert Elements(out) == {out[0]} + Elements(out[1..]);
      assert Elements([out[0]] + r) == {out[0]} + Elements(r);
    }
  }

  // -------------------------------------------------------------------------------------------
  // The pass
  // -------------------------------------------------------------------------------------------

  type Members = map<string, seq<string>>

  /** The member table of a partition: one duplicate-free list per root. */
  ghost predicate Tabulates(members: Members, c: Partition) {
    && members.Keys == Roots(c)
    && forall r :: r in members ==> Distinct(members[r]) && Elements(members[r]) == ClassOf(c, r)
  }

  lemma TabulatesStart(entities: seq<string>)
    ensures Tabulates(map e | e in entities :: [e], Singletons(entities))
  {
    var c := Singletons(entities);
    forall r | r in c ensures Elements([r]) == ClassOf(c, r) {
      assert [r][0] == r;
    }
  }

  /** Any cannot-link pair between two member lists. */
  method CannotMerge(cannot: set<(string, string)>, xs: seq<string>, ys: seq<string>) returns (found: bool)
    ensures found <==> exists x, y :: x in xs && y in ys && Cannot(cannot, x, y)
  {
    for i := 0 to |xs|
      invariant forall k, y :: 0 <= k < i && y in ys ==> !Cannot(cannot, xs[k], y)
    {
      for j := 0 to |ys|
        invariant forall k :: 0 <= k < j ==> !Cannot(cannot, xs[i], ys[k])
      {
        if Cannot(cannot, xs[i], ys[j]) {
          return true;
        }
      }
    }
    found := false;
  }

  lemma ConflictInTable(cannot: set<(string, string)>, members: Members, c: Partition, ra: string, rb: string)
    requires Tabulates(members, c) && ra in members && rb in members
    ensures Conflict(cannot, c, ra, rb) <==> exists x, y :: x in members[ra] && y in members[rb] && Cannot(cannot, x, y)
  {
    if Conflict(cannot, c, ra, rb) {
      var x, y :| x in c && y in c && c[x] == ra && c[y] == rb && Cannot(cannot, x, y);
      assert x in Elements(members[ra]) && y in Elements(members[rb]);
    }
    if x, y :| x in members[ra] && y in members[rb] && Cannot(cannot, x, y) {
      assert x in Elements(members[ra]) && y in Elements(members[rb]);
    }
  }

  /** Folding one member list onto the other keeps the table. */
  lemma TabulatesJoin(members: Members, c: Partition, root: string, other: string)
    requires Tabulates(members, c) && root in members && other in members && root != other
    ensures Tabulates(members[root := members[root] + members[other]] - {other}, Joined(c, root, other, root))
  {
    var c' := Joined(c, root, other, root);
    var members' := members[root := members[root] + members[other]] - {other};
    assert members'.Keys == Roots(c');
    forall r | r in members' ensures Distinct(members'[r]) && Elements(members'[r]) == ClassOf(c', r) {
      if r == root {
        DistinctAppend(members[root], members[other], c, root, other);
        assert Elements(members'[r]) == Elements(members[root]) + Elements(members[other]);
      } else {
        assert ClassOf(c', r) == ClassOf(c, r);
      }
    }
  }

  lemma DistinctAppend(a: seq<string>, b: seq<string>, c: Partition, r: string, q: string)
    requires Distinct(a) && Distinct(b) && Elements(a) == ClassOf(c, r) && Elements(b) == ClassOf(c, q) && r != q
    ensures Distinct(a + b)
  {
    forall i, j | 0 <= i < |a| && 0 <= j < |b| ensures a[i] != b[j] {
      assert a[i] in Elements(a) && b[j] in Elements(b);
    }
  }

  /** One edge of the pass: the finds, the conflict scan and, if allowed, the union and the fold. */
  method LinkOne(uf: Sets, members: Members, cannot: set<(string, string)>, e: Edge) returns (members': Members)
    requires Forest(uf.parent) && e.a in uf.parent && e.b in uf.parent
    requires Tabulates(members, Classes(uf.parent))
    modifies uf
    ensures Forest(uf.parent) && uf.parent.Keys == old(uf.parent.Keys)
    ensures Classes(uf.parent) == LinkEdge(cannot, old(Classes(uf.parent)), e)
    ensures Tabulates(members', Classes(uf.parent))
  {
    hide Forest, Classes, Tabulates, Conflict, Less;
    members' := members;
    ghost var c := Classes(uf.parent);
    ClassKeys(uf.parent);
    var ra := uf.Find(e.a);
    var rb := uf.Find(e.b);
    if ra == rb {
      return;
    }
    RootInTable(uf.parent, members, e.a);
    RootInTable(uf.parent, members, e.b);
    ConflictInTable(cannot, members, c, ra, rb);
    var conflict := CannotMerge(cannot, members[ra], members[rb]);
    if conflict {
      return;
    }
    var root := uf.Union(ra, rb);
    ClassKeys(uf.parent);
    SmallerIsLess(ra, rb);
    var other := if root == ra then rb else ra;
    TabulatesJoin(members, c, root, other);
    JoinSwap(c, ra, rb, root);
    members' := members[root := members[root] + members[other]] - {other};
  }

  lemma RootInTable(p: Parents, members: Members, x: string)
    requires Forest(p) && Tabulates(members, Classes(p)) && x in p && x in Classes(p)
    ensures var r := Classes(p)[x]; r in p && r in members && r in Classes(p) && Classes(p)[r] == r
  {
    ClassRoot(p, x);
    RootOf(p, Classes(p)[x]);
  }

  /** Lists the member table, taken in any order, in canonical order. */
  method ListClusters(members: Members, ghost c: Partition) returns (out: seq<seq<string>>)
    requires Tabulates(members, c) && MinRooted(c)
    ensures Listing(out, c)
  {
    hide Tabulates, MinRooted, Less, Insert, Sorted, InsertCluster, Sort, Listing, ClassOf, Heads;
    out := [];
    var todo := members.Keys;
    ghost var done: set<string> := {};
    ListedNone(c);
    while todo != {}
      invariant done + todo == members.Keys && done !! todo
      invariant Listed(out, c, done)
      decreases |todo|
    {
      var r :| r in todo;
      var m := Sort(members[r]);
      ListedStep(out, members, c, done, r);
      out := InsertCluster(out, m);
      todo, done := todo - {r}, done + {r};
    }
    assert done == members.Keys;
    ListedAll(out, members, c);
  }

  ghost predicate Listed(out: seq<seq<string>>, c: Partition, done: set<string>) {
    && (forall i :: 0 <= i < |out| ==> out[i] != [] && Sorted(out[i]) && Elements(out[i]) == ClassOf(c, out[i][0]))
    && Sorted(Heads(out))
    && Elements(Heads(out)) == done
  }

  lemma ListedNone(c: Partition)
    ensures Listed([], c, {})
  {
  }

  lemma ListedAll(out: seq<seq<string>>, members: Members, c: Partition)
    requires Tabulates(members, c) && Listed(out, c, members.Keys)
    ensures Listing(out, c)
  {
  }

  /** The sorted members of a root's class start with that root. */
  lemma SortedClass(members: Members, c: Partition, r: string)
    requires Tabulates(members, c) && MinRooted(c) && r in members
    ensures var m := Sort(members[r]);
            m != [] && m[0] == r && Sorted(m) && Elements(m) == ClassOf(c, r)
  {
    var m := Sort(members[r]);
    SortSorts(members[r]);
    assert r in Roots(c);
    assert r in Elements(m);
    assert m[0] in Elements(m);
    if m[0] != r {
      var k :| 0 <= k < |m| && m[k] == r;
      assert Less(m[0], r);
      assert c[m[0]] == r;
      LessAsymmetric(m[0], r);
    }
  }

  lemma ListedStep(out: seq<seq<string>>, members: Members, c: Partition, done: set<string>, r: string)
    requires Tabulates(members, c) && MinRooted(c) && r in members && r !in done && Listed(out, c, done)
    ensures Sort(members[r]) != [] && Listed(InsertCluster(out, Sort(members[r])), c, done + {r})
  {
    hide MinRooted, Tabulates, Less;
    SortedClass(members, c, r);
    var m := Sort(members[r]);
    var out' := InsertCluster(out, m);
    assert r !in Elements(Heads(out));
    InsertClusterHeads(out, m);
    InsertClusterElements(out, m);
    InsertSorted(Heads(out), r);
    forall i | 0 <= i < |out'| ensures out'[i] != [] && Sorted(out'[i]) && Elements(out'[i]) == ClassOf(c, out'[i][0]) {
      assert out'[i] in Elements(out');
      if out'[i] != m {
        var k :| 0 <= k < |out| && out[k] == out'[i];
      }
    }
  }

  // -------------------------------------------------------------------------------------------
  // Strongest first
  // -------------------------------------------------------------------------------------------

  /** The edges come by falling weight and, where weights are equal, by their ends. */
  lemma SortStrongest(s: seq<Edge>, i: nat, j: nat)
    requires i < j < |SortEdges(s)|
    ensures var e, f := SortEdges(s)[i], SortEdges(s)[j];
            && e.weight >= f.weight
            && (e.weight == f.weight ==> !Less(f.a, e.a) && (e.a == f.a ==> !Less(f.b, e.b)))
  {
    SortRanked(s);
  }

  /** The edges of at least the given weight. */
  function AtLeast(s: seq<Edge>, weight: real): seq<Edge> {
    if s == [] then []
    else
      AtLeast(s[..|s| - 1], weight) + if s[|s| - 1].weight >= weight then [s[|s| - 1]] else []
  }

  lemma {:induction false} AtLeastCount(s: seq<Edge>, weight: real, e: Edge)
    ensures multiset(AtLeast(s, weight))[e] == if e.weight >= weight then multiset(s)[e] else 0
  {
    if s != [] {
      AtLeastCount(s[..|s| - 1], weight, e);
      assert s == s[..|s| - 1] + [s[|s| - 1]];
    }
  }

  lemma AtLeastSame(p: seq<Edge>, q: seq<Edge>, weight: real)
    requires multiset(p) == multiset(q)
    ensures multiset(AtLeast(p, weight)) == multiset(AtLeast(q, weight))
  {
    forall e ensures multiset(AtLeast(p, weight))[e] == multiset(AtLeast(q, weight))[e] {
      AtLeastCount(p, weight, e);
      AtLeastCount(q, weight, e);
    }
  }

  /** In order of weight the strong edges come first. */
  lemma {:induction false} StrongPrefix(s: seq<Edge>, weight: real) returns (n: nat)
    requires forall i, j :: 0 <= i < j < |s| ==> s[i].weight >= s[j].weight
    ensures n <= |s| && AtLeast(s, weight) == s[..n] && forall e :: e in s && e.weight >= weight ==> e in s[..n]
    decreases |s|
  {
    if s == [] {
      n := 0;
    } else if s[|s| - 1].weight >= weight {
      n := |s|;
      assert s[..n] == s;
      AllStrong(s, weight);
    } else {
      var front := s[..|s| - 1];
      n := StrongPrefix(front, weight);
      assert front[..n] == s[..n];
      assert AtLeast(s, weight) == AtLeast(front, weight) + [];
    }
  }

  lemma {:induction false} AllStrong(s: seq<Edge>, weight: real)
    requires forall i :: 0 <= i < |s| ==> s[i].weight >= weight
    ensures AtLeast(s, weight) == s
  {
    if s != [] {
      AllStrong(s[..|s| - 1], weight);
    }
  }

  /** Linking further never parts what is together. */
  lemma {:induction false} LinkGrows(cannot: set<(string, string)>, c: Partition, edges: seq<Edge>, n: nat, x: string,
                                     y: string)
    requires n <= |edges| && x in c && y in c
    requires var d := LinkAll(cannot, c, edges[..n]); d[x] == d[y]
    ensures var d := LinkAll(cannot, c, edges); d[x] == d[y]
    decreases |edges|
  {
    hide Conflict;
    if n == |edges| {
      assert edges[..n] == edges;
    } else {
      var front := edges[..|edges| - 1];
      assert front[..n] == edges[..n];
      LinkGrows(cannot, c, front, n, x, y);
    }
  }

  /** The partition that linking a list of edges, sorted, leads to. */
  ghost function LinkageOf(cannot: set<(string, string)>, entities: seq<string>, edges: seq<Edge>): Partition {
    LinkAll(cannot, Singletons(entities), SortEdges(edges))
  }

  /** The linkage of the strong edges is what the whole linkage has done when it comes to the weaker ones. */
  lemma StrongLinkage(cannot: set<(string, string)>, entities: seq<string>, edges: seq<Edge>, weight: real)
    returns (n: nat)
    ensures n <= |SortEdges(edges)|
    ensures LinkageOf(cannot, entities, AtLeast(edges, weight)) ==
            LinkAll(cannot, Singletons(entities), SortEdges(edges)[..n])
    ensures forall e :: e in edges && e.weight >= weight ==> e in SortEdges(edges)[..n]
  {
    hide LinkAll, SortEdges, AtLeast, Before;
    var ordered := SortEdges(edges);
    forall i: nat, j: nat | i < j < |ordered| ensures ordered[i].weight >= ordered[j].weight {
      SortStrongest(edges, i, j);
    }
    n := StrongPrefix(ordered, weight);
    AtLeastSame(edges, ordered, weight);
    SortRanked(edges);
    SortRanked(AtLeast(edges, weight));
    RankedPart(ordered, n);
    RankedUnique(SortEdges(AtLeast(edges, weight)), ordered[..n]);
    forall e | e in edges ensures e in ordered {
      assert e in multiset(edges);
      assert e in multiset(ordered);
    }
  }

  lemma RankedPart(s: seq<Edge>, n: nat)
    requires Ranked(s) && n <= |s|
    ensures Ranked(s[..n])
  {
    hide Before;
  }

  /**
   Every edge left between two clusters was forbidden by stronger evidence: in the linkage of the edges at
   least as strong as it, a cannot-link pair already runs between its two classes.
   */
  ghost predicate Forbidden(cannot: set<(string, string)>, entities: seq<string>, edges: seq<Edge>, e: Edge)
    requires e.a in entities && e.b in entities
  {
    var d := LinkageOf(cannot, entities, AtLeast(edges, e.weight));
    d[e.a] != d[e.b] && Conflict(cannot, d, d[e.a], d[e.b])
  }

  ghost predicate StrongestFirst(cannot: set<(string, string)>, entities: seq<string>, edges: seq<Edge>, c: Partition)
    requires Between(edges, entities) && c.Keys == Elements(entities)
  {
    forall e :: e in edges ==> InBoth(entities, c, e) && (c[e.a] != c[e.b] ==> Forbidden(cannot, entities, edges, e))
  }

  ghost predicate InBoth(entities: seq<string>, c: Partition, e: Edge) {
    e.a in entities && e.b in entities && e.a in c && e.b in c
  }

  lemma LinkageIs(cannot: set<(string, string)>, entities: seq<string>, edges: seq<Edge>)
    ensures LinkageOf(cannot, entities, edges) == LinkAll(cannot, Singletons(entities), SortEdges(edges))
  {
  }

  lemma LinkageKeys(cannot: set<(string, string)>, entities: seq<string>, edges: seq<Edge>)
    ensures LinkageOf(cannot, entities, edges).Keys == Elements(entities)
  {
    hide LinkAll;
    assert forall x :: x in entities <==> x in Elements(entities);
  }

  lemma LeftForbidden(cannot: set<(string, string)>, entities: seq<string>, edges: seq<Edge>, e: Edge)
    requires e in edges && e.a in entities && e.b in entities
    ensures var c := LinkageOf(cannot, entities, edges);
            && e.a in c && e.b in c && (c[e.a] != c[e.b] ==> Forbidden(cannot, entities, edges, e))
  {
    hide LinkAll, SortEdges, AtLeast, Conflict, MinRooted, Separated, Connected;
    LinkageKeys(cannot, entities, edges);
    assert e.a in Elements(entities) && e.b in Elements(entities);
    var c, ordered, n := LinkageOf(cannot, entities, edges), SortEdges(edges), 0;
    n := StrongLinkage(cannot, entities, edges, e.weight);
    var d := LinkAll(cannot, Singletons(entities), ordered[..n]);
    var i :| 0 <= i < n && ordered[..n][i] == e;
    LinkageSound(cannot, entities, ordered, n);
    assert Explained(cannot, d, ordered[i]);
    if d[e.a] == d[e.b] {
      LinkGrows(cannot, Singletons(entities), ordered, n, e.a, e.b);
    }
  }

  lemma LinkedStrongest(cannot: set<(string, string)>, entities: seq<string>, edges: seq<Edge>)
    requires Between(edges, entities)
    ensures LinkageOf(cannot, entities, edges).Keys == Elements(entities)
    ensures StrongestFirst(cannot, entities, edges, LinkageOf(cannot, entities, edges))
  {
    hide LinkageOf, Forbidden;
    LinkageKeys(cannot, entities, edges);
    forall e | e in edges
      ensures var c := LinkageOf(cannot, entities, edges);
              InBoth(entities, c, e) && (c[e.a] != c[e.b] ==> Forbidden(cannot, entities, edges, e))
    {
      var i :| 0 <= i < |edges| && edges[i] == e;
      LeftForbidden(cannot, entities, edges, e);
    }
  }

  /** What strong edges have joined stays joined: the linkage of fewer, stronger edges is finer. */
  lemma StrongerIsFiner(cannot: set<(string, string)>, entities: seq<string>, edges: seq<Edge>, weight: real, x: string,
                        y: string)
    requires x in entities && y in entities
    ensures var c, d := LinkageOf(cannot, entities, edges), LinkageOf(cannot, entities, AtLeast(edges, weight));
            x in c && y in c && x in d && y in d && (d[x] == d[y] ==> c[x] == c[y])
  {
    hide LinkAll, SortEdges, AtLeast;
    LinkageKeys(cannot, entities, edges);
    LinkageKeys(cannot, entities, AtLeast(edges, weight));
    assert x in Elements(entities) && y in Elements(entities);
    var n := StrongLinkage(cannot, entities, edges, weight);
    var d := LinkageOf(cannot, entities, AtLeast(edges, weight));
    if d[x] == d[y] {
      LinkGrows(cannot, Singletons(entities), SortEdges(edges), n, x, y);
    }
  }

  /**
   Clusters the entities: the result lists the partition that linking along the edges, strongest
   first, leads to.
   */
  method ClusterByConstrainedLinkage(entities: seq<string>, positive: seq<Edge>, cannot: set<(string, string)>)
    returns (out: seq<seq<string>>)
    requires Between(positive, entities)
    ensures Listing(out, LinkageOf(cannot, entities, positive))
    ensures LinkageOf(cannot, entities, positive).Keys == Elements(entities)
    ensures StrongestFirst(cannot, entities, positive, LinkageOf(cannot, entities, positive))
  {
    hide StrongestFirst, LinkageOf, Forest, Classes, Tabulates, Less, Listing, Sorted, LinkEdge, SortEdges, MinRooted,
         Separated, Connected, Explained;
    var uf := new Sets(entities);
    var members := map e | e in entities :: [e];
    TabulatesStart(entities);
    var ordered := SortEdges(positive);
    EdgesKept(positive, ordered, entities);
    ghost var c := Singletons(entities);
    ClassKeys(uf.parent);
    assert c.Keys == Elements(entities);
    for i := 0 to |ordered|
      invariant Forest(uf.parent) && uf.parent.Keys == c.Keys == Elements(entities)
      invariant Classes(uf.parent) == LinkAll(cannot, c, ordered[..i])
      invariant Tabulates(members, Classes(uf.parent))
    {
      assert ordered[i].a in entities && ordered[i].b in entities;
      assert ordered[i].a in c && ordered[i].b in c;
      members := LinkOne(uf, members, cannot, ordered[i]);
      LinkAllStep(cannot, c, ordered, i);
    }
    assert ordered[..|ordered|] == ordered;
    LinkageSound(cannot, entities, ordered, |ordered|);
    out := ListClusters(members, Classes(uf.parent));
    LinkageIs(cannot, entities, positive);
    LinkedStrongest(cannot, entities, positive);
  }

  lemma LinkAllStep(cannot: set<(string, string)>, c: Partition, edges: seq<Edge>, i: nat)
    requires i < |edges|
    ensures LinkAll(cannot, c, edges[..i + 1]) == LinkEdge(cannot, LinkAll(cannot, c, edges[..i]), edges[i])
  {
    var longer := edges[..i + 1];
    assert longer[..|longer| - 1] == edges[..i] && longer[|longer| - 1] == edges[i];
  }

  ghost predicate Between(edges: seq<Edge>, entities: seq<string>) {
    forall i :: 0 <= i < |edges| ==> edges[i].a in entities && edges[i].b in entities
  }

  lemma EdgesKept(positive: seq<Edge>, ordered: seq<Edge>, entities: seq<string>)
    requires multiset(ordered) == multiset(positive) && Between(positive, entities)
    ensures Between(ordered, entities)
  {
    forall i | 0 <= i < |ordered| ensures ordered[i].a in entities && ordered[i].b in entities {
      assert ordered[i] in multiset(ordered);
      assert ordered[i] in positive;
    }
  }

  /** Neither the order the entities nor the order the edges are given in matters. */
  lemma OrderIrrelevant(cannot: set<(string, string)>, es: seq<string>, fs: seq<string>, p: seq<Edge>, q: seq<Edge>)
    requires Elements(es) == Elements(fs) && multiset(p) == multiset(q)
    ensures LinkAll(cannot, Singletons(es), SortEdges(p)) == LinkAll(cannot, Singletons(fs), SortEdges(q))
  {
    SortRanked(p);
    SortRanked(q);
    RankedUnique(SortEdges(p), SortEdges(q));
    assert forall x :: x in es <==> x in Elements(es);
    assert forall x :: x in fs <==> x in Elements(fs);
    assert Singletons(es) == Singletons(fs);
  }
}
