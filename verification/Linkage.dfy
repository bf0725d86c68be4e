/**
 Constrained single-linkage: what uniting entities along positive edges, strongest first and never
 across a cannot-link pair, leaves as the partition. `Classes` maps each entity to its class's root.
 */
module Linkage {
  import opened Ordering
  import opened UnionFind

  type Partition = map<string, string>

  datatype Edge = Edge(a: string, b: string, weight: real)

  /** An undirected pair under its canonical key. */
  function OrderedKey(a: string, b: string): (string, string) {
    if Less(b, a) then (b, a) else (a, b)
  }

  lemma OrderedKeySymmetric(a: string, b: string)
    ensures OrderedKey(a, b) == OrderedKey(b, a)
  {
    LessTotal(a, b);
    if Less(a, b) {
      LessAsymmetric(a, b);
    }
  }

  predicate Cannot(cannot: set<(string, string)>, x: string, y: string) {
    OrderedKey(x, y) in cannot
  }

  function Singletons(entities: seq<string>): Partition {
    map e | e in entities :: e
  }

  /** Some cannot-link pair runs between the two classes. */
  ghost predicate Conflict(cannot: set<(string, string)>, c: Partition, ra: string, rb: string) {
    exists x, y :: x in c && y in c && c[x] == ra && c[y] == rb && Cannot(cannot, x, y)
  }

  /** One edge: unite the two classes unless they are one already or a cannot-link pair forbids it. */
  ghost function LinkEdge(cannot: set<(string, string)>, c: Partition, e: Edge): (c': Partition)
    ensures c'.Keys == c.Keys
  {
    if e.a !in c || e.b !in c || c[e.a] == c[e.b] || Conflict(cannot, c, c[e.a], c[e.b]) then c
    else Joined(c, c[e.a], c[e.b], Smaller(c[e.a], c[e.b]))
  }

  ghost function LinkAll(cannot: set<(string, string)>, c: Partition, edges: seq<Edge>): (c': Partition)
    ensures c'.Keys == c.Keys
  {
    if edges == [] then c
    else LinkEdge(cannot, LinkAll(cannot, c, edges[..|edges| - 1]), edges[|edges| - 1])
  }

  // -------------------------------------------------------------------------------------------
  // What the partition keeps
  // -------------------------------------------------------------------------------------------

  /** Every class is named by a member that is its minimum. */
  ghost predicate MinRooted(c: Partition) {
    forall x :: x in c ==> c[x] in c && Fixed(c, c[x]) && (c[x] == x || Less(c[x], x))
  }

  ghost predicate Fixed(c: Partition, r: string) {
    r in c && c[r] == r
  }

  ghost predicate Separated(cannot: set<(string, string)>, c: Partition) {
    forall x, y :: x in c && y in c && x != y && c[x] == c[y] ==> !Cannot(cannot, x, y)
  }

  ghost predicate Adjacent(edges: seq<Edge>, x: string, y: string) {
    exists i :: 0 <= i < |edges| && ((edges[i].a == x && edges[i].b == y) || (edges[i].a == y && edges[i].b == x))
  }

  /** A walk inside class `r` along positive edges. */
  ghost predicate Walk(edges: seq<Edge>, c: Partition, r: string, p: seq<string>) {
    && p != []
    && (forall i :: 0 <= i < |p| ==> p[i] in c && c[p[i]] == r)
    && (forall i :: 0 <= i < |p| - 1 ==> Adjacent(edges, p[i], p[i + 1]))
  }

  ghost predicate Connects(edges: seq<Edge>, c: Partition, r: string, x: string, y: string) {
    exists p :: Walk(edges, c, r, p) && p[0] == x && p[|p| - 1] == y
  }

  ghost predicate Connected(edges: seq<Edge>, c: Partition) {
    forall x, y :: x in c && y in c && c[x] == c[y] ==> Connects(edges, c, c[x], x, y)
  }

  /** An edge inside one class, or one that a cannot-link pair across its two classes explains. */
  ghost predicate Explained(cannot: set<(string, string)>, c: Partition, e: Edge) {
    e.a in c && e.b in c ==> c[e.a] == c[e.b] || Conflict(cannot, c, c[e.a], c[e.b])
  }

  lemma RootFixed(c: Partition, x: string)
    requires MinRooted(c) && x in c
    ensures Fixed(c, c[x])
  {
  }

  lemma JoinMinRooted(c: Partition, ra: string, rb: string)
    requires MinRooted(c) && Fixed(c, ra) && Fixed(c, rb) && ra != rb
    ensures MinRooted(Joined(c, ra, rb, Smaller(ra, rb)))
  {
    var root := Smaller(ra, rb);
    SmallerIsLess(ra, rb);
    var c' := Joined(c, ra, rb, root);
    assert Fixed(c', root);
    forall x | x in c' ensures c'[x] in c' && Fixed(c', c'[x]) && (c'[x] == x || Less(c'[x], x)) {
      if c[x] == ra || c[x] == rb {
        if c[x] != root && c[x] != x {
          LessTransitive(root, c[x], x);
        }
      } else {
        assert Fixed(c, c[x]);
      }
    }
  }

  lemma JoinSeparated(cannot: set<(string, string)>, c: Partition, ra: string, rb: string, root: string)
    requires Separated(cannot, c) && !Conflict(cannot, c, ra, rb)
    requires root == ra || root == rb
    ensures Separated(cannot, Joined(c, ra, rb, root))
  {
    var c' := Joined(c, ra, rb, root);
    forall x, y | x in c' && y in c' && x != y && c'[x] == c'[y] ensures !Cannot(cannot, x, y) {
      OrderedKeySymmetric(x, y);
      if c[x] != c[y] {
        assert c[x] == ra || c[y] == ra;
      }
    }
  }

  lemma JoinWalk(edges: seq<Edge>, c: Partition, ra: string, rb: string, root: string, r: string, p: seq<string>)
    requires Walk(edges, c, r, p)
    ensures Walk(edges, Joined(c, ra, rb, root), if r == ra || r == rb then root else r, p)
  {
  }

  lemma Concatenate(edges: seq<Edge>, c: Partition, r: string, p: seq<string>, q: seq<string>)
    requires Walk(edges, c, r, p) && Walk(edges, c, r, q) && Adjacent(edges, p[|p| - 1], q[0])
    ensures Walk(edges, c, r, p + q)
  {
    var w := p + q;
    forall i | 0 <= i < |w| - 1 ensures Adjacent(edges, w[i], w[i + 1]) {
      if i < |p| - 1 {
        assert w[i] == p[i] && w[i + 1] == p[i + 1];
      } else if i >= |p| {
        assert w[i] == q[i - |p|] && w[i + 1] == q[i - |p| + 1];
      }
    }
  }

  /** Two classes joined along the edge between `a` and `b`: from one side to the other. */
  lemma Bridge(edges: seq<Edge>, c: Partition, ra: string, rb: string, root: string,
               x: string, a: string, b: string, y: string)
    requires root == ra || root == rb
    requires Connects(edges, c, ra, x, a) && Connects(edges, c, rb, b, y) && Adjacent(edges, a, b)
    ensures Connects(edges, Joined(c, ra, rb, root), root, x, y)
  {
    var p :| Walk(edges, c, ra, p) && p[0] == x && p[|p| - 1] == a;
    var q :| Walk(edges, c, rb, q) && q[0] == b && q[|q| - 1] == y;
    JoinWalk(edges, c, ra, rb, root, ra, p);
    JoinWalk(edges, c, ra, rb, root, rb, q);
    Concatenate(edges, Joined(c, ra, rb, root), root, p, q);
    assert (p + q)[0] == x && (p + q)[|p + q| - 1] == y;
  }

  lemma JoinConnects(edges: seq<Edge>, c: Partition, ra: string, rb: string, root: string, r: string, x: string,
                     y: string)
    requires Connects(edges, c, r, x, y)
    ensures Connects(edges, Joined(c, ra, rb, root), if r == ra || r == rb then root else r, x, y)
  {
    var p :| Walk(edges, c, r, p) && p[0] == x && p[|p| - 1] == y;
    JoinWalk(edges, c, ra, rb, root, r, p);
  }

  lemma JoinConnected(edges: seq<Edge>, c: Partition, e: Edge, root: string)
    requires Connected(edges, c) && e.a in c && e.b in c && c[e.a] != c[e.b]
    requires Adjacent(edges, e.a, e.b) && Adjacent(edges, e.b, e.a)
    requires root == c[e.a] || root == c[e.b]
    ensures Connected(edges, Joined(c, c[e.a], c[e.b], root))
  {
    var ra, rb := c[e.a], c[e.b];
    var c' := Joined(c, ra, rb, root);
    forall x, y | x in c' && y in c' && c'[x] == c'[y] ensures Connects(edges, c', c'[x], x, y) {
      if c[x] == c[y] {
        JoinConnects(edges, c, ra, rb, root, c[x], x, y);
      } else if c[x] == ra {
        Bridge(edges, c, ra, rb, root, x, e.a, e.b, y);
      } else {
        JoinSwap(c, ra, rb, root);
        Bridge(edges, c, rb, ra, root, x, e.b, e.a, y);
      }
    }
  }

  lemma JoinSwap(c: Partition, ra: string, rb: string, root: string)
    ensures Joined(c, ra, rb, root) == Joined(c, rb, ra, root)
  {
  }

  lemma JoinExplained(cannot: set<(string, string)>, c: Partition, ra: string, rb: string, root: string, e: Edge)
    requires Explained(cannot, c, e)
    ensures Explained(cannot, Joined(c, ra, rb, root), e)
  {
    var c' := Joined(c, ra, rb, root);
    if e.a in c && e.b in c && c[e.a] != c[e.b] {
      var x, y :| x in c && y in c && c[x] == c[e.a] && c[y] == c[e.b] && Cannot(cannot, x, y);
      assert x in c' && y in c' && c'[x] == c'[e.a] && c'[y] == c'[e.b];
    }
  }

  // -------------------------------------------------------------------------------------------
  // The theorem
  // -------------------------------------------------------------------------------------------

  /** What constrained linkage promises of the partition after the first `done` edges. */
  ghost predicate Sound(cannot: set<(string, string)>, c: Partition, edges: seq<Edge>, done: nat)
    requires done <= |edges|
  {
    && MinRooted(c)
    && Separated(cannot, c)
    && Connected(edges, c)
    && forall i :: 0 <= i < done ==> Explained(cannot, c, edges[i])
  }

  lemma SingletonsSound(cannot: set<(string, string)>, entities: seq<string>, edges: seq<Edge>)
    ensures Sound(cannot, Singletons(entities), edges, 0)
  {
    var c := Singletons(entities);
    forall x, y | x in c && y in c && c[x] == c[y] ensures Connects(edges, c, c[x], x, y) {
      assert Walk(edges, c, x, [x]);
      assert [x][0] == x;
    }
  }

  /** After its turn, an edge is inside one class or explained. */
  lemma EdgeExplained(cannot: set<(string, string)>, c: Partition, e: Edge)
    ensures Explained(cannot, LinkEdge(cannot, c, e), e)
  {
  }

  lemma KeepsExplained(cannot: set<(string, string)>, c: Partition, e: Edge, f: Edge)
    requires Explained(cannot, c, f)
    ensures Explained(cannot, LinkEdge(cannot, c, e), f)
  {
    if LinkEdge(cannot, c, e) != c {
      JoinExplained(cannot, c, c[e.a], c[e.b], Smaller(c[e.a], c[e.b]), f);
    }
  }

  lemma LinkEdgeKeeps(cannot: set<(string, string)>, c: Partition, edges: seq<Edge>, e: Edge)
    requires MinRooted(c) && Separated(cannot, c) && Connected(edges, c)
    requires Adjacent(edges, e.a, e.b) && Adjacent(edges, e.b, e.a)
    ensures var c' := LinkEdge(cannot, c, e);
            MinRooted(c') && Separated(cannot, c') && Connected(edges, c')
  {
    hide MinRooted, Separated, Connected, Less, Conflict, Adjacent, Joined;
    if LinkEdge(cannot, c, e) != c {
      RootFixed(c, e.a);
      RootFixed(c, e.b);
      var ra, rb := c[e.a], c[e.b];
      JoinMinRooted(c, ra, rb);
      JoinSeparated(cannot, c, ra, rb, Smaller(ra, rb));
      JoinConnected(edges, c, e, Smaller(ra, rb));
    }
  }

  lemma LinkEdgeSound(cannot: set<(string, string)>, c: Partition, edges: seq<Edge>, i: nat)
    requires i < |edges| && Sound(cannot, c, edges, i)
    ensures Sound(cannot, LinkEdge(cannot, c, edges[i]), edges, i + 1)
  {
    hide MinRooted, Separated, Connected, Explained, LinkEdge;
    var e := edges[i];
    assert Adjacent(edges, e.a, e.b) && Adjacent(edges, e.b, e.a);
    LinkEdgeKeeps(cannot, c, edges, e);
    EdgeExplained(cannot, c, e);
    forall j | 0 <= j < i ensures Explained(cannot, LinkEdge(cannot, c, e), edges[j]) {
      KeepsExplained(cannot, c, e, edges[j]);
    }
  }

  /**
   Constrained linkage, over any entities, edges and cannot-link set: every class is named by its
   minimum, holds no cannot-link pair and is connected by positive edges, and every edge that still
   runs between two classes is explained by a cannot-link pair across them.
   */
  lemma {:induction false} LinkageSound(cannot: set<(string, string)>, entities: seq<string>, edges: seq<Edge>,
                                        done: nat)
    requires done <= |edges|
    ensures Sound(cannot, LinkAll(cannot, Singletons(entities), edges[..done]), edges, done)
    decreases done
  {
    hide Sound, LinkEdge;
    if done == 0 {
      SingletonsSound(cannot, entities, edges);
    } else {
      LinkageSound(cannot, entities, edges, done - 1);
      var shorter := edges[..done];
      assert shorter[..|shorter| - 1] == edges[..done - 1];
      LinkEdgeSound(cannot, LinkAll(cannot, Singletons(entities), edges[..done - 1]), edges, done - 1);
    }
  }
}
