/**
 The disjoint-set forest behind the repair clusters: a mutable parent map with path halving, in which
 every parent is a smaller id, so that roots are the minima of their classes.
 */
module UnionFind {
  import opened Ordering

  type Parents = map<string, string>

  /** The parent of `x`; an id outside the map has none but itself. */
  function Up(p: Parents, x: string): string {
    if x in p then p[x] else x
  }

  /** Parents stay inside the forest and strictly decrease until the root. */
  ghost predicate Forest(p: Parents) {
    forall x {:trigger Up(p, x)} :: x in p ==> Up(p, x) in p && (Up(p, x) == x || Less(Up(p, x), x))
  }

  /** How many ids are below `x`: what makes walks to the root terminate. */
  ghost function Rank(p: Parents, x: string): nat {
    |set y | y in p && Less(y, x)|
  }

  lemma RankDecreases(p: Parents, x: string, y: string)
    requires x in p && Less(x, y)
    ensures Rank(p, x) < Rank(p, y)
  {
    var below, above := set z | z in p && Less(z, x), set z | z in p && Less(z, y);
    forall z | z in below ensures z in above {
      LessTransitive(z, x, y);
    }
    LessIrreflexive(x);
    assert x in above && x !in below;
    SmallerSubset(below, above);
  }

  lemma SmallerSubset<T>(a: set<T>, b: set<T>)
    requires a < b
    ensures |a| < |b|
  {
    assert |b| == |a| + |b - a| by {
      assert b == a + (b - a);
    }
  }

  /** The root a walk from `x` ends at. */
  ghost function Root(p: Parents, x: string): (r: string)
    requires Forest(p) && x in p
    ensures r in p && Up(p, r) == r
    ensures r == x || Less(r, x)
    decreases Rank(p, x)
  {
    if Up(p, x) == x then x
    else
      RankDecreases(p, Up(p, x), x);
      var r := Root(p, Up(p, x));
      if r != Up(p, x) then LessTransitive(r, Up(p, x), x); r else r
  }

  /** Which class each id is in, named by its root. */
  ghost function Classes(p: Parents): map<string, string>
    requires Forest(p)
  {
    map x | x in p :: Root(p, x)
  }

  lemma RootStep(p: Parents, x: string)
    requires Forest(p) && x in p
    ensures Up(p, x) in p && Root(p, x) == (if Up(p, x) == x then x else Root(p, Up(p, x)))
  {
  }

  // -------------------------------------------------------------------------------------------
  // Path halving
  // -------------------------------------------------------------------------------------------

  function Halved(p: Parents, x: string): Parents {
    p[x := Up(p, Up(p, x))]
  }

  lemma HalvedForest(p: Parents, x: string)
    requires Forest(p) && x in p && Up(p, x) != x
    ensures Forest(Halved(p, x)) && Halved(p, x).Keys == p.Keys
    ensures Less(Up(Halved(p, x), x), x)
  {
    if Up(p, Up(p, x)) != Up(p, x) {
      LessTransitive(Up(p, Up(p, x)), Up(p, x), x);
    }
    var q := Halved(p, x);
    forall y | y in q ensures Up(q, y) in q && (Up(q, y) == y || Less(Up(q, y), y)) {
      assert y != x ==> Up(q, y) == Up(p, y);
    }
  }

  lemma {:induction false} HalvedRoot(p: Parents, x: string, y: string)
    requires Forest(p) && x in p && Up(p, x) != x && Forest(Halved(p, x)) && y in p
    ensures Root(Halved(p, x), y) == Root(p, y)
    decreases Rank(p, y)
  {
    var q := Halved(p, x);
    var u := Up(p, y);
    if y == x {
      RankDecreases(p, u, x);
      var v := Up(p, u);
      if v != u {
        RankDecreases(p, v, u);
      }
      HalvedRoot(p, x, v);
      HalvedForest(p, x);
      LessAsymmetric(v, x);
      assert Root(q, x) == Root(q, v);
    } else if u != y {
      RankDecreases(p, u, y);
      HalvedRoot(p, x, u);
      assert Up(q, y) == u;
    } else {
      assert Up(q, y) == y;
    }
  }

  /** Path halving changes no class. */
  lemma HalvedClasses(p: Parents, x: string)
    requires Forest(p) && x in p && Up(p, x) != x
    ensures Forest(Halved(p, x)) && Classes(Halved(p, x)) == Classes(p)
  {
    hide Root, Forest, Classes, Less, Rank;
    HalvedForest(p, x);
    var q := Halved(p, x);
    ClassKeys(p);
    ClassKeys(q);
    forall y | y in Classes(p) ensures Classes(q)[y] == Classes(p)[y] {
      HalvedRoot(p, x, y);
      ClassAt(p, y);
      ClassAt(q, y);
    }
  }

  /** One round of a find: the classes stay, and the walk moves to a lower id of the same class. */
  lemma Halve(p: Parents, r: string)
    requires Forest(p) && r in p && Up(p, r) != r
    ensures var q := Halved(p, r);
            && Forest(q) && Classes(q) == Classes(p) && q.Keys == p.Keys
            && Up(q, r) in q && Classes(q)[Up(q, r)] == Classes(p)[r]
            && Less(Up(q, r), r)
  {
    var q := Halved(p, r);
    HalvedForest(p, r);
    HalvedClasses(p, r);
    assert Classes(q)[r] == Classes(p)[r];
    RootStep(q, r);
    LessIrreflexive(r);
  }

  // -------------------------------------------------------------------------------------------
  // Linking two roots
  // -------------------------------------------------------------------------------------------

  lemma LinkedForest(p: Parents, low: string, high: string)
    requires Forest(p) && low in p && high in p && Up(p, low) == low && Less(low, high)
    ensures Forest(p[high := low]) && p[high := low].Keys == p.Keys
  {
    var q := p[high := low];
    forall y | y in q ensures Up(q, y) in q && (Up(q, y) == y || Less(Up(q, y), y)) {
      assert y != high ==> Up(q, y) == Up(p, y);
    }
  }

  lemma {:induction false} LinkedRoot(p: Parents, low: string, high: string, y: string)
    requires Forest(p) && low in p && high in p && Up(p, low) == low && Up(p, high) == high && Less(low, high)
    requires y in p && Forest(p[high := low])
    ensures Root(p[high := low], y) == if Root(p, y) == high then low else Root(p, y)
    decreases Rank(p, y)
  {
    var q := p[high := low];
    var u := Up(p, y);
    LessAsymmetric(low, high);
    assert Up(q, low) == low && Root(q, low) == low;
    if y == high {
      assert Up(q, y) == low;
    } else if u != y {
      RankDecreases(p, u, y);
      LinkedRoot(p, low, high, u);
      assert Up(q, y) == u;
    } else {
      assert Up(q, y) == y;
    }
  }

  /** The classes of `ra` and `rb` put together under `root`. */
  function Joined(classes: map<string, string>, ra: string, rb: string, root: string): map<string, string> {
    map x | x in classes :: if classes[x] == ra || classes[x] == rb then root else classes[x]
  }

  function Smaller(a: string, b: string): string {
    if Less(b, a) then b else a
  }

  lemma SmallerIsLess(a: string, b: string)
    requires a != b
    ensures var root := Smaller(a, b);
            (root == a || root == b) && Less(root, if root == a then b else a)
  {
    LessTotal(a, b);
  }

  /** Linking the larger of two roots under the smaller joins their classes. */
  lemma JoinRoots(p: Parents, ra: string, rb: string)
    requires Forest(p) && ra in p && rb in p && Up(p, ra) == ra && Up(p, rb) == rb && ra != rb
    ensures var root := Smaller(ra, rb);
            var q := p[(if root == ra then rb else ra) := root];
            Forest(q) && Classes(q) == Joined(Classes(p), ra, rb, root)
  {
    hide Root, Forest, Classes, Less, Rank;
    var root := Smaller(ra, rb);
    var other := if root == ra then rb else ra;
    SmallerIsLess(ra, rb);
    LinkedForest(p, root, other);
    var q := p[other := root];
    ClassKeys(p);
    ClassKeys(q);
    var want := Joined(Classes(p), ra, rb, root);
    forall y | y in want ensures Classes(q)[y] == want[y] {
      LinkedRoot(p, root, other, y);
      ClassAt(p, y);
      ClassAt(q, y);
    }
  }

  lemma ClassAt(p: Parents, x: string)
    requires Forest(p) && x in p
    ensures x in Classes(p) && Classes(p)[x] == Root(p, x)
  {
  }

  lemma ClassKeys(p: Parents)
    requires Forest(p)
    ensures Classes(p).Keys == p.Keys
  {
  }

  lemma ClassRoot(p: Parents, x: string)
    requires Forest(p) && x in p
    ensures var r := Classes(p)[x]; r in p && Up(p, r) == r && (r == x || Less(r, x))
  {
  }

  lemma SameClass(classes: map<string, string>, r: string)
    ensures Joined(classes, r, r, r) == classes
  {
  }

  class Sets {
    var parent: Parents

    constructor (entities: seq<string>)
      ensures Forest(parent) && Classes(parent) == map x | x in entities :: x
    {
      parent := map x | x in entities :: x;
    }

    /** The root of `x`, shortening the path on the way; no class changes. */
    method Find(x: string) returns (r: string)
      requires Forest(parent) && x in parent
      modifies this
      ensures Forest(parent) && Classes(parent) == old(Classes(parent)) && parent.Keys == old(parent).Keys
      ensures r == old(Classes(parent))[x]
    {
      hide Root, Forest, Classes, Less, Rank;
      r := x;
      ghost var keys, classes := parent.Keys, Classes(parent);
      ClassKeys(parent);
      while Up(parent, r) != r
        invariant Forest(parent) && parent.Keys == keys && Classes(parent) == classes
        invariant x in classes && r in classes && r in parent && classes[r] == classes[x]
        decreases Rank(parent, r)
      {
        ghost var p := parent;
        Halve(p, r);
        RankDecreases(p, Up(Halved(p, r), r), r);
        parent := parent[r := Up(parent, Up(parent, r))];
        assert parent == Halved(p, r);
        r := Up(parent, r);
        SameRank(p, parent, r);
        ClassKeys(parent);
      }
      RootOf(parent, r);
    }

    /** Joins the classes of `a` and `b` under the smaller of their roots and returns it. */
    method Union(a: string, b: string) returns (root: string)
      requires Forest(parent) && a in parent && b in parent
      modifies this
      ensures Forest(parent) && a in old(Classes(parent)) && b in old(Classes(parent))
      ensures var classes := old(Classes(parent));
              && root == Smaller(classes[a], classes[b])
              && Classes(parent) == Joined(classes, classes[a], classes[b], root)
    {
      hide Root, Forest, Classes, Less, Rank, Joined;
      ClassKeys(parent);
      var ra := Find(a);
      var rb := Find(b);
      ClassRoot(parent, a);
      ClassRoot(parent, b);
      root := Smaller(ra, rb);
      if ra == rb {
        SameClass(Classes(parent), ra);
      } else {
        JoinRoots(parent, ra, rb);
        parent := parent[(if root == ra then rb else ra) := root];
      }
    }
  }

  lemma RootOf(p: Parents, r: string)
    requires Forest(p) && r in p && Up(p, r) == r
    ensures r in Classes(p) && Classes(p)[r] == r
  {
  }

  lemma SameRank(p: Parents, q: Parents, x: string)
    requires p.Keys == q.Keys
    ensures Rank(p, x) == Rank(q, x)
  {
    assert (set y | y in p && Less(y, x)) == (set y | y in q && Less(y, x));
  }
}
