/**
 The authoritative maps of the entity index under a repair: folding members into canonicals moves name
 vectors and never makes or loses one, whatever the merges are and in whatever order they are applied.
 */
module EntityIndex {

  type Vector = seq<real>

  type Names = map<string, seq<Vector>>

  function NamesAt(names: Names, e: string): seq<Vector> { if e in names then names[e] else [] }

  /** All name vectors of the given entities, counted. */
  ghost function Held(names: Names, es: set<string>): multiset<Vector> {
    if es == {} then multiset{}
    else
      var e :| e in es;
      multiset(NamesAt(names, e)) + Held(names, es - {e})
  }

  /** All name vectors of the index, counted. */
  ghost function AllNames(names: Names): multiset<Vector> { Held(names, names.Keys) }

  lemma Swap(a: multiset<Vector>, b: multiset<Vector>, c: multiset<Vector>)
    ensures a + (b + c) == b + (a + c)
  {
  }

  /** Any entity may be counted first. */
  lemma {:induction false} HeldApart(names: Names, es: set<string>, e: string)
    requires e in es
    ensures Held(names, es) == multiset(NamesAt(names, e)) + Held(names, es - {e})
    decreases |es|
  {
    var f :| f in es && Held(names, es) == multiset(NamesAt(names, f)) + Held(names, es - {f});
    if f != e {
      HeldApart(names, es - {f}, e);
      HeldApart(names, es - {e}, f);
      assert es - {f} - {e} == es - {e} - {f};
      Swap(multiset(NamesAt(names, f)), multiset(NamesAt(names, e)), Held(names, es - {f} - {e}));
    }
  }

  lemma {:induction false} HeldSame(a: Names, b: Names, es: set<string>)
    requires forall e :: e in es ==> NamesAt(a, e) == NamesAt(b, e)
    ensures Held(a, es) == Held(b, es)
    decreases |es|
  {
    if es != {} {
      var e :| e in es;
      HeldApart(a, es, e);
      HeldApart(b, es, e);
      HeldSame(a, b, es - {e});
    }
  }

  /** Counting an entity without names changes nothing. */
  lemma HeldEmpty(names: Names, es: set<string>, e: string)
    requires e !in es && NamesAt(names, e) == []
    ensures Held(names, es + {e}) == Held(names, es)
  {
    HeldApart(names, es + {e}, e);
    assert es + {e} - {e} == es;
  }

  /** One member folded into its canonical. */
  function Folded(names: Names, canonical: string, member: string): Names {
    if member == canonical then names
    else
      var moved := NamesAt(names, member);
      (if moved == [] then names else names[canonical := NamesAt(names, canonical) + moved]) - {member}
  }

  lemma Assoc(a: multiset<Vector>, b: multiset<Vector>, c: multiset<Vector>)
    ensures (a + b) + c == a + (b + c)
  {
  }

  /** What two entities hold apart, one holds together. */
  lemma HeldPair(names: Names, es: set<string>, a: string, b: string)
    requires a in es && b in es && a != b
    ensures Held(names, es) == (multiset(NamesAt(names, a)) + multiset(NamesAt(names, b))) + Held(names, es - {a} - {b})
  {
    HeldApart(names, es, a);
    HeldApart(names, es - {a}, b);
    Assoc(multiset(NamesAt(names, a)), multiset(NamesAt(names, b)), Held(names, es - {a} - {b}));
  }

  lemma FoldConserves(names: Names, canonical: string, member: string)
    ensures AllNames(Folded(names, canonical, member)) == AllNames(names)
  {
    hide Held;
    var after := Folded(names, canonical, member);
    var moved := NamesAt(names, member);
    if member != canonical {
      if moved == [] {
        Unheld(names, member);
      } else {
        var all := names.Keys + {canonical};
        var others := all - {canonical} - {member};
        KeysWithin(names, canonical);
        HeldPair(names, all, canonical, member);
        assert after.Keys == others + {canonical};
        HeldApart(after, after.Keys, canonical);
        assert after.Keys - {canonical} == others;
        HeldSame(names, after, others);
        Joined(NamesAt(names, canonical), moved);
      }
    }
  }

  lemma Joined(a: seq<Vector>, b: seq<Vector>)
    ensures multiset(a + b) == multiset(a) + multiset(b)
  {
  }

  /** Naming an entity the index does not know counts nothing more. */
  lemma KeysWithin(names: Names, e: string)
    ensures Held(names, names.Keys + {e}) == AllNames(names)
  {
    if e in names {
      assert names.Keys + {e} == names.Keys;
    } else {
      HeldEmpty(names, names.Keys, e);
    }
  }

  lemma Unheld(names: Names, member: string)
    requires NamesAt(names, member) == []
    ensures AllNames(names - {member}) == AllNames(names)
  {
    hide Held;
    var after := names - {member};
    HeldSame(names, after, after.Keys);
    if member in names {
      assert names.Keys == after.Keys + {member};
      HeldEmpty(names, after.Keys, member);
    } else {
      assert after == names;
    }
  }

  /** The names that folding the members brings: each member's once, at its first mention. */
  function Gathered(names: Names, canonical: string, members: seq<string>): seq<Vector> {
    if members == [] then []
    else
      var front, last := members[..|members| - 1], members[|members| - 1];
      Gathered(names, canonical, front) + if last == canonical || last in front then [] else NamesAt(names, last)
  }

  lemma {:induction false} GatheredSame(a: Names, b: Names, canonical: string, members: seq<string>)
    requires forall m :: m in members ==> NamesAt(a, m) == NamesAt(b, m)
    ensures Gathered(a, canonical, members) == Gathered(b, canonical, members)
    decreases |members|
  {
    if members != [] {
      assert members[|members| - 1] in members;
      GatheredSame(a, b, canonical, members[..|members| - 1]);
    }
  }

  type Merges = map<string, seq<string>>

  /** Some canonical other than itself takes the entity in. */
  ghost predicate Taken(merges: Merges, done: set<string>, e: string) {
    exists c :: c in done && c in merges && e != c && e in merges[c]
  }

  /** No entity of one merge, canonical or member, occurs in another. */
  ghost predicate Separate(merges: Merges) {
    forall c, d, m :: c in merges && d in merges && c != d && m in merges[c] ==> m != d && m !in merges[d]
  }

  /**
   Where the names are once the canonicals in `done` have taken in their members. An entity that is no
   canonical keeps its names or, once taken, has none. When the merges are separate, a canonical holds
   its own names and then those of its members.
   */
  ghost predicate Settled(before: Names, after: Names, merges: Merges, done: set<string>) {
    && (forall e :: e !in merges ==>
          NamesAt(after, e) == if Taken(merges, done, e) then [] else NamesAt(before, e))
    && (Separate(merges) ==> forall c :: c in merges ==>
          NamesAt(after, c) ==
          NamesAt(before, c) + if c in done then Gathered(before, c, merges[c]) else [])
  }

  lemma SettledStart(names: Names, merges: Merges)
    ensures Settled(names, names, merges, {})
  {
  }

  /** What one fold does to the names: the canonical gathers, the members lose, others keep. */
  ghost predicate FoldsInto(before: Names, after: Names, canonical: string, members: seq<string>) {
    && NamesAt(after, canonical) == NamesAt(before, canonical) + Gathered(before, canonical, members)
    && forall e :: e != canonical ==> NamesAt(after, e) == if e in members then [] else NamesAt(before, e)
  }

  lemma FoldsNone(names: Names, canonical: string)
    ensures FoldsInto(names, names, canonical, [])
  {
  }

  lemma FoldedAt(names: Names, canonical: string, member: string, e: string)
    requires member != canonical
    ensures NamesAt(Folded(names, canonical, member), e) ==
            if e == canonical then NamesAt(names, e) + NamesAt(names, member)
            else if e == member then [] else NamesAt(names, e)
  {
    assert NamesAt(names, e) + [] == NamesAt(names, e);
  }

  /** One more member. */
  lemma FoldsMore(before: Names, mid: Names, canonical: string, front: seq<string>, m: string)
    requires FoldsInto(before, mid, canonical, front)
    ensures FoldsInto(before, Folded(mid, canonical, m), canonical, front + [m])
  {
    hide Gathered, NamesAt, Folded;
    GatheredMore(before, canonical, front, m);
    var own, got := NamesAt(before, canonical), Gathered(before, canonical, front);
    if m == canonical {
      assert Folded(mid, canonical, m) == mid by { FoldedSelf(mid, m); }
      assert got + [] == got;
    } else {
      var more := NamesAt(mid, m);
      FoldedAt(mid, canonical, m, canonical);
      assert (own + got) + more == own + (got + more);
      forall e | e != canonical
        ensures NamesAt(Folded(mid, canonical, m), e) == if e in front + [m] then [] else NamesAt(before, e)
      {
        FoldedAt(mid, canonical, m, e);
      }
    }
  }

  lemma FoldedSelf(names: Names, e: string)
    ensures Folded(names, e, e) == names
  {
  }

  lemma GatheredMore(names: Names, canonical: string, front: seq<string>, m: string)
    ensures Gathered(names, canonical, front + [m]) ==
            Gathered(names, canonical, front) + if m == canonical || m in front then [] else NamesAt(names, m)
  {
    assert (front + [m])[..|front|] == front;
  }

  lemma SettledStep(before: Names, mid: Names, after: Names, merges: Merges, done: set<string>, c: string)
    requires Settled(before, mid, merges, done) && c in merges && c !in done && FoldsInto(mid, after, c, merges[c])
    ensures Settled(before, after, merges, done + {c})
  {
    hide Gathered, Taken, NamesAt, Separate;
    forall e | e !in merges
      ensures NamesAt(after, e) == if Taken(merges, done + {c}, e) then [] else NamesAt(before, e)
    {
      TakenOne(merges, done, c, e);
    }
    if Separate(merges) {
      forall m | m in merges[c] ensures NamesAt(mid, m) == NamesAt(before, m) {
        SeparateUntaken(merges, done, c, m);
        NothingAdded(before, m);
      }
      GatheredSame(before, mid, c, merges[c]);
      NothingAdded(before, c);
      forall d | d in merges
        ensures NamesAt(after, d) ==
                NamesAt(before, d) + if d in done + {c} then Gathered(before, d, merges[d]) else []
      {
        if d != c {
          SeparateKeys(merges, c, d);
        }
      }
    }
  }

  lemma NothingAdded(names: Names, e: string)
    ensures NamesAt(names, e) + [] == NamesAt(names, e)
  {
  }

  lemma SeparateKeys(merges: Merges, c: string, d: string)
    requires Separate(merges) && c in merges && d in merges && c != d
    ensures d !in merges[c]
  {
  }

  lemma TakenOne(merges: Merges, done: set<string>, c: string, e: string)
    requires c in merges
    ensures Taken(merges, done + {c}, e) <==> Taken(merges, done, e) || (e != c && e in merges[c])
  {
    if e != c && e in merges[c] {
      assert c in done + {c};
    }
    if Taken(merges, done, e) {
      var d :| d in done && d in merges && e != d && e in merges[d];
      assert d in done + {c};
    }
  }

  lemma SeparateUntaken(merges: Merges, done: set<string>, c: string, m: string)
    requires Separate(merges) && c in merges && c !in done && m in merges[c]
    ensures !Taken(merges, done, m) && (m in merges ==> m == c)
  {
  }

  class Index {
    var names: Names
    var centroids: map<string, Vector>
    const normalize: Vector -> Vector
    const usable: Vector -> bool

    constructor (normalize: Vector -> Vector, usable: Vector -> bool)
      ensures names == map[] && centroids == map[]
    {
      names, centroids := map[], map[];
      this.normalize, this.usable := normalize, usable;
    }

    /** Folds the members into the canonical: names move over, centroids are dropped. */
    method FoldMembers(canonical: string, members: seq<string>)
      modifies `names, `centroids
      ensures AllNames(names) == AllNames(old(names)) && FoldsInto(old(names), names, canonical, members)
      ensures forall e :: e in centroids <==> e in old(centroids) && (e == canonical || e !in members)
      ensures forall e :: e in centroids && e in old(centroids) ==> centroids[e] == old(centroids)[e]
      ensures forall e :: e in names && e != canonical ==> e !in members
    {
      hide AllNames, FoldsInto;
      FoldsNone(names, canonical);
      assert members[..0] == [];
      for i := 0 to |members|
        invariant AllNames(names) == AllNames(old(names)) && FoldsInto(old(names), names, canonical, members[..i])
        invariant forall e :: e in centroids <==> e in old(centroids) && (e == canonical || e !in members[..i])
        invariant forall e :: e in centroids && e in old(centroids) ==> centroids[e] == old(centroids)[e]
        invariant forall e :: e in names && e != canonical ==> e !in members[..i]
      {
        var m := members[i];
        assert members[..i + 1] == members[..i] + [m];
        FoldsMore(old(names), names, canonical, members[..i], m);
        if m == canonical {
          continue;
        }
        FoldConserves(names, canonical, m);
        ghost var folded := Folded(names, canonical, m);
        var moved := NamesAt(names, m);
        if |moved| > 0 {
          names := names[canonical := NamesAt(names, canonical) + moved];
        }
        names := names - {m};
        centroids := centroids - {m};
        assert names == folded;
      }
      assert members[..|members|] == members;
    }

    /** The centroid that a merge writes for an entity, if it writes one. */
    predicate Rewritten(newCentroids: map<string, Vector>, e: string) {
      e in newCentroids && usable(normalize(newCentroids[e]))
    }

    /** Folds every merge, in any order; a centroid is left exactly when its entity was not taken in. */
    method FoldMerges(merges: Merges)
      modifies `names, `centroids
      ensures AllNames(names) == AllNames(old(names)) && Settled(old(names), names, merges, merges.Keys)
      ensures forall e :: e in centroids <==> e in old(centroids) && !Taken(merges, merges.Keys, e)
      ensures forall e :: e in centroids ==> centroids[e] == old(centroids)[e]
    {
      hide AllNames, Settled, FoldsInto;
      var todo := merges.Keys;
      SettledStart(names, merges);
      assert merges.Keys - todo == {};
      while todo != {}
        invariant todo <= merges.Keys && AllNames(names) == AllNames(old(names))
        invariant Settled(old(names), names, merges, merges.Keys - todo)
        invariant forall e :: e in centroids <==> e in old(centroids) && !Taken(merges, merges.Keys - todo, e)
        invariant forall e :: e in centroids ==> centroids[e] == old(centroids)[e]
        decreases todo
      {
        hide Taken;
        var canonical :| canonical in todo;
        ghost var mid, done := names, merges.Keys - todo;
        FoldMembers(canonical, merges[canonical]);
        SettledStep(old(names), mid, names, merges, done, canonical);
        forall e
          ensures Taken(merges, done + {canonical}, e) <==>
                  Taken(merges, done, e) || (e != canonical && e in merges[canonical])
        {
          TakenOne(merges, done, canonical, e);
        }
        assert done + {canonical} == merges.Keys - (todo - {canonical});
        todo := todo - {canonical};
      }
      assert merges.Keys - todo == merges.Keys;
    }

    /** Writes the recomputed centroids that are usable, in any order. */
    method WriteCentroids(newCentroids: map<string, Vector>)
      modifies `centroids
      ensures forall e :: e in centroids <==> e in old(centroids) || Rewritten(newCentroids, e)
      ensures forall e :: e in centroids ==>
                            centroids[e] == if Rewritten(newCentroids, e) then normalize(newCentroids[e])
                                            else old(centroids)[e]
    {
      var left := newCentroids.Keys;
      while left != {}
        invariant left <= newCentroids.Keys
        invariant forall e :: e in centroids <==> e in old(centroids) || (e !in left && Rewritten(newCentroids, e))
        invariant forall e :: e in centroids ==>
                                centroids[e] == if e !in left && Rewritten(newCentroids, e)
                                                then normalize(newCentroids[e]) else old(centroids)[e]
        decreases left
      {
        var entity :| entity in left;
        var fine := normalize(newCentroids[entity]);
        if usable(fine) {
          centroids := centroids[entity := fine];
        }
        left := left - {entity};
      }
    }

    /**
     Folds the merges and writes the recomputed centroids. A centroid is left exactly when it was
     recomputed, or was there and its entity was not taken in.
     */
    method ApplyMerges(merges: Merges, newCentroids: map<string, Vector>)
      modifies `names, `centroids
      ensures AllNames(names) == AllNames(old(names)) && Settled(old(names), names, merges, merges.Keys)
      ensures forall e :: e in centroids <==>
                            Rewritten(newCentroids, e) || (e in old(centroids) && !Taken(merges, merges.Keys, e))
      ensures forall e :: e in centroids ==>
                            centroids[e] == if Rewritten(newCentroids, e) then normalize(newCentroids[e])
                                            else old(centroids)[e]
    {
      hide AllNames, Settled, Taken, Rewritten;
      FoldMerges(merges);
      WriteCentroids(newCentroids);
    }
  }
}
