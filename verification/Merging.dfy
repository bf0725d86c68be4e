/**
 Folding member entities onto their canonicals: what the claim sets are after any subset of the
 members has been folded, in any order, and exactly when the order shows.
 */
module Merging {
  import opened Ordering
  import opened Ledger

  type Assignment = map<string, string>

  /** A member's entries replace the canonical's, with the joined interval where both hold the hash. */
  function MergeInto(canon: ClaimSet, member: ClaimSet): ClaimSet {
    map h | h in canon.Keys + member.Keys ::
      if h !in member then canon[h]
      else if h !in canon then member[h]
      else Joined(canon[h], member[h])
  }

  function Joined(held: ClaimEntry, entry: ClaimEntry): ClaimEntry {
    ClaimEntry(entry.text, EarlierBound(held.validFrom, entry.validFrom), LaterBound(held.validUntil, entry.validUntil))
  }

  /** Folds one member onto its canonical and drops it. */
  function FoldOne(claims: Claims, assign: Assignment, m: string): Claims
    requires m in assign
  {
    claims[assign[m] := MergeInto(Held(claims, assign[m]), Held(claims, m))] - {m}
  }

  ghost predicate IsOrder(assign: Assignment, order: seq<string>) {
    Distinct(order) && Elements(order) == assign.Keys
  }

  ghost predicate Within(assign: Assignment, order: seq<string>) {
    forall i :: 0 <= i < |order| ==> order[i] in assign
  }

  function FoldAll(claims: Claims, assign: Assignment, order: seq<string>): Claims
    requires Within(assign, order)
  {
    if order == [] then claims
    else FoldOne(FoldAll(claims, assign, order[..|order| - 1]), assign, order[|order| - 1])
  }

  /** Members and canonicals are entities, and no canonical is itself a member. */
  ghost predicate Flat(claims: Claims, assign: Assignment) {
    forall m {:trigger assign[m]} :: m in assign ==> m in claims && assign[m] in claims && assign[m] !in assign
  }

  // -------------------------------------------------------------------------------------------
  // What folding a set of members amounts to
  // -------------------------------------------------------------------------------------------

  ghost predicate Holds(claims: Claims, x: string, h: string) {
    x in claims && h in claims[x]
  }

  /** `x` is a member already folded onto `e`. */
  ghost predicate Folded(assign: Assignment, done: set<string>, e: string, x: string) {
    x in done && x in assign && assign[x] == e
  }

  ghost predicate InGroup(assign: Assignment, done: set<string>, e: string, x: string) {
    x == e || Folded(assign, done, e, x)
  }

  /** The entry for `h` spans the whole group and takes its text from a folded member if one holds `h`. */
  ghost predicate Entry(claims: Claims, assign: Assignment, done: set<string>, e: string, h: string,
                        entry: ClaimEntry) {
    && (exists x :: InGroup(assign, done, e, x) && Holds(claims, x, h) && claims[x][h].validFrom == entry.validFrom)
    && (exists x :: InGroup(assign, done, e, x) && Holds(claims, x, h) && claims[x][h].validUntil == entry.validUntil)
    && (forall x :: InGroup(assign, done, e, x) && Holds(claims, x, h) ==>
          StartsBy(entry.validFrom, claims[x][h].validFrom) && EndsBy(entry.validUntil, claims[x][h].validUntil))
    && (if exists x :: Folded(assign, done, e, x) && Holds(claims, x, h)
        then exists x :: Folded(assign, done, e, x) && Holds(claims, x, h) && claims[x][h].text == entry.text
        else Holds(claims, e, h) && claims[e][h].text == entry.text)
  }

  ghost predicate Describes(claims: Claims, assign: Assignment, done: set<string>, e: string, held: ClaimSet) {
    forall h ::
      && (h in held <==> exists x :: InGroup(assign, done, e, x) && Holds(claims, x, h))
      && (h in held ==> Entry(claims, assign, done, e, h, held[h]))
  }

  /** `after` is `claims` with the members in `done` folded onto their canonicals. */
  ghost predicate Merged(claims: Claims, assign: Assignment, done: set<string>, after: Claims) {
    && after.Keys == claims.Keys - done
    && forall e :: e in after ==> Describes(claims, assign, done, e, after[e])
  }

  lemma MergedStart(claims: Claims, assign: Assignment)
    ensures Merged(claims, assign, {}, claims)
  {
    forall e | e in claims ensures Describes(claims, assign, {}, e, claims[e]) {
      forall h
        ensures h in claims[e] <==> exists x :: InGroup(assign, {}, e, x) && Holds(claims, x, h)
        ensures h in claims[e] ==> Entry(claims, assign, {}, e, h, claims[e][h])
      {
        if h in claims[e] {
          assert InGroup(assign, {}, e, e) && Holds(claims, e, h);
          LessIrreflexive(claims[e][h].validFrom);
          LessIrreflexive(claims[e][h].validUntil);
        }
      }
    }
  }

  lemma EntryAlone(claims: Claims, assign: Assignment, done: set<string>, e: string, h: string, entry: ClaimEntry)
    requires e in claims && Entry(claims, assign, done, e, h, entry)
    requires forall x :: !Folded(assign, done, e, x)
    ensures Holds(claims, e, h) && entry == claims[e][h]
  {
    var f :| InGroup(assign, done, e, f) && Holds(claims, f, h) && claims[f][h].validFrom == entry.validFrom;
    var u :| InGroup(assign, done, e, u) && Holds(claims, u, h) && claims[u][h].validUntil == entry.validUntil;
    assert f == e && u == e;
  }

  /** An entity nothing has been folded onto holds what it held. */
  lemma Alone(claims: Claims, assign: Assignment, done: set<string>, e: string, held: ClaimSet)
    requires e in claims && Describes(claims, assign, done, e, held)
    requires forall x :: !Folded(assign, done, e, x)
    ensures held == claims[e]
  {
    hide Entry;
    forall h ensures h in claims[e] ==> h in held {
      if h in claims[e] {
        assert InGroup(assign, done, e, e) && Holds(claims, e, h);
      }
    }
    forall h | h in held ensures h in claims[e] && held[h] == claims[e][h] {
      EntryAlone(claims, assign, done, e, h, held[h]);
    }
  }

  /** A member keeps its claims until it is folded itself. */
  lemma Untouched(claims: Claims, assign: Assignment, done: set<string>, after: Claims, m: string)
    requires Flat(claims, assign) && Merged(claims, assign, done, after) && m in assign && m !in done
    ensures m in after && after[m] == claims[m]
  {
    assert m in after.Keys;
    Alone(claims, assign, done, m, after[m]);
  }

  lemma GroupGrows(assign: Assignment, done: set<string>, m: string, e: string, x: string)
    requires m in assign
    ensures InGroup(assign, done + {m}, e, x) <==> InGroup(assign, done, e, x) || (x == m && e == assign[m])
    ensures Folded(assign, done + {m}, e, x) <==> Folded(assign, done, e, x) || (x == m && e == assign[m])
  {
  }

  /** A hash only the group so far held. */
  lemma EntryKept(claims: Claims, assign: Assignment, done: set<string>, m: string, e: string, h: string,
                  entry: ClaimEntry)
    requires m in assign && Entry(claims, assign, done, e, h, entry)
    requires e == assign[m] ==> !Holds(claims, m, h)
    ensures Entry(claims, assign, done + {m}, e, h, entry)
  {
    forall x
      ensures InGroup(assign, done + {m}, e, x) && Holds(claims, x, h) <==>
              InGroup(assign, done, e, x) && Holds(claims, x, h)
      ensures Folded(assign, done + {m}, e, x) && Holds(claims, x, h) <==>
              Folded(assign, done, e, x) && Holds(claims, x, h)
    {
      GroupGrows(assign, done, m, e, x);
    }
  }

  /** A hash only the new member holds. */
  lemma EntryNew(claims: Claims, assign: Assignment, done: set<string>, m: string, h: string)
    requires m in assign && Holds(claims, m, h)
    requires forall x :: InGroup(assign, done, assign[m], x) ==> !Holds(claims, x, h)
    ensures Entry(claims, assign, done + {m}, assign[m], h, claims[m][h])
  {
    var entry, e := claims[m][h], assign[m];
    LessIrreflexive(entry.validFrom);
    LessIrreflexive(entry.validUntil);
    assert InGroup(assign, done + {m}, e, m) && Folded(assign, done + {m}, e, m);
    forall x | InGroup(assign, done + {m}, e, x) && Holds(claims, x, h) ensures x == m {
      GroupGrows(assign, done, m, e, x);
    }
  }

  /** A hash both hold: the intervals join and the new member's text wins. */
  lemma EntryJoined(claims: Claims, assign: Assignment, done: set<string>, m: string, h: string, held: ClaimEntry)
    requires m in assign && Holds(claims, m, h) && Entry(claims, assign, done, assign[m], h, held)
    ensures Entry(claims, assign, done + {m}, assign[m], h, Joined(held, claims[m][h]))
  {
    var e, own := assign[m], claims[m][h];
    var entry := Joined(held, own);
    var done' := done + {m};
    BoundsJoin(held.validFrom, own.validFrom);
    BoundsJoin(held.validUntil, own.validUntil);
    assert InGroup(assign, done', e, m) && Folded(assign, done', e, m) && own.text == entry.text;
    var f :| InGroup(assign, done, e, f) && Holds(claims, f, h) && claims[f][h].validFrom == held.validFrom;
    var u :| InGroup(assign, done, e, u) && Holds(claims, u, h) && claims[u][h].validUntil == held.validUntil;
    assert InGroup(assign, done', e, f) && InGroup(assign, done', e, u);
    forall x | InGroup(assign, done', e, x) && Holds(claims, x, h)
      ensures StartsBy(entry.validFrom, claims[x][h].validFrom) && EndsBy(entry.validUntil, claims[x][h].validUntil)
    {
      GroupGrows(assign, done, m, e, x);
      if InGroup(assign, done, e, x) {
        BoundsTransitive(entry.validFrom, held.validFrom, claims[x][h].validFrom);
        BoundsTransitive(entry.validUntil, held.validUntil, claims[x][h].validUntil);
      }
    }
  }

  lemma HeldGrows(claims: Claims, assign: Assignment, done: set<string>, m: string, e: string, h: string)
    requires m in assign
    ensures (exists x :: InGroup(assign, done + {m}, e, x) && Holds(claims, x, h)) <==>
            || (exists x :: InGroup(assign, done, e, x) && Holds(claims, x, h))
            || (e == assign[m] && Holds(claims, m, h))
  {
    if x :| InGroup(assign, done + {m}, e, x) && Holds(claims, x, h) {
      GroupGrows(assign, done, m, e, x);
    }
    if x :| InGroup(assign, done, e, x) && Holds(claims, x, h) {
      GroupGrows(assign, done, m, e, x);
    }
    if e == assign[m] {
      GroupGrows(assign, done, m, e, m);
    }
  }

  /** The canonical of `m` after folding `m`. */
  lemma DescribesCanonical(claims: Claims, assign: Assignment, done: set<string>, m: string, held: ClaimSet,
                           own: ClaimSet)
    requires m in assign && m in claims && Describes(claims, assign, done, assign[m], held)
    requires own.Keys == claims[m].Keys && forall h :: h in own ==> own[h] == claims[m][h]
    ensures Describes(claims, assign, done + {m}, assign[m], MergeInto(held, own))
  {
    hide Entry, InGroup, Joined;
    var e, after := assign[m], MergeInto(held, own);
    assert after.Keys == held.Keys + own.Keys;
    forall h
      ensures h in after <==> exists x :: InGroup(assign, done + {m}, e, x) && Holds(claims, x, h)
      ensures h in after ==> Entry(claims, assign, done + {m}, e, h, after[h])
    {
      HeldGrows(claims, assign, done, m, e, h);
      assert h in own <==> Holds(claims, m, h);
      if h in own && h in held {
        EntryJoined(claims, assign, done, m, h, held[h]);
      } else if h in own {
        EntryNew(claims, assign, done, m, h);
      } else if h in held {
        EntryKept(claims, assign, done, m, e, h, held[h]);
      }
    }
  }

  lemma DescribesOther(claims: Claims, assign: Assignment, done: set<string>, m: string, e: string, held: ClaimSet)
    requires m in assign && e != assign[m] && Describes(claims, assign, done, e, held)
    ensures Describes(claims, assign, done + {m}, e, held)
  {
    hide Entry, InGroup;
    forall h
      ensures h in held <==> exists x :: InGroup(assign, done + {m}, e, x) && Holds(claims, x, h)
      ensures h in held ==> Entry(claims, assign, done + {m}, e, h, held[h])
    {
      HeldGrows(claims, assign, done, m, e, h);
      if h in held {
        EntryKept(claims, assign, done, m, e, h, held[h]);
      }
    }
  }

  /** One fold of the pass. */
  lemma FoldOneMerges(claims: Claims, assign: Assignment, done: set<string>, after: Claims, m: string)
    requires Flat(claims, assign) && Merged(claims, assign, done, after) && done <= assign.Keys
    requires m in assign && m !in done
    ensures Merged(claims, assign, done + {m}, FoldOne(after, assign, m))
  {
    hide Describes;
    var e, next := assign[m], FoldOne(after, assign, m);
    Untouched(claims, assign, done, after, m);
    assert e in claims.Keys - done;
    assert e in after;
    DescribesCanonical(claims, assign, done, m, after[e], after[m]);
    assert next.Keys == claims.Keys - (done + {m});
    forall x | x in next ensures Describes(claims, assign, done + {m}, x, next[x]) {
      if x != e {
        DescribesOther(claims, assign, done, m, x, after[x]);
      }
    }
  }

  /** Folding all members of an assignment, in any order, merges exactly the clusters. */
  lemma {:induction false} FoldAllMerges(claims: Claims, assign: Assignment, order: seq<string>)
    requires Flat(claims, assign) && Distinct(order) && Within(assign, order)
    ensures Merged(claims, assign, Elements(order), FoldAll(claims, assign, order))
  {
    hide Merged, FoldOne;
    if order == [] {
      assert Elements(order) == {};
      MergedStart(claims, assign);
    } else {
      var front, m := order[..|order| - 1], order[|order| - 1];
      FoldAllMerges(claims, assign, front);
      assert m !in Elements(front) && Elements(front) <= assign.Keys;
      FoldOneMerges(claims, assign, Elements(front), FoldAll(claims, assign, front), m);
      assert Elements(order) == Elements(front) + {m};
    }
  }

  // -------------------------------------------------------------------------------------------
  // What a merge conserves
  // -------------------------------------------------------------------------------------------

  /** Some entity holds `h`. */
  ghost predicate Somewhere(claims: Claims, h: string) {
    exists e :: Holds(claims, e, h)
  }

  /** The claim hashes over all entities are the same before and after. */
  lemma ConservesHashes(claims: Claims, assign: Assignment, after: Claims, h: string)
    requires Flat(claims, assign) && Merged(claims, assign, assign.Keys, after)
    ensures Somewhere(after, h) <==> Somewhere(claims, h)
  {
    if e :| Holds(after, e, h) {
      assert Describes(claims, assign, assign.Keys, e, after[e]);
    }
    if x :| Holds(claims, x, h) {
      var e := if x in assign then assign[x] else x;
      assert InGroup(assign, assign.Keys, e, x);
      assert e in after.Keys;
      assert Describes(claims, assign, assign.Keys, e, after[e]);
      assert Holds(after, e, h);
    }
  }

  lemma CountLeft<T>(all: set<T>, gone: set<T>)
    requires gone <= all
    ensures |all - gone| + |gone| == |all|
  {
  }

  /** Each merge removes exactly one entity. */
  lemma ConservesCount(claims: Claims, assign: Assignment, after: Claims)
    requires Flat(claims, assign) && Merged(claims, assign, assign.Keys, after)
    ensures |after.Keys| + |assign.Keys| == |claims.Keys|
  {
    hide Describes;
    forall m | m in assign.Keys ensures m in claims.Keys {
      var _ := assign[m];
    }
    CountLeft(claims.Keys, assign.Keys);
  }

  /** An entity that is neither member nor canonical keeps its claims. */
  lemma Bystander(claims: Claims, assign: Assignment, after: Claims, e: string)
    requires Flat(claims, assign) && Merged(claims, assign, assign.Keys, after)
    requires e in claims && e !in assign && forall m :: m in assign ==> assign[m] != e
    ensures e in after && after[e] == claims[e]
  {
    assert e in after.Keys;
    Alone(claims, assign, assign.Keys, e, after[e]);
  }

  // -------------------------------------------------------------------------------------------
  // When the order of the folds shows
  // -------------------------------------------------------------------------------------------

  /** Two members of one canonical that hold the same hash hold it with the same text. */
  ghost predicate TextsAgree(claims: Claims, assign: Assignment) {
    forall m, n, h :: m in assign && n in assign && Holds(claims, m, h) && Holds(claims, n, h) ==>
      (assign[m] == assign[n] ==> claims[m][h].text == claims[n][h].text)
  }

  lemma EntryUnique(claims: Claims, assign: Assignment, done: set<string>, e: string, h: string, a: ClaimEntry,
                    b: ClaimEntry)
    requires TextsAgree(claims, assign)
    requires Entry(claims, assign, done, e, h, a) && Entry(claims, assign, done, e, h, b)
    ensures a == b
  {
    BoundsAntisymmetric(a.validFrom, b.validFrom);
    BoundsAntisymmetric(a.validUntil, b.validUntil);
  }

  lemma DescribesUnique(claims: Claims, assign: Assignment, done: set<string>, e: string, a: ClaimSet, b: ClaimSet)
    requires TextsAgree(claims, assign)
    requires Describes(claims, assign, done, e, a) && Describes(claims, assign, done, e, b)
    ensures a == b
  {
    hide Entry, InGroup;
    assert forall h :: h in a <==> h in b;
    forall h | h in a ensures a[h] == b[h] {
      EntryUnique(claims, assign, done, e, h, a[h], b[h]);
    }
  }

  lemma MergedUnique(claims: Claims, assign: Assignment, done: set<string>, a: Claims, b: Claims)
    requires TextsAgree(claims, assign) && Merged(claims, assign, done, a) && Merged(claims, assign, done, b)
    ensures a == b
  {
    hide Describes, TextsAgree;
    forall e | e in a ensures e in b && a[e] == b[e] {
      assert e in b.Keys;
      DescribesUnique(claims, assign, done, e, a[e], b[e]);
    }
    assert a.Keys == b.Keys;
  }

  /** The member folded last leaves its text. */
  lemma LastWins(claims: Claims, assign: Assignment, order: seq<string>, h: string)
    requires Flat(claims, assign) && IsOrder(assign, order) && Within(assign, order) && order != []
    requires Holds(claims, order[|order| - 1], h)
    ensures var m := order[|order| - 1];
            var after := FoldAll(claims, assign, order);
            assign[m] in after && h in after[assign[m]] && after[assign[m]][h].text == claims[m][h].text
  {
    var front, m := order[..|order| - 1], order[|order| - 1];
    FoldAllMerges(claims, assign, front);
    assert m !in Elements(front);
    Untouched(claims, assign, Elements(front), FoldAll(claims, assign, front), m);
  }

  ghost predicate SameForAllOrders(claims: Claims, assign: Assignment) {
    forall p, q :: IsOrder(assign, p) && Within(assign, p) && IsOrder(assign, q) && Within(assign, q) ==>
      FoldAll(claims, assign, p) == FoldAll(claims, assign, q)
  }

  /** Some order of a finite set that ends with `m`. */
  lemma {:induction false} OrderEnding(keys: set<string>, m: string) returns (order: seq<string>)
    requires m in keys
    ensures Distinct(order) && Elements(order) == keys && order != [] && order[|order| - 1] == m
    decreases |keys|
  {
    if keys == {m} {
      order := [m];
      assert Elements([m]) == {m};
    } else {
      var x :| x in keys && x != m;
      var rest := OrderEnding(keys - {x}, m);
      order := [x] + rest;
      assert x !in Elements(rest);
      assert Elements(order) == {x} + Elements(rest);
    }
  }

  lemma OrderWithin(assign: Assignment, order: seq<string>)
    requires IsOrder(assign, order)
    ensures Within(assign, order)
  {
    forall i | 0 <= i < |order| ensures order[i] in assign {
      assert order[i] in Elements(order);
    }
  }

  lemma AgreeingOrders(claims: Claims, assign: Assignment, p: seq<string>, q: seq<string>)
    requires Flat(claims, assign) && TextsAgree(claims, assign)
    requires IsOrder(assign, p) && Within(assign, p) && IsOrder(assign, q) && Within(assign, q)
    ensures FoldAll(claims, assign, p) == FoldAll(claims, assign, q)
  {
    hide FoldAll, Merged, TextsAgree, Flat;
    FoldAllMerges(claims, assign, p);
    FoldAllMerges(claims, assign, q);
    MergedUnique(claims, assign, assign.Keys, FoldAll(claims, assign, p), FoldAll(claims, assign, q));
  }

  lemma DisagreeingOrders(claims: Claims, assign: Assignment, m: string, n: string, h: string)
    returns (p: seq<string>, q: seq<string>)
    requires Flat(claims, assign) && m in assign && n in assign && assign[m] == assign[n]
    requires Holds(claims, m, h) && Holds(claims, n, h) && claims[m][h].text != claims[n][h].text
    ensures IsOrder(assign, p) && Within(assign, p) && IsOrder(assign, q) && Within(assign, q)
    ensures FoldAll(claims, assign, p) != FoldAll(claims, assign, q)
  {
    hide FoldAll, Flat;
    p := OrderEnding(assign.Keys, m);
    q := OrderEnding(assign.Keys, n);
    OrderWithin(assign, p);
    OrderWithin(assign, q);
    LastWins(claims, assign, p, h);
    LastWins(claims, assign, q, h);
  }

  /**
   The iteration order of the assignment map shows in the merged claims exactly when two members of
   one canonical hold one hash with different texts.
   */
  lemma OrderShowsOnlyInTexts(claims: Claims, assign: Assignment)
    requires Flat(claims, assign)
    ensures SameForAllOrders(claims, assign) <==> TextsAgree(claims, assign)
  {
    hide FoldAll, Flat;
    if TextsAgree(claims, assign) {
      forall p, q | IsOrder(assign, p) && Within(assign, p) && IsOrder(assign, q) && Within(assign, q)
        ensures FoldAll(claims, assign, p) == FoldAll(claims, assign, q)
      {
        AgreeingOrders(claims, assign, p, q);
      }
    } else {
      var m, n, h :| && m in assign && n in assign && Holds(claims, m, h) && Holds(claims, n, h)
                     && assign[m] == assign[n] && claims[m][h].text != claims[n][h].text;
      var p, q := DisagreeingOrders(claims, assign, m, n, h);
    }
  }
}
