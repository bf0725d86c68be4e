/**
 A repair round on the resolver's own graphs: every entity is scored against its neighbours, the edges
 are clustered and folded, and the memo of graphs gives up the entities that changed. `ScoresOnce` says
 that without ties and rivals the scores, and with them the round, do not depend on the order of any
 claims. `RepairOnce` says exactly when a round, also one that stops on an error, leaves the memo current.
 */
module RepairGraphs {
  import opened Ordering
  import opened Ledger
  import opened Merging
  import opened Resolution
  import opened Evidence
  import opened IdDiff
  import opened CompareOrder
  import opened EntityGraphs
  import R = Repair
  import Linkage

  type Recall = string -> seq<string>

  /** The index recalls entities of the ledger only. */
  ghost predicate Recalls(recalled: Recall, claims: Claims) {
    forall e, f :: f in recalled(e) ==> f == "" || f in claims
  }

  /** The scores of an entity: the edges to its neighbours, from some graphs of all of them. */
  ghost predicate ScoresFrom(split: Splitter, o: Ontology, p: Params, claims: Claims, recalled: Recall, e: string,
                             subject: seq<Claim>, graph: string -> seq<Claim>, ordered: seq<string>) {
    && Graph(split, o, Held(claims, e), subject) && Sorted(ordered)
    && Found(split, claims, subject, recalled(e), Elements(ordered))
    && Graphs(split, o, claims, Elements(ordered), graph)
  }

  ghost predicate ScoresOf(split: Splitter, o: Ontology, p: Params, claims: Claims, recalled: Recall,
                           entities: seq<string>, scored: seq<R.Scored>)
    decreases |entities|
  {
    if entities == [] then scored == []
    else
      var e := entities[|entities| - 1];
      exists front, subject, graph, ordered ::
        && ScoresOf(split, o, p, claims, recalled, entities[..|entities| - 1], front)
        && ScoresFrom(split, o, p, claims, recalled, e, subject, graph, ordered)
        && scored == front + EdgesTo(p, e, subject, graph, ordered)
  }

  /** Scores every entity against its neighbours. */
  method RoundScores(m: Matcher, p: Params, recalled: Recall, entities: seq<string>) returns (scored: seq<R.Scored>)
    requires m.Valid() && Sane(p)
    modifies m`entityClaims
    ensures m.Valid()
    ensures ScoresOf(m.service.ledger.split, m.ontology, p, m.service.ledger.claims, recalled, entities, scored)
  {
    hide Sane, ScoresOf, ScoresFrom, Graph, Found, Graphs, MemoOk, CountsOk, DfOk, IdentOk, EdgesTo, Sorted;
    scored := [];
    ghost var split, o, claims := m.service.ledger.split, m.ontology, m.service.ledger.claims;
    NoScores(split, o, p, claims, recalled);
    assert entities[..0] == [];
    for i := 0 to |entities|
      invariant m.Valid() && ScoresOf(split, o, p, claims, recalled, entities[..i], scored)
    {
      var e := entities[i];
      var edges;
      ghost var subject, graph, ordered;
      edges, subject, graph, ordered := m.ScoreEdges(p, e, recalled(e));
      ScoredFrom(split, o, p, claims, recalled, e, subject, graph, ordered);
      ScoresMore(split, o, p, claims, recalled, entities[..i], scored, e, subject, graph, ordered);
      assert entities[..i + 1] == entities[..i] + [e];
      scored := scored + edges;
    }
    assert entities[..|entities|] == entities;
  }

  lemma NoScores(split: Splitter, o: Ontology, p: Params, claims: Claims, recalled: Recall)
    ensures ScoresOf(split, o, p, claims, recalled, [], [])
  {
  }

  lemma ScoresMore(split: Splitter, o: Ontology, p: Params, claims: Claims, recalled: Recall, entities: seq<string>,
                   scored: seq<R.Scored>, e: string, subject: seq<Claim>, graph: string -> seq<Claim>,
                   ordered: seq<string>)
    requires ScoresOf(split, o, p, claims, recalled, entities, scored)
    requires ScoresFrom(split, o, p, claims, recalled, e, subject, graph, ordered)
    ensures ScoresOf(split, o, p, claims, recalled, entities + [e], scored + EdgesTo(p, e, subject, graph, ordered))
  {
    hide ScoresFrom, EdgesTo;
    var longer := entities + [e];
    assert longer[..|longer| - 1] == entities && longer[|longer| - 1] == e;
    assert ScoresOf(split, o, p, claims, recalled, longer[..|longer| - 1], scored);
  }

  lemma ScoredFrom(split: Splitter, o: Ontology, p: Params, claims: Claims, recalled: Recall, e: string,
                   subject: seq<Claim>, graph: string -> seq<Claim>, ordered: seq<string>)
    requires Graph(split, o, Held(claims, e), subject) && Sorted(ordered)
    requires Found(split, claims, subject, recalled(e), Elements(ordered))
    requires Graphs(split, o, claims, Elements(ordered), graph)
    ensures ScoresFrom(split, o, p, claims, recalled, e, subject, graph, ordered)
  {
  }

  // -------------------------------------------------------------------------------------------
  // Scores without an order
  // -------------------------------------------------------------------------------------------

  /** No two entities have tied or rival name tokens. */
  ghost predicate Unequivocal(split: Splitter, o: Ontology, p: Params, claims: Claims) {
    forall e, f, a, b :: e != f && Graph(split, o, Held(claims, e), a) && Graph(split, o, Held(claims, f), b) ==>
      TieFree(p, a, b) && RivalFree(p, a, b)
  }

  lemma SharesSame(split: Splitter, claims: Claims, e: string, v: seq<Claim>, w: seq<Claim>)
    requires forall c :: c in v ==> c in w
    requires Shares(split, claims, e, PairsOf(v))
    ensures Shares(split, claims, e, PairsOf(w))
  {
    hide SharesAt;
    var i, h :| 0 <= i < |v| && SharesAt(split, Held(claims, e), h, PairsOf(v)[i]);
    assert v[i] in v;
    var j :| 0 <= j < |w| && w[j] == v[i];
    assert PairsOf(w)[j] == PairsOf(v)[i];
  }

  lemma FoundSame(split: Splitter, claims: Claims, v: seq<Claim>, w: seq<Claim>, recalled: seq<string>, x: set<string>,
                  y: set<string>)
    requires multiset(v) == multiset(w)
    requires Found(split, claims, v, recalled, x) && Found(split, claims, w, recalled, y)
    ensures x == y
  {
    hide Shares;
    SameElements(v, w);
    forall e ensures e in x <==> e in y {
      if Shares(split, claims, e, PairsOf(v)) {
        SharesSame(split, claims, e, v, w);
      }
      if Shares(split, claims, e, PairsOf(w)) {
        SharesSame(split, claims, e, w, v);
      }
    }
  }

  lemma EdgesOnce(split: Splitter, o: Ontology, p: Params, claims: Claims, recalled: Recall, e: string,
                  a: seq<Claim>, g: string -> seq<Claim>, fs: seq<string>,
                  v: seq<Claim>, h: string -> seq<Claim>, gs: seq<string>)
    requires Unequivocal(split, o, p, claims)
    requires ScoresFrom(split, o, p, claims, recalled, e, a, g, fs)
    requires ScoresFrom(split, o, p, claims, recalled, e, v, h, gs)
    ensures EdgesTo(p, e, a, g, fs) == EdgesTo(p, e, v, h, gs)
  {
    hide Graph, Found, TieFree, RivalFree, Sorted, EdgesTo;
    GraphsPermute(split, o, Held(claims, e), a, v);
    FoundSame(split, claims, a, v, recalled(e), Elements(fs), Elements(gs));
    SortedUnique(fs, gs);
    forall f | f in fs
      ensures Graph(split, o, Held(claims, f), g(f)) && Graph(split, o, Held(claims, f), h(f))
      ensures f != e ==> TieFree(p, a, g(f)) && RivalFree(p, a, g(f))
    {
      assert f in Elements(fs) && f in Elements(gs);
    }
    EdgesSteady(split, o, p, claims, e, a, g, v, h, fs);
  }

  /** Without ties and rivals a round has one list of scores, whatever order any claims come in. */
  lemma {:induction false} ScoresOnce(split: Splitter, o: Ontology, p: Params, claims: Claims, recalled: Recall,
                                      entities: seq<string>, x: seq<R.Scored>, y: seq<R.Scored>)
    requires Unequivocal(split, o, p, claims)
    requires ScoresOf(split, o, p, claims, recalled, entities, x)
    requires ScoresOf(split, o, p, claims, recalled, entities, y)
    ensures x == y
    decreases |entities|
  {
    hide Unequivocal, ScoresFrom, EdgesTo;
    if entities != [] {
      var n := |entities| - 1;
      var e := entities[n];
      var front, a, g, fs :|
        && ScoresOf(split, o, p, claims, recalled, entities[..n], front)
        && ScoresFrom(split, o, p, claims, recalled, e, a, g, fs) && x == front + EdgesTo(p, e, a, g, fs);
      var front', v, h, gs :|
        && ScoresOf(split, o, p, claims, recalled, entities[..n], front')
        && ScoresFrom(split, o, p, claims, recalled, e, v, h, gs) && y == front' + EdgesTo(p, e, v, h, gs);
      ScoresOnce(split, o, p, claims, recalled, entities[..n], front, front');
      EdgesOnce(split, o, p, claims, recalled, e, a, g, fs, v, h, gs);
    }
  }

  // -------------------------------------------------------------------------------------------
  // The memo after a round
  // -------------------------------------------------------------------------------------------

  /** The same hashes, each scored as it was. */
  ghost predicate ScoredAlike(split: Splitter, o: Ontology, before: ClaimSet, after: ClaimSet) {
    && after.Keys == before.Keys
    && forall h :: h in before && h in after ==>
         ScoredOf(split, o, h, before[h]) == ScoredOf(split, o, h, after[h])
  }

  /** A graph stays one exactly as long as every claim of the entity scores as it did. */
  lemma LeftCurrentExactly(split: Splitter, o: Ontology, before: ClaimSet, after: ClaimSet, cs: seq<Claim>)
    requires Graph(split, o, before, cs)
    ensures Graph(split, o, after, cs) <==> ScoredAlike(split, o, before, after)
  {
    forall h | h in before ensures ScoredOf(split, o, h, before[h]).hash == h {
      HashKept(split, o, h, before[h]);
    }
    forall h | h in after ensures ScoredOf(split, o, h, after[h]).hash == h {
      HashKept(split, o, h, after[h]);
    }
    hide ScoredOf;
    if Graph(split, o, after, cs) {
      forall h ensures h in before <==> h in after {
        if h in before {
          assert ScoredOf(split, o, h, before[h]) in cs;
        }
        if h in after {
          assert ScoredOf(split, o, h, after[h]) in cs;
        }
      }
      forall h | h in before && h in after ensures ScoredOf(split, o, h, before[h]) == ScoredOf(split, o, h, after[h]) {
        var c := ScoredOf(split, o, h, before[h]);
        assert c in cs;
      }
    }
  }

  /** A canonical that takes in a hash it lacked outgrows the graph it had. */
  lemma OutgrowsMemo(split: Splitter, o: Ontology, claims: Claims, assign: Assignment, after: Claims, member: string,
                     h: string, cs: seq<Claim>)
    requires Flat(claims, assign) && Merged(claims, assign, assign.Keys, after) && member in assign
    requires Holds(claims, member, h) && !Holds(claims, assign[member], h)
    requires Graph(split, o, Held(claims, assign[member]), cs)
    ensures !Graph(split, o, Held(after, assign[member]), cs)
  {
    hide Graph, Entry;
    var c := assign[member];
    assert c in after.Keys;
    assert Describes(claims, assign, assign.Keys, c, after[c]);
    assert InGroup(assign, assign.Keys, c, member) && Holds(claims, member, h);
    LeftCurrentExactly(split, o, Held(claims, c), Held(after, c), cs);
    assert h in Held(after, c).Keys && h !in Held(claims, c).Keys;
  }

  function Canonicals(assign: Assignment): set<string> {
    set m | m in assign :: assign[m]
  }

  /** Entities that take no part in the merges keep the graphs they had. */
  lemma OthersCurrent(split: Splitter, o: Ontology, claims: Claims, assign: Assignment, after: Claims, e: string,
                      cs: seq<Claim>)
    requires Flat(claims, assign) && Merged(claims, assign, assign.Keys, after)
    requires e !in assign && e !in Canonicals(assign) && Graph(split, o, Held(claims, e), cs)
    ensures Graph(split, o, Held(after, e), cs)
  {
    hide Graph;
    if e in claims {
      forall m | m in assign ensures assign[m] != e {
        assert assign[m] in Canonicals(assign);
      }
      Bystander(claims, assign, after, e);
    } else {
      assert e !in after.Keys;
    }
  }

  /** What comes after the first canonical whose centroid cannot be pooled. */
  ghost function Unreached(order: seq<string>, poolFails: string -> bool): set<string> {
    if order == [] then {}
    else if poolFails(order[0]) then Elements(order[1..])
    else Unreached(order[1..], poolFails)
  }

  lemma {:induction false} ReachedTo(order: seq<string>, poolFails: string -> bool, i: nat)
    requires i <= |order| && forall k :: 0 <= k < i ==> !poolFails(order[k])
    ensures Unreached(order, poolFails) == Unreached(order[i..], poolFails)
    decreases i
  {
    if i > 0 {
      ReachedTo(order[1..], poolFails, i - 1);
      assert order[1..][i - 1..] == order[i..];
    } else {
      assert order[0..] == order;
    }
  }

  /**
   Drops the graphs of the members, then that of each canonical, in some order, before pooling its new
   centroid; the first failure to pool ends it.
   */
  method DropMerged(m: Matcher, assign: Assignment, order: seq<string>, poolFails: string -> bool)
    returns (ok: bool)
    requires Distinct(order) && Elements(order) == Canonicals(assign)
    modifies m`entityClaims
    ensures ok <==> forall c :: c in order ==> !poolFails(c)
    ensures ok ==> Unreached(order, poolFails) == {}
    ensures m.entityClaims == old(m.entityClaims) - assign.Keys - (Elements(order) - Unreached(order, poolFails))
  {
    m.entityClaims := m.entityClaims - assign.Keys;
    for i := 0 to |order|
      invariant forall k :: 0 <= k < i ==> !poolFails(order[k])
      invariant m.entityClaims == old(m.entityClaims) - assign.Keys - Elements(order[..i])
    {
      var c := order[i];
      assert Elements(order[..i + 1]) == Elements(order[..i]) + {c} by {
        assert order[..i + 1] == order[..i] + [c];
      }
      m.entityClaims := m.entityClaims - {c};
      if poolFails(c) {
        ReachedTo(order, poolFails, i);
        assert order[i..][0] == c && order[i..][1..] == order[i + 1..];
        SplitElements(order, i + 1);
        return false;
      }
    }
    ReachedTo(order, poolFails, |order|);
    assert order[..|order|] == order;
    ok := true;
  }

  lemma SplitElements(order: seq<string>, i: nat)
    requires i <= |order| && Distinct(order)
    ensures Elements(order[..i]) == Elements(order) - Elements(order[i..])
  {
    assert order == order[..i] + order[i..];
  }

  // -------------------------------------------------------------------------------------------
  // One round
  // -------------------------------------------------------------------------------------------

  lemma {:induction false} EdgesName(p: Params, e: string, subject: seq<Claim>, graph: string -> seq<Claim>,
                                     fs: seq<string>, entities: set<string>)
    requires e in entities && forall f :: f in fs ==> f in entities
    ensures R.Names(EdgesTo(p, e, subject, graph, fs), entities)
    decreases |fs|
  {
    hide Compare;
    if fs != [] {
      EdgesName(p, e, subject, graph, fs[..|fs| - 1], entities);
    }
  }

  lemma SharesKnown(split: Splitter, claims: Claims, e: string, pairs: seq<(string, string)>)
    requires Shares(split, claims, e, pairs)
    ensures e in claims
  {
  }

  /** Only entities of the ledger are scored. */
  lemma {:induction false} ScoresName(split: Splitter, o: Ontology, p: Params, claims: Claims, recalled: Recall,
                                      entities: seq<string>, scored: seq<R.Scored>)
    requires ScoresOf(split, o, p, claims, recalled, entities, scored) && Recalls(recalled, claims)
    requires forall e :: e in entities ==> e in claims
    ensures R.Names(scored, claims.Keys)
    decreases |entities|
  {
    hide EdgesTo, Graph, Graphs, Sorted, Shares;
    if entities != [] {
      var n := |entities| - 1;
      var e := entities[n];
      var front, a, g, fs :|
        && ScoresOf(split, o, p, claims, recalled, entities[..n], front)
        && ScoresFrom(split, o, p, claims, recalled, e, a, g, fs) && scored == front + EdgesTo(p, e, a, g, fs);
      ScoresName(split, o, p, claims, recalled, entities[..n], front);
      forall f | f in fs ensures f in claims.Keys {
        assert f in Elements(fs);
        if f !in recalled(e) {
          SharesKnown(split, claims, f, PairsOf(a));
        }
      }
      assert e in entities;
      EdgesName(p, e, a, g, fs, claims.Keys);
    }
  }

  /** The memo after a round: what was dropped is gone, the rest is as it was. */
  ghost predicate Left(memo: map<string, seq<Claim>>, assign: Assignment, left: set<string>,
                       kept: map<string, seq<Claim>>) {
    kept == memo - assign.Keys - (Canonicals(assign) - left)
  }

  /** The memo is current if and only if all that was left of canonicals still scores as it did. */
  lemma MemoAfterExactly(split: Splitter, o: Ontology, claims: Claims, assign: Assignment, after: Claims,
                         memo: map<string, seq<Claim>>, left: set<string>, kept: map<string, seq<Claim>>)
    requires Flat(claims, assign) && Merged(claims, assign, assign.Keys, after)
    requires forall e :: e in memo ==> Graph(split, o, Held(claims, e), memo[e])
    requires left <= Canonicals(assign) && Left(memo, assign, left, kept)
    ensures (forall e :: e in kept ==> Graph(split, o, Held(after, e), kept[e])) <==>
            (forall e :: e in left && e in kept ==> ScoredAlike(split, o, Held(claims, e), Held(after, e)))
  {
    hide Graph, Flat, Merged, Canonicals, ScoredAlike;
    forall e | e in kept
      ensures e !in left ==> Graph(split, o, Held(after, e), kept[e])
      ensures e in left ==>
                (Graph(split, o, Held(after, e), kept[e]) <==> ScoredAlike(split, o, Held(claims, e), Held(after, e)))
    {
      assert e in memo.Keys && e !in assign.Keys && kept[e] == memo[e];
      if e !in left {
        assert e !in Canonicals(assign);
        OthersCurrent(split, o, claims, assign, after, e, kept[e]);
      } else {
        LeftCurrentExactly(split, o, Held(claims, e), Held(after, e), kept[e]);
      }
    }
  }

  /**
   One round on the resolver's own graphs. The scores come from graphs of what the ledger holds; the
   clusters and the fold are those of the scores. Whether pooling fails or not, every memoized graph is
   current if and only if no canonical that was not reached has changed; `memo` is the memo that the
   scoring left.
   */
  method RepairOnce(m: Matcher, p: Params, threshold: real, recalled: Recall, listing: set<string> -> seq<string>,
                    poolFails: string -> bool)
    returns (ok: bool, merges: nat, clusters: nat, ghost c: Linkage.Partition, ghost scored: seq<R.Scored>,
             ghost memo: map<string, seq<Claim>>)
    requires m.Valid() && Sane(p) && Recalls(recalled, m.service.ledger.claims)
    requires forall es :: Distinct(listing(es)) && Elements(listing(es)) == es
    modifies m, m.service, m.service.ledger
    ensures m.service.Valid() && (ok ==> m.Valid())
    ensures var split, before, after := m.service.ledger.split, old(m.service.ledger.claims), m.service.ledger.claims;
            && (exists ids :: Sorted(ids) && Elements(ids) == before.Keys &&
                  ScoresOf(split, m.ontology, p, before, recalled, ids, scored))
            && R.RoundPartition(before.Keys, scored, threshold, c)
            && Merged(before, R.AssignmentOf(c), R.AssignmentOf(c).Keys, after)
    ensures var split, before, after := m.service.ledger.split, old(m.service.ledger.claims), m.service.ledger.claims;
            var left := Unreached(listing(Canonicals(R.AssignmentOf(c))), poolFails);
            && (ok <==> forall e :: e in Canonicals(R.AssignmentOf(c)) ==> !poolFails(e))
            && (forall e :: e in memo ==> Graph(split, m.ontology, Held(before, e), memo[e]))
            && Left(memo, R.AssignmentOf(c), left, m.entityClaims)
            && (m.Current() <==>
                forall e :: e in left && e in m.entityClaims ==>
                  ScoredAlike(split, m.ontology, Held(before, e), Held(after, e)))
  {
    hide Sane, ScoresOf, Graph, Recalls, MemoOk, CountsOk, DfOk, IdentOk, Sorted, R.RoundPartition, Merged, Flat,
         R.AssignmentOf, Canonicals, R.Names, Repointed, ScoredAlike, Unreached;
    ghost var split, o, before := m.service.ledger.split, m.ontology, m.service.ledger.claims;
    var ids := R.EntityIDs(m.service.ledger);
    var all := RoundScores(m, p, recalled, ids);
    scored := all;
    forall e | e in ids ensures e in before {
      assert e in Elements(ids);
    }
    ScoresName(split, o, p, before, recalled, ids, all);
    memo := m.entityClaims;
    var assign;
    merges, clusters, assign, c := R.RepairRound(m.service, all, threshold);
    var order := listing(Canonicals(assign));
    ok := DropMerged(m, assign, order, poolFails);
    ghost var left := Unreached(order, poolFails);
    UnreachedWithin(order, poolFails);
    forall e ensures e in order <==> e in Canonicals(assign) {
      assert e in order <==> e in Elements(order);
    }
    MemoAfterExactly(split, o, before, assign, m.service.ledger.claims, memo, left, m.entityClaims);
  }

  lemma {:induction false} UnreachedWithin(order: seq<string>, poolFails: string -> bool)
    ensures Unreached(order, poolFails) <= Elements(order)
  {
    if order != [] {
      UnreachedWithin(order[1..], poolFails);
      assert order == [order[0]] + order[1..];
    }
  }
}
