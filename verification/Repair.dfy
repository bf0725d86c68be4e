/**
 The global repair pass: scored entity pairs become positive edges and cannot-links, the entities are
 clustered, and every cluster is folded onto its smallest entity, round after round.
 */
module Repair {
  import opened Options
  import opened Ordering
  import UnionFind
  import opened Linkage
  import opened Clustering
  import opened Ledger
  import opened Merging
  import opened Resolution

  // -------------------------------------------------------------------------------------------
  // From scored pairs to edges
  // -------------------------------------------------------------------------------------------

  /** One scored pair; a veto is a hard contradiction. */
  datatype Scored = Scored(a: string, b: string, weight: real, veto: bool)

  function Key(e: Scored): (string, string) {
    OrderedKey(e.a, e.b)
  }

  /** The first time a pair is scored. */
  ghost predicate First(scored: seq<Scored>, i: nat)
    requires i < |scored|
  {
    forall j :: 0 <= j < i ==> Key(scored[j]) != Key(scored[i])
  }

  function Positive(e: Scored): Edge {
    Edge(Key(e).0, Key(e).1, e.weight)
  }

  /** Which scored pairs become positive edges: first scorings at or above the threshold. */
  ghost predicate Kept(scored: seq<Scored>, threshold: real, i: nat)
    requires i < |scored|
  {
    First(scored, i) && scored[i].weight >= threshold
  }

  /** The edges and cannot-links of a list of scored pairs. */
  ghost predicate EdgesOf(scored: seq<Scored>, threshold: real, positive: seq<Edge>, cannot: set<(string, string)>) {
    && (forall k :: k in cannot <==> exists i :: 0 <= i < |scored| && scored[i].veto && Key(scored[i]) == k)
    && (forall e :: e in positive <==>
          exists i :: 0 <= i < |scored| && Kept(scored, threshold, i) && Positive(scored[i]) == e)
  }

  lemma PrefixFirst(scored: seq<Scored>, n: nat, i: nat)
    requires i < n <= |scored|
    ensures First(scored[..n], i) <==> First(scored, i)
  {
  }

  lemma EdgesPush(scored: seq<Scored>, threshold: real, n: nat, positive: seq<Edge>, cannot: set<(string, string)>)
    requires n < |scored| && EdgesOf(scored[..n], threshold, positive, cannot)
    ensures EdgesOf(scored[..n + 1], threshold,
                    if Kept(scored, threshold, n) then positive + [Positive(scored[n])] else positive,
                    if scored[n].veto then cannot + {Key(scored[n])} else cannot)
  {
    var longer, shorter := scored[..n + 1], scored[..n];
    forall i | 0 <= i <= n ensures Kept(longer, threshold, i) <==> Kept(scored, threshold, i) {
      PrefixFirst(scored, n + 1, i);
    }
    forall i | 0 <= i < n ensures Kept(shorter, threshold, i) <==> Kept(scored, threshold, i) {
      PrefixFirst(scored, n, i);
    }
    var cannot' := if scored[n].veto then cannot + {Key(scored[n])} else cannot;
    var positive' := if Kept(scored, threshold, n) then positive + [Positive(scored[n])] else positive;
    assert longer[n] == scored[n];
    assert forall i :: 0 <= i < n ==> longer[i] == shorter[i];
    forall k ensures k in cannot' <==> exists i :: 0 <= i < |longer| && longer[i].veto && Key(longer[i]) == k {
      if i :| 0 <= i < n && shorter[i].veto && Key(shorter[i]) == k {
        assert longer[i].veto && Key(longer[i]) == k;
      }
    }
    forall e
      ensures e in positive' <==>
              exists i :: 0 <= i < |longer| && Kept(longer, threshold, i) && Positive(longer[i]) == e
    {
      if i :| 0 <= i < n && Kept(shorter, threshold, i) && Positive(shorter[i]) == e {
        assert Kept(longer, threshold, i) && Positive(longer[i]) == e;
      }
    }
  }

  method RepairEdges(scored: seq<Scored>, threshold: real) returns (positive: seq<Edge>, cannot: set<(string, string)>)
    ensures EdgesOf(scored, threshold, positive, cannot)
  {
    positive, cannot := [], {};
    var seen: set<(string, string)> := {};
    for n := 0 to |scored|
      invariant EdgesOf(scored[..n], threshold, positive, cannot)
      invariant forall k :: k in seen <==> exists i :: 0 <= i < n && Key(scored[i]) == k
    {
      EdgesPush(scored, threshold, n, positive, cannot);
      var edge := scored[n];
      var key := Key(edge);
      if edge.veto {
        cannot := cannot + {key};
      }
      if key !in seen {
        seen := seen + {key};
        if edge.weight >= threshold {
          positive := positive + [Edge(key.0, key.1, edge.weight)];
        }
      }
    }
    assert scored[..|scored|] == scored;
  }

  // -------------------------------------------------------------------------------------------
  // From clusters to assignments
  // -------------------------------------------------------------------------------------------

  /** Every entity that is not the root of its class is assigned to that root. */
  function AssignmentOf(c: Partition): Assignment {
    map x | x in c && c[x] != x :: c[x]
  }

  lemma AssignmentFlat(claims: Claims, c: Partition)
    requires MinRooted(c) && c.Keys == claims.Keys
    ensures Flat(claims, AssignmentOf(c))
  {
    var assign := AssignmentOf(c);
    forall m | m in assign ensures m in claims && assign[m] in claims && assign[m] !in assign {
      RootFixed(c, m);
      assert m in c.Keys && c[m] in c.Keys;
    }
  }

  /** The assignment restricted to the classes whose roots are in `roots`. */
  function AssignmentWithin(c: Partition, roots: set<string>): Assignment {
    map x | x in c && c[x] != x && c[x] in roots :: c[x]
  }

  /** Assigns the members of one cluster to its first. */
  method AssignCluster(members: seq<string>, assign0: Assignment, ghost c: Partition, ghost roots: set<string>)
    returns (assign: Assignment)
    requires members != [] && Sorted(members) && Elements(members) == ClassOf(c, members[0]) && members[0] !in roots
    requires assign0 == AssignmentWithin(c, roots)
    ensures assign == AssignmentWithin(c, roots + {members[0]})
  {
    hide Less, Sorted, AssignmentWithin;
    var canonical := members[0];
    assign := assign0;
    for j := 1 to |members|
      invariant assign == assign0 + (map x | x in members[1..j] :: canonical)
    {
      assign := assign[members[j] := canonical];
      assert members[1..j + 1] == members[1..j] + [members[j]];
    }
    ClusterAssigned(members, c, roots);
  }

  lemma ClusterAssigned(members: seq<string>, c: Partition, roots: set<string>)
    requires members != [] && Sorted(members) && Elements(members) == ClassOf(c, members[0])
    ensures AssignmentWithin(c, roots) + (map x | x in members[1..|members|] :: members[0]) ==
            AssignmentWithin(c, roots + {members[0]})
  {
    hide Less, Sorted;
    SortedDistinct(members);
    ClusterTail(members, c, members[0]);
  }

  lemma ClusterTail(members: seq<string>, c: Partition, r: string)
    requires members != [] && Distinct(members) && Elements(members) == ClassOf(c, r) && members[0] == r
    ensures forall x :: x in members[1..|members|] <==> x in c && c[x] == r && x != r
  {
    forall x ensures x in members[1..|members|] <==> x in c && c[x] == r && x != r {
      assert x in ClassOf(c, r) <==> x in members;
      if x in members && x != r {
        var i :| 0 <= i < |members| && members[i] == x;
        assert members[1..|members|][i - 1] == x;
      }
      if x in members[1..|members|] {
        var i :| 0 <= i < |members| - 1 && members[1..|members|][i] == x;
        assert members[i + 1] == x;
      }
    }
  }

  /** Builds the assignment of a whole listing and counts its multi-member clusters. */
  method Assignments(grouped: seq<seq<string>>, ghost c: Partition) returns (assign: Assignment, multi: nat)
    requires Listing(grouped, c) && MinRooted(c)
    ensures assign == AssignmentOf(c)
    ensures multi == |assign.Values| && multi <= |assign.Keys| && (multi == 0 <==> assign == map[])
  {
    hide Less, Sorted, MinRooted, AssignmentWithin, AssignmentOf;
    assign, multi := map[], 0;
    SortedDistinct(Heads(grouped));
    NoneAssigned(c);
    assert Heads(grouped)[..0] == [];
    for i := 0 to |grouped|
      invariant assign == AssignmentWithin(c, Elements(Heads(grouped)[..i]))
      invariant multi == |assign.Values|
    {
      ghost var roots := Elements(Heads(grouped)[..i]);
      var members := grouped[i];
      assert Heads(grouped)[..i + 1] == Heads(grouped)[..i] + [members[0]];
      assert Elements(Heads(grouped)[..i + 1]) == roots + {members[0]};
      HeadFresh(Heads(grouped), i);
      if |members| > 1 {
        multi := multi + 1;
        assign := AssignCluster(members, assign, c, roots);
        SortedDistinct(members);
        SecondAssigned(members, c, roots);
      } else {
        LoneCluster(members, c, roots);
      }
    }
    assert Heads(grouped)[..|Heads(grouped)|] == Heads(grouped);
    WholeAssignment(c);
    ValuesWithin(assign, assign.Keys);
    assert assign == map[] <==> assign.Values == {} by { NoValues(assign); }
  }

  lemma NoneAssigned(c: Partition)
    ensures AssignmentWithin(c, Elements([])) == map[]
  {
  }

  lemma NoValues(assign: Assignment)
    ensures assign == map[] <==> assign.Values == {}
  {
    if assign != map[] {
      assert assign.Keys != {};
      var x :| x in assign.Keys;
      assert assign[x] in assign.Values;
    }
  }

  /** There are no more values than keys. */
  lemma {:induction false} ValuesWithin(assign: Assignment, keys: set<string>)
    requires keys <= assign.Keys
    ensures |set x | x in keys :: assign[x]| <= |keys|
    ensures keys == assign.Keys ==> assign.Values == set x | x in keys :: assign[x]
  {
    if keys != {} {
      var x :| x in keys;
      ValuesWithin(assign, keys - {x});
      assert (set y | y in keys :: assign[y]) == (set y | y in keys - {x} :: assign[y]) + {assign[x]};
    }
  }

  lemma HeadFresh(heads: seq<string>, i: nat)
    requires Distinct(heads) && i < |heads|
    ensures heads[i] !in Elements(heads[..i])
  {
  }

  /** A cluster with a second member makes its first one canonical. */
  lemma SecondAssigned(members: seq<string>, c: Partition, roots: set<string>)
    requires |members| > 1 && Distinct(members) && Elements(members) == ClassOf(c, members[0]) && members[0] !in roots
    ensures var before, after := AssignmentWithin(c, roots), AssignmentWithin(c, roots + {members[0]});
            after.Values == before.Values + {members[0]} && members[0] !in before.Values
  {
    var before, after := AssignmentWithin(c, roots), AssignmentWithin(c, roots + {members[0]});
    var x := members[1];
    assert x in Elements(members);
    assert x in after && after[x] == members[0];
    forall r ensures r in after.Values <==> r in before.Values || r == members[0] {
      if r in before.Values {
        var y :| y in before && before[y] == r;
        assert y in after && after[y] == r;
      }
      if r in after.Values && r != members[0] {
        var y :| y in after && after[y] == r;
        assert y in before && before[y] == r;
      }
    }
  }

  lemma LoneCluster(members: seq<string>, c: Partition, roots: set<string>)
    requires |members| == 1 && Elements(members) == ClassOf(c, members[0])
    ensures AssignmentWithin(c, roots + {members[0]}) == AssignmentWithin(c, roots)
  {
    forall x | x in c && c[x] == members[0] ensures x == members[0] {
      assert x in Elements(members);
    }
  }

  lemma WholeAssignment(c: Partition)
    requires MinRooted(c)
    ensures AssignmentWithin(c, Roots(c)) == AssignmentOf(c)
  {
    forall x | x in c ensures c[x] in Roots(c) {
      RootFixed(c, x);
    }
  }

  // -------------------------------------------------------------------------------------------
  // Applying assignments
  // -------------------------------------------------------------------------------------------

  function Restricted(member: ClaimSet, done: set<string>): ClaimSet {
    map h | h in member && h in done :: member[h]
  }

  lemma MergeStep(canon: ClaimSet, member: ClaimSet, done: set<string>, hash: string)
    requires hash in member && hash !in done
    ensures var before := MergeInto(canon, Restricted(member, done));
            var entry := if hash in before then Merging.Joined(before[hash], member[hash]) else member[hash];
            MergeInto(canon, Restricted(member, done + {hash})) == before[hash := entry]
  {
    hide Merging.Joined;
    var p, q := Restricted(member, done), Restricted(member, done + {hash});
    assert q == p[hash := member[hash]];
  }

  lemma MergeEnds(canon: ClaimSet, member: ClaimSet)
    ensures MergeInto(canon, Restricted(member, {})) == canon
    ensures Restricted(member, member.Keys) == member
  {
  }

  /** Folds a member's claims, visited in any order, into the canonical's. */
  method MergeClaims(canon: ClaimSet, member: ClaimSet) returns (merged: ClaimSet)
    ensures merged == MergeInto(canon, member)
  {
    hide Merging.Joined, MergeInto, Restricted;
    MergeEnds(canon, member);
    merged := canon;
    var todo := member.Keys;
    ghost var done: set<string> := {};
    while todo != {}
      invariant todo + done == member.Keys && todo !! done
      invariant merged == MergeInto(canon, Restricted(member, done))
      decreases |todo|
    {
      var hash :| hash in todo;
      MergeStep(canon, member, done, hash);
      var entry := member[hash];
      if hash in merged {
        entry := Merging.Joined(merged[hash], entry);
      }
      merged := merged[hash := entry];
      todo, done := todo - {hash}, done + {hash};
    }
    assert done == member.Keys;
  }

  /** Re-points every memo entry of a folded member, visited in any order. */
  method Repoint(memo: map<string, string>, assign: Assignment) returns (after: map<string, string>)
    ensures after == Repointed(memo, assign)
  {
    after := memo;
    var todo := memo.Keys;
    while todo != {}
      invariant todo <= memo.Keys && after.Keys == memo.Keys
      invariant forall k :: k in memo ==>
                  after[k] == if k !in todo && memo[k] in assign then assign[memo[k]] else memo[k]
      decreases |todo|
    {
      var obs :| obs in todo;
      if memo[obs] in assign {
        after := after[obs := assign[memo[obs]]];
      }
      todo := todo - {obs};
    }
  }

  /** Folds one member onto its canonical in the ledger. */
  method FoldMember(ledger: EntityLedger, assign: Assignment, member: string)
    requires member in assign
    modifies ledger`claims
    ensures ledger.claims == FoldOne(old(ledger.claims), assign, member)
  {
    var canonical := assign[member];
    var merged := MergeClaims(Held(ledger.claims, canonical), Held(ledger.claims, member));
    ledger.claims := ledger.claims[canonical := merged] - {member};
  }

  /** Folds every member onto its canonical, in any order. */
  method FoldMembers(ledger: EntityLedger, assign: Assignment)
    requires Flat(ledger.claims, assign)
    modifies ledger`claims
    ensures Merged(old(ledger.claims), assign, assign.Keys, ledger.claims)
  {
    hide Flat, Merged, FoldOne;
    ghost var claims := ledger.claims;
    MergedStart(claims, assign);
    var todo := assign.Keys;
    ghost var done: set<string> := {};
    while todo != {}
      invariant done + todo == assign.Keys && done !! todo
      invariant Merged(claims, assign, done, ledger.claims)
      decreases |todo|
    {
      var member :| member in todo;
      FoldOneMerges(claims, assign, done, ledger.claims, member);
      FoldMember(ledger, assign, member);
      todo, done := todo - {member}, done + {member};
    }
    assert done == assign.Keys;
  }

  /**
   Folds every member onto its canonical, rebuilds the derived indexes and re-points the memo.
   */
  method ApplyAssignments(s: Service, assign: Assignment)
    requires s.Valid() && Flat(s.ledger.claims, assign)
    modifies s, s.ledger
    ensures s.Valid() && Merged(old(s.ledger.claims), assign, assign.Keys, s.ledger.claims)
    ensures s.seenObs == Repointed(old(s.seenObs), assign) && s.history == old(s.history)
  {
    hide MemoOk, CountsOk, DfOk, IdentOk, Flat, Merged, Repointed;
    ghost var claims := s.ledger.claims;
    FoldMembers(s.ledger, assign);
    s.ledger.Rebuild();
    MemoMerges(s.digest, claims, assign, s.ledger.claims, s.seenObs, s.history);
    s.seenObs := Repoint(s.seenObs, assign);
  }

  // -------------------------------------------------------------------------------------------
  // Rounds
  // -------------------------------------------------------------------------------------------

  /** The entity ids, sorted. */
  method EntityIDs(ledger: EntityLedger) returns (ids: seq<string>)
    ensures Sorted(ids) && Elements(ids) == ledger.claims.Keys
  {
    hide Less, Sorted;
    var todo := ledger.claims.Keys;
    var listed: seq<string> := [];
    while todo != {}
      invariant todo <= ledger.claims.Keys && Distinct(listed) && Elements(listed) == ledger.claims.Keys - todo
      decreases |todo|
    {
      var e :| e in todo;
      assert e !in Elements(listed);
      assert Elements(listed + [e]) == Elements(listed) + {e};
      listed, todo := listed + [e], todo - {e};
    }
    SortSorts(listed);
    ids := Sort(listed);
  }

  /** Scored pairs that only name entities. */
  ghost predicate Names(scored: seq<Scored>, entities: set<string>) {
    forall i :: 0 <= i < |scored| ==> scored[i].a in entities && scored[i].b in entities
  }

  /**
   Which pairs end up together in one round: the constrained linkage of the round's edges over the
   round's entities.
   */
  ghost predicate RoundPartition(entities: set<string>, scored: seq<Scored>, threshold: real, c: Partition) {
    && c.Keys == entities
    && MinRooted(c)
    && (forall i :: 0 <= i < |scored| && scored[i].veto && scored[i].a in c && scored[i].b in c ==>
          scored[i].a == scored[i].b || c[scored[i].a] != c[scored[i].b])
    && exists positive, cannot, ids ::
         && EdgesOf(scored, threshold, positive, cannot) && Elements(ids) == entities && Between(positive, ids)
         && c == LinkageOf(cannot, ids, positive)
         && Linkage.Sound(cannot, c, SortEdges(positive), |SortEdges(positive)|)
         && StrongestFirst(cannot, ids, positive, c)
  }

  /** The clusters of one round's scores. */
  method RoundClusters(entities: seq<string>, scored: seq<Scored>, threshold: real)
    returns (grouped: seq<seq<string>>, ghost c: Partition)
    requires Names(scored, Elements(entities))
    ensures Listing(grouped, c) && MinRooted(c) && c.Keys == Elements(entities)
    ensures RoundPartition(Elements(entities), scored, threshold, c)
  {
    hide Less, Sorted, Listing, MinRooted, Linkage.Sound, EdgesOf, LinkageOf, StrongestFirst, RoundPartition, Names;
    var positive, cannot := RepairEdges(scored, threshold);
    PositiveBetween(scored, threshold, positive, cannot, entities);
    grouped := ClusterByConstrainedLinkage(entities, positive, cannot);
    c := LinkageOf(cannot, entities, positive);
    RoundOk(entities, scored, threshold, positive, cannot);
    RoundRooted(Elements(entities), scored, threshold, c);
  }

  /** One round: score, cluster, fold. Each assigned member disappears into its canonical. */
  method RepairRound(s: Service, scored: seq<Scored>, threshold: real)
    returns (merges: nat, clusters: nat, assign: Assignment, ghost c: Partition)
    requires s.Valid() && Names(scored, s.ledger.claims.Keys)
    modifies s, s.ledger
    ensures s.Valid() && RoundPartition(old(s.ledger.claims.Keys), scored, threshold, c)
    ensures assign == AssignmentOf(c) && Flat(old(s.ledger.claims), assign)
    ensures Merged(old(s.ledger.claims), AssignmentOf(c), AssignmentOf(c).Keys, s.ledger.claims)
    ensures merges == |AssignmentOf(c).Keys| && clusters <= merges && (clusters == 0 <==> merges == 0)
    ensures s.seenObs == Repointed(old(s.seenObs), AssignmentOf(c)) && s.history == old(s.history)
  {
    hide *;
    var entities := EntityIDs(s.ledger);
    var grouped;
    grouped, c := RoundClusters(entities, scored, threshold);
    assign, clusters := Assignments(grouped, c);
    AssignmentFlat(s.ledger.claims, c);
    ApplyAssignments(s, assign);
    merges := |assign.Keys|;
    EmptyAssignment(assign);
  }

  lemma EmptyAssignment(assign: Assignment)
    ensures |assign.Keys| == 0 <==> assign == map[]
  {
  }

  lemma RoundRooted(entities: set<string>, scored: seq<Scored>, threshold: real, c: Partition)
    requires RoundPartition(entities, scored, threshold, c)
    ensures MinRooted(c) && c.Keys == entities
  {
  }

  lemma PositiveBetween(scored: seq<Scored>, threshold: real, positive: seq<Edge>, cannot: set<(string, string)>,
                        entities: seq<string>)
    requires EdgesOf(scored, threshold, positive, cannot) && Names(scored, Elements(entities))
    ensures Between(positive, entities)
  {
    forall i | 0 <= i < |positive| ensures positive[i].a in entities && positive[i].b in entities {
      assert positive[i] in positive;
      var j :| 0 <= j < |scored| && Kept(scored, threshold, j) && Positive(scored[j]) == positive[i];
      assert scored[j].a in Elements(entities) && scored[j].b in Elements(entities);
    }
  }

  lemma RoundOk(entities: seq<string>, scored: seq<Scored>, threshold: real, positive: seq<Edge>,
                cannot: set<(string, string)>)
    requires EdgesOf(scored, threshold, positive, cannot) && Between(positive, entities)
    ensures RoundPartition(Elements(entities), scored, threshold, LinkageOf(cannot, entities, positive))
  {
    hide MinRooted, Separated, Connected, Explained, LinkAll, SortEdges, StrongestFirst;
    var ordered := SortEdges(positive);
    var c := LinkageOf(cannot, entities, positive);
    LinkageSound(cannot, entities, ordered, |ordered|);
    assert ordered[..|ordered|] == ordered;
    LinkedStrongest(cannot, entities, positive);
    forall i | 0 <= i < |scored| && scored[i].veto && scored[i].a in c && scored[i].b in c && scored[i].a != scored[i].b
      ensures c[scored[i].a] != c[scored[i].b]
    {
      assert Key(scored[i]) in cannot;
      VetoSeparates(cannot, c, scored[i].a, scored[i].b);
    }
  }

  lemma VetoSeparates(cannot: set<(string, string)>, c: Partition, a: string, b: string)
    requires Separated(cannot, c) && Cannot(cannot, a, b) && a in c && b in c && a != b
    ensures c[a] != c[b]
  {
  }

  const REPAIR_MAX_ROUNDS: nat := 12

  datatype RepairResult = RepairResult(entitiesBefore: nat, entitiesAfter: nat, merges: nat, clusters: nat)

  /** Whatever any entity of one ledger holds, some entity of the other holds. */
  ghost predicate SameHashes(a: Claims, b: Claims) {
    forall h :: Somewhere(a, h) <==> Somewhere(b, h)
  }

  lemma RoundConserves(claims: Claims, assign: Assignment, after: Claims)
    requires Flat(claims, assign) && Merged(claims, assign, assign.Keys, after)
    ensures SameHashes(claims, after) && |after.Keys| + |assign.Keys| == |claims.Keys|
  {
    hide Flat, Merged;
    forall h ensures Somewhere(claims, h) <==> Somewhere(after, h) {
      ConservesHashes(claims, assign, after, h);
    }
    ConservesCount(claims, assign, after);
  }

  lemma SameHashesTransitive(a: Claims, b: Claims, c: Claims)
    requires SameHashes(a, b) && SameHashes(b, c)
    ensures SameHashes(a, c)
  {
  }

  lemma RepointedKeys(memo: map<string, string>, assign: Assignment)
    ensures Repointed(memo, assign).Keys == memo.Keys
  {
  }

  /** How a round's pairs are scored; None is a scoring error. */
  type Scorer = (nat, set<string>) -> Option<seq<Scored>>

  ghost predicate ScoresEntities(score: Scorer) {
    forall round, entities :: score(round, entities).Some? ==> Names(score(round, entities).value, entities)
  }

  /**
   Repairs to a fixpoint, or for REPAIR_MAX_ROUNDS rounds. Whether it succeeds or an error stops it, in
   scoring or in pooling the centroids of a round that is already folded, no claim hash is lost or
   invented, the memo keeps every observation, and each counted merge is one entity fewer.
   */
  method Repair(s: Service, score: Scorer, poolFails: nat -> bool, threshold: real) returns (r: Option<RepairResult>)
    requires s.Valid() && ScoresEntities(score)
    modifies s, s.ledger
    ensures s.Valid() && s.history == old(s.history) && s.seenObs.Keys == old(s.seenObs.Keys)
    ensures SameHashes(old(s.ledger.claims), s.ledger.claims)
    ensures r.Some? ==>
              && r.value.entitiesBefore == old(|s.ledger.claims.Keys|)
              && r.value.entitiesAfter == |s.ledger.claims.Keys|
              && r.value.entitiesBefore == r.value.entitiesAfter + r.value.merges
              && r.value.clusters <= r.value.merges
  {
    hide *;
    ghost var claims := s.ledger.claims;
    var before := |s.ledger.claims.Keys|;
    var totalMerges, totalClusters := 0, 0;
    SameHashesReflexive(claims);
    var round := 0;
    while round < REPAIR_MAX_ROUNDS
      invariant s.Valid() && s.history == old(s.history) && s.seenObs.Keys == old(s.seenObs.Keys)
      invariant SameHashes(claims, s.ledger.claims)
      invariant before == |s.ledger.claims.Keys| + totalMerges && totalClusters <= totalMerges
    {
      var scored := score(round, s.ledger.claims.Keys);
      if scored.None? {
        return None;
      }
      ScoresRound(score, round, s.ledger.claims.Keys);
      ghost var middle, memo := s.ledger.claims, s.seenObs;
      var merges, clusters, assign;
      ghost var c;
      merges, clusters, assign, c := RepairRound(s, scored.value, threshold);
      RepointedKeys(memo, AssignmentOf(c));
      RoundConserves(middle, AssignmentOf(c), s.ledger.claims);
      SameHashesTransitive(claims, middle, s.ledger.claims);
      if merges == 0 {
        break;
      }
      if poolFails(round) {
        return None;
      }
      totalMerges, totalClusters := totalMerges + merges, totalClusters + clusters;
      round := round + 1;
    }
    r := Some(RepairResult(before, |s.ledger.claims.Keys|, totalMerges, totalClusters));
  }

  lemma SameHashesReflexive(a: Claims)
    ensures SameHashes(a, a)
  {
  }

  lemma ScoresRound(score: Scorer, round: nat, entities: set<string>)
    requires ScoresEntities(score) && score(round, entities).Some?
    ensures Names(score(round, entities).value, entities)
  {
  }
}
