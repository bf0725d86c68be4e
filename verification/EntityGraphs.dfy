/**
 The claim graphs that records and entities are compared by. An entity's claims live in a map, so its
 graph is some order of them, kept in a memo until the entity changes. `Matcher` is the resolver with
 that memo; `DecisionSteady` and `EdgesSteady` say when no order can change what it decides, and
 `DecisionOrderMatters` shows that otherwise one may.
 */
module EntityGraphs {
  import opened Sequences
  import opened Ordering
  import opened Ledger
  import opened Resolution
  import opened Evidence
  import opened IdDiff
  import opened NameTies
  import opened CompareOrder
  import opened Scoring
  import Repair

  /** What a concept says of its claims, and how validity bounds are read. */
  datatype Ontology = Ontology(
    kindOf: string -> Kind, roleOf: string -> Role, validity: (string, string) -> Interval)

  function ScoredOf(split: Splitter, o: Ontology, hash: string, e: ClaimEntry): Claim {
    var (concept, value) := split(e.text);
    Claim(concept, value, hash, o.kindOf(concept), o.roleOf(concept), o.validity(e.validFrom, e.validUntil), "", "", [])
  }

  function IncomingOf(split: Splitter, o: Ontology, inputs: seq<ClaimInput>): seq<Claim> {
    seq(|inputs|, i requires 0 <= i < |inputs| =>
      ScoredOf(split, o, inputs[i].hash, ClaimEntry(inputs[i].text, inputs[i].validFrom, inputs[i].validUntil)))
  }

  /** The graph of a claim set: each of its claims once, in some order. */
  ghost predicate Graph(split: Splitter, o: Ontology, held: ClaimSet, cs: seq<Claim>) {
    && (forall i, j :: 0 <= i < j < |cs| ==> cs[i].hash != cs[j].hash)
    && (forall c :: c in cs ==> c.hash in held && c == ScoredOf(split, o, c.hash, held[c.hash]))
    && (forall h :: h in held ==> ScoredOf(split, o, h, held[h]) in cs)
  }

  lemma {:induction false} AtMostOnce(cs: seq<Claim>, c: Claim)
    requires forall i, j :: 0 <= i < j < |cs| ==> cs[i].hash != cs[j].hash
    ensures multiset(cs)[c] <= 1
  {
    if cs != [] {
      var n := |cs| - 1;
      AtMostOnce(cs[..n], c);
      assert cs == cs[..n] + [cs[n]];
      assert forall i :: 0 <= i < n ==> cs[..n][i].hash != cs[n].hash;
    }
  }

  /** Any two graphs of a claim set are orders of the same claims. */
  lemma GraphsPermute(split: Splitter, o: Ontology, held: ClaimSet, v: seq<Claim>, w: seq<Claim>)
    requires Graph(split, o, held, v) && Graph(split, o, held, w)
    ensures multiset(v) == multiset(w)
  {
    hide ScoredOf;
    forall c ensures multiset(v)[c] == multiset(w)[c] {
      AtMostOnce(v, c);
      AtMostOnce(w, c);
      assert c in v <==> c in w;
      assert c in v <==> multiset(v)[c] > 0;
      assert c in w <==> multiset(w)[c] > 0;
    }
  }

  lemma GraphShape(split: Splitter, o: Ontology, held: ClaimSet, cs: seq<Claim>)
    requires Graph(split, o, held, cs)
    ensures AllBare(cs) && Typed(cs)
  {
  }

  lemma IncomingShape(split: Splitter, o: Ontology, inputs: seq<ClaimInput>)
    ensures AllBare(IncomingOf(split, o, inputs)) && Typed(IncomingOf(split, o, inputs))
  {
  }

  /** `graph` gives some graph of every entity among `found`. */
  ghost predicate Graphs(split: Splitter, o: Ontology, claims: Claims, found: set<string>,
                         graph: string -> seq<Claim>) {
    forall e :: e in found ==> Graph(split, o, Held(claims, e), graph(e))
  }

  // -------------------------------------------------------------------------------------------
  // When no order shows
  // -------------------------------------------------------------------------------------------

  ghost predicate TieFreeAll(p: Params, incoming: seq<Claim>, found: set<string>, graph: string -> seq<Claim>) {
    forall e :: e in found ==> TieFree(p, incoming, graph(e))
  }

  /** Without ties, a record is decided the same in whatever order the candidates' claims come. */
  lemma DecisionSteady(split: Splitter, o: Ontology, p: Params, gate: real, inputs: seq<ClaimInput>, claims: Claims,
                       found: set<string>, g: string -> seq<Claim>, h: string -> seq<Claim>, recallFails: bool,
                       newID: string, d: Decision, d': Decision)
    requires Graphs(split, o, claims, found, g) && Graphs(split, o, claims, found, h)
    requires TieFreeAll(p, IncomingOf(split, o, inputs), found, g)
    requires Decides(p, gate, IncomingOf(split, o, inputs), g, recallFails, found, newID, d)
    requires Decides(p, gate, IncomingOf(split, o, inputs), h, recallFails, found, newID, d')
    ensures d == d'
  {
    hide Graph, Compare, TieFree, Decides, IncomingOf, AllBare, Typed;
    var incoming := IncomingOf(split, o, inputs);
    IncomingShape(split, o, inputs);
    forall e | e in found ensures Compare(p, incoming, g(e)) == Compare(p, incoming, h(e)) {
      GraphsPermute(split, o, Held(claims, e), g(e), h(e));
      GraphShape(split, o, Held(claims, e), g(e));
      TieFreeSame(p, incoming, g(e), h(e));
    }
    DecidedOnce(p, gate, incoming, g, h, recallFails, found, newID, d, d');
  }

  /** Without ties and rivals, two entities are scored the same in whatever order both their claims come. */
  lemma PairSteady(split: Splitter, o: Ontology, p: Params, claims: Claims, e: string, f: string,
                   a: seq<Claim>, b: seq<Claim>, v: seq<Claim>, w: seq<Claim>)
    requires Graph(split, o, Held(claims, e), a) && Graph(split, o, Held(claims, e), v)
    requires Graph(split, o, Held(claims, f), b) && Graph(split, o, Held(claims, f), w)
    requires TieFree(p, a, b) && RivalFree(p, a, b)
    ensures Compare(p, a, b) == Compare(p, v, w)
  {
    hide Graph, Compare, TieFree, RivalFree, AllBare, Typed;
    GraphsPermute(split, o, Held(claims, e), a, v);
    GraphsPermute(split, o, Held(claims, f), b, w);
    GraphShape(split, o, Held(claims, e), a);
    GraphShape(split, o, Held(claims, f), b);
    RivalFreeSame(p, a, b, v, w);
  }

  /** So the edges of an entity, and with them the repair, do not depend on any order. */
  lemma {:induction false} EdgesSteady(split: Splitter, o: Ontology, p: Params, claims: Claims, e: string,
                                       a: seq<Claim>, g: string -> seq<Claim>, v: seq<Claim>, h: string -> seq<Claim>,
                                       fs: seq<string>)
    requires Graph(split, o, Held(claims, e), a) && Graph(split, o, Held(claims, e), v)
    requires forall f :: f in fs ==> Graph(split, o, Held(claims, f), g(f)) && Graph(split, o, Held(claims, f), h(f))
    requires forall f :: f in fs && f != e ==> TieFree(p, a, g(f)) && RivalFree(p, a, g(f))
    ensures EdgesTo(p, e, a, g, fs) == EdgesTo(p, e, v, h, fs)
    decreases |fs|
  {
    hide Graph, Compare, TieFree, RivalFree;
    if fs != [] {
      var f := fs[|fs| - 1];
      assert f in fs;
      EdgesSteady(split, o, p, claims, e, a, g, v, h, fs[..|fs| - 1]);
      if f != e {
        PairSteady(split, o, p, claims, e, f, a, g(f), v, h(f));
      }
    }
  }

  // -------------------------------------------------------------------------------------------
  // Where an order shows
  // -------------------------------------------------------------------------------------------

  ghost predicate NameTokens(cs: seq<Claim>, name: string) {
    forall c :: c in cs ==> Bare(c) && c.attr == name && c.kind.Name?
  }

  /** Graphs of name tokens alone compare by their name evidence. */
  lemma NamesCompare(p: Params, a: seq<Claim>, b: seq<Claim>, name: string)
    requires a != [] && b != [] && NameTokens(a, name) && NameTokens(b, name)
    ensures var s := NameMass(p, a, b);
            Compare(p, a, b) == Combine(p, Add(NOTHING, Mass(0.0, s.ic, s.iac, s.ic, 0.0, 0.0, 0.0, false)))
  {
    hide Frontier, Side, NameMass, Combine, Attributes, Bare;
    BareFrontier(a);
    BareFrontier(b);
    assert AttrsOf(a) == {name} by { assert a[0] in a; }
    assert AttrsOf(b) == {name} by { assert b[0] in b; }
    assert Elements([name]) == {name};
    AttributesUnique(a, b, [name]);
    BareSide(a, name);
    BareSide(b, name);
    GroupWhole(a, name);
    GroupWhole(b, name);
    assert a[0] in a;
    assert Total(p, a, b, [name], 0) == NOTHING;
  }

  /** Two name tokens against two, where one incoming token fits both candidate tokens equally well. */
  ghost predicate Crossed(p: Params, a: Claim, a': Claim, b: Claim, b': Claim, name: string) {
    && NameTokens([a, a'], name) && NameTokens([b, b'], name)
    && p.w(a) == p.w(a') == p.w(b) == p.w(b') > 0.0
    && Pairable(p, a, b) && Pairable(p, a, b') && Pairable(p, a', b) && !Pairable(p, a', b')
    && |a'.value| > 1 && |b'.value| > 1
  }

  /** One order of the candidate scores for it, the other against it. */
  lemma ScoresDiffer(p: Params, a: Claim, a': Claim, b: Claim, b': Claim, name: string)
    requires Crossed(p, a, a', b, b', name)
    ensures var x, y := Compare(p, [a, a'], [b, b']), Compare(p, [a, a'], [b', b]);
            && !x.veto && x.score == (if p.observationMode then 0.0 else -Scaled(p.lambda, p.w(a)))
            && !y.veto && y.score == p.w(a) + p.w(a)
  {
    hide Pairable, Compare;
    assert a in [a, a'] && a' in [a, a'] && b in [b, b'] && b' in [b, b'];
    assert forall c :: c in [b', b] ==> c in [b, b'];
    assert !LinkedAcross([a, a'], [b, b']) by { Unlinked([a, a'], [b, b'], name); }
    NameOrderMatters(p, a, a', b, b');
    NamesCompare(p, [a, a'], [b, b'], name);
    NamesCompare(p, [a, a'], [b', b], name);
  }

  lemma Unlinked(av: seq<Claim>, bv: seq<Claim>, name: string)
    requires NameTokens(av, name) && NameTokens(bv, name)
    ensures !LinkedAcross(av, bv)
  {
    forall i, j | 0 <= i < |av| && 0 <= j < |bv| ensures !Linked(av[i], bv[j]) {
      assert av[i] in av && bv[j] in bv;
    }
  }

  /** The same record against the same entity: one order of its claims mints, the other joins. */
  lemma DecisionOrderMatters(p: Params, gate: real, a: Claim, a': Claim, b: Claim, b': Claim, name: string, e: string,
                             newID: string)
    requires Crossed(p, a, a', b, b', name) && p.observationMode && 0.0 < gate <= p.w(a) + p.w(a)
    ensures Decides(p, gate, [a, a'], _ => [b, b'], false, {e}, newID, Mints(newID))
    ensures Decides(p, gate, [a, a'], _ => [b', b], false, {e}, newID, Joins(e))
  {
    hide Compare, Crossed;
    ScoresDiffer(p, a, a', b, b', name);
    var g: string -> seq<Claim>, h: string -> seq<Claim> := _ => [b, b'], _ => [b', b];
    assert NoneJoinable(p, gate, [a, a'], g, {e});
    assert Joinable(p, gate, [a, a'], h, e);
    assert e in {e};
  }

  const TOKEN: string := "name-token"
  const WORDS: Splitter := text => (TOKEN, text)
  const TOKENS: Ontology := Ontology(_ => Name, _ => RoleNone, (_, _) => Interval(Unbounded, Unbounded))
  const EVEN: Params := Params(
    0.9, 0.9, 0.9, 0.9, 1.0, 1.0, 1.0, true,
    _ => 1.0, (a: Claim, b: Claim) => if a.value == b.value then 1.0 else 0.0)

  function Token(value: string, hash: string): Claim {
    ScoredOf(WORDS, TOKENS, hash, ClaimEntry(value, "", ""))
  }

  /** Such a record: "p patrick", and an entity that holds the tokens "patrick" and "paul". */
  lemma OrderExample(newID: string)
    ensures var inputs := [ClaimInput("p", "1", "", ""), ClaimInput("patrick", "2", "", "")];
            var claims := map["e" := map["2" := ClaimEntry("patrick", "", ""), "3" := ClaimEntry("paul", "", "")]];
            var g, h := [Token("patrick", "2"), Token("paul", "3")], [Token("paul", "3"), Token("patrick", "2")];
            && Graph(WORDS, TOKENS, claims["e"], g) && Graph(WORDS, TOKENS, claims["e"], h)
            && Decides(EVEN, 1.0, IncomingOf(WORDS, TOKENS, inputs), _ => g, false, {"e"}, newID, Mints(newID))
            && Decides(EVEN, 1.0, IncomingOf(WORDS, TOKENS, inputs), _ => h, false, {"e"}, newID, Joins("e"))
  {
    hide Decides;
    var a, a', b, b' := Token("p", "1"), Token("patrick", "2"), Token("patrick", "2"), Token("paul", "3");
    assert "patrick" != "paul" by { assert |"patrick"| != |"paul"|; }
    assert "p"[0] == "patrick"[0] == "paul"[0];
    assert Crossed(EVEN, a, a', b, b', TOKEN);
    var inputs := [ClaimInput("p", "1", "", ""), ClaimInput("patrick", "2", "", "")];
    assert IncomingOf(WORDS, TOKENS, inputs) == [a, a'];
    DecisionOrderMatters(EVEN, 1.0, a, a', b, b', TOKEN, "e", newID);
  }

  // -------------------------------------------------------------------------------------------
  // The resolver with its memo of graphs
  // -------------------------------------------------------------------------------------------

  function PairsOf(cs: seq<Claim>): seq<(string, string)> {
    seq(|cs|, i requires 0 <= i < |cs| => (cs[i].attr, cs[i].value))
  }

  /** The candidates of both recall channels: those recalled, and those that share an identifier. */
  ghost predicate Found(split: Splitter, claims: Claims, cs: seq<Claim>, recalled: seq<string>, found: set<string>) {
    forall e :: e in found <==> e != "" && (e in recalled || Shares(split, claims, e, PairsOf(cs)))
  }

  lemma FoundBoth(split: Splitter, claims: Claims, cs: seq<Claim>, recalled: seq<string>, shared: seq<string>)
    requires forall e :: e in shared <==> Shares(split, claims, e, PairsOf(cs))
    ensures Found(split, claims, cs, recalled, Elements(recalled) + Elements(shared) - {""})
  {
    hide Shares;
  }

  /** Holding an identifier value that a record presents makes an entity a candidate, whatever was recalled. */
  lemma SharedFound(split: Splitter, o: Ontology, claims: Claims, inputs: seq<ClaimInput>, recalled: seq<string>,
                    found: set<string>, i: nat, e: string, h: string)
    requires Found(split, claims, IncomingOf(split, o, inputs), recalled, found)
    requires i < |inputs| && e != "" && h in Held(claims, e)
    requires split(inputs[i].text) == split(Held(claims, e)[h].text)
    requires var (concept, value) := split(inputs[i].text); concept in IDENTIFIER_CONCEPTS && value != ""
    ensures e in found
  {
    var pairs := PairsOf(IncomingOf(split, o, inputs));
    assert SharesAt(split, Held(claims, e), h, pairs[i]);
  }

  /** What is scored of a claim: its concept and value, what the concept says of it, and when it was valid. */
  lemma GraphSays(split: Splitter, o: Ontology, held: ClaimSet, cs: seq<Claim>, h: string)
    requires Graph(split, o, held, cs)
    ensures h in held <==> exists c :: c in cs && c.hash == h
    ensures forall c :: c in cs && c.hash == h ==>
              && h in held && (c.attr, c.value) == split(held[h].text)
              && c.kind == o.kindOf(c.attr) && c.role == o.roleOf(c.attr)
              && c.valid == o.validity(held[h].validFrom, held[h].validUntil)
  {
    if h in held {
      assert ScoredOf(split, o, h, held[h]) in cs;
    }
  }

  /** The graphs of a memo. */
  function FromMemo(memo: map<string, seq<Claim>>): string -> seq<Claim> {
    (e: string) => if e in memo then memo[e] else []
  }

  lemma GraphsOfMemo(split: Splitter, o: Ontology, claims: Claims, memo: map<string, seq<Claim>>, found: set<string>)
    requires forall e :: e in memo ==> Graph(split, o, Held(claims, e), memo[e])
    requires found <= memo.Keys
    ensures Graphs(split, o, claims, found, FromMemo(memo))
  {
    hide Graph;
    forall e | e in found ensures Graph(split, o, Held(claims, e), FromMemo(memo)(e)) {
      assert e in memo.Keys;
    }
  }

  class Matcher {
    const service: Service
    const ontology: Ontology
    var entityClaims: map<string, seq<Claim>>

    /** Every memoized graph is a graph of what the entity holds now. */
    ghost predicate Current()
      reads this, service.ledger
    {
      forall e :: e in entityClaims ==>
        Graph(service.ledger.split, ontology, Held(service.ledger.claims, e), entityClaims[e])
    }

    ghost predicate Valid()
      reads this, service, service.ledger
    {
      service.Valid() && Current()
    }

    constructor (service: Service, ontology: Ontology)
      requires service.Valid()
      ensures Valid() && this.service == service && this.ontology == ontology && entityClaims == map[]
    {
      this.service, this.ontology, entityClaims := service, ontology, map[];
    }

    /** The memoized graph of an entity, or a new one in whatever order its claims come. */
    method EntityScoredClaims(e: string) returns (cs: seq<Claim>)
      requires Current()
      modifies `entityClaims
      ensures Current() && Graph(service.ledger.split, ontology, Held(service.ledger.claims, e), cs)
      ensures entityClaims == old(entityClaims)[e := cs] && (e in old(entityClaims) ==> cs == old(entityClaims)[e])
    {
      if e in entityClaims {
        cs := entityClaims[e];
        assert entityClaims == entityClaims[e := cs];
        return;
      }
      var held := Held(service.ledger.claims, e);
      cs := ListGraph(service.ledger.split, ontology, held);
      entityClaims := entityClaims[e := cs];
    }

    /** Materializes the graphs of some entities. */
    method LoadGraphs(es: seq<string>)
      requires Current()
      modifies `entityClaims
      ensures Current() && forall e :: e in es ==> e in entityClaims
    {
      hide Graph;
      for i := 0 to |es|
        invariant Current() && forall e :: e in es[..i] ==> e in entityClaims
      {
        var cs := EntityScoredClaims(es[i]);
      }
    }

    /**
     Resolves one record against the ledger. An observation seen before is a NOOP at its entity. Any
     other goes to the best candidate that the ledger's own graphs, in whatever order, let it join, or
     to a new entity; that entity then holds every hash of the record.
     */
    method ResolveRecord(p: Params, gate: real, inputs: seq<ClaimInput>, recallFails: bool, recalled: seq<string>,
                         newID: string, indexFails: bool)
      returns (r: Outcome, ghost d: Decision, ghost graph: string -> seq<Claim>, ghost found: set<string>)
      requires Valid() && Sane(p)
      modifies this, service, service.ledger
      ensures Valid()
      ensures inputs == [] ==> r == Resolved("", [], false, true)
      ensures inputs != [] && ObservationKey(service.digest, inputs) in old(service.seenObs) ==>
                && r == Resolved(old(service.seenObs)[ObservationKey(service.digest, inputs)], [], false, true)
                && service.seenObs == old(service.seenObs) && service.ledger.claims == old(service.ledger.claims)
      ensures inputs != [] && ObservationKey(service.digest, inputs) !in old(service.seenObs) ==>
                var split := service.ledger.split;
                var incoming := IncomingOf(split, ontology, inputs);
                if recallFails then r == Failed && service.ledger.claims == old(service.ledger.claims)
                else
                  && Found(split, old(service.ledger.claims), incoming, recalled, found)
                  && Graphs(split, ontology, old(service.ledger.claims), found, graph)
                  && Decides(p, gate, incoming, graph, false, found, newID, d)
                  && service.seenObs == old(service.seenObs)[ObservationKey(service.digest, inputs) := d.entity]
                  && service.ledger.claims == ResolvedClaims(old(service.ledger.claims), d, inputs)
                  && Keeps(service.ledger.claims, d.entity, inputs)
                  && (r == Failed ==> indexFails)
                  && (r != Failed ==> r.entity == d.entity && r.isNew == d.Mints?)
    {
      hide Compare, Joinable, Sane, ObservationKey, Keeps, BestOf, NoneJoinable, Graph, IncomingOf, Shares, Found,
           Graphs, FromMemo;
      d, graph, found := Undecided, e => [], {};
      if inputs == [] || ObservationKey(service.digest, inputs) in service.seenObs || recallFails {
        r := service.Resolve(inputs, Undecided, indexFails);
        return;
      }
      var incoming := IncomingOf(service.ledger.split, ontology, inputs);
      var shared := service.ledger.IdentifierCandidates(PairsOf(incoming));
      LoadGraphs(recalled + shared);
      var g := FromMemo(entityClaims);
      ghost var claims := service.ledger.claims;
      var decision := ResolveEntity(p, gate, incoming, g, false, recalled, shared, newID);
      d, graph, found := decision, g, Elements(recalled) + Elements(shared) - {""};
      FoundBoth(service.ledger.split, claims, incoming, recalled, shared);
      GraphsOfMemo(service.ledger.split, ontology, claims, entityClaims, found);
      ResolvedKeeps(claims, decision, inputs);
      var known := decision.Joins? && Missing(Held(service.ledger.claims, decision.entity), inputs) == [];
      r := service.Resolve(inputs, decision, indexFails);
      if !known {
        entityClaims := entityClaims - {decision.entity};
      }
    }

    /** Scores an entity against its neighbours, in order of their ids, without acting on it. */
    method ScoreEdges(p: Params, entity: string, recalled: seq<string>)
      returns (edges: seq<Repair.Scored>, ghost subject: seq<Claim>, ghost graph: string -> seq<Claim>,
               ghost ordered: seq<string>)
      requires Valid() && Sane(p)
      modifies `entityClaims
      ensures Valid() && edges == EdgesTo(p, entity, subject, graph, ordered)
      ensures var split, claims := service.ledger.split, service.ledger.claims;
              && Graph(split, ontology, Held(claims, entity), subject) && Sorted(ordered)
              && Found(split, claims, subject, recalled, Elements(ordered))
              && Graphs(split, ontology, claims, Elements(ordered), graph)
    {
      hide Compare, Sane, Graph, Shares, Less, EdgesTo, Sorted, Found, Graphs, FromMemo, MemoOk, CountsOk, DfOk,
           IdentOk;
      var mine := EntityScoredClaims(entity);
      var shared := service.ledger.IdentifierCandidates(PairsOf(mine));
      var neighbours := Candidates(recalled, shared);
      LoadGraphs(neighbours);
      var g := FromMemo(entityClaims);
      subject, graph, ordered := mine, g, neighbours;
      FoundBoth(service.ledger.split, service.ledger.claims, mine, recalled, shared);
      assert Elements(neighbours) <= entityClaims.Keys;
      GraphsOfMemo(service.ledger.split, ontology, service.ledger.claims, entityClaims, Elements(neighbours));
      edges := ScoreAll(p, entity, mine, g, neighbours);
    }
  }

  /** The claims of a set as a graph, in any order. */
  method ListGraph(split: Splitter, o: Ontology, held: ClaimSet) returns (cs: seq<Claim>)
    ensures Graph(split, o, held, cs)
  {
    hide ScoredOf;
    cs := [];
    var todo := held.Keys;
    while todo != {}
      invariant todo <= held.Keys
      invariant forall i, j :: 0 <= i < j < |cs| ==> cs[i].hash != cs[j].hash
      invariant forall c :: c in cs ==>
                              c.hash in held && c.hash !in todo && c == ScoredOf(split, o, c.hash, held[c.hash])
      invariant forall h :: h in held && h !in todo ==> ScoredOf(split, o, h, held[h]) in cs
      decreases todo
    {
      var h :| h in todo;
      var c := ScoredOf(split, o, h, held[h]);
      assert c.hash == h by { HashKept(split, o, h, held[h]); }
      cs, todo := cs + [c], todo - {h};
    }
  }

  lemma HashKept(split: Splitter, o: Ontology, h: string, e: ClaimEntry)
    ensures ScoredOf(split, o, h, e).hash == h
  {
  }

  function EdgeOf(p: Params, entity: string, subject: seq<Claim>, graph: string -> seq<Claim>, f: string)
    : Repair.Scored
  {
    var d := Compare(p, subject, graph(f));
    Repair.Scored(entity, f, d.score, d.veto)
  }

  /** The edges to the others of a list, in its order. */
  function EdgesTo(p: Params, entity: string, subject: seq<Claim>, graph: string -> seq<Claim>, fs: seq<string>)
    : seq<Repair.Scored>
  {
    if fs == [] then []
    else
      var front, f := EdgesTo(p, entity, subject, graph, fs[..|fs| - 1]), fs[|fs| - 1];
      if f == entity then front else front + [EdgeOf(p, entity, subject, graph, f)]
  }

  /** An entity has one edge to each other one of an ascending list, in its order, with the score of the pair. */
  lemma {:induction false} EdgesExactly(p: Params, entity: string, subject: seq<Claim>, graph: string -> seq<Claim>,
                                        fs: seq<string>)
    requires Sorted(fs)
    ensures var edges := EdgesTo(p, entity, subject, graph, fs);
            && (forall i, j :: 0 <= i < j < |edges| ==> Less(edges[i].b, edges[j].b))
            && (forall e :: e in edges ==>
                  && e.a == entity && e.b != entity && e.b in fs
                  && e.weight == Compare(p, subject, graph(e.b)).score
                  && e.veto == Compare(p, subject, graph(e.b)).veto)
            && forall f :: f in fs && f != entity ==> exists e :: e in edges && e.b == f
  {
    hide Compare, Less;
    if fs != [] {
      var front, f := fs[..|fs| - 1], fs[|fs| - 1];
      EdgesExactly(p, entity, subject, graph, front);
      assert fs == front + [f];
      var before, edges := EdgesTo(p, entity, subject, graph, front), EdgesTo(p, entity, subject, graph, fs);
      assert f != entity ==> edges == before + [EdgeOf(p, entity, subject, graph, f)];
      forall g | g in fs && g != entity ensures exists e :: e in edges && e.b == g {
        if g in front {
          var e :| e in before && e.b == g;
          assert e in edges;
        } else {
          assert EdgeOf(p, entity, subject, graph, f) in edges;
        }
      }
      forall e | e in before ensures Less(e.b, f) {
        var k :| 0 <= k < |front| && front[k] == e.b;
        assert fs[k] == e.b;
      }
    }
  }

  method ScoreAll(p: Params, entity: string, subject: seq<Claim>, graph: string -> seq<Claim>, ordered: seq<string>)
    returns (edges: seq<Repair.Scored>)
    requires Sane(p)
    ensures edges == EdgesTo(p, entity, subject, graph, ordered)
  {
    hide Compare, Sane;
    edges := [];
    for i := 0 to |ordered|
      invariant edges == EdgesTo(p, entity, subject, graph, ordered[..i])
    {
      var f := ordered[i];
      assert ordered[..i + 1][..i] == ordered[..i];
      if f == entity {
        continue;
      }
      var d := ComputeIdDiff(p, subject, graph(f));
      edges := edges + [Repair.Scored(entity, f, d.score, d.veto)];
    }
    assert ordered[..|ordered|] == ordered;
  }
}
