/**
 The loops of the signed comparison and of candidate selection, each proved to compute the function
 that defines it, and the choice `ResolveEntity` makes: the best candidate that clears the gate without
 a veto, the last in order among equals, or a newly minted entity when there is none.
 */
module Scoring {
  import opened Ordering
  import opened Evidence
  import opened IdDiff
  import opened Resolution

  // -------------------------------------------------------------------------------------------
  // One attribute
  // -------------------------------------------------------------------------------------------

  lemma Take<T>(s: seq<T>, i: nat)
    requires i < |s|
    ensures s[..i + 1] != [] && s[..i + 1][..|s[..i + 1]| - 1] == s[..i] && s[..i + 1][|s[..i + 1]| - 1] == s[i]
  {
  }

  method BestMatch(p: Params, a: Claim, bv: seq<Claim>) returns (best: real)
    ensures best == BestShared(p, a, bv)
  {
    best := 0.0;
    for j := 0 to |bv|
      invariant best == BestShared(p, a, bv[..j])
    {
      Take(bv, j);
      if ValueMatch(p, a, bv[j], p.tauSet) {
        var m := Min(p.w(a), p.w(bv[j]));
        if m > best {
          best := m;
        }
      }
    }
    assert bv[..|bv|] == bv;
  }

  method SetOverlapMass(p: Params, av: seq<Claim>, bv: seq<Claim>) returns (raw: real, incoming: real)
    requires Sane(p)
    ensures raw == SharedMass(p, av, bv) && incoming == Weight(p, av)
  {
    hide BestShared, Sane;
    raw, incoming := 0.0, 0.0;
    for i := 0 to |av|
      invariant raw == SharedMass(p, av[..i], bv) && incoming == Weight(p, av[..i])
    {
      Take(av, i);
      incoming := incoming + p.w(av[i]);
      var best := BestMatch(p, av[i], bv);
      raw := raw + best;
    }
    assert av[..|av|] == av;
    SharedMassBounds(p, av, bv);
    if incoming == 0.0 {
      return 0.0, 0.0;
    }
  }

  method FunctionalRow(p: Params, a: Claim, bv: seq<Claim>) returns (s: Signed)
    ensures s == RowScore(p, a, bv)
  {
    var ic, iac, veto := 0.0, 0.0, false;
    for j := 0 to |bv|
      invariant Signed(ic, iac, veto) == RowScore(p, a, bv[..j])
    {
      Take(bv, j);
      var b := bv[j];
      if Overlaps(a.valid, b.valid) {
        if ValueMatch(p, a, b, p.tauFunc) {
          ic := ic + p.w(a);
        } else if !Linked(a, b) {
          var mass := Max(p.w(a), p.w(b));
          iac := iac + mass;
          if mass >= p.vetoMass {
            veto := true;
          }
        }
      }
    }
    assert bv[..|bv|] == bv;
    s := Signed(ic, iac, veto);
  }

  method FunctionalScore(p: Params, av: seq<Claim>, bv: seq<Claim>) returns (s: Signed)
    ensures s == FunctionalMass(p, av, bv)
  {
    hide RowScore;
    s := NEUTRAL;
    for i := 0 to |av|
      invariant s == FunctionalMass(p, av[..i], bv)
    {
      Take(av, i);
      var row := FunctionalRow(p, av[i], bv);
      s := Plus(s, row);
    }
    assert av[..|av|] == av;
  }

  method BestOverlap(p: Params, a: Claim, bv: seq<Claim>) returns (best: real)
    ensures best == BestContext(p, a, bv)
  {
    hide Scaled;
    best := 0.0;
    for j := 0 to |bv|
      invariant best == BestContext(p, a, bv[..j])
    {
      Take(bv, j);
      if Overlaps(a.valid, bv[j].valid) {
        var sim := p.cosine(a, bv[j]);
        if sim >= p.tauCtx {
          var m := Scaled(p.w(a), sim);
          if m > best {
            best := m;
          }
        }
      }
    }
    assert bv[..|bv|] == bv;
  }

  method ContextualMass(p: Params, av: seq<Claim>, bv: seq<Claim>) returns (mass: real)
    ensures mass == ContextMass(p, av, bv)
  {
    hide BestContext;
    mass := 0.0;
    for i := 0 to |av|
      invariant mass == ContextMass(p, av[..i], bv)
    {
      Take(av, i);
      var best := BestOverlap(p, av[i], bv);
      mass := mass + best;
    }
    assert av[..|av|] == av;
  }

  // -------------------------------------------------------------------------------------------
  // Names: match flags kept in arrays
  // -------------------------------------------------------------------------------------------

  ghost predicate Flags(flags: array<bool>, at: set<int>)
    reads flags
  {
    forall i :: 0 <= i < flags.Length ==> (flags[i] <==> i in at)
  }

  method Partner(p: Params, a: Claim, bv: seq<Claim>, matched: array<bool>, ghost taken: set<int>)
    returns (best: int, mass: real)
    requires matched.Length == |bv| && Flags(matched, taken)
    ensures Pick(best, mass) == PickPartner(p, a, bv, taken, |bv|)
  {
    best, mass := -1, 0.0;
    for j := 0 to |bv|
      invariant Pick(best, mass) == PickPartner(p, a, bv, taken, j)
    {
      if matched[j] || !Overlaps(a.valid, bv[j].valid) {
        continue;
      }
      if !TokenMatch(p, a, bv[j]) {
        continue;
      }
      var m := Min(p.w(a), p.w(bv[j]));
      if m > mass {
        mass, best := m, j;
      }
    }
  }

  method SubstantiveUnmatched(cs: seq<Claim>, matched: array<bool>, ghost at: set<int>) returns (found: bool)
    requires matched.Length == |cs| && Flags(matched, at)
    ensures found == Divergent(cs, at)
  {
    for i := 0 to |cs|
      invariant forall k :: 0 <= k < i ==> k in at || |cs[k].value| <= 1
    {
      if !matched[i] && |cs[i].value| > 1 {
        return true;
      }
    }
    return false;
  }

  method MaxUnmatchedMass(p: Params, cs: seq<Claim>, matched: array<bool>, ghost at: set<int>) returns (best: real)
    requires matched.Length == |cs| && Flags(matched, at)
    ensures best == HeaviestUnmatched(p, cs, at)
  {
    best := 0.0;
    for i := 0 to |cs|
      invariant best == HeaviestUnmatched(p, cs[..i], at)
    {
      Take(cs, i);
      if !matched[i] {
        var m := p.w(cs[i]);
        if m > best {
          best := m;
        }
      }
    }
    assert cs[..|cs|] == cs;
  }

  method SupersedesAcross(av: seq<Claim>, bv: seq<Claim>) returns (found: bool)
    ensures found == LinkedAcross(av, bv)
  {
    for i := 0 to |av|
      invariant forall k, j :: 0 <= k < i && 0 <= j < |bv| ==> !Linked(av[k], bv[j])
    {
      for j := 0 to |bv|
        invariant forall l :: 0 <= l < j ==> !Linked(av[i], bv[l])
      {
        if Linked(av[i], bv[j]) {
          return true;
        }
      }
    }
    return false;
  }

  /** Greedy matching of tokens on flag arrays. */
  method MatchTokens(p: Params, av: seq<Claim>, bv: seq<Claim>, matchedA: array<bool>, matchedB: array<bool>)
    returns (shared: real)
    requires matchedA.Length == |av| && matchedB.Length == |bv| && matchedA != matchedB
    requires Flags(matchedA, {}) && Flags(matchedB, {})
    modifies matchedA, matchedB
    ensures Flags(matchedA, MatchNames(p, av, bv, |av|).left) && Flags(matchedB, MatchNames(p, av, bv, |av|).right)
    ensures shared == MatchNames(p, av, bv, |av|).shared
  {
    hide PickPartner;
    shared := 0.0;
    for i := 0 to |av|
      invariant Flags(matchedA, MatchNames(p, av, bv, i).left) && Flags(matchedB, MatchNames(p, av, bv, i).right)
      invariant shared == MatchNames(p, av, bv, i).shared
    {
      ghost var m := MatchNames(p, av, bv, i);
      var best, mass := Partner(p, av[i], bv, matchedB, m.right);
      ghost var pick := PickPartner(p, av[i], bv, m.right, |bv|);
      if best >= 0 {
        matchedB[best], matchedA[i] := true, true;
        shared := shared + mass;
      }
    }
  }

  method NameScore(p: Params, av: seq<Claim>, bv: seq<Claim>) returns (s: Signed)
    ensures s == NameMass(p, av, bv)
  {
    hide MatchNames, HeaviestUnmatched, Divergent, LinkedAcross;
    var matchedA := new bool[|av|](_ => false);
    var matchedB := new bool[|bv|](_ => false);
    var shared := MatchTokens(p, av, bv, matchedA, matchedB);
    ghost var m := MatchNames(p, av, bv, |av|);
    var divA := SubstantiveUnmatched(av, matchedA, m.left);
    var divB := SubstantiveUnmatched(bv, matchedB, m.right);
    var linked := SupersedesAcross(av, bv);
    if divA && divB && !linked {
      var a := MaxUnmatchedMass(p, av, matchedA, m.left);
      var b := MaxUnmatchedMass(p, bv, matchedB, m.right);
      return Signed(0.0, Min(a, b), false);
    }
    s := Signed(shared, 0.0, false);
  }

  // -------------------------------------------------------------------------------------------
  // Selecting and grouping claims
  // -------------------------------------------------------------------------------------------

  method SupersededSet(cs: seq<Claim>) returns (gone: set<string>)
    ensures gone == Superseded(cs)
  {
    gone := {};
    for i := 0 to |cs|
      invariant forall u :: u in gone <==> exists k :: 0 <= k < i && u in cs[k].supersedes
    {
      ghost var before := gone;
      for j := 0 to |cs[i].supersedes|
        invariant gone == before + set k | 0 <= k < j :: cs[i].supersedes[k]
      {
        gone := gone + {cs[i].supersedes[j]};
      }
    }
  }

  method DropSuperseded(cs: seq<Claim>) returns (out: seq<Claim>)
    ensures out == Frontier(cs)
  {
    var gone := SupersededSet(cs);
    ghost var keep := (c: Claim) => c.ulid == "" || c.ulid !in gone;
    if gone == {} {
      FilterAll(cs, keep);
      return cs;
    }
    out := [];
    for i := 0 to |cs|
      invariant out == Filter(cs[..i], keep)
    {
      Take(cs, i);
      if cs[i].ulid == "" || cs[i].ulid !in gone {
        out := out + [cs[i]];
      }
    }
    assert cs[..|cs|] == cs;
    FilterSame(cs, keep, (c: Claim) => c.ulid == "" || c.ulid !in Superseded(cs));
  }

  lemma {:induction false} FilterAll(cs: seq<Claim>, keep: Claim -> bool)
    requires forall c :: c in cs ==> keep(c)
    ensures Filter(cs, keep) == cs
  {
    if cs != [] {
      FilterAll(cs[..|cs| - 1], keep);
      assert cs == cs[..|cs| - 1] + [cs[|cs| - 1]];
    }
  }

  lemma {:induction false} FilterSame(cs: seq<Claim>, keep: Claim -> bool, other: Claim -> bool)
    requires forall c :: c in cs ==> keep(c) == other(c)
    ensures Filter(cs, keep) == Filter(cs, other)
  {
    if cs != [] {
      FilterSame(cs[..|cs| - 1], keep, other);
      assert cs[|cs| - 1] in cs;
    }
  }

  method DedupBySource(cs: seq<Claim>) returns (out: seq<Claim>)
    ensures out == Deduped(cs)
  {
    var seen: set<string> := {};
    out := [];
    for i := 0 to |cs|
      invariant out == Deduped(cs[..i])
      invariant forall key :: key in seen <==> exists d :: d in cs[..i] && d.sourceKey != "" && SourceKey(d) == key
    {
      Take(cs, i);
      assert cs[..i + 1] == cs[..i] + [cs[i]];
      if cs[i].sourceKey != "" {
        var key := SourceKey(cs[i]);
        if key in seen {
          continue;
        }
        seen := seen + {key};
      }
      out := out + [cs[i]];
    }
    assert cs[..|cs|] == cs;
  }

  ghost predicate Grouped(groups: map<string, seq<Claim>>, cs: seq<Claim>) {
    && groups.Keys == AttrsOf(cs)
    && forall attr :: attr in groups ==> groups[attr] == Group(cs, attr)
  }

  lemma {:induction false} NoGroup(cs: seq<Claim>, attr: string)
    requires attr !in AttrsOf(cs)
    ensures Group(cs, attr) == []
  {
    if cs != [] {
      assert cs[|cs| - 1] in cs;
      NoGroup(cs[..|cs| - 1], attr);
    }
  }

  method GroupByAttr(cs: seq<Claim>) returns (groups: map<string, seq<Claim>>)
    ensures Grouped(groups, cs)
  {
    groups := map[];
    for i := 0 to |cs|
      invariant Grouped(groups, cs[..i])
    {
      Take(cs, i);
      assert cs[..i + 1] == cs[..i] + [cs[i]];
      var attr := cs[i].attr;
      if attr !in groups {
        NoGroup(cs[..i], attr);
      }
      var held := if attr in groups then groups[attr] else [];
      groups := groups[attr := held + [cs[i]]];
    }
    assert cs[..|cs|] == cs;
  }

  method UnionAttrs(ag: map<string, seq<Claim>>, bg: map<string, seq<Claim>>) returns (attrs: seq<string>)
    ensures Sorted(attrs) && Elements(attrs) == ag.Keys + bg.Keys
  {
    var todo := ag.Keys + bg.Keys;
    var found: seq<string> := [];
    while todo != {}
      invariant Distinct(found) && Elements(found) + todo == ag.Keys + bg.Keys && Elements(found) !! todo
    {
      var k :| k in todo;
      assert k !in Elements(found);
      assert Elements(found + [k]) == Elements(found) + {k};
      found := found + [k];
      todo := todo - {k};
    }
    SortSorts(found);
    attrs := Sort(found);
  }

  // -------------------------------------------------------------------------------------------
  // The comparison
  // -------------------------------------------------------------------------------------------

  /** The evidence of one attribute present on both sides. */
  method ScoreAttr(p: Params, av: seq<Claim>, bv: seq<Claim>) returns (m: Mass)
    requires Sane(p)
    ensures m == AttrMass(p, av, bv)
  {
    hide SharedMass, FunctionalMass, NameMass, ContextMass, Scaled, Sane;
    if |av| == 0 || |bv| == 0 {
      return NOTHING;
    }
    match av[0].kind
    case Set =>
      var raw, incoming := SetOverlapMass(p, av, bv);
      m := NOTHING.(setIncoming := incoming);
      SharedMassBounds(p, av, bv);
      if raw > 0.0 {
        m := m.(setRaw := raw);
        if IdentityAnchor(av) {
          m := m.(anchorSet := raw);
        }
      } else if !p.observationMode && |av| >= 2 && |bv| >= 2 {
        m := m.(iac := Scaled(p.setPenalty, Min(Weight(p, av), Weight(p, bv))));
      }
    case Functional =>
      var s := FunctionalScore(p, av, bv);
      m := Mass(s.ic, 0.0, s.iac, s.ic, 0.0, 0.0, 0.0, s.veto);
    case Name =>
      var s := NameScore(p, av, bv);
      m := Mass(0.0, s.ic, s.iac, s.ic, 0.0, 0.0, 0.0, false);
    case Contextual =>
      var mass := ContextualMass(p, av, bv);
      m := Mass(0.0, mass, 0.0, 0.0, 0.0, 0.0, 0.0, false);
  }

  /** What the loop computes is the comparison the evidence bounds are about. */
  method ComputeIdDiff(p: Params, a: seq<Claim>, b: seq<Claim>) returns (r: Diff)
    requires Sane(p)
    ensures r == Compare(p, a, b)
  {
    hide AttrMass, Deduped, Frontier, Combine, Sane, Group, Attributes;
    var fa := DropSuperseded(a);
    var fb := DropSuperseded(b);
    var ag := GroupByAttr(fa);
    var bg := GroupByAttr(fb);
    var attrs := UnionAttrs(ag, bg);
    AttributesUnique(a, b, attrs);
    var m := NOTHING;
    for i := 0 to |attrs|
      invariant m == Total(p, a, b, attrs, i)
    {
      var av := SideOf(ag, fa, attrs[i]);
      var bv := SideOf(bg, fb, attrs[i]);
      var part := ScoreAttr(p, av, bv);
      m := Add(m, part);
    }
    r := Combine(p, m);
  }

  method SideOf(groups: map<string, seq<Claim>>, ghost cs: seq<Claim>, attr: string) returns (out: seq<Claim>)
    requires Grouped(groups, cs)
    ensures out == Deduped(Group(cs, attr))
  {
    if attr !in groups {
      NoGroup(cs, attr);
    }
    var held := if attr in groups then groups[attr] else [];
    out := DedupBySource(held);
  }

  // -------------------------------------------------------------------------------------------
  // Choosing an entity
  // -------------------------------------------------------------------------------------------

  /** A candidate that may be joined: no veto, and the gate cleared. */
  predicate Joinable(p: Params, gate: real, incoming: seq<Claim>, graph: string -> seq<Claim>, e: string) {
    !Compare(p, incoming, graph(e)).veto && Compare(p, incoming, graph(e)).score >= gate
  }

  /** The joinable candidate with the highest score, the last in order among equals. */
  ghost predicate BestOf(p: Params, gate: real, incoming: seq<Claim>, graph: string -> seq<Claim>, found: set<string>,
                         e: string) {
    && e in found && Joinable(p, gate, incoming, graph, e)
    && forall f :: f in found && f != e && Joinable(p, gate, incoming, graph, f) ==>
                     Compare(p, incoming, graph(f)).score < Compare(p, incoming, graph(e)).score
                     || (Compare(p, incoming, graph(f)).score == Compare(p, incoming, graph(e)).score && Less(f, e))
  }

  /** The distinct named candidates of both recall channels, sorted. */
  method Candidates(recalled: seq<string>, shared: seq<string>) returns (ordered: seq<string>)
    ensures Sorted(ordered) && Elements(ordered) == Elements(recalled) + Elements(shared) - {""}
  {
    var found: seq<string> := [];
    var all := recalled + shared;
    assert Elements(all) == Elements(recalled) + Elements(shared);
    for i := 0 to |all|
      invariant Distinct(found) && Elements(found) == Elements(all[..i]) - {""}
    {
      assert all[..i + 1] == all[..i] + [all[i]];
      assert Elements(all[..i + 1]) == Elements(all[..i]) + {all[i]};
      if all[i] != "" && all[i] !in found {
        assert Elements(found + [all[i]]) == Elements(found) + {all[i]};
        found := found + [all[i]];
      } else {
        assert all[i] == "" || all[i] in Elements(found);
      }
    }
    assert all[..|all|] == all;
    SortSorts(found);
    ordered := Sort(found);
  }

  lemma BestSkips(p: Params, gate: real, incoming: seq<Claim>, graph: string -> seq<Claim>, found: set<string>,
                  e: string, f: string)
    requires BestOf(p, gate, incoming, graph, found, e) && f !in found
    requires Joinable(p, gate, incoming, graph, f) ==>
               Compare(p, incoming, graph(f)).score < Compare(p, incoming, graph(e)).score
    ensures BestOf(p, gate, incoming, graph, found + {f}, e)
  {
    hide Compare, Less;
  }

  lemma BestReplaced(p: Params, gate: real, incoming: seq<Claim>, graph: string -> seq<Claim>, found: set<string>,
                     e: string, f: string)
    requires BestOf(p, gate, incoming, graph, found, e) && Joinable(p, gate, incoming, graph, f)
    requires Compare(p, incoming, graph(f)).score >= Compare(p, incoming, graph(e)).score
    requires forall g :: g in found ==> Less(g, f)
    ensures BestOf(p, gate, incoming, graph, found + {f}, f)
  {
    hide Compare, Less;
  }

  ghost predicate NoneJoinable(p: Params, gate: real, incoming: seq<Claim>, graph: string -> seq<Claim>,
                               found: set<string>) {
    forall f :: f in found ==> !Joinable(p, gate, incoming, graph, f)
  }

  lemma BestFirst(p: Params, gate: real, incoming: seq<Claim>, graph: string -> seq<Claim>, found: set<string>,
                  f: string)
    requires NoneJoinable(p, gate, incoming, graph, found) && Joinable(p, gate, incoming, graph, f)
    ensures BestOf(p, gate, incoming, graph, found + {f}, f)
  {
    hide Compare, Less;
  }

  /** What selection has found among the candidates seen so far. */
  ghost predicate Selected(p: Params, gate: real, incoming: seq<Claim>, graph: string -> seq<Claim>, found: set<string>,
                           best: string, score: real)
  {
    if best == "" then score == gate && NoneJoinable(p, gate, incoming, graph, found)
    else BestOf(p, gate, incoming, graph, found, best) && score == Compare(p, incoming, graph(best)).score
  }

  lemma SelectedStep(p: Params, gate: real, incoming: seq<Claim>, graph: string -> seq<Claim>, found: set<string>,
                     best: string, score: real, f: string)
    requires Selected(p, gate, incoming, graph, found, best, score) && "" !in found && f != ""
    requires forall g :: g in found ==> Less(g, f)
    ensures var d := Compare(p, incoming, graph(f));
            if !d.veto && d.score >= score then Selected(p, gate, incoming, graph, found + {f}, f, d.score)
            else Selected(p, gate, incoming, graph, found + {f}, best, score)
  {
    hide Compare, Less, BestOf;
    LessIrreflexive(f);
    var d := Compare(p, incoming, graph(f));
    if best == "" {
      if !d.veto && d.score >= score {
        BestFirst(p, gate, incoming, graph, found, f);
      }
    } else {
      BestClears(p, gate, incoming, graph, found, best);
      if !d.veto && d.score >= score {
        BestReplaced(p, gate, incoming, graph, found, best, f);
      } else {
        BestSkips(p, gate, incoming, graph, found, best, f);
      }
    }
  }

  lemma BestClears(p: Params, gate: real, incoming: seq<Claim>, graph: string -> seq<Claim>, found: set<string>,
                   e: string)
    requires BestOf(p, gate, incoming, graph, found, e)
    ensures Compare(p, incoming, graph(e)).score >= gate
  {
    hide Compare;
  }

  /**
   Blocks candidates through both recall channels and joins the best one that clears the gate without
   a veto, else mints. Recall itself may fail.
   */
  method ResolveEntity(p: Params, gate: real, incoming: seq<Claim>, graph: string -> seq<Claim>, recallFails: bool,
                       recalled: seq<string>, shared: seq<string>, newID: string) returns (d: Decision)
    requires Sane(p)
    ensures recallFails ==> d == Undecided
    ensures !recallFails ==>
              var found := Elements(recalled) + Elements(shared) - {""};
              if NoneJoinable(p, gate, incoming, graph, found) then d == Mints(newID)
              else d.Joins? && BestOf(p, gate, incoming, graph, found, d.entity)
  {
    hide Compare, Joinable, Sane, Less;
    if recallFails {
      return Undecided;
    }
    var ordered := Candidates(recalled, shared);
    var best, score := "", gate;
    for i := 0 to |ordered|
      invariant Selected(p, gate, incoming, graph, Elements(ordered[..i]), best, score)
    {
      var e := ordered[i];
      assert forall g :: g in Elements(ordered[..i]) ==> Less(g, e);
      assert e in Elements(ordered);
      assert Elements(ordered[..i + 1]) == Elements(ordered[..i]) + {e};
      assert Elements(ordered[..i]) <= Elements(ordered);
      SelectedStep(p, gate, incoming, graph, Elements(ordered[..i]), best, score, e);
      var diff := ComputeIdDiff(p, incoming, graph(e));
      if diff.veto {
        continue;
      }
      if diff.score >= score {
        best, score := e, diff.score;
      }
    }
    assert ordered[..|ordered|] == ordered;
    if best != "" {
      return Joins(best);
    }
    return Mints(newID);
  }

  /** Which decision is made: none when recall fails, else the best joinable candidate or a new entity. */
  ghost predicate Decides(p: Params, gate: real, incoming: seq<Claim>, graph: string -> seq<Claim>, recallFails: bool,
                          found: set<string>, newID: string, d: Decision) {
    if recallFails then d == Undecided
    else if NoneJoinable(p, gate, incoming, graph, found) then d == Mints(newID)
    else d.Joins? && BestOf(p, gate, incoming, graph, found, d.entity)
  }

  lemma NotBoth(a: string, b: string)
    ensures !(Less(a, b) && Less(b, a))
  {
    if Less(a, b) {
      LessAsymmetric(a, b);
    }
  }

  /** The scores decide: two ways to compare that agree on every candidate lead to the same decision. */
  lemma DecidedOnce(p: Params, gate: real, incoming: seq<Claim>, g: string -> seq<Claim>, h: string -> seq<Claim>,
                    recallFails: bool, found: set<string>, newID: string, d: Decision, d': Decision)
    requires forall e :: e in found ==> Compare(p, incoming, g(e)) == Compare(p, incoming, h(e))
    requires Decides(p, gate, incoming, g, recallFails, found, newID, d)
    requires Decides(p, gate, incoming, h, recallFails, found, newID, d')
    ensures d == d'
  {
    hide Compare, Less;
    if d.Joins? && d'.Joins? {
      LessTotal(d.entity, d'.entity);
      NotBoth(d.entity, d'.entity);
    }
  }

  /**
   With a positive gate, a record joins an existing entity only on an attribute that anchors identity
   and only when no single-valued attribute contradicts it heavily enough to veto.
   */
  lemma JoinNeedsAnchor(p: Params, gate: real, incoming: seq<Claim>, graph: string -> seq<Claim>, e: string)
    requires Sane(p) && p.observationMode && gate > 0.0 && Joinable(p, gate, incoming, graph, e)
    ensures exists attr :: attr in Attributes(incoming, graph(e)) && AnchorOn(p, incoming, graph(e), attr)
    ensures !exists attr :: attr in Attributes(incoming, graph(e)) && VetoOn(p, incoming, graph(e), attr)
  {
    hide Compare, AnchorOn, VetoOn, Attributes, Sane;
    AnchorNeeded(p, incoming, graph(e));
    VetoExact(p, incoming, graph(e));
  }
}
