/**
 Ingest-time resolution with its idempotency memo, over the entities that repair also folds
 together. `Valid` says that every memoized observation maps to an entity that holds all of its claim
 hashes and that the observation counts count exactly the memoized observations; resolving and
 repairing both keep it.
 */
module Resolution {
  import opened Ordering
  import opened Ledger
  import opened Merging

  // -------------------------------------------------------------------------------------------
  // The identity of an observation
  // -------------------------------------------------------------------------------------------

  function ClaimKey(c: ClaimInput): string {
    c.hash + "\0" + c.validFrom + "\0" + c.validUntil
  }

  function ClaimKeys(claims: seq<ClaimInput>): (keys: seq<string>)
    ensures |keys| == |claims|
  {
    if claims == [] then [] else ClaimKeys(claims[..|claims| - 1]) + [ClaimKey(claims[|claims| - 1])]
  }

  function Join(parts: seq<string>, separator: string): string {
    if parts == [] then "" else if |parts| == 1 then parts[0] else parts[0] + separator + Join(parts[1..], separator)
  }

  function ObservationKey(digest: string -> string, claims: seq<ClaimInput>): string {
    digest(Join(Sort(ClaimKeys(claims)), "\n"))
  }

  /** How often `key` occurs among the keys of the claims, counted on the claims. */
  lemma {:induction false} KeyMultiplicity(claims: seq<ClaimInput>, other: seq<ClaimInput>)
    requires multiset(claims) == multiset(other)
    ensures multiset(ClaimKeys(claims)) == multiset(ClaimKeys(other))
    decreases |claims|
  {
    assert |claims| == |multiset(claims)| == |multiset(other)| == |other|;
    if claims != [] {
      var last := claims[|claims| - 1];
      MultisetFront(claims);
      assert last in multiset(other);
      var i :| 0 <= i < |other| && other[i] == last;
      SplitAt(other, i);
      MultisetWithout(other[..i], last, other[i + 1..]);
      KeyMultiplicity(claims[..|claims| - 1], other[..i] + other[i + 1..]);
      KeysWithout(other[..i], last, other[i + 1..]);
    }
  }

  lemma SplitAt(s: seq<ClaimInput>, i: nat)
    requires i < |s|
    ensures s == (s[..i] + [s[i]]) + s[i + 1..]
  {
  }

  lemma MultisetFront(claims: seq<ClaimInput>)
    requires claims != []
    ensures multiset(claims[..|claims| - 1]) == multiset(claims) - multiset{claims[|claims| - 1]}
  {
    assert claims == claims[..|claims| - 1] + [claims[|claims| - 1]];
  }

  lemma MultisetWithout(a: seq<ClaimInput>, x: ClaimInput, b: seq<ClaimInput>)
    ensures multiset(a + b) == multiset((a + [x]) + b) - multiset{x}
  {
  }

  lemma {:induction false} KeysAppend(a: seq<ClaimInput>, b: seq<ClaimInput>)
    ensures ClaimKeys(a + b) == ClaimKeys(a) + ClaimKeys(b)
    decreases |b|
  {
    if b == [] {
      assert a + b == a;
    } else {
      KeysAppend(a, b[..|b| - 1]);
      assert (a + b)[..|a + b| - 1] == a + b[..|b| - 1];
    }
  }

  lemma KeysWithout(a: seq<ClaimInput>, x: ClaimInput, b: seq<ClaimInput>)
    ensures multiset(ClaimKeys((a + [x]) + b)) == multiset(ClaimKeys(a + b)) + multiset{ClaimKey(x)}
  {
    hide ClaimKeys, ClaimKey;
    KeysMiddle(a, x, b);
    KeysAppend(a, b);
    MultisetMiddle(ClaimKeys(a), ClaimKey(x), ClaimKeys(b));
  }

  lemma KeysMiddle(a: seq<ClaimInput>, x: ClaimInput, b: seq<ClaimInput>)
    ensures ClaimKeys((a + [x]) + b) == (ClaimKeys(a) + [ClaimKey(x)]) + ClaimKeys(b)
  {
    hide ClaimKeys, ClaimKey;
    KeysAppend(a + [x], b);
    KeysAppend(a, [x]);
    KeysOne(x);
  }

  lemma KeysOne(x: ClaimInput)
    ensures ClaimKeys([x]) == [ClaimKey(x)]
  {
  }

  lemma MultisetMiddle(a: seq<string>, x: string, b: seq<string>)
    ensures multiset((a + [x]) + b) == multiset(a + b) + multiset{x}
  {
  }

  /** Any permutation of an observation has its key. */
  lemma PermutationSameKey(digest: string -> string, claims: seq<ClaimInput>, other: seq<ClaimInput>)
    requires multiset(claims) == multiset(other)
    ensures ObservationKey(digest, claims) == ObservationKey(digest, other)
    ensures HashesOf(claims) == HashesOf(other)
  {
    KeyMultiplicity(claims, other);
    SortCanonical(ClaimKeys(claims), ClaimKeys(other));
    forall h ensures h in HashesOf(claims) <==> h in HashesOf(other) {
      assert forall c :: c in claims <==> c in multiset(claims);
      assert forall c :: c in other <==> c in multiset(other);
    }
  }

  // -------------------------------------------------------------------------------------------
  // The memo
  // -------------------------------------------------------------------------------------------

  /** What each memoized key was first presented with. */
  type History = map<string, seq<ClaimInput>>

  ghost predicate Keeps(claims: Claims, e: string, observation: seq<ClaimInput>) {
    e in claims && HashesOf(observation) <= claims[e].Keys
  }

  /** Every memoized observation maps to an entity that holds all of its claim hashes. */
  ghost predicate MemoOk(digest: string -> string, claims: Claims, memo: map<string, string>, history: History) {
    && memo.Keys == history.Keys
    && forall k :: k in memo && k in history ==>
         k == ObservationKey(digest, history[k]) && Keeps(claims, memo[k], history[k])
  }

  ghost function Observing(history: History, h: string): set<string> {
    set k | k in history && h in HashesOf(history[k])
  }

  /** Observations are counted once per memo entry, hashes once per memoized observation holding them. */
  ghost predicate CountsOk(observations: nat, occurrences: map<string, nat>, history: History) {
    && observations == |history.Keys|
    && forall h :: Count(occurrences, h) == if h == "" then 0 else |Observing(history, h)|
  }

  lemma CountsStep(observations: nat, occurrences: map<string, nat>, history: History, key: string,
                   claims: seq<ClaimInput>, occurrences': map<string, nat>)
    requires CountsOk(observations, occurrences, history) && key !in history
    requires forall h :: Count(occurrences', h) ==
                           Count(occurrences, h) + (if h != "" && h in HashesOf(claims) then 1 else 0)
    ensures CountsOk(observations + 1, occurrences', history[key := claims])
  {
    var history' := history[key := claims];
    assert history'.Keys == history.Keys + {key};
    forall h ensures Count(occurrences', h) == if h == "" then 0 else |Observing(history', h)| {
      ObservingStep(history, key, claims, h);
    }
  }

  lemma ObservingStep(history: History, key: string, claims: seq<ClaimInput>, h: string)
    requires key !in history
    ensures Observing(history[key := claims], h) ==
            Observing(history, h) + (if h in HashesOf(claims) then {key} else {})
    ensures key !in Observing(history, h)
  {
  }

  /** Growing claim sets never unsettle the memo. */
  lemma MemoGrows(digest: string -> string, claims: Claims, after: Claims, memo: map<string, string>, history: History)
    requires MemoOk(digest, claims, memo, history)
    requires claims.Keys <= after.Keys && forall e :: e in claims && e in after ==> claims[e].Keys <= after[e].Keys
    ensures MemoOk(digest, after, memo, history)
  {
    hide ObservationKey;
    forall k | k in memo && k in history ensures Keeps(after, memo[k], history[k]) {
      assert Keeps(claims, memo[k], history[k]);
      assert memo[k] in after.Keys;
    }
  }

  lemma MemoStep(digest: string -> string, claims: Claims, memo: map<string, string>, history: History,
                 observation: seq<ClaimInput>, e: string)
    requires MemoOk(digest, claims, memo, history) && Keeps(claims, e, observation)
    ensures var key := ObservationKey(digest, observation);
            MemoOk(digest, claims, memo[key := e], history[key := observation])
  {
    hide ObservationKey, Keeps;
  }

  function Repointed(memo: map<string, string>, assign: Assignment): map<string, string> {
    map k | k in memo :: if memo[k] in assign then assign[memo[k]] else memo[k]
  }

  /** Merging entities and re-pointing the memo keeps every memoized observation covered. */
  lemma MemoMerges(digest: string -> string, claims: Claims, assign: Assignment, after: Claims,
                   memo: map<string, string>, history: History)
    requires MemoOk(digest, claims, memo, history)
    requires Flat(claims, assign) && Merged(claims, assign, assign.Keys, after)
    ensures MemoOk(digest, after, Repointed(memo, assign), history)
  {
    hide ObservationKey, Describes, Flat;
    var memo' := Repointed(memo, assign);
    forall k | k in memo' && k in history
      ensures k == ObservationKey(digest, history[k]) && Keeps(after, memo'[k], history[k])
    {
      assert Keeps(claims, memo[k], history[k]);
      KeepsMerged(claims, assign, after, memo[k], history[k]);
    }
  }

  lemma KeepsMerged(claims: Claims, assign: Assignment, after: Claims, e: string, observation: seq<ClaimInput>)
    requires Flat(claims, assign) && Merged(claims, assign, assign.Keys, after) && Keeps(claims, e, observation)
    ensures Keeps(after, if e in assign then assign[e] else e, observation)
  {
    hide Entry;
    var c := if e in assign then assign[e] else e;
    assert c in after.Keys;
    assert InGroup(assign, assign.Keys, c, e);
    assert Describes(claims, assign, assign.Keys, c, after[c]);
    forall h | h in HashesOf(observation) ensures h in after[c] {
      assert Holds(claims, e, h);
    }
  }

  // -------------------------------------------------------------------------------------------
  // The service
  // -------------------------------------------------------------------------------------------

  /** What candidate scoring decided: an error, an existing entity, or a newly minted one. */
  datatype Decision = Undecided | Joins(entity: string) | Mints(entity: string)

  datatype Outcome = Failed | Resolved(entity: string, newHashes: seq<string>, isNew: bool, isNoop: bool)

  /** The claims an entity does not hold yet, in the order presented. */
  function Missing(held: ClaimSet, claims: seq<ClaimInput>): (missing: seq<ClaimInput>)
    ensures forall c :: c in missing ==> c in claims && c.hash !in held
  {
    if claims == [] then []
    else
      var front := Missing(held, claims[..|claims| - 1]);
      if claims[|claims| - 1].hash in held then front else front + [claims[|claims| - 1]]
  }

  function HashList(claims: seq<ClaimInput>): seq<string> {
    seq(|claims|, i requires 0 <= i < |claims| => claims[i].hash)
  }

  /** Each claim is judged alone and the order is kept: an observation in two parts lacks what the parts lack. */
  lemma {:induction false} MissingParts(held: ClaimSet, a: seq<ClaimInput>, b: seq<ClaimInput>)
    ensures Missing(held, a + b) == Missing(held, a) + Missing(held, b)
    decreases |b|
  {
    if b == [] {
      assert a + b == a;
    } else {
      MissingParts(held, a, b[..|b| - 1]);
      assert (a + b)[..|a + b| - 1] == a + b[..|b| - 1];
      var last := b[|b| - 1];
      assert (a + b)[|a + b| - 1] == last;
      if last.hash !in held {
        assert Missing(held, a + b) == Missing(held, a + b[..|b| - 1]) + [last];
      }
    }
  }

  lemma MissingOne(held: ClaimSet, c: ClaimInput)
    ensures Missing(held, [c]) == if c.hash in held then [] else [c]
  {
    assert Missing(held, [c][..0]) == [];
  }

  /** Adding what is missing leaves nothing missing. */
  lemma {:induction false} MissingCovers(held: ClaimSet, claims: seq<ClaimInput>)
    ensures HashesOf(claims) <= held.Keys + HashesOf(Missing(held, claims))
  {
    if claims != [] {
      var front, last := claims[..|claims| - 1], claims[|claims| - 1];
      MissingCovers(held, front);
      assert claims == front + [last];
      forall h | h in HashesOf(claims) ensures h in held.Keys + HashesOf(Missing(held, claims)) {
        var c :| c in claims && c.hash == h;
        if c in front {
          assert h in HashesOf(front);
          if h !in held {
            var d :| d in Missing(held, front) && d.hash == h;
            assert d in Missing(held, claims);
          }
        } else {
          assert h in held || last in Missing(held, claims);
        }
      }
    }
  }

  /** What a resolution that was decided does to the claims. */
  function ResolvedClaims(claims: Claims, decision: Decision, inputs: seq<ClaimInput>): Claims
    requires !decision.Undecided?
  {
    var e := decision.entity;
    var missing := Missing(Held(claims, e), inputs);
    if decision.Joins? && missing == [] then claims else claims[e := AddAll(Held(claims, e), missing)]
  }

  /** Afterwards the entity holds every presented hash, and nobody holds less. */
  lemma ResolvedKeeps(claims: Claims, decision: Decision, inputs: seq<ClaimInput>)
    requires !decision.Undecided? && inputs != []
    ensures var after := ResolvedClaims(claims, decision, inputs);
            && Keeps(after, decision.entity, inputs)
            && claims.Keys <= after.Keys
            && forall e :: e in claims && e in after ==> claims[e].Keys <= after[e].Keys
  {
    var e := decision.entity;
    var held := Held(claims, e);
    var missing := Missing(held, inputs);
    MissingCovers(held, inputs);
    AddAllKeys(held, missing);
    if missing == [] {
      assert HashesOf(missing) == {};
      assert inputs[0].hash in HashesOf(inputs);
    }
  }

  /** A claim whose hash is new and first presented is also the first of its hash among the missing ones. */
  lemma {:induction false} MissingFirst(held: ClaimSet, claims: seq<ClaimInput>, i: nat) returns (j: nat)
    requires First(claims, i) && claims[i].hash !in held
    ensures First(Missing(held, claims), j) && Missing(held, claims)[j] == claims[i]
  {
    var front, last := claims[..|claims| - 1], claims[|claims| - 1];
    FirstFront(claims, i);
    if i == |front| {
      j := |Missing(held, front)|;
    } else {
      j := MissingFirst(held, front, i);
    }
  }

  /** Claims of other hashes leave an entry as it was. */
  lemma {:induction false} AddAllApart(held: ClaimSet, claims: seq<ClaimInput>)
    requires forall c :: c in claims ==> c.hash !in held
    ensures forall h :: h in held ==> h in AddAll(held, claims) && AddAll(held, claims)[h] == held[h]
  {
    if claims != [] {
      AddAllApart(held, claims[..|claims| - 1]);
    }
  }

  /** Adding what is missing keeps every entry held; a new hash gets the text of the first claim presented with it. */
  lemma MissingTexts(held: ClaimSet, inputs: seq<ClaimInput>)
    ensures var after := AddAll(held, Missing(held, inputs));
            && after.Keys == held.Keys + HashesOf(inputs)
            && (forall h :: h in held ==> after[h] == held[h])
            && forall i: nat :: First(inputs, i) && inputs[i].hash !in held ==>
                                  after[inputs[i].hash].text == inputs[i].text
  {
    var missing := Missing(held, inputs);
    MissingCovers(held, inputs);
    AddAllKeys(held, missing);
    AddAllApart(held, missing);
    assert HashesOf(missing) <= HashesOf(inputs);
    forall i: nat | First(inputs, i) && inputs[i].hash !in held
      ensures AddAll(held, missing)[inputs[i].hash].text == inputs[i].text
    {
      var j := MissingFirst(held, inputs, i);
      AddAllTexts(held, missing);
    }
  }

  /**
   A decided resolution leaves every other entity and every entry the entity held as they were; a new
   hash gets the text of the first claim presented with it.
   */
  lemma ResolvedTexts(claims: Claims, decision: Decision, inputs: seq<ClaimInput>)
    requires !decision.Undecided?
    ensures var after, e := ResolvedClaims(claims, decision, inputs), decision.entity;
            && (forall x :: x != e ==> Held(after, x) == Held(claims, x))
            && Held(after, e).Keys == Held(claims, e).Keys + HashesOf(inputs)
            && (forall h :: h in Held(claims, e) ==> Held(after, e)[h] == Held(claims, e)[h])
            && forall i: nat :: First(inputs, i) && inputs[i].hash !in Held(claims, e) ==>
                                  Held(after, e)[inputs[i].hash].text == inputs[i].text
  {
    hide First, Missing;
    var held := Held(claims, decision.entity);
    MissingTexts(held, inputs);
    assert Held(ResolvedClaims(claims, decision, inputs), decision.entity) == AddAll(held, Missing(held, inputs));
  }

  /** A claim that names a non-empty identifier value under a new hash makes its entity a candidate for it. */
  lemma ResolvedShares(split: Splitter, claims: Claims, decision: Decision, inputs: seq<ClaimInput>, i: nat)
    requires !decision.Undecided? && First(inputs, i) && inputs[i].hash !in Held(claims, decision.entity)
    requires var (concept, value) := split(inputs[i].text); concept in IDENTIFIER_CONCEPTS && value != ""
    ensures Shares(split, ResolvedClaims(claims, decision, inputs), decision.entity, [split(inputs[i].text)])
  {
    hide ResolvedClaims;
    var after := ResolvedClaims(claims, decision, inputs);
    ResolvedTexts(claims, decision, inputs);
    assert inputs[i].hash in HashesOf(inputs);
    assert SharesAt(split, Held(after, decision.entity), inputs[i].hash, [split(inputs[i].text)][0]);
  }

  class Service {
    const digest: string -> string
    const ledger: EntityLedger
    var seenObs: map<string, string>
    ghost var history: History

    ghost predicate Valid()
      reads this, ledger
    {
      && ledger.Indexed()
      && MemoOk(digest, ledger.claims, seenObs, history)
      && CountsOk(ledger.observations, ledger.occurrences, history)
    }

    constructor (digest: string -> string, split: Splitter)
      ensures Valid() && fresh(ledger) && seenObs == map[] && ledger.claims == map[]
    {
      this.digest := digest;
      ledger := new EntityLedger(split);
      seenObs, history := map[], map[];
      new;
      NoHistory();
    }

    /**
     Resolves one record. An observation seen before is a NOOP at the entity it was resolved to;
     otherwise the decision is memoized, the observation counted and the missing claims added. An
     error of the index at the very end leaves the resolution in place.
     */
    method Resolve(inputs: seq<ClaimInput>, decision: Decision, indexFails: bool) returns (r: Outcome)
      requires Valid()
      modifies this, ledger
      ensures Valid()
      ensures inputs == [] || ObservationKey(digest, inputs) in old(seenObs) || decision.Undecided? ==>
                && seenObs == old(seenObs) && history == old(history) && ledger.claims == old(ledger.claims)
                && ledger.occurrences == old(ledger.occurrences) && ledger.observations == old(ledger.observations)
      ensures inputs == [] ==> r == Resolved("", [], false, true)
      ensures inputs != [] && ObservationKey(digest, inputs) in old(seenObs) ==>
                && r == Resolved(old(seenObs)[ObservationKey(digest, inputs)], [], false, true)
      ensures inputs != [] && ObservationKey(digest, inputs) !in old(seenObs) ==>
                if decision.Undecided? then r == Failed
                else
                  && seenObs == old(seenObs)[ObservationKey(digest, inputs) := decision.entity]
                  && history == old(history)[ObservationKey(digest, inputs) := inputs]
                  && ledger.claims == ResolvedClaims(old(ledger.claims), decision, inputs)
                  && (r == Failed ==> indexFails)
                  && (r != Failed ==>
                        && r.entity == decision.entity
                        && r.newHashes == HashList(Missing(Held(old(ledger.claims), decision.entity), inputs))
                        && r.isNew == decision.Mints?
                        && r.isNoop == (decision.Joins? && r.newHashes == []))
    {
      hide MemoOk, CountsOk, DfOk, IdentOk, ObservationKey, ClaimKeys, Keeps, Missing, AddAll, HashesOf;
      if inputs == [] {
        return Resolved("", [], false, true);
      }
      var key := ObservationKey(digest, inputs);
      if key in seenObs {
        return Resolved(seenObs[key], [], false, true);
      }
      if decision.Undecided? {
        return Failed;
      }
      HistoryKeys(digest, ledger.claims, seenObs, history);
      var entity := decision.entity;
      ghost var before := ledger.claims;
      ResolvedKeeps(before, decision, inputs);
      ghost var after := ResolvedClaims(before, decision, inputs);
      MemoGrows(digest, before, after, seenObs, history);
      MemoStep(digest, after, seenObs, history, inputs, entity);
      ghost var counted := ledger.occurrences;
      seenObs := seenObs[key := entity];
      var missing := Missing(Held(ledger.claims, entity), inputs);
      ledger.Observe(inputs);
      CountsStep(ledger.observations - 1, counted, history, key, inputs, ledger.occurrences);
      history := history[key := inputs];
      if decision.Joins? && missing == [] {
        return Resolved(entity, [], false, true);
      }
      ledger.Add(entity, missing);
      if indexFails {
        return Failed;
      }
      r := Resolved(entity, HashList(missing), decision.Mints?, false);
    }
  }

  lemma NoHistory()
    ensures CountsOk(0, map[], map[])
  {
    var none: History := map[];
    assert none.Keys == {};
    forall h ensures Observing(none, h) == {} {
    }
  }

  lemma HistoryKeys(digest: string -> string, claims: Claims, memo: map<string, string>, history: History)
    requires MemoOk(digest, claims, memo, history)
    ensures memo.Keys == history.Keys
  {
  }
}
