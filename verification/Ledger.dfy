/**
 The entity ledger: each entity's folded claim set, the observation counts behind the weights, and two
 derived indexes (document frequency and identifier blocking) that must agree with the claim sets.
 */
module Ledger {
  import opened Options
  import opened Ordering

  /** A claim as presented: its text, its subject-independent hash and its validity bounds. */
  datatype ClaimInput = ClaimInput(text: string, hash: string, validFrom: string, validUntil: string)

  /** A claim as an entity holds it. An empty bound is unbounded on that side. */
  datatype ClaimEntry = ClaimEntry(text: string, validFrom: string, validUntil: string)

  type ClaimSet = map<string, ClaimEntry>
  type Claims = map<string, ClaimSet>

  // -------------------------------------------------------------------------------------------
  // Validity bounds
  // -------------------------------------------------------------------------------------------

  function EarlierBound(a: string, b: string): string {
    if a == "" || b == "" then "" else if Less(b, a) then b else a
  }

  function LaterBound(a: string, b: string): string {
    if a == "" || b == "" then "" else if Less(a, b) then b else a
  }

  /** `a` starts no later than `b`; an empty start reaches back without limit. */
  predicate StartsBy(a: string, b: string) {
    a == "" || (b != "" && !Less(b, a))
  }

  /** `a` ends no earlier than `b`; an empty end never ends. */
  predicate EndsBy(a: string, b: string) {
    a == "" || (b != "" && !Less(a, b))
  }

  /** The joined start is one of the two, and no later than either; dually for the end. */
  lemma BoundsJoin(a: string, b: string)
    ensures EarlierBound(a, b) == a || EarlierBound(a, b) == b
    ensures StartsBy(EarlierBound(a, b), a) && StartsBy(EarlierBound(a, b), b)
    ensures LaterBound(a, b) == a || LaterBound(a, b) == b
    ensures EndsBy(LaterBound(a, b), a) && EndsBy(LaterBound(a, b), b)
  {
    LessIrreflexive(a);
    LessIrreflexive(b);
    if Less(a, b) {
      LessAsymmetric(a, b);
    }
    if Less(b, a) {
      LessAsymmetric(b, a);
    }
  }

  lemma BoundsTransitive(a: string, b: string, c: string)
    ensures StartsBy(a, b) && StartsBy(b, c) ==> StartsBy(a, c)
    ensures EndsBy(a, b) && EndsBy(b, c) ==> EndsBy(a, c)
  {
    LessTotal(a, b);
    LessTotal(b, c);
    if Less(a, b) && Less(b, c) {
      LessTransitive(a, b, c);
      LessAsymmetric(a, c);
    }
    if Less(c, b) && Less(b, a) {
      LessTransitive(c, b, a);
      LessAsymmetric(c, a);
    }
  }

  lemma BoundsAntisymmetric(a: string, b: string)
    ensures StartsBy(a, b) && StartsBy(b, a) ==> a == b
    ensures EndsBy(a, b) && EndsBy(b, a) ==> a == b
  {
    LessTotal(a, b);
  }

  // -------------------------------------------------------------------------------------------
  // Folding claims into a set
  // -------------------------------------------------------------------------------------------

  /** A new hash is filed as it comes; a known one keeps its text and widens its interval. */
  function AddOne(held: ClaimSet, claim: ClaimInput): ClaimSet {
    held[claim.hash :=
      if claim.hash in held then
        var e := held[claim.hash];
        ClaimEntry(e.text, EarlierBound(e.validFrom, claim.validFrom), LaterBound(e.validUntil, claim.validUntil))
      else ClaimEntry(claim.text, claim.validFrom, claim.validUntil)]
  }

  function AddAll(held: ClaimSet, claims: seq<ClaimInput>): ClaimSet {
    if claims == [] then held
    else AddOne(AddAll(held, claims[..|claims| - 1]), claims[|claims| - 1])
  }

  function HashesOf(claims: seq<ClaimInput>): set<string> {
    set c | c in claims :: c.hash
  }

  lemma {:induction false} AddAllKeys(held: ClaimSet, claims: seq<ClaimInput>)
    ensures AddAll(held, claims).Keys == held.Keys + HashesOf(claims)
  {
    if claims != [] {
      var front, last := claims[..|claims| - 1], claims[|claims| - 1];
      AddAllKeys(held, front);
      assert claims == front + [last];
      assert HashesOf(claims) == HashesOf(front) + {last.hash};
    }
  }

  /** The bounds of `h` as the held entry and each presented claim give them. */
  ghost predicate Offers(held: ClaimSet, claims: seq<ClaimInput>, h: string, from: string, until: string) {
    || (h in held && held[h].validFrom == from && held[h].validUntil == until)
    || exists i :: && 0 <= i < |claims| && claims[i].hash == h
                   && claims[i].validFrom == from && claims[i].validUntil == until
  }

  /** After folding, an entry's interval spans every interval offered for its hash. */
  lemma {:induction false} AddAllSpans(held: ClaimSet, claims: seq<ClaimInput>, h: string, from: string, until: string)
    requires Offers(held, claims, h, from, until)
    ensures h in AddAll(held, claims)
    ensures StartsBy(AddAll(held, claims)[h].validFrom, from) && EndsBy(AddAll(held, claims)[h].validUntil, until)
  {
    LessIrreflexive(from);
    LessIrreflexive(until);
    if claims != [] {
      var front, last := claims[..|claims| - 1], claims[|claims| - 1];
      var before := AddAll(held, front);
      if Offers(held, front, h, from, until) {
        AddAllSpans(held, front, h, from, until);
        BoundsJoin(before[h].validFrom, last.validFrom);
        BoundsJoin(before[h].validUntil, last.validUntil);
        BoundsTransitive(EarlierBound(before[h].validFrom, last.validFrom), before[h].validFrom, from);
        BoundsTransitive(LaterBound(before[h].validUntil, last.validUntil), before[h].validUntil, until);
      } else {
        OffersLast(held, claims, h, from, until);
        if h in before {
          BoundsJoin(before[h].validFrom, from);
          BoundsJoin(before[h].validUntil, until);
        }
      }
    }
  }

  lemma OffersLast(held: ClaimSet, claims: seq<ClaimInput>, h: string, from: string, until: string)
    requires claims != [] && Offers(held, claims, h, from, until)
    ensures Offers(held, claims[..|claims| - 1], h, from, until) ||
            (var last := claims[|claims| - 1]; last.hash == h && last.validFrom == from && last.validUntil == until)
  {
    var front := claims[..|claims| - 1];
    assert forall i :: 0 <= i < |front| ==> front[i] == claims[i];
  }

  /** No claim presented before the `i`-th carries its hash. */
  ghost predicate First(claims: seq<ClaimInput>, i: nat) {
    i < |claims| && forall j :: 0 <= j < i ==> claims[j].hash != claims[i].hash
  }

  /** A hash held before keeps its text; a new one has the text of the first claim presented with it. */
  lemma {:induction false} AddAllTexts(held: ClaimSet, claims: seq<ClaimInput>)
    ensures held.Keys <= AddAll(held, claims).Keys && HashesOf(claims) <= AddAll(held, claims).Keys
    ensures forall h :: h in held ==> AddAll(held, claims)[h].text == held[h].text
    ensures forall i: nat :: First(claims, i) && claims[i].hash !in held ==>
                          AddAll(held, claims)[claims[i].hash].text == claims[i].text
  {
    AddAllKeys(held, claims);
    if claims != [] {
      hide EarlierBound, LaterBound;
      var front, last := claims[..|claims| - 1], claims[|claims| - 1];
      AddAllTexts(held, front);
      AddAllKeys(held, front);
      forall i: nat | First(claims, i) && claims[i].hash !in held
        ensures AddAll(held, claims)[claims[i].hash].text == claims[i].text
      {
        FirstFront(claims, i);
      }
    }
  }

  lemma FirstFront(claims: seq<ClaimInput>, i: nat)
    requires First(claims, i)
    ensures i < |claims|
    ensures var front := claims[..|claims| - 1];
            if i == |front| then claims[i].hash !in HashesOf(front) else First(front, i) && front[i] == claims[i]
  {
  }

  /** Each bound of an entry is one of those offered for its hash. */
  lemma {:induction false} AddAllOffered(held: ClaimSet, claims: seq<ClaimInput>, h: string)
    requires h in AddAll(held, claims)
    ensures exists until :: Offers(held, claims, h, AddAll(held, claims)[h].validFrom, until)
    ensures exists from :: Offers(held, claims, h, from, AddAll(held, claims)[h].validUntil)
  {
    if claims == [] {
      assert Offers(held, claims, h, held[h].validFrom, held[h].validUntil);
    } else {
      var front, last := claims[..|claims| - 1], claims[|claims| - 1];
      var before := AddAll(held, front);
      if last.hash == h {
        assert claims[|claims| - 1] == last;
        assert Offers(held, claims, h, last.validFrom, last.validUntil);
      }
      if h in before {
        AddAllOffered(held, front, h);
        var until :| Offers(held, front, h, before[h].validFrom, until);
        var from :| Offers(held, front, h, from, before[h].validUntil);
        OffersFront(held, claims, h, before[h].validFrom, until);
        OffersFront(held, claims, h, from, before[h].validUntil);
      }
    }
  }

  lemma OffersFront(held: ClaimSet, claims: seq<ClaimInput>, h: string, from: string, until: string)
    requires claims != [] && Offers(held, claims[..|claims| - 1], h, from, until)
    ensures Offers(held, claims, h, from, until)
  {
    var front := claims[..|claims| - 1];
    assert forall i :: 0 <= i < |front| ==> front[i] == claims[i];
  }

  // -------------------------------------------------------------------------------------------
  // The derived indexes
  // -------------------------------------------------------------------------------------------

  const IDENTIFIER_CONCEPTS: set<string> := {"email", "phone", "account", "url"}

  /** How claim texts split into an attribute and a value. */
  type Splitter = string -> (string, string)

  function IdentKey(concept: string, value: string): string {
    concept + "\0" + value
  }

  lemma IdentKeyNul(c: string, v: string)
    requires '\0' !in c
    ensures IdentKey(c, v)[|c|] == '\0' && forall i :: 0 <= i < |c| ==> IdentKey(c, v)[i] != '\0'
    ensures IdentKey(c, v)[..|c|] == c && IdentKey(c, v)[|c| + 1..] == v
  {
    assert forall i :: 0 <= i < |c| ==> IdentKey(c, v)[i] == c[i];
  }

  /** Identifier keys do not collide: the concept ends at the first NUL. */
  lemma IdentKeyInjective(c: string, v: string, d: string, w: string)
    requires c in IDENTIFIER_CONCEPTS && d in IDENTIFIER_CONCEPTS && IdentKey(c, v) == IdentKey(d, w)
    ensures c == d && v == w
  {
    IdentKeyNul(c, v);
    IdentKeyNul(d, w);
    assert |c| == |d|;
  }

  /** The blocking key of a claim text, if it is a non-empty identifier. */
  function KeyOf(split: Splitter, text: string): Option<string> {
    var (concept, value) := split(text);
    if value == "" || concept !in IDENTIFIER_CONCEPTS then None else Some(IdentKey(concept, value))
  }

  function Held(claims: Claims, e: string): ClaimSet {
    if e in claims then claims[e] else map[]
  }

  ghost function Holders(claims: Claims, h: string): set<string> {
    set e | e in claims && h in claims[e]
  }

  /** Document frequency: how many entities hold each hash. */
  ghost predicate DfOk(df: map<string, nat>, claims: Claims) {
    forall h :: (h in df <==> Holders(claims, h) != {}) && (h in df ==> df[h] == |Holders(claims, h)|)
  }

  ghost function FiledUnder(split: Splitter, held: ClaimSet, key: string): set<string> {
    set h | h in held && KeyOf(split, held[h].text) == Some(key)
  }

  function Listed(ident: map<string, seq<string>>, key: string): seq<string> {
    if key in ident then ident[key] else []
  }

  /** The blocking index lists an entity under a key once per claim that files it there. */
  ghost predicate IdentOk(split: Splitter, ident: map<string, seq<string>>, claims: Claims) {
    forall key, e :: multiset(Listed(ident, key))[e] == |FiledUnder(split, Held(claims, e), key)|
  }

  function WithPair(claims: Claims, e: string, h: string, entry: ClaimEntry): Claims {
    claims[e := Held(claims, e)[h := entry]]
  }

  lemma HoldersAdd(claims: Claims, e: string, h: string, entry: ClaimEntry, k: string)
    ensures Holders(WithPair(claims, e, h, entry), k) == Holders(claims, k) + (if k == h then {e} else {})
  {
  }

  lemma DfAdd(df: map<string, nat>, claims: Claims, e: string, h: string, entry: ClaimEntry)
    requires DfOk(df, claims) && h !in Held(claims, e)
    ensures DfOk(df[h := (if h in df then df[h] else 0) + 1], WithPair(claims, e, h, entry))
  {
    hide Holders;
    var claims', df' := WithPair(claims, e, h, entry), df[h := (if h in df then df[h] else 0) + 1];
    forall k
      ensures (k in df' <==> Holders(claims', k) != {}) && (k in df' ==> df'[k] == |Holders(claims', k)|)
    {
      HoldersAdd(claims, e, h, entry, k);
      if k == h {
        NotHolder(claims, e, h);
      }
    }
  }

  lemma NotHolder(claims: Claims, e: string, h: string)
    requires h !in Held(claims, e)
    ensures e !in Holders(claims, h)
  {
  }

  function Filed(ident: map<string, seq<string>>, key: Option<string>, e: string): map<string, seq<string>> {
    if key.Some? then ident[key.value := Listed(ident, key.value) + [e]] else ident
  }

  lemma FiledUnderAdd(split: Splitter, held: ClaimSet, h: string, entry: ClaimEntry, key: string)
    requires h !in held
    ensures FiledUnder(split, held[h := entry], key) ==
            FiledUnder(split, held, key) + (if KeyOf(split, entry.text) == Some(key) then {h} else {})
    ensures h !in FiledUnder(split, held, key)
  {
  }

  lemma IdentAdd(split: Splitter, ident: map<string, seq<string>>, claims: Claims, e: string, h: string,
                 entry: ClaimEntry)
    requires IdentOk(split, ident, claims) && h !in Held(claims, e)
    ensures IdentOk(split, Filed(ident, KeyOf(split, entry.text), e), WithPair(claims, e, h, entry))
  {
    hide FiledUnder, KeyOf;
    var claims', ident' := WithPair(claims, e, h, entry), Filed(ident, KeyOf(split, entry.text), e);
    forall key, x ensures multiset(Listed(ident', key))[x] == |FiledUnder(split, Held(claims', x), key)| {
      assert multiset(Listed(ident, key))[x] == |FiledUnder(split, Held(claims, x), key)|;
      if x == e {
        FiledUnderAdd(split, Held(claims, e), h, entry, key);
      }
    }
  }

  /** Changing only an entry's interval disturbs neither index. */
  lemma ReboundKeeps(split: Splitter, df: map<string, nat>, ident: map<string, seq<string>>, claims: Claims,
                     e: string, h: string, entry: ClaimEntry)
    requires DfOk(df, claims) && IdentOk(split, ident, claims)
    requires h in Held(claims, e) && entry.text == Held(claims, e)[h].text
    ensures DfOk(df, WithPair(claims, e, h, entry)) && IdentOk(split, ident, WithPair(claims, e, h, entry))
  {
    var claims' := WithPair(claims, e, h, entry);
    forall k ensures Holders(claims', k) == Holders(claims, k) {
    }
    forall key, x ensures FiledUnder(split, Held(claims', x), key) == FiledUnder(split, Held(claims, x), key) {
    }
  }

  // -------------------------------------------------------------------------------------------
  // The ledger object
  // -------------------------------------------------------------------------------------------

  function Count(m: map<string, nat>, h: string): nat {
    if h in m then m[h] else 0
  }

  /** An entity shares an identifier value with one of the presented (attribute, value) pairs. */
  ghost predicate Shares(split: Splitter, claims: Claims, e: string, incoming: seq<(string, string)>) {
    exists i, h :: 0 <= i < |incoming| && SharesAt(split, Held(claims, e), h, incoming[i])
  }

  ghost predicate SharesAt(split: Splitter, held: ClaimSet, h: string, pair: (string, string)) {
    pair.0 in IDENTIFIER_CONCEPTS && pair.1 != "" && h in held && split(held[h].text) == pair
  }

  /** The index lists exactly the holders of an identifier value. */
  lemma ListedShares(split: Splitter, ident: map<string, seq<string>>, claims: Claims, pair: (string, string),
                     e: string)
    requires IdentOk(split, ident, claims) && pair.0 in IDENTIFIER_CONCEPTS && pair.1 != ""
    ensures e in Listed(ident, IdentKey(pair.0, pair.1)) <==> exists h :: SharesAt(split, Held(claims, e), h, pair)
  {
    var key, held := IdentKey(pair.0, pair.1), Held(claims, e);
    assert e in Listed(ident, key) <==> multiset(Listed(ident, key))[e] > 0;
    assert multiset(Listed(ident, key))[e] == |FiledUnder(split, held, key)|;
    if h :| h in FiledUnder(split, held, key) {
      var (concept, value) := split(held[h].text);
      IdentKeyInjective(concept, value, pair.0, pair.1);
      assert SharesAt(split, held, h, pair);
    }
    if h :| SharesAt(split, held, h, pair) {
      assert h in FiledUnder(split, held, key);
    }
  }

  /** Nothing is filed under a blank value. */
  lemma NoBlankKeys(split: Splitter, ident: map<string, seq<string>>, claims: Claims, concept: string)
    requires IdentOk(split, ident, claims) && concept in IDENTIFIER_CONCEPTS
    ensures Listed(ident, IdentKey(concept, "")) == []
  {
    var list := Listed(ident, IdentKey(concept, ""));
    if list != [] {
      var e := list[0];
      assert multiset(list)[e] == |FiledUnder(split, Held(claims, e), IdentKey(concept, ""))|;
      assert e in list;
      var h :| h in FiledUnder(split, Held(claims, e), IdentKey(concept, ""));
      var (c, v) := split(Held(claims, e)[h].text);
      IdentKeyInjective(c, v, concept, "");
    }
  }

  class EntityLedger {
    const split: Splitter
    var claims: Claims
    var occurrences: map<string, nat>
    var observations: nat
    var df: map<string, nat>
    var ident: map<string, seq<string>>

    /** The derived indexes are what the claim sets say. */
    ghost predicate Indexed()
      reads this
    {
      DfOk(df, claims) && IdentOk(split, ident, claims)
    }

    constructor (split: Splitter)
      ensures Indexed() && this.split == split
      ensures claims == map[] && occurrences == map[] && observations == 0
    {
      this.split := split;
      claims, occurrences, observations, df, ident := map[], map[], 0, map[], map[];
    }

    /** Files one more claim of an entity the ledger knows. */
    method AddClaim(entity: string, claim: ClaimInput)
      requires Indexed() && entity in claims
      modifies `claims, `df, `ident
      ensures Indexed() && claims == old(claims)[entity := AddOne(old(claims)[entity], claim)]
    {
      hide DfOk, IdentOk, KeyOf, EarlierBound, LaterBound;
      var held := claims[entity];
      if claim.hash !in held {
        var entry := ClaimEntry(claim.text, claim.validFrom, claim.validUntil);
        DfAdd(df, claims, entity, claim.hash, entry);
        IdentAdd(split, ident, claims, entity, claim.hash, entry);
        df := df[claim.hash := Count(df, claim.hash) + 1];
        ident := Filed(ident, KeyOf(split, claim.text), entity);
        claims := claims[entity := held[claim.hash := entry]];
      } else {
        var e := held[claim.hash];
        var entry := ClaimEntry(
          e.text, EarlierBound(e.validFrom, claim.validFrom), LaterBound(e.validUntil, claim.validUntil));
        ReboundKeeps(split, df, ident, claims, entity, claim.hash, entry);
        claims := claims[entity := held[claim.hash := entry]];
      }
    }

    /** Folds claims into an entity's set; the derived indexes follow. */
    method Add(entity: string, inputs: seq<ClaimInput>)
      requires Indexed()
      modifies `claims, `df, `ident
      ensures Indexed() && claims == old(claims)[entity := AddAll(Held(old(claims), entity), inputs)]
    {
      hide DfOk, IdentOk, AddOne;
      ghost var before := Held(claims, entity);
      if entity !in claims {
        EmptyEntity(split, df, ident, claims, entity);
        claims := claims[entity := map[]];
      }
      for i := 0 to |inputs|
        invariant Indexed() && claims == old(claims)[entity := AddAll(before, inputs[..i])]
      {
        AddClaim(entity, inputs[i]);
        assert inputs[..i + 1][..i] == inputs[..i];
      }
      assert inputs[..|inputs|] == inputs;
    }

    /** Counts one observation: each distinct non-empty hash once. */
    method Observe(inputs: seq<ClaimInput>)
      modifies `occurrences, `observations
      ensures observations == old(observations) + 1
      ensures forall h :: Count(occurrences, h) ==
                            Count(old(occurrences), h) + (if h != "" && h in HashesOf(inputs) then 1 else 0)
    {
      observations := observations + 1;
      var seen: set<string> := {};
      for i := 0 to |inputs|
        invariant observations == old(observations) + 1
        invariant seen == HashesOf(inputs[..i]) - {""}
        invariant forall h :: Count(occurrences, h) == Count(old(occurrences), h) + (if h in seen then 1 else 0)
      {
        HashesPush(inputs, i);
        var hash := inputs[i].hash;
        if hash != "" && hash !in seen {
          seen := seen + {hash};
          occurrences := occurrences[hash := Count(occurrences, hash) + 1];
        }
      }
      assert inputs[..|inputs|] == inputs;
    }

    /** Recomputes both derived indexes from the claim sets, visited in any order. */
    method Rebuild()
      modifies `df, `ident
      ensures Indexed()
    {
      hide DfOk, IdentOk, KeyOf;
      df, ident := map[], map[];
      ghost var built: Claims := map[];
      EmptyIndexes(split);
      var entities := claims.Keys;
      while entities != {}
        invariant entities <= claims.Keys
        invariant built.Keys == claims.Keys - entities && forall e :: e in built ==> built[e] == claims[e]
        invariant DfOk(df, built) && IdentOk(split, ident, built)
        decreases |entities|
      {
        var entity :| entity in entities;
        EmptyEntity(split, df, ident, built, entity);
        built := built[entity := map[]];
        built := IndexEntity(entity, built);
        entities := entities - {entity};
      }
      assert built == claims;
    }

    /** Indexes one entity's claims, visited in any order. */
    method IndexEntity(entity: string, ghost before: Claims) returns (ghost built: Claims)
      requires DfOk(df, before) && IdentOk(split, ident, before) && entity in claims
      requires entity in before && before[entity] == map[]
      modifies `df, `ident
      ensures built == before[entity := claims[entity]]
      ensures DfOk(df, built) && IdentOk(split, ident, built)
    {
      hide DfOk, IdentOk, KeyOf;
      built := before;
      var held := claims[entity];
      var hashes := held.Keys;
      while hashes != {}
        invariant hashes <= held.Keys && entity in built
        invariant built == before[entity := built[entity]]
        invariant built[entity] == map h | h in held && h !in hashes :: held[h]
        invariant DfOk(df, built) && IdentOk(split, ident, built)
        decreases |hashes|
      {
        var hash :| hash in hashes;
        DfAdd(df, built, entity, hash, held[hash]);
        IdentAdd(split, ident, built, entity, hash, held[hash]);
        df := df[hash := Count(df, hash) + 1];
        ident := Filed(ident, KeyOf(split, held[hash].text), entity);
        built := WithPair(built, entity, hash, held[hash]);
        hashes := hashes - {hash};
      }
      assert built[entity] == held;
    }

    /** Counts every entity as one observation of its claims: the baseline for an artifact without counts. */
    method SeedObservationStats()
      modifies `occurrences, `observations
      ensures observations == Size(claims.Keys) && DfOk(occurrences, claims)
    {
      hide DfOk, Size;
      occurrences, observations := map[], 0;
      ghost var built: Claims := map[];
      NoHolders();
      var entities := claims.Keys;
      while entities != {}
        invariant entities <= claims.Keys && observations + Size(entities) == Size(claims.Keys)
        invariant built.Keys == claims.Keys - entities && forall e :: e in built ==> built[e] == claims[e]
        invariant DfOk(occurrences, built)
        decreases |entities|
      {
        var entity :| entity in entities;
        EmptyHolders(occurrences, built, entity);
        OneLess(entities, entity);
        observations := observations + 1;
        built := CountEntity(entity, built[entity := map[]]);
        entities := entities - {entity};
      }
      assert built == claims;
      NoneLeft();
    }

    method CountEntity(entity: string, ghost before: Claims) returns (ghost built: Claims)
      requires DfOk(occurrences, before) && entity in claims && entity in before && before[entity] == map[]
      modifies `occurrences
      ensures built == before[entity := claims[entity]]
      ensures DfOk(occurrences, built)
    {
      hide DfOk;
      built := before;
      var held := claims[entity];
      var hashes := held.Keys;
      while hashes != {}
        invariant hashes <= held.Keys && entity in built
        invariant built == before[entity := built[entity]]
        invariant built[entity] == map h | h in held && h !in hashes :: held[h]
        invariant DfOk(occurrences, built)
        decreases |hashes|
      {
        var hash :| hash in hashes;
        DfAdd(occurrences, built, entity, hash, held[hash]);
        occurrences := occurrences[hash := Count(occurrences, hash) + 1];
        built := WithPair(built, entity, hash, held[hash]);
        hashes := hashes - {hash};
      }
      assert built[entity] == held;
    }

    /** The entities sharing an identifier value with the incoming claims: all of them, each once, sorted. */
    method IdentifierCandidates(incoming: seq<(string, string)>) returns (out: seq<string>)
      requires Indexed()
      ensures Sorted(out)
      ensures forall e :: e in out <==> Shares(split, claims, e, incoming)
    {
      hide DfOk, IdentOk;
      var found: seq<string> := [];
      for i := 0 to |incoming|
        invariant Distinct(found)
        invariant forall e :: e in found <==> Shares(split, claims, e, incoming[..i])
      {
        ghost var before := found;
        var pair := incoming[i];
        if pair.0 in IDENTIFIER_CONCEPTS && pair.1 != "" {
          var list := Listed(ident, IdentKey(pair.0, pair.1));
          found := Merge(found, list);
          forall e ensures e in list <==> exists h :: SharesAt(split, Held(claims, e), h, pair) {
            ListedShares(split, ident, claims, pair, e);
          }
        }
        forall e ensures e in found <==> Shares(split, claims, e, incoming[..i + 1]) {
          SharesPush(split, claims, e, incoming, i);
        }
      }
      assert incoming[..|incoming|] == incoming;
      SortSorts(found);
      out := Sort(found);
      assert forall e :: e in out <==> e in Elements(out);
      assert forall e :: e in found <==> e in Elements(found);
    }
  }

  /** Appends what is not there yet. */
  method Merge(found: seq<string>, list: seq<string>) returns (out: seq<string>)
    requires Distinct(found)
    ensures Distinct(out) && forall e :: e in out <==> e in found || e in list
  {
    out := found;
    for i := 0 to |list|
      invariant Distinct(out) && forall e :: e in out <==> e in found || e in list[..i]
    {
      if list[i] !in out {
        out := out + [list[i]];
      }
    }
  }

  lemma SharesPush(split: Splitter, claims: Claims, e: string, incoming: seq<(string, string)>, i: nat)
    requires i < |incoming|
    ensures Shares(split, claims, e, incoming[..i + 1]) <==>
            (Shares(split, claims, e, incoming[..i]) || exists h :: SharesAt(split, Held(claims, e), h, incoming[i]))
  {
    var longer := incoming[..i + 1];
    assert longer[i] == incoming[i];
    assert forall j :: 0 <= j < i ==> longer[j] == incoming[..i][j];
    if h :| SharesAt(split, Held(claims, e), h, incoming[i]) {
      assert SharesAt(split, Held(claims, e), h, longer[i]);
    }
    if Shares(split, claims, e, incoming[..i]) {
      var j, h :| 0 <= j < i && SharesAt(split, Held(claims, e), h, incoming[..i][j]);
      assert SharesAt(split, Held(claims, e), h, longer[j]);
    }
  }

  lemma HashesPush(inputs: seq<ClaimInput>, i: nat)
    requires i < |inputs|
    ensures HashesOf(inputs[..i + 1]) == HashesOf(inputs[..i]) + {inputs[i].hash}
  {
    assert inputs[..i + 1] == inputs[..i] + [inputs[i]];
  }

  lemma EmptyIndexes(split: Splitter)
    ensures DfOk(map[], map[]) && IdentOk(split, map[], map[])
  {
  }

  function Size(s: set<string>): nat { |s| }

  lemma NoneLeft()
    ensures Size({}) == 0
  {
  }

  lemma OneLess(s: set<string>, x: string)
    requires x in s
    ensures Size(s - {x}) + 1 == Size(s)
  {
  }

  lemma NoHolders()
    ensures DfOk(map[], map[])
  {
  }

  lemma EmptyHolders(df: map<string, nat>, claims: Claims, e: string)
    requires DfOk(df, claims) && e !in claims
    ensures DfOk(df, claims[e := map[]])
  {
    forall h ensures Holders(claims[e := map[]], h) == Holders(claims, h) {
    }
  }

  /** An entity without claims is invisible to both indexes. */
  lemma EmptyEntity(split: Splitter, df: map<string, nat>, ident: map<string, seq<string>>, claims: Claims, e: string)
    requires DfOk(df, claims) && IdentOk(split, ident, claims) && e !in claims
    ensures DfOk(df, claims[e := map[]]) && IdentOk(split, ident, claims[e := map[]])
  {
    var claims' := claims[e := map[]];
    forall h ensures Holders(claims', h) == Holders(claims, h) {
    }
    forall x ensures Held(claims', x) == Held(claims, x) {
    }
  }
}
