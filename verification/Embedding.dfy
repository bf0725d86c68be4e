/**
 Embedding texts through a batching client, and the vector cache in front of it. Batching changes what is
 sent, never what comes back; the cache changes what is asked, never what is answered.
 */
module Embedding {
  import opened Options
  import opened Sequences

  type Vector = seq<real>

  const MAX_TEXT_RUNES: nat := 1600

  function Truncated(text: string): string {
    if |text| <= MAX_TEXT_RUNES then text else text[..MAX_TEXT_RUNES]
  }

  /** A text is sent as it is up to 1600 characters, and as its first 1600 beyond that. */
  lemma TruncatedExactly(text: string)
    ensures Truncated(text) <= text && |Truncated(text)| <= 1600
    ensures Truncated(text) != text ==> |Truncated(text)| == 1600
  {
  }

  function AllTruncated(texts: seq<string>): seq<string> {
    seq(|texts|, i requires 0 <= i < |texts| => Truncated(texts[i]))
  }

  function Embedded(model: string -> Vector, texts: seq<string>): seq<Vector> {
    seq(|texts|, i requires 0 <= i < |texts| => model(texts[i]))
  }

  // -------------------------------------------------------------------------------------------
  // Placing answers by index
  // -------------------------------------------------------------------------------------------

  datatype Item = Item(index: int, embedding: Vector)

  /** Answer `k` is the one for input `i`. */
  predicate Answers(data: seq<Item>, k: int, i: int) {
    0 <= k < |data| && data[k].index == i
  }

  ghost predicate Answered(data: seq<Item>, i: int) {
    exists k :: Answers(data, k, i)
  }

  ghost predicate Complete(data: seq<Item>, n: nat) {
    && |data| == n
    && (forall k :: 0 <= k < n ==> 0 <= data[k].index < n && data[k].embedding != [])
    && (forall i :: 0 <= i < n ==> Answered(data, i))
  }

  ghost function Dropped(data: seq<Item>, p: nat): (r: seq<Item>)
    requires p < |data|
    ensures |r| == |data| - 1
  {
    data[..p] + data[p + 1..]
  }

  /** Dropping an answer leaves every input answered that another answer answers. */
  lemma StillAnswered(data: seq<Item>, p: nat, q: nat)
    requires p < |data| && q < |data| && p != q
    ensures Answered(Dropped(data, p), data[q].index)
  {
    assert Answers(Dropped(data, p), if q < p then q else q - 1, data[q].index);
  }

  /** Answering `m` inputs takes `m` answers. */
  lemma {:induction false} OneEach(data: seq<Item>, m: nat)
    requires forall i :: 0 <= i < m ==> Answered(data, i)
    ensures |data| >= m
    decreases m
  {
    if m > 0 {
      assert Answered(data, m - 1);
      var p :| Answers(data, p, m - 1);
      forall i | 0 <= i < m - 1 ensures Answered(Dropped(data, p), i) {
        assert Answered(data, i);
        var q :| Answers(data, q, i);
        StillAnswered(data, p, q);
      }
      OneEach(Dropped(data, p), m - 1);
    }
  }

  /** As many answers as inputs and every input answered: no input is answered twice. */
  lemma AnsweredOnce(data: seq<Item>, n: nat, k: int, l: int, i: int)
    requires Complete(data, n) && Answers(data, k, i) && Answers(data, l, i)
    ensures k == l
  {
    if k != l {
      forall x | 0 <= x < n ensures Answered(Dropped(data, l), x) {
        assert Answered(data, x);
        var q :| Answers(data, q, x);
        StillAnswered(data, l, if q == l then k else q);
      }
      OneEach(Dropped(data, l), n);
    }
  }

  /** Puts each answer in the slot its index names; succeeds exactly on a complete response. */
  method PlaceByIndex(data: seq<Item>, n: nat) returns (ok: bool, out: seq<Vector>)
    ensures ok <==> Complete(data, n)
    ensures ok ==> |out| == n && forall i, k :: 0 <= i < n && Answers(data, k, i) ==> out[i] == data[k].embedding
  {
    out := [];
    if |data| != n {
      return false, out;
    }
    var slots := new Vector[n](_ => []);
    for k := 0 to n
      invariant forall l :: 0 <= l < k ==> 0 <= data[l].index < n && data[l].embedding != []
      invariant forall i :: 0 <= i < n ==>
                slots[i] == [] || exists l :: Answers(data, l, i) && l < k && slots[i] == data[l].embedding
      invariant forall l :: 0 <= l < k ==> slots[data[l].index] != []
    {
      var idx := data[k].index;
      if idx < 0 || idx >= n || |data[k].embedding| == 0 {
        return false, out;
      }
      ghost var before := slots[..];
      slots[idx] := data[k].embedding;
      forall i | 0 <= i < n
        ensures slots[i] == [] || exists l :: Answers(data, l, i) && l < k + 1 && slots[i] == data[l].embedding
      {
        if i == idx {
          assert Answers(data, k, i);
        } else {
          assert slots[i] == before[i];
        }
      }
    }
    for i := 0 to n
      invariant forall j :: 0 <= j < i ==> slots[j] != []
    {
      if slots[i] == [] {
        assert !Answered(data, i);
        return false, out;
      }
    }
    out := slots[..];
    forall i | 0 <= i < n ensures Answered(data, i) {
      assert slots[i] != [];
      var l :| Answers(data, l, i) && slots[i] == data[l].embedding;
    }
    forall i, k | 0 <= i < n && Answers(data, k, i) ensures out[i] == data[k].embedding {
      assert slots[i] != [];
      var l :| Answers(data, l, i) && slots[i] == data[l].embedding;
      AnsweredOnce(data, n, k, l, i);
    }
    ok := true;
  }

  // -------------------------------------------------------------------------------------------
  // Batching
  // -------------------------------------------------------------------------------------------

  /** The estimated tokens of one text. */
  function Estimate(text: string): nat { |text| / 3 + 1 }

  function Tokens(batch: seq<string>): nat {
    if batch == [] then 0 else Tokens(batch[..|batch| - 1]) + Estimate(batch[|batch| - 1])
  }

  /** A batch within both limits, or a single text that cannot be split further. */
  predicate Sendable(batch: seq<string>, maxTexts: int, maxTokens: int) {
    |batch| == 1 || (1 <= |batch| <= maxTexts && Tokens(batch) <= maxTokens)
  }

  /** The batch is full: the text that comes next would break a limit. */
  predicate Full(batch: seq<string>, next: string, maxTexts: int, maxTokens: int) {
    |batch| >= maxTexts || Tokens(batch) + Estimate(next) > maxTokens
  }

  /** Nothing is sent in more requests than needed: each batch but the last was full. */
  ghost predicate Greedy(sent: seq<seq<string>>, maxTexts: int, maxTokens: int) {
    && (forall i :: 0 <= i < |sent| ==> Sendable(sent[i], maxTexts, maxTokens))
    && (forall i :: 0 < i < |sent| ==> sent[i] != [] && Full(sent[i - 1], sent[i][0], maxTexts, maxTokens))
  }

  lemma {:induction false} EmbeddedAppend(model: string -> Vector, a: seq<string>, b: seq<string>)
    ensures Embedded(model, a + b) == Embedded(model, a) + Embedded(model, b)
  {
  }

  lemma TokensPush(batch: seq<string>, text: string)
    ensures Tokens(batch + [text]) == Tokens(batch) + Estimate(text)
  {
    assert (batch + [text])[..|batch|] == batch;
  }

  /** What has been sent and what is waiting spell out the texts so far. */
  ghost predicate Progress(texts: seq<string>, i: nat, sent: seq<seq<string>>, batch: seq<string>, maxTexts: int,
                           maxTokens: int) {
    && i <= |texts|
    && Concat(sent) + batch == AllTruncated(texts)[..i]
    && Greedy(sent, maxTexts, maxTokens)
    && (batch != [] ==> Sendable(batch, maxTexts, maxTokens))
    && (batch != [] && sent != [] ==> Full(sent[|sent| - 1], batch[0], maxTexts, maxTokens))
    && (batch == [] ==> i == 0 && sent == [])
  }

  lemma Flushes(texts: seq<string>, i: nat, sent: seq<seq<string>>, batch: seq<string>, maxTexts: int, maxTokens: int)
    requires Progress(texts, i, sent, batch, maxTexts, maxTokens) && batch != []
    ensures Greedy(sent + [batch], maxTexts, maxTokens)
    ensures Concat(sent + [batch]) == AllTruncated(texts)[..i]
  {
    ConcatAppend(sent, [batch]);
    ConcatOne(batch);
  }

  lemma Appends(texts: seq<string>, i: nat, sent: seq<seq<string>>, batch: seq<string>, maxTexts: int, maxTokens: int)
    requires i < |texts| && Progress(texts, i, sent, batch, maxTexts, maxTokens)
    ensures var text := Truncated(texts[i]);
            && (batch == [] || !Full(batch, text, maxTexts, maxTokens) ==>
                  Progress(texts, i + 1, sent, batch + [text], maxTexts, maxTokens))
            && (batch != [] && Full(batch, text, maxTexts, maxTokens) ==>
                  Progress(texts, i + 1, sent + [batch], [text], maxTexts, maxTokens))
  {
    hide Concat, Greedy;
    var text := Truncated(texts[i]);
    assert AllTruncated(texts)[..i + 1] == AllTruncated(texts)[..i] + [text];
    assert Concat(sent) + (batch + [text]) == (Concat(sent) + batch) + [text];
    TokensPush(batch, text);
    if batch != [] {
      Flushes(texts, i, sent, batch, maxTexts, maxTokens);
    }
  }

  /**
   Sends the texts in batches; request `k` fails when `fails(k)`. The batches concatenate to the truncated
   texts, each is within both limits unless it is a single text, and the answer is what embedding each
   text by itself gives.
   */
  method Embed(model: string -> Vector, texts: seq<string>, maxTexts: int, maxTokens: int, fails: nat -> bool)
    returns (out: Option<seq<Vector>>, sent: seq<seq<string>>)
    ensures Greedy(sent, maxTexts, maxTokens)
    ensures out.Some? <==> forall k :: 0 <= k < |sent| ==> !fails(k)
    ensures out.Some? ==> Concat(sent) == AllTruncated(texts) && out.value == Embedded(model, AllTruncated(texts))
    ensures out.None? ==> Concat(sent) <= AllTruncated(texts)
  {
    hide Concat, Progress;
    sent := [];
    var vectors: seq<Vector> := [];
    var batch: seq<string> := [];
    var tokenEst := 0;
    NothingYet(texts, maxTexts, maxTokens);
    for i := 0 to |texts|
      invariant Progress(texts, i, sent, batch, maxTexts, maxTokens)
      invariant tokenEst == Tokens(batch) && (batch == [] ==> i == 0)
      invariant vectors == Embedded(model, Concat(sent))
      invariant forall k :: 0 <= k < |sent| ==> !fails(k)
    {
      Appends(texts, i, sent, batch, maxTexts, maxTokens);
      var text := Truncated(texts[i]);
      var est := Estimate(text);
      if |batch| > 0 && (|batch| >= maxTexts || tokenEst + est > maxTokens) {
        Flushes(texts, i, sent, batch, maxTexts, maxTokens);
        SentMore(model, sent, batch);
        sent := sent + [batch];
        if fails(|sent| - 1) {
          out := None;
          return;
        }
        vectors := vectors + Embedded(model, batch);
        batch, tokenEst := [], 0;
      }
      TokensPush(batch, text);
      batch := batch + [text];
      tokenEst := tokenEst + est;
    }
    assert AllTruncated(texts)[..|texts|] == AllTruncated(texts);
    if |batch| > 0 {
      Flushes(texts, |texts|, sent, batch, maxTexts, maxTokens);
      SentMore(model, sent, batch);
      sent := sent + [batch];
      if fails(|sent| - 1) {
        out := None;
        return;
      }
      vectors := vectors + Embedded(model, batch);
    } else {
      NothingSent(texts, sent, maxTexts, maxTokens);
    }
    out := Some(vectors);
  }

  lemma NothingYet(texts: seq<string>, maxTexts: int, maxTokens: int)
    ensures Progress(texts, 0, [], [], maxTexts, maxTokens) && Concat<string>([]) == [] && Tokens([]) == 0
  {
  }

  lemma NothingSent(texts: seq<string>, sent: seq<seq<string>>, maxTexts: int, maxTokens: int)
    requires Progress(texts, |texts|, sent, [], maxTexts, maxTokens)
    ensures Concat(sent) == AllTruncated(texts) && Greedy(sent, maxTexts, maxTokens)
  {
    assert AllTruncated(texts)[..|texts|] == AllTruncated(texts);
    assert Concat(sent) + [] == Concat(sent);
  }

  lemma SentMore(model: string -> Vector, sent: seq<seq<string>>, batch: seq<string>)
    ensures Embedded(model, Concat(sent + [batch])) == Embedded(model, Concat(sent)) + Embedded(model, batch)
  {
    ConcatAppend(sent, [batch]);
    ConcatOne(batch);
    EmbeddedAppend(model, Concat(sent), batch);
  }

  // -------------------------------------------------------------------------------------------
  // The vector cache
  // -------------------------------------------------------------------------------------------

  const NAMESPACE_CONTACT_CLAIM := "contact_claim"

  /** Trimming and hashing, as the program gets them. */
  datatype Keys = Keys(trim: string -> string, hash: string -> string)

  function Namespace(k: Keys, namespace: string): string {
    if k.trim(namespace) == "" then NAMESPACE_CONTACT_CLAIM else k.trim(namespace)
  }

  function CacheKey(k: Keys, namespace: string, text: string): string {
    if Namespace(k, namespace) == NAMESPACE_CONTACT_CLAIM then k.hash(text)
    else Namespace(k, namespace) + "\0" + k.hash(text)
  }

  /** Hashes are told apart and hold no NUL, being hex. */
  ghost predicate HashOk(k: Keys) {
    && (forall t :: '\0' !in k.hash(t))
    && (forall t, u :: k.hash(t) == k.hash(u) ==> t == u)
  }

  /** The hash is what follows the last NUL of a key, whatever the namespace: a key decides its text. */
  lemma KeyDecidesText(k: Keys, n: string, t: string, m: string, u: string)
    requires HashOk(k) && CacheKey(k, n, t) == CacheKey(k, m, u)
    ensures t == u
  {
    KeyTail(k, n, t);
    KeyTail(k, m, u);
    assert '\0' !in k.hash(t) && '\0' !in k.hash(u);
  }

  /** The part of a string after its last NUL. */
  function Tail(s: string): string {
    if '\0' in s then Tail(s[1..]) else s
  }

  lemma {:induction false} TailAfter(prefix: string, hash: string)
    requires '\0' !in hash
    ensures Tail(prefix + "\0" + hash) == hash
  {
    var s := prefix + "\0" + hash;
    assert s[|prefix|] == '\0';
    if prefix == [] {
      assert s[1..] == hash;
    } else {
      TailAfter(prefix[1..], hash);
      assert s[1..] == prefix[1..] + "\0" + hash;
    }
  }

  lemma KeyTail(k: Keys, n: string, t: string)
    requires HashOk(k)
    ensures Tail(CacheKey(k, n, t)) == k.hash(t)
  {
    assert '\0' !in k.hash(t);
    if Namespace(k, n) != NAMESPACE_CONTACT_CLAIM {
      TailAfter(Namespace(k, n), k.hash(t));
    }
  }

  /** Blank namespaces are the one of contact claims. */
  predicate SameSpace(k: Keys, n: string, m: string) {
    k.trim(n) == k.trim(m) || (k.trim(n) in ["", NAMESPACE_CONTACT_CLAIM] && k.trim(m) in ["", NAMESPACE_CONTACT_CLAIM])
  }

  /** Two keys are equal exactly when they are for the same text in the same namespace. */
  lemma KeyExactly(k: Keys, n: string, t: string, m: string, u: string)
    requires HashOk(k)
    ensures CacheKey(k, n, t) == CacheKey(k, m, u) <==> t == u && SameSpace(k, n, m)
  {
    if CacheKey(k, n, t) == CacheKey(k, m, u) {
      KeyDecidesText(k, n, t, m, u);
      SpaceRead(k, n, t);
      SpaceRead(k, m, t);
    }
  }

  /** The namespace of a key can be told from it. */
  lemma SpaceRead(k: Keys, n: string, t: string)
    requires HashOk(k)
    ensures var key, hash := CacheKey(k, n, t), k.hash(t);
            if k.trim(n) in ["", NAMESPACE_CONTACT_CLAIM] then key == hash
            else |key| > |hash| && key[..|key| - |hash| - 1] == k.trim(n)
  {
  }

  /** A text spelled without NUL, so that it can be read back. */
  function Spelled(t: string): string {
    if t == [] then []
    else (if t[0] == '\0' then "\\0" else if t[0] == '\\' then "\\\\" else [t[0]]) + Spelled(t[1..])
  }

  lemma {:induction false} SpelledApart(t: string, u: string)
    ensures '\0' !in Spelled(t)
    ensures Spelled(t) == Spelled(u) ==> t == u
  {
    if t != [] {
      SpelledApart(t[1..], if u == [] then [] else u[1..]);
      if u != [] && Spelled(t) == Spelled(u) {
        assert Spelled(t)[0] == Spelled(u)[0];
        assert t[0] == '\0' || t[0] == '\\' ==> Spelled(t)[1] == Spelled(u)[1];
        assert t[0] == u[0];
        var n := if t[0] == '\0' || t[0] == '\\' then 2 else 1;
        assert Spelled(t)[n..] == Spelled(t[1..]) && Spelled(u)[n..] == Spelled(u[1..]);
        assert t == [t[0]] + t[1..] && u == [u[0]] + u[1..];
      }
    }
  }

  /** There are keys of this kind. */
  lemma HashOkMet()
    ensures HashOk(Keys(n => n, Spelled))
  {
    var k := Keys(n => n, Spelled);
    forall t ensures '\0' !in k.hash(t) {
      SpelledApart(t, t);
    }
    forall t, u | k.hash(t) == k.hash(u) ensures t == u {
      SpelledApart(t, u);
    }
  }

  /** Every cached vector is the vector of every text filed under its key. */
  ghost predicate Sound(k: Keys, model: string -> Vector, cache: map<string, Vector>) {
    forall n, t {:trigger CacheKey(k, n, t)} :: CacheKey(k, n, t) in cache ==> cache[CacheKey(k, n, t)] == model(t)
  }

  lemma SoundPut(k: Keys, model: string -> Vector, cache: map<string, Vector>, namespace: string, text: string)
    requires HashOk(k) && Sound(k, model, cache)
    ensures Sound(k, model, cache[CacheKey(k, namespace, text) := model(text)])
  {
    hide HashOk, CacheKey;
    var key := CacheKey(k, namespace, text);
    var cache' := cache[key := model(text)];
    forall n, t | CacheKey(k, n, t) in cache' ensures cache'[CacheKey(k, n, t)] == model(t) {
      if CacheKey(k, n, t) == key {
        KeyDecidesText(k, n, t, namespace, text);
      }
    }
  }

  function KeysOf(k: Keys, namespace: string, texts: seq<string>): (keys: set<string>) {
    set t | t in texts :: CacheKey(k, namespace, t)
  }

  /** The texts to embed: the first text of every key not cached, each once. */
  ghost predicate Misses(k: Keys, namespace: string, cache: map<string, Vector>, texts: seq<string>,
                         missTexts: seq<string>) {
    && (forall i, j :: 0 <= i < j < |missTexts| ==>
          CacheKey(k, namespace, missTexts[i]) != CacheKey(k, namespace, missTexts[j]))
    && (forall t :: t in missTexts ==> t in texts && CacheKey(k, namespace, t) !in cache)
    && (forall t :: t in texts && CacheKey(k, namespace, t) !in cache ==>
          CacheKey(k, namespace, t) in KeysOf(k, namespace, missTexts))
  }

  /** The number of texts sent is the number of distinct uncached keys. */
  lemma {:induction false} MissCount(k: Keys, namespace: string, missTexts: seq<string>)
    requires forall i, j :: 0 <= i < j < |missTexts| ==>
               CacheKey(k, namespace, missTexts[i]) != CacheKey(k, namespace, missTexts[j])
    ensures |KeysOf(k, namespace, missTexts)| == |missTexts|
  {
    hide CacheKey, KeysOf;
    if missTexts == [] {
      NoKeys(k, namespace);
    } else {
      var front, last := missTexts[..|missTexts| - 1], missTexts[|missTexts| - 1];
      MissCount(k, namespace, front);
      assert missTexts == front + [last];
      KeysOfPush(k, namespace, front, last);
      NewKey(k, namespace, front, last);
    }
  }

  lemma NoKeys(k: Keys, namespace: string)
    ensures KeysOf(k, namespace, []) == {}
  {
  }

  lemma KeysOfPush(k: Keys, namespace: string, front: seq<string>, last: string)
    ensures KeysOf(k, namespace, front + [last]) == KeysOf(k, namespace, front) + {CacheKey(k, namespace, last)}
  {
    hide CacheKey;
  }

  lemma NewKey(k: Keys, namespace: string, front: seq<string>, last: string)
    requires forall i :: 0 <= i < |front| ==> CacheKey(k, namespace, front[i]) != CacheKey(k, namespace, last)
    ensures CacheKey(k, namespace, last) !in KeysOf(k, namespace, front)
  {
    hide CacheKey;
  }

  /** Keys of the texts the cache cannot answer. */
  function Uncached(k: Keys, namespace: string, cache: map<string, Vector>, texts: seq<string>): set<string> {
    KeysOf(k, namespace, texts) - cache.Keys
  }

  lemma MissesCover(k: Keys, namespace: string, cache: map<string, Vector>, texts: seq<string>, missTexts: seq<string>)
    requires Misses(k, namespace, cache, texts, missTexts)
    ensures KeysOf(k, namespace, missTexts) == Uncached(k, namespace, cache, texts)
    ensures |missTexts| == |Uncached(k, namespace, cache, texts)|
  {
    hide CacheKey;
    MissCount(k, namespace, missTexts);
  }

  lemma UncachedIs(k: Keys, namespace: string, cache: map<string, Vector>, texts: seq<string>)
    ensures Uncached(k, namespace, cache, texts) == KeysOf(k, namespace, texts) - cache.Keys
  {
  }

  lemma AllCached(wanted: set<string>, cached: set<string>, missing: set<string>)
    ensures missing == wanted - cached ==> wanted <= cached + missing && cached + missing == cached + wanted
    ensures |missing| == 0 ==> missing == {}
    ensures cached + {} == cached
  {
  }

  lemma MissesStep(k: Keys, namespace: string, cache: map<string, Vector>, texts: seq<string>, i: nat,
                   missTexts: seq<string>)
    requires i < |texts| && Misses(k, namespace, cache, texts[..i], missTexts)
    ensures var key := CacheKey(k, namespace, texts[i]);
            if key in cache || key in KeysOf(k, namespace, missTexts)
            then Misses(k, namespace, cache, texts[..i + 1], missTexts)
            else Misses(k, namespace, cache, texts[..i + 1], missTexts + [texts[i]])
                 && KeysOf(k, namespace, missTexts + [texts[i]]) == KeysOf(k, namespace, missTexts) + {key}
  {
    hide CacheKey;
    assert texts[..i + 1] == texts[..i] + [texts[i]];
  }

  /** What is in a slot is the vector of the slot's text. */
  ghost predicate SlotsSound(model: string -> Vector, texts: seq<string>, slots: seq<Option<Vector>>) {
    |slots| == |texts| && forall i :: 0 <= i < |texts| && slots[i].Some? ==> slots[i].value == model(texts[i])
  }

  class Resolver {
    const keys: Keys
    ghost const model: string -> Vector
    var cache: map<string, Vector>
    var lookups: nat
    var misses: nat

    ghost predicate Valid()
      reads this
    {
      HashOk(keys) && Sound(keys, model, cache)
    }

    constructor (keys: Keys, ghost model: string -> Vector)
      requires HashOk(keys)
      ensures Valid() && this.keys == keys && this.model == model && cache == map[] && lookups == 0 && misses == 0
    {
      this.keys, this.model := keys, model;
      cache, lookups, misses := map[], 0, 0;
    }

    /** Looks every text up, and lists the first text of every key that is missing with its position. */
    method LookUp(namespace: string, texts: seq<string>)
      returns (slots: array<Option<Vector>>, missTexts: seq<string>, missPositions: seq<nat>)
      requires Valid()
      ensures fresh(slots) && SlotsSound(model, texts, slots[..])
      ensures Misses(keys, namespace, cache, texts, missTexts)
      ensures |missPositions| == |missTexts|
      ensures forall l :: 0 <= l < |missTexts| ==> missPositions[l] < |texts| && texts[missPositions[l]] == missTexts[l]
    {
      hide CacheKey, HashOk;
      slots := new Option<Vector>[|texts|](_ => None);
      missTexts, missPositions := [], [];
      var seen: set<string> := {};
      for i := 0 to |texts|
        invariant SlotsSound(model, texts, slots[..])
        invariant Misses(keys, namespace, cache, texts[..i], missTexts) && seen == KeysOf(keys, namespace, missTexts)
        invariant |missPositions| == |missTexts|
        invariant forall l :: 0 <= l < |missTexts| ==>
                                missPositions[l] < |texts| && texts[missPositions[l]] == missTexts[l]
      {
        MissesStep(keys, namespace, cache, texts, i, missTexts);
        var key := CacheKey(keys, namespace, texts[i]);
        if key in cache {
          slots[i] := Some(cache[key]);
        } else if key !in seen {
          seen := seen + {key};
          missTexts := missTexts + [texts[i]];
          missPositions := missPositions + [i];
        }
      }
      assert texts[..|texts|] == texts;
    }

    /** Writes fresh vectors to the cache and to the slots that asked for them. */
    method StoreVectors(namespace: string, ghost texts: seq<string>, missTexts: seq<string>, missPositions: seq<nat>,
                        vectors: seq<Vector>, slots: array<Option<Vector>>)
      requires Valid() && SlotsSound(model, texts, slots[..]) && vectors == Embedded(model, missTexts)
      requires |missPositions| == |missTexts|
      requires forall l :: 0 <= l < |missTexts| ==>
                             missPositions[l] < |texts| && texts[missPositions[l]] == missTexts[l]
      modifies this`cache, slots
      ensures Valid() && SlotsSound(model, texts, slots[..])
      ensures cache.Keys == old(cache.Keys) + KeysOf(keys, namespace, missTexts)
    {
      hide CacheKey, HashOk, Sound;
      for j := 0 to |vectors|
        invariant Valid() && SlotsSound(model, texts, slots[..])
        invariant cache.Keys == old(cache.Keys) + KeysOf(keys, namespace, missTexts[..j])
      {
        assert missTexts[..j + 1] == missTexts[..j] + [missTexts[j]];
        SoundPut(keys, model, cache, namespace, missTexts[j]);
        cache := cache[CacheKey(keys, namespace, missTexts[j]) := vectors[j]];
        slots[missPositions[j]] := Some(vectors[j]);
      }
      assert missTexts[..|missTexts|] == missTexts;
    }

    /** Answers from the cache what the lookup and the embedder left open. */
    method FillDuplicates(namespace: string, texts: seq<string>, slots: array<Option<Vector>>)
      returns (out: seq<Vector>)
      requires Valid() && SlotsSound(model, texts, slots[..]) && KeysOf(keys, namespace, texts) <= cache.Keys
      ensures out == Embedded(model, texts)
    {
      hide CacheKey, HashOk;
      out := [];
      for i := 0 to |texts|
        invariant |out| == i && forall j :: 0 <= j < i ==> out[j] == model(texts[j])
      {
        assert CacheKey(keys, namespace, texts[i]) in KeysOf(keys, namespace, texts);
        assert slots[..][i] == slots[i];
        var v := match slots[i]
                 case Some(v) => v
                 case None => cache[CacheKey(keys, namespace, texts[i])];
        out := out + [v];
      }
    }

    /**
     Vectors of the texts, in order. `embed` is the embedder, which may fail; it is asked at most once, for
     `asked`: one text per distinct uncached key.
     */
    method VectorsForNamespace(namespace: string, texts: seq<string>, hasEmbedder: bool,
                               embed: seq<string> -> Option<seq<Vector>>)
      returns (out: Option<seq<Vector>>, asked: seq<string>)
      requires Valid() && forall ts :: embed(ts).Some? ==> embed(ts).value == Embedded(model, ts)
      modifies this
      ensures Valid() && lookups == old(lookups) + |texts|
      ensures Misses(keys, namespace, old(cache), texts, asked)
      ensures |asked| == |Uncached(keys, namespace, old(cache), texts)| && misses == old(misses) + |asked|
      ensures out.Some? <==> asked == [] || (hasEmbedder && embed(asked).Some?)
      ensures out.None? ==> cache == old(cache)
      ensures out.Some? ==>
                out.value == Embedded(model, texts) && cache.Keys == old(cache.Keys) + KeysOf(keys, namespace, texts)
    {
      hide CacheKey, HashOk, Sound, Misses, KeysOf, Uncached, SlotsSound;
      lookups := lookups + |texts|;
      var slots, missTexts, missPositions := LookUp(namespace, texts);
      asked := missTexts;
      MissesCover(keys, namespace, cache, texts, missTexts);
      AllCached(KeysOf(keys, namespace, texts), cache.Keys, Uncached(keys, namespace, cache, texts));
      UncachedIs(keys, namespace, cache, texts);
      misses := misses + |missTexts|;
      if |missTexts| > 0 {
        if !hasEmbedder {
          out := None;
          return;
        }
        var vectors := embed(missTexts);
        if vectors.None? {
          out := None;
          return;
        }
        StoreVectors(namespace, texts, missTexts, missPositions, vectors.value, slots);
      }
      var filled := FillDuplicates(namespace, texts, slots);
      out := Some(filled);
    }
  }
}
