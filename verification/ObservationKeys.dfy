/**
 When the idempotency memo can mistake one observation for another. A memo key joins the sorted keys
 of the claims with newlines, and a claim's key joins its hash and its validity bounds with NULs.
 */
module ObservationKeys {
  import opened Ordering
  import opened Ledger
  import opened Merging
  import opened Resolution

  /** A hash without separators, as hex digests are. */
  predicate Clean(c: ClaimInput) {
    '\0' !in c.hash && '\n' !in c.hash
  }

  ghost predicate AllClean(claims: seq<ClaimInput>) {
    forall c :: c in claims ==> Clean(c)
  }

  /** Also without newlines in the bounds, as timestamps are. */
  predicate Plain(c: ClaimInput) {
    Clean(c) && '\n' !in c.validFrom && '\n' !in c.validUntil
  }

  ghost predicate AllPlain(claims: seq<ClaimInput>) {
    forall c :: c in claims ==> Plain(c)
  }

  /** What stands before the first separator is decided by the whole. */
  lemma HeadUnique(x: string, s: string, y: string, t: string, separator: char)
    requires separator !in x && separator !in y && x + s == y + t
    requires (s == "" || s[0] == separator) && (t == "" || t[0] == separator)
    ensures x == y && s == t
  {
    var whole := x + s;
    assert forall i :: 0 <= i < |x| ==> whole[i] == x[i] && x[i] in x;
    assert forall i :: 0 <= i < |y| ==> whole[i] == y[i] && y[i] in y;
    assert |x| < |whole| ==> whole[|x|] == separator;
    assert |y| < |whole| ==> whole[|y|] == separator;
    assert |x| == |y|;
    assert x == (x + s)[..|x|] && y == (y + t)[..|y|];
    assert s == (x + s)[|x|..] && t == (y + t)[|y|..];
  }

  /** What follows the first part of a joined list. */
  function Behind(parts: seq<string>): string
    requires parts != []
  {
    if |parts| == 1 then "" else "\n" + Join(parts[1..], "\n")
  }

  lemma JoinBehind(parts: seq<string>)
    requires parts != []
    ensures Join(parts, "\n") == parts[0] + Behind(parts)
  {
    if |parts| > 1 {
      assert parts[0] + "\n" + Join(parts[1..], "\n") == parts[0] + ("\n" + Join(parts[1..], "\n"));
    } else {
      assert parts[0] + "" == parts[0];
    }
  }

  lemma JoinNonempty(parts: seq<string>)
    requires forall p :: p in parts ==> p != ""
    ensures Join(parts, "\n") == "" ==> parts == []
  {
    if parts != [] {
      JoinBehind(parts);
      assert parts[0] in parts;
    }
  }

  /** Lists of lines are read back from their join. */
  lemma {:induction false} JoinUnique(a: seq<string>, b: seq<string>)
    requires Join(a, "\n") == Join(b, "\n") && (forall p :: p in a || p in b ==> '\n' !in p && p != "")
    ensures a == b
    decreases |a|
  {
    JoinNonempty(a);
    JoinNonempty(b);
    if a != [] && b != [] {
      JoinBehind(a);
      JoinBehind(b);
      assert a[0] in a && b[0] in b;
      HeadUnique(a[0], Behind(a), b[0], Behind(b), '\n');
      if |a| > 1 && |b| > 1 {
        assert Join(a[1..], "\n") == Behind(a)[1..] && Join(b[1..], "\n") == Behind(b)[1..];
        JoinUnique(a[1..], b[1..]);
      }
      assert a == [a[0]] + a[1..] && b == [b[0]] + b[1..];
    }
  }

  lemma {:induction false} KeyOf(claims: seq<ClaimInput>, key: string)
    ensures key in ClaimKeys(claims) <==> exists c :: c in claims && ClaimKey(c) == key
    decreases |claims|
  {
    hide ClaimKey;
    if claims != [] {
      var front, last := claims[..|claims| - 1], claims[|claims| - 1];
      KeyOf(front, key);
      assert claims == front + [last];
    }
  }

  lemma PlainKey(c: ClaimInput)
    requires Plain(c)
    ensures '\n' !in ClaimKey(c) && ClaimKey(c) != ""
  {
  }

  lemma PlainKeys(claims: seq<ClaimInput>, key: string)
    requires AllPlain(claims) && key in ClaimKeys(claims)
    ensures '\n' !in key && key != ""
  {
    hide ClaimKey, Plain, ClaimKeys;
    KeyOf(claims, key);
    var c :| c in claims && ClaimKey(c) == key;
    PlainKey(c);
  }

  lemma KeyHash(c: ClaimInput, d: ClaimInput)
    requires Plain(c) && Plain(d) && ClaimKey(c) == ClaimKey(d)
    ensures c.hash == d.hash
  {
    var s, t := "\0" + c.validFrom + "\0" + c.validUntil, "\0" + d.validFrom + "\0" + d.validUntil;
    assert ClaimKey(c) == c.hash + s && ClaimKey(d) == d.hash + t;
    HeadUnique(c.hash, s, d.hash, t, '\0');
  }

  /** Observations of plain claims with one key hold the same claim keys, however often each. */
  lemma KeyDecidesKeys(digest: string -> string, a: seq<ClaimInput>, b: seq<ClaimInput>)
    requires forall x, y :: digest(x) == digest(y) ==> x == y
    requires AllPlain(a) && AllPlain(b) && ObservationKey(digest, a) == ObservationKey(digest, b)
    ensures multiset(ClaimKeys(a)) == multiset(ClaimKeys(b))
  {
    hide ClaimKeys, AllPlain, Join;
    var x, y := Sort(ClaimKeys(a)), Sort(ClaimKeys(b));
    assert Join(x, "\n") == Join(y, "\n");
    forall p | p in x || p in y ensures '\n' !in p && p != "" {
      if p in x {
        assert p in multiset(x);
        PlainKeys(a, p);
      } else {
        assert p in multiset(y);
        PlainKeys(b, p);
      }
    }
    JoinUnique(x, y);
  }

  lemma HashFound(a: seq<ClaimInput>, b: seq<ClaimInput>, h: string)
    requires AllPlain(a) && AllPlain(b) && multiset(ClaimKeys(a)) == multiset(ClaimKeys(b)) && h in HashesOf(a)
    ensures h in HashesOf(b)
  {
    hide ClaimKeys, ClaimKey, Plain;
    var c :| c in a && c.hash == h;
    KeyOf(a, ClaimKey(c));
    assert ClaimKey(c) in multiset(ClaimKeys(a));
    assert ClaimKey(c) in ClaimKeys(b);
    KeyOf(b, ClaimKey(c));
    var d :| d in b && ClaimKey(d) == ClaimKey(c);
    KeyHash(c, d);
  }

  lemma KeyParts(c: ClaimInput, d: ClaimInput)
    requires ClaimKey(c) == ClaimKey(d)
    requires '\0' !in c.hash && '\0' !in d.hash && '\0' !in c.validFrom && '\0' !in d.validFrom
    ensures c.hash == d.hash && c.validFrom == d.validFrom && c.validUntil == d.validUntil
  {
    var x, y := "\0" + c.validUntil, "\0" + d.validUntil;
    assert ClaimKey(c) == c.hash + ("\0" + (c.validFrom + x)) && ClaimKey(d) == d.hash + ("\0" + (d.validFrom + y));
    HeadUnique(c.hash, "\0" + (c.validFrom + x), d.hash, "\0" + (d.validFrom + y), '\0');
    assert c.validFrom + x == ("\0" + (c.validFrom + x))[1..] && d.validFrom + y == ("\0" + (d.validFrom + y))[1..];
    HeadUnique(c.validFrom, x, d.validFrom, y, '\0');
    assert c.validUntil == x[1..] && d.validUntil == y[1..];
  }

  /** If the lower bounds hold no NUL either, it decides every claim's hash and bounds. */
  lemma KeyDecidesBounds(digest: string -> string, a: seq<ClaimInput>, b: seq<ClaimInput>, c: ClaimInput)
    requires forall x, y :: digest(x) == digest(y) ==> x == y
    requires AllPlain(a) && AllPlain(b) && ObservationKey(digest, a) == ObservationKey(digest, b)
    requires forall x :: x in a || x in b ==> '\0' !in x.validFrom
    requires c in a
    ensures exists d :: d in b && d.hash == c.hash && d.validFrom == c.validFrom && d.validUntil == c.validUntil
  {
    hide ObservationKey, ClaimKeys, ClaimKey;
    KeyDecidesKeys(digest, a, b);
    KeyOf(a, ClaimKey(c));
    assert ClaimKey(c) in multiset(ClaimKeys(a));
    assert ClaimKey(c) in ClaimKeys(b);
    KeyOf(b, ClaimKey(c));
    var d :| d in b && ClaimKey(d) == ClaimKey(c);
    KeyParts(c, d);
  }

  /** For plain claims the memo key decides the hashes. */
  lemma KeyDecidesHashes(digest: string -> string, a: seq<ClaimInput>, b: seq<ClaimInput>)
    requires forall x, y :: digest(x) == digest(y) ==> x == y
    requires AllPlain(a) && AllPlain(b) && ObservationKey(digest, a) == ObservationKey(digest, b)
    ensures HashesOf(a) == HashesOf(b)
  {
    hide ObservationKey, ClaimKeys, AllPlain;
    KeyDecidesKeys(digest, a, b);
    forall h ensures h in HashesOf(a) <==> h in HashesOf(b) {
      if h in HashesOf(a) {
        HashFound(a, b, h);
      } else if h in HashesOf(b) {
        HashFound(b, a, h);
      }
    }
  }

  /** A memo hit is right: the entity it names holds every hash of the observation presented now. */
  lemma HitHolds(digest: string -> string, claims: Claims, memo: map<string, string>, history: History,
                 inputs: seq<ClaimInput>)
    requires forall x, y :: digest(x) == digest(y) ==> x == y
    requires MemoOk(digest, claims, memo, history) && ObservationKey(digest, inputs) in memo
    requires AllPlain(inputs) && forall k :: k in history ==> AllPlain(history[k])
    ensures Keeps(claims, memo[ObservationKey(digest, inputs)], inputs)
  {
    hide ObservationKey, AllPlain, HashesOf;
    var key := ObservationKey(digest, inputs);
    assert key in history.Keys;
    KeyDecidesHashes(digest, history[key], inputs);
  }

  /** A claim whose upper bound runs on into the key of another. */
  function Spliced(c: ClaimInput, d: ClaimInput): ClaimInput {
    c.(validUntil := c.validUntil + "\n" + ClaimKey(d))
  }

  lemma SplicedKey(c: ClaimInput, d: ClaimInput)
    ensures ClaimKey(Spliced(c, d)) == ClaimKey(c) + "\n" + ClaimKey(d)
  {
    var k := "\n" + ClaimKey(d);
    assert c.hash + "\0" + c.validFrom + "\0" + (c.validUntil + k) ==
           (c.hash + "\0" + c.validFrom + "\0" + c.validUntil) + k;
  }

  /**
   Without that condition it fails: any claim whose bound may hold a newline spells the key of two
   claims at once, and the memo answers for a hash that was never presented.
   */
  lemma SplicedCollides(digest: string -> string, c: ClaimInput, d: ClaimInput)
    requires Ascending([ClaimKey(c), ClaimKey(d)]) && c.hash != d.hash
    ensures ObservationKey(digest, [Spliced(c, d)]) == ObservationKey(digest, [c, d])
    ensures d.hash in HashesOf([c, d]) && d.hash !in HashesOf([Spliced(c, d)])
  {
    hide ClaimKey, ClaimKeys, Less;
    var two := [ClaimKey(c), ClaimKey(d)];
    KeysAppend([c], [d]);
    KeysOne(c);
    KeysOne(d);
    KeysOne(Spliced(c, d));
    assert [c] + [d] == [c, d] && [ClaimKey(c)] + [ClaimKey(d)] == two;
    AlreadySorted(two);
    AlreadySorted([ClaimKey(Spliced(c, d))]);
    JoinTwo(ClaimKey(c), ClaimKey(d));
    SplicedKey(c, d);
    assert d in [c, d];
  }

  lemma AlreadySorted(s: seq<string>)
    requires Ascending(s)
    ensures Sort(s) == s
  {
    SortAscending(s);
    AscendingUnique(Sort(s), s);
  }

  lemma JoinTwo(a: string, b: string)
    ensures Join([a, b], "\n") == a + "\n" + b && Join([a + "\n" + b], "\n") == a + "\n" + b
  {
    assert [a, b][1..] == [b];
  }

  // -------------------------------------------------------------------------------------------
  // Which observations another one can be mistaken for
  // -------------------------------------------------------------------------------------------

  /** All claims of an observation carry one hash. */
  ghost predicate OneHash(claims: seq<ClaimInput>) {
    forall c, d :: c in claims && d in claims ==> c.hash == d.hash
  }

  /** The part of a text before its first NUL. */
  function Head(s: string): string {
    if s == [] || s[0] == '\0' then [] else [s[0]] + Head(s[1..])
  }

  lemma {:induction false} HeadStops(x: string, rest: string)
    requires '\0' !in x
    ensures Head(x + ("\0" + rest)) == x
  {
    if x == [] {
      assert x + ("\0" + rest) == "\0" + rest;
    } else {
      assert (x + ("\0" + rest))[1..] == x[1..] + ("\0" + rest);
      HeadStops(x[1..], rest);
    }
  }

  lemma HeadOfKey(c: ClaimInput, more: string)
    requires Clean(c)
    ensures Head(ClaimKey(c) + more) == c.hash
  {
    var rest := c.validFrom + "\0" + c.validUntil;
    assert ClaimKey(c) == c.hash + ("\0" + rest);
    assert ClaimKey(c) + more == c.hash + ("\0" + (rest + more));
    HeadStops(c.hash, rest + more);
  }

  /** Every line of a text starts with the given hash. */
  ghost predicate Led(text: string, h: string) {
    forall i :: 0 <= i < |text| && LineStart(text, i) ==> Head(text[i..]) == h
  }

  predicate LineStart(text: string, i: int)
    requires 0 <= i < |text|
  {
    i == 0 || text[i - 1] == '\n'
  }

  /** A key that keeps its hash in front, whatever follows it. */
  ghost predicate KeepsHead(k: string, h: string) {
    forall more :: Head(k + more) == h
  }

  ghost predicate Headed(keys: seq<string>, h: string) {
    forall k :: k in keys ==> k != "" && '\n' !in k && KeepsHead(k, h)
  }

  /** What follows the first key and its newline is the join of the rest. */
  lemma JoinTail(keys: seq<string>)
    requires |keys| > 1
    ensures var text, n := Join(keys, "\n"), |keys[0]|;
            && |text| == n + 1 + |Join(keys[1..], "\n")|
            && text[n] == '\n' && text[..n] == keys[0] && text[n + 1..] == Join(keys[1..], "\n")
  {
    var rest := Join(keys[1..], "\n");
    assert Join(keys, "\n") == keys[0] + "\n" + rest;
  }

  lemma TailLed(text: string, n: nat, tail: string, h: string)
    requires n < |text| && text[n] == '\n' && text[n + 1..] == tail
    ensures Led(text, h) ==> Led(tail, h)
    ensures forall i :: n < i < |text| && LineStart(text, i) ==>
              text[i..] == tail[i - n - 1..] && LineStart(tail, i - n - 1)
  {
    hide Head;
    forall i | n < i < |text| ensures text[i..] == tail[i - n - 1..] {
    }
    forall j | 0 <= j < |tail| && LineStart(tail, j)
      ensures LineStart(text, n + 1 + j) && tail[j..] == text[n + 1 + j..]
    {
    }
  }

  lemma {:induction false} JoinLed(keys: seq<string>, h: string)
    requires Headed(keys, h)
    ensures Led(Join(keys, "\n"), h)
    decreases |keys|
  {
    hide Head, Join;
    if keys == [] {
      NoText();
    } else {
      var text, k := Join(keys, "\n"), keys[0];
      assert k in keys;
      JoinBehind(keys);
      assert text[0..] == k + Behind(keys);
      if |keys| > 1 {
        JoinTail(keys);
        assert forall x :: x in keys[1..] ==> x in keys;
        JoinLed(keys[1..], h);
        TailLed(text, |k|, Join(keys[1..], "\n"), h);
      } else {
        assert text == k;
      }
      forall i | 0 < i <= |k| && i < |text| ensures !LineStart(text, i) {
        assert text[i - 1] == k[i - 1] && k[i - 1] in k;
      }
    }
  }

  lemma {:induction false} LedKeys(keys: seq<string>, h: string, k: string)
    requires Led(Join(keys, "\n"), h) && k in keys && (forall x :: x in keys ==> x != "")
    ensures exists more :: Head(k + more) == h
    decreases |keys|
  {
    hide Head, Join;
    var text := Join(keys, "\n");
    JoinBehind(keys);
    assert keys[0] in keys;
    if k == keys[0] {
      assert text[0..] == k + Behind(keys);
      assert LineStart(text, 0);
    } else {
      assert k in keys[1..] && forall x :: x in keys[1..] ==> x in keys;
      JoinTail(keys);
      TailLed(text, |keys[0]|, Join(keys[1..], "\n"), h);
      LedKeys(keys[1..], h, k);
    }
  }

  lemma SortedKeyOf(claims: seq<ClaimInput>, k: string)
    ensures k in Sort(ClaimKeys(claims)) <==> exists c :: c in claims && ClaimKey(c) == k
  {
    hide ClaimKey, ClaimKeys;
    KeyOf(claims, k);
    var x, y := Sort(ClaimKeys(claims)), ClaimKeys(claims);
    assert k in x <==> k in multiset(x);
    assert k in y <==> k in multiset(y);
  }

  lemma KeyNonempty(c: ClaimInput)
    ensures ClaimKey(c) != ""
  {
    assert |ClaimKey(c)| >= 2;
  }

  lemma PlainHeaded(a: seq<ClaimInput>, h: string)
    requires AllPlain(a) && forall c :: c in a ==> c.hash == h
    ensures Led(Join(Sort(ClaimKeys(a)), "\n"), h)
  {
    hide ClaimKey, ClaimKeys, Head, Join;
    var keys := Sort(ClaimKeys(a));
    forall k | k in keys ensures k != "" && '\n' !in k && KeepsHead(k, h) {
      SortedKeyOf(a, k);
      var c :| c in a && ClaimKey(c) == k;
      PlainKey(c);
      forall more ensures Head(k + more) == h {
        HeadOfKey(c, more);
      }
    }
    JoinLed(keys, h);
  }

  /** An observation of plain claims under one hash shares its key only with observations of that hash. */
  lemma OneHashEnough(digest: string -> string, a: seq<ClaimInput>, b: seq<ClaimInput>)
    requires forall x, y :: digest(x) == digest(y) ==> x == y
    requires a != [] && AllPlain(a) && OneHash(a) && AllClean(b)
    requires ObservationKey(digest, a) == ObservationKey(digest, b)
    ensures HashesOf(b) == HashesOf(a)
  {
    hide ClaimKey, ClaimKeys, Head, Join;
    var h, x, y := a[0].hash, Sort(ClaimKeys(a)), Sort(ClaimKeys(b));
    assert a[0] in a;
    PlainHeaded(a, h);
    assert Join(x, "\n") == Join(y, "\n");
    forall k | k in x || k in y ensures k != "" {
      SortedKeyOf(a, k);
      SortedKeyOf(b, k);
      var c :| (c in a || c in b) && ClaimKey(c) == k;
      KeyNonempty(c);
    }
    forall c | c in b ensures c.hash == h {
      SortedKeyOf(b, ClaimKey(c));
      LedKeys(y, h, ClaimKey(c));
      var more :| Head(ClaimKey(c) + more) == h;
      HeadOfKey(c, more);
    }
    JoinNonempty(x);
    NoText();
    assert y != [];
    assert b != [];
    assert b[0] in b;
  }

  lemma NoText()
    ensures Join([], "\n") == ""
  {
  }

  /** The claim of the first key, with all other keys appended to its upper bound. */
  function Engulfing(c: ClaimInput, keys: seq<string>): ClaimInput
    requires keys != []
  {
    c.(validUntil := c.validUntil + Behind(keys))
  }

  lemma EngulfingKey(digest: string -> string, a: seq<ClaimInput>, c: ClaimInput)
    requires a != [] && ClaimKey(c) == Sort(ClaimKeys(a))[0]
    ensures ObservationKey(digest, [Engulfing(c, Sort(ClaimKeys(a)))]) == ObservationKey(digest, a)
  {
    hide ClaimKey, ClaimKeys, Behind, Join, Sort;
    var keys := Sort(ClaimKeys(a));
    var one := Engulfing(c, keys);
    JoinBehind(keys);
    LongerKey(c, Behind(keys));
    KeysOne(one);
    AlreadySorted([ClaimKey(one)]);
    JoinOne(ClaimKey(one));
  }

  lemma LongerKey(c: ClaimInput, more: string)
    ensures ClaimKey(c.(validUntil := c.validUntil + more)) == ClaimKey(c) + more
  {
    assert c.hash + "\0" + c.validFrom + "\0" + (c.validUntil + more) ==
           (c.hash + "\0" + c.validFrom + "\0" + c.validUntil) + more;
  }

  lemma JoinOne(s: string)
    ensures Join([s], "\n") == s
  {
  }

  /** Any observation under two hashes has the key of another one under only one of them. */
  lemma Engulfed(digest: string -> string, a: seq<ClaimInput>) returns (c: ClaimInput)
    requires a != [] && AllClean(a)
    ensures Clean(c) && ObservationKey(digest, [c]) == ObservationKey(digest, a) && c.hash in HashesOf(a)
  {
    hide ClaimKey, ClaimKeys, Join, Behind, ObservationKey;
    var keys := Sort(ClaimKeys(a));
    assert keys[0] in keys;
    SortedKeyOf(a, keys[0]);
    var d :| d in a && ClaimKey(d) == keys[0];
    EngulfingKey(digest, a, d);
    c := Engulfing(d, keys);
  }

  /**
   An observation of plain claims is never taken for one with other hashes if and only if all its claims
   carry one hash.
   */
  lemma MistakableExactly(digest: string -> string, a: seq<ClaimInput>)
    requires forall x, y :: digest(x) == digest(y) ==> x == y
    requires a != [] && AllPlain(a)
    ensures (forall b :: AllClean(b) && ObservationKey(digest, b) == ObservationKey(digest, a) ==>
               HashesOf(b) == HashesOf(a)) <==> OneHash(a)
  {
    hide ObservationKey;
    if OneHash(a) {
      forall b | AllClean(b) && ObservationKey(digest, b) == ObservationKey(digest, a)
        ensures HashesOf(b) == HashesOf(a)
      {
        OneHashEnough(digest, a, b);
      }
    } else {
      var x, y :| x in a && y in a && x.hash != y.hash;
      var c := Engulfed(digest, a);
      assert AllClean([c]);
      assert x.hash in HashesOf(a) && y.hash in HashesOf(a);
      assert HashesOf([c]) == {c.hash};
    }
  }

  /** A memo hit for plain claims under one hash is right, whatever bounds were memoized before. */
  lemma OneHashHolds(digest: string -> string, claims: Claims, memo: map<string, string>, history: History,
                     inputs: seq<ClaimInput>)
    requires forall x, y :: digest(x) == digest(y) ==> x == y
    requires MemoOk(digest, claims, memo, history) && ObservationKey(digest, inputs) in memo
    requires inputs != [] && AllPlain(inputs) && OneHash(inputs) && forall k :: k in history ==> AllClean(history[k])
    ensures Keeps(claims, memo[ObservationKey(digest, inputs)], inputs)
  {
    hide ObservationKey, AllPlain, AllClean, OneHash, HashesOf;
    var key := ObservationKey(digest, inputs);
    assert key in history.Keys;
    OneHashEnough(digest, inputs, history[key]);
  }

  /**
   Any other observation can be answered wrongly: after a record that has its key, it is a NOOP at an
   entity that does not hold all its hashes.
   */
  method AnsweredForAnother(s: Service, a: seq<ClaimInput>, e: string) returns (first: Outcome, second: Outcome)
    requires s.Valid() && a != [] && AllClean(a) && !OneHash(a)
    requires ObservationKey(s.digest, a) !in s.seenObs && e !in s.ledger.claims
    modifies s, s.ledger
    ensures s.Valid() && first.Resolved? && first.entity == e && first.isNew
    ensures second == Resolved(e, [], false, true) && !Keeps(s.ledger.claims, e, a)
  {
    hide ClaimKey, ClaimKeys, Join, Behind, ObservationKey, MemoOk, CountsOk, DfOk, IdentOk, AllClean, OneHash, Keeps,
         Missing, AddAll;
    var keys := Sort(ClaimKeys(a));
    assert keys[0] in keys;
    SortedKeyOf(a, keys[0]);
    var c :| c in a && ClaimKey(c) == keys[0];
    EngulfingKey(s.digest, a, c);
    var b := [Engulfing(c, keys)];
    first := s.Resolve(b, Mints(e), false);
    Lacking(s.ledger.claims, e, b, a);
    second := s.Resolve(a, Undecided, false);
  }

  /** A new entity with one claim cannot hold two hashes. */
  lemma Lacking(claims: Claims, e: string, b: seq<ClaimInput>, a: seq<ClaimInput>)
    requires e in claims && claims[e] == AddAll(map[], Missing(map[], b)) && |b| == 1 && !OneHash(a)
    ensures !Keeps(claims, e, a)
  {
    hide Missing, AddAll;
    AddAllKeys(map[], Missing(map[], b));
    OnlyMissing(b);
    var x, y :| x in a && y in a && x.hash != y.hash;
    assert x.hash in HashesOf(a) && y.hash in HashesOf(a);
  }

  lemma OnlyMissing(b: seq<ClaimInput>)
    requires |b| == 1
    ensures HashesOf(Missing(map[], b)) <= {b[0].hash}
  {
    forall c | c in Missing(map[], b) ensures c.hash == b[0].hash {
      assert c in b;
    }
  }
}
