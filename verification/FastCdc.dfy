/**
 The rolling hash the store chunks with: a gear table of mixed words and two bit masks. `Window` says
 that it forgets all but the last 64 bytes, so boundaries move with the content (`BoundaryMoves`).
 */
module FastCdc {
  import opened Chunking

  const MASK_S: bv64 := 0x0003590703530000
  const MASK_L: bv64 := 0x0000d90003530000
  const SEED: bv64 := 0x9e3779b97f4a7c15
  const WORD: nat := 0x1_0000_0000_0000_0000

  /** The generator state after `index + 1` increments. */
  function State(index: nat): bv64 {
    if index == 0 then SEED + SEED else State(index - 1) + SEED
  }

  function Mix(state: bv64): bv64 {
    var z := (state ^ (state >> 30)) * 0xbf58476d1ce4e5b9;
    var y := (z ^ (z >> 27)) * 0x94d049bb133111eb;
    y ^ (y >> 31)
  }

  predicate Clears(hash: nat, mask: bv64) {
    hash < WORD && (hash as bv64) & mask == 0
  }

  /** A 64-bit hash shifted left by one with the byte's table entry added, modulo the word size. */
  const GEAR: Gear := Gear(
    (hash: nat, b: byte) => (2 * hash + Mix(State(b as nat)) as nat) % WORD,
    (hash: nat) => Clears(hash, MASK_S),
    (hash: nat) => Clears(hash, MASK_L))

  // -------------------------------------------------------------------------------------------
  // The hash forgets
  // -------------------------------------------------------------------------------------------

  /** A gear that shifts by one and adds a table entry, modulo the word size. */
  ghost predicate Shifts(gear: Gear, table: byte -> nat) {
    forall hash: nat, b :: gear.roll(hash, b) == (2 * hash + table(b)) % WORD
  }

  function Pow2(n: nat): nat {
    if n == 0 then 1 else 2 * Pow2(n - 1)
  }

  lemma DoubleMod(x: nat, g: nat)
    ensures (2 * (x % WORD) + g) % WORD == (2 * x + g) % WORD
  {
    var q := x / WORD;
    assert x == WORD * q + x % WORD;
    AddWords(2 * (x % WORD) + g, 2 * q);
  }

  lemma AddWords(x: nat, q: nat)
    ensures (x + WORD * q) % WORD == x % WORD
    decreases q
  {
    if q > 0 {
      AddWords(x, q - 1);
      assert (x + WORD * (q - 1) + WORD) % WORD == (x + WORD * (q - 1)) % WORD;
    }
  }

  lemma AddMod(x: nat, y: nat)
    ensures (x + y % WORD) % WORD == (x + y) % WORD
  {
    AddWords(x + y % WORD, y / WORD);
  }

  lemma RolledPush(gear: Gear, table: byte -> nat, x: Bytes, b: byte)
    requires Shifts(gear, table)
    ensures Rolled(gear, x + [b]) == (2 * Rolled(gear, x) + table(b)) % WORD
  {
    assert (x + [b])[..|x|] == x;
  }

  /** What rolling `n` bytes on from `before` gives, when rolling them alone gives `own`. */
  function Shifted(n: nat, before: nat, own: nat): nat {
    (Pow2(n) * before + own) % WORD
  }

  /** Every byte rolled in doubles the weight of what was there before. */
  lemma {:induction false} RolledSplit(gear: Gear, table: byte -> nat, x: Bytes, w: Bytes)
    requires Shifts(gear, table)
    ensures w != [] ==> Rolled(gear, x + w) == Shifted(|w|, Rolled(gear, x), Rolled(gear, w))
    decreases |w|
  {
    hide Rolled, Shifts, Shifted;
    if w != [] {
      var front, b := w[..|w| - 1], w[|w| - 1];
      assert w == front + [b] && x + w == (x + front) + [b];
      RolledPush(gear, table, x + front, b);
      RolledPush(gear, table, front, b);
      ShiftedStep(|front|, Rolled(gear, x), Rolled(gear, front), table(b));
      if front == [] {
        assert x + front == x;
        NothingYet(gear);
      } else {
        RolledSplit(gear, table, x, front);
      }
    }
  }

  lemma ShiftedStep(n: nat, before: nat, own: nat, g: nat)
    ensures (2 * Shifted(n, before, own) + g) % WORD == Shifted(n + 1, before, (2 * own + g) % WORD)
    ensures n == own == 0 ==> (2 * before + g) % WORD == Shifted(1, before, g % WORD)
  {
    hide Pow2;
    PowerStep(n, before);
    SplitStep(Pow2(n) * before, own, g);
  }

  lemma PowerStep(n: nat, r: nat)
    ensures Pow2(n + 1) * r == 2 * (Pow2(n) * r) && Pow2(0) * r == r
  {
  }

  lemma SplitStep(before: nat, own: nat, g: nat)
    ensures (2 * ((before + own) % WORD) + g) % WORD == (2 * before + (2 * own + g) % WORD) % WORD
    ensures own == 0 ==> (2 * before + g) % WORD == (2 * before + (2 * own + g) % WORD) % WORD
  {
    DoubleMod(before + own, g);
    AddMod(2 * before, 2 * own + g);
  }

  lemma NothingYet(gear: Gear)
    ensures Rolled(gear, []) == 0
  {
  }

  lemma {:induction false} Pow2Add(m: nat, n: nat)
    ensures Pow2(m + n) == Pow2(m) * Pow2(n)
  {
    if m > 0 {
      Pow2Add(m - 1, n);
    }
  }

  lemma Pow64()
    ensures Pow2(64) == WORD
  {
    Pow2Add(8, 8);
    Pow2Add(16, 16);
    Pow2Add(32, 32);
    assert Pow2(8) == 256;
  }

  /** After 64 bytes nothing of what came before them is left in the hash. */
  lemma Window(gear: Gear, table: byte -> nat, x: Bytes, w: Bytes)
    requires Shifts(gear, table) && |w| >= 64
    ensures Rolled(gear, x + w) == Rolled(gear, w)
  {
    hide Pow2, Rolled;
    RolledSplit(gear, table, x, w);
    Multiple(|w|, Rolled(gear, x), Rolled(gear, w));
    InWord(gear, table, w);
  }

  lemma Multiple(n: nat, r: nat, own: nat)
    requires n >= 64
    ensures (Pow2(n) * r + own) % WORD == own % WORD
  {
    Pow64();
    Pow2Add(64, n - 64);
    hide Pow2;
    var k := Pow2(n - 64) * r;
    assert Pow2(n) * r == WORD * k by { Regroup(WORD, Pow2(n - 64), r); }
    AddWords(own, k);
  }

  lemma Regroup(x: nat, y: nat, z: nat)
    ensures (x * y) * z == x * (y * z)
  {
  }

  lemma InWord(gear: Gear, table: byte -> nat, w: Bytes)
    requires Shifts(gear, table) && w != []
    ensures Rolled(gear, w) % WORD == Rolled(gear, w)
  {
    var before := Rolled(gear, w[..|w| - 1]);
    assert Rolled(gear, w) == (2 * before + table(w[|w| - 1])) % WORD;
  }

  lemma GearShifts()
    ensures Shifts(GEAR, (b: byte) => Mix(State(b as nat)) as nat)
  {
  }

  /**
   Boundaries are made by content: wherever the same 64 bytes come up, beyond the minimum and on the same
   side of the average size, they are a boundary or they are not.
   */
  lemma BoundaryMoves(a: Bytes, b: Bytes, i: nat, j: nat)
    requires CHUNK_MIN + 63 <= i < |a| && CHUNK_MIN + 63 <= j < |b| && (i < CHUNK_AVG <==> j < CHUNK_AVG)
    requires a[i - 63..i + 1] == b[j - 63..j + 1]
    ensures Boundary(GEAR, a, i) <==> Boundary(GEAR, b, j)
  {
    hide Rolled;
    var w := a[i - 63..i + 1];
    GearShifts();
    assert a[CHUNK_MIN..i + 1] == a[CHUNK_MIN..i - 63] + w;
    assert b[CHUNK_MIN..j + 1] == b[CHUNK_MIN..j - 63] + w;
    Window(GEAR, (x: byte) => Mix(State(x as nat)) as nat, a[CHUNK_MIN..i - 63], w);
    Window(GEAR, (x: byte) => Mix(State(x as nat)) as nat, b[CHUNK_MIN..j - 63], w);
  }
}
