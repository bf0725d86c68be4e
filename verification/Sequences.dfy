/** Facts about concatenating a list of sequences, shared by the chunk store and the codecs. */
module Sequences {

  function Concat<T>(parts: seq<seq<T>>): seq<T> {
    if parts == [] then [] else parts[0] + Concat(parts[1..])
  }

  lemma ConcatOne<T>(part: seq<T>)
    ensures Concat([part]) == part
  {
    assert [part][1..] == [];
  }

  lemma {:induction false} ConcatAppend<T>(a: seq<seq<T>>, b: seq<seq<T>>)
    ensures Concat(a + b) == Concat(a) + Concat(b)
  {
    if a == [] {
      assert a + b == b;
    } else {
      var head, tail := a[0], a[1..];
      assert (a + b)[0] == head;
      assert (a + b)[1..] == tail + b;
      ConcatAppend(tail, b);
      calc {
        Concat(a + b);
        head + Concat(tail + b);
        head + (Concat(tail) + Concat(b));
        (head + Concat(tail)) + Concat(b);
      }
    }
  }

  /** Appending one part appends its elements. */
  lemma ConcatPush<T>(parts: seq<seq<T>>, part: seq<T>)
    ensures Concat(parts + [part]) == Concat(parts) + part
  {
    ConcatAppend(parts, [part]);
    ConcatOne(part);
  }

  lemma MoveOne<T>(a: seq<T>, x: T, b: seq<T>)
    ensures (a + [x]) + b == a + ([x] + b)
  {
  }

  lemma MoveSlice<T>(a: seq<T>, b: seq<T>, k: nat)
    requires k <= |b|
    ensures (a + b[..k]) + b[k..] == a + b
  {
  }

  lemma SplitHere<T>(s: seq<T>, i: nat)
    requires i < |s|
    ensures s == (s[..i] + [s[i]]) + s[i + 1..]
  {
  }

  lemma DropOne<T>(a: seq<T>, x: T, b: seq<T>)
    ensures multiset(a + b) == multiset((a + [x]) + b) - multiset{x}
  {
  }

  /** The last element of a sequence stands somewhere in every permutation of it. */
  lemma Relocate<T>(x: seq<T>, y: seq<T>) returns (i: nat)
    requires x != [] && multiset(x) == multiset(y)
    ensures i < |y| && y[i] == x[|x| - 1] && y == (y[..i] + [y[i]]) + y[i + 1..]
    ensures multiset(x[..|x| - 1]) == multiset(y[..i] + y[i + 1..])
  {
    var n := |x| - 1;
    assert x[n] in multiset(x);
    assert x[n] in y;
    i :| 0 <= i < |y| && y[i] == x[n];
    SplitHere(y, i);
    DropOne(y[..i], y[i], y[i + 1..]);
    assert x == (x[..n] + [x[n]]) + [];
    DropOne(x[..n], x[n], []);
    assert x[..n] + [] == x[..n];
  }
}
