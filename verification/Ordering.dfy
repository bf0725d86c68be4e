/** The byte-wise order on strings, sorting by it, and the fact that a sorted listing is unique. */
module Ordering {

  predicate Less(a: string, b: string)
    decreases |a|
  {
    b != [] && (a == [] || a[0] < b[0] || (a[0] == b[0] && Less(a[1..], b[1..])))
  }

  /** The first place where two strings differ, or the end of the shorter one, decides. */
  lemma {:induction false} LessExactly(a: string, b: string)
    ensures Less(a, b) <==>
            a < b || exists i :: 0 <= i < |a| && i < |b| && a[..i] == b[..i] && a[i] < b[i]
    decreases |a|
  {
    if a != [] && b != [] {
      if a[0] == b[0] {
        LessExactly(a[1..], b[1..]);
        assert a == [a[0]] + a[1..] && b == [b[0]] + b[1..];
        if i :| 0 <= i < |a[1..]| && i < |b[1..]| && a[1..][..i] == b[1..][..i] && a[1..][i] < b[1..][i] {
          assert a[..i + 1] == [a[0]] + a[1..][..i] && b[..i + 1] == [b[0]] + b[1..][..i];
          assert a[i + 1] < b[i + 1];
        }
        if i :| 0 <= i < |a| && i < |b| && a[..i] == b[..i] && a[i] < b[i] {
          assert a[1..][..i - 1] == a[..i][1..] && b[1..][..i - 1] == b[..i][1..];
          assert a[1..][i - 1] < b[1..][i - 1];
        }
      } else {
        assert a[..0] == b[..0];
        if i :| 0 <= i < |a| && i < |b| && a[..i] == b[..i] && a[i] < b[i] {
          assert i > 0 ==> a[..i][0] == b[..i][0];
        }
      }
    }
  }

  lemma {:induction false} LessIrreflexive(a: string)
    ensures !Less(a, a)
    decreases |a|
  {
    if a != [] {
      LessIrreflexive(a[1..]);
    }
  }

  lemma {:induction false} LessTransitive(a: string, b: string, c: string)
    requires Less(a, b) && Less(b, c)
    ensures Less(a, c)
    decreases |a|
  {
    if a != [] && a[0] == b[0] && b[0] == c[0] {
      LessTransitive(a[1..], b[1..], c[1..]);
    }
  }

  lemma {:induction false} LessTotal(a: string, b: string)
    ensures a == b || Less(a, b) || Less(b, a)
    decreases |a|
  {
    if a != [] && b != [] && a[0] == b[0] {
      LessTotal(a[1..], b[1..]);
      assert a == [a[0]] + a[1..] && b == [b[0]] + b[1..];
    }
  }

  lemma LessAsymmetric(a: string, b: string)
    requires Less(a, b)
    ensures !Less(b, a) && a != b
  {
    LessIrreflexive(a);
    if Less(b, a) {
      LessTransitive(a, b, a);
    }
  }

  /** Strictly increasing. */
  ghost predicate Sorted(s: seq<string>) {
    forall i, j :: 0 <= i < j < |s| ==> Less(s[i], s[j])
  }

  ghost predicate Distinct<T>(s: seq<T>) {
    forall i, j :: 0 <= i < j < |s| ==> s[i] != s[j]
  }

  ghost function Elements<T>(s: seq<T>): set<T> {
    set x | x in s
  }

  /** Inserts `x` before the first larger string. */
  function Insert(s: seq<string>, x: string): (r: seq<string>)
    ensures |r| == |s| + 1
    ensures Elements(r) == Elements(s) + {x}
    ensures multiset(r) == multiset(s) + multiset{x}
  {
    if s == [] || Less(x, s[0]) then [x] + s
    else
      var r := Insert(s[1..], x);
      assert s == [s[0]] + s[1..];
      assert Elements(s) == {s[0]} + Elements(s[1..]);
      assert Elements([s[0]] + r) == {s[0]} + Elements(r);
      [s[0]] + r
  }

  lemma {:induction false} InsertSorted(s: seq<string>, x: string)
    requires Sorted(s) && x !in s
    ensures Sorted(Insert(s, x))
  {
    if s == [] {
    } else if Less(x, s[0]) {
      forall j | 0 <= j < |s| ensures Less(x, s[j]) {
        if j > 0 {
          LessTransitive(x, s[0], s[j]);
        }
      }
    } else {
      LessTotal(x, s[0]);
      InsertSorted(s[1..], x);
      var r := Insert(s[1..], x);
      forall j | 0 <= j < |r| ensures Less(s[0], r[j]) {
        assert r[j] in Elements(r);
        if r[j] != x {
          var k :| 0 <= k < |s[1..]| && s[1..][k] == r[j];
          assert Less(s[0], s[k + 1]);
        }
      }
    }
  }

  /** The strings in increasing order. */
  function Sort(s: seq<string>): (r: seq<string>)
    ensures |r| == |s| && Elements(r) == Elements(s) && multiset(r) == multiset(s)
  {
    if s == [] then []
    else
      assert s == s[..|s| - 1] + [s[|s| - 1]];
      assert Elements(s) == Elements(s[..|s| - 1]) + {s[|s| - 1]};
      Insert(Sort(s[..|s| - 1]), s[|s| - 1])
  }

  lemma {:induction false} SortSorts(s: seq<string>)
    requires Distinct(s)
    ensures Sorted(Sort(s))
  {
    if s != [] {
      var front, x := s[..|s| - 1], s[|s| - 1];
      SortSorts(front);
      assert x !in Elements(front);
      assert x !in Elements(Sort(front));
      InsertSorted(Sort(front), x);
    }
  }

  lemma SortedDistinct(s: seq<string>)
    requires Sorted(s)
    ensures Distinct(s)
  {
    forall i, j | 0 <= i < j < |s| ensures s[i] != s[j] {
      LessAsymmetric(s[i], s[j]);
    }
  }

  lemma ElementsEmpty(s: seq<string>)
    ensures Elements(s) == {} <==> s == []
  {
    if s != [] {
      assert s[0] in Elements(s);
    }
  }

  /** A strictly sorted listing is decided by what it lists. */
  lemma {:induction false} SortedUnique(a: seq<string>, b: seq<string>)
    requires Sorted(a) && Sorted(b) && Elements(a) == Elements(b)
    ensures a == b
    decreases |a|
  {
    ElementsEmpty(a);
    ElementsEmpty(b);
    if a != [] {
      SameFirst(a, b);
      SameFirst(b, a);
      SortedTail(a);
      SortedTail(b);
      LessTotal(a[0], b[0]);
      if a[0] == b[0] {
        SortedUnique(a[1..], b[1..]);
        assert a == [a[0]] + a[1..] && b == [b[0]] + b[1..];
      }
    }
  }

  lemma SortedTail(a: seq<string>)
    requires Sorted(a) && a != []
    ensures Sorted(a[1..]) && Elements(a[1..]) == Elements(a) - {a[0]}
  {
    SortedDistinct(a);
    forall x | x in Elements(a) && x != a[0] ensures x in Elements(a[1..]) {
      var i :| 0 <= i < |a| && a[i] == x;
      assert a[1..][i - 1] == x;
    }
  }

  lemma SameFirst(a: seq<string>, b: seq<string>)
    requires Sorted(a) && Sorted(b) && Elements(a) == Elements(b) && a != [] && b != []
    ensures !Less(a[0], b[0])
  {
    if Less(a[0], b[0]) {
      assert a[0] in Elements(b);
      var i :| 0 <= i < |b| && b[i] == a[0];
      if i > 0 {
        LessTransitive(a[0], b[0], b[i]);
      }
      LessIrreflexive(a[0]);
    }
  }

  // -------------------------------------------------------------------------------------------
  // Sorting with repetitions
  // -------------------------------------------------------------------------------------------

  /** Nowhere decreasing. */
  ghost predicate Ascending(s: seq<string>) {
    forall i, j :: 0 <= i < j < |s| ==> !Less(s[j], s[i])
  }

  lemma {:induction false} InsertAscending(s: seq<string>, x: string)
    requires Ascending(s)
    ensures Ascending(Insert(s, x))
  {
    if s != [] {
      if Less(x, s[0]) {
        LessIrreflexive(s[0]);
        forall j | 0 <= j < |s| ensures !Less(s[j], x) {
          if Less(s[j], x) {
            LessTransitive(s[j], x, s[0]);
          }
        }
      } else {
        InsertAscending(s[1..], x);
        var r := Insert(s[1..], x);
        forall j | 0 <= j < |r| ensures !Less(r[j], s[0]) {
          assert r[j] in Elements(r);
        }
      }
    }
  }

  lemma {:induction false} SortAscending(s: seq<string>)
    ensures Ascending(Sort(s))
  {
    if s != [] {
      SortAscending(s[..|s| - 1]);
      InsertAscending(Sort(s[..|s| - 1]), s[|s| - 1]);
    }
  }

  lemma MultisetTail<T>(a: seq<T>)
    requires a != []
    ensures a == [a[0]] + a[1..]
    ensures multiset(a[1..]) == multiset(a) - multiset{a[0]}
  {
    assert a == [a[0]] + a[1..];
  }

  lemma AscendingFirst(a: seq<string>, b: seq<string>)
    requires Ascending(a) && multiset(a) == multiset(b) && a != [] && b != []
    ensures !Less(b[0], a[0])
  {
    LessIrreflexive(a[0]);
    assert b[0] in multiset(a);
    var i :| 0 <= i < |a| && a[i] == b[0];
  }

  lemma {:induction false} AscendingUnique(a: seq<string>, b: seq<string>)
    requires Ascending(a) && Ascending(b) && multiset(a) == multiset(b)
    ensures a == b
    decreases |a|
  {
    assert |a| == |multiset(a)| == |multiset(b)| == |b|;
    if a != [] {
      AscendingFirst(a, b);
      AscendingFirst(b, a);
      LessTotal(a[0], b[0]);
      MultisetTail(a);
      MultisetTail(b);
      AscendingUnique(a[1..], b[1..]);
    }
  }

  /** Sorting forgets the order the strings came in. */
  lemma SortCanonical(a: seq<string>, b: seq<string>)
    requires multiset(a) == multiset(b)
    ensures Sort(a) == Sort(b)
  {
    SortAscending(a);
    SortAscending(b);
    AscendingUnique(Sort(a), Sort(b));
  }
}
