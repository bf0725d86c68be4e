/** Counting and collecting over the threads of a state machine, and what changing one thread changes. */
module Threads {

  ghost function Total<T>(ts: seq<T>, f: T -> nat): nat {
    if ts == [] then 0 else Total(ts[..|ts| - 1], f) + f(ts[|ts| - 1])
  }

  ghost function Gather<T, U>(ts: seq<T>, f: T -> multiset<U>): multiset<U> {
    if ts == [] then multiset{} else Gather(ts[..|ts| - 1], f) + f(ts[|ts| - 1])
  }

  lemma {:induction false} TotalUpdate<T>(ts: seq<T>, f: T -> nat, i: nat, t: T)
    requires i < |ts|
    ensures Total(ts[i := t], f) + f(ts[i]) == Total(ts, f) + f(t)
  {
    var front := ts[..|ts| - 1];
    if i == |ts| - 1 {
      assert ts[i := t][..|ts| - 1] == front;
    } else {
      TotalUpdate(front, f, i, t);
      assert ts[i := t][..|ts| - 1] == front[i := t];
    }
  }

  lemma {:induction false} TotalAtLeast<T>(ts: seq<T>, f: T -> nat, i: nat)
    requires i < |ts|
    ensures f(ts[i]) <= Total(ts, f)
  {
    if i < |ts| - 1 {
      TotalAtLeast(ts[..|ts| - 1], f, i);
    }
  }

  /** Two different threads contribute separately. */
  lemma {:induction false} TotalAtLeastTwo<T>(ts: seq<T>, f: T -> nat, i: nat, j: nat)
    requires i < j < |ts|
    ensures f(ts[i]) + f(ts[j]) <= Total(ts, f)
  {
    if j == |ts| - 1 {
      TotalAtLeast(ts[..j], f, i);
    } else {
      TotalAtLeastTwo(ts[..|ts| - 1], f, i, j);
    }
  }

  lemma {:induction false} TotalZero<T>(ts: seq<T>, f: T -> nat)
    ensures Total(ts, f) == 0 <==> forall i :: 0 <= i < |ts| ==> f(ts[i]) == 0
  {
    if ts != [] {
      var front := ts[..|ts| - 1];
      TotalZero(front, f);
      assert forall i :: 0 <= i < |front| ==> front[i] == ts[i];
    }
  }

  /** Collecting at most `g` things from each thread collects at most the total. */
  lemma {:induction false} GatherSize<T, U>(ts: seq<T>, f: T -> multiset<U>, g: T -> nat)
    requires forall t :: t in ts ==> |f(t)| <= g(t)
    ensures |Gather(ts, f)| <= Total(ts, g)
  {
    if ts != [] {
      assert ts[|ts| - 1] in ts;
      GatherSize(ts[..|ts| - 1], f, g);
    }
  }
}
