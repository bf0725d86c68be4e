/**
 What the callers of the store ask for, over whole runs of `CommitProtocol`. A file is filed under
 the hash of its content and stored without looking; a compound object is filed under the hash of its
 prefixed id and stored only if its digest had no recipe when it looked. The main results say exactly
 when a digest keeps its content: `DigestKeptExactly` for callers that overlap and
 `DigestKeptInTurn` for callers that wait for each other.
 */
module StoreRequests {
  import opened Options
  import opened Sequences
  import opened Chunking
  import opened PackStore
  import opened CommitProtocol

  // -------------------------------------------------------------------------------------------
  // Objects over time
  // -------------------------------------------------------------------------------------------

  /** Whether a step commits other content under `digest` than it holds. */
  ghost predicate Replaces(s: State, step: Step, digest: string) {
    && step.Commit? && step.t in s.puts && digest in s.puts[step.t].objects
    && digest in s.objects && Concat(s.puts[step.t].objects[digest]) != Concat(s.objects[digest])
  }

  /** A step that does not replace an object keeps it. */
  lemma KeptByStep(codec: Codec, s: State, step: Step, digest: string)
    requires Enabled(codec, s, step) && digest in s.objects && !Replaces(s, step, digest)
    ensures digest in Apply(codec, s, step).objects
    ensures Concat(Apply(codec, s, step).objects[digest]) == Concat(s.objects[digest])
  {
  }

  /** A committed object stays readable, unchanged, until other content is committed under its digest. */
  lemma {:induction false} StaysReadable(codec: Codec, run: seq<State>, steps: seq<Step>, i: nat, j: nat,
                                         digest: string)
    requires Sound(codec) && IsRun(codec, run, steps) && i <= j < |run|
    requires digest in run[i].objects
    requires forall k :: i <= k < j ==> !Replaces(run[k], steps[k], digest)
    ensures digest in run[j].objects && Concat(run[j].objects[digest]) == Concat(run[i].objects[digest])
    ensures ReadObject(codec, run[j].disk, digest) == Some(Concat(run[i].objects[digest]))
    decreases j
  {
    if i < j {
      StaysReadable(codec, run, steps, i, j - 1, digest);
      assert !Replaces(run[j - 1], steps[j - 1], digest);
      KeptByStep(codec, run[j - 1], steps[j - 1], digest);
    }
    ReadsBack(codec, run, steps, j, digest);
  }

  /** A commit changes what a digest reads as if and only if it replaces the object. */
  lemma CommitChanges(codec: Codec, s: State, t: nat, digest: string)
    requires Sound(codec) && Inv(codec, s) && Enabled(codec, s, Commit(t))
    requires digest in s.objects
    ensures ReadObject(codec, Apply(codec, s, Commit(t)).disk, digest) != ReadObject(codec, s.disk, digest) <==>
            Replaces(s, Commit(t), digest)
  {
    KeepsCommit(codec, s, t);
    ObjectReads(codec, s, digest);
    ObjectReads(codec, Apply(codec, s, Commit(t)), digest);
  }

  // -------------------------------------------------------------------------------------------
  // What is stored is what was asked for
  // -------------------------------------------------------------------------------------------

  /** Every request of the run is one of `requests`. */
  ghost predicate Serves(steps: seq<Step>, requests: set<Request>) {
    forall i :: 0 <= i < |steps| ==> (steps[i].Begin? ==> steps[i].request in requests)
  }

  ghost predicate Offered(codec: Codec, requests: set<Request>, digest: string, content: Bytes) {
    exists r :: r in requests && DigestOf(codec, r) == digest && r.Content() == content
  }

  ghost predicate AllOffered(codec: Codec, requests: set<Request>, objects: map<string, seq<Bytes>>) {
    forall d :: d in objects ==> Offered(codec, requests, d, Concat(objects[d]))
  }

  ghost predicate Backed(codec: Codec, requests: set<Request>, s: State) {
    && (forall t :: t in s.asks ==> s.asks[t].request in requests)
    && AllOffered(codec, requests, s.objects)
    && (forall t :: t in s.puts ==> AllOffered(codec, requests, s.puts[t].objects))
  }

  lemma BackedRecipe(codec: Codec, requests: set<Request>, b: Batch, r: Request)
    requires AllOffered(codec, requests, b.objects) && r in requests && Concat(b.chunks) == r.Content()
    ensures AllOffered(codec, requests, WithRecipe(codec, b, DigestOf(codec, r)).objects)
  {
    assert Offered(codec, requests, DigestOf(codec, r), Concat(b.chunks));
  }

  lemma BackedStep(codec: Codec, requests: set<Request>, s: State, step: Step)
    requires Backed(codec, requests, s) && Enabled(codec, s, step)
    requires step.Begin? ==> step.request in requests
    ensures Backed(codec, requests, Apply(codec, s, step))
  {
    hide Offered;
    var s' := Apply(codec, s, step);
    if step.SetRecipe? {
      BackedRecipe(codec, requests, s.puts[step.t], s.asks[step.t].request);
    }
    forall t | t in s'.puts ensures AllOffered(codec, requests, s'.puts[t].objects) {
      assert t in s.puts ==> AllOffered(codec, requests, s.puts[t].objects);
    }
  }

  lemma {:induction false} RunBacked(codec: Codec, requests: set<Request>, run: seq<State>, steps: seq<Step>, i: nat)
    requires IsRun(codec, run, steps) && Serves(steps, requests) && i < |run|
    ensures Backed(codec, requests, run[i])
    decreases i
  {
    if i > 0 {
      RunBacked(codec, requests, run, steps, i - 1);
      BackedStep(codec, requests, run[i - 1], steps[i - 1]);
    }
  }

  lemma {:induction false} ObjectsKept(codec: Codec, run: seq<State>, steps: seq<Step>, i: nat, j: nat)
    requires IsRun(codec, run, steps) && i <= j < |run|
    ensures run[i].objects.Keys <= run[j].objects.Keys
    decreases j
  {
    if i < j {
      ObjectsKept(codec, run, steps, i, j - 1);
    }
  }

  // -------------------------------------------------------------------------------------------
  // When a digest keeps its content
  // -------------------------------------------------------------------------------------------

  /** All requests that store under this digest offer the same content. */
  ghost predicate Agreed(codec: Codec, requests: set<Request>, digest: string) {
    forall q, r :: q in requests && r in requests && DigestOf(codec, q) == digest && DigestOf(codec, r) == digest ==>
      q.Content() == r.Content()
  }

  /** The digest, once it is stored, reads the same at every later state of the run. */
  ghost predicate Keeps(codec: Codec, run: seq<State>, digest: string) {
    forall i, j :: 0 <= i <= j < |run| && digest in run[i].objects ==>
      ReadObject(codec, run[j].disk, digest) == ReadObject(codec, run[i].disk, digest)
  }

  lemma AgreedReads(codec: Codec, requests: set<Request>, run: seq<State>, steps: seq<Step>, i: nat, j: nat,
                    digest: string)
    requires Sound(codec) && IsRun(codec, run, steps) && Serves(steps, requests) && i <= j < |run|
    requires Agreed(codec, requests, digest) && digest in run[i].objects
    ensures ReadObject(codec, run[j].disk, digest) == Some(Concat(run[i].objects[digest]))
    ensures ReadObject(codec, run[i].disk, digest) == Some(Concat(run[i].objects[digest]))
    ensures Offered(codec, requests, digest, Concat(run[i].objects[digest]))
  {
    hide Inv, Enabled, Apply, ReadObject;
    ObjectsKept(codec, run, steps, i, j);
    assert digest in run[j].objects.Keys;
    RunBacked(codec, requests, run, steps, i);
    RunBacked(codec, requests, run, steps, j);
    assert Offered(codec, requests, digest, Concat(run[i].objects[digest]));
    assert Offered(codec, requests, digest, Concat(run[j].objects[digest]));
    ReadsBack(codec, run, steps, i, digest);
    ReadsBack(codec, run, steps, j, digest);
  }

  lemma AgreedKeeps(codec: Codec, requests: set<Request>, run: seq<State>, steps: seq<Step>, digest: string)
    requires Sound(codec) && IsRun(codec, run, steps) && Serves(steps, requests) && Agreed(codec, requests, digest)
    ensures Keeps(codec, run, digest)
  {
    hide IsRun, Agreed, ReadObject;
    forall i: nat, j: nat | i <= j < |run| && digest in run[i].objects
      ensures ReadObject(codec, run[j].disk, digest) == ReadObject(codec, run[i].disk, digest)
    {
      AgreedReads(codec, requests, run, steps, i, j, digest);
    }
  }

  /**
   Content addressing: as long as no compound object of this digest is asked for, the digest, once
   stored, reads back at every later state of every run as the one content that hashes to it. Files
   may be stored again and compound objects of other digests come and go.
   */
  lemma ContentAddressed(codec: Codec, requests: set<Request>, run: seq<State>, steps: seq<Step>, i: nat, j: nat,
                         digest: string)
    requires Sound(codec) && IsRun(codec, run, steps) && Serves(steps, requests) && i <= j < |run|
    requires forall r :: r in requests && r.PutCompound? ==> DigestOf(codec, r) != digest
    requires digest in run[i].objects
    ensures ReadObject(codec, run[j].disk, digest) == Some(Concat(run[i].objects[digest]))
    ensures codec.hash(Concat(run[i].objects[digest])) == digest
  {
    hide IsRun, ReadObject;
    assert Agreed(codec, requests, digest);
    AgreedReads(codec, requests, run, steps, i, j, digest);
  }

  // -------------------------------------------------------------------------------------------
  // Building a run, one step at a time
  // -------------------------------------------------------------------------------------------

  datatype Trace = Trace(states: seq<State>, steps: seq<Step>)

  ghost predicate Proper(codec: Codec, requests: set<Request>, trace: Trace) {
    IsRun(codec, trace.states, trace.steps) && Serves(trace.steps, requests)
  }

  function Last(trace: Trace): State {
    if trace.states == [] then INIT else trace.states[|trace.states| - 1]
  }

  lemma Start(codec: Codec, requests: set<Request>)
    ensures Proper(codec, requests, Trace([INIT], [])) && Last(Trace([INIT], [])) == INIT
  {
  }

  lemma Go(codec: Codec, requests: set<Request>, trace: Trace, step: Step) returns (next: Trace)
    requires Proper(codec, requests, trace) && Enabled(codec, Last(trace), step)
    requires step.Begin? ==> step.request in requests
    ensures Proper(codec, requests, next) && Last(next) == Apply(codec, Last(trace), step)
    ensures next.states == trace.states + [Last(next)]
  {
    hide Enabled, Apply;
    next := Trace(trace.states + [Apply(codec, Last(trace), step)], trace.steps + [step]);
    forall i | 0 <= i < |next.steps|
      ensures Enabled(codec, next.states[i], next.steps[i])
      ensures next.states[i + 1] == Apply(codec, next.states[i], next.steps[i])
      ensures next.steps[i].Begin? ==> next.steps[i].request in requests
    {
      if i < |trace.steps| {
        assert next.steps[i] == trace.steps[i];
        assert next.states[i] == trace.states[i] && next.states[i + 1] == trace.states[i + 1];
      }
    }
  }

  /** `next` goes on from `trace` without beginning another Put. */
  ghost predicate Continues(trace: Trace, next: Trace) {
    && trace.states <= next.states
    && Last(next).puts.Keys <= Last(trace).puts.Keys
    && forall k :: |trace.states| <= k < |next.states| ==> next.states[k].puts.Keys <= Last(trace).puts.Keys
  }

  lemma ContinuesOn(a: Trace, b: Trace, c: Trace)
    requires Continues(a, b) && Continues(b, c)
    ensures Continues(a, c)
  {
    forall k | |a.states| <= k < |c.states| ensures c.states[k].puts.Keys <= Last(a).puts.Keys {
      if k < |b.states| {
        assert c.states[k] == b.states[k];
      }
    }
  }

  lemma GoOn(codec: Codec, requests: set<Request>, trace: Trace, step: Step) returns (next: Trace)
    requires Proper(codec, requests, trace) && Enabled(codec, Last(trace), step) && !step.Begin?
    requires Apply(codec, Last(trace), step).puts.Keys <= Last(trace).puts.Keys
    ensures Proper(codec, requests, next) && Last(next) == Apply(codec, Last(trace), step)
    ensures Continues(trace, next)
  {
    hide Proper, Enabled, Apply;
    next := Go(codec, requests, trace, step);
  }

  /** The active pack can be located and every pack the Put has touched exists. */
  ghost predicate Located(s: State) {
    s.active.Known? || s.disk.packs == map[]
  }

  ghost predicate Grounded(s: State, t: nat) {
    t in s.puts && t in s.asks && Located(s) && s.puts[t].touched <= s.disk.packs.Keys
  }

  /** Nothing committed changes between the two states, nor does any Put but `t`. */
  ghost predicate OnlyPut(s: State, s': State, t: nat) {
    && s'.objects == s.objects && s'.disk.recipes == s.disk.recipes && s'.asks == s.asks
    && s'.puts.Keys == s.puts.Keys
    && forall u :: u != t && u in s.puts ==> s'.puts[u] == s.puts[u]
  }

  lemma OnlyPutOn(a: State, b: State, c: State, t: nat)
    requires OnlyPut(a, b, t) && OnlyPut(b, c, t)
    ensures OnlyPut(a, c, t)
  {
    forall u | u != t && u in a.puts ensures c.puts[u] == a.puts[u] {
      assert u in b.puts.Keys;
    }
  }

  function StoreStep(codec: Codec, s: State, t: nat, chunk: Bytes): Step
    requires t in s.puts
  {
    var h := codec.hash(chunk);
    if h in s.puts[t].seen then ReuseSeen(t, chunk)
    else if h in s.disk.index then ReuseIndexed(t, chunk)
    else Append(t, chunk, "", if s.active.Known? then s.active else Known(0, 0))
  }

  lemma StoreOne(codec: Codec, s: State, t: nat, chunk: Bytes)
    requires Grounded(s, t) && Takes(s, t, chunk)
    ensures Enabled(codec, s, StoreStep(codec, s, t, chunk))
    ensures var s' := Apply(codec, s, StoreStep(codec, s, t, chunk));
            && Grounded(s', t) && IsStoring(s', t) && OnlyPut(s, s', t)
            && s'.puts[t].chunks == s.puts[t].chunks + [chunk] && s'.puts[t].objects == s.puts[t].objects
  {
  }

  lemma {:induction false} StoreAll(codec: Codec, requests: set<Request>, trace: Trace, t: nat, chunks: seq<Bytes>)
    returns (next: Trace)
    requires Proper(codec, requests, trace) && Grounded(Last(trace), t) && IsStoring(Last(trace), t)
    requires Concat(Last(trace).puts[t].chunks) + Concat(chunks) == Last(trace).asks[t].request.Content()
    ensures Proper(codec, requests, next) && Continues(trace, next)
    ensures Grounded(Last(next), t) && IsStoring(Last(next), t) && OnlyPut(Last(trace), Last(next), t)
    ensures Last(next).puts[t].chunks == Last(trace).puts[t].chunks + chunks
    ensures Last(next).puts[t].objects == Last(trace).puts[t].objects
    decreases |chunks|
  {
    hide Proper, Enabled, Apply;
    if chunks == [] {
      next := trace;
      assert Last(trace).puts[t].chunks + chunks == Last(trace).puts[t].chunks;
    } else {
      hide Continues;
      var s := Last(trace);
      var had := s.puts[t].chunks;
      TakesFirst(had, chunks, s.asks[t].request.Content());
      StoreOne(codec, s, t, chunks[0]);
      var first := GoOn(codec, requests, trace, StoreStep(codec, s, t, chunks[0]));
      next := StoreAll(codec, requests, first, t, chunks[1..]);
      ContinuesOn(trace, first, next);
      OnlyPutOn(s, Last(first), Last(next), t);
      assert had + [chunks[0]] + chunks[1..] == had + chunks;
    }
  }

  lemma TakesFirst(had: seq<Bytes>, chunks: seq<Bytes>, content: Bytes)
    requires chunks != [] && Concat(had) + Concat(chunks) == content
    ensures Concat(had) + chunks[0] <= content
    ensures Concat(had + [chunks[0]]) + Concat(chunks[1..]) == content
  {
    ConcatPush(had, chunks[0]);
    assert Concat(had) + (chunks[0] + Concat(chunks[1..])) == (Concat(had) + chunks[0]) + Concat(chunks[1..]);
  }

  // -------------------------------------------------------------------------------------------
  // Syncing and committing
  // -------------------------------------------------------------------------------------------

  ghost predicate IsSyncing(s: State, t: nat) {
    Grounded(s, t) && s.puts[t].phase.Syncing? && s.puts[t].phase.done <= s.puts[t].touched
  }

  lemma SyncOne(codec: Codec, s: State, t: nat, id: nat)
    requires IsSyncing(s, t) && id in s.puts[t].touched
    ensures Enabled(codec, s, SyncPack(t, id))
    ensures var s' := Apply(codec, s, SyncPack(t, id));
            && IsSyncing(s', t) && OnlyPut(s, s', t)
            && s'.puts[t] == s.puts[t].(phase := Syncing(s.puts[t].phase.done + {id}))
  {
    assert id in s.disk.packs.Keys;
  }

  lemma {:induction false} SyncAll(codec: Codec, requests: set<Request>, trace: Trace, t: nat) returns (next: Trace)
    requires Proper(codec, requests, trace) && IsSyncing(Last(trace), t)
    ensures Proper(codec, requests, next) && Continues(trace, next)
    ensures IsSyncing(Last(next), t) && OnlyPut(Last(trace), Last(next), t)
    ensures Last(next).puts[t] == Last(trace).puts[t].(phase := Syncing(Last(trace).puts[t].touched))
    decreases Last(trace).puts[t].touched - Last(trace).puts[t].phase.done
  {
    hide Proper, Enabled, Apply;
    var b := Last(trace).puts[t];
    if id :| id in b.touched && id !in b.phase.done {
      hide Continues;
      SyncOne(codec, Last(trace), t, id);
      var first := GoOn(codec, requests, trace, SyncPack(t, id));
      next := SyncAll(codec, requests, first, t);
      ContinuesOn(trace, first, next);
      OnlyPutOn(Last(trace), Last(first), Last(next), t);
    } else {
      next := trace;
      assert b.phase.done == b.touched;
    }
  }

  /** The Put is done: its object is filed, the other Puts are as they were. */
  ghost predicate Filed(codec: Codec, s: State, s': State, t: nat, chunks: seq<Bytes>)
    requires t in s.asks
  {
    && Located(s') && s'.asks == s.asks && s'.puts.Keys == s.puts.Keys - {t}
    && s'.objects == s.objects[DigestOf(codec, s.asks[t].request) := chunks]
    && s'.disk.recipes.Keys == s.disk.recipes.Keys + {DigestOf(codec, s.asks[t].request)}
    && forall u :: u != t && u in s.puts ==> s'.puts[u] == s.puts[u]
  }

  /** The batch has its recipe and nothing else is buffered but chunks. */
  ghost predicate Written(codec: Codec, s: State, t: nat, chunks: seq<Bytes>) {
    && Grounded(s, t)
    && s.puts[t].objects == map[DigestOf(codec, s.asks[t].request) := chunks]
    && s.puts[t].recipes.Keys == {DigestOf(codec, s.asks[t].request)}
  }

  lemma CommitFiles(codec: Codec, s: State, t: nat, chunks: seq<Bytes>)
    requires Written(codec, s, t, chunks) && Enabled(codec, s, Commit(t))
    ensures Filed(codec, s, Apply(codec, s, Commit(t)), t, chunks)
  {
  }

  lemma RecipeWritten(codec: Codec, s: State, t: nat, chunks: seq<Bytes>)
    requires Grounded(s, t) && IsStoring(s, t) && s.puts[t].objects == map[]
    requires s.puts[t].chunks == chunks && Concat(chunks) == s.asks[t].request.Content()
    ensures Enabled(codec, s, SetRecipe(t))
    ensures var s' := Apply(codec, s, SetRecipe(t));
            Written(codec, s', t, chunks) && IsBuffered(s', t) && OnlyPut(s, s', t)
  {
    var s' := Apply(codec, s, SetRecipe(t));
    assert DigestOf(codec, s.asks[t].request) in s'.puts[t].recipes;
  }

  lemma SyncStarts(codec: Codec, s: State, t: nat, chunks: seq<Bytes>)
    requires Written(codec, s, t, chunks) && IsBuffered(s, t) && s.puts[t].touched != {}
    ensures Enabled(codec, s, StartSync(t))
    ensures var s' := Apply(codec, s, StartSync(t));
            IsSyncing(s', t) && OnlyPut(s, s', t) && Written(codec, s', t, chunks)
  {
  }

  lemma SyncEnds(codec: Codec, s: State, t: nat, chunks: seq<Bytes>)
    requires Written(codec, s, t, chunks) && s.puts[t].phase == Syncing(s.puts[t].touched)
    ensures Enabled(codec, s, SyncDir(t))
    ensures var s' := Apply(codec, s, SyncDir(t));
            s'.puts[t].phase.Ready? && OnlyPut(s, s', t) && Written(codec, s', t, chunks)
  {
    assert AllLinked(s.disk.packs).Keys == s.disk.packs.Keys;
  }

  /** Nothing was appended, or all of it is synced: the Put commits. */
  lemma CommitOpen(codec: Codec, s: State, t: nat)
    requires t in s.puts && (s.puts[t].phase.Ready? || (IsBuffered(s, t) && s.puts[t].touched == {}))
    ensures Enabled(codec, s, Commit(t))
  {
  }

  lemma FiledLater(codec: Codec, s: State, m: State, s': State, t: nat, chunks: seq<Bytes>)
    requires t in s.asks && OnlyPut(s, m, t) && Filed(codec, m, s', t, chunks)
    ensures Filed(codec, s, s', t, chunks)
  {
  }

  lemma SyncedTrace(codec: Codec, requests: set<Request>, trace: Trace, t: nat, chunks: seq<Bytes>)
    returns (next: Trace)
    requires Proper(codec, requests, trace) && Written(codec, Last(trace), t, chunks)
    requires IsBuffered(Last(trace), t) && Last(trace).puts[t].touched != {}
    ensures Proper(codec, requests, next) && Continues(trace, next)
    ensures Written(codec, Last(next), t, chunks) && OnlyPut(Last(trace), Last(next), t)
    ensures Last(next).puts[t].phase.Ready?
  {
    hide Proper, Enabled, Apply, DigestOf, Continues;
    var s := Last(trace);
    SyncStarts(codec, s, t, chunks);
    var started := GoOn(codec, requests, trace, StartSync(t));
    var synced := SyncAll(codec, requests, started, t);
    ContinuesOn(trace, started, synced);
    OnlyPutOn(s, Last(started), Last(synced), t);
    SyncEnds(codec, Last(synced), t, chunks);
    next := GoOn(codec, requests, synced, SyncDir(t));
    ContinuesOn(trace, synced, next);
    OnlyPutOn(s, Last(synced), Last(next), t);
  }

  lemma Settle(codec: Codec, requests: set<Request>, trace: Trace, t: nat, chunks: seq<Bytes>) returns (next: Trace)
    requires Proper(codec, requests, trace) && Written(codec, Last(trace), t, chunks) && IsBuffered(Last(trace), t)
    ensures Proper(codec, requests, next) && Continues(trace, next)
    ensures Filed(codec, Last(trace), Last(next), t, chunks)
  {
    hide Proper, Enabled, Apply, Filed, DigestOf;
    var ready := trace;
    if Last(trace).puts[t].touched != {} {
      ready := SyncedTrace(codec, requests, trace, t, chunks);
    }
    CommitOpen(codec, Last(ready), t);
    CommitFiles(codec, Last(ready), t, chunks);
    next := GoOn(codec, requests, ready, Commit(t));
    ContinuesOn(trace, ready, next);
    FiledLater(codec, Last(trace), Last(ready), Last(next), t, chunks);
  }

  /** A Put that may store runs to its end without help from any other. */
  lemma Finish(codec: Codec, requests: set<Request>, trace: Trace, t: nat, chunks: seq<Bytes>) returns (next: Trace)
    requires Proper(codec, requests, trace) && Located(Last(trace)) && t in Last(trace).puts && t in Last(trace).asks
    requires Last(trace).puts[t] == EMPTY && Last(trace).asks[t].guard.Clear?
    requires Concat(chunks) == Last(trace).asks[t].request.Content()
    ensures Proper(codec, requests, next) && Continues(trace, next)
    ensures Filed(codec, Last(trace), Last(next), t, chunks)
  {
    hide Proper, Enabled, Apply, Filed, DigestOf, Continues;
    var stored := StoreAll(codec, requests, trace, t, chunks);
    RecipeWritten(codec, Last(stored), t, chunks);
    var written := GoOn(codec, requests, stored, SetRecipe(t));
    OnlyPutOn(Last(trace), Last(stored), Last(written), t);
    ContinuesOn(trace, stored, written);
    next := Settle(codec, requests, written, t, chunks);
    ContinuesOn(trace, written, next);
    FiledLater(codec, Last(trace), Last(written), Last(next), t, chunks);
  }

  /** A Put begins and, if it is a compound object without a recipe, passes its guard. */
  lemma Open(codec: Codec, requests: set<Request>, trace: Trace, t: nat, request: Request) returns (next: Trace)
    requires Proper(codec, requests, trace) && request in requests && request.Accepted()
    requires t !in Last(trace).puts
    requires request.PutCompound? ==> DigestOf(codec, request) !in Last(trace).disk.recipes
    ensures Proper(codec, requests, next) && trace.states <= next.states
    ensures var s := Last(trace);
            Last(next) == s.(puts := s.puts[t := EMPTY], asks := s.asks[t := Ask(request, Clear)])
    ensures forall k :: |trace.states| <= k < |next.states| ==>
              next.states[k].puts.Keys == Last(trace).puts.Keys + {t}
  {
    hide Proper, DigestOf;
    next := Go(codec, requests, trace, Begin(t, request));
    if request.PutCompound? {
      next := Go(codec, requests, next, Check(t));
      var s := Last(trace);
      assert s.asks[t := Ask(request, Unchecked)][t := Ask(request, Clear)] == s.asks[t := Ask(request, Clear)];
    }
  }

  // -------------------------------------------------------------------------------------------
  // Exactly when
  // -------------------------------------------------------------------------------------------

  /** A run in which a digest reads as one content and later as another. */
  ghost predicate Shows(codec: Codec, trace: Trace, i: nat, digest: string, before: Bytes, after: Bytes) {
    && i < |trace.states| && digest in trace.states[i].objects
    && ReadObject(codec, trace.states[i].disk, digest) == Some(before)
    && ReadObject(codec, Last(trace).disk, digest) == Some(after)
  }

  lemma Read(codec: Codec, requests: set<Request>, trace: Trace, i: nat, digest: string, content: Bytes)
    requires Sound(codec) && Proper(codec, requests, trace) && i < |trace.states|
    requires digest in trace.states[i].objects && Concat(trace.states[i].objects[digest]) == content
    ensures ReadObject(codec, trace.states[i].disk, digest) == Some(content)
  {
    hide IsRun, ReadObject;
    ReadsBack(codec, trace.states, trace.steps, i, digest);
  }

  /**
   Two requests for one digest that overlap: both look before either commits, then both store, cut as
   the chunker cuts them. The digest reads as the first content and afterwards as the second.
   */
  lemma Overwritten(codec: Codec, gear: Gear, requests: set<Request>, q: Request, r: Request)
    returns (trace: Trace, i: nat)
    requires Sound(codec) && q in requests && r in requests && q.Accepted() && r.Accepted()
    requires DigestOf(codec, q) == DigestOf(codec, r)
    ensures Proper(codec, requests, trace) && Shows(codec, trace, i, DigestOf(codec, q), q.Content(), r.Content())
    ensures trace.states[i].objects == map[DigestOf(codec, q) := Chunks(gear, q.Content())]
    ensures Last(trace).objects == map[DigestOf(codec, q) := Chunks(gear, r.Content())]
  {
    hide IsRun, Serves, ReadObject, Enabled, Apply, DigestOf, Chunks;
    ChunksConcat(gear, q.Content());
    ChunksConcat(gear, r.Content());
    Start(codec, requests);
    trace := Open(codec, requests, Trace([INIT], []), 0, q);
    trace := Open(codec, requests, trace, 1, r);
    trace := Finish(codec, requests, trace, 0, Chunks(gear, q.Content()));
    i := |trace.states| - 1;
    Read(codec, requests, trace, i, DigestOf(codec, q), q.Content());
    var first := trace;
    trace := Finish(codec, requests, trace, 1, Chunks(gear, r.Content()));
    assert trace.states[i] == first.states[i];
    Read(codec, requests, trace, |trace.states| - 1, DigestOf(codec, q), r.Content());
  }

  ghost predicate AlwaysKept(codec: Codec, requests: set<Request>, digest: string) {
    forall run, steps :: IsRun(codec, run, steps) && Serves(steps, requests) ==> Keeps(codec, run, digest)
  }

  lemma NotKept(codec: Codec, trace: Trace, i: nat, digest: string, before: Bytes, after: Bytes)
    requires Shows(codec, trace, i, digest, before, after) && before != after
    ensures !Keeps(codec, trace.states, digest)
  {
    hide ReadObject;
    var j := |trace.states| - 1;
    assert ReadObject(codec, trace.states[j].disk, digest) != ReadObject(codec, trace.states[i].disk, digest);
  }

  /**
   A digest keeps its content in every run that serves these requests, however they overlap, if and
   only if all of them that store under the digest offer the same content.
   */
  lemma DigestKeptExactly(codec: Codec, gear: Gear, requests: set<Request>, digest: string)
    requires Sound(codec) && forall r :: r in requests ==> r.Accepted()
    ensures AlwaysKept(codec, requests, digest) <==> Agreed(codec, requests, digest)
  {
    hide IsRun, Serves, Keeps, Shows;
    if Agreed(codec, requests, digest) {
      forall run, steps | IsRun(codec, run, steps) && Serves(steps, requests) ensures Keeps(codec, run, digest) {
        AgreedKeeps(codec, requests, run, steps, digest);
      }
    } else {
      var q, r :| q in requests && r in requests && DigestOf(codec, q) == digest && DigestOf(codec, r) == digest &&
                  q.Content() != r.Content();
      var trace, i := Overwritten(codec, gear, requests, q, r);
      NotKept(codec, trace, i, digest, q.Content(), r.Content());
      assert IsRun(codec, trace.states, trace.steps) && Serves(trace.steps, requests);
    }
  }

  /**
   The inputs that break it: two envelopes for one object id, and a file that spells the prefix and
   the id of a compound object.
   */
  lemma NotAgreed(codec: Codec, id: Bytes, e: Bytes, e': Bytes)
    requires e != e'
    ensures var q, r := PutCompound(id, e), PutCompound(id, e'); !Agreed(codec, {q, r}, DigestOf(codec, q))
    ensures COMPOUND + id != e ==>
              var q, r := PutCompound(id, e), PutFile(COMPOUND + id); !Agreed(codec, {q, r}, DigestOf(codec, q))
  {
    var q, r, f := PutCompound(id, e), PutCompound(id, e'), PutFile(COMPOUND + id);
    assert q in {q, r} && r in {q, r};
    assert q in {q, f} && f in {q, f};
    assert q.Content() != r.Content();
    assert DigestOf(codec, q) == DigestOf(codec, r) == DigestOf(codec, f);
  }

  // -------------------------------------------------------------------------------------------
  // One Put at a time
  // -------------------------------------------------------------------------------------------

  ghost predicate Single(s: State) {
    forall t, u :: t in s.puts && u in s.puts ==> t == u
  }

  /** Every caller waits for the one before. */
  ghost predicate InTurn(run: seq<State>) {
    forall i :: 0 <= i < |run| ==> Single(run[i])
  }

  /** What a Put buffers is its own request; a compound object that passed its guard is still unfiled. */
  ghost predicate OwnOnly(codec: Codec, s: State, t: nat)
    requires t in s.puts
  {
    && t in s.asks
    && (forall d :: d in s.puts[t].objects ==>
          && d == DigestOf(codec, s.asks[t].request) && s.asks[t].guard.Clear?
          && Concat(s.puts[t].objects[d]) == s.asks[t].request.Content())
    && (s.asks[t].request.PutCompound? && s.asks[t].guard.Clear? ==> DigestOf(codec, s.asks[t].request) !in s.objects)
  }

  ghost predicate AllOwn(codec: Codec, s: State) {
    && s.objects.Keys == s.disk.recipes.Keys
    && forall t :: t in s.puts ==> OwnOnly(codec, s, t)
  }

  lemma OwnStep(codec: Codec, s: State, step: Step)
    requires AllOwn(codec, s) && Single(s) && Enabled(codec, s, step) && Inv(codec, Apply(codec, s, step))
    ensures AllOwn(codec, Apply(codec, s, step))
  {
    hide DigestOf;
    var s' := Apply(codec, s, step);
    forall t | t in s'.puts ensures OwnOnly(codec, s', t) {
      assert t in s.puts ==> OwnOnly(codec, s, t);
    }
  }

  lemma {:induction false} RunOwn(codec: Codec, run: seq<State>, steps: seq<Step>, i: nat)
    requires Sound(codec) && IsRun(codec, run, steps) && InTurn(run) && i < |run|
    ensures AllOwn(codec, run[i])
    decreases i
  {
    if i > 0 {
      RunOwn(codec, run, steps, i - 1);
      RunSafe(codec, run, steps, i);
      OwnStep(codec, run[i - 1], steps[i - 1]);
    }
  }

  /** No file of `requests` takes the digest of a compound object with another content. */
  ghost predicate Apart(codec: Codec, requests: set<Request>, digest: string) {
    forall q, r :: q in requests && r in requests && q.PutCompound? && r.PutFile? ==>
      (DigestOf(codec, q) == digest && DigestOf(codec, r) == digest ==> q.Content() == r.Content())
  }

  /** The guard at work: in turn, only a file can be committed under a digest that is taken. */
  lemma ApartKept(codec: Codec, requests: set<Request>, s: State, step: Step, digest: string)
    requires Sound(codec) && Backed(codec, requests, s) && AllOwn(codec, s) && Enabled(codec, s, step)
    requires Apart(codec, requests, digest)
    ensures !Replaces(s, step, digest)
  {
    if step.Commit? && digest in s.puts[step.t].objects && digest in s.objects {
      var r := s.asks[step.t].request;
      assert OwnOnly(codec, s, step.t);
      assert r.PutFile? && r in requests;
      assert Offered(codec, requests, digest, Concat(s.objects[digest]));
      var q :| q in requests && DigestOf(codec, q) == digest && q.Content() == Concat(s.objects[digest]);
      assert q.Content() == r.Content();
    }
  }

  lemma ApartKeeps(codec: Codec, requests: set<Request>, run: seq<State>, steps: seq<Step>, digest: string)
    requires Sound(codec) && IsRun(codec, run, steps) && Serves(steps, requests) && InTurn(run)
    requires Apart(codec, requests, digest)
    ensures Keeps(codec, run, digest)
  {
    forall k: nat | k < |steps| ensures !Replaces(run[k], steps[k], digest) {
      RunBacked(codec, requests, run, steps, k);
      RunOwn(codec, run, steps, k);
      ApartKept(codec, requests, run[k], steps[k], digest);
    }
    hide IsRun, ReadObject, Replaces, Apart;
    forall i: nat, j: nat | i <= j < |run| && digest in run[i].objects
      ensures ReadObject(codec, run[j].disk, digest) == ReadObject(codec, run[i].disk, digest)
    {
      assert |run| == |steps| + 1 by { RunLength(codec, run, steps); }
      StaysReadable(codec, run, steps, i, j, digest);
      ReadsBack(codec, run, steps, i, digest);
    }
  }

  lemma RunLength(codec: Codec, run: seq<State>, steps: seq<Step>)
    requires IsRun(codec, run, steps)
    ensures |run| == |steps| + 1
  {
  }

  /** A file stored after a compound object whose prefixed id it spells takes its place. */
  lemma OverwrittenInTurn(codec: Codec, gear: Gear, requests: set<Request>, q: Request, r: Request)
    returns (trace: Trace, i: nat)
    requires Sound(codec) && q in requests && r in requests && q.Accepted() && r.PutFile?
    requires DigestOf(codec, q) == DigestOf(codec, r)
    ensures Proper(codec, requests, trace) && InTurn(trace.states)
    ensures Shows(codec, trace, i, DigestOf(codec, q), q.Content(), r.Content())
  {
    hide IsRun, Serves, ReadObject, Enabled, Apply, DigestOf, Chunks;
    ChunksConcat(gear, q.Content());
    ChunksConcat(gear, r.Content());
    Start(codec, requests);
    var a := Open(codec, requests, Trace([INIT], []), 0, q);
    var b := Finish(codec, requests, a, 0, Chunks(gear, q.Content()));
    var c := Open(codec, requests, b, 0, r);
    trace := Finish(codec, requests, c, 0, Chunks(gear, r.Content()));
    i := |b.states| - 1;
    assert trace.states[i] == b.states[i];
    Read(codec, requests, trace, i, DigestOf(codec, q), q.Content());
    Read(codec, requests, trace, |trace.states| - 1, DigestOf(codec, q), r.Content());
    forall k | 0 <= k < |trace.states| ensures Single(trace.states[k]) {
      assert trace.states[k].puts.Keys <= {0};
    }
  }

  ghost predicate KeptInTurn(codec: Codec, requests: set<Request>, digest: string) {
    forall run, steps :: IsRun(codec, run, steps) && Serves(steps, requests) && InTurn(run) ==>
      Keeps(codec, run, digest)
  }

  /**
   When every caller waits for the one before, a digest keeps its content if and only if no file is
   asked for whose bytes spell the prefixed id of a compound object with another envelope. Compound
   objects of one id no longer harm each other.
   */
  lemma DigestKeptInTurn(codec: Codec, gear: Gear, requests: set<Request>, digest: string)
    requires Sound(codec) && forall r :: r in requests ==> r.Accepted()
    ensures KeptInTurn(codec, requests, digest) <==> Apart(codec, requests, digest)
  {
    hide IsRun, Serves, Keeps, Shows, InTurn;
    if Apart(codec, requests, digest) {
      forall run, steps | IsRun(codec, run, steps) && Serves(steps, requests) && InTurn(run)
        ensures Keeps(codec, run, digest)
      {
        ApartKeeps(codec, requests, run, steps, digest);
      }
    } else {
      var q, r :| q in requests && r in requests && q.PutCompound? && r.PutFile? &&
                  DigestOf(codec, q) == digest && DigestOf(codec, r) == digest && q.Content() != r.Content();
      var trace, i := OverwrittenInTurn(codec, gear, requests, q, r);
      NotKept(codec, trace, i, digest, q.Content(), r.Content());
      assert IsRun(codec, trace.states, trace.steps) && Serves(trace.steps, requests) && InTurn(trace.states);
    }
  }
}
