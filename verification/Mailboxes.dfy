/**
 Mutating the mailbox catalog. A catalog is good when every mailbox is live and filed under its id, every
 chain of parents ends at the top level, and no two siblings have the same name up to case. Every batch of
 creates, updates and destroys keeps that and leaves system mailboxes alone.
 */
module Mailboxes {
  import opened Options

  datatype Mailbox = Mailbox(
    id: string, name: string, parent: string, sortOrder: int, role: string, isSystem: bool, isDestroyed: bool)

  type Catalog = map<string, Mailbox>

  /** Trimming white space, and the case folding that decides when two names are equal. */
  datatype Text = Text(trim: string -> string, fold: string -> string)

  datatype Create = Create(name: string, parent: string, sortOrder: int)

  datatype Patch = Patch(name: Option<string>, parent: Option<string>, sortOrder: Option<int>)

  datatype Reason =
    NotFound | SystemMailbox | Invalid | ParentNotFound | OwnParent | ParentCycle | NameTaken | HasChildren | HasEmail

  // -------------------------------------------------------------------------------------------
  // Forests
  // -------------------------------------------------------------------------------------------

  /** The `n`-th ancestor, as far as there are any; the top level is the empty id. */
  function Up(m: Catalog, x: string, n: nat): string
    decreases n
  {
    if n == 0 || x !in m then x else Up(m, m[x].parent, n - 1)
  }

  /** `a` is `x` or one of its ancestors. */
  ghost predicate Above(m: Catalog, a: string, x: string) {
    exists n: nat :: Up(m, x, n) == a
  }

  /** Following parents from `x` reaches the top level in exactly `n` steps. */
  ghost predicate Depth(m: Catalog, x: string, n: nat)
    decreases n
  {
    if n == 0 then x == "" else x in m && Depth(m, m[x].parent, n - 1)
  }

  ghost predicate Rooted(m: Catalog, x: string) {
    exists n: nat :: Depth(m, x, n)
  }

  /** Parent-closed and acyclic: every chain of parents ends at the top level. */
  ghost predicate Forest(m: Catalog) {
    "" !in m && forall x :: x in m ==> Rooted(m, x)
  }

  lemma {:induction false} DepthUnique(m: Catalog, x: string, n: nat, k: nat)
    requires "" !in m && Depth(m, x, n) && Depth(m, x, k)
    ensures n == k
    decreases n
  {
    if n > 0 && k > 0 {
      DepthUnique(m, m[x].parent, n - 1, k - 1);
    }
  }

  lemma {:induction false} UpDepth(m: Catalog, x: string, n: nat, k: nat)
    requires Depth(m, x, n) && k <= n
    ensures Depth(m, Up(m, x, k), n - k)
    decreases k
  {
    if k > 0 {
      UpDepth(m, m[x].parent, n - 1, k - 1);
    }
  }

  lemma {:induction false} UpBeyond(m: Catalog, x: string, n: nat, k: nat)
    requires "" !in m && Depth(m, x, n) && k >= n
    ensures Up(m, x, k) == ""
    decreases k
  {
    if n > 0 {
      UpBeyond(m, m[x].parent, n - 1, k - 1);
    }
  }

  /** In a forest no mailbox is its own ancestor. */
  lemma Acyclic(m: Catalog, x: string, k: nat)
    requires Forest(m) && x in m && k >= 1
    ensures Up(m, x, k) != x
  {
    assert Rooted(m, x);
    var n: nat :| Depth(m, x, n);
    if k < n {
      UpDepth(m, x, n, k);
      if Up(m, x, k) == x {
        DepthUnique(m, x, n, n - k);
      }
    } else {
      UpBeyond(m, x, n, k);
    }
  }

  /** In a forest every parent is the top level or in the catalog. */
  lemma ParentClosed(m: Catalog, x: string)
    requires Forest(m) && x in m
    ensures m[x].parent == "" || m[x].parent in m
  {
    assert Rooted(m, x);
    var n: nat :| Depth(m, x, n);
    assert Depth(m, m[x].parent, n - 1);
  }

  lemma ParentRooted(m: Catalog, p: string)
    requires Forest(m) && (p == "" || p in m)
    ensures Rooted(m, p)
  {
    if p == "" {
      assert Depth(m, p, 0);
    }
  }

  /** No ancestor comes twice. */
  lemma NeverTwice(m: Catalog, x: string, j: nat, k: nat)
    requires "" !in m && Rooted(m, x) && j < k && Up(m, x, j) == Up(m, x, k)
    ensures Up(m, x, k) == ""
  {
    var n: nat :| Depth(m, x, n);
    if k < n {
      UpDepth(m, x, n, j);
      UpDepth(m, x, n, k);
      DepthUnique(m, Up(m, x, k), n - j, n - k);
    } else {
      UpBeyond(m, x, n, k);
    }
  }

  /** The chain of `x` does not use the entry of `id`, so changing that entry does not change the chain. */
  lemma {:induction false} DepthElsewhere(m: Catalog, id: string, box: Mailbox, x: string, n: nat)
    requires Depth(m, x, n) && (forall k: nat :: k < n ==> Up(m, x, k) != id)
    ensures Depth(m[id := box], x, n)
    decreases n
  {
    if n > 0 {
      assert Up(m, x, 0) == x;
      forall k: nat | k < n - 1 ensures Up(m, m[x].parent, k) != id {
        assert Up(m, x, k + 1) == Up(m, m[x].parent, k);
      }
      DepthElsewhere(m, id, box, m[x].parent, n - 1);
    }
  }

  /** Re-hanging `id` under a parent it is not above leaves every chain ending at the top. */
  lemma {:induction false} RehungRooted(m: Catalog, id: string, box: Mailbox, x: string, n: nat)
    requires Depth(m, x, n) && Rooted(m[id := box], id)
    ensures Rooted(m[id := box], x)
    decreases n
  {
    if n > 0 && x != id {
      RehungRooted(m, id, box, m[x].parent, n - 1);
      var d: nat :| Depth(m[id := box], m[x].parent, d);
      assert Depth(m[id := box], x, d + 1);
    } else if n == 0 {
      assert Depth(m[id := box], x, 0);
    }
  }

  lemma Rehung(m: Catalog, id: string, box: Mailbox)
    requires Forest(m) && id != "" && (box.parent == "" || box.parent in m) && !Above(m, id, box.parent)
    ensures Forest(m[id := box])
  {
    ParentRooted(m, box.parent);
    var n: nat :| Depth(m, box.parent, n);
    forall k: nat | k < n ensures Up(m, box.parent, k) != id {
      assert !Above(m, id, box.parent);
    }
    DepthElsewhere(m, id, box, box.parent, n);
    assert Depth(m[id := box], id, n + 1);
    forall x | x in m ensures Rooted(m[id := box], x) {
      assert Rooted(m, x);
      var d: nat :| Depth(m, x, d);
      RehungRooted(m, id, box, x, d);
    }
  }

  /** Re-hanging `id` under something below it makes a loop. */
  lemma {:induction false} LoopsForever(m: Catalog, id: string, box: Mailbox, x: string, k: nat)
    requires Up(m, x, k) == id && id != "" && (forall j: nat :: j < k ==> Up(m, x, j) != id)
    ensures Up(m[id := box], x, k) == id
    decreases k
  {
    if k > 0 {
      assert Up(m, x, 0) == x;
      assert x in m;
      forall j: nat | j < k - 1 ensures Up(m, m[x].parent, j) != id {
        assert Up(m, x, j + 1) == Up(m, m[x].parent, j);
      }
      LoopsForever(m, id, box, m[x].parent, k - 1);
    }
  }

  lemma RehungBelow(m: Catalog, id: string, box: Mailbox)
    requires id != "" && Above(m, id, box.parent)
    ensures !Forest(m[id := box])
  {
    var k: nat :| Up(m, box.parent, k) == id;
    var first := FirstUp(m, box.parent, id, k);
    LoopsForever(m, id, box, box.parent, first);
    var m' := m[id := box];
    assert Up(m', id, first + 1) == id;
    if Forest(m') {
      Acyclic(m', id, first + 1);
    }
  }

  lemma {:induction false} FirstUp(m: Catalog, x: string, id: string, k: nat) returns (first: nat)
    requires Up(m, x, k) == id
    ensures Up(m, x, first) == id && forall j: nat :: j < first ==> Up(m, x, j) != id
    decreases k
  {
    if j: nat :| j < k && Up(m, x, j) == id {
      first := FirstUp(m, x, id, j);
    } else {
      first := k;
    }
  }

  /** Hanging `id` under its new parent keeps the forest exactly when `id` is not above that parent. */
  lemma RehungExactly(m: Catalog, id: string, box: Mailbox)
    requires Forest(m) && id != "" && (box.parent == "" || box.parent in m)
    ensures Forest(m[id := box]) <==> !Above(m, id, box.parent)
  {
    if Above(m, id, box.parent) {
      RehungBelow(m, id, box);
    } else {
      Rehung(m, id, box);
    }
  }

  /** A live forest, and a mailbox with an id and a parent that exists. */
  ghost predicate Placeable(m: Catalog, box: Mailbox) {
    && Forest(m) && (forall x :: x in m ==> !m[x].isDestroyed)
    && box.id != "" && (box.parent == "" || box.parent in m)
  }

  /**
   Walks up from the new parent, remembering what it saw. It ends on every catalog, and on a forest it
   answers true exactly when the mailbox would become its own ancestor.
   */
  method HasParentCycle(m: Catalog, box: Mailbox) returns (cycle: bool)
    ensures Placeable(m, box) ==> (cycle <==> !Forest(m[box.id := box]))
  {
    hide Forest, Up;
    UpStart(m, box.parent);
    var seen := {box.id};
    var parentID := box.parent;
    ghost var k: nat := 0;
    while parentID != ""
      invariant parentID == Up(m, box.parent, k)
      invariant forall x :: x in seen <==> x == box.id || exists j: nat :: j < k && Up(m, box.parent, j) == x
      invariant forall j: nat :: j < k ==> Up(m, box.parent, j) != box.id && Up(m, box.parent, j) != ""
      decreases m.Keys - seen
    {
      if parentID in seen {
        WalkHit(m, box, k);
        return true;
      }
      seen := seen + {parentID};
      if parentID !in m || m[parentID].isDestroyed {
        WalkLost(m, box, k);
        return false;
      }
      UpNext(m, box.parent, k);
      parentID := m[parentID].parent;
      k := k + 1;
    }
    WalkEnds(m, box, k);
    return false;
  }

  lemma UpStart(m: Catalog, x: string)
    ensures Up(m, x, 0) == x
  {
  }

  lemma {:induction false} UpNext(m: Catalog, x: string, k: nat)
    ensures Up(m, x, k + 1) == if Up(m, x, k) in m then m[Up(m, x, k)].parent else Up(m, x, k)
    decreases k
  {
    if k > 0 && x in m {
      UpNext(m, m[x].parent, k - 1);
    }
  }

  lemma {:induction false} UpStays(m: Catalog, x: string, k: nat, n: nat)
    requires Up(m, x, k) !in m && k < n
    ensures Up(m, x, n) == Up(m, x, k)
    decreases n
  {
    UpNext(m, x, n - 1);
    if k < n - 1 {
      UpStays(m, x, k, n - 1);
    }
  }

  lemma WalkHit(m: Catalog, box: Mailbox, k: nat)
    requires Up(m, box.parent, k) != "" &&
             (Up(m, box.parent, k) == box.id || exists j: nat :: j < k && Up(m, box.parent, j) == Up(m, box.parent, k))
    ensures Forest(m) && box.id != "" && (box.parent == "" || box.parent in m) ==> !Forest(m[box.id := box])
  {
    if Forest(m) && box.id != "" && (box.parent == "" || box.parent in m) {
      ParentRooted(m, box.parent);
      if Up(m, box.parent, k) == box.id {
        RehungBelow(m, box.id, box);
      } else {
        var j: nat :| j < k && Up(m, box.parent, j) == Up(m, box.parent, k);
        NeverTwice(m, box.parent, j, k);
      }
    }
  }

  lemma WalkEnds(m: Catalog, box: Mailbox, k: nat)
    requires Up(m, box.parent, k) == "" || (Up(m, box.parent, k) !in m && Up(m, box.parent, k) != box.id)
    requires forall j: nat :: j < k ==> Up(m, box.parent, j) != box.id
    ensures Forest(m) && box.id != "" && (box.parent == "" || box.parent in m) ==> Forest(m[box.id := box])
  {
    if Forest(m) && box.id != "" && (box.parent == "" || box.parent in m) {
      if Above(m, box.id, box.parent) {
        var n: nat :| Up(m, box.parent, n) == box.id;
        if n > k {
          UpStays(m, box.parent, k, n);
        }
      }
      Rehung(m, box.id, box);
    }
  }

  lemma WalkLost(m: Catalog, box: Mailbox, k: nat)
    requires Up(m, box.parent, k) != "" && Up(m, box.parent, k) != box.id
    requires Up(m, box.parent, k) !in m || m[Up(m, box.parent, k)].isDestroyed
    requires forall j: nat :: j < k ==> Up(m, box.parent, j) != box.id
    ensures Placeable(m, box) ==> Forest(m[box.id := box])
  {
    if Up(m, box.parent, k) !in m {
      WalkEnds(m, box, k);
    }
  }

  // -------------------------------------------------------------------------------------------
  // Good catalogs
  // -------------------------------------------------------------------------------------------

  ghost predicate Filed(m: Catalog) {
    forall x :: x in m ==> m[x].id == x && !m[x].isDestroyed
  }

  /** Siblings have different names, up to case. */
  ghost predicate Named(t: Text, m: Catalog) {
    forall a, b :: a in m && b in m && a != b && m[a].parent == m[b].parent ==> t.fold(m[a].name) != t.fold(m[b].name)
  }

  ghost predicate Good(t: Text, m: Catalog) {
    Forest(m) && Filed(m) && Named(t, m)
  }

  predicate ValidBox(t: Text, box: Mailbox) {
    t.trim(box.id) != "" && t.trim(box.name) != "" && box.role == "" && !box.isSystem
  }

  predicate ParentThere(m: Catalog, parent: string) {
    parent == "" || (parent in m && !m[parent].isDestroyed)
  }

  ghost predicate NameFree(t: Text, m: Catalog, box: Mailbox) {
    forall x :: x in m && m[x].id != box.id && !m[x].isDestroyed && m[x].parent == box.parent ==>
      t.fold(m[x].name) != t.fold(box.name)
  }

  method NameAvailable(t: Text, m: Catalog, box: Mailbox) returns (free: bool)
    ensures free <==> NameFree(t, m, box)
  {
    var todo := m.Keys;
    while todo != {}
      invariant todo <= m.Keys
      invariant forall x :: x in m && x !in todo && m[x].id != box.id && !m[x].isDestroyed ==>
                              m[x].parent != box.parent || t.fold(m[x].name) != t.fold(box.name)
      decreases todo
    {
      var x :| x in todo;
      todo := todo - {x};
      if m[x].id == box.id || m[x].isDestroyed {
        continue;
      }
      if m[x].parent == box.parent && t.fold(m[x].name) == t.fold(box.name) {
        return false;
      }
    }
    return true;
  }

  ghost predicate Childless(m: Catalog, id: string) {
    forall x :: x in m && !m[x].isDestroyed ==> m[x].parent != id
  }

  method HasChild(m: Catalog, id: string) returns (found: bool)
    ensures found <==> !Childless(m, id)
  {
    var todo := m.Keys;
    while todo != {}
      invariant todo <= m.Keys && forall x :: x in m && x !in todo && !m[x].isDestroyed ==> m[x].parent != id
      decreases todo
    {
      var x :| x in todo;
      todo := todo - {x};
      if !m[x].isDestroyed && m[x].parent == id {
        return true;
      }
    }
    return false;
  }

  /** Filing a mailbox keeps a good catalog good when the forest and the name allow it. */
  lemma FiledGood(t: Text, m: Catalog, box: Mailbox)
    requires Good(t, m) && Forest(m[box.id := box]) && !box.isDestroyed && NameFree(t, m, box)
    ensures Good(t, m[box.id := box])
  {
    hide Forest;
  }

  /** A new id is above nobody. */
  lemma {:induction false} FreshNotAbove(m: Catalog, id: string, x: string, n: nat)
    requires "" !in m && Depth(m, x, n) && id !in m && id != ""
    ensures forall k: nat :: Up(m, x, k) != id
    decreases n
  {
    if n > 0 {
      FreshNotAbove(m, id, m[x].parent, n - 1);
      forall k: nat ensures Up(m, x, k) != id {
        if k > 0 {
          assert Up(m, x, k) == Up(m, m[x].parent, k - 1);
        }
      }
    }
  }

  lemma CreatedGood(t: Text, m: Catalog, box: Mailbox)
    requires Good(t, m) && box.id !in m && box.id != "" && !box.isDestroyed
    requires ParentThere(m, box.parent) && NameFree(t, m, box)
    ensures Good(t, m[box.id := box])
  {
    hide Filed, Named, NameFree;
    ParentRooted(m, box.parent);
    var n: nat :| Depth(m, box.parent, n);
    if n > 0 || box.parent == "" {
      FreshNotAbove(m, box.id, box.parent, n);
    }
    Rehung(m, box.id, box);
    FiledGood(t, m, box);
  }

  lemma {:induction false} RemovedDepth(m: Catalog, id: string, x: string, n: nat)
    requires Depth(m, x, n) && x != id && (forall y :: y in m ==> m[y].parent != id)
    ensures Depth(m - {id}, x, n)
    decreases n
  {
    if n > 0 {
      RemovedDepth(m, id, m[x].parent, n - 1);
    }
  }

  lemma DestroyedGood(t: Text, m: Catalog, id: string)
    requires Good(t, m) && id in m && Childless(m, id)
    ensures Good(t, m - {id})
  {
    forall x | x in m - {id} ensures Rooted(m - {id}, x) {
      assert Rooted(m, x);
      var n: nat :| Depth(m, x, n);
      RemovedDepth(m, id, x, n);
    }
  }

  // -------------------------------------------------------------------------------------------
  // The batch
  // -------------------------------------------------------------------------------------------

  /** Nothing was changed or dropped. */
  ghost predicate Within(m: Catalog, m': Catalog) {
    forall x :: x in m ==> x in m' && m'[x] == m[x]
  }

  /** System mailboxes are as they were. */
  ghost predicate SystemKept(m: Catalog, m': Catalog) {
    forall x :: x in m && m[x].isSystem ==> x in m' && m'[x] == m[x]
  }

  /** The ids a batch will draw are new and told apart. */
  ghost predicate FreshIds(t: Text, m: Catalog, creates: map<string, Create>, ids: string -> string) {
    && (forall c :: c in creates ==> ids(c) !in m && t.trim(ids(c)) != "" && ids(c) != "")
    && (forall c, d :: c in creates && d in creates && c != d ==> ids(c) != ids(d))
  }

  function NewMailbox(t: Text, create: Create, id: string): Mailbox {
    Mailbox(id, t.trim(create.name), t.trim(create.parent), create.sortOrder, "", false, false)
  }

  ghost function IdsOf(cs: set<string>, ids: string -> string): set<string> { set c | c in cs :: ids(c) }

  /** Which mailboxes were created, each as asked for under its own new id, and nothing else changed. */
  ghost predicate CreatedAs(t: Text, m: Catalog, m': Catalog, creates: map<string, Create>, ids: string -> string,
                            created: map<string, Mailbox>) {
    && Within(m, m')
    && (forall c :: c in created ==>
          && c in creates && created[c] == NewMailbox(t, creates[c], ids(c))
          && ids(c) in m' && m'[ids(c)] == created[c])
    && m'.Keys == m.Keys + IdsOf(created.Keys, ids)
  }

  /** A create goes through exactly when its mailbox is valid, its parent is there and its name is free. */
  ghost predicate Creatable(t: Text, m: Catalog, create: Create, id: string) {
    var box := NewMailbox(t, create, id);
    ValidBox(t, box) && ParentThere(m, t.trim(create.parent)) && NameFree(t, m, box)
  }

  /** The catalog after some creates, each decided at its turn. */
  ghost function CreateTurns(t: Text, m: Catalog, creates: map<string, Create>, ids: string -> string,
                             order: seq<string>): Catalog
    requires forall c :: c in order ==> c in creates
  {
    if order == [] then m
    else
      var c, before := order[|order| - 1], CreateTurns(t, m, creates, ids, order[..|order| - 1]);
      if Creatable(t, before, creates[c], ids(c)) then before[ids(c) := NewMailbox(t, creates[c], ids(c))] else before
  }

  ghost predicate CreateDecided(t: Text, m: Catalog, creates: map<string, Create>, ids: string -> string,
                                order: seq<string>, i: nat, done: set<string>)
    requires i < |order| && forall c :: c in order ==> c in creates
  {
    order[i] in done <==>
      Creatable(t, CreateTurns(t, m, creates, ids, order[..i]), creates[order[i]], ids(order[i]))
  }

  /** The creates of `order`, once each, with exactly those done that could be at their turn. */
  ghost predicate CreateCourse(t: Text, m: Catalog, m': Catalog, creates: map<string, Create>, ids: string -> string,
                               order: seq<string>, done: set<string>) {
    && NoRepeats(order) && (forall c :: c in order ==> c in creates) && (forall c :: c in done ==> c in order)
    && m' == CreateTurns(t, m, creates, ids, order)
    && forall i :: 0 <= i < |order| ==> CreateDecided(t, m, creates, ids, order, i, done)
  }

  /** In some order, every create was decided by the catalog it met. */
  ghost predicate CreatedInTurn(t: Text, m: Catalog, m': Catalog, creates: map<string, Create>, ids: string -> string,
                                done: set<string>) {
    exists order :: (forall c :: c in creates ==> c in order) && CreateCourse(t, m, m', creates, ids, order, done)
  }

  lemma CreateMore(t: Text, m: Catalog, m': Catalog, creates: map<string, Create>, ids: string -> string,
                   order: seq<string>, done: set<string>, c: string)
    requires CreateCourse(t, m, m', creates, ids, order, done) && c in creates && c !in order
    ensures if Creatable(t, m', creates[c], ids(c))
            then var next := m'[ids(c) := NewMailbox(t, creates[c], ids(c))];
                 CreateCourse(t, m, next, creates, ids, order + [c], done + {c})
            else CreateCourse(t, m, m', creates, ids, order + [c], done)
  {
    hide Creatable, NewMailbox, CreateTurns, CreateDecided;
    var longer, more := order + [c], if Creatable(t, m', creates[c], ids(c)) then done + {c} else done;
    Once(order, c);
    CreateLast(t, m, creates, ids, order, c, more);
    forall i | 0 <= i < |order| ensures CreateDecided(t, m, creates, ids, longer, i, more) {
      CreateEarlier(t, m, creates, ids, order, c, i, done, more);
    }
  }

  lemma Once(order: seq<string>, c: string)
    requires NoRepeats(order) && c !in order
    ensures NoRepeats(order + [c]) && forall x :: x in order + [c] <==> x in order || x == c
  {
  }

  lemma CreateLast(t: Text, m: Catalog, creates: map<string, Create>, ids: string -> string, order: seq<string>,
                   c: string, done: set<string>)
    requires (forall x :: x in order ==> x in creates) && c in creates && c !in order
    requires var before := CreateTurns(t, m, creates, ids, order);
             c in done <==> Creatable(t, before, creates[c], ids(c))
    ensures var before := CreateTurns(t, m, creates, ids, order);
            && CreateTurns(t, m, creates, ids, order + [c]) ==
               (if Creatable(t, before, creates[c], ids(c)) then before[ids(c) := NewMailbox(t, creates[c], ids(c))]
                else before)
            && CreateDecided(t, m, creates, ids, order + [c], |order|, done)
  {
    hide Creatable, NewMailbox;
    assert (order + [c])[..|order|] == order;
  }

  lemma CreateEarlier(t: Text, m: Catalog, creates: map<string, Create>, ids: string -> string, order: seq<string>,
                      c: string, i: nat, done: set<string>, more: set<string>)
    requires (forall x :: x in order ==> x in creates) && c in creates && c !in order && i < |order|
    requires CreateDecided(t, m, creates, ids, order, i, done) && done <= more <= done + {c}
    ensures CreateDecided(t, m, creates, ids, order + [c], i, more)
  {
    hide Creatable, CreateTurns;
    assert (order + [c])[..i] == order[..i] && order[i] in order;
  }

  predicate NoRepeats(ids: seq<string>) {
    forall i, j :: 0 <= i < j < |ids| ==> ids[i] != ids[j]
  }

  method CreateOne(t: Text, m: Catalog, create: Create, id: string) returns (m': Catalog, refused: Option<Reason>)
    requires Good(t, m) && id !in m && id != ""
    ensures Good(t, m')
    ensures refused.None? ==> m' == m[id := NewMailbox(t, create, id)]
    ensures refused.Some? ==> m' == m
    ensures refused.None? <==> Creatable(t, m, create, id)
  {
    hide Forest, Filed, Named, NameFree;
    var box := NewMailbox(t, create, id);
    if !ValidBox(t, box) {
      return m, Some(Invalid);
    }
    if !ParentThere(m, box.parent) {
      return m, Some(ParentNotFound);
    }
    var free := NameAvailable(t, m, box);
    if !free {
      return m, Some(NameTaken);
    }
    CreatedGood(t, m, box);
    return m[id := box], None;
  }

  lemma CreatedNone(t: Text, m: Catalog, creates: map<string, Create>, ids: string -> string)
    ensures CreatedAs(t, m, m, creates, ids, map[]) && CreateCourse(t, m, m, creates, ids, [], {})
  {
  }

  lemma CreatedMore(t: Text, m: Catalog, m': Catalog, creates: map<string, Create>, ids: string -> string,
                    created: map<string, Mailbox>, c: string)
    requires CreatedAs(t, m, m', creates, ids, created) && c in creates && c !in created && ids(c) !in m'
    ensures var box := NewMailbox(t, creates[c], ids(c));
            CreatedAs(t, m, m'[ids(c) := box], creates, ids, created[c := box])
  {
    hide NewMailbox;
    var box := NewMailbox(t, creates[c], ids(c));
    assert created[c := box].Keys == created.Keys + {c};
    IdsOfMore(created.Keys, ids, c);
    assert m'[ids(c) := box].Keys == m'.Keys + {ids(c)};
  }

  lemma StillFresh(t: Text, m: Catalog, m': Catalog, creates: map<string, Create>, ids: string -> string,
                   created: map<string, Mailbox>, c: string)
    requires FreshIds(t, m, creates, ids) && CreatedAs(t, m, m', creates, ids, created) && c in creates && c !in created
    ensures ids(c) !in m' && ids(c) != ""
  {
    hide NewMailbox;
  }

  lemma IdsOfMore(cs: set<string>, ids: string -> string, c: string)
    ensures IdsOf(cs + {c}, ids) == IdsOf(cs, ids) + {ids(c)}
  {
  }

  method CreateAll(t: Text, m: Catalog, creates: map<string, Create>, ids: string -> string)
    returns (m': Catalog, created: map<string, Mailbox>, refused: map<string, Reason>)
    requires Good(t, m) && FreshIds(t, m, creates, ids)
    ensures Good(t, m') && CreatedAs(t, m, m', creates, ids, created)
    ensures CreatedInTurn(t, m, m', creates, ids, created.Keys)
    ensures created.Keys !! refused.Keys && created.Keys + refused.Keys == creates.Keys
  {
    hide Good, CreatedAs, FreshIds, CreateCourse, Creatable;
    m', created, refused := m, map[], map[];
    CreatedNone(t, m, creates, ids);
    var todo := creates.Keys;
    ghost var order: seq<string> := [];
    assert created.Keys == {};
    while todo != {}
      invariant todo <= creates.Keys && Good(t, m')
      invariant created.Keys !! refused.Keys && created.Keys + refused.Keys == creates.Keys - todo
      invariant CreatedAs(t, m, m', creates, ids, created)
      invariant CreateCourse(t, m, m', creates, ids, order, created.Keys)
      invariant forall c :: c in order <==> c in creates.Keys - todo
      decreases todo
    {
      var c :| c in todo;
      StillFresh(t, m, m', creates, ids, created, c);
      CreatedMore(t, m, m', creates, ids, created, c);
      CreateMore(t, m, m', creates, ids, order, created.Keys, c);
      order := order + [c];
      var next, no := CreateOne(t, m', creates[c], ids(c));
      assert no.None? ==> created[c := next[ids(c)]].Keys == created.Keys + {c};
      if no.Some? {
        refused := refused[c := no.value];
      } else {
        created := created[c := next[ids(c)]];
      }
      m' := next;
      todo := todo - {c};
    }
  }

  function Patched(t: Text, box: Mailbox, patch: Patch): Mailbox {
    box.(name := if patch.name.Some? then t.trim(patch.name.value) else box.name,
         parent := if patch.parent.Some? then t.trim(patch.parent.value) else box.parent,
         sortOrder := if patch.sortOrder.Some? then patch.sortOrder.value else box.sortOrder)
  }

  /** A patch goes through exactly when the result is a valid custom mailbox that keeps the catalog good. */
  ghost predicate Patchable(t: Text, m: Catalog, id: string, patch: Patch) {
    && id in m && !m[id].isSystem
    && var box := Patched(t, m[id], patch);
       ValidBox(t, box) && ParentThere(m, box.parent) && Forest(m[id := box]) && NameFree(t, m, box)
  }

  method UpdateOne(t: Text, m: Catalog, id: string, patch: Patch) returns (m': Catalog, refused: Option<Reason>)
    requires Good(t, m)
    ensures Good(t, m')
    ensures refused.None? <==> Patchable(t, m, id, patch)
    ensures m' == if refused.None? then m[id := Patched(t, m[id], patch)] else m
  {
    hide Forest, Named, NameFree;
    if id !in m || m[id].isDestroyed {
      return m, Some(NotFound);
    }
    if m[id].isSystem {
      return m, Some(SystemMailbox);
    }
    var box := Patched(t, m[id], patch);
    if !ValidBox(t, box) {
      return m, Some(Invalid);
    }
    if !ParentThere(m, box.parent) {
      return m, Some(ParentNotFound);
    }
    TopUnfiled(m);
    if box.parent == box.id {
      UpStart(m, box.parent);
      RehungBelow(m, id, box);
      return m, Some(OwnParent);
    }
    var cycle := HasParentCycle(m, box);
    if cycle {
      return m, Some(ParentCycle);
    }
    var free := NameAvailable(t, m, box);
    if !free {
      return m, Some(NameTaken);
    }
    FiledGood(t, m, box);
    return m[id := box], None;
  }

  lemma TopUnfiled(m: Catalog)
    requires Forest(m)
    ensures "" !in m
  {
  }

  /** The updated mailboxes are patched, all others are as they were. */
  ghost predicate UpdatedAs(t: Text, m: Catalog, m': Catalog, updates: map<string, Patch>, updated: set<string>) {
    && m'.Keys == m.Keys && updated <= m.Keys && updated <= updates.Keys
    && forall x :: x in m && x in m' ==>
                     if x in updated && x in updates then m'[x] == Patched(t, m[x], updates[x]) && !m[x].isSystem
                     else m'[x] == m[x]
  }

  /** The catalog after some patches, each decided at its turn. */
  ghost function UpdateTurns(t: Text, m: Catalog, updates: map<string, Patch>, order: seq<string>): Catalog
    requires forall c :: c in order ==> c in updates
  {
    if order == [] then m
    else
      var id, before := order[|order| - 1], UpdateTurns(t, m, updates, order[..|order| - 1]);
      if Patchable(t, before, id, updates[id]) then before[id := Patched(t, before[id], updates[id])] else before
  }

  ghost predicate UpdateDecided(t: Text, m: Catalog, updates: map<string, Patch>, order: seq<string>, i: nat,
                                done: set<string>)
    requires i < |order| && forall c :: c in order ==> c in updates
  {
    order[i] in done <==> Patchable(t, UpdateTurns(t, m, updates, order[..i]), order[i], updates[order[i]])
  }

  ghost predicate UpdateCourse(t: Text, m: Catalog, m': Catalog, updates: map<string, Patch>, order: seq<string>,
                               done: set<string>) {
    && NoRepeats(order) && (forall c :: c in order ==> c in updates) && (forall c :: c in done ==> c in order)
    && m' == UpdateTurns(t, m, updates, order)
    && forall i :: 0 <= i < |order| ==> UpdateDecided(t, m, updates, order, i, done)
  }

  /** In some order, every patch was decided by the catalog it met. */
  ghost predicate UpdatedInTurn(t: Text, m: Catalog, m': Catalog, updates: map<string, Patch>, done: set<string>) {
    exists order :: (forall c :: c in updates ==> c in order) && UpdateCourse(t, m, m', updates, order, done)
  }

  lemma UpdateMore(t: Text, m: Catalog, m': Catalog, updates: map<string, Patch>, order: seq<string>, done: set<string>,
                   id: string)
    requires UpdateCourse(t, m, m', updates, order, done) && id in updates && id !in order
    ensures if Patchable(t, m', id, updates[id])
            then id in m' &&
                 UpdateCourse(t, m, m'[id := Patched(t, m'[id], updates[id])], updates, order + [id], done + {id})
            else UpdateCourse(t, m, m', updates, order + [id], done)
  {
    hide Patched, UpdateTurns, UpdateDecided, Patchable;
    var longer, more := order + [id], if Patchable(t, m', id, updates[id]) then done + {id} else done;
    Once(order, id);
    UpdateLast(t, m, updates, order, id, more);
    forall i | 0 <= i < |order| ensures UpdateDecided(t, m, updates, longer, i, more) {
      UpdateEarlier(t, m, updates, order, id, i, done, more);
    }
  }

  lemma UpdateLast(t: Text, m: Catalog, updates: map<string, Patch>, order: seq<string>, id: string, done: set<string>)
    requires (forall x :: x in order ==> x in updates) && id in updates && id !in order
    requires id in done <==> Patchable(t, UpdateTurns(t, m, updates, order), id, updates[id])
    ensures var before := UpdateTurns(t, m, updates, order);
            && (Patchable(t, before, id, updates[id]) ==> id in before)
            && UpdateTurns(t, m, updates, order + [id]) ==
               (if Patchable(t, before, id, updates[id]) then before[id := Patched(t, before[id], updates[id])]
                else before)
            && UpdateDecided(t, m, updates, order + [id], |order|, done)
  {
    hide Patched, Forest, NameFree, ValidBox;
    assert (order + [id])[..|order|] == order;
  }

  lemma UpdateEarlier(t: Text, m: Catalog, updates: map<string, Patch>, order: seq<string>, id: string, i: nat,
                      done: set<string>, more: set<string>)
    requires (forall x :: x in order ==> x in updates) && id in updates && id !in order && i < |order|
    requires UpdateDecided(t, m, updates, order, i, done) && done <= more <= done + {id}
    ensures UpdateDecided(t, m, updates, order + [id], i, more)
  {
    hide Patchable, UpdateTurns;
    assert (order + [id])[..i] == order[..i] && order[i] in order;
  }

  method UpdateAll(t: Text, m: Catalog, updates: map<string, Patch>)
    returns (m': Catalog, updated: set<string>, refused: map<string, Reason>)
    requires Good(t, m)
    ensures Good(t, m') && UpdatedAs(t, m, m', updates, updated) && UpdatedInTurn(t, m, m', updates, updated)
    ensures updated !! refused.Keys && updated + refused.Keys == updates.Keys
  {
    hide Good, Patched, Patchable, UpdatedAs, UpdateCourse;
    m', updated, refused := m, {}, map[];
    UpdatedNone(t, m, updates);
    var todo := updates.Keys;
    ghost var order: seq<string> := [];
    while todo != {}
      invariant todo <= updates.Keys && Good(t, m')
      invariant UpdateCourse(t, m, m', updates, order, updated) && forall c :: c in order <==> c in updates.Keys - todo
      invariant updated !! refused.Keys && updated + refused.Keys == updates.Keys - todo
      invariant UpdatedAs(t, m, m', updates, updated)
      decreases todo
    {
      var id :| id in todo;
      UpdateMore(t, m, m', updates, order, updated, id);
      order := order + [id];
      var next, no := UpdateOne(t, m', id, updates[id]);
      if no.Some? {
        refused := refused[id := no.value];
      } else {
        UpdatedMore(t, m, m', updates, updated, id);
        updated := updated + {id};
      }
      m' := next;
      todo := todo - {id};
    }
  }

  lemma UpdatedNone(t: Text, m: Catalog, updates: map<string, Patch>)
    ensures UpdatedAs(t, m, m, updates, {}) && UpdateCourse(t, m, m, updates, [], {})
  {
    hide Patched;
  }

  lemma UpdatedMore(t: Text, m: Catalog, m': Catalog, updates: map<string, Patch>, updated: set<string>, id: string)
    requires UpdatedAs(t, m, m', updates, updated)
    requires id in updates && id !in updated && Patchable(t, m', id, updates[id])
    ensures id in m' && UpdatedAs(t, m, m'[id := Patched(t, m'[id], updates[id])], updates, updated + {id})
  {
    hide Patched, Forest, NameFree;
    assert m'[id] == m[id];
    assert m'[id := Patched(t, m'[id], updates[id])].Keys == m'.Keys;
  }

  /** Every live child of a destroyed mailbox was destroyed before it. */
  ghost predicate ChildrenFirst(m: Catalog, destroyed: seq<string>) {
    forall i, x :: 0 <= i < |destroyed| && x in m && !m[x].isDestroyed && m[x].parent == destroyed[i] ==>
      x in destroyed[..i]
  }

  /** Destroyed mailboxes were custom, empty and by then childless; nothing else is gone or changed. */
  ghost predicate DestroyedAs(m: Catalog, m': Catalog, counts: string -> int, ids: seq<string>,
                              destroyed: seq<string>) {
    && (forall x :: x in m' <==> x in m && x !in destroyed)
    && (forall x :: x in m' && x in m ==> m'[x] == m[x])
    && (forall x :: x in destroyed ==> x in ids && x in m && !m[x].isSystem && counts(x) == 0)
    && ChildrenFirst(m, destroyed)
  }

  lemma DestroyedMore(m: Catalog, m': Catalog, counts: string -> int, ids: seq<string>, destroyed: seq<string>,
                      id: string)
    requires DestroyedAs(m, m', counts, ids, destroyed) && id in ids && id in m' && Childless(m', id)
    requires !m'[id].isSystem && counts(id) == 0
    ensures DestroyedAs(m, m' - {id}, counts, ids, destroyed + [id])
  {
    var more := destroyed + [id];
    forall i, x | 0 <= i < |more| && x in m && !m[x].isDestroyed && m[x].parent == more[i] ensures x in more[..i] {
      if i < |destroyed| {
        assert more[..i] == destroyed[..i];
      } else {
        assert more[..i] == destroyed;
      }
    }
  }

  /** Every id has an outcome, and only one unless it is asked for twice. */
  ghost predicate Answered(ids: seq<string>, destroyed: seq<string>, refused: map<string, Reason>) {
    && (forall x :: x in ids <==> x in destroyed || x in refused)
    && (NoRepeats(ids) ==> forall x :: !(x in destroyed && x in refused))
  }

  lemma AnsweredMore(ids: seq<string>, destroyed: seq<string>, refused: map<string, Reason>, id: string, reason: Reason)
    requires Answered(ids, destroyed, refused)
    ensures Answered(ids + [id], destroyed + [id], refused)
    ensures Answered(ids + [id], destroyed, refused[id := reason])
  {
    var more := ids + [id];
    assert forall x :: x in more <==> x in ids || x == id;
    if NoRepeats(more) {
      assert NoRepeats(ids) by {
        forall i, j | 0 <= i < j < |ids| ensures ids[i] != ids[j] {
          assert more[i] != more[j];
        }
      }
      forall k | 0 <= k < |ids| ensures ids[k] != id {
        assert more[k] != more[|ids|];
      }
    }
  }

  /** A mailbox may go when it is there, custom, childless and empty. */
  ghost predicate Destroyable(m: Catalog, counts: string -> int, id: string) {
    id in m && !m[id].isDestroyed && !m[id].isSystem && Childless(m, id) && counts(id) == 0
  }

  /** The catalog after the first destroys, each decided at its turn. */
  ghost function DestroyTurns(m: Catalog, counts: string -> int, ids: seq<string>): Catalog {
    if ids == [] then m
    else
      var before, id := DestroyTurns(m, counts, ids[..|ids| - 1]), ids[|ids| - 1];
      if Destroyable(before, counts, id) then before - {id} else before
  }

  /** Some turn came to this id, with the given verdict. */
  ghost predicate CameUp(m: Catalog, counts: string -> int, ids: seq<string>, x: string, verdict: bool) {
    exists i :: 0 <= i < |ids| && ids[i] == x && Destroyable(DestroyTurns(m, counts, ids[..i]), counts, x) == verdict
  }

  /** Every destroy was decided by the catalog it met. */
  ghost predicate DestroyedInTurn(m: Catalog, m': Catalog, counts: string -> int, ids: seq<string>,
                                  destroyed: seq<string>, refused: set<string>) {
    && m' == DestroyTurns(m, counts, ids)
    && (forall x :: x in destroyed <==> CameUp(m, counts, ids, x, true))
    && (forall x :: x in refused <==> CameUp(m, counts, ids, x, false))
  }

  lemma CameUpMore(m: Catalog, counts: string -> int, ids: seq<string>, id: string, x: string, verdict: bool)
    ensures CameUp(m, counts, ids + [id], x, verdict) <==>
            || CameUp(m, counts, ids, x, verdict)
            || (x == id && Destroyable(DestroyTurns(m, counts, ids), counts, id) == verdict)
  {
    hide Destroyable, DestroyTurns;
    var longer := ids + [id];
    assert longer[..|ids|] == ids && longer[|ids|] == id;
    if i :| 0 <= i < |ids| && ids[i] == x && Destroyable(DestroyTurns(m, counts, ids[..i]), counts, x) == verdict {
      assert longer[..i] == ids[..i] && longer[i] == x;
    }
    if i :| && 0 <= i < |longer| && longer[i] == x
            && Destroyable(DestroyTurns(m, counts, longer[..i]), counts, x) == verdict
    {
      if i < |ids| {
        assert longer[..i] == ids[..i] && ids[i] == x;
      }
    }
  }

  lemma DestroyMore(m: Catalog, m': Catalog, counts: string -> int, ids: seq<string>, destroyed: seq<string>,
                    refused: set<string>, id: string)
    requires DestroyedInTurn(m, m', counts, ids, destroyed, refused)
    ensures if Destroyable(m', counts, id)
            then DestroyedInTurn(m, m' - {id}, counts, ids + [id], destroyed + [id], refused)
            else DestroyedInTurn(m, m', counts, ids + [id], destroyed, refused + {id})
  {
    hide Destroyable, CameUp;
    assert (ids + [id])[..|ids|] == ids;
    forall x
      ensures CameUp(m, counts, ids + [id], x, true) <==> x in destroyed || (x == id && Destroyable(m', counts, id))
      ensures CameUp(m, counts, ids + [id], x, false) <==> x in refused || (x == id && !Destroyable(m', counts, id))
    {
      CameUpMore(m, counts, ids, id, x, true);
      CameUpMore(m, counts, ids, id, x, false);
    }
  }

  method DestroyAll(t: Text, m: Catalog, ids: seq<string>, counts: string -> int)
    returns (m': Catalog, destroyed: seq<string>, refused: map<string, Reason>)
    requires Good(t, m)
    ensures Good(t, m') && DestroyedAs(m, m', counts, ids, destroyed)
    ensures Answered(ids, destroyed, refused) && DestroyedInTurn(m, m', counts, ids, destroyed, refused.Keys)
  {
    hide Forest, Named, Childless, DestroyedAs, Answered, DestroyedInTurn;
    m', destroyed, refused := m, [], map[];
    DestroyedNone(m, counts, ids);
    assert ids[..0] == [] && refused.Keys == {};
    for i := 0 to |ids|
      invariant Good(t, m') && DestroyedAs(m, m', counts, ids, destroyed) && Answered(ids[..i], destroyed, refused)
      invariant DestroyedInTurn(m, m', counts, ids[..i], destroyed, refused.Keys)
    {
      var id := ids[i];
      DestroyMore(m, m', counts, ids[..i], destroyed, refused.Keys, id);
      assert ids[..i + 1] == ids[..i] + [id];
      var why := Undestroyable(m', id, counts);
      if why.Some? {
        AnsweredMore(ids[..i], destroyed, refused, id, why.value);
        assert refused[id := why.value].Keys == refused.Keys + {id};
        refused := refused[id := why.value];
        continue;
      }
      AnsweredMore(ids[..i], destroyed, refused, id, NotFound);
      DestroyedMore(m, m', counts, ids, destroyed, id);
      DestroyedGood(t, m', id);
      m' := m' - {id};
      destroyed := destroyed + [id];
    }
    assert ids[..|ids|] == ids;
  }

  /** Why a mailbox may not go, the first reason that applies. */
  method Undestroyable(m: Catalog, id: string, counts: string -> int) returns (why: Option<Reason>)
    ensures why.None? <==> Destroyable(m, counts, id)
    ensures why == Some(NotFound) <==> id !in m || m[id].isDestroyed
    ensures why == Some(SystemMailbox) <==> id in m && !m[id].isDestroyed && m[id].isSystem
    ensures why.Some? && why != Some(NotFound) && why != Some(SystemMailbox) ==>
              why == Some(if !Childless(m, id) then HasChildren else HasEmail)
  {
    hide Childless;
    if id !in m || m[id].isDestroyed {
      return Some(NotFound);
    }
    if m[id].isSystem {
      return Some(SystemMailbox);
    }
    var parent := HasChild(m, id);
    if parent {
      return Some(HasChildren);
    }
    return if counts(id) != 0 then Some(HasEmail) else None;
  }

  lemma DestroyedNone(m: Catalog, counts: string -> int, ids: seq<string>)
    ensures DestroyedAs(m, m, counts, ids, []) && Answered([], [], map[])
    ensures DestroyedInTurn(m, m, counts, [], [], {})
  {
  }

  datatype Result = Result(
    created: map<string, Mailbox>, updated: set<string>, destroyed: seq<string>,
    notCreated: map<string, Reason>, notUpdated: map<string, Reason>, notDestroyed: map<string, Reason>)

  /**
   One batch: creates, then updates, then destroys, the first two in any order. `one` and `two` are the
   catalog after the creates and after the updates.
   */
  method UpdateMailboxes(t: Text, current: Catalog, creates: map<string, Create>, updates: map<string, Patch>,
                         destroy: seq<string>, ids: string -> string, counts: string -> int)
    returns (after: Catalog, r: Result, ghost one: Catalog, ghost two: Catalog)
    requires Good(t, current) && FreshIds(t, current, creates, ids)
    ensures Good(t, after) && SystemKept(current, after)
    ensures CreatedAs(t, current, one, creates, ids, r.created)
    ensures UpdatedAs(t, one, two, updates, r.updated)
    ensures DestroyedAs(two, after, counts, destroy, r.destroyed)
    ensures r.created.Keys !! r.notCreated.Keys && r.created.Keys + r.notCreated.Keys == creates.Keys
    ensures r.updated !! r.notUpdated.Keys && r.updated + r.notUpdated.Keys == updates.Keys
    ensures Answered(destroy, r.destroyed, r.notDestroyed)
    ensures CreatedInTurn(t, current, one, creates, ids, r.created.Keys)
    ensures UpdatedInTurn(t, one, two, updates, r.updated)
    ensures DestroyedInTurn(two, after, counts, destroy, r.destroyed, r.notDestroyed.Keys)
    ensures forall x :: x in current && x !in after ==> x in r.destroyed && counts(x) == 0
  {
    hide Good, CreatedAs, UpdatedAs, DestroyedAs, Answered, CreatedInTurn, UpdatedInTurn, DestroyedInTurn;
    var m, created, notCreated := CreateAll(t, current, creates, ids);
    one := m;
    var updated, notUpdated;
    m, updated, notUpdated := UpdateAll(t, m, updates);
    two := m;
    var destroyed, notDestroyed;
    after, destroyed, notDestroyed := DestroyAll(t, m, destroy, counts);
    BatchKeeps(t, current, one, two, after, creates, ids, created, updates, updated, counts, destroy, destroyed);
    r := Result(created, updated, destroyed, notCreated, notUpdated, notDestroyed);
  }

  lemma BatchKeeps(t: Text, current: Catalog, one: Catalog, two: Catalog, three: Catalog, creates: map<string, Create>,
                   ids: string -> string, created: map<string, Mailbox>, updates: map<string, Patch>,
                   updated: set<string>, counts: string -> int, destroy: seq<string>, destroyed: seq<string>)
    requires CreatedAs(t, current, one, creates, ids, created) && UpdatedAs(t, one, two, updates, updated)
    requires DestroyedAs(two, three, counts, destroy, destroyed)
    ensures SystemKept(current, three)
    ensures forall x :: x in current && x !in three ==> x in destroyed && counts(x) == 0
  {
    hide NewMailbox, Patched, IdsOf;
    forall x | x in current
      ensures x in one && one[x] == current[x] && x in two && (current[x].isSystem ==> two[x] == current[x])
    {
      assert x in one.Keys;
    }
  }

  /** A mailbox holds what its create asked for; it has no role and is a live custom mailbox. */
  ghost predicate AsAsked(t: Text, create: Create, id: string, box: Mailbox) {
    && box.id == id && box.name == t.trim(create.name) && box.parent == t.trim(create.parent)
    && box.sortOrder == create.sortOrder && box.role == "" && !box.isSystem && !box.isDestroyed
  }

  /** Each field a patch names has its new value; every other field is as it was. */
  ghost predicate AsPatched(t: Text, was: Mailbox, patch: Patch, now: Mailbox) {
    && (patch.name.Some? ==> now.name == t.trim(patch.name.value)) && (patch.name.None? ==> now.name == was.name)
    && (patch.parent.Some? ==> now.parent == t.trim(patch.parent.value))
    && (patch.parent.None? ==> now.parent == was.parent)
    && (patch.sortOrder.Some? ==> now.sortOrder == patch.sortOrder.value)
    && (patch.sortOrder.None? ==> now.sortOrder == was.sortOrder)
    && now.id == was.id && now.role == was.role && now.isSystem == was.isSystem && now.isDestroyed == was.isDestroyed
  }

  /** A mailbox was there before the batch or is one that the batch was asked to create. */
  ghost predicate Stems(t: Text, current: Catalog, creates: map<string, Create>, ids: string -> string,
                        created: map<string, Mailbox>, x: string, was: Mailbox) {
    || (x in current && current[x] == was)
    || exists c :: c in created && c in creates && ids(c) == x && AsAsked(t, creates[c], x, was)
  }

  /** Field by field, every mailbox after a batch is an old or newly asked-for one with its patch applied. */
  lemma BatchBoxes(t: Text, current: Catalog, one: Catalog, two: Catalog, three: Catalog, creates: map<string, Create>,
                   ids: string -> string, created: map<string, Mailbox>, updates: map<string, Patch>,
                   updated: set<string>, counts: string -> int, destroy: seq<string>, destroyed: seq<string>, x: string)
    requires CreatedAs(t, current, one, creates, ids, created) && UpdatedAs(t, one, two, updates, updated)
    requires DestroyedAs(two, three, counts, destroy, destroyed) && x in three
    ensures exists was :: && Stems(t, current, creates, ids, created, x, was)
                          && if x in updated then x in updates && AsPatched(t, was, updates[x], three[x])
                             else three[x] == was
  {
    hide AsAsked, AsPatched, NewMailbox, Patched;
    assert x in two && three[x] == two[x];
    assert x in one.Keys;
    var was := one[x];
    if x !in current {
      assert x in IdsOf(created.Keys, ids);
      var c :| c in created && ids(c) == x;
      NewAsAsked(t, creates[c], x);
    }
    assert Stems(t, current, creates, ids, created, x, was);
    if x in updated {
      PatchedAs(t, was, updates[x]);
    }
  }

  lemma NewAsAsked(t: Text, create: Create, id: string)
    ensures AsAsked(t, create, id, NewMailbox(t, create, id))
  {
  }

  lemma PatchedAs(t: Text, was: Mailbox, patch: Patch)
    ensures AsPatched(t, was, patch, Patched(t, was, patch))
  {
  }

  /** The top level or a live mailbox of the catalog. */
  ghost predicate Hangable(m: Catalog, parent: string) {
    parent == "" || (parent in m && !m[parent].isDestroyed)
  }

  /** A live mailbox beside the given place has the name up to case. */
  ghost predicate Clashes(t: Text, m: Catalog, id: string, parent: string, name: string, x: string) {
    x in m && m[x].id != id && !m[x].isDestroyed && m[x].parent == parent && t.fold(m[x].name) == t.fold(name)
  }

  /** A create is refused exactly for a blank id or name, a parent that is not there, or a name that is taken. */
  lemma CreatableExactly(t: Text, m: Catalog, create: Create, id: string)
    ensures Creatable(t, m, create, id) <==>
            && t.trim(id) != "" && t.trim(t.trim(create.name)) != "" && Hangable(m, t.trim(create.parent))
            && forall x :: !Clashes(t, m, id, t.trim(create.parent), t.trim(create.name), x)
  {
    FreeExactly(t, m, NewMailbox(t, create, id));
  }

  lemma FreeExactly(t: Text, m: Catalog, box: Mailbox)
    ensures NameFree(t, m, box) <==> forall x :: !Clashes(t, m, box.id, box.parent, box.name, x)
  {
    if forall x :: !Clashes(t, m, box.id, box.parent, box.name, x) {
      forall x | x in m && m[x].id != box.id && !m[x].isDestroyed && m[x].parent == box.parent
        ensures t.fold(m[x].name) != t.fold(box.name)
      {
        assert !Clashes(t, m, box.id, box.parent, box.name, x);
      }
    }
  }

  /** A patch is refused exactly for those reasons, of a system mailbox or one with a role, and for a cycle. */
  lemma PatchableExactly(t: Text, m: Catalog, id: string, patch: Patch)
    requires id in m
    ensures var name := if patch.name.Some? then t.trim(patch.name.value) else m[id].name;
            var parent := if patch.parent.Some? then t.trim(patch.parent.value) else m[id].parent;
            Patchable(t, m, id, patch) <==>
              && !m[id].isSystem && m[id].role == "" && t.trim(m[id].id) != "" && t.trim(name) != ""
              && Hangable(m, parent) && Forest(m[id := Patched(t, m[id], patch)])
              && forall x :: !Clashes(t, m, m[id].id, parent, name, x)
  {
    hide Forest, NameFree;
    FreeExactly(t, m, Patched(t, m[id], patch));
  }
}
