/** The `c_rbtree_for_each*` loops. */
module Iterators {
  import opened Structs
  import opened Trees
  import opened Layout
  import opened Memories
  import opened Rotations
  import opened Walks
  import opened Forests
  import opened Traversals
  import opened Postorders
  import opened Api

  /** The members of a tree in order: no NULL, none twice. */
  lemma Members(m: Mem, model: map<Ptr, Tree>, t: Ptr)
    requires Consistent(m, model) && t in model
    ensures NoDup(Inorder(model[t])) && NoDup(Postorder(model[t]))
    ensures NULL !in Inorder(model[t]) && NULL !in Postorder(model[t]) && Nodes(model[t]) <= m.cells.Keys
    ensures forall n :: n in Inorder(model[t]) <==> n in Nodes(model[t])
    ensures forall n :: n in Postorder(model[t]) <==> n in Nodes(model[t])
  {
    assert Holds(m, t, model[t]);
    HoldsDomain(m, t, model[t]);
    InorderNodes(model[t]);
    InorderDistinct(model[t]);
    PostorderNodes(model[t]);
  }

  lemma NullFree(m: Mem, model: map<Ptr, Tree>, t: Ptr)
    requires Consistent(m, model) && t in model
    ensures NULL !in Inorder(model[t]) && NULL !in Postorder(model[t])
  {
    Members(m, model, t);
  }

  /** The member at position `i` of the in-order or post-order sequence, and its neighbours. */
  lemma MemberAt(m: Mem, model: map<Ptr, Tree>, t: Ptr, s: seq<Ptr>, i: nat)
    requires Consistent(m, model) && t in model && (s == Inorder(model[t]) || s == Postorder(model[t])) && i < |s|
    ensures s[i] != NULL && s[i] in m.cells && s[i] in Nodes(model[t])
    ensures Following(s, s[i]) == At(s, i + 1) && Preceding(s, s[i]) == At(s, i - 1)
  {
    Members(m, model, t);
    Neighbours(s, i);
  }

  /** `c_rbtree_for_each`: the members in order, each once. */
  method ForEach(m: Mem, t: Ptr, ghost model: map<Ptr, Tree>) returns (visited: seq<Ptr>)
    requires Consistent(m, model) && t in model
    ensures visited == Inorder(model[t])
  {
    ghost var s := Inorder(model[t]);
    NullFree(m, model, t);
    ghost var steps;
    var iter;
    iter, steps := First(m, t, model);
    visited := [];
    while iter != NULL
      invariant |visited| <= |s| && visited == s[..|visited|] && iter == At(s, |visited|)
      decreases |s| - |visited|
    {
      MemberAt(m, model, t, s, |visited|);
      visited := visited + [iter];
      iter, steps := Next(m, iter, model);
    }
  }

  lemma AheadAll(m: Mem, model: map<Ptr, Tree>, t: Ptr, n: Ptr)
    requires Consistent(m, model) && t in model && n in Nodes(model[t])
    ensures AheadLive(model, n, m.cells.Keys)
  {
    Members(m, model, t);
    OneTree(model, n, t);
  }

  /** `c_rbtree_for_each_postorder`: every node after its children, each once. */
  method ForEachPostorder(m: Mem, t: Ptr, ghost model: map<Ptr, Tree>) returns (visited: seq<Ptr>)
    requires Consistent(m, model) && t in model
    ensures visited == Postorder(model[t])
  {
    ghost var s := Postorder(model[t]);
    NullFree(m, model, t);
    ghost var steps;
    var iter;
    iter, steps := FirstPostorder(m, t, model);
    visited := [];
    while iter != NULL
      invariant |visited| <= |s| && visited == s[..|visited|] && iter == At(s, |visited|)
      decreases |s| - |visited|
    {
      MemberAt(m, model, t, s, |visited|);
      AheadAll(m, model, t, iter);
      visited := visited + [iter];
      iter, steps := NextPostorder(m, iter, m.cells.Keys, m, model);
    }
  }

  /** The loop from `c_rbtree_last_postorder` along `c_rbnode_prev_postorder`: the same sequence backwards. */
  method ForEachBackwards(m: Mem, t: Ptr, ghost model: map<Ptr, Tree>) returns (visited: seq<Ptr>)
    requires Consistent(m, model) && t in model
    ensures var s := Postorder(model[t]);
            |visited| == |s| && forall i | 0 <= i < |s| :: visited[i] == s[|s| - 1 - i]
  {
    ghost var s := Postorder(model[t]);
    NullFree(m, model, t);
    ghost var steps;
    var iter := LastPostorder(m, t, model);
    visited := [];
    while iter != NULL
      invariant |visited| <= |s| && iter == At(s, |s| - 1 - |visited|)
      invariant forall i | 0 <= i < |visited| :: visited[i] == s[|s| - 1 - i]
      decreases |s| - |visited|
    {
      MemberAt(m, model, t, s, |s| - 1 - |visited|);
      visited := visited + [iter];
      iter, steps := PrevPostorder(m, iter, model);
    }
  }

  // ----- One step and back -----

  /** `c_rbnode_prev` undoes `c_rbnode_next`. */
  method NextThenPrev(m: Mem, n: Ptr, ghost model: map<Ptr, Tree>) returns (next: Ptr, back: Ptr)
    requires Consistent(m, model) && Member(model, n)
    ensures forall t | t in model && n in Nodes(model[t]) ::
              n in Inorder(model[t]) && next == Following(Inorder(model[t]), n)
    ensures next != NULL ==> back == n
  {
    ghost var t :| t in model && n in Nodes(model[t]);
    ghost var steps;
    Members(m, model, t);
    StepsInvert(m, model, t, n, false);
    next, steps := Next(m, n, model);
    back := NULL;
    if next != NULL {
      back, steps := Prev(m, next, model);
    }
  }

  /** `c_rbnode_next` undoes `c_rbnode_prev`. */
  method PrevThenNext(m: Mem, n: Ptr, ghost model: map<Ptr, Tree>) returns (next: Ptr, back: Ptr)
    requires Consistent(m, model) && Member(model, n)
    ensures forall t | t in model && n in Nodes(model[t]) ::
              n in Inorder(model[t]) && next == Preceding(Inorder(model[t]), n)
    ensures next != NULL ==> back == n
  {
    ghost var t :| t in model && n in Nodes(model[t]);
    ghost var steps;
    Members(m, model, t);
    StepsInvert(m, model, t, n, false);
    next, steps := Prev(m, n, model);
    back := NULL;
    if next != NULL {
      back, steps := Next(m, next, model);
    }
  }

  /** `c_rbnode_prev_postorder` undoes `c_rbnode_next_postorder`. */
  method NextThenPrevPostorder(m: Mem, n: Ptr, ghost model: map<Ptr, Tree>) returns (next: Ptr, back: Ptr)
    requires Consistent(m, model) && Member(model, n)
    ensures forall t | t in model && n in Nodes(model[t]) ::
              n in Postorder(model[t]) && next == Following(Postorder(model[t]), n)
    ensures next != NULL ==> back == n
  {
    ghost var t :| t in model && n in Nodes(model[t]);
    ghost var steps;
    Members(m, model, t);
    StepsInvert(m, model, t, n, true);
    AheadAll(m, model, t, n);
    next, steps := NextPostorder(m, n, m.cells.Keys, m, model);
    back := NULL;
    if next != NULL {
      back, steps := PrevPostorder(m, next, model);
    }
  }

  /** `c_rbnode_next_postorder` undoes `c_rbnode_prev_postorder`. */
  method PrevThenNextPostorder(m: Mem, n: Ptr, ghost model: map<Ptr, Tree>) returns (next: Ptr, back: Ptr)
    requires Consistent(m, model) && Member(model, n)
    ensures forall t | t in model && n in Nodes(model[t]) ::
              n in Postorder(model[t]) && next == Preceding(Postorder(model[t]), n)
    ensures next != NULL ==> back == n
  {
    ghost var t :| t in model && n in Nodes(model[t]);
    ghost var steps;
    Members(m, model, t);
    StepsInvert(m, model, t, n, true);
    next, steps := PrevPostorder(m, n, model);
    back := NULL;
    if next != NULL {
      AheadAll(m, model, t, next);
      back, steps := NextPostorder(m, next, m.cells.Keys, m, model);
    }
  }

  // ----- Unlinking while iterating -----

  /** What is left of `s` when the nodes that satisfy `drop` are taken out. */
  function Kept(s: seq<Ptr>, drop: Ptr -> bool): seq<Ptr> {
    if s == [] then []
    else Kept(s[..|s| - 1], drop) + if drop(s[|s| - 1]) then [] else [s[|s| - 1]]
  }

  /** Taking the node between `a` and `b` out leaves `a + b`. */
  lemma WithoutAt(a: seq<Ptr>, n: Ptr, b: seq<Ptr>, s: seq<Ptr>)
    requires NoDup(a + [n] + b) && Without(a + [n] + b, n, s)
    ensures s == a + b
  {
    var w := a + [n] + b;
    var i: nat :| i < |w| && w[i] == n && s == w[..i] + w[i + 1..];
    assert w[|a|] == n;
    assert w[..|a|] == a && w[|a| + 1..] == b;
  }

  /**
   * The state of the loop: `visited` is done and `rest` is still in the tree, with the current node and
   * the saved one in front.
   */
  predicate InLoop(now: seq<Ptr>, drop: Ptr -> bool, visited: seq<Ptr>, rest: seq<Ptr>, iter: Ptr, safe: Ptr) {
    now == Kept(visited, drop) + rest && iter == FirstOr(rest) && safe == At(rest, 1)
  }

  /** Unlinking the current node moves the loop state on, before the saved successor is fetched. */
  lemma LoopStep(drop: Ptr -> bool, visited: seq<Ptr>, n: Ptr, rest: seq<Ptr>, now: seq<Ptr>, now': seq<Ptr>)
    requires now == Kept(visited, drop) + ([n] + rest) && NoDup(now)
    requires if drop(n) then Without(now, n, now') else now' == now
    ensures now' == Kept(visited + [n], drop) + rest
  {
    assert (visited + [n])[..|visited|] == visited;
    var a := Kept(visited, drop);
    assert now == a + [n] + rest;
    if drop(n) { WithoutAt(a, n, rest, now'); }
  }

  /** The saved node's successor in the tree is its successor in the original sequence. */
  lemma SavedStep(a: seq<Ptr>, n: Ptr, rest: seq<Ptr>)
    requires NoDup(a + ([n] + rest))
    ensures n in a + ([n] + rest) && Following(a + ([n] + rest), n) == FirstOr(rest)
  {
    assert a + ([n] + rest) == a + [n] + rest;
    NoDupParts(a, n, rest);
    Split(a, n, rest);
  }

  /** Fetching the successor of the saved node, when the nodes `rest` are still to be visited. */
  method NextSaved(m: Mem, n: Ptr, ghost model: map<Ptr, Tree>, ghost t: Ptr, ghost a: seq<Ptr>, ghost rest: seq<Ptr>)
    returns (r: Ptr)
    requires Consistent(m, model) && t in model && Inorder(model[t]) == a + rest && n == FirstOr(rest)
    ensures r == At(rest, 1)
  {
    ghost var steps;
    Members(m, model, t);
    MemberLinked(m, model, NULL);
    if rest != [] {
      assert rest == [n] + rest[1..];
      SavedStep(a, n, rest[1..]);
    }
    r, steps := Next(m, n, model);
  }

  /** No other tree changed. */
  predicate OnlyTree(model: map<Ptr, Tree>, model': map<Ptr, Tree>, t: Ptr) {
    t in model' && model' == model[t := model'[t]]
  }

  lemma OnlyTreeAgain(model: map<Ptr, Tree>, model1: map<Ptr, Tree>, model2: map<Ptr, Tree>, t: Ptr)
    requires OnlyTree(model, model1, t) && OnlyTree(model1, model2, t)
    ensures OnlyTree(model, model2, t)
  {
  }

  /** The loop body: unlink the current node, if so wished. */
  method Visit(m: Memory, n: Ptr, drop: Ptr -> bool, ghost t: Ptr)
    requires Settled(m) && t in m.model && n in Nodes(m.model[t]) && n in m.mem.cells
    modifies m
    ensures Settled(m) && OnlyTree(old(m.model), m.model, t)
    ensures m.mem.cells.Keys == old(m.mem).cells.Keys
    ensures Extends(old(m.history), m.history)
    ensures if drop(n) then Without(Inorder(old(m.model)[t]), n, Inorder(m.model[t])) && m.mem.cells[n] == Initial(n)
            else m.mem == old(m.mem) && m.model == old(m.model)
  {
    if drop(n) {
      ghost var u, z, steps;
      ghost var model := m.model;
      u, z, steps := Unlink(m, n);
      OneTree(model, n, t);
    }
  }

  /** One round of the loop up to the point where the saved node becomes the current one. */
  method VisitNext(m: Memory, n: Ptr, drop: Ptr -> bool, ghost t: Ptr, ghost visited: seq<Ptr>, ghost rest: seq<Ptr>)
    requires Settled(m) && t in m.model && Inorder(m.model[t]) == Kept(visited, drop) + ([n] + rest)
    modifies m
    ensures Settled(m) && OnlyTree(old(m.model), m.model, t)
    ensures Inorder(m.model[t]) == Kept(visited + [n], drop) + rest && Extends(old(m.history), m.history)
  {
    ghost var now := Inorder(m.model[t]);
    Members(m.mem, m.model, t);
    SavedStep(Kept(visited, drop), n, rest);
    Visit(m, n, drop, t);
    LoopStep(drop, visited, n, rest, now, Inorder(m.model[t]));
  }

  lemma Rest(visited: seq<Ptr>, rest: seq<Ptr>)
    requires rest != []
    ensures rest == [FirstOr(rest)] + rest[1..] && visited + rest == visited + [FirstOr(rest)] + rest[1..]
    ensures At(rest, 1) == FirstOr(rest[1..])
  {
  }

  /**
   * `c_rbtree_for_each_safe` with a body that unlinks (some of) the nodes it visits: it still visits the
   * original sequence, each node once, and the tree ends up with the nodes that were not unlinked.
   */
  method ForEachSafe(m: Memory, t: Ptr, drop: Ptr -> bool) returns (visited: seq<Ptr>)
    requires Settled(m) && t in m.model
    modifies m
    ensures Settled(m) && OnlyTree(old(m.model), m.model, t) && Extends(old(m.history), m.history)
    ensures visited == Inorder(old(m.model)[t])
    ensures Inorder(m.model[t]) == Kept(visited, drop)
  {
    ghost var s, steps := Inorder(m.model[t]), 0;
    ghost var rest := s;
    var iter, safe;
    NullFree(m.mem, m.model, t);
    iter, steps := First(m.mem, t, m.model);
    safe := NextSaved(m.mem, iter, m.model, t, [], rest);
    visited := [];
    while iter != NULL
      invariant Settled(m) && OnlyTree(old(m.model), m.model, t) && Extends(old(m.history), m.history)
      invariant InLoop(Inorder(m.model[t]), drop, visited, rest, iter, safe) && visited + rest == s
      decreases |rest|
    {
      ghost var model, h := m.model, m.history;
      Rest(visited, rest);
      VisitNext(m, iter, drop, t, visited, rest[1..]);
      ExtendsOn(old(m.history), h, m.history);
      OnlyTreeAgain(old(m.model), model, m.model, t);
      rest, visited := rest[1..], visited + [iter];
      iter := safe;
      safe := NextSaved(m.mem, safe, m.model, t, Kept(visited, drop), rest);
    }
    assert rest == [] by { assert forall x | x in rest :: x in s; }
  }

  /** The nodes that stay are those that are not to be dropped; if all are dropped, the tree ends empty. */
  lemma {:induction false} KeptMembers(s: seq<Ptr>, drop: Ptr -> bool)
    ensures forall n :: n in Kept(s, drop) <==> n in s && !drop(n)
    ensures (forall n | n in s :: drop(n)) ==> Kept(s, drop) == []
  {
    if s != [] {
      var r := s[..|s| - 1];
      KeptMembers(r, drop);
      assert forall n :: n in s <==> n in r || n == s[|s| - 1];
    }
  }

  // ----- Taking a tree apart -----

  /**
   * The tree is being taken apart: `visited` nodes are unlinked, those in `rest` are as they were in `m0`
   * and nothing else has changed.
   */
  predicate Dismantled(m0: Mem, m: Mem, visited: seq<Ptr>, rest: seq<Ptr>) {
    && m.roots == m0.roots && Same(m0, m, (set n | n in rest))
    && forall n | n in visited :: n in m.cells && m.cells[n] == Initial(n)
  }

  lemma DismantleStep(m0: Mem, m1: Mem, m2: Mem, visited: seq<Ptr>, n: Ptr, rest: seq<Ptr>)
    requires Dismantled(m0, m1, visited, [n] + rest) && Except(m1, m2, {n}) && m2.roots == m1.roots
    requires n in m1.cells && m2.cells[n] == Initial(n) && n !in rest && n !in visited
    ensures Dismantled(m0, m2, visited + [n], rest)
  {
  }

  /** Fetching the successor of the saved node: only nodes that are still to be visited are dereferenced. */
  method NextUndone(m: Mem, n: Ptr, ghost m0: Mem, ghost model: map<Ptr, Tree>, ghost t: Ptr,
          ghost visited: seq<Ptr>, ghost rest: seq<Ptr>)
    returns (r: Ptr)
    requires Consistent(m0, model) && t in model && Postorder(model[t]) == visited + rest
    requires Dismantled(m0, m, visited, rest) && n == FirstOr(rest)
    ensures r == At(rest, 1)
  {
    ghost var steps;
    Members(m0, model, t);
    MemberLinked(m0, model, NULL);
    if rest != [] {
      assert rest == [n] + rest[1..];
      Ahead(visited, n, rest[1..]);
      OneTree(model, n, t);
    }
    r, steps := NextPostorder(m, n, (set x | x in rest), m0, model);
  }

  /** One round: reinitialise the current node, whose successor has been saved. */
  method Dismantle(m: Memory, n: Ptr, ghost m0: Mem, ghost model: map<Ptr, Tree>, ghost t: Ptr,
          ghost visited: seq<Ptr>, ghost rest: seq<Ptr>)
    requires m.Logged() && t in model && m.footprint == Nodes(model[t])
    requires Consistent(m0, model) && Postorder(model[t]) == visited + ([n] + rest)
    requires Dismantled(m0, m.mem, visited, [n] + rest)
    modifies m`mem, m`history, m`writes
    ensures m.Logged() && Dismantled(m0, m.mem, visited + [n], rest)
  {
    ghost var m1 := m.mem;
    Members(m0, model, t);
    assert visited + ([n] + rest) == visited + [n] + rest;
    NoDupParts(visited, n, rest);
    assert n in Postorder(model[t]) && n in (set x | x in [n] + rest);
    Init(m, n);
    DismantleStep(m0, m1, m.mem, visited, n, rest);
  }

  /** One round of the loop, after which the saved node becomes the current one. */
  method DismantleNext(m: Memory, n: Ptr, safe: Ptr, ghost m0: Mem, ghost model: map<Ptr, Tree>, ghost t: Ptr,
          ghost visited: seq<Ptr>, ghost rest: seq<Ptr>) returns (next: Ptr)
    requires m.Logged() && t in model && m.footprint == Nodes(model[t])
    requires Consistent(m0, model) && Postorder(model[t]) == visited + [n] + rest
    requires Dismantled(m0, m.mem, visited, [n] + rest) && safe == FirstOr(rest)
    modifies m`mem, m`history, m`writes
    ensures m.Logged() && Dismantled(m0, m.mem, visited + [n], rest) && next == At(rest, 1)
  {
    assert visited + ([n] + rest) == visited + [n] + rest;
    Dismantle(m, n, m0, model, t, visited, rest);
    next := NextUndone(m.mem, safe, m0, model, t, visited + [n], rest);
  }

  /**
   * `c_rbtree_for_each_safe_postorder_unlink`: every node is visited once, children before parents, and
   * is reinitialised at once; in the end the tree is empty. No reader meets a loop at any time.
   */
  method ForEachSafePostorderUnlink(m: Memory, t: Ptr) returns (visited: seq<Ptr>)
    requires Settled(m) && t in m.model
    modifies m
    ensures Settled(m) && m.model == old(m.model)[t := Leaf] && Extends(old(m.history), m.history)
    ensures visited == Postorder(old(m.model)[t])
    ensures forall n | n in visited :: n in m.mem.cells && m.mem.cells[n] == Initial(n)
    ensures m.Logged() && m.base == old(m.history) && m.tree == t && m.footprint == Nodes(old(m.model)[t])
  {
    ghost var m0, model, rest, steps := m.mem, m.model, Postorder(m.model[t]), 0;
    NullFree(m0, model, t);
    DismantleStart(m, t);
    var iter, safe;
    iter, steps := FirstPostorder(m.mem, t, m.model);
    safe := NextUndone(m.mem, iter, m0, model, t, [], rest);
    visited := [];
    while iter != NULL
      invariant m.Logged() && m.base == old(m.history) && m.tree == t
      invariant m.footprint == Nodes(model[t]) && m.model == model
      invariant Dismantled(m0, m.mem, visited, rest) && visited + rest == Postorder(model[t])
      invariant iter == FirstOr(rest) && safe == At(rest, 1)
      decreases |rest|
    {
      Rest(visited, rest);
      var next := DismantleNext(m, iter, safe, m0, model, t, visited, rest[1..]);
      rest, visited := rest[1..], visited + [iter];
      iter, safe := safe, next;
    }
    assert forall x | x in rest :: x in visited + rest;
    DismantleEnd(m, m0, t, visited);
  }

  ghost method DismantleStart(m: Memory, t: Ptr)
    requires Settled(m) && t in m.model
    modifies m`base, m`tree, m`footprint, m`writes
    ensures m.Logged() && m.base == m.history && m.tree == t && m.footprint == Nodes(m.model[t])
    ensures Dismantled(m.mem, m.mem, [], Postorder(m.model[t]))
  {
    assert Holds(m.mem, t, m.model[t]);
    HoldsDomain(m.mem, t, m.model[t]);
    Members(m.mem, m.model, t);
    Begin(m, t, Nodes(m.model[t]));
  }

  /** The last step: the root pointer is cleared. */
  method DismantleEnd(m: Memory, ghost m0: Mem, t: Ptr, ghost visited: seq<Ptr>)
    requires m.Logged() && View(m.base) == m0 && m.tree == t && t in m.model && m.footprint == Nodes(m.model[t])
    requires Consistent(m0, m.model) && visited == Postorder(m.model[t]) && Dismantled(m0, m.mem, visited, [])
    modifies m`mem, m`history, m`writes, m`model
    ensures Settled(m) && m.model == old(m.model)[t := Leaf] && m.Logged() && Extends(m.base, m.history)
    ensures forall n | n in visited :: n in m.mem.cells && m.mem.cells[n] == Initial(n)
  {
    Members(m0, m.model, t);
    m.Store(RootOf(t), NULL, {});
    End(m, m0, Leaf);
  }
}
