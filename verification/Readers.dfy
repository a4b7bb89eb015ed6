/** A lookup without locks, run one load at a time against a writer. */
module Readers {
  import opened Structs
  import opened Trees
  import opened Layout
  import opened Lockless
  import opened Memories
  import opened Forests
  import opened Search

  /** Where the lookup for `f` goes from node `n`. */
  function Toward(v: Mem, f: Ptr -> int, n: Ptr): Ptr
    requires n in v.cells
  {
    if f(n) < 0 then v.cells[n].left else v.cells[n].right
  }

  /**
   * The loads of one lookup: it met `seen`, and took pointer i from memory state `at[i]`. It starts at
   * the root, never goes back in time, and passes only nodes that compare different.
   */
  predicate Looked(views: seq<Mem>, tree: Ptr, f: Ptr -> int, seen: seq<Ptr>, at: seq<nat>)
    decreases |seen|
  {
    var k := |seen| - 1;
    && |at| == |seen| > 0 && at[k] < |views|
    && if k == 0 then tree in views[at[0]].roots && seen[0] == views[at[0]].roots[tree]
       else
         && Looked(views, tree, f, seen[..k], at[..k]) && at[k - 1] <= at[k]
         && seen[k - 1] != NULL && seen[k - 1] in views[at[k]].cells && f(seen[k - 1]) != 0
         && seen[k] == Toward(views[at[k]], f, seen[k - 1])
  }

  lemma LookedOn(views: seq<Mem>, tree: Ptr, f: Ptr -> int, seen: seq<Ptr>, at: seq<nat>, now: nat)
    requires Looked(views, tree, f, seen, at) && at[|at| - 1] <= now < |views|
    requires seen[|seen| - 1] != NULL && seen[|seen| - 1] in views[now].cells && f(seen[|seen| - 1]) != 0
    ensures Looked(views, tree, f, seen + [Toward(views[now], f, seen[|seen| - 1])], at + [now])
  {
  }

  /** Every step of a lookup goes down in rank, and stays in the confines of the tree. */
  lemma Downwards(v: Mem, rank: map<Ptr, nat>, tree: Ptr, s: set<Ptr>, f: Ptr -> int, n: Ptr)
    requires Readable(v, tree, s) && Ranked(v, rank) && n in s
    ensures n in v.cells && n in rank && NullOrIn(Toward(v, f, n), s)
    ensures Toward(v, f, n) != NULL ==> Toward(v, f, n) in rank && rank[Toward(v, f, n)] < rank[n]
  {
    ClosedKids(v, s, n);
    assert RanksBelow(rank, v.cells[n].left, n) && RanksBelow(rank, v.cells[n].right, n);
  }

  /**
   * One load of the loop, from node `n`. Before it, the writer may perform any number of its remaining
   * writes: `later` is its choice. Either writes are used up, or the lookup steps down in rank.
   */
  method Descend(views: seq<Mem>, tree: Ptr, f: Ptr -> int, ghost s: set<Ptr>, n: Ptr, now: nat,
                 ghost rank: map<Ptr, nat>)
    returns (r: Ptr, later: nat, ghost rank': map<Ptr, nat>)
    requires now < |views| && forall v | v in views :: Readable(v, tree, s)
    requires Ranked(views[now], rank) && n in s
    ensures now <= later < |views| && n in views[later].cells
    ensures f(n) < 0 ==> r == views[later].cells[n].left
    ensures f(n) >= 0 ==> r == views[later].cells[n].right
    ensures NullOrIn(r, s) && Ranked(views[later], rank') && s <= views[later].cells.Keys
    ensures later > now || (n in rank' && rank' == rank && (r != NULL ==> r in rank && rank[r] < rank[n]))
  {
    later :| now <= later < |views|;
    rank' := rank;
    assert Readable(views[later], tree, s);
    if later > now { rank' :| Ranked(views[later], rank'); }
    Downwards(views[later], rank', tree, s, f, n);
    r := Toward(views[later], f, n);
  }

  // ----- Lookups that no writer gets in the way of -----

  /** Following child pointers from `n`, a reader meets the tree `t`; parents and colours do not matter. */
  predicate Shows(v: Mem, n: Ptr, t: Tree)
    decreases t
  {
    && n == Top(t)
    && (t.Node? ==>
          n != NULL && n in v.cells && Shows(v, v.cells[n].left, t.left) && Shows(v, v.cells[n].right, t.right))
  }

  /** From the state `from` on, readers of `tree` meet the tree `t`, whatever is written elsewhere. */
  predicate Quiet(views: seq<Mem>, from: nat, tree: Ptr, t: Tree) {
    forall i | from <= i < |views| :: tree in views[i].roots && Shows(views[i], views[i].roots[tree], t)
  }

  lemma {:induction false} RepShows(m: Mem, t: Tree, w: Word)
    requires Rep(m, t, w) && NULL !in m.cells
    ensures Shows(m, Top(t), t)
    decreases t
  {
    if t.Node? {
      RepShows(m, t.left, Below(t.node));
      RepShows(m, t.right, Below(t.node));
    }
  }

  /** From the state `from` on, readers at the node `n` meet the tree `s`, which fills the hole of `c` in `t`. */
  predicate CameTo(views: seq<Mem>, from: nat, t: Tree, c: Ctx, s: Tree, n: Ptr) {
    Plug(c, s) == t && forall i | from <= i < |views| :: Shows(views[i], n, s)
  }

  lemma ShowsKids(v: Mem, n: Ptr, s: Tree)
    requires Shows(v, n, s) && n != NULL
    ensures s.Node? && n == s.node && n in v.cells
    ensures v.cells[n].left == Top(s.left) && Shows(v, Top(s.left), s.left)
    ensures v.cells[n].right == Top(s.right) && Shows(v, Top(s.right), s.right)
  {
    assert Shows(v, v.cells[n].left, s.left) && Shows(v, v.cells[n].right, s.right);
  }

  lemma QuietStep(views: seq<Mem>, from: nat, t: Tree, c: Ctx, s: Tree, n: Ptr, i: nat, side: Side)
    requires CameTo(views, from, t, c, s, n) && n != NULL && from <= i < |views| && n in views[i].cells
    ensures s.Node? && n == s.node
    ensures var k := if side == L then views[i].cells[n].left else views[i].cells[n].right;
            CameTo(views, from, t, Under(side, c, s), Near(side, s), k)
  {
    ShowsKids(views[i], n, s);
    forall j | from <= j < |views| ensures Shows(views[j], Top(Near(side, s)), Near(side, s)) {
      ShowsKids(views[j], n, s);
    }
  }

  /** In a tree that stays as it is, a lookup walks down that tree, and turns as the comparison says. */
  lemma {:induction false} QuietPath(views: seq<Mem>, tree: Ptr, f: Ptr -> int, seen: seq<Ptr>, at: seq<nat>, t: Tree)
    returns (c: Ctx, s: Tree)
    requires Looked(views, tree, f, seen, at) && Quiet(views, at[0], tree, t)
    ensures CameTo(views, at[0], t, c, s, seen[|seen| - 1]) && at[0] <= at[|at| - 1]
    ensures Monotone(f, Inorder(t)) ==> InPlace(f, c)
    decreases |seen|
  {
    var k := |seen| - 1;
    if k == 0 {
      c, s := Root, t;
    } else {
      var d, u := QuietPath(views, tree, f, seen[..k], at[..k], t);
      var side := if f(seen[k - 1]) < 0 then L else R;
      QuietStep(views, at[0], t, d, u, seen[k - 1], at[k], side);
      c, s := Under(side, d, u), Near(side, u);
      if Monotone(f, Inorder(t)) { StepInPlace(f, d, u); }
    }
  }

  /** In a tree that stays as it is, a lookup finds a member, and NULL only if no member compares equal. */
  lemma QuietFinds(views: seq<Mem>, tree: Ptr, f: Ptr -> int, seen: seq<Ptr>, at: seq<nat>, t: Tree)
    requires Looked(views, tree, f, seen, at) && Quiet(views, at[0], tree, t)
    ensures seen[|seen| - 1] != NULL ==> seen[|seen| - 1] in Nodes(t)
    ensures seen[|seen| - 1] == NULL && Monotone(f, Inorder(t)) ==> forall n | n in Nodes(t) :: f(n) != 0
  {
    var c, s := QuietPath(views, tree, f, seen, at, t);
    PlugNodes(c, s);
    assert Shows(views[at[0]], seen[|seen| - 1], s);
    if s.Leaf? && Monotone(f, Inorder(t)) { NoMatch(f, c); }
  }

  lemma QuietLookup(views: seq<Mem>, tree: Ptr, f: Ptr -> int, seen: seq<Ptr>, at: seq<nat>)
    requires Looked(views, tree, f, seen, at)
    ensures forall t | Quiet(views, at[0], tree, t) && seen[|seen| - 1] != NULL :: seen[|seen| - 1] in Nodes(t)
    ensures forall t | Quiet(views, at[0], tree, t) && seen[|seen| - 1] == NULL && Monotone(f, Inorder(t)) ::
              forall n | n in Nodes(t) :: f(n) != 0
  {
    forall t | Quiet(views, at[0], tree, t)
      ensures seen[|seen| - 1] != NULL ==> seen[|seen| - 1] in Nodes(t)
      ensures seen[|seen| - 1] == NULL && Monotone(f, Inorder(t)) ==> forall n | n in Nodes(t) :: f(n) != 0
    {
      QuietFinds(views, tree, f, seen, at, t);
    }
  }

  /**
   * `c_rbtree_find_node`, interleaved with a writer. The loop ends because each round either uses up
   * writes or steps down in rank. If the tree stays as it is from the first load on, whatever happens
   * elsewhere, then the lookup is complete: NULL means that no member compares equal.
   */
  method ConcurrentFind(views: seq<Mem>, tree: Ptr, f: Ptr -> int, ghost s: set<Ptr>)
    returns (r: Ptr, ghost seen: seq<Ptr>, ghost at: seq<nat>)
    requires |views| > 0 && forall v | v in views :: Readable(v, tree, s)
    ensures Looked(views, tree, f, seen, at) && r == seen[|seen| - 1]
    ensures r == NULL || (r in s && f(r) == 0)
    ensures forall t | Quiet(views, at[0], tree, t) && r != NULL :: r in Nodes(t)
    ensures forall t | Quiet(views, at[0], tree, t) && r == NULL && Monotone(f, Inorder(t)) ::
              forall n | n in Nodes(t) :: f(n) != 0
  {
    var now: nat :| now < |views|;
    assert Readable(views[now], tree, s);
    ghost var rank :| Ranked(views[now], rank);
    r := views[now].roots[tree];
    seen, at := [r], [now];
    while r != NULL
      invariant now < |views| && Ranked(views[now], rank) && s <= views[now].cells.Keys && NullOrIn(r, s)
      invariant Looked(views, tree, f, seen, at) && r == seen[|seen| - 1] && at[|at| - 1] <= now
      decreases |views| - now, if r == NULL then 0 else rank[r] + 1
    {
      if f(r) == 0 { break; }
      var n := r;
      r, now, rank := Descend(views, tree, f, s, n, now, rank);
      LookedOn(views, tree, f, seen, at, now);
      seen, at := seen + [r], at + [now];
    }
    QuietLookup(views, tree, f, seen, at);
  }

  /** While an operation runs on one tree, the others are quiet: lookups in them are complete. */
  lemma {:induction false} QuietElsewhere(h: History, base: History, count: nat, tree: Ptr, s: set<Ptr>,
                                          u: Ptr, t: Tree)
    requires Within(h, base, count, tree, s) && Holds(View(base), u, t) && u != tree && s !! Nodes(t)
    requires NULL !in View(base).cells
    ensures Quiet(StatesSince(base, h), 0, u, t)
    decreases count
  {
    WithinLocal(h, base, count, tree, s);
    HoldsElsewhere(View(base), View(h), tree, s, u, t);
    RepShows(View(h), t, HoleWord(Root, u));
    if count > 1 && h != base { QuietElsewhere(h.prev, base, count - 1, tree, s, u, t); }
  }

  // ----- What readers meet -----

  /** All states of any run may be handed to such a reader. */
  lemma {:induction false} RunReadable(base: History, h: History, tree: Ptr)
    requires Sound(h) && Extends(base, h) && tree in View(h).roots
    ensures Since(base, h, tree, View(h).cells.Keys)
    decreases h
  {
    if h != base {
      ViewKeys(h);
      RunReadable(base, h.prev, tree);
    }
  }

  /**
   * A reader that starts while (or after) an operation runs never meets a node other than those
   * the operation is about: the members of the tree and the node that is added or removed.
   */
  lemma OperationReadable(h: History, base: History, count: nat, tree: Ptr, s: set<Ptr>)
    requires Sound(h) && Within(h, base, count, tree, s)
    ensures StatesSince(base, h)[0] == View(base) && forall v | v in StatesSince(base, h) :: Readable(v, tree, s)
  {
    WithinSince(h, base, count, tree, s);
    SinceStates(base, h, tree, s);
  }

  /**
   * After each single write of an operation, no path of child pointers in memory is longer than the number
   * of nodes or meets a node twice, and those that start at the root stay within the nodes `s`.
   */
  lemma EveryPrefixSafe(h: History, base: History, count: nat, tree: Ptr, s: set<Ptr>, v: Mem, path: seq<Ptr>)
    requires Sound(h) && Within(h, base, count, tree, s) && v in StatesSince(base, h) && Descent(v, path)
    ensures NoDup(path) && |path| <= |v.cells|
    ensures tree in v.roots && (path[0] == v.roots[tree] ==> forall i | 0 <= i < |path| :: path[i] in s)
  {
    OperationReadable(h, base, count, tree, s);
    assert Readable(v, tree, s);
    NoLoops(v, path);
    if path[0] == v.roots[tree] { ConfinedDescent(v, tree, s, path); }
  }
}
