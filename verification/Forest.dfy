/** A family of trees and nodes between two calls of the library. */
module Forests {
  import opened Structs
  import opened Trees
  import opened Layout
  import opened Lockless
  import opened Memories
  import opened Rotations

  /** `CRBTree` `t` holds the valid red-black tree `tree`. */
  predicate Holds(m: Mem, t: Ptr, tree: Tree) {
    Focus(m, Root, tree, t) && Valid(tree)
  }

  predicate AllHold(m: Mem, model: map<Ptr, Tree>) {
    forall t | t in model :: Holds(m, t, model[t])
  }

  /** No node is in two trees. */
  predicate Disjoint(model: map<Ptr, Tree>) {
    forall t, u | t in model && u in model && t != u :: Nodes(model[t]) !! Nodes(model[u])
  }

  predicate Member(model: map<Ptr, Tree>, n: Ptr) {
    exists t | t in model :: n in Nodes(model[t])
  }

  /** The node `n` is in no tree but, perhaps, that of `t`. */
  ghost predicate Elsewhere(model: map<Ptr, Tree>, t: Ptr, n: Ptr) {
    forall u | u in model && u != t :: n !in Nodes(model[u])
  }

  /** Nodes in no tree are in the initialised state. */
  predicate RestInitial(m: Mem, model: map<Ptr, Tree>) {
    forall n {:trigger m.cells[n]} | n in m.cells && !Member(model, n) :: m.cells[n] == Initial(n)
  }

  /** The invariant of the whole family. */
  predicate Consistent(m: Mem, model: map<Ptr, Tree>) {
    && NULL !in m.cells && NULL !in m.roots && model.Keys == m.roots.Keys
    && AllHold(m, model) && Disjoint(model) && RestInitial(m, model)
  }

  ghost predicate Settled(m: Memory)
    reads m
  {
    Consistent(m.mem, m.model) && Sound(m.history) && View(m.history) == m.mem
  }

  /** A new family of initialised nodes and empty trees is consistent. */
  lemma InitiallySettled(m: Memory, nodes: set<Ptr>, trees: set<Ptr>)
    requires NULL !in nodes && NULL !in trees && m.IsNew(nodes, trees)
    ensures Settled(m) && forall n | n in nodes :: !Member(m.model, n)
  {
    var rank: map<Ptr, nat> := map n | n in nodes :: 0;
    assert Ranked(m.mem, rank);
    assert m.mem.cells.Keys == nodes && m.mem.roots.Keys == trees;
  }

  // ----- What the invariant says about one tree -----

  lemma HoldsDomain(m: Mem, t: Ptr, tree: Tree)
    requires Holds(m, t, tree)
    ensures Nodes(tree) <= m.cells.Keys && t in m.roots && Closed(m, Nodes(tree)) && NullOrIn(m.roots[t], Nodes(tree))
  {
    RepDomain(m, tree, HoleWord(Root, t));
    RepClosed(m, tree, HoleWord(Root, t));
    assert tree.Node? ==> tree.node in Nodes(tree);
  }

  /** Another tree does not notice what happens to `t`. */
  lemma HoldsElsewhere(m: Mem, m': Mem, t: Ptr, s: set<Ptr>, u: Ptr, tree: Tree)
    requires Holds(m, u, tree) && Local(m, m', t, s) && u != t && s !! Nodes(tree)
    ensures Holds(m', u, tree)
  {
    HoldsDomain(m, u, tree);
    RepFrame(m, m', tree, HoleWord(Root, u));
  }

  lemma AllHoldStep(m: Mem, m': Mem, model: map<Ptr, Tree>, t: Ptr, s: set<Ptr>, tree: Tree)
    requires AllHold(m, model) && Local(m, m', t, s) && Holds(m', t, tree)
    requires forall u | u in model && u != t :: s !! Nodes(model[u])
    ensures AllHold(m', model[t := tree])
  {
    var model' := model[t := tree];
    forall u | u in model' ensures Holds(m', u, model'[u]) {
      if u != t { HoldsElsewhere(m, m', t, s, u, model[u]); }
    }
  }

  lemma DisjointStep(model: map<Ptr, Tree>, t: Ptr, s: set<Ptr>, tree: Tree)
    requires Disjoint(model) && Nodes(tree) <= s && forall u | u in model && u != t :: s !! Nodes(model[u])
    ensures Disjoint(model[t := tree])
  {
  }

  /** Whoever is in no tree afterwards was in none before, or has been released by the operation. */
  lemma StillMember(model: map<Ptr, Tree>, t: Ptr, s: set<Ptr>, tree: Tree, n: Ptr)
    requires t in model && Nodes(model[t]) <= s && Member(model, n) && n !in s
    ensures Member(model[t := tree], n)
  {
    var u :| u in model && n in Nodes(model[u]);
    assert u in model[t := tree] && n in Nodes(model[t := tree][u]);
  }

  lemma RestInitialStep(m: Mem, m': Mem, model: map<Ptr, Tree>, t: Ptr, s: set<Ptr>, tree: Tree)
    requires RestInitial(m, model) && Local(m, m', t, s) && t in model && Nodes(model[t]) <= s
    requires forall n | n in s && n !in Nodes(tree) :: n in m'.cells && m'.cells[n] == Initial(n)
    ensures RestInitial(m', model[t := tree])
  {
    var model' := model[t := tree];
    forall n | n in m'.cells && !Member(model', n) ensures m'.cells[n] == Initial(n) {
      assert t in model' && n !in Nodes(model'[t]);
      if n !in s && Member(model, n) { StillMember(model, t, s, tree, n); }
    }
  }

  /** One operation, on `t` and the nodes `s`, has replaced the tree of `t` by `tree`. */
  lemma ConsistentStep(m: Mem, m': Mem, model: map<Ptr, Tree>, t: Ptr, s: set<Ptr>, tree: Tree)
    requires Consistent(m, model) && Local(m, m', t, s) && t in model
    requires forall u | u in model && u != t :: s !! Nodes(model[u])
    requires Holds(m', t, tree) && Nodes(tree) <= s && Nodes(model[t]) <= s
    requires forall n | n in s && n !in Nodes(tree) :: n in m'.cells && m'.cells[n] == Initial(n)
    ensures Consistent(m', model[t := tree])
  {
    AllHoldStep(m, m', model, t, s, tree);
    DisjointStep(model, t, s, tree);
    RestInitialStep(m, m', model, t, s, tree);
  }

  // ----- Consistent memory is safe for readers, whatever came before -----

  /** How many nodes are below `n`, itself included, in its tree. */
  ghost function RankIn(model: map<Ptr, Tree>, n: Ptr): nat {
    if Member(model, n) then
      var t :| t in model && n in Nodes(model[t]);
      Size(Locate(Root, model[t], n).sub)
    else 0
  }

  lemma RankOf(model: map<Ptr, Tree>, t: Ptr, n: Ptr)
    requires Disjoint(model) && t in model && n in Nodes(model[t])
    ensures RankIn(model, n) == Size(Locate(Root, model[t], n).sub)
  {
  }

  lemma KidRanks(m: Mem, model: map<Ptr, Tree>, n: Ptr, side: Side)
    requires Consistent(m, model) && n in m.cells
    ensures Kid(m, side, n) != NULL ==> Kid(m, side, n) in m.cells && RankIn(model, Kid(m, side, n)) < RankIn(model, n)
  {
    if Member(model, n) {
      var t :| t in model && n in Nodes(model[t]);
      assert Holds(m, t, model[t]);
      HoldsDomain(m, t, model[t]);
      LocateFocus(m, t, model[t], n);
      KidLocated(model[t], n, side);
      RankOf(model, t, n);
      if Kid(m, side, n) != NULL { RankOf(model, t, Kid(m, side, n)); }
    } else {
      assert m.cells[n] == Initial(n);
    }
  }

  lemma ConsistentSafe(m: Mem, model: map<Ptr, Tree>)
    requires Consistent(m, model)
    ensures Safe(m)
  {
    var rank := map n | n in m.cells :: RankIn(model, n);
    forall n | n in m.cells
      ensures RanksBelow(rank, m.cells[n].left, n) && RanksBelow(rank, m.cells[n].right, n)
      ensures NullOrIn(m.cells[n].left, m.cells.Keys) && NullOrIn(m.cells[n].right, m.cells.Keys)
    {
      KidRanks(m, model, n, L);
      KidRanks(m, model, n, R);
    }
    assert Ranked(m, rank);
    forall t | t in m.roots ensures NullOrIn(m.roots[t], m.cells.Keys) {
      assert Holds(m, t, model[t]);
      HoldsDomain(m, t, model[t]);
    }
  }

  // ----- Nodes of unknown contents -----

  /** Everything is in order but the node `n`, which is in no tree and may hold anything. */
  ghost predicate Addable(m: Memory, n: Ptr)
    reads m
  {
    && n in m.mem.cells && !Member(m.model, n) && Consistent(Cleared(m.mem, n), m.model)
    && (m.mem.cells[n] == Initial(n) ==> Sound(m.history) && View(m.history) == m.mem)
  }

  /** The past that counts: if `n` is not initialised, there is none. */
  ghost function Past(m: Memory, n: Ptr): History
    requires n in m.mem.cells
    reads m
  {
    if m.mem.cells[n] == Initial(n) then m.history else Start(Cleared(m.mem, n))
  }

  lemma PastSound(m: Memory, n: Ptr)
    requires Addable(m, n)
    ensures Sound(Past(m, n)) && View(Past(m, n)) == Cleared(m.mem, n)
  {
    ConsistentSafe(Cleared(m.mem, n), m.model);
    assert m.mem.cells[n] == Initial(n) ==> Cleared(m.mem, n) == m.mem;
  }

  lemma SettledAddable(m: Memory, n: Ptr)
    requires Settled(m) && n in m.mem.cells && !Member(m.model, n)
    ensures Addable(m, n) && Past(m, n) == m.history
  {
    assert m.mem.cells[n] == Initial(n);
    assert Cleared(m.mem, n) == m.mem;
  }

  // ----- What a node knows about itself -----

  /** The focus at any node of a tree. */
  lemma LocateFocus(m: Mem, t: Ptr, tree: Tree, n: Ptr)
    requires Holds(m, t, tree) && n in Nodes(tree) && NULL !in m.cells
    ensures var z := Locate(Root, tree, n);
            && z.sub.Node? && z.sub.node == n && Plug(z.ctx, z.sub) == tree && Focus(m, z.ctx, z.sub, t)
            && Nodes(z.sub) + CtxNodes(z.ctx) == Nodes(tree)
            && n in m.cells && m.cells[n] == CRBNode(Top(z.sub.left), Top(z.sub.right), HoleWord(z.ctx, t), z.sub.red)
            && (z.ctx.In? ==> z.ctx.node != n && z.ctx.node != NULL)
  {
    var z := Locate(Root, tree, n);
    FocusPlug(m, z.ctx, z.sub, t);
    FocusReads(m, z.ctx, z.sub, t);
    PlugNodes(z.ctx, z.sub);
    assert z.ctx.In? ==> z.ctx.node in CtxNodes(z.ctx);
  }

  /** `c_rbnode_is_linked`. */
  predicate IsLinked(m: Mem, n: Ptr) {
    n != NULL && n in m.cells && m.cells[n].Parent() != n
  }

  /** `c_rbnode_is_linked` is exact: it holds for the members of trees and for nothing else. */
  lemma MemberLinked(m: Mem, model: map<Ptr, Tree>, n: Ptr)
    requires Consistent(m, model) && (n != NULL ==> n in m.cells)
    ensures IsLinked(m, n) <==> Member(model, n)
  {
    if Member(model, n) {
      var t :| t in model && n in Nodes(model[t]);
      LocateFocus(m, t, model[t], n);
    } else if n != NULL {
      assert m.cells[n] == Initial(n);
    }
  }

  /** The ROOT bit is set exactly on the roots, and a root's word names the tree that points to it. */
  lemma RootBit(m: Mem, model: map<Ptr, Tree>, n: Ptr)
    requires Consistent(m, model) && n in m.cells
    ensures m.cells[n].word.isRoot <==> exists t | t in model :: m.roots[t] == n
    ensures m.cells[n].word.isRoot ==> m.cells[n].word.raw in model && m.roots[m.cells[n].word.raw] == n
  {
    if t :| t in model && m.roots[t] == n {
      assert Holds(m, t, model[t]);
      if model[t].Node? { FocusReads(m, Root, model[t], t); }
    }
    if m.cells[n].word.isRoot {
      assert m.cells[n] != Initial(n);
      var t :| t in model && n in Nodes(model[t]);
      LocateFocus(m, t, model[t], n);
    }
  }
}
