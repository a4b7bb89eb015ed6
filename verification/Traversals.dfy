/** The walks along parent pointers, against the recursive in-order and post-order sequences. */
module Traversals {
  import opened Structs
  import opened Trees
  import opened RebalanceSpec
  import opened Layout
  import opened Walks
  import opened Forests

  // ----- Neighbours in a sequence -----

  function At(s: seq<Ptr>, i: int): Ptr {
    if 0 <= i < |s| then s[i] else NULL
  }

  /** Position of the first `n` in `s`. */
  function Index(s: seq<Ptr>, n: Ptr): (i: nat)
    requires n in s
    ensures i < |s| && s[i] == n && n !in s[..i]
  {
    if s[0] == n then 0
    else
      assert s[1..][..Index(s[1..], n)] == s[1..Index(s[1..], n) + 1];
      1 + Index(s[1..], n)
  }

  function Following(s: seq<Ptr>, n: Ptr): Ptr
    requires n in s
  {
    At(s, Index(s, n) + 1)
  }

  function Preceding(s: seq<Ptr>, n: Ptr): Ptr
    requires n in s
  {
    At(s, Index(s, n) - 1)
  }

  lemma Split(a: seq<Ptr>, n: Ptr, b: seq<Ptr>)
    requires n !in a
    ensures Index(a + [n] + b, n) == |a|
    ensures Following(a + [n] + b, n) == FirstOr(b) && Preceding(a + [n] + b, n) == LastOr(a)
  {
    var s := a + [n] + b;
    var i := Index(s, n);
    assert s[|a|] == n;
    assert forall j | 0 <= j < i :: s[j] in s[..i];
    assert forall j | 0 <= j < |a| :: s[j] == a[j];
  }

  /** Without duplicates, the neighbours of the i-th node are those at i + 1 and i - 1, NULL at the ends. */
  lemma Neighbours(s: seq<Ptr>, i: nat)
    requires NoDup(s) && i < |s|
    ensures Following(s, s[i]) == At(s, i + 1) && Preceding(s, s[i]) == At(s, i - 1)
  {
  }

  /** One step forward and one step back (or the other way round) lead to where they started. */
  lemma RoundTrips(s: seq<Ptr>, n: Ptr)
    requires NoDup(s) && NULL !in s && n in s
    ensures Following(s, n) != NULL ==> Following(s, n) in s && Preceding(s, Following(s, n)) == n
    ensures Preceding(s, n) != NULL ==> Preceding(s, n) in s && Following(s, Preceding(s, n)) == n
  {
  }

  // ----- In-order -----

  lemma InorderAround(c: Ctx, t: Tree)
    requires t.Node? && Distinct(Plug(c, t))
    ensures t.node in Inorder(Plug(c, t))
    ensures Following(Inorder(Plug(c, t)), t.node) == FirstOr(Inorder(t.right) + After(c))
    ensures Preceding(Inorder(Plug(c, t)), t.node) == LastOr(Before(c) + Inorder(t.left))
  {
    PlugInorder(c, t);
    InorderDistinct(Plug(c, t));
    SplitAround(Before(c), Inorder(t.left), t.node, Inorder(t.right), After(c));
    NoDupParts(Before(c) + Inorder(t.left), t.node, Inorder(t.right) + After(c));
    Split(Before(c) + Inorder(t.left), t.node, Inorder(t.right) + After(c));
  }

  /**
   * A walk from depth `k` to the node `r` has taken `steps` steps after the first one, all down or all up. If it
   * ends at NULL, it has left the tree by its root.
   */
  ghost predicate Walked(t: Tree, k: nat, r: Ptr, steps: nat) {
    if r == NULL then steps == k else LiesAt(t, r, k + 1 + steps) || (steps < k && LiesAt(t, r, k - 1 - steps))
  }

  /** The way up: to the first ancestor of which `n` is not in the right subtree. */
  method NextUp(m: Mem, n: Ptr, ghost c: Ctx, ghost t: Tree, ghost tree: Ptr) returns (r: Ptr, ghost steps: nat)
    requires Focus(m, c, t, tree) && t.Node? && n == t.node && NULL !in m.cells
    ensures r == FirstOr(After(c)) && steps <= Depth(c) && Walked(Plug(c, t), Depth(c), r, steps)
  {
    FocusReads(m, c, t, tree);
    var x := n;
    r, steps := m.cells[x].Parent(), 0;
    ghost var d, s := c, t;
    while r != NULL && x == m.cells[r].right
      invariant Focus(m, d, s, tree) && s.Node? && s.node == x && r == (if d.Root? then NULL else d.node)
      invariant r != NULL ==> r in m.cells && m.cells[r] == PairNode(d.side, x, Top(d.sib), HoleWord(d.up, tree), d.red)
      invariant r != NULL ==> x != Top(d.sib)
      invariant After(d) == After(c) && steps + Depth(d) == Depth(c) && Plug(d, s) == Plug(c, t)
      decreases d
    {
      FocusUp(m, d, s, tree);
      d, s, steps := d.up, Join(d.side, s, d.node, d.red, d.sib), steps + 1;
      x := r;
      FocusReads(m, d, s, tree);
      r := m.cells[x].Parent();
    }
    if r != NULL { LiesAbove(d, s); }
  }

  /** `c_rbnode_next` at a linked node: down to the right, or else up. */
  method NextOf(m: Mem, n: Ptr, ghost c: Ctx, ghost t: Tree, ghost tree: Ptr) returns (r: Ptr, ghost steps: nat)
    requires Focus(m, c, t, tree) && t.Node? && n == t.node && NULL !in m.cells
    ensures r == FirstOr(Inorder(t.right) + After(c)) && steps <= Depth(c) + Height(t)
    ensures Walked(Plug(c, t), Depth(c), r, steps)
  {
    FocusReads(m, c, t, tree);
    if m.cells[n].right != NULL {
      r, steps := Leftmost(m, m.cells[n].right, t.right, Below(n));
      MinFirst(t.right);
      LiesBelow(In(R, n, t.red, t.left, c), t.right, r, steps);
    } else {
      assert t.right.Leaf? by { assert Rep(m, t.right, Below(n)); }
      r, steps := NextUp(m, n, c, t, tree);
    }
  }

  /** The way up: to the first ancestor of which `n` is not in the left subtree. */
  method PrevUp(m: Mem, n: Ptr, ghost c: Ctx, ghost t: Tree, ghost tree: Ptr) returns (r: Ptr, ghost steps: nat)
    requires Focus(m, c, t, tree) && t.Node? && n == t.node && NULL !in m.cells
    ensures r == LastOr(Before(c)) && steps <= Depth(c) && Walked(Plug(c, t), Depth(c), r, steps)
  {
    FocusReads(m, c, t, tree);
    var x := n;
    r, steps := m.cells[x].Parent(), 0;
    ghost var d, s := c, t;
    while r != NULL && x == m.cells[r].left
      invariant Focus(m, d, s, tree) && s.Node? && s.node == x && r == (if d.Root? then NULL else d.node)
      invariant r != NULL ==> r in m.cells && m.cells[r] == PairNode(d.side, x, Top(d.sib), HoleWord(d.up, tree), d.red)
      invariant r != NULL ==> x != Top(d.sib)
      invariant Before(d) == Before(c) && steps + Depth(d) == Depth(c) && Plug(d, s) == Plug(c, t)
      decreases d
    {
      FocusUp(m, d, s, tree);
      d, s, steps := d.up, Join(d.side, s, d.node, d.red, d.sib), steps + 1;
      x := r;
      FocusReads(m, d, s, tree);
      r := m.cells[x].Parent();
    }
    if r != NULL { LiesAbove(d, s); }
  }

  /** `c_rbnode_prev` at a linked node: down to the left, or else up. */
  method PrevOf(m: Mem, n: Ptr, ghost c: Ctx, ghost t: Tree, ghost tree: Ptr) returns (r: Ptr, ghost steps: nat)
    requires Focus(m, c, t, tree) && t.Node? && n == t.node && NULL !in m.cells
    ensures r == LastOr(Before(c) + Inorder(t.left)) && steps <= Depth(c) + Height(t)
    ensures Walked(Plug(c, t), Depth(c), r, steps)
  {
    FocusReads(m, c, t, tree);
    if m.cells[n].left != NULL {
      r, steps := Rightmost(m, m.cells[n].left, t.left, Below(n));
      MinFirst(t.left);
      LiesBelow(In(L, n, t.red, t.right, c), t.left, r, steps);
    } else {
      assert t.left.Leaf? by { assert Rep(m, t.left, Below(n)); }
      r, steps := PrevUp(m, n, c, t, tree);
    }
  }

  /** What is known about a member at its own position. */
  lemma MemberFocus(m: Mem, model: map<Ptr, Tree>, n: Ptr, t: Ptr)
    requires Consistent(m, model) && t in model && n in Nodes(model[t])
    ensures var z := Locate(Root, model[t], n);
            && Focus(m, z.ctx, z.sub, t) && z.sub.Node? && z.sub.node == n && Plug(z.ctx, z.sub) == model[t]
            && Depth(z.ctx) + Height(z.sub) <= Height(model[t])
            && n in Inorder(model[t])
            && Following(Inorder(model[t]), n) == FirstOr(Inorder(z.sub.right) + After(z.ctx))
            && Preceding(Inorder(model[t]), n) == LastOr(Before(z.ctx) + Inorder(z.sub.left))
  {
    var z := Locate(Root, model[t], n);
    assert Holds(m, t, model[t]);
    LocateFocus(m, t, model[t], n);
    DepthHeight(z.ctx, z.sub);
    InorderAround(z.ctx, z.sub);
  }

  /** No tree but one holds `n`. */
  lemma OneTree(model: map<Ptr, Tree>, n: Ptr, t: Ptr)
    requires Disjoint(model) && t in model && n in Nodes(model[t])
    ensures forall u | u in model && n in Nodes(model[u]) :: u == t
  {
  }

  /** `c_rbnode_next`. */
  method Next(m: Mem, n: Ptr, ghost model: map<Ptr, Tree>) returns (r: Ptr, ghost steps: nat)
    requires Consistent(m, model) && (n != NULL ==> n in m.cells)
    ensures !Member(model, n) ==> r == NULL
    ensures forall t | t in model && n in Nodes(model[t]) ::
              && n in Inorder(model[t]) && r == Following(Inorder(model[t]), n) && steps <= Height(model[t])
              && Walked(model[t], Depth(Locate(Root, model[t], n).ctx), r, steps)
  {
    MemberLinked(m, model, n);
    if !IsLinked(m, n) { return NULL, 0; }
    ghost var t :| t in model && n in Nodes(model[t]);
    ghost var z := Locate(Root, model[t], n);
    MemberFocus(m, model, n, t);
    OneTree(model, n, t);
    r, steps := NextOf(m, n, z.ctx, z.sub, t);
  }

  /** `c_rbnode_prev`. */
  method Prev(m: Mem, n: Ptr, ghost model: map<Ptr, Tree>) returns (r: Ptr, ghost steps: nat)
    requires Consistent(m, model) && (n != NULL ==> n in m.cells)
    ensures !Member(model, n) ==> r == NULL
    ensures forall t | t in model && n in Nodes(model[t]) ::
              && n in Inorder(model[t]) && r == Preceding(Inorder(model[t]), n) && steps <= Height(model[t])
              && Walked(model[t], Depth(Locate(Root, model[t], n).ctx), r, steps)
  {
    MemberLinked(m, model, n);
    if !IsLinked(m, n) { return NULL, 0; }
    ghost var t :| t in model && n in Nodes(model[t]);
    ghost var z := Locate(Root, model[t], n);
    MemberFocus(m, model, n, t);
    OneTree(model, n, t);
    r, steps := PrevOf(m, n, z.ctx, z.sub, t);
  }

  /** `c_rbtree_first`. */
  method First(m: Mem, t: Ptr, ghost model: map<Ptr, Tree>) returns (r: Ptr, ghost steps: nat)
    requires Consistent(m, model) && t in model
    ensures r == FirstOr(Inorder(model[t])) && steps <= Height(model[t])
    ensures r != NULL ==> LiesAt(model[t], r, steps)
  {
    assert Holds(m, t, model[t]);
    r, steps := Leftmost(m, m.roots[t], model[t], HoleWord(Root, t));
  }

  /** `c_rbtree_last`. */
  method Last(m: Mem, t: Ptr, ghost model: map<Ptr, Tree>) returns (r: Ptr, ghost steps: nat)
    requires Consistent(m, model) && t in model
    ensures r == LastOr(Inorder(model[t])) && steps <= Height(model[t])
    ensures r != NULL ==> LiesAt(model[t], r, steps)
  {
    assert Holds(m, t, model[t]);
    r, steps := Rightmost(m, m.roots[t], model[t], HoleWord(Root, t));
  }
}
