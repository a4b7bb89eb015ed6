/** The post-order walks, including those over a tree that is being taken apart. */
module Postorders {
  import opened Structs
  import opened Trees
  import opened Layout
  import opened Walks
  import opened Forests
  import opened Traversals

  /** Post-order nodes before those of the hole. */
  function PostBefore(c: Ctx): seq<Ptr> {
    match c
    case Root => []
    case In(L, n, red, sib, up) => PostBefore(up)
    case In(R, n, red, sib, up) => PostBefore(up) + Postorder(sib)
  }

  /** Post-order nodes after those of the hole. */
  function PostAfter(c: Ctx): seq<Ptr> {
    match c
    case Root => []
    case In(L, n, red, sib, up) => Postorder(sib) + [n] + PostAfter(up)
    case In(R, n, red, sib, up) => [n] + PostAfter(up)
  }

  lemma Regroup<T>(b: seq<T>, s: seq<T>, t: seq<T>, n: T, a: seq<T>)
    ensures b + (t + s + [n]) + a == b + t + (s + [n] + a)
    ensures b + (s + t + [n]) + a == b + s + t + ([n] + a)
  {
  }

  lemma {:induction false} PlugPostorder(c: Ctx, t: Tree)
    ensures Postorder(Plug(c, t)) == PostBefore(c) + Postorder(t) + PostAfter(c)
  {
    match c
    case Root =>
    case In(side, n, red, sib, up) =>
      PlugPostorder(up, Join(side, t, n, red, sib));
      Regroup(PostBefore(up), Postorder(sib), Postorder(t), n, PostAfter(up));
  }

  lemma NoDupConcat<T>(a: seq<T>, b: seq<T>)
    requires NoDup(a) && NoDup(b) && forall x | x in a :: x !in b
    ensures NoDup(a + b)
  {
    var s := a + b;
    forall i, j | 0 <= i < j < |s| ensures s[i] != s[j] {
      assert s[i] == if i < |a| then a[i] else b[i - |a|];
      assert s[j] == if j < |a| then a[j] else b[j - |a|];
      assert i < |a| ==> a[i] in a;
    }
  }

  /** Post-order visits every node exactly once. */
  lemma {:induction false} PostorderNodes(t: Tree)
    ensures Nodes(t) == (set n | n in Postorder(t)) && |Postorder(t)| == Size(t)
    ensures Distinct(t) ==> NoDup(Postorder(t))
  {
    if t.Node? {
      PostorderNodes(t.left);
      PostorderNodes(t.right);
      if Distinct(t) {
        forall x | x in Postorder(t.left) ensures x !in Postorder(t.right) {
          assert x in Nodes(t.left);
        }
        NoDupConcat(Postorder(t.left), Postorder(t.right));
        NoDupConcat(Postorder(t.left) + Postorder(t.right), [t.node]);
      }
    }
  }

  lemma IndexAt(s: seq<Ptr>, i: nat)
    requires NoDup(s) && i < |s|
    ensures s[i] in s && Index(s, s[i]) == i
  {
  }

  lemma Places(a: seq<Ptr>, l: seq<Ptr>, r: seq<Ptr>, n: Ptr, b: seq<Ptr>)
    ensures var s := a + (l + r + [n]) + b;
            && (forall i | 0 <= i < |l| :: s[|a| + i] == l[i])
            && (forall i | 0 <= i < |r| :: s[|a| + |l| + i] == r[i]) && s[|a| + |l| + |r|] == n
  {
  }

  /** The parts of a post-order sequence. */
  lemma PostorderParts(c: Ctx, t: Tree)
    requires t.Node? && Distinct(Plug(c, t))
    ensures Postorder(Plug(c, t)) == PostBefore(c) + (Postorder(t.left) + Postorder(t.right) + [t.node]) + PostAfter(c)
    ensures NoDup(Postorder(Plug(c, t)))
    ensures |Postorder(t.left)| == Size(t.left) && |Postorder(t.right)| == Size(t.right)
    ensures forall x :: x in Nodes(t.left) <==> x in Postorder(t.left)
    ensures forall x :: x in Nodes(t.right) <==> x in Postorder(t.right)
  {
    PlugPostorder(c, t);
    PostorderNodes(Plug(c, t));
    PostorderNodes(t.left);
    PostorderNodes(t.right);
  }

  /** Where a node of one of the parts stands. */
  lemma PlaceIn(a: seq<Ptr>, l: seq<Ptr>, r: seq<Ptr>, n: Ptr, b: seq<Ptr>, side: Side, x: Ptr)
    requires NoDup(a + (l + r + [n]) + b) && x in if side == L then l else r
    ensures var s := a + (l + r + [n]) + b;
            && x in s && n in s && Index(s, n) == |a| + |l| + |r|
            && if side == L then Index(s, x) < |a| + |l| else |a| + |l| <= Index(s, x) < |a| + |l| + |r|
  {
    var s := a + (l + r + [n]) + b;
    Places(a, l, r, n, b);
    IndexAt(s, |a| + |l| + |r|);
    if side == L {
      var i: nat :| i < |l| && l[i] == x;
      IndexAt(s, |a| + i);
    } else {
      var i: nat :| i < |r| && r[i] == x;
      IndexAt(s, |a| + |l| + i);
    }
  }

  /** Where the nodes below `t`, and its root, stand in post-order. */
  lemma PostorderPlace(c: Ctx, t: Tree, side: Side, x: Ptr)
    requires t.Node? && Distinct(Plug(c, t)) && x in Nodes(Near(side, t))
    ensures var s, k := Postorder(Plug(c, t)), |PostBefore(c)| + Size(t.left);
            && x in s && t.node in s && Index(s, t.node) == k + Size(t.right)
            && if side == L then Index(s, x) < k else k <= Index(s, x) < k + Size(t.right)
  {
    PostorderParts(c, t);
    PlaceIn(PostBefore(c), Postorder(t.left), Postorder(t.right), t.node, PostAfter(c), side, x);
  }

  /** In post-order every node comes after all below it, and what is below on the left before what is on the right. */
  lemma PostorderChildrenFirst(c: Ctx, t: Tree)
    requires t.Node? && Distinct(Plug(c, t))
    ensures var s := Postorder(Plug(c, t));
            && t.node in s
            && (forall x | x in Nodes(t.left) + Nodes(t.right) :: x in s && Index(s, x) < Index(s, t.node))
            && forall x, y | x in Nodes(t.left) && y in Nodes(t.right) :: x in s && y in s && Index(s, x) < Index(s, y)
  {
    PostorderAround(c, t);
    forall x | x in Nodes(t.left) { PostorderPlace(c, t, L, x); }
    forall x | x in Nodes(t.right) { PostorderPlace(c, t, R, x); }
  }

  lemma PostorderAround(c: Ctx, t: Tree)
    requires t.Node? && Distinct(Plug(c, t))
    ensures t.node in Postorder(Plug(c, t)) && NoDup(Postorder(Plug(c, t)))
    ensures Following(Postorder(Plug(c, t)), t.node) == FirstOr(PostAfter(c))
    ensures Preceding(Postorder(Plug(c, t)), t.node) == LastOr(PostBefore(c) + Postorder(t.left) + Postorder(t.right))
    ensures From(Postorder(Plug(c, t)), t.node) == [t.node] + PostAfter(c)
  {
    var a, b := PostBefore(c) + Postorder(t.left) + Postorder(t.right), PostAfter(c);
    PlugPostorder(c, t);
    PostorderNodes(Plug(c, t));
    Regroup(PostBefore(c), Postorder(t.left), Postorder(t.right), t.node, b);
    Ahead(a, t.node, b);
  }

  lemma Ahead(a: seq<Ptr>, n: Ptr, b: seq<Ptr>)
    requires NoDup(a + ([n] + b))
    ensures n in a + ([n] + b) && From(a + ([n] + b), n) == [n] + b
    ensures Following(a + ([n] + b), n) == FirstOr(b) && Preceding(a + ([n] + b), n) == LastOr(a)
  {
    assert a + ([n] + b) == a + [n] + b;
    NoDupParts(a, n, b);
    Split(a, n, b);
  }

  /** What is still to come in a walk over `s` that has reached `n`, including `n`. */
  function From(s: seq<Ptr>, n: Ptr): seq<Ptr>
    requires n in s
  {
    s[Index(s, n)..]
  }

  /** What a walk that has reached `n` still has ahead of it is live. */
  ghost predicate AheadLive(model: map<Ptr, Tree>, n: Ptr, live: set<Ptr>) {
    forall t | t in model && n in Nodes(model[t]) ::
      n in Postorder(model[t]) && forall x | x in From(Postorder(model[t]), n) :: x in live
  }

  lemma SiblingAhead(m0: Mem, m: Mem, c: Ctx, t: Tree, tree: Ptr, live: set<Ptr>)
    requires Focus(m0, c, t, tree) && c.In? && Same(m0, m, live) && forall x | x in PostAfter(c) :: x in live
    ensures c.node in live && (c.side == L ==> Rep(m, c.sib, Below(c.node)) && Nodes(c.sib) <= live)
  {
    assert c.node in PostAfter(c);
    if c.side == L {
      PostorderNodes(c.sib);
      assert forall x | x in Postorder(c.sib) :: x in PostAfter(c);
      RepFrame(m0, m, c.sib, Below(c.node));
    }
  }

  lemma SiblingLower(c: Ctx, t: Tree)
    requires c.In?
    ensures Height(c.sib) < Height(Plug(c, t))
  {
    DepthHeight(c.up, Join(c.side, t, c.node, c.red, c.sib));
  }

  /** A walk from depth `k` to the parent, or to depth `k` again and `steps` steps down, or from the root to NULL. */
  ghost predicate WalkedOn(t: Tree, k: nat, r: Ptr, steps: nat) {
    if r == NULL then steps == k == 0 else LiesAt(t, r, k + steps) || (steps == 0 < k && LiesAt(t, r, k - 1))
  }

  /** A walk from depth `k` to a child, or `steps` steps up and over to a sibling, or past the root to NULL. */
  ghost predicate WalkedBack(t: Tree, k: nat, r: Ptr, steps: nat) {
    if r == NULL then steps == k else (steps == 0 && LiesAt(t, r, k + 1)) || (steps <= k && LiesAt(t, r, k - steps))
  }

  /** `c_rbnode_next_postorder` at a linked node: it dereferences that node and later ones only. */
  method NextPostOf(m: Mem, n: Ptr, ghost live: set<Ptr>, ghost m0: Mem, ghost c: Ctx, ghost t: Tree, ghost tree: Ptr)
    returns (r: Ptr, ghost steps: nat)
    requires Focus(m0, c, t, tree) && t.Node? && n == t.node && NULL !in m0.cells
    requires Same(m0, m, live) && n in live && NULL !in live && forall x | x in PostAfter(c) :: x in live
    ensures r == FirstOr(PostAfter(c)) && steps <= Height(Plug(c, t))
    ensures WalkedOn(Plug(c, t), Depth(c), r, steps)
  {
    FocusReads(m0, c, t, tree);
    if c.In? {
      SiblingAhead(m0, m, c, t, tree, live);
      SiblingLower(c, t);
      PostorderNonempty(c.sib);
    }
    r, steps := Load(m, n, live).Parent(), 0;
    if r != NULL && n == Load(m, r, live).left && Load(m, r, live).right != NULL {
      r, steps := Leftdeepest(m, Load(m, r, live).right, c.sib, Below(c.node), live);
      LiesBelow(Other(c, t), c.sib, r, steps);
    } else if c.In? {
      LiesAbove(c, t);
    }
  }

  /** What is known about a member at its own position in post-order. */
  lemma MemberPost(m: Mem, model: map<Ptr, Tree>, n: Ptr, t: Ptr)
    requires Consistent(m, model) && t in model && n in Nodes(model[t])
    ensures var z := Locate(Root, model[t], n);
            && Focus(m, z.ctx, z.sub, t) && z.sub.Node? && z.sub.node == n && Plug(z.ctx, z.sub) == model[t]
            && n in Postorder(model[t]) && From(Postorder(model[t]), n) == [n] + PostAfter(z.ctx)
            && Following(Postorder(model[t]), n) == FirstOr(PostAfter(z.ctx))
            && Preceding(Postorder(model[t]), n)
            == LastOr(PostBefore(z.ctx) + Postorder(z.sub.left) + Postorder(z.sub.right))
  {
    var z := Locate(Root, model[t], n);
    assert Holds(m, t, model[t]);
    LocateFocus(m, t, model[t], n);
    PostorderAround(z.ctx, z.sub);
  }

  /**
   * `c_rbnode_next_postorder`. The trees are those of an earlier memory `m0`; of the nodes, only `live` ones
   * need be as they were, and no other node is dereferenced.
   */
  method NextPostorder(m: Mem, n: Ptr, ghost live: set<Ptr>, ghost m0: Mem, ghost model: map<Ptr, Tree>)
    returns (r: Ptr, ghost steps: nat)
    requires Consistent(m0, model) && Same(m0, m, live) && NULL !in live && (n != NULL ==> n in live)
    requires AheadLive(model, n, live)
    ensures !Member(model, n) ==> r == NULL
    ensures forall t | t in model && n in Nodes(model[t]) ::
              && n in Postorder(model[t]) && r == Following(Postorder(model[t]), n) && steps <= Height(model[t])
              && WalkedOn(model[t], Depth(Locate(Root, model[t], n).ctx), r, steps)
  {
    MemberLinked(m0, model, n);
    if n == NULL || Load(m, n, live).Parent() == n { return NULL, 0; }
    ghost var t :| t in model && n in Nodes(model[t]);
    ghost var z := Locate(Root, model[t], n);
    MemberPost(m0, model, n, t);
    OneTree(model, n, t);
    assert forall x | x in PostAfter(z.ctx) :: x in From(Postorder(model[t]), n);
    r, steps := NextPostOf(m, n, live, m0, z.ctx, z.sub, t);
  }

  lemma LiesHere(c: Ctx, t: Tree)
    requires t.Node?
    ensures t.left.Node? ==> LiesAt(Plug(c, t), t.left.node, Depth(c) + 1)
    ensures t.right.Node? ==> LiesAt(Plug(c, t), t.right.node, Depth(c) + 1)
  {
    var l, r := In(L, t.node, t.red, t.right, c), In(R, t.node, t.red, t.left, c);
    assert Plug(l, t.left) == Plug(c, t) && Plug(r, t.right) == Plug(c, t);
  }

  lemma LiesBeside(c: Ctx, t: Tree)
    requires c.In?
    ensures c.sib.Node? ==> LiesAt(Plug(c, t), c.sib.node, Depth(c))
  {
    assert Plug(Other(c, t), c.sib) == Plug(c, t);
  }

  /** `c_rbnode_prev_postorder` at a linked node. */
  method PrevPostOf(m: Mem, n: Ptr, ghost c: Ctx, ghost t: Tree, ghost tree: Ptr) returns (r: Ptr, ghost steps: nat)
    requires Focus(m, c, t, tree) && t.Node? && n == t.node && NULL !in m.cells
    ensures r == LastOr(PostBefore(c) + Postorder(t.left) + Postorder(t.right)) && steps <= Depth(c)
    ensures WalkedBack(Plug(c, t), Depth(c), r, steps)
  {
    FocusReads(m, c, t, tree);
    PostorderNonempty(t.left);
    PostorderNonempty(t.right);
    steps := 0;
    assert Rep(m, t.left, Below(n)) && Rep(m, t.right, Below(n));
    LiesHere(c, t);
    if m.cells[n].right != NULL { return m.cells[n].right, 0; }
    if m.cells[n].left != NULL { return m.cells[n].left, 0; }
    ghost var d, s := c, t;
    var x := n;
    r := m.cells[x].Parent();
    while r != NULL
      invariant Focus(m, d, s, tree) && s.Node? && s.node == x && r == (if d.Root? then NULL else d.node)
      invariant r != NULL ==> r in m.cells && m.cells[r] == PairNode(d.side, x, Top(d.sib), HoleWord(d.up, tree), d.red)
      invariant r != NULL ==> x != Top(d.sib)
      invariant PostBefore(d) == PostBefore(c) && steps + Depth(d) == Depth(c) && Plug(d, s) == Plug(c, t)
      decreases d
    {
      PostorderNonempty(d.sib);
      if m.cells[r].left != NULL && x != m.cells[r].left {
        LiesBeside(d, s);
        return m.cells[r].left, steps;
      }
      FocusUp(m, d, s, tree);
      d, s, steps := d.up, Join(d.side, s, d.node, d.red, d.sib), steps + 1;
      x := r;
      FocusReads(m, d, s, tree);
      r := m.cells[x].Parent();
    }
  }

  /** `c_rbnode_prev_postorder`. */
  method PrevPostorder(m: Mem, n: Ptr, ghost model: map<Ptr, Tree>) returns (r: Ptr, ghost steps: nat)
    requires Consistent(m, model) && (n != NULL ==> n in m.cells)
    ensures !Member(model, n) ==> r == NULL
    ensures forall t | t in model && n in Nodes(model[t]) ::
              && n in Postorder(model[t]) && r == Preceding(Postorder(model[t]), n) && steps <= Height(model[t])
              && WalkedBack(model[t], Depth(Locate(Root, model[t], n).ctx), r, steps)
  {
    MemberLinked(m, model, n);
    if !IsLinked(m, n) { return NULL, 0; }
    ghost var t :| t in model && n in Nodes(model[t]);
    ghost var z := Locate(Root, model[t], n);
    MemberPost(m, model, n, t);
    DepthHeight(z.ctx, z.sub);
    OneTree(model, n, t);
    r, steps := PrevPostOf(m, n, z.ctx, z.sub, t);
  }

  /** `c_rbtree_first_postorder`. */
  method FirstPostorder(m: Mem, t: Ptr, ghost model: map<Ptr, Tree>) returns (r: Ptr, ghost steps: nat)
    requires Consistent(m, model) && t in model
    ensures r == FirstOr(Postorder(model[t])) && steps <= Height(model[t])
    ensures r != NULL ==> LiesAt(model[t], r, steps)
  {
    assert Holds(m, t, model[t]);
    HoldsDomain(m, t, model[t]);
    r, steps := Leftdeepest(m, m.roots[t], model[t], HoleWord(Root, t), m.cells.Keys);
  }

  /** `c_rbtree_last_postorder`. */
  method LastPostorder(m: Mem, t: Ptr, ghost model: map<Ptr, Tree>) returns (r: Ptr)
    requires Consistent(m, model) && t in model
    ensures r == LastOr(Postorder(model[t]))
  {
    assert Holds(m, t, model[t]);
    PostorderNonempty(model[t]);
    r := m.roots[t];
  }

  /** For every linked node and both orders: one step on and one step back lead to the node again. */
  lemma StepsInvert(m: Mem, model: map<Ptr, Tree>, t: Ptr, n: Ptr, post: bool)
    requires Consistent(m, model) && t in model && n in Nodes(model[t])
    ensures var s := if post then Postorder(model[t]) else Inorder(model[t]);
            && n in s
            && (Following(s, n) != NULL ==> Following(s, n) in s && Preceding(s, Following(s, n)) == n)
            && (Preceding(s, n) != NULL ==> Preceding(s, n) in s && Following(s, Preceding(s, n)) == n)
  {
    assert Holds(m, t, model[t]);
    HoldsDomain(m, t, model[t]);
    InorderNodes(model[t]);
    InorderDistinct(model[t]);
    PostorderNodes(model[t]);
    var s := if post then Postorder(model[t]) else Inorder(model[t]);
    assert NULL !in s && n in s by {
      assert NULL !in Nodes(model[t]);
    }
    RoundTrips(s, n);
  }
}
