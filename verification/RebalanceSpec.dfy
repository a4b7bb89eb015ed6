/**
 * What removal computes, as functions on trees: the upward recolouring loop, the terminal
 * rotations (Cases 2 to 6), and the unlinking of a node including the successor swap.
 */
module RebalanceSpec {
  import opened Structs
  import opened Trees

  // ----- Rebalancing -----

  /** The far nephew is red (Case 6); it turns black and the sibling takes the parent's colour. */
  function Case6(side: Side, t: Tree, p: Ptr, pred: bool, near: Tree, s: Ptr, far: Tree): Tree {
    Join(side, Join(side, t, p, false, near), s, pred, Blacken(far))
  }

  /** The sibling `s` is black: Case 6, Case 5 followed by Case 6, or the recolouring Case 3+4. */
  function BlackSibling(side: Side, t: Tree, p: Ptr, pred: bool, s: Tree): Tree
    requires s.Node?
  {
    var near, far := Near(side, s), Far(side, s);
    if IsRed(far) then Case6(side, t, p, pred, near, s.node, far)
    else if IsRed(near) then
      Case6(side, t, p, pred, Near(side, near), near.node,
            Join(side, Blacken(Far(side, near)), s.node, s.red, far))
    else Join(side, t, p, false, s.(red := true))
  }

  /** `c_rbnode_rebalance_terminal` at the parent `p`, whose `side` subtree `t` is one black short. */
  function Terminal(side: Side, t: Tree, p: Ptr, pred: bool, s: Tree): Tree
    requires s.Node? && (s.red ==> Near(side, s).Node?)
  {
    if s.red then
      Join(side, BlackSibling(side, t, p, true, Blacken(Near(side, s))), s.node, false, Far(side, s))
    else
      BlackSibling(side, t, p, pred, s)
  }

  /** The subtree at the parent after the rotations, when the hole of `c` holds `t`. */
  function Terminated(c: Ctx, t: Tree): Tree
    requires c.In? && c.sib.Node? && (c.sib.red ==> Near(c.side, c.sib).Node?)
  {
    Terminal(c.side, t, c.node, c.red, c.sib)
  }

  /** The loop may recolour at this sibling: it is black and so are both its children. */
  predicate AllBlack(s: Tree) {
    s.Node? && !s.red && !IsRed(s.left) && !IsRed(s.right)
  }

  /** The whole tree after `c_rbnode_rebalance`, when the hole of `c` holds `t` and is one black short. */
  function Rebalanced(c: Ctx, t: Tree): Tree
    decreases c
  {
    match c
    case Root => t
    case In(side, p, pred, s, up) =>
      if AllBlack(s) then
        var r := Recoloured(c, t);
        if pred then Plug(up, r) else Rebalanced(up, r)
      else if s.Leaf? || (s.red && Near(side, s).Leaf?) then Plug(c, t)
      else Plug(up, Terminal(side, t, p, pred, s))
  }

  /** Case 3+4: the sibling turns red and the parent black. */
  function Recoloured(c: Ctx, t: Tree): (r: Tree)
    requires c.In? && c.sib.Node?
    ensures r.Node?
  {
    Join(c.side, t, c.node, false, c.sib.(red := true))
  }

  /** Iterations of the loop that recolour. */
  function RebalanceSteps(c: Ctx): nat {
    if c.In? && AllBlack(c.sib) then 1 + if c.red then 0 else RebalanceSteps(c.up) else 0
  }

  /** The whole tree is fine except that every path through the hole is one black node short. */
  predicate Deficient(c: Ctx, t: Tree) {
    RB(t) && !IsRed(t) && CtxRB(c, H(t) + 1)
  }

  lemma BlackSiblingInorder(side: Side, t: Tree, p: Ptr, pred: bool, s: Tree)
    requires s.Node?
    ensures Inorder(BlackSibling(side, t, p, pred, s)) == Inorder(Join(side, t, p, pred, s))
  {
    var near, far := Near(side, s), Far(side, s);
    var a, b, d := Inorder(t), Inorder(near), Inorder(far);
    assert Inorder(Blacken(far)) == d;
    if !IsRed(far) && IsRed(near) {
      var e, f := Inorder(Near(side, near)), Inorder(Far(side, near));
      assert Inorder(Blacken(Far(side, near))) == f;
      if side == L {
        SeqRegroup(a + [p] + e, near.node, f, s.node, d);
        SeqRegroup(a, p, e, near.node, f);
        SeqRegroup(a, p, b, s.node, d);
      } else {
        SeqRegroup(d, s.node, f, near.node, e + [p] + a);
        SeqRegroup(f, near.node, e, p, a);
        SeqRegroup(d, s.node, b, p, a);
      }
    } else if IsRed(far) {
      if side == L {
        SeqRegroup(a, p, b, s.node, d);
      } else {
        SeqRegroup(d, s.node, b, p, a);
      }
    }
  }

  lemma TerminalInorder(side: Side, t: Tree, p: Ptr, pred: bool, s: Tree)
    requires s.Node? && (s.red ==> Near(side, s).Node?)
    ensures Inorder(Terminal(side, t, p, pred, s)) == Inorder(Join(side, t, p, pred, s))
  {
    if s.red {
      var near := Near(side, s);
      BlackSiblingInorder(side, t, p, true, Blacken(near));
      assert Inorder(Blacken(near)) == Inorder(near);
      if side == L {
        SeqRegroup(Inorder(t), p, Inorder(near), s.node, Inorder(Far(side, s)));
      } else {
        SeqRegroup(Inorder(Far(side, s)), s.node, Inorder(near), p, Inorder(t));
      }
    } else {
      BlackSiblingInorder(side, t, p, pred, s);
    }
  }

  /** A black sibling subtree with some red nephew, or a red parent, absorbs the missing black. */
  lemma BlackSiblingRB(side: Side, t: Tree, p: Ptr, pred: bool, s: Tree)
    requires s.Node? && !s.red && RB(s) && H(s) == H(t) + 1 && RB(t) && !IsRed(t)
    requires AllBlack(s) ==> pred
    ensures var r := BlackSibling(side, t, p, pred, s);
            RB(r) && H(r) == H(t) + (if pred then 1 else 2) && (IsRed(r) ==> pred)
  {
    var near, far := Near(side, s), Far(side, s);
    BlackenRB(far);
    JoinRB(side, t, p, false, near);
    if IsRed(far) {
      JoinRB(side, Join(side, t, p, false, near), s.node, pred, Blacken(far));
    } else if IsRed(near) {
      var a, b := Near(side, near), Far(side, near);
      BlackenRB(b);
      JoinRB(side, t, p, false, a);
      JoinRB(side, b, s.node, false, far);
      JoinRB(side, Join(side, t, p, false, a), near.node, pred, Join(side, b, s.node, false, far));
    } else {
      JoinRB(side, t, p, false, s.(red := true));
    }
  }

  /** The terminal step restores the black height the parent had, without a red edge above or below. */
  lemma TerminalRB(c: Ctx, t: Tree)
    requires Deficient(c, t) && c.In? && !AllBlack(c.sib)
    ensures c.sib.Node? && (c.sib.red ==> Near(c.side, c.sib).Node?)
    ensures var r := Terminal(c.side, t, c.node, c.red, c.sib);
            RB(r) && CtxRB(c.up, H(r)) && (IsRed(r) ==> AllowsRed(c.up))
  {
    var side, p, s := c.side, c.node, c.sib;
    if s.red {
      var near, far := Near(side, s), Far(side, s);
      BlackenRB(near);
      BlackSiblingRB(side, t, p, true, Blacken(near));
      JoinRB(side, BlackSibling(side, t, p, true, Blacken(near)), s.node, false, far);
    } else {
      BlackSiblingRB(side, t, p, c.red, s);
    }
  }

  lemma RecolouredRB(c: Ctx, t: Tree)
    requires Deficient(c, t) && c.In? && AllBlack(c.sib)
    ensures var r := Recoloured(c, t);
            && RB(r) && !IsRed(r)
            && (if c.red then CtxRB(c.up, H(r)) else Deficient(c.up, r))
  {
  }

  lemma {:induction false} RebalancedInorder(c: Ctx, t: Tree)
    ensures Inorder(Rebalanced(c, t)) == Inorder(Plug(c, t))
    decreases c
  {
    if c.In? {
      var sub := Join(c.side, t, c.node, c.red, c.sib);
      if AllBlack(c.sib) {
        assert Inorder(c.sib.(red := true)) == Inorder(c.sib);
        PlugSame(c.up, Recoloured(c, t), sub);
        RebalancedInorder(c.up, Recoloured(c, t));
      } else if c.sib.Node? && (c.sib.red ==> Near(c.side, c.sib).Node?) {
        TerminalInorder(c.side, t, c.node, c.red, c.sib);
        PlugSame(c.up, Terminal(c.side, t, c.node, c.red, c.sib), sub);
      }
    }
  }

  /** Rebalancing pays the missing black node back, wherever the hole is. */
  lemma {:induction false} RebalancedRB(c: Ctx, t: Tree)
    requires Deficient(c, t)
    ensures RB(Rebalanced(c, t)) && !IsRed(Rebalanced(c, t))
    decreases c
  {
    if c.In? {
      if AllBlack(c.sib) {
        RecolouredRB(c, t);
        if c.red { PlugRB(c.up, Recoloured(c, t)); } else { RebalancedRB(c.up, Recoloured(c, t)); }
      } else {
        TerminalRB(c, t);
        PlugRB(c.up, Terminal(c.side, t, c.node, c.red, c.sib));
      }
    }
  }

  // ----- Unlinking -----

  /** The context of the leftmost node of `r`, when `r` sits in the hole of `up`. */
  function MinCtx(r: Tree, up: Ctx): Ctx
    requires r.Node?
    decreases r
  {
    if r.left.Leaf? then up else MinCtx(r.left, In(L, r.node, r.red, r.right, up))
  }

  function Min(r: Tree): (m: Tree)
    requires r.Node?
    ensures m.Node? && m.left.Leaf? && m.node in Nodes(r)
  {
    if r.left.Leaf? then r else Min(r.left)
  }

  /** The hole that the node physically leaves: its own place or, with two children, its successor's. */
  function Vacated(c: Ctx, t: Tree): Ctx
    requires t.Node?
  {
    if t.left.Leaf? || t.right.Leaf? then c
    else MinCtx(t.right, In(R, Min(t.right).node, t.red, t.left, c))
  }

  /** The node (its colour, its only child) that physically goes away. */
  function Victim(t: Tree): (v: Tree)
    requires t.Node?
    ensures v.Node? && (v.left.Leaf? || v.right.Leaf?)
  {
    if t.left.Leaf? || t.right.Leaf? then t else Min(t.right)
  }

  function OnlyChild(v: Tree): Tree
    requires v.Node?
  {
    if v.left.Leaf? then v.right else v.left
  }

  /** The whole tree after unlinking the root node of the subtree `t` in context `c`. */
  function Removed(c: Ctx, t: Tree): Tree
    requires t.Node?
  {
    var v := Victim(t);
    if OnlyChild(v).Node? then Plug(Vacated(c, t), Blacken(OnlyChild(v)))
    else if v.red then Plug(Vacated(c, t), Leaf)
    else Rebalanced(Vacated(c, t), Leaf)
  }

  function RemovedSteps(c: Ctx, t: Tree): nat
    requires t.Node?
  {
    var v := Victim(t);
    if OnlyChild(v).Leaf? && !v.red then RebalanceSteps(Vacated(c, t)) else 0
  }

  lemma {:induction false} MinPlug(r: Tree, up: Ctx)
    requires r.Node?
    ensures Plug(MinCtx(r, up), Min(r)) == Plug(up, r)
    decreases r
  {
    if r.left.Node? {
      MinPlug(r.left, In(L, r.node, r.red, r.right, up));
    }
  }

  /** The hole of the leftmost node has nothing before it inside `r`. */
  lemma {:induction false} MinCtxBefore(r: Tree, up: Ctx)
    requires r.Node?
    ensures Before(MinCtx(r, up)) == Before(up)
    ensures Inorder(r) + After(up) == [Min(r).node] + (Inorder(Min(r).right) + After(MinCtx(r, up)))
    decreases r
  {
    if r.left.Node? {
      var up' := In(L, r.node, r.red, r.right, up);
      MinCtxBefore(r.left, up');
      assert Inorder(r) + After(up) == Inorder(r.left) + ([r.node] + Inorder(r.right) + After(up));
    } else {
      assert Inorder(r) == [r.node] + Inorder(r.right);
    }
  }

  lemma {:induction false} MinCtxRB(r: Tree, up: Ctx)
    requires r.Node?
    requires RB(r) && CtxRB(up, H(r)) && (IsRed(r) ==> AllowsRed(up))
    ensures RB(Min(r)) && CtxRB(MinCtx(r, up), H(Min(r))) && (IsRed(Min(r)) ==> AllowsRed(MinCtx(r, up)))
    decreases r
  {
    if r.left.Node? {
      MinCtxRB(r.left, In(L, r.node, r.red, r.right, up));
    }
  }

  lemma SeqMoveHole<T>(b: seq<T>, l: seq<T>, r: seq<T>, a: seq<T>, v: T, o: seq<T>, h: seq<T>)
    requires r + a == [v] + (o + h)
    ensures b + l + [v] + o + h == b + (l + r) + a
  {
    assert b + l + [v] + o + h == b + l + ([v] + (o + h));
    assert b + (l + r) + a == b + l + (r + a);
  }

  /** Seen from the hole that is vacated, the removed node is exactly what is missing. */
  lemma VacatedInorder(c: Ctx, t: Tree)
    requires t.Node?
    ensures Before(Vacated(c, t)) + Inorder(OnlyChild(Victim(t))) + After(Vacated(c, t))
         == Before(c) + (Inorder(t.left) + Inorder(t.right)) + After(c)
  {
    if t.left.Node? && t.right.Node? {
      var v := Min(t.right);
      var up := In(R, v.node, t.red, t.left, c);
      MinCtxBefore(t.right, up);
      assert After(up) == After(c);
      SeqMoveHole(Before(c), Inorder(t.left), Inorder(t.right), After(c), v.node, Inorder(v.right),
                  After(MinCtx(t.right, up)));
    } else {
      assert Inorder(t.left) + Inorder(t.right) == Inorder(OnlyChild(t));
    }
  }

  /** Unlinking takes exactly the one node out of the in-order sequence, whatever the tree looks like. */
  lemma RemovedInorder(c: Ctx, t: Tree)
    requires t.Node?
    ensures Inorder(Removed(c, t)) == Before(c) + (Inorder(t.left) + Inorder(t.right)) + After(c)
  {
    var h, o := Vacated(c, t), OnlyChild(Victim(t));
    VacatedInorder(c, t);
    assert Inorder(Blacken(o)) == Inorder(o);
    if o.Node? {
      PlugInorder(h, Blacken(o));
    } else {
      PlugInorder(h, Leaf);
      RebalancedInorder(h, Leaf);
    }
  }

  /** The node that physically goes away fits its place. */
  lemma VacatedRB(c: Ctx, t: Tree)
    requires t.Node? && RB(Plug(c, t)) && !IsRed(Plug(c, t))
    ensures var v, h := Victim(t), Vacated(c, t);
            RB(v) && CtxRB(h, H(v)) && (IsRed(v) ==> AllowsRed(h))
  {
    PlugRB(c, t);
    if t.left.Node? && t.right.Node? {
      MinCtxRB(t.right, In(R, Min(t.right).node, t.red, t.left, c));
    }
  }

  /** Unlinking keeps every red-black invariant. */
  lemma RemovedRB(c: Ctx, t: Tree)
    requires t.Node? && RB(Plug(c, t)) && !IsRed(Plug(c, t))
    ensures RB(Removed(c, t)) && !IsRed(Removed(c, t))
  {
    var v, h := Victim(t), Vacated(c, t);
    VacatedRB(c, t);
    var o := OnlyChild(v);
    BlackenRB(o);
    PlugRB(h, Blacken(o));
    if o.Leaf? && !v.red { RebalancedRB(h, Leaf); }
  }

  /** Unlinking keeps every invariant, and takes out exactly the one node. */
  lemma RemovedValid(c: Ctx, t: Tree)
    requires t.Node? && Valid(Plug(c, t))
    ensures Valid(Removed(c, t)) && Nodes(Removed(c, t)) == Nodes(Plug(c, t)) - {t.node}
    ensures Inorder(Plug(c, t)) == (Before(c) + Inorder(t.left)) + [t.node] + (Inorder(t.right) + After(c))
    ensures Inorder(Removed(c, t)) == (Before(c) + Inorder(t.left)) + (Inorder(t.right) + After(c))
  {
    RemovedRB(c, t);
    RemovedInorder(c, t);
    PlugInorder(c, t);
    var a, b := Before(c) + Inorder(t.left), Inorder(t.right) + After(c);
    SplitAround(Before(c), Inorder(t.left), t.node, Inorder(t.right), After(c));
    InorderDistinct(Plug(c, t));
    InorderDistinct(Removed(c, t));
    WithoutOne(a, t.node, b);
    InorderNodes(Plug(c, t));
    InorderNodes(Removed(c, t));
  }

  lemma SplitAround<T>(b: seq<T>, l: seq<T>, n: T, r: seq<T>, a: seq<T>)
    ensures b + (l + [n] + r) + a == (b + l) + [n] + (r + a)
    ensures b + (l + r) + a == (b + l) + (r + a)
  {
  }

  lemma WithoutOne<T>(a: seq<T>, n: T, b: seq<T>)
    requires NoDup(a + [n] + b)
    ensures NoDup(a + b)
    ensures (set x | x in a + b) == (set x | x in a + [n] + b) - {n}
  {
    NoDupParts(a, n, b);
    assert forall i, j | 0 <= i < j < |a + b| :: (a + b)[i] != (a + b)[j];
    assert forall x :: x in a + [n] + b <==> x in a + b || x == n;
  }
}
