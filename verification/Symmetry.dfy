/**
 * Left and right are alike: what painting and rebalancing do to the mirror image of a tree is the
 * mirror image of what they do to the tree.
 */
module Symmetry {
  import opened Structs
  import opened Trees
  import opened PaintSpec
  import opened RebalanceSpec

  function Mirror(t: Tree): Tree {
    if t.Leaf? then Leaf else Node(Mirror(t.right), t.node, t.red, Mirror(t.left))
  }

  function MirrorCtx(c: Ctx): Ctx {
    match c
    case Root => Root
    case In(side, n, red, sib, up) => In(Flip(side), n, red, Mirror(sib), MirrorCtx(up))
  }

  lemma MirrorJoin(side: Side, near: Tree, n: Ptr, red: bool, far: Tree)
    ensures Mirror(Join(side, near, n, red, far)) == Join(Flip(side), Mirror(near), n, red, Mirror(far))
  {
  }

  lemma MirrorParts(side: Side, t: Tree)
    ensures IsRed(Mirror(t)) == IsRed(t) && Mirror(Blacken(t)) == Blacken(Mirror(t)) && (Mirror(t).Leaf? <==> t.Leaf?)
    ensures t.Node? ==> Mirror(t).node == t.node && Mirror(t.(red := true)) == Mirror(t).(red := true)
    ensures t.Node? ==> Near(Flip(side), Mirror(t)) == Mirror(Near(side, t))
    ensures t.Node? ==> Far(Flip(side), Mirror(t)) == Mirror(Far(side, t))
  {
  }

  lemma {:induction false} MirrorPlug(c: Ctx, t: Tree)
    ensures Mirror(Plug(c, t)) == Plug(MirrorCtx(c), Mirror(t))
    decreases c
  {
    if c.In? {
      MirrorJoin(c.side, t, c.node, c.red, c.sib);
      MirrorPlug(c.up, Join(c.side, t, c.node, c.red, c.sib));
    }
  }

  /** The mirror image of a tree lists the same nodes backwards. */
  lemma {:induction false} MirrorOrder(t: Tree)
    ensures var s, s' := Inorder(t), Inorder(Mirror(t));
            |s'| == |s| && forall i | 0 <= i < |s| :: s'[i] == s[|s| - 1 - i]
  {
    if t.Node? {
      MirrorOrder(t.left);
      MirrorOrder(t.right);
    }
  }

  /** The mirror image of a balanced tree is balanced, with the same black height. */
  lemma {:induction false} MirrorRB(t: Tree)
    requires RB(t)
    ensures RB(Mirror(t)) && H(Mirror(t)) == H(t)
  {
    if t.Node? {
      MirrorRB(t.left);
      MirrorRB(t.right);
      MirrorParts(L, t.left);
      MirrorParts(L, t.right);
    }
  }

  lemma MirrorRotated(c: Ctx, t: Tree)
    requires t.Node? && c.In? && c.up.In?
    ensures Mirror(t).Node? && MirrorCtx(c).In? && MirrorCtx(c).up.In?
    ensures PaintTerminated(MirrorCtx(c), Mirror(t)) == Mirror(PaintTerminated(c, t))
  {
    var ps, gside, g, u := c.sib, c.up.side, c.up.node, c.up.sib;
    MirrorParts(gside, t);
    if c.side == gside {
      MirrorParts(gside, ps);
      MirrorJoin(gside, Blacken(ps), g, true, u);
      MirrorJoin(gside, t, c.node, false, Join(gside, Blacken(ps), g, true, u));
    } else {
      MirrorParts(gside, Far(gside, t));
      MirrorJoin(gside, ps, c.node, true, Near(gside, t));
      MirrorJoin(gside, Blacken(Far(gside, t)), g, true, u);
      var near, far := Join(gside, ps, c.node, true, Near(gside, t)), Join(gside, Blacken(Far(gside, t)), g, true, u);
      MirrorJoin(gside, near, t.node, false, far);
    }
  }

  /** Insertion treats left and right alike, at every level of its recolouring and in both rotations. */
  lemma {:induction false} PaintedMirror(c: Ctx, t: Tree)
    requires t.Node?
    ensures Painted(MirrorCtx(c), Mirror(t)) == Mirror(Painted(c, t))
    decreases c
  {
    MirrorParts(L, t);
    if c.In? {
      if !c.red || c.up.Root? {
        MirrorPlug(c, t);
      } else if IsRed(c.up.sib) {
        MirrorParts(L, c.up.sib);
        MirrorJoin(c.side, t, c.node, false, c.sib);
        MirrorJoin(c.up.side, Join(c.side, t, c.node, false, c.sib), c.up.node, true, Blacken(c.up.sib));
        PaintedMirror(c.up.up, Lifted(c, t));
      } else {
        MirrorParts(L, c.up.sib);
        MirrorRotated(c, t);
        MirrorPlug(c.up.up, PaintTerminated(c, t));
      }
    }
  }

  lemma MirrorSibling(side: Side, t: Tree, p: Ptr, pred: bool, s: Tree)
    requires s.Node?
    ensures BlackSibling(Flip(side), Mirror(t), p, pred, Mirror(s)) == Mirror(BlackSibling(side, t, p, pred, s))
  {
    var near, far := Near(side, s), Far(side, s);
    MirrorParts(side, s);
    MirrorParts(side, near);
    MirrorParts(side, far);
    if IsRed(far) {
      MirrorJoin(side, t, p, false, near);
      MirrorJoin(side, Join(side, t, p, false, near), s.node, pred, Blacken(far));
    } else if IsRed(near) {
      var b, a := Join(side, Blacken(Far(side, near)), s.node, s.red, far), Near(side, near);
      MirrorParts(side, Far(side, near));
      MirrorJoin(side, Blacken(Far(side, near)), s.node, s.red, far);
      MirrorParts(side, b);
      MirrorJoin(side, t, p, false, a);
      MirrorJoin(side, Join(side, t, p, false, a), near.node, pred, Blacken(b));
    } else {
      MirrorJoin(side, t, p, false, s.(red := true));
    }
  }

  lemma MirrorTerminal(side: Side, t: Tree, p: Ptr, pred: bool, s: Tree)
    requires s.Node? && (s.red ==> Near(side, s).Node?)
    ensures Mirror(s).Node? && (Mirror(s).red ==> Near(Flip(side), Mirror(s)).Node?)
    ensures Terminal(Flip(side), Mirror(t), p, pred, Mirror(s)) == Mirror(Terminal(side, t, p, pred, s))
  {
    MirrorParts(side, s);
    if s.red {
      var near := Near(side, s);
      MirrorParts(side, near);
      MirrorSibling(side, t, p, true, Blacken(near));
      MirrorJoin(side, BlackSibling(side, t, p, true, Blacken(near)), s.node, false, Far(side, s));
    } else {
      MirrorSibling(side, t, p, pred, s);
    }
  }

  lemma MirrorAllBlack(s: Tree)
    ensures AllBlack(Mirror(s)) == AllBlack(s)
  {
  }

  /** Removal treats left and right alike, in its loop and in every rotation. */
  lemma {:induction false} RebalancedMirror(c: Ctx, t: Tree)
    ensures Rebalanced(MirrorCtx(c), Mirror(t)) == Mirror(Rebalanced(c, t))
    decreases c
  {
    if c.In? {
      MirrorAllBlack(c.sib);
      MirrorParts(c.side, c.sib);
      if AllBlack(c.sib) {
        MirrorJoin(c.side, t, c.node, false, c.sib.(red := true));
        if c.red { MirrorPlug(c.up, Recoloured(c, t)); } else { RebalancedMirror(c.up, Recoloured(c, t)); }
      } else if c.sib.Leaf? || (c.sib.red && Near(c.side, c.sib).Leaf?) {
        if c.sib.Node? { MirrorParts(c.side, Near(c.side, c.sib)); }
        MirrorPlug(c, t);
      } else {
        MirrorTerminal(c.side, t, c.node, c.red, c.sib);
        MirrorPlug(c.up, Terminal(c.side, t, c.node, c.red, c.sib));
      }
    }
  }
}
