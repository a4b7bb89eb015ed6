/**
 * What insertion computes, as a function on trees. Both mirrored arms of the C code
 * are proved (in Insert.dfy) against the one `side`-parametric form given here.
 */
module PaintSpec {
  import opened Structs
  import opened Trees

  /**
   * Case 4. The red node `t` is the `side` child of the red `p`, whose other subtree is
   * `ps`; `p` is the `gside` child of the black `g`, whose other subtree is `u`.
   */
  function PaintRotated(side: Side, t: Tree, p: Ptr, ps: Tree, gside: Side, g: Ptr, u: Tree): (r: Tree)
    requires t.Node?
    ensures r.Node?
  {
    if side == gside then
      Join(gside, t, p, false, Join(gside, Blacken(ps), g, true, u))
    else
      Join(gside, Join(gside, ps, p, true, Near(gside, t)), t.node, false,
           Join(gside, Blacken(Far(gside, t)), g, true, u))
  }

  /** The subtree after Case 4 at the context `c` of the red node `t`. */
  function PaintTerminated(c: Ctx, t: Tree): (r: Tree)
    requires t.Node? && c.In? && c.up.In?
    ensures r.Node?
  {
    PaintRotated(c.side, t, c.node, c.sib, c.up.side, c.up.node, c.up.sib)
  }

  /** The whole tree after `c_rbtree_paint` on the freshly reddened subtree `t` in context `c`. */
  function Painted(c: Ctx, t: Tree): Tree
    requires t.Node?
    decreases c
  {
    match c
    case Root => Blacken(t)
    case In(side, p, pred, ps, up) =>
      if !pred || up.Root? then Plug(c, t)
      else if IsRed(up.sib) then Painted(up.up, Lifted(c, t))
      else Plug(up.up, PaintTerminated(c, t))
  }

  /** Case 3: parent and uncle turn black, the grandparent red. */
  function Lifted(c: Ctx, t: Tree): (r: Tree)
    requires c.In? && c.up.In?
    ensures r.Node?
  {
    Join(c.up.side, Join(c.side, t, c.node, false, c.sib), c.up.node, true, Blacken(c.up.sib))
  }

  /** Iterations of the recolouring loop that reach Case 3. */
  function PaintSteps(c: Ctx): nat {
    if c.In? && c.red && c.up.In? && IsRed(c.up.sib) then 1 + PaintSteps(c.up.up) else 0
  }

  /** A red-rooted subtree may sit in the hole, and the only defect is a red edge at the hole. */
  predicate Paintable(c: Ctx, t: Tree) {
    IsRed(t) && RB(t) && CtxRB(c, H(t))
  }

  lemma LiftedPaintable(c: Ctx, t: Tree)
    requires Paintable(c, t) && c.In? && c.red && c.up.In? && IsRed(c.up.sib)
    ensures Paintable(c.up.up, Lifted(c, t))
  {
    assert CtxRB(c.up, H(t));
    BlackenRB(c.up.sib);
    JoinRB(c.side, t, c.node, false, c.sib);
    JoinRB(c.up.side, Join(c.side, t, c.node, false, c.sib), c.up.node, true, Blacken(c.up.sib));
  }

  lemma RotatedRB(c: Ctx, t: Tree)
    requires Paintable(c, t) && c.In? && c.red && c.up.In? && !IsRed(c.up.sib)
    ensures var r := PaintTerminated(c, t);
            RB(r) && !IsRed(r) && CtxRB(c.up.up, H(r))
  {
    assert CtxRB(c.up, H(t));
    var ps, gside, g, u := c.sib, c.up.side, c.up.node, c.up.sib;
    if c.side == gside {
      BlackenRB(ps);
      JoinRB(gside, Blacken(ps), g, true, u);
      JoinRB(gside, t, c.node, false, Join(gside, Blacken(ps), g, true, u));
    } else {
      var near, far := Join(gside, ps, c.node, true, Near(gside, t)), Join(gside, Blacken(Far(gside, t)), g, true, u);
      BlackenRB(Far(gside, t));
      JoinRB(gside, ps, c.node, true, Near(gside, t));
      JoinRB(gside, Blacken(Far(gside, t)), g, true, u);
      JoinRB(gside, near, t.node, false, far);
    }
  }

  lemma RotatedInorder(side: Side, t: Tree, p: Ptr, pred: bool, ps: Tree, gside: Side, g: Ptr, gred: bool, u: Tree)
    requires t.Node?
    ensures Inorder(PaintRotated(side, t, p, ps, gside, g, u))
         == Inorder(Join(gside, Join(side, t, p, pred, ps), g, gred, u))
  {
    var a, b, d, e := Inorder(t.left), Inorder(t.right), Inorder(ps), Inorder(u);
    assert Inorder(Blacken(ps)) == d && Inorder(Blacken(t.left)) == a && Inorder(Blacken(t.right)) == b;
    match (side, gside) {
      case (L, L) => SeqRegroup(Inorder(t), p, d, g, e);
      case (R, R) => SeqRegroup(e, g, d, p, Inorder(t));
      case (R, L) =>
        SeqRegroup(d + [p] + a, t.node, b, g, e);
        SeqRegroup(d, p, a, t.node, b);
      case (L, R) =>
        SeqRegroup(e + [g] + a, t.node, b, p, d);
        SeqRegroup(e, g, a, t.node, b + [p] + d);
        SeqRegroup(a, t.node, b, p, d);
    }
  }

  /** Painting keeps the in-order sequence, whatever the tree looks like. */
  lemma {:induction false} PaintedInorder(c: Ctx, t: Tree)
    requires t.Node?
    ensures Inorder(Painted(c, t)) == Inorder(Plug(c, t))
    decreases c
  {
    if c.In? && c.red && c.up.In? {
      var sub := Join(c.up.side, Join(c.side, t, c.node, c.red, c.sib), c.up.node, c.up.red, c.up.sib);
      if IsRed(c.up.sib) {
        PaintedInorder(c.up.up, Lifted(c, t));
        PlugSame(c.up.up, Lifted(c, t), sub);
      } else {
        RotatedInorder(c.side, t, c.node, c.red, c.sib, c.up.side, c.up.node, c.up.red, c.up.sib);
        PlugSame(c.up.up, PaintTerminated(c, t), sub);
      }
    }
  }

  /** Painting repairs the one red edge: the result satisfies every red-black invariant. */
  lemma {:induction false} PaintedRB(c: Ctx, t: Tree)
    requires Paintable(c, t)
    ensures RB(Painted(c, t)) && !IsRed(Painted(c, t))
    decreases c
  {
    if c.In? && c.red {
      if IsRed(c.up.sib) {
        LiftedPaintable(c, t);
        PaintedRB(c.up.up, Lifted(c, t));
      } else {
        RotatedRB(c, t);
        PlugRB(c.up.up, PaintTerminated(c, t));
      }
    } else if c.In? {
      PlugRB(c, t);
    }
  }

  // ----- Insertion -----

  /** The whole tree after the node `n` has been linked into the hole of `c` and painted. */
  function Linked(c: Ctx, n: Ptr): Tree {
    Painted(c, Node(Leaf, n, true, Leaf))
  }

  lemma LinkedInorder(c: Ctx, n: Ptr)
    ensures Inorder(Plug(c, Leaf)) == Before(c) + After(c)
    ensures Inorder(Linked(c, n)) == Before(c) + [n] + After(c)
    ensures Nodes(Linked(c, n)) == Nodes(Plug(c, Leaf)) + {n}
  {
    var t := Node(Leaf, n, true, Leaf);
    PaintedInorder(c, t);
    PlugInorder(c, t);
    PlugInorder(c, Leaf);
    assert Inorder(t) == [n];
    PlugNodes(c, Leaf);
    PlugNodes(c, t);
    SameInorder(Painted(c, t), Plug(c, t));
  }

  /** Insertion keeps every invariant. */
  lemma LinkedValid(c: Ctx, n: Ptr)
    requires Valid(Plug(c, Leaf)) && n !in Nodes(Plug(c, Leaf))
    ensures Valid(Linked(c, n))
  {
    var t := Node(Leaf, n, true, Leaf);
    PlugRB(c, Leaf);
    PaintedRB(c, t);
    PaintedInorder(c, t);
    PlugNodes(c, Leaf);
    PlugNodes(c, t);
    SameInorder(Painted(c, t), Plug(c, t));
  }

  /** The slot on the left of a node is just before it in the sequence, the one on the right just after. */
  lemma {:induction false} SlotPosition(c: Ctx)
    requires c.In?
    ensures c.side == L ==> |After(c)| > 0 && After(c)[0] == c.node
    ensures c.side == R ==> |Before(c)| > 0 && Before(c)[|Before(c)| - 1] == c.node
  {
  }
}
