/** Logarithmic bounds, and the number of rotations. */
module Bounds {
  import opened Structs
  import opened Trees
  import opened PaintSpec
  import opened RebalanceSpec
  import opened Walks
  import opened Traversals

  function Pow2(n: nat): (p: nat)
    ensures p > 0
  {
    if n == 0 then 1 else 2 * Pow2(n - 1)
  }

  lemma {:induction false} Pow2Grows(n: nat)
    ensures n < Pow2(n) && Pow2(n + 1) == 2 * Pow2(n) && Pow2(0) == 1
  {
    if n > 0 { Pow2Grows(n - 1); }
  }

  lemma {:induction false} Pow2Add(a: nat, b: nat)
    ensures Pow2(a + b) == Pow2(a) * Pow2(b)
  {
    if a > 0 { Pow2Add(a - 1, b); }
  }

  lemma {:induction false} Pow2Monotone(a: nat, b: nat)
    requires a <= b
    ensures Pow2(a) <= Pow2(b)
  {
    if a < b { Pow2Monotone(a, b - 1); }
  }

  lemma SquareMonotone(a: nat, b: nat)
    requires a <= b
    ensures a * a <= b * b
  {
  }

  /** A tree of black height h has at least 2^h - 1 nodes, and no path longer than 2h, plus one for a red root. */
  lemma {:induction false} BlackHeight(t: Tree)
    requires RB(t)
    ensures Pow2(H(t)) <= Size(t) + 1
    ensures Height(t) <= 2 * H(t) + if IsRed(t) then 1 else 0
  {
    if t.Node? {
      BlackHeight(t.left);
      BlackHeight(t.right);
    }
  }

  lemma Pow2Square(h: nat, k: nat, n: nat)
    requires h <= k + k && Pow2(k) <= n
    ensures Pow2(h) <= n * n
  {
    Pow2Monotone(h, k + k);
    Pow2Add(k, k);
    SquareMonotone(Pow2(k), n);
  }

  /** Height is at most 2 log2(n + 1): both sides of 2^height <= (n + 1)^2 raised from that inequality. */
  lemma HeightLogarithmic(t: Tree)
    requires Valid(t)
    ensures Pow2(Height(t)) <= (Size(t) + 1) * (Size(t) + 1)
  {
    BlackHeight(t);
    Pow2Square(Height(t), H(t), Size(t) + 1);
  }

  lemma {:induction false} PaintStepsDepth(c: Ctx)
    ensures 2 * PaintSteps(c) <= Depth(c)
  {
    if c.In? && c.up.In? { PaintStepsDepth(c.up.up); }
  }

  lemma {:induction false} RebalanceStepsDepth(c: Ctx)
    ensures RebalanceSteps(c) <= Depth(c)
  {
    if c.In? { RebalanceStepsDepth(c.up); }
  }

  /** The insertion loop climbs two levels at a time. */
  lemma LinkStepsBounded(c: Ctx)
    ensures 2 * PaintSteps(c) <= Height(Plug(c, Leaf))
  {
    PaintStepsDepth(c);
    DepthHeight(c, Leaf);
  }

  lemma {:induction false} MinDepth(r: Tree, up: Ctx)
    requires r.Node?
    ensures Depth(MinCtx(r, up)) < Depth(up) + Height(r)
    decreases r
  {
    if r.left.Node? { MinDepth(r.left, In(L, r.node, r.red, r.right, up)); }
  }

  /** The removal loop, wherever it starts, stays within the height of the tree. */
  lemma UnlinkStepsBounded(c: Ctx, t: Tree)
    requires t.Node?
    ensures RemovedSteps(c, t) <= Height(Plug(c, t))
  {
    RebalanceStepsDepth(Vacated(c, t));
    DepthHeight(c, t);
    if t.left.Node? && t.right.Node? {
      MinDepth(t.right, In(R, Min(t.right).node, t.red, t.left, c));
    }
  }

  // ----- Rotations -----

  /** The tree without its colours. */
  function Shape(t: Tree): Tree {
    if t.Leaf? then Leaf else Node(Shape(t.left), t.node, false, Shape(t.right))
  }

  /** Two trees with the same shape differ in colours at most: same order, same height, same subtrees. */
  lemma {:induction false} SameShape(t: Tree, u: Tree)
    requires Shape(t) == Shape(u)
    ensures Inorder(t) == Inorder(u) && Height(t) == Height(u) && Top(t) == Top(u)
    ensures t.Node? ==> u.Node? && Shape(t.left) == Shape(u.left) && Shape(t.right) == Shape(u.right)
  {
    if t.Node? {
      SameShape(t.left, u.left);
      SameShape(t.right, u.right);
    }
  }

  lemma JoinShape(side: Side, near: Tree, n: Ptr, red: bool, far: Tree)
    ensures Shape(Join(side, near, n, red, far)) == Join(side, Shape(near), n, false, Shape(far))
  {
  }

  lemma BlackenShape(t: Tree)
    ensures Shape(Blacken(t)) == Shape(t)
  {
  }

  /** One rotation: the `side` child of the root, if there is one, moves up in its place. */
  function Rotate(side: Side, t: Tree): Tree {
    if t.Leaf? || Near(side, t).Leaf? then t
    else
      var n := Near(side, t);
      Join(side, Near(side, n), n.node, false, Join(side, Far(side, n), t.node, false, Far(side, t)))
  }

  /** A rotation keeps the order, and the opposite rotation takes it back. */
  lemma RotateBack(side: Side, t: Tree)
    requires t.Node? && Near(side, t).Node?
    ensures Inorder(Rotate(side, t)) == Inorder(t) && Shape(Rotate(Flip(side), Rotate(side, t))) == Shape(t)
    ensures Top(Rotate(side, t)) == Near(side, t).node
  {
    var n := Near(side, t);
    if side == L {
      SeqRegroup(Inorder(n.left), n.node, Inorder(n.right), t.node, Inorder(t.right));
    } else {
      SeqRegroup(Inorder(t.left), t.node, Inorder(n.left), n.node, Inorder(n.right));
    }
  }

  /** Replacing the `side` child. */
  function WithNear(side: Side, t: Tree, near: Tree): Tree
    requires t.Node?
  {
    Join(side, near, t.node, t.red, Far(side, t))
  }

  /** Two rotations: first the `side` child is rotated the other way, then the root. */
  function RotateTwice(side: Side, t: Tree): Tree
    requires t.Node?
  {
    Rotate(side, WithNear(side, t, Rotate(Flip(side), Near(side, t))))
  }

  /** The grandparent's subtree before Case 4. */
  function Grandparent(c: Ctx, t: Tree): (g: Tree)
    requires c.In? && c.up.In?
    ensures g.Node?
  {
    Join(c.up.side, Join(c.side, t, c.node, c.red, c.sib), c.up.node, c.up.red, c.up.sib)
  }

  /** Colours aside, Case 4 is one rotation at the grandparent, preceded by one at the parent in the bent case. */
  lemma InsertionRotations(c: Ctx, t: Tree)
    requires c.In? && c.up.In? && t.Node?
    ensures var s := Shape(Grandparent(c, t));
            Shape(PaintTerminated(c, t)) == if c.side == c.up.side then Rotate(c.side, s) else RotateTwice(c.up.side, s)
  {
    var gside, g, u, ps := c.up.side, c.up.node, c.up.sib, c.sib;
    JoinShape(gside, Join(c.side, t, c.node, c.red, ps), g, c.up.red, u);
    JoinShape(c.side, t, c.node, c.red, ps);
    if c.side == gside {
      BlackenShape(ps);
      JoinShape(gside, Blacken(ps), g, true, u);
      JoinShape(gside, t, c.node, false, Join(gside, Blacken(ps), g, true, u));
    } else {
      BlackenShape(Far(gside, t));
      JoinShape(gside, ps, c.node, true, Near(gside, t));
      JoinShape(gside, Blacken(Far(gside, t)), g, true, u);
      var near, far := Join(gside, ps, c.node, true, Near(gside, t)), Join(gside, Blacken(Far(gside, t)), g, true, u);
      JoinShape(gside, near, t.node, false, far);
    }
  }

  /** Rotations at a parent whose sibling subtree is black: none, Case 6, or Case 5 and Case 6. */
  function SiblingRotated(side: Side, s: Tree, p: Tree): Tree
    requires p.Node? && s.Node?
  {
    if IsRed(Far(side, s)) then Rotate(Flip(side), p)
    else if IsRed(Near(side, s)) then RotateTwice(Flip(side), p)
    else p
  }

  lemma SiblingRotations(side: Side, t: Tree, p: Ptr, pred: bool, s: Tree)
    requires s.Node?
    ensures Shape(BlackSibling(side, t, p, pred, s)) == SiblingRotated(side, s, Shape(Join(side, t, p, pred, s)))
  {
    var near, far := Near(side, s), Far(side, s);
    JoinShape(side, t, p, pred, s);
    if IsRed(far) {
      BlackenShape(far);
      JoinShape(side, t, p, false, near);
      JoinShape(side, Join(side, t, p, false, near), s.node, pred, Blacken(far));
    } else if IsRed(near) {
      BlackenShape(Far(side, near));
      JoinShape(side, Blacken(Far(side, near)), s.node, s.red, far);
      JoinShape(side, t, p, false, Near(side, near));
      BlackenShape(Join(side, Blacken(Far(side, near)), s.node, s.red, far));
      JoinShape(side, Join(side, t, p, false, Near(side, near)), near.node, pred,
                Blacken(Join(side, Blacken(Far(side, near)), s.node, s.red, far)));
    } else {
      JoinShape(side, t, p, false, s.(red := true));
    }
  }

  /** Colours aside, the end of a removal is at most three rotations: Case 2 first, if the sibling is red. */
  lemma RemovalRotations(side: Side, t: Tree, p: Ptr, pred: bool, s: Tree)
    requires s.Node? && (s.red ==> Near(side, s).Node?)
    ensures var q, r := Shape(Join(side, t, p, pred, s)), Shape(Terminal(side, t, p, pred, s));
            if s.red then
              var q1 := Rotate(Flip(side), q);
              q1.Node? && Near(side, q1).Node?
              && r == WithNear(side, q1, SiblingRotated(side, Blacken(Near(side, s)), Near(side, q1)))
            else r == SiblingRotated(side, s, q)
  {
    var near, far := Near(side, s), Far(side, s);
    if s.red {
      JoinShape(side, t, p, pred, s);
      BlackenShape(near);
      SiblingRotations(side, t, p, true, Blacken(near));
      JoinShape(side, t, p, true, Blacken(near));
      JoinShape(side, BlackSibling(side, t, p, true, Blacken(near)), s.node, false, far);
    } else {
      SiblingRotations(side, t, p, pred, s);
    }
  }
}
