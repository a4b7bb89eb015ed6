/** How often the two upward loops iterate over whole runs of insertions and removals. */
module Amortised {
  import opened Structs
  import opened Trees
  import opened PaintSpec
  import opened RebalanceSpec

  // ----- Insertions only: the potential is the number of red nodes -----

  function Bit(b: bool): nat {
    if b then 1 else 0
  }

  function Reds(t: Tree): nat {
    if t.Leaf? then 0 else Bit(t.red) + Reds(t.left) + Reds(t.right)
  }

  function CtxReds(c: Ctx): nat {
    if c.Root? then 0 else Bit(c.red) + Reds(c.sib) + CtxReds(c.up)
  }

  lemma {:induction false} PlugReds(c: Ctx, t: Tree)
    ensures Reds(Plug(c, t)) == Reds(t) + CtxReds(c)
    decreases c
  {
    if c.In? { PlugReds(c.up, Join(c.side, t, c.node, c.red, c.sib)); }
  }

  lemma BlackenReds(t: Tree)
    ensures Reds(Blacken(t)) == Reds(t) - Bit(IsRed(t))
  {
  }

  /** Each Case 3 step turns two red nodes black and one black node red; nothing else adds red nodes. */
  lemma {:induction false} PaintedReds(c: Ctx, t: Tree)
    requires IsRed(t)
    ensures PaintSteps(c) + Reds(Painted(c, t)) <= Reds(t) + CtxReds(c)
    decreases c
  {
    PlugReds(c, t);
    if c.In? && c.red && c.up.In? {
      if IsRed(c.up.sib) {
        BlackenReds(c.up.sib);
        PaintedReds(c.up.up, Lifted(c, t));
      } else {
        RotatedReds(c, t);
        PlugReds(c.up.up, PaintTerminated(c, t));
      }
    }
  }

  lemma RotatedReds(c: Ctx, t: Tree)
    requires IsRed(t) && c.In? && c.red && c.up.In? && !IsRed(c.up.sib)
    ensures Reds(PaintTerminated(c, t)) <= Reds(t) + 1 + Reds(c.sib) + Bit(c.up.red) + Reds(c.up.sib)
  {
    BlackenReds(c.sib);
    BlackenReds(t.left);
    BlackenReds(t.right);
  }

  // ----- Both operations: the potential is a sum over the black nodes -----

  /** Weight of a node: black nodes weigh 1, 0 or 2 with none, one or two red children. */
  function Weight(red: bool, a: bool, b: bool): nat {
    if red then 0 else if a && b then 2 else if a || b then 0 else 1
  }

  function Potential(t: Tree): nat {
    if t.Leaf? then 0 else Weight(t.red, IsRed(t.left), IsRed(t.right)) + Potential(t.left) + Potential(t.right)
  }

  /** The same for the nodes of a context, given whether its hole holds a red node. */
  function CtxPotential(c: Ctx, red: bool): nat {
    if c.Root? then 0 else Weight(c.red, red, IsRed(c.sib)) + Potential(c.sib) + CtxPotential(c.up, c.red)
  }

  lemma JoinPotential(side: Side, near: Tree, n: Ptr, red: bool, far: Tree)
    ensures Potential(Join(side, near, n, red, far))
         == Weight(red, IsRed(near), IsRed(far)) + Potential(near) + Potential(far)
  {
  }

  lemma {:induction false} PlugPotential(c: Ctx, t: Tree)
    ensures Potential(Plug(c, t)) == Potential(t) + CtxPotential(c, IsRed(t))
    decreases c
  {
    if c.In? {
      JoinPotential(c.side, t, c.node, c.red, c.sib);
      PlugPotential(c.up, Join(c.side, t, c.node, c.red, c.sib));
    }
  }

  lemma BlackenPotential(t: Tree)
    requires RB(t)
    ensures Potential(Blacken(t)) == Potential(t) + Bit(IsRed(t))
  {
  }

  /** A Case 3 step lowers the potential by one, as long as the repair goes on. */
  lemma LiftedPotential(c: Ctx, t: Tree)
    requires Paintable(c, t) && c.In? && c.red && c.up.In? && IsRed(c.up.sib)
    ensures Potential(Lifted(c, t)) + 1 == Potential(t) + CtxPotential(c, true) - CtxPotential(c.up.up, false)
  {
    assert CtxRB(c.up, H(t));
    BlackenPotential(c.up.sib);
    JoinPotential(c.side, t, c.node, false, c.sib);
    JoinPotential(c.up.side, Join(c.side, t, c.node, false, c.sib), c.up.node, true, Blacken(c.up.sib));
  }

  /** Case 4 raises the potential by two at most. */
  lemma RotatedPotential(c: Ctx, t: Tree)
    requires Paintable(c, t) && c.In? && c.red && c.up.In? && !IsRed(c.up.sib)
    ensures Potential(PaintTerminated(c, t)) <= Potential(t) + CtxPotential(c, true) - CtxPotential(c.up.up, false) + 2
  {
  }

  /** The loop of `c_rbtree_paint_path` is paid for by the potential, up to a constant. */
  lemma {:induction false} PaintedPotential(c: Ctx, t: Tree)
    requires Paintable(c, t)
    ensures PaintSteps(c) + Potential(Painted(c, t))
         <= Potential(t) + CtxPotential(c, true) + if AllowsRed(c) then 0 else 2
    decreases c
  {
    if c.Root? {
      BlackenPotential(t);
    } else if !c.red {
      PlugPotential(c, t);
    } else if IsRed(c.up.sib) {
      LiftedPaintable(c, t);
      LiftedPotential(c, t);
      PaintedPotential(c.up.up, Lifted(c, t));
    } else {
      RotatedRB(c, t);
      RotatedPotential(c, t);
      PlugPotential(c.up.up, PaintTerminated(c, t));
    }
  }

  /** One insertion: loop iterations plus change of potential are at most 2. */
  lemma LinkedPotential(c: Ctx, n: Ptr)
    requires Valid(Plug(c, Leaf))
    ensures PaintSteps(c) + Potential(Linked(c, n)) <= Potential(Plug(c, Leaf)) + 2
  {
    var t := Node(Leaf, n, true, Leaf);
    PlugRB(c, Leaf);
    PlugPotential(c, Leaf);
    PaintedPotential(c, t);
  }

  lemma BlackSiblingPotential(side: Side, t: Tree, p: Ptr, pred: bool, s: Tree)
    requires s.Node? && !s.red && !AllBlack(s) && RB(s) && !IsRed(t)
    ensures var r := BlackSibling(side, t, p, pred, s);
            IsRed(r) == pred && Potential(r) <= Potential(Join(side, t, p, pred, s)) + 2
  {
    var near, far := Near(side, s), Far(side, s);
    JoinPotential(side, t, p, pred, s);
    if IsRed(far) {
      BlackenPotential(far);
      JoinPotential(side, t, p, false, near);
      JoinPotential(side, Join(side, t, p, false, near), s.node, pred, Blacken(far));
    } else {
      var b, a := Join(side, Blacken(Far(side, near)), s.node, s.red, far), Near(side, near);
      JoinPotential(side, Blacken(Far(side, near)), s.node, s.red, far);
      JoinPotential(side, t, p, false, a);
      JoinPotential(side, Join(side, t, p, false, a), near.node, pred, Blacken(b));
    }
  }

  /** The rotations at the end of the removal loop raise the potential by two at most. */
  lemma TerminalPotential(c: Ctx, t: Tree)
    requires Deficient(c, t) && c.In? && !AllBlack(c.sib) && c.sib.Node? && (c.sib.red ==> Near(c.side, c.sib).Node?)
    ensures var r := Terminal(c.side, t, c.node, c.red, c.sib);
            IsRed(r) == c.red && Potential(r) <= Potential(Join(c.side, t, c.node, c.red, c.sib)) + 2
  {
    var side, p, s := c.side, c.node, c.sib;
    if s.red {
      var near, far := Near(side, s), Far(side, s);
      var inner := BlackSibling(side, t, p, true, Blacken(near));
      JoinPotential(side, t, p, c.red, s);
      JoinPotential(side, inner, s.node, false, far);
      JoinPotential(side, t, p, true, near);
      if AllBlack(near) {
        JoinPotential(side, t, p, false, near.(red := true));
      } else {
        BlackSiblingPotential(side, t, p, true, near);
      }
    } else {
      BlackSiblingPotential(side, t, p, c.red, s);
    }
  }

  /** The loop of `c_rbnode_rebalance_path` is paid for by the potential, up to a constant. */
  lemma {:induction false} RebalancedPotential(c: Ctx, t: Tree)
    requires Deficient(c, t)
    ensures RebalanceSteps(c) + Potential(Rebalanced(c, t)) <= Potential(t) + CtxPotential(c, false) + 2
    decreases c
  {
    if c.In? {
      if AllBlack(c.sib) {
        RecolouredRB(c, t);
        var r := Recoloured(c, t);
        JoinPotential(c.side, t, c.node, false, c.sib.(red := true));
        if c.red { PlugPotential(c.up, r); } else { RebalancedPotential(c.up, r); }
      } else {
        TerminalRB(c, t);
        TerminalPotential(c, t);
        JoinPotential(c.side, t, c.node, c.red, c.sib);
        PlugPotential(c.up, Terminal(c.side, t, c.node, c.red, c.sib));
      }
    }
  }

  /** Swapping places with the successor moves no colours. */
  lemma VacatedPotential(c: Ctx, t: Tree)
    requires t.Node?
    ensures Potential(Plug(Vacated(c, t), Victim(t))) == Potential(Plug(c, t))
  {
    if t.left.Node? && t.right.Node? {
      var n := Min(t.right).node;
      MinPlug(t.right, In(R, n, t.red, t.left, c));
      PlugPotential(c, t);
      PlugPotential(c, Node(t.left, n, t.red, t.right));
    }
  }

  /** One removal: loop iterations plus change of potential are at most 1. */
  lemma RemovedPotential(c: Ctx, t: Tree)
    requires t.Node? && Valid(Plug(c, t))
    ensures RemovedSteps(c, t) + Potential(Removed(c, t)) <= Potential(Plug(c, t)) + 1
  {
    var v, h := Victim(t), Vacated(c, t);
    var o := OnlyChild(v);
    VacatedPotential(c, t);
    VacatedRB(c, t);
    PlugPotential(h, v);
    if o.Node? {
      BlackenPotential(o);
      PlugPotential(h, Blacken(o));
    } else if v.red {
      PlugPotential(h, Leaf);
    } else {
      RebalancedPotential(h, Leaf);
    }
  }

  // ----- Runs -----

  /** A run of insertions and removals on one tree, latest first; see `Proper`. */
  datatype Run = Begin | Linking(prev: Run, c: Ctx, n: Ptr) | Unlinking(prev: Run, c: Ctx, t: Tree)

  function Outcome(r: Run): Tree {
    match r
    case Begin => Leaf
    case Linking(prev, c, n) => Linked(c, n)
    case Unlinking(prev, c, t) => if t.Node? then Removed(c, t) else Leaf
  }

  /** New nodes go into empty slots of the tree so far, and members of the tree so far are removed. */
  predicate Proper(r: Run) {
    match r
    case Begin => true
    case Linking(prev, c, n) => Proper(prev) && Plug(c, Leaf) == Outcome(prev) && n !in Nodes(Outcome(prev))
    case Unlinking(prev, c, t) => Proper(prev) && t.Node? && Plug(c, t) == Outcome(prev)
  }

  /** Iterations of both loops in the whole run. */
  function Iterations(r: Run): nat {
    match r
    case Begin => 0
    case Linking(prev, c, n) => Iterations(prev) + PaintSteps(c)
    case Unlinking(prev, c, t) => Iterations(prev) + if t.Node? then RemovedSteps(c, t) else 0
  }

  function Links(r: Run): nat {
    if r.Begin? then 0 else Links(r.prev) + if r.Linking? then 1 else 0
  }

  function Unlinks(r: Run): nat {
    if r.Begin? then 0 else Unlinks(r.prev) + if r.Unlinking? then 1 else 0
  }

  /** Every tree in every run is a valid red-black tree. */
  lemma {:induction false} RunValid(r: Run)
    requires Proper(r)
    ensures Valid(Outcome(r))
  {
    match r
    case Begin =>
    case Linking(prev, c, n) =>
      RunValid(prev);
      LinkedValid(c, n);
    case Unlinking(prev, c, t) =>
      RunValid(prev);
      RemovedValid(c, t);
  }

  /** Insertions only: the recolouring loop iterates no more often than there are insertions. */
  lemma {:induction false} InsertionsAmortised(r: Run)
    requires Proper(r) && Unlinks(r) == 0
    ensures Iterations(r) + Reds(Outcome(r)) <= Links(r)
  {
    match r
    case Begin =>
    case Linking(prev, c, n) =>
      InsertionsAmortised(prev);
      PlugReds(c, Leaf);
      PaintedReds(c, Node(Leaf, n, true, Leaf));
  }

  /** Any mixture: both loops together iterate at most twice per insertion and once per removal. */
  lemma {:induction false} RunAmortised(r: Run)
    requires Proper(r)
    ensures Iterations(r) + Potential(Outcome(r)) <= 2 * Links(r) + Unlinks(r)
  {
    match r
    case Begin =>
    case Linking(prev, c, n) =>
      RunAmortised(prev);
      RunValid(prev);
      LinkedPotential(c, n);
    case Unlinking(prev, c, t) =>
      RunAmortised(prev);
      RunValid(prev);
      RemovedPotential(c, t);
  }
}
