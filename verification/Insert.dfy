/** Insertion: `c_rbtree_paint_terminal`, `c_rbtree_paint_path`, `c_rbtree_paint`. */
module Insertion {
  import opened Structs
  import opened Trees
  import opened PaintSpec
  import opened Layout
  import opened Lockless
  import opened Memories
  import opened Rotations
  import opened Relinking
  import opened Folds

  /** Colours after Case 4: `g` red, everything else black. */
  function PaintTints(r: Turn): Tints {
    Tints(true, false, false, IsRed(r.far), false)
  }

  method PaintWords(m: Memory, p: Ptr, g: Ptr, x: Ptr, gg: Ptr, ghost r: Turn)
    requires m.Logged() && Wordable(r, m.mem)
    requires p in m.footprint && g in m.footprint && (x != NULL ==> x in m.footprint)
    requires r.lo == g && r.hi == p && x == Top(r.mid) && gg == if r.c.Root? then NULL else r.c.node
    modifies m`mem, m`history, m`writes
    ensures m.Logged() && ReadyIn(r, old(m.mem)) && m.mem == Worded(r, old(m.mem), PaintTints(r))
    ensures m.history == WordsTrace(r, PaintTints(r), old(m.history))
    ensures Closed(old(m.mem), r.All()) ==> Closed(m.mem, r.All())
  {
    if x != NULL {
      m.SetWord(x, g, false, m.mem.cells[x].word.isRoot);
    }
    m.SetWord(p, gg, false, m.mem.cells[p].word.isRoot);
    m.SetWord(g, p, true, m.mem.cells[g].word.isRoot);
  }

  /** The pieces of Case 4 when `t` is an outer grandchild. */
  function StraightTurn(c: Ctx, t: Tree): Turn
    requires c.In? && c.up.In?
  {
    Turn(c.up.up, Flip(c.side), c.up.sib, c.up.node, c.sib, c.node, t)
  }

  /** The pieces of the first rotation of Case 4 when `t` is an inner grandchild. */
  function BentTurn(c: Ctx, t: Tree): Turn
    requires c.In? && t.Node?
  {
    Turn(c.up, Flip(c.side), c.sib, c.node, Far(c.side, t), t.node, Near(c.side, t))
  }

  /** The pieces of the outer rotation, after the inner one if there is one. */
  function OuterTurn(c: Ctx, t: Tree): Turn
    requires c.In? && c.up.In? && t.Node?
  {
    if c.side == c.up.side then StraightTurn(c, t) else Outer(BentTurn(c, t), true, IsRed(BentTurn(c, t).mid))
  }

  /** The pieces `r` are ready for the outer rotation of Case 4. */
  predicate Fits(m: Mem, tree: Ptr, c: Ctx, t: Tree, r: Turn) {
    && c.In? && c.up.In? && t.Node?
    && r.side == Flip(c.up.side) && r.lo == c.up.node && Ready(r, m, tree, Below(r.hi), Below(r.hi))
    && !m.cells[r.lo].red && r.c == c.up.up && r.Turned(true, false, false, IsRed(r.far)) == PaintTerminated(c, t)
    && r.All() + CtxNodes(r.c) == Nodes(t) + CtxNodes(c)
  }

  lemma StraightFits(m: Mem, tree: Ptr, c: Ctx, t: Tree)
    requires Focus(m, c, t, tree) && NULL !in m.cells && tree != NULL && tree in m.roots
    requires c.In? && c.red && c.up.In? && !c.up.red && c.side == c.up.side && IsRed(t)
    ensures Fits(m, tree, c, t, StraightTurn(c, t))
  {
    FocusUp(m, c, t, tree);
    FocusUp(m, c.up, Join(c.side, t, c.node, c.red, c.sib), tree);
    FocusReady(m, tree, StraightTurn(c, t), c.up.red, c.red);
  }

  lemma BentReady(m: Mem, tree: Ptr, c: Ctx, t: Tree)
    requires Focus(m, c, t, tree) && NULL !in m.cells && tree != NULL && tree in m.roots
    requires c.In? && c.red && c.up.In? && !c.up.red && c.side != c.up.side && IsRed(t)
    ensures Ready(BentTurn(c, t), m, tree, Below(t.node), Below(t.node)) && m.cells[c.node].red
  {
  }

  lemma BentFits(m: Mem, m': Mem, tree: Ptr, c: Ctx, t: Tree)
    requires c.In? && c.red && c.up.In? && !c.up.red && c.side != c.up.side && IsRed(t)
    requires Ready(BentTurn(c, t), m, tree, Below(t.node), Below(t.node)) && m.cells[c.node].red
    requires ReadyIn(BentTurn(c, t), m) && c.up.node in m.cells && !m.cells[c.up.node].red
    requires IsFolded(BentTurn(c, t), m, m', Below(t.node), true, IsRed(BentTurn(c, t).mid), false)
    ensures Fits(m', tree, c, t, Outer(BentTurn(c, t), true, IsRed(BentTurn(c, t).mid)))
  {
    ReadyTops(BentTurn(c, t), m, tree, Below(t.node), Below(t.node));
    FoldedReady(BentTurn(c, t), m, m', tree, Below(t.node), true, IsRed(BentTurn(c, t).mid), false);
    OuterApart(BentTurn(c, t), true, IsRed(BentTurn(c, t).mid));
    BentNodes(c, t);
  }

  lemma BentNodes(c: Ctx, t: Tree)
    requires c.In? && c.up.In? && c.side != c.up.side && t.Node?
    ensures BentTurn(c, t).All() + CtxNodes(BentTurn(c, t).c) == Nodes(t) + CtxNodes(c)
  {
  }

  lemma GrandReads(m: Mem, c: Ctx, t: Tree, tree: Ptr)
    requires Focus(m, c, t, tree) && t.Node? && NULL !in m.cells && c.In? && c.up.In?
    ensures t.node in m.cells && c.node in m.cells && c.up.node in m.cells && NULL !in {t.node, c.node, c.up.node}
    ensures m.cells[t.node].Parent() == c.node && m.cells[c.node].Parent() == c.up.node
    ensures m.cells[t.node].red == t.red && m.cells[c.node].red == c.red && m.cells[c.up.node].red == c.up.red
    ensures m.cells[c.up.node].left == c.node <==> c.up.side == L
    ensures m.cells[c.node].left == t.node <==> c.side == L
    ensures m.cells[c.node].right == t.node <==> c.side == R
    ensures IsUncle(m, c, m.cells[c.up.node].left) && IsUncle(m, c, m.cells[c.up.node].right)
  {
    FocusReads(m, c, t, tree);
    FocusUp(m, c, t, tree);
    FocusReads(m, c.up, Join(c.side, t, c.node, c.red, c.sib), tree);
  }

  /** A child of the grandparent is the parent, or the uncle with the colour it has in the tree. */
  predicate IsUncle(m: Mem, c: Ctx, u: Ptr)
    requires c.In? && c.up.In?
  {
    || u == c.node
    || (u == Top(c.up.sib) && (u == NULL || (c.up.sib.Node? && u in m.cells && m.cells[u].red == c.up.sib.red)))
  }

  // ----- The two arms of Case 4 -----

  /** What the inner rotation needs and leads to. */
  lemma BentPrepared(m: Mem, tree: Ptr, c: Ctx, t: Tree)
    requires Focus(m, c, t, tree) && NULL !in m.cells && tree != NULL && tree in m.roots
    requires c.In? && c.red && c.up.In? && !c.up.red && c.side != c.up.side && IsRed(t)
    ensures var b := BentTurn(c, t);
            && Foldable(b, m) && b.All() + CtxNodes(b.c) == Nodes(t) + CtxNodes(c)
            && Fits(FoldWords(b, Store2(b, m)), tree, c, t, Outer(b, true, IsRed(b.mid)))
  {
    var b, w := BentTurn(c, t), Below(t.node);
    BentReady(m, tree, c, t);
    GrandReads(m, c, t, tree);
    ReadyTops(b, m, tree, w, w);
    LaidClosed(b, m, b.lo, tree, w, w, m, w, false);
    TurnAdmissible(b, m);
    BentNodes(c, t);
    assert b.mid.Node? ==> b.mid.node in Nodes(b.mid);
    FoldWordsMem(b, m);
    var m1 := Store2(b, m);
    FoldStages(b, m, m1, FoldWords(b, m1), w, true, IsRed(b.mid));
    BentFits(m, FoldWords(b, m1), tree, c, t);
  }

  /** What an arm reads of the nodes it starts from. */
  lemma ArmReads(m: Mem, tree: Ptr, c: Ctx, t: Tree)
    requires Focus(m, c, t, tree) && t.Node? && NULL !in m.cells && c.In? && c.up.In?
    ensures c.node in m.cells && c.up.node in m.cells
    ensures m.cells[c.node].left == t.node <==> c.side == L
    ensures m.cells[c.node].right == t.node <==> c.side == R
    ensures m.cells[c.up.node].Parent() == if c.up.up.Root? then NULL else c.up.up.node
  {
    GrandReads(m, c, t, tree);
    FocusUp(m, c, t, tree);
  }

  /** The outer rotation may start, and finishes Case 4. */
  lemma FitsTurn(m: Mem, tree: Ptr, c: Ctx, t: Tree, r: Turn)
    requires Fits(m, tree, c, t, r)
    ensures Turnable(r, m, tree) && r.All() + CtxTop(r.c) <= Nodes(t) + CtxNodes(c) && !m.cells[r.lo].red
    ensures Focus(TurnMem(r, m, PaintTints(r), tree), c.up.up, PaintTerminated(c, t), tree)
  {
    TurnPrepared(r, m, tree, Below(r.hi), Below(r.hi));
    TurnDone(r, m, PaintTints(r), tree, Below(r.hi), Below(r.hi));
  }

  /** All writes of Case 4, in order. */
  function TerminalTrace(c: Ctx, t: Tree, tree: Ptr, h: History): History
    requires c.In? && c.up.In? && t.Node?
  {
    var h' := if c.side == c.up.side then h else FoldTrace(BentTurn(c, t), h);
    TurnTrace(OuterTurn(c, t), PaintTints(OuterTurn(c, t)), false, tree, h')
  }

  method PaintInnerTurnLeft(m: Memory, n: Ptr, p: Ptr, ghost b: Turn)
    requires m.Logged() && Foldable(b, m.mem) && b.All() <= m.footprint && b.side == L && b.hi == n && b.lo == p
    modifies m`mem, m`history, m`writes
    ensures m.Logged() && Foldable(b, old(m.mem)) && m.mem == FoldWords(b, Store2(b, old(m.mem)))
    ensures m.history == FoldTrace(b, old(m.history))
  {
    var x := m.mem.cells[n].left;
    m.Store(Child(R, p), x, Nodes(b.mid));
    m.Store(Child(L, n), p, b.Low());
    if x != NULL {
      m.SetWord(x, p, m.mem.cells[x].red, m.mem.cells[x].word.isRoot);
    }
    m.SetWord(p, n, m.mem.cells[p].red, m.mem.cells[p].word.isRoot);
  }

  /** Case 4, left arm, inner node: `n`, the right child of `p`, is rotated above `p`. */
  method PaintInnerLeft(m: Memory, n: Ptr, p: Ptr, ghost c: Ctx, ghost t: Tree)
    requires m.Logged() && Focus(m.mem, c, t, m.tree) && Nodes(t) + CtxNodes(c) <= m.footprint
    requires m.tree != NULL && m.tree in m.mem.roots && NULL !in m.mem.cells
    requires NeedsRotation(c, t) && c.side == R && c.up.side == L && n == t.node && p == c.node
    modifies m`mem, m`history, m`writes
    ensures m.Logged() && Fits(m.mem, m.tree, c, t, OuterTurn(c, t))
    ensures m.history == FoldTrace(BentTurn(c, t), old(m.history))
  {
    BentPrepared(m.mem, m.tree, c, t);
    PaintInnerTurnLeft(m, n, p, BentTurn(c, t));
  }

  method PaintStoresLeft(m: Memory, g: Ptr, p: Ptr, x: Ptr, ghost r: Turn)
    requires m.Logged() && Relinkable(r, m.mem) && r.All() + CtxTop(r.c) <= m.footprint
    requires r.side == R && r.lo == g && r.hi == p && x == Top(r.mid)
    modifies m`mem, m`history, m`writes
    ensures m.Logged() && Relinkable(r, old(m.mem)) && m.mem == Stored(r, old(m.mem))
    ensures m.history == StoresTrace(r, old(m.history))
  {
    m.Store(Child(L, g), x, Nodes(r.mid));
    m.Store(Child(R, p), g, r.Low());
    m.SwapChild(g, p, if r.c.In? then r.c.side else L, r.All());
  }

  method PaintOuterTurnLeft(m: Memory, p: Ptr, g: Ptr, gg: Ptr, ghost r: Turn)
    requires m.Logged() && Turnable(r, m.mem, m.tree) && r.All() + CtxTop(r.c) <= m.footprint
    requires r.side == R && r.hi == p && r.lo == g && gg == m.mem.cells[g].Parent()
    modifies m`mem, m`history, m`writes
    ensures m.Logged() && Turnable(r, old(m.mem), m.tree) && m.mem == TurnMem(r, old(m.mem), PaintTints(r), m.tree)
    ensures m.history == TurnTrace(r, PaintTints(r), old(m.mem).cells[g].red, m.tree, old(m.history))
  {
    var x := m.mem.cells[p].right;
    var t := m.PopRoot(g);
    PaintStoresLeft(m, g, p, x, r);
    ghost var m2 := m.mem;
    PaintWords(m, p, g, x, gg, r);
    TurnPushed(r, m2, PaintTints(r), m.tree, t, m.history);
    m.PushRoot(p, t, r.All());
  }

  /** Case 4, left arm: `p`, the left child of `g`, is rotated above `g`. */
  method PaintOuterLeft(m: Memory, p: Ptr, g: Ptr, gg: Ptr, ghost c: Ctx, ghost t: Tree)
    requires c.In? && c.up.In? && t.Node?
    requires m.Logged() && Fits(m.mem, m.tree, c, t, OuterTurn(c, t)) && Nodes(t) + CtxNodes(c) <= m.footprint
    requires c.up.side == L && p == OuterTurn(c, t).hi && g == c.up.node && gg == m.mem.cells[g].Parent()
    modifies m`mem, m`history, m`writes
    ensures m.Logged() && Focus(m.mem, c.up.up, PaintTerminated(c, t), m.tree)
    ensures m.history == TurnTrace(OuterTurn(c, t), PaintTints(OuterTurn(c, t)), false, m.tree, old(m.history))
  {
    FitsTurn(m.mem, m.tree, c, t, OuterTurn(c, t));
    PaintOuterTurnLeft(m, p, g, gg, OuterTurn(c, t));
  }

  /** The left arm of Case 4. */
  method PaintLeft(m: Memory, n: Ptr, p0: Ptr, g: Ptr, gg: Ptr, ghost c: Ctx, ghost t: Tree)
    requires m.Logged() && Focus(m.mem, c, t, m.tree) && Nodes(t) + CtxNodes(c) <= m.footprint
    requires m.tree != NULL && m.tree in m.mem.roots && NULL !in m.mem.cells
    requires NeedsRotation(c, t) && c.up.side == L && n == t.node && p0 == c.node && g == c.up.node
    requires g in m.mem.cells && gg == m.mem.cells[g].Parent() && p0 in m.mem.cells
    modifies m`mem, m`history, m`writes
    ensures m.Logged() && Focus(m.mem, c.up.up, PaintTerminated(c, t), m.tree)
    ensures m.history == TerminalTrace(c, t, m.tree, old(m.history))
  {
    ArmReads(m.mem, m.tree, c, t);
    var p := p0;
    if n == m.mem.cells[p].right {
      PaintInnerLeft(m, n, p, c, t);
      p := n;
    } else {
      StraightFits(m.mem, m.tree, c, t);
    }
    PaintOuterLeft(m, p, g, gg, c, t);
  }

  method PaintInnerTurnRight(m: Memory, n: Ptr, p: Ptr, ghost b: Turn)
    requires m.Logged() && Foldable(b, m.mem) && b.All() <= m.footprint && b.side == R && b.hi == n && b.lo == p
    modifies m`mem, m`history, m`writes
    ensures m.Logged() && Foldable(b, old(m.mem)) && m.mem == FoldWords(b, Store2(b, old(m.mem)))
    ensures m.history == FoldTrace(b, old(m.history))
  {
    var x := m.mem.cells[n].right;
    m.Store(Child(L, p), m.mem.cells[n].right, Nodes(b.mid));
    m.Store(Child(R, n), p, b.Low());
    if x != NULL {
      m.SetWord(x, p, m.mem.cells[x].red, m.mem.cells[x].word.isRoot);
    }
    m.SetWord(p, n, m.mem.cells[p].red, m.mem.cells[p].word.isRoot);
  }

  /** Case 4, right arm, inner node: `n`, the left child of `p`, is rotated above `p`. */
  method PaintInnerRight(m: Memory, n: Ptr, p: Ptr, ghost c: Ctx, ghost t: Tree)
    requires m.Logged() && Focus(m.mem, c, t, m.tree) && Nodes(t) + CtxNodes(c) <= m.footprint
    requires m.tree != NULL && m.tree in m.mem.roots && NULL !in m.mem.cells
    requires NeedsRotation(c, t) && c.side == L && c.up.side == R && n == t.node && p == c.node
    modifies m`mem, m`history, m`writes
    ensures m.Logged() && Fits(m.mem, m.tree, c, t, OuterTurn(c, t))
    ensures m.history == FoldTrace(BentTurn(c, t), old(m.history))
  {
    BentPrepared(m.mem, m.tree, c, t);
    PaintInnerTurnRight(m, n, p, BentTurn(c, t));
  }

  method PaintStoresRight(m: Memory, g: Ptr, p: Ptr, x: Ptr, ghost r: Turn)
    requires m.Logged() && Relinkable(r, m.mem) && r.All() + CtxTop(r.c) <= m.footprint
    requires r.side == L && r.lo == g && r.hi == p && x == Top(r.mid)
    modifies m`mem, m`history, m`writes
    ensures m.Logged() && Relinkable(r, old(m.mem)) && m.mem == Stored(r, old(m.mem))
    ensures m.history == StoresTrace(r, old(m.history))
  {
    m.Store(Child(R, g), x, Nodes(r.mid));
    m.Store(Child(L, p), g, r.Low());
    m.SwapChild(g, p, if r.c.In? then r.c.side else L, r.All());
  }

  method PaintOuterTurnRight(m: Memory, p: Ptr, g: Ptr, gg: Ptr, ghost r: Turn)
    requires m.Logged() && Turnable(r, m.mem, m.tree) && r.All() + CtxTop(r.c) <= m.footprint
    requires r.side == L && r.hi == p && r.lo == g && gg == m.mem.cells[g].Parent()
    modifies m`mem, m`history, m`writes
    ensures m.Logged() && Turnable(r, old(m.mem), m.tree) && m.mem == TurnMem(r, old(m.mem), PaintTints(r), m.tree)
    ensures m.history == TurnTrace(r, PaintTints(r), old(m.mem).cells[g].red, m.tree, old(m.history))
  {
    var x := m.mem.cells[p].left;
    var t := m.PopRoot(g);
    PaintStoresRight(m, g, p, x, r);
    ghost var m2 := m.mem;
    PaintWords(m, p, g, x, gg, r);
    TurnPushed(r, m2, PaintTints(r), m.tree, t, m.history);
    m.PushRoot(p, t, r.All());
  }

  /** Case 4, right arm: `p`, the right child of `g`, is rotated above `g`. */
  method PaintOuterRight(m: Memory, p: Ptr, g: Ptr, gg: Ptr, ghost c: Ctx, ghost t: Tree)
    requires c.In? && c.up.In? && t.Node?
    requires m.Logged() && Fits(m.mem, m.tree, c, t, OuterTurn(c, t)) && Nodes(t) + CtxNodes(c) <= m.footprint
    requires c.up.side == R && p == OuterTurn(c, t).hi && g == c.up.node && gg == m.mem.cells[g].Parent()
    modifies m`mem, m`history, m`writes
    ensures m.Logged() && Focus(m.mem, c.up.up, PaintTerminated(c, t), m.tree)
    ensures m.history == TurnTrace(OuterTurn(c, t), PaintTints(OuterTurn(c, t)), false, m.tree, old(m.history))
  {
    FitsTurn(m.mem, m.tree, c, t, OuterTurn(c, t));
    PaintOuterTurnRight(m, p, g, gg, OuterTurn(c, t));
  }

  /** The right arm of Case 4. */
  method PaintRight(m: Memory, n: Ptr, p0: Ptr, g: Ptr, gg: Ptr, ghost c: Ctx, ghost t: Tree)
    requires m.Logged() && Focus(m.mem, c, t, m.tree) && Nodes(t) + CtxNodes(c) <= m.footprint
    requires m.tree != NULL && m.tree in m.mem.roots && NULL !in m.mem.cells
    requires NeedsRotation(c, t) && c.up.side == R && n == t.node && p0 == c.node && g == c.up.node
    requires g in m.mem.cells && gg == m.mem.cells[g].Parent() && p0 in m.mem.cells
    modifies m`mem, m`history, m`writes
    ensures m.Logged() && Focus(m.mem, c.up.up, PaintTerminated(c, t), m.tree)
    ensures m.history == TerminalTrace(c, t, m.tree, old(m.history))
  {
    ArmReads(m.mem, m.tree, c, t);
    var p := p0;
    if n == m.mem.cells[p].left {
      PaintInnerRight(m, n, p, c, t);
      p := n;
    } else {
      StraightFits(m.mem, m.tree, c, t);
    }
    PaintOuterRight(m, p, g, gg, c, t);
  }

  /** `c_rbtree_paint_terminal`: at most two rotations, at the grandparent of `n`. */
  method PaintTerminal(m: Memory, n: Ptr, ghost c: Ctx, ghost t: Tree)
    requires m.Logged() && Focus(m.mem, c, t, m.tree) && Nodes(t) + CtxNodes(c) <= m.footprint
    requires m.tree != NULL && m.tree in m.mem.roots && NULL !in m.mem.cells
    requires NeedsRotation(c, t) && t.node == n
    modifies m`mem, m`history, m`writes
    ensures m.Logged() && Focus(m.mem, c.up.up, PaintTerminated(c, t), m.tree)
    ensures m.history == TerminalTrace(c, t, m.tree, old(m.history))
  {
    GrandReads(m.mem, c, t, m.tree);
    var p := m.mem.cells[n].Parent();
    var g := m.mem.cells[p].Parent();
    var gg := m.mem.cells[g].Parent();
    assert m.mem.cells[p].red && !m.mem.cells[g].red;
    assert p == m.mem.cells[g].left || m.mem.cells[g].left == NULL || !m.mem.cells[m.mem.cells[g].left].red;
    assert p == m.mem.cells[g].right || m.mem.cells[g].right == NULL || !m.mem.cells[m.mem.cells[g].right].red;
    if p == m.mem.cells[g].left {
      PaintLeft(m, n, p, g, gg, c, t);
    } else {
      PaintRight(m, n, p, g, gg, c, t);
    }
  }

  // ----- Case 3: recolouring upwards -----

  predicate IsLifted(m: Mem, m': Mem, c: Ctx)
    requires c.In? && c.up.In? && c.up.sib.Node?
    requires c.node in m.cells && c.up.node in m.cells && c.up.sib.node in m.cells
  {
    && Except(m, m', {c.node, c.up.sib.node, c.up.node}) && m'.roots == m.roots
    && m'.cells[c.node] == m.cells[c.node].(red := false)
    && m'.cells[c.up.sib.node] == m.cells[c.up.sib.node].(red := false)
    && m'.cells[c.up.node] == m.cells[c.up.node].(red := true)
  }

  lemma GrandApart(c: Ctx, t: Tree)
    requires c.In? && c.up.In? && c.up.sib.Node? && DistinctCtx(c) && Nodes(t) !! CtxNodes(c)
    ensures var s := {c.node, c.up.sib.node, c.up.node};
            s !! Nodes(t) && s !! Nodes(c.sib) && s !! (Nodes(c.up.sib) - {c.up.sib.node}) && s !! CtxNodes(c.up.up)
  {
  }

  lemma LiftedPieces(m: Mem, m': Mem, c: Ctx, t: Tree, tree: Ptr)
    requires c.In? && c.up.In? && c.up.sib.Node?
    requires c.node in m.cells && c.up.node in m.cells && c.up.sib.node in m.cells
    requires Focus(m, c, t, tree) && IsLifted(m, m', c)
    ensures Rep(m', t, Below(c.node)) && Rep(m', c.sib, Below(c.node))
    ensures Rep(m', Tint(c.up.sib, false), Below(c.up.node))
    ensures RepCtx(m', c.up.up, c.up.node, tree)
  {
    var s := {c.node, c.up.sib.node, c.up.node};
    GrandApart(c, t);
    assert RepCtx(m, c.up, c.node, tree) && DistinctCtx(c.up);
    RepDomain(m, t, Below(c.node));
    ExceptSame(m, m', s, Nodes(t));
    RepFrame(m, m', t, Below(c.node));
    RepDomain(m, c.sib, Below(c.node));
    ExceptSame(m, m', s, Nodes(c.sib));
    RepFrame(m, m', c.sib, Below(c.node));
    MoveSubtree(m, m', s, c.up.sib, Below(c.up.node), Below(c.up.node), false);
    RepCtxDomain(m, c.up.up, c.up.node, tree);
    ExceptSame(m, m', s, CtxNodes(c.up.up));
    RepCtxFrame(m, m', c.up.up, c.up.node, tree);
  }

  lemma LiftedNodes(c: Ctx, t: Tree)
    requires c.In? && c.up.In? && c.up.sib.Node? && DistinctCtx(c) && Nodes(t) !! CtxNodes(c) && Distinct(t)
    ensures Nodes(Lifted(c, t)) + CtxNodes(c.up.up) == Nodes(t) + CtxNodes(c)
    ensures Distinct(Lifted(c, t)) && Nodes(Lifted(c, t)) !! CtxNodes(c.up.up) && DistinctCtx(c.up.up)
  {
  }

  lemma LiftedFocus(m: Mem, m': Mem, c: Ctx, t: Tree, tree: Ptr)
    requires c.In? && c.up.In? && c.up.sib.Node?
    requires c.node in m.cells && c.up.node in m.cells && c.up.sib.node in m.cells
    requires Focus(m, c, t, tree) && IsLifted(m, m', c)
    ensures Focus(m', c.up.up, Lifted(c, t), tree)
    ensures Nodes(Lifted(c, t)) + CtxNodes(c.up.up) == Nodes(t) + CtxNodes(c)
  {
    LiftedPieces(m, m', c, t, tree);
    LiftedNodes(c, t);
    assert RepCtx(m, c.up, c.node, tree);
    var u, low := c.up.sib, Join(c.side, t, c.node, false, c.sib);
    JoinRep(m', c.side, t, c.node, false, c.sib, Below(c.up.node));
    JoinRep(m', c.up.side, low, c.up.node, true, Blacken(u), HoleWord(c.up.up, tree));
  }

  function LiftTrace(c: Ctx, tree: Ptr, h: History): History
    requires c.In? && c.up.In? && c.up.sib.Node?
  {
    var h1 := Then(h, WordWrite(c.node, Below(c.up.node), false));
    Then(Then(h1, WordWrite(c.up.sib.node, Below(c.up.node), false)),
         WordWrite(c.up.node, HoleWord(c.up.up, tree), true))
  }

  method LiftColours(m: Memory, p: Ptr, u: Ptr, g: Ptr, ghost c: Ctx)
    requires m.Logged() && c.In? && c.up.In? && c.up.sib.Node?
    requires p == c.node && u == c.up.sib.node && g == c.up.node && p != u && p != g && u != g
    requires {p, u, g} <= m.footprint && p in m.mem.cells && u in m.mem.cells && g in m.mem.cells
    requires m.mem.cells[p].word == Below(g) && m.mem.cells[u].word == Below(g)
    requires m.mem.cells[g].word == HoleWord(c.up.up, m.tree)
    modifies m`mem, m`history, m`writes
    ensures m.Logged() && IsLifted(old(m.mem), m.mem, c) && m.history == LiftTrace(c, m.tree, old(m.history))
  {
    m.SetWord(p, g, false, m.mem.cells[p].word.isRoot);
    m.SetWord(u, g, false, m.mem.cells[u].word.isRoot);
    m.SetWord(g, m.mem.cells[g].word.raw, true, m.mem.cells[g].word.isRoot);
  }

  lemma UncleReads(m: Mem, c: Ctx, t: Tree, tree: Ptr)
    requires Focus(m, c, t, tree) && c.In? && c.up.In? && c.up.sib.Node?
    ensures c.node in m.cells && c.up.node in m.cells && c.up.sib.node in m.cells
    ensures c.node != c.up.sib.node && c.node != c.up.node && c.up.sib.node != c.up.node
    ensures m.cells[c.node].word == Below(c.up.node) && m.cells[c.up.sib.node].word == Below(c.up.node)
    ensures m.cells[c.up.node].word == HoleWord(c.up.up, tree)
  {
    assert RepCtx(m, c.up, c.node, tree) && DistinctCtx(c.up);
    assert c.up.sib.node in Nodes(c.up.sib) && Nodes(c.up.sib) <= CtxNodes(c.up);
  }

  /** What one iteration of the loop reads. */
  lemma LoopReads(m: Mem, c: Ctx, t: Tree, tree: Ptr)
    requires Focus(m, c, t, tree) && Paintable(c, t) && NULL !in m.cells
    ensures t.node in m.cells && (m.cells[t.node].Parent() == NULL <==> c.Root?)
    ensures c.In? ==> c.node in m.cells && m.cells[t.node].Parent() == c.node && m.cells[c.node].red == c.red
    ensures c.In? && c.red ==>
              && c.up.In? && !c.up.red && c.up.node in m.cells && m.cells[c.node].Parent() == c.up.node
              && OtherKid(m, c.up.node, c.node) == Top(c.up.sib)
              && (c.up.sib.Node? ==>
                    c.up.sib.node in m.cells && c.up.sib.node != NULL && m.cells[c.up.sib.node].red == c.up.sib.red)
  {
    FocusReads(m, c, t, tree);
    if c.In? && c.red {
      GrandReads(m, c, t, tree);
      UncleFound(m, c, t, tree);
    }
  }

  function OtherKid(m: Mem, g: Ptr, p: Ptr): Ptr
    requires g in m.cells
  {
    if p == m.cells[g].left then m.cells[g].right else m.cells[g].left
  }

  lemma UncleFound(m: Mem, c: Ctx, t: Tree, tree: Ptr)
    requires Focus(m, c, t, tree) && t.Node? && c.In? && c.up.In? && NULL !in m.cells
    ensures c.up.node in m.cells && OtherKid(m, c.up.node, c.node) == Top(c.up.sib)
    ensures c.up.sib.Node? ==>
              c.up.sib.node in m.cells && c.up.sib.node != NULL && m.cells[c.up.sib.node].red == c.up.sib.red
  {
    FocusUp(m, c, t, tree);
    FocusReads(m, c.up, Join(c.side, t, c.node, c.red, c.sib), tree);
  }

  /** One iteration of the loop. */
  method Lift(m: Memory, p: Ptr, u: Ptr, g: Ptr, ghost c: Ctx, ghost t: Tree)
    requires m.Logged() && Focus(m.mem, c, t, m.tree) && Nodes(t) + CtxNodes(c) <= m.footprint
    requires m.tree in m.mem.roots && c.In? && c.up.In? && c.up.sib.Node? && t.Node?
    requires p == c.node && u == c.up.sib.node && g == c.up.node
    modifies m`mem, m`history, m`writes
    ensures m.Logged() && Focus(m.mem, c.up.up, Lifted(c, t), m.tree)
    ensures m.history == LiftTrace(c, m.tree, old(m.history))
    ensures Nodes(Lifted(c, t)) + CtxNodes(c.up.up) <= m.footprint
  {
    ghost var m1 := m.mem;
    UncleReads(m1, c, t, m.tree);
    LiftColours(m, p, u, g, c);
    LiftedFocus(m1, m.mem, c, t, m.tree);
    assert u in Nodes(c.up.sib) && Nodes(c.up.sib) <= CtxNodes(c.up);
  }

  method PaintRoot(m: Memory, n: Ptr, ghost c: Ctx, ghost t: Tree)
    requires m.Logged() && Focus(m.mem, c, t, m.tree) && Nodes(t) <= m.footprint && m.tree in m.mem.roots
    requires t.Node? && t.node == n
    modifies m`mem, m`history, m`writes
    ensures m.Logged() && Focus(m.mem, c, Blacken(t), m.tree)
    ensures m.history == Then(old(m.history), WordWrite(n, HoleWord(c, m.tree), false))
  {
    ghost var m1 := m.mem;
    m.SetWord(n, m.mem.cells[n].word.raw, false, m.mem.cells[n].word.isRoot);
    RecolourFocus(m1, m.mem, c, t, m.tree, false);
  }

  /** One iteration of the loop, and how far it gets the repair. */
  method Climb(m: Memory, p: Ptr, u: Ptr, g: Ptr, ghost c: Ctx, ghost t: Tree) returns (ghost t': Tree)
    requires m.Logged() && Focus(m.mem, c, t, m.tree) && Nodes(Plug(c, t)) <= m.footprint
    requires m.tree in m.mem.roots && NULL !in m.mem.cells && Paintable(c, t)
    requires c.In? && c.red && c.up.In? && IsRed(c.up.sib) && p == c.node && u == c.up.sib.node && g == c.up.node
    modifies m`mem, m`history, m`writes
    ensures m.Logged() && Focus(m.mem, c.up.up, t', m.tree) && Paintable(c.up.up, t') && t'.node == g
    ensures Nodes(Plug(c.up.up, t')) <= m.footprint && m.tree in m.mem.roots && NULL !in m.mem.cells
    ensures Painted(c.up.up, t') == Painted(c, t) && PaintSteps(c) == 1 + PaintSteps(c.up.up)
    ensures PaintTrace(c.up.up, t', m.tree, m.history) == PaintTrace(c, t, m.tree, old(m.history))
  {
    t' := Lifted(c, t);
    PlugNodes(c, t);
    PlugNodes(c.up.up, t');
    LiftedPaintable(c, t);
    Lift(m, p, u, g, c, t);
  }

  /** What the recolouring loop hands over to Case 4. */
  predicate NeedsRotation(c: Ctx, t: Tree) {
    IsRed(t) && c.In? && c.red && c.up.In? && !c.up.red && !IsRed(c.up.sib)
  }

  /** All writes of painting, in order. */
  function PaintTrace(c: Ctx, t: Tree, tree: Ptr, h: History): History
    requires t.Node?
    decreases c
  {
    match c
    case Root => Then(h, WordWrite(t.node, Word(tree, true), false))
    case In(side, p, pred, ps, up) =>
      if !pred || up.Root? then h
      else if IsRed(up.sib) then PaintTrace(up.up, Lifted(c, t), tree, LiftTrace(c, tree, h))
      else TerminalTrace(c, t, tree, h)
  }

  /**
   * `c_rbtree_paint_path`: recolour upwards until the tree is valid again (the result is NULL) or
   * a rotation is needed at the grandparent of the result.
   */
  method PaintPath(m: Memory, n0: Ptr, ghost c0: Ctx, ghost t0: Tree)
    returns (n: Ptr, ghost c: Ctx, ghost t: Tree, ghost steps: nat)
    requires m.Logged() && Focus(m.mem, c0, t0, m.tree) && Nodes(Plug(c0, t0)) <= m.footprint
    requires m.tree != NULL && m.tree in m.mem.roots && NULL !in m.mem.cells
    requires Paintable(c0, t0) && t0.node == n0
    modifies m`mem, m`history, m`writes
    ensures m.Logged() && steps == PaintSteps(c0)
    ensures n == NULL ==>
              Focus(m.mem, Root, Painted(c0, t0), m.tree) && m.history == PaintTrace(c0, t0, m.tree, old(m.history))
    ensures n != NULL ==>
              && NeedsRotation(c, t) && t.node == n && Focus(m.mem, c, t, m.tree)
              && Nodes(Plug(c, t)) <= m.footprint
              && Painted(c, t) == Painted(c0, t0)
              && PaintTrace(c, t, m.tree, m.history) == PaintTrace(c0, t0, m.tree, old(m.history))
  {
    n, c, t, steps := n0, c0, t0, 0;
    while true
      invariant m.Logged() && Focus(m.mem, c, t, m.tree) && Nodes(Plug(c, t)) <= m.footprint
      invariant m.tree in m.mem.roots && NULL !in m.mem.cells
      invariant Paintable(c, t) && t.node == n
      invariant Painted(c, t) == Painted(c0, t0) && steps + PaintSteps(c) == PaintSteps(c0)
      invariant PaintTrace(c, t, m.tree, m.history) == PaintTrace(c0, t0, m.tree, old(m.history))
      decreases c
    {
      LoopReads(m.mem, c, t, m.tree);
      var p := m.mem.cells[n].Parent();
      if p == NULL {
        PlugNodes(c, t);
        PaintRoot(m, n, c, t);
        return NULL, c, t, steps;
      } else if !m.mem.cells[p].red {
        FocusPlug(m.mem, c, t, m.tree);
        return NULL, c, t, steps;
      }
      var g := m.mem.cells[p].Parent();
      var u := OtherKid(m.mem, g, p);
      if u == NULL || !m.mem.cells[u].red {
        return n, c, t, steps;
      }
      ghost var t' := Climb(m, p, u, g, c, t);
      n, c, t, steps := g, c.up.up, t', steps + 1;
    }
  }

  /** Case 4 completes the tree. */
  method PaintRest(m: Memory, n: Ptr, ghost c: Ctx, ghost t: Tree)
    requires m.Logged() && Focus(m.mem, c, t, m.tree) && Nodes(Plug(c, t)) <= m.footprint
    requires m.tree != NULL && m.tree in m.mem.roots && NULL !in m.mem.cells && NeedsRotation(c, t) && t.node == n
    modifies m`mem, m`history, m`writes
    ensures m.Logged() && Focus(m.mem, Root, Painted(c, t), m.tree)
    ensures m.history == PaintTrace(c, t, m.tree, old(m.history))
  {
    PlugNodes(c, t);
    PaintTerminal(m, n, c, t);
    FocusPlug(m.mem, c.up.up, PaintTerminated(c, t), m.tree);
  }

  /** `c_rbtree_paint`: repair the tree after `n` was linked as a red leaf. */
  method Paint(m: Memory, n0: Ptr, ghost c: Ctx, ghost t: Tree) returns (ghost steps: nat)
    requires m.Logged() && Focus(m.mem, c, t, m.tree) && Nodes(t) + CtxNodes(c) <= m.footprint
    requires m.tree != NULL && m.tree in m.mem.roots && NULL !in m.mem.cells
    requires Paintable(c, t) && t.node == n0
    modifies m`mem, m`history, m`writes
    ensures m.Logged() && Focus(m.mem, Root, Painted(c, t), m.tree) && steps == PaintSteps(c)
    ensures m.history == PaintTrace(c, t, m.tree, old(m.history))
  {
    ghost var c', t';
    var n;
    PlugNodes(c, t);
    n, c', t', steps := PaintPath(m, n0, c, t);
    if n != NULL {
      PaintRest(m, n, c', t');
    }
  }
}
