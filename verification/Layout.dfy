/**
 * How an algebraic tree lies in memory, and how that is preserved by changes elsewhere.
 */
module Layout {
  import opened Structs
  import opened Trees

  /** The word of a node below `p`: its parent, and no ROOT bit. */
  function Below(p: Ptr): Word {
    Word(p, false)
  }

  /** The word of the node in the hole of `c` in `tree`: the root names its tree and carries the ROOT bit. */
  function HoleWord(c: Ctx, tree: Ptr): Word {
    if c.Root? then Word(tree, true) else Below(c.node)
  }

  function PairNode(side: Side, near: Ptr, far: Ptr, w: Word, red: bool): CRBNode {
    if side == L then CRBNode(near, far, w, red) else CRBNode(far, near, w, red)
  }

  predicate Rep(m: Mem, t: Tree, w: Word) {
    t.Node? ==>
      && t.node in m.cells && m.cells[t.node] == CRBNode(Top(t.left), Top(t.right), w, t.red)
      && Rep(m, t.left, Below(t.node)) && Rep(m, t.right, Below(t.node))
  }

  lemma JoinRep(m: Mem, side: Side, near: Tree, n: Ptr, red: bool, far: Tree, w: Word)
    ensures Rep(m, Join(side, near, n, red, far), w)
       <==> && n in m.cells && m.cells[n] == PairNode(side, Top(near), Top(far), w, red)
            && Rep(m, near, Below(n)) && Rep(m, far, Below(n))
  {
  }

  /** The context lies in memory, with `hole` stored in its slot. */
  predicate RepCtx(m: Mem, c: Ctx, hole: Ptr, tree: Ptr) {
    match c
    case Root => tree in m.roots && m.roots[tree] == hole
    case In(side, n, red, sib, up) =>
      && n in m.cells && m.cells[n] == PairNode(side, hole, Top(sib), HoleWord(up, tree), red)
      && Rep(m, sib, Below(n)) && RepCtx(m, up, n, tree)
  }

  /** Subtree `t` lies in the hole of context `c` of `tree`; no node occurs twice. */
  predicate Focus(m: Mem, c: Ctx, t: Tree, tree: Ptr) {
    && Rep(m, t, HoleWord(c, tree)) && RepCtx(m, c, Top(t), tree)
    && Distinct(t) && DistinctCtx(c) && Nodes(t) !! CtxNodes(c)
  }

  /** Moving the focus one layer up. */
  lemma FocusUp(m: Mem, c: Ctx, t: Tree, tree: Ptr)
    requires c.In?
    ensures Focus(m, c, t, tree) <==> Focus(m, c.up, Join(c.side, t, c.node, c.red, c.sib), tree)
  {
  }

  /** The context of the other child. */
  function Other(c: Ctx, t: Tree): Ctx
    requires c.In?
  {
    In(Flip(c.side), c.node, c.red, t, c.up)
  }

  /** Moving the focus to the other child. */
  lemma FocusOther(m: Mem, c: Ctx, t: Tree, tree: Ptr)
    requires c.In?
    ensures Focus(m, c, t, tree) <==> Focus(m, Other(c, t), c.sib, tree)
  {
  }

  lemma {:induction false} FocusPlug(m: Mem, c: Ctx, t: Tree, tree: Ptr)
    ensures Focus(m, c, t, tree) <==> Focus(m, Root, Plug(c, t), tree)
    decreases c
  {
    if c.In? {
      FocusUp(m, c, t, tree);
      FocusPlug(m, c.up, Join(c.side, t, c.node, c.red, c.sib), tree);
    }
  }

  /** The two snapshots agree on the nodes `s`. */
  predicate Same(m: Mem, m': Mem, s: set<Ptr>) {
    forall n | n in s :: n in m.cells && n in m'.cells && m.cells[n] == m'.cells[n]
  }

  lemma {:induction false} RepFrame(m: Mem, m': Mem, t: Tree, w: Word)
    requires Rep(m, t, w) && Same(m, m', Nodes(t))
    ensures Rep(m', t, w)
    decreases t
  {
    if t.Node? {
      RepFrame(m, m', t.left, Below(t.node));
      RepFrame(m, m', t.right, Below(t.node));
    }
  }

  lemma {:induction false} RepCtxFrame(m: Mem, m': Mem, c: Ctx, hole: Ptr, tree: Ptr)
    requires RepCtx(m, c, hole, tree) && Same(m, m', CtxNodes(c))
    requires tree in m.roots ==> tree in m'.roots && m.roots[tree] == m'.roots[tree]
    ensures RepCtx(m', c, hole, tree)
    decreases c
  {
    if c.In? {
      RepFrame(m, m', c.sib, Below(c.node));
      RepCtxFrame(m, m', c.up, c.node, tree);
    }
  }

  /** Only the word and the colour of the top node change. */
  predicate Retopped(m: Mem, m': Mem, t: Tree, w: Word, red: bool) {
    t.Node? ==>
      && t.node in m.cells && t.node in m'.cells
      && m'.cells[t.node] == m.cells[t.node].(word := w, red := red)
      && Same(m, m', Nodes(t) - {t.node})
  }

  /** Moving a subtree below another parent, possibly recolouring its top. */
  lemma RepRetop(m: Mem, m': Mem, t: Tree, w: Word, w': Word, red: bool)
    requires Rep(m, t, w) && Distinct(t) && Retopped(m, m', t, w', red)
    ensures Rep(m', if t.Leaf? then t else t.(red := red), w')
  {
    if t.Node? {
      RepFrame(m, m', t.left, Below(t.node));
      RepFrame(m, m', t.right, Below(t.node));
    }
  }

  /** Only the slot of the hole changes. */
  predicate Rehung(m: Mem, m': Mem, c: Ctx, hole': Ptr, tree: Ptr) {
    match c
    case Root => tree in m'.roots && m'.roots[tree] == hole'
    case In(side, n, red, sib, up) =>
      && tree in m.roots && tree in m'.roots && m.roots[tree] == m'.roots[tree]
      && n in m.cells && n in m'.cells && Same(m, m', CtxNodes(c) - {n})
      && m'.cells[n] == if side == L then m.cells[n].(left := hole') else m.cells[n].(right := hole')
  }

  /** Hanging another node into the hole. */
  lemma RepCtxRehang(m: Mem, m': Mem, c: Ctx, hole: Ptr, hole': Ptr, tree: Ptr)
    requires RepCtx(m, c, hole, tree) && DistinctCtx(c) && Rehung(m, m', c, hole', tree)
    ensures RepCtx(m', c, hole', tree)
  {
    if c.In? {
      RepFrame(m, m', c.sib, Below(c.node));
      RepCtxFrame(m, m', c.up, c.node, tree);
    }
  }

  /** What the code reads around a focused node. */
  lemma FocusReads(m: Mem, c: Ctx, t: Tree, tree: Ptr)
    requires Focus(m, c, t, tree) && t.Node? && NULL !in m.cells
    ensures t.node in m.cells && m.cells[t.node] == CRBNode(Top(t.left), Top(t.right), HoleWord(c, tree), t.red)
    ensures t.node != NULL
    ensures c.In? ==>
              && c.node in m.cells && c.node != NULL && t.node != Top(c.sib)
              && m.cells[c.node] == PairNode(c.side, t.node, Top(c.sib), HoleWord(c.up, tree), c.red)
    ensures c.In? && c.sib.Node? ==>
              && c.sib.node in m.cells && c.sib.node != NULL
              && m.cells[c.sib.node] == CRBNode(Top(c.sib.left), Top(c.sib.right), Below(c.node), c.sib.red)
  {
  }
}
