/**
 * The one rotation behind every hard-coded rotation of the library, in terms of memory.
 * `lo` hangs in the hole of the context, with subtree `near` on `side`; `hi` is its other child, with
 * the subtrees `mid` (towards `side`) and `far`. Afterwards `hi` hangs in the hole, above `lo`.
 */
module Rotations {
  import opened Structs
  import opened Trees
  import opened Layout
  import opened Lockless

  function Kid(m: Mem, side: Side, n: Ptr): Ptr
    requires n in m.cells
  {
    if side == L then m.cells[n].left else m.cells[n].right
  }

  /** Nothing but the nodes `s` changes. */
  predicate Except(m: Mem, m': Mem, s: set<Ptr>) {
    && m'.cells.Keys == m.cells.Keys
    && forall n {:trigger m'.cells[n]} | n in m.cells && n !in s :: m'.cells[n] == m.cells[n]
  }

  lemma ExceptSame(m: Mem, m': Mem, s: set<Ptr>, t: set<Ptr>)
    requires Except(m, m', s) && s !! t && t <= m.cells.Keys
    ensures Same(m, m', t)
  {
  }

  lemma {:induction false} RepDomain(m: Mem, t: Tree, w: Word)
    requires Rep(m, t, w)
    ensures Nodes(t) <= m.cells.Keys
    decreases t
  {
    if t.Node? {
      RepDomain(m, t.left, Below(t.node));
      RepDomain(m, t.right, Below(t.node));
    }
  }

  /** Child pointers of a laid-out subtree stay inside it. */
  lemma {:induction false} RepClosed(m: Mem, t: Tree, w: Word)
    requires Rep(m, t, w)
    ensures Closed(m, Nodes(t))
    decreases t
  {
    if t.Node? {
      RepClosed(m, t.left, Below(t.node));
      RepClosed(m, t.right, Below(t.node));
      ClosedUnion(m, Nodes(t.left), Nodes(t.right));
      ClosedAdd(m, Nodes(t.left) + Nodes(t.right), t.node);
      assert Nodes(t) == Nodes(t.left) + Nodes(t.right) + {t.node};
    }
  }

  lemma {:induction false} RepCtxDomain(m: Mem, c: Ctx, hole: Ptr, tree: Ptr)
    requires RepCtx(m, c, hole, tree)
    ensures CtxNodes(c) <= m.cells.Keys
    decreases c
  {
    if c.In? {
      RepDomain(m, c.sib, Below(c.node));
      RepCtxDomain(m, c.up, c.node, tree);
    }
  }

  function Tint(t: Tree, red: bool): Tree {
    if t.Leaf? then t else t.(red := red)
  }

  function CtxTop(c: Ctx): set<Ptr> {
    if c.Root? then {} else {c.node}
  }

  /** `t` is moved below `w` and recoloured. */
  lemma MoveSubtree(m: Mem, m': Mem, s: set<Ptr>, t: Tree, w: Word, w': Word, red: bool)
    requires Rep(m, t, w) && Distinct(t) && Except(m, m', s) && s !! (Nodes(t) - {Top(t)})
    requires t.Node? ==> m'.cells[t.node] == m.cells[t.node].(word := w', red := red)
    ensures Rep(m', Tint(t, red), w')
  {
    RepDomain(m, t, w);
    if t.Node? {
      ExceptSame(m, m', s, Nodes(t) - {t.node});
      RepRetop(m, m', t, w, w', red);
    }
  }

  /** The new node is hung into the hole. */
  predicate Hung(m: Mem, m': Mem, c: Ctx, hole: Ptr, tree: Ptr) {
    match c
    case Root => m'.roots == m.roots[tree := hole]
    case In(side, n, red, sib, up) =>
      m'.roots == m.roots && n in m.cells && n in m'.cells
      && m'.cells[n] == if side == L then m.cells[n].(left := hole) else m.cells[n].(right := hole)
  }

  lemma MoveContext(m: Mem, m': Mem, s: set<Ptr>, c: Ctx, hole: Ptr, hole': Ptr, tree: Ptr)
    requires RepCtx(m, c, hole, tree) && DistinctCtx(c) && Except(m, m', s) && s !! (CtxNodes(c) - CtxTop(c))
    requires tree in m.roots && Hung(m, m', c, hole', tree)
    ensures RepCtx(m', c, hole', tree)
  {
    RepCtxDomain(m, c, hole, tree);
    if c.In? {
      ExceptSame(m, m', s, CtxNodes(c) - {c.node});
      RepCtxRehang(m, m', c, hole, hole', tree);
    }
  }

  /** Recolouring a focused node. */
  lemma RecolourFocus(m: Mem, m': Mem, c: Ctx, t: Tree, tree: Ptr, red: bool)
    requires Focus(m, c, t, tree) && t.Node? && t.node in m.cells
    requires Except(m, m', {t.node}) && m'.roots == m.roots && m'.cells[t.node] == m.cells[t.node].(red := red)
    ensures Focus(m', c, t.(red := red), tree)
    ensures Nodes(t.(red := red)) == Nodes(t)
  {
    MoveSubtree(m, m', {t.node}, t, HoleWord(c, tree), HoleWord(c, tree), red);
    RepCtxDomain(m, c, t.node, tree);
    ExceptSame(m, m', {t.node}, CtxNodes(c));
    RepCtxFrame(m, m', c, t.node, tree);
  }

  /** The pieces of a rotation, before and after. */
  datatype Turn = Turn(c: Ctx, side: Side, near: Tree, lo: Ptr, mid: Tree, hi: Ptr, far: Tree)
  {
    /** No node occurs twice. */
    predicate Apart() {
      var t := Join(side, Join(side, near, lo, false, mid), hi, false, far);
      Distinct(t) && DistinctCtx(c) && Nodes(t) !! CtxNodes(c)
    }

    predicate Laid(m: Mem, hole: Ptr, tree: Ptr, wm: Word, wf: Word) {
      && tree in m.roots && RepCtx(m, c, hole, tree)
      && Rep(m, near, Below(lo)) && Rep(m, mid, wm) && Rep(m, far, wf)
    }

    function Touched(): set<Ptr> {
      {lo, hi, Top(mid), Top(far)} + CtxTop(c)
    }

    function Turned(redLo: bool, redHi: bool, redMid: bool, redFar: bool): Tree {
      Join(side, Join(side, near, lo, redLo, Tint(mid, redMid)), hi, redHi, Tint(far, redFar))
    }

    function Low(): set<Ptr> {
      {lo} + Nodes(near) + Nodes(mid)
    }

    function All(): set<Ptr> {
      Low() + {hi} + Nodes(far)
    }
  }

  /** The touched nodes are the tops of the pieces, and nothing else. */
  lemma TurnApart(r: Turn)
    requires r.Apart() && NULL !in r.All() && NULL !in CtxNodes(r.c)
    ensures r.lo != r.hi && Distinct(r.near) && Distinct(r.mid) && Distinct(r.far) && DistinctCtx(r.c)
    ensures r.lo !in Nodes(r.near) + Nodes(r.mid) + Nodes(r.far)
    ensures r.hi !in Nodes(r.near) + Nodes(r.mid) + Nodes(r.far)
    ensures Nodes(r.near) !! Nodes(r.mid) !! Nodes(r.far)
    ensures r.All() !! CtxNodes(r.c)
  {
    var low := Join(r.side, r.near, r.lo, false, r.mid);
    assert Distinct(low) && r.hi !in Nodes(low) && Nodes(low) !! Nodes(r.far);
    assert Nodes(low) == r.Low();
    assert Nodes(Join(r.side, low, r.hi, false, r.far)) == r.All();
  }

  lemma TurnTouched(r: Turn)
    requires r.Apart() && NULL !in r.All() && NULL !in CtxNodes(r.c)
    ensures r.Touched() !! Nodes(r.near)
    ensures r.Touched() !! (Nodes(r.mid) - {Top(r.mid)})
    ensures r.Touched() !! (Nodes(r.far) - {Top(r.far)})
    ensures r.Touched() !! (CtxNodes(r.c) - CtxTop(r.c))
  {
    TurnApart(r);
    assert r.mid.Node? ==> Top(r.mid) in Nodes(r.mid);
    assert r.far.Node? ==> Top(r.far) in Nodes(r.far);
    assert CtxTop(r.c) <= CtxNodes(r.c);
  }

  lemma LaidDomain(r: Turn, m: Mem, hole: Ptr, tree: Ptr, wm: Word, wf: Word)
    requires r.Laid(m, hole, tree, wm, wf) && r.lo in m.cells && r.hi in m.cells
    ensures r.All() <= m.cells.Keys && CtxNodes(r.c) <= m.cells.Keys
  {
    RepDomain(m, r.near, Below(r.lo));
    RepDomain(m, r.mid, wm);
    RepDomain(m, r.far, wf);
    RepCtxDomain(m, r.c, hole, tree);
  }

  /** The memory after a rotation holds the rotated tree. */
  lemma TurnFocus(r: Turn, m: Mem, m': Mem, hole: Ptr, tree: Ptr, wm: Word, wf: Word,
                  redLo: bool, redHi: bool, redMid: bool, redFar: bool)
    requires r.Apart() && r.Laid(m, hole, tree, wm, wf) && NULL !in m.cells
    requires Except(m, m', r.Touched()) && r.lo in m.cells && r.hi in m.cells
    requires m'.cells[r.lo] == PairNode(r.side, Top(r.near), Top(r.mid), Below(r.hi), redLo)
    requires m'.cells[r.hi] == PairNode(r.side, r.lo, Top(r.far), HoleWord(r.c, tree), redHi)
    requires r.mid.Node? ==>
               r.mid.node in m.cells && m'.cells[r.mid.node] == m.cells[r.mid.node].(word := Below(r.lo), red := redMid)
    requires r.far.Node? ==>
               r.far.node in m.cells && m'.cells[r.far.node] == m.cells[r.far.node].(word := Below(r.hi), red := redFar)
    requires Hung(m, m', r.c, r.hi, tree)
    ensures Focus(m', r.c, r.Turned(redLo, redHi, redMid, redFar), tree)
  {
    LaidDomain(r, m, hole, tree, wm, wf);
    TurnApart(r);
    TurnTouched(r);
    TurnPieces(r, m, m', hole, tree, wm, wf, redMid, redFar);
    FocusTurned(r, m', tree, redLo, redHi, redMid, redFar);
  }

  /** The pieces survive. */
  lemma TurnPieces(r: Turn, m: Mem, m': Mem, hole: Ptr, tree: Ptr, wm: Word, wf: Word, redMid: bool, redFar: bool)
    requires r.Laid(m, hole, tree, wm, wf) && Except(m, m', r.Touched())
    requires r.Touched() !! Nodes(r.near) && Nodes(r.near) <= m.cells.Keys
    requires r.Touched() !! (Nodes(r.mid) - {Top(r.mid)}) && Distinct(r.mid)
    requires r.Touched() !! (Nodes(r.far) - {Top(r.far)}) && Distinct(r.far)
    requires r.Touched() !! (CtxNodes(r.c) - CtxTop(r.c)) && DistinctCtx(r.c)
    requires r.mid.Node? ==>
               r.mid.node in m.cells && m'.cells[r.mid.node] == m.cells[r.mid.node].(word := Below(r.lo), red := redMid)
    requires r.far.Node? ==>
               r.far.node in m.cells && m'.cells[r.far.node] == m.cells[r.far.node].(word := Below(r.hi), red := redFar)
    requires Hung(m, m', r.c, r.hi, tree)
    ensures Rep(m', r.near, Below(r.lo)) && RepCtx(m', r.c, r.hi, tree)
    ensures Rep(m', Tint(r.mid, redMid), Below(r.lo)) && Rep(m', Tint(r.far, redFar), Below(r.hi))
  {
    ExceptSame(m, m', r.Touched(), Nodes(r.near));
    RepFrame(m, m', r.near, Below(r.lo));
    MoveSubtree(m, m', r.Touched(), r.mid, wm, Below(r.lo), redMid);
    MoveSubtree(m, m', r.Touched(), r.far, wf, Below(r.hi), redFar);
    MoveContext(m, m', r.Touched(), r.c, hole, r.hi, tree);
  }

  lemma TintNodes(t: Tree, red: bool)
    ensures Nodes(Tint(t, red)) == Nodes(t) && (Distinct(Tint(t, red)) <==> Distinct(t)) && Top(Tint(t, red)) == Top(t)
  {
  }

  lemma TurnedNodes(r: Turn, redLo: bool, redHi: bool, redMid: bool, redFar: bool)
    requires r.Apart() && NULL !in r.All() && NULL !in CtxNodes(r.c)
    ensures Nodes(r.Turned(redLo, redHi, redMid, redFar)) == r.All()
    ensures Distinct(r.Turned(redLo, redHi, redMid, redFar))
  {
    TurnApart(r);
    TintNodes(r.mid, redMid);
    TintNodes(r.far, redFar);
    JoinNodes(r.side, r.near, r.lo, redLo, Tint(r.mid, redMid));
    JoinNodes(r.side, Join(r.side, r.near, r.lo, redLo, Tint(r.mid, redMid)), r.hi, redHi, Tint(r.far, redFar));
  }

  /** The pieces make up the rotated tree. */
  lemma FocusTurned(r: Turn, m: Mem, tree: Ptr, redLo: bool, redHi: bool, redMid: bool, redFar: bool)
    requires r.Apart() && NULL !in r.All() && NULL !in CtxNodes(r.c) && r.lo in m.cells && r.hi in m.cells
    requires m.cells[r.lo] == PairNode(r.side, Top(r.near), Top(r.mid), Below(r.hi), redLo)
    requires m.cells[r.hi] == PairNode(r.side, r.lo, Top(r.far), HoleWord(r.c, tree), redHi)
    requires Rep(m, r.near, Below(r.lo)) && RepCtx(m, r.c, r.hi, tree)
    requires Rep(m, Tint(r.mid, redMid), Below(r.lo)) && Rep(m, Tint(r.far, redFar), Below(r.hi))
    ensures Focus(m, r.c, r.Turned(redLo, redHi, redMid, redFar), tree)
  {
    TurnedNodes(r, redLo, redHi, redMid, redFar);
    TintNodes(r.mid, redMid);
    TintNodes(r.far, redFar);
    var low := Join(r.side, r.near, r.lo, redLo, Tint(r.mid, redMid));
    JoinRep(m, r.side, r.near, r.lo, redLo, Tint(r.mid, redMid), Below(r.hi));
    JoinRep(m, r.side, low, r.hi, redHi, Tint(r.far, redFar), HoleWord(r.c, tree));
    TurnApart(r);
  }

  /** The pieces are where a rotation expects them. */
  predicate Ready(r: Turn, m: Mem, tree: Ptr, wm: Word, wf: Word) {
    && r.Apart() && r.Laid(m, r.lo, tree, wm, wf) && r.lo in m.cells && r.hi in m.cells
    && NULL !in m.cells && tree != NULL
    && m.cells[r.lo].word == HoleWord(r.c, tree) && !m.cells[r.hi].word.isRoot && !wm.isRoot && !wf.isRoot
    && Kid(m, r.side, r.lo) == Top(r.near)
    && Kid(m, r.side, r.hi) == Top(r.mid) && Kid(m, Flip(r.side), r.hi) == Top(r.far)
  }
}
