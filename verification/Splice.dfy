/**
 * Taking a node out of its place, in terms of memory: an only child takes its place, or the
 * successor does, without the two ever being swapped in full.
 */
module Splicing {
  import opened Structs
  import opened Trees
  import opened RebalanceSpec
  import opened Layout
  import opened Lockless
  import opened Rotations

  // ----- An only child, or nothing, takes the place -----

  /** `u`, a piece of the subtree in the hole, is hung into the hole instead and turns black. */
  predicate IsPromoted(m: Mem, m': Mem, c: Ctx, t: Tree, u: Tree, tree: Ptr)
    requires t.Node? && (u.Node? ==> u.node in m.cells)
  {
    && Except(m, m', {t.node, Top(u)} + CtxTop(c)) && Hung(m, m', c, Top(u), tree)
    && (u.Node? ==> m'.cells[u.node] == m.cells[u.node].(word := HoleWord(c, tree), red := false))
  }

  lemma PromotedFocus(m: Mem, m': Mem, c: Ctx, t: Tree, u: Tree, tree: Ptr)
    requires Focus(m, c, t, tree) && t.Node? && u == OnlyChild(t) && NULL !in m.cells && tree in m.roots
    requires u.Node? ==> u.node in m.cells
    requires IsPromoted(m, m', c, t, u, tree)
    ensures Focus(m', c, Blacken(u), tree)
    ensures Nodes(Blacken(u)) + CtxNodes(c) + {t.node} <= Nodes(t) + CtxNodes(c)
  {
    var s := {t.node, Top(u)} + CtxTop(c);
    RepDomain(m, t, HoleWord(c, tree));
    RepCtxDomain(m, c, t.node, tree);
    assert Rep(m, u, Below(t.node)) && Distinct(u) && Nodes(u) <= Nodes(t);
    assert u.Node? ==> u.node in Nodes(u);
    assert CtxTop(c) <= CtxNodes(c);
    assert s !! (Nodes(u) - {Top(u)}) && s !! (CtxNodes(c) - CtxTop(c));
    MoveSubtree(m, m', s, u, Below(t.node), HoleWord(c, tree), false);
    MoveContext(m, m', s, c, t.node, Top(u), tree);
    TintNodes(u, false);
  }

  // ----- The successor takes the place -----

  /** The subtree `r` with its leftmost node replaced by `u`. */
  function ReplaceMin(r: Tree, u: Tree): Tree
    requires r.Node?
  {
    if r.left.Leaf? then u else Node(ReplaceMin(r.left, u), r.node, r.red, r.right)
  }

  /** The parent of the leftmost node of `r`. */
  function MinParent(r: Tree): Ptr
    requires r.Node? && r.left.Node?
  {
    if r.left.left.Leaf? then r.node else MinParent(r.left)
  }

  lemma {:induction false} MinCtxPlug(r: Tree, up: Ctx, u: Tree)
    requires r.Node?
    ensures Plug(MinCtx(r, up), u) == Plug(up, ReplaceMin(r, u))
    decreases r
  {
    if r.left.Node? {
      MinCtxPlug(r.left, In(L, r.node, r.red, r.right, up), u);
    }
  }

  /** Where the leftmost node, its parent and its child are, and that they are different. */
  lemma {:induction false} MinPlaces(m: Mem, r: Tree, w: Word)
    requires Rep(m, r, w) && r.Node? && Distinct(r)
    ensures Min(r).node in Nodes(r) && Min(r).node in m.cells && Nodes(Min(r)) <= Nodes(r)
    ensures Distinct(Min(r)) && Rep(m, Min(r).right, Below(Min(r).node))
    ensures Nodes(Min(r).right) !! {Min(r).node} && m.cells[Min(r).node].red == Min(r).red
    ensures m.cells[Min(r).node].left == NULL && m.cells[Min(r).node].right == Top(Min(r).right)
    ensures r.left.Leaf? ==> Min(r) == r
    ensures r.left.Node? ==>
              && MinParent(r) in Nodes(r) && MinParent(r) !in Nodes(Min(r))
              && Min(r).node != r.node && r.node !in Nodes(Min(r))
              && MinParent(r) in m.cells && m.cells[Min(r).node].word == Below(MinParent(r))
    decreases r
  {
    if r.left.Node? {
      MinPlaces(m, r.left, Below(r.node));
    }
  }

  /** The shape of `r` after its leftmost node has been taken out, for readers. */
  lemma {:induction false} SpineClosed(m: Mem, r: Tree, w: Word)
    requires Rep(m, r, w) && r.Node? && r.left.Node? && Distinct(r)
    requires MinParent(r) in m.cells
    ensures Closed(PutChild(m, L, MinParent(r), Top(Min(r).right)), Nodes(r) - {Min(r).node})
    decreases r
  {
    var p, o := MinParent(r), Min(r).right;
    var m' := PutChild(m, L, p, Top(o));
    MinPlaces(m, r, w);
    MinPlaces(m, r.left, Below(r.node));
    RepClosed(m, r.right, Below(r.node));
    ClosedElsewhere(m, Nodes(r.right), L, p, Top(o));
    var low := if r.left.left.Leaf? then Nodes(o) else Nodes(r.left) - {Min(r).node};
    if r.left.left.Leaf? {
      RepClosed(m, o, Below(r.left.node));
      ClosedElsewhere(m, Nodes(o), L, p, Top(o));
    } else {
      SpineClosed(m, r.left, Below(r.node));
    }
    ClosedUnion(m', low, Nodes(r.right));
    ClosedAdd(m', low + Nodes(r.right), r.node);
    assert low + Nodes(r.right) + {r.node} == Nodes(r) - {Min(r).node};
  }

  /** Which nodes below the removed node are written, and how. */
  predicate IsSpliced(m: Mem, m': Mem, r: Tree, s: set<Ptr>, w: Word)
    requires r.Node? && r.left.Node? && MinParent(r) in m.cells && r.node in m.cells
  {
    && Except(m, m', s)
    && m'.cells[r.node] == (if MinParent(r) == r.node then m.cells[r.node].(left := Top(Min(r).right), word := w)
                            else m.cells[r.node].(word := w))
    && m'.cells[MinParent(r)].left == Top(Min(r).right)
    && (MinParent(r) != r.node ==> m'.cells[MinParent(r)] == m.cells[MinParent(r)].(left := Top(Min(r).right)))
  }

  /** The right subtree, without its leftmost node `s`, after the successor swap. */
  lemma {:induction false} SplicedRep(m: Mem, m': Mem, r: Tree, w: Word, w': Word, s: set<Ptr>, u: Tree)
    requires Rep(m, r, w) && r.Node? && r.left.Node? && Distinct(r) && r.node in m.cells && MinParent(r) in m.cells
    requires IsSpliced(m, m', r, s, w')
    requires forall x | x in s && x in Nodes(r) && x !in Nodes(Min(r)) :: x == r.node || x == MinParent(r)
    requires Rep(m', u, Below(MinParent(r))) && Top(u) == Top(Min(r).right)
    ensures Rep(m', ReplaceMin(r, u), w')
    decreases r
  {
    MinPlaces(m, r, w);
    MinPlaces(m, r.left, Below(r.node));
    RepDomain(m, r.right, Below(r.node));
    assert Min(r) == Min(r.left) && Nodes(r.right) !! Nodes(Min(r)) && Nodes(r.right) <= Nodes(r) - Nodes(Min(r));
    assert r.node !in Nodes(r.right) && MinParent(r) !in Nodes(r.right);
    forall x | x in Nodes(r.right) ensures x !in s {
      assert x in Nodes(r) && x !in Nodes(Min(r));
    }
    ExceptSame(m, m', s, Nodes(r.right));
    RepFrame(m, m', r.right, Below(r.node));
    if r.left.left.Node? {
      assert Nodes(r.left) - Nodes(Min(r)) <= Nodes(r) - Nodes(Min(r)) && r.node !in Nodes(r.left);
      assert r.left.node != MinParent(r) ==> r.left.node !in s;
      SplicedRep(m, m', r.left, Below(r.node), Below(r.node), s, u);
    }
  }

  lemma {:induction false} ReplaceMinNodes(r: Tree, u: Tree)
    requires r.Node? && Distinct(r) && Nodes(u) == Nodes(Min(r).right) && Distinct(u)
    ensures Nodes(ReplaceMin(r, u)) == Nodes(r) - {Min(r).node} && Distinct(ReplaceMin(r, u))
    decreases r
  {
    if r.left.Node? {
      ReplaceMinNodes(r.left, u);
    }
  }

  /** The parent of the successor after the swap. */
  function SuccParent(r: Tree): Ptr
    requires r.Node?
  {
    if r.left.Leaf? then r.node else MinParent(r)
  }

  /** All nodes that unlinking an inner node writes, before rebalancing. */
  function SwapTouched(c: Ctx, t: Tree): set<Ptr>
    requires t.Node? && t.left.Node? && t.right.Node?
  {
    {t.node, Min(t.right).node, t.left.node, Top(Min(t.right).right), t.right.node, SuccParent(t.right)} + CtxTop(c)
  }

  /** The successor has taken the place of the root of `t`, which keeps its stale pointers. */
  predicate IsSwapped(m: Mem, m': Mem, c: Ctx, t: Tree, tree: Ptr)
    requires t.Node? && t.left.Node? && t.right.Node? && SwapTouched(c, t) <= m.cells.Keys + {NULL}
    requires NULL !in {t.node, Min(t.right).node, t.left.node, t.right.node, SuccParent(t.right)}
  {
    var l, r, v := t.left, t.right, Min(t.right);
    var o := v.right;
    && Except(m, m', SwapTouched(c, t)) && Hung(m, m', c, v.node, tree)
    && m'.cells[v.node] == CRBNode(l.node, if r.left.Leaf? then Top(o) else r.node, HoleWord(c, tree), t.red)
    && m'.cells[l.node] == m.cells[l.node].(word := Below(v.node))
    && (o.Node? ==>
          o.node in m.cells && m'.cells[o.node] == m.cells[o.node].(word := Below(SuccParent(r)), red := false))
    && (r.left.Node? ==> IsSpliced(m, m', r, SwapTouched(c, t), Below(v.node)))
  }

  /** The nodes that are written are where they should be. */
  lemma SwapPlaces(m: Mem, c: Ctx, t: Tree, tree: Ptr)
    requires Focus(m, c, t, tree) && t.Node? && t.left.Node? && t.right.Node? && NULL !in m.cells
    ensures SwapTouched(c, t) <= m.cells.Keys + {NULL}
    ensures NULL !in {t.node, Min(t.right).node, t.left.node, t.right.node, SuccParent(t.right)}
    ensures SwapTouched(c, t) !! (Nodes(t.left) - {t.left.node})
    ensures SwapTouched(c, t) !! (Nodes(Min(t.right).right) - {Top(Min(t.right).right)})
    ensures SwapTouched(c, t) !! (CtxNodes(c) - CtxTop(c))
    ensures forall x | x in SwapTouched(c, t) && x in Nodes(t.right) && x !in Nodes(Min(t.right)) ::
              x == t.right.node || x == SuccParent(t.right)
  {
    var r, v := t.right, Min(t.right);
    RepDomain(m, t, HoleWord(c, tree));
    RepCtxDomain(m, c, t.node, tree);
    MinPlaces(m, r, Below(t.node));
    assert SuccParent(r) in Nodes(r) && v.node in Nodes(r) && r.node in Nodes(r);
    assert v.right.Node? ==> v.right.node in Nodes(v.right) && v.right.node in Nodes(v);
    assert t.left.node in Nodes(t.left);
    assert CtxTop(c) <= CtxNodes(c);
    assert Nodes(v.right) <= Nodes(v);
  }

  /** The subtree after the successor has taken the place of its root. */
  function Swapped(t: Tree): Tree
    requires t.Node? && t.left.Node? && t.right.Node?
  {
    Node(t.left, Min(t.right).node, t.red, ReplaceMin(t.right, Blacken(Min(t.right).right)))
  }

  lemma SwappedPieces(m: Mem, m': Mem, c: Ctx, t: Tree, tree: Ptr)
    requires Focus(m, c, t, tree) && t.Node? && t.left.Node? && t.right.Node? && NULL !in m.cells && tree in m.roots
    requires SwapTouched(c, t) <= m.cells.Keys + {NULL}
    requires NULL !in {t.node, Min(t.right).node, t.left.node, t.right.node, SuccParent(t.right)}
    requires IsSwapped(m, m', c, t, tree)
    ensures Rep(m', t.left, Below(Min(t.right).node)) && RepCtx(m', c, Min(t.right).node, tree)
    ensures Rep(m', ReplaceMin(t.right, Blacken(Min(t.right).right)), Below(Min(t.right).node))
  {
    var l, r, v := t.left, t.right, Min(t.right);
    var o, s := v.right, SwapTouched(c, t);
    SwapPlaces(m, c, t, tree);
    MinPlaces(m, r, Below(t.node));
    MoveSubtree(m, m', s, l, Below(t.node), Below(v.node), l.red);
    MoveSubtree(m, m', s, o, Below(v.node), Below(SuccParent(r)), false);
    MoveContext(m, m', s, c, t.node, v.node, tree);
    TintNodes(o, false);
    if r.left.Node? {
      SplicedRep(m, m', r, Below(t.node), Below(v.node), s, Blacken(o));
    }
  }

  lemma SwappedNodes(t: Tree)
    requires t.Node? && t.left.Node? && t.right.Node? && Distinct(t)
    ensures Nodes(Swapped(t)) == Nodes(t) - {t.node} && Distinct(Swapped(t))
  {
    var r, v := t.right, Min(t.right);
    TintNodes(v.right, false);
    MinRightDistinct(r);
    ReplaceMinNodes(r, Blacken(v.right));
  }

  lemma {:induction false} MinRightDistinct(r: Tree)
    requires r.Node? && Distinct(r)
    ensures Distinct(Min(r).right) && Nodes(Min(r).right) <= Nodes(r) && Min(r).node in Nodes(r)
    decreases r
  {
    if r.left.Node? {
      MinRightDistinct(r.left);
    }
  }

  lemma SwappedFocus(m: Mem, m': Mem, c: Ctx, t: Tree, tree: Ptr)
    requires Focus(m, c, t, tree) && t.Node? && t.left.Node? && t.right.Node? && NULL !in m.cells && tree in m.roots
    requires SwapTouched(c, t) <= m.cells.Keys + {NULL}
    requires NULL !in {t.node, Min(t.right).node, t.left.node, t.right.node, SuccParent(t.right)}
    requires IsSwapped(m, m', c, t, tree)
    ensures Focus(m', c, Swapped(t), tree)
  {
    SwappedPieces(m, m', c, t, tree);
    SwappedNodes(t);
    MinPlaces(m, t.right, Below(t.node));
    TintNodes(Min(t.right).right, false);
    assert Top(ReplaceMin(t.right, Blacken(Min(t.right).right)))
        == if t.right.left.Leaf? then Top(Min(t.right).right) else t.right.node;
  }

  /** Seen from the hole that the successor leaves. */
  lemma SwappedVacated(m: Mem, c: Ctx, t: Tree, tree: Ptr)
    requires t.Node? && t.left.Node? && t.right.Node? && Focus(m, c, Swapped(t), tree)
    ensures Focus(m, Vacated(c, t), Blacken(OnlyChild(Victim(t))), tree)
  {
    var o := Blacken(Min(t.right).right);
    MinCtxPlug(t.right, In(R, Min(t.right).node, t.red, t.left, c), o);
    FocusPlug(m, c, Swapped(t), tree);
    FocusPlug(m, Vacated(c, t), o, tree);
  }

  // ----- The stages of the successor swap -----

  /** The nodes written by the successor swap are different, as far as they should be. */
  predicate SwapApart(c: Ctx, t: Tree)
    requires t.Node? && t.left.Node? && t.right.Node?
  {
    var n, l, r, v := t.node, t.left.node, t.right.node, Min(t.right).node;
    var o, p := Min(t.right).right, SuccParent(t.right);
    && n !in {l, r, v, p} && l !in {r, v, p} && NULL !in {n, l, r, v, p}
    && (o.Node? ==> o.node !in {n, l, r, v, p, NULL})
    && (t.right.left.Leaf? ==> r == v && p == v)
    && (t.right.left.Node? ==> r != v && p != v)
    && (c.In? ==> c.node !in {n, l, r, v, p, Top(o), NULL})
  }

  predicate SwapIn(m: Mem, c: Ctx, t: Tree)
    requires t.Node? && t.left.Node? && t.right.Node?
  {
    && {t.node, Min(t.right).node, t.left.node, t.right.node, SuccParent(t.right)} + CtxTop(c) <= m.cells.Keys
    && (Min(t.right).right.Node? ==> Min(t.right).right.node in m.cells)
  }

  lemma SwapReads(m: Mem, c: Ctx, t: Tree, tree: Ptr)
    requires Focus(m, c, t, tree) && t.Node? && t.left.Node? && t.right.Node? && NULL !in m.cells
    ensures SwapApart(c, t) && SwapIn(m, c, t) && SwapTouched(c, t) <= m.cells.Keys + {NULL}
    ensures SwapTouched(c, t) - {NULL} <= Nodes(t) + CtxNodes(c)
  {
    var r, v := t.right, Min(t.right);
    RepDomain(m, t, HoleWord(c, tree));
    RepCtxDomain(m, c, t.node, tree);
    MinPlaces(m, r, Below(t.node));
    SwapNodes(m, r, Below(t.node));
    assert t.left.node in Nodes(t.left);
    assert c.In? ==> c.node in CtxNodes(c);
  }

  lemma SwapNodes(m: Mem, r: Tree, w: Word)
    requires Rep(m, r, w) && r.Node? && Distinct(r)
    ensures r.node in Nodes(r) && Min(r).node in Nodes(r) && SuccParent(r) in Nodes(r)
    ensures Min(r).right.Node? ==>
              && Min(r).right.node in Nodes(r) && Min(r).right.node !in {r.node, Min(r).node, SuccParent(r)}
    ensures Nodes(Min(r).right) <= Nodes(r)
    ensures r.left.Node? ==> r.node != Min(r).node && SuccParent(r) != Min(r).node
  {
  }

  /** The leftmost node of `r` has been freed from its place, unless `r` itself is the successor. */
  predicate DetachedFrom(m: Mem, d: Mem, r: Tree)
    requires r.Node? && {r.node, Min(r).node, SuccParent(r)} <= m.cells.Keys
  {
    var v, p := Min(r).node, SuccParent(r);
    if r.left.Leaf? then d == m
    else
      && d.roots == m.roots && IsSpliced(m, d, r, {p, v, r.node}, Below(v))
      && d.cells[v] == m.cells[v].(right := r.node)
  }

  predicate IsAttached(d: Mem, a: Mem, c: Ctx, t: Tree)
    requires t.Node? && t.left.Node? && t.right.Node? && SwapIn(d, c, t)
  {
    var v, l, o := Min(t.right).node, t.left.node, Min(t.right).right;
    && Except(d, a, {v, l, Top(o)}) && a.roots == d.roots
    && a.cells[v] == d.cells[v].(left := l, word := Word(if c.Root? then NULL else c.node, false), red := t.red)
    && a.cells[l] == d.cells[l].(word := Below(v))
    && (o.Node? ==> a.cells[o.node] == d.cells[o.node].(word := Below(SuccParent(t.right)), red := false))
  }

  predicate IsHungUp(a: Mem, e: Mem, c: Ctx, v: Ptr, tree: Ptr)
    requires v in a.cells
  {
    && Except(a, e, {v} + CtxTop(c)) && Hung(a, e, c, v, tree)
    && e.cells[v] == a.cells[v].(word := if c.Root? then Word(tree, true) else a.cells[v].word)
  }

  /** Everything has been written but the slot in which the successor is hung. */
  predicate IsSettled(m: Mem, a: Mem, c: Ctx, t: Tree)
    requires t.Node? && t.left.Node? && t.right.Node? && SwapIn(m, c, t)
  {
    var l, r, v := t.left, t.right, Min(t.right);
    var o := v.right;
    && Except(m, a, SwapTouched(c, t)) && a.roots == m.roots
    && (c.In? ==> a.cells[c.node] == m.cells[c.node])
    && a.cells[v.node] == CRBNode(l.node, if r.left.Leaf? then m.cells[v.node].right else r.node,
                                  Word(if c.Root? then NULL else c.node, false), t.red)
    && a.cells[l.node] == m.cells[l.node].(word := Below(v.node))
    && (o.Node? ==> a.cells[o.node] == m.cells[o.node].(word := Below(SuccParent(r)), red := false))
    && (r.left.Node? ==> IsSpliced(m, a, r, SwapTouched(c, t), Below(v.node)))
  }

  lemma SettledStages(m: Mem, m1: Mem, d: Mem, a: Mem, c: Ctx, t: Tree)
    requires t.Node? && t.left.Node? && t.right.Node? && SwapApart(c, t) && SwapIn(m, c, t)
    requires Except(m, m1, {t.node}) && m1.roots == m.roots
    requires DetachedFrom(m1, d, t.right) && SwapIn(d, c, t) && IsAttached(d, a, c, t)
    ensures IsSettled(m, a, c, t)
  {
  }

  lemma SwapStages(m: Mem, a: Mem, e: Mem, c: Ctx, t: Tree, tree: Ptr)
    requires Focus(m, c, t, tree) && t.Node? && t.left.Node? && t.right.Node? && NULL !in m.cells
    requires SwapApart(c, t) && SwapIn(m, c, t) && SwapTouched(c, t) <= m.cells.Keys + {NULL}
    requires IsSettled(m, a, c, t) && IsHungUp(a, e, c, Min(t.right).node, tree)
    ensures IsSwapped(m, e, c, t, tree)
  {
    MinPlaces(m, t.right, Below(t.node));
  }

  // ----- The stores of the successor swap -----

  /** The right subtree without the successor. */
  function Rest(r: Tree): set<Ptr>
    requires r.Node?
  {
    Nodes(r) - {Min(r).node}
  }

  function DetachStore1(m: Mem, r: Tree): Mem
    requires r.Node? && r.left.Node? && MinParent(r) in m.cells
  {
    PutChild(m, L, MinParent(r), Top(Min(r).right))
  }

  lemma DetachAdmissible(m: Mem, r: Tree, w: Word)
    requires Rep(m, r, w) && r.Node? && r.left.Node? && Distinct(r) && MinParent(r) in m.cells
    ensures Admissible(m, Child(L, MinParent(r)), Top(Min(r).right), Nodes(Min(r).right))
    ensures Admissible(DetachStore1(m, r), Child(R, Min(r).node), r.node, Rest(r))
    ensures Nodes(Min(r).right) <= Nodes(r) && r.node in m.cells && Min(r).node in m.cells
  {
    MinPlaces(m, r, w);
    RepClosed(m, Min(r).right, Below(Min(r).node));
    SpineClosed(m, r, w);
    assert Nodes(Min(r).right) <= Nodes(Min(r));
  }

  /** After the successor has been detached, what will be below it is closed. */
  lemma DetachedClosed(m: Mem, d: Mem, l: Tree, r: Tree, w: Word, wr: Word, red: bool)
    requires Rep(m, r, w) && Rep(m, l, w) && r.Node? && Distinct(r) && Nodes(l) !! Nodes(r)
    requires if r.left.Leaf? then d == m
             else MinParent(r) in m.cells && Min(r).node in m.cells && r.node in m.cells &&
                  d == PutWord(PutChild(DetachStore1(m, r), R, Min(r).node, r.node), r.node, wr, red)
    ensures Closed(d, Nodes(l)) && Closed(d, Rest(r))
  {
    MinPlaces(m, r, w);
    RepClosed(m, l, w);
    if r.left.Leaf? {
      RepClosed(m, r.right, Below(r.node));
      assert Rest(r) == Nodes(r.right);
    } else {
      var v := Min(r).node;
      var d1 := DetachStore1(m, r);
      SpineClosed(m, r, w);
      ClosedElsewhere(m, Nodes(l), L, MinParent(r), Top(Min(r).right));
      ClosedElsewhere(d1, Nodes(l), R, v, r.node);
      ClosedElsewhere(d1, Rest(r), R, v, r.node);
      PutWordClosed(PutChild(d1, R, v, r.node), r.node, wr, red, Nodes(l));
      PutWordClosed(PutChild(d1, R, v, r.node), r.node, wr, red, Rest(r));
    }
  }

  /** After the successor has taken the left subtree, everything below it is closed. */
  lemma AttachedClosed(d: Mem, l: Tree, r: Tree)
    requires r.Node? && Closed(d, Nodes(l)) && Closed(d, Rest(r)) && Nodes(l) !! Nodes(r)
    requires Min(r).node in d.cells && NullOrIn(d.cells[Min(r).node].right, Rest(r))
    ensures var a := PutChild(d, L, Min(r).node, Top(l));
            Closed(a, Nodes(l) + Rest(r) + {Min(r).node})
  {
    var v := Min(r).node;
    var a := PutChild(d, L, v, Top(l));
    ClosedElsewhere(d, Nodes(l), L, v, Top(l));
    ClosedElsewhere(d, Rest(r), L, v, Top(l));
    ClosedUnion(a, Nodes(l), Rest(r));
    ClosedAdd(a, Nodes(l) + Rest(r), v);
  }

  lemma {:induction false} MinCtxNode(r: Tree, up: Ctx)
    requires r.Node? && r.left.Node?
    ensures MinCtx(r, up).In? && MinCtx(r, up).node == MinParent(r)
    decreases r
  {
    if r.left.left.Node? {
      MinCtxNode(r.left, In(L, r.node, r.red, r.right, up));
    }
  }

  /** The hole that the successor leaves: its parent, its nodes, and what is missing there. */
  lemma VacatedHole(c: Ctx, t: Tree)
    requires t.Node? && t.left.Node? && t.right.Node? && Distinct(t)
    ensures Vacated(c, t).In? && Vacated(c, t).node == SuccParent(t.right)
    ensures Nodes(Blacken(Min(t.right).right)) + CtxNodes(Vacated(c, t)) == Nodes(t) - {t.node} + CtxNodes(c)
  {
    var up := In(R, Min(t.right).node, t.red, t.left, c);
    if t.right.left.Node? { MinCtxNode(t.right, up); }
    MinCtxPlug(t.right, up, Blacken(Min(t.right).right));
    PlugNodes(Vacated(c, t), Blacken(Min(t.right).right));
    PlugNodes(c, Swapped(t));
    SwappedNodes(t);
  }

  /** A black leaf that goes away leaves its hole one black node short. */
  lemma VacatedDeficient(c: Ctx, t: Tree)
    requires t.Node? && RB(Plug(c, t)) && !IsRed(Plug(c, t))
    requires OnlyChild(Victim(t)).Leaf? && !Victim(t).red
    ensures Deficient(Vacated(c, t), Leaf)
  {
    VacatedRB(c, t);
  }
}
