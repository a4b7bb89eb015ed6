/** Removal: `c_rbnode_rebalance_path`, `c_rbnode_rebalance_terminal`, `c_rbnode_rebalance`. */
module Removal {
  import opened Structs
  import opened Trees
  import opened RebalanceSpec
  import opened Layout
  import opened Lockless
  import opened Memories
  import opened Rotations
  import opened Relinking
  import opened Folds
  import opened Insertion

  // ----- Case 3+4: recolouring upwards -----

  lemma RecolouredFocus(m: Mem, m1: Mem, m2: Mem, c: Ctx, t: Tree, tree: Ptr)
    requires Focus(m, c, t, tree) && c.In? && c.sib.Node? && c.node in m.cells && c.sib.node in m.cells
    requires m1 == PutWord(m, c.sib.node, Below(c.node), true)
    requires m2 == m1 || m2 == PutWord(m1, c.node, m1.cells[c.node].word, false)
    requires m2 == m1 ==> !c.red
    ensures Focus(m2, c.up, Recoloured(c, t), tree)
    ensures Nodes(Recoloured(c, t)) + CtxNodes(c.up) == Nodes(t) + CtxNodes(c)
  {
    FocusOther(m, c, t, tree);
    RecolourFocus(m, m1, Other(c, t), c.sib, tree, true);
    var sib := c.sib.(red := true);
    FocusUp(m1, Other(c, t), sib, tree);
    assert Join(Flip(c.side), sib, c.node, c.red, t) == Join(c.side, t, c.node, c.red, sib);
    var low := Join(c.side, t, c.node, c.red, sib);
    if c.red {
      RecolourFocus(m1, m2, c.up, low, tree, false);
    } else if m2 != m1 {
      RecolourFocus(m1, m2, c.up, low, tree, false);
    }
    JoinNodes(c.side, t, c.node, false, sib);
  }

  function RecolourTrace(c: Ctx, tree: Ptr, h: History): History
    requires c.In? && c.sib.Node?
  {
    var h' := Then(h, WordWrite(c.sib.node, Below(c.node), true));
    if c.red then Then(h', WordWrite(c.node, HoleWord(c.up, tree), false)) else h'
  }

  /** The sibling turns red, a red parent black. */
  method Recolour(m: Memory, p: Ptr, s: Ptr, ghost c: Ctx, ghost t: Tree) returns (done: bool)
    requires m.Logged() && Focus(m.mem, c, t, m.tree) && Nodes(t) + CtxNodes(c) <= m.footprint
    requires c.In? && c.sib.Node? && p == c.node && s == c.sib.node && (c.red ==> c.up.In?) && NULL !in m.mem.cells
    modifies m`mem, m`history, m`writes
    ensures m.Logged() && Focus(m.mem, c.up, Recoloured(c, t), m.tree)
    ensures Nodes(Recoloured(c, t)) + CtxNodes(c.up) <= m.footprint
    ensures done == c.red && p in m.mem.cells && m.mem.cells[p].word == HoleWord(c.up, m.tree)
    ensures m.history == RecolourTrace(c, m.tree, old(m.history))
  {
    ghost var m0 := m.mem;
    SiblingReads(m0, c, t, m.tree);
    m.SetWord(s, p, true, m.mem.cells[s].word.isRoot);
    ghost var m1 := m.mem;
    done := m.mem.cells[p].red;
    if done {
      m.SetWord(p, m.mem.cells[p].Parent(), false, m.mem.cells[p].word.isRoot);
    }
    RecolouredFocus(m0, m1, m.mem, c, t, m.tree);
  }

  lemma SiblingReads(m: Mem, c: Ctx, t: Tree, tree: Ptr)
    requires Focus(m, c, t, tree) && c.In? && c.sib.Node? && NULL !in m.cells
    ensures c.node in m.cells && c.sib.node in m.cells && c.node != c.sib.node && NULL !in {c.node, c.sib.node}
    ensures m.cells[c.node] == PairNode(c.side, Top(t), c.sib.node, HoleWord(c.up, tree), c.red)
    ensures m.cells[c.sib.node] == CRBNode(Top(c.sib.left), Top(c.sib.right), Below(c.node), c.sib.red)
    ensures Top(t) != c.sib.node
    ensures c.node in CtxNodes(c) && c.sib.node in CtxNodes(c)
    ensures c.sib.left.Node? ==>
              && Top(c.sib.left) != NULL && Top(c.sib.left) in m.cells
              && m.cells[Top(c.sib.left)].red == c.sib.left.red
    ensures c.sib.right.Node? ==>
              && Top(c.sib.right) != NULL && Top(c.sib.right) in m.cells
              && m.cells[Top(c.sib.right)].red == c.sib.right.red
  {
    assert c.sib.node in Nodes(c.sib);
    assert t.Node? ==> t.node in Nodes(t);
    assert Rep(m, c.sib, Below(c.node));
    assert Rep(m, c.sib.left, Below(c.sib.node)) && Rep(m, c.sib.right, Below(c.sib.node));
  }

  predicate RedNode(m: Mem, n: Ptr) {
    n != NULL && n in m.cells && m.cells[n].red
  }

  /** What one iteration of the loop reads: the sibling exists, and its colours decide. */
  lemma PathReads(m: Mem, c: Ctx, t: Tree, tree: Ptr)
    requires Focus(m, c, t, tree) && Deficient(c, t) && c.In? && NULL !in m.cells
    ensures c.sib.Node? && (c.red ==> c.up.In?) && c.node in m.cells
    ensures OtherKid(m, c.node, Top(t)) == c.sib.node
    ensures var s := c.sib.node;
            && s in m.cells
            && NullOrIn(m.cells[s].left, m.cells.Keys) && NullOrIn(m.cells[s].right, m.cells.Keys)
            && (m.cells[s].red || RedNode(m, m.cells[s].left) || RedNode(m, m.cells[s].right) <==> !AllBlack(c.sib))
  {
    SiblingReads(m, c, t, tree);
  }

  // ----- The rotations: their pieces, and their writes in order -----

  /** The pieces of Case 2, and of Case 6 without Case 5: `c.node` goes below its child `c.sib`. */
  function SiblingTurn(c: Ctx, t: Tree): Turn
    requires c.In? && c.sib.Node?
  {
    Turn(c.up, c.side, t, c.node, Near(c.side, c.sib), c.sib.node, Far(c.side, c.sib))
  }

  lemma SiblingReady(m: Mem, tree: Ptr, c: Ctx, t: Tree)
    requires Focus(m, c, t, tree) && NULL !in m.cells && tree != NULL && tree in m.roots && c.In? && c.sib.Node?
    ensures Ready(SiblingTurn(c, t), m, tree, Below(c.sib.node), Below(c.sib.node))
    ensures SiblingTurn(c, t).All() + CtxNodes(c.up) == Nodes(t) + CtxNodes(c)
    ensures c.node in m.cells && m.cells[c.node].red == c.red
  {
  }

  /** The pieces of Case 5: the sibling goes below its child on the side of the hole. */
  function NephewTurn(c: Ctx, t: Tree): Turn
    requires c.In? && c.sib.Node? && Near(c.side, c.sib).Node?
  {
    var y := Near(c.side, c.sib);
    Turn(Other(c, t), Flip(c.side), Far(c.side, c.sib), c.sib.node, Far(c.side, y), y.node, Near(c.side, y))
  }

  lemma NephewReady(m: Mem, tree: Ptr, c: Ctx, t: Tree)
    requires Focus(m, c, t, tree) && NULL !in m.cells && tree != NULL && tree in m.roots
    requires c.In? && c.sib.Node? && Near(c.side, c.sib).Node?
    ensures var r := NephewTurn(c, t); var y := Near(c.side, c.sib).node;
            && Ready(r, m, tree, Below(y), Below(y)) && r.c.side == r.side
            && r.All() + CtxNodes(r.c) == Nodes(t) + CtxNodes(c)
            && m.cells[r.lo].word == Below(c.node) && m.cells[r.lo].red == c.sib.red
  {
    FocusOther(m, c, t, tree);
    FocusReady(m, tree, NephewTurn(c, t), c.sib.red, Near(c.side, c.sib).red);
  }

  lemma NephewHung(m: Mem, m3: Mem, tree: Ptr, c: Ctx, t: Tree)
    requires c.In? && c.sib.Node? && Near(c.side, c.sib).Node?
    requires var r := NephewTurn(c, t); var y := Near(c.side, c.sib).node;
             && Ready(r, m, tree, Below(y), Below(y)) && ReadyIn(r, m)
             && IsFolded(r, m, m3, Below(c.node), c.sib.red, false, true)
    ensures var r := Outer(NephewTurn(c, t), c.sib.red, false);
            && Ready(r, m3, tree, Below(r.hi), Below(c.node))
            && r.All() + CtxTop(r.c) <= NephewTurn(c, t).All() + CtxNodes(NephewTurn(c, t).c)
  {
    var r := NephewTurn(c, t);
    ReadyTops(r, m, tree, Below(r.hi), Below(r.hi));
    FoldedReady(r, m, m3, tree, Below(c.node), c.sib.red, false, true);
    OuterNodes(r, c.sib.red, false);
  }

  /** The context of the hole after Case 2: the parent is red and the sibling is the old near nephew. */
  function Case2Ctx(c: Ctx): (r: Ctx)
    requires c.In? && c.sib.Node?
    ensures r.In?
  {
    In(c.side, c.node, true, Blacken(Near(c.side, c.sib)), In(c.side, c.sib.node, false, Far(c.side, c.sib), c.up))
  }

  lemma Case2Focus(m: Mem, c: Ctx, t: Tree, tree: Ptr)
    requires c.In? && c.sib.Node? && Near(c.side, c.sib).Node?
    requires Focus(m, c.up, SiblingTurn(c, t).Turned(true, false, false, IsRed(Far(c.side, c.sib))), tree)
    ensures Focus(m, Case2Ctx(c), t, tree)
    ensures Nodes(t) + CtxNodes(Case2Ctx(c)) == Nodes(t) + CtxNodes(c)
  {
    var c' := Case2Ctx(c);
    FocusUp(m, c', t, tree);
    FocusUp(m, c'.up, Join(c'.side, t, c'.node, c'.red, c'.sib), tree);
    TintNodes(Near(c.side, c.sib), false);
  }

  /** The pieces of Case 6, after Case 5 if that comes first. */
  function Case6Turn(c: Ctx, t: Tree): Turn
    requires c.In? && c.sib.Node? && (IsRed(Far(c.side, c.sib)) || IsRed(Near(c.side, c.sib)))
  {
    if IsRed(Far(c.side, c.sib)) then SiblingTurn(c, t) else Outer(NephewTurn(c, t), c.sib.red, false)
  }

  /** Colours after Case 2: the parent red, the old sibling and the new one black. */
  function Case2Tints(r: Turn): Tints {
    Tints(true, false, false, IsRed(r.far), false)
  }

  /** Colours after Case 6: the sibling takes over the colour of the parent, the parent and `far` are black. */
  function Case6Tints(r: Turn, red: bool): Tints {
    Tints(false, red, IsRed(r.mid), false, true)
  }

  /** The writes of Case 5, if that comes before Case 6. */
  function Case5Trace(c: Ctx, t: Tree, h: History): History
    requires c.In? && c.sib.Node? && (IsRed(Far(c.side, c.sib)) || IsRed(Near(c.side, c.sib)))
  {
    if IsRed(Far(c.side, c.sib)) then h else HungTrace(NephewTurn(c, t), h)
  }

  /** The writes once the sibling is black. */
  function BlackTrace(c: Ctx, t: Tree, tree: Ptr, h: History): History
    requires c.In? && c.sib.Node?
  {
    if !IsRed(Far(c.side, c.sib)) && !IsRed(Near(c.side, c.sib)) then RecolourTrace(c, tree, h)
    else
      var r := Case6Turn(c, t);
      TurnTrace(r, Case6Tints(r, c.red), c.red, tree, Case5Trace(c, t, h))
  }

  /** All writes of the rotations. */
  function RotationTrace(c: Ctx, t: Tree, tree: Ptr, h: History): History
    requires c.In? && c.sib.Node? && (c.sib.red ==> Near(c.side, c.sib).Node?)
  {
    if c.sib.red then
      var r := SiblingTurn(c, t);
      BlackTrace(Case2Ctx(c), t, tree, TurnTrace(r, Case2Tints(r), c.red, tree, h))
    else BlackTrace(c, t, tree, h)
  }

  /** All writes of rebalancing. */
  function RebalanceTrace(c: Ctx, t: Tree, tree: Ptr, h: History): History
    decreases c
  {
    match c
    case Root => h
    case In(side, p, pred, s, up) =>
      if AllBlack(s) then
        var h' := RecolourTrace(c, tree, h);
        if pred then h' else RebalanceTrace(up, Recoloured(c, t), tree, h')
      else if s.Leaf? || (s.red && Near(side, s).Leaf?) then h
      else RotationTrace(c, t, tree, h)
  }

  // ----- The loop -----

  /** What the loop hands over to the rotations. */
  predicate NeedsTerminal(c: Ctx, t: Tree) {
    Deficient(c, t) && c.In? && !AllBlack(c.sib)
  }

  /** The hole of `c` hangs below `p`, on the side on which `p` points to `previous`. */
  predicate HangsAt(c: Ctx, t: Tree, p: Ptr, previous: Ptr) {
    p == (if c.Root? then NULL else c.node) && previous == Top(t)
  }

  /** One iteration of the loop, at a sibling `s` that is black and has black children, and where it leads. */
  method Climb(m: Memory, p: Ptr, s: Ptr, ghost c: Ctx, ghost t: Tree) returns (done: bool, next: Ptr, ghost t': Tree)
    requires m.Logged() && Focus(m.mem, c, t, m.tree) && Nodes(Plug(c, t)) <= m.footprint && NULL !in m.mem.cells
    requires Deficient(c, t) && c.In? && AllBlack(c.sib) && (c.red ==> c.up.In?) && p == c.node && s == c.sib.node
    modifies m`mem, m`history, m`writes
    ensures m.Logged() && NULL !in m.mem.cells
    ensures done ==>
              && Focus(m.mem, Root, Rebalanced(c, t), m.tree) && RebalanceSteps(c) == 1
              && m.history == RebalanceTrace(c, t, m.tree, old(m.history))
    ensures !done ==>
              && Focus(m.mem, c.up, t', m.tree) && Nodes(Plug(c.up, t')) <= m.footprint && HangsAt(c.up, t', next, p)
              && Deficient(c.up, t') && Rebalanced(c.up, t') == Rebalanced(c, t)
              && RebalanceSteps(c) == 1 + RebalanceSteps(c.up)
              && RebalanceTrace(c.up, t', m.tree, m.history) == RebalanceTrace(c, t, m.tree, old(m.history))
  {
    t' := Recoloured(c, t);
    PlugNodes(c, t);
    PlugNodes(c.up, t');
    done := Recolour(m, p, s, c, t);
    RecolouredRB(c, t);
    if done {
      next := NULL;
      FocusPlug(m.mem, c.up, t', m.tree);
    } else {
      next := m.mem.cells[p].Parent();
    }
  }

  /** The test of the loop: it stops unless the sibling `s` and both nephews are black. */
  method SiblingTest(m: Mem, p: Ptr, previous: Ptr, ghost c: Ctx, ghost t: Tree, ghost tree: Ptr)
    returns (s: Ptr, stop: bool)
    requires Focus(m, c, t, tree) && Deficient(c, t) && c.In? && NULL !in m.cells && HangsAt(c, t, p, previous)
    ensures c.sib.Node? && s == c.sib.node && stop == !AllBlack(c.sib) && (c.red ==> c.up.In?)
  {
    PathReads(m, c, t, tree);
    s := OtherKid(m, p, previous);
    var nl := m.cells[s].left;
    var nr := m.cells[s].right;
    stop := m.cells[s].red || (nl != NULL && m.cells[nl].red) || (nr != NULL && m.cells[nr].red);
  }

  /**
   * `c_rbnode_rebalance_path`: recolour upwards until the missing black node is made up for (the
   * result is NULL) or a rotation is needed at the result.
   */
  method RebalancePath(m: Memory, p0: Ptr, previous0: Ptr, ghost c0: Ctx, ghost t0: Tree)
    returns (p: Ptr, previous: Ptr, ghost c: Ctx, ghost t: Tree, ghost steps: nat)
    requires m.Logged() && Focus(m.mem, c0, t0, m.tree) && Nodes(Plug(c0, t0)) <= m.footprint
    requires NULL !in m.mem.cells && HangsAt(c0, t0, p0, previous0) && Deficient(c0, t0)
    modifies m`mem, m`history, m`writes
    ensures m.Logged() && steps == RebalanceSteps(c0)
    ensures p == NULL ==>
              && Focus(m.mem, Root, Rebalanced(c0, t0), m.tree)
              && m.history == RebalanceTrace(c0, t0, m.tree, old(m.history))
    ensures p != NULL ==>
              && NeedsTerminal(c, t) && HangsAt(c, t, p, previous) && Focus(m.mem, c, t, m.tree)
              && Nodes(Plug(c, t)) <= m.footprint
              && Rebalanced(c, t) == Rebalanced(c0, t0)
              && RebalanceTrace(c, t, m.tree, m.history) == RebalanceTrace(c0, t0, m.tree, old(m.history))
  {
    p, previous, c, t, steps := p0, previous0, c0, t0, 0;
    while p != NULL
      invariant m.Logged() && Focus(m.mem, c, t, m.tree) && Nodes(Plug(c, t)) <= m.footprint
      invariant NULL !in m.mem.cells && HangsAt(c, t, p, previous) && Deficient(c, t)
      invariant Rebalanced(c, t) == Rebalanced(c0, t0) && steps + RebalanceSteps(c) == RebalanceSteps(c0)
      invariant RebalanceTrace(c, t, m.tree, m.history) == RebalanceTrace(c0, t0, m.tree, old(m.history))
      decreases c
    {
      var s, stop := SiblingTest(m.mem, p, previous, c, t, m.tree);
      if stop { return; }
      var done, next;
      ghost var t';
      done, next, t' := Climb(m, p, s, c, t);
      steps := steps + 1;
      if done { return NULL, previous, c, t, steps; }
      previous, p := p, next;
      c, t := c.up, t';
    }
  }

  // ----- The words, which are alike in both arms -----

  method Case2Words(m: Memory, p: Ptr, s: Ptr, x: Ptr, g: Ptr, ghost r: Turn)
    requires m.Logged() && Wordable(r, m.mem) && r.mid.Node?
    requires p in m.footprint && s in m.footprint && x in m.footprint
    requires r.lo == p && r.hi == s && x == r.mid.node && g == if r.c.Root? then NULL else r.c.node
    modifies m`mem, m`history, m`writes
    ensures m.Logged() && ReadyIn(r, old(m.mem)) && m.mem == Worded(r, old(m.mem), Case2Tints(r))
    ensures m.history == WordsTrace(r, Case2Tints(r), old(m.history))
    ensures Closed(old(m.mem), r.All()) ==> Closed(m.mem, r.All())
  {
    m.SetWord(x, p, false, m.mem.cells[x].word.isRoot);
    m.SetWord(s, g, false, m.mem.cells[s].word.isRoot);
    m.SetWord(p, s, true, m.mem.cells[p].word.isRoot);
  }

  method Case6Words(m: Memory, p: Ptr, s: Ptr, x: Ptr, y: Ptr, g: Ptr, ghost r: Turn)
    requires m.Logged() && Wordable(r, m.mem) && r.far.Node?
    requires p in m.footprint && s in m.footprint && x in m.footprint && (y != NULL ==> y in m.footprint)
    requires r.lo == p && r.hi == s && x == r.far.node && y == Top(r.mid) && g == if r.c.Root? then NULL else r.c.node
    requires r.mid.Node? ==> m.mem.cells[y].red == r.mid.red
    modifies m`mem, m`history, m`writes
    ensures m.Logged() && ReadyIn(r, old(m.mem))
    ensures m.mem == Worded(r, old(m.mem), Case6Tints(r, old(m.mem).cells[p].red))
    ensures m.history == WordsTrace(r, Case6Tints(r, old(m.mem).cells[p].red), old(m.history))
    ensures Closed(old(m.mem), r.All()) ==> Closed(m.mem, r.All())
  {
    m.SetWord(x, s, false, m.mem.cells[x].word.isRoot);
    if y != NULL {
      m.SetWord(y, p, m.mem.cells[y].red, m.mem.cells[y].word.isRoot);
    }
    m.SetWord(s, g, m.mem.cells[p].red, m.mem.cells[p].word.isRoot);
    m.SetWord(p, s, false, m.mem.cells[p].word.isRoot);
  }

  // ----- Cases 2, 5 and 6 -----

  lemma NephewReads(m: Mem, c: Ctx, t: Tree, tree: Ptr)
    requires Focus(m, c, t, tree) && c.In? && c.sib.Node? && NULL !in m.cells
    ensures c.node in m.cells && c.sib.node in m.cells
    ensures m.cells[c.node].red == c.red && m.cells[c.sib.node].red == c.sib.red
    ensures Kid(m, Flip(c.side), c.node) == c.sib.node && (m.cells[c.node].left == Top(t) <==> c.side == L)
    ensures KidIs(m, Kid(m, c.side, c.sib.node), Near(c.side, c.sib))
    ensures KidIs(m, Kid(m, Flip(c.side), c.sib.node), Far(c.side, c.sib))
  {
    SiblingReads(m, c, t, tree);
  }

  predicate KidIs(m: Mem, n: Ptr, t: Tree) {
    n == Top(t) && (t.Node? <==> n != NULL) && (n != NULL ==> n in m.cells && m.cells[n].red == t.red)
  }

  lemma Case6Turned(c: Ctx, t: Tree)
    requires c.In? && c.sib.Node? && (IsRed(Far(c.side, c.sib)) || IsRed(Near(c.side, c.sib)))
    ensures var r := Case6Turn(c, t);
            r.Turned(false, c.red, IsRed(r.mid), false) == BlackSibling(c.side, t, c.node, c.red, c.sib)
  {
  }

  /** Case 2 may start, and leads to a black sibling. */
  lemma Case2Prepared(m: Mem, tree: Ptr, c: Ctx, t: Tree)
    requires Focus(m, c, t, tree) && NULL !in m.cells && tree != NULL && tree in m.roots
    requires c.In? && c.sib.Node? && c.sib.red && Near(c.side, c.sib).Node?
    ensures var r := SiblingTurn(c, t);
            && Turnable(r, m, tree) && r.All() + CtxTop(r.c) <= Nodes(t) + CtxNodes(c) && m.cells[c.node].red == c.red
            && Focus(TurnMem(r, m, Case2Tints(r), tree), Case2Ctx(c), t, tree)
            && Nodes(t) + CtxNodes(Case2Ctx(c)) == Nodes(t) + CtxNodes(c)
  {
    var r, w := SiblingTurn(c, t), Below(c.sib.node);
    SiblingReady(m, tree, c, t);
    TurnPrepared(r, m, tree, w, w);
    TurnDone(r, m, Case2Tints(r), tree, w, w);
    Case2Focus(TurnMem(r, m, Case2Tints(r), tree), c, t, tree);
  }

  /** The rotated subtree after Case 2 hangs below the old sibling. */
  lemma Case2Plug(m: Mem, tree: Ptr, c: Ctx, t: Tree)
    requires c.In? && c.sib.Node? && c.sib.red && Near(c.side, c.sib).Node?
    requires Focus(m, Case2Ctx(c).up, BlackSibling(c.side, t, c.node, true, Case2Ctx(c).sib), tree)
    ensures Focus(m, c.up, Terminated(c, t), tree)
  {
    FocusUp(m, Case2Ctx(c).up, BlackSibling(c.side, t, c.node, true, Case2Ctx(c).sib), tree);
  }

  lemma Case2Nodes(c: Ctx)
    requires c.In? && c.sib.Node? && c.sib.red && Near(c.side, c.sib).Node?
    ensures CtxNodes(Case2Ctx(c)) == CtxNodes(c)
  {
    TintNodes(Near(c.side, c.sib), false);
  }

  /** Case 5 may start at a red near nephew with a black far one, and leaves what Case 6 starts from. */
  lemma Case5Prepared(m: Mem, tree: Ptr, c: Ctx, t: Tree)
    requires Focus(m, c, t, tree) && NULL !in m.cells && tree != NULL && tree in m.roots
    requires c.In? && c.sib.Node? && !IsRed(Far(c.side, c.sib)) && IsRed(Near(c.side, c.sib))
    ensures var b := NephewTurn(c, t);
            Hangable(b, m) && b.All() + CtxTop(b.c) <= Nodes(t) + CtxNodes(c)
    ensures var r, m' := Case6Turn(c, t), HungMem(NephewTurn(c, t), m);
            && Ready(r, m', tree, Below(r.hi), Below(c.node)) && r.All() + CtxTop(r.c) <= Nodes(t) + CtxNodes(c)
            && m'.cells[c.node].red == c.red
  {
    NephewReady(m, tree, c, t);
    NephewHangable(m, tree, c, t);
    NephewHung(m, HungMem(NephewTurn(c, t), m), tree, c, t);
  }

  lemma NephewHangable(m: Mem, tree: Ptr, c: Ctx, t: Tree)
    requires Focus(m, c, t, tree) && NULL !in m.cells && tree != NULL && tree in m.roots
    requires c.In? && c.sib.Node? && Near(c.side, c.sib).Node?
    ensures var b := NephewTurn(c, t);
            && Hangable(b, m) && b.All() + CtxTop(b.c) <= Nodes(t) + CtxNodes(c)
            && IsFolded(b, m, HungMem(b, m), Below(c.node), c.sib.red, false, true)
            && HungMem(b, m).cells[c.node].red == c.red
  {
    NephewReady(m, tree, c, t);
    HangReady(NephewTurn(c, t), m, tree, Below(Near(c.side, c.sib).node));
    SiblingReads(m, c, t, tree);
  }

  // ----- The left arm -----

  method Case2StoresLeft(m: Memory, p: Ptr, s: Ptr, x: Ptr, ghost r: Turn)
    requires m.Logged() && Relinkable(r, m.mem) && r.All() + CtxTop(r.c) <= m.footprint
    requires r.side == L && r.lo == p && r.hi == s && x == Top(r.mid)
    modifies m`mem, m`history, m`writes
    ensures m.Logged() && Relinkable(r, old(m.mem)) && m.mem == Stored(r, old(m.mem))
    ensures m.history == StoresTrace(r, old(m.history))
  {
    m.Store(Child(R, p), x, Nodes(r.mid));
    m.Store(Child(L, s), p, r.Low());
    m.SwapChild(p, s, if r.c.In? then r.c.side else L, r.All());
  }

  method Case2RelinkLeft(m: Memory, p: Ptr, s: Ptr, x: Ptr, g: Ptr, ghost r: Turn)
    requires m.Logged() && Relinkable(r, m.mem) && Wordable(r, Stored(r, m.mem)) && r.All() + CtxTop(r.c) <= m.footprint
    requires r.side == L && r.lo == p && r.hi == s && r.mid.Node? && x == r.mid.node && x in r.All()
    requires g == if r.c.Root? then NULL else r.c.node
    modifies m`mem, m`history, m`writes
    ensures m.Logged() && Relinkable(r, old(m.mem)) && ReadyIn(r, Stored(r, old(m.mem)))
    ensures m.mem == Worded(r, Stored(r, old(m.mem)), Case2Tints(r)) && Closed(m.mem, r.All())
    ensures m.history == WordsTrace(r, Case2Tints(r), StoresTrace(r, old(m.history)))
  {
    Case2StoresLeft(m, p, s, x, r);
    Case2Words(m, p, s, x, g, r);
  }

  method Case2TurnLeft(m: Memory, p: Ptr, s: Ptr, ghost r: Turn) returns (x: Ptr)
    requires m.Logged() && Turnable(r, m.mem, m.tree) && r.All() + CtxTop(r.c) <= m.footprint
    requires r.side == L && r.lo == p && r.hi == s && r.mid.Node?
    modifies m`mem, m`history, m`writes
    ensures m.Logged() && Turnable(r, old(m.mem), m.tree) && m.mem == TurnMem(r, old(m.mem), Case2Tints(r), m.tree)
    ensures m.history == TurnTrace(r, Case2Tints(r), old(m.mem).cells[p].red, m.tree, old(m.history))
    ensures x == r.mid.node
  {
    var t := m.PopRoot(p);
    var g := m.mem.cells[p].Parent();
    x := m.mem.cells[s].left;
    Case2RelinkLeft(m, p, s, x, g, r);
    m.PushRoot(s, t, r.All());
  }

  /** Case 2, left arm: the red sibling `s` is rotated above `p`; the result is the new, black sibling. */
  method Case2Left(m: Memory, p: Ptr, s: Ptr, ghost c: Ctx, ghost t: Tree) returns (x: Ptr)
    requires m.Logged() && Focus(m.mem, c, t, m.tree) && Nodes(t) + CtxNodes(c) <= m.footprint
    requires NULL !in m.mem.cells && m.tree != NULL && m.tree in m.mem.roots
    requires c.In? && c.sib.Node? && c.sib.red && Near(c.side, c.sib).Node? && c.side == L
    requires p == c.node && s == c.sib.node
    modifies m`mem, m`history, m`writes
    ensures m.Logged() && Focus(m.mem, Case2Ctx(c), t, m.tree) && x == Near(c.side, c.sib).node
    ensures m.history == TurnTrace(SiblingTurn(c, t), Case2Tints(SiblingTurn(c, t)), c.red, m.tree, old(m.history))
    ensures NULL !in m.mem.cells && m.tree in m.mem.roots
  {
    Case2Prepared(m.mem, m.tree, c, t);
    x := Case2TurnLeft(m, p, s, SiblingTurn(c, t));
  }

  method Case5TurnLeft(m: Memory, p: Ptr, s: Ptr, y: Ptr, ghost b: Turn)
    requires m.Logged() && Hangable(b, m.mem) && b.All() + CtxTop(b.c) <= m.footprint
    requires b.side == R && b.c.node == p && b.lo == s && b.hi == y
    modifies m`mem, m`history, m`writes
    ensures m.Logged() && Hangable(b, old(m.mem)) && m.mem == HungMem(b, old(m.mem))
    ensures m.history == HungTrace(b, old(m.history))
  {
    var x := m.mem.cells[y].right;
    m.Store(Child(L, s), m.mem.cells[y].right, Nodes(b.mid));
    m.Store(Child(R, y), s, b.Low());
    m.Store(Child(R, p), y, b.All());
    if x != NULL {
      m.SetWord(x, s, false, m.mem.cells[x].word.isRoot);
    }
  }

  /** Case 5, left arm: the red near nephew `y` is rotated above the sibling `s`, and hung below `p`. */
  method Case5Left(m: Memory, p: Ptr, s: Ptr, y: Ptr, ghost c: Ctx, ghost t: Tree)
    requires m.Logged() && Focus(m.mem, c, t, m.tree) && Nodes(t) + CtxNodes(c) <= m.footprint
    requires NULL !in m.mem.cells && m.tree != NULL && m.tree in m.mem.roots
    requires c.In? && c.sib.Node? && !IsRed(Far(c.side, c.sib)) && IsRed(Near(c.side, c.sib)) && c.side == L
    requires p == c.node && s == c.sib.node && y == Near(c.side, c.sib).node
    modifies m`mem, m`history, m`writes
    ensures m.Logged() && Ready(Case6Turn(c, t), m.mem, m.tree, Below(y), Below(p))
    ensures Case6Turn(c, t).All() + CtxTop(Case6Turn(c, t).c) <= m.footprint
    ensures p in m.mem.cells && m.mem.cells[p].red == c.red && m.history == HungTrace(NephewTurn(c, t), old(m.history))
  {
    Case5Prepared(m.mem, m.tree, c, t);
    Case5TurnLeft(m, p, s, y, NephewTurn(c, t));
  }

  method Case6StoresLeft(m: Memory, p: Ptr, s: Ptr, y: Ptr, ghost r: Turn)
    requires m.Logged() && Relinkable(r, m.mem) && r.All() + CtxTop(r.c) <= m.footprint
    requires r.side == L && r.lo == p && r.hi == s && y == Top(r.mid)
    modifies m`mem, m`history, m`writes
    ensures m.Logged() && Relinkable(r, old(m.mem)) && m.mem == Stored(r, old(m.mem))
    ensures m.history == StoresTrace(r, old(m.history))
  {
    m.Store(Child(R, p), y, Nodes(r.mid));
    m.Store(Child(L, s), p, r.Low());
    m.SwapChild(p, s, if r.c.In? then r.c.side else L, r.All());
  }

  method Case6RelinkLeft(m: Memory, p: Ptr, s: Ptr, x: Ptr, y: Ptr, g: Ptr, ghost r: Turn, ghost red: bool)
    requires m.Logged() && Relinkable(r, m.mem) && Wordable(r, Stored(r, m.mem)) && r.All() + CtxTop(r.c) <= m.footprint
    requires r.side == L && r.lo == p && r.hi == s && r.far.Node? && x == r.far.node && y == Top(r.mid)
    requires g == (if r.c.Root? then NULL else r.c.node) && x in r.All() && (y != NULL ==> y in r.All())
    requires Stored(r, m.mem).cells[p].red == red
    requires r.mid.Node? ==> Stored(r, m.mem).cells[y].red == r.mid.red
    modifies m`mem, m`history, m`writes
    ensures m.Logged() && Relinkable(r, old(m.mem)) && ReadyIn(r, Stored(r, old(m.mem)))
    ensures m.mem == Worded(r, Stored(r, old(m.mem)), Case6Tints(r, red)) && Closed(m.mem, r.All())
    ensures m.history == WordsTrace(r, Case6Tints(r, red), StoresTrace(r, old(m.history)))
  {
    Case6StoresLeft(m, p, s, y, r);
    Case6Words(m, p, s, x, y, g, r);
  }

  method Case6TurnLeft(m: Memory, p: Ptr, s: Ptr, x: Ptr, ghost r: Turn, ghost red: bool)
    requires m.Logged() && Turnable(r, m.mem, m.tree) && r.All() + CtxTop(r.c) <= m.footprint
    requires r.side == L && r.lo == p && r.hi == s && r.far.Node? && x == r.far.node && red == m.mem.cells[p].red
    modifies m`mem, m`history, m`writes
    ensures m.Logged() && Turnable(r, old(m.mem), m.tree)
    ensures m.mem == TurnMem(r, old(m.mem), Case6Tints(r, red), m.tree)
    ensures m.history == TurnTrace(r, Case6Tints(r, red), red, m.tree, old(m.history))
  {
    var t := m.PopRoot(p);
    var g := m.mem.cells[p].Parent();
    var y := m.mem.cells[s].left;
    ghost var m1 := m.mem;
    Case6RelinkLeft(m, p, s, x, y, g, r, red);
    TurnPushed(r, Stored(r, m1), Case6Tints(r, red), m.tree, t, m.history);
    m.PushRoot(s, t, r.All());
  }

  /** Case 6, left arm: the sibling `s` is rotated above `p` and takes over its colour; its child `x` turns black. */
  method Case6Left(m: Memory, p: Ptr, s: Ptr, x: Ptr, ghost r: Turn, ghost wf: Word)
    requires m.Logged() && Ready(r, m.mem, m.tree, Below(s), wf) && r.All() + CtxTop(r.c) <= m.footprint
    requires r.side == L && r.lo == p && r.hi == s && r.far.Node? && x == r.far.node
    modifies m`mem, m`history, m`writes
    ensures m.Logged() && p in old(m.mem).cells
    ensures Focus(m.mem, r.c, r.Turned(false, old(m.mem).cells[p].red, IsRed(r.mid), false), m.tree)
    ensures m.history
         == TurnTrace(r, Case6Tints(r, old(m.mem).cells[p].red), old(m.mem).cells[p].red, m.tree, old(m.history))
  {
    TurnPrepared(r, m.mem, m.tree, Below(s), wf);
    TurnDone(r, m.mem, Case6Tints(r, m.mem.cells[p].red), m.tree, Below(s), wf);
    Case6TurnLeft(m, p, s, x, r, m.mem.cells[p].red);
  }

  /** The left arm once the sibling `s0` is black: Case 3+4, or Case 6, possibly after Case 5. */
  method BlackLeft(m: Memory, p: Ptr, s0: Ptr, ghost c: Ctx, ghost t: Tree)
    requires m.Logged() && Focus(m.mem, c, t, m.tree) && Nodes(t) + CtxNodes(c) <= m.footprint
    requires NULL !in m.mem.cells && m.tree != NULL && m.tree in m.mem.roots
    requires c.In? && c.sib.Node? && !c.sib.red && c.side == L && p == c.node && s0 == c.sib.node
    requires (AllBlack(c.sib) ==> c.red) && (c.red ==> c.up.In?)
    modifies m`mem, m`history, m`writes
    ensures m.Logged() && Focus(m.mem, c.up, BlackSibling(c.side, t, p, c.red, c.sib), m.tree)
    ensures m.history == BlackTrace(c, t, m.tree, old(m.history))
  {
    NephewReads(m.mem, c, t, m.tree);
    var s := s0;
    var x := m.mem.cells[s].right;
    ghost var wf := Below(s);
    if x == NULL || !m.mem.cells[x].red {
      var y := m.mem.cells[s].left;
      if y == NULL || !m.mem.cells[y].red {
        assert m.mem.cells[p].red;
        var _ := Recolour(m, p, s, c, t);
        return;
      }
      Case5Left(m, p, s, y, c, t);
      x := s;
      s := y;
      wf := Below(p);
    } else {
      SiblingReady(m.mem, m.tree, c, t);
    }
    Case6Turned(c, t);
    Case6Left(m, p, s, x, Case6Turn(c, t), wf);
  }

  /** The left arm of the rotations: the hole is the left child of `p`. */
  method TerminalLeft(m: Memory, p: Ptr, ghost c: Ctx, ghost t: Tree)
    requires m.Logged() && Focus(m.mem, c, t, m.tree) && Nodes(t) + CtxNodes(c) <= m.footprint
    requires NULL !in m.mem.cells && m.tree != NULL && m.tree in m.mem.roots
    requires NeedsTerminal(c, t) && c.sib.Node? && c.side == L && p == c.node
    requires c.sib.red ==> Near(c.side, c.sib).Node? && !Near(c.side, c.sib).red
    modifies m`mem, m`history, m`writes
    ensures m.Logged() && Focus(m.mem, c.up, Terminated(c, t), m.tree)
    ensures m.history == RotationTrace(c, t, m.tree, old(m.history))
  {
    NephewReads(m.mem, c, t, m.tree);
    var s := m.mem.cells[p].right;
    if m.mem.cells[s].red {
      s := Case2Left(m, p, s, c, t);
      Case2Nodes(c);
      BlackLeft(m, p, s, Case2Ctx(c), t);
      Case2Plug(m.mem, m.tree, c, t);
    } else {
      BlackLeft(m, p, s, c, t);
    }
  }

  // ----- The right arm -----

  method Case2StoresRight(m: Memory, p: Ptr, s: Ptr, x: Ptr, ghost r: Turn)
    requires m.Logged() && Relinkable(r, m.mem) && r.All() + CtxTop(r.c) <= m.footprint
    requires r.side == R && r.lo == p && r.hi == s && x == Top(r.mid)
    modifies m`mem, m`history, m`writes
    ensures m.Logged() && Relinkable(r, old(m.mem)) && m.mem == Stored(r, old(m.mem))
    ensures m.history == StoresTrace(r, old(m.history))
  {
    m.Store(Child(L, p), x, Nodes(r.mid));
    m.Store(Child(R, s), p, r.Low());
    m.SwapChild(p, s, if r.c.In? then r.c.side else L, r.All());
  }

  method Case2RelinkRight(m: Memory, p: Ptr, s: Ptr, x: Ptr, g: Ptr, ghost r: Turn)
    requires m.Logged() && Relinkable(r, m.mem) && Wordable(r, Stored(r, m.mem)) && r.All() + CtxTop(r.c) <= m.footprint
    requires r.side == R && r.lo == p && r.hi == s && r.mid.Node? && x == r.mid.node && x in r.All()
    requires g == if r.c.Root? then NULL else r.c.node
    modifies m`mem, m`history, m`writes
    ensures m.Logged() && Relinkable(r, old(m.mem)) && ReadyIn(r, Stored(r, old(m.mem)))
    ensures m.mem == Worded(r, Stored(r, old(m.mem)), Case2Tints(r)) && Closed(m.mem, r.All())
    ensures m.history == WordsTrace(r, Case2Tints(r), StoresTrace(r, old(m.history)))
  {
    Case2StoresRight(m, p, s, x, r);
    Case2Words(m, p, s, x, g, r);
  }

  method Case2TurnRight(m: Memory, p: Ptr, s: Ptr, ghost r: Turn) returns (x: Ptr)
    requires m.Logged() && Turnable(r, m.mem, m.tree) && r.All() + CtxTop(r.c) <= m.footprint
    requires r.side == R && r.lo == p && r.hi == s && r.mid.Node?
    modifies m`mem, m`history, m`writes
    ensures m.Logged() && Turnable(r, old(m.mem), m.tree) && m.mem == TurnMem(r, old(m.mem), Case2Tints(r), m.tree)
    ensures m.history == TurnTrace(r, Case2Tints(r), old(m.mem).cells[p].red, m.tree, old(m.history))
    ensures x == r.mid.node
  {
    var t := m.PopRoot(p);
    var g := m.mem.cells[p].Parent();
    x := m.mem.cells[s].right;
    Case2RelinkRight(m, p, s, x, g, r);
    m.PushRoot(s, t, r.All());
  }

  /** Case 2, right arm: the red sibling `s` is rotated above `p`; the result is the new, black sibling. */
  method Case2Right(m: Memory, p: Ptr, s: Ptr, ghost c: Ctx, ghost t: Tree) returns (x: Ptr)
    requires m.Logged() && Focus(m.mem, c, t, m.tree) && Nodes(t) + CtxNodes(c) <= m.footprint
    requires NULL !in m.mem.cells && m.tree != NULL && m.tree in m.mem.roots
    requires c.In? && c.sib.Node? && c.sib.red && Near(c.side, c.sib).Node? && c.side == R
    requires p == c.node && s == c.sib.node
    modifies m`mem, m`history, m`writes
    ensures m.Logged() && Focus(m.mem, Case2Ctx(c), t, m.tree) && x == Near(c.side, c.sib).node
    ensures m.history == TurnTrace(SiblingTurn(c, t), Case2Tints(SiblingTurn(c, t)), c.red, m.tree, old(m.history))
    ensures NULL !in m.mem.cells && m.tree in m.mem.roots
  {
    Case2Prepared(m.mem, m.tree, c, t);
    x := Case2TurnRight(m, p, s, SiblingTurn(c, t));
  }

  method Case5TurnRight(m: Memory, p: Ptr, s: Ptr, y: Ptr, ghost b: Turn)
    requires m.Logged() && Hangable(b, m.mem) && b.All() + CtxTop(b.c) <= m.footprint
    requires b.side == L && b.c.node == p && b.lo == s && b.hi == y
    modifies m`mem, m`history, m`writes
    ensures m.Logged() && Hangable(b, old(m.mem)) && m.mem == HungMem(b, old(m.mem))
    ensures m.history == HungTrace(b, old(m.history))
  {
    var x := m.mem.cells[y].left;
    m.Store(Child(R, s), m.mem.cells[y].left, Nodes(b.mid));
    m.Store(Child(L, y), s, b.Low());
    m.Store(Child(L, p), y, b.All());
    if x != NULL {
      m.SetWord(x, s, false, m.mem.cells[x].word.isRoot);
    }
  }

  /** Case 5, right arm: the red near nephew `y` is rotated above the sibling `s`, and hung below `p`. */
  method Case5Right(m: Memory, p: Ptr, s: Ptr, y: Ptr, ghost c: Ctx, ghost t: Tree)
    requires m.Logged() && Focus(m.mem, c, t, m.tree) && Nodes(t) + CtxNodes(c) <= m.footprint
    requires NULL !in m.mem.cells && m.tree != NULL && m.tree in m.mem.roots
    requires c.In? && c.sib.Node? && !IsRed(Far(c.side, c.sib)) && IsRed(Near(c.side, c.sib)) && c.side == R
    requires p == c.node && s == c.sib.node && y == Near(c.side, c.sib).node
    modifies m`mem, m`history, m`writes
    ensures m.Logged() && Ready(Case6Turn(c, t), m.mem, m.tree, Below(y), Below(p))
    ensures Case6Turn(c, t).All() + CtxTop(Case6Turn(c, t).c) <= m.footprint
    ensures p in m.mem.cells && m.mem.cells[p].red == c.red && m.history == HungTrace(NephewTurn(c, t), old(m.history))
  {
    Case5Prepared(m.mem, m.tree, c, t);
    Case5TurnRight(m, p, s, y, NephewTurn(c, t));
  }

  method Case6StoresRight(m: Memory, p: Ptr, s: Ptr, y: Ptr, ghost r: Turn)
    requires m.Logged() && Relinkable(r, m.mem) && r.All() + CtxTop(r.c) <= m.footprint
    requires r.side == R && r.lo == p && r.hi == s && y == Top(r.mid)
    modifies m`mem, m`history, m`writes
    ensures m.Logged() && Relinkable(r, old(m.mem)) && m.mem == Stored(r, old(m.mem))
    ensures m.history == StoresTrace(r, old(m.history))
  {
    m.Store(Child(L, p), y, Nodes(r.mid));
    m.Store(Child(R, s), p, r.Low());
    m.SwapChild(p, s, if r.c.In? then r.c.side else L, r.All());
  }

  method Case6RelinkRight(m: Memory, p: Ptr, s: Ptr, x: Ptr, y: Ptr, g: Ptr, ghost r: Turn, ghost red: bool)
    requires m.Logged() && Relinkable(r, m.mem) && Wordable(r, Stored(r, m.mem)) && r.All() + CtxTop(r.c) <= m.footprint
    requires r.side == R && r.lo == p && r.hi == s && r.far.Node? && x == r.far.node && y == Top(r.mid)
    requires g == (if r.c.Root? then NULL else r.c.node) && x in r.All() && (y != NULL ==> y in r.All())
    requires Stored(r, m.mem).cells[p].red == red
    requires r.mid.Node? ==> Stored(r, m.mem).cells[y].red == r.mid.red
    modifies m`mem, m`history, m`writes
    ensures m.Logged() && Relinkable(r, old(m.mem)) && ReadyIn(r, Stored(r, old(m.mem)))
    ensures m.mem == Worded(r, Stored(r, old(m.mem)), Case6Tints(r, red)) && Closed(m.mem, r.All())
    ensures m.history == WordsTrace(r, Case6Tints(r, red), StoresTrace(r, old(m.history)))
  {
    Case6StoresRight(m, p, s, y, r);
    Case6Words(m, p, s, x, y, g, r);
  }

  method Case6TurnRight(m: Memory, p: Ptr, s: Ptr, x: Ptr, ghost r: Turn, ghost red: bool)
    requires m.Logged() && Turnable(r, m.mem, m.tree) && r.All() + CtxTop(r.c) <= m.footprint
    requires r.side == R && r.lo == p && r.hi == s && r.far.Node? && x == r.far.node && red == m.mem.cells[p].red
    modifies m`mem, m`history, m`writes
    ensures m.Logged() && Turnable(r, old(m.mem), m.tree)
    ensures m.mem == TurnMem(r, old(m.mem), Case6Tints(r, red), m.tree)
    ensures m.history == TurnTrace(r, Case6Tints(r, red), red, m.tree, old(m.history))
  {
    var t := m.PopRoot(p);
    var g := m.mem.cells[p].Parent();
    var y := m.mem.cells[s].right;
    ghost var m1 := m.mem;
    Case6RelinkRight(m, p, s, x, y, g, r, red);
    TurnPushed(r, Stored(r, m1), Case6Tints(r, red), m.tree, t, m.history);
    m.PushRoot(s, t, r.All());
  }

  /** Case 6, right arm: the sibling `s` is rotated above `p` and takes over its colour; its child `x` turns black. */
  method Case6Right(m: Memory, p: Ptr, s: Ptr, x: Ptr, ghost r: Turn, ghost wf: Word)
    requires m.Logged() && Ready(r, m.mem, m.tree, Below(s), wf) && r.All() + CtxTop(r.c) <= m.footprint
    requires r.side == R && r.lo == p && r.hi == s && r.far.Node? && x == r.far.node
    modifies m`mem, m`history, m`writes
    ensures m.Logged() && p in old(m.mem).cells
    ensures Focus(m.mem, r.c, r.Turned(false, old(m.mem).cells[p].red, IsRed(r.mid), false), m.tree)
    ensures m.history
         == TurnTrace(r, Case6Tints(r, old(m.mem).cells[p].red), old(m.mem).cells[p].red, m.tree, old(m.history))
  {
    TurnPrepared(r, m.mem, m.tree, Below(s), wf);
    TurnDone(r, m.mem, Case6Tints(r, m.mem.cells[p].red), m.tree, Below(s), wf);
    Case6TurnRight(m, p, s, x, r, m.mem.cells[p].red);
  }

  /** The right arm once the sibling `s0` is black: Case 3+4, or Case 6, possibly after Case 5. */
  method BlackRight(m: Memory, p: Ptr, s0: Ptr, ghost c: Ctx, ghost t: Tree)
    requires m.Logged() && Focus(m.mem, c, t, m.tree) && Nodes(t) + CtxNodes(c) <= m.footprint
    requires NULL !in m.mem.cells && m.tree != NULL && m.tree in m.mem.roots
    requires c.In? && c.sib.Node? && !c.sib.red && c.side == R && p == c.node && s0 == c.sib.node
    requires (AllBlack(c.sib) ==> c.red) && (c.red ==> c.up.In?)
    modifies m`mem, m`history, m`writes
    ensures m.Logged() && Focus(m.mem, c.up, BlackSibling(c.side, t, p, c.red, c.sib), m.tree)
    ensures m.history == BlackTrace(c, t, m.tree, old(m.history))
  {
    NephewReads(m.mem, c, t, m.tree);
    var s := s0;
    var x := m.mem.cells[s].left;
    ghost var wf := Below(s);
    if x == NULL || !m.mem.cells[x].red {
      var y := m.mem.cells[s].right;
      if y == NULL || !m.mem.cells[y].red {
        assert m.mem.cells[p].red;
        var _ := Recolour(m, p, s, c, t);
        return;
      }
      Case5Right(m, p, s, y, c, t);
      x := s;
      s := y;
      wf := Below(p);
    } else {
      SiblingReady(m.mem, m.tree, c, t);
    }
    Case6Turned(c, t);
    Case6Right(m, p, s, x, Case6Turn(c, t), wf);
  }

  /** The right arm of the rotations: the hole is the right child of `p`. */
  method TerminalRight(m: Memory, p: Ptr, ghost c: Ctx, ghost t: Tree)
    requires m.Logged() && Focus(m.mem, c, t, m.tree) && Nodes(t) + CtxNodes(c) <= m.footprint
    requires NULL !in m.mem.cells && m.tree != NULL && m.tree in m.mem.roots
    requires NeedsTerminal(c, t) && c.sib.Node? && c.side == R && p == c.node
    requires c.sib.red ==> Near(c.side, c.sib).Node? && !Near(c.side, c.sib).red
    modifies m`mem, m`history, m`writes
    ensures m.Logged() && Focus(m.mem, c.up, Terminated(c, t), m.tree)
    ensures m.history == RotationTrace(c, t, m.tree, old(m.history))
  {
    NephewReads(m.mem, c, t, m.tree);
    var s := m.mem.cells[p].left;
    if m.mem.cells[s].red {
      s := Case2Right(m, p, s, c, t);
      Case2Nodes(c);
      BlackRight(m, p, s, Case2Ctx(c), t);
      Case2Plug(m.mem, m.tree, c, t);
    } else {
      BlackRight(m, p, s, c, t);
    }
  }

  // ----- Both arms -----

  /** `c_rbnode_rebalance_terminal`: the `previous` side of `p` is one black node short. */
  method RebalanceTerminal(m: Memory, p: Ptr, previous: Ptr, ghost c: Ctx, ghost t: Tree)
    requires m.Logged() && Focus(m.mem, c, t, m.tree) && Nodes(t) + CtxNodes(c) <= m.footprint
    requires NULL !in m.mem.cells && m.tree != NULL && m.tree in m.mem.roots
    requires NeedsTerminal(c, t) && HangsAt(c, t, p, previous)
    modifies m`mem, m`history, m`writes
    ensures m.Logged() && c.sib.Node? && (c.sib.red ==> Near(c.side, c.sib).Node?)
    ensures Focus(m.mem, c.up, Terminated(c, t), m.tree) && m.history == RotationTrace(c, t, m.tree, old(m.history))
  {
    TerminalRB(c, t);
    NephewReads(m.mem, c, t, m.tree);
    if previous == m.mem.cells[p].left {
      TerminalLeft(m, p, c, t);
    } else {
      TerminalRight(m, p, c, t);
    }
  }

  /** `c_rbnode_rebalance`: make up for the black node that is missing in the hole of `c`. */
  method Rebalance(m: Memory, n: Ptr, ghost c: Ctx) returns (ghost steps: nat)
    requires m.Logged() && Focus(m.mem, c, Leaf, m.tree) && CtxNodes(c) <= m.footprint
    requires NULL !in m.mem.cells && m.tree != NULL && m.tree in m.mem.roots
    requires n == (if c.Root? then NULL else c.node) && Deficient(c, Leaf)
    modifies m`mem, m`history, m`writes
    ensures m.Logged() && Focus(m.mem, Root, Rebalanced(c, Leaf), m.tree) && steps == RebalanceSteps(c)
    ensures m.history == RebalanceTrace(c, Leaf, m.tree, old(m.history))
  {
    ghost var c', t';
    var p, previous;
    PlugNodes(c, Leaf);
    p, previous, c', t', steps := RebalancePath(m, n, NULL, c, Leaf);
    if p != NULL {
      PlugNodes(c', t');
      RebalanceTerminal(m, p, previous, c', t');
      FocusPlug(m.mem, c'.up, Terminated(c', t'), m.tree);
    }
  }
}
