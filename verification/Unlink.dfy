/** Removal: `c_rbnode_unlink_stale`. */
module Unlinking {
  import opened Structs
  import opened Trees
  import opened RebalanceSpec
  import opened Layout
  import opened Lockless
  import opened Memories
  import opened Rotations
  import opened Removal
  import opened Splicing
  import opened Walks
  import opened WriteCounts

  // ----- Cases 1.0 to 1.2: at most one child -----

  function AfterSwapChild(m: Mem, c: Ctx, n: Ptr): Mem
    requires c.In? ==> c.node in m.cells
  {
    if c.In? then PutChild(m, c.side, c.node, n) else m
  }

  function HoleParent(c: Ctx): Ptr {
    if c.Root? then NULL else c.node
  }

  /** The memory after a node has been replaced by its only child `u`, or by nothing. */
  lemma PromoteStages(m: Mem, m1: Mem, m2: Mem, m3: Mem, m4: Mem, c: Ctx, t: Tree, u: Tree, tree: Ptr)
    requires Focus(m, c, t, tree) && t.Node? && t.node in m.cells && NULL !in m.cells && tree != NULL
    requires (c.In? ==> c.node in m.cells && c.node != t.node && c.node != Top(u))
    requires (u.Node? ==> u.node in m.cells && u.node != t.node && !m.cells[u.node].word.isRoot)
    requires m1 == AfterPop(m, t.node) && m2 == AfterSwapChild(m1, c, Top(u))
    requires m3 == if u.Node? then PutWord(m2, u.node, Word(HoleParent(c), false), false) else m2
    requires m4 == AfterPush(m3, Top(u), if c.Root? then tree else NULL)
    ensures IsPromoted(m, m4, c, t, u, tree)
  {
  }

  lemma PromoteReads(m: Mem, c: Ctx, t: Tree, u: Tree, tree: Ptr)
    requires Focus(m, c, t, tree) && t.Node? && NULL !in m.cells && u == OnlyChild(t)
    ensures t.node in m.cells && t.node in Nodes(t) && m.cells[t.node].word == HoleWord(c, tree)
    ensures m.cells[t.node] == CRBNode(Top(t.left), Top(t.right), HoleWord(c, tree), t.red)
    ensures c.In? ==> c.node in m.cells && c.node in CtxNodes(c)
    ensures c.In? ==> c.node != t.node && c.node != Top(u) && c.node != NULL
    ensures c.In? ==> (c.side == L <==> m.cells[c.node].left == t.node) && c.node !in Nodes(u)
    ensures u.Node? ==> u.node in m.cells && u.node in Nodes(u)
    ensures u.Node? ==> u.node != t.node && !m.cells[u.node].word.isRoot && u.node != NULL
    ensures Nodes(u) <= Nodes(t) && Closed(m, Nodes(u)) && t.node !in Nodes(u)
  {
    FocusReads(m, c, t, tree);
    RepClosed(m, u, Below(t.node));
    assert u.Node? ==> u.node in Nodes(u);
  }

  /** The first write when the node `n` is a root: it forgets its tree. */
  function PopRootTrace(c: Ctx, t: Tree, h: History): History
    requires t.Node?
  {
    if c.Root? then Then(h, WordWrite(t.node, Word(NULL, false), t.red)) else h
  }

  /** All writes of Cases 1.0, 1.1 and 1.2, before rebalancing. */
  function PromoteTrace(c: Ctx, t: Tree, u: Tree, tree: Ptr, h: History): History
    requires t.Node?
  {
    var h1 := if c.In? then Then(h, SlotWrite(Child(c.side, c.node), Top(u))) else PopRootTrace(c, t, h);
    var h2 := if u.Node? then Then(h1, WordWrite(u.node, Word(HoleParent(c), false), false)) else h1;
    if c.In? then h2
    else
      var h3 := if u.Node? then Then(h2, WordWrite(u.node, Word(tree, true), false)) else h2;
      Then(h3, SlotWrite(RootOf(tree), Top(u)))
  }

  /** Cases 1.0, 1.1 and 1.2: `n` is replaced by `x`, its only child or NULL. */
  method Promote(m: Memory, n: Ptr, x: Ptr, ghost c: Ctx, ghost t: Tree, ghost u: Tree)
    requires m.Logged() && Focus(m.mem, c, t, m.tree) && Nodes(t) + CtxNodes(c) <= m.footprint
    requires NULL !in m.mem.cells && m.tree != NULL && m.tree in m.mem.roots
    requires t.Node? && t.node == n && u == OnlyChild(t) && x == Top(u)
    modifies m`mem, m`history, m`writes
    ensures m.Logged() && Focus(m.mem, c, Blacken(u), m.tree)
    ensures n in m.mem.cells && m.mem.cells[n].red == t.red && m.mem.cells[n].Parent() == HoleParent(c)
    ensures n in old(m.mem).cells && m.mem.cells[n] == AfterPop(old(m.mem), n).cells[n]
    ensures m.history == PromoteTrace(c, t, u, m.tree, old(m.history))
  {
    ghost var m0 := m.mem;
    PromoteReads(m0, c, t, u, m.tree);
    var p := m.PopRoot(n);
    ghost var m1 := m.mem;
    if c.In? { ClosedElsewhere(m1, Nodes(u), c.side, c.node, x); }
    m.SwapChild(n, x, if c.In? then c.side else L, Nodes(u));
    ghost var m2 := m.mem;
    if x != NULL {
      m.SetWord(x, m.mem.cells[n].Parent(), false, m.mem.cells[x].word.isRoot);
    }
    ghost var m3 := m.mem;
    m.PushRoot(x, p, Nodes(u));
    PromoteStages(m0, m1, m2, m3, m.mem, c, t, u, m.tree);
    PromotedFocus(m0, m.mem, c, t, u, m.tree);
  }

  // ----- Case 1.3: two children -----

  method SuccessorOf(m: Mem, x: Ptr, ghost r: Tree, ghost w: Word) returns (s: Ptr)
    requires Rep(m, r, w) && x == Top(r) && r.Node? && NULL !in m.cells
    ensures s == Min(r).node
  {
    ghost var steps;
    s, steps := Leftmost(m, x, r, w);
  }

  function DetachStore2(m: Mem, r: Tree): Mem
    requires r.Node? && r.left.Node? && {MinParent(r), Min(r).node} <= m.cells.Keys
  {
    PutChild(DetachStore1(m, r), R, Min(r).node, r.node)
  }

  function DetachStore3(m: Mem, r: Tree): Mem
    requires r.Node? && r.left.Node? && {MinParent(r), Min(r).node, r.node} <= m.cells.Keys
  {
    PutWord(DetachStore2(m, r), r.node, Below(Min(r).node), DetachStore2(m, r).cells[r.node].red)
  }

  lemma DetachStages(m: Mem, r: Tree)
    requires r.Node? && r.left.Node? && {MinParent(r), Min(r).node, r.node} <= m.cells.Keys
    requires r.node != Min(r).node && MinParent(r) != Min(r).node && !m.cells[r.node].word.isRoot
    ensures DetachedFrom(m, DetachStore3(m, r), r)
  {
  }

  /** The writes that free the successor from its place. */
  function DetachTrace(r: Tree, h: History): History
    requires r.Node?
  {
    if r.left.Leaf? then h
    else
      var h' := Then(h, SlotWrite(Child(L, MinParent(r)), Top(Min(r).right)));
      Then(Then(h', SlotWrite(Child(R, Min(r).node), r.node)), WordWrite(r.node, Below(Min(r).node), r.red))
  }

  /** Free the successor `s`, which is deeper than the right child of `n`, from its place. */
  method DetachDeep(m: Memory, n: Ptr, s: Ptr, p: Ptr, o: Ptr, ghost r: Tree)
    requires m.Logged() && n in m.mem.cells && r.Node? && r.left.Node? && Nodes(r) <= m.footprint
    requires {MinParent(r), Min(r).node, r.node} <= Nodes(r) * m.mem.cells.Keys && n !in Nodes(r)
    requires Admissible(m.mem, Child(L, MinParent(r)), Top(Min(r).right), Nodes(Min(r).right))
    requires Nodes(Min(r).right) <= Nodes(r)
    requires Admissible(DetachStore1(m.mem, r), Child(R, Min(r).node), r.node, Rest(r))
    requires m.mem.cells[n].right == r.node && !m.mem.cells[r.node].word.isRoot
    requires s == Min(r).node && p == MinParent(r) && o == Top(Min(r).right)
    requires m.mem.cells[r.node].red == r.red
    modifies m`mem, m`history, m`writes
    ensures m.Logged() && {MinParent(r), Min(r).node, r.node} <= old(m.mem).cells.Keys
    ensures m.mem == DetachStore3(old(m.mem), r) && m.history == DetachTrace(r, old(m.history))
  {
    m.Store(Child(L, p), o, Nodes(Min(r).right));
    var x := m.mem.cells[n].right;
    m.Store(Child(R, s), x, Rest(r));
    m.SetWord(x, s, m.mem.cells[x].red, m.mem.cells[x].word.isRoot);
  }

  /** Find the successor `s` of `n`, its new parent `p` and its child `o`; free it from its place. */
  method Detach(m: Memory, n: Ptr, ghost l: Tree, ghost r: Tree) returns (s: Ptr, p: Ptr, o: Ptr)
    requires m.Logged() && NULL !in m.mem.cells && n in m.mem.cells
    requires r.Node? && Distinct(r) && Nodes(l) !! Nodes(r) && n !in Nodes(r) && Nodes(r) <= m.footprint
    requires Rep(m.mem, r, Below(n)) && Rep(m.mem, l, Below(n)) && m.mem.cells[n].right == r.node
    modifies m`mem, m`history, m`writes
    ensures m.Logged() && s == Min(r).node && p == SuccParent(r) && o == Top(Min(r).right)
    ensures {r.node, s, p} <= old(m.mem).cells.Keys && DetachedFrom(old(m.mem), m.mem, r)
    ensures Closed(m.mem, Nodes(l)) && Closed(m.mem, Rest(r)) && m.history == DetachTrace(r, old(m.history))
  {
    MinPlaces(m.mem, r, Below(n));
    SwapNodes(m.mem, r, Below(n));
    s := m.mem.cells[n].right;
    if m.mem.cells[s].left == NULL {
      p := s;
      o := m.mem.cells[s].right;
      DetachedClosed(m.mem, m.mem, l, r, Below(n), Below(n), false);
    } else {
      s := SuccessorOf(m.mem, s, r, Below(n));
      p := m.mem.cells[s].Parent();
      o := m.mem.cells[s].right;
      ghost var m0 := m.mem;
      DetachAdmissible(m0, r, Below(n));
      DetachDeep(m, n, s, p, o, r);
      DetachStages(m0, r);
      DetachedClosed(m0, m.mem, l, r, Below(n), Below(s), DetachStore2(m0, r).cells[r.node].red);
    }
  }

  /** Everything that hangs below the successor after the swap. */
  function BelowSuccessor(t: Tree): set<Ptr>
    requires t.Node? && t.right.Node?
  {
    Nodes(t.left) + Rest(t.right) + {Min(t.right).node}
  }

  /** What the words written below need: nothing but the root carries the ROOT bit. */
  predicate Attachable(d: Mem, c: Ctx, t: Tree)
    requires t.Node? && t.left.Node? && t.right.Node?
  {
    var v, o := Min(t.right).node, Min(t.right).right;
    && SwapIn(d, c, t) && SwapApart(c, t)
    && d.cells[t.node].left == t.left.node && d.cells[t.node].Parent() == (if c.Root? then NULL else c.node)
    && d.cells[t.node].red == t.red && d.cells[v].red == Min(t.right).red && d.cells[t.left.node].red == t.left.red
    && !d.cells[t.left.node].word.isRoot && !d.cells[v].word.isRoot && (o.Node? ==> !d.cells[o.node].word.isRoot)
    && Closed(d, Nodes(t.left)) && t.left.node in Nodes(t.left) && v !in Nodes(t.left)
    && Closed(PutChild(d, L, v, t.left.node), BelowSuccessor(t))
  }

  /** The memory after the four writes to the successor, its new left child and its old right child. */
  function AttachMem(d: Mem, c: Ctx, t: Tree): Mem
    requires t.Node? && t.left.Node? && t.right.Node? && SwapIn(d, c, t)
  {
    var v, o := Min(t.right).node, Min(t.right).right;
    var d1 := PutChild(d, L, v, t.left.node);
    var d2 := PutWord(d1, t.left.node, Below(v), d1.cells[t.left.node].red);
    var d3 := if o.Node? then PutWord(d2, o.node, Below(SuccParent(t.right)), false) else d2;
    PutWord(d3, v, Word(if c.Root? then NULL else c.node, false), t.red)
  }

  function AttachTrace(c: Ctx, t: Tree, h: History): History
    requires t.Node? && t.left.Node? && t.right.Node?
  {
    var v, o := Min(t.right).node, Min(t.right).right;
    var h1 := Then(Then(h, SlotWrite(Child(L, v), t.left.node)), WordWrite(t.left.node, Below(v), t.left.red));
    var h2 := if o.Node? then Then(h1, WordWrite(o.node, Below(SuccParent(t.right)), false)) else h1;
    Then(h2, WordWrite(v, Word(HoleParent(c), false), t.red))
  }

  lemma AttachStages(d: Mem, c: Ctx, t: Tree)
    requires t.Node? && t.left.Node? && t.right.Node? && Attachable(d, c, t)
    ensures IsAttached(d, AttachMem(d, c, t), c, t) && SwapIn(AttachMem(d, c, t), c, t)
  {
  }

  /** The successor takes over the left subtree, the parent and the colour of `n`; its child turns black. */
  method Attach(m: Memory, n: Ptr, s: Ptr, p: Ptr, o: Ptr, ghost c: Ctx, ghost t: Tree) returns (next: Ptr)
    requires t.Node? && t.left.Node? && t.right.Node? && n == t.node && Attachable(m.mem, c, t)
    requires m.Logged() && NULL !in m.mem.cells && BelowSuccessor(t) <= m.footprint
    requires s == Min(t.right).node && p == SuccParent(t.right) && o == Top(Min(t.right).right)
    requires o != NULL ==> o in m.footprint
    modifies m`mem, m`history, m`writes
    ensures m.Logged() && Attachable(old(m.mem), c, t) && m.mem == AttachMem(old(m.mem), c, t)
    ensures Closed(m.mem, BelowSuccessor(t)) && m.history == AttachTrace(c, t, old(m.history))
    ensures next == if o == NULL && !Min(t.right).red then p else NULL
  {
    next := NULL;
    var x := m.mem.cells[n].left;
    m.Store(Child(L, s), x, Nodes(t.left));
    m.SetWord(x, s, m.mem.cells[x].red, m.mem.cells[x].word.isRoot);
    if o != NULL {
      m.SetWord(o, p, false, m.mem.cells[o].word.isRoot);
    } else {
      next := if m.mem.cells[s].red then NULL else p;
    }
    m.SetWord(s, m.mem.cells[n].Parent(), m.mem.cells[n].red, m.mem.cells[s].word.isRoot);
  }

  /** After the root is popped, the subtrees of `n` lie as before. */
  lemma PoppedPieces(m: Mem, m1: Mem, c: Ctx, t: Tree, tree: Ptr)
    requires Focus(m, c, t, tree) && t.Node? && NULL !in m.cells && t.node in m.cells && m1 == AfterPop(m, t.node)
    ensures Rep(m1, t.left, Below(t.node)) && Rep(m1, t.right, Below(t.node))
    ensures Except(m, m1, {t.node}) && m1.roots == m.roots && t.node in m1.cells
    ensures m1.cells[t.node].left == Top(t.left)
    ensures m1.cells[t.node].right == Top(t.right) && m1.cells[t.node].red == t.red
    ensures m1.cells[t.node].Parent() == if c.Root? then NULL else c.node
  {
    RepDomain(m, t, HoleWord(c, tree));
    ExceptSame(m, m1, {t.node}, Nodes(t.left));
    ExceptSame(m, m1, {t.node}, Nodes(t.right));
    RepFrame(m, m1, t.left, Below(t.node));
    RepFrame(m, m1, t.right, Below(t.node));
  }

  lemma DetachedAttachable(m1: Mem, d: Mem, c: Ctx, t: Tree)
    requires t.Node? && t.left.Node? && t.right.Node? && Distinct(t) && SwapApart(c, t) && SwapIn(m1, c, t)
    requires Rep(m1, t.left, Below(t.node)) && Rep(m1, t.right, Below(t.node)) && NULL !in m1.cells
    requires m1.cells[t.node].left == Top(t.left) && m1.cells[t.node].red == t.red
    requires m1.cells[t.node].Parent() == if c.Root? then NULL else c.node
    requires DetachedFrom(m1, d, t.right) && Closed(d, Nodes(t.left)) && Closed(d, Rest(t.right))
    ensures Attachable(d, c, t)
  {
    var r, v := t.right, Min(t.right);
    MinPlaces(m1, r, Below(t.node));
    SwapNodes(m1, r, Below(t.node));
    assert t.left.node in Nodes(t.left);
    assert v.right.Node? ==> v.right.node in Nodes(v.right) && v.right.node in Rest(r);
    assert r.left.Node? ==> r.node in Rest(r);
    AttachedClosed(d, t.left, r);
  }

  /** The last stage: the new root of the subtree is hung into the hole. */
  lemma HungUp(a: Mem, c: Ctx, v: Ptr, tree: Ptr)
    requires v in a.cells && (c.In? ==> c.node in a.cells && c.node != v) && v != NULL && tree != NULL
    ensures IsHungUp(a, AfterPush(AfterSwapChild(a, c, v), v, if c.Root? then tree else NULL), c, v, tree)
  {
  }

  function HangTrace(c: Ctx, v: Ptr, red: bool, tree: Ptr, h: History): History {
    if c.In? then Then(h, SlotWrite(Child(c.side, c.node), v))
    else Then(Then(h, WordWrite(v, Word(tree, true), red)), SlotWrite(RootOf(tree), v))
  }

  method HangUp(m: Memory, n: Ptr, s: Ptr, t0: Ptr, ghost c: Ctx, ghost b: set<Ptr>)
    requires m.Logged() && b <= m.footprint && Closed(m.mem, b) && s in b && s != NULL && m.tree != NULL
    requires n in m.mem.cells && m.mem.cells[n].Parent() == (if c.Root? then NULL else c.node)
    requires c.In? ==>
               && c.node in m.mem.cells && c.node in m.footprint && c.node !in b && c.node != NULL
               && (c.side == L <==> m.mem.cells[c.node].left == n)
    requires t0 == (if c.Root? then m.tree else NULL) && m.tree in m.mem.roots
    modifies m`mem, m`history, m`writes
    ensures m.Logged() && s in old(m.mem).cells && IsHungUp(old(m.mem), m.mem, c, s, m.tree)
    ensures m.history == HangTrace(c, s, old(m.mem).cells[s].red, m.tree, old(m.history))
  {
    HungUp(m.mem, c, s, m.tree);
    if c.In? { ClosedElsewhere(m.mem, b, c.side, c.node, s); }
    m.SwapChild(n, s, if c.In? then c.side else L, b);
    m.PushRoot(s, t0, b);
  }

  /** All writes of Case 1.3, before rebalancing. */
  function InnerTrace(c: Ctx, t: Tree, tree: Ptr, h: History): History
    requires t.Node? && t.left.Node? && t.right.Node?
  {
    var h' := AttachTrace(c, t, DetachTrace(t.right, PopRootTrace(c, t, h)));
    HangTrace(c, Min(t.right).node, t.red, tree, h')
  }

  /** Nothing but the word of a root is written in the node that goes away. */
  lemma StaleKept(m1: Mem, d: Mem, a: Mem, e: Mem, c: Ctx, t: Tree, tree: Ptr)
    requires t.Node? && t.left.Node? && t.right.Node? && SwapApart(c, t) && SwapIn(m1, c, t)
    requires DetachedFrom(m1, d, t.right) && SwapIn(d, c, t) && IsAttached(d, a, c, t)
    requires Min(t.right).node in a.cells && IsHungUp(a, e, c, Min(t.right).node, tree)
    ensures t.node in e.cells && e.cells[t.node] == m1.cells[t.node] && a.cells[Min(t.right).node].red == t.red
  {
  }

  /**
   * Case 1.3: the successor takes the place of `n`. The result is the node at which to rebalance, or
   * NULL if there is nothing to make up for.
   */
  method UnlinkInner(m: Memory, n: Ptr, ghost c: Ctx, ghost t: Tree) returns (next: Ptr)
    requires m.Logged() && Focus(m.mem, c, t, m.tree) && Nodes(t) + CtxNodes(c) <= m.footprint
    requires NULL !in m.mem.cells && m.tree != NULL && m.tree in m.mem.roots
    requires t.Node? && t.node == n && t.left.Node? && t.right.Node?
    modifies m`mem, m`history, m`writes
    ensures m.Logged() && Focus(m.mem, Vacated(c, t), Blacken(OnlyChild(Victim(t))), m.tree)
    ensures next == if OnlyChild(Victim(t)).Leaf? && !Victim(t).red then SuccParent(t.right) else NULL
    ensures n in old(m.mem).cells && n in m.mem.cells && m.mem.cells[n] == AfterPop(old(m.mem), n).cells[n]
    ensures m.history == InnerTrace(c, t, m.tree, old(m.history))
  {
    ghost var m0 := m.mem;
    SwapReads(m0, c, t, m.tree);
    var t0 := m.PopRoot(n);
    ghost var m1 := m.mem;
    PoppedPieces(m0, m1, c, t, m.tree);
    var s, p, o := Detach(m, n, t.left, t.right);
    ghost var d := m.mem;
    DetachedAttachable(m1, d, c, t);
    InnerSets(c, t);
    AttachStages(d, c, t);
    next := Attach(m, n, s, p, o, c, t);
    ghost var a := m.mem;
    InnerHang(m0, m1, d, a, c, t, m.tree);
    HangUp(m, n, s, t0, c, BelowSuccessor(t));
    StaleKept(m1, d, a, m.mem, c, t, m.tree);
    InnerDone(m0, a, m.mem, c, t, m.tree);
  }

  /** The stages add up to the partial swap. */
  lemma InnerDone(m: Mem, a: Mem, e: Mem, c: Ctx, t: Tree, tree: Ptr)
    requires Focus(m, c, t, tree) && t.Node? && t.left.Node? && t.right.Node? && NULL !in m.cells && tree in m.roots
    requires SwapIn(m, c, t) && IsSettled(m, a, c, t) && IsHungUp(a, e, c, Min(t.right).node, tree)
    ensures Focus(e, Vacated(c, t), Blacken(OnlyChild(Victim(t))), tree)
  {
    SwapReads(m, c, t, tree);
    SwapStages(m, a, e, c, t, tree);
    SwappedFocus(m, e, c, t, tree);
    SwappedVacated(e, c, t, tree);
  }

  lemma InnerSets(c: Ctx, t: Tree)
    requires t.Node? && t.left.Node? && t.right.Node? && Distinct(t)
    ensures BelowSuccessor(t) <= Nodes(t) && Min(t.right).node in BelowSuccessor(t) && t.node in Nodes(t)
    ensures Min(t.right).right.Node? ==> Min(t.right).right.node in Nodes(t)
  {
    MinRightDistinct(t.right);
    assert Min(t.right).right.Node? ==> Min(t.right).right.node in Nodes(Min(t.right).right);
  }

  /** What hanging up the successor reads. */
  lemma InnerHang(m: Mem, m1: Mem, d: Mem, a: Mem, c: Ctx, t: Tree, tree: Ptr)
    requires Focus(m, c, t, tree) && t.Node? && t.left.Node? && t.right.Node? && NULL !in m.cells
    requires SwapApart(c, t) && SwapIn(m, c, t) && m1 == AfterPop(m, t.node)
    requires DetachedFrom(m1, d, t.right) && SwapIn(d, c, t) && IsAttached(d, a, c, t)
    ensures IsSettled(m, a, c, t)
    ensures t.node in a.cells && a.cells[t.node].Parent() == if c.Root? then NULL else c.node
    ensures c.In? ==>
              && c.node in a.cells && c.node in CtxNodes(c) && c.node !in BelowSuccessor(t) && c.node != NULL
              && (c.side == L <==> a.cells[c.node].left == t.node)
  {
    SettledStages(m, m1, d, a, c, t);
    InnerSets(c, t);
    FocusReads(m, c, t, tree);
  }

  /** All writes of unlinking. */
  function UnlinkTrace(c: Ctx, t: Tree, tree: Ptr, h: History): History
    requires t.Node?
  {
    var v := Victim(t);
    var h' := if t.left.Node? && t.right.Node? then InnerTrace(c, t, tree, h)
              else PromoteTrace(c, t, OnlyChild(t), tree, h);
    if OnlyChild(v).Leaf? && !v.red then RebalanceTrace(Vacated(c, t), Leaf, tree, h') else h'
  }

  lemma PromoteCount(c: Ctx, t: Tree, u: Tree, tree: Ptr, h: History)
    requires t.Node?
    ensures Length(h) < Length(PromoteTrace(c, t, u, tree, h)) <= Length(h) + 4
  {
    var h1 := if c.In? then Then(h, SlotWrite(Child(c.side, c.node), Top(u))) else PopRootTrace(c, t, h);
    assert Length(h1) == Length(h) + 1;
    var h2 := if u.Node? then Then(h1, WordWrite(u.node, Word(HoleParent(c), false), false)) else h1;
    assert Length(h1) <= Length(h2) <= Length(h1) + 1;
    var h3 := if u.Node? then Then(h2, WordWrite(u.node, Word(tree, true), false)) else h2;
    assert Length(h2) <= Length(h3) <= Length(h2) + 1;
  }

  lemma InnerCount(c: Ctx, t: Tree, tree: Ptr, h: History)
    requires t.Node? && t.left.Node? && t.right.Node?
    ensures Length(h) < Length(InnerTrace(c, t, tree, h)) <= Length(h) + 10
  {
    var h1 := PopRootTrace(c, t, h);
    var h2 := DetachTrace(t.right, h1);
    assert t.right.left.Node? ==> Length(h2.prev) == Length(h1) + 2;
    var h3 := AttachTrace(c, t, h2);
    assert Length(Then(h2, SlotWrite(Child(L, Min(t.right).node), t.left.node))) == Length(h2) + 1;
    assert Length(h2) + 2 <= Length(h3.prev) <= Length(h2) + 3;
    assert c.Root? ==> Length(HangTrace(c, Min(t.right).node, t.red, tree, h3).prev) == Length(h3) + 1;
  }

  /** Unlinking makes at least one write in each iteration of its loop, and no more than thirty-one besides. */
  lemma UnlinkCount(c: Ctx, t: Tree, tree: Ptr, h: History)
    requires t.Node?
    ensures Length(h) + RemovedSteps(c, t) < Length(UnlinkTrace(c, t, tree, h)) <= Length(h) + RemovedSteps(c, t) + 31
  {
    var h' := if t.left.Node? && t.right.Node? then InnerTrace(c, t, tree, h)
              else PromoteTrace(c, t, OnlyChild(t), tree, h);
    if t.left.Node? && t.right.Node? { InnerCount(c, t, tree, h); } else { PromoteCount(c, t, OnlyChild(t), tree, h); }
    RebalanceGrown(Vacated(c, t), Leaf, h', h', tree, CtxNodes(Vacated(c, t)));
  }

  /** Rebalancing leaves alone a node that is outside the tree. */
  method RebalanceBeside(m: Memory, p: Ptr, ghost c: Ctx, ghost n: Ptr) returns (ghost steps: nat)
    requires m.Logged() && Focus(m.mem, c, Leaf, m.tree) && CtxNodes(c) <= m.footprint
    requires NULL !in m.mem.cells && m.tree != NULL && m.tree in m.mem.roots
    requires p == (if c.Root? then NULL else c.node) && Deficient(c, Leaf) && n in m.mem.cells && n !in CtxNodes(c)
    modifies m`mem, m`history, m`writes
    ensures m.Logged() && Focus(m.mem, Root, Rebalanced(c, Leaf), m.tree) && steps == RebalanceSteps(c)
    ensures m.history == RebalanceTrace(c, Leaf, m.tree, old(m.history))
    ensures n in m.mem.cells && m.mem.cells[n] == old(m.mem).cells[n]
  {
    ghost var h := m.history;
    steps := Rebalance(m, p, c);
    RebalanceGrown(c, Leaf, h, h, m.tree, CtxNodes(c));
    WroteLocal(h, m.history, m.tree, CtxNodes(c));
  }

  /** Without children: a red node just goes, a black one leaves a path one black short. */
  method UnlinkChildless(m: Memory, n: Ptr, ghost c: Ctx, ghost t: Tree) returns (ghost steps: nat)
    requires m.Logged() && Focus(m.mem, c, t, m.tree) && Nodes(t) + CtxNodes(c) <= m.footprint
    requires NULL !in m.mem.cells && m.tree != NULL && m.tree in m.mem.roots
    requires t.Node? && t.node == n && t.left == Leaf && t.right == Leaf
    requires RB(Plug(c, t)) && !IsRed(Plug(c, t))
    modifies m`mem, m`history, m`writes
    ensures m.Logged() && Focus(m.mem, Root, Removed(c, t), m.tree) && steps == RemovedSteps(c, t)
    ensures n in old(m.mem).cells && n in m.mem.cells && m.mem.cells[n] == AfterPop(old(m.mem), n).cells[n]
    ensures m.history == UnlinkTrace(c, t, m.tree, old(m.history))
  {
    steps := 0;
    Promote(m, n, NULL, c, t, Leaf);
    if !m.mem.cells[n].red {
      VacatedDeficient(c, t);
      assert n !in CtxNodes(c) by { assert n in Nodes(t); }
      steps := RebalanceBeside(m, m.mem.cells[n].Parent(), c, n);
    } else {
      FocusPlug(m.mem, c, Leaf, m.tree);
    }
  }

  lemma InnerVacated(c: Ctx, t: Tree)
    requires t.Node? && t.left.Node? && t.right.Node? && Distinct(t) && Nodes(t) !! CtxNodes(c)
    ensures t.node !in CtxNodes(Vacated(c, t)) && CtxNodes(Vacated(c, t)) <= Nodes(t) + CtxNodes(c)
    ensures Vacated(c, t).In? && Vacated(c, t).node == SuccParent(t.right)
  {
    VacatedHole(c, t);
    assert t.node in Nodes(t);
  }

  /** With two children: the successor takes the place, and the tree is rebalanced where it was. */
  method UnlinkFull(m: Memory, n: Ptr, ghost c: Ctx, ghost t: Tree) returns (ghost steps: nat)
    requires m.Logged() && Focus(m.mem, c, t, m.tree) && Nodes(t) + CtxNodes(c) <= m.footprint
    requires NULL !in m.mem.cells && m.tree != NULL && m.tree in m.mem.roots
    requires t.Node? && t.node == n && t.left.Node? && t.right.Node? && RB(Plug(c, t)) && !IsRed(Plug(c, t))
    modifies m`mem, m`history, m`writes
    ensures m.Logged() && Focus(m.mem, Root, Removed(c, t), m.tree) && steps == RemovedSteps(c, t)
    ensures n in old(m.mem).cells && n in m.mem.cells && m.mem.cells[n] == AfterPop(old(m.mem), n).cells[n]
    ensures m.history == UnlinkTrace(c, t, m.tree, old(m.history))
  {
    steps := 0;
    var next := UnlinkInner(m, n, c, t);
    InnerVacated(c, t);
    if next != NULL {
      VacatedDeficient(c, t);
      steps := RebalanceBeside(m, next, Vacated(c, t), n);
    } else {
      FocusPlug(m.mem, Vacated(c, t), Blacken(OnlyChild(Victim(t))), m.tree);
    }
  }

  /**
   * `c_rbnode_unlink_stale`: unlink `n`, the root of the subtree `t` in context `c`. The node keeps what it
   * held, except that a root forgets its tree.
   */
  method UnlinkStale(m: Memory, n: Ptr, ghost c: Ctx, ghost t: Tree) returns (ghost steps: nat)
    requires m.Logged() && Focus(m.mem, c, t, m.tree) && Nodes(t) + CtxNodes(c) <= m.footprint
    requires NULL !in m.mem.cells && m.tree != NULL && m.tree in m.mem.roots
    requires t.Node? && t.node == n && RB(Plug(c, t)) && !IsRed(Plug(c, t))
    modifies m`mem, m`history, m`writes
    ensures m.Logged() && Focus(m.mem, Root, Removed(c, t), m.tree) && steps == RemovedSteps(c, t)
    ensures n in old(m.mem).cells && n in m.mem.cells && m.mem.cells[n] == AfterPop(old(m.mem), n).cells[n]
    ensures m.history == UnlinkTrace(c, t, m.tree, old(m.history))
  {
    FocusReads(m.mem, c, t, m.tree);
    assert m.mem.cells[n].Parent() != n;
    steps := 0;
    var l, r := m.mem.cells[n].left, m.mem.cells[n].right;
    if l == NULL && r == NULL {
      steps := UnlinkChildless(m, n, c, t);
    } else if l == NULL && r != NULL {
      Promote(m, n, r, c, t, t.right);
      FocusPlug(m.mem, c, Blacken(t.right), m.tree);
    } else if l != NULL && r == NULL {
      Promote(m, n, l, c, t, t.left);
      FocusPlug(m.mem, c, Blacken(t.left), m.tree);
    } else {
      steps := UnlinkFull(m, n, c, t);
    }
  }
}
