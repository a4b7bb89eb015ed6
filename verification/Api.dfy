/** The mutating calls of the public interface, on a family of trees and nodes. */
module Api {
  import opened Structs
  import opened Trees
  import opened PaintSpec
  import opened RebalanceSpec
  import opened Layout
  import opened Lockless
  import opened Memories
  import opened Rotations
  import opened Insertion
  import opened Unlinking
  import opened WriteCounts
  import opened Forests
  import opened Traversals

  /** From here on, everything written belongs to `t` and the nodes `s`. */
  ghost method Begin(m: Memory, t: Ptr, s: set<Ptr>)
    requires Sound(m.history) && View(m.history) == m.mem && Confined(m.mem, t, s)
    modifies m`base, m`tree, m`footprint, m`writes
    ensures m.Logged() && m.base == m.history && m.tree == t && m.footprint == s
  {
    m.base, m.tree, m.footprint, m.writes := m.history, t, s, 1;
  }

  // ----- Linking -----

  /** The context of the `side` slot of `p`, or of the root slot if `p` is NULL. */
  function SlotCtx(t: Tree, p: Ptr, side: Side): Ctx
    requires p != NULL ==> p in Nodes(t)
  {
    if p == NULL then Root
    else
      var z := Locate(Root, t, p);
      In(side, p, z.sub.red, Far(side, z.sub), z.ctx)
  }

  /** What the caller of `c_rbtree_add` has to provide: an empty slot of `t` below `p`. */
  predicate EmptySlot(m: Mem, model: map<Ptr, Tree>, t: Ptr, p: Ptr, l: Slot) {
    && t in model && t in m.roots
    && if p == NULL then l == RootOf(t) && m.roots[t] == NULL
       else l.Child? && l.node == p && p in Nodes(model[t]) && p in m.cells && Kid(m, l.side, p) == NULL
  }

  function SlotSide(l: Slot): Side {
    if l.RootOf? then L else l.side
  }

  lemma SlotFocus(m: Mem, t: Ptr, tree: Tree, p: Ptr, side: Side)
    requires Holds(m, t, tree) && NULL !in m.cells
    requires if p == NULL then m.roots[t] == NULL else p in Nodes(tree) && p in m.cells && Kid(m, side, p) == NULL
    ensures Plug(SlotCtx(tree, p, side), Leaf) == tree && Focus(m, SlotCtx(tree, p, side), Leaf, t)
  {
    var c := SlotCtx(tree, p, side);
    if p == NULL {
      FocusRoot(m, t, tree);
    } else {
      var z := Locate(Root, tree, p);
      FocusPlug(m, z.ctx, z.sub, t);
      FocusReads(m, z.ctx, z.sub, t);
      KidLeaf(m, z.sub, HoleWord(z.ctx, t), side);
      FocusPlug(m, c, Leaf, t);
    }
  }

  lemma FocusRoot(m: Mem, t: Ptr, tree: Tree)
    requires Holds(m, t, tree) && NULL !in m.cells && m.roots[t] == NULL
    ensures tree == Leaf
  {
  }

  lemma KidLeaf(m: Mem, s: Tree, w: Word, side: Side)
    requires Rep(m, s, w) && s.Node? && NULL !in m.cells && s.node in m.cells && Kid(m, side, s.node) == NULL
    ensures Near(side, s) == Leaf
  {
  }

  /** The new leaf has been linked into the empty slot. */
  lemma LinkedFocus(m: Mem, m': Mem, c: Ctx, n: Ptr, t: Ptr)
    requires Focus(m, c, Leaf, t) && n in m.cells && n !in CtxNodes(c) && t in m.roots
    requires Except(m, m', {n} + CtxTop(c)) && Hung(m, m', c, n, t)
    requires m'.cells[n] == CRBNode(NULL, NULL, HoleWord(c, t), true)
    ensures Focus(m', c, Node(Leaf, n, true, Leaf), t)
  {
    assert ({n} + CtxTop(c)) !! (CtxNodes(c) - CtxTop(c)) by { DistinctTop(c); }
    MoveContext(m, m', {n} + CtxTop(c), c, NULL, n, t);
  }

  lemma DistinctTop(c: Ctx)
    ensures CtxTop(c) !! (CtxNodes(c) - CtxTop(c))
  {
  }

  lemma LinkStages(m: Mem, m1: Mem, m2: Mem, c: Ctx, n: Ptr, t: Ptr)
    requires n in m.cells && Except(m, m1, {n}) && m1.roots == m.roots && (c.In? ==> c.node in m.cells && c.node != n)
    requires m1.cells[n] == CRBNode(NULL, NULL, Word(if c.Root? then NULL else c.node, false), true)
    requires m2 == if c.In? then PutChild(m1, c.side, c.node, n) else AfterPush(m1, n, t)
    requires t != NULL && n != NULL
    ensures Except(m, m2, {n} + CtxTop(c)) && Hung(m, m2, c, n, t)
    ensures m2.cells[n] == CRBNode(NULL, NULL, HoleWord(c, t), true)
  {
  }

  lemma ResetMem(m: Mem, n: Ptr, raw: Ptr)
    requires n in m.cells
    ensures Except(m, AfterReset(m, n, raw, true), {n}) && AfterReset(m, n, raw, true).roots == m.roots
    ensures AfterReset(m, n, raw, true).cells[n] == CRBNode(NULL, NULL, Word(raw, false), true)
  {
  }

  /** The store that `c_rbtree_add` ends with: the slot, or the root of an empty tree. */
  method LinkRed(m: Memory, t: Ptr, p: Ptr, l: Slot, n: Ptr, ghost m0: Mem, ghost c: Ctx)
    requires m.Logged() && Focus(m0, c, Leaf, t) && n in m0.cells && n !in CtxNodes(c) && t != NULL
    requires m.mem == AfterReset(m0, n, p, true) && NULL !in m0.cells
    requires t == m.tree && CtxNodes(c) + {n} <= m.footprint && t in m0.roots && n != NULL
    requires if c.Root? then p == NULL && l == RootOf(t) else p == c.node && l == Child(c.side, p)
    modifies m`mem, m`history, m`writes
    ensures m.Logged() && Focus(m.mem, c, Node(Leaf, n, true, Leaf), t)
    ensures NULL !in m.mem.cells && t in m.mem.roots && m.history == HangTrace(c, n, true, t, old(m.history))
  {
    ResetMem(m0, n, p);
    ghost var m1 := m.mem;
    if c.In? { RepCtxDomain(m0, c, NULL, t); }
    if p != NULL {
      m.Store(l, n, {n});
    } else {
      m.PushRoot(n, t, {n});
    }
    LinkStages(m0, m1, m.mem, c, n, t);
    LinkedFocus(m0, m.mem, c, n, t);
  }

  /** The store that `c_rbnode_link` ends with. */
  method LinkBelow(m: Memory, p: Ptr, l: Slot, n: Ptr, ghost m0: Mem, ghost c: Ctx)
    requires m.Logged() && Focus(m0, c, Leaf, m.tree) && n in m0.cells && n !in CtxNodes(c) && m.tree != NULL
    requires m.mem == AfterReset(m0, n, p, true) && NULL !in m0.cells
    requires CtxNodes(c) + {n} <= m.footprint && m.tree in m0.roots && n != NULL
    requires c.In? && p == c.node && l == Child(c.side, p)
    modifies m`mem, m`history, m`writes
    ensures m.Logged() && Focus(m.mem, c, Node(Leaf, n, true, Leaf), m.tree)
    ensures NULL !in m.mem.cells && m.tree in m.mem.roots
    ensures m.history == HangTrace(c, n, true, m.tree, old(m.history))
  {
    ResetMem(m0, n, p);
    ghost var m1 := m.mem;
    RepCtxDomain(m0, c, NULL, m.tree);
    m.Store(l, n, {n});
    LinkStages(m0, m1, m.mem, c, n, m.tree);
    LinkedFocus(m0, m.mem, c, n, m.tree);
  }

  // ----- The calls -----

  /** The nodes an operation on `t` may write, when `n` is not in any tree, cannot lead elsewhere. */
  lemma AddConfined(m: Mem, model: map<Ptr, Tree>, t: Ptr, n: Ptr)
    requires Consistent(m, model) && t in model && n in m.cells && !Member(model, n)
    ensures Confined(m, t, Nodes(model[t]) + {n}) && n !in Nodes(model[t])
    ensures forall u | u in model && u != t :: Nodes(model[t]) + {n} !! Nodes(model[u])
  {
    HoldsDomain(m, t, model[t]);
    assert m.cells[n] == Initial(n);
    ClosedAdd(m, Nodes(model[t]), n);
  }

  /** What the caller provides, seen from the memory in which `n` is initialised. */
  lemma AddPrepared(m: Mem, model: map<Ptr, Tree>, t: Ptr, p: Ptr, l: Slot, n: Ptr)
    requires Consistent(m, model) && n in m.cells && !Member(model, n)
    requires EmptySlot(m, model, t, p, l)
    ensures var c := SlotCtx(model[t], p, SlotSide(l));
            && Plug(c, Leaf) == model[t] && Valid(Plug(c, Leaf)) && CtxNodes(c) == Nodes(model[t])
            && Writeable(m, t, p, l, n, c)
    ensures Confined(m, t, Nodes(model[t]) + {n}) && n !in Nodes(model[t])
    ensures forall u | u in model && u != t :: Nodes(model[t]) + {n} !! Nodes(model[u])
  {
    var c := SlotCtx(model[t], p, SlotSide(l));
    assert Holds(m, t, model[t]);
    SlotFocus(m, t, model[t], p, SlotSide(l));
    PlugNodes(c, Leaf);
    PlugRB(c, Leaf);
    AddConfined(m, model, t, n);
  }

  /** An empty slot does not depend on what `n` holds. */
  lemma SlotCleared(m: Mem, model: map<Ptr, Tree>, t: Ptr, p: Ptr, l: Slot, n: Ptr)
    requires EmptySlot(m, model, t, p, l) && n in m.cells && !Member(model, n)
    ensures EmptySlot(Cleared(m, n), model, t, p, l)
  {
  }

  /** Everything the operation did since it began, `t` and `s` apart, is nothing. */
  lemma Ended(m: Memory, before: Mem)
    requires m.Logged() && View(m.base) == before
    ensures Local(before, m.mem, m.tree, m.footprint) && Sound(m.history) && View(m.history) == m.mem
    ensures Extends(m.base, m.history)
  {
    WithinLocal(m.history, m.base, m.writes, m.tree, m.footprint);
    WithinSince(m.history, m.base, m.writes, m.tree, m.footprint);
  }

  /** The operation that began at memory `before` has turned the tree of `m.tree` into `tree`. */
  ghost method End(m: Memory, before: Mem, tree: Tree)
    requires m.Logged() && View(m.base) == before && Consistent(before, m.model) && m.tree in m.model
    requires forall u | u in m.model && u != m.tree :: m.footprint !! Nodes(m.model[u])
    requires Holds(m.mem, m.tree, tree) && Nodes(tree) <= m.footprint && Nodes(m.model[m.tree]) <= m.footprint
    requires forall n | n in m.footprint && n !in Nodes(tree) :: n in m.mem.cells && m.mem.cells[n] == Initial(n)
    modifies m`model
    ensures Settled(m) && m.model == old(m.model)[m.tree := tree] && m.Logged()
    ensures m.mem.cells.Keys == before.cells.Keys && Extends(m.base, m.history)
  {
    Ended(m, before);
    ConsistentStep(before, m.mem, m.model, m.tree, m.footprint, tree);
    m.model := m.model[m.tree := tree];
  }

  /** Where a new node stands in the order: next to the node below which it was linked. */
  predicate Borders(s: seq<Ptr>, n: Ptr, side: Side, p: Ptr) {
    && n in s && (side == L ==> Following(s, n) == p) && (side == R ==> Preceding(s, n) == p)
  }

  lemma LinkedOrder(c: Ctx, n: Ptr)
    requires Valid(Plug(c, Leaf)) && n !in Nodes(Plug(c, Leaf))
    ensures Inorder(Plug(c, Leaf)) == Before(c) + After(c) && Inorder(Linked(c, n)) == Before(c) + [n] + After(c)
    ensures c.In? ==> Borders(Inorder(Linked(c, n)), n, c.side, c.node)
  {
    LinkedInorder(c, n);
    LinkedValid(c, n);
    InorderDistinct(Linked(c, n));
    NoDupParts(Before(c), n, After(c));
    Split(Before(c), n, After(c));
    if c.In? { SlotPosition(c); }
  }

  lemma LinkedFits(c: Ctx, n: Ptr)
    requires Valid(Plug(c, Leaf)) && n !in Nodes(Plug(c, Leaf))
    ensures Valid(Linked(c, n)) && Nodes(Linked(c, n)) == Nodes(Plug(c, Leaf)) + {n}
  {
    LinkedInorder(c, n);
    LinkedValid(c, n);
  }

  lemma SlotOrder(m: Mem, model: map<Ptr, Tree>, t: Ptr, p: Ptr, l: Slot, n: Ptr)
    requires Consistent(m, model) && n in m.cells && !Member(model, n) && EmptySlot(m, model, t, p, l)
    ensures var c := SlotCtx(model[t], p, SlotSide(l));
            && Plug(c, Leaf) == model[t] && Inorder(model[t]) == Before(c) + After(c)
            && Inorder(Linked(c, n)) == Before(c) + [n] + After(c)
            && (p != NULL ==> Borders(Inorder(Linked(c, n)), n, SlotSide(l), p))
  {
    AddPrepared(m, model, t, p, l, n);
    LinkedOrder(SlotCtx(model[t], p, SlotSide(l)), n);
  }

  /** The slot is empty, and a red node may be linked there. */
  predicate Writeable(m: Mem, t: Ptr, p: Ptr, l: Slot, n: Ptr, c: Ctx) {
    && Focus(m, c, Leaf, t) && Paintable(c, Node(Leaf, n, true, Leaf)) && n in m.cells && n !in CtxNodes(c)
    && t != NULL && n != NULL && NULL !in m.cells && t in m.roots
    && (if c.Root? then p == NULL && l == RootOf(t) else p == c.node && l == Child(c.side, p))
  }

  /** All writes of linking the node `n` into the hole of `c`: its own fields, the slot, painting. */
  function LinkTrace(c: Ctx, n: Ptr, t: Ptr, h: History): History {
    var h' := ResetTrace(h, n, if c.Root? then NULL else c.node, true);
    PaintTrace(c, Node(Leaf, n, true, Leaf), t, HangTrace(c, n, true, t, h'))
  }

  /** Linking makes three writes in each iteration of its loop, and no more than seventeen besides. */
  lemma LinkCount(c: Ctx, n: Ptr, t: Ptr, h: History)
    ensures var k := Length(LinkTrace(c, n, t, h)) - Length(h) - 3 * PaintSteps(c); 0 < k <= 17
  {
    var h' := ResetTrace(h, n, if c.Root? then NULL else c.node, true);
    assert Length(h'.prev) == Length(h) + 2;
    var h1 := HangTrace(c, n, true, t, h');
    assert c.Root? ==> Length(h1.prev) == Length(h') + 1;
    PaintCount(c, Node(Leaf, n, true, Leaf), t, h1);
  }

  method AddWrites(m: Memory, t: Ptr, p: Ptr, l: Slot, n: Ptr, ghost h: History, ghost c: Ctx)
    returns (ghost steps: nat)
    requires n in m.mem.cells && Writeable(Cleared(m.mem, n), t, p, l, n, c) && Sound(h) && View(h) == Cleared(m.mem, n)
    requires Confined(Cleared(m.mem, n), t, CtxNodes(c) + {n})
    modifies m`mem, m`history, m`base, m`tree, m`footprint, m`writes
    ensures m.Logged() && Focus(m.mem, Root, Linked(c, n), t) && steps == PaintSteps(c)
    ensures m.base == h && m.tree == t && m.footprint == CtxNodes(c) + {n} && m.history == LinkTrace(c, n, t, h)
  {
    ghost var m0 := Cleared(m.mem, n);
    m.Overwrite(n, p, true, h, t, CtxNodes(c) + {n});
    LinkRed(m, t, p, l, n, m0, c);
    steps := Paint(m, n, c, Node(Leaf, n, true, Leaf));
  }

  method LinkWrites(m: Memory, p: Ptr, l: Slot, n: Ptr, ghost t: Ptr, ghost h: History, ghost c: Ctx)
    returns (ghost steps: nat)
    requires n in m.mem.cells && Writeable(Cleared(m.mem, n), t, p, l, n, c) && Sound(h) && View(h) == Cleared(m.mem, n)
    requires Confined(Cleared(m.mem, n), t, CtxNodes(c) + {n}) && c.In?
    modifies m`mem, m`history, m`base, m`tree, m`footprint, m`writes
    ensures m.Logged() && Focus(m.mem, Root, Linked(c, n), t) && steps == PaintSteps(c)
    ensures m.base == h && m.tree == t && m.footprint == CtxNodes(c) + {n} && m.history == LinkTrace(c, n, t, h)
  {
    ghost var m0 := Cleared(m.mem, n);
    m.Overwrite(n, p, true, h, t, CtxNodes(c) + {n});
    LinkBelow(m, p, l, n, m0, c);
    steps := Paint(m, n, c, Node(Leaf, n, true, Leaf));
  }

  /** The writes of `c_rbtree_add`, and the tree they lead to. */
  method AddAt(m: Memory, t: Ptr, p: Ptr, l: Slot, n: Ptr, ghost c: Ctx) returns (ghost steps: nat)
    requires Addable(m, n) && EmptySlot(m.mem, m.model, t, p, l) && c == SlotCtx(m.model[t], p, SlotSide(l))
    modifies m
    ensures Settled(m) && m.model == old(m.model)[t := Linked(c, n)] && steps == PaintSteps(c)
    ensures m.Logged() && m.base == old(Past(m, n)) && m.tree == t && m.footprint == Nodes(old(m.model)[t]) + {n}
    ensures m.mem.cells.Keys == old(m.mem).cells.Keys && Extends(old(Past(m, n)), m.history)
    ensures m.history == LinkTrace(c, n, t, old(Past(m, n)))
  {
    ghost var m0, model, h := Cleared(m.mem, n), m.model, Past(m, n);
    PastSound(m, n);
    SlotCleared(m.mem, model, t, p, l, n);
    AddPrepared(m0, model, t, p, l, n);
    steps := AddWrites(m, t, p, l, n, h, c);
    LinkedFits(c, n);
    End(m, m0, Linked(c, n));
  }

  /**
   * `c_rbtree_add`. The node `n` may hold anything. If it is initialised, then the history goes on; if not, it
   * starts with the call.
   */
  method Add(m: Memory, t: Ptr, p: Ptr, l: Slot, n: Ptr) returns (ghost c: Ctx, ghost steps: nat)
    requires Addable(m, n) && EmptySlot(m.mem, m.model, t, p, l)
    modifies m
    ensures Settled(m) && c == SlotCtx(old(m.model)[t], p, SlotSide(l)) && Plug(c, Leaf) == old(m.model)[t]
    ensures m.model == old(m.model)[t := Linked(c, n)] && steps == PaintSteps(c)
    ensures Inorder(old(m.model)[t]) == Before(c) + After(c)
    ensures Inorder(m.model[t]) == Before(c) + [n] + After(c)
    ensures p != NULL ==> Borders(Inorder(m.model[t]), n, SlotSide(l), p)
    ensures m.Logged() && m.base == old(Past(m, n)) && m.tree == t && m.footprint == Nodes(old(m.model)[t]) + {n}
    ensures m.mem.cells.Keys == old(m.mem).cells.Keys && Extends(old(Past(m, n)), m.history)
    ensures m.history == LinkTrace(c, n, t, old(Past(m, n)))
  {
    c := SlotCtx(m.model[t], p, SlotSide(l));
    SlotCleared(m.mem, m.model, t, p, l, n);
    SlotOrder(Cleared(m.mem, n), m.model, t, p, l, n);
    steps := AddAt(m, t, p, l, n, c);
  }

  /** The writes of `c_rbnode_link`, and the tree they lead to. */
  method LinkAt(m: Memory, p: Ptr, l: Slot, n: Ptr, ghost t: Ptr, ghost c: Ctx) returns (ghost steps: nat)
    requires Addable(m, n) && p != NULL && EmptySlot(m.mem, m.model, t, p, l)
    requires c == SlotCtx(m.model[t], p, SlotSide(l))
    modifies m
    ensures Settled(m) && m.model == old(m.model)[t := Linked(c, n)] && steps == PaintSteps(c)
    ensures m.Logged() && m.base == old(Past(m, n)) && m.tree == t && m.footprint == Nodes(old(m.model)[t]) + {n}
    ensures m.mem.cells.Keys == old(m.mem).cells.Keys && Extends(old(Past(m, n)), m.history)
    ensures m.history == LinkTrace(c, n, t, old(Past(m, n)))
  {
    ghost var m0, model, h := Cleared(m.mem, n), m.model, Past(m, n);
    PastSound(m, n);
    SlotCleared(m.mem, model, t, p, l, n);
    AddPrepared(m0, model, t, p, l, n);
    steps := LinkWrites(m, p, l, n, t, h, c);
    LinkedFits(c, n);
    End(m, m0, Linked(c, n));
  }

  /** `c_rbnode_link`: like `Add`, below an existing node only, so that the tree need not be known. */
  method Link(m: Memory, p: Ptr, l: Slot, n: Ptr, ghost t: Ptr) returns (ghost c: Ctx, ghost steps: nat)
    requires Addable(m, n) && p != NULL && EmptySlot(m.mem, m.model, t, p, l)
    modifies m
    ensures Settled(m) && c == SlotCtx(old(m.model)[t], p, SlotSide(l)) && Plug(c, Leaf) == old(m.model)[t]
    ensures m.model == old(m.model)[t := Linked(c, n)] && steps == PaintSteps(c)
    ensures Inorder(old(m.model)[t]) == Before(c) + After(c)
    ensures Inorder(m.model[t]) == Before(c) + [n] + After(c)
    ensures p != NULL ==> Borders(Inorder(m.model[t]), n, SlotSide(l), p)
    ensures m.Logged() && m.base == old(Past(m, n)) && m.tree == t && m.footprint == Nodes(old(m.model)[t]) + {n}
    ensures m.mem.cells.Keys == old(m.mem).cells.Keys && Extends(old(Past(m, n)), m.history)
    ensures m.history == LinkTrace(c, n, t, old(Past(m, n)))
  {
    c := SlotCtx(m.model[t], p, SlotSide(l));
    SlotCleared(m.mem, m.model, t, p, l, n);
    SlotOrder(Cleared(m.mem, n), m.model, t, p, l, n);
    steps := LinkAt(m, p, l, n, t, c);
  }

  // ----- Unlinking -----

  /** A node without children. */
  method Reset(m: Memory, n: Ptr, raw: Ptr, red: bool)
    requires m.Logged() && n in m.mem.cells && n in m.footprint
    modifies m`mem, m`history, m`writes
    ensures m.Logged() && Except(old(m.mem), m.mem, {n}) && m.mem.roots == old(m.mem).roots
    ensures m.mem.cells[n] == CRBNode(NULL, NULL, Word(raw, false), red)
    ensures m.history == ResetTrace(old(m.history), n, raw, red)
  {
    m.SetWord(n, raw, red, false);
    m.Store(Child(L, n), NULL, {});
    m.Store(Child(R, n), NULL, {});
  }

  lemma ExceptCleared(m: Mem, m': Mem, n: Ptr)
    requires n in m.cells && Except(m, m', {n}) && m'.roots == m.roots && m'.cells[n] == Initial(n)
    ensures m' == Cleared(m, n)
  {
    forall k | k in m.cells ensures m'.cells[k] == Cleared(m, n).cells[k] {
      assert k != n ==> k !in {n};
    }
  }

  /** `c_rbnode_init`. */
  method Init(m: Memory, n: Ptr)
    requires m.Logged() && n in m.mem.cells && n in m.footprint
    modifies m`mem, m`history, m`writes
    ensures m.Logged() && Except(old(m.mem), m.mem, {n}) && m.mem == Cleared(old(m.mem), n)
    ensures m.history == ResetTrace(old(m.history), n, n, false)
  {
    ghost var m0 := m.mem;
    Reset(m, n, n, false);
    ExceptCleared(m0, m.mem, n);
  }

  /** A tree does not notice what happens to a node outside it. */
  lemma OutsideHolds(m: Mem, m': Mem, t: Ptr, tree: Tree, n: Ptr)
    requires Focus(m, Root, tree, t) && Except(m, m', {n}) && m'.roots == m.roots && n !in Nodes(tree)
    ensures Focus(m', Root, tree, t)
  {
    RepDomain(m, tree, HoleWord(Root, t));
    ExceptSame(m, m', {n}, Nodes(tree));
    RepFrame(m, m', tree, HoleWord(Root, t));
  }

  /** The subtree `s` in context `c` of the tree of `t` is ready to lose its root node. */
  predicate Removable(m: Mem, model: map<Ptr, Tree>, t: Ptr, c: Ctx, s: Tree) {
    && t in model && s.Node? && Plug(c, s) == model[t] && Valid(Plug(c, s)) && Focus(m, c, s, t)
    && Nodes(s) + CtxNodes(c) == Nodes(model[t]) && Confined(m, t, Nodes(model[t])) && t != NULL
    && forall u | u in model && u != t :: Nodes(model[t]) !! Nodes(model[u])
  }

  lemma UnlinkPrepared(m: Mem, model: map<Ptr, Tree>, t: Ptr, n: Ptr, z: Zip)
    requires Consistent(m, model) && t in model && n in Nodes(model[t]) && z == Locate(Root, model[t], n)
    ensures Removable(m, model, t, z.ctx, z.sub) && z.sub.node == n
  {
    assert Holds(m, t, model[t]);
    HoldsDomain(m, t, model[t]);
    LocateFocus(m, t, model[t], n);
  }

  /** `s'` is `s` without its one occurrence of `n`. */
  ghost predicate Without(s: seq<Ptr>, n: Ptr, s': seq<Ptr>) {
    exists i: nat | i < |s| :: s[i] == n && s' == s[..i] + s[i + 1..] && n !in s'
  }

  lemma RemovedWithout(c: Ctx, t: Tree)
    requires t.Node? && Valid(Plug(c, t))
    ensures Without(Inorder(Plug(c, t)), t.node, Inorder(Removed(c, t)))
  {
    RemovedValid(c, t);
    InorderNodes(Removed(c, t));
    var a, b, s := Before(c) + Inorder(t.left), Inorder(t.right) + After(c), Inorder(Plug(c, t));
    assert s == a + [t.node] + b;
    assert s[|a|] == t.node && s[..|a|] == a && s[|a| + 1..] == b;
  }

  lemma RemovedFits(c: Ctx, t: Tree)
    requires t.Node? && Valid(Plug(c, t))
    ensures Valid(Removed(c, t)) && Nodes(Removed(c, t)) == Nodes(Plug(c, t)) - {t.node}
  {
    RemovedValid(c, t);
  }

  /** The operation that began at memory `before` has taken `n` out of the tree of `m.tree`, and leaves it stale. */
  ghost method EndStale(m: Memory, before: Mem, tree: Tree, n: Ptr)
    requires m.Logged() && View(m.base) == before && Consistent(before, m.model) && m.tree in m.model
    requires forall u | u in m.model && u != m.tree :: m.footprint !! Nodes(m.model[u])
    requires Holds(m.mem, m.tree, tree) && m.footprint == Nodes(m.model[m.tree])
    requires n in m.footprint && Nodes(tree) == m.footprint - {n}
    modifies m`model
    ensures m.Logged() && m.model == old(m.model)[m.tree := tree] && Addable(m, n)
    ensures m.mem.cells.Keys == before.cells.Keys && Extends(m.base, m.history)
  {
    Ended(m, before);
    StaleStep(before, m.mem, m.model, m.tree, m.footprint, tree, n);
    m.model := m.model[m.tree := tree];
  }

  lemma StaleStep(m: Mem, m': Mem, model: map<Ptr, Tree>, t: Ptr, s: set<Ptr>, tree: Tree, n: Ptr)
    requires Consistent(m, model) && Local(m, m', t, s) && t in model && s == Nodes(model[t])
    requires forall u | u in model && u != t :: s !! Nodes(model[u])
    requires Holds(m', t, tree) && n in s && n in m'.cells && Nodes(tree) == s - {n}
    ensures Consistent(Cleared(m', n), model[t := tree]) && !Member(model[t := tree], n)
  {
    OutsideHolds(m', Cleared(m', n), t, tree, n);
    ConsistentStep(m, Cleared(m', n), model, t, s, tree);
  }

  /** A member is linked also when it has been popped as a root. */
  lemma StaleLinked(m: Mem, c: Ctx, s: Tree, t: Ptr)
    requires Focus(m, c, s, t) && s.Node? && NULL !in m.cells
    ensures s.node in m.cells && s.node != NULL && AfterPop(m, s.node).cells[s.node].Parent() != s.node
  {
    FocusReads(m, c, s, t);
    assert s.node in Nodes(s);
    assert c.In? ==> c.node in CtxNodes(c);
  }

  /**
   * `c_rbnode_unlink_stale` for a member of `t`. The node keeps its pointers and its colour, only a root
   * forgets its tree: it still counts as linked, and readers that are at the node can go on from it. It may
   * be added again as it is.
   */
  method UnlinkStaleMember(m: Memory, n: Ptr, ghost t: Ptr, ghost c: Ctx, ghost s: Tree) returns (ghost steps: nat)
    requires Settled(m) && Removable(m.mem, m.model, t, c, s) && n == s.node
    modifies m
    ensures Addable(m, n) && m.model == old(m.model)[t := Removed(c, s)] && steps == RemovedSteps(c, s)
    ensures m.mem.cells.Keys == old(m.mem).cells.Keys && Extends(old(m.history), m.history)
    ensures m.Logged() && m.base == old(m.history) && m.tree == t && m.footprint == Nodes(old(m.model)[t])
    ensures n in m.footprint && m.history == UnlinkTrace(c, s, t, old(m.history))
    ensures n in old(m.mem).cells && n in m.mem.cells && m.mem.cells[n] == AfterPop(old(m.mem), n).cells[n]
    ensures IsLinked(m.mem, n)
  {
    ghost var m0 := m.mem;
    StaleLinked(m0, c, s, t);
    Begin(m, t, Nodes(m.model[t]));
    steps := UnlinkStale(m, n, c, s);
    RemovedFits(c, s);
    EndStale(m, m0, Removed(c, s), n);
  }

  /** Once the stale node `n` is initialised, everything is in order again. */
  lemma StaleInitialised(m: Memory, was: Mem, n: Ptr)
    requires m.Logged() && n in was.cells && m.mem == Cleared(was, n) && Consistent(m.mem, m.model)
    ensures Settled(m) && Extends(m.base, m.history) && m.mem.cells.Keys == was.cells.Keys
    ensures n in m.mem.cells && m.mem.cells[n] == Initial(n)
  {
    WithinSince(m.history, m.base, m.writes, m.tree, m.footprint);
  }

  /** `c_rbnode_unlink_stale` followed by `c_rbnode_init`, for a member of `t`. */
  method UnlinkMember(m: Memory, n: Ptr, ghost t: Ptr, ghost c: Ctx, ghost s: Tree) returns (ghost steps: nat)
    requires Settled(m) && Removable(m.mem, m.model, t, c, s) && n == s.node
    modifies m
    ensures Settled(m) && m.model == old(m.model)[t := Removed(c, s)] && steps == RemovedSteps(c, s)
    ensures m.mem.cells.Keys == old(m.mem).cells.Keys && n in m.mem.cells && m.mem.cells[n] == Initial(n)
    ensures Extends(old(m.history), m.history)
    ensures m.history == ResetTrace(UnlinkTrace(c, s, t, old(m.history)), n, n, false)
    ensures m.Logged() && m.base == old(m.history) && m.tree == t && m.footprint == Nodes(old(m.model)[t])
  {
    steps := UnlinkStaleMember(m, n, t, c, s);
    ghost var was := m.mem;
    Init(m, n);
    StaleInitialised(m, was, n);
  }

  /** `c_rbnode_unlink`: nothing happens unless `n` is linked. */
  method Unlink(m: Memory, n: Ptr) returns (ghost t: Ptr, ghost z: Zip, ghost steps: nat)
    requires Settled(m) && (n != NULL ==> n in m.mem.cells)
    modifies m
    ensures Settled(m) && Extends(old(m.history), m.history)
    ensures !Member(old(m.model), n) ==> m.mem == old(m.mem) && m.model == old(m.model) && m.history == old(m.history)
    ensures Member(old(m.model), n) ==>
              && t in old(m.model) && n in Nodes(old(m.model)[t]) && z == Locate(Root, old(m.model)[t], n)
              && m.model == old(m.model)[t := Removed(z.ctx, z.sub)] && steps == RemovedSteps(z.ctx, z.sub)
              && m.mem.cells.Keys == old(m.mem).cells.Keys && n in m.mem.cells && m.mem.cells[n] == Initial(n)
              && Without(Inorder(old(m.model)[t]), n, Inorder(m.model[t]))
              && m.Logged() && m.base == old(m.history) && m.tree == t && m.footprint == Nodes(old(m.model)[t])
              && m.history == ResetTrace(UnlinkTrace(z.ctx, z.sub, t, old(m.history)), n, n, false)
  {
    t, z, steps := NULL, Zip(Root, Leaf), 0;
    MemberLinked(m.mem, m.model, n);
    if IsLinked(m.mem, n) {
      t :| t in m.model && n in Nodes(m.model[t]);
      z := Locate(Root, m.model[t], n);
      UnlinkPrepared(m.mem, m.model, t, n, z);
      RemovedWithout(z.ctx, z.sub);
      steps := UnlinkMember(m, n, t, z.ctx, z.sub);
    }
  }

  // ----- Moving a whole tree -----

  /** The memory after the tree of `from` has been moved to the empty `to`. */
  predicate IsMoved(m: Mem, m': Mem, to: Ptr, from: Ptr)
    requires from in m.roots && m.roots[from] in m.cells
  {
    var r := m.roots[from];
    && m'.roots == m.roots[to := r][from := NULL]
    && Except(m, m', {r}) && m'.cells[r] == m.cells[r].(word := Word(to, true))
  }

  lemma MovedHolds(m: Mem, m': Mem, to: Ptr, from: Ptr, tree: Tree)
    requires Holds(m, from, tree) && tree.Node? && to != from && to in m.roots
    requires from in m.roots && m.roots[from] in m.cells && IsMoved(m, m', to, from)
    ensures Holds(m', to, tree) && Holds(m', from, Leaf)
  {
    var r := m.roots[from];
    MoveSubtree(m, m', {r}, tree, HoleWord(Root, from), HoleWord(Root, to), tree.red);
  }

  lemma MovedConsistent(m: Mem, m': Mem, model: map<Ptr, Tree>, to: Ptr, from: Ptr)
    requires Consistent(m, model) && to in model && from in model && to != from
    requires model[to] == Leaf && model[from].Node? && m.roots[from] in m.cells && IsMoved(m, m', to, from)
    ensures Consistent(m', model[to := model[from]][from := Leaf])
  {
    var model' := model[to := model[from]][from := Leaf];
    var r := m.roots[from];
    assert r in Nodes(model[from]);
    MovedHolds(m, m', to, from, model[from]);
    forall u | u in model' ensures Holds(m', u, model'[u]) {
      if u != to && u != from {
        HoldsDomain(m, u, model[u]);
        ExceptSame(m, m', {r}, Nodes(model[u]));
        RepFrame(m, m', model[u], HoleWord(Root, u));
      }
    }
    MovedRest(m, m', model, to, from, r);
  }

  lemma MovedRest(m: Mem, m': Mem, model: map<Ptr, Tree>, to: Ptr, from: Ptr, r: Ptr)
    requires RestInitial(m, model) && Disjoint(model) && to in model && from in model && to != from
    requires model[to] == Leaf && r in Nodes(model[from]) && Except(m, m', {r})
    ensures var model' := model[to := model[from]][from := Leaf]; RestInitial(m', model') && Disjoint(model')
  {
    var model' := model[to := model[from]][from := Leaf];
    forall n | Member(model, n) ensures Member(model', n) {
      var u :| u in model && n in Nodes(model[u]);
      assert n in Nodes(model'[if u == from then to else u]);
    }
    assert Member(model, r);
  }

  /** Every state from `base` on may be met by readers of either tree, who stay among the nodes `s`. */
  ghost predicate SinceBoth(base: History, h: History, to: Ptr, from: Ptr, s: set<Ptr>) {
    Since(base, h, to, s) && Since(base, h, from, s)
  }

  /** The writes since the last `Begin`, seen by readers of either tree. */
  lemma WindowBoth(m: Memory, before: Mem, to: Ptr, from: Ptr, s: set<Ptr>)
    requires m.Logged() && m.footprint == s && (m.tree == to || m.tree == from) && to != from && View(m.base) == before
    requires to in before.roots && from in before.roots
    requires NullOrIn(before.roots[to], s) && NullOrIn(before.roots[from], s)
    ensures SinceBoth(m.base, m.history, to, from, s)
  {
    WithinSince(m.history, m.base, m.writes, m.tree, s);
    WithinOther(m.history, m.base, m.writes, m.tree, s, if m.tree == to then from else to);
  }

  /** `to` takes the root, which has been popped. */
  method MoveTake(m: Memory, to: Ptr, from: Ptr, root: Ptr, ghost s: set<Ptr>)
    requires Sound(m.history) && View(m.history) == m.mem && Closed(m.mem, s) && root in s && NULL !in m.mem.cells
    requires to in m.mem.roots && from in m.mem.roots && to != from
    requires m.mem.roots[to] == NULL && m.mem.roots[from] == root
    requires m.mem.cells[root].word == Word(from, true) && from != NULL
    modifies m`mem, m`history, m`base, m`tree, m`footprint, m`writes
    ensures Sound(m.history) && View(m.history) == m.mem && Closed(m.mem, s)
    ensures m.mem == PutRoot(PutWord(old(m.mem), root, Word(NULL, false), old(m.mem).cells[root].red), to, root)
    ensures m.history == Then(Then(old(m.history), WordWrite(root, Word(NULL, false), old(m.mem).cells[root].red)),
                              SlotWrite(RootOf(to), root))
    ensures SinceBoth(old(m.history), m.history, to, from, s)
  {
    ghost var m0 := m.mem;
    Begin(m, to, s);
    var t := m.PopRoot(root);
    assert t == from;
    m.Store(RootOf(to), root, s);
    WindowBoth(m, m0, to, from, s);
  }

  method MoveClear(m: Memory, to: Ptr, from: Ptr, ghost s: set<Ptr>)
    requires Sound(m.history) && View(m.history) == m.mem && Closed(m.mem, s) && to != from
    requires from in m.mem.roots && NullOrIn(m.mem.roots[from], s) && to in m.mem.roots && NullOrIn(m.mem.roots[to], s)
    modifies m`mem, m`history, m`base, m`tree, m`footprint, m`writes
    ensures Sound(m.history) && View(m.history) == m.mem && Closed(m.mem, s)
    ensures m.mem == PutRoot(old(m.mem), from, NULL) && m.history == Then(old(m.history), SlotWrite(RootOf(from), NULL))
    ensures SinceBoth(old(m.history), m.history, to, from, s)
  {
    ghost var m0 := m.mem;
    Begin(m, from, s);
    m.Store(RootOf(from), NULL, {});
    WindowBoth(m, m0, to, from, s);
  }

  method MoveGive(m: Memory, to: Ptr, from: Ptr, root: Ptr, ghost s: set<Ptr>)
    requires Sound(m.history) && View(m.history) == m.mem && Closed(m.mem, s) && to != from && to != NULL
    requires from in m.mem.roots && NullOrIn(m.mem.roots[from], s) && to in m.mem.roots && m.mem.roots[to] == root
    requires root in s && root != NULL
    modifies m`mem, m`history, m`base, m`tree, m`footprint, m`writes
    ensures Sound(m.history) && View(m.history) == m.mem && root in old(m.mem).cells
    ensures m.mem == AfterPush(old(m.mem), root, to) && m.history == PushTrace(old(m.history), old(m.mem), root, to)
    ensures SinceBoth(old(m.history), m.history, to, from, s)
  {
    ghost var m0 := m.mem;
    Begin(m, to, s);
    m.PushRoot(root, to, s);
    WindowBoth(m, m0, to, from, s);
  }

  lemma SinceBothOn(a: History, b: History, c: History, to: Ptr, from: Ptr, s: set<Ptr>)
    requires SinceBoth(a, b, to, from, s) && SinceBoth(b, c, to, from, s)
    ensures SinceBoth(a, c, to, from, s)
  {
    SinceOn(a, b, c, to, s);
    SinceOn(a, b, c, from, s);
  }

  /** All writes of moving a tree with the given root. */
  function MoveTrace(to: Ptr, from: Ptr, root: Ptr, red: bool, h: History): History {
    var h1 := Then(Then(h, WordWrite(root, Word(NULL, false), red)), SlotWrite(RootOf(to), root));
    var h2 := Then(h1, SlotWrite(RootOf(from), NULL));
    Then(Then(h2, WordWrite(root, Word(to, true), red)), SlotWrite(RootOf(to), root))
  }

  /** The body of `c_rbtree_move`. */
  method MoveRoot(m: Memory, to: Ptr, from: Ptr, ghost s: set<Ptr>)
    requires Sound(m.history) && View(m.history) == m.mem && Closed(m.mem, s) && NULL !in m.mem.cells
    requires to in m.mem.roots && from in m.mem.roots && to != from && m.mem.roots[to] == NULL && NULL !in m.mem.roots
    requires m.mem.roots[from] in s && m.mem.cells[m.mem.roots[from]].word == Word(from, true)
    modifies m`mem, m`history, m`base, m`tree, m`footprint, m`writes
    ensures Sound(m.history) && View(m.history) == m.mem && IsMoved(old(m.mem), m.mem, to, from)
    ensures SinceBoth(old(m.history), m.history, to, from, s)
    ensures var root := old(m.mem).roots[from];
            && root in old(m.mem).cells
            && m.history == MoveTrace(to, from, root, old(m.mem).cells[root].red, old(m.history))
  {
    ghost var h0 := m.history;
    var root := m.mem.roots[from];
    MoveTake(m, to, from, root, s);
    ghost var h1 := m.history;
    MoveClear(m, to, from, s);
    ghost var h2 := m.history;
    MoveGive(m, to, from, m.mem.roots[to], s);
    SinceBothOn(h0, h1, h2, to, from, s);
    SinceBothOn(h0, h2, m.history, to, from, s);
  }

  /** A reader of an empty tree meets nothing. */
  lemma EmptyReadable(m: Memory, t: Ptr)
    requires Settled(m) && t in m.model && m.model[t] == Leaf
    ensures Since(m.history, m.history, t, {})
  {
    assert Holds(m.mem, t, m.model[t]);
  }

  /**
   * `c_rbtree_move`. Readers of either tree may meet every state since the call: they find the old tree,
   * or nothing.
   */
  method Move(m: Memory, to: Ptr, from: Ptr)
    requires Settled(m) && to in m.model && from in m.model && m.mem.roots[to] == NULL
    modifies m
    ensures Settled(m) && m.model == old(m.model)[to := old(m.model)[from]][from := Leaf]
    ensures m.mem.cells.Keys == old(m.mem).cells.Keys && Extends(old(m.history), m.history)
    ensures Since(old(m.history), m.history, to, Nodes(old(m.model)[from]))
    ensures Since(old(m.history), m.history, from, Nodes(old(m.model)[from]))
    ensures old(m.model)[from] == Leaf ==> m.mem == old(m.mem) && m.history == old(m.history)
    ensures var tree := old(m.model)[from];
            tree.Node? ==> to != from && m.history == MoveTrace(to, from, tree.node, tree.red, old(m.history))
  {
    ghost var m0, model := m.mem, m.model;
    EmptyTree(m0, model, to);
    EmptyTree(m0, model, from);
    if m.mem.roots[from] != NULL {
      HoldsDomain(m0, from, model[from]);
      FocusReads(m0, Root, model[from], from);
      MoveRoot(m, to, from, Nodes(model[from]));
      SinceStates(old(m.history), m.history, to, Nodes(model[from]));
      MovedConsistent(m0, m.mem, model, to, from);
      m.model := model[to := model[from]][from := Leaf];
    } else {
      EmptyReadable(m, to);
      EmptyReadable(m, from);
    }
  }

  lemma EmptyTree(m: Mem, model: map<Ptr, Tree>, t: Ptr)
    requires Consistent(m, model) && t in model
    ensures t in m.roots && (m.roots[t] == NULL <==> model[t] == Leaf)
    ensures (model[t].Node? ==> m.roots[t] in Nodes(model[t]))
  {
  }
}
