/**
 * The two hand-written arms agree: on a memory in which left and right are exchanged in every node, the
 * code takes the other arm and makes the same writes with left and right exchanged.
 */
module Mirrors {
  import opened Structs
  import opened Trees
  import opened PaintSpec
  import opened RebalanceSpec
  import opened Symmetry
  import opened Layout
  import opened Lockless
  import opened Memories
  import opened Rotations
  import opened Relinking
  import opened Folds
  import Insertion
  import Removal

  // ----- Memory in the mirror -----

  function MirrorCell(n: CRBNode): CRBNode {
    n.(left := n.right, right := n.left)
  }

  function MirrorMem(m: Mem): Mem {
    m.(cells := map n | n in m.cells :: MirrorCell(m.cells[n]))
  }

  function MirrorWrite(w: Write): Write {
    match w
    case SlotWrite(RootOf(t), addr) => w
    case SlotWrite(Child(side, n), addr) => SlotWrite(Child(Flip(side), n), addr)
    case WordWrite(n, word, red) => w
  }

  function MirrorHistory(h: History): History {
    match h
    case Start(m) => Start(MirrorMem(m))
    case Then(prev, w) => Then(MirrorHistory(prev), MirrorWrite(w))
  }

  /** In the mirror, the one child pointer of a node is the other. */
  lemma KidMirror(m: Mem, side: Side, n: Ptr)
    requires n in m.cells
    ensures n in MirrorMem(m).cells && Kid(MirrorMem(m), side, n) == Kid(m, Flip(side), n)
  {
  }

  lemma StepMirror(m: Mem, w: Write)
    ensures Writable(MirrorMem(m), MirrorWrite(w)) <==> Writable(m, w)
    ensures Writable(m, w) ==> Step(MirrorMem(m), MirrorWrite(w)) == MirrorMem(Step(m, w))
  {
    if Writable(m, w) {
      assert Step(MirrorMem(m), MirrorWrite(w)).cells == MirrorMem(Step(m, w)).cells;
    }
  }

  lemma {:induction false} ViewMirror(h: History)
    ensures View(MirrorHistory(h)) == MirrorMem(View(h))
    decreases h
  {
    if h.Then? {
      ViewMirror(h.prev);
      StepMirror(View(h.prev), h.write);
    }
  }

  lemma ClosedMirror(m: Mem, s: set<Ptr>)
    requires Closed(m, s)
    ensures Closed(MirrorMem(m), s)
  {
    forall n | n in s ensures NullOrIn(MirrorMem(m).cells[n].left, s) && NullOrIn(MirrorMem(m).cells[n].right, s) {
      ClosedKids(m, s, n);
    }
  }

  lemma SafeMirror(m: Mem)
    requires Safe(m)
    ensures Safe(MirrorMem(m))
  {
    var rank :| Ranked(m, rank);
    forall n | n in m.cells
      ensures RanksBelow(rank, MirrorMem(m).cells[n].left, n) && RanksBelow(rank, MirrorMem(m).cells[n].right, n)
    {
      assert RanksBelow(rank, m.cells[n].left, n) && RanksBelow(rank, m.cells[n].right, n);
    }
    assert MirrorMem(m).cells.Keys == m.cells.Keys;
    assert Ranked(MirrorMem(m), rank);
    ClosedMirror(m, m.cells.Keys);
  }

  lemma {:induction false} SoundMirror(h: History)
    requires Sound(h)
    ensures Sound(MirrorHistory(h))
    decreases h
  {
    ViewMirror(h);
    SafeMirror(View(h));
    if h.Then? { SoundMirror(h.prev); }
  }

  lemma {:induction false} WithinMirror(h: History, base: History, count: nat, tree: Ptr, s: set<Ptr>)
    requires Within(h, base, count, tree, s)
    ensures Within(MirrorHistory(h), MirrorHistory(base), count, tree, s)
    decreases count
  {
    ViewMirror(h);
    ClosedMirror(View(h), s);
    if count > 1 { WithinMirror(h.prev, base, count - 1, tree, s); }
  }

  // ----- Trees in the mirrored memory -----

  lemma {:induction false} NodesMirror(t: Tree)
    ensures Nodes(Mirror(t)) == Nodes(t) && Top(Mirror(t)) == Top(t) && (Distinct(Mirror(t)) <==> Distinct(t))
  {
    if t.Node? {
      NodesMirror(t.left);
      NodesMirror(t.right);
    }
  }

  lemma {:induction false} CtxNodesMirror(c: Ctx)
    ensures CtxNodes(MirrorCtx(c)) == CtxNodes(c) && (DistinctCtx(MirrorCtx(c)) <==> DistinctCtx(c))
  {
    if c.In? {
      NodesMirror(c.sib);
      CtxNodesMirror(c.up);
    }
  }

  lemma {:induction false} RepMirror(m: Mem, t: Tree, w: Word)
    requires Rep(m, t, w)
    ensures Rep(MirrorMem(m), Mirror(t), w)
    decreases t
  {
    if t.Node? {
      RepMirror(m, t.left, Below(t.node));
      RepMirror(m, t.right, Below(t.node));
      NodesMirror(t.left);
      NodesMirror(t.right);
    }
  }

  lemma {:induction false} RepCtxMirror(m: Mem, c: Ctx, hole: Ptr, tree: Ptr)
    requires RepCtx(m, c, hole, tree)
    ensures RepCtx(MirrorMem(m), MirrorCtx(c), hole, tree)
    decreases c
  {
    if c.In? {
      RepMirror(m, c.sib, Below(c.node));
      NodesMirror(c.sib);
      RepCtxMirror(m, c.up, c.node, tree);
    }
  }

  /** The mirrored memory holds the mirrored tree. */
  lemma FocusMirror(m: Mem, c: Ctx, t: Tree, tree: Ptr)
    requires Focus(m, c, t, tree)
    ensures Focus(MirrorMem(m), MirrorCtx(c), Mirror(t), tree)
  {
    RepMirror(m, t, HoleWord(c, tree));
    RepCtxMirror(m, c, Top(t), tree);
    NodesMirror(t);
    CtxNodesMirror(c);
  }

  lemma {:induction false} CtxRBMirror(c: Ctx, h: nat)
    requires CtxRB(c, h)
    ensures CtxRB(MirrorCtx(c), h)
    decreases c
  {
    if c.In? {
      MirrorRB(c.sib);
      MirrorParts(L, c.sib);
      CtxRBMirror(c.up, if c.red then h else h + 1);
    }
  }

  lemma PaintableMirror(c: Ctx, t: Tree)
    requires Paintable(c, t)
    ensures Paintable(MirrorCtx(c), Mirror(t))
  {
    MirrorRB(t);
    MirrorParts(L, t);
    CtxRBMirror(c, H(t));
  }

  // ----- The writes of one rotation in the mirror -----

  function TurnMirror(r: Turn): Turn {
    Turn(MirrorCtx(r.c), Flip(r.side), Mirror(r.near), r.lo, Mirror(r.mid), r.hi, Mirror(r.far))
  }

  lemma TurnTops(r: Turn)
    ensures Top(Mirror(r.mid)) == Top(r.mid) && Top(Mirror(r.far)) == Top(r.far)
    ensures (Mirror(r.mid).Node? <==> r.mid.Node?) && (Mirror(r.far).Node? <==> r.far.Node?)
    ensures IsRed(Mirror(r.mid)) == IsRed(r.mid) && IsRed(Mirror(r.far)) == IsRed(r.far)
  {
  }

  lemma StoresMirror(r: Turn, h: History)
    ensures MirrorHistory(StoresTrace(r, h)) == StoresTrace(TurnMirror(r), MirrorHistory(h))
  {
    var h1 := Then(h, SlotWrite(Child(Flip(r.side), r.lo), Top(r.mid)));
    var h2 := Then(h1, SlotWrite(Child(r.side, r.hi), r.lo));
    assert MirrorHistory(h2) == Then(MirrorHistory(h1), SlotWrite(Child(Flip(r.side), r.hi), r.lo));
  }

  lemma WordsMirror(r: Turn, k: Tints, h: History)
    ensures MirrorHistory(WordsTrace(r, k, h)) == WordsTrace(TurnMirror(r), k, MirrorHistory(h))
  {
    var a := if k.writesFar && r.far.Node? then Then(h, WordWrite(r.far.node, Below(r.hi), k.far)) else h;
    var b := if r.mid.Node? then Then(a, WordWrite(r.mid.node, Below(r.lo), k.mid)) else a;
    assert MirrorHistory(b)
        == if r.mid.Node? then Then(MirrorHistory(a), WordWrite(r.mid.node, Below(r.lo), k.mid)) else MirrorHistory(a);
  }

  lemma TurnTraceMirror(r: Turn, k: Tints, red: bool, tree: Ptr, h: History)
    ensures MirrorHistory(TurnTrace(r, k, red, tree, h)) == TurnTrace(TurnMirror(r), k, red, tree, MirrorHistory(h))
  {
    var h' := if r.c.In? then h else Then(h, WordWrite(r.lo, Word(NULL, false), red));
    StoresMirror(r, h');
    WordsMirror(r, k, StoresTrace(r, h'));
  }

  lemma FoldStoresMirror(r: Turn, h: History)
    ensures MirrorHistory(FoldStoresTrace(r, h)) == FoldStoresTrace(TurnMirror(r), MirrorHistory(h))
  {
  }

  lemma FoldTraceMirror(r: Turn, h: History)
    ensures MirrorHistory(FoldTrace(r, h)) == FoldTrace(TurnMirror(r), MirrorHistory(h))
  {
    FoldStoresMirror(r, h);
    TurnTops(r);
  }

  lemma HungTraceMirror(r: Turn, h: History)
    requires r.c.In?
    ensures MirrorHistory(HungTrace(r, h)) == HungTrace(TurnMirror(r), MirrorHistory(h))
  {
    FoldStoresMirror(r, h);
    TurnTops(r);
  }

  lemma OuterMirror(r: Turn, redLo: bool, redMid: bool)
    requires r.c.In?
    ensures TurnMirror(Outer(r, redLo, redMid)) == Outer(TurnMirror(r), redLo, redMid)
  {
    MirrorJoin(r.side, r.near, r.lo, redLo, Tint(r.mid, redMid));
  }

  // ----- Insertion in the mirror -----

  lemma OuterTurnMirror(c: Ctx, t: Tree)
    requires c.In? && c.up.In? && t.Node?
    ensures Mirror(t).Node? && MirrorCtx(c).In? && MirrorCtx(c).up.In?
    ensures Insertion.BentTurn(MirrorCtx(c), Mirror(t)) == TurnMirror(Insertion.BentTurn(c, t))
    ensures Insertion.OuterTurn(MirrorCtx(c), Mirror(t)) == TurnMirror(Insertion.OuterTurn(c, t))
    ensures Insertion.PaintTints(TurnMirror(Insertion.OuterTurn(c, t)))
         == Insertion.PaintTints(Insertion.OuterTurn(c, t))
  {
    var b := Insertion.BentTurn(c, t);
    MirrorParts(c.side, t);
    TurnTops(b);
    OuterMirror(b, true, IsRed(b.mid));
    TurnTops(Insertion.OuterTurn(c, t));
  }

  /** The other arm of Case 4 makes the mirrored writes. */
  lemma TerminalTraceMirror(c: Ctx, t: Tree, tree: Ptr, h: History)
    requires c.In? && c.up.In? && t.Node?
    ensures Mirror(t).Node? && MirrorCtx(c).In? && MirrorCtx(c).up.In?
    ensures Insertion.TerminalTrace(MirrorCtx(c), Mirror(t), tree, MirrorHistory(h))
         == MirrorHistory(Insertion.TerminalTrace(c, t, tree, h))
  {
    var b, r := Insertion.BentTurn(c, t), Insertion.OuterTurn(c, t);
    OuterTurnMirror(c, t);
    FoldTraceMirror(b, h);
    TurnTraceMirror(r, Insertion.PaintTints(r), false, tree, if c.side == c.up.side then h else FoldTrace(b, h));
  }

  lemma LiftTraceMirror(c: Ctx, tree: Ptr, h: History)
    requires c.In? && c.up.In? && c.up.sib.Node?
    ensures MirrorCtx(c).In? && MirrorCtx(c).up.In? && MirrorCtx(c).up.sib.Node?
    ensures MirrorHistory(Insertion.LiftTrace(c, tree, h)) == Insertion.LiftTrace(MirrorCtx(c), tree, MirrorHistory(h))
  {
    assert MirrorCtx(c).up == In(Flip(c.up.side), c.up.node, c.up.red, Mirror(c.up.sib), MirrorCtx(c.up.up));
    assert HoleWord(MirrorCtx(c.up.up), tree) == HoleWord(c.up.up, tree);
    var h1 := Then(h, WordWrite(c.node, Below(c.up.node), false));
    assert MirrorHistory(Then(h1, WordWrite(c.up.sib.node, Below(c.up.node), false)))
        == Then(MirrorHistory(h1), WordWrite(c.up.sib.node, Below(c.up.node), false));
  }

  lemma LiftedMirror(c: Ctx, t: Tree)
    requires c.In? && c.up.In?
    ensures MirrorCtx(c).In? && MirrorCtx(c).up.In?
    ensures Lifted(MirrorCtx(c), Mirror(t)) == Mirror(Lifted(c, t))
  {
    MirrorParts(L, c.up.sib);
    assert MirrorCtx(c).up == In(Flip(c.up.side), c.up.node, c.up.red, Mirror(c.up.sib), MirrorCtx(c.up.up));
    MirrorJoin(c.side, t, c.node, false, c.sib);
    MirrorJoin(c.up.side, Join(c.side, t, c.node, false, c.sib), c.up.node, true, Blacken(c.up.sib));
  }

  lemma {:induction false} PaintTraceMirror(c: Ctx, t: Tree, tree: Ptr, h: History)
    requires t.Node?
    ensures Mirror(t).Node?
    ensures Insertion.PaintTrace(MirrorCtx(c), Mirror(t), tree, MirrorHistory(h))
         == MirrorHistory(Insertion.PaintTrace(c, t, tree, h))
    decreases c
  {
    if c.In? && c.red && c.up.In? {
      MirrorParts(L, c.up.sib);
      if IsRed(c.up.sib) {
        LiftTraceMirror(c, tree, h);
        LiftedMirror(c, t);
        PaintTraceMirror(c.up.up, Lifted(c, t), tree, Insertion.LiftTrace(c, tree, h));
      } else {
        TerminalTraceMirror(c, t, tree, h);
      }
    }
  }

  // ----- Removal in the mirror -----

  lemma SiblingTurnMirror(c: Ctx, t: Tree)
    requires c.In? && c.sib.Node?
    ensures MirrorCtx(c).In? && MirrorCtx(c).sib.Node?
    ensures Removal.SiblingTurn(MirrorCtx(c), Mirror(t)) == TurnMirror(Removal.SiblingTurn(c, t))
  {
    MirrorParts(c.side, c.sib);
  }

  lemma NephewTurnMirror(c: Ctx, t: Tree)
    requires c.In? && c.sib.Node? && Near(c.side, c.sib).Node?
    ensures MirrorCtx(c).In? && MirrorCtx(c).sib.Node? && Near(MirrorCtx(c).side, MirrorCtx(c).sib).Node?
    ensures Removal.NephewTurn(MirrorCtx(c), Mirror(t)) == TurnMirror(Removal.NephewTurn(c, t))
  {
    MirrorParts(c.side, c.sib);
    MirrorParts(c.side, Near(c.side, c.sib));
  }

  lemma Case6TurnMirror(c: Ctx, t: Tree)
    requires c.In? && c.sib.Node? && (IsRed(Far(c.side, c.sib)) || IsRed(Near(c.side, c.sib)))
    ensures var c' := MirrorCtx(c);
            && c'.In? && c'.sib.Node? && IsRed(Far(c'.side, c'.sib)) == IsRed(Far(c.side, c.sib))
            && IsRed(Near(c'.side, c'.sib)) == IsRed(Near(c.side, c.sib))
            && Removal.Case6Turn(c', Mirror(t)) == TurnMirror(Removal.Case6Turn(c, t))
  {
    MirrorParts(c.side, c.sib);
    MirrorParts(c.side, Near(c.side, c.sib));
    MirrorParts(c.side, Far(c.side, c.sib));
    if IsRed(Far(c.side, c.sib)) {
      SiblingTurnMirror(c, t);
    } else {
      NephewTurnMirror(c, t);
      OuterMirror(Removal.NephewTurn(c, t), c.sib.red, false);
    }
  }

  lemma RecolourTraceMirror(c: Ctx, tree: Ptr, h: History)
    requires c.In? && c.sib.Node?
    ensures MirrorCtx(c).In? && MirrorCtx(c).sib.Node?
    ensures MirrorHistory(Removal.RecolourTrace(c, tree, h))
         == Removal.RecolourTrace(MirrorCtx(c), tree, MirrorHistory(h))
  {
  }

  lemma BlackTraceMirror(c: Ctx, t: Tree, tree: Ptr, h: History)
    requires c.In? && c.sib.Node?
    ensures MirrorCtx(c).In? && MirrorCtx(c).sib.Node?
    ensures Removal.BlackTrace(MirrorCtx(c), Mirror(t), tree, MirrorHistory(h))
         == MirrorHistory(Removal.BlackTrace(c, t, tree, h))
  {
    MirrorParts(c.side, c.sib);
    MirrorParts(c.side, Near(c.side, c.sib));
    MirrorParts(c.side, Far(c.side, c.sib));
    if IsRed(Far(c.side, c.sib)) || IsRed(Near(c.side, c.sib)) {
      var r := Removal.Case6Turn(c, t);
      Case6TurnMirror(c, t);
      TurnTops(r);
      Case5TraceMirror(c, t, h);
      TurnTraceMirror(r, Removal.Case6Tints(r, c.red), c.red, tree, Removal.Case5Trace(c, t, h));
    } else {
      RecolourTraceMirror(c, tree, h);
    }
  }

  lemma Case5TraceMirror(c: Ctx, t: Tree, h: History)
    requires c.In? && c.sib.Node? && (IsRed(Far(c.side, c.sib)) || IsRed(Near(c.side, c.sib)))
    requires MirrorCtx(c).sib.Node?
    requires IsRed(Far(MirrorCtx(c).side, MirrorCtx(c).sib)) == IsRed(Far(c.side, c.sib))
    requires IsRed(Near(MirrorCtx(c).side, MirrorCtx(c).sib)) == IsRed(Near(c.side, c.sib))
    ensures Removal.Case5Trace(MirrorCtx(c), Mirror(t), MirrorHistory(h)) == MirrorHistory(Removal.Case5Trace(c, t, h))
  {
    if !IsRed(Far(c.side, c.sib)) {
      NephewTurnMirror(c, t);
      HungTraceMirror(Removal.NephewTurn(c, t), h);
    }
  }

  lemma Case2CtxMirror(c: Ctx)
    requires c.In? && c.sib.Node?
    ensures MirrorCtx(c).sib.Node? && Removal.Case2Ctx(MirrorCtx(c)) == MirrorCtx(Removal.Case2Ctx(c))
  {
    MirrorParts(c.side, c.sib);
    MirrorParts(c.side, Near(c.side, c.sib));
  }

  /** The other arm of the removal rotations makes the mirrored writes. */
  lemma RotationTraceMirror(c: Ctx, t: Tree, tree: Ptr, h: History)
    requires c.In? && c.sib.Node? && (c.sib.red ==> Near(c.side, c.sib).Node?)
    ensures var c' := MirrorCtx(c);
            && c'.In? && c'.sib.Node? && (c'.sib.red ==> Near(c'.side, c'.sib).Node?)
            && Removal.RotationTrace(c', Mirror(t), tree, MirrorHistory(h))
            == MirrorHistory(Removal.RotationTrace(c, t, tree, h))
  {
    MirrorParts(c.side, c.sib);
    MirrorParts(c.side, Near(c.side, c.sib));
    if c.sib.red {
      var r := Removal.SiblingTurn(c, t);
      var h' := TurnTrace(r, Removal.Case2Tints(r), c.red, tree, h);
      SiblingTurnMirror(c, t);
      TurnTops(r);
      TurnTraceMirror(r, Removal.Case2Tints(r), c.red, tree, h);
      Case2CtxMirror(c);
      BlackTraceMirror(Removal.Case2Ctx(c), t, tree, h');
    } else {
      BlackTraceMirror(c, t, tree, h);
    }
  }

  lemma RecolouredMirror(c: Ctx, t: Tree)
    requires c.In? && c.sib.Node?
    ensures MirrorCtx(c).sib.Node? && Recoloured(MirrorCtx(c), Mirror(t)) == Mirror(Recoloured(c, t))
  {
    MirrorParts(L, c.sib);
    MirrorJoin(c.side, t, c.node, false, c.sib.(red := true));
  }

  lemma {:induction false} RebalanceTraceMirror(c: Ctx, t: Tree, tree: Ptr, h: History)
    ensures Removal.RebalanceTrace(MirrorCtx(c), Mirror(t), tree, MirrorHistory(h))
         == MirrorHistory(Removal.RebalanceTrace(c, t, tree, h))
    decreases c
  {
    if c.In? {
      MirrorAllBlack(c.sib);
      MirrorParts(c.side, c.sib);
      if AllBlack(c.sib) {
        RecolourTraceMirror(c, tree, h);
        RecolouredMirror(c, t);
        if !c.red { RebalanceTraceMirror(c.up, Recoloured(c, t), tree, Removal.RecolourTrace(c, tree, h)); }
      } else if c.sib.Node? && (c.sib.red ==> Near(c.side, c.sib).Node?) {
        RotationTraceMirror(c, t, tree, h);
      } else if c.sib.Node? {
        MirrorParts(c.side, Near(c.side, c.sib));
      }
    }
  }

  // ----- The code in the mirror -----

  /** The second memory, its past included, is the mirror image of the first. */
  ghost predicate Mirrored(m: Memory, m': Memory)
    reads m, m'
  {
    && m != m' && m'.mem == MirrorMem(m.mem)
    && m'.history == MirrorHistory(m.history) && m'.base == MirrorHistory(m.base)
    && m'.tree == m.tree && m'.footprint == m.footprint && m'.writes == m.writes
  }

  lemma LoggedMirror(m: Memory, m': Memory)
    requires m.Logged() && Mirrored(m, m')
    ensures m'.Logged()
  {
    ViewMirror(m.history);
    SoundMirror(m.history);
    WithinMirror(m.history, m.base, m.writes, m.tree, m.footprint);
  }

  /** After mirrored writes the memories are still mirror images. */
  lemma ViewsMirrored(m: Memory, m': Memory)
    requires View(m.history) == m.mem && View(m'.history) == m'.mem && m'.history == MirrorHistory(m.history)
    ensures m'.mem == MirrorMem(m.mem)
  {
    ViewMirror(m.history);
  }

  lemma CoversMirror(c: Ctx, t: Tree)
    ensures Nodes(Mirror(t)) + CtxNodes(MirrorCtx(c)) == Nodes(t) + CtxNodes(c)
  {
    NodesMirror(t);
    CtxNodesMirror(c);
  }

  /** `c_rbtree_paint_terminal`: each arm makes the mirrored writes of the other. */
  method PaintTerminalMirrored(m: Memory, m': Memory, n: Ptr, ghost c: Ctx, ghost t: Tree)
    requires m.Logged() && Focus(m.mem, c, t, m.tree) && Nodes(t) + CtxNodes(c) <= m.footprint
    requires m.tree != NULL && m.tree in m.mem.roots && NULL !in m.mem.cells
    requires Insertion.NeedsRotation(c, t) && t.node == n && Mirrored(m, m')
    modifies m`mem, m`history, m`writes, m'`mem, m'`history, m'`writes
    ensures m'.history == MirrorHistory(m.history) && m'.mem == MirrorMem(m.mem)
    ensures m.Logged() && Focus(m.mem, c.up.up, PaintTerminated(c, t), m.tree)
  {
    LoggedMirror(m, m');
    FocusMirror(m.mem, c, t, m.tree);
    CoversMirror(c, t);
    MirrorParts(L, t);
    MirrorParts(L, c.up.sib);
    TerminalTraceMirror(c, t, m.tree, m.history);
    Insertion.PaintTerminal(m, n, c, t);
    Insertion.PaintTerminal(m', n, MirrorCtx(c), Mirror(t));
    ViewsMirrored(m, m');
  }

  /** `c_rbtree_paint`, loop included, makes the mirrored writes on the mirrored memory. */
  method PaintMirrored(m: Memory, m': Memory, n: Ptr, ghost c: Ctx, ghost t: Tree)
    requires m.Logged() && Focus(m.mem, c, t, m.tree) && Nodes(t) + CtxNodes(c) <= m.footprint
    requires m.tree != NULL && m.tree in m.mem.roots && NULL !in m.mem.cells
    requires Paintable(c, t) && t.node == n && Mirrored(m, m')
    modifies m`mem, m`history, m`writes, m'`mem, m'`history, m'`writes
    ensures m'.history == MirrorHistory(m.history) && m'.mem == MirrorMem(m.mem)
    ensures m.Logged() && Focus(m.mem, Root, Painted(c, t), m.tree)
  {
    LoggedMirror(m, m');
    FocusMirror(m.mem, c, t, m.tree);
    CoversMirror(c, t);
    MirrorParts(L, t);
    PaintableMirror(c, t);
    PaintTraceMirror(c, t, m.tree, m.history);
    ghost var steps;
    steps := Insertion.Paint(m, n, c, t);
    steps := Insertion.Paint(m', n, MirrorCtx(c), Mirror(t));
    ViewsMirrored(m, m');
  }

  /** `c_rbnode_rebalance_terminal`: each arm makes the mirrored writes of the other. */
  method RebalanceTerminalMirrored(m: Memory, m': Memory, p: Ptr, previous: Ptr, ghost c: Ctx, ghost t: Tree)
    requires m.Logged() && Focus(m.mem, c, t, m.tree) && Nodes(t) + CtxNodes(c) <= m.footprint
    requires m.tree != NULL && m.tree in m.mem.roots && NULL !in m.mem.cells
    requires Removal.NeedsTerminal(c, t) && Removal.HangsAt(c, t, p, previous) && Mirrored(m, m')
    modifies m`mem, m`history, m`writes, m'`mem, m'`history, m'`writes
    ensures m'.history == MirrorHistory(m.history) && m'.mem == MirrorMem(m.mem)
    ensures m.Logged() && c.sib.Node? && (c.sib.red ==> Near(c.side, c.sib).Node?)
    ensures Focus(m.mem, c.up, Terminated(c, t), m.tree)
  {
    LoggedMirror(m, m');
    FocusMirror(m.mem, c, t, m.tree);
    CoversMirror(c, t);
    NeedsTerminalMirror(c, t);
    NodesMirror(t);
    TerminalRB(c, t);
    RotationTraceMirror(c, t, m.tree, m.history);
    Removal.RebalanceTerminal(m, p, previous, c, t);
    Removal.RebalanceTerminal(m', p, previous, MirrorCtx(c), Mirror(t));
    ViewsMirrored(m, m');
  }

  lemma NeedsTerminalMirror(c: Ctx, t: Tree)
    requires Removal.NeedsTerminal(c, t)
    ensures Removal.NeedsTerminal(MirrorCtx(c), Mirror(t))
  {
    MirrorRB(t);
    MirrorParts(L, t);
    CtxRBMirror(c, H(t) + 1);
    MirrorAllBlack(c.sib);
  }

  /** A hole that is one black node short is so in the mirror. */
  lemma HoleMirror(m: Mem, c: Ctx, tree: Ptr)
    requires Focus(m, c, Leaf, tree) && Deficient(c, Leaf)
    ensures Focus(MirrorMem(m), MirrorCtx(c), Leaf, tree) && Deficient(MirrorCtx(c), Leaf)
    ensures CtxNodes(MirrorCtx(c)) == CtxNodes(c) && (MirrorCtx(c).Root? <==> c.Root?)
    ensures c.In? ==> MirrorCtx(c).node == c.node
  {
    FocusMirror(m, c, Leaf, tree);
    CtxNodesMirror(c);
    CtxRBMirror(c, 1);
  }

  /** `c_rbnode_rebalance`, loop included, makes the mirrored writes on the mirrored memory. */
  method RebalanceMirrored(m: Memory, m': Memory, n: Ptr, ghost c: Ctx)
    requires m.Logged() && Focus(m.mem, c, Leaf, m.tree) && CtxNodes(c) <= m.footprint
    requires m.tree != NULL && m.tree in m.mem.roots && NULL !in m.mem.cells
    requires n == (if c.Root? then NULL else c.node) && Deficient(c, Leaf) && Mirrored(m, m')
    modifies m`mem, m`history, m`writes, m'`mem, m'`history, m'`writes
    ensures m'.history == MirrorHistory(m.history) && m'.mem == MirrorMem(m.mem)
    ensures m.Logged() && Focus(m.mem, Root, Rebalanced(c, Leaf), m.tree)
  {
    LoggedMirror(m, m');
    HoleMirror(m.mem, c, m.tree);
    RebalanceTraceMirror(c, Leaf, m.tree, m.history);
    ghost var steps;
    steps := Removal.Rebalance(m, n, c);
    steps := Removal.Rebalance(m', n, MirrorCtx(c));
    ViewsMirrored(m, m');
  }
}
