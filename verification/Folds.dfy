/** The inner half of a double rotation: `lo` and `hi` change places before `hi` is told its new parent. */
module Folds {
  import opened Structs
  import opened Trees
  import opened Layout
  import opened Lockless
  import opened Memories
  import opened Rotations
  import opened Relinking

  /** The two stores below the parent have been made. */
  predicate IsFoldStored(r: Turn, m: Mem, m': Mem)
    requires ReadyIn(r, m)
  {
    && Except(m, m', {r.lo, r.hi}) && m'.roots == m.roots
    && m'.cells[r.lo] == WithKid(m.cells[r.lo], Flip(r.side), Top(r.mid))
    && m'.cells[r.hi] == WithKid(m.cells[r.hi], r.side, r.lo)
  }

  predicate IsFoldWorded(r: Turn, m: Mem, m': Mem, wl: Word, redLo: bool, redMid: bool)
    requires ReadyIn(r, m)
  {
    && Except(m, m', {r.lo, Top(r.mid)}) && m'.roots == m.roots
    && m'.cells[r.lo] == m.cells[r.lo].(word := wl, red := redLo)
    && (r.mid.Node? ==> m'.cells[r.mid.node] == m.cells[r.mid.node].(word := Below(r.lo), red := redMid))
  }

  /**
   * `lo` and `hi` have changed places, but `hi` does not know yet; if `hung`, then the parent points
   * to `hi` already, otherwise it still points to `lo`.
   */
  predicate IsFolded(r: Turn, m: Mem, m': Mem, wl: Word, redLo: bool, redMid: bool, hung: bool)
    requires ReadyIn(r, m) && r.c.In?
  {
    && Except(m, m', {r.lo, r.hi, Top(r.mid), r.c.node}) && m'.roots == m.roots
    && m'.cells[r.lo] == PairNode(r.side, Top(r.near), Top(r.mid), wl, redLo)
    && m'.cells[r.hi] == WithKid(m.cells[r.hi], r.side, r.lo)
    && (r.mid.Node? ==> m'.cells[r.mid.node] == m.cells[r.mid.node].(word := Below(r.lo), red := redMid))
    && m'.cells[r.c.node] == if hung then WithKid(m.cells[r.c.node], r.side, r.hi) else m.cells[r.c.node]
  }

  /** The words of a folding in Case 4: `mid` and `lo` keep their colours. */
  function FoldWords(r: Turn, m: Mem): Mem
    requires ReadyIn(r, m)
  {
    var a := if r.mid.Node? then PutWord(m, r.mid.node, Below(r.lo), m.cells[r.mid.node].red) else m;
    PutWord(a, r.lo, Below(r.hi), a.cells[r.lo].red)
  }

  lemma FoldWordsMem(r: Turn, m: Mem)
    requires ReadyIn(r, m) && TopsApart(r)
    ensures ReadyIn(r, Store2(r, m)) && IsFoldStored(r, m, Store2(r, m))
    ensures var m1 := Store2(r, m);
            r.mid.Node? ==>
              IsFoldWorded(r, m1, FoldWords(r, m1), Below(r.hi), m.cells[r.lo].red, m.cells[r.mid.node].red)
    ensures var m1 := Store2(r, m);
            r.mid.Leaf? ==> IsFoldWorded(r, m1, FoldWords(r, m1), Below(r.hi), m.cells[r.lo].red, false)
  {
  }

  function FoldStoresTrace(r: Turn, h: History): History {
    Then(Then(h, SlotWrite(Child(Flip(r.side), r.lo), Top(r.mid))), SlotWrite(Child(r.side, r.hi), r.lo))
  }

  /** All writes of a folding in Case 4, where `lo` is red. */
  function FoldTrace(r: Turn, h: History): History {
    var h' := FoldStoresTrace(r, h);
    var a := if r.mid.Node? then Then(h', WordWrite(r.mid.node, Below(r.lo), r.mid.red)) else h';
    Then(a, WordWrite(r.lo, Below(r.hi), true))
  }

  /** Everything a folding needs along the way. */
  predicate Foldable(r: Turn, m: Mem) {
    && ReadyIn(r, m) && TopsApart(r)
    && Admissible(m, Child(Flip(r.side), r.lo), Top(r.mid), Nodes(r.mid))
    && Admissible(Store1(r, m), Child(r.side, r.hi), r.lo, r.Low()) && ReadyIn(r, Store2(r, m))
    && Kid(m, r.side, r.hi) == Top(r.mid) && m.cells[r.lo].red && !m.cells[r.lo].word.isRoot
    && (r.mid.Node? ==>
          r.mid.node in r.All() && !m.cells[r.mid.node].word.isRoot && m.cells[r.mid.node].red == r.mid.red)
  }

  lemma FoldStages(r: Turn, m: Mem, m1: Mem, m2: Mem, wl: Word, redLo: bool, redMid: bool)
    requires ReadyIn(r, m) && ReadyIn(r, m1) && TopsApart(r) && Kid(m, r.side, r.lo) == Top(r.near) && r.c.In?
    requires IsFoldStored(r, m, m1) && IsFoldWorded(r, m1, m2, wl, redLo, redMid)
    ensures IsFolded(r, m, m2, wl, redLo, redMid, false)
  {
  }

  lemma FoldHungStages(r: Turn, m: Mem, m1: Mem, m3: Mem, redMid: bool)
    requires ReadyIn(r, m) && ReadyIn(r, m1) && TopsApart(r) && Kid(m, r.side, r.lo) == Top(r.near) && r.c.In?
    requires IsFoldStored(r, m, m1)
    requires var m2 := PutChild(m1, r.side, r.c.node, r.hi);
             m3 == if r.mid.Node? then PutWord(m2, r.mid.node, Below(r.lo), redMid) else m2
    ensures IsFolded(r, m, m3, m.cells[r.lo].word, m.cells[r.lo].red, redMid, true)
  {
  }

  /** The memory after Case 5: `hi` hangs below its new parent, and `mid`, if there is one, is black. */
  function HungMem(r: Turn, m: Mem): Mem
    requires ReadyIn(r, m) && r.c.In?
  {
    var m' := PutChild(Store2(r, m), r.side, r.c.node, r.hi);
    if r.mid.Node? then PutWord(m', r.mid.node, Below(r.lo), false) else m'
  }

  /** All writes of Case 5. */
  function HungTrace(r: Turn, h: History): History
    requires r.c.In?
  {
    var h' := Then(FoldStoresTrace(r, h), SlotWrite(Child(r.side, r.c.node), r.hi));
    if r.mid.Node? then Then(h', WordWrite(r.mid.node, Below(r.lo), false)) else h'
  }

  /** Everything Case 5 needs along the way. */
  predicate Hangable(r: Turn, m: Mem) {
    && ReadyIn(r, m) && TopsApart(r) && r.c.In?
    && Admissible(m, Child(Flip(r.side), r.lo), Top(r.mid), Nodes(r.mid))
    && Admissible(Store1(r, m), Child(r.side, r.hi), r.lo, r.Low()) && ReadyIn(r, Store2(r, m))
    && Admissible(Store2(r, m), Child(r.side, r.c.node), r.hi, r.All())
    && Kid(m, r.side, r.hi) == Top(r.mid)
    && (r.mid.Node? ==> r.mid.node in r.All() && !m.cells[r.mid.node].word.isRoot)
  }

  lemma FoldedPieces(r: Turn, m: Mem, m': Mem, tree: Ptr, wm: Word, wf: Word,
                     wl: Word, redLo: bool, redMid: bool, hung: bool)
    requires Ready(r, m, tree, wm, wf) && ReadyIn(r, m) && r.c.In? && IsFolded(r, m, m', wl, redLo, redMid, hung)
    ensures Rep(m', Join(r.side, r.near, r.lo, redLo, Tint(r.mid, redMid)), wl)
    ensures Rep(m', r.far, wf)
    ensures Same(m, m', CtxNodes(r.c) - {r.c.node})
  {
    ReadyTops(r, m, tree, wm, wf);
    TurnApart(r);
    var s := {r.lo, r.hi, Top(r.mid), r.c.node};
    assert r.mid.Node? ==> r.mid.node in Nodes(r.mid);
    assert s !! Nodes(r.near) && s !! Nodes(r.far) && s !! CtxNodes(r.c) - {r.c.node};
    ExceptSame(m, m', s, Nodes(r.near));
    RepFrame(m, m', r.near, Below(r.lo));
    ExceptSame(m, m', s, Nodes(r.far));
    RepFrame(m, m', r.far, wf);
    ExceptSame(m, m', s, CtxNodes(r.c) - {r.c.node});
    assert s !! (Nodes(r.mid) - {Top(r.mid)});
    MoveSubtree(m, m', s, r.mid, wm, Below(r.lo), redMid);
    TintNodes(r.mid, redMid);
    JoinRep(m', r.side, r.near, r.lo, redLo, Tint(r.mid, redMid), wl);
  }

  /** A subtree in context, seen as the pieces of a rotation at its root. */
  lemma FocusReady(m: Mem, tree: Ptr, r: Turn, redLo: bool, redHi: bool)
    requires Focus(m, r.c, Join(r.side, r.near, r.lo, redLo, Join(r.side, r.mid, r.hi, redHi, r.far)), tree)
    requires NULL !in m.cells && tree != NULL && tree in m.roots
    ensures Ready(r, m, tree, Below(r.hi), Below(r.hi))
    ensures m.cells[r.lo].red == redLo && m.cells[r.hi].red == redHi
  {
    var high := Join(r.side, r.mid, r.hi, redHi, r.far);
    JoinRep(m, r.side, r.mid, r.hi, redHi, r.far, Below(r.lo));
    JoinRep(m, r.side, r.near, r.lo, redLo, high, HoleWord(r.c, tree));
    JoinNodes(r.side, r.mid, r.hi, redHi, r.far);
    JoinNodes(r.side, r.near, r.lo, redLo, high);
    JoinNodes(r.side, r.near, r.lo, false, r.mid);
    JoinNodes(r.side, Join(r.side, r.near, r.lo, false, r.mid), r.hi, false, r.far);
  }

  /** The outer rotation that follows the folding of `r`, at the parent of the hole. */
  function Outer(r: Turn, redLo: bool, redMid: bool): Turn
    requires r.c.In?
  {
    Turn(r.c.up, Flip(r.side), r.c.sib, r.c.node, r.far, r.hi, Join(r.side, r.near, r.lo, redLo, Tint(r.mid, redMid)))
  }

  lemma OuterApart(r: Turn, redLo: bool, redMid: bool)
    requires r.Apart() && r.c.In? && NULL !in r.All() && NULL !in CtxNodes(r.c)
    ensures Outer(r, redLo, redMid).Apart()
    ensures Outer(r, redLo, redMid).All() == r.All() + Nodes(r.c.sib) + {r.c.node}
  {
    var o := Outer(r, redLo, redMid);
    TurnApart(r);
    TintNodes(r.mid, redMid);
    JoinNodes(r.side, r.near, r.lo, redLo, Tint(r.mid, redMid));
    assert Nodes(o.far) == r.Low();
    JoinNodes(o.side, o.near, o.lo, false, o.mid);
    JoinNodes(o.side, Join(o.side, o.near, o.lo, false, o.mid), o.hi, false, o.far);
  }

  lemma OuterNodes(r: Turn, redLo: bool, redMid: bool)
    requires r.Apart() && r.c.In? && NULL !in r.All() && NULL !in CtxNodes(r.c)
    ensures var o := Outer(r, redLo, redMid);
            o.All() + CtxTop(o.c) <= r.All() + CtxNodes(r.c)
  {
    OuterApart(r, redLo, redMid);
  }

  /** Case 5 may start. */
  lemma HangReady(r: Turn, m: Mem, tree: Ptr, w: Word)
    requires Ready(r, m, tree, w, w) && r.c.In? && r.c.side == r.side
    ensures Hangable(r, m) && IsFolded(r, m, HungMem(r, m), m.cells[r.lo].word, m.cells[r.lo].red, false, true)
    ensures HungMem(r, m).cells[r.c.node].red == m.cells[r.c.node].red
  {
    ReadyTops(r, m, tree, w, w);
    LaidClosed(r, m, r.lo, tree, w, w, m, w, false);
    TurnAdmissible(r, m);
    TurnApart(r);
    assert r.mid.Node? ==> r.mid.node in Nodes(r.mid);
    FoldWordsMem(r, m);
    FoldHungStages(r, m, Store2(r, m), HungMem(r, m), false);
  }

  lemma FoldedLaid(r: Turn, m: Mem, m': Mem, tree: Ptr, wl: Word, redLo: bool, redMid: bool, hung: bool)
    requires Ready(r, m, tree, Below(r.hi), Below(r.hi)) && ReadyIn(r, m) && r.c.In? && r.c.side == r.side
    requires IsFolded(r, m, m', wl, redLo, redMid, hung)
    ensures Outer(r, redLo, redMid).Laid(m', r.c.node, tree, Below(r.hi), wl)
  {
    FoldedPieces(r, m, m', tree, Below(r.hi), Below(r.hi), wl, redLo, redMid, hung);
    RepFrame(m, m', r.c.sib, Below(r.c.node));
    RepCtxFrame(m, m', r.c.up, r.c.node, tree);
  }

  /** After folding, the outer rotation may start. */
  lemma FoldedReady(r: Turn, m: Mem, m': Mem, tree: Ptr, wl: Word, redLo: bool, redMid: bool, hung: bool)
    requires Ready(r, m, tree, Below(r.hi), Below(r.hi)) && ReadyIn(r, m) && r.c.In? && r.c.side == r.side
    requires IsFolded(r, m, m', wl, redLo, redMid, hung) && !wl.isRoot
    ensures Ready(Outer(r, redLo, redMid), m', tree, Below(r.hi), wl)
  {
    ReadyTops(r, m, tree, Below(r.hi), Below(r.hi));
    FoldedLaid(r, m, m', tree, wl, redLo, redMid, hung);
    OuterApart(r, redLo, redMid);
  }
}
