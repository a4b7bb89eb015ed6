/** A rotation write by write: three stores, then the words, with the root popped before and pushed after. */
module Relinking {
  import opened Structs
  import opened Trees
  import opened Layout
  import opened Lockless
  import opened Memories
  import opened Rotations

  // ----- The three stores of a rotation -----

  function Store1(r: Turn, m: Mem): Mem
    requires r.lo in m.cells
  {
    PutChild(m, Flip(r.side), r.lo, Top(r.mid))
  }

  function Store2(r: Turn, m: Mem): Mem
    requires r.lo in m.cells && r.hi in m.cells
  {
    PutChild(Store1(r, m), r.side, r.hi, r.lo)
  }

  /** The memory after all three stores. */
  function Stored(r: Turn, m: Mem): Mem
    requires r.lo in m.cells && r.hi in m.cells && (r.c.In? ==> r.c.node in m.cells)
  {
    if r.c.In? then PutChild(Store2(r, m), r.c.side, r.c.node, r.hi) else Store2(r, m)
  }

  /** The memory after the words: `far` if it is to be written, `mid` if there is one, `hi`, `lo`. */
  function Worded(r: Turn, m: Mem, k: Tints): Mem
    requires ReadyIn(r, m)
  {
    var a := if k.writesFar && r.far.Node? then PutWord(m, r.far.node, Below(r.hi), k.far) else m;
    var b := if r.mid.Node? then PutWord(a, r.mid.node, Below(r.lo), k.mid) else a;
    PutWord(PutWord(b, r.hi, Word(if r.c.Root? then NULL else r.c.node, false), k.hi), r.lo, Below(r.hi), k.lo)
  }

  /** Before the rotation, each piece is closed, also when the root has been popped. */
  lemma LaidClosed(r: Turn, m: Mem, hole: Ptr, tree: Ptr, wm: Word, wf: Word, m1: Mem, w: Word, red: bool)
    requires r.Laid(m, hole, tree, wm, wf) && r.lo in m.cells && r.hi in m.cells
    requires m1 == m || m1 == PutWord(m, r.lo, w, red)
    ensures Closed(m1, Nodes(r.near)) && Closed(m1, Nodes(r.mid)) && Closed(m1, Nodes(r.far))
  {
    RepClosed(m, r.near, Below(r.lo));
    RepClosed(m, r.mid, wm);
    RepClosed(m, r.far, wf);
    PutWordClosed(m, r.lo, w, red, Nodes(r.near));
    PutWordClosed(m, r.lo, w, red, Nodes(r.mid));
    PutWordClosed(m, r.lo, w, red, Nodes(r.far));
  }

  /** Every store of a rotation is safe for readers. */
  lemma TurnAdmissible(r: Turn, m: Mem)
    requires r.Apart() && NULL !in r.All() && NULL !in CtxNodes(r.c) && r.All() <= m.cells.Keys
    requires Closed(m, Nodes(r.near)) && Closed(m, Nodes(r.mid)) && Closed(m, Nodes(r.far))
    requires Kid(m, r.side, r.lo) == Top(r.near) && Kid(m, Flip(r.side), r.hi) == Top(r.far)
    ensures Admissible(m, Child(Flip(r.side), r.lo), Top(r.mid), Nodes(r.mid))
    ensures Admissible(Store1(r, m), Child(r.side, r.hi), r.lo, r.Low())
    ensures Closed(Store2(r, m), r.All())
  {
    TurnApart(r);
    TurnLowClosed(r, m);
    var m2 := Store2(r, m);
    ClosedElsewhere(Store1(r, m), r.Low(), r.side, r.hi, r.lo);
    ClosedElsewhere(m, Nodes(r.far), Flip(r.side), r.lo, Top(r.mid));
    ClosedElsewhere(Store1(r, m), Nodes(r.far), r.side, r.hi, r.lo);
    ClosedUnion(m2, r.Low(), Nodes(r.far));
    ClosedAdd(m2, r.Low() + Nodes(r.far), r.hi);
    assert r.Low() + Nodes(r.far) + {r.hi} == r.All();
  }

  lemma TurnLowClosed(r: Turn, m: Mem)
    requires r.lo in m.cells && r.lo !in Nodes(r.near) + Nodes(r.mid)
    requires Closed(m, Nodes(r.near)) && Closed(m, Nodes(r.mid))
    requires Kid(m, r.side, r.lo) == Top(r.near)
    ensures Closed(Store1(r, m), r.Low())
  {
    var m1 := Store1(r, m);
    ClosedElsewhere(m, Nodes(r.near), Flip(r.side), r.lo, Top(r.mid));
    ClosedElsewhere(m, Nodes(r.mid), Flip(r.side), r.lo, Top(r.mid));
    ClosedUnion(m1, Nodes(r.near), Nodes(r.mid));
    ClosedAdd(m1, Nodes(r.near) + Nodes(r.mid), r.lo);
    assert Nodes(r.near) + Nodes(r.mid) + {r.lo} == r.Low();
  }

  // ----- The memory after a rotation -----

  /** Colours after a rotation; `far` is only rewritten in Case 6 of removal. */
  datatype Tints = Tints(lo: bool, hi: bool, mid: bool, far: bool, writesFar: bool)

  predicate ReadyIn(r: Turn, m: Mem) {
    r.lo in m.cells && r.hi in m.cells && (r.mid.Node? ==> r.mid.node in m.cells)
    && (r.far.Node? ==> r.far.node in m.cells) && (r.c.In? ==> r.c.node in m.cells)
  }

  /** The nodes that a rotation writes are different nodes. */
  predicate TopsApart(r: Turn) {
    && r.lo != r.hi && r.lo != NULL && r.hi != NULL
    && (r.mid.Node? ==> r.mid.node != r.lo && r.mid.node != r.hi && r.mid.node != NULL)
    && (r.far.Node? ==> r.far.node != r.lo && r.far.node != r.hi && r.far.node != NULL)
    && (r.mid.Node? && r.far.Node? ==> r.mid.node != r.far.node)
    && (r.c.In? ==> r.c.node != NULL && r.c.node !in {r.lo, r.hi, Top(r.mid), Top(r.far)})
  }

  lemma ReadyTops(r: Turn, m: Mem, tree: Ptr, wm: Word, wf: Word)
    requires Ready(r, m, tree, wm, wf)
    ensures ReadyIn(r, m) && TopsApart(r)
    ensures NULL !in r.All() && NULL !in CtxNodes(r.c) && r.All() + CtxNodes(r.c) <= m.cells.Keys
  {
    LaidDomain(r, m, r.lo, tree, wm, wf);
    TurnApart(r);
    assert r.mid.Node? ==> r.mid.node in Nodes(r.mid);
    assert r.far.Node? ==> r.far.node in Nodes(r.far);
    assert r.c.In? ==> r.c.node in CtxNodes(r.c);
  }

  function WithKid(n: CRBNode, side: Side, addr: Ptr): CRBNode {
    if side == L then n.(left := addr) else n.(right := addr)
  }

  predicate IsPopped(r: Turn, m: Mem, m': Mem)
    requires ReadyIn(r, m)
  {
    && Except(m, m', {r.lo}) && m'.roots == m.roots
    && m'.cells[r.lo] == m.cells[r.lo].(word := if r.c.Root? then Word(NULL, false) else m.cells[r.lo].word)
  }

  predicate IsStored(r: Turn, m: Mem, m': Mem)
    requires ReadyIn(r, m)
  {
    && Except(m, m', {r.lo, r.hi} + CtxTop(r.c)) && m'.roots == m.roots
    && m'.cells[r.lo] == WithKid(m.cells[r.lo], Flip(r.side), Top(r.mid))
    && m'.cells[r.hi] == WithKid(m.cells[r.hi], r.side, r.lo)
    && (r.c.In? ==> m'.cells[r.c.node] == WithKid(m.cells[r.c.node], r.c.side, r.hi))
  }

  predicate IsWorded(r: Turn, m: Mem, m': Mem, k: Tints)
    requires ReadyIn(r, m)
  {
    && Except(m, m', {r.lo, r.hi, Top(r.mid), Top(r.far)}) && m'.roots == m.roots
    && m'.cells[r.lo] == m.cells[r.lo].(word := Below(r.hi), red := k.lo)
    && m'.cells[r.hi] == m.cells[r.hi].(word := Word(if r.c.Root? then NULL else r.c.node, false), red := k.hi)
    && (r.mid.Node? ==> m'.cells[r.mid.node] == m.cells[r.mid.node].(word := Below(r.lo), red := k.mid))
    && (r.far.Node? ==> m'.cells[r.far.node] == FarCell(r, m, k))
  }

  function FarCell(r: Turn, m: Mem, k: Tints): CRBNode
    requires r.far.Node? && r.far.node in m.cells
  {
    if k.writesFar then m.cells[r.far.node].(word := Below(r.hi), red := k.far) else m.cells[r.far.node]
  }

  predicate IsPushed(r: Turn, m: Mem, m': Mem, tree: Ptr)
    requires ReadyIn(r, m)
  {
    && Except(m, m', {r.hi})
    && m'.cells[r.hi] == m.cells[r.hi].(word := if r.c.Root? then Word(tree, true) else m.cells[r.hi].word)
    && m'.roots == if r.c.Root? then m.roots[tree := r.hi] else m.roots
  }

  predicate IsTurned(r: Turn, m: Mem, m': Mem, k: Tints, tree: Ptr)
    requires ReadyIn(r, m)
  {
    && Except(m, m', r.Touched()) && Hung(m, m', r.c, r.hi, tree)
    && m'.cells[r.lo] == PairNode(r.side, Kid(m, r.side, r.lo), Top(r.mid), Below(r.hi), k.lo)
    && m'.cells[r.hi] == PairNode(r.side, r.lo, Kid(m, Flip(r.side), r.hi), HoleWord(r.c, tree), k.hi)
    && (r.mid.Node? ==> m'.cells[r.mid.node] == m.cells[r.mid.node].(word := Below(r.lo), red := k.mid))
    && (r.far.Node? ==> m'.cells[r.far.node] == FarCell(r, m, k))
  }

  /** The three stores may be made from `m` on. */
  predicate Relinkable(r: Turn, m: Mem) {
    && ReadyIn(r, m) && TopsApart(r)
    && m.cells[r.lo].Parent() == (if r.c.Root? then NULL else r.c.node)
    && (r.c.In? ==> r.c.node !in r.All() && (m.cells[r.c.node].left == r.lo <==> r.c.side == L))
    && Admissible(m, Child(Flip(r.side), r.lo), Top(r.mid), Nodes(r.mid))
    && Admissible(Store1(r, m), Child(r.side, r.hi), r.lo, r.Low())
    && (r.c.In? ==> Admissible(Store2(r, m), Child(r.c.side, r.c.node), r.hi, r.All()))
    && Closed(Stored(r, m), r.All())
  }

  /** The words may be written from `m` on. */
  predicate Wordable(r: Turn, m: Mem) {
    && ReadyIn(r, m) && TopsApart(r)
    && !m.cells[r.lo].word.isRoot && !m.cells[r.hi].word.isRoot
    && (r.mid.Node? ==> !m.cells[r.mid.node].word.isRoot)
    && (r.far.Node? ==> !m.cells[r.far.node].word.isRoot)
  }

  /** The four stages of a rotation add up. */
  lemma Stages(r: Turn, m: Mem, m1: Mem, m2: Mem, m3: Mem, m4: Mem, k: Tints, tree: Ptr)
    requires ReadyIn(r, m) && ReadyIn(r, m1) && ReadyIn(r, m2) && ReadyIn(r, m3) && TopsApart(r)
    requires IsPopped(r, m, m1) && IsStored(r, m1, m2) && IsWorded(r, m2, m3, k) && IsPushed(r, m3, m4, tree)
    ensures IsTurned(r, m, m4, k, tree)
  {
  }

  lemma HoleSide(r: Turn, m: Mem, tree: Ptr, wm: Word, wf: Word)
    requires Ready(r, m, tree, wm, wf) && TopsApart(r) && r.c.In?
    ensures r.c.node in m.cells && (m.cells[r.c.node].left == r.lo <==> r.c.side == L)
    ensures r.c.node !in r.All()
  {
  }

  /** After the root is popped, the stores may start. */
  lemma PoppedRelinkable(r: Turn, m: Mem, tree: Ptr, wm: Word, wf: Word)
    requires Ready(r, m, tree, wm, wf) && ReadyIn(r, m) && TopsApart(r)
    ensures ReadyIn(r, AfterPop(m, r.lo)) && IsPopped(r, m, AfterPop(m, r.lo)) && Relinkable(r, AfterPop(m, r.lo))
  {
    var m1 := AfterPop(m, r.lo);
    ReadyTops(r, m, tree, wm, wf);
    LaidClosed(r, m, r.lo, tree, wm, wf, m1, Word(NULL, false), m.cells[r.lo].red);
    TurnAdmissible(r, m1);
    if r.c.In? {
      HoleSide(r, m, tree, wm, wf);
      ClosedElsewhere(Store2(r, m1), r.All(), r.c.side, r.c.node, r.hi);
    }
  }

  /** After the stores, the words may be written. */
  lemma StoredWordable(r: Turn, m: Mem, m1: Mem, tree: Ptr, wm: Word, wf: Word)
    requires Ready(r, m, tree, wm, wf) && ReadyIn(r, m) && TopsApart(r) && IsPopped(r, m, m1) && ReadyIn(r, m1)
    ensures ReadyIn(r, Stored(r, m1)) && IsStored(r, m1, Stored(r, m1)) && Wordable(r, Stored(r, m1))
    ensures Stored(r, m1).cells[r.lo].red == m.cells[r.lo].red
    ensures r.mid.Node? ==> Stored(r, m1).cells[r.mid.node].red == r.mid.red
  {
  }

  /** Everything a rotation needs along the way. */
  predicate Turnable(r: Turn, m: Mem, tree: Ptr) {
    && ReadyIn(r, m) && TopsApart(r) && tree != NULL && tree in m.roots
    && m.cells[r.lo].word == (if r.c.Root? then Word(tree, true) else Below(r.c.node))
    && Kid(m, r.side, r.hi) == Top(r.mid)
    && Relinkable(r, AfterPop(m, r.lo)) && ReadyIn(r, Stored(r, AfterPop(m, r.lo)))
    && Wordable(r, Stored(r, AfterPop(m, r.lo)))
    && Stored(r, AfterPop(m, r.lo)).cells[r.lo].red == m.cells[r.lo].red
    && (r.mid.Node? ==> r.mid.node in r.All() && Stored(r, AfterPop(m, r.lo)).cells[r.mid.node].red == r.mid.red)
    && (r.far.Node? ==> r.far.node in r.All())
  }

  /** The memory after the whole rotation. */
  function TurnMem(r: Turn, m: Mem, k: Tints, tree: Ptr): Mem
    requires ReadyIn(r, m) && ReadyIn(r, Stored(r, AfterPop(m, r.lo)))
  {
    var m3 := Worded(r, Stored(r, AfterPop(m, r.lo)), k);
    if r.c.Root? then PutRoot(PutWord(m3, r.hi, Word(tree, true), k.hi), tree, r.hi) else m3
  }

  lemma TurnPrepared(r: Turn, m: Mem, tree: Ptr, wm: Word, wf: Word)
    requires Ready(r, m, tree, wm, wf)
    ensures Turnable(r, m, tree) && r.All() + CtxNodes(r.c) <= m.cells.Keys
  {
    ReadyTops(r, m, tree, wm, wf);
    PoppedRelinkable(r, m, tree, wm, wf);
    StoredWordable(r, m, AfterPop(m, r.lo), tree, wm, wf);
    assert r.mid.Node? ==> r.mid.node in Nodes(r.mid);
    assert r.far.Node? ==> r.far.node in Nodes(r.far);
  }

  lemma WordedMem(r: Turn, m: Mem, k: Tints)
    requires ReadyIn(r, m) && TopsApart(r)
    ensures ReadyIn(r, Worded(r, m, k)) && IsWorded(r, m, Worded(r, m, k), k)
  {
  }

  lemma PushedMem(r: Turn, m3: Mem, tree: Ptr, t: Ptr)
    requires ReadyIn(r, m3) && tree != NULL && r.hi != NULL && t == if r.c.Root? then tree else NULL
    ensures IsPushed(r, m3, AfterPush(m3, r.hi, t), tree)
  {
  }

  /** The whole rotation. */
  lemma TurnDone(r: Turn, m: Mem, k: Tints, tree: Ptr, wm: Word, wf: Word)
    requires Ready(r, m, tree, wm, wf) && Turnable(r, m, tree)
    requires k.writesFar || (wf == Below(r.hi) && k.far == IsRed(r.far))
    ensures Focus(TurnMem(r, m, k, tree), r.c, r.Turned(k.lo, k.hi, k.mid, k.far), tree)
  {
    PoppedRelinkable(r, m, tree, wm, wf);
    var m1 := AfterPop(m, r.lo);
    StoredWordable(r, m, m1, tree, wm, wf);
    var m2 := Stored(r, m1);
    WordedMem(r, m2, k);
    var m3, t := Worded(r, m2, k), if r.c.Root? then tree else NULL;
    PushedMem(r, m3, tree, t);
    Stages(r, m, m1, m2, m3, AfterPush(m3, r.hi, t), k, tree);
    TurnedFocus(r, m, AfterPush(m3, r.hi, t), k, tree, wm, wf);
  }

  lemma TurnedFocus(r: Turn, m: Mem, m': Mem, k: Tints, tree: Ptr, wm: Word, wf: Word)
    requires Ready(r, m, tree, wm, wf) && ReadyIn(r, m) && IsTurned(r, m, m', k, tree)
    requires k.writesFar || (wf == Below(r.hi) && k.far == IsRed(r.far))
    ensures Focus(m', r.c, r.Turned(k.lo, k.hi, k.mid, k.far), tree)
  {
    TurnFocus(r, m, m', r.lo, tree, wm, wf, k.lo, k.hi, k.mid, k.far);
  }

  // ----- The writes of a rotation, in order -----

  function StoresTrace(r: Turn, h: History): History {
    var h' := Then(Then(h, SlotWrite(Child(Flip(r.side), r.lo), Top(r.mid))), SlotWrite(Child(r.side, r.hi), r.lo));
    if r.c.In? then Then(h', SlotWrite(Child(r.c.side, r.c.node), r.hi)) else h'
  }

  function WordsTrace(r: Turn, k: Tints, h: History): History {
    var a := if k.writesFar && r.far.Node? then Then(h, WordWrite(r.far.node, Below(r.hi), k.far)) else h;
    var b := if r.mid.Node? then Then(a, WordWrite(r.mid.node, Below(r.lo), k.mid)) else a;
    Then(Then(b, WordWrite(r.hi, Word(if r.c.Root? then NULL else r.c.node, false), k.hi)),
         WordWrite(r.lo, Below(r.hi), k.lo))
  }

  /** All writes of a rotation at a node that is red or not; at the root it is popped before and pushed after. */
  function TurnTrace(r: Turn, k: Tints, red: bool, tree: Ptr, h: History): History {
    if r.c.In? then WordsTrace(r, k, StoresTrace(r, h))
    else
      var h' := WordsTrace(r, k, StoresTrace(r, Then(h, WordWrite(r.lo, Word(NULL, false), red))));
      Then(Then(h', WordWrite(r.hi, Word(tree, true), k.hi)), SlotWrite(RootOf(tree), r.hi))
  }

  /** The end of a rotation at the root, and of any other. */
  lemma TurnPushed(r: Turn, m: Mem, k: Tints, tree: Ptr, t: Ptr, h: History)
    requires ReadyIn(r, m) && TopsApart(r) && tree != NULL && t == if r.c.Root? then tree else NULL
    ensures var m' := Worded(r, m, k);
            && r.hi in m'.cells
            && AfterPush(m', r.hi, t)
            == (if r.c.Root? then PutRoot(PutWord(m', r.hi, Word(tree, true), k.hi), tree, r.hi) else m')
            && PushTrace(h, m', r.hi, t)
            == if r.c.Root? then Then(Then(h, WordWrite(r.hi, Word(tree, true), k.hi)), SlotWrite(RootOf(tree), r.hi))
               else h
  {
  }
}
