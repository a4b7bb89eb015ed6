/** Where the recorded writes of painting and rebalancing go, and how many there are. */
module WriteCounts {
  import opened Structs
  import opened Trees
  import opened PaintSpec
  import opened RebalanceSpec
  import opened Layout
  import opened Lockless
  import opened Memories
  import opened Rotations
  import opened Relinking
  import opened Folds
  import opened Insertion
  import opened Removal

  /** All nodes that a rotation writes are among `s`. */
  predicate TopsIn(r: Turn, s: set<Ptr>) {
    && {r.lo, r.hi} + CtxTop(r.c) <= s
    && (r.mid.Node? ==> r.mid.node in s) && (r.far.Node? ==> r.far.node in s)
  }

  /** Since `base` there were only writes to `tree` and the nodes `s`; from `h` to `h'` there were `lo` to `hi`. */
  predicate Grown(base: History, h: History, h': History, lo: nat, hi: nat, tree: Ptr, s: set<Ptr>) {
    Wrote(base, h', tree, s) && Length(h) + lo <= Length(h') <= Length(h) + hi
  }

  lemma One(base: History, h: History, w: Write, tree: Ptr, s: set<Ptr>)
    requires Wrote(base, h, tree, s) && Inside(w, tree, s)
    ensures Wrote(base, Then(h, w), tree, s) && Length(Then(h, w)) == Length(h) + 1
  {
  }

  lemma StoresGrown(r: Turn, base: History, h: History, tree: Ptr, s: set<Ptr>)
    requires Wrote(base, h, tree, s) && TopsIn(r, s)
    ensures Grown(base, h, StoresTrace(r, h), 2, if r.c.In? then 3 else 2, tree, s)
  {
    var w1, w2 := SlotWrite(Child(Flip(r.side), r.lo), Top(r.mid)), SlotWrite(Child(r.side, r.hi), r.lo);
    One(base, h, w1, tree, s);
    One(base, Then(h, w1), w2, tree, s);
    if r.c.In? { One(base, Then(Then(h, w1), w2), SlotWrite(Child(r.c.side, r.c.node), r.hi), tree, s); }
  }

  lemma WordsGrown(r: Turn, k: Tints, base: History, h: History, tree: Ptr, s: set<Ptr>)
    requires Wrote(base, h, tree, s) && TopsIn(r, s)
    ensures Grown(base, h, WordsTrace(r, k, h), 2, if k.writesFar then 4 else 3, tree, s)
  {
    var wf, wm := WordWrite(Top(r.far), Below(r.hi), k.far), WordWrite(Top(r.mid), Below(r.lo), k.mid);
    var a := if k.writesFar && r.far.Node? then Then(h, wf) else h;
    if k.writesFar && r.far.Node? { One(base, h, wf, tree, s); }
    var b := if r.mid.Node? then Then(a, wm) else a;
    if r.mid.Node? { One(base, a, wm, tree, s); }
    var w := WordWrite(r.hi, Word(if r.c.Root? then NULL else r.c.node, false), k.hi);
    One(base, b, w, tree, s);
    One(base, Then(b, w), WordWrite(r.lo, Below(r.hi), k.lo), tree, s);
  }

  lemma TurnGrown(r: Turn, k: Tints, red: bool, base: History, h: History, tree: Ptr, s: set<Ptr>)
    requires Wrote(base, h, tree, s) && TopsIn(r, s)
    ensures Grown(base, h, TurnTrace(r, k, red, tree, h), 4, if k.writesFar then 9 else 8, tree, s)
  {
    var h0 := if r.c.In? then h else Then(h, WordWrite(r.lo, Word(NULL, false), red));
    if r.c.Root? { One(base, h, WordWrite(r.lo, Word(NULL, false), red), tree, s); }
    StoresGrown(r, base, h0, tree, s);
    WordsGrown(r, k, base, StoresTrace(r, h0), tree, s);
    if r.c.Root? {
      var h', w := WordsTrace(r, k, StoresTrace(r, h0)), WordWrite(r.hi, Word(tree, true), k.hi);
      One(base, h', w, tree, s);
      One(base, Then(h', w), SlotWrite(RootOf(tree), r.hi), tree, s);
      assert TurnTrace(r, k, red, tree, h) == Then(Then(h', w), SlotWrite(RootOf(tree), r.hi));
    }
  }

  lemma HungGrown(r: Turn, base: History, h: History, tree: Ptr, s: set<Ptr>)
    requires r.c.In? && Wrote(base, h, tree, s) && TopsIn(r, s)
    ensures Grown(base, h, HungTrace(r, h), 3, 4, tree, s)
  {
    var w1, w2 := SlotWrite(Child(Flip(r.side), r.lo), Top(r.mid)), SlotWrite(Child(r.side, r.hi), r.lo);
    var h1, w3 := FoldStoresTrace(r, h), SlotWrite(Child(r.side, r.c.node), r.hi);
    One(base, h, w1, tree, s);
    One(base, Then(h, w1), w2, tree, s);
    One(base, h1, w3, tree, s);
    if r.mid.Node? { One(base, Then(h1, w3), WordWrite(r.mid.node, Below(r.lo), false), tree, s); }
  }

  // ----- Painting -----

  lemma TerminalCount(c: Ctx, t: Tree, tree: Ptr, h: History)
    requires c.In? && c.up.In? && t.Node?
    ensures Length(h) <= Length(TerminalTrace(c, t, tree, h)) <= Length(h) + 12
  {
    var h' := if c.side == c.up.side then h else FoldTrace(BentTurn(c, t), h);
    if c.side != c.up.side { FoldCount(BentTurn(c, t), h); }
    var r, s := OuterTurn(c, t), {OuterTurn(c, t).lo, OuterTurn(c, t).hi, Top(OuterTurn(c, t).mid)};
    TurnGrown(r, PaintTints(r), false, h', h', tree, s + {Top(r.far)} + CtxTop(r.c));
  }

  lemma FoldCount(r: Turn, h: History)
    ensures Length(h) <= Length(FoldTrace(r, h)) <= Length(h) + 4
  {
    var h' := FoldStoresTrace(r, h);
    assert Length(h'.prev) == Length(h) + 1;
    assert r.mid.Node? ==> Length(FoldTrace(r, h).prev) == Length(h') + 1;
  }

  lemma LiftCount(c: Ctx, tree: Ptr, h: History)
    requires c.In? && c.up.In? && c.up.sib.Node?
    ensures Length(LiftTrace(c, tree, h)) == Length(h) + 3
  {
    assert Length(LiftTrace(c, tree, h).prev) == Length(h) + 2;
  }

  /** Painting makes three writes in each iteration of its loop, and no more than twelve after it. */
  lemma {:induction false} PaintCount(c: Ctx, t: Tree, tree: Ptr, h: History)
    requires t.Node?
    ensures var k := Length(PaintTrace(c, t, tree, h)) - Length(h) - 3 * PaintSteps(c); 0 <= k <= 12
    decreases c
  {
    if c.In? && c.red && c.up.In? {
      if IsRed(c.up.sib) {
        LiftCount(c, tree, h);
        PaintCount(c.up.up, Lifted(c, t), tree, LiftTrace(c, tree, h));
      } else {
        TerminalCount(c, t, tree, h);
      }
    }
  }

  // ----- Rebalancing -----

  lemma RecolourGrown(c: Ctx, base: History, h: History, tree: Ptr, s: set<Ptr>)
    requires c.In? && c.sib.Node? && Wrote(base, h, tree, s) && CtxNodes(c) <= s
    ensures Grown(base, h, RecolourTrace(c, tree, h), 1, if c.red then 2 else 1, tree, s)
  {
    assert c.sib.node in Nodes(c.sib);
    var w := WordWrite(c.sib.node, Below(c.node), true);
    One(base, h, w, tree, s);
    if c.red { One(base, Then(h, w), WordWrite(c.node, HoleWord(c.up, tree), false), tree, s); }
  }

  lemma SiblingTops(c: Ctx, t: Tree, s: set<Ptr>)
    requires c.In? && c.sib.Node? && CtxNodes(c) <= s
    ensures TopsIn(SiblingTurn(c, t), s)
  {
    assert c.sib.node in Nodes(c.sib);
    assert forall k: Tree | k.Node? :: k.node in Nodes(k);
  }

  lemma NephewTops(c: Ctx, t: Tree, s: set<Ptr>)
    requires c.In? && c.sib.Node? && Near(c.side, c.sib).Node? && CtxNodes(c) <= s
    ensures TopsIn(NephewTurn(c, t), s) && TopsIn(Outer(NephewTurn(c, t), c.sib.red, false), s)
  {
    assert c.sib.node in Nodes(c.sib);
    assert forall k: Tree | k.Node? :: k.node in Nodes(k);
  }

  lemma BlackGrown(c: Ctx, t: Tree, base: History, h: History, tree: Ptr, s: set<Ptr>)
    requires c.In? && c.sib.Node? && Wrote(base, h, tree, s) && CtxNodes(c) <= s
    ensures Grown(base, h, BlackTrace(c, t, tree, h), 1, 13, tree, s)
  {
    if IsRed(Far(c.side, c.sib)) {
      SiblingTops(c, t, s);
      TurnGrown(SiblingTurn(c, t), Case6Tints(SiblingTurn(c, t), c.red), c.red, base, h, tree, s);
    } else if IsRed(Near(c.side, c.sib)) {
      NephewTops(c, t, s);
      HungGrown(NephewTurn(c, t), base, h, tree, s);
      var r := Case6Turn(c, t);
      TurnGrown(r, Case6Tints(r, c.red), c.red, base, HungTrace(NephewTurn(c, t), h), tree, s);
    } else {
      RecolourGrown(c, base, h, tree, s);
    }
  }

  lemma RotationGrown(c: Ctx, t: Tree, base: History, h: History, tree: Ptr, s: set<Ptr>)
    requires c.In? && c.sib.Node? && (c.sib.red ==> Near(c.side, c.sib).Node?)
    requires Wrote(base, h, tree, s) && CtxNodes(c) <= s
    ensures Grown(base, h, RotationTrace(c, t, tree, h), 1, 21, tree, s)
  {
    if c.sib.red {
      var r := SiblingTurn(c, t);
      SiblingTops(c, t, s);
      TurnGrown(r, Case2Tints(r), c.red, base, h, tree, s);
      Case2Nodes(c);
      BlackGrown(Case2Ctx(c), t, base, TurnTrace(r, Case2Tints(r), c.red, tree, h), tree, s);
    } else {
      BlackGrown(c, t, base, h, tree, s);
    }
  }

  /**
   * Rebalancing writes to the nodes of the tree only: once in each iteration of its loop, and no more than
   * twenty-one times after it.
   */
  lemma {:induction false} RebalanceGrown(c: Ctx, t: Tree, base: History, h: History, tree: Ptr, s: set<Ptr>)
    requires Wrote(base, h, tree, s) && CtxNodes(c) <= s
    ensures Grown(base, h, RebalanceTrace(c, t, tree, h), RebalanceSteps(c), RebalanceSteps(c) + 21, tree, s)
    decreases c
  {
    if c.In? {
      if AllBlack(c.sib) {
        RecolourGrown(c, base, h, tree, s);
        if !c.red {
          RebalanceGrown(c.up, Recoloured(c, t), base, RecolourTrace(c, tree, h), tree, s);
        }
      } else if c.sib.Node? && (c.sib.red ==> Near(c.side, c.sib).Node?) {
        RotationGrown(c, t, base, h, tree, s);
      }
    }
  }
}
