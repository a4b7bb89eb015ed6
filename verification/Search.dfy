/** `c_rbtree_find_node` and `c_rbtree_find_slot`. */
module Search {
  import opened Structs
  import opened Trees
  import opened RebalanceSpec
  import opened Layout
  import opened Rotations
  import opened Walks
  import opened Forests
  import opened Api

  /**
   * The comparison `f` of some key against nodes (negative: the key orders before the node) agrees with
   * the order of `s`.
   */
  ghost predicate Monotone(f: Ptr -> int, s: seq<Ptr>) {
    forall i, j | 0 <= i < j < |s| :: (f(s[i]) <= 0 ==> f(s[j]) <= 0) && (f(s[i]) < 0 ==> f(s[j]) < 0)
  }

  /** The key belongs into the hole: after all nodes before it, and before all nodes after it. */
  predicate InPlace(f: Ptr -> int, c: Ctx) {
    (forall n | n in Before(c) :: f(n) > 0) && (forall n | n in After(c) :: f(n) < 0)
  }

  lemma MonotoneSplit(f: Ptr -> int, a: seq<Ptr>, n: Ptr, b: seq<Ptr>)
    requires Monotone(f, a + [n] + b)
    ensures f(n) < 0 ==> forall k | k in b :: f(k) < 0
    ensures f(n) > 0 ==> forall k | k in a :: f(k) > 0
  {
    var s := a + [n] + b;
    assert s[|a|] == n;
    forall k | k in b && f(n) < 0 ensures f(k) < 0 {
      var i :| 0 <= i < |b| && b[i] == k;
      assert s[|a| + 1 + i] == k;
    }
    forall k | k in a && f(n) > 0 ensures f(k) > 0 {
      var i :| 0 <= i < |a| && a[i] == k;
      assert s[i] == k;
    }
  }

  /** The context of the child that the search turns to. */
  function Under(side: Side, c: Ctx, t: Tree): Ctx
    requires t.Node?
  {
    In(side, t.node, t.red, Far(side, t), c)
  }

  /** Going left or right as the comparison says keeps the key in place. */
  lemma StepInPlace(f: Ptr -> int, c: Ctx, t: Tree)
    requires t.Node? && f(t.node) != 0 && Monotone(f, Inorder(Plug(c, t))) && InPlace(f, c)
    ensures InPlace(f, Under(if f(t.node) < 0 then L else R, c, t))
  {
    PlugInorder(c, t);
    var a, b := Before(c) + Inorder(t.left), Inorder(t.right) + After(c);
    SplitAround(Before(c), Inorder(t.left), t.node, Inorder(t.right), After(c));
    MonotoneSplit(f, a, t.node, b);
  }

  /** At an empty slot in the right place no node compares equal. */
  lemma NoMatch(f: Ptr -> int, c: Ctx)
    requires InPlace(f, c)
    ensures forall n | n in Nodes(Plug(c, Leaf)) :: f(n) != 0
  {
    PlugInorder(c, Leaf);
    InorderNodes(Plug(c, Leaf));
  }

  lemma StepFocus(m: Mem, c: Ctx, t: Tree, tree: Ptr, side: Side)
    requires Focus(m, c, t, tree) && t.Node? && NULL !in m.cells
    ensures t.node in m.cells && t.node != NULL && Kid(m, side, t.node) == Top(Near(side, t))
    ensures Focus(m, Under(side, c, t), Near(side, t), tree)
    ensures Plug(Under(side, c, t), Near(side, t)) == Plug(c, t)
  {
  }

  lemma FocusMember(m: Mem, c: Ctx, t: Tree)
    requires t.Node?
    ensures t.node in Nodes(Plug(c, t)) && Depth(c) + Height(t) <= Height(Plug(c, t))
  {
    PlugNodes(c, t);
    DepthHeight(c, t);
  }

  /**
   * `c_rbtree_find_node`. Whatever the comparison does, the search ends within the height of the tree, with
   * NULL or an equal member; if the comparison agrees with the order, NULL means that there is none.
   */
  method FindNode(m: Mem, t: Ptr, f: Ptr -> int, ghost model: map<Ptr, Tree>) returns (r: Ptr, ghost steps: nat)
    requires Consistent(m, model) && t in model
    ensures r != NULL ==> r in Nodes(model[t]) && f(r) == 0
    ensures Monotone(f, Inorder(model[t])) && r == NULL ==> forall n | n in Nodes(model[t]) :: f(n) != 0
    ensures steps <= Height(model[t]) && (r != NULL ==> LiesAt(model[t], r, steps))
    ensures r == NULL ==>
              exists c ::
                && Plug(c, Leaf) == model[t] && Depth(c) == steps
                && (Monotone(f, Inorder(model[t])) ==> InPlace(f, c))
  {
    assert Holds(m, t, model[t]);
    ghost var c, s := Root, model[t];
    r, steps := m.roots[t], 0;
    while r != NULL
      invariant Focus(m, c, s, t) && r == Top(s) && Plug(c, s) == model[t]
      invariant Monotone(f, Inorder(model[t])) ==> InPlace(f, c)
      invariant steps == Depth(c) <= Height(model[t])
      decreases s
    {
      var v := f(r);
      ghost var side := if v < 0 then L else R;
      FocusMember(m, c, s);
      StepFocus(m, c, s, t, side);
      if Monotone(f, Inorder(model[t])) && v != 0 { StepInPlace(f, c, s); }
      if v < 0 {
        r := m.cells[r].left;
      } else if v > 0 {
        r := m.cells[r].right;
      } else {
        return;
      }
      c, s, steps := Under(side, c, s), Near(side, s), steps + 1;
    }
    assert s.Leaf? by { if s.Node? { FocusReads(m, c, s, t); } }
    if Monotone(f, Inorder(model[t])) { NoMatch(f, c); }
  }

  // ----- Slots -----

  datatype Option<T> = None | Some(value: T)

  /** The pointer stored in a slot. */
  function Deref(m: Mem, l: Slot): Ptr
    requires if l.RootOf? then l.tree in m.roots else l.node in m.cells
  {
    if l.RootOf? then m.roots[l.tree] else Kid(m, l.side, l.node)
  }

  /** The slot `l` below `p` is the hole of `c`. */
  predicate IsHole(c: Ctx, t: Ptr, p: Ptr, l: Slot) {
    if c.Root? then l == RootOf(t) && p == NULL else l == Child(c.side, c.node) && p == c.node
  }

  lemma HoleSlot(m: Mem, model: map<Ptr, Tree>, t: Ptr, c: Ctx, p: Ptr, l: Slot)
    requires Consistent(m, model) && t in model && Plug(c, Leaf) == model[t] && Focus(m, c, Leaf, t)
    requires IsHole(c, t, p, l)
    ensures EmptySlot(m, model, t, p, l) && SlotCtx(model[t], p, SlotSide(l)) == c
  {
    assert Holds(m, t, model[t]);
    HoldsDomain(m, t, model[t]);
    if c.In? {
      var j := Join(c.side, Leaf, c.node, c.red, c.sib);
      PlugNodes(c.up, j);
      LocateUnique(c.up, j, c.node);
    }
  }

  /**
   * `c_rbtree_find_slot`. It returns no slot and an equal member, or else an empty slot with its parent; if
   * the comparison agrees with the order, it finds a slot just when no member is equal, and the slot is
   * where the key belongs.
   */
  method FindSlot(m: Mem, t: Ptr, f: Ptr -> int, ghost model: map<Ptr, Tree>)
    returns (l: Option<Slot>, p: Ptr, ghost steps: nat)
    requires Consistent(m, model) && t in model
    ensures l == None ==> p in Nodes(model[t]) && f(p) == 0
    ensures l.Some? ==> EmptySlot(m, model, t, p, l.value)
    ensures Monotone(f, Inorder(model[t])) && l.Some? ==>
              && (forall n | n in Nodes(model[t]) :: f(n) != 0)
              && InPlace(f, SlotCtx(model[t], p, SlotSide(l.value)))
    ensures steps <= Height(model[t])
    ensures l == None ==> LiesAt(model[t], p, steps)
    ensures l.Some? ==> steps == Depth(SlotCtx(model[t], p, SlotSide(l.value)))
  {
    assert Holds(m, t, model[t]);
    ghost var c, s := Root, model[t];
    var i := RootOf(t);
    p, steps := NULL, 0;
    while Deref(m, i) != NULL
      invariant Focus(m, c, s, t) && IsHole(c, t, p, i) && Plug(c, s) == model[t]
      invariant (i.RootOf? ==> t in m.roots) && (i.Child? ==> i.node in m.cells) && Deref(m, i) == Top(s)
      invariant Monotone(f, Inorder(model[t])) ==> InPlace(f, c)
      invariant steps == Depth(c) <= Height(model[t])
      decreases s
    {
      var v := f(Deref(m, i));
      ghost var side := if v < 0 then L else R;
      FocusMember(m, c, s);
      StepFocus(m, c, s, t, side);
      if Monotone(f, Inorder(model[t])) && v != 0 { StepInPlace(f, c, s); }
      p := Deref(m, i);
      if v < 0 {
        i := Child(L, p);
      } else if v > 0 {
        i := Child(R, p);
      } else {
        return None, p, steps;
      }
      c, s, steps := Under(side, c, s), Near(side, s), steps + 1;
    }
    l := Some(i);
    assert s.Leaf? by { if s.Node? { FocusReads(m, c, s, t); } }
    HoleSlot(m, model, t, c, p, i);
    if Monotone(f, Inorder(model[t])) { NoMatch(f, c); }
  }

  // ----- The slot is the only one -----

  /** The hole before the `k`-th node of `t`, when `t` sits in the hole of `up`. */
  function Gap(up: Ctx, t: Tree, k: nat): Ctx
    requires k <= Size(t)
    decreases t
  {
    if t.Leaf? then up
    else if k <= Size(t.left) then Gap(Under(L, up, t), t.left, k)
    else Gap(Under(R, up, t), t.right, k - Size(t.left) - 1)
  }

  lemma InorderSize(t: Tree)
    ensures |Inorder(t)| == Size(t)
  {
    InorderNodes(t);
  }

  lemma JoinSize(side: Side, near: Tree, n: Ptr, red: bool, far: Tree)
    ensures Size(Join(side, near, n, red, far)) == Size(near) + 1 + Size(far)
  {
  }

  lemma {:induction false} GapPlug(c: Ctx, t: Tree, k: nat)
    requires k <= Size(t)
    ensures |Before(c)| + k <= Size(Plug(c, t)) && Gap(Root, Plug(c, t), |Before(c)| + k) == Gap(c, t, k)
    decreases c
  {
    if c.In? {
      var j := Join(c.side, t, c.node, c.red, c.sib);
      InorderSize(c.sib);
      JoinSize(c.side, t, c.node, c.red, c.sib);
      if c.side == L {
        GapPlug(c.up, j, k);
      } else {
        assert |Before(c)| == |Before(c.up)| + Size(c.sib) + 1;
        GapPlug(c.up, j, Size(c.sib) + 1 + k);
      }
    }
  }

  /** A tree has one empty slot for each place in its order. */
  lemma GapUnique(c: Ctx, d: Ctx)
    requires Plug(c, Leaf) == Plug(d, Leaf) && |Before(c)| == |Before(d)|
    ensures c == d
  {
    GapPlug(c, Leaf, 0);
    GapPlug(d, Leaf, 0);
  }

  /** How many nodes at the front the key orders after. */
  function Passed(f: Ptr -> int, s: seq<Ptr>): nat {
    if s == [] || f(s[0]) <= 0 then 0 else 1 + Passed(f, s[1..])
  }

  lemma {:induction false} PassedSplit(f: Ptr -> int, a: seq<Ptr>, b: seq<Ptr>)
    requires (forall n | n in a :: f(n) > 0) && (forall n | n in b :: f(n) < 0)
    ensures Passed(f, a + b) == |a|
  {
    if a == [] {
      assert a + b == b;
      if b != [] {
        var n := b[0];
        assert n in b;
      }
    } else {
      var n := a[0];
      assert n in a;

      PassedSplit(f, a[1..], b);
      assert (a + b)[0] == a[0] && (a + b)[1..] == a[1..] + b;
    }
  }

  /** The empty slot that keeps the order is unique. */
  lemma SlotUnique(f: Ptr -> int, c: Ctx, d: Ctx)
    requires Plug(c, Leaf) == Plug(d, Leaf) && InPlace(f, c) && InPlace(f, d)
    ensures c == d
  {
    PlugInorder(c, Leaf);
    PlugInorder(d, Leaf);
    assert Before(c) + After(c) == Inorder(Plug(c, Leaf)) && Before(d) + After(d) == Inorder(Plug(d, Leaf));
    PassedSplit(f, Before(c), After(c));
    PassedSplit(f, Before(d), After(d));
    GapUnique(c, d);
  }
}
