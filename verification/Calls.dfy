/** The calls of the library seen from outside: what they make of the trees, of their order and their members. */
module Calls {
  import opened Structs
  import opened Trees
  import opened PaintSpec
  import opened RebalanceSpec
  import opened Forests
  import opened Traversals
  import opened Api

  /** A call of the library. `Place` is `c_rbnode_link` below a node, and `c_rbtree_add` in an empty tree. */
  datatype Call = Place(t: Ptr, p: Ptr, side: Side, n: Ptr) | Drop(n: Ptr) | Import(to: Ptr, from: Ptr)

  /** What callers must see to, in terms of the trees alone. */
  ghost predicate Legal(model: map<Ptr, Tree>, nodes: set<Ptr>, call: Call) {
    match call
    case Place(t, p, side, n) =>
      && t in model && n in nodes && !Member(model, n)
      && if p == NULL then model[t] == Leaf
         else p in Nodes(model[t]) && Near(side, Locate(Root, model[t], p).sub) == Leaf
    case Drop(n) => n == NULL || n in nodes
    case Import(to, from) => to in model && from in model && model[to] == Leaf
  }

  /** What the call makes of the trees. */
  ghost predicate Effect(model: map<Ptr, Tree>, call: Call, model': map<Ptr, Tree>) {
    match call
    case Place(t, p, side, n) =>
      t in model && (p != NULL ==> p in Nodes(model[t])) && model' == model[t := Linked(SlotCtx(model[t], p, side), n)]
    case Drop(n) =>
      if Member(model, n) then
        exists t | t in model && n in Nodes(model[t]) ::
          model' == model[t := Removed(Locate(Root, model[t], n).ctx, Locate(Root, model[t], n).sub)]
      else model' == model
    case Import(to, from) => to in model && from in model && model' == model[to := model[from]][from := Leaf]
  }

  lemma PlaceSlot(m: Mem, model: map<Ptr, Tree>, t: Ptr, p: Ptr, side: Side)
    requires Consistent(m, model) && t in model
    requires if p == NULL then model[t] == Leaf
             else p in Nodes(model[t]) && Near(side, Locate(Root, model[t], p).sub) == Leaf
    ensures EmptySlot(m, model, t, p, if p == NULL then RootOf(t) else Child(side, p))
  {
    assert Holds(m, t, model[t]);
    if p != NULL { LocateFocus(m, t, model[t], p); }
  }

  // ----- The calls seen on sequences -----

  /** The in-order sequence of every tree. */
  function Orders(model: map<Ptr, Tree>): map<Ptr, seq<Ptr>> {
    map t | t in model :: Inorder(model[t])
  }

  /** Empty sequences for all trees. */
  function NoOrders(trees: set<Ptr>): (o: map<Ptr, seq<Ptr>>)
    ensures o.Keys == trees && forall t | t in trees :: o[t] == []
  {
    map t | t in trees :: []
  }

  lemma OrdersEmpty(model: map<Ptr, Tree>, trees: set<Ptr>)
    requires model == map t | t in trees :: Leaf
    ensures Orders(model) == NoOrders(trees)
  {
    assert forall t | t in trees :: Orders(model)[t] == [];
  }

  /** The sequence with `n` inserted just before or just after `p`. */
  function Beside(s: seq<Ptr>, p: Ptr, side: Side, n: Ptr): seq<Ptr> {
    if p !in s then s + [n]
    else
      var i := Index(s, p) + if side == L then 0 else 1;
      s[..i] + [n] + s[i..]
  }

  /** The sequence without `n`. */
  function Sifted(s: seq<Ptr>, n: Ptr): seq<Ptr> {
    if n in s then s[..Index(s, n)] + s[Index(s, n) + 1..] else s
  }

  /** What the call makes of the sequences: nothing but insertion, deletion and renaming. */
  function Called(o: map<Ptr, seq<Ptr>>, call: Call): map<Ptr, seq<Ptr>> {
    match call
    case Place(t, p, side, n) => if t in o then o[t := Beside(o[t], p, side, n)] else o
    case Drop(n) => map t | t in o :: Sifted(o[t], n)
    case Import(to, from) => if from in o then o[to := o[from]][from := []] else o
  }

  function CalledAll(o: map<Ptr, seq<Ptr>>, calls: seq<Call>): map<Ptr, seq<Ptr>>
    decreases |calls|
  {
    if calls == [] then o else CalledAll(Called(o, calls[0]), calls[1..])
  }

  lemma SiftWithout(s: seq<Ptr>, n: Ptr, s': seq<Ptr>)
    requires NoDup(s) && Without(s, n, s')
    ensures Sifted(s, n) == s'
  {
    var i: nat :| i < |s| && s[i] == n && s' == s[..i] + s[i + 1..];
    assert Index(s, n) == i;
  }

  lemma BesideSlot(c: Ctx, n: Ptr)
    requires NoDup(Before(c) + After(c))
    ensures var p := if c.Root? then NULL else c.node;
            (c.In? || NULL !in Before(c) + After(c)) ==>
              Beside(Before(c) + After(c), p, if c.Root? then L else c.side, n) == Before(c) + [n] + After(c)
  {
    var a, b := Before(c), After(c);
    if c.In? {
      SlotPosition(c);
      if c.side == L {
        assert a + b == a + [c.node] + b[1..];
        NoDupParts(a, c.node, b[1..]);
        Split(a, c.node, b[1..]);
      } else {
        var a' := a[..|a| - 1];
        assert a == a' + [c.node] && a + b == a' + [c.node] + b;
        NoDupParts(a', c.node, b);
        Split(a', c.node, b);
      }
    }
  }

  /** Who is in a tree after the call. */
  ghost predicate Stands(model: map<Ptr, Tree>, call: Call, n: Ptr) {
    (Member(model, n) && call != Drop(n)) || (call.Place? && call.n == n)
  }

  lemma OrdersUpdate(model: map<Ptr, Tree>, t: Ptr, tree: Tree)
    requires t in model
    ensures Orders(model[t := tree]) == Orders(model)[t := Inorder(tree)]
  {
  }

  /** The slot that a legal call names. */
  lemma PlaceCtx(m: Mem, model: map<Ptr, Tree>, t: Ptr, p: Ptr, side: Side, n: Ptr)
    requires Consistent(m, model) && Legal(model, m.cells.Keys, Place(t, p, side, n))
    ensures var c := SlotCtx(model[t], p, side);
            && Plug(c, Leaf) == model[t] && Valid(Plug(c, Leaf)) && n !in Nodes(model[t])
            && p == (if c.Root? then NULL else c.node) && (c.In? ==> c.side == side) && (c.Root? ==> model[t] == Leaf)
            && (p != NULL ==> Borders(Inorder(Linked(c, n)), n, side, p))
  {
    var l := if p == NULL then RootOf(t) else Child(side, p);
    PlaceSlot(m, model, t, p, side);
    AddPrepared(m, model, t, p, l, n);
    SlotOrder(m, model, t, p, l, n);
  }

  /** Linking, in terms of sequences and members. */
  lemma PlaceMeaning(m: Mem, model: map<Ptr, Tree>, t: Ptr, p: Ptr, side: Side, n: Ptr)
    requires Consistent(m, model) && Legal(model, m.cells.Keys, Place(t, p, side, n))
    ensures var model' := model[t := Linked(SlotCtx(model[t], p, side), n)];
            && n in Nodes(model'[t]) && Without(Inorder(model'[t]), n, Inorder(model[t]))
            && (p != NULL ==> Borders(Inorder(model'[t]), n, side, p))
            && Orders(model') == Called(Orders(model), Place(t, p, side, n))
            && forall k :: Member(model', k) <==> Stands(model, Place(t, p, side, n), k)
  {
    var c := SlotCtx(model[t], p, side);
    PlaceCtx(m, model, t, p, side, n);
    LinkedFits(c, n);
    LinkedWithout(c, n);
    LinkedBeside(c, n);
    MembersPlaced(model, t, Linked(c, n), n);
    OrdersUpdate(model, t, Linked(c, n));
  }

  lemma LinkedWithout(c: Ctx, n: Ptr)
    requires Valid(Plug(c, Leaf)) && n !in Nodes(Plug(c, Leaf))
    ensures Without(Inorder(Linked(c, n)), n, Inorder(Plug(c, Leaf)))
  {
    LinkedInorder(c, n);
    InorderNodes(Plug(c, Leaf));
    var s, i := Before(c) + [n] + After(c), |Before(c)|;
    assert s[i] == n && s[..i] + s[i + 1..] == Before(c) + After(c);
  }

  lemma LinkedBeside(c: Ctx, n: Ptr)
    requires Valid(Plug(c, Leaf))
    ensures var p := if c.Root? then NULL else c.node;
            (c.In? || Plug(c, Leaf) == Leaf) ==>
              Inorder(Linked(c, n)) == Beside(Inorder(Plug(c, Leaf)), p, if c.Root? then L else c.side, n)
  {
    LinkedInorder(c, n);
    InorderDistinct(Plug(c, Leaf));
    BesideSlot(c, n);
  }

  lemma MembersPlaced(model: map<Ptr, Tree>, t: Ptr, tree: Tree, n: Ptr)
    requires t in model && Nodes(tree) == Nodes(model[t]) + {n}
    ensures forall k :: Member(model[t := tree], k) <==> Member(model, k) || k == n
  {
    var model' := model[t := tree];
    assert t in model' && n in Nodes(model'[t]);
    forall k | Member(model, k) ensures Member(model', k) {
      var u :| u in model && k in Nodes(model[u]);
      assert u in model' && k in Nodes(model'[u]);
    }
  }

  lemma OrderDropped(m: Mem, model: map<Ptr, Tree>, n: Ptr, t: Ptr, tree: Tree, u: Ptr)
    requires Consistent(m, model) && t in model && u in model && n in Nodes(model[t])
    requires Without(Inorder(model[t]), n, Inorder(tree))
    ensures Sifted(Inorder(model[u]), n) == Inorder(model[t := tree][u])
  {
    OneTree(model, n, t);
    assert Holds(m, u, model[u]);
    InorderDistinct(model[u]);
    InorderNodes(model[u]);
    if u == t { SiftWithout(Inorder(model[t]), n, Inorder(tree)); }
  }

  lemma MembersDropped(model: map<Ptr, Tree>, t: Ptr, tree: Tree, n: Ptr)
    requires Disjoint(model) && t in model && n in Nodes(model[t]) && Nodes(tree) == Nodes(model[t]) - {n}
    ensures forall k :: Member(model[t := tree], k) <==> Member(model, k) && k != n
  {
    var model' := model[t := tree];
    OneTree(model, n, t);
    forall k | Member(model, k) && k != n ensures Member(model', k) {
      var u :| u in model && k in Nodes(model[u]);
      assert u in model' && k in Nodes(model'[u]);
    }
    forall k | Member(model', k) ensures Member(model, k) && k != n {
      var u :| u in model' && k in Nodes(model'[u]);
      assert u in model && k in Nodes(model[u]);
    }
  }

  /** Unlinking, in terms of sequences and members. */
  lemma DropMeaning(m: Mem, model: map<Ptr, Tree>, t: Ptr, n: Ptr, tree: Tree)
    requires Consistent(m, model) && t in model && n in Nodes(model[t])
    requires Without(Inorder(model[t]), n, Inorder(tree)) && Nodes(tree) == Nodes(model[t]) - {n}
    ensures Orders(model[t := tree]) == Called(Orders(model), Drop(n))
    ensures forall k :: Member(model[t := tree], k) <==> Stands(model, Drop(n), k)
  {
    forall u | u in model ensures Sifted(Inorder(model[u]), n) == Inorder(model[t := tree][u]) {
      OrderDropped(m, model, n, t, tree, u);
    }
    MembersDropped(model, t, tree, n);
  }

  lemma NothingDropped(model: map<Ptr, Tree>, n: Ptr)
    requires !Member(model, n)
    ensures Orders(model) == Called(Orders(model), Drop(n))
  {
    forall u | u in model ensures Sifted(Inorder(model[u]), n) == Inorder(model[u]) {
      InorderNodes(model[u]);
      assert n !in Nodes(model[u]);
    }
  }

  /** Moving, in terms of sequences and members. */
  lemma ImportMeaning(model: map<Ptr, Tree>, to: Ptr, from: Ptr)
    requires to in model && from in model && model[to] == Leaf
    ensures var model' := model[to := model[from]][from := Leaf];
            && Orders(model') == Called(Orders(model), Import(to, from))
            && forall k :: Member(model', k) <==> Stands(model, Import(to, from), k)
  {
    var model' := model[to := model[from]][from := Leaf];
    forall k ensures Member(model', k) <==> Member(model, k) {
      if u :| u in model && k in Nodes(model[u]) {
        assert k in Nodes(model'[if u == from then to else u]);
      }
      if u :| u in model' && k in Nodes(model'[u]) {
        assert k in Nodes(model[if u == to then from else u]);
      }
    }
    OrdersUpdate(model, to, model[from]);
    OrdersUpdate(model[to := model[from]], from, Leaf);
  }

  lemma DropEffect(m: Mem, model: map<Ptr, Tree>, n: Ptr, model': map<Ptr, Tree>)
    requires Consistent(m, model) && Effect(model, Drop(n), model')
    ensures model'.Keys == model.Keys && Orders(model') == Called(Orders(model), Drop(n)) && !Member(model', n)
    ensures forall u | u in model ::
              if n in Nodes(model[u]) then Without(Inorder(model[u]), n, Inorder(model'[u]))
              else model'[u] == model[u]
  {
    if Member(model, n) {
      var t :| t in model && n in Nodes(model[t])
        && model' == model[t := Removed(Locate(Root, model[t], n).ctx, Locate(Root, model[t], n).sub)];
      var z := Locate(Root, model[t], n);
      OneTree(model, n, t);
      UnlinkPrepared(m, model, t, n, z);
      RemovedWithout(z.ctx, z.sub);
      RemovedFits(z.ctx, z.sub);
      DropMeaning(m, model, t, n, model'[t]);
    } else {
      NothingDropped(model, n);
    }
  }

  /** What a legal call makes of the trees: one node more, one node less, or another name for a tree. */
  lemma EffectMeaning(m: Mem, model: map<Ptr, Tree>, call: Call, model': map<Ptr, Tree>)
    requires Consistent(m, model) && Legal(model, m.cells.Keys, call) && Effect(model, call, model')
    ensures model'.Keys == model.Keys && Orders(model') == Called(Orders(model), call)
    ensures call.Place? ==>
              && var s, s' := Inorder(model[call.t]), Inorder(model'[call.t]);
              && call.n in s' && call.n !in s && Without(s', call.n, s)
              && (call.p != NULL && call.side == L ==> Following(s', call.n) == call.p)
              && (call.p != NULL && call.side == R ==> Preceding(s', call.n) == call.p)
              && forall u | u in model && u != call.t :: model'[u] == model[u]
    ensures call.Drop? ==>
              && !Member(model', call.n)
              && forall u | u in model ::
                   if call.n in Nodes(model[u]) then Without(Inorder(model[u]), call.n, Inorder(model'[u]))
                   else model'[u] == model[u]
    ensures call.Import? ==>
              && Inorder(model'[call.to]) == Inorder(model[call.from])
              && (call.to != call.from ==> model'[call.from] == Leaf)
              && forall u | u in model && u != call.to && u != call.from :: model'[u] == model[u]
  {
    match call
    case Place(t, p, side, n) =>
      PlaceMeaning(m, model, t, p, side, n);
      InorderNodes(model[t]);
      InorderNodes(model'[t]);
    case Drop(n) => DropEffect(m, model, n, model');
    case Import(to, from) => ImportMeaning(model, to, from);
  }

  // ----- Runs of calls -----

  /** Every call of the run is legal when its turn comes. */
  ghost predicate LegalRun(model: map<Ptr, Tree>, nodes: set<Ptr>, calls: seq<Call>) {
    calls != [] ==>
      && Legal(model, nodes, calls[0])
      && forall model' | Effect(model, calls[0], model') :: LegalRun(model', nodes, calls[1..])
  }

  ghost predicate Reaches(model: map<Ptr, Tree>, calls: seq<Call>, model': map<Ptr, Tree>) {
    if calls == [] then model' == model
    else exists mid :: Effect(model, calls[0], mid) && Reaches(mid, calls[1..], model')
  }

  /** The call `calls[i]` puts `n` into a tree, and no later call takes it out. */
  predicate PutToStay(calls: seq<Call>, i: nat, n: Ptr) {
    i < |calls| && calls[i].Place? && calls[i].n == n && forall j | i < j < |calls| :: calls[j] != Drop(n)
  }

  lemma PutLater(calls: seq<Call>, n: Ptr)
    requires calls != []
    ensures (exists i :: PutToStay(calls, i, n)) <==>
              (calls[0].Place? && calls[0].n == n && Drop(n) !in calls[1..]) || exists i :: PutToStay(calls[1..], i, n)
  {
    if exists i :: PutToStay(calls, i, n) {
      var i: nat :| PutToStay(calls, i, n);
      if i > 0 { assert PutToStay(calls[1..], i - 1, n); }
    }
    if exists i :: PutToStay(calls[1..], i, n) {
      var i: nat :| PutToStay(calls[1..], i, n);
      assert PutToStay(calls, i + 1, n);
    } else if calls[0].Place? && calls[0].n == n && Drop(n) !in calls[1..] {
      assert PutToStay(calls, 0, n);
    }
  }
}
