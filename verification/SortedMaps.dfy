/** Clients of the search functions: a tree that is kept sorted by a key refines a finite map. */
module SortedMaps {
  import opened Structs
  import opened Trees
  import opened PaintSpec
  import opened RebalanceSpec
  import opened Memories
  import opened Unlinking
  import opened Forests
  import opened Traversals
  import opened Api
  import opened Iterators
  import opened Search
  import opened Amortised
  import opened Budget

  predicate KeyLess(s: seq<Ptr>, key: Ptr -> int, i: nat, j: nat)
    requires i < |s| && j < |s|
  {
    key(s[i]) < key(s[j])
  }

  ghost predicate Sorted(s: seq<Ptr>, key: Ptr -> int) {
    forall i: nat, j: nat {:trigger KeyLess(s, key, i, j)} | i < j < |s| :: KeyLess(s, key, i, j)
  }

  /** The comparison callback for key `k`. */
  function Comparing(k: int, key: Ptr -> int): Ptr -> int {
    n => k - key(n)
  }

  lemma SortedMonotone(s: seq<Ptr>, key: Ptr -> int, k: int)
    requires Sorted(s, key)
    ensures Monotone(Comparing(k, key), s)
  {
    var f := Comparing(k, key);
    forall i: nat, j: nat | i < j < |s| ensures (f(s[i]) <= 0 ==> f(s[j]) <= 0) && (f(s[i]) < 0 ==> f(s[j]) < 0) {
      assert KeyLess(s, key, i, j);
    }
  }

  /** The map `d` holds exactly the nodes `s`, each under its key. */
  ghost predicate Indexes(d: map<int, Ptr>, key: Ptr -> int, s: set<Ptr>) {
    && (forall k | k in d :: d[k] in s && key(d[k]) == k)
    && (forall n | n in s :: key(n) in d && d[key(n)] == n)
  }

  /** The tree is sorted, and the map holds its nodes. */
  ghost predicate Represents(tree: Tree, key: Ptr -> int, d: map<int, Ptr>) {
    Sorted(Inorder(tree), key) && Indexes(d, key, Nodes(tree))
  }

  lemma IndexesMore(d: map<int, Ptr>, key: Ptr -> int, s: set<Ptr>, k: int, n: Ptr)
    requires Indexes(d, key, s) && k == key(n) && k !in d
    ensures Indexes(d[k := n], key, s + {n})
  {
  }

  datatype Op = Insert(node: Ptr) | Delete(k: int) | Lookup(k: int)

  /** What an operation does to the map, and what it answers: the node found in the way or removed. */
  function Apply(d: map<int, Ptr>, key: Ptr -> int, op: Op): (map<int, Ptr>, Ptr) {
    match op
    case Insert(n) => if key(n) in d then (d, d[key(n)]) else (d[key(n) := n], NULL)
    case Delete(k) => if k in d then (d - {k}, d[k]) else (d, NULL)
    case Lookup(k) => (d, if k in d then d[k] else NULL)
  }

  lemma InsertSorted(a: seq<Ptr>, n: Ptr, b: seq<Ptr>, key: Ptr -> int)
    requires Sorted(a + b, key) && (forall x | x in a :: key(x) < key(n)) && (forall x | x in b :: key(n) < key(x))
    ensures Sorted(a + [n] + b, key)
  {
    var s, s' := a + b, a + [n] + b;
    forall i: nat, j: nat | i < j < |s'| ensures KeyLess(s', key, i, j) {
      if i != |a| && j != |a| {
        var i': nat, j': nat := if i < |a| then i else i - 1, if j < |a| then j else j - 1;
        assert KeyLess(s, key, i', j') && s'[i] == s[i'] && s'[j] == s[j'];
      } else if i == |a| {
        assert s'[j] == b[j - |a| - 1];
      } else {
        assert s'[i] == a[i];
      }
    }
  }

  lemma WithoutSorted(s: seq<Ptr>, n: Ptr, s': seq<Ptr>, key: Ptr -> int)
    requires Sorted(s, key) && Without(s, n, s')
    ensures Sorted(s', key)
  {
    var k: nat :| k < |s| && s[k] == n && s' == s[..k] + s[k + 1..];
    forall i: nat, j: nat | i < j < |s'| ensures KeyLess(s', key, i, j) {
      var i': nat, j': nat := if i < k then i else i + 1, if j < k then j else j + 1;
      assert KeyLess(s, key, i', j') && s'[i] == s[i'] && s'[j] == s[j'];
    }
  }

  lemma InsertOrder(s: seq<Ptr>, c: Ctx, n: Ptr, key: Ptr -> int)
    requires Sorted(s, key) && s == Before(c) + After(c) && InPlace(Comparing(key(n), key), c)
    ensures Sorted(Before(c) + [n] + After(c), key)
  {
    assert forall x :: Comparing(key(n), key)(x) == key(n) - key(x);
    InsertSorted(Before(c), n, After(c), key);
  }

  predicate HoldsKey(tree: Tree, k: int, key: Ptr -> int) {
    exists n | n in Nodes(tree) :: key(n) == k
  }

  lemma KeyHeld(tree: Tree, k: int, key: Ptr -> int, d: map<int, Ptr>)
    requires Represents(tree, key, d) && k in d
    ensures HoldsKey(tree, k, key)
  {
    var n := d[k];
    assert n in Nodes(tree) && key(n) == k;
  }

  lemma FreshKey(tree: Tree, k: int, key: Ptr -> int, d: map<int, Ptr>)
    requires Represents(tree, key, d) && forall n | n in Nodes(tree) :: key(n) != k
    ensures k !in d
  {
    if k in d { KeyHeld(tree, k, key, d); }
  }

  /** Adding a node where the search says keeps the refinement. */
  lemma InsertRefines(tree: Tree, c: Ctx, n: Ptr, k: int, key: Ptr -> int, d: map<int, Ptr>)
    requires Represents(tree, key, d) && Plug(c, Leaf) == tree && k == key(n) && InPlace(Comparing(k, key), c)
    requires forall x | x in Nodes(tree) :: key(x) != k
    ensures k !in d && Represents(Linked(c, n), key, d[k := n])
  {
    LinkedInorder(c, n);
    InsertOrder(Inorder(tree), c, n, key);
    FreshKey(tree, k, key, d);
    IndexesMore(d, key, Nodes(tree), k, n);
  }

  /** Unlinking a node keeps the refinement. */
  lemma DeleteRefines(tree: Tree, tree': Tree, n: Ptr, key: Ptr -> int, d: map<int, Ptr>)
    requires Represents(tree, key, d) && n in Nodes(tree)
    requires Without(Inorder(tree), n, Inorder(tree')) && Nodes(tree') == Nodes(tree) - {n}
    ensures Represents(tree', key, d - {key(n)})
  {
    WithoutSorted(Inorder(tree), n, Inorder(tree'), key);
  }

  /** Each of the `cost` iterations shows in the writes from `h` to `h'`, and there are few other writes. */
  predicate Priced(h: History, h': History, cost: nat, k: nat) {
    Length(h) + cost <= Length(h') <= Length(h) + 3 * cost + k
  }

  lemma UnlinkPriced(c: Ctx, s: Tree, t: Ptr, h: History)
    requires s.Node?
    ensures Priced(h, ResetTrace(UnlinkTrace(c, s, t, h), s.node, s.node, false), RemovedSteps(c, s), 34)
  {
    UnlinkCount(c, s, t, h);
    ResetCount(UnlinkTrace(c, s, t, h), s.node, s.node, false);
  }

  /** Adding the node where the search said. */
  method InsertAt(m: Memory, t: Ptr, p: Ptr, l: Slot, n: Ptr, ghost key: Ptr -> int, ghost d: map<int, Ptr>)
    returns (ghost cost: nat)
    requires Settled(m) && EmptySlot(m.mem, m.model, t, p, l) && Represents(m.model[t], key, d)
    requires n in m.mem.cells && !Member(m.model, n)
    requires InPlace(Comparing(key(n), key), SlotCtx(m.model[t], p, SlotSide(l)))
    requires forall x | x in Nodes(m.model[t]) :: key(x) != key(n)
    modifies m
    ensures Settled(m) && OnlyTree(old(m.model), m.model, t) && m.mem.cells.Keys == old(m.mem).cells.Keys
    ensures Extends(old(m.history), m.history)
    ensures key(n) !in d && Represents(m.model[t], key, d[key(n) := n])
    ensures Nodes(m.model[t]) == Nodes(old(m.model)[t]) + {n} && n !in Nodes(old(m.model)[t])
    ensures Priced(old(m.history), m.history, cost, 34)
    ensures cost + Potential(m.model[t]) <= Potential(old(m.model)[t]) + 2
  {
    ghost var tree, c := m.model[t], Root;
    assert Holds(m.mem, t, tree);
    SettledAddable(m, n);
    ghost var h := m.history;
    c, cost := Add(m, t, p, l, n);
    LinkCount(c, n, t, h);
    LinkedFits(c, n);
    LinkedPotential(c, n);
    InsertRefines(tree, c, n, key(n), key, d);
  }

  /** A node whose key no member of the tree has is no member of it. */
  lemma NotMember(model: map<Ptr, Tree>, t: Ptr, n: Ptr, key: Ptr -> int)
    requires t in model && forall x | x in Nodes(model[t]) :: key(x) != key(n)
    requires Elsewhere(model, t, n)
    ensures !Member(model, n)
  {
  }

  lemma NoSuchKey(tree: Tree, k: int, key: Ptr -> int)
    requires forall x | x in Nodes(tree) :: Comparing(k, key)(x) != 0
    ensures forall x | x in Nodes(tree) :: key(x) != k
  {
    forall x | x in Nodes(tree) ensures key(x) != k {
      assert Comparing(k, key)(x) != 0;
    }
  }

  method SearchSlot(m: Mem, t: Ptr, n: Ptr, key: Ptr -> int, ghost model: map<Ptr, Tree>)
    returns (l: Option<Slot>, p: Ptr)
    requires Consistent(m, model) && t in model && Sorted(Inorder(model[t]), key)
    ensures l == None ==> p in Nodes(model[t]) && key(p) == key(n)
    ensures l.Some? ==>
              && EmptySlot(m, model, t, p, l.value) && (forall x | x in Nodes(model[t]) :: key(x) != key(n))
              && InPlace(Comparing(key(n), key), SlotCtx(model[t], p, SlotSide(l.value)))
  {
    SortedMonotone(Inorder(model[t]), key, key(n));
    ghost var steps;
    l, p, steps := FindSlot(m, t, Comparing(key(n), key), model);
    if l.Some? { NoSuchKey(model[t], key(n), key); }
  }

  /** The client's insertion: look for a slot, and add the node if there is one. */
  method InsertNode(m: Memory, t: Ptr, n: Ptr, key: Ptr -> int, ghost d: map<int, Ptr>)
    returns (r: Ptr, ghost cost: nat)
    requires Settled(m) && t in m.model && Represents(m.model[t], key, d)
    requires n in m.mem.cells && Elsewhere(m.model, t, n)
    modifies m
    ensures Settled(m) && OnlyTree(old(m.model), m.model, t) && m.mem.cells.Keys == old(m.mem).cells.Keys
    ensures Extends(old(m.history), m.history)
    ensures var (d', answer) := Apply(d, key, Insert(n));
            r == answer && Represents(m.model[t], key, d')
    ensures r == NULL ==>
              && Nodes(m.model[t]) == Nodes(old(m.model)[t]) + {n}
              && forall x | x in Nodes(old(m.model)[t]) :: key(x) != key(n)
    ensures r != NULL ==>
              r in Nodes(old(m.model)[t]) && key(r) == key(n) && m.model == old(m.model) && m.mem == old(m.mem)
    ensures Priced(old(m.history), m.history, cost, 34)
    ensures cost + Potential(m.model[t]) <= Potential(old(m.model)[t]) + 2
  {
    var l, p := SearchSlot(m.mem, t, n, key, m.model);
    cost, r := 0, p;
    Members(m.mem, m.model, t);
    if l.Some? {
      r := NULL;
      NotMember(m.model, t, n, key);
      cost := InsertAt(m, t, p, l.value, n, key, d);
    }
  }

  /** The client's removal: look for the node, and unlink it if there is one. */
  method DeleteKey(m: Memory, t: Ptr, k: int, key: Ptr -> int, ghost d: map<int, Ptr>) returns (r: Ptr, ghost cost: nat)
    requires Settled(m) && t in m.model && Represents(m.model[t], key, d)
    modifies m
    ensures Settled(m) && OnlyTree(old(m.model), m.model, t) && m.mem.cells.Keys == old(m.mem).cells.Keys
    ensures Extends(old(m.history), m.history)
    ensures var (d', answer) := Apply(d, key, Delete(k));
            r == answer && Represents(m.model[t], key, d')
    ensures r != NULL ==>
              && r in Nodes(old(m.model)[t]) && key(r) == k && Nodes(m.model[t]) == Nodes(old(m.model)[t]) - {r}
              && r in m.mem.cells && m.mem.cells[r] == Initial(r)
    ensures r == NULL ==> m.model == old(m.model) && m.mem == old(m.mem)
    ensures forall x | x in Nodes(m.model[t]) :: key(x) != k
    ensures Priced(old(m.history), m.history, cost, 34)
    ensures cost + Potential(m.model[t]) <= Potential(old(m.model)[t]) + 1
  {
    cost := 0;
    r := LookupKey(m, t, k, key, d);
    if r != NULL {
      ghost var h, model, u, z := m.history, m.model, NULL, Zip(Root, Leaf);
      assert Holds(m.mem, t, model[t]);
      Members(m.mem, model, t);
      u, z, cost := Unlink(m, r);
      OneTree(model, r, t);
      RemovedValid(z.ctx, z.sub);
      UnlinkPriced(z.ctx, z.sub, t, h);
      RemovedPotential(z.ctx, z.sub);
      DeleteRefines(model[t], m.model[t], r, key, d);
    }
  }

  /** `c_rbtree_find_node` finds what the map holds under the key. */
  method LookupKey(m: Memory, t: Ptr, k: int, key: Ptr -> int, ghost d: map<int, Ptr>) returns (r: Ptr)
    requires Settled(m) && t in m.model && Represents(m.model[t], key, d)
    ensures r == Apply(d, key, Lookup(k)).1
    ensures k in d <==> r != NULL
    ensures r != NULL ==> r in Nodes(m.model[t]) && key(r) == k
    ensures r == NULL ==> forall n | n in Nodes(m.model[t]) :: key(n) != k
  {
    SortedMonotone(Inorder(m.model[t]), key, k);
    NullFree(m.mem, m.model, t);
    Members(m.mem, m.model, t);
    ghost var steps;
    r, steps := FindNode(m.mem, t, Comparing(k, key), m.model);
    assert k in d ==> Comparing(k, key)(d[k]) == 0;
  }

  // ----- Runs -----

  /** The map after a run of operations, and the answers on the way. */
  function Final(d: map<int, Ptr>, key: Ptr -> int, ops: seq<Op>): map<int, Ptr> {
    if ops == [] then d else Apply(Final(d, key, ops[..|ops| - 1]), key, ops[|ops| - 1]).0
  }

  function Answers(d: map<int, Ptr>, key: Ptr -> int, ops: seq<Op>): (a: seq<Ptr>)
    ensures |a| == |ops|
  {
    if ops == [] then []
    else Answers(d, key, ops[..|ops| - 1]) + [Apply(Final(d, key, ops[..|ops| - 1]), key, ops[|ops| - 1]).1]
  }

  /** The nodes to be inserted are initialised, and in no other tree. */
  ghost predicate Insertable(m: Mem, model: map<Ptr, Tree>, t: Ptr, ops: seq<Op>) {
    forall op | op in ops && op.Insert? :: op.node in m.cells && Elsewhere(model, t, op.node)
  }

  lemma StillInsertable(m: Mem, m': Mem, model: map<Ptr, Tree>, model': map<Ptr, Tree>, t: Ptr, ops: seq<Op>)
    requires Insertable(m, model, t, ops) && OnlyTree(model, model', t) && m'.cells.Keys == m.cells.Keys
    ensures Insertable(m', model', t, ops)
  {
  }

  method Perform(m: Memory, t: Ptr, op: Op, key: Ptr -> int, ghost d: map<int, Ptr>) returns (r: Ptr, ghost cost: nat)
    requires Settled(m) && t in m.model && Represents(m.model[t], key, d) && Insertable(m.mem, m.model, t, [op])
    modifies m
    ensures Settled(m) && OnlyTree(old(m.model), m.model, t) && m.mem.cells.Keys == old(m.mem).cells.Keys
    ensures Extends(old(m.history), m.history)
    ensures r == Apply(d, key, op).1 && Represents(m.model[t], key, Apply(d, key, op).0)
    ensures Priced(old(m.history), m.history, cost, 34)
    ensures cost + Potential(m.model[t]) <= Potential(old(m.model)[t]) + 2
  {
    assert op in [op];
    cost := 0;
    match op
    case Insert(n) => r, cost := InsertNode(m, t, n, key, d);
    case Delete(k) => r, cost := DeleteKey(m, t, k, key, d);
    case Lookup(k) => r := LookupKey(m, t, k, key, d);
  }

  lemma OneMore(d: map<int, Ptr>, key: Ptr -> int, ops: seq<Op>, i: nat)
    requires i < |ops|
    ensures Final(d, key, ops[..i + 1]) == Apply(Final(d, key, ops[..i]), key, ops[i]).0
    ensures Answers(d, key, ops[..i + 1]) == Answers(d, key, ops[..i]) + [Apply(Final(d, key, ops[..i]), key, ops[i]).1]
  {
    assert ops[..i + 1][..i] == ops[..i];
  }

  /**
   * Any run of insertions, removals and lookups on a tree answers like the map, and ends as the map does. The
   * `cost` in iterations of the two recolouring loops is constant per operation, taken over the whole run.
   */
  method RunAll(m: Memory, t: Ptr, ops: seq<Op>, key: Ptr -> int, ghost d: map<int, Ptr>)
    returns (answers: seq<Ptr>, ghost cost: nat)
    requires Settled(m) && t in m.model && Represents(m.model[t], key, d) && Insertable(m.mem, m.model, t, ops)
    modifies m
    ensures Settled(m) && OnlyTree(old(m.model), m.model, t) && Extends(old(m.history), m.history)
    ensures answers == Answers(d, key, ops) && Represents(m.model[t], key, Final(d, key, ops))
    ensures cost + Potential(m.model[t]) <= Potential(old(m.model)[t]) + 2 * |ops|
    ensures Length(old(m.history)) + cost <= Length(m.history) <= Length(old(m.history)) + 3 * cost + 34 * |ops|
    ensures Length(m.history) <= Length(old(m.history)) + 6 * Size(old(m.model)[t]) + 40 * |ops|
  {
    answers, cost := [], 0;
    ghost var d' := d;
    for i := 0 to |ops|
      invariant Settled(m) && OnlyTree(old(m.model), m.model, t) && Insertable(m.mem, m.model, t, ops)
      invariant Extends(old(m.history), m.history) && Priced(old(m.history), m.history, cost, 34 * i)
      invariant d' == Final(d, key, ops[..i]) && Represents(m.model[t], key, d') && answers == Answers(d, key, ops[..i])
      invariant cost + Potential(m.model[t]) <= Potential(old(m.model)[t]) + 2 * i
    {
      OneMore(d, key, ops, i);
      assert ops[i] in ops;
      ghost var m0, model, h := m.mem, m.model, m.history;
      var r;
      ghost var c;
      r, c := Perform(m, t, ops[i], key, d');
      OnlyTreeAgain(old(m.model), model, m.model, t);
      StillInsertable(m0, m.mem, model, m.model, t, ops);
      ExtendsOn(old(m.history), h, m.history);
      d' := Apply(d', key, ops[i]).0;
      answers, cost := answers + [r], cost + c;
    }
    assert ops[..|ops|] == ops;
    PotentialSmall(old(m.model)[t]);
  }

  // ----- What the answers are -----

  /** The operation may change what the map holds under `k`. */
  predicate Touches(op: Op, key: Ptr -> int, k: int) {
    (op.Insert? && key(op.node) == k) || op == Delete(k)
  }

  /** What is held under a key changes by operations on that key only. */
  lemma {:induction false} Untouched(d: map<int, Ptr>, key: Ptr -> int, ops: seq<Op>, j: nat, k: int)
    requires j <= |ops| && forall i | j <= i < |ops| :: !Touches(ops[i], key, k)
    ensures var a, b := Final(d, key, ops[..j]), Final(d, key, ops);
            (k in a <==> k in b) && (k in a ==> a[k] == b[k])
    decreases |ops|
  {
    if j < |ops| {
      var prefix := ops[..|ops| - 1];
      assert prefix[..j] == ops[..j];
      Untouched(d, key, prefix, j, k);
    } else {
      assert ops[..j] == ops;
    }
  }

  lemma {:induction false} AnswerAt(d: map<int, Ptr>, key: Ptr -> int, ops: seq<Op>, i: nat)
    requires i < |ops|
    ensures Answers(d, key, ops)[i] == Apply(Final(d, key, ops[..i]), key, ops[i]).1
    decreases |ops|
  {
    var prefix := ops[..|ops| - 1];
    if i < |prefix| {
      AnswerAt(d, key, prefix, i);
      assert prefix[..i] == ops[..i];
    }
  }

  /**
   * A lookup answers as the last operation on its key left things: NULL after a removal; after an insertion
   * the node inserted, or the one that was in the way.
   */
  lemma LastWord(d: map<int, Ptr>, key: Ptr -> int, ops: seq<Op>, j: nat, i: nat, k: int)
    requires j < i < |ops| && ops[i] == Lookup(k) && Touches(ops[j], key, k)
    requires forall l | j < l < i :: !Touches(ops[l], key, k)
    ensures var a := Answers(d, key, ops);
            a[i] == if ops[j].Delete? then NULL else if k in Final(d, key, ops[..j]) then a[j] else ops[j].node
  {
    AnswerAt(d, key, ops, i);
    AnswerAt(d, key, ops, j);
    OneMore(d, key, ops, j);
    assert ops[..i][..j + 1] == ops[..j + 1];
    Untouched(d, key, ops[..i], j + 1, k);
  }

  /** Without such an operation it answers as the map stood at the start. */
  lemma FirstWord(d: map<int, Ptr>, key: Ptr -> int, ops: seq<Op>, i: nat, k: int)
    requires i < |ops| && ops[i] == Lookup(k) && forall l | 0 <= l < i :: !Touches(ops[l], key, k)
    ensures Answers(d, key, ops)[i] == if k in d then d[k] else NULL
  {
    AnswerAt(d, key, ops, i);
    Untouched(d, key, ops[..i], 0, k);
    assert ops[..i][..0] == [];
  }
}
