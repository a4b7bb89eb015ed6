/** The price of calls in writes: what a call may cost, and what whole runs of calls cost at most. */
module Budget {
  import opened Structs
  import opened Trees
  import opened PaintSpec
  import opened RebalanceSpec
  import opened Layout
  import opened Memories
  import opened Unlinking
  import opened Forests
  import opened Traversals
  import opened Api
  import opened Iterators
  import opened Search
  import opened Amortised

  /** The writes from `h` to `h'`, and three times the rise of potential, come to `k` at most. */
  predicate Paid(h: History, before: nat, h': History, after: nat, k: nat) {
    Length(h') + 3 * after <= Length(h) + 3 * before + k
  }

  /** Linking a node costs 23 writes at most, taken over a run. */
  lemma LinkPaid(c: Ctx, n: Ptr, t: Ptr, h: History)
    requires Valid(Plug(c, Leaf))
    ensures Paid(h, Potential(Plug(c, Leaf)), LinkTrace(c, n, t, h), Potential(Linked(c, n)), 23)
  {
    LinkCount(c, n, t, h);
    LinkedPotential(c, n);
  }

  /** Unlinking a node costs 37 writes at most, those of `c_rbnode_init` included. */
  lemma UnlinkPaid(c: Ctx, s: Tree, t: Ptr, h: History)
    requires s.Node? && Valid(Plug(c, s))
    ensures var h' := ResetTrace(UnlinkTrace(c, s, t, h), s.node, s.node, false);
            Paid(h, Potential(Plug(c, s)), h', Potential(Removed(c, s)), 37)
  {
    UnlinkCount(c, s, t, h);
    RemovedPotential(c, s);
    ResetCount(UnlinkTrace(c, s, t, h), s.node, s.node, false);
  }

  lemma ResetCount(h: History, n: Ptr, raw: Ptr, red: bool)
    ensures Length(ResetTrace(h, n, raw, red)) == Length(h) + 3
  {
    assert Length(ResetTrace(h, n, raw, red).prev) == Length(h) + 2;
  }

  /** Moving a tree takes five writes, however large it is. */
  lemma MoveCount(to: Ptr, from: Ptr, root: Ptr, red: bool, h: History)
    ensures Length(MoveTrace(to, from, root, red, h)) == Length(h) + 5
  {
    var h' := MoveTrace(to, from, root, red, h);
    assert Length(h'.prev.prev.prev) == Length(h) + 2;
    assert Length(h'.prev.prev) == Length(h) + 3;
  }

  lemma {:induction false} PotentialSmall(t: Tree)
    ensures Potential(t) <= 2 * Size(t)
  {
    if t.Node? {
      PotentialSmall(t.left);
      PotentialSmall(t.right);
    }
  }

  // ----- Families of trees -----

  /** The potential of all trees together. */
  ghost function Total(model: map<Ptr, Tree>): nat
    decreases |model|
  {
    if exists t :: t in model then
      var t :| t in model;
      Potential(model[t]) + Total(model - {t})
    else 0
  }

  lemma {:induction false} TotalSplit(model: map<Ptr, Tree>, t: Ptr)
    requires t in model
    ensures Total(model) == Potential(model[t]) + Total(model - {t})
    decreases |model|
  {
    var u :| u in model && Total(model) == Potential(model[u]) + Total(model - {u});
    if u != t {
      TotalSplit(model - {u}, t);
      TotalSplit(model - {t}, u);
      assert model - {u} - {t} == model - {t} - {u};
    }
  }

  /** Replacing one tree. */
  lemma TotalUpdate(model: map<Ptr, Tree>, t: Ptr, tree: Tree)
    requires t in model
    ensures Total(model[t := tree]) + Potential(model[t]) == Total(model) + Potential(tree)
  {
    TotalSplit(model, t);
    TotalSplit(model[t := tree], t);
    assert model[t := tree] - {t} == model - {t};
  }

  lemma {:induction false} TotalEmpty(model: map<Ptr, Tree>)
    requires forall t | t in model :: model[t] == Leaf
    ensures Total(model) == 0
    decreases |model|
  {
    if exists t :: t in model {
      var t :| t in model;
      TotalSplit(model, t);
      TotalEmpty(model - {t});
    }
  }

  // ----- A run on one tree, carried out -----

  /** The writes of a run of insertions and removals on the tree of `t`. */
  function RunTrace(r: Run, t: Ptr, h: History): History {
    match r
    case Begin => h
    case Linking(prev, c, n) => LinkTrace(c, n, t, RunTrace(prev, t, h))
    case Unlinking(prev, c, s) =>
      var h' := RunTrace(prev, t, h);
      if s.Node? then ResetTrace(UnlinkTrace(c, s, t, h'), s.node, s.node, false) else h'
  }

  /**
   * The iterations counted for a run are seen in its writes: one or more for each, no more than three. So the
   * writes of a run are bounded by the numbers of insertions and removals.
   */
  lemma {:induction false} RunWrites(r: Run, t: Ptr, h: History)
    requires Proper(r)
    ensures var k := Length(RunTrace(r, t, h)) - Length(h);
            && Iterations(r) <= k <= 3 * Iterations(r) + 17 * Links(r) + 34 * Unlinks(r)
            && k + 3 * Potential(Outcome(r)) <= 23 * Links(r) + 37 * Unlinks(r)
  {
    match r
    case Begin =>
    case Linking(prev, c, n) =>
      RunWrites(prev, t, h);
      RunValid(prev);
      LinkCount(c, n, t, RunTrace(prev, t, h));
      LinkPaid(c, n, t, RunTrace(prev, t, h));
    case Unlinking(prev, c, s) =>
      RunWrites(prev, t, h);
      RunValid(prev);
      UnlinkCount(c, s, t, RunTrace(prev, t, h));
      UnlinkPaid(c, s, t, RunTrace(prev, t, h));
      ResetCount(UnlinkTrace(c, s, t, RunTrace(prev, t, h)), s.node, s.node, false);
  }

  /** The nodes inserted by a run exist, and are in no tree but that of `t`. */
  ghost predicate Supplied(r: Run, m: Mem, model: map<Ptr, Tree>, t: Ptr) {
    match r
    case Begin => true
    case Linking(prev, c, n) =>
      n in m.cells && Elsewhere(model, t, n) && Supplied(prev, m, model, t)
    case Unlinking(prev, c, s) => Supplied(prev, m, model, t)
  }

  lemma MemberHere(model: map<Ptr, Tree>, t: Ptr, c: Ctx, s: Tree)
    requires Disjoint(model) && t in model && s.Node? && Plug(c, s) == model[t] && Distinct(model[t])
    ensures s.node in Nodes(model[t]) && Locate(Root, model[t], s.node) == Zip(c, s) && Member(model, s.node)
    ensures forall u | u in model && s.node in Nodes(model[u]) :: u == t
  {
    PlugNodes(c, s);
    LocateUnique(c, s, s.node);
    OneTree(model, s.node, t);
  }

  method ReplayLink(m: Memory, t: Ptr, c: Ctx, n: Ptr)
    requires Settled(m) && t in m.model && Plug(c, Leaf) == m.model[t] && n in m.mem.cells && !Member(m.model, n)
    modifies m
    ensures Settled(m) && OnlyTree(old(m.model), m.model, t) && m.model[t] == Linked(c, n)
    ensures m.history == LinkTrace(c, n, t, old(m.history))
    ensures m.mem.cells.Keys == old(m.mem).cells.Keys
  {
    assert Holds(m.mem, t, m.model[t]);
    FocusPlug(m.mem, c, Leaf, t);
    var p := if c.Root? then NULL else c.node;
    var l := if c.Root? then RootOf(t) else Child(c.side, c.node);
    HoleSlot(m.mem, m.model, t, c, p, l);
    SettledAddable(m, n);
    ghost var c', steps := Add(m, t, p, l, n);
  }

  method ReplayUnlink(m: Memory, t: Ptr, c: Ctx, s: Tree)
    requires Settled(m) && t in m.model && s.Node? && Plug(c, s) == m.model[t]
    modifies m
    ensures Settled(m) && OnlyTree(old(m.model), m.model, t) && m.model[t] == Removed(c, s)
    ensures m.history == ResetTrace(UnlinkTrace(c, s, t, old(m.history)), s.node, s.node, false)
    ensures m.mem.cells.Keys == old(m.mem).cells.Keys
  {
    assert Holds(m.mem, t, m.model[t]);
    MemberHere(m.model, t, c, s);
    MemberCell(m.mem, m.model, t, s.node);
    ghost var u, z, steps := Unlink(m, s.node);
  }

  lemma MemberCell(m: Mem, model: map<Ptr, Tree>, t: Ptr, n: Ptr)
    requires Consistent(m, model) && t in model && n in Nodes(model[t])
    ensures n in m.cells
  {
    assert Holds(m, t, model[t]);
    HoldsDomain(m, t, model[t]);
  }

  lemma NotYet(model: map<Ptr, Tree>, model': map<Ptr, Tree>, t: Ptr, n: Ptr)
    requires OnlyTree(model, model', t) && n !in Nodes(model'[t])
    requires Elsewhere(model, t, n)
    ensures !Member(model', n)
  {
  }

  /** A run carried out on memory, call by call: it makes the tree and the writes that the run stands for. */
  method Replay(m: Memory, t: Ptr, r: Run)
    requires Settled(m) && t in m.model && m.model[t] == Leaf && Proper(r) && Supplied(r, m.mem, m.model, t)
    modifies m
    ensures Settled(m) && OnlyTree(old(m.model), m.model, t) && m.model[t] == Outcome(r)
    ensures m.history == RunTrace(r, t, old(m.history))
    ensures m.mem.cells.Keys == old(m.mem).cells.Keys
    decreases r
  {
    match r
    case Begin =>
    case Linking(prev, c, n) =>
      Replay(m, t, prev);
      ghost var model := m.model;
      NotYet(old(m.model), model, t, n);
      ReplayLink(m, t, c, n);
      OnlyTreeAgain(old(m.model), model, m.model, t);
    case Unlinking(prev, c, s) =>
      Replay(m, t, prev);
      ghost var model := m.model;
      ReplayUnlink(m, t, c, s);
      OnlyTreeAgain(old(m.model), model, m.model, t);
  }
}
