/** Runs of calls on a whole family of trees and nodes, starting from initialised memory. */
module Runs {
  import opened Structs
  import opened Trees
  import opened PaintSpec
  import opened RebalanceSpec
  import opened Memories
  import opened Forests
  import opened Search
  import opened Layout
  import opened Readers
  import opened Api
  import opened Calls
  import opened Budget

  /** Linking: `n` comes next to `p` in the order of the tree, and nothing else changes. */
  method ExecutePlace(m: Memory, t: Ptr, p: Ptr, side: Side, n: Ptr)
    requires Settled(m) && Legal(m.model, m.mem.cells.Keys, Place(t, p, side, n))
    modifies m
    ensures Settled(m) && m.mem.cells.Keys == old(m.mem).cells.Keys && Extends(old(m.history), m.history)
    ensures p != NULL ==> p in Nodes(old(m.model)[t])
    ensures m.model == old(m.model)[t := Linked(SlotCtx(old(m.model)[t], p, side), n)]
    ensures n in Nodes(m.model[t]) && Without(Inorder(m.model[t]), n, Inorder(old(m.model)[t]))
    ensures p != NULL ==> Borders(Inorder(m.model[t]), n, side, p)
    ensures Paid(old(m.history), Total(old(m.model)), m.history, Total(m.model), 23)
  {
    ghost var h, model := m.history, m.model;
    PlaceMeaning(m.mem, model, t, p, side, n);
    PlaceSlot(m.mem, m.model, t, p, side);
    SettledAddable(m, n);
    assert Holds(m.mem, t, model[t]);
    ghost var c, steps;
    if p == NULL {
      c, steps := Add(m, t, p, RootOf(t), n);
    } else {
      c, steps := Link(m, p, Child(side, p), n, t);
    }
    LinkPaid(c, n, t, h);
    TotalUpdate(model, t, Linked(c, n));
  }

  /** Unlinking: a member leaves its tree and is initialised; otherwise nothing changes. */
  method ExecuteDrop(m: Memory, n: Ptr) returns (ghost t: Ptr)
    requires Settled(m) && (n != NULL ==> n in m.mem.cells)
    modifies m
    ensures Settled(m) && m.mem.cells.Keys == old(m.mem).cells.Keys && Extends(old(m.history), m.history)
    ensures !Member(old(m.model), n) ==> m.model == old(m.model) && m.mem == old(m.mem)
    ensures Member(old(m.model), n) ==>
              && t in old(m.model) && n in Nodes(old(m.model)[t]) && t in m.model
              && Without(Inorder(old(m.model)[t]), n, Inorder(m.model[t]))
              && Nodes(m.model[t]) == Nodes(old(m.model)[t]) - {n} && m.model == old(m.model)[t := m.model[t]]
              && n in m.mem.cells && m.mem.cells[n] == Initial(n)
    ensures !Member(m.model, n) && Effect(old(m.model), Drop(n), m.model)
    ensures Paid(old(m.history), Total(old(m.model)), m.history, Total(m.model), 37)
  {
    ghost var h, m0, model := m.history, m.mem, m.model;
    ghost var z, steps;
    t, z, steps := Unlink(m, n);
    if Member(model, n) {
      UnlinkPrepared(m0, model, t, n, z);
      RemovedFits(z.ctx, z.sub);
      UnlinkPaid(z.ctx, z.sub, t, h);
      TotalUpdate(model, t, Removed(z.ctx, z.sub));
      MembersDropped(model, t, Removed(z.ctx, z.sub), n);
    }
  }

  /** Moving: the whole tree changes hands. */
  method ExecuteImport(m: Memory, to: Ptr, from: Ptr)
    requires Settled(m) && to in m.model && from in m.model && m.model[to] == Leaf
    modifies m
    ensures Settled(m) && m.mem.cells.Keys == old(m.mem).cells.Keys && Extends(old(m.history), m.history)
    ensures m.model == old(m.model)[to := old(m.model)[from]][from := Leaf]
    ensures Paid(old(m.history), Total(old(m.model)), m.history, Total(m.model), 5)
  {
    ghost var h, model := m.history, m.model;
    EmptyTree(m.mem, m.model, to);
    Move(m, to, from);
    TotalUpdate(model, to, model[from]);
    TotalUpdate(model[to := model[from]], from, Leaf);
    if model[from].Node? { MoveCount(to, from, model[from].node, model[from].red, h); }
  }

  /**
   * One call: what it makes of the trees, of their sequences and of their members, and its price in writes,
   * taken over a run.
   */
  method Execute(m: Memory, call: Call)
    requires Settled(m) && Legal(m.model, m.mem.cells.Keys, call)
    modifies m
    ensures Settled(m) && Effect(old(m.model), call, m.model) && m.mem.cells.Keys == old(m.mem).cells.Keys
    ensures Extends(old(m.history), m.history)
    ensures Orders(m.model) == Called(Orders(old(m.model)), call)
    ensures forall k :: Member(m.model, k) <==> Stands(old(m.model), call, k)
    ensures Paid(old(m.history), Total(old(m.model)), m.history, Total(m.model), 37)
  {
    ghost var m0, model := m.mem, m.model;
    match call
    case Place(t, p, side, n) =>
      PlaceMeaning(m0, model, t, p, side, n);
      ExecutePlace(m, t, p, side, n);
    case Drop(n) =>
      ghost var t := ExecuteDrop(m, n);
      if Member(model, n) {
        DropMeaning(m0, model, t, n, m.model[t]);
      } else {
        NothingDropped(model, n);
      }
    case Import(to, from) =>
      ImportMeaning(model, to, from);
      ExecuteImport(m, to, from);
  }

  /**
   * Any run of legal calls keeps the invariant of the family and ends with the trees that the calls make: as
   * sequences, by insertions next to a node, deletions and renamings alone. The members at the end are those
   * put into a tree and not taken out since. The writes of the run are bounded by the number of calls, and the
   * history only goes on.
   */
  method ExecuteAll(m: Memory, calls: seq<Call>)
    requires Settled(m) && LegalRun(m.model, m.mem.cells.Keys, calls)
    modifies m
    ensures Settled(m) && Reaches(old(m.model), calls, m.model) && Extends(old(m.history), m.history)
    ensures Orders(m.model) == CalledAll(Orders(old(m.model)), calls)
    ensures forall n :: Member(m.model, n) <==>
              (Member(old(m.model), n) && Drop(n) !in calls) || exists i :: PutToStay(calls, i, n)
    ensures Length(m.history) + 3 * Total(m.model) <= Length(old(m.history)) + 3 * Total(old(m.model)) + 37 * |calls|
    decreases |calls|
  {
    if calls != [] {
      Execute(m, calls[0]);
      ghost var h, model := m.history, m.model;
      ExecuteAll(m, calls[1..]);
      ExtendsOn(old(m.history), h, m.history);
      forall n ensures Member(m.model, n) <==>
              (Member(old(m.model), n) && Drop(n) !in calls) || exists i :: PutToStay(calls, i, n)
      {
        PutLater(calls, n);
        assert Drop(n) in calls <==> calls[0] == Drop(n) || Drop(n) in calls[1..];
      }
    }
  }

  /** The same from initialised nodes and empty trees. */
  method ExecuteFresh(nodes: set<Ptr>, trees: set<Ptr>, calls: seq<Call>) returns (m: Memory)
    requires NULL !in nodes && NULL !in trees && LegalRun(map t | t in trees :: Leaf, nodes, calls)
    ensures fresh(m) && Settled(m) && Reaches(map t | t in trees :: Leaf, calls, m.model)
    ensures Extends(Start(Mem(map t | t in trees :: NULL, map n | n in nodes :: Initial(n))), m.history)
    ensures Orders(m.model) == CalledAll(NoOrders(trees), calls)
    ensures forall n :: Member(m.model, n) <==> exists i :: PutToStay(calls, i, n)
    ensures Length(m.history) <= 37 * |calls|
  {
    m := new Memory(nodes, trees);
    InitiallySettled(m, nodes, trees);
    assert m.mem.cells.Keys == nodes;
    TotalEmpty(m.model);
    OrdersEmpty(m.model, trees);
    assert forall n :: !Member(m.model, n);
    ExecuteAll(m, calls);
  }

  /**
   * Readers during runs. After any run of calls since `base`, take the memory states that the run went
   * through, write by write: a lookup in any tree that is interleaved with these writes in any way ends,
   * and finds NULL or a node that compares equal. It is complete if the tree stays as it is from its first load
   * on, and so in particular if it starts after the last write.
   */
  method FindDuringRun(m: Memory, ghost base: History, views: seq<Mem>, tree: Ptr, f: Ptr -> int)
    returns (r: Ptr, ghost seen: seq<Ptr>, ghost at: seq<nat>)
    requires Settled(m) && Extends(base, m.history) && views == StatesSince(base, m.history) && tree in m.model
    ensures Looked(views, tree, f, seen, at) && r == seen[|seen| - 1]
    ensures r == NULL || (r in m.mem.cells && f(r) == 0)
    ensures forall t | Quiet(views, at[0], tree, t) && r != NULL :: r in Nodes(t)
    ensures forall t | Quiet(views, at[0], tree, t) && r == NULL && Monotone(f, Inorder(t)) ::
              forall n | n in Nodes(t) :: f(n) != 0
    ensures at[0] == |views| - 1 ==>
              && (r != NULL ==> r in Nodes(m.model[tree]))
              && (r == NULL && Monotone(f, Inorder(m.model[tree])) ==>
                    forall n | n in Nodes(m.model[tree]) :: f(n) != 0)
  {
    RunReadable(base, m.history, tree);
    SinceStates(base, m.history, tree, m.mem.cells.Keys);
    r, seen, at := ConcurrentFind(views, tree, f, m.mem.cells.Keys);
    assert Holds(m.mem, tree, m.model[tree]);
    RepShows(m.mem, m.model[tree], HoleWord(Root, tree));
    assert Quiet(views, |views| - 1, tree, m.model[tree]);
  }

  /** What the invariant says about any two places of a node, and about what a node knows of itself. */
  lemma SettledMeaning(m: Memory, n: Ptr)
    requires Settled(m) && n in m.mem.cells
    ensures forall t, u | t in m.model && u in m.model && n in Nodes(m.model[t]) && n in Nodes(m.model[u]) :: t == u
    ensures IsLinked(m.mem, n) <==> exists t | t in m.model :: n in Nodes(m.model[t])
    ensures m.mem.cells[n].word.isRoot <==> exists t | t in m.model :: m.mem.roots[t] == n
    ensures m.mem.cells[n].word.isRoot ==>
              m.mem.cells[n].word.raw in m.model && m.mem.roots[m.mem.cells[n].word.raw] == n
    ensures !IsLinked(m.mem, n) ==> m.mem.cells[n] == Initial(n)
  {
    MemberLinked(m.mem, m.model, n);
    RootBit(m.mem, m.model, n);
  }
}
