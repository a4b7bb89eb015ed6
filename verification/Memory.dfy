/**
 * The mutable memory, with a ghost record of everything a reader without locks could have seen,
 * and the primitives of the library through which all writes go.
 */
module Memories {
  import opened Structs
  import opened Trees
  import opened Lockless

  /** The writes performed so far, latest first. */
  datatype History = Start(first: Mem) | Then(prev: History, write: Write)

  function View(h: History): Mem {
    match h
    case Start(m) => m
    case Then(prev, w) => if Writable(View(prev), w) then Step(View(prev), w) else View(prev)
  }

  /** How many writes the history records. */
  function Length(h: History): nat {
    if h.Start? then 0 else 1 + Length(h.prev)
  }

  /** The history `h` goes on from `base`. */
  predicate Extends(base: History, h: History) {
    h == base || (h.Then? && Extends(base, h.prev))
  }

  /** The memory states from `base` on, oldest first. */
  function StatesSince(base: History, h: History): (v: seq<Mem>)
    ensures |v| > 0 && v[|v| - 1] == View(h)
    ensures Extends(base, h) ==> v[0] == View(base)
  {
    if h == base || h.Start? then [View(h)] else StatesSince(base, h.prev) + [View(h)]
  }

  /** Every state from `base` on may be met by a reader of `tree`, which then stays among the nodes `s`. */
  ghost predicate Since(base: History, h: History, tree: Ptr, s: set<Ptr>) {
    && Readable(View(h), tree, s)
    && (h == base || (h.Then? && Since(base, h.prev, tree, s)))
  }

  /** All writes of the history went to existing places, and no memory state has a loop or a dangling pointer. */
  ghost predicate Sound(h: History) {
    Safe(View(h)) && (h.Then? ==> Writable(View(h.prev), h.write) && Sound(h.prev))
  }

  /**
   * The last `count` states are `base` and what came after it by writes to `tree` and the nodes `s`,
   * and in none of them does a descent from the root of `tree` leave the nodes `s`.
   */
  ghost predicate Within(h: History, base: History, count: nat, tree: Ptr, s: set<Ptr>) {
    && count > 0 && Confined(View(h), tree, s)
    && if count == 1 then h == base
       else h.Then? && Inside(h.write, tree, s) && Within(h.prev, base, count - 1, tree, s)
  }

  /** The write goes to one of the nodes `s`, or to the root pointer of `tree`. */
  predicate Inside(w: Write, tree: Ptr, s: set<Ptr>) {
    match w
    case SlotWrite(RootOf(t), addr) => t == tree
    case SlotWrite(Child(side, n), addr) => n in s
    case WordWrite(n, word, red) => n in s
  }

  /** The history is up to date with `m`, and all of it is safe for readers. */
  ghost predicate Chronicle(m: Mem, h: History, base: History, count: nat, tree: Ptr, s: set<Ptr>) {
    View(h) == m && Sound(h) && Within(h, base, count, tree, s)
  }

  lemma StoreStep(m: Mem, h: History, base: History, count: nat, tree: Ptr, s: set<Ptr>,
                  slot: Slot, addr: Ptr, c: set<Ptr>)
    requires Chronicle(m, h, base, count, tree, s)
    requires c <= s && Admissible(m, slot, addr, c) && Inside(SlotWrite(slot, addr), tree, s)
    ensures Chronicle(PutSlot(m, slot, addr), Then(h, SlotWrite(slot, addr)), base, count + 1, tree, s)
  {
    PutSlotSafe(m, slot, addr, c);
    PutSlotConfined(m, slot, addr, tree, s);
  }

  lemma WordStep(m: Mem, h: History, base: History, count: nat, tree: Ptr, s: set<Ptr>, n: Ptr, w: Word, red: bool)
    requires Chronicle(m, h, base, count, tree, s) && n in m.cells && n in s
    ensures Chronicle(PutWord(m, n, w, red), Then(h, WordWrite(n, w, red)), base, count + 1, tree, s)
  {
    PutWordSafe(m, n, w, red);
    PutWordConfined(m, n, w, red, tree, s);
  }

  /** The memory with the node `n` initialised. */
  function Cleared(m: Mem, n: Ptr): Mem
    requires n in m.cells
  {
    m.(cells := m.cells[n := Initial(n)])
  }

  function AfterReset(m: Mem, n: Ptr, raw: Ptr, red: bool): Mem
    requires n in m.cells
  {
    PutChild(PutChild(PutWord(m, n, Word(raw, false), red), L, n, NULL), R, n, NULL)
  }

  function ResetTrace(h: History, n: Ptr, raw: Ptr, red: bool): History {
    Then(Then(Then(h, WordWrite(n, Word(raw, false), red)), SlotWrite(Child(L, n), NULL)), SlotWrite(Child(R, n), NULL))
  }

  /** What a node held makes no difference once its word and both its child pointers have been written. */
  lemma OverwriteForgets(m: Mem, n: Ptr, raw: Ptr, red: bool)
    requires n in m.cells
    ensures AfterReset(m, n, raw, red) == AfterReset(Cleared(m, n), n, raw, red)
  {
    assert AfterReset(m, n, raw, red).cells == AfterReset(Cleared(m, n), n, raw, red).cells;
  }

  lemma OverwriteSteps(m: Mem, n: Ptr, raw: Ptr, red: bool, h: History, t: Ptr, s: set<Ptr>)
    requires n in m.cells && n in s && Sound(h) && View(h) == m && Confined(m, t, s)
    ensures Chronicle(AfterReset(m, n, raw, red), ResetTrace(h, n, raw, red), h, 4, t, s)
  {
    WordStep(m, h, h, 1, t, s, n, Word(raw, false), red);
    var m1, h1 := PutWord(m, n, Word(raw, false), red), Then(h, WordWrite(n, Word(raw, false), red));
    StoreStep(m1, h1, h, 2, t, s, Child(L, n), NULL, {});
    StoreStep(PutChild(m1, L, n, NULL), Then(h1, SlotWrite(Child(L, n), NULL)), h, 3, t, s, Child(R, n), NULL, {});
  }

  class Memory {
    var mem: Mem
    ghost var history: History
    ghost var model: map<Ptr, Tree>  // the tree that each CRBTree holds

    // The operation in progress has performed `writes - 1` writes since `base`, for the sake of
    // `tree`, which is made of nodes of `footprint`.
    ghost var base: History
    ghost var tree: Ptr
    ghost var footprint: set<Ptr>
    ghost var writes: nat

    /** Initialised nodes in no tree, and empty trees (`c_rbnode_init` and `c_rbtree_init`). */
    ghost predicate IsNew(nodes: set<Ptr>, trees: set<Ptr>)
      reads this
    {
      && mem == Mem(map t | t in trees :: NULL, map n | n in nodes :: Initial(n))
      && history == Start(mem) && model == map t | t in trees :: Leaf
    }

    constructor (nodes: set<Ptr>, trees: set<Ptr>)
      requires NULL !in nodes && NULL !in trees
      ensures IsNew(nodes, trees)
    {
      mem := Mem(map t | t in trees :: NULL, map n | n in nodes :: Initial(n));
      history := Start(Mem(map t | t in trees :: NULL, map n | n in nodes :: Initial(n)));
      model := map t | t in trees :: Leaf;
      base, tree, footprint, writes := Start(Mem(map[], map[])), NULL, {}, 0;
    }

    ghost predicate Logged()
      reads this
    {
      Chronicle(mem, history, base, writes, tree, footprint)
    }

    /**
     * `c_rbtree_store`: the only way in which child and root pointers are written. The caller names
     * a closed set `c` with the new pointee but without the written node, so that no prefix of a
     * run of stores contains a loop or leads out of the footprint.
     */
    method Store(slot: Slot, addr: Ptr, ghost c: set<Ptr>)
      requires Logged() && c <= footprint && Admissible(mem, slot, addr, c)
      requires if slot.RootOf? then slot.tree == tree else slot.node in footprint
      modifies `mem, `history, `writes
      ensures Logged() && mem == PutSlot(old(mem), slot, addr)
      ensures history == Then(old(history), SlotWrite(slot, addr)) && writes == old(writes) + 1
    {
      StoreStep(mem, history, base, writes, tree, footprint, slot, addr, c);
      mem := PutSlot(mem, slot, addr);
      history, writes := Then(history, SlotWrite(slot, addr)), writes + 1;
    }

    /** `c_rbnode_set_parent_and_flags`. */
    method SetWord(n: Ptr, raw: Ptr, red: bool, isRoot: bool)
      requires Logged() && n in mem.cells && n in footprint
      modifies `mem, `history, `writes
      ensures Logged() && mem == PutWord(old(mem), n, Word(raw, isRoot), red)
      ensures history == Then(old(history), WordWrite(n, Word(raw, isRoot), red)) && writes == old(writes) + 1
      ensures forall s {:trigger Closed(mem, s)} :: Closed(old(mem), s) ==> Closed(mem, s)
    {
      WordStep(mem, history, base, writes, tree, footprint, n, Word(raw, isRoot), red);
      mem := PutWord(mem, n, Word(raw, isRoot), red);
      history, writes := Then(history, WordWrite(n, Word(raw, isRoot), red)), writes + 1;
    }

    /**
     * The writes with which `c_rbtree_add` and `c_rbnode_link` begin: word, left, right of a node `n` that is
     * in no tree. They go in order, but nobody can reach `n` yet, and it may hold anything: the history is
     * that of a memory in which `n` is initialised, which these writes make no difference to.
     */
    method Overwrite(n: Ptr, raw: Ptr, red: bool, ghost h: History, ghost t: Ptr, ghost s: set<Ptr>)
      requires n in mem.cells && n in s && Sound(h) && View(h) == Cleared(mem, n) && Confined(Cleared(mem, n), t, s)
      modifies `mem, `history, `base, `tree, `footprint, `writes
      ensures Logged() && base == h && tree == t && footprint == s
      ensures mem == AfterReset(Cleared(old(mem), n), n, raw, red)
      ensures history == ResetTrace(h, n, raw, red)
    {
      OverwriteSteps(Cleared(mem, n), n, raw, red, h, t, s);
      ghost var before := mem;
      mem := PutWord(mem, n, Word(raw, false), red);
      mem := PutChild(mem, L, n, NULL);
      mem := PutChild(mem, R, n, NULL);
      OverwriteForgets(before, n, raw, red);
      history, base, tree, footprint, writes := ResetTrace(h, n, raw, red), h, t, s, 4;
    }

    /** `c_rbnode_pop_root`: take the owning tree out of a root node's word. */
    method PopRoot(n: Ptr) returns (t: Ptr)
      requires Logged() && n in mem.cells && n in footprint
      modifies `mem, `history, `writes
      ensures Logged()
      ensures mem == AfterPop(old(mem), n) && history == PopTrace(old(history), old(mem), n)
      ensures t == if old(mem).cells[n].word.isRoot then old(mem).cells[n].word.raw else NULL
      ensures forall s {:trigger Closed(mem, s)} :: Closed(old(mem), s) ==> Closed(mem, s)
    {
      t := NULL;
      if mem.cells[n].word.isRoot {
        t := mem.cells[n].word.raw;
        SetWord(n, NULL, mem.cells[n].red, false);
      }
    }

    /** `c_rbnode_push_root`: make `n` (or NULL) the root of `t`, if `t` was popped before. */
    method PushRoot(n: Ptr, t: Ptr, ghost c: set<Ptr>)
      requires Logged() && (n != NULL ==> n in mem.cells && n in footprint)
      requires t != NULL ==> t == tree && c <= footprint && Admissible(mem, RootOf(t), n, c)
      modifies `mem, `history, `writes
      ensures Logged()
      ensures mem == AfterPush(old(mem), n, t) && history == PushTrace(old(history), old(mem), n, t)
    {
      if t != NULL {
        if n != NULL {
          SetWord(n, t, mem.cells[n].red, true);
        }
        Store(RootOf(t), n, c);
      }
    }

    /** `c_rbnode_swap_child`: the parent of `o` points to `n` instead. */
    method SwapChild(o: Ptr, n: Ptr, ghost side: Side, ghost c: set<Ptr>)
      requires Logged() && o in mem.cells
      requires var p := mem.cells[o].Parent();
               p != NULL ==>
                 && p in mem.cells && p in footprint && (side == L <==> mem.cells[p].left == o)
                 && c <= footprint && Admissible(mem, Child(side, p), n, c)
      modifies `mem, `history, `writes
      ensures Logged()
      ensures var p := old(mem).cells[o].Parent();
              && mem == (if p == NULL then old(mem) else PutChild(old(mem), side, p, n))
              && history == if p == NULL then old(history) else Then(old(history), SlotWrite(Child(side, p), n))
    {
      var p := mem.cells[o].Parent();
      if p != NULL {
        if mem.cells[p].left == o {
          Store(Child(L, p), n, c);
        } else {
          Store(Child(R, p), n, c);
        }
      }
    }
  }

  function AfterPop(m: Mem, n: Ptr): Mem
    requires n in m.cells
  {
    if m.cells[n].word.isRoot then PutWord(m, n, Word(NULL, false), m.cells[n].red) else m
  }

  function AfterPush(m: Mem, n: Ptr, t: Ptr): Mem
    requires n != NULL ==> n in m.cells
  {
    if t == NULL then m
    else if n == NULL then PutRoot(m, t, n)
    else PutRoot(PutWord(m, n, Word(t, true), m.cells[n].red), t, n)
  }

  function PopTrace(h: History, m: Mem, n: Ptr): History
    requires n in m.cells
  {
    if m.cells[n].word.isRoot then Then(h, WordWrite(n, Word(NULL, false), m.cells[n].red)) else h
  }

  function PushTrace(h: History, m: Mem, n: Ptr, t: Ptr): History
    requires n != NULL ==> n in m.cells
  {
    if t == NULL then h
    else if n == NULL then Then(h, SlotWrite(RootOf(t), n))
    else Then(Then(h, WordWrite(n, Word(t, true), m.cells[n].red)), SlotWrite(RootOf(t), n))
  }

  /** Only the nodes `s` and the root pointer of `tree` change. */
  predicate Local(m: Mem, m': Mem, tree: Ptr, s: set<Ptr>) {
    && m'.cells.Keys == m.cells.Keys && m'.roots.Keys == m.roots.Keys
    && (forall n {:trigger m'.cells[n]} | n in m.cells && n !in s :: m'.cells[n] == m.cells[n])
    && (forall t {:trigger m'.roots[t]} | t in m.roots && t != tree :: m'.roots[t] == m.roots[t])
  }

  lemma StepLocal(m: Mem, m1: Mem, w: Write, tree: Ptr, s: set<Ptr>)
    requires Local(m, m1, tree, s) && Inside(w, tree, s) && Writable(m1, w)
    ensures Local(m, Step(m1, w), tree, s)
  {
  }

  /** What an operation in progress has changed so far. */
  lemma {:induction false} WithinLocal(h: History, base: History, count: nat, tree: Ptr, s: set<Ptr>)
    requires Within(h, base, count, tree, s)
    ensures Local(View(base), View(h), tree, s)
    decreases count
  {
    if count > 1 {
      WithinLocal(h.prev, base, count - 1, tree, s);
      if Writable(View(h.prev), h.write) { StepLocal(View(base), View(h.prev), h.write, tree, s); }
    }
  }

  /** What came after `base` are writes to `tree` and the nodes `s`. */
  predicate Wrote(base: History, h: History, tree: Ptr, s: set<Ptr>) {
    h == base || (h.Then? && Inside(h.write, tree, s) && Wrote(base, h.prev, tree, s))
  }

  lemma {:induction false} WroteLocal(base: History, h: History, tree: Ptr, s: set<Ptr>)
    requires Wrote(base, h, tree, s)
    ensures Local(View(base), View(h), tree, s) && Length(base) <= Length(h)
    decreases h
  {
    if h != base {
      WroteLocal(base, h.prev, tree, s);
      if Writable(View(h.prev), h.write) { StepLocal(View(base), View(h.prev), h.write, tree, s); }
    }
  }

  ghost predicate OneWrite(m: Mem, m': Mem) {
    exists w :: Writable(m, w) && m' == Step(m, w)
  }

  /** The states since `base` are one more than the writes, and each is one write away from the one before it. */
  lemma {:induction false} StatesStep(base: History, h: History)
    requires Sound(h) && Extends(base, h)
    ensures var v := StatesSince(base, h);
            && |v| == 1 + Length(h) - Length(base) && v[0] == View(base) && v[|v| - 1] == View(h)
            && forall i | 0 < i < |v| :: OneWrite(v[i - 1], v[i])
    decreases h
  {
    if h != base {
      StatesStep(base, h.prev);
      var v, u := StatesSince(base, h), StatesSince(base, h.prev);
      var k, w := |u|, h.write;
      assert v == u + [View(h)];
      assert Writable(v[k - 1], w) && v[k] == Step(v[k - 1], w);
      forall i | 0 < i < |v| ensures OneWrite(v[i - 1], v[i]) {
        if i < k { assert v[i] == u[i] && v[i - 1] == u[i - 1]; }
      }
    }
  }

  lemma {:induction false} ExtendsOn(a: History, b: History, c: History)
    requires Extends(a, b) && Extends(b, c)
    ensures Extends(a, c)
    decreases c
  {
    if c != b { ExtendsOn(a, b, c.prev); }
  }

  lemma {:induction false} SinceOn(a: History, b: History, c: History, tree: Ptr, s: set<Ptr>)
    requires Since(a, b, tree, s) && Since(b, c, tree, s)
    ensures Since(a, c, tree, s)
    decreases c
  {
    if c != b { SinceOn(a, b, c.prev, tree, s); }
  }

  lemma {:induction false} SinceStates(base: History, h: History, tree: Ptr, s: set<Ptr>)
    requires Since(base, h, tree, s)
    ensures Extends(base, h) && forall v | v in StatesSince(base, h) :: Readable(v, tree, s)
    decreases h
  {
    if h != base { SinceStates(base, h.prev, tree, s); }
  }

  /** All that an operation has gone through may be met by readers of its tree. */
  lemma {:induction false} WithinSince(h: History, base: History, count: nat, tree: Ptr, s: set<Ptr>)
    requires Sound(h) && Within(h, base, count, tree, s)
    ensures Extends(base, h) && Since(base, h, tree, s)
    decreases count
  {
    if count > 1 { WithinSince(h.prev, base, count - 1, tree, s); }
  }

  /** The same for readers of another tree, if that leads into the same nodes. */
  lemma {:induction false} WithinOther(h: History, base: History, count: nat, tree: Ptr, s: set<Ptr>, other: Ptr)
    requires Sound(h) && Within(h, base, count, tree, s) && other != tree
    requires other in View(base).roots && NullOrIn(View(base).roots[other], s)
    ensures Since(base, h, other, s)
    decreases count
  {
    WithinLocal(h, base, count, tree, s);
    if count > 1 { WithinOther(h.prev, base, count - 1, tree, s, other); }
  }

  lemma PutWordConfined(m: Mem, n: Ptr, word: Word, red: bool, tree: Ptr, s: set<Ptr>)
    requires Confined(m, tree, s) && n in m.cells
    ensures Confined(PutWord(m, n, word, red), tree, s)
  {
  }

  lemma ViewKeys(h: History)
    requires h.Then?
    ensures View(h).cells.Keys == View(h.prev).cells.Keys && View(h).roots.Keys == View(h.prev).roots.Keys
  {
  }
}
