/**
 * What a reader without locks can see. Such a reader only loads the root pointer and child
 * pointers; every write of the library is one atomic step from one snapshot to the next.
 */
module Lockless {
  import opened Structs
  import opened Trees

  /** One write: of a child or root pointer, or of a packed word (parent, ROOT bit, colour). */
  datatype Write = SlotWrite(slot: Slot, addr: Ptr) | WordWrite(node: Ptr, word: Word, red: bool)

  predicate HasSlot(m: Mem, slot: Slot) {
    match slot
    case RootOf(t) => t in m.roots
    case Child(side, n) => n in m.cells
  }

  predicate Writable(m: Mem, w: Write) {
    match w
    case SlotWrite(slot, addr) => HasSlot(m, slot)
    case WordWrite(n, word, red) => n in m.cells
  }

  function PutChild(m: Mem, side: Side, n: Ptr, addr: Ptr): Mem
    requires n in m.cells
  {
    m.(cells := m.cells[n := if side == L then m.cells[n].(left := addr) else m.cells[n].(right := addr)])
  }

  function PutRoot(m: Mem, t: Ptr, addr: Ptr): Mem {
    m.(roots := m.roots[t := addr])
  }

  function PutSlot(m: Mem, slot: Slot, addr: Ptr): Mem
    requires HasSlot(m, slot)
  {
    match slot
    case RootOf(t) => PutRoot(m, t, addr)
    case Child(side, n) => PutChild(m, side, n, addr)
  }

  function PutWord(m: Mem, n: Ptr, w: Word, red: bool): Mem
    requires n in m.cells
  {
    m.(cells := m.cells[n := m.cells[n].(word := w, red := red)])
  }

  function Step(m: Mem, w: Write): Mem
    requires Writable(m, w)
  {
    match w
    case SlotWrite(slot, addr) => PutSlot(m, slot, addr)
    case WordWrite(n, word, red) => PutWord(m, n, word, red)
  }

  predicate NullOrIn(n: Ptr, s: set<Ptr>) {
    n == NULL || n in s
  }

  // The triggers below keep the verifier from chasing child pointers of child pointers.

  /** No child pointer of the nodes `s` leaves `s`. */
  predicate Closed(m: Mem, s: set<Ptr>) {
    && s <= m.cells.Keys
    && (forall n {:trigger NullOrIn(m.cells[n].left, s)} | n in s :: NullOrIn(m.cells[n].left, s))
    && (forall n {:trigger NullOrIn(m.cells[n].right, s)} | n in s :: NullOrIn(m.cells[n].right, s))
  }

  /** Nothing lies at NULL, and no child or root pointer dangles. */
  predicate Whole(m: Mem) {
    && NULL !in m.cells && NULL !in m.roots && Closed(m, m.cells.Keys)
    && forall t | t in m.roots :: NullOrIn(m.roots[t], m.cells.Keys)
  }

  lemma ClosedKids(m: Mem, s: set<Ptr>, n: Ptr)
    requires Closed(m, s) && n in s
    ensures NullOrIn(m.cells[n].left, s) && NullOrIn(m.cells[n].right, s)
  {
  }

  predicate RanksBelow(rank: map<Ptr, nat>, child: Ptr, n: Ptr)
    requires n in rank
  {
    child != NULL ==> child in rank && rank[child] < rank[n]
  }

  /** Every child ranks below its parent. */
  predicate Ranked(m: Mem, rank: map<Ptr, nat>) {
    && rank.Keys == m.cells.Keys
    && (forall n {:trigger RanksBelow(rank, m.cells[n].left, n)} | n in m.cells ::
          RanksBelow(rank, m.cells[n].left, n))
    && (forall n {:trigger RanksBelow(rank, m.cells[n].right, n)} | n in m.cells ::
          RanksBelow(rank, m.cells[n].right, n))
  }

  /** No loop and no dangling pointer. */
  ghost predicate Safe(m: Mem) {
    Whole(m) && exists rank :: Ranked(m, rank)
  }

  /** No descent from the root of `tree` leaves the nodes `s`. */
  predicate Confined(m: Mem, tree: Ptr, s: set<Ptr>) {
    Closed(m, s) && tree in m.roots && NullOrIn(m.roots[tree], s)
  }

  /** A memory state a reader of `tree` may meet: no loop, and no descent from the root leaves `s`. */
  ghost predicate Readable(m: Mem, tree: Ptr, s: set<Ptr>) {
    Safe(m) && Confined(m, tree, s)
  }

  /** The new pointee lies in a closed set `c`, and the written node does not. */
  predicate Admissible(m: Mem, slot: Slot, addr: Ptr, c: set<Ptr>) {
    HasSlot(m, slot) && Closed(m, c) && NullOrIn(addr, c) && (slot.Child? ==> slot.node !in c)
  }

  /** Lift every node outside the closed set above the new pointee. */
  function Lift(rank: map<Ptr, nat>, c: set<Ptr>, k: nat): map<Ptr, nat> {
    map n | n in rank :: if n in c then rank[n] else rank[n] + k
  }

  lemma LiftRanked(m: Mem, rank: map<Ptr, nat>, c: set<Ptr>, k: nat)
    requires Ranked(m, rank) && Closed(m, c)
    ensures Ranked(m, Lift(rank, c, k))
  {
    forall n | n in m.cells
      ensures RanksBelow(Lift(rank, c, k), m.cells[n].left, n) && RanksBelow(Lift(rank, c, k), m.cells[n].right, n)
    {
      assert RanksBelow(rank, m.cells[n].left, n) && RanksBelow(rank, m.cells[n].right, n);
      if n in c { ClosedKids(m, c, n); }
    }
  }

  lemma PutChildRanked(m: Mem, rank: map<Ptr, nat>, side: Side, n: Ptr, addr: Ptr)
    requires Ranked(m, rank) && n in m.cells
    requires addr != NULL ==> addr in rank && rank[addr] < rank[n]
    ensures Ranked(PutChild(m, side, n, addr), rank)
  {
  }

  lemma PutWordRanked(m: Mem, rank: map<Ptr, nat>, n: Ptr, word: Word, red: bool)
    requires Ranked(m, rank) && n in m.cells
    ensures Ranked(PutWord(m, n, word, red), rank)
  {
  }

  lemma PutSlotRanked(m: Mem, slot: Slot, addr: Ptr, c: set<Ptr>, rank: map<Ptr, nat>) returns (rank': map<Ptr, nat>)
    requires Ranked(m, rank) && NULL !in m.cells && Admissible(m, slot, addr, c)
    ensures Ranked(PutSlot(m, slot, addr), rank')
  {
    match slot
    case Child(side, n) =>
      var k: nat := if addr == NULL then 0 else rank[addr] + 1;
      rank' := Lift(rank, c, k);
      assert addr != NULL ==> rank'[addr] < rank'[n];
      LiftRanked(m, rank, c, k);
      PutChildRanked(m, rank', side, n, addr);
    case RootOf(t) =>
      rank' := rank;
  }

  lemma PutSlotWhole(m: Mem, slot: Slot, addr: Ptr)
    requires Whole(m) && HasSlot(m, slot) && NullOrIn(addr, m.cells.Keys)
    ensures Whole(PutSlot(m, slot, addr))
    ensures PutSlot(m, slot, addr).cells.Keys == m.cells.Keys && PutSlot(m, slot, addr).roots.Keys == m.roots.Keys
  {
    match slot
    case Child(side, n) => assert PutSlot(m, slot, addr).cells.Keys == m.cells.Keys;
    case RootOf(t) => assert PutSlot(m, slot, addr).roots.Keys == m.roots.Keys;
  }

  /** An admissible store closes no loop and leaves nothing dangling. */
  lemma PutSlotSafe(m: Mem, slot: Slot, addr: Ptr, c: set<Ptr>)
    requires Safe(m) && Admissible(m, slot, addr, c)
    ensures Safe(PutSlot(m, slot, addr))
    ensures PutSlot(m, slot, addr).cells.Keys == m.cells.Keys && PutSlot(m, slot, addr).roots.Keys == m.roots.Keys
  {
    PutSlotWhole(m, slot, addr);
    var rank :| Ranked(m, rank);
    var _ := PutSlotRanked(m, slot, addr, c, rank);
  }

  /** Parents and colours do not matter to a reader. */
  lemma PutWordSafe(m: Mem, n: Ptr, word: Word, red: bool)
    requires Safe(m) && n in m.cells
    ensures Safe(PutWord(m, n, word, red)) && PutWord(m, n, word, red).cells.Keys == m.cells.Keys
  {
    var m' := PutWord(m, n, word, red);
    assert m'.cells.Keys == m.cells.Keys;
    assert Whole(m');
    var rank :| Ranked(m, rank);
    PutWordRanked(m, rank, n, word, red);
  }

  lemma PutSlotConfined(m: Mem, slot: Slot, addr: Ptr, tree: Ptr, s: set<Ptr>)
    requires Confined(m, tree, s) && HasSlot(m, slot) && NullOrIn(addr, s)
    ensures Confined(PutSlot(m, slot, addr), tree, s)
  {
  }

  lemma PutWordClosed(m: Mem, n: Ptr, word: Word, red: bool, s: set<Ptr>)
    requires Closed(m, s) && n in m.cells
    ensures Closed(PutWord(m, n, word, red), s)
  {
  }

  // ----- Closed sets -----

  lemma ClosedUnion(m: Mem, s: set<Ptr>, t: set<Ptr>)
    requires Closed(m, s) && Closed(m, t)
    ensures Closed(m, s + t)
  {
    forall n | n in s + t ensures NullOrIn(m.cells[n].left, s + t) && NullOrIn(m.cells[n].right, s + t) {
      if n in s { ClosedKids(m, s, n); } else { ClosedKids(m, t, n); }
    }
  }

  lemma ClosedAdd(m: Mem, s: set<Ptr>, n: Ptr)
    requires Closed(m, s) && n in m.cells && NullOrIn(m.cells[n].left, s) && NullOrIn(m.cells[n].right, s)
    ensures Closed(m, s + {n})
  {
    forall k | k in s + {n} ensures NullOrIn(m.cells[k].left, s + {n}) && NullOrIn(m.cells[k].right, s + {n}) {
      if k != n { ClosedKids(m, s, k); }
    }
  }

  lemma ClosedElsewhere(m: Mem, s: set<Ptr>, side: Side, n: Ptr, addr: Ptr)
    requires Closed(m, s) && n in m.cells && n !in s
    ensures Closed(PutChild(m, side, n, addr), s)
  {
  }

  // ----- Loops, said without ranks -----

  /** A descent: every node after the first is a child of the one before it. */
  predicate Descent(m: Mem, path: seq<Ptr>) {
    && |path| > 0 && path[0] in m.cells
    && (|path| > 1 ==>
          && Descent(m, path[..|path| - 1])
          && path[|path| - 2] in m.cells && path[|path| - 1] in m.cells
          && (|| path[|path| - 1] == m.cells[path[|path| - 2]].left
              || path[|path| - 1] == m.cells[path[|path| - 2]].right))
  }

  lemma {:induction false} DescentRanks(m: Mem, rank: map<Ptr, nat>, path: seq<Ptr>)
    requires NULL !in m.cells && Ranked(m, rank) && Descent(m, path)
    ensures forall i | 0 <= i < |path| :: path[i] in rank
    ensures forall i | 0 <= i < |path| - 1 :: rank[path[|path| - 1]] < rank[path[i]]
    ensures NoDup(path)
    decreases |path|
  {
    if |path| > 1 {
      var prefix := path[..|path| - 1];
      DescentRanks(m, rank, prefix);
      var n := path[|path| - 2];
      assert RanksBelow(rank, m.cells[n].left, n) && RanksBelow(rank, m.cells[n].right, n);
      assert n == prefix[|prefix| - 1];
      assert forall i | 0 <= i < |prefix| :: path[i] == prefix[i];
    }
  }

  lemma {:induction false} DistinctFits<T>(path: seq<T>, s: set<T>)
    requires NoDup(path) && forall x | x in path :: x in s
    ensures |path| <= |s|
    decreases |path|
  {
    if |path| > 0 {
      var last := path[|path| - 1];
      assert last in s;
      DistinctFits(path[..|path| - 1], s - {last});
    }
  }

  /** No descent meets a node twice, so none is longer than the number of nodes. */
  lemma NoLoops(m: Mem, path: seq<Ptr>)
    requires Safe(m) && Descent(m, path)
    ensures NoDup(path) && |path| <= |m.cells|
  {
    var rank :| Ranked(m, rank);
    DescentRanks(m, rank, path);
    DistinctFits(path, m.cells.Keys);
  }

  /** A descent from the root of a confined tree only meets the given nodes. */
  lemma {:induction false} ConfinedDescent(m: Mem, tree: Ptr, s: set<Ptr>, path: seq<Ptr>)
    requires NULL !in m.cells && Confined(m, tree, s) && Descent(m, path) && path[0] == m.roots[tree]
    ensures forall i | 0 <= i < |path| :: path[i] in s
    decreases |path|
  {
    if |path| > 1 {
      var prefix := path[..|path| - 1];
      ConfinedDescent(m, tree, s, prefix);
      ClosedKids(m, s, prefix[|path| - 2]);
      assert forall i | 0 <= i < |prefix| :: path[i] == prefix[i];
    }
  }
}
