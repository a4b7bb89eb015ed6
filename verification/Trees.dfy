/**
 * Algebraic trees of node references, with zippers. A context is a tree with one hole,
 * read from the hole upwards, which is the direction in which the C loops walk.
 */
module Trees {
  import opened Structs

  function Flip(side: Side): Side {
    if side == L then R else L
  }

  datatype Tree = Leaf | Node(left: Tree, node: Ptr, red: bool, right: Tree)

  /** In(side, p, ..): the hole is the `side` child of `p`, and `sib` is the other child. */
  datatype Ctx = Root | In(side: Side, node: Ptr, red: bool, sib: Tree, up: Ctx)

  function Join(side: Side, near: Tree, n: Ptr, red: bool, far: Tree): Tree {
    if side == L then Node(near, n, red, far) else Node(far, n, red, near)
  }

  function Near(side: Side, t: Tree): Tree
    requires t.Node?
  {
    if side == L then t.left else t.right
  }

  function Far(side: Side, t: Tree): Tree
    requires t.Node?
  {
    Near(Flip(side), t)
  }

  function Plug(c: Ctx, t: Tree): Tree {
    match c
    case Root => t
    case In(side, n, red, sib, up) => Plug(up, Join(side, t, n, red, sib))
  }

  function Top(t: Tree): Ptr {
    if t.Leaf? then NULL else t.node
  }

  predicate IsRed(t: Tree) {
    t.Node? && t.red
  }

  function Blacken(t: Tree): Tree {
    if t.Leaf? then Leaf else t.(red := false)
  }

  function Nodes(t: Tree): set<Ptr> {
    if t.Leaf? then {} else Nodes(t.left) + {t.node} + Nodes(t.right)
  }

  function CtxNodes(c: Ctx): set<Ptr> {
    if c.Root? then {} else {c.node} + Nodes(c.sib) + CtxNodes(c.up)
  }

  function Inorder(t: Tree): seq<Ptr> {
    if t.Leaf? then [] else Inorder(t.left) + [t.node] + Inorder(t.right)
  }

  function Size(t: Tree): nat {
    if t.Leaf? then 0 else Size(t.left) + 1 + Size(t.right)
  }

  /** In-order nodes before the hole. */
  function Before(c: Ctx): seq<Ptr> {
    match c
    case Root => []
    case In(L, n, red, sib, up) => Before(up)
    case In(R, n, red, sib, up) => Before(up) + Inorder(sib) + [n]
  }

  /** In-order nodes after the hole. */
  function After(c: Ctx): seq<Ptr> {
    match c
    case Root => []
    case In(L, n, red, sib, up) => [n] + Inorder(sib) + After(up)
    case In(R, n, red, sib, up) => After(up)
  }

  predicate Distinct(t: Tree) {
    t.Node? ==>
      && t.node !in Nodes(t.left) && t.node !in Nodes(t.right) && Nodes(t.left) !! Nodes(t.right)
      && Distinct(t.left) && Distinct(t.right)
  }

  predicate DistinctCtx(c: Ctx) {
    c.In? ==>
      && c.node !in Nodes(c.sib) && c.node !in CtxNodes(c.up) && Nodes(c.sib) !! CtxNodes(c.up)
      && Distinct(c.sib) && DistinctCtx(c.up)
  }

  ghost predicate NoDup<T>(s: seq<T>) {
    forall i, j | 0 <= i < j < |s| :: s[i] != s[j]
  }

  // ----- Red-black invariants -----

  /** Black nodes on the leftmost path; in a balanced tree, on every path to NULL. */
  function H(t: Tree): nat {
    if t.Leaf? then 0 else H(t.left) + if t.red then 0 else 1
  }

  predicate RB(t: Tree) {
    t.Node? ==>
      && H(t.left) == H(t.right)
      && (t.red ==> !IsRed(t.left) && !IsRed(t.right))
      && RB(t.left) && RB(t.right)
  }

  /** What the API keeps: balanced, no red-red edge, black root, no node twice. */
  predicate Valid(t: Tree) {
    RB(t) && !IsRed(t) && Distinct(t)
  }

  predicate AllowsRed(c: Ctx) {
    c.In? && !c.red
  }

  /** The context is fine for any hole of black height `h` (up to the colour of the hole). */
  predicate CtxRB(c: Ctx, h: nat) {
    c.In? ==>
      && RB(c.sib) && H(c.sib) == h
      && (c.red ==> !IsRed(c.sib) && AllowsRed(c.up))
      && CtxRB(c.up, if c.red then h else h + 1)
  }

  lemma JoinNodes(side: Side, near: Tree, n: Ptr, red: bool, far: Tree)
    ensures Nodes(Join(side, near, n, red, far)) == Nodes(near) + {n} + Nodes(far)
    ensures Distinct(Join(side, near, n, red, far))
       <==> n !in Nodes(near) && n !in Nodes(far) && Nodes(near) !! Nodes(far) && Distinct(near) && Distinct(far)
  {
  }

  lemma JoinRB(side: Side, near: Tree, n: Ptr, red: bool, far: Tree)
    ensures RB(Join(side, near, n, red, far))
       <==> RB(near) && RB(far) && H(near) == H(far) && (red ==> !IsRed(near) && !IsRed(far))
    ensures H(near) == H(far) ==> H(Join(side, near, n, red, far)) == H(near) + if red then 0 else 1
  {
  }

  lemma BlackenRB(t: Tree)
    requires RB(t)
    ensures RB(Blacken(t)) && !IsRed(Blacken(t)) && H(Blacken(t)) == H(t) + if IsRed(t) then 1 else 0
    ensures Inorder(Blacken(t)) == Inorder(t)
    ensures !IsRed(t) ==> Blacken(t) == t
  {
  }

  lemma {:induction false} PlugRB(c: Ctx, t: Tree)
    ensures RB(Plug(c, t)) && !IsRed(Plug(c, t))
       <==> RB(t) && CtxRB(c, H(t)) && (IsRed(t) ==> AllowsRed(c))
  {
    match c
    case Root =>
    case In(side, n, red, sib, up) =>
      PlugRB(up, Join(side, t, n, red, sib));
  }

  lemma {:induction false} PlugNodes(c: Ctx, t: Tree)
    ensures Nodes(Plug(c, t)) == Nodes(t) + CtxNodes(c)
    ensures Distinct(Plug(c, t)) <==> Distinct(t) && DistinctCtx(c) && Nodes(t) !! CtxNodes(c)
  {
    match c
    case Root =>
    case In(side, n, red, sib, up) =>
      PlugNodes(up, Join(side, t, n, red, sib));
  }

  lemma RegroupHole<T>(b: seq<T>, t: seq<T>, n: T, s: seq<T>, a: seq<T>)
    ensures b + (t + [n] + s) + a == b + t + ([n] + s + a)
    ensures b + (s + [n] + t) + a == b + s + [n] + t + a
  {
  }

  lemma {:induction false} PlugInorder(c: Ctx, t: Tree)
    ensures Inorder(Plug(c, t)) == Before(c) + Inorder(t) + After(c)
  {
    match c
    case Root =>
    case In(side, n, red, sib, up) =>
      PlugInorder(up, Join(side, t, n, red, sib));
      RegroupHole(Before(up), Inorder(t), n, Inorder(sib), After(up));
  }

  /** Replacing one subtree by another with the same in-order nodes keeps the whole sequence. */
  lemma PlugSame(c: Ctx, t: Tree, u: Tree)
    requires Inorder(t) == Inorder(u)
    ensures Inorder(Plug(c, t)) == Inorder(Plug(c, u))
  {
  }

  lemma {:induction false} InorderNodes(t: Tree)
    ensures Nodes(t) == (set n | n in Inorder(t))
    ensures |Inorder(t)| == Size(t)
  {
    if t.Node? {
      InorderNodes(t.left);
      InorderNodes(t.right);
    }
  }

  lemma NoDupParts<T>(a: seq<T>, n: T, b: seq<T>)
    ensures NoDup(a + [n] + b)
       <==> NoDup(a) && NoDup(b) && n !in a && n !in b && forall i | 0 <= i < |a| :: a[i] !in b
  {
    var s := a + [n] + b;
    assert forall i | 0 <= i < |a| :: s[i] == a[i];
    assert s[|a|] == n;
    assert forall i | 0 <= i < |b| :: s[|a| + 1 + i] == b[i];
    if NoDup(s) {
      forall i, j | 0 <= i < j < |a| ensures a[i] != a[j] {
        assert s[i] != s[j];
      }
      forall i, j | 0 <= i < j < |b| ensures b[i] != b[j] {
        assert s[|a| + 1 + i] != s[|a| + 1 + j];
      }
      forall i | 0 <= i < |a| ensures a[i] != n && a[i] !in b {
        assert s[i] != s[|a|];
        forall j | 0 <= j < |b| ensures a[i] != b[j] {
          assert s[i] != s[|a| + 1 + j];
        }
      }
      forall j | 0 <= j < |b| ensures n != b[j] {
        assert s[|a|] != s[|a| + 1 + j];
      }
    }
  }

  lemma {:induction false} InorderDistinct(t: Tree)
    ensures Distinct(t) <==> NoDup(Inorder(t))
  {
    if t.Node? {
      InorderDistinct(t.left);
      InorderDistinct(t.right);
      InorderNodes(t.left);
      InorderNodes(t.right);
      var a, b := Inorder(t.left), Inorder(t.right);
      NoDupParts(a, t.node, b);
      forall i | 0 <= i < |a| && a[i] in b ensures a[i] in Nodes(t.left) * Nodes(t.right) {}
    }
  }

  /** Trees with the same in-order sequence have the same nodes, each as often. */
  lemma SameInorder(t: Tree, u: Tree)
    requires Inorder(t) == Inorder(u)
    ensures Nodes(t) == Nodes(u) && Size(t) == Size(u)
    ensures Distinct(t) <==> Distinct(u)
  {
    InorderNodes(t);
    InorderNodes(u);
    InorderDistinct(t);
    InorderDistinct(u);
  }

  lemma SeqRegroup<T>(a: seq<T>, x: T, b: seq<T>, y: T, d: seq<T>)
    ensures a + [x] + (b + [y] + d) == a + [x] + b + [y] + d
  {
  }

  // ----- Locating a node -----

  datatype Zip = Zip(ctx: Ctx, sub: Tree)

  /** The zipper at node `n` of the subtree `t`, which sits in the hole of `up`. */
  function Locate(up: Ctx, t: Tree, n: Ptr): (z: Zip)
    requires n in Nodes(t)
    ensures z.sub.Node? && z.sub.node == n && Plug(z.ctx, z.sub) == Plug(up, t)
    decreases t
  {
    if t.node == n then Zip(up, t)
    else if n in Nodes(t.left) then Locate(In(L, t.node, t.red, t.right, up), t.left, n)
    else Locate(In(R, t.node, t.red, t.left, up), t.right, n)
  }

  /** A node has only one place in a tree without duplicates. */
  lemma {:induction false} LocateUnique(c: Ctx, t: Tree, n: Ptr)
    requires Distinct(Plug(c, t)) && n in Nodes(t) && n in Nodes(Plug(c, t))
    ensures Locate(Root, Plug(c, t), n) == Locate(c, t, n)
    decreases c
  {
    if c.In? {
      var j := Join(c.side, t, c.node, c.red, c.sib);
      PlugNodes(c.up, j);
      LocateUnique(c.up, j, n);
      PlugNodes(c, t);
    }
  }

  /** Below a located node are the trees at which its children are located. */
  lemma KidLocated(t: Tree, n: Ptr, side: Side)
    requires Distinct(t) && n in Nodes(t)
    ensures var k := Near(side, Locate(Root, t, n).sub);
            k.Node? ==> k.node in Nodes(t) && Locate(Root, t, k.node).sub == k && Size(k) < Size(Locate(Root, t, n).sub)
  {
    var z := Locate(Root, t, n);
    var k := Near(side, z.sub);
    if k.Node? {
      var c := In(side, n, z.sub.red, Far(side, z.sub), z.ctx);
      assert Plug(c, k) == t;
      PlugNodes(c, k);
      LocateUnique(c, k, k.node);
    }
  }
}
