/** The downward walks: `c_rbnode_leftmost`, `c_rbnode_rightmost`, `c_rbnode_leftdeepest`. */
module Walks {
  import opened Structs
  import opened Trees
  import opened RebalanceSpec
  import opened Layout

  function FirstOr(s: seq<Ptr>): Ptr {
    if s == [] then NULL else s[0]
  }

  function LastOr(s: seq<Ptr>): Ptr {
    if s == [] then NULL else s[|s| - 1]
  }

  /** Left subtree, right subtree, node. */
  function Postorder(t: Tree): seq<Ptr> {
    if t.Leaf? then [] else Postorder(t.left) + Postorder(t.right) + [t.node]
  }

  /** Nodes on the longest downward path. */
  function Height(t: Tree): nat {
    if t.Leaf? then 0 else 1 + if Height(t.left) > Height(t.right) then Height(t.left) else Height(t.right)
  }

  lemma {:induction false} MinFirst(t: Tree)
    requires t.Node?
    ensures |Inorder(t)| > 0 && Inorder(t)[0] == Min(t).node
  {
    if t.left.Node? { MinFirst(t.left); }
  }

  // ----- Depth -----

  function Depth(c: Ctx): nat {
    if c.Root? then 0 else 1 + Depth(c.up)
  }

  lemma {:induction false} DepthHeight(c: Ctx, t: Tree)
    ensures Depth(c) + Height(t) <= Height(Plug(c, t))
  {
    if c.In? { DepthHeight(c.up, Join(c.side, t, c.node, c.red, c.sib)); }
  }

  /** The node `r` lies `k` levels below the root of `t`. */
  ghost predicate LiesAt(t: Tree, r: Ptr, k: nat) {
    exists c, s :: Plug(c, s) == t && s.Node? && s.node == r && Depth(c) == k
  }

  /** A node has one depth. */
  lemma LiesOnce(t: Tree, r: Ptr, k: nat)
    requires Distinct(t) && LiesAt(t, r, k)
    ensures r in Nodes(t) && k == Depth(Locate(Root, t, r).ctx)
  {
    var c, s :| Plug(c, s) == t && s.Node? && s.node == r && Depth(c) == k;
    PlugNodes(c, s);
    LocateUnique(c, s, r);
  }

  function Onto(c: Ctx, d: Ctx): Ctx {
    match c
    case Root => d
    case In(side, n, red, sib, up) => In(side, n, red, sib, Onto(up, d))
  }

  lemma {:induction false} OntoPlug(c: Ctx, d: Ctx, t: Tree)
    ensures Plug(Onto(c, d), t) == Plug(d, Plug(c, t)) && Depth(Onto(c, d)) == Depth(c) + Depth(d)
    decreases c
  {
    if c.In? { OntoPlug(c.up, d, Join(c.side, t, c.node, c.red, c.sib)); }
  }

  /** From the depth in a subtree to that in the whole tree. */
  lemma LiesBelow(d: Ctx, t: Tree, r: Ptr, k: nat)
    requires LiesAt(t, r, k)
    ensures LiesAt(Plug(d, t), r, Depth(d) + k)
  {
    var c, s :| Plug(c, s) == t && s.Node? && s.node == r && Depth(c) == k;
    OntoPlug(c, d, s);
  }

  lemma LiesAbove(c: Ctx, t: Tree)
    requires c.In?
    ensures LiesAt(Plug(c, t), c.node, Depth(c) - 1)
  {
    var s := Join(c.side, t, c.node, c.red, c.sib);
    assert Plug(c.up, s) == Plug(c, t) && s.Node? && s.node == c.node;
  }

  /** `c_rbnode_leftmost`. */
  method Leftmost(m: Mem, n: Ptr, ghost t: Tree, ghost w: Word) returns (r: Ptr, ghost steps: nat)
    requires Rep(m, t, w) && n == Top(t) && NULL !in m.cells
    ensures r == FirstOr(Inorder(t)) && (t.Node? ==> r == Min(t).node) && steps <= Height(t)
    ensures n != NULL ==> r != NULL && LiesAt(t, r, steps)
  {
    r, steps := n, 0;
    ghost var s, w', c := t, w, Root;
    if r != NULL {
      while m.cells[r].left != NULL
        invariant s.Node? && Rep(m, s, w') && r == s.node && t.Node? && Min(s) == Min(t)
        invariant steps + Height(s) <= Height(t) && Plug(c, s) == t && Depth(c) == steps
        decreases s
      {
        r := m.cells[r].left;
        c, s, w', steps := In(L, s.node, s.red, s.right, c), s.left, Below(s.node), steps + 1;
      }
      MinFirst(t);
    }
  }

  /** `c_rbnode_rightmost`. */
  method Rightmost(m: Mem, n: Ptr, ghost t: Tree, ghost w: Word) returns (r: Ptr, ghost steps: nat)
    requires Rep(m, t, w) && n == Top(t) && NULL !in m.cells
    ensures r == LastOr(Inorder(t)) && steps <= Height(t)
    ensures n != NULL ==> r != NULL && LiesAt(t, r, steps)
  {
    r, steps := n, 0;
    ghost var s, w', c := t, w, Root;
    if r != NULL {
      while m.cells[r].right != NULL
        invariant s.Node? && Rep(m, s, w') && r == s.node
        invariant Inorder(t) != [] && Inorder(s) != [] && LastOr(Inorder(t)) == LastOr(Inorder(s))
        invariant steps + Height(s) <= Height(t) && Plug(c, s) == t && Depth(c) == steps
        decreases s
      {
        LastRight(s);
        r := m.cells[r].right;
        c, s, w', steps := In(R, s.node, s.red, s.left, c), s.right, Below(s.node), steps + 1;
      }
    }
  }

  lemma LastRight(s: Tree)
    requires s.Node? && s.right.Node?
    ensures Inorder(s.right) != [] && LastOr(Inorder(s)) == LastOr(Inorder(s.right))
  {
  }

  lemma {:induction false} PostorderNonempty(t: Tree)
    ensures Postorder(t) == [] <==> t.Leaf?
    ensures t.Node? ==> LastOr(Postorder(t)) == t.node
  {
  }

  /** A dereference of node `n`, allowed for the nodes `live` only. */
  function Load(m: Mem, n: Ptr, ghost live: set<Ptr>): CRBNode
    requires n in live && n in m.cells
  {
    m.cells[n]
  }

  /** `c_rbnode_leftdeepest`: it dereferences nodes of the subtree only. */
  method Leftdeepest(m: Mem, n: Ptr, ghost t: Tree, ghost w: Word, ghost live: set<Ptr>)
    returns (r: Ptr, ghost steps: nat)
    requires Rep(m, t, w) && n == Top(t) && Nodes(t) <= live && NULL !in live
    ensures r == FirstOr(Postorder(t)) && steps <= Height(t)
    ensures n != NULL ==> r != NULL && LiesAt(t, r, steps)
  {
    r, steps := n, 0;
    ghost var s, w', c := t, w, Root;
    if r != NULL {
      while true
        invariant s.Node? && Rep(m, s, w') && r == s.node && Nodes(s) <= live
        invariant FirstOr(Postorder(t)) == FirstOr(Postorder(s)) && steps + Height(s) <= Height(t)
        invariant Plug(c, s) == t && Depth(c) == steps
        decreases s
      {
        PostorderNonempty(s.left);
        PostorderNonempty(s.right);
        if Load(m, r, live).left != NULL {
          r := Load(m, r, live).left;
          c, s, w', steps := In(L, s.node, s.red, s.right, c), s.left, Below(s.node), steps + 1;
        } else if Load(m, r, live).right != NULL {
          r := Load(m, r, live).right;
          c, s, w', steps := In(R, s.node, s.red, s.left, c), s.right, Below(s.node), steps + 1;
        } else {
          break;
        }
      }
    }
  }
}
