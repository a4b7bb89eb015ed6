/** The textbook red-black properties, said path by path. */
module Paths {
  import opened Structs
  import opened Trees

  /** The path leads from the root to a NULL child. */
  predicate ToNull(t: Tree, path: seq<Side>)
    decreases |path|
  {
    if t.Leaf? then path == [] else path != [] && ToNull(Near(path[0], t), path[1..])
  }

  /** Black nodes on such a path. */
  function Blacks(t: Tree, path: seq<Side>): nat
    requires ToNull(t, path)
    decreases |path|
  {
    if t.Leaf? then 0 else (if t.red then 0 else 1) + Blacks(Near(path[0], t), path[1..])
  }

  /** Every root-to-NULL path has the same number of black nodes. */
  ghost predicate EquallyBlack(t: Tree) {
    forall p, q | ToNull(t, p) && ToNull(t, q) :: Blacks(t, p) == Blacks(t, q)
  }

  /** No red node has a red child. */
  predicate NoRedRed(t: Tree) {
    t.Node? ==> (t.red ==> !IsRed(t.left) && !IsRed(t.right)) && NoRedRed(t.left) && NoRedRed(t.right)
  }

  /** The leftmost path. */
  function LeftPath(t: Tree): (path: seq<Side>)
    ensures ToNull(t, path) && Blacks(t, path) == H(t)
  {
    if t.Leaf? then []
    else
      assert ([L] + LeftPath(t.left))[1..] == LeftPath(t.left);
      [L] + LeftPath(t.left)
  }

  lemma {:induction false} RBPaths(t: Tree, path: seq<Side>)
    requires RB(t) && ToNull(t, path)
    ensures Blacks(t, path) == H(t)
    decreases |path|
  {
    if t.Node? { RBPaths(Near(path[0], t), path[1..]); }
  }

  lemma ChildPath(t: Tree, side: Side, path: seq<Side>)
    requires t.Node? && ToNull(Near(side, t), path)
    ensures ToNull(t, [side] + path) && Blacks(t, [side] + path) == Blacks(Near(side, t), path) + if t.red then 0 else 1
  {
  }

  lemma ChildEquallyBlack(t: Tree, side: Side)
    requires t.Node? && EquallyBlack(t)
    ensures EquallyBlack(Near(side, t))
  {
    var s := Near(side, t);
    forall p, q | ToNull(s, p) && ToNull(s, q) ensures Blacks(s, p) == Blacks(s, q) {
      ChildPath(t, side, p);
      ChildPath(t, side, q);
    }
  }

  lemma {:induction false} PathsRB(t: Tree)
    requires EquallyBlack(t) && NoRedRed(t)
    ensures RB(t)
  {
    if t.Node? {
      ChildEquallyBlack(t, L);
      ChildEquallyBlack(t, R);
      PathsRB(t.left);
      PathsRB(t.right);
      ChildPath(t, L, LeftPath(t.left));
      ChildPath(t, R, LeftPath(t.right));
    }
  }

  lemma {:induction false} RBNoRedRed(t: Tree)
    requires RB(t)
    ensures NoRedRed(t)
  {
    if t.Node? {
      RBNoRedRed(t.left);
      RBNoRedRed(t.right);
    }
  }

  /** The recursive invariant `RB` is the textbook one. */
  lemma RBMeaning(t: Tree)
    ensures RB(t) <==> EquallyBlack(t) && NoRedRed(t)
  {
    if RB(t) {
      RBNoRedRed(t);
      forall p, q | ToNull(t, p) && ToNull(t, q) ensures Blacks(t, p) == Blacks(t, q) {
        RBPaths(t, p);
        RBPaths(t, q);
      }
    }
    if EquallyBlack(t) && NoRedRed(t) { PathsRB(t); }
  }
}
