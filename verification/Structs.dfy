/**
 * Memory as the C code sees it. An address names a node (`CRBNode`) or a tree (`CRBTree`);
 * which number an address is does not matter, except that 0 is NULL.
 */
module Structs {
  type Ptr = int

  const NULL: Ptr := 0

  /**
   * The packed word `__parent_and_flags` without the colour bit: the pointer bits and the ROOT bit.
   * With the ROOT bit the pointer bits are the address of the owning tree, not of a parent node.
   */
  datatype Word = Word(raw: Ptr, isRoot: bool)

  datatype CRBNode = CRBNode(left: Ptr, right: Ptr, word: Word, red: bool)
  {
    function Parent(): Ptr {
      if word.isRoot then NULL else word.raw
    }
  }

  /** The state that `c_rbnode_init` gives to the node at `n`: its own parent, as no linked node is. */
  function Initial(n: Ptr): CRBNode {
    CRBNode(NULL, NULL, Word(n, false), false)
  }

  datatype Side = L | R

  /** A `CRBNode **`: the address of a root pointer or of a child pointer. */
  datatype Slot = RootOf(tree: Ptr) | Child(side: Side, node: Ptr)

  /** The root pointer of every tree, and the struct of every node. */
  datatype Mem = Mem(roots: map<Ptr, Ptr>, cells: map<Ptr, CRBNode>)
}
