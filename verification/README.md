# c-rbtree: a verified model

c-rbtree is an intrusive red-black tree in C. The caller finds the slot for a new node; the library
links it, recolours, rotates, and unlinks nodes again, with every rotation written out by hand and
every child pointer stored in an order that keeps readers without locks out of loops. This project
models the whole mutation engine write by write, together with the walks, the iterators and the search
helpers that depend on it, and proves them correct.

How the model is built:

- **Memory** (`Structs.dfy`, `Memory.dfy`). Addresses are integers, 0 is NULL. A node is its `left` and
  `right` pointers, the packed word split into raw pointer and ROOT flag, and its colour. The class
  `Memory` holds the nodes and the root pointers of all trees, and is changed only by the primitives of the
  library (`c_rbtree_store`, `c_rbnode_set_parent_and_flags`, pop, push and swap, and the first writes of add and
  link to a node of unknown contents), one write at a time.
- **Readers** (`Lockless.dfy`, `Readers.dfy`). A ghost history records every write. Each store must name a
  closed set of nodes with the new pointee but without the written node; from this follows that no memory
  state ever contains a loop, and that an operation never leads a reader out of the nodes it is about. Lookups run
  interleaved with the recorded states; in a tree that nobody changes they are complete.
- **Trees** (`Trees.dfy`, `Layout.dfy`). Ghost algebraic trees of addresses with zippers; `Focus` says that a
  subtree lies in memory in the hole of a context. The invariants of a red-black tree are stated on the
  algebraic tree, and `Paths.dfy` proves that they are the textbook ones, path by path.
- **What the operations compute** (`PaintSpec.dfy`, `RebalanceSpec.dfy`): functions on trees and contexts, with
  proofs that they repair the tree and keep its order; `Symmetry.dfy`, `Amortised.dfy` and `Bounds.dfy` prove
  more about them.
- **The code** (`Rotations.dfy`, `Relinking.dfy`, `Folds.dfy`, `Insert.dfy`, `Remove.dfy`, `Splice.dfy`,
  `Unlink.dfy`): the methods that write memory, each proved to turn a memory that holds the old tree into one that
  holds the specified tree. Both hand-written arms of each rotation are there, store by store; `Mirrors.dfy` runs
  them on memories that are mirror images of each other and proves that they make mirrored writes. `Writes.dfy` and
  `Budget.dfy` count the recorded writes: they tie the iterations counted for the two upward loops to what is
  written, and bound the writes of whole runs.
- **The interface** (`Forest.dfy`, `Api.dfy`, `Calls.dfy`, `Runs.dfy`): the calls on a family of trees and nodes, the
  invariant of the family, what calls make of the order of the trees, and runs of calls from initialised memory.
- **Walks, loops and search** (`Walks.dfy`, `Traversals.dfy`, `Postorders.dfy`, `Iterators.dfy`, `Search.dfy`,
  `SortedMaps.dfy`).

## Model

| member | source | states |
|---|---|---|
| Memories.Memory.Store | src/c-rbtree.c:389-401 | one child or root pointer is written; with a closed set as witness, no loop arises and no reader is led out of the footprint |
| Memories.Memory.SetWord | src/c-rbtree.c:409-411 | parent, ROOT flag and colour of one node are written, which no reader notices |
| Memories.Memory.Overwrite | src/c-rbtree.c:727-729 | the writes with which add and link begin, in order, to a node that may hold anything; each leaves the memory safe for readers |
| Memories.Memory.PopRoot | src/c-rbtree.c:434-443 | the owning tree is taken out of a root's word and returned, NULL for any other node |
| Memories.Memory.PushRoot | src/c-rbtree.c:446-456 | a popped tree gets its new root, word before root pointer; nothing happens for NULL |
| Memories.Memory.SwapChild | src/c-rbtree.c:478-487 | the slot of the parent that holds the old node gets the new one; nothing happens at the root |
| Memories.Memory.constructor | src/c-rbtree.h:164-166 | initialised nodes and empty trees |
| Memories.StatesStep | src/c-rbtree.c:389-401 | the states a run goes through are one more than its writes, and each differs from the one before by a single write |
| Lockless.PutSlotSafe | src/c-rbtree.c:389-401 | an admissible store keeps memory free of loops and of dangling pointers |
| Lockless.NoLoops | src/test-parallel.c:170-211 | in a safe memory no path of child pointers meets a node twice or is longer than the number of nodes |
| Readers.EveryPrefixSafe | src/c-rbtree.c:389-401 | after every single write of an operation, descents end, and those from the root meet only the members of the tree and the node that is added or removed |
| Readers.OperationReadable | src/test-parallel.c:170-211 | every memory state since an operation began satisfies what a reader needs |
| Readers.RunReadable | src/c-rbtree.c:389-401 | so does every memory state that any run goes through, over all nodes |
| Readers.Descend | src/c-rbtree.h:322-331 | one load of a lookup, after any writes: it takes the left pointer if the key orders before the node and the right one otherwise; it uses up writes or goes down in rank, and stays among the nodes of the tree |
| Readers.ConcurrentFind | src/c-rbtree.h:316-334 | a lookup whose loads are interleaved in any way with any run of writes ends and returns NULL or a node that compares equal; if readers meet the same tree from its first load on, NULL means that no member compares equal |
| Readers.QuietElsewhere | src/c-rbtree.c:389-401 | while an operation runs on one tree, readers meet the other trees unchanged, so lookups there are complete |
| Runs.FindDuringRun | src/c-rbtree.h:316-334 | the same for a lookup in any tree during any run of calls, given the states the run goes through write by write; it is complete if it starts after the last write |
| Paths.RBMeaning | src/test-basic.c:38-47 | the recursive invariant holds if and only if all root-to-NULL paths have equally many black nodes and no red node has a red child |
| PaintSpec.LiftedPaintable | src/c-rbtree.c:642-659 | Case 3 moves the one red-red edge two levels up and breaks nothing else |
| PaintSpec.RotatedRB | src/c-rbtree.c:539-605 | Case 4 leaves a valid subtree with a black root and the old black height |
| PaintSpec.PaintedRB | src/c-rbtree.c:608-703 | painting repairs any tree whose only defect is a red-red edge at the node |
| PaintSpec.PaintedInorder | src/c-rbtree.c:608-703 | painting keeps the in-order sequence of any tree |
| PaintSpec.LinkedInorder | src/c-rbtree.c:789-806 | insertion puts the node at the position of its slot and changes nothing else in the order |
| PaintSpec.LinkedValid | src/c-rbtree.c:789-806 | insertion of a new node into any empty slot of a valid tree gives a valid tree |
| Insertion.PaintInnerTurnLeft | src/c-rbtree.c:549-554 | the inner rotation of the left arm: memory and writes in order |
| Insertion.PaintInnerTurnRight | src/c-rbtree.c:586-591 | the inner rotation of the right arm: memory and writes in order |
| Insertion.PaintOuterTurnLeft | src/c-rbtree.c:574-583 | the outer rotation of the left arm, root hand-over included: memory and writes in order |
| Insertion.PaintOuterTurnRight | src/c-rbtree.c:595-604 | the outer rotation of the right arm: memory and writes in order |
| Insertion.PaintLeft | src/c-rbtree.c:539-583 | the left arm leaves the Case 4 result in memory, by exactly the specified writes |
| Insertion.PaintRight | src/c-rbtree.c:584-605 | the right arm likewise |
| Insertion.PaintTerminal | src/c-rbtree.c:516-606 | memory holds the Case 4 result, and the writes are known exactly; the four asserts of the C code are proved in its body |
| Insertion.PaintPath | src/c-rbtree.c:608-662 | the loop ends with the painted tree in memory, or at a node that needs Case 4 and from which painting leads to the same tree by the same writes; its iterations are counted exactly |
| Insertion.LoopReads | src/c-rbtree.c:611-634 | a red parent has a black parent of its own, and the uncle found by comparing pointers is the uncle |
| Insertion.Paint | src/c-rbtree.c:664-703 | memory holds the painted tree, and the writes are known exactly |
| WriteCounts.PaintCount | src/c-rbtree.c:608-703 | painting makes exactly three writes in each counted iteration of its loop, and no more than twelve after it |
| RebalanceSpec.RecolouredRB | src/c-rbtree.c:958-981 | Case 3+4 of the loop moves the missing black node one level up, or makes up for it at a red parent |
| RebalanceSpec.TerminalRB | src/c-rbtree.c:808-935 | the rotations restore the black height the parent had, and the sibling and rotated nephew exist |
| RebalanceSpec.TerminalInorder | src/c-rbtree.c:808-935 | the rotations keep the in-order sequence |
| RebalanceSpec.RebalancedRB | src/c-rbtree.c:937-1001 | rebalancing makes up for one missing black node in any hole of an otherwise valid tree |
| RebalanceSpec.RebalancedInorder | src/c-rbtree.c:937-1001 | rebalancing keeps the in-order sequence of any tree |
| RebalanceSpec.VacatedInorder | src/c-rbtree.c:1075-1165 | with the successor in its place, the unlinked node is exactly what is missing from the order |
| RebalanceSpec.RemovedInorder | src/c-rbtree.c:1013-1166 | unlinking takes exactly one node out of the order and replaces or copies no other |
| RebalanceSpec.RemovedRB | src/c-rbtree.c:1013-1166 | unlinking any node of a valid tree keeps every red-black invariant |
| RebalanceSpec.RemovedValid | src/c-rbtree.c:1013-1166 | both together, with the set of nodes |
| Removal.Recolour | src/c-rbtree.c:974-978 | sibling turns red and a red parent black, in memory |
| Removal.RebalancePath | src/c-rbtree.c:937-985 | the loop carries the missing black node up until it is made up for, or to a parent that needs rotations and from which rebalancing leads to the same tree by the same writes; its iterations are counted exactly |
| Removal.PathReads | src/c-rbtree.c:940-956 | the sibling exists and is found by comparing with `previous`, and the colours read decide exactly whether to recolour |
| Removal.Case2Left | src/c-rbtree.c:821-831 | left arm: a red sibling is rotated above the parent, which turns red; the new sibling is the old near nephew |
| Removal.Case2Right | src/c-rbtree.c:889-899 | right arm likewise |
| Removal.Case5Left | src/c-rbtree.c:858-865 | left arm: the red near nephew is rotated above the sibling and hung below the parent, colours and words left for Case 6 |
| Removal.Case5Right | src/c-rbtree.c:912-919 | right arm likewise |
| Removal.Case6Left | src/c-rbtree.c:874-885 | left arm: the sibling is rotated above the parent and takes its colour, from the half-finished state Case 5 leaves as well |
| Removal.Case6Right | src/c-rbtree.c:922-933 | right arm likewise |
| Removal.BlackLeft | src/c-rbtree.c:834-885 | left arm: Cases 3+4, 5 and 6 fall through into one another, Case 3+4 with a red parent only; the assert is proved in its body |
| Removal.BlackRight | src/c-rbtree.c:902-933 | right arm likewise |
| Removal.RebalanceTerminal | src/c-rbtree.c:808-935 | memory holds the rotated subtree, with Case 2 falling through into the others, and the writes are known exactly; sibling and rotated nephew exist |
| Removal.Rebalance | src/c-rbtree.c:987-1001 | a NULL `previous` finds the short side of the first parent; memory holds the rebalanced tree, and the writes are known exactly |
| WriteCounts.RebalanceGrown | src/c-rbtree.c:937-1001 | rebalancing writes to nodes of the tree only, at least once in each counted iteration of its loop and no more than twenty-one times besides |
| Splicing.VacatedDeficient | src/c-rbtree.c:1032-1160 | a black leaf that goes away leaves exactly the defect that rebalancing repairs, at the parent it is called on |
| Splicing.DetachAdmissible | src/c-rbtree.c:1112-1121 | both stores that free a deep successor are safe for readers, though the shape is briefly shared |
| Splicing.SwappedFocus | src/c-rbtree.c:1075-1165 | the partial swap leaves memory holding the tree with the successor in place of the node |
| Unlinking.Promote | src/c-rbtree.c:1032-1073 | a node with at most one child is replaced by it; the writes are known exactly, and none but the popping of a root goes to the node itself |
| Unlinking.UnlinkChildless | src/c-rbtree.c:1037-1049 | a node without children goes; if it was black, rebalancing starts at its parent and repairs the tree |
| Unlinking.UnlinkInner | src/c-rbtree.c:1074-1166 | the successor takes place and colour of a node with two children, by exactly the specified writes; the result is where to rebalance |
| Unlinking.UnlinkFull | src/c-rbtree.c:1074-1166 | with rebalancing, memory holds the tree without the node, which itself keeps what it held |
| Unlinking.UnlinkStale | src/c-rbtree.c:1013-1166 | memory holds the tree without the node, in all four cases and by exactly the specified writes; the node keeps its pointers and its colour, and only a root forgets its tree |
| Unlinking.UnlinkCount | src/c-rbtree.c:1013-1166 | these writes are at least one for each counted iteration of the loop, wherever it started, and no more than thirty-one besides |
| Mirrors.KidMirror | src/c-rbtree.c:539-605 | in the mirror image of a memory, the left child pointer of a node is the right one, and the other way round |
| Mirrors.PaintTerminalMirrored | src/c-rbtree.c:539-605 | run on two memories that are mirror images, the two hand-written arms of Case 4 make mirrored writes |
| Mirrors.PaintMirrored | src/c-rbtree.c:608-703 | so does painting as a whole, and the memories are mirror images again |
| Mirrors.RebalanceTerminalMirrored | src/c-rbtree.c:812-934 | so do the two hand-written arms of the removal rotations |
| Mirrors.RebalanceMirrored | src/c-rbtree.c:937-1001 | so does rebalancing as a whole |
| Symmetry.MirrorOrder | src/c-rbtree.c:539-605 | the mirror image of a tree lists the same nodes backwards |
| Symmetry.PaintedMirror | src/c-rbtree.c:539-605 | the tree that painting leads to is mirrored as well |
| Symmetry.RebalancedMirror | src/c-rbtree.c:812-985 | the tree that rebalancing leads to is mirrored as well |
| Bounds.HeightLogarithmic | src/c-rbtree.c:77 | a valid tree of n nodes has height at most 2 log2(n + 1) |
| Bounds.Pow2Grows | src/c-rbtree.c:77 | the powers of two that this bound speaks of |
| Bounds.LinkStepsBounded | src/c-rbtree.c:690-691 | twice the iterations of the paint loop are at most the height |
| Bounds.UnlinkStepsBounded | src/c-rbtree.c:937-985 | the iterations of the rebalance loop are at most the height |
| Bounds.SameShape | src/c-rbtree.c:525-528 | trees that agree when colours are set aside have the same order, the same height and the same subtrees |
| Bounds.RotateBack | src/c-rbtree.c:525-528 | a rotation lifts the child, keeps the order, and is taken back by the opposite one |
| Bounds.InsertionRotations | src/c-rbtree.c:525-528 | colours aside, Case 4 is one rotation, or two in the bent case |
| Bounds.RemovalRotations | src/c-rbtree.c:808-935 | colours aside, the end of a removal is at most three rotations |
| Amortised.RunValid | src/c-rbtree.c:690-697 | every tree in every run of insertions and removals is valid |
| Amortised.InsertionsAmortised | src/c-rbtree.c:690-697 | in a run of insertions the recolouring loop iterates no more often than there are insertions |
| Amortised.LinkedPotential | src/c-rbtree.c:611-661 | one insertion: iterations plus change of potential are at most 2 |
| Amortised.RemovedPotential | src/c-rbtree.c:940-982 | one removal: iterations plus change of potential are at most 1 |
| Amortised.RunAmortised | src/c-rbtree.c:690-697 | in any mixed run both loops iterate at most twice per insertion and once per removal |
| Budget.RunWrites | src/c-rbtree.c:690-697 | the iterations counted for a run show in its writes, once or more each; in all there are no more than 23 writes per insertion and 37 per removal |
| Budget.Replay | src/c-rbtree.c:690-697 | such a run, carried out on memory call by call, makes the tree and the writes it stands for |
| Forests.InitiallySettled | src/c-rbtree.h:164-260 | initialised nodes and empty trees satisfy the invariant of the family |
| Forests.ConsistentStep | src/c-rbtree.c:415-432 | an operation on one tree and its nodes keeps the invariant of the whole family |
| Forests.ConsistentSafe | src/c-rbtree.c:389-401 | a memory in which the family is in order has no loop and no dangling pointer, whatever came before |
| Forests.MemberLinked | src/c-rbtree.h:228-230 | `c_rbnode_is_linked` holds for the members of trees and for nothing else |
| Forests.RootBit | src/c-rbtree.c:415-456 | ROOT is set exactly on the roots of trees, and a root's word names the tree whose root pointer leads back |
| Api.Add | src/c-rbtree.c:768-806 | whatever the node holds: the tree becomes the specified one, with the node at the position of the slot and next to its parent in the order; the family stays consistent; the writes are known exactly, and all intermediate states are confined to the tree and the node |
| Api.Link | src/c-rbtree.c:721-732 | the same below an existing node |
| Api.LinkCount | src/c-rbtree.c:768-806 | linking makes three writes for each iteration of the paint loop and no more than seventeen besides |
| Api.Init | src/c-rbtree.h:164-166 | the node is in the unlinked state and nothing else changes |
| Api.UnlinkStaleMember | src/c-rbtree.c:1003-1166 | a member leaves its tree but keeps its pointers and colour and still counts as linked; only a root forgets its tree; it may be added again as it is, and everything else is in order |
| Api.Unlink | src/c-rbtree.h:243-248 | a member leaves its tree, order minus that one node, and is initialised, by exactly the specified writes; for NULL or an unlinked node nothing changes |
| Api.Move | src/c-rbtree.c:500-514 | the whole tree changes hands and the source is empty, by five writes; readers of either tree may meet every state since the call and find nodes of the moved tree only; the assert is proved in the body |
| Calls.EffectMeaning | src/c-rbtree.h:164-260 | what a call makes of the trees, as sequences: one node more, next to the given one; one node less, and in no tree; or the same sequence under another name; the other trees stay |
| Runs.ExecutePlace | src/c-rbtree.c:721-806 | a linking call puts the node into the tree, next to its parent in the order, and costs at most 23 writes, taken over a run |
| Runs.ExecuteDrop | src/c-rbtree.h:243-248 | an unlinking call takes the member out of its tree and initialises it, or changes nothing; it costs at most 37 writes |
| Runs.ExecuteImport | src/c-rbtree.c:500-514 | a moving call costs at most five writes, however large the tree |
| Runs.Execute | src/c-rbtree.h:164-260 | any call: the order of every tree, and who is in a tree, afterwards |
| Runs.ExecuteAll | src/c-rbtree.c:434-456 | any run of legal calls on any family keeps the invariant; the orders of all trees come out as by insertions, deletions and renamings of sequences; the members at the end are those put into a tree and not taken out since; the writes are at most 37 per call, taken over the run |
| Runs.ExecuteFresh | src/c-rbtree.h:164-260 | the same from initialised memory, where the history begins: no more than 37 writes per call in all |
| Runs.SettledMeaning | src/c-rbtree.h:206-248 | between calls a node is in at most one tree, linked exactly when it is in one, and initialised otherwise |
| Walks.Leftmost | src/c-rbtree.c:81-86 | the first node of the subtree in order; the steps are its depth |
| Walks.Rightmost | src/c-rbtree.c:100-105 | the last node of the subtree in order; the steps are its depth |
| Walks.Leftdeepest | src/c-rbtree.c:122-134 | the first node of the subtree in post-order, dereferencing the subtree only; the steps are its depth |
| Walks.LiesOnce | src/c-rbtree.c:81-134 | a node has one depth in a tree |
| Traversals.Next | src/c-rbtree.c:177-189 | the in-order successor by either branch, NULL at the end and for unlinked nodes; the steps are the difference in depth |
| Traversals.Prev | src/c-rbtree.c:203-215 | the in-order predecessor likewise |
| Traversals.First | src/c-rbtree.c:319-322 | the first member in order |
| Traversals.Last | src/c-rbtree.c:336-339 | the last member in order |
| Traversals.Neighbours | src/c-rbtree.c:167-215 | following and preceding the i-th node are the nodes at i + 1 and i - 1, NULL at the ends |
| Postorders.NextPostorder | src/c-rbtree.c:239-250 | the post-order successor, with its steps; only the node and later ones are dereferenced, so earlier ones may have been reinitialised |
| Postorders.PrevPostorder | src/c-rbtree.c:288-305 | the post-order predecessor, with its steps |
| Postorders.FirstPostorder | src/c-rbtree.c:356-359 | the first member in post-order |
| Postorders.LastPostorder | src/c-rbtree.c:375-378 | the last member in post-order |
| Postorders.PostorderNodes | src/c-rbtree.c:217-237 | recursive post-order lists every node of the tree exactly once |
| Postorders.PostorderChildrenFirst | src/c-rbtree.c:217-237 | every node comes after all nodes below it, and what is below it on the left before what is below it on the right |
| Iterators.NextThenPrevPostorder | src/c-rbtree.c:264-269 | `c_rbnode_next_postorder` gives the successor, and `c_rbnode_prev_postorder` from there gives the node back |
| Iterators.PrevThenNextPostorder | src/c-rbtree.c:264-269 | and the other way round |
| Iterators.NextThenPrev | src/c-rbtree.c:177-215 | `c_rbnode_next` gives the successor, and `c_rbnode_prev` from there gives the node back |
| Iterators.PrevThenNext | src/c-rbtree.c:177-215 | and the other way round |
| Iterators.ForEach | src/c-rbtree.h:436-439 | visits the recursive in-order sequence |
| Iterators.ForEachPostorder | src/c-rbtree.h:458-461 | visits the recursive post-order sequence |
| Iterators.ForEachBackwards | src/c-rbtree.c:271-283 | from the root along predecessors: the post-order sequence backwards |
| Iterators.ForEachSafe | src/c-rbtree.h:446-449 | with a body that unlinks any of the nodes it visits, visits the original sequence and leaves exactly the rest |
| Iterators.KeptMembers | src/c-rbtree.h:416-424 | the rest are the nodes not unlinked; nothing if all were |
| Iterators.ForEachSafePostorderUnlink | src/c-rbtree.h:480-483 | visits every node once in post-order, leaves every node initialised and the tree empty, with readers safe throughout |
| Iterators.NextUndone | src/c-rbtree.h:480-483 | each advance step dereferences nodes still to be visited only |
| Search.FindNode | src/c-rbtree.h:316-334 | NULL or an equal member, whose depth the steps are; with a comparison that agrees with the order, NULL only if no member is equal, found out at the place where it would be |
| Search.FindSlot | src/c-rbtree.h:382-403 | a conflicting member, or an empty slot with its parent, at the depth that the steps say; with a comparison that agrees with the order, a slot just when no member is equal, and one that keeps the order |
| Search.SlotUnique | src/c-rbtree.h:382-403 | no other empty slot keeps the order |
| SortedMaps.LookupKey | src/c-rbtree.h:316-334 | finds the member with the key, NULL if there is none, as a finite map from keys to nodes would |
| SortedMaps.InsertNode | src/c-rbtree.c:742-766 | search for a slot and add: the tree has the one node more, or else a member with that key is returned and nothing changes; refines insertion into the map |
| SortedMaps.DeleteKey | src/c-rbtree.h:232-248 | search and unlink: the member with the key is returned, initialised and no longer in the tree, in which no member has the key; refines removal from the map |
| SortedMaps.RunAll | src/c-rbtree.h:382-403 | any run of insertions, removals and lookups answers like the map, at no more than 40 writes per operation and six per node there at the start |
| SortedMaps.LastWord | src/c-rbtree.h:316-403 | in these answers a lookup says what the last operation on its key left: NULL after a removal, after an insertion the node inserted or the one in the way |
| SortedMaps.FirstWord | src/c-rbtree.h:316-334 | and what the map held at the start if there was none |

## Left out

- Readers that still hold a node while it is added again without having been initialised: for such a node the history starts with the call. One node at a time may be in this state.
- Completeness of lookups in a tree that is being changed: a reader may miss nodes while a writer is at work on its tree, as the library says.
- In `c_rbtree_for_each_safe` the loop body unlinks the current node or leaves it alone; other changes to the tree by the body are not modelled.
- The runs of `Amortised.dfy` are insertions and removals on one tree; runs that move trees as well are bounded by their writes only (`Runs.ExecuteAll`).
- The bounds on writes are not tight: they add up the longest case of each part.
- Nodes and trees are not objects of their own: all structs live in one `Memory` object, indexed by address, so that one write is one step from one memory to the next. Aliasing and the order of writes are those of the C code; allocation and lifetime of nodes are not modelled.
- `c_rbnode_init` assigns a whole struct; the model writes the word, then the two child pointers.
- One writer at a time, and each store or load is one sequentially consistent step: the C memory model, `volatile` and caches are not modelled.
- Bit packing and alignment of the parent word: it is kept as its three components.
- `c_rbnode_rightdeepest`, `c_rbtree_is_empty`, the `_entry` macros, `c_rbtree_find_entry`, `c_rbnode_entry` and `c_rbtree_for_each_safe_postorder`: repeats of what is covered, or plain field reads.
- The comparison callback is a function of the node; that it might have effects or give different answers for the same node is not modelled.
- The black-count check of the repository's own test program is not used as specification: it compares black counts at nodes without children only, so a black root whose one child is a black leaf passes it. The invariant here counts paths to NULL.
- Tests, benchmarks, build files and the ptrace scaffolding.
- The comment on `c_rbnode_unlink_stale` (src/c-rbtree.c:1010-1011) points to `c_rbtree_unlink()`, which does not exist; `c_rbnode_unlink` is what the model follows.
