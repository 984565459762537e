# Node: a verified model of the visualisation graph vertex

This project models `visualization.Node`, the vertex class that the visualisation uses to draw directed
graphs of named entities (developers, classes). A node has:

- a key (its name) that is fixed at construction;
- an optional parent back reference, which is never kept in step with anyone's edges;
- an append-only, ordered list of out-edges, with no check for duplicates, null or cycles;
- plain attribute slots: a colour array, latitude, longitude, complexity and depth;
- `getNumNodes`, a recursive count over the edges.

Files:

- `java_int.dfy` (module `JavaInt`): Java's 32-bit `int` and its wrapping addition.
- `tree.dfy` (module `Shape`): the value a node's reachable structure unfolds to (`Tree`), the fold
  `getNumNodes` performs (`NumNodes`), and what that fold means: the number of leaf-ending paths.
- `node.dfy` (module `Visualization`): `class Node` with the source's fields. Setters and `addEdge` are
  methods whose frame is the one field they write. Getters are functions. `getNumNodes` is a recursive
  method with the source's loop and accumulator, proved against `NumNodes`.

`getNumNodes` returns normally only when the edges below the node are acyclic and non-null; Java itself
does not check this. The model states it as a precondition: a ghost ranking `rank` under which every edge
leads to a node of smaller rank (`Ranked`). `UnfoldAnyRank` shows the result does not depend on which
ranking is chosen.

The comment above `getNumNodes` (src/visualization/Node.java:106-107) says the count includes the node
itself. The code (src/visualization/Node.java:112-120) returns 1 for a node without edges. Otherwise it
returns only the sum over the edges, so it counts leaf-ending paths. A child reached twice (shared or
added twice) is counted twice. The model follows the code. `Shape.Size` is the count the comment
describes, and `Shape.NumNodesExcludesSelf` proves the two differ for every node that has edges.

The accumulator is a Java `int`. With shared children, a small graph can have more than 2^31 - 1
leaf-ending paths, and the sum then wraps around. The model computes the count exactly and applies
`JavaInt.Wrap`. When the count fits in an `int`, the result is the exact count and is at least 1.

## Model

| member | source | states |
|---|---|---|
| `Visualization.Node.constructor` | src/visualization/Node.java:11-23 | The new node has the given name, a null parent and no edges. Its colour is a fresh 3-element array holding 0, 0, 0. Lat, longt, complexity and depth are 0. |
| `Visualization.Node.WithParent` | src/visualization/Node.java:26-31 | The new node's parent is exactly the given reference, and its edge list is empty. The parent's edge list is unchanged, because the node does not add itself to it. |
| `Visualization.Node.SetColor` | src/visualization/Node.java:33-39 | Afterwards `GetColor` returns the same array reference that was passed in. Only the `rgb` field may change. |
| `Visualization.Node.SetParent` | src/visualization/Node.java:41-47 | Afterwards `GetParent` returns the given node, or null. Only `parent` changes; no node's edges are touched. |
| `Visualization.Node.GetNode` | src/visualization/Node.java:55-58 | Succeeds exactly when `0 <= i < |edges|`, and then returns `edges[i]`. Otherwise it returns `IndexOutOfBounds(i, size)`. |
| `Visualization.Node.GetEdges` | src/visualization/Node.java:61-64 | Returns the edge sequence as a value, in insertion order. Every position of it agrees with `GetNode` at that index. |
| `Visualization.Node.AddEdge` | src/visualization/Node.java:67-70 | The new edge list is the old list followed by the argument. There is no check for duplicates, null or cycles. No other field changes. |
| `Visualization.Node.SetLat` | src/visualization/Node.java:72-83 | Afterwards `GetLat` returns the value written. Only `lat` changes. |
| `Visualization.Node.SetLongt` | src/visualization/Node.java:76-87 | Afterwards `GetLongt` returns the value written. Only `longt` changes. |
| `Visualization.Node.SetComplexity` | src/visualization/Node.java:89-96 | Afterwards `GetComplexity` returns the value written, negative values included. Only `complexity` changes. |
| `Visualization.Node.SetDepth` | src/visualization/Node.java:98-104 | Afterwards `GetDepth` returns the value written. Only `depth` changes. |
| `Visualization.Node.GetNumNodes` | src/visualization/Node.java:108-121 | For an acyclic, null-free node, the result is the 32-bit wrap of `NumNodes` of the node's unfolding. When that count fits in an `int`, the result equals it and is at least 1. Having no frame, it changes no field. |
| `Visualization.AddEdgesInOrder` | src/visualization/Node.java:55-70 | After a fresh node receives a sequence of `addEdge` calls, its edges are exactly those children in call order, and `getNode(k)` is the k-th child added. |
| `Visualization.TwoLeafChildren` | src/visualization/Node.java:108-121 | A root with two edge-less children has a count of 2, not 3. |
| `Visualization.Unfold` | src/visualization/Node.java:10 | A ranked node unfolds to a tree with exactly one child per edge, in edge order. Duplicate edges become duplicate children. |
| `Visualization.UnfoldAnyRank` | src/visualization/Node.java:108-121 | Any two acyclicity witnesses give the same unfolding, so the count depends on the heap alone. |
| `Shape.NumNodesPositive` | src/visualization/Node.java:112-120 | The count is at least 1 for every tree. |
| `Shape.NumNodesCountsLeafPaths` | src/visualization/Node.java:108-121 | The count equals the length of the list of leaf-ending paths. |
| `Shape.LeafPathsExact` | src/visualization/Node.java:108-121 | A path is in that list if and only if it leads from the root to a node with no edges. |
| `Shape.LeafPathsDistinct` | src/visualization/Node.java:108-121 | No path is listed twice, so the count is the number of distinct leaf-ending paths. |
| `Shape.NumNodesAtMostSize` | src/visualization/Node.java:106-121 | The count never exceeds the number of nodes of the unfolded tree, the node itself included and a shared child counted once per occurrence. |
| `Shape.NumNodesExcludesSelf` | src/visualization/Node.java:106-121 | For a node without edges, the count and the subtree size are both 1. A node with edges gets strictly less than its subtree size. The comment's "including itself" therefore does not hold. |
| `Shape.NumNodesAfterAppend` | src/visualization/Node.java:67-70 | After one more edge to a subtree `c`: a node that had no edges now counts only `c`. A node that already had edges adds `c`'s count to its own. |
| `Shape.TwoLeavesCountTwo` | src/visualization/Node.java:112-120 | Two leaf children give a count of 2 and a subtree size of 3. |
| `JavaInt.Wrap` | src/visualization/Node.java:117 | The result is the one 32-bit value congruent to the exact value modulo 2^32. It is the exact value whenever that fits. |
| `JavaInt.WrapAdd` | src/visualization/Node.java:117 | Adding already-wrapped partial sums gives the wrap of the exact total. This is what lets the loop's `int` accumulator be proved against the exact count. |

## Left out

- The construction of nodes from tabular rows is not modelled. The only such code (`makeNodes` in
  src/processingtest/test.java) prints row names, and its node creation is commented out. No
  parent-resolution, lookup-error or cycle-error logic exists in the code.
- `Visualization.Node.GetNumNodes`: its precondition (acyclic, no null edge below the node) excludes the
  exceptions Java would throw otherwise: `NullPointerException` on a null edge, and `StackOverflowError`
  on a cycle or a very deep chain. Those failure paths and stack depth are not modelled.
- `getEdges` returns the live `ArrayList`; the model returns the edge sequence as a value. Changes made
  through the returned list are not modelled.
- `lat`/`longt` are Java `float`s. They are modelled as `real` and only stored and returned, so no
  rounding arises.
- A `null` name (Java's `String` may be null) is not modelled; names are character sequences.
- The colour array's elements are Java `int`s (`i32`). Its length is not constrained after `setColor`,
  as in the source. The default array is fresh and holds three zeros.
