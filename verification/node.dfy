/** The vertex class of the visualisation's directed graphs (`visualization.Node`). */
module Visualization {
  import opened JavaInt
  import opened Shape

  /** `getNode` fails the way `ArrayList.get` does. */
  datatype Error = IndexOutOfBounds(index: int, size: int)

  datatype Result<T> = Ok(value: T) | Err(error: Error)

  /** `rank` witnesses that the edges below its nodes are acyclic and free of null:
      every edge of a ranked node is a ranked node of strictly smaller rank.
      This is what `getNumNodes` needs to return instead of throwing. */
  ghost predicate Ranked(rank: map<Node, nat>)
    reads rank.Keys
  {
    forall n, i | n in rank && 0 <= i < |n.edges| ::
      n.edges[i] != null && n.edges[i] in rank && rank[n.edges[i]] < rank[n]
  }

  /** The tree a ranked node unfolds to, one subtree per edge in edge order. */
  ghost function Unfold(n: Node, rank: map<Node, nat>): (t: Tree)
    reads rank.Keys
    requires Ranked(rank) && n in rank
    ensures |t.kids| == |n.edges|
    decreases rank[n]
  {
    Tree(seq(|n.edges|, i requires 0 <= i < |n.edges| && Ranked(rank) && n in rank reads rank.Keys =>
      Unfold(n.edges[i], rank)))
  }

  /** The ranking is only a witness: any two rankings of a node unfold it alike, so
      the count `getNumNodes` returns depends on the heap alone. */
  lemma {:induction false} UnfoldAnyRank(n: Node, r1: map<Node, nat>, r2: map<Node, nat>)
    requires Ranked(r1) && n in r1
    requires Ranked(r2) && n in r2
    ensures Unfold(n, r1) == Unfold(n, r2)
    decreases r1[n]
  {
    forall i | 0 <= i < |n.edges| ensures Unfold(n, r1).kids[i] == Unfold(n, r2).kids[i] {
      UnfoldAnyRank(n.edges[i], r1, r2);
    }
  }

  class Node {
    /** The node's key (in this application a developer's name); there is no setter. */
    const key: string
    var parent: Node?
    /** The out-edges in the order they were added; duplicates, cycles and null allowed. */
    var edges: seq<Node?>
    var rgb: array?<i32>
    var lat: real
    var longt: real
    var complexity: i32
    var depth: i32

    /** A node without a parent. */
    constructor (name: string)
      ensures GetName() == name && GetParent() == null && GetEdges() == []
      ensures GetColor() != null && fresh(GetColor()) && GetColor()[..] == [0, 0, 0]
      ensures GetLat() == 0.0 && GetLongt() == 0.0 && GetComplexity() == 0 && GetDepth() == 0
    {
      key := name;
      parent := null;
      edges := [];
      rgb := new i32[3](_ => 0);
      lat, longt := 0.0, 0.0;
      complexity, depth := 0, 0;
    }

    /** A node whose parent is `nodeParent`; the parent's edges are left as they were. */
    constructor WithParent(name: string, nodeParent: Node?)
      ensures GetName() == name && GetParent() == nodeParent && GetEdges() == []
      ensures nodeParent != null ==> nodeParent.edges == old(nodeParent.edges)
      ensures GetColor() != null && fresh(GetColor()) && GetColor()[..] == [0, 0, 0]
      ensures GetLat() == 0.0 && GetLongt() == 0.0 && GetComplexity() == 0 && GetDepth() == 0
    {
      key := name;
      edges := [];
      parent := nodeParent;
      rgb := new i32[3](_ => 0);
      lat, longt := 0.0, 0.0;
      complexity, depth := 0, 0;
    }

    /** The colour array itself, not a copy. */
    function GetColor(): array?<i32>
      reads this
    {
      rgb
    }

    /** Keeps the array it is given, so later writes to `c` show through `GetColor`. */
    method SetColor(c: array?<i32>)
      modifies this`rgb
      ensures GetColor() == c
    {
      rgb := c;
    }

    function GetParent(): Node?
      reads this
    {
      parent
    }

    /** Changes the back reference only; neither parent's edges are touched. */
    method SetParent(p: Node?)
      modifies this`parent
      ensures GetParent() == p
    {
      parent := p;
    }

    function GetName(): string
      reads this
    {
      key
    }

    /** The `i`-th edge, or the error `ArrayList.get` throws when `i` is out of range. */
    function GetNode(i: i32): (r: Result<Node?>)
      reads this
      ensures r.Ok? <==> 0 <= i as int < |edges|
      ensures r.Ok? ==> r.value == edges[i]
      ensures r.Err? ==> r.error == IndexOutOfBounds(i as int, |edges|)
    {
      if 0 <= i as int < |edges| then Ok(edges[i]) else Err(IndexOutOfBounds(i as int, |edges|))
    }

    /** The edge list, in insertion order: the view that indexed lookup reads. */
    function GetEdges(): (r: seq<Node?>)
      reads this
      ensures forall k :: 0 <= k < |r| && k < 0x8000_0000 ==> GetNode(k as i32) == Ok(r[k])
    {
      edges
    }

    /** Appends one edge; no duplicate, null or cycle check, and no other field changes. */
    method AddEdge(node: Node?)
      modifies this`edges
      ensures GetEdges() == old(GetEdges()) + [node]
    {
      edges := edges + [node];
    }

    function GetLat(): real
      reads this
    {
      lat
    }

    function GetLongt(): real
      reads this
    {
      longt
    }

    method SetLat(newLat: real)
      modifies this`lat
      ensures GetLat() == newLat
    {
      lat := newLat;
    }

    method SetLongt(newLongt: real)
      modifies this`longt
      ensures GetLongt() == newLongt
    {
      longt := newLongt;
    }

    /** Any value is stored, negative ones included. */
    method SetComplexity(complex: i32)
      modifies this`complexity
      ensures GetComplexity() == complex
    {
      complexity := complex;
    }

    function GetComplexity(): i32
      reads this
    {
      complexity
    }

    function GetDepth(): i32
      reads this
    {
      depth
    }

    /** Stores the level as given; it is not derived from the parent chain. */
    method SetDepth(newDepth: i32)
      modifies this`depth
      ensures GetDepth() == newDepth
    {
      depth := newDepth;
    }

    /** The number of leaf-ending paths below this node (1 for a node without edges;
        otherwise the sum over the edges, the node itself not counted), in Java's
        wrapping 32-bit arithmetic. Changes nothing: the method has no frame. */
    method GetNumNodes(ghost rank: map<Node, nat>) returns (r: i32)
      requires Ranked(rank) && this in rank
      ensures r == Wrap(NumNodes(Unfold(this, rank)))
      ensures NumNodes(Unfold(this, rank)) < 0x8000_0000 ==> r as int == NumNodes(Unfold(this, rank)) >= 1
      decreases rank[this]
    {
      ghost var shape := Unfold(this, rank);
      NumNodesPositive(shape);
      var accumulator: i32 := 0;
      var tempNum: i32;
      if |edges| == 0 {
        return 1;
      }
      var i := 0;
      while i < |edges|
        invariant 0 <= i <= |edges|
        invariant accumulator == Wrap(SumNumNodes(shape.kids[..i]))
      {
        tempNum := edges[i].GetNumNodes(rank);
        assert shape.kids[..i + 1][..i] == shape.kids[..i];
        WrapAdd(SumNumNodes(shape.kids[..i]), NumNodes(shape.kids[i]));
        accumulator := Wrap(accumulator as int + tempNum as int);
        i := i + 1;
      }
      assert shape.kids[..i] == shape.kids;
      return accumulator;
    }
  }

  /** `n` calls to `addEdge` on a fresh node: `getNode(k)` is then the `k`-th child added. */
  method AddEdgesInOrder(name: string, children: seq<Node?>) returns (n: Node)
    ensures fresh(n) && n.GetName() == name && n.GetParent() == null
    ensures n.GetEdges() == children
    ensures forall k: i32 :: 0 <= k as int < |children| ==> n.GetNode(k) == Ok(children[k])
  {
    n := new Node(name);
    var i := 0;
    while i < |children|
      invariant 0 <= i <= |children|
      invariant n.GetName() == name && n.GetParent() == null
      invariant n.GetEdges() == children[..i]
    {
      n.AddEdge(children[i]);
      i := i + 1;
    }
    assert children[..i] == children;
  }

  /** A root with two children that have no edges of their own counts 2, not 3. */
  method TwoLeafChildren() returns (r: i32)
    ensures r == 2
  {
    var root := new Node("root");
    var a := new Node.WithParent("a", root);
    var b := new Node.WithParent("b", root);
    root.AddEdge(a);
    root.AddEdge(b);
    ghost var rank := map[a := 0, b := 0, root := 1];
    assert Ranked(rank);
    assert Unfold(root, rank) == Tree([Tree([]), Tree([])]);
    TwoLeavesCountTwo();
    r := root.GetNumNodes(rank);
  }
}
