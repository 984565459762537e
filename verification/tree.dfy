/** The shape a `Node` and everything reachable through its edges unfold to: one
    `Tree` per node, whose children are the unfoldings of its edges, in edge order.
    A child shared by two parents, or added twice, appears once per occurrence. */
module Shape {

  datatype Tree = Tree(kids: seq<Tree>)

  /** A position below a tree: the edge index taken at each level. */
  type Path = seq<nat>

  /** What `getNumNodes` computes: 1 for a node without edges, otherwise the sum over
      its edges, in edge order, with nothing added for the node itself. */
  function NumNodes(t: Tree): nat
    decreases t, 1
  {
    if t.kids == [] then 1 else SumNumNodes(t.kids)
  }

  /** The accumulator of the loop in `getNumNodes` after it has visited `ts`. */
  function SumNumNodes(ts: seq<Tree>): nat
    decreases ts, 0
  {
    if ts == [] then 0 else SumNumNodes(ts[..|ts| - 1]) + NumNodes(ts[|ts| - 1])
  }

  /** The number of nodes in the tree, the node itself included. */
  function Size(t: Tree): nat
    decreases t, 1
  {
    1 + SumSize(t.kids)
  }

  function SumSize(ts: seq<Tree>): nat
    decreases ts, 0
  {
    if ts == [] then 0 else SumSize(ts[..|ts| - 1]) + Size(ts[|ts| - 1])
  }

  /** `p` leads from the root of `t` down to a node without children. */
  ghost predicate IsLeafPath(t: Tree, p: Path)
    decreases p
  {
    if p == [] then t.kids == []
    else p[0] < |t.kids| && IsLeafPath(t.kids[p[0]], p[1..])
  }

  /** Every path in `ps`, with `i` put in front. */
  function Under(i: nat, ps: seq<Path>): seq<Path>
  {
    seq(|ps|, j requires 0 <= j < |ps| => [i] + ps[j])
  }

  /** The leaf-ending paths of `t`, leftmost first. */
  function LeafPaths(t: Tree): seq<Path>
    decreases t, 1
  {
    if t.kids == [] then [[]] else LeafPathsOf(t.kids)
  }

  /** The leaf-ending paths below a node whose children are `ts`. */
  function LeafPathsOf(ts: seq<Tree>): seq<Path>
    decreases ts, 0
  {
    if ts == [] then []
    else LeafPathsOf(ts[..|ts| - 1]) + Under(|ts| - 1, LeafPaths(ts[|ts| - 1]))
  }

  ghost predicate Distinct(ps: seq<Path>) {
    forall i, j :: 0 <= i < j < |ps| ==> ps[i] != ps[j]
  }

  /** `getNumNodes` never returns less than 1 (before any 32-bit wrap-around). */
  lemma {:induction false} NumNodesPositive(t: Tree)
    ensures NumNodes(t) >= 1
  {
    if t.kids != [] {
      SumNumNodesPositive(t.kids);
    }
  }

  lemma {:induction false} SumNumNodesPositive(ts: seq<Tree>)
    requires ts != []
    ensures SumNumNodes(ts) >= 1
  {
    NumNodesPositive(ts[|ts| - 1]);
  }

  /** The count `getNumNodes` returns is the number of leaf-ending paths: together with
      `LeafPathsExact` and `LeafPathsDistinct`, it counts each leaf once per way of reaching it. */
  lemma {:induction false} NumNodesCountsLeafPaths(t: Tree)
    ensures NumNodes(t) == |LeafPaths(t)|
    decreases t, 1
  {
    if t.kids != [] {
      SumCountsLeafPaths(t.kids);
    }
  }

  lemma {:induction false} SumCountsLeafPaths(ts: seq<Tree>)
    ensures SumNumNodes(ts) == |LeafPathsOf(ts)|
    decreases ts, 0
  {
    if ts != [] {
      SumCountsLeafPaths(ts[..|ts| - 1]);
      NumNodesCountsLeafPaths(ts[|ts| - 1]);
    }
  }

  /** `LeafPaths(t)` holds every leaf-ending path of `t` and nothing else. */
  lemma {:induction false} LeafPathsExact(t: Tree, p: Path)
    ensures p in LeafPaths(t) <==> IsLeafPath(t, p)
    decreases t, 1
  {
    if t.kids != [] {
      LeafPathsOfExact(t.kids, p);
      if p != [] && p[0] < |t.kids| {
        LeafPathsExact(t.kids[p[0]], p[1..]);
      }
    }
  }

  /** A path is below the children `ts` exactly when it starts with an index of `ts`
      and goes on as a leaf path of that child's `LeafPaths`. */
  lemma {:induction false} LeafPathsOfExact(ts: seq<Tree>, p: Path)
    ensures p in LeafPathsOf(ts) <==> p != [] && p[0] < |ts| && p[1..] in LeafPaths(ts[p[0]])
    decreases ts, 0
  {
    if ts != [] {
      var n := |ts| - 1;
      var front := ts[..n];
      LeafPathsOfExact(front, p);
      var block := Under(n, LeafPaths(ts[n]));
      assert LeafPathsOf(ts) == LeafPathsOf(front) + block;
      if p in block {
        var j :| 0 <= j < |block| && block[j] == p;
        assert p[1..] == LeafPaths(ts[n])[j];
      }
      if p != [] && p[0] == n && p[1..] in LeafPaths(ts[n]) {
        var j :| 0 <= j < |LeafPaths(ts[n])| && LeafPaths(ts[n])[j] == p[1..];
        assert block[j] == p;
      }
      if p != [] && p[0] < n {
        assert front[p[0]] == ts[p[0]];
      }
    }
  }

  /** No leaf-ending path is listed twice. */
  lemma {:induction false} LeafPathsDistinct(t: Tree)
    ensures Distinct(LeafPaths(t))
    decreases t, 1
  {
    if t.kids != [] {
      LeafPathsOfDistinct(t.kids);
    }
  }

  lemma {:induction false} LeafPathsOfDistinct(ts: seq<Tree>)
    ensures Distinct(LeafPathsOf(ts))
    decreases ts, 0
  {
    if ts != [] {
      var n := |ts| - 1;
      var front := LeafPathsOf(ts[..n]);
      var inner := LeafPaths(ts[n]);
      var block := Under(n, inner);
      LeafPathsOfDistinct(ts[..n]);
      LeafPathsDistinct(ts[n]);
      assert Distinct(block) by {
        forall i, j | 0 <= i < j < |block| ensures block[i] != block[j] {
          assert block[i][1..] == inner[i] && block[j][1..] == inner[j];
        }
      }
      forall i, j | 0 <= i < |front| && 0 <= j < |block| ensures front[i] != block[j] {
        LeafPathsOfExact(ts[..n], front[i]);
        assert block[j][0] == n;
      }
      var all := front + block;
      assert LeafPathsOf(ts) == all;
      forall i, j | 0 <= i < j < |all| ensures all[i] != all[j] {
        if j < |front| {
        } else if i >= |front| {
          assert all[i] == block[i - |front|] && all[j] == block[j - |front|];
        } else {
          assert all[i] == front[i] && all[j] == block[j - |front|];
        }
      }
    }
  }

  /** The count never exceeds the number of nodes in the tree. */
  lemma {:induction false} NumNodesAtMostSize(t: Tree)
    ensures NumNodes(t) <= Size(t)
    decreases t, 1
  {
    if t.kids != [] {
      SumAtMostSumSize(t.kids);
    }
  }

  lemma {:induction false} SumAtMostSumSize(ts: seq<Tree>)
    ensures SumNumNodes(ts) <= SumSize(ts)
    decreases ts, 0
  {
    if ts != [] {
      SumAtMostSumSize(ts[..|ts| - 1]);
      NumNodesAtMostSize(ts[|ts| - 1]);
    }
  }

  /** The node itself is counted only when it has no edges: a node with edges gets
      strictly less than the size of its subtree, a node without edges exactly 1. */
  lemma {:induction false} NumNodesExcludesSelf(t: Tree)
    ensures t.kids == [] ==> NumNodes(t) == Size(t) == 1
    ensures t.kids != [] ==> NumNodes(t) < Size(t)
  {
    if t.kids != [] {
      SumAtMostSumSize(t.kids);
    }
  }

  /** The count after one more edge to a subtree `c`: a node that had no edges now
      counts only `c`; a node that had edges adds `c`'s count to its own. */
  lemma {:induction false} NumNodesAfterAppend(t: Tree, c: Tree)
    ensures NumNodes(Tree(t.kids + [c])) ==
            if t.kids == [] then NumNodes(c) else NumNodes(t) + NumNodes(c)
  {
    var ts := t.kids + [c];
    assert ts[..|ts| - 1] == t.kids;
    assert SumNumNodes(ts) == SumNumNodes(t.kids) + NumNodes(c);
  }

  /** Two leaf children give 2, where the subtree holds 3 nodes. */
  lemma TwoLeavesCountTwo()
    ensures NumNodes(Tree([Tree([]), Tree([])])) == 2
    ensures Size(Tree([Tree([]), Tree([])])) == 3
  {
  }
}
