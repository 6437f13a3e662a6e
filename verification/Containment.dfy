/** In a built tree, filters and distances that respect containment never lose a leaf. */
module Containment {
  import opened Ranges
  import opened PackedTree
  import opened Build
  import Q = Query
  import NN = Nearest

  function Boxes<L>(leaves: seq<L>, box: L -> Node): (r: seq<Node>)
    ensures |r| == |leaves| && forall i :: 0 <= i < |leaves| ==> r[i] == box(leaves[i])
  {
    seq(|leaves|, i requires 0 <= i < |leaves| => box(leaves[i]))
  }

  /** A tree as the indexer builds it: packed, every node the least box around what lies below. */
  ghost predicate Built<L>(t: RTree<Node, L>, box: L -> Node) {
    t.Shape() && Bounding(t, Boxes(t.leaves, box)) && Snug(t, Boxes(t.leaves, box))
  }

  ghost predicate OfOrder<L>(trees: seq<RTree<Node, L>>, order: nat) {
    forall z :: 0 <= z < |trees| ==> trees[z].order == order
  }

  /** The node filter accepts every box that contains the box of an accepted leaf. */
  ghost predicate Monotone<L(!new)>(fn: Node -> bool, fl: L -> bool, box: L -> Node) {
    forall n: Node, leaf: L :: fl(leaf) && n.Contains(box(leaf)) ==> fn(n)
  }

  lemma {:induction false} MonotoneKeeps<L(!new)>(t: RTree<Node, L>, box: L -> Node, fn: Node -> bool, fl: L -> bool)
    requires Built(t, box) && Monotone(fn, fl, box)
    ensures Q.Keeps(t, fn, fl)
  {
    forall h, j | 1 <= h <= t.Depth() && 0 <= j < |t.leaves| && fl(t.leaves[j]) ensures fn(AncestorNode(t, h, j)) {
      AncestorContains(t, Boxes(t.leaves, box), h, j);
    }
  }

  /** The node distance never exceeds the distance of a kept leaf inside the node. */
  ghost predicate MonotoneStatus<L(!new)>(vn: Node -> NN.Status, vl: L -> NN.Status, box: L -> Node) {
    forall n: Node, leaf: L :: n.Contains(box(leaf)) ==> NN.Bounds(vn(n), vl(leaf))
  }

  lemma {:induction false} MonotoneAdmissible<L(!new)>(t: RTree<Node, L>, box: L -> Node, vn: Node -> NN.Status,
                                                       vl: L -> NN.Status)
    requires Built(t, box) && MonotoneStatus(vn, vl, box)
    ensures NN.Admissible(t, vn, vl)
  {
    forall h, j | 1 <= h <= t.Depth() && 0 <= j < |t.leaves|
      ensures NN.Bounds(vn(AncestorNode(t, h, j)), vl(t.leaves[j]))
    {
      AncestorContains(t, Boxes(t.leaves, box), h, j);
    }
  }

  /** A node is worth visiting if its times meet `range` and its addresses (or values) can match; its key is
      its distance to `target`. */
  function NodeStatus(target: Time, range: TimeRange, m: Matcher, n: Node): NN.Status {
    if range.Disjoint(n.Times()) then NN.Ignore
    else if !m.Range(n.Addrs()) then NN.Ignore
    else NN.Keep(n.Times().MinDistance(target))
  }
}
