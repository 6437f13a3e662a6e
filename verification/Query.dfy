/** Lazy depth-first traversal of a packed tree that remembers its place in one shifted integer. */
module Query {
  import opened Ranges
  import opened PackedTree

  /** An enumerating iterator over one group of nodes. */
  datatype LevelIter<N> = LevelIter(items: seq<N>, next: nat)

  function Slice<T>(s: seq<T>, start: nat, g: nat): seq<T>
    requires start <= |s|
  {
    s[start..Min(start + g, |s|)]
  }

  function Shr(x: nat, order: nat): nat {
    DivMulGalois(Pow2(order), 0, x);
    x / Pow2(order)
  }

  function Shl(x: nat, order: nat): nat {
    x * Pow2(order)
  }

  /** The stack of level iterators: each holds the group of children of the node last taken from the one above. */
  ghost predicate Stacked<N, L>(t: RTree<N, L>, its: seq<LevelIter<N>>, starts: seq<nat>) {
    && |its| == |starts| <= t.Depth()
    && (|its| > 0 ==> starts[0] == 0)
    && (forall d :: 0 <= d < |its| ==> GroupAt(t, d, its[d], starts[d]))
    && (forall d :: 0 <= d < |its| - 1 ==>
            its[d].next > 0 && starts[d + 1] == (starts[d] + its[d].next - 1) * t.Group())
  }

  ghost predicate GroupAt<N, L>(t: RTree<N, L>, d: nat, it: LevelIter<N>, start: nat)
    requires d < t.Depth()
  {
    start < |t.levels[d]| && it.items == Slice(t.levels[d], start, t.Group()) && it.next <= |it.items|
  }

  /** Where a traversal stands: every leaf before `frontier` has been dealt with, none from it on. */
  ghost predicate Positioned<N, L>(t: RTree<N, L>, its: seq<LevelIter<N>>, leafIter: Option<seq<L>>, pos: nat,
                                   starts: seq<nat>, frontier: nat) {
    && Stacked(t, its, starts)
    && var top := |its| - 1;
       match leafIter
       case Some(rest) =>
         && |its| == t.Depth()
         && pos <= frontier <= Min(pos + t.Group(), |t.leaves|)
         && rest == t.leaves[frontier..Min(pos + t.Group(), |t.leaves|)]
         && pos == (if top < 0 then 0 else (starts[top] + its[top].next - 1) * t.Group())
         && (top >= 0 ==> its[top].next > 0)
       case None =>
         && pos == (if top < 0 then 0 else starts[top])
         && frontier == (if top < 0 then |t.leaves| else LeavesBefore(t, top, starts[top] + its[top].next))
  }

  /** Number of leaves below the first `n` nodes of level `d`. */
  ghost function LeavesBefore<N, L>(t: RTree<N, L>, d: nat, n: nat): nat
    requires d <= t.Depth()
  {
    Min(|t.leaves|, FirstLeaf(t.Group(), t.Depth() - d, n))
  }

  /** Start of a level's group is a multiple of the group size. */
  lemma {:induction false} StartIsMultiple<N, L>(t: RTree<N, L>, its: seq<LevelIter<N>>, starts: seq<nat>, d: nat)
    returns (m: nat)
    requires Stacked(t, its, starts) && d < |its|
    ensures starts[d] == m * t.Group()
  {
    if d == 0 {
      m := 0;
    } else {
      m := starts[d - 1] + its[d - 1].next - 1;
    }
  }

  /** Two shifts right and one left turn the start of a child group back into the start of its parent's group. */
  lemma {:induction false} ShiftBack(order: nat, m: nat, i: nat)
    requires i < Pow2(order)
    ensures Shl(Shr(Shr((m * Pow2(order) + i) * Pow2(order), order), order), order) == m * Pow2(order)
  {
    var g := Pow2(order);
    var n := m * g + i;
    GroupOf(g, n, 0);
    GroupOf(g, m, i);
  }

  /** Exhausting the leaves of a group reaches the first leaf after the node they belong to. */
  lemma {:induction false} LeafGroupEnd<N, L>(t: RTree<N, L>, n: nat)
    requires t.Depth() > 0
    ensures LeavesBefore(t, t.Depth() - 1, n + 1) == Min(n * t.Group() + t.Group(), |t.leaves|)
  {
    var g := t.Group();
    NextGroup(g, n);
    FirstLeafOne(g, n + 1);
  }

  lemma {:induction false} NextGroup(g: nat, n: nat)
    ensures (n + 1) * g == n * g + g
  {
  }

  lemma {:induction false} FirstLeafOne(g: nat, n: nat)
    ensures FirstLeaf(g, 1, n) == n * g
  {
    assert FirstLeaf(g, 0, n * g) == n * g;
  }

  /** Exhausting the children of node `n` reaches the first leaf after it. */
  lemma {:induction false} NodeGroupEnd<N, L>(t: RTree<N, L>, d: nat, n: nat)
    requires t.Shape() && 0 < d < t.Depth() && n < |t.levels[d - 1]|
    ensures n * t.Group() < |t.levels[d]|
    ensures LeavesBefore(t, d, Min(n * t.Group() + t.Group(), |t.levels[d]|)) == LeavesBefore(t, d - 1, n + 1)
  {
    var g, h := t.Group(), t.Depth() - d;
    assert t.Packs(d - 1);
    CeilDivIs(|t.levels[d]|, g, n);
    NextGroup(g, n);
    assert FirstLeaf(g, h + 1, n + 1) == FirstLeaf(g, h, (n + 1) * g);
    FirstLeafInRange(t, h, |t.levels[d]|);
    FirstLeafInRange(t, h, (n + 1) * g);
  }

  lemma {:induction false} RootEnd<N, L>(t: RTree<N, L>)
    requires t.Shape() && t.Depth() > 0
    ensures LeavesBefore(t, 0, |t.levels[0]|) == |t.leaves|
  {
    FirstLeafInRange(t, t.Depth(), |t.levels[0]|);
  }

  /** Every leaf that passes the filter lies below nodes that pass theirs. */
  ghost predicate Keeps<N(!new), L(!new)>(t: RTree<N, L>, fn: N -> bool, fl: L -> bool)
    requires t.Shape()
  {
    forall h, j :: 1 <= h <= t.Depth() && 0 <= j < |t.leaves| && fl(t.leaves[j]) ==> fn(AncestorNode(t, h, j))
  }

  ghost predicate Rejected<N, L>(t: RTree<N, L>, fl: L -> bool, from: nat, to: nat) {
    forall j :: from <= j < to && j < |t.leaves| ==> !fl(t.leaves[j])
  }

  /** Skipping a rejected node skips rejected leaves only, and at least one. */
  lemma {:induction false} SkipNode<N(!new), L(!new)>(t: RTree<N, L>, fn: N -> bool, fl: L -> bool, d: nat, n: nat)
    requires t.Shape() && Keeps(t, fn, fl) && d < t.Depth() && n < |t.levels[d]| && !fn(t.levels[d][n])
    ensures Rejected(t, fl, LeavesBefore(t, d, n), LeavesBefore(t, d, n + 1))
    ensures LeavesBefore(t, d, n) < LeavesBefore(t, d, n + 1)
  {
    var g, h := t.Group(), t.Depth() - d;
    FirstLeafInRange(t, h, n);
    FirstLeafAncestor(g, h, n, FirstLeaf(g, h, n));
    FirstLeafAncestor(g, h, n + 1, FirstLeaf(g, h, n));
    FirstLeafSelf(g, h, n);
    forall j | LeavesBefore(t, d, n) <= j < LeavesBefore(t, d, n + 1) ensures !fl(t.leaves[j]) {
      FirstLeafAncestor(g, h, n, j);
      FirstLeafAncestor(g, h, n + 1, j);
      assert AncestorNode(t, h, j) == t.levels[d][n];
    }
  }

  lemma {:induction false} FirstLeafSelf(g: nat, h: nat, n: nat)
    requires g > 0
    ensures Ancestor(g, h, FirstLeaf(g, h, n)) == n
  {
    if h > 0 {
      FirstLeafSelf(g, h - 1, n * g);
      GroupOf(g, n, 0);
    }
  }

  ghost predicate Exhausted<N, L>(its: seq<LevelIter<N>>, leafIter: Option<seq<L>>) {
    match leafIter
    case Some(rest) => rest == []
    case None => its == [] || its[|its| - 1].next == |its[|its| - 1].items|
  }

  // ---- the transitions of the traversal ----

  lemma {:induction false} LeafEnd<N, L>(t: RTree<N, L>, its: seq<LevelIter<N>>, pos: nat, starts: seq<nat>,
                                         frontier: nat)
    requires t.Shape() && Positioned(t, its, Some([]), pos, starts, frontier)
    ensures Positioned(t, its, None, Shl(Shr(Shr(pos, t.order), t.order), t.order), starts, frontier)
  {
    var top := |its| - 1;
    assert frontier == Min(pos + t.Group(), |t.leaves|);
    if top < 0 {
      GroupOf(t.Group(), 0, 0);
    } else {
      var m := StartIsMultiple(t, its, starts, top);
      ShiftBack(t.order, m, its[top].next - 1);
      LeafGroupEnd(t, starts[top] + its[top].next - 1);
    }
  }

  function Advance<N>(its: seq<LevelIter<N>>): seq<LevelIter<N>>
    requires |its| > 0
  {
    its[|its| - 1 := its[|its| - 1].(next := its[|its| - 1].next + 1)]
  }

  lemma {:induction false} AdvanceStacked<N, L>(t: RTree<N, L>, its: seq<LevelIter<N>>, starts: seq<nat>)
    requires Stacked(t, its, starts) && |its| > 0 && its[|its| - 1].next < |its[|its| - 1].items|
    ensures Stacked(t, Advance(its), starts)
    ensures starts[|its| - 1] + its[|its| - 1].next < |t.levels[|its| - 1]|
    ensures its[|its| - 1].items[its[|its| - 1].next] == t.levels[|its| - 1][starts[|its| - 1] + its[|its| - 1].next]
  {
    assert GroupAt(t, |its| - 1, its[|its| - 1], starts[|its| - 1]);
  }

  lemma {:induction false} Skip<N(!new), L(!new)>(t: RTree<N, L>, fn: N -> bool, fl: L -> bool,
                                                  its: seq<LevelIter<N>>, pos: nat, starts: seq<nat>, frontier: nat)
    returns (further: nat)
    requires t.Shape() && Keeps(t, fn, fl) && Positioned(t, its, None, pos, starts, frontier) && |its| > 0
    requires its[|its| - 1].next < |its[|its| - 1].items| && !fn(its[|its| - 1].items[its[|its| - 1].next])
    ensures Positioned(t, Advance(its), None, pos, starts, further)
    ensures frontier < further <= |t.leaves| && Rejected(t, fl, frontier, further)
  {
    var top := |its| - 1;
    AdvanceStacked(t, its, starts);
    SkipNode(t, fn, fl, top, starts[top] + its[top].next);
    further := LeavesBefore(t, top, starts[top] + its[top].next + 1);
  }

  /** `Positioned`, as one fact. */
  ghost predicate Stands<N, L>(t: RTree<N, L>, its: seq<LevelIter<N>>, leafIter: Option<seq<L>>, pos: nat,
                               starts: seq<nat>, frontier: nat)
    requires t.Shape()
  {
    exists f: nat :: f == frontier && Positioned(t, its, leafIter, pos, starts, f)
  }

  lemma {:induction false} SkipPassing<N(!new), L(!new)>(t: RTree<N, L>, fn: N -> bool, fl: L -> bool,
                                                         its: seq<LevelIter<N>>, pos: nat, starts: seq<nat>,
                                                         frontier: nat)
    returns (further: nat)
    requires t.Shape() && Keeps(t, fn, fl) && Stands(t, its, None, pos, starts, frontier) && |its| > 0
    requires its[|its| - 1].next < |its[|its| - 1].items| && !fn(its[|its| - 1].items[its[|its| - 1].next])
    ensures Stands(t, Advance(its), None, pos, starts, further) && frontier < further <= |t.leaves|
    ensures Passing(t.leaves, fl, frontier) == Passing(t.leaves, fl, further)
  {
    further := Skip(t, fn, fl, its, pos, starts, frontier);
    PassingSkips(t, fl, frontier, further);
  }

  lemma {:induction false} ChildStart<N, L>(t: RTree<N, L>, d: nat, n: nat)
    requires t.Shape() && d < t.Depth() && n < |t.levels[d]|
    ensures n * t.Group() < t.LevelLen(d + 1)
    ensures LeavesBefore(t, d + 1, n * t.Group()) == LeavesBefore(t, d, n)
    ensures d + 1 == t.Depth() ==> LeavesBefore(t, d, n) == n * t.Group()
  {
    assert t.Packs(d);
    CeilDivIs(t.LevelLen(d + 1), t.Group(), n);
    assert FirstLeaf(t.Group(), t.Depth() - d, n) == FirstLeaf(t.Group(), t.Depth() - d - 1, n * t.Group());
  }

  lemma {:induction false} PushStacked<N, L>(t: RTree<N, L>, its: seq<LevelIter<N>>, starts: seq<nat>, child: nat)
    requires Stacked(t, its, starts) && 0 < |its| < t.Depth() && its[|its| - 1].next > 0
    requires child == (starts[|its| - 1] + its[|its| - 1].next - 1) * t.Group() && child < |t.levels[|its|]|
    ensures Stacked(t, its + [LevelIter(Slice(t.levels[|its|], child, t.Group()), 0)], starts + [child])
  {
    assert GroupAt(t, |its|, LevelIter(Slice(t.levels[|its|], child, t.Group()), 0), child);
  }

  lemma {:induction false} PushPositioned<N, L>(t: RTree<N, L>, its: seq<LevelIter<N>>, starts: seq<nat>, child: nat)
    requires Stacked(t, its, starts) && 0 < |its| < t.Depth() && its[|its| - 1].next > 0
    requires child == (starts[|its| - 1] + its[|its| - 1].next - 1) * t.Group() && child < |t.levels[|its|]|
    ensures Positioned(t, its + [LevelIter(Slice(t.levels[|its|], child, t.Group()), 0)], None, child,
                       starts + [child], LeavesBefore(t, |its|, child))
  {
    PushStacked(t, its, starts, child);
  }

  lemma {:induction false} PopStacked<N, L>(t: RTree<N, L>, its: seq<LevelIter<N>>, starts: seq<nat>)
    requires Stacked(t, its, starts) && |its| > 0
    ensures Stacked(t, its[..|its| - 1], starts[..|its| - 1])
  {
  }

  /** Going down from the top iterator's next node to its children on the next node level. */
  lemma {:induction false} DescendToNodes<N, L>(t: RTree<N, L>, its: seq<LevelIter<N>>, pos: nat, starts: seq<nat>,
                                                frontier: nat, child: nat)
    requires t.Shape() && Positioned(t, its, None, pos, starts, frontier) && 0 < |its| < t.Depth()
    requires its[|its| - 1].next < |its[|its| - 1].items|
    requires child == Shl(pos + its[|its| - 1].next, t.order)
    ensures child < |t.levels[|its|]|
    ensures Positioned(t, Advance(its) + [LevelIter(Slice(t.levels[|its|], child, t.Group()), 0)], None, child,
                       starts + [child], frontier)
  {
    var top := |its| - 1;
    AdvanceStacked(t, its, starts);
    ChildStart(t, top, pos + its[top].next);
    PushPositioned(t, Advance(its), starts, child);
  }

  /** Going down from the top iterator's next node to its leaves. */
  lemma {:induction false} DescendToLeaves<N, L>(t: RTree<N, L>, its: seq<LevelIter<N>>, pos: nat, starts: seq<nat>,
                                                 frontier: nat)
    requires t.Shape() && Positioned(t, its, None, pos, starts, frontier) && 0 < |its| == t.Depth()
    requires its[|its| - 1].next < |its[|its| - 1].items|
    ensures var child := Shl(pos + its[|its| - 1].next, t.order);
      && child < |t.leaves|
      && Positioned(t, Advance(its), Some(Slice(t.leaves, child, t.Group())), child, starts, frontier)
  {
    var top := |its| - 1;
    AdvanceStacked(t, its, starts);
    ChildStart(t, top, starts[top] + its[top].next);
  }

  /** The top iterator is used up: back to the level above. */
  lemma {:induction false} Pop<N, L>(t: RTree<N, L>, its: seq<LevelIter<N>>, pos: nat, starts: seq<nat>, frontier: nat)
    requires t.Shape() && Positioned(t, its, None, pos, starts, frontier) && |its| > 0
    requires its[|its| - 1].next == |its[|its| - 1].items|
    ensures Positioned(t, its[..|its| - 1], None, Shl(Shr(Shr(pos, t.order), t.order), t.order),
            starts[..|its| - 1], frontier)
  {
    var top := |its| - 1;
    PopStacked(t, its, starts);
    assert GroupAt(t, top, its[top], starts[top]);
    if top == 0 {
      GroupOf(t.Group(), 0, 0);
      RootEnd(t);
    } else {
      PopBelowRoot(t, its, starts);
    }
  }

  lemma {:induction false} PopBelowRoot<N, L>(t: RTree<N, L>, its: seq<LevelIter<N>>, starts: seq<nat>)
    requires t.Shape() && Stacked(t, its, starts) && |its| > 1
    requires its[|its| - 1].next == |its[|its| - 1].items|
    ensures var top := |its| - 1;
      && Shl(Shr(Shr(starts[top], t.order), t.order), t.order) == starts[top - 1]
      && LeavesBefore(t, top, starts[top] + its[top].next)
              == LeavesBefore(t, top - 1, starts[top - 1] + its[top - 1].next)
  {
    var top := |its| - 1;
    var n := starts[top - 1] + its[top - 1].next - 1;
    var m := StartIsMultiple(t, its, starts, top - 1);
    assert GroupAt(t, top - 1, its[top - 1], starts[top - 1]) && GroupAt(t, top, its[top], starts[top]);
    assert starts[top] == n * t.Group();
    ShiftBack(t.order, m, its[top - 1].next - 1);
    NodeGroupEnd(t, top, n);
  }

  /** The leaves from index `from` on that pass the filter, in order. */
  ghost function Passing<L>(leaves: seq<L>, fl: L -> bool, from: nat): seq<L>
    decreases |leaves| - from
  {
    if from >= |leaves| then []
    else (if fl(leaves[from]) then [leaves[from]] else []) + Passing(leaves, fl, from + 1)
  }

  lemma {:induction false} PassingSkips<N, L>(t: RTree<N, L>, fl: L -> bool, from: nat, to: nat)
    requires from <= to <= |t.leaves| && Rejected(t, fl, from, to)
    ensures Passing(t.leaves, fl, from) == Passing(t.leaves, fl, to)
    decreases |t.leaves| - from
  {
    if from < to {
      PassingSkips(t, fl, from + 1, to);
    }
  }

  lemma {:induction false} PassingIn<L>(leaves: seq<L>, fl: L -> bool, from: nat, leaf: L)
    requires from <= |leaves|
    ensures leaf in Passing(leaves, fl, from) <==> fl(leaf) && leaf in leaves[from..]
    decreases |leaves| - from
  {
    if from < |leaves| {
      PassingIn(leaves, fl, from + 1, leaf);
      assert leaves[from..] == [leaves[from]] + leaves[from + 1..];
    }
  }

  lemma {:induction false} PassingMember<L>(leaves: seq<L>, fl: L -> bool, from: nat, leaf: L)
    ensures leaf in Passing(leaves, fl, from) <==> fl(leaf) && exists i :: from <= i < |leaves| && leaves[i] == leaf
  {
    if from <= |leaves| {
      PassingIn(leaves, fl, from, leaf);
      if i :| from <= i < |leaves| && leaves[i] == leaf {
        assert leaves[from..][i - from] == leaf;
      }
      if leaf in leaves[from..] {
        var k :| 0 <= k < |leaves[from..]| && leaves[from..][k] == leaf;
        assert leaves[from + k] == leaf;
      }
    }
  }

  /** `at` lists, in ascending order, exactly the positions from `from` on whose leaves pass. */
  ghost predicate PassAt<L>(leaves: seq<L>, fl: L -> bool, from: nat, at: seq<nat>) {
    && (forall k :: 0 <= k < |at| ==> from <= at[k] < |leaves|)
    && (forall k, m :: 0 <= k < m < |at| ==> at[k] < at[m])
    && (forall i :: from <= i < |leaves| ==> (fl(leaves[i]) <==> i in at))
  }

  ghost predicate Picks<L>(leaves: seq<L>, at: seq<nat>, r: seq<L>) {
    |r| == |at| && forall k :: 0 <= k < |at| ==> at[k] < |leaves| && r[k] == leaves[at[k]]
  }

  /** Each leaf that passes is there once, and their order is kept. */
  lemma {:induction false} PassingInOrder<L>(leaves: seq<L>, fl: L -> bool, from: nat) returns (at: seq<nat>)
    ensures PassAt(leaves, fl, from, at) && Picks(leaves, at, Passing(leaves, fl, from))
    decreases |leaves| - from
  {
    at := [];
    if from < |leaves| {
      var rest := PassingInOrder(leaves, fl, from + 1);
      at := if fl(leaves[from]) then [from] + rest else rest;
      PassAtFirst(leaves, fl, from, rest);
      PicksFirst(leaves, from, rest, Passing(leaves, fl, from + 1));
    }
  }

  lemma {:induction false} PicksFirst<L>(leaves: seq<L>, i: nat, rest: seq<nat>, r: seq<L>)
    requires i < |leaves| && Picks(leaves, rest, r)
    ensures Picks(leaves, [i] + rest, [leaves[i]] + r) && [] + r == r
  {
  }

  lemma {:induction false} PassAtFirst<L>(leaves: seq<L>, fl: L -> bool, from: nat, rest: seq<nat>)
    requires from < |leaves| && PassAt(leaves, fl, from + 1, rest)
    ensures PassAt(leaves, fl, from, if fl(leaves[from]) then [from] + rest else rest)
  {
    var at := if fl(leaves[from]) then [from] + rest else rest;
    forall i | from <= i < |leaves| ensures fl(leaves[i]) <==> i in at {
      if i == from {
        assert i !in rest;
      } else {
        assert i in at <==> i in rest;
      }
    }
  }

  class QueryIter<N(!new), L(!new)> {
    const tree: RTree<N, L>
    const filterNode: N -> bool
    const filterLeaf: L -> bool
    var levelIters: seq<LevelIter<N>>
    var leafIter: Option<seq<L>>
    var pos: nat
    ghost var frontier: nat

    ghost predicate Valid()
      reads this
    {
      exists starts :: Standing(starts)
    }

    /** `starts` are the starts of the groups on the stack. */
    ghost predicate Standing(starts: seq<nat>)
      reads this
    {
      && tree.Shape() && Keeps(tree, filterNode, filterLeaf)
      && frontier <= |tree.leaves|
      && Stands(tree, levelIters, leafIter, pos, starts, frontier)
    }

    /** What the traversal has still to yield. */
    ghost function Remaining(): seq<L>
      reads this
    {
      Passing(tree.leaves, filterLeaf, frontier)
    }

    constructor (tree: RTree<N, L>, filterNode: N -> bool, filterLeaf: L -> bool)
      requires tree.Shape() && Keeps(tree, filterNode, filterLeaf)
      ensures Valid() && this.tree == tree && this.filterNode == filterNode && this.filterLeaf == filterLeaf
      ensures Remaining() == Passing(tree.leaves, filterLeaf, 0)
    {
      this.tree, this.filterNode, this.filterLeaf := tree, filterNode, filterLeaf;
      pos, frontier := 0, 0;
      if tree.Depth() > 0 {
        levelIters, leafIter := [LevelIter(tree.levels[0], 0)], None;
      } else {
        levelIters, leafIter := [], Some(tree.leaves);
      }
      new;
      StartPositioned(tree);
      assert Standing(if tree.Depth() > 0 then [0] else []);
    }

    /** Levels entered, the leaves counting as one. */
    ghost function Height(): nat
      reads this
    {
      |levelIters| + if leafIter.Some? then 1 else 0
    }

    ghost predicate AtEnd()
      reads this
    {
      Exhausted(levelIters, leafIter)
    }

    ghost predicate AtNode()
      reads this
    {
      leafIter.None? && levelIters != [] && levelIters[|levelIters| - 1].next < |levelIters[|levelIters| - 1].items|
    }

    method TakeLeaf() returns (leaf: L)
      requires Valid() && leafIter.Some? && leafIter.value != []
      modifies this`leafIter, this`frontier
      ensures Valid() && frontier == old(frontier) + 1
      ensures old(Remaining()) == (if filterLeaf(leaf) then [leaf] else []) + Remaining()
    {
      ghost var starts :| Standing(starts);
      leaf := leafIter.value[0];
      leafIter := Some(leafIter.value[1..]);
      frontier := frontier + 1;
      assert Positioned(tree, levelIters, leafIter, pos, starts, frontier);
      assert Standing(starts);
    }

    method EraseChild()
      modifies this`pos
      ensures pos == Shl(Shr(Shr(old(pos), tree.order), tree.order), tree.order)
    {
      pos := Shr(pos, tree.order);
      pos := Shr(pos, tree.order);
      pos := Shl(pos, tree.order);
    }

    method LeaveLeaves()
      requires Valid() && leafIter == Some([])
      modifies this`leafIter, this`pos
      ensures Valid() && leafIter == None
    {
      ghost var starts :| Standing(starts);
      LeafEnd(tree, levelIters, pos, starts, frontier);
      leafIter := None;
      EraseChild();
      assert Standing(starts);
    }

    method LeaveLevel()
      requires Valid() && leafIter == None && levelIters != [] && AtEnd()
      modifies this`levelIters, this`pos
      ensures Valid() && |levelIters| == |old(levelIters)| - 1
    {
      ghost var starts :| Standing(starts);
      Pop(tree, levelIters, pos, starts, frontier);
      levelIters := levelIters[..|levelIters| - 1];
      EraseChild();
      assert Standing(starts[..|starts| - 1]);
    }

    method SkipNode()
      requires Valid() && AtNode() && !filterNode(levelIters[|levelIters| - 1].items[levelIters[|levelIters| - 1].next])
      modifies this`levelIters, this`frontier
      ensures Valid() && frontier > old(frontier) && Remaining() == old(Remaining())
    {
      ghost var starts :| Standing(starts);
      var its := Advance(levelIters);
      ghost var further := SkipPassing(tree, filterNode, filterLeaf, levelIters, pos, starts, frontier);
      levelIters, frontier := its, further;
      assert Standing(starts);
    }

    method EnterNodes(child: nat)
      requires Valid() && AtNode() && |levelIters| < tree.Depth()
      requires child == Shl(pos + levelIters[|levelIters| - 1].next, tree.order)
      modifies this`levelIters, this`pos
      ensures Valid() && !AtEnd() && |levelIters| == |old(levelIters)| + 1
    {
      ghost var starts :| Standing(starts);
      DescendToNodes(tree, levelIters, pos, starts, frontier, child);
      var group := Slice(tree.levels[|levelIters|], child, tree.Group());
      levelIters := Advance(levelIters) + [LevelIter(group, 0)];
      pos := child;
      assert Standing(starts + [child]);
    }

    method EnterLeaves(child: nat)
      requires Valid() && AtNode() && |levelIters| == tree.Depth()
      requires child == Shl(pos + levelIters[|levelIters| - 1].next, tree.order)
      modifies this`levelIters, this`leafIter, this`pos
      ensures Valid() && !AtEnd() && leafIter.Some? && |levelIters| == |old(levelIters)|
    {
      ghost var starts :| Standing(starts);
      DescendToLeaves(tree, levelIters, pos, starts, frontier);
      var its, group := Advance(levelIters), Slice(tree.leaves, child, tree.Group());
      levelIters, leafIter := its, Some(group);
      pos := child;
      assert Standing(starts);
    }

    /** Takes the top iterator's next node: skips it, or goes down into its group of children. */
    method TakeNode()
      requires Valid() && AtNode()
      modifies this
      ensures Valid() && Remaining() == old(Remaining())
      ensures frontier > old(frontier) || (frontier == old(frontier) && !AtEnd() && Height() == old(Height()) + 1)
    {
      var iter := levelIters[|levelIters| - 1];
      if !filterNode(iter.items[iter.next]) {
        SkipNode();
      } else {
        var child := Shl(pos + iter.next, tree.order);
        if |levelIters| < tree.Depth() {
          EnterNodes(child);
        } else {
          EnterLeaves(child);
        }
      }
    }

    /** Takes the top iterator's next node, or leaves the level when there is none. */
    method StepNodes()
      requires Valid() && leafIter.None? && levelIters != []
      modifies this
      ensures Valid() && Remaining() == old(Remaining())
      ensures frontier > old(frontier)
           || (frontier == old(frontier) && old(AtEnd()) && Height() < old(Height()))
           || (frontier == old(frontier) && !old(AtEnd()) && !AtEnd() && Height() > old(Height()))
    {
      var iter := levelIters[|levelIters| - 1];
      if iter.next < |iter.items| {
        TakeNode();
      } else {
        LeaveLevel();
      }
    }

    /** Yields the next leaf that passes the filter; at the end the position is back at 0. */
    method Next() returns (r: Option<L>)
      requires Valid()
      modifies this
      ensures Valid()
      ensures r.Some? ==> old(Remaining()) == [r.value] + Remaining()
      ensures r.None? ==> old(Remaining()) == [] && Remaining() == [] && pos == 0
    {
      while true
        invariant Valid() && Remaining() == old(Remaining())
        decreases |tree.leaves| - frontier, AtEnd(), if AtEnd() then Height() else tree.Depth() + 1 - Height()
      {
        if leafIter.Some? {
          if leafIter.value != [] {
            var leaf := TakeLeaf();
            if filterLeaf(leaf) {
              return Some(leaf);
            }
            continue;
          }
          LeaveLeaves();
        }
        if levelIters == [] {
          return None;
        }
        StepNodes();
      }
    }
  }

  lemma {:induction false} StartPositioned<N, L>(t: RTree<N, L>)
    requires t.Shape()
    ensures t.Depth() > 0 ==> Positioned(t, [LevelIter(t.levels[0], 0)], None, 0, [0], 0)
    ensures t.Depth() == 0 ==> Positioned(t, [], Some(t.leaves), 0, [], 0)
  {
    if t.Depth() > 0 {
      assert t.Packs(0);
      assert GroupAt(t, 0, LevelIter(t.levels[0], 0), 0);
      FirstLeafZero(t.Group(), t.Depth());
    }
  }

  lemma {:induction false} FirstLeafZero(g: nat, h: nat)
    ensures FirstLeaf(g, h, 0) == 0
  {
    if h > 0 {
      FirstLeafZero(g, h - 1);
    }
  }
}
