/** Level arithmetic of the first pass, and the bottom-up construction of the node levels. */
module Build {
  import opened Ranges
  import opened PackedTree
  import opened Sums

  // ---- grouping one level ----

  /** Bounding box of a non-empty group. */
  function Bbox(xs: seq<Node>): Node
    requires xs != []
  {
    if |xs| == 1 then xs[0] else Bbox(xs[..|xs| - 1]).Extend(xs[|xs| - 1])
  }

  lemma {:induction false} BboxContains(xs: seq<Node>, i: nat)
    requires i < |xs|
    ensures Bbox(xs).Contains(xs[i])
  {
    if i < |xs| - 1 {
      BboxContains(xs[..|xs| - 1], i);
    }
  }

  /** No smaller box holds the group. */
  lemma {:induction false} BboxIsLeast(xs: seq<Node>, box: Node)
    requires xs != [] && forall i :: 0 <= i < |xs| ==> box.Contains(xs[i])
    ensures box.Contains(Bbox(xs))
  {
    assert box.Contains(xs[|xs| - 1]);
    if |xs| > 1 {
      BboxIsLeast(xs[..|xs| - 1], box);
    }
  }

  /** Grows a box over the whole group. */
  method BboxOfNodes(xs: seq<Node>) returns (bbox: Node)
    requires xs != []
    ensures bbox == Bbox(xs) && forall i :: 0 <= i < |xs| ==> bbox.Contains(xs[i])
  {
    bbox := xs[0];
    var i := 1;
    while i < |xs|
      invariant 1 <= i <= |xs| && bbox == Bbox(xs[..i])
    {
      assert xs[..i + 1][..i] == xs[..i];
      bbox := bbox.Extend(xs[i]);
      i := i + 1;
    }
    assert xs[..i] == xs;
    forall k | 0 <= k < |xs| ensures bbox.Contains(xs[k]) {
      BboxContains(xs, k);
    }
  }

  function Chunk(g: nat, xs: seq<Node>, i: nat): seq<Node>
    requires i * g < |xs|
  {
    xs[i * g..Min(i * g + g, |xs|)]
  }

  /** The boxes of the chunks of `xs`. */
  function Group(g: nat, xs: seq<Node>): (r: seq<Node>)
    requires g > 0
    ensures |r| == CeilDiv(|xs|, g)
  {
    seq(CeilDiv(|xs|, g), i requires 0 <= i < CeilDiv(|xs|, g) => CeilDivIs(|xs|, g, i); Bbox(Chunk(g, xs, i)))
  }

  /** Every entry lies in the box of its group. */
  lemma {:induction false} GroupContains(g: nat, xs: seq<Node>, c: nat)
    requires g > 0 && c < |xs|
    ensures Parent(g, c) < |Group(g, xs)| && Group(g, xs)[Parent(g, c)].Contains(xs[c])
  {
    var i := c / g;
    DivMulGalois(g, i, c);
    DivMulGalois(g, i + 1, c);
    assert (i + 1) * g == i * g + g;
    CeilDivIs(|xs|, g, i);
    BboxContains(Chunk(g, xs, i), c - i * g);
  }

  // ---- all levels, bottom up ----

  lemma {:induction false} GroupsShrink(n: nat, g: nat)
    requires n > g >= 2
    ensures 0 < CeilDiv(n, g) < n
  {
    CeilDivIs(n, g, 0);
    CeilDivIs(n, g, n - 1);
    AtLeastDouble(n - 1, g);
  }

  lemma {:induction false} AtLeastDouble(n: nat, g: nat)
    requires g >= 2
    ensures n * g >= 2 * n
  {
    assert n * g == n * (g - 2) + 2 * n;
    if n > 0 {
      assert n * (g - 2) >= 0;
    }
  }

  /** Sizes of the node levels above `n` entries, lowest first. */
  function Sizes(g: nat, n: nat): seq<nat>
    requires g >= 2
    decreases n
  {
    if n <= g then []
    else
      GroupsShrink(n, g);
      [CeilDiv(n, g)] + Sizes(g, CeilDiv(n, g))
  }

  /** The node levels above the boxes `xs`, lowest first. */
  ghost function BottomUp(g: nat, xs: seq<Node>): seq<seq<Node>>
    requires g >= 2
    decreases |xs|
  {
    if |xs| <= g then []
    else
      GroupsShrink(|xs|, g);
      [Group(g, xs)] + BottomUp(g, Group(g, xs))
  }

  ghost function Flatten<T>(xss: seq<seq<T>>): seq<T> {
    if xss == [] then [] else xss[0] + Flatten(xss[1..])
  }

  lemma {:induction false} FlattenLength(g: nat, xs: seq<Node>)
    requires g >= 2
    ensures |Flatten(BottomUp(g, xs))| == Sum(Sizes(g, |xs|))
    decreases |xs|
  {
    if |xs| > g {
      GroupsShrink(|xs|, g);
      FlattenLength(g, Group(g, xs));
      SumFirst(CeilDiv(|xs|, g), Sizes(g, CeilDiv(|xs|, g)));
    }
  }

  // ---- the first pass: how many nodes, where each level starts ----

  datatype Level = Level(offset: nat, size: nat)

  function Reversed<T>(s: seq<T>): (r: seq<T>)
    ensures |r| == |s| && forall i :: 0 <= i < |s| ==> r[i] == s[|s| - 1 - i]
  {
    seq(|s|, i requires 0 <= i < |s| => s[|s| - 1 - i])
  }

  /** The levels with the given sizes, laid out one after the other. */
  ghost predicate LaidOut(levels: seq<Level>, sizes: seq<nat>) {
    |levels| == |sizes| && forall i :: 0 <= i < |sizes| ==> levels[i] == Level(Sum(sizes[..i]), sizes[i])
  }

  /** Counts the nodes of every level above `leafCount` leaves; the result lists the root level first. */
  method ComputeLevels(leafCount: nat, order: nat) returns (nodeCount: nat, levels: seq<Level>)
    requires order >= 1
    ensures var sizes := Sizes(Pow2(order), leafCount);
      nodeCount == Sum(sizes) && LaidOut(Reversed(levels), sizes)
  {
    var g := Pow2(order);
    Pow2AtLeast2(order);
    ghost var sizes := Sizes(g, leafCount);
    var prev := leafCount;
    nodeCount, levels := 0, [];
    ghost var done: seq<nat> := [];
    while prev > g
      invariant sizes == done + Sizes(g, prev)
      invariant nodeCount == Sum(done) && LaidOut(levels, done)
      decreases prev
    {
      var count := CeilDiv(prev, g);
      NextSize(g, prev, sizes, done, count);
      NextLevel(done, levels, count);
      levels := levels + [Level(nodeCount, count)];
      nodeCount := nodeCount + count;
      done := done + [count];
      prev := count;
    }
    LastLevel(g, prev, sizes, done);
    ReversedTwice(levels);
    levels := Reversed(levels);
  }

  lemma {:induction false} LastLevel(g: nat, prev: nat, sizes: seq<nat>, done: seq<nat>)
    requires g >= 2 && prev <= g && sizes == done + Sizes(g, prev)
    ensures sizes == done
  {
  }

  lemma {:induction false} ReversedTwice<T>(s: seq<T>)
    ensures Reversed(Reversed(s)) == s
  {
  }

  lemma {:induction false} NextSize(g: nat, prev: nat, sizes: seq<nat>, done: seq<nat>, count: nat)
    requires prev > g >= 2 && sizes == done + Sizes(g, prev) && count == CeilDiv(prev, g)
    ensures 0 < count < prev && sizes == done + [count] + Sizes(g, count)
  {
    GroupsShrink(prev, g);
    assert Sizes(g, prev) == [count] + Sizes(g, count);
  }

  /** One more level laid out. */
  lemma {:induction false} NextLevel(done: seq<nat>, levels: seq<Level>, count: nat)
    requires LaidOut(levels, done)
    ensures LaidOut(levels + [Level(Sum(done), count)], done + [count]) && Sum(done + [count]) == Sum(done) + count
  {
    LaidOutAppend(levels, done, count);
    SumAppend(done, count);
  }

  lemma {:induction false} Pow2AtLeast2(order: nat)
    requires order >= 1
    ensures Pow2(order) >= 2
  {
  }

  lemma {:induction false} LaidOutAppend(levels: seq<Level>, sizes: seq<nat>, n: nat)
    requires LaidOut(levels, sizes)
    ensures LaidOut(levels + [Level(Sum(sizes), n)], sizes + [n])
  {
    assert (sizes + [n])[..|sizes|] == sizes;
    assert forall i :: 0 <= i < |sizes| ==> (sizes + [n])[..i] == sizes[..i];
  }

  // ---- the last step of indexing: writing the nodes ----

  /** Writes the box of one group. */
  method WriteGroup(g: nat, xs: seq<Node>, out: array<Node>, at: nat, i: nat) returns (box: Node)
    requires g > 0 && i < CeilDiv(|xs|, g) && at < out.Length
    modifies out
    ensures box == Group(g, xs)[i] && out[..at + 1] == old(out[..at]) + [box]
  {
    CeilDivIs(|xs|, g, i);
    box := BboxOfNodes(Chunk(g, xs, i));
    out[at] := box;
    assert out[..at + 1] == out[..at] + [box];
  }

  method WriteLevel(g: nat, xs: seq<Node>, out: array<Node>, at: nat) returns (nodes: seq<Node>)
    requires g > 0 && at + CeilDiv(|xs|, g) <= out.Length
    modifies out
    ensures nodes == Group(g, xs)
    ensures out[..at + |nodes|] == old(out[..at]) + nodes
  {
    ghost var before := out[..at];
    nodes := [];
    var n := CeilDiv(|xs|, g);
    while |nodes| < n
      invariant |nodes| <= n && nodes == Group(g, xs)[..|nodes|]
      invariant out[..at + |nodes|] == before + nodes
    {
      var box := WriteGroup(g, xs, out, at + |nodes|, |nodes|);
      assert before + (nodes + [box]) == (before + nodes) + [box];
      nodes := nodes + [box];
    }
  }

  /** What is left to write begins with the groups of the current level. */
  lemma {:induction false} Room(g: nat, prev: seq<Node>, written: seq<Node>, all: seq<Node>)
    requires g >= 2 && |prev| > g && written + Flatten(BottomUp(g, prev)) == all
    ensures |written| + CeilDiv(|prev|, g) <= |all|
    ensures written + Group(g, prev) + Flatten(BottomUp(g, Group(g, prev))) == all
  {
    GroupsShrink(|prev|, g);
    var nodes, above := Group(g, prev), Flatten(BottomUp(g, Group(g, prev)));
    assert Flatten(BottomUp(g, prev)) == nodes + above;
    assert (written + nodes) + above == written + (nodes + above);
  }

  /** Writes all node levels, lowest first; the output is filled exactly. */
  method BuildNodes(order: nat, boxes: seq<Node>, out: array<Node>)
    requires order >= 1 && out.Length == Sum(Sizes(Pow2(order), |boxes|))
    modifies out
    ensures out[..] == Flatten(BottomUp(Pow2(order), boxes))
  {
    var g := Pow2(order);
    Pow2AtLeast2(order);
    FlattenLength(g, boxes);
    ghost var all := Flatten(BottomUp(g, boxes));
    var prev := boxes;
    var at := 0;
    while |prev| > g
      invariant 0 <= at <= out.Length && out[..at] + Flatten(BottomUp(g, prev)) == all
      decreases |prev|
    {
      GroupsShrink(|prev|, g);
      Room(g, prev, out[..at], all);
      var nodes := WriteLevel(g, prev, out, at);
      at := at + |nodes|;
      prev := nodes;
    }
    assert Flatten(BottomUp(g, prev)) == [];
    assert out[..at] == all;
    assert out[..at] == out[..];
  }

  // ---- reading the levels back ----

  ghost predicate LevelsFit(nodes: seq<Node>, levels: seq<Level>) {
    forall d :: 0 <= d < |levels| ==> levels[d].offset + levels[d].size <= |nodes|
  }

  /** The node levels as the database slices them out of the flat node section. */
  function ReadLevels(nodes: seq<Node>, levels: seq<Level>): seq<seq<Node>>
    requires LevelsFit(nodes, levels)
  {
    seq(|levels|, d requires 0 <= d < |levels| => nodes[levels[d].offset..levels[d].offset + levels[d].size])
  }

  lemma {:induction false} SliceBehind<T>(a: seq<T>, b: seq<T>, from: nat, n: nat)
    requires from + n <= |b|
    ensures (a + b)[|a| + from..|a| + from + n] == b[from..from + n]
  {
  }

  /** Where the `i`-th level from the bottom starts. */
  ghost function StartOf(g: nat, n: nat, i: nat): nat
    requires g >= 2 && i <= |Sizes(g, n)|
  {
    Sum(Sizes(g, n)[..i])
  }

  lemma {:induction false} StartStep(g: nat, n: nat, i: nat)
    requires g >= 2 && n > g && 0 < i <= |Sizes(g, n)|
    ensures i - 1 <= |Sizes(g, CeilDiv(n, g))| && StartOf(g, n, i) == CeilDiv(n, g) + StartOf(g, CeilDiv(n, g), i - 1)
  {
    GroupsShrink(n, g);
    var rest := Sizes(g, CeilDiv(n, g));
    assert Sizes(g, n)[..i] == [CeilDiv(n, g)] + rest[..i - 1];
    SumFirst(CeilDiv(n, g), rest[..i - 1]);
  }

  /** The levels above `xs`, in terms of those above the next level. */
  lemma {:induction false} NextUp(g: nat, xs: seq<Node>)
    requires g >= 2 && |xs| > g
    ensures var next := Group(g, xs);
      |next| == CeilDiv(|xs|, g) && Sizes(g, |xs|) == [|next|] + Sizes(g, |next|)
      && BottomUp(g, xs) == [next] + BottomUp(g, next)
      && Flatten(BottomUp(g, xs)) == next + Flatten(BottomUp(g, next))
  {
    GroupsShrink(|xs|, g);
  }

  lemma {:induction false} SliceOfFlatten(g: nat, xs: seq<Node>, i: nat)
    requires g >= 2 && i < |Sizes(g, |xs|)|
    ensures |BottomUp(g, xs)| == |Sizes(g, |xs|)| && |BottomUp(g, xs)[i]| == Sizes(g, |xs|)[i]
    ensures StartOf(g, |xs|, i) + Sizes(g, |xs|)[i] <= |Flatten(BottomUp(g, xs))|
    ensures Flatten(BottomUp(g, xs))[StartOf(g, |xs|, i)..StartOf(g, |xs|, i) + Sizes(g, |xs|)[i]] == BottomUp(g, xs)[i]
    decreases |xs|
  {
    NextUp(g, xs);
    GroupsShrink(|xs|, g);
    var next := Group(g, xs);
    var tail := Flatten(BottomUp(g, next));
    LengthsAgree(g, xs);
    if i > 0 {
      SliceOfFlatten(g, next, i - 1);
      StartStep(g, |xs|, i);
      SliceBehind(next, tail, StartOf(g, |next|, i - 1), Sizes(g, |xs|)[i]);
    } else {
      FirstStart(g, |xs|);
    }
  }

  lemma {:induction false} FirstStart(g: nat, n: nat)
    requires g >= 2
    ensures StartOf(g, n, 0) == 0
  {
    assert Sizes(g, n)[..0] == [];
  }

  lemma {:induction false} LengthsAgree(g: nat, xs: seq<Node>)
    requires g >= 2
    ensures |BottomUp(g, xs)| == |Sizes(g, |xs|)|
    decreases |xs|
  {
    if |xs| > g {
      GroupsShrink(|xs|, g);
      LengthsAgree(g, Group(g, xs));
    }
  }

  /** One level, read where the first pass laid it out. */
  lemma {:induction false} ReadLevel(g: nat, boxes: seq<Node>, nodes: seq<Node>, levels: seq<Level>, d: nat)
    requires g >= 2 && nodes == Flatten(BottomUp(g, boxes)) && LaidOut(Reversed(levels), Sizes(g, |boxes|))
    requires d < |levels|
    ensures levels[d].offset + levels[d].size <= |nodes| && |levels| == |BottomUp(g, boxes)|
    ensures nodes[levels[d].offset..levels[d].offset + levels[d].size] == BottomUp(g, boxes)[|levels| - 1 - d]
  {
    var i := |levels| - 1 - d;
    LengthsAgree(g, boxes);
    assert levels[d] == Reversed(levels)[i];
    SliceOfFlatten(g, boxes, i);
  }

  /** What the first pass laid out is what the builder wrote: reading back yields the built levels, root first. */
  lemma {:induction false} ReadBack(g: nat, boxes: seq<Node>, nodes: seq<Node>, levels: seq<Level>)
    requires g >= 2 && nodes == Flatten(BottomUp(g, boxes)) && LaidOut(Reversed(levels), Sizes(g, |boxes|))
    ensures LevelsFit(nodes, levels)
    ensures ReadLevels(nodes, levels) == Reversed(BottomUp(g, boxes))
  {
    LengthsAgree(g, boxes);
    forall d | 0 <= d < |levels|
      ensures levels[d].offset + levels[d].size <= |nodes|
      ensures nodes[levels[d].offset..levels[d].offset + levels[d].size] == BottomUp(g, boxes)[|levels| - 1 - d]
    {
      ReadLevel(g, boxes, nodes, levels, d);
    }
  }

  // ---- the built tree ----

  /** Level `i` from the bottom groups the level below it; the topmost fits in one group. */
  lemma {:induction false} BottomUpIs(g: nat, xs: seq<Node>, i: nat)
    requires g >= 2 && i < |BottomUp(g, xs)|
    ensures BottomUp(g, xs)[i] == Group(g, if i == 0 then xs else BottomUp(g, xs)[i - 1])
    ensures i == |BottomUp(g, xs)| - 1 ==> |BottomUp(g, xs)[i]| <= g
    ensures 0 < |BottomUp(g, xs)[i]|
    ensures |if i == 0 then xs else BottomUp(g, xs)[i - 1]| > g
    decreases |xs|
  {
    GroupsShrink(|xs|, g);
    if i > 0 {
      BottomUpIs(g, Group(g, xs), i - 1);
    }
  }

  /** Every entry of a level lies in the box of the node above it. */
  ghost predicate Bounding<L>(t: RTree<Node, L>, boxes: seq<Node>) {
    |boxes| == |t.leaves| &&
    forall d, c :: 0 <= d < t.Depth() && 0 <= c < t.LevelLen(d + 1) ==> BoundAt(t, boxes, d, c)
  }

  ghost predicate BoundAt<L>(t: RTree<Node, L>, boxes: seq<Node>, d: nat, c: nat)
    requires |boxes| == |t.leaves| && d < t.Depth() && c < t.LevelLen(d + 1)
  {
    Parent(t.Group(), c) < |t.levels[d]|
    && t.levels[d][Parent(t.Group(), c)].Contains(if d + 1 < t.Depth() then t.levels[d + 1][c] else boxes[c])
  }

  /** No level is there without need, and no node is larger than its entries need. */
  ghost predicate Snug<L>(t: RTree<Node, L>, boxes: seq<Node>) {
    |boxes| == |t.leaves| &&
    forall d :: 0 <= d < t.Depth() ==> LevelSnug(t, boxes, d)
  }

  ghost predicate LevelSnug<L>(t: RTree<Node, L>, boxes: seq<Node>, d: nat)
    requires |boxes| == |t.leaves| && d < t.Depth()
  {
    Fits(t.levels[d], t.Group(), if d + 1 < t.Depth() then t.levels[d + 1] else boxes)
  }

  /** The entries do not fit one node, and each node is the least box around its chunk of them. */
  ghost predicate Fits(nodes: seq<Node>, g: nat, xs: seq<Node>) {
    |xs| > g && forall i, box: Node :: 0 <= i < |nodes| && HoldsChunk(box, g, xs, i) ==> box.Contains(nodes[i])
  }

  /** The box contains all entries of chunk `i`. */
  ghost predicate HoldsChunk(box: Node, g: nat, xs: seq<Node>, i: nat) {
    forall c :: 0 <= c < |xs| && i * g <= c < i * g + g ==> box.Contains(xs[c])
  }

  lemma {:induction false} GroupIsLeast(g: nat, xs: seq<Node>, i: nat, box: Node)
    requires g > 0 && i < |Group(g, xs)| && HoldsChunk(box, g, xs, i)
    ensures box.Contains(Group(g, xs)[i])
  {
    CeilDivIs(|xs|, g, i);
    var chunk := Chunk(g, xs, i);
    forall k | 0 <= k < |chunk| ensures box.Contains(chunk[k]) {
      assert chunk[k] == xs[i * g + k];
    }
    BboxIsLeast(chunk, box);
  }

  lemma {:induction false} BuiltLevel<L>(t: RTree<Node, L>, boxes: seq<Node>, d: nat)
    requires t.Group() >= 2 && |boxes| == |t.leaves| && t.levels == Reversed(BottomUp(t.Group(), boxes))
    requires d < t.Depth()
    ensures LevelSnug(t, boxes, d)
  {
    var g, n := t.Group(), t.Depth();
    var below := if d + 1 < n then t.levels[d + 1] else boxes;
    BottomUpIs(g, boxes, n - 1 - d);
    assert t.levels[d] == Group(g, below);
    GroupFits(g, below);
  }

  lemma {:induction false} GroupFits(g: nat, xs: seq<Node>)
    requires |xs| > g > 0
    ensures Fits(Group(g, xs), g, xs)
  {
    forall i, box: Node | 0 <= i < |Group(g, xs)| && HoldsChunk(box, g, xs, i) ensures box.Contains(Group(g, xs)[i]) {
      GroupIsLeast(g, xs, i, box);
    }
  }

  lemma {:induction false} BuiltSnug<L>(t: RTree<Node, L>, boxes: seq<Node>)
    requires t.Group() >= 2 && |boxes| == |t.leaves| && t.levels == Reversed(BottomUp(t.Group(), boxes))
    ensures Snug(t, boxes)
  {
    forall d | 0 <= d < t.Depth() ensures LevelSnug(t, boxes, d) {
      BuiltLevel(t, boxes, d);
    }
  }

  lemma {:induction false} BuiltTree<L>(t: RTree<Node, L>, boxes: seq<Node>)
    requires t.order >= 1 && t.Group() >= 2 && |boxes| == |t.leaves|
    requires t.levels == Reversed(BottomUp(t.Group(), boxes))
    ensures t.Shape() && Bounding(t, boxes) && Snug(t, boxes)
  {
    var g := t.Group();
    var built := BottomUp(g, boxes);
    var n := |built|;
    BuiltSnug(t, boxes);
    forall d | 0 <= d < t.Depth() ensures t.Packs(d) {
      BottomUpIs(g, boxes, n - 1 - d);
    }
    if n > 0 {
      BottomUpIs(g, boxes, n - 1);
    }
    forall d, c | 0 <= d < t.Depth() && 0 <= c < t.LevelLen(d + 1) ensures BoundAt(t, boxes, d, c) {
      BottomUpIs(g, boxes, n - 1 - d);
      GroupContains(g, if d == n - 1 then boxes else built[n - 2 - d], c);
    }
  }

  // ---- the sizes of a packed tree ----

  /** Levels, root first, each packing the next one as long as it does not fit one group. */
  ghost predicate Counted(g: nat, levels: seq<seq<Node>>, n: nat)
    requires g >= 2
  {
    && (if levels == [] then n else |levels[0]|) <= g
    && forall d :: 0 <= d < |levels| ==> CountedAt(g, levels, n, d)
  }

  ghost predicate CountedAt(g: nat, levels: seq<seq<Node>>, n: nat, d: nat)
    requires g >= 2 && d < |levels|
  {
    var below := if d + 1 < |levels| then |levels[d + 1]| else n;
    below > g && |levels[d]| == CeilDiv(below, g)
  }

  lemma {:induction false} FlattenAppend<T>(xss: seq<seq<T>>, xs: seq<T>)
    ensures |Flatten(xss + [xs])| == |Flatten(xss)| + |xs|
  {
    if xss != [] {
      assert (xss + [xs])[1..] == xss[1..] + [xs];
      FlattenAppend(xss[1..], xs);
    }
  }

  lemma {:induction false} CountedSizes(g: nat, levels: seq<seq<Node>>, n: nat)
    requires g >= 2 && Counted(g, levels, n)
    ensures |levels| == |Sizes(g, n)| && |Flatten(levels)| == Sum(Sizes(g, n))
  {
    if levels != [] {
      var k := |levels| - 1;
      var upper, size := levels[..k], |levels[k]|;
      assert CountedAt(g, levels, n, k);
      forall d | 0 <= d < k ensures CountedAt(g, upper, size, d) {
        assert CountedAt(g, levels, n, d);
      }
      CountedSizes(g, upper, size);
      assert levels == upper + [levels[k]];
      FlattenAppend(upper, levels[k]);
      SumFirst(size, Sizes(g, size));
    }
  }

  /** A built tree has the levels and nodes that were scouted for its leaves. */
  lemma {:induction false} TreeCounts<L>(t: RTree<Node, L>, boxes: seq<Node>)
    requires t.Shape() && Snug(t, boxes) && t.Group() >= 2
    ensures |t.levels| == |Sizes(t.Group(), |t.leaves|)| && |Flatten(t.levels)| == Sum(Sizes(t.Group(), |t.leaves|))
  {
    var g, n := t.Group(), |t.leaves|;
    forall d | 0 <= d < t.Depth() ensures CountedAt(g, t.levels, n, d) {
      assert t.Packs(d) && LevelSnug(t, boxes, d);
    }
    CountedSizes(g, t.levels, n);
  }

  lemma {:induction false} ContainsTrans(a: Node, b: Node, c: Node)
    requires a.Contains(b) && b.Contains(c)
    ensures a.Contains(c)
  {
  }

  /** Each node bounds all the leaves below it. */
  lemma {:induction false} AncestorContains<L>(t: RTree<Node, L>, boxes: seq<Node>, h: nat, j: nat)
    requires t.Shape() && Bounding(t, boxes) && 1 <= h <= t.Depth() && j < |t.leaves|
    ensures AncestorNode(t, h, j).Contains(boxes[j])
  {
    var c := Ancestor(t.Group(), h - 1, j);
    AncestorInRange(t, h - 1, j);
    AncestorInRange(t, h, j);
    assert Ancestor(t.Group(), h, j) == Parent(t.Group(), c);
    assert BoundAt(t, boxes, t.Depth() - h, c);
    if h > 1 {
      AncestorContains(t, boxes, h - 1, j);
      ContainsTrans(AncestorNode(t, h, j), AncestorNode(t, h - 1, j), boxes[j]);
    }
  }
}
