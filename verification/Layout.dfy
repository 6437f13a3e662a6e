/** Where everything goes in the index file, and cutting the storage into one view per section. */
module Layout {
  function Times(k: nat, a: nat): nat {
    k * a
  }

  ghost predicate Multiple(n: nat, a: nat) {
    exists k: nat :: n == Times(k, a)
  }

  /** Size and alignment of the items of a section. */
  datatype Kind = Kind(size: nat, align: nat) {
    ghost predicate Valid() {
      size > 0 && align > 0 && Multiple(size, align)
    }
  }

  datatype Section = Section(start: nat, end: nat) {
    predicate IsEmpty() {
      start >= end
    }

    ghost predicate Apart(other: Section) {
      end <= other.start || other.end <= start
    }

    ghost predicate Within(lo: nat, hi: nat) {
      lo <= start <= end <= hi
    }

    /** Room for exactly `count` items, at an address fit for them. */
    ghost predicate Holds(kind: Kind, count: nat)
      requires kind.Valid()
    {
      Multiple(start, kind.align) && end == start + count * kind.size
    }
  }

  // ---- what the first pass asks for, and where it is put ----

  datatype TreeScout = TreeScout(levels: nat, nodes: nat, leaves: nat)
  datatype ListScout = ListScout(node: Kind, leaf: Kind, trees: seq<TreeScout>) {
    ghost predicate Valid() {
      node.Valid() && leaf.Valid()
    }
  }
  datatype Kinds = Kinds(header: Kind, tree: Kind, level: Kind, raw: Kind) {
    ghost predicate Valid() {
      header.Valid() && tree.Valid() && level.Valid() && raw.Valid() && raw.size == 1
    }
  }
  datatype Scout = Scout(kinds: Kinds, metadata: nat, write: ListScout, read: ListScout, registers: ListScout,
                         data: nat)
  {
    ghost predicate Valid() {
      kinds.Valid() && write.Valid() && read.Valid() && registers.Valid()
    }
  }

  datatype TreeHeader = TreeHeader(levels: Section, nodes: Section, leaves: Section)
  datatype TreeList = TreeList(headers: Section, bboxes: Section, trees: seq<TreeHeader>)
  datatype StorageLayout = StorageLayout(header: Section, metadata: Section, write: TreeList, read: TreeList,
                                         registers: TreeList, data: Section, size: nat)

  const NOWHERE: TreeHeader := TreeHeader(Section(0, 0), Section(0, 0), Section(0, 0))

  ghost predicate LevelsPlaced(trees: seq<TreeHeader>, kind: Kind, scout: seq<TreeScout>, lo: nat, hi: nat)
    requires kind.Valid()
  {
    && lo <= hi && |trees| == |scout|
    && (forall i :: 0 <= i < |trees| ==> trees[i].levels.Within(lo, hi) && trees[i].levels.Holds(kind, scout[i].levels))
    && (forall i, j :: 0 <= i < j < |trees| ==> trees[i].levels.end <= trees[j].levels.start)
  }

  ghost predicate BodyPlaced(t: TreeHeader, node: Kind, leaf: Kind, scout: TreeScout, lo: nat, hi: nat)
    requires node.Valid() && leaf.Valid()
  {
    && lo <= t.nodes.start <= t.nodes.end <= t.leaves.start <= t.leaves.end <= hi
    && t.nodes.Holds(node, scout.nodes) && t.leaves.Holds(leaf, scout.leaves)
  }

  ghost predicate BodiesPlaced(trees: seq<TreeHeader>, scout: ListScout, lo: nat, hi: nat)
    requires scout.Valid()
  {
    && lo <= hi && |trees| == |scout.trees|
    && (forall i :: 0 <= i < |trees| ==> BodyPlaced(trees[i], scout.node, scout.leaf, scout.trees[i], lo, hi))
    && (forall i, j :: 0 <= i < j < |trees| ==> trees[i].leaves.end <= trees[j].nodes.start)
  }

  ghost predicate HeadsPlaced(l: TreeList, tree: Kind, scout: ListScout, lo: nat, hi: nat)
    requires tree.Valid() && scout.Valid()
  {
    && lo <= l.headers.start <= l.headers.end <= l.bboxes.start <= l.bboxes.end <= hi
    && l.headers.Holds(tree, |scout.trees|) && l.bboxes.Holds(scout.node, |scout.trees|)
  }

  ghost predicate Ascending(c: seq<nat>) {
    |c| == 10 && forall i :: 0 <= i < 9 ==> c[i] <= c[i + 1]
  }

  /** A list of trees has its heads, its levels and its bodies in three separate regions. */
  ghost predicate ListPlaced(l: TreeList, kinds: Kinds, scout: ListScout, c: seq<nat>, k: nat)
    requires kinds.Valid() && scout.Valid() && |c| == 10 && k < 3
  {
    && HeadsPlaced(l, kinds.tree, scout, c[k], c[k + 1])
    && LevelsPlaced(l.trees, kinds.level, scout.trees, c[3 + k], c[4 + k])
    && BodiesPlaced(l.trees, scout, c[6 + k], c[7 + k])
  }

  /** The header comes first, the data section last; every section has exactly the room asked for, aligned. */
  ghost predicate PlacedAt(l: StorageLayout, s: Scout, c: seq<nat>)
    requires s.Valid()
  {
    && Ascending(c)
    && l.header == Section(0, s.kinds.header.size) && l.header.end <= l.metadata.start <= l.metadata.end <= c[0]
    && l.metadata.Holds(s.kinds.raw, s.metadata)
    && ListPlaced(l.write, s.kinds, s.write, c, 0)
    && ListPlaced(l.read, s.kinds, s.read, c, 1)
    && ListPlaced(l.registers, s.kinds, s.registers, c, 2)
    && c[9] <= l.data.start && l.data.Holds(s.kinds.raw, s.data) && l.data.end == l.size
  }

  ghost predicate Placed(l: StorageLayout, s: Scout)
    requires s.Valid()
  {
    exists c: seq<nat> :: PlacedAt(l, s, c)
  }

  lemma {:induction false} StillAligned(pos: nat, count: nat, kind: Kind)
    requires kind.Valid() && Multiple(pos, kind.align)
    ensures Multiple(pos + count * kind.size, kind.align)
  {
    var p: nat :| pos == Times(p, kind.align);
    var q: nat :| kind.size == Times(q, kind.align);
    Regroup(p, count, q, kind.align);
    assert pos + count * kind.size == Times(p + count * q, kind.align);
  }

  lemma {:induction false} Regroup(p: nat, n: nat, q: nat, a: nat)
    ensures Times(p, a) + n * Times(q, a) == Times(p + n * q, a)
  {
  }

  lemma {:induction false} NextMultiple(pos: nat, a: nat)
    requires a > 0
    ensures pos % a == 0 ==> Multiple(pos, a)
    ensures Multiple(pos - pos % a + a, a)
  {
    var k := pos / a;
    assert pos == k * a + pos % a;
    assert pos - pos % a == Times(k, a);
    assert pos - pos % a + a == Times(k + 1, a);
  }

  class LayoutBuilder {
    var pos: nat

    constructor ()
      ensures pos == 0
    {
      pos := 0;
    }

    method AddMany(kind: Kind, count: nat)
      requires kind.Valid() && Multiple(pos, kind.align)
      modifies this
      ensures pos == old(pos) + count * kind.size && Multiple(pos, kind.align)
    {
      StillAligned(pos, count, kind);
      pos := pos + count * kind.size;
    }

    method Align(kind: Kind)
      requires kind.Valid()
      modifies this
      ensures Multiple(pos, kind.align) && old(pos) <= pos < old(pos) + kind.align
    {
      var rest := pos % kind.align;
      NextMultiple(pos, kind.align);
      if rest != 0 {
        pos := pos + kind.align - rest;
      }
    }

    method PlaceSection(kind: Kind, count: nat) returns (section: Section)
      requires kind.Valid()
      modifies this
      ensures section.Holds(kind, count) && old(pos) <= section.start < old(pos) + kind.align
      ensures section.start <= section.end == pos
    {
      Align(kind);
      var start := pos;
      AddMany(kind, count);
      section := Section(start, pos);
    }

    method ListHeaders(tree: Kind, scout: ListScout) returns (l: TreeList)
      requires tree.Valid() && scout.Valid()
      modifies this
      ensures HeadsPlaced(l, tree, scout, old(pos), pos)
      ensures l.trees == seq(|scout.trees|, _ => NOWHERE)
    {
      var headers := PlaceSection(tree, |scout.trees|);
      var bboxes := PlaceSection(scout.node, |scout.trees|);
      l := TreeList(headers, bboxes, seq(|scout.trees|, _ => NOWHERE));
    }

    method TreeLevels(l: TreeList, kind: Kind, scout: seq<TreeScout>) returns (r: TreeList)
      requires kind.Valid() && |l.trees| == |scout|
      modifies this
      ensures r == l.(trees := r.trees) && LevelsPlaced(r.trees, kind, scout, old(pos), pos)
    {
      var trees := [];
      while |trees| < |l.trees|
        invariant |trees| <= |l.trees|
        invariant LevelsPlaced(trees, kind, scout[..|trees|], old(pos), pos)
      {
        var i := |trees|;
        var section := PlaceSection(kind, scout[i].levels);
        assert scout[..i + 1][..i] == scout[..i];
        trees := trees + [l.trees[i].(levels := section)];
      }
      assert scout[..|trees|] == scout;
      r := l.(trees := trees);
    }

    method NodesAndLeaves(l: TreeList, scout: ListScout) returns (r: TreeList)
      requires scout.Valid() && |l.trees| == |scout.trees|
      modifies this
      ensures r == l.(trees := r.trees) && BodiesPlaced(r.trees, scout, old(pos), pos)
      ensures forall i :: 0 <= i < |r.trees| ==> r.trees[i].levels == l.trees[i].levels
    {
      var trees := [];
      while |trees| < |l.trees|
        invariant |trees| <= |l.trees|
        invariant BodiesPlaced(trees, scout.(trees := scout.trees[..|trees|]), old(pos), pos)
        invariant forall i :: 0 <= i < |trees| ==> trees[i].levels == l.trees[i].levels
      {
        var i := |trees|;
        ghost var before := pos;
        var nodes := PlaceSection(scout.node, scout.trees[i].nodes);
        var leaves := PlaceSection(scout.leaf, scout.trees[i].leaves);
        var t := l.trees[i].(nodes := nodes, leaves := leaves);
        MoreBodies(trees, scout, i, t, old(pos), before, pos);
        trees := trees + [t];
      }
      assert scout.trees[..|trees|] == scout.trees;
      r := l.(trees := trees);
    }
  }

  lemma {:induction false} MoreBodies(trees: seq<TreeHeader>, scout: ListScout, i: nat, t: TreeHeader, lo: nat,
                                      mid: nat, hi: nat)
    requires scout.Valid() && i == |trees| < |scout.trees|
    requires BodiesPlaced(trees, scout.(trees := scout.trees[..i]), lo, mid) && mid <= hi
    requires BodyPlaced(t, scout.node, scout.leaf, scout.trees[i], mid, hi)
    ensures BodiesPlaced(trees + [t], scout.(trees := scout.trees[..i + 1]), lo, hi)
  {
    var short, long := scout.(trees := scout.trees[..i]), scout.(trees := scout.trees[..i + 1]);
    assert long.Valid() && short.Valid();
    forall j | 0 <= j < i
      ensures BodyPlaced(trees[j], long.node, long.leaf, long.trees[j], lo, hi) && trees[j].leaves.end <= mid
    {
      assert BodyPlaced(trees[j], short.node, short.leaf, short.trees[j], lo, mid);
    }
  }

  /** Filling in the bodies leaves heads and levels where they are. */
  lemma {:induction false} ListDone(l: TreeList, filled: TreeList, kinds: Kinds, scout: ListScout, c: seq<nat>, k: nat)
    requires kinds.Valid() && scout.Valid() && |c| == 10 && k < 3
    requires HeadsPlaced(l, kinds.tree, scout, c[k], c[k + 1])
    requires LevelsPlaced(l.trees, kinds.level, scout.trees, c[3 + k], c[4 + k])
    requires filled == l.(trees := filled.trees) && BodiesPlaced(filled.trees, scout, c[6 + k], c[7 + k])
    requires forall i :: 0 <= i < |filled.trees| ==> filled.trees[i].levels == l.trees[i].levels
    ensures ListPlaced(filled, kinds, scout, c, k)
  {
  }

  /** The three lists while they are laid out. */
  datatype Lists = Lists(write: TreeList, read: TreeList, registers: TreeList)

  ghost predicate AllHeads(l: Lists, s: Scout, c: seq<nat>)
    requires s.Valid() && |c| == 4
  {
    && HeadsPlaced(l.write, s.kinds.tree, s.write, c[0], c[1]) && |l.write.trees| == |s.write.trees|
    && HeadsPlaced(l.read, s.kinds.tree, s.read, c[1], c[2]) && |l.read.trees| == |s.read.trees|
    && HeadsPlaced(l.registers, s.kinds.tree, s.registers, c[2], c[3]) && |l.registers.trees| == |s.registers.trees|
  }

  ghost predicate AllLevels(l: Lists, s: Scout, c: seq<nat>)
    requires s.Valid() && |c| == 4
  {
    && LevelsPlaced(l.write.trees, s.kinds.level, s.write.trees, c[0], c[1])
    && LevelsPlaced(l.read.trees, s.kinds.level, s.read.trees, c[1], c[2])
    && LevelsPlaced(l.registers.trees, s.kinds.level, s.registers.trees, c[2], c[3])
  }

  ghost predicate AllBodies(l: Lists, s: Scout, c: seq<nat>)
    requires s.Valid() && |c| == 4
  {
    && BodiesPlaced(l.write.trees, s.write, c[0], c[1]) && BodiesPlaced(l.read.trees, s.read, c[1], c[2])
    && BodiesPlaced(l.registers.trees, s.registers, c[2], c[3])
  }

  /** Only the trees have changed. */
  ghost predicate SameHeads(l: Lists, m: Lists) {
    && m.write == l.write.(trees := m.write.trees) && m.read == l.read.(trees := m.read.trees)
    && m.registers == l.registers.(trees := m.registers.trees)
  }

  ghost predicate SameLevelsOf(l: TreeList, m: TreeList) {
    |m.trees| == |l.trees| && forall i :: 0 <= i < |m.trees| ==> m.trees[i].levels == l.trees[i].levels
  }

  method PlaceHeads(b: LayoutBuilder, s: Scout) returns (l: Lists, ghost c: seq<nat>)
    requires s.Valid()
    modifies b
    ensures |c| == 4 && c[0] == old(b.pos) && c[3] == b.pos && AllHeads(l, s, c)
  {
    ghost var c0 := b.pos;
    var write := b.ListHeaders(s.kinds.tree, s.write);
    ghost var c1 := b.pos;
    var read := b.ListHeaders(s.kinds.tree, s.read);
    ghost var c2 := b.pos;
    var registers := b.ListHeaders(s.kinds.tree, s.registers);
    l, c := Lists(write, read, registers), [c0, c1, c2, b.pos];
  }

  method PlaceLevels(b: LayoutBuilder, s: Scout, l: Lists) returns (r: Lists, ghost c: seq<nat>)
    requires s.Valid() && |l.write.trees| == |s.write.trees| && |l.read.trees| == |s.read.trees|
    requires |l.registers.trees| == |s.registers.trees|
    modifies b
    ensures |c| == 4 && c[0] == old(b.pos) && c[3] == b.pos && AllLevels(r, s, c) && SameHeads(l, r)
  {
    ghost var c0 := b.pos;
    var write := b.TreeLevels(l.write, s.kinds.level, s.write.trees);
    ghost var c1 := b.pos;
    var read := b.TreeLevels(l.read, s.kinds.level, s.read.trees);
    ghost var c2 := b.pos;
    var registers := b.TreeLevels(l.registers, s.kinds.level, s.registers.trees);
    r, c := Lists(write, read, registers), [c0, c1, c2, b.pos];
  }

  method PlaceBodies(b: LayoutBuilder, s: Scout, l: Lists) returns (r: Lists, ghost c: seq<nat>)
    requires s.Valid() && |l.write.trees| == |s.write.trees| && |l.read.trees| == |s.read.trees|
    requires |l.registers.trees| == |s.registers.trees|
    modifies b
    ensures |c| == 4 && c[0] == old(b.pos) && c[3] == b.pos && AllBodies(r, s, c) && SameHeads(l, r)
    ensures SameLevelsOf(l.write, r.write) && SameLevelsOf(l.read, r.read) && SameLevelsOf(l.registers, r.registers)
  {
    ghost var c0 := b.pos;
    var write := b.NodesAndLeaves(l.write, s.write);
    ghost var c1 := b.pos;
    var read := b.NodesAndLeaves(l.read, s.read);
    ghost var c2 := b.pos;
    var registers := b.NodesAndLeaves(l.registers, s.registers);
    r, c := Lists(write, read, registers), [c0, c1, c2, b.pos];
  }

  /** Heads, levels and bodies together. */
  lemma {:induction false} ListsDone(h: Lists, v: Lists, l: Lists, s: Scout, hc: seq<nat>, vc: seq<nat>, bc: seq<nat>,
                                     c: seq<nat>)
    requires s.Valid() && |hc| == |vc| == |bc| == 4 && hc[3] == vc[0] && vc[3] == bc[0]
    requires AllHeads(h, s, hc) && AllLevels(v, s, vc) && AllBodies(l, s, bc) && SameHeads(h, v) && SameHeads(v, l)
    requires SameLevelsOf(v.write, l.write) && SameLevelsOf(v.read, l.read) && SameLevelsOf(v.registers, l.registers)
    requires c == [hc[0], hc[1], hc[2], hc[3], vc[1], vc[2], vc[3], bc[1], bc[2], bc[3]]
    ensures Ascending(c)
    ensures ListPlaced(l.write, s.kinds, s.write, c, 0) && ListPlaced(l.read, s.kinds, s.read, c, 1)
    ensures ListPlaced(l.registers, s.kinds, s.registers, c, 2)
  {
    ListDone(v.write, l.write, s.kinds, s.write, c, 0);
    ListDone(v.read, l.read, s.kinds, s.read, c, 1);
    ListDone(v.registers, l.registers, s.kinds, s.registers, c, 2);
  }

  /** Lays out the whole file. */
  method BuildStorageLayout(s: Scout) returns (l: StorageLayout)
    requires s.Valid()
    ensures Placed(l, s)
  {
    var b := new LayoutBuilder();
    assert 0 == Times(0, s.kinds.header.align);
    b.AddMany(s.kinds.header, 1);
    var header := Section(0, b.pos);
    var metadata := b.PlaceSection(s.kinds.raw, s.metadata);
    var heads, levels, lists;
    ghost var hc, vc, bc;
    heads, hc := PlaceHeads(b, s);
    levels, vc := PlaceLevels(b, s, heads);
    lists, bc := PlaceBodies(b, s, levels);
    ghost var c := [hc[0], hc[1], hc[2], hc[3], vc[1], vc[2], vc[3], bc[1], bc[2], bc[3]];
    ListsDone(heads, levels, lists, s, hc, vc, bc, c);
    var data := b.PlaceSection(s.kinds.raw, s.data);
    l := StorageLayout(header, metadata, lists.write, lists.read, lists.registers, data, b.pos);
    assert PlacedAt(l, s, c);
  }
}
