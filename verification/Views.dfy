/** Cutting the storage of the index into one view per section and per partition of leaves. */
module Views {
  import opened Ranges
  import opened Layout
  import opened Sums
  import P = Partition

  // ---- the ranges asked for ----

  function Bytes(counts: seq<nat>, size: nat): nat {
    if counts == [] then 0 else Bytes(counts[..|counts| - 1], size) + counts[|counts| - 1] * size
  }

  /** The leaves of the partitions follow each other without a gap. */
  function Parts(start: nat, counts: seq<nat>, size: nat): seq<Section> {
    if counts == [] then []
    else
      var rest := counts[..|counts| - 1];
      Parts(start, rest, size) + [Section(start + Bytes(rest, size), start + Bytes(counts, size))]
  }

  function TreeRanges(trees: seq<TreeHeader>, counts: seq<seq<nat>>, size: nat): seq<Section>
    requires |trees| == |counts|
  {
    if trees == [] then []
    else
      var n := |trees| - 1;
      TreeRanges(trees[..n], counts[..n], size) + [trees[n].levels] + Parts(trees[n].leaves.start, counts[n], size)
  }

  function ListRanges(l: TreeList, counts: seq<seq<nat>>, size: nat): seq<Section>
    requires |l.trees| == |counts|
  {
    [l.headers, l.bboxes] + TreeRanges(l.trees, counts, size)
  }

  datatype Counts = Counts(write: seq<seq<nat>>, read: seq<seq<nat>>, registers: seq<seq<nat>>)

  /** The second pass has counted exactly the leaves the first pass made room for. */
  ghost predicate Agree(counts: seq<seq<nat>>, scout: ListScout) {
    && |counts| == |scout.trees|
    && forall i :: 0 <= i < |counts| ==> Sum(counts[i]) == scout.trees[i].leaves && |counts[i]| == P.PARTITIONS
  }

  lemma {:induction false} BytesIs(counts: seq<nat>, size: nat)
    ensures Bytes(counts, size) == Sum(counts) * size
  {
    if counts != [] {
      BytesIs(counts[..|counts| - 1], size);
    }
  }

  ghost predicate AgreeAll(c: Counts, s: Scout) {
    Agree(c.write, s.write) && Agree(c.read, s.read) && Agree(c.registers, s.registers)
  }

  function AllRanges(l: StorageLayout, c: Counts, s: Scout): seq<Section>
    requires |l.write.trees| == |c.write| && |l.read.trees| == |c.read| && |l.registers.trees| == |c.registers|
  {
    [l.header, l.metadata, l.data] + ListRanges(l.write, c.write, s.write.leaf.size)
    + ListRanges(l.read, c.read, s.read.leaf.size) + ListRanges(l.registers, c.registers, s.registers.leaf.size)
  }

  method PushParts(ranges: seq<Section>, start: nat, counts: seq<nat>, size: nat) returns (r: seq<Section>)
    ensures r == ranges + Parts(start, counts, size)
  {
    r := ranges;
    var pos, p := start, 0;
    while p < |counts|
      invariant p <= |counts| && pos == start + Bytes(counts[..p], size)
      invariant r == ranges + Parts(start, counts[..p], size)
    {
      assert counts[..p + 1][..p] == counts[..p];
      var end := pos + counts[p] * size;
      r := r + [Section(pos, end)];
      pos, p := end, p + 1;
    }
    assert counts[..p] == counts;
  }

  /** Where tree `i` of a list starts if the list starts at `pos`. */
  function TreeAt(pos: nat, i: nat): nat {
    pos + 2 + (1 + P.PARTITIONS) * i
  }

  lemma {:induction false} PartsCount(start: nat, counts: seq<nat>, size: nat)
    ensures |Parts(start, counts, size)| == |counts|
  {
    if counts != [] {
      PartsCount(start, counts[..|counts| - 1], size);
    }
  }

  ghost predicate TreeRanged(rs: seq<Section>, t: TreeHeader, counts: seq<nat>, size: nat, pos: nat) {
    && pos + 1 + P.PARTITIONS <= |rs| && rs[pos] == t.levels
    && rs[pos + 1..pos + 1 + P.PARTITIONS] == Parts(t.leaves.start, counts, size)
  }

  lemma {:induction false} TreeRangesAt(trees: seq<TreeHeader>, counts: seq<seq<nat>>, size: nat)
    requires |trees| == |counts| && forall i :: 0 <= i < |counts| ==> |counts[i]| == P.PARTITIONS
    ensures |TreeRanges(trees, counts, size)| == (1 + P.PARTITIONS) * |trees|
    ensures forall i :: 0 <= i < |trees| ==>
              TreeRanged(TreeRanges(trees, counts, size), trees[i], counts[i], size, (1 + P.PARTITIONS) * i)
  {
    if trees != [] {
      var n := |trees| - 1;
      var rest, all := TreeRanges(trees[..n], counts[..n], size), TreeRanges(trees, counts, size);
      TreeRangesAt(trees[..n], counts[..n], size);
      PartsCount(trees[n].leaves.start, counts[n], size);
      forall i | 0 <= i < |trees| ensures TreeRanged(all, trees[i], counts[i], size, (1 + P.PARTITIONS) * i) {
        if i < n {
          var pos := (1 + P.PARTITIONS) * i;
          assert TreeRanged(rest, trees[..n][i], counts[..n][i], size, pos);
          assert all[..|rest|] == rest;
          assert all[pos + 1..pos + 1 + P.PARTITIONS] == rest[pos + 1..pos + 1 + P.PARTITIONS];
        }
      }
    }
  }

  /** From `pos` on: the headers, the boxes, then tree by tree its levels and its partitions. */
  ghost predicate ListRanged(rs: seq<Section>, l: TreeList, counts: seq<seq<nat>>, size: nat, pos: nat) {
    && |l.trees| == |counts| && TreeAt(pos, |counts|) <= |rs| && rs[pos] == l.headers && rs[pos + 1] == l.bboxes
    && forall i :: 0 <= i < |counts| ==> TreeRanged(rs, l.trees[i], counts[i], size, TreeAt(pos, i))
  }

  lemma {:induction false} TreeRangedBehind(rs: seq<Section>, qs: seq<Section>, t: TreeHeader, counts: seq<nat>,
                                            size: nat, pos: nat)
    requires TreeRanged(qs, t, counts, size, pos)
    ensures TreeRanged(rs + qs, t, counts, size, |rs| + pos)
  {
    var from := pos + 1;
    assert (rs + qs)[|rs| + from..|rs| + from + P.PARTITIONS] == qs[from..from + P.PARTITIONS];
  }

  lemma {:induction false} ListRangesAt(ranges: seq<Section>, l: TreeList, counts: seq<seq<nat>>, size: nat)
    requires |l.trees| == |counts| && forall i :: 0 <= i < |counts| ==> |counts[i]| == P.PARTITIONS
    ensures |ListRanges(l, counts, size)| == TreeAt(0, |counts|)
    ensures ListRanged(ranges + ListRanges(l, counts, size), l, counts, size, |ranges|)
  {
    var trees, heads := TreeRanges(l.trees, counts, size), ranges + [l.headers, l.bboxes];
    var rs := ranges + ListRanges(l, counts, size);
    TreeRangesAt(l.trees, counts, size);
    assert rs == heads + trees;
    forall i | 0 <= i < |counts| ensures TreeRanged(rs, l.trees[i], counts[i], size, TreeAt(|ranges|, i)) {
      TreeRangedBehind(heads, trees, l.trees[i], counts[i], size, (1 + P.PARTITIONS) * i);
    }
  }

  method PushTrees(ranges: seq<Section>, trees: seq<TreeHeader>, counts: seq<seq<nat>>, size: nat)
    returns (r: seq<Section>)
    requires |trees| == |counts|
    ensures r == ranges + TreeRanges(trees, counts, size)
  {
    r := ranges;
    var i := 0;
    while i < |counts|
      invariant i <= |counts| && r == ranges + TreeRanges(trees[..i], counts[..i], size)
    {
      r := r + [trees[i].levels];
      r := PushParts(r, trees[i].leaves.start, counts[i], size);
      assert trees[..i + 1][..i] == trees[..i] && counts[..i + 1][..i] == counts[..i];
      i := i + 1;
    }
    assert trees[..i] == trees && counts[..i] == counts;
  }

  method PushListRanges(ranges: seq<Section>, l: TreeList, counts: seq<seq<nat>>, size: nat) returns (r: seq<Section>)
    requires |l.trees| == |counts| && forall i :: 0 <= i < |counts| ==> |counts[i]| == P.PARTITIONS
    ensures r == ranges + ListRanges(l, counts, size) && ListRanged(r, l, counts, size, |ranges|)
    ensures |r| == TreeAt(|ranges|, |counts|)
  {
    r := ranges + [l.headers] + [l.bboxes];
    r := PushTrees(r, l.trees, counts, size);
    ListRangesAt(ranges, l, counts, size);
    assert r == ranges + ListRanges(l, counts, size);
  }

  // ---- they never overlap ----

  ghost predicate AllApart(rs: seq<Section>) {
    forall i, j :: 0 <= i < j < |rs| ==> rs[i].Apart(rs[j])
  }

  ghost predicate Cross(rs: seq<Section>, qs: seq<Section>) {
    forall i, j :: 0 <= i < |rs| && 0 <= j < |qs| ==> rs[i].Apart(qs[j])
  }

  lemma {:induction false} Join(rs: seq<Section>, qs: seq<Section>)
    requires AllApart(rs) && AllApart(qs) && Cross(rs, qs)
    ensures AllApart(rs + qs)
  {
  }

  ghost predicate AllWithin(rs: seq<Section>, lo: nat, hi: nat) {
    forall i :: 0 <= i < |rs| ==> rs[i].Within(lo, hi)
  }

  lemma {:induction false} PartsApart(start: nat, counts: seq<nat>, size: nat)
    ensures AllWithin(Parts(start, counts, size), start, start + Bytes(counts, size))
    ensures AllApart(Parts(start, counts, size))
  {
    if counts != [] {
      PartsApart(start, counts[..|counts| - 1], size);
      LastPart(start, counts, size);
    }
  }

  lemma {:induction false} LastPart(start: nat, counts: seq<nat>, size: nat)
    requires counts != []
    ensures Bytes(counts[..|counts| - 1], size) <= Bytes(counts, size)
    ensures Parts(start, counts, size)
      == Parts(start, counts[..|counts| - 1], size)
       + [Section(start + Bytes(counts[..|counts| - 1], size), start + Bytes(counts, size))]
  {
  }

  /** Every range lies in the part of one of the two regions that is already laid out. */
  ghost predicate InEither(rs: seq<Section>, lo: nat, hi: nat, from: nat, to: nat) {
    forall i :: 0 <= i < |rs| ==> rs[i].Within(lo, hi) || rs[i].Within(from, to)
  }

  ghost predicate Room(trees: seq<TreeHeader>, counts: seq<seq<nat>>, size: nat, v0: nat, v1: nat, b0: nat, b1: nat) {
    && |trees| == |counts| && v0 <= v1 <= b0 <= b1
    && (forall i :: 0 <= i < |trees| ==> RoomFor(trees[i], counts[i], size, v0, v1, b0, b1))
    && (forall i, j :: 0 <= i < j < |trees| ==> Follows(trees[i], trees[j]))
  }

  ghost predicate RoomFor(t: TreeHeader, counts: seq<nat>, size: nat, v0: nat, v1: nat, b0: nat, b1: nat) {
    && t.levels.Within(v0, v1) && t.leaves.Within(b0, b1) && t.leaves.start + Bytes(counts, size) == t.leaves.end
  }

  ghost predicate Follows(t: TreeHeader, u: TreeHeader) {
    t.levels.end <= u.levels.start && t.leaves.end <= u.leaves.start
  }

  lemma {:induction false} TreesApart(trees: seq<TreeHeader>, counts: seq<seq<nat>>, size: nat, v0: nat, v1: nat,
                                      b0: nat, b1: nat)
    requires Room(trees, counts, size, v0, v1, b0, b1)
    ensures AllApart(TreeRanges(trees, counts, size)) && InEither(TreeRanges(trees, counts, size), v0, v1, b0, b1)
  {
    if trees != [] {
      var n := |trees| - 1;
      var rest, t := TreeRanges(trees[..n], counts[..n], size), trees[n];
      assert RoomFor(t, counts[n], size, v0, v1, b0, b1);
      assert Room(trees[..n], counts[..n], size, v0, t.levels.start, b0, t.leaves.start) by {
        forall i | 0 <= i < n ensures RoomFor(trees[i], counts[i], size, v0, t.levels.start, b0, t.leaves.start) {
          assert RoomFor(trees[i], counts[i], size, v0, v1, b0, b1) && Follows(trees[i], t);
        }
      }
      TreesApart(trees[..n], counts[..n], size, v0, t.levels.start, b0, t.leaves.start);
      LastTreeApart(rest, t, counts[n], size, v0, v1, b0, b1);
    }
  }

  lemma {:induction false} LastTreeApart(rest: seq<Section>, t: TreeHeader, counts: seq<nat>, size: nat, v0: nat,
                                         v1: nat, b0: nat, b1: nat)
    requires RoomFor(t, counts, size, v0, v1, b0, b1) && v1 <= b0
    requires AllApart(rest) && InEither(rest, v0, t.levels.start, b0, t.leaves.start)
    ensures AllApart(rest + [t.levels] + Parts(t.leaves.start, counts, size))
    ensures InEither(rest + [t.levels] + Parts(t.leaves.start, counts, size), v0, v1, b0, b1)
  {
    var parts := Parts(t.leaves.start, counts, size);
    PartsApart(t.leaves.start, counts, size);
    Join(rest, [t.levels]);
    Join(rest + [t.levels], parts);
  }

  /** The three regions of a list. */
  ghost predicate InList(r: Section, c: seq<nat>, k: nat)
    requires |c| == 10 && k < 3
  {
    r.Within(c[k], c[k + 1]) || r.Within(c[3 + k], c[4 + k]) || r.Within(c[6 + k], c[7 + k])
  }

  ghost predicate AllInList(rs: seq<Section>, c: seq<nat>, k: nat)
    requires |c| == 10 && k < 3
  {
    forall i :: 0 <= i < |rs| ==> InList(rs[i], c, k)
  }

  lemma {:induction false} RegionsApart(r: Section, q: Section, c: seq<nat>, k: nat, m: nat)
    requires Ascending(c) && k < m < 3 && InList(r, c, k) && InList(q, c, m)
    ensures r.Apart(q)
  {
    assert c[0] <= c[1] <= c[2] <= c[3] <= c[4] <= c[5];
    assert c[5] <= c[6] <= c[7] <= c[8] <= c[9];
  }

  lemma {:induction false} HasRoom(l: TreeList, kinds: Kinds, scout: ListScout, counts: seq<seq<nat>>, c: seq<nat>,
                                   k: nat)
    requires kinds.Valid() && scout.Valid() && Ascending(c) && k < 3 && ListPlaced(l, kinds, scout, c, k)
    requires Agree(counts, scout)
    ensures Room(l.trees, counts, scout.leaf.size, c[3 + k], c[4 + k], c[6 + k], c[7 + k])
    ensures c[k] <= c[k + 1] <= c[3 + k]
  {
    assert c[0] <= c[1] <= c[2] <= c[3] <= c[4] <= c[5];
    assert c[5] <= c[6] <= c[7] <= c[8] <= c[9];
    forall i | 0 <= i < |l.trees|
      ensures RoomFor(l.trees[i], counts[i], scout.leaf.size, c[3 + k], c[4 + k], c[6 + k], c[7 + k])
    {
      BytesIs(counts[i], scout.leaf.size);
      assert BodyPlaced(l.trees[i], scout.node, scout.leaf, scout.trees[i], c[6 + k], c[7 + k]);
    }
    forall i, j | 0 <= i < j < |l.trees| ensures Follows(l.trees[i], l.trees[j]) {
      assert BodyPlaced(l.trees[j], scout.node, scout.leaf, scout.trees[j], c[6 + k], c[7 + k]);
    }
  }

  lemma {:induction false} ListApart(l: TreeList, kinds: Kinds, scout: ListScout, counts: seq<seq<nat>>, c: seq<nat>,
                                     k: nat)
    requires kinds.Valid() && scout.Valid() && Ascending(c) && k < 3 && ListPlaced(l, kinds, scout, c, k)
    requires Agree(counts, scout)
    ensures AllApart(ListRanges(l, counts, scout.leaf.size)) && AllInList(ListRanges(l, counts, scout.leaf.size), c, k)
  {
    HasRoom(l, kinds, scout, counts, c, k);
    TreesApart(l.trees, counts, scout.leaf.size, c[3 + k], c[4 + k], c[6 + k], c[7 + k]);
    Join([l.headers, l.bboxes], TreeRanges(l.trees, counts, scout.leaf.size));
  }

  lemma {:induction false} ListsCross(rs: seq<Section>, qs: seq<Section>, c: seq<nat>, k: nat, m: nat)
    requires Ascending(c) && k < m < 3 && AllInList(rs, c, k) && AllInList(qs, c, m)
    ensures Cross(rs, qs)
  {
    forall i, j | 0 <= i < |rs| && 0 <= j < |qs| ensures rs[i].Apart(qs[j]) {
      RegionsApart(rs[i], qs[j], c, k, m);
    }
  }

  /** What can be cut out of `n` bytes without taking a byte twice. */
  ghost predicate Separate(rs: seq<Section>, n: nat) {
    && (forall i :: 0 <= i < |rs| && !rs[i].IsEmpty() ==> rs[i].end <= n)
    && (forall i, j :: 0 <= i < j < |rs| && !rs[i].IsEmpty() && !rs[j].IsEmpty() ==> rs[i].Apart(rs[j]))
  }

  /** The sections of a layout, with the leaves of every tree cut into its partitions, never overlap. */
  lemma {:induction false} LayoutSeparate(l: StorageLayout, s: Scout, c: Counts)
    requires s.Valid() && Placed(l, s) && AgreeAll(c, s)
    ensures |l.write.trees| == |c.write| && |l.read.trees| == |c.read| && |l.registers.trees| == |c.registers|
    ensures AllApart(AllRanges(l, c, s)) && AllWithin(AllRanges(l, c, s), 0, l.size)
  {
    var cuts: seq<nat> :| PlacedAt(l, s, cuts);
    ListsApart(l, s, c, cuts);
    AroundLists([l.header, l.metadata, l.data], ListRanges(l.write, c.write, s.write.leaf.size),
                ListRanges(l.read, c.read, s.read.leaf.size),
                ListRanges(l.registers, c.registers, s.registers.leaf.size), cuts, l.size);
  }

  lemma {:induction false} ListsApart(l: StorageLayout, s: Scout, c: Counts, cuts: seq<nat>)
    requires s.Valid() && AgreeAll(c, s) && Ascending(cuts) && ListPlaced(l.write, s.kinds, s.write, cuts, 0)
    requires ListPlaced(l.read, s.kinds, s.read, cuts, 1) && ListPlaced(l.registers, s.kinds, s.registers, cuts, 2)
    ensures |l.write.trees| == |c.write| && |l.read.trees| == |c.read| && |l.registers.trees| == |c.registers|
    ensures var w := ListRanges(l.write, c.write, s.write.leaf.size);
      var r := ListRanges(l.read, c.read, s.read.leaf.size);
      var g := ListRanges(l.registers, c.registers, s.registers.leaf.size);
      && AllApart(w) && AllApart(r) && AllApart(g) && Cross(w, r) && Cross(w, g) && Cross(r, g)
      && AllInList(w, cuts, 0) && AllInList(r, cuts, 1) && AllInList(g, cuts, 2)
  {
    ListApart(l.write, s.kinds, s.write, c.write, cuts, 0);
    ListApart(l.read, s.kinds, s.read, c.read, cuts, 1);
    ListApart(l.registers, s.kinds, s.registers, c.registers, cuts, 2);
    var w := ListRanges(l.write, c.write, s.write.leaf.size);
    var r := ListRanges(l.read, c.read, s.read.leaf.size);
    var g := ListRanges(l.registers, c.registers, s.registers.leaf.size);
    ListsCross(w, r, cuts, 0, 1);
    ListsCross(w, g, cuts, 0, 2);
    ListsCross(r, g, cuts, 1, 2);
  }

  ghost predicate Outside(rs: seq<Section>, c: seq<nat>, n: nat)
    requires |c| == 10
  {
    forall i :: 0 <= i < |rs| ==> rs[i].Within(0, c[0]) || rs[i].Within(c[9], n)
  }

  ghost predicate Between(rs: seq<Section>, c: seq<nat>)
    requires |c| == 10
  {
    forall i :: 0 <= i < |rs| ==> rs[i].Within(c[0], c[9])
  }

  lemma {:induction false} ListBetween(rs: seq<Section>, c: seq<nat>, k: nat)
    requires Ascending(c) && k < 3 && AllInList(rs, c, k)
    ensures Between(rs, c)
  {
    assert c[0] <= c[1] <= c[2] <= c[3] <= c[4] <= c[5];
    assert c[5] <= c[6] <= c[7] <= c[8] <= c[9];
    forall i | 0 <= i < |rs| ensures rs[i].Within(c[0], c[9]) {
      assert InList(rs[i], c, k);
    }
  }

  lemma {:induction false} AroundLists(ends: seq<Section>, w: seq<Section>, r: seq<Section>, g: seq<Section>,
                                       c: seq<nat>, n: nat)
    requires Ascending(c) && c[9] <= n && AllApart(ends) && Outside(ends, c, n)
    requires AllApart(w) && AllApart(r) && AllApart(g) && Cross(w, r) && Cross(w, g) && Cross(r, g)
    requires AllInList(w, c, 0) && AllInList(r, c, 1) && AllInList(g, c, 2)
    ensures AllApart(ends + w + r + g) && AllWithin(ends + w + r + g, 0, n)
  {
    assert c[0] <= c[1] <= c[2] <= c[3] <= c[4] <= c[5];
    assert c[5] <= c[6] <= c[7] <= c[8] <= c[9];
    ListBetween(w, c, 0);
    ListBetween(r, c, 1);
    ListBetween(g, c, 2);
    Join(ends, w);
    Join(ends + w, r);
    Join(ends + w + r, g);
  }

  ghost predicate ListBefore(l: TreeList, n: nat) {
    l.headers.end <= n && l.bboxes.end <= n && forall i :: 0 <= i < |l.trees| ==> TreeBefore(l.trees[i], n)
  }

  ghost predicate TreeBefore(t: TreeHeader, n: nat) {
    t.levels.end <= n && t.nodes.end <= n && t.leaves.end <= n
  }

  /** Every section but the data section ends before byte `n`. */
  ghost predicate RestBefore(l: StorageLayout, n: nat) {
    && l.header.end <= n && l.metadata.end <= n
    && ListBefore(l.write, n) && ListBefore(l.read, n) && ListBefore(l.registers, n)
  }

  /** The data section comes after everything else, so giving up its unused tail shortens nothing else. */
  lemma {:induction false} DataLast(l: StorageLayout, s: Scout, used: nat)
    requires s.Valid() && Placed(l, s) && used <= s.data
    ensures l.data.start + used == l.size - (s.data - used) && RestBefore(l, l.data.start)
  {
    var cuts: seq<nat> :| PlacedAt(l, s, cuts);
    ListEnds(l.write, s.kinds, s.write, cuts, 0);
    ListEnds(l.read, s.kinds, s.read, cuts, 1);
    ListEnds(l.registers, s.kinds, s.registers, cuts, 2);
    assert cuts[0] <= cuts[9];
  }

  lemma {:induction false} ListEnds(l: TreeList, kinds: Kinds, scout: ListScout, c: seq<nat>, k: nat)
    requires kinds.Valid() && scout.Valid() && Ascending(c) && k < 3 && ListPlaced(l, kinds, scout, c, k)
    ensures ListBefore(l, c[9]) && c[0] <= c[9]
  {
    assert c[0] <= c[1] <= c[2] <= c[3] <= c[4] <= c[5];
    assert c[5] <= c[6] <= c[7] <= c[8] <= c[9];
    forall i | 0 <= i < |l.trees| ensures TreeBefore(l.trees[i], c[9]) {
      assert BodyPlaced(l.trees[i], scout.node, scout.leaf, scout.trees[i], c[6 + k], c[7 + k]);
    }
  }

  // ---- cutting ----

  function View(storage: seq<Byte>, r: Section): seq<Byte>
    requires r.IsEmpty() || r.end <= |storage|
  {
    if r.IsEmpty() then [] else storage[r.start..r.end]
  }

  type Numbered = (nat, Section)

  function Number(rs: seq<Section>): (r: seq<Numbered>)
    ensures |r| == |rs| && forall i :: 0 <= i < |r| ==> r[i] == (i, rs[i])
  {
    seq(|rs|, i requires 0 <= i < |rs| => (i, rs[i]))
  }

  /** The same ranges by ascending start; where each one comes from is kept. */
  ghost predicate Arranged(order: seq<Numbered>, rs: seq<Section>) {
    && |order| == |rs|
    && (forall k :: 0 <= k < |order| ==> order[k].0 < |rs| && order[k].1 == rs[order[k].0])
    && (forall k, m :: 0 <= k < m < |order| ==> order[k].0 != order[m].0 && order[k].1.start <= order[m].1.start)
    && (forall i :: 0 <= i < |rs| ==> Listed(order, i))
  }

  ghost predicate Listed(order: seq<Numbered>, i: nat) {
    exists k :: 0 <= k < |order| && order[k].0 == i
  }

  lemma {:induction false} Arrange(rs: seq<Section>)
    ensures Arranged(P.SortByKey(Number(rs), (p: Numbered) => p.1.start), rs)
  {
    var key := (p: Numbered) => p.1.start;
    var from, order := Number(rs), P.SortByKey(Number(rs), key);
    P.SortByKeyIs(from, key);
    forall k | 0 <= k < |order| ensures order[k].0 < |rs| && order[k].1 == rs[order[k].0] {
      assert order[k] in multiset(order) && order[k] in multiset(from);
    }
    forall k, m | 0 <= k < m < |order| ensures order[k].0 != order[m].0 && order[k].1.start <= order[m].1.start {
      assert key(order[k]) <= key(order[m]);
      if order[k] == order[m] {
        P.TwicePresent(order, k, m);
        NumberedOnce(rs, order[k]);
      }
    }
    forall i | 0 <= i < |rs| ensures Listed(order, i) {
      assert from[i] in multiset(from) && from[i] in multiset(order);
      var k: nat :| k < |order| && order[k] == from[i];
    }
  }

  lemma {:induction false} NumberedOnce(rs: seq<Section>, p: Numbered)
    ensures multiset(Number(rs))[p] <= 1
  {
    if rs != [] {
      var n := |rs| - 1;
      NumberedOnce(rs[..n], p);
      assert Number(rs) == Number(rs[..n]) + [(n, rs[n])];
      assert (n, rs[n]) !in Number(rs[..n]);
    }
  }

  /** From the back, every range is split off what is left; fails when a range no longer fits. */
  method DisjointViews(storage: seq<Byte>, ranges: seq<Section>) returns (views: Option<seq<seq<Byte>>>)
    ensures views.Some? <==> Separate(ranges, |storage|)
    ensures views.Some? ==> |views.value| == |ranges|
    ensures views.Some? ==> forall i :: 0 <= i < |ranges| ==> views.value[i] == View(storage, ranges[i])
  {
    var order := P.SortByKey(Number(ranges), (p: Numbered) => p.1.start);
    Arrange(ranges);
    var cut: seq<seq<Byte>> := seq(|ranges|, _ => []);
    var left := storage;
    var k: nat := |order|;
    CutStarts(order, ranges, storage);
    while k > 0
      invariant k <= |order| && Cutting(order, ranges, k, storage, left, cut)
    {
      k := k - 1;
      var i, r := order[k].0, order[k].1;
      if !r.IsEmpty() {
        if r.end > |left| {
          CutFails(order, ranges, k, storage, left, cut);
          return None;
        }
        CutSplits(order, ranges, k, storage, left, cut);
        cut, left := cut[i := left[r.start..r.end]], left[..r.start];
      } else {
        CutSkips(order, ranges, k, storage, left, cut);
      }
    }
    CutEnds(order, ranges, storage, left, cut);
    return Some(cut);
  }

  /** What is left is a prefix of the storage, and every range handled so far has its view. */
  ghost predicate Cutting(order: seq<Numbered>, rs: seq<Section>, k: nat, storage: seq<Byte>, left: seq<Byte>,
                          cut: seq<seq<Byte>>) {
    exists n: nat :: n == |left| && left <= storage && CutFrom(order, k, |storage|, n)
            && AllCut(order, rs, k, storage, cut)
  }

  lemma {:induction false} CutFails(order: seq<Numbered>, rs: seq<Section>, k: nat, storage: seq<Byte>,
                                    left: seq<Byte>, cut: seq<seq<Byte>>)
    requires Arranged(order, rs) && k < |order| && Cutting(order, rs, k + 1, storage, left, cut)
    requires !order[k].1.IsEmpty() && order[k].1.end > |left|
    ensures !Separate(rs, |storage|)
  {
    TooLong(order, rs, k, |storage|, |left|);
  }

  lemma {:induction false} CutSplits(order: seq<Numbered>, rs: seq<Section>, k: nat, storage: seq<Byte>,
                                     left: seq<Byte>, cut: seq<seq<Byte>>)
    requires Arranged(order, rs) && k < |order| && Cutting(order, rs, k + 1, storage, left, cut)
    requires !order[k].1.IsEmpty() && order[k].1.end <= |left|
    ensures order[k].0 < |cut|
    ensures Cutting(order, rs, k, storage, left[..order[k].1.start],
                    cut[order[k].0 := left[order[k].1.start..order[k].1.end]])
  {
    var r := order[k].1;
    CutOne(order, rs, k, |storage|, |left|);
    CutAll(order, rs, k, storage, cut);
    assert left[r.start..r.end] == View(storage, r);
  }

  lemma {:induction false} CutSkips(order: seq<Numbered>, rs: seq<Section>, k: nat, storage: seq<Byte>,
                                    left: seq<Byte>, cut: seq<seq<Byte>>)
    requires Arranged(order, rs) && k < |order| && Cutting(order, rs, k + 1, storage, left, cut) && order[k].1.IsEmpty()
    ensures Cutting(order, rs, k, storage, left, cut)
  {
    CutOne(order, rs, k, |storage|, |left|);
    CutAll(order, rs, k, storage, cut);
  }

  lemma {:induction false} CutEnds(order: seq<Numbered>, rs: seq<Section>, storage: seq<Byte>, left: seq<Byte>,
                                   cut: seq<seq<Byte>>)
    requires Arranged(order, rs) && Cutting(order, rs, 0, storage, left, cut)
    ensures Separate(rs, |storage|) && |cut| == |rs|
    ensures forall i :: 0 <= i < |rs| ==> cut[i] == View(storage, rs[i])
  {
    AllFit(order, rs, |storage|, |left|);
    forall i | 0 <= i < |rs| ensures cut[i] == View(storage, rs[i]) {
      CutDone(order, rs, storage, cut, i);
    }
  }

  lemma {:induction false} CutStarts(order: seq<Numbered>, rs: seq<Section>, storage: seq<Byte>)
    requires Arranged(order, rs)
    ensures Cutting(order, rs, |order|, storage, storage, seq(|rs|, _ => []))
  {
    assert CutFrom(order, |order|, |storage|, |storage|);
  }

  /** The ranges handled so far fit, end to end, between what is left and the end of the storage. */
  ghost predicate CutFrom(order: seq<Numbered>, k: nat, n: nat, left: nat) {
    && left <= n
    && (forall m :: k <= m < |order| && !order[m].1.IsEmpty() ==> left <= order[m].1.start && order[m].1.end <= n)
    && (forall m, o :: k <= m < o < |order| && !order[m].1.IsEmpty() && !order[o].1.IsEmpty() ==>
            order[m].1.end <= order[o].1.start)
    && (left == n || exists m :: k <= m < |order| && !order[m].1.IsEmpty() && order[m].1.start == left)
  }

  ghost predicate CutOr(order: seq<Numbered>, k: nat, i: nat, storage: seq<Byte>, r: Section, view: seq<Byte>) {
    if r.IsEmpty() || forall m :: k <= m < |order| ==> order[m].0 != i then view == []
    else r.end <= |storage| && view == storage[r.start..r.end]
  }

  ghost predicate AllCut(order: seq<Numbered>, rs: seq<Section>, k: nat, storage: seq<Byte>, cut: seq<seq<Byte>>) {
    |cut| == |rs| && forall i :: 0 <= i < |cut| ==> CutOr(order, k, i, storage, rs[i], cut[i])
  }

  lemma {:induction false} TooLong(order: seq<Numbered>, rs: seq<Section>, k: nat, n: nat, left: nat)
    requires Arranged(order, rs) && k < |order| && CutFrom(order, k + 1, n, left)
    requires !order[k].1.IsEmpty() && order[k].1.end > left
    ensures !Separate(rs, n)
  {
    var i := order[k].0;
    if left < n {
      var m :| k + 1 <= m < |order| && !order[m].1.IsEmpty() && order[m].1.start == left;
      var j := order[m].0;
      assert !rs[if i < j then i else j].Apart(rs[if i < j then j else i]);
    } else {
      assert rs[i].end > n;
    }
  }

  lemma {:induction false} CutOne(order: seq<Numbered>, rs: seq<Section>, k: nat, n: nat, left: nat)
    requires Arranged(order, rs) && k < |order| && CutFrom(order, k + 1, n, left)
    requires !order[k].1.IsEmpty() ==> order[k].1.end <= left
    ensures CutFrom(order, k, n, if order[k].1.IsEmpty() then left else order[k].1.start)
  {
  }

  /** The views after handling the `k`-th range. */
  lemma {:induction false} CutAll(order: seq<Numbered>, rs: seq<Section>, k: nat, storage: seq<Byte>,
                                  cut: seq<seq<Byte>>)
    requires Arranged(order, rs) && k < |order| && AllCut(order, rs, k + 1, storage, cut)
    requires !order[k].1.IsEmpty() ==> order[k].1.end <= |storage|
    ensures order[k].0 < |cut|
    ensures AllCut(order, rs, k, storage,
                   if order[k].1.IsEmpty() then cut else cut[order[k].0 := View(storage, order[k].1)])
  {
    var i := order[k].0;
    var now := if order[k].1.IsEmpty() then cut else cut[i := View(storage, order[k].1)];
    forall j | 0 <= j < |now| ensures CutOr(order, k, j, storage, rs[j], now[j]) {
      assert CutOr(order, k + 1, j, storage, rs[j], cut[j]);
    }
  }

  lemma {:induction false} CutDone(order: seq<Numbered>, rs: seq<Section>, storage: seq<Byte>, cut: seq<seq<Byte>>,
                                   i: nat)
    requires Arranged(order, rs) && AllCut(order, rs, 0, storage, cut) && i < |rs|
    ensures rs[i].IsEmpty() || rs[i].end <= |storage|
    ensures cut[i] == View(storage, rs[i])
  {
    assert CutOr(order, 0, i, storage, rs[i], cut[i]) && Listed(order, i);
  }

  lemma {:induction false} AllFit(order: seq<Numbered>, rs: seq<Section>, n: nat, left: nat)
    requires Arranged(order, rs) && CutFrom(order, 0, n, left)
    ensures Separate(rs, n)
  {
    forall i | 0 <= i < |rs| && !rs[i].IsEmpty() ensures rs[i].end <= n {
      assert Listed(order, i);
    }
    forall i, j | 0 <= i < j < |rs| && !rs[i].IsEmpty() && !rs[j].IsEmpty() ensures rs[i].Apart(rs[j]) {
      assert Listed(order, i) && Listed(order, j);
      var k :| 0 <= k < |order| && order[k].0 == i;
      var m :| 0 <= m < |order| && order[m].0 == j;
      assert order[if k < m then k else m].1.end <= order[if k < m then m else k].1.start;
    }
  }

  /** Cutting the storage of a layout never fails, and every view is the range it was asked for. */
  method CutStorage(storage: seq<Byte>, l: StorageLayout, s: Scout, c: Counts) returns (views: seq<seq<Byte>>)
    requires s.Valid() && Placed(l, s) && AgreeAll(c, s) && |storage| == l.size
    ensures |l.write.trees| == |c.write| && |l.read.trees| == |c.read| && |l.registers.trees| == |c.registers|
    ensures var rs := AllRanges(l, c, s);
      && |views| == |rs| && AllWithin(rs, 0, |storage|) && AllApart(rs)
      && forall i :: 0 <= i < |rs| ==> views[i] == View(storage, rs[i])
  {
    LayoutSeparate(l, s, c);
    var ranges := [l.header, l.metadata, l.data];
    ranges := PushListRanges(ranges, l.write, c.write, s.write.leaf.size);
    ranges := PushListRanges(ranges, l.read, c.read, s.read.leaf.size);
    ranges := PushListRanges(ranges, l.registers, c.registers, s.registers.leaf.size);
    var r := DisjointViews(storage, ranges);
    views := r.value;
  }

  // ---- the partitions make up the leaf array ----

  /** Every partition starts at an address fit for leaves and has room for exactly its leaves. */
  lemma {:induction false} PartHolds(start: nat, counts: seq<nat>, leaf: Kind, p: nat)
    requires leaf.Valid() && Multiple(start, leaf.align) && p < |counts|
    ensures |Parts(start, counts, leaf.size)| == |counts| && Parts(start, counts, leaf.size)[p].Holds(leaf, counts[p])
  {
    var n := |counts| - 1;
    if n > 0 {
      PartHolds(start, counts[..n], leaf, if p < n then p else 0);
    }
    BytesIs(counts[..n], leaf.size);
    StillAligned(start, Sum(counts[..n]), leaf);
  }

  function ViewsOf(storage: seq<Byte>, rs: seq<Section>): seq<seq<Byte>>
    requires AllWithin(rs, 0, |storage|)
  {
    seq(|rs|, i requires 0 <= i < |rs| => View(storage, rs[i]))
  }

  /** The views of a tree's partitions, one after the other, are its whole leaf section. */
  lemma {:induction false} PartsMakeLeaves(storage: seq<Byte>, start: nat, counts: seq<nat>, size: nat)
    requires start + Bytes(counts, size) <= |storage|
    ensures AllWithin(Parts(start, counts, size), 0, |storage|)
    ensures P.Concat(ViewsOf(storage, Parts(start, counts, size))) == storage[start..start + Bytes(counts, size)]
  {
    PartsApart(start, counts, size);
    if counts != [] {
      var rest := counts[..|counts| - 1];
      LastPart(start, counts, size);
      PartsMakeLeaves(storage, start, rest, size);
      JoinViews(storage, start, Bytes(rest, size), Bytes(counts, size), Parts(start, rest, size));
    }
  }

  lemma {:induction false} JoinViews(storage: seq<Byte>, start: nat, mid: nat, end: nat, rs: seq<Section>)
    requires mid <= end && start + end <= |storage| && AllWithin(rs, 0, |storage|)
    requires P.Concat(ViewsOf(storage, rs)) == storage[start..start + mid]
    ensures var more := rs + [Section(start + mid, start + end)];
      AllWithin(more, 0, |storage|) && P.Concat(ViewsOf(storage, more)) == storage[start..start + end]
  {
    var last := Section(start + mid, start + end);
    var views := ViewsOf(storage, rs + [last]);
    assert views[..|rs|] == ViewsOf(storage, rs) && views[|rs|] == View(storage, last);
    assert storage[start..start + mid] + View(storage, last) == storage[start..start + end];
  }
}
