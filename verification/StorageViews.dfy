/** Handing the views of the storage out again, one by one, to the parts of the index they belong to. */
module StorageViews {
  import opened Ranges
  import opened Layout
  import opened Views
  import P = Partition

  datatype TreeView = TreeView(levels: seq<Byte>, leaves: seq<seq<Byte>>)
  datatype ListView = ListView(headers: seq<Byte>, bboxes: seq<Byte>, trees: seq<TreeView>)
  datatype StorageView = StorageView(header: seq<Byte>, metadata: seq<Byte>, data: seq<Byte>, write: ListView,
                                     read: ListView, registers: ListView)

  // ---- what the views show ----

  ghost predicate Shows(view: seq<Byte>, storage: seq<Byte>, r: Section) {
    r.start <= r.end <= |storage| && view == storage[r.start..r.end]
  }

  /** The partitions have room for their leaves and make up the leaf section in order. */
  ghost predicate TreeViewed(v: TreeView, storage: seq<Byte>, t: TreeHeader, counts: seq<nat>, size: nat) {
    && Shows(v.levels, storage, t.levels)
    && |v.leaves| == |counts| == P.PARTITIONS && Shows(P.Concat(v.leaves), storage, t.leaves)
    && forall p :: 0 <= p < |counts| ==> |v.leaves[p]| == counts[p] * size
  }

  ghost predicate ListViewed(v: ListView, storage: seq<Byte>, l: TreeList, counts: seq<seq<nat>>, size: nat) {
    && Shows(v.headers, storage, l.headers) && Shows(v.bboxes, storage, l.bboxes)
    && |v.trees| == |l.trees| == |counts|
    && forall i :: 0 <= i < |l.trees| ==> TreeViewed(v.trees[i], storage, l.trees[i], counts[i], size)
  }

  ghost predicate Viewed(v: StorageView, storage: seq<Byte>, l: StorageLayout, s: Scout, c: Counts) {
    && Shows(v.header, storage, l.header) && Shows(v.metadata, storage, l.metadata) && Shows(v.data, storage, l.data)
    && ListViewed(v.write, storage, l.write, c.write, s.write.leaf.size)
    && ListViewed(v.read, storage, l.read, c.read, s.read.leaf.size)
    && ListViewed(v.registers, storage, l.registers, c.registers, s.registers.leaf.size)
  }

  // ---- taking them in turn ----

  ghost predicate TreeTaken(v: TreeView, views: seq<seq<Byte>>, pos: nat) {
    pos + 1 + P.PARTITIONS <= |views| && v.levels == views[pos] && v.leaves == views[pos + 1..pos + 1 + P.PARTITIONS]
  }

  ghost predicate TreesTaken(trees: seq<TreeView>, views: seq<seq<Byte>>, pos: nat) {
    forall i :: 0 <= i < |trees| ==> TreeTaken(trees[i], views, TreeAt(pos, i))
  }

  ghost predicate ListTaken(v: ListView, views: seq<seq<Byte>>, pos: nat, count: nat) {
    && TreeAt(pos, count) <= |views| && v.headers == views[pos] && v.bboxes == views[pos + 1]
    && |v.trees| == count && TreesTaken(v.trees, views, pos)
  }

  method NextTree(views: seq<seq<Byte>>, pos: nat) returns (v: TreeView, next: nat)
    requires pos + 1 + P.PARTITIONS <= |views|
    ensures TreeTaken(v, views, pos) && next == pos + 1 + P.PARTITIONS
  {
    var leaves: seq<seq<Byte>> := [];
    next := pos + 1;
    while |leaves| < P.PARTITIONS
      invariant |leaves| <= P.PARTITIONS && next == pos + 1 + |leaves| && leaves == views[pos + 1..next]
    {
      leaves, next := leaves + [views[next]], next + 1;
    }
    v := TreeView(views[pos], leaves);
  }

  method NextTreeList(views: seq<seq<Byte>>, pos: nat, count: nat) returns (v: ListView, next: nat)
    requires TreeAt(pos, count) <= |views|
    ensures ListTaken(v, views, pos, count) && next == TreeAt(pos, count)
  {
    var trees: seq<TreeView> := [];
    next := pos + 2;
    while |trees| < count
      invariant |trees| <= count && next == TreeAt(pos, |trees|) && TreesTaken(trees, views, pos)
    {
      var t;
      t, next := NextTree(views, next);
      trees := trees + [t];
    }
    v := ListView(views[pos], views[pos + 1], trees);
  }

  // ---- the ranges stand where they are taken ----

  lemma {:induction false} PartLength(start: nat, counts: seq<nat>, size: nat, p: nat)
    requires p < |counts|
    ensures |Parts(start, counts, size)| == |counts|
    ensures Parts(start, counts, size)[p].start + counts[p] * size == Parts(start, counts, size)[p].end
  {
    var n := |counts| - 1;
    PartsCount(start, counts[..n], size);
    if p < n {
      PartLength(start, counts[..n], size, p);
    }
  }

  // ---- so each view is what it is named after ----

  lemma {:induction false} TreeShown(v: TreeView, storage: seq<Byte>, t: TreeHeader, counts: seq<nat>, size: nat)
    requires Shows(v.levels, storage, t.levels) && |counts| == P.PARTITIONS
    requires t.leaves.start + Bytes(counts, size) == t.leaves.end <= |storage|
    requires AllWithin(Parts(t.leaves.start, counts, size), 0, |storage|)
    requires v.leaves == ViewsOf(storage, Parts(t.leaves.start, counts, size))
    ensures TreeViewed(v, storage, t, counts, size)
  {
    PartsCount(t.leaves.start, counts, size);
    PartsMakeLeaves(storage, t.leaves.start, counts, size);
    forall p | 0 <= p < |counts| ensures |v.leaves[p]| == counts[p] * size {
      PartLength(t.leaves.start, counts, size, p);
    }
  }

  ghost predicate LeavesFit(l: TreeList, counts: seq<seq<nat>>, size: nat, n: nat) {
    && |l.trees| == |counts| && l.headers.Within(0, n) && l.bboxes.Within(0, n)
    && forall i :: 0 <= i < |counts| ==> LeafRoom(l.trees[i], counts[i], size, n)
  }

  ghost predicate LeafRoom(t: TreeHeader, counts: seq<nat>, size: nat, n: nat) {
    t.levels.Within(0, n) && |counts| == P.PARTITIONS && t.leaves.start + Bytes(counts, size) == t.leaves.end <= n
  }

  lemma {:induction false} ListFits(l: TreeList, kinds: Kinds, scout: ListScout, counts: seq<seq<nat>>, c: seq<nat>,
                                    k: nat, n: nat)
    requires kinds.Valid() && scout.Valid() && Ascending(c) && k < 3 && ListPlaced(l, kinds, scout, c, k)
    requires Agree(counts, scout) && c[9] <= n
    ensures LeavesFit(l, counts, scout.leaf.size, n)
  {
    HasRoom(l, kinds, scout, counts, c, k);
    assert c[0] <= c[1] <= c[2] <= c[3] <= c[4] <= c[5];
    assert c[5] <= c[6] <= c[7] <= c[8] <= c[9];
    forall i | 0 <= i < |counts| ensures LeafRoom(l.trees[i], counts[i], scout.leaf.size, n) {
      assert RoomFor(l.trees[i], counts[i], scout.leaf.size, c[3 + k], c[4 + k], c[6 + k], c[7 + k]);
    }
  }

  lemma {:induction false} AllFit(l: StorageLayout, s: Scout, c: Counts)
    requires s.Valid() && Placed(l, s) && AgreeAll(c, s)
    ensures LeavesFit(l.write, c.write, s.write.leaf.size, l.size)
    ensures LeavesFit(l.read, c.read, s.read.leaf.size, l.size)
    ensures LeavesFit(l.registers, c.registers, s.registers.leaf.size, l.size)
    ensures l.header.Within(0, l.size) && l.metadata.Within(0, l.size) && l.data.Within(0, l.size)
  {
    var cuts: seq<nat> :| PlacedAt(l, s, cuts);
    assert cuts[0] <= cuts[1] <= cuts[2] <= cuts[3] <= cuts[4] <= cuts[5];
    assert cuts[5] <= cuts[6] <= cuts[7] <= cuts[8] <= cuts[9];
    ListFits(l.write, s.kinds, s.write, c.write, cuts, 0, l.size);
    ListFits(l.read, s.kinds, s.read, c.read, cuts, 1, l.size);
    ListFits(l.registers, s.kinds, s.registers, c.registers, cuts, 2, l.size);
  }

  /** From `pos` on stand the views of these ranges. */
  ghost predicate StandsAt(views: seq<seq<Byte>>, storage: seq<Byte>, rs: seq<Section>, pos: nat) {
    && pos + |rs| <= |views| && AllWithin(rs, 0, |storage|)
    && forall i :: 0 <= i < |rs| ==> views[pos + i] == View(storage, rs[i])
  }

  lemma {:induction false} OneStands(views: seq<seq<Byte>>, storage: seq<Byte>, rs: seq<Section>, pos: nat, i: nat)
    requires StandsAt(views, storage, rs, pos) && i < |rs|
    ensures Shows(views[pos + i], storage, rs[i])
  {
    assert rs[i].Within(0, |storage|);
  }

  lemma {:induction false} SomeStand(views: seq<seq<Byte>>, storage: seq<Byte>, rs: seq<Section>, pos: nat, i: nat,
                                     j: nat)
    requires StandsAt(views, storage, rs, pos) && i <= j <= |rs|
    ensures AllWithin(rs[i..j], 0, |storage|)
    ensures views[pos + i..pos + j] == ViewsOf(storage, rs[i..j])
  {
    var part := rs[i..j];
    forall m | 0 <= m < |part| ensures part[m].Within(0, |storage|) {
      assert rs[i + m].Within(0, |storage|);
    }
  }

  lemma {:induction false} ListShown(v: ListView, views: seq<seq<Byte>>, storage: seq<Byte>, pos: nat, l: TreeList,
                                     counts: seq<seq<nat>>, size: nat)
    requires LeavesFit(l, counts, size, |storage|) && ListTaken(v, views, pos, |l.trees|)
    requires StandsAt(views, storage, ListRanges(l, counts, size), pos)
    ensures ListViewed(v, storage, l, counts, size)
  {
    var rs := ListRanges(l, counts, size);
    OneStands(views, storage, rs, pos, 0);
    OneStands(views, storage, rs, pos, 1);
    forall i | 0 <= i < |counts| ensures |counts[i]| == P.PARTITIONS {
      assert LeafRoom(l.trees[i], counts[i], size, |storage|);
    }
    TreeRangesAt(l.trees, counts, size);
    forall i | 0 <= i < |l.trees| ensures TreeViewed(v.trees[i], storage, l.trees[i], counts[i], size) {
      TreeStands(v, views, storage, pos, l, counts, size, i);
    }
  }

  lemma {:induction false} TreeStands(v: ListView, views: seq<seq<Byte>>, storage: seq<Byte>, pos: nat, l: TreeList,
                                      counts: seq<seq<nat>>, size: nat, i: nat)
    requires LeavesFit(l, counts, size, |storage|) && ListTaken(v, views, pos, |l.trees|) && i < |l.trees|
    requires StandsAt(views, storage, ListRanges(l, counts, size), pos)
    requires TreeRanged(TreeRanges(l.trees, counts, size), l.trees[i], counts[i], size, (1 + P.PARTITIONS) * i)
    ensures TreeViewed(v.trees[i], storage, l.trees[i], counts[i], size)
  {
    var rs, trees := ListRanges(l, counts, size), TreeRanges(l.trees, counts, size);
    var at := (1 + P.PARTITIONS) * i;
    assert TreeTaken(v.trees[i], views, TreeAt(pos, i)) && LeafRoom(l.trees[i], counts[i], size, |storage|);
    OneStands(views, storage, rs, pos, 2 + at);
    SomeStand(views, storage, rs, pos, 3 + at, 3 + at + P.PARTITIONS);
    assert rs[3 + at..3 + at + P.PARTITIONS] == trees[at + 1..at + 1 + P.PARTITIONS];
    TreeShown(v.trees[i], storage, l.trees[i], counts[i], size);
  }

  lemma {:induction false} InTurn(l: StorageLayout, s: Scout, c: Counts)
    requires s.Valid() && Placed(l, s) && AgreeAll(c, s)
    ensures |l.write.trees| == |c.write| && |l.read.trees| == |c.read| && |l.registers.trees| == |c.registers|
    ensures |ListRanges(l.write, c.write, s.write.leaf.size)| == TreeAt(0, |l.write.trees|)
    ensures |ListRanges(l.read, c.read, s.read.leaf.size)| == TreeAt(0, |l.read.trees|)
    ensures |ListRanges(l.registers, c.registers, s.registers.leaf.size)| == TreeAt(0, |l.registers.trees|)
  {
    LayoutSeparate(l, s, c);
    TreeRangesAt(l.write.trees, c.write, s.write.leaf.size);
    TreeRangesAt(l.read.trees, c.read, s.read.leaf.size);
    TreeRangesAt(l.registers.trees, c.registers, s.registers.leaf.size);
  }

  lemma {:induction false} SliceStands(views: seq<seq<Byte>>, storage: seq<Byte>, a: seq<Section>, b: seq<Section>,
                                       d: seq<Section>)
    requires StandsAt(views, storage, a + b + d, 0)
    ensures StandsAt(views, storage, b, |a|)
  {
    var all := a + b + d;
    forall i | 0 <= i < |b| ensures b[i].Within(0, |storage|) && views[|a| + i] == View(storage, b[i]) {
      assert all[|a| + i] == b[i] && all[|a| + i].Within(0, |storage|);
    }
  }

  lemma {:induction false} FourStand(views: seq<seq<Byte>>, storage: seq<Byte>, a: seq<Section>, b: seq<Section>,
                                     d: seq<Section>, e: seq<Section>)
    requires StandsAt(views, storage, a + b + d + e, 0)
    ensures StandsAt(views, storage, a, 0) && StandsAt(views, storage, b, |a|)
    ensures StandsAt(views, storage, d, |a| + |b|) && StandsAt(views, storage, e, |a| + |b| + |d|)
  {
    var all := a + b + d + e;
    assert all == [] + a + (b + d + e);
    SliceStands(views, storage, [], a, b + d + e);
    assert all == a + b + (d + e);
    SliceStands(views, storage, a, b, d + e);
    SliceStands(views, storage, a + b, d, e);
    assert all == (a + b + d) + e + [];
    SliceStands(views, storage, a + b + d, e, []);
  }

  /** The views of the three lists follow each other behind those of header, metadata and data. */
  lemma {:induction false} AllInTurn(views: seq<seq<Byte>>, storage: seq<Byte>, l: StorageLayout, s: Scout, c: Counts)
    requires s.Valid() && Placed(l, s) && AgreeAll(c, s)
    requires |l.write.trees| == |c.write| && |l.read.trees| == |c.read| && |l.registers.trees| == |c.registers|
    requires StandsAt(views, storage, AllRanges(l, c, s), 0) && |views| == |AllRanges(l, c, s)|
    ensures var read := TreeAt(3, |l.write.trees|);
      var registers := TreeAt(read, |l.read.trees|);
      && StandsAt(views, storage, [l.header, l.metadata, l.data], 0)
      && StandsAt(views, storage, ListRanges(l.write, c.write, s.write.leaf.size), 3)
      && StandsAt(views, storage, ListRanges(l.read, c.read, s.read.leaf.size), read)
      && StandsAt(views, storage, ListRanges(l.registers, c.registers, s.registers.leaf.size), registers)
      && |views| == TreeAt(registers, |l.registers.trees|)
  {
    var ends := [l.header, l.metadata, l.data];
    var w := ListRanges(l.write, c.write, s.write.leaf.size);
    var r := ListRanges(l.read, c.read, s.read.leaf.size);
    var g := ListRanges(l.registers, c.registers, s.registers.leaf.size);
    InTurn(l, s, c);
    FourStand(views, storage, ends, w, r, g);
  }

  lemma {:induction false} AllShown(v: StorageView, views: seq<seq<Byte>>, storage: seq<Byte>, l: StorageLayout,
                                    s: Scout, c: Counts, read: nat, registers: nat)
    requires s.Valid() && Placed(l, s) && AgreeAll(c, s) && |storage| == l.size && |views| >= 3
    requires |l.write.trees| == |c.write| && |l.read.trees| == |c.read| && |l.registers.trees| == |c.registers|
    requires v.header == views[0] && v.metadata == views[1] && v.data == views[2]
    requires StandsAt(views, storage, [l.header, l.metadata, l.data], 0)
    requires StandsAt(views, storage, ListRanges(l.write, c.write, s.write.leaf.size), 3)
    requires StandsAt(views, storage, ListRanges(l.read, c.read, s.read.leaf.size), read)
    requires StandsAt(views, storage, ListRanges(l.registers, c.registers, s.registers.leaf.size), registers)
    requires ListTaken(v.write, views, 3, |l.write.trees|) && ListTaken(v.read, views, read, |l.read.trees|)
    requires ListTaken(v.registers, views, registers, |l.registers.trees|)
    ensures Viewed(v, storage, l, s, c)
  {
    var ends := [l.header, l.metadata, l.data];
    OneStands(views, storage, ends, 0, 0);
    OneStands(views, storage, ends, 0, 1);
    OneStands(views, storage, ends, 0, 2);
    AllFit(l, s, c);
    ListShown(v.write, views, storage, 3, l.write, c.write, s.write.leaf.size);
    ListShown(v.read, views, storage, read, l.read, c.read, s.read.leaf.size);
    ListShown(v.registers, views, storage, registers, l.registers, c.registers, s.registers.leaf.size);
  }

  // ---- cutting and handing out ----

  /** Cuts the storage up and hands the views out: each section ends up under its own name. */
  method BuildStorageViews(storage: seq<Byte>, l: StorageLayout, s: Scout, c: Counts) returns (v: StorageView)
    requires s.Valid() && Placed(l, s) && AgreeAll(c, s) && |storage| == l.size
    ensures Viewed(v, storage, l, s, c)
  {
    var views := CutStorage(storage, l, s, c);
    AllInTurn(views, storage, l, s, c);
    var next := 3;
    var write, read, registers;
    write, next := NextTreeList(views, next, |l.write.trees|);
    ghost var readAt := next;
    read, next := NextTreeList(views, next, |l.read.trees|);
    ghost var registersAt := next;
    registers, next := NextTreeList(views, next, |l.registers.trees|);
    v := StorageView(views[0], views[1], views[2], write, read, registers);
    AllShown(v, views, storage, l, s, c, readAt, registersAt);
  }
}
