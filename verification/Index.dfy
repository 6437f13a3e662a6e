/** Building the memory side of the index: from the accesses of a trace to a database that describes them. */
module Index {
  import opened Ranges
  import opened Payload
  import opened Disjoint
  import opened Streams
  import opened Zones
  import opened PackedTree
  import opened Containment
  import opened MemoryDb
  import opened Passes
  import MQ = MultiQuery
  import opened Sums
  import P = Partition
  import SM = SearchMemory

  type WriteTree = RTree<Node, WriteLeaf>

  // ---- routing ----

  function ZoneOf(zones: seq<Zone>, n: Node): nat {
    match FindZone(zones, n.Addrs())
    case None => |zones|
    case Some(i) => i
  }

  function Routing(zones: seq<Zone>): WriteLeaf -> nat {
    (leaf: WriteLeaf) => ZoneOf(zones, leaf.node)
  }

  function BareLeaf(leaf: Leaf): WriteLeaf {
    WriteLeaf(leaf.node, 0)
  }

  ghost predicate Packable(leaf: Leaf) {
    && (leaf.data.Inline? ==> |leaf.data.bytes| == INLINE_MAX)
    && (leaf.data.Outline? ==> leaf.data.offset <= ADDR_MAX as int)
  }

  function PackLeaf(leaf: Leaf): WriteLeaf
    requires Packable(leaf)
  {
    WriteLeaf(leaf.node, PackedData(leaf.data))
  }

  function BareLeaves(leaves: seq<Leaf>): (r: seq<WriteLeaf>)
    ensures |r| == |leaves| && forall i :: 0 <= i < |leaves| ==> r[i] == BareLeaf(leaves[i])
  {
    seq(|leaves|, i requires 0 <= i < |leaves| => BareLeaf(leaves[i]))
  }

  function PackLeaves(leaves: seq<Leaf>): (r: seq<WriteLeaf>)
    requires forall i :: 0 <= i < |leaves| ==> Packable(leaves[i])
    ensures |r| == |leaves| && forall i :: 0 <= i < |leaves| ==> r[i] == PackLeaf(leaves[i])
  {
    seq(|leaves|, i requires 0 <= i < |leaves| => PackLeaf(leaves[i]))
  }

  /** The same rectangles in the same order. */
  ghost predicate SameNodes(a: seq<WriteLeaf>, b: seq<WriteLeaf>) {
    |a| == |b| && forall i :: 0 <= i < |a| ==> a[i].node == b[i].node
  }

  /** Leaves with the same rectangles are routed to the same zones. */
  lemma {:induction false} SameRouting(a: seq<WriteLeaf>, b: seq<WriteLeaf>, zones: seq<Zone>, z: nat)
    requires SameNodes(a, b)
    ensures SameNodes(P.OfPart(a, Routing(zones), z), P.OfPart(b, Routing(zones), z))
  {
    if a != [] {
      SameRouting(a[..|a| - 1], b[..|b| - 1], zones, z);
    }
  }

  /** Partition keys look at a leaf's rectangle and the zone's box only. */
  type KeyFn = (Node, Node) -> nat

  function KeyOf(f: KeyFn, leaf: WriteLeaf, bbox: Node): nat {
    f(leaf.node, bbox)
  }

  function InBox(f: KeyFn, bbox: Node): WriteLeaf -> nat {
    (leaf: WriteLeaf) => KeyOf(f, leaf, bbox)
  }

  lemma {:induction false} SameCounts(a: seq<WriteLeaf>, b: seq<WriteLeaf>, f: KeyFn, bbox: Node, counts: seq<nat>)
    requires SameNodes(a, b) && P.Counted(a, InBox(f, bbox), counts)
    ensures P.Counted(b, InBox(f, bbox), counts)
  {
    forall p | 0 <= p < P.PARTITIONS ensures counts[p] == |P.OfPart(b, InBox(f, bbox), p)| {
      P.SameKeysSameCounts(a, b, InBox(f, bbox), InBox(f, bbox), p);
    }
  }

  // ---- one zone ----

  /** The tree holds exactly the leaves routed to its zone. */
  ghost predicate TreeOf(t: WriteTree, zone: Zone, mine: seq<WriteLeaf>) {
    Built(t, WriteBox) && t.bbox == zone.bbox && multiset(t.leaves) == multiset(mine)
  }

  /** The leaf keys of one zone's box are below the number of partitions. */
  lemma {:induction false} PartsBounded(part: KeyFn, bbox: Node)
    requires forall n, box :: part(n, box) < P.PARTITIONS
    ensures forall leaf :: InBox(part, bbox)(leaf) < P.PARTITIONS
  {
    forall leaf ensures InBox(part, bbox)(leaf) < P.PARTITIONS {
      assert InBox(part, bbox)(leaf) == KeyOf(part, leaf, bbox);
    }
  }

  /** When the partition number is a prefix of the key, all leaves of the tree are in key order. */
  ghost predicate InKeyOrder(t: WriteTree, part: KeyFn, key: KeyFn) {
    P.Aligned(InBox(part, t.bbox), InBox(key, t.bbox)) ==> P.SortedBy(t.leaves, InBox(key, t.bbox))
  }

  /** Fills and builds one tree; the second pass has counted the leaves without their payload. */
  method BuildZone(order: nat, zone: Zone, ghost bare: seq<WriteLeaf>, mine: seq<WriteLeaf>, part: KeyFn, key: KeyFn,
                   counts: seq<nat>)
    returns (t: WriteTree)
    requires order >= 1 && SameNodes(bare, mine) && zone.leafCount == |mine|
    requires P.Counted(bare, InBox(part, zone.bbox), counts) && forall n, box :: part(n, box) < P.PARTITIONS
    ensures TreeOf(t, zone, mine) && InKeyOrder(t, part, key) && t.order == order
  {
    var partOf, keyOf := InBox(part, zone.bbox), InBox(key, zone.bbox);
    PartsBounded(part, zone.bbox);
    SameCounts(bare, mine, part, zone.bbox, counts);
    var leaves := FillLeaves(mine, partOf, keyOf, counts);
    t := BuildTree(order, zone.leafCount, leaves, WriteBox, zone.bbox);
  }

  // ---- all zones ----

  /** What the first pass hands on. */
  ghost predicate Scouted(zones: seq<Zone>, members: seq<multiset<Node>>, nodes: seq<Node>) {
    AllApart(zones) && Owned(zones, members, multiset(nodes)) && forall n :: n in nodes ==> n.Valid()
  }

  ghost predicate HasNodes(leaves: seq<WriteLeaf>, nodes: seq<Node>) {
    |leaves| == |nodes| && forall i :: 0 <= i < |leaves| ==> leaves[i].node == nodes[i]
  }

  lemma {:induction false} RoutedInside(zones: seq<Zone>, members: seq<multiset<Node>>, nodes: seq<Node>, n: Node,
                                        z: nat)
    requires Scouted(zones, members, nodes) && n in nodes && z < |zones|
    ensures ZoneOf(zones, n) < |zones| && (ZoneOf(zones, n) == z <==> zones[z].bbox.Contains(n))
  {
    RoutedHome(zones, members, nodes, n);
  }

  /** The leaves routed to a zone are, one for one, the rectangles inside its box. */
  lemma {:induction false} RoutedCount(zones: seq<Zone>, members: seq<multiset<Node>>, all: seq<Node>,
                                       leaves: seq<WriteLeaf>, nodes: seq<Node>, z: nat)
    requires Scouted(zones, members, all) && z < |zones| && HasNodes(leaves, nodes)
    requires forall n :: n in nodes ==> n in all
    ensures |P.OfPart(leaves, Routing(zones), z)| == |Zones.Inside(nodes, zones[z].bbox)|
  {
    if leaves != [] {
      var n := |leaves| - 1;
      RoutedCount(zones, members, all, leaves[..n], nodes[..n], z);
      RoutedInside(zones, members, all, nodes[n], z);
    }
  }

  lemma {:induction false} LeafCountIs(zones: seq<Zone>, members: seq<multiset<Node>>, nodes: seq<Node>,
                                       leaves: seq<WriteLeaf>, z: nat)
    requires Scouted(zones, members, nodes) && HasNodes(leaves, nodes) && z < |zones|
    ensures zones[z].leafCount == |P.OfPart(leaves, Routing(zones), z)|
  {
    RoutedCount(zones, members, nodes, leaves, nodes, z);
    ZoneCount(zones, members, nodes, z);
  }

  ghost predicate TreesOf(trees: seq<WriteTree>, zones: seq<Zone>, leaves: seq<WriteLeaf>) {
    |trees| <= |zones| && forall z :: 0 <= z < |trees| ==>
            TreeOf(trees[z], zones[z], P.OfPart(leaves, Routing(zones), z))
  }

  /** For every zone, the partition sizes of the leaves routed to it. */
  ghost predicate ZonesCounted(zones: seq<Zone>, leaves: seq<WriteLeaf>, part: KeyFn, counts: seq<seq<nat>>) {
    && |counts| <= |zones|
    && forall z :: 0 <= z < |counts| ==>
            P.Counted(P.OfPart(leaves, Routing(zones), z), InBox(part, zones[z].bbox), counts[z])
  }

  /** The second pass. */
  method CountZones(zones: seq<Zone>, bare: seq<WriteLeaf>, part: KeyFn) returns (counts: seq<seq<nat>>)
    requires forall n, box :: part(n, box) < P.PARTITIONS
    ensures ZonesCounted(zones, bare, part, counts) && |counts| == |zones|
  {
    counts := [];
    while |counts| < |zones|
      invariant ZonesCounted(zones, bare, part, counts)
    {
      var z := |counts|;
      PartsBounded(part, zones[z].bbox);
      var mine := CountPartitions(P.OfPart(bare, Routing(zones), z), InBox(part, zones[z].bbox));
      counts := counts + [mine];
    }
  }

  /** What the second pass counts for a zone adds up to what the first pass counted. */
  lemma {:induction false} CountsAddUp(zones: seq<Zone>, members: seq<multiset<Node>>, nodes: seq<Node>,
                                       bare: seq<WriteLeaf>, part: KeyFn, counts: seq<seq<nat>>)
    requires Scouted(zones, members, nodes) && HasNodes(bare, nodes) && ZonesCounted(zones, bare, part, counts)
    requires forall n, box :: part(n, box) < P.PARTITIONS
    ensures forall z :: 0 <= z < |counts| ==> Sum(counts[z]) == zones[z].leafCount && |counts[z]| == P.PARTITIONS
  {
    forall z | 0 <= z < |counts| ensures Sum(counts[z]) == zones[z].leafCount && |counts[z]| == P.PARTITIONS {
      PartsBounded(part, zones[z].bbox);
      P.CountsSum(P.OfPart(bare, Routing(zones), z), InBox(part, zones[z].bbox), counts[z]);
      LeafCountIs(zones, members, nodes, bare, z);
    }
  }

  ghost predicate AllInKeyOrder(trees: seq<WriteTree>, part: KeyFn, key: KeyFn) {
    forall z :: 0 <= z < |trees| ==> InKeyOrder(trees[z], part, key)
  }

  /** Builds the tree of every zone. */
  method BuildZones(order: nat, zones: seq<Zone>, ghost members: seq<multiset<Node>>, ghost nodes: seq<Node>,
                    ghost bare: seq<WriteLeaf>, leaves: seq<WriteLeaf>, part: KeyFn, key: KeyFn,
                    counts: seq<seq<nat>>)
    returns (trees: seq<WriteTree>)
    requires order >= 1 && forall n, box :: part(n, box) < P.PARTITIONS
    requires Scouted(zones, members, nodes) && HasNodes(bare, nodes) && HasNodes(leaves, nodes)
    requires ZonesCounted(zones, bare, part, counts) && |counts| == |zones|
    ensures TreesOf(trees, zones, leaves) && |trees| == |zones| && AllInKeyOrder(trees, part, key)
    ensures OfOrder(trees, order)
  {
    trees := [];
    while |trees| < |zones|
      invariant TreesOf(trees, zones, leaves) && AllInKeyOrder(trees, part, key) && OfOrder(trees, order)
    {
      var z := |trees|;
      SameRouting(bare, leaves, zones, z);
      LeafCountIs(zones, members, nodes, leaves, z);
      var mine := P.OfPart(leaves, Routing(zones), z);
      var t := BuildZone(order, zones[z], P.OfPart(bare, Routing(zones), z), mine, part, key, counts[z]);
      trees := trees + [t];
    }
  }

  // ---- all leaves are there, each once ----

  lemma {:induction false} TreeCount(t: WriteTree, zone: Zone, zones: seq<Zone>, leaves: seq<WriteLeaf>, z: nat,
                                     x: WriteLeaf)
    requires TreeOf(t, zone, P.OfPart(leaves, Routing(zones), z))
    ensures multiset(t.leaves)[x] == if ZoneOf(zones, x.node) == z then multiset(leaves)[x] else 0
  {
    P.OfPartCount(leaves, Routing(zones), z, x);
    assert Routing(zones)(x) == ZoneOf(zones, x.node);
  }

  lemma {:induction false} TreeCountAt(trees: seq<WriteTree>, zones: seq<Zone>, leaves: seq<WriteLeaf>, z: nat,
                                       x: WriteLeaf)
    requires TreesOf(trees, zones, leaves) && z < |trees|
    ensures multiset(trees[z].leaves)[x] == if ZoneOf(zones, x.node) == z then multiset(leaves)[x] else 0
  {
    TreeCount(trees[z], zones[z], zones, leaves, z, x);
  }

  lemma {:induction false} CountsAdd(trees: seq<WriteTree>, n: nat, x: WriteLeaf)
    requires 0 < n <= |trees|
    ensures multiset(MQ.Leaves(trees[..n]))[x]
            == multiset(trees[n - 1].leaves)[x] + multiset(MQ.Leaves(trees[..n - 1]))[x]
  {
    assert trees[..n][..n - 1] == trees[..n - 1];
  }

  /** The first `n` trees hold each leaf routed to the first `n` zones as often as it came. */
  lemma {:induction false} LeavesCount(trees: seq<WriteTree>, zones: seq<Zone>, leaves: seq<WriteLeaf>, n: nat,
                                       x: WriteLeaf)
    requires TreesOf(trees, zones, leaves) && n <= |trees|
    ensures multiset(MQ.Leaves(trees[..n]))[x] == if ZoneOf(zones, x.node) < n then multiset(leaves)[x] else 0
  {
    if n > 0 {
      LeavesCount(trees, zones, leaves, n - 1, x);
      TreeCountAt(trees, zones, leaves, n - 1, x);
      CountsAdd(trees, n, x);
    } else {
      assert trees[..0] == [];
    }
  }

  ghost predicate AllRouted(zones: seq<Zone>, leaves: seq<WriteLeaf>) {
    forall x :: x in leaves ==> ZoneOf(zones, x.node) < |zones|
  }

  lemma {:induction false} LeavesPermute(trees: seq<WriteTree>, zones: seq<Zone>, leaves: seq<WriteLeaf>)
    requires TreesOf(trees, zones, leaves) && |trees| == |zones| && AllRouted(zones, leaves)
    ensures multiset(MQ.Leaves(trees)) == multiset(leaves)
  {
    assert trees[..|trees|] == trees;
    forall x ensures multiset(MQ.Leaves(trees))[x] == multiset(leaves)[x] {
      LeavesCount(trees, zones, leaves, |trees|, x);
      assert x !in leaves ==> multiset(leaves)[x] == 0;
    }
  }

  lemma {:induction false} NodesRouted(zones: seq<Zone>, members: seq<multiset<Node>>, nodes: seq<Node>,
                                       leaves: seq<WriteLeaf>)
    requires Scouted(zones, members, nodes) && HasNodes(leaves, nodes)
    ensures AllRouted(zones, leaves)
  {
    forall x | x in leaves ensures ZoneOf(zones, x.node) < |zones| {
      var i :| 0 <= i < |leaves| && leaves[i] == x;
      assert nodes[i] in nodes;
      RoutedHome(zones, members, nodes, nodes[i]);
    }
  }

  // ---- properties that survive reordering ----

  lemma {:induction false} ApartOnce(xs: seq<WriteLeaf>, x: WriteLeaf)
    requires Apart(xs) && x.node.Valid()
    ensures multiset(xs)[x] <= 1
  {
    if xs != [] {
      var rest, last := xs[..|xs| - 1], xs[|xs| - 1];
      ApartOnce(rest, x);
      assert xs == rest + [last];
      assert forall i :: 0 <= i < |rest| ==> rest[i] == xs[i] && rest[i].node.Disjoint(last.node);
    }
  }

  lemma {:induction false} ApartPermuted(xs: seq<WriteLeaf>, ys: seq<WriteLeaf>)
    requires Apart(xs) && multiset(xs) == multiset(ys) && forall x :: x in xs ==> x.node.Valid()
    ensures Apart(ys)
  {
    forall i, j | 0 <= i < j < |ys| ensures ys[i].node.Disjoint(ys[j].node) {
      assert ys[i] in multiset(ys) && ys[j] in multiset(ys);
      var a :| 0 <= a < |xs| && xs[a] == ys[i];
      var b :| 0 <= b < |xs| && xs[b] == ys[j];
      if a == b {
        P.TwicePresent(ys, i, j);
        ApartOnce(xs, ys[i]);
      } else {
        assert xs[if a < b then a else b].node.Disjoint(xs[if a < b then b else a].node);
      }
    }
  }

  lemma {:induction false} MemberPermuted(xs: seq<WriteLeaf>, ys: seq<WriteLeaf>, x: WriteLeaf)
    requires multiset(xs) == multiset(ys)
    ensures x in xs <==> x in ys
  {
    assert x in xs <==> x in multiset(xs);
    assert x in ys <==> x in multiset(ys);
  }

  lemma {:induction false} IndexOf(xs: seq<WriteLeaf>, x: WriteLeaf) returns (i: nat)
    requires x in xs
    ensures i < |xs| && xs[i] == x
  {
    i :| 0 <= i < |xs| && xs[i] == x;
  }

  lemma {:induction false} CoverPermuted(xs: seq<WriteLeaf>, ys: seq<WriteLeaf>, x: Addr, t: Time)
    requires multiset(xs) == multiset(ys)
    ensures CoveredBy(xs, x, t) ==> CoveredBy(ys, x, t)
    ensures StartedBy(xs, x, t) ==> StartedBy(ys, x, t)
  {
    if i :| 0 <= i < |xs| && xs[i].node.Covers(x, t) {
      MemberPermuted(xs, ys, xs[i]);
      var j := IndexOf(ys, xs[i]);
    }
    if i :| 0 <= i < |xs| && xs[i].node.HasAddr(x) && xs[i].node.timeMin == t {
      MemberPermuted(xs, ys, xs[i]);
      var j := IndexOf(ys, xs[i]);
    }
  }

  // ---- the packed leaves describe the history ----

  lemma {:induction false} StoredPackable(leaf: Leaf, section: seq<Byte>)
    requires WellSized(leaf) && Stored(leaf.data, section) && |section| <= ADDR_MAX as int
    ensures Packable(leaf)
  {
  }

  lemma {:induction false} PackHolds(db: Db, h: seq<Access>, leaf: Leaf)
    requires LeafExact(h, leaf) && Stored(leaf.data, db.rawData) && |db.rawData| <= ADDR_MAX as int && Packable(leaf)
    ensures Holds(db, h, PackLeaf(leaf))
  {
    var w := PackLeaf(leaf);
    PackedRoundTrip(leaf.data, Content(leaf.data), db.rawData);
    assert db.Readable(w) && db.MemLeafData(w) == Content(leaf.data);
    forall x, t | w.node.Covers(x, t) ensures LastByte(h, x, t) == Some(db.ByteOf(w, x)) {
      assert LastByte(h, x, t) == Some(LeafByte(leaf, x));
    }
  }

  /** The leaves, in the order the trace emits them, describe the history. */
  ghost predicate PackedExact(db: Db, h: seq<Access>, end: Time, ls: seq<WriteLeaf>) {
    && (forall i :: 0 <= i < |ls| ==> Holds(db, h, ls[i]) && ls[i].node.timeMax <= end)
    && Apart(ls)
    && (forall x, t :: t <= end && LastByte(h, x, t).Some? ==> CoveredBy(ls, x, t))
    && (forall x, t :: WrittenAt(h, x, t) <==> StartedBy(ls, x, t))
  }

  lemma {:induction false} PackedSame(leaves: seq<Leaf>, ls: seq<WriteLeaf>, x: Addr, t: Time)
    requires |ls| == |leaves| && forall i :: 0 <= i < |ls| ==> ls[i].node == leaves[i].node
    ensures ClosedCovers(leaves, x, t) <==> CoveredBy(ls, x, t)
    ensures ClosedStarts(leaves, x, t) <==> StartedBy(ls, x, t)
  {
  }

  lemma {:induction false} PackExact(db: Db, h: seq<Access>, end: Time, leaves: seq<Leaf>)
    requires Exact(h, end, leaves) && LeavesStored(leaves, db.rawData) && |db.rawData| <= ADDR_MAX as int
    requires forall i :: 0 <= i < |leaves| ==> Packable(leaves[i])
    ensures PackedExact(db, h, end, PackLeaves(leaves))
  {
    var ls := PackLeaves(leaves);
    forall i | 0 <= i < |ls| ensures Holds(db, h, ls[i]) && ls[i].node.timeMax <= end {
      PackHolds(db, h, leaves[i]);
    }
    forall x, t
      ensures ClosedCovers(leaves, x, t) <==> CoveredBy(ls, x, t)
      ensures ClosedStarts(leaves, x, t) <==> StartedBy(ls, x, t)
    {
      PackedSame(leaves, ls, x, t);
    }
  }

  lemma {:induction false} PermutedExact(db: Db, h: seq<Access>, end: Time, ls: seq<WriteLeaf>, ms: seq<WriteLeaf>)
    requires PackedExact(db, h, end, ls) && multiset(ls) == multiset(ms)
    ensures PackedExact(db, h, end, ms)
  {
    forall x | x in ls ensures x.node.Valid() {
      var i := IndexOf(ls, x);
    }
    ApartPermuted(ls, ms);
    forall i | 0 <= i < |ms| ensures Holds(db, h, ms[i]) && ms[i].node.timeMax <= end {
      MemberPermuted(ls, ms, ms[i]);
      var j := IndexOf(ls, ms[i]);
    }
    forall x, t
      ensures CoveredBy(ls, x, t) <==> CoveredBy(ms, x, t)
      ensures StartedBy(ls, x, t) <==> StartedBy(ms, x, t)
    {
      CoverPermuted(ls, ms, x, t);
      CoverPermuted(ms, ls, x, t);
    }
  }

  // ---- the zones are well formed and stay apart ----

  lemma {:induction false} TreeLeafInside(trees: seq<WriteTree>, zones: seq<Zone>, members: seq<multiset<Node>>,
                                          nodes: seq<Node>, leaves: seq<WriteLeaf>, z: nat, leaf: WriteLeaf)
    requires Scouted(zones, members, nodes) && HasNodes(leaves, nodes) && TreesOf(trees, zones, leaves)
    requires z < |trees| && leaf in trees[z].leaves
    ensures zones[z].bbox.Contains(leaf.node)
  {
    assert TreeOf(trees[z], zones[z], P.OfPart(leaves, Routing(zones), z));
    MemberPermuted(trees[z].leaves, P.OfPart(leaves, Routing(zones), z), leaf);
    P.OfPartCount(leaves, Routing(zones), z, leaf);
    assert leaf in multiset(P.OfPart(leaves, Routing(zones), z));
    assert leaf in multiset(leaves) && Routing(zones)(leaf) == z;
    var i := IndexOf(leaves, leaf);
    assert nodes[i] in nodes;
    RoutedInside(zones, members, nodes, leaf.node, z);
  }

  lemma {:induction false} ZonesAreOk(trees: seq<WriteTree>, zones: seq<Zone>, members: seq<multiset<Node>>,
                                      nodes: seq<Node>, leaves: seq<WriteLeaf>)
    requires Scouted(zones, members, nodes) && HasNodes(leaves, nodes) && TreesOf(trees, zones, leaves)
    ensures forall z :: 0 <= z < |trees| ==> ZoneOk(trees[z])
  {
    forall z | 0 <= z < |trees| ensures ZoneOk(trees[z]) {
      assert TreeOf(trees[z], zones[z], P.OfPart(leaves, Routing(zones), z));
      assert Owns(zones[z], members[z]);
      forall leaf | leaf in trees[z].leaves ensures zones[z].bbox.Contains(leaf.node) {
        TreeLeafInside(trees, zones, members, nodes, leaves, z, leaf);
      }
    }
  }

  lemma {:induction false} BoxesApart(zones: seq<Zone>, i: nat, j: nat, a: Node, b: Node)
    requires AllApart(zones) && i < |zones| && j < |zones| && i != j
    requires zones[i].bbox.Contains(a) && zones[j].bbox.Contains(b) && a.Valid() && b.Valid()
    ensures a.addrMax as int + 1 != b.addrMin as int
  {
    assert FarApart(zones[if i < j then i else j].bbox, zones[if i < j then j else i].bbox);
  }

  lemma {:induction false} ZonesApart(trees: seq<WriteTree>, zones: seq<Zone>, members: seq<multiset<Node>>,
                                      nodes: seq<Node>, leaves: seq<WriteLeaf>)
    requires Scouted(zones, members, nodes) && HasNodes(leaves, nodes) && TreesOf(trees, zones, leaves)
    ensures SM.ZonesSeparate(trees)
  {
    forall i, j, a, b | 0 <= i < |trees| && 0 <= j < |trees| && i != j && a in trees[i].leaves && b in trees[j].leaves
      ensures a.node.addrMax as int + 1 != b.node.addrMin as int
    {
      TreeLeafInside(trees, zones, members, nodes, leaves, i, a);
      TreeLeafInside(trees, zones, members, nodes, leaves, j, b);
      LeafValid(trees, zones, members, nodes, leaves, i, a);
      LeafValid(trees, zones, members, nodes, leaves, j, b);
      BoxesApart(zones, i, j, a.node, b.node);
    }
  }

  lemma {:induction false} LeafValid(trees: seq<WriteTree>, zones: seq<Zone>, members: seq<multiset<Node>>,
                                     nodes: seq<Node>, leaves: seq<WriteLeaf>, z: nat, leaf: WriteLeaf)
    requires Scouted(zones, members, nodes) && HasNodes(leaves, nodes) && TreesOf(trees, zones, leaves)
    requires z < |trees| && leaf in trees[z].leaves
    ensures leaf.node.Valid()
  {
    assert TreeOf(trees[z], zones[z], P.OfPart(leaves, Routing(zones), z));
    MemberPermuted(trees[z].leaves, P.OfPart(leaves, Routing(zones), z), leaf);
    P.OfPartCount(leaves, Routing(zones), z, leaf);
    assert leaf in multiset(P.OfPart(leaves, Routing(zones), z));
    assert leaf in multiset(leaves);
    var i := IndexOf(leaves, leaf);
    assert nodes[i] in nodes;
  }

  // ---- the whole index ----

  lemma {:induction false} AllStoredPackable(h: seq<Access>, end: Time, leaves: seq<Leaf>, section: seq<Byte>)
    requires Exact(h, end, leaves) && LeavesStored(leaves, section) && |section| <= ADDR_MAX as int
    ensures forall i :: 0 <= i < |leaves| ==> Packable(leaves[i])
  {
    forall i | 0 <= i < |leaves| ensures Packable(leaves[i]) {
      StoredPackable(leaves[i], section);
    }
  }

  lemma {:induction false} ExactNodesValid(h: seq<Access>, leaves: seq<Leaf>)
    requires LeavesExact(h, leaves)
    ensures forall i :: 0 <= i < |leaves| ==> leaves[i].node.Valid()
    ensures forall n :: n in Nodes(leaves) ==> n.Valid()
  {
    forall i | 0 <= i < |leaves| ensures leaves[i].node.Valid() {
      assert LeafExact(h, leaves[i]);
    }
  }

  lemma {:induction false} Assemble(db: Db, h: seq<Access>, end: Time, zones: seq<Zone>, members: seq<multiset<Node>>,
                                    nodes: seq<Node>, leaves: seq<WriteLeaf>)
    requires Scouted(zones, members, nodes) && HasNodes(leaves, nodes)
    requires TreesOf(db.writeZones, zones, leaves) && |db.writeZones| == |zones|
    requires PackedExact(db, h, end, leaves)
    ensures Describes(db, h, end) && SM.ZonesSeparate(db.writeZones)
  {
    NodesRouted(zones, members, nodes, leaves);
    LeavesPermute(db.writeZones, zones, leaves);
    PermutedExact(db, h, end, leaves, db.Leaves());
    ZonesAreOk(db.writeZones, zones, members, nodes, leaves);
    ZonesApart(db.writeZones, zones, members, nodes, leaves);
  }

  /** What is known about the memory side between the passes. */
  ghost predicate MemoryScouted(events: seq<Access>, zones: seq<Zone>, members: seq<multiset<Node>>, required: nat) {
    InOrder(events) && Scouted(zones, members, StreamNodes(events)) && required == LongBytes(events)
  }

  /** First pass: zones and the room for long payloads. */
  method ScoutMemory(events: seq<Access>) returns (zones: seq<Zone>, ghost members: seq<multiset<Node>>, required: nat)
    requires InOrder(events)
    ensures MemoryScouted(events, zones, members, required)
    ensures AllApart(zones) && required == LongBytes(events)
  {
    var leaves := Normalize(events);
    ExactNodesValid(events, leaves);
    zones, members := ScoutZones(Nodes(leaves));
    required := CountLongBytes(events);
  }

  /** Second pass: the partition sizes of every zone. */
  method CountMemory(events: seq<Access>, zones: seq<Zone>, part: KeyFn)
    returns (counts: seq<seq<nat>>, ghost bare: seq<WriteLeaf>)
    requires InOrder(events) && forall n, box :: part(n, box) < P.PARTITIONS
    ensures HasNodes(bare, StreamNodes(events)) && ZonesCounted(zones, bare, part, counts) && |counts| == |zones|
  {
    var leaves := Normalize(events);
    var leafless := BareLeaves(leaves);
    counts := CountZones(zones, leafless, part);
    bare := leafless;
  }

  /** Third pass, then the node levels: the database says exactly what the accesses say. */
  method FillMemory(events: seq<Access>, order: nat, zones: seq<Zone>, ghost members: seq<multiset<Node>>,
                    required: nat, part: KeyFn, key: KeyFn, counts: seq<seq<nat>>, ghost bare: seq<WriteLeaf>)
    returns (db: Db)
    requires MemoryScouted(events, zones, members, required) && required <= ADDR_MAX as int
    requires order >= 1 && forall n, box :: part(n, box) < P.PARTITIONS
    requires HasNodes(bare, StreamNodes(events)) && ZonesCounted(zones, bare, part, counts) && |counts| == |zones|
    ensures Describes(db, events, EndOf(events)) && SM.ZonesSeparate(db.writeZones)
    ensures AllInKeyOrder(db.writeZones, part, key) && |db.rawData| <= required && SizedLike(db.writeZones, zones)
    ensures OfOrder(db.writeZones, order)
  {
    var storage := new Byte[required](_ => 0);
    var filled, used := NormalizeWithData(events, storage);
    var section := storage[..used];
    AllStoredPackable(events, EndOf(events), filled, section);
    ghost var nodes := StreamNodes(events);
    var leaves := PackLeaves(filled);
    HaveNodes(filled);
    var trees := BuildZones(order, zones, members, nodes, bare, leaves, part, key, counts);
    db := Db(trees, section);
    PackExact(db, events, EndOf(events), filled);
    Assemble(db, events, EndOf(events), zones, members, nodes, leaves);
    TreesSized(trees, zones, members, nodes, leaves);
  }

  /** Every tree has as many leaves as the first pass counted for its zone. */
  ghost predicate SizedLike(trees: seq<WriteTree>, zones: seq<Zone>) {
    |trees| == |zones| && forall z :: 0 <= z < |trees| ==> |trees[z].leaves| == zones[z].leafCount
  }

  lemma {:induction false} TreesSized(trees: seq<WriteTree>, zones: seq<Zone>, members: seq<multiset<Node>>,
                                      nodes: seq<Node>, leaves: seq<WriteLeaf>)
    requires Scouted(zones, members, nodes) && HasNodes(leaves, nodes) && TreesOf(trees, zones, leaves)
    requires |trees| == |zones|
    ensures SizedLike(trees, zones)
  {
    forall z | 0 <= z < |trees| ensures |trees[z].leaves| == zones[z].leafCount {
      var mine := P.OfPart(leaves, Routing(zones), z);
      assert TreeOf(trees[z], zones[z], mine);
      assert |multiset(trees[z].leaves)| == |multiset(mine)|;
      LeafCountIs(zones, members, nodes, leaves, z);
    }
  }

  lemma {:induction false} HaveNodes(filled: seq<Leaf>)
    requires forall i :: 0 <= i < |filled| ==> Packable(filled[i])
    ensures HasNodes(PackLeaves(filled), Nodes(filled))
  {
  }
}
