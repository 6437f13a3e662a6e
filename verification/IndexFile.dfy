/** The whole indexer: three passes over a trace, the layout of the file between them, and its views. */
module IndexFile {
  import opened Ranges
  import opened Sums
  import opened Zones
  import opened PackedTree
  import opened Build
  import opened MemoryDb
  import opened Passes
  import opened Index
  import opened Trace
  import opened Registers
  import RI = RegisterIndex
  import HI = History
  import L = Layout
  import C = Containment
  import V = Views
  import SV = StorageViews
  import P = Partition
  import MQ = MultiQuery
  import N = Nearby
  import SM = SearchMemory

  /** The keys along the curve. */
  datatype Keys = Keys(part: KeyFn, key: KeyFn, regPart: RI.RegKeyFn, regKey: RI.RegKeyFn) {
    ghost predicate Valid() {
      (forall n, box :: part(n, box) < P.PARTITIONS) && forall leaf, box :: regPart(leaf, box) < P.PARTITIONS
    }
  }

  /** Sizes and alignments of everything that is stored. */
  datatype Shapes = Shapes(kinds: L.Kinds, node: L.Kind, writeLeaf: L.Kind, readLeaf: L.Kind, regNode: L.Kind,
                           regLeaf: L.Kind, metadata: nat)
  {
    ghost predicate Valid() {
      && kinds.Valid() && node.Valid() && writeLeaf.Valid() && readLeaf.Valid() && regNode.Valid() && regLeaf.Valid()
    }
  }

  // ---- the scout's sizes ----

  /** Room for one tree over `n` leaves: its levels, its nodes, its leaves. */
  ghost predicate RoomFor(t: L.TreeScout, order: nat, n: nat)
    requires Pow2(order) >= 2
  {
    t.leaves == n && t.nodes == Sum(Sizes(Pow2(order), n)) && t.levels == |Sizes(Pow2(order), n)|
  }

  ghost predicate RoomForAll(trees: seq<L.TreeScout>, order: nat, counts: seq<nat>)
    requires Pow2(order) >= 2
  {
    |trees| <= |counts| && forall i :: 0 <= i < |trees| ==> RoomFor(trees[i], order, counts[i])
  }

  method ScoutTrees(order: nat, counts: seq<nat>) returns (trees: seq<L.TreeScout>)
    requires order >= 1 && Pow2(order) >= 2
    ensures RoomForAll(trees, order, counts) && |trees| == |counts|
  {
    trees := [];
    while |trees| < |counts|
      invariant RoomForAll(trees, order, counts)
    {
      var n := counts[|trees|];
      var nodeCount, levels := ComputeLevels(n, order);
      trees := trees + [L.TreeScout(|levels|, nodeCount, n)];
    }
  }

  function ZoneCounts(zones: seq<Zone>): (r: seq<nat>)
    ensures |r| == |zones| && forall z :: 0 <= z < |zones| ==> r[z] == zones[z].leafCount
  {
    seq(|zones|, z requires 0 <= z < |zones| => zones[z].leafCount)
  }

  function RegCounts(scouts: seq<RI.RegScout>): (r: seq<nat>)
    ensures |r| == |scouts| && forall i :: 0 <= i < |scouts| ==> r[i] == scouts[i].leafCount
  {
    seq(|scouts|, i requires 0 <= i < |scouts| => scouts[i].leafCount)
  }

  // ---- the readNodes ----

  function BareNodes(nodes: seq<Node>): (r: seq<WriteLeaf>)
    ensures HasNodes(r, nodes)
  {
    seq(|nodes|, i requires 0 <= i < |nodes| => WriteLeaf(nodes[i], 0))
  }

  /** The read trees can be searched and hold exactly the readNodes. */
  ghost predicate ReadsIndexed(trees: seq<WriteTree>, readNodes: seq<Node>) {
    && (forall z :: 0 <= z < |trees| ==> N.TreeOk(trees[z], WriteBox))
    && multiset(MQ.Leaves(trees)) == multiset(BareNodes(readNodes))
  }

  method FillReads(order: nat, zones: seq<Zone>, ghost members: seq<multiset<Node>>, readNodes: seq<Node>, keys: Keys,
                   counts: seq<seq<nat>>)
    returns (trees: seq<WriteTree>)
    requires order >= 1 && keys.Valid() && Scouted(zones, members, readNodes)
    requires ZonesCounted(zones, BareNodes(readNodes), keys.part, counts) && |counts| == |zones|
    ensures ReadsIndexed(trees, readNodes) && SizedLike(trees, zones) && AllInKeyOrder(trees, keys.part, keys.key)
    ensures C.OfOrder(trees, order)
  {
    var leaves := BareNodes(readNodes);
    trees := BuildZones(order, zones, members, readNodes, leaves, leaves, keys.part, keys.key, counts);
    NodesRouted(zones, members, readNodes, leaves);
    LeavesPermute(trees, zones, leaves);
    TreesSized(trees, zones, members, readNodes, leaves);
    ZonesAreOk(trees, zones, members, readNodes, leaves);
    forall z | 0 <= z < |trees| ensures N.TreeOk(trees[z], WriteBox) {
      forall leaf | leaf in trees[z].leaves ensures leaf.node.Valid() {
        LeafValid(trees, zones, members, readNodes, leaves, z, leaf);
      }
    }
  }

  lemma {:induction false} ReadStarts(trees: seq<WriteTree>, trace: seq<Event>, m: Matcher, u: Time)
    requires Trace.WellFormed(trace) && ReadsIndexed(trees, Reads(trace)) && m.Valid() && ReadAt(trace, m, u)
    ensures N.StartsAt(MQ.Leaves(trees), WriteBox, m, u)
  {
    var all, nodes := MQ.Leaves(trees), Reads(trace);
    ReadsValid(trace);
    var i, x :| 0 <= i < |trace| && Reading(trace[i], x, u) && m.Scalar(x);
    ReadsAre(trace, x, u);
    var k :| 0 <= k < |nodes| && nodes[k].HasAddr(x) && nodes[k].timeMin == u;
    MemberPermuted(BareNodes(nodes), all, BareNodes(nodes)[k]);
    var j := IndexOf(all, BareNodes(nodes)[k]);
    assert nodes[k] in nodes && nodes[k].Addrs().Contains(x);
    MatchRangeIsSomeScalar(m, nodes[k].Addrs());
    assert m.Range(WriteBox(all[j]).Addrs()) && WriteBox(all[j]).timeMin == u;
  }

  lemma {:induction false} StartIsRead(trees: seq<WriteTree>, trace: seq<Event>, m: Matcher, u: Time)
    requires Trace.WellFormed(trace) && ReadsIndexed(trees, Reads(trace)) && m.Valid()
    requires N.StartsAt(MQ.Leaves(trees), WriteBox, m, u)
    ensures ReadAt(trace, m, u)
  {
    var all, nodes := MQ.Leaves(trees), Reads(trace);
    ReadsValid(trace);
    var j :| 0 <= j < |all| && m.Range(WriteBox(all[j]).Addrs()) && WriteBox(all[j]).timeMin == u;
    MemberPermuted(BareNodes(nodes), all, all[j]);
    var k := IndexOf(BareNodes(nodes), all[j]);
    assert nodes[k] in nodes;
    MatchRangeIsSomeScalar(m, nodes[k].Addrs());
    var x :| nodes[k].Addrs().Contains(x) && m.Scalar(x);
    assert ReadBy(nodes, x, u);
    ReadsAre(trace, x, u);
  }

  /** A read leaf with matching addresses starts exactly where the trace reads a matching address. */
  lemma {:induction false} ReadIsStart(trees: seq<WriteTree>, trace: seq<Event>, m: Matcher, u: Time)
    requires Trace.WellFormed(trace) && ReadsIndexed(trees, Reads(trace)) && m.Valid()
    ensures ReadAt(trace, m, u) <==> N.StartsAt(MQ.Leaves(trees), WriteBox, m, u)
  {
    if ReadAt(trace, m, u) {
      ReadStarts(trees, trace, m, u);
    }
    if N.StartsAt(MQ.Leaves(trees), WriteBox, m, u) {
      StartIsRead(trees, trace, m, u);
    }
  }

  ghost predicate LastReadBefore(trace: seq<Event>, m: Matcher, time: Time, r: Option<Time>) {
    match r
    case None => forall u :: u < time ==> !ReadAt(trace, m, u)
    case Some(v) => v < time && ReadAt(trace, m, v) && forall u :: u < time && ReadAt(trace, m, u) ==> u <= v
  }

  ghost predicate FirstReadAfter(trace: seq<Event>, m: Matcher, time: Time, r: Option<Time>) {
    match r
    case None => forall u :: time < u ==> !ReadAt(trace, m, u)
    case Some(v) => time < v && ReadAt(trace, m, v) && forall u :: time < u && ReadAt(trace, m, u) ==> v <= u
  }

  /** The latest time strictly before the given one at which a matching address was read. */
  method PrevMemRead(trees: seq<WriteTree>, time: Time, m: Matcher, ghost trace: seq<Event>) returns (r: Option<Time>)
    requires Trace.WellFormed(trace) && ReadsIndexed(trees, Reads(trace)) && m.Valid()
    ensures LastReadBefore(trace, m, time, r)
  {
    r := N.PrevOverZones(trees, WriteBox, time, m);
    forall u ensures ReadAt(trace, m, u) <==> N.StartsAt(MQ.Leaves(trees), WriteBox, m, u) {
      ReadIsStart(trees, trace, m, u);
    }
  }

  /** The earliest time strictly after it. */
  method NextMemRead(trees: seq<WriteTree>, time: Time, m: Matcher, ghost trace: seq<Event>) returns (r: Option<Time>)
    requires Trace.WellFormed(trace) && ReadsIndexed(trees, Reads(trace)) && m.Valid()
    ensures FirstReadAfter(trace, m, time, r)
  {
    r := N.NextOverZones(trees, WriteBox, time, m);
    forall u ensures ReadAt(trace, m, u) <==> N.StartsAt(MQ.Leaves(trees), WriteBox, m, u) {
      ReadIsStart(trees, trace, m, u);
    }
  }

  // ---- the file ----

  /** The first pass's sizes of all trees. */
  ghost predicate SizesOf(s: L.Scout, shapes: Shapes, order: nat, write: seq<nat>, read: seq<nat>, regs: seq<nat>,
                          required: nat)
    requires Pow2(order) >= 2
  {
    && s == L.Scout(shapes.kinds, shapes.metadata, L.ListScout(shapes.node, shapes.writeLeaf, s.write.trees),
                    L.ListScout(shapes.node, shapes.readLeaf, s.read.trees),
                    L.ListScout(shapes.regNode, shapes.regLeaf, s.registers.trees), required)
    && RoomForAll(s.write.trees, order, write) && |s.write.trees| == |write|
    && RoomForAll(s.read.trees, order, read) && |s.read.trees| == |read|
    && RoomForAll(s.registers.trees, order, regs) && |s.registers.trees| == |regs|
  }

  method ScoutSizes(shapes: Shapes, order: nat, write: seq<nat>, read: seq<nat>, regs: seq<nat>, required: nat)
    returns (s: L.Scout)
    requires shapes.Valid() && order >= 1 && Pow2(order) >= 2
    ensures s.Valid() && SizesOf(s, shapes, order, write, read, regs, required)
  {
    var w := ScoutTrees(order, write);
    var r := ScoutTrees(order, read);
    var g := ScoutTrees(order, regs);
    s := L.Scout(shapes.kinds, shapes.metadata, L.ListScout(shapes.node, shapes.writeLeaf, w),
                 L.ListScout(shapes.node, shapes.readLeaf, r), L.ListScout(shapes.regNode, shapes.regLeaf, g),
                 required);
  }

  ghost predicate AddUp(counts: seq<seq<nat>>, totals: seq<nat>) {
    && |counts| == |totals|
    && forall i :: 0 <= i < |counts| ==> Sum(counts[i]) == totals[i] && |counts[i]| == P.PARTITIONS
  }

  /** What the second pass counts fits into what the first pass made room for. */
  lemma {:induction false} CountsFit(s: L.Scout, shapes: Shapes, order: nat, write: seq<nat>, read: seq<nat>,
                                     regs: seq<nat>, required: nat, c: V.Counts)
    requires Pow2(order) >= 2 && SizesOf(s, shapes, order, write, read, regs, required)
    requires AddUp(c.write, write) && AddUp(c.read, read) && AddUp(c.registers, regs)
    ensures V.AgreeAll(c, s)
  {
    forall i | 0 <= i < |write| ensures Sum(c.write[i]) == s.write.trees[i].leaves {
      assert RoomFor(s.write.trees[i], order, write[i]);
    }
    forall i | 0 <= i < |read| ensures Sum(c.read[i]) == s.read.trees[i].leaves {
      assert RoomFor(s.read.trees[i], order, read[i]);
    }
    forall i | 0 <= i < |regs| ensures Sum(c.registers[i]) == s.registers.trees[i].leaves {
      assert RoomFor(s.registers.trees[i], order, regs[i]);
    }
  }

  /** Everything the first pass hands on. */
  datatype Scouting = Scouting(zones: seq<Zone>, readZones: seq<Zone>, tiles: seq<seq<RegLeaf>>,
                               scouts: seq<RI.RegScout>, required: nat)

  ghost predicate ScoutedAll(trace: seq<Event>, sc: Scouting, members: seq<multiset<Node>>,
                             readMembers: seq<multiset<Node>>)
  {
    && Trace.WellFormed(trace) && MemoryScouted(Accesses(trace), sc.zones, members, sc.required)
    && Scouted(sc.readZones, readMembers, Reads(trace))
    && RI.AllTiled(Timed(trace), sc.tiles) && RI.RegistersScouted(sc.tiles, sc.scouts) && |sc.scouts| == |sc.tiles|
  }

  /** First pass over the trace. */
  method ScoutPass(trace: seq<Event>)
    returns (sc: Scouting, ghost members: seq<multiset<Node>>, ghost readMembers: seq<multiset<Node>>)
    requires Trace.WellFormed(trace)
    ensures ScoutedAll(trace, sc, members, readMembers)
    ensures AllApart(sc.zones) && AllApart(sc.readZones) && RI.AllTiled(Timed(trace), sc.tiles)
  {
    AccessesInOrder(trace);
    ReadsValid(trace);
    var zones, readZones, required;
    zones, members, required := ScoutMemory(Accesses(trace));
    var nodes := Reads(trace);
    assert forall i :: 0 <= i < |nodes| ==> nodes[i] in nodes;
    readZones, readMembers := ScoutZones(nodes);
    var tiles := RI.NormalizeRegisters(Timed(trace));
    var scouts := RI.ScoutRegisters(tiles);
    sc := Scouting(zones, readZones, tiles, scouts, required);
  }

  ghost predicate CountedAll(trace: seq<Event>, sc: Scouting, keys: Keys, bare: seq<WriteLeaf>, c: V.Counts)
    requires Trace.WellFormed(trace)
  {
    && HasNodes(bare, StreamNodes(Accesses(trace)))
    && ZonesCounted(sc.zones, bare, keys.part, c.write) && |c.write| == |sc.zones|
    && ZonesCounted(sc.readZones, BareNodes(Reads(trace)), keys.part, c.read) && |c.read| == |sc.readZones|
    && RI.RegistersCounted(sc.tiles, sc.scouts, keys.regPart, c.registers) && |c.registers| == |sc.tiles|
  }

  /** Second pass over the trace. */
  method PartitionPass(trace: seq<Event>, sc: Scouting, ghost members: seq<multiset<Node>>,
                       ghost readMembers: seq<multiset<Node>>, keys: Keys)
    returns (c: V.Counts, ghost bare: seq<WriteLeaf>)
    requires ScoutedAll(trace, sc, members, readMembers) && keys.Valid()
    ensures CountedAll(trace, sc, keys, bare, c)
    ensures AddUp(c.write, ZoneCounts(sc.zones)) && AddUp(c.read, ZoneCounts(sc.readZones))
    ensures AddUp(c.registers, RegCounts(sc.scouts))
  {
    var write;
    write, bare := CountMemory(Accesses(trace), sc.zones, keys.part);
    var read := CountZones(sc.readZones, BareNodes(Reads(trace)), keys.part);
    var registers := RI.CountRegisters(sc.tiles, sc.scouts, keys.regPart);
    c := V.Counts(write, read, registers);
    AllAddUp(trace, sc, members, readMembers, keys, bare, c);
  }

  lemma {:induction false} AllAddUp(trace: seq<Event>, sc: Scouting, members: seq<multiset<Node>>,
                                    readMembers: seq<multiset<Node>>, keys: Keys, bare: seq<WriteLeaf>, c: V.Counts)
    requires ScoutedAll(trace, sc, members, readMembers) && keys.Valid() && CountedAll(trace, sc, keys, bare, c)
    ensures AddUp(c.write, ZoneCounts(sc.zones)) && AddUp(c.read, ZoneCounts(sc.readZones))
    ensures AddUp(c.registers, RegCounts(sc.scouts))
  {
    CountsAddUp(sc.zones, members, StreamNodes(Accesses(trace)), bare, keys.part, c.write);
    CountsAddUp(sc.readZones, readMembers, Reads(trace), BareNodes(Reads(trace)), keys.part, c.read);
    RI.RegisterCountsAddUp(sc.tiles, sc.scouts, keys.regPart, c.registers);
  }

  /** Every view is the section of the layout it is named after. */
  ghost predicate Cut(l: L.StorageLayout, s: L.Scout, c: V.Counts, storage: seq<Byte>, v: SV.StorageView) {
    s.Valid() && L.Placed(l, s) && V.AgreeAll(c, s) && |storage| == l.size && SV.Viewed(v, storage, l, s, c)
  }

  /** Lays out the file for what the first pass scouted. */
  method LayOut(order: nat, shapes: Shapes, sc: Scouting) returns (l: L.StorageLayout, s: L.Scout)
    requires order >= 1 && Pow2(order) >= 2 && shapes.Valid()
    ensures s.Valid() && L.Placed(l, s)
    ensures SizesOf(s, shapes, order, ZoneCounts(sc.zones), ZoneCounts(sc.readZones), RegCounts(sc.scouts), sc.required)
  {
    s := ScoutSizes(shapes, order, ZoneCounts(sc.zones), ZoneCounts(sc.readZones), RegCounts(sc.scouts), sc.required);
    l := L.BuildStorageLayout(s);
  }

  /** Cuts the storage up for what the second pass counted: it never fails. */
  method CutUp(trace: seq<Event>, order: nat, shapes: Shapes, keys: Keys, sc: Scouting,
               ghost members: seq<multiset<Node>>, ghost readMembers: seq<multiset<Node>>, c: V.Counts,
               ghost bare: seq<WriteLeaf>, l: L.StorageLayout, s: L.Scout, storage: seq<Byte>)
    returns (views: SV.StorageView)
    requires keys.Valid() && Pow2(order) >= 2 && s.Valid() && L.Placed(l, s) && |storage| == l.size
    requires ScoutedAll(trace, sc, members, readMembers) && CountedAll(trace, sc, keys, bare, c)
    requires SizesOf(s, shapes, order, ZoneCounts(sc.zones), ZoneCounts(sc.readZones), RegCounts(sc.scouts),
                     sc.required)
    ensures Cut(l, s, c, storage, views)
  {
    AllAddUp(trace, sc, members, readMembers, keys, bare, c);
    CountsFit(s, shapes, order, ZoneCounts(sc.zones), ZoneCounts(sc.readZones), RegCounts(sc.scouts), sc.required, c);
    views := SV.BuildStorageViews(storage, l, s, c);
  }

  // ---- the whole indexer ----

  datatype Built = Built(db: Db, readZones: seq<WriteTree>, registers: seq<RegTree>)

  /** What is in the index: memory, reads and registers of the trace, exactly, all leaves of memory in key order. */
  ghost predicate Indexed(trace: seq<Event>, keys: Keys, b: Built, tiles: seq<seq<RegLeaf>>) {
    && Trace.WellFormed(trace)
    && Describes(b.db, Accesses(trace), EndOf(Accesses(trace))) && SM.ZonesSeparate(b.db.writeZones)
    && AllInKeyOrder(b.db.writeZones, keys.part, keys.key)
    && ReadsIndexed(b.readZones, Reads(trace)) && AllInKeyOrder(b.readZones, keys.part, keys.key)
    && RI.IndexAll(Timed(trace), b.registers, tiles) && |b.registers| == |tiles|
    && RI.AllRegInKeyOrder(b.registers, keys.regPart, keys.regKey)
  }

  /** Third pass over the trace. */
  method FillPass(trace: seq<Event>, order: nat, keys: Keys, sc: Scouting, ghost members: seq<multiset<Node>>,
                  ghost readMembers: seq<multiset<Node>>, c: V.Counts, ghost bare: seq<WriteLeaf>)
    returns (b: Built)
    requires order >= 1 && keys.Valid() && sc.required <= ADDR_MAX as int
    requires ScoutedAll(trace, sc, members, readMembers) && CountedAll(trace, sc, keys, bare, c)
    ensures Indexed(trace, keys, b, sc.tiles)
    ensures SizedLike(b.db.writeZones, sc.zones) && SizedLike(b.readZones, sc.readZones)
    ensures C.OfOrder(b.db.writeZones, order) && C.OfOrder(b.readZones, order) && C.OfOrder(b.registers, order)
    ensures |b.db.rawData| <= sc.required
  {
    var db := FillMemory(Accesses(trace), order, sc.zones, members, sc.required, keys.part, keys.key, c.write, bare);
    var readTrees := FillReads(order, sc.readZones, readMembers, Reads(trace), keys, c.read);
    var registers := RI.FillRegisters(Timed(trace), order, sc.tiles, sc.scouts, keys.regPart, keys.regKey, c.registers);
    b := Built(db, readTrees, registers);
  }

  /** The file is laid out for the trace, cut up without fail, and cut off behind the data in use, with nothing else
      cut into. */
  ghost predicate FileOk(b: Built, l: L.StorageLayout, s: L.Scout, c: V.Counts, storage: seq<Byte>,
                         views: SV.StorageView, size: nat)
  {
    && Cut(l, s, c, storage, views) && size == l.data.start + |b.db.rawData| <= l.size
    && V.RestBefore(l, l.data.start)
    && RoomForTrees(s.write.trees, b.db.writeZones) && RoomForTrees(s.read.trees, b.readZones)
    && RoomForTrees(s.registers.trees, b.registers)
  }

  /** The sections of a tree have room for exactly its levels, nodes and leaves. */
  ghost predicate RoomForTree<T>(room: L.TreeScout, t: RTree<Node, T>) {
    room.levels == |t.levels| && room.nodes == |Flatten(t.levels)| && room.leaves == |t.leaves|
  }

  ghost predicate RoomForTrees<T>(rooms: seq<L.TreeScout>, trees: seq<RTree<Node, T>>) {
    |rooms| == |trees| && forall z :: 0 <= z < |trees| ==> RoomForTree(rooms[z], trees[z])
  }

  lemma {:induction false} TreesBuilt(trace: seq<Event>, keys: Keys, b: Built, tiles: seq<seq<RegLeaf>>)
    requires Indexed(trace, keys, b, tiles)
    ensures forall z :: 0 <= z < |b.db.writeZones| ==> C.Built(b.db.writeZones[z], WriteBox)
    ensures forall z :: 0 <= z < |b.readZones| ==> C.Built(b.readZones[z], WriteBox)
  {
    forall z | 0 <= z < |b.db.writeZones| ensures C.Built(b.db.writeZones[z], WriteBox) {
      assert ZoneOk(b.db.writeZones[z]);
    }
    forall z | 0 <= z < |b.readZones| ensures C.Built(b.readZones[z], WriteBox) {
      assert N.TreeOk(b.readZones[z], WriteBox);
    }
  }

  lemma {:induction false} RoomIsRight<T>(room: L.TreeScout, order: nat, t: RTree<Node, T>, box: T -> Node)
    requires Pow2(order) >= 2 && RoomFor(room, order, |t.leaves|) && t.order == order && C.Built(t, box)
    ensures RoomForTree(room, t)
  {
    TreeCounts(t, C.Boxes(t.leaves, box));
  }

  lemma {:induction false} SizesMatch(rooms: seq<L.TreeScout>, order: nat, zones: seq<Zone>, trees: seq<WriteTree>)
    requires Pow2(order) >= 2 && RoomForAll(rooms, order, ZoneCounts(zones)) && |rooms| == |zones|
    requires SizedLike(trees, zones) && C.OfOrder(trees, order)
    requires forall z :: 0 <= z < |trees| ==> C.Built(trees[z], WriteBox)
    ensures RoomForTrees(rooms, trees)
  {
    forall z | 0 <= z < |trees| ensures RoomForTree(rooms[z], trees[z]) {
      assert RoomFor(rooms[z], order, ZoneCounts(zones)[z]);
      RoomIsRight(rooms[z], order, trees[z], WriteBox);
    }
  }

  lemma {:induction false} RegisterSizesMatch(rooms: seq<L.TreeScout>, order: nat, sc: Scouting,
                                              events: seq<RI.TimedEvent>, trees: seq<RegTree>)
    requires Pow2(order) >= 2 && RoomForAll(rooms, order, RegCounts(sc.scouts)) && |rooms| == |sc.scouts| == |sc.tiles|
    requires RI.RegistersScouted(sc.tiles, sc.scouts) && RI.IndexAll(events, trees, sc.tiles) && |trees| == |sc.tiles|
    requires C.OfOrder(trees, order)
    ensures RoomForTrees(rooms, trees)
  {
    forall r | 0 <= r < |trees| ensures RoomForTree(rooms[r], trees[r]) {
      assert RoomFor(rooms[r], order, RegCounts(sc.scouts)[r]) && RI.ScoutedAs(sc.tiles[r], sc.scouts[r]);
      assert multiset(trees[r].leaves) == multiset(sc.tiles[r]);
      assert |multiset(trees[r].leaves)| == |trees[r].leaves|;
      RoomIsRight(rooms[r], order, trees[r], LeafBox);
    }
  }

  /** Scout, lay out, partition, cut up, fill, and cut off the unused data. */
  method BuildIndex(trace: seq<Event>, order: nat, shapes: Shapes, keys: Keys)
    returns (b: Built, l: L.StorageLayout, size: nat, ghost tiles: seq<seq<RegLeaf>>, ghost s: L.Scout,
             ghost c: V.Counts, ghost storage: seq<Byte>, ghost views: SV.StorageView)
    requires Trace.WellFormed(trace) && LongBytes(Accesses(trace)) <= ADDR_MAX as int
    requires order >= 1 && shapes.Valid() && keys.Valid()
    ensures Indexed(trace, keys, b, tiles) && FileOk(b, l, s, c, storage, views, size)
    ensures Describes(b.db, Accesses(trace), EndOf(Accesses(trace))) && ReadsIndexed(b.readZones, Reads(trace))
    ensures HI.AsTraced(trace)
    ensures |b.registers| == RI.Count(Timed(trace)) && size == l.data.start + |b.db.rawData| <= l.size
  {
    Pow2AtLeast2(order);
    var sc, scout, counts;
    ghost var members, readMembers, bare;
    sc, members, readMembers := ScoutPass(trace);
    l, scout := LayOut(order, shapes, sc);
    counts, bare := PartitionPass(trace, sc, members, readMembers, keys);
    var bytes := seq(l.size, _ => 0);
    var cut := CutUp(trace, order, shapes, keys, sc, members, readMembers, counts, bare, l, scout, bytes);
    b := FillPass(trace, order, keys, sc, members, readMembers, counts, bare);
    V.DataLast(l, scout, |b.db.rawData|);
    size := l.size - (sc.required - |b.db.rawData|);
    TreesBuilt(trace, keys, b, sc.tiles);
    SizesMatch(scout.write.trees, order, sc.zones, b.db.writeZones);
    SizesMatch(scout.read.trees, order, sc.readZones, b.readZones);
    RegisterSizesMatch(scout.registers.trees, order, sc, Timed(trace), b.registers);
    HI.AccessesTraced(trace);
    HI.RegistersTraced(trace);
    tiles, s, c, storage, views := sc.tiles, scout, counts, bytes, cut;
  }
}
