/** The passes of the indexer over the memory accesses of a trace. */
module Passes {
  import opened Ranges
  import opened Payload
  import opened Disjoint
  import opened Streams
  import opened Zones
  import opened PackedTree
  import opened Build
  import opened Containment
  import P = Partition

  // ---- producing the leaves ----

  ghost predicate InOrder(events: seq<Access>) {
    TimeOrdered(events, TIME_MAX)
  }

  /** The time of the last memory event. */
  function EndOf(events: seq<Access>): Time {
    if events == [] then 0 else events[|events| - 1].time
  }

  function Nodes(ls: seq<Leaf>): (ns: seq<Node>)
    ensures |ns| == |ls| && forall i :: 0 <= i < |ls| ==> ns[i] == ls[i].node
  {
    seq(|ls|, i requires 0 <= i < |ls| => ls[i].node)
  }

  /** The rectangles of all leaves of the trace. */
  ghost function StreamNodes(events: seq<Access>): seq<Node> {
    Nodes(Stream(events, EndOf(events)))
  }

  lemma {:induction false} ErasedNodes(ls: seq<Leaf>)
    ensures Nodes(EraseAll(ls)) == Nodes(ls)
  {
  }

  lemma {:induction false} NextEvent(events: seq<Access>, i: nat)
    requires InOrder(events) && i < |events|
    ensures events[..i] + [events[i]] == events[..i + 1] && events[i].Valid()
    ensures EndOf(events[..i]) <= events[i].time && EndOf(events[..i + 1]) == events[i].time
  {
  }

  /** The first two passes: leaves without payload. */
  method Normalize(events: seq<Access>) returns (leaves: seq<Leaf>)
    requires InOrder(events)
    ensures Nodes(leaves) == StreamNodes(events) && LeavesExact(events, leaves)
  {
    var disjoint := new DisjointPass();
    leaves := [];
    var i := 0;
    while i < |events|
      invariant 0 <= i <= |events| && disjoint.Valid() && disjoint.currentTime == EndOf(events[..i])
      invariant disjoint.history == events[..i] && disjoint.emitted == leaves
      invariant Tracks(events[..i], disjoint.temporaries, leaves)
    {
      NextEvent(events, i);
      var e := events[i];
      TracksStep(events[..i], disjoint.temporaries, leaves, e, NoData);
      var out := disjoint.PushMemoryWrite(e.time, e.addr, e.bytes, NoData, e.canDedup);
      leaves := leaves + out;
      i := i + 1;
    }
    assert events[..i] == events;
    TracksEnd(events, disjoint.temporaries, leaves, disjoint.currentTime);
    var last := disjoint.Finish();
    leaves := leaves + last;
    ErasedNodes(leaves);
  }

  function LongBytes(events: seq<Access>): nat {
    if events == [] then 0
    else
      var n := |events[|events| - 1].bytes|;
      LongBytes(events[..|events| - 1]) + if n > INLINE_MAX then n else 0
  }

  /** An access takes up room exactly if it has more than eight bytes, and rooms add up. */
  lemma {:induction false} LongBytesAddUp(a: seq<Access>, b: seq<Access>, e: Access)
    ensures LongBytes(a + b) == LongBytes(a) + LongBytes(b)
    ensures LongBytes([e]) == if |e.bytes| > 8 then |e.bytes| else 0
  {
    if b == [] {
      assert a + b == a;
    } else {
      assert (a + b)[..|a + b| - 1] == a + b[..|b| - 1];
      LongBytesAddUp(a, b[..|b| - 1], e);
    }
  }

  lemma {:induction false} LongBytesPrefix(events: seq<Access>, i: nat)
    requires i <= |events|
    ensures LongBytes(events[..i]) <= LongBytes(events)
    decreases |events|
  {
    if i < |events| {
      LongBytesPrefix(events[..|events| - 1], i);
      assert events[..|events| - 1][..i] == events[..i];
    } else {
      assert events[..i] == events;
    }
  }

  /** The room the first pass reserves for long payloads. */
  method CountLongBytes(events: seq<Access>) returns (n: nat)
    ensures n == LongBytes(events)
  {
    n := 0;
    var i := 0;
    while i < |events|
      invariant 0 <= i <= |events| && n == LongBytes(events[..i])
    {
      if |events[i].bytes| > INLINE_MAX {
        n := n + |events[i].bytes|;
      }
      assert events[..i + 1][..i] == events[..i];
      i := i + 1;
    }
    assert events[..i] == events;
  }

  lemma {:induction false} OutlineStored(memo: map<seq<Byte>, nat>, used: seq<Byte>, bytes: seq<Byte>)
    requires MemoValid(memo, used) && bytes in memo && |bytes| > INLINE_MAX
    ensures Carries(Outline(memo[bytes], bytes), bytes) && Stored(Outline(memo[bytes], bytes), used)
  {
  }

  /** The payload of one access: short bytes inline, long bytes stored once. */
  method MapData(dedup: DataDedup, bytes: seq<Byte>) returns (data: Data, ghost more: seq<Byte>)
    requires dedup.Valid()
    requires |bytes| > INLINE_MAX ==> LongTotal(dedup.inserted) + |bytes| <= dedup.storage.Length
    modifies dedup, dedup.storage
    ensures dedup.Valid() && Carries(data, bytes)
    ensures dedup.storage[..dedup.used] == old(dedup.storage[..dedup.used]) + more
    ensures Stored(data, dedup.storage[..dedup.used])
    ensures LongTotal(dedup.inserted) == LongTotal(old(dedup.inserted)) + if |bytes| > INLINE_MAX then |bytes| else 0
  {
    more := [];
    if |bytes| <= INLINE_MAX {
      MadeInlineCarries(bytes);
      data := MakeInline(bytes);
    } else {
      ghost var before, memo := dedup.storage[..dedup.used], dedup.memo;
      var offset := dedup.Insert(bytes);
      more := if bytes in memo then [] else bytes;
      OutlineStored(dedup.memo, dedup.storage[..dedup.used], bytes);
      data := Outline(offset, bytes);
    }
  }

  /** What the third pass knows after some events. */
  ghost predicate Filling(h: seq<Access>, m: Temps, ls: seq<Leaf>, section: seq<Byte>) {
    Tracks(h, m, ls) && MapStored(m, section) && LeavesStored(ls, section)
  }

  lemma {:induction false} FillingStep(h: seq<Access>, m: Temps, ls: seq<Leaf>, section: seq<Byte>, a: Access,
                                       data: Data, more: seq<Byte>)
    requires GoodMap(m) && a.Valid() && Carries(data, a.bytes) && Filling(h, m, ls, section)
    requires Stored(data, section + more)
    ensures Filling(h + [a], Step(m, a, data).0, ls + Step(m, a, data).1, section + more)
  {
    TracksStep(h, m, ls, a, data);
    AllGrow(m, ls, section, more);
    StepStored(m, ls, a, data, section + more);
  }

  /** One event of the third pass. */
  method FillEvent(disjoint: DisjointPass, dedup: DataDedup, ghost h: seq<Access>, e: Access) returns (out: seq<Leaf>)
    requires disjoint.Valid() && dedup.Valid() && e.Valid() && disjoint.currentTime <= e.time && disjoint.history == h
    requires |e.bytes| > INLINE_MAX ==> LongTotal(dedup.inserted) + |e.bytes| <= dedup.storage.Length
    requires Filling(h, disjoint.temporaries, disjoint.emitted, dedup.storage[..dedup.used])
    modifies disjoint, dedup, dedup.storage
    ensures disjoint.Valid() && dedup.Valid() && disjoint.currentTime == e.time && disjoint.history == h + [e]
    ensures disjoint.emitted == old(disjoint.emitted) + out
    ensures Filling(h + [e], disjoint.temporaries, disjoint.emitted, dedup.storage[..dedup.used])
    ensures LongTotal(dedup.inserted)
            == LongTotal(old(dedup.inserted)) + if |e.bytes| > INLINE_MAX then |e.bytes| else 0
  {
    ghost var section := dedup.storage[..dedup.used];
    var data;
    ghost var more;
    data, more := MapData(dedup, e.bytes);
    NotAfterStarted(disjoint.temporaries, disjoint.currentTime);
    FillingStep(h, disjoint.temporaries, disjoint.emitted, section, e, data, more);
    out := disjoint.PushMemoryWrite(e.time, e.addr, e.bytes, data, e.canDedup);
  }

  lemma {:induction false} RoomFor(events: seq<Access>, i: nat)
    requires i < |events|
    ensures LongBytes(events[..i + 1])
            == LongBytes(events[..i]) + if |events[i].bytes| > INLINE_MAX then |events[i].bytes| else 0
    ensures LongBytes(events[..i + 1]) <= LongBytes(events)
  {
    assert events[..i + 1][..i] == events[..i];
    LongBytesPrefix(events, i + 1);
  }

  /** The third pass has gone through `h`, the first events. */
  ghost predicate Gone(disjoint: DisjointPass, dedup: DataDedup, events: seq<Access>, h: seq<Access>)
    reads disjoint, dedup, dedup.storage
  {
    && h <= events && disjoint.Valid() && dedup.Valid()
    && disjoint.currentTime == EndOf(h) && disjoint.history == h
    && LongTotal(dedup.inserted) == LongBytes(h)
    && Filling(h, disjoint.temporaries, disjoint.emitted, dedup.storage[..dedup.used])
  }

  ghost predicate GoneFor(disjoint: DisjointPass, dedup: DataDedup, events: seq<Access>, i: nat)
    reads disjoint, dedup, dedup.storage
  {
    exists h :: |h| == i && Gone(disjoint, dedup, events, h)
  }

  /** The `i`-th event of the third pass. */
  method FillNext(disjoint: DisjointPass, dedup: DataDedup, events: seq<Access>, i: nat) returns (out: seq<Leaf>)
    requires InOrder(events) && dedup.storage.Length == LongBytes(events) && i < |events|
    requires GoneFor(disjoint, dedup, events, i)
    modifies disjoint, dedup, dedup.storage
    ensures GoneFor(disjoint, dedup, events, i + 1)
    ensures disjoint.emitted == old(disjoint.emitted) + out
  {
    ghost var h :| |h| == i && Gone(disjoint, dedup, events, h);
    assert h == events[..i];
    out := FillGone(disjoint, dedup, events, i);
  }

  method FillGone(disjoint: DisjointPass, dedup: DataDedup, events: seq<Access>, i: nat) returns (out: seq<Leaf>)
    requires InOrder(events) && dedup.storage.Length == LongBytes(events) && i < |events|
    requires Gone(disjoint, dedup, events, events[..i])
    modifies disjoint, dedup, dedup.storage
    ensures Gone(disjoint, dedup, events, events[..i + 1])
    ensures disjoint.emitted == old(disjoint.emitted) + out
  {
    NextEvent(events, i);
    RoomFor(events, i);
    out := FillEvent(disjoint, dedup, events[..i], events[i]);
  }

  lemma {:induction false} GoneAll(disjoint: DisjointPass, dedup: DataDedup, events: seq<Access>)
    requires GoneFor(disjoint, dedup, events, |events|)
    ensures Gone(disjoint, dedup, events, events)
  {
    var h :| |h| == |events| && Gone(disjoint, dedup, events, h);
    assert h == events;
  }

  /** Closes what is still open at the end of the trace. */
  method FillEnd(disjoint: DisjointPass, dedup: DataDedup, events: seq<Access>) returns (last: seq<Leaf>)
    requires GoneFor(disjoint, dedup, events, |events|)
    ensures Nodes(disjoint.emitted + last) == StreamNodes(events)
    ensures Exact(events, EndOf(events), disjoint.emitted + last)
    ensures dedup.used <= dedup.storage.Length && LeavesStored(disjoint.emitted + last, dedup.storage[..dedup.used])
  {
    GoneAll(disjoint, dedup, events);
    TracksEnd(events, disjoint.temporaries, disjoint.emitted, disjoint.currentTime);
    ClosingStored(disjoint.temporaries, disjoint.emitted, disjoint.currentTime, dedup.storage[..dedup.used]);
    last := disjoint.Finish();
    ErasedNodes(disjoint.emitted + last);
  }

  lemma {:induction false} GoneNone(disjoint: DisjointPass, dedup: DataDedup, events: seq<Access>)
    requires disjoint.Valid() && disjoint.history == [] && disjoint.emitted == [] && disjoint.temporaries == map[]
    requires disjoint.currentTime == 0 && dedup.Valid() && dedup.inserted == []
    ensures GoneFor(disjoint, dedup, events, 0)
  {
    assert Gone(disjoint, dedup, events, []);
  }

  /** The third pass: the same rectangles, with payloads that name stored bytes. */
  method NormalizeWithData(events: seq<Access>, storage: array<Byte>) returns (leaves: seq<Leaf>, used: nat)
    requires InOrder(events) && storage.Length == LongBytes(events)
    modifies storage
    ensures Nodes(leaves) == StreamNodes(events) && Exact(events, EndOf(events), leaves)
    ensures used <= storage.Length && LeavesStored(leaves, storage[..used])
  {
    var disjoint := new DisjointPass();
    var dedup := new DataDedup(storage);
    GoneNone(disjoint, dedup, events);
    leaves := [];
    var i := 0;
    while i < |events|
      invariant 0 <= i <= |events| && dedup.storage == storage
      invariant GoneFor(disjoint, dedup, events, i) && disjoint.emitted == leaves
    {
      var out := FillNext(disjoint, dedup, events, i);
      leaves := leaves + out;
      i := i + 1;
    }
    var last := FillEnd(disjoint, dedup, events);
    leaves := leaves + last;
    used := dedup.used;
  }

  // ---- first pass: zones ----

  method ScoutZones(nodes: seq<Node>) returns (zones: seq<Zone>, ghost members: seq<multiset<Node>>)
    requires forall i :: 0 <= i < |nodes| ==> nodes[i].Valid()
    ensures AllApart(zones) && Owned(zones, members, multiset(nodes))
  {
    var list := new ZoneList();
    var i := 0;
    while i < |nodes|
      invariant 0 <= i <= |nodes| && list.Valid() && list.inserted == nodes[..i]
    {
      list.InsertNode(nodes[i]);
      assert nodes[..i] + [nodes[i]] == nodes[..i + 1];
      i := i + 1;
    }
    assert nodes[..i] == nodes;
    zones, members := list.zones, list.members;
  }

  // ---- second and third pass over one tree ----

  /** Counts the leaves of each partition. */
  method CountPartitions<L(!new)>(leaves: seq<L>, part: L -> nat) returns (counts: seq<nat>)
    requires forall leaf :: part(leaf) < P.PARTITIONS
    ensures P.Counted(leaves, part, counts)
  {
    var partitions := new P.RTreePartitions(part);
    var i := 0;
    while i < |leaves|
      invariant 0 <= i <= |leaves| && partitions.Valid() && partitions.pushed == leaves[..i]
    {
      partitions.PushLeaf(leaves[i]);
      assert leaves[..i] + [leaves[i]] == leaves[..i + 1];
      i := i + 1;
    }
    assert leaves[..i] == leaves;
    counts := partitions.counts;
  }

  lemma {:induction false} RoomInPartition<L>(leaves: seq<L>, part: L -> nat, counts: seq<nat>, i: nat)
    requires P.Counted(leaves, part, counts) && i < |leaves| && part(leaves[i]) < P.PARTITIONS
    ensures |P.OfPart(leaves[..i], part, part(leaves[i]))| < counts[part(leaves[i])]
    ensures leaves[..i] + [leaves[i]] == leaves[..i + 1]
  {
    var p := part(leaves[i]);
    assert leaves[..i] + [leaves[i]] == leaves[..i + 1];
    P.OfPartAppend(leaves[..i], part, leaves[i], p);
    P.OfPartPrefix(leaves, part, p, i + 1);
  }

  /** Fills the partitions of one tree, each sorted once complete. */
  method FillLeaves<L(!new)>(leaves: seq<L>, part: L -> nat, key: L -> nat, counts: seq<nat>)
    returns (out: seq<L>)
    requires P.Counted(leaves, part, counts) && forall leaf :: part(leaf) < P.PARTITIONS
    ensures multiset(out) == multiset(leaves) && |out| == |leaves|
    ensures P.Aligned(part, key) ==> P.SortedBy(out, key)
  {
    var fill := new P.FillTree(part, key, counts);
    var i := 0;
    while i < |leaves|
      invariant 0 <= i <= |leaves| && fill.Valid() && fill.pushed == leaves[..i]
    {
      RoomInPartition(leaves, part, counts, i);
      fill.PushLeaf(leaves[i]);
      i := i + 1;
    }
    assert leaves[..i] == leaves;
    P.Conservation(leaves, part, key, counts, fill.buffers, fill.slots, fill.flushes);
    out := P.Concat(fill.slots);
    assert |out| == |multiset(out)|;
  }

  /** Builds the node levels over sorted leaves, where the first pass laid them out. */
  method BuildTree<L(!new)>(order: nat, leafCount: nat, leaves: seq<L>, box: L -> Node, bbox: Node)
    returns (t: RTree<Node, L>)
    requires order >= 1 && leafCount == |leaves|
    ensures Built(t, box) && t.order == order && t.leaves == leaves && t.bbox == bbox
  {
    var nodeCount, levels := ComputeLevels(leafCount, order);
    var boxes := Boxes(leaves, box);
    var nodes := new Node[nodeCount](_ => bbox);
    BuildNodes(order, boxes, nodes);
    Pow2AtLeast2(order);
    ReadBack(Pow2(order), boxes, nodes[..], levels);
    t := RTree(order, leaves, ReadLevels(nodes[..], levels), bbox);
    BuiltTree(t, boxes);
  }
}
