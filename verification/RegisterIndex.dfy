/** Building the register side of the index: from register writes to one tree per register. */
module RegisterIndex {
  import opened Ranges
  import opened Passes
  import opened Registers
  import opened Sums
  import C = Containment
  import P = Partition

  /** What the register side sees of a trace: memory events only move the clock. */
  datatype TimedEvent =
    | MemoryEvent(time: Time)
    | RegisterEvent(time: Time, idx: nat, value: U64)

  /** How many registers have appeared. */
  function Count(events: seq<TimedEvent>): nat {
    if events == [] then 0
    else
      var n := Count(events[..|events| - 1]);
      var e := events[|events| - 1];
      if e.RegisterEvent? && e.idx >= n then e.idx + 1 else n
  }

  /** Times never decrease, and registers are numbered in order of first appearance. */
  ghost predicate WellFormed(events: seq<TimedEvent>) {
    && (forall i, j :: 0 <= i < j < |events| ==> events[i].time <= events[j].time)
    && (forall i :: 0 <= i < |events| && events[i].RegisterEvent? ==> events[i].idx <= Count(events[..i]))
  }

  function LastTime(events: seq<TimedEvent>): Time {
    if events == [] then 0 else events[|events| - 1].time
  }

  /** The writes to register `r`. */
  ghost function WritesOf(events: seq<TimedEvent>, r: nat): seq<Write> {
    if events == [] then []
    else
      var e := events[|events| - 1];
      WritesOf(events[..|events| - 1], r) + if e.RegisterEvent? && e.idx == r then [Write(e.time, e.value)] else []
  }

  ghost predicate WritesAre(events: seq<TimedEvent>, writes: seq<seq<Write>>) {
    |writes| == Count(events) && forall r :: 0 <= r < |writes| ==> writes[r] == WritesOf(events, r)
  }

  lemma {:induction false} NoWritesYet(events: seq<TimedEvent>, r: nat)
    requires r >= Count(events)
    ensures WritesOf(events, r) == []
  {
    if events != [] {
      NoWritesYet(events[..|events| - 1], r);
    }
  }

  lemma {:induction false} WritesStep(events: seq<TimedEvent>, e: TimedEvent, r: nat)
    ensures WritesOf(events + [e], r)
         == WritesOf(events, r) + if e.RegisterEvent? && e.idx == r then [Write(e.time, e.value)] else []
    ensures Count(events + [e]) == if e.RegisterEvent? && e.idx >= Count(events) then e.idx + 1 else Count(events)
  {
    assert (events + [e])[..|events|] == events;
  }

  lemma {:induction false} NextEvent(events: seq<TimedEvent>, i: nat)
    requires WellFormed(events) && i < |events|
    ensures events[..i] + [events[i]] == events[..i + 1]
    ensures LastTime(events[..i]) <= events[i].time == LastTime(events[..i + 1])
    ensures events[i].RegisterEvent? ==> events[i].idx <= Count(events[..i])
  {
  }

  lemma {:induction false} ClockTicks(events: seq<TimedEvent>, e: TimedEvent, writes: seq<seq<Write>>)
    requires WritesAre(events, writes) && e.MemoryEvent?
    ensures WritesAre(events + [e], writes)
  {
    WritesStep(events, e, 0);
    forall r | 0 <= r < |writes| ensures writes[r] == WritesOf(events + [e], r) {
      WritesStep(events, e, r);
      assert WritesOf(events, r) + [] == WritesOf(events, r);
    }
  }

  lemma {:induction false} WriteComes(events: seq<TimedEvent>, e: TimedEvent, writes: seq<seq<Write>>,
                                      after: seq<seq<Write>>)
    requires WritesAre(events, writes) && e.RegisterEvent? && e.idx <= |writes|
    requires after == if e.idx == |writes| then writes + [[Write(e.time, e.value)]]
                      else writes[e.idx := writes[e.idx] + [Write(e.time, e.value)]]
    ensures WritesAre(events + [e], after)
  {
    WritesStep(events, e, 0);
    forall r | 0 <= r < |after| ensures after[r] == WritesOf(events + [e], r) {
      WritesStep(events, e, r);
      if r == |writes| {
        NoWritesYet(events, r);
      }
    }
  }

  /** One event of a pass. */
  method Event(pass: RegisterPass, ghost events: seq<TimedEvent>, e: TimedEvent, tiles: seq<seq<RegLeaf>>)
    returns (tiles': seq<seq<RegLeaf>>)
    requires pass.Valid() && pass.currTime <= e.time && pass.emitted == tiles && WritesAre(events, pass.writes)
    requires e.RegisterEvent? ==> e.idx <= Count(events)
    modifies pass
    ensures pass.Valid() && pass.currTime == e.time && pass.emitted == tiles' && WritesAre(events + [e], pass.writes)
  {
    ghost var writes := pass.writes;
    match e
    case MemoryEvent(time) =>
      pass.Tick(time);
      tiles' := tiles;
      ClockTicks(events, e, writes);
    case RegisterEvent(time, idx, value) =>
      var isFirst := idx == |pass.lasts|;
      var out := pass.PushRegister(time, idx, value);
      tiles' := if isFirst then tiles + [[]] else tiles[idx := tiles[idx] + ToSeq(out)];
      WriteComes(events, e, writes, pass.writes);
  }

  ghost predicate AllTiled(events: seq<TimedEvent>, tiles: seq<seq<RegLeaf>>) {
    |tiles| == Count(events) && forall r :: 0 <= r < |tiles| ==> Tiled(WritesOf(events, r), LastTime(events), tiles[r])
  }

  /** The leaves of every register. */
  method NormalizeRegisters(events: seq<TimedEvent>) returns (tiles: seq<seq<RegLeaf>>)
    requires WellFormed(events)
    ensures AllTiled(events, tiles)
  {
    var pass := new RegisterPass();
    tiles := [];
    var i := 0;
    while i < |events|
      invariant 0 <= i <= |events| && pass.Valid() && pass.currTime == LastTime(events[..i])
      invariant pass.emitted == tiles && WritesAre(events[..i], pass.writes)
    {
      NextEvent(events, i);
      tiles := Event(pass, events[..i], events[i], tiles);
      i := i + 1;
    }
    assert events[..i] == events;
    var last := pass.Finish();
    tiles := seq(|tiles|, r requires 0 <= r < |tiles| => tiles[r] + [last[r]]);
  }

  // ---- one tree per register ----

  datatype RegScout = RegScout(bbox: Node, leafCount: nat)

  ghost predicate Bounds(leaves: seq<RegLeaf>, box: Node) {
    forall i :: 0 <= i < |leaves| ==> box.Contains(leaves[i].Box())
  }

  /** The number of the leaves and, if there are any, their least bounding box. */
  ghost predicate ScoutedAs(leaves: seq<RegLeaf>, scout: RegScout) {
    && scout.leafCount == |leaves| && Bounds(leaves, scout.bbox)
    && (leaves != [] ==> forall box: Node :: Bounds(leaves, box) ==> box.Contains(scout.bbox))
  }

  method ScoutRegister(leaves: seq<RegLeaf>) returns (scout: RegScout)
    ensures ScoutedAs(leaves, scout)
  {
    var bbox, leafCount := Node(0, 0, 0, 0), 0;
    while leafCount < |leaves|
      invariant 0 <= leafCount <= |leaves|
      invariant ScoutedAs(leaves[..leafCount], RegScout(bbox, leafCount))
    {
      OneMoreBounded(leaves, leafCount, bbox);
      bbox := if leafCount == 0 then leaves[0].Box() else bbox.Extend(leaves[leafCount].Box());
      leafCount := leafCount + 1;
    }
    assert leaves[..leafCount] == leaves;
    scout := RegScout(bbox, leafCount);
  }

  lemma {:induction false} OneMoreBounded(leaves: seq<RegLeaf>, n: nat, bbox: Node)
    requires n < |leaves| && ScoutedAs(leaves[..n], RegScout(bbox, n))
    ensures ScoutedAs(leaves[..n + 1],
                      RegScout(if n == 0 then leaves[0].Box() else bbox.Extend(leaves[n].Box()), n + 1))
  {
    var after := if n == 0 then leaves[0].Box() else bbox.Extend(leaves[n].Box());
    var some, more := leaves[..n], leaves[..n + 1];
    forall i | 0 <= i < |more| ensures after.Contains(more[i].Box()) {
      if i < n {
        assert bbox.Contains(some[i].Box());
      }
    }
    forall box: Node | Bounds(more, box) ensures box.Contains(after) {
      assert box.Contains(more[n].Box()) && more[n] == leaves[n];
      forall i | 0 <= i < |some| ensures box.Contains(some[i].Box()) {
        assert box.Contains(more[i].Box());
      }
      assert Bounds(some, box) && (n > 0 ==> box.Contains(bbox));
    }
  }

  type RegKeyFn = (RegLeaf, Node) -> nat

  function RegKey(f: RegKeyFn, leaf: RegLeaf, bbox: Node): nat {
    f(leaf, bbox)
  }

  function InRegBox(f: RegKeyFn, bbox: Node): RegLeaf -> nat {
    (leaf: RegLeaf) => RegKey(f, leaf, bbox)
  }

  lemma {:induction false} RegPartsBounded(part: RegKeyFn, bbox: Node)
    requires forall leaf, box :: part(leaf, box) < P.PARTITIONS
    ensures forall leaf :: InRegBox(part, bbox)(leaf) < P.PARTITIONS
  {
    forall leaf ensures InRegBox(part, bbox)(leaf) < P.PARTITIONS {
      assert InRegBox(part, bbox)(leaf) == RegKey(part, leaf, bbox);
    }
  }

  /** When the partition number is a prefix of the key, all leaves of the tree are in key order. */
  ghost predicate RegInKeyOrder(t: RegTree, part: RegKeyFn, key: RegKeyFn) {
    P.Aligned(InRegBox(part, t.bbox), InRegBox(key, t.bbox)) ==> P.SortedBy(t.leaves, InRegBox(key, t.bbox))
  }

  /** Fills and builds the tree of one register. */
  method FillRegister(order: nat, leaves: seq<RegLeaf>, scout: RegScout, part: RegKeyFn, key: RegKeyFn,
                      counts: seq<nat>, ghost ws: seq<Write>, ghost end: Time)
    returns (t: RegTree)
    requires order >= 1 && Tiled(ws, end, leaves) && ScoutedAs(leaves, scout)
    requires P.Counted(leaves, InRegBox(part, scout.bbox), counts) && forall leaf, box :: part(leaf, box) < P.PARTITIONS
    ensures Indexes(t, ws, end, leaves) && RegInKeyOrder(t, part, key) && t.order == order
  {
    RegPartsBounded(part, scout.bbox);
    var sorted := FillLeaves(leaves, InRegBox(part, scout.bbox), InRegBox(key, scout.bbox), counts);
    t := BuildTree(order, scout.leafCount, sorted, LeafBox, scout.bbox);
    forall leaf | leaf in t.leaves ensures t.bbox.Contains(leaf.Box()) {
      SameMembers(t, leaves, leaf);
    }
  }

  // ---- the three passes over all registers ----

  ghost predicate RegistersScouted(tiles: seq<seq<RegLeaf>>, scouts: seq<RegScout>) {
    |scouts| <= |tiles| && forall r :: 0 <= r < |scouts| ==> ScoutedAs(tiles[r], scouts[r])
  }

  method ScoutRegisters(tiles: seq<seq<RegLeaf>>) returns (scouts: seq<RegScout>)
    ensures RegistersScouted(tiles, scouts) && |scouts| == |tiles|
  {
    scouts := [];
    while |scouts| < |tiles|
      invariant RegistersScouted(tiles, scouts)
    {
      var scout := ScoutRegister(tiles[|scouts|]);
      scouts := scouts + [scout];
    }
  }

  ghost predicate RegistersCounted(tiles: seq<seq<RegLeaf>>, scouts: seq<RegScout>, part: RegKeyFn,
                                   counts: seq<seq<nat>>)
  {
    && |counts| <= |scouts| <= |tiles|
    && forall r :: 0 <= r < |counts| ==> P.Counted(tiles[r], InRegBox(part, scouts[r].bbox), counts[r])
  }

  method CountRegisters(tiles: seq<seq<RegLeaf>>, scouts: seq<RegScout>, part: RegKeyFn) returns (counts: seq<seq<nat>>)
    requires |scouts| == |tiles| && forall leaf, box :: part(leaf, box) < P.PARTITIONS
    ensures RegistersCounted(tiles, scouts, part, counts) && |counts| == |tiles|
  {
    counts := [];
    while |counts| < |tiles|
      invariant RegistersCounted(tiles, scouts, part, counts)
    {
      var r := |counts|;
      RegPartsBounded(part, scouts[r].bbox);
      var mine := CountPartitions(tiles[r], InRegBox(part, scouts[r].bbox));
      counts := counts + [mine];
    }
  }

  lemma {:induction false} RegisterCountsAddUp(tiles: seq<seq<RegLeaf>>, scouts: seq<RegScout>, part: RegKeyFn,
                                               counts: seq<seq<nat>>)
    requires RegistersScouted(tiles, scouts) && RegistersCounted(tiles, scouts, part, counts)
    requires forall leaf, box :: part(leaf, box) < P.PARTITIONS
    ensures forall r :: 0 <= r < |counts| ==> Sum(counts[r]) == scouts[r].leafCount && |counts[r]| == P.PARTITIONS
  {
    forall r | 0 <= r < |counts| ensures Sum(counts[r]) == scouts[r].leafCount && |counts[r]| == P.PARTITIONS {
      RegPartsBounded(part, scouts[r].bbox);
      P.CountsSum(tiles[r], InRegBox(part, scouts[r].bbox), counts[r]);
    }
  }

  /** The trees index the writes of the trace, in the order of the registers. */
  ghost predicate IndexAll(events: seq<TimedEvent>, trees: seq<RegTree>, tiles: seq<seq<RegLeaf>>) {
    && |trees| <= |tiles| == Count(events)
    && forall r :: 0 <= r < |trees| ==> Indexes(trees[r], WritesOf(events, r), LastTime(events), tiles[r])
  }

  ghost predicate AllRegInKeyOrder(trees: seq<RegTree>, part: RegKeyFn, key: RegKeyFn) {
    forall r :: 0 <= r < |trees| ==> RegInKeyOrder(trees[r], part, key)
  }

  lemma {:induction false} OneMoreInOrder(trees: seq<RegTree>, t: RegTree, part: RegKeyFn, key: RegKeyFn)
    requires AllRegInKeyOrder(trees, part, key) && RegInKeyOrder(t, part, key)
    ensures AllRegInKeyOrder(trees + [t], part, key)
  {
    forall r | 0 <= r < |trees + [t]| ensures RegInKeyOrder((trees + [t])[r], part, key) {
      if r < |trees| {
        assert RegInKeyOrder(trees[r], part, key);
      }
    }
  }

  lemma {:induction false} OneMoreIndexed(events: seq<TimedEvent>, trees: seq<RegTree>, t: RegTree,
                                          tiles: seq<seq<RegLeaf>>)
    requires IndexAll(events, trees, tiles) && |trees| < |tiles|
    requires Indexes(t, WritesOf(events, |trees|), LastTime(events), tiles[|trees|])
    ensures IndexAll(events, trees + [t], tiles)
  {
  }

  method FillRegisters(events: seq<TimedEvent>, order: nat, tiles: seq<seq<RegLeaf>>, scouts: seq<RegScout>,
                       part: RegKeyFn, key: RegKeyFn, counts: seq<seq<nat>>)
    returns (trees: seq<RegTree>)
    requires AllTiled(events, tiles) && RegistersScouted(tiles, scouts) && RegistersCounted(tiles, scouts, part, counts)
    requires |counts| == |tiles| && order >= 1 && forall leaf, box :: part(leaf, box) < P.PARTITIONS
    ensures IndexAll(events, trees, tiles) && |trees| == |tiles| && AllRegInKeyOrder(trees, part, key)
    ensures C.OfOrder(trees, order)
  {
    trees := [];
    while |trees| < |tiles|
      invariant IndexAll(events, trees, tiles) && AllRegInKeyOrder(trees, part, key) && C.OfOrder(trees, order)
    {
      var r := |trees|;
      var t := FillRegister(order, tiles[r], scouts[r], part, key, counts[r], WritesOf(events, r), LastTime(events));
      OneMoreInOrder(trees, t, part, key);
      OneMoreIndexed(events, trees, t, tiles);
      trees := trees + [t];
    }
  }

  // ---- what the lookups need ----

  lemma {:induction false} WritesInOrder(events: seq<TimedEvent>, r: nat)
    requires WellFormed(events)
    ensures TimeOrdered(WritesOf(events, r), LastTime(events))
  {
    if events != [] {
      var rest, e := events[..|events| - 1], events[|events| - 1];
      WellFormedPrefix(events);
      WritesInOrder(rest, r);
    }
  }

  lemma {:induction false} WellFormedPrefix(events: seq<TimedEvent>)
    requires WellFormed(events) && events != []
    ensures WellFormed(events[..|events| - 1]) && LastTime(events[..|events| - 1]) <= LastTime(events)
  {
    var rest := events[..|events| - 1];
    forall i | 0 <= i < |rest| && rest[i].RegisterEvent? ensures rest[i].idx <= Count(rest[..i]) {
      assert rest[..i] == events[..i];
    }
  }
}
