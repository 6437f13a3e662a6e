/** Nearest memory accesses in time that touch matching addresses, over all zones. */
module Nearby {
  import opened Ranges
  import opened PackedTree
  import opened Build
  import opened Containment
  import NN = Nearest
  import MQ = MultiQuery
  import D = Disjoint
  import opened MemoryDb

  /** A leaf, given by its box, is kept if it starts in `range` and its addresses match. */
  function BoxStatus(target: Time, range: TimeRange, m: Matcher, b: Node): NN.Status {
    if !range.Contains(b.timeMin) then NN.Ignore
    else if !m.Range(b.Addrs()) then NN.Ignore
    else NN.Keep(AbsDiff(b.timeMin, target))
  }

  lemma {:induction false} RangeMonotone(m: Matcher, inner: AddrRange, outer: AddrRange)
    requires m.Valid() && inner.Valid() && outer.min <= inner.min && inner.max <= outer.max && m.Range(inner)
    ensures m.Range(outer)
  {
    MatchRangeIsSomeScalar(m, inner);
    var x :| inner.Contains(x) && m.Scalar(x);
    assert outer.Contains(x);
    MatchRangeIsSomeScalar(m, outer);
  }

  lemma {:induction false} BoxStatusMonotone(target: Time, range: TimeRange, m: Matcher, n: Node, b: Node)
    requires m.Valid() && b.Valid() && n.Contains(b)
    ensures NN.Bounds(NodeStatus(target, range, m, n), BoxStatus(target, range, m, b))
  {
    if BoxStatus(target, range, m, b).Keep? {
      RangeMonotone(m, b.Addrs(), n.Addrs());
    }
  }

  ghost predicate BoxesValid<L>(t: RTree<Node, L>, box: L -> Node) {
    forall leaf :: leaf in t.leaves ==> box(leaf).Valid()
  }

  /** A leaf whose addresses match and that starts at `u`. */
  ghost predicate StartsAt<L>(leaves: seq<L>, box: L -> Node, m: Matcher, u: Time) {
    exists i :: 0 <= i < |leaves| && m.Range(box(leaves[i]).Addrs()) && box(leaves[i]).timeMin == u
  }

  /** `r` is the start nearest to `target` inside `range`, or there is none. */
  ghost predicate NearestStart<L>(leaves: seq<L>, box: L -> Node, m: Matcher, range: TimeRange, target: Time,
                                  r: Option<Time>) {
    match r
    case None => forall u :: range.Contains(u) ==> !StartsAt(leaves, box, m, u)
    case Some(v) =>
      range.Contains(v) && StartsAt(leaves, box, m, v)
      && forall u :: range.Contains(u) && StartsAt(leaves, box, m, u) ==> AbsDiff(v, target) <= AbsDiff(u, target)
  }

  lemma {:induction false} VisitorsAdmissible<L(!new)>(t: RTree<Node, L>, box: L -> Node, target: Time,
                                                       range: TimeRange, m: Matcher)
    requires Built(t, box) && BoxesValid(t, box) && m.Valid()
    ensures NN.Admissible(t, (n: Node) => NodeStatus(target, range, m, n),
                          (leaf: L) => BoxStatus(target, range, m, box(leaf)))
  {
    forall h, j | 1 <= h <= t.Depth() && 0 <= j < |t.leaves|
      ensures NN.Bounds(NodeStatus(target, range, m, AncestorNode(t, h, j)),
                        BoxStatus(target, range, m, box(t.leaves[j])))
    {
      AncestorContains(t, Boxes(t.leaves, box), h, j);
      BoxStatusMonotone(target, range, m, AncestorNode(t, h, j), box(t.leaves[j]));
    }
  }

  /** One tree: the matching start nearest to `target`. */
  method NearestInTree<L(!new)>(t: RTree<Node, L>, box: L -> Node, target: Time, range: TimeRange, m: Matcher)
    returns (r: Option<Time>)
    requires Built(t, box) && BoxesValid(t, box) && m.Valid()
    ensures NearestStart(t.leaves, box, m, range, target, r)
  {
    var vl := (leaf: L) => BoxStatus(target, range, m, box(leaf));
    VisitorsAdmissible(t, box, target, range, m);
    var leaf := NN.NearestNeighbor(t, (n: Node) => NodeStatus(target, range, m, n), vl);
    forall u | range.Contains(u) && StartsAt(t.leaves, box, m, u)
      ensures leaf.Some? && AbsDiff(box(leaf.value).timeMin, target) <= AbsDiff(u, target)
    {
      var j :| 0 <= j < |t.leaves| && m.Range(box(t.leaves[j]).Addrs()) && box(t.leaves[j]).timeMin == u;
      assert NN.KeptLeaf(t, vl, j);
    }
    match leaf
    case Some(l) =>
      ghost var j :| 0 <= j < |t.leaves| && t.leaves[j] == l;
      assert StartsAt(t.leaves, box, m, box(l).timeMin);
      r := Some(box(l).timeMin);
    case None => r := None;
  }

  // ---- over all zones ----

  ghost predicate LastBefore<L>(leaves: seq<L>, box: L -> Node, m: Matcher, time: Time, r: Option<Time>) {
    match r
    case None => forall u :: u < time ==> !StartsAt(leaves, box, m, u)
    case Some(v) =>
      v < time && StartsAt(leaves, box, m, v) && forall u :: u < time && StartsAt(leaves, box, m, u) ==> u <= v
  }

  ghost predicate FirstAfter<L>(leaves: seq<L>, box: L -> Node, m: Matcher, time: Time, r: Option<Time>) {
    match r
    case None => forall u :: time < u ==> !StartsAt(leaves, box, m, u)
    case Some(v) =>
      time < v && StartsAt(leaves, box, m, v) && forall u :: time < u && StartsAt(leaves, box, m, u) ==> v <= u
  }

  method PrevInTree<L(!new)>(t: RTree<Node, L>, box: L -> Node, time: Time, m: Matcher) returns (r: Option<Time>)
    requires Built(t, box) && BoxesValid(t, box) && m.Valid()
    ensures LastBefore(t.leaves, box, m, time, r)
  {
    if time == 0 {
      return None;
    }
    r := NearestInTree(t, box, time, TimeRange(0, time - 1), m);
  }

  method NextInTree<L(!new)>(t: RTree<Node, L>, box: L -> Node, time: Time, m: Matcher) returns (r: Option<Time>)
    requires Built(t, box) && BoxesValid(t, box) && m.Valid()
    ensures FirstAfter(t.leaves, box, m, time, r)
  {
    if time == TIME_MAX {
      return None;
    }
    r := NearestInTree(t, box, time, TimeRange(time + 1, TIME_MAX), m);
  }

  ghost predicate TreeOk<L>(t: RTree<Node, L>, box: L -> Node) {
    Built(t, box) && BoxesValid(t, box) && t.bbox.Valid() && forall leaf :: leaf in t.leaves ==>
            t.bbox.Contains(box(leaf))
  }

  lemma {:induction false} StartsConcat<L>(a: seq<L>, b: seq<L>, box: L -> Node, m: Matcher, u: Time)
    ensures StartsAt(a + b, box, m, u) <==> StartsAt(a, box, m, u) || StartsAt(b, box, m, u)
  {
    var all := a + b;
    assert forall i :: 0 <= i < |a| ==> all[i] == a[i];
    assert forall i :: 0 <= i < |b| ==> all[|a| + i] == b[i];
  }

  /** A zone whose box cannot match holds no matching leaf. */
  lemma {:induction false} SkippedZone<L>(t: RTree<Node, L>, box: L -> Node, m: Matcher)
    requires TreeOk(t, box) && m.Valid() && !m.Range(t.bbox.Addrs())
    ensures forall u :: !StartsAt(t.leaves, box, m, u)
  {
    forall leaf | leaf in t.leaves ensures !m.Range(box(leaf).Addrs()) {
      if m.Range(box(leaf).Addrs()) {
        RangeMonotone(m, box(leaf).Addrs(), t.bbox.Addrs());
      }
    }
  }

  /** The latest matching start before `time`, over all zones. */
  method PrevOverZones<L(!new)>(zones: seq<RTree<Node, L>>, box: L -> Node, time: Time, m: Matcher)
    returns (r: Option<Time>)
    requires m.Valid() && forall i :: 0 <= i < |zones| ==> TreeOk(zones[i], box)
    ensures LastBefore(MQ.Leaves(zones), box, m, time, r)
  {
    r := None;
    var i := 0;
    while i < |zones|
      invariant 0 <= i <= |zones| && LastBefore(MQ.Leaves(zones[..i]), box, m, time, r)
    {
      var here: Option<Time> := None;
      if m.Range(zones[i].bbox.Addrs()) {
        here := PrevInTree(zones[i], box, time, m);
      } else {
        SkippedZone(zones[i], box, m);
      }
      assert zones[..i + 1][..i] == zones[..i];
      LaterOf(zones[i].leaves, MQ.Leaves(zones[..i]), box, m, time, here, r);
      r := Later(here, r);
      i := i + 1;
    }
    assert zones[..i] == zones;
  }

  function Later(a: Option<Time>, b: Option<Time>): Option<Time> {
    if a.None? then b else if b.None? then a else Some(MaxTime(a.value, b.value))
  }

  function Earlier(a: Option<Time>, b: Option<Time>): Option<Time> {
    if a.None? then b else if b.None? then a else Some(MinTime(a.value, b.value))
  }

  lemma {:induction false} LaterOf<L>(x: seq<L>, y: seq<L>, box: L -> Node, m: Matcher, time: Time, a: Option<Time>,
                                      b: Option<Time>)
    requires LastBefore(x, box, m, time, a) && LastBefore(y, box, m, time, b)
    ensures LastBefore(x + y, box, m, time, Later(a, b))
  {
    forall u ensures StartsAt(x + y, box, m, u) <==> StartsAt(x, box, m, u) || StartsAt(y, box, m, u) {
      StartsConcat(x, y, box, m, u);
    }
  }

  lemma {:induction false} EarlierOf<L>(x: seq<L>, y: seq<L>, box: L -> Node, m: Matcher, time: Time, a: Option<Time>,
                                        b: Option<Time>)
    requires FirstAfter(x, box, m, time, a) && FirstAfter(y, box, m, time, b)
    ensures FirstAfter(x + y, box, m, time, Earlier(a, b))
  {
    forall u ensures StartsAt(x + y, box, m, u) <==> StartsAt(x, box, m, u) || StartsAt(y, box, m, u) {
      StartsConcat(x, y, box, m, u);
    }
  }

  /** The earliest matching start after `time`, over all zones. */
  method NextOverZones<L(!new)>(zones: seq<RTree<Node, L>>, box: L -> Node, time: Time, m: Matcher)
    returns (r: Option<Time>)
    requires m.Valid() && forall i :: 0 <= i < |zones| ==> TreeOk(zones[i], box)
    ensures FirstAfter(MQ.Leaves(zones), box, m, time, r)
  {
    r := None;
    var i := 0;
    while i < |zones|
      invariant 0 <= i <= |zones| && FirstAfter(MQ.Leaves(zones[..i]), box, m, time, r)
    {
      var here: Option<Time> := None;
      if m.Range(zones[i].bbox.Addrs()) {
        here := NextInTree(zones[i], box, time, m);
      } else {
        SkippedZone(zones[i], box, m);
      }
      assert zones[..i + 1][..i] == zones[..i];
      EarlierOf(zones[i].leaves, MQ.Leaves(zones[..i]), box, m, time, here, r);
      r := Earlier(here, r);
      i := i + 1;
    }
    assert zones[..i] == zones;
  }

  // ---- memory writes, against the access history ----

  /** At time `u` an access that was not dropped touched a matching address. */
  ghost predicate Touched(h: seq<D.Access>, m: Matcher, u: Time) {
    exists x :: m.Scalar(x) && D.WrittenAt(h, x, u)
  }

  lemma {:induction false} TouchedIsStart(db: Db, h: seq<D.Access>, end: Time, m: Matcher, u: Time)
    requires Describes(db, h, end) && m.Valid()
    ensures Touched(h, m, u) <==> StartsAt(db.Leaves(), WriteBox, m, u)
  {
    var all := db.Leaves();
    if Touched(h, m, u) {
      var x :| m.Scalar(x) && D.WrittenAt(h, x, u);
      assert MemoryDb.StartedBy(all, x, u);
      var i :| 0 <= i < |all| && all[i].node.HasAddr(x) && all[i].node.timeMin == u;
      assert Holds(db, h, all[i]);
      assert all[i].node.Addrs().Contains(x);
      MatchRangeIsSomeScalar(m, all[i].node.Addrs());
    }
    if StartsAt(all, WriteBox, m, u) {
      var i :| 0 <= i < |all| && m.Range(WriteBox(all[i]).Addrs()) && WriteBox(all[i]).timeMin == u;
      assert Holds(db, h, all[i]);
      MatchRangeIsSomeScalar(m, all[i].node.Addrs());
      var x :| all[i].node.Addrs().Contains(x) && m.Scalar(x);
      assert MemoryDb.StartedBy(all, x, u);
    }
  }

  lemma {:induction false} ZonesOk(db: Db, h: seq<D.Access>, end: Time)
    requires Describes(db, h, end)
    ensures forall i :: 0 <= i < |db.writeZones| ==> TreeOk(db.writeZones[i], WriteBox)
  {
    forall i | 0 <= i < |db.writeZones| ensures TreeOk(db.writeZones[i], WriteBox) {
      assert ZoneOk(db.writeZones[i]);
      forall leaf | leaf in db.writeZones[i].leaves ensures leaf.node.Valid() {
        LeafOfZone(db.writeZones, i, leaf);
        var k :| 0 <= k < |db.Leaves()| && db.Leaves()[k] == leaf;
        assert Holds(db, h, db.Leaves()[k]);
      }
    }
  }

  ghost predicate LastTouchBefore(h: seq<D.Access>, m: Matcher, time: Time, r: Option<Time>) {
    match r
    case None => forall u :: u < time ==> !Touched(h, m, u)
    case Some(v) => v < time && Touched(h, m, v) && forall u :: u < time && Touched(h, m, u) ==> u <= v
  }

  ghost predicate FirstTouchAfter(h: seq<D.Access>, m: Matcher, time: Time, r: Option<Time>) {
    match r
    case None => forall u :: time < u ==> !Touched(h, m, u)
    case Some(v) => time < v && Touched(h, m, v) && forall u :: time < u && Touched(h, m, u) ==> v <= u
  }

  method PrevMemWrite(db: Db, time: Time, m: Matcher, ghost h: seq<D.Access>, ghost end: Time) returns (r: Option<Time>)
    requires Describes(db, h, end) && m.Valid()
    ensures LastTouchBefore(h, m, time, r)
  {
    ZonesOk(db, h, end);
    r := PrevOverZones(db.writeZones, WriteBox, time, m);
    forall u ensures Touched(h, m, u) <==> StartsAt(db.Leaves(), WriteBox, m, u) {
      TouchedIsStart(db, h, end, m, u);
    }
  }

  method NextMemWrite(db: Db, time: Time, m: Matcher, ghost h: seq<D.Access>, ghost end: Time) returns (r: Option<Time>)
    requires Describes(db, h, end) && m.Valid()
    ensures FirstTouchAfter(h, m, time, r)
  {
    ZonesOk(db, h, end);
    r := NextOverZones(db.writeZones, WriteBox, time, m);
    forall u ensures Touched(h, m, u) <==> StartsAt(db.Leaves(), WriteBox, m, u) {
      TouchedIsStart(db, h, end, m, u);
    }
  }
}
