/** Register histories: from a stream of writes to tiles of constant value, and queries over them. */
module Registers {
  import opened Ranges
  import opened PackedTree
  import opened Build
  import opened Containment
  import Q = Query
  import NN = Nearest

  datatype RegLeaf = RegLeaf(value: U64, timeMin: Time, timeMax: Time) {
    predicate Covers(t: Time) {
      timeMin <= t <= timeMax
    }

    function Box(): Node {
      Node(value, value, timeMin, timeMax)
    }
  }

  datatype Write = Write(time: Time, value: U64)

  /** The value last written at or before `t`. */
  ghost function ValueAt(ws: seq<Write>, t: Time): Option<U64> {
    if ws == [] then None
    else
      var w := ws[|ws| - 1];
      if w.time <= t then Some(w.value) else ValueAt(ws[..|ws| - 1], t)
  }

  ghost predicate WrittenAt(ws: seq<Write>, t: Time) {
    exists i :: 0 <= i < |ws| && ws[i].time == t
  }

  ghost predicate TimeOrdered(ws: seq<Write>, now: Time) {
    && (forall i :: 0 <= i < |ws| ==> ws[i].time <= now)
    && (forall i, j :: 0 <= i < j < |ws| ==> ws[i].time <= ws[j].time)
  }

  // ---- tiles ----

  /** Contiguous, non-empty tiles. */
  ghost predicate Contiguous(ls: seq<RegLeaf>) {
    && (forall i :: 0 <= i < |ls| ==> ls[i].timeMin <= ls[i].timeMax)
    && (forall i, j :: 0 <= i < j < |ls| ==> ls[i].timeMax < ls[j].timeMin)
    && (forall i :: 0 < i < |ls| ==> Follows(ls[i - 1], ls[i]))
  }

  predicate Follows(a: RegLeaf, b: RegLeaf) {
    a.timeMax as int + 1 == b.timeMin as int
  }

  ghost predicate TileExact(ws: seq<Write>, leaf: RegLeaf) {
    WrittenAt(ws, leaf.timeMin) && forall t :: leaf.Covers(t) ==> ValueAt(ws, t) == Some(leaf.value)
  }

  ghost predicate TilesExact(ws: seq<Write>, ls: seq<RegLeaf>) {
    forall i :: 0 <= i < |ls| ==> TileExact(ws, ls[i])
  }

  /** Every write time starts a tile. */
  ghost predicate AllStart(ws: seq<Write>, ls: seq<RegLeaf>) {
    forall k :: 0 <= k < |ws| ==> StartAt(ls, ws[k].time)
  }

  /** The tiles cover [first write, `end`] without gap or overlap, and hold the value last written. */
  ghost predicate Tiled(ws: seq<Write>, end: Time, ls: seq<RegLeaf>) {
    && |ls| > 0 && |ws| > 0 && Contiguous(ls) && TilesExact(ws, ls) && AllStart(ws, ls)
    && ls[0].timeMin == ws[0].time && ls[|ls| - 1].timeMax == end
  }

  /** One register between two events: closed tiles, then one still open since the last write. */
  ghost predicate Tracking(ws: seq<Write>, now: Time, ls: seq<RegLeaf>, last: Option<RegLeaf>) {
    && TimeOrdered(ws, now)
    && match last
       case None => ws == [] && ls == []
       case Some(leaf) =>
         |ws| > 0 && leaf.timeMin == leaf.timeMax == ws[|ws| - 1].time && leaf.value == ws[|ws| - 1].value
         && Tiled(ws, leaf.timeMax, ls + [leaf])
  }

  lemma {:induction false} ValueAtAfter(ws: seq<Write>, w: Write, t: Time)
    ensures ValueAt(ws + [w], t) == if w.time <= t then Some(w.value) else ValueAt(ws, t)
    ensures WrittenAt(ws + [w], t) <==> w.time == t || WrittenAt(ws, t)
  {
    assert (ws + [w])[..|ws|] == ws;
    if WrittenAt(ws, t) {
      var i :| 0 <= i < |ws| && ws[i].time == t;
      assert (ws + [w])[i].time == t;
    }
    assert (ws + [w])[|ws|] == w;
  }

  lemma {:induction false} FirstWrite(w: Write)
    ensures Tracking([w], w.time, [], Some(RegLeaf(w.value, w.time, w.time)))
  {
    var leaf := RegLeaf(w.value, w.time, w.time);
    assert [] + [leaf] == [leaf];
    assert [w][..0] == [];
    assert WrittenAt([w], w.time) by { assert [w][0].time == w.time; }
    assert [leaf][0].timeMin == [w][0].time;
  }

  /** Tiles that differ in values only are equally contiguous. */
  lemma {:induction false} SameTimes(a: seq<RegLeaf>, b: seq<RegLeaf>)
    requires |a| == |b| && forall i :: 0 <= i < |a| ==> a[i].timeMin == b[i].timeMin && a[i].timeMax == b[i].timeMax
    ensures Contiguous(a) ==> Contiguous(b)
  {
    if Contiguous(a) {
      forall i | 0 < i < |b| ensures Follows(b[i - 1], b[i]) {
        assert Follows(a[i - 1], a[i]);
      }
    }
  }

  ghost predicate StartAt(ls: seq<RegLeaf>, t: Time) {
    exists i :: 0 <= i < |ls| && ls[i].timeMin == t
  }

  lemma {:induction false} StartsSameTime(ws: seq<Write>, w: Write, a: seq<RegLeaf>, b: seq<RegLeaf>)
    requires |a| == |b| && forall i :: 0 <= i < |a| ==> a[i].timeMin == b[i].timeMin
    requires AllStart(ws, a) && StartAt(b, w.time)
    ensures AllStart(ws + [w], b)
  {
    forall k | 0 <= k < |ws| + 1 ensures StartAt(b, (ws + [w])[k].time) {
      if k < |ws| {
        assert StartAt(a, ws[k].time);
        var i :| 0 <= i < |a| && a[i].timeMin == ws[k].time;
        assert b[i].timeMin == ws[k].time;
      }
    }
  }

  /** A second write at the same time replaces the value of the open tile. */
  lemma {:induction false} SameTimeWrite(ws: seq<Write>, now: Time, ls: seq<RegLeaf>, last: RegLeaf, w: Write)
    requires Tracking(ws, now, ls, Some(last)) && now <= w.time && last.timeMin == w.time
    ensures Tracking(ws + [w], w.time, ls, Some(last.(value := w.value)))
  {
    var tiles, tiles' := ls + [last], ls + [last.(value := w.value)];
    assert tiles'[|ls|].timeMin == w.time;
    SameTimes(tiles, tiles');
    StartsSameTime(ws, w, tiles, tiles');
    forall i | 0 <= i < |tiles'| ensures TileExact(ws + [w], tiles'[i]) {
      assert i < |ls| ==> tiles[i].timeMax < tiles[|ls|].timeMin;
      TileKept(ws, w, tiles, i, tiles'[i]);
    }
  }

  lemma {:induction false} TileKept(ws: seq<Write>, w: Write, tiles: seq<RegLeaf>, i: nat, leaf: RegLeaf)
    requires i < |tiles| && TilesExact(ws, tiles)
    requires leaf.timeMin == tiles[i].timeMin && leaf.timeMax <= w.time
    requires leaf.timeMax < w.time ==> leaf.value == tiles[i].value && leaf.timeMax <= tiles[i].timeMax
    requires leaf.timeMax == w.time ==> leaf.timeMin == w.time && leaf.value == w.value
    ensures TileExact(ws + [w], leaf)
  {
    assert TileExact(ws, tiles[i]);
    ValueAtAfter(ws, w, leaf.timeMin);
    forall t | leaf.Covers(t) ensures ValueAt(ws + [w], t) == Some(leaf.value) {
      ValueAtAfter(ws, w, t);
    }
  }

  lemma {:induction false} StartsExtended(ws: seq<Write>, w: Write, a: seq<RegLeaf>, b: seq<RegLeaf>)
    requires |a| <= |b| && forall i :: 0 <= i < |a| ==> a[i].timeMin == b[i].timeMin
    requires AllStart(ws, a) && StartAt(b, w.time)
    ensures AllStart(ws + [w], b)
  {
    forall k | 0 <= k < |ws| + 1 ensures StartAt(b, (ws + [w])[k].time) {
      if k < |ws| {
        assert StartAt(a, ws[k].time);
        var i :| 0 <= i < |a| && a[i].timeMin == ws[k].time;
        assert b[i].timeMin == ws[k].time;
      }
    }
  }

  lemma {:induction false} ContiguousExtended(ls: seq<RegLeaf>, last: RegLeaf, closed: RegLeaf, next: RegLeaf)
    requires Contiguous(ls + [last]) && closed.timeMin == last.timeMin && last.timeMax <= closed.timeMax
    requires Follows(closed, next) && next.timeMin <= next.timeMax
    ensures Contiguous(ls + [closed] + [next])
  {
    var a, b := ls + [last], ls + [closed] + [next];
    assert a[|ls|] == last && b[|ls|] == closed;
    forall i | 0 <= i < |b| ensures b[i].timeMin <= b[i].timeMax {
      assert i <= |ls| ==> a[i].timeMin <= a[i].timeMax;
    }
    forall i, j | 0 <= i < j < |b| ensures b[i].timeMax < b[j].timeMin {
      if i < |ls| {
        assert a[i].timeMax < a[|ls|].timeMin;
        assert j < |ls| ==> a[i].timeMax < a[j].timeMin;
      }
    }
    forall i | 0 < i < |b| ensures Follows(b[i - 1], b[i]) {
      if i <= |ls| {
        assert Follows(a[i - 1], a[i]);
      }
    }
  }

  /** A later write closes the open tile just before it. */
  lemma {:induction false} LaterWrite(ws: seq<Write>, now: Time, ls: seq<RegLeaf>, last: RegLeaf, w: Write)
    requires Tracking(ws, now, ls, Some(last)) && now <= w.time && last.timeMin < w.time
    ensures Tracking(ws + [w], w.time, ls + [last.(timeMax := w.time - 1)], Some(RegLeaf(w.value, w.time, w.time)))
  {
    var closed, next := last.(timeMax := w.time - 1), RegLeaf(w.value, w.time, w.time);
    var tiles, tiles' := ls + [last], ls + [closed] + [next];
    ContiguousExtended(ls, last, closed, next);
    assert tiles'[|ls| + 1].timeMin == w.time;
    StartsExtended(ws, w, tiles, tiles');
    LaterTiles(ws, now, ls, last, w);
    OrderedAfter(ws, now, w);
    assert tiles'[0].timeMin == tiles[0].timeMin;
  }

  lemma {:induction false} OrderedAfter(ws: seq<Write>, now: Time, w: Write)
    requires TimeOrdered(ws, now) && now <= w.time
    ensures TimeOrdered(ws + [w], w.time)
  {
  }

  lemma {:induction false} LaterTiles(ws: seq<Write>, now: Time, ls: seq<RegLeaf>, last: RegLeaf, w: Write)
    requires Tracking(ws, now, ls, Some(last)) && now <= w.time && last.timeMin < w.time
    ensures TilesExact(ws + [w], ls + [last.(timeMax := w.time - 1)] + [RegLeaf(w.value, w.time, w.time)])
  {
    var closed, next := last.(timeMax := w.time - 1), RegLeaf(w.value, w.time, w.time);
    var tiles, tiles' := ls + [last], ls + [closed] + [next];
    forall i | 0 <= i < |tiles'| ensures TileExact(ws + [w], tiles'[i]) {
      if i < |ls| {
        assert tiles[i].timeMax < tiles[|ls|].timeMin;
        TileKept(ws, w, tiles, i, tiles'[i]);
      } else {
        NewestTiles(ws, now, last, w);
        assert TileExact(ws, tiles[|ls|]);
        ValueAtAfter(ws, w, last.timeMin);
      }
    }
  }

  lemma {:induction false} NewestTiles(ws: seq<Write>, now: Time, last: RegLeaf, w: Write)
    requires |ws| > 0 && TimeOrdered(ws, now) && now <= w.time && last.timeMin == ws[|ws| - 1].time < w.time
    requires last.value == ws[|ws| - 1].value
    ensures forall t :: last.timeMin <= t < w.time ==> ValueAt(ws + [w], t) == Some(last.value)
    ensures forall t :: w.time <= t ==> ValueAt(ws + [w], t) == Some(w.value)
    ensures WrittenAt(ws + [w], w.time)
  {
    forall t
      ensures last.timeMin <= t < w.time ==> ValueAt(ws + [w], t) == Some(last.value)
      ensures w.time <= t ==> ValueAt(ws + [w], t) == Some(w.value)
    {
      ValueAtAfter(ws, w, t);
    }
    ValueAtAfter(ws, w, w.time);
  }

  /** At the end of the trace the open tile is extended to the last time. */
  lemma {:induction false} FinishTiles(ws: seq<Write>, now: Time, ls: seq<RegLeaf>, last: RegLeaf)
    requires Tracking(ws, now, ls, Some(last))
    ensures Tiled(ws, now, ls + [last.(timeMax := now)])
  {
    var closed := last.(timeMax := now);
    var tiles, tiles' := ls + [last], ls + [closed];
    LengthenedContiguous(ls, last, closed);
    forall i | 0 <= i < |tiles'| ensures TileExact(ws, tiles'[i]) {
      assert TileExact(ws, tiles[i]);
    }
    StartsSame(ws, tiles, tiles');
  }

  lemma {:induction false} LengthenedContiguous(ls: seq<RegLeaf>, last: RegLeaf, closed: RegLeaf)
    requires Contiguous(ls + [last]) && closed.timeMin == last.timeMin && last.timeMax <= closed.timeMax
    ensures Contiguous(ls + [closed])
  {
    var a, b := ls + [last], ls + [closed];
    assert a[|ls|] == last && b[|ls|] == closed;
    forall i | 0 <= i < |b| ensures b[i].timeMin <= b[i].timeMax {
      assert a[i].timeMin <= a[i].timeMax;
    }
    forall i, j | 0 <= i < j < |b| ensures b[i].timeMax < b[j].timeMin {
      assert a[i].timeMax < a[j].timeMin;
    }
    forall i | 0 < i < |b| ensures Follows(b[i - 1], b[i]) {
      assert Follows(a[i - 1], a[i]);
    }
  }

  lemma {:induction false} StartsSame(ws: seq<Write>, a: seq<RegLeaf>, b: seq<RegLeaf>)
    requires |a| == |b| && forall i :: 0 <= i < |a| ==> a[i].timeMin == b[i].timeMin
    requires AllStart(ws, a)
    ensures AllStart(ws, b)
  {
    forall k | 0 <= k < |ws| ensures StartAt(b, ws[k].time) {
      assert StartAt(a, ws[k].time);
      var i :| 0 <= i < |a| && a[i].timeMin == ws[k].time;
      assert b[i].timeMin == ws[k].time;
    }
  }

  lemma {:induction false} Idle(ws: seq<Write>, now: Time, later: Time, ls: seq<RegLeaf>, last: Option<RegLeaf>)
    requires Tracking(ws, now, ls, last) && now <= later
    ensures Tracking(ws, later, ls, last)
  {
  }

  /** The tile closed by a write, if any, and the tile it opens or amends. */
  function NextTile(last: RegLeaf, time: Time, value: U64): (Option<RegLeaf>, RegLeaf)
    requires last.timeMin == last.timeMax <= time
  {
    if last.timeMin == time && last.timeMax == time then (None, last.(value := value))
    else (Some(last.(timeMax := time - 1)), RegLeaf(value, time, time))
  }

  function ToSeq(o: Option<RegLeaf>): seq<RegLeaf> {
    match o
    case None => []
    case Some(leaf) => [leaf]
  }

  lemma {:induction false} PushTracks(ws: seq<Write>, now: Time, ls: seq<RegLeaf>, last: RegLeaf, w: Write)
    requires Tracking(ws, now, ls, Some(last)) && now <= w.time
    ensures var (out, next) := NextTile(last, w.time, w.value);
      Tracking(ws + [w], w.time, ls + ToSeq(out), Some(next))
  {
    if last.timeMin == w.time {
      SameTimeWrite(ws, now, ls, last, w);
      assert ls + [] == ls;
    } else {
      LaterWrite(ws, now, ls, last, w);
    }
  }

  class RegisterPass {
    var currTime: Time
    var lasts: seq<Option<RegLeaf>>
    ghost var writes: seq<seq<Write>>
    ghost var emitted: seq<seq<RegLeaf>>

    ghost predicate Valid()
      reads this
    {
      && |lasts| == |writes| == |emitted|
      && forall r :: 0 <= r < |lasts| ==> Tracking(writes[r], currTime, emitted[r], lasts[r]) && lasts[r].Some?
    }

    constructor ()
      ensures Valid() && lasts == [] && currTime == 0
    {
      currTime, lasts := 0, [];
      writes, emitted := [], [];
    }

    /** Any timed event moves the clock. */
    method Tick(time: Time)
      requires Valid() && currTime <= time
      modifies this`currTime
      ensures Valid() && currTime == time
    {
      forall r | 0 <= r < |lasts| ensures Tracking(writes[r], time, emitted[r], lasts[r]) {
        Idle(writes[r], currTime, time, emitted[r], lasts[r]);
      }
      currTime := time;
    }

    /** A write to register `idx`; register indices are handed out in order of first appearance. */
    method PushRegister(time: Time, idx: nat, value: U64) returns (out: Option<RegLeaf>)
      requires Valid() && currTime <= time && idx <= |lasts|
      modifies this
      ensures Valid() && currTime == time
      ensures idx == |old(lasts)| ==> out.None? && writes == old(writes) + [[Write(time, value)]]
      ensures idx == |old(lasts)| ==> emitted == old(emitted) + [[]]
      ensures idx < |old(lasts)| ==>
                writes == old(writes)[idx := old(writes)[idx] + [Write(time, value)]]
                && emitted == old(emitted)[idx := old(emitted)[idx] + ToSeq(out)]
    {
      Tick(time);
      if idx == |lasts| {
        FirstWrite(Write(time, value));
        lasts := lasts + [Some(RegLeaf(value, time, time))];
        writes, emitted := writes + [[Write(time, value)]], emitted + [[]];
        out := None;
      } else {
        out := PushAgain(time, idx, value);
      }
    }

    method PushAgain(time: Time, idx: nat, value: U64) returns (out: Option<RegLeaf>)
      requires Valid() && currTime == time && idx < |lasts|
      modifies this`lasts, this`writes, this`emitted
      ensures Valid()
      ensures writes == old(writes)[idx := old(writes)[idx] + [Write(time, value)]]
      ensures emitted == old(emitted)[idx := old(emitted)[idx] + ToSeq(out)]
    {
      var last := lasts[idx].value;
      assert Tracking(writes[idx], currTime, emitted[idx], Some(last));
      PushTracks(writes[idx], currTime, emitted[idx], last, Write(time, value));
      var closed, next := NextTile(last, time, value).0, NextTile(last, time, value).1;
      lasts := lasts[idx := Some(next)];
      writes := writes[idx := writes[idx] + [Write(time, value)]];
      emitted := emitted[idx := emitted[idx] + ToSeq(closed)];
      out := closed;
    }

    /** Closes the open tile of every register at the last time of the trace. */
    method Finish() returns (out: seq<RegLeaf>)
      requires Valid()
      ensures |out| == |lasts|
      ensures forall r :: 0 <= r < |lasts| ==> Tiled(writes[r], currTime, emitted[r] + [out[r]])
    {
      out := [];
      while |out| < |lasts|
        invariant |out| <= |lasts|
        invariant forall r :: 0 <= r < |out| ==> Tiled(writes[r], currTime, emitted[r] + [out[r]])
      {
        var r := |out|;
        assert Tracking(writes[r], currTime, emitted[r], lasts[r]);
        FinishTiles(writes[r], currTime, emitted[r], lasts[r].value);
        out := out + [lasts[r].value.(timeMax := currTime)];
      }
    }
  }

  // ---- queries over an indexed register ----

  function LeafBox(leaf: RegLeaf): Node {
    leaf.Box()
  }

  type RegTree = RTree<Node, RegLeaf>

  /** The tree indexes the tiles of a write history, in whatever order. */
  ghost predicate Indexes(t: RegTree, ws: seq<Write>, end: Time, tiles: seq<RegLeaf>) {
    && Built(t, LeafBox) && multiset(t.leaves) == multiset(tiles) && Tiled(ws, end, tiles)
    && forall leaf :: leaf in t.leaves ==> t.bbox.Contains(leaf.Box())
  }

  lemma {:induction false} SameMembers(t: RegTree, tiles: seq<RegLeaf>, leaf: RegLeaf)
    requires multiset(t.leaves) == multiset(tiles)
    ensures leaf in t.leaves <==> leaf in tiles
  {
    assert leaf in t.leaves <==> leaf in multiset(t.leaves);
  }

  lemma {:induction false} ValueBefore(ws: seq<Write>, now: Time, t: Time)
    requires TimeOrdered(ws, now) && |ws| > 0
    ensures ValueAt(ws, t).Some? <==> ws[0].time <= t
  {
    if |ws| > 1 {
      assert ws[..|ws| - 1][0] == ws[0];
      ValueBefore(ws[..|ws| - 1], now, t);
    } else {
      assert ws[..0] == [];
    }
  }

  /** Some tile covers every instant from the first tile's start to the last tile's end. */
  lemma {:induction false} TileAt(ls: seq<RegLeaf>, t: Time) returns (i: nat)
    requires |ls| > 0 && Contiguous(ls) && ls[0].timeMin <= t <= ls[|ls| - 1].timeMax
    ensures i < |ls| && ls[i].Covers(t)
  {
    var n := |ls| - 1;
    if ls[n].timeMin <= t {
      i := n;
    } else {
      assert Follows(ls[n - 1], ls[n]);
      forall k | 0 < k < n ensures Follows(ls[..n][k - 1], ls[..n][k]) {
        assert Follows(ls[k - 1], ls[k]);
      }
      i := TileAt(ls[..n], t);
    }
  }

  /** The leaf covering an instant. */
  method LeafAt(t: RegTree, time: Time) returns (r: Option<RegLeaf>)
    requires Built(t, LeafBox)
    ensures r.Some? ==> r.value in t.leaves && r.value.Covers(time)
    ensures r.None? ==> forall leaf :: leaf in t.leaves ==> !leaf.Covers(time)
  {
    var fn := (n: Node) => n.timeMin <= time <= n.timeMax;
    var fl := (leaf: RegLeaf) => leaf.Covers(time);
    MonotoneKeeps(t, LeafBox, fn, fl);
    var iter := new Q.QueryIter(t, fn, fl);
    r := iter.Next();
    forall leaf ensures leaf in Q.Passing(t.leaves, fl, 0) <==> leaf in t.leaves && leaf.Covers(time) {
      Q.PassingMember(t.leaves, fl, 0, leaf);
    }
  }

  /** The register value at any time up to the end of the trace is the last value written. */
  method RegValueAt(t: RegTree, time: Time, ghost ws: seq<Write>, ghost end: Time, ghost tiles: seq<RegLeaf>)
    returns (r: Option<U64>)
    requires Indexes(t, ws, end, tiles) && TimeOrdered(ws, end)
    ensures time <= end ==> r == ValueAt(ws, time)
    ensures time > end ==> r == None
  {
    var leaf := LeafAt(t, time);
    LookupIs(t, time, leaf, ws, end, tiles);
    match leaf
    case Some(l) => r := Some(l.value);
    case None => r := None;
  }

  lemma {:induction false} LookupIs(t: RegTree, time: Time, leaf: Option<RegLeaf>, ws: seq<Write>, end: Time,
                                    tiles: seq<RegLeaf>)
    requires Indexes(t, ws, end, tiles) && TimeOrdered(ws, end)
    requires leaf.Some? ==> leaf.value in t.leaves && leaf.value.Covers(time)
    requires leaf.None? ==> forall l :: l in t.leaves ==> !l.Covers(time)
    ensures leaf.Some? ==> time <= end && ValueAt(ws, time) == Some(leaf.value.value)
    ensures leaf.None? && time <= end ==> ValueAt(ws, time) == None
  {
    match leaf
    case Some(l) =>
      SameMembers(t, tiles, l);
      var i :| 0 <= i < |tiles| && tiles[i] == l;
      assert TileExact(ws, tiles[i]);
      assert i < |tiles| - 1 ==> tiles[i].timeMax < tiles[|tiles| - 1].timeMin;
    case None =>
      ValueBefore(ws, end, time);
      if tiles[0].timeMin <= time <= end {
        var i := TileAt(tiles, time);
        SameMembers(t, tiles, tiles[i]);
        assert false;
      }
  }

  // ---- nearest writes of a matching value ----

  function LeafStatus(target: Time, range: TimeRange, m: Matcher, leaf: RegLeaf): NN.Status {
    if !range.Contains(leaf.timeMin) then NN.Ignore
    else if !m.Scalar(leaf.value) then NN.Ignore
    else NN.Keep(AbsDiff(leaf.timeMin, target))
  }

  lemma {:induction false} StatusMonotone(target: Time, range: TimeRange, m: Matcher, n: Node, leaf: RegLeaf)
    requires m.Valid() && n.Contains(leaf.Box()) && leaf.timeMin <= leaf.timeMax
    ensures NN.Bounds(NodeStatus(target, range, m, n), LeafStatus(target, range, m, leaf))
  {
    if LeafStatus(target, range, m, leaf).Keep? {
      MatchRangeIsSomeScalar(m, n.Addrs());
      assert n.Addrs().Contains(leaf.value);
    }
  }

  predicate Candidate(t: RegTree, range: TimeRange, m: Matcher, leaf: RegLeaf) {
    leaf in t.leaves && range.Contains(leaf.timeMin) && m.Scalar(leaf.value)
  }

  /** Among the leaves that start in `range` with a matching value, the start nearest to `target`. */
  method NearestOverTime(t: RegTree, target: Time, range: TimeRange, m: Matcher) returns (r: Option<Time>)
    requires Built(t, LeafBox) && m.Valid()
    requires forall leaf :: leaf in t.leaves ==> leaf.timeMin <= leaf.timeMax
    ensures r.None? ==> forall leaf :: !Candidate(t, range, m, leaf)
    ensures r.Some? ==> exists leaf :: Candidate(t, range, m, leaf) && leaf.timeMin == r.value
    ensures r.Some? ==> forall leaf :: Candidate(t, range, m, leaf) ==>
                          AbsDiff(r.value, target) <= AbsDiff(leaf.timeMin, target)
  {
    var vn := (n: Node) => NodeStatus(target, range, m, n);
    var vl := (leaf: RegLeaf) => LeafStatus(target, range, m, leaf);
    StatusAdmissible(t, target, range, m);
    var leaf := NN.NearestNeighbor(t, vn, vl);
    forall other | Candidate(t, range, m, other)
      ensures leaf.Some? && AbsDiff(leaf.value.timeMin, target) <= AbsDiff(other.timeMin, target)
    {
      var j :| 0 <= j < |t.leaves| && t.leaves[j] == other;
      assert NN.KeptLeaf(t, vl, j);
    }
    match leaf
    case Some(l) =>
      assert Candidate(t, range, m, l);
      r := Some(l.timeMin);
    case None => r := None;
  }

  lemma {:induction false} StatusAdmissible(t: RegTree, target: Time, range: TimeRange, m: Matcher)
    requires Built(t, LeafBox) && m.Valid()
    requires forall leaf :: leaf in t.leaves ==> leaf.timeMin <= leaf.timeMax
    ensures NN.Admissible(t, (n: Node) => NodeStatus(target, range, m, n),
                          (leaf: RegLeaf) => LeafStatus(target, range, m, leaf))
  {
    forall h, j | 1 <= h <= t.Depth() && 0 <= j < |t.leaves|
      ensures NN.Bounds(NodeStatus(target, range, m, AncestorNode(t, h, j)), LeafStatus(target, range, m, t.leaves[j]))
    {
      AncestorContains(t, Boxes(t.leaves, LeafBox), h, j);
      StatusMonotone(target, range, m, AncestorNode(t, h, j), t.leaves[j]);
    }
  }

  // ---- the four lookups, against a scan of the history ----

  /** At `t` the register was written, and its value once everything at `t` was done matches. */
  ghost predicate Hit(ws: seq<Write>, m: Matcher, t: Time) {
    WrittenAt(ws, t) && ValueAt(ws, t).Some? && m.Scalar(ValueAt(ws, t).value)
  }

  lemma {:induction false} HitIsCandidate(t: RegTree, ws: seq<Write>, end: Time, tiles: seq<RegLeaf>, m: Matcher,
                                          range: TimeRange, at: Time)
    requires Indexes(t, ws, end, tiles)
    ensures Hit(ws, m, at) && range.Contains(at) <==> exists leaf :: Candidate(t, range, m, leaf) && leaf.timeMin == at
  {
    if Hit(ws, m, at) && range.Contains(at) {
      var k :| 0 <= k < |ws| && ws[k].time == at;
      assert StartAt(tiles, ws[k].time);
      var i :| 0 <= i < |tiles| && tiles[i].timeMin == at;
      assert TileExact(ws, tiles[i]);
      SameMembers(t, tiles, tiles[i]);
      assert tiles[i].Covers(at);
      assert Candidate(t, range, m, tiles[i]);
    }
    if leaf :| Candidate(t, range, m, leaf) && leaf.timeMin == at {
      SameMembers(t, tiles, leaf);
      var i :| 0 <= i < |tiles| && tiles[i] == leaf;
      assert TileExact(ws, tiles[i]);
      assert leaf.Covers(at);
    }
  }

  /** `r` is the hit of `range` nearest to `target`, or there is none. */
  ghost predicate NearestHit(ws: seq<Write>, m: Matcher, range: TimeRange, target: Time, r: Option<Time>) {
    match r
    case None => forall u :: range.Contains(u) ==> !Hit(ws, m, u)
    case Some(v) =>
      range.Contains(v) && Hit(ws, m, v)
      && forall u :: range.Contains(u) && Hit(ws, m, u) ==> AbsDiff(v, target) <= AbsDiff(u, target)
  }

  method NearestHitOf(t: RegTree, target: Time, range: TimeRange, m: Matcher, ghost ws: seq<Write>, ghost end: Time,
                      ghost tiles: seq<RegLeaf>) returns (r: Option<Time>)
    requires Indexes(t, ws, end, tiles) && m.Valid()
    ensures NearestHit(ws, m, range, target, r)
  {
    LeavesOrdered(t, ws, end, tiles);
    r := NearestOverTime(t, target, range, m);
    forall u
      ensures Hit(ws, m, u) && range.Contains(u) <==> exists leaf :: Candidate(t, range, m, leaf) && leaf.timeMin == u
    {
      HitIsCandidate(t, ws, end, tiles, m, range, u);
    }
  }

  lemma {:induction false} LeavesOrdered(t: RegTree, ws: seq<Write>, end: Time, tiles: seq<RegLeaf>)
    requires Indexes(t, ws, end, tiles)
    ensures forall leaf :: leaf in t.leaves ==> leaf.timeMin <= leaf.timeMax
  {
    forall leaf | leaf in t.leaves ensures leaf.timeMin <= leaf.timeMax {
      SameMembers(t, tiles, leaf);
    }
  }

  ghost predicate LastHitBefore(ws: seq<Write>, m: Matcher, time: Time, r: Option<Time>) {
    match r
    case None => forall u :: u < time ==> !Hit(ws, m, u)
    case Some(v) => v < time && Hit(ws, m, v) && forall u :: u < time && Hit(ws, m, u) ==> u <= v
  }

  ghost predicate FirstHitAfter(ws: seq<Write>, m: Matcher, time: Time, r: Option<Time>) {
    match r
    case None => forall u :: time < u ==> !Hit(ws, m, u)
    case Some(v) => time < v && Hit(ws, m, v) && forall u :: time < u && Hit(ws, m, u) ==> v <= u
  }

  ghost predicate FirstHit(ws: seq<Write>, m: Matcher, r: Option<Time>) {
    match r
    case None => forall u :: !Hit(ws, m, u)
    case Some(v) => Hit(ws, m, v) && forall u :: Hit(ws, m, u) ==> v <= u
  }

  ghost predicate LastHit(ws: seq<Write>, m: Matcher, r: Option<Time>) {
    match r
    case None => forall u :: !Hit(ws, m, u)
    case Some(v) => Hit(ws, m, v) && forall u :: Hit(ws, m, u) ==> u <= v
  }

  method PrevTimeWith(t: RegTree, time: Time, m: Matcher, ghost ws: seq<Write>, ghost end: Time,
                      ghost tiles: seq<RegLeaf>)
    returns (r: Option<Time>)
    requires Indexes(t, ws, end, tiles) && m.Valid()
    ensures LastHitBefore(ws, m, time, r)
  {
    if time == 0 {
      return None;
    }
    r := NearestHitOf(t, time, TimeRange(0, time - 1), m, ws, end, tiles);
  }

  method NextTimeWith(t: RegTree, time: Time, m: Matcher, ghost ws: seq<Write>, ghost end: Time,
                      ghost tiles: seq<RegLeaf>)
    returns (r: Option<Time>)
    requires Indexes(t, ws, end, tiles) && m.Valid()
    ensures FirstHitAfter(ws, m, time, r)
  {
    if time == TIME_MAX {
      return None;
    }
    r := NearestHitOf(t, time, TimeRange(time + 1, TIME_MAX), m, ws, end, tiles);
  }

  method FirstTimeWith(t: RegTree, m: Matcher, ghost ws: seq<Write>, ghost end: Time, ghost tiles: seq<RegLeaf>)
    returns (r: Option<Time>)
    requires Indexes(t, ws, end, tiles) && m.Valid()
    ensures FirstHit(ws, m, r)
  {
    var range := t.bbox.Times();
    r := NearestHitOf(t, range.min, range, m, ws, end, tiles);
    HitsInBbox(t, ws, end, tiles, m);
  }

  method LastTimeWith(t: RegTree, m: Matcher, ghost ws: seq<Write>, ghost end: Time, ghost tiles: seq<RegLeaf>)
    returns (r: Option<Time>)
    requires Indexes(t, ws, end, tiles) && m.Valid()
    ensures LastHit(ws, m, r)
  {
    var range := t.bbox.Times();
    r := NearestHitOf(t, range.max, range, m, ws, end, tiles);
    HitsInBbox(t, ws, end, tiles, m);
  }

  lemma {:induction false} HitsInBbox(t: RegTree, ws: seq<Write>, end: Time, tiles: seq<RegLeaf>, m: Matcher)
    requires Indexes(t, ws, end, tiles)
    ensures forall u :: Hit(ws, m, u) ==> t.bbox.Times().Contains(u)
  {
    LeavesOrdered(t, ws, end, tiles);
    forall u | Hit(ws, m, u) ensures t.bbox.Times().Contains(u) {
      var all := TimeRange(0, TIME_MAX);
      HitIsCandidate(t, ws, end, tiles, m, all, u);
      var leaf :| Candidate(t, all, m, leaf) && leaf.timeMin == u;
      assert t.bbox.Contains(leaf.Box());
    }
  }
}
