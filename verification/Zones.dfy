/** Clustering of memory leaves into zones that stay far apart in the address space. */
module Zones {
  import opened Ranges

  const GB: U64 := 1024 * 1024 * 1024
  const ZONE_MIN_PADDING: U64 := 128 * GB
  const HALF_PADDING: U64 := 64 * GB

  datatype Zone = Zone(bbox: Node, leafCount: nat)

  /** The address range of a box, widened on both sides within the address space. */
  function Pad(box: Node, pad: U64): AddrRange {
    AddrRange(if box.addrMin < pad then 0 else box.addrMin - pad,
              if box.addrMax > ADDR_MAX - pad then ADDR_MAX else box.addrMax + pad)
  }

  /** More than a whole padding lies between the two boxes. */
  ghost predicate FarApart(a: Node, b: Node) {
    a.addrMax as int + ZONE_MIN_PADDING as int < b.addrMin as int
    || b.addrMax as int + ZONE_MIN_PADDING as int < a.addrMin as int
  }

  lemma {:induction false} PaddingsDisjoint(a: Node, b: Node)
    requires a.Valid() && b.Valid()
    ensures Pad(a, ZONE_MIN_PADDING).Disjoint(b.Addrs()) <==> FarApart(a, b)
    ensures Pad(a, HALF_PADDING).Disjoint(Pad(b, HALF_PADDING)) <==> FarApart(a, b)
  {
  }

  ghost predicate AllApart(zs: seq<Zone>) {
    forall i, j :: 0 <= i < j < |zs| ==> FarApart(zs[i].bbox, zs[j].bbox)
  }

  ghost predicate ValidZones(zs: seq<Zone>) {
    forall i :: 0 <= i < |zs| ==> zs[i].bbox.Valid()
  }

  /** A box far from two boxes that are near each other is far from their hull. */
  lemma {:induction false} FarFromHull(a: Node, node: Node, b: Node)
    requires a.Valid() && node.Valid() && b.Valid()
    requires FarApart(a, b) && FarApart(node, b) && !FarApart(a, node)
    ensures FarApart(a.Extend(node), b) && FarApart(b, a.Extend(node))
  {
  }

  // ---- who owns which leaf ----

  /** Occurrences of a leaf over all zones. */
  ghost function Total(ms: seq<multiset<Node>>, n: Node): nat {
    if ms == [] then 0 else Total(ms[..|ms| - 1], n) + ms[|ms| - 1][n]
  }

  lemma {:induction false} TotalUpdate(ms: seq<multiset<Node>>, i: nat, m: multiset<Node>, n: Node)
    requires i < |ms|
    ensures Total(ms[i := m], n) + ms[i][n] == Total(ms, n) + m[n]
  {
    var last := |ms| - 1;
    assert ms[i := m][..last] == if i < last then ms[..last][i := m] else ms[..last];
    if i < last {
      TotalUpdate(ms[..last], i, m, n);
    }
  }

  /** Removes entry `j`, filling its place with the last one. */
  function SwapRemove<T>(s: seq<T>, j: nat): seq<T>
    requires j < |s|
  {
    s[j := s[|s| - 1]][..|s| - 1]
  }

  lemma {:induction false} TotalSwapRemove(ms: seq<multiset<Node>>, j: nat, n: Node)
    requires j < |ms|
    ensures Total(SwapRemove(ms, j), n) + ms[j][n] == Total(ms, n)
  {
    TotalUpdate(ms, j, ms[|ms| - 1], n);
  }

  /** Zone `i` counts and bounds exactly the leaves `members[i]`; together they are all leaves inserted. */
  ghost predicate Owned(zs: seq<Zone>, members: seq<multiset<Node>>, all: multiset<Node>) {
    exists ms :: ms == members && OwnedBy(zs, ms, all)
  }

  ghost predicate OwnedBy(zs: seq<Zone>, members: seq<multiset<Node>>, all: multiset<Node>) {
    OwnsAll(zs, members) && Totals(members, all)
  }

  ghost predicate OwnsAll(zs: seq<Zone>, members: seq<multiset<Node>>) {
    |zs| == |members| && forall i :: 0 <= i < |zs| ==> Owns(zs[i], members[i])
  }

  ghost predicate Totals(members: seq<multiset<Node>>, all: multiset<Node>) {
    forall n :: Total(members, n) == all[n]
  }

  lemma {:induction false} OwnsUpdate(zs: seq<Zone>, members: seq<multiset<Node>>, i: nat, z: Zone, m: multiset<Node>)
    requires OwnsAll(zs, members) && i < |zs| && Owns(z, m)
    ensures OwnsAll(zs[i := z], members[i := m])
  {
    var after, owners := zs[i := z], members[i := m];
    forall k | 0 <= k < |after| ensures Owns(after[k], owners[k]) {
      if k != i {
        assert Owns(zs[k], members[k]);
      }
    }
  }

  lemma {:induction false} OwnsSwapRemove(zs: seq<Zone>, members: seq<multiset<Node>>, j: nat)
    requires OwnsAll(zs, members) && j < |zs|
    ensures OwnsAll(SwapRemove(zs, j), SwapRemove(members, j))
  {
    var left, owners := SwapRemove(zs, j), SwapRemove(members, j);
    forall k | 0 <= k < |left| ensures Owns(left[k], owners[k]) {
      var from := if k == j then |zs| - 1 else k;
      assert Owns(zs[from], members[from]);
    }
  }

  ghost predicate Owns(z: Zone, ms: multiset<Node>) {
    && z.bbox.Valid() && z.leafCount == |ms| && (forall n :: n in ms ==> z.bbox.Contains(n) && n.Valid())
    && Cluster(z.bbox, ms)
  }

  /** The box fits its leaves tightly, and leaves no wide gap between them. */
  ghost predicate Cluster(box: Node, ms: multiset<Node>) {
    exists b: Node :: b == box && Tight(b, ms) && Bridged(b, ms)
  }

  ghost predicate StartsLow(ms: multiset<Node>, x: U64) {
    exists n :: n in ms && n.addrMin == x
  }

  /** The box is no larger than its leaves need. */
  ghost predicate Tight(box: Node, ms: multiset<Node>) {
    && StartsLow(ms, box.addrMin) && (exists n :: n in ms && n.timeMin == box.timeMin)
    && (exists n :: n in ms && n.timeMax == box.timeMax)
  }

  /** A leaf that reaches beyond `y` and starts no more than a padding behind it. */
  ghost predicate Bridge(n: Node, y: int) {
    n.addrMax as int > y && n.addrMin as int <= y + ZONE_MIN_PADDING as int
  }

  ghost predicate BridgedAt(ms: multiset<Node>, y: int) {
    exists n :: n in ms && Bridge(n, y)
  }

  /** No gap between the leaves of a zone is wider than the padding. */
  ghost predicate Bridged(box: Node, ms: multiset<Node>) {
    forall y :: box.addrMin as int <= y < box.addrMax as int ==> BridgedAt(ms, y)
  }

  lemma {:induction false} BridgedHull(a: Node, ams: multiset<Node>, b: Node, bms: multiset<Node>)
    requires a.Valid() && b.Valid() && !FarApart(a, b) && StartsLow(ams, a.addrMin) && StartsLow(bms, b.addrMin)
    requires Bridged(a, ams) && Bridged(b, bms) && forall n :: n in ams || n in bms ==> n.Valid()
    ensures Bridged(a.Extend(b), ams + bms) && StartsLow(ams + bms, a.Extend(b).addrMin)
  {
    var p :| p in ams && p.addrMin == a.addrMin;
    var q :| q in bms && q.addrMin == b.addrMin;
    assert p in ams + bms && q in ams + bms;
    var box := a.Extend(b);
    forall y | box.addrMin as int <= y < box.addrMax as int ensures BridgedAt(ams + bms, y) {
      if a.addrMin as int <= y < a.addrMax as int {
        assert BridgedAt(ams, y);
        var n :| n in ams && Bridge(n, y);
        assert n in ams + bms;
      } else if b.addrMin as int <= y < b.addrMax as int {
        assert BridgedAt(bms, y);
        var n :| n in bms && Bridge(n, y);
        assert n in ams + bms;
      } else if y < b.addrMin as int {
        assert Bridge(q, y);
      } else {
        assert Bridge(p, y);
      }
    }
  }

  lemma {:induction false} TightHull(a: Node, ams: multiset<Node>, b: Node, bms: multiset<Node>)
    requires Tight(a, ams) && Tight(b, bms) && StartsLow(ams + bms, a.Extend(b).addrMin)
    ensures Tight(a.Extend(b), ams + bms)
  {
    var p :| p in ams && p.timeMin == a.timeMin;
    var q :| q in bms && q.timeMin == b.timeMin;
    var r :| r in ams && r.timeMax == a.timeMax;
    var s :| s in bms && s.timeMax == b.timeMax;
    assert p in ams + bms && q in ams + bms && r in ams + bms && s in ams + bms;
  }

  /** A zone of one leaf. */
  lemma {:induction false} OwnsOne(node: Node)
    requires node.Valid()
    ensures Owns(Zone(node, 1), multiset{node})
  {
    assert node in multiset{node};
    forall y | node.addrMin as int <= y < node.addrMax as int ensures BridgedAt(multiset{node}, y) {
      assert Bridge(node, y);
    }
    assert Tight(node, multiset{node}) && Bridged(node, multiset{node});
  }

  lemma {:induction false} OwnsMore(z: Zone, ms: multiset<Node>, node: Node)
    requires Owns(z, ms) && node.Valid() && !FarApart(z.bbox, node)
    ensures Owns(Zone(z.bbox.Extend(node), z.leafCount + 1), ms + multiset{node})
  {
    OwnsOne(node);
    OwnsMerged(z, ms, Zone(node, 1), multiset{node});
  }

  lemma {:induction false} OwnsMerged(a: Zone, ams: multiset<Node>, b: Zone, bms: multiset<Node>)
    requires Owns(a, ams) && Owns(b, bms) && !FarApart(a.bbox, b.bbox)
    ensures Owns(Zone(a.bbox.Extend(b.bbox), a.leafCount + b.leafCount), ams + bms)
  {
    BridgedHull(a.bbox, ams, b.bbox, bms);
    TightHull(a.bbox, ams, b.bbox, bms);
    assert Tight(a.bbox.Extend(b.bbox), ams + bms);
  }

  /** The leaves inserted, and `node` if it has been taken in. */
  ghost function Taken(inserted: seq<Node>, node: Node, wasInserted: bool): multiset<Node> {
    if wasInserted then multiset(inserted) + multiset{node} else multiset(inserted)
  }

  class ZoneList {
    var zones: seq<Zone>
    ghost var members: seq<multiset<Node>>
    ghost var inserted: seq<Node>

    ghost predicate Valid()
      reads this
    {
      AllApart(zones) && Owned(zones, members, multiset(inserted))
    }

    constructor ()
      ensures Valid() && inserted == [] && zones == []
    {
      zones, members, inserted := [], [], [];
      assert OwnedBy([], [], multiset{});
    }

    /** Adds one leaf: it joins the zone near it, zones it brings too close are merged. */
    method InsertNode(node: Node)
      requires Valid() && node.Valid()
      modifies this
      ensures Valid() && inserted == old(inserted) + [node]
    {
      var wasInserted, conflict := GrowNearZone(node);
      inserted := inserted + [node];
      if conflict {
        MergeConflicts();
      }
      if !wasInserted {
        NewOwned(zones, members, multiset(old(inserted)), node);
        zones := zones + [Zone(node, 1)];
        members := members + [multiset{node}];
      }
    }

    /** Merges zones that came too close until all are apart again; at least one pair has to be. */
    method MergeConflicts()
      requires Owned(zones, members, multiset(inserted))
      requires exists i, j :: 0 <= i < j < |zones| && !FarApart(zones[i].bbox, zones[j].bbox)
      modifies this`zones, this`members
      ensures Valid()
    {
      var found, i, j := FindConflict();
      assert found;
      while found
        invariant Owned(zones, members, multiset(inserted))
        invariant found ==> 0 <= i < j < |zones| && !FarApart(zones[i].bbox, zones[j].bbox)
        invariant !found ==> AllApart(zones)
        decreases |zones| + if found then 1 else 0
      {
        MergePair(i, j);
        found, i, j := FindConflict();
      }
    }

    /** Two zones that are too close become one. */
    method MergePair(i: nat, j: nat)
      requires Owned(zones, members, multiset(inserted)) && i < j < |zones|
      requires !FarApart(zones[i].bbox, zones[j].bbox)
      modifies this`zones, this`members
      ensures Owned(zones, members, multiset(inserted)) && |zones| == |old(zones)| - 1
    {
      MergeOwned(zones, members, multiset(inserted), i, j);
      var a, b := zones[i], zones[j];
      var rest := SwapRemove(zones, j);
      assert rest[i] == a && Merged(a, b) == Zone(a.bbox.Extend(b.bbox), a.leafCount + b.leafCount);
      rest := rest[i := Zone(a.bbox.Extend(b.bbox), a.leafCount + b.leafCount)];
      zones, members := rest, SwapRemove(members, j)[i := members[i] + members[j]];
    }

    /** The first pair of zones, in scan order, whose half-padded ranges meet. */
    method FindConflict() returns (found: bool, i: nat, j: nat)
      requires Owned(zones, members, multiset(inserted))
      ensures found ==> i < j < |zones| && !FarApart(zones[i].bbox, zones[j].bbox)
      ensures !found ==> AllApart(zones)
    {
      OwnedValid(zones, members, multiset(inserted));
      i, j, found := 0, 0, false;
      while i < |zones|
        invariant 0 <= i <= |zones|
        invariant forall a, b :: 0 <= a < i && a < b < |zones| ==> FarApart(zones[a].bbox, zones[b].bbox)
      {
        j := i + 1;
        while j < |zones|
          invariant i < j <= |zones|
          invariant forall b :: i < b < j ==> FarApart(zones[i].bbox, zones[b].bbox)
        {
          PaddingsDisjoint(zones[i].bbox, zones[j].bbox);
          if !Pad(zones[i].bbox, HALF_PADDING).Disjoint(Pad(zones[j].bbox, HALF_PADDING)) {
            return true, i, j;
          }
          j := j + 1;
        }
        i := i + 1;
      }
    }

    /** One zone takes in the leaf. */
    method GrowZone(i: nat, node: Node)
      requires Owned(zones, members, multiset(inserted)) && i < |zones| && node.Valid()
      requires !FarApart(zones[i].bbox, node)
      modifies this`zones, this`members
      ensures zones == old(zones)[i := Grown(old(zones)[i], node)]
      ensures Owned(zones, members, multiset(inserted) + multiset{node})
    {
      GrowOwned(zones, members, multiset(inserted), i, node);
      members := members[i := members[i] + multiset{node}];
      zones := zones[i := Grown(zones[i], node)];
    }

    /** Grows the first zone near the leaf; a second zone near it is a conflict. */
    method GrowNearZone(node: Node) returns (wasInserted: bool, conflict: bool)
      requires Valid() && node.Valid()
      modifies this`zones, this`members
      ensures Owned(zones, members, Taken(inserted, node, wasInserted))
      ensures !conflict ==> AllApart(zones)
      ensures !wasInserted ==> !conflict && forall i :: 0 <= i < |zones| ==> FarApart(zones[i].bbox, node)
      ensures conflict ==> wasInserted && exists i, j :: 0 <= i < j < |zones| && !FarApart(zones[i].bbox, zones[j].bbox)
    {
      wasInserted, conflict := false, false;
      var i, at := 0, 0;
      ghost var before := zones;
      OwnedValid(zones, members, multiset(inserted));
      while i < |zones|
        invariant 0 <= i <= |zones|
        invariant Owned(zones, members, Taken(inserted, node, wasInserted))
        invariant Growing(before, zones, node, i, wasInserted, at)
      {
        GrowingValid(before, zones, node, i, wasInserted, at);
        PaddingsDisjoint(zones[i].bbox, node);
        if !Pad(zones[i].bbox, ZONE_MIN_PADDING).Disjoint(node.Addrs()) {
          if wasInserted {
            conflict := true;
            GrowingConflict(before, zones, node, i, at);
            return;
          }
          GrowZone(i, node);
          wasInserted, at := true, i;
        }
        i := i + 1;
      }
      if wasInserted {
        GrownApart(before, at, node);
      }
    }
  }

  function Grown(z: Zone, node: Node): Zone {
    Zone(z.bbox.Extend(node), z.leafCount + 1)
  }

  lemma {:induction false} OwnedValid(zs: seq<Zone>, members: seq<multiset<Node>>, all: multiset<Node>)
    requires Owned(zs, members, all)
    ensures ValidZones(zs)
  {
    forall i | 0 <= i < |zs| ensures zs[i].bbox.Valid() {
      assert Owns(zs[i], members[i]);
    }
  }

  /** Of the first `i` zones at most one is near the leaf, and that one has been grown. */
  ghost predicate Growing(before: seq<Zone>, zones: seq<Zone>, node: Node, i: nat, wasInserted: bool, at: nat) {
    && |zones| == |before| && i <= |zones| && ValidZones(before)
    && (if wasInserted then at < i && zones == before[at := Grown(before[at], node)] && !FarApart(before[at].bbox, node)
        else zones == before)
    && forall k :: 0 <= k < i && (wasInserted ==> k != at) ==> FarApart(before[k].bbox, node)
  }

  lemma {:induction false} GrowingValid(before: seq<Zone>, zones: seq<Zone>, node: Node, i: nat, wasInserted: bool,
                                        at: nat)
    requires Growing(before, zones, node, i, wasInserted, at) && i < |zones|
    ensures zones[i] == before[i] && zones[i].bbox.Valid()
  {
  }

  lemma {:induction false} GrowingConflict(before: seq<Zone>, zones: seq<Zone>, node: Node, i: nat, at: nat)
    requires Growing(before, zones, node, i, true, at) && i < |zones| && !FarApart(zones[i].bbox, node) && node.Valid()
    ensures at < i && !FarApart(zones[at].bbox, zones[i].bbox)
  {
    GrowingValid(before, zones, node, i, true, at);
    NearBoth(before[at].bbox, node, zones[i].bbox);
  }

  ghost function Merged(a: Zone, b: Zone): Zone {
    Zone(a.bbox.Extend(b.bbox), a.leafCount + b.leafCount)
  }

  lemma {:induction false} MergeTotals(members: seq<multiset<Node>>, all: multiset<Node>, i: nat, j: nat)
    requires Totals(members, all) && i < j < |members|
    ensures Totals(SwapRemove(members, j)[i := members[i] + members[j]], all)
  {
    forall n ensures Total(SwapRemove(members, j)[i := members[i] + members[j]], n) == all[n] {
      TotalSwapRemove(members, j, n);
      TotalUpdate(SwapRemove(members, j), i, members[i] + members[j], n);
    }
  }

  lemma {:induction false} MergeOwned(zs: seq<Zone>, members: seq<multiset<Node>>, all: multiset<Node>, i: nat, j: nat)
    requires Owned(zs, members, all) && i < j < |zs| && !FarApart(zs[i].bbox, zs[j].bbox)
    ensures Owned(SwapRemove(zs, j)[i := Merged(zs[i], zs[j])],
                  SwapRemove(members, j)[i := members[i] + members[j]], all)
  {
    MergeTotals(members, all, i, j);
    assert Owns(zs[i], members[i]) && Owns(zs[j], members[j]);
    OwnsMerged(zs[i], members[i], zs[j], members[j]);
    OwnsSwapRemove(zs, members, j);
    OwnsUpdate(SwapRemove(zs, j), SwapRemove(members, j), i, Merged(zs[i], zs[j]), members[i] + members[j]);
    assert OwnedBy(SwapRemove(zs, j)[i := Merged(zs[i], zs[j])],
                   SwapRemove(members, j)[i := members[i] + members[j]], all);
  }

  lemma {:induction false} NewOwned(zs: seq<Zone>, members: seq<multiset<Node>>, all: multiset<Node>, node: Node)
    requires Owned(zs, members, all) && node.Valid()
    ensures Owned(zs + [Zone(node, 1)], members + [multiset{node}], all + multiset{node})
  {
    OwnsOne(node);
    assert (members + [multiset{node}])[..|members|] == members;
    assert OwnedBy(zs + [Zone(node, 1)], members + [multiset{node}], all + multiset{node});
  }

  lemma {:induction false} GrowOwned(zs: seq<Zone>, members: seq<multiset<Node>>, all: multiset<Node>, i: nat,
                                     node: Node)
    requires Owned(zs, members, all) && i < |zs| && node.Valid() && !FarApart(zs[i].bbox, node)
    ensures Owned(zs[i := Grown(zs[i], node)],
                  members[i := members[i] + multiset{node}], all + multiset{node})
  {
    assert Owns(zs[i], members[i]);
    OwnsMore(zs[i], members[i], node);
    OwnsUpdate(zs, members, i, Grown(zs[i], node), members[i] + multiset{node});
    GrowTotals(members, all, i, node);
    assert OwnedBy(zs[i := Grown(zs[i], node)], members[i := members[i] + multiset{node}], all + multiset{node});
  }

  lemma {:induction false} GrowTotals(members: seq<multiset<Node>>, all: multiset<Node>, i: nat, node: Node)
    requires Totals(members, all) && i < |members|
    ensures Totals(members[i := members[i] + multiset{node}], all + multiset{node})
  {
    forall n ensures Total(members[i := members[i] + multiset{node}], n) == all[n] + multiset{node}[n] {
      TotalUpdate(members, i, members[i] + multiset{node}, n);
    }
  }

  /** Zones near the same leaf are near each other once one of them has taken it in. */
  lemma {:induction false} NearBoth(a: Node, node: Node, b: Node)
    requires a.Valid() && node.Valid() && b.Valid()
    requires !FarApart(a, node) && !FarApart(b, node)
    ensures !FarApart(a.Extend(node), b) && !FarApart(b, a.Extend(node))
  {
  }

  lemma {:induction false} GrownApart(zs: seq<Zone>, at: nat, node: Node)
    requires AllApart(zs) && ValidZones(zs) && node.Valid() && at < |zs| && !FarApart(zs[at].bbox, node)
    requires forall k :: 0 <= k < |zs| && k != at ==> FarApart(zs[k].bbox, node)
    ensures AllApart(zs[at := Zone(zs[at].bbox.Extend(node), zs[at].leafCount + 1)])
  {
    forall k | 0 <= k < |zs| && k != at
      ensures FarApart(zs[at].bbox.Extend(node), zs[k].bbox) && FarApart(zs[k].bbox, zs[at].bbox.Extend(node))
    {
      assert FarApart(zs[at].bbox, zs[k].bbox) by {
        if at < k {
          assert FarApart(zs[at].bbox, zs[k].bbox);
        } else {
          assert FarApart(zs[k].bbox, zs[at].bbox);
        }
      }
      FarFromHull(zs[at].bbox, node, zs[k].bbox);
    }
  }

  // ---- what the zones mean to the later passes ----

  /** The inserted leaves that lie inside a box. */
  ghost function Inside(ns: seq<Node>, box: Node): seq<Node> {
    if ns == [] then []
    else
      var last := ns[|ns| - 1];
      Inside(ns[..|ns| - 1], box) + if box.Contains(last) then [last] else []
  }

  lemma {:induction false} InsideCount(ns: seq<Node>, box: Node, n: Node)
    ensures multiset(Inside(ns, box))[n] == if box.Contains(n) then multiset(ns)[n] else 0
  {
    if ns != [] {
      InsideCount(ns[..|ns| - 1], box, n);
      assert ns == ns[..|ns| - 1] + [ns[|ns| - 1]];
    }
  }

  lemma {:induction false} TotalAtLeast(ms: seq<multiset<Node>>, i: nat, n: Node)
    requires i < |ms|
    ensures ms[i][n] <= Total(ms, n)
  {
    if i < |ms| - 1 {
      TotalAtLeast(ms[..|ms| - 1], i, n);
    }
  }

  lemma {:induction false} TotalOwner(ms: seq<multiset<Node>>, n: Node) returns (i: nat)
    requires Total(ms, n) > 0
    ensures i < |ms| && ms[i][n] > 0
  {
    if ms[|ms| - 1][n] > 0 {
      i := |ms| - 1;
    } else {
      i := TotalOwner(ms[..|ms| - 1], n);
    }
  }

  lemma {:induction false} TotalOnly(ms: seq<multiset<Node>>, i: nat, n: Node)
    requires i < |ms| && forall k :: 0 <= k < |ms| && k != i ==> ms[k][n] == 0
    ensures Total(ms, n) == ms[i][n]
  {
    if i < |ms| - 1 {
      TotalOnly(ms[..|ms| - 1], i, n);
    } else {
      TotalNone(ms[..|ms| - 1], n);
    }
  }

  lemma {:induction false} TotalNone(ms: seq<multiset<Node>>, n: Node)
    requires forall k :: 0 <= k < |ms| ==> ms[k][n] == 0
    ensures Total(ms, n) == 0
  {
    if ms != [] {
      TotalNone(ms[..|ms| - 1], n);
    }
  }

  lemma {:induction false} ContainedApart(a: Node, b: Node, n: Node)
    requires FarApart(a, b) && a.Contains(n) && n.Valid()
    ensures !b.Contains(n) && b.Addrs().Disjoint(n.Addrs())
  {
  }

  /** A leaf inside one zone lies outside all the others, address-wise. */
  lemma {:induction false} OutsideOthers(zs: seq<Zone>, i: nat, k: nat, n: Node)
    requires AllApart(zs) && i < |zs| && k < |zs| && k != i && zs[i].bbox.Contains(n) && n.Valid()
    ensures !zs[k].bbox.Contains(n) && zs[k].bbox.Addrs().Disjoint(n.Addrs())
  {
    assert FarApart(zs[i].bbox, zs[k].bbox) by {
      if i < k {
        assert FarApart(zs[i].bbox, zs[k].bbox);
      } else {
        assert FarApart(zs[k].bbox, zs[i].bbox);
      }
    }
    ContainedApart(zs[i].bbox, zs[k].bbox, n);
  }

  /** The leaf count of a zone is the number of inserted leaves inside its box. */
  lemma {:induction false} ZoneCount(zs: seq<Zone>, members: seq<multiset<Node>>, inserted: seq<Node>, i: nat)
    requires AllApart(zs) && Owned(zs, members, multiset(inserted)) && i < |zs|
    requires forall n :: n in inserted ==> n.Valid()
    ensures zs[i].leafCount == |Inside(inserted, zs[i].bbox)|
  {
    var inside := multiset(Inside(inserted, zs[i].bbox));
    assert Owns(zs[i], members[i]);
    forall n ensures inside[n] == members[i][n] {
      InsideCount(inserted, zs[i].bbox, n);
      if zs[i].bbox.Contains(n) && n in inserted {
        forall k | 0 <= k < |members| && k != i ensures members[k][n] == 0 {
          assert Owns(zs[k], members[k]);
          OutsideOthers(zs, i, k, n);
        }
        TotalOnly(members, i, n);
      } else {
        TotalAtLeast(members, i, n);
      }
    }
    assert inside == members[i];
  }

  /** The first zone, in order, whose address range meets `range`. */
  function FindZone(zs: seq<Zone>, range: AddrRange): (r: Option<nat>)
    ensures r.Some? ==> r.value < |zs| && !zs[r.value].bbox.Addrs().Disjoint(range)
    ensures r.Some? ==> forall k :: 0 <= k < r.value ==> zs[k].bbox.Addrs().Disjoint(range)
    ensures r.None? ==> forall k :: 0 <= k < |zs| ==> zs[k].bbox.Addrs().Disjoint(range)
  {
    FindZoneFrom(zs, range, 0)
  }

  function FindZoneFrom(zs: seq<Zone>, range: AddrRange, from: nat): (r: Option<nat>)
    requires from <= |zs|
    ensures r.Some? ==> from <= r.value < |zs| && !zs[r.value].bbox.Addrs().Disjoint(range)
    ensures r.Some? ==> forall k :: from <= k < r.value ==> zs[k].bbox.Addrs().Disjoint(range)
    ensures r.None? ==> forall k :: from <= k < |zs| ==> zs[k].bbox.Addrs().Disjoint(range)
    decreases |zs| - from
  {
    if from == |zs| then None
    else if !zs[from].bbox.Addrs().Disjoint(range) then Some(from)
    else FindZoneFrom(zs, range, from + 1)
  }

  /** Every leaf of the first pass is later routed to the one zone whose box contains it. */
  lemma {:induction false} RoutedHome(zs: seq<Zone>, members: seq<multiset<Node>>, inserted: seq<Node>, n: Node)
    requires AllApart(zs) && Owned(zs, members, multiset(inserted)) && n in inserted && n.Valid()
    ensures FindZone(zs, n.Addrs()).Some?
    ensures forall i :: 0 <= i < |zs| ==> (zs[i].bbox.Contains(n) <==> FindZone(zs, n.Addrs()) == Some(i))
  {
    assert multiset(inserted)[n] > 0;
    var home := TotalOwner(members, n);
    assert Owns(zs[home], members[home]);
    forall k | 0 <= k < |zs| && k != home
      ensures !zs[k].bbox.Contains(n) && zs[k].bbox.Addrs().Disjoint(n.Addrs())
    {
      OutsideOthers(zs, home, k, n);
    }
  }

  // ---- the zones are the clusters of the leaves, whatever the order of insertion ----

  /** Zones that are apart, tight, and hold exactly these leaves. */
  ghost predicate Clusters(zs: seq<Zone>, members: seq<multiset<Node>>, inserted: seq<Node>) {
    AllApart(zs) && Owned(zs, members, multiset(inserted)) && forall n :: n in inserted ==> n.Valid()
  }

  lemma {:induction false} HomeOf(zs: seq<Zone>, members: seq<multiset<Node>>, inserted: seq<Node>, n: Node)
    returns (i: nat)
    requires Clusters(zs, members, inserted) && n in inserted
    ensures i < |zs| && n in members[i] && Owns(zs[i], members[i]) && zs[i].bbox.Contains(n)
  {
    assert multiset(inserted)[n] > 0;
    i := TotalOwner(members, n);
  }

  lemma {:induction false} MemberInserted(zs: seq<Zone>, members: seq<multiset<Node>>, inserted: seq<Node>, i: nat,
                                          n: Node)
    requires Clusters(zs, members, inserted) && i < |members| && n in members[i]
    ensures n in inserted && n.Valid()
  {
    TotalAtLeast(members, i, n);
    assert n in multiset(inserted);
  }

  lemma {:induction false} FarEither(zs: seq<Zone>, i: nat, j: nat)
    requires AllApart(zs) && i < |zs| && j < |zs| && i != j
    ensures FarApart(zs[i].bbox, zs[j].bbox)
  {
    assert i < j ==> FarApart(zs[i].bbox, zs[j].bbox);
    assert j < i ==> FarApart(zs[j].bbox, zs[i].bbox);
  }

  /** The leaf with the least address of a zone lies in a zone of the other list that reaches at least as far. */
  lemma {:induction false} ReachesAsFar(zs: seq<Zone>, members: seq<multiset<Node>>, xs: seq<Node>, ws: seq<Zone>,
                                        owners: seq<multiset<Node>>, ys: seq<Node>, i: nat)
    returns (j: nat)
    requires Clusters(zs, members, xs) && Clusters(ws, owners, ys) && multiset(xs) == multiset(ys) && i < |zs|
    ensures j < |ws| && ws[j].bbox.addrMin <= zs[i].bbox.addrMin && zs[i].bbox.addrMax <= ws[j].bbox.addrMax
  {
    assert Owns(zs[i], members[i]);
    var low :| low in members[i] && low.addrMin == zs[i].bbox.addrMin;
    MemberInserted(zs, members, xs, i, low);
    assert low in multiset(xs) && low in multiset(ys);
    j := HomeOf(ws, owners, ys, low);
    if ws[j].bbox.addrMax < zs[i].bbox.addrMax {
      var y := ws[j].bbox.addrMax as int;
      assert BridgedAt(members[i], y);
      var n :| n in members[i] && Bridge(n, y);
      NoBridge(zs, members, xs, ws, owners, ys, i, j, n);
      assert false;
    }
  }

  /** No leaf bridges the gap behind a zone. */
  lemma {:induction false} NoBridge(zs: seq<Zone>, members: seq<multiset<Node>>, xs: seq<Node>, ws: seq<Zone>,
                                    owners: seq<multiset<Node>>, ys: seq<Node>, i: nat, j: nat, n: Node)
    requires Clusters(zs, members, xs) && Clusters(ws, owners, ys) && multiset(xs) == multiset(ys)
    requires i < |zs| && j < |ws| && n in members[i] && ws[j].bbox.Valid()
    ensures !Bridge(n, ws[j].bbox.addrMax as int)
  {
    MemberInserted(zs, members, xs, i, n);
    assert n in multiset(xs) && n in multiset(ys);
    var k := HomeOf(ws, owners, ys, n);
    if k != j {
      FarEither(ws, j, k);
    }
  }

  lemma {:induction false} SameAddresses(zs: seq<Zone>, members: seq<multiset<Node>>, xs: seq<Node>, ws: seq<Zone>,
                                         owners: seq<multiset<Node>>, ys: seq<Node>, i: nat)
    returns (j: nat)
    requires Clusters(zs, members, xs) && Clusters(ws, owners, ys) && multiset(xs) == multiset(ys) && i < |zs|
    ensures j < |ws| && ws[j].bbox.Addrs() == zs[i].bbox.Addrs()
  {
    j := ReachesAsFar(zs, members, xs, ws, owners, ys, i);
    var k := ReachesAsFar(ws, owners, ys, zs, members, xs, j);
    assert Owns(zs[i], members[i]) && Owns(zs[k], members[k]);
    if k != i {
      FarEither(zs, i, k);
    }
  }

  /** A leaf with addresses of a zone belongs to it. */
  lemma {:induction false} HomeByAddress(ws: seq<Zone>, owners: seq<multiset<Node>>, ys: seq<Node>, j: nat, n: Node)
    requires Clusters(ws, owners, ys) && j < |ws| && n in ys
    requires ws[j].bbox.addrMin <= n.addrMin && n.addrMax <= ws[j].bbox.addrMax
    ensures ws[j].bbox.Contains(n)
  {
    var k := HomeOf(ws, owners, ys, n);
    assert Owns(ws[j], owners[j]);
    if k != j {
      FarEither(ws, j, k);
    }
  }

  lemma {:induction false} TimesWithin(zs: seq<Zone>, members: seq<multiset<Node>>, xs: seq<Node>, ws: seq<Zone>,
                                       owners: seq<multiset<Node>>, ys: seq<Node>, i: nat, j: nat)
    requires Clusters(zs, members, xs) && Clusters(ws, owners, ys) && multiset(xs) == multiset(ys)
    requires i < |zs| && j < |ws| && ws[j].bbox.Addrs() == zs[i].bbox.Addrs()
    ensures ws[j].bbox.timeMin <= zs[i].bbox.timeMin && zs[i].bbox.timeMax <= ws[j].bbox.timeMax
  {
    assert Owns(zs[i], members[i]);
    var first :| first in members[i] && first.timeMin == zs[i].bbox.timeMin;
    var last :| last in members[i] && last.timeMax == zs[i].bbox.timeMax;
    MemberInserted(zs, members, xs, i, first);
    MemberInserted(zs, members, xs, i, last);
    assert first in multiset(xs) && last in multiset(xs) && first in multiset(ys) && last in multiset(ys);
    HomeByAddress(ws, owners, ys, j, first);
    HomeByAddress(ws, owners, ys, j, last);
  }

  lemma {:induction false} SameInside(xs: seq<Node>, ys: seq<Node>, box: Node)
    requires multiset(xs) == multiset(ys)
    ensures |Inside(xs, box)| == |Inside(ys, box)|
  {
    forall n ensures multiset(Inside(xs, box))[n] == multiset(Inside(ys, box))[n] {
      InsideCount(xs, box, n);
      InsideCount(ys, box, n);
    }
    assert multiset(Inside(xs, box)) == multiset(Inside(ys, box));
    assert |multiset(Inside(xs, box))| == |Inside(xs, box)| && |multiset(Inside(ys, box))| == |Inside(ys, box)|;
  }

  /** The same leaves give the same zones in whatever order they are inserted: no box is larger than its leaves need,
      and no two groups of leaves share a zone unless leaves no further apart than the padding connect them. */
  lemma {:induction false} ZonesOfLeaves(zs: seq<Zone>, members: seq<multiset<Node>>, xs: seq<Node>, ws: seq<Zone>,
                                         owners: seq<multiset<Node>>, ys: seq<Node>, z: Zone)
    requires Clusters(zs, members, xs) && Clusters(ws, owners, ys) && multiset(xs) == multiset(ys)
    ensures z in zs <==> z in ws
  {
    if z in zs {
      SameZoneThere(zs, members, xs, ws, owners, ys, z);
    }
    if z in ws {
      SameZoneThere(ws, owners, ys, zs, members, xs, z);
    }
  }

  lemma {:induction false} SameZoneThere(zs: seq<Zone>, members: seq<multiset<Node>>, xs: seq<Node>, ws: seq<Zone>,
                                         owners: seq<multiset<Node>>, ys: seq<Node>, z: Zone)
    requires Clusters(zs, members, xs) && Clusters(ws, owners, ys) && multiset(xs) == multiset(ys) && z in zs
    ensures z in ws
  {
    var i :| 0 <= i < |zs| && zs[i] == z;
    var j := SameAddresses(zs, members, xs, ws, owners, ys, i);
    TimesWithin(zs, members, xs, ws, owners, ys, i, j);
    TimesWithin(ws, owners, ys, zs, members, xs, j, i);
    ZoneCount(zs, members, xs, i);
    ZoneCount(ws, owners, ys, j);
    SameInside(xs, ys, z.bbox);
    assert ws[j] == z;
  }
}
