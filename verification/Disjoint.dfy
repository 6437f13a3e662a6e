/** The sweep that turns time-ordered memory accesses into disjoint (address x time) leaves. */
module Disjoint {
  import opened Ranges
  import opened Payload
  import opened OrderedKeys

  /** A closed leaf, as handed to the index. */
  datatype Leaf = Leaf(node: Node, data: Data)

  /** A leaf still open at its time end. */
  datatype Temp = Temp(timeMin: Time, addrMin: Addr, addrMax: Addr, bytes: seq<Byte>, data: Data) {
    predicate Valid() {
      addrMin <= addrMax && |bytes| == addrMax as int - addrMin as int + 1 && Carries(data, bytes)
    }

    predicate HasAddr(x: Addr) {
      addrMin <= x <= addrMax
    }

    function ByteAt(x: Addr): Byte
      requires Valid() && HasAddr(x)
    {
      bytes[x as int - addrMin as int]
    }

    function Rect(timeMax: Time): Node {
      Node(addrMin, addrMax, timeMin, timeMax)
    }

    function Complete(timeMax: Time): Leaf {
      Leaf(Rect(timeMax), data)
    }

    /** Restricts the leaf to the addresses of `box`, from the start of `box`. */
    function Mask(box: Node): Temp
      requires Valid() && addrMin <= box.addrMin <= box.addrMax <= addrMax
    {
      var left := (box.addrMin - addrMin) as nat;
      var right := (addrMax - box.addrMax) as nat;
      Temp(box.timeMin, box.addrMin, box.addrMax, bytes[left..|bytes| - right], Cut(data, left, right))
    }

    lemma {:induction false} MaskIs(box: Node)
      requires Valid() && addrMin <= box.addrMin <= box.addrMax <= addrMax
      ensures Mask(box).Valid() && Mask(box).Rect(box.timeMax) == box
      ensures forall x :: Mask(box).HasAddr(x) ==> HasAddr(x) && Mask(box).ByteAt(x) == ByteAt(x)
    {
      CutCarries(data, bytes, (box.addrMin - addrMin) as nat, (addrMax - box.addrMax) as nat);
    }
  }

  type Temps = map<Addr, Temp>

  /** Keyed by start address, with pairwise disjoint address ranges. */
  ghost predicate GoodMap(m: Temps) {
    && (forall k :: k in m ==> m[k].Valid() && m[k].addrMin == k)
    && (forall j, k :: j in m && k in m && j < k ==> m[j].addrMax < k)
  }

  predicate Touches(e: Temp, w: Temp) {
    e.addrMin <= w.addrMax && w.addrMin <= e.addrMax
  }

  /** What the open leaves say about one address: since when it holds which byte. */
  ghost function Seen(m: Temps, x: Addr): Option<(Time, Byte)>
    requires GoodMap(m)
  {
    if exists k :: k in m && m[k].HasAddr(x) then
      var k :| k in m && m[k].HasAddr(x);
      Some((m[k].timeMin, m[k].ByteAt(x)))
    else None
  }

  lemma {:induction false} SeenIs(m: Temps, k: Addr, x: Addr)
    requires GoodMap(m) && k in m && m[k].HasAddr(x)
    ensures Seen(m, x) == Some((m[k].timeMin, m[k].ByteAt(x)))
  {
    assert forall j :: j in m && m[j].HasAddr(x) ==> j == k;
  }

  // ---- the open leaves after a write ----

  function LeftOf(e: Temp, w: Temp): Temp
    requires e.Valid() && e.addrMin < w.addrMin <= e.addrMax
  {
    e.Mask(Node(e.addrMin, w.addrMin - 1, e.timeMin, TIME_MAX))
  }

  function RightOf(e: Temp, w: Temp): Temp
    requires e.Valid() && e.addrMin <= w.addrMax < e.addrMax
  {
    e.Mask(Node(w.addrMax + 1, e.addrMax, e.timeMin, TIME_MAX))
  }

  lemma {:induction false} LeftIs(e: Temp, w: Temp)
    requires e.Valid() && w.Valid() && e.addrMin < w.addrMin <= e.addrMax
    ensures PieceOf(LeftOf(e, w), e, w)
    ensures LeftOf(e, w).addrMin == e.addrMin && LeftOf(e, w).addrMax == w.addrMin - 1
  {
    e.MaskIs(Node(e.addrMin, w.addrMin - 1, e.timeMin, TIME_MAX));
  }

  lemma {:induction false} RightIs(e: Temp, w: Temp)
    requires e.Valid() && w.Valid() && e.addrMin <= w.addrMax < e.addrMax
    ensures PieceOf(RightOf(e, w), e, w)
    ensures RightOf(e, w).addrMin == w.addrMax + 1 && RightOf(e, w).addrMax == e.addrMax
  {
    e.MaskIs(Node(w.addrMax + 1, e.addrMax, e.timeMin, TIME_MAX));
  }

  ghost predicate Leftover(m: Temps, w: Temp, k: Addr) {
    k in m && k < w.addrMin <= m[k].addrMax
  }

  ghost predicate Rightover(m: Temps, w: Temp, k: Addr) {
    k in m && k <= w.addrMax < m[k].addrMax && w.addrMin <= m[k].addrMax
  }

  ghost function Untouched(m: Temps, w: Temp): Temps {
    map k | k in m && !Touches(m[k], w) :: m[k]
  }

  ghost function Lefts(m: Temps, w: Temp): Temps
    requires GoodMap(m)
  {
    map k | k in m && Leftover(m, w, k) :: LeftOf(m[k], w)
  }

  ghost function Rights(m: Temps, w: Temp): Temps
    requires GoodMap(m)
  {
    map k | k in m && Rightover(m, w, k) :: (w.addrMax + 1) := RightOf(m[k], w)
  }

  /** The open leaves once `w` has been written over them. */
  ghost function Overlay(m: Temps, w: Temp): Temps
    requires GoodMap(m)
  {
    (Untouched(m, w) + Lefts(m, w) + Rights(m, w))[w.addrMin := w]
  }

  /** `p` is the piece of the open leaf `e` outside the written range. */
  ghost predicate PieceOf(p: Temp, e: Temp, w: Temp)
    requires e.Valid()
  {
    && p.Valid() && p.timeMin == e.timeMin && !Touches(p, w)
    && e.addrMin <= p.addrMin && p.addrMax <= e.addrMax
    && forall x :: p.HasAddr(x) ==> p.ByteAt(x) == e.ByteAt(x)
  }

  /** Every open leaf after a write is the write itself or a piece of an older leaf. */
  lemma {:induction false} OverlayEntry(m: Temps, w: Temp, k: Addr) returns (j: Addr)
    requires GoodMap(m) && w.Valid() && k in Overlay(m, w) && k != w.addrMin
    ensures j in m && PieceOf(Overlay(m, w)[k], m[j], w) && Overlay(m, w)[k].addrMin == k
    ensures j == k || (k as int == w.addrMax as int + 1 && j <= w.addrMax)
  {
    if k in Rights(m, w) {
      j := RightsEntry(m, w, k);
      RightIs(m[j], w);
    } else {
      j := k;
      if Touches(m[k], w) {
        LeftIs(m[k], w);
      }
    }
  }

  lemma {:induction false} RightoverUnique(m: Temps, w: Temp, i: Addr, j: Addr)
    requires GoodMap(m) && Rightover(m, w, i) && Rightover(m, w, j)
    ensures i == j
  {
  }

  lemma {:induction false} RightsHas(m: Temps, w: Temp, j: Addr)
    requires GoodMap(m) && Rightover(m, w, j)
    ensures (w.addrMax + 1) in Rights(m, w) && Rights(m, w)[w.addrMax + 1] == RightOf(m[j], w)
  {
    var k := w.addrMax + 1;
    assert k in Rights(m, w);
    var i :| Rightover(m, w, i) && Rights(m, w)[k] == RightOf(m[i], w);
    RightoverUnique(m, w, i, j);
  }

  lemma {:induction false} RightsEntry(m: Temps, w: Temp, k: Addr) returns (j: Addr)
    requires GoodMap(m) && w.Valid() && k in Rights(m, w)
    ensures Rightover(m, w, j) && k as int == w.addrMax as int + 1
    ensures Rights(m, w)[k] == RightOf(m[j], w)
  {
    var i :| Rightover(m, w, i) && k == w.addrMax + 1 && Rights(m, w)[k] == RightOf(m[i], w);
    j := i;
  }

  lemma {:induction false} OverlayGood(m: Temps, w: Temp)
    requires GoodMap(m) && w.Valid()
    ensures GoodMap(Overlay(m, w))
  {
    var after := Overlay(m, w);
    forall k | k in after ensures after[k].Valid() && after[k].addrMin == k {
      if k != w.addrMin {
        var j := OverlayEntry(m, w, k);
      }
    }
    forall j, k | j in after && k in after && j < k ensures after[j].addrMax < k {
      OverlayOrder(m, w, j, k);
    }
  }

  lemma {:induction false} OverlayOrder(m: Temps, w: Temp, j: Addr, k: Addr)
    requires GoodMap(m) && w.Valid() && j in Overlay(m, w) && k in Overlay(m, w) && j < k
    ensures Overlay(m, w)[j].addrMax < k
  {
    if j == w.addrMin {
      var i := OverlayEntry(m, w, k);
    } else if k == w.addrMin {
      var i := OverlayEntry(m, w, j);
    } else {
      var a := OverlayEntry(m, w, j);
      var b := OverlayEntry(m, w, k);
    }
  }

  lemma {:induction false} OverlayLeft(m: Temps, w: Temp, j: Addr)
    requires GoodMap(m) && w.Valid() && Leftover(m, w, j)
    ensures j in Overlay(m, w) && Overlay(m, w)[j] == LeftOf(m[j], w)
  {
    assert j !in Rights(m, w);
  }

  lemma {:induction false} OverlayRight(m: Temps, w: Temp, j: Addr)
    requires GoodMap(m) && w.Valid() && Rightover(m, w, j)
    ensures (w.addrMax + 1) in Overlay(m, w) && Overlay(m, w)[w.addrMax + 1] == RightOf(m[j], w)
  {
    RightsHas(m, w, j);
  }

  lemma {:induction false} OverlayUntouched(m: Temps, w: Temp, j: Addr)
    requires GoodMap(m) && w.Valid() && j in m && !Touches(m[j], w)
    ensures j in Overlay(m, w) && Overlay(m, w)[j] == m[j]
  {
    assert j !in Rights(m, w);
  }

  /** Where the piece of an older leaf that still holds `x` is found. */
  lemma {:induction false} OverlayKeeps(m: Temps, w: Temp, j: Addr, x: Addr) returns (k: Addr)
    requires GoodMap(m) && w.Valid() && j in m && m[j].HasAddr(x) && !w.HasAddr(x)
    ensures k in Overlay(m, w) && Overlay(m, w)[k].HasAddr(x) && PieceOf(Overlay(m, w)[k], m[j], w)
  {
    if !Touches(m[j], w) {
      OverlayUntouched(m, w, j);
      k := j;
    } else if x < w.addrMin {
      OverlayLeft(m, w, j);
      LeftIs(m[j], w);
      k := j;
    } else {
      OverlayRight(m, w, j);
      RightIs(m[j], w);
      k := w.addrMax + 1;
    }
  }

  /** A write changes what is seen inside its range and nothing else. */
  lemma {:induction false} OverlaySeen(m: Temps, w: Temp, x: Addr)
    requires GoodMap(m) && w.Valid()
    ensures GoodMap(Overlay(m, w))
    ensures Seen(Overlay(m, w), x) == if w.HasAddr(x) then Some((w.timeMin, w.ByteAt(x))) else Seen(m, x)
  {
    OverlayGood(m, w);
    var after := Overlay(m, w);
    if w.HasAddr(x) {
      SeenIs(after, w.addrMin, x);
    } else if j :| j in m && m[j].HasAddr(x) {
      var k := OverlayKeeps(m, w, j, x);
      SeenIs(after, k, x);
      SeenIs(m, j, x);
    } else {
      forall k | k in after ensures !after[k].HasAddr(x) {
        if k != w.addrMin {
          var j := OverlayEntry(m, w, k);
        }
      }
    }
  }

  // ---- the leaves closed by a write ----

  /** The addresses under the write, up to the instant before it. */
  function Overlap(e: Temp, w: Temp): Node
    requires e.timeMin < w.timeMin
  {
    Node(MaxAddr(w.addrMin, e.addrMin), MinAddr(w.addrMax, e.addrMax), e.timeMin, w.timeMin - 1)
  }

  /** The part of `e` closed by the write; nothing when both have the same time. */
  function ClosedBy(e: Temp, w: Temp): seq<Leaf>
    requires e.Valid() && w.Valid() && Touches(e, w)
  {
    if e.timeMin < w.timeMin then [e.Mask(Overlap(e, w)).Complete(w.timeMin - 1)] else []
  }

  ghost predicate TouchedKeys(m: Temps, ks: seq<Addr>, w: Temp) {
    && Ascending(ks)
    && forall k :: k in ks ==> k in m && Touches(m[k], w)
  }

  function ClosedAll(m: Temps, ks: seq<Addr>, w: Temp): seq<Leaf>
    requires GoodMap(m) && w.Valid() && TouchedKeys(m, ks, w)
  {
    if ks == [] then []
    else ClosedAll(m, ks[..|ks| - 1], w) + ClosedBy(m[ks[|ks| - 1]], w)
  }

  /** A leaf closed by the write `w`: what was seen at `x` from its start until the instant before `w`. */
  ghost predicate ClosedLeaf(m: Temps, w: Temp, leaf: Leaf)
    requires GoodMap(m) && w.Valid()
  {
    && leaf.node.Valid() && WellSized(leaf)
    && leaf.node.timeMax as int + 1 == w.timeMin as int
    && forall x :: leaf.node.HasAddr(x) ==>
         && w.HasAddr(x) && Seen(m, x).Some? && Seen(m, x).value.0 == leaf.node.timeMin
         && (leaf.data.NoData? || LeafByte(leaf, x) == Seen(m, x).value.1)
  }

  /** The bytes a payload stands for. */
  function Content(data: Data): seq<Byte>
    requires data.Inline? ==> data.len <= |data.bytes|
  {
    match data
    case NoData => []
    case Inline(len, buf) => buf[..len]
    case Outline(_, slice) => slice
  }

  predicate WellSized(leaf: Leaf) {
    && (leaf.data.Inline? ==> leaf.data.len <= |leaf.data.bytes|)
    && (!leaf.data.NoData? ==>
          Carries(leaf.data, Content(leaf.data))
          && |Content(leaf.data)| == leaf.node.addrMax as int - leaf.node.addrMin as int + 1)
  }

  function LeafByte(leaf: Leaf, x: Addr): Byte
    requires leaf.node.HasAddr(x) && WellSized(leaf) && !leaf.data.NoData?
  {
    Content(leaf.data)[x as int - leaf.node.addrMin as int]
  }

  lemma {:induction false} ClosedByIs(m: Temps, k: Addr, w: Temp)
    requires GoodMap(m) && w.Valid() && k in m && Touches(m[k], w) && m[k].timeMin < w.timeMin
    ensures var leaf := ClosedBy(m[k], w)[0];
      && ClosedLeaf(m, w, leaf)
      && forall x :: leaf.node.HasAddr(x) <==> w.HasAddr(x) && m[k].HasAddr(x)
  {
    var leaf := ClosedBy(m[k], w)[0];
    m[k].MaskIs(Overlap(m[k], w));
    var part := m[k].Mask(Overlap(m[k], w));
    assert leaf == part.Complete(w.timeMin - 1);
    forall x | leaf.node.HasAddr(x)
      ensures w.HasAddr(x) && Seen(m, x) == Some((leaf.node.timeMin, part.ByteAt(x)))
    {
      SeenIs(m, k, x);
    }
  }

  /** Every leaf closed by a write is as it should be, and they come in address order. */
  lemma {:induction false} ClosedAllSound(m: Temps, ks: seq<Addr>, w: Temp)
    requires GoodMap(m) && w.Valid() && TouchedKeys(m, ks, w)
    ensures forall leaf :: leaf in ClosedAll(m, ks, w) ==>
              ClosedLeaf(m, w, leaf) && leaf.node.addrMax <= m[ks[|ks| - 1]].addrMax
    ensures AddressOrdered(ClosedAll(m, ks, w))
  {
    if ks != [] {
      var n := |ks| - 1;
      ClosedAllSound(m, ks[..n], w);
      if m[ks[n]].timeMin < w.timeMin {
        ClosedByIs(m, ks[n], w);
      }
      assert n > 0 ==> ks[n - 1] < ks[n];
    }
  }

  ghost predicate AddressOrdered(ls: seq<Leaf>) {
    forall i, j :: 0 <= i < j < |ls| ==> ls[i].node.addrMax < ls[j].node.addrMin
  }

  ghost predicate LeafAt(ls: seq<Leaf>, x: Addr) {
    exists leaf :: leaf in ls && leaf.node.HasAddr(x)
  }

  lemma {:induction false} ClosedAllComplete(m: Temps, ks: seq<Addr>, w: Temp, x: Addr)
    requires GoodMap(m) && w.Valid() && TouchedKeys(m, ks, w)
    requires w.HasAddr(x)
    ensures LeafAt(ClosedAll(m, ks, w), x)
       <==> exists k :: k in ks && m[k].HasAddr(x) && m[k].timeMin < w.timeMin
  {
    if ks != [] {
      var n := |ks| - 1;
      var before, last := ClosedAll(m, ks[..n], w), ClosedBy(m[ks[n]], w);
      ClosedAllComplete(m, ks[..n], w, x);
      assert LeafAt(before + last, x) <==> LeafAt(before, x) || LeafAt(last, x);
      if m[ks[n]].timeMin < w.timeMin {
        ClosedByIs(m, ks[n], w);
        assert last[0] in last;
      }
      assert forall k :: k in ks <==> k in ks[..n] || k == ks[n];
    }
  }

  // ---- the access history, and what it says the memory holds ----

  datatype Access = Access(time: Time, addr: Addr, bytes: seq<Byte>, canDedup: bool) {
    predicate Valid() {
      bytes != [] && addr as int + |bytes| - 1 <= ADDR_MAX as int
    }

    predicate HasAddr(x: Addr) {
      addr <= x && (x - addr) as int < |bytes|
    }

    function ByteAt(x: Addr): Byte
      requires HasAddr(x)
    {
      bytes[(x - addr) as int]
    }

    function Open(data: Data): Temp
      requires Valid() && Carries(data, bytes)
      ensures Open(data).Valid()
      ensures forall x :: Open(data).HasAddr(x) <==> HasAddr(x)
      ensures forall x :: HasAddr(x) ==> Open(data).ByteAt(x) == ByteAt(x)
    {
      Temp(time, addr, (addr as int + |bytes| - 1) as Addr, bytes, data)
    }
  }

  /** The byte last accessed at `x` at or before `t`. */
  ghost function LastByte(h: seq<Access>, x: Addr, t: Time): Option<Byte> {
    if h == [] then None
    else
      var a := h[|h| - 1];
      if a.time <= t && a.HasAddr(x) then Some(a.ByteAt(x)) else LastByte(h[..|h| - 1], x, t)
  }

  /** The access repeats what the memory already holds, byte for byte. */
  ghost predicate Redundant(h: seq<Access>, a: Access) {
    forall x :: a.HasAddr(x) ==> LastByte(h, x, a.time) == Some(a.ByteAt(x))
  }

  /** An access that is not dropped as a duplicate touched `x` at time `t`. */
  ghost predicate WrittenAt(h: seq<Access>, x: Addr, t: Time) {
    h != [] &&
    var a := h[|h| - 1];
    var before := h[..|h| - 1];
    (a.time == t && a.HasAddr(x) && !(a.canDedup && Redundant(before, a))) || WrittenAt(before, x, t)
  }

  ghost predicate TimeOrdered(h: seq<Access>, now: Time) {
    && (forall i :: 0 <= i < |h| ==> h[i].Valid() && h[i].time <= now)
    && (forall i, j :: 0 <= i < j < |h| ==> h[i].time <= h[j].time)
  }

  // ---- invariant of the sweep ----

  ghost predicate SeenSince(m: Temps, x: Addr, t: Time)
    requires GoodMap(m)
  {
    Seen(m, x).Some? && Seen(m, x).value.0 <= t
  }

  /** From its start on, an open leaf holds the last byte written. */
  ghost predicate OpenExact(h: seq<Access>, m: Temps)
    requires GoodMap(m)
  {
    forall x, t :: SeenSince(m, x, t) ==> LastByte(h, x, t) == Some(Seen(m, x).value.1)
  }

  ghost predicate LeafExact(h: seq<Access>, leaf: Leaf) {
    && leaf.node.Valid() && WellSized(leaf)
    && forall x, t :: leaf.node.Covers(x, t) ==>
         LastByte(h, x, t).Some? && (leaf.data.NoData? || LastByte(h, x, t) == Some(LeafByte(leaf, x)))
  }

  ghost predicate LeavesExact(h: seq<Access>, ls: seq<Leaf>) {
    forall i :: 0 <= i < |ls| ==> LeafExact(h, ls[i])
  }

  /** Closed leaves are past: each ended before the open leaf at its addresses began. */
  ghost predicate LeavesPast(m: Temps, ls: seq<Leaf>)
    requires GoodMap(m)
  {
    forall i, x :: 0 <= i < |ls| && ls[i].node.HasAddr(x) ==>
      Seen(m, x).Some? && ls[i].node.timeMax < Seen(m, x).value.0
  }

  ghost predicate LeavesApart(ls: seq<Leaf>) {
    forall i, j :: 0 <= i < j < |ls| ==> ls[i].node.Disjoint(ls[j].node)
  }

  ghost predicate ClosedCovers(ls: seq<Leaf>, x: Addr, t: Time) {
    exists i :: 0 <= i < |ls| && ls[i].node.Covers(x, t)
  }

  ghost predicate ClosedStarts(ls: seq<Leaf>, x: Addr, t: Time) {
    exists i :: 0 <= i < |ls| && ls[i].node.HasAddr(x) && ls[i].node.timeMin == t
  }

  ghost predicate Complete(h: seq<Access>, m: Temps, ls: seq<Leaf>)
    requires GoodMap(m)
  {
    forall x, t :: LastByte(h, x, t).Some? ==> ClosedCovers(ls, x, t) || SeenSince(m, x, t)
  }

  /** Leaf starts are exactly the times of the accesses that were not dropped. */
  ghost predicate StartsExact(h: seq<Access>, m: Temps, ls: seq<Leaf>)
    requires GoodMap(m)
  {
    forall x, t :: WrittenAt(h, x, t) <==>
      ClosedStarts(ls, x, t) || (Seen(m, x).Some? && Seen(m, x).value.0 == t)
  }

  ghost predicate NotAfter(m: Temps, now: Time)
    requires GoodMap(m)
  {
    forall x :: Seen(m, x).Some? ==> Seen(m, x).value.0 <= now
  }

  ghost predicate Sweep(h: seq<Access>, now: Time, m: Temps, ls: seq<Leaf>) {
    && TimeOrdered(h, now) && GoodMap(m) && NotAfter(m, now)
    && OpenExact(h, m) && LeavesExact(h, ls)
    && LeavesPast(m, ls) && LeavesApart(ls)
    && Complete(h, m, ls) && StartsExact(h, m, ls)
  }

  // ---- one access ----

  ghost predicate IsDuplicate(m: Temps, a: Access)
    requires GoodMap(m)
  {
    forall x :: a.HasAddr(x) ==> Seen(m, x).Some? && Seen(m, x).value.1 == a.ByteAt(x)
  }

  ghost function TouchedBy(m: Temps, w: Temp): set<Addr> {
    set k | k in m && Touches(m[k], w)
  }

  /** The leaves closed by writing `w`, in address order. */
  ghost function WriteOut(m: Temps, w: Temp): seq<Leaf>
    requires GoodMap(m) && w.Valid()
  {
    ClosedAll(m, SortedKeys(TouchedBy(m, w)), w)
  }

  ghost function Step(m: Temps, a: Access, data: Data): (Temps, seq<Leaf>)
    requires GoodMap(m) && a.Valid() && Carries(data, a.bytes)
  {
    if a.canDedup && IsDuplicate(m, a) then (m, [])
    else
      var w := a.Open(data);
      (Overlay(m, w), WriteOut(m, w))
  }

  /** Open leaves know the whole memory at the current time. */
  lemma {:induction false} SeenIsLast(h: seq<Access>, now: Time, m: Temps, ls: seq<Leaf>, x: Addr, t: Time)
    requires Sweep(h, now, m, ls) && now <= t
    ensures LastByte(h, x, t) == if Seen(m, x).Some? then Some(Seen(m, x).value.1) else None
  {
    if Seen(m, x).Some? {
      assert SeenSince(m, x, t);
    } else {
      assert !ClosedCovers(ls, x, t);
    }
  }

  lemma {:induction false} DuplicateIsRedundant(h: seq<Access>, now: Time, m: Temps, ls: seq<Leaf>, a: Access)
    requires Sweep(h, now, m, ls) && now <= a.time
    ensures IsDuplicate(m, a) <==> Redundant(h, a)
  {
    forall x | a.HasAddr(x)
      ensures Seen(m, x).Some? && Seen(m, x).value.1 == a.ByteAt(x) <==> LastByte(h, x, a.time) == Some(a.ByteAt(x))
    {
      SeenIsLast(h, now, m, ls, x, a.time);
    }
  }

  lemma {:induction false} LastByteAfter(h: seq<Access>, a: Access, x: Addr, t: Time)
    ensures LastByte(h + [a], x, t) == if a.time <= t && a.HasAddr(x) then Some(a.ByteAt(x)) else LastByte(h, x, t)
    ensures WrittenAt(h + [a], x, t)
       <==> (a.time == t && a.HasAddr(x) && !(a.canDedup && Redundant(h, a))) || WrittenAt(h, x, t)
  {
    assert (h + [a])[..|h|] == h;
  }

  lemma {:induction false} TimeOrderedAfter(h: seq<Access>, now: Time, a: Access)
    requires TimeOrdered(h, now) && a.Valid() && now <= a.time
    ensures TimeOrdered(h + [a], a.time)
  {
  }

  /** Dropping a duplicate loses nothing. */
  lemma {:induction false} SweepDuplicate(h: seq<Access>, now: Time, m: Temps, ls: seq<Leaf>, a: Access)
    requires Sweep(h, now, m, ls) && a.Valid() && now <= a.time
    requires a.canDedup && IsDuplicate(m, a)
    ensures Sweep(h + [a], a.time, m, ls)
  {
    TimeOrderedAfter(h, now, a);
    DuplicateIsRedundant(h, now, m, ls, a);
    forall x, t
      ensures LastByte(h + [a], x, t) == LastByte(h, x, t)
      ensures WrittenAt(h + [a], x, t) == WrittenAt(h, x, t)
    {
      LastByteAfter(h, a, x, t);
      if a.time <= t {
        SeenIsLast(h, now, m, ls, x, t);
      }
    }
    assert LeavesExact(h + [a], ls) by {
      forall i | 0 <= i < |ls| ensures LeafExact(h + [a], ls[i]) {
        assert LeafExact(h, ls[i]);
      }
    }
  }

  /** The write `a` over the open leaves `m`: everything a step needs to know, address by address. */
  ghost predicate WrittenOver(m: Temps, a: Access, after: Temps, out: seq<Leaf>)
    requires GoodMap(m) && a.Valid()
  {
    && GoodMap(after)
    && (forall x :: Seen(after, x) == if a.HasAddr(x) then Some((a.time, a.ByteAt(x))) else Seen(m, x))
    && (forall i :: 0 <= i < |out| ==> ClosedLeaf(m, a.Open(NoData), out[i]))
    && AddressOrdered(out)
    && (forall x, t :: ClosedCovers(out, x, t) <==> a.HasAddr(x) && SeenSince(m, x, t) && t < a.time)
    && (forall x, t :: ClosedStarts(out, x, t)
          <==> a.HasAddr(x) && t < a.time && Seen(m, x).Some? && Seen(m, x).value.0 == t)
  }

  lemma {:induction false} StepWritesOver(m: Temps, a: Access, data: Data)
    requires GoodMap(m) && a.Valid() && Carries(data, a.bytes)
    ensures var w := a.Open(data);
      WrittenOver(m, a, Overlay(m, w), WriteOut(m, w))
  {
    var w := a.Open(data);
    var ks := SortedKeys(TouchedBy(m, w));
    var out := ClosedAll(m, ks, w);
    OverlayGood(m, w);
    forall x ensures Seen(Overlay(m, w), x) == if a.HasAddr(x) then Some((a.time, a.ByteAt(x))) else Seen(m, x) {
      OverlaySeen(m, w, x);
    }
    ClosedAllSound(m, ks, w);
    forall i | 0 <= i < |out| ensures ClosedLeaf(m, a.Open(NoData), out[i]) {
      assert out[i] in out;
    }
    forall x, t
      ensures ClosedCovers(out, x, t) <==> a.HasAddr(x) && SeenSince(m, x, t) && t < a.time
      ensures ClosedStarts(out, x, t) <==> a.HasAddr(x) && t < a.time && Seen(m, x).Some? && Seen(m, x).value.0 == t
    {
      ClosedAllAt(m, a, data, x, t);
    }
  }

  lemma {:induction false} ClosedAllAt(m: Temps, a: Access, data: Data, x: Addr, t: Time)
    requires GoodMap(m) && a.Valid() && Carries(data, a.bytes)
    ensures var out := WriteOut(m, a.Open(data));
      && (ClosedCovers(out, x, t) <==> a.HasAddr(x) && SeenSince(m, x, t) && t < a.time)
      && (ClosedStarts(out, x, t) <==> a.HasAddr(x) && t < a.time && Seen(m, x).Some? && Seen(m, x).value.0 == t)
  {
    var w := a.Open(data);
    var out := WriteOut(m, w);
    ClosedAllSound(m, SortedKeys(TouchedBy(m, w)), w);
    forall i | 0 <= i < |out| && out[i].node.HasAddr(x)
      ensures a.HasAddr(x) && Seen(m, x).Some? && out[i].node.timeMin == Seen(m, x).value.0
      ensures out[i].node.timeMin <= out[i].node.timeMax && out[i].node.timeMax as int == a.time as int - 1
    {
      assert ClosedLeaf(m, w, out[i]);
    }
    if a.HasAddr(x) && Seen(m, x).Some? && Seen(m, x).value.0 < a.time {
      var i := ClosedWitness(m, w, x);
      assert out[i].node.HasAddr(x);
    }
  }

  lemma {:induction false} ClosedWitness(m: Temps, w: Temp, x: Addr) returns (i: nat)
    requires GoodMap(m) && w.Valid() && w.HasAddr(x) && Seen(m, x).Some? && Seen(m, x).value.0 < w.timeMin
    ensures i < |WriteOut(m, w)| && WriteOut(m, w)[i].node.HasAddr(x)
  {
    var k :| k in m && m[k].HasAddr(x);
    SeenIs(m, k, x);
    assert k in TouchedBy(m, w);
    var leaf := ClosedLeafAt(m, w, k, x);
    i :| 0 <= i < |WriteOut(m, w)| && WriteOut(m, w)[i] == leaf;
  }

  lemma {:induction false} ClosedLeafAt(m: Temps, w: Temp, k: Addr, x: Addr) returns (leaf: Leaf)
    requires GoodMap(m) && w.Valid() && w.HasAddr(x)
    requires k in TouchedBy(m, w) && m[k].HasAddr(x) && m[k].timeMin < w.timeMin
    ensures leaf in WriteOut(m, w) && leaf.node.HasAddr(x)
  {
    var ks := SortedKeys(TouchedBy(m, w));
    ClosedAllComplete(m, ks, w, x);
    leaf :| leaf in WriteOut(m, w) && leaf.node.HasAddr(x);
  }

  ghost predicate Writing(h: seq<Access>, now: Time, m: Temps, ls: seq<Leaf>, a: Access, after: Temps, out: seq<Leaf>) {
    && Sweep(h, now, m, ls) && a.Valid() && now <= a.time
    && !(a.canDedup && Redundant(h, a))
    && WrittenOver(m, a, after, out)
  }

  lemma {:induction false} WriteOpenExact(h: seq<Access>, now: Time, m: Temps, ls: seq<Leaf>, a: Access, after: Temps,
                                          out: seq<Leaf>)
    requires Writing(h, now, m, ls, a, after, out)
    ensures OpenExact(h + [a], after) && NotAfter(after, a.time)
  {
    forall x, t | SeenSince(after, x, t) ensures LastByte(h + [a], x, t) == Some(Seen(after, x).value.1) {
      LastByteAfter(h, a, x, t);
      assert a.HasAddr(x) || SeenSince(m, x, t);
    }
  }

  lemma {:induction false} WriteLeavesExact(h: seq<Access>, now: Time, m: Temps, ls: seq<Leaf>, a: Access,
                                            after: Temps, out: seq<Leaf>)
    requires Writing(h, now, m, ls, a, after, out)
    ensures LeavesExact(h + [a], ls + out)
  {
    forall i | 0 <= i < |ls| + |out| ensures LeafExact(h + [a], (ls + out)[i]) {
      if i < |ls| {
        OldLeafExact(h, now, m, ls, a, i);
      } else {
        NewLeafExact(h, now, m, ls, a, after, out, i - |ls|);
      }
    }
  }

  lemma {:induction false} OldLeafExact(h: seq<Access>, now: Time, m: Temps, ls: seq<Leaf>, a: Access, i: nat)
    requires Sweep(h, now, m, ls) && now <= a.time && i < |ls|
    ensures LeafExact(h + [a], ls[i])
  {
    assert LeafExact(h, ls[i]);
    forall x, t | ls[i].node.Covers(x, t) ensures LastByte(h + [a], x, t) == LastByte(h, x, t) {
      LastByteAfter(h, a, x, t);
      assert ls[i].node.HasAddr(x);
    }
  }

  lemma {:induction false} NewLeafExact(h: seq<Access>, now: Time, m: Temps, ls: seq<Leaf>, a: Access, after: Temps,
                                        out: seq<Leaf>, i: nat)
    requires Writing(h, now, m, ls, a, after, out) && i < |out|
    ensures LeafExact(h + [a], out[i])
  {
    var leaf := out[i];
    assert ClosedLeaf(m, a.Open(NoData), leaf);
    forall x, t | leaf.node.Covers(x, t)
      ensures LastByte(h + [a], x, t) == Some(Seen(m, x).value.1)
    {
      LastByteAfter(h, a, x, t);
      assert leaf.node.HasAddr(x);
      assert SeenSince(m, x, t);
    }
  }

  lemma {:induction false} WriteLeavesPast(h: seq<Access>, now: Time, m: Temps, ls: seq<Leaf>, a: Access,
                                           after: Temps, out: seq<Leaf>)
    requires Writing(h, now, m, ls, a, after, out)
    ensures LeavesPast(after, ls + out)
  {
    forall i, x | 0 <= i < |ls| + |out| && (ls + out)[i].node.HasAddr(x)
      ensures Seen(after, x).Some? && (ls + out)[i].node.timeMax < Seen(after, x).value.0
    {
      if i < |ls| {
        assert Seen(m, x).Some? && ls[i].node.timeMax < Seen(m, x).value.0 <= now;
      } else {
        assert ClosedLeaf(m, a.Open(NoData), out[i - |ls|]);
      }
    }
  }

  lemma {:induction false} WriteLeavesApart(h: seq<Access>, now: Time, m: Temps, ls: seq<Leaf>, a: Access,
                                            after: Temps, out: seq<Leaf>)
    requires Writing(h, now, m, ls, a, after, out)
    ensures LeavesApart(ls + out)
  {
    forall i, j | 0 <= i < j < |ls| + |out| ensures (ls + out)[i].node.Disjoint((ls + out)[j].node) {
      if i < |ls| <= j {
        var old_, fresh_ := ls[i].node, out[j - |ls|].node;
        assert ClosedLeaf(m, a.Open(NoData), out[j - |ls|]) && LeafExact(h, ls[i]);
        var x := MaxAddr(old_.addrMin, fresh_.addrMin);
        assert old_.HasAddr(x) && fresh_.HasAddr(x) ==> old_.timeMax < fresh_.timeMin;
      }
    }
  }

  lemma {:induction false} WriteComplete(h: seq<Access>, now: Time, m: Temps, ls: seq<Leaf>, a: Access, after: Temps,
                                         out: seq<Leaf>)
    requires Writing(h, now, m, ls, a, after, out)
    ensures Complete(h + [a], after, ls + out)
  {
    forall x, t | LastByte(h + [a], x, t).Some? ensures ClosedCovers(ls + out, x, t) || SeenSince(after, x, t) {
      LastByteAfter(h, a, x, t);
      ClosedConcat(ls, out, x, t);
    }
  }

  lemma {:induction false} ClosedConcat(ls: seq<Leaf>, out: seq<Leaf>, x: Addr, t: Time)
    ensures ClosedCovers(ls + out, x, t) <==> ClosedCovers(ls, x, t) || ClosedCovers(out, x, t)
    ensures ClosedStarts(ls + out, x, t) <==> ClosedStarts(ls, x, t) || ClosedStarts(out, x, t)
  {
    var all := ls + out;
    assert forall i :: 0 <= i < |ls| ==> all[i] == ls[i];
    assert forall i :: 0 <= i < |out| ==> all[|ls| + i] == out[i];
  }

  lemma {:induction false} WriteStartsExact(h: seq<Access>, now: Time, m: Temps, ls: seq<Leaf>, a: Access,
                                            after: Temps, out: seq<Leaf>)
    requires Writing(h, now, m, ls, a, after, out)
    ensures StartsExact(h + [a], after, ls + out)
  {
    forall x, t
      ensures WrittenAt(h + [a], x, t)
         <==> ClosedStarts(ls + out, x, t) || (Seen(after, x).Some? && Seen(after, x).value.0 == t)
    {
      LastByteAfter(h, a, x, t);
      ClosedConcat(ls, out, x, t);
    }
  }

  lemma {:induction false} SweepWrite(h: seq<Access>, now: Time, m: Temps, ls: seq<Leaf>, a: Access, after: Temps,
                                      out: seq<Leaf>)
    requires Writing(h, now, m, ls, a, after, out)
    ensures Sweep(h + [a], a.time, after, ls + out)
  {
    TimeOrderedAfter(h, now, a);
    WriteOpenExact(h, now, m, ls, a, after, out);
    WriteLeavesExact(h, now, m, ls, a, after, out);
    WriteLeavesPast(h, now, m, ls, a, after, out);
    WriteLeavesApart(h, now, m, ls, a, after, out);
    WriteComplete(h, now, m, ls, a, after, out);
    WriteStartsExact(h, now, m, ls, a, after, out);
  }

  /** Every access keeps the sweep exact, whatever its payload. */
  lemma {:induction false} SweepStep(h: seq<Access>, now: Time, m: Temps, ls: seq<Leaf>, a: Access, data: Data)
    requires Sweep(h, now, m, ls) && a.Valid() && now <= a.time && Carries(data, a.bytes)
    ensures var (after, out) := Step(m, a, data); Sweep(h + [a], a.time, after, ls + out)
  {
    DuplicateIsRedundant(h, now, m, ls, a);
    if a.canDedup && IsDuplicate(m, a) {
      SweepDuplicate(h, now, m, ls, a);
      assert ls + [] == ls;
    } else {
      var w := a.Open(data);
      StepWritesOver(m, a, data);
      SweepWrite(h, now, m, ls, a, Overlay(m, w), WriteOut(m, w));
    }
  }

  // ---- the sweep as the program runs it ----

  /** The first key to visit: the leaf just below `min` when it reaches `min`. */
  function FirstKey(m: Temps, min: Addr): Addr {
    var below := set k | k in m && k < min;
    if below != {} && min <= m[MaxKey(below)].addrMax then MaxKey(below) else min
  }

  /** Keys of the open leaves that meet the queried range. */
  function IterInRange(m: Temps, min: Addr, max: Addr): (ks: seq<Addr>)
    ensures Ascending(ks)
    ensures forall k :: k in ks <==> k in m && FirstKey(m, min) <= k <= max
  {
    var ks := SortedKeys(set k | k in m && FirstKey(m, min) <= k);
    assert forall k :: k in ks <==> k in m && FirstKey(m, min) <= k;
    TakeUpTo(ks, max)
  }

  lemma {:induction false} FirstKeyExact(m: Temps, min: Addr, k: Addr)
    requires GoodMap(m) && k in m
    ensures k < min ==> (FirstKey(m, min) <= k <==> min <= m[k].addrMax)
    ensures FirstKey(m, min) <= min
  {
    var below := set k | k in m && k < min;
    assert k < min ==> k in below;
  }

  lemma {:induction false} IterInRangeExact(m: Temps, w: Temp)
    requires GoodMap(m) && w.Valid()
    ensures IterInRange(m, w.addrMin, w.addrMax) == SortedKeys(TouchedBy(m, w))
  {
    var ks, expected := IterInRange(m, w.addrMin, w.addrMax), SortedKeys(TouchedBy(m, w));
    forall k ensures k in ks <==> k in expected {
      if k in m {
        FirstKeyExact(m, w.addrMin, k);
      }
    }
    AscendingUnique(ks, expected);
  }

  /** What stays open of `e` beside the write: the piece on its left, then the piece on its right. */
  ghost function StaysOpen(e: Temp, w: Temp): seq<Temp>
    requires e.Valid() && w.Valid() && Touches(e, w)
  {
    (if e.addrMin < w.addrMin then [LeftOf(e, w)] else []) + (if w.addrMax < e.addrMax then [RightOf(e, w)] else [])
  }

  /** Sorts the fragments of one open leaf into those that stay open and those that are closed. */
  method MaskFragments(e: Temp, fragments: seq<Node>) returns (adds: seq<Temp>, outs: seq<Leaf>, replaced: bool)
    requires e.Valid() && Inside(e, fragments)
    ensures adds == MaskedOpen(e, fragments) && outs == MaskedClosed(e, fragments)
    ensures replaced <==> Replaces(e, fragments)
  {
    adds, outs, replaced := [], [], false;
    var i := 0;
    while i < |fragments|
      invariant 0 <= i <= |fragments|
      invariant adds == MaskedOpen(e, fragments[..i]) && outs == MaskedClosed(e, fragments[..i])
      invariant replaced <==> Replaces(e, fragments[..i])
    {
      var fragment := fragments[i];
      var masked := e.Mask(fragment);
      assert fragments[..i + 1] == fragments[..i] + [fragment];
      MaskedAppend(e, fragments[..i], [fragment]);
      MaskedSingle(e, [fragment]);
      if fragment.timeMax == TIME_MAX {
        replaced := replaced || e.addrMin == masked.addrMin;
        adds := adds + [masked];
      } else {
        outs := outs + [masked.Complete(fragment.timeMax)];
      }
      i := i + 1;
    }
    assert fragments[..i] == fragments;
  }

  /** Splits one open leaf by the rectangle of the write. */
  method SplitOpen(e: Temp, w: Temp) returns (adds: seq<Temp>, outs: seq<Leaf>, replaced: bool)
    requires e.Valid() && w.Valid() && Touches(e, w) && e.timeMin <= w.timeMin
    ensures adds == StaysOpen(e, w) && outs == ClosedBy(e, w)
    ensures replaced <==> e.addrMin < w.addrMin
  {
    var fragments := OpenFragments(e, w);
    MaskedParts(e, w, fragments);
    adds, outs, replaced := MaskFragments(e, fragments);
  }

  /** The fragments of an open leaf: nothing of it comes after the write, both being open. */
  method OpenFragments(e: Temp, w: Temp) returns (fs: seq<Node>)
    requires e.Valid() && w.Valid() && Touches(e, w) && e.timeMin <= w.timeMin
    ensures fs == LeftPart(e.Rect(TIME_MAX), w.Rect(TIME_MAX)) + RightPart(e.Rect(TIME_MAX), w.Rect(TIME_MAX))
                  + BeforePart(e.Rect(TIME_MAX), w.Rect(TIME_MAX))
  {
    fs := FragmentBy(e.Rect(TIME_MAX), w.Rect(TIME_MAX), []);
  }

  /** The piece replacing `e` under its own key is among the fragments. */
  ghost predicate Replaces(e: Temp, fs: seq<Node>) {
    exists f :: f in fs && f.timeMax == TIME_MAX && f.addrMin == e.addrMin
  }

  ghost predicate Inside(e: Temp, fs: seq<Node>) {
    forall f :: f in fs ==> e.addrMin <= f.addrMin <= f.addrMax <= e.addrMax
  }

  ghost function MaskedOpen(e: Temp, fs: seq<Node>): seq<Temp>
    requires e.Valid() && Inside(e, fs)
  {
    if fs == [] then []
    else
      var f := fs[|fs| - 1];
      MaskedOpen(e, fs[..|fs| - 1]) + if f.timeMax == TIME_MAX then [e.Mask(f)] else []
  }

  ghost function MaskedClosed(e: Temp, fs: seq<Node>): seq<Leaf>
    requires e.Valid() && Inside(e, fs)
  {
    if fs == [] then []
    else
      var f := fs[|fs| - 1];
      MaskedClosed(e, fs[..|fs| - 1]) + if f.timeMax == TIME_MAX then [] else [e.Mask(f).Complete(f.timeMax)]
  }

  lemma {:induction false} MaskedAppend(e: Temp, fs: seq<Node>, g: seq<Node>)
    requires e.Valid() && Inside(e, fs + g) && |g| <= 1
    ensures Inside(e, fs) && Inside(e, g)
    ensures MaskedOpen(e, fs + g) == MaskedOpen(e, fs) + MaskedOpen(e, g)
    ensures MaskedClosed(e, fs + g) == MaskedClosed(e, fs) + MaskedClosed(e, g)
  {
    assert forall f :: f in fs || f in g ==> f in fs + g;
    if g == [] {
      assert fs + g == fs;
    } else {
      assert (fs + g)[..|fs|] == fs;
      assert g == [g[0]] && g[..0] == [];
    }
  }

  lemma {:induction false} MaskedParts(e: Temp, w: Temp, fs: seq<Node>)
    requires e.Valid() && w.Valid() && Touches(e, w) && e.timeMin <= w.timeMin
    requires fs == LeftPart(e.Rect(TIME_MAX), w.Rect(TIME_MAX)) + RightPart(e.Rect(TIME_MAX), w.Rect(TIME_MAX))
                  + BeforePart(e.Rect(TIME_MAX), w.Rect(TIME_MAX))
    ensures Inside(e, fs) && MaskedOpen(e, fs) == StaysOpen(e, w) && MaskedClosed(e, fs) == ClosedBy(e, w)
    ensures Replaces(e, fs) <==> e.addrMin < w.addrMin
  {
    var rect, newRect := e.Rect(TIME_MAX), w.Rect(TIME_MAX);
    var left, right, before := LeftPart(rect, newRect), RightPart(rect, newRect), BeforePart(rect, newRect);
    LeftMasked(e, w);
    RightMasked(e, w);
    BeforeMasked(e, w);
    PartsInside(e, left, right, before);
    MaskedAppend(e, left + right, before);
    MaskedAppend(e, left, right);
    assert Replaces(e, left + right + before) <==> Replaces(e, left) || Replaces(e, right) || Replaces(e, before);
  }

  lemma {:induction false} PartsInside(e: Temp, a: seq<Node>, b: seq<Node>, c: seq<Node>)
    requires Inside(e, a) && Inside(e, b) && Inside(e, c)
    ensures Inside(e, a + b) && Inside(e, a + b + c)
  {
  }

  /** Masking with a single fragment. */
  lemma {:induction false} MaskedNode(e: Temp, f: Node)
    requires e.Valid() && e.addrMin <= f.addrMin <= f.addrMax <= e.addrMax
    ensures Inside(e, [f])
    ensures MaskedOpen(e, [f]) == if f.timeMax == TIME_MAX then [e.Mask(f)] else []
    ensures MaskedClosed(e, [f]) == if f.timeMax == TIME_MAX then [] else [e.Mask(f).Complete(f.timeMax)]
    ensures Replaces(e, [f]) <==> f.timeMax == TIME_MAX && f.addrMin == e.addrMin
  {
    MaskedSingle(e, [f]);
    assert f in [f];
  }

  lemma {:induction false} LeftPartIs(e: Temp, w: Temp)
    requires e.Valid()
    ensures LeftPart(e.Rect(TIME_MAX), w.Rect(TIME_MAX))
         == if e.addrMin < w.addrMin then [Node(e.addrMin, w.addrMin - 1, e.timeMin, TIME_MAX)] else []
  {
  }

  lemma {:induction false} RightPartIs(e: Temp, w: Temp)
    requires e.Valid()
    ensures RightPart(e.Rect(TIME_MAX), w.Rect(TIME_MAX))
         == if w.addrMax < e.addrMax then [Node(w.addrMax + 1, e.addrMax, e.timeMin, TIME_MAX)] else []
  {
  }

  lemma {:induction false} BeforePartIs(e: Temp, w: Temp)
    requires e.Valid() && w.Valid() && Touches(e, w)
    ensures BeforePart(e.Rect(TIME_MAX), w.Rect(TIME_MAX)) == if e.timeMin < w.timeMin then [Overlap(e, w)] else []
  {
  }

  /** What the fragments `fs` contribute, when there is at most `f`. */
  lemma {:induction false} MaskedMaybe(e: Temp, fs: seq<Node>, some: bool, f: Node)
    requires e.Valid() && fs == (if some then [f] else [])
    requires some ==> e.addrMin <= f.addrMin <= f.addrMax <= e.addrMax
    ensures |fs| <= 1 && Inside(e, fs)
    ensures MaskedOpen(e, fs) == if some && f.timeMax == TIME_MAX then [e.Mask(f)] else []
    ensures MaskedClosed(e, fs) == if some && f.timeMax != TIME_MAX then [e.Mask(f).Complete(f.timeMax)] else []
    ensures Replaces(e, fs) <==> some && f.timeMax == TIME_MAX && f.addrMin == e.addrMin
  {
    if some {
      MaskedNode(e, f);
    }
  }

  lemma {:induction false} LeftMasked(e: Temp, w: Temp)
    requires e.Valid() && w.Valid() && Touches(e, w)
    ensures var left := LeftPart(e.Rect(TIME_MAX), w.Rect(TIME_MAX));
      && |left| <= 1 && Inside(e, left) && MaskedClosed(e, left) == []
      && MaskedOpen(e, left) == (if e.addrMin < w.addrMin then [LeftOf(e, w)] else [])
      && (Replaces(e, left) <==> e.addrMin < w.addrMin)
  {
    LeftPartIs(e, w);
    var last := if e.addrMin < w.addrMin then w.addrMin - 1 else e.addrMin;
    MaskedMaybe(e, LeftPart(e.Rect(TIME_MAX), w.Rect(TIME_MAX)), e.addrMin < w.addrMin,
                Node(e.addrMin, last, e.timeMin, TIME_MAX));
  }

  lemma {:induction false} RightMasked(e: Temp, w: Temp)
    requires e.Valid() && w.Valid() && Touches(e, w)
    ensures var right := RightPart(e.Rect(TIME_MAX), w.Rect(TIME_MAX));
      && |right| <= 1 && Inside(e, right) && MaskedClosed(e, right) == []
      && MaskedOpen(e, right) == (if w.addrMax < e.addrMax then [RightOf(e, w)] else [])
      && !Replaces(e, right)
  {
    RightPartIs(e, w);
    var first := if w.addrMax < e.addrMax then w.addrMax + 1 else e.addrMax;
    MaskedMaybe(e, RightPart(e.Rect(TIME_MAX), w.Rect(TIME_MAX)), w.addrMax < e.addrMax,
                Node(first, e.addrMax, e.timeMin, TIME_MAX));
  }

  lemma {:induction false} BeforeMasked(e: Temp, w: Temp)
    requires e.Valid() && w.Valid() && Touches(e, w)
    ensures var before := BeforePart(e.Rect(TIME_MAX), w.Rect(TIME_MAX));
      && |before| <= 1 && Inside(e, before) && MaskedOpen(e, before) == []
      && MaskedClosed(e, before) == ClosedBy(e, w)
      && !Replaces(e, before)
  {
    BeforePartIs(e, w);
    if e.timeMin < w.timeMin {
      MaskedMaybe(e, BeforePart(e.Rect(TIME_MAX), w.Rect(TIME_MAX)), true, Overlap(e, w));
    } else {
      MaskedMaybe(e, BeforePart(e.Rect(TIME_MAX), w.Rect(TIME_MAX)), false, e.Rect(TIME_MAX));
    }
  }

  lemma {:induction false} MaskedSingle(e: Temp, fs: seq<Node>)
    requires e.Valid() && Inside(e, fs) && |fs| <= 1
    ensures MaskedOpen(e, fs) == if fs != [] && fs[0].timeMax == TIME_MAX then [e.Mask(fs[0])] else []
    ensures MaskedClosed(e, fs)
         == if fs != [] && fs[0].timeMax != TIME_MAX then [e.Mask(fs[0]).Complete(fs[0].timeMax)] else []
  {
    if fs != [] {
      assert fs[..0] == [];
    }
  }

  // ---- the working set after the collected removals and additions ----

  ghost function AddsOf(m: Temps, ks: seq<Addr>, w: Temp): seq<Temp>
    requires GoodMap(m) && w.Valid() && TouchedKeys(m, ks, w)
  {
    if ks == [] then [] else AddsOf(m, ks[..|ks| - 1], w) + StaysOpen(m[ks[|ks| - 1]], w)
  }

  ghost function InsertAll(m: Temps, adds: seq<Temp>): Temps {
    if adds == [] then m
    else
      var a := adds[|adds| - 1];
      InsertAll(m, adds[..|adds| - 1])[a.addrMin := a]
  }

  lemma {:induction false} InsertAllEntry(m: Temps, adds: seq<Temp>, k: Addr)
    ensures k in InsertAll(m, adds) <==> k in m || exists a :: a in adds && a.addrMin == k
    ensures k in InsertAll(m, adds) ==>
      var v := InsertAll(m, adds)[k];
      (v in adds && v.addrMin == k) || (k in m && v == m[k] && forall a :: a in adds ==> a.addrMin != k)
  {
    if adds != [] {
      InsertAllEntry(m, adds[..|adds| - 1], k);
      assert adds == adds[..|adds| - 1] + [adds[|adds| - 1]];
    }
  }

  ghost predicate LeftAdd(m: Temps, w: Temp, j: Addr, a: Temp)
    requires GoodMap(m) && w.Valid()
  {
    Leftover(m, w, j) && a == LeftOf(m[j], w)
  }

  ghost predicate RightAdd(m: Temps, w: Temp, j: Addr, a: Temp)
    requires GoodMap(m) && w.Valid()
  {
    Rightover(m, w, j) && a == RightOf(m[j], w)
  }

  lemma {:induction false} StaysOpenIs(m: Temps, w: Temp, j: Addr, a: Temp)
    requires GoodMap(m) && w.Valid() && j in m && Touches(m[j], w)
    ensures a in StaysOpen(m[j], w) <==> LeftAdd(m, w, j, a) || RightAdd(m, w, j, a)
  {
  }

  lemma {:induction false} AddsOfIs(m: Temps, ks: seq<Addr>, w: Temp, a: Temp)
    requires GoodMap(m) && w.Valid() && TouchedKeys(m, ks, w)
    ensures a in AddsOf(m, ks, w) <==> exists j :: j in ks && (LeftAdd(m, w, j, a) || RightAdd(m, w, j, a))
  {
    if ks != [] {
      var last := ks[|ks| - 1];
      AddsOfIs(m, ks[..|ks| - 1], w, a);
      StaysOpenIs(m, w, last, a);
      assert forall j :: j in ks <==> j in ks[..|ks| - 1] || j == last;
    }
  }

  ghost predicate SameEntry(a: Temps, b: Temps, k: Addr) {
    (k in a <==> k in b) && (k in a ==> a[k] == b[k])
  }

  lemma {:induction false} SameEntries(a: Temps, b: Temps)
    requires forall k :: SameEntry(a, b, k)
    ensures a == b
  {
    assert forall k :: SameEntry(a, b, k) ==> (k in a <==> k in b);
  }

  ghost predicate KeepsOthers(m: Temps, w: Temp, kept: Temps) {
    && (forall k :: k in kept <==> k in m && (Touches(m[k], w) ==> k < w.addrMin))
    && (forall k :: k in kept ==> kept[k] == m[k])
  }

  /** Removing the replaced keys, inserting the pieces, then the write itself, gives the overlay. */
  lemma {:induction false} EditsGiveOverlay(m: Temps, w: Temp, kept: Temps, adds: seq<Temp>)
    requires GoodMap(m) && w.Valid() && KeepsOthers(m, w, kept)
    requires adds == AddsOf(m, SortedKeys(TouchedBy(m, w)), w)
    ensures InsertAll(kept, adds)[w.addrMin := w] == Overlay(m, w)
  {
    var edited, expected := InsertAll(kept, adds)[w.addrMin := w], Overlay(m, w);
    forall k ensures SameEntry(edited, expected, k) {
      InsertAllEntry(kept, adds, k);
      if k != w.addrMin {
        if Leftover(m, w, k) {
          EditedLeft(m, w, k);
          OverlayLeft(m, w, k);
        } else {
          EditedOther(m, w, kept, adds, k);
        }
      }
    }
    SameEntries(edited, expected);
  }

  lemma {:induction false} EditedOther(m: Temps, w: Temp, kept: Temps, adds: seq<Temp>, k: Addr)
    requires GoodMap(m) && w.Valid() && KeepsOthers(m, w, kept)
    requires adds == AddsOf(m, SortedKeys(TouchedBy(m, w)), w)
    requires k != w.addrMin && !Leftover(m, w, k)
    ensures SameEntry(InsertAll(kept, adds), Overlay(m, w), k)
  {
    if RightoverAt(m, w, k) {
      var j :| Rightover(m, w, j);
      EditedAtRight(m, w, kept, adds, j);
    } else {
      EditedElse(m, w, k);
      EditedUntouched(m, w, kept, adds, k);
    }
  }

  /** A piece to the right of the write starts at `k`. */
  ghost predicate RightoverAt(m: Temps, w: Temp, k: Addr) {
    k as int == w.addrMax as int + 1 && exists j :: Rightover(m, w, j)
  }

  lemma {:induction false} EditedAtRight(m: Temps, w: Temp, kept: Temps, adds: seq<Temp>, j: Addr)
    requires GoodMap(m) && w.Valid() && Rightover(m, w, j)
    requires adds == AddsOf(m, SortedKeys(TouchedBy(m, w)), w)
    ensures SameEntry(InsertAll(kept, adds), Overlay(m, w), w.addrMax + 1)
  {
    EditedRight(m, w, j);
    OverlayRight(m, w, j);
    InsertAllEntry(kept, adds, w.addrMax + 1);
    assert RightOf(m[j], w) in adds;
  }

  lemma {:induction false} EditedUntouched(m: Temps, w: Temp, kept: Temps, adds: seq<Temp>, k: Addr)
    requires GoodMap(m) && w.Valid() && KeepsOthers(m, w, kept)
    requires k != w.addrMin && !Leftover(m, w, k)
    requires !RightoverAt(m, w, k)
    requires forall a :: a in adds ==> a.addrMin != k
    ensures SameEntry(InsertAll(kept, adds), Overlay(m, w), k)
  {
    InsertAllEntry(kept, adds, k);
    NotInOverlay(m, w, k);
  }

  lemma {:induction false} AddsMember(m: Temps, w: Temp, a: Temp)
    requires GoodMap(m) && w.Valid()
    ensures a in AddsOf(m, SortedKeys(TouchedBy(m, w)), w)
       <==> exists j :: LeftAdd(m, w, j, a) || RightAdd(m, w, j, a)
  {
    var ks := SortedKeys(TouchedBy(m, w));
    AddsOfIs(m, ks, w, a);
    forall j | LeftAdd(m, w, j, a) || RightAdd(m, w, j, a) ensures j in ks {
    }
  }

  lemma {:induction false} EditedLeft(m: Temps, w: Temp, k: Addr)
    requires GoodMap(m) && w.Valid() && Leftover(m, w, k)
    ensures LeftOf(m[k], w) in AddsOf(m, SortedKeys(TouchedBy(m, w)), w) && LeftOf(m[k], w).addrMin == k
    ensures forall a :: a in AddsOf(m, SortedKeys(TouchedBy(m, w)), w) && a.addrMin == k ==> a == LeftOf(m[k], w)
  {
    LeftIs(m[k], w);
    assert LeftAdd(m, w, k, LeftOf(m[k], w));
    AddsMember(m, w, LeftOf(m[k], w));
    forall a | a in AddsOf(m, SortedKeys(TouchedBy(m, w)), w) && a.addrMin == k ensures a == LeftOf(m[k], w) {
      AddsMember(m, w, a);
      var j :| LeftAdd(m, w, j, a) || RightAdd(m, w, j, a);
      AddKey(m, w, j, a);
    }
  }

  lemma {:induction false} AddKey(m: Temps, w: Temp, j: Addr, a: Temp)
    requires GoodMap(m) && w.Valid() && (LeftAdd(m, w, j, a) || RightAdd(m, w, j, a))
    ensures LeftAdd(m, w, j, a) ==> a.addrMin == j < w.addrMin
    ensures RightAdd(m, w, j, a) ==> a.addrMin as int == w.addrMax as int + 1
  {
    if LeftAdd(m, w, j, a) {
      LeftIs(m[j], w);
    }
    if RightAdd(m, w, j, a) {
      RightIs(m[j], w);
    }
  }

  lemma {:induction false} EditedRight(m: Temps, w: Temp, j: Addr)
    requires GoodMap(m) && w.Valid() && Rightover(m, w, j)
    ensures RightOf(m[j], w) in AddsOf(m, SortedKeys(TouchedBy(m, w)), w) && RightOf(m[j], w).addrMin == w.addrMax + 1
    ensures forall a :: a in AddsOf(m, SortedKeys(TouchedBy(m, w)), w) && a.addrMin == w.addrMax + 1 ==>
            a == RightOf(m[j], w)
  {
    RightIs(m[j], w);
    assert RightAdd(m, w, j, RightOf(m[j], w));
    AddsMember(m, w, RightOf(m[j], w));
    forall a | a in AddsOf(m, SortedKeys(TouchedBy(m, w)), w) && a.addrMin == w.addrMax + 1
      ensures a == RightOf(m[j], w)
    {
      AddsMember(m, w, a);
      var i :| LeftAdd(m, w, i, a) || RightAdd(m, w, i, a);
      AddKey(m, w, i, a);
      RightoverUnique(m, w, i, j);
    }
  }

  lemma {:induction false} EditedElse(m: Temps, w: Temp, k: Addr)
    requires GoodMap(m) && w.Valid() && !Leftover(m, w, k)
    requires !RightoverAt(m, w, k)
    ensures forall a :: a in AddsOf(m, SortedKeys(TouchedBy(m, w)), w) ==> a.addrMin != k
  {
    forall a | a in AddsOf(m, SortedKeys(TouchedBy(m, w)), w) ensures a.addrMin != k {
      AddsMember(m, w, a);
      var j :| LeftAdd(m, w, j, a) || RightAdd(m, w, j, a);
      AddKey(m, w, j, a);
    }
  }

  lemma {:induction false} NotInOverlay(m: Temps, w: Temp, k: Addr)
    requires GoodMap(m) && w.Valid() && k != w.addrMin && !Leftover(m, w, k)
    requires !RightoverAt(m, w, k)
    ensures k in Overlay(m, w) <==> k in m && !Touches(m[k], w)
    ensures k in Overlay(m, w) ==> Overlay(m, w)[k] == m[k]
  {
    assert k !in Rights(m, w);
  }

  lemma {:induction false} PrefixStep(m: Temps, ks: seq<Addr>, i: nat, w: Temp)
    requires GoodMap(m) && w.Valid() && TouchedKeys(m, ks, w) && i < |ks|
    ensures TouchedKeys(m, ks[..i], w) && TouchedKeys(m, ks[..i + 1], w)
    ensures AddsOf(m, ks[..i + 1], w) == AddsOf(m, ks[..i], w) + StaysOpen(m[ks[i]], w)
    ensures ClosedAll(m, ks[..i + 1], w) == ClosedAll(m, ks[..i], w) + ClosedBy(m[ks[i]], w)
  {
    assert ks[..i + 1][..i] == ks[..i];
    assert ks[..i + 1] == ks[..i] + [ks[i]];
  }

  /** The first `n` of the keys are split. */
  ghost predicate SplitUpTo(m: Temps, ks: seq<Addr>, n: nat, w: Temp, toAdd: seq<Temp>, toRemove: seq<Addr>,
                            out: seq<Leaf>)
    requires GoodMap(m) && w.Valid()
  {
    && n <= |ks| && TouchedKeys(m, ks[..n], w) && toAdd == AddsOf(m, ks[..n], w) && out == ClosedAll(m, ks[..n], w)
    && Replaced(ks[..n], w, toRemove)
  }

  /** Those of the keys that start inside the write. */
  ghost predicate Replaced(ks: seq<Addr>, w: Temp, toRemove: seq<Addr>) {
    forall k :: k in toRemove <==> k in ks && w.addrMin <= k
  }

  lemma {:induction false} ReplacedNext(ks: seq<Addr>, w: Temp, toRemove: seq<Addr>, k: Addr)
    requires Replaced(ks, w, toRemove)
    ensures Replaced(ks + [k], w, if w.addrMin <= k then toRemove + [k] else toRemove)
  {
  }

  lemma {:induction false} SplitNext(m: Temps, ks: seq<Addr>, n: nat, w: Temp, toAdd: seq<Temp>, toRemove: seq<Addr>,
                                     out: seq<Leaf>)
    requires GoodMap(m) && w.Valid() && TouchedKeys(m, ks, w) && n < |ks|
    requires SplitUpTo(m, ks, n, w, toAdd, toRemove, out)
    ensures SplitUpTo(m, ks, n + 1, w, toAdd + StaysOpen(m[ks[n]], w),
                      if w.addrMin <= ks[n] then toRemove + [ks[n]] else toRemove, out + ClosedBy(m[ks[n]], w))
  {
    PrefixStep(m, ks, n, w);
    ReplacedNext(ks[..n], w, toRemove, ks[n]);
    assert ks[..n + 1] == ks[..n] + [ks[n]];
  }

  /** Splits every open leaf that meets the write, in address order. */
  method SplitAll(m: Temps, ks: seq<Addr>, w: Temp) returns (toAdd: seq<Temp>, toRemove: seq<Addr>, out: seq<Leaf>)
    requires GoodMap(m) && w.Valid() && TouchedKeys(m, ks, w)
    requires forall k :: k in ks ==> m[k].timeMin <= w.timeMin
    ensures toAdd == AddsOf(m, ks, w) && out == ClosedAll(m, ks, w)
    ensures forall k :: k in toRemove <==> k in ks && w.addrMin <= k
  {
    toAdd, toRemove, out := [], [], [];
    var i := 0;
    while i < |ks|
      invariant 0 <= i <= |ks| && SplitUpTo(m, ks, i, w, toAdd, toRemove, out)
    {
      SplitNext(m, ks, i, w, toAdd, toRemove, out);
      var k := ks[i];
      var adds, outs, replaced := SplitOpen(m[k], w);
      toAdd, out := toAdd + adds, out + outs;
      if !replaced {
        toRemove := toRemove + [k];
      }
      i := i + 1;
    }
    assert ks[..i] == ks;
  }

  ghost predicate HoldsByte(m: Temps, a: Access, x: Addr)
    requires GoodMap(m)
  {
    a.HasAddr(x) && Seen(m, x).Some? && Seen(m, x).value.1 == a.ByteAt(x)
  }

  ghost predicate HoldsBytes(m: Temps, a: Access, first: Addr, last: Addr)
    requires GoodMap(m)
  {
    forall x :: first <= x <= last ==> HoldsByte(m, a, x)
  }

  lemma {:induction false} DuplicateIsHolds(m: Temps, a: Access, last: Addr)
    requires GoodMap(m) && a.Valid() && last as int == a.addr as int + |a.bytes| - 1
    ensures IsDuplicate(m, a) <==> HoldsBytes(m, a, a.addr, last)
  {
    forall x ensures a.HasAddr(x) <==> a.addr <= x <= last {
    }
    if IsDuplicate(m, a) {
      forall x | a.addr <= x <= last ensures HoldsByte(m, a, x) {
      }
    }
    if HoldsBytes(m, a, a.addr, last) {
      forall x | a.HasAddr(x) ensures Seen(m, x).Some? && Seen(m, x).value.1 == a.ByteAt(x) {
        assert HoldsByte(m, a, x);
      }
    }
  }

  /** The open leaves `ks[..i]` end before the cursor. */
  ghost predicate Passed(m: Temps, ks: seq<Addr>, i: nat, cursor: Addr) {
    i <= |ks| && forall j :: 0 <= j < i ==> ks[j] in m && m[ks[j]].addrMax < cursor
  }

  /** Does the memory already hold `a.bytes`? Walks the open leaves with a cursor. */
  method IsDuplicateWrite(m: Temps, a: Access) returns (dup: bool)
    requires GoodMap(m) && a.Valid()
    ensures dup <==> IsDuplicate(m, a)
  {
    var max := (a.addr as int + |a.bytes| - 1) as Addr;
    var ks := IterInRange(m, a.addr, max);
    IterInRangeExact(m, a.Open(NoData));
    DuplicateIsHolds(m, a, max);
    dup := WalkOpen(m, a, ks, max);
  }

  /** Memory holds the accessed bytes up to, but not at, the cursor. */
  ghost predicate HeldBelow(m: Temps, a: Access, cursor: Addr)
    requires GoodMap(m) && a.Valid()
  {
    forall x :: a.addr <= x < cursor ==> HoldsByte(m, a, x)
  }

  lemma {:induction false} HeldOn(m: Temps, a: Access, cursor: Addr, last: Addr)
    requires GoodMap(m) && a.Valid() && HeldBelow(m, a, cursor) && HoldsBytes(m, a, cursor, last) && last < ADDR_MAX
    ensures HeldBelow(m, a, last + 1)
  {
  }

  method WalkOpen(m: Temps, a: Access, ks: seq<Addr>, max: Addr) returns (dup: bool)
    requires GoodMap(m) && a.Valid() && max as int == a.addr as int + |a.bytes| - 1
    requires TouchedKeys(m, ks, a.Open(NoData))
    requires forall k :: k in m && Touches(m[k], a.Open(NoData)) ==> k in ks
    ensures dup <==> HoldsBytes(m, a, a.addr, max)
  {
    var cursor := a.addr;
    var i := 0;
    while i < |ks|
      invariant a.addr <= cursor <= max && Passed(m, ks, i, cursor)
      invariant HeldBelow(m, a, cursor)
      invariant i < |ks| ==> cursor <= m[ks[i]].addrMax
    {
      var tmp := m[ks[i]];
      if cursor < tmp.addrMin {
        UnknownByte(m, a, ks, i, cursor);
        return false;
      }
      var last := MinAddr(tmp.addrMax, max);
      var same := CompareBytes(m, a, ks[i], cursor, last);
      if !same {
        return false;
      }
      if last == max {
        return true;
      }
      NextLeaf(m, a, ks, i);
      HeldOn(m, a, cursor, last);
      cursor := last + 1;
      i := i + 1;
    }
    UnknownByte(m, a, ks, i, cursor);
    return false;
  }

  lemma {:induction false} NextLeaf(m: Temps, a: Access, ks: seq<Addr>, i: nat)
    requires GoodMap(m) && a.Valid() && TouchedKeys(m, ks, a.Open(NoData)) && i < |ks|
    ensures i + 1 < |ks| ==> m[ks[i]].addrMax < ks[i + 1] == m[ks[i + 1]].addrMin <= m[ks[i + 1]].addrMax
  {
    if i + 1 < |ks| {
      var j, k := ks[i], ks[i + 1];
      assert j in ks && k in ks && j < k;
      assert j in m && k in m;
      assert m[k].Valid();
    }
  }

  lemma {:induction false} UnknownByte(m: Temps, a: Access, ks: seq<Addr>, i: nat, cursor: Addr)
    requires GoodMap(m) && a.Valid() && a.HasAddr(cursor)
    requires TouchedKeys(m, ks, a.Open(NoData))
    requires forall k :: k in m && Touches(m[k], a.Open(NoData)) ==> k in ks
    requires Passed(m, ks, i, cursor) && (i < |ks| ==> cursor < ks[i])
    ensures !HoldsByte(m, a, cursor)
  {
    ghost var w := a.Open(NoData);
    assert forall k :: k in m && m[k].HasAddr(cursor) ==> Touches(m[k], w);
    forall k | k in m && Touches(m[k], w) ensures !m[k].HasAddr(cursor) {
      var j :| 0 <= j < |ks| && ks[j] == k;
      assert j < i || ks[i] <= k;
    }
  }

  /** Compares `a` with one open leaf, address by address. */
  method CompareBytes(m: Temps, a: Access, k: Addr, first: Addr, last: Addr) returns (same: bool)
    requires GoodMap(m) && a.Valid() && k in m && first <= last
    requires forall x :: first <= x <= last ==> a.HasAddr(x) && m[k].HasAddr(x)
    ensures same <==> HoldsBytes(m, a, first, last)
  {
    var x := first;
    while true
      invariant first <= x <= last
      invariant forall y :: first <= y < x ==> HoldsByte(m, a, y)
      decreases last - x
    {
      SeenIs(m, k, x);
      if a.ByteAt(x) != m[k].ByteAt(x) {
        assert !HoldsByte(m, a, x);
        return false;
      }
      if x == last {
        return true;
      }
      x := x + 1;
    }
  }

  ghost predicate BegunBy(m: Temps, now: Time) {
    forall k :: k in m ==> m[k].timeMin <= now
  }

  lemma {:induction false} NotAfterStarted(m: Temps, now: Time)
    requires GoodMap(m) && NotAfter(m, now)
    ensures BegunBy(m, now)
  {
    forall k | k in m ensures m[k].timeMin <= now {
      SeenIs(m, k, k);
    }
  }

  ghost function ClosingOf(m: Temps, ks: seq<Addr>, now: Time): seq<Leaf>
    requires forall k :: k in ks ==> k in m
  {
    seq(|ks|, i requires 0 <= i < |ks| => m[ks[i]].Complete(now))
  }

  ghost function Closing(m: Temps, now: Time): seq<Leaf> {
    ClosingOf(m, SortedKeys(m.Keys), now)
  }

  /** The leaves describe the history exactly, up to time `end`. */
  ghost predicate Exact(h: seq<Access>, end: Time, ls: seq<Leaf>) {
    && TimeOrdered(h, end)
    && LeavesExact(h, ls) && LeavesApart(ls)
    && (forall i :: 0 <= i < |ls| ==> ls[i].node.timeMax <= end)
    && (forall x, t :: t <= end && LastByte(h, x, t).Some? ==> ClosedCovers(ls, x, t))
    && (forall x, t :: WrittenAt(h, x, t) <==> ClosedStarts(ls, x, t))
  }

  lemma {:induction false} ClosingAt(m: Temps, now: Time, x: Addr, t: Time)
    requires GoodMap(m) && NotAfter(m, now)
    ensures ClosedCovers(Closing(m, now), x, t) <==> SeenSince(m, x, t) && t <= now
    ensures ClosedStarts(Closing(m, now), x, t) <==> Seen(m, x).Some? && Seen(m, x).value.0 == t
  {
    var ks := SortedKeys(m.Keys);
    var out := Closing(m, now);
    forall i | 0 <= i < |out| && out[i].node.HasAddr(x)
      ensures Seen(m, x).Some? && Seen(m, x).value.0 == out[i].node.timeMin
    {
      SeenIs(m, ks[i], x);
    }
    if Seen(m, x).Some? {
      var i := ClosingWitness(m, now, x);
      assert t <= now && out[i].node.timeMin <= t ==> out[i].node.Covers(x, t);
    }
  }

  lemma {:induction false} ClosingWitness(m: Temps, now: Time, x: Addr) returns (i: nat)
    requires GoodMap(m) && Seen(m, x).Some?
    ensures i < |Closing(m, now)| && Closing(m, now)[i].node.HasAddr(x)
    ensures Closing(m, now)[i].node.timeMin == Seen(m, x).value.0 && Closing(m, now)[i].node.timeMax == now
  {
    var ks := SortedKeys(m.Keys);
    var k :| k in m && m[k].HasAddr(x);
    SeenIs(m, k, x);
    assert k in ks;
    i :| 0 <= i < |ks| && ks[i] == k;
  }

  lemma {:induction false} ClosingLeafExact(h: seq<Access>, now: Time, m: Temps, ls: seq<Leaf>, k: Addr)
    requires Sweep(h, now, m, ls) && k in m
    ensures LeafExact(h, m[k].Complete(now)) && m[k].timeMin <= now
    ensures forall x :: m[k].HasAddr(x) ==> Seen(m, x).Some? && Seen(m, x).value.0 == m[k].timeMin
  {
    var leaf := m[k].Complete(now);
    forall x | m[k].HasAddr(x) ensures Seen(m, x) == Some((m[k].timeMin, m[k].ByteAt(x))) {
      SeenIs(m, k, x);
    }
    NotAfterStarted(m, now);
    assert WellSized(leaf);
    forall x, t | leaf.node.Covers(x, t) ensures LastByte(h, x, t) == Some(m[k].ByteAt(x)) {
      assert m[k].HasAddr(x);
      assert SeenSince(m, x, t);
    }
  }

  lemma {:induction false} FinishApart(h: seq<Access>, now: Time, m: Temps, ls: seq<Leaf>)
    requires Sweep(h, now, m, ls)
    ensures LeavesApart(ls + Closing(m, now)) && LeavesExact(h, ls + Closing(m, now))
  {
    FinishLeaves(h, now, m, ls);
    var all := ls + Closing(m, now);
    forall i, j | 0 <= i < j < |all| ensures all[i].node.Disjoint(all[j].node) {
      if j >= |ls| {
        ApartFromClosing(h, now, m, ls, i, j - |ls|);
      }
    }
  }

  lemma {:induction false} FinishLeaves(h: seq<Access>, now: Time, m: Temps, ls: seq<Leaf>)
    requires Sweep(h, now, m, ls)
    ensures LeavesExact(h, ls + Closing(m, now))
  {
    var ks := SortedKeys(m.Keys);
    var all := ls + Closing(m, now);
    forall i | 0 <= i < |all| ensures LeafExact(h, all[i]) {
      if i >= |ls| {
        ClosingLeafExact(h, now, m, ls, ks[i - |ls|]);
      }
    }
  }

  lemma {:induction false} ApartFromClosing(h: seq<Access>, now: Time, m: Temps, ls: seq<Leaf>, i: nat, j: nat)
    requires Sweep(h, now, m, ls) && j < |Closing(m, now)| && i < |ls| + j
    ensures (ls + Closing(m, now))[i].node.Disjoint(Closing(m, now)[j].node)
  {
    var ks := SortedKeys(m.Keys);
    if i < |ls| {
      var a, b := ls[i].node, Closing(m, now)[j].node;
      ClosingLeafExact(h, now, m, ls, ks[j]);
      var x := MaxAddr(a.addrMin, b.addrMin);
      assert a.HasAddr(x) && b.HasAddr(x) ==> m[ks[j]].HasAddr(x) && a.timeMax < b.timeMin;
      assert LeafExact(h, ls[i]);
    } else {
      assert ks[i - |ls|] < ks[j];
    }
  }

  lemma {:induction false} FinishCovers(h: seq<Access>, now: Time, m: Temps, ls: seq<Leaf>)
    requires Sweep(h, now, m, ls)
    ensures forall x, t :: t <= now && LastByte(h, x, t).Some? ==> ClosedCovers(ls + Closing(m, now), x, t)
    ensures forall x, t :: WrittenAt(h, x, t) <==> ClosedStarts(ls + Closing(m, now), x, t)
  {
    var closing := Closing(m, now);
    forall x, t
      ensures t <= now && LastByte(h, x, t).Some? ==> ClosedCovers(ls + closing, x, t)
      ensures WrittenAt(h, x, t) <==> ClosedStarts(ls + closing, x, t)
    {
      ClosedConcat(ls, closing, x, t);
      ClosingAt(m, now, x, t);
    }
  }

  lemma {:induction false} PastEnds(h: seq<Access>, now: Time, m: Temps, ls: seq<Leaf>, i: nat)
    requires Sweep(h, now, m, ls) && i < |ls|
    ensures ls[i].node.timeMax <= now
  {
    assert LeafExact(h, ls[i]);
    var x := ls[i].node.addrMin;
    assert ls[i].node.HasAddr(x);
    assert ls[i].node.timeMax < Seen(m, x).value.0;
  }

  /** Time-travel memory: closing the open leaves yields an exact description of the whole history. */
  lemma {:induction false} FinishExact(h: seq<Access>, now: Time, m: Temps, ls: seq<Leaf>)
    requires Sweep(h, now, m, ls)
    ensures Exact(h, now, ls + Closing(m, now))
  {
    FinishApart(h, now, m, ls);
    FinishCovers(h, now, m, ls);
    forall i | 0 <= i < |ls| + |Closing(m, now)| ensures (ls + Closing(m, now))[i].node.timeMax <= now {
      if i < |ls| {
        PastEnds(h, now, m, ls, i);
      }
    }
  }

  class DisjointPass {
    var currentTime: Time
    var temporaries: Temps
    ghost var history: seq<Access>
    ghost var emitted: seq<Leaf>

    ghost predicate Valid()
      reads this
    {
      Sweep(history, currentTime, temporaries, emitted)
    }

    constructor ()
      ensures Valid() && history == [] && emitted == [] && temporaries == map[] && currentTime == 0
    {
      currentTime, temporaries := 0, map[];
      history, emitted := [], [];
    }

    /** One memory access: returns the leaves it closes. */
    method PushMemoryWrite(time: Time, addr: Addr, bytes: seq<Byte>, data: Data, canDedup: bool)
      returns (out: seq<Leaf>)
      requires Valid() && currentTime <= time
      requires Access(time, addr, bytes, canDedup).Valid() && Carries(data, bytes)
      modifies this
      ensures Valid() && currentTime == time
      ensures history == old(history) + [Access(time, addr, bytes, canDedup)] && emitted == old(emitted) + out
      ensures (temporaries, out) == Step(old(temporaries), Access(time, addr, bytes, canDedup), data)
    {
      ghost var a := Access(time, addr, bytes, canDedup);
      NotAfterStarted(temporaries, currentTime);
      SweepStep(history, currentTime, temporaries, emitted, a, data);
      currentTime := time;
      history := history + [a];
      out := Apply(Access(time, addr, bytes, canDedup), data);
      emitted := emitted + out;
    }

    method Apply(a: Access, data: Data) returns (out: seq<Leaf>)
      requires GoodMap(temporaries) && BegunBy(temporaries, a.time) && a.Valid() && Carries(data, a.bytes)
      modifies this`temporaries
      ensures (temporaries, out) == Step(old(temporaries), a, data)
    {
      if a.canDedup {
        var duplicate := IsDuplicateWrite(temporaries, a);
        if duplicate {
          out := [];
          return;
        }
      }
      out := WriteOver(a.Open(data));
    }

    /** Splits the open leaves under `w`, then edits the working set. */
    method WriteOver(w: Temp) returns (out: seq<Leaf>)
      requires GoodMap(temporaries) && w.Valid() && BegunBy(temporaries, w.timeMin)
      modifies this`temporaries
      ensures temporaries == Overlay(old(temporaries), w) && out == WriteOut(old(temporaries), w)
    {
      var ks := IterInRange(temporaries, w.addrMin, w.addrMax);
      IterInRangeExact(temporaries, w);
      var toAdd, toRemove, closed := SplitAll(temporaries, ks, w);
      ghost var before := temporaries;
      RemoveKeys(toRemove);
      EditsGiveOverlay(before, w, temporaries, toAdd);
      InsertPieces(toAdd);
      temporaries := temporaries[w.addrMin := w];
      out := closed;
    }

    method RemoveKeys(toRemove: seq<Addr>)
      modifies this`temporaries
      ensures temporaries == old(temporaries) - set k | k in toRemove
    {
      var i := 0;
      while i < |toRemove|
        invariant 0 <= i <= |toRemove|
        invariant temporaries == old(temporaries) - set k | k in toRemove[..i]
      {
        temporaries := temporaries - {toRemove[i]};
        assert toRemove[..i + 1] == toRemove[..i] + [toRemove[i]];
        i := i + 1;
      }
      assert toRemove[..i] == toRemove;
    }

    method InsertPieces(toAdd: seq<Temp>)
      modifies this`temporaries
      ensures temporaries == InsertAll(old(temporaries), toAdd)
    {
      var i := 0;
      while i < |toAdd|
        invariant 0 <= i <= |toAdd| && temporaries == InsertAll(old(temporaries), toAdd[..i])
      {
        assert toAdd[..i + 1][..i] == toAdd[..i];
        temporaries := temporaries[toAdd[i].addrMin := toAdd[i]];
        i := i + 1;
      }
      assert toAdd[..i] == toAdd;
    }

    /** Closes every open leaf at the current time. */
    method Finish() returns (out: seq<Leaf>)
      requires Valid()
      ensures out == Closing(temporaries, currentTime)
      ensures Exact(history, currentTime, emitted + out)
    {
      var ks := SortedKeys(temporaries.Keys);
      out := [];
      var i := 0;
      while i < |ks|
        invariant 0 <= i <= |ks| && out == ClosingOf(temporaries, ks[..i], currentTime)
      {
        assert ks[..i + 1][..i] == ks[..i];
        out := out + [temporaries[ks[i]].Complete(currentTime)];
        i := i + 1;
      }
      assert ks[..i] == ks;
      FinishExact(history, currentTime, temporaries, emitted);
    }
  }
}
