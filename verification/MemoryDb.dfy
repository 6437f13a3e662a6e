/** The memory side of the database: reading a range of memory at any time of the trace. */
module MemoryDb {
  import opened Ranges
  import opened Payload
  import opened PackedTree
  import opened Containment
  import Q = Query
  import MQ = MultiQuery
  import D = Disjoint

  datatype WriteLeaf = WriteLeaf(node: Node, packed: U64) {
    function Len(): nat
      requires node.Valid()
    {
      (node.addrMax - node.addrMin) as nat + 1
    }
  }

  function WriteBox(leaf: WriteLeaf): Node {
    leaf.node
  }

  datatype Db = Db(writeZones: seq<RTree<Node, WriteLeaf>>, rawData: seq<Byte>) {
    /** The leaf's bytes can be read. */
    ghost predicate Readable(leaf: WriteLeaf) {
      leaf.node.Valid() && (leaf.Len() > INLINE_MAX ==> leaf.packed as int + leaf.Len() <= |rawData|)
    }

    function MemLeafData(leaf: WriteLeaf): (bytes: seq<Byte>)
      requires Readable(leaf)
      ensures |bytes| == leaf.Len()
    {
      LeafBytes(leaf.packed, leaf.Len(), rawData)
    }

    ghost function ByteOf(leaf: WriteLeaf, x: Addr): Byte
      requires Readable(leaf) && leaf.node.HasAddr(x)
    {
      MemLeafData(leaf)[(x - leaf.node.addrMin) as int]
    }

    ghost function Leaves(): seq<WriteLeaf> {
      MQ.Leaves(writeZones)
    }
  }

  // ---- a database that describes a history ----

  /** Over its whole rectangle the leaf holds the last byte accessed. */
  ghost predicate Holds(db: Db, h: seq<D.Access>, leaf: WriteLeaf) {
    db.Readable(leaf) &&
    forall x, t :: leaf.node.Covers(x, t) ==> D.LastByte(h, x, t) == Some(db.ByteOf(leaf, x))
  }

  ghost predicate Apart(ls: seq<WriteLeaf>) {
    forall i, j :: 0 <= i < j < |ls| ==> ls[i].node.Disjoint(ls[j].node)
  }

  ghost predicate CoveredBy(ls: seq<WriteLeaf>, x: Addr, t: Time) {
    exists i :: 0 <= i < |ls| && ls[i].node.Covers(x, t)
  }

  ghost predicate StartedBy(ls: seq<WriteLeaf>, x: Addr, t: Time) {
    exists i :: 0 <= i < |ls| && ls[i].node.HasAddr(x) && ls[i].node.timeMin == t
  }

  ghost predicate ZoneOk(z: RTree<Node, WriteLeaf>) {
    Built(z, WriteBox) && z.bbox.Valid() && forall leaf :: leaf in z.leaves ==> z.bbox.Contains(leaf.node)
  }

  /** The leaves of the database describe the history exactly, up to `end`. */
  ghost predicate Describes(db: Db, h: seq<D.Access>, end: Time) {
    && (forall i :: 0 <= i < |db.writeZones| ==> ZoneOk(db.writeZones[i]))
    && (forall i :: 0 <= i < |db.Leaves()| ==> Holds(db, h, db.Leaves()[i]) && db.Leaves()[i].node.timeMax <= end)
    && Apart(db.Leaves())
    && (forall x, t :: t <= end && D.LastByte(h, x, t).Some? ==> CoveredBy(db.Leaves(), x, t))
    && (forall x, t :: D.WrittenAt(h, x, t) <==> StartedBy(db.Leaves(), x, t))
  }

  lemma {:induction false} ZoneOfLeaf(zs: seq<RTree<Node, WriteLeaf>>, leaf: WriteLeaf) returns (i: nat)
    requires leaf in MQ.Leaves(zs)
    ensures i < |zs| && leaf in zs[i].leaves
  {
    var last := |zs| - 1;
    if leaf in zs[last].leaves {
      i := last;
    } else {
      i := ZoneOfLeaf(zs[..last], leaf);
    }
  }

  lemma {:induction false} LeafOfZone(zs: seq<RTree<Node, WriteLeaf>>, i: nat, leaf: WriteLeaf)
    requires i < |zs| && leaf in zs[i].leaves
    ensures leaf in MQ.Leaves(zs)
  {
    if i < |zs| - 1 {
      LeafOfZone(zs[..|zs| - 1], i, leaf);
    }
  }

  // ---- fetching ----

  datatype Fetch = Fetch(validTimes: TimeRange, bytes: array<Option<Byte>>, isComplete: bool)

  /** What the processed leaves say about one address. */
  ghost predicate SlotIs(db: Db, ls: seq<WriteLeaf>, x: Addr, t: Time, v: Option<Byte>) {
    match v
    case None => !CoveredBy(ls, x, t)
    case Some(b) =>
      exists i :: 0 <= i < |ls| && ls[i].node.Covers(x, t) && db.Readable(ls[i]) && db.ByteOf(ls[i], x) == b
  }

  ghost function CountSome(s: seq<Option<Byte>>): nat {
    if s == [] then 0 else CountSome(s[..|s| - 1]) + if s[|s| - 1].Some? then 1 else 0
  }

  lemma {:induction false} CountSomeConcat(a: seq<Option<Byte>>, b: seq<Option<Byte>>)
    ensures CountSome(a + b) == CountSome(a) + CountSome(b)
  {
    if b == [] {
      assert a + b == a;
    } else {
      CountSomeConcat(a, b[..|b| - 1]);
      assert (a + b)[..|a + b| - 1] == a + b[..|b| - 1];
    }
  }

  lemma {:induction false} CountSomeBound(s: seq<Option<Byte>>)
    ensures CountSome(s) <= |s|
    ensures CountSome(s) == |s| <==> forall i :: 0 <= i < |s| ==> s[i].Some?
    ensures CountSome(s) == 0 <==> forall i :: 0 <= i < |s| ==> s[i].None?
  {
    if s != [] {
      CountSomeBound(s[..|s| - 1]);
      assert s == s[..|s| - 1] + [s[|s| - 1]];
    }
  }

  /** `after` is `before` with `data` written from `off` on. */
  ghost predicate Filled(before: seq<Option<Byte>>, after: seq<Option<Byte>>, off: nat, data: seq<Byte>) {
    && |after| == |before| && off + |data| <= |before|
    && (forall i :: 0 <= i < |before| && !(off <= i < off + |data|) ==> after[i] == before[i])
    && (forall i :: off <= i < off + |data| ==> after[i] == Some(data[i - off]))
  }

  lemma {:induction false} FilledCount(before: seq<Option<Byte>>, after: seq<Option<Byte>>, off: nat, data: seq<Byte>)
    requires Filled(before, after, off, data)
    requires forall i :: off <= i < off + |data| ==> before[i].None?
    ensures CountSome(after) == CountSome(before) + |data|
  {
    var end := off + |data|;
    SplitCount(before, off, end);
    SplitCount(after, off, end);
    CountSomeBound(before[off..end]);
    CountSomeBound(after[off..end]);
    assert before[..off] == after[..off] && before[end..] == after[end..];
  }

  lemma {:induction false} SplitCount(s: seq<Option<Byte>>, i: nat, j: nat)
    requires i <= j <= |s|
    ensures CountSome(s) == CountSome(s[..i]) + CountSome(s[i..j]) + CountSome(s[j..])
  {
    assert s == s[..i] + s[i..j] + s[j..];
    CountSomeConcat(s[..i] + s[i..j], s[j..]);
    CountSomeConcat(s[..i], s[i..j]);
  }

  /** Copies one leaf's bytes into the slots. */
  method FillSlots(slots: array<Option<Byte>>, off: nat, data: seq<Byte>)
    requires off + |data| <= slots.Length
    modifies slots
    ensures Filled(old(slots[..]), slots[..], off, data)
  {
    var i := 0;
    while i < |data|
      invariant 0 <= i <= |data|
      invariant forall k :: 0 <= k < slots.Length && !(off <= k < off + i) ==> slots[k] == old(slots[k])
      invariant forall k :: off <= k < off + i ==> slots[k] == Some(data[k - off])
    {
      slots[off + i] := Some(data[i]);
      i := i + 1;
    }
  }

  lemma {:induction false} PassingApart(ls: seq<WriteLeaf>, fl: WriteLeaf -> bool, from: nat)
    requires Apart(ls)
    ensures Apart(Q.Passing(ls, fl, from))
    decreases |ls| - from
  {
    if from < |ls| {
      PassingApart(ls, fl, from + 1);
      var rest := Q.Passing(ls, fl, from + 1);
      forall k | 0 <= k < |rest| ensures ls[from].node.Disjoint(rest[k].node) {
        Q.PassingMember(ls, fl, from + 1, rest[k]);
      }
    }
  }

  // ---- the query behind a fetch ----

  predicate Meets(rect: Node, leaf: WriteLeaf) {
    !rect.Disjoint(leaf.node)
  }

  predicate MeetsNode(rect: Node, n: Node) {
    !rect.Disjoint(n)
  }

  lemma {:induction false} IntersectsKeeps(db: Db, h: seq<D.Access>, end: Time, rect: Node)
    requires Describes(db, h, end)
    ensures MQ.AllKeep(db.writeZones, (n: Node) => MeetsNode(rect, n), (leaf: WriteLeaf) => Meets(rect, leaf))
    ensures MQ.Lossless(db.writeZones, (n: Node) => MeetsNode(rect, n), (leaf: WriteLeaf) => Meets(rect, leaf))
  {
    var fn, fl := (n: Node) => MeetsNode(rect, n), (leaf: WriteLeaf) => Meets(rect, leaf);
    assert Monotone(fn, fl, WriteBox);
    forall i | 0 <= i < |db.writeZones| ensures db.writeZones[i].Shape() && Q.Keeps(db.writeZones[i], fn, fl) {
      assert ZoneOk(db.writeZones[i]);
      MonotoneKeeps(db.writeZones[i], WriteBox, fn, fl);
    }
    forall t, leaf | t in db.writeZones && leaf in t.leaves && fl(leaf) ensures fn(t.bbox) {
      var i :| 0 <= i < |db.writeZones| && db.writeZones[i] == t;
      assert ZoneOk(db.writeZones[i]);
    }
  }

  /** The leaves of the database that meet a rectangle. */
  ghost function Meeting(db: Db, rect: Node): seq<WriteLeaf> {
    Q.Passing(db.Leaves(), (leaf: WriteLeaf) => Meets(rect, leaf), 0)
  }

  lemma {:induction false} MeetingMember(db: Db, rect: Node, leaf: WriteLeaf)
    ensures leaf in Meeting(db, rect) <==> Meets(rect, leaf) && leaf in db.Leaves()
  {
    Q.PassingIn(db.Leaves(), (l: WriteLeaf) => Meets(rect, l), 0, leaf);
    assert db.Leaves()[0..] == db.Leaves();
  }

  lemma {:induction false} MeetingCovers(db: Db, rect: Node, x: Addr, t: Time)
    requires rect.Covers(x, t)
    ensures CoveredBy(Meeting(db, rect), x, t) <==> CoveredBy(db.Leaves(), x, t)
  {
    var all, hits := db.Leaves(), Meeting(db, rect);
    if i :| 0 <= i < |all| && all[i].node.Covers(x, t) {
      MeetingMember(db, rect, all[i]);
      var k :| 0 <= k < |hits| && hits[k] == all[i];
    }
    if i :| 0 <= i < |hits| && hits[i].node.Covers(x, t) {
      MeetingMember(db, rect, hits[i]);
      var k :| 0 <= k < |all| && all[k] == hits[i];
    }
  }

  lemma {:induction false} MeetingIs(db: Db, h: seq<D.Access>, end: Time, rect: Node)
    requires Describes(db, h, end)
    ensures Apart(Meeting(db, rect))
    ensures forall i :: 0 <= i < |Meeting(db, rect)| ==>
              Meets(rect, Meeting(db, rect)[i]) && Holds(db, h, Meeting(db, rect)[i])
    ensures forall x, t :: rect.Covers(x, t) ==> (CoveredBy(Meeting(db, rect), x, t) <==> CoveredBy(db.Leaves(), x, t))
  {
    var hits := Meeting(db, rect);
    PassingApart(db.Leaves(), (leaf: WriteLeaf) => Meets(rect, leaf), 0);
    forall i | 0 <= i < |hits| ensures Meets(rect, hits[i]) && Holds(db, h, hits[i]) {
      MeetingMember(db, rect, hits[i]);
      var k :| 0 <= k < |db.Leaves()| && db.Leaves()[k] == hits[i];
    }
    forall x, t | rect.Covers(x, t) ensures CoveredBy(hits, x, t) <==> CoveredBy(db.Leaves(), x, t) {
      MeetingCovers(db, rect, x, t);
    }
  }

  // ---- the loop of a fetch ----

  ghost predicate FetchState(db: Db, range: AddrRange, t: Time, done: seq<WriteLeaf>, slots: seq<Option<Byte>>,
                             lo: Time, hi: Time, fillCount: nat)
    requires range.Valid()
  {
    && |slots| == (range.max - range.min) as nat + 1
    && (forall x :: range.Contains(x) ==> SlotIs(db, done, x, t, slots[x - range.min]))
    && fillCount == CountSome(slots)
    && lo <= t <= hi
    && forall u: Time :: lo <= u <= hi <==> AllLive(done, u)
  }

  ghost predicate AllLive(ls: seq<WriteLeaf>, u: Time) {
    forall j :: 0 <= j < |ls| ==> ls[j].node.timeMin <= u <= ls[j].node.timeMax
  }

  lemma {:induction false} AllLiveMore(ls: seq<WriteLeaf>, leaf: WriteLeaf, u: Time)
    ensures AllLive(ls + [leaf], u) <==> AllLive(ls, u) && leaf.node.timeMin <= u <= leaf.node.timeMax
  {
    var more := ls + [leaf];
    assert more[|ls|] == leaf && forall j :: 0 <= j < |ls| ==> more[j] == ls[j];
  }

  /** First address shared by the range and the leaf. */
  function From(range: AddrRange, leaf: WriteLeaf): Addr {
    MaxAddr(range.min, leaf.node.addrMin)
  }

  /** The bytes of the leaf that fall into the range. */
  function Piece(db: Db, range: AddrRange, leaf: WriteLeaf): seq<Byte>
    requires range.Valid() && db.Readable(leaf) && !range.Disjoint(leaf.node.Addrs())
  {
    var nodeOff := (From(range, leaf) - leaf.node.addrMin) as nat;
    db.MemLeafData(leaf)[nodeOff..nodeOff + PieceLen(range, leaf)]
  }

  function PieceLen(range: AddrRange, leaf: WriteLeaf): nat
    requires range.Valid() && leaf.node.Valid() && !range.Disjoint(leaf.node.Addrs())
  {
    (MinAddr(range.max, leaf.node.addrMax) - From(range, leaf)) as nat + 1
  }

  lemma {:induction false} SlotGrows(db: Db, done: seq<WriteLeaf>, leaf: WriteLeaf, x: Addr, t: Time, v: Option<Byte>)
    requires db.Readable(leaf)
    ensures !leaf.node.Covers(x, t) && SlotIs(db, done, x, t, v) ==> SlotIs(db, done + [leaf], x, t, v)
    ensures leaf.node.Covers(x, t) ==> SlotIs(db, done + [leaf], x, t, Some(db.ByteOf(leaf, x)))
  {
    var after := done + [leaf];
    assert after[|done|] == leaf;
    assert forall i :: 0 <= i < |done| ==> after[i] == done[i];
  }

  /** The slots a leaf fills were still empty: no processed leaf overlaps it. */
  lemma {:induction false} SlotsEmpty(db: Db, range: AddrRange, t: Time, done: seq<WriteLeaf>, leaf: WriteLeaf,
                                      x: Addr, v: Option<Byte>)
    requires range.Valid() && db.Readable(leaf) && leaf.node.Covers(x, t) && SlotIs(db, done, x, t, v)
    requires forall j :: 0 <= j < |done| ==> done[j].node.Disjoint(leaf.node)
    ensures v.None?
  {
    forall j | 0 <= j < |done| ensures !done[j].node.Covers(x, t) {
      assert done[j].node.Disjoint(leaf.node);
    }
  }

  lemma {:induction false} FetchStep(db: Db, range: AddrRange, t: Time, done: seq<WriteLeaf>, leaf: WriteLeaf,
                                     before: seq<Option<Byte>>, after: seq<Option<Byte>>, lo: Time, hi: Time,
                                     fillCount: nat)
    requires range.Valid() && FetchState(db, range, t, done, before, lo, hi, fillCount)
    requires db.Readable(leaf) && Meets(Node(range.min, range.max, t, t), leaf)
    requires forall j :: 0 <= j < |done| ==> done[j].node.Disjoint(leaf.node)
    requires Filled(before, after, (From(range, leaf) - range.min) as nat, Piece(db, range, leaf))
    ensures FetchState(db, range, t, done + [leaf], after, MaxTime(lo, leaf.node.timeMin),
                       MinTime(hi, leaf.node.timeMax),
                       fillCount + PieceLen(range, leaf))
  {
    forall x | range.Contains(x) ensures SlotIs(db, done + [leaf], x, t, after[x - range.min]) {
      StepSlot(db, range, t, done, leaf, before, after, x);
    }
    StepCount(db, range, t, done, leaf, before, after);
    forall u: Time
      ensures MaxTime(lo, leaf.node.timeMin) <= u <= MinTime(hi, leaf.node.timeMax) <==> AllLive(done + [leaf], u)
    {
      AllLiveMore(done, leaf, u);
    }
  }

  lemma {:induction false} StepCount(db: Db, range: AddrRange, t: Time, done: seq<WriteLeaf>, leaf: WriteLeaf,
                                     before: seq<Option<Byte>>, after: seq<Option<Byte>>)
    requires range.Valid() && db.Readable(leaf) && Meets(Node(range.min, range.max, t, t), leaf)
    requires |before| == (range.max - range.min) as nat + 1
    requires forall x :: range.Contains(x) ==> SlotIs(db, done, x, t, before[x - range.min])
    requires forall j :: 0 <= j < |done| ==> done[j].node.Disjoint(leaf.node)
    requires Filled(before, after, (From(range, leaf) - range.min) as nat, Piece(db, range, leaf))
    ensures CountSome(after) == CountSome(before) + PieceLen(range, leaf)
  {
    var off := (From(range, leaf) - range.min) as nat;
    forall i | off <= i < off + PieceLen(range, leaf) ensures before[i].None? {
      var x := range.min + i as Addr;
      assert range.Contains(x) && leaf.node.Covers(x, t);
      SlotsEmpty(db, range, t, done, leaf, x, before[i]);
    }
    FilledCount(before, after, off, Piece(db, range, leaf));
  }

  lemma {:induction false} StepSlot(db: Db, range: AddrRange, t: Time, done: seq<WriteLeaf>, leaf: WriteLeaf,
                                    before: seq<Option<Byte>>, after: seq<Option<Byte>>, x: Addr)
    requires range.Valid() && range.Contains(x) && db.Readable(leaf) && Meets(Node(range.min, range.max, t, t), leaf)
    requires |before| == (range.max - range.min) as nat + 1
    requires SlotIs(db, done, x, t, before[x - range.min])
    requires Filled(before, after, (From(range, leaf) - range.min) as nat, Piece(db, range, leaf))
    ensures SlotIs(db, done + [leaf], x, t, after[x - range.min])
  {
    SlotGrows(db, done, leaf, x, t, before[x - range.min]);
    if leaf.node.HasAddr(x) {
      var k := (x - From(range, leaf)) as nat;
      assert Piece(db, range, leaf)[k] == db.ByteOf(leaf, x);
    }
  }

  /** Copies the part of the leaf inside the range to its place. */
  method FillFrom(db: Db, range: AddrRange, slots: array<Option<Byte>>, leaf: WriteLeaf, data: seq<Byte>)
    returns (size: nat)
    requires range.Valid() && slots.Length == (range.max - range.min) as nat + 1
    requires db.Readable(leaf) && data == db.MemLeafData(leaf) && !range.Disjoint(leaf.node.Addrs())
    modifies slots
    ensures size == PieceLen(range, leaf)
    ensures Filled(old(slots[..]), slots[..], (From(range, leaf) - range.min) as nat, Piece(db, range, leaf))
  {
    var outOff, nodeOff;
    outOff, nodeOff, size := Offsets(range, leaf, slots.Length, |data|);
    FillSlots(slots, outOff, data[nodeOff..nodeOff + size]);
  }

  /** Where the part of the leaf inside the range starts, in the slots and in the leaf, and how long it is. */
  method Offsets(range: AddrRange, leaf: WriteLeaf, slotCount: nat, dataLen: nat)
    returns (outOff: nat, nodeOff: nat, size: nat)
    requires range.Valid() && leaf.node.Valid() && !range.Disjoint(leaf.node.Addrs())
    requires slotCount == (range.max - range.min) as nat + 1 && dataLen == leaf.Len()
    ensures outOff == (From(range, leaf) - range.min) as nat && outOff + size <= slotCount
    ensures nodeOff == (From(range, leaf) - leaf.node.addrMin) as nat && nodeOff + size <= dataLen
    ensures size == PieceLen(range, leaf)
  {
    if leaf.node.addrMin < range.min {
      outOff, nodeOff := 0, (range.min - leaf.node.addrMin) as nat;
    } else {
      outOff, nodeOff := (leaf.node.addrMin - range.min) as nat, 0;
    }
    size := Min(slotCount - outOff, dataLen - nodeOff);
  }

  /** Between the two times no access that is not dropped touches `x`; by then it has been accessed. */
  ghost predicate Untouched(h: seq<D.Access>, end: Time, x: Addr, t: Time, u: Time) {
    && u <= end && D.LastByte(h, x, u).Some?
    && forall v: Time :: u < v <= t || t < v <= u ==> !D.WrittenAt(h, x, v)
  }

  ghost predicate FilledUntouched(h: seq<D.Access>, end: Time, range: AddrRange, t: Time, bytes: seq<Option<Byte>>,
                                  u: Time)
    requires range.Valid() && |bytes| == (range.max - range.min) as nat + 1
  {
    forall x :: range.Contains(x) && bytes[x - range.min].Some? ==> Untouched(h, end, x, t, u)
  }

  /** What a fetch promises: each byte is the last one accessed, or unset; `valid` holds exactly the times
      between which and `t` no set byte is touched, so set bytes keep their value. */
  ghost predicate FetchedRight(h: seq<D.Access>, end: Time, range: AddrRange, t: Time, bytes: seq<Option<Byte>>,
                               valid: TimeRange, isComplete: bool)
    requires range.Valid()
  {
    && |bytes| == (range.max - range.min) as nat + 1
    && (forall x :: range.Contains(x) ==> bytes[x - range.min] == if t <= end then D.LastByte(h, x, t) else None)
    && (isComplete <==> forall i :: 0 <= i < |bytes| ==> bytes[i].Some?)
    && valid.Contains(t)
    && (forall u: Time :: valid.Contains(u) <==> FilledUntouched(h, end, range, t, bytes, u))
    && forall x, u :: range.Contains(x) && valid.Contains(u) && bytes[x - range.min].Some? ==>
         D.LastByte(h, x, u) == bytes[x - range.min]
  }

  lemma {:induction false} FetchDone(db: Db, h: seq<D.Access>, end: Time, range: AddrRange, t: Time,
                                     slots: seq<Option<Byte>>, lo: Time, hi: Time, fillCount: nat)
    requires Describes(db, h, end) && range.Valid()
    requires FetchState(db, range, t, Meeting(db, Node(range.min, range.max, t, t)), slots, lo, hi, fillCount)
    ensures FetchedRight(h, end, range, t, slots, TimeRange(lo, hi), fillCount == |slots|)
  {
    var rect := Node(range.min, range.max, t, t);
    var hits := Meeting(db, rect);
    MeetingIs(db, h, end, rect);
    CountSomeBound(slots);
    assert AllLive(hits, lo) && AllLive(hits, hi);
    forall u: Time ensures TimeRange(lo, hi).Contains(u) <==> FilledUntouched(h, end, range, t, slots, u) {
      LiveIsUntouched(db, h, end, range, t, slots, u);
    }
    forall x | range.Contains(x)
      ensures slots[x - range.min] == if t <= end then D.LastByte(h, x, t) else None
      ensures forall u :: lo <= u <= hi && slots[x - range.min].Some? ==> D.LastByte(h, x, u) == slots[x - range.min]
    {
      SlotRight(db, h, end, rect, x, t, slots[x - range.min], lo, hi);
    }
  }

  lemma {:induction false} LastByteStays(h: seq<D.Access>, x: Addr, t: Time, u: Time)
    requires D.LastByte(h, x, t).Some? && t <= u
    ensures D.LastByte(h, x, u).Some?
  {
    if h != [] {
      var a := h[|h| - 1];
      if !(a.time <= t && a.HasAddr(x)) {
        LastByteStays(h[..|h| - 1], x, t, u);
      }
    }
  }

  /** The leaf that covers a point is live exactly at the times between which and the point the address is untouched. */
  lemma {:induction false} LeafSpan(db: Db, h: seq<D.Access>, end: Time, i: nat, x: Addr, t: Time, u: Time)
    requires Describes(db, h, end) && i < |db.Leaves()| && db.Leaves()[i].node.Covers(x, t)
    ensures db.Leaves()[i].node.timeMin <= u <= db.Leaves()[i].node.timeMax <==> Untouched(h, end, x, t, u)
  {
    var n := db.Leaves()[i].node;
    assert Holds(db, h, db.Leaves()[i]) && n.timeMax <= end;
    if n.timeMin <= u <= n.timeMax {
      assert n.Covers(x, u);
      forall v: Time | u < v <= t || t < v <= u ensures !D.WrittenAt(h, x, v) {
        NoStartInside(db, h, end, i, x, v);
      }
    } else if u < n.timeMin {
      assert StartedBy(db.Leaves(), x, n.timeMin);
    } else if u <= end {
      assert D.LastByte(h, x, t).Some?;
      LastByteStays(h, x, t, n.timeMax + 1);
      NextStart(db, h, end, i, x);
    }
  }

  lemma {:induction false} NoStartInside(db: Db, h: seq<D.Access>, end: Time, i: nat, x: Addr, v: Time)
    requires Describes(db, h, end) && i < |db.Leaves()| && db.Leaves()[i].node.HasAddr(x)
    requires db.Leaves()[i].node.timeMin < v <= db.Leaves()[i].node.timeMax
    ensures !D.WrittenAt(h, x, v)
  {
    if D.WrittenAt(h, x, v) {
      assert StartedBy(db.Leaves(), x, v);
      var k :| 0 <= k < |db.Leaves()| && db.Leaves()[k].node.HasAddr(x) && db.Leaves()[k].node.timeMin == v;
      assert Holds(db, h, db.Leaves()[k]);
      OneLeaf(db, h, end, i, k, x, v);
    }
  }

  lemma {:induction false} OneLeaf(db: Db, h: seq<D.Access>, end: Time, i: nat, k: nat, x: Addr, t: Time)
    requires Describes(db, h, end) && i < |db.Leaves()| && k < |db.Leaves()|
    requires db.Leaves()[i].node.Covers(x, t) && db.Leaves()[k].node.Covers(x, t)
    ensures i == k
  {
    assert Apart(db.Leaves());
  }

  /** Where a leaf ends before the history does, its addresses are touched at the next instant. */
  lemma {:induction false} NextStart(db: Db, h: seq<D.Access>, end: Time, i: nat, x: Addr)
    requires Describes(db, h, end) && i < |db.Leaves()| && db.Leaves()[i].node.HasAddr(x)
    requires db.Leaves()[i].node.timeMax < end && D.LastByte(h, x, db.Leaves()[i].node.timeMax + 1).Some?
    ensures D.WrittenAt(h, x, db.Leaves()[i].node.timeMax + 1)
  {
    var n := db.Leaves()[i].node;
    var next := n.timeMax + 1;
    assert CoveredBy(db.Leaves(), x, next);
    var k :| 0 <= k < |db.Leaves()| && db.Leaves()[k].node.Covers(x, next);
    assert Holds(db, h, db.Leaves()[i]);
    if db.Leaves()[k].node.timeMin <= n.timeMax {
      OneLeaf(db, h, end, i, k, x, n.timeMax);
    }
    assert StartedBy(db.Leaves(), x, next);
  }

  lemma {:induction false} LiveIsUntouched(db: Db, h: seq<D.Access>, end: Time, range: AddrRange, t: Time,
                                           slots: seq<Option<Byte>>, u: Time)
    requires Describes(db, h, end) && range.Valid() && |slots| == (range.max - range.min) as nat + 1
    requires forall x :: range.Contains(x) ==>
               SlotIs(db, Meeting(db, Node(range.min, range.max, t, t)), x, t, slots[x - range.min])
    ensures AllLive(Meeting(db, Node(range.min, range.max, t, t)), u) <==> FilledUntouched(h, end, range, t, slots, u)
  {
    var rect := Node(range.min, range.max, t, t);
    var hits := Meeting(db, rect);
    if AllLive(hits, u) {
      forall x | range.Contains(x) && slots[x - range.min].Some? ensures Untouched(h, end, x, t, u) {
        LiveSlot(db, h, end, rect, t, x, slots[x - range.min], u);
      }
    }
    if FilledUntouched(h, end, range, t, slots, u) {
      forall j | 0 <= j < |hits| ensures hits[j].node.timeMin <= u <= hits[j].node.timeMax {
        var x := HitAddr(db, h, end, rect, j);
        HitSpan(db, h, end, rect, j, x, t, u);
        assert CoveredBy(hits, x, t) && range.Contains(x);
      }
    }
  }

  lemma {:induction false} LiveSlot(db: Db, h: seq<D.Access>, end: Time, rect: Node, t: Time, x: Addr,
                                    v: Option<Byte>, u: Time)
    requires Describes(db, h, end) && SlotIs(db, Meeting(db, rect), x, t, v) && v.Some? && AllLive(Meeting(db, rect), u)
    ensures Untouched(h, end, x, t, u)
  {
    var hits := Meeting(db, rect);
    var i :| 0 <= i < |hits| && hits[i].node.Covers(x, t);
    HitSpan(db, h, end, rect, i, x, t, u);
  }

  /** Some address of the rectangle in the leaf. */
  lemma {:induction false} HitAddr(db: Db, h: seq<D.Access>, end: Time, rect: Node, j: nat) returns (x: Addr)
    requires Describes(db, h, end) && j < |Meeting(db, rect)| && rect.Valid() && rect.timeMin == rect.timeMax
    ensures rect.addrMin <= x <= rect.addrMax && Meeting(db, rect)[j].node.Covers(x, rect.timeMin)
  {
    MeetingIs(db, h, end, rect);
    var leaf := Meeting(db, rect)[j];
    assert Meets(rect, leaf) && Holds(db, h, leaf);
    x := MaxAddr(rect.addrMin, leaf.node.addrMin);
  }

  lemma {:induction false} HitSpan(db: Db, h: seq<D.Access>, end: Time, rect: Node, i: nat, x: Addr, t: Time, u: Time)
    requires Describes(db, h, end) && i < |Meeting(db, rect)| && Meeting(db, rect)[i].node.Covers(x, t)
    ensures Meeting(db, rect)[i].node.timeMin <= u <= Meeting(db, rect)[i].node.timeMax <==> Untouched(h, end, x, t, u)
  {
    var k := HitIndex(db, rect, i);
    LeafSpan(db, h, end, k, x, t, u);
  }

  lemma {:induction false} HitIndex(db: Db, rect: Node, i: nat) returns (k: nat)
    requires i < |Meeting(db, rect)|
    ensures k < |db.Leaves()| && db.Leaves()[k] == Meeting(db, rect)[i]
  {
    Q.PassingMember(db.Leaves(), (l: WriteLeaf) => Meets(rect, l), 0, Meeting(db, rect)[i]);
    k :| 0 <= k < |db.Leaves()| && db.Leaves()[k] == Meeting(db, rect)[i];
  }

  // ---- a fetch that is not complete may go stale within its own time range ----

  ghost predicate SameAt(h: seq<D.Access>, range: AddrRange, bytes: seq<Option<Byte>>, u: Time)
    requires range.Valid() && |bytes| == (range.max - range.min) as nat + 1
  {
    forall x :: range.Contains(x) ==> D.LastByte(h, x, u) == bytes[x - range.min]
  }

  /** Some access later than `t`, up to `u`, touches an address the fetch left unset. */
  ghost predicate Late(h: seq<D.Access>, range: AddrRange, t: Time, bytes: seq<Option<Byte>>, u: Time)
    requires range.Valid() && |bytes| == (range.max - range.min) as nat + 1
  {
    exists i, x :: 0 <= i < |h| && t < h[i].time <= u && h[i].HasAddr(x) && range.Contains(x)
            && bytes[x - range.min].None?
  }

  lemma {:induction false} LastByteNone(h: seq<D.Access>, x: Addr, t: Time)
    ensures D.LastByte(h, x, t).None? <==> forall i :: 0 <= i < |h| && h[i].time <= t ==> !h[i].HasAddr(x)
  {
    if h != [] {
      LastByteNone(h[..|h| - 1], x, t);
    }
  }

  /** Inside its time range the whole answer holds exactly as long as no access touches an address it left unset. */
  lemma {:induction false} FetchStaysIff(h: seq<D.Access>, end: Time, range: AddrRange, t: Time,
                                         bytes: seq<Option<Byte>>, valid: TimeRange, isComplete: bool, u: Time)
    requires range.Valid() && t <= end && FetchedRight(h, end, range, t, bytes, valid, isComplete) && valid.Contains(u)
    ensures SameAt(h, range, bytes, u) <==> !Late(h, range, t, bytes, u)
    ensures isComplete || u <= t ==> SameAt(h, range, bytes, u)
  {
    forall x | range.Contains(x) ensures D.LastByte(h, x, u) == bytes[x - range.min] || Late(h, range, t, bytes, u) {
      UnsetStays(h, range, t, bytes, u, x);
    }
    if Late(h, range, t, bytes, u) {
      var i, x :| 0 <= i < |h| && t < h[i].time <= u && h[i].HasAddr(x) && range.Contains(x)
              && bytes[x - range.min].None?;
      LastByteNone(h, x, u);
      assert D.LastByte(h, x, u) != bytes[x - range.min];
    }
    if isComplete {
      forall x | range.Contains(x) ensures bytes[x - range.min].Some? {
        assert bytes[(x - range.min) as int].Some?;
      }
    }
  }

  lemma {:induction false} UnsetStays(h: seq<D.Access>, range: AddrRange, t: Time, bytes: seq<Option<Byte>>, u: Time,
                                      x: Addr)
    requires range.Valid() && |bytes| == (range.max - range.min) as nat + 1 && range.Contains(x)
    requires bytes[x - range.min].Some? ==> D.LastByte(h, x, u) == bytes[x - range.min]
    requires bytes[x - range.min] == D.LastByte(h, x, t)
    ensures D.LastByte(h, x, u) == bytes[x - range.min] || Late(h, range, t, bytes, u)
  {
    if bytes[x - range.min].None? && D.LastByte(h, x, u).Some? {
      LastByteNone(h, x, t);
      LastByteNone(h, x, u);
      var i :| 0 <= i < |h| && h[i].time <= u && h[i].HasAddr(x);
      assert t < h[i].time;
    }
  }

  const EARLY: D.Access := D.Access(0, 0, [5], false)
  const LATER: D.Access := D.Access(3, 1, [6], false)

  lemma {:induction false} StaleHistory(x: Addr, t: Time)
    ensures D.LastByte([EARLY, LATER], x, t)
         == if t >= 3 && x == 1 then Some(6) else if x == 0 then Some(5) else None
    ensures D.WrittenAt([EARLY, LATER], x, t) <==> (t == 3 && x == 1) || (t == 0 && x == 0)
  {
    assert [EARLY, LATER] == [EARLY] + [LATER] && [EARLY] == [] + [EARLY];
    D.LastByteAfter([], EARLY, x, t);
    D.LastByteAfter([EARLY], LATER, x, t);
  }

  /** One byte accessed at time 0 and its neighbour at time 3: a fetch of both at time 1 claims to hold until 3. */
  lemma {:induction false} FetchGoesStale(bytes: seq<Option<Byte>>, valid: TimeRange, isComplete: bool)
    requires FetchedRight([EARLY, LATER], 3, AddrRange(0, 1), 1, bytes, valid, isComplete)
    ensures valid.Contains(3) && !isComplete && !SameAt([EARLY, LATER], AddrRange(0, 1), bytes, 3)
  {
    var range := AddrRange(0, 1);
    assert range.Contains(0) && range.Contains(1);
    StaleHistory(0, 1);
    StaleHistory(1, 1);
    StaleHistory(1, 3);
    assert bytes[0] == Some(5) && bytes[1] == None;
    forall x | range.Contains(x) && bytes[x - range.min].Some? ensures Untouched([EARLY, LATER], 3, x, 1, 3) {
      assert x == 0;
      StaleHistory(0, 3);
      forall v: Time | 3 < v <= 1 || 1 < v <= 3 ensures !D.WrittenAt([EARLY, LATER], 0, v) {
        StaleHistory(0, v);
      }
    }
  }

  lemma {:induction false} SlotRight(db: Db, h: seq<D.Access>, end: Time, rect: Node, x: Addr, t: Time,
                                     v: Option<Byte>, lo: Time, hi: Time)
    requires Describes(db, h, end) && rect.Covers(x, t) && SlotIs(db, Meeting(db, rect), x, t, v)
    requires forall j :: 0 <= j < |Meeting(db, rect)| ==>
               Meeting(db, rect)[j].node.timeMin <= lo && hi <= Meeting(db, rect)[j].node.timeMax
    ensures v == if t <= end then D.LastByte(h, x, t) else None
    ensures forall u :: lo <= u <= hi && v.Some? ==> D.LastByte(h, x, u) == v
  {
    MeetingIs(db, h, end, rect);
    var hits := Meeting(db, rect);
    match v
    case None =>
      assert !CoveredBy(db.Leaves(), x, t);
    case Some(b) =>
      var i :| 0 <= i < |hits| && hits[i].node.Covers(x, t) && db.Readable(hits[i]) && db.ByteOf(hits[i], x) == b;
      assert Holds(db, h, hits[i]);
      HitEnds(db, h, end, rect, i);
      forall u | lo <= u <= hi ensures D.LastByte(h, x, u) == v {
        assert hits[i].node.Covers(x, u);
      }
  }

  lemma {:induction false} HitEnds(db: Db, h: seq<D.Access>, end: Time, rect: Node, i: nat)
    requires Describes(db, h, end) && i < |Meeting(db, rect)|
    ensures Meeting(db, rect)[i].node.timeMax <= end
  {
    var leaf := Meeting(db, rect)[i];
    Q.PassingMember(db.Leaves(), (l: WriteLeaf) => Meets(rect, l), 0, leaf);
    var k :| 0 <= k < |db.Leaves()| && db.Leaves()[k] == leaf;
  }

  /** The leaf just yielded is the next hit, apart from those before it. */
  lemma {:induction false} NextHit(hits: seq<WriteLeaf>, done: seq<WriteLeaf>, leaf: WriteLeaf, rest: seq<WriteLeaf>)
    requires Apart(hits) && hits == done + ([leaf] + rest)
    ensures |done| < |hits| && hits[|done|] == leaf && hits == (done + [leaf]) + rest
    ensures forall j :: 0 <= j < |done| ==> done[j].node.Disjoint(leaf.node)
  {
    assert forall j :: 0 <= j < |done| ==> hits[j] == done[j];
  }

  /** One round of a fetch. */
  method CopyLeaf(db: Db, range: AddrRange, time: Time, slots: array<Option<Byte>>, leaf: WriteLeaf, lo: Time,
                  hi: Time, fillCount: nat, ghost done: seq<WriteLeaf>)
    returns (lo': Time, hi': Time, fillCount': nat)
    requires range.Valid() && FetchState(db, range, time, done, slots[..], lo, hi, fillCount)
    requires db.Readable(leaf) && Meets(Node(range.min, range.max, time, time), leaf)
    requires forall j :: 0 <= j < |done| ==> done[j].node.Disjoint(leaf.node)
    modifies slots
    ensures FetchState(db, range, time, done + [leaf], slots[..], lo', hi', fillCount')
  {
    ghost var before := slots[..];
    var size := FillFrom(db, range, slots, leaf, db.MemLeafData(leaf));
    FetchStep(db, range, time, done, leaf, before, slots[..], lo, hi, fillCount);
    lo', hi' := MaxTime(lo, leaf.node.timeMin), MinTime(hi, leaf.node.timeMax);
    fillCount' := fillCount + size;
  }

  type IntersectIter = MQ.MultiQueryIter<WriteLeaf>

  /** Copies every leaf the iterator yields, narrowing the times over which the copy is valid. */
  method CopyLeaves(db: Db, range: AddrRange, time: Time, iter: IntersectIter, slots: array<Option<Byte>>,
                    ghost hits: seq<WriteLeaf>)
    returns (lo: Time, hi: Time, fillCount: nat)
    requires range.Valid() && iter.Valid() && iter.pending == hits && Apart(hits)
    requires forall i :: 0 <= i < |hits| ==>
            db.Readable(hits[i]) && Meets(Node(range.min, range.max, time, time), hits[i])
    requires FetchState(db, range, time, [], slots[..], 0, TIME_MAX, 0)
    modifies iter, iter.repr, slots
    ensures FetchState(db, range, time, hits, slots[..], lo, hi, fillCount)
  {
    ghost var done: seq<WriteLeaf> := [];
    lo, hi, fillCount := 0, TIME_MAX, 0;
    while true
      invariant iter.Valid() && iter.repr == old(iter.repr) && done + iter.pending == hits
      invariant FetchState(db, range, time, done, slots[..], lo, hi, fillCount)
      decreases |hits| - |done|
    {
      var next := iter.Next();
      if next.None? {
        break;
      }
      var leaf := next.value;
      NextHit(hits, done, leaf, iter.pending);
      lo, hi, fillCount := CopyLeaf(db, range, time, slots, leaf, lo, hi, fillCount, done);
      done := done + [leaf];
    }
    assert done == hits;
  }

  lemma {:induction false} FetchStart(db: Db, range: AddrRange, t: Time, slots: seq<Option<Byte>>)
    requires range.Valid() && |slots| == (range.max - range.min) as nat + 1
    requires forall i :: 0 <= i < |slots| ==> slots[i].None?
    ensures FetchState(db, range, t, [], slots, 0, TIME_MAX, 0)
  {
    CountSomeBound(slots);
  }

  /** A query for all leaves that meet a rectangle. */
  method MemWriteIntersects(db: Db, rect: Node, ghost h: seq<D.Access>, ghost end: Time) returns (iter: IntersectIter)
    requires Describes(db, h, end)
    ensures fresh(iter) && fresh(iter.repr) && iter.Valid() && iter.pending == Meeting(db, rect)
  {
    IntersectsKeeps(db, h, end, rect);
    MQ.HitsAreFilter(db.writeZones, (n: Node) => MeetsNode(rect, n), (leaf: WriteLeaf) => Meets(rect, leaf));
    iter := new MQ.MultiQueryIter(db.writeZones, (n: Node) => MeetsNode(rect, n),
                                  (leaf: WriteLeaf) => Meets(rect, leaf));
  }

  /** Memory content of an address range at any time of the trace. */
  method FetchAt(db: Db, range: AddrRange, time: Time, ghost h: seq<D.Access>, ghost end: Time) returns (r: Fetch)
    requires Describes(db, h, end) && range.Valid()
    ensures FetchedRight(h, end, range, time, r.bytes[..], r.validTimes, r.isComplete)
  {
    var rect := Node(range.min, range.max, time, time);
    var slots := new Option<Byte>[(range.max - range.min) as nat + 1](_ => None);
    FetchStart(db, range, time, slots[..]);
    MeetingIs(db, h, end, rect);
    var iter := MemWriteIntersects(db, rect, h, end);
    var lo, hi, fillCount := CopyLeaves(db, range, time, iter, slots, Meeting(db, rect));
    FetchDone(db, h, end, range, time, slots[..], lo, hi, fillCount);
    r := Fetch(TimeRange(lo, hi), slots, fillCount == slots.Length);
  }
}
