/** Machine integers, inclusive ranges, (address x time) rectangles and value matchers. */
module Ranges {

  newtype U64 = x: int | 0 <= x < 0x1_0000_0000_0000_0000
  newtype U32 = x: int | 0 <= x < 0x1_0000_0000
  newtype Byte = x: int | 0 <= x < 0x100

  type Addr = U64
  type Time = U32

  const ADDR_MAX: Addr := 0xFFFF_FFFF_FFFF_FFFF
  const TIME_MAX: Time := 0xFFFF_FFFF

  datatype Option<+T> = None | Some(value: T)

  /** An inclusive range of addresses or register values. */
  datatype AddrRange = AddrRange(min: U64, max: U64) {
    predicate Valid() {
      min <= max
    }

    predicate Contains(x: U64) {
      min <= x && x <= max
    }

    predicate Disjoint(other: AddrRange) {
      max < other.min || min > other.max
    }
  }

  /** An inclusive range of times. */
  datatype TimeRange = TimeRange(min: Time, max: Time) {
    predicate Valid() {
      min <= max
    }

    predicate Contains(t: Time) {
      min <= t && t <= max
    }

    predicate Disjoint(other: TimeRange) {
      max < other.min || min > other.max
    }

    function Intersection(other: TimeRange): (r: Option<TimeRange>)
      requires Valid() && other.Valid()
      ensures r.Some? <==> exists t :: Contains(t) && other.Contains(t)
      ensures r.Some? ==> r.value.Valid() && forall t :: r.value.Contains(t) <==> Contains(t) && other.Contains(t)
    {
      if other.min > max then None
      else if min > other.max then None
      else
        var lo := if min < other.min then other.min else min;
        var hi := if max < other.max then max else other.max;
        assert Contains(lo) && other.Contains(lo);
        Some(TimeRange(lo, hi))
    }

    function MinDistance(t: Time): Time {
      if t < min then min - t
      else if max < t then t - max
      else 0
    }
  }

  function AbsDiff(a: Time, b: Time): Time {
    if a < b then b - a else a - b
  }

  function MinAddr(a: U64, b: U64): U64 {
    if a < b then a else b
  }

  function MaxAddr(a: U64, b: U64): U64 {
    if a < b then b else a
  }

  function MinTime(a: Time, b: Time): Time {
    if a < b then a else b
  }

  function MaxTime(a: Time, b: Time): Time {
    if a < b then b else a
  }

  /** A rectangle of the (address x time) plane; register nodes use the value as first coordinate. */
  datatype Node = Node(addrMin: U64, addrMax: U64, timeMin: Time, timeMax: Time) {
    predicate Valid() {
      addrMin <= addrMax && timeMin <= timeMax
    }

    function Addrs(): AddrRange {
      AddrRange(addrMin, addrMax)
    }

    function Times(): TimeRange {
      TimeRange(timeMin, timeMax)
    }

    predicate HasAddr(x: U64) {
      addrMin <= x <= addrMax
    }

    predicate Covers(x: U64, t: Time) {
      addrMin <= x <= addrMax && timeMin <= t <= timeMax
    }

    predicate Disjoint(other: Node) {
      Addrs().Disjoint(other.Addrs()) || Times().Disjoint(other.Times())
    }

    predicate Contains(other: Node) {
      && addrMin <= other.addrMin && other.addrMax <= addrMax
      && timeMin <= other.timeMin && other.timeMax <= timeMax
    }

    function Extend(other: Node): Node {
      Node(MinAddr(addrMin, other.addrMin), MaxAddr(addrMax, other.addrMax),
           MinTime(timeMin, other.timeMin), MaxTime(timeMax, other.timeMax))
    }
  }

  /** `Disjoint` is what its name says about points. */
  lemma {:induction false} DisjointIsNoCommonPoint(a: Node, b: Node)
    requires a.Valid() && b.Valid()
    ensures a.Disjoint(b) <==> forall x, t :: !(a.Covers(x, t) && b.Covers(x, t))
  {
    var x := MaxAddr(a.addrMin, b.addrMin);
    var t := MaxTime(a.timeMin, b.timeMin);
    if !a.Disjoint(b) {
      assert a.Covers(x, t) && b.Covers(x, t);
    }
  }

  // ---- fragmentation of one rectangle by another ----

  function LeftPart(self: Node, other: Node): seq<Node> {
    if other.addrMin > self.addrMin then [self.(addrMax := other.addrMin - 1)] else []
  }

  function RightPart(self: Node, other: Node): seq<Node> {
    if other.addrMax < self.addrMax then [self.(addrMin := other.addrMax + 1)] else []
  }

  /** The address columns shared by both rectangles, over the whole time of `self`. */
  function Middle(self: Node, other: Node): Node {
    self.(addrMin := MaxAddr(other.addrMin, self.addrMin), addrMax := MinAddr(other.addrMax, self.addrMax))
  }

  function BeforePart(self: Node, other: Node): seq<Node> {
    if other.timeMin > self.timeMin then [Middle(self, other).(timeMax := other.timeMin - 1)] else []
  }

  function AfterPart(self: Node, other: Node): seq<Node> {
    if other.timeMax < self.timeMax then [Middle(self, other).(timeMin := other.timeMax + 1)] else []
  }

  function Fragments(self: Node, other: Node): seq<Node> {
    if self.Disjoint(other) then [self]
    else LeftPart(self, other) + RightPart(self, other) + BeforePart(self, other) + AfterPart(self, other)
  }

  /** Appends to `fragments` the parts of `self` outside `other`, in the order of the source. */
  method FragmentBy(self: Node, other: Node, fragments: seq<Node>) returns (out: seq<Node>)
    requires self.Valid() && other.Valid()
    ensures out == fragments + Fragments(self, other)
  {
    out := fragments;
    if self.Disjoint(other) {
      out := out + [self];
      return;
    }

    var floorAddr := MaxAddr(other.addrMin, self.addrMin);
    if other.addrMin > self.addrMin {
      out := out + [Node(self.addrMin, other.addrMin - 1, self.timeMin, self.timeMax)];
    }
    var ceilAddr := MinAddr(other.addrMax, self.addrMax);
    if other.addrMax < self.addrMax {
      out := out + [Node(other.addrMax + 1, self.addrMax, self.timeMin, self.timeMax)];
    }
    if other.timeMin > self.timeMin {
      out := out + [Node(floorAddr, ceilAddr, self.timeMin, other.timeMin - 1)];
    }
    if other.timeMax < self.timeMax {
      out := out + [Node(floorAddr, ceilAddr, other.timeMax + 1, self.timeMax)];
    }
  }

  ghost predicate SomeCovers(ns: seq<Node>, x: U64, t: Time) {
    exists i :: 0 <= i < |ns| && ns[i].Covers(x, t)
  }

  ghost predicate PairwiseDisjoint(ns: seq<Node>) {
    forall i, j :: 0 <= i < j < |ns| ==> ns[i].Disjoint(ns[j])
  }

  /** The fragments tile exactly the part of `self` outside `other`. */
  lemma {:induction false} FragmentsPartition(self: Node, other: Node)
    requires self.Valid() && other.Valid()
    ensures PairwiseDisjoint(Fragments(self, other))
    ensures forall f :: f in Fragments(self, other) ==> f.Valid() && self.Contains(f) && f.Disjoint(other)
    ensures forall x, t :: SomeCovers(Fragments(self, other), x, t) <==> self.Covers(x, t) && !other.Covers(x, t)
  {
    FragmentsApart(self, other);
    FragmentsInside(self, other);
    forall x, t
      ensures SomeCovers(Fragments(self, other), x, t) <==> self.Covers(x, t) && !other.Covers(x, t)
    {
      if self.Disjoint(other) {
        SomeCoversShort([self], x, t);
      } else {
        FragmentsAt(self, other, x, t);
      }
    }
  }

  lemma {:induction false} FragmentsApart(self: Node, other: Node)
    requires self.Valid() && other.Valid()
    ensures PairwiseDisjoint(Fragments(self, other))
  {
  }

  lemma {:induction false} FragmentsInside(self: Node, other: Node)
    requires self.Valid() && other.Valid()
    ensures forall f :: f in Fragments(self, other) ==> f.Valid() && self.Contains(f) && f.Disjoint(other)
  {
  }

  lemma {:induction false} FragmentsAt(self: Node, other: Node, x: U64, t: Time)
    requires self.Valid() && other.Valid() && !self.Disjoint(other)
    ensures SomeCovers(Fragments(self, other), x, t) <==> self.Covers(x, t) && !other.Covers(x, t)
  {
    var l, r, b, a := LeftPart(self, other), RightPart(self, other), BeforePart(self, other), AfterPart(self, other);
    SomeCoversConcat(l, r, x, t);
    SomeCoversConcat(l + r, b, x, t);
    SomeCoversConcat(l + r + b, a, x, t);
    assert SomeCovers(l, x, t) <==> self.Covers(x, t) && x < other.addrMin by { SomeCoversShort(l, x, t); }
    assert SomeCovers(r, x, t) <==> self.Covers(x, t) && x > other.addrMax by { SomeCoversShort(r, x, t); }
    assert SomeCovers(b, x, t) <==> self.Covers(x, t) && other.HasAddr(x) && t < other.timeMin by {
      SomeCoversShort(b, x, t);
    }
    assert SomeCovers(a, x, t) <==> self.Covers(x, t) && other.HasAddr(x) && t > other.timeMax by {
      SomeCoversShort(a, x, t);
    }
  }

  lemma {:induction false} SomeCoversShort(ns: seq<Node>, x: U64, t: Time)
    requires |ns| <= 1
    ensures SomeCovers(ns, x, t) <==> ns != [] && ns[0].Covers(x, t)
  {
  }

  lemma {:induction false} SomeCoversConcat(a: seq<Node>, b: seq<Node>, x: U64, t: Time)
    ensures SomeCovers(a + b, x, t) <==> SomeCovers(a, x, t) || SomeCovers(b, x, t)
  {
    if SomeCovers(a, x, t) {
      var i :| 0 <= i < |a| && a[i].Covers(x, t);
      assert (a + b)[i] == a[i];
    }
    if SomeCovers(b, x, t) {
      var i :| 0 <= i < |b| && b[i].Covers(x, t);
      assert (a + b)[|a| + i] == b[i];
    }
  }

  // ---- matchers over one dimension ----

  datatype Matcher = One(value: U64) | Within(range: AddrRange) | AnyOf(items: seq<U64>) {
    predicate Valid() {
      Within? ==> range.Valid()
    }

    predicate Scalar(x: U64) {
      match this
      case One(v) => v == x
      case Within(r) => r.Contains(x)
      case AnyOf(items) => x in items
    }

    predicate Range(r: AddrRange) {
      match this
      case One(v) => r.Contains(v)
      case Within(w) => !w.Disjoint(r)
      case AnyOf(items) => exists i :: 0 <= i < |items| && r.Contains(items[i])
    }
  }

  /** A matcher accepts a range exactly when it accepts some value of it. */
  lemma {:induction false} MatchRangeIsSomeScalar(m: Matcher, r: AddrRange)
    requires m.Valid() && r.Valid()
    ensures m.Range(r) <==> exists x :: r.Contains(x) && m.Scalar(x)
  {
    match m
    case One(v) =>
      assert m.Scalar(v);
    case Within(w) =>
      var x := MaxAddr(w.min, r.min);
      assert m.Range(r) ==> r.Contains(x) && m.Scalar(x);
    case AnyOf(items) =>
      if m.Range(r) {
        var i :| 0 <= i < |items| && r.Contains(items[i]);
        assert m.Scalar(items[i]);
      }
  }

  /** A single value is a range of one, a list accepts what one of its values accepts, a range what lies neither below
      nor above it; and a value is accepted as the range it makes up. */
  lemma {:induction false} MatchersAgree(v: U64, r: AddrRange, items: seq<U64>, m: Matcher, x: U64)
    requires m.Valid()
    ensures One(v).Scalar(x) <==> Within(AddrRange(v, v)).Scalar(x)
    ensures AnyOf(items).Scalar(x) <==> exists i :: 0 <= i < |items| && One(items[i]).Scalar(x)
    ensures Within(r).Scalar(x) <==> !(x < r.min || r.max < x)
    ensures m.Scalar(x) <==> m.Range(AddrRange(x, x))
  {
    MatchRangeIsSomeScalar(m, AddrRange(x, x));
  }
}
