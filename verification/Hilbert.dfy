/** The coordinates leaves are sorted by: spread over the whole word without losing a bit. */
module Hilbert {
  import opened Ranges
  import opened PackedTree
  import opened MemoryDb
  import opened Index
  import opened Registers
  import RI = RegisterIndex
  import P = Partition

  // ---- bits ----

  function Log2(n: nat): (k: nat)
    requires n > 0
    ensures Pow2(k) <= n < Pow2(k + 1)
  {
    if n == 1 then 0 else 1 + Log2(n / 2)
  }

  /** Bits needed for the values of a range, counted from its start. */
  function SpanBits(min: nat, max: nat): (bits: nat)
    requires min <= max
    ensures bits >= 1 && max - min < Pow2(bits) && (bits > 1 ==> Pow2(bits - 1) <= max - min)
  {
    (if max == min then 0 else Log2(max - min)) + 1
  }

  lemma {:induction false} Pow2Monotone(a: nat, b: nat)
    requires a <= b
    ensures Pow2(a) <= Pow2(b)
  {
    if a < b {
      Pow2Monotone(a, b - 1);
    }
  }

  lemma {:induction false} Pow2Add(a: nat, b: nat)
    ensures Pow2(a) * Pow2(b) == Pow2(a + b)
  {
    if a > 0 {
      Pow2Add(a - 1, b);
      assert Pow2(a) * Pow2(b) == 2 * (Pow2(a - 1) * Pow2(b));
    }
  }

  /** A range of words needs no more bits than a word has. */
  lemma {:induction false} SpanFits(min: nat, max: nat, width: nat)
    requires min <= max < Pow2(width) && width >= 1
    ensures SpanBits(min, max) <= width
  {
    var bits := SpanBits(min, max);
    if bits > width {
      Pow2Monotone(width, bits - 1);
    }
  }

  /** A value of the range, moved to its start and shifted to the top of the word. */
  function Spread(v: nat, min: nat, max: nat, width: nat): nat
    requires min <= v && min <= max && SpanBits(min, max) <= width
  {
    (v - min) * Pow2(width - SpanBits(min, max))
  }

  lemma {:induction false} Distribute(a: nat, c: nat, p: nat)
    ensures (a + c) * p == a * p + c * p
  {
  }

  lemma {:induction false} TimesLess(a: nat, b: nat, p: nat)
    requires p > 0
    ensures a < b <==> a * p < b * p
  {
    if a < b {
      Distribute(a, b - a, p);
      Distribute(1, b - a - 1, p);
    } else {
      Distribute(b, a - b, p);
    }
  }

  /** Spreading loses no bit: the shift does not overflow, and order, hence distinctness, is kept. */
  lemma {:induction false} SpreadLossless(v: nat, w: nat, min: nat, max: nat, width: nat)
    requires min <= v <= max && min <= w <= max && SpanBits(min, max) <= width
    ensures Spread(v, min, max, width) < Pow2(width)
    ensures v < w <==> Spread(v, min, max, width) < Spread(w, min, max, width)
  {
    var bits := SpanBits(min, max);
    var p := Pow2(width - bits);
    Pow2Add(bits, width - bits);
    TimesLess(v - min, Pow2(bits), p);
    TimesLess(v - min, w - min, p);
  }

  /** Spreading starts at zero and goes up by one and the same power of two. */
  lemma {:induction false} SpreadSteps(v: nat, min: nat, max: nat, width: nat)
    requires min <= v < max && SpanBits(min, max) <= width
    ensures Spread(min, min, max, width) == 0
    ensures Spread(v + 1, min, max, width) == Spread(v, min, max, width) + Pow2(width - SpanBits(min, max))
  {
    Distribute(v - min, 1, Pow2(width - SpanBits(min, max)));
  }

  /** `x` is `v`, counted from `min`, shifted so far that `max` just fits into `width` bits. */
  ghost predicate IsSpread(x: nat, v: nat, min: nat, max: nat, width: nat)
    requires min <= v
  {
    width > 0 && exists shift :: ShiftedTo(x, v, min, max, width, shift)
  }

  ghost predicate ShiftedTo(x: nat, v: nat, min: nat, max: nat, width: nat, shift: nat)
    requires min <= v && width > 0
  {
    && x == (v - min) * Pow2(shift)
    && (min < max ==> Pow2(width - 1) <= (max - min) * Pow2(shift) < Pow2(width))
  }

  /** The largest value of the range has its top bit at the top of the word. */
  lemma {:induction false} SpreadFills(v: nat, min: nat, max: nat, width: nat)
    requires min <= v <= max && SpanBits(min, max) <= width
    ensures IsSpread(Spread(v, min, max, width), v, min, max, width)
    ensures min < max ==> Spread(max, min, max, width) >= Pow2(width - 1)
  {
    var bits := SpanBits(min, max);
    var shift := width - bits;
    SpreadLossless(max, max, min, max, width);
    Pow2Add(bits - 1, shift);
    if min < max {
      Log2AtLeast(max - min);
      TimesAtMost(Pow2(bits - 1), max - min, Pow2(shift));
    }
    assert ShiftedTo(Spread(v, min, max, width), v, min, max, width, shift);
  }

  /** A range of two values or more starts below its top power of two. */
  lemma {:induction false} Log2AtLeast(n: nat)
    requires n > 0
    ensures Pow2(Log2(n)) <= n
  {
  }

  lemma {:induction false} TimesAtMost(a: nat, b: nat, p: nat)
    requires a <= b
    ensures a * p <= b * p
  {
    Distribute(a, b - a, p);
  }

  // ---- coordinates of a memory rectangle ----

  function Midpoint(a: nat, b: nat): nat {
    (a + b) / 2
  }

  /** Between both ends, as far from the one as from the other, or one nearer to the lower end. */
  ghost predicate IsCentre(m: nat, a: nat, b: nat) {
    a <= m <= b && m - a <= b - m <= m - a + 1
  }

  lemma {:induction false} MidpointIsCentre(a: nat, b: nat)
    requires a <= b
    ensures IsCentre(Midpoint(a, b), a, b)
  {
  }

  /** `x` is the centre of a range, spread over 64 bits. */
  ghost predicate SpreadCentre(x: nat, a: nat, b: nat, min: nat, max: nat)
    requires min <= a
  {
    exists m :: IsCentre(m, a, b) && IsSpread(x, m, min, max, 64)
  }

  /** Shifting a word left; bits pushed out at the top are lost. */
  function ShiftLeft(x: U64, n: nat): U64 {
    ((x as nat * Pow2(n)) % 0x1_0000_0000_0000_0000) as U64
  }

  lemma {:induction false} Pow2Square(n: nat, v: nat)
    requires Pow2(n) == v
    ensures Pow2(n + n) == v * v
  {
    Pow2Add(n, n);
  }

  lemma {:induction false} WordSizes()
    ensures Pow2(32) == 0x1_0000_0000 && Pow2(64) == 0x1_0000_0000_0000_0000
  {
    Pow2Square(1, 2);
    Pow2Square(2, 4);
    Pow2Square(4, 16);
    Pow2Square(8, 256);
    Pow2Square(16, 0x1_0000);
    Pow2Square(32, 0x1_0000_0000);
  }

  lemma {:induction false} ShiftKeeps(x: U64, n: nat)
    requires x as nat * Pow2(n) < 0x1_0000_0000_0000_0000
    ensures ShiftLeft(x, n) as nat == x as nat * Pow2(n)
  {
  }

  /** A value of a range, spread over `width` bits, in word arithmetic. */
  method SpreadWord(v: U64, min: U64, max: U64, width: nat) returns (r: U64)
    requires min <= v <= max && 1 <= width <= 64 && max as nat < Pow2(width)
    ensures SpanBits(min as nat, max as nat) <= width
    ensures r as nat == Spread(v as nat, min as nat, max as nat, width) < Pow2(width)
  {
    SpanFits(min as nat, max as nat, width);
    SpreadLossless(v as nat, v as nat, min as nat, max as nat, width);
    Pow2Monotone(width, 64);
    WordSizes();
    r := v - min;
    ShiftKeeps(r, width - SpanBits(min as nat, max as nat));
    r := ShiftLeft(r, width - SpanBits(min as nat, max as nat));
  }

  // ---- partitions and the order of all leaves ----

  const PREFIX: nat := 0x1000_0000_0000_0000

  /** Of a space-filling curve: the top bits of the coordinates alone give the top bits of the position. */
  ghost predicate PrefixLaw(curve: (nat, nat) -> nat, coarse: (nat, nat) -> nat) {
    forall x: nat, y: nat :: coarse(x / PREFIX, y / PREFIX) == curve(x, y) / (PREFIX * PREFIX)
  }

  type Curve = (nat, nat) -> nat

  function AddrCoordinate(n: Node, bbox: Node): nat
    requires n.Valid() && bbox.Contains(n)
  {
    BoxSpans(bbox);
    Spread(Midpoint(n.addrMin as nat, n.addrMax as nat), bbox.addrMin as nat, bbox.addrMax as nat, 64)
  }

  function TimeCoordinate(n: Node, bbox: Node): nat
    requires n.Valid() && bbox.Contains(n)
  {
    BoxSpans(bbox);
    Spread(Midpoint(n.timeMin as nat, n.timeMax as nat), bbox.timeMin as nat, bbox.timeMax as nat, 32) * 0x1_0000_0000
  }

  /** Coordinates of a leaf in its zone's box; leaves outside have none. */
  function Coordinates(n: Node, bbox: Node): (nat, nat) {
    if n.Valid() && bbox.Contains(n) then (AddrCoordinate(n, bbox), TimeCoordinate(n, bbox)) else (0, 0)
  }

  lemma {:induction false} BoxSpans(bbox: Node)
    requires bbox.Valid()
    ensures SpanBits(bbox.addrMin as nat, bbox.addrMax as nat) <= 64
    ensures SpanBits(bbox.timeMin as nat, bbox.timeMax as nat) <= 32
  {
    WordSizes();
    SpanFits(bbox.addrMin as nat, bbox.addrMax as nat, 64);
    SpanFits(bbox.timeMin as nat, bbox.timeMax as nat, 32);
  }

  /** A spread of 32 bits, moved up by 32, is a spread of 64. */
  lemma {:induction false} SpreadHigher(x: nat, v: nat, min: nat, max: nat)
    requires min <= v && IsSpread(x, v, min, max, 32)
    ensures IsSpread(x * 0x1_0000_0000, v, min, max, 64)
  {
    WordSizes();
    var shift: nat :| ShiftedTo(x, v, min, max, 32, shift);
    Pow2Add(shift, 32);
    Pow2Add(31, 32);
    TimesAssoc(v - min, Pow2(shift), Pow2(32));
    TimesAssoc(max - min, Pow2(shift), Pow2(32));
    if min < max {
      TimesAtMost(Pow2(31), (max - min) * Pow2(shift), Pow2(32));
      TimesLess((max - min) * Pow2(shift), Pow2(32), Pow2(32));
      Pow2Add(32, 32);
    }
    assert ShiftedTo(x * 0x1_0000_0000, v, min, max, 64, shift + 32);
  }

  lemma {:induction false} TimesAssoc(a: int, b: nat, c: nat)
    ensures a * b * c == a * (b * c)
  {
  }

  /** The coordinates are the centre of the rectangle, spread over the word. */
  lemma {:induction false} CoordinatesSpread(n: Node, bbox: Node)
    requires n.Valid() && bbox.Contains(n)
    ensures SpreadCentre(AddrCoordinate(n, bbox), n.addrMin as nat, n.addrMax as nat, bbox.addrMin as nat,
                         bbox.addrMax as nat)
    ensures SpreadCentre(TimeCoordinate(n, bbox), n.timeMin as nat, n.timeMax as nat, bbox.timeMin as nat,
                         bbox.timeMax as nat)
  {
    BoxSpans(bbox);
    var x, t := Midpoint(n.addrMin as nat, n.addrMax as nat), Midpoint(n.timeMin as nat, n.timeMax as nat);
    MidpointIsCentre(n.addrMin as nat, n.addrMax as nat);
    MidpointIsCentre(n.timeMin as nat, n.timeMax as nat);
    SpreadFills(x, bbox.addrMin as nat, bbox.addrMax as nat, 64);
    SpreadFills(t, bbox.timeMin as nat, bbox.timeMax as nat, 32);
    SpreadHigher(Spread(t, bbox.timeMin as nat, bbox.timeMax as nat, 32), t, bbox.timeMin as nat, bbox.timeMax as nat);
  }

  /** The centre of the rectangle, each coordinate spread over 64 bits. */
  method MemHilbertCoordinates(node: Node, bbox: Node) returns (addr: U64, time: U64)
    requires node.Valid() && bbox.Contains(node)
    ensures addr as nat == AddrCoordinate(node, bbox) && time as nat == TimeCoordinate(node, bbox)
    ensures SpreadCentre(addr as nat, node.addrMin as nat, node.addrMax as nat, bbox.addrMin as nat,
                         bbox.addrMax as nat)
    ensures SpreadCentre(time as nat, node.timeMin as nat, node.timeMax as nat, bbox.timeMin as nat,
                         bbox.timeMax as nat)
  {
    WordSizes();
    CoordinatesSpread(node, bbox);
    addr := Midpoint(node.addrMin as nat, node.addrMax as nat) as U64;
    addr := SpreadWord(addr, bbox.addrMin, bbox.addrMax, 64);
    time := Midpoint(node.timeMin as nat, node.timeMax as nat) as U64;
    time := SpreadWord(time, bbox.timeMin as U64, bbox.timeMax as U64, 32);
    ShiftKeeps(time, 32);
    time := ShiftLeft(time, 32);
  }

  /** The four bits that choose a partition: all of them can be set, the top one is for the largest value of the box. */
  lemma {:induction false} PartitionBits(x: nat, v: nat, min: nat, max: nat)
    requires min <= v <= max && IsSpread(x, v, min, max, 64)
    ensures x / PREFIX < 16 && (min < v == max ==> x / PREFIX >= 8)
  {
    WordSizes();
    Pow2Add(3, 60);
    Pow2Add(4, 60);
    var shift: nat :| ShiftedTo(x, v, min, max, 64, shift);
    TimesAtMost(v - min, max - min, Pow2(shift));
    assert Pow2(64) == 16 * PREFIX;
    assert Pow2(63) == 8 * PREFIX by {
      assert Pow2(64) == 2 * Pow2(63);
    }
  }

  function SortKey(curve: Curve, n: Node, bbox: Node): nat {
    curve(Coordinates(n, bbox).0, Coordinates(n, bbox).1)
  }

  function PartKey(coarse: Curve, n: Node, bbox: Node): nat {
    coarse(Coordinates(n, bbox).0 / PREFIX, Coordinates(n, bbox).1 / PREFIX)
  }

  lemma {:induction false} OneShift(d: nat, width: nat, s: nat, r: nat)
    requires width > 0 && Pow2(width - 1) <= d * Pow2(s) && s < r
    ensures Pow2(width) <= d * Pow2(r)
  {
    Pow2Monotone(s + 1, r);
    TimesAtMost(Pow2(s + 1), Pow2(r), d);
    assert Pow2(s + 1) * d == 2 * (d * Pow2(s));
    assert Pow2(r) * d == d * Pow2(r);
    assert Pow2(width) == 2 * Pow2(width - 1);
  }

  /** There is only one way to spread a value. */
  lemma {:induction false} SpreadUnique(x: nat, y: nat, v: nat, min: nat, max: nat, width: nat)
    requires min <= v <= max && IsSpread(x, v, min, max, width) && IsSpread(y, v, min, max, width)
    ensures x == y
  {
    var s: nat :| ShiftedTo(x, v, min, max, width, s);
    var r: nat :| ShiftedTo(y, v, min, max, width, r);
    if min < max {
      if s < r {
        OneShift(max - min, width, s, r);
      } else if r < s {
        OneShift(max - min, width, r, s);
      }
    }
  }

  lemma {:induction false} SpreadCentreUnique(x: nat, y: nat, a: nat, b: nat, min: nat, max: nat)
    requires min <= a && b <= max && SpreadCentre(x, a, b, min, max) && SpreadCentre(y, a, b, min, max)
    ensures x == y
  {
    var m :| IsCentre(m, a, b) && IsSpread(x, m, min, max, 64);
    var n :| IsCentre(n, a, b) && IsSpread(y, n, min, max, 64);
    assert m == n;
    SpreadUnique(x, y, m, min, max, 64);
  }

  /** Leaves are keyed by the spread centre of their addresses and that of their times, in this order; partitions by the
      four top bits of both. */
  lemma {:induction false} KeysOfCentres(curve: Curve, coarse: Curve, n: Node, bbox: Node, x: nat, t: nat)
    requires n.Valid() && bbox.Contains(n)
    requires SpreadCentre(x, n.addrMin as nat, n.addrMax as nat, bbox.addrMin as nat, bbox.addrMax as nat)
    requires SpreadCentre(t, n.timeMin as nat, n.timeMax as nat, bbox.timeMin as nat, bbox.timeMax as nat)
    ensures SortKey(curve, n, bbox) == curve(x, t)
    ensures PartKey(coarse, n, bbox) == coarse(x / 0x1000_0000_0000_0000, t / 0x1000_0000_0000_0000)
  {
    CoordinatesSpread(n, bbox);
    SpreadCentreUnique(x, AddrCoordinate(n, bbox), n.addrMin as nat, n.addrMax as nat, bbox.addrMin as nat,
                       bbox.addrMax as nat);
    SpreadCentreUnique(t, TimeCoordinate(n, bbox), n.timeMin as nat, n.timeMax as nat, bbox.timeMin as nat,
                       bbox.timeMax as nat);
  }

  /** With the prefix law, leaves of a lower partition sort before leaves of a higher one. */
  lemma {:induction false} PartitionsAligned(curve: Curve, coarse: Curve, part: KeyFn, key: KeyFn, bbox: Node)
    requires PrefixLaw(curve, coarse)
    requires forall n, box :: part(n, box) == PartKey(coarse, n, box) && key(n, box) == SortKey(curve, n, box)
    ensures P.Aligned(InBox(part, bbox), InBox(key, bbox))
  {
    forall a: WriteLeaf, b: WriteLeaf | InBox(part, bbox)(a) < InBox(part, bbox)(b)
      ensures InBox(key, bbox)(a) <= InBox(key, bbox)(b)
    {
      var x, y := SortKey(curve, a.node, bbox), SortKey(curve, b.node, bbox);
      assert x / (PREFIX * PREFIX) < y / (PREFIX * PREFIX);
      QuotientLess(x, y, PREFIX * PREFIX);
    }
  }

  // ---- registers ----

  /** A register leaf has a value in the place of addresses, and its own box around them. */
  ghost predicate RegInside(leaf: RegLeaf, bbox: Node) {
    leaf.Box().Valid() && bbox.Contains(leaf.Box())
  }

  /** The value and the centre of the times, each spread over 64 bits. */
  method RegHilbertCoordinates(leaf: RegLeaf, bbox: Node) returns (value: U64, time: U64)
    requires RegInside(leaf, bbox)
    ensures value as nat == AddrCoordinate(leaf.Box(), bbox) && time as nat == TimeCoordinate(leaf.Box(), bbox)
    ensures IsSpread(value as nat, leaf.value as nat, bbox.addrMin as nat, bbox.addrMax as nat, 64)
    ensures SpreadCentre(time as nat, leaf.timeMin as nat, leaf.timeMax as nat, bbox.timeMin as nat,
                         bbox.timeMax as nat)
  {
    WordSizes();
    CoordinatesSpread(leaf.Box(), bbox);
    assert Midpoint(leaf.value as nat, leaf.value as nat) == leaf.value as nat;
    BoxSpans(bbox);
    SpreadFills(leaf.value as nat, bbox.addrMin as nat, bbox.addrMax as nat, 64);
    value := SpreadWord(leaf.value, bbox.addrMin, bbox.addrMax, 64);
    time := Midpoint(leaf.timeMin as nat, leaf.timeMax as nat) as U64;
    time := SpreadWord(time, bbox.timeMin as U64, bbox.timeMax as U64, 32);
    ShiftKeeps(time, 32);
    time := ShiftLeft(time, 32);
  }

  /** Register leaves of a lower partition sort before those of a higher one, too. */
  lemma {:induction false} RegPartitionsAligned(curve: Curve, coarse: Curve, part: RI.RegKeyFn, key: RI.RegKeyFn,
                                                bbox: Node)
    requires PrefixLaw(curve, coarse)
    requires forall leaf, box :: part(leaf, box) == PartKey(coarse, leaf.Box(), box)
    requires forall leaf, box :: key(leaf, box) == SortKey(curve, leaf.Box(), box)
    ensures P.Aligned(RI.InRegBox(part, bbox), RI.InRegBox(key, bbox))
  {
    forall a: RegLeaf, b: RegLeaf | RI.InRegBox(part, bbox)(a) < RI.InRegBox(part, bbox)(b)
      ensures RI.InRegBox(key, bbox)(a) <= RI.InRegBox(key, bbox)(b)
    {
      var x, y := SortKey(curve, a.Box(), bbox), SortKey(curve, b.Box(), bbox);
      assert x / (PREFIX * PREFIX) < y / (PREFIX * PREFIX);
      QuotientLess(x, y, PREFIX * PREFIX);
    }
  }

  lemma {:induction false} QuotientLess(x: nat, y: nat, d: nat)
    requires d > 0 && x / d < y / d
    ensures x < y
  {
    var q := y / d;
    DivMulGalois(d, q, x);
    DivMulGalois(d, q, y);
  }
}
