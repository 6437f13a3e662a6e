/** From a trace to answers: indexing followed by a query, stated about the trace. */
module Pipeline {
  import opened Ranges
  import opened MemoryDb
  import opened Index
  import opened IndexFile
  import opened Passes
  import opened Trace
  import opened History
  import opened Registers
  import H = Hilbert
  import N = Nearby
  import P = Partition
  import RI = RegisterIndex
  import S = Search
  import ME = SearchMemory
  import RS = ReportedStarts
  import SC = SearchChain
  import SM = SearchMatch
  import T = Thompson

  ghost predicate Indexable(trace: seq<Event>, order: nat, shapes: Shapes, keys: Keys) {
    && Trace.WellFormed(trace) && LongBytes(Accesses(trace)) <= ADDR_MAX as int
    && order >= 1 && shapes.Valid() && keys.Valid()
  }

  /** The time of the last memory access. */
  function MemoryEnd(trace: seq<Event>): Time {
    EndOf(Accesses(trace))
  }

  /** The writes to register `r`. */
  ghost function RegisterWrites(trace: seq<Event>, r: nat): seq<Registers.Write> {
    RI.WritesOf(Timed(trace), r)
  }

  /** The time of the last event. */
  function TraceEnd(trace: seq<Event>): Time {
    RI.LastTime(Timed(trace))
  }

  function RegisterCount(trace: seq<Event>): nat {
    RI.Count(Timed(trace))
  }

  method Build(trace: seq<Event>, order: nat, shapes: Shapes, keys: Keys)
    returns (b: Built, ghost tiles: seq<seq<RegLeaf>>)
    requires Indexable(trace, order, shapes, keys)
    ensures Indexed(trace, keys, b, tiles) && |tiles| == |b.registers|
    ensures Describes(b.db, Accesses(trace), MemoryEnd(trace)) && |b.registers| == RegisterCount(trace)
    ensures AsTraced(trace)
  {
    var layout, size;
    ghost var scout, counts, storage, views;
    b, layout, size, tiles, scout, counts, storage, views := BuildIndex(trace, order, shapes, keys);
  }

  // ---- memory ----

  /** Memory content at a time: each slot is the byte last written or read, and stays so over the reported time
      range. */
  method IndexAndFetch(trace: seq<Event>, order: nat, shapes: Shapes, keys: Keys, range: AddrRange, time: Time)
    returns (r: Fetch)
    requires Indexable(trace, order, shapes, keys) && range.Valid()
    ensures FetchedRight(Accesses(trace), MemoryEnd(trace), range, time, r.bytes[..], r.validTimes, r.isComplete)
    ensures MemoryAsTraced(trace, Accesses(trace))
    ensures r.bytes.Length == (range.max - range.min) as nat + 1
    ensures time <= MemoryEnd(trace) ==>
              forall x :: range.Contains(x) ==> MemoryIs(trace, x, time, r.bytes[x - range.min])
  {
    var b;
    ghost var tiles;
    b, tiles := Build(trace, order, shapes, keys);
    r := FetchAt(b.db, range, time, Accesses(trace), MemoryEnd(trace));
  }

  /** The nearest touching accesses before and after a time. */
  method IndexAndStep(trace: seq<Event>, order: nat, shapes: Shapes, keys: Keys, time: Time, m: Matcher)
    returns (prev: Option<Time>, next: Option<Time>)
    requires Indexable(trace, order, shapes, keys) && m.Valid()
    ensures N.LastTouchBefore(Accesses(trace), m, time, prev) && N.FirstTouchAfter(Accesses(trace), m, time, next)
    ensures MemoryAsTraced(trace, Accesses(trace))
  {
    var b;
    ghost var tiles;
    b, tiles := Build(trace, order, shapes, keys);
    prev := N.PrevMemWrite(b.db, time, m, Accesses(trace), MemoryEnd(trace));
    next := N.NextMemWrite(b.db, time, m, Accesses(trace), MemoryEnd(trace));
  }

  /** The nearest reads before and after a time. */
  method IndexAndStepReads(trace: seq<Event>, order: nat, shapes: Shapes, keys: Keys, time: Time, m: Matcher)
    returns (prev: Option<Time>, next: Option<Time>)
    requires Indexable(trace, order, shapes, keys) && m.Valid()
    ensures LastReadBefore(trace, m, time, prev) && FirstReadAfter(trace, m, time, next)
  {
    var b;
    ghost var tiles;
    b, tiles := Build(trace, order, shapes, keys);
    prev := PrevMemRead(b.readZones, time, m, trace);
    next := NextMemRead(b.readZones, time, m, trace);
  }

  // ---- registers ----

  ghost predicate WithinTrace(trace: seq<Event>, time: Time) {
    exists i :: 0 <= i < |trace| && time <= trace[i].time
  }

  /** The value last written at or before a time of the trace. */
  method IndexAndValueAt(trace: seq<Event>, order: nat, shapes: Shapes, keys: Keys, reg: nat, time: Time)
    returns (r: Option<U64>)
    requires Indexable(trace, order, shapes, keys) && IsSet(trace, reg)
    ensures if WithinTrace(trace, time) then RegisterIs(trace, reg, time, r) else r == None
  {
    RegistersTraced(trace);
    var b;
    ghost var tiles;
    b, tiles := Build(trace, order, shapes, keys);
    RI.WritesInOrder(Timed(trace), reg);
    r := RegValueAt(b.registers[reg], time, RegisterWrites(trace, reg), TraceEnd(trace), tiles[reg]);
  }

  /** The nearest times before and after a time, and the first and last of all, whose last write matches. */
  method IndexAndRegisterTimes(trace: seq<Event>, order: nat, shapes: Shapes, keys: Keys, reg: nat, time: Time,
                               m: Matcher)
    returns (prev: Option<Time>, next: Option<Time>, first: Option<Time>, last: Option<Time>)
    requires Indexable(trace, order, shapes, keys) && IsSet(trace, reg) && m.Valid()
    ensures LastHitBefore(RegisterWrites(trace, reg), m, time, prev)
    ensures FirstHitAfter(RegisterWrites(trace, reg), m, time, next)
    ensures FirstHit(RegisterWrites(trace, reg), m, first) && LastHit(RegisterWrites(trace, reg), m, last)
    ensures RegisterAsTraced(trace, reg, RegisterWrites(trace, reg))
  {
    RegistersTraced(trace);
    var b;
    ghost var tiles;
    b, tiles := Build(trace, order, shapes, keys);
    ghost var ws, end := RegisterWrites(trace, reg), TraceEnd(trace);
    prev := PrevTimeWith(b.registers[reg], time, m, ws, end, tiles[reg]);
    next := NextTimeWith(b.registers[reg], time, m, ws, end, tiles[reg]);
    first := FirstTimeWith(b.registers[reg], m, ws, end, tiles[reg]);
    last := LastTimeWith(b.registers[reg], m, ws, end, tiles[reg]);
  }

  // ---- search ----

  /** The last address of the address space is never touched. */
  ghost predicate SparesLastAddress(trace: seq<Event>) {
    forall i :: 0 <= i < |trace| ==> !Reaches(trace[i], ADDR_MAX)
  }

  lemma {:induction false} LeafSparesLastAddress(db: Db, trace: seq<Event>, leaf: WriteLeaf)
    requires Holds(db, Accesses(trace), leaf) && SparesLastAddress(trace)
    ensures leaf.node.addrMax < ADDR_MAX
  {
    var t := leaf.node.timeMin;
    assert leaf.node.Covers(leaf.node.addrMax, t);
    LastByteTraced(trace, ADDR_MAX, t, None);
  }

  lemma {:induction false} BuiltSearchable(db: Db, trace: seq<Event>, end: Time)
    requires Describes(db, Accesses(trace), end) && ME.ZonesSeparate(db.writeZones) && SparesLastAddress(trace)
    ensures ME.Searchable(db)
  {
    forall leaf | leaf in db.Leaves() ensures db.Readable(leaf) && leaf.node.addrMax < ADDR_MAX {
      ME.LeafHoldsHistory(db, Accesses(trace), end, leaf);
      LeafSparesLastAddress(db, trace, leaf);
    }
  }

  /** Regex search over the whole history of memory. Which starts are reported depends on how the history was cut
      into leaves, those of `db`. */
  method IndexAndSearch(trace: seq<Event>, order: nat, shapes: Shapes, keys: Keys, hir: T.Hir)
    returns (results: seq<SC.SearchResult>, ghost db: Db)
    requires Indexable(trace, order, shapes, keys) && SparesLastAddress(trace) && T.Supported(hir)
    ensures [] in T.Lang(hir) ==> results == []
    ensures forall k :: 0 <= k < |results| ==> S.Matches(T.Lang(hir), Accesses(trace), results[k])
    ensures forall k :: 0 <= k < |results| ==> results[k].timeMax <= MemoryEnd(trace)
    ensures SM.ReportsApart(results)
    ensures [] !in T.Lang(hir) ==> S.EveryMatchEnds(T.Lang(hir), Accesses(trace), MemoryEnd(trace), results)
    ensures Describes(db, Accesses(trace), MemoryEnd(trace)) && MemoryAsTraced(trace, Accesses(trace))
    ensures [] !in T.Lang(hir) ==> RS.StartsAreExact(T.Lang(hir), db, Accesses(trace), results)
  {
    var b;
    ghost var tiles;
    b, tiles := Build(trace, order, shapes, keys);
    BuiltSearchable(b.db, trace, MemoryEnd(trace));
    results := S.SearchHir(b.db, hir, Accesses(trace), MemoryEnd(trace));
    db := b.db;
  }

  // ---- the order of the leaves ----

  /** All keys are taken along one curve, partition numbers along its coarse form. */
  ghost predicate AlongCurve(keys: Keys, curve: H.Curve, coarse: H.Curve) {
    && (forall n, box :: keys.part(n, box) == H.PartKey(coarse, n, box))
    && (forall n, box :: keys.key(n, box) == H.SortKey(curve, n, box))
    && (forall leaf, box :: keys.regPart(leaf, box) == H.PartKey(coarse, leaf.Box(), box))
    && (forall leaf, box :: keys.regKey(leaf, box) == H.SortKey(curve, leaf.Box(), box))
  }

  ghost predicate Sorted(trees: seq<WriteTree>, keys: Keys) {
    forall z :: 0 <= z < |trees| ==> P.SortedBy(trees[z].leaves, InBox(keys.key, trees[z].bbox))
  }

  lemma {:induction false} TreesSorted(trees: seq<WriteTree>, keys: Keys, curve: H.Curve, coarse: H.Curve)
    requires AllInKeyOrder(trees, keys.part, keys.key) && H.PrefixLaw(curve, coarse) && AlongCurve(keys, curve, coarse)
    ensures Sorted(trees, keys)
  {
    forall z | 0 <= z < |trees| ensures P.SortedBy(trees[z].leaves, InBox(keys.key, trees[z].bbox)) {
      H.PartitionsAligned(curve, coarse, keys.part, keys.key, trees[z].bbox);
      assert InKeyOrder(trees[z], keys.part, keys.key);
    }
  }

  /** With keys along a curve that satisfies the prefix law, the leaves of every tree, of memory or of a register, are
      sorted along the curve. */
  lemma {:induction false} SortedAlongCurve(trace: seq<Event>, keys: Keys, b: Built, tiles: seq<seq<RegLeaf>>,
                                            curve: H.Curve, coarse: H.Curve)
    requires Indexed(trace, keys, b, tiles) && H.PrefixLaw(curve, coarse) && AlongCurve(keys, curve, coarse)
    ensures Sorted(b.db.writeZones, keys) && Sorted(b.readZones, keys)
    ensures forall r :: 0 <= r < |b.registers| ==>
              P.SortedBy(b.registers[r].leaves, RI.InRegBox(keys.regKey, b.registers[r].bbox))
  {
    TreesSorted(b.db.writeZones, keys, curve, coarse);
    TreesSorted(b.readZones, keys, curve, coarse);
    forall r | 0 <= r < |b.registers|
      ensures P.SortedBy(b.registers[r].leaves, RI.InRegBox(keys.regKey, b.registers[r].bbox))
    {
      H.RegPartitionsAligned(curve, coarse, keys.regPart, keys.regKey, b.registers[r].bbox);
      assert RI.RegInKeyOrder(b.registers[r], keys.regPart, keys.regKey);
    }
  }
}
