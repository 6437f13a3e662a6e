/** What the events of a trace themselves say about memory and registers, and that the indexer is told just that. */
module History {
  import opened Ranges
  import opened Trace
  import D = Disjoint
  import PA = Passes
  import RE = Registers
  import RI = RegisterIndex

  // ---- memory ----

  /** The event reads or writes the byte at `x`. */
  predicate Reaches(e: Event, x: Addr) {
    e.Memory? && e.addr <= x && (x - e.addr) as int < |e.bytes|
  }

  function ByteAt(e: Event, x: Addr): Byte
    requires Reaches(e, x)
  {
    e.bytes[x - e.addr]
  }

  ghost predicate ReachedBy(e: Event, x: Addr, t: Time) {
    Reaches(e, x) && e.time <= t
  }

  /** Event `i` is the last one up to time `t` that reaches `x`. */
  ghost predicate LastToReach(trace: seq<Event>, x: Addr, t: Time, i: nat) {
    i < |trace| && ReachedBy(trace[i], x, t) && forall j :: i < j < |trace| ==> !ReachedBy(trace[j], x, t)
  }

  /** At time `t` the byte at `x` is that of the last event, of any mode, to reach it by then; or none has. */
  ghost predicate MemoryIs(trace: seq<Event>, x: Addr, t: Time, v: Option<Byte>) {
    match v
    case None => forall i :: 0 <= i < |trace| ==> !ReachedBy(trace[i], x, t)
    case Some(b) => exists i: nat :: LastToReach(trace, x, t, i) && ByteAt(trace[i], x) == b
  }

  /** Some byte of event `i` differs from what memory held just before it. */
  ghost predicate IsNews(trace: seq<Event>, i: nat)
    requires i < |trace|
  {
    exists y :: Reaches(trace[i], y) && !MemoryIs(trace[..i], y, trace[i].time, Some(ByteAt(trace[i], y)))
  }

  /** Event `i` reaches `x` at time `u`, and is not a pure read of what memory holds already. */
  ghost predicate Touches(trace: seq<Event>, i: nat, x: Addr, u: Time) {
    i < |trace| && Reaches(trace[i], x) && trace[i].time == u && (!trace[i].mode.Read? || IsNews(trace, i))
  }

  ghost predicate TouchedAt(trace: seq<Event>, x: Addr, u: Time) {
    exists i: nat :: Touches(trace, i, x, u)
  }

  /** The accesses hold what the trace holds, touch what it touches, and end with its last memory event. */
  ghost predicate MemoryAsTraced(trace: seq<Event>, h: seq<D.Access>) {
    && (forall x, t, v :: MemoryIs(trace, x, t, v) <==> D.LastByte(h, x, t) == v)
    && (forall x, u :: TouchedAt(trace, x, u) <==> D.WrittenAt(h, x, u))
    && EndsAt(trace, PA.EndOf(h))
  }

  ghost predicate EndsAt(trace: seq<Event>, end: Time) {
    if exists i :: 0 <= i < |trace| && trace[i].Memory? then LatestMemory(trace, end) else end == 0
  }

  ghost predicate LatestMemory(trace: seq<Event>, end: Time) {
    && (exists i :: 0 <= i < |trace| && trace[i].Memory? && trace[i].time == end)
    && forall i :: 0 <= i < |trace| && trace[i].Memory? ==> trace[i].time <= end
  }

  lemma {:induction false} StillLast(trace: seq<Event>, x: Addr, t: Time, i: nat)
    requires i < |trace| - 1 && !ReachedBy(trace[|trace| - 1], x, t)
    ensures LastToReach(trace, x, t, i) <==> LastToReach(trace[..|trace| - 1], x, t, i)
  {
    assert forall j :: 0 <= j < |trace| - 1 ==> trace[..|trace| - 1][j] == trace[j];
  }

  lemma {:induction false} MemoryByte(trace: seq<Event>, x: Addr, t: Time, b: Byte)
    requires trace != [] && !ReachedBy(trace[|trace| - 1], x, t)
    ensures MemoryIs(trace, x, t, Some(b)) <==> MemoryIs(trace[..|trace| - 1], x, t, Some(b))
  {
    var rest := trace[..|trace| - 1];
    if i: nat :| LastToReach(trace, x, t, i) && ByteAt(trace[i], x) == b {
      StillLast(trace, x, t, i);
    }
    if i: nat :| LastToReach(rest, x, t, i) && ByteAt(rest[i], x) == b {
      StillLast(trace, x, t, i);
    }
  }

  lemma {:induction false} MemoryUnset(trace: seq<Event>, x: Addr, t: Time)
    requires trace != [] && !ReachedBy(trace[|trace| - 1], x, t)
    ensures MemoryIs(trace, x, t, None) <==> MemoryIs(trace[..|trace| - 1], x, t, None)
  {
    assert forall i :: 0 <= i < |trace| - 1 ==> trace[..|trace| - 1][i] == trace[i];
  }

  lemma {:induction false} MemoryReached(trace: seq<Event>, x: Addr, t: Time, v: Option<Byte>)
    requires trace != [] && ReachedBy(trace[|trace| - 1], x, t)
    ensures MemoryIs(trace, x, t, v) <==> v == Some(ByteAt(trace[|trace| - 1], x))
  {
    assert LastToReach(trace, x, t, |trace| - 1);
  }

  lemma {:induction false} MemoryStep(trace: seq<Event>, x: Addr, t: Time, v: Option<Byte>)
    requires trace != []
    ensures var e := trace[|trace| - 1];
      MemoryIs(trace, x, t, v)
      <==> if ReachedBy(e, x, t) then v == Some(ByteAt(e, x)) else MemoryIs(trace[..|trace| - 1], x, t, v)
  {
    if ReachedBy(trace[|trace| - 1], x, t) {
      MemoryReached(trace, x, t, v);
    } else if v.Some? {
      MemoryByte(trace, x, t, v.value);
    } else {
      MemoryUnset(trace, x, t);
    }
  }

  lemma {:induction false} AccessStep(trace: seq<Event>)
    requires trace != []
    ensures var e := trace[|trace| - 1];
      Accesses(trace)
      == Accesses(trace[..|trace| - 1])
       + if e.Memory? then [D.Access(e.time, e.addr, e.bytes, e.mode.Read?)] else []
  {
  }

  lemma {:induction false} LastByteStep(trace: seq<Event>, x: Addr, t: Time)
    requires trace != []
    ensures var e := trace[|trace| - 1];
      D.LastByte(Accesses(trace), x, t)
      == if ReachedBy(e, x, t) then Some(ByteAt(e, x)) else D.LastByte(Accesses(trace[..|trace| - 1]), x, t)
  {
    var rest, e := trace[..|trace| - 1], trace[|trace| - 1];
    var h, before := Accesses(trace), Accesses(rest);
    AccessStep(trace);
    if e.Memory? {
      assert h[..|h| - 1] == before;
    } else {
      assert h == before;
    }
  }

  /** What the sweep calls the last byte is the byte of the trace's last event there, reads included. */
  lemma {:induction false} LastByteTraced(trace: seq<Event>, x: Addr, t: Time, v: Option<Byte>)
    ensures MemoryIs(trace, x, t, v) <==> D.LastByte(Accesses(trace), x, t) == v
  {
    if trace != [] {
      MemoryStep(trace, x, t, v);
      LastByteTraced(trace[..|trace| - 1], x, t, v);
      LastByteStep(trace, x, t);
    }
  }

  lemma {:induction false} NewsIs(trace: seq<Event>, i: nat)
    requires i < |trace| && trace[i].Memory?
    ensures var e := trace[i];
      IsNews(trace, i)
      <==> !D.Redundant(Accesses(trace[..i]), D.Access(e.time, e.addr, e.bytes, e.mode.Read?))
  {
    var e := trace[i];
    var a := D.Access(e.time, e.addr, e.bytes, e.mode.Read?);
    forall y | Reaches(e, y)
      ensures MemoryIs(trace[..i], y, e.time, Some(ByteAt(e, y)))
           <==> D.LastByte(Accesses(trace[..i]), y, a.time) == Some(a.ByteAt(y))
    {
      LastByteTraced(trace[..i], y, e.time, Some(ByteAt(e, y)));
    }
    assert forall y :: a.HasAddr(y) <==> Reaches(e, y);
  }

  lemma {:induction false} TouchesBefore(trace: seq<Event>, n: nat, i: nat, x: Addr, u: Time)
    requires i < n <= |trace|
    ensures Touches(trace, i, x, u) <==> Touches(trace[..n], i, x, u)
  {
    assert trace[..n][..i] == trace[..i];
  }

  lemma {:induction false} TouchedStep(trace: seq<Event>, x: Addr, u: Time)
    requires trace != []
    ensures TouchedAt(trace, x, u) <==> Touches(trace, |trace| - 1, x, u) || TouchedAt(trace[..|trace| - 1], x, u)
  {
    var n := |trace| - 1;
    if i: nat :| Touches(trace, i, x, u) && i < n {
      TouchesBefore(trace, n, i, x, u);
    }
    if i: nat :| Touches(trace[..n], i, x, u) {
      TouchesBefore(trace, n, i, x, u);
    }
  }

  /** An access counts as touching exactly if it writes, or reads something else than memory held. */
  lemma {:induction false} TouchTraced(trace: seq<Event>, x: Addr, u: Time)
    ensures TouchedAt(trace, x, u) <==> D.WrittenAt(Accesses(trace), x, u)
  {
    if trace != [] {
      var n := |trace| - 1;
      var rest, e, h := trace[..n], trace[n], Accesses(trace);
      TouchedStep(trace, x, u);
      TouchTraced(rest, x, u);
      AccessStep(trace);
      if e.Memory? {
        NewsIs(trace, n);
        assert h[..|h| - 1] == Accesses(rest);
      } else {
        assert h == Accesses(rest);
      }
    }
  }

  lemma {:induction false} EndTraced(trace: seq<Event>)
    requires Rising(trace)
    ensures EndsAt(trace, PA.EndOf(Accesses(trace)))
  {
    if trace != [] {
      var rest, e := trace[..|trace| - 1], trace[|trace| - 1];
      EndTraced(rest);
      AccessStep(trace);
      assert forall i :: 0 <= i < |rest| ==> rest[i] == trace[i];
    }
  }

  /** The sweep is told exactly what the trace says. */
  lemma {:induction false} AccessesTraced(trace: seq<Event>)
    requires WellFormed(trace)
    ensures MemoryAsTraced(trace, Accesses(trace))
  {
    var h := Accesses(trace);
    forall x, t, v ensures MemoryIs(trace, x, t, v) <==> D.LastByte(h, x, t) == v {
      LastByteTraced(trace, x, t, v);
    }
    forall x, u ensures TouchedAt(trace, x, u) <==> D.WrittenAt(h, x, u) {
      TouchTraced(trace, x, u);
    }
    TimesUp(trace);
    EndTraced(trace);
  }

  // ---- registers ----

  ghost predicate Sets(e: Event, r: nat) {
    e.Register? && e.idx == r
  }

  ghost predicate SetBy(e: Event, r: nat, t: Time) {
    Sets(e, r) && e.time <= t
  }

  ghost predicate LastToSet(trace: seq<Event>, r: nat, t: Time, i: nat) {
    i < |trace| && SetBy(trace[i], r, t) && forall j :: i < j < |trace| ==> !SetBy(trace[j], r, t)
  }

  /** At time `t` register `r` has the value of the last event to set it by then; or none has. */
  ghost predicate RegisterIs(trace: seq<Event>, r: nat, t: Time, v: Option<U64>) {
    match v
    case None => forall i :: 0 <= i < |trace| ==> !SetBy(trace[i], r, t)
    case Some(b) => exists i: nat :: LastToSet(trace, r, t, i) && trace[i].value == b
  }

  ghost predicate SetAt(trace: seq<Event>, r: nat, t: Time) {
    exists i :: 0 <= i < |trace| && Sets(trace[i], r) && trace[i].time == t
  }

  /** The writes give the register the values the trace gives it, at the times the trace does. */
  ghost predicate RegisterAsTraced(trace: seq<Event>, r: nat, ws: seq<RE.Write>) {
    && (forall t, v :: RegisterIs(trace, r, t, v) <==> RE.ValueAt(ws, t) == v)
    && forall t :: SetAt(trace, r, t) <==> RE.WrittenAt(ws, t)
  }

  ghost predicate IsSet(trace: seq<Event>, r: nat) {
    exists i :: 0 <= i < |trace| && Sets(trace[i], r)
  }

  /** The registers that are set are numbered from zero. */
  ghost predicate Numbered(trace: seq<Event>, count: nat) {
    forall r: nat :: r < count <==> IsSet(trace, r)
  }

  lemma {:induction false} RegisterStep(trace: seq<Event>, r: nat, t: Time, v: Option<U64>)
    requires trace != []
    ensures var e := trace[|trace| - 1];
      RegisterIs(trace, r, t, v)
      <==> if SetBy(e, r, t) then v == Some(e.value) else RegisterIs(trace[..|trace| - 1], r, t, v)
  {
    var n := |trace| - 1;
    var rest, e := trace[..n], trace[n];
    if SetBy(e, r, t) {
      assert LastToSet(trace, r, t, n);
    } else if v.Some? {
      if RegisterIs(trace, r, t, v) {
        var i: nat :| LastToSet(trace, r, t, i) && trace[i].value == v.value;
        assert i < n;
        assert LastToSet(rest, r, t, i);
      }
      if RegisterIs(rest, r, t, v) {
        var i: nat :| LastToSet(rest, r, t, i) && rest[i].value == v.value;
        assert rest[i] == trace[i];
        assert LastToSet(trace, r, t, i);
      }
    } else {
      assert forall i :: 0 <= i < n ==> rest[i] == trace[i];
    }
  }

  lemma {:induction false} TimedStep(trace: seq<Event>)
    requires trace != []
    ensures Timed(trace)[..|trace| - 1] == Timed(trace[..|trace| - 1])
    ensures var e := trace[|trace| - 1];
      Timed(trace)[|trace| - 1]
      == if e.Register? then RI.RegisterEvent(e.time, e.idx, e.value) else RI.MemoryEvent(e.time)
  {
  }

  lemma {:induction false} WritesStep(trace: seq<Event>, r: nat)
    requires trace != []
    ensures var e := trace[|trace| - 1];
      RI.WritesOf(Timed(trace), r)
      == RI.WritesOf(Timed(trace[..|trace| - 1]), r) + if Sets(e, r) then [RE.Write(e.time, e.value)] else []
  {
    TimedStep(trace);
  }

  lemma {:induction false} ValueTraced(trace: seq<Event>, r: nat, t: Time, v: Option<U64>)
    ensures RegisterIs(trace, r, t, v) <==> RE.ValueAt(RI.WritesOf(Timed(trace), r), t) == v
  {
    if trace != [] {
      var rest, e := trace[..|trace| - 1], trace[|trace| - 1];
      RegisterStep(trace, r, t, v);
      ValueTraced(rest, r, t, v);
      WritesStep(trace, r);
      if Sets(e, r) {
        RE.ValueAtAfter(RI.WritesOf(Timed(rest), r), RE.Write(e.time, e.value), t);
      } else {
        assert RI.WritesOf(Timed(trace), r) == RI.WritesOf(Timed(rest), r);
      }
    }
  }

  lemma {:induction false} SetStep(trace: seq<Event>, r: nat, t: Time)
    requires trace != []
    ensures var e := trace[|trace| - 1];
      SetAt(trace, r, t) <==> (Sets(e, r) && e.time == t) || SetAt(trace[..|trace| - 1], r, t)
  {
    var rest := trace[..|trace| - 1];
    if SetAt(rest, r, t) {
      var i :| 0 <= i < |rest| && Sets(rest[i], r) && rest[i].time == t;
      assert Sets(trace[i], r) && trace[i].time == t;
    }
    if i :| 0 <= i < |trace| && Sets(trace[i], r) && trace[i].time == t && i < |rest| {
      assert Sets(rest[i], r);
    }
  }

  lemma {:induction false} SetTraced(trace: seq<Event>, r: nat, t: Time)
    ensures SetAt(trace, r, t) <==> RE.WrittenAt(RI.WritesOf(Timed(trace), r), t)
  {
    if trace != [] {
      var rest, e := trace[..|trace| - 1], trace[|trace| - 1];
      SetStep(trace, r, t);
      SetTraced(rest, r, t);
      WritesStep(trace, r);
      if Sets(e, r) {
        RE.ValueAtAfter(RI.WritesOf(Timed(rest), r), RE.Write(e.time, e.value), t);
      } else {
        assert RI.WritesOf(Timed(trace), r) == RI.WritesOf(Timed(rest), r);
      }
    }
  }

  /** The register side is told exactly what the trace says. */
  lemma {:induction false} WritesTraced(trace: seq<Event>, r: nat)
    ensures RegisterAsTraced(trace, r, RI.WritesOf(Timed(trace), r))
  {
    var ws := RI.WritesOf(Timed(trace), r);
    forall t, v ensures RegisterIs(trace, r, t, v) <==> RE.ValueAt(ws, t) == v {
      ValueTraced(trace, r, t, v);
    }
    forall t ensures SetAt(trace, r, t) <==> RE.WrittenAt(ws, t) {
      SetTraced(trace, r, t);
    }
  }

  lemma {:induction false} IsSetStep(trace: seq<Event>, r: nat)
    requires trace != []
    ensures IsSet(trace, r) <==> Sets(trace[|trace| - 1], r) || IsSet(trace[..|trace| - 1], r)
  {
    var rest := trace[..|trace| - 1];
    if IsSet(rest, r) {
      var i :| 0 <= i < |rest| && Sets(rest[i], r);
      assert Sets(trace[i], r);
    }
    if i :| 0 <= i < |trace| && Sets(trace[i], r) && i < |rest| {
      assert Sets(rest[i], r);
    }
  }

  ghost predicate InNumberOrder(events: seq<RI.TimedEvent>) {
    forall i :: 0 <= i < |events| && events[i].RegisterEvent? ==> events[i].idx <= RI.Count(events[..i])
  }

  lemma {:induction false} OneLess(trace: seq<Event>)
    requires trace != [] && InNumberOrder(Timed(trace))
    ensures InNumberOrder(Timed(trace[..|trace| - 1]))
  {
    TimedStep(trace);
    var n := |trace| - 1;
    var events, rest := Timed(trace), Timed(trace[..n]);
    forall i | 0 <= i < n && rest[i].RegisterEvent? ensures rest[i].idx <= RI.Count(rest[..i]) {
      assert rest[i] == events[i] && rest[..i] == events[..i];
    }
  }

  lemma {:induction false} CountTraced(trace: seq<Event>)
    requires InNumberOrder(Timed(trace))
    ensures Numbered(trace, RI.Count(Timed(trace)))
  {
    if trace != [] {
      var n := |trace| - 1;
      var rest, e := trace[..n], trace[n];
      OneLess(trace);
      CountTraced(rest);
      TimedStep(trace);
      var count, before := RI.Count(Timed(trace)), RI.Count(Timed(rest));
      assert e.Register? ==> Timed(trace)[n].idx <= before;
      forall r: nat ensures r < count <==> IsSet(trace, r) {
        IsSetStep(trace, r);
      }
    }
  }

  /** The clock of the register side stops at the trace's last event. */
  ghost predicate LastsTo(trace: seq<Event>, end: Time) {
    if trace == [] then end == 0
    else (exists i :: 0 <= i < |trace| && trace[i].time == end) && forall i :: 0 <= i < |trace| ==> trace[i].time <= end
  }

  lemma {:induction false} ClockTraced(trace: seq<Event>)
    requires WellFormed(trace)
    ensures LastsTo(trace, RI.LastTime(Timed(trace)))
  {
    TimesUp(trace);
    if trace != [] {
      TimedStep(trace);
    }
  }

  ghost predicate RegistersAsTraced(trace: seq<Event>) {
    && Numbered(trace, RI.Count(Timed(trace))) && LastsTo(trace, RI.LastTime(Timed(trace)))
    && forall r :: RegisterAsTraced(trace, r, RI.WritesOf(Timed(trace), r))
  }

  /** Registers are numbered without gaps, the clock runs to the last event, every register has its history. */
  lemma {:induction false} RegistersTraced(trace: seq<Event>)
    requires WellFormed(trace)
    ensures RegistersAsTraced(trace)
  {
    CountTraced(trace);
    ClockTraced(trace);
    forall r ensures RegisterAsTraced(trace, r, RI.WritesOf(Timed(trace), r)) {
      WritesTraced(trace, r);
    }
  }

  /** Memory and registers as the trace itself tells them. */
  ghost predicate AsTraced(trace: seq<Event>) {
    MemoryAsTraced(trace, Accesses(trace)) && RegistersAsTraced(trace)
  }
}
