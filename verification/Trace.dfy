/** The one stream of events a trace consists of, and what each part of the indexer sees of it. */
module Trace {
  import opened Ranges
  import opened Disjoint
  import opened Passes
  import RI = RegisterIndex

  datatype Mode = Read | Write | ReadWrite

  datatype Event =
    | Memory(time: Time, addr: Addr, bytes: seq<Byte>, mode: Mode)
    | Register(time: Time, idx: nat, value: U64)

  /** Memory events drive the sweep whatever their mode; only pure reads may be dropped as duplicates. */
  function Accesses(trace: seq<Event>): seq<Access> {
    if trace == [] then []
    else
      var e := trace[|trace| - 1];
      Accesses(trace[..|trace| - 1]) + if e.Memory? then [Access(e.time, e.addr, e.bytes, e.mode.Read?)] else []
  }

  ghost predicate MemoryOk(e: Event) {
    e.Memory? ==> Access(e.time, e.addr, e.bytes, e.mode.Read?).Valid()
  }

  /** Every event that reads gives one read leaf. */
  function Reads(trace: seq<Event>): seq<Node>
    requires forall i :: 0 <= i < |trace| ==> MemoryOk(trace[i])
  {
    if trace == [] then []
    else
      var e := trace[|trace| - 1];
      assert MemoryOk(e);
      Reads(trace[..|trace| - 1])
      + if !e.Memory? || e.mode.Write? then []
        else [Node(e.addr, (e.addr as int + |e.bytes| - 1) as Addr, e.time, e.time)]
  }

  /** Register events in order; memory events move the clock. */
  function Timed(trace: seq<Event>): (r: seq<RI.TimedEvent>)
    ensures |r| == |trace|
  {
    seq(|trace|, i requires 0 <= i < |trace| => match trace[i]
                                                case Memory(time, _, _, _) => RI.MemoryEvent(time)
                                                case Register(time, idx, value) => RI.RegisterEvent(time, idx, value))
  }

  /** Times never decrease, accesses are not empty and stay in the address space, and registers are numbered in order of
      first appearance. */
  ghost predicate WellFormed(trace: seq<Event>) {
    RI.WellFormed(Timed(trace)) && forall i :: 0 <= i < |trace| ==> MemoryOk(trace[i])
  }

  lemma {:induction false} TimesUp(trace: seq<Event>)
    requires WellFormed(trace)
    ensures forall i, j :: 0 <= i < j < |trace| ==> trace[i].time <= trace[j].time
  {
    forall i, j | 0 <= i < j < |trace| ensures trace[i].time <= trace[j].time {
      assert Timed(trace)[i].time == trace[i].time && Timed(trace)[j].time == trace[j].time;
    }
  }

  ghost predicate Rising(trace: seq<Event>) {
    && (forall i, j :: 0 <= i < j < |trace| ==> trace[i].time <= trace[j].time)
    && (forall i :: 0 <= i < |trace| ==> MemoryOk(trace[i]))
  }

  lemma {:induction false} AccessesOrdered(trace: seq<Event>, now: Time)
    requires Rising(trace) && forall i :: 0 <= i < |trace| ==> trace[i].time <= now
    ensures TimeOrdered(Accesses(trace), now)
  {
    if trace != [] {
      var e := trace[|trace| - 1];
      AccessesOrdered(trace[..|trace| - 1], e.time);
      assert MemoryOk(e);
    }
  }

  /** The accesses of a trace come in time order. */
  lemma {:induction false} AccessesInOrder(trace: seq<Event>)
    requires WellFormed(trace)
    ensures InOrder(Accesses(trace))
  {
    TimesUp(trace);
    AccessesOrdered(trace, TIME_MAX);
  }

  lemma {:induction false} ReadsValid(trace: seq<Event>)
    requires forall i :: 0 <= i < |trace| ==> MemoryOk(trace[i])
    ensures forall n :: n in Reads(trace) ==> n.Valid()
  {
    if trace != [] {
      ReadsValid(trace[..|trace| - 1]);
      assert MemoryOk(trace[|trace| - 1]);
    }
  }

  /** At time `u` an event read a matching address. */
  ghost predicate ReadAt(trace: seq<Event>, m: Matcher, u: Time) {
    exists i, x :: 0 <= i < |trace| && Reading(trace[i], x, u) && m.Scalar(x)
  }

  ghost predicate Reading(e: Event, x: U64, u: Time) {
    e.Memory? && !e.mode.Write? && e.time == u && e.addr <= x && (x - e.addr) as int < |e.bytes|
  }

  ghost predicate ReadBy(nodes: seq<Node>, x: U64, u: Time) {
    exists i :: 0 <= i < |nodes| && nodes[i].HasAddr(x) && nodes[i].timeMin == u
  }

  lemma {:induction false} ReadsAre(trace: seq<Event>, x: U64, u: Time)
    requires forall i :: 0 <= i < |trace| ==> MemoryOk(trace[i])
    ensures ReadBy(Reads(trace), x, u) <==> exists i :: 0 <= i < |trace| && Reading(trace[i], x, u)
  {
    if trace != [] {
      var rest, e := trace[..|trace| - 1], trace[|trace| - 1];
      assert MemoryOk(e);
      ReadsAre(rest, x, u);
      var before, all := Reads(rest), Reads(trace);
      assert forall i :: 0 <= i < |before| ==> all[i] == before[i];
      if i :| 0 <= i < |trace| && Reading(trace[i], x, u) {
        if i < |rest| {
          assert Reading(rest[i], x, u);
        } else {
          assert all[|before|].HasAddr(x) && all[|before|].timeMin == u;
        }
      }
    }
  }

  ghost predicate IsRead(e: Event) {
    e.Memory? && !e.mode.Write?
  }

  /** The leaf spans the bytes of the event, at its time alone. */
  ghost predicate SpansRead(n: Node, e: Event) {
    && e.Memory? && n.addrMin == e.addr && n.addrMax as int == e.addr as int + |e.bytes| - 1
    && n.timeMin == n.timeMax == e.time
  }

  /** `at` lists, in ascending order, exactly the positions of the events that read. */
  ghost predicate ReadsAt(trace: seq<Event>, at: seq<nat>) {
    && (forall k :: 0 <= k < |at| ==> at[k] < |trace|)
    && (forall k, m :: 0 <= k < m < |at| ==> at[k] < at[m])
    && (forall i :: 0 <= i < |trace| ==> (IsRead(trace[i]) <==> i in at))
  }

  lemma {:induction false} ReadsAtLast(trace: seq<Event>, before: seq<nat>)
    requires trace != [] && ReadsAt(trace[..|trace| - 1], before)
    ensures ReadsAt(trace, if IsRead(trace[|trace| - 1]) then before + [|trace| - 1] else before)
  {
    var n := |trace| - 1;
    var at := if IsRead(trace[n]) then before + [n] else before;
    forall i | 0 <= i < |trace| ensures IsRead(trace[i]) <==> i in at {
      if i < n {
        assert trace[..n][i] == trace[i] && (i in at <==> i in before);
      } else {
        assert n !in before;
      }
    }
  }

  /** Each event that reads has one read leaf, in the order of the trace, and no other event has one. */
  lemma {:induction false} ReadsInOrder(trace: seq<Event>) returns (at: seq<nat>)
    requires forall i :: 0 <= i < |trace| ==> MemoryOk(trace[i])
    ensures ReadsAt(trace, at) && |at| == |Reads(trace)|
    ensures forall k :: 0 <= k < |at| ==> SpansRead(Reads(trace)[k], trace[at[k]])
  {
    at := [];
    if trace != [] {
      var n := |trace| - 1;
      assert MemoryOk(trace[n]);
      var before := ReadsInOrder(trace[..n]);
      ReadsAtLast(trace, before);
      at := if IsRead(trace[n]) then before + [n] else before;
      forall k | 0 <= k < |at| ensures SpansRead(Reads(trace)[k], trace[at[k]]) {
        assert k < |before| ==> trace[..n][before[k]] == trace[before[k]];
      }
    }
  }
}
