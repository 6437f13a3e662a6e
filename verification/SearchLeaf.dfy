/** Regex search inside one memory leaf: matches that end in it, and partial matches that reach its end. */
module SearchLeaf {
  import opened Ranges
  import opened Automata
  import opened Execute

  /** A leaf's rectangle and its bytes. */
  datatype Hay = Hay(node: Node, bytes: seq<Byte>) {
    ghost predicate Valid() {
      node.Valid() && |bytes| == node.addrMax as int - node.addrMin as int + 1
    }

    /** The leaf says that address `x` holds `b` at time `t`. */
    ghost predicate At(x: int, t: Time, b: Byte) {
      Valid() && node.addrMin as int <= x <= node.addrMax as int && node.Times().Contains(t)
      && bytes[x - node.addrMin as int] == b
    }
  }

  /** A stretch of memory over which the machine has run, and where that left it. */
  datatype ChainHalf = ChainHalf(to: Handle, addrs: AddrRange, times: TimeRange)

  /** A stretch read from a state on. */
  datatype Chain = Chain(from: State, half: ChainHalf)

  // ---- executing the machine on a leaf's bytes ----

  /** Where reading bytes `i` to `j` of `w` leads. */
  ghost function RunTo(m: Machine, q: State, w: seq<Byte>, i: nat, j: nat): Option<Handle>
    requires i <= j < |w|
  {
    Go(m, AtState(q), w[i..j + 1])
  }

  ghost predicate Outcome(m: Machine, q: State, w: seq<Byte>, r: Option<(Handle, nat)>) {
    match r
    case None => Go(m, AtState(q), w) == None && forall j :: 0 <= j < |w| ==> RunTo(m, q, w, 0, j) != Some(Tip)
    case Some(p) =>
      p.1 < |w| && RunTo(m, q, w, 0, p.1) == Some(p.0) && (p.0.AtState? ==> p.1 == |w| - 1)
  }

  /** A run that stopped at a tip goes no further. */
  lemma {:induction false} TipEnds(m: Machine, h: Handle, w: seq<Byte>, i: nat, j: nat)
    requires i < j <= |w| && Go(m, h, w[..i]) == Some(Tip)
    ensures Go(m, h, w[..j]) == None
  {
    assert w[..j] == w[..i] + w[i..j];
    GoConcat(m, h, w[..i], w[i..j]);
  }

  lemma {:induction false} OutcomeIs(m: Machine, q: State, w: seq<Byte>, r: Option<(Handle, nat)>)
    requires Outcome(m, q, w, r) && w != []
    ensures forall j :: 0 <= j < |w| && RunTo(m, q, w, 0, j) == Some(Tip) ==> r == Some((Tip, j))
    ensures forall s :: Go(m, AtState(q), w) == Some(AtState(s)) ==> r == Some((AtState(s), |w| - 1))
  {
    assert w[..|w|] == w;
    forall j | 0 <= j < |w| && RunTo(m, q, w, 0, j) == Some(Tip) ensures r == Some((Tip, j)) {
      var i := r.value.1;
      if i < j && r.value.0 == Tip {
        TipEnds(m, AtState(q), w, i + 1, j + 1);
      }
      if j < i {
        TipEnds(m, AtState(q), w, j + 1, i + 1);
      }
    }
    forall s | Go(m, AtState(q), w) == Some(AtState(s)) ensures r == Some((AtState(s), |w| - 1)) {
      if r.value.0 == Tip && r.value.1 + 1 < |w| {
        TipEnds(m, AtState(q), w, r.value.1 + 1, |w|);
      }
    }
  }

  lemma {:induction false} StuckHere(m: Machine, q: State, w: seq<Byte>, i: nat, s: State)
    requires i < |w| && Go(m, AtState(q), w[..i]) == Some(AtState(s)) && (s, w[i]) !in m.table
    ensures Outcome(m, q, w, None)
  {
    forall j | 0 <= j < |w| ensures RunTo(m, q, w, 0, j) != Some(Tip) {
      if i <= j {
        assert w[..j + 1] == w[..i] + w[i..j + 1];
        GoConcat(m, AtState(q), w[..i], w[i..j + 1]);
      } else if j + 1 < i && Go(m, AtState(q), w[..j + 1]) == Some(Tip) {
        TipEnds(m, AtState(q), w, j + 1, i);
      }
    }
    assert w == w[..i] + w[i..];
    GoConcat(m, AtState(q), w[..i], w[i..]);
  }

  /** Runs the machine until it accepts, gets stuck, or the bytes end. */
  method ExecuteOnBytes(m: Machine, haystack: seq<Byte>, start: State) returns (r: Option<(Handle, nat)>)
    requires haystack != []
    ensures Outcome(m, start, haystack, r)
  {
    var state := start;
    var i := 0;
    while i < |haystack|
      invariant 0 <= i <= |haystack| && Go(m, AtState(start), haystack[..i]) == Some(AtState(state))
    {
      if (state, haystack[i]) !in m.table {
        StuckHere(m, start, haystack, i, state);
        return None;
      }
      assert haystack[..i + 1] == haystack[..i] + [haystack[i]];
      GoConcat(m, AtState(start), haystack[..i], [haystack[i]]);
      state := m.table[(state, haystack[i])];
      if state in m.accept {
        return Some((Tip, i));
      }
      i := i + 1;
    }
    r := Some((AtState(state), |haystack| - 1));
  }

  // ---- what one leaf contributes ----

  function HalfAt(node: Node, i: nat, j: nat, to: Handle): ChainHalf
    requires node.addrMin as int + i <= node.addrMax as int && node.addrMin as int + j <= node.addrMax as int
  {
    ChainHalf(to, AddrRange(node.addrMin + i as U64, node.addrMin + j as U64), node.Times())
  }

  /** A run over bytes `i` to `j` of the leaf, from state `q`. */
  ghost predicate RunsOver(hay: Hay, m: Machine, q: State, i: nat, j: nat, half: ChainHalf)
    requires hay.Valid()
  {
    && i <= j < |hay.bytes| && half == HalfAt(hay.node, i, j, half.to)
    && RunTo(m, q, hay.bytes, i, j) == Some(half.to) && (half.to.AtState? ==> j == |hay.bytes| - 1)
  }

  ghost predicate IsStart(hay: Hay, m: Machine, half: ChainHalf)
    requires hay.Valid()
  {
    exists i, j :: RunsOver(hay, m, m.initial, i, j, half)
  }

  ghost predicate IsChain(hay: Hay, m: Machine, c: Chain)
    requires hay.Valid()
  {
    exists j :: RunsOver(hay, m, c.from, 0, j, c.half)
  }

  /** A kept start, at byte `i` or before, reaches the end of the leaf in state `q`. */
  ghost predicate Kept(hay: Hay, starts: seq<ChainHalf>, q: State, i: nat) {
    exists h :: h in starts && h.to == AtState(q) && h.addrs.max == hay.node.addrMax && h.times == hay.node.Times()
                && h.addrs.min as int <= hay.node.addrMin as int + i
  }

  /** Starting at byte `i`: a match inside the leaf is there; a run that reaches its end is there, or an earlier one
      that reaches it in the same state. */
  ghost predicate StartKept(hay: Hay, m: Machine, starts: seq<ChainHalf>, i: nat)
    requires hay.Valid() && i < |hay.bytes|
  {
    && (forall j :: i <= j < |hay.bytes| && RunTo(m, m.initial, hay.bytes, i, j) == Some(Tip)
                    ==> HalfAt(hay.node, i, j, Tip) in starts)
    && (forall q :: Go(m, AtState(m.initial), hay.bytes[i..]) == Some(AtState(q)) ==> Kept(hay, starts, q, i))
  }

  /** Kept starts run as they say, come in address order, and no two stand in the same state at the leaf's end. */
  ghost predicate StartsSound(hay: Hay, m: Machine, starts: seq<ChainHalf>, n: nat)
    requires hay.Valid() && n <= |hay.bytes|
  {
    && (forall h :: h in starts ==> IsStart(hay, m, h) && h.addrs.min as int < hay.node.addrMin as int + n)
    && (forall a, b :: 0 <= a < b < |starts| ==> starts[a].addrs.min < starts[b].addrs.min)
    && (forall a, b :: 0 <= a < b < |starts| && starts[a].to.AtState? ==> starts[a].to != starts[b].to)
  }

  ghost predicate StartsComplete(hay: Hay, m: Machine, starts: seq<ChainHalf>, n: nat)
    requires hay.Valid() && n <= |hay.bytes|
  {
    forall i :: 0 <= i < n ==> StartKept(hay, m, starts, i)
  }

  /** The states in which kept starts stand at the leaf's end. */
  ghost predicate SeenStates(starts: seq<ChainHalf>, seen: set<State>) {
    && (forall q :: q in seen ==> exists h :: h in starts && h.to == AtState(q))
    && (forall h :: h in starts && h.to.AtState? ==> h.to.state in seen)
  }

  lemma {:induction false} KeptMore(hay: Hay, starts: seq<ChainHalf>, more: seq<ChainHalf>, q: State, i: nat)
    requires Kept(hay, starts, q, i)
    ensures Kept(hay, starts + more, q, i)
  {
    var h :| h in starts && h.to == AtState(q) && h.addrs.max == hay.node.addrMax && h.times == hay.node.Times()
             && h.addrs.min as int <= hay.node.addrMin as int + i;
    assert h in starts + more;
  }

  lemma {:induction false} StartKeptMore(hay: Hay, m: Machine, starts: seq<ChainHalf>, more: seq<ChainHalf>, i: nat)
    requires hay.Valid() && i < |hay.bytes| && StartKept(hay, m, starts, i)
    ensures StartKept(hay, m, starts + more, i)
  {
    forall q | Go(m, AtState(m.initial), hay.bytes[i..]) == Some(AtState(q)) ensures Kept(hay, starts + more, q, i) {
      KeptMore(hay, starts, more, q, i);
    }
  }

  lemma {:induction false} CompleteMore(hay: Hay, m: Machine, starts: seq<ChainHalf>, more: seq<ChainHalf>, n: nat)
    requires hay.Valid() && n < |hay.bytes| && StartsComplete(hay, m, starts, n) && StartKept(hay, m, starts + more, n)
    ensures StartsComplete(hay, m, starts + more, n + 1)
  {
    forall i | 0 <= i < n + 1 ensures StartKept(hay, m, starts + more, i) {
      if i < n {
        StartKeptMore(hay, m, starts, more, i);
      }
    }
  }

  lemma {:induction false} RunSlice(w: seq<Byte>, i: nat, j: nat)
    requires i <= j < |w|
    ensures w[i..][0..j - i + 1] == w[i..j + 1]
  {
  }

  /** What executing from byte `i` on tells. */
  lemma {:induction false} ExecutedAt(hay: Hay, m: Machine, q: State, i: nat, r: Option<(Handle, nat)>)
    requires hay.Valid() && i < |hay.bytes| && Outcome(m, q, hay.bytes[i..], r)
    ensures r.Some? ==> RunsOver(hay, m, q, i, i + r.value.1, HalfAt(hay.node, i, i + r.value.1, r.value.0))
    ensures forall j :: i <= j < |hay.bytes| && RunTo(m, q, hay.bytes, i, j) == Some(Tip) ==> r == Some((Tip, j - i))
    ensures forall s :: Go(m, AtState(q), hay.bytes[i..]) == Some(AtState(s))
                        ==> r == Some((AtState(s), |hay.bytes| - 1 - i))
  {
    var w := hay.bytes[i..];
    OutcomeIs(m, q, w, r);
    if r.Some? {
      RunSlice(hay.bytes, i, i + r.value.1);
    }
    forall j | i <= j < |hay.bytes| && RunTo(m, q, hay.bytes, i, j) == Some(Tip) ensures r == Some((Tip, j - i)) {
      RunSlice(hay.bytes, i, j);
      var k := j - i;
      assert RunTo(m, q, w, 0, k) == Some(Tip);
    }
  }

  lemma {:induction false} KeptNow(hay: Hay, m: Machine, starts: seq<ChainHalf>, i: nat, r: Option<(Handle, nat)>)
    requires hay.Valid() && i < |hay.bytes| && Outcome(m, m.initial, hay.bytes[i..], r)
    requires r.Some? && r.value.0.Tip? ==> HalfAt(hay.node, i, i + r.value.1, Tip) in starts
    requires r.Some? && r.value.0.AtState? ==> Kept(hay, starts, r.value.0.state, i)
    ensures StartKept(hay, m, starts, i)
  {
    ExecutedAt(hay, m, m.initial, i, r);
  }

  /** One start position: at most one half is added. */
  method TryStart(hay: Hay, m: Machine, i: nat, starts: seq<ChainHalf>, seen: set<State>)
    returns (starts': seq<ChainHalf>, seen': set<State>)
    requires hay.Valid() && i < |hay.bytes| && StartsSound(hay, m, starts, i)
    requires StartsComplete(hay, m, starts, i) && SeenStates(starts, seen)
    ensures StartsSound(hay, m, starts', i + 1)
    ensures StartsComplete(hay, m, starts', i + 1) && SeenStates(starts', seen')
  {
    var r := ExecuteOnBytes(m, hay.bytes[i..], m.initial);
    starts', seen' := starts, seen;
    ghost var more := [];
    ExecutedAt(hay, m, m.initial, i, r);
    if r.Some? && !(r.value.0.AtState? && r.value.0.state in seen) {
      var half := HalfAt(hay.node, i, i + r.value.1, r.value.0);
      more := [half];
      SoundMore(hay, m, starts, i, i + r.value.1, half, seen);
      starts' := starts + [half];
      if r.value.0.AtState? {
        seen' := seen + {r.value.0.state};
      }
      NowKept(hay, m, starts, seen, half, i);
    } else if r.Some? {
      SeenIsKept(hay, m, starts, seen, i, r.value.0.state);
    }
    assert starts' == starts + more;
    KeptNow(hay, m, starts', i, r);
    CompleteMore(hay, m, starts, more, i);
  }

  lemma {:induction false} NowKept(hay: Hay, m: Machine, starts: seq<ChainHalf>, seen: set<State>, half: ChainHalf,
                                   i: nat)
    requires hay.Valid() && i < |hay.bytes| && SeenStates(starts, seen)
    requires half.addrs.min as int == hay.node.addrMin as int + i && half.times == hay.node.Times()
    requires half.to.AtState? ==> half.addrs.max == hay.node.addrMax
    ensures half in starts + [half]
    ensures half.to.AtState? ==> Kept(hay, starts + [half], half.to.state, i)
    ensures SeenStates(starts + [half], if half.to.AtState? then seen + {half.to.state} else seen)
  {
    var all := starts + [half];
    assert half in all;
    forall q | q in (if half.to.AtState? then seen + {half.to.state} else seen)
      ensures exists h :: h in all && h.to == AtState(q)
    {
      if q in seen {
        var h :| h in starts && h.to == AtState(q);
        assert h in all;
      }
    }
  }

  /** A state seen before was reached by an earlier start, which stands at the end of the leaf. */
  lemma {:induction false} SeenIsKept(hay: Hay, m: Machine, starts: seq<ChainHalf>, seen: set<State>, i: nat, q: State)
    requires hay.Valid() && i <= |hay.bytes| && StartsSound(hay, m, starts, i) && SeenStates(starts, seen) && q in seen
    ensures Kept(hay, starts, q, i)
  {
    var h :| h in starts && h.to == AtState(q);
    assert IsStart(hay, m, h);
  }

  lemma {:induction false} SoundMore(hay: Hay, m: Machine, starts: seq<ChainHalf>, i: nat, j: nat, half: ChainHalf,
                                     seen: set<State>)
    requires hay.Valid() && i < |hay.bytes| && StartsSound(hay, m, starts, i) && SeenStates(starts, seen)
    requires RunsOver(hay, m, m.initial, i, j, half) && (half.to.AtState? ==> half.to.state !in seen)
    ensures StartsSound(hay, m, starts + [half], i + 1)
  {
    assert IsStart(hay, m, half);
    var all := starts + [half];
    forall a, b | 0 <= a < b < |all| && all[a].to.AtState? ensures all[a].to != all[b].to {
      assert starts[a] in starts;
    }
  }

  /** Starting from state `q` at the first byte, everything is there. */
  ghost predicate ChainKept(hay: Hay, m: Machine, chains: seq<Chain>, q: State)
    requires hay.Valid()
  {
    && (forall j :: 0 <= j < |hay.bytes| && RunTo(m, q, hay.bytes, 0, j) == Some(Tip)
                    ==> Chain(q, HalfAt(hay.node, 0, j, Tip)) in chains)
    && (forall s :: Go(m, AtState(q), hay.bytes) == Some(AtState(s))
                    ==> Chain(q, HalfAt(hay.node, 0, |hay.bytes| - 1, AtState(s))) in chains)
  }

  ghost predicate ChainsSound(hay: Hay, m: Machine, states: seq<State>, chains: seq<Chain>) {
    && hay.Valid() && (forall c :: c in chains ==> IsChain(hay, m, c) && c.from in states)
    && (forall a, b :: 0 <= a < b < |chains| ==> chains[a].from != chains[b].from)
  }

  ghost predicate ChainsComplete(hay: Hay, m: Machine, states: seq<State>, chains: seq<Chain>) {
    hay.Valid() && forall q :: q in states ==> ChainKept(hay, m, chains, q)
  }

  lemma {:induction false} ChainsMore(hay: Hay, m: Machine, states: seq<State>, chains: seq<Chain>, q: State,
                                      r: Option<(Handle, nat)>, more: seq<Chain>)
    requires ChainsSound(hay, m, states, chains) && ChainsComplete(hay, m, states, chains) && q !in states
    requires Outcome(m, q, hay.bytes, r)
    requires more == if r.Some? then [Chain(q, HalfAt(hay.node, 0, r.value.1, r.value.0))] else []
    ensures ChainsSound(hay, m, states + [q], chains + more) && ChainsComplete(hay, m, states + [q], chains + more)
  {
    assert hay.bytes[0..] == hay.bytes;
    ExecutedAt(hay, m, q, 0, r);
    assert r.Some? ==> more[0] in chains + more;
    forall p | p in states ensures ChainKept(hay, m, chains + more, p) {
      ChainKeptMore(hay, m, chains, more, p);
    }
  }

  lemma {:induction false} ChainKeptMore(hay: Hay, m: Machine, chains: seq<Chain>, more: seq<Chain>, q: State)
    requires hay.Valid() && ChainKept(hay, m, chains, q)
    ensures ChainKept(hay, m, chains + more, q)
  {
  }

  ghost predicate NoRepeats(s: seq<State>) {
    forall i, j :: 0 <= i < j < |s| ==> s[i] != s[j]
  }

  /** All a leaf contributes: stretches from every start position, and from every ordinary state at its first byte. */
  method PartialSearch(hay: Hay, m: Machine, states: seq<State>) returns (starts: seq<ChainHalf>, chains: seq<Chain>)
    requires hay.Valid() && NoRepeats(states)
    ensures StartsSound(hay, m, starts, |hay.bytes|) && StartsComplete(hay, m, starts, |hay.bytes|)
    ensures ChainsSound(hay, m, states, chains) && ChainsComplete(hay, m, states, chains)
  {
    starts := FindStarts(hay, m);
    chains := FindChainsIn(hay, m, states);
  }

  method FindStarts(hay: Hay, m: Machine) returns (starts: seq<ChainHalf>)
    requires hay.Valid()
    ensures StartsSound(hay, m, starts, |hay.bytes|) && StartsComplete(hay, m, starts, |hay.bytes|)
  {
    starts := [];
    var seen := {};
    var i := 0;
    while i < |hay.bytes|
      invariant 0 <= i <= |hay.bytes| && StartsSound(hay, m, starts, i)
      invariant StartsComplete(hay, m, starts, i) && SeenStates(starts, seen)
    {
      starts, seen := TryStart(hay, m, i, starts, seen);
      i := i + 1;
    }
  }

  method FindChainsIn(hay: Hay, m: Machine, states: seq<State>) returns (chains: seq<Chain>)
    requires hay.Valid() && NoRepeats(states)
    ensures ChainsSound(hay, m, states, chains) && ChainsComplete(hay, m, states, chains)
  {
    chains := [];
    var i := 0;
    while i < |states|
      invariant 0 <= i <= |states|
      invariant ChainsSound(hay, m, states[..i], chains) && ChainsComplete(hay, m, states[..i], chains)
    {
      var r := ExecuteOnBytes(m, hay.bytes, states[i]);
      ghost var before := chains;
      ExecutedWhole(hay, m, states[i], r);
      if r.Some? {
        chains := chains + [Chain(states[i], HalfAt(hay.node, 0, r.value.1, r.value.0))];
      } else {
        assert chains + [] == chains;
      }
      ChainsMore(hay, m, states[..i], before, states[i], r, chains[|before|..]);
      assert states[..i] + [states[i]] == states[..i + 1];
      i := i + 1;
    }
    assert states[..i] == states;
  }

  lemma {:induction false} ExecutedWhole(hay: Hay, m: Machine, q: State, r: Option<(Handle, nat)>)
    requires hay.Valid() && Outcome(m, q, hay.bytes, r)
    ensures r.Some? ==> hay.node.addrMin as int + r.value.1 <= hay.node.addrMax as int
  {
  }

  // ---- exactly which starts are kept ----

  /** Started at byte `i`, the run reaches the end of the leaf in state `q`. */
  ghost predicate ReachesEnd(hay: Hay, m: Machine, i: nat, q: State) {
    i < |hay.bytes| && Go(m, AtState(m.initial), hay.bytes[i..]) == Some(AtState(q))
  }

  /** Started at byte `i`, the run ends in a match inside the leaf. */
  ghost predicate MatchesInside(hay: Hay, m: Machine, i: nat) {
    exists j :: i <= j < |hay.bytes| && RunTo(m, m.initial, hay.bytes, i, j) == Some(Tip)
  }

  ghost predicate KeptAt(hay: Hay, starts: seq<ChainHalf>, i: nat) {
    exists h :: h in starts && h.addrs.min as int == hay.node.addrMin as int + i
  }

  lemma {:induction false} StartRuns(hay: Hay, m: Machine, h: ChainHalf, i: nat)
    requires hay.Valid() && IsStart(hay, m, h) && h.addrs.min as int == hay.node.addrMin as int + i
    ensures i < |hay.bytes| && (h.to.Tip? ==> MatchesInside(hay, m, i))
    ensures (h.to.AtState? ==> ReachesEnd(hay, m, i, h.to.state))
  {
    var a: nat, j: nat :| RunsOver(hay, m, m.initial, a, j, h);
    assert a == i;
    if h.to.Tip? {
      assert RunTo(m, m.initial, hay.bytes, i, j) == Some(Tip);
    } else {
      assert hay.bytes[i..j + 1] == hay.bytes[i..];
    }
  }

  lemma {:induction false} EarlierKept(hay: Hay, m: Machine, starts: seq<ChainHalf>, k: nat, q: State)
    returns (h: ChainHalf)
    requires hay.Valid() && StartsComplete(hay, m, starts, |hay.bytes|) && ReachesEnd(hay, m, k, q)
    ensures h in starts && h.to == AtState(q) && h.addrs.min as int <= hay.node.addrMin as int + k
  {
    assert StartKept(hay, m, starts, k);
    h :| h in starts && h.to == AtState(q) && h.addrs.max == hay.node.addrMax && h.times == hay.node.Times()
         && h.addrs.min as int <= hay.node.addrMin as int + k;
  }

  lemma {:induction false} OnePerState(hay: Hay, m: Machine, starts: seq<ChainHalf>, g: ChainHalf, h: ChainHalf)
    requires hay.Valid() && StartsSound(hay, m, starts, |hay.bytes|) && g in starts && h in starts && g.to.AtState?
    requires g.to == h.to
    ensures g == h
  {
    var a :| 0 <= a < |starts| && starts[a] == g;
    var b :| 0 <= b < |starts| && starts[b] == h;
  }

  /** A start that reaches the end of the leaf is the first one to arrive there in its state. */
  ghost predicate Earliest(hay: Hay, m: Machine, h: ChainHalf) {
    forall i, q :: h.to == AtState(q) && ReachesEnd(hay, m, i, q) ==> h.addrs.min as int <= hay.node.addrMin as int + i
  }

  lemma {:induction false} StartsEarliest(hay: Hay, m: Machine, starts: seq<ChainHalf>, h: ChainHalf)
    requires hay.Valid() && StartsSound(hay, m, starts, |hay.bytes|) && StartsComplete(hay, m, starts, |hay.bytes|)
    requires h in starts
    ensures Earliest(hay, m, h)
  {
    forall i, q | h.to == AtState(q) && ReachesEnd(hay, m, i, q)
      ensures h.addrs.min as int <= hay.node.addrMin as int + i
    {
      var g := EarlierKept(hay, m, starts, i, q);
      OnePerState(hay, m, starts, g, h);
    }
  }

  /** Not every start is kept: one that runs to the end of the leaf is kept exactly if no earlier start
      arrives there in the same state. */
  lemma {:induction false} KeptIff(hay: Hay, m: Machine, starts: seq<ChainHalf>, i: nat)
    requires hay.Valid() && StartsSound(hay, m, starts, |hay.bytes|) && StartsComplete(hay, m, starts, |hay.bytes|)
    requires i < |hay.bytes|
    ensures KeptAt(hay, starts, i) <==>
              MatchesInside(hay, m, i)
              || exists q :: ReachesEnd(hay, m, i, q) && forall k :: 0 <= k < i ==> !ReachesEnd(hay, m, k, q)
  {
    if h :| h in starts && h.addrs.min as int == hay.node.addrMin as int + i {
      StartRuns(hay, m, h, i);
      if h.to.AtState? {
        forall k | 0 <= k < i ensures !ReachesEnd(hay, m, k, h.to.state) {
          if ReachesEnd(hay, m, k, h.to.state) {
            var g := EarlierKept(hay, m, starts, k, h.to.state);
            OnePerState(hay, m, starts, g, h);
          }
        }
      }
    }
    if MatchesInside(hay, m, i) {
      assert StartKept(hay, m, starts, i);
      var j: nat :| i <= j < |hay.bytes| && RunTo(m, m.initial, hay.bytes, i, j) == Some(Tip);
      assert HalfAt(hay.node, i, j, Tip) in starts;
    }
    if q :| ReachesEnd(hay, m, i, q) && forall k :: 0 <= k < i ==> !ReachesEnd(hay, m, k, q) {
      var h := EarlierKept(hay, m, starts, i, q);
      var k := h.addrs.min as int - hay.node.addrMin as int;
      StartAddress(hay, m, h);
      StartRuns(hay, m, h, k);
    }
  }

  lemma {:induction false} StartAddress(hay: Hay, m: Machine, h: ChainHalf)
    requires hay.Valid() && IsStart(hay, m, h)
    ensures h.addrs.min >= hay.node.addrMin
  {
  }

  lemma {:induction false} GoOne(m: Machine, q: State, b: Byte)
    requires (q, b) in m.table
    ensures Go(m, AtState(q), [b]) == Some(Stand(m, m.table[(q, b)]))
  {
    assert [b][1..] == [];
  }

  lemma {:induction false} GoTwo(m: Machine, q: State, b: Byte, c: Byte, r: State)
    requires Go(m, AtState(q), [b]) == Some(AtState(r)) && (r, c) in m.table
    ensures Go(m, AtState(q), [b, c]) == Some(Stand(m, m.table[(r, c)]))
  {
    GoOne(m, r, c);
    GoConcat(m, AtState(q), [b], [c]);
    assert [b] + [c] == [b, c];
  }

  /** One or more times the byte `a`, then the byte `b`. */
  ghost predicate RepeatsThen(m: Machine, a: Byte, b: Byte) {
    && m.initial == 1 && m.accept == {3}
    && m.table == map[(1, a) := 2, (2, a) := 2, (2, b) := 3]
  }

  /** For a leaf that holds the byte `a` twice, the second one starts a match whenever the byte `b` comes next;
      and yet it is not kept: the first one stands in the same state at the end of the leaf. */
  lemma {:induction false} NotEveryStartKept(hay: Hay, m: Machine, starts: seq<ChainHalf>, a: Byte, b: Byte)
    requires a != b && RepeatsThen(m, a, b) && hay.Valid() && hay.bytes == [a, a]
    requires StartsSound(hay, m, starts, 2) && StartsComplete(hay, m, starts, 2)
    ensures Go(m, AtState(m.initial), [a, b]) == Some(Tip) && !KeptAt(hay, starts, 1)
  {
    GoOne(m, 1, a);
    GoTwo(m, 1, a, a, 2);
    GoTwo(m, 1, a, b, 2);
    assert hay.bytes[0..] == [a, a] && hay.bytes[1..] == [a] && hay.bytes[1..2] == [a];
    assert ReachesEnd(hay, m, 0, 2) && ReachesEnd(hay, m, 1, 2);
    KeptIff(hay, m, starts, 1);
    assert !MatchesInside(hay, m, 1) by {
      assert RunTo(m, 1, hay.bytes, 1, 1) == Some(AtState(2));
    }
  }

  // ---- the ordinary states ----

  ghost predicate Ordinary(d: Dfa, q: State) {
    q !in d.initial && q !in d.accept && exists l :: l in d.links && (l.from == q || l.to == q)
  }

  function Unseen(d: Dfa, seen: seq<State>, q: State): (r: seq<State>)
    requires NoRepeats(seen)
    ensures NoRepeats(r) && (q !in d.initial && q !in d.accept ==> q in r)
    ensures forall s :: s in seen ==> s in r
    ensures forall s :: s in r ==> s in seen || (s == q && q !in d.initial && q !in d.accept)
  {
    if q in d.initial || q in d.accept || q in seen then seen else seen + [q]
  }

  /** Every linked state but the initial and accepting ones, each once. */
  method NonSpecialStates(d: Dfa) returns (states: seq<State>)
    ensures NoRepeats(states) && forall q :: q in states <==> Ordinary(d, q)
  {
    states := [];
    var i := 0;
    while i < |d.links|
      invariant 0 <= i <= |d.links| && NoRepeats(states)
      invariant forall q :: q in states ==> Ordinary(d, q)
      invariant forall q, k ::
        0 <= k < i && (d.links[k].from == q || d.links[k].to == q) && q !in d.initial && q !in d.accept ==> q in states
    {
      var l := d.links[i];
      assert l in d.links;
      states := Unseen(d, states, l.from);
      states := Unseen(d, states, l.to);
      i := i + 1;
    }
  }
}
