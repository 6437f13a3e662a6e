/** Which starts of matches are reported: not all, and exactly which. Ends with the search of one zone. */
module SearchStarts {
  import opened Ranges
  import opened Automata
  import opened Execute
  import opened SearchLeaf
  import opened SearchChain
  import opened SearchZone
  import opened SearchMatch

  // ---- a run that stands in the initial state at the end of a leaf is lost there ----

  ghost predicate LeafEnds(hays: seq<Hay>, y: int, t: Time) {
    exists l :: 0 <= l < |hays| && hays[l].node.addrMax as int == y && hays[l].node.Times().Contains(t)
  }

  /** After `n` bytes of `w`, read from address `x` on, the run stands in the initial state and a leaf ends. */
  ghost predicate StandsInitial(hays: seq<Hay>, m: Machine, to: Handle, x: int, w: seq<Byte>, t: Time, n: nat) {
    n < |w| && Go(m, to, w[..n]) == Some(AtState(m.initial)) && LeafEnds(hays, x + n - 1, t)
  }

  ghost predicate PassesInitial(hays: seq<Hay>, m: Machine, to: Handle, x: int, w: seq<Byte>, t: Time, from: nat) {
    exists n :: from <= n && StandsInitial(hays, m, to, x, w, t, n)
  }

  /** A leaf ends inside another's addresses, at a time of both, only if it is that other leaf. */
  lemma {:induction false} EndsWithin(hays: seq<Hay>, l: nat, y: int, t: Time)
    requires GoodHays(hays) && l < |hays| && hays[l].node.Times().Contains(t) && LeafEnds(hays, y, t)
    requires hays[l].node.addrMin as int <= y <= hays[l].node.addrMax as int
    ensures y == hays[l].node.addrMax as int
  {
    var k :| 0 <= k < |hays| && hays[k].node.addrMax as int == y && hays[k].node.Times().Contains(t);
    OneLeaf(hays, k, l, y, t);
  }

  /** The first `n` bytes lie in leaf `l`, which holds all of the word or ends there. */
  ghost predicate FirstPiece(hays: seq<Hay>, l: nat, x: int, w: seq<Byte>, t: Time, n: nat) {
    && l < |hays| && hays[l].node.Times().Contains(t) && 0 < n <= |w|
    && hays[l].node.addrMin as int <= x && x + n - 1 <= hays[l].node.addrMax as int
    && (n < |w| ==> hays[l].node.addrMax as int == x + n - 1)
  }

  lemma {:induction false} NoneInPiece(hays: seq<Hay>, m: Machine, to: Handle, x: int, w: seq<Byte>, t: Time, l: nat,
                                       n: nat, j: nat)
    requires GoodHays(hays) && FirstPiece(hays, l, x, w, t, n) && 0 < j < n
    ensures !StandsInitial(hays, m, to, x, w, t, j)
  {
    if StandsInitial(hays, m, to, x, w, t, j) {
      EndsWithin(hays, l, x + j - 1, t);
    }
  }

  lemma {:induction false} GoRest(m: Machine, to: Handle, w: seq<Byte>, n: nat, j: nat, after: Handle)
    requires n + j <= |w| && Go(m, to, w[..n]) == Some(after)
    ensures Go(m, to, w[..n + j]) == Go(m, after, w[n..][..j])
  {
    assert w[..n + j] == w[..n] + w[n..][..j];
    GoConcat(m, to, w[..n], w[n..][..j]);
  }

  /** The initial state is passed in the rest exactly if it is passed at all. */
  lemma {:induction false} PassesLater(hays: seq<Hay>, m: Machine, to: Handle, x: int, w: seq<Byte>, t: Time, l: nat,
                                       n: nat, after: Handle)
    requires GoodHays(hays) && FirstPiece(hays, l, x, w, t, n) && n < |w| && Go(m, to, w[..n]) == Some(after)
    ensures PassesInitial(hays, m, to, x, w, t, 1) <==> PassesInitial(hays, m, after, x + n, w[n..], t, 0)
  {
    var y, rest := x + n, w[n..];
    if j :| 1 <= j && StandsInitial(hays, m, to, x, w, t, j) {
      if j < n {
        NoneInPiece(hays, m, to, x, w, t, l, n, j);
      }
      var i := j - n;
      GoRest(m, to, w, n, i, after);
      assert StandsInitial(hays, m, after, y, rest, t, i);
    }
    if i :| 0 <= i && StandsInitial(hays, m, after, y, rest, t, i) {
      GoRest(m, to, w, n, i, after);
      assert StandsInitial(hays, m, to, x, w, t, n + i);
    }
  }

  lemma {:induction false} PassesNever(hays: seq<Hay>, m: Machine, to: Handle, x: int, w: seq<Byte>, t: Time, l: nat)
    requires GoodHays(hays) && FirstPiece(hays, l, x, w, t, |w|)
    ensures !PassesInitial(hays, m, to, x, w, t, 1)
  {
    if j :| 1 <= j && StandsInitial(hays, m, to, x, w, t, j) {
      NoneInPiece(hays, m, to, x, w, t, l, |w|, j);
    }
  }

  lemma {:induction false} PassesFromNext(hays: seq<Hay>, m: Machine, to: Handle, x: int, w: seq<Byte>, t: Time)
    requires to != AtState(m.initial)
    ensures PassesInitial(hays, m, to, x, w, t, 0) <==> PassesInitial(hays, m, to, x, w, t, 1)
  {
    if n: nat :| 0 <= n && StandsInitial(hays, m, to, x, w, t, n) {
      assert w[..0] == [];
      assert 1 <= n && StandsInitial(hays, m, to, x, w, t, n);
    }
    if n :| 1 <= n && StandsInitial(hays, m, to, x, w, t, n) {
      assert 0 <= n && StandsInitial(hays, m, to, x, w, t, n);
    }
  }

  // ---- a task reports its start unless its run is lost ----

  ghost predicate NoneInitial(m: Machine, chains: seq<Chain>) {
    forall i :: 0 <= i < |chains| ==> chains[i].from != m.initial
  }

  lemma {:induction false} GoesOnAt(h: ChainHalf, c: Chain, g: ChainHalf, t: Time)
    requires Proper(h) && Proper(c.half) && Extension(h, c) == Some(g) && g.times.Contains(t)
    ensures OnAt(h, c, t)
  {
  }

  ghost function TallyOver(chains: seq<Chain>, h: ChainHalf, i: nat, f: ChainHalf -> nat): nat
    requires ProperChains(chains) && Proper(h) && i < |chains|
  {
    match Extension(h, chains[i])
    case None => 0
    case Some(g) => Tally(chains, g, f)
  }

  lemma {:induction false} TallyLast(chains: seq<Chain>, h: ChainHalf, n: nat, f: ChainHalf -> nat)
    requires ProperChains(chains) && Proper(h) && 0 < n <= |chains|
    ensures TallyUpTo(chains, h, n, f) == TallyUpTo(chains, h, n - 1, f) + TallyOver(chains, h, n - 1, f)
  {
  }

  /** At one time a task goes on over one chain only. */
  lemma {:induction false} TallyOnly(chains: seq<Chain>, h: ChainHalf, n: nat, i: nat, s: Addr, t: Time)
    requires ProperChains(chains) && Proper(h) && ForkOnce(chains) && n <= |chains| && i < |chains|
    requires OnAt(h, chains[i], t)
    ensures TallyUpTo(chains, h, n, Scored(StartsAt(s, t))) <= TallyOver(chains, h, i, Scored(StartsAt(s, t)))
    decreases n
  {
    if n > 0 {
      TallyLast(chains, h, n, Scored(StartsAt(s, t)));
      if n - 1 == i {
        NoneBelow(chains, h, i, s, t);
      } else {
        OffIsNone(chains, h, i, n - 1, s, t);
        TallyOnly(chains, h, n - 1, i, s, t);
      }
    }
  }

  lemma {:induction false} NoneBelow(chains: seq<Chain>, h: ChainHalf, i: nat, s: Addr, t: Time)
    requires ProperChains(chains) && Proper(h) && ForkOnce(chains) && i < |chains| && OnAt(h, chains[i], t)
    ensures TallyUpTo(chains, h, i, Scored(StartsAt(s, t))) == 0
  {
    OthersOff(chains, h, i, t);
    TallyAtMostOneUpTo(chains, h, i, s, t);
  }

  lemma {:induction false} OthersOff(chains: seq<Chain>, h: ChainHalf, i: nat, t: Time)
    requires ForkOnce(chains) && i < |chains| && OnAt(h, chains[i], t)
    ensures forall j :: 0 <= j < |chains| && j != i ==> !OnAt(h, chains[j], t)
  {
    forall j | 0 <= j < |chains| && j != i ensures !OnAt(h, chains[j], t) {
    }
  }

  lemma {:induction false} OffIsNone(chains: seq<Chain>, h: ChainHalf, i: nat, j: nat, s: Addr, t: Time)
    requires ProperChains(chains) && Proper(h) && ForkOnce(chains) && i < |chains| && j < |chains| && j != i
    requires OnAt(h, chains[i], t)
    ensures TallyOver(chains, h, j, Scored(StartsAt(s, t))) == 0
  {
    OthersOff(chains, h, i, t);
    OffIsLate(chains, h, j, s, t);
  }

  lemma {:induction false} OffIsLate(chains: seq<Chain>, h: ChainHalf, j: nat, s: Addr, t: Time)
    requires ProperChains(chains) && Proper(h) && ForkOnce(chains) && j < |chains| && !OnAt(h, chains[j], t)
    ensures TallyOver(chains, h, j, Scored(StartsAt(s, t))) == 0
  {
    if Extension(h, chains[j]).Some? {
      var g := Extension(h, chains[j]).value;
      if g.times.Contains(t) {
        GoesOnAt(h, chains[j], g, t);
      }
      TallyAtMostOne(chains, g, s, t);
    }
  }

  /** The one task that goes on at time `t` decides. */
  lemma {:induction false} TallyGoesOn(chains: seq<Chain>, h: ChainHalf, g: ChainHalf, s: Addr, t: Time)
    requires ProperChains(chains) && Proper(h) && Proper(g) && ForkOnce(chains) && GoesOn(chains, h, g)
    requires g.times.Contains(t)
    ensures Tally(chains, h, Scored(StartsAt(s, t))) == Tally(chains, g, Scored(StartsAt(s, t)))
  {
    var i: nat :| i < |chains| && Extension(h, chains[i]) == Some(g);
    GoesOnAt(h, chains[i], g, t);
    TallyOnly(chains, h, |chains|, i, s, t);
    TallyVia(chains, h, |chains|, i, Scored(StartsAt(s, t)));
    assert Scored(StartsAt(s, t))(h) == ScoreOf(StartsAt(s, t), h) == 0;
  }

  lemma {:induction false} TallyInitial(m: Machine, chains: seq<Chain>, h: ChainHalf, s: Addr, t: Time)
    requires ProperChains(chains) && Proper(h) && ForkOnce(chains) && NoneInitial(m, chains)
    requires h.to == AtState(m.initial)
    ensures Tally(chains, h, Scored(StartsAt(s, t))) == 0
  {
    TallyAtMostOneUpTo(chains, h, |chains|, s, t);
    assert Scored(StartsAt(s, t))(h) == ScoreOf(StartsAt(s, t), h) == 0;
  }

  lemma {:induction false} TallyTip(chains: seq<Chain>, h: ChainHalf, t: Time)
    requires ProperChains(chains) && Proper(h) && h.to.Tip? && h.times.Contains(t)
    ensures Tally(chains, h, Scored(StartsAt(h.addrs.min, t))) == 1
  {
    assert Scored(StartsAt(h.addrs.min, t))(h) == ScoreOf(StartsAt(h.addrs.min, t), h) == 1;
  }

  lemma {:induction false} TaskLost(hays: seq<Hay>, m: Machine, chains: seq<Chain>, h: ChainHalf, k: nat, t: Time,
                                    w: seq<Byte>)
    requires ProperChains(chains) && Proper(h) && ForkOnce(chains) && NoneInitial(m, chains)
    requires EndsLeaf(hays, h, k) && h.times.Contains(t) && h.to == AtState(m.initial) && w != []
    ensures Tally(chains, h, Scored(StartsAt(h.addrs.min, t))) == 0
    ensures PassesInitial(hays, m, h.to, h.addrs.max as int + 1, w, t, 0)
  {
    var x := h.addrs.max as int + 1;
    TallyInitial(m, chains, h, h.addrs.min, t);
    assert w[..0] == [] && LeafEnds(hays, x - 1, t);
    assert StandsInitial(hays, m, h.to, x, w, t, 0);
  }

  /** The task at `h` goes on as one at `g`, which has read the `n` bytes of the word in leaf `l`. */
  ghost predicate OnTo(hays: seq<Hay>, m: Machine, chains: seq<Chain>, h: ChainHalf, g: ChainHalf, t: Time,
                       w: seq<Byte>, n: nat, l: nat)
    requires ProperChains(chains) && Proper(h) && Proper(g)
  {
    exists d :: d == n && FirstPiece(hays, l, h.addrs.max as int + 1, w, t, d)
      && Go(m, h.to, w[..d]) == Some(g.to) && GoesOn(chains, h, g) && g.times.Contains(t) && g.addrs.min == h.addrs.min
      && g.addrs.max as int == h.addrs.max as int + d
      && (if d == |w| then g.to.Tip? else g.to.AtState? && EndsLeaf(hays, g, l))
  }

  lemma {:induction false} GoOnTo(hays: seq<Hay>, m: Machine, states: seq<State>, chains: seq<Chain>, h: ChainHalf,
                                  k: nat, t: Time, w: seq<Byte>)
    returns (n: nat, g: ChainHalf, l: nat)
    requires Ready(hays, m, states, chains) && Stands(hays, m, states, h, k, t, w) && h.to.state != m.initial
    ensures Proper(g) && 0 < n <= |w| && OnTo(hays, m, chains, h, g, t, w, n, l)
  {
    n, g, l := Onward(hays, m, states, chains, h, k, t, w);
    assert n == |w| ==> w[..n] == w;
    assert FirstPiece(hays, l, h.addrs.max as int + 1, w, t, n);
  }

  lemma {:induction false} TaskEnds(hays: seq<Hay>, m: Machine, chains: seq<Chain>, h: ChainHalf, g: ChainHalf,
                                    t: Time, w: seq<Byte>, l: nat)
    requires GoodHays(hays) && ProperChains(chains) && Proper(h) && Proper(g) && ForkOnce(chains)
    requires OnTo(hays, m, chains, h, g, t, w, |w|, l) && h.to != AtState(m.initial)
    ensures Tally(chains, h, Scored(StartsAt(h.addrs.min, t))) > 0
    ensures !PassesInitial(hays, m, h.to, h.addrs.max as int + 1, w, t, 0)
  {
    var x := h.addrs.max as int + 1;
    TallyGoesOn(chains, h, g, h.addrs.min, t);
    TallyTip(chains, g, t);
    PassesFromNext(hays, m, h.to, x, w, t);
    PassesNever(hays, m, h.to, x, w, t, l);
  }

  /** `g` reports the start of `h` and passes the initial state exactly if `h` does. */
  ghost predicate SameFate(hays: seq<Hay>, m: Machine, chains: seq<Chain>, h: ChainHalf, g: ChainHalf, t: Time,
                           w: seq<Byte>, n: nat)
    requires ProperChains(chains) && Proper(h) && Proper(g) && n <= |w|
  {
    && g.addrs.min == h.addrs.min
    && Tally(chains, h, Scored(StartsAt(h.addrs.min, t))) == Tally(chains, g, Scored(StartsAt(g.addrs.min, t)))
    && (PassesInitial(hays, m, h.to, h.addrs.max as int + 1, w, t, 0)
        <==> PassesInitial(hays, m, g.to, g.addrs.max as int + 1, w[n..], t, 0))
  }

  lemma {:induction false} TaskMoves(hays: seq<Hay>, m: Machine, chains: seq<Chain>, h: ChainHalf, g: ChainHalf,
                                     t: Time, w: seq<Byte>, l: nat, n: nat)
    requires GoodHays(hays) && ProperChains(chains) && Proper(h) && Proper(g) && ForkOnce(chains) && n < |w|
    requires OnTo(hays, m, chains, h, g, t, w, n, l) && h.to != AtState(m.initial)
    ensures SameFate(hays, m, chains, h, g, t, w, n)
  {
    var x := h.addrs.max as int + 1;
    TallyGoesOn(chains, h, g, h.addrs.min, t);
    PassesFromNext(hays, m, h.to, x, w, t);
    PassesLater(hays, m, h.to, x, w, t, l, n, g.to);
  }

  /** A task at the end of leaf `k` with the rest `w` of a match before it. */
  ghost predicate Stands(hays: seq<Hay>, m: Machine, states: seq<State>, h: ChainHalf, k: nat, t: Time, w: seq<Byte>) {
    && Proper(h) && EndsLeaf(hays, h, k) && h.times.Contains(t)
    && h.to.AtState? && (h.to.state == m.initial || h.to.state in states)
    && w != [] && HoldsWord(hays, h.addrs.max as int + 1, w, t) && Go(m, h.to, w) == Some(Tip)
  }

  lemma {:induction false} StandsNext(hays: seq<Hay>, m: Machine, states: seq<State>, chains: seq<Chain>,
                                      h: ChainHalf, k: nat, t: Time, w: seq<Byte>, n: nat, g: ChainHalf, l: nat)
    requires ProperChains(chains) && KnownStates(m, states) && Stands(hays, m, states, h, k, t, w) && 0 < n < |w|
    requires Proper(g) && OnTo(hays, m, chains, h, g, t, w, n, l)
    ensures Stands(hays, m, states, g, l, t, w[n..])
  {
    RestStands(m, h.to, w, n, g.to);
    StandsKnown(m, states, h.to.state, w[..n], g.to.state);
    HoldsRest(hays, h.addrs.max as int + 1, w, n, t);
  }

  /** One leaf further: the match is over, or what goes on from there decides. */
  lemma {:induction false} OnwardIff(hays: seq<Hay>, m: Machine, states: seq<State>, chains: seq<Chain>, h: ChainHalf,
                                     k: nat, t: Time, w: seq<Byte>)
    returns (n: nat, g: ChainHalf, l: nat, done: bool)
    requires Ready(hays, m, states, chains) && ForkOnce(chains) && Stands(hays, m, states, h, k, t, w)
    requires h.to.state != m.initial
    ensures done ==> Tally(chains, h, Scored(StartsAt(h.addrs.min, t))) > 0
                     && !PassesInitial(hays, m, h.to, h.addrs.max as int + 1, w, t, 0)
    ensures !done ==> 0 < n < |w| && Stands(hays, m, states, g, l, t, w[n..])
    ensures !done ==> SameFate(hays, m, chains, h, g, t, w, n)
  {
    n, g, l := GoOnTo(hays, m, states, chains, h, k, t, w);
    done := n == |w|;
    if done {
      TaskEnds(hays, m, chains, h, g, t, w, l);
    } else {
      TaskMoves(hays, m, chains, h, g, t, w, l, n);
      StandsNext(hays, m, states, chains, h, k, t, w, n, g, l);
    }
  }

  /** A task with the rest of a match before it reports its start exactly if it never stands in the initial state. */
  lemma {:induction false} TaskIff(hays: seq<Hay>, m: Machine, states: seq<State>, chains: seq<Chain>, h: ChainHalf,
                                   k: nat, t: Time, w: seq<Byte>)
    requires Ready(hays, m, states, chains) && ForkOnce(chains) && NoneInitial(m, chains)
    requires Stands(hays, m, states, h, k, t, w)
    ensures Tally(chains, h, Scored(StartsAt(h.addrs.min, t))) > 0
       <==> !PassesInitial(hays, m, h.to, h.addrs.max as int + 1, w, t, 0)
    decreases |w|
  {
    if h.to.state == m.initial {
      assert h.to == AtState(m.initial);
      TaskLost(hays, m, chains, h, k, t, w);
      return;
    }
    var n, g, l, done := OnwardIff(hays, m, states, chains, h, k, t, w);
    if !done {
      TaskIff(hays, m, states, chains, g, l, t, w[n..]);
    }
  }

  // ---- from the start on ----

  /** From byte `i` of leaf `k` on, memory holds the shortest match `w` at time `t`. */
  ghost predicate MatchAt(hays: seq<Hay>, m: Machine, k: nat, i: nat, w: seq<Byte>, t: Time) {
    && k < |hays| && hays[k].Valid() && i < |hays[k].bytes| && hays[k].node.Times().Contains(t)
    && HoldsWord(hays, hays[k].node.addrMin as int + i, w, t) && w != [] && Go(m, AtState(m.initial), w) == Some(Tip)
  }

  /** No earlier byte of the leaf reaches its end in the same state. */
  ghost predicate FirstInState(hay: Hay, m: Machine, i: nat) {
    forall e, q :: 0 <= e < i && ReachesEnd(hay, m, i, q) ==> !ReachesEnd(hay, m, e, q)
  }

  /** When the start of a match is reported: the match ends inside the leaf, or its run is the first to leave the leaf
      in its state and never stands in the initial state at the end of a leaf. */
  ghost predicate Survives(hays: seq<Hay>, m: Machine, k: nat, i: nat, w: seq<Byte>, t: Time)
    requires k < |hays|
  {
    || MatchesInside(hays[k], m, i)
    || (FirstInState(hays[k], m, i)
        && !PassesInitial(hays, m, AtState(m.initial), hays[k].node.addrMin as int + i, w, t, 1))
  }

  ghost predicate Collected(hays: seq<Hay>, m: Machine, states: seq<State>, starts: seq<ChainHalf>,
                            chains: seq<Chain>) {
    && Ready(hays, m, states, chains) && ForkOnce(chains) && NoneInitial(m, chains)
    && AllStarted(hays, m, starts) && StartsFrom(hays, m, starts) && ProperHalves(starts)
  }

  lemma {:induction false} PrefixInLeaf(hays: seq<Hay>, m: Machine, k: nat, i: nat, w: seq<Byte>, t: Time, n: nat)
    requires GoodHays(hays) && MatchAt(hays, m, k, i, w, t) && n <= |w| && i + n <= |hays[k].bytes|
    ensures w[..n] == hays[k].bytes[i..i + n]
  {
    LeafPrefix(hays, k, hays[k].node.addrMin as int + i, w, t, n);
  }

  lemma {:induction false} NotInside(hay: Hay, m: Machine, i: nat, n: nat, q: State)
    requires ReachesEnd(hay, m, i, q) && i + n <= |hay.bytes|
    ensures Go(m, AtState(m.initial), hay.bytes[i..i + n]) != Some(Tip)
  {
    var rest := hay.bytes[i..];
    assert rest[..n] == hay.bytes[i..i + n];
    if n < |rest| && Go(m, AtState(m.initial), rest[..n]) == Some(Tip) {
      assert rest[..|rest|] == rest;
      TipEnds(m, AtState(m.initial), rest, n, |rest|);
    } else {
      assert n == |rest| ==> rest[..n] == rest;
    }
  }

  /** A match whose run reaches the end of the leaf goes on behind it. */
  lemma {:induction false} LeavesLeaf(hays: seq<Hay>, m: Machine, k: nat, i: nat, w: seq<Byte>, t: Time, q: State)
    requires GoodHays(hays) && MatchAt(hays, m, k, i, w, t) && ReachesEnd(hays[k], m, i, q)
    ensures var n := |hays[k].bytes| - i;
      n < |w| && Go(m, AtState(m.initial), w[..n]) == Some(AtState(q)) && Go(m, AtState(q), w[n..]) == Some(Tip)
      && FirstPiece(hays, k, hays[k].node.addrMin as int + i, w, t, n)
  {
    var n := |hays[k].bytes| - i;
    if |w| <= n {
      PrefixInLeaf(hays, m, k, i, w, t, |w|);
      assert w == hays[k].bytes[i..i + |w|] by {
        assert w[..|w|] == w;
      }
      NotInside(hays[k], m, i, |w|, q);
      assert false;
    }
    PrefixInLeaf(hays, m, k, i, w, t, n);
    assert hays[k].bytes[i..i + n] == hays[k].bytes[i..];
    RestStands(m, AtState(m.initial), w, n, AtState(q));
  }

  lemma {:induction false} TipInside(hay: Hay, m: Machine, i: nat, n: nat)
    requires 0 < n && i + n <= |hay.bytes| && Go(m, AtState(m.initial), hay.bytes[i..i + n]) == Some(Tip)
    ensures MatchesInside(hay, m, i)
  {
    var j := i + n - 1;
    assert RunTo(m, m.initial, hay.bytes, i, j) == Some(Tip);
  }

  /** The part of the match inside the leaf. */
  lemma {:induction false} FirstPart(hays: seq<Hay>, m: Machine, k: nat, i: nat, w: seq<Byte>, t: Time)
    returns (n: nat, to: Handle)
    requires GoodHays(hays) && MatchAt(hays, m, k, i, w, t)
    ensures 0 < n && i + n <= |hays[k].bytes| && Go(m, AtState(m.initial), hays[k].bytes[i..i + n]) == Some(to)
    ensures to.Tip? || i + n == |hays[k].bytes|
  {
    n := if |w| < |hays[k].bytes| - i then |w| else |hays[k].bytes| - i;
    PrefixInLeaf(hays, m, k, i, w, t, n);
    to := PrefixStands(m, AtState(m.initial), w, n);
    assert n == |w| ==> w[..n] == w;
  }

  lemma {:induction false} EndsOrLeaves(hays: seq<Hay>, m: Machine, k: nat, i: nat, w: seq<Byte>, t: Time)
    returns (q: State)
    requires GoodHays(hays) && MatchAt(hays, m, k, i, w, t) && !MatchesInside(hays[k], m, i)
    ensures ReachesEnd(hays[k], m, i, q)
  {
    var n, to := FirstPart(hays, m, k, i, w, t);
    if to.Tip? {
      TipInside(hays[k], m, i, n);
      assert false;
    }
    assert hays[k].bytes[i..i + n] == hays[k].bytes[i..];
    q := to.state;
  }

  /** A kept start at the end of leaf `k` comes from leaf `k`. */
  lemma {:induction false} StartInLeaf(hays: seq<Hay>, m: Machine, h: ChainHalf, k: nat, x: Addr, t: Time)
    requires GoodHays(hays) && StartHasLeaf(hays, m, h) && k < |hays| && hays[k].node.HasAddr(x)
    requires h.addrs.min <= x <= h.addrs.max && hays[k].node.Times().Contains(t) && h.times.Contains(t)
    ensures StartFrom(hays, m, h, k)
  {
    var l: nat :| StartFrom(hays, m, h, l);
    StartPlace(hays[l], m, h);
    OneLeaf(hays, l, k, x as int, t);
  }

  /** The start that stands for byte `i`. */
  lemma {:induction false} StartRunsAt(hay: Hay, m: Machine, h: ChainHalf, i: nat)
    requires hay.Valid() && IsStart(hay, m, h) && h.addrs.min as int == hay.node.addrMin as int + i && h.to.AtState?
    ensures ReachesEnd(hay, m, i, h.to.state) && h.addrs.max == hay.node.addrMax && h.times == hay.node.Times()
  {
    StartRuns(hay, m, h, i);
    StartPlace(hay, m, h);
  }

  lemma {:induction false} StartStands(hays: seq<Hay>, m: Machine, states: seq<State>, h: ChainHalf, k: nat, i: nat,
                                       w: seq<Byte>, t: Time)
    requires GoodHays(hays) && KnownStates(m, states) && MatchAt(hays, m, k, i, w, t)
    requires StartFrom(hays, m, h, k) && Proper(h) && h.to.AtState?
    requires h.addrs.min as int == hays[k].node.addrMin as int + i
    ensures var n := |hays[k].bytes| - i;
      0 < n < |w| && FirstPiece(hays, k, h.addrs.min as int, w, t, n)
      && h.addrs.max as int == h.addrs.min as int + n - 1
      && Go(m, AtState(m.initial), w[..n]) == Some(h.to) && Stands(hays, m, states, h, k, t, w[n..])
  {
    var n := |hays[k].bytes| - i;
    StartRunsAt(hays[k], m, h, i);
    LeavesLeaf(hays, m, k, i, w, t, h.to.state);
    StandsKnown(m, states, m.initial, w[..n], h.to.state);
    HoldsRest(hays, h.addrs.min as int, w, n, t);
  }

  /** The rest of the match before a start that leaves its leaf passes the initial state if the match does. */
  lemma {:induction false} StartPasses(hays: seq<Hay>, m: Machine, states: seq<State>, h: ChainHalf, k: nat, i: nat,
                                       w: seq<Byte>, t: Time)
    returns (rest: seq<Byte>)
    requires GoodHays(hays) && KnownStates(m, states) && MatchAt(hays, m, k, i, w, t)
    requires StartFrom(hays, m, h, k) && Proper(h) && h.to.AtState?
    requires h.addrs.min as int == hays[k].node.addrMin as int + i
    ensures Stands(hays, m, states, h, k, t, rest)
    ensures PassesInitial(hays, m, AtState(m.initial), h.addrs.min as int, w, t, 1)
       <==> PassesInitial(hays, m, h.to, h.addrs.max as int + 1, rest, t, 0)
  {
    var n := |hays[k].bytes| - i;
    StartStands(hays, m, states, h, k, i, w, t);
    PassesLater(hays, m, AtState(m.initial), h.addrs.min as int, w, t, k, n, h.to);
    rest := w[n..];
  }

  lemma {:induction false} LeavingStart(hays: seq<Hay>, m: Machine, states: seq<State>, chains: seq<Chain>,
                                        h: ChainHalf, k: nat, i: nat, w: seq<Byte>, t: Time)
    requires Ready(hays, m, states, chains) && ForkOnce(chains) && NoneInitial(m, chains)
    requires MatchAt(hays, m, k, i, w, t) && StartFrom(hays, m, h, k) && Proper(h) && h.to.AtState?
    requires h.addrs.min as int == hays[k].node.addrMin as int + i
    ensures Tally(chains, h, Scored(StartsAt(h.addrs.min, t))) > 0
       <==> !PassesInitial(hays, m, AtState(m.initial), h.addrs.min as int, w, t, 1)
  {
    var rest := StartPasses(hays, m, states, h, k, i, w, t);
    TaskIff(hays, m, states, chains, h, k, t, rest);
  }

  lemma {:induction false} StartIsFirst(hay: Hay, m: Machine, h: ChainHalf, i: nat)
    requires hay.Valid() && IsStart(hay, m, h) && Earliest(hay, m, h) && h.to.AtState?
    requires h.addrs.min as int == hay.node.addrMin as int + i
    ensures FirstInState(hay, m, i)
  {
    StartRunsAt(hay, m, h, i);
  }

  /** The kept start behind a report comes from the leaf that holds its address. */
  lemma {:induction false} ReportingStart(hays: seq<Hay>, m: Machine, states: seq<State>, starts: seq<ChainHalf>,
                                          chains: seq<Chain>, k: nat, t: Time, s: Addr)
    returns (h: ChainHalf)
    requires Collected(hays, m, states, starts, chains) && k < |hays| && hays[k].node.Covers(s, t)
    requires Total(chains, starts, Scored(StartsAt(s, t))) > 0
    ensures Proper(h) && StartFrom(hays, m, h, k) && h.addrs.min == s
    ensures Tally(chains, h, Scored(StartsAt(s, t))) > 0
  {
    var a := SumSome(Tallies(chains, starts, Scored(StartsAt(s, t))));
    h := starts[a];
    TallyAtMostOne(chains, h, s, t);
    assert StartHasLeaf(hays, m, h);
    StartInLeaf(hays, m, h, k, s, t);
  }

  /** A start that is reported survives. */
  lemma {:induction false} ReportedSurvives(hays: seq<Hay>, m: Machine, states: seq<State>, starts: seq<ChainHalf>,
                                            chains: seq<Chain>, k: nat, i: nat, w: seq<Byte>, t: Time, s: Addr)
    requires Collected(hays, m, states, starts, chains) && MatchAt(hays, m, k, i, w, t)
    requires s as int == hays[k].node.addrMin as int + i && Total(chains, starts, Scored(StartsAt(s, t))) > 0
    ensures Survives(hays, m, k, i, w, t)
  {
    var h := ReportingStart(hays, m, states, starts, chains, k, t, s);
    StartRuns(hays[k], m, h, i);
    if h.to.AtState? {
      StartIsFirst(hays[k], m, h, i);
      LeavingStart(hays, m, states, chains, h, k, i, w, t);
    }
  }

  lemma {:induction false} CountedStart(chains: seq<Chain>, starts: seq<ChainHalf>, h: ChainHalf, s: Addr, t: Time)
    requires ProperChains(chains) && ProperHalves(starts) && h in starts && Proper(h)
    requires Tally(chains, h, Scored(StartsAt(s, t))) > 0
    ensures Total(chains, starts, Scored(StartsAt(s, t))) > 0
  {
    var a :| 0 <= a < |starts| && starts[a] == h;
    SumVia(Tallies(chains, starts, Scored(StartsAt(s, t))), a);
  }

  /** The earliest start in its state is the one that is kept. */
  lemma {:induction false} FirstIsKept(hays: seq<Hay>, m: Machine, starts: seq<ChainHalf>, k: nat, i: nat, q: State,
                                       t: Time)
    returns (h: ChainHalf)
    requires GoodHays(hays) && AllStarted(hays, m, starts) && StartsFrom(hays, m, starts) && k < |hays|
    requires ReachesEnd(hays[k], m, i, q) && FirstInState(hays[k], m, i) && hays[k].node.Times().Contains(t)
    ensures h in starts && h.to == AtState(q) && StartFrom(hays, m, h, k)
    ensures h.addrs.min as int == hays[k].node.addrMin as int + i
  {
    assert StartKept(hays[k], m, starts, i);
    assert Kept(hays[k], starts, q, i);
    h :| h in starts && h.to == AtState(q) && h.addrs.max == hays[k].node.addrMax && h.times == hays[k].node.Times()
         && h.addrs.min as int <= hays[k].node.addrMin as int + i;
    var a :| 0 <= a < |starts| && starts[a] == h;
    assert StartHasLeaf(hays, m, starts[a]);
    StartInLeaf(hays, m, h, k, h.addrs.max, t);
    StartAddress(hays[k], m, h);
    StartRuns(hays[k], m, h, h.addrs.min as int - hays[k].node.addrMin as int);
  }

  lemma {:induction false} InsideReported(hays: seq<Hay>, m: Machine, starts: seq<ChainHalf>, chains: seq<Chain>,
                                          k: nat, i: nat, t: Time, s: Addr)
    requires ProperChains(chains) && ProperHalves(starts) && AllStarted(hays, m, starts) && k < |hays|
    requires MatchesInside(hays[k], m, i) && hays[k].node.Times().Contains(t)
    requires s as int == hays[k].node.addrMin as int + i
    ensures Total(chains, starts, Scored(StartsAt(s, t))) > 0
  {
    var j: nat :| i <= j < |hays[k].bytes| && RunTo(m, m.initial, hays[k].bytes, i, j) == Some(Tip);
    assert StartKept(hays[k], m, starts, i);
    var h := HalfAt(hays[k].node, i, j, Tip);
    InProper(starts, h);
    TallyTip(chains, h, t);
    CountedStart(chains, starts, h, s, t);
  }

  lemma {:induction false} SurvivorReported(hays: seq<Hay>, m: Machine, states: seq<State>, starts: seq<ChainHalf>,
                                            chains: seq<Chain>, k: nat, i: nat, w: seq<Byte>, t: Time, s: Addr)
    requires Collected(hays, m, states, starts, chains) && MatchAt(hays, m, k, i, w, t)
    requires s as int == hays[k].node.addrMin as int + i && Survives(hays, m, k, i, w, t)
    ensures Total(chains, starts, Scored(StartsAt(s, t))) > 0
  {
    if MatchesInside(hays[k], m, i) {
      InsideReported(hays, m, starts, chains, k, i, t, s);
    } else {
      var q := EndsOrLeaves(hays, m, k, i, w, t);
      var h := FirstIsKept(hays, m, starts, k, i, q, t);
      InProper(starts, h);
      LeavingStart(hays, m, states, chains, h, k, i, w, t);
      CountedStart(chains, starts, h, s, t);
    }
  }

  // ---- what the results say about starts ----

  ghost predicate StartFound(results: seq<SearchResult>, s: int, t: Time) {
    exists i :: 0 <= i < |results| && results[i].addrMin as int == s && results[i].timeMin <= t <= results[i].timeMax
  }

  /** The start of a match is reported exactly if it survives. */
  ghost predicate StartsExact(hays: seq<Hay>, m: Machine, results: seq<SearchResult>) {
    forall k: nat, i: nat, w, t :: MatchAt(hays, m, k, i, w, t) ==>
      (StartFound(results, hays[k].node.addrMin as int + i, t) <==> Survives(hays, m, k, i, w, t))
  }

  lemma {:induction false} ScoreSome(results: seq<SearchResult>, g: SearchResult -> nat) returns (i: nat)
    requires Score(results, g) > 0
    ensures i < |results| && g(results[i]) > 0
    decreases |results|
  {
    i := |results| - 1;
    if g(results[i]) == 0 {
      i := ScoreSome(results[..i], g);
    }
  }

  lemma {:induction false} FoundIsScored(results: seq<SearchResult>, s: Addr, t: Time)
    ensures StartFound(results, s as int, t) <==> Score(results, StartsAt(s, t)) > 0
  {
    if Score(results, StartsAt(s, t)) > 0 {
      var i := ScoreSome(results, StartsAt(s, t));
      assert results[i].addrMin as int == s as int;
    }
    if i :| 0 <= i < |results| && results[i].addrMin as int == s as int
             && results[i].timeMin <= t <= results[i].timeMax {
      ScoreOne(results, i, StartsAt(s, t));
    }
  }

  lemma {:induction false} StartsAre(hays: seq<Hay>, m: Machine, states: seq<State>, starts: seq<ChainHalf>,
                                     chains: seq<Chain>, results: seq<SearchResult>)
    requires Collected(hays, m, states, starts, chains)
    requires forall g :: Score(results, g) == Total(chains, starts, Scored(g))
    ensures StartsExact(hays, m, results)
  {
    forall k: nat, i: nat, w, t | MatchAt(hays, m, k, i, w, t)
      ensures StartFound(results, hays[k].node.addrMin as int + i, t) <==> Survives(hays, m, k, i, w, t)
    {
      var s := hays[k].node.addrMin + i as Addr;
      FoundIsScored(results, s, t);
      assert Score(results, StartsAt(s, t)) == Total(chains, starts, Scored(StartsAt(s, t)));
      if Total(chains, starts, Scored(StartsAt(s, t))) > 0 {
        ReportedSurvives(hays, m, states, starts, chains, k, i, w, t, s);
      }
      if Survives(hays, m, k, i, w, t) {
        SurvivorReported(hays, m, states, starts, chains, k, i, w, t, s);
      }
    }
  }

  // ---- two starts that are lost ----

  /** The bytes `w` at address `s`, at time 0 only. */
  function Moment(s: Addr, w: seq<Byte>): Hay
    requires w != [] && s as int + |w| - 1 <= ADDR_MAX as int
  {
    Hay(Node(s, (s as int + |w| - 1) as Addr, 0, 0), w)
  }

  lemma {:induction false} MomentsMatch(hays: seq<Hay>, m: Machine, k: nat, i: nat, w: seq<Byte>)
    requires k < |hays| && hays[k].Valid() && i < |hays[k].bytes| && hays[k].node.Times().Contains(0)
    requires |w| == 2 && Go(m, AtState(m.initial), w) == Some(Tip)
    requires Mem(hays, hays[k].node.addrMin as int + i, 0, w[0])
    requires Mem(hays, hays[k].node.addrMin as int + i + 1, 0, w[1])
    ensures MatchAt(hays, m, k, i, w, 0)
  {
    forall j | 0 <= j < |w| ensures Mem(hays, hays[k].node.addrMin as int + i + j, 0, w[j]) {
      assert j == 0 || j == 1;
    }
  }

  /** The second of two equal bytes starts a match of one or more of them and a `b`; the first one stands in the same
      state where the leaf ends, and the match from the second byte is not reported. */
  lemma {:induction false} RepeatIsLost(m: Machine, a: Byte, b: Byte, results: seq<SearchResult>)
    requires a != b && RepeatsThen(m, a, b)
    ensures var hays := [Moment(10, [a, a]), Moment(12, [b])];
      && GoodHays(hays) && Followable(hays) && MatchAt(hays, m, 0, 1, [a, b], 0)
      && (StartsExact(hays, m, results) ==> !StartFound(results, 11, 0))
  {
    var hays := [Moment(10, [a, a]), Moment(12, [b])];
    GoOne(m, 1, a);
    GoTwo(m, 1, a, a, 2);
    GoTwo(m, 1, a, b, 2);
    assert hays[0].At(11, 0, a) && hays[1].At(12, 0, b);
    MomentsMatch(hays, m, 0, 1, [a, b]);
    var bytes := hays[0].bytes;
    assert bytes[0..] == [a, a] && bytes[1..] == [a] && bytes[1..2] == [a];
    assert ReachesEnd(hays[0], m, 0, 2) && ReachesEnd(hays[0], m, 1, 2);
    assert !MatchesInside(hays[0], m, 1) by {
      assert RunTo(m, 1, bytes, 1, 1) == Some(AtState(2));
    }
    assert !Survives(hays, m, 0, 1, [a, b], 0);
  }

  /** Any number of times the byte `a`, then the byte `b`. */
  ghost predicate LoopsThen(m: Machine, a: Byte, b: Byte) {
    m.initial == 1 && m.accept == {2} && m.table == map[(1, a) := 1, (1, b) := 2]
  }

  /** After one `a` the machine is back in its initial state: where the leaf ends there, the match is not followed. */
  lemma {:induction false} ReturnIsLost(m: Machine, a: Byte, b: Byte, results: seq<SearchResult>)
    requires a != b && LoopsThen(m, a, b)
    ensures var hays := [Moment(10, [a]), Moment(11, [b])];
      && GoodHays(hays) && Followable(hays) && MatchAt(hays, m, 0, 0, [a, b], 0) && FirstInState(hays[0], m, 0)
      && (StartsExact(hays, m, results) ==> !StartFound(results, 10, 0))
  {
    var hays := [Moment(10, [a]), Moment(11, [b])];
    var w := [a, b];
    GoOne(m, 1, a);
    GoTwo(m, 1, a, b, 1);
    assert hays[0].At(10, 0, a) && hays[1].At(11, 0, b);
    MomentsMatch(hays, m, 0, 0, w);
    assert w[..1] == [a] && LeafEnds(hays, 10 + 1 - 1, 0);
    assert StandsInitial(hays, m, AtState(1), 10, w, 0, 1);
    assert !MatchesInside(hays[0], m, 0) by {
      assert hays[0].bytes[0..1] == [a];
      assert RunTo(m, 1, hays[0].bytes, 0, 0) == Some(AtState(1));
    }
    assert !Survives(hays, m, 0, 0, w, 0);
  }

  // ---- searching one zone ----

  lemma {:induction false} FromStates(hays: seq<Hay>, m: Machine, states: seq<State>, chains: seq<Chain>)
    requires ChainsFrom(hays, m, states, chains) && m.initial !in states
    ensures NoneInitial(m, chains)
  {
    forall i | 0 <= i < |chains| ensures chains[i].from != m.initial {
      assert ChainHasLeaf(hays, m, states, chains[i]);
    }
  }

  /** Gathers all stretches, orders the chains, and follows them from every start. */
  method SearchInZone(hays: seq<Hay>, m: Machine, states: seq<State>) returns (results: seq<SearchResult>)
    requires GoodHays(hays) && Followable(hays)
    requires NoRepeats(states) && KnownStates(m, states) && m.initial !in states
    ensures forall i :: 0 <= i < |results| ==> ReportSound(hays, m, results[i])
    ensures ReportsApart(results) && AllFound(hays, m, results) && StartsExact(hays, m, results)
  {
    var starts, chains := Gather(hays, m, states);
    var sorted := SortChains(chains);
    SortedGathered(hays, m, states, chains, sorted);
    GatheredSound(hays, m, states, starts, sorted);
    SortedForkOnce(hays, m, states, sorted);
    FromStates(hays, m, states, sorted);
    results := RunTasks(sorted, starts);
    ReportsAre(hays, m, states, starts, sorted, results);
    StartsAre(hays, m, states, starts, sorted, results);
  }
}
