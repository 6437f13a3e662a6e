/** Regex search over all leaves of a zone: every report is a match, and every match end is reported. */
module SearchZone {
  import opened Ranges
  import opened Automata
  import opened Execute
  import opened SearchLeaf
  import opened SearchChain

  // ---- memory as the leaves tell it ----

  ghost predicate GoodHays(hays: seq<Hay>) {
    && (forall k :: 0 <= k < |hays| ==> hays[k].Valid())
    && (forall j, k :: 0 <= j < k < |hays| ==> hays[j].node.Disjoint(hays[k].node))
  }

  /** Behind every leaf there is an address at which another one could start. */
  ghost predicate Followable(hays: seq<Hay>) {
    forall k :: 0 <= k < |hays| ==> hays[k].node.addrMax < ADDR_MAX
  }

  ghost predicate Mem(hays: seq<Hay>, x: int, t: Time, b: Byte) {
    exists k :: 0 <= k < |hays| && hays[k].At(x, t, b)
  }

  /** From address `s` on, memory holds `w` at time `t`. */
  ghost predicate HoldsWord(hays: seq<Hay>, s: int, w: seq<Byte>, t: Time) {
    forall i :: 0 <= i < |w| ==> Mem(hays, s + i, t, w[i])
  }

  lemma {:induction false} OneLeaf(hays: seq<Hay>, j: nat, k: nat, x: int, t: Time)
    requires GoodHays(hays) && j < |hays| && k < |hays|
    requires hays[j].node.addrMin as int <= x <= hays[j].node.addrMax as int && hays[j].node.Times().Contains(t)
    requires hays[k].node.addrMin as int <= x <= hays[k].node.addrMax as int && hays[k].node.Times().Contains(t)
    ensures j == k
  {
  }

  lemma {:induction false} HoldsConcat(hays: seq<Hay>, s: int, u: seq<Byte>, v: seq<Byte>, t: Time)
    requires HoldsWord(hays, s, u, t) && HoldsWord(hays, s + |u|, v, t)
    ensures HoldsWord(hays, s, u + v, t)
  {
    forall i | 0 <= i < |u + v| ensures Mem(hays, s + i, t, (u + v)[i]) {
      if i >= |u| {
        var k := i - |u|;
        assert Mem(hays, s + |u| + k, t, v[k]);
      }
    }
  }

  lemma {:induction false} HoldsRest(hays: seq<Hay>, s: int, w: seq<Byte>, n: nat, t: Time)
    requires HoldsWord(hays, s, w, t) && n <= |w|
    ensures HoldsWord(hays, s + n, w[n..], t)
  {
    forall i | 0 <= i < |w[n..]| ensures Mem(hays, s + n + i, t, w[n..][i]) {
      var k := n + i;
      assert Mem(hays, s + k, t, w[k]);
    }
  }

  lemma {:induction false} LeafHolds(hays: seq<Hay>, k: nat, i: nat, j: nat, t: Time)
    requires GoodHays(hays) && k < |hays| && i <= j < |hays[k].bytes| && hays[k].node.Times().Contains(t)
    ensures HoldsWord(hays, hays[k].node.addrMin as int + i, hays[k].bytes[i..j + 1], t)
  {
    var w := hays[k].bytes[i..j + 1];
    forall a | 0 <= a < |w| ensures Mem(hays, hays[k].node.addrMin as int + i + a, t, w[a]) {
      assert hays[k].At(hays[k].node.addrMin as int + i + a, t, w[a]);
    }
  }

  // ---- what has been collected from the leaves ----

  ghost predicate ChainFrom(hays: seq<Hay>, m: Machine, states: seq<State>, c: Chain, k: nat) {
    k < |hays| && hays[k].Valid() && IsChain(hays[k], m, c) && c.from in states
  }

  ghost predicate StartFrom(hays: seq<Hay>, m: Machine, h: ChainHalf, k: nat) {
    k < |hays| && hays[k].Valid() && IsStart(hays[k], m, h) && Earliest(hays[k], m, h)
  }

  ghost predicate ChainHasLeaf(hays: seq<Hay>, m: Machine, states: seq<State>, c: Chain) {
    exists k :: ChainFrom(hays, m, states, c, k)
  }

  ghost predicate StartHasLeaf(hays: seq<Hay>, m: Machine, h: ChainHalf) {
    exists k :: StartFrom(hays, m, h, k)
  }

  ghost predicate ChainsFrom(hays: seq<Hay>, m: Machine, states: seq<State>, chains: seq<Chain>) {
    forall i :: 0 <= i < |chains| ==> ChainHasLeaf(hays, m, states, chains[i])
  }

  ghost predicate StartsFrom(hays: seq<Hay>, m: Machine, starts: seq<ChainHalf>) {
    forall i :: 0 <= i < |starts| ==> StartHasLeaf(hays, m, starts[i])
  }

  ghost predicate AllKept(hays: seq<Hay>, m: Machine, states: seq<State>, chains: seq<Chain>) {
    forall k, q :: 0 <= k < |hays| && q in states ==> hays[k].Valid() && ChainKept(hays[k], m, chains, q)
  }

  ghost predicate AllStarted(hays: seq<Hay>, m: Machine, starts: seq<ChainHalf>) {
    forall k :: 0 <= k < |hays| ==> hays[k].Valid() && StartsComplete(hays[k], m, starts, |hays[k].bytes|)
  }

  ghost predicate StartsApart(starts: seq<ChainHalf>) {
    forall a, b :: 0 <= a < b < |starts| ==>
      starts[a].addrs.min != starts[b].addrs.min || starts[a].times.Disjoint(starts[b].times)
  }

  /** Everything the leaves contribute, and nothing else. */
  ghost predicate Gathered(hays: seq<Hay>, m: Machine, states: seq<State>, starts: seq<ChainHalf>, chains: seq<Chain>) {
    && ChainsFrom(hays, m, states, chains) && AllKept(hays, m, states, chains) && UniqueKeys(chains)
    && StartsFrom(hays, m, starts) && AllStarted(hays, m, starts) && StartsApart(starts)
  }

  lemma {:induction false} GatherChains(hays: seq<Hay>, m: Machine, states: seq<State>, hay: Hay, chains: seq<Chain>,
                                        more: seq<Chain>)
    requires GoodHays(hays + [hay]) && hay.Valid()
    requires ChainsFrom(hays, m, states, chains) && ChainsSound(hay, m, states, more)
    ensures ChainsFrom(hays + [hay], m, states, chains + more)
  {
    forall i | 0 <= i < |chains + more| ensures ChainHasLeaf(hays + [hay], m, states, (chains + more)[i]) {
      if i < |chains| {
        assert ChainHasLeaf(hays, m, states, chains[i]);
        var k :| ChainFrom(hays, m, states, chains[i], k);
        assert ChainFrom(hays + [hay], m, states, (chains + more)[i], k);
      } else {
        assert more[i - |chains|] in more;
        assert ChainFrom(hays + [hay], m, states, (chains + more)[i], |hays|);
      }
    }
  }

  lemma {:induction false} GatherStarts(hays: seq<Hay>, m: Machine, hay: Hay, starts: seq<ChainHalf>,
                                        more: seq<ChainHalf>)
    requires GoodHays(hays + [hay]) && hay.Valid()
    requires StartsFrom(hays, m, starts)
    requires StartsSound(hay, m, more, |hay.bytes|) && StartsComplete(hay, m, more, |hay.bytes|)
    ensures StartsFrom(hays + [hay], m, starts + more)
  {
    forall i | 0 <= i < |starts + more| ensures StartHasLeaf(hays + [hay], m, (starts + more)[i]) {
      if i < |starts| {
        assert StartHasLeaf(hays, m, starts[i]);
        var k :| StartFrom(hays, m, starts[i], k);
        assert StartFrom(hays + [hay], m, (starts + more)[i], k);
      } else {
        assert more[i - |starts|] in more;
        StartsEarliest(hay, m, more, more[i - |starts|]);
        assert StartFrom(hays + [hay], m, (starts + more)[i], |hays|);
      }
    }
  }

  lemma {:induction false} KeptAlso(hay: Hay, m: Machine, chains: seq<Chain>, more: seq<Chain>, q: State)
    requires hay.Valid() && ChainKept(hay, m, more, q)
    ensures ChainKept(hay, m, chains + more, q)
  {
  }

  lemma {:induction false} GatherKept(hays: seq<Hay>, m: Machine, states: seq<State>, hay: Hay, chains: seq<Chain>,
                                      more: seq<Chain>)
    requires AllKept(hays, m, states, chains) && ChainsComplete(hay, m, states, more)
    ensures AllKept(hays + [hay], m, states, chains + more)
  {
    var all := hays + [hay];
    forall k, q | 0 <= k < |all| && q in states ensures all[k].Valid() && ChainKept(all[k], m, chains + more, q) {
      if k < |hays| {
        ChainKeptMore(hays[k], m, chains, more, q);
      } else {
        KeptAlso(hay, m, chains, more, q);
      }
    }
  }

  lemma {:induction false} StartKeptAlso(hay: Hay, m: Machine, starts: seq<ChainHalf>, more: seq<ChainHalf>, i: nat)
    requires hay.Valid() && i < |hay.bytes| && StartKept(hay, m, more, i)
    ensures StartKept(hay, m, starts + more, i)
  {
    forall q | Go(m, AtState(m.initial), hay.bytes[i..]) == Some(AtState(q)) ensures Kept(hay, starts + more, q, i) {
      var h :| h in more && h.to == AtState(q) && h.addrs.max == hay.node.addrMax && h.times == hay.node.Times()
               && h.addrs.min as int <= hay.node.addrMin as int + i;
      assert h in starts + more;
    }
  }

  lemma {:induction false} StartsStay(hay: Hay, m: Machine, starts: seq<ChainHalf>, more: seq<ChainHalf>)
    requires hay.Valid() && StartsComplete(hay, m, starts, |hay.bytes|)
    ensures StartsComplete(hay, m, starts + more, |hay.bytes|)
  {
    forall i | 0 <= i < |hay.bytes| ensures StartKept(hay, m, starts + more, i) {
      StartKeptMore(hay, m, starts, more, i);
    }
  }

  lemma {:induction false} StartsAlso(hay: Hay, m: Machine, starts: seq<ChainHalf>, more: seq<ChainHalf>)
    requires hay.Valid() && StartsComplete(hay, m, more, |hay.bytes|)
    ensures StartsComplete(hay, m, starts + more, |hay.bytes|)
  {
    forall i | 0 <= i < |hay.bytes| ensures StartKept(hay, m, starts + more, i) {
      StartKeptAlso(hay, m, starts, more, i);
    }
  }

  lemma {:induction false} GatherStarted(hays: seq<Hay>, m: Machine, hay: Hay, starts: seq<ChainHalf>,
                                         more: seq<ChainHalf>)
    requires AllStarted(hays, m, starts) && hay.Valid() && StartsComplete(hay, m, more, |hay.bytes|)
    ensures AllStarted(hays + [hay], m, starts + more)
  {
    var all := hays + [hay];
    forall k | 0 <= k < |all| ensures all[k].Valid() && StartsComplete(all[k], m, starts + more, |all[k].bytes|) {
      if k < |hays| {
        StartsStay(hays[k], m, starts, more);
      } else {
        StartsAlso(hay, m, starts, more);
      }
    }
  }

  lemma {:induction false} ChainPlace(hay: Hay, m: Machine, c: Chain)
    requires hay.Valid() && IsChain(hay, m, c)
    ensures c.half.addrs.min == hay.node.addrMin && c.half.times == hay.node.Times()
  {
  }

  lemma {:induction false} StartPlace(hay: Hay, m: Machine, h: ChainHalf)
    requires hay.Valid() && IsStart(hay, m, h)
    ensures hay.node.HasAddr(h.addrs.min) && h.times == hay.node.Times()
  {
  }

  /** Chains of different leaves differ in their keys: only one leaf starts at an address and a time. */
  lemma {:induction false} KeysOfLeaves(hays: seq<Hay>, m: Machine, states: seq<State>, a: Chain, j: nat, b: Chain,
                                        k: nat)
    requires GoodHays(hays) && ChainFrom(hays, m, states, a, j) && ChainFrom(hays, m, states, b, k) && j != k
    ensures Key(a) != Key(b)
    ensures a.half.addrs.min == b.half.addrs.min ==> a.half.times.Disjoint(b.half.times)
  {
    ChainPlace(hays[j], m, a);
    ChainPlace(hays[k], m, b);
    assert hays[j].node.Disjoint(hays[k].node) by {
      assert hays[if j < k then j else k].node.Disjoint(hays[if j < k then k else j].node);
    }
  }

  lemma {:induction false} GatherKeys(hays: seq<Hay>, m: Machine, states: seq<State>, hay: Hay, chains: seq<Chain>,
                                      more: seq<Chain>)
    requires GoodHays(hays + [hay]) && hay.Valid()
    requires ChainsFrom(hays, m, states, chains) && UniqueKeys(chains) && ChainsSound(hay, m, states, more)
    ensures UniqueKeys(chains + more)
  {
    var all := chains + more;
    forall i, j | 0 <= i < j < |all| ensures Key(all[i]) != Key(all[j]) {
      if i < |chains| <= j {
        assert ChainHasLeaf(hays, m, states, chains[i]);
        var k :| ChainFrom(hays, m, states, chains[i], k);
        assert more[j - |chains|] in more;
        assert ChainFrom(hays + [hay], m, states, all[i], k);
        assert ChainFrom(hays + [hay], m, states, all[j], |hays|);
        KeysOfLeaves(hays + [hay], m, states, all[i], k, all[j], |hays|);
      } else if |chains| <= i {
        assert more[i - |chains|].from != more[j - |chains|].from;
      }
    }
  }

  lemma {:induction false} StartsOfLeaves(hays: seq<Hay>, m: Machine, a: ChainHalf, j: nat, b: ChainHalf, k: nat)
    requires GoodHays(hays) && StartFrom(hays, m, a, j) && StartFrom(hays, m, b, k) && j != k
    ensures a.addrs.min != b.addrs.min || a.times.Disjoint(b.times)
  {
    StartPlace(hays[j], m, a);
    StartPlace(hays[k], m, b);
    assert hays[j].node.Disjoint(hays[k].node) by {
      assert hays[if j < k then j else k].node.Disjoint(hays[if j < k then k else j].node);
    }
  }

  lemma {:induction false} GatherApart(hays: seq<Hay>, m: Machine, hay: Hay, starts: seq<ChainHalf>,
                                       more: seq<ChainHalf>)
    requires GoodHays(hays + [hay]) && hay.Valid()
    requires StartsFrom(hays, m, starts) && StartsApart(starts)
    requires StartsSound(hay, m, more, |hay.bytes|) && StartsComplete(hay, m, more, |hay.bytes|)
    ensures StartsApart(starts + more)
  {
    var all := starts + more;
    forall i, j | 0 <= i < j < |all|
      ensures all[i].addrs.min != all[j].addrs.min || all[i].times.Disjoint(all[j].times)
    {
      if i < |starts| <= j {
        assert StartHasLeaf(hays, m, starts[i]);
        var k :| StartFrom(hays, m, starts[i], k);
        assert more[j - |starts|] in more;
        StartsEarliest(hay, m, more, more[j - |starts|]);
        assert StartFrom(hays + [hay], m, all[i], k);
        assert StartFrom(hays + [hay], m, all[j], |hays|);
        StartsOfLeaves(hays + [hay], m, all[i], k, all[j], |hays|);
      } else if |starts| <= i {
        assert more[i - |starts|].addrs.min < more[j - |starts|].addrs.min;
      }
    }
  }

  lemma {:induction false} GatherStep(hays: seq<Hay>, m: Machine, states: seq<State>, hay: Hay,
                                      starts: seq<ChainHalf>, chains: seq<Chain>, moreStarts: seq<ChainHalf>,
                                      moreChains: seq<Chain>)
    requires GoodHays(hays + [hay]) && hay.Valid() && Gathered(hays, m, states, starts, chains)
    requires StartsSound(hay, m, moreStarts, |hay.bytes|) && StartsComplete(hay, m, moreStarts, |hay.bytes|)
    requires ChainsSound(hay, m, states, moreChains) && ChainsComplete(hay, m, states, moreChains)
    ensures Gathered(hays + [hay], m, states, starts + moreStarts, chains + moreChains)
  {
    GatherChains(hays, m, states, hay, chains, moreChains);
    GatherKept(hays, m, states, hay, chains, moreChains);
    GatherKeys(hays, m, states, hay, chains, moreChains);
    GatherStarts(hays, m, hay, starts, moreStarts);
    GatherStarted(hays, m, hay, starts, moreStarts);
    GatherApart(hays, m, hay, starts, moreStarts);
  }

  lemma {:induction false} GoodPrefix(hays: seq<Hay>, n: nat)
    requires GoodHays(hays) && n < |hays|
    ensures hays[..n] + [hays[n]] == hays[..n + 1] && GoodHays(hays[..n + 1]) && hays[n].Valid()
  {
  }

  method GatherLeaf(hays: seq<Hay>, n: nat, m: Machine, states: seq<State>, starts: seq<ChainHalf>, chains: seq<Chain>)
    returns (starts': seq<ChainHalf>, chains': seq<Chain>)
    requires GoodHays(hays) && NoRepeats(states) && n < |hays| && Gathered(hays[..n], m, states, starts, chains)
    ensures Gathered(hays[..n + 1], m, states, starts', chains')
  {
    GoodPrefix(hays, n);
    var moreStarts, moreChains := PartialSearch(hays[n], m, states);
    GatherStep(hays[..n], m, states, hays[n], starts, chains, moreStarts, moreChains);
    starts', chains' := starts + moreStarts, chains + moreChains;
  }

  /** Searches every leaf on its own. */
  method Gather(hays: seq<Hay>, m: Machine, states: seq<State>) returns (starts: seq<ChainHalf>, chains: seq<Chain>)
    requires GoodHays(hays) && NoRepeats(states)
    ensures Gathered(hays, m, states, starts, chains)
  {
    starts, chains := [], [];
    var n := 0;
    while n < |hays|
      invariant 0 <= n <= |hays| && Gathered(hays[..n], m, states, starts, chains)
    {
      starts, chains := GatherLeaf(hays, n, m, states, starts, chains);
      n := n + 1;
    }
    assert hays[..n] == hays;
  }
}
