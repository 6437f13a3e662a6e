/** What chaining reports: only matches, at most one per start and time, and every match end. */
module SearchMatch {
  import opened Ranges
  import opened Automata
  import opened Execute
  import opened SearchLeaf
  import opened SearchChain
  import opened SearchZone
  import opened Sums

  // ---- every report is a match ----

  ghost predicate RunHolds(hays: seq<Hay>, m: Machine, q: State, addrs: AddrRange, t: Time, to: Handle, w: seq<Byte>) {
    && |w| == addrs.max as int - addrs.min as int + 1
    && HoldsWord(hays, addrs.min as int, w, t) && Go(m, AtState(q), w) == Some(to)
  }

  /** At each of its times, memory over the stretch takes the machine from `q` to where the stretch stands. */
  ghost predicate HalfSound(hays: seq<Hay>, m: Machine, q: State, h: ChainHalf) {
    forall t :: h.times.Contains(t) ==> exists w :: RunHolds(hays, m, q, h.addrs, t, h.to, w)
  }

  lemma {:induction false} RunsOverSound(hays: seq<Hay>, m: Machine, q: State, k: nat, i: nat, j: nat, h: ChainHalf)
    requires GoodHays(hays) && Followable(hays)
    requires k < |hays| && hays[k].Valid() && RunsOver(hays[k], m, q, i, j, h)
    ensures HalfSound(hays, m, q, h) && Proper(h)
  {
    forall t | h.times.Contains(t) ensures exists w :: RunHolds(hays, m, q, h.addrs, t, h.to, w) {
      LeafHolds(hays, k, i, j, t);
      assert RunHolds(hays, m, q, h.addrs, t, h.to, hays[k].bytes[i..j + 1]);
    }
  }

  lemma {:induction false} StartSound(hays: seq<Hay>, m: Machine, h: ChainHalf)
    requires GoodHays(hays) && Followable(hays) && StartHasLeaf(hays, m, h)
    ensures HalfSound(hays, m, m.initial, h) && Proper(h)
  {
    var k: nat :| StartFrom(hays, m, h, k);
    var i: nat, j: nat :| RunsOver(hays[k], m, m.initial, i, j, h);
    RunsOverSound(hays, m, m.initial, k, i, j, h);
  }

  lemma {:induction false} ChainSound(hays: seq<Hay>, m: Machine, states: seq<State>, c: Chain)
    requires GoodHays(hays) && Followable(hays) && ChainHasLeaf(hays, m, states, c)
    ensures HalfSound(hays, m, c.from, c.half) && Proper(c.half)
  {
    var k: nat :| ChainFrom(hays, m, states, c, k);
    var j: nat :| RunsOver(hays[k], m, c.from, 0, j, c.half);
    RunsOverSound(hays, m, c.from, k, 0, j, c.half);
  }

  lemma {:induction false} ExtensionSound(hays: seq<Hay>, m: Machine, q: State, h: ChainHalf, c: Chain)
    requires HalfSound(hays, m, q, h) && HalfSound(hays, m, c.from, c.half) && Proper(h) && Proper(c.half)
    requires Extension(h, c).Some?
    ensures HalfSound(hays, m, q, Extension(h, c).value)
  {
    var g := Extension(h, c).value;
    forall t | g.times.Contains(t) ensures exists w :: RunHolds(hays, m, q, g.addrs, t, g.to, w) {
      var u :| RunHolds(hays, m, q, h.addrs, t, h.to, u);
      var v :| RunHolds(hays, m, c.from, c.half.addrs, t, c.half.to, v);
      HoldsConcat(hays, h.addrs.min as int, u, v, t);
      GoConcat(m, AtState(q), u, v);
      assert RunHolds(hays, m, q, g.addrs, t, g.to, u + v);
    }
  }

  /** `g` comes from `h`: same start address, no new times, and sound. */
  ghost predicate Grown(hays: seq<Hay>, m: Machine, q: State, h: ChainHalf, g: ChainHalf) {
    && Proper(g) && HalfSound(hays, m, q, g) && g.addrs.min == h.addrs.min
    && forall t :: g.times.Contains(t) ==> h.times.Contains(t)
  }

  ghost predicate SoundChains(hays: seq<Hay>, m: Machine, chains: seq<Chain>) {
    ProperChains(chains) && forall i :: 0 <= i < |chains| ==> HalfSound(hays, m, chains[i].from, chains[i].half)
  }

  /** The report `r` is the end of a stretch grown from `h`. */
  ghost predicate EndOf(hays: seq<Hay>, m: Machine, q: State, h: ChainHalf, r: SearchResult) {
    exists g :: Grown(hays, m, q, h, g) && g.to.Tip? && ResultOf(g) == r
  }

  lemma {:induction false} TallyEnds(hays: seq<Hay>, m: Machine, q: State, h0: ChainHalf, chains: seq<Chain>,
                                     h: ChainHalf, r: SearchResult)
    requires SoundChains(hays, m, chains) && Grown(hays, m, q, h0, h) && Tally(chains, h, Scored(Is(r))) > 0
    ensures EndOf(hays, m, q, h0, r)
    decreases ADDR_MAX - h.addrs.max, |chains| + 1
  {
    if h.to.Tip? {
      assert ScoreOf(Is(r), h) > 0;
    } else {
      assert Scored(Is(r))(h) == 0;
      TallyEndsUpTo(hays, m, q, h0, chains, h, |chains|, r);
    }
  }

  lemma {:induction false} TallyEndsUpTo(hays: seq<Hay>, m: Machine, q: State, h0: ChainHalf, chains: seq<Chain>,
                                         h: ChainHalf, n: nat, r: SearchResult)
    requires SoundChains(hays, m, chains) && Grown(hays, m, q, h0, h) && n <= |chains|
    requires TallyUpTo(chains, h, n, Scored(Is(r))) > 0
    ensures EndOf(hays, m, q, h0, r)
    decreases ADDR_MAX - h.addrs.max, n
  {
    if TallyUpTo(chains, h, n - 1, Scored(Is(r))) > 0 {
      TallyEndsUpTo(hays, m, q, h0, chains, h, n - 1, r);
    } else {
      ExtensionSound(hays, m, q, h, chains[n - 1]);
      TallyEnds(hays, m, q, h0, chains, Extension(h, chains[n - 1]).value, r);
    }
  }

  // ---- at most one report per start and time ----

  /** At one time, at most one chain goes on from one address in one state. */
  ghost predicate ForkOnce(chains: seq<Chain>) {
    forall i, j :: 0 <= i < j < |chains| && chains[i].from == chains[j].from
                   && chains[i].half.addrs.min == chains[j].half.addrs.min
                   ==> chains[i].half.times.Disjoint(chains[j].half.times)
  }

  lemma {:induction false} SortedForkOnce(hays: seq<Hay>, m: Machine, states: seq<State>, chains: seq<Chain>)
    requires GoodHays(hays) && ChainsFrom(hays, m, states, chains) && StrictlySorted(chains)
    ensures ForkOnce(chains)
  {
    forall i, j | 0 <= i < j < |chains| && chains[i].from == chains[j].from
                  && chains[i].half.addrs.min == chains[j].half.addrs.min
      ensures chains[i].half.times.Disjoint(chains[j].half.times)
    {
      assert ChainHasLeaf(hays, m, states, chains[i]) && ChainHasLeaf(hays, m, states, chains[j]);
      var k: nat :| ChainFrom(hays, m, states, chains[i], k);
      var l: nat :| ChainFrom(hays, m, states, chains[j], l);
      ChainPlace(hays[k], m, chains[i]);
      ChainPlace(hays[l], m, chains[j]);
      assert Less(Key(chains[i]), Key(chains[j]));
      KeysOfLeaves(hays, m, states, chains[i], k, chains[j], l);
    }
  }

  /** Scores a report that starts at `s` and covers time `t`. */
  ghost function StartsAt(s: Addr, t: Time): SearchResult -> nat {
    (r: SearchResult) => if r.addrMin == s && r.timeMin <= t <= r.timeMax then 1 else 0
  }

  ghost function Bound(h: ChainHalf, s: Addr, t: Time): nat {
    if h.addrs.min == s && h.times.Contains(t) then 1 else 0
  }

  lemma {:induction false} TallyAtMostOne(chains: seq<Chain>, h: ChainHalf, s: Addr, t: Time)
    requires ProperChains(chains) && Proper(h) && ForkOnce(chains)
    ensures Tally(chains, h, Scored(StartsAt(s, t))) <= Bound(h, s, t)
    decreases ADDR_MAX - h.addrs.max, |chains| + 1
  {
    if h.to.Tip? {
      assert Scored(StartsAt(s, t))(h) == ScoreOf(StartsAt(s, t), h);
    } else {
      assert Scored(StartsAt(s, t))(h) == 0;
      TallyAtMostOneUpTo(chains, h, |chains|, s, t);
    }
  }

  /** A chain over which `h` goes on at time `t`. */
  ghost predicate OnAt(h: ChainHalf, c: Chain, t: Time) {
    h.to.AtState? && h.addrs.max < ADDR_MAX && Wanted(c, h.to.state, h.addrs.max + 1) && c.half.times.Contains(t)
  }

  lemma {:induction false} TallyAtMostOneUpTo(chains: seq<Chain>, h: ChainHalf, n: nat, s: Addr, t: Time)
    requires ProperChains(chains) && Proper(h) && ForkOnce(chains) && n <= |chains|
    ensures TallyUpTo(chains, h, n, Scored(StartsAt(s, t))) <= Bound(h, s, t)
    ensures (forall i :: 0 <= i < n ==> !OnAt(h, chains[i], t)) ==> TallyUpTo(chains, h, n, Scored(StartsAt(s, t))) == 0
    decreases ADDR_MAX - h.addrs.max, n
  {
    if n > 0 {
      TallyAtMostOneUpTo(chains, h, n - 1, s, t);
      var c := chains[n - 1];
      if Extension(h, c).Some? {
        TallyAtMostOne(chains, Extension(h, c).value, s, t);
        if OnAt(h, c, t) {
          forall i | 0 <= i < n - 1 ensures !OnAt(h, chains[i], t) {
            assert OnAt(h, chains[i], t) ==> chains[i].half.times.Disjoint(c.half.times);
          }
        }
      }
    }
  }

  lemma {:induction false} TotalAtMostOne(chains: seq<Chain>, starts: seq<ChainHalf>, s: Addr, t: Time)
    requires ProperChains(chains) && ProperHalves(starts) && ForkOnce(chains) && StartsApart(starts)
    ensures Total(chains, starts, Scored(StartsAt(s, t))) <= 1
    ensures (forall i :: 0 <= i < |starts| ==> Bound(starts[i], s, t) == 0) ==>
            Total(chains, starts, Scored(StartsAt(s, t))) == 0
  {
    if starts == [] {
    } else {
      var rest, last := starts[..|starts| - 1], starts[|starts| - 1];
      assert starts == rest + [last];
      TotalAtMostOne(chains, rest, s, t);
      TotalConcat(chains, rest, [last], Scored(StartsAt(s, t)));
      TotalOne(chains, last, Scored(StartsAt(s, t)));
      TallyAtMostOne(chains, last, s, t);
      if Bound(last, s, t) == 1 {
        forall i | 0 <= i < |rest| ensures Bound(rest[i], s, t) == 0 {
          assert starts[i].addrs.min != last.addrs.min || starts[i].times.Disjoint(last.times);
        }
      }
    }
  }

  lemma {:induction false} ScoreTwo(results: seq<SearchResult>, i: nat, j: nat, g: SearchResult -> nat)
    requires i < j < |results| && g(results[i]) >= 1 && g(results[j]) >= 1
    ensures Score(results, g) >= 2
    decreases |results|
  {
    var rest := results[..|results| - 1];
    if j < |results| - 1 {
      ScoreTwo(rest, i, j, g);
    } else {
      ScoreOne(rest, i, g);
    }
  }

  lemma {:induction false} ScoreOne(results: seq<SearchResult>, i: nat, g: SearchResult -> nat)
    requires i < |results|
    ensures Score(results, g) >= g(results[i])
    decreases |results|
  {
    if i < |results| - 1 {
      ScoreOne(results[..|results| - 1], i, g);
    }
  }

  /** Reports with the same start address are for disjoint time ranges. */
  ghost predicate ReportsApart(results: seq<SearchResult>) {
    forall i, j :: 0 <= i < j < |results| && results[i].addrMin == results[j].addrMin
                   ==> TimesOf(results[i]).Disjoint(TimesOf(results[j]))
  }

  function TimesOf(r: SearchResult): TimeRange {
    TimeRange(r.timeMin, r.timeMax)
  }

  lemma {:induction false} ApartFromScores(results: seq<SearchResult>)
    requires forall s, t :: Score(results, StartsAt(s, t)) <= 1
    requires forall i :: 0 <= i < |results| ==> TimesOf(results[i]).Valid()
    ensures ReportsApart(results)
  {
    forall i, j | 0 <= i < j < |results| && results[i].addrMin == results[j].addrMin
      ensures TimesOf(results[i]).Disjoint(TimesOf(results[j]))
    {
      if !TimesOf(results[i]).Disjoint(TimesOf(results[j])) {
        var t := MaxTime(results[i].timeMin, results[j].timeMin);
        assert Score(results, StartsAt(results[i].addrMin, t)) <= 1;
        ScoreTwo(results, i, j, StartsAt(results[i].addrMin, t));
      }
    }
  }

  // ---- every match end is reported ----

  lemma {:induction false} TallyVia(chains: seq<Chain>, h: ChainHalf, n: nat, i: nat, f: ChainHalf -> nat)
    requires ProperChains(chains) && Proper(h) && i < n <= |chains| && Extension(h, chains[i]).Some?
    ensures TallyUpTo(chains, h, n, f) >= Tally(chains, Extension(h, chains[i]).value, f)
    decreases n
  {
    if i < n - 1 {
      TallyVia(chains, h, n - 1, i, f);
    }
  }

  lemma {:induction false} SumVia(ws: seq<nat>, i: nat)
    requires i < |ws|
    ensures Sum(ws) >= ws[i]
    decreases |ws|
  {
    if i < |ws| - 1 {
      SumVia(ws[..|ws| - 1], i);
    }
  }

  /** The stretch reaches the end of a leaf that is there at all its times. */
  ghost predicate EndsLeaf(hays: seq<Hay>, h: ChainHalf, k: nat) {
    && k < |hays| && hays[k].node.addrMax == h.addrs.max
    && forall t :: h.times.Contains(t) ==> hays[k].node.Times().Contains(t)
  }

  /** Right behind the end of a leaf another leaf can only start: the next byte's leaf starts exactly there. */
  lemma {:induction false} NextLeafStarts(hays: seq<Hay>, h: ChainHalf, k: nat, t: Time, b: Byte) returns (l: nat)
    requires GoodHays(hays) && EndsLeaf(hays, h, k) && h.times.Contains(t) && Mem(hays, h.addrs.max as int + 1, t, b)
    ensures l < |hays| && hays[l].At(h.addrs.max as int + 1, t, b)
    ensures hays[l].node.addrMin as int == h.addrs.max as int + 1
  {
    l :| 0 <= l < |hays| && hays[l].At(h.addrs.max as int + 1, t, b);
    if hays[l].node.addrMin <= h.addrs.max {
      OneLeaf(hays, l, k, h.addrs.max as int, t);
    }
  }

  lemma {:induction false} LeafPrefix(hays: seq<Hay>, l: nat, s: int, w: seq<Byte>, t: Time, n: nat)
    requires GoodHays(hays) && l < |hays| && HoldsWord(hays, s, w, t) && hays[l].node.Times().Contains(t)
    requires hays[l].node.addrMin as int <= s && s + n <= hays[l].node.addrMax as int + 1 && n <= |w|
    ensures var i := s - hays[l].node.addrMin as int;
      i + n <= |hays[l].bytes| && w[..n] == hays[l].bytes[i..i + n]
  {
    var i := s - hays[l].node.addrMin as int;
    forall a | 0 <= a < n ensures w[a] == hays[l].bytes[i + a] {
      assert Mem(hays, s + a, t, w[a]);
      var k :| 0 <= k < |hays| && hays[k].At(s + a, t, w[a]);
      OneLeaf(hays, k, l, s + a, t);
    }
  }

  /** A report that ends where the word ends, at time `t`. */
  ghost predicate Ends(r: SearchResult, end: int, t: Time) {
    r.addrMax as int == end && r.timeMin <= t <= r.timeMax
  }

  /** Some report grown from `h` ends there. */
  ghost predicate TaskReports(chains: seq<Chain>, h: ChainHalf, end: int, t: Time)
    requires ProperChains(chains) && Proper(h)
  {
    exists r :: Tally(chains, h, Scored(Is(r))) > 0 && Ends(r, end, t)
  }

  /** The task at `h` goes on, or is forked, as a task at `g`. */
  ghost predicate GoesOn(chains: seq<Chain>, h: ChainHalf, g: ChainHalf)
    requires ProperChains(chains) && Proper(h)
  {
    h.to.AtState? && Proper(g) && exists i :: 0 <= i < |chains| && Extension(h, chains[i]) == Some(g)
  }

  lemma {:induction false} ReportVia(chains: seq<Chain>, h: ChainHalf, g: ChainHalf, end: int, t: Time)
    requires ProperChains(chains) && Proper(h) && Proper(g) && GoesOn(chains, h, g) && TaskReports(chains, g, end, t)
    ensures TaskReports(chains, h, end, t)
  {
    var i: nat :| i < |chains| && Extension(h, chains[i]) == Some(g);
    var r :| Tally(chains, g, Scored(Is(r))) > 0 && Ends(r, end, t);
    TallyVia(chains, h, |chains|, i, Scored(Is(r)));
    assert Tally(chains, h, Scored(Is(r))) > 0;
  }

  lemma {:induction false} TipReports(chains: seq<Chain>, h: ChainHalf, t: Time)
    requires ProperChains(chains) && Proper(h) && h.to.Tip? && h.times.Contains(t)
    ensures TaskReports(chains, h, h.addrs.max as int, t)
  {
    var r := ResultOf(h);
    assert Scored(Is(r))(h) == ScoreOf(Is(r), h) == 1;
    assert Tally(chains, h, Scored(Is(r))) > 0 && Ends(r, h.addrs.max as int, t);
  }

  lemma {:induction false} ExtensionAt(h: ChainHalf, c: Chain, t: Time)
    requires Proper(h) && Proper(c.half) && OnAt(h, c, t) && h.times.Contains(t)
    ensures Extension(h, c).Some? && Extension(h, c).value.times.Contains(t)
    ensures Extension(h, c).value.to == c.half.to && Extension(h, c).value.addrs.max == c.half.addrs.max
  {
  }

  /** Every state the machine can stand in is initial or has its chains. */
  ghost predicate KnownStates(m: Machine, states: seq<State>) {
    forall q, b :: (q, b) in m.table ==>
      m.table[(q, b)] == m.initial || m.table[(q, b)] in m.accept || m.table[(q, b)] in states
  }

  lemma {:induction false} StandsKnown(m: Machine, states: seq<State>, q: State, w: seq<Byte>, r: State)
    requires KnownStates(m, states) && w != [] && Go(m, AtState(q), w) == Some(AtState(r))
    ensures r == m.initial || r in states
    decreases |w|
  {
    var n := m.table[(q, w[0])];
    if n !in m.accept && w[1..] != [] {
      StandsKnown(m, states, n, w[1..], r);
    }
  }

  ghost predicate Ready(hays: seq<Hay>, m: Machine, states: seq<State>, chains: seq<Chain>) {
    GoodHays(hays) && ProperChains(chains) && AllKept(hays, m, states, chains) && KnownStates(m, states)
  }

  lemma {:induction false} ChainIndex(chains: seq<Chain>, c: Chain) returns (i: nat)
    requires c in chains
    ensures i < |chains| && chains[i] == c
  {
    i :| 0 <= i < |chains| && chains[i] == c;
  }

  /** Chaining on over the leaf that holds the next byte. */
  lemma {:induction false} Onward(hays: seq<Hay>, m: Machine, states: seq<State>, chains: seq<Chain>, h: ChainHalf,
                                  k: nat, t: Time, w: seq<Byte>) returns (n: nat, g: ChainHalf, l: nat)
    requires Ready(hays, m, states, chains) && Proper(h) && EndsLeaf(hays, h, k) && h.times.Contains(t)
    requires h.to.AtState? && h.to.state in states && w != [] && HoldsWord(hays, h.addrs.max as int + 1, w, t)
    requires Go(m, h.to, w) == Some(Tip)
    ensures 0 < n <= |w| && Go(m, h.to, w[..n]) == Some(g.to) && (n == |w| || g.to.AtState?)
    ensures GoesOn(chains, h, g) && g.times.Contains(t) && g.addrs.max as int == h.addrs.max as int + n
    ensures g.to.AtState? ==> EndsLeaf(hays, g, l)
    ensures l < |hays| && hays[l].node.addrMin as int == h.addrs.max as int + 1 && g.addrs.max <= hays[l].node.addrMax
    ensures hays[l].node.Times().Contains(t) && g.addrs.min == h.addrs.min
  {
    assert Mem(hays, h.addrs.max as int + 1 + 0, t, w[0]);
    l := NextLeafStarts(hays, h, k, t, w[0]);
    var hay := hays[l];
    n := if |w| < |hay.bytes| then |w| else |hay.bytes|;
    LeafPrefix(hays, l, h.addrs.max as int + 1, w, t, n);
    var to := PrefixStands(m, h.to, w, n);
    assert ChainKept(hay, m, chains, h.to.state);
    var c := ChainOfPrefix(hay, m, chains, h.to.state, w[..n], to);
    var i := ChainIndex(chains, c);
    ExtensionAt(h, c, t);
    g := Extension(h, chains[i]).value;
    if to.AtState? {
      ExtensionEnds(hays, h, c, l);
    }
  }

  lemma {:induction false} ExtensionEnds(hays: seq<Hay>, h: ChainHalf, c: Chain, l: nat)
    requires Proper(h) && Proper(c.half) && Extension(h, c).Some? && l < |hays|
    requires c.half.times == hays[l].node.Times() && c.half.addrs.max == hays[l].node.addrMax
    ensures EndsLeaf(hays, Extension(h, c).value, l)
  {
  }

  /** A prefix of a word that leads to a tip stands at a tip only if it is the whole word. */
  lemma {:induction false} PrefixStands(m: Machine, h: Handle, w: seq<Byte>, n: nat) returns (to: Handle)
    requires Go(m, h, w) == Some(Tip) && n <= |w|
    ensures Go(m, h, w[..n]) == Some(to) && (to.Tip? ==> n == |w|) && Go(m, to, w[n..]) == Some(Tip)
  {
    assert w == w[..n] + w[n..];
    GoConcat(m, h, w[..n], w[n..]);
    to := Go(m, h, w[..n]).value;
  }

  lemma {:induction false} ChainOfPrefix(hay: Hay, m: Machine, chains: seq<Chain>, q: State, u: seq<Byte>, to: Handle)
    returns (c: Chain)
    requires hay.Valid() && ChainKept(hay, m, chains, q) && 0 < |u| <= |hay.bytes| && u == hay.bytes[0..|u|]
    requires Go(m, AtState(q), u) == Some(to) && (to.AtState? ==> |u| == |hay.bytes|)
    ensures c in chains && c.from == q && c.half == HalfAt(hay.node, 0, |u| - 1, to)
  {
    var j := |u| - 1;
    assert RunTo(m, q, hay.bytes, 0, j) == Some(to);
    assert |u| == |hay.bytes| ==> u == hay.bytes;
    c := Chain(q, HalfAt(hay.node, 0, j, to));
  }

  /** `rest` is a proper, non-empty ending of `w`. */
  ghost predicate Ending(w: seq<Byte>, rest: seq<Byte>) {
    0 < |rest| < |w| && rest == w[|w| - |rest|..]
  }

  /** A task stands at a leaf's end with the rest of a match before it: it reports the match end, or passes
      the initial state on the way, so that a shorter match ends there, too. */
  lemma {:induction false} FollowTask(hays: seq<Hay>, m: Machine, states: seq<State>, chains: seq<Chain>,
                                      h: ChainHalf, k: nat, t: Time, w: seq<Byte>)
    returns (reports: bool, rest: seq<Byte>)
    requires Ready(hays, m, states, chains) && Proper(h) && EndsLeaf(hays, h, k) && h.times.Contains(t)
    requires h.to.AtState? && h.to.state in states && w != [] && HoldsWord(hays, h.addrs.max as int + 1, w, t)
    requires Go(m, h.to, w) == Some(Tip)
    ensures reports ==> TaskReports(chains, h, h.addrs.max as int + |w|, t)
    ensures !reports ==> Ending(w, rest) && Go(m, AtState(m.initial), rest) == Some(Tip)
    decreases |w|
  {
    var n, g, l := Onward(hays, m, states, chains, h, k, t, w);
    if n == |w| {
      assert w[..|w|] == w;
      TipReports(chains, g, t);
      ReportVia(chains, h, g, h.addrs.max as int + |w|, t);
      return true, [];
    }
    rest := w[n..];
    RestStands(m, h.to, w, n, g.to);
    StandsKnown(m, states, h.to.state, w[..n], g.to.state);
    if g.to.state == m.initial {
      assert g.to == AtState(m.initial);
      return false, rest;
    }
    HoldsRest(hays, h.addrs.max as int + 1, w, n, t);
    reports, rest := FollowTask(hays, m, states, chains, g, l, t, rest);
    if reports {
      ReportVia(chains, h, g, h.addrs.max as int + |w|, t);
    } else {
      EndingOfEnding(w, w[n..], rest);
    }
  }

  lemma {:induction false} EndingOfEnding(w: seq<Byte>, v: seq<Byte>, u: seq<Byte>)
    requires Ending(w, v) && Ending(v, u)
    ensures Ending(w, u)
  {
  }

  lemma {:induction false} RestStands(m: Machine, h: Handle, w: seq<Byte>, n: nat, to: Handle)
    requires Go(m, h, w) == Some(Tip) && n <= |w| && Go(m, h, w[..n]) == Some(to)
    ensures Go(m, to, w[n..]) == Some(Tip)
  {
    var also := PrefixStands(m, h, w, n);
  }

  ghost predicate Reported(chains: seq<Chain>, starts: seq<ChainHalf>, end: int, t: Time)
    requires ProperChains(chains) && ProperHalves(starts)
  {
    exists r :: Total(chains, starts, Scored(Is(r))) > 0 && Ends(r, end, t)
  }

  lemma {:induction false} TaskIsReported(chains: seq<Chain>, starts: seq<ChainHalf>, h: ChainHalf, end: int, t: Time)
    requires ProperChains(chains) && ProperHalves(starts) && h in starts && Proper(h) && TaskReports(chains, h, end, t)
    ensures Reported(chains, starts, end, t)
  {
    var r :| Tally(chains, h, Scored(Is(r))) > 0 && Ends(r, end, t);
    var i :| 0 <= i < |starts| && starts[i] == h;
    SumVia(Tallies(chains, starts, Scored(Is(r))), i);
  }

  /** What starting at a leaf's byte gives for the part of a match inside the leaf. */
  lemma {:induction false} StartAt(hays: seq<Hay>, m: Machine, starts: seq<ChainHalf>, k: nat, s: int, w: seq<Byte>,
                                   t: Time)
    returns (n: nat, to: Handle, h: ChainHalf)
    requires GoodHays(hays) && AllStarted(hays, m, starts) && k < |hays| && w != []
    requires hays[k].At(s, t, w[0]) && HoldsWord(hays, s, w, t) && Go(m, AtState(m.initial), w) == Some(Tip)
    ensures 0 < n <= |w| && Go(m, AtState(m.initial), w[..n]) == Some(to) && (to.Tip? <==> n == |w|)
    ensures h in starts && h.to == to && h.times.Contains(t) && h.addrs.max as int == s + n - 1
    ensures to.AtState? ==> EndsLeaf(hays, h, k)
  {
    var hay := hays[k];
    var i := s - hay.node.addrMin as int;
    n := if |w| < |hay.bytes| - i then |w| else |hay.bytes| - i;
    LeafPrefix(hays, k, s, w, t, n);
    to := PrefixStands(m, AtState(m.initial), w, n);
    assert w[..|w|] == w;
    h := KeptStart(hay, m, starts, i, n, to);
  }

  lemma {:induction false} KeptStart(hay: Hay, m: Machine, starts: seq<ChainHalf>, i: nat, n: nat, to: Handle)
    returns (h: ChainHalf)
    requires hay.Valid() && StartsComplete(hay, m, starts, |hay.bytes|) && 0 < n && i + n <= |hay.bytes|
    requires Go(m, AtState(m.initial), hay.bytes[i..i + n]) == Some(to) && (to.AtState? ==> i + n == |hay.bytes|)
    ensures h in starts && h.to == to && h.times == hay.node.Times()
    ensures h.addrs.max as int == hay.node.addrMin as int + i + n - 1
  {
    assert StartKept(hay, m, starts, i);
    if to.Tip? {
      var j := i + n - 1;
      assert RunTo(m, m.initial, hay.bytes, i, j) == Some(Tip);
      h := HalfAt(hay.node, i, j, Tip);
    } else {
      assert hay.bytes[i..] == hay.bytes[i..i + n];
      h :| h in starts && h.to == to && h.addrs.max == hay.node.addrMax && h.times == hay.node.Times();
    }
  }

  lemma {:induction false} InProper(starts: seq<ChainHalf>, h: ChainHalf)
    requires ProperHalves(starts) && h in starts
    ensures Proper(h)
  {
  }

  /** Going on from a kept start at the end of its leaf. */
  lemma {:induction false} FollowKept(hays: seq<Hay>, m: Machine, states: seq<State>, starts: seq<ChainHalf>,
                                      chains: seq<Chain>, h: ChainHalf, k: nat, w: seq<Byte>, t: Time)
    returns (reports: bool, rest: seq<Byte>)
    requires Ready(hays, m, states, chains) && ProperHalves(starts) && h in starts && Proper(h)
    requires h.to.AtState? && (h.to.state == m.initial || h.to.state in states)
    requires EndsLeaf(hays, h, k) && h.times.Contains(t)
    requires w != [] && HoldsWord(hays, h.addrs.max as int + 1, w, t) && Go(m, h.to, w) == Some(Tip)
    ensures reports ==> Reported(chains, starts, h.addrs.max as int + |w|, t)
    ensures !reports ==> (rest == w || Ending(w, rest)) && Go(m, AtState(m.initial), rest) == Some(Tip)
  {
    if h.to.state == m.initial {
      assert h.to == AtState(m.initial);
      return false, w;
    }
    reports, rest := FollowTask(hays, m, states, chains, h, k, t, w);
    if reports {
      TaskIsReported(chains, starts, h, h.addrs.max as int + |w|, t);
    }
  }

  /** A match is reported from its start on, or a shorter match ends at the same place. */
  lemma {:induction false} FollowStart(hays: seq<Hay>, m: Machine, states: seq<State>, starts: seq<ChainHalf>,
                                       chains: seq<Chain>, s: int, w: seq<Byte>, t: Time, k: nat)
    returns (reports: bool, rest: seq<Byte>)
    requires Ready(hays, m, states, chains) && AllStarted(hays, m, starts) && ProperHalves(starts) && k < |hays|
    requires HoldsWord(hays, s, w, t) && w != [] && Go(m, AtState(m.initial), w) == Some(Tip) && hays[k].At(s, t, w[0])
    ensures reports ==> Reported(chains, starts, s + |w| - 1, t)
    ensures !reports ==> Ending(w, rest) && Go(m, AtState(m.initial), rest) == Some(Tip)
  {
    var n, to, h := StartAt(hays, m, starts, k, s, w, t);
    InProper(starts, h);
    if to.Tip? {
      TipReports(chains, h, t);
      TaskIsReported(chains, starts, h, s + |w| - 1, t);
      return true, [];
    }
    RestStands(m, AtState(m.initial), w, n, to);
    StandsKnown(m, states, m.initial, w[..n], to.state);
    HoldsRest(hays, s, w, n, t);
    reports, rest := FollowKept(hays, m, states, starts, chains, h, k, w[n..], t);
    if !reports && rest != w[n..] {
      EndingOfEnding(w, w[n..], rest);
    }
  }

  /** Wherever a match ends, some report ends, for that time. */
  lemma {:induction false} MatchReported(hays: seq<Hay>, m: Machine, states: seq<State>, starts: seq<ChainHalf>,
                                         chains: seq<Chain>, s: int, w: seq<Byte>, t: Time)
    requires Ready(hays, m, states, chains) && AllStarted(hays, m, starts) && ProperHalves(starts)
    requires HoldsWord(hays, s, w, t) && w != [] && Go(m, AtState(m.initial), w) == Some(Tip)
    ensures Reported(chains, starts, s + |w| - 1, t)
    decreases |w|
  {
    assert Mem(hays, s + 0, t, w[0]);
    var k: nat :| k < |hays| && hays[k].At(s + 0, t, w[0]);
    var reports, rest := FollowStart(hays, m, states, starts, chains, s, w, t, k);
    if !reports {
      HoldsRest(hays, s, w, |w| - |rest|, t);
      MatchReported(hays, m, states, starts, chains, s + |w| - |rest|, rest, t);
    }
  }

  // ---- searching one zone ----

  ghost predicate ReportSound(hays: seq<Hay>, m: Machine, r: SearchResult) {
    && r.addrMin <= r.addrMax && r.timeMin <= r.timeMax
    && forall t :: TimesOf(r).Contains(t) ==>
            exists w :: RunHolds(hays, m, m.initial, AddrRange(r.addrMin, r.addrMax), t, Tip, w)
  }

  ghost predicate Found(results: seq<SearchResult>, end: int, t: Time) {
    exists i :: 0 <= i < |results| && Ends(results[i], end, t)
  }

  /** Every match end has a report. */
  ghost predicate AllFound(hays: seq<Hay>, m: Machine, results: seq<SearchResult>) {
    forall s, w, t :: HoldsWord(hays, s, w, t) && w != [] && Go(m, AtState(m.initial), w) == Some(Tip)
                      ==> Found(results, s + |w| - 1, t)
  }

  lemma {:induction false} SumSome(ws: seq<nat>) returns (i: nat)
    requires Sum(ws) > 0
    ensures i < |ws| && ws[i] > 0
    decreases |ws|
  {
    i := |ws| - 1;
    if ws[i] == 0 {
      i := SumSome(ws[..i]);
    }
  }

  lemma {:induction false} TotalSound(hays: seq<Hay>, m: Machine, starts: seq<ChainHalf>, chains: seq<Chain>,
                                      r: SearchResult)
    requires SoundChains(hays, m, chains) && ProperHalves(starts)
    requires forall i :: 0 <= i < |starts| ==> HalfSound(hays, m, m.initial, starts[i])
    requires Total(chains, starts, Scored(Is(r))) > 0
    ensures ReportSound(hays, m, r)
  {
    var i := SumSome(Tallies(chains, starts, Scored(Is(r))));
    var h := starts[i];
    assert Grown(hays, m, m.initial, h, h);
    TallyEnds(hays, m, m.initial, h, chains, h, r);
  }

  lemma {:induction false} GatheredSound(hays: seq<Hay>, m: Machine, states: seq<State>, starts: seq<ChainHalf>,
                                         chains: seq<Chain>)
    requires GoodHays(hays) && Followable(hays)
    requires ChainsFrom(hays, m, states, chains) && StartsFrom(hays, m, starts)
    ensures SoundChains(hays, m, chains) && ProperHalves(starts)
    ensures forall i :: 0 <= i < |starts| ==> HalfSound(hays, m, m.initial, starts[i])
  {
    forall i | 0 <= i < |chains| ensures HalfSound(hays, m, chains[i].from, chains[i].half) && Proper(chains[i].half) {
      ChainSound(hays, m, states, chains[i]);
    }
    forall i | 0 <= i < |starts| ensures HalfSound(hays, m, m.initial, starts[i]) && Proper(starts[i]) {
      StartSound(hays, m, starts[i]);
    }
  }

  lemma {:induction false} SortedGathered(hays: seq<Hay>, m: Machine, states: seq<State>, chains: seq<Chain>,
                                          sorted: seq<Chain>)
    requires ChainsFrom(hays, m, states, chains) && AllKept(hays, m, states, chains)
    requires forall c :: c in sorted <==> c in chains
    ensures ChainsFrom(hays, m, states, sorted) && AllKept(hays, m, states, sorted)
  {
    forall i | 0 <= i < |sorted| ensures ChainHasLeaf(hays, m, states, sorted[i]) {
      var k := ChainIndex(chains, sorted[i]);
    }
    forall k, q | 0 <= k < |hays| && q in states ensures hays[k].Valid() && ChainKept(hays[k], m, sorted, q) {
      assert ChainKept(hays[k], m, chains, q);
    }
  }

  /** What the reports of a scope mean. */
  lemma {:induction false} ReportsAre(hays: seq<Hay>, m: Machine, states: seq<State>, starts: seq<ChainHalf>,
                                      chains: seq<Chain>, results: seq<SearchResult>)
    requires Ready(hays, m, states, chains) && AllStarted(hays, m, starts) && StartsApart(starts) && ForkOnce(chains)
    requires SoundChains(hays, m, chains) && ProperHalves(starts)
    requires forall i :: 0 <= i < |starts| ==> HalfSound(hays, m, m.initial, starts[i])
    requires forall g :: Score(results, g) == Total(chains, starts, Scored(g))
    ensures forall i :: 0 <= i < |results| ==> ReportSound(hays, m, results[i])
    ensures ReportsApart(results) && AllFound(hays, m, results)
  {
    forall i | 0 <= i < |results| ensures ReportSound(hays, m, results[i]) {
      ScoreOne(results, i, Is(results[i]));
      TotalSound(hays, m, starts, chains, results[i]);
    }
    forall s, t ensures Score(results, StartsAt(s, t)) <= 1 {
      TotalAtMostOne(chains, starts, s, t);
    }
    ApartFromScores(results);
    forall s, w, t | HoldsWord(hays, s, w, t) && w != [] && Go(m, AtState(m.initial), w) == Some(Tip)
      ensures Found(results, s + |w| - 1, t)
    {
      MatchReported(hays, m, states, starts, chains, s, w, t);
      ReportedIsFound(chains, starts, results, s + |w| - 1, t);
    }
  }

  lemma {:induction false} ReportedIsFound(chains: seq<Chain>, starts: seq<ChainHalf>, results: seq<SearchResult>,
                                           end: int, t: Time)
    requires ProperChains(chains) && ProperHalves(starts) && Reported(chains, starts, end, t)
    requires forall g :: Score(results, g) == Total(chains, starts, Scored(g))
    ensures Found(results, end, t)
  {
    var r :| Total(chains, starts, Scored(Is(r))) > 0 && Ends(r, end, t);
    ScoreIsCount(results, r);
    assert Score(results, Is(r)) > 0;
    assert r in multiset(results);
  }
}
