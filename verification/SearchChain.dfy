/** Stitching partial matches across leaves: ordered chains, and tasks that fork along them. */
module SearchChain {
  import opened Ranges
  import opened Automata
  import opened SearchLeaf
  import opened Sums
  import P = Partition

  // ---- keys ----

  datatype ChainKey = ChainKey(state: State, addrStart: Addr, timeStart: Time)

  function Key(c: Chain): ChainKey {
    ChainKey(c.from, c.half.addrs.min, c.half.times.min)
  }

  /** By state and start address, then by start time. */
  predicate Less(a: ChainKey, b: ChainKey) {
    a.state < b.state || (a.state == b.state && (a.addrStart < b.addrStart
    || (a.addrStart == b.addrStart && a.timeStart < b.timeStart)))
  }

  function Rank(k: ChainKey): nat {
    (k.state * 0x1_0000_0000_0000_0000 + k.addrStart as nat) * 0x1_0000_0000 + k.timeStart as nat
  }

  function ChainRank(c: Chain): nat {
    Rank(Key(c))
  }

  lemma {:induction false} RankIsOrder(a: ChainKey, b: ChainKey)
    ensures Less(a, b) <==> Rank(a) < Rank(b)
  {
  }

  ghost predicate StrictlySorted(chains: seq<Chain>) {
    forall i, j :: 0 <= i < j < |chains| ==> Less(Key(chains[i]), Key(chains[j]))
  }

  ghost predicate UniqueKeys(chains: seq<Chain>) {
    forall i, j :: 0 <= i < j < |chains| ==> Key(chains[i]) != Key(chains[j])
  }

  lemma {:induction false} UniqueCount(chains: seq<Chain>, c: Chain)
    requires UniqueKeys(chains)
    ensures multiset(chains)[c] <= 1
  {
    if chains != [] {
      var rest := chains[..|chains| - 1];
      assert chains == rest + [chains[|chains| - 1]];
      UniqueCount(rest, c);
      assert forall i :: 0 <= i < |rest| ==> rest[i] == chains[i] && Key(rest[i]) != Key(chains[|chains| - 1]);
    }
  }

  lemma {:induction false} SortedIsStrict(chains: seq<Chain>, sorted: seq<Chain>)
    requires UniqueKeys(chains) && P.SortedBy(sorted, ChainRank) && multiset(sorted) == multiset(chains)
    ensures StrictlySorted(sorted)
  {
    forall i, j | 0 <= i < j < |sorted| ensures Less(Key(sorted[i]), Key(sorted[j])) {
      RankIsOrder(Key(sorted[i]), Key(sorted[j]));
      RankIsOrder(Key(sorted[j]), Key(sorted[i]));
      if Key(sorted[i]) == Key(sorted[j]) {
        SameKeySame(chains, sorted, i, j);
      }
    }
  }

  lemma {:induction false} SameKeySame(chains: seq<Chain>, sorted: seq<Chain>, i: nat, j: nat)
    requires UniqueKeys(chains) && multiset(sorted) == multiset(chains) && i < j < |sorted|
    ensures Key(sorted[i]) != Key(sorted[j])
  {
    if Key(sorted[i]) == Key(sorted[j]) {
      assert sorted[i] in multiset(chains) && sorted[j] in multiset(chains);
      var a :| 0 <= a < |chains| && chains[a] == sorted[i];
      var b :| 0 <= b < |chains| && chains[b] == sorted[j];
      assert a == b;
      P.TwicePresent(sorted, i, j);
      UniqueCount(chains, sorted[i]);
    }
  }

  method SortChains(chains: seq<Chain>) returns (sorted: seq<Chain>)
    requires UniqueKeys(chains)
    ensures StrictlySorted(sorted) && forall c :: c in sorted <==> c in chains
  {
    sorted := P.SortByKey(chains, ChainRank);
    P.SortByKeyIs(chains, ChainRank);
    SortedIsStrict(chains, sorted);
    forall c ensures c in sorted <==> c in chains {
      assert c in sorted <==> c in multiset(sorted);
      assert c in chains <==> c in multiset(chains);
    }
  }

  // ---- finding the chains of one state and start address ----

  /** Binary search: the index of the key, or of the first greater one. */
  method Locate(chains: seq<Chain>, key: ChainKey) returns (found: bool, idx: nat)
    requires StrictlySorted(chains)
    ensures idx <= |chains| && (found ==> idx < |chains| && Key(chains[idx]) == key)
    ensures forall i :: 0 <= i < idx ==> Less(Key(chains[i]), key)
    ensures forall i :: idx <= i < |chains| && !(found && i == idx) ==> Less(key, Key(chains[i]))
  {
    var lo, hi := 0, |chains|;
    while lo < hi
      invariant 0 <= lo <= hi <= |chains|
      invariant forall i :: 0 <= i < lo ==> Less(Key(chains[i]), key)
      invariant forall i :: hi <= i < |chains| ==> Less(key, Key(chains[i]))
    {
      var mid := (lo + hi) / 2;
      if Less(Key(chains[mid]), key) {
        lo := mid + 1;
      } else if Less(key, Key(chains[mid])) {
        hi := mid;
      } else {
        return true, mid;
      }
    }
    return false, lo;
  }

  predicate Wanted(c: Chain, state: State, addrStart: Addr) {
    c.from == state && c.half.addrs.min == addrStart
  }

  lemma {:induction false} SortedTail(chains: seq<Chain>, lo: nat)
    requires StrictlySorted(chains) && lo <= |chains|
    ensures StrictlySorted(chains[lo..])
  {
  }

  /** Two binary searches delimit exactly the chains with the wanted state and start address. */
  method FindChains(chains: seq<Chain>, state: State, addrStart: Addr) returns (lo: nat, hi: nat)
    requires StrictlySorted(chains)
    ensures lo <= hi <= |chains|
    ensures forall i :: 0 <= i < |chains| ==> (lo <= i < hi <==> Wanted(chains[i], state, addrStart))
  {
    var found, start := Locate(chains, ChainKey(state, addrStart, 0));
    SortedTail(chains, start);
    var rest := chains[start..];
    var foundEnd, end := Locate(rest, ChainKey(state, addrStart, TIME_MAX));
    lo := start;
    hi := if foundEnd then start + end + 1 else start + end;
    forall i | 0 <= i < |chains| ensures lo <= i < hi <==> Wanted(chains[i], state, addrStart) {
      if i >= start {
        assert chains[i] == rest[i - start];
      }
    }
  }

  // ---- connecting ----

  ghost predicate Proper(h: ChainHalf) {
    h.addrs.Valid() && h.times.Valid() && (h.to.AtState? ==> h.addrs.max < ADDR_MAX)
  }

  ghost predicate ProperChains(chains: seq<Chain>) {
    forall i :: 0 <= i < |chains| ==> Proper(chains[i].half)
  }

  ghost predicate ProperHalves(hs: seq<ChainHalf>) {
    forall i :: 0 <= i < |hs| ==> Proper(hs[i])
  }

  /** Both stretches one after the other, at their common times. */
  function Connect(a: ChainHalf, b: ChainHalf): (r: Option<ChainHalf>)
    requires a.times.Valid() && b.times.Valid()
    ensures r.Some? <==> exists t :: a.times.Contains(t) && b.times.Contains(t)
    ensures r.Some? ==> forall t :: r.value.times.Contains(t) <==> a.times.Contains(t) && b.times.Contains(t)
  {
    match a.times.Intersection(b.times)
    case None => None
    case Some(times) => Some(ChainHalf(b.to, AddrRange(a.addrs.min, b.addrs.max), times))
  }

  /** The stretch that goes on over `c`, if `c` starts where `h` ended. */
  function Extension(h: ChainHalf, c: Chain): (r: Option<ChainHalf>)
    requires Proper(h) && Proper(c.half)
    ensures r.Some? ==> Proper(r.value) && r.value.addrs.max > h.addrs.max && r.value.addrs.min == h.addrs.min
  {
    if h.to.AtState? && Wanted(c, h.to.state, h.addrs.max + 1) then Connect(h, c.half) else None
  }

  // ---- what one task and all its forks report ----

  datatype SearchResult = SearchResult(addrMin: Addr, addrMax: Addr, timeMin: Time, timeMax: Time)

  function ResultOf(h: ChainHalf): SearchResult {
    SearchResult(h.addrs.min, h.addrs.max, h.times.min, h.times.max)
  }

  /** Adds up `f` over a task, the tasks it goes on as, and the tasks it spawns. */
  ghost function Tally(chains: seq<Chain>, h: ChainHalf, f: ChainHalf -> nat): nat
    requires ProperChains(chains) && Proper(h)
    decreases ADDR_MAX - h.addrs.max, |chains| + 1
  {
    if h.to.Tip? then f(h) else f(h) + TallyUpTo(chains, h, |chains|, f)
  }

  ghost function TallyUpTo(chains: seq<Chain>, h: ChainHalf, n: nat, f: ChainHalf -> nat): nat
    requires ProperChains(chains) && Proper(h) && n <= |chains|
    decreases ADDR_MAX - h.addrs.max, n
  {
    if n == 0 then 0
    else
      TallyUpTo(chains, h, n - 1, f)
      + match Extension(h, chains[n - 1])
        case None => 0
        case Some(g) => Tally(chains, g, f)
  }

  ghost function ScoreOf(g: SearchResult -> nat, h: ChainHalf): nat {
    if h.to.Tip? then g(ResultOf(h)) else 0
  }

  /** Scores the reported results. */
  ghost function Scored(g: SearchResult -> nat): ChainHalf -> nat {
    (h: ChainHalf) => ScoreOf(g, h)
  }

  ghost function Score(results: seq<SearchResult>, g: SearchResult -> nat): nat {
    if results == [] then 0 else Score(results[..|results| - 1], g) + g(results[|results| - 1])
  }

  /** Scores one result. */
  ghost function Is(r: SearchResult): SearchResult -> nat {
    (s: SearchResult) => if s == r then 1 else 0
  }

  lemma {:induction false} ScoreIsCount(results: seq<SearchResult>, r: SearchResult)
    ensures Score(results, Is(r)) == multiset(results)[r]
  {
    if results != [] {
      ScoreIsCount(results[..|results| - 1], r);
      assert results == results[..|results| - 1] + [results[|results| - 1]];
    }
  }

  /** Counts steps. */
  ghost function EachOne(): ChainHalf -> nat {
    (h: ChainHalf) => 1
  }

  // ---- sums over the live tasks ----

  ghost function Tallies(chains: seq<Chain>, hs: seq<ChainHalf>, f: ChainHalf -> nat): (ws: seq<nat>)
    requires ProperChains(chains) && ProperHalves(hs)
    ensures |ws| == |hs| && forall i :: 0 <= i < |hs| ==> ws[i] == Tally(chains, hs[i], f)
  {
    seq(|hs|, i requires 0 <= i < |hs| => Tally(chains, hs[i], f))
  }

  ghost function Total(chains: seq<Chain>, hs: seq<ChainHalf>, f: ChainHalf -> nat): nat
    requires ProperChains(chains) && ProperHalves(hs)
  {
    Sum(Tallies(chains, hs, f))
  }

  lemma {:induction false} TotalConcat(chains: seq<Chain>, a: seq<ChainHalf>, b: seq<ChainHalf>, f: ChainHalf -> nat)
    requires ProperChains(chains) && ProperHalves(a) && ProperHalves(b)
    ensures ProperHalves(a + b) && Total(chains, a + b, f) == Total(chains, a, f) + Total(chains, b, f)
  {
    assert Tallies(chains, a + b, f) == Tallies(chains, a, f) + Tallies(chains, b, f);
    SumConcat(Tallies(chains, a, f), Tallies(chains, b, f));
  }

  lemma {:induction false} TotalOne(chains: seq<Chain>, h: ChainHalf, f: ChainHalf -> nat)
    requires ProperChains(chains) && Proper(h)
    ensures Total(chains, [h], f) == Tally(chains, h, f)
  {
    var ws := Tallies(chains, [h], f);
    assert ws[..0] == [] && Sum(ws[..0]) == 0;
  }

  /** One task among the others. */
  lemma {:induction false} TotalPick(chains: seq<Chain>, hs: seq<ChainHalf>, i: nat, f: ChainHalf -> nat)
    requires ProperChains(chains) && ProperHalves(hs) && i < |hs|
    ensures ProperHalves(hs[..i] + hs[i + 1..])
    ensures Total(chains, hs, f) == Total(chains, hs[..i] + hs[i + 1..], f) + Tally(chains, hs[i], f)
  {
    var a, b := hs[..i], hs[i + 1..];
    assert hs == a + [hs[i]] + b;
    TotalConcat(chains, a, [hs[i]], f);
    TotalConcat(chains, a + [hs[i]], b, f);
    TotalConcat(chains, a, b, f);
    TotalOne(chains, hs[i], f);
  }

  /** The stretches that go on over the first `n` chains. */
  ghost function Extensions(chains: seq<Chain>, h: ChainHalf, n: nat): seq<ChainHalf>
    requires ProperChains(chains) && Proper(h) && n <= |chains|
  {
    if n == 0 then []
    else Extensions(chains, h, n - 1) + match Extension(h, chains[n - 1]) case None => [] case Some(g) => [g]
  }

  lemma {:induction false} ExtensionsProper(chains: seq<Chain>, h: ChainHalf, n: nat)
    requires ProperChains(chains) && Proper(h) && n <= |chains|
    ensures ProperHalves(Extensions(chains, h, n))
  {
    if n > 0 {
      ExtensionsProper(chains, h, n - 1);
    }
  }

  lemma {:induction false} ExtensionsTally(chains: seq<Chain>, h: ChainHalf, n: nat, f: ChainHalf -> nat)
    requires ProperChains(chains) && Proper(h) && n <= |chains|
    requires ProperHalves(Extensions(chains, h, n))
    ensures Total(chains, Extensions(chains, h, n), f) == TallyUpTo(chains, h, n, f)
  {
    if n > 0 {
      var before := Extensions(chains, h, n - 1);
      ExtensionsProper(chains, h, n - 1);
      ExtensionsTally(chains, h, n - 1, f);
      var g := Extension(h, chains[n - 1]);
      if g.Some? {
        TotalConcat(chains, before, [g.value], f);
        TotalOne(chains, g.value, f);
      } else {
        assert before + [] == before;
      }
    }
  }

  /** Chains that do not fit add nothing. */
  lemma {:induction false} ExtensionsSame(chains: seq<Chain>, h: ChainHalf, m: nat, n: nat)
    requires ProperChains(chains) && Proper(h) && m <= n <= |chains|
    requires forall i :: m <= i < n ==> Extension(h, chains[i]).None?
    ensures Extensions(chains, h, n) == Extensions(chains, h, m)
  {
    if m < n {
      ExtensionsSame(chains, h, m, n - 1);
      assert Extension(h, chains[n - 1]).None?;
    }
  }

  lemma {:induction false} ExtensionsStep(chains: seq<Chain>, h: ChainHalf, i: nat, next: Option<ChainHalf>)
    requires ProperChains(chains) && Proper(h) && i < |chains| && h.to.AtState?
    requires Wanted(chains[i], h.to.state, h.addrs.max + 1) && next == Connect(h, chains[i].half)
    ensures Extensions(chains, h, i + 1) == Extensions(chains, h, i) + if next.Some? then [next.value] else []
  {
  }

  lemma {:induction false} Unwanted(chains: seq<Chain>, h: ChainHalf, lo: nat, hi: nat)
    requires ProperChains(chains) && Proper(h) && h.to.AtState? && lo <= hi <= |chains|
    requires forall i :: 0 <= i < |chains| ==> (lo <= i < hi <==> Wanted(chains[i], h.to.state, h.addrs.max + 1))
    ensures Extensions(chains, h, lo) == [] && Extensions(chains, h, |chains|) == Extensions(chains, h, hi)
  {
    ExtensionsSame(chains, h, 0, lo);
    ExtensionsSame(chains, h, hi, |chains|);
  }

  // ---- running the tasks ----

  /** The continuations over the chains from `lo` to `hi`. */
  method ContinueOver(chains: seq<Chain>, half: ChainHalf, lo: nat, hi: nat) returns (nexts: seq<ChainHalf>)
    requires ProperChains(chains) && Proper(half) && half.to.AtState? && lo <= hi <= |chains|
    requires Extensions(chains, half, lo) == []
    requires forall i :: lo <= i < hi ==> Wanted(chains[i], half.to.state, half.addrs.max + 1)
    ensures nexts == Extensions(chains, half, hi)
  {
    nexts := [];
    var i := lo;
    while i < hi
      invariant lo <= i <= hi && nexts == Extensions(chains, half, i)
    {
      var next := Connect(half, chains[i].half);
      ExtensionsStep(chains, half, i, next);
      nexts := if next.Some? then nexts + [next.value] else nexts;
      i := i + 1;
    }
  }

  /** The continuations of a stretch that stands at a state. */
  method Continue(chains: seq<Chain>, half: ChainHalf) returns (nexts: seq<ChainHalf>)
    requires StrictlySorted(chains) && ProperChains(chains) && Proper(half) && half.to.AtState?
    ensures nexts == Extensions(chains, half, |chains|)
  {
    var lo, hi := FindChains(chains, half.to.state, half.addrs.max + 1);
    Unwanted(chains, half, lo, hi);
    nexts := ContinueOver(chains, half, lo, hi);
  }

  lemma {:induction false} ForkStep(chains: seq<Chain>, pending: seq<ChainHalf>, i: nat, nexts: seq<ChainHalf>,
                                    f: ChainHalf -> nat)
    requires ProperChains(chains) && ProperHalves(pending) && i < |pending| && pending[i].to.AtState?
    requires nexts == Extensions(chains, pending[i], |chains|)
    ensures ProperHalves(pending[..i] + pending[i + 1..] + nexts)
    ensures Total(chains, pending, f) == Total(chains, pending[..i] + pending[i + 1..] + nexts, f) + f(pending[i])
  {
    var h := pending[i];
    ExtensionsProper(chains, h, |chains|);
    ExtensionsTally(chains, h, |chains|, f);
    TotalPick(chains, pending, i, f);
    TotalConcat(chains, pending[..i] + pending[i + 1..], nexts, f);
    assert Tally(chains, h, f) == f(h) + TallyUpTo(chains, h, |chains|, f);
  }

  /** One step of one task: report, or go on with the first continuation and spawn a task for each other one. */
  method TaskStep(chains: seq<Chain>, pending: seq<ChainHalf>, i: nat)
    returns (pending': seq<ChainHalf>, out: seq<SearchResult>)
    requires StrictlySorted(chains) && ProperChains(chains) && ProperHalves(pending) && i < |pending|
    ensures ProperHalves(pending')
    ensures forall f :: Total(chains, pending, f) == Total(chains, pending', f) + f(pending[i])
    ensures out == if pending[i].to.Tip? then [ResultOf(pending[i])] else []
  {
    var half := pending[i];
    var others := pending[..i] + pending[i + 1..];
    if half.to.Tip? {
      TotalPick(chains, pending, i, EachOne());
      forall f ensures Total(chains, pending, f) == Total(chains, others, f) + f(half) {
        TotalPick(chains, pending, i, f);
      }
      pending', out := others, [ResultOf(half)];
    } else {
      var nexts := Continue(chains, half);
      ForkStep(chains, pending, i, nexts, EachOne());
      forall f ensures Total(chains, pending, f) == Total(chains, others + nexts, f) + f(half) {
        ForkStep(chains, pending, i, nexts, f);
      }
      pending', out := others + nexts, [];
    }
  }

  lemma {:induction false} ScoreStep(chains: seq<Chain>, before: seq<ChainHalf>, i: nat, after: seq<ChainHalf>,
                                     results: seq<SearchResult>, out: seq<SearchResult>, g: SearchResult -> nat)
    requires ProperChains(chains) && ProperHalves(before) && ProperHalves(after) && i < |before|
    requires Total(chains, before, Scored(g)) == Total(chains, after, Scored(g)) + Scored(g)(before[i])
    requires out == if before[i].to.Tip? then [ResultOf(before[i])] else []
    ensures Score(results + out, g) + Total(chains, after, Scored(g))
            == Score(results, g) + Total(chains, before, Scored(g))
  {
    if before[i].to.Tip? {
      assert (results + out)[..|results|] == results;
    } else {
      assert results + out == results;
    }
  }

  /** The tasks of a scope, run step by step in any interleaving: what is reported, and how often, is always
      the same. */
  method RunTasks(chains: seq<Chain>, starts: seq<ChainHalf>) returns (results: seq<SearchResult>)
    requires StrictlySorted(chains) && ProperChains(chains) && ProperHalves(starts)
    ensures forall g :: Score(results, g) == Total(chains, starts, Scored(g))
    ensures forall r :: multiset(results)[r] == Total(chains, starts, Scored(Is(r)))
  {
    results := [];
    var pending := starts;
    while pending != []
      invariant ProperHalves(pending)
      invariant forall g :: Score(results, g) + Total(chains, pending, Scored(g)) == Total(chains, starts, Scored(g))
      decreases Total(chains, pending, EachOne())
    {
      var i: nat :| i < |pending|;
      ghost var before := pending;
      var out;
      pending, out := TaskStep(chains, pending, i);
      forall g
        ensures Score(results + out, g) + Total(chains, pending, Scored(g))
                == Score(results, g) + Total(chains, before, Scored(g))
      {
        ScoreStep(chains, before, i, pending, results, out, g);
      }
      assert EachOne()(before[i]) == 1;
      results := results + out;
    }
    forall r ensures multiset(results)[r] == Total(chains, starts, Scored(Is(r))) {
      ScoreIsCount(results, r);
    }
  }
}
