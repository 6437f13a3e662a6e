/** Subset construction with epsilon closure. */
module Determine {
  import opened Ranges
  import opened Automata

  /** A set of automaton states; the program keeps it as a sorted list. */
  type MultiState = set<State>

  ghost function StatesOf(ls: set<NfaLink>): set<State> {
    (set l | l in ls :: l.from) + (set l | l in ls :: l.to)
  }

  /** The states reached from some state of `from` by reading `w`. */
  ghost function AfterFrom(ls: set<NfaLink>, from: MultiState, w: seq<Byte>): MultiState {
    set q | q in from + StatesOf(ls) && exists p :: p in from && Reach(ls, p, w, q)
  }

  ghost function After(nfa: Nfa, w: seq<Byte>): MultiState {
    AfterFrom(LinkSet(nfa.links), nfa.initial, w)
  }

  lemma {:induction false} RunEnds(ls: set<NfaLink>, run: seq<NfaLink>, p: State, q: State)
    requires IsRun(ls, run, p, q)
    ensures q == p || q in StatesOf(ls)
  {
    if run != [] {
      RunEnds(ls, run[1..], run[0].to, q);
    }
  }

  /** `AfterFrom` is exactly reachability. */
  lemma {:induction false} AfterFromIs(ls: set<NfaLink>, from: MultiState, w: seq<Byte>, q: State)
    ensures q in AfterFrom(ls, from, w) <==> exists p :: p in from && Reach(ls, p, w, q)
  {
    if p :| p in from && Reach(ls, p, w, q) {
      var run: seq<NfaLink> :| IsRun(ls, run, p, q) && Word(run) == w;
      RunEnds(ls, run, p, q);
    }
  }

  ghost function Closure(ls: set<NfaLink>, from: MultiState): MultiState {
    AfterFrom(ls, from, [])
  }

  /** The states one symbol away. */
  ghost function Move(ls: set<NfaLink>, from: MultiState, c: Byte): MultiState {
    set l | l in ls && l.from in from && l.symbol == Symbol(c) :: l.to
  }

  ghost function Next(ls: set<NfaLink>, from: MultiState, c: Byte): MultiState {
    Closure(ls, Move(ls, from, c))
  }

  // ---- reading one more symbol ----

  /** The last symbol of a run's word is read by one link, followed by epsilons. */
  lemma {:induction false} LastSymbol(ls: set<NfaLink>, run: seq<NfaLink>, p: State, q: State, w: seq<Byte>, c: Byte)
    returns (k: nat)
    requires IsRun(ls, run, p, q) && Word(run) == w + [c]
    ensures k < |run| && run[k].symbol == Symbol(c) && run[k] in ls
    ensures IsRun(ls, run[..k], p, run[k].from) && Word(run[..k]) == w
    ensures IsRun(ls, run[k + 1..], run[k].to, q) && Word(run[k + 1..]) == []
  {
    var rest := run[1..];
    if Word(rest) == [] {
      k := 0;
      assert run[0].symbol == Symbol(c) && w == [] by {
        assert |SymbolWord(run[0].symbol)| == |w| + 1;
        assert (w + [c])[|w|] == c;
      }
      assert run[..0] == [];
    } else {
      var head := SymbolWord(run[0].symbol);
      var u := Word(rest)[..|Word(rest)| - 1];
      assert (head + Word(rest))[|w|] == c;
      assert Word(rest) == u + [c];
      assert head + u == w by {
        assert (head + Word(rest))[..|w|] == head + u;
        assert (w + [c])[..|w|] == w;
      }
      var i := LastSymbol(ls, rest, run[0].to, q, u, c);
      k := i + 1;
      assert rest[i] == run[k] && run[..k][1..] == rest[..i] && rest[i + 1..] == run[k + 1..];
    }
  }

  /** Reading one more symbol is a move followed by a closure. */
  lemma {:induction false} AfterStep(ls: set<NfaLink>, from: MultiState, w: seq<Byte>, c: Byte)
    ensures AfterFrom(ls, from, w + [c]) == Next(ls, AfterFrom(ls, from, w), c)
  {
    var s := AfterFrom(ls, from, w);
    forall q ensures q in AfterFrom(ls, from, w + [c]) <==> q in Next(ls, s, c) {
      AfterFromIs(ls, from, w + [c], q);
      AfterFromIs(ls, Move(ls, s, c), [], q);
      if p :| p in from && Reach(ls, p, w + [c], q) {
        StepForth(ls, from, w, c, p, q);
      }
      if r :| r in Move(ls, s, c) && Reach(ls, r, [], q) {
        StepBack(ls, from, w, c, r, q);
      }
    }
  }

  lemma {:induction false} StepForth(ls: set<NfaLink>, from: MultiState, w: seq<Byte>, c: Byte, p: State, q: State)
    requires p in from && Reach(ls, p, w + [c], q)
    ensures exists r :: r in Move(ls, AfterFrom(ls, from, w), c) && Reach(ls, r, [], q)
  {
    var run: seq<NfaLink> :| IsRun(ls, run, p, q) && Word(run) == w + [c];
    var k := LastSymbol(ls, run, p, q, w, c);
    assert Reach(ls, p, w, run[k].from);
    AfterFromIs(ls, from, w, run[k].from);
    assert run[k].to in Move(ls, AfterFrom(ls, from, w), c);
    assert Reach(ls, run[k].to, [], q);
  }

  lemma {:induction false} StepBack(ls: set<NfaLink>, from: MultiState, w: seq<Byte>, c: Byte, r: State, q: State)
    requires r in Move(ls, AfterFrom(ls, from, w), c) && Reach(ls, r, [], q)
    ensures exists p :: p in from && Reach(ls, p, w + [c], q)
  {
    var l :| l in ls && l.from in AfterFrom(ls, from, w) && l.symbol == Symbol(c) && l.to == r;
    AfterFromIs(ls, from, w, l.from);
    var p :| p in from && Reach(ls, p, w, l.from);
    ReachLink(ls, l);
    ReachConcat(ls, p, w, l.from, [c], r);
    ReachConcat(ls, p, w + [c], r, [], q);
    assert w + [c] + [] == w + [c];
  }

  // ---- epsilon closure by worklist ----

  ghost predicate ClosedUnderEpsilon(ls: set<NfaLink>, s: set<State>, pending: set<State>) {
    forall l :: l in ls && l.from in s && l.symbol == Epsilon ==> l.to in s || l.to in pending
  }

  lemma {:induction false} EpsilonStays(ls: set<NfaLink>, s: set<State>, run: seq<NfaLink>, p: State, q: State)
    requires ClosedUnderEpsilon(ls, s, {}) && p in s && IsRun(ls, run, p, q) && Word(run) == []
    ensures q in s
  {
    if run != [] {
      assert SymbolWord(run[0].symbol) == [] && Word(run[1..]) == [];
      EpsilonStays(ls, s, run[1..], run[0].to, q);
    }
  }

  lemma {:induction false} ClosureIs(ls: set<NfaLink>, from: MultiState, s: set<State>)
    requires Exploring(ls, from, s, {})
    ensures s == Closure(ls, from)
  {
    forall q | q in Closure(ls, from) ensures q in s {
      var p :| p in from && Reach(ls, p, [], q);
      var run: seq<NfaLink> :| IsRun(ls, run, p, q) && Word(run) == [];
      EpsilonStays(ls, s, run, p, q);
    }
  }

  lemma {:induction false} ClosureStep(ls: set<NfaLink>, from: MultiState, l: NfaLink)
    requires l in ls && l.from in Closure(ls, from) && l.symbol == Epsilon
    ensures l.to in Closure(ls, from)
  {
    AfterFromIs(ls, from, [], l.from);
    var p :| p in from && Reach(ls, p, [], l.from);
    ReachLink(ls, l);
    ReachConcat(ls, p, [], l.from, [], l.to);
    AfterFromIs(ls, from, [], l.to);
  }

  lemma {:induction false} ClosureHasStart(ls: set<NfaLink>, from: MultiState)
    ensures from <= Closure(ls, from)
  {
    forall p | p in from ensures p in Closure(ls, from) {
      ReachSelf(ls, p);
      AfterFromIs(ls, from, [], p);
    }
  }

  ghost function ToSet(s: seq<State>): set<State> {
    set x | x in s
  }

  /** The epsilon successors of one state. */
  method EpsilonSuccessors(nfa: Nfa, state: State) returns (out: seq<State>)
    ensures forall q :: q in out <==> exists l :: l in nfa.links && l.from == state && l.symbol == Epsilon && l.to == q
  {
    out := [];
    var i := 0;
    while i < |nfa.links|
      invariant 0 <= i <= |nfa.links|
      invariant forall q :: q in out <==>
                  exists k :: 0 <= k < i && nfa.links[k].from == state
                              && nfa.links[k].symbol == Epsilon && nfa.links[k].to == q
    {
      var l := nfa.links[i];
      if l.from == state && l.symbol == Epsilon {
        out := out + [l.to];
      }
      i := i + 1;
    }
  }

  /** What the worklist knows: everything found lies in the closure, and nothing reachable is forgotten. */
  ghost predicate Exploring(ls: set<NfaLink>, from: MultiState, explored: set<State>, pending: set<State>) {
    && (forall q :: q in from ==> q in explored || q in pending)
    && (forall q :: q in explored || q in pending ==> q in Closure(ls, from))
    && ClosedUnderEpsilon(ls, explored, pending)
  }

  lemma {:induction false} ExploreOne(ls: set<NfaLink>, from: MultiState, explored: set<State>, pending: set<State>,
                                      state: State, found: set<State>)
    requires Exploring(ls, from, explored, pending + {state}) && state !in explored
    requires forall q :: q in found <==> exists l :: l in ls && l.from == state && l.symbol == Epsilon && l.to == q
    ensures Exploring(ls, from, explored + {state}, pending + found)
  {
    assert state in Closure(ls, from);
    forall q | q in found ensures q in Closure(ls, from) {
      var l :| l in ls && l.from == state && l.symbol == Epsilon && l.to == q;
      ClosureStep(ls, from, l);
    }
  }

  /** Explores a batch of states, collecting their epsilon successors for the next one. */
  method ExploreBatch(nfa: Nfa, ghost from: MultiState, explored: MultiState, batch: seq<State>)
    returns (after: MultiState, toExplore: seq<State>)
    requires Exploring(LinkSet(nfa.links), from, explored, ToSet(batch))
    ensures Exploring(LinkSet(nfa.links), from, after, ToSet(toExplore))
    ensures explored <= after && (after == explored ==> toExplore == [])
  {
    after, toExplore := explored, [];
    var i := 0;
    while i < |batch|
      invariant 0 <= i <= |batch| && explored <= after && (after == explored ==> toExplore == [])
      invariant Exploring(LinkSet(nfa.links), from, after, ToSet(toExplore) + ToSet(batch[i..]))
    {
      var state := batch[i];
      BatchHead(batch, i);
      if state !in after {
        var found := EpsilonSuccessors(nfa, state);
        ExploreOne(LinkSet(nfa.links), from, after, ToSet(toExplore) + ToSet(batch[i + 1..]), state, ToSet(found));
        after := after + {state};
        ToSetConcat(toExplore, found);
        toExplore := toExplore + found;
      } else {
        ExploreNone(LinkSet(nfa.links), from, after, ToSet(toExplore) + ToSet(batch[i + 1..]), state);
      }
      i := i + 1;
    }
    assert ToSet(batch[i..]) == {};
  }

  lemma {:induction false} BatchHead(batch: seq<State>, i: nat)
    requires i < |batch|
    ensures ToSet(batch[i..]) == ToSet(batch[i + 1..]) + {batch[i]}
  {
    assert batch[i..] == [batch[i]] + batch[i + 1..];
  }

  lemma {:induction false} ToSetConcat(a: seq<State>, b: seq<State>)
    ensures ToSet(a + b) == ToSet(a) + ToSet(b)
  {
  }

  lemma {:induction false} ExploreNone(ls: set<NfaLink>, from: MultiState, explored: set<State>, pending: set<State>,
                                       state: State)
    requires Exploring(ls, from, explored, pending + {state}) && state in explored
    ensures Exploring(ls, from, explored, pending)
  {
  }

  lemma {:induction false} Shrinks(ls: set<NfaLink>, from: MultiState, before: set<State>, after: set<State>)
    requires before <= after <= Closure(ls, from)
    ensures before != after ==> Closure(ls, from) - after < Closure(ls, from) - before
  {
    if before != after {
      var q :| q in after && q !in before;
      assert q in Closure(ls, from) - before;
    }
  }

  /** Follows epsilon links until nothing new turns up: the result is the epsilon closure. */
  method NormalizeMultiState(nfa: Nfa, from: seq<State>) returns (result: MultiState)
    ensures result == Closure(LinkSet(nfa.links), ToSet(from))
  {
    ghost var ls, start := LinkSet(nfa.links), ToSet(from);
    ClosureHasStart(ls, start);
    var toExplore := from;
    result := {};
    while toExplore != []
      invariant Exploring(ls, start, result, ToSet(toExplore))
      decreases Closure(ls, start) - result, |toExplore|
    {
      ghost var before := result;
      result, toExplore := ExploreBatch(nfa, start, result, toExplore);
      Shrinks(ls, start, before, result);
    }
    assert ToSet(toExplore) == {};
    ClosureIs(ls, start, result);
  }

  // ---- subset construction ----

  /** A multi-state some word leads to; only the start can be empty. */
  ghost predicate Reached(nfa: Nfa, s: MultiState) {
    (exists w :: s == After(nfa, w)) && (s == {} ==> s == After(nfa, []))
  }

  lemma {:induction false} ReachedNext(nfa: Nfa, s: MultiState, c: Byte)
    requires Reached(nfa, s) && Move(LinkSet(nfa.links), s, c) != {}
    ensures Reached(nfa, Next(LinkSet(nfa.links), s, c)) && Next(LinkSet(nfa.links), s, c) != {}
  {
    var ls := LinkSet(nfa.links);
    var w :| s == After(nfa, w);
    AfterStep(ls, nfa.initial, w, c);
    assert Next(ls, s, c) == After(nfa, w + [c]);
    ClosureHasStart(ls, Move(ls, s, c));
  }

  ghost predicate Numbered(m: map<MultiState, State>, counter: State) {
    && (forall s :: s in m ==> 0 < m[s] < counter)
    && (forall s, t :: s in m && t in m && m[s] == m[t] ==> s == t)
  }

  ghost predicate AcceptsOf(nfa: Nfa, m: map<MultiState, State>, accept: set<State>) {
    && (forall q :: q in accept ==> exists s :: s in m && m[s] == q)
    && (forall s :: s in m && m[s] in accept ==> s * nfa.accept != {})
    && (forall s :: s in m && s * nfa.accept != {} ==> m[s] in accept)
  }

  /** The link a move from `s` over `c` becomes. */
  ghost predicate LinkOf(nfa: Nfa, m: map<MultiState, State>, s: MultiState, l: DfaLink) {
    var to := Next(LinkSet(nfa.links), s, l.symbol);
    s in m && Move(LinkSet(nfa.links), s, l.symbol) != {} && to in m && l.from == m[s] && l.to == m[to]
  }

  ghost predicate LinksOf(nfa: Nfa, m: map<MultiState, State>, links: seq<DfaLink>) {
    forall l :: l in links ==> exists s :: LinkOf(nfa, m, s, l)
  }

  /** Over `c`, the link of `s` is there if there is a move. */
  ghost predicate HasLink(nfa: Nfa, m: map<MultiState, State>, links: seq<DfaLink>, s: MultiState, c: Byte)
    requires s in m
  {
    var to := Next(LinkSet(nfa.links), s, c);
    Move(LinkSet(nfa.links), s, c) != {} ==> to in m && Link(m[s], m[to], c) in links
  }

  ghost predicate Processed(nfa: Nfa, m: map<MultiState, State>, links: seq<DfaLink>, s: MultiState)
    requires s in m
  {
    forall c :: HasLink(nfa, m, links, s, c)
  }

  ghost predicate Partial(nfa: Nfa, m: map<MultiState, State>, counter: State, accept: set<State>,
                          links: seq<DfaLink>) {
    && Numbered(m, counter) && AcceptsOf(nfa, m, accept) && LinksOf(nfa, m, links)
    && forall s :: s in m ==> Reached(nfa, s)
  }

  /** The deterministic automaton is the subset automaton, its states named by `m`. */
  ghost predicate Determinized(nfa: Nfa, dfa: Dfa, m: map<MultiState, State>) {
    && (exists counter :: Partial(nfa, m, counter, dfa.accept, dfa.links))
    && (forall s :: s in m ==> Processed(nfa, m, dfa.links, s))
    && After(nfa, []) in m && dfa.initial == {m[After(nfa, [])]}
  }

  ghost predicate Extends(m: map<MultiState, State>, more: map<MultiState, State>) {
    forall s :: s in m ==> s in more && more[s] == m[s]
  }

  lemma {:induction false} PartialAdd(nfa: Nfa, m: map<MultiState, State>, counter: State, accept: set<State>,
                                      links: seq<DfaLink>, s: MultiState)
    requires Partial(nfa, m, counter, accept, links) && s !in m && Reached(nfa, s) && counter > 0
    ensures Partial(nfa, m[s := counter], counter + 1,
                    if s * nfa.accept != {} then accept + {counter} else accept, links)
  {
    LinksAdd(nfa, m, counter, links, s);
    AcceptsAdd(nfa, m, counter, accept, s);
    NumberedAdd(m, counter, s);
  }

  lemma {:induction false} NumberedAdd(m: map<MultiState, State>, counter: State, s: MultiState)
    requires Numbered(m, counter) && s !in m && counter > 0
    ensures Numbered(m[s := counter], counter + 1)
  {
  }

  lemma {:induction false} LinksAdd(nfa: Nfa, m: map<MultiState, State>, counter: State, links: seq<DfaLink>,
                                    s: MultiState)
    requires LinksOf(nfa, m, links) && s !in m
    ensures LinksOf(nfa, m[s := counter], links)
  {
    var more := m[s := counter];
    forall l | l in links ensures exists t :: LinkOf(nfa, more, t, l) {
      var t :| LinkOf(nfa, m, t, l);
      assert LinkOf(nfa, more, t, l);
    }
  }

  lemma {:induction false} AcceptsAdd(nfa: Nfa, m: map<MultiState, State>, counter: State, accept: set<State>,
                                      s: MultiState)
    requires Numbered(m, counter) && AcceptsOf(nfa, m, accept) && s !in m
    ensures AcceptsOf(nfa, m[s := counter], if s * nfa.accept != {} then accept + {counter} else accept)
  {
    var more := m[s := counter];
    forall q | q in accept ensures exists t :: t in more && more[t] == q {
      var t :| t in m && m[t] == q;
      assert more[t] == q;
    }
    assert counter !in accept;
    assert more[s] == counter;
  }

  lemma {:induction false} PartialLink(nfa: Nfa, m: map<MultiState, State>, counter: State, accept: set<State>,
                                       links: seq<DfaLink>, s: MultiState, l: DfaLink)
    requires Partial(nfa, m, counter, accept, links) && LinkOf(nfa, m, s, l)
    ensures Partial(nfa, m, counter, accept, links + [l])
  {
    OneMoreLink(nfa, m, links, s, l);
  }

  lemma {:induction false} OneMoreLink(nfa: Nfa, m: map<MultiState, State>, links: seq<DfaLink>, s: MultiState,
                                       l: DfaLink)
    requires LinksOf(nfa, m, links) && LinkOf(nfa, m, s, l)
    ensures LinksOf(nfa, m, links + [l])
  {
  }

  lemma {:induction false} HasLinkGrows(nfa: Nfa, m: map<MultiState, State>, more: map<MultiState, State>,
                                        links: seq<DfaLink>, longer: seq<DfaLink>, s: MultiState, c: Byte)
    requires s in m && HasLink(nfa, m, links, s, c) && Extends(m, more) && links <= longer
    ensures s in more && HasLink(nfa, more, longer, s, c)
  {
  }

  lemma {:induction false} ProcessedGrows(nfa: Nfa, m: map<MultiState, State>, more: map<MultiState, State>,
                                          links: seq<DfaLink>, longer: seq<DfaLink>, s: MultiState)
    requires s in m && Processed(nfa, m, links, s) && Extends(m, more) && links <= longer
    ensures s in more && Processed(nfa, more, longer, s)
  {
    forall c ensures HasLink(nfa, more, longer, s, c) {
      HasLinkGrows(nfa, m, more, links, longer, s, c);
    }
  }

  /** The targets of all symbol links out of a multi-state, by symbol. */
  method SymbolMoves(nfa: Nfa, from: MultiState) returns (bySymbol: map<Byte, seq<State>>)
    ensures forall c :: c in bySymbol <==> Move(LinkSet(nfa.links), from, c) != {}
    ensures forall c :: c in bySymbol ==> ToSet(bySymbol[c]) == Move(LinkSet(nfa.links), from, c)
  {
    bySymbol := map[];
    var i := 0;
    while i < |nfa.links|
      invariant 0 <= i <= |nfa.links|
      invariant forall c :: MovesSoFar(nfa, from, i, bySymbol, c)
    {
      var l := nfa.links[i];
      ghost var before := bySymbol;
      if l.from in from && l.symbol.Symbol? {
        var c := l.symbol.value;
        bySymbol := bySymbol[c := (if c in bySymbol then bySymbol[c] else []) + [l.to]];
      }
      ghost var n := i + 1;
      forall c ensures MovesSoFar(nfa, from, n, bySymbol, c) {
        assert MovesSoFar(nfa, from, i, before, c);
        MoveStep(nfa, from, i, c);
      }
      i := i + 1;
    }
    assert nfa.links[..i] == nfa.links;
    forall c
      ensures c in bySymbol <==> Move(LinkSet(nfa.links), from, c) != {}
      ensures c in bySymbol ==> ToSet(bySymbol[c]) == Move(LinkSet(nfa.links), from, c)
    {
      assert MovesSoFar(nfa, from, i, bySymbol, c);
    }
  }

  ghost predicate MovesSoFar(nfa: Nfa, from: MultiState, i: nat, bySymbol: map<Byte, seq<State>>, c: Byte)
    requires i <= |nfa.links|
  {
    var moves := Move(LinkSet(nfa.links[..i]), from, c);
    if c in bySymbol then moves != {} && ToSet(bySymbol[c]) == moves else moves == {}
  }

  lemma {:induction false} MoveStep(nfa: Nfa, from: MultiState, i: nat, c: Byte)
    requires i < |nfa.links|
    ensures Move(LinkSet(nfa.links[..i + 1]), from, c)
         == Move(LinkSet(nfa.links[..i]), from, c)
            + if nfa.links[i].from in from && nfa.links[i].symbol == Symbol(c) then {nfa.links[i].to} else {}
  {
    assert nfa.links[..i + 1] == nfa.links[..i] + [nfa.links[i]];
  }

  ghost function Subsets(u: set<State>): set<MultiState> {
    set s: MultiState | s <= u
  }

  lemma {:induction false} ReachedIsSubset(nfa: Nfa, s: MultiState)
    requires Reached(nfa, s)
    ensures s in Subsets(nfa.initial + StatesOf(LinkSet(nfa.links)))
  {
  }

  /** The states named so far: the next number, the names, and which names accept. */
  datatype Naming = Naming(counter: State, mapping: map<MultiState, State>, accept: set<State>)

  ghost predicate Named(nfa: Nfa, n: Naming, links: seq<DfaLink>) {
    n.counter > 0 && Partial(nfa, n.mapping, n.counter, n.accept, links)
  }

  /** Names a multi-state unless it has a name already. */
  function Name(nfa: Nfa, n: Naming, s: MultiState): (r: Naming)
    ensures s in r.mapping && r.mapping.Keys == n.mapping.Keys + {s}
    ensures Extends(n.mapping, r.mapping)
  {
    if s in n.mapping then n
    else
      Naming(n.counter + 1, n.mapping[s := n.counter],
             if s * nfa.accept != {} then n.accept + {n.counter} else n.accept)
  }

  lemma {:induction false} NameKeeps(nfa: Nfa, n: Naming, links: seq<DfaLink>, s: MultiState)
    requires Named(nfa, n, links) && Reached(nfa, s)
    ensures Named(nfa, Name(nfa, n, s), links)
  {
    if s !in n.mapping {
      PartialAdd(nfa, n.mapping, n.counter, n.accept, links, s);
    }
  }

  /** Adds the link for one symbol out of `from`, naming its target. */
  method AddLink(nfa: Nfa, from: MultiState, symbol: Byte, targets: seq<State>, n: Naming, links: seq<DfaLink>)
    returns (to: MultiState, isNew: bool, n': Naming, links': seq<DfaLink>)
    requires Named(nfa, n, links) && from in n.mapping
    requires ToSet(targets) == Move(LinkSet(nfa.links), from, symbol) != {}
    ensures Named(nfa, n', links') && Extends(n.mapping, n'.mapping) && links <= links'
    ensures n'.mapping.Keys == n.mapping.Keys + {to}
    ensures HasLink(nfa, n'.mapping, links', from, symbol)
    ensures isNew <==> to !in n.mapping
  {
    to := NormalizeMultiState(nfa, targets);
    ReachedNext(nfa, from, symbol);
    NameKeeps(nfa, n, links, to);
    isNew := to !in n.mapping;
    n' := Name(nfa, n, to);
    var l := Link(n'.mapping[from], n'.mapping[to], symbol);
    PartialLink(nfa, n'.mapping, n'.counter, n'.accept, links, from, l);
    links' := links + [l];
  }

  /** The names and links after adding those of all symbols out of `from` but `symbols`. */
  ghost predicate Expanding(nfa: Nfa, from: MultiState, n0: Naming, links0: seq<DfaLink>, n: Naming,
                            links: seq<DfaLink>, symbols: set<Byte>) {
    && Extends(n0.mapping, n.mapping) && links0 <= links && from in n.mapping
    && forall c :: c !in symbols ==> HasLink(nfa, n.mapping, links, from, c)
  }

  lemma {:induction false} ExpandStep(nfa: Nfa, from: MultiState, n0: Naming, links0: seq<DfaLink>, n1: Naming,
                                      links1: seq<DfaLink>, n: Naming, links: seq<DfaLink>, symbols: set<Byte>,
                                      symbol: Byte)
    requires Expanding(nfa, from, n0, links0, n1, links1, symbols)
    requires Extends(n1.mapping, n.mapping) && links1 <= links && from in n.mapping
    requires HasLink(nfa, n.mapping, links, from, symbol)
    ensures Expanding(nfa, from, n0, links0, n, links, symbols - {symbol})
  {
    forall c | c !in symbols - {symbol} ensures HasLink(nfa, n.mapping, links, from, c) {
      if c != symbol {
        HasLinkGrows(nfa, n1.mapping, n.mapping, links1, links, from, c);
      }
    }
  }

  lemma {:induction false} QueueStep(keys0: set<MultiState>, keys1: set<MultiState>, keys: set<MultiState>,
                                     queue0: set<MultiState>, queue1: set<MultiState>, to: MultiState)
    requires keys0 <= keys1 && keys == keys1 + {to} && queue1 == queue0 + (keys1 - keys0)
    ensures (if to in keys1 then queue1 else queue1 + {to}) == queue0 + (keys - keys0)
  {
  }

  /** Adds all links out of one multi-state; targets not seen before are queued. */
  method Expand(nfa: Nfa, from: MultiState, n0: Naming, links0: seq<DfaLink>, queue0: set<MultiState>)
    returns (n: Naming, links: seq<DfaLink>, queue: set<MultiState>)
    requires Named(nfa, n0, links0) && from in n0.mapping
    ensures Named(nfa, n, links) && Extends(n0.mapping, n.mapping) && links0 <= links
    ensures Processed(nfa, n.mapping, links, from)
    ensures queue == queue0 + (n.mapping.Keys - n0.mapping.Keys)
  {
    var bySymbol := SymbolMoves(nfa, from);
    n, links, queue := n0, links0, queue0;
    var symbols := bySymbol.Keys;
    while symbols != {}
      invariant Named(nfa, n, links) && symbols <= bySymbol.Keys
      invariant Expanding(nfa, from, n0, links0, n, links, symbols)
      invariant queue == queue0 + (n.mapping.Keys - n0.mapping.Keys)
      decreases symbols
    {
      var symbol :| symbol in symbols;
      ghost var n1, links1 := n, links;
      var to, isNew;
      to, isNew, n, links := AddLink(nfa, from, symbol, bySymbol[symbol], n, links);
      ExpandStep(nfa, from, n0, links0, n1, links1, n, links, symbols, symbol);
      QueueStep(n0.mapping.Keys, n1.mapping.Keys, n.mapping.Keys, queue0, queue, to);
      queue := if isNew then queue + {to} else queue;
      symbols := symbols - {symbol};
    }
  }

  /** Everything named but not queued has been expanded. */
  ghost predicate AllExpanded(nfa: Nfa, n: Naming, links: seq<DfaLink>, waiting: set<MultiState>) {
    waiting <= n.mapping.Keys && forall s :: s in n.mapping && s !in waiting ==> Processed(nfa, n.mapping, links, s)
  }

  lemma {:induction false} ExpandedOne(nfa: Nfa, n0: Naming, links0: seq<DfaLink>, n: Naming, links: seq<DfaLink>,
                                       from: MultiState, waiting: set<MultiState>)
    requires AllExpanded(nfa, n0, links0, waiting + {from})
    requires Extends(n0.mapping, n.mapping) && links0 <= links && from in n.mapping
    requires Processed(nfa, n.mapping, links, from)
    ensures AllExpanded(nfa, n, links, waiting + (n.mapping.Keys - n0.mapping.Keys))
  {
    forall s | s in n.mapping && s !in waiting + (n.mapping.Keys - n0.mapping.Keys)
      ensures Processed(nfa, n.mapping, links, s)
    {
      if s != from {
        ProcessedGrows(nfa, n0.mapping, n.mapping, links0, links, s);
      }
    }
  }

  method SetToSeq(s: set<State>) returns (r: seq<State>)
    ensures ToSet(r) == s
  {
    r := [];
    var rest := s;
    while rest != {}
      invariant ToSet(r) + rest == s
      decreases rest
    {
      var x :| x in rest;
      ToSetConcat(r, [x]);
      r := r + [x];
      rest := rest - {x};
    }
  }

  ghost predicate BatchOk(nfa: Nfa, n0: Naming, n: Naming, links: seq<DfaLink>, batch: set<MultiState>,
                          queue: set<MultiState>) {
    && Extends(n0.mapping, n.mapping) && queue == n.mapping.Keys - n0.mapping.Keys
    && AllExpanded(nfa, n, links, batch + queue)
  }

  lemma {:induction false} BatchStep(nfa: Nfa, n0: Naming, n1: Naming, links1: seq<DfaLink>, n: Naming,
                                     links: seq<DfaLink>, batch: set<MultiState>, from: MultiState,
                                     queue1: set<MultiState>, queue: set<MultiState>)
    requires BatchOk(nfa, n0, n1, links1, batch + {from}, queue1)
    requires Extends(n1.mapping, n.mapping) && links1 <= links && from in n.mapping
    requires Processed(nfa, n.mapping, links, from)
    requires queue == queue1 + (n.mapping.Keys - n1.mapping.Keys)
    ensures BatchOk(nfa, n0, n, links, batch, queue)
  {
    assert (batch + {from}) + queue1 == (batch + queue1) + {from};
    ExpandedOne(nfa, n1, links1, n, links, from, batch + queue1);
    assert (batch + queue1) + (n.mapping.Keys - n1.mapping.Keys) == batch + queue;
    ExtendsTrans(n0.mapping, n1.mapping, n.mapping);
  }

  lemma {:induction false} ExtendsTrans(a: map<MultiState, State>, b: map<MultiState, State>, c: map<MultiState, State>)
    requires Extends(a, b) && Extends(b, c)
    ensures Extends(a, c) && (c.Keys - a.Keys) == (b.Keys - a.Keys) + (c.Keys - b.Keys)
  {
    assert forall s :: s in a ==> s in b;
    assert forall s :: s in b ==> s in c;
  }

  /** Expands one multi-state of a batch. */
  method ExpandOne(nfa: Nfa, from: MultiState, ghost n0: Naming, n1: Naming, links1: seq<DfaLink>,
                   queue1: set<MultiState>, ghost batch: set<MultiState>)
    returns (n: Naming, links: seq<DfaLink>, queue: set<MultiState>)
    requires from in batch && Named(nfa, n1, links1) && BatchOk(nfa, n0, n1, links1, batch, queue1)
    ensures Named(nfa, n, links) && BatchOk(nfa, n0, n, links, batch - {from}, queue)
  {
    assert from in batch + queue1 && batch - {from} + {from} == batch;
    n, links, queue := Expand(nfa, from, n1, links1, queue1);
    BatchStep(nfa, n0, n1, links1, n, links, batch - {from}, from, queue1, queue);
  }

  /** Expands a batch of multi-states; `queue` are the ones first named while doing so. */
  method ExpandBatch(nfa: Nfa, batch0: set<MultiState>, n0: Naming, links0: seq<DfaLink>)
    returns (n: Naming, links: seq<DfaLink>, queue: set<MultiState>)
    requires Named(nfa, n0, links0) && AllExpanded(nfa, n0, links0, batch0)
    ensures Named(nfa, n, links) && BatchOk(nfa, n0, n, links, {}, queue)
  {
    n, links, queue := n0, links0, {};
    var batch := batch0;
    assert batch + {} == batch;
    while batch != {}
      invariant Named(nfa, n, links) && BatchOk(nfa, n0, n, links, batch, queue)
      decreases batch
    {
      var from :| from in batch;
      n, links, queue := ExpandOne(nfa, from, n0, n, links, queue, batch);
      batch := batch - {from};
    }
  }

  /** One more batch done: strictly more multi-states are expanded, out of finitely many. */
  lemma {:induction false} MoreExpanded(nfa: Nfa, n0: Naming, n: Naming, links: seq<DfaLink>, batch: set<MultiState>,
                                        queue: set<MultiState>)
    requires Named(nfa, n, links) && Extends(n0.mapping, n.mapping)
    requires {} != batch <= n0.mapping.Keys && queue == n.mapping.Keys - n0.mapping.Keys
    ensures var all := Subsets(nfa.initial + StatesOf(LinkSet(nfa.links)));
      all - (n.mapping.Keys - queue) < all - (n0.mapping.Keys - batch)
  {
    assert n.mapping.Keys - queue == n0.mapping.Keys by {
      assert forall s :: s in n0.mapping ==> s in n.mapping;
    }
    var s :| s in batch;
    assert Reached(nfa, s);
    ReachedIsSubset(nfa, s);
    assert s in n0.mapping.Keys && s !in n0.mapping.Keys - batch;
  }

  /** Subset construction: expands queued multi-states, batch by batch, until none is left. */
  method DetermineNfa(nfa: Nfa) returns (dfa: Dfa, ghost m: map<MultiState, State>)
    ensures Determinized(nfa, dfa, m)
    ensures exists q :: dfa.initial == {q}
  {
    var initialList := SetToSeq(nfa.initial);
    var initial := NormalizeMultiState(nfa, initialList);
    assert initial == After(nfa, []) && Reached(nfa, initial);
    var n, links := Naming(1, map[], {}), [];
    NameKeeps(nfa, n, links, initial);
    n := Name(nfa, n, initial);
    var toExplore := {initial};
    while toExplore != {}
      invariant Named(nfa, n, links) && initial in n.mapping
      invariant AllExpanded(nfa, n, links, toExplore)
      decreases Subsets(nfa.initial + StatesOf(LinkSet(nfa.links))) - (n.mapping.Keys - toExplore)
    {
      ghost var n0, batch := n, toExplore;
      n, links, toExplore := ExpandBatch(nfa, toExplore, n, links);
      assert {} + toExplore == toExplore;
      MoreExpanded(nfa, n0, n, links, batch, toExplore);
    }
    m := n.mapping;
    dfa := Automaton({n.mapping[initial]}, n.accept, links);
  }
}
