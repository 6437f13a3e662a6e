/** Brzozowski's minimization, and why its result is minimal. */
module Minimize {
  import opened Ranges
  import opened Automata
  import opened Determine

  // ---- deterministic automata as special automata ----

  function IntoNfaLink(l: DfaLink): NfaLink {
    Link(l.from, l.to, Symbol(l.symbol))
  }

  function IntoNfa(d: Dfa): Nfa {
    Automaton(d.initial, d.accept, seq(|d.links|, i requires 0 <= i < |d.links| => IntoNfaLink(d.links[i])))
  }

  ghost function Links(d: Dfa): set<NfaLink> {
    LinkSet(IntoNfa(d).links)
  }

  lemma {:induction false} LinksIs(d: Dfa, l: NfaLink)
    ensures l in Links(d) <==> l.symbol.Symbol? && Link(l.from, l.to, l.symbol.value) in d.links
  {
    var links := IntoNfa(d).links;
    if l in Links(d) {
      var i :| 0 <= i < |links| && links[i] == l;
      assert d.links[i] == Link(l.from, l.to, l.symbol.value);
    }
    if l.symbol.Symbol? && Link(l.from, l.to, l.symbol.value) in d.links {
      var i :| 0 <= i < |d.links| && d.links[i] == Link(l.from, l.to, l.symbol.value);
      assert links[i] == l;
    }
  }

  ghost predicate Deterministic(d: Dfa) {
    forall k, l :: k in d.links && l in d.links && k.from == l.from && k.symbol == l.symbol ==> k.to == l.to
  }

  ghost function States(d: Dfa): set<State> {
    d.initial + d.accept + (set l | l in d.links :: l.from) + (set l | l in d.links :: l.to)
  }

  ghost predicate Recognizes(d: Dfa, w: seq<Byte>) {
    Accepts(IntoNfa(d), w)
  }

  /** The words accepted from state `q` on. */
  ghost predicate Residual(d: Dfa, q: State, w: seq<Byte>) {
    exists f :: f in d.accept && Reach(Links(d), q, w, f)
  }

  ghost predicate ReachedFromStart(d: Dfa, q: State) {
    exists p, w :: p in d.initial && Reach(Links(d), p, w, q)
  }

  ghost predicate Distinguished(d: Dfa, p: State, q: State) {
    exists w :: Residual(d, p, w) != Residual(d, q, w)
  }

  // ---- runs of deterministic automata ----

  ghost predicate NoEpsilon(ls: set<NfaLink>) {
    forall l :: l in ls ==> l.symbol.Symbol?
  }

  lemma {:induction false} LinksNoEpsilon(d: Dfa)
    ensures NoEpsilon(Links(d))
  {
    forall l | l in Links(d) ensures l.symbol.Symbol? {
      LinksIs(d, l);
    }
  }

  lemma {:induction false} RunLength(ls: set<NfaLink>, run: seq<NfaLink>, p: State, q: State)
    requires NoEpsilon(ls) && IsRun(ls, run, p, q)
    ensures |Word(run)| == |run|
  {
    if run != [] {
      RunLength(ls, run[1..], run[0].to, q);
    }
  }

  lemma {:induction false} EmptyWord(d: Dfa, p: State, q: State)
    requires Reach(Links(d), p, [], q)
    ensures p == q
  {
    var run: seq<NfaLink> :| IsRun(Links(d), run, p, q) && Word(run) == [];
    LinksNoEpsilon(d);
    RunLength(Links(d), run, p, q);
  }

  /** A deterministic automaton has at most one state after a word. */
  lemma {:induction false} RunUnique(d: Dfa, a: seq<NfaLink>, b: seq<NfaLink>, p: State, q: State, r: State)
    requires Deterministic(d) && IsRun(Links(d), a, p, q) && IsRun(Links(d), b, p, r) && Word(a) == Word(b)
    ensures q == r
  {
    LinksNoEpsilon(d);
    RunLength(Links(d), a, p, q);
    RunLength(Links(d), b, p, r);
    if a != [] {
      LinksIs(d, a[0]);
      LinksIs(d, b[0]);
      assert SymbolWord(a[0].symbol) == Word(a)[..1] && SymbolWord(b[0].symbol) == Word(b)[..1];
      assert a[0].symbol == b[0].symbol by {
        assert [a[0].symbol.value][0] == [b[0].symbol.value][0];
      }
      assert Word(a[1..]) == Word(a)[1..] && Word(b[1..]) == Word(b)[1..];
      RunUnique(d, a[1..], b[1..], a[0].to, q, r);
    }
  }

  lemma {:induction false} ReachUnique(d: Dfa, p: State, w: seq<Byte>, q: State, r: State)
    requires Deterministic(d) && Reach(Links(d), p, w, q) && Reach(Links(d), p, w, r)
    ensures q == r
  {
    var a: seq<NfaLink> :| IsRun(Links(d), a, p, q) && Word(a) == w;
    var b: seq<NfaLink> :| IsRun(Links(d), b, p, r) && Word(b) == w;
    RunUnique(d, a, b, p, q, r);
  }

  lemma {:induction false} RunSplit(ls: set<NfaLink>, run: seq<NfaLink>, p: State, q: State, u: seq<Byte>, v: seq<Byte>)
    returns (r: State)
    requires NoEpsilon(ls) && IsRun(ls, run, p, q) && Word(run) == u + v
    ensures Reach(ls, p, u, r) && Reach(ls, r, v, q)
  {
    if u == [] {
      ReachSelf(ls, p);
      assert [] + v == v;
      r := p;
    } else {
      RunLength(ls, run, p, q);
      var rest := run[1..];
      assert SymbolWord(run[0].symbol) == (u + v)[..1] == u[..1];
      assert Word(rest) == (u + v)[1..] == u[1..] + v;
      r := RunSplit(ls, rest, run[0].to, q, u[1..], v);
      ReachLink(ls, run[0]);
      ReachConcat(ls, p, u[..1], run[0].to, u[1..], r);
      assert u[..1] + u[1..] == u;
    }
  }

  /** What a state accepts, seen from the start: the word that leads to it, then its residual. */
  lemma {:induction false} ResidualIs(d: Dfa, p: State, u: seq<Byte>, q: State, w: seq<Byte>)
    requires Deterministic(d) && d.initial == {p} && Reach(Links(d), p, u, q)
    ensures Residual(d, q, w) <==> Recognizes(d, u + w)
  {
    if f :| f in d.accept && Reach(Links(d), q, w, f) {
      ReachConcat(Links(d), p, u, q, w, f);
    }
    if Recognizes(d, u + w) {
      var f :| f in d.accept && Reach(Links(d), p, u + w, f);
      var run: seq<NfaLink> :| IsRun(Links(d), run, p, f) && Word(run) == u + w;
      LinksNoEpsilon(d);
      var r := RunSplit(Links(d), run, p, f, u, w);
      ReachUnique(d, p, u, q, r);
    }
  }

  // ---- the subset automaton keeps the language ----

  lemma {:induction false} SubsetRun(nfa: Nfa, d: Dfa, m: map<MultiState, State>, p: State, w: seq<Byte>, q: State)
    requires Determinized(nfa, d, m) && p in d.initial && Reach(Links(d), p, w, q)
    ensures After(nfa, w) in m && q == m[After(nfa, w)] && (w != [] ==> After(nfa, w) != {})
    decreases |w|, 0
  {
    if w == [] {
      EmptyWord(d, p, q);
    } else {
      SubsetRunOn(nfa, d, m, p, w[..|w| - 1], w[|w| - 1], q);
      assert w == w[..|w| - 1] + [w[|w| - 1]];
    }
  }

  lemma {:induction false} SubsetRunOn(nfa: Nfa, d: Dfa, m: map<MultiState, State>, p: State, u: seq<Byte>, c: Byte,
                                       q: State)
    requires Determinized(nfa, d, m) && p in d.initial && Reach(Links(d), p, u + [c], q)
    ensures After(nfa, u + [c]) in m && q == m[After(nfa, u + [c])] && After(nfa, u + [c]) != {}
    decreases |u|, 1
  {
    var l := LastLink(d, p, u, c, q);
    SubsetRun(nfa, d, m, p, u, l.from);
    SubsetLink(nfa, d, m, u, c, l);
  }

  lemma {:induction false} LastLink(d: Dfa, p: State, u: seq<Byte>, c: Byte, q: State) returns (l: DfaLink)
    requires Reach(Links(d), p, u + [c], q)
    ensures l in d.links && l.symbol == c && l.to == q && Reach(Links(d), p, u, l.from)
  {
    var run: seq<NfaLink> :| IsRun(Links(d), run, p, q) && Word(run) == u + [c];
    var k := LastSymbol(Links(d), run, p, q, u, c);
    assert Reach(Links(d), run[k].to, [], q);
    EmptyWord(d, run[k].to, q);
    LinksIs(d, run[k]);
    l := Link(run[k].from, run[k].to, c);
    assert Reach(Links(d), p, u, run[k].from);
  }

  lemma {:induction false} SubsetLink(nfa: Nfa, d: Dfa, m: map<MultiState, State>, u: seq<Byte>, c: Byte, l: DfaLink)
    requires Determinized(nfa, d, m) && After(nfa, u) in m && l in d.links && l.from == m[After(nfa, u)]
    requires l.symbol == c
    ensures After(nfa, u + [c]) in m && l.to == m[After(nfa, u + [c])] && After(nfa, u + [c]) != {}
  {
    var counter :| Partial(nfa, m, counter, d.accept, d.links);
    var s :| LinkOf(nfa, m, s, l);
    assert s == After(nfa, u);
    AfterStep(LinkSet(nfa.links), nfa.initial, u, c);
    ReachedNext(nfa, s, c);
  }

  lemma {:induction false} NextNonEmpty(ls: set<NfaLink>, s: MultiState, c: Byte)
    requires Next(ls, s, c) != {}
    ensures Move(ls, s, c) != {} && s != {}
  {
    var q :| q in Next(ls, s, c);
    AfterFromIs(ls, Move(ls, s, c), [], q);
  }

  lemma {:induction false} SubsetReaches(nfa: Nfa, d: Dfa, m: map<MultiState, State>, p: State, w: seq<Byte>)
    requires Determinized(nfa, d, m) && p in d.initial && (After(nfa, w) != {} || w == [])
    ensures After(nfa, w) in m && Reach(Links(d), p, w, m[After(nfa, w)])
    decreases |w|
  {
    if w == [] {
      ReachSelf(Links(d), p);
    } else {
      var u, c := w[..|w| - 1], w[|w| - 1];
      assert w == u + [c];
      var ls := LinkSet(nfa.links);
      AfterStep(ls, nfa.initial, u, c);
      NextNonEmpty(ls, After(nfa, u), c);
      SubsetReaches(nfa, d, m, p, u);
      var s := After(nfa, u);
      assert HasLink(nfa, m, d.links, s, c);
      var l := Link(m[s], m[Next(ls, s, c)], Symbol(c));
      LinksIs(d, l);
      ReachLink(Links(d), l);
      ReachConcat(Links(d), p, u, m[s], [c], l.to);
    }
  }

  lemma {:induction false} AcceptsAfter(nfa: Nfa, w: seq<Byte>)
    ensures Accepts(nfa, w) <==> After(nfa, w) * nfa.accept != {}
  {
    var ls := LinkSet(nfa.links);
    if Accepts(nfa, w) {
      var p, q :| p in nfa.initial && q in nfa.accept && Reach(ls, p, w, q);
      AfterFromIs(ls, nfa.initial, w, q);
      assert q in After(nfa, w) * nfa.accept;
    }
    if After(nfa, w) * nfa.accept != {} {
      var q :| q in After(nfa, w) * nfa.accept;
      AfterFromIs(ls, nfa.initial, w, q);
    }
  }

  /** Determinizing keeps the language. */
  lemma {:induction false} SameLanguage(nfa: Nfa, d: Dfa, m: map<MultiState, State>, w: seq<Byte>)
    requires Determinized(nfa, d, m)
    ensures Recognizes(d, w) <==> Accepts(nfa, w)
  {
    var counter :| Partial(nfa, m, counter, d.accept, d.links);
    var start := m[After(nfa, [])];
    AcceptsAfter(nfa, w);
    if Recognizes(d, w) {
      var q :| q in d.accept && Reach(Links(d), start, w, q);
      SubsetRun(nfa, d, m, start, w, q);
    }
    if After(nfa, w) * nfa.accept != {} {
      assert After(nfa, w) != {};
      SubsetReaches(nfa, d, m, start, w);
      assert start in d.initial && m[After(nfa, w)] in d.accept;
    }
  }

  lemma {:induction false} SubsetDeterministic(nfa: Nfa, d: Dfa, m: map<MultiState, State>)
    requires Determinized(nfa, d, m)
    ensures Deterministic(d)
  {
    var counter :| Partial(nfa, m, counter, d.accept, d.links);
    forall k, l | k in d.links && l in d.links && k.from == l.from && k.symbol == l.symbol ensures k.to == l.to {
      var s :| LinkOf(nfa, m, s, k);
      var t :| LinkOf(nfa, m, t, l);
      assert s == t;
    }
  }

  ghost predicate Touches(l: DfaLink, q: State) {
    l.from == q || l.to == q
  }

  lemma {:induction false} StateCases(d: Dfa, q: State)
    requires q in States(d)
    ensures q in d.initial || q in d.accept || exists l :: l in d.links && Touches(l, q)
  {
    if l :| l in d.links && (l.from == q || l.to == q) {
      assert Touches(l, q);
    }
  }

  lemma {:induction false} LinksAre(nfa: Nfa, d: Dfa, m: map<MultiState, State>)
    requires Determinized(nfa, d, m)
    ensures LinksOf(nfa, m, d.links)
  {
    var counter :| Partial(nfa, m, counter, d.accept, d.links);
  }

  lemma {:induction false} AcceptsAre(nfa: Nfa, d: Dfa, m: map<MultiState, State>)
    requires Determinized(nfa, d, m)
    ensures AcceptsOf(nfa, m, d.accept)
  {
    var counter :| Partial(nfa, m, counter, d.accept, d.links);
  }

  /** Every state of the subset automaton names a multi-state. */
  lemma {:induction false} StateNames(nfa: Nfa, d: Dfa, m: map<MultiState, State>, q: State) returns (s: MultiState)
    requires Determinized(nfa, d, m) && q in States(d)
    ensures s in m && m[s] == q
  {
    StateCases(d, q);
    if q in d.initial {
      s := After(nfa, []);
    } else if q in d.accept {
      AcceptsAre(nfa, d, m);
      s :| s in m && m[s] == q;
    } else {
      LinksAre(nfa, d, m);
      var l: DfaLink :| l in d.links && Touches(l, q);
      s := LinkNames(nfa, m, d.links, l, q);
    }
  }

  lemma {:induction false} LinkNames(nfa: Nfa, m: map<MultiState, State>, links: seq<DfaLink>, l: DfaLink, q: State)
    returns (s: MultiState)
    requires LinksOf(nfa, m, links) && l in links && Touches(l, q)
    ensures s in m && m[s] == q
  {
    s :| LinkOf(nfa, m, s, l);
    if l.from != q {
      s := Next(LinkSet(nfa.links), s, l.symbol);
    }
  }

  /** Some word leads to every multi-state that has a name. */
  lemma {:induction false} SubsetReachable(nfa: Nfa, d: Dfa, m: map<MultiState, State>, s: MultiState)
    returns (w: seq<Byte>)
    requires Determinized(nfa, d, m) && s in m
    ensures s == After(nfa, w) && Reach(Links(d), m[After(nfa, [])], w, m[s])
  {
    var counter :| Partial(nfa, m, counter, d.accept, d.links);
    assert Reached(nfa, s);
    if s == {} {
      w := [];
    } else {
      w :| s == After(nfa, w);
    }
    SubsetReaches(nfa, d, m, m[After(nfa, [])], w);
  }
}
