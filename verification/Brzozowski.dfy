/** Reversing automata, and minimizing by determinizing twice. */
module Brzozowski {
  import opened Ranges
  import opened Automata
  import opened Determine
  import opened Minimize
  import opened Thompson

  // ---- reversal ----

  function Flip<T>(l: Link<T>): Link<T> {
    Link(l.to, l.from, l.symbol)
  }

  ghost function FlipSet(ls: set<NfaLink>): set<NfaLink> {
    set l | l in ls :: Flip(l)
  }

  function Inverted<T>(a: Automaton<T>): Automaton<T> {
    Automaton(a.accept, a.initial, seq(|a.links|, i requires 0 <= i < |a.links| => Flip(a.links[i])))
  }

  ghost function Rev(w: seq<Byte>): seq<Byte> {
    if w == [] then [] else Rev(w[1..]) + [w[0]]
  }

  lemma {:induction false} RevConcat(u: seq<Byte>, v: seq<Byte>)
    ensures Rev(u + v) == Rev(v) + Rev(u)
  {
    if u == [] {
      assert u + v == v;
    } else {
      RevConcat(u[1..], v);
      assert (u + v)[1..] == u[1..] + v;
    }
  }

  lemma {:induction false} RevRev(w: seq<Byte>)
    ensures Rev(Rev(w)) == w
  {
    if w != [] {
      RevRev(w[1..]);
      RevConcat(Rev(w[1..]), [w[0]]);
      assert [w[0]][1..] == [] && Rev([w[0]]) == [w[0]];
    }
  }

  ghost function FlipRun(run: seq<NfaLink>): seq<NfaLink> {
    if run == [] then [] else FlipRun(run[1..]) + [Flip(run[0])]
  }

  lemma {:induction false} FlipRunIs(ls: set<NfaLink>, run: seq<NfaLink>, p: State, q: State)
    requires IsRun(ls, run, p, q)
    ensures IsRun(FlipSet(ls), FlipRun(run), q, p)
    ensures Word(FlipRun(run)) == Rev(Word(run))
  {
    if run != [] {
      var l := run[0];
      FlipRunIs(ls, run[1..], l.to, q);
      assert [Flip(l)][1..] == [] && IsRun(FlipSet(ls), [Flip(l)], l.to, p);
      RunConcat(FlipSet(ls), FlipRun(run[1..]), [Flip(l)], q, l.to, p);
      FlipWord(run);
    }
  }

  lemma {:induction false} FlipWord(run: seq<NfaLink>)
    requires run != [] && Word(FlipRun(run[1..])) == Rev(Word(run[1..]))
    ensures Word(FlipRun(run)) == Rev(Word(run))
  {
    var head := SymbolWord(run[0].symbol);
    WordConcat(FlipRun(run[1..]), [Flip(run[0])]);
    assert [Flip(run[0])][1..] == [] && head + [] == head;
    RevConcat(head, Word(run[1..]));
    assert Rev(head) == head by {
      if head != [] {
        assert head[1..] == [];
      }
    }
  }

  lemma {:induction false} FlipReach(ls: set<NfaLink>, p: State, w: seq<Byte>, q: State)
    requires Reach(ls, p, w, q)
    ensures Reach(FlipSet(ls), q, Rev(w), p)
  {
    var run: seq<NfaLink> :| IsRun(ls, run, p, q) && Word(run) == w;
    FlipRunIs(ls, run, p, q);
  }

  lemma {:induction false} FlipFlip(ls: set<NfaLink>)
    ensures FlipSet(FlipSet(ls)) == ls
  {
    forall l | l in ls ensures l in FlipSet(FlipSet(ls)) {
      assert Flip(l) in FlipSet(ls) && Flip(Flip(l)) == l;
    }
  }

  lemma {:induction false} FlipReachBack(ls: set<NfaLink>, p: State, w: seq<Byte>, q: State)
    requires Reach(FlipSet(ls), q, Rev(w), p)
    ensures Reach(ls, p, w, q)
  {
    FlipReach(FlipSet(ls), q, Rev(w), p);
    FlipFlip(ls);
    RevRev(w);
  }

  lemma {:induction false} InvertedLinks(nfa: Nfa)
    ensures LinkSet(Inverted(nfa).links) == FlipSet(LinkSet(nfa.links))
  {
    var a, b := nfa.links, Inverted(nfa).links;
    forall l | l in b ensures l in FlipSet(LinkSet(a)) {
      var i :| 0 <= i < |b| && b[i] == l;
      assert a[i] in LinkSet(a) && Flip(a[i]) == l;
    }
    forall l | l in FlipSet(LinkSet(a)) ensures l in b {
      var k :| k in LinkSet(a) && Flip(k) == l;
      var i :| 0 <= i < |a| && a[i] == k;
      assert b[i] == l;
    }
  }

  /** An inverted automaton reads the words backwards. */
  lemma {:induction false} InvertedReads(nfa: Nfa, w: seq<Byte>)
    ensures Accepts(Inverted(nfa), Rev(w)) <==> Accepts(nfa, w)
  {
    InvertedLinks(nfa);
    var ls := LinkSet(nfa.links);
    if p, q :| p in nfa.initial && q in nfa.accept && Reach(ls, p, w, q) {
      FlipReach(ls, p, w, q);
    }
    if p, q :| p in nfa.accept && q in nfa.initial && Reach(FlipSet(ls), p, Rev(w), q) {
      FlipReachBack(ls, q, w, p);
    }
  }

  /** Inverting and turning into a nondeterministic automaton commute. */
  lemma {:induction false} InvertInto(d: Dfa)
    ensures IntoNfa(Inverted(d)) == Inverted(IntoNfa(d))
  {
    assert IntoNfa(Inverted(d)).links == Inverted(IntoNfa(d)).links;
  }

  // ---- inverting in place ----

  method Invert<T>(a: Automaton<T>) returns (r: Automaton<T>)
    ensures r == Inverted(a)
  {
    var links := a.links;
    var i := 0;
    while i < |links|
      invariant 0 <= i <= |links| == |a.links|
      invariant forall k :: 0 <= k < |links| ==> links[k] == if k < i then Flip(a.links[k]) else a.links[k]
    {
      links := links[i := Link(links[i].to, links[i].from, links[i].symbol)];
      i := i + 1;
    }
    r := Automaton(a.accept, a.initial, links);
    assert r.links == Inverted(a).links;
  }

  // ---- minimality ----

  /** A deterministic automaton all of whose states can be reached. */
  ghost predicate Trimmed(d: Dfa) {
    Deterministic(d) && (exists q :: d.initial == {q}) && forall q :: q in States(d) ==> ReachedFromStart(d, q)
  }

  /** Some word leads to `q` in `d` and to `s` in `nfa`. */
  ghost predicate Leads(nfa: Nfa, d: Dfa, s: MultiState, q: State) {
    exists i, w :: i in d.initial && Reach(Links(d), i, w, q) && s == After(nfa, w)
  }

  /** `d` is deterministic, has the language of `nfa`, and its states stand for distinct multi-states. */
  ghost predicate SubsetAutomaton(nfa: Nfa, d: Dfa) {
    && Trimmed(d) && SameAs(nfa, d)
    && (forall s, p, q :: Leads(nfa, d, s, p) && Leads(nfa, d, s, q) ==> p == q)
    && (forall q :: Leads(nfa, d, {}, q) ==> q in d.initial)
  }

  ghost predicate SameAs(nfa: Nfa, d: Dfa) {
    forall w :: Recognizes(d, w) <==> Accepts(nfa, w)
  }

  lemma {:induction false} SubsetTrimmed(nfa: Nfa, d: Dfa, m: map<MultiState, State>)
    requires Determinized(nfa, d, m)
    ensures Trimmed(d)
  {
    SubsetDeterministic(nfa, d, m);
    forall q | q in States(d) ensures ReachedFromStart(d, q) {
      var s := StateNames(nfa, d, m, q);
      var w := SubsetReachable(nfa, d, m, s);
    }
  }

  lemma {:induction false} LeadsToName(nfa: Nfa, d: Dfa, m: map<MultiState, State>, s: MultiState, q: State)
    requires Determinized(nfa, d, m) && Leads(nfa, d, s, q)
    ensures s in m && q == m[s] && (s == {} ==> q in d.initial)
  {
    var i, w :| i in d.initial && Reach(Links(d), i, w, q) && s == After(nfa, w);
    SubsetRun(nfa, d, m, i, w, q);
  }

  lemma {:induction false} SubsetIs(nfa: Nfa, d: Dfa, m: map<MultiState, State>)
    requires Determinized(nfa, d, m)
    ensures SubsetAutomaton(nfa, d)
  {
    SubsetTrimmed(nfa, d, m);
    forall w ensures Recognizes(d, w) <==> Accepts(nfa, w) {
      SameLanguage(nfa, d, m, w);
    }
    forall s, q | Leads(nfa, d, s, q) ensures s in m && q == m[s] && (s == {} ==> q in d.initial) {
      LeadsToName(nfa, d, m, s, q);
    }
  }

  /** In the reverse of a trimmed automaton, the word that leads to `x` tells whether `x` has been reached. */
  lemma {:induction false} BackIs(d: Dfa, nfa: Nfa, i: State, x: State, y: seq<Byte>, u: seq<Byte>)
    requires Deterministic(d) && d.initial == {i} && nfa == Inverted(IntoNfa(d)) && Reach(Links(d), i, y, x)
    ensures Accepts(nfa, u + Rev(y)) <==> x in After(nfa, u)
  {
    var ls := LinkSet(nfa.links);
    InvertedLinks(IntoNfa(d));
    AfterFromIs(ls, nfa.initial, u, x);
    if f :| f in nfa.initial && Reach(ls, f, u, x) {
      FlipReach(Links(d), i, y, x);
      ReachConcat(ls, f, u, x, Rev(y), i);
    }
    if Accepts(nfa, u + Rev(y)) {
      BackOnly(d, nfa, i, x, y, u);
    }
  }

  lemma {:induction false} FlippedNoEpsilon(d: Dfa)
    ensures NoEpsilon(FlipSet(Links(d)))
  {
    LinksNoEpsilon(d);
  }

  lemma {:induction false} BackOnly(d: Dfa, nfa: Nfa, i: State, x: State, y: seq<Byte>, u: seq<Byte>)
    requires Deterministic(d) && d.initial == {i} && nfa == Inverted(IntoNfa(d)) && Reach(Links(d), i, y, x)
    requires Accepts(nfa, u + Rev(y))
    ensures exists f :: f in nfa.initial && Reach(LinkSet(nfa.links), f, u, x)
  {
    var ls := LinkSet(nfa.links);
    InvertedLinks(IntoNfa(d));
    var f, g :| f in nfa.initial && g in nfa.accept && Reach(ls, f, u + Rev(y), g);
    var run: seq<NfaLink> :| IsRun(ls, run, f, g) && Word(run) == u + Rev(y);
    FlippedNoEpsilon(d);
    var r := RunSplit(ls, run, f, g, u, Rev(y));
    FlipReachBack(Links(d), i, y, r);
    ReachUnique(d, i, y, x, r);
  }

  lemma {:induction false} PathTo(d: Dfa, q: State) returns (i: State, w: seq<Byte>)
    requires Trimmed(d) && q in States(d)
    ensures d.initial == {i} && Reach(Links(d), i, w, q)
  {
    assert ReachedFromStart(d, q);
    i, w :| i in d.initial && Reach(Links(d), i, w, q);
  }

  /** A state accepts the way back to `x` exactly if its multi-state holds `x`. */
  lemma {:induction false} ResidualTells(d1: Dfa, n2: Nfa, d2: Dfa, s: MultiState, q: State, i: State, x: State,
                                         y: seq<Byte>)
    requires Deterministic(d1) && d1.initial == {i} && n2 == Inverted(IntoNfa(d1)) && Reach(Links(d1), i, y, x)
    requires Deterministic(d2) && (exists j :: d2.initial == {j}) && SameAs(n2, d2) && Leads(n2, d2, s, q)
    ensures Residual(d2, q, Rev(y)) <==> x in s
  {
    var j, u :| j in d2.initial && Reach(Links(d2), j, u, q) && s == After(n2, u);
    ResidualIs(d2, j, u, q, Rev(y));
    assert Recognizes(d2, u + Rev(y)) <==> Accepts(n2, u + Rev(y));
    BackIs(d1, n2, i, x, y, u);
  }

  lemma {:induction false} InvertedStates(d: Dfa, nfa: Nfa, w: seq<Byte>, x: State)
    requires nfa == Inverted(IntoNfa(d)) && x in After(nfa, w)
    ensures x in States(d)
  {
    InvertedLinks(IntoNfa(d));
    if x !in nfa.initial {
      assert x in StatesOf(FlipSet(Links(d)));
      var l :| l in FlipSet(Links(d)) && (l.from == x || l.to == x);
      var k :| k in Links(d) && Flip(k) == l;
      LinksIs(d, k);
    }
  }

  lemma {:induction false} LeadsStates(d1: Dfa, n2: Nfa, d2: Dfa, s: MultiState, q: State, x: State)
    requires n2 == Inverted(IntoNfa(d1)) && Leads(n2, d2, s, q) && x in s
    ensures x in States(d1)
  {
    var j, u :| j in d2.initial && Reach(Links(d2), j, u, q) && s == After(n2, u);
    InvertedStates(d1, n2, u, x);
  }

  lemma {:induction false} DistinguishedBy(d1: Dfa, n2: Nfa, d2: Dfa, s: MultiState, p: State, t: MultiState,
                                           q: State, x: State)
    requires Trimmed(d1) && n2 == Inverted(IntoNfa(d1)) && SubsetAutomaton(n2, d2)
    requires Leads(n2, d2, s, p) && Leads(n2, d2, t, q) && x in s && x !in t
    ensures Distinguished(d2, p, q) && Distinguished(d2, q, p)
  {
    LeadsStates(d1, n2, d2, s, p, x);
    var i, y := PathTo(d1, x);
    ResidualTells(d1, n2, d2, s, p, i, x, y);
    ResidualTells(d1, n2, d2, t, q, i, x, y);
  }

  lemma {:induction false} LiveBy(d1: Dfa, n2: Nfa, d2: Dfa, s: MultiState, q: State, x: State)
    requires Trimmed(d1) && n2 == Inverted(IntoNfa(d1)) && SubsetAutomaton(n2, d2) && Leads(n2, d2, s, q) && x in s
    ensures Live(d2, q)
  {
    LeadsStates(d1, n2, d2, s, q, x);
    var i, y := PathTo(d1, x);
    ResidualTells(d1, n2, d2, s, q, i, x, y);
  }

  ghost predicate Live(d: Dfa, q: State) {
    exists w :: Residual(d, q, w)
  }

  /** No state too many: deterministic, every state reachable and leading on to acceptance (but for the start of
      an automaton that accepts nothing), and no two states with the same residual language. */
  ghost predicate Minimal(d: Dfa) {
    && Trimmed(d)
    && (forall q :: q in States(d) ==> q in d.initial || Live(d, q))
    && (forall p, q :: p in States(d) && q in States(d) && p != q ==> Distinguished(d, p, q))
  }

  lemma {:induction false} LeadsToState(nfa: Nfa, d: Dfa, q: State) returns (s: MultiState)
    requires Trimmed(d) && q in States(d)
    ensures Leads(nfa, d, s, q)
  {
    var i, w := PathTo(d, q);
    s := After(nfa, w);
  }

  lemma {:induction false} StateLives(d1: Dfa, n2: Nfa, d2: Dfa, q: State)
    requires Trimmed(d1) && n2 == Inverted(IntoNfa(d1)) && SubsetAutomaton(n2, d2) && q in States(d2)
    ensures q in d2.initial || Live(d2, q)
  {
    var s := LeadsToState(n2, d2, q);
    if s != {} {
      var x :| x in s;
      LiveBy(d1, n2, d2, s, q, x);
    }
  }

  lemma {:induction false} StatesDiffer(d1: Dfa, n2: Nfa, d2: Dfa, p: State, q: State)
    requires Trimmed(d1) && n2 == Inverted(IntoNfa(d1)) && SubsetAutomaton(n2, d2)
    requires p in States(d2) && q in States(d2) && p != q
    ensures Distinguished(d2, p, q)
  {
    var s := LeadsToState(n2, d2, p);
    var t := LeadsToState(n2, d2, q);
    assert s != t;
    if x :| x in s && x !in t {
      DistinguishedBy(d1, n2, d2, s, p, t, q, x);
    } else {
      var x :| x in t && x !in s;
      DistinguishedBy(d1, n2, d2, t, q, s, p, x);
    }
  }

  /** Determinizing the reverse of a trimmed automaton yields a minimal one. */
  lemma {:induction false} ReverseIsMinimal(d1: Dfa, n2: Nfa, d2: Dfa)
    requires Trimmed(d1) && n2 == Inverted(IntoNfa(d1)) && SubsetAutomaton(n2, d2)
    ensures Minimal(d2)
  {
    forall q | q in States(d2) ensures q in d2.initial || Live(d2, q) {
      StateLives(d1, n2, d2, q);
    }
    forall p, q | p in States(d2) && q in States(d2) && p != q ensures Distinguished(d2, p, q) {
      StatesDiffer(d1, n2, d2, p, q);
    }
  }

  /** Brzozowski: determinize the inverse, invert, determinize again. */
  method DetermineAndMinimizeNfa(nfa: Nfa) returns (dfa: Dfa)
    ensures Minimal(dfa)
    ensures forall w :: Recognizes(dfa, w) <==> Accepts(nfa, w)
  {
    var n1 := Invert(nfa);
    ghost var m1, m2;
    var d1;
    d1, m1 := DetermineNfa(n1);
    var d2 := Invert(d1);
    var n2 := IntoNfa(d2);
    dfa, m2 := DetermineNfa(n2);
    InvertInto(d1);
    SubsetIs(n1, d1, m1);
    SubsetIs(n2, dfa, m2);
    ReverseIsMinimal(d1, n2, dfa);
    forall w ensures Recognizes(dfa, w) <==> Accepts(nfa, w) {
      DoubleReverse(nfa, d1, dfa, w);
    }
  }

  lemma {:induction false} DoubleReverse(nfa: Nfa, d1: Dfa, d2: Dfa, w: seq<Byte>)
    requires SameAs(Inverted(nfa), d1) && SameAs(Inverted(IntoNfa(d1)), d2)
    ensures Recognizes(d2, w) <==> Accepts(nfa, w)
  {
    RevRev(w);
    InvertedReads(IntoNfa(d1), Rev(w));
    assert Recognizes(d1, Rev(w)) <==> Accepts(Inverted(nfa), Rev(w));
    InvertedReads(nfa, w);
  }

  // ---- no smaller automaton ----

  /** The states a deterministic automaton needs: reachable, and the start or able to reach acceptance. */
  ghost function Useful(d: Dfa): set<State> {
    set q | q in States(d) && ReachedFromStart(d, q) && (q in d.initial || Live(d, q))
  }

  ghost predicate SameWords(a: Dfa, b: Dfa) {
    forall w :: Recognizes(a, w) <==> Recognizes(b, w)
  }

  /** The states `q` of `a` and `r` of `b` are led to by one word. */
  ghost predicate Meet(a: Dfa, b: Dfa, q: State, r: State) {
    exists i, j, w :: i in a.initial && j in b.initial && Reach(Links(a), i, w, q) && Reach(Links(b), j, w, r)
  }

  lemma {:induction false} MeetResidual(a: Dfa, b: Dfa, q: State, r: State, w: seq<Byte>)
    requires Trimmed(a) && Deterministic(b) && (exists j :: b.initial == {j}) && SameWords(a, b) && Meet(a, b, q, r)
    ensures Residual(a, q, w) <==> Residual(b, r, w)
  {
    var i, j, u :| i in a.initial && j in b.initial && Reach(Links(a), i, u, q) && Reach(Links(b), j, u, r);
    ResidualIs(a, i, u, q, w);
    ResidualIs(b, j, u, r, w);
  }

  lemma {:induction false} EndIsState(d: Dfa, p: State, w: seq<Byte>, q: State)
    requires Reach(Links(d), p, w, q) && p in d.initial
    ensures q in States(d)
  {
    var run: seq<NfaLink> :| IsRun(Links(d), run, p, q) && Word(run) == w;
    RunEnds(Links(d), run, p, q);
    if q != p {
      var l :| l in Links(d) && (l.from == q || l.to == q);
      LinksIs(d, l);
    }
  }

  lemma {:induction false} MeetLive(a: Dfa, b: Dfa, q: State) returns (r: State)
    requires Trimmed(a) && Deterministic(b) && (exists j :: b.initial == {j}) && SameWords(a, b)
    requires q in States(a) && Live(a, q)
    ensures r in Useful(b) && Meet(a, b, q, r)
  {
    var i, u := PathTo(a, q);
    var v :| Residual(a, q, v);
    ResidualIs(a, i, u, q, v);
    r := Midway(b, u, v);
  }

  /** The state a recognized word passes through. */
  lemma {:induction false} Midway(b: Dfa, u: seq<Byte>, v: seq<Byte>) returns (r: State)
    requires Recognizes(b, u + v)
    ensures r in Useful(b) && exists j :: j in b.initial && Reach(Links(b), j, u, r)
  {
    var j, f :| j in b.initial && f in b.accept && Reach(Links(b), j, u + v, f);
    var run: seq<NfaLink> :| IsRun(Links(b), run, j, f) && Word(run) == u + v;
    LinksNoEpsilon(b);
    r := RunSplit(Links(b), run, j, f, u, v);
    EndIsState(b, j, u, r);
    assert Residual(b, r, v);
  }

  lemma {:induction false} MeetSome(a: Dfa, b: Dfa, q: State) returns (r: State)
    requires Minimal(a) && Deterministic(b) && (exists j :: b.initial == {j}) && SameWords(a, b) && q in States(a)
    ensures r in Useful(b) && Meet(a, b, q, r)
  {
    if q in a.initial {
      r :| r in b.initial;
      ReachSelf(Links(a), q);
      ReachSelf(Links(b), r);
      assert ReachedFromStart(b, r);
    } else {
      r := MeetLive(a, b, q);
    }
  }

  lemma {:induction false} MeetOne(a: Dfa, b: Dfa, p: State, q: State, r: State)
    requires Minimal(a) && Deterministic(b) && (exists j :: b.initial == {j}) && SameWords(a, b)
    requires p in States(a) && q in States(a) && Meet(a, b, p, r) && Meet(a, b, q, r)
    ensures p == q
  {
    if p != q {
      assert Distinguished(a, p, q);
      var w :| Residual(a, p, w) != Residual(a, q, w);
      MeetResidual(a, b, p, r, w);
      MeetResidual(a, b, q, r, w);
      assert false;
    }
  }

  ghost predicate AllMeet(a: Dfa, b: Dfa, s: set<State>, t: set<State>) {
    forall q :: q in s ==> exists r :: r in t && Meet(a, b, q, r)
  }

  ghost predicate MeetOnce(a: Dfa, b: Dfa, s: set<State>) {
    forall p, q, r :: p in s && q in s && Meet(a, b, p, r) && Meet(a, b, q, r) ==> p == q
  }

  /** A relation that sends every element of `s` somewhere in `t`, and no two to the same place, bounds the size
      of `s`. */
  lemma {:induction false} Pigeons(a: Dfa, b: Dfa, s: set<State>, t: set<State>)
    requires AllMeet(a, b, s, t) && MeetOnce(a, b, s)
    ensures |s| <= |t|
    decreases |s|
  {
    if s != {} {
      var q :| q in s;
      var r :| r in t && Meet(a, b, q, r);
      Pigeons(a, b, s - {q}, t - {r});
    }
  }

  /** Two deterministic automata of one language, the first of them minimal. */
  ghost predicate Rivals(a: Dfa, b: Dfa) {
    Minimal(a) && Deterministic(b) && (exists j :: b.initial == {j}) && SameWords(a, b)
  }

  lemma {:induction false} RivalsMeet(a: Dfa, b: Dfa)
    requires Rivals(a, b)
    ensures AllMeet(a, b, States(a), Useful(b)) && MeetOnce(a, b, States(a))
  {
    forall q | q in States(a) ensures exists r :: r in Useful(b) && Meet(a, b, q, r) {
      var r := MeetSome(a, b, q);
    }
    forall p, q, r | p in States(a) && q in States(a) && Meet(a, b, p, r) && Meet(a, b, q, r) ensures p == q {
      MeetOne(a, b, p, q, r);
    }
  }

  /** A minimal automaton has the fewest states of all deterministic automata of its language. */
  lemma {:induction false} NoneSmaller(a: Dfa, b: Dfa)
    requires Minimal(a) && Deterministic(b) && (exists j :: b.initial == {j}) && SameWords(a, b)
    ensures |States(a)| <= |Useful(b)| <= |States(b)|
  {
    FewestUseful(a, b);
    assert Useful(b) <= States(b);
    Subset(Useful(b), States(b));
  }

  lemma {:induction false} FewestUseful(a: Dfa, b: Dfa)
    requires Rivals(a, b)
    ensures |States(a)| <= |Useful(b)|
  {
    RivalsMeet(a, b);
    assert AllMeet(a, b, States(a), Useful(b)) && MeetOnce(a, b, States(a));
    Pigeons(a, b, States(a), Useful(b));
  }

  lemma {:induction false} Subset(s: set<State>, t: set<State>)
    requires s <= t
    ensures |s| <= |t|
  {
    assert t == s + (t - s);
  }

  // ---- the whole compiler ----

  /** From a regular expression to the smallest deterministic automaton of its language. */
  method CompileHir(h: Hir) returns (dfa: Dfa)
    requires Supported(h)
    ensures Minimal(dfa)
    ensures forall w :: Recognizes(dfa, w) <==> w in Lang(h)
  {
    var nfa := HirToNfa(h);
    dfa := DetermineAndMinimizeNfa(nfa);
  }
}
