/** Finite automata over bytes, their runs and languages. */
module Automata {
  import opened Ranges

  type State = nat

  datatype MaybeSymbol = Symbol(value: Byte) | Epsilon

  datatype Link<T> = Link(from: State, to: State, symbol: T)

  datatype Automaton<T> = Automaton(initial: set<State>, accept: set<State>, links: seq<Link<T>>)

  type NfaLink = Link<MaybeSymbol>
  type Nfa = Automaton<MaybeSymbol>
  type DfaLink = Link<Byte>
  type Dfa = Automaton<Byte>

  ghost function LinkSet<T>(links: seq<Link<T>>): set<Link<T>> {
    set l | l in links
  }

  // ---- runs ----

  function SymbolWord(s: MaybeSymbol): seq<Byte> {
    match s
    case Symbol(b) => [b]
    case Epsilon => []
  }

  ghost predicate IsRun(ls: set<NfaLink>, run: seq<NfaLink>, p: State, q: State) {
    if run == [] then p == q
    else run[0] in ls && run[0].from == p && IsRun(ls, run[1..], run[0].to, q)
  }

  ghost function Word(run: seq<NfaLink>): seq<Byte> {
    if run == [] then [] else SymbolWord(run[0].symbol) + Word(run[1..])
  }

  /** Some run over `ls` reads `w` from `p` to `q`. */
  ghost predicate Reach(ls: set<NfaLink>, p: State, w: seq<Byte>, q: State) {
    exists run :: IsRun(ls, run, p, q) && Word(run) == w
  }

  ghost predicate Accepts(nfa: Nfa, w: seq<Byte>) {
    exists p, q :: p in nfa.initial && q in nfa.accept && Reach(LinkSet(nfa.links), p, w, q)
  }

  lemma {:induction false} RunConcat(ls: set<NfaLink>, a: seq<NfaLink>, b: seq<NfaLink>, p: State, q: State, r: State)
    requires IsRun(ls, a, p, q) && IsRun(ls, b, q, r)
    ensures IsRun(ls, a + b, p, r)
  {
    if a == [] {
      assert a + b == b;
    } else {
      RunConcat(ls, a[1..], b, a[0].to, q, r);
      assert (a + b)[1..] == a[1..] + b;
    }
  }

  lemma {:induction false} ConcatAssoc(a: seq<Byte>, b: seq<Byte>, c: seq<Byte>)
    ensures (a + b) + c == a + (b + c)
  {
  }

  lemma {:induction false} WordConcat(a: seq<NfaLink>, b: seq<NfaLink>)
    ensures Word(a + b) == Word(a) + Word(b)
  {
    if a == [] {
      assert a + b == b;
    } else {
      WordConcat(a[1..], b);
      assert (a + b)[1..] == a[1..] + b && (a + b)[0] == a[0];
      ConcatAssoc(SymbolWord(a[0].symbol), Word(a[1..]), Word(b));
    }
  }

  lemma {:induction false} RunGrow(ls: set<NfaLink>, more: set<NfaLink>, run: seq<NfaLink>, p: State, q: State)
    requires IsRun(ls, run, p, q) && ls <= more
    ensures IsRun(more, run, p, q)
  {
    if run != [] {
      RunGrow(ls, more, run[1..], run[0].to, q);
    }
  }

  lemma {:induction false} ReachConcat(ls: set<NfaLink>, p: State, u: seq<Byte>, q: State, v: seq<Byte>, r: State)
    requires Reach(ls, p, u, q) && Reach(ls, q, v, r)
    ensures Reach(ls, p, u + v, r)
  {
    var a :| IsRun(ls, a, p, q) && Word(a) == u;
    var b :| IsRun(ls, b, q, r) && Word(b) == v;
    RunConcat(ls, a, b, p, q, r);
    WordConcat(a, b);
  }

  lemma {:induction false} ReachGrow(ls: set<NfaLink>, more: set<NfaLink>, p: State, w: seq<Byte>, q: State)
    requires Reach(ls, p, w, q) && ls <= more
    ensures Reach(more, p, w, q)
  {
    var run: seq<NfaLink> :| IsRun(ls, run, p, q) && Word(run) == w;
    RunGrow(ls, more, run, p, q);
  }

  lemma {:induction false} ReachSelf(ls: set<NfaLink>, p: State)
    ensures Reach(ls, p, [], p)
  {
    assert IsRun(ls, [], p, p) && Word([]) == [];
  }

  lemma {:induction false} ReachLink(ls: set<NfaLink>, l: NfaLink)
    requires l in ls
    ensures Reach(ls, l.from, SymbolWord(l.symbol), l.to)
  {
    var run := [l];
    assert run[1..] == [] && SymbolWord(l.symbol) + [] == SymbolWord(l.symbol);
    assert IsRun(ls, run, l.from, l.to) && Word(run) == SymbolWord(l.symbol);
  }

  // ---- gluing two automata with one link ----

  ghost predicate Below(ls: set<NfaLink>, c: State) {
    forall l :: l in ls ==> l.from < c && l.to < c
  }

  ghost predicate Above(ls: set<NfaLink>, c: State) {
    forall l :: l in ls ==> l.from >= c && l.to >= c
  }

  /** `a` below `c`, `b` from `c` on, and the one link `g` from `a` over to `b`. */
  ghost predicate Glued(a: set<NfaLink>, g: NfaLink, b: set<NfaLink>, c: State) {
    Below(a, c) && Above(b, c) && g.from < c <= g.to
  }

  lemma {:induction false} StaysAbove(a: set<NfaLink>, g: NfaLink, b: set<NfaLink>, c: State, run: seq<NfaLink>,
                                      p: State, q: State)
    requires Glued(a, g, b, c) && IsRun(a + {g} + b, run, p, q) && p >= c
    ensures q >= c && IsRun(b, run, p, q)
  {
    if run != [] {
      assert run[0] in b;
      StaysAbove(a, g, b, c, run[1..], run[0].to, q);
    }
  }

  /** A run from below that ends below never leaves; one that ends above crosses `g` once. */
  lemma {:induction false} CrossOnce(a: set<NfaLink>, g: NfaLink, b: set<NfaLink>, c: State, run: seq<NfaLink>,
                                     p: State, q: State) returns (k: nat)
    requires Glued(a, g, b, c) && IsRun(a + {g} + b, run, p, q) && p < c
    ensures q < c ==> IsRun(a, run, p, q)
    ensures q >= c ==> k < |run| && run[k] == g && IsRun(a, run[..k], p, g.from) && IsRun(b, run[k + 1..], g.to, q)
  {
    k := 0;
    if run != [] {
      if run[0] == g {
        StaysAbove(a, g, b, c, run[1..], g.to, q);
        assert run[..0] == [];
      } else {
        var i := CrossOnce(a, g, b, c, run[1..], run[0].to, q);
        k := i + 1;
        if q >= c {
          assert run[1..][i] == run[k] && run[..k][1..] == run[1..][..i] && run[1..][i + 1..] == run[k + 1..];
        }
      }
    }
  }

  // ---- languages ----

  type Language = iset<seq<Byte>>

  /** The words read from `p` to `q`. */
  ghost function Between(ls: set<NfaLink>, p: State, q: State): Language {
    iset w | Reach(ls, p, w, q)
  }

  ghost function Cat(a: Language, b: Language): Language {
    iset u, v | u in a && v in b :: u + v
  }

  ghost function Only(w: seq<Byte>): Language {
    iset{w}
  }

  ghost function Power(a: Language, n: nat): Language {
    if n == 0 then Only([]) else Cat(Power(a, n - 1), a)
  }

  lemma {:induction false} InCat(a: Language, b: Language, u: seq<Byte>, v: seq<Byte>)
    requires u in a && v in b
    ensures u + v in Cat(a, b)
  {
  }

  lemma {:induction false} CatEpsilon(a: Language)
    ensures Cat(a, Only([])) == a
  {
    forall u | u in a ensures u in Cat(a, Only([])) {
      assert u + [] == u;
      InCat(a, Only([]), u, []);
    }
    forall w | w in Cat(a, Only([])) ensures w in a {
      var u, v :| u in a && v in Only([]) && w == u + v;
      assert u + [] == u;
    }
  }

  lemma {:induction false} EpsilonCat(a: Language)
    ensures Cat(Only([]), a) == a
  {
    forall u | u in a ensures u in Cat(Only([]), a) {
      InCat(Only([]), a, [], u);
      assert [] + u == u;
    }
    forall w | w in Cat(Only([]), a) ensures w in a {
      var u, v :| u in Only([]) && v in a && w == u + v;
      assert [] + v == v;
    }
  }

  /** Powers add up. */
  lemma {:induction false} PowerAdd(a: Language, m: nat, n: nat)
    ensures Power(a, m + n) == Cat(Power(a, m), Power(a, n))
  {
    if n == 0 {
      CatEpsilon(Power(a, m));
    } else {
      PowerAdd(a, m, n - 1);
      CatAssoc(Power(a, m), Power(a, n - 1), a);
    }
  }

  lemma {:induction false} CatAssoc(a: Language, b: Language, c: Language)
    ensures Cat(Cat(a, b), c) == Cat(a, Cat(b, c))
  {
    forall w | w in Cat(Cat(a, b), c) ensures w in Cat(a, Cat(b, c)) {
      var x, v :| x in Cat(a, b) && v in c && w == x + v;
      var t, u :| t in a && u in b && x == t + u;
      InCat(b, c, u, v);
      InCat(a, Cat(b, c), t, u + v);
      assert t + (u + v) == (t + u) + v;
    }
    forall w | w in Cat(a, Cat(b, c)) ensures w in Cat(Cat(a, b), c) {
      var t, x :| t in a && x in Cat(b, c) && w == t + x;
      var u, v :| u in b && v in c && x == u + v;
      InCat(a, b, t, u);
      InCat(Cat(a, b), c, t + u, v);
      assert t + (u + v) == (t + u) + v;
    }
  }

  // ---- languages of glued automata ----

  lemma {:induction false} SplitWord(run: seq<NfaLink>, k: nat)
    requires k < |run|
    ensures Word(run) == Word(run[..k]) + SymbolWord(run[k].symbol) + Word(run[k + 1..])
  {
    assert run == run[..k] + run[k..];
    assert run[k..][1..] == run[k + 1..];
    WordConcat(run[..k], run[k..]);
  }

  /** From below to above: through `a` to the glue, over it, and on through `b`. */
  lemma {:induction false} Chain(a: set<NfaLink>, g: NfaLink, b: set<NfaLink>, c: State, p: State, q: State)
    requires Glued(a, g, b, c) && p < c <= q
    ensures Between(a + {g} + b, p, q)
         == Cat(Cat(Between(a, p, g.from), Only(SymbolWord(g.symbol))), Between(b, g.to, q))
  {
    var all := a + {g} + b;
    var head := Cat(Between(a, p, g.from), Only(SymbolWord(g.symbol)));
    forall w | Reach(all, p, w, q) ensures w in Cat(head, Between(b, g.to, q)) {
      var run: seq<NfaLink> :| IsRun(all, run, p, q) && Word(run) == w;
      var k := CrossOnce(a, g, b, c, run, p, q);
      SplitWord(run, k);
      assert Reach(a, p, Word(run[..k]), g.from) && Reach(b, g.to, Word(run[k + 1..]), q);
      InCat(Between(a, p, g.from), Only(SymbolWord(g.symbol)), Word(run[..k]), SymbolWord(g.symbol));
      InCat(head, Between(b, g.to, q), Word(run[..k]) + SymbolWord(g.symbol), Word(run[k + 1..]));
    }
    forall w | w in Cat(head, Between(b, g.to, q)) ensures Reach(all, p, w, q) {
      ChainBack(a, g, b, p, w, q);
    }
  }

  lemma {:induction false} ChainBack(a: set<NfaLink>, g: NfaLink, b: set<NfaLink>, p: State, w: seq<Byte>, q: State)
    requires w in Cat(Cat(Between(a, p, g.from), Only(SymbolWord(g.symbol))), Between(b, g.to, q))
    ensures Reach(a + {g} + b, p, w, q)
  {
    var all := a + {g} + b;
    var x, v :| x in Cat(Between(a, p, g.from), Only(SymbolWord(g.symbol))) && v in Between(b, g.to, q) && w == x + v;
    var u, m :| u in Between(a, p, g.from) && m in Only(SymbolWord(g.symbol)) && x == u + m;
    ReachGrow(a, all, p, u, g.from);
    ReachGrow(b, all, g.to, v, q);
    ReachLink(all, g);
    ReachConcat(all, p, u, g.from, m, g.to);
    ReachConcat(all, p, x, g.to, v, q);
  }

  lemma {:induction false} ChainEpsilon(a: set<NfaLink>, from: State, to: State, b: set<NfaLink>, c: State, p: State,
                                        q: State)
    requires Glued(a, Link(from, to, Epsilon), b, c) && p < c <= q
    ensures Between(a + {Link(from, to, Epsilon)} + b, p, q) == Cat(Between(a, p, from), Between(b, to, q))
  {
    Chain(a, Link(from, to, Epsilon), b, c, p, q);
    CatEpsilon(Between(a, p, from));
  }

  /** Gluing something on above changes nothing below. */
  lemma {:induction false} ChainBelow(a: set<NfaLink>, g: NfaLink, b: set<NfaLink>, c: State, p: State, q: State)
    requires Glued(a, g, b, c) && p < c && q < c
    ensures Between(a + {g} + b, p, q) == Between(a, p, q)
  {
    var all := a + {g} + b;
    forall w | Reach(all, p, w, q) ensures Reach(a, p, w, q) {
      var run: seq<NfaLink> :| IsRun(all, run, p, q) && Word(run) == w;
      var k := CrossOnce(a, g, b, c, run, p, q);
    }
    forall w | Reach(a, p, w, q) ensures Reach(all, p, w, q) {
      ReachGrow(a, all, p, w, q);
    }
  }

  // ---- leaving through links into a fresh end state ----

  ghost predicate Avoids(ls: set<NfaLink>, s: State) {
    forall l :: l in ls ==> l.from != s && l.to != s
  }

  ghost predicate AllInto(exits: set<NfaLink>, end: State) {
    forall l :: l in exits ==> l.to == end && l.from != end
  }

  lemma {:induction false} EndIsFinal(a: set<NfaLink>, exits: set<NfaLink>, end: State, run: seq<NfaLink>, q: State)
    requires Avoids(a, end) && AllInto(exits, end) && IsRun(a + exits, run, end, q)
    ensures run == []
  {
  }

  lemma {:induction false} ExitLast(a: set<NfaLink>, exits: set<NfaLink>, end: State, run: seq<NfaLink>, p: State)
    requires Avoids(a, end) && AllInto(exits, end) && IsRun(a + exits, run, p, end) && p != end
    ensures run != [] && run[|run| - 1] in exits && IsRun(a, run[..|run| - 1], p, run[|run| - 1].from)
  {
    var rest := run[1..];
    if run[0].to == end {
      EndIsFinal(a, exits, end, rest, end);
      assert run == [run[0]] && run[..0] == [];
    } else {
      ExitLast(a, exits, end, rest, run[0].to);
      assert run[..|run| - 1][1..] == rest[..|rest| - 1];
    }
  }

  /** The words that lead to a fresh end state: through `a` to the start of some exit, then over it. */
  lemma {:induction false} Exit(a: set<NfaLink>, exits: set<NfaLink>, end: State, p: State, w: seq<Byte>)
    requires Avoids(a, end) && AllInto(exits, end) && p != end
    ensures w in Between(a + exits, p, end)
       <==> exists l :: l in exits && w in Cat(Between(a, p, l.from), Only(SymbolWord(l.symbol)))
  {
    var all := a + exits;
    if Reach(all, p, w, end) {
      var run: seq<NfaLink> :| IsRun(all, run, p, end) && Word(run) == w;
      ExitLast(a, exits, end, run, p);
      var n := |run| - 1;
      SplitWord(run, n);
      assert run[n + 1..] == [] && w == Word(run[..n]) + SymbolWord(run[n].symbol);
      assert Reach(a, p, Word(run[..n]), run[n].from);
      InCat(Between(a, p, run[n].from), Only(SymbolWord(run[n].symbol)), Word(run[..n]), SymbolWord(run[n].symbol));
    }
    if l :| l in exits && w in Cat(Between(a, p, l.from), Only(SymbolWord(l.symbol))) {
      var u, m :| u in Between(a, p, l.from) && m in Only(SymbolWord(l.symbol)) && w == u + m;
      ReachGrow(a, all, p, u, l.from);
      ReachLink(all, l);
      ReachConcat(all, p, u, l.from, m, end);
    }
  }

  // ---- looping back ----

  /** One or more rounds. */
  ghost predicate SomePower(a: Language, w: seq<Byte>) {
    exists n: nat :: n > 0 && w in Power(a, n)
  }

  /** The last time a run loops back. */
  lemma {:induction false} LastBack(b: set<NfaLink>, back: NfaLink, run: seq<NfaLink>, p: State, q: State)
    returns (k: nat)
    requires IsRun(b + {back}, run, p, q)
    ensures IsRun(b, run, p, q) || (k < |run| && run[k] == back && IsRun(b + {back}, run[..k], p, back.from)
                                    && IsRun(b, run[k + 1..], back.to, q))
  {
    k := 0;
    if run != [] {
      var rest := run[1..];
      k := LastBack(b, back, rest, run[0].to, q);
      if IsRun(b, rest, run[0].to, q) {
        k := 0;
        assert run[..0] == [];
      } else {
        assert rest[k] == run[k + 1] && run[..k + 1][1..] == rest[..k] && rest[k + 1..] == run[k + 2..];
        k := k + 1;
      }
    }
  }

  lemma {:induction false} OnePower(a: Language, w: seq<Byte>)
    requires w in a
    ensures SomePower(a, w)
  {
    InCat(Only([]), a, [], w);
    assert [] + w == w && Power(a, 0) == Only([]);
    assert w in Power(a, 1);
  }

  lemma {:induction false} NextPower(a: Language, u: seq<Byte>, v: seq<Byte>)
    requires SomePower(a, u) && v in a
    ensures SomePower(a, u + v)
  {
    var n: nat :| n > 0 && u in Power(a, n);
    InCat(Power(a, n), a, u, v);
    assert u + v in Power(a, n + 1);
  }

  lemma {:induction false} LoopRounds(b: set<NfaLink>, s: State, e: State, run: seq<NfaLink>)
    requires IsRun(b + {Link(e, s, Epsilon)}, run, s, e)
    ensures SomePower(Between(b, s, e), Word(run))
    decreases |run|
  {
    var back, round := Link(e, s, Epsilon), Between(b, s, e);
    var k := LastBack(b, back, run, s, e);
    if IsRun(b, run, s, e) {
      assert Reach(b, s, Word(run), e);
      OnePower(round, Word(run));
    } else {
      LoopRounds(b, s, e, run[..k]);
      SplitWord(run, k);
      assert Reach(b, s, Word(run[k + 1..]), e);
      NextPower(round, Word(run[..k]), Word(run[k + 1..]));
      assert Word(run) == Word(run[..k]) + Word(run[k + 1..]);
    }
  }

  lemma {:induction false} RoundsLoop(b: set<NfaLink>, s: State, e: State, n: nat, w: seq<Byte>)
    requires n > 0 && w in Power(Between(b, s, e), n)
    ensures Reach(b + {Link(e, s, Epsilon)}, s, w, e)
  {
    var all, round := b + {Link(e, s, Epsilon)}, Between(b, s, e);
    var u, v :| u in Power(round, n - 1) && v in round && w == u + v;
    ReachGrow(b, all, s, v, e);
    if n == 1 {
      assert w == v;
    } else {
      RoundsLoop(b, s, e, n - 1, u);
      ReachLink(all, Link(e, s, Epsilon));
      ReachConcat(all, s, u, e, [], s);
      assert u + [] == u;
      ReachConcat(all, s, u, s, v, e);
    }
  }

  /** Linking the end back to the start reads one or more rounds. */
  lemma {:induction false} Loop(b: set<NfaLink>, s: State, e: State, w: seq<Byte>)
    ensures w in Between(b + {Link(e, s, Epsilon)}, s, e) <==> SomePower(Between(b, s, e), w)
  {
    if Reach(b + {Link(e, s, Epsilon)}, s, w, e) {
      var run: seq<NfaLink> :| IsRun(b + {Link(e, s, Epsilon)}, run, s, e) && Word(run) == w;
      LoopRounds(b, s, e, run);
    }
    if n: nat :| n > 0 && w in Power(Between(b, s, e), n) {
      RoundsLoop(b, s, e, n, w);
    }
  }
}
