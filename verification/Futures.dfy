/** Where a run of the minimal automaton stands, told by the language alone: by what can still follow. */
module Futures {
  import opened Ranges
  import opened Automata
  import opened Minimize
  import opened Brzozowski
  import opened Execute

  ghost predicate Completes(lang: Language, u: seq<Byte>, v: seq<Byte>) {
    u + v in lang
  }

  /** No non-empty beginning of `u` is a match, and a match goes on from `u`. */
  ghost predicate Open(lang: Language, u: seq<Byte>) {
    (forall k :: 0 < k <= |u| ==> u[..k] !in lang) && exists v :: Completes(lang, u, v)
  }

  /** Exactly the same words complete both to a match. */
  ghost predicate SameFuture(lang: Language, u: seq<Byte>, v: seq<Byte>) {
    Open(lang, u) && Open(lang, v) && forall x :: Completes(lang, u, x) <==> Completes(lang, v, x)
  }

  /** After reading `u` from the start, the machine stands in state `q`, without having stopped at a match. */
  ghost predicate StandsIn(m: Machine, u: seq<Byte>, q: State) {
    Go(m, AtState(m.initial), u) == Some(AtState(q))
  }

  ghost predicate Knows(d: Dfa, lang: Language) {
    forall w :: Recognizes(d, w) <==> w in lang
  }

  ghost predicate MinimalFor(m: Machine, d: Dfa, lang: Language) {
    MachineOf(m, d) && Minimal(d) && Knows(d, lang)
  }

  lemma {:induction false} GoState(m: Machine, q: State, w: seq<Byte>, r: State)
    ensures Go(m, AtState(q), w) == Some(AtState(r))
       <==> Steps(m.table, q, w) == Some(r) && NoEarly(m, q, w) && (w != [] ==> r !in m.accept)
    decreases |w|
  {
    if w != [] && (q, w[0]) in m.table {
      var n := m.table[(q, w[0])];
      NoEarlyRest(m, q, w);
      if n !in m.accept {
        GoState(m, n, w[1..], r);
      } else {
        assert |w| == 1 ==> w[1..] == [];
      }
    }
  }

  /** Standing in a state means being led there without a match on the way. */
  lemma {:induction false} StandsIs(m: Machine, d: Dfa, u: seq<Byte>, q: State)
    requires MachineOf(m, d)
    ensures StandsIn(m, u, q)
       <==> Reach(Links(d), m.initial, u, q) && forall k :: 0 < k <= |u| ==> !Recognizes(d, u[..k])
  {
    GoState(m, m.initial, u, q);
    StepsIs(d, m.table, m.initial, u, q);
    forall k | 0 < k <= |u|
      ensures Recognizes(d, u[..k])
         <==> Steps(m.table, m.initial, u[..k]).Some? && Steps(m.table, m.initial, u[..k]).value in m.accept
    {
      RecognizesSteps(m, d, u[..k]);
    }
    assert u[..|u|] == u;
  }

  ghost predicate FutureOf(d: Dfa, q: State, lang: Language, u: seq<Byte>) {
    forall v :: Residual(d, q, v) <==> Completes(lang, u, v)
  }

  lemma {:induction false} StandsFuture(m: Machine, d: Dfa, lang: Language, u: seq<Byte>, q: State)
    requires MinimalFor(m, d, lang) && StandsIn(m, u, q)
    ensures q in States(d) && FutureOf(d, q, lang, u)
  {
    StandsIs(m, d, u, q);
    EndIsState(d, m.initial, u, q);
    forall v ensures Residual(d, q, v) <==> Completes(lang, u, v) {
      ResidualIs(d, m.initial, u, q, v);
    }
  }

  lemma {:induction false} StateLive(m: Machine, d: Dfa, lang: Language, q: State, w: seq<Byte>)
    requires MinimalFor(m, d, lang) && w in lang && q in States(d)
    ensures Live(d, q)
  {
    if q == m.initial {
      ReachSelf(Links(d), m.initial);
      ResidualIs(d, m.initial, [], m.initial, w);
      assert [] + w == w;
    }
  }

  lemma {:induction false} StandsOpen(m: Machine, d: Dfa, lang: Language, u: seq<Byte>, q: State, w: seq<Byte>)
    requires MinimalFor(m, d, lang) && w in lang && StandsIn(m, u, q)
    ensures Open(lang, u)
  {
    StandsFuture(m, d, lang, u, q);
    StateLive(m, d, lang, q, w);
    var v :| Residual(d, q, v);
    assert Completes(lang, u, v);
    StandsIs(m, d, u, q);
  }

  lemma {:induction false} OpenStands(m: Machine, d: Dfa, lang: Language, u: seq<Byte>) returns (q: State)
    requires MinimalFor(m, d, lang) && Open(lang, u)
    ensures StandsIn(m, u, q)
  {
    var v :| Completes(lang, u, v);
    RecognizesSteps(m, d, u + v);
    PrefixSteps(m.table, m.initial, u + v, |u|);
    assert (u + v)[..|u|] == u;
    q := Steps(m.table, m.initial, u).value;
    StepsIs(d, m.table, m.initial, u, q);
    StandsIs(m, d, u, q);
  }

  lemma {:induction false} NotDistinguished(d: Dfa, lang: Language, u: seq<Byte>, q: State, v: seq<Byte>, r: State)
    requires FutureOf(d, q, lang, u) && FutureOf(d, r, lang, v)
    requires forall x :: Completes(lang, u, x) <==> Completes(lang, v, x)
    ensures !Distinguished(d, q, r)
  {
    forall x ensures Residual(d, q, x) == Residual(d, r, x) {
      assert Residual(d, q, x) <==> Completes(lang, u, x);
      assert Residual(d, r, x) <==> Completes(lang, v, x);
    }
  }

  ghost predicate StandTogether(m: Machine, u: seq<Byte>, v: seq<Byte>) {
    exists q :: StandsIn(m, u, q) && StandsIn(m, v, q)
  }

  lemma {:induction false} TogetherSame(m: Machine, d: Dfa, lang: Language, u: seq<Byte>, v: seq<Byte>, q: State,
                                        w: seq<Byte>)
    requires MinimalFor(m, d, lang) && w in lang && StandsIn(m, u, q) && StandsIn(m, v, q)
    ensures SameFuture(lang, u, v)
  {
    StandsOpen(m, d, lang, u, q, w);
    StandsOpen(m, d, lang, v, q, w);
    StandsFuture(m, d, lang, u, q);
    StandsFuture(m, d, lang, v, q);
  }

  lemma {:induction false} SameTogether(m: Machine, d: Dfa, lang: Language, u: seq<Byte>, v: seq<Byte>)
    requires MinimalFor(m, d, lang) && SameFuture(lang, u, v)
    ensures StandTogether(m, u, v)
  {
    var q := OpenStands(m, d, lang, u);
    var r := OpenStands(m, d, lang, v);
    StandsFuture(m, d, lang, u, q);
    StandsFuture(m, d, lang, v, r);
    NotDistinguished(d, lang, u, q, v, r);
    assert q == r;
  }

  /** Two runs stand in the same state exactly if they have the same future. */
  lemma {:induction false} SameStateIsSameFuture(m: Machine, d: Dfa, lang: Language, u: seq<Byte>, v: seq<Byte>,
                                                 w: seq<Byte>)
    requires MinimalFor(m, d, lang) && w in lang
    ensures SameFuture(lang, u, v) <==> StandTogether(m, u, v)
  {
    if q :| StandsIn(m, u, q) && StandsIn(m, v, q) {
      TogetherSame(m, d, lang, u, v, q, w);
    }
    if SameFuture(lang, u, v) {
      SameTogether(m, d, lang, u, v);
    }
  }
}
