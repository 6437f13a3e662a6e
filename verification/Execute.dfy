/** Running deterministic automata: step by step over the links, and through a transition table. */
module Execute {
  import opened Ranges
  import opened Automata
  import opened Minimize

  // ---- the shortest accepted prefix ----

  /** The link out of `state` over `symbol`, if there is one. */
  method FindLink(d: Dfa, state: State, symbol: Byte) returns (r: Option<DfaLink>)
    ensures r.Some? ==> r.value in d.links && r.value.from == state && r.value.symbol == symbol
    ensures r.None? ==> forall l :: l in d.links ==> !(l.from == state && l.symbol == symbol)
  {
    var i := 0;
    while i < |d.links|
      invariant 0 <= i <= |d.links|
      invariant forall k :: 0 <= k < i ==> !(d.links[k].from == state && d.links[k].symbol == symbol)
    {
      if d.links[i].from == state && d.links[i].symbol == symbol {
        return Some(d.links[i]);
      }
      i := i + 1;
    }
    r := None;
  }

  lemma {:induction false} RecognizesIs(d: Dfa, p: State, w: seq<Byte>, q: State)
    requires Deterministic(d) && d.initial == {p} && Reach(Links(d), p, w, q)
    ensures Recognizes(d, w) <==> q in d.accept
  {
    if f :| f in d.accept && Reach(Links(d), p, w, f) {
      ReachUnique(d, p, w, q, f);
    }
  }

  lemma {:induction false} FollowLink(d: Dfa, p: State, w: seq<Byte>, l: DfaLink)
    requires Reach(Links(d), p, w, l.from) && l in d.links
    ensures Reach(Links(d), p, w + [l.symbol], l.to)
  {
    var k := IntoNfaLink(l);
    LinksIs(d, k);
    ReachLink(Links(d), k);
    ReachConcat(Links(d), p, w, l.from, [l.symbol], l.to);
  }

  /** Without a link over `c` nothing that goes on with `c` is recognized. */
  lemma {:induction false} Stuck(d: Dfa, p: State, u: seq<Byte>, q: State, c: Byte, v: seq<Byte>)
    requires Deterministic(d) && d.initial == {p} && Reach(Links(d), p, u, q)
    requires forall l :: l in d.links ==> !(l.from == q && l.symbol == c)
    ensures !Recognizes(d, u + [c] + v)
  {
    if Recognizes(d, u + [c] + v) {
      var f :| f in d.accept && Reach(Links(d), p, u + [c] + v, f);
      var run: seq<NfaLink> :| IsRun(Links(d), run, p, f) && Word(run) == u + [c] + v;
      LinksNoEpsilon(d);
      var r := RunSplit(Links(d), run, p, f, u + [c], v);
      var l := LastLink(d, p, u, c, r);
      ReachUnique(d, p, u, q, l.from);
    }
  }

  lemma {:induction false} StuckAt(d: Dfa, p: State, haystack: seq<Byte>, i: nat, q: State, k: nat)
    requires Deterministic(d) && d.initial == {p} && i < k <= |haystack| && Reach(Links(d), p, haystack[..i], q)
    requires forall l :: l in d.links ==> !(l.from == q && l.symbol == haystack[i])
    ensures !Recognizes(d, haystack[..k])
  {
    Stuck(d, p, haystack[..i], q, haystack[i], haystack[i + 1..k]);
    assert haystack[..i] + [haystack[i]] + haystack[i + 1..k] == haystack[..k];
  }

  /** No prefix up to `n`, exclusively, is recognized. */
  ghost predicate NonePrefix(d: Dfa, haystack: seq<Byte>, n: nat)
    requires n <= |haystack| + 1
  {
    forall k :: 0 <= k < n ==> !Recognizes(d, haystack[..k])
  }

  /** What the loop knows at byte `i`: where it stands, and that no shorter prefix is recognized. */
  ghost predicate At(d: Dfa, start: State, haystack: seq<Byte>, i: nat, state: State) {
    && i <= |haystack| && Reach(Links(d), start, haystack[..i], state) && NonePrefix(d, haystack, i)
  }

  lemma {:induction false} AtAccepts(d: Dfa, start: State, haystack: seq<Byte>, i: nat, state: State)
    requires Deterministic(d) && d.initial == {start} && At(d, start, haystack, i, state)
    ensures state in d.accept <==> Recognizes(d, haystack[..i])
    ensures state !in d.accept ==> NonePrefix(d, haystack, i + 1)
  {
    RecognizesIs(d, start, haystack[..i], state);
  }

  lemma {:induction false} AtStuck(d: Dfa, start: State, haystack: seq<Byte>, i: nat, state: State)
    requires Deterministic(d) && d.initial == {start} && At(d, start, haystack, i, state) && i < |haystack|
    requires state !in d.accept
    requires forall l :: l in d.links ==> !(l.from == state && l.symbol == haystack[i])
    ensures NonePrefix(d, haystack, |haystack| + 1)
  {
    AtAccepts(d, start, haystack, i, state);
    forall k | i < k <= |haystack| ensures !Recognizes(d, haystack[..k]) {
      StuckAt(d, start, haystack, i, state, k);
    }
  }

  lemma {:induction false} AtNext(d: Dfa, start: State, haystack: seq<Byte>, i: nat, l: DfaLink)
    requires Deterministic(d) && d.initial == {start} && At(d, start, haystack, i, l.from) && i < |haystack|
    requires l in d.links && l.symbol == haystack[i] && l.from !in d.accept
    ensures At(d, start, haystack, i + 1, l.to)
  {
    AtAccepts(d, start, haystack, i, l.from);
    FollowLink(d, start, haystack[..i], l);
    assert haystack[..i] + [haystack[i]] == haystack[..i + 1];
  }

  /** The length of the shortest recognized prefix. */
  method ExecuteDfa(d: Dfa, haystack: seq<Byte>) returns (r: Option<nat>)
    requires Deterministic(d) && exists q :: d.initial == {q}
    ensures r.Some? ==> r.value <= |haystack| && Recognizes(d, haystack[..r.value]) && NonePrefix(d, haystack, r.value)
    ensures r.None? ==> NonePrefix(d, haystack, |haystack| + 1)
  {
    var start :| start in d.initial;
    var state := start;
    var i := 0;
    ReachSelf(Links(d), start);
    while i < |haystack|
      invariant 0 <= i <= |haystack| && At(d, start, haystack, i, state)
    {
      AtAccepts(d, start, haystack, i, state);
      if state in d.accept {
        return Some(i);
      }
      var found := FindLink(d, state, haystack[i]);
      if found.None? {
        AtStuck(d, start, haystack, i, state);
        return None;
      }
      AtNext(d, start, haystack, i, found.value);
      state := found.value.to;
      i := i + 1;
    }
    AtAccepts(d, start, haystack, i, state);
    r := if state in d.accept then Some(|haystack|) else None;
  }

  // ---- transition tables ----

  type Table = map<(State, Byte), State>

  ghost predicate TableOf(t: Table, links: seq<DfaLink>) {
    && (forall l :: l in links ==> (l.from, l.symbol) in t && t[(l.from, l.symbol)] == l.to)
    && (forall k :: k in t ==> Link(k.0, t[k], k.1) in links)
  }

  lemma {:induction false} TableAdd(t: Table, links: seq<DfaLink>, l: DfaLink)
    requires TableOf(t, links)
    requires forall k :: k in links && k.from == l.from && k.symbol == l.symbol ==> k.to == l.to
    ensures TableOf(t[(l.from, l.symbol) := l.to], links + [l])
  {
  }

  method BuildTable(d: Dfa) returns (t: Table)
    requires Deterministic(d)
    ensures TableOf(t, d.links)
  {
    t := map[];
    var i := 0;
    while i < |d.links|
      invariant 0 <= i <= |d.links| && TableOf(t, d.links[..i])
    {
      var l := d.links[i];
      TableAdd(t, d.links[..i], l);
      assert d.links[..i] + [l] == d.links[..i + 1];
      t := t[(l.from, l.symbol) := l.to];
      i := i + 1;
    }
    assert d.links[..i] == d.links;
  }

  function Steps(t: Table, q: State, w: seq<Byte>): Option<State>
    decreases |w|
  {
    if w == [] then Some(q)
    else if (q, w[0]) in t then Steps(t, t[(q, w[0])], w[1..])
    else None
  }

  lemma {:induction false} FirstLink(d: Dfa, p: State, w: seq<Byte>, q: State) returns (l: DfaLink)
    requires Reach(Links(d), p, w, q) && w != []
    ensures l in d.links && l.from == p && l.symbol == w[0] && Reach(Links(d), l.to, w[1..], q)
  {
    var run: seq<NfaLink> :| IsRun(Links(d), run, p, q) && Word(run) == w;
    LinksIs(d, run[0]);
    assert SymbolWord(run[0].symbol) == w[..1];
    assert run[0].symbol.value == w[0] by {
      assert [run[0].symbol.value][0] == w[..1][0];
    }
    assert Word(run[1..]) == w[1..];
    l := Link(p, run[0].to, w[0]);
  }

  /** Stepping through the table is reaching over the links. */
  lemma {:induction false} StepsIs(d: Dfa, t: Table, q: State, w: seq<Byte>, r: State)
    requires TableOf(t, d.links)
    ensures Steps(t, q, w) == Some(r) <==> Reach(Links(d), q, w, r)
    decreases |w|
  {
    if w == [] {
      ReachSelf(Links(d), q);
      if Reach(Links(d), q, [], r) {
        EmptyWord(d, q, r);
      }
    } else {
      if Reach(Links(d), q, w, r) {
        var l := FirstLink(d, q, w, r);
        StepsIs(d, t, l.to, w[1..], r);
      }
      if Steps(t, q, w) == Some(r) {
        StepsReach(d, t, q, w, r);
      }
    }
  }

  lemma {:induction false} StepsReach(d: Dfa, t: Table, q: State, w: seq<Byte>, r: State)
    requires TableOf(t, d.links) && Steps(t, q, w) == Some(r)
    ensures Reach(Links(d), q, w, r)
    decreases |w|
  {
    if w == [] {
      ReachSelf(Links(d), q);
    } else {
      var n := t[(q, w[0])];
      StepsReach(d, t, n, w[1..], r);
      ReachSelf(Links(d), q);
      FollowLink(d, q, [], Link(q, n, w[0]));
      ReachConcat(Links(d), q, [] + [w[0]], n, w[1..], r);
      assert [] + [w[0]] + w[1..] == w;
    }
  }

  // ---- stopping at the first acceptance ----

  /** Where a run stands: stopped at an accepting state, or at another state. */
  datatype Handle = Tip | AtState(state: State)

  datatype Machine = Machine(initial: State, accept: set<State>, table: Table)

  function Stand(m: Machine, q: State): Handle {
    if q in m.accept then Tip else AtState(q)
  }

  /** Where reading `w` leads; there is no way on from a tip. */
  function Go(m: Machine, h: Handle, w: seq<Byte>): Option<Handle>
    decreases |w|
  {
    if w == [] then Some(h)
    else if h.Tip? || (h.state, w[0]) !in m.table then None
    else Go(m, Stand(m, m.table[(h.state, w[0])]), w[1..])
  }

  lemma {:induction false} GoConcat(m: Machine, h: Handle, u: seq<Byte>, v: seq<Byte>)
    ensures Go(m, h, u + v) == match Go(m, h, u) case None => None case Some(g) => Go(m, g, v)
    decreases |u|
  {
    if u == [] {
      assert u + v == v;
    } else {
      assert (u + v)[1..] == u[1..] + v && (u + v)[0] == u[0];
      if h.AtState? && (h.state, u[0]) in m.table {
        GoConcat(m, Stand(m, m.table[(h.state, u[0])]), u[1..], v);
      }
    }
  }

  /** No accepting state after a non-empty proper prefix. */
  ghost predicate NoEarly(m: Machine, q: State, w: seq<Byte>) {
    forall k :: 0 < k < |w| && Steps(m.table, q, w[..k]).Some? ==> Steps(m.table, q, w[..k]).value !in m.accept
  }

  lemma {:induction false} NoEarlyRest(m: Machine, q: State, w: seq<Byte>)
    requires w != [] && (q, w[0]) in m.table
    ensures var r := m.table[(q, w[0])];
      NoEarly(m, q, w) <==> NoEarly(m, r, w[1..]) && (|w| > 1 ==> r !in m.accept)
  {
    var r := m.table[(q, w[0])];
    forall k | 0 < k <= |w| ensures Steps(m.table, q, w[..k]) == Steps(m.table, r, w[1..][..k - 1]) {
      assert w[..k][1..] == w[1..][..k - 1];
    }
    assert w[1..][..0] == [];
    if NoEarly(m, q, w) {
      if |w| > 1 {
        var k := 1;
        assert Steps(m.table, q, w[..k]) == Steps(m.table, r, w[1..][..k - 1]);
      }
      forall j | 0 < j < |w[1..]| && Steps(m.table, r, w[1..][..j]).Some?
        ensures Steps(m.table, r, w[1..][..j]).value !in m.accept
      {
        var k := j + 1;
        assert Steps(m.table, q, w[..k]) == Steps(m.table, r, w[1..][..k - 1]);
      }
    }
    if NoEarly(m, r, w[1..]) && (|w| > 1 ==> r !in m.accept) {
      forall k | 0 < k < |w| && Steps(m.table, q, w[..k]).Some? ensures Steps(m.table, q, w[..k]).value !in m.accept {
        var j := k - 1;
        assert Steps(m.table, q, w[..k]) == Steps(m.table, r, w[1..][..j]);
      }
    }
  }

  /** A run stops at a tip exactly if the word, but no proper prefix, leads to an accepting state. */
  lemma {:induction false} GoTip(m: Machine, q: State, w: seq<Byte>)
    ensures Go(m, AtState(q), w) == Some(Tip)
       <==> w != [] && Steps(m.table, q, w).Some? && Steps(m.table, q, w).value in m.accept && NoEarly(m, q, w)
    decreases |w|
  {
    if w != [] && (q, w[0]) in m.table {
      var r := m.table[(q, w[0])];
      NoEarlyRest(m, q, w);
      if r !in m.accept {
        GoTip(m, r, w[1..]);
      } else {
        assert |w| == 1 ==> w[1..] == [];
      }
    }
  }

  ghost predicate MachineOf(m: Machine, d: Dfa) {
    TableOf(m.table, d.links) && m.accept == d.accept && d.initial == {m.initial}
  }

  lemma {:induction false} RecognizesSteps(m: Machine, d: Dfa, w: seq<Byte>)
    requires MachineOf(m, d)
    ensures Recognizes(d, w) <==> Steps(m.table, m.initial, w).Some? && Steps(m.table, m.initial, w).value in m.accept
  {
    if f :| f in d.accept && Reach(Links(d), m.initial, w, f) {
      StepsIs(d, m.table, m.initial, w, f);
    }
    if Steps(m.table, m.initial, w).Some? {
      StepsIs(d, m.table, m.initial, w, Steps(m.table, m.initial, w).value);
    }
  }

  /** Recognized, not empty, and with no recognized non-empty proper prefix. */
  ghost predicate Shortest(d: Dfa, w: seq<Byte>) {
    w != [] && Recognizes(d, w) && forall k :: 0 < k < |w| ==> !Recognizes(d, w[..k])
  }

  lemma {:induction false} PrefixSteps(t: Table, q: State, w: seq<Byte>, k: nat)
    requires k <= |w| && Steps(t, q, w).Some?
    ensures Steps(t, q, w[..k]).Some?
    decreases |w|
  {
    if k > 0 {
      assert w[..k][1..] == w[1..][..k - 1];
      PrefixSteps(t, t[(q, w[0])], w[1..], k - 1);
    }
  }

  /** Stopping at a tip means having read a shortest match. */
  lemma {:induction false} TipIsShortest(m: Machine, d: Dfa, w: seq<Byte>)
    requires MachineOf(m, d)
    ensures Go(m, AtState(m.initial), w) == Some(Tip) <==> Shortest(d, w)
  {
    GoTip(m, m.initial, w);
    RecognizesSteps(m, d, w);
    forall k | 0 < k < |w|
      ensures Recognizes(d, w[..k])
         <==> Steps(m.table, m.initial, w[..k]).Some? && Steps(m.table, m.initial, w[..k]).value in m.accept
    {
      RecognizesSteps(m, d, w[..k]);
    }
  }
}
