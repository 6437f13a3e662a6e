/** From a regular expression to an automaton that accepts exactly its language. */
module Thompson {
  import opened Ranges
  import opened Automata
  import Utf8

  /** Regular expressions in high-level intermediate form. */
  datatype Hir =
    | Look
    | Empty
    | Literal(bytes: seq<Byte>)
    | Class(ranges: seq<(Byte, Byte)>)
    | UnicodeClass(chars: seq<(Utf8.Scalar, Utf8.Scalar)>)
    | Repetition(min: nat, max: Option<nat>, sub: Hir)
    | Capture(inner: Hir)
    | Concat(list: seq<Hir>)
    | Alternation(list: seq<Hir>)

  /** No look-around anywhere. */
  predicate Supported(h: Hir) {
    match h
    case Look => false
    case Empty => true
    case Literal(_) => true
    case Class(_) => true
    case UnicodeClass(_) => true
    case Repetition(_, _, sub) => Supported(sub)
    case Capture(inner) => Supported(inner)
    case Concat(list) => forall i :: 0 <= i < |list| ==> Supported(list[i])
    case Alternation(list) => forall i :: 0 <= i < |list| ==> Supported(list[i])
  }

  predicate InRanges(ranges: seq<(Byte, Byte)>, b: Byte) {
    exists i :: 0 <= i < |ranges| && ranges[i].0 <= b <= ranges[i].1
  }

  ghost function ClassLang(ranges: seq<(Byte, Byte)>): Language {
    iset b | InRanges(ranges, b) :: [b]
  }

  predicate InChars(ranges: seq<(Utf8.Scalar, Utf8.Scalar)>, c: nat) {
    exists i :: 0 <= i < |ranges| && ranges[i].0 <= c <= ranges[i].1
  }

  /** The encodings of the characters in some range. */
  ghost function CharsLang(ranges: seq<(Utf8.Scalar, Utf8.Scalar)>): Language {
    iset c: Utf8.Scalar | InChars(ranges, c) :: Utf8.Encode(c)
  }

  /** How many copies a repetition allows. */
  predicate Allows(min: nat, max: Option<nat>, n: nat) {
    min <= n && (max.Some? ==> n == min || n <= max.value)
  }

  ghost function Times(a: Language, min: nat, max: Option<nat>): Language {
    iset n: nat, w | Allows(min, max, n) && w in Power(a, n) :: w
  }

  /** The words a regular expression stands for. */
  ghost function Lang(h: Hir): Language
    requires Supported(h)
    decreases h, 1
  {
    match h
    case Empty => Only([])
    case Literal(bytes) => Only(bytes)
    case Class(ranges) => ClassLang(ranges)
    case UnicodeClass(chars) => CharsLang(chars)
    case Repetition(min, max, sub) => Times(Lang(sub), min, max)
    case Capture(inner) => Lang(inner)
    case Concat(list) => CatUpTo(h, |list|)
    case Alternation(list) => AnyUpTo(h, |list|)
  }

  ghost function CatUpTo(h: Hir, n: nat): Language
    requires h.Concat? && Supported(h) && n <= |h.list|
    decreases h, 0, n
  {
    if n == 0 then Only([]) else Cat(CatUpTo(h, n - 1), Lang(h.list[n - 1]))
  }

  ghost function AnyUpTo(h: Hir, n: nat): Language
    requires h.Alternation? && Supported(h) && n <= |h.list|
    decreases h, 0, n
  {
    if n == 0 then iset{} else AnyUpTo(h, n - 1) + Lang(h.list[n - 1])
  }

  // ---- automaton fragments ----

  ghost predicate Within(ls: set<NfaLink>, lo: State, hi: State) {
    forall l :: l in ls ==> lo <= l.from < hi && lo <= l.to < hi
  }

  /** An automaton with states in [lo, hi) that reads `lang` from `start` to `end`. */
  ghost predicate Fragment(ls: set<NfaLink>, lo: State, hi: State, start: State, end: State, lang: Language) {
    lo <= start < hi && lo <= end < hi && Within(ls, lo, hi) && Between(ls, start, end) == lang
  }

  /** A fragment under construction: nothing touches its end state yet. */
  ghost predicate Core(a: set<NfaLink>, lo: State, hi: State, start: State, end: State) {
    lo <= start < hi && lo <= end < hi && start != end && Within(a, lo, hi) && Avoids(a, end)
  }

  /** A row of items, read up to state `prev`. */
  ghost predicate Row(a: set<NfaLink>, start: State, hi: State, end: State, prev: State, lang: Language) {
    Core(a, start, hi, start, end) && start <= prev < hi && prev != end && Between(a, start, prev) == lang
  }

  /** Links by epsilon from inside the fragment to its end. */
  ghost predicate Exits(exits: set<NfaLink>, lo: State, hi: State, end: State) {
    forall l :: l in exits ==> lo <= l.from < hi && l.from != end && l.to == end && l.symbol == Epsilon
  }

  /** The words read up to the start of some exit. */
  ghost function ExitLang(a: set<NfaLink>, start: State, exits: set<NfaLink>): Language {
    iset l, w | l in exits && w in Between(a, start, l.from) :: w
  }

  lemma {:induction false} NoLinks(p: State, q: State)
    ensures Between({}, p, q) == if p == q then Only([]) else iset{}
  {
    forall w ensures Reach({}, p, w, q) <==> p == q && w == [] {
      if p == q {
        ReachSelf({}, p);
      }
    }
  }

  /** Closing a fragment. */
  lemma {:induction false} Close(a: set<NfaLink>, exits: set<NfaLink>, lo: State, hi: State, start: State, end: State)
    requires Core(a, lo, hi, start, end) && Exits(exits, lo, hi, end)
    ensures Fragment(a + exits, lo, hi, start, end, ExitLang(a, start, exits))
  {
    forall w ensures w in Between(a + exits, start, end) <==> w in ExitLang(a, start, exits) {
      Exit(a, exits, end, start, w);
      forall l | l in exits
        ensures Cat(Between(a, start, l.from), Only(SymbolWord(l.symbol))) == Between(a, start, l.from)
      {
        CatEpsilon(Between(a, start, l.from));
      }
    }
  }

  lemma {:induction false} ExitOne(a: set<NfaLink>, start: State, p: State, end: State)
    ensures ExitLang(a, start, {Link(p, end, Epsilon)}) == Between(a, start, p)
  {
    assert Link(p, end, Epsilon) in {Link(p, end, Epsilon)};
  }

  lemma {:induction false} ExitMore(a: set<NfaLink>, start: State, exits: set<NfaLink>, p: State, end: State)
    ensures ExitLang(a, start, exits + {Link(p, end, Epsilon)}) == ExitLang(a, start, exits) + Between(a, start, p)
  {
    var more := exits + {Link(p, end, Epsilon)};
    forall w | w in ExitLang(a, start, exits) + Between(a, start, p) ensures w in ExitLang(a, start, more) {
      if w in Between(a, start, p) {
        assert Link(p, end, Epsilon) in more;
      } else {
        var l :| l in exits && w in Between(a, start, l.from);
        assert l in more;
      }
    }
  }

  /** Appending a fragment by epsilon behind state `p`. */
  lemma {:induction false} Append(a: set<NfaLink>, p: State, b: set<NfaLink>, lo: State, c: State, hi: State,
                                  start: State, end: State, s: State, e: State, lang: Language)
    requires Core(a, lo, c, start, end) && lo <= p < c && p != end && Fragment(b, c, hi, s, e, lang)
    ensures Core(a + {Link(p, s, Epsilon)} + b, lo, hi, start, end)
    ensures Between(a + {Link(p, s, Epsilon)} + b, start, e) == Cat(Between(a, start, p), lang)
    ensures forall q :: lo <= q < c ==> Between(a + {Link(p, s, Epsilon)} + b, start, q) == Between(a, start, q)
  {
    ChainEpsilon(a, p, s, b, c, start, e);
    forall q | lo <= q < c ensures Between(a + {Link(p, s, Epsilon)} + b, start, q) == Between(a, start, q) {
      ChainBelow(a, Link(p, s, Epsilon), b, c, start, q);
    }
  }

  lemma {:induction false} ExitsKept(a: set<NfaLink>, after: set<NfaLink>, exits: set<NfaLink>, lo: State, c: State,
                                     start: State, end: State)
    requires Exits(exits, lo, c, end)
    requires forall q :: lo <= q < c ==> Between(after, start, q) == Between(a, start, q)
    ensures ExitLang(after, start, exits) == ExitLang(a, start, exits)
  {
    forall l | l in exits ensures Between(after, start, l.from) == Between(a, start, l.from) {
    }
  }

  /** Appending one symbol: a fresh state behind `p`. */
  lemma {:induction false} AppendSymbol(a: set<NfaLink>, p: State, lo: State, c: State, start: State, end: State,
                                        b: Byte)
    requires Core(a, lo, c, start, end) && lo <= p < c && p != end
    ensures Core(a + {Link(p, c, Symbol(b))}, lo, c + 1, start, end)
    ensures Between(a + {Link(p, c, Symbol(b))}, start, c) == Cat(Between(a, start, p), Only([b]))
  {
    var g := Link(p, c, Symbol(b));
    Chain(a, g, {}, c, start, c);
    NoLinks(c, c);
    CatEpsilon(Cat(Between(a, start, p), Only([b])));
    assert a + {g} + {} == a + {g};
  }

  /** Nothing leads back to the start state. */
  ghost predicate NoReturn(a: set<NfaLink>, start: State) {
    forall l :: l in a ==> l.to != start
  }

  lemma {:induction false} NoReturnRun(a: set<NfaLink>, start: State, run: seq<NfaLink>, p: State)
    requires NoReturn(a, start) && IsRun(a, run, p, start)
    ensures run == [] && p == start
  {
    if run != [] {
      NoReturnRun(a, start, run[1..], run[0].to);
    }
  }

  lemma {:induction false} NoReturnIs(a: set<NfaLink>, start: State)
    requires NoReturn(a, start)
    ensures Between(a, start, start) == Only([])
  {
    forall w ensures Reach(a, start, w, start) <==> w == [] {
      if Reach(a, start, w, start) {
        var run: seq<NfaLink> :| IsRun(a, run, start, start) && Word(run) == w;
        NoReturnRun(a, start, run, start);
      }
      ReachSelf(a, start);
    }
  }

  // ---- the construction ----

  lemma {:induction false} LinkSetAppend(links: seq<NfaLink>, l: NfaLink)
    ensures LinkSet(links + [l]) == LinkSet(links) + {l}
  {
  }

  lemma {:induction false} UnionAssoc(x: set<NfaLink>, y: set<NfaLink>)
    ensures forall z: set<NfaLink> :: x + y + z == x + (y + z)
  {
  }

  lemma {:induction false} Branches(all: set<NfaLink>, a: set<NfaLink>, exits: set<NfaLink>, b: set<NfaLink>,
                                    enter: set<NfaLink>, leave: set<NfaLink>)
    ensures all + (a + exits) + b + enter + leave == all + ((a + enter + b) + (exits + leave))
  {
  }

  lemma {:induction false} Regroup(a0: set<NfaLink>, added: set<NfaLink>, a: set<NfaLink>, exits: set<NfaLink>,
                                   more: set<NfaLink>, leave: set<NfaLink>)
    requires a0 + added == a + exits
    ensures a0 + (added + (more + leave)) == (a + more) + (exits + leave)
  {
  }

  /** `i` copies lead to `prev`; from the `min`-th copy on, each is followed by a way out. */
  ghost predicate OptionalState(h: Hir, a: set<NfaLink>, exits: set<NfaLink>, start: State, next: State, end: State,
                                prev: State, i: nat)
    requires h.Repetition? && Supported(h)
  {
    && Core(a, start, next, start, end) && start <= prev < next && prev != end && Exits(exits, start, next, end)
    && Between(a, start, prev) == Power(Lang(h.sub), i) && ExitLang(a, start, exits) == Copies(Lang(h.sub), h.min, i)
  }

  lemma {:induction false} CloseOptional(h: Hir, max: nat, a: set<NfaLink>, exits: set<NfaLink>, start: State,
                                         next: State, end: State, prev: State, i: nat)
    requires h.Repetition? && Supported(h) && h.max == Some(max)
    requires OptionalState(h, a, exits, start, next, end, prev, i)
    requires h.min <= i && max <= i && (i == max || i == h.min)
    ensures Fragment(a + (exits + {Link(prev, end, Epsilon)}), start, next, start, end, Lang(h))
  {
    ExitMore(a, start, exits, prev, end);
    CopiesMore(Lang(h.sub), h.min, i);
    CopiesAreTimes(Lang(h.sub), h.min, max, i);
    Close(a, exits + {Link(prev, end, Epsilon)}, start, next, start, end);
  }

  // ---- a tree of words that share the prefixes of their neighbours ----

  ghost function Encodings(cs: iset<Utf8.Scalar>): Language {
    iset c: Utf8.Scalar | c in cs :: Utf8.Encode(c)
  }

  lemma {:induction false} EncodingsMore(cs: iset<Utf8.Scalar>, c: Utf8.Scalar)
    ensures Encodings(cs + iset{c}) == Encodings(cs) + Only(Utf8.Encode(c))
  {
  }

  lemma {:induction false} InCharsMore(ranges: seq<(Utf8.Scalar, Utf8.Scalar)>, i: nat, c: Utf8.Scalar)
    requires i < |ranges|
    ensures InChars(ranges[..i + 1], c) <==> InChars(ranges[..i], c) || ranges[i].0 <= c <= ranges[i].1
  {
    assert ranges[..i + 1] == ranges[..i] + [ranges[i]];
    if InChars(ranges[..i], c) {
      var k :| 0 <= k < i && ranges[..i][k].0 <= c <= ranges[..i][k].1;
      assert ranges[..i + 1][k] == ranges[..i][k];
    }
    assert ranges[..i + 1][i] == ranges[i];
  }

  /** `p` is a state that is reached over exactly one word. */
  ghost predicate Names(a: set<NfaLink>, start: State, next: State, end: State, p: State, w: seq<Byte>) {
    start <= p < next && p != end && Between(a, start, p) == Only(w)
  }

  /** The states of `path` are reached over the prefixes of `word`. */
  ghost predicate Along(a: set<NfaLink>, start: State, next: State, end: State, word: seq<Byte>, path: seq<State>) {
    |path| <= |word| && forall k :: 0 <= k < |path| ==> Names(a, start, next, end, path[k], word[..k + 1])
  }

  /** A tree with root `start` whose exits are at the words of `lang`; `path` is the branch of `word`. */
  ghost predicate Tree(a: set<NfaLink>, exits: set<NfaLink>, start: State, next: State, end: State, word: seq<Byte>,
                       path: seq<State>, lang: Language) {
    && Core(a, start, next, start, end) && NoReturn(a, start) && Exits(exits, start, next, end)
    && ExitLang(a, start, exits) == lang && Along(a, start, next, end, word, path)
  }

  /** The walk along `word` has come to `state` after `i` bytes. */
  ghost predicate Walked(a: set<NfaLink>, start: State, next: State, end: State, known: seq<Byte>, path: seq<State>,
                         prev: seq<Byte>, word: seq<Byte>, i: nat, state: State) {
    && i <= |path| <= |known| && i <= |word| && known[..i] == word[..i] && (|path| > i ==> known == prev)
    && Names(a, start, next, end, state, word[..i])
  }

  lemma {:induction false} TreeStarts(start: State, end: State)
    requires end == start + 1
    ensures Tree({}, {}, start, end + 1, end, [], [], Encodings(iset{}))
  {
  }

  lemma {:induction false} TreeRoot(a: set<NfaLink>, exits: set<NfaLink>, start: State, next: State, end: State,
                                    prev: seq<Byte>, path: seq<State>, lang: Language)
    requires Tree(a, exits, start, next, end, prev, path, lang)
    ensures forall word: seq<Byte> :: Walked(a, start, next, end, prev, path, prev, word, 0, start)
  {
    NoReturnIs(a, start);
  }

  lemma {:induction false} TreeFollows(a: set<NfaLink>, exits: set<NfaLink>, start: State, next: State, end: State,
                                       known: seq<Byte>, path: seq<State>, lang: Language, prev: seq<Byte>,
                                       word: seq<Byte>, i: nat, state: State)
    requires Tree(a, exits, start, next, end, known, path, lang)
    requires Walked(a, start, next, end, known, path, prev, word, i, state)
    requires i < |word| && i < |path| && prev[i] == word[i]
    ensures Walked(a, start, next, end, known, path, prev, word, i + 1, path[i])
  {
    assert known[..i + 1] == known[..i] + [known[i]] && word[..i + 1] == word[..i] + [word[i]];
    assert Names(a, start, next, end, path[i], known[..i + 1]);
  }

  lemma {:induction false} TreeBranches(a: set<NfaLink>, exits: set<NfaLink>, start: State, next: State, end: State,
                                        known: seq<Byte>, path: seq<State>, lang: Language, prev: seq<Byte>,
                                        word: seq<Byte>, i: nat, state: State)
    requires Tree(a, exits, start, next, end, known, path, lang)
    requires Walked(a, start, next, end, known, path, prev, word, i, state) && i < |word|
    ensures var more := a + {Link(state, next, Symbol(word[i]))};
      && Tree(more, exits, start, next + 1, end, word[..i + 1], path[..i] + [next], lang)
      && Walked(more, start, next + 1, end, word[..i + 1], path[..i] + [next], prev, word, i + 1, next)
  {
    var g := Link(state, next, Symbol(word[i]));
    var more := a + {g};
    AppendSymbol(a, state, start, next, start, end, word[i]);
    assert more + {} == more;
    forall q | start <= q < next ensures Between(more, start, q) == Between(a, start, q) {
      ChainBelow(a, g, {}, next, start, q);
    }
    ExitsKept(a, more, exits, start, next, start, end);
    OnlyAppend(word, i);
    var path' := path[..i] + [next];
    forall k | 0 <= k < |path'| ensures Names(more, start, next + 1, end, path'[k], word[..i + 1][..k + 1]) {
      if k < i {
        assert Names(a, start, next, end, path[k], known[..k + 1]);
        assert known[..k + 1] == known[..i][..k + 1] && word[..i + 1][..k + 1] == word[..i][..k + 1];
      } else {
        assert word[..i + 1][..k + 1] == word[..i + 1];
      }
    }
  }

  lemma {:induction false} TreeCloses(a: set<NfaLink>, exits: set<NfaLink>, start: State, next: State, end: State,
                                      known: seq<Byte>, path: seq<State>, lang: Language, prev: seq<Byte>,
                                      word: seq<Byte>, state: State)
    requires Tree(a, exits, start, next, end, known, path, lang)
    requires Walked(a, start, next, end, known, path, prev, word, |word|, state)
    ensures Tree(a, exits + {Link(state, end, Epsilon)}, start, next, end, word, path[..|word|], lang + Only(word))
  {
    ExitMore(a, start, exits, state, end);
    assert word[..|word|] == word;
    forall k | 0 <= k < |word| ensures Names(a, start, next, end, path[k], word[..k + 1]) {
      assert Names(a, start, next, end, path[k], known[..k + 1]) && known[..k + 1] == known[..|word|][..k + 1];
    }
  }

  lemma {:induction false} TreeEnds(a: set<NfaLink>, exits: set<NfaLink>, start: State, next: State, end: State,
                                    word: seq<Byte>, path: seq<State>, cs: iset<Utf8.Scalar>,
                                    ranges: seq<(Utf8.Scalar, Utf8.Scalar)>)
    requires Tree(a, exits, start, next, end, word, path, Encodings(cs))
    requires forall c: Utf8.Scalar :: c in cs <==> InChars(ranges, c)
    ensures Fragment(a + exits, start, next, start, end, CharsLang(ranges))
  {
    Close(a, exits, start, next, start, end);
    assert Encodings(cs) == CharsLang(ranges);
  }

  class NfaBuilder {
    var next: State
    var links: seq<NfaLink>

    constructor ()
      ensures next == 1 && links == []
    {
      next, links := 1, [];
    }

    method Fresh() returns (s: State)
      modifies this`next
      ensures s == old(next) && next == s + 1
    {
      s := next;
      next := next + 1;
    }

    method Connect(from: State, to: State, symbol: MaybeSymbol)
      modifies this`links
      ensures LinkSet(links) == LinkSet(old(links)) + {Link(from, to, symbol)}
    {
      LinkSetAppend(links, Link(from, to, symbol));
      links := links + [Link(from, to, symbol)];
    }

    /** Adds a fragment that reads the language of `h`; `frag` are the links added. */
    method Compile(h: Hir) returns (start: State, end: State, ghost frag: set<NfaLink>)
      requires Supported(h)
      modifies this
      ensures LinkSet(links) == LinkSet(old(links)) + frag
      ensures Fragment(frag, old(next), next, start, end, Lang(h))
      decreases h, 4
    {
      start := Fresh();
      end := Fresh();
      match h
      case Empty =>
        Connect(start, end, Epsilon);
        frag := {Link(start, end, Epsilon)};
        NoLinks(start, start);
        ExitOne({}, start, start, end);
        Close({}, frag, old(next), next, start, end);
        assert {} + frag == frag;
      case Literal(bytes) =>
        frag := CompileLiteral(bytes, start, end);
      case Class(ranges) =>
        frag := CompileClass(ranges, start, end);
      case UnicodeClass(chars) =>
        frag := CompileUnicodeClass(chars, start, end);
      case Repetition(_, _, _) =>
        frag := CompileRepetition(h, start, end);
      case Capture(inner) =>
        frag := CompileCapture(h, start, end);
      case Concat(_) =>
        frag := CompileConcat(h, start, end);
      case Alternation(_) =>
        frag := CompileAlternation(h, start, end);
    }

    method CompileLiteral(bytes: seq<Byte>, start: State, end: State) returns (ghost frag: set<NfaLink>)
      requires end == start + 1 && next == start + 2
      modifies this
      ensures LinkSet(links) == LinkSet(old(links)) + frag
      ensures Fragment(frag, start, next, start, end, Only(bytes))
    {
      var prev := start;
      ghost var a: set<NfaLink> := {};
      NoLinks(start, start);
      var i := 0;
      while i < |bytes|
        invariant 0 <= i <= |bytes| && LinkSet(links) == LinkSet(old(links)) + a
        invariant Core(a, start, next, start, end) && start <= prev < next && prev != end
        invariant Between(a, start, prev) == Only(bytes[..i])
      {
        AppendSymbol(a, prev, start, next, start, end, bytes[i]);
        OnlyAppend(bytes, i);
        var s := Fresh();
        Connect(prev, s, Symbol(bytes[i]));
        a := a + {Link(prev, s, Symbol(bytes[i]))};
        prev := s;
        i := i + 1;
      }
      assert bytes[..i] == bytes;
      frag := CloseAt(a, start, prev, end);
    }

    /** Links the last state of a chain to the end. */
    method CloseAt(ghost a: set<NfaLink>, start: State, prev: State, end: State) returns (ghost frag: set<NfaLink>)
      requires Core(a, start, next, start, end) && start <= prev < next && prev != end
      modifies this`links
      ensures LinkSet(links) == LinkSet(old(links)) + {Link(prev, end, Epsilon)}
      ensures frag == a + {Link(prev, end, Epsilon)}
      ensures Fragment(frag, start, next, start, end, Between(a, start, prev))
    {
      Connect(prev, end, Epsilon);
      frag := a + {Link(prev, end, Epsilon)};
      ExitOne(a, start, prev, end);
      Close(a, {Link(prev, end, Epsilon)}, start, next, start, end);
    }

    method CompileCapture(h: Hir, start: State, end: State) returns (ghost frag: set<NfaLink>)
      requires h.Capture? && Supported(h) && end == start + 1 && next == start + 2
      modifies this
      ensures LinkSet(links) == LinkSet(old(links)) + frag
      ensures Fragment(frag, start, next, start, end, Lang(h))
      decreases h, 0
    {
      ghost var c := next;
      var s, e, b := Compile(h.inner);
      Append({}, start, b, start, c, next, start, end, s, e, Lang(h.inner));
      NoLinks(start, start);
      EpsilonCat(Lang(h.inner));
      Connect(start, s, Epsilon);
      frag := CloseAt({} + {Link(start, s, Epsilon)} + b, start, e, end);
    }

    method CompileConcat(h: Hir, start: State, end: State) returns (ghost frag: set<NfaLink>)
      requires h.Concat? && Supported(h) && end == start + 1 && next == start + 2
      modifies this
      ensures LinkSet(links) == LinkSet(old(links)) + frag
      ensures Fragment(frag, start, next, start, end, Lang(h))
      decreases h, 1
    {
      var prev := start;
      ghost var a: set<NfaLink> := {};
      NoLinks(start, start);
      var i := 0;
      while i < |h.list|
        invariant 0 <= i <= |h.list| && LinkSet(links) == LinkSet(old(links)) + a
        invariant Row(a, start, next, end, prev, CatUpTo(h, i))
      {
        prev, a := AddItem(h.list[i], start, end, prev, a, LinkSet(old(links)), CatUpTo(h, i));
        i := i + 1;
      }
      frag := CloseAt(a, start, prev, end);
    }

    /** One more item behind the row. */
    method AddItem(item: Hir, start: State, end: State, prev: State, ghost a0: set<NfaLink>, ghost base: set<NfaLink>,
                   ghost lang: Language)
      returns (last: State, ghost a: set<NfaLink>)
      requires Supported(item) && Row(a0, start, next, end, prev, lang) && LinkSet(links) == base + a0
      modifies this
      ensures Row(a, start, next, end, last, Cat(lang, Lang(item))) && LinkSet(links) == base + a
      decreases item, 5
    {
      ghost var c := next;
      var s, e, b := Compile(item);
      Append(a0, prev, b, start, c, next, start, end, s, e, Lang(item));
      Connect(prev, s, Epsilon);
      last, a := e, a0 + {Link(prev, s, Epsilon)} + b;
    }

    method CompileClass(ranges: seq<(Byte, Byte)>, start: State, end: State) returns (ghost frag: set<NfaLink>)
      requires end == start + 1 && next == start + 2
      modifies this`links
      ensures LinkSet(links) == LinkSet(old(links)) + frag
      ensures Fragment(frag, start, next, start, end, ClassLang(ranges))
    {
      ghost var bs: set<Byte> := {};
      var i := 0;
      while i < |ranges|
        invariant 0 <= i <= |ranges| && LinkSet(links) == LinkSet(old(links)) + ClassLinks(start, end, bs)
        invariant forall b :: b in bs <==> InRanges(ranges[..i], b)
      {
        ghost var more := AddRange(ranges[i], start, end);
        ClassLinksMore(start, end, bs, more);
        bs := bs + more;
        forall b ensures InRanges(ranges[..i + 1], b) <==> InRanges(ranges[..i], b) || ranges[i].0 <= b <= ranges[i].1 {
          InRangesMore(ranges, i, b);
        }
        i := i + 1;
      }
      assert ranges[..i] == ranges;
      ClassFragment(start, end, start, next, bs, ranges);
      frag := ClassLinks(start, end, bs);
    }

    /** One link per byte of an inclusive range. */
    method AddRange(range: (Byte, Byte), start: State, end: State) returns (ghost bs: set<Byte>)
      modifies this`links
      ensures forall b :: b in bs <==> range.0 <= b <= range.1
      ensures LinkSet(links) == LinkSet(old(links)) + ClassLinks(start, end, bs)
    {
      bs := {};
      var byte := range.0 as int;
      while byte <= range.1 as int
        invariant range.0 as int <= byte && (byte <= range.1 as int + 1 || byte == range.0 as int)
        invariant forall b :: b in bs <==> range.0 as int <= b as int < byte
        invariant LinkSet(links) == LinkSet(old(links)) + ClassLinks(start, end, bs)
      {
        ClassLinksMore(start, end, bs, {byte as Byte});
        Connect(start, end, Symbol(byte as Byte));
        assert ClassLinks(start, end, {byte as Byte}) == {Link(start, end, Symbol(byte as Byte))};
        bs := bs + {byte as Byte};
        byte := byte + 1;
      }
    }

    /** Adds the encodings of all characters in the ranges, sharing the states of a common prefix with the
        encoding added before. */
    method CompileUnicodeClass(ranges: seq<(Utf8.Scalar, Utf8.Scalar)>, start: State, end: State)
      returns (ghost frag: set<NfaLink>)
      requires end == start + 1 && next == start + 2
      modifies this
      ensures LinkSet(links) == LinkSet(old(links)) + frag
      ensures Fragment(frag, start, next, start, end, CharsLang(ranges))
    {
      ghost var a: set<NfaLink>, exits: set<NfaLink>, done: iset<Utf8.Scalar> := {}, {}, iset{};
      var prev: seq<Byte>, path: seq<State> := [], [];
      TreeStarts(start, end);
      var i := 0;
      while i < |ranges|
        invariant 0 <= i <= |ranges| && LinkSet(links) == LinkSet(old(links)) + (a + exits)
        invariant Tree(a, exits, start, next, end, prev, path, Encodings(done))
        invariant forall c: Utf8.Scalar :: c in done <==> InChars(ranges[..i], c)
      {
        prev, path, a, exits, done := AddChars(ranges[i], start, end, prev, path, a, exits, done, LinkSet(old(links)));
        forall c: Utf8.Scalar
          ensures InChars(ranges[..i + 1], c) <==> InChars(ranges[..i], c) || ranges[i].0 <= c <= ranges[i].1
        {
          InCharsMore(ranges, i, c);
        }
        i := i + 1;
      }
      assert ranges[..i] == ranges;
      TreeEnds(a, exits, start, next, end, prev, path, done, ranges);
      frag := a + exits;
    }

    /** The characters of one range, in order. */
    method AddChars(range: (Utf8.Scalar, Utf8.Scalar), start: State, end: State, prev0: seq<Byte>, path0: seq<State>,
                    ghost a0: set<NfaLink>, ghost exits0: set<NfaLink>, ghost done0: iset<Utf8.Scalar>,
                    ghost base: set<NfaLink>)
      returns (prev: seq<Byte>, path: seq<State>, ghost a: set<NfaLink>, ghost exits: set<NfaLink>,
               ghost done: iset<Utf8.Scalar>)
      requires Tree(a0, exits0, start, next, end, prev0, path0, Encodings(done0))
      requires LinkSet(links) == base + (a0 + exits0)
      modifies this
      ensures Tree(a, exits, start, next, end, prev, path, Encodings(done))
      ensures LinkSet(links) == base + (a + exits)
      ensures forall c: Utf8.Scalar :: c in done <==> c in done0 || range.0 <= c <= range.1
    {
      prev, path, a, exits, done := prev0, path0, a0, exits0, done0;
      var c: nat := range.0;
      while c <= range.1
        invariant range.0 <= c && (c <= range.1 + 1 || c == range.0)
        invariant Tree(a, exits, start, next, end, prev, path, Encodings(done))
        invariant LinkSet(links) == base + (a + exits)
        invariant forall s: Utf8.Scalar :: s in done <==> s in done0 || range.0 <= s < c
      {
        if Utf8.IsScalar(c) {
          path, a, exits := AddWord(Utf8.Encode(c), start, end, prev, path, a, exits, Encodings(done), base);
          prev := Utf8.Encode(c);
          EncodingsMore(done, c);
          done := done + iset{c};
        }
        c := c + 1;
      }
    }

    /** Adds one word: along the states of the word before as long as the bytes agree, then over fresh states. */
    method AddWord(word: seq<Byte>, start: State, end: State, prev: seq<Byte>, path0: seq<State>,
                   ghost a0: set<NfaLink>, ghost exits0: set<NfaLink>, ghost lang: Language, ghost base: set<NfaLink>)
      returns (path: seq<State>, ghost a: set<NfaLink>, ghost exits: set<NfaLink>)
      requires Tree(a0, exits0, start, next, end, prev, path0, lang) && LinkSet(links) == base + (a0 + exits0)
      modifies this
      ensures Tree(a, exits, start, next, end, word, path, lang + Only(word))
      ensures LinkSet(links) == base + (a + exits)
    {
      path, a, exits := path0, a0, exits0;
      ghost var known := prev;
      var state, i := start, 0;
      TreeRoot(a, exits, start, next, end, known, path, lang);
      while i < |word|
        invariant i <= |word|
        invariant Tree(a, exits, start, next, end, known, path, lang)
        invariant Walked(a, start, next, end, known, path, prev, word, i, state)
        invariant LinkSet(links) == base + (a + exits)
      {
        if i >= |path| || prev[i] != word[i] {
          TreeBranches(a, exits, start, next, end, known, path, lang, prev, word, i, state);
          var fresh' := Fresh();
          Connect(state, fresh', Symbol(word[i]));
          a := a + {Link(state, fresh', Symbol(word[i]))};
          path, known, state := path[..i] + [fresh'], word[..i + 1], fresh';
        } else {
          TreeFollows(a, exits, start, next, end, known, path, lang, prev, word, i, state);
          state := path[i];
        }
        i := i + 1;
      }
      TreeCloses(a, exits, start, next, end, known, path, lang, prev, word, state);
      Connect(state, end, Epsilon);
      exits := exits + {Link(state, end, Epsilon)};
      path := path[..|word|];
    }

    /** `min` copies in a row. */
    method CompileCopies(h: Hir, start: State, end: State) returns (prev: State, ghost a: set<NfaLink>)
      requires h.Repetition? && Supported(h) && end == start + 1 && next == start + 2
      modifies this
      ensures LinkSet(links) == LinkSet(old(links)) + a
      ensures Core(a, start, next, start, end) && start <= prev < next && prev != end
      ensures Between(a, start, prev) == Power(Lang(h.sub), h.min)
      decreases h, 1
    {
      prev, a := start, {};
      NoLinks(start, start);
      var i := 0;
      while i < h.min
        invariant 0 <= i <= h.min && LinkSet(links) == LinkSet(old(links)) + a
        invariant Core(a, start, next, start, end) && start <= prev < next && prev != end
        invariant Between(a, start, prev) == Power(Lang(h.sub), i)
      {
        ghost var added;
        UnionAssoc(LinkSet(old(links)), a);
        prev, added := AppendCopy(h, start, end, prev, a);
        a := a + added;
        i := i + 1;
      }
    }

    /** One more copy behind `prev`. */
    method AppendCopy(h: Hir, start: State, end: State, prev: State, ghost a: set<NfaLink>)
      returns (e: State, ghost added: set<NfaLink>)
      requires h.Repetition? && Supported(h)
      requires Core(a, start, next, start, end) && start <= prev < next && prev != end
      modifies this
      ensures old(next) <= next && LinkSet(links) == LinkSet(old(links)) + added
      ensures Core(a + added, start, next, start, end) && start <= e < next && e != end
      ensures Between(a + added, start, e) == Cat(Between(a, start, prev), Lang(h.sub))
      ensures forall q :: start <= q < old(next) ==> Between(a + added, start, q) == Between(a, start, q)
      decreases h, 0
    {
      ghost var c := next;
      var s;
      ghost var b;
      s, e, b := Compile(h.sub);
      Append(a, prev, b, start, c, next, start, end, s, e, Lang(h.sub));
      Connect(prev, s, Epsilon);
      added := {Link(prev, s, Epsilon)} + b;
      assert a + added == a + {Link(prev, s, Epsilon)} + b;
    }

    /** Stopping after `i` copies is one way out; another copy follows. */
    method StopOrCopy(h: Hir, start: State, end: State, prev: State, ghost a: set<NfaLink>, ghost exits: set<NfaLink>,
                      ghost i: nat)
      returns (e: State, ghost more: set<NfaLink>)
      requires h.Repetition? && Supported(h) && h.min <= i && OptionalState(h, a, exits, start, next, end, prev, i)
      modifies this
      ensures LinkSet(links) == LinkSet(old(links)) + (more + {Link(prev, end, Epsilon)})
      ensures OptionalState(h, a + more, exits + {Link(prev, end, Epsilon)}, start, next, end, e, i + 1)
      decreases h, 1
    {
      ghost var c, before := next, LinkSet(links);
      e, more := AppendCopy(h, start, end, prev, a);
      ExitsKept(a, a + more, exits, start, c, start, end);
      ExitMore(a + more, start, exits, prev, end);
      CopiesMore(Lang(h.sub), h.min, i);
      UnionAssoc(before, more);
      Connect(prev, end, Epsilon);
    }

    /** Up to `max` copies in all: after each from the `min`-th on, one may stop. */
    method CompileOptional(h: Hir, max: nat, start: State, end: State, first: State, ghost a0: set<NfaLink>)
      returns (ghost added: set<NfaLink>)
      requires h.Repetition? && Supported(h) && h.max == Some(max)
      requires Core(a0, start, next, start, end) && start <= first < next && first != end
      requires Between(a0, start, first) == Power(Lang(h.sub), h.min)
      modifies this
      ensures LinkSet(links) == LinkSet(old(links)) + added
      ensures Fragment(a0 + added, start, next, start, end, Lang(h))
      decreases h, 2
    {
      var prev := first;
      ghost var a, exits: set<NfaLink> := a0, {};
      added := {};
      var i := h.min;
      assert a0 + {} == a0;
      while i < max
        invariant h.min <= i && (i <= max || i == h.min)
        invariant LinkSet(links) == LinkSet(old(links)) + added && a0 + added == a + exits
        invariant OptionalState(h, a, exits, start, next, end, prev, i)
      {
        ghost var leave := {Link(prev, end, Epsilon)};
        var e, more := StopOrCopy(h, start, end, prev, a, exits, i);
        UnionAssoc(LinkSet(old(links)), added);
        Regroup(a0, added, a, exits, more, leave);
        added, a, exits := added + (more + leave), a + more, exits + leave;
        prev, i := e, i + 1;
      }
      ghost var leave := {Link(prev, end, Epsilon)};
      CloseOptional(h, max, a, exits, start, next, end, prev, i);
      UnionAssoc(LinkSet(old(links)), added);
      Regroup(a0, added, a, exits, {}, leave);
      assert {} + leave == leave && a + {} == a;
      Connect(prev, end, Epsilon);
      added := added + leave;
    }

    /** Any number of further copies: one more, looping back on itself. */
    method CompileStar(h: Hir, start: State, end: State, prev: State, ghost a: set<NfaLink>)
      returns (ghost added: set<NfaLink>)
      requires h.Repetition? && Supported(h) && h.max == None
      requires Core(a, start, next, start, end) && start <= prev < next && prev != end
      requires Between(a, start, prev) == Power(Lang(h.sub), h.min)
      modifies this
      ensures LinkSet(links) == LinkSet(old(links)) + added
      ensures Fragment(a + added, start, next, start, end, Lang(h))
      decreases h, 1
    {
      ghost var c := next;
      var s, e, b := Compile(h.sub);
      StarFragment(a, prev, b, start, c, next, start, end, s, e, Lang(h.sub), h.min);
      Connect(prev, s, Epsilon);
      Connect(e, s, Epsilon);
      Connect(e, end, Epsilon);
      Connect(prev, end, Epsilon);
      added := b + StarLinks(prev, s, e, end);
    }

    method CompileRepetition(h: Hir, start: State, end: State) returns (ghost frag: set<NfaLink>)
      requires h.Repetition? && Supported(h) && end == start + 1 && next == start + 2
      modifies this
      ensures LinkSet(links) == LinkSet(old(links)) + frag
      ensures Fragment(frag, start, next, start, end, Lang(h))
      decreases h, 3
    {
      var prev, a := CompileCopies(h, start, end);
      ghost var added;
      match h.max {
        case Some(max) => added := CompileOptional(h, max, start, end, prev, a);
        case None => added := CompileStar(h, start, end, prev, a);
      }
      frag := a + added;
    }

    method CompileAlternation(h: Hir, start: State, end: State) returns (ghost frag: set<NfaLink>)
      requires h.Alternation? && Supported(h) && end == start + 1 && next == start + 2
      modifies this
      ensures LinkSet(links) == LinkSet(old(links)) + frag
      ensures Fragment(frag, start, next, start, end, Lang(h))
      decreases h, 1
    {
      ghost var a: set<NfaLink>, exits: set<NfaLink> := {}, {};
      NoAlternatives(start, next, end);
      var i := 0;
      while i < |h.list|
        invariant 0 <= i <= |h.list| && LinkSet(links) == LinkSet(old(links)) + (a + exits)
        invariant Alternatives(a, exits, start, next, end, AnyUpTo(h, i))
      {
        a, exits := AddAlternative(h.list[i], start, end, a, exits, LinkSet(old(links)), AnyUpTo(h, i));
        i := i + 1;
      }
      CloseAlternatives(a, exits, start, next, end, AnyUpTo(h, i));
      frag := a + exits;
    }

    method AddAlternative(item: Hir, start: State, end: State, ghost a0: set<NfaLink>, ghost exits0: set<NfaLink>,
                          ghost base: set<NfaLink>, ghost lang: Language)
      returns (ghost a: set<NfaLink>, ghost exits: set<NfaLink>)
      requires Supported(item) && Alternatives(a0, exits0, start, next, end, lang)
      requires LinkSet(links) == base + (a0 + exits0)
      modifies this
      ensures Alternatives(a, exits, start, next, end, lang + Lang(item)) && LinkSet(links) == base + (a + exits)
      decreases item, 5
    {
      ghost var c := next;
      var s, e, b := Compile(item);
      AlternativeStep(a0, exits0, b, c, next, start, end, s, e, lang, Lang(item));
      Branches(base, a0, exits0, b, {Link(start, s, Epsilon)}, {Link(e, end, Epsilon)});
      Connect(start, s, Epsilon);
      Connect(e, end, Epsilon);
      a, exits := a0 + {Link(start, s, Epsilon)} + b, exits0 + {Link(e, end, Epsilon)};
    }
  }

  ghost function ClassLinks(start: State, end: State, bs: set<Byte>): set<NfaLink> {
    set b | b in bs :: Link(start, end, Symbol(b))
  }

  /** Parallel links from start to end read one of their symbols. */
  lemma {:induction false} ClassFragment(start: State, end: State, lo: State, hi: State, bs: set<Byte>,
                                         ranges: seq<(Byte, Byte)>)
    requires lo <= start < hi && lo <= end < hi && start != end && forall b :: b in bs <==> InRanges(ranges, b)
    ensures Fragment(ClassLinks(start, end, bs), lo, hi, start, end, ClassLang(ranges))
  {
    var ls := ClassLinks(start, end, bs);
    NoLinks(start, start);
    assert {} + ls == ls;
    forall w ensures w in Between(ls, start, end) <==> w in ClassLang(ranges) {
      Exit({}, ls, end, start, w);
      forall b ensures Cat(Between({}, start, start), Only(SymbolWord(Symbol(b)))) == Only([b]) {
        EpsilonCat(Only([b]));
      }
      if w in ClassLang(ranges) {
        var b :| InRanges(ranges, b) && w == [b];
        assert Link(start, end, Symbol(b)) in ls;
      }
    }
  }

  lemma {:induction false} ClassLinksMore(start: State, end: State, bs: set<Byte>, more: set<Byte>)
    ensures ClassLinks(start, end, bs + more) == ClassLinks(start, end, bs) + ClassLinks(start, end, more)
  {
  }

  lemma {:induction false} InRangesMore(ranges: seq<(Byte, Byte)>, i: nat, b: Byte)
    requires i < |ranges|
    ensures InRanges(ranges[..i + 1], b) <==> InRanges(ranges[..i], b) || ranges[i].0 <= b <= ranges[i].1
  {
    assert ranges[..i + 1] == ranges[..i] + [ranges[i]];
    if InRanges(ranges[..i], b) {
      var k :| 0 <= k < i && ranges[..i][k].0 <= b <= ranges[..i][k].1;
      assert ranges[..i + 1][k] == ranges[..i][k];
    }
    assert ranges[..i + 1][i] == ranges[i];
  }

  /** Between `min` and `k` copies. */
  ghost function Copies(a: Language, min: nat, k: nat): Language {
    iset n: nat, w | min <= n < k && w in Power(a, n) :: w
  }

  lemma {:induction false} CopiesMore(a: Language, min: nat, k: nat)
    requires min <= k
    ensures Copies(a, min, k + 1) == Copies(a, min, k) + Power(a, k)
  {
  }

  lemma {:induction false} CopiesAreTimes(a: Language, min: nat, max: nat, k: nat)
    requires k == if min <= max then max else min
    ensures Copies(a, min, k + 1) == Times(a, min, Some(max))
  {
    forall n: nat ensures min <= n < k + 1 <==> Allows(min, Some(max), n) {
    }
  }

  lemma {:induction false} MoreRounds(a: Language, min: nat, rounds: Language, w: seq<Byte>)
    requires forall v :: v in rounds <==> SomePower(a, v)
    requires w in Cat(Power(a, min), rounds)
    ensures w in Times(a, min, None)
  {
    var u, v :| u in Power(a, min) && v in rounds && w == u + v;
    var n: nat :| n > 0 && v in Power(a, n);
    PowerAdd(a, min, n);
    InCat(Power(a, min), Power(a, n), u, v);
    assert Allows(min, None, min + n) && w in Power(a, min + n);
  }

  lemma {:induction false} SplitTimes(a: Language, min: nat, rounds: Language, w: seq<Byte>)
    requires forall v :: v in rounds <==> SomePower(a, v)
    requires w in Times(a, min, None)
    ensures w in Power(a, min) || w in Cat(Power(a, min), rounds)
  {
    var n: nat :| Allows(min, None, n) && w in Power(a, n);
    if n > min {
      PowerAdd(a, min, n - min);
      var u, v :| u in Power(a, min) && v in Power(a, n - min) && w == u + v;
      assert SomePower(a, v);
      InCat(Power(a, min), rounds, u, v);
    }
  }

  /** `min` copies, then either none or one or more further rounds. */
  lemma {:induction false} StarIsTimes(a: Language, min: nat, rounds: Language)
    requires forall w :: w in rounds <==> SomePower(a, w)
    ensures Cat(Power(a, min), rounds) + Power(a, min) == Times(a, min, None)
  {
    forall w ensures w in Cat(Power(a, min), rounds) + Power(a, min) <==> w in Times(a, min, None) {
      if w in Cat(Power(a, min), rounds) {
        MoreRounds(a, min, rounds, w);
      } else if w in Power(a, min) {
        assert Allows(min, None, min);
      } else if w in Times(a, min, None) {
        SplitTimes(a, min, rounds, w);
      }
    }
  }

  /** A fragment whose end loops back to its start reads one or more rounds. */
  lemma {:induction false} LoopFragment(b: set<NfaLink>, lo: State, hi: State, s: State, e: State, lang: Language)
    requires Fragment(b, lo, hi, s, e, lang)
    ensures Fragment(b + {Link(e, s, Epsilon)}, lo, hi, s, e, Between(b + {Link(e, s, Epsilon)}, s, e))
    ensures forall w :: w in Between(b + {Link(e, s, Epsilon)}, s, e) <==> SomePower(lang, w)
  {
    forall w ensures w in Between(b + {Link(e, s, Epsilon)}, s, e) <==> SomePower(lang, w) {
      Loop(b, s, e, w);
    }
  }

  ghost function StarLinks(prev: State, s: State, e: State, end: State): set<NfaLink> {
    {Link(prev, s, Epsilon), Link(e, s, Epsilon), Link(e, end, Epsilon), Link(prev, end, Epsilon)}
  }

  /** `min` copies followed by a copy that loops on itself, either of them leading to the end. */
  lemma {:induction false} StarFragment(a: set<NfaLink>, prev: State, b: set<NfaLink>, lo: State, c: State, hi: State,
                                        start: State, end: State, s: State, e: State, lang: Language, min: nat)
    requires Core(a, lo, c, start, end) && lo <= prev < c && prev != end && Fragment(b, c, hi, s, e, lang)
    requires Between(a, start, prev) == Power(lang, min)
    ensures Fragment(a + (b + StarLinks(prev, s, e, end)), lo, hi, start, end, Times(lang, min, None))
  {
    var loop := b + {Link(e, s, Epsilon)};
    var rounds := Between(loop, s, e);
    var after := a + {Link(prev, s, Epsilon)} + loop;
    var exits := {Link(e, end, Epsilon)} + {Link(prev, end, Epsilon)};
    LoopFragment(b, c, hi, s, e, lang);
    Append(a, prev, loop, lo, c, hi, start, end, s, e, rounds);
    ExitOne(after, start, e, end);
    ExitMore(after, start, {Link(e, end, Epsilon)}, prev, end);
    StarIsTimes(lang, min, rounds);
    Close(after, exits, lo, hi, start, end);
    StarRegroup(a, b, prev, s, e, end);
  }

  lemma {:induction false} StarRegroup(a: set<NfaLink>, b: set<NfaLink>, prev: State, s: State, e: State, end: State)
    ensures a + (b + StarLinks(prev, s, e, end))
         == (a + {Link(prev, s, Epsilon)} + (b + {Link(e, s, Epsilon)}))
            + ({Link(e, end, Epsilon)} + {Link(prev, end, Epsilon)})
  {
  }

  /** A fragment entered from the start state, to which nothing returns. */
  lemma {:induction false} Branch(a: set<NfaLink>, b: set<NfaLink>, c: State, hi: State, start: State, end: State,
                                  s: State, e: State, lang: Language)
    requires Core(a, start, c, start, end) && NoReturn(a, start) && Fragment(b, c, hi, s, e, lang)
    ensures var after := a + {Link(start, s, Epsilon)} + b;
      && Core(after, start, hi, start, end) && NoReturn(after, start) && Between(after, start, e) == lang
      && forall q :: start <= q < c ==> Between(after, start, q) == Between(a, start, q)
  {
    Append(a, start, b, start, c, hi, start, end, s, e, lang);
    NoReturnIs(a, start);
    EpsilonCat(lang);
  }

  /** Alternatives side by side: each is entered from `start` and left over an exit of its own. */
  ghost predicate Alternatives(a: set<NfaLink>, exits: set<NfaLink>, start: State, hi: State, end: State,
                               lang: Language)
  {
    exists m: State :: m == hi && Core(a, start, m, start, end) && NoReturn(a, start)
      && Exits(exits, start, m, end) && ExitLang(a, start, exits) == lang
  }

  lemma {:induction false} NoAlternatives(start: State, hi: State, end: State)
    requires start < hi && start <= end < hi && start != end
    ensures Alternatives({}, {}, start, hi, end, iset{})
  {
    assert Core({}, start, hi, start, end);
  }

  /** One more alternative. */
  lemma {:induction false} AlternativeStep(a: set<NfaLink>, exits: set<NfaLink>, b: set<NfaLink>, c: State, hi: State,
                                           start: State, end: State, s: State, e: State, before: Language,
                                           lang: Language)
    requires Alternatives(a, exits, start, c, end, before) && Fragment(b, c, hi, s, e, lang)
    ensures Alternatives(a + {Link(start, s, Epsilon)} + b, exits + {Link(e, end, Epsilon)}, start, hi, end,
                         before + lang)
  {
    Branch(a, b, c, hi, start, end, s, e, lang);
    AlternativeExits(a, a + {Link(start, s, Epsilon)} + b, exits, c, start, end, e, lang);
  }

  lemma {:induction false} CloseAlternatives(a: set<NfaLink>, exits: set<NfaLink>, start: State, hi: State,
                                             end: State, lang: Language)
    requires Alternatives(a, exits, start, hi, end, lang)
    ensures Fragment(a + exits, start, hi, start, end, lang)
  {
    Close(a, exits, start, hi, start, end);
  }

  lemma {:induction false} AlternativeExits(a: set<NfaLink>, after: set<NfaLink>, exits: set<NfaLink>, c: State,
                                            start: State, end: State, e: State, lang: Language)
    requires Exits(exits, start, c, end) && Between(after, start, e) == lang
    requires forall q :: start <= q < c ==> Between(after, start, q) == Between(a, start, q)
    ensures ExitLang(after, start, exits + {Link(e, end, Epsilon)}) == ExitLang(a, start, exits) + lang
  {
    ExitsKept(a, after, exits, start, c, start, end);
    ExitMore(after, start, exits, e, end);
  }

  lemma {:induction false} OnlyAppend(bytes: seq<Byte>, i: nat)
    requires i < |bytes|
    ensures Cat(Only(bytes[..i]), Only([bytes[i]])) == Only(bytes[..i + 1])
  {
    assert bytes[..i + 1] == bytes[..i] + [bytes[i]];
    InCat(Only(bytes[..i]), Only([bytes[i]]), bytes[..i], [bytes[i]]);
  }

  /** The automaton of a regular expression accepts exactly its language. */
  method HirToNfa(h: Hir) returns (nfa: Nfa)
    requires Supported(h)
    ensures forall w :: Accepts(nfa, w) <==> w in Lang(h)
  {
    var builder := new NfaBuilder();
    var start, end, frag := builder.Compile(h);
    nfa := Automaton({start}, {end}, builder.links);
    assert LinkSet(nfa.links) == frag;
    forall w ensures Accepts(nfa, w) <==> w in Lang(h) {
      assert w in Between(frag, start, end) <==> w in Lang(h);
    }
  }
}
