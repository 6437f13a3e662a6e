/** Which starts of matches are reported, told by the language, the history and the leaves of the database. */
module ReportedStarts {
  import opened Ranges
  import opened MemoryDb
  import D = Disjoint
  import opened Automata
  import opened Execute
  import opened Futures
  import opened SearchLeaf
  import opened SearchChain
  import opened SearchZone
  import opened SearchStarts
  import opened SearchMemory

  /** A word of the language with no non-empty proper prefix in it. */
  ghost predicate ShortestIn(lang: Language, w: seq<Byte>) {
    w != [] && w in lang && forall k :: 0 < k < |w| ==> w[..k] !in lang
  }

  ghost predicate MachineFor(m: Machine, lang: Language) {
    forall w :: Go(m, AtState(m.initial), w) == Some(Tip) <==> ShortestIn(lang, w)
  }

  // ---- the condition ----

  /** Some leaf of the database ends at address `y`, at time `t`. */
  ghost predicate LeafEndsAt(db: Db, y: int, t: Time) {
    exists leaf :: leaf in db.Leaves() && leaf.node.addrMax as int == y && leaf.node.Times().Contains(t)
  }

  /** Where a leaf ends after `n` bytes of the match, exactly the words of the language itself can follow. */
  ghost predicate RestartsAt(lang: Language, db: Db, s: int, w: seq<Byte>, t: Time, n: nat) {
    0 < n < |w| && LeafEndsAt(db, s + n - 1, t) && SameFuture(lang, w[..n], [])
  }

  ghost predicate Restarts(lang: Language, db: Db, s: int, w: seq<Byte>, t: Time) {
    exists n :: RestartsAt(lang, db, s, w, t, n)
  }

  /** From no earlier byte up to the leaf's end the same words can follow. */
  ghost predicate FirstToLeave(lang: Language, bytes: seq<Byte>, i: nat)
    requires i < |bytes|
  {
    forall e :: 0 <= e < i ==> !SameFuture(lang, bytes[e..], bytes[i..])
  }

  /** At time `t` memory holds the shortest match `w` from byte `i` of the leaf on. */
  ghost predicate MatchFrom(lang: Language, db: Db, h: seq<D.Access>, leaf: WriteLeaf, i: nat, w: seq<Byte>, t: Time) {
    && leaf in db.Leaves() && db.Readable(leaf) && i < leaf.Len() && leaf.node.Times().Contains(t)
    && MemoryHolds(h, leaf.node.addrMin as int + i, w, t) && ShortestIn(lang, w)
  }

  /** The match ends inside the leaf; or the run from its start is the first to leave the leaf with its future, and
      never has the future it started with where a leaf ends. */
  ghost predicate StartStays(lang: Language, db: Db, leaf: WriteLeaf, i: nat, w: seq<Byte>, t: Time)
    requires db.Readable(leaf) && i < leaf.Len()
  {
    || i + |w| <= leaf.Len()
    || (FirstToLeave(lang, db.MemLeafData(leaf), i) && !Restarts(lang, db, leaf.node.addrMin as int + i, w, t))
  }

  /** The start of a match is reported exactly if it is kept. */
  ghost predicate StartsAreExact(lang: Language, db: Db, h: seq<D.Access>, results: seq<SearchResult>) {
    forall leaf, i: nat, w, t :: MatchFrom(lang, db, h, leaf, i, w, t) ==>
      (StartFound(results, leaf.node.addrMin as int + i, t) <==> StartStays(lang, db, leaf, i, w, t))
  }

  // ---- the two ways to say it agree ----

  lemma {:induction false} TipHere(m: Machine, w: seq<Byte>, v: seq<Byte>)
    requires Go(m, AtState(m.initial), w) == Some(Tip) && Go(m, AtState(m.initial), v) == Some(Tip)
    requires |v| <= |w| && v == w[..|v|]
    ensures v == w
  {
    if |v| < |w| {
      assert w[..|w|] == w;
      TipEnds(m, AtState(m.initial), w, |v|, |w|);
    }
  }

  /** A match ends inside the leaf exactly if it fits into it. */
  lemma {:induction false} InsideIsShort(hays: seq<Hay>, m: Machine, k: nat, i: nat, w: seq<Byte>, t: Time)
    requires GoodHays(hays) && MatchAt(hays, m, k, i, w, t)
    ensures MatchesInside(hays[k], m, i) <==> i + |w| <= |hays[k].bytes|
  {
    if i + |w| <= |hays[k].bytes| {
      PrefixInLeaf(hays, m, k, i, w, t, |w|);
      assert w[..|w|] == w;
      TipInside(hays[k], m, i, |w|);
    } else if MatchesInside(hays[k], m, i) {
      var j: nat :| i <= j < |hays[k].bytes| && RunTo(m, m.initial, hays[k].bytes, i, j) == Some(Tip);
      var v := hays[k].bytes[i..j + 1];
      PrefixInLeaf(hays, m, k, i, w, t, |v|);
      TipHere(m, w, v);
    }
  }

  lemma {:induction false} FirstIsFirst(hay: Hay, m: Machine, d: Dfa, lang: Language, i: nat, w: seq<Byte>)
    requires MinimalFor(m, d, lang) && w in lang && i < |hay.bytes|
    ensures FirstInState(hay, m, i) <==> FirstToLeave(lang, hay.bytes, i)
  {
    forall e | 0 <= e < i
      ensures SameFuture(lang, hay.bytes[e..], hay.bytes[i..])
         <==> exists q :: ReachesEnd(hay, m, i, q) && ReachesEnd(hay, m, e, q)
    {
      var u, v := hay.bytes[e..], hay.bytes[i..];
      SameStateIsSameFuture(m, d, lang, u, v, w);
      if q :| StandsIn(m, u, q) && StandsIn(m, v, q) {
        assert ReachesEnd(hay, m, i, q) && ReachesEnd(hay, m, e, q);
      }
      if q :| ReachesEnd(hay, m, i, q) && ReachesEnd(hay, m, e, q) {
        assert StandsIn(m, u, q) && StandsIn(m, v, q);
      }
    }
  }

  lemma {:induction false} InitialIsRestart(m: Machine, d: Dfa, lang: Language, u: seq<Byte>, w: seq<Byte>)
    requires MinimalFor(m, d, lang) && w in lang
    ensures StandsIn(m, u, m.initial) <==> SameFuture(lang, u, [])
  {
    SameStateIsSameFuture(m, d, lang, u, [], w);
    assert StandsIn(m, [], m.initial);
    assert forall q :: StandsIn(m, [], q) ==> q == m.initial;
  }

  // ---- from zones to the database ----

  ghost predicate LeafAt(db: Db, z: nat, k: nat, leaf: WriteLeaf) {
    && ReadableZone(db, z) && k < |db.writeZones[z].leaves| && db.writeZones[z].leaves[k] == leaf && db.Readable(leaf)
  }

  lemma {:induction false} LeafHay(db: Db, z: nat, k: nat, leaf: WriteLeaf)
    requires LeafAt(db, z, k, leaf)
    ensures k < |ZoneHays(db, z)| && ZoneHays(db, z)[k].node == leaf.node
    ensures ZoneHays(db, z)[k].bytes == db.MemLeafData(leaf) && |ZoneHays(db, z)[k].bytes| == leaf.Len()
  {
  }

  /** Leaves of zones that cover the same point belong to the same zone. */
  lemma {:induction false} SameZone(db: Db, i: nat, a: WriteLeaf, j: nat, b: WriteLeaf, x: Addr, t: Time)
    requires Searchable(db) && i < |db.writeZones| && j < |db.writeZones|
    requires a in db.writeZones[i].leaves && b in db.writeZones[j].leaves && a.node.Covers(x, t) && b.node.Covers(x, t)
    ensures i == j
  {
    if i < j {
      AcrossZones(db.writeZones, i, j, a, b);
    } else if j < i {
      AcrossZones(db.writeZones, j, i, b, a);
    }
  }

  lemma {:induction false} ByteLeaf(db: Db, j: nat, x: int, t: Time, b: Byte) returns (leaf: WriteLeaf)
    requires ReadableZone(db, j) && Mem(ZoneHays(db, j), x, t, b)
    ensures leaf in db.writeZones[j].leaves && 0 <= x <= ADDR_MAX as int && leaf.node.Covers(x as Addr, t)
  {
    leaf := HayIsLeaf(db, j, x, t, b);
  }

  lemma {:induction false} LeafEndsHere(db: Db, j: nat, y: int, t: Time, b: Byte)
    requires Searchable(db) && ReadableZone(db, j) && Mem(ZoneHays(db, j), y, t, b)
    ensures LeafEnds(ZoneHays(db, j), y, t) <==> LeafEndsAt(db, y, t)
  {
    var hays := ZoneHays(db, j);
    if l :| 0 <= l < |hays| && hays[l].node.addrMax as int == y && hays[l].node.Times().Contains(t) {
      LeafOfZone(db.writeZones, j, db.writeZones[j].leaves[l]);
    }
    if leaf :| leaf in db.Leaves() && leaf.node.addrMax as int == y && leaf.node.Times().Contains(t) {
      var z := ZoneOfLeaf(db.writeZones, leaf);
      var a := ByteLeaf(db, j, y, t, b);
      SameZone(db, j, a, z, leaf, y as Addr, t);
      var l :| 0 <= l < |db.writeZones[j].leaves| && db.writeZones[j].leaves[l] == leaf;
      assert hays[l].node == leaf.node;
    }
  }

  lemma {:induction false} PassesIsRestarts(db: Db, m: Machine, d: Dfa, lang: Language, j: nat, s: int, w: seq<Byte>,
                                            t: Time)
    requires Searchable(db) && ReadableZone(db, j) && MinimalFor(m, d, lang) && w in lang
    requires HoldsWord(ZoneHays(db, j), s, w, t)
    ensures PassesInitial(ZoneHays(db, j), m, AtState(m.initial), s, w, t, 1) <==> Restarts(lang, db, s, w, t)
  {
    forall n | 0 < n < |w|
      ensures StandsInitial(ZoneHays(db, j), m, AtState(m.initial), s, w, t, n) <==> RestartsAt(lang, db, s, w, t, n)
    {
      var p := n - 1;
      assert Mem(ZoneHays(db, j), s + p, t, w[p]);
      LeafEndsHere(db, j, s + p, t, w[p]);
      InitialIsRestart(m, d, lang, w[..n], w);
    }
    if n :| 1 <= n && StandsInitial(ZoneHays(db, j), m, AtState(m.initial), s, w, t, n) {
      assert RestartsAt(lang, db, s, w, t, n);
    }
    if n :| RestartsAt(lang, db, s, w, t, n) {
      assert 1 <= n && StandsInitial(ZoneHays(db, j), m, AtState(m.initial), s, w, t, n);
    }
  }

  /** The word lies in the zone of the leaf. */
  lemma {:induction false} WordInLeafZone(db: Db, h: seq<D.Access>, end: Time, leaf: WriteLeaf, z: nat, s: int,
                                          w: seq<Byte>, t: Time)
    requires Describes(db, h, end) && Searchable(db) && t <= end && MemoryHolds(h, s, w, t) && w != []
    requires z < |db.writeZones| && leaf in db.writeZones[z].leaves && 0 <= s <= ADDR_MAX as int
    requires leaf.node.Covers(s as Addr, t)
    ensures ReadableZone(db, z) && HoldsWord(ZoneHays(db, z), s, w, t)
  {
    var j := WordInZone(db, h, end, s, w, t);
    assert Mem(ZoneHays(db, j), s + 0, t, w[0]);
    var a := ByteLeaf(db, j, s + 0, t, w[0]);
    SameZone(db, j, a, z, leaf, s as Addr, t);
  }

  /** The zone of the leaf, and the match in it. */
  lemma {:induction false} MatchInZone(db: Db, m: Machine, lang: Language, h: seq<D.Access>, end: Time,
                                       leaf: WriteLeaf, i: nat, w: seq<Byte>, t: Time)
    returns (z: nat, k: nat)
    requires Describes(db, h, end) && Searchable(db) && MachineFor(m, lang) && MatchFrom(lang, db, h, leaf, i, w, t)
    ensures LeafAt(db, z, k, leaf) && MatchAt(ZoneHays(db, z), m, k, i, w, t)
  {
    z := ZoneOfLeaf(db.writeZones, leaf);
    k :| 0 <= k < |db.writeZones[z].leaves| && db.writeZones[z].leaves[k] == leaf;
    var s := leaf.node.addrMin as int + i;
    LeafWithin(db, h, end, leaf, t);
    WordInLeafZone(db, h, end, leaf, z, s, w, t);
    LeafMatch(db, m, leaf, z, k, i, w, t, s);
  }

  lemma {:induction false} LeafMatch(db: Db, m: Machine, leaf: WriteLeaf, z: nat, k: nat, i: nat, w: seq<Byte>, t: Time,
                                     s: int)
    requires LeafAt(db, z, k, leaf) && i < leaf.Len() && leaf.node.Times().Contains(t)
    requires s == leaf.node.addrMin as int + i && HoldsWord(ZoneHays(db, z), s, w, t) && w != []
    requires Go(m, AtState(m.initial), w) == Some(Tip)
    ensures MatchAt(ZoneHays(db, z), m, k, i, w, t)
  {
    LeafHay(db, z, k, leaf);
    MatchIsAt(ZoneHays(db, z), m, k, i, w, t, s);
  }

  lemma {:induction false} MatchIsAt(hays: seq<Hay>, m: Machine, k: nat, i: nat, w: seq<Byte>, t: Time, s: int)
    requires k < |hays| && hays[k].Valid() && i < |hays[k].bytes| && hays[k].node.Times().Contains(t)
    requires s == hays[k].node.addrMin as int + i && HoldsWord(hays, s, w, t) && w != []
    requires Go(m, AtState(m.initial), w) == Some(Tip)
    ensures MatchAt(hays, m, k, i, w, t)
  {
  }

  lemma {:induction false} LeafWithin(db: Db, h: seq<D.Access>, end: Time, leaf: WriteLeaf, t: Time)
    requires Describes(db, h, end) && leaf in db.Leaves() && leaf.node.Times().Contains(t)
    ensures t <= end
  {
    var k :| 0 <= k < |db.Leaves()| && db.Leaves()[k] == leaf;
  }

  lemma {:induction false} FirstIsFirstIn(db: Db, m: Machine, d: Dfa, lang: Language, leaf: WriteLeaf, z: nat, k: nat,
                                          i: nat, w: seq<Byte>)
    requires LeafAt(db, z, k, leaf) && MinimalFor(m, d, lang) && w in lang && i < leaf.Len()
    ensures k < |ZoneHays(db, z)|
    ensures FirstInState(ZoneHays(db, z)[k], m, i) <==> FirstToLeave(lang, db.MemLeafData(leaf), i)
  {
    LeafHay(db, z, k, leaf);
    FirstIsFirst(ZoneHays(db, z)[k], m, d, lang, i, w);
  }

  lemma {:induction false} MatchHolds(hays: seq<Hay>, m: Machine, k: nat, i: nat, w: seq<Byte>, t: Time, s: int)
    requires MatchAt(hays, m, k, i, w, t) && s == hays[k].node.addrMin as int + i
    ensures HoldsWord(hays, s, w, t)
  {
  }

  lemma {:induction false} InsideIsShortIn(db: Db, m: Machine, leaf: WriteLeaf, z: nat, k: nat, i: nat, w: seq<Byte>,
                                           t: Time)
    requires LeafAt(db, z, k, leaf) && GoodHays(ZoneHays(db, z)) && MatchAt(ZoneHays(db, z), m, k, i, w, t)
    ensures MatchesInside(ZoneHays(db, z)[k], m, i) <==> i + |w| <= leaf.Len()
  {
    LeafHay(db, z, k, leaf);
    InsideIsShort(ZoneHays(db, z), m, k, i, w, t);
  }

  /** The condition on states and the condition on futures agree. */
  lemma {:induction false} StaysIsSurvives(db: Db, m: Machine, d: Dfa, lang: Language, leaf: WriteLeaf, z: nat,
                                           k: nat, i: nat, w: seq<Byte>, t: Time)
    requires Searchable(db) && LeafAt(db, z, k, leaf) && GoodHays(ZoneHays(db, z)) && MinimalFor(m, d, lang)
    requires w in lang && i < leaf.Len() && MatchAt(ZoneHays(db, z), m, k, i, w, t)
    ensures Survives(ZoneHays(db, z), m, k, i, w, t) <==> StartStays(lang, db, leaf, i, w, t)
  {
    var s := leaf.node.addrMin as int + i;
    LeafHay(db, z, k, leaf);
    MatchHolds(ZoneHays(db, z), m, k, i, w, t, s);
    InsideIsShortIn(db, m, leaf, z, k, i, w, t);
    FirstIsFirstIn(db, m, d, lang, leaf, z, k, i, w);
    PassesIsRestarts(db, m, d, lang, z, s, w, t);
    Agree(ZoneHays(db, z), m, lang, db, leaf, k, i, w, t, s);
  }

  lemma {:induction false} Agree(hays: seq<Hay>, m: Machine, lang: Language, db: Db, leaf: WriteLeaf, k: nat, i: nat,
                                 w: seq<Byte>, t: Time, s: int)
    requires db.Readable(leaf) && i < leaf.Len() && k < |hays| && hays[k].node == leaf.node
    requires s == leaf.node.addrMin as int + i
    requires MatchesInside(hays[k], m, i) <==> i + |w| <= leaf.Len()
    requires FirstInState(hays[k], m, i) <==> FirstToLeave(lang, db.MemLeafData(leaf), i)
    requires PassesInitial(hays, m, AtState(m.initial), s, w, t, 1) <==> Restarts(lang, db, s, w, t)
    ensures Survives(hays, m, k, i, w, t) <==> StartStays(lang, db, leaf, i, w, t)
  {
  }

  ghost predicate ExactIn(db: Db, m: Machine, j: nat, results: seq<SearchResult>) {
    ReadableZone(db, j) && StartsExact(ZoneHays(db, j), m, results)
  }

  /** Exact in every zone is exact in the database. */
  lemma {:induction false} ExactMeans(db: Db, h: seq<D.Access>, end: Time, m: Machine, d: Dfa, lang: Language,
                                      results: seq<SearchResult>)
    requires Describes(db, h, end) && Searchable(db) && MinimalFor(m, d, lang) && MachineFor(m, lang)
    requires forall j :: 0 <= j < |db.writeZones| ==> ExactIn(db, m, j, results)
    ensures StartsAreExact(lang, db, h, results)
  {
    forall leaf, i: nat, w, t | MatchFrom(lang, db, h, leaf, i, w, t)
      ensures StartFound(results, leaf.node.addrMin as int + i, t) <==> StartStays(lang, db, leaf, i, w, t)
    {
      var z, k := MatchInZone(db, m, lang, h, end, leaf, i, w, t);
      ZoneGood(db, z);
      StaysIsSurvives(db, m, d, lang, leaf, z, k, i, w, t);
      assert ExactIn(db, m, z, results);
    }
  }

  // ---- reports of other zones change nothing ----

  lemma {:induction false} FoundStartEither(results: seq<SearchResult>, more: seq<SearchResult>, s: int, t: Time)
    ensures StartFound(results + more, s, t) <==> StartFound(results, s, t) || StartFound(more, s, t)
  {
    var all := results + more;
    if i :| 0 <= i < |results| && results[i].addrMin as int == s && results[i].timeMin <= t <= results[i].timeMax {
      assert all[i] == results[i];
    }
    if i :| 0 <= i < |more| && more[i].addrMin as int == s && more[i].timeMin <= t <= more[i].timeMax {
      assert all[|results| + i] == more[i];
    }
  }

  /** No report starts at a point of the zone. */
  ghost predicate NoneStarts(hays: seq<Hay>, results: seq<SearchResult>) {
    forall k: nat, x: Addr, t :: k < |hays| && hays[k].node.Covers(x, t) ==> !StartFound(results, x as int, t)
  }

  lemma {:induction false} ExactMore(hays: seq<Hay>, m: Machine, results: seq<SearchResult>, more: seq<SearchResult>)
    requires (StartsExact(hays, m, results) && NoneStarts(hays, more))
          || (StartsExact(hays, m, more) && NoneStarts(hays, results))
    ensures StartsExact(hays, m, results + more)
  {
    forall k: nat, i: nat, w, t | MatchAt(hays, m, k, i, w, t)
      ensures StartFound(results + more, hays[k].node.addrMin as int + i, t) <==> Survives(hays, m, k, i, w, t)
    {
      var x := hays[k].node.addrMin + i as Addr;
      assert hays[k].node.Covers(x, t);
      FoundStartEither(results, more, x as int, t);
    }
  }
}
