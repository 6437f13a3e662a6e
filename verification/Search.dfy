/** Regex search over the whole database. */
module Search {
  import opened Ranges
  import opened MemoryDb
  import D = Disjoint
  import opened Automata
  import opened Minimize
  import opened Brzozowski
  import opened Thompson
  import opened Execute
  import opened Futures
  import opened SearchLeaf
  import opened SearchChain
  import opened SearchZone
  import opened SearchMatch
  import opened SearchStarts
  import opened SearchMemory
  import opened ReportedStarts

  // ---- the search ----

  ghost predicate IsMatch(lang: Language, h: seq<D.Access>, r: SearchResult, t: Time, w: seq<Byte>) {
    && |w| == r.addrMax as int - r.addrMin as int + 1
    && MemoryHolds(h, r.addrMin as int, w, t) && ShortestIn(lang, w)
  }

  /** At each of its times, the memory over the report's addresses is a shortest match. */
  ghost predicate Matches(lang: Language, h: seq<D.Access>, r: SearchResult) {
    && r.addrMin <= r.addrMax && r.timeMin <= r.timeMax
    && forall t :: TimesOf(r).Contains(t) ==> exists w :: IsMatch(lang, h, r, t, w)
  }

  /** Wherever in memory a shortest match ends, at whatever time, a report ends for that time. */
  ghost predicate EveryMatchEnds(lang: Language, h: seq<D.Access>, end: Time, results: seq<SearchResult>) {
    forall s, w, t :: t <= end && MemoryHolds(h, s, w, t) && ShortestIn(lang, w) ==> Found(results, s + |w| - 1, t)
  }

  lemma {:induction false} MachineForLang(m: Machine, d: Dfa, lang: Language)
    requires MachineOf(m, d) && forall w :: Recognizes(d, w) <==> w in lang
    ensures MachineFor(m, lang)
  {
    forall w ensures Go(m, AtState(m.initial), w) == Some(Tip) <==> ShortestIn(lang, w) {
      TipIsShortest(m, d, w);
    }
  }

  lemma {:induction false} StatesKnown(m: Machine, d: Dfa, states: seq<State>)
    requires MachineOf(m, d) && forall q :: q in states <==> Ordinary(d, q)
    ensures KnownStates(m, states)
  {
    forall q, b | (q, b) in m.table
      ensures m.table[(q, b)] == m.initial || m.table[(q, b)] in m.accept || m.table[(q, b)] in states
    {
      var l := Link(q, m.table[(q, b)], b);
      assert l in d.links;
      assert l.to !in d.initial && l.to !in d.accept ==> Ordinary(d, l.to);
    }
  }

  lemma {:induction false} ZoneReports(db: Db, h: seq<D.Access>, end: Time, m: Machine, lang: Language, i: nat,
                                       r: SearchResult)
    requires Describes(db, h, end) && ReadableZone(db, i) && MachineFor(m, lang)
    requires ReportSound(ZoneHays(db, i), m, r)
    ensures Matches(lang, h, r)
  {
    forall t | TimesOf(r).Contains(t) ensures exists w :: IsMatch(lang, h, r, t, w) {
      var w :| RunHolds(ZoneHays(db, i), m, m.initial, AddrRange(r.addrMin, r.addrMax), t, Tip, w);
      HoldsIsMemory(db, h, end, i, r.addrMin as int, w, t);
      assert IsMatch(lang, h, r, t, w);
    }
  }

  /** What one zone's reports say. */
  ghost predicate ZoneSearched(db: Db, m: Machine, i: nat, results: seq<SearchResult>) {
    && ReadableZone(db, i) && (forall k :: 0 <= k < |results| ==> ReportSound(ZoneHays(db, i), m, results[k]))
    && ReportsApart(results) && AllFound(ZoneHays(db, i), m, results) && StartsExact(ZoneHays(db, i), m, results)
  }

  /** A report's first byte lies in the zone. */
  lemma {:induction false} ReportStartsIn(db: Db, m: Machine, i: nat, r: SearchResult, t: Time)
    returns (leaf: WriteLeaf)
    requires ReadableZone(db, i) && ReportSound(ZoneHays(db, i), m, r) && r.timeMin <= t <= r.timeMax
    ensures leaf in db.writeZones[i].leaves && leaf.node.Covers(r.addrMin, t)
  {
    assert TimesOf(r).Contains(t);
    var w :| RunHolds(ZoneHays(db, i), m, m.initial, AddrRange(r.addrMin, r.addrMax), t, Tip, w);
    assert Mem(ZoneHays(db, i), r.addrMin as int + 0, t, w[0]);
    leaf := HayIsLeaf(db, i, r.addrMin as int + 0, t, w[0]);
  }

  lemma {:induction false} ReportsOfZonesApart(db: Db, m: Machine, i: nat, a: SearchResult, j: nat, b: SearchResult)
    requires Searchable(db) && i < j && ReadableZone(db, i) && ReadableZone(db, j)
    requires ReportSound(ZoneHays(db, i), m, a) && ReportSound(ZoneHays(db, j), m, b) && a.addrMin == b.addrMin
    ensures TimesOf(a).Disjoint(TimesOf(b))
  {
    if !TimesOf(a).Disjoint(TimesOf(b)) {
      var t := MaxTime(a.timeMin, b.timeMin);
      var x := ReportStartsIn(db, m, i, a, t);
      var y := ReportStartsIn(db, m, j, b, t);
      AcrossZones(db.writeZones, i, j, x, y);
    }
  }

  ghost predicate FromZone(db: Db, m: Machine, n: nat, r: SearchResult) {
    exists j :: SoundIn(db, m, j, n, r)
  }

  ghost predicate SoundIn(db: Db, m: Machine, j: nat, n: nat, r: SearchResult) {
    j < n && ReadableZone(db, j) && ReportSound(ZoneHays(db, j), m, r)
  }

  ghost predicate FoundIn(db: Db, m: Machine, j: nat, results: seq<SearchResult>) {
    ReadableZone(db, j) && AllFound(ZoneHays(db, j), m, results)
  }

  /** The first `n` zones have been searched. */
  ghost predicate SearchedUpTo(db: Db, m: Machine, n: nat, results: seq<SearchResult>) {
    && (forall k :: 0 <= k < |results| ==> FromZone(db, m, n, results[k]))
    && ReportsApart(results)
    && (forall j :: 0 <= j < n ==> FoundIn(db, m, j, results) && ExactIn(db, m, j, results))
  }

  lemma {:induction false} FoundMore(hays: seq<Hay>, m: Machine, results: seq<SearchResult>, more: seq<SearchResult>)
    requires AllFound(hays, m, results) || AllFound(hays, m, more)
    ensures AllFound(hays, m, results + more)
  {
    forall s, w, t | HoldsWord(hays, s, w, t) && w != [] && Go(m, AtState(m.initial), w) == Some(Tip)
      ensures Found(results + more, s + |w| - 1, t)
    {
      FoundEither(results, more, s + |w| - 1, t);
      assert Found(results, s + |w| - 1, t) || Found(more, s + |w| - 1, t);
    }
  }

  lemma {:induction false} FoundEither(results: seq<SearchResult>, more: seq<SearchResult>, end: int, t: Time)
    ensures Found(results, end, t) || Found(more, end, t) ==> Found(results + more, end, t)
  {
    if i :| 0 <= i < |results| && Ends(results[i], end, t) {
      assert Ends((results + more)[i], end, t);
    } else if i :| 0 <= i < |more| && Ends(more[i], end, t) {
      assert Ends((results + more)[|results| + i], end, t);
    }
  }

  lemma {:induction false} ApartMore(db: Db, m: Machine, n: nat, results: seq<SearchResult>, more: seq<SearchResult>)
    requires Searchable(db) && ReportsApart(results) && ZoneSearched(db, m, n, more)
    requires forall k :: 0 <= k < |results| ==> FromZone(db, m, n, results[k])
    ensures ReportsApart(results + more)
  {
    var all := results + more;
    forall i, j | 0 <= i < j < |all| && all[i].addrMin == all[j].addrMin
      ensures TimesOf(all[i]).Disjoint(TimesOf(all[j]))
    {
      if i < |results| <= j {
        assert FromZone(db, m, n, results[i]);
        var z: nat :| SoundIn(db, m, z, n, results[i]);
        ReportsOfZonesApart(db, m, z, all[i], n, all[j]);
      }
    }
  }

  /** The report comes from another zone than `j`. */
  ghost predicate FromOther(db: Db, m: Machine, j: nat, n: nat, r: SearchResult) {
    exists z :: z != j && SoundIn(db, m, z, n, r)
  }

  /** Reports of one zone do not start in another. */
  lemma {:induction false} NoneFromOther(db: Db, m: Machine, i: nat, results: seq<SearchResult>, j: nat)
    requires Searchable(db) && ReadableZone(db, j)
    requires forall k :: 0 <= k < |results| ==> FromOther(db, m, j, i, results[k])
    ensures NoneStarts(ZoneHays(db, j), results)
  {
    forall k: nat, x: Addr, t | k < |ZoneHays(db, j)| && ZoneHays(db, j)[k].node.Covers(x, t)
      ensures !StartFound(results, x as int, t)
    {
      if a :| 0 <= a < |results| && results[a].addrMin as int == x as int
               && results[a].timeMin <= t <= results[a].timeMax {
        assert FromOther(db, m, j, i, results[a]);
        var z: nat :| z != j && SoundIn(db, m, z, i, results[a]);
        var leaf := ReportStartsIn(db, m, z, results[a], t);
        SameZone(db, j, db.writeZones[j].leaves[k], z, leaf, x, t);
      }
    }
  }

  lemma {:induction false} ExactStep(db: Db, m: Machine, n: nat, results: seq<SearchResult>, more: seq<SearchResult>,
                                     j: nat)
    requires Searchable(db) && SearchedUpTo(db, m, n, results) && ZoneSearched(db, m, n, more) && j <= n
    ensures ExactIn(db, m, j, results + more)
  {
    if j < n {
      assert ExactIn(db, m, j, results);
      forall k | 0 <= k < |more| ensures FromOther(db, m, j, n + 1, more[k]) {
        assert SoundIn(db, m, n, n + 1, more[k]);
      }
      NoneFromOther(db, m, n + 1, more, j);
    } else {
      forall k | 0 <= k < |results| ensures FromOther(db, m, j, n, results[k]) {
        assert FromZone(db, m, n, results[k]);
      }
      NoneFromOther(db, m, n, results, j);
    }
    ExactMore(ZoneHays(db, j), m, results, more);
  }

  lemma {:induction false} SearchedStep(db: Db, m: Machine, n: nat, results: seq<SearchResult>, more: seq<SearchResult>)
    requires Searchable(db) && SearchedUpTo(db, m, n, results) && ZoneSearched(db, m, n, more)
    ensures SearchedUpTo(db, m, n + 1, results + more)
  {
    ApartMore(db, m, n, results, more);
    forall k | 0 <= k < |results + more| ensures FromZone(db, m, n + 1, (results + more)[k]) {
      if k < |results| {
        assert FromZone(db, m, n, results[k]);
        var z: nat :| SoundIn(db, m, z, n, results[k]);
        assert SoundIn(db, m, z, n + 1, results[k]);
      } else {
        assert SoundIn(db, m, n, n + 1, more[k - |results|]);
      }
    }
    forall j | 0 <= j < n + 1 ensures FoundIn(db, m, j, results + more) && ExactIn(db, m, j, results + more) {
      if j < n {
        assert FoundIn(db, m, j, results);
      }
      FoundMore(ZoneHays(db, j), m, results, more);
      ExactStep(db, m, n, results, more, j);
    }
  }

  method SearchZoneOf(db: Db, m: Machine, states: seq<State>, i: nat) returns (results: seq<SearchResult>)
    requires Searchable(db) && i < |db.writeZones| && NoRepeats(states) && KnownStates(m, states)
    requires m.initial !in states
    ensures ZoneSearched(db, m, i, results)
  {
    ZoneGood(db, i);
    results := SearchInZone(Hays(db, db.writeZones[i].leaves), m, states);
  }

  /** Zone after zone. */
  method SearchZones(db: Db, m: Machine, states: seq<State>) returns (results: seq<SearchResult>)
    requires Searchable(db) && NoRepeats(states) && KnownStates(m, states) && m.initial !in states
    ensures SearchedUpTo(db, m, |db.writeZones|, results)
  {
    results := [];
    var i := 0;
    while i < |db.writeZones|
      invariant 0 <= i <= |db.writeZones| && SearchedUpTo(db, m, i, results)
    {
      var more := SearchZoneOf(db, m, states, i);
      SearchedStep(db, m, i, results, more);
      results := results + more;
      i := i + 1;
    }
  }

  /** A report is for times at which a leaf holds its first byte, none of them after the last memory access. */
  lemma {:induction false} ReportWithin(db: Db, h: seq<D.Access>, end: Time, m: Machine, i: nat, r: SearchResult)
    requires Describes(db, h, end) && ReadableZone(db, i) && ReportSound(ZoneHays(db, i), m, r)
    ensures r.timeMax <= end
  {
    var leaf := ReportStartsIn(db, m, i, r, r.timeMax);
    LeafOfZone(db.writeZones, i, leaf);
    LeafWithin(db, h, end, leaf, r.timeMax);
  }

  lemma {:induction false} SearchedMeans(db: Db, h: seq<D.Access>, end: Time, m: Machine, lang: Language,
                                         results: seq<SearchResult>)
    requires Describes(db, h, end) && Searchable(db) && MachineFor(m, lang)
    requires SearchedUpTo(db, m, |db.writeZones|, results)
    ensures forall k :: 0 <= k < |results| ==> Matches(lang, h, results[k]) && results[k].timeMax <= end
    ensures EveryMatchEnds(lang, h, end, results)
  {
    forall k | 0 <= k < |results| ensures Matches(lang, h, results[k]) && results[k].timeMax <= end {
      assert FromZone(db, m, |db.writeZones|, results[k]);
      var z: nat :| SoundIn(db, m, z, |db.writeZones|, results[k]);
      ZoneReports(db, h, end, m, lang, z, results[k]);
      ReportWithin(db, h, end, m, z, results[k]);
    }
    forall s, w, t | t <= end && MemoryHolds(h, s, w, t) && ShortestIn(lang, w) ensures Found(results, s + |w| - 1, t) {
      var i := WordInZone(db, h, end, s, w, t);
      assert FoundIn(db, m, i, results);
    }
  }

  /** The machine of a deterministic automaton. */
  method MakeMachine(d: Dfa, initial: State) returns (m: Machine)
    requires Deterministic(d) && d.initial == {initial}
    ensures MachineOf(m, d) && m.initial == initial
  {
    var table := BuildTable(d);
    m := Machine(initial, d.accept, table);
  }

  lemma {:induction false} StartAccepts(d: Dfa, initial: State)
    requires Deterministic(d) && d.initial == {initial}
    ensures initial in d.accept <==> Recognizes(d, [])
  {
    ReachSelf(Links(d), initial);
    RecognizesIs(d, initial, [], initial);
  }

  /** What a search promises: every report is a shortest match at each of its times, none after `end`; reports with one
      start are for disjoint times; every match end is reported; and exactly the starts that stay are. */
  ghost predicate SearchedRight(lang: Language, db: Db, h: seq<D.Access>, end: Time, results: seq<SearchResult>) {
    && (forall k :: 0 <= k < |results| ==> Matches(lang, h, results[k]) && results[k].timeMax <= end)
    && ReportsApart(results) && EveryMatchEnds(lang, h, end, results) && StartsAreExact(lang, db, h, results)
  }

  /** Searches all zones with the machine of a minimal automaton. */
  method SearchDfa(db: Db, dfa: Dfa, initial: State, ghost lang: Language, ghost h: seq<D.Access>, ghost end: Time)
    returns (results: seq<SearchResult>)
    requires Describes(db, h, end) && Searchable(db) && Minimal(dfa) && dfa.initial == {initial} && Knows(dfa, lang)
    ensures SearchedRight(lang, db, h, end, results)
  {
    var states := NonSpecialStates(dfa);
    var m := MakeMachine(dfa, initial);
    StatesKnown(m, dfa, states);
    MachineForLang(m, dfa, lang);
    results := SearchZones(db, m, states);
    SearchedMeans(db, h, end, m, lang, results);
    ExactMeans(db, h, end, m, dfa, lang, results);
  }

  /** Compiles the expression and searches every zone; an expression that matches nothing at all reports nothing. */
  method SearchHir(db: Db, hir: Hir, ghost h: seq<D.Access>, ghost end: Time) returns (results: seq<SearchResult>)
    requires Supported(hir) && Describes(db, h, end) && Searchable(db)
    ensures [] in Lang(hir) ==> results == []
    ensures [] !in Lang(hir) ==> SearchedRight(Lang(hir), db, h, end, results)
  {
    var dfa := CompileHir(hir);
    var initial :| initial in dfa.initial;
    assert dfa.initial == {initial};
    StartAccepts(dfa, initial);
    if initial in dfa.accept {
      return [];
    }
    results := SearchDfa(db, dfa, initial, Lang(hir), h, end);
  }

  /** Searching for a byte string. */
  method SearchBytes(db: Db, needle: seq<Byte>, ghost h: seq<D.Access>, ghost end: Time)
    returns (results: seq<SearchResult>)
    requires Describes(db, h, end) && Searchable(db)
    ensures needle == [] ==> results == []
    ensures needle != [] ==> SearchedRight(Only(needle), db, h, end, results)
  {
    results := SearchHir(db, Literal(needle), h, end);
  }
}
