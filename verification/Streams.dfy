/** The stream of leaves a pass over the trace emits: its rectangles do not depend on the payload, and payloads
    always name stored bytes. */
module Streams {
  import opened Ranges
  import opened Payload
  import opened OrderedKeys
  import opened Disjoint

  // ---- where the entries of the working set come from ----

  ghost predicate Source(m: Temps, w: Temp, k: Addr, p: Temp, j: Addr)
    requires GoodMap(m) && w.Valid()
  {
    || (k == w.addrMin && p == w)
    || (j in m && !Touches(m[j], w) && k == j && p == m[j])
    || (Leftover(m, w, j) && k == j && p == LeftOf(m[j], w))
    || (Rightover(m, w, j) && k as int == w.addrMax as int + 1 && p == RightOf(m[j], w))
  }

  lemma {:induction false} OverlaySource(m: Temps, w: Temp, k: Addr) returns (j: Addr)
    requires GoodMap(m) && w.Valid() && k in Overlay(m, w)
    ensures Source(m, w, k, Overlay(m, w)[k], j)
  {
    if k == w.addrMin {
      j := k;
    } else if k in Rights(m, w) {
      j := RightsEntry(m, w, k);
    } else {
      j := k;
    }
  }

  lemma {:induction false} SourceInOverlay(m: Temps, w: Temp, k: Addr, p: Temp, j: Addr)
    requires GoodMap(m) && w.Valid() && Source(m, w, k, p, j)
    ensures k in Overlay(m, w) && Overlay(m, w)[k] == p
  {
    if k == w.addrMin && p == w {
    } else if j in m && !Touches(m[j], w) && k == j && p == m[j] {
      OverlayUntouched(m, w, j);
    } else if Leftover(m, w, j) && k == j && p == LeftOf(m[j], w) {
      OverlayLeft(m, w, j);
    } else {
      OverlayRight(m, w, j);
    }
  }

  // ---- forgetting the payload ----

  function Erase(e: Temp): Temp {
    e.(data := NoData)
  }

  ghost function EraseMap(m: Temps): Temps {
    map k | k in m :: Erase(m[k])
  }

  function EraseLeaf(leaf: Leaf): Leaf {
    leaf.(data := NoData)
  }

  ghost function EraseAll(ls: seq<Leaf>): (r: seq<Leaf>)
    ensures |r| == |ls| && forall i :: 0 <= i < |ls| ==> r[i] == EraseLeaf(ls[i])
  {
    seq(|ls|, i requires 0 <= i < |ls| => EraseLeaf(ls[i]))
  }

  lemma {:induction false} EraseConcat(a: seq<Leaf>, b: seq<Leaf>)
    ensures EraseAll(a + b) == EraseAll(a) + EraseAll(b)
  {
  }

  lemma {:induction false} EraseGood(m: Temps)
    requires GoodMap(m)
    ensures GoodMap(EraseMap(m))
  {
  }

  lemma {:induction false} EraseMask(e: Temp, box: Node)
    requires e.Valid() && e.addrMin <= box.addrMin <= box.addrMax <= e.addrMax
    ensures Erase(e).Mask(box) == Erase(e.Mask(box))
  {
  }

  lemma {:induction false} EraseSource(m: Temps, w: Temp, k: Addr, p: Temp, j: Addr)
    requires GoodMap(m) && w.Valid() && Source(m, w, k, p, j)
    ensures GoodMap(EraseMap(m)) && Source(EraseMap(m), Erase(w), k, Erase(p), j)
  {
    EraseGood(m);
    if Leftover(m, w, j) && k == j && p == LeftOf(m[j], w) {
      EraseMask(m[j], Node(m[j].addrMin, w.addrMin - 1, m[j].timeMin, TIME_MAX));
    } else if Rightover(m, w, j) && k as int == w.addrMax as int + 1 && p == RightOf(m[j], w) {
      EraseMask(m[j], Node(w.addrMax + 1, m[j].addrMax, m[j].timeMin, TIME_MAX));
    }
  }

  /** What the erased source of an erased entry is a source of. */
  lemma {:induction false} UneraseSource(m: Temps, w: Temp, k: Addr, p: Temp, j: Addr) returns (q: Temp)
    requires GoodMap(m) && GoodMap(EraseMap(m)) && w.Valid() && Source(EraseMap(m), Erase(w), k, p, j)
    ensures Source(m, w, k, q, j)
  {
    if k == w.addrMin && p == Erase(w) {
      q := w;
    } else if !Touches(m[j], w) {
      q := m[j];
    } else if Leftover(m, w, j) && k == j {
      q := LeftOf(m[j], w);
    } else {
      q := RightOf(m[j], w);
    }
  }

  /** Writing over the working set and forgetting payloads commute. */
  lemma {:induction false} EraseOverlay(m: Temps, w: Temp)
    requires GoodMap(m) && w.Valid()
    ensures GoodMap(EraseMap(m)) && EraseMap(Overlay(m, w)) == Overlay(EraseMap(m), Erase(w))
  {
    EraseGood(m);
    var a, b := EraseMap(Overlay(m, w)), Overlay(EraseMap(m), Erase(w));
    forall k | k in a ensures k in b && b[k] == a[k] {
      ErasedThere(m, w, k);
    }
    forall k | k in b ensures k in a {
      UnerasedThere(m, w, k);
    }
  }

  lemma {:induction false} ErasedThere(m: Temps, w: Temp, k: Addr)
    requires GoodMap(m) && w.Valid() && GoodMap(EraseMap(m)) && k in Overlay(m, w)
    ensures k in Overlay(EraseMap(m), Erase(w))
    ensures Overlay(EraseMap(m), Erase(w))[k] == Erase(Overlay(m, w)[k])
  {
    var q := Overlay(m, w)[k];
    var j := OverlaySource(m, w, k);
    EraseSource(m, w, k, q, j);
    SourceInOverlay(EraseMap(m), Erase(w), k, Erase(q), j);
  }

  lemma {:induction false} UnerasedThere(m: Temps, w: Temp, k: Addr)
    requires GoodMap(m) && w.Valid() && GoodMap(EraseMap(m)) && k in Overlay(EraseMap(m), Erase(w))
    ensures k in Overlay(m, w)
  {
    var j := OverlaySource(EraseMap(m), Erase(w), k);
    var q := UneraseSource(m, w, k, Overlay(EraseMap(m), Erase(w))[k], j);
    SourceInOverlay(m, w, k, q, j);
  }

  lemma {:induction false} SeenNone(m: Temps, x: Addr)
    requires GoodMap(m) && forall k :: k in m ==> !m[k].HasAddr(x)
    ensures Seen(m, x) == None
  {
  }

  lemma {:induction false} EraseSeen(m: Temps, x: Addr)
    requires GoodMap(m) && GoodMap(EraseMap(m))
    ensures Seen(EraseMap(m), x) == Seen(m, x)
  {
    if k :| k in m && m[k].HasAddr(x) {
      SeenIs(m, k, x);
      SeenIs(EraseMap(m), k, x);
    } else {
      SeenNone(m, x);
      SeenNone(EraseMap(m), x);
    }
  }

  lemma {:induction false} EraseDuplicate(m: Temps, a: Access)
    requires GoodMap(m)
    ensures GoodMap(EraseMap(m)) && (IsDuplicate(EraseMap(m), a) <==> IsDuplicate(m, a))
  {
    EraseGood(m);
    forall x ensures Seen(EraseMap(m), x) == Seen(m, x) {
      EraseSeen(m, x);
    }
  }

  lemma {:induction false} EraseOne(leaf: Leaf)
    ensures EraseAll([leaf]) == [EraseLeaf(leaf)]
  {
  }

  lemma {:induction false} EraseComplete(e: Temp, box: Node, timeMax: Time)
    requires e.Valid() && e.addrMin <= box.addrMin <= box.addrMax <= e.addrMax
    ensures Erase(e).Mask(box).Complete(timeMax) == EraseLeaf(e.Mask(box).Complete(timeMax))
  {
    EraseMask(e, box);
  }

  lemma {:induction false} EraseTouches(e: Temp, w: Temp)
    requires e.Valid() && w.Valid() && Touches(e, w)
    ensures Erase(e).Valid() && Erase(w).Valid() && Touches(Erase(e), Erase(w))
    ensures e.timeMin < w.timeMin ==>
              Overlap(Erase(e), Erase(w)) == Overlap(e, w)
              && e.addrMin <= Overlap(e, w).addrMin <= Overlap(e, w).addrMax <= e.addrMax
  {
  }

  lemma {:induction false} EraseClosedBy(e: Temp, w: Temp)
    requires e.Valid() && w.Valid() && Touches(e, w)
    requires Erase(e).Valid() && Erase(w).Valid() && Touches(Erase(e), Erase(w))
    ensures ClosedBy(Erase(e), Erase(w)) == EraseAll(ClosedBy(e, w))
  {
    EraseTouches(e, w);
    if e.timeMin < w.timeMin {
      var box := Overlap(e, w);
      EraseComplete(e, box, w.timeMin - 1);
      var leaf := e.Mask(box).Complete(w.timeMin - 1);
      assert ClosedBy(e, w) == [leaf];
      EraseOne(leaf);
    }
  }

  lemma {:induction false} EraseClosedAll(m: Temps, ks: seq<Addr>, w: Temp)
    requires GoodMap(m) && w.Valid() && TouchedKeys(m, ks, w) && GoodMap(EraseMap(m))
    ensures TouchedKeys(EraseMap(m), ks, Erase(w))
    ensures ClosedAll(EraseMap(m), ks, Erase(w)) == EraseAll(ClosedAll(m, ks, w))
  {
    if ks != [] {
      var n := |ks| - 1;
      EraseClosedAll(m, ks[..n], w);
      EraseTouches(m[ks[n]], w);
      EraseClosedBy(m[ks[n]], w);
      EraseConcat(ClosedAll(m, ks[..n], w), ClosedBy(m[ks[n]], w));
    }
  }

  lemma {:induction false} EraseWriteOut(m: Temps, w: Temp)
    requires GoodMap(m) && w.Valid() && GoodMap(EraseMap(m))
    ensures WriteOut(EraseMap(m), Erase(w)) == EraseAll(WriteOut(m, w))
  {
    assert TouchedBy(EraseMap(m), Erase(w)) == TouchedBy(m, w);
    EraseClosedAll(m, SortedKeys(TouchedBy(m, w)), w);
  }

  /** One access changes the rectangles in the same way whatever payload it carries. */
  lemma {:induction false} EraseStep(m: Temps, a: Access, data: Data)
    requires GoodMap(m) && a.Valid() && Carries(data, a.bytes)
    ensures GoodMap(EraseMap(m))
    ensures var (after, out) := Step(m, a, data);
      Step(EraseMap(m), a, NoData) == (EraseMap(after), EraseAll(out))
  {
    EraseGood(m);
    EraseDuplicate(m, a);
    if !(a.canDedup && IsDuplicate(m, a)) {
      var w := a.Open(data);
      assert a.Open(NoData) == Erase(w);
      EraseOverlay(m, w);
      EraseWriteOut(m, w);
    }
  }

  lemma {:induction false} EraseClosing(m: Temps, now: Time)
    ensures Closing(EraseMap(m), now) == EraseAll(Closing(m, now))
  {
    assert EraseMap(m).Keys == m.Keys;
    assert Closing(EraseMap(m), now) == EraseAll(Closing(m, now));
  }

  // ---- the stream of rectangles ----

  /** The working set and the leaves after a history, without payloads. */
  ghost function Bare(h: seq<Access>): (Temps, seq<Leaf>) {
    if h == [] then (map[], [])
    else
      var n := |h| - 1;
      var (m, ls) := Bare(h[..n]);
      if GoodMap(m) && h[n].Valid() then
        var (after, out) := Step(m, h[n], NoData);
        (after, ls + out)
      else (m, ls)
  }

  /** All leaves of a trace, without payloads. */
  ghost function Stream(h: seq<Access>, end: Time): seq<Leaf> {
    Bare(h).1 + Closing(Bare(h).0, end)
  }

  ghost predicate Tracks(h: seq<Access>, m: Temps, ls: seq<Leaf>) {
    Bare(h) == (EraseMap(m), EraseAll(ls))
  }

  lemma {:induction false} TracksStep(h: seq<Access>, m: Temps, ls: seq<Leaf>, a: Access, data: Data)
    requires GoodMap(m) && a.Valid() && Carries(data, a.bytes) && Tracks(h, m, ls)
    ensures var (after, out) := Step(m, a, data);
      Tracks(h + [a], after, ls + out)
  {
    EraseStep(m, a, data);
    assert (h + [a])[..|h|] == h;
    EraseConcat(ls, Step(m, a, data).1);
  }

  lemma {:induction false} TracksEnd(h: seq<Access>, m: Temps, ls: seq<Leaf>, end: Time)
    requires Tracks(h, m, ls)
    ensures EraseAll(ls + Closing(m, end)) == Stream(h, end)
  {
    EraseClosing(m, end);
    EraseConcat(ls, Closing(m, end));
  }

  // ---- payloads name stored bytes ----

  ghost predicate Stored(data: Data, section: seq<Byte>) {
    !data.NoData? && InSection(data, section)
  }

  ghost predicate MapStored(m: Temps, section: seq<Byte>) {
    forall k :: k in m ==> Stored(m[k].data, section)
  }

  ghost predicate LeavesStored(ls: seq<Leaf>, section: seq<Byte>) {
    forall i :: 0 <= i < |ls| ==> Stored(ls[i].data, section)
  }

  lemma {:induction false} MaskStored(e: Temp, box: Node, section: seq<Byte>)
    requires e.Valid() && e.addrMin <= box.addrMin <= box.addrMax <= e.addrMax && Stored(e.data, section)
    ensures Stored(e.Mask(box).data, section)
  {
    CutCarries(e.data, e.bytes, (box.addrMin - e.addrMin) as nat, (e.addrMax - box.addrMax) as nat);
  }

  lemma {:induction false} OverlayStored(m: Temps, w: Temp, section: seq<Byte>)
    requires GoodMap(m) && w.Valid() && MapStored(m, section) && Stored(w.data, section)
    ensures MapStored(Overlay(m, w), section)
  {
    forall k | k in Overlay(m, w) ensures Stored(Overlay(m, w)[k].data, section) {
      var j := OverlaySource(m, w, k);
      SourceStored(m, w, k, Overlay(m, w)[k], j, section);
    }
  }

  lemma {:induction false} SourceStored(m: Temps, w: Temp, k: Addr, p: Temp, j: Addr, section: seq<Byte>)
    requires GoodMap(m) && w.Valid() && MapStored(m, section) && Stored(w.data, section) && Source(m, w, k, p, j)
    ensures Stored(p.data, section)
  {
    if k == w.addrMin && p == w {
    } else if !Touches(m[j], w) {
    } else if Leftover(m, w, j) && k == j && p == LeftOf(m[j], w) {
      MaskStored(m[j], Node(m[j].addrMin, w.addrMin - 1, m[j].timeMin, TIME_MAX), section);
    } else {
      MaskStored(m[j], Node(w.addrMax + 1, m[j].addrMax, m[j].timeMin, TIME_MAX), section);
    }
  }

  lemma {:induction false} ClosedStored(m: Temps, ks: seq<Addr>, w: Temp, section: seq<Byte>)
    requires GoodMap(m) && w.Valid() && TouchedKeys(m, ks, w) && MapStored(m, section)
    ensures LeavesStored(ClosedAll(m, ks, w), section)
  {
    if ks != [] {
      var n := |ks| - 1;
      ClosedStored(m, ks[..n], w, section);
      if m[ks[n]].timeMin < w.timeMin {
        MaskStored(m[ks[n]], Overlap(m[ks[n]], w), section);
      }
    }
  }

  lemma {:induction false} StepStored(m: Temps, ls: seq<Leaf>, a: Access, data: Data, section: seq<Byte>)
    requires GoodMap(m) && a.Valid() && Carries(data, a.bytes)
    requires MapStored(m, section) && LeavesStored(ls, section) && Stored(data, section)
    ensures MapStored(Step(m, a, data).0, section) && LeavesStored(ls + Step(m, a, data).1, section)
  {
    if !(a.canDedup && IsDuplicate(m, a)) {
      var w := a.Open(data);
      OverlayStored(m, w, section);
      ClosedStored(m, SortedKeys(TouchedBy(m, w)), w, section);
    }
  }

  lemma {:induction false} SectionGrows(data: Data, section: seq<Byte>, more: seq<Byte>)
    requires Stored(data, section)
    ensures Stored(data, section + more)
  {
    if data.Outline? {
      assert (section + more)[data.offset..data.offset + |data.slice|]
              == section[data.offset..data.offset + |data.slice|];
    }
  }

  lemma {:induction false} AllGrow(m: Temps, ls: seq<Leaf>, section: seq<Byte>, more: seq<Byte>)
    requires MapStored(m, section) && LeavesStored(ls, section)
    ensures MapStored(m, section + more) && LeavesStored(ls, section + more)
  {
    forall k | k in m ensures Stored(m[k].data, section + more) {
      SectionGrows(m[k].data, section, more);
    }
    forall i | 0 <= i < |ls| ensures Stored(ls[i].data, section + more) {
      SectionGrows(ls[i].data, section, more);
    }
  }

  lemma {:induction false} ClosingStored(m: Temps, ls: seq<Leaf>, now: Time, section: seq<Byte>)
    requires MapStored(m, section) && LeavesStored(ls, section)
    ensures LeavesStored(ls + Closing(m, now), section)
  {
  }
}
