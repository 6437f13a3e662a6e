/** Best-first search for the kept leaf of least key. */
module Nearest {
  import opened Ranges
  import opened PackedTree

  datatype Status = Keep(key: Time) | Ignore

  /** A heap entry; entries of level `Depth()` are leaves. */
  datatype Item = Item(level: nat, idx: nat, key: Time)

  /** Heap order: `a` comes out before `b` (least key first, then deepest level). */
  predicate Before(a: Item, b: Item) {
    a.key < b.key || (a.key == b.key && a.level > b.level)
  }

  function StatusAt<N, L>(t: RTree<N, L>, visitNode: N -> Status, visitLeaf: L -> Status, level: nat, idx: nat): Status
    requires level <= t.Depth() && idx < t.LevelLen(level)
  {
    if level < t.Depth() then visitNode(t.levels[level][idx]) else visitLeaf(t.leaves[idx])
  }

  /** Above every kept leaf all nodes are kept, with keys no greater than the leaf's. */
  ghost predicate Admissible<N(!new), L(!new)>(t: RTree<N, L>, visitNode: N -> Status, visitLeaf: L -> Status)
    requires t.Shape()
  {
    forall h, j :: 1 <= h <= t.Depth() && 0 <= j < |t.leaves| ==>
      Bounds(visitNode(AncestorNode(t, h, j)), visitLeaf(t.leaves[j]))
  }

  /** `above` is kept with a key no greater than that of `below`, if `below` is kept. */
  predicate Bounds(above: Status, below: Status) {
    below.Keep? ==> above.Keep? && above.key <= below.key
  }

  ghost predicate Live<N, L>(t: RTree<N, L>, visitNode: N -> Status, visitLeaf: L -> Status, item: Item) {
    && item.level <= t.Depth() && item.idx < t.LevelLen(item.level)
    && StatusAt(t, visitNode, visitLeaf, item.level, item.idx) == Keep(item.key)
  }

  ghost predicate Under<N, L>(t: RTree<N, L>, item: Item, j: nat) {
    item.level <= t.Depth() && item.idx == Ancestor(t.Group(), t.Depth() - item.level, j)
  }

  ghost predicate Reached<N, L>(t: RTree<N, L>, heap: seq<Item>, j: nat) {
    exists i :: 0 <= i < |heap| && Under(t, heap[i], j)
  }

  ghost predicate KeptLeaf<N, L>(t: RTree<N, L>, visitLeaf: L -> Status, j: nat) {
    j < |t.leaves| && visitLeaf(t.leaves[j]).Keep?
  }

  ghost predicate HeapLive<N, L>(t: RTree<N, L>, visitNode: N -> Status, visitLeaf: L -> Status, heap: seq<Item>) {
    forall i :: 0 <= i < |heap| ==> Live(t, visitNode, visitLeaf, heap[i])
  }

  /** Every kept leaf lies under some entry of the heap. */
  ghost predicate AllReached<N, L>(t: RTree<N, L>, visitLeaf: L -> Status, heap: seq<Item>) {
    forall j: nat :: KeptLeaf(t, visitLeaf, j) ==> Reached(t, heap, j)
  }

  /** An entry's key bounds from below the keys of the kept leaves under it. */
  lemma {:induction false} KeyBound<N(!new), L(!new)>(t: RTree<N, L>, visitNode: N -> Status, visitLeaf: L -> Status,
                                                      item: Item, j: nat)
    requires t.Shape() && Admissible(t, visitNode, visitLeaf)
    requires Live(t, visitNode, visitLeaf, item) && Under(t, item, j) && KeptLeaf(t, visitLeaf, j)
    ensures item.key <= visitLeaf(t.leaves[j]).key
  {
    var h := t.Depth() - item.level;
    if h > 0 {
      assert AncestorNode(t, h, j) == t.levels[item.level][item.idx];
    }
  }

  // ---- the heap ----

  /** No entry comes before the `i`-th. */
  predicate IsFirst(heap: seq<Item>, i: nat) {
    i < |heap| && forall j :: 0 <= j < |heap| ==> !Before(heap[j], heap[i])
  }

  lemma {:induction false} FirstExists(heap: seq<Item>)
    requires heap != []
    ensures exists i :: IsFirst(heap, i)
  {
    var i := 0;
    var k := 1;
    while k < |heap|
      invariant 0 <= i < k <= |heap|
      invariant forall j :: 0 <= j < k ==> !Before(heap[j], heap[i])
    {
      if Before(heap[k], heap[i]) {
        i := k;
      }
      k := k + 1;
    }
    assert IsFirst(heap, i);
  }

  /** Takes out one entry that no other comes before; ties go either way. */
  method PopFirst(heap: seq<Item>) returns (item: Item, rest: seq<Item>, ghost at: nat)
    requires heap != []
    ensures at < |heap| && item == heap[at] && rest == heap[..at] + heap[at + 1..]
    ensures forall j :: 0 <= j < |heap| ==> !Before(heap[j], item)
  {
    FirstExists(heap);
    var i: nat :| i < |heap| && IsFirst(heap, i);
    item, rest, at := heap[i], heap[..i] + heap[i + 1..], i;
  }

  /** Upper bound on the number of entries ever pushed below one entry, `h` levels above the leaves. */
  ghost function Weight(g: nat, h: nat): nat {
    if h == 0 then 1 else 1 + g * Weight(g, h - 1)
  }

  ghost function HeapWeight<N, L>(t: RTree<N, L>, heap: seq<Item>): nat {
    if heap == [] then 0
    else
      var last := heap[|heap| - 1];
      HeapWeight(t, heap[..|heap| - 1])
      + if last.level <= t.Depth() then Weight(t.Group(), t.Depth() - last.level) else 0
  }

  lemma {:induction false} HeapWeightConcat<N, L>(t: RTree<N, L>, a: seq<Item>, b: seq<Item>)
    ensures HeapWeight(t, a + b) == HeapWeight(t, a) + HeapWeight(t, b)
  {
    if b == [] {
      assert a + b == a;
    } else {
      HeapWeightConcat(t, a, b[..|b| - 1]);
      assert (a + b)[..|a + b| - 1] == a + b[..|b| - 1];
    }
  }

  lemma {:induction false} HeapWeightWithout<N, L>(t: RTree<N, L>, heap: seq<Item>, at: nat)
    requires at < |heap| && heap[at].level <= t.Depth()
    ensures HeapWeight(t, heap)
         == HeapWeight(t, heap[..at] + heap[at + 1..]) + Weight(t.Group(), t.Depth() - heap[at].level)
  {
    assert heap == heap[..at] + [heap[at]] + heap[at + 1..];
    HeapWeightConcat(t, heap[..at] + [heap[at]], heap[at + 1..]);
    HeapWeightConcat(t, heap[..at], [heap[at]]);
    HeapWeightConcat(t, heap[..at], heap[at + 1..]);
    assert [heap[at]][..0] == [];
  }

  // ---- visiting a group ----

  ghost predicate FromGroup<N, L>(t: RTree<N, L>, visitNode: N -> Status, visitLeaf: L -> Status, level: nat,
                                  from: nat, to: nat, pushed: seq<Item>)
    requires level <= t.Depth() && to <= t.LevelLen(level)
  {
    && (forall i :: 0 <= i < |pushed| ==> Live(t, visitNode, visitLeaf, pushed[i]) && pushed[i].level == level)
    && (forall k :: from <= k < to && StatusAt(t, visitNode, visitLeaf, level, k).Keep? ==>
          exists i :: 0 <= i < |pushed| && pushed[i].idx == k)
    && HeapWeight(t, pushed) <= (to - from) * Weight(t.Group(), t.Depth() - level)
  }

  /** Pushes the kept entries of the group of `level` that starts at `start`. */
  method VisitGroup<N, L>(t: RTree<N, L>, visitNode: N -> Status, visitLeaf: L -> Status, level: nat, start: nat)
    returns (pushed: seq<Item>)
    requires level <= t.Depth() && start <= t.LevelLen(level)
    ensures FromGroup(t, visitNode, visitLeaf, level, start, Min(start + t.Group(), t.LevelLen(level)), pushed)
  {
    pushed := [];
    var end := Min(start + t.Group(), t.LevelLen(level));
    var idx := start;
    while idx < end
      invariant start <= idx <= end
      invariant FromGroup(t, visitNode, visitLeaf, level, start, idx, pushed)
    {
      match StatusAt(t, visitNode, visitLeaf, level, idx) {
        case Keep(key) =>
          VisitKeep(t, visitNode, visitLeaf, level, start, idx, pushed, key);
          pushed := pushed + [Item(level, idx, key)];
        case Ignore =>
          VisitIgnore(t, visitNode, visitLeaf, level, start, idx, pushed);
      }
      idx := idx + 1;
    }
  }

  lemma {:induction false} VisitKeep<N, L>(t: RTree<N, L>, visitNode: N -> Status, visitLeaf: L -> Status, level: nat,
                                           start: nat, idx: nat, pushed: seq<Item>, key: Time)
    requires level <= t.Depth() && start <= idx < t.LevelLen(level)
    requires FromGroup(t, visitNode, visitLeaf, level, start, idx, pushed)
    requires StatusAt(t, visitNode, visitLeaf, level, idx) == Keep(key)
    ensures FromGroup(t, visitNode, visitLeaf, level, start, idx + 1, pushed + [Item(level, idx, key)])
  {
    var after := pushed + [Item(level, idx, key)];
    assert after[..|after| - 1] == pushed;
    assert after[|pushed|].idx == idx;
    forall k | start <= k < idx && StatusAt(t, visitNode, visitLeaf, level, k).Keep?
      ensures exists i :: 0 <= i < |after| && after[i].idx == k
    {
      var i :| 0 <= i < |pushed| && pushed[i].idx == k;
      assert after[i].idx == k;
    }
    WeightStep(idx - start, Weight(t.Group(), t.Depth() - level));
  }

  lemma {:induction false} VisitIgnore<N, L>(t: RTree<N, L>, visitNode: N -> Status, visitLeaf: L -> Status,
                                             level: nat, start: nat, idx: nat, pushed: seq<Item>)
    requires level <= t.Depth() && start <= idx < t.LevelLen(level)
    requires FromGroup(t, visitNode, visitLeaf, level, start, idx, pushed)
    requires StatusAt(t, visitNode, visitLeaf, level, idx).Ignore?
    ensures FromGroup(t, visitNode, visitLeaf, level, start, idx + 1, pushed)
  {
    WeightStep(idx - start, Weight(t.Group(), t.Depth() - level));
  }

  lemma {:induction false} WeightStep(n: nat, w: nat)
    ensures (n + 1) * w == n * w + w
  {
  }

  /** The child of an entry above a kept leaf is in the entry's group, and kept. */
  lemma {:induction false} ChildKept<N(!new), L(!new)>(t: RTree<N, L>, visitNode: N -> Status, visitLeaf: L -> Status,
                                                       item: Item, j: nat)
    returns (a: nat)
    requires t.Shape() && Admissible(t, visitNode, visitLeaf)
    requires item.level < t.Depth() && Under(t, item, j) && KeptLeaf(t, visitLeaf, j)
    ensures a == Ancestor(t.Group(), t.Depth() - item.level - 1, j) && a < t.LevelLen(item.level + 1)
    ensures item.idx * t.Group() <= a < item.idx * t.Group() + t.Group()
    ensures StatusAt(t, visitNode, visitLeaf, item.level + 1, a).Keep?
  {
    var g, h := t.Group(), t.Depth() - item.level - 1;
    a := Ancestor(g, h, j);
    assert Ancestor(g, h + 1, j) == a / g;
    DivMulGalois(g, item.idx, a);
    DivMulGalois(g, item.idx + 1, a);
    WeightStep(item.idx, g);
    AncestorInRange(t, h, j);
    assert h > 0 ==> AncestorNode(t, h, j) == t.levels[item.level + 1][a];
  }

  /** Replacing an entry by its kept children loses no kept leaf. */
  lemma {:induction false} Expand<N(!new), L(!new)>(t: RTree<N, L>, visitNode: N -> Status, visitLeaf: L -> Status,
                                                    item: Item, start: nat, pushed: seq<Item>, j: nat)
    requires t.Shape() && Admissible(t, visitNode, visitLeaf)
    requires item.level < t.Depth() && Under(t, item, j) && KeptLeaf(t, visitLeaf, j)
    requires start == item.idx * t.Group() && start <= t.LevelLen(item.level + 1)
    requires FromGroup(t, visitNode, visitLeaf, item.level + 1, start,
                       Min(start + t.Group(), t.LevelLen(item.level + 1)), pushed)
    ensures Reached(t, pushed, j)
  {
    var a := ChildKept(t, visitNode, visitLeaf, item, j);
    var i :| 0 <= i < |pushed| && pushed[i].idx == a;
    assert Under(t, pushed[i], j);
  }

  /** One round of the search: the popped entry is replaced by its kept children. */
  lemma {:induction false} Round<N(!new), L(!new)>(t: RTree<N, L>, visitNode: N -> Status, visitLeaf: L -> Status,
                                                   heap: seq<Item>, at: nat, start: nat, pushed: seq<Item>)
    requires t.Shape() && Admissible(t, visitNode, visitLeaf)
    requires HeapLive(t, visitNode, visitLeaf, heap) && AllReached(t, visitLeaf, heap)
    requires at < |heap| && heap[at].level < t.Depth()
    requires start == heap[at].idx * t.Group() && start <= t.LevelLen(heap[at].level + 1)
    requires FromGroup(t, visitNode, visitLeaf, heap[at].level + 1, start,
                       Min(start + t.Group(), t.LevelLen(heap[at].level + 1)), pushed)
    ensures AllReached(t, visitLeaf, heap[..at] + heap[at + 1..] + pushed)
  {
    var rest := heap[..at] + heap[at + 1..];
    forall j: nat | KeptLeaf(t, visitLeaf, j) ensures Reached(t, rest + pushed, j) {
      var i :| 0 <= i < |heap| && Under(t, heap[i], j);
      if i == at {
        Expand(t, visitNode, visitLeaf, heap[at], start, pushed, j);
        var k :| 0 <= k < |pushed| && Under(t, pushed[k], j);
        assert Under(t, (rest + pushed)[|rest| + k], j);
      } else {
        var k := if i < at then i else i - 1;
        assert (rest + pushed)[k] == heap[i];
      }
    }
  }

  lemma {:induction false} RoundWeight<N, L>(t: RTree<N, L>, visitNode: N -> Status, visitLeaf: L -> Status,
                                             heap: seq<Item>, at: nat, start: nat, pushed: seq<Item>)
    requires at < |heap| && heap[at].level < t.Depth() && start <= t.LevelLen(heap[at].level + 1)
    requires FromGroup(t, visitNode, visitLeaf, heap[at].level + 1, start,
                       Min(start + t.Group(), t.LevelLen(heap[at].level + 1)), pushed)
    ensures HeapWeight(t, heap[..at] + heap[at + 1..] + pushed) < HeapWeight(t, heap)
  {
    var level := heap[at].level;
    var n, w := Min(start + t.Group(), t.LevelLen(level + 1)) - start, Weight(t.Group(), t.Depth() - level - 1);
    MulMono(n, t.Group(), w);
    HeapWeightWithout(t, heap, at);
    HeapWeightConcat(t, heap[..at] + heap[at + 1..], pushed);
  }

  lemma {:induction false} MulMono(a: nat, b: nat, w: nat)
    requires a <= b
    ensures a * w <= b * w
  {
  }

  /** The result is a kept leaf of least key, and there is none exactly when no leaf is kept. */
  method NearestNeighbor<N(!new), L(!new)>(t: RTree<N, L>, visitNode: N -> Status, visitLeaf: L -> Status)
    returns (r: Option<L>)
    requires t.Shape() && Admissible(t, visitNode, visitLeaf)
    ensures r.None? <==> forall j :: 0 <= j < |t.leaves| ==> visitLeaf(t.leaves[j]).Ignore?
    ensures r.Some? ==> r.value in t.leaves && visitLeaf(r.value).Keep?
    ensures r.Some? ==> forall j: nat :: KeptLeaf(t, visitLeaf, j) ==>
            visitLeaf(r.value).key <= visitLeaf(t.leaves[j]).key
  {
    var heap := VisitGroup(t, visitNode, visitLeaf, 0, 0);
    Start(t, visitNode, visitLeaf, heap);
    while heap != []
      invariant HeapLive(t, visitNode, visitLeaf, heap) && AllReached(t, visitLeaf, heap)
      decreases HeapWeight(t, heap)
    {
      var item, rest, at := PopFirst(heap);
      if item.level < t.Depth() {
        var start := item.idx * t.Group();
        assert t.Packs(item.level);
        CeilDivIs(t.LevelLen(item.level + 1), t.Group(), item.idx);
        var pushed := VisitGroup(t, visitNode, visitLeaf, item.level + 1, start);
        Round(t, visitNode, visitLeaf, heap, at, start, pushed);
        RoundWeight(t, visitNode, visitLeaf, heap, at, start, pushed);
        heap := rest + pushed;
      } else {
        Best(t, visitNode, visitLeaf, heap, item);
        return Some(t.leaves[item.idx]);
      }
    }
    forall j | 0 <= j < |t.leaves| ensures visitLeaf(t.leaves[j]).Ignore? {
      assert KeptLeaf(t, visitLeaf, j) ==> Reached(t, heap, j);
    }
    return None;
  }

  lemma {:induction false} Start<N(!new), L(!new)>(t: RTree<N, L>, visitNode: N -> Status, visitLeaf: L -> Status,
                                                   heap: seq<Item>)
    requires t.Shape() && Admissible(t, visitNode, visitLeaf)
    requires FromGroup(t, visitNode, visitLeaf, 0, 0, Min(t.Group(), t.LevelLen(0)), heap)
    ensures HeapLive(t, visitNode, visitLeaf, heap) && AllReached(t, visitLeaf, heap)
  {
    forall j: nat | KeptLeaf(t, visitLeaf, j) ensures Reached(t, heap, j) {
      var a := RootKept(t, visitNode, visitLeaf, j);
      var i :| 0 <= i < |heap| && heap[i].idx == a;
      assert Under(t, heap[i], j);
    }
  }

  lemma {:induction false} RootKept<N(!new), L(!new)>(t: RTree<N, L>, visitNode: N -> Status, visitLeaf: L -> Status,
                                                      j: nat)
    returns (a: nat)
    requires t.Shape() && Admissible(t, visitNode, visitLeaf) && KeptLeaf(t, visitLeaf, j)
    ensures a == Ancestor(t.Group(), t.Depth(), j) && a < t.LevelLen(0)
    ensures StatusAt(t, visitNode, visitLeaf, 0, a).Keep?
  {
    a := Ancestor(t.Group(), t.Depth(), j);
    AncestorInRange(t, t.Depth(), j);
    assert t.Depth() > 0 ==> AncestorNode(t, t.Depth(), j) == t.levels[0][a];
  }

  /** A leaf that comes out first is a best one: each kept leaf is bounded by an entry still in the heap. */
  lemma {:induction false} Best<N(!new), L(!new)>(t: RTree<N, L>, visitNode: N -> Status, visitLeaf: L -> Status,
                                                  heap: seq<Item>, item: Item)
    requires t.Shape() && Admissible(t, visitNode, visitLeaf)
    requires HeapLive(t, visitNode, visitLeaf, heap) && AllReached(t, visitLeaf, heap)
    requires item in heap && item.level >= t.Depth()
    requires forall i :: 0 <= i < |heap| ==> !Before(heap[i], item)
    ensures item.idx < |t.leaves| && visitLeaf(t.leaves[item.idx]) == Keep(item.key)
    ensures forall j: nat :: KeptLeaf(t, visitLeaf, j) ==> item.key <= visitLeaf(t.leaves[j]).key
  {
    forall j: nat | KeptLeaf(t, visitLeaf, j) ensures item.key <= visitLeaf(t.leaves[j]).key {
      var i :| 0 <= i < |heap| && Under(t, heap[i], j);
      KeyBound(t, visitNode, visitLeaf, heap[i], j);
    }
  }
}
