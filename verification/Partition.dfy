/** The second and third pass over one tree: counting leaves per partition, then filling and sorting them. */
module Partition {
  import opened Sums

  const PARTITIONS: nat := 256

  /** The leaves of `xs` whose partition is `p`, in order. */
  function OfPart<L>(xs: seq<L>, part: L -> nat, p: nat): seq<L> {
    if xs == [] then []
    else
      var last := xs[|xs| - 1];
      OfPart(xs[..|xs| - 1], part, p) + if part(last) == p then [last] else []
  }

  lemma {:induction false} OfPartAppend<L>(xs: seq<L>, part: L -> nat, x: L, p: nat)
    ensures OfPart(xs + [x], part, p) == OfPart(xs, part, p) + if part(x) == p then [x] else []
  {
    assert (xs + [x])[..|xs|] == xs;
  }

  lemma {:induction false} OfPartPrefix<L>(xs: seq<L>, part: L -> nat, p: nat, n: nat)
    requires n <= |xs|
    ensures |OfPart(xs[..n], part, p)| <= |OfPart(xs, part, p)|
  {
    if n < |xs| {
      OfPartPrefix(xs[..|xs| - 1], part, p, n);
      assert xs[..|xs| - 1][..n] == xs[..n];
    } else {
      assert xs[..n] == xs;
    }
  }

  /** Partition sizes depend on the partition keys only, not on what else the leaves carry. */
  lemma {:induction false} SameKeysSameCounts<A, B>(xs: seq<A>, ys: seq<B>, partA: A -> nat, partB: B -> nat, p: nat)
    requires |xs| == |ys| && forall i :: 0 <= i < |xs| ==> partA(xs[i]) == partB(ys[i])
    ensures |OfPart(xs, partA, p)| == |OfPart(ys, partB, p)|
  {
    if xs != [] {
      SameKeysSameCounts(xs[..|xs| - 1], ys[..|ys| - 1], partA, partB, p);
    }
  }

  /** The partition sizes add up to the number of leaves. */
  lemma {:induction false} CountsSum<L>(xs: seq<L>, part: L -> nat, counts: seq<nat>)
    requires Counted(xs, part, counts) && forall x :: x in xs ==> part(x) < PARTITIONS
    ensures Sum(counts) == |xs|
  {
    if xs == [] {
      SumZeros(counts);
    } else {
      var rest, p := xs[..|xs| - 1], part(xs[|xs| - 1]);
      assert counts[p] == |OfPart(xs, part, p)|;
      var before := counts[p := (counts[p] - 1) as nat];
      CountsSum(rest, part, before);
      SumUpdate(before, p, counts[p]);
      assert before[p := counts[p]] == counts;
    }
  }

  // ---- second pass ----

  ghost predicate Counted<L>(xs: seq<L>, part: L -> nat, counts: seq<nat>) {
    |counts| == PARTITIONS && forall p :: 0 <= p < PARTITIONS ==> counts[p] == |OfPart(xs, part, p)|
  }

  class RTreePartitions<L> {
    const part: L -> nat
    var counts: seq<nat>
    ghost var pushed: seq<L>

    ghost predicate Valid()
      reads this
    {
      Counted(pushed, part, counts)
    }

    constructor (part: L -> nat)
      ensures Valid() && this.part == part && pushed == []
    {
      this.part := part;
      counts, pushed := seq(PARTITIONS, _ => 0), [];
    }

    method PushLeaf(leaf: L)
      requires Valid() && part(leaf) < PARTITIONS
      modifies this
      ensures Valid() && pushed == old(pushed) + [leaf]
    {
      var key := part(leaf);
      counts := counts[key := counts[key] + 1];
      forall p | 0 <= p < PARTITIONS ensures counts[p] == |OfPart(pushed + [leaf], part, p)| {
        OfPartAppend(pushed, part, leaf, p);
      }
      pushed := pushed + [leaf];
    }
  }

  // ---- sorting one partition ----

  ghost predicate SortedBy<L>(xs: seq<L>, key: L -> nat) {
    forall i, j :: 0 <= i < j < |xs| ==> key(xs[i]) <= key(xs[j])
  }

  /** Puts `x` behind the entries whose key is not greater. */
  function InsertByKey<L>(xs: seq<L>, x: L, key: L -> nat): seq<L> {
    if xs == [] || key(xs[|xs| - 1]) <= key(x) then xs + [x]
    else InsertByKey(xs[..|xs| - 1], x, key) + [xs[|xs| - 1]]
  }

  /** A stable sort by key. */
  function SortByKey<L>(xs: seq<L>, key: L -> nat): seq<L> {
    if xs == [] then [] else InsertByKey(SortByKey(xs[..|xs| - 1], key), xs[|xs| - 1], key)
  }

  lemma {:induction false} InsertByKeyPermutes<L>(xs: seq<L>, x: L, key: L -> nat)
    ensures multiset(InsertByKey(xs, x, key)) == multiset(xs) + multiset{x}
  {
    if xs != [] && key(xs[|xs| - 1]) > key(x) {
      InsertByKeyPermutes(xs[..|xs| - 1], x, key);
      assert xs == xs[..|xs| - 1] + [xs[|xs| - 1]];
    }
  }

  lemma {:induction false} InsertByKeySorts<L>(xs: seq<L>, x: L, key: L -> nat)
    requires SortedBy(xs, key)
    ensures SortedBy(InsertByKey(xs, x, key), key)
  {
    if xs != [] && key(xs[|xs| - 1]) > key(x) {
      var last := xs[|xs| - 1];
      InsertByKeySorts(xs[..|xs| - 1], x, key);
      InsertByKeyPermutes(xs[..|xs| - 1], x, key);
      AppendSorted(InsertByKey(xs[..|xs| - 1], x, key), xs[..|xs| - 1], x, last, key);
    }
  }

  lemma {:induction false} AppendSorted<L>(ys: seq<L>, xs: seq<L>, x: L, last: L, key: L -> nat)
    requires SortedBy(ys, key) && multiset(ys) == multiset(xs) + multiset{x}
    requires key(x) <= key(last) && forall i :: 0 <= i < |xs| ==> key(xs[i]) <= key(last)
    ensures SortedBy(ys + [last], key)
  {
    forall i | 0 <= i < |ys| ensures key(ys[i]) <= key(last) {
      assert ys[i] in multiset(ys);
    }
  }

  lemma {:induction false} SortByKeyIs<L>(xs: seq<L>, key: L -> nat)
    ensures SortedBy(SortByKey(xs, key), key)
    ensures multiset(SortByKey(xs, key)) == multiset(xs)
    ensures |SortByKey(xs, key)| == |xs|
  {
    if xs != [] {
      SortByKeyIs(xs[..|xs| - 1], key);
      InsertByKeySorts(SortByKey(xs[..|xs| - 1], key), xs[|xs| - 1], key);
      InsertByKeyPermutes(SortByKey(xs[..|xs| - 1], key), xs[|xs| - 1], key);
      assert xs == xs[..|xs| - 1] + [xs[|xs| - 1]];
    }
    assert |SortByKey(xs, key)| == |multiset(SortByKey(xs, key))|;
  }

  // ---- third pass ----

  /** A partition collects its leaves until complete; then it is written once, sorted, and left alone. */
  ghost predicate PartState<L>(mine: seq<L>, key: L -> nat, count: nat, buffer: seq<L>, slot: seq<L>, flushes: nat) {
    if |mine| < count || count == 0 then buffer == mine && slot == [] && flushes == 0
    else buffer == [] && slot == SortByKey(mine, key) && flushes == 1
  }

  ghost predicate FillState<L>(xs: seq<L>, part: L -> nat, key: L -> nat, counts: seq<nat>, buffers: seq<seq<L>>,
                               slots: seq<seq<L>>, flushes: seq<nat>) {
    && |counts| == |buffers| == |slots| == |flushes| == PARTITIONS
    && forall p :: 0 <= p < PARTITIONS ==>
         PartState(OfPart(xs, part, p), key, counts[p], buffers[p], slots[p], flushes[p])
  }

  /** Filling one tree: buffers per partition, each sorted and written out the moment it is complete. */
  class FillTree<L(!new)> {
    const part: L -> nat
    const key: L -> nat
    const counts: seq<nat>
    var buffers: seq<seq<L>>
    var slots: seq<seq<L>>
    ghost var flushes: seq<nat>
    ghost var pushed: seq<L>

    ghost predicate Valid()
      reads this
    {
      FillState(pushed, part, key, counts, buffers, slots, flushes)
    }

    constructor (part: L -> nat, key: L -> nat, counts: seq<nat>)
      requires |counts| == PARTITIONS
      ensures Valid() && this.part == part && this.key == key && this.counts == counts && pushed == []
    {
      this.part, this.key, this.counts := part, key, counts;
      buffers, slots := seq(PARTITIONS, _ => []), seq(PARTITIONS, _ => []);
      flushes, pushed := seq(PARTITIONS, _ => 0), [];
      new;
      forall p | 0 <= p < PARTITIONS
        ensures PartState(OfPart(pushed, part, p), key, counts[p], buffers[p], slots[p], flushes[p])
      {
        assert buffers[p] == [] && slots[p] == [] && flushes[p] == 0;
      }
    }

    method PushLeaf(leaf: L)
      requires Valid() && part(leaf) < PARTITIONS
      requires |OfPart(pushed, part, part(leaf))| < counts[part(leaf)]
      modifies this
      ensures Valid() && pushed == old(pushed) + [leaf]
    {
      var p := part(leaf);
      OthersKeep(leaf);
      MineGrows(leaf);
      buffers := buffers[p := buffers[p] + [leaf]];
      if |buffers[p]| == counts[p] {
        var unsorted := buffers[p];
        buffers := buffers[p := []];
        slots := slots[p := SortByKey(unsorted, key)];
        flushes := flushes[p := flushes[p] + 1];
      }
      pushed := pushed + [leaf];
    }

    lemma {:induction false} OthersKeep(leaf: L)
      requires Valid()
      ensures forall q :: 0 <= q < PARTITIONS && q != part(leaf) ==>
                PartState(OfPart(pushed + [leaf], part, q), key, counts[q], buffers[q], slots[q], flushes[q])
    {
      forall q | 0 <= q < PARTITIONS && q != part(leaf)
        ensures PartState(OfPart(pushed + [leaf], part, q), key, counts[q], buffers[q], slots[q], flushes[q])
      {
        OfPartAppend(pushed, part, leaf, q);
        assert OfPart(pushed, part, q) + [] == OfPart(pushed, part, q);
        assert PartState(OfPart(pushed, part, q), key, counts[q], buffers[q], slots[q], flushes[q]);
      }
    }

    lemma {:induction false} MineGrows(leaf: L)
      requires Valid() && part(leaf) < PARTITIONS && |OfPart(pushed, part, part(leaf))| < counts[part(leaf)]
      ensures var p := part(leaf);
        var more := buffers[p] + [leaf];
        if |more| == counts[p] then PartState(OfPart(pushed + [leaf], part, p), key, counts[p], [],
                                          SortByKey(more, key), flushes[p] + 1)
        else PartState(OfPart(pushed + [leaf], part, p), key, counts[p], more, slots[p], flushes[p])
    {
      var p := part(leaf);
      OfPartAppend(pushed, part, leaf, p);
      assert PartState(OfPart(pushed, part, p), key, counts[p], buffers[p], slots[p], flushes[p]);
    }
  }

  function Concat<L>(xss: seq<seq<L>>): seq<L> {
    if xss == [] then [] else Concat(xss[..|xss| - 1]) + xss[|xss| - 1]
  }

  lemma {:induction false} OfPartCount<L>(xs: seq<L>, part: L -> nat, p: nat, x: L)
    ensures multiset(OfPart(xs, part, p))[x] == if part(x) == p then multiset(xs)[x] else 0
  {
    if xs != [] {
      OfPartCount(xs[..|xs| - 1], part, p, x);
      assert xs == xs[..|xs| - 1] + [xs[|xs| - 1]];
    }
  }

  ghost predicate Filled<L>(xs: seq<L>, part: L -> nat, key: L -> nat, slots: seq<seq<L>>) {
    forall p :: 0 <= p < |slots| ==> slots[p] == SortByKey(OfPart(xs, part, p), key)
  }

  /** The first `n` slots hold each leaf of the first `n` partitions as often as it came. */
  lemma {:induction false} ConcatCount<L>(xs: seq<L>, part: L -> nat, key: L -> nat, slots: seq<seq<L>>, n: nat, x: L)
    requires n <= |slots| && Filled(xs, part, key, slots)
    ensures multiset(Concat(slots[..n]))[x] == if part(x) < n then multiset(xs)[x] else 0
  {
    if n > 0 {
      ConcatCount(xs, part, key, slots, n - 1, x);
      OfPartCount(xs, part, n - 1, x);
      SortByKeyIs(OfPart(xs, part, n - 1), key);
      assert slots[..n][..n - 1] == slots[..n - 1];
    }
  }

  lemma {:induction false} ConcatPermutes<L(!new)>(xs: seq<L>, part: L -> nat, key: L -> nat, slots: seq<seq<L>>)
    requires Filled(xs, part, key, slots) && forall x :: x in xs ==> part(x) < |slots|
    ensures multiset(Concat(slots)) == multiset(xs)
  {
    var all := Concat(slots);
    forall x ensures SameCount(all, xs, x) {
      ConcatCountAll(xs, part, key, slots, x);
    }
    SameCounts(all, xs);
  }

  lemma {:induction false} TwicePresent<L>(xs: seq<L>, i: nat, j: nat)
    requires i < j < |xs| && xs[i] == xs[j]
    ensures multiset(xs)[xs[i]] >= 2
  {
    assert xs == xs[..i] + [xs[i]] + xs[i + 1..j] + [xs[j]] + xs[j + 1..];
  }

  ghost predicate SameCount<L>(xs: seq<L>, ys: seq<L>, x: L) {
    multiset(xs)[x] == multiset(ys)[x]
  }

  lemma {:induction false} SameCounts<L(!new)>(xs: seq<L>, ys: seq<L>)
    requires forall x :: SameCount(xs, ys, x)
    ensures multiset(xs) == multiset(ys)
  {
    assert forall x :: SameCount(xs, ys, x) ==> multiset(xs)[x] == multiset(ys)[x];
  }

  lemma {:induction false} ConcatCountAll<L>(xs: seq<L>, part: L -> nat, key: L -> nat, slots: seq<seq<L>>, x: L)
    requires Filled(xs, part, key, slots) && (x in xs ==> part(x) < |slots|)
    ensures SameCount(Concat(slots), xs, x)
  {
    ConcatCount(xs, part, key, slots, |slots|, x);
    assert slots[..|slots|] == slots;
    assert x !in xs ==> multiset(xs)[x] == 0;
  }

  /** The partition number is a prefix of the sort key. */
  ghost predicate Aligned<L(!new)>(part: L -> nat, key: L -> nat) {
    forall a, b :: part(a) < part(b) ==> key(a) <= key(b)
  }

  lemma {:induction false} ConcatSorted<L(!new)>(xs: seq<L>, part: L -> nat, key: L -> nat, slots: seq<seq<L>>, n: nat)
    requires n <= |slots| && Aligned(part, key) && Filled(xs, part, key, slots)
    ensures SortedBy(Concat(slots[..n]), key)
  {
    if n > 0 {
      ConcatSorted(xs, part, key, slots, n - 1);
      SortByKeyIs(OfPart(xs, part, n - 1), key);
      assert slots[..n][..n - 1] == slots[..n - 1];
      JoinSorted(xs, part, key, slots, n - 1);
    }
  }

  lemma {:induction false} JoinSorted<L(!new)>(xs: seq<L>, part: L -> nat, key: L -> nat, slots: seq<seq<L>>, n: nat)
    requires n < |slots| && Aligned(part, key) && Filled(xs, part, key, slots)
    requires SortedBy(Concat(slots[..n]), key) && SortedBy(slots[n], key)
    ensures SortedBy(Concat(slots[..n]) + slots[n], key)
  {
    var a, b := Concat(slots[..n]), slots[n];
    SortByKeyIs(OfPart(xs, part, n), key);
    forall i, j | 0 <= i < |a| && 0 <= j < |b| ensures key(a[i]) <= key(b[j]) {
      assert a[i] in multiset(a) && b[j] in multiset(b);
      ConcatCount(xs, part, key, slots, n, a[i]);
      OfPartCount(xs, part, n, b[j]);
    }
  }

  /** Once every leaf counted by the second pass has come through the third, the buffers are empty, each
      non-empty partition was written exactly once, and the slots hold a permutation of the leaves,
      sorted as a whole when the partition number is a prefix of the key. */
  lemma {:induction false} Conservation<L(!new)>(xs: seq<L>, part: L -> nat, key: L -> nat, counts: seq<nat>,
                                                 buffers: seq<seq<L>>, slots: seq<seq<L>>, flushes: seq<nat>)
    requires FillState(xs, part, key, counts, buffers, slots, flushes) && Counted(xs, part, counts)
    requires forall x :: x in xs ==> part(x) < PARTITIONS
    ensures AllFlushed(counts, buffers, flushes)
    ensures multiset(Concat(slots)) == multiset(xs)
    ensures Aligned(part, key) ==> SortedBy(Concat(slots), key)
  {
    FillFlushes(xs, part, key, counts, buffers, slots, flushes);
    ConcatPermutes(xs, part, key, slots);
    if Aligned(part, key) {
      ConcatSorted(xs, part, key, slots, PARTITIONS);
      assert slots[..PARTITIONS] == slots;
    }
  }

  ghost predicate AllFlushed<L>(counts: seq<nat>, buffers: seq<seq<L>>, flushes: seq<nat>) {
    && |counts| == |buffers| == |flushes|
    && forall p :: 0 <= p < |counts| ==> buffers[p] == [] && flushes[p] == if counts[p] == 0 then 0 else 1
  }

  lemma {:induction false} FillFlushes<L>(xs: seq<L>, part: L -> nat, key: L -> nat, counts: seq<nat>,
                                          buffers: seq<seq<L>>, slots: seq<seq<L>>, flushes: seq<nat>)
    requires FillState(xs, part, key, counts, buffers, slots, flushes) && Counted(xs, part, counts)
    ensures AllFlushed(counts, buffers, flushes) && Filled(xs, part, key, slots)
  {
    forall p | 0 <= p < PARTITIONS
      ensures buffers[p] == [] && flushes[p] == (if counts[p] == 0 then 0 else 1)
      ensures slots[p] == SortByKey(OfPart(xs, part, p), key)
    {
      assert PartState(OfPart(xs, part, p), key, counts[p], buffers[p], slots[p], flushes[p]);
    }
  }
}
