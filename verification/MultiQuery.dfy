/** One query over several zones: the zones whose box is worth visiting, last one first. */
module MultiQuery {
  import opened Ranges
  import opened PackedTree
  import opened Query

  /** The leaves of the visited zones that pass the filter, last zone first. */
  ghost function Hits<L(!new)>(trees: seq<RTree<Node, L>>, fn: Node -> bool, fl: L -> bool): seq<L> {
    if trees == [] then []
    else
      var last := trees[|trees| - 1];
      (if fn(last.bbox) then Passing(last.leaves, fl, 0) else []) + Hits(trees[..|trees| - 1], fn, fl)
  }

  ghost predicate AllKeep<L(!new)>(trees: seq<RTree<Node, L>>, fn: Node -> bool, fl: L -> bool) {
    forall i :: 0 <= i < |trees| ==> trees[i].Shape() && Keeps(trees[i], fn, fl)
  }

  ghost predicate Traversal<L(!new)>(z: QueryIter<Node, L>, rest: seq<L>)
    reads z
  {
    z.Valid() && z.Remaining() == rest
  }

  /** The traversals are distinct and have `pending` still to yield, the last traversal first. */
  ghost predicate Stack<L(!new)>(zs: seq<QueryIter<Node, L>>, pending: seq<L>)
    reads zs
  {
    if zs == [] then pending == []
    else
      var z, below := zs[|zs| - 1], zs[..|zs| - 1];
      && z !in below && |z.Remaining()| <= |pending|
      && Traversal(z, pending[..|z.Remaining()|]) && Stack(below, pending[|z.Remaining()|..])
  }

  lemma {:induction false} StackPush<L(!new)>(zs: seq<QueryIter<Node, L>>, pending: seq<L>, z: QueryIter<Node, L>,
                                              rest: seq<L>)
    requires Stack(zs, pending) && Traversal(z, rest) && z !in zs
    ensures Stack(zs + [z], rest + pending)
  {
    assert (zs + [z])[..|zs|] == zs;
    assert (rest + pending)[..|rest|] == rest && (rest + pending)[|rest|..] == pending;
  }

  /** One call of a traversal takes the head of what is left. */
  method TakeNext<L(!new)>(z: QueryIter<Node, L>, ghost rest: seq<L>) returns (r: Option<L>, ghost rest': seq<L>)
    requires Traversal(z, rest)
    modifies z
    ensures r.Some? ==> Traversal(z, rest') && rest == [r.value] + rest'
    ensures r.None? ==> rest == []
  {
    r := z.Next();
    rest' := z.Remaining();
  }

  lemma {:induction false} StackTop<L(!new)>(zs: seq<QueryIter<Node, L>>, pending: seq<L>)
    returns (rest: seq<L>, others: seq<L>)
    requires zs != [] && Stack(zs, pending)
    ensures pending == rest + others && zs[|zs| - 1] !in zs[..|zs| - 1]
    ensures Traversal(zs[|zs| - 1], rest) && Stack(zs[..|zs| - 1], others)
  {
    var n := |zs[|zs| - 1].Remaining()|;
    rest, others := pending[..n], pending[n..];
  }

  lemma {:induction false} StackBack<L(!new)>(zs: seq<QueryIter<Node, L>>, rest: seq<L>, others: seq<L>)
    requires zs != [] && zs[|zs| - 1] !in zs[..|zs| - 1]
    requires Traversal(zs[|zs| - 1], rest) && Stack(zs[..|zs| - 1], others)
    ensures Stack(zs, rest + others)
  {
    assert (rest + others)[..|rest|] == rest && (rest + others)[|rest|..] == others;
  }

  /** One call into the last traversal. */
  method Pull<L(!new)>(zs: seq<QueryIter<Node, L>>, ghost pending: seq<L>) returns (r: Option<L>, ghost after: seq<L>)
    requires zs != [] && Stack(zs, pending)
    modifies zs[|zs| - 1]
    ensures r.Some? ==> Stack(zs, after) && pending == [r.value] + after
    ensures r.None? ==> Stack(zs[..|zs| - 1], after) && pending == after
  {
    ghost var rest, others := StackTop(zs, pending);
    ghost var rest';
    r, rest' := TakeNext(zs[|zs| - 1], rest);
    if r.Some? {
      StackBack(zs, rest', others);
      HeadFirst(r.value, rest', others);
      after := rest' + others;
    } else {
      after := others;
    }
  }

  lemma {:induction false} HeadFirst<L>(head: L, rest: seq<L>, others: seq<L>)
    ensures ([head] + rest) + others == [head] + (rest + others)
  {
  }

  class MultiQueryIter<L(!new)> {
    var zones: seq<QueryIter<Node, L>>
    ghost var pending: seq<L>
    ghost var repr: set<QueryIter<Node, L>>

    ghost predicate Valid()
      reads this, repr
    {
      (forall z :: z in zones ==> z in repr) && Stack(zones, pending)
    }

    constructor (trees: seq<RTree<Node, L>>, fn: Node -> bool, fl: L -> bool)
      requires AllKeep(trees, fn, fl)
      ensures Valid() && fresh(repr)
      ensures pending == Hits(trees, fn, fl)
    {
      var traversals, owned := OpenZones(trees, fn, fl);
      zones, pending, repr := traversals, Hits(trees, fn, fl), owned;
    }

    /** Yields the next leaf, leaving a zone when its traversal ends. */
    method Next() returns (r: Option<L>)
      requires Valid()
      modifies this, repr
      ensures Valid() && repr == old(repr)
      ensures r.Some? ==> old(pending) == [r.value] + pending
      ensures r.None? ==> old(pending) == [] && pending == []
    {
      var left := zones;
      ghost var after := pending;
      while left != []
        invariant Stack(left, after) && after == old(pending)
        invariant zones == old(zones) && pending == old(pending) && repr == old(repr)
        invariant forall z :: z in left ==> z in repr
        decreases |left|
      {
        assert left[|left| - 1] in left;
        r, after := Pull(left, after);
        if r.Some? {
          zones, pending := left, after;
          return;
        }
        left := left[..|left| - 1];
      }
      zones, pending := left, after;
      r := None;
    }
  }

  /** Puts a new traversal on top. */
  method OpenZone<L(!new)>(tree: RTree<Node, L>, fn: Node -> bool, fl: L -> bool, below: seq<QueryIter<Node, L>>,
                           ghost pending: seq<L>) returns (zone: QueryIter<Node, L>)
    requires Stack(below, pending) && tree.Shape() && Keeps(tree, fn, fl)
    ensures fresh(zone) && Stack(below + [zone], Passing(tree.leaves, fl, 0) + pending)
  {
    zone := new QueryIter(tree, fn, fl);
    StackPush(below, pending, zone, Passing(tree.leaves, fl, 0));
  }

  /** Starts a traversal of each zone whose box passes the node filter. */
  method OpenZones<L(!new)>(trees: seq<RTree<Node, L>>, fn: Node -> bool, fl: L -> bool)
    returns (zones: seq<QueryIter<Node, L>>, ghost owned: set<QueryIter<Node, L>>)
    requires AllKeep(trees, fn, fl)
    ensures Stack(zones, Hits(trees, fn, fl)) && fresh(owned)
    ensures forall z :: z in zones ==> z in owned
  {
    if trees == [] {
      return [], {};
    }
    var last, others := trees[|trees| - 1], trees[..|trees| - 1];
    zones, owned := OpenZones(others, fn, fl);
    if fn(last.bbox) {
      var zone := OpenZone(last, fn, fl, zones, Hits(others, fn, fl));
      zones, owned := zones + [zone], owned + {zone};
    } else {
      assert [] + Hits(others, fn, fl) == Hits(others, fn, fl);
    }
  }

  // ---- the hits are a filter over all leaves ----

  /** All leaves, in the order the zones are visited. */
  ghost function Leaves<L(!new)>(trees: seq<RTree<Node, L>>): seq<L> {
    if trees == [] then [] else trees[|trees| - 1].leaves + Leaves(trees[..|trees| - 1])
  }

  lemma {:induction false} PassingShift<L>(a: seq<L>, b: seq<L>, fl: L -> bool, k: nat)
    requires k <= |b|
    ensures Passing(a + b, fl, |a| + k) == Passing(b, fl, k)
    decreases |b| - k
  {
    if k < |b| {
      assert (a + b)[|a| + k] == b[k];
      PassingShift(a, b, fl, k + 1);
      assert |a| + (k + 1) == |a| + k + 1;
    }
  }

  lemma {:induction false} PassingConcat<L>(a: seq<L>, b: seq<L>, fl: L -> bool, from: nat)
    requires from <= |a|
    ensures Passing(a + b, fl, from) == Passing(a, fl, from) + Passing(b, fl, 0)
    decreases |a| - from
  {
    if from < |a| {
      PassingConcat(a, b, fl, from + 1);
    } else {
      PassingShift(a, b, fl, 0);
    }
  }

  lemma {:induction false} PassingNone<L>(leaves: seq<L>, fl: L -> bool, from: nat)
    requires forall leaf :: leaf in leaves ==> !fl(leaf)
    ensures Passing(leaves, fl, from) == []
    decreases |leaves| - from
  {
    if from < |leaves| {
      PassingNone(leaves, fl, from + 1);
    }
  }

  /** A zone's box is worth visiting whenever one of its leaves passes. */
  ghost predicate Lossless<L(!new)>(trees: seq<RTree<Node, L>>, fn: Node -> bool, fl: L -> bool) {
    forall t, leaf :: t in trees && leaf in t.leaves && fl(leaf) ==> fn(t.bbox)
  }

  /** A query over all zones yields exactly the leaves that pass, each once, in zone and leaf order. */
  lemma {:induction false} HitsAreFilter<L(!new)>(trees: seq<RTree<Node, L>>, fn: Node -> bool, fl: L -> bool)
    requires Lossless(trees, fn, fl)
    ensures Hits(trees, fn, fl) == Passing(Leaves(trees), fl, 0)
  {
    if trees != [] {
      var last, others := trees[|trees| - 1], trees[..|trees| - 1];
      assert forall t :: t in others ==> t in trees;
      HitsAreFilter(others, fn, fl);
      PassingConcat(last.leaves, Leaves(others), fl, 0);
      if !fn(last.bbox) {
        PassingNone(last.leaves, fl, 0);
      }
    }
  }
}
