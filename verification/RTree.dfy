/** The packed R-tree: shape of its levels, and which leaves lie below which node. */
module PackedTree {

  datatype RTree<N, L> = RTree(order: nat, leaves: seq<L>, levels: seq<seq<N>>, bbox: N) {
    function Depth(): nat {
      |levels|
    }

    /** Number of entries of a level, the level after the last being the leaves. */
    function LevelLen(d: nat): nat
      requires d <= Depth()
    {
      if d < Depth() then |levels[d]| else |leaves|
    }

    function Group(): (g: nat)
      ensures g > 0
    {
      Pow2(order)
    }

    ghost predicate Packs(d: nat)
      requires d < Depth()
    {
      |levels[d]| > 0 && |levels[d]| == CeilDiv(LevelLen(d + 1), Group())
    }

    /** Each level packs the next one into groups; the root level fits in one group. */
    ghost predicate Shape() {
      LevelLen(0) <= Group() && forall d :: 0 <= d < Depth() ==> Packs(d)
    }
  }

  function Pow2(n: nat): (p: nat)
    ensures p > 0
  {
    if n == 0 then 1 else 2 * Pow2(n - 1)
  }

  function CeilDiv(n: nat, g: nat): nat
    requires g > 0
  {
    (n + g - 1) / g
  }

  function Min(a: nat, b: nat): nat {
    if a < b then a else b
  }

  // ---- arithmetic of groups ----

  lemma {:induction false} DivMulGalois(g: nat, n: nat, a: nat)
    requires g > 0
    ensures n * g <= a <==> n <= a / g
  {
    var q := a / g;
    assert q * g <= a < q * g + g;
    if n <= q {
      assert n * g <= q * g;
    } else {
      assert n >= q + 1;
      assert n * g >= (q + 1) * g;
    }
  }

  lemma {:induction false} CeilDivIs(n: nat, g: nat, i: nat)
    requires g > 0
    ensures i < CeilDiv(n, g) <==> i * g < n
  {
    DivMulGalois(g, i + 1, n + g - 1);
    assert (i + 1) * g == i * g + g;
  }

  lemma {:induction false} GroupOf(g: nat, n: nat, i: nat)
    requires g > 0 && i < g
    ensures (n * g + i) / g == n
  {
    DivMulGalois(g, n, n * g + i);
    DivMulGalois(g, n + 1, n * g + i);
    assert (n + 1) * g == n * g + g;
  }

  // ---- nodes and the leaves below them ----

  /** Index of the group, hence of the node above, of an entry. */
  function Parent(g: nat, c: nat): nat
    requires g > 0
  {
    DivMulGalois(g, 0, c);
    c / g
  }

  /** The first leaf below entry `n`, `h` levels above the leaves. */
  function FirstLeaf(g: nat, h: nat, n: nat): nat {
    if h == 0 then n else FirstLeaf(g, h - 1, n * g)
  }

  /** The entry `h` levels up that leaf `j` lies below. */
  function Ancestor(g: nat, h: nat, j: nat): nat
    requires g > 0
  {
    if h == 0 then j else Parent(g, Ancestor(g, h - 1, j))
  }

  /** `FirstLeaf` and `Ancestor` are adjoint: leaf `j` lies below or after entry `n` iff its ancestor does. */
  lemma {:induction false} FirstLeafAncestor(g: nat, h: nat, n: nat, j: nat)
    requires g > 0
    ensures FirstLeaf(g, h, n) <= j <==> n <= Ancestor(g, h, j)
  {
    if h > 0 {
      FirstLeafAncestor(g, h - 1, n * g, j);
      DivMulGalois(g, n, Ancestor(g, h - 1, j));
    }
  }

  /** An entry exists at its level exactly when some leaf does below it. */
  lemma {:induction false} FirstLeafInRange<N, L>(t: RTree<N, L>, h: nat, n: nat)
    requires t.Shape() && h <= t.Depth()
    ensures n < t.LevelLen(t.Depth() - h) <==> FirstLeaf(t.Group(), h, n) < |t.leaves|
  {
    if h > 0 {
      FirstLeafInRange(t, h - 1, n * t.Group());
      assert t.Packs(t.Depth() - h);
      CeilDivIs(t.LevelLen(t.Depth() - h + 1), t.Group(), n);
    }
  }

  lemma {:induction false} AncestorInRange<N, L>(t: RTree<N, L>, h: nat, j: nat)
    requires t.Shape() && h <= t.Depth() && j < |t.leaves|
    ensures Ancestor(t.Group(), h, j) < t.LevelLen(t.Depth() - h)
  {
    var a := Ancestor(t.Group(), h, j);
    FirstLeafAncestor(t.Group(), h, a, j);
    FirstLeafInRange(t, h, a);
  }

  /** Node `h` levels above the leaves on the path to leaf `j`. */
  function AncestorNode<N, L>(t: RTree<N, L>, h: nat, j: nat): N
    requires t.Shape() && 1 <= h <= t.Depth() && j < |t.leaves|
  {
    AncestorInRange(t, h, j);
    t.levels[t.Depth() - h][Ancestor(t.Group(), h, j)]
  }
}
