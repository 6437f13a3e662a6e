/** The memory of a database as the search sees it: zones of leaves, and words of the history that lie in them. */
module SearchMemory {
  import opened Ranges
  import opened PackedTree
  import opened MemoryDb
  import MQ = MultiQuery
  import D = Disjoint
  import opened SearchLeaf
  import opened SearchZone

  // ---- zones of the database as leaves to search ----

  type Zone = RTree<Node, WriteLeaf>

  ghost predicate Searchable(db: Db) {
    && (forall leaf :: leaf in db.Leaves() ==> db.Readable(leaf) && leaf.node.addrMax < ADDR_MAX)
    && Apart(db.Leaves()) && ZonesSeparate(db.writeZones)
  }

  /** No leaf of one zone ends right before a leaf of another zone. */
  ghost predicate ZonesSeparate(zs: seq<Zone>) {
    forall i, j, a, b :: 0 <= i < |zs| && 0 <= j < |zs| && i != j && a in zs[i].leaves && b in zs[j].leaves
                         ==> a.node.addrMax as int + 1 != b.node.addrMin as int
  }

  function HayOf(db: Db, leaf: WriteLeaf): (hay: Hay)
    requires db.Readable(leaf)
    ensures hay.Valid() && hay.node == leaf.node
  {
    Hay(leaf.node, db.MemLeafData(leaf))
  }

  function Hays(db: Db, leaves: seq<WriteLeaf>): (hays: seq<Hay>)
    requires forall leaf :: leaf in leaves ==> db.Readable(leaf)
    ensures |hays| == |leaves| && forall i :: 0 <= i < |leaves| ==> hays[i] == HayOf(db, leaves[i])
  {
    seq(|leaves|, i requires 0 <= i < |leaves| => HayOf(db, leaves[i]))
  }

  ghost predicate ReadableZone(db: Db, i: nat) {
    i < |db.writeZones| && forall leaf :: leaf in db.writeZones[i].leaves ==> db.Readable(leaf)
  }

  ghost function ZoneHays(db: Db, i: nat): seq<Hay>
    requires ReadableZone(db, i)
  {
    Hays(db, db.writeZones[i].leaves)
  }

  lemma {:induction false} ZoneReadable(db: Db, i: nat)
    requires Searchable(db) && i < |db.writeZones|
    ensures ReadableZone(db, i)
  {
    forall leaf | leaf in db.writeZones[i].leaves ensures db.Readable(leaf) {
      LeafOfZone(db.writeZones, i, leaf);
    }
  }

  /** Where the leaves of zone `i` stand among all leaves. */
  lemma {:induction false} ZoneAmongAll(zs: seq<Zone>, i: nat) returns (off: nat)
    requires i < |zs|
    ensures off + |zs[i].leaves| <= |MQ.Leaves(zs)|
    ensures forall a :: 0 <= a < |zs[i].leaves| ==> MQ.Leaves(zs)[off + a] == zs[i].leaves[a]
    ensures off == |MQ.Leaves(zs)| - |MQ.Leaves(zs[..i + 1])|
  {
    var last := |zs| - 1;
    if i == last {
      off := 0;
      assert zs[..i + 1] == zs;
    } else {
      var o := ZoneAmongAll(zs[..last], i);
      assert zs[..last][..i + 1] == zs[..i + 1];
      off := |zs[last].leaves| + o;
    }
  }

  lemma {:induction false} ZoneGood(db: Db, i: nat)
    requires Searchable(db) && i < |db.writeZones|
    ensures ReadableZone(db, i) && GoodHays(ZoneHays(db, i)) && Followable(ZoneHays(db, i))
  {
    ZoneReadable(db, i);
    var hays, leaves := ZoneHays(db, i), db.writeZones[i].leaves;
    var off := ZoneAmongAll(db.writeZones, i);
    forall k | 0 <= k < |hays| ensures hays[k].Valid() && hays[k].node.addrMax < ADDR_MAX {
      LeafOfZone(db.writeZones, i, leaves[k]);
    }
    forall j, k | 0 <= j < k < |hays| ensures hays[j].node.Disjoint(hays[k].node) {
      assert db.Leaves()[off + j] == leaves[j] && db.Leaves()[off + k] == leaves[k];
    }
  }

  lemma {:induction false} LeavesGrow(zs: seq<Zone>, i: nat, j: nat)
    requires i <= j <= |zs|
    ensures |MQ.Leaves(zs[..i])| <= |MQ.Leaves(zs[..j])|
    decreases j
  {
    if i < j {
      LeavesGrow(zs, i, j - 1);
      assert zs[..j][..j - 1] == zs[..j - 1];
    }
  }

  /** Leaves of different zones have no point in common. */
  lemma {:induction false} AcrossZones(zs: seq<Zone>, i: nat, j: nat, a: WriteLeaf, b: WriteLeaf)
    requires Apart(MQ.Leaves(zs)) && i < |zs| && j < |zs| && i < j && a in zs[i].leaves && b in zs[j].leaves
    ensures a.node.Disjoint(b.node) && b.node.Disjoint(a.node)
  {
    var p := ZoneAmongAll(zs, i);
    var q := ZoneAmongAll(zs, j);
    LeavesGrow(zs, i + 1, j);
    assert zs[..j + 1][..j] == zs[..j];
    var x :| 0 <= x < |zs[i].leaves| && zs[i].leaves[x] == a;
    var y :| 0 <= y < |zs[j].leaves| && zs[j].leaves[y] == b;
    var all := MQ.Leaves(zs);
    assert all[p + x] == a && all[q + y] == b && q + y < p + x;
  }

  // ---- what the history says ----

  /** From address `s` on, the bytes last accessed by time `t` are `w`. */
  ghost predicate MemoryHolds(h: seq<D.Access>, s: int, w: seq<Byte>, t: Time) {
    forall i :: 0 <= i < |w| ==> ByteIs(h, s + i, t, w[i])
  }

  ghost predicate ByteIs(h: seq<D.Access>, x: int, t: Time, b: Byte) {
    0 <= x <= ADDR_MAX as int && D.LastByte(h, x as Addr, t) == Some(b)
  }

  lemma {:induction false} AtIsByte(db: Db, h: seq<D.Access>, leaf: WriteLeaf, x: int, t: Time, b: Byte)
    requires Holds(db, h, leaf) && HayOf(db, leaf).At(x, t, b)
    ensures ByteIs(h, x, t, b)
  {
    assert leaf.node.Covers(x as Addr, t);
  }

  lemma {:induction false} MemIsByte(db: Db, h: seq<D.Access>, end: Time, i: nat, x: int, t: Time, b: Byte)
    requires Describes(db, h, end) && ReadableZone(db, i) && Mem(ZoneHays(db, i), x, t, b)
    ensures ByteIs(h, x, t, b)
  {
    var hays := ZoneHays(db, i);
    var k :| 0 <= k < |hays| && hays[k].At(x, t, b);
    var leaf := db.writeZones[i].leaves[k];
    LeafOfZone(db.writeZones, i, leaf);
    LeafHoldsHistory(db, h, end, leaf);
    AtIsByte(db, h, leaf, x, t, b);
  }

  lemma {:induction false} LeafHoldsHistory(db: Db, h: seq<D.Access>, end: Time, leaf: WriteLeaf)
    requires Describes(db, h, end) && leaf in db.Leaves()
    ensures Holds(db, h, leaf)
  {
    var k :| 0 <= k < |db.Leaves()| && db.Leaves()[k] == leaf;
  }

  lemma {:induction false} HoldsIsMemory(db: Db, h: seq<D.Access>, end: Time, i: nat, s: int, w: seq<Byte>, t: Time)
    requires Describes(db, h, end) && ReadableZone(db, i) && HoldsWord(ZoneHays(db, i), s, w, t)
    ensures MemoryHolds(h, s, w, t)
  {
    forall k | 0 <= k < |w| ensures ByteIs(h, s + k, t, w[k]) {
      MemIsByte(db, h, end, i, s + k, t, w[k]);
    }
  }

  lemma {:induction false} LeafAt(db: Db, h: seq<D.Access>, end: Time, x: Addr, t: Time) returns (leaf: WriteLeaf)
    requires Describes(db, h, end) && t <= end && D.LastByte(h, x, t).Some?
    ensures leaf in db.Leaves() && leaf.node.Covers(x, t)
  {
    assert CoveredBy(db.Leaves(), x, t);
    var k :| 0 <= k < |db.Leaves()| && db.Leaves()[k].node.Covers(x, t);
    leaf := db.Leaves()[k];
  }

  lemma {:induction false} ByteIsAt(db: Db, h: seq<D.Access>, leaf: WriteLeaf, x: int, t: Time, b: Byte)
    requires Holds(db, h, leaf) && ByteIs(h, x, t, b) && leaf.node.Covers(x as Addr, t)
    ensures db.Readable(leaf) && HayOf(db, leaf).At(x, t, b)
  {
    assert D.LastByte(h, x as Addr, t) == Some(db.ByteOf(leaf, x as Addr));
  }

  lemma {:induction false} LeafOfByte(db: Db, h: seq<D.Access>, end: Time, x: int, t: Time, b: Byte)
    returns (leaf: WriteLeaf)
    requires Describes(db, h, end) && t <= end && ByteIs(h, x, t, b)
    ensures leaf in db.Leaves() && db.Readable(leaf) && HayOf(db, leaf).At(x, t, b)
  {
    leaf := LeafAt(db, h, end, x as Addr, t);
    LeafHoldsHistory(db, h, end, leaf);
    ByteIsAt(db, h, leaf, x, t, b);
  }

  lemma {:induction false} LeafIsHay(db: Db, i: nat, leaf: WriteLeaf, x: int, t: Time, b: Byte)
    requires ReadableZone(db, i) && leaf in db.writeZones[i].leaves && db.Readable(leaf) && HayOf(db, leaf).At(x, t, b)
    ensures Mem(ZoneHays(db, i), x, t, b)
  {
    var j :| 0 <= j < |db.writeZones[i].leaves| && db.writeZones[i].leaves[j] == leaf;
    assert ZoneHays(db, i)[j].At(x, t, b);
  }

  lemma {:induction false} HayIsLeaf(db: Db, i: nat, x: int, t: Time, b: Byte) returns (leaf: WriteLeaf)
    requires ReadableZone(db, i) && Mem(ZoneHays(db, i), x, t, b)
    ensures leaf in db.writeZones[i].leaves && db.Readable(leaf) && HayOf(db, leaf).At(x, t, b)
  {
    var k :| 0 <= k < |ZoneHays(db, i)| && ZoneHays(db, i)[k].At(x, t, b);
    leaf := db.writeZones[i].leaves[k];
  }

  /** A byte of memory lies in some zone. */
  lemma {:induction false} ByteInZone(db: Db, h: seq<D.Access>, end: Time, x: int, t: Time, b: Byte)
    returns (i: nat, leaf: WriteLeaf)
    requires Describes(db, h, end) && Searchable(db) && t <= end && ByteIs(h, x, t, b)
    ensures ReadableZone(db, i) && leaf in db.writeZones[i].leaves && db.Readable(leaf) && HayOf(db, leaf).At(x, t, b)
  {
    leaf := LeafOfByte(db, h, end, x, t, b);
    i := ZoneOfLeaf(db.writeZones, leaf);
    ZoneReadable(db, i);
  }

  /** Two bytes next to each other at one time lie in the same zone. */
  lemma {:induction false} NextByteSameZone(db: Db, i: nat, a: WriteLeaf, j: nat, b: WriteLeaf, x: int, t: Time,
                                            ca: Byte, cb: Byte)
    requires Searchable(db) && i < |db.writeZones| && j < |db.writeZones|
    requires a in db.writeZones[i].leaves && db.Readable(a) && HayOf(db, a).At(x, t, ca)
    requires b in db.writeZones[j].leaves && db.Readable(b) && HayOf(db, b).At(x + 1, t, cb)
    ensures i == j
  {
    if i != j {
      assert a.node.addrMax as int + 1 != b.node.addrMin as int;
      if i < j {
        AcrossZones(db.writeZones, i, j, a, b);
      } else {
        AcrossZones(db.writeZones, j, i, b, a);
      }
    }
  }

  lemma {:induction false} MemoryPrefix(h: seq<D.Access>, s: int, w: seq<Byte>, n: nat, t: Time)
    requires MemoryHolds(h, s, w, t) && n < |w|
    ensures MemoryHolds(h, s, w[..n], t) && ByteIs(h, s + n, t, w[n])
  {
    var u := w[..n];
    forall k | 0 <= k < n ensures ByteIs(h, s + k, t, u[k]) {
      assert ByteIs(h, s + k, t, w[k]);
    }
  }

  /** The last byte of a word lies in the zone of the bytes before it. */
  lemma {:induction false} LastByteSameZone(db: Db, i: nat, leaf: WriteLeaf, j: nat, s: int, w: seq<Byte>, t: Time)
    requires Searchable(db) && |w| > 1 && ReadableZone(db, i) && ReadableZone(db, j)
    requires leaf in db.writeZones[i].leaves && db.Readable(leaf) && HayOf(db, leaf).At(s + |w| - 1, t, w[|w| - 1])
    requires HoldsWord(ZoneHays(db, j), s, w[..|w| - 1], t)
    ensures i == j && HoldsWord(ZoneHays(db, i), s, w, t)
  {
    var p := |w| - 2;
    assert Mem(ZoneHays(db, j), s + p, t, w[..|w| - 1][p]);
    var before := HayIsLeaf(db, j, s + p, t, w[p]);
    NextByteSameZone(db, j, before, i, leaf, s + p, t, w[p], w[|w| - 1]);
    LeafIsHay(db, i, leaf, s + |w| - 1, t, w[|w| - 1]);
    WordLonger(ZoneHays(db, i), s, w, |w| - 1, t);
  }

  /** A word in memory lies in one zone. */
  lemma {:induction false} WordInZone(db: Db, h: seq<D.Access>, end: Time, s: int, w: seq<Byte>, t: Time)
    returns (i: nat)
    requires Describes(db, h, end) && Searchable(db) && t <= end && MemoryHolds(h, s, w, t) && w != []
    ensures ReadableZone(db, i) && HoldsWord(ZoneHays(db, i), s, w, t)
    decreases |w|
  {
    var n := |w| - 1;
    MemoryPrefix(h, s, w, n, t);
    var leaf;
    i, leaf := ByteInZone(db, h, end, s + n, t, w[n]);
    if n == 0 {
      LeafIsHay(db, i, leaf, s, t, w[0]);
      WordOne(ZoneHays(db, i), s, w, t);
    } else {
      var j := WordInZone(db, h, end, s, w[..n], t);
      LastByteSameZone(db, i, leaf, j, s, w, t);
    }
  }

  lemma {:induction false} WordOne(hays: seq<Hay>, s: int, w: seq<Byte>, t: Time)
    requires |w| == 1 && Mem(hays, s, t, w[0])
    ensures HoldsWord(hays, s, w, t)
  {
    forall k | 0 <= k < |w| ensures Mem(hays, s + k, t, w[k]) {
      assert k == 0;
    }
  }

  lemma {:induction false} WordLonger(hays: seq<Hay>, s: int, w: seq<Byte>, n: nat, t: Time)
    requires n == |w| - 1 && HoldsWord(hays, s, w[..n], t) && Mem(hays, s + n, t, w[n])
    ensures HoldsWord(hays, s, w, t)
  {
    forall k | 0 <= k < |w| ensures Mem(hays, s + k, t, w[k]) {
      if k < n {
        assert Mem(hays, s + k, t, w[..n][k]);
      }
    }
  }
}
