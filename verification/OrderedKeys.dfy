/** Keys of an ordered map (a BTreeMap) visited in increasing order. */
module OrderedKeys {
  import opened Ranges

  predicate Ascending(ks: seq<Addr>) {
    forall i, j :: 0 <= i < j < |ks| ==> ks[i] < ks[j]
  }

  predicate Below(k: Addr, s: set<Addr>) {
    forall j :: j in s ==> k <= j
  }

  predicate Above(k: Addr, s: set<Addr>) {
    forall j :: j in s ==> j <= k
  }

  function MinKey(s: set<Addr>): (k: Addr)
    requires s != {}
    ensures k in s && Below(k, s)
  {
    MinExists(s);
    var k :| k in s && Below(k, s);
    k
  }

  function MaxKey(s: set<Addr>): (k: Addr)
    requires s != {}
    ensures k in s && Above(k, s)
  {
    MaxExists(s);
    var k :| k in s && Above(k, s);
    k
  }

  lemma {:induction false} MinExists(s: set<Addr>)
    requires s != {}
    ensures exists k :: k in s && Below(k, s)
  {
    var a :| a in s;
    var rest := s - {a};
    assert forall j :: j in s ==> j == a || j in rest;
    if rest == {} {
      assert Below(a, s);
    } else {
      MinExists(rest);
      var m :| m in rest && Below(m, rest);
      assert Below(if a < m then a else m, s);
    }
  }

  lemma {:induction false} MaxExists(s: set<Addr>)
    requires s != {}
    ensures exists k :: k in s && Above(k, s)
  {
    var a :| a in s;
    var rest := s - {a};
    assert forall j :: j in s ==> j == a || j in rest;
    if rest == {} {
      assert Above(a, s);
    } else {
      MaxExists(rest);
      var m :| m in rest && Above(m, rest);
      assert Above(if a < m then m else a, s);
    }
  }

  function SortedKeys(s: set<Addr>): (ks: seq<Addr>)
    ensures Ascending(ks)
    ensures forall k :: k in ks <==> k in s
  {
    if s == {} then []
    else
      var k := MinKey(s);
      var rest := SortedKeys(s - {k});
      assert forall i :: 0 <= i < |rest| ==> rest[i] in s - {k};
      [k] + rest
  }

  lemma {:induction false} AscendingUnique(a: seq<Addr>, b: seq<Addr>)
    requires Ascending(a) && Ascending(b)
    requires forall k :: k in a <==> k in b
    ensures a == b
  {
    if a == [] {
      assert forall i :: 0 <= i < |b| ==> b[i] in a;
    } else {
      assert a[0] in b;
      assert b[0] in a;
      assert a[0] == b[0];
      forall k ensures k in a[1..] <==> k in b[1..] {
        assert k in a <==> k == a[0] || k in a[1..];
        assert k in b <==> k == b[0] || k in b[1..];
      }
      AscendingUnique(a[1..], b[1..]);
    }
  }

  /** The longest prefix of keys that do not exceed `max`. */
  function TakeUpTo(ks: seq<Addr>, max: Addr): (r: seq<Addr>)
    ensures r <= ks
    ensures forall k :: k in r ==> k <= max
    ensures Ascending(ks) ==> forall k :: k in ks && k <= max ==> k in r
  {
    if ks == [] || ks[0] > max then []
    else [ks[0]] + TakeUpTo(ks[1..], max)
  }
}
