/** Adding up a sequence of numbers. */
module Sums {

  function Sum(ws: seq<nat>): nat {
    if ws == [] then 0 else Sum(ws[..|ws| - 1]) + ws[|ws| - 1]
  }

  lemma {:induction false} SumAppend(ws: seq<nat>, w: nat)
    ensures Sum(ws + [w]) == Sum(ws) + w
  {
    assert (ws + [w])[..|ws|] == ws;
  }

  lemma {:induction false} SumConcat(a: seq<nat>, b: seq<nat>)
    ensures Sum(a + b) == Sum(a) + Sum(b)
  {
    if b == [] {
      assert a + b == a;
    } else {
      var b0, last := b[..|b| - 1], b[|b| - 1];
      SumConcat(a, b0);
      assert (a + b0) + [last] == a + b;
      SumAppend(a + b0, last);
    }
  }

  lemma {:induction false} SumFirst(w: nat, ws: seq<nat>)
    ensures Sum([w] + ws) == w + Sum(ws)
  {
    SumConcat([w], ws);
    SumAppend([], w);
    assert [] + [w] == [w];
  }

  lemma {:induction false} SumUpdate(ws: seq<nat>, i: nat, w: nat)
    requires i < |ws|
    ensures Sum(ws[i := w]) + ws[i] == Sum(ws) + w
  {
    var n := |ws| - 1;
    assert ws[i := w][..n] == if i < n then ws[..n][i := w] else ws[..n];
    if i < n {
      SumUpdate(ws[..n], i, w);
    }
  }

  lemma {:induction false} SumZeros(ws: seq<nat>)
    requires forall i :: 0 <= i < |ws| ==> ws[i] == 0
    ensures Sum(ws) == 0
  {
    if ws != [] {
      SumZeros(ws[..|ws| - 1]);
    }
  }
}
