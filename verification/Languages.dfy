/** The words of a regular expression, told by where they can be cut. */
module Languages {
  import opened Ranges
  import opened Automata
  import opened Thompson
  import Utf8

  /** Places to cut the word into `n` pieces, some possibly empty. */
  ghost predicate Cuts(w: seq<Byte>, cuts: seq<nat>, n: nat) {
    && |cuts| == n + 1 && cuts[0] == 0 && cuts[n] == |w|
    && forall i, j :: 0 <= i <= j <= n ==> cuts[i] <= cuts[j]
  }

  ghost predicate Pieces(w: seq<Byte>, cuts: seq<nat>, langs: seq<Language>) {
    Cuts(w, cuts, |langs|) && forall i :: 0 <= i < |langs| ==> w[cuts[i]..cuts[i + 1]] in langs[i]
  }

  ghost predicate Cuttable(w: seq<Byte>, langs: seq<Language>) {
    exists cuts :: Pieces(w, cuts, langs)
  }

  ghost predicate CutBy(lang: Language, langs: seq<Language>) {
    forall w :: w in lang <==> Cuttable(w, langs)
  }

  lemma {:induction false} PiecesJoin(langs: seq<Language>, l: Language, u: seq<Byte>, v: seq<Byte>, cuts: seq<nat>)
    requires Pieces(u, cuts, langs) && v in l
    ensures Pieces(u + v, cuts + [|u + v|], langs + [l])
  {
    var w, all := u + v, cuts + [|u + v|];
    forall i | 0 <= i < |langs + [l]| ensures w[all[i]..all[i + 1]] in (langs + [l])[i] {
      if i < |langs| {
        assert w[all[i]..all[i + 1]] == u[cuts[i]..cuts[i + 1]];
      } else {
        assert w[all[i]..all[i + 1]] == v;
      }
    }
  }

  lemma {:induction false} PiecesPart(langs: seq<Language>, w: seq<Byte>, cuts: seq<nat>)
    requires Pieces(w, cuts, langs) && langs != []
    ensures var n := |langs| - 1;
      cuts[n] <= |w| && Pieces(w[..cuts[n]], cuts[..n + 1], langs[..n]) && w[cuts[n]..] in langs[n]
  {
    var n := |langs| - 1;
    var u := w[..cuts[n]];
    forall i | 0 <= i < n ensures u[cuts[i]..cuts[i + 1]] in langs[..n][i] {
      assert u[cuts[i]..cuts[i + 1]] == w[cuts[i]..cuts[i + 1]];
    }
    assert w[cuts[n]..cuts[n + 1]] == w[cuts[n]..];
  }

  /** Appending one more language to read. */
  lemma {:induction false} CatPieces(part: Language, langs: seq<Language>, l: Language)
    requires CutBy(part, langs)
    ensures CutBy(Cat(part, l), langs + [l])
  {
    forall w ensures w in Cat(part, l) <==> Cuttable(w, langs + [l]) {
      if w in Cat(part, l) {
        var u, v :| u in part && v in l && w == u + v;
        assert Cuttable(u, langs);
        var cuts :| Pieces(u, cuts, langs);
        PiecesJoin(langs, l, u, v, cuts);
      }
      if Cuttable(w, langs + [l]) {
        var cuts :| Pieces(w, cuts, langs + [l]);
        LastPiece(part, langs, l, w, cuts);
      }
    }
  }

  lemma {:induction false} LastPiece(part: Language, langs: seq<Language>, l: Language, w: seq<Byte>, cuts: seq<nat>)
    requires CutBy(part, langs) && Pieces(w, cuts, langs + [l])
    ensures w in Cat(part, l)
  {
    PiecesPart(langs + [l], w, cuts);
    var n := |langs|;
    assert (langs + [l])[..n] == langs && Cuttable(w[..cuts[n]], langs);
    InCat(part, l, w[..cuts[n]], w[cuts[n]..]);
    assert w == w[..cuts[n]] + w[cuts[n]..];
  }

  lemma {:induction false} NoPieces()
    ensures CutBy(Only([]), [])
  {
    forall w ensures w in Only([]) <==> Cuttable(w, []) {
      if w == [] {
        assert Pieces(w, [0], []);
      }
    }
  }

  // ---- concatenation ----

  ghost function LangsUpTo(h: Hir, n: nat): seq<Language>
    requires h.Concat? && Supported(h) && n <= |h.list|
  {
    seq(n, i requires 0 <= i < n => Lang(h.list[i]))
  }

  lemma {:induction false} CatUpToPieces(h: Hir, n: nat)
    requires h.Concat? && Supported(h) && n <= |h.list|
    ensures CutBy(CatUpTo(h, n), LangsUpTo(h, n))
  {
    if n == 0 {
      NoPieces();
      assert LangsUpTo(h, 0) == [];
    } else {
      CatUpToPieces(h, n - 1);
      assert LangsUpTo(h, n) == LangsUpTo(h, n - 1) + [Lang(h.list[n - 1])];
      CatPieces(CatUpTo(h, n - 1), LangsUpTo(h, n - 1), Lang(h.list[n - 1]));
    }
  }

  /** Piece `i` is a word of expression `i`. */
  ghost predicate ReadInOrder(w: seq<Byte>, cuts: seq<nat>, list: seq<Hir>) {
    && Cuts(w, cuts, |list|)
    && forall i :: 0 <= i < |list| ==> Supported(list[i]) && w[cuts[i]..cuts[i + 1]] in Lang(list[i])
  }

  /** A concatenation reads the words made of one word of each part, in the order of the parts. */
  lemma {:induction false} ConcatWords(list: seq<Hir>, w: seq<Byte>)
    requires Supported(Concat(list))
    ensures w in Lang(Concat(list)) <==> exists cuts :: ReadInOrder(w, cuts, list)
  {
    var h := Concat(list);
    CatUpToPieces(h, |list|);
    assert w in CatUpTo(h, |list|) <==> Cuttable(w, LangsUpTo(h, |list|));
    forall cuts ensures Pieces(w, cuts, LangsUpTo(h, |list|)) <==> ReadInOrder(w, cuts, list) {
      assert forall i :: 0 <= i < |list| ==> LangsUpTo(h, |list|)[i] == Lang(list[i]);
    }
  }

  // ---- repetition ----

  ghost function Same(a: Language, n: nat): (langs: seq<Language>)
    ensures |langs| == n && forall i :: 0 <= i < n ==> langs[i] == a
  {
    seq(n, _ => a)
  }

  lemma {:induction false} PowerPieces(a: Language, n: nat)
    ensures CutBy(Power(a, n), Same(a, n))
  {
    if n == 0 {
      NoPieces();
    } else {
      PowerPieces(a, n - 1);
      assert Same(a, n) == Same(a, n - 1) + [a];
      CatPieces(Power(a, n - 1), Same(a, n - 1), a);
    }
  }

  ghost predicate ReadTimes(w: seq<Byte>, cuts: seq<nat>, sub: Hir, n: nat) {
    && Cuts(w, cuts, n) && Supported(sub)
    && forall i :: 0 <= i < n ==> w[cuts[i]..cuts[i + 1]] in Lang(sub)
  }

  ghost predicate ReadSome(w: seq<Byte>, min: nat, max: Option<nat>, sub: Hir) {
    exists n: nat, cuts :: ReadTimes(w, cuts, sub, n) && min <= n && (max.Some? ==> n <= max.value || n == min)
  }

  /** A repetition reads the words made of a number of words of its expression: at least `min`, at most `max` if there
      is one; an upper bound below the lower one asks for exactly `min`. */
  lemma {:induction false} RepetitionWords(min: nat, max: Option<nat>, sub: Hir, w: seq<Byte>)
    requires Supported(sub)
    ensures w in Lang(Repetition(min, max, sub)) <==> ReadSome(w, min, max, sub)
  {
    if w in Lang(Repetition(min, max, sub)) {
      var n: nat :| Allows(min, max, n) && w in Power(Lang(sub), n);
      PowerPieces(Lang(sub), n);
      assert Cuttable(w, Same(Lang(sub), n));
      var cuts :| Pieces(w, cuts, Same(Lang(sub), n));
      assert ReadTimes(w, cuts, sub, n);
    }
    if ReadSome(w, min, max, sub) {
      var n: nat, cuts :| ReadTimes(w, cuts, sub, n) && min <= n && (max.Some? ==> n <= max.value || n == min);
      assert Pieces(w, cuts, Same(Lang(sub), n));
      PowerPieces(Lang(sub), n);
      assert Cuttable(w, Same(Lang(sub), n)) && Allows(min, max, n);
    }
  }

  // ---- alternation and the leaves ----

  lemma {:induction false} AnyUpToIs(h: Hir, n: nat, w: seq<Byte>)
    requires h.Alternation? && Supported(h) && n <= |h.list|
    ensures w in AnyUpTo(h, n) <==> exists i :: 0 <= i < n && w in Lang(h.list[i])
  {
    if n > 0 {
      AnyUpToIs(h, n - 1, w);
    }
  }

  /** An alternation reads the words of any of its parts. */
  lemma {:induction false} AlternationWords(list: seq<Hir>, w: seq<Byte>)
    requires Supported(Alternation(list))
    ensures w in Lang(Alternation(list)) <==> exists i :: 0 <= i < |list| && w in Lang(list[i])
  {
    AnyUpToIs(Alternation(list), |list|, w);
  }

  /** The empty expression and a literal read one word; a byte class single bytes in one of its ranges, ends
      included. */
  lemma {:induction false} LeafWords(bytes: seq<Byte>, ranges: seq<(Byte, Byte)>, w: seq<Byte>)
    ensures (w in Lang(Empty) <==> w == []) && (w in Lang(Literal(bytes)) <==> w == bytes)
    ensures w in Lang(Class(ranges))
      <==> |w| == 1 && exists i :: 0 <= i < |ranges| && ranges[i].0 <= w[0] <= ranges[i].1
  {
    if |w| == 1 {
      assert w == [w[0]];
    }
  }

  /** The word decodes to the character `c`, and `c` lies in one of the ranges. */
  ghost predicate DecodesInto(w: seq<Byte>, chars: seq<(Utf8.Scalar, Utf8.Scalar)>, c: Utf8.Scalar) {
    Utf8.DecodeFirst(w) == Some((c, |w|)) && exists i :: 0 <= i < |chars| && chars[i].0 <= c <= chars[i].1
  }

  lemma {:induction false} EncodingDecodes(c: Utf8.Scalar)
    ensures Utf8.DecodeFirst(Utf8.Encode(c)) == Some((c, |Utf8.Encode(c)|))
  {
    Utf8.EncodeDecodes(c, []);
    assert Utf8.Encode(c) + [] == Utf8.Encode(c);
  }

  /** A character class reads the words of UTF-8 that decode to a character in one of its ranges. */
  lemma {:induction false} CharacterWords(chars: seq<(Utf8.Scalar, Utf8.Scalar)>, w: seq<Byte>)
    ensures w in Lang(UnicodeClass(chars))
      <==> Utf8.IsUtf8Char(w) && exists c: Utf8.Scalar :: DecodesInto(w, chars, c)
  {
    if w in Lang(UnicodeClass(chars)) {
      var c: Utf8.Scalar :| InChars(chars, c) && w == Utf8.Encode(c);
      Utf8.EncodedIsUtf8(c);
      EncodingDecodes(c);
      assert DecodesInto(w, chars, c);
    }
    if Utf8.IsUtf8Char(w) {
      var c := Utf8.Utf8IsEncoded(w);
      EncodingDecodes(c);
      assert forall d: Utf8.Scalar :: DecodesInto(w, chars, d) ==> d == c && InChars(chars, c);
    }
  }
}
